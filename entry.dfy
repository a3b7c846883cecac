/**
 * The program entry point: the command-line options (`-h`, `-v`, `-d`,
 * `-s 1,2,3`) and the loop that converts each requested step to a number
 * and runs the matching installer step, turning the first exception into
 * exit status 1.
 */
module Entry {
  import opened Wrappers
  import opened Text

  /** What `parseArguments` decides: print help, print the version, or install. */
  datatype Invocation = ShowHelp | ShowVersion | Install(steps: seq<string>, debugMode: bool)

  /** The steps run when `-s` is absent or has no value after it. */
  const DefaultSteps: seq<string> := ["1", "2", "3"]

  /** The number of installer steps (`stepsFunctions.size()`). */
  const StepCount: int := 3

  /** The value that follows the first `-s`, if there is one. */
  function StepsOption(args: seq<string>): (r: Option<string>)
    ensures r.Some? <==> IndexOf(args, "-s") + 1 < |args|
    ensures r.Some? ==> "-s" in args && r.value == args[IndexOf(args, "-s") + 1]
  {
    var k := IndexOf(args, "-s");
    if k + 1 < |args| then Some(args[k + 1]) else None
  }

  /**
   * Reads the options after the program name. `-h` wins over every other
   * option, then `-v`; otherwise `-d` switches on the dry run and the value
   * after the first `-s` is split at commas into the steps to run.
   */
  method ParseArguments(argv: seq<string>) returns (r: Invocation)
    requires |argv| >= 1
    ensures r.ShowHelp? <==> "-h" in argv[1..]
    ensures r.ShowVersion? <==> "-h" !in argv[1..] && "-v" in argv[1..]
    ensures r.Install? ==> (r.debugMode <==> "-d" in argv[1..])
    ensures r.Install? ==> r.steps == match StepsOption(argv[1..])
                                     case Some(list) => Split(list, ',')
                                     case None => DefaultSteps
  {
    var cmdArgs := argv[1..];
    if "-h" in cmdArgs {
      return ShowHelp;
    }
    if "-v" in cmdArgs {
      return ShowVersion;
    }
    var debugMode := "-d" in cmdArgs;
    var steps;
    var it := IndexOf(cmdArgs, "-s");
    if it != |cmdArgs| && it + 1 != |cmdArgs| {
      steps := ReadList(cmdArgs[it + 1]);
    } else {
      steps := DefaultSteps;
    }
    r := Install(steps, debugMode);
  }

  /** The `std::getline(ss, token, ',')` loop: the comma-separated pieces in order. */
  method ReadList(s: string) returns (tokens: seq<string>)
    ensures tokens == Split(s, ',')
  {
    tokens := [];
    var unread := s;
    while unread != []
      invariant tokens + Split(unread, ',') == Split(s, ',')
      decreases |unread|
    {
      var k := IndexOf(unread, ',');
      if k == |unread| {
        tokens := tokens + [unread];
        unread := [];
      } else {
        AppendAssoc(tokens, [unread[..k]], Split(unread[k + 1..], ','));
        tokens := tokens + [unread[..k]];
        unread := unread[k + 1..];
      }
    }
    assert tokens + [] == tokens;
  }

  /** A list written with `-s` as `n1,n2,…` is read back as the same pieces. */
  lemma StepListRoundTrip(steps: seq<string>)
    requires steps != [] && steps[|steps| - 1] != []
    requires FreeOf(steps, ',')
    ensures Split(JoinWith(steps, ','), ',') == steps
  {
    SplitJoin(steps, ',');
  }

  // ---------------------------------------------------------------------
  // The step loop of `main`

  /** The result of the step loop: the steps entered, and the exception that ended it. */
  datatype Dispatched = Dispatched(ran: seq<int>, error: Option<StdError>)

  /** `std::invalid_argument("Invalid step")`. */
  const InvalidStep: StdError := InvalidArgument

  predicate ValidStep(n: int) {
    0 < n <= StepCount
  }

  /**
   * The steps `main` enters for the pieces `steps`, the first of them being
   * loop turn `turn`, when the step entered on turn `i` throws `fails[i]` (a
   * turn missing from `fails` completes its step): each piece goes through
   * `std::stoi`; a conversion error or a number outside 1..3 ends the loop
   * before any further step, and so does a step that throws.
   */
  function DispatchFrom(steps: seq<string>, turn: nat, fails: map<nat, StdError>): (d: Dispatched)
    ensures forall i :: 0 <= i < |d.ran| ==> ValidStep(d.ran[i])
    ensures |d.ran| <= |steps|
    ensures d.error.None? ==> |d.ran| == |steps|
  {
    if steps == [] then Dispatched([], None)
    else
      match Stoi(steps[0])
      case Failure(e) => Dispatched([], Some(e))
      case Success(n) =>
        if !ValidStep(n) then Dispatched([], Some(InvalidStep))
        else if turn in fails then Dispatched([n], Some(fails[turn]))
        else
          var tail := DispatchFrom(steps[1..], turn + 1, fails);
          Dispatched([n] + tail.ran, tail.error)
  }

  /** The whole loop of `main` over the step list. */
  function Dispatch(steps: seq<string>, fails: map<nat, StdError>): (d: Dispatched)
    ensures forall i :: 0 <= i < |d.ran| ==> ValidStep(d.ran[i])
    ensures |d.ran| <= |steps|
    ensures d.error.None? ==> |d.ran| == |steps|
    ensures forall i :: 0 <= i < |d.ran| - 1 ==> i !in fails
  {
    DispatchThrowsLast(steps, 0, fails);
    DispatchFrom(steps, 0, fails)
  }

  /** No turn before the last one entered threw; with no exception, none did. */
  lemma {:induction false} DispatchThrowsLast(steps: seq<string>, turn: nat, fails: map<nat, StdError>)
    ensures var d := DispatchFrom(steps, turn, fails);
      && (forall i :: turn <= i < turn + |d.ran| - 1 ==> i !in fails)
      && (d.error.None? ==> forall i :: turn <= i < turn + |d.ran| ==> i !in fails)
    decreases |steps|
  {
    var d := DispatchFrom(steps, turn, fails);
    if d.ran != [] {
      EnteredFirst(steps, turn, fails);
      if turn !in fails {
        var tail := DispatchFrom(steps[1..], turn + 1, fails);
        DispatchThrowsLast(steps[1..], turn + 1, fails);
        assert |d.ran| == 1 + |tail.ran| && d.error == tail.error;
      }
    }
  }

  /**
   * The loop of `main` over the step list, `fails` standing for the turns
   * whose step throws: the steps it runs and the exception that ends it are
   * the ones `Dispatch` describes.
   */
  method RunSteps(steps: seq<string>, fails: map<nat, StdError>) returns (ran: seq<int>, error: Option<StdError>)
    ensures Dispatched(ran, error) == Dispatch(steps, fails)
  {
    ran := [];
    var i := 0;
    while i < |steps|
      invariant i <= |steps|
      invariant Dispatch(steps, fails) == After(ran, DispatchFrom(steps[i..], i, fails))
      decreases |steps| - i
    {
      DispatchTurn(steps, i, fails);
      var converted := Stoi(steps[i]);
      if converted.Failure? {
        assert ran + [] == ran;
        assert Dispatch(steps, fails) == After(ran, Dispatched([], Some(converted.error)));
        return ran, Some(converted.error);
      }
      var stepNumber := converted.value;
      if !ValidStep(stepNumber) {
        assert ran + [] == ran;
        assert Dispatch(steps, fails) == After(ran, Dispatched([], Some(InvalidStep)));
        return ran, Some(InvalidStep);
      }
      if i in fails {
        assert Dispatch(steps, fails) == After(ran, Dispatched([stepNumber], Some(fails[i])));
        return ran + [stepNumber], Some(fails[i]);
      }
      AfterAfter(ran, [stepNumber], DispatchFrom(steps[i + 1..], i + 1, fails));
      ran := ran + [stepNumber];
      i := i + 1;
    }
    assert steps[i..] == [];
    assert ran + [] == ran;
    error := None;
  }

  /** The loop result `d` after the steps `ran` were already entered. */
  function After(ran: seq<int>, d: Dispatched): Dispatched {
    Dispatched(ran + d.ran, d.error)
  }

  lemma AfterAfter(a: seq<int>, b: seq<int>, d: Dispatched)
    ensures After(a, After(b, d)) == After(a + b, d)
  {
    AppendAssoc(a, b, d.ran);
  }

  /** One turn of the loop, at piece `i`. */
  lemma DispatchTurn(steps: seq<string>, i: nat, fails: map<nat, StdError>)
    requires i < |steps|
    ensures Stoi(steps[i]).Failure? ==> DispatchFrom(steps[i..], i, fails) == Dispatched([], Some(Stoi(steps[i]).error))
    ensures Stoi(steps[i]).Success? && !ValidStep(Stoi(steps[i]).value) ==>
              DispatchFrom(steps[i..], i, fails) == Dispatched([], Some(InvalidStep))
    ensures Stoi(steps[i]).Success? && ValidStep(Stoi(steps[i]).value) && i in fails ==>
              DispatchFrom(steps[i..], i, fails) == Dispatched([Stoi(steps[i]).value], Some(fails[i]))
    ensures Stoi(steps[i]).Success? && ValidStep(Stoi(steps[i]).value) && i !in fails ==>
              DispatchFrom(steps[i..], i, fails) == After([Stoi(steps[i]).value], DispatchFrom(steps[i + 1..], i + 1, fails))
  {
    assert steps[i..][0] == steps[i];
    assert steps[i..][1..] == steps[i + 1..];
  }

  /** The exit status: 0 when every step ran, 1 when an exception was caught. */
  function ExitStatus(d: Dispatched): (code: int)
    ensures code == 0 || code == 1
    ensures code == 0 <==> d.error.None?
  {
    if d.error.None? then 0 else 1
  }

  /**
   * Everything the program does for one invocation, as far as the model
   * follows it: an exit with a status, or `std::terminate` when an exception
   * leaves `main` uncaught.
   */
  datatype Outcome =
    | Outcome(exitCode: int, debugMode: bool, ran: seq<int>)
    | Terminated(uncaught: StdError)

  /**
   * `main`: help and version exit with status 0 before anything else.
   * `init` is what `Installer::Init` did: `Success(false)` when it caught a
   * renderer failure, `Failure(e)` when the debugger check threw `e`, which
   * escapes `Init` and is not caught in `main` either. An installer that
   * reports failure exits with status 1 before any step; otherwise the debug
   * flag reaches the installer and the step loop decides the status.
   */
  method Execute(argv: seq<string>, init: Result<bool, StdError>, fails: map<nat, StdError>) returns (o: Outcome)
    requires |argv| >= 1
    ensures "-h" in argv[1..] || "-v" in argv[1..] ==> o == Outcome(0, false, [])
    ensures "-h" !in argv[1..] && "-v" !in argv[1..] && init.Failure? ==> o == Terminated(init.error)
    ensures "-h" !in argv[1..] && "-v" !in argv[1..] && init == Success(false) ==>
              o.Outcome? && o.exitCode == 1 && o.ran == []
    ensures "-h" !in argv[1..] && "-v" !in argv[1..] && init == Success(true) ==>
              var steps := match StepsOption(argv[1..])
                           case Some(list) => Split(list, ',')
                           case None => DefaultSteps;
              o.Outcome? && o.ran == Dispatch(steps, fails).ran && o.exitCode == ExitStatus(Dispatch(steps, fails)) &&
              (o.debugMode <==> "-d" in argv[1..])
  {
    var parsed := ParseArguments(argv);
    if !parsed.Install? {
      return Outcome(0, false, []);
    }
    if init.Failure? {
      return Terminated(init.error);
    }
    if !init.value {
      return Outcome(1, parsed.debugMode, []);
    }
    var ran, error := RunSteps(parsed.steps, fails);
    o := Outcome(ExitStatus(Dispatched(ran, error)), parsed.debugMode, ran);
  }

  // ---------------------------------------------------------------------
  // Properties of the step loop

  /** The piece of loop turn `turn` names a step 1..3, and the step entered on that turn completes. */
  predicate PieceCompletes(piece: string, turn: nat, fails: map<nat, StdError>) {
    Stoi(piece).Success? && ValidStep(Stoi(piece).value) && turn !in fails
  }

  /** On every turn from `turn` on, the piece names a step 1..3 and that step completes. */
  predicate TurnsComplete(steps: seq<string>, turn: nat, fails: map<nat, StdError>) {
    forall i :: 0 <= i < |steps| ==> PieceCompletes(steps[i], turn + i, fails)
  }

  lemma TurnsCompleteSplit(steps: seq<string>, turn: nat, fails: map<nat, StdError>)
    requires steps != []
    ensures TurnsComplete(steps, turn, fails) <==>
              PieceCompletes(steps[0], turn, fails) && TurnsComplete(steps[1..], turn + 1, fails)
  {
    var tail := steps[1..];
    if PieceCompletes(steps[0], turn, fails) && TurnsComplete(tail, turn + 1, fails) {
      forall i | 0 <= i < |steps| ensures PieceCompletes(steps[i], turn + i, fails) {
        if i > 0 {
          assert steps[i] == tail[i - 1] && turn + i == turn + 1 + (i - 1);
        }
      }
    }
    if TurnsComplete(steps, turn, fails) {
      assert PieceCompletes(steps[0], turn + 0, fails);
      forall j | 0 <= j < |tail| ensures PieceCompletes(tail[j], turn + 1 + j, fails) {
        assert steps[j + 1] == tail[j] && turn + (j + 1) == turn + 1 + j;
      }
    }
  }

  /** Status 0 exactly when on every turn the piece names a step 1..3 and that step completes. */
  lemma {:induction false} DispatchSucceeds(steps: seq<string>, turn: nat, fails: map<nat, StdError>)
    ensures DispatchFrom(steps, turn, fails).error.None? <==> TurnsComplete(steps, turn, fails)
    decreases |steps|
  {
    if steps != [] {
      DispatchSucceeds(steps[1..], turn + 1, fails);
      TurnsCompleteSplit(steps, turn, fails);
      if PieceCompletes(steps[0], turn, fails) {
        assert DispatchFrom(steps, turn, fails).error == DispatchFrom(steps[1..], turn + 1, fails).error;
      } else {
        assert DispatchFrom(steps, turn, fails).error.Some?;
      }
    }
  }

  /** Each step entered is the number its piece converts to, in the order given. */
  lemma DispatchFollowsList(steps: seq<string>, fails: map<nat, StdError>)
    ensures forall i :: 0 <= i < |Dispatch(steps, fails).ran| ==> Stoi(steps[i]) == Success(Dispatch(steps, fails).ran[i])
  {
    forall i | 0 <= i < |Dispatch(steps, fails).ran|
      ensures Stoi(steps[i]) == Success(Dispatch(steps, fails).ran[i])
    {
      DispatchRanAt(steps, 0, fails, i);
    }
  }

  lemma {:induction false} DispatchRanAt(steps: seq<string>, turn: nat, fails: map<nat, StdError>, i: nat)
    requires i < |DispatchFrom(steps, turn, fails).ran|
    ensures Stoi(steps[i]) == Success(DispatchFrom(steps, turn, fails).ran[i])
    decreases i
  {
    EnteredFirst(steps, turn, fails);
    if i > 0 {
      DispatchRanAt(steps[1..], turn + 1, fails, i - 1);
      assert steps[1..][i - 1] == steps[i];
    }
  }

  /** A turn that entered a step read a valid number from its piece; the loop goes on past it only when it did not throw. */
  lemma EnteredFirst(steps: seq<string>, turn: nat, fails: map<nat, StdError>)
    requires DispatchFrom(steps, turn, fails).ran != []
    ensures steps != [] && Stoi(steps[0]).Success? && ValidStep(Stoi(steps[0]).value)
    ensures turn in fails ==> DispatchFrom(steps, turn, fails) == Dispatched([Stoi(steps[0]).value], Some(fails[turn]))
    ensures turn !in fails ==> DispatchFrom(steps, turn, fails) == After([Stoi(steps[0]).value], DispatchFrom(steps[1..], turn + 1, fails))
  {
  }

  /** The numerals of a list of steps, as `std::to_string` writes them. */
  function Numerals(ns: seq<int>): (r: seq<string>)
    ensures |r| == |ns|
    ensures forall i :: 0 <= i < |ns| ==> r[i] == IntToString(ns[i])
  {
    if ns == [] then [] else [IntToString(ns[0])] + Numerals(ns[1..])
  }

  /**
   * `-s` given the numerals of steps 1..3 joined by commas runs exactly
   * those steps, in that order, when none of them throws.
   */
  lemma {:induction false} StepsOptionRunsThoseSteps(ns: seq<int>, fails: map<nat, StdError>)
    requires ns != []
    requires forall i :: 0 <= i < |ns| ==> ValidStep(ns[i]) && i !in fails
    ensures Dispatch(Split(JoinWith(Numerals(ns), ','), ','), fails) == Dispatched(ns, None)
  {
    var parts := Numerals(ns);
    forall i | 0 <= i < |parts|
      ensures ',' !in parts[i] && parts[i] != []
    {
      NumeralOfStep(ns[i]);
    }
    SplitJoin(parts, ',');
    DispatchNumerals(ns, 0, fails);
  }

  /** A step number is written as its single digit. */
  lemma NumeralOfStep(n: int)
    requires ValidStep(n)
    ensures IntToString(n) == [DigitChar(n)]
  {
  }

  lemma {:induction false} DispatchNumerals(ns: seq<int>, turn: nat, fails: map<nat, StdError>)
    requires forall i :: 0 <= i < |ns| ==> ValidStep(ns[i])
    requires forall i :: turn <= i < turn + |ns| ==> i !in fails
    ensures DispatchFrom(Numerals(ns), turn, fails) == Dispatched(ns, None)
    decreases |ns|
  {
    if ns != [] {
      StoiOfToString(ns[0]);
      assert Numerals(ns)[1..] == Numerals(ns[1..]);
      DispatchNumerals(ns[1..], turn + 1, fails);
      assert ns == [ns[0]] + ns[1..];
    }
  }

  /** Without `-s`, all three steps run in order unless one throws. */
  lemma DefaultRunsAllSteps(fails: map<nat, StdError>)
    requires 0 !in fails && 1 !in fails && 2 !in fails
    ensures Dispatch(DefaultSteps, fails) == Dispatched([1, 2, 3], None)
  {
    assert DefaultSteps == Numerals([1, 2, 3]);
    DispatchNumerals([1, 2, 3], 0, fails);
  }

  /** A step that throws is the last one entered, and its exception decides the status. */
  lemma {:induction false} FailingStepIsLast(steps: seq<string>, turn: nat, fails: map<nat, StdError>, last: nat)
    requires turn <= last && |DispatchFrom(steps, turn, fails).ran| == last - turn + 1
    requires last in fails
    ensures DispatchFrom(steps, turn, fails).error == Some(fails[last])
    decreases |steps|
  {
    EnteredFirst(steps, turn, fails);
    if turn < last {
      assert turn !in fails;
      var tail := DispatchFrom(steps[1..], turn + 1, fails);
      assert |tail.ran| == last - (turn + 1) + 1;
      FailingStepIsLast(steps[1..], turn + 1, fails, last);
      assert DispatchFrom(steps, turn, fails).error == tail.error;
    }
  }

  /**
   * The same step number can fare differently on different turns: with
   * `-s 1,1`, the first run of step 1 completes and the second throws.
   */
  lemma RepeatedStepCanFailLater(e: StdError)
    ensures Dispatch(["1", "1"], map[1 := e]) == Dispatched([1, 1], Some(e))
  {
    var m := map[1 := e];
    assert Stoi("1") == Success(1) by {
      StoiOfToString(1);
      assert IntToString(1) == "1";
    }
    assert ["1", "1"][1..] == ["1"];
    assert DispatchFrom(["1"], 1, m) == Dispatched([1], Some(e));
    assert DispatchFrom(["1", "1"], 0, m) == Dispatched([1] + [1], Some(e));
  }
}
