/**
 * The decisions of the `Installer` class: reading `TracerPid` from the
 * process status, the dry-run gate in front of every command and file
 * write, the pause/resume bracket around interactive commands, the
 * empty-listing checks, the package-list rewrite and the catch-and-rethrow
 * of each step. Everything the installer does outside its own memory is an
 * `Effect`, appended to a trace in the order it happens.
 */
module Install {
  import opened Wrappers
  import opened Text
  import Cli

  // ---------------------------------------------------------------------
  // _IsDebuggerPresent

  const TracerTag: string := "TracerPid:"

  /** `find_last_of(c)`: the last position of `c`, or -1 (`npos`) when there is none. */
  function LastIndexOf(s: string, c: char): (i: int)
    ensures -1 <= i < |s|
    ensures i == -1 <==> c !in s
    ensures i >= 0 ==> s[i] == c
    ensures forall j :: i < j < |s| ==> s[j] != c
  {
    LastIndexBefore(s, c, |s|)
  }

  /** The last position of `c` among the first `n` characters, or -1. */
  function LastIndexBefore(s: string, c: char, n: nat): (i: int)
    requires n <= |s|
    ensures -1 <= i < n
    ensures i >= 0 ==> s[i] == c
    ensures forall j :: i < j < n ==> s[j] != c
    decreases n
  {
    if n == 0 then -1
    else if s[n - 1] == c then n - 1
    else LastIndexBefore(s, c, n - 1)
  }

  /**
   * The verdict of a `TracerPid:` line: `stoi` of the text after the last
   * tab, non-zero meaning a tracer. Without a tab, `npos + 1` wraps to 0 and
   * the whole line is converted.
   */
  function TracerValue(line: string): (r: Result<bool, StdError>)
    ensures r.Failure? ==> r.error == InvalidArgument || r.error == OutOfRange
  {
    var start := LastIndexOf(line, '\t') + 1;
    match Stoi(line[start..])
    case Failure(e) => Failure(e)
    case Success(pid) => Success(pid != 0)
  }

  /** A status line without a tab is converted whole, and `stoi` rejects its leading `T`. */
  lemma TracerLineWithoutTab(line: string)
    requires '\t' !in line && IsPrefix(TracerTag, line)
    ensures TracerValue(line) == Failure(InvalidArgument)
  {
    assert line[0] == 'T';
    assert SpaceRun(line) == 0;
    assert line[0..] == line;
  }

  /** The first line containing `TracerPid:` decides; without one there is no debugger. */
  function TracerStatus(lines: seq<string>): (r: Result<bool, StdError>)
    ensures (forall i :: 0 <= i < |lines| ==> Find(lines[i], TracerTag).None?) ==> r == Success(false)
  {
    if lines == [] then Success(false)
    else if Find(lines[0], TracerTag).Some? then TracerValue(lines[0])
    else TracerStatus(lines[1..])
  }

  /** Reads the lines of `/proc/self/status` until the first one naming the tracer. */
  method IsDebuggerPresent(status: seq<string>) returns (r: Result<bool, StdError>)
    ensures r == TracerStatus(status)
  {
    var i := 0;
    while i < |status|
      invariant i <= |status|
      invariant TracerStatus(status[i..]) == TracerStatus(status)
      decreases |status| - i
    {
      assert status[i..][1..] == status[i + 1..];
      if Find(status[i], TracerTag).Some? {
        assert TracerStatus(status[i..]) == TracerValue(status[i]);
        return TracerValue(status[i]);
      }
      i := i + 1;
    }
    return Success(false);
  }

  /** Lines before the first `TracerPid:` line do not matter. */
  lemma {:induction false} TracerStatusFirstLine(before: seq<string>, line: string, after: seq<string>)
    requires forall i :: 0 <= i < |before| ==> Find(before[i], TracerTag).None?
    requires Find(line, TracerTag).Some?
    ensures TracerStatus(before + [line] + after) == TracerValue(line)
    decreases |before|
  {
    if before == [] {
      assert before + [line] + after == [line] + after;
    } else {
      assert (before + [line] + after)[1..] == before[1..] + [line] + after;
      TracerStatusFirstLine(before[1..], line, after);
    }
  }

  /** The kernel's `TracerPid:\t<pid>` line reports a debugger exactly when the pid is not 0. */
  lemma TracerValueOfPid(pid: int)
    requires InIntRange(pid)
    ensures TracerValue(TracerTag + "\t" + IntToString(pid)) == Success(pid != 0)
  {
    var line := TracerTag + "\t" + IntToString(pid);
    var k := |TracerTag|;
    assert line[k] == '\t';
    assert line[k + 1..] == IntToString(pid);
    IntToStringNoTab(pid);
    NoneAfter(TracerTag + "\t", IntToString(pid), '\t');
    assert LastIndexOf(line, '\t') == k by {
      LastIndexOfAt(line, '\t', k);
    }
    StoiOfToString(pid);
  }

  lemma NoneAfter(a: string, b: string, c: char)
    requires c !in b
    ensures forall j :: |a| <= j < |a + b| ==> (a + b)[j] != c
  {
    assert forall j :: |a| <= j < |a + b| ==> (a + b)[j] == b[j - |a|];
  }

  lemma IntToStringNoTab(n: int)
    ensures '\t' !in IntToString(n)
  {
    var s := NatToString(if n < 0 then -n else n);
    assert AllDigits(s);
    assert forall i :: 0 <= i < |s| ==> s[i] != '\t';
  }

  lemma LastIndexOfAt(s: string, c: char, k: nat)
    requires k < |s| && s[k] == c
    requires forall j :: k < j < |s| ==> s[j] != c
    ensures LastIndexOf(s, c) == k
  {
  }

  // ---------------------------------------------------------------------
  // Effects and the dry-run gate

  /** Something the installer does outside its own memory. */
  datatype Effect =
    | Capture(command: string, args: string)          // `CLI::RunCommand`, output read back
    | Run(command: string, args: string)              // `CLI::RunCommand` through `_RunCommand`
    | RunInteractive(command: string, args: string)   // `CLI::RunInteractiveCommand`
    | WriteFile(file: string, content: string)        // `CLI::WriteToFile`
    | StopRenderer
    | ClearScreen
    | Log(text: string)
    | LogError(error: StdError)                       // `e.what()` to standard error
    | Trap                                            // `raise(SIGTRAP)`
    | AwaitEnter                                      // `getchar()`
    | PauseInput
    | ResumeInput

  /** An effect that changes the system being installed. */
  predicate Changes(e: Effect) {
    e.Run? || e.RunInteractive? || e.WriteFile?
  }

  predicate ChangesNothing(es: seq<Effect>) {
    forall i :: 0 <= i < |es| ==> !Changes(es[i])
  }

  lemma ChangesNothingAppend(a: seq<Effect>, b: seq<Effect>)
    requires ChangesNothing(a) && ChangesNothing(b)
    ensures ChangesNothing(a + b)
  {
    assert forall i :: |a| <= i < |a + b| ==> (a + b)[i] == b[i - |a|];
  }

  /** The installer's two switches: `m_Debug` and `m_DebuggerPresent`. */
  datatype Mode = Mode(debug: bool, debuggerPresent: bool)

  const PressEnter: string := "Press enter key to continue . . ."

  /** `_DebugStop`: a trap for an attached debugger, otherwise a prompt and a keypress. */
  function DebugStopEffects(debuggerPresent: bool): (es: seq<Effect>)
    ensures Trap in es <==> debuggerPresent
    ensures AwaitEnter in es <==> !debuggerPresent
    ensures ChangesNothing(es)
  {
    if debuggerPresent then [Trap] else [Log(PressEnter), AwaitEnter]
  }

  predicate StartsWith(es: seq<Effect>, prefix: seq<Effect>) {
    |prefix| <= |es| && es[..|prefix|] == prefix
  }

  predicate EndsWith(es: seq<Effect>, suffix: seq<Effect>) {
    |suffix| <= |es| && es[|es| - |suffix|..] == suffix
  }

  /** The dry run: stop drawing, clear the screen, show what would happen, stop. */
  function DryRunEffects(text: string, debuggerPresent: bool): (es: seq<Effect>)
    ensures es != [] && es[0] == StopRenderer && Log(text) in es
    ensures EndsWith(es, DebugStopEffects(debuggerPresent))
    ensures ChangesNothing(es)
  {
    var es := [StopRenderer, ClearScreen, Log(text)] + DebugStopEffects(debuggerPresent);
    assert es[|es| - |DebugStopEffects(debuggerPresent)|..] == DebugStopEffects(debuggerPresent);
    ChangesNothingAppend([StopRenderer, ClearScreen, Log(text)], DebugStopEffects(debuggerPresent));
    es
  }

  /** What a step did, and the exception it let through. */
  datatype Performed = Performed(effects: seq<Effect>, thrown: Option<StdError>)

  /** The outcome of a CLI call, `fails` naming the ones that throw. */
  function Outcome(fails: map<Effect, StdError>, call: Effect): Option<StdError> {
    if call in fails then Some(fails[call]) else None
  }

  /** `_RunCommand`: a dry run in debug mode, the command otherwise. */
  function RunCommandEffects(m: Mode, command: string, args: string, fails: map<Effect, StdError>): (r: Performed)
    ensures m.debug ==> ChangesNothing(r.effects) && r.thrown.None?
    ensures m.debug ==> r.effects != [] && r.effects[0] == StopRenderer && EndsWith(r.effects, DebugStopEffects(m.debuggerPresent))
    ensures !m.debug ==> Run(command, args) in r.effects
  {
    if m.debug then Performed(DryRunEffects("Dry Run: " + command + " " + args, m.debuggerPresent), None)
    else Performed([Run(command, args)], Outcome(fails, Run(command, args)))
  }

  /**
   * `_RunInteractiveCommand`: a dry run in debug mode; otherwise input is
   * paused before the child runs and resumed after it, unless it throws.
   */
  function RunInteractiveEffects(m: Mode, command: string, args: string, fails: map<Effect, StdError>): (r: Performed)
    ensures m.debug ==> ChangesNothing(r.effects) && r.thrown.None?
    ensures m.debug ==> r.effects != [] && r.effects[0] == StopRenderer && EndsWith(r.effects, DebugStopEffects(m.debuggerPresent))
    ensures !m.debug ==> |r.effects| >= 2 && r.effects[0] == PauseInput && r.effects[1] == RunInteractive(command, args)
    ensures !m.debug ==> (ResumeInput in r.effects <==> r.thrown.None?)
    ensures !m.debug && r.thrown.None? ==> r.effects[|r.effects| - 1] == ResumeInput
  {
    if m.debug then Performed(DryRunEffects("Dry Run: " + command + " " + args, m.debuggerPresent), None)
    else
      var call := RunInteractive(command, args);
      match Outcome(fails, call)
      case None => Performed([PauseInput, call, ResumeInput], None)
      case Some(e) => Performed([PauseInput, call], Some(e))
  }

  /** `_WriteToFile`: a dry run showing the content in debug mode, the write otherwise. */
  function WriteToFileEffects(m: Mode, file: string, content: string, fails: map<Effect, StdError>): (r: Performed)
    ensures m.debug ==> ChangesNothing(r.effects) && r.thrown.None?
    ensures m.debug ==> r.effects != [] && r.effects[0] == StopRenderer && EndsWith(r.effects, DebugStopEffects(m.debuggerPresent))
    ensures !m.debug ==> WriteFile(file, content) in r.effects
  {
    if m.debug then Performed(DryRunEffects("Dry Run: " + file + ":\n" + content, m.debuggerPresent), None)
    else Performed([WriteFile(file, content)], Outcome(fails, WriteFile(file, content)))
  }

  /** Runs `b` after `a` unless `a` threw. */
  function Then(a: Performed, b: Performed): (r: Performed)
    ensures a.thrown.Some? ==> r == a
    ensures a.thrown.None? ==> r.thrown == b.thrown && StartsWith(r.effects, a.effects) && EndsWith(r.effects, b.effects)
  {
    if a.thrown.Some? then a else Performed(a.effects + b.effects, b.thrown)
  }

  /** A sequence of dry runs changes nothing either. */
  lemma ThenChangesNothing(a: Performed, b: Performed)
    requires ChangesNothing(a.effects) && ChangesNothing(b.effects)
    ensures ChangesNothing(Then(a, b).effects)
  {
    if a.thrown.None? {
      ChangesNothingAppend(a.effects, b.effects);
    }
  }

  // ---------------------------------------------------------------------
  // The package-list rewrite of _InstallPackages

  function Min(a: int, b: int): int {
    if a <= b then a else b
  }

  /** `s.erase(pos, n)`: at most `n` characters from `pos` on are removed. */
  function Erase(s: string, pos: nat, n: nat): (r: string)
    requires pos <= |s|
    ensures |r| == |s| - Min(n, |s| - pos)
    ensures r[..pos] == s[..pos]
  {
    s[..pos] + s[Min(pos + n, |s|)..]
  }

  /**
   * `args.erase(args.find(item), item.length() + 1)`: the name and the
   * character after it go at the name's first occurrence, which may lie
   * inside a longer name; `npos` makes `erase` throw `out_of_range`.
   */
  function EraseFirst(args: string, item: string): (r: Result<string, StdError>)
    ensures r.Failure? <==> Find(args, item).None?
    ensures r.Failure? ==> r.error == OutOfRange
  {
    match Find(args, item)
    case None => Failure(OutOfRange)
    case Some(k) => Success(Erase(args, k, |item| + 1))
  }

  /** The erase loop over the selected names, in order. */
  function EraseAll(args: string, items: seq<string>): (r: Result<string, StdError>)
    ensures r.Failure? ==> r.error == OutOfRange
    ensures r.Success? ==> |r.value| <= |args|
  {
    if items == [] then Success(args)
    else
      match EraseFirst(args, items[0])
      case Failure(e) => Failure(e)
      case Success(rest) => EraseAll(rest, items[1..])
  }

  /** `std::replace(args.begin(), args.end(), '\n', ' ')`. */
  function NewlinesToSpaces(s: string): (r: string)
    ensures |r| == |s| && '\n' !in r
    ensures forall i :: 0 <= i < |s| && s[i] != '\n' ==> r[i] == s[i]
  {
    if s == [] then [] else [if s[0] == '\n' then ' ' else s[0]] + NewlinesToSpaces(s[1..])
  }

  /** The `pacman` arguments `_InstallPackages` builds, as written. */
  function PackageArgs(packages: string, selected: string): (r: Result<string, StdError>)
    ensures r.Success? ==> IsPrefix("-S ", r.value)
    ensures r.Failure? ==> r.error == OutOfRange
  {
    match EraseAll(packages, Words(selected))
    case Failure(e) => Failure(e)
    case Success(args) => Success("-S " + NewlinesToSpaces(args))
  }

  /**
   * The rewrite itself: split the selection into names, erase each from the
   * list, turn newlines into spaces and put `-S ` in front.
   */
  method RewritePackages(packages: string, selected: string) returns (r: Result<string, StdError>)
    ensures r == PackageArgs(packages, selected)
  {
    var itemsToRemove := Cli.ParseArguments(selected);
    var erased := EraseSelected(packages, itemsToRemove);
    if erased.Failure? {
      return Failure(erased.error);
    }
    var args := ReplaceNewlines(erased.value);
    r := Success("-S " + args);
  }

  /** The erase loop: each name in turn is erased from the list. */
  method EraseSelected(packages: string, items: seq<string>) returns (r: Result<string, StdError>)
    ensures r == EraseAll(packages, items)
  {
    var args := packages;
    for i := 0 to |items|
      invariant EraseAll(args, items[i..]) == EraseAll(packages, items)
    {
      assert items[i..][1..] == items[i + 1..];
      var pos := Find(args, items[i]);
      if pos.None? {
        return Failure(OutOfRange);
      }
      args := Erase(args, pos.value, |items[i]| + 1);
    }
    assert items[|items|..] == [];
    r := Success(args);
  }

  /** `std::replace` over the string, one position at a time. */
  method ReplaceNewlines(s: string) returns (r: string)
    ensures r == NewlinesToSpaces(s)
  {
    r := s;
    for j := 0 to |s|
      invariant r == NewlinesToSpaces(s[..j]) + s[j..]
    {
      ReplaceStep(s, j);
      if r[j] == '\n' {
        r := r[j := ' '];
      }
    }
    assert s[..|s|] == s;
  }

  /** One step of the replace loop: position `j` is replaced and joins the prefix. */
  lemma ReplaceStep(s: string, j: nat)
    requires j < |s|
    ensures |NewlinesToSpaces(s[..j])| == j
    ensures (NewlinesToSpaces(s[..j]) + s[j..])[j] == s[j]
    ensures (NewlinesToSpaces(s[..j]) + s[j..])[j := ' '] == NewlinesToSpaces(s[..j + 1]) + s[j + 1..] || s[j] != '\n'
    ensures NewlinesToSpaces(s[..j]) + s[j..] == NewlinesToSpaces(s[..j + 1]) + s[j + 1..] || s[j] == '\n'
  {
    NewlinesToSpacesSnoc(s[..j], s[j]);
    assert s[..j + 1] == s[..j] + [s[j]];
    assert s[j..] == [s[j]] + s[j + 1..];
  }

  lemma {:induction false} NewlinesToSpacesSnoc(s: string, c: char)
    ensures NewlinesToSpaces(s + [c]) == NewlinesToSpaces(s) + [if c == '\n' then ' ' else c]
    decreases |s|
  {
    if s != [] {
      assert (s + [c])[1..] == s[1..] + [c];
      NewlinesToSpacesSnoc(s[1..], c);
    }
  }

  /** A list of names, one per line, reads as the same names separated by spaces. */
  lemma {:induction false} NewlinesToSpacesOfLines(lines: seq<string>)
    requires FreeOf(lines, '\n')
    ensures NewlinesToSpaces(Terminated(lines, '\n')) == SpaceTerminated(lines)
    decreases |lines|
  {
    if lines != [] {
      NewlinesToSpacesOfLines(lines[1..]);
      NewlinesToSpacesAppend(lines[0] + ['\n'], Terminated(lines[1..], '\n'));
      NewlinesToSpacesAppend(lines[0], ['\n']);
      NewlinesToSpacesFree(lines[0]);
    }
  }

  lemma {:induction false} NewlinesToSpacesAppend(a: string, b: string)
    ensures NewlinesToSpaces(a + b) == NewlinesToSpaces(a) + NewlinesToSpaces(b)
    decreases |a|
  {
    if a == [] {
      assert a + b == b;
    } else {
      assert (a + b)[0] == a[0];
      assert (a + b)[1..] == a[1..] + b;
      NewlinesToSpacesAppend(a[1..], b);
    }
  }

  lemma NewlinesToSpacesFree(s: string)
    requires '\n' !in s
    ensures NewlinesToSpaces(s) == s
  {
    assert forall i :: 0 <= i < |s| ==> s[i] != '\n';
  }

  /** Erasing a name at its own line removes exactly that line. */
  lemma EraseOwnLine(before: string, item: string, after: string)
    requires Find(before + item + "\n" + after, item) == Some(|before|)
    ensures EraseFirst(before + item + "\n" + after, item) == Success(before + after)
  {
    var s := before + item + "\n" + after;
    assert s[..|before|] == before;
    assert s[|before| + |item| + 1..] == after;
  }

  /** The lines of `packages` whose names were not selected for removal, in order. */
  function Unselected(lines: seq<string>, items: seq<string>): (r: seq<string>)
    ensures |r| <= |lines|
    ensures forall p :: p in r <==> p in lines && p !in items
  {
    if lines == [] then []
    else (if lines[0] in items then [] else [lines[0]]) + Unselected(lines[1..], items)
  }

  /** The intended rewrite: drop whole lines equal to a selected name. */
  function RemovePackages(packages: string, selected: string): string {
    "-S " + SpaceTerminated(Unselected(Split(packages, '\n'), Words(selected)))
  }

  /**
   * With the intended rewrite, `pacman` receives `-S` and exactly the listed
   * names that were not selected, each once per line, in list order.
   */
  lemma RemovePackagesWords(packages: string, selected: string)
    requires Tokens(Split(packages, '\n'))
    ensures Words(RemovePackages(packages, selected)) == ["-S"] + Unselected(Split(packages, '\n'), Words(selected))
  {
    var kept := Unselected(Split(packages, '\n'), Words(selected));
    assert Tokens(["-S"] + kept) by {
      assert forall i :: 0 <= i < |kept| ==> kept[i] in Split(packages, '\n');
    }
    assert (["-S"] + kept)[1..] == kept;
    assert SpaceTerminated(["-S"] + kept) == "-S" + " " + SpaceTerminated(kept);
    assert "-S" + " " + SpaceTerminated(kept) == "-S " + SpaceTerminated(kept);
    WordsOfSpaceTerminated(["-S"] + kept);
  }

  /** With nothing selected, the list as written and as intended are the same command line. */
  lemma NothingSelected(lines: seq<string>, selected: string)
    requires FreeOf(lines, '\n') && Words(selected) == []
    ensures PackageArgs(Terminated(lines, '\n'), selected) == Success(RemovePackages(Terminated(lines, '\n'), selected))
  {
    SplitTerminated(lines, '\n');
    NewlinesToSpacesOfLines(lines);
    UnselectedKeeps(lines, []);
  }

  /** A list none of whose lines is selected is kept whole. */
  lemma {:induction false} UnselectedKeeps(lines: seq<string>, items: seq<string>)
    requires forall i :: 0 <= i < |lines| ==> lines[i] !in items
    ensures Unselected(lines, items) == lines
    decreases |lines|
  {
    if lines != [] {
      UnselectedKeeps(lines[1..], items);
      assert [lines[0]] + lines[1..] == lines;
    }
  }

  lemma {:induction false} UnselectedAppend(a: seq<string>, b: seq<string>, items: seq<string>)
    ensures Unselected(a + b, items) == Unselected(a, items) + Unselected(b, items)
    decreases |a|
  {
    if a != [] {
      var h := if a[0] in items then [] else [a[0]];
      assert (a + b)[0] == a[0] && (a + b)[1..] == a[1..] + b;
      assert Unselected(a + b, items) == h + Unselected(a[1..] + b, items);
      UnselectedAppend(a[1..], b, items);
      AppendAssoc(h, Unselected(a[1..], items), Unselected(b, items));
    } else {
      assert a + b == b;
    }
  }

  lemma {:induction false} TerminatedAppend(a: seq<string>, b: seq<string>, d: char)
    ensures Terminated(a + b, d) == Terminated(a, d) + Terminated(b, d)
    decreases |a|
  {
    if a != [] {
      TerminatedAppend(a[1..], b, d);
      assert (a + b)[0] == a[0] && (a + b)[1..] == a[1..] + b;
      AppendAssoc(a[0] + [d], Terminated(a[1..], d), Terminated(b, d));
    } else {
      assert a + b == b;
    }
  }

  /**
   * When no line of `lines` contains the name `x`, `find` reaches past all
   * of them: the first occurrence is where `x` starts after the lines.
   */
  lemma {:induction false} FindAfterLines(lines: seq<string>, x: string, rest: string)
    requires '\n' !in x
    requires forall i :: 0 <= i < |lines| ==> Find(lines[i], x).None?
    ensures Find(Terminated(lines, '\n') + x + rest, x) == Some(|Terminated(lines, '\n')|)
    decreases |lines|
  {
    TerminatedThen(lines, x, rest);
    if lines == [] {
      FindAtStart(x + rest, x);
    } else {
      FindAfterLines(lines[1..], x, rest);
      FindPastPart(lines[0], '\n', Terminated(lines[1..], '\n') + x + rest, x);
    }
  }

  lemma TerminatedThen(lines: seq<string>, x: string, rest: string)
    ensures lines == [] ==> Terminated(lines, '\n') + x + rest == x + rest && IsPrefix(x, x + rest)
    ensures lines != [] ==>
              Terminated(lines, '\n') + x + rest == lines[0] + ['\n'] + (Terminated(lines[1..], '\n') + x + rest) &&
              |Terminated(lines, '\n')| == |lines[0]| + 1 + |Terminated(lines[1..], '\n')|
  {
    if lines == [] {
      assert Terminated(lines, '\n') == [];
      assert [] + x == x;
      SplitAt(x, rest);
    } else {
      var head := lines[0] + ['\n'];
      var t := Terminated(lines[1..], '\n');
      assert Terminated(lines, '\n') == head + t;
      AppendAssoc(head, t, x);
      AppendAssoc(head, t + x, rest);
    }
  }

  /**
   * In the shipped list `nautilus-share` precedes `nautilus`, and no earlier
   * line contains `nautilus`: removing `nautilus` erases `nautilus-` from the
   * longer name, so `pacman` is asked for a package `share` and still gets
   * `nautilus`; the intended rewrite keeps `nautilus-share` and drops
   * `nautilus`.
   */
  lemma SubstringErase()
    ensures PackageArgs(PackageList, "nautilus ") ==
              Success("-S " + SpaceTerminated(PackageHead + ["share", "nautilus", "gvfs-smb"]))
    ensures RemovePackages(PackageList, "nautilus ") ==
              "-S " + SpaceTerminated(PackageHead + ["nautilus-share", "gvfs-smb"])
  {
    HeadHasNoNewline();
    ShippedLinesLackName();
    ShippedNames();
    LongerNameThenName(PackageHead, "nautilus", "share", "gvfs-smb");
  }

  lemma ShippedNames()
    ensures "nautilus" + "-" + "share" == "nautilus-share"
    ensures "nautilus" + " " == "nautilus "
    ensures NoSpace("nautilus") && "gvfs-smb" != "nautilus"
  {
    assert "gvfs-smb"[0] != "nautilus"[0];
  }

  /**
   * `x-y`, then `x`, then one other name `z`, after lines that never
   * mention `x`.
   */
  lemma LongerNameThenName(head: seq<string>, x: string, y: string, z: string)
    requires x != [] && NoSpace(x) && '\n' !in x && '\n' !in y && '\n' !in z && z != x
    requires FreeOf(head, '\n')
    requires forall i :: 0 <= i < |head| ==> Find(head[i], x).None?
    ensures PackageArgs(Terminated(head + [x + "-" + y, x, z], '\n'), x + " ") ==
              Success("-S " + SpaceTerminated(head + [y, x, z]))
    ensures RemovePackages(Terminated(head + [x + "-" + y, x, z], '\n'), x + " ") ==
              "-S " + SpaceTerminated(head + [x + "-" + y, z])
  {
    ThreeLines(head, x + "-" + y, x, z);
    ThreeLines(head, y, x, z);
    assert FreeOf([x, z], '\n');
    LongerNameFirst(head, x, y, [x, z]);
    DropsName(x, z);
  }

  lemma DropsName(x: string, z: string)
    requires z != x
    ensures Unselected([x, z], [x]) == [z]
  {
    assert [x, z][1..] == [z];
    assert [z][1..] == [];
  }

  lemma ThreeLines<T>(head: seq<T>, a: T, b: T, c: T)
    ensures head + [a] + [b, c] == head + [a, b, c]
    ensures head + [a] + [c] == head + [a, c]
  { }

  lemma HeadHasNoNewline()
    ensures FreeOf(PackageHead, '\n')
  {
    HeadHasNoNewlineTo10();
    HeadHasNoNewlineTo20();
    HeadHasNoNewlineTo29();
  }

  lemma HeadHasNoNewlineTo10()
    ensures forall i :: 0 <= i < 10 ==> '\n' !in PackageHead[i]
  { }

  lemma HeadHasNoNewlineTo20()
    ensures forall i :: 10 <= i < 20 ==> '\n' !in PackageHead[i]
  { }

  lemma HeadHasNoNewlineTo29()
    ensures forall i :: 20 <= i < |PackageHead| ==> '\n' !in PackageHead[i]
  { }


  /** No line of the shipped list before `nautilus-share` contains `nautilus`. */
  lemma ShippedLinesLackName()
    ensures forall i :: 0 <= i < |PackageHead| ==> Find(PackageHead[i], "nautilus").None?
  {
    LinesLackName0To5();
    LinesLackName5To10();
    LinesLackName10To15();
    LinesLackName15To20();
    LinesLackName20To25();
    LinesLackName25To29();
  }

  lemma LinesLackName0To5()
    ensures forall i :: 0 <= i < 5 ==> Find(PackageHead[i], "nautilus").None?
  {
    var x := "nautilus";
    forall i | 0 <= i < 5 ensures Find(PackageHead[i], x).None? {
      var line := PackageHead[i];
      if i in {2, 4} {
        assert x[0] !in line;
        FindMissesChar(line, x, 0);
      } else {
        assert x[2] !in line;
        FindMissesChar(line, x, 2);
      }
    }
  }

  lemma LinesLackName5To10()
    ensures forall i :: 5 <= i < 10 ==> Find(PackageHead[i], "nautilus").None?
  {
    var x := "nautilus";
    forall i | 5 <= i < 10 ensures Find(PackageHead[i], x).None? {
      var line := PackageHead[i];
      assert x[2] !in line;
      FindMissesChar(line, x, 2);
    }
  }

  lemma LinesLackName10To15()
    ensures forall i :: 10 <= i < 15 ==> Find(PackageHead[i], "nautilus").None?
  {
    var x := "nautilus";
    forall i | 10 <= i < 15 ensures Find(PackageHead[i], x).None? {
      var line := PackageHead[i];
      assert x[2] !in line;
      FindMissesChar(line, x, 2);
    }
  }

  lemma LinesLackName15To20()
    ensures forall i :: 15 <= i < 20 ==> Find(PackageHead[i], "nautilus").None?
  {
    var x := "nautilus";
    forall i | 15 <= i < 20 ensures Find(PackageHead[i], x).None? {
      var line := PackageHead[i];
      if i == 16 {
        // "spotify-launcher": its only 'n' comes too late to start the name
        assert x[0] !in line[0..|line| - |x| + 1];
        FindMissesChar(line, x, 0);
      } else {
        assert x[2] !in line;
        FindMissesChar(line, x, 2);
      }
    }
  }

  lemma LinesLackName20To25()
    ensures forall i :: 20 <= i < 25 ==> Find(PackageHead[i], "nautilus").None?
  {
    var x := "nautilus";
    forall i | 20 <= i < 25 ensures Find(PackageHead[i], x).None? {
      var line := PackageHead[i];
      if i in {20, 24} {
        assert x[0] !in line;
        FindMissesChar(line, x, 0);
      } else {
        assert x[2] !in line;
        FindMissesChar(line, x, 2);
      }
    }
  }

  lemma LinesLackName25To29()
    ensures forall i :: 25 <= i < 29 ==> Find(PackageHead[i], "nautilus").None?
  {
    var x := "nautilus";
    forall i | 25 <= i < 29 ensures Find(PackageHead[i], x).None? {
      var line := PackageHead[i];
      if i in {25, 26} {
        assert x[0] !in line;
        FindMissesChar(line, x, 0);
      } else if i == 27 {
        assert x[4] !in line;
        FindMissesChar(line, x, 4);
      } else {
        assert x[2] !in line;
        FindMissesChar(line, x, 2);
      }
    }
  }

  /**
   * Whenever no line before `x-y` contains `x`, removing `x` as written
   * cuts `x-` out of the longer name and keeps every later line, `x`
   * included; the intended rewrite keeps `x-y` and drops every later line
   * equal to `x`.
   */
  lemma LongerNameFirst(before: seq<string>, x: string, y: string, after: seq<string>)
    requires x != [] && NoSpace(x) && '\n' !in x && '\n' !in y
    requires FreeOf(before, '\n') && FreeOf(after, '\n')
    requires forall i :: 0 <= i < |before| ==> Find(before[i], x).None?
    ensures PackageArgs(Terminated(before + [x + "-" + y] + after, '\n'), x + " ") ==
              Success("-S " + SpaceTerminated(before + [y] + after))
    ensures RemovePackages(Terminated(before + [x + "-" + y] + after, '\n'), x + " ") ==
              "-S " + SpaceTerminated(before + [x + "-" + y] + Unselected(after, [x]))
  {
    OneWord(x);
    LongerNameErasedAsWritten(before, x, y, after);
    NoLineIsName(before, x);
    LongerNameKept(before, x, y, after);
  }

  lemma OneWord(x: string)
    requires x != [] && NoSpace(x)
    ensures Words(x + " ") == [x]
  {
    WordsCons(x, " ");
    WordsAllSpace(" ");
  }

  lemma TerminatedAround(before: seq<string>, line: string, after: seq<string>)
    ensures Terminated(before + [line] + after, '\n') ==
              Terminated(before, '\n') + (line + "\n" + Terminated(after, '\n'))
  {
    TerminatedAppend(before + [line], after, '\n');
    TerminatedAppend(before, [line], '\n');
    assert Terminated([line], '\n') == line + "\n" + Terminated([], '\n');
    AppendAssoc(Terminated(before, '\n'), line + "\n", Terminated(after, '\n'));
  }

  /** The list around the longer name, and what is left once `x-` is cut out of it. */
  lemma ErasedShape(before: seq<string>, x: string, y: string, after: seq<string>)
    ensures var b := Terminated(before, '\n');
      var cut := y + "\n" + Terminated(after, '\n');
      var list := Terminated(before + [x + "-" + y] + after, '\n');
      && list == b + x + ("-" + cut)
      && |b| + |x| + 1 <= |list|
      && list[..|b|] == b
      && list[|b| + |x| + 1..] == cut
      && b + cut == Terminated(before + [y] + after, '\n')
  {
    var b := Terminated(before, '\n');
    var c := Terminated(after, '\n');
    var cut := y + "\n" + c;
    var list := Terminated(before + [x + "-" + y] + after, '\n');
    var r := x + ("-" + cut);
    TerminatedAround(before, x + "-" + y, after);
    TerminatedAround(before, y, after);
    LongerLine(x, y, c);
    AppendAssoc(b, x, "-" + cut);
    SplitAt(b, r);
    SplitAt(x, "-" + cut);
    DropDrop(list, |b|, |x|);
    DropDrop(list, |b| + |x|, 1);
    assert ("-" + cut)[1..] == cut;
  }

  lemma LongerLine(x: string, y: string, c: string)
    ensures x + "-" + y + "\n" + c == x + ("-" + (y + "\n" + c))
  {
    AppendAssoc(x, "-", y);
    AppendAssoc(x, "-" + y, "\n");
    AppendAssoc(x, "-" + y + "\n", c);
    AppendAssoc("-", y, "\n");
    AppendAssoc("-", y + "\n", c);
    AppendAssoc("-" + y, "\n", c);
  }

  lemma EraseAllOne(args: string, x: string)
    ensures EraseAll(args, [x]) == EraseFirst(args, x)
  {
    assert [x][1..] == [];
  }

  lemma LongerNameErasedAsWritten(before: seq<string>, x: string, y: string, after: seq<string>)
    requires x != [] && '\n' !in x && '\n' !in y
    requires FreeOf(before, '\n') && FreeOf(after, '\n')
    requires forall i :: 0 <= i < |before| ==> Find(before[i], x).None?
    requires Words(x + " ") == [x]
    ensures PackageArgs(Terminated(before + [x + "-" + y] + after, '\n'), x + " ") ==
              Success("-S " + SpaceTerminated(before + [y] + after))
  {
    var b := Terminated(before, '\n');
    var cut := y + "\n" + Terminated(after, '\n');
    var list := Terminated(before + [x + "-" + y] + after, '\n');
    ErasedShape(before, x, y, after);
    FindAfterLines(before, x, "-" + cut);
    assert EraseFirst(list, x) == Success(b + cut);
    EraseAllOne(list, x);
    assert FreeOf(before + [y] + after, '\n');
    NewlinesToSpacesOfLines(before + [y] + after);
  }

  /** A line that does not contain `x` is not `x`. */
  lemma NoLineIsName(lines: seq<string>, x: string)
    requires forall i :: 0 <= i < |lines| ==> Find(lines[i], x).None?
    ensures forall i :: 0 <= i < |lines| ==> lines[i] !in [x]
  {
    forall i | 0 <= i < |lines| ensures lines[i] !in [x] {
      FindAtStart(lines[i], x);
      assert !IsPrefix(x, lines[i]);
    }
  }

  lemma LongerNameKept(before: seq<string>, x: string, y: string, after: seq<string>)
    requires x != [] && '\n' !in x && '\n' !in y
    requires FreeOf(before, '\n') && FreeOf(after, '\n')
    requires forall i :: 0 <= i < |before| ==> before[i] !in [x]
    requires Words(x + " ") == [x]
    ensures RemovePackages(Terminated(before + [x + "-" + y] + after, '\n'), x + " ") ==
              "-S " + SpaceTerminated(before + [x + "-" + y] + Unselected(after, [x]))
  {
    var lines := before + [x + "-" + y] + after;
    assert FreeOf(lines, '\n');
    SplitTerminated(lines, '\n');
    UnselectedAround(before, x + "-" + y, after, x);
  }

  /** Lines before the first selected one, and one longer line, are kept. */
  lemma UnselectedAround(before: seq<string>, longer: string, after: seq<string>, x: string)
    requires forall i :: 0 <= i < |before| ==> before[i] !in [x]
    requires longer != x
    ensures Unselected(before + [longer] + after, [x]) == before + [longer] + Unselected(after, [x])
  {
    UnselectedKeeps(before, [x]);
    UnselectedAppend(before + [longer], after, [x]);
    UnselectedAppend(before, [longer], [x]);
    assert Unselected([longer], [x]) == [longer] by {
      assert [longer][1..] == [];
    }
  }

  // ---------------------------------------------------------------------
  // The steps

  /**
   * The catch block of `Step1`/`Step2`/`Step3`: log `e.what()`, stop for the
   * debugger, `throw e;`. Rethrowing the `std::exception&` by name throws a
   * copy of its static type, so the caller receives a plain `std::exception`.
   */
  function Catch(m: Mode, p: Performed): (r: Performed)
    ensures p.thrown.None? ==> r == p
    ensures p.thrown.Some? ==> r.thrown == Some(Exception)
    ensures p.thrown.Some? ==> StartsWith(r.effects, p.effects + [LogError(p.thrown.value)]) && EndsWith(r.effects, DebugStopEffects(m.debuggerPresent))
  {
    if p.thrown.None? then p
    else
      var r := Performed(p.effects + [LogError(p.thrown.value)] + DebugStopEffects(m.debuggerPresent), Some(Exception));
      assert r.effects[..|p.effects| + 1] == p.effects + [LogError(p.thrown.value)];
      r
  }

  /** The same catch block rethrowing with `throw;`, which keeps the original exception. */
  function CatchRethrow(m: Mode, p: Performed): (r: Performed)
    ensures r.thrown == p.thrown
    ensures p.thrown.Some? ==> StartsWith(r.effects, p.effects + [LogError(p.thrown.value)]) && EndsWith(r.effects, DebugStopEffects(m.debuggerPresent))
  {
    if p.thrown.None? then p
    else
      var r := Performed(p.effects + [LogError(p.thrown.value)] + DebugStopEffects(m.debuggerPresent), p.thrown);
      assert r.effects[..|p.effects| + 1] == p.effects + [LogError(p.thrown.value)];
      r
  }

  /**
   * As written, the caller of a failed step sees `std::exception` whatever
   * was thrown: an empty `lsblk` listing reaches `main` as `std::exception`,
   * not as the `runtime_error("Failed to get disks")` the step raised.
   */
  lemma CatchSlices(m: Mode, effects: seq<Effect>)
    ensures Catch(m, Performed(effects, Some(RuntimeError(DisksError)))).thrown != Some(RuntimeError(DisksError))
    ensures CatchRethrow(m, Performed(effects, Some(RuntimeError(DisksError)))).thrown == Some(RuntimeError(DisksError))
  {
  }

  /** Both catch blocks log and stop the same way; only the exception passed on differs. */
  lemma CatchRethrowSameEffects(m: Mode, p: Performed)
    ensures CatchRethrow(m, p).effects == Catch(m, p).effects
    ensures Catch(m, p).thrown == (if p.thrown.None? then None else Some(Exception))
  {
  }

  lemma CatchChangesNothing(m: Mode, p: Performed)
    requires ChangesNothing(p.effects)
    ensures ChangesNothing(Catch(m, p).effects)
  {
    if p.thrown.Some? {
      ChangesNothingAppend(p.effects, [LogError(p.thrown.value)]);
      ChangesNothingAppend(p.effects + [LogError(p.thrown.value)], DebugStopEffects(m.debuggerPresent));
    }
  }

  const KeymapsError: string := "Failed to get keyboard layouts"
  const TimezonesError: string := "Failed to get timezones"
  const DisksError: string := "Failed to get disks"

  /**
   * A listing read straight through `CLI::RunCommand` (it runs in debug
   * mode too), then the check that its output is not empty.
   */
  function Listing(command: string, args: string, output: string, message: string, fails: map<Effect, StdError>): (r: Performed)
    ensures r.effects == [Capture(command, args)]
    ensures r.thrown.None? <==> Capture(command, args) !in fails && output != []
    ensures Capture(command, args) !in fails && output == [] ==> r.thrown == Some(RuntimeError(message))
  {
    match Outcome(fails, Capture(command, args))
    case Some(e) => Performed([Capture(command, args)], Some(e))
    case None =>
      if output == [] then Performed([Capture(command, args)], Some(RuntimeError(message)))
      else Performed([Capture(command, args)], None)
  }

  /**
   * What the user answers through the menus, and what the listings print:
   * each `…List` is a listing's output, each other field the entry picked
   * (`GetSelected`) from the menu built on it; `removed` is the toggled
   * package names.
   */
  datatype Answers = Answers(
    keymapList: string, keymap: string,
    timezoneList: string, timezone: string,
    diskList: string, disk: string,
    removed: string)

  /** `_KBLayout`: list the keymaps, let the user pick one, `loadkeys` it. */
  function KBLayoutEffects(m: Mode, a: Answers, fails: map<Effect, StdError>): Performed {
    Then(Listing("localectl", "list-keymaps", a.keymapList, KeymapsError, fails), RunCommandEffects(m, "loadkeys", a.keymap, fails))
  }

  /** `_SystemClock`: list the time zones, let the user pick one, set it. */
  function SystemClockEffects(m: Mode, a: Answers, fails: map<Effect, StdError>): Performed {
    Then(Listing("timedatectl", "list-timezones", a.timezoneList, TimezonesError, fails),
         RunCommandEffects(m, "timedatectl", "set-timezone " + a.timezone, fails))
  }

  const ShellNotice: string :=
    "Your currently in a shell inside the installer, you can run any command you want.\n" +
    "Here you should format and mount the partitions you created.\n" +
    "After you are done, type 'exit' to continue.\n"

  /** `_PartitionDisks`: list the disks, run `cfdisk` on the picked one, then a shell. */
  function PartitionDisksEffects(m: Mode, a: Answers, fails: map<Effect, StdError>): Performed {
    Then(Listing("lsblk", "", a.diskList, DisksError, fails),
         PartitionEffects(m, a.disk, fails))
  }

  /** `Step1`: keyboard layout, clock and partitions, under the catch block. */
  function Step1Effects(m: Mode, a: Answers, fails: map<Effect, StdError>): Performed {
    Catch(m, Then(Then(KBLayoutEffects(m, a, fails), SystemClockEffects(m, a, fails)), PartitionDisksEffects(m, a, fails)))
  }

  const MirrorArgs: string := "--verbose --latest 5 --sort rate --save /etc/pacman.d/mirrorlist"
  const BaseArgs: string := "/mnt base linux linux-firmware linux-lts"

  /**
   * The package names offered for installation, in the order `_InstallPackages`
   * writes them: the names up to `gnome-text-editor`, then the last three.
   */
  const PackageLines: seq<string> := PackageHead + ["nautilus-share", "nautilus", "gvfs-smb"]

  const PackageHead: seq<string> := [
    "NetworkManager", "less", "curl", "base-devel", "usbutils", "reflector", "wget", "htop",
    "git", "networkmanager", "networkmanager-openvpn", "network-manager-applet", "openvpn",
    "pacman-contrib", "neofetch", "xorg-xrandr", "spotify-launcher", "libreoffice", "flatpak",
    "xdg-desktop-portal", "okular", "ntfs-3g", "python-pip", "python-pipx", "xdg-utils",
    "ddcutil", "yakuake", "gnome-calculator", "gnome-text-editor"]

  /** The string stream's contents: each name followed by a newline. */
  const PackageList: string := Terminated(PackageLines, '\n')

  /** `_SelectMirrors`. */
  function SelectMirrorsEffects(m: Mode, fails: map<Effect, StdError>): Performed {
    RunCommandEffects(m, "reflector", MirrorArgs, fails)
  }

  /** `_InstallPackages`: base system, chroot, then `pacman -S` on the rewritten list. */
  function InstallPackagesEffects(m: Mode, a: Answers, fails: map<Effect, StdError>): Performed {
    Then(Then(RunCommandEffects(m, "pacstrap", BaseArgs, fails), RunCommandEffects(m, "arch-chroot", "/mnt", fails)),
         InstallSelectedEffects(m, PackageList, a.removed, fails))
  }

  /** `Step2`: mirrors and packages, under the catch block. */
  function Step2Effects(m: Mode, a: Answers, fails: map<Effect, StdError>): Performed {
    Catch(m, Then(SelectMirrorsEffects(m, fails), InstallPackagesEffects(m, a, fails)))
  }

  lemma ListingChangesNothing(command: string, args: string, output: string, message: string, fails: map<Effect, StdError>)
    ensures ChangesNothing(Listing(command, args, output, message, fails).effects)
  {
    assert !Changes(Capture(command, args));
  }

  lemma KBLayoutDryRun(m: Mode, a: Answers, fails: map<Effect, StdError>)
    requires m.debug
    ensures ChangesNothing(KBLayoutEffects(m, a, fails).effects)
  {
    ListingChangesNothing("localectl", "list-keymaps", a.keymapList, KeymapsError, fails);
    ThenChangesNothing(Listing("localectl", "list-keymaps", a.keymapList, KeymapsError, fails), RunCommandEffects(m, "loadkeys", a.keymap, fails));
  }

  lemma SystemClockDryRun(m: Mode, a: Answers, fails: map<Effect, StdError>)
    requires m.debug
    ensures ChangesNothing(SystemClockEffects(m, a, fails).effects)
  {
    ListingChangesNothing("timedatectl", "list-timezones", a.timezoneList, TimezonesError, fails);
    ThenChangesNothing(Listing("timedatectl", "list-timezones", a.timezoneList, TimezonesError, fails),
                       RunCommandEffects(m, "timedatectl", "set-timezone " + a.timezone, fails));
  }

  /** The part of `_PartitionDisks` after the listing. */
  function PartitionEffects(m: Mode, disk: string, fails: map<Effect, StdError>): Performed {
    match Cli.ExtractDiskOrPartitionName(disk)
    case Failure(e) => Performed([], Some(e))
    case Success(name) =>
      Then(Then(RunInteractiveEffects(m, "cfdisk", "/dev/" + name, fails), Performed([ClearScreen, Log(ShellNotice)], None)),
           RunInteractiveEffects(m, "bash", "", fails))
  }

  lemma PartitionDryRun(m: Mode, disk: string, fails: map<Effect, StdError>)
    requires m.debug
    ensures ChangesNothing(PartitionEffects(m, disk, fails).effects)
  {
    match Cli.ExtractDiskOrPartitionName(disk)
    case Failure(e) =>
    case Success(name) =>
      var cfdisk := RunInteractiveEffects(m, "cfdisk", "/dev/" + name, fails);
      var notice := Performed([ClearScreen, Log(ShellNotice)], None);
      assert ChangesNothing(notice.effects) by {
        assert !Changes(ClearScreen) && !Changes(Log(ShellNotice));
      }
      ThenChangesNothing(cfdisk, notice);
      ThenChangesNothing(Then(cfdisk, notice), RunInteractiveEffects(m, "bash", "", fails));
  }

  lemma PartitionDisksDryRun(m: Mode, a: Answers, fails: map<Effect, StdError>)
    requires m.debug
    ensures ChangesNothing(PartitionDisksEffects(m, a, fails).effects)
  {
    ListingChangesNothing("lsblk", "", a.diskList, DisksError, fails);
    PartitionDryRun(m, a.disk, fails);
    ThenChangesNothing(Listing("lsblk", "", a.diskList, DisksError, fails), PartitionEffects(m, a.disk, fails));
  }

  /** In debug mode step 1 only reads listings: no command, interactive program or file write. */
  lemma Step1DryRun(m: Mode, a: Answers, fails: map<Effect, StdError>)
    requires m.debug
    ensures ChangesNothing(Step1Effects(m, a, fails).effects)
  {
    var kb := KBLayoutEffects(m, a, fails);
    var clock := SystemClockEffects(m, a, fails);
    var disks := PartitionDisksEffects(m, a, fails);
    KBLayoutDryRun(m, a, fails);
    SystemClockDryRun(m, a, fails);
    PartitionDisksDryRun(m, a, fails);
    ThenChangesNothing(kb, clock);
    ThenChangesNothing(Then(kb, clock), disks);
    CatchChangesNothing(m, Then(Then(kb, clock), disks));
  }

  /** The part of `_InstallPackages` after the rewrite. */
  function InstallSelectedEffects(m: Mode, packages: string, removed: string, fails: map<Effect, StdError>): Performed {
    match PackageArgs(packages, removed)
    case Failure(e) => Performed([], Some(e))
    case Success(args) => Then(RunInteractiveEffects(m, "pacman", args, fails), RunCommandEffects(m, "exit", "", fails))
  }

  lemma InstallSelectedDryRun(m: Mode, packages: string, removed: string, fails: map<Effect, StdError>)
    requires m.debug
    ensures ChangesNothing(InstallSelectedEffects(m, packages, removed, fails).effects)
  {
    match PackageArgs(packages, removed)
    case Failure(e) =>
    case Success(args) =>
      ThenChangesNothing(RunInteractiveEffects(m, "pacman", args, fails), RunCommandEffects(m, "exit", "", fails));
  }

  /** In debug mode step 2 changes nothing either. */
  lemma Step2DryRun(m: Mode, a: Answers, fails: map<Effect, StdError>)
    requires m.debug
    ensures ChangesNothing(Step2Effects(m, a, fails).effects)
  {
    var base := Then(RunCommandEffects(m, "pacstrap", BaseArgs, fails), RunCommandEffects(m, "arch-chroot", "/mnt", fails));
    ThenChangesNothing(RunCommandEffects(m, "pacstrap", BaseArgs, fails), RunCommandEffects(m, "arch-chroot", "/mnt", fails));
    InstallSelectedDryRun(m, PackageList, a.removed, fails);
    ThenChangesNothing(base, InstallSelectedEffects(m, PackageList, a.removed, fails));
    ThenChangesNothing(SelectMirrorsEffects(m, fails), InstallPackagesEffects(m, a, fails));
    CatchChangesNothing(m, Then(SelectMirrorsEffects(m, fails), InstallPackagesEffects(m, a, fails)));
  }

  /**
   * An empty keymap listing ends step 1 right after the listing: no menu,
   * no `loadkeys`, only the log, the debug stop and the (sliced) rethrow.
   */
  lemma EmptyKeymapList(m: Mode, a: Answers, fails: map<Effect, StdError>)
    requires a.keymapList == [] && Capture("localectl", "list-keymaps") !in fails
    ensures Step1Effects(m, a, fails) ==
              Performed([Capture("localectl", "list-keymaps"), LogError(RuntimeError(KeymapsError))] + DebugStopEffects(m.debuggerPresent),
                        Some(Exception))
  {
    var kb := KBLayoutEffects(m, a, fails);
    var thrown := RuntimeError(KeymapsError);
    assert kb == Performed([Capture("localectl", "list-keymaps")], Some(thrown));
    var body := Then(Then(kb, SystemClockEffects(m, a, fails)), PartitionDisksEffects(m, a, fails));
    assert body == kb;
    assert kb.effects + [LogError(thrown)] == [Capture("localectl", "list-keymaps"), LogError(thrown)];
  }

  /**
   * An empty time-zone listing ends step 1 after the keyboard step, before
   * any clock change; the keymap was loaded only outside debug mode.
   */
  lemma EmptyTimezoneList(m: Mode, a: Answers, fails: map<Effect, StdError>)
    requires KBLayoutEffects(m, a, fails).thrown.None?
    requires a.timezoneList == [] && Capture("timedatectl", "list-timezones") !in fails
    ensures Step1Effects(m, a, fails) ==
              Performed(KBLayoutEffects(m, a, fails).effects + [Capture("timedatectl", "list-timezones"), LogError(RuntimeError(TimezonesError))]
                          + DebugStopEffects(m.debuggerPresent),
                        Some(Exception))
  {
    var kb := KBLayoutEffects(m, a, fails);
    var thrown := RuntimeError(TimezonesError);
    var listing := Performed([Capture("timedatectl", "list-timezones")], Some(thrown));
    assert SystemClockEffects(m, a, fails) == listing;
    var before := Then(kb, listing);
    assert before == Performed(kb.effects + [Capture("timedatectl", "list-timezones")], Some(thrown));
    assert Then(before, PartitionDisksEffects(m, a, fails)) == before;
    AppendAssoc(kb.effects, [Capture("timedatectl", "list-timezones")], [LogError(thrown)]);
  }

  /** An empty disk listing ends step 1 before `cfdisk` or the shell can run. */
  lemma EmptyDiskList(m: Mode, a: Answers, fails: map<Effect, StdError>)
    requires Then(KBLayoutEffects(m, a, fails), SystemClockEffects(m, a, fails)).thrown.None?
    requires a.diskList == [] && Capture("lsblk", "") !in fails
    ensures Step1Effects(m, a, fails) ==
              Performed(Then(KBLayoutEffects(m, a, fails), SystemClockEffects(m, a, fails)).effects
                          + [Capture("lsblk", ""), LogError(RuntimeError(DisksError))] + DebugStopEffects(m.debuggerPresent),
                        Some(Exception))
  {
    var before := Then(KBLayoutEffects(m, a, fails), SystemClockEffects(m, a, fails));
    assert PartitionDisksEffects(m, a, fails) == Performed([Capture("lsblk", "")], Some(RuntimeError(DisksError)));
    CatchFailedLast(m, before, Capture("lsblk", ""), RuntimeError(DisksError));
  }

  /** A last part that fails after one effect is logged, followed by the debug stop. */
  lemma CatchFailedLast(m: Mode, before: Performed, e: Effect, thrown: StdError)
    requires before.thrown.None?
    ensures Catch(m, Then(before, Performed([e], Some(thrown)))) ==
              Performed(before.effects + [e, LogError(thrown)] + DebugStopEffects(m.debuggerPresent), Some(Exception))
  {
    var p := Then(before, Performed([e], Some(thrown)));
    assert p == Performed(before.effects + [e], Some(thrown));
    assert Catch(m, p) == Performed(p.effects + [LogError(thrown)] + DebugStopEffects(m.debuggerPresent), Some(Exception));
    AppendAssoc(before.effects, [e], [LogError(thrown)]);
    assert [e] + [LogError(thrown)] == [e, LogError(thrown)];
  }

  // ---------------------------------------------------------------------
  // The useradd call of _Accounts

  const UseraddOptions: string := "-m -G wheel "

  /**
   * The `useradd` arguments as `_Accounts` builds them: the name is read
   * into `username`, but the arguments are built from `args`, which is still
   * empty at that point.
   */
  function UseraddArgsAsWritten(username: string): string {
    var args := "";
    UseraddOptions + args
  }

  /** The intended arguments: the options, then the name that was read. */
  function UseraddArgs(username: string): string {
    UseraddOptions + username
  }

  /** As written, `useradd` receives the options and no user name, whatever was typed. */
  lemma UseraddWithoutUser(username: string)
    ensures Words(UseraddArgsAsWritten(username)) == ["-m", "-G", "wheel"]
  {
    UseraddOptionsThen("");
    WordsAllSpace("");
  }

  /** As intended, `useradd` receives the options and then the user name. */
  lemma UseraddNamesUser(username: string)
    requires username != [] && NoSpace(username)
    ensures Words(UseraddArgs(username)) == ["-m", "-G", "wheel", username]
  {
    UseraddOptionsThen(username);
    WordsCons(username, []);
    assert username + [] == username;
  }

  lemma UseraddOptionsThen(rest: string)
    ensures Words(UseraddOptions + rest) == ["-m", "-G", "wheel"] + Words(rest)
  {
    var options := ["-m", "-G", "wheel"];
    assert UseraddOptions == SpaceTerminated(options);
    assert Tokens(options);
    WordsAfterSpaceTerminated(options, rest);
  }

  // ---------------------------------------------------------------------
  // The installer object

  /** `Then` seen from the trace: appending `a`'s effects and then `b`'s. */
  lemma ThenTrace(t: seq<Effect>, a: Performed, b: Performed)
    requires a.thrown.None?
    ensures t + a.effects + b.effects == t + Then(a, b).effects
  {
    AppendAssoc(t, a.effects, b.effects);
  }

  /** `Catch` seen from the trace. */
  lemma CatchTrace(t: seq<Effect>, m: Mode, p: Performed)
    ensures t + p.effects + (if p.thrown.None? then [] else [LogError(p.thrown.value)] + DebugStopEffects(m.debuggerPresent)) ==
              t + Catch(m, p).effects
  {
    if p.thrown.None? {
      assert t + p.effects + [] == t + p.effects;
    } else {
      AppendAssoc(p.effects, [LogError(p.thrown.value)], DebugStopEffects(m.debuggerPresent));
      AppendAssoc(t, p.effects, [LogError(p.thrown.value)] + DebugStopEffects(m.debuggerPresent));
    }
  }

  /**
   * The installer: its switches, the keymap and time zone picked in step 1
   * (used again by step 3), and the trace of everything it has done.
   */
  class Installer {
    var debug: bool
    var debuggerPresent: bool
    var keymap: string
    var timezone: string
    var trace: seq<Effect>

    function CurrentMode(): Mode
      reads this
    {
      Mode(debug, debuggerPresent)
    }

    constructor()
      ensures !debug && !debuggerPresent && keymap == [] && timezone == [] && trace == []
    {
      debug := false;
      debuggerPresent := false;
      keymap := [];
      timezone := [];
      trace := [];
    }

    /**
     * `Init` once the renderer and its layers are set up (`rendererReady`
     * false when that threw): the debugger check reads the status lines, and
     * a conversion error there escapes `Init`.
     */
    method Init(rendererReady: bool, status: seq<string>) returns (r: Result<bool, StdError>)
      modifies this
      ensures !rendererReady ==> r == Success(false) && debuggerPresent == old(debuggerPresent)
      ensures rendererReady && TracerStatus(status).Success? ==> r == Success(true) && debuggerPresent == TracerStatus(status).value
      ensures rendererReady && TracerStatus(status).Failure? ==>
                r == Failure(TracerStatus(status).error) && debuggerPresent == old(debuggerPresent)
      ensures debug == old(debug) && keymap == old(keymap) && timezone == old(timezone) && trace == old(trace)
    {
      if !rendererReady {
        return Success(false);
      }
      var present := IsDebuggerPresent(status);
      if present.Failure? {
        return Failure(present.error);
      }
      debuggerPresent := present.value;
      return Success(true);
    }

    method DebugMode()
      modifies this
      ensures debug
      ensures debuggerPresent == old(debuggerPresent) && keymap == old(keymap) && timezone == old(timezone) && trace == old(trace)
    {
      debug := true;
    }

    method DebugStop()
      modifies this
      ensures trace == old(trace) + DebugStopEffects(debuggerPresent)
      ensures CurrentMode() == old(CurrentMode()) && keymap == old(keymap) && timezone == old(timezone)
    {
      if debuggerPresent {
        trace := trace + [Trap];
      } else {
        trace := trace + [Log(PressEnter), AwaitEnter];
      }
    }

    /** The dry-run branch shared by the three gated calls. */
    method DryRun(text: string)
      modifies this
      ensures trace == old(trace) + DryRunEffects(text, debuggerPresent)
      ensures CurrentMode() == old(CurrentMode()) && keymap == old(keymap) && timezone == old(timezone)
    {
      trace := trace + [StopRenderer, ClearScreen, Log(text)];
      DebugStop();
      AppendAssoc(old(trace), [StopRenderer, ClearScreen, Log(text)], DebugStopEffects(debuggerPresent));
    }

    method RunCommand(command: string, args: string, fails: map<Effect, StdError>) returns (thrown: Option<StdError>)
      modifies this
      ensures trace == old(trace) + RunCommandEffects(CurrentMode(), command, args, fails).effects
      ensures thrown == RunCommandEffects(CurrentMode(), command, args, fails).thrown
      ensures CurrentMode() == old(CurrentMode()) && keymap == old(keymap) && timezone == old(timezone)
    {
      if debug {
        DryRun("Dry Run: " + command + " " + args);
        thrown := None;
      } else {
        trace := trace + [Run(command, args)];
        thrown := Outcome(fails, Run(command, args));
      }
    }

    method RunInteractiveCommand(command: string, args: string, fails: map<Effect, StdError>) returns (thrown: Option<StdError>)
      modifies this
      ensures trace == old(trace) + RunInteractiveEffects(CurrentMode(), command, args, fails).effects
      ensures thrown == RunInteractiveEffects(CurrentMode(), command, args, fails).thrown
      ensures CurrentMode() == old(CurrentMode()) && keymap == old(keymap) && timezone == old(timezone)
    {
      if debug {
        DryRun("Dry Run: " + command + " " + args);
        thrown := None;
      } else {
        trace := trace + [PauseInput, RunInteractive(command, args)];
        thrown := Outcome(fails, RunInteractive(command, args));
        if thrown.None? {
          trace := trace + [ResumeInput];
        }
      }
    }

    method WriteToFile(file: string, content: string, fails: map<Effect, StdError>) returns (thrown: Option<StdError>)
      modifies this
      ensures trace == old(trace) + WriteToFileEffects(CurrentMode(), file, content, fails).effects
      ensures thrown == WriteToFileEffects(CurrentMode(), file, content, fails).thrown
      ensures CurrentMode() == old(CurrentMode()) && keymap == old(keymap) && timezone == old(timezone)
    {
      if debug {
        DryRun("Dry Run: " + file + ":\n" + content);
        thrown := None;
      } else {
        trace := trace + [WriteFile(file, content)];
        thrown := Outcome(fails, WriteFile(file, content));
      }
    }

    /** A listing command and the check of its output. */
    method ReadListing(command: string, args: string, output: string, message: string, fails: map<Effect, StdError>)
      returns (thrown: Option<StdError>)
      modifies this
      ensures trace == old(trace) + Listing(command, args, output, message, fails).effects
      ensures thrown == Listing(command, args, output, message, fails).thrown
      ensures CurrentMode() == old(CurrentMode()) && keymap == old(keymap) && timezone == old(timezone)
    {
      trace := trace + [Capture(command, args)];
      thrown := Outcome(fails, Capture(command, args));
      if thrown.None? && output == [] {
        thrown := Some(RuntimeError(message));
      }
    }

    method KBLayout(a: Answers, fails: map<Effect, StdError>) returns (thrown: Option<StdError>)
      modifies this
      ensures trace == old(trace) + KBLayoutEffects(CurrentMode(), a, fails).effects
      ensures thrown == KBLayoutEffects(CurrentMode(), a, fails).thrown
      ensures keymap == if Listing("localectl", "list-keymaps", a.keymapList, KeymapsError, fails).thrown.None? then a.keymap else old(keymap)
      ensures CurrentMode() == old(CurrentMode()) && timezone == old(timezone)
    {
      var listing := Listing("localectl", "list-keymaps", a.keymapList, KeymapsError, fails);
      thrown := ReadListing("localectl", "list-keymaps", a.keymapList, KeymapsError, fails);
      if thrown.Some? {
        return;
      }
      keymap := a.keymap;
      thrown := RunCommand("loadkeys", keymap, fails);
      ThenTrace(old(trace), listing, RunCommandEffects(CurrentMode(), "loadkeys", a.keymap, fails));
    }

    method SystemClock(a: Answers, fails: map<Effect, StdError>) returns (thrown: Option<StdError>)
      modifies this
      ensures trace == old(trace) + SystemClockEffects(CurrentMode(), a, fails).effects
      ensures thrown == SystemClockEffects(CurrentMode(), a, fails).thrown
      ensures timezone == if Listing("timedatectl", "list-timezones", a.timezoneList, TimezonesError, fails).thrown.None? then a.timezone else old(timezone)
      ensures CurrentMode() == old(CurrentMode()) && keymap == old(keymap)
    {
      var listing := Listing("timedatectl", "list-timezones", a.timezoneList, TimezonesError, fails);
      thrown := ReadListing("timedatectl", "list-timezones", a.timezoneList, TimezonesError, fails);
      if thrown.Some? {
        return;
      }
      timezone := a.timezone;
      thrown := RunCommand("timedatectl", "set-timezone " + a.timezone, fails);
      ThenTrace(old(trace), listing, RunCommandEffects(CurrentMode(), "timedatectl", "set-timezone " + a.timezone, fails));
    }

    method PartitionDisks(a: Answers, fails: map<Effect, StdError>) returns (thrown: Option<StdError>)
      modifies this
      ensures trace == old(trace) + PartitionDisksEffects(CurrentMode(), a, fails).effects
      ensures thrown == PartitionDisksEffects(CurrentMode(), a, fails).thrown
      ensures CurrentMode() == old(CurrentMode()) && keymap == old(keymap) && timezone == old(timezone)
    {
      var listing := Listing("lsblk", "", a.diskList, DisksError, fails);
      thrown := ReadListing("lsblk", "", a.diskList, DisksError, fails);
      if thrown.Some? {
        return;
      }
      thrown := Partition(a.disk, fails);
      ThenTrace(old(trace), listing, PartitionEffects(CurrentMode(), a.disk, fails));
    }

    /** `cfdisk` on the device the picked line names, the notice, then a shell. */
    method Partition(disk: string, fails: map<Effect, StdError>) returns (thrown: Option<StdError>)
      modifies this
      ensures trace == old(trace) + PartitionEffects(CurrentMode(), disk, fails).effects
      ensures thrown == PartitionEffects(CurrentMode(), disk, fails).thrown
      ensures CurrentMode() == old(CurrentMode()) && keymap == old(keymap) && timezone == old(timezone)
    {
      var name := Cli.ExtractDiskOrPartitionName(disk);
      if name.Failure? {
        assert trace == trace + [];
        return Some(name.error);
      }
      var m := CurrentMode();
      var cfdisk := RunInteractiveEffects(m, "cfdisk", "/dev/" + name.value, fails);
      var notice := Performed([ClearScreen, Log(ShellNotice)], None);
      thrown := RunInteractiveCommand("cfdisk", "/dev/" + name.value, fails);
      if thrown.Some? {
        return;
      }
      trace := trace + [ClearScreen, Log(ShellNotice)];
      ThenTrace(old(trace), cfdisk, notice);
      thrown := RunInteractiveCommand("bash", "", fails);
      ThenTrace(old(trace), Then(cfdisk, notice), RunInteractiveEffects(m, "bash", "", fails));
    }

    /** The catch block of every step, as written. */
    method Catch(thrown: Option<StdError>) returns (rethrown: Option<StdError>)
      modifies this
      ensures trace == old(trace) + (if thrown.None? then [] else [LogError(thrown.value)] + DebugStopEffects(debuggerPresent))
      ensures rethrown == if thrown.None? then None else Some(Exception)
      ensures CurrentMode() == old(CurrentMode()) && keymap == old(keymap) && timezone == old(timezone)
    {
      if thrown.None? {
        assert trace == trace + [];
        return None;
      }
      trace := trace + [LogError(thrown.value)];
      DebugStop();
      AppendAssoc(old(trace), [LogError(thrown.value)], DebugStopEffects(debuggerPresent));
      rethrown := Some(Exception);
    }

    /** `Step1`: keyboard layout, clock and partitions, then the catch block. */
    method Step1(a: Answers, fails: map<Effect, StdError>) returns (thrown: Option<StdError>)
      modifies this
      ensures trace == old(trace) + Step1Effects(CurrentMode(), a, fails).effects
      ensures thrown == Step1Effects(CurrentMode(), a, fails).thrown
      ensures CurrentMode() == old(CurrentMode())
      ensures keymap == if Listing("localectl", "list-keymaps", a.keymapList, KeymapsError, fails).thrown.None? then a.keymap else old(keymap)
      ensures timezone ==
                if KBLayoutEffects(CurrentMode(), a, fails).thrown.None? &&
                   Listing("timedatectl", "list-timezones", a.timezoneList, TimezonesError, fails).thrown.None?
                then a.timezone else old(timezone)
    {
      var m := CurrentMode();
      var kb := KBLayoutEffects(m, a, fails);
      var clock := SystemClockEffects(m, a, fails);
      var disks := PartitionDisksEffects(m, a, fails);
      var t := KBLayout(a, fails);
      if t.None? {
        t := SystemClock(a, fails);
        ThenTrace(old(trace), kb, clock);
      }
      if t.None? {
        t := PartitionDisks(a, fails);
        ThenTrace(old(trace), Then(kb, clock), disks);
      }
      assert trace == old(trace) + Then(Then(kb, clock), disks).effects;
      assert t == Then(Then(kb, clock), disks).thrown;
      thrown := Catch(t);
      CatchTrace(old(trace), m, Then(Then(kb, clock), disks));
    }

    method SelectMirrors(fails: map<Effect, StdError>) returns (thrown: Option<StdError>)
      modifies this
      ensures trace == old(trace) + SelectMirrorsEffects(CurrentMode(), fails).effects
      ensures thrown == SelectMirrorsEffects(CurrentMode(), fails).thrown
      ensures CurrentMode() == old(CurrentMode()) && keymap == old(keymap) && timezone == old(timezone)
    {
      thrown := RunCommand("reflector", MirrorArgs, fails);
    }

    /** The base system, the chroot, then `pacman -S` on the list less the toggled names. */
    method InstallPackages(a: Answers, fails: map<Effect, StdError>) returns (thrown: Option<StdError>)
      modifies this
      ensures trace == old(trace) + InstallPackagesEffects(CurrentMode(), a, fails).effects
      ensures thrown == InstallPackagesEffects(CurrentMode(), a, fails).thrown
      ensures CurrentMode() == old(CurrentMode()) && keymap == old(keymap) && timezone == old(timezone)
    {
      var m := CurrentMode();
      var pacstrap := RunCommandEffects(m, "pacstrap", BaseArgs, fails);
      var chroot := RunCommandEffects(m, "arch-chroot", "/mnt", fails);
      var selected := InstallSelectedEffects(m, PackageList, a.removed, fails);
      var whole := Then(Then(pacstrap, chroot), selected);
      assert whole == InstallPackagesEffects(m, a, fails);
      thrown := RunCommand("pacstrap", BaseArgs, fails);
      if thrown.None? {
        thrown := RunCommand("arch-chroot", "/mnt", fails);
        ThenTrace(old(trace), pacstrap, chroot);
        if thrown.None? {
          thrown := InstallSelected(PackageList, a.removed, fails);
          ThenTrace(old(trace), Then(pacstrap, chroot), selected);
        }
      }
      assert trace == old(trace) + whole.effects && thrown == whole.thrown;
    }

    method InstallSelected(packages: string, removed: string, fails: map<Effect, StdError>) returns (thrown: Option<StdError>)
      modifies this
      ensures trace == old(trace) + InstallSelectedEffects(CurrentMode(), packages, removed, fails).effects
      ensures thrown == InstallSelectedEffects(CurrentMode(), packages, removed, fails).thrown
      ensures CurrentMode() == old(CurrentMode()) && keymap == old(keymap) && timezone == old(timezone)
    {
      var args := RewritePackages(packages, removed);
      if args.Failure? {
        assert trace == trace + [];
        return Some(args.error);
      }
      var m := CurrentMode();
      thrown := RunInteractiveCommand("pacman", args.value, fails);
      if thrown.Some? {
        return;
      }
      thrown := RunCommand("exit", "", fails);
      ThenTrace(old(trace), RunInteractiveEffects(m, "pacman", args.value, fails), RunCommandEffects(m, "exit", "", fails));
    }

    /** `Step2`: mirrors and packages, then the catch block. */
    method Step2(a: Answers, fails: map<Effect, StdError>) returns (thrown: Option<StdError>)
      modifies this
      ensures trace == old(trace) + Step2Effects(CurrentMode(), a, fails).effects
      ensures thrown == Step2Effects(CurrentMode(), a, fails).thrown
      ensures CurrentMode() == old(CurrentMode()) && keymap == old(keymap) && timezone == old(timezone)
    {
      var m := CurrentMode();
      var mirrors := SelectMirrorsEffects(m, fails);
      var packages := InstallPackagesEffects(m, a, fails);
      var t := SelectMirrors(fails);
      if t.None? {
        t := InstallPackages(a, fails);
        ThenTrace(old(trace), mirrors, packages);
      }
      thrown := Catch(t);
      CatchTrace(old(trace), m, Then(mirrors, packages));
    }
  }
}
