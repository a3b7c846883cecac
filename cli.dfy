/**
 * The text and flag helpers of the `CLI` namespace: the whitespace argument
 * tokenizer, the `# N.` step-header recogniser, the extraction of one step's
 * commands from the lines of the `Commands` file, the lsblk tree-line parser,
 * the raw-mode terminal flag computation and the directory part of the
 * executable's path.
 */
module Cli {
  import opened Wrappers
  import opened Text

  // ---------------------------------------------------------------------
  // _ParseArguments

  /**
   * Splits a command's argument string into the tokens that repeated
   * `stream >> arg` extractions return.
   */
  method ParseArguments(args: string) returns (argList: seq<string>)
    ensures argList == Words(args)
  {
    argList := [];
    var pos := 0;
    while pos < |args|
      invariant 0 <= pos <= |args|
      invariant argList + Words(args[pos..]) == Words(args)
      decreases |args| - pos
    {
      // the sentry of `>>` skips whitespace first
      var skip := SpaceRun(args[pos..]);
      WordsSkipSpace(args[pos..]);
      DropDrop(args, pos, skip);
      pos := pos + skip;
      if pos == |args| {
        break;
      }
      var n := WordRun(args[pos..]);
      WordsStep(args[pos..]);
      DropDrop(args, pos, n);
      AppendAssoc(argList, [args[pos..pos + n]], Words(args[pos + n..]));
      argList := argList + [args[pos..pos + n]];
      pos := pos + n;
    }
    assert args[pos..] == [];
    assert argList + [] == argList;
  }

  // ---------------------------------------------------------------------
  // _IsStepLine

  /** `line.rfind("#", 0) == 0`: the line starts with a '#'. */
  predicate IsComment(line: string) {
    line != [] && line[0] == '#'
  }

  /** `_IsStepLine`: a comment whose text after the '#' holds a step number. */
  predicate IsStepLine(line: string) {
    IsComment(line) && IsStepNumber(line[1..])
  }

  /**
   * `ss >> num >> dot` leaves the stream good, with `dot == '.'` and
   * `num > 0`: the extraction of `num` must find a numeral within the range
   * of `int`, and the extraction of `dot` must find a '.' after it.
   */
  predicate IsStepNumber(s: string) {
    match ScanInt(s)
    case None => false
    case Some(sc) => InIntRange(sc.value) && sc.value > 0 && DotFollows(sc.rest)
  }

  /** `>> dot` skips whitespace, then reads the character '.'. */
  predicate DotFollows(rest: string) {
    var after := rest[SpaceRun(rest)..];
    after != [] && after[0] == '.'
  }

  /**
   * The pieces of a step header: whitespace, an optional '+', a decimal
   * numeral for a positive `int`, and whitespace before the '.'.
   */
  predicate StepShape(w1: string, sign: string, ds: string, w2: string) {
    AllSpace(w1) && (sign == "" || sign == "+") && ds != [] && AllDigits(ds) &&
    0 < DigitsValue(ds) <= IntMax && AllSpace(w2)
  }

  /** The line `#`, `w1`, `sign`, `ds`, `w2`, `.`, `tail`. */
  function HeaderText(w1: string, sign: string, ds: string, w2: string, tail: string): string {
    "#" + (w1 + (sign + (ds + (w2 + ("." + tail)))))
  }

  lemma DotShape(rest: string) returns (w2: string, tail: string)
    requires DotFollows(rest)
    ensures AllSpace(w2) && rest == w2 + ("." + tail)
  {
    var m := SpaceRun(rest);
    w2 := rest[..m];
    tail := rest[m + 1..];
    assert rest == w2 + rest[m..];
    assert rest[m..] == "." + tail;
  }

  lemma DotAfterSpace(w2: string, tail: string)
    requires AllSpace(w2)
    ensures DotFollows(w2 + ("." + tail))
    ensures !IsDigit((w2 + ("." + tail))[0])
  {
    SpaceRunOfPrefix(w2, "." + tail);
    assert (w2 + ("." + tail))[|w2|..] == "." + tail;
  }

  lemma CommentText(line: string)
    requires IsComment(line)
    ensures line == "#" + line[1..]
  {
  }

  /** Every step line has the shape of a step header. */
  lemma StepLineShape(line: string) returns (w1: string, sign: string, ds: string, w2: string, tail: string)
    requires IsStepLine(line)
    ensures StepShape(w1, sign, ds, w2)
    ensures line == HeaderText(w1, sign, ds, w2, tail)
  {
    CommentText(line);
    var s := line[1..];
    w1, sign, ds := ScanIntShape(s);
    w2, tail := DotShape(ScanInt(s).value.rest);
  }

  /** Every text of the shape of a step header is a step line. */
  lemma StepLineOfShape(w1: string, sign: string, ds: string, w2: string, tail: string)
    requires StepShape(w1, sign, ds, w2)
    ensures IsStepLine(HeaderText(w1, sign, ds, w2, tail))
  {
    var rest := w2 + ("." + tail);
    DotAfterSpace(w2, tail);
    if sign == "" {
      ScanIntOfDigits(w1, ds, rest);
      assert sign + (ds + rest) == ds + rest;
    } else {
      ScanIntOfPlusDigits(w1, ds, rest);
    }
    SignedTail('#', w1 + (sign + (ds + rest)));
  }

  /** The header `ParseCommands` looks for: `"# " + std::to_string(n) + "."`. */
  function Header(n: int): string {
    "# " + IntToString(n) + "."
  }

  /** The header of a positive step number is a step line, whatever follows it. */
  lemma HeaderIsStepLine(n: int, suffix: string)
    requires 0 < n <= IntMax
    ensures IsStepLine(Header(n) + suffix)
  {
    var ds := NatToString(n);
    StepLineOfShape(" ", "", ds, "", suffix);
    HeaderTextOfNumeral(ds, suffix);
  }

  lemma HeaderTextOfNumeral(ds: string, suffix: string)
    ensures "# " + ds + "." + suffix == HeaderText(" ", "", ds, "", suffix)
  {
  }

  /** No header of a step number below one is a step line. */
  lemma NonPositiveHeaderIsNoStepLine(n: int, suffix: string)
    requires n <= 0
    ensures !IsStepLine(Header(n) + suffix)
  {
    var line := Header(n) + suffix;
    assert line[1..] == " " + IntToString(n) + ("." + suffix);
    ScanIntToString(" ", n, "." + suffix);
  }

  // ---------------------------------------------------------------------
  // ParseCommands

  /** One captured line: its first word and the remainder of the line. */
  datatype Command = Command(name: string, rest: string)

  /**
   * `iss >> command; getline(iss, rest)` on a line, then the removal of one
   * leading space from `rest`. A blank line makes `>>` fail, and then
   * `getline` reads nothing either.
   */
  function SplitCommand(line: string): (r: Command)
    ensures Words(line) == [] ==> r == Command("", "")
    ensures Words(line) != [] ==> r.name == Words(line)[0]
  {
    WordsSkipSpace(line);
    var k := SpaceRun(line);
    if k == |line| then
      WordsAllSpace(line[k..]);
      Command("", "")
    else
      var t := line[k..];
      var w := WordRun(t);
      var remainder := t[w..];
      var piece := remainder[..IndexOf(remainder, '\n')];
      Command(t[..w], if piece != [] && piece[0] == ' ' then piece[1..] else piece)
  }

  /** Round trip: a word, one space and a one-line remainder are split back into the two. */
  lemma SplitCommandJoin(name: string, rest: string)
    requires name != [] && NoSpace(name)
    requires '\n' !in rest
    ensures SplitCommand(name + (" " + rest)) == Command(name, rest)
  {
    var tail := " " + rest;
    var line := name + tail;
    assert line[0] == name[0];
    assert SpaceRun(line) == 0;
    assert line[0..] == line;
    WordRunOfPrefix(name, tail);
    SplitAt(name, tail);
    assert '\n' !in tail;
    SignedTail(' ', rest);
  }

  /**
   * The commands `ParseCommands` collects from `lines`, given whether it is
   * capturing: a comment that is a step line ends a capture or, if it is the
   * requested header, starts one; every other comment is skipped; a
   * non-empty line is captured while capturing.
   */
  function Section(lines: seq<string>, n: int, capturing: bool): seq<Command>
    decreases |lines|
  {
    if lines == [] then []
    else
      var line := lines[0];
      if IsComment(line) then
        if IsStepLine(line) && capturing then []
        else if IsStepLine(line) && Find(line, Header(n)) == Some(0) then Section(lines[1..], n, true)
        else Section(lines[1..], n, capturing)
      else if capturing && line != [] then [SplitCommand(line)] + Section(lines[1..], n, capturing)
      else Section(lines[1..], n, capturing)
  }

  /**
   * The commands of step `stepNumber` in the `Commands` file, read line by
   * line; `file` is the file's content, `None` when it cannot be opened.
   */
  method ParseCommands(file: Option<string>, stepNumber: int) returns (commands: seq<Command>)
    ensures file.None? ==> commands == []
    ensures file.Some? ==> commands == Section(Split(file.value, '\n'), stepNumber, false)
  {
    commands := [];
    if file.Some? {
      commands := ReadStep(Split(file.value, '\n'), stepNumber);
    }
  }

  /** The `getline` loop of `ParseCommands`, over the lines of the open file. */
  method ReadStep(lines: seq<string>, stepNumber: int) returns (commands: seq<Command>)
    ensures commands == Section(lines, stepNumber, false)
  {
    commands := [];
    var startCapture := false;
    var i := 0;
    while i < |lines|
      invariant 0 <= i <= |lines|
      invariant commands + Section(lines[i..], stepNumber, startCapture) == Section(lines, stepNumber, false)
      decreases |lines| - i
    {
      var line := lines[i];
      assert lines[i..][0] == line && lines[i..][1..] == lines[i + 1..];
      if IsComment(line) {
        if IsStepLine(line) {
          if startCapture {
            assert commands + [] == commands;
            break;
          } else if Find(line, Header(stepNumber)) == Some(0) {
            startCapture := true;
            i := i + 1;
            continue;
          }
        }
        i := i + 1;
        continue;
      }
      if startCapture && line != [] {
        AppendAssoc(commands, [SplitCommand(line)], Section(lines[i + 1..], stepNumber, startCapture));
        commands := commands + [SplitCommand(line)];
      }
      i := i + 1;
    }
    if i == |lines| {
      assert commands + [] == commands;
    }
  }

  /** The commands of the non-empty lines of `block` that are not comments, in order. */
  function Captured(block: seq<string>): (r: seq<Command>)
    ensures |r| <= |block|
  {
    if block == [] then []
    else (if block[0] != [] && !IsComment(block[0]) then [SplitCommand(block[0])] else []) + Captured(block[1..])
  }

  /** Position of the first line satisfying `p`, or `|lines|` when there is none. */
  function FirstWhere(lines: seq<string>, p: string -> bool): (i: nat)
    ensures i <= |lines|
    ensures i < |lines| ==> p(lines[i])
    ensures forall j :: 0 <= j < i ==> !p(lines[j])
  {
    if lines == [] || p(lines[0]) then 0 else 1 + FirstWhere(lines[1..], p)
  }

  /** The header of step `n`, as `ParseCommands` recognises it. */
  predicate OpensStep(line: string, n: int) {
    IsStepLine(line) && Find(line, Header(n)) == Some(0)
  }

  /** A header of step `n` is a step line that starts with `# n.`. */
  lemma OpensStepIsPrefix(line: string, n: int)
    ensures OpensStep(line, n) <==> IsStepLine(line) && IsPrefix(Header(n), line)
  {
    FindAtStart(line, Header(n));
  }

  function FirstStepLine(lines: seq<string>): nat {
    FirstWhere(lines, IsStepLine)
  }

  function FirstHeader(lines: seq<string>, n: int): nat {
    FirstWhere(lines, (line: string) => OpensStep(line, n))
  }

  /** While capturing, `ParseCommands` collects the block before the next step line. */
  lemma {:induction false} SectionWhileCapturing(lines: seq<string>, n: int)
    ensures Section(lines, n, true) == Captured(lines[..FirstStepLine(lines)])
    decreases |lines|
  {
    if lines != [] && !IsStepLine(lines[0]) {
      var k := FirstStepLine(lines[1..]);
      SectionWhileCapturing(lines[1..], n);
      TakeCons(lines, k);
      CapturedCons(lines[0], lines[1..][..k]);
    }
  }

  lemma TakeCons<T>(s: seq<T>, k: nat)
    requires 1 + k <= |s|
    ensures s[..1 + k] == [s[0]] + s[1..][..k]
  {
  }

  lemma CapturedCons(line: string, block: seq<string>)
    ensures Captured([line] + block) ==
      (if line != [] && !IsComment(line) then [SplitCommand(line)] else []) + Captured(block)
  {
    assert ([line] + block)[1..] == block;
  }

  /**
   * The lines of step `n`: those after its first header and before the next
   * step line or the end; `None` when the header is missing.
   */
  function StepBlock(lines: seq<string>, n: int): Option<seq<string>> {
    var h := FirstHeader(lines, n);
    if h == |lines| then None
    else
      var after := lines[h + 1..];
      Some(after[..FirstStepLine(after)])
  }

  /**
   * `ParseCommands` returns exactly the commands of the non-empty,
   * non-comment lines of the requested step's block, and nothing when the
   * header is missing.
   */
  lemma {:induction false} SectionIsStepBlock(lines: seq<string>, n: int)
    ensures StepBlock(lines, n).None? ==> Section(lines, n, false) == []
    ensures StepBlock(lines, n).Some? ==> Section(lines, n, false) == Captured(StepBlock(lines, n).value)
    decreases |lines|
  {
    if lines != [] {
      if OpensStep(lines[0], n) {
        SectionWhileCapturing(lines[1..], n);
      } else {
        assert Section(lines, n, false) == Section(lines[1..], n, false);
        SectionIsStepBlock(lines[1..], n);
        var h := FirstHeader(lines[1..], n);
        assert FirstHeader(lines, n) == h + 1;
        if h < |lines[1..]| {
          DropDrop(lines, 1, h + 1);
        }
      }
    }
  }

  // ---------------------------------------------------------------------
  // ExtractDiskOrPartitionName

  /** The characters of the lsblk tree drawing: `find_first_not_of("|`-")`. */
  predicate IsTreeChar(c: char) {
    c == '|' || c == '`' || c == '-'
  }

  predicate AllTree(s: string) {
    forall i :: 0 <= i < |s| ==> IsTreeChar(s[i])
  }

  /** Length of the leading run of tree characters. */
  function TreeRun(s: string): (n: nat)
    ensures n <= |s| && AllTree(s[..n])
    ensures n < |s| ==> !IsTreeChar(s[n])
  {
    if s == [] || !IsTreeChar(s[0]) then 0 else 1 + TreeRun(s[1..])
  }

  /** A partition line (first character '|' or '`'); `line[0]` of an empty string is NUL. */
  predicate IsPartitionLine(line: string) {
    line != [] && (line[0] == '|' || line[0] == '`')
  }

  /**
   * The device name on an `lsblk` tree line: for a partition line the text
   * after the tree characters up to the next space, for a disk line its
   * first word.
   */
  function ExtractDiskOrPartitionName(line: string): (r: Result<string, StdError>)
    ensures r.Failure? <==> IsPartitionLine(line) && AllTree(line)
    ensures r.Failure? ==> r.error == OutOfRange
    ensures r.Success? ==> ' ' !in r.value
    ensures r.Success? && IsPartitionLine(line) ==> r.value != [] ==> !IsTreeChar(r.value[0])
  {
    if IsPartitionLine(line) then
      var start := TreeRun(line);
      if start == |line| then
        assert line[..start] == line;
        Failure(OutOfRange)
      else
        var end := start + IndexOf(line[start..], ' ');
        assert line[start..end] == line[start..][..end - start];
        Success(line[start..end])
    else
      var ws := Words(line);
      if ws == [] then Success("")
      else
        assert forall j :: 0 <= j < |ws[0]| ==> ws[0][j] != ' ';
        Success(ws[0])
  }

  /** A partition line gives back the name written after its tree prefix. */
  lemma PartitionName(prefix: string, name: string, tail: string)
    requires IsPartitionLine(prefix) && AllTree(prefix)
    requires name != [] && !IsTreeChar(name[0]) && ' ' !in name
    requires tail == [] || tail[0] == ' '
    ensures ExtractDiskOrPartitionName(prefix + name + tail) == Success(name)
  {
    var line := prefix + name + tail;
    assert line[0] == prefix[0];
    var after := name + tail;
    assert line == prefix + after;
    assert TreeRun(line) == |prefix| by {
      assert forall j :: 0 <= j < |prefix| ==> line[j] == prefix[j];
      assert line[|prefix|] == name[0];
      TreeRunOfPrefix(prefix, after);
    }
    assert line[|prefix|..] == after;
    assert IndexOf(after, ' ') == |name| by {
      assert forall j :: 0 <= j < |name| ==> after[j] == name[j] && name[j] in name;
      assert |after| > |name| ==> after[|name|] == ' ';
    }
    assert line[|prefix|..|prefix| + |name|] == name;
  }

  lemma TreeRunOfPrefix(prefix: string, after: string)
    requires AllTree(prefix)
    requires after == [] || !IsTreeChar(after[0])
    ensures TreeRun(prefix + after) == |prefix|
  {
    var s := prefix + after;
    assert forall j :: 0 <= j < |prefix| ==> s[j] == prefix[j];
    assert |s| > |prefix| ==> s[|prefix|] == after[0];
  }

  /** A disk line gives back its first word; a blank line gives "". */
  lemma DiskName(word: string, tail: string)
    requires word != [] && NoSpace(word) && word[0] != '|' && word[0] != '`'
    requires tail == [] || IsSpace(tail[0])
    ensures ExtractDiskOrPartitionName(word + tail) == Success(word)
  {
    WordsCons(word, tail);
    assert (word + tail)[0] == word[0];
  }

  lemma BlankLineName(line: string)
    requires AllSpace(line)
    ensures ExtractDiskOrPartitionName(line) == Success("")
  {
    WordsAllSpace(line);
  }

  // ---------------------------------------------------------------------
  // _SetRawMode

  /** The four flag words of a `struct termios` (`tcflag_t`, 32 bits), Linux values. */
  datatype Termios = Termios(iflag: bv32, oflag: bv32, cflag: bv32, lflag: bv32, cc: seq<bv8>)

  const BRKINT: bv32 := 0x2
  const INPCK: bv32 := 0x10
  const ISTRIP: bv32 := 0x20
  const ICRNL: bv32 := 0x100
  const IXON: bv32 := 0x400
  const OPOST: bv32 := 0x1
  const CSIZE: bv32 := 0x30
  const CS8: bv32 := 0x30
  const PARENB: bv32 := 0x100
  const ISIG: bv32 := 0x1
  const ICANON: bv32 := 0x2
  const ECHO: bv32 := 0x8
  const IEXTEN: bv32 := 0x8000

  const LocalOff: bv32 := ECHO | ICANON | ISIG | IEXTEN
  const InputOff: bv32 := BRKINT | ICRNL | INPCK | ISTRIP | IXON
  const ControlOff: bv32 := CSIZE | PARENB

  /** The settings of a terminal in raw mode. */
  predicate IsRaw(t: Termios) {
    t.lflag & LocalOff == 0 && t.iflag & InputOff == 0 &&
    t.cflag & ControlOff == CS8 && t.oflag & OPOST == 0
  }

  /** `flags &= ~mask`: the bits of `mask` cleared, every other bit kept. */
  function ClearFlags(flags: bv32, mask: bv32): (r: bv32)
    ensures r & mask == 0 && r & !mask == flags & !mask
  {
    flags & !mask
  }

  /** `c_cflag &= ~(CSIZE | PARENB); c_cflag |= CS8`: 8-bit characters, no parity. */
  function EightBitControl(flags: bv32): (r: bv32)
    ensures r & ControlOff == CS8 && r & !ControlOff == flags & !ControlOff
  {
    (flags & !ControlOff) | CS8
  }

  /**
   * The settings `_SetRawMode` installs, computed from the original ones:
   * echo, canonical mode, signals and extended input processing off; break,
   * CR-to-NL, parity check, stripping and flow control off; 8-bit characters
   * without parity; output processing off. Every other bit and the control
   * characters are kept.
   */
  function RawMode(t: Termios): (r: Termios)
    ensures r.cc == t.cc
    ensures IsRaw(r)
    ensures r.lflag & !LocalOff == t.lflag & !LocalOff
    ensures r.iflag & !InputOff == t.iflag & !InputOff
    ensures r.cflag & !ControlOff == t.cflag & !ControlOff
    ensures r.oflag & !OPOST == t.oflag & !OPOST
  {
    t.(lflag := ClearFlags(t.lflag, LocalOff),
       iflag := ClearFlags(t.iflag, InputOff),
       cflag := EightBitControl(t.cflag),
       oflag := ClearFlags(t.oflag, OPOST))
  }

  lemma ClearFlagsOfCleared(flags: bv32, mask: bv32)
    requires flags & mask == 0
    ensures ClearFlags(flags, mask) == flags
  {
  }

  lemma EightBitControlOfEightBit(flags: bv32)
    requires flags & ControlOff == CS8
    ensures EightBitControl(flags) == flags
  {
  }

  /** Settings already raw are left as they are; so setting raw mode twice is setting it once. */
  lemma RawModeOfRaw(t: Termios)
    requires IsRaw(t)
    ensures RawMode(t) == t
  {
    ClearFlagsOfCleared(t.lflag, LocalOff);
    ClearFlagsOfCleared(t.iflag, InputOff);
    EightBitControlOfEightBit(t.cflag);
    ClearFlagsOfCleared(t.oflag, OPOST);
  }

  lemma RawModeIdempotent(t: Termios)
    ensures RawMode(RawMode(t)) == RawMode(t)
  {
    RawModeOfRaw(RawMode(t));
  }

  // ---------------------------------------------------------------------
  // _GetExeDir

  const PathMax: nat := 4096

  predicate IsSeparator(c: char) {
    c == '/' || c == '\\'
  }

  /** `find_last_of("/\\")`: position of the last separator, `None` for `npos`. */
  function LastSeparator(s: string): (r: Option<nat>)
    ensures r.Some? ==> r.value < |s| && IsSeparator(s[r.value])
    ensures r.Some? ==> forall j :: r.value < j < |s| ==> !IsSeparator(s[j])
    ensures r.None? ==> forall j :: 0 <= j < |s| ==> !IsSeparator(s[j])
    decreases |s|
  {
    if s == [] then None
    else if IsSeparator(s[|s| - 1]) then Some(|s| - 1)
    else LastSeparator(s[..|s| - 1])
  }

  /**
   * The directory of the running executable. `target` is what `readlink`
   * reports for `/proc/self/exe` (`None` when it fails); `readlink` stores at
   * most `PATH_MAX` bytes of it.
   */
  function ExeDir(target: Option<string>): (dir: string)
    ensures target.None? ==> dir == ""
    ensures target.Some? ==> IsPrefix(dir, target.value)
  {
    var path := if target.None? then "" else if |target.value| <= PathMax then target.value else target.value[..PathMax];
    match LastSeparator(path)
    case None => ""
    case Some(i) => path[..i]
  }

  /** The directory is everything before the last separator. */
  lemma ExeDirOfPath(dir: string, name: string)
    requires forall j :: 0 <= j < |name| ==> !IsSeparator(name[j])
    requires |dir| + 1 + |name| <= PathMax
    ensures ExeDir(Some(dir + "/" + name)) == dir
  {
    var path := dir + "/" + name;
    var i := LastSeparator(path);
    assert path[|dir|] == '/';
    assert forall j :: |dir| < j < |path| ==> path[j] == name[j - |dir| - 1];
    assert path[..|dir|] == dir;
  }

  /** A path without any separator has no directory part. */
  lemma ExeDirOfBareName(name: string)
    requires forall j :: 0 <= j < |name| ==> !IsSeparator(name[j])
    requires |name| <= PathMax
    ensures ExeDir(Some(name)) == ""
  {
  }
}
