/**
 * The C++ standard-library string and stream operations the installer relies
 * on, stated once and shared by every other module: `isspace`, whitespace
 * token extraction (`stream >> word`), `std::getline` with a delimiter,
 * `std::string::find`, `std::to_string` and decimal integer extraction
 * (`stream >> int`, `std::stoi`).
 */
module Text {
  import opened Wrappers

  const IntMin: int := -0x8000_0000
  const IntMax: int := 0x7FFF_FFFF

  /** `isspace` in the "C" locale. */
  predicate IsSpace(c: char) {
    c == ' ' || c == '\t' || c == '\n' || c == '\U{B}' || c == '\U{C}' || c == '\r'
  }

  predicate NoSpace(s: string) {
    forall i :: 0 <= i < |s| ==> !IsSpace(s[i])
  }

  predicate AllSpace(s: string) {
    forall i :: 0 <= i < |s| ==> IsSpace(s[i])
  }

  /** Length of the leading whitespace run: what a skipws sentry consumes. */
  function SpaceRun(s: string): (n: nat)
    ensures n <= |s| && AllSpace(s[..n])
    ensures n < |s| ==> !IsSpace(s[n])
  {
    if s == [] || !IsSpace(s[0]) then 0 else 1 + SpaceRun(s[1..])
  }

  /** Length of the leading run of non-whitespace characters. */
  function WordRun(s: string): (n: nat)
    ensures n <= |s| && NoSpace(s[..n])
    ensures n < |s| ==> IsSpace(s[n])
  {
    if s == [] || IsSpace(s[0]) then 0 else 1 + WordRun(s[1..])
  }

  /**
   * The tokens that repeated `stream >> word` calls extract from `s`, in
   * order: maximal runs of non-whitespace characters.
   */
  function Words(s: string): (r: seq<string>)
    ensures forall i :: 0 <= i < |r| ==> r[i] != [] && NoSpace(r[i])
    decreases |s|
  {
    if s == [] then []
    else if IsSpace(s[0]) then Words(s[1..])
    else
      var n := WordRun(s);
      [s[..n]] + Words(s[n..])
  }

  /** One extraction step: a token starts at the first character. */
  lemma WordsStep(s: string)
    requires s != [] && !IsSpace(s[0])
    ensures Words(s) == [s[..WordRun(s)]] + Words(s[WordRun(s)..])
  {
  }

  lemma DropDrop<T>(s: seq<T>, i: nat, j: nat)
    requires i + j <= |s|
    ensures s[i..][j..] == s[i + j..]
    ensures s[i..][..j] == s[i..i + j]
  {
  }

  lemma SplitAt<T>(a: seq<T>, b: seq<T>)
    ensures (a + b)[..|a|] == a && (a + b)[|a|..] == b
  {
  }

  lemma TakeOneMore<T>(s: seq<T>, i: nat)
    requires i < |s|
    ensures s[..i + 1] == s[..i] + [s[i]]
  {
  }

  lemma AppendAssoc<T>(a: seq<T>, b: seq<T>, c: seq<T>)
    ensures a + b + c == a + (b + c)
  {
  }

  /** `s` with every whitespace character deleted. */
  function Squeeze(s: string): string {
    if s == [] then [] else (if IsSpace(s[0]) then [] else [s[0]]) + Squeeze(s[1..])
  }

  function Concat(ss: seq<string>): string {
    if ss == [] then [] else ss[0] + Concat(ss[1..])
  }

  /** The tokens separated by single spaces, as a command line is written. */
  function JoinSpace(ts: seq<string>): string {
    if ts == [] then [] else if |ts| == 1 then ts[0] else ts[0] + " " + JoinSpace(ts[1..])
  }

  /** Every token followed by one space. */
  function SpaceTerminated(ts: seq<string>): string {
    if ts == [] then [] else ts[0] + " " + SpaceTerminated(ts[1..])
  }

  lemma {:induction false} SpaceTerminatedAppend(ts: seq<string>, t: string)
    ensures SpaceTerminated(ts + [t]) == SpaceTerminated(ts) + t + " "
    decreases |ts|
  {
    if ts != [] {
      assert (ts + [t])[1..] == ts[1..] + [t];
      SpaceTerminatedAppend(ts[1..], t);
    }
  }

  predicate Tokens(ts: seq<string>) {
    forall i :: 0 <= i < |ts| ==> ts[i] != [] && NoSpace(ts[i])
  }

  lemma WordRunOfPrefix(w: string, rest: string)
    requires NoSpace(w)
    requires rest == [] || IsSpace(rest[0])
    ensures WordRun(w + rest) == |w|
  {
    var s := w + rest;
    assert forall j :: 0 <= j < |w| ==> s[j] == w[j];
    assert |s| > |w| ==> s[|w|] == rest[0];
  }

  lemma SpaceRunOfPrefix(w: string, rest: string)
    requires AllSpace(w)
    requires rest == [] || !IsSpace(rest[0])
    ensures SpaceRun(w + rest) == |w|
  {
    var s := w + rest;
    assert forall j :: 0 <= j < |w| ==> s[j] == w[j];
    assert |s| > |w| ==> s[|w|] == rest[0];
  }

  /** The whitespace a skipws sentry consumes does not change what is extracted after it. */
  lemma {:induction false} WordsSkipSpace(s: string)
    ensures Words(s) == Words(s[SpaceRun(s)..])
    decreases |s|
  {
    if s != [] && IsSpace(s[0]) {
      WordsSkipSpace(s[1..]);
      assert s[SpaceRun(s)..] == s[1..][SpaceRun(s[1..])..];
    }
  }

  /** A blank string holds no token. */
  lemma {:induction false} WordsAllSpace(s: string)
    requires AllSpace(s)
    ensures Words(s) == []
    decreases |s|
  {
    if s != [] {
      WordsAllSpace(s[1..]);
    }
  }

  /** A token followed by whitespace (or nothing) is extracted whole. */
  lemma WordsCons(w: string, rest: string)
    requires w != [] && NoSpace(w)
    requires rest == [] || IsSpace(rest[0])
    ensures Words(w + rest) == [w] + Words(rest)
  {
    var s := w + rest;
    WordRunOfPrefix(w, rest);
    assert s[0] == w[0];
    assert s[..|w|] == w;
    assert s[|w|..] == rest;
  }

  lemma {:induction false} SqueezeAppend(a: string, b: string)
    ensures Squeeze(a + b) == Squeeze(a) + Squeeze(b)
    decreases |a|
  {
    if a == [] {
      assert a + b == b;
    } else {
      assert (a + b)[0] == a[0];
      assert (a + b)[1..] == a[1..] + b;
      SqueezeAppend(a[1..], b);
    }
  }

  lemma {:induction false} SqueezeNoSpace(w: string)
    requires NoSpace(w)
    ensures Squeeze(w) == w
    decreases |w|
  {
    if w != [] {
      SqueezeNoSpace(w[1..]);
    }
  }

  /** The extracted tokens, put back together, are the input minus its whitespace. */
  lemma {:induction false} WordsConcat(s: string)
    ensures Concat(Words(s)) == Squeeze(s)
    decreases |s|
  {
    if s == [] {
    } else if IsSpace(s[0]) {
      WordsConcat(s[1..]);
    } else {
      var n := WordRun(s);
      assert s == s[..n] + s[n..];
      WordsConcat(s[n..]);
      SqueezeAppend(s[..n], s[n..]);
      SqueezeNoSpace(s[..n]);
    }
  }

  /** Round trip: splitting a single-space join of tokens gives the tokens back. */
  lemma {:induction false} WordsOfJoinSpace(ts: seq<string>)
    requires Tokens(ts)
    ensures Words(JoinSpace(ts)) == ts
    decreases |ts|
  {
    if ts == [] {
    } else if |ts| == 1 {
      WordsCons(ts[0], []);
      assert ts[0] + [] == ts[0];
    } else {
      var rest := " " + JoinSpace(ts[1..]);
      assert JoinSpace(ts) == ts[0] + rest;
      WordsCons(ts[0], rest);
      assert rest[1..] == JoinSpace(ts[1..]);
      WordsOfJoinSpace(ts[1..]);
    }
  }

  /** Round trip: splitting tokens that are each followed by a space gives the tokens back. */
  lemma WordsOfSpaceTerminated(ts: seq<string>)
    requires Tokens(ts)
    ensures Words(SpaceTerminated(ts)) == ts
  {
    WordsAfterSpaceTerminated(ts, "");
    assert SpaceTerminated(ts) + "" == SpaceTerminated(ts);
  }

  /** Tokens each followed by a space come out first, in order, whatever follows them. */
  lemma {:induction false} WordsAfterSpaceTerminated(ts: seq<string>, tail: string)
    requires Tokens(ts)
    ensures Words(SpaceTerminated(ts) + tail) == ts + Words(tail)
    decreases |ts|
  {
    if ts == [] {
      assert SpaceTerminated(ts) + tail == tail;
    } else {
      var after := SpaceTerminated(ts[1..]) + tail;
      var rest := " " + after;
      assert SpaceTerminated(ts) + tail == ts[0] + rest;
      WordsCons(ts[0], rest);
      assert rest[0] == ' ' && rest[1..] == after;
      assert Words(rest) == Words(after);
      WordsAfterSpaceTerminated(ts[1..], tail);
      assert Words(after) == ts[1..] + Words(tail);
      AppendAssoc([ts[0]], ts[1..], Words(tail));
      assert [ts[0]] + ts[1..] == ts;
    }
  }

  // ---------------------------------------------------------------------
  // std::getline with a delimiter

  /** `std::find`: position of the first `x` in `s`, or `|s|` (the end) when there is none. */
  function IndexOf<T(==)>(s: seq<T>, x: T): (i: nat)
    ensures i <= |s| && (i < |s| ==> s[i] == x)
    ensures forall j :: 0 <= j < i ==> s[j] != x
    ensures i == |s| <==> x !in s
  {
    if s == [] || s[0] == x then 0 else 1 + IndexOf(s[1..], x)
  }

  /**
   * The pieces that successive `std::getline(stream, piece, d)` calls
   * extract: a final delimiter does not start an extra empty piece, and an
   * empty input gives no piece at all.
   */
  function Split(s: string, d: char): (r: seq<string>)
    ensures forall i :: 0 <= i < |r| ==> d !in r[i]
    decreases |s|
  {
    if s == [] then []
    else
      var i := IndexOf(s, d);
      if i == |s| then [s] else [s[..i]] + Split(s[i + 1..], d)
  }

  /** Every piece followed by the delimiter. */
  function Terminated(parts: seq<string>, d: char): string {
    if parts == [] then [] else parts[0] + [d] + Terminated(parts[1..], d)
  }

  /** The pieces separated by the delimiter. */
  function JoinWith(parts: seq<string>, d: char): string {
    if parts == [] then [] else if |parts| == 1 then parts[0] else parts[0] + [d] + JoinWith(parts[1..], d)
  }

  predicate FreeOf(parts: seq<string>, d: char) {
    forall i :: 0 <= i < |parts| ==> d !in parts[i]
  }

  /** The first piece ends at the first delimiter. */
  lemma SplitFirst(p: string, d: char, rest: string)
    requires d !in p
    ensures Split(p + ([d] + rest), d) == [p] + Split(rest, d)
  {
    var s := p + ([d] + rest);
    assert s[|p|] == d;
    forall j | 0 <= j < |p| ensures s[j] != d {
      assert s[j] == p[j];
    }
    assert IndexOf(s, d) == |p|;
    SplitAt(p, [d] + rest);
    SignedTail(d, rest);
    assert s[..|p|] == p && s[|p| + 1..] == rest;
  }

  /** Round trip: reading back pieces that were each written with a delimiter after them. */
  lemma {:induction false} SplitTerminated(parts: seq<string>, d: char)
    requires FreeOf(parts, d)
    ensures Split(Terminated(parts, d), d) == parts
    decreases |parts|
  {
    if parts != [] {
      var p := parts[0];
      AppendAssoc(p, [d], Terminated(parts[1..], d));
      SplitFirst(p, d, Terminated(parts[1..], d));
      SplitTerminated(parts[1..], d);
    }
  }

  /** A piece without the delimiter is read back whole. */
  lemma SplitSingle(p: string, d: char)
    requires p != [] && d !in p
    ensures Split(p, d) == [p]
  {
    assert forall j :: 0 <= j < |p| ==> p[j] in p;
  }

  /** Round trip: reading back a delimiter-separated list whose last piece is not empty. */
  lemma {:induction false} SplitJoin(parts: seq<string>, d: char)
    requires parts != [] && parts[|parts| - 1] != []
    requires FreeOf(parts, d)
    ensures Split(JoinWith(parts, d), d) == parts
    decreases |parts|
  {
    var p := parts[0];
    if |parts| == 1 {
      SplitSingle(p, d);
    } else {
      var more := parts[1..];
      assert d !in p;
      assert FreeOf(more, d) && more[|more| - 1] == parts[|parts| - 1];
      assert JoinWith(parts, d) == p + [d] + JoinWith(more, d);
      AppendAssoc(p, [d], JoinWith(more, d));
      SplitFirst(p, d, JoinWith(more, d));
      SplitJoin(more, d);
    }
  }

  // ---------------------------------------------------------------------
  // std::string::find

  predicate OccursAt(s: string, p: string, i: nat) {
    i + |p| <= |s| && s[i..i + |p|] == p
  }

  lemma OccursShift(s: string, p: string, k: nat)
    requires s != []
    ensures OccursAt(s, p, k + 1) <==> OccursAt(s[1..], p, k)
  {
    if k + 1 + |p| <= |s| {
      assert s[k + 1..k + 1 + |p|] == s[1..][k..k + |p|];
    }
  }

  /** `s.find(p)`: the first position where `p` occurs, `None` for `npos`. */
  function Find(s: string, p: string): (r: Option<nat>)
    ensures r.Some? ==> OccursAt(s, p, r.value)
    ensures r.Some? ==> forall j: nat :: j < r.value ==> !OccursAt(s, p, j)
    ensures r.None? ==> forall j: nat :: j <= |s| ==> !OccursAt(s, p, j)
    decreases |s|
  {
    if |p| > |s| then None
    else if s[..|p|] == p then Some(0)
    else
      var tail := Find(s[1..], p);
      assert forall j: nat :: j >= 1 ==> (OccursAt(s, p, j) <==> OccursAt(s[1..], p, j - 1)) by {
        forall j: nat | j >= 1 ensures OccursAt(s, p, j) <==> OccursAt(s[1..], p, j - 1) {
          OccursShift(s, p, j - 1);
        }
      }
      match tail
      case None => None
      case Some(k) => Some(k + 1)
  }

  predicate IsPrefix(p: string, s: string) {
    |p| <= |s| && s[..|p|] == p
  }

  /** `s.find(p) == 0` holds exactly when `s` starts with `p`. */
  lemma FindAtStart(s: string, p: string)
    ensures Find(s, p) == Some(0) <==> IsPrefix(p, s)
  {
    if IsPrefix(p, s) {
      assert OccursAt(s, p, 0);
    }
  }

  /** An occurrence with none before it is the one `find` returns. */
  lemma FindFirst(s: string, p: string, m: nat)
    requires OccursAt(s, p, m)
    requires forall j: nat :: j < m ==> !OccursAt(s, p, j)
    ensures Find(s, p) == Some(m)
  {
  }

  /**
   * A pattern free of the separator `d` is not found across it: `find` on
   * `a`, `d`, `s` looks past a part `a` that lacks the pattern.
   */
  lemma FindPastPart(a: string, d: char, s: string, p: string)
    requires Find(a, p).None? && d !in p
    requires Find(s, p).Some?
    ensures Find(a + [d] + s, p) == Some(|a| + 1 + Find(s, p).value)
  {
    var k := Find(s, p).value;
    NotBeforePart(a, d, s, p, k);
    OccursAfterPart(a, d, s, p, k);
    FindFirst(a + [d] + s, p, |a| + 1 + k);
  }

  lemma OccursAfterPart(a: string, d: char, s: string, p: string, k: nat)
    requires OccursAt(s, p, k)
    ensures OccursAt(a + [d] + s, p, |a| + 1 + k)
  {
    var t := a + [d] + s;
    var m := |a| + 1 + k;
    forall q | 0 <= q < |p| ensures t[m..m + |p|][q] == p[q] {
      assert t[m + q] == s[k + q] == s[k..k + |p|][q];
    }
  }

  lemma NotBeforePart(a: string, d: char, s: string, p: string, k: nat)
    requires forall j: nat :: j <= |a| ==> !OccursAt(a, p, j)
    requires d !in p
    requires forall j: nat :: j < k ==> !OccursAt(s, p, j)
    ensures forall j: nat :: j < |a| + 1 + k ==> !OccursAt(a + [d] + s, p, j)
  {
    var t := a + [d] + s;
    forall j: nat | j < |a| + 1 + k ensures !OccursAt(t, p, j) {
      if j + |p| > |t| {
      } else if j + |p| <= |a| {
        assert t[j..j + |p|] == a[j..j + |p|];
        assert !OccursAt(a, p, j);
      } else if j <= |a| {
        assert t[j..j + |p|][|a| - j] == t[|a|] == d;
      } else {
        assert !OccursAt(s, p, j - |a| - 1);
        assert t[j..j + |p|] == s[j - |a| - 1..j - |a| - 1 + |p|];
      }
    }
  }

  /**
   * `p` is not found in `s` when its k-th character is absent from every
   * place of `s` where that character would have to stand.
   */
  lemma FindMissesChar(s: string, p: string, k: nat)
    requires k < |p|
    requires |p| <= |s| ==> p[k] !in s[k..|s| - |p| + k + 1]
    ensures Find(s, p).None?
  {
    forall j: nat | j <= |s| ensures !OccursAt(s, p, j) {
      if j + |p| <= |s| {
        assert s[j..j + |p|][k] == s[j + k];
        assert s[k..|s| - |p| + k + 1][j] == s[j + k];
      }
    }
  }

  // ---------------------------------------------------------------------
  // Decimal integers

  predicate IsDigit(c: char) {
    '0' <= c <= '9'
  }

  predicate AllDigits(s: string) {
    forall i :: 0 <= i < |s| ==> IsDigit(s[i])
  }

  function DigitRun(s: string): (n: nat)
    ensures n <= |s| && AllDigits(s[..n])
    ensures n < |s| ==> !IsDigit(s[n])
  {
    if s == [] || !IsDigit(s[0]) then 0 else 1 + DigitRun(s[1..])
  }

  lemma DigitRunOfPrefix(ds: string, rest: string)
    requires AllDigits(ds)
    requires rest == [] || !IsDigit(rest[0])
    ensures DigitRun(ds + rest) == |ds|
  {
    var s := ds + rest;
    assert forall j :: 0 <= j < |ds| ==> s[j] == ds[j];
    assert |s| > |ds| ==> s[|ds|] == rest[0];
  }

  function DigitValue(c: char): nat
    requires IsDigit(c)
  {
    c as int - '0' as int
  }

  /** The value of a decimal numeral. */
  function DigitsValue(ds: string): nat
    requires AllDigits(ds)
    decreases |ds|
  {
    if ds == [] then 0 else DigitsValue(ds[..|ds| - 1]) * 10 + DigitValue(ds[|ds| - 1])
  }

  function DigitChar(d: nat): (c: char)
    requires d < 10
    ensures IsDigit(c) && DigitValue(c) == d
  {
    ('0' as int + d) as char
  }

  /** `std::to_string` of a non-negative number. */
  function NatToString(n: nat): (s: string)
    ensures s != [] && AllDigits(s) && DigitsValue(s) == n
  {
    if n < 10 then [DigitChar(n)]
    else
      var s := NatToString(n / 10) + [DigitChar(n % 10)];
      assert s[..|s| - 1] == NatToString(n / 10);
      s
  }

  /** `std::to_string` of an int. */
  function IntToString(n: int): string {
    if n < 0 then "-" + NatToString(-n) else NatToString(n)
  }

  datatype Scanned = Scanned(value: int, rest: string)

  /**
   * Decimal extraction as `stream >> int` and `std::stoi` perform it, before
   * any range check: leading whitespace, an optional sign, then the longest
   * run of digits (at least one). `None` is the failed conversion.
   */
  function ScanInt(s: string): (r: Option<Scanned>)
    ensures r.Some? ==> r.value.rest == [] || !IsDigit(r.value.rest[0])
  {
    ScanSigned(s[SpaceRun(s)..])
  }

  /** An optional sign, then digits. */
  function ScanSigned(t: string): (r: Option<Scanned>)
    ensures r.Some? ==> r.value.rest == [] || !IsDigit(r.value.rest[0])
  {
    if t != [] && t[0] == '-' then
      match ScanDigits(t[1..])
      case None => None
      case Some(sc) => Some(Scanned(-sc.value, sc.rest))
    else if t != [] && t[0] == '+' then ScanDigits(t[1..])
    else ScanDigits(t)
  }

  /** The longest run of digits, at least one. */
  function ScanDigits(u: string): (r: Option<Scanned>)
    ensures r.Some? ==> r.value.value >= 0
    ensures r.Some? ==> r.value.rest == [] || !IsDigit(r.value.rest[0])
  {
    var n := DigitRun(u);
    if n == 0 then None else Some(Scanned(DigitsValue(u[..n]), u[n..]))
  }

  lemma ScanDigitsOf(ds: string, rest: string)
    requires ds != [] && AllDigits(ds)
    requires rest == [] || !IsDigit(rest[0])
    ensures ScanDigits(ds + rest) == Some(Scanned(DigitsValue(ds), rest))
  {
    DigitRunOfPrefix(ds, rest);
    assert (ds + rest)[..|ds|] == ds;
    assert (ds + rest)[|ds|..] == rest;
  }

  lemma ScanAfterSpace(w: string, t: string)
    requires AllSpace(w)
    requires t == [] || !IsSpace(t[0])
    ensures ScanInt(w + t) == ScanSigned(t)
  {
    SpaceRunOfPrefix(w, t);
    assert (w + t)[|w|..] == t;
  }

  lemma ScanDigitsShape(u: string) returns (ds: string)
    requires ScanDigits(u).Some?
    ensures ds != [] && AllDigits(ds)
    ensures u == ds + ScanDigits(u).value.rest
    ensures ScanDigits(u).value.value == DigitsValue(ds)
  {
    ds := u[..DigitRun(u)];
    assert u == ds + u[DigitRun(u)..];
  }

  lemma ScanSignedShape(t: string) returns (sign: string, ds: string)
    requires ScanSigned(t).Some?
    ensures ds != [] && AllDigits(ds)
    ensures sign == "" || sign == "+" || sign == "-"
    ensures t == sign + (ds + ScanSigned(t).value.rest)
    ensures ScanSigned(t).value.value == if sign == "-" then -(DigitsValue(ds) as int) else DigitsValue(ds)
  {
    if t != [] && (t[0] == '-' || t[0] == '+') {
      sign := [t[0]];
      ds := ScanDigitsShape(t[1..]);
      assert t == sign + t[1..];
    } else {
      sign := "";
      ds := ScanDigitsShape(t);
      assert t == sign + t;
    }
  }

  /** Every successful extraction reads whitespace, an optional sign and a numeral. */
  lemma ScanIntShape(s: string) returns (w: string, sign: string, ds: string)
    requires ScanInt(s).Some?
    ensures AllSpace(w) && ds != [] && AllDigits(ds)
    ensures sign == "" || sign == "+" || sign == "-"
    ensures s == w + (sign + (ds + ScanInt(s).value.rest))
    ensures ScanInt(s).value.value == if sign == "-" then -(DigitsValue(ds) as int) else DigitsValue(ds)
  {
    w := s[..SpaceRun(s)];
    sign, ds := ScanSignedShape(s[SpaceRun(s)..]);
    assert s == w + s[SpaceRun(s)..];
  }

  lemma ScanIntOfPlusDigits(w: string, ds: string, rest: string)
    requires AllSpace(w) && ds != [] && AllDigits(ds)
    requires rest == [] || !IsDigit(rest[0])
    ensures ScanInt(w + ("+" + (ds + rest))) == Some(Scanned(DigitsValue(ds), rest))
  {
    ScanPlus(ds, rest);
    ScanAfterSpace(w, "+" + (ds + rest));
  }

  predicate InIntRange(v: int) {
    IntMin <= v <= IntMax
  }

  /**
   * `std::stoi` in base 10: `invalid_argument` when no number can be read,
   * `out_of_range` when the number read does not fit an `int`; text after
   * the number is ignored.
   */
  function Stoi(s: string): (r: Result<int, StdError>)
    ensures r.Success? ==> InIntRange(r.value)
    ensures r.Failure? ==> r.error == InvalidArgument || r.error == OutOfRange
    ensures r == Failure(InvalidArgument) <==> ScanInt(s).None?
  {
    match ScanInt(s)
    case None => Failure(InvalidArgument)
    case Some(sc) => if InIntRange(sc.value) then Success(sc.value) else Failure(OutOfRange)
  }

  /** Round trip: `std::stoi(std::to_string(n)) == n` for every `int` n. */
  lemma StoiOfToString(n: int)
    requires InIntRange(n)
    ensures Stoi(IntToString(n)) == Success(n)
  {
    ScanIntToString("", n, "");
    assert "" + IntToString(n) + "" == IntToString(n);
  }

  /** Leading whitespace and text after the numeral do not change the result. */
  lemma StoiPadded(w: string, n: int, rest: string)
    requires AllSpace(w) && (rest == [] || !IsDigit(rest[0]))
    requires InIntRange(n)
    ensures Stoi(w + IntToString(n) + rest) == Success(n)
  {
    ScanIntToString(w, n, rest);
  }

  /**
   * Round trip: `std::to_string(n)`, after any whitespace and before a
   * non-digit, is read back as `n`.
   */
  lemma ScanIntToString(w: string, n: int, rest: string)
    requires AllSpace(w)
    requires rest == [] || !IsDigit(rest[0])
    ensures ScanInt(w + IntToString(n) + rest) == Some(Scanned(n, rest))
  {
    if n < 0 {
      ScanIntOfMinusDigits(w, NatToString(-n), rest);
    } else {
      ScanIntOfDigits(w, NatToString(n), rest);
      AppendAssoc(w, NatToString(n), rest);
    }
  }

  /** A numeral after whitespace is read as its value. */
  lemma ScanIntOfDigits(w: string, ds: string, rest: string)
    requires AllSpace(w) && ds != [] && AllDigits(ds)
    requires rest == [] || !IsDigit(rest[0])
    ensures ScanInt(w + (ds + rest)) == Some(Scanned(DigitsValue(ds), rest))
  {
    ScanUnsigned(ds, rest);
    ScanAfterSpace(w, ds + rest);
  }

  /** A '-' and a numeral after whitespace are read as the negated value. */
  lemma ScanIntOfMinusDigits(w: string, ds: string, rest: string)
    requires AllSpace(w) && ds != [] && AllDigits(ds)
    requires rest == [] || !IsDigit(rest[0])
    ensures ScanInt(w + ("-" + ds) + rest) == Some(Scanned(-(DigitsValue(ds) as int), rest))
  {
    var t := "-" + (ds + rest);
    assert w + ("-" + ds) + rest == w + t;
    assert t[0] == '-';
    ScanAfterSpace(w, t);
    ScanMinus(ds, rest);
  }

  lemma ScanUnsigned(ds: string, rest: string)
    requires ds != [] && AllDigits(ds)
    requires rest == [] || !IsDigit(rest[0])
    ensures ScanSigned(ds + rest) == Some(Scanned(DigitsValue(ds), rest))
  {
    ScanDigitsOf(ds, rest);
    assert IsDigit((ds + rest)[0]);
  }

  lemma ScanMinus(ds: string, rest: string)
    requires ds != [] && AllDigits(ds)
    requires rest == [] || !IsDigit(rest[0])
    ensures ScanSigned("-" + (ds + rest)) == Some(Scanned(-(DigitsValue(ds) as int), rest))
  {
    ScanDigitsOf(ds, rest);
    SignedTail('-', ds + rest);
  }

  lemma ScanPlus(ds: string, rest: string)
    requires ds != [] && AllDigits(ds)
    requires rest == [] || !IsDigit(rest[0])
    ensures ScanSigned("+" + (ds + rest)) == Some(Scanned(DigitsValue(ds), rest))
  {
    ScanDigitsOf(ds, rest);
    SignedTail('+', ds + rest);
  }

  lemma SignedTail(c: char, u: string)
    ensures ([c] + u)[0] == c && ([c] + u)[1..] == u
  {
  }
}
