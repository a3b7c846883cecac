/**
 * The selectable-list controller (src/Menu.h): a list of item names built
 * from text, one per line; a current item; a mark per item in togglable
 * mode; and an edge-triggered "confirmed" latch set by Enter.
 *
 * The ncurses menu library is seen only through what it keeps per menu and
 * per item: the items a menu was made from, the index of the current item
 * (moved and clamped by the navigation requests) and each item's value
 * (its mark). Whether `new_item` accepts a name and whether the menu can be
 * allocated are inputs of `Init`.
 */
module SelectableList {
  import opened Text

  /** A key event: the 10 bytes `KeyEvent::GetKey` hands over. */
  type Key = k: string | |k| == 10 witness "          "

  const Esc: char := '\U{1B}'

  /** What `OnEvent` asks of the menu for one key. */
  datatype KeyAction = Up | Down | PageUp | PageDown | Toggle | Confirm | Ignore

  /**
   * The decoding of `OnEvent`: ESC '[' followed by 'A', 'B', '5' or '6'
   * is a navigation request, a space toggles only in togglable mode, and a
   * first byte of LF or CR confirms.
   */
  function Classify(key: Key, togglable: bool): (a: KeyAction)
    ensures a == Confirm <==> key[0] == '\n' || key[0] == '\r'
    ensures a == Toggle <==> togglable && key[0] == ' '
    ensures a in {Up, Down, PageUp, PageDown} <==> key[0] == Esc && key[1] == '[' && key[2] in "AB56"
  {
    if key[0] == Esc && key[1] == '[' && key[2] == 'A' then Up
    else if key[0] == Esc && key[1] == '[' && key[2] == 'B' then Down
    else if key[0] == Esc && key[1] == '[' && key[2] == '5' then PageUp
    else if key[0] == Esc && key[1] == '[' && key[2] == '6' then PageDown
    else if togglable && key[0] == ' ' then Toggle
    else if key[0] == '\n' || key[0] == '\r' then Confirm
    else Ignore
  }

  /** The bytes a terminal sends for an action (padding after the sequence is arbitrary). */
  function Encode(a: KeyAction): Key {
    match a
    case Up => [Esc, '[', 'A'] + "       "
    case Down => [Esc, '[', 'B'] + "       "
    case PageUp => [Esc, '[', '5', '~'] + "      "
    case PageDown => [Esc, '[', '6', '~'] + "      "
    case Toggle => "          "
    case Confirm => "\r         "
    case Ignore => "x         "
  }

  /** Decoding the terminal's bytes for an action gives the action back (a space only in togglable mode). */
  lemma ClassifyEncode(a: KeyAction, togglable: bool)
    requires a == Toggle ==> togglable
    ensures Classify(Encode(a), togglable) == a
  {
  }

  /** In single mode no key toggles: a space is ignored. */
  lemma SpaceIgnoredInSingleMode(key: Key)
    requires key[0] == ' '
    ensures Classify(key, false) == Ignore
    ensures Classify(key, true) == Toggle
  {
  }

  /**
   * The current index after a navigation request on a menu of `n` items
   * with `rows` visible rows: one item or one page, clamped to the list.
   */
  function Navigate(a: KeyAction, cur: nat, n: nat, rows: nat): (c: nat)
    requires if n == 0 then cur == 0 else cur < n
    ensures if n == 0 then c == 0 else c < n
    ensures a in {Up, PageUp} ==> c <= cur
    ensures a in {Down, PageDown} ==> c >= cur
    ensures a !in {Up, Down, PageUp, PageDown} ==> c == cur
  {
    match a
    case Up => if cur == 0 then 0 else cur - 1
    case Down => if cur + 1 < n then cur + 1 else cur
    case PageUp => if cur < rows then 0 else cur - rows
    case PageDown => if n == 0 then 0 else if cur + rows < n then cur + rows else n - 1
    case _ => cur
  }

  /** Up undoes Down and Down undoes Up, away from the ends of the list. */
  lemma NavigateInverse(cur: nat, n: nat, rows: nat)
    requires cur < n
    ensures cur + 1 < n ==> Navigate(Up, Navigate(Down, cur, n, rows), n, rows) == cur
    ensures cur > 0 ==> Navigate(Down, Navigate(Up, cur, n, rows), n, rows) == cur
  {
  }

  /** A page move is `rows` single moves in the same direction. */
  lemma {:induction false} PageIsRepeatedStep(cur: nat, n: nat, rows: nat)
    requires cur < n
    ensures Navigate(PageDown, cur, n, rows) == Repeat(Down, rows, cur, n)
    ensures Navigate(PageUp, cur, n, rows) == Repeat(Up, rows, cur, n)
    decreases rows
  {
    if rows > 0 {
      PageIsRepeatedStep(Navigate(Down, cur, n, 0), n, rows - 1);
      PageIsRepeatedStep(Navigate(Up, cur, n, 0), n, rows - 1);
    }
  }

  function Repeat(a: KeyAction, k: nat, cur: nat, n: nat): nat
    requires cur < n
    ensures Repeat(a, k, cur, n) < n
    decreases k
  {
    if k == 0 then cur else Repeat(a, k - 1, Navigate(a, cur, n, 0), n)
  }

  /**
   * The C string that `strcpy` copies out of a line and `new_item` and
   * `item_name` see: the characters before the first NUL.
   */
  function CName(line: string): string {
    line[..IndexOf(line, '\0')]
  }

  /** The name is the line up to its first NUL, and the whole line when it has none. */
  lemma CNameCutsAtNul(line: string)
    ensures |CName(line)| <= |line| && CName(line) == line[..|CName(line)|] && '\0' !in CName(line)
    ensures |CName(line)| < |line| ==> line[|CName(line)|] == '\0'
    ensures '\0' !in line ==> CName(line) == line
  {
  }

  /** `CName` of every line, in order. */
  function CNames(lines: seq<string>): (names: seq<string>)
    ensures |names| == |lines|
    ensures forall i :: 0 <= i < |lines| ==> names[i] == CName(lines[i])
  {
    seq(|lines|, i requires 0 <= i < |lines| => CName(lines[i]))
  }

  /** The names before the first one the item constructor refuses. */
  function AcceptedPrefix(lines: seq<string>, itemOk: string -> bool): (made: seq<string>)
    ensures |made| <= |lines| && made == lines[..|made|]
    ensures forall i :: 0 <= i < |made| ==> itemOk(made[i])
    ensures |made| < |lines| ==> !itemOk(lines[|made|])
  {
    if lines == [] || !itemOk(lines[0]) then [] else [lines[0]] + AcceptedPrefix(lines[1..], itemOk)
  }

  /** Whether the item at `i` is made decides whether the accepted prefix passes `i`. */
  lemma AcceptedAt(names: seq<string>, itemOk: string -> bool, i: nat)
    requires i < |names| && i <= |AcceptedPrefix(names, itemOk)|
    ensures itemOk(names[i]) <==> i < |AcceptedPrefix(names, itemOk)|
  {
    var made := AcceptedPrefix(names, itemOk);
    if i < |made| {
      assert made[i] == names[i];
    }
  }

  /** The names of the marked items, in item order. */
  function Chosen(names: seq<string>, values: seq<bool>): (r: seq<string>)
    requires |values| == |names|
    ensures |r| <= |names|
    ensures forall x :: x in r ==> x in names
  {
    if names == [] then []
    else
      var n := |names| - 1;
      Chosen(names[..n], values[..n]) + (if values[n] then [names[n]] else [])
  }

  /** Every item marked: all names, in order. No item marked: none. */
  lemma {:induction false} ChosenExtremes(names: seq<string>, values: seq<bool>)
    requires |values| == |names|
    ensures (forall i :: 0 <= i < |values| ==> values[i]) ==> Chosen(names, values) == names
    ensures (forall i :: 0 <= i < |values| ==> !values[i]) ==> Chosen(names, values) == []
    decreases |names|
  {
    if names != [] {
      var n := |names| - 1;
      ChosenExtremes(names[..n], values[..n]);
      assert names[..n] + [names[n]] == names;
    }
  }

  /**
   * What toggle mode prints, read back word by word (as the installer's
   * `>>` loop reads it), gives exactly the marked names in order, provided
   * names are non-empty and free of whitespace.
   */
  lemma ChosenReadBack(names: seq<string>, values: seq<bool>)
    requires |values| == |names| && Tokens(names)
    ensures Words(SpaceTerminated(Chosen(names, values))) == Chosen(names, values)
  {
    var r := Chosen(names, values);
    forall i | 0 <= i < |r| ensures r[i] != [] && NoSpace(r[i]) {
      assert r[i] in names;
    }
    WordsOfSpaceTerminated(r);
  }

  /** `n` fresh items' values: none marked. */
  function Unmarked(n: nat): (r: seq<bool>)
    ensures |r| == n && forall i :: 0 <= i < n ==> !r[i]
  {
    if n == 0 then [] else Unmarked(n - 1) + [false]
  }

  /** Every value in the first `n` places reset, as setting O_ONEVALUE does to a menu's items. */
  function Cleared(values: seq<bool>, n: nat): (r: seq<bool>)
    requires n <= |values|
    ensures |r| == |values|
    ensures forall i :: 0 <= i < n ==> !r[i]
    ensures forall i :: n <= i < |values| ==> r[i] == values[i]
  {
    seq(|values|, i requires 0 <= i < |values| => if i < n then false else values[i])
  }

  lemma ClearedAll(values: seq<bool>)
    ensures Cleared(values, |values|) == Unmarked(|values|)
  {
    var a := Cleared(values, |values|);
    var b := Unmarked(|values|);
    assert forall i :: 0 <= i < |a| ==> a[i] == b[i];
  }

  /**
   * `Menu`. `names` and `values` are the items created so far (`new_item`)
   * and their marks; the posted menu, when there is one, was made from the
   * first `menuSize` of them.
   */
  class Menu {
    var names: seq<string>
    var values: seq<bool>
    var hasMenu: bool
    var menuSize: nat
    var current: nat
    var selected: bool
    var togglable: bool
    var mark: string
    const rows: nat

    ghost predicate Valid()
      reads this
    {
      && |values| == |names|
      && menuSize <= |names|
      && (!hasMenu ==> menuSize == 0)
      && (if menuSize == 0 then current == 0 else current < menuSize)
      && (hasMenu && !togglable ==> forall i :: 0 <= i < menuSize ==> !values[i])
    }

    /** A menu over a sub-window `rows` lines high: no items, no menu yet, single mode, mark " > ". */
    constructor (rows: nat)
      requires rows >= 1
      ensures this.rows == rows && Valid()
      ensures names == [] && values == [] && !hasMenu && menuSize == 0 && current == 0
      ensures !selected && !togglable && mark == " > "
    {
      this.rows := rows;
      names := [];
      values := [];
      hasMenu := false;
      menuSize := 0;
      current := 0;
      selected := false;
      togglable := false;
      mark := " > ";
    }

    /**
     * `Init`: one item per line of `text`, in order, empty lines included;
     * the first line `new_item` refuses ends the loop with `false`. If every
     * item is made and the menu can be allocated (`menuOk`), a new menu over
     * all items is posted with the first item current.
     */
    method Init(text: string, itemOk: string -> bool, menuOk: bool) returns (ok: bool)
      requires Valid()
      modifies this
      ensures Valid()
      ensures var made := AcceptedPrefix(CNames(Split(text, '\n')), itemOk);
        && names == old(names) + made
        && ok == (|made| == |Split(text, '\n')| && menuOk)
        && values == if ok && !togglable then Unmarked(|names|) else old(values) + Unmarked(|made|)
      ensures ok ==> hasMenu && menuSize == |names| && current == 0
      ensures !ok ==> hasMenu == old(hasMenu) && menuSize == old(menuSize) && current == old(current)
      ensures selected == old(selected) && togglable == old(togglable) && mark == old(mark)
    {
      var lines := Split(text, '\n');
      var cNames := CNames(lines);
      var allMade := MakeItems(cNames, itemOk);
      if !allMade || !menuOk {
        return false;
      }
      hasMenu := true;
      menuSize := |names|;
      current := 0;
      ghost var before := values;
      SetMenuOpts();
      ClearedAll(before);
      return true;
    }

    /**
     * The `getline` loop of `Init`, given each line's C string: one item per
     * name until `new_item` refuses one.
     */
    method MakeItems(cNames: seq<string>, itemOk: string -> bool) returns (allMade: bool)
      requires Valid()
      modifies this
      ensures Valid()
      ensures var made := AcceptedPrefix(cNames, itemOk);
        && names == old(names) + made
        && values == old(values) + Unmarked(|made|)
        && allMade == (|made| == |cNames|)
      ensures hasMenu == old(hasMenu) && menuSize == old(menuSize) && current == old(current)
      ensures selected == old(selected) && togglable == old(togglable) && mark == old(mark)
    {
      ghost var made := AcceptedPrefix(cNames, itemOk);
      var i := 0;
      while i < |cNames|
        invariant 0 <= i <= |cNames|
        invariant i <= |made|
        invariant names == old(names) + cNames[..i]
        invariant values == old(values) + Unmarked(i)
        invariant hasMenu == old(hasMenu) && menuSize == old(menuSize) && current == old(current)
        invariant selected == old(selected) && togglable == old(togglable) && mark == old(mark)
        invariant Valid()
      {
        AcceptedAt(cNames, itemOk, i);
        if !itemOk(cNames[i]) {
          return false;
        }
        names := names + [cNames[i]];
        values := values + [false];
        TakeOneMore(cNames, i);
        i := i + 1;
      }
      assert cNames[..i] == cNames;
      return true;
    }

    /** `_SetMenuOpts`: with a menu, single mode sets O_ONEVALUE, which resets every item's mark. */
    method SetMenuOpts()
      requires |values| == |names| && menuSize <= |names|
      modifies this
      ensures names == old(names) && hasMenu == old(hasMenu) && menuSize == old(menuSize) && current == old(current)
      ensures selected == old(selected) && togglable == old(togglable) && mark == old(mark)
      ensures values == if hasMenu && !togglable then Cleared(old(values), menuSize) else old(values)
    {
      if !hasMenu {
        return;
      }
      if !togglable {
        values := Cleared(values, menuSize);
      }
    }

    /** `IsSelected`: reports the latch and clears it. */
    method IsSelected() returns (r: bool)
      modifies this
      ensures r == old(selected) && !selected
      ensures names == old(names) && values == old(values) && hasMenu == old(hasMenu)
      ensures menuSize == old(menuSize) && current == old(current) && togglable == old(togglable) && mark == old(mark)
    {
      if selected {
        selected := false;
        return true;
      }
      return false;
    }

    /**
     * `OnEvent`: once confirmed, nothing changes until the latch is read;
     * otherwise the key's action moves the current item, toggles its mark,
     * or sets the latch. Without a menu only the latch can change.
     */
    method OnEvent(key: Key)
      requires Valid()
      modifies this
      ensures Valid()
      ensures names == old(names) && hasMenu == old(hasMenu) && menuSize == old(menuSize)
      ensures togglable == old(togglable) && mark == old(mark)
      ensures var a := Classify(key, old(togglable));
        && selected == (old(selected) || a == Confirm)
        && (old(selected) || !old(hasMenu) ==> current == old(current) && values == old(values))
        && (!old(selected) && old(hasMenu) ==>
              && current == Navigate(a, old(current), menuSize, rows)
              && values == if a == Toggle && menuSize > 0 then old(values)[old(current) := !old(values)[old(current)]] else old(values))
    {
      if selected {
        return;
      }
      var a := Classify(key, togglable);
      if a == Confirm {
        selected := true;
      } else if hasMenu {
        current := Navigate(a, current, menuSize, rows);
        if a == Toggle && menuSize > 0 {
          values := values[current := !values[current]];
        }
      }
    }

    /**
     * `GetSelected`: "" without a menu; in single mode the current item's
     * name; in togglable mode every marked name followed by one space.
     */
    method GetSelected() returns (s: string)
      requires Valid()
      requires hasMenu && !togglable ==> menuSize > 0
      ensures !hasMenu ==> s == ""
      ensures hasMenu && !togglable ==> s == names[current]
      ensures hasMenu && togglable ==> s == SpaceTerminated(Chosen(names[..menuSize], values[..menuSize]))
    {
      if !hasMenu {
        return "";
      }
      if !togglable {
        return names[current];
      }
      s := "";
      for i := 0 to menuSize
        invariant s == SpaceTerminated(Chosen(names[..i], values[..i]))
      {
        assert names[..i + 1][..i] == names[..i] && values[..i + 1][..i] == values[..i];
        assert names[..i + 1][i] == names[i] && values[..i + 1][i] == values[i];
        assert Chosen(names[..i + 1], values[..i + 1]) ==
          Chosen(names[..i], values[..i]) + (if values[i] then [names[i]] else []);
        if values[i] {
          SpaceTerminatedAppend(Chosen(names[..i], values[..i]), names[i]);
          s := s + names[i] + " ";
        } else {
          assert Chosen(names[..i], values[..i]) + [] == Chosen(names[..i], values[..i]);
        }
      }
    }

    /** `TogglableItems`: switches mode; leaving togglable mode with a menu resets every mark. */
    method TogglableItems(t: bool)
      requires Valid()
      modifies this
      ensures Valid() && togglable == t
      ensures names == old(names) && hasMenu == old(hasMenu) && menuSize == old(menuSize) && current == old(current)
      ensures selected == old(selected) && mark == old(mark)
      ensures values == if hasMenu && !t then Cleared(old(values), menuSize) else old(values)
    {
      togglable := t;
      SetMenuOpts();
    }

    /** `SetMenuMark`: stores the mark string; re-applying the options resets marks in single mode. */
    method SetMenuMark(m: string)
      requires Valid()
      modifies this
      ensures Valid() && mark == m
      ensures names == old(names) && hasMenu == old(hasMenu) && menuSize == old(menuSize) && current == old(current)
      ensures selected == old(selected) && togglable == old(togglable)
      ensures values == if hasMenu && !togglable then Cleared(old(values), menuSize) else old(values)
    {
      mark := m;
      SetMenuOpts();
    }
  }

  /** The latch is edge-triggered: two reads in a row never both report a confirmation. */
  method ReadTwice(m: Menu) returns (first: bool, second: bool)
    modifies m
    ensures !(first && second)
    ensures !m.selected
  {
    first := m.IsSelected();
    second := m.IsSelected();
  }

  /** Once confirmed, no key changes the current item or the marks until the latch is read. */
  method KeysAfterConfirm(m: Menu, keys: seq<Key>) returns (confirmed: bool)
    requires m.Valid() && m.selected
    modifies m
    ensures confirmed
    ensures m.Valid() && m.current == old(m.current) && m.values == old(m.values)
  {
    for i := 0 to |keys|
      invariant m.Valid() && m.selected
      invariant m.current == old(m.current) && m.values == old(m.values)
    {
      m.OnEvent(keys[i]);
    }
    confirmed := m.IsSelected();
  }
}
