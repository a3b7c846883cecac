/**
 * The layer table of the ncurses renderer (src/Renderer.h): a vector of
 * layer records, each with a paint rank and parent/child links, and the
 * paint-order vector of layer handles. Drawing is left to ncurses; a
 * `WINDOW*` is an opaque token here, and whether `newwin`/`derwin` succeed
 * is an input of the operation that calls them.
 */
module Compositor {
  import opened Wrappers
  import opened Text

  /** A layer handle: an index into the layer vector, -1 for "none". */
  type WinHandle = int

  const NoLayer: WinHandle := -1

  /** An ncurses `WINDOW*`, seen only as a token the library hands out. */
  datatype Window = Window(id: nat)

  /** `LayerProp`: one layer's window, paint rank, geometry and links. */
  datatype LayerProp = LayerProp(
    layer: Window,
    order: int,
    height: int,
    width: int,
    starty: int,
    startx: int,
    parent: WinHandle,
    child: WinHandle)

  /** `std::bad_alloc`, thrown when ncurses cannot make a window. */
  datatype AllocError = BadAlloc

  /** The renderer's two vectors as one value. */
  datatype LayerTable = LayerTable(layers: seq<LayerProp>, orderVector: seq<WinHandle>)

  predicate HandlesInRange(ov: seq<WinHandle>, n: nat) {
    forall i :: 0 <= i < |ov| ==> 0 <= ov[i] < n
  }

  predicate Distinct(ov: seq<WinHandle>) {
    forall i, j :: 0 <= i < j < |ov| ==> ov[i] != ov[j]
  }

  /**
   * Parent and child links agree, and a layer with a parent has no child:
   * sub-layers are leaves, so nesting is at most one level deep.
   */
  predicate LinksConsistent(ls: seq<LayerProp>) {
    forall k :: 0 <= k < |ls| ==> LinkOk(ls, k)
  }

  /** The links of layer `k` point at layers that point back. */
  predicate LinkOk(ls: seq<LayerProp>, k: nat)
    requires k < |ls|
  {
    && (ls[k].parent == NoLayer ||
        (0 <= ls[k].parent < |ls| && ls[k].child == NoLayer && ls[ls[k].parent].child == k))
    && (ls[k].child == NoLayer ||
        (0 <= ls[k].child < |ls| && ls[k].parent == NoLayer && ls[ls[k].child].parent == k))
  }

  /** The paint order lists every live layer exactly once, and the links agree. */
  predicate WellFormed(t: LayerTable) {
    && |t.orderVector| == |t.layers|
    && HandlesInRange(t.orderVector, |t.layers|)
    && Distinct(t.orderVector)
    && (forall h :: 0 <= h < |t.layers| ==> h in t.orderVector)
    && LinksConsistent(t.layers)
  }

  /** Every listed layer's stored rank is its 1-based position in the paint order. */
  predicate Ranked(t: LayerTable) {
    && HandlesInRange(t.orderVector, |t.layers|)
    && forall i :: 0 <= i < |t.orderVector| ==> t.layers[t.orderVector[i]].order == i + 1
  }

  /** The state that creation alone produces: paint order [0 .. n-1], layer i has rank i+1. */
  predicate InCreationOrder(t: LayerTable) {
    && |t.orderVector| == |t.layers|
    && forall i :: 0 <= i < |t.orderVector| ==> t.orderVector[i] == i && t.layers[i].order == i + 1
  }

  lemma CreationOrderIsRanked(t: LayerTable)
    requires InCreationOrder(t)
    ensures Ranked(t) && Distinct(t.orderVector)
    ensures forall h :: 0 <= h < |t.layers| ==> h in t.orderVector
  {
    forall h | 0 <= h < |t.layers| ensures h in t.orderVector {
      assert t.orderVector[h] == h;
    }
  }

  /** In a well-formed, ranked table a layer's rank says where it is painted. */
  lemma RankIsPlace(t: LayerTable, h: WinHandle)
    requires 0 <= h < |t.layers|
    ensures WellFormed(t) && Ranked(t) ==>
      1 <= t.layers[h].order <= |t.orderVector| && t.orderVector[t.layers[h].order - 1] == h
  {
    if WellFormed(t) && Ranked(t) {
      var i := IndexOf(t.orderVector, h);
      assert t.layers[t.orderVector[i]].order == i + 1;
    }
  }

  /** Whether `CreateSubLayer` refuses the parent handle and returns -1. */
  predicate SubLayerRefused(ls: seq<LayerProp>, parent: WinHandle) {
    parent < 0 || parent >= |ls| || ls[parent].child != NoLayer || ls[parent].parent != NoLayer
  }

  /**
   * The clamping of a requested rank: `min(newOrder, size)`, then 0 becomes 1.
   * For a non-empty order vector it is the in-range rank nearest the request.
   */
  function Clamp(newOrder: nat, size: nat): (k: nat)
    ensures 1 <= k && (size > 0 ==> k <= size)
    ensures 1 <= newOrder <= size ==> k == newOrder
    ensures size > 0 ==> forall v :: 1 <= v <= size ==> Dist(k, newOrder) <= Dist(v, newOrder)
  {
    var m := if newOrder < size then newOrder else size;
    if m == 0 then 1 else m
  }

  function Dist(a: int, b: int): nat {
    if a <= b then b - a else a - b
  }

  /** `vector.erase(begin() + i)`. */
  function RemoveAt<T>(s: seq<T>, i: nat): (r: seq<T>)
    requires i < |s|
    ensures |r| == |s| - 1
    ensures forall j :: 0 <= j < i ==> r[j] == s[j]
    ensures forall j :: i <= j < |r| ==> r[j] == s[j + 1]
  {
    s[..i] + s[i + 1..]
  }

  /** `vector.insert(begin() + i, x)`. */
  function InsertAt<T>(s: seq<T>, i: nat, x: T): (r: seq<T>)
    requires i <= |s|
    ensures |r| == |s| + 1
  {
    s[..i] + [x] + s[i..]
  }

  /** `vector.erase(std::find(..., x))` when `x` is present; the vector itself when not. */
  function RemoveFirst(s: seq<WinHandle>, x: WinHandle): (r: seq<WinHandle>)
    ensures x in s ==> |r| == |s| - 1 && multiset(r) == multiset(s) - multiset{x}
    ensures x !in s ==> r == s
    ensures Distinct(s) ==> Distinct(r) && x !in r
  {
    var i := IndexOf(s, x);
    if i == |s| then s
    else
      RemoveAtFacts(s, i);
      RemoveAt(s, i)
  }

  lemma RemoveAtFacts(s: seq<WinHandle>, i: nat)
    requires i < |s|
    ensures multiset(RemoveAt(s, i)) == multiset(s) - multiset{s[i]}
    ensures Distinct(s) ==> Distinct(RemoveAt(s, i)) && s[i] !in RemoveAt(s, i)
  {
    assert s == s[..i] + [s[i]] + s[i + 1..];
    if Distinct(s) {
      RemoveAtDistinct(s, i);
    }
  }

  lemma RemoveAtDistinct(s: seq<WinHandle>, i: nat)
    requires i < |s| && Distinct(s)
    ensures Distinct(RemoveAt(s, i)) && s[i] !in RemoveAt(s, i)
  {
    var r := RemoveAt(s, i);
    forall a, b | 0 <= a < b < |r| ensures r[a] != r[b] {
      assert r[a] == s[if a < i then a else a + 1];
      assert r[b] == s[if b < i then b else b + 1];
    }
    forall a | 0 <= a < |r| ensures r[a] != s[i] {
      assert r[a] == s[if a < i then a else a + 1];
    }
  }

  /**
   * The paint order after moving `h` to rank `k`: erase it, then insert it
   * at position k-1. A permutation that puts `h` at k-1 and keeps the
   * relative order of every other handle.
   */
  function Reordered(ov: seq<WinHandle>, h: WinHandle, k: nat): (r: seq<WinHandle>)
    requires h in ov && 1 <= k <= |ov|
    ensures |r| == |ov| && multiset(r) == multiset(ov)
    ensures r[k - 1] == h
    ensures RemoveAt(r, k - 1) == RemoveFirst(ov, h)
    ensures Distinct(ov) ==> Distinct(r)
  {
    var s := RemoveFirst(ov, h);
    InsertAtFacts(s, h, k - 1);
    assert h in multiset(ov);
    assert multiset(s) + multiset{h} == multiset(ov);
    InsertAt(s, k - 1, h)
  }

  lemma InsertAtFacts(s: seq<WinHandle>, h: WinHandle, j: nat)
    requires j <= |s|
    ensures var r := InsertAt(s, j, h);
      && r[j] == h
      && multiset(r) == multiset(s) + multiset{h}
      && RemoveAt(r, j) == s
      && (Distinct(s) && h !in s ==> Distinct(r))
  {
    var r := InsertAt(s, j, h);
    assert s == s[..j] + s[j..];
    assert r[..j] == s[..j] && r[j + 1..] == s[j..];
    if Distinct(s) && h !in s {
      InsertAtDistinct(s, h, j);
    }
  }

  lemma InsertAtDistinct(s: seq<WinHandle>, h: WinHandle, j: nat)
    requires j <= |s| && Distinct(s) && h !in s
    ensures Distinct(InsertAt(s, j, h))
  {
    var r := InsertAt(s, j, h);
    forall a, b | 0 <= a < b < |r| ensures r[a] != r[b] {
      if b < j {
        assert r[a] == s[a] && r[b] == s[b];
      } else if b == j {
        assert r[a] == s[a];
      } else if a < j {
        assert r[a] == s[a] && r[b] == s[b - 1];
      } else if a == j {
        assert r[b] == s[b - 1];
      } else {
        assert r[a] == s[a - 1] && r[b] == s[b - 1];
      }
    }
  }

  /**
   * The layer vector after the first `j` steps of the renumbering loop of
   * `ChangeLayerOrder`: step q stores rank q+1 in the layer at `ov[q]`.
   * Only rank fields change.
   */
  function Reranked(ls: seq<LayerProp>, ov: seq<WinHandle>, j: nat): (r: seq<LayerProp>)
    requires j <= |ov| && HandlesInRange(ov, |ls|)
    ensures |r| == |ls|
    ensures forall m :: 0 <= m < |ls| ==> r[m] == ls[m].(order := r[m].order)
  {
    if j == 0 then ls
    else
      var prev := Reranked(ls, ov, j - 1);
      prev[ov[j - 1] := prev[ov[j - 1]].(order := j)]
  }

  /** A layer the loop never visits keeps its rank. */
  lemma {:induction false} RerankedUntouched(ls: seq<LayerProp>, ov: seq<WinHandle>, j: nat, m: nat)
    requires j <= |ov| && HandlesInRange(ov, |ls|) && m < |ls| && m !in ov[..j]
    ensures Reranked(ls, ov, j)[m] == ls[m]
  {
    if j > 0 {
      assert ov[..j - 1] + [ov[j - 1]] == ov[..j];
      RerankedUntouched(ls, ov, j - 1, m);
    }
  }

  /** With no handle listed twice, every visited layer's rank is its 1-based position. */
  lemma {:induction false} RerankedRanks(ls: seq<LayerProp>, ov: seq<WinHandle>, j: nat)
    requires j <= |ov| && HandlesInRange(ov, |ls|) && Distinct(ov)
    ensures forall q :: 0 <= q < j ==> Reranked(ls, ov, j)[ov[q]].order == q + 1
  {
    if j > 0 {
      RerankedRanks(ls, ov, j - 1);
      var prev := Reranked(ls, ov, j - 1);
      assert forall q :: 0 <= q < j - 1 ==> ov[q] != ov[j - 1];
    }
  }

  lemma ReorderedInRange(ov: seq<WinHandle>, h: WinHandle, k: nat, n: nat)
    requires h in ov && 1 <= k <= |ov|
    ensures HandlesInRange(ov, n) ==> HandlesInRange(Reordered(ov, h, k), n)
  {
    var r := Reordered(ov, h, k);
    forall i | 0 <= i < |r| ensures r[i] in ov {
      assert r[i] in multiset(r);
    }
  }

  /** Changing rank fields alone keeps the links consistent. */
  lemma RanksOnlyKeepLinks(ls: seq<LayerProp>, ls': seq<LayerProp>)
    requires |ls'| == |ls|
    requires forall m :: 0 <= m < |ls| ==> ls'[m] == ls[m].(order := ls'[m].order)
    ensures LinksConsistent(ls) ==> LinksConsistent(ls')
  {
    if LinksConsistent(ls) {
      forall k | 0 <= k < |ls'| ensures LinkOk(ls', k) {
        assert LinkOk(ls, k);
      }
    }
  }

  /** Moving a handle keeps the set of listed handles, so a well-formed table stays well formed. */
  lemma ReorderedKeepsWellFormed(t: LayerTable, h: WinHandle, k: nat, ls': seq<LayerProp>)
    requires h in t.orderVector && 1 <= k <= |t.orderVector|
    requires |ls'| == |t.layers|
    requires forall m :: 0 <= m < |t.layers| ==> ls'[m] == t.layers[m].(order := ls'[m].order)
    ensures forall m :: m in Reordered(t.orderVector, h, k) <==> m in t.orderVector
    ensures HandlesInRange(t.orderVector, |t.layers|) ==> HandlesInRange(Reordered(t.orderVector, h, k), |t.layers|)
    ensures WellFormed(t) ==> WellFormed(LayerTable(ls', Reordered(t.orderVector, h, k)))
  {
    var r := Reordered(t.orderVector, h, k);
    ReorderedSameHandles(t.orderVector, h, k);
    ReorderedInRange(t.orderVector, h, k, |t.layers|);
    if WellFormed(t) {
      RanksOnlyKeepLinks(t.layers, ls');
      forall m | 0 <= m < |ls'| ensures m in r {
        assert m in t.orderVector;
      }
      assert HandlesInRange(r, |ls'|) && Distinct(r) && LinksConsistent(ls');
    }
  }

  lemma ReorderedSameHandles(ov: seq<WinHandle>, h: WinHandle, k: nat)
    requires h in ov && 1 <= k <= |ov|
    ensures forall m :: m in Reordered(ov, h, k) <==> m in ov
  {
    var r := Reordered(ov, h, k);
    forall m ensures m in r <==> m in ov {
      assert m in r <==> m in multiset(r);
      assert m in ov <==> m in multiset(ov);
    }
  }

  /** `ChangeLayerOrder` returns before touching anything: one layer, the same rank, or an unlisted handle. */
  predicate OrderKept(t: LayerTable, h: WinHandle, newOrder: nat)
    requires |t.layers| == 1 || 0 <= h < |t.layers|
  {
    || |t.layers| == 1
    || Clamp(newOrder, |t.orderVector|) == t.layers[h].order
    || h !in t.orderVector
  }

  /**
   * `ChangeLayerOrder(h, newOrder)` indexes nothing out of range on `t`: the
   * layer's rank is read only when more than one layer exists, and the
   * handles of the paint order are used as indices only by the renumbering
   * after a move.
   */
  predicate ChangeOrderDefined(t: LayerTable, h: WinHandle, newOrder: nat) {
    && (|t.layers| == 1 || 0 <= h < |t.layers|)
    && (!OrderKept(t, h, newOrder) ==> HandlesInRange(t.orderVector, |t.layers|))
  }

  /** The table after `ChangeLayerOrder(h, newOrder)`. */
  function OrderChanged(t: LayerTable, h: WinHandle, newOrder: nat): (r: LayerTable)
    requires ChangeOrderDefined(t, h, newOrder)
  {
    if OrderKept(t, h, newOrder) then t
    else
      var k := Clamp(newOrder, |t.orderVector|);
      ReorderedInRange(t.orderVector, h, k, |t.layers|);
      var ov := Reordered(t.orderVector, h, k);
      LayerTable(Reranked(t.layers, ov, |ov|), ov)
  }

  /**
   * What `ChangeLayerOrder` promises: the paint order stays a permutation
   * with `h` at the clamped rank and the others in their old relative order;
   * a well-formed table stays well formed and every listed layer's rank
   * becomes its 1-based position.
   */
  lemma OrderChangedKeepsInvariants(t: LayerTable, h: WinHandle, newOrder: nat)
    requires ChangeOrderDefined(t, h, newOrder)
    ensures OrderKept(t, h, newOrder) ==> OrderChanged(t, h, newOrder) == t
    ensures var r := OrderChanged(t, h, newOrder);
      && |r.layers| == |t.layers|
      && (HandlesInRange(t.orderVector, |t.layers|) ==> HandlesInRange(r.orderVector, |r.layers|))
      && multiset(r.orderVector) == multiset(t.orderVector)
      && (WellFormed(t) ==> WellFormed(r))
      && (WellFormed(t) && Ranked(t) ==> Ranked(r))
    ensures !OrderKept(t, h, newOrder) ==>
      var k := Clamp(newOrder, |t.orderVector|);
      var r := OrderChanged(t, h, newOrder);
      && 1 <= k <= |r.orderVector| && r.orderVector[k - 1] == h
      && RemoveAt(r.orderVector, k - 1) == RemoveFirst(t.orderVector, h)
      && (WellFormed(t) ==> Ranked(r))
  {
    if !OrderKept(t, h, newOrder) {
      var k := Clamp(newOrder, |t.orderVector|);
      var ov := Reordered(t.orderVector, h, k);
      ReorderedKeepsWellFormed(t, h, k, t.layers);
      var ls := Reranked(t.layers, ov, |ov|);
      assert OrderChanged(t, h, newOrder) == LayerTable(ls, ov);
      MovedTableWellFormed(t, h, k, ls);
      if WellFormed(t) {
        MovedTableRanked(t.layers, ov);
      }
    }
  }

  lemma MovedTableWellFormed(t: LayerTable, h: WinHandle, k: nat, ls: seq<LayerProp>)
    requires h in t.orderVector && 1 <= k <= |t.orderVector|
    requires |ls| == |t.layers|
    requires forall m :: 0 <= m < |t.layers| ==> ls[m] == t.layers[m].(order := ls[m].order)
    ensures HandlesInRange(t.orderVector, |t.layers|) ==> HandlesInRange(Reordered(t.orderVector, h, k), |ls|)
    ensures WellFormed(t) ==> WellFormed(LayerTable(ls, Reordered(t.orderVector, h, k)))
  {
    ReorderedKeepsWellFormed(t, h, k, ls);
  }

  lemma MovedTableRanked(ls: seq<LayerProp>, ov: seq<WinHandle>)
    requires HandlesInRange(ov, |ls|) && Distinct(ov)
    ensures Ranked(LayerTable(Reranked(ls, ov, |ov|), ov))
  {
    RerankedRanks(ls, ov, |ov|);
  }

  /** The table after a successful `CreateLayer`: the record appended, its handle appended to the paint order. */
  function WithLayer(t: LayerTable, prop: LayerProp): LayerTable {
    LayerTable(t.layers + [prop], t.orderVector + [|t.layers|])
  }

  /** The table after a successful `CreateSubLayer`: as `WithLayer`, and the parent's child link set to the new handle. */
  function WithSubLayer(t: LayerTable, parent: WinHandle, prop: LayerProp): LayerTable
    requires 0 <= parent < |t.layers|
  {
    var n := |t.layers|;
    LayerTable(t.layers[parent := t.layers[parent].(child := n)] + [prop], t.orderVector + [n])
  }

  /**
   * A new top-level layer whose rank is the new layer count keeps the table
   * well formed, ranked, and in creation order.
   */
  lemma WithLayerKeepsInvariants(t: LayerTable, prop: LayerProp)
    requires prop.order == |t.layers| + 1 && prop.parent == NoLayer && prop.child == NoLayer
    ensures WellFormed(t) ==> WellFormed(WithLayer(t, prop))
    ensures WellFormed(t) && Ranked(t) ==> Ranked(WithLayer(t, prop))
    ensures InCreationOrder(t) ==> InCreationOrder(WithLayer(t, prop))
  {
    var r := WithLayer(t, prop);
    var n := |t.layers|;
    assert forall k :: 0 <= k < n ==> r.layers[k] == t.layers[k];
    assert forall i :: 0 <= i < |t.orderVector| ==> r.orderVector[i] == t.orderVector[i];
    assert r.orderVector[|t.orderVector|] == n && r.layers[n] == prop;
    if WellFormed(t) {
      forall h | 0 <= h < n + 1 ensures h in r.orderVector {
        if h < n {
          assert h in t.orderVector;
        }
      }
      forall k | 0 <= k < n + 1 ensures LinkOk(r.layers, k) {
        if k < n {
          assert LinkOk(t.layers, k);
        }
      }
    }
  }

  /**
   * A sub-layer under an accepted parent keeps the table well formed, ranked
   * and in creation order, and links the two both ways: the parent is
   * top-level and the new layer has no child, so nesting stays one level deep.
   */
  lemma WithSubLayerKeepsInvariants(t: LayerTable, parent: WinHandle, prop: LayerProp)
    requires !SubLayerRefused(t.layers, parent)
    requires prop.order == |t.layers| + 1 && prop.parent == parent && prop.child == NoLayer
    ensures var r := WithSubLayer(t, parent, prop);
      && r.layers[parent].child == |t.layers| && r.layers[parent].parent == NoLayer
      && r.layers[|t.layers|].parent == parent && r.layers[|t.layers|].child == NoLayer
    ensures WellFormed(t) ==> WellFormed(WithSubLayer(t, parent, prop))
    ensures WellFormed(t) && Ranked(t) ==> Ranked(WithSubLayer(t, parent, prop))
    ensures InCreationOrder(t) ==> InCreationOrder(WithSubLayer(t, parent, prop))
  {
    var r := WithSubLayer(t, parent, prop);
    var n := |t.layers|;
    var ls := t.layers;
    assert forall k :: 0 <= k < n && k != parent ==> r.layers[k] == ls[k];
    assert r.layers[parent] == ls[parent].(child := n);
    assert forall i :: 0 <= i < |t.orderVector| ==> r.orderVector[i] == t.orderVector[i];
    assert r.orderVector[|t.orderVector|] == n && r.layers[n] == prop;
    if WellFormed(t) {
      forall h | 0 <= h < n + 1 ensures h in r.orderVector {
        if h < n {
          assert h in t.orderVector;
        }
      }
      assert LinkOk(ls, parent);
      forall k | 0 <= k < n + 1 ensures LinkOk(r.layers, k) {
        if k < n && k != parent {
          assert LinkOk(ls, k);
          var p := ls[k].parent;
          var c := ls[k].child;
          if p != NoLayer {
            assert ls[p].child == k;
          }
          if c != NoLayer {
            assert ls[c].parent == k;
          }
        }
      }
    }
  }

  // ---------------------------------------------------------------------
  // DestroyLayer, as written: the erase shifts every later layer down one
  // index, but the paint order and the links keep the old indices.

  /** What one `DestroyLayer` frame needs so that it indexes nothing out of range. */
  predicate EraseDefined(t: LayerTable, h: WinHandle) {
    && 0 <= h < |t.layers|
    && (t.layers[h].parent != NoLayer ==> 0 <= t.layers[h].parent < |t.layers|)
    && h in t.orderVector
  }

  /** Record `j` once the parent `p` of the erased layer has had its child link cleared. */
  function Unlinked(ls: seq<LayerProp>, p: WinHandle, j: nat): LayerProp
    requires j < |ls|
  {
    if j == p then ls[j].(child := NoLayer) else ls[j]
  }

  /**
   * One frame of `DestroyLayer` after its child is gone: the parent's child
   * link is cleared, the record is erased so that every later record moves
   * down one index, and the first occurrence of the handle leaves the paint
   * order.
   */
  function Erase(t: LayerTable, h: WinHandle): (r: LayerTable)
    requires EraseDefined(t, h)
    ensures |r.layers| == |t.layers| - 1
    ensures |r.orderVector| == |t.orderVector| - 1
    ensures multiset(r.orderVector) == multiset(t.orderVector) - multiset{h}
    ensures Distinct(t.orderVector) ==> Distinct(r.orderVector) && h !in r.orderVector
  {
    var ls := t.layers;
    var p := ls[h].parent;
    var unlinked := if p != NoLayer then ls[p := ls[p].(child := NoLayer)] else ls;
    LayerTable(RemoveAt(unlinked, h), RemoveFirst(t.orderVector, h))
  }

  /**
   * What `Erase` leaves of the records: every record below `h` keeps its
   * index, every record above moves down one, and the only record that
   * changes is the old parent's, whose child link is cleared.
   */
  lemma EraseRecords(t: LayerTable, h: WinHandle)
    requires EraseDefined(t, h)
    ensures forall i :: 0 <= i < h ==> Erase(t, h).layers[i] == Unlinked(t.layers, t.layers[h].parent, i)
    ensures forall i :: h <= i < |t.layers| - 1 ==> Erase(t, h).layers[i] == Unlinked(t.layers, t.layers[h].parent, i + 1)
  {
    var ls := t.layers;
    var p := ls[h].parent;
    var unlinked := if p != NoLayer then ls[p := ls[p].(child := NoLayer)] else ls;
    assert forall j :: 0 <= j < |ls| ==> unlinked[j] == Unlinked(ls, p, j);
    assert Erase(t, h).layers == RemoveAt(unlinked, h);
  }

  /**
   * The layers `DestroyLayer(h)` visits on its way down: `h`, its child,
   * that layer's child, and so on to a layer without a child. `None` when a
   * link leaves the vector or the chain does not end within `fuel` links.
   */
  function ChildChain(ls: seq<LayerProp>, h: WinHandle, fuel: nat): (r: Option<seq<WinHandle>>)
    ensures r.Some? ==>
      && |r.value| >= 1 && r.value[0] == h
      && (forall i :: 0 <= i < |r.value| ==> 0 <= r.value[i] < |ls|)
      && (forall i {:trigger ls[r.value[i]]} :: 0 <= i < |r.value| - 1 ==> ls[r.value[i]].child == r.value[i + 1])
      && ls[r.value[|r.value| - 1]].child == NoLayer
    decreases fuel
  {
    if !(0 <= h < |ls|) then None
    else if ls[h].child == NoLayer then Some([h])
    else if fuel == 0 then None
    else
      match ChildChain(ls, ls[h].child, fuel - 1)
      case None => None
      case Some(rest) => Some([h] + rest)
  }

  /** More fuel does not change a chain that already ended. */
  lemma {:induction false} ChildChainFuel(ls: seq<LayerProp>, h: WinHandle, f: nat, g: nat)
    requires f <= g && ChildChain(ls, h, f).Some?
    ensures ChildChain(ls, h, g) == ChildChain(ls, h, f)
    decreases f
  {
    if ls[h].child != NoLayer {
      ChildChainFuel(ls, ls[h].child, f - 1, g - 1);
    }
  }

  /**
   * The chain below `h` in `t`. An acyclic chain has at most `|t.layers|`
   * layers, so a chain that does not end within that many links is a cycle,
   * on which the recursion of `DestroyLayer` never returns.
   */
  function ChainOf(t: LayerTable, h: WinHandle): Option<seq<WinHandle>> {
    ChildChain(t.layers, h, |t.layers|)
  }

  function ChainLength(t: LayerTable, h: WinHandle): nat {
    if ChainOf(t, h).Some? then |ChainOf(t, h).value| else 0
  }

  /** Whether erasing the layers of `chain` from its last back to its first indexes nothing out of range. */
  predicate EraseChainDefined(t: LayerTable, chain: seq<WinHandle>)
    decreases |chain|, 0
  {
    chain == [] || (EraseChainDefined(t, chain[1..]) && EraseDefined(EraseChain(t, chain[1..]), chain[0]))
  }

  /**
   * The returning half of the recursion: the deepest layer of the chain is
   * erased first, each with its old handle on the table the later erases left.
   */
  function EraseChain(t: LayerTable, chain: seq<WinHandle>): (r: LayerTable)
    requires EraseChainDefined(t, chain)
    ensures |r.layers| == |t.layers| - |chain|
    ensures |r.orderVector| == |t.orderVector| - |chain|
    ensures multiset(r.orderVector) == multiset(t.orderVector) - multiset(chain)
    decreases |chain|, 1
  {
    if chain == [] then t
    else
      var s := EraseChain(t, chain[1..]);
      var r := Erase(s, chain[0]);
      MultisetHeadTail(chain);
      MultisetMinusTwice(multiset(t.orderVector), multiset(chain[1..]), multiset{chain[0]});
      r
  }

  lemma MultisetHeadTail<T>(s: seq<T>)
    requires |s| > 0
    ensures multiset(s) == multiset(s[1..]) + multiset{s[0]}
  {
    assert s == [s[0]] + s[1..];
  }

  lemma MultisetMinusTwice<T>(a: multiset<T>, b: multiset<T>, c: multiset<T>)
    ensures a - b - c == a - (b + c)
  {
    forall x ensures (a - b - c)[x] == (a - (b + c))[x] {
    }
  }

  /**
   * `DestroyLayer(h)` is free of undefined behaviour on `t` and returns:
   * either exactly one layer exists, or the child chain below `h` stays in
   * the vector and ends, and every erase on the way back finds its records.
   */
  predicate DestroyDefined(t: LayerTable, h: WinHandle) {
    || |t.layers| == 1
    || (ChainOf(t, h).Some? && EraseChainDefined(t, ChainOf(t, h).value))
  }

  /**
   * The table after `DestroyLayer(h)`: nothing happens while exactly one
   * layer exists; otherwise every layer of the child chain below `h` goes,
   * the deepest first, and exactly their handles leave the paint order.
   */
  function Destroyed(t: LayerTable, h: WinHandle): (r: LayerTable)
    requires DestroyDefined(t, h)
    ensures |t.layers| == 1 ==> r == t
    ensures |t.layers| != 1 ==>
      && |r.layers| == |t.layers| - |ChainOf(t, h).value|
      && |r.orderVector| == |t.orderVector| - |ChainOf(t, h).value|
      && multiset(r.orderVector) == multiset(t.orderVector) - multiset(ChainOf(t, h).value)
  {
    if |t.layers| == 1 then t else EraseChain(t, ChainOf(t, h).value)
  }

  /** A layer without a child is destroyed by one erase frame, and exactly when that frame is defined. */
  lemma DestroyedLeaf(t: LayerTable, h: WinHandle)
    requires 0 <= h < |t.layers| != 1 && t.layers[h].child == NoLayer
    ensures DestroyDefined(t, h) <==> EraseDefined(t, h)
    ensures EraseDefined(t, h) ==> Destroyed(t, h) == Erase(t, h)
  {
    assert ChainOf(t, h) == Some([h]);
    assert [h][1..] == [];
    assert EraseChainDefined(t, [h]) <==> EraseDefined(EraseChain(t, []), h);
    if EraseDefined(t, h) {
      assert EraseChain(t, [h]) == Erase(EraseChain(t, []), h);
    }
  }

  /**
   * The recursion of `DestroyLayer`: a layer with a child is destroyed by
   * destroying the child first, then erasing the layer by its old handle.
   */
  lemma DestroyedRecurses(t: LayerTable, h: WinHandle)
    requires DestroyDefined(t, h) && |t.layers| != 1 && t.layers[h].child != NoLayer
    ensures DestroyDefined(t, t.layers[h].child)
    ensures ChainLength(t, t.layers[h].child) < ChainLength(t, h)
    ensures EraseDefined(Destroyed(t, t.layers[h].child), h)
    ensures Destroyed(t, h) == Erase(Destroyed(t, t.layers[h].child), h)
  {
    var n := |t.layers|;
    var c := t.layers[h].child;
    var rest := ChildChain(t.layers, c, n - 1).value;
    assert ChainOf(t, h) == Some([h] + rest);
    ChildChainFuel(t.layers, c, n - 1, n);
    assert ([h] + rest)[1..] == rest;
  }

  /**
   * A layer whose child has no child of its own is destroyed by erasing the
   * child and then the layer, by their old handles.
   */
  lemma DestroyTwoDeep(t: LayerTable, h: WinHandle)
    requires |t.layers| != 1 && 0 <= h < |t.layers|
    requires 0 <= t.layers[h].child < |t.layers| && t.layers[t.layers[h].child].child == NoLayer
    requires EraseDefined(t, t.layers[h].child) && EraseDefined(Erase(t, t.layers[h].child), h)
    ensures DestroyDefined(t, h)
    ensures Destroyed(t, h) == Erase(Erase(t, t.layers[h].child), h)
  {
    var c := t.layers[h].child;
    assert ChildChain(t.layers, c, |t.layers| - 1) == Some([c]);
    assert ChainOf(t, h) == Some([h, c]) by {
      assert [h] + [c] == [h, c];
    }
    assert [h, c][1..] == [c] && [c][1..] == [];
    assert EraseChainDefined(t, [c]) && EraseChain(t, [c]) == Erase(t, c);
    assert EraseChainDefined(t, [h, c]);
    assert EraseChain(t, [h, c]) == Erase(EraseChain(t, [c]), h);
  }

  /**
   * Destroying the layer created last, when it has no sub-layer, shifts no
   * other record: a well-formed table stays well formed, and the parent's
   * link to it is gone.
   */
  lemma DestroyLastKeepsWellFormed(t: LayerTable)
    requires WellFormed(t) && |t.layers| >= 2
    requires t.layers[|t.layers| - 1].child == NoLayer
    ensures DestroyDefined(t, |t.layers| - 1)
    ensures WellFormed(Destroyed(t, |t.layers| - 1))
  {
    var h := |t.layers| - 1;
    assert LinkOk(t.layers, h);
    assert EraseDefined(t, h);
    DestroyedLeaf(t, h);
    EraseLastKeepsOrder(t);
    EraseLastKeepsLinks(t);
  }

  /** Erasing the last handle from a well-formed paint order leaves exactly the handles of the remaining layers. */
  lemma EraseLastKeepsOrder(t: LayerTable)
    requires WellFormed(t) && |t.layers| >= 2
    requires EraseDefined(t, |t.layers| - 1)
    ensures var r := Erase(t, |t.layers| - 1);
      && |r.orderVector| == |r.layers|
      && HandlesInRange(r.orderVector, |r.layers|)
      && Distinct(r.orderVector)
      && (forall k :: 0 <= k < |r.layers| ==> k in r.orderVector)
  {
    var h := |t.layers| - 1;
    var r := Erase(t, h);
    forall i | 0 <= i < |r.orderVector| ensures 0 <= r.orderVector[i] < |r.layers| {
      assert r.orderVector[i] in multiset(t.orderVector);
      assert r.orderVector[i] in t.orderVector;
    }
    forall k | 0 <= k < |r.layers| ensures k in r.orderVector {
      assert k in t.orderVector;
      assert k in multiset(r.orderVector);
    }
  }

  /** Erasing the last record, which has no child, keeps the links of the others consistent. */
  lemma EraseLastKeepsLinks(t: LayerTable)
    requires |t.layers| >= 2 && LinksConsistent(t.layers)
    requires t.layers[|t.layers| - 1].child == NoLayer
    requires EraseDefined(t, |t.layers| - 1)
    ensures LinksConsistent(Erase(t, |t.layers| - 1).layers)
  {
    var ls := t.layers;
    var h := |ls| - 1;
    var p := ls[h].parent;
    var r := Erase(t, h);
    EraseRecords(t, h);
    assert LinkOk(ls, h);
    forall k | 0 <= k < |r.layers| ensures LinkOk(r.layers, k) {
      assert LinkOk(ls, k);
      assert r.layers[k] == Unlinked(ls, p, k);
      var q := ls[k].parent;
      if q != NoLayer {
        assert q != h;
        assert LinkOk(ls, q);
        assert r.layers[q] == Unlinked(ls, p, q);
      }
      var c := ls[k].child;
      if c != NoLayer && k != p {
        assert c != h;
        assert r.layers[c] == Unlinked(ls, p, c);
      }
    }
  }

  function Top(w: nat, order: int): LayerProp {
    LayerProp(Window(w), order, 10, 10, 0, 0, NoLayer, NoLayer)
  }

  /** Three top-level layers, as three calls of `CreateLayer` leave them. */
  function ThreeTops(): LayerTable {
    LayerTable([Top(0, 1), Top(1, 2), Top(2, 3)], [0, 1, 2])
  }

  /** A layer and its sub-layer, as `CreateLayer` then `CreateSubLayer(0, ...)` leave them. */
  function ParentAndChild(): LayerTable {
    LayerTable([LayerProp(Window(0), 1, 10, 10, 0, 0, NoLayer, 1), LayerProp(Window(1), 2, 8, 8, 1, 1, 0, NoLayer)], [0, 1])
  }

  lemma ThreeTopsWellFormed()
    ensures WellFormed(ThreeTops()) && InCreationOrder(ThreeTops()) && Ranked(ThreeTops())
  {
    var t := ThreeTops();
    assert InCreationOrder(t);
    CreationOrderIsRanked(t);
    assert LinkOk(t.layers, 0) && LinkOk(t.layers, 1) && LinkOk(t.layers, 2);
  }

  lemma ThreeTopsDestroyFirst()
    ensures DestroyDefined(ThreeTops(), 0)
    ensures Destroyed(ThreeTops(), 0) == LayerTable([Top(1, 2), Top(2, 3)], [1, 2])
  {
    var t := ThreeTops();
    assert t.orderVector[0] == 0;
    assert IndexOf(t.orderVector, 0) == 0;
    assert EraseDefined(t, 0);
    DestroyedLeaf(t, 0);
    var d := Erase(t, 0);
    assert d.layers == t.layers[1..];
    assert d.orderVector == [1, 2];
  }

  /**
   * Destroying the first of three top-level layers leaves handle 2 in the
   * paint order although only two layers remain, and the surviving layers
   * keep ranks 2 and 3: the table is neither well formed nor ranked.
   */
  lemma DestroyBreaksPaintOrder()
    ensures WellFormed(ThreeTops()) && Ranked(ThreeTops()) && DestroyDefined(ThreeTops(), 0)
    ensures !WellFormed(Destroyed(ThreeTops(), 0)) && !Ranked(Destroyed(ThreeTops(), 0))
  {
    ThreeTopsWellFormed();
    ThreeTopsDestroyFirst();
    var d := Destroyed(ThreeTops(), 0);
    assert d.orderVector[1] == 2 && |d.layers| == 2;
  }

  /**
   * On that table, `ChangeLayerOrder(0, 1)` is still defined: handle 0's
   * rank differs from the clamped one, but the handle is no longer listed,
   * so the call returns before the renumbering could index with the stale
   * handle 2.
   */
  lemma ChangeOrderAfterDestroy()
    ensures DestroyDefined(ThreeTops(), 0)
    ensures var d := Destroyed(ThreeTops(), 0);
      && !HandlesInRange(d.orderVector, |d.layers|)
      && ChangeOrderDefined(d, 0, 1) && OrderChanged(d, 0, 1) == d
  {
    ThreeTopsDestroyFirst();
    var d := Destroyed(ThreeTops(), 0);
    assert d.orderVector[1] == 2 && d.layers[0].order == 2;
  }

  lemma ParentAndChildWellFormed()
    ensures WellFormed(ParentAndChild()) && InCreationOrder(ParentAndChild())
  {
    var t := ParentAndChild();
    assert InCreationOrder(t);
    CreationOrderIsRanked(t);
    assert LinkOk(t.layers, 0) && LinkOk(t.layers, 1);
  }

  /**
   * With a layer and its sub-layer as the only two layers, destroying the
   * parent first destroys the child (two layers exist, so the size guard
   * lets it through), then the parent itself: no layer is left.
   */
  lemma DestroyCanRemoveLastLayer()
    ensures WellFormed(ParentAndChild()) && DestroyDefined(ParentAndChild(), 0)
    ensures Destroyed(ParentAndChild(), 0).layers == []
  {
    ParentAndChildWellFormed();
    var t := ParentAndChild();
    assert EraseDefined(t, 1) by {
      assert t.orderVector[1] == 1;
    }
    assert EraseDefined(Erase(t, 1), 0) by {
      EraseRecords(t, 1);
      assert Erase(t, 1).layers[0] == Unlinked(t.layers, 0, 0);
      assert 0 in multiset(Erase(t, 1).orderVector);
    }
    DestroyTwoDeep(t, 0);
  }

  // ---------------------------------------------------------------------

  /** `Renderer`: the layer vector, the paint-order vector and the running flag. */
  class Renderer {
    var layers: seq<LayerProp>
    var orderVector: seq<WinHandle>
    var running: bool

    function Table(): LayerTable
      reads this
    {
      LayerTable(layers, orderVector)
    }

    ghost predicate Valid()
      reads this
    {
      WellFormed(Table())
    }

    constructor ()
      ensures layers == [] && orderVector == [] && running
      ensures Valid() && Ranked(Table()) && InCreationOrder(Table())
    {
      layers := [];
      orderVector := [];
      running := true;
    }

    /** The window of a handle; null (`None`) for a handle outside the layer vector. */
    function GetWindowPtr(handle: WinHandle): (w: Option<Window>)
      reads this
      ensures w.None? <==> handle < 0 || handle >= |layers|
      ensures w.Some? ==> w.value == layers[handle].layer
    {
      if handle < 0 || handle >= |layers| then None else Some(layers[handle].layer)
    }

    /** The stored rank of a layer: on a well-formed, ranked table, its 1-based place in the paint order. */
    function GetLayerOrder(handle: WinHandle): (r: int)
      reads this
      requires 0 <= handle < |layers|
      ensures Valid() && Ranked(Table()) ==> 1 <= r <= |orderVector| && orderVector[r - 1] == handle
    {
      RankIsPlace(Table(), handle);
      layers[handle].order
    }

    /** `OnUpdate`: the windows refreshed, in paint order. */
    method OnUpdate() returns (painted: seq<Window>)
      requires HandlesInRange(orderVector, |layers|)
      ensures |painted| == |orderVector|
      ensures forall i :: 0 <= i < |painted| ==> painted[i] == layers[orderVector[i]].layer
      ensures Ranked(Table()) ==>
        forall i :: 0 <= i < |painted| ==> painted[i] == layers[orderVector[i]].layer && layers[orderVector[i]].order == i + 1
    {
      painted := [];
      for i := 0 to |orderVector|
        invariant |painted| == i
        invariant forall j :: 0 <= j < i ==> painted[j] == layers[orderVector[j]].layer
      {
        painted := painted + [layers[orderVector[i]].layer];
      }
    }

    method CreateLayer(height: int, width: int, starty: int, startx: int, win: Option<Window>)
      returns (r: Result<WinHandle, AllocError>)
      modifies this
      ensures running == old(running)
      ensures win.None? ==> r == Failure(BadAlloc) && Table() == old(Table())
      ensures win.Some? ==>
        && r == Success(old(|layers|))
        && Table() == WithLayer(old(Table()), LayerProp(win.value, old(|layers|) + 1, height, width, starty, startx, NoLayer, NoLayer))
      ensures old(Valid()) ==> Valid()
      ensures old(Valid() && Ranked(Table())) ==> Ranked(Table())
      ensures old(InCreationOrder(Table())) ==> InCreationOrder(Table())
    {
      if win.None? {
        return Failure(BadAlloc);
      }
      ghost var before := Table();
      var layer := LayerProp(win.value, |layers| + 1, height, width, starty, startx, NoLayer, NoLayer);
      layers := layers + [layer];
      orderVector := orderVector + [|layers| - 1];
      r := Success(|layers| - 1);
      WithLayerKeepsInvariants(before, layer);
    }

    method CreateSubLayer(parent: WinHandle, height: int, width: int, starty: int, startx: int, win: Option<Window>)
      returns (r: Result<WinHandle, AllocError>)
      modifies this
      ensures running == old(running)
      ensures SubLayerRefused(old(layers), parent) ==> r == Success(NoLayer) && Table() == old(Table())
      ensures !SubLayerRefused(old(layers), parent) && win.None? ==> r == Failure(BadAlloc) && Table() == old(Table())
      ensures !SubLayerRefused(old(layers), parent) && win.Some? ==>
        && r == Success(old(|layers|))
        && Table() == WithSubLayer(old(Table()), parent,
                        LayerProp(win.value, old(|layers|) + 1, height, width, starty, startx, parent, NoLayer))
      ensures old(Valid()) ==> Valid()
      ensures old(Valid() && Ranked(Table())) ==> Ranked(Table())
      ensures old(InCreationOrder(Table())) ==> InCreationOrder(Table())
    {
      if parent < 0 || parent >= |layers| {
        return Success(NoLayer);
      }
      if layers[parent].child != NoLayer || layers[parent].parent != NoLayer {
        return Success(NoLayer);
      }
      if win.None? {
        return Failure(BadAlloc);
      }
      ghost var before := Table();
      var layer := LayerProp(win.value, |layers| + 1, height, width, starty, startx, parent, NoLayer);
      layers := layers[parent := layers[parent].(child := |layers|)];
      layers := layers + [layer];
      orderVector := orderVector + [|layers| - 1];
      r := Success(|layers| - 1);
      WithSubLayerKeepsInvariants(before, parent, layer);
    }

    /**
     * `ChangeLayerOrder`: moves a layer to the clamped rank and rewrites every
     * listed layer's rank to its new position, as `OrderChanged` says.
     */
    method ChangeLayerOrder(handle: WinHandle, newOrder: nat)
      requires ChangeOrderDefined(Table(), handle, newOrder)
      modifies this
      ensures running == old(running)
      ensures Table() == OrderChanged(old(Table()), handle, newOrder)
      ensures old(Valid()) ==> Valid()
      ensures old(Valid() && Ranked(Table())) ==> Ranked(Table())
    {
      ghost var t0 := Table();
      if |layers| == 1 {
        return;
      }
      var k := Clamp(newOrder, |orderVector|);
      if k == layers[handle].order {
        return;
      }
      var i := IndexOf(orderVector, handle);
      if i == |orderVector| {
        return;
      }
      ReorderedInRange(orderVector, handle, k, |layers|);
      orderVector := RemoveAt(orderVector, i);
      orderVector := InsertAt(orderVector, k - 1, handle);
      RewriteRanks();
      OrderChangedKeepsInvariants(t0, handle, newOrder);
    }

    /** The renumbering loop of `ChangeLayerOrder`: the layer at position j of the paint order gets rank j+1. */
    method RewriteRanks()
      requires HandlesInRange(orderVector, |layers|)
      modifies this
      ensures orderVector == old(orderVector) && running == old(running)
      ensures layers == Reranked(old(layers), orderVector, |orderVector|)
    {
      var j := 0;
      while j < |orderVector|
        invariant 0 <= j <= |orderVector|
        invariant orderVector == old(orderVector) && running == old(running)
        invariant layers == Reranked(old(layers), orderVector, j)
      {
        var h := orderVector[j];
        layers := layers[h := layers[h].(order := j + 1)];
        j := j + 1;
      }
    }

    /**
     * `DestroyLayer`, recursive on the child as in the source. It keeps the
     * old indices in the paint order and in the links, so it does not keep
     * `WellFormed` or `Ranked` (see `DestroyBreaksPaintOrder`).
     */
    method DestroyLayer(handle: WinHandle)
      requires DestroyDefined(Table(), handle)
      modifies this
      ensures running == old(running)
      ensures Table() == Destroyed(old(Table()), handle)
      decreases ChainLength(Table(), handle)
    {
      if |layers| == 1 {
        return;
      }
      if layers[handle].child != NoLayer {
        DestroyedRecurses(Table(), handle);
        DestroyLayer(layers[handle].child);
      } else {
        DestroyedLeaf(Table(), handle);
      }
      EraseLayer(handle);
    }

    /** The tail of `DestroyLayer` once the child is gone: unlink from the parent, erase the record, drop the handle. */
    method EraseLayer(handle: WinHandle)
      requires EraseDefined(Table(), handle)
      modifies this
      ensures running == old(running)
      ensures Table() == Erase(old(Table()), handle)
    {
      if layers[handle].parent != NoLayer {
        var p := layers[handle].parent;
        layers := layers[p := layers[p].(child := NoLayer)];
      }
      layers := RemoveAt(layers, handle);
      var i := IndexOf(orderVector, handle);
      orderVector := RemoveAt(orderVector, i);
    }

    /** `StopRenderer`: marks the renderer stopped; the table is untouched. */
    method StopRenderer()
      modifies this
      ensures !running && Table() == old(Table())
    {
      running := false;
    }
  }
}
