/** How the shape of a type hierarchy changes when a type is attached. */
module ForestGrowth {
  import opened ForestShape

  /** A node of depth `h` can be put at position `e` as the last of its siblings. */
  ghost predicate Slot(d: seq<nat>, e: nat, h: nat) {
    && WellFormed(d) && e <= |d|
    && (e == 0 ==> h == 0)
    && (e > 0 ==> h <= d[e - 1] + 1)
    && (e < |d| ==> d[e] < h)
  }

  ghost function With<T>(s: seq<T>, e: nat, x: T): (r: seq<T>)
    requires e <= |s|
    ensures |r| == |s| + 1 && r[e] == x
    ensures forall j {:trigger r[j]} :: 0 <= j < |r| && j != e ==> r[j] == s[if j < e then j else j - 1]
  {
    s[..e] + [x] + s[e..]
  }

  /** Where an old node is after the new one has been put at `e`. */
  ghost function Moved(e: nat, j: nat): (r: nat) {
    if j < e then j else j + 1
  }

  lemma GrownShape(d: seq<nat>, e: nat, h: nat)
    requires Slot(d, e, h)
    ensures WellFormed(With<nat>(d, e, h)) && End(With<nat>(d, e, h), e) == e + 1
  {
    hide With;
    EndUnique(With<nat>(d, e, h), e, e + 1);
  }

  lemma GrownEnd(d: seq<nat>, e: nat, h: nat, j: nat)
    requires Slot(d, e, h) && j < |d|
    ensures
      End(With<nat>(d, e, h), Moved(e, j)) ==
      if End(d, j) < e || (End(d, j) == e && d[j] >= h) then End(d, j) else End(d, j) + 1
  {
    hide With, End, WellFormed;
    var d', j', x := With<nat>(d, e, h), Moved(e, j), End(d, j);
    var r := if x < e || (x == e && d[j] >= h) then x else x + 1;
    assert d'[j'] == d[j];
    forall i | j' < i < r ensures d'[i] > d'[j'] {
      if i == e {
        if e < |d| && x > e && j < e { assert d[e] > d[j]; }
      } else {
        assert d'[i] == d[if i < e then i else i - 1];
      }
    }
    if r < |d'| {
      assert r != e ==> d'[r] == d[if r < e then r else r - 1];
    }
    EndUnique(d', j', r);
  }

  lemma GrownParent(d: seq<nat>, e: nat, h: nat, j: nat)
    requires Slot(d, e, h) && j < |d| && d[j] > 0
    ensures WellFormed(With<nat>(d, e, h)) && Parent(With<nat>(d, e, h), Moved(e, j)) == Moved(e, Parent(d, j))
  {
    hide With, Parent, WellFormed;
    GrownShape(d, e, h);
    var d', j', q := With<nat>(d, e, h), Moved(e, j), Parent(d, j);
    assert d'[j'] == d[j] && d'[Moved(e, q)] == d[q];
    forall i | Moved(e, q) < i <= j' ensures d'[i] >= d'[j'] {
      if i == e { assert d[e] >= d[j]; } else { assert d'[i] == d[if i < e then i else i - 1]; }
    }
    ParentUnique(d', j', Moved(e, q));
  }

  lemma OlderSiblingUnique(d: seq<nat>, k: nat, r: nat)
    requires WellFormed(d) && 0 < k < |d| && r < k && d[r] == d[k] && End(d, r) == k
    ensures d[k] <= d[k - 1] && OlderSibling(d, k) == r
  {
    assert r < k - 1 ==> d[k - 1] > d[r];
  }

  lemma GrownOlderSibling(d: seq<nat>, e: nat, h: nat, j: nat)
    requires Slot(d, e, h) && j < |d|
    ensures WellFormed(With<nat>(d, e, h))
    ensures
      var d', j' := With<nat>(d, e, h), Moved(e, j);
      if j > 0 && d[j] <= d[j - 1]
      then j' > 0 && d'[j'] <= d'[j' - 1] && OlderSibling(d', j') == Moved(e, OlderSibling(d, j))
      else !(j' > 0 && d'[j'] <= d'[j' - 1])
  {
    hide With, OlderSibling, End, WellFormed;
    GrownShape(d, e, h);
    var d', j' := With<nat>(d, e, h), Moved(e, j);
    assert d'[j'] == d[j];
    if j > 0 && d[j] <= d[j - 1] {
      var r := OlderSibling(d, j);
      assert d'[Moved(e, r)] == d[r];
      GrownEnd(d, e, h, r);
      OlderSiblingUnique(d', j', Moved(e, r));
    } else if j > 0 {
      assert j != e;
      assert d'[Moved(e, j - 1)] == d[j - 1];
    }
  }

  /** Inside a subtree nodes are deeper than its root. */
  lemma Deeper(d: seq<nat>, a: nat, b: nat)
    requires WellFormed(d) && a < |d| && b < |d|
    ensures a < b < End(d, a) ==> d[a] < d[b]
  {
  }

  lemma LastChildUnique(d: seq<nat>, k: nat, r: nat)
    requires WellFormed(d) && k < r < |d| && r < End(d, k) && d[r] == d[k] + 1 && End(d, r) == End(d, k)
    ensures LastChild(d, k) == r
  {
    var s := LastChild(d, k);
    Deeper(d, r, s);
    Deeper(d, s, r);
  }

  /** Except for the parent of the new node, the last child stays the last child. */
  lemma GrownLastChild(d: seq<nat>, e: nat, h: nat, j: nat)
    requires Slot(d, e, h) && j < |d| && !(j < e && End(d, j) == e && d[j] + 1 == h)
    ensures WellFormed(With<nat>(d, e, h))
    ensures
      var d', j' := With<nat>(d, e, h), Moved(e, j);
      if j + 1 < End(d, j)
      then j' + 1 < End(d', j') && LastChild(d', j') == Moved(e, LastChild(d, j)) && d'[j' + 1] == d[j + 1]
           && Moved(e, j + 1) == j' + 1
      else j' + 1 == End(d', j')
  {
    hide With, LastChild, End, WellFormed;
    GrownShape(d, e, h);
    GrownEnd(d, e, h, j);
    var d', j' := With<nat>(d, e, h), Moved(e, j);
    assert d'[j'] == d[j];
    if j + 1 < End(d, j) {
      var r := LastChild(d, j);
      assert d'[Moved(e, r)] == d[r] && d'[Moved(e, j + 1)] == d[j + 1];
      GrownEnd(d, e, h, r);
      LastChildUnique(d', j', Moved(e, r));
    }
  }

  /** The place of a new root (`p == -1`) or of a new last child of `p`. */
  ghost function SlotAt(d: seq<nat>, p: int): (r: nat)
    requires WellFormed(d) && -1 <= p < |d|
    ensures r <= |d|
  {
    if p == -1 then |d| else End(d, p)
  }

  ghost function LevelAt(d: seq<nat>, p: int): (r: nat)
    requires -1 <= p < |d|
  {
    if p == -1 then 0 else d[p] + 1
  }

  lemma SlotOk(d: seq<nat>, p: int)
    requires WellFormed(d) && -1 <= p < |d|
    ensures Slot(d, SlotAt(d, p), LevelAt(d, p))
  {
  }

  /** The node that was last among the new node's siblings. */
  lemma LastSibling(d: seq<nat>, p: int, j: nat)
    requires WellFormed(d) && -1 <= p < |d| && j < |d|
    requires End(d, j) == SlotAt(d, p) && d[j] == LevelAt(d, p)
    ensures p == -1 ==> j == LastRoot(d)
    ensures p >= 0 ==> p + 1 < End(d, p) && j == LastChild(d, p)
  {
    if p == -1 {
      var r := LastRoot(d);
      Deeper(d, j, r);
      Deeper(d, r, j);
    } else {
      Deeper(d, j, p);
      LastChildUnique(d, p, j);
    }
  }

  /** Parent and older sibling of the new node. */
  lemma NewNode(d: seq<nat>, p: int)
    requires WellFormed(d) && -1 <= p < |d|
    ensures
      var e, h := SlotAt(d, p), LevelAt(d, p);
      var d' := With<nat>(d, e, h);
      && WellFormed(d') && (p >= 0 ==> Parent(d', e) == p)
      && (p >= 0 && p + 1 == e ==> d'[e] > d'[e - 1])
      && (p >= 0 && p + 1 < e ==> d'[e] <= d'[e - 1] && OlderSibling(d', e) == LastChild(d, p))
      && (p == -1 && e > 0 ==> d'[e] <= d'[e - 1] && OlderSibling(d', e) == LastRoot(d))
  {
    hide With, End, WellFormed, LastChild, LastRoot, OlderSibling, Parent;
    var e, h := SlotAt(d, p), LevelAt(d, p);
    SlotOk(d, p);
    GrownShape(d, e, h);
    var d' := With<nat>(d, e, h);
    if p >= 0 {
      assert d'[p] == d[p];
      forall i | p < i <= e ensures d'[i] >= h { assert i < e ==> d'[i] == d[i]; }
      ParentUnique(d', e, p);
    }
    if e > 0 && !(p >= 0 && p + 1 == e) {
      var r := if p == -1 then LastRoot(d) else LastChild(d, p);
      assert d'[r] == d[r];
      GrownEnd(d, e, h, r);
      OlderSiblingUnique(d', e, r);
    } else if e > 0 {
      assert d'[p] == d[p];
    }
  }

  /** The parent of the new node now has the new node as its last child; the last root follows suit. */
  lemma NewLast(d: seq<nat>, p: int)
    requires WellFormed(d) && -1 <= p < |d|
    ensures
      var e, h := SlotAt(d, p), LevelAt(d, p);
      var d' := With<nat>(d, e, h);
      && WellFormed(d')
      && (p >= 0 ==> p + 1 < End(d', p) && LastChild(d', p) == e)
      && LastRoot(d') == if p == -1 then e else Moved(e, LastRoot(d))
  {
    hide With, End, WellFormed, LastChild, LastRoot;
    var e, h := SlotAt(d, p), LevelAt(d, p);
    SlotOk(d, p);
    GrownShape(d, e, h);
    var d' := With<nat>(d, e, h);
    if p >= 0 {
      assert d'[p] == d[p];
      GrownEnd(d, e, h, p);
      LastChildUnique(d', p, e);
      var r := LastRoot(d);
      assert d'[Moved(e, r)] == d[r];
      GrownEnd(d, e, h, r);
      RootUnique(d', Moved(e, r));
    } else {
      RootUnique(d', e);
    }
  }

  lemma RootUnique(d: seq<nat>, r: nat)
    requires WellFormed(d) && r < |d| && d[r] == 0 && End(d, r) == |d|
    ensures LastRoot(d) == r
  {
    var s := LastRoot(d);
    Deeper(d, s, r);
    Deeper(d, r, s);
  }

  /** Only the parent of the new node ends at its place one level above it. */
  lemma SameParent(d: seq<nat>, p: int, j: nat)
    requires WellFormed(d) && -1 <= p < |d| && j < |d|
    requires End(d, j) == SlotAt(d, p) && d[j] + 1 == LevelAt(d, p)
    ensures j == p
  {
    Deeper(d, j, p);
    Deeper(d, p, j);
  }

  /** A new element leaves a sequence without doubles. */
  lemma WithDistinct<T>(s: seq<T>, e: nat, x: T)
    requires e <= |s| && forall i, j :: 0 <= i < j < |s| ==> s[i] != s[j]
    requires forall i :: 0 <= i < |s| ==> s[i] != x
    ensures var r := With(s, e, x); forall i, j :: 0 <= i < j < |r| ==> r[i] != r[j]
  {
    var r := With(s, e, x);
    forall i, j | 0 <= i < j < |r| ensures r[i] != r[j] {
      assert (i != e ==> r[i] == s[if i < e then i else i - 1]) && (j != e ==> r[j] == s[if j < e then j else j - 1]);
    }
  }

  /** First and last child of a type other than the parent of the new node. */
  lemma ChildrenAt(d: seq<nat>, p: int, e: nat, h: nat, j: nat)
    requires WellFormed(d) && -1 <= p < |d| && Slot(d, e, h) && e == SlotAt(d, p) && h == LevelAt(d, p) && j < |d| && j != p
    ensures
      var d', k := With<nat>(d, e, h), Moved(e, j);
      && WellFormed(d') && (k + 1 < End(d', k) <==> j + 1 < End(d, j))
      && (j + 1 < End(d, j) ==> k + 1 == Moved(e, j + 1) && LastChild(d', k) == Moved(e, LastChild(d, j)))
  {
    hide With, End, LastChild;
    GrownShape(d, e, h);
    if j < e && End(d, j) == e && d[j] + 1 == h { SameParent(d, p, j); }
    GrownEnd(d, e, h, j);
    GrownLastChild(d, e, h, j);
  }
}
