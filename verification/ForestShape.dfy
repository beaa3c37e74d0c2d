/**
  The shape of a type hierarchy, seen as the sequence of node depths in
  pre-order.  Parent, next sibling and last child of a node are positions in
  that sequence.
*/
module ForestShape {

  /** The first node is a root, and a node is at most one level below its predecessor. */
  ghost predicate WellFormed(d: seq<nat>) {
    && (|d| > 0 ==> d[0] == 0)
    && forall j, k :: 0 <= j < k < |d| && k == j + 1 ==> d[k] <= d[j] + 1
  }

  /** The first position at or after `j` that is not deeper than `h`. */
  ghost function Scan(d: seq<nat>, j: nat, h: nat): (r: nat)
    requires j <= |d|
    ensures j <= r <= |d|
    ensures forall i :: j <= i < r ==> d[i] > h
    ensures r < |d| ==> d[r] <= h
    decreases |d| - j
  {
    if j == |d| || d[j] <= h then j else Scan(d, j + 1, h)
  }

  /** One past the last node of the subtree of `k`. */
  ghost function End(d: seq<nat>, k: nat): (r: nat)
    requires k < |d|
    ensures k < r <= |d|
    ensures forall i :: k < i < r ==> d[i] > d[k]
    ensures r < |d| ==> d[r] <= d[k]
  {
    Scan(d, k + 1, d[k])
  }

  /** The last position at or before `j` that is shallower than `h`. */
  ghost function ScanBack(d: seq<nat>, j: nat, h: nat): (r: nat)
    requires j < |d| && h > 0 && d[0] == 0
    ensures r <= j && d[r] < h
    ensures forall i :: r < i <= j ==> d[i] >= h
  {
    if d[j] < h then j else ScanBack(d, j - 1, h)
  }

  /** The node that `k` hangs under. */
  ghost function Parent(d: seq<nat>, k: nat): (r: nat)
    requires WellFormed(d) && k < |d| && d[k] > 0
    ensures r < k && d[r] == d[k] - 1
    ensures forall i :: r < i <= k ==> d[i] >= d[k]
  {
    var r := ScanBack(d, k - 1, d[k]);
    assert d[r + 1] <= d[r] + 1;
    r
  }

  /** `End` is the only position with its three properties. */
  lemma EndUnique(d: seq<nat>, k: nat, r: nat)
    requires k < r <= |d|
    requires forall i :: k < i < r ==> d[i] > d[k]
    requires r < |d| ==> d[r] <= d[k]
    ensures End(d, k) == r
  {
  }

  lemma ParentUnique(d: seq<nat>, k: nat, r: nat)
    requires WellFormed(d) && r < k < |d| && d[k] > 0 && d[r] < d[k]
    requires forall i :: r < i <= k ==> d[i] >= d[k]
    ensures Parent(d, k) == r
  {
  }

  /** Subtrees nest: two of them are disjoint or one lies inside the other. */
  lemma Nested(d: seq<nat>, j: nat, k: nat)
    requires WellFormed(d) && j < k < |d|
    ensures End(d, j) <= k || End(d, k) <= End(d, j)
    ensures k < End(d, j) ==> d[j] < d[k]
  {
  }

  /** The parent's subtree holds the child's, and the child is its last one when they end together. */
  lemma ParentHolds(d: seq<nat>, k: nat)
    requires WellFormed(d) && k < |d| && d[k] > 0
    ensures Parent(d, k) < k < End(d, Parent(d, k))
    ensures End(d, k) <= End(d, Parent(d, k))
    ensures End(d, k) < End(d, Parent(d, k)) ==> End(d, k) < |d| && d[End(d, k)] == d[k]
  {
    var e := End(d, k);
    if e < End(d, Parent(d, k)) {
      assert d[e] > d[Parent(d, k)];
    }
  }

  /** A node preceded by one at least as deep has an older sibling, whose subtree ends there. */
  ghost function OlderSibling(d: seq<nat>, k: nat): (r: nat)
    requires WellFormed(d) && 0 < k < |d| && d[k] <= d[k - 1]
    ensures r < k && d[r] == d[k] && End(d, r) == k
  {
    var r := ScanBack(d, k - 1, d[k] + 1);
    assert r < k - 1 ==> d[r + 1] <= d[r] + 1;
    EndUnique(d, r, k);
    r
  }

  /** The last child of a node that has children. */
  ghost function LastChild(d: seq<nat>, k: nat): (r: nat)
    requires WellFormed(d) && k < |d| && k + 1 < End(d, k)
    ensures k < r < End(d, k) && d[r] == d[k] + 1 && End(d, r) == End(d, k)
    ensures Parent(d, r) == k
  {
    var e := End(d, k);
    var r := ScanBack(d, e - 1, d[k] + 2);
    assert d[k + 1] == d[k] + 1;
    EndUnique(d, r, e);
    ParentUnique(d, r, k);
    r
  }

  /** The last root. */
  ghost function LastRoot(d: seq<nat>): (r: nat)
    requires WellFormed(d) && |d| > 0
    ensures r < |d| && d[r] == 0 && End(d, r) == |d|
  {
    var r := ScanBack(d, |d| - 1, 1);
    EndUnique(d, r, |d|);
    r
  }
}
