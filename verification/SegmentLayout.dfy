/**
  Where the segments of a type hierarchy lie in the concatenated proxy lists.
  Type `k` owns the `cnt[k]` positions after `lo[k]`; a subtype starts where the
  type before it ends, and a new root starts behind the sentinel of the old one.
*/
module SegmentLayout {
  import opened ForestShape
  import opened ForestGrowth

  ghost function Hi(lo: seq<nat>, cnt: seq<nat>, k: nat): (r: nat)
    requires k < |lo| && k < |cnt|
  {
    lo[k] + cnt[k] + 1
  }

  ghost predicate Cuts(d: seq<nat>, lo: seq<nat>, cnt: seq<nat>, n: nat) {
    && |d| == |lo| == |cnt| && WellFormed(d)
    && (|d| == 0 ==> n == 0)
    && (|d| > 0 ==> lo[0] == 0 && n == Hi(lo, cnt, |d| - 1) + 1)
    && (forall k :: 0 <= k < |d| ==> Hi(lo, cnt, k) < n)
    && (forall j, k :: 0 <= j < k < |d| && k == j + 1 ==>
          lo[k] == lo[j] + cnt[j] + if d[k] > 0 then 0 else 2)
  }

  /** A later type starts no earlier than the last element of an earlier one. */
  lemma {:induction false} Before(d: seq<nat>, lo: seq<nat>, cnt: seq<nat>, n: nat, j: nat, k: nat)
    requires Cuts(d, lo, cnt, n) && j <= k < |d|
    ensures lo[j] <= lo[k]
    ensures j < k ==> Hi(lo, cnt, j) <= lo[k] + 1
    decreases k - j
  {
    if j < k {
      Before(d, lo, cnt, n, j + 1, k);
    }
  }

  lemma BoundAt(d: seq<nat>, lo: seq<nat>, cnt: seq<nat>, n: nat, k: nat)
    requires Cuts(d, lo, cnt, n) && k < |d|
    ensures |d| == |lo| == |cnt| && Hi(lo, cnt, k) < n
  {
  }

  /** The starts after type `k` has grown by `delta` elements. */
  ghost function Shift(lo: seq<nat>, k: nat, delta: int): (r: seq<nat>)
    requires forall j :: k < j < |lo| ==> lo[j] + delta >= 0
    ensures |r| == |lo|
    ensures forall j {:trigger r[j]} :: 0 <= j < |r| ==> r[j] == if j > k then lo[j] + delta else lo[j]
  {
    seq(|lo|, j requires 0 <= j < |lo| => if j > k then lo[j] + delta else lo[j])
  }

  /** Growing type `k` moves everything from its end on. */
  lemma ShiftAt(d: seq<nat>, lo: seq<nat>, cnt: seq<nat>, n: nat, k: nat, delta: int, j: nat)
    requires Cuts(d, lo, cnt, n) && k < |d| && cnt[k] + delta >= 0 && j < |d|
    requires forall i :: k < i < |lo| ==> lo[i] + delta >= 0
    ensures Shift(lo, k, delta)[j] == if j > k then lo[j] + delta else lo[j]
    ensures Hi(Shift(lo, k, delta), cnt[k := cnt[k] + delta], j) == Hi(lo, cnt, j) + if j >= k then delta else 0
    ensures j < k ==> Hi(lo, cnt, j) <= lo[k] + 1
    ensures j > k ==> Hi(lo, cnt, k) <= lo[j] + 1
    ensures lo[j] < Hi(lo, cnt, j) < n && WellFormed(d)
  {
    if j < k { Before(d, lo, cnt, n, j, k); }
    if j > k { Before(d, lo, cnt, n, k, j); }
  }

  lemma ShiftCuts(d: seq<nat>, lo: seq<nat>, cnt: seq<nat>, n: nat, k: nat, delta: int)
    requires Cuts(d, lo, cnt, n) && k < |d| && cnt[k] + delta >= 0
    ensures forall j :: k < j < |lo| ==> lo[j] + delta >= 0
    ensures n + delta >= 0
    ensures Cuts(d, Shift(lo, k, delta), cnt[k := cnt[k] + delta], n + delta)
  {
    forall j | k < j < |lo| ensures lo[j] + delta >= 0 {
      Before(d, lo, cnt, n, k, j);
    }
    var lo', cnt' := Shift(lo, k, delta), cnt[k := cnt[k] + delta];
    forall j | 0 <= j < |d| ensures Hi(lo', cnt', j) < n + delta
    {
      ShiftAt(d, lo, cnt, n, k, delta, j);
      Before(d, lo, cnt, n, k, |d| - 1);
    }
  }

  // ------------------------------------------------------------------ the three pointers of every type

  ghost predicate Distinct<T>(s: seq<T>) {
    forall i, j :: 0 <= i < j < |s| ==> s[i] != s[j]
  }

  /** Replaces `a` by `b` in front of position `k`. */
  ghost function ReplaceBefore<T>(s: seq<T>, k: nat, a: T, b: T): (r: seq<T>)
    ensures |r| == |s|
    ensures forall j {:trigger r[j]} :: 0 <= j < |s| ==> r[j] == if j < k && s[j] == a then b else s[j]
  {
    seq(|s|, j requires 0 <= j < |s| => if j < k && s[j] == a then b else s[j])
  }

  /** Replaces `a` by `b` behind position `k`. */
  ghost function ReplaceAfter<T>(s: seq<T>, k: nat, a: T, b: T): (r: seq<T>)
    ensures |r| == |s|
    ensures forall j {:trigger r[j]} :: 0 <= j < |s| ==> r[j] == if j > k && s[j] == a then b else s[j]
  {
    seq(|s|, j requires 0 <= j < |s| => if j > k && s[j] == a then b else s[j])
  }

  /** Replaces `a` by `b` in front of position `k` where the type is at least as deep as type `k`. */
  ghost function ReplaceDeep<T>(s: seq<T>, d: seq<nat>, k: nat, a: T, b: T): (r: seq<T>)
    requires |s| == |d| && k < |d|
    ensures |r| == |s|
    ensures forall j {:trigger r[j]} :: 0 <= j < |s| ==> r[j] == if j < k && d[j] >= d[k] && s[j] == a then b else s[j]
  {
    seq(|s|, j requires 0 <= j < |s| => if j < k && d[j] >= d[k] && s[j] == a then b else s[j])
  }

  /** Replaces `a` by `b` from position `from` on, before `k`, where `level` allows it. */
  ghost function ReplaceIn<T>(s: seq<T>, level: seq<bool>, from: int, k: nat, a: T, b: T): (r: seq<T>)
    requires |s| == |level|
    ensures |r| == |s|
    ensures forall j {:trigger r[j]} :: 0 <= j < |s| ==> r[j] == if from <= j < k && level[j] && s[j] == a then b else s[j]
  {
    seq(|s|, j requires 0 <= j < |s| => if from <= j < k && level[j] && s[j] == a then b else s[j])
  }

  /** One position more. */
  lemma ReplaceOne<T>(s: seq<T>, level: seq<bool>, j: nat, k: nat, a: T, b: T)
    requires |s| == |level| && j < k <= |s|
    ensures
      var r := ReplaceIn(s, level, j + 1, k, a, b);
      ReplaceIn(s, level, j, k, a, b) == r[j := if level[j] && r[j] == a then b else r[j]]
  {
    hide ReplaceIn;
  }

  lemma ReplaceNext<T>(s: seq<T>, level: seq<bool>, from: nat, k: nat, a: T, b: T)
    requires |s| == |level| && from <= k
    ensures
      var r, r' := ReplaceIn(s, level, from, k, a, b), ReplaceIn(s, level, from, k + 1, a, b);
      r' == if k < |s| then r[k := if level[k] && r[k] == a then b else r[k]] else r
  {
    hide ReplaceIn;
    var r, r' := ReplaceIn(s, level, from, k, a, b), ReplaceIn(s, level, from, k + 1, a, b);
    assert k >= |s| ==> r == r';
  }

  lemma ReplacedBehind<T>(s: seq<T>, k: nat, a: T, b: T)
    requires k < |s|
    ensures ReplaceIn(s, Everywhere(|s|), k + 1, |s| + 1, a, b) == ReplaceAfter(s, k, a, b)
    ensures ReplaceIn(s, Everywhere(|s|), k + 1, k + 1, a, b) == s
  {
    hide ReplaceIn, ReplaceAfter, Everywhere;
  }

  ghost function Everywhere(n: nat): (r: seq<bool>)
    ensures |r| == n && forall j {:trigger r[j]} :: 0 <= j < n ==> r[j]
  {
    seq(n, _ => true)
  }

  ghost function AsDeep(d: seq<nat>, h: nat): (r: seq<bool>)
    ensures |r| == |d| && forall j {:trigger r[j]} :: 0 <= j < |d| ==> r[j] == (d[j] >= h)
  {
    seq(|d|, j requires 0 <= j < |d| => d[j] >= h)
  }

  lemma ReplacedAll<T>(s: seq<T>, l: seq<T>, d: seq<nat>, k: nat, a: T, b: T)
    requires |s| == |l| == |d| && k < |d|
    ensures ReplaceIn(s, Everywhere(|d|), 0, k, a, b) == ReplaceBefore(s, k, a, b)
    ensures ReplaceIn(l, AsDeep(d, d[k]), 0, k, a, b) == ReplaceDeep(l, d, k, a, b)
    ensures ReplaceIn(s, Everywhere(|d|), k, k, a, b) == s && ReplaceIn(l, AsDeep(d, d[k]), k, k, a, b) == l
  {
    hide ReplaceIn, ReplaceBefore, ReplaceDeep, Everywhere, AsDeep;
  }

  /** `first` and `marker` bracket the segment of type `k`. */
  ghost predicate MarkedAt<T>(lo: seq<nat>, cnt: seq<nat>, all: seq<T>, first: seq<T>, marker: seq<T>, k: nat)
    requires |lo| == |cnt| == |first| == |marker| && k < |lo|
  {
    var h := Hi(lo, cnt, k);
    h < |all| && first[k] == all[lo[k]] && marker[k] == all[h]
  }

  ghost predicate Marked<T>(lo: seq<nat>, cnt: seq<nat>, all: seq<T>, first: seq<T>, marker: seq<T>) {
    && |lo| == |cnt| == |first| == |marker|
    && forall k :: 0 <= k < |lo| ==> MarkedAt(lo, cnt, all, first, marker, k)
  }

  /** `last` of type `k` is the first element behind its whole subtree. */
  ghost predicate LastAt<T>(d: seq<nat>, lo: seq<nat>, cnt: seq<nat>, all: seq<T>, last: seq<T>, k: nat)
    requires |d| == |lo| == |cnt| == |last| && k < |d|
  {
    var h := Hi(lo, cnt, End(d, k) - 1);
    h < |all| && last[k] == all[h]
  }

  ghost predicate ExactLast<T>(d: seq<nat>, lo: seq<nat>, cnt: seq<nat>, all: seq<T>, last: seq<T>) {
    && |d| == |lo| == |cnt| == |last|
    && forall k :: 0 <= k < |d| ==> LastAt(d, lo, cnt, all, last, k)
  }

  /** Type `j` is earlier than `k`, not an ancestor of it, closer to the root, and ends at `q`. */
  ghost predicate UncleAt<T>(d: seq<nat>, last: seq<T>, k: nat, q: T, j: nat)
    requires |last| == |d| && k < |d|
  {
    j < k && End(d, j) <= k && d[j] < d[k] && last[j] == q
  }

  ghost predicate Uncle<T>(d: seq<nat>, last: seq<T>, k: nat, q: T)
    requires |last| == |d| && k < |d|
  {
    exists j :: 0 <= j < |d| && UncleAt(d, last, k, q, j)
  }

  // ------------------------------------------------------------------ changing one segment

  /** A part `[a, b)` of the segment of type `k` is about to be replaced by `xs`. */
  ghost predicate Splice<T>(d: seq<nat>, lo: seq<nat>, cnt: seq<nat>, all: seq<T>, k: nat, a: nat, b: nat, xs: seq<T>) {
    && Cuts(d, lo, cnt, |all|) && Distinct(all) && Distinct(xs)
    && (forall x :: x in xs ==> x !in all)
    && k < |d| == |lo| == |cnt| && lo[k] < a <= b <= Hi(lo, cnt, k) < |all|
  }

  lemma SpliceIn<T>(d: seq<nat>, lo: seq<nat>, cnt: seq<nat>, all: seq<T>, k: nat, a: nat, x: T)
    requires Cuts(d, lo, cnt, |all|) && Distinct(all) && x !in all
    requires k < |d| == |lo| == |cnt| && lo[k] < a <= Hi(lo, cnt, k) < |all|
    ensures Splice(d, lo, cnt, all, k, a, a, [x])
  {
  }

  lemma SpliceOut<T>(d: seq<nat>, lo: seq<nat>, cnt: seq<nat>, all: seq<T>, k: nat, a: nat, b: nat)
    requires Cuts(d, lo, cnt, |all|) && Distinct(all)
    requires k < |d| == |lo| == |cnt| && lo[k] < a <= b <= Hi(lo, cnt, k) < |all|
    ensures Splice(d, lo, cnt, all, k, a, b, [])
  {
  }

  ghost function Spliced<T>(all: seq<T>, a: nat, b: nat, xs: seq<T>): (r: seq<T>)
    requires a <= b <= |all|
    ensures |r| == |all| + |xs| - (b - a)
    ensures forall i {:trigger r[i]} :: 0 <= i < |r| ==>
              r[i] == if i < a then all[i] else if i < a + |xs| then xs[i - a] else all[i - |xs| + (b - a)]
  {
    all[..a] + xs + all[b..]
  }

  lemma SplicedIs<T>(all: seq<T>, a: nat, b: nat, xs: seq<T>)
    requires a <= b <= |all|
    ensures Spliced(all, a, b, xs) == all[..a] + xs + all[b..]
  {
  }

  lemma SplicedDistinct<T>(d: seq<nat>, lo: seq<nat>, cnt: seq<nat>, all: seq<T>, k: nat, a: nat, b: nat, xs: seq<T>)
    requires Splice(d, lo, cnt, all, k, a, b, xs)
    ensures Distinct(Spliced(all, a, b, xs))
  {
    hide Cuts, Spliced;
    var r := Spliced(all, a, b, xs);
    forall i, j | 0 <= i < j < |r| ensures r[i] != r[j] {
      if a <= i < a + |xs| { assert r[i] in xs; }
      if a <= j < a + |xs| { assert r[j] in xs; }
    }
  }

  /** The pointers of all types after the repair that the store does. */
  ghost function SplicedFirst<T>(lo: seq<nat>, cnt: seq<nat>, all: seq<T>, first: seq<T>, k: nat, a: nat, b: nat, xs: seq<T>): (r: seq<T>)
    requires k < |lo| == |cnt| && lo[k] < a <= b <= Hi(lo, cnt, k) < |all|
    ensures |r| == |first|
  {
    if b == Hi(lo, cnt, k) then ReplaceAfter(first, k, all[b - 1], Spliced(all, a, b, xs)[a + |xs| - 1]) else first
  }

  ghost function SplicedMarker<T>(lo: seq<nat>, cnt: seq<nat>, all: seq<T>, marker: seq<T>, k: nat, a: nat, b: nat, xs: seq<T>): (r: seq<T>)
    requires k < |lo| == |cnt| && lo[k] < a <= b <= Hi(lo, cnt, k) < |all|
    ensures |r| == |marker|
  {
    if a == lo[k] + 1 then ReplaceBefore(marker, k, all[a], Spliced(all, a, b, xs)[a]) else marker
  }

  ghost function SplicedLast<T>(d: seq<nat>, lo: seq<nat>, cnt: seq<nat>, all: seq<T>, last: seq<T>, k: nat, a: nat, b: nat, xs: seq<T>): (r: seq<T>)
    requires k < |lo| == |cnt| == |d| == |last| && lo[k] < a <= b <= Hi(lo, cnt, k) < |all|
    ensures |r| == |last|
  {
    if a == lo[k] + 1 then ReplaceDeep(last, d, k, all[a], Spliced(all, a, b, xs)[a]) else last
  }

  /** The repairs for one new element in front of the last one of its segment. */
  lemma RepairIn<T>(d: seq<nat>, lo: seq<nat>, cnt: seq<nat>, all: seq<T>, first: seq<T>, marker: seq<T>, last: seq<T>, k: nat, p: nat, x: T)
    requires k < |lo| == |cnt| == |d| == |last| && Hi(lo, cnt, k) < |all|
    requires p == if cnt[k] <= 1 then lo[k] + 1 else Hi(lo, cnt, k) - 1
    ensures SplicedFirst(lo, cnt, all, first, k, p, p, [x]) ==
            if cnt[k] == 0 then ReplaceAfter(first, k, all[p - 1], x) else first
    ensures SplicedMarker(lo, cnt, all, marker, k, p, p, [x]) ==
            if cnt[k] <= 1 then ReplaceBefore(marker, k, all[p], x) else marker
    ensures SplicedLast(d, lo, cnt, all, last, k, p, p, [x]) ==
            if cnt[k] <= 1 then ReplaceDeep(last, d, k, all[p], x) else last
  {
    hide Spliced, ReplaceAfter, ReplaceBefore, ReplaceDeep;
  }

  /** The repairs for taking the elements `[a, b)` out. */
  lemma RepairOut<T>(d: seq<nat>, lo: seq<nat>, cnt: seq<nat>, all: seq<T>, first: seq<T>, marker: seq<T>, last: seq<T>, k: nat, a: nat, b: nat)
    requires k < |lo| == |cnt| == |d| == |last| && lo[k] < a < b <= Hi(lo, cnt, k) < |all|
    ensures SplicedFirst(lo, cnt, all, first, k, a, b, []) ==
            if b == Hi(lo, cnt, k) then ReplaceAfter(first, k, all[b - 1], all[a - 1]) else first
    ensures SplicedMarker(lo, cnt, all, marker, k, a, b, []) ==
            if a == lo[k] + 1 then ReplaceBefore(marker, k, all[a], all[b]) else marker
    ensures SplicedLast(d, lo, cnt, all, last, k, a, b, []) ==
            if a == lo[k] + 1 then ReplaceDeep(last, d, k, all[a], all[b]) else last
  {
    hide Spliced, ReplaceAfter, ReplaceBefore, ReplaceDeep;
  }

  lemma DistinctAt<T>(s: seq<T>, i: nat, j: nat)
    requires Distinct(s) && i < |s| && j < |s|
    ensures s[i] == s[j] <==> i == j
  {
  }

  /** The starts and counts after the splice still tile the lists. */
  lemma SplicedCuts<T>(d: seq<nat>, lo: seq<nat>, cnt: seq<nat>, all: seq<T>, k: nat, a: nat, b: nat, xs: seq<T>)
    requires Splice(d, lo, cnt, all, k, a, b, xs)
    ensures cnt[k] + |xs| - (b - a) >= 0
    ensures forall j :: k < j < |lo| ==> lo[j] + |xs| - (b - a) >= 0
    ensures Cuts(d, Shift(lo, k, |xs| - (b - a)), cnt[k := cnt[k] + |xs| - (b - a)], |Spliced(all, a, b, xs)|)
  {
    ShiftCuts(d, lo, cnt, |all|, k, |xs| - (b - a));
  }

  lemma SplicedMarkedAt<T>(d: seq<nat>, lo: seq<nat>, cnt: seq<nat>, all: seq<T>, first: seq<T>, marker: seq<T>,
                           k: nat, a: nat, b: nat, xs: seq<T>, j: nat)
    requires Splice(d, lo, cnt, all, k, a, b, xs) && |first| == |marker| == |d| && j < |d|
    requires MarkedAt(lo, cnt, all, first, marker, j)
    requires forall j :: k < j < |lo| ==> lo[j] + |xs| - (b - a) >= 0
    ensures MarkedAt(Shift(lo, k, |xs| - (b - a)), cnt[k := cnt[k] + |xs| - (b - a)], Spliced(all, a, b, xs),
                     SplicedFirst(lo, cnt, all, first, k, a, b, xs), SplicedMarker(lo, cnt, all, marker, k, a, b, xs), j)
  {
    hide Cuts, Distinct, Shift, Spliced, ReplaceBefore, ReplaceAfter;
    ShiftAt(d, lo, cnt, |all|, k, |xs| - (b - a), j);
    DistinctAt(all, a, Hi(lo, cnt, j));
    DistinctAt(all, b - 1, lo[j]);
  }

  /** Every type's own segment is still bracketed after the repair. */
  lemma SplicedMarked<T>(d: seq<nat>, lo: seq<nat>, cnt: seq<nat>, all: seq<T>, first: seq<T>, marker: seq<T>,
                         k: nat, a: nat, b: nat, xs: seq<T>)
    requires Splice(d, lo, cnt, all, k, a, b, xs) && Marked(lo, cnt, all, first, marker)
    requires forall j :: k < j < |lo| ==> lo[j] + |xs| - (b - a) >= 0
    ensures Marked(Shift(lo, k, |xs| - (b - a)), cnt[k := cnt[k] + |xs| - (b - a)], Spliced(all, a, b, xs),
                   SplicedFirst(lo, cnt, all, first, k, a, b, xs), SplicedMarker(lo, cnt, all, marker, k, a, b, xs))
  {
    hide Cuts, Distinct, Shift, Spliced, SplicedFirst, SplicedMarker, MarkedAt;
    var lo', cnt' := Shift(lo, k, |xs| - (b - a)), cnt[k := cnt[k] + |xs| - (b - a)];
    var all', first' := Spliced(all, a, b, xs), SplicedFirst(lo, cnt, all, first, k, a, b, xs);
    var marker' := SplicedMarker(lo, cnt, all, marker, k, a, b, xs);
    forall j | 0 <= j < |d| ensures MarkedAt(lo', cnt', all', first', marker', j)
    {
      SplicedMarkedAt(d, lo, cnt, all, first, marker, k, a, b, xs, j);
    }
  }

  lemma SplicedLastAt<T>(d: seq<nat>, lo: seq<nat>, cnt: seq<nat>, all: seq<T>, last: seq<T>,
                         k: nat, a: nat, b: nat, xs: seq<T>, j: nat)
    requires Splice(d, lo, cnt, all, k, a, b, xs) && |last| == |d| && j < |d| && (a < b || xs != [])
    requires LastAt(d, lo, cnt, all, last, j)
    requires forall j :: k < j < |lo| ==> lo[j] + |xs| - (b - a) >= 0
    ensures LastAt(d, Shift(lo, k, |xs| - (b - a)), cnt[k := cnt[k] + |xs| - (b - a)], Spliced(all, a, b, xs),
                   SplicedLast(d, lo, cnt, all, last, k, a, b, xs), j)
            <==> !(a == lo[k] + 1 && UncleAt(d, last, k, all[a], j))
  {
    hide Cuts, Distinct, End, WellFormed, Shift, Spliced, ReplaceDeep;
    ShiftAt(d, lo, cnt, |all|, k, |xs| - (b - a), k);
    if j < k { Nested(d, j, k); }
    DistinctAt(all, a, Hi(lo, cnt, End(d, j) - 1));
    DistinctAt(all, a, b);
    assert xs != [] ==> xs[0] in xs;
    ShiftAt(d, lo, cnt, |all|, k, |xs| - (b - a), End(d, j) - 1);
  }

  /** After the repair every `last` is exact again if and only if no uncle ended where the segment began. */
  lemma SplicedExactLast<T>(d: seq<nat>, lo: seq<nat>, cnt: seq<nat>, all: seq<T>, last: seq<T>,
                            k: nat, a: nat, b: nat, xs: seq<T>)
    requires Splice(d, lo, cnt, all, k, a, b, xs) && (a < b || xs != []) && ExactLast(d, lo, cnt, all, last)
    requires forall j :: k < j < |lo| ==> lo[j] + |xs| - (b - a) >= 0
    ensures ExactLast(d, Shift(lo, k, |xs| - (b - a)), cnt[k := cnt[k] + |xs| - (b - a)], Spliced(all, a, b, xs),
                      SplicedLast(d, lo, cnt, all, last, k, a, b, xs))
            <==> !(a == lo[k] + 1 && Uncle(d, last, k, all[a]))
  {
    hide LastAt, UncleAt, Cuts, Distinct, Shift, Spliced, SplicedLast;
    if a == lo[k] + 1 && Uncle(d, last, k, all[a]) {
      var j :| 0 <= j < |d| && UncleAt(d, last, k, all[a], j);
      SplicedLastAt(d, lo, cnt, all, last, k, a, b, xs, j);
    } else {
      var lo', cnt' := Shift(lo, k, |xs| - (b - a)), cnt[k := cnt[k] + |xs| - (b - a)];
      var all', last' := Spliced(all, a, b, xs), SplicedLast(d, lo, cnt, all, last, k, a, b, xs);
      forall j | 0 <= j < |d| ensures LastAt(d, lo', cnt', all', last', j)
      {
        SplicedLastAt(d, lo, cnt, all, last, k, a, b, xs, j);
      }
    }
  }

  // ------------------------------------------------------------------ the sentinels that end a list

  /** No sentinel sits inside a segment, and one ends the list of every root. */
  ghost predicate EndedAt<T>(d: seq<nat>, lo: seq<nat>, cnt: seq<nat>, all: seq<T>, tails: set<T>, k: nat)
    requires k < |d| == |lo| == |cnt|
  {
    && Hi(lo, cnt, k) < |all|
    && (forall i :: lo[k] <= i < Hi(lo, cnt, k) ==> all[i] !in tails)
    && (k + 1 == |d| || d[k + 1] == 0 ==> all[Hi(lo, cnt, k)] in tails)
  }

  ghost predicate Ended<T>(d: seq<nat>, lo: seq<nat>, cnt: seq<nat>, all: seq<T>, tails: set<T>) {
    && |d| == |lo| == |cnt|
    && (forall t :: t in tails ==> t in all)
    && (forall k :: 0 <= k < |d| ==> EndedAt(d, lo, cnt, all, tails, k))
  }

  lemma SplicedEndedAt<T>(d: seq<nat>, lo: seq<nat>, cnt: seq<nat>, all: seq<T>, tails: set<T>,
                          k: nat, a: nat, b: nat, xs: seq<T>, j: nat)
    requires Splice(d, lo, cnt, all, k, a, b, xs) && Ended(d, lo, cnt, all, tails) && j < |d|
    requires forall j :: k < j < |lo| ==> lo[j] + |xs| - (b - a) >= 0
    ensures EndedAt(d, Shift(lo, k, |xs| - (b - a)), cnt[k := cnt[k] + |xs| - (b - a)], Spliced(all, a, b, xs), tails, j)
  {
    hide Cuts, Distinct, Shift, Spliced;
    assert EndedAt(d, lo, cnt, all, tails, k) && EndedAt(d, lo, cnt, all, tails, j);
    ShiftAt(d, lo, cnt, |all|, k, |xs| - (b - a), j);
    if j < k && d[j + 1] == 0 { RootAfter(d, lo, cnt, |all|, j, k); }
    var r := Spliced(all, a, b, xs);
    forall i | a <= i < a + |xs| ensures r[i] !in tails { assert r[i] in xs; }
  }

  /** The list of one root ends before the list of the next root starts. */
  lemma RootAfter(d: seq<nat>, lo: seq<nat>, cnt: seq<nat>, n: nat, j: nat, k: nat)
    requires Cuts(d, lo, cnt, n) && j < k < |d| && d[j + 1] == 0
    ensures Hi(lo, cnt, j) < lo[k]
  {
    Before(d, lo, cnt, n, j + 1, k);
  }

  lemma SplicedEnded<T>(d: seq<nat>, lo: seq<nat>, cnt: seq<nat>, all: seq<T>, tails: set<T>,
                        k: nat, a: nat, b: nat, xs: seq<T>)
    requires Splice(d, lo, cnt, all, k, a, b, xs) && Ended(d, lo, cnt, all, tails)
    requires forall j :: k < j < |lo| ==> lo[j] + |xs| - (b - a) >= 0
    ensures Ended(d, Shift(lo, k, |xs| - (b - a)), cnt[k := cnt[k] + |xs| - (b - a)], Spliced(all, a, b, xs), tails)
  {
    hide Cuts, Distinct, Shift, Spliced;
    var lo', cnt' := Shift(lo, k, |xs| - (b - a)), cnt[k := cnt[k] + |xs| - (b - a)];
    var all' := Spliced(all, a, b, xs);
    forall j | 0 <= j < |d| ensures EndedAt(d, lo', cnt', all', tails, j) {
      SplicedEndedAt(d, lo, cnt, all, tails, k, a, b, xs, j);
    }
    assert EndedAt(d, lo, cnt, all, tails, k);
    forall t | t in tails ensures t in all' {
      var i :| 0 <= i < |all| && all[i] == t;
      assert t == all'[if i < a then i else i + |xs| - (b - a)];
    }
  }

  // ------------------------------------------------------------------ the objects of each type

  /** Only the segment of type `k` changes, by exactly the splice. */
  lemma SplicedSegment<T>(d: seq<nat>, lo: seq<nat>, cnt: seq<nat>, all: seq<T>, k: nat, a: nat, b: nat, xs: seq<T>, j: nat)
    requires Splice(d, lo, cnt, all, k, a, b, xs) && j < |d|
    requires forall j :: k < j < |lo| ==> lo[j] + |xs| - (b - a) >= 0
    ensures
      var lo', cnt' := Shift(lo, k, |xs| - (b - a)), cnt[k := cnt[k] + |xs| - (b - a)];
      var all' := all[..a] + xs + all[b..];
      && Hi(lo, cnt, j) < |all| && Hi(lo', cnt', j) < |all'|
      && all'[lo'[j] + 1..Hi(lo', cnt', j)] ==
           if j != k then all[lo[j] + 1..Hi(lo, cnt, j)] else all[lo[k] + 1..a] + xs + all[b..Hi(lo, cnt, k)]
  {
    hide Cuts, Distinct, Shift;
    ShiftAt(d, lo, cnt, |all|, k, |xs| - (b - a), j);
    if j < k {
      SliceBefore(all, a, b, xs, lo[j] + 1, Hi(lo, cnt, j));
    } else if j == k {
      SliceAround(all, a, b, xs, lo[k] + 1, Hi(lo, cnt, k));
    } else {
      SliceBehind(all, a, b, xs, lo[j] + 1, Hi(lo, cnt, j));
    }
  }

  lemma SliceBefore<T>(all: seq<T>, a: nat, b: nat, xs: seq<T>, p: nat, q: nat)
    requires a <= b <= |all| && p <= q <= a
    ensures (all[..a] + xs + all[b..])[p..q] == all[p..q]
  {
  }

  lemma SliceAround<T>(all: seq<T>, a: nat, b: nat, xs: seq<T>, p: nat, q: nat)
    requires p <= a <= b <= q <= |all|
    ensures (all[..a] + xs + all[b..])[p..q + |xs| - (b - a)] == all[p..a] + xs + all[b..q]
  {
    var r, n := all[..a] + xs + all[b..], |xs| - (b - a);
    var s, t := r[p..q + n], all[p..a] + xs + all[b..q];
    assert |s| == |t|;
    forall i | 0 <= i < |s| ensures s[i] == t[i] {
      assert s[i] == r[p + i];
      if p + i < a {
        assert r[p + i] == all[p + i] == t[i];
      } else if p + i < a + |xs| {
        assert r[p + i] == xs[p + i - a] == t[i];
      } else {
        assert r[p + i] == all[p + i - n] == t[i];
      }
    }
  }

  lemma SliceBehind<T>(all: seq<T>, a: nat, b: nat, xs: seq<T>, p: nat, q: nat)
    requires a <= b <= p <= q <= |all|
    ensures (all[..a] + xs + all[b..])[p + |xs| - (b - a)..q + |xs| - (b - a)] == all[p..q]
  {
  }

  /** A new object of a type goes in front of the type's last one. */
  function WithLastButOne<T>(s: seq<T>, x: T): (r: seq<T>) {
    if s == [] then [x] else s[..|s| - 1] + [x] + s[|s| - 1..]
  }

  /** The objects of type `k`, in list order. */
  ghost function Segment<T>(lo: seq<nat>, cnt: seq<nat>, all: seq<T>, k: nat): (r: seq<T>)
    ensures k < |lo| && k < |cnt| && Hi(lo, cnt, k) <= |all| ==> |r| == cnt[k]
  {
    if k < |lo| && k < |cnt| && Hi(lo, cnt, k) <= |all| then all[lo[k] + 1..Hi(lo, cnt, k)] else []
  }

  lemma InsertedSegment<T>(d: seq<nat>, lo: seq<nat>, cnt: seq<nat>, all: seq<T>, k: nat, p: nat, x: T, j: nat)
    requires Splice(d, lo, cnt, all, k, p, p, [x]) && j < |d|
    requires p == if cnt[k] <= 1 then lo[k] + 1 else Hi(lo, cnt, k) - 1
    ensures Segment(Shift(lo, k, 1), cnt[k := cnt[k] + 1], all[..p] + [x] + all[p..], j) ==
            if j != k then Segment(lo, cnt, all, j) else WithLastButOne(Segment(lo, cnt, all, k), x)
  {
    hide Cuts, Distinct, Shift, Splice, Segment, WithLastButOne, Hi;
    SplicedSegment(d, lo, cnt, all, k, p, p, [x], j);
    SpliceBounds(d, lo, cnt, all, k, p, p, [x]);
    SegmentIs(lo, cnt, all, j);
    SegmentIs(Shift(lo, k, 1), cnt[k := cnt[k] + 1], all[..p] + [x] + all[p..], j);
    HiIs(lo, cnt, k);
    LastButOne(all, lo[k] + 1, Hi(lo, cnt, k), p, x);
  }

  lemma SegmentIs<T>(lo: seq<nat>, cnt: seq<nat>, all: seq<T>, j: nat)
    requires j < |lo| && j < |cnt| && Hi(lo, cnt, j) < |all|
    ensures lo[j] + 1 <= Hi(lo, cnt, j) && Segment(lo, cnt, all, j) == all[lo[j] + 1..Hi(lo, cnt, j)]
  {
  }

  lemma HiIs(lo: seq<nat>, cnt: seq<nat>, j: nat)
    requires j < |lo| && j < |cnt|
    ensures Hi(lo, cnt, j) == lo[j] + cnt[j] + 1
  {
  }

  /** The parts of a stretch. */
  lemma SliceParts<T>(all: seq<T>, a: nat, m: nat, b: nat)
    requires a <= m <= b <= |all|
    ensures all[a..b][..m - a] == all[a..m] && all[a..b][m - a..] == all[m..b]
  {
  }

  /** An element in front of the last one of a stretch. */
  lemma LastButOne<T>(all: seq<T>, a: nat, b: nat, p: nat, x: T)
    requires a <= b <= |all| && p == if a == b then a else b - 1
    ensures all[a..p] + [x] + all[p..b] == WithLastButOne(all[a..b], x)
  {
    if a == b {
      assert all[a..b] == [];
    } else {
      SliceParts(all, a, b - 1, b);
    }
  }

  lemma InsertedSegments<T>(d: seq<nat>, lo: seq<nat>, cnt: seq<nat>, all: seq<T>, k: nat, p: nat, x: T)
    requires Splice(d, lo, cnt, all, k, p, p, [x])
    requires p == if cnt[k] <= 1 then lo[k] + 1 else Hi(lo, cnt, k) - 1
    ensures
      var lo', cnt', all' := Shift(lo, k, 1), cnt[k := cnt[k] + 1], all[..p] + [x] + all[p..];
      && Segment(lo', cnt', all', k) == WithLastButOne(Segment(lo, cnt, all, k), x)
      && forall j :: 0 <= j < |d| && j != k ==> Segment(lo', cnt', all', j) == Segment(lo, cnt, all, j)
  {
    hide Cuts, Distinct, Shift, Segment, WithLastButOne;
    var lo', cnt', all' := Shift(lo, k, 1), cnt[k := cnt[k] + 1], all[..p] + [x] + all[p..];
    InsertedSegment(d, lo, cnt, all, k, p, x, k);
    forall j | 0 <= j < |d| && j != k ensures Segment(lo', cnt', all', j) == Segment(lo, cnt, all, j) {
      InsertedSegment(d, lo, cnt, all, k, p, x, j);
    }
  }

  lemma SpliceBounds<T>(d: seq<nat>, lo: seq<nat>, cnt: seq<nat>, all: seq<T>, k: nat, a: nat, b: nat, xs: seq<T>)
    requires Splice(d, lo, cnt, all, k, a, b, xs)
    ensures k < |d| == |lo| == |cnt| && lo[k] < a <= b <= Hi(lo, cnt, k) < |all|
  {
  }

  lemma RemovedSegment<T>(d: seq<nat>, lo: seq<nat>, cnt: seq<nat>, all: seq<T>, k: nat, a: nat, b: nat, j: nat)
    requires Splice(d, lo, cnt, all, k, a, b, []) && j < |d|
    requires forall j :: k < j < |lo| ==> lo[j] - (b - a) >= 0
    ensures
      var i, i' := a - lo[k] - 1, b - lo[k] - 1;
      var s := Segment(lo, cnt, all, k);
      && i <= i' <= |s|
      && Segment(Shift(lo, k, -(b - a)), cnt[k := cnt[k] - (b - a)], all[..a] + [] + all[b..], j) ==
         if j != k then Segment(lo, cnt, all, j) else s[..i] + s[i'..]
  {
    hide Cuts, Distinct, Shift, Splice, Segment, Hi;
    SplicedSegment(d, lo, cnt, all, k, a, b, [], j);
    SpliceBounds(d, lo, cnt, all, k, a, b, []);
    SegmentIs(lo, cnt, all, j);
    SegmentIs(lo, cnt, all, k);
    SegmentIs(Shift(lo, k, -(b - a)), cnt[k := cnt[k] - (b - a)], all[..a] + [] + all[b..], j);
    if j == k { CutOut(all, lo[k] + 1, Hi(lo, cnt, k), a, b); }
  }

  lemma CutOut<T>(all: seq<T>, p: nat, q: nat, a: nat, b: nat)
    requires p <= a <= b <= q <= |all|
    ensures all[p..a] + [] + all[b..q] == all[p..q][..a - p] + all[p..q][b - p..]
  {
    SliceParts(all, p, a, q);
    SliceParts(all, p, b, q);
    assert all[p..a] + [] == all[p..a];
  }

  lemma RemovedSegments<T>(d: seq<nat>, lo: seq<nat>, cnt: seq<nat>, all: seq<T>, k: nat, a: nat, b: nat)
    requires Splice(d, lo, cnt, all, k, a, b, [])
    requires forall j :: k < j < |lo| ==> lo[j] - (b - a) >= 0
    ensures
      var lo', cnt', all' := Shift(lo, k, -(b - a)), cnt[k := cnt[k] - (b - a)], all[..a] + [] + all[b..];
      var i, i' := a - lo[k] - 1, b - lo[k] - 1;
      var s := Segment(lo, cnt, all, k);
      && i <= i' <= |s| && Segment(lo', cnt', all', k) == s[..i] + s[i'..]
      && forall j :: 0 <= j < |d| && j != k ==> Segment(lo', cnt', all', j) == Segment(lo, cnt, all, j)
  {
    hide Cuts, Distinct, Shift, Segment;
    var lo', cnt', all' := Shift(lo, k, -(b - a)), cnt[k := cnt[k] - (b - a)], all[..a] + [] + all[b..];
    RemovedSegment(d, lo, cnt, all, k, a, b, k);
    forall j | 0 <= j < |d| && j != k ensures Segment(lo', cnt', all', j) == Segment(lo, cnt, all, j) {
      RemovedSegment(d, lo, cnt, all, k, a, b, j);
    }
  }

  lemma GoneAt<T>(all: seq<T>, p: nat)
    requires Distinct(all) && p < |all|
    ensures forall y :: y in all[..p] + [] + all[p + 1..] <==> y in all && y != all[p]
    ensures all[p] !in all[..p] + [] + all[p + 1..]
  {
    var r := all[..p] + [] + all[p + 1..];
    forall y ensures y in r <==> y in all && y != all[p] {
      if y in all && y != all[p] {
        var i :| 0 <= i < |all| && all[i] == y;
        assert i < p ==> r[i] == y;
        assert i > p ==> r[i - 1] == y;
      }
    }
  }

  // ------------------------------------------------------------------ attaching a type

  /** Where the empty segment of a new last child of `p` lies: right at the end of the subtree of `p`. */
  ghost function StartOf(d: seq<nat>, lo: seq<nat>, cnt: seq<nat>, p: nat): (r: nat)
    requires p < |d| == |lo| == |cnt|
  {
    lo[End(d, p) - 1] + cnt[End(d, p) - 1]
  }

  /** Positions of an old type, and of the new one, after the new type has been put at `e`. */
  lemma AttachedAt(d: seq<nat>, lo: seq<nat>, cnt: seq<nat>, n: nat, p: nat, k: nat)
    requires Cuts(d, lo, cnt, n) && p < |d| && k <= |d| == |lo| == |cnt|
    ensures
      var e := End(d, p);
      var lo', cnt' := With<nat>(lo, e, StartOf(d, lo, cnt, p)), With<nat>(cnt, e, 0);
      if k == e then lo'[k] == Hi(lo, cnt, e - 1) - 1 && Hi(lo', cnt', k) == Hi(lo, cnt, e - 1)
      else
        var j := if k < e then k else k - 1;
        lo'[k] == lo[j] && cnt'[k] == cnt[j] && Hi(lo', cnt', k) == Hi(lo, cnt, j) && Hi(lo, cnt, j) < n
  {
    hide With, End, WellFormed;
  }

  lemma AttachedCuts(d: seq<nat>, lo: seq<nat>, cnt: seq<nat>, n: nat, p: nat)
    requires Cuts(d, lo, cnt, n) && p < |d| == |lo| == |cnt|
    ensures
      var e := End(d, p);
      Cuts(With<nat>(d, e, d[p] + 1), With<nat>(lo, e, StartOf(d, lo, cnt, p)), With<nat>(cnt, e, 0), n)
  {
    hide With, End, WellFormed;
    var e := End(d, p);
    var d', lo', cnt' := With<nat>(d, e, d[p] + 1), With<nat>(lo, e, StartOf(d, lo, cnt, p)), With<nat>(cnt, e, 0);
    SlotOk(d, p);
    GrownShape(d, e, d[p] + 1);
    forall k | 0 <= k < |d'| ensures Hi(lo', cnt', k) < n {
      AttachedAt(d, lo, cnt, n, p, k);
    }
    forall j, k | 0 <= j < k < |d'| && k == j + 1
      ensures lo'[k] == lo'[j] + cnt'[j] + if d'[k] > 0 then 0 else 2
    {
      AttachedAt(d, lo, cnt, n, p, j);
      AttachedAt(d, lo, cnt, n, p, k);
      assert j == e ==> d'[k] == d[e] && lo[e] == lo[e - 1] + cnt[e - 1] + if d[e] > 0 then 0 else 2;
    }
    AttachedAt(d, lo, cnt, n, p, |d|);
    AttachedAt(d, lo, cnt, n, p, 0);
  }

  /** The markers agree with the segments again exactly when the new type got the right two. */
  lemma AttachedMarked<T>(d: seq<nat>, lo: seq<nat>, cnt: seq<nat>, all: seq<T>, first: seq<T>, marker: seq<T>, p: nat, f: T, m: T)
    requires Cuts(d, lo, cnt, |all|) && p < |d| == |lo| == |cnt| && Marked(lo, cnt, all, first, marker)
    requires Hi(lo, cnt, End(d, p) - 1) < |all|
    ensures
      var e := End(d, p);
      (Marked(With<nat>(lo, e, StartOf(d, lo, cnt, p)), With<nat>(cnt, e, 0), all, With(first, e, f), With(marker, e, m)) <==>
       f == all[Hi(lo, cnt, e - 1) - 1] && m == all[Hi(lo, cnt, e - 1)])
  {
    hide With, End, Cuts;
    var e := End(d, p);
    var lo', cnt', first', marker' := With<nat>(lo, e, StartOf(d, lo, cnt, p)), With<nat>(cnt, e, 0), With(first, e, f), With(marker, e, m);
    AttachedAt(d, lo, cnt, |all|, p, e);
    forall k | 0 <= k < |lo'| && k != e ensures MarkedAt(lo', cnt', all, first', marker', k) {
      AttachedAt(d, lo, cnt, |all|, p, k);
      assert MarkedAt(lo, cnt, all, first, marker, if k < e then k else k - 1);
    }
    assert MarkedAt(lo', cnt', all, first', marker', e) <==> f == all[Hi(lo, cnt, e - 1) - 1] && m == all[Hi(lo, cnt, e - 1)];
  }

  lemma AttachedEnded<T>(d: seq<nat>, lo: seq<nat>, cnt: seq<nat>, all: seq<T>, tails: set<T>, p: nat)
    requires Cuts(d, lo, cnt, |all|) && p < |d| == |lo| == |cnt| && Ended(d, lo, cnt, all, tails)
    ensures
      var e := End(d, p);
      Ended(With<nat>(d, e, d[p] + 1), With<nat>(lo, e, StartOf(d, lo, cnt, p)), With<nat>(cnt, e, 0), all, tails)
  {
    hide With, End, Cuts;
    var e := End(d, p);
    var d', lo', cnt' := With<nat>(d, e, d[p] + 1), With<nat>(lo, e, StartOf(d, lo, cnt, p)), With<nat>(cnt, e, 0);
    forall k | 0 <= k < |d'| ensures EndedAt(d', lo', cnt', all, tails, k) {
      AttachedAt(d, lo, cnt, |all|, p, k);
      assert EndedAt(d, lo, cnt, all, tails, if k < e then k else k - 1);
      assert k + 1 < |d'| && k + 1 != e ==> d'[k + 1] == d[if k < e then k + 1 else k];
    }
  }

  lemma AttachedLast<T>(d: seq<nat>, lo: seq<nat>, cnt: seq<nat>, all: seq<T>, last: seq<T>, p: nat)
    requires Cuts(d, lo, cnt, |all|) && p < |d| == |lo| == |cnt| == |last| && ExactLast(d, lo, cnt, all, last)
    ensures
      var e := End(d, p);
      ExactLast(With<nat>(d, e, d[p] + 1), With<nat>(lo, e, StartOf(d, lo, cnt, p)), With<nat>(cnt, e, 0), all, With(last, e, last[p]))
  {
    hide With, End, Cuts, WellFormed, LastAt, StartOf;
    var e := End(d, p);
    var d', lo', cnt', last' := With<nat>(d, e, d[p] + 1), With<nat>(lo, e, StartOf(d, lo, cnt, p)), With<nat>(cnt, e, 0), With(last, e, last[p]);
    forall k | 0 <= k < |d'| ensures LastAt(d', lo', cnt', all, last', k) {
      AttachedLastAt(d, lo, cnt, all, last, p, k);
    }
  }

  lemma AttachedLastAt<T>(d: seq<nat>, lo: seq<nat>, cnt: seq<nat>, all: seq<T>, last: seq<T>, p: nat, k: nat)
    requires Cuts(d, lo, cnt, |all|) && p < |d| == |lo| == |cnt| == |last| && ExactLast(d, lo, cnt, all, last) && k <= |d|
    ensures
      var e := End(d, p);
      LastAt(With<nat>(d, e, d[p] + 1), With<nat>(lo, e, StartOf(d, lo, cnt, p)), With<nat>(cnt, e, 0), all, With(last, e, last[p]), k)
  {
    hide With, End, Cuts, WellFormed, Slot, StartOf;
    var e := End(d, p);
    var d' := With<nat>(d, e, d[p] + 1);
    CutsShape(d, lo, cnt, |all|);
    SlotOk(d, p);
    GrownShape(d, e, d[p] + 1);
    var j := if k == e then p else if k < e then k else k - 1;
    assert LastAt(d, lo, cnt, all, last, j);
    GrownEnd(d, e, d[p] + 1, j);
    AttachedAt(d, lo, cnt, |all|, p, End(d', k) - 1);
  }

  lemma CutsShape(d: seq<nat>, lo: seq<nat>, cnt: seq<nat>, n: nat)
    requires Cuts(d, lo, cnt, n)
    ensures WellFormed(d)
  {
  }

  lemma RootedCuts(d: seq<nat>, lo: seq<nat>, cnt: seq<nat>, n: nat)
    requires Cuts(d, lo, cnt, n)
    ensures Cuts(With<nat>(d, |d|, 0), With<nat>(lo, |d|, n), With<nat>(cnt, |d|, 0), n + 2)
  {
    hide With, End, WellFormed;
    var d', lo', cnt' := With<nat>(d, |d|, 0), With<nat>(lo, |d|, n), With<nat>(cnt, |d|, 0);
    SlotOk(d, -1);
    GrownShape(d, |d|, 0);
    forall k | 0 <= k < |d'| ensures Hi(lo', cnt', k) < n + 2 {
      assert k < |d| ==> Hi(lo', cnt', k) == Hi(lo, cnt, k);
    }
    forall j, k | 0 <= j < k < |d'| && k == j + 1
      ensures lo'[k] == lo'[j] + cnt'[j] + if d'[k] > 0 then 0 else 2
    {
      assert k == |d| ==> n == Hi(lo, cnt, j) + 1;
      assert k < |d| ==> lo[k] == lo[j] + cnt[j] + if d[k] > 0 then 0 else 2;
    }
    assert |d| > 0 ==> lo'[0] == lo[0];
  }

  /** A new root brings an empty list of its own, two sentinels `f` and `m`. */
  lemma RootedLayout<T>(d: seq<nat>, lo: seq<nat>, cnt: seq<nat>, all: seq<T>, tails: set<T>, first: seq<T>, marker: seq<T>, f: T, m: T)
    requires Cuts(d, lo, cnt, |all|) && Distinct(all) && Ended(d, lo, cnt, all, tails) && Marked(lo, cnt, all, first, marker)
    requires f !in all && m !in all && f != m && f !in tails
    ensures
      var n := |d|;
      var d', lo', cnt', all' := With<nat>(d, n, 0), With<nat>(lo, n, |all|), With<nat>(cnt, n, 0), all + [f, m];
      && Cuts(d', lo', cnt', |all'|) && Distinct(all') && Ended(d', lo', cnt', all', tails + {m})
      && Marked(lo', cnt', all', With(first, n, f), With(marker, n, m))
  {
    hide With, Cuts;
    RootedCuts(d, lo, cnt, |all|);
    var n := |d|;
    var d', lo', cnt', all' := With<nat>(d, n, 0), With<nat>(lo, n, |all|), With<nat>(cnt, n, 0), all + [f, m];
    var first', marker' := With(first, n, f), With(marker, n, m);
    assert forall j :: 0 <= j < n ==> lo'[j] == lo[j] && cnt'[j] == cnt[j] && d'[j] == d[j];
    assert Hi(lo', cnt', n) == |all| + 1;
    forall k | 0 <= k < |lo'| ensures MarkedAt(lo', cnt', all', first', marker', k) {
      assert k < n ==> MarkedAt(lo, cnt, all, first, marker, k);
    }
    forall k | 0 <= k < |d'| ensures EndedAt(d', lo', cnt', all', tails + {m}, k) {
      if k < n {
        assert EndedAt(d, lo, cnt, all, tails, k);
        forall i | lo'[k] <= i < Hi(lo', cnt', k) ensures all'[i] !in tails + {m} { assert all'[i] == all[i]; }
      }
    }
    forall t | t in tails + {m} ensures t in all' {
      assert t == m ==> all'[|all| + 1] == m;
    }
  }

  lemma RootedLast<T>(d: seq<nat>, lo: seq<nat>, cnt: seq<nat>, all: seq<T>, last: seq<T>, f: T, m: T)
    requires Cuts(d, lo, cnt, |all|) && ExactLast(d, lo, cnt, all, last)
    ensures ExactLast(With<nat>(d, |d|, 0), With<nat>(lo, |d|, |all|), With<nat>(cnt, |d|, 0), all + [f, m], With(last, |d|, m))
  {
    hide With, End, Cuts, WellFormed;
    var n := |d|;
    var d', lo', cnt', all', last' := With<nat>(d, n, 0), With<nat>(lo, n, |all|), With<nat>(cnt, n, 0), all + [f, m], With(last, n, m);
    CutsShape(d, lo, cnt, |all|);
    SlotOk(d, -1);
    GrownShape(d, n, 0);
    forall k | 0 <= k < |d'| ensures LastAt(d', lo', cnt', all', last', k) {
      if k < n {
        assert LastAt(d, lo, cnt, all, last, k);
        GrownEnd(d, n, 0, k);
      }
    }
  }

  /** Attaching moves no object: the new type is empty and the others keep theirs. */
  lemma AttachedSegments<T>(d: seq<nat>, lo: seq<nat>, cnt: seq<nat>, all: seq<T>, p: nat)
    requires Cuts(d, lo, cnt, |all|) && p < |d| == |lo| == |cnt|
    ensures
      var e := End(d, p);
      var lo', cnt' := With<nat>(lo, e, StartOf(d, lo, cnt, p)), With<nat>(cnt, e, 0);
      && Segment(lo', cnt', all, e) == []
      && forall j :: 0 <= j < |d| ==> Segment(lo', cnt', all, Moved(e, j)) == Segment(lo, cnt, all, j)
  {
    hide With, End, Cuts;
    var e := End(d, p);
    AttachedAt(d, lo, cnt, |all|, p, e);
    var lo', cnt' := With<nat>(lo, e, StartOf(d, lo, cnt, p)), With<nat>(cnt, e, 0);
    forall j | 0 <= j < |d| ensures Segment(lo', cnt', all, Moved(e, j)) == Segment(lo, cnt, all, j) {
      AttachedAt(d, lo, cnt, |all|, p, Moved(e, j));
    }
  }

  lemma RootedSegments<T>(d: seq<nat>, lo: seq<nat>, cnt: seq<nat>, all: seq<T>, f: T, m: T)
    requires Cuts(d, lo, cnt, |all|) && |d| == |lo| == |cnt|
    ensures
      var lo', cnt' := With<nat>(lo, |d|, |all|), With<nat>(cnt, |d|, 0);
      && Segment(lo', cnt', all + [f, m], |d|) == []
      && forall j :: 0 <= j < |d| ==> Segment(lo', cnt', all + [f, m], j) == Segment(lo, cnt, all, j)
  {
    hide With, Cuts;
    var lo', cnt' := With<nat>(lo, |d|, |all|), With<nat>(cnt, |d|, 0);
    forall j | 0 <= j < |d| ensures Segment(lo', cnt', all + [f, m], j) == Segment(lo, cnt, all, j) {
      BoundAt(d, lo, cnt, |all|, j);
    }
  }

  // ------------------------------------------------------------------ a type with its subtypes

  /** The objects of the types in `[a, b)`, type after type. */
  ghost function Segments<T>(lo: seq<nat>, cnt: seq<nat>, all: seq<T>, a: nat, b: nat): (r: seq<T>)
    requires a <= b
    decreases b - a
  {
    if a == b then [] else Segment(lo, cnt, all, a) + Segments(lo, cnt, all, a + 1, b)
  }

  lemma NextStart(d: seq<nat>, lo: seq<nat>, cnt: seq<nat>, n: nat, k: nat)
    requires Cuts(d, lo, cnt, n) && k + 1 < |d| && d[k + 1] > 0
    ensures lo[k + 1] == lo[k] + cnt[k]
  {
  }

  /** Within one root, consecutive types lie next to each other in the list. */
  lemma {:induction false} SegmentsTogether<T>(d: seq<nat>, lo: seq<nat>, cnt: seq<nat>, all: seq<T>, a: nat, b: nat)
    requires Cuts(d, lo, cnt, |all|) && a < b <= |d| == |lo| == |cnt|
    requires forall j :: a < j < b ==> d[j] > 0
    ensures lo[a] < Hi(lo, cnt, b - 1) < |all|
    ensures Segments(lo, cnt, all, a, b) == all[lo[a] + 1..Hi(lo, cnt, b - 1)]
    decreases b - a
  {
    hide Cuts, Segment;
    BoundAt(d, lo, cnt, |all|, b - 1);
    BoundAt(d, lo, cnt, |all|, a);
    SegmentIs(lo, cnt, all, a);
    Before(d, lo, cnt, |all|, a, b - 1);
    if a + 1 < b {
      SegmentsTogether(d, lo, cnt, all, a + 1, b);
      NextStart(d, lo, cnt, |all|, a);
      assert all[lo[a] + 1..Hi(lo, cnt, b - 1)] ==
             all[lo[a] + 1..Hi(lo, cnt, a)] + all[lo[a + 1] + 1..Hi(lo, cnt, b - 1)];
    }
  }

  /** No sentinel sits between the objects of types of one root. */
  lemma {:induction false} NoTailWithin<T>(d: seq<nat>, lo: seq<nat>, cnt: seq<nat>, all: seq<T>, tails: set<T>, a: nat, b: nat, i: nat)
    requires Cuts(d, lo, cnt, |all|) && Ended(d, lo, cnt, all, tails) && a < b <= |d| == |lo| == |cnt|
    requires forall j :: a < j < b ==> d[j] > 0
    requires lo[a] <= i < Hi(lo, cnt, b - 1)
    ensures i < |all| && all[i] !in tails
    decreases b - a
  {
    hide WellFormed;
    assert EndedAt(d, lo, cnt, all, tails, a);
    if Hi(lo, cnt, a) <= i {
      assert b > a + 1;
      assert lo[a + 1] == lo[a] + cnt[a];
      NoTailWithin(d, lo, cnt, all, tails, a + 1, b, i);
    }
  }

  /** With roots and direct subtypes only, no uncle can share a border: it would belong to another root. */
  lemma TwoLevels<T>(d: seq<nat>, lo: seq<nat>, cnt: seq<nat>, all: seq<T>, last: seq<T>, k: nat)
    requires Cuts(d, lo, cnt, |all|) && Distinct(all) && ExactLast(d, lo, cnt, all, last) && k < |d|
    requires forall j :: 0 <= j < |d| ==> d[j] <= 1
    requires Hi(lo, cnt, k) < |all|
    ensures !Uncle(d, last, k, all[lo[k] + 1])
  {
    hide Cuts, Distinct, End;
    if Uncle(d, last, k, all[lo[k] + 1]) {
      var j :| 0 <= j < |d| && UncleAt(d, last, k, all[lo[k] + 1], j);
      assert LastAt(d, lo, cnt, all, last, j);
      RootAfter(d, lo, cnt, |all|, End(d, j) - 1, k);
      DistinctAt(all, lo[k] + 1, Hi(lo, cnt, End(d, j) - 1));
    }
  }

  lemma SmallEnds()
    ensures var d := [0, 1, 1, 2]; End(d, 0) == 4 && End(d, 1) == 2 && End(d, 2) == 4 && End(d, 3) == 4
  {
    hide End;
    var d: seq<nat> := [0, 1, 1, 2];
    EndUnique(d, 0, 4);
    EndUnique(d, 1, 2);
    EndUnique(d, 2, 4);
    EndUnique(d, 3, 4);
  }
}
