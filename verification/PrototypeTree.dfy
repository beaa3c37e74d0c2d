/**
  The prototype tree of the object store and the proxy list it cuts into
  segments.  Every type is a node; all objects of a type hierarchy live in one
  doubly linked list, in which the objects of a type are the elements strictly
  between its `opFirst` and its `opMarker`.
*/
module PrototypeTree {
  import opened ForestShape
  import opened SegmentLayout
  import opened ForestGrowth

  class ObjectProxy {
    var prev: ObjectProxy?
    var next: ObjectProxy?

    constructor ()
      ensures prev == null && next == null
    {
      prev, next := null, null;
    }

    /** Links this proxy in front of `successor`. */
    method Link(successor: ObjectProxy)
      requires successor != this && successor.prev != this
      modifies this`prev, this`next, successor`prev, (if successor.prev == null then {} else {successor.prev})`next
      ensures prev == old(successor.prev) && next == successor
      ensures successor.prev == this
      ensures old(successor.prev) != null ==> old(successor.prev).next == this
    {
      prev := successor.prev;
      next := successor;
      if successor.prev != null {
        successor.prev.next := this;
      }
      successor.prev := this;
    }

    method Unlink()
      requires prev != this && next != this
      modifies this`prev, this`next, (if prev == null then {} else {prev})`next, (if next == null then {} else {next})`prev
      ensures prev == null && next == null
      ensures old(prev) != null ==> old(prev).next == old(next)
      ensures old(next) != null ==> old(next).prev == old(prev)
    {
      if prev != null {
        prev.next := next;
      }
      if next != null {
        next.prev := prev;
      }
      prev, next := null, null;
    }
  }

  /** A node of the tree, or one of the two sentinels that bracket a list of siblings. */
  class Node {
    var parent: Node?
    var prev: Node?
    var next: Node?
    var first: Node?
    var last: Node?
    var depth: nat
    var opFirst: ObjectProxy?
    var opMarker: ObjectProxy?
    var opLast: ObjectProxy?
    var count: nat
    // the node a sentinel belongs to
    ghost var owner: Node?

    constructor Sentinel()
      ensures parent == null && prev == null && next == null && first == null && last == null
      ensures depth == 0 && opFirst == null && opMarker == null && opLast == null && count == 0
      ensures owner == null
    {
      parent, prev, next, first, last := null, null, null, null, null;
      depth, opFirst, opMarker, opLast, count := 0, null, null, null, 0;
      owner := null;
    }

    constructor Type()
      ensures parent == null && prev == null && next == null
      ensures first != null && last != null && fresh(first) && fresh(last) && first != last && first != this && last != this
      ensures first.first == null && first.last == null && last.first == null && last.last == null
      ensures first.next == last && last.prev == first && first.prev == null && last.next == null
      ensures first.owner == this && last.owner == this && owner == null
      ensures depth == 0 && opFirst == null && opMarker == null && opLast == null && count == 0
    {
      parent, prev, next := null, null, null;
      depth, opFirst, opMarker, opLast, count := 0, null, null, null, 0;
      owner := null;
      var f := new Node.Sentinel();
      var l := new Node.Sentinel();
      first, last := f, l;
      new;
      first.next := last;
      last.prev := first;
      first.owner := this;
      last.owner := this;
    }

    /** Gives a new child the end of this type's subtree as its own, empty segment. */
    method Endow(c: Node)
      requires c != this && opFirst != null && opLast != null
      modifies c`opFirst, c`opMarker, c`opLast
      ensures c.opFirst == if opFirst.next == opLast then opFirst else opLast.prev
      ensures c.opMarker == opLast && c.opLast == opLast
    {
      if opFirst.next == opLast {
        c.opFirst := opFirst;
      } else {
        c.opFirst := opLast.prev;
      }
      c.opMarker := opLast;
      c.opLast := opLast;
    }

    /** Gives a new root an empty list of its own. */
    method OwnList() returns (f: ObjectProxy, m: ObjectProxy)
      modifies this`opFirst, this`opMarker, this`opLast
      ensures fresh(f) && fresh(m) && f != m && opFirst == f && opMarker == m && opLast == m
      ensures f.prev == null && f.next == m && m.prev == f && m.next == null
    {
      f := new ObjectProxy();
      m := new ObjectProxy();
      opFirst, opLast, opMarker := f, m, m;
      f.next := m;
      m.prev := f;
    }

    method Redirect(was: ObjectProxy?, now: ObjectProxy?, level: nat)
      modifies this`opMarker, this`opLast
      ensures opMarker == if old(opMarker) == was then now else old(opMarker)
      ensures opLast == if depth >= level && old(opLast) == was then now else old(opLast)
    {
      if opMarker == was {
        opMarker := now;
      }
      if depth >= level && opLast == was {
        opLast := now;
      }
    }
  }

  /** The operations of a run, on types and objects given by position. */
  datatype Operation =
    | Add(kind: nat)
    | Drop(kind: nat, index: nat)
    | Empty(kind: nat)
    | AddRoot
    | AddChild(parent: nat)
  {
    predicate Attaches() {
      AddRoot? || AddChild?
    }
  }

  class Tree {
    var first: Node
    var last: Node
    ghost var nodes: seq<Node>        // all types, in pre-order
    ghost var d: seq<nat>             // their depths
    ghost var repr: set<Node>         // the types and all sentinels
    ghost var all: seq<ObjectProxy>   // the proxy lists of all roots, one after the other
    ghost var lo: seq<nat>            // where in `all` each type's `opFirst` is
    ghost var cnt: seq<nat>           // how many objects each type has
    ghost var tails: set<ObjectProxy> // the sentinels that end a list

    // ---------------------------------------------------------------- tree pointers

    /** Types carry two sentinels of their own; sentinels carry none. */
    ghost predicate Kinds()
      reads this`first, this`last, this`nodes, this`d, this`repr
      reads repr`first, repr`last, repr`depth, repr`owner
    {
      && first in repr && last in repr && first != last
      && first.first == null && last.first == null && first.owner == null && last.owner == null
      && |d| == |nodes| && WellFormed(d)
      && (forall i, j :: 0 <= i < j < |nodes| ==> nodes[i] != nodes[j])
      && (forall k :: 0 <= k < |nodes| ==> nodes[k] in repr && nodes[k].depth == d[k] && OwnsSentinels(nodes[k]))
    }

    ghost predicate OwnsSentinels(n: Node)
      requires n in repr
      reads this`repr, repr`first, repr`last, repr`owner
    {
      && n.first != null && n.last != null && n.first != n.last
      && n.first in repr && n.last in repr
      && n.first.first == null && n.last.first == null
      && n.first.owner == n && n.last.owner == n
    }

    ghost function ListBegin(k: nat): (n: Node)
      requires Kinds() && k < |nodes|
      reads this`first, this`last, this`nodes, this`d, this`repr
      reads repr`first, repr`last, repr`depth, repr`owner
    {
      if d[k] == 0 then first else nodes[Parent(d, k)].first
    }

    ghost function ListEnd(k: nat): (n: Node)
      requires Kinds() && k < |nodes|
      reads this`first, this`last, this`nodes, this`d, this`repr
      reads repr`first, repr`last, repr`depth, repr`owner
    {
      if d[k] == 0 then last else nodes[Parent(d, k)].last
    }

    /** Parent and sibling pointers of one type. */
    ghost predicate Placed(k: nat)
      requires Kinds() && k < |nodes|
      reads this`first, this`last, this`nodes, this`d, this`repr
      reads repr`first, repr`last, repr`depth, repr`owner, repr`parent, repr`prev, repr`next
    {
      NextPlaced(k) && PrevPlaced(k)
    }

    ghost predicate NextPlaced(k: nat)
      requires Kinds() && k < |nodes|
      reads this`first, this`last, this`nodes, this`d, this`repr
      reads repr`first, repr`last, repr`depth, repr`owner, repr`parent, repr`prev, repr`next
    {
      && nodes[k].parent == (if d[k] == 0 then null else nodes[Parent(d, k)])
      && nodes[k].next == (if HasNext(k) then nodes[End(d, k)] else ListEnd(k))
    }

    ghost predicate HasNext(k: nat)
      requires k < |d|
      reads this`d
    {
      End(d, k) < |d| && d[End(d, k)] == d[k]
    }

    ghost predicate PrevPlaced(k: nat)
      requires Kinds() && k < |nodes|
      reads this`first, this`last, this`nodes, this`d, this`repr
      reads repr`first, repr`last, repr`depth, repr`owner, repr`parent, repr`prev, repr`next
    {
      nodes[k].prev == if k > 0 && d[k] <= d[k - 1] then nodes[OlderSibling(d, k)] else ListBegin(k)
    }

    /** The sentinels bracket the children of one type. */
    ghost predicate Bracketed(k: nat)
      requires Kinds() && k < |nodes|
      reads this`first, this`last, this`nodes, this`d, this`repr
      reads repr`first, repr`last, repr`depth, repr`owner, repr`parent, repr`prev, repr`next
    {
      var n, e := nodes[k], End(d, k);
      && n.first.prev == null
      && n.first.next == (if k + 1 < e then nodes[k + 1] else n.last)
      && n.last.prev == (if k + 1 < e then nodes[LastChild(d, k)] else n.first)
    }

    /** All tree pointers agree with the pre-order sequence of types. */
    ghost predicate Linked()
      reads this`first, this`last, this`nodes, this`d, this`repr
      reads repr`first, repr`last, repr`depth, repr`owner, repr`parent, repr`prev, repr`next
    {
      && Kinds()
      && (forall k :: 0 <= k < |nodes| ==> Placed(k) && Bracketed(k))
      && first.prev == null && first.parent == null && first.depth == 0 && last.next == null && last.parent == null
      && first.next == (if |nodes| > 0 then nodes[0] else last)
      && last.prev == (if |nodes| > 0 then nodes[LastRoot(d)] else first)
    }

    /** One step of the climb: a last child leads to its parent, any other node to the pre-order successor. */
    lemma Climb(j: nat, k: nat)
      requires Linked() && j <= k < |nodes| && End(d, j) == k + 1
      ensures nodes[j].parent != null && nodes[j].next == nodes[j].parent.last ==>
                d[j] > 0 && nodes[j].parent == nodes[Parent(d, j)] && End(d, Parent(d, j)) == k + 1
      ensures nodes[j].parent == null || nodes[j].next != nodes[j].parent.last ==>
                nodes[j].next == if k + 1 < |nodes| then nodes[k + 1] else last
    {
      assert Placed(j);
      if d[j] > 0 {
        ParentHolds(d, j);
        assert OwnsSentinels(nodes[Parent(d, j)]);
        if End(d, j) < End(d, Parent(d, j)) {
          assert OwnsSentinels(nodes[k + 1]);
        }
      }
    }

    /** What pre-order traversal reaches after `k` steps from the first root. */
    ghost function NodeAt(k: nat): (n: Node?)
      reads this`nodes, this`last
      ensures k < |nodes| ==> n == nodes[k]
      ensures k == |nodes| ==> n == last
      ensures k > |nodes| ==> n == null
    {
      if k < |nodes| then nodes[k] else if k == |nodes| then last else null
    }

    lemma Basics()
      requires Linked()
      ensures |d| == |nodes| && WellFormed(d)
      ensures forall i, j :: 0 <= i < j < |nodes| ==> nodes[i] != nodes[j]
      ensures last !in nodes
      ensures last.first == null && last.parent == null && last.next == null
    {
    }

    /** One step of the descent: a type with children leads to the first or last of them, a leaf ends its own subtree. */
    lemma Descend(j: nat, k: nat)
      requires Linked() && j < k <= |nodes| && End(d, j) == k
      ensures nodes[j].first != null && nodes[j].last != null
      ensures nodes[j].first.next != nodes[j].last ==>
                j + 1 < k && nodes[j].first.next == nodes[j + 1] && nodes[j].last.prev == nodes[LastChild(d, j)]
      ensures nodes[j].first.next == nodes[j].last ==> j == k - 1
    {
      assert Bracketed(j);
      assert j + 1 < k ==> OwnsSentinels(nodes[j + 1]);
    }

    /** The pre-order successor; after the last type comes the end sentinel, and after that nothing. */
    method NextNode(n: Node, ghost k: nat) returns (r: Node?)
      requires Linked() && k <= |nodes| && n == NodeAt(k)
      ensures r == NodeAt(k + 1)
    {
      hide *;
      Basics();
      ghost var j: nat := k;
      if k < |nodes| {
        Descend(k, End(d, k));
      }
      if n.first != null && n.first.next != n.last {
        return n.first.next;
      }
      var node := n;
      while node.parent != null && node.next == node.parent.last
        invariant j <= k && node == NodeAt(j)
        invariant k < |nodes| ==> End(d, j) == k + 1
        invariant k == |nodes| ==> j == k
        decreases j
      {
        Climb(j, k);
        j := Parent(d, j);
        node := node.parent;
      }
      if k < |nodes| {
        Climb(j, k);
      }
      return node.next;
    }

    /** Where the previous pointer of a type leads. */
    lemma Backward(k: nat)
      requires Linked() && k < |nodes|
      ensures nodes[k].prev != null
      ensures nodes[k].prev.prev != null ==>
                k > 0 && d[k] <= d[k - 1] && nodes[k].prev == nodes[OlderSibling(d, k)]
      ensures nodes[k].prev.prev == null ==> nodes[k].parent == if k > 0 then nodes[k - 1] else null
    {
      hide End, LastChild, LastRoot, OlderSibling, Parent, ListEnd;
      assert Placed(k);
      if k > 0 && d[k] <= d[k - 1] {
        assert Placed(OlderSibling(d, k));
      } else if k > 0 {
        ParentUnique(d, k, k - 1);
        assert Bracketed(k - 1);
      }
    }

    /** The type whose subtree ends where the previous step from place `k` starts to descend. */
    ghost function Before(k: nat): (j: nat)
      requires WellFormed(d) && 0 < k <= |d| && (k < |d| ==> d[k] <= d[k - 1])
      reads this`d
      ensures j < k && End(d, j) == k
    {
      if k < |d| then OlderSibling(d, k) else LastRoot(d)
    }

    /** Where the previous pointer leads from a type, or from the end sentinel. */
    lemma BackwardFrom(k: nat)
      requires Linked() && k <= |nodes|
      ensures |d| == |nodes| && WellFormed(d)
      ensures var n := NodeAt(k);
        && n.prev != null
        && (n.prev.prev != null ==> k > 0 && (k < |d| ==> d[k] <= d[k - 1]) && n.prev == nodes[Before(k)])
        && (n.prev.prev == null ==> n.parent == if k > 0 then nodes[k - 1] else null)
    {
      hide End, LastChild, OlderSibling, Parent, ListEnd;
      if k < |nodes| {
        Backward(k);
      } else if k > 0 {
        Backward(LastRoot(d));
      }
    }

    /** The pre-order predecessor of a type or of the end sentinel; the first type has none, nor has the end of an empty tree. */
    method PreviousNode(n: Node, ghost k: nat) returns (r: Node?)
      requires Linked() && k <= |nodes| && n == NodeAt(k)
      ensures r == if k > 0 then nodes[k - 1] else null
    {
      hide *;
      BackwardFrom(k);
      if n.prev != null && n.prev.prev != null {
        var node := n.prev;
        ghost var j := Before(k);
        Descend(j, k);
        while node.last != null && node.first.next != node.last
          invariant 0 <= j < k && node == nodes[j] && End(d, j) == k && node.first != null
          decreases k - j
        {
          Descend(j, k);
          node := node.last.prev;
          j := LastChild(d, j);
          Descend(j, k);
        }
        Descend(j, k);
        return node;
      }
      return n.parent;
    }

    /** Going back from the end sentinel visits every type once, in the reverse of the order of the steps forward. */
    method TraverseBack() returns (visited: seq<Node>)
      requires Linked()
      ensures |visited| == |nodes| && forall i :: 0 <= i < |nodes| ==> visited[i] == nodes[|nodes| - 1 - i]
    {
      hide *;
      Basics();
      visited := [];
      var node: Node? := PreviousNode(last, |nodes|);
      while node != null
        invariant |visited| <= |nodes|
        invariant node == if |visited| < |nodes| then nodes[|nodes| - 1 - |visited|] else null
        invariant forall i :: 0 <= i < |visited| ==> visited[i] == nodes[|nodes| - 1 - i]
        decreases |nodes| - |visited|
      {
        var previous := PreviousNode(node, |nodes| - 1 - |visited|);
        visited := visited + [node];
        node := previous;
      }
    }

    /** A step forward is undone by a step back, also the one that reaches the end sentinel. */
    method NextAndBack(n: Node, ghost k: nat) returns (r: Node?)
      requires Linked() && k < |nodes| && n == nodes[k]
      ensures r == n
    {
      hide *;
      var next := NextNode(n, k);
      r := PreviousNode(next, k + 1);
    }

    // ---------------------------------------------------------------- list pointers

    ghost function Firsts(n: nat := |nodes|): (r: seq<ObjectProxy?>)
      requires n <= |nodes|
      reads this`nodes, nodes`opFirst
      ensures |r| == n && forall k :: 0 <= k < n ==> r[k] == nodes[k].opFirst
    {
      if n == 0 then [] else Firsts(n - 1) + [nodes[n - 1].opFirst]
    }

    ghost function Markers(n: nat := |nodes|): (r: seq<ObjectProxy?>)
      requires n <= |nodes|
      reads this`nodes, nodes`opMarker
      ensures |r| == n && forall k :: 0 <= k < n ==> r[k] == nodes[k].opMarker
    {
      if n == 0 then [] else Markers(n - 1) + [nodes[n - 1].opMarker]
    }

    ghost function Lasts(n: nat := |nodes|): (r: seq<ObjectProxy?>)
      requires n <= |nodes|
      reads this`nodes, nodes`opLast
      ensures |r| == n && forall k :: 0 <= k < n ==> r[k] == nodes[k].opLast
    {
      if n == 0 then [] else Lasts(n - 1) + [nodes[n - 1].opLast]
    }

    ghost predicate Counted()
      reads this`nodes, this`cnt, nodes`count
    {
      |cnt| == |nodes| && forall k :: 0 <= k < |nodes| ==> nodes[k].count == cnt[k]
    }

    /** The repair in front of a type: pointers to `was` now point to `now`. */
    method AdjustLeftMarker(root: Node, was: ObjectProxy?, now: ObjectProxy?, ghost k: nat)
      requires Linked() && k < |nodes| && nodes[k] == root
      modifies nodes`opMarker, nodes`opLast
      ensures Linked() && LeftAdjusted(old(Markers()), old(Lasts()), k, was, now) && root.opMarker == old(root.opMarker)
    {
      hide *;
      Basics();
      ghost var m0, l0 := Markers(), Lasts();
      ghost var every, deep := Everywhere(|d|), AsDeep(d, d[k]);
      ReplacedAll<ObjectProxy?>(m0, l0, d, k, was, now);
      var node := PreviousNode(root, k);
      ghost var j: int := k - 1;
      while node != null
        invariant Linked() && -1 <= j < k && root.opMarker == old(root.opMarker)
        invariant node == if j >= 0 then nodes[j] else null
        invariant Markers() == ReplaceIn<ObjectProxy?>(m0, every, j + 1, k, was, now)
        invariant Lasts() == ReplaceIn<ObjectProxy?>(l0, deep, j + 1, k, was, now)
        decreases j
      {
        RedirectDeep(root, node, was, now, m0, l0, every, deep, j, k);
        node := PreviousNode(node, j);
        j := j - 1;
      }
      AdjustedBy(m0, l0, k, was, now);
    }

    /** In front of type `k` end markers, and for types as deep also ends of subtrees, point to `now` instead of `was`. */
    ghost predicate LeftAdjusted(m0: seq<ObjectProxy?>, l0: seq<ObjectProxy?>, k: nat, was: ObjectProxy?, now: ObjectProxy?)
      reads this`nodes, this`d, nodes`opMarker, nodes`opLast
    {
      && k < |d| == |nodes| == |m0| == |l0|
      && Markers() == ReplaceBefore(m0, k, was, now) && Lasts() == ReplaceDeep(l0, d, k, was, now)
    }

    lemma AdjustedBy(m0: seq<ObjectProxy?>, l0: seq<ObjectProxy?>, k: nat, was: ObjectProxy?, now: ObjectProxy?)
      requires k < |d| == |nodes| == |m0| == |l0|
      requires Markers() == ReplaceBefore(m0, k, was, now) && Lasts() == ReplaceDeep(l0, d, k, was, now)
      ensures LeftAdjusted(m0, l0, k, was, now)
    {
      hide ReplaceBefore, ReplaceDeep, Markers, Lasts;
    }

    /** Behind type `k` the elements in front of segments are `now` instead of `was`. */
    ghost predicate RightAdjusted(f0: seq<ObjectProxy?>, k: nat, was: ObjectProxy?, now: ObjectProxy?)
      reads this`nodes, nodes`opFirst
    {
      Firsts() == ReplaceAfter(f0, k, was, now)
    }

    /** Redirects the pointers of one type, after those between it and `k`. */
    method RedirectDeep(root: Node, node: Node, was: ObjectProxy?, now: ObjectProxy?, ghost m0: seq<ObjectProxy?>,
                        ghost l0: seq<ObjectProxy?>, ghost every: seq<bool>, ghost deep: seq<bool>, ghost j: nat, ghost k: nat)
      requires Linked() && j < k < |nodes| == |d| && nodes[k] == root && nodes[j] == node
      requires |m0| == |l0| == |nodes| && every == Everywhere(|d|) && deep == AsDeep(d, d[k])
      requires Markers() == ReplaceIn<ObjectProxy?>(m0, every, j + 1, k, was, now)
      requires Lasts() == ReplaceIn<ObjectProxy?>(l0, deep, j + 1, k, was, now)
      modifies node`opMarker, node`opLast
      ensures Linked()
      ensures Markers() == ReplaceIn<ObjectProxy?>(m0, every, j, k, was, now)
      ensures Lasts() == ReplaceIn<ObjectProxy?>(l0, deep, j, k, was, now)
    {
      hide *;
      DepthAt(k);
      ReplaceOne<ObjectProxy?>(m0, every, j, k, was, now);
      ReplaceOne<ObjectProxy?>(l0, deep, j, k, was, now);
      RedirectAt(node, was, now, root.depth, j);
    }

    /** Redirects the pointers of one type. */
    method RedirectAt(node: Node, was: ObjectProxy?, now: ObjectProxy?, level: nat, ghost j: nat)
      requires Linked() && j < |nodes| && nodes[j] == node
      modifies node`opMarker, node`opLast
      ensures |d| == |nodes| && Linked()
      ensures Markers() == var m := old(Markers()); m[j := if m[j] == was then now else m[j]]
      ensures Lasts() == var l := old(Lasts()); l[j := if d[j] >= level && l[j] == was then now else l[j]]
    {
      hide *;
      Basics();
      DepthAt(j);
      node.Redirect(was, now, level);
      assert forall i {:trigger nodes[i]} :: 0 <= i < |nodes| && i != j ==> nodes[i] != node;
    }

    lemma DepthAt(k: nat)
      requires Linked() && k < |nodes|
      ensures |d| == |nodes| && nodes[k].depth == d[k]
    {
    }

    method AdjustRightMarker(root: Node, was: ObjectProxy, now: ObjectProxy?, ghost k: nat)
      requires Linked() && k < |nodes| && nodes[k] == root
      requires last.opFirst == null
      modifies nodes`opFirst
      ensures Linked() && last.opFirst == null && RightAdjusted(old(Firsts()), k, was, now) && root.opFirst == old(root.opFirst)
    {
      hide *;
      ghost var f0 := Firsts();
      ghost var every := Everywhere(|nodes|);
      ReplacedBehind<ObjectProxy?>(f0, k, was, now);
      var node := NextNode(root, k);
      ghost var j: nat := k + 1;
      NullAt(j);
      while node != null
        invariant Linked() && k < j <= |nodes| + 1 && last.opFirst == null
        invariant node == NodeAt(j) && (node == null <==> j == |nodes| + 1)
        invariant Firsts() == ReplaceIn<ObjectProxy?>(f0, every, k + 1, j, was, now) && root.opFirst == old(root.opFirst)
        decreases |nodes| + 1 - j
      {
        node := RedirectFirst(node, was, now, f0, every, k, j);
        j := j + 1;
      }
      assert RightAdjusted(f0, k, was, now) by { RightAdjustedBy(f0, k, was, now); }
    }

    lemma RightAdjustedBy(f0: seq<ObjectProxy?>, k: nat, was: ObjectProxy?, now: ObjectProxy?)
      requires Firsts() == ReplaceAfter(f0, k, was, now)
      ensures RightAdjusted(f0, k, was, now)
    {
      hide ReplaceAfter, Firsts;
    }

    lemma NullAt(j: nat)
      requires j <= |nodes| + 1
      ensures NodeAt(j) == null <==> j == |nodes| + 1
    {
    }

    /** Redirects the pointer of one type, after those between it and `k`, and steps on. */
    method RedirectFirst(node: Node, was: ObjectProxy, now: ObjectProxy?,
                         ghost f0: seq<ObjectProxy?>, ghost every: seq<bool>, ghost k: nat, ghost j: nat)
      returns (next: Node?)
      requires Linked() && last.opFirst == null && k < j <= |nodes| && node == NodeAt(j)
      requires |f0| == |nodes| && every == Everywhere(|nodes|)
      requires Firsts() == ReplaceIn<ObjectProxy?>(f0, every, k + 1, j, was, now)
      modifies nodes`opFirst
      ensures Linked() && last.opFirst == null && nodes[k].opFirst == old(nodes[k].opFirst)
      ensures Firsts() == ReplaceIn<ObjectProxy?>(f0, every, k + 1, j + 1, was, now)
      ensures next == NodeAt(j + 1) && (next == null <==> j == |nodes|)
    {
      hide *;
      Basics();
      ReplaceNext<ObjectProxy?>(f0, every, k + 1, j, was, now);
      ghost var f := Firsts();
      if node.opFirst == was {
        node.opFirst := now;
        assert forall i {:trigger nodes[i]} :: 0 <= i < |nodes| && i != j ==> nodes[i] != node;
        assert Firsts() == f[j := now];
      }
      next := NextNode(node, j);
      NullAt(j + 1);
    }

    // ---------------------------------------------------------------- the linked lists

    /** Neighbours in `all` are linked to each other, except across the end of a list. */
    static ghost predicate Chained(all: seq<ObjectProxy>, tails: set<ObjectProxy>)
      reads all`prev, all`next
    {
      && (|all| > 0 ==> all[0].prev == null && all[|all| - 1] in tails && all[|all| - 1].next == null)
      && forall i, j :: 0 <= i < j < |all| && j == i + 1 ==>
           Joined(all[i], all[j], tails)
    }

    static ghost predicate Joined(a: ObjectProxy, b: ObjectProxy, tails: set<ObjectProxy>)
      reads a`next, b`prev
    {
      if a in tails then a.next == null && b.prev == null else a.next == b && b.prev == a
    }

    /** Links a proxy in front of position `p`. */
    method LinkAt(x: ObjectProxy, successor: ObjectProxy, ghost p: nat)
      requires Chained(all, tails) && Distinct<ObjectProxy?>(all) && x !in all && x !in tails
      requires 0 < p < |all| && all[p] == successor && all[p - 1] !in tails
      modifies x`prev, x`next, all`prev, all`next
      ensures Chained(all[..p] + [x] + all[p..], tails)
      ensures x.next == all[p] && x.prev == all[p - 1]
    {
      assert Joined(all[p - 1], all[p], tails);
      x.Link(successor);
      ghost var r := all[..p] + [x] + all[p..];
      forall i, j | 0 <= i < j < |r| && j == i + 1
        ensures Joined(r[i], r[j], tails)
      {
        ghost var i', j' := if i <= p then i else i - 1, if j <= p then j else j - 1;
        assert i != p && j != p ==> all[i'] == r[i] && all[j'] == r[j] && old(Joined(all[i'], all[j'], tails));
      }
    }

    /** Takes the proxy at position `p` of `s` out of its list. */
    static method UnlinkAt(x: ObjectProxy, ghost s: seq<ObjectProxy>, ghost ends: set<ObjectProxy>, ghost p: nat)
      requires Chained(s, ends) && Distinct<ObjectProxy?>(s)
      requires 0 < p < |s| - 1 && s[p] == x && s[p - 1] !in ends && x !in ends
      modifies s`prev, s`next
      ensures Chained(s[..p] + s[p + 1..], ends)
      ensures x.next == null && x.prev == null
    {
      assert Joined(s[p - 1], s[p], ends) && Joined(s[p], s[p + 1], ends);
      x.Unlink();
      ghost var r := s[..p] + s[p + 1..];
      assert r[0] == s[0] && r[|r| - 1] == s[|s| - 1];
      forall i, j | 0 <= i < j < |r| && j == i + 1
        ensures Joined(r[i], r[j], ends)
      {
        ghost var i', j' := if i < p then i else i + 1, if j < p then j else j + 1;
        assert s[i'] == r[i] && s[j'] == r[j] && (i != p - 1 ==> old(Joined(s[i'], s[j'], ends)));
      }
    }

    // ---------------------------------------------------------------- the invariant

    /**
      The lists are the pre-order concatenation of the segments of the types;
      `opFirst` and `opMarker` are the elements around a type's segment and
      `count` is its length.
    */
    ghost predicate Valid()
      reads this, repr, nodes, all
    {
      && Linked() && last.opFirst == null
      && Cuts(d, lo, cnt, |all|) && Distinct<ObjectProxy?>(all) && Ended<ObjectProxy?>(d, lo, cnt, all, tails)
      && Chained(all, tails)
      && Marked(lo, cnt, all, Firsts(), Markers()) && Counted()
    }

    /** `opLast` of every type is the first element after its whole subtree. */
    ghost predicate LastExact()
      reads this, nodes
    {
      ExactLast(d, lo, cnt, all, Lasts())
    }

    /** The objects of type `k`. */
    ghost function Objects(k: nat): (r: seq<ObjectProxy>)
      reads this`lo, this`cnt, this`all
    {
      Segment(lo, cnt, all, k)
    }

    lemma BoundsAt(k: nat)
      requires Valid() && k < |nodes|
      ensures |lo| == |cnt| == |d| == |nodes| && Hi(lo, cnt, k) < |all| && nodes[k].count == cnt[k]
      ensures nodes[k].opFirst == all[lo[k]] && nodes[k].opMarker == all[Hi(lo, cnt, k)]
      ensures all[lo[k]].next == all[lo[k] + 1] && all[Hi(lo, cnt, k)].prev == all[Hi(lo, cnt, k) - 1]
    {
      hide Linked, Cuts, Distinct, Firsts, Markers;
      assert MarkedAt(lo, cnt, all, Firsts(), Markers(), k);
      InsideAt(k, lo[k]);
      InsideAt(k, Hi(lo, cnt, k) - 1);
    }

    /** Inside a segment and at its borders the list is linked. */
    lemma InsideAt(k: nat, i: nat)
      requires Valid() && k < |nodes|
      requires |lo| == |cnt| == |d| == |nodes| && lo[k] <= i < Hi(lo, cnt, k) < |all|
      ensures all[i] !in tails && all[i].next == all[i + 1] && all[i + 1].prev == all[i]
    {
      hide Linked, Cuts, Distinct, Firsts, Markers;
      assert EndedAt<ObjectProxy?>(d, lo, cnt, all, tails, k);
      assert Joined(all[i], all[i + 1], tails);
    }

    lemma TailsInside()
      requires Valid()
      ensures forall t :: t in tails ==> t in all
    {
    }

    /** An earlier type that is no ancestor of `k`, but closer to the root, ends where the objects of `k` begin. */
    ghost predicate UncleEndsAt(k: nat)
      requires Valid() && k < |nodes|
      reads this, repr, nodes, all
    {
      BoundsAt(k);
      Uncle(d, Lasts(), k, nodes[k].opFirst.next)
    }

    /** What the predicates of the contracts say. */
    lemma Meaning(k: nat)
      requires Valid() && k < |nodes|
      ensures |lo| == |cnt| == |d| == |nodes| && Hi(lo, cnt, k) < |all| && lo[k] + 1 < |all|
      ensures UncleEndsAt(k) <==> Uncle(d, Lasts(), k, all[lo[k] + 1])
      ensures LastExact() <==> ExactLast(d, lo, cnt, all, Lasts())
    {
      hide Linked, Cuts, Distinct, Ended, Chained, Marked, Counted, Uncle, ExactLast, Firsts, Markers, Lasts;
      BoundsAt(k);
    }

    lemma NonNull(k: nat, a: nat, b: nat, xs: seq<ObjectProxy>)
      requires Splice<ObjectProxy?>(d, lo, cnt, all, k, a, b, xs)
      ensures Splice<ObjectProxy>(d, lo, cnt, all, k, a, b, xs)
    {
      hide Cuts;
    }

    lemma ObjectAt(k: nat, i: nat)
      requires Valid() && k < |nodes| && i < |Objects(k)|
      ensures k < |lo| == |cnt| && lo[k] + 1 + i < Hi(lo, cnt, k) < |all| && Objects(k)[i] == all[lo[k] + 1 + i]
    {
      BoundsAt(k);
    }

    /** The pointers of all types are those after the repair for a splice of the segment of type `k`. */
    ghost predicate Repaired(k: nat, a: nat, b: nat, xs: seq<ObjectProxy>, f0: seq<ObjectProxy?>, m0: seq<ObjectProxy?>, l0: seq<ObjectProxy?>)
      reads this`nodes, this`d, this`lo, this`cnt, this`all, nodes`opFirst, nodes`opMarker, nodes`opLast
    {
      && k < |lo| == |cnt| == |d| == |l0| && lo[k] < a <= b <= Hi(lo, cnt, k) < |all|
      && Firsts() == SplicedFirst(lo, cnt, all, f0, k, a, b, xs)
      && Markers() == SplicedMarker(lo, cnt, all, m0, k, a, b, xs)
      && Lasts() == SplicedLast(d, lo, cnt, all, l0, k, a, b, xs)
    }

    /** A new element in front of the last one of its segment: what the store adjusts is the repair. */
    lemma RepairedIn(k: nat, p: nat, x: ObjectProxy, f0: seq<ObjectProxy?>, m0: seq<ObjectProxy?>, l0: seq<ObjectProxy?>)
      requires k < |lo| == |cnt| == |d| == |l0| && Hi(lo, cnt, k) < |all|
      requires p == if cnt[k] <= 1 then lo[k] + 1 else Hi(lo, cnt, k) - 1
      requires if cnt[k] <= 1 then LeftAdjusted(m0, l0, k, all[p], x) else Markers() == m0 && Lasts() == l0
      requires if cnt[k] == 0 then RightAdjusted(f0, k, all[p - 1], x) else Firsts() == f0
      ensures Repaired(k, p, p, [x], f0, m0, l0)
    {
      hide Spliced, SplicedFirst, SplicedMarker, SplicedLast, ReplaceBefore, ReplaceAfter, ReplaceDeep, Firsts, Markers, Lasts;
      RepairIn<ObjectProxy?>(d, lo, cnt, all, f0, m0, l0, k, p, x);
    }

    /** Elements that are taken out. */
    lemma RepairedOut(k: nat, a: nat, b: nat, f0: seq<ObjectProxy?>, m0: seq<ObjectProxy?>, l0: seq<ObjectProxy?>)
      requires k < |lo| == |cnt| == |d| == |l0| && lo[k] < a < b <= Hi(lo, cnt, k) < |all|
      requires if a == lo[k] + 1 then LeftAdjusted(m0, l0, k, all[a], all[b]) else Markers() == m0 && Lasts() == l0
      requires if b == Hi(lo, cnt, k) then RightAdjusted(f0, k, all[b - 1], all[a - 1]) else Firsts() == f0
      ensures Repaired(k, a, b, [], f0, m0, l0)
    {
      hide Spliced, SplicedFirst, SplicedMarker, SplicedLast, ReplaceBefore, ReplaceAfter, ReplaceDeep, Firsts, Markers, Lasts;
      RepairOut<ObjectProxy?>(d, lo, cnt, all, f0, m0, l0, k, a, b);
    }

    /** Books a repaired splice of the segment of type `k`. */
    ghost method Commit(k: nat, a: nat, b: nat, xs: seq<ObjectProxy>, f0: seq<ObjectProxy?>, m0: seq<ObjectProxy?>, l0: seq<ObjectProxy?>)
      requires Linked() && last.opFirst == null && |l0| == |nodes| == |d|
      requires Splice<ObjectProxy?>(d, lo, cnt, all, k, a, b, xs) && Ended<ObjectProxy?>(d, lo, cnt, all, tails)
      requires Marked(lo, cnt, all, f0, m0)
      requires Repaired(k, a, b, xs, f0, m0, l0)
      requires Chained(all[..a] + xs + all[b..], tails)
      requires forall j :: 0 <= j < |nodes| ==> nodes[j].count == cnt[j] + if j == k then |xs| - (b - a) else 0
      modifies this`all, this`lo, this`cnt
      ensures all == old(all)[..a] + xs + old(all)[b..]
      ensures forall j :: k < j < |nodes| ==> old(lo)[j] + |xs| - (b - a) >= 0
      ensures lo == Shift(old(lo), k, |xs| - (b - a)) && cnt == old(cnt)[k := old(cnt)[k] + |xs| - (b - a)]
      ensures Valid()
      ensures (a < b || xs != []) && ExactLast(d, old(lo), old(cnt), old(all), l0) ==>
                (LastExact() <==> !(a == old(lo)[k] + 1 && Uncle(d, l0, k, old(all)[a])))
    {
      hide Linked, Cuts, Distinct, Ended, Chained, Marked, ExactLast, Uncle, Shift, Spliced,
        SplicedFirst, SplicedMarker, SplicedLast, Firsts, Markers, Lasts;
      SplicedCuts<ObjectProxy?>(d, lo, cnt, all, k, a, b, xs);
      SplicedDistinct<ObjectProxy?>(d, lo, cnt, all, k, a, b, xs);
      SplicedEnded<ObjectProxy?>(d, lo, cnt, all, tails, k, a, b, xs);
      SplicedMarked<ObjectProxy?>(d, lo, cnt, all, f0, m0, k, a, b, xs);
      if (a < b || xs != []) && ExactLast(d, lo, cnt, all, l0) {
        SplicedExactLast<ObjectProxy?>(d, lo, cnt, all, l0, k, a, b, xs);
      }
      SplicedIs<ObjectProxy?>(all, a, b, xs);
      all, lo, cnt := all[..a] + xs + all[b..], Shift(lo, k, |xs| - (b - a)), cnt[k := cnt[k] + |xs| - (b - a)];
    }

    /** Repairs the pointers of the other types after `x` has been linked into the segment of `n`. */
    method RepairAfterLink(n: Node, x: ObjectProxy, ghost k: nat, ghost p: nat)
      requires Linked() && last.opFirst == null && k < |nodes| && nodes[k] == n
      requires |lo| == |cnt| == |d| == |nodes| && Hi(lo, cnt, k) < |all| && n.count == cnt[k]
      requires p == if cnt[k] <= 1 then lo[k] + 1 else Hi(lo, cnt, k) - 1
      requires x.prev == all[p - 1] && x.next == all[p]
      modifies nodes`opFirst, nodes`opMarker, nodes`opLast
      ensures Linked() && last.opFirst == null
      ensures Repaired(k, p, p, [x], old(Firsts()), old(Markers()), old(Lasts()))
    {
      hide *;
      HiBehind(lo, cnt, k);
      if n.count <= 1 {
        AdjustLeftMarker(n, x.next, x, k);
        if n.count == 0 {
          AdjustRightMarker(n, x.prev, x, k);
        }
      }
      RepairedIn(k, p, x, old(Firsts()), old(Markers()), old(Lasts()));
    }

    /** Links `x` in front of the last object of `n`, or of its end marker; only the list changes. */
    method LinkInto(n: Node, x: ObjectProxy, ghost k: nat, ghost p: nat)
      requires Valid() && k < |nodes| && nodes[k] == n && x !in all
      requires |lo| == |cnt| == |d| == |nodes| && Hi(lo, cnt, k) < |all|
      requires p == if cnt[k] <= 1 then lo[k] + 1 else Hi(lo, cnt, k) - 1
      modifies x`prev, x`next, all`prev, all`next
      ensures 0 < p < |all|
      ensures Chained(all[..p] + [x] + all[p..], tails)
      ensures x.prev == all[p - 1] && x.next == all[p]
    {
      hide Valid, Linked, Cuts, Distinct, Ended, Chained, Marked, Counted, Firsts, Markers;
      BoundsAt(k);
      InsideAt(k, p - 1);
      Parts();
      TailsInside();
      if n.count >= 1 {
        LinkAt(x, n.opMarker.prev, p);
      } else {
        LinkAt(x, n.opMarker, p);
      }
    }

    /** Links `x` into the segment of `n` and repairs every pointer. */
    method LinkObject(n: Node, x: ObjectProxy, ghost k: nat, ghost p: nat)
      requires Valid() && k < |nodes| && nodes[k] == n && x !in all
      requires |lo| == |cnt| == |d| == |nodes| && Hi(lo, cnt, k) < |all|
      requires p == if cnt[k] <= 1 then lo[k] + 1 else Hi(lo, cnt, k) - 1
      modifies nodes`opFirst, nodes`opMarker, nodes`opLast, n`count
      modifies x`prev, x`next, all`prev, all`next
      ensures Linked() && last.opFirst == null
      ensures Repaired(k, p, p, [x], old(Firsts()), old(Markers()), old(Lasts()))
      ensures Chained(all[..p] + [x] + all[p..], tails)
      ensures forall j :: 0 <= j < |nodes| ==> nodes[j].count == cnt[j] + if j == k then 1 else 0
    {
      hide *;
      Core();
      CountAt(k);
      LinkInto(n, x, k, p);
      RepairAfterLink(n, x, k, p);
      SetCount(n, n.count + 1, k);
    }

    /** The parts of the invariant without the pointers into the list. */
    lemma Core()
      requires Valid()
      ensures Linked() && last.opFirst == null && Counted() && Chained(all, tails) && Distinct<ObjectProxy?>(all)
    {
      hide Linked, Cuts, Distinct, Ended, Chained, Marked, Counted, Firsts, Markers;
    }

    lemma CountAt(k: nat)
      requires Counted() && k < |nodes|
      ensures |cnt| == |nodes| && nodes[k].count == cnt[k]
    {
    }

    /** Sets the number of objects of one type. */
    method SetCount(n: Node, count: nat, ghost k: nat)
      requires Linked() && Counted() && k < |nodes| && nodes[k] == n
      modifies n`count
      ensures Linked() && |cnt| == |nodes| && forall j :: 0 <= j < |nodes| ==> nodes[j].count == if j == k then count else cnt[j]
    {
      hide Linked;
      Basics();
      n.count := count;
    }

    /** Adds an object to a type: in front of the type's last object, or as its only one. */
    method Insert(n: Node, x: ObjectProxy, ghost k: nat)
      requires Valid() && k < |nodes| && nodes[k] == n && x !in all
      modifies this`all, this`lo, this`cnt, nodes`opFirst, nodes`opMarker, nodes`opLast, n`count
      modifies x`prev, x`next, all`prev, all`next
      ensures Valid()
      ensures Objects(k) == WithLastButOne(old(Objects(k)), x)
      ensures forall j :: 0 <= j < |nodes| && j != k ==> Objects(j) == old(Objects(j))
      ensures old(LastExact()) ==> (LastExact() <==> !(old(n.count) <= 1 && old(UncleEndsAt(k))))
      ensures forall y :: y in all <==> y in old(all) || y == x
    {
      hide *;
      Parts();
      Meaning(k);
      CountOf(k);
      HiBehind(lo, cnt, k);
      ghost var p := if cnt[k] <= 1 then lo[k] + 1 else Hi(lo, cnt, k) - 1;
      SpliceIn<ObjectProxy?>(d, lo, cnt, all, k, p, x);
      NonNull(k, p, p, [x]);
      InsertedSegments<ObjectProxy>(d, lo, cnt, all, k, p, x);
      LinkObject(n, x, k, p);
      Commit(k, p, p, [x], old(Firsts()), old(Markers()), old(Lasts()));
      Parts();
    }

    /** What the store looks at before it unlinks the proxy at position `p`. */
    ghost predicate AtEdges(n: Node, x: ObjectProxy, k: nat, p: nat)
      requires |lo| == |cnt| && k < |lo| && lo[k] < p < Hi(lo, cnt, k) < |all|
      reads this, n, all, (if n.opFirst == null then {} else {n.opFirst}), (if n.opMarker == null then {} else {n.opMarker})
    {
      && x == all[p] && x.next == all[p + 1] && x.prev == all[p - 1]
      && n.opFirst != null && n.opMarker != null
      && (n.opFirst.next == x <==> p == lo[k] + 1)
      && (n.opMarker.prev == x <==> p == Hi(lo, cnt, k) - 1)
    }

    lemma AtEdgesIs(n: Node, x: ObjectProxy, k: nat, p: nat)
      requires |lo| == |cnt| && k < |lo| && lo[k] < p < Hi(lo, cnt, k) < |all| && AtEdges(n, x, k, p)
      ensures x == all[p] && x.next == all[p + 1] && x.prev == all[p - 1] && n.opFirst != null && n.opMarker != null
      ensures n.opFirst.next == x <==> p == lo[k] + 1
      ensures n.opMarker.prev == x <==> p == Hi(lo, cnt, k) - 1
    {
      hide Hi;
    }

    lemma EdgesAt(k: nat, p: nat)
      requires Valid() && k < |nodes|
      requires |lo| == |cnt| == |d| == |nodes| && lo[k] < p < Hi(lo, cnt, k) < |all|
      ensures AtEdges(nodes[k], all[p], k, p)
    {
      hide Linked, Cuts, Distinct, Ended, Chained, Marked, Counted, Firsts, Markers, Lasts;
      BoundsAt(k);
      InsideAt(k, p - 1);
      InsideAt(k, p);
      DistinctAt<ObjectProxy?>(all, p, lo[k] + 1);
      DistinctAt<ObjectProxy?>(all, p, Hi(lo, cnt, k) - 1);
    }

    /** Repairs the pointers of the other types before `x` leaves the segment of `n`. */
    method RepairBeforeUnlink(n: Node, x: ObjectProxy, ghost k: nat, ghost p: nat)
      requires Linked() && last.opFirst == null && k < |nodes| && nodes[k] == n
      requires |lo| == |cnt| == |d| == |nodes| && lo[k] < p < Hi(lo, cnt, k) < |all| && AtEdges(n, x, k, p)
      modifies nodes`opFirst, nodes`opMarker, nodes`opLast
      ensures Linked() && last.opFirst == null
      ensures Repaired(k, p, p + 1, [], old(Firsts()), old(Markers()), old(Lasts()))
    {
      hide *;
      AtEdgesIs(n, x, k, p);
      if x == n.opFirst.next {
        AdjustLeftMarker(n, n.opFirst.next, n.opFirst.next.next, k);
      }
      if x == n.opMarker.prev {
        AdjustRightMarker(n, x, n.opMarker.prev.prev, k);
      }
      RepairedOut(k, p, p + 1, old(Firsts()), old(Markers()), old(Lasts()));
    }

    /** Unlinks `x` from the segment of `n` and repairs every pointer. */
    method UnlinkObject(n: Node, x: ObjectProxy, ghost k: nat, ghost p: nat)
      requires Valid() && k < |nodes| && nodes[k] == n
      requires |lo| == |cnt| == |d| == |nodes| && lo[k] < p < Hi(lo, cnt, k) < |all| && x == all[p]
      modifies nodes`opFirst, nodes`opMarker, nodes`opLast, n`count, all`prev, all`next
      ensures Linked() && last.opFirst == null
      ensures Repaired(k, p, p + 1, [], old(Firsts()), old(Markers()), old(Lasts()))
      ensures Chained(all[..p] + [] + all[p + 1..], tails) && x.prev == null && x.next == null
      ensures forall j :: 0 <= j < |nodes| ==> nodes[j].count == cnt[j] - if j == k then 1 else 0
    {
      hide *;
      Core();
      CountAt(k);
      InnerAt(k, p);
      EdgesAt(k, p);
      RepairBeforeUnlink(n, x, k, p);
      ghost var r := all[..p] + all[p + 1..];
      assert r == all[..p] + [] + all[p + 1..];
      UnlinkAt(x, all, tails, p);
      SetCount(n, n.count - 1, k);
    }

    /** Around an object of a type. */
    lemma InnerAt(k: nat, p: nat)
      requires Valid() && k < |nodes| && |lo| == |cnt| == |d| == |nodes| && lo[k] < p < Hi(lo, cnt, k) < |all|
      ensures 0 < p < |all| - 1 && cnt[k] > 0 && all[p - 1] !in tails && all[p] !in tails
    {
      hide Valid, Linked, Cuts, Distinct, Ended, Chained, Marked, Counted, Firsts, Markers;
      InsideAt(k, p - 1);
      InsideAt(k, p);
    }

    /** Takes an object out of its type. */
    method Remove(n: Node, x: ObjectProxy, ghost k: nat, ghost i: nat)
      requires Valid() && k < |nodes| && nodes[k] == n && i < |Objects(k)| && Objects(k)[i] == x
      modifies this`all, this`lo, this`cnt, nodes`opFirst, nodes`opMarker, nodes`opLast, n`count
      modifies all`prev, all`next
      ensures Valid() && x !in all && x.prev == null && x.next == null
      ensures Objects(k) == old(Objects(k))[..i] + old(Objects(k))[i + 1..]
      ensures forall j :: 0 <= j < |nodes| && j != k ==> Objects(j) == old(Objects(j))
      ensures old(LastExact()) ==> (LastExact() <==> !(i == 0 && old(UncleEndsAt(k))))
      ensures forall y :: y in all <==> y in old(all) && y != x
    {
      hide *;
      Parts();
      Meaning(k);
      ObjectAt(k, i);
      RemoveAt(n, x, k, lo[k] + 1 + i);
      GoneAt<ObjectProxy?>(old(all), old(lo)[k] + 1 + i);
    }

    /** Takes the object at position `p` of the list out of its type. */
    method RemoveAt(n: Node, x: ObjectProxy, ghost k: nat, ghost p: nat)
      requires Valid() && k < |nodes| && nodes[k] == n
      requires |lo| == |cnt| == |d| == |nodes| && lo[k] < p < Hi(lo, cnt, k) < |all| && x == all[p]
      modifies this`all, this`lo, this`cnt, nodes`opFirst, nodes`opMarker, nodes`opLast, n`count
      modifies all`prev, all`next
      ensures Valid() && x.prev == null && x.next == null && all == old(all)[..p] + [] + old(all)[p + 1..]
      ensures
        var s, i := old(Objects(k)), p - old(lo)[k] - 1;
        i < |s| && Objects(k) == s[..i] + s[i + 1..]
      ensures forall j :: 0 <= j < |nodes| && j != k ==> Objects(j) == old(Objects(j))
      ensures old(LastExact()) ==> (LastExact() <==> !(p == old(lo)[k] + 1 && old(UncleEndsAt(k))))
    {
      hide *;
      Meaning(k);
      Removal(k, p, p + 1);
      UnlinkObject(n, x, k, p);
      Commit(k, p, p + 1, [], old(Firsts()), old(Markers()), old(Lasts()));
      Parts();
    }

    /** What is left of the segments when a part of one is taken out. */
    lemma Removal(k: nat, a: nat, b: nat)
      requires Valid() && k < |nodes| && |lo| == |cnt| == |d| == |nodes| && lo[k] < a <= b <= Hi(lo, cnt, k) < |all|
      ensures Splice<ObjectProxy?>(d, lo, cnt, all, k, a, b, []) && Ended<ObjectProxy?>(d, lo, cnt, all, tails)
      ensures Marked(lo, cnt, all, Firsts(), Markers()) && cnt[k] - (b - a) >= 0
      ensures forall j :: k < j < |lo| ==> lo[j] - (b - a) >= 0
      ensures
        var lo', cnt', all' := Shift(lo, k, -(b - a)), cnt[k := cnt[k] - (b - a)], all[..a] + [] + all[b..];
        var i, i', s := a - lo[k] - 1, b - lo[k] - 1, Objects(k);
        && i <= i' <= |s| && Segment(lo', cnt', all', k) == s[..i] + s[i'..]
        && forall j :: 0 <= j < |nodes| && j != k ==> Segment(lo', cnt', all', j) == Objects(j)
    {
      hide *;
      Parts();
      SpliceOut<ObjectProxy?>(d, lo, cnt, all, k, a, b);
      NonNull(k, a, b, []);
      SplicedCuts<ObjectProxy>(d, lo, cnt, all, k, a, b, []);
      RemovedSegments<ObjectProxy>(d, lo, cnt, all, k, a, b);
    }

    /** Repairs the pointers of the other types before `n` loses all its objects. */
    method RepairBeforeClear(n: Node, ghost k: nat)
      requires Linked() && last.opFirst == null && k < |nodes| && nodes[k] == n
      requires |lo| == |cnt| == |d| == |nodes| && cnt[k] > 0 && Hi(lo, cnt, k) < |all|
      requires n.opFirst == all[lo[k]] && n.opMarker == all[Hi(lo, cnt, k)]
      requires n.opFirst.next == all[lo[k] + 1] && n.opMarker.prev == all[Hi(lo, cnt, k) - 1]
      modifies nodes`opFirst, nodes`opMarker, nodes`opLast
      ensures Linked() && last.opFirst == null
      ensures Repaired(k, lo[k] + 1, Hi(lo, cnt, k), [], old(Firsts()), old(Markers()), old(Lasts()))
      ensures n.opFirst == old(n.opFirst) && n.opMarker == old(n.opMarker)
    {
      hide *;
      HiBehind(lo, cnt, k);
      AdjustLeftMarker(n, n.opFirst.next, n.opMarker, k);
      AdjustRightMarker(n, n.opMarker.prev, n.opFirst, k);
      RepairedOut(k, lo[k] + 1, Hi(lo, cnt, k), old(Firsts()), old(Markers()), old(Lasts()));
    }

    static lemma HiBehind(lo: seq<nat>, cnt: seq<nat>, k: nat)
      requires k < |lo| == |cnt|
      ensures Hi(lo, cnt, k) == lo[k] + cnt[k] + 1
    {
    }

    /** Unlinks the elements between `before` and `after`, which are `s[a..b]`. */
    static method UnlinkBetween(before: ObjectProxy, after: ObjectProxy, ghost s: seq<ObjectProxy>, ghost ends: set<ObjectProxy>, ghost a: nat, ghost b: nat)
      requires Chained(s, ends) && Distinct<ObjectProxy?>(s)
      requires 0 < a <= b < |s| && s[a - 1] == before && s[b] == after
      requires forall i :: a - 1 <= i < b ==> s[i] !in ends
      modifies s`prev, s`next
      ensures Chained(s[..a] + [] + s[b..], ends)
    {
      hide Chained;
      ghost var i := a;
      ghost var r := s;
      assert r == s[..a] + s[i..];
      while before.next != after
        invariant a <= i <= b && r == s[..a] + s[i..] && Chained(r, ends)
        decreases b - i
      {
        NextInChain(r, ends, a - 1);
        var op := before.next;
        assert Distinct<ObjectProxy?>(r);
        UnlinkAt(op, r, ends, a);
        r := r[..a] + r[a + 1..];
        i := i + 1;
      }
      NextInChain(r, ends, a - 1);
      assert r[a] == s[i];
      assert r == s[..a] + [] + s[b..];
    }

    static lemma NextInChain(s: seq<ObjectProxy>, ends: set<ObjectProxy>, i: nat)
      requires Chained(s, ends) && i + 1 < |s| && s[i] !in ends
      ensures s[i].next == s[i + 1]
    {
      assert Joined(s[i], s[i + 1], ends);
    }

    /** Unlinks every object of `n` and repairs every pointer. */
    method UnlinkAll(n: Node, ghost k: nat)
      requires Valid() && k < |nodes| && nodes[k] == n
      requires |lo| == |cnt| == |d| == |nodes| && cnt[k] > 0 && Hi(lo, cnt, k) < |all|
      modifies nodes`opFirst, nodes`opMarker, nodes`opLast, n`count, all`prev, all`next
      ensures Linked() && last.opFirst == null
      ensures Repaired(k, lo[k] + 1, Hi(lo, cnt, k), [], old(Firsts()), old(Markers()), old(Lasts()))
      ensures Chained(all[..lo[k] + 1] + [] + all[Hi(lo, cnt, k)..], tails)
      ensures forall j :: 0 <= j < |nodes| ==> nodes[j].count == cnt[j] - if j == k then cnt[k] else 0
    {
      hide *;
      Core();
      BoundsAt(k);
      HiBehind(lo, cnt, k);
      ghost var a, b := lo[k] + 1, Hi(lo, cnt, k);
      forall i | a - 1 <= i < b ensures all[i] !in tails { InsideAt(k, i); }
      RepairBeforeClear(n, k);
      UnlinkBetween(n.opFirst, n.opMarker, all, tails, a, b);
      SetCount(n, 0, k);
    }

    /** Drops all objects of a type, but not those of its subtypes. */
    method Clear(n: Node, ghost k: nat)
      requires Valid() && k < |nodes| && nodes[k] == n
      modifies this`all, this`lo, this`cnt, nodes`opFirst, nodes`opMarker, nodes`opLast, n`count
      modifies all`prev, all`next
      ensures Valid()
      ensures Objects(k) == []
      ensures forall j :: 0 <= j < |nodes| && j != k ==> Objects(j) == old(Objects(j))
      ensures old(LastExact()) ==> (LastExact() <==> !(old(n.count) > 0 && old(UncleEndsAt(k))))
      ensures forall y :: y in all ==> y in old(all)
    {
      hide *;
      Parts();
      BoundsAt(k);
      HiBehind(lo, cnt, k);
      DistinctAt<ObjectProxy?>(all, lo[k] + 1, Hi(lo, cnt, k));
      CountOf(k);
      if n.opFirst.next != n.opMarker {
        ClearAll(n, k);
      }
    }

    method ClearAll(n: Node, ghost k: nat)
      requires Valid() && k < |nodes| && nodes[k] == n
      requires |lo| == |cnt| == |d| == |nodes| && cnt[k] > 0 && Hi(lo, cnt, k) < |all|
      modifies this`all, this`lo, this`cnt, nodes`opFirst, nodes`opMarker, nodes`opLast, n`count
      modifies all`prev, all`next
      ensures Valid() && Objects(k) == []
      ensures forall j :: 0 <= j < |nodes| && j != k ==> Objects(j) == old(Objects(j))
      ensures old(LastExact()) ==> (LastExact() <==> !old(UncleEndsAt(k)))
      ensures forall y :: y in all ==> y in old(all)
    {
      hide *;
      Meaning(k);
      HiBehind(lo, cnt, k);
      CountOf(k);
      ghost var a, b := lo[k] + 1, Hi(lo, cnt, k);
      Removal(k, a, b);
      UnlinkAll(n, k);
      Commit(k, a, b, [], old(Firsts()), old(Markers()), old(Lasts()));
      Parts();
    }

    // ---------------------------------------------------------------- attaching types

    /** A type that is in no tree yet. */
    ghost predicate Loose(c: Node)
      reads this`repr, c, (if c.first == null then {} else {c.first}), (if c.last == null then {} else {c.last})
    {
      && c.first != null && c.last != null && c.first != c.last && c.first != c && c.last != c
      && c !in repr && c.first !in repr && c.last !in repr
      && c.first.first == null && c.last.first == null && c.first.owner == c && c.last.owner == c
      && c.first.next == c.last && c.last.prev == c.first && c.first.prev == null
      && c.count == 0
    }

    /** What linking `c` as the last child of type `p`, or as the last root, has changed. */
    twostate predicate LinkedIn(c: Node, new p: int, new e: nat, new h: nat)
      requires old(Linked()) && -1 <= p < |old(nodes)|
      reads *
    {
      var end := if p == -1 then old(last) else old(nodes[p].last);
      && old(Loose(c)) && e == SlotAt(old(d), p) && h == LevelAt(old(d), p)
      && first == old(first) && last == old(last) && repr == old(repr) + {c, c.first, c.last}
      && nodes == With(old(nodes), e, c) && d == With<nat>(old(d), e, h)
      && c.parent == (if p == -1 then null else old(nodes[p]))
      && c.prev == old(end.prev) && c.next == end && c.depth == h
      && (forall n :: n in old(repr) ==>
            && n.parent == old(n.parent) && n.first == old(n.first) && n.last == old(n.last)
            && n.depth == old(n.depth) && n.owner == old(n.owner)
            && n.next == (if n == old(end.prev) then c else old(n.next))
            && n.prev == (if n == end then c else old(n.prev)))
      && c.first == old(c.first) && c.last == old(c.last) && c.owner == old(c.owner)
      && c.first.first == null && c.last.first == null && c.first.owner == c && c.last.owner == c
      && c.first.next == c.last && c.last.prev == c.first && c.first.prev == null
    }

    /** The types other than `c` are where they were, one further right behind `c`. */
    twostate lemma MovedNode(c: Node, new p: int, new e: nat, new h: nat, new k: nat) returns (j: nat)
      requires old(Linked()) && -1 <= p < |old(nodes)| && LinkedIn(c, p, e, h) && k < |nodes| && k != e
      ensures |d| == |nodes| && j < |old(nodes)| && k == Moved(e, j)
      ensures nodes[k] == old(nodes)[j] && nodes[k] in old(repr) && d[k] == old(d)[j]
      ensures nodes[k].depth == d[k] && OwnsSentinels(nodes[k])
      ensures nodes[k].first == old(nodes[j].first) && nodes[k].last == old(nodes[j].last)
    {
      hide Placed, Bracketed, With;
      j := if k < e then k else k - 1;
      assert old(OwnsSentinels(nodes[j]));
    }

    twostate lemma StillDistinct(c: Node, new p: int, new e: nat, new h: nat)
      requires old(Linked()) && -1 <= p < |old(nodes)| && LinkedIn(c, p, e, h)
      ensures forall i, j :: 0 <= i < j < |nodes| ==> nodes[i] != nodes[j]
    {
      hide Placed, Bracketed, OwnsSentinels, LevelAt, End;
      WithDistinct<Node>(old(nodes), e, c);
    }

    twostate lemma KindOf(c: Node, new p: int, new e: nat, new h: nat, new k: nat)
      requires old(Linked()) && -1 <= p < |old(nodes)| && LinkedIn(c, p, e, h) && k < |nodes|
      ensures |d| == |nodes| && nodes[k] in repr && nodes[k].depth == d[k] && OwnsSentinels(nodes[k])
    {
      hide Placed, Bracketed, With, OwnsSentinels, LevelAt, SlotAt, Loose, End;
      if k != e { var j := MovedNode(c, p, e, h, k); } else { NewKind(c, p, e, h); }
    }

    twostate lemma KindsAfter(c: Node, new p: int, new e: nat, new h: nat)
      requires old(Linked()) && -1 <= p < |old(nodes)| && LinkedIn(c, p, e, h)
      ensures Kinds()
    {
      hide Placed, Bracketed, With, OwnsSentinels, LevelAt, SlotAt, Loose, End;
      SlotOk(old(d), p);
      GrownShape(old(d), e, h);
      forall k | 0 <= k < |nodes| { KindOf(c, p, e, h, k); }
      StillDistinct(c, p, e, h);
    }

    twostate lemma NewKind(c: Node, new p: int, new e: nat, new h: nat)
      requires old(Linked()) && -1 <= p < |old(nodes)| && LinkedIn(c, p, e, h)
      ensures e < |nodes| == |d| && nodes[e] == c && c in repr && c !in old(repr) && c.depth == d[e] && OwnsSentinels(c)
    {
      hide Placed, Bracketed, With;
    }

    twostate lemma WasLinked(new j: nat)
      requires old(Linked()) && j < |old(nodes)|
      ensures old(Kinds()) && |old(d)| == |old(nodes)| && WellFormed(old(d))
      ensures old(Placed(j)) && old(Bracketed(j)) && old(OwnsSentinels(nodes[j]))
    {
      hide Placed, Bracketed;
    }

    twostate lemma InSlot(c: Node, new p: int, new e: nat, new h: nat)
      requires old(Linked()) && -1 <= p < |old(nodes)| && LinkedIn(c, p, e, h)
      ensures |old(d)| == |old(nodes)| && WellFormed(old(d)) && Slot(old(d), e, h) && e == SlotAt(old(d), p) && h == LevelAt(old(d), p)
      ensures d == With<nat>(old(d), e, h) && nodes == With(old(nodes), e, c)
    {
      hide Placed, Bracketed, With;
      SlotOk(old(d), p);
    }

    twostate lemma OldDistinct(new i: nat, new j: nat)
      requires old(Linked()) && i < |old(nodes)| && j < |old(nodes)| && i != j
      ensures old(nodes)[i] != old(nodes)[j]
    {
      hide Placed, Bracketed;
    }

    twostate lemma OldEnds()
      requires old(Linked())
      ensures old(first.owner) == null && old(last.owner) == null && old(first) in old(repr) && old(last) in old(repr)
      ensures old(last) !in old(nodes) && old(first) !in old(nodes) && old(first.first) == null && old(last.first) == null
      ensures old(first.parent) == null && old(first.depth) == 0
      ensures old(first.prev) == null && old(last.next) == null && old(last.parent) == null && old(first) != old(last)
      ensures old(first.next) == if |old(nodes)| > 0 then old(nodes[0]) else old(last)
      ensures old(last.prev) == if |old(nodes)| > 0 then old(nodes[LastRoot(d)]) else old(first)
    {
      hide Placed, Bracketed;
    }

    /** What the new type was linked behind: the last of its siblings, or the sentinel before them. */
    twostate lemma TailBefore(c: Node, new p: int, new e: nat, new h: nat, new j: nat)
      requires old(Linked()) && -1 <= p < |old(nodes)| && LinkedIn(c, p, e, h) && j < |old(nodes)|
      ensures |old(d)| == |old(nodes)|
      ensures (if p == -1 then old(last) else old(nodes[p].last)) !in old(nodes)
      ensures old(nodes)[j] == old((if p == -1 then last else nodes[p].last).prev) <==>
              End(old(d), j) == e && old(d)[j] == h
    {
      hide Placed, With, Loose;
      if p >= 0 {
        assert old(Bracketed(p)) && old(OwnsSentinels(nodes[p]));
      }
      if End(old(d), j) == e && old(d)[j] == h {
        LastSibling(old(d), p, j);
      }
      assert old(OwnsSentinels(nodes[j]));
    }

    /** The sentinels around the siblings of an old type are the old ones. */
    twostate lemma BordersAfter(c: Node, new p: int, new e: nat, new h: nat, new k: nat, new j: nat)
      requires old(Linked()) && -1 <= p < |old(nodes)| && LinkedIn(c, p, e, h) && Kinds() && k < |nodes| && k != e
      requires |old(d)| == |old(nodes)| && j < |old(nodes)| && k == Moved(e, j) && d[k] == old(d)[j]
      ensures ListBegin(k) == old(ListBegin(j)) && ListEnd(k) == old(ListEnd(j))
      ensures d[k] > 0 ==> nodes[Parent(d, k)] == old(nodes[Parent(d, j)])
    {
      hide Linked, Kinds, Placed, Bracketed, With, Loose, SlotAt, LevelAt, Parent, End, OlderSibling, WellFormed;
      WasLinked(j);
      if d[k] > 0 {
        SlotOk(old(d), p);
        GrownParent(old(d), e, h, j);
        var q := MovedNode(c, p, e, h, Parent(d, k));
      }
    }

    twostate lemma NextPlacedAfter(c: Node, new p: int, new e: nat, new h: nat, new k: nat)
      requires old(Linked()) && -1 <= p < |old(nodes)| && LinkedIn(c, p, e, h) && Kinds() && k < |nodes| && k != e
      ensures NextPlaced(k)
    {
      hide Linked, Kinds, PrevPlaced, Bracketed, With, Loose, SlotAt, LevelAt, Parent, End, OlderSibling, ListEnd, ListBegin,
        WellFormed, OwnsSentinels;
      var j := MovedNode(c, p, e, h, k);
      WasLinked(j);
      SlotOk(old(d), p);
      GrownEnd(old(d), e, h, j);
      BordersAfter(c, p, e, h, k, j);
      TailBefore(c, p, e, h, j);
    }

    twostate lemma PrevPlacedAfter(c: Node, new p: int, new e: nat, new h: nat, new k: nat)
      requires old(Linked()) && -1 <= p < |old(nodes)| && LinkedIn(c, p, e, h) && Kinds() && k < |nodes| && k != e
      ensures PrevPlaced(k)
    {
      hide Linked, Kinds, NextPlaced, Bracketed, With, Loose, SlotAt, LevelAt, Parent, End, OlderSibling, ListEnd, ListBegin,
        WellFormed, OwnsSentinels;
      var j := MovedNode(c, p, e, h, k);
      WasLinked(j);
      SlotOk(old(d), p);
      GrownOlderSibling(old(d), e, h, j);
      BordersAfter(c, p, e, h, k, j);
      TailBefore(c, p, e, h, j);
      if k > 0 && d[k] <= d[k - 1] {
        var r := MovedNode(c, p, e, h, OlderSibling(d, k));
      }
    }

    twostate lemma ParentBracketed(c: Node, new p: int, new e: nat, new h: nat)
      requires old(Linked()) && 0 <= p < |old(nodes)| && LinkedIn(c, p, e, h) && Kinds()
      ensures p < |nodes| && Bracketed(p)
    {
      hide Linked, Kinds, Placed, With, Loose, Parent, End, LastChild, LastRoot, ListEnd, ListBegin, WellFormed;
      WasLinked(p);
      NewKind(c, p, e, h);
      NewLast(old(d), p);
      var j := MovedNode(c, p, e, h, p);
      if p + 1 < e {
        WasLinked(LastChild(old(d), p));
        var r := MovedNode(c, p, e, h, p + 1);
      }
    }

    twostate lemma OtherBracketed(c: Node, new p: int, new e: nat, new h: nat, new k: nat)
      requires old(Linked()) && -1 <= p < |old(nodes)| && LinkedIn(c, p, e, h) && Kinds() && k < |nodes| && k != e && k != p
      ensures Bracketed(k)
    {
      hide Linked, Kinds, Placed, With, Loose, Parent, End, LastChild, LastRoot, ListEnd, ListBegin, WellFormed, LinkedIn, OwnsSentinels, Slot;
      var j := MovedNode(c, p, e, h, k);
      WasLinked(j);
      InSlot(c, p, e, h);
      GrownShape(old(d), e, h);
      ChildrenMoved(c, p, e, h, k, j);
      BracketsUntouched(c, p, e, h, j);
    }

    /** The first and the last child of a type other than the parent are what they were. */
    twostate lemma ChildrenMoved(c: Node, new p: int, new e: nat, new h: nat, new k: nat, new j: nat)
      requires old(Linked()) && -1 <= p < |old(nodes)| && LinkedIn(c, p, e, h) && Kinds() && k < |nodes| && k != e && k != p
      requires |d| == |nodes| && j < |old(nodes)| && k == Moved(e, j) && WellFormed(d)
      ensures |old(d)| == |old(nodes)| && WellFormed(old(d))
      ensures k + 1 < End(d, k) <==> j + 1 < End(old(d), j)
      ensures k + 1 < End(d, k) ==>
        nodes[k + 1] == old(nodes)[j + 1] && nodes[LastChild(d, k)] == old(nodes)[LastChild(old(d), j)]
    {
      hide Linked, Kinds, Placed, Bracketed, With, Loose, End, LastChild, LinkedIn, OwnsSentinels, Slot, WellFormed;
      WasLinked(j);
      InSlot(c, p, e, h);
      ChildrenAt(old(d), p, e, h, j);
    }

    /** The sentinels of a type other than the parent are not written. */
    twostate lemma BracketsUntouched(c: Node, new p: int, new e: nat, new h: nat, new j: nat)
      requires old(Linked()) && -1 <= p < |old(nodes)| && LinkedIn(c, p, e, h) && j < |old(nodes)| && j != p
      ensures old(Kinds()) && old(OwnsSentinels(nodes[j]))
      ensures old(nodes[j].first).next == old(nodes[j].first.next)
      ensures old(nodes[j].first).prev == old(nodes[j].first.prev)
      ensures old(nodes[j].last).prev == old(nodes[j].last.prev)
    {
      hide Linked, Kinds, Placed, With, Loose, Parent, End, LastChild, LastRoot, ListEnd, ListBegin, WellFormed;
      WasLinked(j);
      if p >= 0 {
        WasLinked(p);
        OldDistinct(p, j);
        if p + 1 < e { WasLinked(LastChild(old(d), p)); }
      } else {
        OldEnds();
        WasLinked(LastRoot(old(d)));
      }
    }

    twostate lemma NewPlaced(c: Node, new p: int, new e: nat, new h: nat)
      requires old(Linked()) && -1 <= p < |old(nodes)| && LinkedIn(c, p, e, h) && Kinds()
      ensures e < |nodes| && Placed(e) && Bracketed(e)
    {
      hide Linked, Kinds, With, Parent, End, LastChild, LastRoot, OlderSibling, WellFormed, Slot;
      NewKind(c, p, e, h);
      InSlot(c, p, e, h);
      GrownShape(old(d), e, h);
      NewNode(old(d), p);
      if p >= 0 {
        WasLinked(p);
        var j := MovedNode(c, p, e, h, p);
        if p + 1 < e { var r := MovedNode(c, p, e, h, LastChild(old(d), p)); }
      } else {
        OldEnds();
        if e > 0 { var r := MovedNode(c, p, e, h, LastRoot(old(d))); }
      }
    }

    twostate lemma RootsAfter(c: Node, new p: int, new e: nat, new h: nat)
      requires old(Linked()) && -1 <= p < |old(nodes)| && LinkedIn(c, p, e, h) && Kinds()
      ensures first.prev == null && first.parent == null && first.depth == 0 && last.next == null && last.parent == null
      ensures |nodes| > 0 && first.next == nodes[0] && last.prev == nodes[LastRoot(d)]
    {
      hide Linked, Kinds, Placed, With, Parent, End, LastChild, LastRoot, OlderSibling, WellFormed, Slot;
      NewKind(c, p, e, h);
      InSlot(c, p, e, h);
      NewLast(old(d), p);
      OldEnds();
      if p >= 0 {
        WasLinked(p);
        if p + 1 < e { WasLinked(LastChild(old(d), p)); }
        var j := MovedNode(c, p, e, h, 0);
        var r := MovedNode(c, p, e, h, LastRoot(d));
      } else if e > 0 {
        WasLinked(LastRoot(old(d)));
        var j := MovedNode(c, p, e, h, 0);
      }
    }

    /** The tree pointers agree with the pre-order sequence again. */
    twostate lemma LinkedAfter(c: Node, new p: int, new e: nat, new h: nat)
      requires old(Linked()) && -1 <= p < |old(nodes)| && LinkedIn(c, p, e, h)
      ensures Linked()
    {
      hide LinkedIn, Placed, Bracketed, NextPlaced, PrevPlaced;
      KindsAfter(c, p, e, h);
      RootsAfter(c, p, e, h);
      forall k | 0 <= k < |nodes| ensures Placed(k) && Bracketed(k) {
        if k == e {
          NewPlaced(c, p, e, h);
        } else {
          PlacedAfter(c, p, e, h, k);
        }
      }
    }

    twostate lemma PlacedAfter(c: Node, new p: int, new e: nat, new h: nat, new k: nat)
      requires old(Linked()) && -1 <= p < |old(nodes)| && LinkedIn(c, p, e, h) && Kinds() && k < |nodes| && k != e
      ensures Placed(k) && Bracketed(k)
    {
      hide Linked, Kinds, LinkedIn, Bracketed, NextPlaced, PrevPlaced;
      NextPlacedAfter(c, p, e, h, k);
      PrevPlacedAfter(c, p, e, h, k);
      if k == p { ParentBracketed(c, p, e, h); } else { OtherBracketed(c, p, e, h, k); }
    }

    /** Links a type as the last child of `n`. */
    method LinkChild(n: Node, c: Node, ghost p: nat)
      requires Linked() && p < |nodes| && nodes[p] == n && Loose(c)
      modifies this`nodes, this`d, this`repr, repr`prev, repr`next, c`parent, c`prev, c`next, c`depth
      ensures Linked()
      ensures p < |old(d)| == |old(nodes)| && d == With<nat>(old(d), End(old(d), p), old(d)[p] + 1)
      ensures nodes == With(old(nodes), End(old(d), p), c)
      ensures repr == old(repr) + {c, c.first, c.last}
    {
      hide Linked, Kinds, With, End, WellFormed, OwnsSentinels, Placed, Bracketed, Scan;
      DepthAt(p);
      ListAt(p);
      LooseParts(c);
      ghost var e, h := End(d, p), d[p] + 1;
      c.parent := n;
      c.prev := n.last.prev;
      c.next := n.last;
      n.last.prev.next := c;
      n.last.prev := c;
      c.depth := n.depth + 1;
      nodes, d, repr := With(nodes, e, c), With<nat>(d, e, h), repr + {c, c.first, c.last};
      LinkedAfter(c, p, e, h);
    }

    lemma ListAt(p: nat)
      requires Linked() && p < |nodes|
      ensures |d| == |nodes| && WellFormed(d) && nodes[p] in repr
      ensures nodes[p].first != null && nodes[p].last != null && nodes[p].last in repr
      ensures nodes[p].last.prev != null && nodes[p].last.prev in repr && nodes[p].last.prev != nodes[p].last
    {
      hide Placed, LastChild;
      assert Bracketed(p);
    }

    /** Links a type as the last root. */
    method LinkRoot(c: Node)
      requires Linked() && Loose(c)
      modifies this`nodes, this`d, this`repr, repr`prev, repr`next, c`parent, c`prev, c`next, c`depth
      ensures Linked()
      ensures |old(d)| == |old(nodes)| && d == With<nat>(old(d), |old(d)|, 0)
      ensures nodes == With(old(nodes), |old(d)|, c)
      ensures repr == old(repr) + {c, c.first, c.last}
    {
      hide Linked, Kinds, With, End, WellFormed;
      RootListAt();
      ghost var e := |d|;
      var sibling := last.prev;
      c.parent := sibling.parent;
      c.prev := sibling;
      c.next := sibling.next;
      sibling.next := c;
      c.next.prev := c;
      c.depth := sibling.depth;
      nodes, d, repr := With(nodes, e, c), With<nat>(d, e, 0), repr + {c, c.first, c.last};
      LinkedAfter(c, -1, e, 0);
    }

    lemma RootListAt()
      requires Linked()
      ensures |d| == |nodes| && WellFormed(d) && last in repr
      ensures last.prev != null && last.prev in repr && last.prev != last && last.prev.next == last
      ensures last.prev.parent == null && last.prev.depth == 0
    {
      hide Bracketed, LastRoot;
      if |nodes| > 0 {
        assert Placed(LastRoot(d));
      }
    }

    /** The pointers of all types once the type `c` is among them. */
    twostate lemma PointersWith(c: Node, new e: nat)
      requires e <= |old(nodes)| && nodes == With(old(nodes), e, c) && c !in old(nodes)
      requires forall n :: n in old(nodes) ==>
                 n.opFirst == old(n.opFirst) && n.opMarker == old(n.opMarker) && n.opLast == old(n.opLast)
      ensures Firsts() == With(old(Firsts()), e, c.opFirst)
      ensures Markers() == With(old(Markers()), e, c.opMarker)
      ensures Lasts() == With(old(Lasts()), e, c.opLast)
    {
      hide With, Firsts, Markers, Lasts;
    }

    /**
      Attaches a type as the last child of `n`.  The segments are right again
      exactly when `opLast` of `n` was the end of its subtree.
    */
    method AttachChild(n: Node, c: Node, ghost p: nat)
      requires Valid() && p < |nodes| && nodes[p] == n && Loose(c) && n.opLast != null
      modifies this`nodes, this`d, this`repr, this`lo, this`cnt, repr`prev, repr`next
      modifies c`parent, c`prev, c`next, c`depth, c`opFirst, c`opMarker, c`opLast
      ensures Linked() && p < |old(d)| == |old(nodes)|
      ensures d == With<nat>(old(d), End(old(d), p), old(d)[p] + 1)
      ensures nodes == With(old(nodes), End(old(d), p), c)
      ensures |old(lo)| == |old(cnt)| == |old(d)|
      ensures Valid() <==> LastAt(old(d), old(lo), old(cnt), old(all), old(Lasts()), p)
      ensures old(LastExact()) ==> LastExact()
      ensures repr == old(repr) + {c, c.first, c.last}
      ensures Objects(End(old(d), p)) == []
      ensures forall j :: 0 <= j < |old(nodes)| ==> Objects(Moved(End(old(d), p), j)) == old(Objects(j))
    {
      hide *;
      Parts();
      BoundsAt(p);
      EndOfSubtree(p);
      ghost var d', e := d, End(d, p);
      PlaceChild(n, c, p);
      AttachedCuts(d', lo, cnt, |all|, p);
      AttachedSegments<ObjectProxy>(d', lo, cnt, all, p);
      AttachedEnded<ObjectProxy?>(d', lo, cnt, all, tails, p);
      AttachedMarked<ObjectProxy?>(d', lo, cnt, all, old(Firsts()), old(Markers()), p, c.opFirst, c.opMarker);
      LastOf(d', lo, cnt, all, old(Lasts()), p);
      if old(LastExact()) {
        AttachedLast<ObjectProxy?>(d', lo, cnt, all, old(Lasts()), p);
      }
      lo, cnt := With<nat>(lo, e, StartOf(d', lo, cnt, p)), With<nat>(cnt, e, 0);
      CountedWith(c, e);
      Whole();
    }

    static lemma LastOf(d: seq<nat>, lo: seq<nat>, cnt: seq<nat>, all: seq<ObjectProxy>, last: seq<ObjectProxy?>, p: nat)
      requires p < |d| == |lo| == |cnt| == |last| && Hi(lo, cnt, End(d, p) - 1) < |all|
      ensures LastAt<ObjectProxy?>(d, lo, cnt, all, last, p) <==> last[p] == all[Hi(lo, cnt, End(d, p) - 1)]
    {
    }

    /** Links a type as the last child of `n` and gives it the end of that subtree; the lists are not touched. */
    method PlaceChild(n: Node, c: Node, ghost p: nat)
      requires Valid() && p < |nodes| && nodes[p] == n && Loose(c) && n.opLast != null
      modifies this`nodes, this`d, this`repr, repr`prev, repr`next
      modifies c`parent, c`prev, c`next, c`depth, c`opFirst, c`opMarker, c`opLast
      ensures Linked() && last.opFirst == null && Chained(all, tails)
      ensures p < |old(d)| == |old(nodes)| && d == With<nat>(old(d), End(old(d), p), old(d)[p] + 1)
      ensures nodes == With(old(nodes), End(old(d), p), c) && repr == old(repr) + {c, c.first, c.last}
      ensures n.opFirst != null && n.opLast != null && n.opFirst == old(n.opFirst) && n.opLast == old(n.opLast)
      ensures c.opFirst == (if n.opFirst.next == n.opLast then n.opFirst else n.opLast.prev) && c.opMarker == n.opLast
      ensures Firsts() == With(old(Firsts()), End(old(d), p), c.opFirst)
      ensures Markers() == With(old(Markers()), End(old(d), p), c.opMarker)
      ensures Lasts() == With(old(Lasts()), End(old(d), p), n.opLast)
      ensures c !in old(nodes) && c.count == 0
    {
      hide *;
      Parts();
      Inside();
      BoundsAt(p);
      EndOfSubtree(p);
      LooseParts(c);
      ghost var e := End(d, p);
      LinkChild(n, c, p);
      n.Endow(c);
      PointersWith(c, e);
    }

    lemma Inside()
      requires Linked()
      ensures (forall n :: n in nodes ==> n in repr) && last in repr
    {
      hide Placed, Bracketed;
    }

    twostate lemma CountedWith(c: Node, new e: nat)
      requires e <= |old(nodes)| && nodes == With(old(nodes), e, c) && c !in old(nodes) && c.count == 0
      requires old(Counted()) && cnt == With<nat>(old(cnt), e, 0)
      requires forall n :: n in old(nodes) ==> n.count == old(n.count)
      ensures Counted()
    {
      hide With;
    }

    /** The element behind a subtree has a predecessor in the list. */
    lemma EndOfSubtree(p: nat)
      requires Valid() && p < |nodes|
      ensures |lo| == |cnt| == |d| == |nodes|
      ensures
        var h := Hi(lo, cnt, End(d, p) - 1);
        && h < |all| && h > 0 && all[h].prev == all[h - 1]
        && lo[p] < |all| && (all[lo[p]].next == all[h] <==> lo[p] + 1 == h)
    {
      hide Linked, Cuts, Distinct, Ended, Chained, Marked, Counted, End, WellFormed, Firsts, Markers, Lasts;
      BoundsAt(p);
      BoundsAt(End(d, p) - 1);
      DistinctAt<ObjectProxy?>(all, lo[p] + 1, Hi(lo, cnt, End(d, p) - 1));
    }

    /** Links a type as the last root and gives it a list of its own; the other lists are not touched. */
    method PlaceRoot(c: Node) returns (f: ObjectProxy, m: ObjectProxy)
      requires Valid() && Loose(c)
      modifies this`nodes, this`d, this`repr, repr`prev, repr`next
      modifies c`parent, c`prev, c`next, c`depth, c`opFirst, c`opMarker, c`opLast
      ensures Linked() && last.opFirst == null && Chained(all, tails)
      ensures |old(d)| == |old(nodes)| && d == With<nat>(old(d), |old(d)|, 0)
      ensures nodes == With(old(nodes), |old(d)|, c) && repr == old(repr) + {c, c.first, c.last}
      ensures fresh(f) && fresh(m) && f != m && f.prev == null && f.next == m && m.prev == f && m.next == null
      ensures Firsts() == With(old(Firsts()), |old(d)|, f)
      ensures Markers() == With(old(Markers()), |old(d)|, m) && Lasts() == With(old(Lasts()), |old(d)|, m)
      ensures c !in old(nodes) && c.count == 0
    {
      hide *;
      Parts();
      Inside();
      LooseParts(c);
      ghost var n := |d|;
      LinkRoot(c);
      f, m := c.OwnList();
      PointersWith(c, n);
    }

    /** Attaches a type as the last root, with an empty list of its own. */
    method AttachRoot(c: Node)
      requires Valid() && Loose(c)
      modifies this`nodes, this`d, this`repr, this`lo, this`cnt, this`all, this`tails, repr`prev, repr`next
      modifies c`parent, c`prev, c`next, c`depth, c`opFirst, c`opMarker, c`opLast
      ensures Valid()
      ensures |old(d)| == |old(nodes)| && d == With<nat>(old(d), |old(d)|, 0)
      ensures nodes == With(old(nodes), |old(d)|, c)
      ensures old(LastExact()) ==> LastExact()
      ensures repr == old(repr) + {c, c.first, c.last} && forall x :: x in all ==> x in old(all) || fresh(x)
      ensures Objects(|old(d)|) == []
      ensures forall j :: 0 <= j < |old(nodes)| ==> Objects(j) == old(Objects(j))
    {
      hide *;
      Parts();
      Inside();
      TailsInside();
      ghost var d' := d;
      var f, m := PlaceRoot(c);
      RootedLayout<ObjectProxy?>(d', lo, cnt, all, tails, old(Firsts()), old(Markers()), f, m);
      RootedSegments<ObjectProxy>(d', lo, cnt, all, f, m);
      if old(LastExact()) {
        RootedLast<ObjectProxy?>(d', lo, cnt, all, old(Lasts()), f, m);
      }
      RootedChain(all, tails, f, m);
      lo, cnt := With<nat>(lo, |d'|, |all|), With<nat>(cnt, |d'|, 0);
      all, tails := all + [f, m], tails + {m};
      CountedWith(c, |d'|);
      Whole();
    }

    lemma LooseParts(c: Node)
      requires Loose(c)
      ensures c.first != null && c.last != null && c !in repr && c.count == 0
    {
    }

    /** The parts of the invariant. */
    lemma Parts()
      requires Valid()
      ensures Linked() && last.opFirst == null
      ensures Cuts(d, lo, cnt, |all|) && Distinct<ObjectProxy?>(all) && Ended<ObjectProxy?>(d, lo, cnt, all, tails)
      ensures Chained(all, tails) && Marked(lo, cnt, all, Firsts(), Markers()) && Counted()
      ensures |lo| == |cnt| == |d| == |nodes|
      ensures LastExact() ==> ExactLast(d, lo, cnt, all, Lasts())
      ensures forall k {:trigger Objects(k)} :: Objects(k) == Segment(lo, cnt, all, k)
    {
      hide Linked, Distinct, Ended, Chained, Marked, Firsts, Markers, Lasts, ExactLast, Segment;
      Lengths();
    }

    lemma Whole()
      requires Linked() && last.opFirst == null
      requires Cuts(d, lo, cnt, |all|) && Distinct<ObjectProxy?>(all) && Ended<ObjectProxy?>(d, lo, cnt, all, tails)
      requires Chained(all, tails) && Counted()
      ensures Valid() <==> Marked(lo, cnt, all, Firsts(), Markers())
      ensures ExactLast(d, lo, cnt, all, Lasts()) ==> LastExact()
      ensures forall k {:trigger Objects(k)} :: Objects(k) == Segment(lo, cnt, all, k)
    {
      hide Linked, Cuts, Distinct, Ended, Chained, Marked, Counted, Firsts, Markers, Lasts, ExactLast, Segment;
    }

    lemma Lengths()
      requires Valid()
      ensures |lo| == |cnt| == |d| == |nodes|
    {
    }

    static lemma RootedChain(s: seq<ObjectProxy>, ends: set<ObjectProxy>, f: ObjectProxy, m: ObjectProxy)
      requires Chained(s, ends) && f !in s && m !in s && f !in ends && m !in ends && f != m
      requires f.prev == null && f.next == m && m.prev == f && m.next == null
      ensures Chained(s + [f, m], ends + {m})
    {
      var r := s + [f, m];
      forall i, j | 0 <= i < j < |r| && j == i + 1 ensures Joined(r[i], r[j], ends + {m}) {
        assert j < |s| ==> Joined(s[i], s[j], ends);
      }
    }

    // ---------------------------------------------------------------- whole runs

    constructor ()
      ensures Valid() && LastExact() && nodes == [] && d == [] && all == []
      ensures fresh(repr)
    {
      first := new Node.Sentinel();
      last := new Node.Sentinel();
      nodes, d, all, lo, cnt, tails := [], [], [], [], [], {};
      new;
      first.next := last;
      last.prev := first;
      repr := {first, last};
    }

    /** From the first root, pre-order steps visit every type once, in order, and stop at the end sentinel. */
    method Traverse() returns (visited: seq<Node>)
      requires Linked()
      ensures visited == nodes
    {
      hide *;
      Basics();
      FirstRoot();
      visited := [];
      var node := first.next;
      while node != last
        invariant |visited| <= |nodes| && visited == nodes[..|visited|] && node == NodeAt(|visited|)
        decreases |nodes| - |visited|
      {
        var next := NextNode(node, |visited|);
        visited := visited + [node];
        node := next;
      }
    }

    lemma FirstRoot()
      requires Linked()
      ensures first.next == NodeAt(0)
    {
    }

    /** What a view over a type iterates: the type's own objects, or those of its subtypes as well. */
    method View(n: Node, skipSubtypes: bool, ghost k: nat) returns (r: seq<ObjectProxy>)
      requires Valid() && k < |nodes| && nodes[k] == n && (skipSubtypes || LastExact())
      ensures |d| == |nodes|
      ensures r == if skipSubtypes then Objects(k) else Segments(lo, cnt, all, k, End(d, k))
    {
      hide *;
      BoundsAt(k);
      ghost var e := if skipSubtypes then k + 1 else End(d, k);
      ViewBounds(k, e);
      if !skipSubtypes { EndAt(k); }
      ghost var h := Hi(lo, cnt, e - 1);
      ViewChain(k, e);
      r := Collect(n.opFirst.next, if skipSubtypes then n.opMarker else n.opLast, all, lo[k] + 1, h);
    }

    /** From `s[a]` the next pointers lead through `s` and not to `s[h]` before its place. */
    static ghost predicate Path(s: seq<ObjectProxy>, a: nat, h: nat)
      requires a <= h < |s|
      reads s
    {
      forall i {:trigger s[i]} :: a <= i < h ==> s[i].next == s[i + 1] && s[i] != s[h]
    }

    /** Follows the list from `s[a]` up to, and without, `s[h]`. */
    static method Collect(front: ObjectProxy, stop: ObjectProxy, ghost s: seq<ObjectProxy>, ghost a: nat, ghost h: nat)
      returns (r: seq<ObjectProxy>)
      requires a <= h < |s| && front == s[a] && stop == s[h] && Path(s, a, h)
      ensures r == s[a..h]
    {
      var current := front;
      ghost var i := a;
      r := [];
      while current != stop
        invariant a <= i <= h && current == s[i] && r == s[a..i]
        decreases h - i
      {
        r := r + [current];
        current := current.next;
        i := i + 1;
      }
    }

    lemma EndAt(k: nat)
      requires Valid() && LastExact() && k < |nodes|
      ensures |lo| == |cnt| == |d| == |nodes| && Hi(lo, cnt, End(d, k) - 1) < |all|
      ensures nodes[k].opLast == all[Hi(lo, cnt, End(d, k) - 1)]
    {
      hide Linked, Cuts, Distinct, Ended, Chained, Marked, Counted, Firsts, Markers, Lasts;
      assert LastAt<ObjectProxy?>(d, lo, cnt, all, Lasts(), k);
    }

    lemma ViewBounds(k: nat, e: nat)
      requires Valid() && |d| == |nodes| && k < e <= |nodes| && (e == k + 1 || e == End(d, k))
      ensures |lo| == |cnt| == |d| && lo[k] < Hi(lo, cnt, e - 1) < |all|
      ensures (if e == k + 1 then Objects(k) else Segments(lo, cnt, all, k, e)) == all[lo[k] + 1..Hi(lo, cnt, e - 1)]
      ensures Segments(lo, cnt, all, k, k + 1) == Objects(k)
    {
      hide Linked, Distinct, Ended, Chained, Marked, Counted, Firsts, Markers, Lasts;
      SegmentsTogether(d, lo, cnt, all, k, e);
      SegmentsTogether(d, lo, cnt, all, k, k + 1);
      assert Segments(lo, cnt, all, k + 1, k + 1) == [];
    }

    /** The list from the first object of a view on, up to the element behind its last. */
    lemma ViewChain(k: nat, e: nat)
      requires Valid() && |lo| == |cnt| == |d| == |nodes| && k < e <= |nodes| && (e == k + 1 || e == End(d, k))
      requires lo[k] < Hi(lo, cnt, e - 1) < |all|
      ensures Path(all, lo[k] + 1, Hi(lo, cnt, e - 1))
    {
      hide Linked, Cuts, Ended, Chained, Marked, Counted, Firsts, Markers, End;
      var h := Hi(lo, cnt, e - 1);
      forall i {:trigger all[i]} | lo[k] < i < h ensures all[i].next == all[i + 1] && all[i] != all[h] {
        LinkWithin(k, e, i);
      }
    }

    lemma LinkWithin(k: nat, e: nat, i: nat)
      requires Valid() && |lo| == |cnt| == |d| == |nodes| && k < e <= |nodes| && (e == k + 1 || e == End(d, k))
      requires lo[k] <= i < Hi(lo, cnt, e - 1) < |all|
      ensures all[i].next == all[i + 1]
    {
      hide Linked, Distinct, Marked, Counted, Firsts, Markers, Lasts;
      NoTailWithin<ObjectProxy?>(d, lo, cnt, all, tails, k, e, i);
      assert Joined(all[i], all[i + 1], tails);
    }

    /** Roots and direct subtypes only. */
    ghost predicate TwoLevel()
      reads this`d
    {
      forall j :: 0 <= j < |d| ==> d[j] <= 1
    }

    lemma NoUncle(k: nat)
      requires Valid() && LastExact() && TwoLevel() && k < |nodes|
      ensures !UncleEndsAt(k)
    {
      hide Linked, Cuts, Distinct, Ended, Chained, Marked, Counted, Firsts, Markers, Lasts, Uncle, ExactLast;
      BoundsAt(k);
      TwoLevels<ObjectProxy?>(d, lo, cnt, all, Lasts(), k);
    }

    /** No type has an object. */
    ghost predicate Empty()
      reads this`nodes, this`lo, this`cnt, this`all
    {
      forall j :: 0 <= j < |nodes| ==> Objects(j) == []
    }

    /** Attaches a new type below one whose `opLast` is exact. */
    method GrowChild(n: Node, ghost p: nat) returns (c: Node)
      requires Valid() && LastExact() && p < |nodes| && nodes[p] == n
      modifies this`nodes, this`d, this`repr, this`lo, this`cnt, repr`prev, repr`next
      ensures Valid() && LastExact() && fresh(repr - old(repr)) && c.count == 0
      ensures p < |old(d)| == |old(nodes)| && d == With<nat>(old(d), End(old(d), p), old(d)[p] + 1)
      ensures nodes == With(old(nodes), End(old(d), p), c)
      ensures old(Empty()) ==> Empty()
    {
      hide *;
      Parts();
      EndAt(p);
      LastOf(d, lo, cnt, all, Lasts(), p);
      c := NewType();
      CountOfLoose(c);
      AttachChild(n, c, p);
      StillEmpty(End(old(d), p), c);
    }

    lemma CountOfLoose(c: Node)
      requires Loose(c)
      ensures c.count == 0 && c !in repr && c.first != null && c.last != null
    {
    }

    twostate lemma StillEmpty(new e: nat, new c: Node)
      requires e <= |old(nodes)| && nodes == With(old(nodes), e, c) && Objects(e) == []
      requires forall j :: 0 <= j < |old(nodes)| ==> Objects(Moved(e, j)) == old(Objects(j))
      ensures old(Empty()) ==> Empty()
    {
      hide Objects, With;
      if old(Empty()) {
        forall j | 0 <= j < |nodes| ensures Objects(j) == [] {
          if j != e {
            var i := if j < e then j else j - 1;
            assert Moved(e, i) == j;
            assert old(Objects(i)) == [];
          }
        }
      }
    }

    lemma EmptyRoot()
      requires |nodes| == 1 && Objects(0) == []
      ensures Empty()
    {
      hide Objects;
    }

    lemma NoCount(k: nat)
      requires Valid() && Empty() && k < |nodes|
      ensures nodes[k].count == 0
    {
      hide Valid, Objects;
      CountOf(k);
      assert Objects(k) == [];
    }

    lemma CountOf(k: nat)
      requires Valid() && k < |nodes|
      ensures |cnt| == |nodes| && |Objects(k)| == cnt[k] && nodes[k].count == cnt[k]
    {
      hide Linked, Distinct, Ended, Chained, Marked, Firsts, Markers;
      Lengths();
    }

    /** Without objects, the ends of an earlier sibling of a type and the starts below that type coincide. */
    lemma UncleOfEmpty()
      requires Valid() && LastExact() && Empty() && d == [0, 1, 1, 2]
      ensures |nodes| == 4 && UncleEndsAt(3)
    {
      hide Valid, LastExact, Linked, Firsts, Markers, Lasts, Distinct, Ended, Chained, Marked, Objects, Empty, Cuts, End, Hi;
      Lengths();
      Starts();
      SmallEnds();
      EndAt(1);
      BoundsAt(3);
      HiBehind(lo, cnt, 1);
      assert Lasts()[1] == nodes[1].opLast;
      assert UncleAt(d, Lasts(), 3, nodes[3].opFirst.next, 1);
      UncleIs(3);
    }

    lemma UncleIs(k: nat)
      requires Valid() && k < |nodes| && |d| == |nodes| && nodes[k].opFirst != null && Uncle(d, Lasts(), k, nodes[k].opFirst.next)
      ensures UncleEndsAt(k)
    {
      hide Valid, Uncle, Lasts;
    }

    lemma Starts()
      requires Valid() && Empty() && d == [0, 1, 1, 2]
      ensures |lo| == |cnt| == |d| == |nodes| && lo[1] == lo[2] == lo[3] && cnt[1] == cnt[3] == 0
    {
      hide Valid, Objects;
      Lengths();
      Parts();
      CountOf(1);
      CountOf(2);
      CountOf(3);
      assert Objects(1) == [] && Objects(2) == [] && Objects(3) == [];
    }

    method NewType() returns (c: Node)
      requires Linked()
      ensures Loose(c) && fresh(c) && fresh(c.first) && fresh(c.last)
    {
      hide Linked;
      c := new Node.Type();
    }

    lemma TwoLevelWith(d0: seq<nat>, e: nat, h: nat)
      requires e <= |d0| && d == With<nat>(d0, e, h) && h <= 1
      requires forall j :: 0 <= j < |d0| ==> d0[j] <= 1
      ensures TwoLevel()
    {
      hide With;
    }

    ghost function Proxies(): (r: set<ObjectProxy>)
      reads this`all
    {
      set x | x in all
    }

    /** Adds or drops objects; an operation that does not apply is skipped. */
    method StepObjects(op: Operation)
      requires Valid() && !op.Attaches()
      modifies this, repr, Proxies()
      ensures Valid() && nodes == old(nodes) && d == old(d) && repr == old(repr) && fresh(Proxies() - old(Proxies()))
      ensures old(LastExact() && TwoLevel()) ==> LastExact()
    {
      hide Valid, Linked, Cuts, Distinct, Ended, Chained, Marked, ExactLast, LastExact, Firsts, Markers, Lasts, Segment, Objects, Counted, UncleEndsAt,
        Loose, WithLastButOne;
      Parts();
      Lengths();
      Inside();
      var types := Traverse();
      if op.kind < |types| {
        var n := types[op.kind];
        if LastExact() && TwoLevel() { NoUncle(op.kind); }
        match op
        case Add(k) =>
          var x := new ObjectProxy();
          Insert(n, x, k);
        case Drop(k, i) =>
          var objects := View(n, true, k);
          if i < |objects| {
            Remove(n, objects[i], k, i);
          }
        case Empty(k) =>
          Clear(n, k);
      }
    }

    /** Attaches a type under any type, or as a root. */
    method StepAttach(op: Operation)
      requires Valid() && LastExact() && op.Attaches()
      modifies this, repr
      ensures Valid() && LastExact() && fresh(repr - old(repr)) && fresh(Proxies() - old(Proxies()))
      ensures old(TwoLevel()) && (op.AddChild? && op.parent < |old(d)| ==> old(d)[op.parent] == 0) ==> TwoLevel()
    {
      hide Valid, Linked, Cuts, Distinct, Ended, Chained, Marked, ExactLast, LastExact, Firsts, Markers, Lasts, Segment, Objects, Counted, Loose,
        With, End, WellFormed, Moved, LastAt;
      Parts();
      Lengths();
      Inside();
      var types := Traverse();
      if op.AddRoot? {
        var c := NewType();
        AttachRoot(c);
        if old(TwoLevel()) { TwoLevelWith(old(d), |old(d)|, 0); }
      } else if op.parent < |types| {
        var p := op.parent;
        var c := GrowChild(types[p], p);
        if old(TwoLevel()) && old(d)[p] == 0 { TwoLevelWith(old(d), End(old(d), p), 1); }
      }
    }

    /** Attaching types in any order and to any depth keeps all three pointers of every type exact. */
    method Build(ops: seq<Operation>)
      requires Valid() && LastExact() && forall i :: 0 <= i < |ops| ==> ops[i].Attaches()
      modifies this, repr
      ensures Valid() && LastExact()
      decreases |ops|
    {
      hide *;
      if ops != [] {
        StepAttach(ops[0]);
        Build(ops[1..]);
      }
    }

    /** Every run of adding and dropping objects keeps every type's own segment, at any depth. */
    method RunObjects(ops: seq<Operation>)
      requires Valid() && forall i :: 0 <= i < |ops| ==> !ops[i].Attaches()
      modifies this, repr, Proxies()
      ensures Valid() && nodes == old(nodes) && d == old(d)
      decreases |ops|
    {
      hide *;
      if ops != [] {
        StepObjects(ops[0]);
        RunObjects(ops[1..]);
      }
    }

    /** Whether an operation keeps to roots and direct subtypes. */
    method Shallow(op: Operation) returns (b: bool)
      requires Valid()
      ensures |d| == |nodes|
      ensures b <==> (op.AddChild? ==> op.parent < |d| && d[op.parent] == 0)
    {
      hide Linked, Cuts, Distinct, Ended, Chained, Marked, Counted, ExactLast, Firsts, Markers, Lasts, End;
      Lengths();
      b := true;
      if op.AddChild? {
        var types := Traverse();
        if op.parent < |types| {
          DepthAt(op.parent);
          b := types[op.parent].depth == 0;
        } else {
          b := false;
        }
      }
    }

    /** In every run over roots and direct subtypes, attaching at any time, all three pointers of every type stay exact. */
    method RunTwoLevel(ops: seq<Operation>)
      requires Valid() && LastExact() && TwoLevel()
      modifies this, repr, Proxies()
      ensures Valid() && LastExact() && TwoLevel()
      decreases |ops|
    {
      hide *;
      if ops != [] {
        var shallow := Shallow(ops[0]);
        if !ops[0].Attaches() {
          StepObjects(ops[0]);
          SameLevels(old(d));
        } else if shallow {
          StepAttach(ops[0]);
        }
        RunTwoLevel(ops[1..]);
      }
    }

    lemma SameLevels(d0: seq<nat>)
      requires d == d0
      ensures TwoLevel() <==> forall j :: 0 <= j < |d0| ==> d0[j] <= 1
    {
    }
  }

  /** The shapes on the way to a root with two children, the second of which has a child. */
  lemma GrowingShapes()
    ensures With<nat>([], 0, 0) == [0]
    ensures End([0], 0) == 1 && With<nat>([0], 1, 1) == [0, 1]
    ensures End([0, 1], 0) == 2 && With<nat>([0, 1], 2, 1) == [0, 1, 1]
    ensures End([0, 1, 1], 2) == 3 && With<nat>([0, 1, 1], 3, 2) == [0, 1, 1, 2]
  {
    hide End;
    EndUnique([0], 0, 1);
    EndUnique([0, 1], 0, 2);
    EndUnique([0, 1, 1], 2, 3);
  }

  /** A tree of one type. */
  method OneRoot() returns (tree: Tree, root: Node)
    ensures tree.Valid() && tree.LastExact() && tree.Empty() && tree.d == [0] && tree.nodes == [root]
    ensures fresh(tree) && fresh(tree.repr) && forall x :: x in tree.all ==> fresh(x)
  {
    hide *;
    tree := new Tree();
    root := tree.NewType();
    tree.CountOfLoose(root);
    tree.AttachRoot(root);
    GrowingShapes();
    tree.EmptyRoot();
  }

  /** A root, two children and a child of the second one. */
  method ThreeLevels() returns (tree: Tree, third: Node)
    ensures tree.Valid() && tree.LastExact() && tree.Empty() && tree.d == [0, 1, 1, 2] && |tree.nodes| == 4 && tree.nodes[3] == third
    ensures fresh(tree) && (forall n :: n in tree.nodes ==> fresh(n)) && (forall x :: x in tree.all ==> fresh(x))
  {
    hide *;
    GrowingShapes();
    var root;
    tree, root := OneRoot();
    var first := tree.GrowChild(root, 0);
    var second := tree.GrowChild(root, 0);
    third := tree.GrowChild(second, 2);
    tree.Core();
    tree.Inside();
  }

  /**
    In a tree that is made of a root, two children and a child of the second one,
    the first object, of that grandchild, leaves `opLast` of the first child wrong.
  */
  method GrandchildBreaksLast() returns (tree: Tree)
    ensures tree.Valid() && !tree.LastExact() && tree.d == [0, 1, 1, 2]
  {
    hide *;
    var third;
    tree, third := ThreeLevels();
    tree.UncleOfEmpty();
    tree.NoCount(3);
    var x := new ObjectProxy();
    forall i {:trigger tree.nodes[i]} | 0 <= i < |tree.nodes| ensures fresh(tree.nodes[i]) { assert tree.nodes[i] in tree.nodes; }
    forall i {:trigger tree.all[i]} | 0 <= i < |tree.all| ensures fresh(tree.all[i]) { assert tree.all[i] in tree.all; }
    tree.Insert(third, x, 3);
  }
}
