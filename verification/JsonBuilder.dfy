/**
  The tree builder of the parser.  The stack holds the containers that are open;
  a pointer into the tree is a path of keys and positions from the root.
*/
module JsonBuilder {
  import opened Json

  datatype Step = Field(key: string) | Item(i: nat)

  type Path = seq<Step>

  datatype Builder = Builder(value: Value, stack: seq<Path>, key: string)

  // ------------------------------------------------------------------ trees

  /** Sets a key of a sorted map. */
  function Put(members: seq<Member>, key: string, v: Value): (r: seq<Member>) {
    if members == [] then [Member(key, v)]
    else if members[0].key == key then [Member(key, v)] + members[1..]
    else if Less(key, members[0].key) then [Member(key, v)] + members
    else [members[0]] + Put(members[1..], key, v)
  }

  predicate HasKey(members: seq<Member>, key: string) {
    exists i :: 0 <= i < |members| && members[i].key == key
  }

  function Find(members: seq<Member>, key: string): (i: nat)
    requires HasKey(members, key)
    ensures i < |members| && members[i].key == key
  {
    if members[0].key == key then 0 else 1 + Find(members[1..], key)
  }

  predicate HasChild(v: Value, step: Step) {
    match step
    case Field(key) => v.Object? && HasKey(v.members, key)
    case Item(i) => v.Array? && i < |v.items|
  }

  function Child(v: Value, step: Step): (c: Value)
    requires HasChild(v, step)
  {
    match step
    case Field(key) => v.members[Find(v.members, key)].value
    case Item(i) => v.items[i]
  }

  /** There is room for a child: any key of an object, or a position of an array and the one behind its last. */
  predicate Takes(v: Value, step: Step) {
    match step
    case Field(_) => v.Object?
    case Item(i) => v.Array? && i <= |v.items|
  }

  function WithChild(v: Value, step: Step, c: Value): (r: Value)
    requires Takes(v, step)
  {
    match step
    case Field(key) => Object(Put(v.members, key, c))
    case Item(i) => if i < |v.items| then Array(v.items[i := c]) else Array(v.items + [c])
  }

  predicate HasPath(v: Value, p: Path) {
    p == [] || (HasChild(v, p[0]) && HasPath(Child(v, p[0]), p[1..]))
  }

  function GetAt(v: Value, p: Path): (r: Value)
    requires HasPath(v, p)
  {
    if p == [] then v else GetAt(Child(v, p[0]), p[1..])
  }

  function SetAt(v: Value, p: Path, x: Value): (r: Value)
    requires HasPath(v, p)
  {
    if p == [] then x
    else
      assert Takes(v, p[0]);
      WithChild(v, p[0], SetAt(Child(v, p[0]), p[1..], x))
  }

  // ------------------------------------------------------------------ callbacks

  /** The open containers are in the tree. */
  predicate Open(b: Builder) {
    b.stack != [] ==>
      HasPath(b.value, b.stack[|b.stack| - 1]) &&
      var top := GetAt(b.value, b.stack[|b.stack| - 1]);
      top.Object? || top.Array?
  }

  function Top(b: Builder): (v: Value)
    requires b.stack != [] && Open(b)
  {
    GetAt(b.value, b.stack[|b.stack| - 1])
  }

  /** Where the next value goes. */
  function Slot(b: Builder): (p: Path)
    requires Open(b)
  {
    if b.stack == [] then []
    else b.stack[|b.stack| - 1] + [if Top(b).Object? then Field(b.key) else Item(|Top(b).items|)]
  }

  /** The tree with a value put where the next value goes. */
  function Placed(b: Builder, v: Value): (r: Value)
    requires Open(b)
  {
    if b.stack == [] then v
    else
      var p := b.stack[|b.stack| - 1];
      var top := Top(b);
      SetAt(b.value, p, WithChild(top, if top.Object? then Field(b.key) else Item(|top.items|), v))
  }

  /** One callback; without an open container where one is needed the builder throws. */
  function Handle(b: Builder, e: Event): (r: Builder) {
    match e
    case Key(key) => b.(key := key)
    case BeginObject => if Open(b) then b.(value := Placed(b, Object([])), stack := b.stack + [Slot(b)]) else b
    case BeginArray => if Open(b) then b.(value := Placed(b, Array([])), stack := b.stack + [Slot(b)]) else b
    case OnValue(v) => if Open(b) then b.(value := Placed(b, v)) else b
    case EndObject => if b.stack == [] then b else b.(stack := b.stack[..|b.stack| - 1])
    case EndArray => if b.stack == [] then b else b.(stack := b.stack[..|b.stack| - 1])
  }

  function Feed(b: Builder, es: seq<Event>): (r: Builder)
    decreases |es|
  {
    if es == [] then b else Feed(Handle(b, es[0]), es[1..])
  }

  // ------------------------------------------------------------------ what is built

  /** A value as the program holds it: of the members with one key the last stays, and members are in order. */
  function Normal(v: Value): (r: Value)
    decreases v
  {
    match v
    case Array(items) => Array(NormalItems(items))
    case Object(members) => Object(PutAll([], members))
    case _ => v
  }

  function NormalItems(items: seq<Value>): (r: seq<Value>)
    decreases items
  {
    if items == [] then [] else [Normal(items[0])] + NormalItems(items[1..])
  }

  function PutAll(done: seq<Member>, members: seq<Member>): (r: seq<Member>)
    decreases members
  {
    if members == [] then done else PutAll(Put(done, members[0].key, Normal(members[0].value)), members[1..])
  }

  // ------------------------------------------------------------------ laws of trees

  lemma {:induction false} PutHolds(members: seq<Member>, key: string, v: Value)
    ensures var r := Put(members, key, v); HasKey(r, key) && r[Find(r, key)].value == v
  {
    var r := Put(members, key, v);
    if members != [] && members[0].key != key && !Less(key, members[0].key) {
      PutHolds(members[1..], key, v);
      var t := Put(members[1..], key, v);
      var i := Find(t, key);
      assert r[i + 1] == t[i];
      assert r[1..] == t;
    } else {
      assert r[0] == Member(key, v);
    }
  }

  lemma {:induction false} PutTwice(members: seq<Member>, key: string, v: Value, w: Value)
    ensures Put(Put(members, key, v), key, w) == Put(members, key, w)
  {
    var r := Put(members, key, v);
    if members != [] && members[0].key != key && !Less(key, members[0].key) {
      PutTwice(members[1..], key, v, w);
      assert r[1..] == Put(members[1..], key, v);
    } else if members != [] && members[0].key == key {
      assert r[1..] == members[1..];
    } else {
      assert r[1..] == members;
    }
  }

  lemma WithChildTwice(v: Value, step: Step, x: Value, y: Value)
    requires Takes(v, step)
    ensures var r := WithChild(v, step, x);
      HasChild(r, step) && Takes(r, step) && Child(r, step) == x && WithChild(r, step, y) == WithChild(v, step, y)
  {
    match step
    case Field(key) => PutHolds(v.members, key, x); PutTwice(v.members, key, x, y);
    case Item(i) =>
      if i == |v.items| { assert (v.items + [x])[i := y] == v.items + [y]; } else { assert v.items[i := x][i := y] == v.items[i := y]; }
  }

  lemma {:induction false} SetTwice(v: Value, p: Path, x: Value, y: Value)
    requires HasPath(v, p)
    ensures var r := SetAt(v, p, x); HasPath(r, p) && GetAt(r, p) == x && SetAt(r, p, y) == SetAt(v, p, y)
  {
    if p != [] {
      var c := Child(v, p[0]);
      SetTwice(c, p[1..], x, y);
      assert Takes(v, p[0]);
      WithChildTwice(v, p[0], SetAt(c, p[1..], x), SetAt(c, p[1..], y));
    }
  }

  lemma {:induction false} PathBehind(v: Value, p: Path, step: Step)
    requires HasPath(v, p) && HasChild(GetAt(v, p), step)
    ensures HasPath(v, p + [step]) && GetAt(v, p + [step]) == Child(GetAt(v, p), step)
    ensures Takes(GetAt(v, p), step)
    ensures forall x :: SetAt(v, p + [step], x) == SetAt(v, p, WithChild(GetAt(v, p), step, x))
  {
    if p != [] {
      PathBehind(Child(v, p[0]), p[1..], step);
      assert (p + [step])[1..] == p[1..] + [step];
    }
  }

  // ------------------------------------------------------------------ building

  /** A container that was put into its place can be replaced there. */
  lemma PlacedTwice(b: Builder, v: Value, w: Value)
    requires Open(b)
    ensures var r := Placed(b, v);
      HasPath(r, Slot(b)) && GetAt(r, Slot(b)) == v && SetAt(r, Slot(b), w) == Placed(b, w)
  {
    if b.stack != [] {
      var p, top := b.stack[|b.stack| - 1], Top(b);
      var step := if top.Object? then Field(b.key) else Item(|top.items|);
      var x, y := WithChild(top, step, v), WithChild(top, step, w);
      WithChildTwice(top, step, v, w);
      SetTwice(b.value, p, x, y);
      PathBehind(Placed(b, v), p, step);
    }
  }

  lemma {:induction false} FeedSplit(b: Builder, es: seq<Event>, fs: seq<Event>)
    ensures Feed(b, es + fs) == Feed(Feed(b, es), fs)
    decreases |es|
  {
    if es == [] {
      assert es + fs == fs;
    } else {
      FeedSplit(Handle(b, es[0]), es[1..], fs);
      assert (es + fs)[1..] == es[1..] + fs;
    }
  }

  lemma StaysOpen(b: Builder, v: Value, c: Builder)
    requires Open(b) && c.stack == b.stack && c.value == Placed(b, v)
    ensures Open(c)
  {
    if b.stack != [] {
      var p, top := b.stack[|b.stack| - 1], Top(b);
      var x := WithChild(top, if top.Object? then Field(b.key) else Item(|top.items|), v);
      SetTwice(b.value, p, x, x);
    }
  }

  /** The events of a value put it into its place and leave the stack as it was. */
  lemma {:induction false} Builds(b: Builder, v: Value)
    requires Open(b)
    ensures var r := Feed(b, Events(v)); r.value == Placed(b, Normal(v)) && r.stack == b.stack
    decreases v
  {
    hide SetAt, GetAt, HasPath, Child, HasChild, Put, PutAll, NormalItems, WithChild, Takes, Placed;
    match v
    case Array(items) =>
      var c := Handle(b, BeginArray);
      PlacedTwice(b, Array([]), Array([]));
      PlacedTwice(b, Array([]), Normal(v));
      BuildsItems(c, c.value, [], items);
      Enclosed(b, BeginArray, ItemEvents(items), EndArray);
      assert [] + NormalItems(items) == NormalItems(items);
    case Object(members) =>
      var c := Handle(b, BeginObject);
      PlacedTwice(b, Object([]), Object([]));
      PlacedTwice(b, Object([]), Normal(v));
      BuildsMembers(c, c.value, [], members);
      Enclosed(b, BeginObject, MemberEvents(members), EndObject);
    case _ => assert Feed(b, Events(v)) == Handle(b, OnValue(v));
  }

  lemma Enclosed(b: Builder, first: Event, es: seq<Event>, last: Event)
    ensures Feed(b, [first] + es + [last]) == Handle(Feed(Handle(b, first), es), last)
  {
    FeedSplit(b, [first] + es, [last]);
    FeedSplit(b, [first], es);
    assert Feed(Feed(b, [first] + es), [last]) == Handle(Feed(b, [first] + es), last);
    assert Feed(b, [first]) == Handle(b, first);
  }

  lemma {:induction false} BuildsItems(b: Builder, v: Value, done: seq<Value>, items: seq<Value>)
    requires b.stack != [] && HasPath(v, b.stack[|b.stack| - 1])
    requires b.value == SetAt(v, b.stack[|b.stack| - 1], Array(done))
    ensures var r := Feed(b, ItemEvents(items));
      r.stack == b.stack && r.value == SetAt(v, b.stack[|b.stack| - 1], Array(done + NormalItems(items)))
    decreases items
  {
    hide Put, PutAll, Child, HasChild, Handle, Events;
    var p := b.stack[|b.stack| - 1];
    if items == [] {
      assert done + NormalItems(items) == done;
    } else {
      var c := Feed(b, Events(items[0]));
      var more := done + [Normal(items[0])];
      SetTwice(v, p, Array(done), Array(more));
      Builds(b, items[0]);
      BuildsItems(c, v, more, items[1..]);
      FeedSplit(b, Events(items[0]), ItemEvents(items[1..]));
      assert more + NormalItems(items[1..]) == done + NormalItems(items);
    }
  }

  lemma {:induction false} BuildsMembers(b: Builder, v: Value, done: seq<Member>, members: seq<Member>)
    requires b.stack != [] && HasPath(v, b.stack[|b.stack| - 1])
    requires b.value == SetAt(v, b.stack[|b.stack| - 1], Object(done))
    ensures var r := Feed(b, MemberEvents(members));
      r.stack == b.stack && r.value == SetAt(v, b.stack[|b.stack| - 1], Object(PutAll(done, members)))
    decreases members
  {
    var p := b.stack[|b.stack| - 1];
    if members != [] {
      var m := members[0];
      var k := b.(key := m.key);
      var c := Feed(k, Events(m.value));
      var more := Put(done, m.key, Normal(m.value));
      SetTwice(v, p, Object(done), Object(more));
      Builds(k, m.value);
      BuildsMembers(c, v, more, members[1..]);
      var es := [Key(m.key)] + Events(m.value);
      FeedSplit(b, es, MemberEvents(members[1..]));
      FeedSplit(b, [Key(m.key)], Events(m.value));
      assert Feed(b, [Key(m.key)]) == k;
    }
  }

  // ------------------------------------------------------------------ normal values

  lemma {:induction false} LessExcludes(a: string, b: string)
    requires Less(a, b)
    ensures a != b && !Less(b, a)
  {
    if a != "" && a[0] == b[0] { LessExcludes(a[1..], b[1..]); }
  }

  lemma {:induction false} PutBehind(members: seq<Member>, key: string, v: Value)
    requires forall i :: 0 <= i < |members| ==> Less(members[i].key, key)
    ensures Put(members, key, v) == members + [Member(key, v)]
  {
    if members != [] {
      LessExcludes(members[0].key, key);
      PutBehind(members[1..], key, v);
      assert members == [members[0]] + members[1..];
    }
  }

  lemma BehindAll(done: seq<Member>, members: seq<Member>)
    requires Sorted(done + members) && members != []
    ensures forall i :: 0 <= i < |done| ==> Less(done[i].key, members[0].key)
  {
    forall i | 0 <= i < |done| ensures Less(done[i].key, members[0].key) {
      var all := done + members;
      assert all[i] == done[i] && all[|done|] == members[0];
    }
  }

  /** Building does not change a value the program can hold. */
  lemma {:induction false} RepresentableIsNormal(v: Value)
    requires Representable(v)
    ensures Normal(v) == v
    decreases v
  {
    match v
    case Array(items) => ItemsAreNormal(items);
    case Object(members) =>
      assert [] + members == members;
      MembersAreNormal([], members);
    case _ =>
  }

  lemma {:induction false} ItemsAreNormal(items: seq<Value>)
    requires forall i :: 0 <= i < |items| ==> Representable(items[i])
    ensures NormalItems(items) == items
    decreases items
  {
    if items != [] {
      RepresentableIsNormal(items[0]);
      ItemsAreNormal(items[1..]);
    }
  }

  lemma {:induction false} MembersAreNormal(done: seq<Member>, members: seq<Member>)
    requires Sorted(done + members)
    requires forall i :: 0 <= i < |members| ==> Representable(members[i].value)
    ensures PutAll(done, members) == done + members
    decreases members
  {
    if members == [] {
      assert done + members == done;
    } else {
      var m := members[0];
      RepresentableIsNormal(m.value);
      BehindAll(done, members);
      PutBehind(done, m.key, m.value);
      assert done + [m] + members[1..] == done + members;
      MembersAreNormal(done + [m], members[1..]);
    }
  }

  // ------------------------------------------------------------------ what stays of an object

  /** The value of the last member with a key. */
  function LastOf(members: seq<Member>, key: string): (v: Value)
    requires HasKey(members, key)
  {
    var n := |members| - 1;
    if members[n].key == key then members[n].value else LastOf(members[..n], key)
  }

  function ValueOf(members: seq<Member>, key: string): (v: Value)
    requires HasKey(members, key)
  {
    members[Find(members, key)].value
  }

  /** Setting a key leaves the others. */
  lemma {:induction false} PutOthers(members: seq<Member>, key: string, v: Value, other: string)
    requires other != key
    ensures var r := Put(members, key, v);
      (HasKey(r, other) <==> HasKey(members, other)) && (HasKey(members, other) ==> ValueOf(r, other) == ValueOf(members, other))
  {
    var r := Put(members, key, v);
    if members == [] {
    } else if members[0].key == key || !Less(key, members[0].key) {
      if members[0].key != key { PutOthers(members[1..], key, v, other); }
      FirstOrRest(members, other);
      FirstOrRest(r, other);
      assert r[1..] == if members[0].key == key then members[1..] else Put(members[1..], key, v);
    } else {
      FirstOrRest(r, other);
      assert r[1..] == members;
    }
  }

  lemma FirstOrRest(members: seq<Member>, key: string)
    requires members != []
    ensures HasKey(members, key) <==> members[0].key == key || HasKey(members[1..], key)
    ensures members[0].key != key && HasKey(members[1..], key) ==> ValueOf(members, key) == ValueOf(members[1..], key)
  {
    if i :| 0 <= i < |members[1..]| && members[1..][i].key == key { assert members[i + 1].key == key; }
    if i :| 0 <= i < |members| && members[i].key == key { assert i > 0 ==> members[1..][i - 1].key == key; }
  }

  lemma {:induction false} PutSorted(members: seq<Member>, key: string, v: Value)
    requires Sorted(members)
    ensures Sorted(Put(members, key, v))
    ensures forall low :: Less(low, key) && (forall i :: 0 <= i < |members| ==> Less(low, members[i].key)) ==>
      forall i :: 0 <= i < |Put(members, key, v)| ==> Less(low, Put(members, key, v)[i].key)
  {
    var r := Put(members, key, v);
    if members == [] {
    } else if members[0].key == key {
    } else if Less(key, members[0].key) {
      forall i | 0 <= i < |members| ensures Less(key, members[i].key) {
        if i > 0 { LessThrough(key, members[0].key, members[i].key); }
      }
    } else {
      TextTotal(key, members[0].key);
      PutSorted(members[1..], key, v);
    }
  }

  lemma LessThrough(a: string, b: string, c: string)
    requires Less(a, b) && Less(b, c)
    ensures Less(a, c)
  {
    TextBetween(b, a, c);
    TextAsymmetric(a, b);
  }

  lemma LastAdded(members: seq<Member>, key: string)
    requires members != []
    ensures HasKey(members, key) <==> members[|members| - 1].key == key || HasKey(members[..|members| - 1], key)
  {
    var n := |members| - 1;
    if i :| 0 <= i < |members| && members[i].key == key { assert i < n ==> members[..n][i].key == key; }
    if i :| 0 <= i < n && members[..n][i].key == key { assert members[i].key == key; }
    assert members[n].key == members[n].key;
  }

  lemma {:induction false} PutAllBoth(done: seq<Member>, a: seq<Member>, b: seq<Member>)
    ensures PutAll(done, a + b) == PutAll(PutAll(done, a), b)
    decreases |a|
  {
    hide Put, Normal;
    if a == [] {
      assert a + b == b;
    } else {
      PutAllBoth(Put(done, a[0].key, Normal(a[0].value)), a[1..], b);
      assert (a + b)[1..] == a[1..] + b;
    }
  }

  /** An object is built in the order of its keys, with every key of the text once, and of each the last value. */
  lemma {:induction false} LastValueStays(members: seq<Member>, key: string)
    ensures var r := PutAll([], members);
      Sorted(r) && (HasKey(r, key) <==> HasKey(members, key)) &&
      (HasKey(members, key) ==> ValueOf(r, key) == Normal(LastOf(members, key)))
    decreases |members|
  {
    hide Put, Normal, Less, Sorted, HasKey, Find, LastOf;
    if members == [] {
      NoMembers(key);
    } else {
      var n := |members| - 1;
      var front, m := members[..n], members[n];
      assert members == front + [m];
      PutAllBoth([], front, [m]);
      LastValueStays(front, key);
      var done := PutAll([], front);
      assert [m][1..] == [];
      assert PutAll([], members) == Put(done, m.key, Normal(m.value));
      PutSorted(done, m.key, Normal(m.value));
      LastAdded(members, key);
      if HasKey(members, key) { LastOfIs(members, key); }
      if key == m.key { PutHolds(done, key, Normal(m.value)); } else { PutOthers(done, m.key, Normal(m.value), key); }
    }
  }

  lemma NoMembers(key: string)
    ensures Sorted([]) && !HasKey([], key)
  {
  }

  lemma LastOfIs(members: seq<Member>, key: string)
    requires HasKey(members, key)
    ensures var n := |members| - 1;
      n >= 0 && if members[n].key == key then LastOf(members, key) == members[n].value
                else HasKey(members[..n], key) && LastOf(members, key) == LastOf(members[..n], key)
  {
  }
}
