/** The order of JSON values; an integer compared with a real is first converted to the nearest double. */
module JsonOrder {
  import opened Doubles
  import opened Json

  // ------------------------------------------------------------------ numbers

  predicate DoubleLess(a: Double, b: Double) {
    match (a, b)
    case (Finite(x), Finite(y)) => x < y
    case (MinusInfinity, Finite(_)) => true
    case (MinusInfinity, PlusInfinity) => true
    case (Finite(_), PlusInfinity) => true
    case _ => false
  }

  function Cast(n: int): (d: Double) {
    Finite(Rounded(n as real))
  }

  // ------------------------------------------------------------------ the order

  function Rank(v: Value): (r: nat) {
    match v
    case Null => 0
    case Integer(_) => 2
    case Real(_) => 2
    case Boolean(_) => 1
    case String(_) => 5
    case Object(_) => 3
    case Array(_) => 4
  }

  function Size(v: Value): (n: nat)
    decreases v
  {
    match v
    case Object(members) => 1 + MembersSize(members)
    case Array(items) => 1 + ItemsSize(items)
    case _ => 0
  }

  function ItemsSize(items: seq<Value>): (n: nat)
    decreases items
  {
    if items == [] then 0 else 1 + Size(items[0]) + ItemsSize(items[1..])
  }

  function MembersSize(members: seq<Member>): (n: nat)
    decreases members
  {
    if members == [] then 0 else 1 + Size(members[0].value) + MembersSize(members[1..])
  }

  predicate Less(a: Value, b: Value)
    decreases Size(a) + Size(b), 0
  {
    match (a, b)
    case (Object(x), Object(y)) => MembersLess(x, y)
    case (Array(x), Array(y)) => ItemsLess(x, y)
    case (Null, Null) => false
    case (Boolean(x), Boolean(y)) => !x && y
    case (String(x), String(y)) => Json.Less(x, y)
    case (Real(x), Real(y)) => DoubleLess(x, y)
    case (Integer(x), Integer(y)) => x < y
    case (Integer(x), Real(y)) => DoubleLess(Cast(x), y)
    case (Real(x), Integer(y)) => DoubleLess(x, Cast(y))
    case _ => Rank(a) < Rank(b)
  }

  /** Lexicographic, by the first elements of which one is less. */
  predicate ItemsLess(x: seq<Value>, y: seq<Value>)
    decreases ItemsSize(x) + ItemsSize(y)
  {
    y != [] && (x == [] || Less(x[0], y[0]) || (!Less(y[0], x[0]) && ItemsLess(x[1..], y[1..])))
  }

  predicate MembersLess(x: seq<Member>, y: seq<Member>)
    decreases MembersSize(x) + MembersSize(y)
  {
    y != [] &&
    (x == [] ||
     MemberLess(x[0], y[0]) ||
     (!MemberLess(y[0], x[0]) && MembersLess(x[1..], y[1..])))
  }

  /** A key decides; under keys of which none is less the value does. */
  predicate MemberLess(m: Member, k: Member)
    decreases Size(m.value) + Size(k.value), 1
  {
    Json.Less(m.key, k.key) || (!Json.Less(k.key, m.key) && Less(m.value, k.value))
  }

  // ------------------------------------------------------------------ where it is an order

  /** Integers up to a magnitude, and no NaN unless it is admitted. */
  predicate Within(v: Value, max: nat, nan: bool)
    decreases v
  {
    match v
    case Integer(n) => -n <= max && n <= max
    case Real(d) => nan || d != NaN
    case Object(members) => forall i :: 0 <= i < |members| ==> Within(members[i].value, max, nan)
    case Array(items) => forall i :: 0 <= i < |items| ==> Within(items[i], max, nan)
    case _ => true
  }

  predicate Domain(v: Value) {
    Within(v, MANTISSA, false)
  }

  lemma NumberExact(v: Value)
    requires Domain(v)
    ensures v.Integer? ==> Cast(v.n) == Finite(v.n as real)
  {
    if v.Integer? { WholeExact(v.n); }
  }

  lemma {:induction false} Asymmetric(a: Value, b: Value)
    requires Domain(a) && Domain(b)
    ensures !(Less(a, b) && Less(b, a))
    decreases Size(a) + Size(b), 0
  {
    match (a, b)
    case (Object(x), Object(y)) => MembersAsymmetric(x, y);
    case (Array(x), Array(y)) => ItemsAsymmetric(x, y);
    case (String(x), String(y)) => TextAsymmetric(x, y);
    case _ =>
  }

  lemma {:induction false} ItemsAsymmetric(x: seq<Value>, y: seq<Value>)
    requires Domain(Array(x)) && Domain(Array(y))
    ensures !(ItemsLess(x, y) && ItemsLess(y, x))
    decreases ItemsSize(x) + ItemsSize(y)
  {
    if x != [] && y != [] {
      Asymmetric(x[0], y[0]);
      ItemsAsymmetric(x[1..], y[1..]);
    }
  }

  lemma {:induction false} MembersAsymmetric(x: seq<Member>, y: seq<Member>)
    requires Domain(Object(x)) && Domain(Object(y))
    ensures !(MembersLess(x, y) && MembersLess(y, x))
    decreases MembersSize(x) + MembersSize(y)
  {
    if x != [] && y != [] {
      MemberAsymmetric(x[0], y[0]);
      MembersAsymmetric(x[1..], y[1..]);
    }
  }

  lemma {:induction false} MemberAsymmetric(m: Member, k: Member)
    requires Domain(m.value) && Domain(k.value)
    ensures !(MemberLess(m, k) && MemberLess(k, m))
    decreases Size(m.value) + Size(k.value), 1
  {
    TextAsymmetric(m.key, k.key);
    Asymmetric(m.value, k.value);
  }

  /** What is less than a value is less than every other, or the other is less than the value. */
  lemma {:induction false} Between(a: Value, b: Value, c: Value)
    requires Domain(a) && Domain(b) && Domain(c)
    ensures Less(a, c) ==> Less(a, b) || Less(b, c)
    decreases Size(a) + Size(b) + Size(c), 0
  {
    if a.Object? && b.Object? && c.Object? {
      MembersBetween(a.members, b.members, c.members);
    } else if a.Array? && b.Array? && c.Array? {
      ItemsBetween(a.items, b.items, c.items);
    } else if a.String? && b.String? && c.String? {
      TextBetween(a.s, b.s, c.s);
    } else {
      NumberExact(a);
      NumberExact(b);
      NumberExact(c);
    }
  }

  lemma {:induction false} ItemsBetween(x: seq<Value>, y: seq<Value>, z: seq<Value>)
    requires Domain(Array(x)) && Domain(Array(y)) && Domain(Array(z))
    ensures ItemsLess(x, z) ==> ItemsLess(x, y) || ItemsLess(y, z)
    decreases ItemsSize(x) + ItemsSize(y) + ItemsSize(z)
  {
    if x != [] && y != [] && z != [] {
      Between(x[0], y[0], z[0]);
      Between(y[0], z[0], x[0]);
      Between(z[0], x[0], y[0]);
      ItemsBetween(x[1..], y[1..], z[1..]);
    }
  }

  lemma {:induction false} MembersBetween(x: seq<Member>, y: seq<Member>, z: seq<Member>)
    requires Domain(Object(x)) && Domain(Object(y)) && Domain(Object(z))
    ensures MembersLess(x, z) ==> MembersLess(x, y) || MembersLess(y, z)
    decreases MembersSize(x) + MembersSize(y) + MembersSize(z)
  {
    if x != [] && y != [] && z != [] {
      MemberBetween(x[0], y[0], z[0]);
      MemberBetween(y[0], z[0], x[0]);
      MemberBetween(z[0], x[0], y[0]);
      MembersBetween(x[1..], y[1..], z[1..]);
    }
  }

  lemma {:induction false} MemberBetween(a: Member, b: Member, c: Member)
    requires Domain(a.value) && Domain(b.value) && Domain(c.value)
    ensures MemberLess(a, c) ==> MemberLess(a, b) || MemberLess(b, c)
    decreases Size(a.value) + Size(b.value) + Size(c.value), 1
  {
    TextBetween(a.key, b.key, c.key);
    TextBetween(b.key, c.key, a.key);
    TextBetween(c.key, a.key, b.key);
    Between(a.value, b.value, c.value);
  }

  // ------------------------------------------------------------------ the result

  /** Irreflexive, transitive, and "neither is less" is transitive. */
  ghost predicate StrictWeakAt(a: Value, b: Value, c: Value) {
    !Less(a, a) &&
    (Less(a, b) && Less(b, c) ==> Less(a, c)) &&
    (!Less(a, b) && !Less(b, a) && !Less(b, c) && !Less(c, b) ==> !Less(a, c) && !Less(c, a))
  }

  ghost predicate StrictWeakUpTo(max: nat, nan: bool) {
    forall a, b, c :: Within(a, max, nan) && Within(b, max, nan) && Within(c, max, nan) ==> StrictWeakAt(a, b, c)
  }

  lemma StrictWeak(a: Value, b: Value, c: Value)
    requires Domain(a) && Domain(b) && Domain(c)
    ensures StrictWeakAt(a, b, c)
  {
    Asymmetric(a, a);
    Asymmetric(b, c);
    Between(a, c, b);
    Between(a, b, c);
    Between(c, b, a);
  }

  /** The values with integers up to a magnitude are ordered if and only if it is at most 2 to the 53 and there is no NaN. */
  lemma OrderedUpTo(max: nat, nan: bool)
    ensures StrictWeakUpTo(max, nan) <==> max <= MANTISSA && !nan
  {
    if nan {
      NaNBreaks(max);
    } else if max <= MANTISSA {
      forall a, b, c | Within(a, max, false) && Within(b, max, false) && Within(c, max, false) ensures StrictWeakAt(a, b, c) {
        WithinMore(a, max, MANTISSA);
        WithinMore(b, max, MANTISSA);
        WithinMore(c, max, MANTISSA);
        StrictWeak(a, b, c);
      }
    } else {
      var a, b, c := Integer(MANTISSA), Real(Finite(MANTISSA as real)), Integer(MANTISSA + 1);
      WholeExact(MANTISSA);
      FirstInexact();
      assert Within(a, max, false) && Within(b, max, false) && Within(c, max, false);
      assert !StrictWeakAt(a, b, c);
    }
  }

  /** NaN is neither less nor greater than two numbers of which one is less. */
  lemma NaNBreaks(max: nat)
    ensures !StrictWeakUpTo(max, true)
  {
    var a, b, c := Real(Finite(0.0)), Real(NaN), Real(Finite(1.0));
    assert Within(a, max, true) && Within(b, max, true) && Within(c, max, true);
    assert !StrictWeakAt(a, b, c);
  }

  lemma {:induction false} WithinMore(v: Value, max: nat, more: nat)
    requires Within(v, max, false) && max <= more
    ensures Within(v, more, false)
    decreases v
  {
    match v
    case Object(members) =>
      forall i | 0 <= i < |members| ensures Within(members[i].value, more, false) { WithinMore(members[i].value, max, more); }
    case Array(items) =>
      forall i | 0 <= i < |items| ensures Within(items[i], more, false) { WithinMore(items[i], max, more); }
    case _ =>
  }

  /** With NaN three arrays can be less than each other in a circle. */
  lemma NaNGoesRound()
    ensures var a, b, c := Array([Real(NaN), Integer(4)]), Array([Integer(1), Integer(5)]), Array([Integer(2), Integer(3)]);
      Less(a, b) && Less(b, c) && Less(c, a)
  {
    var a, b, c := [Real(NaN), Integer(4)], [Integer(1), Integer(5)], [Integer(2), Integer(3)];
    assert a[1..] == [Integer(4)] && b[1..] == [Integer(5)] && c[1..] == [Integer(3)];
    assert ItemsLess(a, b) && ItemsLess(b, c) && ItemsLess(c, a);
  }

  // ------------------------------------------------------------------ what the order says

  /** Values of different kinds: null, booleans, numbers, objects, arrays, strings. */
  lemma KindsOrdered(n: Value, b: Value, x: Value, o: Value, r: Value, s: Value)
    requires n.Null? && b.Boolean? && (x.Integer? || x.Real?) && o.Object? && r.Array? && s.String?
    ensures Ascending([n, b, x, o, r, s])
  {
    var vs := [n, b, x, o, r, s];
    forall i, j | 0 <= i < j < |vs| ensures Less(vs[i], vs[j]) && !Less(vs[j], vs[i]) {
      assert Rank(vs[i]) == i && Rank(vs[j]) == j;
    }
  }

  predicate Ascending(vs: seq<Value>) {
    forall i, j :: 0 <= i < j < |vs| ==> Less(vs[i], vs[j]) && !Less(vs[j], vs[i])
  }

  /** The number a value stands for. */
  function NumberOf(v: Value): (x: real)
    requires v.Integer? || (v.Real? && v.d.Finite?)
  {
    if v.Integer? then v.n as real else v.d.x
  }

  /** False comes before true, and numbers in the order of what they stand for, whether integers or reals. */
  lemma ByValue(a: Value, b: Value)
    ensures a.Boolean? && b.Boolean? ==> (Less(a, b) <==> a == Boolean(false) && b == Boolean(true))
    ensures Domain(a) && Domain(b) && (a.Integer? || (a.Real? && a.d.Finite?)) && (b.Integer? || (b.Real? && b.d.Finite?)) ==>
      (Less(a, b) <==> NumberOf(a) < NumberOf(b))
  {
    hide Rounded;
    if Domain(a) && Domain(b) {
      NumberExact(a);
      NumberExact(b);
    }
  }

  /** At the first place where two texts differ the second goes on, or has the greater character. */
  predicate TextDiffersAt(a: string, b: string, k: nat) {
    k <= |a| && k < |b| && a[..k] == b[..k] && (k == |a| || a[k] < b[k])
  }

  lemma {:induction false} TextByDifference(a: string, b: string)
    ensures Json.Less(a, b) <==> exists k: nat :: TextDiffersAt(a, b, k)
    decreases |a|
  {
    if b == "" {
    } else if a == "" || a[0] != b[0] {
      assert a == "" || a[0] < b[0] ==> TextDiffersAt(a, b, 0);
    } else {
      TextByDifference(a[1..], b[1..]);
      if Json.Less(a[1..], b[1..]) {
        var k: nat :| TextDiffersAt(a[1..], b[1..], k);
        assert a[..k + 1] == [a[0]] + a[1..][..k] && b[..k + 1] == [b[0]] + b[1..][..k];
        assert TextDiffersAt(a, b, k + 1);
      }
      if k: nat :| TextDiffersAt(a, b, k) {
        assert k > 0 && a[1..][..k - 1] == a[..k][1..] && b[1..][..k - 1] == b[..k][1..];
        assert TextDiffersAt(a[1..], b[1..], k - 1);
      }
    }
  }

  predicate Neither(a: Value, b: Value) {
    !Less(a, b) && !Less(b, a)
  }

  /** At the first place where one of two elements is less the second array goes on, or has the greater element. */
  predicate ItemsDifferAt(x: seq<Value>, y: seq<Value>, k: nat) {
    k <= |x| && k < |y| && (forall i :: 0 <= i < k ==> Neither(x[i], y[i])) && (k == |x| || Less(x[k], y[k]))
  }

  lemma {:induction false} ItemsByDifference(x: seq<Value>, y: seq<Value>)
    ensures Less(Array(x), Array(y)) <==> exists k: nat :: ItemsDifferAt(x, y, k)
    decreases |x|
  {
    hide Neither;
    if y == [] {
    } else if x == [] || Less(x[0], y[0]) {
      assert ItemsDifferAt(x, y, 0);
    } else {
      ItemsByDifference(x[1..], y[1..]);
      FirstNeither(x[0], y[0]);
      assert Less(Array(x[1..]), Array(y[1..])) <==> ItemsLess(x[1..], y[1..]);
      if Neither(x[0], y[0]) && ItemsLess(x[1..], y[1..]) {
        var k: nat :| ItemsDifferAt(x[1..], y[1..], k);
        assert ItemsDifferAt(x, y, k + 1);
      }
      if k: nat :| ItemsDifferAt(x, y, k) {
        assert k > 0;
        assert ItemsDifferAt(x[1..], y[1..], k - 1);
      }
    }
  }

  lemma FirstNeither(a: Value, b: Value)
    requires !Less(a, b)
    ensures Neither(a, b) <==> !Less(b, a)
  {
  }

  /** The same for objects, member by member: a key decides, and under one key the value. */
  predicate MembersDifferAt(x: seq<Member>, y: seq<Member>, k: nat) {
    k <= |x| && k < |y| && (forall i :: 0 <= i < k ==> x[i].key == y[i].key && Neither(x[i].value, y[i].value)) &&
    (k == |x| || Json.Less(x[k].key, y[k].key) || (x[k].key == y[k].key && Less(x[k].value, y[k].value)))
  }

  lemma MemberByKey(m: Member, k: Member)
    ensures MemberLess(m, k) <==> Json.Less(m.key, k.key) || (m.key == k.key && Less(m.value, k.value))
  {
    hide Less;
    TextTotal(m.key, k.key);
    TextAsymmetric(m.key, k.key);
  }

  lemma {:induction false} MembersByDifference(x: seq<Member>, y: seq<Member>)
    ensures Less(Object(x), Object(y)) <==> exists k: nat :: MembersDifferAt(x, y, k)
    decreases |x|
  {
    hide Neither, MemberLess;
    if y == [] {
    } else if x == [] {
      assert MembersDifferAt(x, y, 0);
    } else {
      MemberByKey(x[0], y[0]);
      MemberByKey(y[0], x[0]);
      if MemberLess(x[0], y[0]) {
        assert MembersDifferAt(x, y, 0);
      } else {
        MembersByDifference(x[1..], y[1..]);
        SameMember(x[0], y[0]);
        assert Less(Object(x[1..]), Object(y[1..])) <==> MembersLess(x[1..], y[1..]);
        if !MemberLess(y[0], x[0]) && MembersLess(x[1..], y[1..]) {
          var k: nat :| MembersDifferAt(x[1..], y[1..], k);
          assert MembersDifferAt(x, y, k + 1);
        }
        if k: nat :| MembersDifferAt(x, y, k) {
          assert k > 0;
          assert MembersDifferAt(x[1..], y[1..], k - 1);
        }
      }
    }
  }

  lemma SameMember(m: Member, k: Member)
    requires !MemberLess(m, k)
    ensures !MemberLess(k, m) <==> m.key == k.key && Neither(m.value, k.value)
  {
    hide Less;
    TextTotal(m.key, k.key);
    TextAsymmetric(m.key, k.key);
  }
}
