/**
  Which values parsing brings back.  The proof counts quotes and backslashes: the
  parser never reads fewer of them than the strings it returns hold, with two for
  each string, and it reads exactly as many only where nothing was unescaped.
*/
module JsonExact {
  import opened Doubles
  import opened Json
  import opened Numerals
  import opened JsonText
  import opened JsonBuilder
  import opened JsonRoundTrip

  // ------------------------------------------------------------------ counting

  predicate IsMark(c: char) {
    c == '"' || c == '\\'
  }

  function Marks(s: string): (n: nat) {
    if s == "" then 0 else (if IsMark(s[0]) then 1 else 0) + Marks(s[1..])
  }

  function Cost(v: Value): (n: nat)
    decreases v
  {
    match v
    case String(s) => Marks(s) + 2
    case Array(items) => ItemsCost(items)
    case Object(members) => MembersCost(members)
    case _ => 0
  }

  function ItemsCost(items: seq<Value>): (n: nat)
    decreases items
  {
    if items == [] then 0 else Cost(items[0]) + ItemsCost(items[1..])
  }

  function MembersCost(members: seq<Member>): (n: nat)
    decreases members
  {
    if members == [] then 0 else Marks(members[0].key) + 2 + Cost(members[0].value) + MembersCost(members[1..])
  }

  lemma {:induction false} MarksOfBoth(s: string, t: string)
    ensures Marks(s + t) == Marks(s) + Marks(t)
  {
    if s == "" {
      assert s + t == t;
    } else {
      MarksOfBoth(s[1..], t);
      assert (s + t)[1..] == s[1..] + t;
    }
  }

  lemma {:induction false} NoMarks(s: string)
    requires forall i :: 0 <= i < |s| ==> !IsMark(s[i])
    ensures Marks(s) == 0
  {
    if s != "" { NoMarks(s[1..]); }
  }

  // ------------------------------------------------------------------ the printed text

  lemma {:induction false} PrintCost(v: Value)
    ensures Marks(Print(v)) == Cost(v)
    decreases v
  {
    hide PrintItems, PrintMembers, RealText, Digits, ItemsCost, MembersCost, Quoted;
    match v
    case Integer(n) =>
      DigitsAreDigits(if n < 0 then -n else n);
      NoMarks(Print(v));
    case Real(d) => RealTextCost(d);
    case String(s) => QuotedCost(s);
    case Array(items) =>
      PrintItemsCost(items);
      MarksOfBoth("[", PrintItems(items));
      MarksOfBoth("[" + PrintItems(items), "]");
    case Object(members) =>
      PrintMembersCost(members);
      MarksOfBoth("{", PrintMembers(members));
      MarksOfBoth("{" + PrintMembers(members), "}");
    case _ => NoMarks(Print(v));
  }

  lemma RealTextCost(d: Double)
    ensures Marks(RealText(d)) == 0
  {
    hide Digits, Padded, Millionths;
    if d.Finite? { DigitsAreDigits(Millionths(d.x) / MILLION); }
    NoMarks(RealText(d));
  }

  lemma QuotedCost(s: string)
    ensures Marks(Quoted(s)) == Marks(s) + 2
  {
    MarksOfBoth("\"", s);
    MarksOfBoth("\"" + s, "\"");
  }

  lemma {:induction false} PrintItemsCost(items: seq<Value>)
    ensures Marks(PrintItems(items)) == ItemsCost(items)
    decreases items
  {
    if items != [] {
      var first := Print(items[0]);
      PrintCost(items[0]);
      PrintItemsCost(items[1..]);
      MarksOfBoth(first, ", ");
      MarksOfBoth(first + ", ", PrintItems(items[1..]));
      NoMarks(", ");
    }
  }

  lemma {:induction false} PrintMembersCost(members: seq<Member>)
    ensures Marks(PrintMembers(members)) == MembersCost(members)
    decreases members
  {
    hide MemberText, Marks;
    if members == [] {
      NoMarks("");
    } else {
      var first := MemberText(members[0]);
      MemberTextCost(members[0]);
      PrintMembersCost(members[1..]);
      MarksOfBoth(first, ", ");
      MarksOfBoth(first + ", ", PrintMembers(members[1..]));
      NoMarks(", ");
    }
  }

  lemma {:induction false} MemberTextCost(m: Member)
    ensures Marks(MemberText(m)) == Marks(m.key) + 2 + Cost(m.value)
    decreases m
  {
    hide Quoted, Marks;
    QuotedCost(m.key);
    PrintCost(m.value);
    MarksOfBoth(Quoted(m.key), ": ");
    MarksOfBoth(Quoted(m.key) + ": ", Print(m.value));
    NoMarks(": ");
  }

  lemma TextCost(v: Value, pretty: bool)
    ensures Marks(Text(v, pretty)) == Cost(v)
  {
    PrintCost(v);
    if v.Object? && pretty {
      PrintMembersCost(v.members);
      MarksOfBoth("{\n", PrintMembers(v.members));
      MarksOfBoth("{\n" + PrintMembers(v.members), "}");
      NoMarks("{\n");
    }
  }

  // ------------------------------------------------------------------ what parsing costs

  /** The text went from `s` to `rest` and paid for `cost`; it paid no more only if `clean` holds. */
  predicate Paid(s: string, rest: string, cost: nat, clean: bool) {
    Marks(s) >= Marks(rest) + cost && (Marks(s) == Marks(rest) + cost ==> clean)
  }

  /** The string ends with a quote, not with the text. */
  predicate Closes(s: string)
    decreases |s|
  {
    Peek(s) != '\0' &&
    (if s[0] == '"' then true
     else if s[0] == '\\' then (if UnicodeFirst(s) then Closes(s[6..]) else |s| >= 2 && Closes(s[2..]))
     else Closes(s[1..]))
  }

  lemma {:induction false} SkipCost(s: string)
    ensures Marks(Skip(s)) == Marks(s)
  {
    if s != "" && IsSpace(s[0]) { SkipCost(s[1..]); }
  }

  /** A part of the text in front that gives a part of the string. */
  lemma PaidInFront(part: string, gives: string, s: string, b: string, rest: string)
    requires Paid(s, rest, Marks(b) + 1, Clean(b))
    requires Marks(part) >= Marks(gives) && (Marks(part) == Marks(gives) && Clean(b) ==> Clean(gives + b))
    ensures Paid(part + s, rest, Marks(gives + b) + 1, Clean(gives + b))
  {
    hide Marks, Clean;
    MarksOfBoth(part, s);
    MarksOfBoth(gives, b);
  }

  lemma CleanPart(part: string, b: string)
    requires Clean(b) && ((UnicodeFirst(part) && |part| == 6) || (|part| == 1 && !IsMark(part[0]) && part[0] != '\0'))
    ensures Clean(part + b)
  {
    assert (part + b)[|part|..] == b;
  }

  lemma EscapeCosts(c: char)
    requires Unescaped(c) != ""
    ensures Marks(['\\', c]) > Marks(Unescaped(c))
  {
    var e := Unescaped(c);
    assert e[1..] == "" && ['\\', c][1..] == [c] && [c][1..] == "";
  }

  lemma {:induction false} BodyCost(s: string)
    requires StringBody(s).Good?
    ensures var r := StringBody(s);
      if Closes(s) then Paid(s, r.rest, Marks(r.value) + 1, Clean(r.value))
      else Peek(r.rest) == '\0'
    decreases |s|
  {
    hide Unescaped, Paid, Clean;
    if Peek(s) == '\0' {
    } else if s[0] == '"' {
      assert Clean("") by { EmptyClean(); }
      QuoteCost(s);
    } else {
      var n := if s[0] != '\\' then 1 else if UnicodeFirst(s) then 6 else 2;
      var part, tail := s[..n], s[n..];
      assert part + tail == s;
      BodyCost(tail);
      if Closes(s) {
        var b := StringBody(tail).value;
        if n == 2 {
          EscapeCosts(s[1]);
          assert part == ['\\', s[1]];
          PaidInFront(part, Unescaped(s[1]), tail, b, StringBody(tail).rest);
        } else {
          if Clean(b) { CleanPart(part, b); }
          assert n == 1 ==> part == [s[0]];
          PaidInFront(part, part, tail, b, StringBody(tail).rest);
        }
      }
    }
  }

  lemma EmptyClean()
    ensures Clean("")
  {
  }

  lemma QuoteCost(s: string)
    requires s != "" && s[0] == '"'
    ensures Paid(s, s[1..], Marks("") + 1, true)
  {
  }

  lemma {:induction false} SuffixCost(s: string, k: nat)
    requires k <= |s|
    ensures Marks(s[k..]) <= Marks(s)
  {
    MarksOfBoth(s[..k], s[k..]);
    assert s[..k] + s[k..] == s;
  }

  /** The string at the front of the text has a closing quote. */
  predicate ClosedFirst(s: string) {
    Peek(Skip(s)) == '"' && Closes(Skip(s)[1..])
  }

  lemma StringCost(s: string)
    requires ParseString(s).Good?
    ensures var r := ParseString(s);
      if ClosedFirst(s) then Paid(s, r.rest, Marks(r.value) + 2, Clean(r.value)) else Peek(r.rest) == '\0'
  {
    SkipCost(s);
    BodyCost(Advance(Skip(s)));
  }

  lemma NumberCost(s: string)
    requires ParseNumber(s).Good?
    ensures Marks(ParseNumber(s).rest) <= Marks(s)
  {
    hide ParseReal, DigitRun, NumberOf, Skip;
    SkipCost(s);
    var t := Skip(s);
    var u := if Peek(t) == '-' || Peek(t) == '+' then t[1..] else t;
    var n := DigitRun(u);
    SuffixCost(u, n);
    if Peek(u[n..]) == '.' { RealCost(Peek(t) == '-', u, n); }
  }

  lemma RealCost(negative: bool, u: string, n: nat)
    requires n == DigitRun(u) && Peek(u[n..]) == '.' && ParseReal(negative, u, n).Good?
    ensures Marks(ParseReal(negative, u, n).rest) <= Marks(u)
  {
    hide DigitRun, Exponent, Decimal, Scaled, Overflows, Underflows, Rounded, Marks;
    var f := DigitRun(u[n + 1..]);
    var v := u[n + 1..][f..];
    SuffixCost(u, n + 1);
    SuffixCost(u[n + 1..], f);
    SuffixCost(v, Exponent(v).1);
  }

  lemma WordCost(s: string, word: string, v: Value)
    requires ParseWord(s, word, v).Good?
    ensures Marks(ParseWord(s, word, v).rest) <= Marks(s)
  {
    SuffixCost(s, |word|);
  }

  lemma {:induction false} ValueCost(s: string)
    requires ParseValue(s).Good?
    ensures var r := ParseValue(s);
      Paid(s, r.rest, Cost(r.value), AllClean(r.value)) || (Peek(r.rest) == '\0' && r.value.String? && !ClosedFirst(s))
    decreases |s|, 2
  {
    SkipCost(s);
    var u := Skip(s);
    match Peek(u)
    case '{' =>
      SkipCost(u[1..]);
      var t := Skip(u[1..]);
      if Peek(t) != '}' { ManyMembersCost(t); }
    case '[' =>
      SkipCost(u[1..]);
      var t := Skip(u[1..]);
      if Peek(t) != ']' { ManyItemsCost(t); }
    case '"' => StringCost(u);
    case 't' => WordCost(u, "true", Boolean(true));
    case 'f' => WordCost(u, "false", Boolean(false));
    case 'n' => WordCost(u, "null", Null);
    case _ => NumberCost(u);
  }

  lemma {:induction false} ManyItemsCost(s: string)
    requires ParseItems(s).Good?
    ensures var r := ParseItems(s);
      Paid(s, r.rest, ItemsCost(r.value), forall i :: 0 <= i < |r.value| ==> AllClean(r.value[i]))
    decreases |s|, 3
  {
    ValueCost(s);
    var r := ParseValue(s);
    SkipCost(r.rest);
    var u := Skip(r.rest);
    if Peek(u) == ',' {
      ManyItemsCost(u[1..]);
      assert ParseItems(s).value[1..] == ParseItems(u[1..]).value;
    }
  }

  lemma {:induction false} MemberCost(s: string)
    requires ParseMember(s).Good? && Peek(Skip(ParseMember(s).rest)) != '\0'
    ensures var r := ParseMember(s);
      Paid(s, r.rest, Marks(r.value.key) + 2 + Cost(r.value.value), Clean(r.value.key) && AllClean(r.value.value))
    decreases |s|, 0
  {
    StringCost(s);
    var k := ParseString(s);
    SkipCost(k.rest);
    var t := Skip(k.rest);
    ValueCost(t[1..]);
  }

  lemma {:induction false} ManyMembersCost(s: string)
    requires ParseMembers(s).Good?
    ensures var r := ParseMembers(s);
      Paid(s, r.rest, MembersCost(r.value),
           forall i :: 0 <= i < |r.value| ==> Clean(r.value[i].key) && AllClean(r.value[i].value))
    decreases |s|, 1
  {
    MemberCost(s);
    var r := ParseMember(s);
    SkipCost(r.rest);
    var u := Skip(r.rest);
    if Peek(u) == ',' {
      ManyMembersCost(u[1..]);
      assert ParseMembers(s).value[1..] == ParseMembers(u[1..]).value;
    }
  }

  // ------------------------------------------------------------------ what building costs

  lemma {:induction false} PutCost(members: seq<Member>, key: string, v: Value)
    ensures MembersCost(Put(members, key, v)) <= MembersCost(members) + Marks(key) + 2 + Cost(v)
  {
    var r := Put(members, key, v);
    if members == [] {
      assert r[1..] == [];
    } else if members[0].key == key {
      assert r[1..] == members[1..];
    } else if Less(key, members[0].key) {
      assert r[1..] == members;
    } else {
      PutCost(members[1..], key, v);
      assert r[1..] == Put(members[1..], key, v);
    }
  }

  lemma {:induction false} NormalCost(v: Value)
    ensures Cost(Normal(v)) <= Cost(v)
    decreases v
  {
    match v
    case Array(items) => NormalItemsCost(items);
    case Object(members) => PutAllCost([], members);
    case _ =>
  }

  lemma {:induction false} NormalItemsCost(items: seq<Value>)
    ensures ItemsCost(NormalItems(items)) <= ItemsCost(items)
    decreases items
  {
    if items != [] {
      NormalCost(items[0]);
      NormalItemsCost(items[1..]);
    }
  }

  lemma {:induction false} PutAllCost(done: seq<Member>, members: seq<Member>)
    ensures MembersCost(PutAll(done, members)) <= MembersCost(done) + MembersCost(members)
    decreases members
  {
    if members != [] {
      var m := members[0];
      NormalCost(m.value);
      PutCost(done, m.key, Normal(m.value));
      PutAllCost(Put(done, m.key, Normal(m.value)), members[1..]);
    }
  }

  predicate CleanMembers(members: seq<Member>) {
    forall i :: 0 <= i < |members| ==> Clean(members[i].key) && AllClean(members[i].value)
  }

  lemma {:induction false} PutClean(members: seq<Member>, key: string, v: Value)
    requires CleanMembers(members) && Clean(key) && AllClean(v)
    ensures CleanMembers(Put(members, key, v))
  {
    if members != [] { PutClean(members[1..], key, v); }
  }

  lemma {:induction false} NormalClean(v: Value)
    requires AllClean(v)
    ensures AllClean(Normal(v))
    decreases v
  {
    match v
    case Array(items) =>
      NormalItemsClean(items);
      assert CleanItems(Normal(v).items);
    case Object(members) => PutAllClean([], members);
    case _ =>
  }

  predicate CleanItems(items: seq<Value>) {
    forall i :: 0 <= i < |items| ==> AllClean(items[i])
  }

  lemma {:induction false} NormalItemsClean(items: seq<Value>)
    requires CleanItems(items)
    ensures CleanItems(NormalItems(items))
    decreases items
  {
    if items != [] {
      NormalClean(items[0]);
      NormalItemsClean(items[1..]);
      var r, t := NormalItems(items), NormalItems(items[1..]);
      forall i | 0 <= i < |r| ensures AllClean(r[i]) {
        assert i > 0 ==> r[i] == t[i - 1];
      }
    }
  }

  lemma {:induction false} PutAllClean(done: seq<Member>, members: seq<Member>)
    requires CleanMembers(done) && CleanMembers(members)
    ensures CleanMembers(PutAll(done, members))
    decreases members
  {
    if members != [] {
      var m := members[0];
      NormalClean(m.value);
      PutClean(done, m.key, Normal(m.value));
      PutAllClean(Put(done, m.key, Normal(m.value)), members[1..]);
    }
  }

  // ------------------------------------------------------------------ strings without an end

  /** Where only an escaped quote ends the text, that quote is read last. */
  lemma {:induction false} OpenBody(s: string)
    requires s != "" && s[|s| - 1] == '"' && !Closes(s) && StringBody(s).Good?
    requires Peek(StringBody(s).rest) == '\0' && StringBody(s).rest == ""
    ensures |s| >= 2 && s[|s| - 2] == '\\'
    ensures var b := StringBody(s).value; b != "" && b[|b| - 1] == '"'
    decreases |s|
  {
    var b := StringBody(s).value;
    if s[0] == '\\' && UnicodeFirst(s) {
      OpenBody(s[6..]);
    } else if s[0] == '\\' {
      if |s| > 2 { OpenBody(s[2..]); }
    } else {
      OpenBody(s[1..]);
    }
  }

  lemma {:induction false} NoZeros(s: string)
    requires StringBody(s).Good?
    ensures '\0' !in StringBody(s).value
    ensures '\0' !in s ==> '\0' !in StringBody(s).rest
    decreases |s|
  {
    hide Unescaped;
    if Peek(s) == '\0' || s[0] == '"' {
    } else if s[0] == '\\' && UnicodeFirst(s) {
      NoZeros(s[6..]);
    } else if s[0] == '\\' {
      NoZeros(s[2..]);
    } else {
      NoZeros(s[1..]);
    }
  }

  /** A string that comes back was closed by its own quote. */
  lemma StringCloses(s: string)
    requires ParseValue(Quoted(s)).Good? && ParseValue(Quoted(s)).value == String(s)
    ensures ClosedFirst(Quoted(s))
  {
    var t := s + "\"";
    assert Skip(Quoted(s)) == Quoted(s) && Quoted(s)[1..] == t;
    NoZeros(t);
    BodyCost(t);
    if !Closes(t) { OpenBody(t); }
  }

  // ------------------------------------------------------------------ the result

  lemma {:induction false} RereadCost(v: Value)
    ensures Cost(RereadAll(v)) == Cost(v)
    decreases v
  {
    match v
    case Array(items) => RereadItemsCost(items);
    case Object(members) => RereadMembersCost(members);
    case _ =>
  }

  lemma {:induction false} RereadItemsCost(items: seq<Value>)
    ensures ItemsCost(RereadItems(items)) == ItemsCost(items)
    decreases items
  {
    hide RereadAll, Cost;
    if items != [] {
      RereadCost(items[0]);
      RereadItemsCost(items[1..]);
      assert RereadItems(items)[1..] == RereadItems(items[1..]);
    }
  }

  lemma {:induction false} RereadMembersCost(members: seq<Member>)
    ensures MembersCost(RereadMembers(members)) == MembersCost(members)
    decreases members
  {
    hide RereadAll, Cost;
    if members != [] {
      RereadCost(members[0].value);
      RereadMembersCost(members[1..]);
      assert RereadMembers(members)[1..] == RereadMembers(members[1..]);
    }
  }

  /** Rounding the reals of a value changes no string and no order, and nothing if and only if every real reads back. */
  predicate Kept(v: Value, r: Value) {
    (AllClean(r) <==> AllClean(v)) && (Representable(v) ==> Representable(r)) && (AllReadable(v) && r == v <==> AllReadBack(v))
  }

  lemma {:induction false} RereadKeeps(v: Value)
    ensures Kept(v, RereadAll(v))
    decreases v
  {
    hide Kept, RereadItems, RereadMembers;
    match v
    case Array(items) =>
      forall i | 0 <= i < |items| ensures Kept(items[i], RereadAll(items[i])) { RereadKeeps(items[i]); }
      KeptItems(items, RereadItems(items));
    case Object(members) =>
      forall i | 0 <= i < |members| ensures Kept(members[i].value, RereadAll(members[i].value)) { RereadKeeps(members[i].value); }
      KeptMembers(members, RereadMembers(members));
    case _ => assert Kept(v, RereadAll(v)) by { KeptScalar(v); }
  }

  lemma KeptScalar(v: Value)
    requires !v.Array? && !v.Object?
    ensures Kept(v, RereadAll(v))
  {
    hide Readable, Reread;
  }

  lemma KeptItems(items: seq<Value>, r: seq<Value>)
    requires |r| == |items| && forall i :: 0 <= i < |items| ==> Kept(items[i], r[i])
    ensures Kept(Array(items), Array(r))
  {
    assert r == items <==> forall i :: 0 <= i < |items| ==> r[i] == items[i];
  }

  lemma KeptMembers(members: seq<Member>, r: seq<Member>)
    requires |r| == |members|
    requires forall i :: 0 <= i < |members| ==> r[i].key == members[i].key && Kept(members[i].value, r[i].value)
    ensures Kept(Object(members), Object(r))
  {
    hide Less, Clean;
    assert r == members <==> forall i :: 0 <= i < |members| ==> r[i].value == members[i].value by {
      if forall i :: 0 <= i < |members| ==> r[i].value == members[i].value {
        forall i | 0 <= i < |members| ensures r[i] == members[i] { }
      }
    }
  }

  /**
    Parsing the text of a value returns it, with its reals as they were printed, if
    and only if no string or key of it needs an escape and the whole part of every
    real fits 64 bits.
  */
  lemma TextRead(v: Value, pretty: bool)
    requires Representable(v)
    ensures
      (var r := Parse(Text(v, pretty)); r.Good? && r.value == RereadAll(v)) <==> AllClean(v) && AllReadable(v)
  {
    hide Text, ParseDocument, RereadAll, Representable, AllClean;
    RereadKeeps(v);
    if AllClean(v) {
      DocumentComesBack(v, pretty);
      RepresentableIsNormal(RereadAll(v));
    } else if Parse(Text(v, pretty)).Good? && Parse(Text(v, pretty)).value == RereadAll(v) {
      NeedsClean(v, pretty, RereadAll(v));
    }
  }

  /** It returns the value itself if and only if every real is also the double nearest to its own six decimals. */
  lemma RoundTrip(v: Value, pretty: bool)
    requires Representable(v)
    ensures (var r := Parse(Text(v, pretty)); r.Good? && r.value == v) <==> AllClean(v) && AllReadBack(v)
  {
    hide Text, ParseDocument, RereadAll, Representable, AllClean, AllReadable, AllReadBack;
    RereadKeeps(v);
    if AllClean(v) {
      DocumentComesBack(v, pretty);
      RepresentableIsNormal(RereadAll(v));
    } else if Parse(Text(v, pretty)).Good? && Parse(Text(v, pretty)).value == v {
      NeedsClean(v, pretty, v);
    }
  }

  /** A value that comes back, with or without its reals rounded, has clean strings only. */
  lemma NeedsClean(v: Value, pretty: bool, w: Value)
    requires w == v || w == RereadAll(v)
    requires var r := Parse(Text(v, pretty)); r.Good? && r.value == w
    ensures AllClean(v)
  {
    hide Text, ParseValue, Cost, Marks;
    RereadKeeps(v);
    RereadCost(v);
    var t := Text(v, pretty);
    var u := ParseDocument(t).value;
    ValueCost(t);
    TextCost(v, pretty);
    if u.String? { StringText(v, u, pretty); }
    NormalCost(u);
    assert AllClean(u);
    NormalClean(u);
  }

  lemma StringText(v: Value, u: Value, pretty: bool)
    requires u.String? && (v == u || RereadAll(v) == u)
    requires ParseValue(Text(v, pretty)).Good? && ParseValue(Text(v, pretty)).value == u
    ensures ClosedFirst(Text(v, pretty))
  {
    hide ParseValue, ClosedFirst;
    assert v == u;
    StringCloses(u.s);
  }

  /** Every double that is nearest to a number of millionths below 2 to the 33 is read back from its text. */
  lemma MillionthsReadBack(k: int)
    requires Abs(k as real / MILLION as real) < 8589934592.0
    ensures ReadsBack(Finite(Rounded(k as real / MILLION as real)))
  {
    hide Rounded, NearestInt;
    var x := Rounded(k as real / MILLION as real);
    var y := x * MILLION as real;
    MillionthsKept(k);
    assert Abs(y - k as real) <= 0.5;
    if k == 0 {
      ZeroStays();
    } else {
      assert x < 0.0 <==> k < 0;
      NearestOfNegative(y);
      assert Abs(x) * MILLION as real == if x < 0.0 then -y else y;
    }
    assert Millionths(x) == if k < 0 then -k else k;
    assert SixDecimals(x) == k as real / MILLION as real;
  }

  /** The builder ends with that value and with no container open. */
  lemma BuildsParsed(text: string, b: Builder)
    requires b.stack == [] && ParseDocument(text).Good?
    ensures var r := Feed(b, Events(ParseDocument(text).value)); r.value == Parse(text).value && r.stack == []
  {
    Builds(b, ParseDocument(text).value);
  }
}
