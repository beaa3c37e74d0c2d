/** Parsing undoes printing, but for the reals, of which six decimals are printed. */
module JsonRoundTrip {
  import opened Doubles
  import opened Json
  import opened Numerals
  import opened JsonText
  import opened JsonBuilder

  // ------------------------------------------------------------------ strings and numbers

  lemma {:induction false} BodyComesBack(s: string, rest: string)
    requires Clean(s)
    ensures StringBody(s + "\"" + rest) == Good(s, rest)
    decreases |s|
  {
    var t := s + "\"" + rest;
    if s == "" {
      assert t[1..] == rest;
    } else if s[0] == '\\' {
      BodyComesBack(s[6..], rest);
      assert t[6..] == s[6..] + "\"" + rest;
      assert t[..6] == s[..6];
      assert s[..6] + s[6..] == s;
    } else {
      BodyComesBack(s[1..], rest);
      assert t[1..] == s[1..] + "\"" + rest;
      assert [s[0]] + s[1..] == s;
    }
  }

  lemma StringComesBack(s: string, rest: string)
    requires Clean(s)
    ensures ParseString(Quoted(s) + rest) == Good(s, rest)
  {
    hide StringBody, Clean;
    BodyComesBack(s, rest);
    QuotedFirst(s, rest);
  }

  lemma QuotedFirst(s: string, rest: string)
    ensures var t := Quoted(s) + rest; t[0] == '"' && t[1..] == s + "\"" + rest && Skip(t) == t
  {
  }

  lemma NumberComesBack(n: int, rest: string)
    requires -INT64_MAX - 1 <= n <= INT64_MAX && EndsNumber(Peek(rest))
    ensures ParseNumber(IntText(n) + rest) == Good(Integer(n), rest)
  {
    hide Digits, DigitRun, ParseNumber, ParseReal;
    var m := if n < 0 then -n else n;
    NumberRead(n < 0, m, rest);
    assert IntText(n) + rest == (if n < 0 then "-" else "") + (Digits(m) + rest);
  }

  /** Digits are read, and a point behind them makes a real. */
  lemma NumberRead(negative: bool, m: nat, tail: string)
    requires tail == "" || !IsDigit(tail[0])
    ensures
      var u, n := Digits(m) + tail, |Digits(m)|;
      var x := if negative then -(m as int) else m;
      DigitRun(u) == n && u[n..] == tail &&
      ParseNumber((if negative then "-" else "") + u) ==
        if !(-INT64_MAX - 1 <= x <= INT64_MAX) then Bad
        else if Peek(tail) == '.' then ParseReal(negative, u, n)
        else if EndsNumber(Peek(tail)) then Good(Integer(x), tail)
        else Bad
  {
    hide NumberOf, Digits, DigitRun, ParseReal, Skip, EndsNumber;
    DigitsFirst(m, tail);
    SignFirst(negative, Digits(m), tail);
  }

  /** Digits, with or without a minus in front, are read as such. */
  lemma SignFirst(negative: bool, ds: string, rest: string)
    requires ds != "" && IsDigit(ds[0])
    ensures var t := (if negative then "-" else "") + (ds + rest);
      Skip(t) == t && (Peek(t) == '-') == negative && Peek(t) != '+' && (if negative then t[1..] else t) == ds + rest
  {
  }

  lemma DigitsFirst(m: nat, rest: string)
    requires rest == "" || !IsDigit(rest[0])
    ensures var ds := Digits(m); var u := ds + rest;
      IsDigit(ds[0]) && DigitRun(u) == |ds| && u[..|ds|] == ds && u[|ds|..] == rest && NumberOf(u[..|ds|]) == m
  {
    hide NumberOf, Digits, DigitRun;
    DigitsAreDigits(m);
    RunOf(Digits(m), rest);
    var ds := Digits(m);
    assert (ds + rest)[..|ds|] == ds;
  }

  /** The text of a real is read up to its end, unless its whole part does not fit 64 bits. */
  lemma RealComesBack(x: real, rest: string)
    requires EndsNumber(Peek(rest))
    ensures ParseNumber(RealText(Finite(x)) + rest)
            == if Readable(Finite(x)) then Good(Real(Reread(Finite(x))), rest) else Bad
  {
    hide Digits, DigitRun, ParseReal, ParseNumber, Millionths, Reread, Padded, EndsNumber;
    var k := Millionths(x);
    var ds, six := Digits(k / MILLION), Padded(k % MILLION, 6);
    var tail := "." + (six + rest);
    NumberRead(x < 0.0, k / MILLION, tail);
    assert RealText(Finite(x)) + rest == (if x < 0.0 then "-" else "") + (ds + tail);
    if Readable(Finite(x)) {
      DecimalsComeBack(x, rest);
    }
  }

  lemma DecimalsComeBack(x: real, rest: string)
    requires EndsNumber(Peek(rest)) && Readable(Finite(x))
    requires
      var k := Millionths(x);
      var ds := Digits(k / MILLION);
      DigitRun(ds + ("." + (Padded(k % MILLION, 6) + rest))) == |ds|
    ensures
      var k := Millionths(x);
      var ds := Digits(k / MILLION);
      var u := ds + ("." + (Padded(k % MILLION, 6) + rest));
      Peek(u[|ds|..]) == '.' && ParseReal(x < 0.0, u, |ds|) == Good(Real(Reread(Finite(x))), rest)
  {
    hide Digits, DigitRun, Padded, ParseReal, Overflows, Underflows, Rounded, Millionths, Decimal;
    var k := Millionths(x);
    DecimalOf(k);
    RealRead(x < 0.0, Digits(k / MILLION), Padded(k % MILLION, 6), rest);
    SixDecimalsInRange(x);
  }

  /** What is read from digits, a point and digits. */
  lemma RealRead(negative: bool, ds: string, six: string, rest: string)
    requires EndsNumber(Peek(rest)) && |six| == 6
    requires forall i :: 0 <= i < |six| ==> IsDigit(six[i])
    requires forall i :: 0 <= i < |ds + six| ==> IsDigit((ds + six)[i])
    requires DigitRun(ds + ("." + (six + rest))) == |ds|
    ensures
      var u, y := ds + ("." + (six + rest)), Decimal(ds + six, 6);
      var x := if negative then -y else y;
      Peek(u[|ds|..]) == '.' &&
      ParseReal(negative, u, |ds|) == if Overflows(x) || Underflows(x) then Bad else Good(Real(Finite(Rounded(x))), rest)
  {
    hide DigitRun, Overflows, Underflows, Rounded, Decimal, Exponent;
    var u := ds + ("." + (six + rest));
    assert u[|ds| + 1..] == six + rest && u[..|ds|] == ds;
    RunOf(six, rest);
    assert (six + rest)[..6] == six && (six + rest)[6..] == rest;
    NoExponent(rest);
    assert Scaled(Decimal(ds + six, 6), 0) == Decimal(ds + six, 6);
  }

  lemma NoExponent(rest: string)
    requires EndsNumber(Peek(rest))
    ensures Exponent(rest) == (0, 0)
  {
  }

  lemma DecimalOf(k: nat)
    ensures var ds := Digits(k / MILLION) + Padded(k % MILLION, 6);
      (forall i :: 0 <= i < |ds| ==> IsDigit(ds[i])) && Decimal(ds, 6) == k as real / MILLION as real
  {
    hide NumberOf, Digits, Padded;
    DigitsAreDigits(k / MILLION);
    assert Pow10(6) == MILLION;
    NumberInFront(Digits(k / MILLION), k % MILLION, 6);
  }

  lemma SixDecimalsInRange(x: real)
    requires Readable(Finite(x))
    ensures !Overflows(SixDecimals(x)) && !Underflows(SixDecimals(x))
  {
    hide Overflows, Underflows, Millionths;
    var k := Millionths(x);
    assert k <= (INT64_MAX + 1) * MILLION + MILLION;
    InRange(SixDecimals(x));
  }

  // ------------------------------------------------------------------ values

  lemma FirstCharacter(v: Value)
    ensures var c := Print(v)[0]; !IsSpace(c) && c != ']' && c != '}'
    ensures v.Integer? || (v.Real? && v.d.Finite?) ==> IsDigit(Print(v)[0]) || Print(v)[0] == '-'
  {
    hide Millionths, Digits, Padded;
    if v.Integer? { DigitsAreDigits(if v.n < 0 then -v.n else v.n); }
    if v.Real? && v.d.Finite? { DigitsAreDigits(Millionths(v.d.x) / MILLION); }
  }

  /** White space in front does not matter. */
  lemma BlankFirst(s: string)
    ensures ParseValue(" " + s) == ParseValue(s) && ParseString(" " + s) == ParseString(s) && ParseMember(" " + s) == ParseMember(s)
  {
    assert (" " + s)[1..] == s;
    assert Skip(" " + s) == Skip(s);
  }

  /** A value is read with its reals as they were printed, or refused where one of them cannot be read. */
  lemma {:induction false} ValueComesBack(v: Value, rest: string)
    requires Representable(v) && AllClean(v) && EndsNumber(Peek(rest))
    ensures ParseValue(Print(v) + rest) == if AllReadable(v) then Good(RereadAll(v), rest) else Bad
    decreases v
  {
    hide Readable, Reread, RealText, ParseString, ParseNumber, ParseItems, ParseMembers, Digits, Clean, PrintItems, PrintMembers;
    var t := Print(v) + rest;
    FirstCharacter(v);
    assert Skip(t) == t;
    match v
    case Integer(n) => NumberComesBack(n, rest);
    case Real(d) => if d.Finite? { RealComesBack(d.x, rest); } else { NoNumber(d, rest); }
    case String(s) => StringComesBack(s, rest);
    case Array(items) => ArrayComesBack(items, rest);
    case Object(members) => ObjectComesBack(members, rest);
    case Null => assert t[..4] == "null" && t[4..] == rest;
    case Boolean(b) => if b { assert t[..4] == "true" && t[4..] == rest; } else { assert t[..5] == "false" && t[5..] == rest; }
  }

  lemma NoNumber(d: Double, rest: string)
    requires !d.Finite?
    ensures ParseValue(RealText(d) + rest) == Bad && !Readable(d)
  {
    var t := RealText(d) + rest;
    assert Skip(t) == t;
    if d.NaN? {
      assert t[1] == 'a';
      assert |t| >= 4 ==> t[..4][1] == 'a';
    } else if d.MinusInfinity? {
      assert t[1..] == "inf" + rest;
    }
  }

  lemma {:induction false} ArrayComesBack(items: seq<Value>, rest: string)
    requires forall i :: 0 <= i < |items| ==> Representable(items[i]) && AllClean(items[i])
    ensures ParseValue("[" + PrintItems(items) + "]" + rest)
            == if AllReadable(Array(items)) then Good(Array(RereadItems(items)), rest) else Bad
    decreases items, 1
  {
    var t := "[" + PrintItems(items) + "]" + rest;
    assert t[1..] == PrintItems(items) + "]" + rest;
    if items == [] {
      assert Skip(t[1..]) == t[1..] && t[1..][1..] == rest;
    } else {
      FirstCharacter(items[0]);
      assert PrintItems(items)[0] == Print(items[0])[0];
      assert Skip(t[1..]) == t[1..];
      ItemsComeBack(items, rest);
    }
  }

  lemma {:induction false} ItemsComeBack(items: seq<Value>, rest: string)
    requires items != [] && forall i :: 0 <= i < |items| ==> Representable(items[i]) && AllClean(items[i])
    ensures ParseItems(PrintItems(items) + "]" + rest)
            == if AllReadable(Array(items)) then Good(RereadItems(items), rest) else Bad
    decreases items, 0
  {
    hide ParseValue, ParseString, ParseMembers, Print, Representable, AllClean, RereadAll;
    var v := items[0];
    if |items| == 1 {
      var u := "]" + rest;
      ValueComesBack(v, u);
      assert PrintItems(items) + "]" + rest == Print(v) + u;
      assert Skip(u) == u && u[1..] == rest;
      assert RereadItems(items) == [RereadAll(v)];
    } else {
      var more := PrintItems(items[1..]) + "]" + rest;
      var u := "," + (" " + more);
      ValueComesBack(v, u);
      assert PrintItems(items) + "]" + rest == Print(v) + u;
      assert Skip(u) == u && u[1..] == " " + more;
      BlankFirst(more);
      ItemsComeBack(items[1..], rest);
      assert ParseItems(" " + more) == ParseItems(more);
      ReadableRest(items);
    }
  }

  lemma ReadableRest(items: seq<Value>)
    requires items != []
    ensures AllReadable(Array(items)) <==> AllReadable(items[0]) && AllReadable(Array(items[1..]))
    ensures RereadItems(items) == [RereadAll(items[0])] + RereadItems(items[1..])
  {
    if AllReadable(items[0]) && AllReadable(Array(items[1..])) {
      forall i | 0 <= i < |items| ensures AllReadable(items[i]) {
        assert i > 0 ==> items[i] == items[1..][i - 1];
      }
    }
  }

  lemma ReadableRestMembers(members: seq<Member>)
    requires members != []
    ensures AllReadable(Object(members)) <==> AllReadable(members[0].value) && AllReadable(Object(members[1..]))
    ensures RereadMembers(members) == [Member(members[0].key, RereadAll(members[0].value))] + RereadMembers(members[1..])
  {
    if AllReadable(members[0].value) && AllReadable(Object(members[1..])) {
      forall i | 0 <= i < |members| ensures AllReadable(members[i].value) {
        assert i > 0 ==> members[i] == members[1..][i - 1];
      }
    }
  }

  lemma {:induction false} ObjectComesBack(members: seq<Member>, rest: string)
    requires forall i :: 0 <= i < |members| ==>
      Clean(members[i].key) && Representable(members[i].value) && AllClean(members[i].value)
    ensures
      var r := if AllReadable(Object(members)) then Good(Object(RereadMembers(members)), rest) else Bad;
      ParseValue("{" + PrintMembers(members) + "}" + rest) == r && ParseValue("{\n" + PrintMembers(members) + "}" + rest) == r
    decreases members, 1
  {
    var t := "{" + PrintMembers(members) + "}" + rest;
    var t' := "{\n" + PrintMembers(members) + "}" + rest;
    var body := PrintMembers(members) + "}" + rest;
    assert t[1..] == body;
    assert t'[1..] == "\n" + body && ("\n" + body)[1..] == body;
    assert Skip("\n" + body) == Skip(body);
    assert Skip(t) == t && Skip(t') == t';
    if members == [] {
      assert Skip(body) == body && body[1..] == rest;
    } else {
      assert body[0] == '"';
      assert Skip(body) == body;
      MembersComeBack(members, rest);
    }
  }

  lemma {:induction false} MembersComeBack(members: seq<Member>, rest: string)
    requires members != []
    requires forall i :: 0 <= i < |members| ==>
      Clean(members[i].key) && Representable(members[i].value) && AllClean(members[i].value)
    ensures ParseMembers(PrintMembers(members) + "}" + rest)
            == if AllReadable(Object(members)) then Good(RereadMembers(members), rest) else Bad
    decreases members, 0
  {
    hide ParseValue, ParseMember, ParseString, ParseItems, MemberText, Representable, AllClean, Clean, RereadAll;
    var m := members[0];
    if |members| == 1 {
      var u := "}" + rest;
      MemberComesBack(m, u);
      assert PrintMembers(members) + "}" + rest == MemberText(m) + u;
      assert Skip(u) == u && u[1..] == rest;
      assert RereadMembers(members) == [Member(m.key, RereadAll(m.value))];
    } else {
      var more := PrintMembers(members[1..]) + "}" + rest;
      var u := "," + (" " + more);
      MemberComesBack(m, u);
      assert PrintMembers(members) + "}" + rest == MemberText(m) + u;
      assert Skip(u) == u && u[1..] == " " + more;
      BlankFirst(more);
      MembersComeBack(members[1..], rest);
      assert ParseMembers(" " + more) == ParseMembers(more);
      ReadableRestMembers(members);
    }
  }

  lemma {:induction false} MemberComesBack(m: Member, u: string)
    requires Clean(m.key) && Representable(m.value) && AllClean(m.value) && EndsNumber(Peek(u))
    ensures ParseMember(MemberText(m) + u)
            == if AllReadable(m.value) then Good(Member(m.key, RereadAll(m.value)), u) else Bad
    decreases m
  {
    hide ParseString, Clean, Print, Representable, AllClean, AllReadable, RereadAll, Quoted;
    var colon := ": " + Print(m.value) + u;
    StringComesBack(m.key, colon);
    assert MemberText(m) + u == Quoted(m.key) + colon;
    assert Skip(colon) == colon && colon[1..] == " " + (Print(m.value) + u);
    BlankFirst(Print(m.value) + u);
    ValueComesBack(m.value, u);
  }

  lemma {:induction false} DocumentComesBack(v: Value, pretty: bool)
    requires Representable(v) && AllClean(v)
    ensures ParseDocument(Text(v, pretty)) == if AllReadable(v) then Good(RereadAll(v), "") else Bad
  {
    var t := Text(v, pretty);
    assert t + "" == t;
    if v.Object? && pretty { ObjectComesBack(v.members, ""); } else { ValueComesBack(v, ""); }
  }

  /** What the parser returns for a text. */
  function Parse(text: string): (r: Parsed<Value>) {
    var r := ParseDocument(text);
    if r.Bad? then Bad else r.(value := Normal(r.value))
  }
}
