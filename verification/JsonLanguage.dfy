/** The texts that are read are exactly those the grammar writes, and they are read as what they mean. */
module JsonLanguage {
  import opened Doubles
  import opened Json
  import opened Numerals
  import opened JsonText
  import opened JsonGrammar
  import opened JsonBuilder
  import opened JsonRoundTrip

  // ------------------------------------------------------------------ numbers

  lemma NumberAppend(w: Numeral, c: char)
    requires IsDigit(c)
    ensures AllDigits(w + [c]) && NumberOf(w + [c]) == 10 * NumberOf(w) + (c as int - '0' as int)
  {
    assert (w + [c])[..|w|] == w;
  }

  lemma TenthOf(n: int, p: int)
    requires p >= 1
    ensures n as real / (10 * p) as real == n as real / p as real / 10.0
  {
  }

  /** Digits of which the last ones are decimals are the whole part and the fraction. */
  lemma {:induction false} DecimalIs(w: Numeral, d: Numeral)
    ensures AllDigits(w + d) && Decimal(w + d, |d|) == NumberOf(w) as real + Fraction(d)
    decreases |d|
  {
    hide NumberOf;
    if d == "" {
      assert w + d == w;
    } else {
      NumberAppend(w, d[0]);
      DecimalIs(w + [d[0]], d[1..]);
      assert w + [d[0]] + d[1..] == w + d;
      TenthOf(NumberOf(w + d), Pow10(|d| - 1));
    }
  }

  lemma {:induction false} TenToIs(k: nat)
    ensures TenTo(k) == Pow10(k) as real && TenTo(-(k as int)) * Pow10(k) as real == 1.0
  {
    if k > 0 {
      TenToIs(k - 1);
      Cancels(TenTo(1 - k), Pow10(k - 1) as real);
    }
  }

  lemma Cancels(a: real, b: real)
    ensures a / 10.0 * (10.0 * b) == a * b
  {
  }

  lemma DividedIs(x: real, a: real, b: real)
    requires a * b == 1.0 && b != 0.0
    ensures x / b == x * a
  {
    assert x == x * (a * b) == x * a * b;
  }

  lemma ScaledIs(x: real, e: int)
    ensures Scaled(x, e) == x * TenTo(e)
  {
    hide TenTo, Pow10;
    if e >= 0 {
      TenToIs(e);
    } else {
      TenToIs(-e);
      DividedIs(x, TenTo(e), Pow10(-e) as real);
    }
  }

  lemma {:induction false} PowerRead(p: Power, rest: string)
    requires LegalPower(p) && EndsNumber(Peek(rest))
    ensures var v := [p.letter] + (p.sign + p.digits);
      Exponent(v + rest) == (if p.sign == "-" then -NumberOf(p.digits) else NumberOf(p.digits), |v|)
  {
    hide NumberOf, DigitRun;
    var v := [p.letter] + (p.sign + p.digits) + rest;
    var i := 1 + |p.sign|;
    assert IsDigit(p.digits[0]);
    assert v[1..] == p.sign + p.digits + rest;
    assert v[i..] == p.digits + rest;
    RunOf(p.digits, rest);
    assert v[i..][..|p.digits|] == p.digits;
    assert p.sign == "" ==> v[1] == p.digits[0];
    assert p.sign != "" ==> v[1] == p.sign[0];
  }

  /** The exponent behind the decimals, and its length. */
  lemma TailRead(t: Tail, rest: string)
    requires LegalTail(t) && EndsNumber(Peek(rest))
    ensures var v := PowerText(t); Exponent(v + rest) == (PowerOf(t), |v|) && !IsDigit(Peek(v + rest)) && (v + rest)[|v|..] == rest
  {
    hide Exponent, NumberOf;
    if t.Scientific? {
      PowerRead(t.power, rest);
    } else {
      assert "" + rest == rest;
      NoExponent(rest);
    }
  }

  /** Where the parts of a real stand in its text. */
  lemma RealParts(whole: Numeral, t: Tail, w: string)
    requires t != NoTail && whole != "" && !IsDigit(Peek(w))
    ensures var u, n, d := whole + ("." + (t.decimals + w)), |whole|, t.decimals;
      DigitRun(u) == n && u[..n] == whole && Peek(u[n..]) == '.' &&
      DigitRun(u[n + 1..]) == |d| && u[n + 1..][..|d|] == d && u[n + 1..][|d|..] == w
  {
    hide DigitRun;
    var u: string, n, d := whole + ("." + (t.decimals + w)), |whole|, t.decimals;
    RunOf(whole, "." + (d + w));
    assert u[n..] == "." + (d + w) && u[n + 1..] == d + w;
    RunOf(d, w);
    assert (d + w)[..|d|] == d && (d + w)[|d|..] == w;
  }

  lemma WorthIs(negative: bool, whole: Numeral, t: Tail)
    requires t != NoTail
    ensures AllDigits(whole + t.decimals)
    ensures var y := Scaled(Decimal(whole + t.decimals, |t.decimals|), PowerOf(t));
      Worth(negative, whole, t) == if negative then -y else y
  {
    hide NumberOf, Decimal, TenTo, Fraction, PowerOf, Scaled;
    DecimalIs(whole, t.decimals);
    ScaledIs(Decimal(whole + t.decimals, |t.decimals|), PowerOf(t));
  }

  /** What is read from the parts. */
  lemma PartsRead(negative: bool, u: string, whole: Numeral, d: Numeral, w: string, rest: string)
    requires DigitRun(u) == |whole| && u[..|whole|] == whole && Peek(u[|whole|..]) == '.'
    requires var t := u[|whole| + 1..]; DigitRun(t) == |d| && t[..|d|] == d && t[|d|..] == w
    requires w[Exponent(w).1..] == rest && EndsNumber(Peek(rest)) && AllDigits(whole + d)
    ensures var y := Scaled(Decimal(whole + d, |d|), Exponent(w).0);
      var x := if negative then -y else y;
      ParseReal(negative, u, |whole|) == if Overflows(x) || Underflows(x) then Bad else Good(Real(Finite(Rounded(x))), rest)
  {
    hide NumberOf, DigitRun, Exponent, Overflows, Underflows, Rounded, Decimal, Scaled, EndsNumber, AllDigits;
  }

  lemma RealValue(negative: bool, whole: Numeral, t: Tail, rest: string, u: string)
    requires LegalTail(t) && t != NoTail && EndsNumber(Peek(rest)) && whole != ""
    requires u == whole + ("." + (t.decimals + (PowerText(t) + rest)))
    ensures var x := Worth(negative, whole, t);
      DigitRun(u) == |whole| && u[..|whole|] == whole && Peek(u[|whole|..]) == '.' &&
      ParseReal(negative, u, |whole|) == if Overflows(x) || Underflows(x) then Bad else Good(Real(Finite(Rounded(x))), rest)
  {
    hide DigitRun, Exponent, Overflows, Underflows, Rounded, PowerText, Decimal, Worth, PowerOf, Scaled, EndsNumber, LegalTail,
      IsDigit, AllDigits, ParseReal;
    TailRead(t, rest);
    RealParts(whole, t, PowerText(t) + rest);
    WorthIs(negative, whole, t);
    PartsRead(negative, u, whole, t.decimals, PowerText(t) + rest, rest);
  }

  lemma WholeValue(negative: bool, whole: Numeral, rest: string)
    requires whole != "" && EndsNumber(Peek(rest))
    ensures var d := NumberDoc(negative, whole, NoTail);
      ParseNumber(Render(d) + rest) == if Held(negative, whole, NoTail) then Good(Meaning(d), rest) else Bad
  {
    hide NumberOf, DigitRun, ParseReal, Skip;
    var u, n := whole + rest, |whole|;
    assert Render(NumberDoc(negative, whole, NoTail)) + rest == (if negative then "-" else "") + u;
    assert IsDigit(whole[0]);
    SignFirst(negative, whole, rest);
    RunOf(whole, rest);
    assert u[..n] == whole && u[n..] == rest;
  }

  lemma FirstDigit(s: Numeral)
    requires s != ""
    ensures IsDigit(s[0])
  {
  }

  lemma TailJoined(t: Tail, rest: string)
    requires t != NoTail
    ensures TailText(t) + rest == "." + (t.decimals + (PowerText(t) + rest))
  {
  }

  /** A number is read as what it says, or refused where the program cannot hold it. */
  lemma NumberValue(negative: bool, whole: Numeral, t: Tail, rest: string)
    requires whole != "" && LegalTail(t) && EndsNumber(Peek(rest))
    ensures var d := NumberDoc(negative, whole, t);
      ParseNumber(Render(d) + rest) == if Held(negative, whole, t) then Good(Meaning(d), rest) else Bad
  {
    hide NumberOf, DigitRun, ParseReal, Overflows, Underflows, Rounded, Worth, TailText, PowerText, LegalTail, Skip, EndsNumber, AllDigits;
    if t == NoTail {
      WholeValue(negative, whole, rest);
    } else {
      var tail := "." + (t.decimals + (PowerText(t) + rest));
      assert TailText(t) + rest == tail by { TailJoined(t, rest); }
      assert Render(NumberDoc(negative, whole, t)) + rest == (if negative then "-" else "") + (whole + tail);
      assert IsDigit(whole[0]) by { FirstDigit(whole); }
      SignFirst(negative, whole, tail);
      RealValue(negative, whole, t, rest, whole + tail);
    }
  }

  // ------------------------------------------------------------------ white space

  lemma {:induction false} SkipWhite(ws: string, s: string)
    requires White(ws)
    ensures Skip(ws + s) == Skip(s)
    decreases |ws|
  {
    if ws == "" {
      assert ws + s == s;
    } else {
      assert (ws + s)[1..] == ws[1..] + s;
      assert IsSpace(ws[0]);
      SkipWhite(ws[1..], s);
    }
  }

  lemma SkipNothing(s: string)
    requires !IsSpace(Peek(s))
    ensures Skip(s) == s
  {
  }

  /** Values and members are read from behind the white space. */
  lemma ReadSkips(s: string, t: string)
    requires Skip(s) == Skip(t)
    ensures ParseValue(s) == ParseValue(t) && ParseMember(s) == ParseMember(t)
    ensures ParseItems(s) == ParseItems(t) && ParseMembers(s) == ParseMembers(t)
  {
    hide Skip;
    assert ParseString(s) == ParseString(t);
    assert ParseValue(s) == ParseValue(t);
    assert ParseMember(s) == ParseMember(t);
  }

  lemma Marks()
    ensures !IsSpace(',') && !IsSpace(']') && !IsSpace('}') && !IsSpace(':') && !IsSpace('"') && !IsSpace('[') && !IsSpace('{')
  {
  }

  // ------------------------------------------------------------------ what is written is read

  /** The first character tells which kind of value follows. */
  lemma FirstOf(d: Doc, rest: string)
    requires Legal(d)
    ensures var s := Render(d) + rest;
      Skip(s) == s && s != "" && s[0] != ']' && s[0] != '}' && (d.NumberDoc? ==> IsDigit(s[0]) || s[0] == '-')
  {
    hide Held, LegalItem, LegalField, UnitsText, TailText, RenderItems, RenderFields, LegalUnits, White;
    if d.NumberDoc? { assert IsDigit(d.whole[0]); }
  }

  lemma {:induction false} ValueRead(d: Doc, rest: string)
    requires Legal(d) && (d.NumberDoc? ==> EndsNumber(Peek(rest)))
    ensures ParseValue(Render(d) + rest) == Good(Meaning(d), rest)
    decreases d, 1
  {
    hide Held, UnitsText, TailText, RenderItems, RenderFields, StringBody, ParseNumber, White, LegalItem, LegalField, ParseItems,
      ParseMembers, Skip, EndsNumber, UnitsValue, LegalUnits, Worth, NumberOf;
    FirstOf(d, rest);
    var s := Render(d) + rest;
    match d
    case NullDoc => assert s[..4] == "null" && s[4..] == rest;
    case BooleanDoc(b) => if b { assert s[..4] == "true" && s[4..] == rest; } else { assert s[..5] == "false" && s[5..] == rest; }
    case NumberDoc(negative, whole, t) => NumberValue(negative, whole, t, rest);
    case StringDoc(us, closed) =>
      assert s[1..] == UnitsText(us) + ("\"" + rest);
      ClosedRead(us, rest);
    case ArrayDoc(gap, items) => ArrayRead(gap, items, rest);
    case ObjectDoc(gap, fields) => ObjectRead(gap, fields, rest);
  }

  lemma {:induction false} ArrayRead(gap: string, items: seq<ItemDoc>, rest: string)
    requires Legal(ArrayDoc(gap, items))
    ensures ParseValue(Render(ArrayDoc(gap, items)) + rest) == Good(Array(ItemsMeaning(items)), rest)
    decreases ArrayDoc(gap, items), 0
  {
    hide LegalItem, ParseItems, White, RenderItems;
    var s := Render(ArrayDoc(gap, items)) + rest;
    var t := RenderItems(items) + ("]" + rest);
    assert s[0] == '[' && s[1..] == gap + t;
    SkipWhite(gap, t);
    if items == [] {
      NothingRendered();
      assert t == "]" + rest && t[1..] == rest;
    } else {
      ItemsRead(items, rest);
      ReadSkips(Skip(t), t);
      ItemFirst(items, rest);
    }
  }

  lemma NothingRendered()
    ensures RenderItems([]) == "" && RenderFields([]) == ""
  {
  }

  lemma ItemFirst(items: seq<ItemDoc>, rest: string)
    requires items != [] && LegalItem(items[0])
    ensures Peek(Skip(RenderItems(items) + ("]" + rest))) != ']'
  {
    hide Legal, Render, White;
    var it := items[0];
    var more := if |items| == 1 then it.after + ("]" + rest) else it.after + ("," + RenderItems(items[1..]) + ("]" + rest));
    assert RenderItems(items) + ("]" + rest) == it.before + (Render(it.doc) + more);
    SkipWhite(it.before, Render(it.doc) + more);
    FirstOf(it.doc, more);
  }

  /** An item up to the mark behind it. */
  lemma {:induction false} ItemRead(it: ItemDoc, u: string)
    requires LegalItem(it) && u != "" && (u[0] == ',' || u[0] == ']' || u[0] == '}')
    ensures var r := ParseValue(RenderItem(it) + u); r.Good? && r.value == Meaning(it.doc) && Skip(r.rest) == u
    decreases it
  {
    hide Legal, Render, White, Skip, ParseValue;
    assert RenderItem(it) + u == it.before + (Render(it.doc) + (it.after + u));
    SkipWhite(it.before, Render(it.doc) + (it.after + u));
    ReadSkips(RenderItem(it) + u, Render(it.doc) + (it.after + u));
    ValueRead(it.doc, it.after + u);
    SkipWhite(it.after, u);
    SkipNothing(u);
  }

  lemma {:induction false} ItemsRead(items: seq<ItemDoc>, rest: string)
    requires items != [] && forall i :: 0 <= i < |items| ==> LegalItem(items[i])
    ensures ParseItems(RenderItems(items) + ("]" + rest)) == Good(ItemsMeaning(items), rest)
    decreases items
  {
    hide LegalItem, RenderItem, ParseValue, Meaning, Skip;
    if |items| == 1 {
      ItemRead(items[0], "]" + rest);
      assert ("]" + rest)[1..] == rest;
      assert ItemsMeaning(items) == [Meaning(items[0].doc)];
    } else {
      var more := RenderItems(items[1..]) + ("]" + rest);
      assert RenderItems(items) + ("]" + rest) == RenderItem(items[0]) + ("," + more);
      ItemRead(items[0], "," + more);
      assert ("," + more)[1..] == more;
      ItemsRead(items[1..], rest);
    }
  }

  lemma {:induction false} ObjectRead(gap: string, fields: seq<FieldDoc>, rest: string)
    requires Legal(ObjectDoc(gap, fields))
    ensures ParseValue(Render(ObjectDoc(gap, fields)) + rest) == Good(Object(FieldsMeaning(fields)), rest)
    decreases ObjectDoc(gap, fields), 0
  {
    hide LegalField, ParseMembers, White, RenderFields;
    var s := Render(ObjectDoc(gap, fields)) + rest;
    var t := RenderFields(fields) + ("}" + rest);
    assert s[0] == '{' && s[1..] == gap + t;
    SkipWhite(gap, t);
    if fields == [] {
      NothingRendered();
      assert t == "}" + rest && t[1..] == rest;
    } else {
      FieldsRead(fields, rest);
      ReadSkips(Skip(t), t);
      FieldFirst(fields, rest);
    }
  }

  lemma FieldFirst(fields: seq<FieldDoc>, rest: string)
    requires fields != [] && LegalField(fields[0])
    ensures Peek(Skip(RenderFields(fields) + ("}" + rest))) == '"'
  {
    hide LegalItem, RenderItem, White, UnitsText;
    var f := fields[0];
    var end := if |fields| == 1 then "}" + rest else "," + RenderFields(fields[1..]) + ("}" + rest);
    var tail := "\"" + (UnitsText(f.key) + ("\"" + (f.colon + (":" + (RenderItem(f.item) + end)))));
    assert RenderFields(fields) + ("}" + rest) == f.before + tail;
    SkipWhite(f.before, tail);
  }

  lemma {:induction false} FieldRead(f: FieldDoc, u: string)
    requires LegalField(f) && u != "" && (u[0] == ',' || u[0] == '}')
    ensures var r := ParseMember(RenderField(f) + u);
      r.Good? && r.value == Member(UnitsValue(f.key), Meaning(f.item.doc)) && Skip(r.rest) == u
    decreases f
  {
    hide LegalItem, RenderItem, White, Skip, ParseValue, StringBody, UnitsText, UnitsValue, LegalUnits, Meaning;
    var tail := f.colon + (":" + (RenderItem(f.item) + u));
    var quoted := "\"" + (UnitsText(f.key) + ("\"" + tail));
    assert RenderField(f) + u == f.before + quoted;
    Marks();
    SkipWhite(f.before, quoted);
    SkipNothing(quoted);
    assert quoted[1..] == UnitsText(f.key) + ("\"" + tail);
    ClosedRead(f.key, tail);
    var after := ":" + (RenderItem(f.item) + u);
    SkipWhite(f.colon, after);
    SkipNothing(after);
    assert after[1..] == RenderItem(f.item) + u;
    ItemRead(f.item, u);
  }

  lemma {:induction false} FieldsRead(fields: seq<FieldDoc>, rest: string)
    requires fields != [] && forall i :: 0 <= i < |fields| ==> LegalField(fields[i])
    ensures ParseMembers(RenderFields(fields) + ("}" + rest)) == Good(FieldsMeaning(fields), rest)
    decreases fields
  {
    hide LegalField, RenderField, ParseMember, Meaning, Skip, UnitsValue;
    if |fields| == 1 {
      FieldRead(fields[0], "}" + rest);
      assert ("}" + rest)[1..] == rest;
      assert FieldsMeaning(fields) == [Member(UnitsValue(fields[0].key), Meaning(fields[0].item.doc))];
    } else {
      var more := RenderFields(fields[1..]) + ("}" + rest);
      assert RenderFields(fields) + ("}" + rest) == RenderField(fields[0]) + ("," + more);
      FieldRead(fields[0], "," + more);
      assert ("," + more)[1..] == more;
      FieldsRead(fields[1..], rest);
    }
  }

  // ------------------------------------------------------------------ what is read was written

  predicate NoZero(s: string) {
    forall i :: 0 <= i < |s| ==> s[i] != '\0'
  }

  lemma NoZeroBehind(s: string, k: nat)
    requires NoZero(s) && k <= |s|
    ensures NoZero(s[k..])
  {
  }

  lemma {:induction false} WhiteFront(s: string) returns (ws: string)
    ensures White(ws) && s == ws + Skip(s) && (NoZero(s) ==> NoZero(Skip(s)))
    decreases |s|
  {
    ws := "";
    if s != "" && IsSpace(s[0]) {
      var more := WhiteFront(s[1..]);
      ws := [s[0]] + more;
      assert s == [s[0]] + s[1..];
    }
  }

  lemma EscapeWritten(c: char)
    requires Unescaped(c) != ""
    ensures |Unescaped(c)| == 1 && Letter(Unescaped(c)[0] as int) == c && c != '\0'
  {
  }

  lemma FirstUnit(s: string) returns (u: Unit, n: nat)
    requires StringBody(s).Good? && NoZero(s) && s != "" && s[0] != '"'
    ensures 0 < n <= |s| && LegalUnit(u) && s == UnitText(u) + s[n..]
  {
    hide Unescaped;
    if s[0] != '\\' {
      u, n := Plain(s[0]), 1;
    } else if UnicodeFirst(s) {
      u, n := Unicode(s[2..6]), 6;
    } else {
      EscapeWritten(s[1]);
      u, n := Short(Unescaped(s[1])[0]), 2;
    }
  }

  /** What a string was written as; it may end with the text. */
  predicate BodyAs(s: string, r: Parsed<string>, us: seq<Unit>, closed: bool)
    requires r.Good?
  {
    LegalUnits(us) && r.value == UnitsValue(us) && s == UnitsText(us) + (if closed then "\"" + r.rest else "") &&
    (!closed ==> r.rest == "")
  }

  lemma {:induction false} BodyWritten(s: string) returns (us: seq<Unit>, closed: bool)
    requires StringBody(s).Good? && NoZero(s)
    ensures BodyAs(s, StringBody(s), us, closed)
    decreases |s|
  {
    hide StringBody, BodyAs, NoZero, LegalUnit, UnitText, UnitValue;
    if s == "" || s[0] == '"' {
      us, closed := [], s != "";
      BodyEnds(s);
    } else {
      var u, n := FirstUnit(s);
      UnitRead(u, s[n..]);
      NoZeroBehind(s, n);
      us, closed := BodyWritten(s[n..]);
      OneMore(s, n, u, us, closed);
      us := [u] + us;
    }
  }

  lemma BodyEnds(s: string)
    requires s == "" || s[0] == '"'
    ensures StringBody(s) == Good("", if s == "" then "" else s[1..]) && BodyAs(s, StringBody(s), [], s != "")
  {
  }

  lemma OneMore(s: string, n: nat, u: Unit, us: seq<Unit>, closed: bool)
    requires n <= |s| && s == UnitText(u) + s[n..] && LegalUnit(u)
    requires StringBody(s[n..]).Good? && BodyAs(s[n..], StringBody(s[n..]), us, closed)
    requires StringBody(s) == Cons(UnitValue(u), StringBody(s[n..]))
    ensures BodyAs(s, StringBody(s), [u] + us, closed)
  {
    hide StringBody, LegalUnit, UnitText, UnitValue, UnitsText, UnitsValue;
    var end := if closed then "\"" + StringBody(s).rest else "";
    UnitFirst(u, us);
    Assoc(UnitText(u), UnitsText(us), end);
  }

  lemma UnitFirst(u: Unit, us: seq<Unit>)
    ensures UnitsText([u] + us) == UnitText(u) + UnitsText(us) && UnitsValue([u] + us) == UnitValue(u) + UnitsValue(us)
  {
    hide UnitText, UnitValue;
    assert ([u] + us)[1..] == us;
  }

  lemma Assoc(a: string, b: string, c: string)
    ensures (a + b) + c == a + (b + c)
  {
  }

  lemma Bracketed(open: string, inner: string, close: string, rest: string)
    ensures open + ("" + (inner + close)) + rest == open + (inner + (close + rest))
  {
  }

  lemma PowerWritten(v: string) returns (p: Power)
    requires Exponent(v).1 > 0
    ensures LegalPower(p) && v == [p.letter] + (p.sign + p.digits) + v[Exponent(v).1..]
  {
    hide NumberOf, DigitRun;
    var i := ExponentSign(v);
    var k := DigitRun(v[i..]);
    p := Power(v[0], v[1..i], v[i..][..k]);
    assert v == [v[0]] + (v[1..i] + v[i..i + k]) + v[i + k..];
    assert v[i..][..k] == v[i..i + k];
    assert i == 2 ==> v[1..2] == [v[1]];
  }

  lemma TailWritten(negative: bool, u: string, n: nat) returns (t: Tail)
    requires n == DigitRun(u) && Peek(u[n..]) == '.' && ParseReal(negative, u, n).Good?
    ensures var rest := ParseReal(negative, u, n).rest;
      LegalTail(t) && EndsNumber(Peek(rest)) && u[n..] == TailText(t) + rest
  {
    hide NumberOf, DigitRun, Exponent, Scaled, Decimal, Overflows, Underflows, Rounded, EndsNumber, LegalPower, TailText, PowerText;
    var f := DigitRun(u[n + 1..]);
    var d: Numeral, v := u[n + 1..][..f], u[n + 1..][f..];
    var k := Exponent(v).1;
    assert u[n..] == "." + (d + v);
    t := Point(d);
    if k > 0 {
      var p := PowerWritten(v);
      t := Scientific(d, p);
    }
    assert PowerText(t) + v[k..] == v by { PowerTextIs(t, v, k); }
    TailJoined(t, v[k..]);
  }

  lemma PowerTextIs(t: Tail, v: string, k: nat)
    requires k <= |v| && ((t.Point? && k == 0) || (t.Scientific? && v == [t.power.letter] + (t.power.sign + t.power.digits) + v[k..]))
    ensures PowerText(t) + v[k..] == v
  {
  }

  /** The digits behind the sign of a number that is read, what follows them, and what is left. */
  lemma DigitsWritten(s: string, u: string, n: nat) returns (t: Tail)
    requires ParseNumber(s).Good? && s != "" && (IsDigit(s[0]) || s[0] == '-')
    requires u == (if s[0] == '-' then s[1..] else s) && n == DigitRun(u)
    ensures n > 0 && LegalTail(t) && EndsNumber(Peek(ParseNumber(s).rest)) && u[n..] == TailText(t) + ParseNumber(s).rest
  {
    hide NumberOf, DigitRun, ParseReal, EndsNumber;
    assert Skip(s) == s;
    t := NoTail;
    if Peek(u[n..]) == '.' { t := TailWritten(s[0] == '-', u, n); } else { assert "" + u[n..] == u[n..]; }
  }

  lemma NumberWritten(s: string) returns (d: Doc)
    requires ParseNumber(s).Good? && s != "" && (IsDigit(s[0]) || s[0] == '-')
    ensures d.NumberDoc? && Legal(d) && s == Render(d) + ParseNumber(s).rest && Meaning(d) == ParseNumber(s).value
    ensures EndsNumber(Peek(ParseNumber(s).rest))
  {
    hide NumberOf, DigitRun, ParseNumber, Overflows, Underflows, Rounded, Worth, TailText, EndsNumber, LegalTail, Held, Meaning, IsDigit;
    var negative, rest := s[0] == '-', ParseNumber(s).rest;
    var u := if negative then s[1..] else s;
    var n := DigitRun(u);
    var t := DigitsWritten(s, u, n);
    var whole: Numeral := u[..n];
    d := NumberDoc(negative, whole, t);
    assert s == Render(d) + rest by { Joined(s, negative, u, n, TailText(t), rest); }
    NumberValue(negative, whole, t, rest);
  }

  lemma Joined(s: string, negative: bool, u: string, n: nat, tail: string, rest: string)
    requires n <= |u| && u[n..] == tail + rest && s == (if negative then "-" else "") + u
    ensures s == (if negative then "-" else "") + (u[..n] + tail) + rest
  {
    assert u == u[..n] + (tail + rest);
  }

  /** A string without its closing quote. */
  predicate Unclosed(d: Doc) {
    d.StringDoc? && !d.closed && LegalUnits(d.us)
  }

  /** What a value was written as, behind white space. */
  predicate WrittenAs(s: string, r: Parsed<Value>, ws: string, d: Doc)
    requires r.Good?
  {
    White(ws) && s == ws + (Render(d) + r.rest) && Meaning(d) == r.value && (d.NumberDoc? ==> EndsNumber(Peek(r.rest))) &&
    (Legal(d) || (Unclosed(d) && r.rest == ""))
  }

  lemma WhiteInFront(s: string, r: Parsed<Value>, ws: string, t: string, d: Doc)
    requires r.Good? && s == ws + t && White(ws) && WrittenAs(t, r, "", d)
    ensures WrittenAs(s, r, ws, d)
  {
    hide Render, Legal, Meaning, White, Unclosed;
    assert "" + (Render(d) + r.rest) == Render(d) + r.rest;
  }

  lemma EmptyIsWhite(s: string)
    ensures White("") && "" + s == s
  {
  }

  lemma WordWritten(s: string) returns (d: Doc)
    requires ParseValue(s).Good? && (Peek(s) == 't' || Peek(s) == 'f' || Peek(s) == 'n')
    ensures WrittenAs(s, ParseValue(s), "", d)
  {
    hide ParseItems, ParseMembers, StringBody, ParseNumber;
    assert Skip(s) == s;
    d := if Peek(s) == 'n' then NullDoc else BooleanDoc(Peek(s) == 't');
    EmptyIsWhite(Render(d) + ParseValue(s).rest);
  }

  lemma StringWritten(s: string) returns (d: Doc)
    requires ParseValue(s).Good? && Peek(s) == '"' && NoZero(s)
    ensures WrittenAs(s, ParseValue(s), "", d)
  {
    hide ParseItems, ParseMembers, StringBody, ParseNumber, NoZero, UnitsText, UnitsValue, LegalUnits, White;
    assert Skip(s) == s;
    NoZeroBehind(s, 1);
    var us, closed := BodyWritten(s[1..]);
    d := StringDoc(us, closed);
    var rest := ParseValue(s).rest;
    assert s == "\"" + s[1..];
    assert Render(d) + rest == "\"" + (UnitsText(us) + if closed then "\"" + rest else rest);
    EmptyIsWhite(Render(d) + rest);
  }

  lemma NumberWrittenAs(s: string) returns (d: Doc)
    requires ParseValue(s).Good? && Peek(s) !in "{[\"tfn" && !IsSpace(Peek(s))
    ensures WrittenAs(s, ParseValue(s), "", d)
  {
    hide ParseItems, ParseMembers, StringBody, ParseNumber, Legal, Render, Meaning, EndsNumber, White;
    assert Skip(s) == s;
    d := NumberWritten(s);
    EmptyIsWhite(Render(d) + ParseValue(s).rest);
  }

  lemma {:induction false} ValueWritten(s: string) returns (ws: string, d: Doc)
    requires ParseValue(s).Good? && NoZero(s)
    ensures WrittenAs(s, ParseValue(s), ws, d)
    decreases |s|, 2
  {
    hide ParseValue, White, WrittenAs, NoZero, IsSpace;
    ws := WhiteFront(s);
    var t := Skip(s);
    SkipNothing(t);
    ReadSkips(s, t);
    match Peek(t) {
      case '{' => d := ObjectWritten(t);
      case '[' => d := ArrayWritten(t);
      case '"' => d := StringWritten(t);
      case 't' => d := WordWritten(t);
      case 'f' => d := WordWritten(t);
      case 'n' => d := WordWritten(t);
      case c => d := NumberWrittenAs(t);
    }
    WhiteInFront(s, ParseValue(s), ws, t, d);
  }

  lemma {:induction false} ArrayWritten(s: string) returns (d: Doc)
    requires ParseValue(s).Good? && NoZero(s) && Peek(s) == '['
    ensures WrittenAs(s, ParseValue(s), "", d)
    decreases |s|, 1
  {
    hide ParseItems, White, NoZero, ParseMembers, StringBody, ParseNumber, Legal, Render, Meaning;
    assert Skip(s) == s;
    var gap := WhiteFront(s[1..]);
    var t, rest := Skip(s[1..]), ParseValue(s).rest;
    if Peek(t) == ']' {
      d := ArrayDoc(gap, []);
      EmptyArray(s, gap, t, rest);
    } else {
      ReadSkips(t, s[1..]);
      SkipNothing(t);
      NoZeroBehind(s, 1);
      var items := ItemsWritten(s[1..]);
      d := ArrayDoc("", items);
      FullArray(items, rest);
      assert s == "[" + s[1..];
    }
    EmptyIsWhite(Render(d) + rest);
  }

  lemma EmptyArray(s: string, gap: string, t: string, rest: string)
    requires s != "" && s[0] == '[' && s[1..] == gap + t && White(gap) && Peek(t) == ']' && rest == t[1..]
    ensures var d := ArrayDoc(gap, []); Legal(d) && s == Render(d) + rest && Meaning(d) == Array([])
  {
    hide White;
    assert t == "]" + rest && s == "[" + (gap + t);
    assert RenderItems([]) == "";
  }

  lemma FullArray(items: seq<ItemDoc>, rest: string)
    requires items != [] && forall i :: 0 <= i < |items| ==> LegalItem(items[i])
    ensures var d := ArrayDoc("", items);
      Legal(d) && Render(d) + rest == "[" + (RenderItems(items) + ("]" + rest)) && Meaning(d) == Array(ItemsMeaning(items))
  {
    hide *;
    ArrayParts(items);
    Bracketed("[", RenderItems(items), "]", rest);
  }

  lemma ArrayParts(items: seq<ItemDoc>)
    requires items != [] && forall i :: 0 <= i < |items| ==> LegalItem(items[i])
    ensures var d := ArrayDoc("", items);
      Legal(d) && Render(d) == "[" + ("" + (RenderItems(items) + "]")) && Meaning(d) == Array(ItemsMeaning(items))
  {
  }

  /** An item between white space, and the mark behind it. */
  lemma ItemWritten(s: string, ws: string, d: Doc) returns (it: ItemDoc)
    requires ParseValue(s).Good? && WrittenAs(s, ParseValue(s), ws, d)
    requires var c := Peek(Skip(ParseValue(s).rest)); c == ',' || c == ']' || c == '}'
    ensures LegalItem(it) && s == RenderItem(it) + Skip(ParseValue(s).rest) && Meaning(it.doc) == ParseValue(s).value
  {
    hide ParseValue, Skip, Legal, Render, Meaning;
    var rest := ParseValue(s).rest;
    var after := WhiteFront(rest);
    it := ItemDoc(ws, d, after);
    assert rest != "" by { NothingSkipped(); }
    assert after != "" ==> after[0] == rest[0];
  }

  lemma NothingSkipped()
    ensures Skip("") == "" && Peek("") == '\0'
  {
  }

  lemma {:induction false} ItemsWritten(s: string) returns (items: seq<ItemDoc>)
    requires ParseItems(s).Good? && NoZero(s)
    ensures items != [] && (forall i :: 0 <= i < |items| ==> LegalItem(items[i]))
    ensures s == RenderItems(items) + ("]" + ParseItems(s).rest) && ItemsMeaning(items) == ParseItems(s).value
    decreases |s|, 3
  {
    hide ParseValue, Skip, LegalItem, RenderItem, RenderItems, ItemsMeaning, Meaning, WrittenAs, NoZero;
    var ws, d := ValueWritten(s);
    var it := ItemWritten(s, ws, d);
    var u := Skip(ParseValue(s).rest);
    NoZeroPart(s, RenderItem(it), u);
    if u[0] == ',' {
      NoZeroBehind(u, 1);
      var more := ItemsWritten(u[1..]);
      items := [it] + more;
      MoreItems(it, more);
      assert u == "," + u[1..];
    } else {
      items := [it];
      OneItem(it);
      assert u == "]" + u[1..];
    }
  }

  lemma NoZeroPart(s: string, a: string, b: string)
    requires NoZero(s) && s == a + b
    ensures NoZero(b)
  {
    assert b == s[|a|..];
  }

  lemma OneItem(it: ItemDoc)
    ensures RenderItems([it]) == RenderItem(it) && ItemsMeaning([it]) == [Meaning(it.doc)]
  {
    hide RenderItem, Meaning;
    assert [it][1..] == [];
  }

  lemma MoreItems(it: ItemDoc, more: seq<ItemDoc>)
    requires more != []
    ensures RenderItems([it] + more) == RenderItem(it) + ("," + RenderItems(more))
    ensures ItemsMeaning([it] + more) == [Meaning(it.doc)] + ItemsMeaning(more)
  {
    hide RenderItem, Meaning;
    assert ([it] + more)[1..] == more;
  }

  lemma {:induction false} ObjectWritten(s: string) returns (d: Doc)
    requires ParseValue(s).Good? && NoZero(s) && Peek(s) == '{'
    ensures WrittenAs(s, ParseValue(s), "", d)
    decreases |s|, 1
  {
    hide ParseItems, White, NoZero, ParseMembers, StringBody, ParseNumber, Legal, Render, Meaning;
    assert Skip(s) == s;
    var gap := WhiteFront(s[1..]);
    var t, rest := Skip(s[1..]), ParseValue(s).rest;
    if Peek(t) == '}' {
      d := ObjectDoc(gap, []);
      EmptyObject(s, gap, t, rest);
    } else {
      ReadSkips(t, s[1..]);
      SkipNothing(t);
      NoZeroBehind(s, 1);
      var fields := FieldsWritten(s[1..]);
      d := ObjectDoc("", fields);
      FullObject(fields, rest);
      assert s == "{" + s[1..];
    }
    EmptyIsWhite(Render(d) + rest);
  }

  lemma EmptyObject(s: string, gap: string, t: string, rest: string)
    requires s != "" && s[0] == '{' && s[1..] == gap + t && White(gap) && Peek(t) == '}' && rest == t[1..]
    ensures var d := ObjectDoc(gap, []); Legal(d) && s == Render(d) + rest && Meaning(d) == Object([])
  {
    hide White;
    assert t == "}" + rest && s == "{" + (gap + t);
    assert RenderFields([]) == "";
  }

  lemma FullObject(fields: seq<FieldDoc>, rest: string)
    requires fields != [] && forall i :: 0 <= i < |fields| ==> LegalField(fields[i])
    ensures var d := ObjectDoc("", fields);
      Legal(d) && Render(d) + rest == "{" + (RenderFields(fields) + ("}" + rest)) && Meaning(d) == Object(FieldsMeaning(fields))
  {
    hide *;
    ObjectParts(fields);
    Bracketed("{", RenderFields(fields), "}", rest);
  }

  lemma ObjectParts(fields: seq<FieldDoc>)
    requires fields != [] && forall i :: 0 <= i < |fields| ==> LegalField(fields[i])
    ensures var d := ObjectDoc("", fields);
      Legal(d) && Render(d) == "{" + ("" + (RenderFields(fields) + "}")) && Meaning(d) == Object(FieldsMeaning(fields))
  {
  }

  lemma {:induction false} FieldWritten(s: string) returns (f: FieldDoc)
    requires ParseMember(s).Good? && NoZero(s)
    requires var c := Peek(Skip(ParseMember(s).rest)); c == ',' || c == '}'
    ensures LegalField(f) && s == RenderField(f) + Skip(ParseMember(s).rest)
    ensures ParseMember(s).value == Member(UnitsValue(f.key), Meaning(f.item.doc))
    decreases |s|, 0
  {
    hide ParseValue, White, LegalItem, RenderItem, Meaning, WrittenAs, UnitsText, UnitsValue, LegalUnits, NoZero, Skip, ParseString;
    var before, key := KeyWritten(s);
    var rest := ParseString(s).rest;
    var quoted := before + ("\"" + (UnitsText(key) + "\""));
    NoZeroPart(s, quoted, rest);
    var colon := WhiteFront(rest);
    var t := Skip(rest);
    NoZeroBehind(t, 1);
    var ws, d := ValueWritten(t[1..]);
    var it := ItemWritten(t[1..], ws, d);
    f := FieldDoc(before, key, colon, it);
    var u := Skip(ParseMember(s).rest);
    assert t == ":" + t[1..];
    assert s == RenderField(f) + u by { FieldJoined(s, f, rest, t, u); }
  }

  lemma FieldJoined(s: string, f: FieldDoc, rest: string, t: string, u: string)
    requires s == f.before + ("\"" + (UnitsText(f.key) + "\"")) + rest && rest == f.colon + t && t == ":" + (RenderItem(f.item) + u)
    ensures s == RenderField(f) + u
  {
    hide UnitsText, RenderItem;
  }

  /** The key of a member is closed, for a colon follows it. */
  lemma KeyWritten(s: string) returns (before: string, key: seq<Unit>)
    requires NoZero(s) && ParseString(s).Good? && Peek(Skip(ParseString(s).rest)) == ':'
    ensures White(before) && LegalUnits(key) && ParseString(s).value == UnitsValue(key)
    ensures s == before + ("\"" + (UnitsText(key) + "\"")) + ParseString(s).rest
  {
    hide StringBody, White, UnitsText, UnitsValue, LegalUnits, Skip, NoZero;
    before := WhiteFront(s);
    var q, rest := Skip(s), ParseString(s).rest;
    NothingSkipped();
    assert rest != "";
    assert Peek(q) == '"' by { KeyQuoted(s); }
    NoZeroBehind(q, 1);
    var us, closed := BodyWritten(q[1..]);
    key := us;
    assert q == "\"" + q[1..];
    assert s == before + ("\"" + (UnitsText(key) + ("\"" + rest)));
  }

  lemma KeyQuoted(s: string)
    requires NoZero(s) && ParseString(s).Good? && ParseString(s).rest != ""
    ensures Peek(Skip(s)) == '"'
  {
    hide StringBody;
    BodyEnds("");
    if Peek(Skip(s)) == '\0' {
      AtEnd(s);
      assert false;
    }
  }

  lemma {:induction false} FieldsWritten(s: string) returns (fields: seq<FieldDoc>)
    requires ParseMembers(s).Good? && NoZero(s)
    ensures fields != [] && (forall i :: 0 <= i < |fields| ==> LegalField(fields[i]))
    ensures s == RenderFields(fields) + ("}" + ParseMembers(s).rest) && FieldsMeaning(fields) == ParseMembers(s).value
    decreases |s|, 1
  {
    hide ParseMember, Skip, LegalField, RenderField, RenderFields, FieldsMeaning, Meaning, UnitsValue, NoZero;
    var f := FieldWritten(s);
    var u := Skip(ParseMember(s).rest);
    NoZeroPart(s, RenderField(f), u);
    if u[0] == ',' {
      NoZeroBehind(u, 1);
      var more := FieldsWritten(u[1..]);
      fields := [f] + more;
      MoreFields(f, more);
      assert u == "," + u[1..];
    } else {
      fields := [f];
      OneField(f);
      assert u == "}" + u[1..];
    }
  }

  lemma OneField(f: FieldDoc)
    ensures RenderFields([f]) == RenderField(f) && FieldsMeaning([f]) == [Member(UnitsValue(f.key), Meaning(f.item.doc))]
  {
    hide RenderField, Meaning, UnitsValue;
    assert [f][1..] == [];
  }

  lemma MoreFields(f: FieldDoc, more: seq<FieldDoc>)
    requires more != []
    ensures RenderFields([f] + more) == RenderField(f) + ("," + RenderFields(more))
    ensures FieldsMeaning([f] + more) == [Member(UnitsValue(f.key), Meaning(f.item.doc))] + FieldsMeaning(more)
  {
    hide RenderField, Meaning, UnitsValue;
    assert ([f] + more)[1..] == more;
  }

  // ------------------------------------------------------------------ documents

  /** The text is a document with this meaning; a string that ends the text may lack its quote. */
  ghost predicate Says(text: string, v: Value) {
    exists before, d, after :: SaysAs(text, v, before, d, after)
  }

  predicate SaysAs(text: string, v: Value, before: string, d: Doc, after: string) {
    White(before) && White(after) && Apart(d, after) && (Legal(d) || (Unclosed(d) && after == "")) &&
    text == before + (Render(d) + after) && Meaning(d) == v
  }

  lemma UnclosedRead(d: Doc)
    requires Unclosed(d)
    ensures ParseValue(Render(d)) == Good(Meaning(d), "")
  {
    hide UnitsText, UnitsValue, LegalUnits, StringBody, ParseItems, ParseMembers, ParseNumber;
    var s := Render(d);
    assert s[0] == '"' && Skip(s) == s && s[1..] == UnitsText(d.us) + "";
    UnitsRead(d.us, "");
    assert UnitsText(d.us) + "" == UnitsText(d.us);
    BodyEnds("");
    assert UnitsValue(d.us) + "" == UnitsValue(d.us);
  }

  lemma DocumentRead(text: string, v: Value, before: string, d: Doc, after: string)
    requires SaysAs(text, v, before, d, after)
    ensures ParseDocument(text) == Good(v, after)
  {
    hide ParseValue, White, Legal, Render, Meaning, Unclosed;
    SkipWhite(before, Render(d) + after);
    ReadSkips(text, Render(d) + after);
    if Legal(d) {
      EndOfNumber(after, d);
      ValueRead(d, after);
    } else {
      UnclosedRead(d);
      assert Render(d) + "" == Render(d);
    }
    SkipWhite(after, "");
    assert after + "" == after;
    NothingSkipped();
  }

  lemma EndOfNumber(after: string, d: Doc)
    requires Apart(d, after)
    ensures d.NumberDoc? ==> EndsNumber(Peek(after))
  {
  }

  /** The parser accepts a text without zeros if and only if the grammar writes it, and reads what it says. */
  lemma DocumentExact(text: string, v: Value)
    requires NoZero(text)
    ensures (ParseDocument(text).Good? && ParseDocument(text).value == v) <==> Says(text, v)
  {
    hide ParseValue, White, Legal, Render, Meaning, NoZero;
    if Says(text, v) {
      var before, d, after :| SaysAs(text, v, before, d, after);
      DocumentRead(text, v, before, d, after);
    }
    if ParseDocument(text).Good? {
      var ws, d := ValueWritten(text);
      var rest := ParseValue(text).rest;
      var after := WhiteFront(rest);
      NoZeroPart(text, ws + Render(d), rest);
      assert Skip(rest) == "" by { AtEnd(rest); }
      assert after + "" == after;
      assert SaysAs(text, ParseValue(text).value, ws, d, rest) by { WhiteAfterNumber(rest, d); }
    }
  }

  lemma AtEnd(s: string)
    requires NoZero(s) && Peek(Skip(s)) == '\0'
    ensures Skip(s) == ""
  {
    var ws := WhiteFront(s);
  }

  lemma WhiteAfterNumber(after: string, d: Doc)
    requires White(after) && (d.NumberDoc? ==> EndsNumber(Peek(after)))
    ensures Apart(d, after)
  {
  }

  /** A string with every character escaped that can be is a document of its own. */
  lemma EscapedDocument(s: string)
    requires NoZero(s)
    ensures ParseDocument("\"" + (Escaped(s) + "\"")) == Good(String(s), "")
  {
    hide ParseDocument, Escaped;
    var us := EscapedUnits(s);
    var d, text := StringDoc(us, true), "\"" + (Escaped(s) + "\"");
    assert text == "" + (Render(d) + "");
    DocumentRead(text, String(s), "", d, "");
  }

  /** What the parser returns: the value a document says, with the members of its objects put in order. */
  lemma ParseExact(text: string, v: Value)
    requires NoZero(text)
    ensures (Parse(text).Good? && Parse(text).value == v) <==> exists u :: Says(text, u) && Normal(u) == v
  {
    hide ParseDocument, Says, Normal, NoZero;
    if Parse(text).Good? { DocumentExact(text, ParseDocument(text).value); }
    if u :| Says(text, u) && Normal(u) == v { DocumentExact(text, u); }
  }
}
