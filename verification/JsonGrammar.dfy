/**
  Documents as section 2 of RFC 8259 writes them, with the liberties this parser
  takes, and what they mean.  Everything so written is read as what it means.
*/
module JsonGrammar {
  import opened Doubles
  import opened Json
  import opened Numerals
  import opened JsonText

  // ------------------------------------------------------------------ strings

  /** A character of a string: itself, the short escape of a character, or the four digits of a unicode escape. */
  datatype Unit = Plain(c: char) | Short(c: char) | Unicode(digits: string)

  /** The letter behind the backslash, by the code of the character it stands for (section 7 of RFC 8259). */
  function Letter(code: int): (c: char) {
    if code == 0x22 then '"'
    else if code == 0x5C then '\\'
    else if code == 0x2F then '/'
    else if code == 0x08 then 'b'
    else if code == 0x0C then 'f'
    else if code == 0x0A then 'n'
    else if code == 0x0D then 'r'
    else if code == 0x09 then 't'
    else '\0'
  }

  predicate LegalUnit(u: Unit) {
    match u
    case Plain(c) => c != '"' && c != '\\' && c != '\0'
    case Short(c) => Letter(c as int) != '\0'
    case Unicode(h) => |h| == 4 && forall i :: 0 <= i < 4 ==> IsHex(h[i])
  }

  predicate LegalUnits(us: seq<Unit>) {
    forall i :: 0 <= i < |us| ==> LegalUnit(us[i])
  }

  function UnitText(u: Unit): (s: string) {
    match u
    case Plain(c) => [c]
    case Short(c) => ['\\', Letter(c as int)]
    case Unicode(h) => "\\u" + h
  }

  function UnitsText(us: seq<Unit>): (s: string) {
    if us == [] then "" else UnitText(us[0]) + UnitsText(us[1..])
  }

  /** A unicode escape stays as it is written. */
  function UnitValue(u: Unit): (s: string) {
    match u
    case Plain(c) => [c]
    case Short(c) => [c]
    case Unicode(h) => "\\u" + h
  }

  function UnitsValue(us: seq<Unit>): (s: string) {
    if us == [] then "" else UnitValue(us[0]) + UnitsValue(us[1..])
  }

  lemma UnitRead(u: Unit, rest: string)
    requires LegalUnit(u)
    ensures StringBody(UnitText(u) + rest) == Cons(UnitValue(u), StringBody(rest))
  {
    var s := UnitText(u) + rest;
    match u
    case Plain(_) => assert s[1..] == rest;
    case Short(_) => assert s[2..] == rest;
    case Unicode(h) =>
      assert s[6..] == rest && s[..6] == "\\u" + h;
      assert s[2] == h[0] && s[3] == h[1] && s[4] == h[2] && s[5] == h[3];
  }

  lemma ConsBoth(a: string, b: string, r: Parsed<string>)
    ensures Cons(a, Cons(b, r)) == Cons(a + b, r)
  {
    if r.Good? { assert a + (b + r.value) == (a + b) + r.value; }
  }

  /** A string is read as the characters it was written from, up to what follows it. */
  lemma {:induction false} UnitsRead(us: seq<Unit>, rest: string)
    requires LegalUnits(us)
    ensures StringBody(UnitsText(us) + rest) == Cons(UnitsValue(us), StringBody(rest))
    decreases |us|
  {
    hide StringBody, LegalUnit, UnitText, UnitValue;
    if us == [] {
      assert "" + rest == rest;
      if StringBody(rest).Good? { assert "" + StringBody(rest).value == StringBody(rest).value; }
    } else {
      var more := UnitsText(us[1..]) + rest;
      assert UnitsText(us) + rest == UnitText(us[0]) + more;
      UnitRead(us[0], more);
      UnitsRead(us[1..], rest);
      ConsBoth(UnitValue(us[0]), UnitsValue(us[1..]), StringBody(rest));
    }
  }

  /** Up to the closing quote. */
  lemma ClosedRead(us: seq<Unit>, rest: string)
    requires LegalUnits(us)
    ensures StringBody(UnitsText(us) + ("\"" + rest)) == Good(UnitsValue(us), rest)
  {
    hide UnitsText, UnitsValue, LegalUnits;
    UnitsRead(us, "\"" + rest);
    assert ("\"" + rest)[1..] == rest;
    assert UnitsValue(us) + "" == UnitsValue(us);
  }

  /** A writer that escapes what has to be escaped and all that can be. */
  function Escaped(s: string): (r: string) {
    if s == "" then "" else (if Letter(s[0] as int) != '\0' then ['\\', Letter(s[0] as int)] else [s[0]]) + Escaped(s[1..])
  }

  lemma {:induction false} EscapedUnits(s: string) returns (us: seq<Unit>)
    requires '\0' !in s
    ensures LegalUnits(us) && UnitsText(us) == Escaped(s) && UnitsValue(us) == s
    decreases |s|
  {
    us := [];
    if s != "" {
      var more := EscapedUnits(s[1..]);
      us := [if Letter(s[0] as int) != '\0' then Short(s[0]) else Plain(s[0])] + more;
      assert us[1..] == more;
      assert s == [s[0]] + s[1..];
    }
  }

  /** Every string without a zero comes back from its escaped text. */
  lemma EscapedRead(s: string, rest: string)
    requires '\0' !in s
    ensures StringBody(Escaped(s) + ("\"" + rest)) == Good(s, rest)
  {
    var us := EscapedUnits(s);
    ClosedRead(us, rest);
  }

  // ------------------------------------------------------------------ numbers

  predicate AllDigits(s: string) {
    forall i :: 0 <= i < |s| ==> IsDigit(s[i])
  }

  type Numeral = s: string | AllDigits(s)

  datatype Power = Power(letter: char, sign: string, digits: Numeral)

  /** What follows the whole part of a real: the decimals, and an exponent. */
  datatype Tail = NoTail | Point(decimals: Numeral) | Scientific(decimals: Numeral, power: Power)

  predicate LegalPower(p: Power) {
    (p.letter == 'e' || p.letter == 'E') && (p.sign == "" || p.sign == "+" || p.sign == "-") && p.digits != ""
  }

  predicate LegalTail(t: Tail) {
    t.Scientific? ==> LegalPower(t.power)
  }

  function PowerText(t: Tail): (s: string) {
    if t.Scientific? then [t.power.letter] + (t.power.sign + t.power.digits) else ""
  }

  function TailText(t: Tail): (s: string) {
    if t.NoTail? then "" else "." + (t.decimals + PowerText(t))
  }

  function Decimals(t: Tail): (d: Numeral) {
    if t.NoTail? then "" else t.decimals
  }

  function PowerOf(t: Tail): (e: int) {
    if !t.Scientific? then 0
    else if t.power.sign == "-" then -NumberOf(t.power.digits)
    else NumberOf(t.power.digits)
  }

  /** Digits behind the point, each worth a tenth of the one before. */
  function Fraction(d: Numeral): (x: real) {
    if d == "" then 0.0 else ((d[0] as int - '0' as int) as real + Fraction(d[1..])) / 10.0
  }

  function TenTo(e: int): (x: real)
    decreases if e < 0 then -e else e
  {
    if e == 0 then 1.0 else if e > 0 then 10.0 * TenTo(e - 1) else TenTo(e + 1) / 10.0
  }

  /** The number that is written. */
  function Worth(negative: bool, whole: Numeral, t: Tail): (x: real) {
    var y := (NumberOf(whole) as real + Fraction(Decimals(t))) * TenTo(PowerOf(t));
    if negative then -y else y
  }

  /** The whole part fits 64 bits, and a real is a number that a double can hold. */
  predicate Held(negative: bool, whole: Numeral, t: Tail) {
    (if negative then NumberOf(whole) <= INT64_MAX + 1 else NumberOf(whole) <= INT64_MAX) &&
    (t != NoTail ==> var x := Worth(negative, whole, t); !Overflows(x) && !Underflows(x))
  }

  // ------------------------------------------------------------------ documents

  /** A document without the white space around it; a string may lack its closing quote. */
  datatype Doc =
    | NullDoc
    | BooleanDoc(b: bool)
    | NumberDoc(negative: bool, whole: Numeral, tail: Tail)
    | StringDoc(us: seq<Unit>, closed: bool)
    | ArrayDoc(gap: string, items: seq<ItemDoc>)
    | ObjectDoc(gap: string, fields: seq<FieldDoc>)

  datatype ItemDoc = ItemDoc(before: string, doc: Doc, after: string)

  datatype FieldDoc = FieldDoc(before: string, key: seq<Unit>, colon: string, item: ItemDoc)

  /** A blank or one of the five characters from tabulator to carriage return. */
  predicate White(s: string) {
    forall i :: 0 <= i < |s| ==> s[i] as int == 0x20 || 0x09 <= s[i] as int <= 0x0D
  }

  predicate LegalNumber(negative: bool, whole: Numeral, t: Tail) {
    whole != "" && LegalTail(t) && Held(negative, whole, t)
  }

  /** White space behind a number starts with a blank or a line feed. */
  predicate Apart(d: Doc, after: string) {
    d.NumberDoc? && after != "" ==> after[0] == ' ' || after[0] == '\n'
  }

  /** Only an empty array or object has a gap. */
  predicate Legal(d: Doc)
    decreases d
  {
    match d
    case NullDoc => true
    case BooleanDoc(_) => true
    case NumberDoc(negative, whole, t) => LegalNumber(negative, whole, t)
    case StringDoc(us, closed) => LegalUnits(us) && closed
    case ArrayDoc(gap, items) => White(gap) && (items != [] ==> gap == "") && forall i :: 0 <= i < |items| ==> LegalItem(items[i])
    case ObjectDoc(gap, fields) => White(gap) && (fields != [] ==> gap == "") && forall i :: 0 <= i < |fields| ==> LegalField(fields[i])
  }

  predicate LegalItem(it: ItemDoc)
    decreases it
  {
    White(it.before) && White(it.after) && Apart(it.doc, it.after) && Legal(it.doc)
  }

  predicate LegalField(f: FieldDoc)
    decreases f
  {
    White(f.before) && LegalUnits(f.key) && White(f.colon) && LegalItem(f.item)
  }

  function Render(d: Doc): (s: string)
    decreases d
  {
    match d
    case NullDoc => "null"
    case BooleanDoc(b) => if b then "true" else "false"
    case NumberDoc(negative, whole, t) => (if negative then "-" else "") + (whole + TailText(t))
    case StringDoc(us, closed) => "\"" + (UnitsText(us) + if closed then "\"" else "")
    case ArrayDoc(gap, items) => "[" + (gap + (RenderItems(items) + "]"))
    case ObjectDoc(gap, fields) => "{" + (gap + (RenderFields(fields) + "}"))
  }

  function RenderItem(it: ItemDoc): (s: string)
    decreases it
  {
    it.before + (Render(it.doc) + it.after)
  }

  function RenderItems(items: seq<ItemDoc>): (s: string)
    decreases items
  {
    if items == [] then ""
    else if |items| == 1 then RenderItem(items[0])
    else RenderItem(items[0]) + ("," + RenderItems(items[1..]))
  }

  function RenderField(f: FieldDoc): (s: string)
    decreases f
  {
    f.before + ("\"" + (UnitsText(f.key) + ("\"" + (f.colon + (":" + RenderItem(f.item))))))
  }

  function RenderFields(fields: seq<FieldDoc>): (s: string)
    decreases fields
  {
    if fields == [] then ""
    else if |fields| == 1 then RenderField(fields[0])
    else RenderField(fields[0]) + ("," + RenderFields(fields[1..]))
  }

  /** The value a document means; the members of objects come in the order of the text. */
  function Meaning(d: Doc): (v: Value)
    decreases d
  {
    match d
    case NullDoc => Null
    case BooleanDoc(b) => Boolean(b)
    case NumberDoc(negative, whole, NoTail) => Integer(if negative then -NumberOf(whole) else NumberOf(whole))
    case NumberDoc(negative, whole, t) => Real(Finite(Rounded(Worth(negative, whole, t))))
    case StringDoc(us, _) => String(UnitsValue(us))
    case ArrayDoc(_, items) => Array(ItemsMeaning(items))
    case ObjectDoc(_, fields) => Object(FieldsMeaning(fields))
  }

  function ItemsMeaning(items: seq<ItemDoc>): (vs: seq<Value>)
    decreases items
  {
    if items == [] then [] else [Meaning(items[0].doc)] + ItemsMeaning(items[1..])
  }

  function FieldsMeaning(fields: seq<FieldDoc>): (ms: seq<Member>)
    decreases fields
  {
    if fields == [] then []
    else [Member(UnitsValue(fields[0].key), Meaning(fields[0].item.doc))] + FieldsMeaning(fields[1..])
  }
}
