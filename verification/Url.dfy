/** Percent-encoding, and what the query and form parsers make of it. */
module Url {
  import opened Numerals
  import opened HttpMessage
  import opened HttpParser
  import opened HttpPieces
  import opened HttpRoundTrip

  // ------------------------------------------------------------------ encoding

  /** The characters the table replaces. */
  const SPECIAL: string := " !\"#$%&'()*+,-./:;<=>?@[\\]{|}"

  function EncodeChar(c: char): (s: string) {
    if c in SPECIAL then ['%', UpperHex(c as int / 16), UpperHex(c as int % 16)] else [c]
  }

  /** The printable characters up to the closing brace that are neither letters nor digits nor one of three others. */
  predicate IsReserved(c: char) {
    ' ' <= c <= '}' && !IsAlnum(c) && c != '^' && c != '_' && c != '`'
  }

  lemma SpecialIsReserved(c: char)
    requires c in SPECIAL
    ensures IsReserved(c)
  {
    var i :| 0 <= i < |SPECIAL| && SPECIAL[i] == c;
    assert c as int == if i < 16 then i + 32 else if i < 23 then i + 42 else if i < 26 then i + 68 else i + 97;
  }

  lemma ReservedIsSpecial(c: char)
    requires IsReserved(c)
    ensures c in SPECIAL
  {
    var n := c as int;
    if n < 48 {
      assert SPECIAL[n - 32] == c;
    } else if n <= 64 {
      assert SPECIAL[n - 42] == c;
    } else if n <= 93 {
      assert SPECIAL[n - 68] == c;
    } else {
      assert SPECIAL[n - 97] == c;
    }
  }

  /** Exactly those are replaced, each by a percent sign and the two upper-case digits of its code. */
  lemma EncodedForm(c: char)
    ensures var e := EncodeChar(c);
      if IsReserved(c) then
        |e| == 3 && e[0] == '%' && 16 * HexDigit(e[1]) + HexDigit(e[2]) == c as int && e[1] < 'a' && e[2] < 'a'
      else e == [c]
  {
    hide HexDigit, IsAlnum;
    if c in SPECIAL {
      SpecialIsReserved(c);
    } else if IsReserved(c) {
      ReservedIsSpecial(c);
    }
  }

  function Encoded(s: string): (r: string) {
    if s == "" then "" else EncodeChar(s[0]) + Encoded(s[1..])
  }

  method Encode(str: string) returns (result: string)
    ensures result == Encoded(str)
  {
    result := "";
    for i := 0 to |str|
      invariant Encoded(str) == result + Encoded(str[i..])
    {
      assert str[i..][1..] == str[i + 1..];
      result := result + EncodeChar(str[i]);
    }
  }

  // ------------------------------------------------------------------ decoding

  predicate IsSpace(c: char) {
    c == ' ' || 9 <= c as int <= 13
  }

  /** `strtol` on two characters in base 16, cut to a byte: a blank or a sign may stand in front. */
  function HexPair(a: char, b: char): (c: char) {
    var x, y := HexDigit(a), HexDigit(b);
    if x >= 0 then (if y >= 0 then 16 * x + y else x) as char
    else if (IsSpace(a) || a == '+') && y >= 0 then y as char
    else if a == '-' && y > 0 then (256 - y) as char
    else 0 as char
  }

  /** The hexadecimal digits at the front of a text, and the number they make. */
  function HexRun(s: string): (n: nat)
    ensures n <= |s| && forall i :: 0 <= i < n ==> HexDigit(s[i]) >= 0
  {
    if s == "" || HexDigit(s[0]) < 0 then 0 else 1 + HexRun(s[1..])
  }

  function HexNumber(s: string): (n: int) {
    if s == "" then 0 else 16 * HexNumber(s[..|s| - 1]) + HexDigit(s[|s| - 1])
  }

  /** White space, a sign and digits, as `strtol` reads them in base 16. */
  function Strtol(s: string): (n: int)
    decreases |s|
  {
    if s != "" && IsSpace(s[0]) then Strtol(s[1..])
    else if s != "" && (s[0] == '-' || s[0] == '+') then
      var t := s[1..];
      if s[0] == '-' then -HexNumber(t[..HexRun(t)]) else HexNumber(t[..HexRun(t)])
    else HexNumber(s[..HexRun(s)])
  }

  lemma HexOfOne(a: char)
    ensures HexRun([a]) == if HexDigit(a) < 0 then 0 else 1
    ensures HexNumber([a]) == HexDigit(a) && HexNumber("") == 0
  {
    assert [a][1..] == "" && [a][..0] == "";
  }

  lemma HexOfTwo(a: char, b: char)
    ensures HexRun([a, b]) == if HexDigit(a) < 0 then 0 else if HexDigit(b) < 0 then 1 else 2
    ensures HexNumber([a, b]) == 16 * HexDigit(a) + HexDigit(b)
  {
    HexOfOne(a);
    HexOfOne(b);
    assert [a, b][1..] == [b] && [a, b][..1] == [a];
  }

  lemma SpaceIsNoDigit(a: char)
    requires IsSpace(a) || a == '+' || a == '-'
    ensures HexDigit(a) < 0
  {
  }

  lemma StrtolOfOne(b: char)
    ensures Strtol([b]) == if HexDigit(b) < 0 then 0 else HexDigit(b)
  {
    HexOfOne(b);
    assert [b][1..] == "" && [b][..1] == [b] && HexRun("") == 0;
    if IsSpace(b) || b == '+' || b == '-' { SpaceIsNoDigit(b); }
  }

  /** The two characters behind a percent sign are read as `strtol` reads them and cut to a byte, by the decoder and by the query parser. */
  lemma PairIsStrtol(a: char, b: char)
    ensures HexPair(a, b) as int == Strtol([a, b]) % 256
    ensures IsAlnum(a) && IsAlnum(b) ==> HexChar(a, b) == HexPair(a, b)
  {
    hide HexDigit, HexRun, HexNumber;
    var s := [a, b];
    HexOfTwo(a, b);
    HexOfOne(a);
    HexOfOne(b);
    StrtolOfOne(b);
    assert s[1..] == [b] && s[..0] == "" && s[..1] == [a] && s[..2] == s && [b][..0] == "" && [b][..1] == [b];
    if IsSpace(a) || a == '+' || a == '-' { SpaceIsNoDigit(a); }
  }

  /** The url characters are the unreserved and the reserved ones of section 2 of RFC 3986. */
  lemma UrlCharacters(c: char)
    ensures IsUrlChar(c) <==>
      'A' <= c <= 'Z' || 'a' <= c <= 'z' || '0' <= c <= '9' || c in "-._~" || c in ":/?#[]@" || c in "!$&'()*+,;="
  {
    assert URL_SPECIAL_CHAR == "-._~" + ":/?#[]@" + "!$&'()*+,;=";
  }

  /** The text that is decoded before the call ends, and whether it came to the end of the input. */
  function Decoded(s: string): (r: (bool, string))
    decreases |s|
  {
    if s == "" then (true, "")
    else if s[0] != '%' then
      var r := Decoded(s[1..]);
      (r.0, [s[0]] + r.1)
    else if |s| < 3 then (false, "")
    else
      var r := Decoded(s[3..]);
      (r.0, [HexPair(s[1], s[2])] + r.1)
  }

  method Decode(str: string) returns (ok: bool, decoded: string)
    ensures (ok, decoded) == Decoded(str)
  {
    hide *;
    decoded := "";
    var i := 0;
    assert str[0..] == str && "" + Decoded(str).1 == Decoded(str).1;
    while i < |str|
      invariant i <= |str|
      invariant Decoded(str).0 == Decoded(str[i..]).0 && Decoded(str).1 == decoded + Decoded(str[i..]).1
    {
      DecodedFrom(str, i, decoded);
      if str[i] != '%' {
        decoded := decoded + [str[i]];
      } else {
        if i + 2 >= |str| {
          return false, decoded;
        }
        decoded := decoded + [HexPair(str[i + 1], str[i + 2])];
        i := i + 2;
      }
      i := i + 1;
    }
    DecodedEnd(decoded);
    assert str[i..] == "";
    ok := true;
  }

  lemma DecodedFrom(str: string, i: nat, s: string)
    requires i < |str|
    ensures var r := Decoded(str[i..]);
      if str[i] != '%' then r.0 == Decoded(str[i + 1..]).0 && s + r.1 == s + [str[i]] + Decoded(str[i + 1..]).1
      else if i + 2 >= |str| then !r.0 && s + r.1 == s
      else r.0 == Decoded(str[i + 3..]).0 && s + r.1 == s + [HexPair(str[i + 1], str[i + 2])] + Decoded(str[i + 3..]).1
  {
    hide HexPair;
    var t := str[i..];
    assert t[1..] == str[i + 1..] && (|t| >= 3 ==> t[3..] == str[i + 3..]);
  }

  lemma DecodedEnd(s: string)
    ensures Decoded("") == (true, "") && s + "" == s
  {
  }

  /** Decoding undoes encoding, for every text. */
  lemma {:induction false} DecodeEncoded(s: string)
    ensures Decoded(Encoded(s)) == (true, s)
  {
    hide EncodeChar, Decoded;
    if s == "" {
      DecodedEnd("");
    } else {
      DecodeEncoded(s[1..]);
      DecodeChar(s[0], Encoded(s[1..]));
      assert s == [s[0]] + s[1..];
    }
  }

  lemma DecodeChar(c: char, t: string)
    ensures var r := Decoded(EncodeChar(c) + t); r.0 == Decoded(t).0 && r.1 == [c] + Decoded(t).1
  {
    var e := EncodeChar(c);
    if c in SPECIAL {
      assert (e + t)[0] == '%' && (e + t)[1] == e[1] && (e + t)[2] == e[2] && (e + t)[3..] == t;
      assert HexPair(e[1], e[2]) == c;
    } else {
      assert c != '%' && (e + t)[1..] == t;
    }
  }

  // ------------------------------------------------------------------ values in queries

  /** The encoder replaces the character, or the parser takes it as it is. */
  predicate Sendable(c: char) {
    c in SPECIAL || IsUrlChar(c)
  }

  predicate AllSendable(s: string) {
    forall i :: 0 <= i < |s| ==> Sendable(s[i])
  }

  /** A parser that reads the value of a parameter and is not inside an escape. */
  predicate InValue(p: Parser) {
    p.state == URL_QUERY_VALUE && p.hex == HEX_FINISHED && p.kind == Request
  }

  /** The parser behind a character of the value. */
  predicate Grown(p: Parser, q: Parser, s: string) {
    q == p.(queryValue := p.queryValue + s, hexText := q.hexText)
  }

  lemma PlainChar(p: Parser, params: Params, c: char)
    requires p.hex == HEX_FINISHED && IsUrlChar(c) && c !in SPECIAL
    ensures StepQueryValue(p, params, c) == Some((p.(queryValue := p.queryValue + [c]), params))
  {
    assert forall d :: d in "%&#+? " ==> d in SPECIAL;
    assert c !in "%&#+? ";
  }

  /** An escape of the encoder: two hexadecimal digits that stand for the character. */
  lemma EscapeOf(c: char)
    requires c in SPECIAL
    ensures var e := EncodeChar(c);
      |e| == 3 && e[0] == '%' && IsAlnum(e[1]) && IsAlnum(e[2]) && HexChar(e[1], e[2]) == c
  {
  }

  /** Three steps for an escape. */
  lemma EscapeSteps(p: Parser, params: Params, x: char, y: char)
    requires p.hex == HEX_FINISHED && IsAlnum(x) && IsAlnum(y)
    ensures var p1 := p.(hexText := "", hex := HEX_FIRST);
      var p2 := p.(hexText := [x], hex := HEX_SECOND);
      var p3 := p.(queryValue := p.queryValue + [HexChar(x, y)], hexText := [x, y]);
      StepQueryValue(p, params, '%') == Some((p1, params)) &&
      StepQueryValue(p1, params, x) == Some((p2, params)) &&
      StepQueryValue(p2, params, y) == Some((p3, params))
  {
    hide HexChar, IsAlnum, IsUrlChar;
    assert "" + [x] == [x] && [x] + [y] == [x, y];
  }

  lemma {:induction false} ScanEncodedChar(p: Parser, m: Message, c: char)
    requires InValue(p)
    ensures var r := Scan(p, m, EncodeChar(c));
      if Sendable(c) then r.Ran? && r.m == m && Grown(p, r.p, [c]) else r.Stopped?
  {
    hide StepQueryValue, EncodeChar, HexChar;
    if c in SPECIAL {
      EscapeOf(c);
      var e := EncodeChar(c);
      EscapeSteps(p, m.query, e[1], e[2]);
      assert e == [e[0]] + ([e[1]] + ([e[2]] + ""));
      var p1 := p.(hexText := "", hex := HEX_FIRST);
      var p2 := p.(hexText := [e[1]], hex := HEX_SECOND);
      assert m.(query := m.query) == m;
      ScanChar(p, m, e[0], [e[1]] + ([e[2]] + ""));
      ScanChar(p1, m, e[1], [e[2]] + "");
      ScanChar(p2, m, e[2], "");
    } else if IsUrlChar(c) {
      PlainChar(p, m.query, c);
      PlainLength(c);
      assert [c] + "" == [c];
      assert m.(query := m.query) == m;
      ScanChar(p, m, c, "");
    } else {
      PlainLength(c);
      NotTaken(p, m.query, c);
    }
  }

  lemma PlainLength(c: char)
    requires c !in SPECIAL
    ensures EncodeChar(c) == [c] && (IsUrlChar(c) ==> c != '\0')
  {
  }

  lemma NotTaken(p: Parser, params: Params, c: char)
    requires p.hex == HEX_FINISHED && !IsUrlChar(c) && c !in SPECIAL
    ensures StepQueryValue(p, params, c).None?
  {
    assert forall d :: d in "%&#+? " ==> d in SPECIAL;
    assert c !in "%&#+? ";
  }

  /** The parser takes an encoded value, and recovers it, exactly if all its characters are sendable. */
  lemma {:induction false} ValueRecovered(p: Parser, m: Message, v: string)
    requires InValue(p)
    ensures var r := Scan(p, m, Encoded(v));
      if AllSendable(v) then r.Ran? && r.m == m && Grown(p, r.p, v) else r.Stopped?
    decreases |v|
  {
    hide Scan, Sendable, EncodeChar;
    if v == "" {
      ScanNothing(p, m);
      assert p.queryValue + v == p.queryValue;
    } else {
      ScanEncodedChar(p, m, v[0]);
      ScanSplit(p, m, EncodeChar(v[0]), Encoded(v[1..]));
      if Sendable(v[0]) {
        var q := Scan(p, m, EncodeChar(v[0])).p;
        ValueRecovered(q, m, v[1..]);
        assert p.queryValue + [v[0]] + v[1..] == p.queryValue + v;
        assert AllSendable(v) <==> AllSendable(v[1..]);
      }
    }
  }

  // ------------------------------------------------------------------ every way to write a value

  /** A character as it is, as a percent sign with two hexadecimal digits, or a blank as a plus sign. */
  datatype Unit = Plain(c: char) | Escape(a: char, b: char) | Plus

  predicate LegalUnit(u: Unit) {
    match u
    case Plain(c) => IsUrlChar(c) && c !in "&#+?"
    case Escape(a, b) => HexDigit(a) >= 0 && HexDigit(b) >= 0
    case Plus => true
  }

  function UnitText(u: Unit): (s: string) {
    match u
    case Plain(c) => [c]
    case Escape(a, b) => ['%', a, b]
    case Plus => "+"
  }

  function UnitChar(u: Unit): (c: char)
    requires LegalUnit(u)
  {
    match u
    case Plain(c) => c
    case Escape(a, b) => (16 * HexDigit(a) + HexDigit(b)) as char
    case Plus => ' '
  }

  predicate LegalUnits(us: seq<Unit>) {
    forall i :: 0 <= i < |us| ==> LegalUnit(us[i])
  }

  function UnitsText(us: seq<Unit>): (s: string) {
    if us == [] then "" else UnitText(us[0]) + UnitsText(us[1..])
  }

  function UnitsValue(us: seq<Unit>): (s: string)
    requires LegalUnits(us)
  {
    if us == [] then "" else [UnitChar(us[0])] + UnitsValue(us[1..])
  }

  lemma TakenChar(p: Parser, params: Params, c: char)
    requires p.hex == HEX_FINISHED && IsUrlChar(c) && c !in "&#+?"
    ensures StepQueryValue(p, params, c) == Some((p.(queryValue := p.queryValue + [c]), params)) && c != '\0'
  {
    assert !IsUrlChar('%');
  }

  lemma PlusStep(p: Parser, params: Params)
    requires p.hex == HEX_FINISHED
    ensures StepQueryValue(p, params, '+') == Some((p.(queryValue := p.queryValue + " "), params))
  {
  }

  lemma HexIsAlnum(a: char, b: char)
    requires HexDigit(a) >= 0 && HexDigit(b) >= 0
    ensures IsAlnum(a) && IsAlnum(b) && HexChar(a, b) == (16 * HexDigit(a) + HexDigit(b)) as char && a != '\0' && b != '\0'
  {
  }

  lemma ScanUnit(p: Parser, m: Message, u: Unit)
    requires InValue(p) && LegalUnit(u)
    ensures var r := Scan(p, m, UnitText(u)); r.Ran? && r.m == m && Grown(p, r.p, [UnitChar(u)])
  {
    hide Scan, StepQueryValue, HexChar, HexDigit, IsAlnum, IsUrlChar;
    assert m.(query := m.query) == m;
    match u
    case Plain(c) =>
      TakenChar(p, m.query, c);
      ScanOne(p, m, c);
    case Plus =>
      PlusStep(p, m.query);
      ScanOne(p, m, '+');
    case Escape(a, b) =>
      HexIsAlnum(a, b);
      EscapeSteps(p, m.query, a, b);
      var p1 := p.(hexText := "", hex := HEX_FIRST);
      var p2 := p.(hexText := [a], hex := HEX_SECOND);
      assert ['%', a, b] == ['%'] + ([a] + [b]);
      ScanChar(p, m, '%', [a] + [b]);
      ScanChar(p1, m, a, [b]);
      ScanOne(p2, m, b);
  }

  lemma ScanOne(p: Parser, m: Message, c: char)
    requires c != '\0' && Step(p, m, c).Next? && p.state != HEADER_FINISH
    ensures Scan(p, m, [c]) == Ran(Step(p, m, c).p, Step(p, m, c).m)
  {
    hide Scan, Step;
    assert [c] + "" == [c];
    ScanChar(p, m, c, "");
    ScanNothing(Step(p, m, c).p, Step(p, m, c).m);
  }

  /** However a value is written, the parser reads what it stands for. */
  lemma {:induction false} UnitsRecovered(p: Parser, m: Message, us: seq<Unit>)
    requires InValue(p) && LegalUnits(us)
    ensures var r := Scan(p, m, UnitsText(us)); r.Ran? && r.m == m && Grown(p, r.p, UnitsValue(us))
    decreases |us|
  {
    hide Scan, LegalUnit, UnitText, UnitChar;
    if us == [] {
      ScanNothing(p, m);
      assert p.queryValue + "" == p.queryValue;
    } else {
      ScanUnit(p, m, us[0]);
      var q := Scan(p, m, UnitText(us[0])).p;
      ScanThen(p, m, UnitText(us[0]), q, m, UnitsText(us[1..]));
      UnitsRecovered(q, m, us[1..]);
      assert p.queryValue + [UnitChar(us[0])] + UnitsValue(us[1..]) == p.queryValue + UnitsValue(us);
    }
  }

  /** The text is one way to write the value. */
  ghost predicate Writes(text: string, value: string) {
    exists us :: LegalUnits(us) && UnitsText(us) == text && UnitsValue(us) == value
  }

  lemma WrittenRecovered(p: Parser, m: Message, text: string, value: string)
    requires InValue(p) && Writes(text, value)
    ensures var r := Scan(p, m, text); r.Ran? && r.m == m && Grown(p, r.p, value)
  {
    hide Scan;
    var us :| LegalUnits(us) && UnitsText(us) == text && UnitsValue(us) == value;
    UnitsRecovered(p, m, us);
  }

  /** As forms are sent by browsers: a blank as a plus sign, other characters as the encoder writes them. */
  function FormEncoded(s: string): (r: string) {
    if s == "" then "" else (if s[0] == ' ' then "+" else EncodeChar(s[0])) + FormEncoded(s[1..])
  }

  function UnitOf(c: char, plus: bool): (u: Unit) {
    if plus && c == ' ' then Plus
    else if c in SPECIAL && c as int < 256 then Escape(UpperHex(c as int / 16), UpperHex(c as int % 16))
    else Plain(c)
  }

  lemma UnitOfIs(c: char, plus: bool)
    requires Sendable(c)
    ensures var u := UnitOf(c, plus);
      LegalUnit(u) && UnitChar(u) == c && UnitText(u) == if plus && c == ' ' then "+" else EncodeChar(c)
  {
    if c in SPECIAL {
      SpecialIsAscii(c);
      EscapeOf(c);
    } else {
      NotSpecial(c);
    }
  }

  lemma SpecialIsAscii(c: char)
    requires c in SPECIAL
    ensures c as int < 128
  {
  }

  lemma NotSpecial(c: char)
    requires c !in SPECIAL
    ensures c !in "%&#+? "
  {
    assert forall d :: d in "%&#+? " ==> d in SPECIAL;
  }

  lemma {:induction false} UnitsOf(v: string, plus: bool) returns (us: seq<Unit>)
    requires AllSendable(v)
    ensures LegalUnits(us) && UnitsText(us) == (if plus then FormEncoded(v) else Encoded(v)) && UnitsValue(us) == v
    decreases |v|
  {
    hide LegalUnit, UnitText, UnitChar, UnitOf, EncodeChar, Sendable;
    us := [];
    if v != "" {
      var more := UnitsOf(v[1..], plus);
      UnitOfIs(v[0], plus);
      us := [UnitOf(v[0], plus)] + more;
      assert us[1..] == more;
      assert v == [v[0]] + v[1..];
    }
  }

  /** The encoder's text, and that of a form, are two such ways. */
  lemma EncodedWrites(v: string)
    requires AllSendable(v)
    ensures Writes(Encoded(v), v) && Writes(FormEncoded(v), v)
  {
    hide Encoded, FormEncoded, UnitsText, UnitsValue;
    var us := UnitsOf(v, false);
    var vs := UnitsOf(v, true);
  }

  // ------------------------------------------------------------------ whole queries

  /** A parameter, and how its value is written. */
  datatype Pair = Pair(key: string, value: string, text: string)

  /** Names are sent as they are: url characters, other than the question mark and what ends a name. */
  predicate NameChar(c: char) {
    IsUrlChar(c) && c != '?' && c != '='
  }

  ghost predicate LegalPair(q: Pair) {
    (forall i :: 0 <= i < |q.key| ==> NameChar(q.key[i])) && Writes(q.text, q.value)
  }

  ghost predicate LegalPairs(pairs: seq<Pair>) {
    forall i :: 0 <= i < |pairs| ==> LegalPair(pairs[i])
  }

  function PairText(q: Pair): (s: string) {
    q.key + "=" + q.text
  }

  /** The parameters, joined by an ampersand. */
  function QueryText(pairs: seq<Pair>): (s: string) {
    if pairs == [] then ""
    else if |pairs| == 1 then PairText(pairs[0])
    else PairText(pairs[0]) + ("&" + QueryText(pairs[1..]))
  }

  function InsertPairs(params: Params, pairs: seq<Pair>): (r: Params)
    decreases |pairs|
  {
    if pairs == [] then params else InsertPairs(Insert(params, pairs[0].key, pairs[0].value), pairs[1..])
  }

  /** A parser that is about to read the name of a parameter. */
  predicate AtField(p: Parser) {
    p.state == URL_QUERY_FIELD && p.hex == HEX_FINISHED && p.kind == Request && p.field == ""
  }

  /** A value that is still in the parser gets in front of the first one that is read. */
  function Behind(left: string, pairs: seq<Pair>): (r: seq<Pair>)
    ensures |r| == |pairs|
    ensures forall i :: 0 < i < |pairs| ==> r[i] == pairs[i]
  {
    if pairs == [] then [] else pairs[0 := Joined(left, pairs[0])]
  }

  function Joined(left: string, q: Pair): (r: Pair) {
    q.(value := left + q.value)
  }

  lemma NothingLeft(pairs: seq<Pair>)
    ensures Behind("", pairs) == pairs
  {
    assert pairs != [] ==> "" + pairs[0].value == pairs[0].value;
  }

  lemma FieldChar(p: Parser, m: Message, c: char)
    requires p.state == URL_QUERY_FIELD && NameChar(c)
    ensures Step(p, m, c) == Next(p.(field := p.field + [c]), m) && c != '\0'
  {
  }

  lemma {:induction false} ScanField(p: Parser, m: Message, s: string)
    requires p.state == URL_QUERY_FIELD && forall i :: 0 <= i < |s| ==> NameChar(s[i])
    ensures Scan(p, m, s) == Ran(p.(field := p.field + s), m)
    decreases |s|
  {
    hide Scan, Step, NameChar;
    if s == "" {
      ScanNothing(p, m);
      assert p.field + s == p.field;
    } else {
      var q := p.(field := p.field + [s[0]]);
      FieldChar(p, m, s[0]);
      assert s == [s[0]] + s[1..];
      ScanChar(p, m, s[0], s[1..]);
      ScanField(q, m, s[1..]);
      assert p.field + [s[0]] + s[1..] == p.field + s;
    }
  }

  /** The parser behind a parameter that is not yet inserted. */
  predicate BehindPair(p: Parser, r: Parser, q: Pair) {
    r == p.(state := URL_QUERY_VALUE, field := q.key, queryValue := q.value, hexText := r.hexText)
  }

  lemma ScanPair(p: Parser, m: Message, q: Pair)
    requires AtField(p) && LegalPair(q)
    ensures var r := Scan(p, m, PairText(q)); r.Ran? && r.m == m && BehindPair(p, r.p, Joined(p.queryValue, q))
  {
    hide Scan, Writes, NameChar;
    var p1 := p.(field := q.key);
    ScanField(p, m, q.key);
    assert "" + q.key == q.key;
    var p2 := p1.(state := URL_QUERY_VALUE);
    assert PairText(q) == q.key + ("=" + q.text);
    ScanThen(p, m, q.key, p1, m, "=" + q.text);
    ScanChar(p1, m, '=', q.text);
    WrittenRecovered(p2, m, q.text, q.value);
  }

  /** All parameters but the last are in the map, and the last is read. */
  lemma {:induction false} QueryRead(p: Parser, m: Message, pairs: seq<Pair>)
    requires AtField(p) && pairs != [] && LegalPairs(pairs)
    ensures var r := Scan(p, m, QueryText(pairs));
      var read, n := Behind(p.queryValue, pairs), |pairs| - 1;
      r.Ran? && r.m == m.(query := InsertPairs(m.query, read[..n])) && BehindPair(p, r.p, read[n])
    decreases |pairs|
  {
    hide Scan, Step, LegalPair, PairText, QueryText, Insert, InsertPairs, Joined, Behind, LegalPairs, BehindPair;
    var q, rest := pairs[0], pairs[1..];
    LegalFirst(pairs);
    FirstWritten(pairs);
    ScanPair(p, m, q);
    ReadFront(p.queryValue, pairs);
    if |pairs| == 1 {
      NoPairs(m.query);
    } else {
      var first := Joined(p.queryValue, q);
      var r := NextPair(p, m, q, QueryText(rest));
      var m' := m.(query := Insert(m.query, first.key, first.value));
      assert Scan(p, m, QueryText(pairs)) == Scan(r, m', QueryText(rest));
      QueryRead(r, m', rest);
      NothingLeft(rest);
      assert Behind(r.queryValue, rest) == rest;
      InsertFirst(m.query, first, rest[..|rest| - 1]);
      LastPair(p, r, Scan(p, m, QueryText(pairs)).p, rest[|rest| - 1]);
    }
  }

  lemma LegalFirst(pairs: seq<Pair>)
    requires pairs != [] && LegalPairs(pairs)
    ensures LegalPair(pairs[0]) && LegalPairs(pairs[1..])
  {
    hide LegalPair;
  }

  /** What is in the map before the last parameter ends, and the last parameter. */
  lemma ReadFront(left: string, pairs: seq<Pair>)
    requires pairs != []
    ensures var read, n, first := Behind(left, pairs), |pairs| - 1, Joined(left, pairs[0]);
      if n == 0 then read[..n] == [] && read[n] == first
      else read[..n] == [first] + pairs[1..][..n - 1] && read[n] == pairs[1..][n - 1]
  {
    hide Joined, Behind;
    FirstRead(left, pairs);
  }

  lemma LastPair(p: Parser, r: Parser, q: Parser, pair: Pair)
    requires r == p.(queryValue := "", hexText := r.hexText) && BehindPair(r, q, pair)
    ensures BehindPair(p, q, pair)
  {
  }

  /** What is read first, and what is behind it. */
  lemma FirstRead(left: string, pairs: seq<Pair>)
    requires pairs != []
    ensures Behind(left, pairs) == [Joined(left, pairs[0])] + pairs[1..]
  {
    hide Joined;
    var first := Joined(left, pairs[0]);
    assert pairs[0 := first][1..] == pairs[1..];
  }

  lemma FirstWritten(pairs: seq<Pair>)
    requires pairs != []
    ensures QueryText(pairs) == if |pairs| == 1 then PairText(pairs[0]) else PairText(pairs[0]) + ("&" + QueryText(pairs[1..]))
  {
    hide PairText;
  }

  lemma NoPairs(params: Params)
    ensures InsertPairs(params, []) == params
  {
  }

  lemma InsertFirst(params: Params, q: Pair, pairs: seq<Pair>)
    ensures InsertPairs(params, [q] + pairs) == InsertPairs(Insert(params, q.key, q.value), pairs)
  {
    hide Insert;
    assert ([q] + pairs)[1..] == pairs;
  }

  /** A parameter and the ampersand behind it. */
  lemma NextPair(p: Parser, m: Message, q: Pair, rest: string) returns (r: Parser)
    requires AtField(p) && LegalPair(q)
    ensures AtField(r) && r == p.(queryValue := "", hexText := r.hexText)
    ensures var read := Joined(p.queryValue, q);
      Scan(p, m, PairText(q) + ("&" + rest)) == Scan(r, m.(query := Insert(m.query, read.key, read.value)), rest)
  {
    hide Scan, LegalPair, PairText, Insert, Joined;
    ScanPair(p, m, q);
    var b := Scan(p, m, PairText(q)).p;
    ScanThen(p, m, PairText(q), b, m, "&" + rest);
    EndOfValue(b, m.query);
    ScanChar(b, m, '&', rest);
    r := Step(b, m, '&').p;
  }

  lemma {:induction false} InsertLast(params: Params, pairs: seq<Pair>)
    requires pairs != []
    ensures var n := |pairs| - 1;
      InsertPairs(params, pairs) == Insert(InsertPairs(params, pairs[..n]), pairs[n].key, pairs[n].value)
    decreases |pairs|
  {
    var n := |pairs| - 1;
    var params' := Insert(params, pairs[0].key, pairs[0].value);
    if n > 0 {
      InsertLast(params', pairs[1..]);
      assert pairs[..n][1..] == pairs[1..][..n - 1];
    } else {
      assert InsertPairs(params, pairs) == InsertPairs(params', []);
    }
  }

  /** Behind the question mark a query is read into the map, up to the blank that ends it, with what was left in the parser. */
  lemma QueryRecovered(p: Parser, m: Message, pairs: seq<Pair>)
    requires AtField(p) && pairs != [] && LegalPairs(pairs)
    ensures var r := Scan(p, m, QueryText(pairs) + " ");
      r.Ran? && r.m == m.(query := InsertPairs(m.query, Behind(p.queryValue, pairs))) &&
      r.p == p.(state := VERSION, prefix := 0, queryValue := "", hexText := r.p.hexText)
  {
    hide Scan, Step, LegalPair, QueryText, InsertPairs, Insert, Behind;
    QueryRead(p, m, pairs);
    InsertLast(m.query, Behind(p.queryValue, pairs));
    var r := Scan(p, m, QueryText(pairs));
    ScanThen(p, m, QueryText(pairs), r.p, r.m, " ");
    BlankEnds(r.p, r.m);
  }

  /** A blank ends the last value and the query. */
  lemma BlankEnds(p: Parser, m: Message)
    requires p.state == URL_QUERY_VALUE && p.hex == HEX_FINISHED
    ensures Scan(p, m, " ") ==
      Ran(p.(field := "", queryValue := "", prefix := 0, state := VERSION), m.(query := Insert(m.query, p.field, p.queryValue)))
  {
    hide Scan, Insert, StepQueryValue;
    EndOfValue(p, m.query);
    var q, m' := p.(field := "", queryValue := "", prefix := 0, state := VERSION), m.(query := Insert(m.query, p.field, p.queryValue));
    assert Step(p, m, ' ') == Next(q, m');
    ScanChar(p, m, ' ', "");
    assert [' '] + "" == " ";
    ScanNothing(q, m');
  }

  predicate LegalFragment(s: string) {
    forall i :: 0 <= i < |s| ==> IsUrlChar(s[i])
  }

  lemma FragmentChar(p: Parser, m: Message, c: char)
    requires p.state == URL_FRAGMENT && IsUrlChar(c)
    ensures Step(p, m, c) == Next(p, m.(fragment := m.fragment + [c])) && c != '\0'
  {
  }

  lemma {:induction false} ScanFragment(p: Parser, m: Message, s: string)
    requires p.state == URL_FRAGMENT && LegalFragment(s)
    ensures Scan(p, m, s) == Ran(p, m.(fragment := m.fragment + s))
    decreases |s|
  {
    hide Scan, Step, IsUrlChar;
    if s == "" {
      ScanNothing(p, m);
      assert m.fragment + s == m.fragment;
    } else {
      FragmentChar(p, m, s[0]);
      assert s == [s[0]] + s[1..];
      ScanChar(p, m, s[0], s[1..]);
      ScanFragment(p, m.(fragment := m.fragment + [s[0]]), s[1..]);
      assert m.fragment + [s[0]] + s[1..] == m.fragment + s;
    }
  }

  /** With a fragment the query is read into the same map, and the fragment is recovered. */
  lemma FragmentRecovered(p: Parser, m: Message, pairs: seq<Pair>, fragment: string)
    requires AtField(p) && pairs != [] && LegalPairs(pairs) && LegalFragment(fragment) && m.fragment == ""
    ensures var r := Scan(p, m, QueryText(pairs) + ("#" + (fragment + " ")));
      r.Ran? && r.m == m.(query := InsertPairs(m.query, Behind(p.queryValue, pairs)), fragment := fragment) &&
      r.p == p.(state := VERSION, prefix := 0, queryValue := "", hexText := r.p.hexText)
  {
    hide Scan, Step, LegalPair, QueryText, InsertPairs, Insert, Behind, LegalFragment;
    QueryRead(p, m, pairs);
    InsertLast(m.query, Behind(p.queryValue, pairs));
    var r := Scan(p, m, QueryText(pairs));
    ScanThen(p, m, QueryText(pairs), r.p, r.m, "#" + (fragment + " "));
    FragmentEnds(r.p, r.m, fragment);
  }

  lemma FragmentEnds(p: Parser, m: Message, fragment: string)
    requires p.state == URL_QUERY_VALUE && p.hex == HEX_FINISHED && LegalFragment(fragment) && m.fragment == ""
    ensures Scan(p, m, "#" + (fragment + " ")) ==
      Ran(p.(field := "", queryValue := "", prefix := 0, state := VERSION),
          m.(query := Insert(m.query, p.field, p.queryValue), fragment := fragment))
  {
    hide Scan, Insert, StepQueryValue, LegalFragment, IsUrlChar;
    EndOfValue(p, m.query);
    var q, m' := p.(field := "", queryValue := "", state := URL_FRAGMENT), m.(query := Insert(m.query, p.field, p.queryValue));
    assert Step(p, m, '#') == Next(q, m');
    ScanChar(p, m, '#', fragment + " ");
    ScanFragment(q, m', fragment);
    assert "" + fragment == fragment;
    var m'' := m'.(fragment := fragment);
    ScanThen(q, m', fragment, q, m'', " ");
    BlankAfterFragment(q, m'');
    ScanOne(q, m'', ' ');
  }

  lemma BlankAfterFragment(p: Parser, m: Message)
    requires p.state == URL_FRAGMENT
    ensures Step(p, m, ' ') == Next(p.(prefix := 0, state := VERSION), m)
  {
  }

  /** A question mark ends the path. */
  lemma QuestionMark(p: Parser, m: Message)
    requires p.state == URL_PATH
    ensures Step(p, m, '?') == Next(p.(field := "", state := URL_QUERY_FIELD), m)
  {
  }

  /** The target of a request with a query, with or without a fragment. */
  function TargetText(url: string, pairs: seq<Pair>, fragment: string): (s: string) {
    url + ("?" + (QueryText(pairs) + ((if fragment == "" then "" else "#" + fragment) + " ")))
  }

  /** Path, query and fragment of the target of a request are recovered. */
  lemma TargetRecovered(p: Parser, m: Message, url: string, pairs: seq<Pair>, fragment: string)
    requires p.state == URL_PATH && p.kind == Request && p.hex == HEX_FINISHED && p.queryValue == ""
    requires m.url == "" && m.fragment == "" && m.query == map[]
    requires LegalUrl(url) && pairs != [] && LegalPairs(pairs) && LegalFragment(fragment)
    ensures var r := Scan(p, m, TargetText(url, pairs, fragment));
      r.Ran? && r.m == m.(url := url, query := InsertPairs(map[], pairs), fragment := fragment) &&
      r.p == p.(state := VERSION, prefix := 0, field := "", hexText := r.p.hexText)
  {
    hide Scan, Step, LegalPair, LegalPairs, QueryText, InsertPairs, Behind, LegalFragment, LegalUrl;
    var tail := QueryText(pairs) + ((if fragment == "" then "" else "#" + fragment) + " ");
    ScanUrl(p, m, url);
    assert "" + url == url;
    var m' := m.(url := url);
    ScanThen(p, m, url, p, m', "?" + tail);
    QuestionMark(p, m');
    ScanChar(p, m', '?', tail);
    var q := p.(field := "", state := URL_QUERY_FIELD);
    NothingLeft(pairs);
    if fragment == "" {
      assert tail == QueryText(pairs) + " ";
      QueryRecovered(q, m', pairs);
    } else {
      assert tail == QueryText(pairs) + ("#" + (fragment + " "));
      FragmentRecovered(q, m', pairs, fragment);
    }
  }

  /** The first value of a name stays. */
  lemma {:induction false} FirstStays(params: Params, pairs: seq<Pair>, key: string)
    requires key in params
    ensures key in InsertPairs(params, pairs) && InsertPairs(params, pairs)[key] == params[key]
    decreases |pairs|
  {
    if pairs != [] {
      FirstStays(Insert(params, pairs[0].key, pairs[0].value), pairs[1..], key);
    }
  }

  /** A query is read as it was sent if and only if no value was left in the parser. */
  lemma QueryExact(p: Parser, m: Message, pairs: seq<Pair>)
    requires AtField(p) && pairs != [] && LegalPairs(pairs) && m.query == map[]
    ensures var r := Scan(p, m, QueryText(pairs) + " ");
      r.Ran? && (r.m == m.(query := InsertPairs(map[], pairs)) <==> p.queryValue == "")
  {
    hide Scan, LegalPair, QueryText;
    QueryRecovered(p, m, pairs);
    NothingLeft(pairs);
    var q, left := pairs[0], p.queryValue;
    var read := Behind(left, pairs);
    FirstStays(Insert(map[], q.key, q.value), pairs[1..], q.key);
    FirstStays(Insert(map[], q.key, left + q.value), read[1..], q.key);
    assert |left + q.value| == |left| + |q.value|;
  }

  lemma EndOfValue(p: Parser, params: Params)
    requires p.hex == HEX_FINISHED
    ensures StepQueryValue(p, params, '&')
            == Some((p.(field := "", queryValue := "", state := URL_QUERY_FIELD), Insert(params, p.field, p.queryValue)))
    ensures StepQueryValue(p, params, ' ')
            == Some((p.(field := "", queryValue := "", prefix := 0, state := VERSION), Insert(params, p.field, p.queryValue)))
    ensures StepQueryValue(p, params, '#')
            == Some((p.(field := "", queryValue := "", state := URL_FRAGMENT), Insert(params, p.field, p.queryValue)))
  {
    assert !IsUrlChar(' ');
  }

  // ------------------------------------------------------------------ forms

  predicate InQuery(p: Parser) {
    p.state == URL_QUERY_FIELD || p.state == URL_QUERY_VALUE
  }

  predicate BeforeQuery(p: Parser) {
    p.state == METHOD || p.state == URL_PATH
  }

  lemma QueryLeft(p: Parser, m: Message, c: char)
    requires !InQuery(p) && !BeforeQuery(p) && Step(p, m, c).Next?
    ensures !InQuery(Step(p, m, c).p) && !BeforeQuery(Step(p, m, c).p)
  {
  }

  lemma {:induction false} NeverBack(p: Parser, m: Message, s: string)
    requires !InQuery(p) && !BeforeQuery(p) && Scan(p, m, s).Ran?
    ensures !InQuery(Scan(p, m, s).p)
    decreases |s|
  {
    hide Step;
    if s != "" {
      QueryLeft(p, m, s[0]);
      var r := Step(p, m, s[0]);
      NeverBack(r.p, r.m, s[1..]);
    }
  }

  /** On a text that stays in the query the form is read as a query is. */
  lemma {:induction false} FormLikeQuery(p: Parser, m: Message, s: string, ok: bool)
    requires p.kind == Request && InQuery(p) && Scan(p, m, s).Ran? && InQuery(Scan(p, m, s).p)
    ensures var r := Scan(p, m, s); ScanForm(p, m.query, s, ok) == Form(r.p, r.m.query, s != "" || ok)
    decreases |s|
  {
    hide StepQueryField, StepQueryValue;
    if s != "" {
      var r := Step(p, m, s[0]);
      StepInQuery(p, m, s[0]);
      if InQuery(r.p) {
        FormLikeQuery(r.p, r.m, s[1..], true);
      } else {
        NeverBack(r.p, r.m, s[1..]);
      }
    }
  }

  /** What follows such a text is read from where it ends. */
  lemma {:induction false} FormThen(p: Parser, m: Message, s: string, rest: string, ok: bool)
    requires p.kind == Request && InQuery(p) && Scan(p, m, s).Ran? && InQuery(Scan(p, m, s).p)
    ensures var r := Scan(p, m, s); ScanForm(p, m.query, s + rest, ok) == ScanForm(r.p, r.m.query, rest, s != "" || ok)
    decreases |s|
  {
    hide StepQueryField, StepQueryValue;
    if s == "" {
      assert s + rest == rest;
    } else {
      var r := Step(p, m, s[0]);
      assert (s + rest)[1..] == s[1..] + rest;
      StepInQuery(p, m, s[0]);
      if InQuery(r.p) {
        FormThen(r.p, r.m, s[1..], rest, true);
      } else {
        NeverBack(r.p, r.m, s[1..]);
      }
    }
  }

  /** A form is read up to a zero, or up to a character that does not fit; then the parameter it stands in is dropped. */
  lemma FormStops(p: Parser, m: Message, s: string, c: char, rest: string)
    requires p.kind == Request && p.state == URL_QUERY_FIELD && Scan(p, m, s).Ran? && InQuery(Scan(p, m, s).p) && s != ""
    requires c == '\0' || Step(Scan(p, m, s).p, Scan(p, m, s).m, c).Refused?
    ensures var q := Scan(p, m, s);
      var r := ParseFormData(p, m.(form := m.query, body := s + ([c] + rest)));
      r.1.form == (if c == '\0' && q.p.field != "" then Insert(q.m.query, q.p.field, q.p.queryValue) else q.m.query) &&
      r.0 == q.p.(field := "")
  {
    hide Scan, StepQueryField, StepQueryValue, Insert;
    FormThen(p, m, s, [c] + rest, false);
    assert p.(state := URL_QUERY_FIELD) == p;
  }

  lemma StepInQuery(p: Parser, m: Message, c: char)
    requires InQuery(p) && Step(p, m, c).Next?
    ensures !BeforeQuery(Step(p, m, c).p)
  {
  }

  /**
    A form is read into the same map as a query of the same text, but without a last
    parameter that has no name; the value read last stays in the parser.
  */
  lemma FormRecovered(p: Parser, m: Message, pairs: seq<Pair>)
    requires AtField(p.(state := URL_QUERY_FIELD)) && pairs != [] && LegalPairs(pairs) && m.body == QueryText(pairs)
    ensures var r := ParseFormData(p, m);
      var read, n := Behind(p.queryValue, pairs), |pairs| - 1;
      r.1 == m.(form := InsertPairs(m.form, if read[n].key == "" then read[..n] else read)) &&
      r.0.queryValue == read[n].value && r.0.field == ""
  {
    hide Scan, ScanForm, LegalPair, QueryText, InsertPairs, Behind;
    var q, m' := p.(state := URL_QUERY_FIELD), m.(query := m.form);
    QueryRead(q, m', pairs);
    FormLikeQuery(q, m', m.body, false);
    InsertLast(m.form, Behind(p.queryValue, pairs));
    QueryNotEmpty(pairs);
  }

  lemma QueryNotEmpty(pairs: seq<Pair>)
    requires pairs != []
    ensures QueryText(pairs) != ""
  {
  }
}
