/**
  Reading JSON text, as functions of the text that is left.  Behind its end the
  text reads as zero characters.
*/
module JsonText {
  import opened Doubles
  import opened Json
  import opened Numerals

  /** What was read and what is left to read; `Bad` where the parser throws. */
  datatype Parsed<+T> = Bad | Good(value: T, rest: string)

  // ------------------------------------------------------------------ the cursor

  function Peek(s: string): (c: char) {
    if s == "" then '\0' else s[0]
  }

  function Advance(s: string): (r: string)
    ensures |r| <= |s| && (Peek(s) != '\0' ==> |r| < |s|)
  {
    if Peek(s) == '\0' then s else s[1..]
  }

  predicate IsSpace(c: char) {
    c == ' ' || c == '\t' || c == '\n' || c == '\r' || c == 11 as char || c == 12 as char
  }

  function Skip(s: string): (r: string)
    ensures |r| <= |s|
    ensures !IsSpace(Peek(r))
  {
    if s != "" && IsSpace(s[0]) then Skip(s[1..]) else s
  }

  // ------------------------------------------------------------------ strings

  /** What a backslash and a character stand for; empty where the parser throws. */
  function Unescaped(c: char): (r: string)
    ensures |r| <= 1 && '\0' !in r && (r != "" ==> c != '\0')
    ensures r == "\"" ==> c == '"'
    ensures r == "\\" ==> c == '\\'
  {
    match c
    case '"' => "\""
    case '\\' => "\\"
    case '/' => "/"
    case 'b' => [8 as char]
    case 'f' => [12 as char]
    case 'n' => "\n"
    case 'r' => "\r"
    case 't' => "\t"
    case _ => ""
  }

  /** The characters up to the closing quote, or to the end of the text. */
  function StringBody(s: string): (r: Parsed<string>)
    ensures r.Good? ==> |r.rest| <= |s|
    decreases |s|
  {
    if Peek(s) == '\0' then Good("", s)
    else if s[0] == '"' then Good("", s[1..])
    else if s[0] != '\\' then Cons([s[0]], StringBody(s[1..]))
    else if UnicodeFirst(s) then Cons(s[..6], StringBody(s[6..]))
    else if |s| < 2 || Unescaped(s[1]) == "" then Bad
    else Cons(Unescaped(s[1]), StringBody(s[2..]))
  }

  function Cons(front: string, r: Parsed<string>): (q: Parsed<string>) {
    if r.Bad? then Bad else r.(value := front + r.value)
  }

  function ParseString(s: string): (r: Parsed<string>)
    ensures r.Good? ==> |r.rest| <= |s|
    ensures r.Good? && Peek(Skip(s)) == '"' ==> |r.rest| < |s|
  {
    var s := Skip(s);
    if Peek(s) != '\0' && Peek(s) != '"' then Bad else StringBody(Advance(s))
  }

  // ------------------------------------------------------------------ numbers

  predicate EndsNumber(c: char) {
    c == '\n' || c == '\0' || c == ' ' || c == ',' || c == ']' || c == '}'
  }

  /** A number whose whole part fits 64 bits, followed by a character that may end it; a point makes it a real. */
  function ParseNumber(s: string): (r: Parsed<Value>)
    ensures r.Good? ==> |r.rest| < |s| && (r.value.Integer? || r.value.Real?)
  {
    var t := Skip(s);
    var negative := Peek(t) == '-';
    var u := if negative || Peek(t) == '+' then t[1..] else t;
    var n := DigitRun(u);
    if n == 0 then Bad
    else
      var x := if negative then -NumberOf(u[..n]) else NumberOf(u[..n]);
      if !(-INT64_MAX - 1 <= x <= INT64_MAX) then Bad
      else if Peek(u[n..]) == '.' then ParseReal(negative, u, n)
      else if !EndsNumber(Peek(u[n..])) then Bad
      else Good(Integer(x), u[n..])
  }

  /** The decimals and the exponent; the nearest double, unless it is out of range. */
  function ParseReal(negative: bool, u: string, n: nat): (r: Parsed<Value>)
    requires n == DigitRun(u) && Peek(u[n..]) == '.'
    ensures r.Good? ==> |r.rest| < |u| && r.value.Real?
  {
    var f := DigitRun(u[n + 1..]);
    var v := u[n + 1..][f..];
    var (e, k) := Exponent(v);
    var rest := v[k..];
    var y := Scaled(Decimal(u[..n] + u[n + 1..][..f], f), e);
    var x := if negative then -y else y;
    if Overflows(x) || Underflows(x) || !EndsNumber(Peek(rest)) then Bad else Good(Real(Finite(Rounded(x))), rest)
  }

  /** Digits of which the last ones are decimals. */
  function Decimal(digits: string, decimals: nat): (x: real)
    requires forall i :: 0 <= i < |digits| ==> IsDigit(digits[i])
  {
    NumberOf(digits) as real / Pow10(decimals) as real
  }

  function Scaled(x: real, e: int): (r: real) {
    if e >= 0 then x * Pow10(e) as real else x / Pow10(-e) as real
  }

  /** Where the digits of an exponent start. */
  function ExponentSign(v: string): (n: nat)
    ensures n <= |v|
  {
    if Peek(v) != 'e' && Peek(v) != 'E' then |v|
    else if Peek(v[1..]) == '-' || Peek(v[1..]) == '+' then 2
    else 1
  }

  /** An exponent, if there is one, and its length. */
  function Exponent(v: string): (r: (int, nat))
    ensures r.1 <= |v|
  {
    var i := ExponentSign(v);
    var k := DigitRun(v[i..]);
    if k == 0 then (0, 0)
    else
      var e := NumberOf(v[i..][..k]);
      (if v[1] == '-' then -e else e, i + k)
  }

  /** A fixed word, read as a value. */
  function ParseWord(s: string, word: string, v: Value): (r: Parsed<Value>)
    ensures r.Good? ==> r.value == v && |r.rest| + |word| == |s|
  {
    if |word| <= |s| && s[..|word|] == word then Good(v, s[|word|..]) else Bad
  }

  // ------------------------------------------------------------------ values

  /** The members of an object come in the order of the text, and a key may come more than once. */
  function ParseValue(s: string): (r: Parsed<Value>)
    ensures r.Good? ==> |r.rest| < |s|
    decreases |s|, 2
  {
    var s := Skip(s);
    match Peek(s)
    case '{' =>
      var t := Skip(s[1..]);
      if Peek(t) == '}' then Good(Object([]), t[1..]) else AsObject(ParseMembers(t))
    case '[' =>
      var t := Skip(s[1..]);
      if Peek(t) == ']' then Good(Array([]), t[1..]) else AsArray(ParseItems(t))
    case '"' => AsString(ParseString(s))
    case 't' => ParseWord(s, "true", Boolean(true))
    case 'f' => ParseWord(s, "false", Boolean(false))
    case 'n' => ParseWord(s, "null", Null)
    case c => if IsDigit(c) || c == '-' then ParseNumber(s) else Bad
  }

  function AsObject(r: Parsed<seq<Member>>): (q: Parsed<Value>) {
    if r.Bad? then Bad else Good(Object(r.value), r.rest)
  }

  function AsArray(r: Parsed<seq<Value>>): (q: Parsed<Value>) {
    if r.Bad? then Bad else Good(Array(r.value), r.rest)
  }

  function AsString(r: Parsed<string>): (q: Parsed<Value>) {
    if r.Bad? then Bad else Good(String(r.value), r.rest)
  }

  /** Members up to and with the closing brace. */
  function ParseMembers(s: string): (r: Parsed<seq<Member>>)
    ensures r.Good? ==> |r.rest| <= |s|
    decreases |s|, 1
  {
    match ParseMember(s)
    case Bad => Bad
    case Good(m, rest) =>
      var u := Skip(rest);
      if Peek(u) == ',' then Before(m, ParseMembers(u[1..]))
      else if Peek(u) == '}' then Good([m], u[1..])
      else Bad
  }

  /** A key, a colon and a value. */
  function ParseMember(s: string): (r: Parsed<Member>)
    ensures r.Good? ==> |r.rest| < |s|
    decreases |s|, 0
  {
    match ParseString(s)
    case Bad => Bad
    case Good(key, rest) =>
      var t := Skip(rest);
      if Peek(t) != ':' then Bad
      else
        match ParseValue(t[1..])
        case Bad => Bad
        case Good(v, rest') => Good(Member(key, v), rest')
  }

  /** Items up to and with the closing bracket. */
  function ParseItems(s: string): (r: Parsed<seq<Value>>)
    ensures r.Good? ==> |r.rest| <= |s|
    decreases |s|, 3
  {
    match ParseValue(s)
    case Bad => Bad
    case Good(v, rest) =>
      var u := Skip(rest);
      if Peek(u) == ',' then Before(v, ParseItems(u[1..]))
      else if Peek(u) == ']' then Good([v], u[1..])
      else Bad
  }

  function Before<T>(x: T, r: Parsed<seq<T>>): (q: Parsed<seq<T>>) {
    if r.Bad? then Bad else r.(value := [x] + r.value)
  }

  /** A whole document: one value and white space around it. */
  function ParseDocument(s: string): (r: Parsed<Value>) {
    var r := ParseValue(s);
    if r.Good? && Peek(Skip(r.rest)) == '\0' then r else Bad
  }
}
