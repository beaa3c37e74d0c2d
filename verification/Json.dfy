/** JSON values, their printed text, and the events a parser reports for them. */
module Json {
  import opened Doubles
  import opened Numerals

  /** A value; the members of an object are kept in the order of their keys. */
  datatype Value =
    | Null
    | Integer(n: int)
    | Real(d: Double)
    | Boolean(b: bool)
    | String(s: string)
    | Array(items: seq<Value>)
    | Object(members: seq<Member>)

  datatype Member = Member(key: string, value: Value)

  const INT64_MAX: int := 0x7FFF_FFFF_FFFF_FFFF

  // ------------------------------------------------------------------ well-formed values

  /** The order of `std::string`. */
  predicate Less(a: string, b: string) {
    b != "" && (a == "" || a[0] < b[0] || (a[0] == b[0] && Less(a[1..], b[1..])))
  }

  lemma {:induction false} TextAsymmetric(a: string, b: string)
    ensures !(Less(a, b) && Less(b, a))
  {
    if a != "" && b != "" { TextAsymmetric(a[1..], b[1..]); }
  }

  lemma {:induction false} TextBetween(a: string, b: string, c: string)
    ensures Less(a, c) ==> Less(a, b) || Less(b, c)
  {
    if a != "" && b != "" && c != "" { TextBetween(a[1..], b[1..], c[1..]); }
  }

  lemma {:induction false} TextTotal(a: string, b: string)
    ensures !Less(a, b) && !Less(b, a) ==> a == b
    ensures !Less(a, a)
    decreases |a|
  {
    if a != "" && b != "" {
      TextTotal(a[1..], b[1..]);
      assert a == [a[0]] + a[1..] && b == [b[0]] + b[1..];
    } else if a != "" {
      TextTotal(a[1..], a[1..]);
    }
  }

  predicate IsHex(c: char) {
    '0' <= c <= '9' || 'a' <= c <= 'f' || 'A' <= c <= 'F'
  }

  /** A backslash, the letter u and four hexadecimal digits stand at the front. */
  predicate UnicodeFirst(s: string) {
    |s| >= 6 && s[0] == '\\' && s[1] == 'u' && IsHex(s[2]) && IsHex(s[3]) && IsHex(s[4]) && IsHex(s[5])
  }

  /** No quote, no zero, and backslashes only in unicode escapes, which the parser leaves as they are. */
  predicate Clean(s: string) {
    s == "" ||
    (if s[0] == '\\' then UnicodeFirst(s) && Clean(s[6..]) else s[0] != '"' && s[0] != '\0' && Clean(s[1..]))
  }

  predicate Sorted(members: seq<Member>) {
    forall i, j :: 0 <= i < j < |members| ==> Less(members[i].key, members[j].key)
  }

  /** A value the program can hold: integers of 64 bits, the members of objects in order and each key once. */
  predicate Representable(v: Value) {
    match v
    case Null => true
    case Integer(n) => -INT64_MAX - 1 <= n <= INT64_MAX
    case Real(_) => true
    case Boolean(_) => true
    case String(_) => true
    case Array(items) => forall i :: 0 <= i < |items| ==> Representable(items[i])
    case Object(members) => Sorted(members) && forall i :: 0 <= i < |members| ==> Representable(members[i].value)
  }

  predicate AllClean(v: Value) {
    match v
    case Null => true
    case Integer(_) => true
    case Real(_) => true
    case Boolean(_) => true
    case String(s) => Clean(s)
    case Array(items) => forall i :: 0 <= i < |items| ==> AllClean(items[i])
    case Object(members) => forall i :: 0 <= i < |members| ==> Clean(members[i].key) && AllClean(members[i].value)
  }

  // ------------------------------------------------------------------ printing

  function IntText(n: int): (s: string)
    ensures s != ""
  {
    if n < 0 then "-" + Digits(-n) else Digits(n)
  }

  /** A magnitude in millionths, as `std::to_string` rounds it. */
  function Millionths(x: real): (k: nat) {
    NearestInt(Abs(x) * MILLION as real)
  }

  /** Six digits behind the point; the sign stays where all digits are zero. */
  function RealText(d: Double): (s: string)
    ensures s != ""
  {
    match d
    case Finite(x) =>
      (if x < 0.0 then "-" else "") + (Digits(Millionths(x) / MILLION) + ("." + Padded(Millionths(x) % MILLION, 6)))
    case PlusInfinity => "inf"
    case MinusInfinity => "-inf"
    case NaN => "nan"
  }

  function Quoted(s: string): (r: string) {
    "\"" + s + "\""
  }

  /** Compact text. */
  function Print(v: Value): (s: string)
    ensures s != ""
    decreases v
  {
    match v
    case Null => "null"
    case Integer(n) => IntText(n)
    case Real(d) => RealText(d)
    case Boolean(b) => if b then "true" else "false"
    case String(s) => Quoted(s)
    case Array(items) => "[" + PrintItems(items) + "]"
    case Object(members) => "{" + PrintMembers(members) + "}"
  }

  /** The elements, joined by a comma and a blank. */
  function PrintItems(items: seq<Value>): (s: string)
    decreases items
  {
    if items == [] then ""
    else if |items| == 1 then Print(items[0])
    else Print(items[0]) + ", " + PrintItems(items[1..])
  }

  function PrintMembers(members: seq<Member>): (s: string)
    decreases members
  {
    if members == [] then ""
    else if |members| == 1 then MemberText(members[0])
    else MemberText(members[0]) + ", " + PrintMembers(members[1..])
  }

  /** The key in quotes, a colon, a blank and the value. */
  function MemberText(m: Member): (s: string)
    ensures s != "" && s[0] == '"'
    decreases m
  {
    Quoted(m.key) + ": " + Print(m.value)
  }

  /** The pretty format differs by a line break after the opening brace of an object. */
  function Text(v: Value, pretty: bool): (s: string) {
    if v.Object? && pretty then "{\n" + PrintMembers(v.members) + "}" else Print(v)
  }

  /** A comma and a blank stand between what is printed. */
  lemma {:induction false} ItemsJoined(a: seq<Value>, b: seq<Value>)
    requires a != [] && b != []
    ensures PrintItems(a + b) == PrintItems(a) + ", " + PrintItems(b)
    decreases |a|
  {
    hide Print;
    assert (a + b)[1..] == a[1..] + b;
    if |a| > 1 { ItemsJoined(a[1..], b); } else { assert a[1..] + b == b; }
  }

  lemma {:induction false} MembersJoined(a: seq<Member>, b: seq<Member>)
    requires a != [] && b != []
    ensures PrintMembers(a + b) == PrintMembers(a) + ", " + PrintMembers(b)
    decreases |a|
  {
    hide MemberText;
    assert (a + b)[1..] == a[1..] + b;
    if |a| > 1 { MembersJoined(a[1..], b); } else { assert a[1..] + b == b; }
  }

  /** The pretty text of an object is the compact one with a line break behind the first brace; other values have one text. */
  lemma PrettyText(v: Value)
    ensures Text(v, true) == if v.Object? then [Print(v)[0], '\n'] + Print(v)[1..] else Text(v, false)
  {
    hide PrintMembers, PrintItems, RealText, IntText;
  }

  // ------------------------------------------------------------------ reals

  /** The whole part of the text fits 64 bits, where the parser reads it first. */
  predicate Readable(d: Double) {
    d.Finite? && Millionths(d.x) / MILLION <= if d.x < 0.0 then INT64_MAX + 1 else INT64_MAX
  }

  /** What the text of a real says. */
  function SixDecimals(x: real): (r: real) {
    var m := Millionths(x) as real / MILLION as real;
    if x < 0.0 then -m else m
  }

  /** The double nearest to the text of a real. */
  function Reread(d: Double): (r: Double) {
    if d.Finite? then Finite(Rounded(SixDecimals(d.x))) else d
  }

  /** The real is the double nearest to its own six decimals. */
  predicate ReadsBack(d: Double) {
    Readable(d) && Reread(d) == d
  }

  predicate AllReadable(v: Value) {
    match v
    case Real(d) => Readable(d)
    case Array(items) => forall i :: 0 <= i < |items| ==> AllReadable(items[i])
    case Object(members) => forall i :: 0 <= i < |members| ==> AllReadable(members[i].value)
    case _ => true
  }

  predicate AllReadBack(v: Value) {
    match v
    case Real(d) => ReadsBack(d)
    case Array(items) => forall i :: 0 <= i < |items| ==> AllReadBack(items[i])
    case Object(members) => forall i :: 0 <= i < |members| ==> AllReadBack(members[i].value)
    case _ => true
  }

  /** A value with every real reread. */
  function RereadAll(v: Value): (r: Value)
    decreases v
  {
    match v
    case Real(d) => Real(Reread(d))
    case Array(items) => Array(RereadItems(items))
    case Object(members) => Object(RereadMembers(members))
    case _ => v
  }

  function RereadItems(items: seq<Value>): (r: seq<Value>)
    ensures |r| == |items| && forall i :: 0 <= i < |items| ==> r[i] == RereadAll(items[i])
    decreases items
  {
    if items == [] then [] else [RereadAll(items[0])] + RereadItems(items[1..])
  }

  function RereadMembers(members: seq<Member>): (r: seq<Member>)
    ensures |r| == |members|
    ensures forall i :: 0 <= i < |members| ==> r[i] == Member(members[i].key, RereadAll(members[i].value))
    decreases members
  {
    if members == [] then [] else [Member(members[0].key, RereadAll(members[0].value))] + RereadMembers(members[1..])
  }

  // ------------------------------------------------------------------ events

  datatype Event =
    | BeginObject | Key(key: string) | EndObject
    | BeginArray | EndArray
    | OnValue(value: Value)

  function Events(v: Value): (es: seq<Event>)
    decreases v
  {
    match v
    case Array(items) => [BeginArray] + ItemEvents(items) + [EndArray]
    case Object(members) => [BeginObject] + MemberEvents(members) + [EndObject]
    case _ => [OnValue(v)]
  }

  function ItemEvents(items: seq<Value>): (es: seq<Event>)
    decreases items
  {
    if items == [] then [] else Events(items[0]) + ItemEvents(items[1..])
  }

  function MemberEvents(members: seq<Member>): (es: seq<Event>)
    decreases members
  {
    if members == [] then []
    else [Key(members[0].key)] + Events(members[0].value) + MemberEvents(members[1..])
  }
}
