/** Requests and responses, and the tables and character classes both directions use. */
module HttpMessage {
  import opened Numerals

  datatype Option<+T> = None | Some(value: T)

  datatype Method = GET | POST | PUT | DELETE | OPTIONS | HEAD | UNKNOWN

  type Params = map<string, string>

  /** The record a parser fills.  A request leaves the status alone, a response the parts of a request line. */
  datatype Message = Message(
    verb: Method,
    url: string,
    fragment: string,
    status: nat,
    major: int,
    minor: int,
    headers: Params,
    length: string,
    contentType: string,
    md5: string,
    host: string,
    query: Params,
    form: Params,
    body: string)

  /** The record before anything was read. */
  const EMPTY := Message(UNKNOWN, "", "", 200, 0, 0, map[], "0", "", "", "", map[], map[], "")

  // ------------------------------------------------------------------ characters

  predicate IsUpper(c: char) {
    'A' <= c <= 'Z'
  }

  predicate IsAlnum(c: char) {
    IsUpper(c) || 'a' <= c <= 'z' || IsDigit(c)
  }

  predicate IsPunct(c: char) {
    '!' <= c <= '~' && !IsAlnum(c)
  }

  predicate IsBlank(c: char) {
    c == ' ' || c == '\t'
  }

  /** The high bit of a byte is set. */
  predicate IsUtf8(c: char) {
    128 <= c as int < 256
  }

  const URL_SPECIAL_CHAR: string := "-._~:/?#[]@!$&'()*+,;="

  predicate IsUrlChar(c: char) {
    IsAlnum(c) || c in URL_SPECIAL_CHAR
  }

  function LowerChar(c: char): (r: char) {
    if IsUpper(c) then (c as int + 32) as char else c
  }

  /** Equal but for the case of letters. */
  predicate SameName(a: string, b: string) {
    |a| == |b| && forall i :: 0 <= i < |a| ==> LowerChar(a[i]) == LowerChar(b[i])
  }

  // ------------------------------------------------------------------ tables

  const CONTENT_TYPE: string := "Content-Type"
  const CONTENT_LENGTH: string := "Content-Length"
  const CONTENT_MD5: string := "Content-MD5"
  const HOST: string := "Host"
  const FORM_URLENCODED: string := "application/x-www-form-urlencoded"

  function MethodText(m: Method): (s: string) {
    match m
    case GET => "GET"
    case POST => "POST"
    case PUT => "PUT"
    case DELETE => "DELETE"
    case OPTIONS => "OPTIONS"
    case HEAD => "HEAD"
    case UNKNOWN => "UNKNOWN"
  }

  function ToMethod(s: string): (m: Method) {
    match s
    case "GET" => GET
    case "POST" => POST
    case "PUT" => PUT
    case "DELETE" => DELETE
    case "OPTIONS" => OPTIONS
    case "HEAD" => HEAD
    case _ => UNKNOWN
  }

  const STATUS_TEXT: map<nat, string> := map[
    200 := "OK", 201 := "Created", 202 := "Accepted", 204 := "No Content",
    300 := "Multiple Choices", 301 := "Moved Permanently", 302 := "Moved Temporarily", 304 := "Not Modified",
    400 := "Bad Request", 401 := "Unauthorized", 403 := "Forbidden", 404 := "Not Found",
    500 := "Internal Server error", 501 := "Not Implemented", 502 := "Bad Gateway", 503 := "Service unavailable"]

  /** The code of a status that is in the table; the lookup throws for any other text. */
  function ToStatus(s: string): (r: Option<nat>) {
    if |s| == 3 && DigitRun(s) == 3 && NumberOf(s) in STATUS_TEXT then Some(NumberOf(s)) else None
  }

  /** An entry that is there stays. */
  function Insert(params: Params, key: string, value: string): (r: Params) {
    if key in params then params else params[key := value]
  }

  const SIZE: nat := 0x1_0000_0000_0000_0000

  /** `stoul`: a sign is taken, what follows the digits is not; it throws without digits and beyond 64 bits. */
  function Stoul(s: string): (r: Option<nat>)
    ensures r.Some? ==> r.value < SIZE
  {
    var negative := s != "" && s[0] == '-';
    var u := if negative || (s != "" && s[0] == '+') then s[1..] else s;
    var n := DigitRun(u);
    if n == 0 || NumberOf(u[..n]) >= SIZE then None
    else Some(if negative then (SIZE - NumberOf(u[..n])) % SIZE else NumberOf(u[..n]))
  }
}
