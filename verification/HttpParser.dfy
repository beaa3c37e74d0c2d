/**
  The parsers of requests and of responses, one character at a time.  Both read
  header lines and bodies the same way and differ in the first line.
*/
module HttpParser {
  import opened Numerals
  import opened HttpMessage

  datatype Kind = Request | Response

  datatype State =
    | METHOD | URL_PATH | URL_QUERY_FIELD | URL_QUERY_VALUE | URL_FRAGMENT
    | VERSION | MAJOR_VERSION | MINOR_VERSION | STATUS_CODE | STATUS_TEXT
    | HEADER | HEADER_KEY | HEADER_VALUE_BEGIN | HEADER_VALUE | HEADER_NEWLINE | HEADER_FINISH
    | BODY

  datatype Hex = HEX_FIRST | HEX_SECOND | HEX_FINISHED

  /** What a parser remembers between characters and between calls. */
  datatype Parser = Parser(
    kind: Kind,
    state: State,
    prefix: nat,
    verb: string,
    status: string,
    key: string,
    value: string,
    field: string,
    queryValue: string,
    blanks: string,
    skipBlanks: bool,
    hex: Hex,
    hexText: string)

  datatype Result = INVALID | PARTIAL | FINISH | THROWN

  datatype Stepped = Refused | Raised | Next(p: Parser, m: Message)

  const HTTP: string := "HTTP"

  function Start(kind: Kind): (s: State) {
    if kind.Request? then METHOD else VERSION
  }

  function Fresh(kind: Kind): (p: Parser) {
    Parser(kind, Start(kind), 0, "", "", "", "", "", "", "", false, HEX_FINISHED, "")
  }

  // ------------------------------------------------------------------ the request line

  function StepMethod(p: Parser, m: Message, c: char): (r: Stepped) {
    if IsUpper(c) then Next(p.(verb := p.verb + [c]), m)
    else if c == ' ' then Next(p.(verb := "", state := URL_PATH), m.(verb := ToMethod(p.verb)))
    else Refused
  }

  function StepUrlPath(p: Parser, m: Message, c: char): (r: Stepped) {
    if c == '?' then Next(p.(field := "", state := URL_QUERY_FIELD), m)
    else if IsUrlChar(c) then Next(p, m.(url := m.url + [c]))
    else if c == ' ' then Next(p.(prefix := 0, state := VERSION), m)
    else Refused
  }

  /** The name of a parameter, up to the equals sign. */
  function StepQueryField(p: Parser, c: char): (r: Option<Parser>) {
    if c == '=' then Some(p.(state := URL_QUERY_VALUE))
    else if IsUrlChar(c) && c != '?' then Some(p.(field := p.field + [c]))
    else None
  }

  /** `strtol` on two letters or digits: reading stops where no hexadecimal digit stands. */
  function HexChar(a: char, b: char): (r: char) {
    if HexDigit(a) < 0 then 0 as char
    else if HexDigit(b) < 0 then HexDigit(a) as char
    else (16 * HexDigit(a) + HexDigit(b)) as char
  }

  /** The value of a parameter; a finished one goes into the map. */
  function StepQueryValue(p: Parser, params: Params, c: char): (r: Option<(Parser, Params)>) {
    var q := p.(field := "", queryValue := "");
    if p.hex.HEX_FIRST? then
      if IsAlnum(c) then Some((p.(hexText := p.hexText + [c], hex := HEX_SECOND), params)) else None
    else if p.hex.HEX_SECOND? then
      if IsAlnum(c) then
        var text := p.hexText + [c];
        var x := if |text| == 2 then HexChar(text[0], text[1]) else 0 as char;
        Some((p.(hexText := text, queryValue := p.queryValue + [x], hex := HEX_FINISHED), params))
      else None
    else if c == '%' then Some((p.(hexText := "", hex := HEX_FIRST), params))
    else if c == '&' then Some((q.(state := URL_QUERY_FIELD), Insert(params, p.field, p.queryValue)))
    else if c == '#' then Some((q.(state := URL_FRAGMENT), Insert(params, p.field, p.queryValue)))
    else if c == '+' then Some((p.(queryValue := p.queryValue + " "), params))
    else if IsUrlChar(c) && c != '?' then Some((p.(queryValue := p.queryValue + [c]), params))
    else if c == ' ' then Some((q.(prefix := 0, state := VERSION), Insert(params, p.field, p.queryValue)))
    else None
  }

  function StepFragment(p: Parser, m: Message, c: char): (r: Stepped) {
    if IsUrlChar(c) then Next(p, m.(fragment := m.fragment + [c]))
    else if c == ' ' then Next(p.(prefix := 0, state := VERSION), m)
    else Refused
  }

  // ------------------------------------------------------------------ version and status

  function StepVersion(p: Parser, m: Message, c: char): (r: Stepped) {
    if p.prefix < |HTTP| then if c == HTTP[p.prefix] then Next(p.(prefix := p.prefix + 1), m) else Refused
    else if c == '/' then Next(p.(state := MAJOR_VERSION), m)
    else Refused
  }

  function StepMajor(p: Parser, m: Message, c: char): (r: Stepped) {
    if IsDigit(c) then Next(p, m.(major := c as int - '0' as int))
    else if c == '.' then Next(p.(state := MINOR_VERSION), m)
    else Refused
  }

  /** The last character of the version is a carriage return in a request and a blank in a response. */
  function StepMinor(p: Parser, m: Message, c: char): (r: Stepped) {
    if IsDigit(c) then Next(p, m.(minor := c as int - '0' as int))
    else if c == '\r' && p.kind.Request? then Next(p.(state := HEADER), m)
    else if c == ' ' && p.kind.Response? then Next(p.(state := STATUS_CODE), m)
    else Refused
  }

  function StepStatusCode(p: Parser, m: Message, c: char): (r: Stepped) {
    if IsDigit(c) then Next(p.(status := p.status + [c]), m)
    else if c == ' ' then
      if ToStatus(p.status).None? then Raised
      else Next(p.(status := "", state := STATUS_TEXT), m.(status := ToStatus(p.status).value))
    else Refused
  }

  function StepStatusText(p: Parser, m: Message, c: char): (r: Stepped) {
    if IsAlnum(c) || c == ' ' then Next(p.(status := p.status + [c]), m)
    else if c == '\r' then Next(p.(status := "", state := HEADER), m)
    else Refused
  }

  // ------------------------------------------------------------------ header lines

  function StepHeader(p: Parser, m: Message, c: char): (r: Stepped) {
    if c == '\n' then Next(p.(key := "", value := "", state := HEADER_KEY), m) else Refused
  }

  function StepHeaderKey(p: Parser, m: Message, c: char): (r: Stepped) {
    if IsAlnum(c) || c == '-' then Next(p.(key := p.key + [c]), m)
    else if c == ':' then Next(p.(state := HEADER_VALUE_BEGIN), m)
    else if c == ' ' then Next(p, m)
    else Refused
  }

  function StepHeaderValueBegin(p: Parser, m: Message, c: char): (r: Stepped) {
    if c == ' ' then Next(p, m)
    else if IsAlnum(c) || IsPunct(c) then Next(p.(blanks := "", value := [c], state := HEADER_VALUE), m)
    else Refused
  }

  /** Blanks inside a value are kept until the value goes on; after a folded line they are dropped. */
  function StepHeaderValue(p: Parser, m: Message, c: char): (r: Stepped) {
    if IsBlank(c) then Next(p.(blanks := p.blanks + [c]), m)
    else if IsAlnum(c) || IsPunct(c) || (p.kind.Response? && IsUtf8(c)) then
      if p.blanks != "" && !p.skipBlanks then Next(p.(value := p.value + p.blanks + [c], blanks := ""), m)
      else if p.skipBlanks then Next(p.(value := p.value + [c], blanks := "", skipBlanks := false), m)
      else Next(p.(value := p.value + [c]), m)
    else if c == '\r' then Next(p.(state := HEADER_NEWLINE), m)
    else Refused
  }

  function InsertHeader(kind: Kind, m: Message, key: string, value: string): (r: Message) {
    var m' := m.(headers := Insert(m.headers, key, value));
    if SameName(key, CONTENT_TYPE) then m'.(contentType := value)
    else if SameName(key, CONTENT_LENGTH) then m'.(length := value)
    else if SameName(key, CONTENT_MD5) then m'.(md5 := value)
    else if SameName(key, HOST) && kind.Request? then m'.(host := value)
    else m'
  }

  function StepHeaderNewline(p: Parser, m: Message, c: char): (r: Stepped) {
    if c == '\n' then Next(p, m)
    else if IsBlank(c) then Next(p.(state := HEADER_VALUE, skipBlanks := true), m)
    else if IsAlnum(c) || IsPunct(c) then
      Next(p.(key := [c], state := HEADER_KEY), InsertHeader(p.kind, m, p.key, p.value))
    else if c == '\r' then Next(p.(key := "", state := HEADER_FINISH), InsertHeader(p.kind, m, p.key, p.value))
    else Refused
  }

  function StepHeaderFinish(p: Parser, m: Message, c: char): (r: Stepped) {
    if c == '\n' then Next(p.(state := BODY), m) else Refused
  }

  // ------------------------------------------------------------------ one character

  function OfField(r: Option<Parser>, m: Message): (s: Stepped) {
    if r.None? then Refused else Next(r.value, m)
  }

  function OfValue(r: Option<(Parser, Params)>, m: Message): (s: Stepped) {
    if r.None? then Refused else Next(r.value.0, m.(query := r.value.1))
  }

  function Step(p: Parser, m: Message, c: char): (r: Stepped)
    ensures r.Next? ==> r.p.kind == p.kind && (r.p.state == BODY <==> p.state == HEADER_FINISH)
  {
    match p.state
    case METHOD => StepMethod(p, m, c)
    case URL_PATH => StepUrlPath(p, m, c)
    case URL_QUERY_FIELD => OfField(StepQueryField(p, c), m)
    case URL_QUERY_VALUE => OfValue(StepQueryValue(p, m.query, c), m)
    case URL_FRAGMENT => StepFragment(p, m, c)
    case VERSION => StepVersion(p, m, c)
    case MAJOR_VERSION => StepMajor(p, m, c)
    case MINOR_VERSION => StepMinor(p, m, c)
    case STATUS_CODE => StepStatusCode(p, m, c)
    case STATUS_TEXT => StepStatusText(p, m, c)
    case HEADER => StepHeader(p, m, c)
    case HEADER_KEY => StepHeaderKey(p, m, c)
    case HEADER_VALUE_BEGIN => StepHeaderValueBegin(p, m, c)
    case HEADER_VALUE => StepHeaderValue(p, m, c)
    case HEADER_NEWLINE => StepHeaderNewline(p, m, c)
    case HEADER_FINISH => StepHeaderFinish(p, m, c)
    case BODY => Refused
  }

  // ------------------------------------------------------------------ a piece of header

  datatype Scanned =
    | Stopped(result: Result, p: Parser, m: Message)
    | Ran(p: Parser, m: Message)
    | Done(p: Parser, m: Message, rest: string)

  /** Reads up to the end of the header; a request parser gives up the piece at a zero character. */
  function Scan(p: Parser, m: Message, msg: string): (r: Scanned)
    ensures r.Done? ==> r.p.state == BODY && |r.rest| < |msg|
    ensures r.Ran? && p.state != BODY ==> r.p.state != BODY
    ensures r.p.kind == p.kind
    decreases |msg|
  {
    if msg == "" then Ran(p, m)
    else if p.kind.Request? && msg[0] == '\0' then Stopped(PARTIAL, p, m)
    else
      match Step(p, m, msg[0])
      case Refused => Stopped(INVALID, p, m)
      case Raised => Stopped(THROWN, p, m)
      case Next(p', m') => if p'.state == BODY then Done(p', m', msg[1..]) else Scan(p', m', msg[1..])
  }

  // ------------------------------------------------------------------ form data

  datatype Form = Form(p: Parser, params: Params, ok: bool)

  /** Reads the body as parameters until it ends, a zero comes or a character does not fit. */
  function ScanForm(p: Parser, params: Params, body: string, ok: bool): (r: Form)
    ensures r.p.kind == p.kind
    decreases |body|
  {
    if body == "" || body[0] == '\0' then Form(p, params, ok)
    else if p.state == URL_QUERY_FIELD then
      var r := StepQueryField(p, body[0]);
      if r.None? then Form(p, params, false) else ScanForm(r.value, params, body[1..], true)
    else if p.state == URL_QUERY_VALUE then
      var r := StepQueryValue(p, params, body[0]);
      if r.None? then Form(p, params, false) else ScanForm(r.value.0, r.value.1, body[1..], true)
    else Form(p, params, false)
  }

  /** The last parameter is added at the end; the name read last is forgotten, its value is not. */
  function ParseFormData(p: Parser, m: Message): (r: (Parser, Message))
    ensures r.0.kind == p.kind
    ensures r.1 == m.(form := r.1.form)
  {
    var f := ScanForm(p.(state := URL_QUERY_FIELD), m.form, m.body, false);
    var form := if f.ok && f.p.field != "" then Insert(f.params, f.p.field, f.p.queryValue) else f.params;
    (f.p.(field := ""), m.(form := form))
  }

  function ProcessBody(p: Parser, m: Message): (r: (Parser, Message))
    ensures r.0.kind == p.kind
    ensures r.1 == m.(form := r.1.form)
  {
    if p.kind.Request? && m.contentType == FORM_URLENCODED then ParseFormData(p, m) else (p, m)
  }

  // ------------------------------------------------------------------ body and calls

  datatype Outcome = Outcome(result: Result, p: Parser, m: Message)

  predicate HasBody(p: Parser, m: Message) {
    p.kind.Response? || m.verb == POST || m.verb == PUT
  }

  /** How the call ends: a request parser that finished starts over. */
  function Close(result: Result, p: Parser, m: Message): (o: Outcome) {
    Outcome(result, if result.FINISH? && p.kind.Request? then p.(state := METHOD) else p, m)
  }

  /** Takes the rest of a piece for the body; the number of characters missing wraps around at 64 bits. */
  function TakeBody(result: Result, p: Parser, m: Message, rest: string): (o: Outcome) {
    if !HasBody(p, m) then Close(result, p, m)
    else if Stoul(m.length).None? then Outcome(THROWN, p, m)
    else
      var missing := (Stoul(m.length).value - |m.body|) % SIZE;
      if missing > 0 then
        var m' := m.(body := m.body + rest);
        if |rest| == missing then
          var (p', m'') := ProcessBody(p, m');
          Close(FINISH, p'.(state := Start(p.kind)), m'')
        else if |rest| < missing then Close(PARTIAL, p, m')
        else Close(result, p, m')
      else if rest != "" then Close(FINISH, p.(state := Start(p.kind)), m.(body := rest))
      else Close(result, p, m)
  }

  /** One call of `parse`: the count of letters of the protocol name starts over. */
  function Parse(p: Parser, m: Message, msg: string): (o: Outcome) {
    if p.state == BODY then TakeBody(PARTIAL, if p.kind.Request? then p.(prefix := 0) else p, m, msg)
    else
      match Scan(p.(prefix := 0), m, msg)
      case Stopped(result, p', m') => Outcome(result, p', m')
      case Ran(p', m') => Outcome(PARTIAL, p', m')
      case Done(p', m', rest) => TakeBody(FINISH, p', m', rest)
  }
}
