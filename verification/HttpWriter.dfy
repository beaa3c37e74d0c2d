/** The text of requests and responses. */
module HttpWriter {
  import opened Numerals
  import opened HttpMessage
  import opened HttpParser
  import opened HttpPieces

  datatype Line = Line(key: string, value: string)

  function LineText(l: Line): (s: string) {
    l.key + ": " + l.value + "\r\n"
  }

  function LinesText(lines: seq<Line>): (s: string) {
    if lines == [] then "" else LineText(lines[0]) + LinesText(lines[1..])
  }

  /** The headers in the order the map gives them. */
  predicate OrderOf(order: seq<string>, headers: Params) {
    (forall i :: 0 <= i < |order| ==> order[i] in headers) &&
    (forall key :: key in headers ==> key in order) &&
    (forall i, j :: 0 <= i < j < |order| ==> order[i] != order[j])
  }

  function HeaderLines(headers: Params, order: seq<string>): (lines: seq<Line>)
    requires forall i :: 0 <= i < |order| ==> order[i] in headers
  {
    seq(|order|, i requires 0 <= i < |order| => Line(order[i], headers[order[i]]))
  }

  /** With a body two more lines follow the headers. */
  function ContentLines(m: Message): (lines: seq<Line>) {
    if m.body == "" then [] else [Line(CONTENT_LENGTH, m.length), Line(CONTENT_TYPE, m.contentType)]
  }

  function AllLines(m: Message, order: seq<string>): (lines: seq<Line>)
    requires OrderOf(order, m.headers)
  {
    HeaderLines(m.headers, order) + ContentLines(m)
  }

  function RequestLine(m: Message): (s: string) {
    MethodText(m.verb) + " " + m.url + " HTTP/1.1\r\n"
  }

  function StatusLine(m: Message): (s: string)
    requires m.status in HttpMessage.STATUS_TEXT
  {
    "HTTP/1.1 " + Digits(m.status) + " " + HttpMessage.STATUS_TEXT[m.status] + "\r\n"
  }

  /** The words a status stands for; a code without words is not known. */
  function Phrase(code: nat): (s: string) {
    match code
    case 200 => "OK"
    case 201 => "Created"
    case 202 => "Accepted"
    case 204 => "No Content"
    case 300 => "Multiple Choices"
    case 301 => "Moved Permanently"
    case 302 => "Moved Temporarily"
    case 304 => "Not Modified"
    case 400 => "Bad Request"
    case 401 => "Unauthorized"
    case 403 => "Forbidden"
    case 404 => "Not Found"
    case 500 => "Internal Server error"
    case 501 => "Not Implemented"
    case 502 => "Bad Gateway"
    case 503 => "Service unavailable"
    case _ => ""
  }

  lemma ThreeDigits(code: nat)
    requires 100 <= code < 1000
    ensures Digits(code) == [Digit(code / 100), Digit(code / 10 % 10), Digit(code % 10)]
  {
    assert Digits(code) == Digits(code / 10) + [Digit(code % 10)];
    assert Digits(code / 10) == Digits(code / 100) + [Digit(code / 10 % 10)];
    assert Digits(code / 100) == [Digit(code / 100)];
  }

  /** A status line carries the three digits and the words of its own code. */
  lemma StatusWords(m: Message)
    ensures m.status in HttpMessage.STATUS_TEXT <==> Phrase(m.status) != ""
    ensures m.status in HttpMessage.STATUS_TEXT ==>
      StatusLine(m) == "HTTP/1.1 " + [Digit(m.status / 100), Digit(m.status / 10 % 10), Digit(m.status % 10)] + " " +
        Phrase(m.status) + "\r\n"
  {
    hide Digits;
    if m.status in HttpMessage.STATUS_TEXT { ThreeDigits(m.status); }
  }

  function FirstLine(kind: Kind, m: Message): (s: string)
    requires m.status in HttpMessage.STATUS_TEXT
  {
    if kind.Request? then RequestLine(m) else StatusLine(m)
  }

  function Text(kind: Kind, m: Message, order: seq<string>): (s: string)
    requires m.status in HttpMessage.STATUS_TEXT && OrderOf(order, m.headers)
  {
    FirstLine(kind, m) + LinesText(AllLines(m, order)) + "\r\n" + m.body
  }

  // ------------------------------------------------------------------ writing

  lemma {:induction false} ConcatBehind(buffers: seq<string>, s: string)
    ensures Concat(buffers + [s]) == Concat(buffers) + s
    decreases |buffers|
  {
    if buffers == [] {
      assert buffers + [s] == [s];
      assert Concat([s]) == s + "";
    } else {
      ConcatBehind(buffers[1..], s);
      assert (buffers + [s])[1..] == buffers[1..] + [s];
      assert buffers[0] + (Concat(buffers[1..]) + s) == buffers[0] + Concat(buffers[1..]) + s;
    }
  }

  method Push(buffers: seq<string>, s: string) returns (r: seq<string>)
    ensures r == buffers + [s] && Concat(r) == Concat(buffers) + s
  {
    ConcatBehind(buffers, s);
    r := buffers + [s];
  }

  /** Four views for one header line. */
  method PushLine(buffers: seq<string>, l: Line) returns (r: seq<string>)
    ensures Concat(r) == Concat(buffers) + LineText(l)
  {
    r := Push(buffers, l.key);
    r := Push(r, ": ");
    r := Push(r, l.value);
    r := Push(r, "\r\n");
    assert Concat(buffers) + l.key + ": " + l.value + "\r\n" == Concat(buffers) + LineText(l);
  }

  lemma {:induction false} LinesOfBoth(a: seq<Line>, b: seq<Line>)
    ensures LinesText(a + b) == LinesText(a) + LinesText(b)
    decreases |a|
  {
    hide LineText;
    if a == [] {
      assert a + b == b;
    } else {
      LinesOfBoth(a[1..], b);
      assert (a + b)[1..] == a[1..] + b;
      ThreeParts(LineText(a[0]), LinesText(a[1..]), LinesText(b));
    }
  }

  lemma ThreeParts(a: string, b: string, c: string)
    ensures a + (b + c) == a + b + c
  {
  }

  /** One more line behind those that are written. */
  lemma LineBehind(s: string, lines: seq<Line>, l: Line)
    ensures s + LinesText(lines) + LineText(l) == s + LinesText(lines + [l])
  {
    hide LineText;
    LinesOfBoth(lines, [l]);
    assert LinesText([l]) == LineText(l) + "" == LineText(l);
  }

  method PushHeaders(before: seq<string>, headers: Params, order: seq<string>) returns (buffers: seq<string>)
    requires forall i :: 0 <= i < |order| ==> order[i] in headers
    ensures Concat(buffers) == Concat(before) + LinesText(HeaderLines(headers, order))
  {
    hide Concat, LineText, LinesText;
    buffers := before;
    var i := 0;
    ghost var lines := HeaderLines(headers, order);
    NoLines(Concat(before));
    assert lines[..0] == [];
    while i < |order|
      invariant 0 <= i <= |order|
      invariant Concat(buffers) == Concat(before) + LinesText(lines[..i])
    {
      var l := Line(order[i], headers[order[i]]);
      buffers := PushLine(buffers, l);
      LineBehind(Concat(before), lines[..i], l);
      assert lines[..i + 1] == lines[..i] + [l];
      i := i + 1;
    }
    assert lines[..i] == lines;
  }

  lemma NoLines(s: string)
    ensures s + LinesText([]) == s
  {
  }

  method PushContent(before: seq<string>, m: Message) returns (buffers: seq<string>)
    ensures Concat(buffers) == Concat(before) + LinesText(ContentLines(m))
  {
    hide Concat, LineText, LinesText;
    buffers := before;
    NoLines(Concat(before));
    if m.body != "" {
      var length, kindOf := Line(CONTENT_LENGTH, m.length), Line(CONTENT_TYPE, m.contentType);
      buffers := PushLine(buffers, length);
      buffers := PushLine(buffers, kindOf);
      LineBehind(Concat(before), [], length);
      LineBehind(Concat(before), [length], kindOf);
      assert [] + [length] == [length] && [length] + [kindOf] == [length, kindOf];
    }
  }

  /** The views a message is sent from, in order, are its text. */
  method ToBuffers(kind: Kind, m: Message, order: seq<string>) returns (buffers: seq<string>)
    requires m.status in HttpMessage.STATUS_TEXT && OrderOf(order, m.headers)
    ensures Concat(buffers) == Text(kind, m, order)
  {
    hide Concat, LineText, LinesText, FirstLine;
    buffers := PushFirst(kind, m);
    buffers := PushHeaders(buffers, m.headers, order);
    buffers := PushContent(buffers, m);
    var a, b := HeaderLines(m.headers, order), ContentLines(m);
    LinesOfBoth(a, b);
    assert FirstLine(kind, m) + LinesText(a) + LinesText(b) == FirstLine(kind, m) + LinesText(a + b);
    buffers := Push(buffers, "\r\n");
    if m.body != "" { buffers := Push(buffers, m.body); }
  }

  method PushFirst(kind: Kind, m: Message) returns (buffers: seq<string>)
    requires m.status in HttpMessage.STATUS_TEXT
    ensures Concat(buffers) == FirstLine(kind, m)
  {
    if kind.Request? {
      buffers := Push([], MethodText(m.verb));
      buffers := Push(buffers, " ");
      buffers := Push(buffers, m.url);
      buffers := Push(buffers, " ");
      buffers := Push(buffers, "HTTP/1.1");
      buffers := Push(buffers, "\r\n");
      assert "" + MethodText(m.verb) + " " + m.url + " " + "HTTP/1.1" + "\r\n" == RequestLine(m);
    } else {
      buffers := Push([], StatusLine(m));
    }
  }
}
