/** Parsing what was written recovers the message. */
module HttpRoundTrip {
  import opened Numerals
  import opened HttpMessage
  import opened HttpParser
  import opened HttpPieces
  import opened HttpWriter

  // ------------------------------------------------------------------ legal parts

  predicate LegalKey(key: string) {
    key != "" && forall i :: 0 <= i < |key| ==> IsAlnum(key[i]) || key[i] == '-'
  }

  predicate Visible(kind: Kind, c: char) {
    IsAlnum(c) || IsPunct(c) || (kind.Response? && IsUtf8(c))
  }

  /** Not empty, no blanks at the ends, and visible characters and blanks between. */
  predicate LegalValue(kind: Kind, value: string) {
    value != "" && (IsAlnum(value[0]) || IsPunct(value[0])) && !IsBlank(value[|value| - 1]) &&
    forall i :: 0 <= i < |value| ==> Visible(kind, value[i]) || IsBlank(value[i])
  }

  predicate LegalLine(kind: Kind, l: Line) {
    LegalKey(l.key) && LegalValue(kind, l.value)
  }

  predicate LegalUrl(url: string) {
    forall i :: 0 <= i < |url| ==> IsUrlChar(url[i]) && url[i] != '?'
  }

  // ------------------------------------------------------------------ scanning

  lemma ScanChar(p: Parser, m: Message, c: char, rest: string)
    requires c != '\0' && Step(p, m, c).Next? && p.state != HEADER_FINISH
    ensures var r := Step(p, m, c); Scan(p, m, [c] + rest) == Scan(r.p, r.m, rest)
  {
    hide Step;
    assert ([c] + rest)[1..] == rest;
  }

  /** One part after another. */
  lemma ScanThen(p: Parser, m: Message, a: string, p': Parser, m': Message, b: string)
    requires Scan(p, m, a) == Ran(p', m')
    ensures Scan(p, m, a + b) == Scan(p', m', b)
  {
    ScanSplit(p, m, a, b);
  }

  lemma {:induction false} ScanVerb(p: Parser, m: Message, s: string)
    requires p.state == METHOD && forall i :: 0 <= i < |s| ==> IsUpper(s[i])
    ensures Scan(p, m, s) == Ran(p.(verb := p.verb + s), m)
    decreases |s|
  {
    hide Scan, Step, IsUpper;
    if s == "" {
      ScanNothing(p, m);
      assert p.verb + s == p.verb;
    } else {
      var q := p.(verb := p.verb + [s[0]]);
      VerbChar(p, m, s[0]);
      assert s == [s[0]] + s[1..];
      ScanChar(p, m, s[0], s[1..]);
      ScanVerb(q, m, s[1..]);
      assert p.verb + [s[0]] + s[1..] == p.verb + s;
    }
  }

  lemma VerbChar(p: Parser, m: Message, c: char)
    requires p.state == METHOD && IsUpper(c)
    ensures Step(p, m, c) == Next(p.(verb := p.verb + [c]), m) && c != '\0'
  {
  }

  lemma {:induction false} ScanUrl(p: Parser, m: Message, s: string)
    requires p.state == URL_PATH && LegalUrl(s)
    ensures Scan(p, m, s) == Ran(p, m.(url := m.url + s))
    decreases |s|
  {
    hide Scan, Step, IsUrlChar;
    if s == "" {
      ScanNothing(p, m);
      assert m.url + s == m.url;
    } else {
      var m' := m.(url := m.url + [s[0]]);
      UrlChar(p, m, s[0]);
      assert s == [s[0]] + s[1..];
      ScanChar(p, m, s[0], s[1..]);
      ScanUrl(p, m', s[1..]);
      assert m.url + [s[0]] + s[1..] == m.url + s;
    }
  }

  lemma UrlChar(p: Parser, m: Message, c: char)
    requires p.state == URL_PATH && IsUrlChar(c) && c != '?'
    ensures Step(p, m, c) == Next(p, m.(url := m.url + [c])) && c != '\0'
  {
  }

  lemma {:induction false} ScanKey(p: Parser, m: Message, s: string)
    requires p.state == HEADER_KEY && forall i :: 0 <= i < |s| ==> IsAlnum(s[i]) || s[i] == '-'
    ensures Scan(p, m, s) == Ran(p.(key := p.key + s), m)
    decreases |s|
  {
    hide Scan, Step, IsAlnum;
    if s == "" {
      ScanNothing(p, m);
      assert p.key + s == p.key;
    } else {
      KeyChar(p, m, s[0]);
      assert s == [s[0]] + s[1..];
      ScanChar(p, m, s[0], s[1..]);
      ScanKey(p.(key := p.key + [s[0]]), m, s[1..]);
      assert p.key + [s[0]] + s[1..] == p.key + s;
    }
  }

  lemma KeyChar(p: Parser, m: Message, c: char)
    requires p.state == HEADER_KEY && (IsAlnum(c) || c == '-')
    ensures Step(p, m, c) == Next(p.(key := p.key + [c]), m) && c != '\0'
  {
  }

  /** Visible characters and blanks collect into the value and the blanks behind it. */
  lemma {:induction false} ScanValue(p: Parser, m: Message, s: string)
    requires p.state == HEADER_VALUE && !p.skipBlanks
    requires forall i :: 0 <= i < |s| ==> Visible(p.kind, s[i]) || IsBlank(s[i])
    ensures var r := Scan(p, m, s);
      r.Ran? && r.m == m && r.p == p.(value := r.p.value, blanks := r.p.blanks) &&
      r.p.value + r.p.blanks == p.value + p.blanks + s &&
      (s != "" && !IsBlank(s[|s| - 1]) ==> r.p.blanks == "")
    decreases |s|
  {
    hide Scan, Step, Visible, IsBlank;
    if s == "" {
      ScanNothing(p, m);
      assert p.value + p.blanks + s == p.value + p.blanks;
    } else {
      var r := Step(p, m, s[0]);
      ValueChar(p, m, s[0]);
      assert s == [s[0]] + s[1..];
      ScanChar(p, m, s[0], s[1..]);
      ScanValue(r.p, m, s[1..]);
      assert p.value + p.blanks + [s[0]] + s[1..] == p.value + p.blanks + s;
      if |s| == 1 { ScanNothing(r.p, m); } else { assert s[1..][|s| - 2] == s[|s| - 1]; }
    }
  }

  lemma ValueChar(p: Parser, m: Message, c: char)
    requires p.state == HEADER_VALUE && !p.skipBlanks && (Visible(p.kind, c) || IsBlank(c))
    ensures var r := Step(p, m, c);
      r.Next? && r.m == m && r.p == p.(value := r.p.value, blanks := r.p.blanks) &&
      r.p.value + r.p.blanks == p.value + p.blanks + [c] && (!IsBlank(c) ==> r.p.blanks == "") && c != '\0'
  {
  }

  // ------------------------------------------------------------------ header lines

  /** The parser behind a line, which is still to be inserted. */
  function Behind(p: Parser, l: Line): (r: Parser) {
    p.(state := HEADER_NEWLINE, key := l.key, value := l.value, blanks := "", skipBlanks := false)
  }

  lemma ScanValueText(p: Parser, m: Message, l: Line, rest: string)
    requires p.state == HEADER_VALUE_BEGIN && p.key == l.key && !p.skipBlanks && LegalValue(p.kind, l.value)
    ensures Scan(p, m, " " + (l.value + ("\r\n" + rest))) == Scan(Behind(p, l), m, rest)
  {
    hide Scan, Step, IsPunct, IsAlnum;
    var c, tail, end := l.value[0], l.value[1..], "\r\n" + rest;
    ValueBegins(p, m, c);
    VisibleIsNotControl(p.kind, c);
    assert l.value + end == [c] + (tail + end);
    ScanChar(p, m, ' ', l.value + end);
    ScanChar(p, m, c, tail + end);
    ScanValueTail(p.(blanks := "", value := [c], state := HEADER_VALUE), m, tail, rest);
    assert [c] + tail == l.value;
  }

  lemma ScanValueTail(p: Parser, m: Message, tail: string, rest: string)
    requires p.state == HEADER_VALUE && !p.skipBlanks && p.blanks == ""
    requires forall i :: 0 <= i < |tail| ==> Visible(p.kind, tail[i]) || IsBlank(tail[i])
    requires tail != "" ==> !IsBlank(tail[|tail| - 1])
    ensures Scan(p, m, tail + ("\r\n" + rest)) == Scan(p.(state := HEADER_NEWLINE, value := p.value + tail), m, rest)
  {
    hide Scan, Visible;
    ScanValue(p, m, tail);
    var r := Scan(p, m, tail).p;
    ScanNothing(p, m);
    assert r.blanks == "";
    assert p.value + "" + tail == p.value + tail && r.value + "" == r.value;
    ScanThen(p, m, tail, r, m, "\r\n" + rest);
    ScanEnd(r, m, rest);
  }

  lemma ValueBegins(p: Parser, m: Message, c: char)
    requires p.state == HEADER_VALUE_BEGIN && (IsAlnum(c) || IsPunct(c))
    ensures Step(p, m, ' ') == Next(p, m)
    ensures Step(p, m, c) == Next(p.(blanks := "", value := [c], state := HEADER_VALUE), m)
  {
  }

  lemma ScanNothing(p: Parser, m: Message)
    ensures Scan(p, m, "") == Ran(p, m)
  {
  }

  lemma VisibleIsNotControl(kind: Kind, c: char)
    requires Visible(kind, c)
    ensures c != '\0' && c != ' ' && c != '\r' && c != '\n'
  {
  }

  lemma ScanEnd(p: Parser, m: Message, rest: string)
    requires p.state == HEADER_VALUE
    ensures Scan(p, m, "\r\n" + rest) == Scan(p.(state := HEADER_NEWLINE), m, rest)
  {
    hide Scan;
    var q := p.(state := HEADER_NEWLINE);
    assert Step(p, m, '\r') == Next(q, m) && Step(q, m, '\n') == Next(q, m);
    ScanChar(p, m, '\r', "\n" + rest);
    ScanChar(q, m, '\n', rest);
    assert "\r\n" + rest == "\r" + ("\n" + rest);
  }

  /** A line whose first characters are read already. */
  lemma ScanLine(p: Parser, m: Message, l: Line, k: nat, rest: string)
    requires p.state == HEADER_KEY && !p.skipBlanks && LegalLine(p.kind, l)
    requires k <= |l.key| && p.key == l.key[..k]
    ensures Scan(p, m, LineText(l)[k..] + rest) == Scan(Behind(p, l), m, rest)
  {
    hide Scan, IsAlnum, IsPunct;
    var tail := ":" + (" " + (l.value + ("\r\n" + rest)));
    assert LineText(l)[k..] + rest == l.key[k..] + tail;
    ScanKey(p, m, l.key[k..]);
    assert p.key + l.key[k..] == l.key;
    var q := p.(key := l.key);
    ScanThen(p, m, l.key[k..], q, m, tail);
    NotAlnum();
    ScanChar(q, m, ':', " " + (l.value + ("\r\n" + rest)));
    ScanValueText(q.(state := HEADER_VALUE_BEGIN), m, l, rest);
  }

  lemma NotAlnum()
    ensures !IsAlnum(':') && !IsAlnum(' ') && !IsAlnum('\r') && !IsPunct('\r') && !IsAlnum('\n') && !IsAlnum('-') && IsPunct('-')
  {
  }

  function InsertLines(kind: Kind, m: Message, lines: seq<Line>): (r: Message)
    decreases |lines|
  {
    if lines == [] then m else InsertLines(kind, InsertHeader(kind, m, lines[0].key, lines[0].value), lines[1..])
  }

  predicate LegalLines(kind: Kind, lines: seq<Line>) {
    forall i :: 0 <= i < |lines| ==> LegalLine(kind, lines[i])
  }

  /** Behind a line the other lines and the empty line end the header, and every line is inserted. */
  lemma {:induction false} ScanLines(p: Parser, m: Message, first: Line, lines: seq<Line>, body: string)
    requires p.state == HEADER_NEWLINE && p.key == first.key && p.value == first.value && !p.skipBlanks
    requires LegalLines(p.kind, lines)
    ensures var r := Scan(p, m, LinesText(lines) + ("\r\n" + body));
      r.Done? && r.m == InsertLines(p.kind, m, [first] + lines) && r.rest == body
    decreases |lines|
  {
    hide Scan, LegalLine, InsertHeader, IsAlnum, IsPunct, LineText;
    var m' := InsertHeader(p.kind, m, first.key, first.value);
    assert ([first] + lines)[1..] == lines;
    if lines == [] {
      assert LinesText(lines) + ("\r\n" + body) == "\r\n" + body;
      ScanFinish(p, m, body);
    } else {
      var l, more := lines[0], LinesText(lines[1..]) + ("\r\n" + body);
      assert LinesText(lines) + ("\r\n" + body) == LineText(l) + more;
      ScanNext(p, m, l, more);
      ScanLines(Behind(p, l), m', l, lines[1..], body);
      assert [l] + lines[1..] == lines;
    }
  }

  lemma ScanFinish(p: Parser, m: Message, body: string)
    requires p.state == HEADER_NEWLINE
    ensures var r := Scan(p, m, "\r\n" + body);
      r.Done? && r.m == InsertHeader(p.kind, m, p.key, p.value) && r.rest == body && r.p == p.(key := "", state := BODY)
  {
    hide InsertHeader;
    NotAlnum();
    var q := p.(key := "", state := HEADER_FINISH);
    ScanChar(p, m, '\r', "\n" + body);
    assert "\r\n" + body == "\r" + ("\n" + body);
    assert ("\n" + body)[1..] == body;
  }

  lemma ScanNext(p: Parser, m: Message, l: Line, more: string)
    requires p.state == HEADER_NEWLINE && !p.skipBlanks && LegalLine(p.kind, l)
    ensures Scan(p, m, LineText(l) + more) == Scan(Behind(p, l), InsertHeader(p.kind, m, p.key, p.value), more)
  {
    hide Scan, InsertHeader, LegalValue;
    var c := l.key[0];
    assert IsAlnum(c) || c == '-';
    var q, m' := p.(key := [c], state := HEADER_KEY), InsertHeader(p.kind, m, p.key, p.value);
    NotAlnum();
    assert Step(p, m, c) == Next(q, m');
    assert LineText(l) == [c] + LineText(l)[1..];
    assert LineText(l) + more == [c] + (LineText(l)[1..] + more);
    ScanChar(p, m, c, LineText(l)[1..] + more);
    ScanLine(q, m', l, 1, more);
    assert Behind(q, l) == Behind(p, l);
  }

  /** From the first line on. */
  lemma ScanHeader(p: Parser, m: Message, lines: seq<Line>, body: string)
    requires p.state == HEADER_KEY && p.key == "" && !p.skipBlanks && lines != [] && LegalLines(p.kind, lines)
    ensures var r := Scan(p, m, LinesText(lines) + ("\r\n" + body));
      r.Done? && r.m == InsertLines(p.kind, m, lines) && r.rest == body
  {
    hide Scan, LegalLine, InsertHeader, LineText, InsertLines;
    var l, more := lines[0], LinesText(lines[1..]) + ("\r\n" + body);
    assert LinesText(lines) + ("\r\n" + body) == LineText(l) + more;
    assert LineText(l)[0..] == LineText(l);
    assert LegalLine(p.kind, l);
    ScanLine(p, m, l, 0, more);
    ScanLines(Behind(p, l), m, l, lines[1..], body);
    assert [l] + lines[1..] == lines;
  }

  // ------------------------------------------------------------------ what is inserted

  predicate Unnamed(lines: seq<Line>, name: string) {
    forall i :: 0 <= i < |lines| ==> !SameName(lines[i].key, name)
  }

  predicate Distinct(lines: seq<Line>) {
    forall i, j :: 0 <= i < j < |lines| ==> lines[i].key != lines[j].key
  }

  lemma {:induction false} InsertLinesBoth(kind: Kind, m: Message, a: seq<Line>, b: seq<Line>)
    ensures InsertLines(kind, m, a + b) == InsertLines(kind, InsertLines(kind, m, a), b)
    decreases |a|
  {
    hide InsertHeader;
    if a == [] {
      assert a + b == b;
    } else {
      InsertLinesBoth(kind, InsertHeader(kind, m, a[0].key, a[0].value), a[1..], b);
      assert (a + b)[1..] == a[1..] + b;
    }
  }

  /** Lines change the headers and what they are copied to, and nothing else. */
  lemma {:induction false} InsertLinesKeeps(kind: Kind, m: Message, lines: seq<Line>)
    ensures var r := InsertLines(kind, m, lines);
      r == m.(headers := r.headers, length := r.length, contentType := r.contentType, md5 := r.md5, host := r.host)
    ensures Unnamed(lines, CONTENT_LENGTH) ==> InsertLines(kind, m, lines).length == m.length
    decreases |lines|
  {
    hide SameName, InsertHeader;
    if lines != [] {
      InsertKeeps(kind, m, lines[0].key, lines[0].value);
      InsertLinesKeeps(kind, InsertHeader(kind, m, lines[0].key, lines[0].value), lines[1..]);
    }
  }

  lemma InsertKeeps(kind: Kind, m: Message, key: string, value: string)
    ensures var r := InsertHeader(kind, m, key, value);
      r == m.(headers := r.headers, length := r.length, contentType := r.contentType, md5 := r.md5, host := r.host) &&
      (!SameName(key, CONTENT_LENGTH) ==> r.length == m.length)
  {
    hide SameName;
  }

  /** With distinct keys every line is in the map, and no other key comes in. */
  lemma {:induction false} InsertLinesMap(kind: Kind, m: Message, lines: seq<Line>)
    requires Distinct(lines) && forall i :: 0 <= i < |lines| ==> lines[i].key !in m.headers
    ensures var h := InsertLines(kind, m, lines).headers;
      (forall i :: 0 <= i < |lines| ==> lines[i].key in h && h[lines[i].key] == lines[i].value) &&
      (forall key :: key in m.headers ==> key in h && h[key] == m.headers[key]) &&
      (forall key :: key in h ==> key in m.headers || exists i :: 0 <= i < |lines| && lines[i].key == key)
    decreases |lines|
  {
    if lines != [] {
      var m' := InsertHeader(kind, m, lines[0].key, lines[0].value);
      assert m'.headers == m.headers[lines[0].key := lines[0].value];
      InsertLinesMap(kind, m', lines[1..]);
      var h := InsertLines(kind, m, lines).headers;
      forall i | 0 <= i < |lines| ensures lines[i].key in h && h[lines[i].key] == lines[i].value {
        assert i > 0 ==> lines[i] == lines[1..][i - 1];
      }
    }
  }

  // ------------------------------------------------------------------ first lines

  /** The protocol name and the two digits of the version. */
  function VersionText(major: char, minor: char): (s: string) {
    "HTTP/" + [major] + "." + [minor]
  }

  function DigitValue(c: char): (n: int) {
    c as int - '0' as int
  }

  lemma {:induction false} ScanVersionText(p: Parser, m: Message, a: char, b: char, rest: string)
    requires p.state == VERSION && p.prefix == 0 && IsDigit(a) && IsDigit(b)
    ensures Scan(p, m, VersionText(a, b) + rest) ==
      Scan(p.(state := MINOR_VERSION, prefix := 4), m.(major := DigitValue(a), minor := DigitValue(b)), rest)
  {
    hide Scan, DigitValue, IsDigit;
    var t := "/" + ([a] + ("." + ([b] + rest)));
    assert VersionText(a, b) + rest == "H" + ("T" + ("T" + ("P" + t)));
    ScanChar(p, m, 'H', "T" + ("T" + ("P" + t)));
    ScanChar(p.(prefix := 1), m, 'T', "T" + ("P" + t));
    ScanChar(p.(prefix := 2), m, 'T', "P" + t);
    ScanChar(p.(prefix := 3), m, 'P', t);
    ScanMajor(p.(prefix := 4), m, a, [b] + rest);
    ScanMinor(p.(state := MINOR_VERSION, prefix := 4), m.(major := DigitValue(a)), b, rest);
  }

  lemma ScanMajor(p: Parser, m: Message, a: char, rest: string)
    requires p.state == VERSION && p.prefix == 4 && IsDigit(a)
    ensures Scan(p, m, "/" + ([a] + ("." + rest))) == Scan(p.(state := MINOR_VERSION), m.(major := DigitValue(a)), rest)
  {
    hide Scan, Step, DigitValue, IsDigit;
    var q, m' := p.(state := MAJOR_VERSION), m.(major := DigitValue(a));
    SlashEndsName(p, m);
    MajorSteps(q, m, a);
    ScanChar(p, m, '/', [a] + ("." + rest));
    ScanChar(q, m, a, "." + rest);
    ScanChar(q, m', '.', rest);
  }

  lemma ScanMinor(p: Parser, m: Message, b: char, rest: string)
    requires p.state == MINOR_VERSION && IsDigit(b)
    ensures Scan(p, m, [b] + rest) == Scan(p, m.(minor := DigitValue(b)), rest)
  {
    hide Scan;
    assert Step(p, m, b) == Next(p, m.(minor := DigitValue(b))) && b != '\0';
    ScanChar(p, m, b, rest);
  }

  lemma SlashEndsName(p: Parser, m: Message)
    requires p.state == VERSION && p.prefix == 4
    ensures Step(p, m, '/') == Next(p.(state := MAJOR_VERSION), m)
  {
  }

  lemma MajorSteps(p: Parser, m: Message, c: char)
    requires p.state == MAJOR_VERSION && IsDigit(c)
    ensures Step(p, m, c) == Next(p, m.(major := DigitValue(c))) && c != '\0'
    ensures forall m' :: Step(p, m', '.') == Next(p.(state := MINOR_VERSION), m')
  {
  }

  lemma ScanRequestLine(m: Message, rest: string)
    requires LegalUrl(m.url)
    ensures Scan(Fresh(Request), EMPTY, RequestLine(m) + rest) ==
      Scan(Fresh(Request).(state := HEADER_KEY, prefix := 4), EMPTY.(verb := m.verb, url := m.url, major := 1, minor := 1), rest)
  {
    hide Scan, IsUrlChar, LegalUrl, Step, RequestLine;
    var p := Fresh(Request);
    var tail := " " + ("HTTP/1.1" + ("\r\n" + rest));
    assert RequestLine(m) + rest == MethodText(m.verb) + (" " + (m.url + tail)) by { RequestParts(m, rest); }
    ScanVerbText(m.verb, m.url + tail);
    var p2, m2 := p.(state := URL_PATH), EMPTY.(verb := m.verb);
    ScanUrl(p2, m2, m.url);
    assert "" + m.url == m.url;
    ScanThen(p2, m2, m.url, p2, m2.(url := m.url), tail);
    ScanRequestVersion(p2, m2.(url := m.url), rest);
  }

  lemma RequestParts(m: Message, rest: string)
    ensures RequestLine(m) + rest == MethodText(m.verb) + (" " + (m.url + (" " + ("HTTP/1.1" + ("\r\n" + rest)))))
  {
    hide MethodText;
    var verb := MethodText(m.verb);
    assert RequestLine(m) + rest == verb + (" " + (m.url + (" " + ("HTTP/1.1" + ("\r\n" + rest)))));
  }

  lemma ScanVerbText(verb: Method, rest: string)
    ensures Scan(Fresh(Request), EMPTY, MethodText(verb) + (" " + rest)) ==
      Scan(Fresh(Request).(state := URL_PATH), EMPTY.(verb := verb), rest)
  {
    hide Scan, Step, MethodText;
    var p, text := Fresh(Request), MethodText(verb);
    MethodUpper(verb);
    ScanVerb(p, EMPTY, text);
    assert "" + text == text;
    var p1 := p.(verb := text);
    ScanThen(p, EMPTY, text, p1, EMPTY, " " + rest);
    VerbEnds(p1, EMPTY, verb);
    ScanChar(p1, EMPTY, ' ', rest);
  }

  lemma MethodUpper(verb: Method)
    ensures var s := MethodText(verb); forall i :: 0 <= i < |s| ==> IsUpper(s[i])
  {
  }

  lemma VerbEnds(p: Parser, m: Message, verb: Method)
    requires p.state == METHOD && p.verb == MethodText(verb)
    ensures Step(p, m, ' ') == Next(p.(verb := "", state := URL_PATH), m.(verb := verb))
  {
  }

  lemma ScanRequestVersion(p: Parser, m: Message, rest: string)
    requires p.state == URL_PATH && p.kind == Request && p.status == ""
    ensures Scan(p, m, " " + ("HTTP/1.1" + ("\r\n" + rest))) ==
      Scan(p.(state := HEADER_KEY, prefix := 4, key := "", value := ""), m.(major := 1, minor := 1), rest)
  {
    hide Scan, Step;
    BlankEndsUrl(p, m);
    assert VersionText('1', '1') == "HTTP/1.1" && DigitValue('1') == 1;
    ScanChar(p, m, ' ', "HTTP/1.1" + ("\r\n" + rest));
    ScanVersionText(p.(state := VERSION, prefix := 0), m, '1', '1', "\r\n" + rest);
    ScanLineEnd(p.(state := MINOR_VERSION, prefix := 4), m.(major := 1, minor := 1), rest);
  }

  lemma BlankEndsUrl(p: Parser, m: Message)
    requires p.state == URL_PATH
    ensures Step(p, m, ' ') == Next(p.(prefix := 0, state := VERSION), m)
  {
  }

  lemma ScanLineEnd(p: Parser, m: Message, rest: string)
    requires (p.state == MINOR_VERSION && p.kind == Request && p.status == "") || p.state == State.STATUS_TEXT
    ensures Scan(p, m, "\r\n" + rest) == Scan(p.(state := HEADER_KEY, key := "", value := "", status := ""), m, rest)
  {
    hide Scan;
    ScanChar(p, m, '\r', "\n" + rest);
    ScanChar(Step(p, m, '\r').p, m, '\n', rest);
    assert "\r\n" + rest == "\r" + ("\n" + rest);
  }

  predicate StatusText(s: string) {
    forall i :: 0 <= i < |s| ==> IsAlnum(s[i]) || s[i] == ' '
  }

  lemma StatusTexts(code: nat)
    requires code in HttpMessage.STATUS_TEXT
    ensures StatusText(HttpMessage.STATUS_TEXT[code]) && 100 <= code < 1000
  {
    hide StatusText;
    if code < 300 { Texts2(); } else if code < 400 { Texts3(); } else if code < 500 { Texts4(); } else { Texts5(); }
  }

  lemma Texts2()
    ensures StatusText("OK") && StatusText("Created") && StatusText("Accepted") && StatusText("No Content")
  {
  }

  lemma Texts3()
    ensures StatusText("Multiple Choices") && StatusText("Moved Permanently")
    ensures StatusText("Moved Temporarily") && StatusText("Not Modified")
  {
  }

  lemma Texts4()
    ensures StatusText("Bad Request") && StatusText("Unauthorized") && StatusText("Forbidden") && StatusText("Not Found")
  {
  }

  lemma Texts5()
    ensures StatusText("Internal Server error") && StatusText("Not Implemented")
    ensures StatusText("Bad Gateway") && StatusText("Service unavailable")
  {
  }

  lemma StatusOf(code: nat)
    requires code in HttpMessage.STATUS_TEXT && 100 <= code < 1000
    ensures ToStatus(Digits(code)) == Some(code)
    ensures forall i :: 0 <= i < |Digits(code)| ==> IsDigit(Digits(code)[i])
  {
    hide NumberOf;
    DigitsAreDigits(code);
    assert Digits(code) == Digits(code / 10) + [Digit(code % 10)];
    assert Digits(code / 10) == Digits(code / 10 / 10) + [Digit(code / 10 % 10)];
    RunOf(Digits(code), "");
    assert Digits(code) + "" == Digits(code);
  }

  lemma StatusChar(p: Parser, m: Message, c: char)
    requires (p.state == STATUS_CODE && IsDigit(c)) || (p.state == State.STATUS_TEXT && (IsAlnum(c) || c == ' '))
    ensures Step(p, m, c) == Next(p.(status := p.status + [c]), m) && c != '\0'
  {
  }

  /** A status code or text is collected. */
  lemma {:induction false} ScanStatus(p: Parser, m: Message, s: string)
    requires (p.state == STATUS_CODE && forall i :: 0 <= i < |s| ==> IsDigit(s[i])) || (p.state == State.STATUS_TEXT && StatusText(s))
    ensures Scan(p, m, s) == Ran(p.(status := p.status + s), m)
    decreases |s|
  {
    hide Scan, Step, IsDigit, IsAlnum;
    if s == "" {
      ScanNothing(p, m);
      assert p.status + s == p.status;
    } else {
      var q := p.(status := p.status + [s[0]]);
      StatusChar(p, m, s[0]);
      assert s == [s[0]] + s[1..];
      ScanChar(p, m, s[0], s[1..]);
      ScanStatus(q, m, s[1..]);
      assert p.status + [s[0]] + s[1..] == p.status + s;
    }
  }

  /** A status line of any version and with any text behind the code. */
  lemma ScanStatusText(a: char, b: char, code: nat, text: string, rest: string)
    requires code in HttpMessage.STATUS_TEXT && StatusText(text) && IsDigit(a) && IsDigit(b)
    ensures Scan(Fresh(Response), EMPTY, VersionText(a, b) + (" " + (Digits(code) + (" " + (text + ("\r\n" + rest)))))) ==
      Scan(Fresh(Response).(state := HEADER_KEY, prefix := 4),
           EMPTY.(status := code, major := DigitValue(a), minor := DigitValue(b)), rest)
  {
    hide Scan, Step, ToStatus, Digits, StatusText, VersionText, DigitValue, IsDigit;
    var p, tail := Fresh(Response), Digits(code) + (" " + (text + ("\r\n" + rest)));
    ScanVersionText(p, EMPTY, a, b, " " + tail);
    var m1 := EMPTY.(major := DigitValue(a), minor := DigitValue(b));
    var p0, p1 := p.(state := MINOR_VERSION, prefix := 4), p.(state := STATUS_CODE, prefix := 4);
    BlankEndsVersion(p0, m1);
    ScanChar(p0, m1, ' ', tail);
    ScanCode(p1, m1, code, text + ("\r\n" + rest));
    ScanReason(p1.(state := State.STATUS_TEXT), m1.(status := code), text, rest);
  }

  lemma ScanReason(p: Parser, m: Message, text: string, rest: string)
    requires p.state == State.STATUS_TEXT && p.status == "" && StatusText(text)
    ensures Scan(p, m, text + ("\r\n" + rest)) == Scan(p.(state := HEADER_KEY, key := "", value := ""), m, rest)
  {
    hide Scan, Step, StatusText;
    ScanStatus(p, m, text);
    assert "" + text == text;
    ScanThen(p, m, text, p.(status := text), m, "\r\n" + rest);
    ScanLineEnd(p.(status := text), m, rest);
  }

  lemma BlankEndsVersion(p: Parser, m: Message)
    requires p.state == MINOR_VERSION && p.kind == Response
    ensures Step(p, m, ' ') == Next(p.(state := STATUS_CODE), m)
  {
  }

  lemma ScanCode(p: Parser, m: Message, code: nat, rest: string)
    requires p.state == STATUS_CODE && p.status == "" && code in HttpMessage.STATUS_TEXT
    ensures Scan(p, m, Digits(code) + (" " + rest)) == Scan(p.(state := State.STATUS_TEXT), m.(status := code), rest)
  {
    hide Scan, ToStatus, Digits;
    StatusTexts(code);
    StatusOf(code);
    var digits := Digits(code);
    ScanStatus(p, m, digits);
    assert "" + digits == digits;
    var q := p.(status := digits);
    ScanThen(p, m, digits, q, m, " " + rest);
    assert Step(q, m, ' ') == Next(p.(state := State.STATUS_TEXT), m.(status := code));
    ScanChar(q, m, ' ', rest);
  }

  lemma ScanStatusLine(m: Message, rest: string)
    requires m.status in HttpMessage.STATUS_TEXT
    ensures Scan(Fresh(Response), EMPTY, StatusLine(m) + rest) ==
      Scan(Fresh(Response).(state := HEADER_KEY, prefix := 4), EMPTY.(status := m.status, major := 1, minor := 1), rest)
  {
    hide Scan, Digits, StatusText;
    var code, text := Digits(m.status), HttpMessage.STATUS_TEXT[m.status];
    StatusTexts(m.status);
    assert VersionText('1', '1') == "HTTP/1.1" && DigitValue('1') == 1;
    assert StatusLine(m) + rest == "HTTP/1.1" + (" " + (code + (" " + (text + ("\r\n" + rest)))));
    ScanStatusText('1', '1', m.status, text, rest);
  }

  /** A code that is not in the table makes the parser throw. */
  lemma UnknownStatus(p: Parser, m: Message, code: string, rest: string)
    requires p.state == STATUS_CODE && p.status == "" && (forall i :: 0 <= i < |code| ==> IsDigit(code[i])) && ToStatus(code).None?
    ensures Scan(p, m, code + (" " + rest)) == Stopped(THROWN, p.(status := code), m)
  {
    hide ToStatus;
    ScanStatus(p, m, code);
    assert "" + code == code;
    ScanThen(p, m, code, p.(status := code), m, " " + rest);
  }

  // ------------------------------------------------------------------ the result

  /** A message as the program builds it: legal parts, and content lines that are only written for a body. */
  ghost predicate Writable(kind: Kind, m: Message, order: seq<string>) {
    m.status in HttpMessage.STATUS_TEXT && OrderOf(order, m.headers) &&
    (kind.Request? ==> LegalUrl(m.url)) &&
    LegalLines(kind, HeaderLines(m.headers, order)) &&
    Unnamed(HeaderLines(m.headers, order), CONTENT_LENGTH) && Unnamed(HeaderLines(m.headers, order), CONTENT_TYPE) &&
    (m.body != "" ==> |m.body| < SIZE && m.length == Digits(|m.body|) && LegalValue(kind, m.contentType))
  }

  /** At least one header line is written. */
  predicate HasLines(m: Message) {
    m.headers != map[] || m.body != ""
  }

  /** There is a header line, and a request with a body has a method for which bodies are read. */
  predicate Readable(kind: Kind, m: Message) {
    HasLines(m) && (kind.Request? && m.body != "" ==> m.verb == POST || m.verb == PUT)
  }

  ghost predicate Legal(kind: Kind, m: Message, order: seq<string>) {
    Writable(kind, m, order) && Readable(kind, m)
  }

  /** The headers that arrive: with a body also its length and type. */
  function Sent(m: Message): (h: Params) {
    if m.body == "" then m.headers
    else m.headers[CONTENT_LENGTH := m.length][CONTENT_TYPE := m.contentType]
  }

  lemma DigitsLegal(kind: Kind, n: nat)
    ensures LegalValue(kind, Digits(n))
  {
    hide NumberOf, Digits, IsPunct;
    DigitsAreDigits(n);
    var s := Digits(n);
    forall i | 0 <= i < |s| ensures IsDigit(s[i]) && !IsBlank(s[i]) {}
  }

  lemma ContentKeysLegal()
    ensures LegalKey(CONTENT_LENGTH) && LegalKey(CONTENT_TYPE)
  {
  }

  lemma ContentLinesLegal(kind: Kind, m: Message)
    requires m.body != "" ==> m.length == Digits(|m.body|) && LegalValue(kind, m.contentType)
    ensures LegalLines(kind, ContentLines(m))
  {
    hide LegalValue, LegalKey, Digits;
    if m.body != "" {
      DigitsLegal(kind, |m.body|);
      ContentKeysLegal();
    }
  }

  lemma NoOrder(order: seq<string>, headers: Params)
    requires OrderOf(order, headers)
    ensures order == [] <==> headers == map[]
  {
    if order != [] { assert order[0] in headers; }
    if headers != map[] { var key :| key in headers; assert key in order; }
  }

  lemma AllLinesLegal(kind: Kind, m: Message, order: seq<string>)
    requires Writable(kind, m, order)
    ensures LegalLines(kind, AllLines(m, order))
    ensures AllLines(m, order) != [] <==> HasLines(m)
  {
    hide LegalLine;
    ContentLinesLegal(kind, m);
    assert |HeaderLines(m.headers, order)| == |order|;
    NoOrder(order, m.headers);
  }

  lemma NamesDiffer(key: string, name: string)
    requires !SameName(key, name)
    ensures key != name
  {
  }

  lemma AllLinesDistinct(kind: Kind, m: Message, order: seq<string>)
    requires Writable(kind, m, order)
    ensures Distinct(AllLines(m, order))
  {
    hide LegalLines, SameName;
    var a, b := HeaderLines(m.headers, order), ContentLines(m);
    var all: seq<Line> := a + b;
    forall i, j | 0 <= i < j < |all| ensures all[i].key != all[j].key {
      if i < |a| {
        NamesDiffer(a[i].key, CONTENT_LENGTH);
        NamesDiffer(a[i].key, CONTENT_TYPE);
      }
    }
  }

  lemma HeadersArrive(kind: Kind, m: Message, order: seq<string>, start: Message)
    requires Writable(kind, m, order) && start.headers == map[]
    ensures InsertLines(kind, start, AllLines(m, order)).headers == Sent(m)
  {
    hide LegalLines, LegalValue, LegalUrl, InsertLines, SameName, Unnamed, Distinct, Digits, AllLines, Sent;
    AllLinesDistinct(kind, m, order);
    InsertLinesMap(kind, start, AllLines(m, order));
    LinesAreSent(m, order, InsertLines(kind, start, AllLines(m, order)).headers);
  }

  lemma LinesAreSent(m: Message, order: seq<string>, h: Params)
    requires OrderOf(order, m.headers)
    requires var lines := AllLines(m, order);
      (forall i :: 0 <= i < |lines| ==> lines[i].key in h && h[lines[i].key] == lines[i].value) &&
      (forall key :: key in h ==> exists i :: 0 <= i < |lines| && lines[i].key == key)
    ensures h == Sent(m)
  {
    var lines, n := AllLines(m, order), |order|;
    forall key | key in Sent(m) ensures key in h && h[key] == Sent(m)[key] {
      if m.body != "" && key == CONTENT_TYPE {
        assert lines[n + 1].key == key;
      } else if m.body != "" && key == CONTENT_LENGTH {
        assert lines[n].key == key;
      } else {
        var i :| 0 <= i < n && order[i] == key;
        assert lines[i] == Line(key, m.headers[key]);
      }
    }
    forall key | key in h ensures key in Sent(m) {
      var i :| 0 <= i < |lines| && lines[i].key == key;
      if i < n { assert lines[i].key == order[i]; } else { assert lines[i] == ContentLines(m)[i - n]; }
    }
  }

  lemma ContentArrives(kind: Kind, m: Message, order: seq<string>, start: Message)
    requires Writable(kind, m, order) && start.length == "0"
    ensures var r := InsertLines(kind, start, AllLines(m, order));
      if m.body == "" then r.length == "0" else r.length == m.length && r.contentType == m.contentType
  {
    hide LegalLines, LegalValue, Digits;
    var a, b := HeaderLines(m.headers, order), ContentLines(m);
    InsertLinesBoth(kind, start, a, b);
    InsertLinesKeeps(kind, start, a);
    var r := InsertLines(kind, start, a);
    if m.body != "" {
      InsertTwo(kind, r, b[0], b[1]);
      NotTheSame();
    }
  }

  lemma InsertTwo(kind: Kind, m: Message, a: Line, b: Line)
    ensures InsertLines(kind, m, [a, b]) == InsertHeader(kind, InsertHeader(kind, m, a.key, a.value), b.key, b.value)
  {
    hide InsertHeader;
    assert [a, b][1..] == [b] && [b][1..] == [];
    var m' := InsertHeader(kind, m, a.key, a.value);
    assert InsertLines(kind, m', [b]) == InsertLines(kind, InsertHeader(kind, m', b.key, b.value), []);
  }

  lemma NotTheSame()
    ensures !SameName(CONTENT_LENGTH, CONTENT_TYPE) && SameName(CONTENT_LENGTH, CONTENT_LENGTH) && SameName(CONTENT_TYPE, CONTENT_TYPE)
    ensures !SameName(CONTENT_TYPE, CONTENT_LENGTH)
  {
    assert |CONTENT_LENGTH| == 14 && |CONTENT_TYPE| == 12;
  }

  lemma StoulDigits(n: nat)
    requires n < SIZE
    ensures Stoul(Digits(n)) == Some(n)
  {
    hide NumberOf;
    var s := Digits(n);
    DigitsAreDigits(n);
    RunOf(s, "");
    assert s + "" == s && s[..|s|] == s;
    assert IsDigit(s[0]);
  }

  /** The number at the front of a length, with its sign: a minus turns it around at 64 bits, and what follows the digits does not matter. */
  lemma StoulSigned(sign: string, n: nat, rest: string)
    requires (sign == "" || sign == "+" || sign == "-") && (rest == "" || !IsDigit(rest[0]))
    ensures Stoul(sign + (Digits(n) + rest)) ==
      if n >= SIZE then None else Some(if sign == "-" then (SIZE - n) % SIZE else n)
  {
    hide NumberOf, Digits;
    var s, u := sign + (Digits(n) + rest), Digits(n) + rest;
    DigitsAreDigits(n);
    assert IsDigit(Digits(n)[0]) && u[0] == Digits(n)[0];
    assert sign == "" ==> s == u;
    assert sign != "" ==> s[0] == sign[0] && s[1..] == u;
    RunOf(Digits(n), rest);
    assert u[..|Digits(n)|] == Digits(n);
  }

  /** Without a digit behind the sign there is no length. */
  lemma StoulNeedsDigits(sign: string, rest: string)
    requires (sign == "" || sign == "+" || sign == "-") && (rest == "" || !IsDigit(rest[0]))
    requires sign == "" && rest != "" ==> rest[0] != '+' && rest[0] != '-'
    ensures Stoul(sign + rest) == None
  {
    assert sign == "" ==> sign + rest == rest;
    assert sign != "" ==> (sign + rest)[0] == sign[0] && (sign + rest)[1..] == rest;
  }

  /** The record behind the first line. */
  function AfterFirst(kind: Kind, m: Message): (r: Message) {
    if kind.Request? then EMPTY.(verb := m.verb, url := m.url, major := 1, minor := 1)
    else EMPTY.(status := m.status, major := 1, minor := 1)
  }

  lemma ScanText(kind: Kind, m: Message, order: seq<string>)
    requires Writable(kind, m, order) && HasLines(m)
    ensures var r := Scan(Fresh(kind), EMPTY, Text(kind, m, order));
      r.Done? && r.m == InsertLines(kind, AfterFirst(kind, m), AllLines(m, order)) && r.rest == m.body
  {
    hide Scan, LegalLines, InsertLines, LinesText, RequestLine, StatusLine;
    var lines := AllLines(m, order);
    var rest := LinesText(lines) + ("\r\n" + m.body);
    assert Text(kind, m, order) == FirstLine(kind, m) + rest;
    AllLinesLegal(kind, m, order);
    if kind.Request? { ScanRequestLine(m, rest); } else { ScanStatusLine(m, rest); }
    ScanHeader(Fresh(kind).(state := HEADER_KEY, prefix := 4), AfterFirst(kind, m), lines, m.body);
  }

  /** A legal message that is written is complete for the parser. */
  lemma TextComplete(kind: Kind, m: Message, order: seq<string>)
    requires Legal(kind, m, order)
    ensures Complete(Fresh(kind), EMPTY, Text(kind, m, order))
  {
    hide Scan, Text, LegalLines, InsertLines, AllLines, Digits, Stoul;
    ScanText(kind, m, order);
    var start := AfterFirst(kind, m);
    ContentArrives(kind, m, order, start);
    InsertLinesKeeps(kind, start, AllLines(m, order));
    var r := InsertLines(kind, start, AllLines(m, order));
    StoulDigits(|m.body|);
    NoLength();
    assert Fresh(kind).(prefix := 0) == Fresh(kind);
  }

  lemma NoLength()
    ensures "0" == Digits(0)
  {
  }

  /** Every part of a message that is sent is recovered by the parser. */
  lemma ComesBack(kind: Kind, m: Message, order: seq<string>)
    requires Legal(kind, m, order)
    ensures var o := Parse(Fresh(kind), EMPTY, Text(kind, m, order));
      o.result == FINISH && Recovered(kind, m, o.m)
  {
    hide Scan, Text, LegalLines, InsertLines, AllLines, Stoul, Digits, ProcessBody;
    ScanText(kind, m, order);
    TextComplete(kind, m, order);
    var r := Scan(Fresh(kind), EMPTY, Text(kind, m, order));
    var start := AfterFirst(kind, m);
    EndsFinished(r.p, r.m, r.rest);
    InsertLinesKeeps(kind, start, AllLines(m, order));
    ContentArrives(kind, m, order, start);
    HeadersArrive(kind, m, order, start);
    BodyArrives(r.p, r.m, r.rest);
  }

  predicate Recovered(kind: Kind, m: Message, r: Message) {
    (kind.Request? ==> r.verb == m.verb && r.url == m.url) &&
    (kind.Response? ==> r.status == m.status) &&
    r.major == 1 && r.minor == 1 && r.headers == Sent(m) && r.body == m.body &&
    (m.body != "" ==> r.length == m.length && r.contentType == m.contentType)
  }

  lemma BodyArrives(p: Parser, m: Message, rest: string)
    requires EndsWith(p, m, rest) && m.body == ""
    ensures var o := TakeBody(FINISH, p, m, rest); o.m == m.(body := rest, form := o.m.form)
  {
    hide Stoul;
    if HasBody(p, m) { MissingOf(Stoul(m.length).value, |m.body|); }
  }

  /** In pieces it is recovered if and only if none begins inside the protocol name. */
  lemma ComesBackInPieces(kind: Kind, m: Message, order: seq<string>, pieces: seq<string>)
    requires Legal(kind, m, order) && Concat(pieces) == Text(kind, m, order)
    requires pieces != [] && pieces[|pieces| - 1] != ""
    ensures
      var f := Feed(Fresh(kind), EMPTY, pieces);
      (FinishesLast(f.results) && Recovered(kind, m, f.m)) <==> SafelyCut(Fresh(kind), EMPTY, pieces)
  {
    hide Scan, Text, Legal, Parse, Feed, SafelyCut, Recovered, Complete;
    TextComplete(kind, m, order);
    assert Fresh(kind).(prefix := 0) == Fresh(kind);
    PiecesFinish(Fresh(kind), EMPTY, pieces);
    ComesBack(kind, m, order);
  }

  /** Without any header line the empty line is refused. */
  lemma NoHeaderRefused(kind: Kind, m: Message)
    requires !HasLines(m) && m.status in HttpMessage.STATUS_TEXT && (kind.Request? ==> LegalUrl(m.url))
    ensures Parse(Fresh(kind), EMPTY, Text(kind, m, [])).result == INVALID
  {
    hide LegalUrl, RequestLine, StatusLine, Scan, Step, TakeBody, Text;
    OnlyFirstLine(kind, m);
    if kind.Request? { ScanRequestLine(m, "\r\n"); } else { ScanStatusLine(m, "\r\n"); }
    EmptyLineRefused(Fresh(kind).(state := HEADER_KEY, prefix := 4), AfterFirst(kind, m));
    assert Fresh(kind).(prefix := 0) == Fresh(kind);
  }

  lemma OnlyFirstLine(kind: Kind, m: Message)
    requires !HasLines(m) && m.status in HttpMessage.STATUS_TEXT
    ensures OrderOf([], m.headers) && Text(kind, m, []) == FirstLine(kind, m) + "\r\n"
  {
    hide FirstLine;
    assert AllLines(m, []) == [];
  }

  /** A body that is sent with another method is dropped. */
  lemma BodyDropped(kind: Kind, m: Message, order: seq<string>)
    requires Writable(kind, m, order) && HasLines(m) && kind.Request? && m.verb != POST && m.verb != PUT
    ensures var o := Parse(Fresh(kind), EMPTY, Text(kind, m, order)); o.result == FINISH && o.m.body == ""
  {
    hide Scan, Text, LegalLines, InsertLines, AllLines, Stoul, Digits, ProcessBody;
    ScanText(kind, m, order);
    InsertLinesKeeps(kind, AfterFirst(kind, m), AllLines(m, order));
    assert Fresh(kind).(prefix := 0) == Fresh(kind);
  }

  /** A message with legal parts is recovered if and only if it has a header line and its body, if any, is read. */
  lemma RecoveredExactly(kind: Kind, m: Message, order: seq<string>)
    requires Writable(kind, m, order)
    ensures
      var o := Parse(Fresh(kind), EMPTY, Text(kind, m, order));
      (o.result == FINISH && Recovered(kind, m, o.m)) <==> Readable(kind, m)
  {
    hide Parse, Text, LegalLines, LegalValue, Unnamed;
    if Readable(kind, m) {
      ComesBack(kind, m, order);
    } else if HasLines(m) {
      BodyDropped(kind, m, order);
    } else {
      NoOrder(order, m.headers);
      NoHeaderRefused(kind, m);
    }
  }

  lemma EmptyLineRefused(p: Parser, m: Message)
    requires p.state == HEADER_KEY
    ensures Scan(p, m, "\r\n") == Stopped(INVALID, p, m)
  {
  }
}
