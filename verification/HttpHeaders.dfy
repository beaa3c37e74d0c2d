/** Whole messages as any sender may write them: spaced and folded header lines, targets with queries, any version. */
module HttpHeaders {
  import opened Numerals
  import opened HttpMessage
  import opened HttpParser
  import opened HttpPieces
  import opened HttpWriter
  import opened HttpRoundTrip
  import opened Url

  // ------------------------------------------------------------------ header lines as sent

  predicate Blanks(s: string) {
    forall i :: 0 <= i < |s| ==> IsBlank(s[i])
  }

  predicate Spaces(s: string) {
    forall i :: 0 <= i < |s| ==> s[i] == ' '
  }

  /** A continued value: blanks, a line break, at least one blank and the next part of the value. */
  datatype Fold = Fold(pad: string, indent: string, part: string)

  /** A header line: the name may hold blanks, any number of blanks follow the colon and the value. */
  datatype SentLine = SentLine(name: string, gap: string, first: string, folds: seq<Fold>, pad: string)

  predicate LegalName(s: string) {
    s != "" && s[0] != ' ' && forall i :: 0 <= i < |s| ==> IsAlnum(s[i]) || s[i] == '-' || s[i] == ' '
  }

  /** Begins and ends visible. */
  predicate LegalPart(kind: Kind, s: string) {
    s != "" && Visible(kind, s[0]) && !IsBlank(s[|s| - 1]) &&
    forall i :: 0 <= i < |s| ==> Visible(kind, s[i]) || IsBlank(s[i])
  }

  predicate LegalFold(kind: Kind, f: Fold) {
    Blanks(f.pad) && Blanks(f.indent) && f.indent != "" && LegalPart(kind, f.part)
  }

  predicate LegalFolds(kind: Kind, folds: seq<Fold>) {
    forall i :: 0 <= i < |folds| ==> LegalFold(kind, folds[i])
  }

  predicate LegalSent(kind: Kind, l: SentLine) {
    LegalName(l.name) && Spaces(l.gap) && LegalValue(kind, l.first) && LegalFolds(kind, l.folds) && Blanks(l.pad)
  }

  function FoldText(f: Fold): (s: string) {
    f.pad + ("\r\n" + (f.indent + f.part))
  }

  function FoldsText(folds: seq<Fold>): (s: string) {
    if folds == [] then "" else FoldText(folds[0]) + FoldsText(folds[1..])
  }

  function Parts(folds: seq<Fold>): (s: string) {
    if folds == [] then "" else folds[0].part + Parts(folds[1..])
  }

  function SentText(l: SentLine): (s: string) {
    l.name + (":" + (l.gap + (l.first + (FoldsText(l.folds) + (l.pad + "\r\n")))))
  }

  function SentTexts(lines: seq<SentLine>): (s: string) {
    if lines == [] then "" else SentText(lines[0]) + SentTexts(lines[1..])
  }

  function NoSpaces(s: string): (r: string) {
    if s == "" then "" else (if s[0] == ' ' then "" else [s[0]]) + NoSpaces(s[1..])
  }

  /** What a line says: the name without its blanks, and the parts of the value one behind the other. */
  function LineOf(l: SentLine): (r: Line) {
    Line(NoSpaces(l.name), l.first + Parts(l.folds))
  }

  function LinesOf(lines: seq<SentLine>): (r: seq<Line>) {
    seq(|lines|, i requires 0 <= i < |lines| => LineOf(lines[i]))
  }

  predicate LegalSents(kind: Kind, lines: seq<SentLine>) {
    forall i :: 0 <= i < |lines| ==> LegalSent(kind, lines[i])
  }

  // ------------------------------------------------------------------ reading one line

  lemma NameStep(p: Parser, m: Message, c: char)
    requires p.state == HEADER_KEY && (IsAlnum(c) || c == '-' || c == ' ')
    ensures Step(p, m, c) == Next(p.(key := p.key + NoSpaces([c])), m) && c != '\0'
  {
    assert [c][1..] == "" && [c] + "" == [c] && p.key + "" == p.key;
  }

  lemma {:induction false} ScanName(p: Parser, m: Message, s: string)
    requires p.state == HEADER_KEY && forall i :: 0 <= i < |s| ==> IsAlnum(s[i]) || s[i] == '-' || s[i] == ' '
    ensures Scan(p, m, s) == Ran(p.(key := p.key + NoSpaces(s)), m)
    decreases |s|
  {
    hide Scan, Step, IsAlnum;
    if s == "" {
      ScanNothing(p, m);
      assert p.key + NoSpaces(s) == p.key;
    } else {
      NameStep(p, m, s[0]);
      assert s == [s[0]] + s[1..];
      ScanChar(p, m, s[0], s[1..]);
      ScanName(p.(key := p.key + NoSpaces([s[0]])), m, s[1..]);
      assert [s[0]][1..] == "" && NoSpaces([s[0]]) == if s[0] == ' ' then "" else [s[0]];
      assert p.key + NoSpaces([s[0]]) + NoSpaces(s[1..]) == p.key + NoSpaces(s);
    }
  }

  lemma {:induction false} ScanGap(p: Parser, m: Message, s: string)
    requires p.state == HEADER_VALUE_BEGIN && Spaces(s)
    ensures Scan(p, m, s) == Ran(p, m)
    decreases |s|
  {
    hide Scan;
    if s == "" {
      ScanNothing(p, m);
    } else {
      assert s == " " + s[1..];
      assert Step(p, m, ' ') == Next(p, m);
      ScanChar(p, m, ' ', s[1..]);
      ScanGap(p, m, s[1..]);
    }
  }

  lemma {:induction false} ScanBlanks(p: Parser, m: Message, s: string)
    requires p.state == HEADER_VALUE && Blanks(s)
    ensures Scan(p, m, s) == Ran(p.(blanks := p.blanks + s), m)
    decreases |s|
  {
    hide Scan;
    if s == "" {
      ScanNothing(p, m);
      assert p.blanks + s == p.blanks;
    } else {
      var q := p.(blanks := p.blanks + [s[0]]);
      assert s == [s[0]] + s[1..];
      assert Step(p, m, s[0]) == Next(q, m);
      ScanChar(p, m, s[0], s[1..]);
      ScanBlanks(q, m, s[1..]);
      assert p.blanks + [s[0]] + s[1..] == p.blanks + s;
    }
  }

  lemma PartBegins(p: Parser, m: Message, c: char)
    requires p.state == HEADER_VALUE && p.skipBlanks && Visible(p.kind, c)
    ensures Step(p, m, c) == Next(p.(value := p.value + [c], blanks := "", skipBlanks := false), m) && c != '\0'
  {
  }

  /** The next part follows the value at once, whatever blanks stand between them. */
  lemma ScanPart(p: Parser, m: Message, s: string)
    requires p.state == HEADER_VALUE && p.skipBlanks && LegalPart(p.kind, s)
    ensures Scan(p, m, s) == Ran(p.(value := p.value + s, blanks := "", skipBlanks := false), m)
  {
    hide Scan, Step, Visible;
    PartBegins(p, m, s[0]);
    assert s == [s[0]] + s[1..];
    var q := p.(value := p.value + [s[0]], blanks := "", skipBlanks := false);
    ScanChar(p, m, s[0], s[1..]);
    ScanStretch(q, m, s[1..]);
    assert p.value + [s[0]] + s[1..] == p.value + s;
  }

  lemma ScanStretch(p: Parser, m: Message, s: string)
    requires p.state == HEADER_VALUE && !p.skipBlanks && p.blanks == ""
    requires s != "" ==> !IsBlank(s[|s| - 1])
    requires forall i :: 0 <= i < |s| ==> Visible(p.kind, s[i]) || IsBlank(s[i])
    ensures Scan(p, m, s) == Ran(p.(value := p.value + s), m)
  {
    hide Scan, Visible;
    ScanValue(p, m, s);
    ScanNothing(p, m);
    var r := Scan(p, m, s).p;
    assert r.blanks == "";
    assert r.value + "" == r.value && p.value + "" + s == p.value + s;
  }

  lemma ScanIndent(p: Parser, m: Message, s: string)
    requires p.state == HEADER_NEWLINE && Blanks(s) && s != ""
    ensures Scan(p, m, s) == Ran(p.(state := HEADER_VALUE, skipBlanks := true, blanks := p.blanks + s[1..]), m)
  {
    hide Scan;
    assert s == [s[0]] + s[1..];
    assert Step(p, m, s[0]) == Next(p.(state := HEADER_VALUE, skipBlanks := true), m);
    ScanChar(p, m, s[0], s[1..]);
    ScanBlanks(p.(state := HEADER_VALUE, skipBlanks := true), m, s[1..]);
  }

  predicate InText(p: Parser) {
    p.state == HEADER_VALUE && !p.skipBlanks && p.blanks == ""
  }

  lemma ScanFold(p: Parser, m: Message, f: Fold, rest: string)
    requires InText(p) && LegalFold(p.kind, f)
    ensures Scan(p, m, FoldText(f) + rest) == Scan(p.(value := p.value + f.part), m, rest)
  {
    hide Scan, LegalPart, Blanks;
    var tail := f.indent + (f.part + rest);
    assert FoldText(f) + rest == f.pad + ("\r\n" + tail);
    ScanBlanks(p, m, f.pad);
    var q := p.(blanks := "" + f.pad);
    ScanThen(p, m, f.pad, q, m, "\r\n" + tail);
    ScanEnd(q, m, tail);
    var q1 := q.(state := HEADER_NEWLINE);
    ScanIndent(q1, m, f.indent);
    var q2 := q1.(state := HEADER_VALUE, skipBlanks := true, blanks := q1.blanks + f.indent[1..]);
    ScanThen(q1, m, f.indent, q2, m, f.part + rest);
    ScanPart(q2, m, f.part);
    var q3 := p.(value := p.value + f.part);
    assert q2.(value := p.value + f.part, blanks := "", skipBlanks := false) == q3;
    ScanThen(q2, m, f.part, q3, m, rest);
  }

  lemma {:induction false} ScanFolds(p: Parser, m: Message, folds: seq<Fold>, rest: string)
    requires InText(p) && LegalFolds(p.kind, folds)
    ensures Scan(p, m, FoldsText(folds) + rest) == Scan(p.(value := p.value + Parts(folds)), m, rest)
    decreases |folds|
  {
    hide Scan, LegalFold, FoldText;
    if folds == [] {
      assert "" + rest == rest && p.value + "" == p.value;
    } else {
      var f, more := folds[0], FoldsText(folds[1..]) + rest;
      assert FoldsText(folds) + rest == FoldText(f) + more;
      ScanFold(p, m, f, more);
      ScanFolds(p.(value := p.value + f.part), m, folds[1..], rest);
      assert p.value + f.part + Parts(folds[1..]) == p.value + Parts(folds);
    }
  }

  /** The parser behind a line that is still to be inserted, with the blanks that stood at its end. */
  function BehindSent(p: Parser, l: SentLine): (r: Parser) {
    p.(state := HEADER_NEWLINE, key := LineOf(l).key, value := LineOf(l).value, blanks := l.pad, skipBlanks := false)
  }

  lemma ScanSentValue(p: Parser, m: Message, l: SentLine, rest: string)
    requires p.state == HEADER_VALUE_BEGIN && !p.skipBlanks && LegalSent(p.kind, l) && p.key == LineOf(l).key
    ensures Scan(p, m, l.gap + (l.first + (FoldsText(l.folds) + (l.pad + ("\r\n" + rest))))) == Scan(BehindSent(p, l), m, rest)
  {
    hide Scan, LegalValue, LegalFolds, LegalName, FoldsText, Parts, Blanks, Spaces, NoSpaces;
    var end := FoldsText(l.folds) + (l.pad + ("\r\n" + rest));
    ScanGap(p, m, l.gap);
    ScanThen(p, m, l.gap, p, m, l.first + end);
    ScanFirst(p, m, l.first);
    var q := p.(state := HEADER_VALUE, value := l.first, blanks := "");
    ScanThen(p, m, l.first, q, m, end);
    ScanFolds(q, m, l.folds, l.pad + ("\r\n" + rest));
    var q1 := q.(value := l.first + Parts(l.folds));
    ScanBlanks(q1, m, l.pad);
    assert "" + l.pad == l.pad;
    ScanThen(q1, m, l.pad, q1.(blanks := l.pad), m, "\r\n" + rest);
    ScanEnd(q1.(blanks := l.pad), m, rest);
  }

  lemma ScanFirst(p: Parser, m: Message, s: string)
    requires p.state == HEADER_VALUE_BEGIN && !p.skipBlanks && LegalValue(p.kind, s)
    ensures Scan(p, m, s) == Ran(p.(state := HEADER_VALUE, value := s, blanks := ""), m)
  {
    hide Scan, Step, IsAlnum, IsPunct;
    ValueBegins(p, m, s[0]);
    VisibleIsNotControl(p.kind, s[0]);
    assert s == [s[0]] + s[1..];
    ScanChar(p, m, s[0], s[1..]);
    ScanStretch(p.(blanks := "", value := [s[0]], state := HEADER_VALUE), m, s[1..]);
  }

  /** A line whose first characters are read already. */
  lemma ScanSent(p: Parser, m: Message, l: SentLine, k: nat, rest: string)
    requires p.state == HEADER_KEY && !p.skipBlanks && LegalSent(p.kind, l)
    requires k <= |l.name| && p.key == NoSpaces(l.name[..k])
    ensures Scan(p, m, SentText(l)[k..] + rest) == Scan(BehindSent(p, l), m, rest)
  {
    hide Scan, LegalValue, LegalFolds, FoldsText, Parts, Blanks, Spaces, NoSpaces, IsAlnum;
    var value := l.gap + (l.first + (FoldsText(l.folds) + (l.pad + ("\r\n" + rest))));
    assert SentText(l)[k..] + rest == l.name[k..] + (":" + value);
    ScanName(p, m, l.name[k..]);
    NoSpacesBoth(l.name[..k], l.name[k..]);
    assert l.name[..k] + l.name[k..] == l.name;
    var q := p.(key := LineOf(l).key);
    ScanThen(p, m, l.name[k..], q, m, ":" + value);
    NotAlnum();
    ScanChar(q, m, ':', value);
    ScanSentValue(q.(state := HEADER_VALUE_BEGIN), m, l, rest);
  }

  lemma {:induction false} NoSpacesBoth(a: string, b: string)
    ensures NoSpaces(a + b) == NoSpaces(a) + NoSpaces(b)
    decreases |a|
  {
    if a == "" {
      assert a + b == b;
    } else {
      NoSpacesBoth(a[1..], b);
      assert (a + b)[1..] == a[1..] + b;
    }
  }

  // ------------------------------------------------------------------ the header

  lemma ScanSentNext(p: Parser, m: Message, l: SentLine, more: string)
    requires p.state == HEADER_NEWLINE && !p.skipBlanks && LegalSent(p.kind, l)
    ensures Scan(p, m, SentText(l) + more) == Scan(BehindSent(p, l), InsertHeader(p.kind, m, p.key, p.value), more)
  {
    hide Scan, InsertHeader, LegalValue, LegalFolds, Blanks, Spaces, SentText, LineOf;
    var c := l.name[0];
    assert IsAlnum(c) || c == '-';
    var q, m' := p.(key := [c], state := HEADER_KEY), InsertHeader(p.kind, m, p.key, p.value);
    NotAlnum();
    assert Step(p, m, c) == Next(q, m');
    assert SentText(l)[0] == c && |SentText(l)| > 0 by { SentBegins(l); }
    assert SentText(l) + more == [c] + (SentText(l)[1..] + more);
    ScanChar(p, m, c, SentText(l)[1..] + more);
    assert l.name[..1] == [c] && [c][1..] == "" && NoSpaces([c]) == [c] + "";
    ScanSent(q, m', l, 1, more);
    assert BehindSent(q, l) == BehindSent(p, l);
  }

  lemma SentBegins(l: SentLine)
    requires l.name != ""
    ensures |SentText(l)| > 0 && SentText(l)[0] == l.name[0]
  {
  }

  /** The parts of the parser that queries and forms use are the same. */
  predicate SameQuery(p: Parser, q: Parser) {
    p.kind == q.kind && p.field == q.field && p.queryValue == q.queryValue && p.hex == q.hex
  }

  lemma {:induction false} ScanSents(p: Parser, m: Message, first: SentLine, lines: seq<SentLine>, body: string)
    requires p.state == HEADER_NEWLINE && Line(p.key, p.value) == LineOf(first) && !p.skipBlanks && LegalSents(p.kind, lines)
    ensures var r := Scan(p, m, SentTexts(lines) + ("\r\n" + body));
      r.Done? && r.m == InsertLines(p.kind, m, [LineOf(first)] + LinesOf(lines)) && r.rest == body && SameQuery(p, r.p)
    decreases |lines|
  {
    hide Scan, LegalSent, InsertHeader, IsAlnum, IsPunct, SentText, LineOf;
    var m' := InsertHeader(p.kind, m, p.key, p.value);
    assert ([LineOf(first)] + LinesOf(lines))[1..] == LinesOf(lines);
    if lines == [] {
      assert SentTexts(lines) + ("\r\n" + body) == "\r\n" + body;
      ScanFinish(p, m, body);
    } else {
      var l, more := lines[0], SentTexts(lines[1..]) + ("\r\n" + body);
      assert SentTexts(lines) + ("\r\n" + body) == SentText(l) + more;
      ScanSentNext(p, m, l, more);
      ScanSents(BehindSent(p, l), m', l, lines[1..], body);
      assert [LineOf(l)] + LinesOf(lines[1..]) == LinesOf(lines);
    }
  }

  /** Every header that has a line is read: each line is inserted with what it says. */
  lemma HeaderRead(p: Parser, m: Message, lines: seq<SentLine>, body: string)
    requires p.state == HEADER_KEY && p.key == "" && !p.skipBlanks && lines != [] && LegalSents(p.kind, lines)
    ensures var r := Scan(p, m, SentTexts(lines) + ("\r\n" + body));
      r.Done? && r.m == InsertLines(p.kind, m, LinesOf(lines)) && r.rest == body && SameQuery(p, r.p)
  {
    hide Scan, LegalSent, InsertHeader, SentText, InsertLines, LineOf;
    var l, more := lines[0], SentTexts(lines[1..]) + ("\r\n" + body);
    assert SentTexts(lines) + ("\r\n" + body) == SentText(l) + more;
    assert SentText(l)[0..] == SentText(l) && l.name[..0] == "";
    assert LegalSent(p.kind, l);
    ScanSent(p, m, l, 0, more);
    ScanSents(BehindSent(p, l), m, l, lines[1..], body);
    assert [LineOf(l)] + LinesOf(lines[1..]) == LinesOf(lines);
  }

  // ------------------------------------------------------------------ the copied values

  /** The value of the last line of a name, or what was there before. */
  function LastNamed(lines: seq<Line>, name: string, before: string): (v: string) {
    if lines == [] then before
    else if SameName(lines[|lines| - 1].key, name) then lines[|lines| - 1].value
    else LastNamed(lines[..|lines| - 1], name, before)
  }

  /** The value of the first line of exactly this name. */
  function FirstNamed(lines: seq<Line>, key: string): (v: Option<string>) {
    if lines == [] then None
    else if lines[0].key == key then Some(lines[0].value)
    else FirstNamed(lines[1..], key)
  }

  lemma NamesApart(key: string)
    ensures SameName(key, CONTENT_TYPE) ==> !SameName(key, CONTENT_LENGTH) && !SameName(key, CONTENT_MD5) && !SameName(key, HOST)
    ensures SameName(key, CONTENT_LENGTH) ==> !SameName(key, CONTENT_MD5) && !SameName(key, HOST)
    ensures SameName(key, CONTENT_MD5) ==> !SameName(key, HOST)
  {
    assert LowerChar(CONTENT_TYPE[8]) == 't' && LowerChar(CONTENT_LENGTH[8]) == 'l' && LowerChar(CONTENT_MD5[8]) == 'm';
    assert |CONTENT_TYPE| == 12 && |CONTENT_LENGTH| == 14 && |CONTENT_MD5| == 11 && |HOST| == 4;
  }

  lemma InsertCopies(kind: Kind, m: Message, l: Line)
    ensures var r := InsertHeader(kind, m, l.key, l.value);
      r.contentType == (if SameName(l.key, CONTENT_TYPE) then l.value else m.contentType) &&
      r.length == (if SameName(l.key, CONTENT_LENGTH) then l.value else m.length) &&
      r.md5 == (if SameName(l.key, CONTENT_MD5) then l.value else m.md5) &&
      r.host == (if SameName(l.key, HOST) && kind.Request? then l.value else m.host)
  {
    hide SameName;
    NamesApart(l.key);
  }

  /** Type, length, digest and host are those of the last line of that name in any case; only a request has a host. */
  lemma {:induction false} CopiedFromLast(kind: Kind, m: Message, lines: seq<Line>)
    ensures var r := InsertLines(kind, m, lines);
      r.contentType == LastNamed(lines, CONTENT_TYPE, m.contentType) &&
      r.length == LastNamed(lines, CONTENT_LENGTH, m.length) &&
      r.md5 == LastNamed(lines, CONTENT_MD5, m.md5) &&
      r.host == if kind.Request? then LastNamed(lines, HOST, m.host) else m.host
    decreases |lines|
  {
    hide SameName, InsertHeader;
    if lines != [] {
      var front, l := lines[..|lines| - 1], lines[|lines| - 1];
      assert lines == front + [l];
      InsertLinesBoth(kind, m, front, [l]);
      CopiedFromLast(kind, m, front);
      var m' := InsertLines(kind, m, front);
      assert [l][1..] == [];
      InsertCopies(kind, m', l);
    }
  }

  /** The map holds the value of the first line of a name, and no name that is not sent. */
  lemma {:induction false} FirstKept(kind: Kind, m: Message, lines: seq<Line>, key: string)
    ensures var h := InsertLines(kind, m, lines).headers;
      (if key in h then Some(h[key]) else None) == if key in m.headers then Some(m.headers[key]) else FirstNamed(lines, key)
    decreases |lines|
  {
    if lines != [] {
      FirstKept(kind, InsertHeader(kind, m, lines[0].key, lines[0].value), lines[1..], key);
    }
  }

  // ------------------------------------------------------------------ what is refused

  /** Which characters may come in which state. */
  predicate Accepts(p: Parser, c: char) {
    match p.state
    case METHOD => IsUpper(c) || c == ' '
    case URL_PATH => IsUrlChar(c) || c == ' '
    case URL_QUERY_FIELD => IsUrlChar(c) && c != '?'
    case URL_QUERY_VALUE => if p.hex.HEX_FINISHED? then (IsUrlChar(c) && c != '?') || c == '%' || c == ' ' else IsAlnum(c)
    case URL_FRAGMENT => IsUrlChar(c) || c == ' '
    case VERSION => if p.prefix < 4 then c == "HTTP"[p.prefix] else c == '/'
    case MAJOR_VERSION => IsDigit(c) || c == '.'
    case MINOR_VERSION => IsDigit(c) || c == if p.kind.Request? then '\r' else ' '
    case STATUS_CODE => IsDigit(c) || (c == ' ' && ToStatus(p.status) != None)
    case STATUS_TEXT => IsAlnum(c) || c == ' ' || c == '\r'
    case HEADER => c == '\n'
    case HEADER_KEY => IsAlnum(c) || c == '-' || c == ':' || c == ' '
    case HEADER_VALUE_BEGIN => '!' <= c <= '~' || c == ' '
    case HEADER_VALUE => '!' <= c <= '~' || c == ' ' || c == '\t' || c == '\r' || (p.kind.Response? && IsUtf8(c))
    case HEADER_NEWLINE => '!' <= c <= '~' || c == ' ' || c == '\t' || c == '\r' || c == '\n'
    case HEADER_FINISH => c == '\n'
    case BODY => false
  }

  lemma QueryAccepts(p: Parser, params: Params, c: char)
    ensures StepQueryField(p, c).Some? <==> IsUrlChar(c) && c != '?'
    ensures StepQueryValue(p, params, c).Some? <==>
      if p.hex.HEX_FINISHED? then (IsUrlChar(c) && c != '?') || c == '%' || c == ' ' else IsAlnum(c)
  {
    assert IsUrlChar('=') && IsUrlChar('&') && IsUrlChar('#') && IsUrlChar('+') by {
      assert URL_SPECIAL_CHAR[21] == '=' && URL_SPECIAL_CHAR[13] == '&' && URL_SPECIAL_CHAR[7] == '#' && URL_SPECIAL_CHAR[18] == '+';
    }
  }

  /** A character is taken if and only if it may come; a code that is not known throws, and everything else is refused. */
  lemma AcceptedExactly(p: Parser, m: Message, c: char)
    ensures Step(p, m, c).Next? <==> Accepts(p, c)
    ensures Step(p, m, c).Raised? <==> p.state == STATUS_CODE && c == ' ' && ToStatus(p.status) == None
  {
    hide IsUrlChar, StepQueryField, StepQueryValue, ToStatus, InsertHeader;
    QueryAccepts(p, m.query, c);
    QuestionIsUrlChar();
  }

  lemma QuestionIsUrlChar()
    ensures IsUrlChar('?')
  {
    assert URL_SPECIAL_CHAR[6] == '?';
  }

  // ------------------------------------------------------------------ bodies of another length

  /** A body without a length, or behind one that was complete, is taken as it comes. */
  lemma BodyWithoutLength(result: Result, p: Parser, m: Message, rest: string)
    requires HasBody(p, m) && Stoul(m.length) == Some(|m.body|) && rest != ""
    ensures var o := TakeBody(result, p, m, rest); o.result == FINISH && o.m == m.(body := rest) && o.p.state == Start(p.kind)
  {
    hide Stoul;
    MissingOf(|m.body|, |m.body|);
  }

  /** A body that is longer than its length is taken whole, without being read as a form, and ends the call as its header did. */
  lemma BodyTooLong(result: Result, p: Parser, m: Message, rest: string)
    requires HasBody(p, m) && Stoul(m.length).Some? && |m.body| < Stoul(m.length).value < |m.body| + |rest|
    ensures var o := TakeBody(result, p, m, rest); o.result == result && o.m == m.(body := m.body + rest)
  {
    hide Stoul;
    MissingOf(Stoul(m.length).value, |m.body|);
  }

  /** A length that is not a number throws. */
  lemma LengthThrows(result: Result, p: Parser, m: Message, rest: string)
    requires HasBody(p, m) && Stoul(m.length) == None
    ensures TakeBody(result, p, m, rest) == Outcome(THROWN, p, m)
  {
    hide Stoul;
  }

  // ------------------------------------------------------------------ whole messages

  /** What comes before the header of a request. */
  datatype RequestHead = RequestHead(verb: Method, url: string, pairs: seq<Pair>, fragment: string, major: char, minor: char)

  /** A fragment is only told from the path behind a query. */
  ghost predicate LegalHead(h: RequestHead) {
    LegalUrl(h.url) && LegalPairs(h.pairs) && LegalFragment(h.fragment) && (h.pairs == [] ==> h.fragment == "") &&
    IsDigit(h.major) && IsDigit(h.minor)
  }

  function HeadText(h: RequestHead): (s: string) {
    MethodText(h.verb) + (" " + ((if h.pairs == [] then h.url + " " else TargetText(h.url, h.pairs, h.fragment)) +
    (VersionText(h.major, h.minor) + "\r\n")))
  }

  function HeadOf(h: RequestHead): (m: Message) {
    EMPTY.(verb := h.verb, url := h.url, query := InsertPairs(map[], h.pairs), fragment := h.fragment,
           major := DigitValue(h.major), minor := DigitValue(h.minor))
  }

  lemma ScanTarget(p: Parser, m: Message, h: RequestHead)
    requires p.state == URL_PATH && p.kind == Request && p.hex == HEX_FINISHED && p.queryValue == "" && p.field == ""
    requires m.url == "" && m.fragment == "" && m.query == map[] && LegalHead(h)
    ensures var r := Scan(p, m, if h.pairs == [] then h.url + " " else TargetText(h.url, h.pairs, h.fragment));
      r.Ran? && r.m == m.(url := h.url, query := InsertPairs(map[], h.pairs), fragment := h.fragment) &&
      r.p == p.(state := VERSION, prefix := 0, hexText := r.p.hexText)
  {
    hide Scan, Step, LegalUrl, LegalPairs, LegalFragment, TargetText, InsertPairs;
    if h.pairs == [] {
      ScanUrl(p, m, h.url);
      assert "" + h.url == h.url;
      var m' := m.(url := h.url);
      ScanThen(p, m, h.url, p, m', " ");
      BlankEndsUrl(p, m');
      ScanOne(p, m', ' ');
      NoPairs(map[]);
    } else {
      TargetRecovered(p, m, h.url, h.pairs, h.fragment);
    }
  }

  lemma ScanHead(h: RequestHead, rest: string) returns (p: Parser)
    requires LegalHead(h)
    ensures Scan(Fresh(Request), EMPTY, HeadText(h) + rest) == Scan(p, HeadOf(h), rest)
    ensures SameQuery(Fresh(Request), p) && p.state == HEADER_KEY && p.key == "" && !p.skipBlanks
  {
    hide Scan, Step, MethodText, VersionText, InsertPairs, TargetText, DigitValue, LegalUrl, LegalPairs, LegalFragment;
    var q, m := Fresh(Request).(state := URL_PATH), EMPTY.(verb := h.verb);
    var target := if h.pairs == [] then h.url + " " else TargetText(h.url, h.pairs, h.fragment);
    var version := VersionText(h.major, h.minor) + ("\r\n" + rest);
    assert HeadText(h) + rest == MethodText(h.verb) + (" " + (target + version));
    ScanVerbText(h.verb, target + version);
    ScanTarget(q, m, h);
    var r := Scan(q, m, target);
    ScanThen(q, m, target, r.p, r.m, version);
    ScanVersionText(r.p, r.m, h.major, h.minor, "\r\n" + rest);
    p := r.p.(state := MINOR_VERSION, prefix := 4);
    ScanLineEnd(p, HeadOf(h), rest);
    p := p.(state := HEADER_KEY, key := "", value := "", status := "");
  }

  /** The body fits: it has the length that was sent, and a request that takes no body has none. */
  predicate Fits(kind: Kind, verb: Method, lines: seq<Line>, body: string) {
    if kind.Response? || verb == POST || verb == PUT then Stoul(LastNamed(lines, CONTENT_LENGTH, "0")) == Some(|body|)
    else body == ""
  }

  /** What a parser has read when it comes to the form. */
  function Whole(kind: Kind, head: Message, lines: seq<Line>, body: string): (m: Message) {
    InsertLines(kind, head, lines).(body := body)
  }

  /** The call finishes; a parser of responses that read no body does not start over. */
  lemma BodyRead(kind: Kind, head: Message, lines: seq<Line>, body: string, p: Parser)
    requires p.kind == kind && p.state == BODY && head.body == "" && head.length == "0" && Fits(kind, head.verb, lines, body)
    ensures var o := TakeBody(FINISH, p, InsertLines(kind, head, lines), body);
      var m := Whole(kind, head, lines, body);
      o.result == FINISH && o.m == (if body == "" then m else ProcessBody(p, m).1) &&
      (o.p.state == Start(kind) <==> kind.Request? || body != "")
  {
    hide InsertLines, Stoul, LastNamed, ProcessBody;
    var m := InsertLines(kind, head, lines);
    InsertLinesKeeps(kind, head, lines);
    CopiedFromLast(kind, head, lines);
    MissingOf(|body|, 0);
    assert "" + body == body;
  }

  /** A request, however it is written, is read as what it says, and the parser is ready for the next one. */
  lemma RequestRead(h: RequestHead, lines: seq<SentLine>, body: string)
    requires LegalHead(h) && lines != [] && LegalSents(Request, lines) && Fits(Request, h.verb, LinesOf(lines), body)
    ensures var o := Parse(Fresh(Request), EMPTY, HeadText(h) + (SentTexts(lines) + ("\r\n" + body)));
      var m := Whole(Request, HeadOf(h), LinesOf(lines), body);
      o.result == FINISH && o.p.state == METHOD && o.m == m.(form := o.m.form) &&
      (body == "" || m.contentType != FORM_URLENCODED ==> o.m.form == map[])
  {
    hide Scan, LegalHead, HeadText, SentTexts, LegalSents, LinesOf, Fits, InsertPairs, TakeBody, InsertLines;
    var p := RequestScanned(h, lines, body);
    InsertLinesKeeps(Request, HeadOf(h), LinesOf(lines));
    BodyRead(Request, HeadOf(h), LinesOf(lines), body, p);
  }

  lemma RequestScanned(h: RequestHead, lines: seq<SentLine>, body: string) returns (p: Parser)
    requires LegalHead(h) && lines != [] && LegalSents(Request, lines)
    ensures SameQuery(Fresh(Request), p) && p.state == BODY
    ensures Parse(Fresh(Request), EMPTY, HeadText(h) + (SentTexts(lines) + ("\r\n" + body))) ==
      TakeBody(FINISH, p, InsertLines(Request, HeadOf(h), LinesOf(lines)), body)
  {
    hide Scan, LegalHead, HeadText, SentTexts, LegalSents, LinesOf, InsertPairs, TakeBody, InsertLines;
    var rest := SentTexts(lines) + ("\r\n" + body);
    var q := ScanHead(h, rest);
    HeaderRead(q, HeadOf(h), lines, body);
    assert Fresh(Request).(prefix := 0) == Fresh(Request);
    p := Scan(q, HeadOf(h), rest).p;
  }

  /** A form that is sent is read as the parameters it was written from, but for a last one without a name. */
  lemma FormRead(h: RequestHead, lines: seq<SentLine>, pairs: seq<Pair>)
    requires LegalHead(h) && (h.verb == POST || h.verb == PUT) && lines != [] && LegalSents(Request, lines)
    requires pairs != [] && LegalPairs(pairs) && Fits(Request, h.verb, LinesOf(lines), QueryText(pairs))
    requires LastNamed(LinesOf(lines), CONTENT_TYPE, "") == FORM_URLENCODED
    ensures var body := QueryText(pairs);
      var o := Parse(Fresh(Request), EMPTY, HeadText(h) + (SentTexts(lines) + ("\r\n" + body)));
      var n := |pairs| - 1;
      o.result == FINISH && o.m == Whole(Request, HeadOf(h), LinesOf(lines), body).(
        form := InsertPairs(map[], if pairs[n].key == "" then pairs[..n] else pairs))
  {
    hide Scan, LegalHead, HeadText, SentTexts, LegalSents, LinesOf, Fits, InsertPairs, TakeBody, InsertLines, QueryText, LegalPairs,
      LastNamed, ParseFormData, Url.Behind;
    var body := QueryText(pairs);
    var p := RequestScanned(h, lines, body);
    InsertLinesKeeps(Request, HeadOf(h), LinesOf(lines));
    CopiedFromLast(Request, HeadOf(h), LinesOf(lines));
    BodyRead(Request, HeadOf(h), LinesOf(lines), body, p);
    QueryNotEmpty(pairs);
    NothingLeft(pairs);
    FormRecovered(p, Whole(Request, HeadOf(h), LinesOf(lines), body), pairs);
  }

  /**
    A response with any known code, any text behind it and any version is read as what it says.
    The parser is ready for the next response if and only if there was a body.
  */
  lemma ResponseRead(code: nat, text: string, major: char, minor: char, lines: seq<SentLine>, body: string)
    requires code in HttpMessage.STATUS_TEXT && StatusText(text) && IsDigit(major) && IsDigit(minor)
    requires lines != [] && LegalSents(Response, lines) && Fits(Response, UNKNOWN, LinesOf(lines), body)
    ensures
      var head := EMPTY.(status := code, major := DigitValue(major), minor := DigitValue(minor));
      var first := VersionText(major, minor) + (" " + (Digits(code) + (" " + (text + "\r\n"))));
      var o := Parse(Fresh(Response), EMPTY, first + (SentTexts(lines) + ("\r\n" + body)));
      o.result == FINISH && o.m == Whole(Response, head, LinesOf(lines), body) && (o.p.state == VERSION <==> body != "")
  {
    hide Scan, SentTexts, LegalSents, LinesOf, Fits, TakeBody, Whole, StatusText, Digits, VersionText, DigitValue, IsDigit;
    var rest := SentTexts(lines) + ("\r\n" + body);
    var head := EMPTY.(status := code, major := DigitValue(major), minor := DigitValue(minor));
    var first := VersionText(major, minor) + (" " + (Digits(code) + (" " + (text + "\r\n"))));
    assert first + rest == VersionText(major, minor) + (" " + (Digits(code) + (" " + (text + ("\r\n" + rest)))));
    ScanStatusText(major, minor, code, text, rest);
    var p := Fresh(Response).(state := HEADER_KEY, prefix := 4);
    HeaderRead(p, head, lines, body);
    assert Fresh(Response).(prefix := 0) == Fresh(Response);
    BodyRead(Response, head, LinesOf(lines), body, Scan(p, head, rest).p);
  }
}
