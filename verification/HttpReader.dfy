/** A parser object that is fed piece by piece. */
module HttpReader {
  import opened HttpMessage
  import opened HttpParser
  import opened HttpPieces

  class Reader {
    /** The members that live from call to call. */
    var parser: Parser

    constructor (kind: Kind)
      ensures parser == Fresh(kind)
    {
      parser := Fresh(kind);
    }

    /** One piece of a message. */
    method Parse(msg: string, req: Message) returns (result: Result, m: Message)
      modifies this
      ensures Outcome(result, parser, m) == HttpParser.Parse(old(parser), req, msg)
    {
      hide Step, TakeBody;
      m := req;
      if parser.state == BODY {
        if parser.kind.Request? { parser := parser.(prefix := 0); }
        result, m := ReadBody(PARTIAL, m, msg);
        return;
      }
      parser := parser.(prefix := 0);
      ghost var whole := Scan(parser, m, msg);
      var pos := 0;
      assert msg[pos..] == msg;
      while pos < |msg|
        invariant 0 <= pos <= |msg| && parser.state != BODY
        invariant Scan(parser, m, msg[pos..]) == whole
      {
        var c := msg[pos];
        assert msg[pos..][1..] == msg[pos + 1..];
        if parser.kind.Request? && c == '\0' { return PARTIAL, m; }
        match Step(parser, m, c) {
          case Refused => return INVALID, m;
          case Raised => return THROWN, m;
          case Next(p', m') =>
            parser, m := p', m';
            if parser.state == BODY {
              result, m := ReadBody(FINISH, m, msg[pos + 1..]);
              return;
            }
        }
        pos := pos + 1;
      }
      result := PARTIAL;
    }

    /** What is left of a piece goes to the body. */
    method ReadBody(reached: Result, req: Message, rest: string) returns (result: Result, m: Message)
      modifies this
      ensures Outcome(result, parser, m) == TakeBody(reached, old(parser), req, rest)
    {
      hide Stoul, ScanForm;
      m, result := req, reached;
      if HasBody(parser, m) {
        var length := Stoul(m.length);
        if length.None? { return THROWN, m; }
        var missing := (length.value - |m.body|) % SIZE;
        if missing > 0 {
          m := m.(body := m.body + rest);
          if |rest| == missing {
            if parser.kind.Request? && m.contentType == FORM_URLENCODED { m := ReadForm(m); }
            parser := parser.(state := Start(parser.kind));
            result := FINISH;
          } else if |rest| < missing {
            result := PARTIAL;
          }
        } else if rest != "" {
          m := m.(body := rest);
          parser := parser.(state := Start(parser.kind));
          result := FINISH;
        }
      }
      if result == FINISH && parser.kind.Request? { parser := parser.(state := METHOD); }
    }

    /** The body of a form fills the form data. */
    method ReadForm(req: Message) returns (m: Message)
      modifies this
      ensures (parser, m) == ParseFormData(old(parser), req)
    {
      hide StepQueryField, StepQueryValue;
      m := req;
      parser := parser.(state := URL_QUERY_FIELD);
      ghost var whole := ScanForm(parser, m.form, m.body, false);
      var pos, ok := 0, false;
      assert m.body[pos..] == m.body;
      while pos < |m.body| && m.body[pos] != '\0'
        invariant 0 <= pos <= |m.body| && m == req.(form := m.form)
        invariant ScanForm(parser, m.form, m.body[pos..], ok) == whole
      {
        var c := m.body[pos];
        assert m.body[pos..][1..] == m.body[pos + 1..];
        ok := false;
        if parser.state == URL_QUERY_FIELD {
          var r := StepQueryField(parser, c);
          if r.Some? { ok, parser := true, r.value; }
        } else if parser.state == URL_QUERY_VALUE {
          var r := StepQueryValue(parser, m.form, c);
          if r.Some? { ok, parser, m := true, r.value.0, m.(form := r.value.1); }
        }
        if !ok { break; }
        pos := pos + 1;
      }
      assert whole == Form(parser, m.form, ok);
      if ok && parser.field != "" { m := m.(form := Insert(m.form, parser.field, parser.queryValue)); }
      parser := parser.(field := "");
    }
  }
}
