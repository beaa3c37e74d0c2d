/**
  Messages that arrive in pieces.  Every call counts the letters of the protocol
  name from the start again, so a piece must not begin behind the first of them and
  before the slash; every other way to cut a message makes no difference.
*/
module HttpPieces {
  import opened HttpMessage
  import opened HttpParser

  function Concat(pieces: seq<string>): (s: string) {
    if pieces == [] then "" else pieces[0] + Concat(pieces[1..])
  }

  datatype Fed = Fed(results: seq<Result>, p: Parser, m: Message)

  /** One call for each piece. */
  function Feed(p: Parser, m: Message, pieces: seq<string>): (f: Fed)
    ensures |f.results| == |pieces|
    decreases |pieces|
  {
    if pieces == [] then Fed([], p, m)
    else
      var o := Parse(p, m, pieces[0]);
      var f := Feed(o.p, o.m, pieces[1..]);
      f.(results := [o.result] + f.results)
  }

  // ------------------------------------------------------------------ complete messages

  /** Read at once, the message is exactly a header and the body its length announces. */
  predicate Complete(p: Parser, m: Message, msg: string) {
    p.state != BODY &&
    var r := Scan(p.(prefix := 0), m, msg);
    r.Done? && EndsWith(r.p, r.m, r.rest)
  }

  predicate EndsWith(p: Parser, m: Message, rest: string) {
    if HasBody(p, m) then Stoul(m.length) == Some(|m.body| + |rest|) else rest == ""
  }

  /** All calls but the last ask for more, and the last finishes. */
  predicate FinishesLast(results: seq<Result>) {
    results != [] && results[|results| - 1] == FINISH &&
    forall i :: 0 <= i < |results| - 1 ==> results[i] == PARTIAL
  }

  /** The parser stands behind a letter of the protocol name and before the slash. */
  predicate InsideName(p: Parser) {
    p.state == VERSION && p.prefix > 0
  }

  /** A cut at this offset of the message falls behind a letter of the protocol name and before the slash. */
  predicate CutsName(p: Parser, m: Message, msg: string, offset: nat) {
    offset <= |msg| && var r := Scan(p, m, msg[..offset]); r.Ran? && InsideName(r.p)
  }

  /** No piece but the first begins there. */
  ghost predicate SafelyCut(p: Parser, m: Message, pieces: seq<string>) {
    forall i :: 0 < i < |pieces| ==> !CutsName(p, m, Concat(pieces), |Concat(pieces[..i])|)
  }

  // ------------------------------------------------------------------ scanning in two parts

  lemma {:induction false} ScanSplit(p: Parser, m: Message, a: string, b: string)
    ensures Scan(p, m, a + b) ==
      match Scan(p, m, a)
      case Stopped(r, p', m') => Stopped(r, p', m')
      case Ran(p', m') => Scan(p', m', b)
      case Done(p', m', rest) => Done(p', m', rest + b)
    decreases |a|
  {
    hide Step;
    if a == "" {
      assert a + b == b;
    } else {
      assert (a + b)[1..] == a[1..] + b;
      var r := Step(p, m, a[0]);
      if r.Next? && r.p.state != BODY { ScanSplit(r.p, r.m, a[1..], b); }
    }
  }

  /** Equal but for the count of letters, which only matters inside the version. */
  predicate Alike(p: Parser, q: Parser) {
    p.(prefix := 0) == q.(prefix := 0)
  }

  predicate Same(p: Parser, q: Parser) {
    Alike(p, q) && (p.state == VERSION ==> p.prefix == q.prefix)
  }

  lemma StepSame(p: Parser, q: Parser, m: Message, c: char)
    requires Same(p, q)
    ensures var r, s := Step(p, m, c), Step(q, m, c);
      if r.Next? then s.Next? && r.m == s.m && Same(r.p, s.p) else r == s
  {
    hide StepMethod, StepUrlPath, StepQueryField, StepQueryValue, StepFragment, StepVersion, StepMajor, StepMinor,
      StepStatusCode, StepStatusText, StepHeader, StepHeaderKey, StepHeaderValueBegin, StepHeaderValue,
      StepHeaderNewline, StepHeaderFinish;
    if p.state == METHOD || p.state == URL_PATH || p.state == URL_FRAGMENT {
      SameInLine(p, q, m, c);
    } else if p.state == URL_QUERY_FIELD {
      SameInField(p, q, c);
    } else if p.state == URL_QUERY_VALUE {
      SameInValue(p, q, m.query, c);
    } else if p.state == VERSION || p.state == MAJOR_VERSION || p.state == MINOR_VERSION
           || p.state == STATUS_CODE || p.state == STATUS_TEXT {
      SameInVersion(p, q, m, c);
    } else if p.state != BODY {
      SameInHeader(p, q, m, c);
    }
  }

  lemma SameInLine(p: Parser, q: Parser, m: Message, c: char)
    requires Same(p, q) && (p.state == METHOD || p.state == URL_PATH || p.state == URL_FRAGMENT)
    ensures var r, s := Step(p, m, c), Step(q, m, c);
      if r.Next? then s.Next? && r.m == s.m && Same(r.p, s.p) else r == s
  {
    hide IsUpper, IsUrlChar, ToMethod;
  }

  lemma SameInField(p: Parser, q: Parser, c: char)
    requires Alike(p, q)
    ensures var r, s := StepQueryField(p, c), StepQueryField(q, c);
      if r.Some? then s.Some? && Alike(r.value, s.value) && (r.value.state == p.state || r.value.state == URL_QUERY_VALUE) else r == s
  {
    hide IsUrlChar;
  }

  lemma SameInValue(p: Parser, q: Parser, params: Params, c: char)
    requires Alike(p, q)
    ensures var r, s := StepQueryValue(p, params, c), StepQueryValue(q, params, c);
      if r.Some? then
        s.Some? && r.value.1 == s.value.1 && Alike(r.value.0, s.value.0) &&
        (r.value.0.state == VERSION && p.state != VERSION ==> r.value.0.prefix == s.value.0.prefix)
      else r == s
  {
    hide IsUrlChar, IsAlnum, HexChar, Insert;
    if p.hex.HEX_FINISHED? {
      if c == '&' || c == '#' || c == ' ' || c == '%' {
      } else {
      }
    }
  }

  lemma SameInVersion(p: Parser, q: Parser, m: Message, c: char)
    requires Same(p, q)
    requires p.state == VERSION || p.state == MAJOR_VERSION || p.state == MINOR_VERSION || p.state == STATUS_CODE
             || p.state == STATUS_TEXT
    ensures var r, s := Step(p, m, c), Step(q, m, c);
      if r.Next? then s.Next? && r.m == s.m && Same(r.p, s.p) else r == s
  {
    hide IsAlnum, ToStatus;
  }

  lemma SameInHeader(p: Parser, q: Parser, m: Message, c: char)
    requires Same(p, q)
    requires p.state == HEADER || p.state == HEADER_KEY || p.state == HEADER_VALUE_BEGIN || p.state == HEADER_VALUE
             || p.state == HEADER_NEWLINE || p.state == HEADER_FINISH
    ensures var r, s := Step(p, m, c), Step(q, m, c);
      if r.Next? then s.Next? && r.m == s.m && Same(r.p, s.p) else r == s
  {
    hide IsAlnum, IsPunct, InsertHeader;
    match p.state
    case HEADER_KEY => SameInKey(p, q, m, c);
    case HEADER_VALUE => SameInHeaderValue(p, q, m, c);
    case _ =>
  }

  lemma SameInKey(p: Parser, q: Parser, m: Message, c: char)
    requires Same(p, q) && p.state == HEADER_KEY
    ensures var r, s := Step(p, m, c), Step(q, m, c);
      if r.Next? then s.Next? && r.m == s.m && Same(r.p, s.p) else r == s
  {
    hide IsAlnum, IsPunct, InsertHeader;
  }

  lemma SameInHeaderValue(p: Parser, q: Parser, m: Message, c: char)
    requires Same(p, q) && p.state == HEADER_VALUE
    ensures var r, s := Step(p, m, c), Step(q, m, c);
      if r.Next? then s.Next? && r.m == s.m && Same(r.p, s.p) else r == s
  {
    hide IsAlnum, IsPunct, InsertHeader;
  }

  lemma {:induction false} ScanSame(p: Parser, q: Parser, m: Message, s: string)
    requires Same(p, q)
    ensures match Scan(p, m, s)
      case Stopped(r, p', m') => Scan(q, m, s).Stopped? && Scan(q, m, s).result == r
      case Ran(p', m') => Scan(q, m, s).Ran? && Scan(q, m, s).m == m' && Same(p', Scan(q, m, s).p)
      case Done(p', m', rest) =>
        var t := Scan(q, m, s); t.Done? && t.m == m' && t.rest == rest && Same(p', t.p)
    decreases |s|
  {
    hide Step;
    if s != "" {
      StepSame(p, q, m, s[0]);
      var r, t := Step(p, m, s[0]), Step(q, m, s[0]);
      if r.Next? && r.p.state != BODY { ScanSame(r.p, t.p, r.m, s[1..]); }
    }
  }

  lemma {:induction false} FormSame(p: Parser, q: Parser, params: Params, body: string, ok: bool)
    requires Alike(p, q)
    ensures var f, g := ScanForm(p, params, body, ok), ScanForm(q, params, body, ok);
      Alike(f.p, g.p) && f.params == g.params && f.ok == g.ok
    decreases |body|
  {
    hide StepQueryField, StepQueryValue;
    if body != "" && body[0] != '\0' {
      SameInField(p, q, body[0]);
      SameInValue(p, q, params, body[0]);
      var r, t := StepQueryField(p, body[0]), StepQueryField(q, body[0]);
      var v, w := StepQueryValue(p, params, body[0]), StepQueryValue(q, params, body[0]);
      if p.state == URL_QUERY_FIELD && r.Some? {
        FormSame(r.value, t.value, params, body[1..], true);
      } else if p.state == URL_QUERY_VALUE && v.Some? {
        FormSame(v.value.0, w.value.0, v.value.1, body[1..], true);
      }
    }
  }

  lemma ProcessSame(p: Parser, q: Parser, m: Message)
    requires Alike(p, q)
    ensures ProcessBody(p, m).1 == ProcessBody(q, m).1 && Alike(ProcessBody(p, m).0, ProcessBody(q, m).0)
  {
    hide ScanForm;
    FormSame(p.(state := URL_QUERY_FIELD), q.(state := URL_QUERY_FIELD), m.form, m.body, false);
  }

  lemma BodySame(result: Result, p: Parser, q: Parser, m: Message, rest: string)
    requires Alike(p, q)
    ensures var o, u := TakeBody(result, p, m, rest), TakeBody(result, q, m, rest);
      o.result == u.result && o.m == u.m && Alike(o.p, u.p)
  {
    hide ProcessBody, Stoul;
    ProcessSame(p, q, m.(body := m.body + rest));
  }

  // ------------------------------------------------------------------ bodies in pieces

  lemma ConcatLast(pieces: seq<string>)
    requires pieces != [] && pieces[|pieces| - 1] != ""
    ensures Concat(pieces) != ""
    decreases |pieces|
  {
    if |pieces| > 1 { ConcatLast(pieces[1..]); }
  }

  /** The same record as from the whole message, and a parser that goes on the same way. */
  predicate Agrees(f: Fed, o: Outcome) {
    FinishesLast(f.results) && f.m == o.m && Alike(f.p, o.p)
  }

  /** One more call in front that asked for more. */
  lemma OneMore(o: Outcome, f: Fed, whole: Outcome)
    requires o.result == PARTIAL && Agrees(f, whole)
    ensures Agrees(f.(results := [o.result] + f.results), whole)
  {
  }

  lemma MissingOf(n: nat, have: nat)
    requires n < SIZE
    ensures n == have ==> (n - have) % SIZE == 0
    ensures n > have ==> (n - have) % SIZE == n - have
  {
  }

  lemma TakeAll(result: Result, p: Parser, m: Message, rest: string)
    requires HasBody(p, m) && rest != "" && Stoul(m.length) == Some(|m.body| + |rest|)
    ensures var o := TakeBody(result, p, m, rest); o == TakeBody(FINISH, p, m, rest) && o.result == FINISH
  {
    hide ProcessBody, Stoul;
    MissingOf(Stoul(m.length).value, |m.body|);
  }

  /** A part of the body is kept, and the rest can be taken later. */
  lemma TakePart(result: Result, p: Parser, m: Message, a: string, b: string)
    requires HasBody(p, m) && b != "" && Stoul(m.length) == Some(|m.body| + |a| + |b|)
    ensures var m' := m.(body := m.body + a);
      TakeBody(result, p, m, a) == Outcome(PARTIAL, p, m') && TakeBody(FINISH, p, m', b) == TakeBody(FINISH, p, m, a + b)
  {
    hide ProcessBody, Stoul;
    MissingOf(Stoul(m.length).value, |m.body|);
    MissingOf(Stoul(m.length).value, |m.body| + |a|);
    assert m.body + a + b == m.body + (a + b);
  }

  lemma {:induction false} FeedBody(p: Parser, q: Parser, m: Message, pieces: seq<string>)
    requires p.state == BODY && Alike(p, q) && HasBody(p, m)
    requires pieces != [] && pieces[|pieces| - 1] != ""
    requires Stoul(m.length) == Some(|m.body| + |Concat(pieces)|)
    ensures Agrees(Feed(p, m, pieces), TakeBody(FINISH, q, m, Concat(pieces)))
    decreases |pieces|
  {
    hide ProcessBody, Stoul, TakeBody;
    var a, b := pieces[0], Concat(pieces[1..]);
    var r := if p.kind.Request? then p.(prefix := 0) else p;
    ConcatLast(pieces);
    if |pieces| == 1 {
      assert a + b == a;
      BodySame(PARTIAL, r, q, m, a);
      TakeAll(PARTIAL, q, m, a);
      assert Feed(p, m, pieces).results == [FINISH];
    } else {
      ConcatLast(pieces[1..]);
      TakePart(PARTIAL, r, m, a, b);
      TakePart(PARTIAL, q, m, a, b);
      var o := Parse(p, m, a);
      FeedBody(r, q, o.m, pieces[1..]);
      OneMore(o, Feed(o.p, o.m, pieces[1..]), TakeBody(FINISH, q, m, a + b));
    }
  }

  // ------------------------------------------------------------------ headers in pieces

  lemma {:induction false} ConcatSplit(pieces: seq<string>, i: nat)
    requires i <= |pieces|
    ensures Concat(pieces) == Concat(pieces[..i]) + Concat(pieces[i..])
    decreases i
  {
    if i > 0 {
      ConcatSplit(pieces[1..], i - 1);
      assert pieces[..i][1..] == pieces[1..][..i - 1] && pieces[i..] == pieces[1..][i - 1..];
      var a, b, c := pieces[0], Concat(pieces[..i][1..]), Concat(pieces[i..]);
      assert a + (b + c) == a + b + c;
    } else {
      assert pieces[..0] == [] && pieces[0..] == pieces;
      assert "" + Concat(pieces) == Concat(pieces);
    }
  }

  /** Cuts behind the first piece are cuts of what follows it. */
  lemma CutsBehind(p: Parser, m: Message, pieces: seq<string>, i: nat)
    requires 0 < i < |pieces| && Scan(p, m, pieces[0]).Ran?
    ensures var r := Scan(p, m, pieces[0]);
      CutsName(p, m, Concat(pieces), |Concat(pieces[..i])|)
      <==> CutsName(r.p, r.m, Concat(pieces[1..]), |Concat(pieces[1..][..i - 1])|)
  {
    hide Step;
    var a, rest := pieces[0], pieces[1..];
    ConcatSplit(pieces, i);
    ConcatSplit(rest, i - 1);
    assert pieces[..i][1..] == rest[..i - 1];
    var b := Concat(rest[..i - 1]);
    assert Concat(pieces)[..|a + b|] == a + b;
    assert Concat(rest)[..|b|] == b;
    ScanSplit(p, m, a, b);
  }

  lemma SafelyBehind(p: Parser, m: Message, pieces: seq<string>)
    requires |pieces| > 1 && Scan(p, m, pieces[0]).Ran?
    ensures var r := Scan(p, m, pieces[0]);
      SafelyCut(p, m, pieces) <==> !InsideName(r.p) && SafelyCut(r.p, r.m, pieces[1..])
  {
    hide Scan, CutsName, Concat;
    var r, rest := Scan(p, m, pieces[0]), pieces[1..];
    var first := CutsName(p, m, Concat(pieces), |Concat(pieces[..1])|);
    assert first == InsideName(r.p) by { FirstCut(p, m, pieces); }
    forall i | 0 < i < |pieces|
      ensures CutsName(p, m, Concat(pieces), |Concat(pieces[..i])|)
              <==> CutsName(r.p, r.m, Concat(rest), |Concat(rest[..i - 1])|)
    {
      CutsBehind(p, m, pieces, i);
    }
    if SafelyCut(p, m, pieces) {
      forall j | 0 < j < |rest| ensures !CutsName(r.p, r.m, Concat(rest), |Concat(rest[..j])|) {
        CutsBehind(p, m, pieces, j + 1);
      }
    } else if !InsideName(r.p) {
      var i :| 0 < i < |pieces| && CutsName(p, m, Concat(pieces), |Concat(pieces[..i])|);
      assert i != 1;
      CutsBehind(p, m, pieces, i);
    }
  }

  lemma FirstCut(p: Parser, m: Message, pieces: seq<string>)
    requires |pieces| > 1 && Scan(p, m, pieces[0]).Ran?
    ensures CutsName(p, m, Concat(pieces), |Concat(pieces[..1])|) == InsideName(Scan(p, m, pieces[0]).p)
  {
    hide Scan;
    assert pieces[..1] == [pieces[0]];
    assert Concat([pieces[0]]) == pieces[0];
    assert Concat(pieces)[..|pieces[0]|] == pieces[0];
  }

  /** A piece that begins inside the protocol name is refused. */
  lemma {:induction false} FeedBroken(p: Parser, q: Parser, m: Message, pieces: seq<string>)
    requires Alike(p, q) && InsideName(q) && Scan(q, m, Concat(pieces)).Done?
    ensures INVALID in Feed(p, m, pieces).results
    decreases |pieces|
  {
    hide TakeBody;
    var a, b := pieces[0], Concat(pieces[1..]);
    var o := Parse(p, m, a);
    if a == "" {
      assert a + b == b;
      FeedBroken(o.p, q, m, pieces[1..]);
    } else {
      assert (a + b)[0] == a[0];
      assert o.result == INVALID;
    }
    assert Feed(p, m, pieces).results == [o.result] + Feed(o.p, o.m, pieces[1..]).results;
  }

  lemma SafeAfterHeader(q: Parser, m: Message, pieces: seq<string>)
    requires pieces != [] && Scan(q, m, pieces[0]).Done?
    ensures SafelyCut(q, m, pieces)
  {
    hide Scan;
    forall i | 0 < i < |pieces| ensures !CutsName(q, m, Concat(pieces), |Concat(pieces[..i])|) {
      ConcatSplit(pieces, i);
      var b := Concat(pieces[..i][1..]);
      assert Concat(pieces)[..|pieces[0] + b|] == pieces[0] + b;
      ScanSplit(q, m, pieces[0], b);
    }
  }

  lemma EndsFinished(p: Parser, m: Message, rest: string)
    requires EndsWith(p, m, rest)
    ensures TakeBody(FINISH, p, m, rest).result == FINISH
  {
    hide ProcessBody, Stoul;
    if HasBody(p, m) && rest != "" { TakeAll(FINISH, p, m, rest); }
    if HasBody(p, m) { MissingOf(Stoul(m.length).value, |m.body|); }
  }

  lemma HeaderEnds(p: Parser, q: Parser, m: Message, pieces: seq<string>)
    requires Alike(p, q) && !InsideName(q) && q.state != BODY
    requires pieces != [] && pieces[|pieces| - 1] != "" && Scan(q, m, pieces[0]).Done?
    requires var d := Scan(q, m, Concat(pieces)); d.Done? && EndsWith(d.p, d.m, d.rest)
    ensures var d := Scan(q, m, Concat(pieces)); Agrees(Feed(p, m, pieces), TakeBody(FINISH, d.p, d.m, d.rest))
  {
    hide Scan, TakeBody, EndsWith, Agrees, HasBody;
    var a, b := pieces[0], Concat(pieces[1..]);
    ScanSplit(q, m, a, b);
    ScanSame(p.(prefix := 0), q, m, a);
    var r, s := Scan(q, m, a), Scan(p.(prefix := 0), m, a);
    assert Parse(p, m, a) == TakeBody(FINISH, s.p, r.m, r.rest);
    if |pieces| == 1 {
      assert r.rest + b == r.rest;
      OnePiece(p, s.p, r.p, m, r.m, r.rest, pieces);
    } else {
      MorePieces(p, s.p, r.p, m, r.m, r.rest, pieces);
    }
  }

  /** The header ends in the only piece. */
  lemma OnePiece(p: Parser, sp: Parser, rp: Parser, m: Message, rm: Message, rest: string, pieces: seq<string>)
    requires Alike(sp, rp) && |pieces| == 1 && Parse(p, m, pieces[0]) == TakeBody(FINISH, sp, rm, rest)
    requires EndsWith(rp, rm, rest)
    ensures Agrees(Feed(p, m, pieces), TakeBody(FINISH, rp, rm, rest))
  {
    hide TakeBody, EndsWith, Parse;
    BodySame(FINISH, sp, rp, rm, rest);
    EndsFinished(rp, rm, rest);
    assert Feed(p, m, pieces).results == [FINISH];
  }

  /** The header ends in the first piece, and the others belong to the body. */
  lemma MorePieces(p: Parser, sp: Parser, rp: Parser, m: Message, rm: Message, rest: string, pieces: seq<string>)
    requires Alike(sp, rp) && sp.state == BODY && |pieces| > 1 && pieces[|pieces| - 1] != ""
    requires Parse(p, m, pieces[0]) == TakeBody(FINISH, sp, rm, rest)
    requires EndsWith(rp, rm, rest + Concat(pieces[1..]))
    ensures Agrees(Feed(p, m, pieces), TakeBody(FINISH, rp, rm, rest + Concat(pieces[1..])))
  {
    hide TakeBody, Stoul, Parse, Concat;
    var b := Concat(pieces[1..]);
    var o := Parse(p, m, pieces[0]);
    BodySame(FINISH, sp, rp, rm, rest);
    EndsFinished(rp, rm, rest + b);
    ConcatLast(pieces[1..]);
    TakePart(FINISH, sp, rm, rest, b);
    TakePart(FINISH, rp, rm, rest, b);
    FeedBody(sp, rp, o.m, pieces[1..]);
    OneMore(o, Feed(o.p, o.m, pieces[1..]), TakeBody(FINISH, rp, rm, rest + b));
  }

  lemma {:induction false} FeedHeader(p: Parser, q: Parser, m: Message, pieces: seq<string>)
    requires Alike(p, q) && !InsideName(q) && q.state != BODY
    requires pieces != [] && pieces[|pieces| - 1] != ""
    requires var d := Scan(q, m, Concat(pieces)); d.Done? && EndsWith(d.p, d.m, d.rest)
    ensures var d := Scan(q, m, Concat(pieces));
      if SafelyCut(q, m, pieces) then Agrees(Feed(p, m, pieces), TakeBody(FINISH, d.p, d.m, d.rest))
      else INVALID in Feed(p, m, pieces).results
    decreases |pieces|
  {
    hide Step, TakeBody, SafelyCut, Stoul;
    var a, b := pieces[0], Concat(pieces[1..]);
    var o := Parse(p, m, a);
    var d, r := Scan(q, m, a + b), Scan(q, m, a);
    ScanSplit(q, m, a, b);
    ScanSame(p.(prefix := 0), q, m, a);
    var more := Feed(o.p, o.m, pieces[1..]);
    assert Feed(p, m, pieces).results == [o.result] + more.results;
    if r.Ran? {
      assert |pieces| > 1;
      SafelyBehind(q, m, pieces);
      if InsideName(r.p) {
        FeedBroken(o.p, r.p, r.m, pieces[1..]);
      } else {
        FeedHeader(o.p, r.p, r.m, pieces[1..]);
        if SafelyCut(q, m, pieces) { OneMore(o, more, TakeBody(FINISH, d.p, d.m, d.rest)); }
      }
    } else {
      SafeAfterHeader(q, m, pieces);
      HeaderEnds(p, q, m, pieces);
    }
  }

  // ------------------------------------------------------------------ the result

  /**
    A complete message in pieces, of which the last is not empty, is finished by the last piece and no sooner,
    with the record of the whole message, exactly if no piece begins inside the protocol name.
  */
  lemma PiecesFinish(p: Parser, m: Message, pieces: seq<string>)
    requires pieces != [] && pieces[|pieces| - 1] != "" && Complete(p, m, Concat(pieces))
    ensures var f, whole := Feed(p, m, pieces), Parse(p, m, Concat(pieces));
      whole.result == FINISH &&
      (FinishesLast(f.results) <==> SafelyCut(p.(prefix := 0), m, pieces)) &&
      (FinishesLast(f.results) ==> f.m == whole.m && Alike(f.p, whole.p)) &&
      (!FinishesLast(f.results) ==> INVALID in f.results)
  {
    hide Scan, TakeBody, Stoul, SafelyCut;
    var q := p.(prefix := 0);
    var d := Scan(q, m, Concat(pieces));
    EndsFinished(d.p, d.m, d.rest);
    FeedHeader(p, q, m, pieces);
    NotBoth(Feed(p, m, pieces).results);
  }

  lemma NotBoth(results: seq<Result>)
    ensures !(FinishesLast(results) && INVALID in results)
  {
  }

  // ------------------------------------------------------------------ where the name is

  /** In the version state the letters counted are the ones read last. */
  predicate NameRead(p: Parser, read: string) {
    p.state == VERSION ==> p.prefix <= 4 && p.prefix <= |read| && read[|read| - p.prefix..] == HTTP[..p.prefix]
  }

  lemma StepNameRead(p: Parser, m: Message, read: string, c: char)
    requires NameRead(p, read) && Step(p, m, c).Next?
    ensures NameRead(Step(p, m, c).p, read + [c])
  {
    hide InsertHeader, IsUrlChar, IsPunct, IsAlnum, ToMethod, ToStatus, HexChar;
    var r := Step(p, m, c);
    if p.state == VERSION {
      assert r.p.state == VERSION ==> HTTP[..r.p.prefix] == HTTP[..p.prefix] + [c];
    } else {
      assert r.p.state == VERSION ==> r.p.prefix == 0;
    }
  }

  lemma {:induction false} ScanNameRead(p: Parser, m: Message, read: string, s: string)
    requires NameRead(p, read) && Scan(p, m, s).Ran?
    ensures NameRead(Scan(p, m, s).p, read + s)
    decreases |s|
  {
    hide Step, NameRead;
    if s == "" {
      assert read + s == read;
    } else {
      StepNameRead(p, m, read, s[0]);
      var r := Step(p, m, s[0]);
      ScanNameRead(r.p, r.m, read + [s[0]], s[1..]);
      assert read + [s[0]] + s[1..] == read + s;
    }
  }

  /** An unsafe cut is right behind one to four letters of the protocol name. */
  lemma CutBehindLetters(p: Parser, m: Message, msg: string, offset: nat)
    requires p.prefix == 0 && CutsName(p, m, msg, offset)
    ensures exists k :: 1 <= k <= 4 && k <= offset && msg[offset - k..offset] == HTTP[..k]
  {
    hide Scan;
    ScanNameRead(p, m, "", msg[..offset]);
    var k := Scan(p, m, msg[..offset]).p.prefix;
    assert "" + msg[..offset] == msg[..offset];
    assert msg[offset - k..offset] == msg[..offset][offset - k..];
  }
}
