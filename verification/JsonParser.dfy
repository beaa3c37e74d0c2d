/** The parser as it runs: a cursor into the text and the builder behind it. */
module JsonParser {
  import opened Json
  import opened Numerals
  import opened JsonText
  import opened JsonBuilder
  import opened JsonRoundTrip
  import opened JsonExact

  lemma ConsTwice(a: string, b: string, r: Parsed<string>)
    ensures Cons(a, Cons(b, r)) == Cons(a + b, r) && Cons("", r) == r
  {
    if r.Good? {
      assert a + (b + r.value) == a + b + r.value;
      assert "" + r.value == r.value;
    }
  }

  /** Values in front of those that are still to come. */
  ghost function Ahead<T>(got: seq<T>, r: Parsed<seq<T>>): (q: Parsed<seq<T>>) {
    if r.Bad? then Bad else r.(value := got + r.value)
  }

  lemma AheadTwice<T>(got: seq<T>, x: T, r: Parsed<seq<T>>)
    ensures Ahead(got, Before(x, r)) == Ahead(got + [x], r)
  {
    if r.Good? {
      assert got + ([x] + r.value) == got + [x] + r.value;
    }
  }

  lemma AheadNone<T>(r: Parsed<seq<T>>)
    ensures Ahead([], r) == r
  {
    if r.Good? { assert [] + r.value == r.value; }
  }

  lemma {:induction false} ItemEventsBehind(got: seq<Value>, v: Value)
    ensures ItemEvents(got + [v]) == ItemEvents(got) + Events(v)
    decreases |got|
  {
    hide Events;
    if got == [] {
      assert got + [v] == [v];
    } else {
      ItemEventsBehind(got[1..], v);
      assert (got + [v])[1..] == got[1..] + [v];
      var a, b, c := Events(got[0]), ItemEvents(got[1..]), Events(v);
      assert a + (b + c) == a + b + c;
    }
  }

  lemma {:induction false} MemberEventsBehind(got: seq<Member>, m: Member)
    ensures MemberEvents(got + [m]) == MemberEvents(got) + ([Key(m.key)] + Events(m.value))
    decreases |got|
  {
    hide Events;
    if got == [] {
      assert got + [m] == [m];
    } else {
      MemberEventsBehind(got[1..], m);
      assert (got + [m])[1..] == got[1..] + [m];
      var a, b, c := [Key(got[0].key)] + Events(got[0].value), MemberEvents(got[1..]), [Key(m.key)] + Events(m.value);
      assert a + (b + c) == a + b + c;
    }
  }

  lemma FeedNothing(b: Builder)
    ensures Feed(b, []) == b && Feed(b, ItemEvents([])) == b && Feed(b, MemberEvents([])) == b
  {
  }

  lemma KeepsOpen(b: Builder, v: Value)
    requires Open(b)
    ensures var r := Feed(b, Events(v)); Open(r) && r.stack == b.stack
  {
    Builds(b, v);
    StaysOpen(b, Normal(v), Feed(b, Events(v)));
  }

  lemma NoEscape()
    ensures Unescaped('u') == ""
  {
  }

  class Parser {
    /** The text from the cursor on. */
    var cursor: string
    var value: Value
    var stack: seq<Path>
    var key: string

    constructor ()
      ensures stack == []
    {
      cursor, value, stack, key := "", Null, [], "";
    }

    function State(): (b: Builder)
      reads this
    {
      Builder(value, stack, key)
    }

    // ---------------------------------------------------------------- the cursor

    method SkipWhitespace() returns (c: char)
      modifies `cursor
      ensures cursor == Skip(old(cursor)) && c == Peek(cursor)
    {
      while cursor != "" && IsSpace(cursor[0])
        invariant Skip(cursor) == Skip(old(cursor))
        decreases |cursor|
      {
        cursor := cursor[1..];
      }
      c := Peek(cursor);
    }

    method NextChar() returns (c: char)
      modifies `cursor
      ensures cursor == Advance(old(cursor)) && c == Peek(cursor)
    {
      cursor := Advance(cursor);
      c := Peek(cursor);
    }

    // ---------------------------------------------------------------- callbacks

    method OnBegin(empty: Value)
      requires Open(State()) && (empty == Object([]) || empty == Array([]))
      modifies `value, `stack
      ensures State() == Handle(old(State()), if empty.Object? then BeginObject else BeginArray)
      ensures Open(State()) && stack != []
    {
      ghost var was := State();
      if stack == [] {
        value := empty;
        stack := [[]];
      } else {
        var p := stack[|stack| - 1];
        var top := GetAt(value, p);
        var step := if top.Object? then Field(key) else Item(|top.items|);
        value := SetAt(value, p, WithChild(top, step, empty));
        stack := stack + [p + [step]];
      }
      PlacedTwice(was, empty, empty);
    }

    method OnObjectKey(k: string)
      modifies `key
      ensures State() == Handle(old(State()), Key(k))
    {
      key := k;
    }

    method OnEnd()
      requires stack != []
      modifies `stack
      ensures State() == Handle(old(State()), EndObject) == Handle(old(State()), EndArray)
    {
      stack := stack[..|stack| - 1];
    }

    method OnScalar(v: Value)
      requires Open(State()) && !v.Array? && !v.Object?
      modifies `value
      ensures State() == Feed(old(State()), Events(v))
    {
      ghost var was := State();
      if stack == [] {
        value := v;
      } else {
        var p := stack[|stack| - 1];
        var top := GetAt(value, p);
        value := SetAt(value, p, WithChild(top, if top.Object? then Field(key) else Item(|top.items|), v));
      }
      assert Feed(was, Events(v)) == Handle(was, OnValue(v));
    }

    // ---------------------------------------------------------------- scalars

    method ReadString() returns (r: Parsed<string>)
      modifies `cursor
      ensures r == ParseString(old(cursor))
      ensures r.Good? ==> cursor == r.rest
    {
      var c := SkipWhitespace();
      if c != '\0' && c != '"' { return Bad; }
      c := NextChar();
      ghost var start := cursor;
      var body := "";
      ConsTwice("", "", StringBody(start));
      while c != '\0'
        invariant c == Peek(cursor)
        invariant StringBody(start) == Cons(body, StringBody(cursor))
        decreases |cursor|
      {
        if c == '"' {
          c := NextChar();
          assert body + "" == body;
          return Good(body, cursor);
        } else if c == '\\' {
          var e := ReadEscape();
          if e.Bad? { return Bad; }
          ConsTwice(body, e.value, StringBody(cursor));
          body := body + e.value;
        } else {
          ConsTwice(body, [c], StringBody(cursor[1..]));
          body := body + [c];
          c := NextChar();
        }
        c := Peek(cursor);
      }
      assert body + "" == body;
      r := Good(body, cursor);
    }

    /** The escape at the cursor: what it stands for, and the cursor behind it. */
    method ReadEscape() returns (r: Parsed<string>)
      requires Peek(cursor) == '\\'
      modifies `cursor
      ensures r.Bad? ==> StringBody(old(cursor)).Bad?
      ensures r.Good? ==> cursor == r.rest && |cursor| < |old(cursor)|
      ensures r.Good? ==> StringBody(old(cursor)) == Cons(r.value, StringBody(cursor))
    {
      hide Unescaped;
      ghost var start := cursor;
      var c := NextChar();
      if c == 'u' {
        var text := "\\u";
        for i := 0 to 4
          invariant |start| >= 2 + i && text == start[..2 + i] && cursor == start[1 + i..]
          invariant forall k :: 2 <= k < 2 + i ==> IsHex(start[k])
        {
          c := NextChar();
          if !IsHex(c) {
            NoEscape();
            return Bad;
          }
          text := text + [c];
        }
        r := Good(text, cursor[1..]);
      } else {
        var text := Unescaped(c);
        if text == "" { return Bad; }
        r := Good(text, cursor[1..]);
      }
      cursor := cursor[1..];
    }

    /** A fixed word whose first letter is at the cursor. */
    method ReadWord(word: string, v: Value) returns (r: Parsed<Value>)
      requires word != "" && '\0' !in word && Peek(cursor) == word[0]
      modifies `cursor
      ensures r == ParseWord(old(cursor), word, v)
      ensures r.Good? ==> cursor == r.rest
    {
      ghost var start := cursor;
      var i := 1;
      while i < |word|
        invariant 1 <= i <= |word| && i <= |start| && start[..i] == word[..i] && cursor == start[i - 1..]
      {
        var c := NextChar();
        if c == '\0' || c != word[i] { 
          assert |word| <= |start| ==> start[..|word|][i] == start[i];
          return Bad;
        }
        i := i + 1;
      }
      var c := NextChar();
      r := Good(v, cursor);
    }

    // ---------------------------------------------------------------- values

    method ReadValue() returns (ok: bool)
      requires Open(State())
      modifies this
      ensures ok == ParseValue(old(cursor)).Good?
      ensures ok ==> var r := ParseValue(old(cursor)); cursor == r.rest && State() == Feed(old(State()), Events(r.value))
      ensures ok ==> Open(State()) && stack == old(stack)
      decreases |cursor|, 2
    {
      hide ParseMembers, ParseItems, ParseString, ParseNumber, ParseWord, SetAt, GetAt, HasPath, Child, HasChild, Put, WithChild, Takes, Handle, Feed, Events, Open;
      ghost var was := State();
      ghost var r := ParseValue(cursor);
      var c := SkipWhitespace();
      match c {
        case '{' => ok := ReadObject();
        case '[' => ok := ReadArray();
        case '"' =>
          var s := ReadString();
          ok := s.Good?;
          if ok { OnScalar(String(s.value)); }
        case 't' => ok := ReadConstant("true", Boolean(true));
        case 'f' => ok := ReadConstant("false", Boolean(false));
        case 'n' => ok := ReadConstant("null", Null);
        case _ =>
          if !IsDigit(c) && c != '-' { return false; }
          var n := ParseNumber(cursor);
          if n.Bad? { return false; }
          cursor := n.rest;
          OnScalar(n.value);
          ok := true;
      }
      if ok { KeepsOpen(was, r.value); }
    }

    method ReadConstant(word: string, v: Value) returns (ok: bool)
      requires Open(State()) && !v.Array? && !v.Object?
      requires word != "" && '\0' !in word && Peek(cursor) == word[0]
      modifies `cursor, `value
      ensures ok == ParseWord(old(cursor), word, v).Good?
      ensures ok ==> cursor == ParseWord(old(cursor), word, v).rest && State() == Feed(old(State()), Events(v))
    {
      var r := ReadWord(word, v);
      ok := r.Good?;
      if ok { OnScalar(v); }
    }

    method ReadArray() returns (ok: bool)
      requires Open(State()) && Peek(cursor) == '[' && Skip(cursor) == cursor
      modifies this
      ensures ok == ParseValue(old(cursor)).Good?
      ensures ok ==> var r := ParseValue(old(cursor)); cursor == r.rest && State() == Feed(old(State()), Events(r.value))
      decreases |cursor|, 1
    {
      hide ParseMembers, ParseString, ParseNumber, SetAt, GetAt, HasPath, Child, HasChild, Put, WithChild, Takes, Handle, Feed, Open;
      ghost var was := State();
      OnBegin(Array([]));
      ghost var start := State();
      var c := NextChar();
      c := SkipWhitespace();
      ghost var text := cursor;
      ghost var got: seq<Value> := [];
      if c == ']' {
        c := NextChar();
        OnEnd();
        Enclosed(was, BeginArray, [], EndArray);
        FeedNothing(start);
        return true;
      }
      var hasNext := true;
      FeedNothing(start);
      AheadNone(ParseItems(text));
      while hasNext
        invariant Open(State()) && stack == start.stack && |cursor| <= |text|
        invariant State() == Feed(start, ItemEvents(got))
        invariant hasNext ==> ParseItems(text) == Ahead(got, ParseItems(cursor))
        invariant !hasNext ==> Skip(cursor) == cursor
        invariant !hasNext ==> ParseItems(text) == if Peek(cursor) == ']' then Good(got, cursor[1..]) else Bad
        decreases if hasNext then |cursor| + 1 else 0
      {
        ghost var before := State();
        ghost var r := ParseValue(cursor);
        ok := ReadValue();
        if !ok { return; }
        c := SkipWhitespace();
        hasNext := c == ',';
        if hasNext { c := NextChar(); }
        AheadTwice(got, r.value, ParseItems(cursor));
        ItemEventsBehind(got, r.value);
        FeedSplit(start, ItemEvents(got), Events(r.value));
        got := got + [r.value];
      }
      c := SkipWhitespace();
      if c != ']' { return false; }
      OnEnd();
      c := NextChar();
      Enclosed(was, BeginArray, ItemEvents(got), EndArray);
      ok := true;
    }

    method ReadObject() returns (ok: bool)
      requires Open(State()) && Peek(cursor) == '{' && Skip(cursor) == cursor
      modifies this
      ensures ok == ParseValue(old(cursor)).Good?
      ensures ok ==> var r := ParseValue(old(cursor)); cursor == r.rest && State() == Feed(old(State()), Events(r.value))
      decreases |cursor|, 1
    {
      hide ParseItems, ParseMember, ParseString, ParseNumber, SetAt, GetAt, HasPath, Child, HasChild, Put, WithChild, Takes, Handle, Feed, Open;
      ghost var was := State();
      OnBegin(Object([]));
      ghost var start := State();
      var c := NextChar();
      c := SkipWhitespace();
      ghost var text := cursor;
      ghost var got: seq<Member> := [];
      FeedNothing(start);
      if c == '}' {
        c := NextChar();
        OnEnd();
        Enclosed(was, BeginObject, [], EndObject);
        return true;
      }
      var hasNext := true;
      AheadNone(ParseMembers(text));
      while hasNext
        invariant Open(State()) && stack == start.stack && |cursor| <= |text|
        invariant State() == Feed(start, MemberEvents(got))
        invariant hasNext ==> ParseMembers(text) == Ahead(got, ParseMembers(cursor))
        invariant !hasNext ==> Skip(cursor) == cursor
        invariant !hasNext ==> ParseMembers(text) == if Peek(cursor) == '}' then Good(got, cursor[1..]) else Bad
        decreases if hasNext then |cursor| + 1 else 0
      {
        ghost var before := State();
        ghost var r := ParseMember(cursor);
        ok := ReadMember();
        if !ok { return; }
        c := SkipWhitespace();
        hasNext := c == ',';
        if hasNext { c := NextChar(); }
        AheadTwice(got, r.value, ParseMembers(cursor));
        MemberEventsBehind(got, r.value);
        FeedSplit(start, MemberEvents(got), [Key(r.value.key)] + Events(r.value.value));
        got := got + [r.value];
      }
      c := SkipWhitespace();
      if c != '}' { return false; }
      OnEnd();
      c := NextChar();
      Enclosed(was, BeginObject, MemberEvents(got), EndObject);
      ok := true;
    }

    method ReadMember() returns (ok: bool)
      requires Open(State())
      modifies this
      ensures ok == ParseMember(old(cursor)).Good?
      ensures ok ==> var r := ParseMember(old(cursor));
        cursor == r.rest && State() == Feed(old(State()), [Key(r.value.key)] + Events(r.value.value))
      ensures ok ==> Open(State()) && stack == old(stack)
      decreases |cursor|, 0
    {
      hide ParseItems, ParseMembers, ParseString, ParseNumber, SetAt, GetAt, HasPath, Child, HasChild, Put, WithChild, Takes;
      ghost var was := State();
      var k := ReadString();
      if k.Bad? { return false; }
      OnObjectKey(k.value);
      var c := SkipWhitespace();
      if c != ':' { return false; }
      c := NextChar();
      ghost var r := ParseValue(cursor);
      ok := ReadValue();
      if ok {
        FeedSplit(was, [Key(k.value)], Events(r.value));
        assert Feed(was, [Key(k.value)]) == Handle(was, Key(k.value));
      }
    }

    /** A text is parsed into the value its document stands for; the stack ends empty. */
    method Parse(text: string) returns (ok: bool)
      modifies this
      ensures ok == JsonRoundTrip.Parse(text).Good?
      ensures ok ==> value == JsonRoundTrip.Parse(text).value && stack == []
    {
      stack := [];
      cursor := text;
      ghost var was := State();
      ok := ReadValue();
      if !ok { return; }
      var c := SkipWhitespace();
      if c != '\0' { return false; }
      BuildsParsed(text, was);
    }

    /** What was printed is parsed into the same value exactly if no string needs an escape and no real more than six decimals. */
    method ParsePrinted(v: Value, pretty: bool) returns (ok: bool)
      requires Representable(v)
      modifies this
      ensures (ok && value == v) <==> AllClean(v) && AllReadBack(v)
    {
      RoundTrip(v, pretty);
      ok := Parse(Text(v, pretty));
    }
  }
}
