/** Printing as it runs: text appended element by element. */
module JsonPrinter {
  import opened Json

  method Str(v: Value, pretty: bool) returns (result: string)
    ensures result == Text(v, pretty)
    decreases v
  {
    hide PrintItems, PrintMembers, IntText, RealText;
    result := "";
    match v
    case Object(members) =>
      result := result + "{";
      if pretty { result := result + "\n"; }
      var inner := JoinMembers(members);
      result := result + inner + "}";
    case Array(items) =>
      result := result + "[";
      var inner := JoinItems(items);
      result := result + inner + "]";
    case Null => result := result + "null";
    case Integer(n) => result := result + IntText(n);
    case Real(d) => result := result + RealText(d);
    case String(s) => result := result + ("\"" + s + "\"");
    case Boolean(b) => result := result + (if b then "true" else "false");
  }

  /** Elements with a delimiter between them. */
  method JoinItems(items: seq<Value>) returns (result: string)
    ensures result == PrintItems(items)
    decreases items
  {
    hide Print, Rest;
    result := "";
    if items == [] { return; }
    result := Str(items[0], false);
    var i := 1;
    RestOfAll(items);
    while i < |items|
      invariant 1 <= i <= |items|
      invariant PrintItems(items) == result + Rest(items, i)
    {
      hide PrintItems;
      var next := Str(items[i], false);
      RestFrom(items, i, result);
      result := result + ", " + next;
      i := i + 1;
    }
  }

  /** What is still to be written when the first elements are there. */
  ghost function Rest(items: seq<Value>, i: nat): (s: string)
    requires i <= |items|
  {
    if i == |items| then "" else ", " + PrintItems(items[i..])
  }

  lemma RestOfAll(items: seq<Value>)
    requires items != []
    ensures PrintItems(items) == Print(items[0]) + Rest(items, 1)
    ensures forall s :: s + Rest(items, |items|) == s
  {
    hide Print;
  }

  lemma RestFrom(items: seq<Value>, i: nat, s: string)
    requires i < |items|
    ensures s + Rest(items, i) == s + ", " + Print(items[i]) + Rest(items, i + 1)
  {
    hide Print;
    assert items[i..][1..] == items[i + 1..];
  }

  method JoinMembers(members: seq<Member>) returns (result: string)
    ensures result == PrintMembers(members)
    decreases members
  {
    hide MemberText, RestOfMembers;
    result := "";
    if members == [] { return; }
    result := MemberStr(members[0]);
    var i := 1;
    RestOfAllMembers(members);
    while i < |members|
      invariant 1 <= i <= |members|
      invariant PrintMembers(members) == result + RestOfMembers(members, i)
    {
      hide PrintMembers;
      var text := MemberStr(members[i]);
      RestFromMember(members, i, result);
      result := result + ", " + text;
      i := i + 1;
    }
  }

  method MemberStr(m: Member) returns (result: string)
    ensures result == MemberText(m)
    decreases m
  {
    hide Print;
    var text := Str(m.value, false);
    result := "\"" + m.key + "\": " + text;
    assert "\"" + m.key + "\": " == Quoted(m.key) + ": ";
  }

  ghost function RestOfMembers(members: seq<Member>, i: nat): (s: string)
    requires i <= |members|
  {
    if i == |members| then "" else ", " + PrintMembers(members[i..])
  }

  lemma RestOfAllMembers(members: seq<Member>)
    requires members != []
    ensures PrintMembers(members) == MemberText(members[0]) + RestOfMembers(members, 1)
    ensures forall s :: s + RestOfMembers(members, |members|) == s
  {
    hide MemberText;
  }

  lemma RestFromMember(members: seq<Member>, i: nat, s: string)
    requires i < |members|
    ensures s + RestOfMembers(members, i) == s + ", " + MemberText(members[i]) + RestOfMembers(members, i + 1)
  {
    hide MemberText;
    assert members[i..][1..] == members[i + 1..];
  }
}
