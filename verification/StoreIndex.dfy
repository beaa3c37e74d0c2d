/**
  How the store finds objects: a map from ids, and for each type a map from primary
  keys, beside the lists the objects are linked in.
*/
module StoreIndex {

  type Proxy = nat

  type TypeName = string

  datatype Key = NoKey | Number(n: nat) | Text(s: string)

  /** A key the user gave: a number above zero or a text. */
  predicate Given(k: Key) {
    match k
    case NoKey => false
    case Number(n) => n > 0
    case Text(s) => s != ""
  }

  /** What a proxy carries once the store took it. */
  datatype Info = Info(typeName: TypeName, id: nat, key: Key)

  type KeyMap = map<Key, Proxy>

  datatype Index = Index(
    sequence: nat,
    lists: map<TypeName, seq<Proxy>>,
    objects: map<nat, Proxy>,
    keys: map<TypeName, KeyMap>,
    taken: map<Proxy, Info>)

  // ------------------------------------------------------------------ operations

  /** Behind a first object a new one is linked in front of the last. */
  function WithNew(list: seq<Proxy>, p: Proxy): (r: seq<Proxy>) {
    if list == [] then [p] else list[..|list| - 1] + [p] + [list[|list| - 1]]
  }

  function Without(list: seq<Proxy>, p: Proxy): (r: seq<Proxy>) {
    if list == [] then [] else if list[0] == p then list[1..] else [list[0]] + Without(list[1..], p)
  }

  /** A key that is there already keeps its proxy. */
  function WithKey(m: KeyMap, k: Key, p: Proxy): (r: KeyMap) {
    if k == NoKey || k in m then m else m[k := p]
  }

  predicate Linked(ix: Index, p: Proxy) {
    p in ix.taken && ix.taken[p].typeName in ix.lists && p in ix.lists[ix.taken[p].typeName]
  }

  /** A new proxy gets the next id; without a key of its own it gets the id, else the sequence passes the key. */
  function Take(ix: Index, p: Proxy, t: TypeName, k: Key): (r: Index) {
    var id := ix.sequence + 1;
    if k != NoKey && !Given(k) then ix.(sequence := id, taken := ix.taken[p := Info(t, id, Number(id))])
    else
      ix.(sequence := if k.Number? && k.n > id then k.n else id, taken := ix.taken[p := Info(t, id, k)])
  }

  function Link(ix: Index, p: Proxy): (r: Index)
    requires p in ix.taken && ix.taken[p].typeName in ix.lists && ix.taken[p].typeName in ix.keys
  {
    var i := ix.taken[p];
    ix.(lists := ix.lists[i.typeName := WithNew(ix.lists[i.typeName], p)],
        keys := ix.keys[i.typeName := WithKey(ix.keys[i.typeName], i.key, p)],
        objects := if i.id in ix.objects then ix.objects else ix.objects[i.id := p])
  }

  function Unlink(ix: Index, p: Proxy): (r: Index)
    requires p in ix.taken && ix.taken[p].typeName in ix.lists && ix.taken[p].typeName in ix.keys
  {
    var i := ix.taken[p];
    ix.(lists := ix.lists[i.typeName := Without(ix.lists[i.typeName], p)],
        keys := ix.keys[i.typeName := ix.keys[i.typeName] - {i.key}],
        objects := ix.objects - {i.id})
  }

  function Cleared(ix: Index): (r: Index) {
    ix.(lists := map t | t in ix.lists :: [], keys := map t | t in ix.keys :: map[], objects := map[])
  }

  // ------------------------------------------------------------------ what always holds

  ghost predicate Lists(ix: Index) {
    ix.lists.Keys == ix.keys.Keys &&
    (forall t, i :: t in ix.lists && 0 <= i < |ix.lists[t]| ==>
      ix.lists[t][i] in ix.taken && ix.taken[ix.lists[t][i]].typeName == t) &&
    (forall t :: t in ix.lists ==> NoDoubles(ix.lists[t]))
  }

  predicate NoDoubles(list: seq<Proxy>) {
    forall i, j :: 0 <= i < j < |list| ==> list[i] != list[j]
  }

  /** The map of ids holds exactly the linked proxies. */
  ghost predicate IdsAgree(ix: Index) {
    (forall p :: Linked(ix, p) ==> ix.taken[p].id in ix.objects && ix.objects[ix.taken[p].id] == p) &&
    (forall n :: n in ix.objects ==> Linked(ix, ix.objects[n]) && ix.taken[ix.objects[n]].id == n)
  }

  /** The map of keys of a type holds exactly the linked proxies of the type that have a key. */
  ghost predicate KeysAgree(ix: Index) {
    (forall p :: Linked(ix, p) && ix.taken[p].key != NoKey ==>
      var i := ix.taken[p]; i.typeName in ix.keys && i.key in ix.keys[i.typeName] && ix.keys[i.typeName][i.key] == p) &&
    (forall t, k :: t in ix.keys && k in ix.keys[t] ==>
      var p := ix.keys[t][k]; Linked(ix, p) && ix.taken[p].typeName == t && ix.taken[p].key == k && k != NoKey)
  }

  /** Ids are distinct, and they and the numbers used as keys are behind the sequence. */
  ghost predicate Counted(ix: Index) {
    (forall p :: p in ix.taken ==> 0 < ix.taken[p].id <= ix.sequence) &&
    (forall p :: p in ix.taken && ix.taken[p].key.Number? ==> ix.taken[p].key.n <= ix.sequence) &&
    (forall p, q :: p in ix.taken && q in ix.taken && p != q ==> ix.taken[p].id != ix.taken[q].id)
  }

  ghost predicate Good(ix: Index) {
    Lists(ix) && IdsAgree(ix) && KeysAgree(ix) && Counted(ix)
  }

  // ------------------------------------------------------------------ lists

  lemma NewInList(list: seq<Proxy>, p: Proxy)
    ensures forall q :: q in WithNew(list, p) <==> q in list || q == p
    ensures NoDoubles(list) && p !in list ==> NoDoubles(WithNew(list, p))
  {
    var r := WithNew(list, p);
    if list != [] {
      var n := |list| - 1;
      assert forall i :: 0 <= i < n ==> r[i] == list[i];
      assert r[n] == p && r[n + 1] == list[n];
      forall q | q in list ensures q in r {
        var i :| 0 <= i < |list| && list[i] == q;
        assert r[if i < n then i else n + 1] == q;
      }
    }
  }

  lemma {:induction false} GoneFromList(list: seq<Proxy>, p: Proxy)
    requires NoDoubles(list)
    ensures var r := Without(list, p); NoDoubles(r) && forall q :: q in r <==> q in list && q != p
  {
    if list != [] {
      var tail := list[1..];
      GoneFromList(tail, p);
      var r := Without(list, p);
      assert list[0] !in tail;
      assert list == [list[0]] + tail;
    }
  }

  // ------------------------------------------------------------------ taking and linking

  lemma TakeLinks(ix: Index, p: Proxy, t: TypeName, k: Key)
    requires Lists(ix) && p !in ix.taken
    ensures var r := Take(ix, p, t, k);
      Lists(r) && !Linked(r, p) && (forall q :: q != p ==> (Linked(r, q) <==> Linked(ix, q))) &&
      forall q :: q in ix.taken ==> q in r.taken && r.taken[q] == ix.taken[q]
  {
    hide Given, NoDoubles;
    assert t in ix.lists ==> p !in ix.lists[t];
  }

  lemma TakeCounts(ix: Index, p: Proxy, t: TypeName, k: Key)
    requires Counted(ix) && p !in ix.taken
    ensures Counted(Take(ix, p, t, k))
  {
    hide Given, Counted;
    var r := Take(ix, p, t, k);
    AddedCounts(ix, r, p, r.taken[p]);
  }

  /** A new entry with the next number. */
  lemma AddedCounts(ix: Index, r: Index, p: Proxy, i: Info)
    requires Counted(ix) && p !in ix.taken && r.taken == ix.taken[p := i]
    requires i.id == ix.sequence + 1 && i.id <= r.sequence && (i.key.Number? ==> i.key.n <= r.sequence)
    ensures Counted(r)
  {
    forall x | x in r.taken && x != p ensures x in ix.taken && r.taken[x] == ix.taken[x] { }
  }

  lemma TakeAgrees(ix: Index, p: Proxy, t: TypeName, k: Key)
    requires Lists(ix) && IdsAgree(ix) && KeysAgree(ix) && p !in ix.taken
    ensures var r := Take(ix, p, t, k); IdsAgree(r) && KeysAgree(r)
  {
    TakeLinks(ix, p, t, k);
    hide Lists, Linked;
    var r := Take(ix, p, t, k);
    assert forall q :: Linked(r, q) ==> q in ix.taken && Linked(ix, q);
  }

  /** Taking a proxy changes nothing that is linked. */
  lemma TakeKeeps(ix: Index, p: Proxy, t: TypeName, k: Key)
    requires Good(ix) && p !in ix.taken
    ensures var r := Take(ix, p, t, k); Good(r) && !Linked(r, p)
  {
    hide Lists, IdsAgree, KeysAgree, Counted, Linked, Take;
    TakeLinks(ix, p, t, k);
    TakeCounts(ix, p, t, k);
    TakeAgrees(ix, p, t, k);
  }

  // ------------------------------------------------------------------ linking

  predicate Listed(ix: Index, p: Proxy) {
    p in ix.taken && ix.taken[p].typeName in ix.lists && ix.taken[p].typeName in ix.keys
  }

  lemma LinkLists(ix: Index, p: Proxy)
    requires Lists(ix) && Listed(ix, p) && !Linked(ix, p)
    ensures var r := Link(ix, p); Lists(r) && forall q :: Linked(r, q) <==> Linked(ix, q) || q == p
  {
    hide WithNew, WithKey, NoDoubles;
    var t := ix.taken[p].typeName;
    NewInList(ix.lists[t], p);
    var r := Link(ix, p);
    assert forall q :: q in r.lists[t] ==> q in ix.taken && ix.taken[q].typeName == t;
  }

  lemma LinkIds(ix: Index, p: Proxy)
    requires Lists(ix) && IdsAgree(ix) && Counted(ix) && Listed(ix, p) && !Linked(ix, p)
    ensures IdsAgree(Link(ix, p))
  {
    LinkLists(ix, p);
    hide Lists, Linked, WithNew, WithKey;
    var i := ix.taken[p];
    assert i.id !in ix.objects;
  }

  /** The map of keys stays exact if and only if the key is not taken by another proxy. */
  lemma LinkKeys(ix: Index, p: Proxy)
    requires Lists(ix) && KeysAgree(ix) && Listed(ix, p) && !Linked(ix, p)
    ensures var i := ix.taken[p]; KeysAgree(Link(ix, p)) <==> i.key == NoKey || i.key !in ix.keys[i.typeName]
  {
    hide KeysAgree, Lists, Linked, Link;
    var i := ix.taken[p];
    if i.key != NoKey && i.key in ix.keys[i.typeName] { TakenKey(ix, p); } else { FreeKey(ix, p); }
  }

  lemma TakenKey(ix: Index, p: Proxy)
    requires Lists(ix) && KeysAgree(ix) && Listed(ix, p) && !Linked(ix, p)
    requires var i := ix.taken[p]; i.key != NoKey && i.key in ix.keys[i.typeName]
    ensures !KeysAgree(Link(ix, p))
  {
    LinkLists(ix, p);
    hide Lists, Linked, WithNew;
    var i, r := ix.taken[p], Link(ix, p);
    assert Linked(r, p);
    assert Linked(ix, ix.keys[i.typeName][i.key]);
    assert r.keys[i.typeName][i.key] != p;
  }

  lemma FreeKey(ix: Index, p: Proxy)
    requires Lists(ix) && KeysAgree(ix) && Listed(ix, p) && !Linked(ix, p)
    requires var i := ix.taken[p]; i.key == NoKey || i.key !in ix.keys[i.typeName]
    ensures KeysAgree(Link(ix, p))
  {
    LinkLists(ix, p);
    hide Lists, Linked, WithNew;
    assert Linked(Link(ix, p), p);
  }

  lemma LinkKeeps(ix: Index, p: Proxy)
    requires Good(ix) && Listed(ix, p) && !Linked(ix, p)
    ensures var i := ix.taken[p]; Good(Link(ix, p)) <==> i.key == NoKey || i.key !in ix.keys[i.typeName]
    ensures Linked(Link(ix, p), p)
  {
    LinkLists(ix, p);
    LinkIds(ix, p);
    LinkKeys(ix, p);
    hide Lists, IdsAgree, KeysAgree, Linked, WithNew, WithKey;
  }

  // ------------------------------------------------------------------ unlinking

  lemma UnlinkLists(ix: Index, p: Proxy)
    requires Lists(ix) && Listed(ix, p)
    ensures var r := Unlink(ix, p); Lists(r) && forall q :: Linked(r, q) <==> Linked(ix, q) && q != p
  {
    hide Without, NoDoubles;
    var t := ix.taken[p].typeName;
    GoneFromList(ix.lists[t], p);
    var r := Unlink(ix, p);
    assert forall q :: q in r.lists[t] ==> q in ix.taken && ix.taken[q].typeName == t;
  }

  lemma UnlinkIds(ix: Index, p: Proxy)
    requires Lists(ix) && IdsAgree(ix) && Counted(ix) && Listed(ix, p)
    ensures IdsAgree(Unlink(ix, p))
  {
    UnlinkLists(ix, p);
    hide Lists, Without;
    var r := Unlink(ix, p);
    forall q | Linked(r, q) ensures r.taken[q].id in r.objects && r.objects[r.taken[q].id] == q {
      assert Linked(ix, q) && q != p;
    }
  }

  lemma UnlinkKeys(ix: Index, p: Proxy)
    requires Lists(ix) && KeysAgree(ix) && Listed(ix, p) && Linked(ix, p)
    ensures KeysAgree(Unlink(ix, p))
  {
    UnlinkLists(ix, p);
    hide Lists, Without, Linked;
    var i, r := ix.taken[p], Unlink(ix, p);
    forall q | Linked(r, q) && r.taken[q].key != NoKey
      ensures var j := r.taken[q]; j.typeName in r.keys && j.key in r.keys[j.typeName] && r.keys[j.typeName][j.key] == q
    {
      assert Linked(ix, q) && q != p;
    }
  }

  lemma UnlinkKeeps(ix: Index, p: Proxy)
    requires Good(ix) && Linked(ix, p)
    ensures Listed(ix, p) && Good(Unlink(ix, p)) && !Linked(Unlink(ix, p), p)
  {
    assert Listed(ix, p);
    UnlinkLists(ix, p);
    UnlinkIds(ix, p);
    UnlinkKeys(ix, p);
    hide Lists, IdsAgree, KeysAgree, Linked, Without;
  }

  lemma ClearedKeeps(ix: Index)
    requires Good(ix)
    ensures Good(Cleared(ix)) && forall p :: !Linked(Cleared(ix), p)
  {
  }

  /** A key that was made from the id is never taken. */
  lemma OwnKeyIsFree(ix: Index, p: Proxy, t: TypeName, k: Key)
    requires Good(ix) && p !in ix.taken && t in ix.lists && k != NoKey && !Given(k)
    ensures var r := Take(ix, p, t, k); r.taken[p].key !in r.keys[t]
  {
    var own := Number(ix.sequence + 1);
    assert own in ix.keys[t] ==> Linked(ix, ix.keys[t][own]);
  }

  // ------------------------------------------------------------------ runs

  datatype Operation = Insert(p: Proxy, t: TypeName, k: Key) | Remove(p: Proxy) | Restore(p: Proxy) | Clear

  /** One call; where the store throws or finds the proxy in place nothing changes. */
  function Step(ix: Index, op: Operation): (r: Index)
    requires ix.lists.Keys == ix.keys.Keys
  {
    match op
    case Insert(p, t, k) => if t !in ix.lists || p in ix.taken then ix else Link(Take(ix, p, t, k), p)
    case Remove(p) => if !Listed(ix, p) || ix.taken[p].id !in ix.objects then ix else Unlink(ix, p)
    case Restore(p) => if !Listed(ix, p) then ix else Link(ix, p)
    case Clear => Cleared(ix)
  }

  /** A key that is given is not taken in its type, and what is restored is not linked. */
  predicate KeyFree(ix: Index, op: Operation)
    requires ix.lists.Keys == ix.keys.Keys
  {
    match op
    case Insert(p, t, k) => t in ix.lists && p !in ix.taken && Given(k) ==> k !in ix.keys[t]
    case Restore(p) =>
      Listed(ix, p) ==> !Linked(ix, p) && var i := ix.taken[p]; i.key == NoKey || i.key !in ix.keys[i.typeName]
    case _ => true
  }

  lemma RemovesLinked(ix: Index, p: Proxy)
    requires Good(ix) && Listed(ix, p)
    ensures ix.taken[p].id in ix.objects <==> Linked(ix, p)
  {
    hide KeysAgree;
    if ix.taken[p].id in ix.objects { assert ix.objects[ix.taken[p].id] == p; }
  }

  lemma TwiceBreaks(ix: Index, p: Proxy)
    requires Lists(ix) && Linked(ix, p) && Listed(ix, p)
    ensures !Lists(Link(ix, p))
  {
    hide WithKey;
    var t := ix.taken[p].typeName;
    var list := ix.lists[t];
    var i :| 0 <= i < |list| && list[i] == p;
    var r, n := WithNew(list, p), |list| - 1;
    assert r[n] == p && (if i < n then r[i] == p else r[n + 1] == p);
    assert !NoDoubles(r);
    assert Link(ix, p).lists[t] == r;
  }

  /** A call keeps all maps exact if and only if the key is free. */
  lemma StepExact(ix: Index, op: Operation)
    requires Good(ix)
    ensures Good(Step(ix, op)) <==> KeyFree(ix, op)
  {
    hide IdsAgree, KeysAgree, Counted, Linked, Link, Unlink;
    match op
    case Insert(p, t, k) =>
      if t in ix.lists && p !in ix.taken {
        TakeKeeps(ix, p, t, k);
        LinkKeeps(Take(ix, p, t, k), p);
        if k != NoKey && !Given(k) { OwnKeyIsFree(ix, p, t, k); }
      }
    case Remove(p) =>
      if Listed(ix, p) {
        RemovesLinked(ix, p);
        if Linked(ix, p) { UnlinkKeeps(ix, p); }
      }
    case Restore(p) =>
      if Listed(ix, p) {
        if Linked(ix, p) { TwiceBreaks(ix, p); } else { LinkKeeps(ix, p); }
      }
    case Clear => ClearedKeeps(ix);
  }

  // ------------------------------------------------------------------ what a call does

  /** Exactly one proxy is linked in addition. */
  ghost predicate OneMore(ix: Index, r: Index, p: Proxy) {
    forall q :: Linked(r, q) <==> Linked(ix, q) || q == p
  }

  /** Exactly one proxy is not linked any more. */
  ghost predicate OneLess(ix: Index, r: Index, p: Proxy) {
    forall q :: Linked(r, q) <==> Linked(ix, q) && q != p
  }

  /** A new object comes in front of the last of its type; all others keep their order. */
  lemma {:induction false} NewPlace(list: seq<Proxy>, p: Proxy)
    requires p !in list
    ensures var r := WithNew(list, p);
      |r| == |list| + 1 && r[if list == [] then 0 else |list| - 1] == p && Without(r, p) == list
  {
    var r := WithNew(list, p);
    if |list| == 0 {
      assert r[1..] == [];
    } else if |list| == 1 {
      assert r == [p, list[0]] && r[1..] == list;
    } else {
      NewPlace(list[1..], p);
      assert r[1..] == WithNew(list[1..], p);
      assert list == [list[0]] + list[1..];
    }
  }

  /** Where the type is unknown or the proxy was taken nothing happens; else exactly the proxy is linked in addition. */
  lemma InsertEffect(ix: Index, p: Proxy, t: TypeName, k: Key)
    requires Good(ix)
    ensures var r := Step(ix, Insert(p, t, k)); if t !in ix.lists || p in ix.taken then r == ix else OneMore(ix, r, p)
  {
    hide Take, Link, Linked, IdsAgree, KeysAgree, Counted, NoDoubles;
    if t in ix.lists && p !in ix.taken {
      TakeLinks(ix, p, t, k);
      SameTypes(ix, p, t, k);
      LinkLists(Take(ix, p, t, k), p);
    }
  }

  lemma SameTypes(ix: Index, p: Proxy, t: TypeName, k: Key)
    ensures var r := Take(ix, p, t, k); r.lists == ix.lists && r.keys == ix.keys && p in r.taken && r.taken[p].typeName == t
  {
    hide Given;
  }

  /** It has the next id, and the key that was given or is made of the id; nothing else that proxies carry changes. */
  lemma InsertInfo(ix: Index, p: Proxy, t: TypeName, k: Key)
    requires ix.lists.Keys == ix.keys.Keys && t in ix.lists && p !in ix.taken
    ensures var n := ix.sequence + 1;
      Step(ix, Insert(p, t, k)).taken == ix.taken[p := Info(t, n, if Given(k) || k == NoKey then k else Number(n))]
  {
  }

  /** It is the last but one of its type; no other list changes. */
  lemma InsertPlace(ix: Index, p: Proxy, t: TypeName, k: Key)
    requires ix.lists.Keys == ix.keys.Keys && t in ix.lists && p !in ix.taken && p !in ix.lists[t]
    ensures var r := Step(ix, Insert(p, t, k));
      && r.lists.Keys == ix.lists.Keys && |r.lists[t]| == |ix.lists[t]| + 1
      && r.lists[t][if ix.lists[t] == [] then 0 else |ix.lists[t]| - 1] == p && Without(r.lists[t], p) == ix.lists[t]
      && forall u :: u in ix.lists && u != t ==> r.lists[u] == ix.lists[u]
  {
    hide WithNew, Without, WithKey, Given;
    NewPlace(ix.lists[t], p);
  }

  /** Exactly the proxy is not linked any more; what it carries stays. */
  lemma RemoveEffect(ix: Index, p: Proxy)
    requires Good(ix)
    ensures var r := Step(ix, Remove(p));
      && OneLess(ix, r, p)
      && r.taken == ix.taken && r.sequence == ix.sequence && r.lists.Keys == ix.lists.Keys
      && forall t :: t in ix.lists ==> r.lists[t] == Without(ix.lists[t], p)
  {
    hide WithNew, WithKey, IdsAgree, KeysAgree, Counted, NoDoubles;
    if Listed(ix, p) {
      RemovesLinked(ix, p);
      if Linked(ix, p) { UnlinkLists(ix, p); }
    }
    forall t | t in ix.lists && p !in ix.lists[t] ensures Without(ix.lists[t], p) == ix.lists[t] { NotIn(ix.lists[t], p); }
  }

  lemma {:induction false} NotIn(list: seq<Proxy>, p: Proxy)
    requires p !in list
    ensures Without(list, p) == list
  {
    if list != [] { NotIn(list[1..], p); }
  }

  /** Exactly the proxy is linked again, with the id it had. */
  lemma RestoreEffect(ix: Index, p: Proxy)
    requires Good(ix) && !Linked(ix, p)
    ensures var r := Step(ix, Restore(p));
      if !Listed(ix, p) then r == ix
      else OneMore(ix, r, p) && r.taken == ix.taken && r.sequence == ix.sequence
  {
    hide WithNew, WithKey, IdsAgree, KeysAgree, Counted;
    if Listed(ix, p) { LinkLists(ix, p); }
  }

  /** Nothing is linked; ids are not used again. */
  lemma ClearEffect(ix: Index)
    ensures var r := Cleared(ix);
      (forall q :: !Linked(r, q)) && r.objects == map[] && r.taken == ix.taken && r.sequence == ix.sequence &&
      r.lists.Keys == ix.lists.Keys && r.keys.Keys == ix.keys.Keys && (forall t :: t in ix.keys ==> r.keys[t] == map[])
  {
  }

  /** Removing what was just inserted, and inserting what was just removed, gives the links there were. */
  lemma RemoveAndRestore(ix: Index, p: Proxy)
    requires Good(ix) && Linked(ix, p)
    ensures var r := Step(ix, Remove(p));
      r.lists.Keys == r.keys.Keys && Good(r) && Good(Step(r, Restore(p))) &&
      forall q :: Linked(Step(r, Restore(p)), q) <==> Linked(ix, q)
  {
    hide IdsAgree, Counted, Link, Unlink, Linked;
    var r := Step(ix, Remove(p));
    RemoveEffect(ix, p);
    StepExact(ix, Remove(p));
    RestoreEffect(r, p);
    assert Listed(ix, p) by { LinkedListed(ix, p); }
    assert Listed(r, p);
    var i := r.taken[p];
    if i.key != NoKey && i.key in r.keys[i.typeName] { KeyOfOther(ix, r, p); }
    StepExact(r, Restore(p));
  }

  lemma LinkedListed(ix: Index, p: Proxy)
    requires Good(ix) && Linked(ix, p)
    ensures Listed(ix, p)
  {
  }

  lemma KeyOfOther(ix: Index, r: Index, p: Proxy)
    requires Good(ix) && Good(r) && Linked(ix, p) && r.taken == ix.taken && OneLess(ix, r, p)
    ensures var i := r.taken[p]; i.typeName in r.keys ==> i.key !in r.keys[i.typeName] || i.key == NoKey
  {
    hide IdsAgree, Counted, Lists;
    forall t, k | t in r.keys && k in r.keys[t] ensures r.keys[t][k] != p && Linked(ix, r.keys[t][k]) { }
  }

  predicate Runs(ix: Index, ops: seq<Operation>)
    requires ix.lists.Keys == ix.keys.Keys
    decreases |ops|
  {
    ops == [] || (KeyFree(ix, ops[0]) && Runs(Step(ix, ops[0]), ops[1..]))
  }

  function Run(ix: Index, ops: seq<Operation>): (r: Index)
    requires ix.lists.Keys == ix.keys.Keys
    decreases |ops|
  {
    if ops == [] then ix else Run(Step(ix, ops[0]), ops[1..])
  }

  /** After every run both maps hold exactly the linked proxies, and ids are distinct. */
  lemma {:induction false} RunKeeps(ix: Index, ops: seq<Operation>)
    requires Good(ix) && Runs(ix, ops)
    ensures Good(Run(ix, ops))
    decreases |ops|
  {
    hide IdsAgree, KeysAgree, Counted, Step, KeyFree;
    if ops != [] {
      StepExact(ix, ops[0]);
      RunKeeps(Step(ix, ops[0]), ops[1..]);
    }
  }

  /** What the maps give back is what is linked. */
  lemma LookupExact(ix: Index, n: nat, t: TypeName, k: Key, p: Proxy)
    requires Good(ix) && k != NoKey
    ensures (n in ix.objects && ix.objects[n] == p) <==> (Linked(ix, p) && ix.taken[p].id == n)
    ensures (t in ix.keys && k in ix.keys[t] && ix.keys[t][k] == p)
            <==> (Linked(ix, p) && ix.taken[p].typeName == t && ix.taken[p].key == k)
  {
  }

  lemma GoodLists(ix: Index)
    requires Good(ix)
    ensures ix.lists.Keys == ix.keys.Keys
  {
  }

  // ------------------------------------------------------------------ the object

  class Store {
    var sequence: nat
    var lists: map<TypeName, seq<Proxy>>
    var objects: map<nat, Proxy>
    var keys: map<TypeName, KeyMap>
    /** What is kept in the proxies themselves. */
    var taken: map<Proxy, Info>

    ghost function View(): (ix: Index)
      reads this
    {
      Index(sequence, lists, objects, keys, taken)
    }

    constructor (types: set<TypeName>)
      ensures Good(View()) && lists.Keys == types && taken == map[]
    {
      sequence, objects, taken := 0, map[], map[];
      lists := map t | t in types :: [];
      keys := map t | t in types :: map[];
    }

    /** Links a proxy into the list of its type and into the map of keys. */
    method InsertNode(p: Proxy)
      requires Listed(View(), p)
      modifies `lists, `keys
      ensures View() == Link(old(View()), p).(objects := old(objects))
    {
      var i := taken[p];
      lists := lists[i.typeName := WithNew(lists[i.typeName], p)];
      if i.key != NoKey && i.key !in keys[i.typeName] {
        var more: KeyMap := keys[i.typeName];
        more := more[i.key := p];
        keys := keys[i.typeName := more];
      } else {
        assert keys == keys[i.typeName := keys[i.typeName]];
      }
    }

    method Insert(p: Proxy, t: TypeName, k: Key)
      requires Good(View())
      modifies this
      ensures old(lists.Keys == keys.Keys) && View() == Step(old(View()), Operation.Insert(p, t, k))
      ensures Good(View()) <==> old(KeyFree(View(), Operation.Insert(p, t, k)))
      ensures t in old(lists) && p !in old(taken) ==> OneMore(old(View()), View(), p)
    {
      hide Good, Given, OneMore, KeyFree, Without, WithNew, WithKey;
      GoodLists(View());
      InsertEffect(View(), p, t, k);
      StepExact(View(), Operation.Insert(p, t, k));
      if t !in lists || p in taken { return; }
      sequence := sequence + 1;
      if k != NoKey && !Given(k) {
        taken := taken[p := Info(t, sequence, Number(sequence))];
      } else {
        taken := taken[p := Info(t, sequence, k)];
        if k.Number? && k.n > sequence { sequence := k.n; }
      }
      InsertNode(p);
      if taken[p].id !in objects { objects := objects[taken[p].id := p]; }
    }

    method Remove(p: Proxy)
      requires Good(View())
      modifies this
      ensures old(lists.Keys == keys.Keys) && View() == Step(old(View()), Operation.Remove(p))
      ensures Good(View()) && taken == old(taken)
      ensures OneLess(old(View()), View(), p)
    {
      hide Good, OneLess;
      GoodLists(View());
      RemoveEffect(View(), p);
      StepExact(View(), Operation.Remove(p));
      if p !in taken || taken[p].typeName !in lists || taken[p].typeName !in keys { return; }
      var i := taken[p];
      if i.id !in objects { return; }
      objects := objects - {i.id};
      lists := lists[i.typeName := Without(lists[i.typeName], p)];
      keys := keys[i.typeName := keys[i.typeName] - {i.key}];
    }

    /** Puts a proxy back that was removed, with the id it had. */
    method InsertProxy(p: Proxy)
      requires Good(View())
      modifies this
      ensures old(lists.Keys == keys.Keys) && View() == Step(old(View()), Operation.Restore(p))
      ensures Good(View()) <==> old(KeyFree(View(), Operation.Restore(p)))
      ensures old(Listed(View(), p) && !Linked(View(), p)) ==>
                taken == old(taken) && OneMore(old(View()), View(), p)
    {
      hide Good, OneMore;
      GoodLists(View());
      if !Linked(View(), p) { RestoreEffect(View(), p); }
      StepExact(View(), Operation.Restore(p));
      if p !in taken || taken[p].typeName !in lists || taken[p].typeName !in keys { return; }
      InsertNode(p);
      if taken[p].id !in objects { objects := objects[taken[p].id := p]; }
    }

    /** Empties one type. */
    method ClearNode(t: TypeName)
      requires t in lists && t in keys
      modifies `lists, `keys
      ensures lists == old(lists)[t := []] && keys == old(keys)[t := map[]]
    {
      lists := lists[t := []];
      keys := keys[t := map[]];
    }

    /** Empties every type, one after the other. */
    method ClearNodes()
      requires lists.Keys == keys.Keys
      modifies `lists, `keys
      ensures lists.Keys == keys.Keys == old(lists.Keys)
      ensures forall t :: t in lists ==> lists[t] == [] && keys[t] == map[]
    {
      ghost var all := lists.Keys;
      var todo := lists.Keys;
      while todo != {}
        invariant todo <= all && lists.Keys == all && keys.Keys == all
        invariant forall t :: t in lists && t !in todo ==> lists[t] == [] && keys[t] == map[]
        decreases |todo|
      {
        var t :| t in todo;
        ClearNode(t);
        todo := todo - {t};
      }
    }

    method ClearObjects()
      requires Good(View())
      modifies this
      ensures old(lists.Keys == keys.Keys) && View() == Step(old(View()), Operation.Clear) && Good(View())
      ensures objects == map[] && taken == old(taken) && forall q :: !Linked(View(), q)
    {
      hide Good, Linked;
      GoodLists(View());
      ClearEffect(View());
      StepExact(View(), Operation.Clear);
      ClearNodes();
      objects := map[];
      assert lists == Cleared(old(View())).lists;
      assert keys == Cleared(old(View())).keys;
    }
  }
}
