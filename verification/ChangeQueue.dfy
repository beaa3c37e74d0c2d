/**
  Changes of stored objects that wait to be written to the database.  The queue
  holds which objects to write and how; what is written is the value an object has
  when the queue is flushed.
*/
module ChangeQueue {

  datatype Option<+T> = None | Some(value: T)

  datatype Action = INSERT | UPDATE | REMOVE

  type Proxy = nat

  datatype Change = Change(proxy: Proxy, action: Action)

  type Rows<V> = map<Proxy, V>

  // ------------------------------------------------------------------ the queue

  /** The entry of a proxy, or the length of the queue. */
  function Find(queue: seq<Change>, x: Proxy): (i: nat)
    ensures i <= |queue|
    ensures i < |queue| ==> queue[i].proxy == x
    ensures forall k :: 0 <= k < i ==> queue[k].proxy != x
  {
    if queue == [] || queue[0].proxy == x then 0
    else
      var i := Find(queue[1..], x);
      assert forall k :: 0 < k < i + 1 ==> queue[k] == queue[1..][k - 1];
      i + 1
  }

  function WithInsert(queue: seq<Change>, x: Proxy): (r: seq<Change>) {
    var i := Find(queue, x);
    if i == |queue| then queue + [Change(x, INSERT)]
    else if queue[i].action == REMOVE then queue[i := Change(x, INSERT)]
    else queue
  }

  function WithUpdate(queue: seq<Change>, x: Proxy): (r: seq<Change>) {
    var i := Find(queue, x);
    if i == |queue| then queue + [Change(x, UPDATE)] else queue
  }

  function WithDelete(queue: seq<Change>, x: Proxy): (r: seq<Change>) {
    var i := Find(queue, x);
    if i == |queue| then queue + [Change(x, REMOVE)]
    else if queue[i].action == INSERT then queue[..i] + queue[i + 1..]
    else if queue[i].action == UPDATE then queue[i := Change(x, REMOVE)]
    else queue
  }

  // ------------------------------------------------------------------ writing

  /** A row can be inserted once; updating and removing a row that is not there changes nothing. */
  function Write<V>(db: Rows<V>, store: Rows<V>, c: Change): (r: Option<Rows<V>>) {
    match c.action
    case INSERT => if c.proxy in db || c.proxy !in store then None else Some(db[c.proxy := store[c.proxy]])
    case UPDATE =>
      if c.proxy !in store then None
      else if c.proxy in db then Some(db[c.proxy := store[c.proxy]])
      else Some(db)
    case REMOVE => Some(db - {c.proxy})
  }

  function WriteAll<V>(db: Rows<V>, store: Rows<V>, queue: seq<Change>): (r: Option<Rows<V>>)
    decreases |queue|
  {
    if queue == [] then Some(db)
    else
      match Write(db, store, queue[0])
      case None => None
      case Some(db') => WriteAll(db', store, queue[1..])
  }

  // ------------------------------------------------------------------ runs

  datatype Operation<V> = Insert(proxy: Proxy, value: V) | Modify(proxy: Proxy, value: V) | Delete(proxy: Proxy) | Flush

  /** What is stored, what is in the database, what waits, and which proxies there have been. */
  datatype State<V> = State(store: Rows<V>, db: Rows<V>, queue: seq<Change>, known: set<Proxy>)

  /** A proxy is inserted once, and only what is stored is changed. */
  predicate Allowed<V>(s: State<V>, op: Operation<V>) {
    match op
    case Insert(x, _) => x !in s.known
    case Modify(x, _) => x in s.store
    case Delete(x) => x in s.store
    case Flush => true
  }

  /** A flush that fails leaves everything as it was. */
  function Step<V>(s: State<V>, op: Operation<V>): (r: State<V>) {
    match op
    case Insert(x, v) =>
      s.(store := s.store[x := v], queue := WithInsert(s.queue, x), known := s.known + {x})
    case Modify(x, v) => s.(store := s.store[x := v], queue := WithUpdate(s.queue, x))
    case Delete(x) => s.(store := s.store - {x}, queue := WithDelete(s.queue, x))
    case Flush =>
      var r := WriteAll(s.db, s.store, s.queue);
      if r.None? then s else s.(db := r.value, queue := [])
  }

  /** The database when every change is written at once. */
  function Eager<V>(db: Rows<V>, op: Operation<V>): (r: Rows<V>) {
    match op
    case Insert(x, v) => db[x := v]
    case Modify(x, v) => db[x := v]
    case Delete(x) => db - {x}
    case Flush => db
  }

  datatype Ran<V> = Ran(s: State<V>, eager: Rows<V>)

  predicate Runs<V>(s: State<V>, ops: seq<Operation<V>>)
    decreases |ops|
  {
    ops == [] || (Allowed(s, ops[0]) && Runs(Step(s, ops[0]), ops[1..]))
  }

  function Run<V>(s: State<V>, eager: Rows<V>, ops: seq<Operation<V>>): (r: Ran<V>)
    decreases |ops|
  {
    if ops == [] then Ran(s, eager) else Run(Step(s, ops[0]), Eager(eager, ops[0]), ops[1..])
  }

  // ------------------------------------------------------------------ what always holds

  predicate Single(queue: seq<Change>) {
    forall i, j :: 0 <= i < j < |queue| ==> queue[i].proxy != queue[j].proxy
  }

  /** What an entry says of its proxy. */
  predicate Fits<V>(s: State<V>, c: Change) {
    c.proxy in s.known &&
    match c.action
    case INSERT => c.proxy in s.store && c.proxy !in s.db
    case UPDATE => c.proxy in s.store && c.proxy in s.db
    case REMOVE => c.proxy !in s.store && c.proxy in s.db
  }

  predicate Queued(queue: seq<Change>, x: Proxy) {
    exists i :: 0 <= i < |queue| && queue[i].proxy == x
  }

  /** Stored and in the database with the same value, or in neither. */
  ghost predicate Even<V>(store: Rows<V>, db: Rows<V>, x: Proxy) {
    (x in store <==> x in db) && (x in store && x in db ==> store[x] == db[x])
  }

  ghost predicate Good<V>(s: State<V>) {
    Single(s.queue) &&
    s.store.Keys <= s.known && s.db.Keys <= s.known &&
    (forall i :: 0 <= i < |s.queue| ==> Fits(s, s.queue[i])) &&
    (forall x :: x in s.known && !Queued(s.queue, x) ==> Even(s.store, s.db, x))
  }

  lemma NotFound(queue: seq<Change>, x: Proxy)
    ensures Find(queue, x) == |queue| <==> !Queued(queue, x)
  {
  }

  // ------------------------------------------------------------------ every step

  lemma InsertKeeps<V>(s: State<V>, x: Proxy, v: V)
    requires Good(s) && x !in s.store && !Queued(s.queue, x)
    ensures Good(Step(s, Insert(x, v)))
  {
    NotFound(s.queue, x);
    var t := Step(s, Insert(x, v));
    assert t.queue == s.queue + [Change(x, INSERT)];
    assert x in s.known ==> Even(s.store, s.db, x);
    OthersStay(s, t, x);
    assert t.queue[|s.queue|].proxy == x;
  }

  /** Entries and values of the other proxies are the same. */
  lemma OthersStay<V>(s: State<V>, t: State<V>, x: Proxy)
    requires Good(s) && s.known <= t.known <= s.known + {x}
    requires forall y :: y != x ==> (y in s.store <==> y in t.store) && (y in s.db <==> y in t.db)
    requires forall y :: y != x && y in s.store ==> s.store[y] == t.store[y]
    requires forall y :: y != x && y in s.db ==> s.db[y] == t.db[y]
    requires forall i :: 0 <= i < |s.queue| && s.queue[i].proxy != x ==> s.queue[i] in t.queue
    ensures forall y :: y != x && y in t.known && !Queued(t.queue, y) ==> Even(t.store, t.db, y)
    ensures forall c: Change :: c.proxy != x && Fits(s, c) ==> Fits(t, c)
  {
    forall y | y != x && y in t.known && !Queued(t.queue, y) ensures Even(t.store, t.db, y) {
      assert Even(s.store, s.db, y);
    }
  }

  lemma ModifyKeeps<V>(s: State<V>, x: Proxy, v: V)
    requires Good(s) && x in s.store
    ensures Good(Step(s, Modify(x, v)))
  {
    NotFound(s.queue, x);
    var t := Step(s, Modify(x, v));
    var i := Find(s.queue, x);
    OthersStay(s, t, x);
    if i == |s.queue| {
      assert Even(s.store, s.db, x);
      assert t.queue[|s.queue|] == Change(x, UPDATE);
    } else {
      assert t.queue[i].proxy == x;
    }
  }

  lemma DeleteKeeps<V>(s: State<V>, x: Proxy)
    requires Good(s) && x in s.store
    ensures Good(Step(s, Delete(x)))
  {
    NotFound(s.queue, x);
    var t := Step(s, Delete(x));
    var i := Find(s.queue, x);
    if i == |s.queue| {
      assert Even(s.store, s.db, x);
      OthersStay(s, t, x);
      assert t.queue[|s.queue|] == Change(x, REMOVE);
    } else if s.queue[i].action == INSERT {
      assert Fits(s, s.queue[i]);
      Erased(s.queue, i);
      OthersStay(s, t, x);
    } else {
      assert Fits(s, s.queue[i]);
      assert t.queue == s.queue[i := Change(x, REMOVE)];
      forall k | 0 <= k < |s.queue| && s.queue[k].proxy != x ensures s.queue[k] in t.queue {
        assert t.queue[k] == s.queue[k];
      }
      OthersStay(s, t, x);
      assert t.queue[i].proxy == x;
    }
  }

  lemma Erased(queue: seq<Change>, i: nat)
    requires i < |queue| && Single(queue)
    ensures var r := queue[..i] + queue[i + 1..];
      Single(r) && !Queued(r, queue[i].proxy) &&
      (forall k :: 0 <= k < |r| ==> r[k] in queue && r[k].proxy != queue[i].proxy) &&
      forall k :: 0 <= k < |queue| && k != i ==> queue[k] in r
  {
    var r := queue[..i] + queue[i + 1..];
    forall k | 0 <= k < |r| ensures r[k] in queue && r[k].proxy != queue[i].proxy {
      assert r[k] == if k < i then queue[k] else queue[k + 1];
    }
    forall k | 0 <= k < |queue| && k != i ensures queue[k] in r {
      assert queue[k] == if k < i then r[k] else r[k - 1];
    }
  }

  // ------------------------------------------------------------------ flushing

  /** Writing the first entry leaves a state of the same kind. */
  lemma WriteKeeps<V>(s: State<V>)
    requires Good(s) && s.queue != []
    ensures var r := Write(s.db, s.store, s.queue[0]);
      r.Some? && Good(s.(db := r.value, queue := s.queue[1..]))
  {
    var c, r := s.queue[0], Write(s.db, s.store, s.queue[0]);
    assert Fits(s, c);
    var t := s.(db := r.value, queue := s.queue[1..]);
    forall k | 0 <= k < |s.queue| && s.queue[k].proxy != c.proxy ensures s.queue[k] in t.queue {
      assert s.queue[k] == t.queue[k - 1];
    }
    OthersStay(s, t, c.proxy);
    assert Even(t.store, t.db, c.proxy);
    forall i | 0 <= i < |t.queue| ensures Fits(t, t.queue[i]) {
      assert t.queue[i] == s.queue[i + 1];
    }
  }

  /** What waits brings the database to what is stored. */
  lemma {:induction false} FlushWritesStore<V>(s: State<V>)
    requires Good(s)
    ensures WriteAll(s.db, s.store, s.queue) == Some(s.store)
    decreases |s.queue|
  {
    if s.queue == [] {
      forall x | x in s.known ensures Even(s.store, s.db, x) {}
      assert s.db == s.store;
    } else {
      WriteKeeps(s);
      FlushWritesStore(s.(db := Write(s.db, s.store, s.queue[0]).value, queue := s.queue[1..]));
    }
  }

  lemma StepKeeps<V>(s: State<V>, op: Operation<V>)
    requires Good(s) && Allowed(s, op)
    ensures Good(Step(s, op)) && Step(s, op).store == Eager(s.store, op)
  {
    match op
    case Insert(x, v) =>
      forall i | 0 <= i < |s.queue| ensures s.queue[i].proxy != x { assert Fits(s, s.queue[i]); }
      InsertKeeps(s, x, v);
    case Modify(x, v) => ModifyKeeps(s, x, v);
    case Delete(x) => DeleteKeeps(s, x);
    case Flush => FlushWritesStore(s);
  }

  // ------------------------------------------------------------------ every run

  /** After any run the queue brings the database to what eager writes make of it, with one entry a proxy at most. */
  lemma {:induction false} RunAgrees<V>(s: State<V>, ops: seq<Operation<V>>)
    requires Good(s) && Runs(s, ops)
    ensures var r := Run(s, s.store, ops);
      Single(r.s.queue) && r.s.store == r.eager && WriteAll(r.s.db, r.s.store, r.s.queue) == Some(r.eager)
    ensures var r := Run(s, s.store, ops); Good(r.s)
    decreases |ops|
  {
    if ops == [] {
      FlushWritesStore(s);
    } else {
      StepKeeps(s, ops[0]);
      RunAgrees(Step(s, ops[0]), ops[1..]);
    }
  }

  /** Right after a flush the database is what eager writes make of it, and nothing waits. */
  lemma FlushAgrees<V>(rows: Rows<V>, ops: seq<Operation<V>>)
    requires Runs(State(rows, rows, [], rows.Keys), ops)
    ensures var r := Run(State(rows, rows, [], rows.Keys), rows, ops);
      Step(r.s, Flush).db == r.eager && Step(r.s, Flush).queue == []
  {
    RunAgrees(State(rows, rows, [], rows.Keys), ops);
  }

  // ------------------------------------------------------------------ inserting again

  lemma {:induction false} ClashFails<V>(db: Rows<V>, store: Rows<V>, queue: seq<Change>, i: nat)
    requires i < |queue| && Single(queue) && queue[i].action == INSERT && queue[i].proxy in db
    ensures WriteAll(db, store, queue).None?
    decreases |queue|
  {
    if i > 0 {
      var r := Write(db, store, queue[0]);
      assert queue[0].proxy != queue[i].proxy;
      if r.Some? { ClashFails(r.value, store, queue[1..], i - 1); }
    }
  }

  /** A proxy that is not stored can be inserted exactly if it does not wait to be removed. */
  lemma InsertAgain<V>(s: State<V>, x: Proxy, v: V)
    requires Good(s) && x !in s.store
    ensures var t := Step(s, Insert(x, v));
      WriteAll(t.db, t.store, t.queue) == Some(t.store) <==> Change(x, REMOVE) !in s.queue
  {
    var t := Step(s, Insert(x, v));
    if Queued(s.queue, x) {
      NotFound(s.queue, x);
      var i := Find(s.queue, x);
      assert Fits(s, s.queue[i]);
      ClashFails(t.db, t.store, t.queue, i);
    } else {
      InsertKeeps(s, x, v);
      FlushWritesStore(t);
    }
  }

  // ------------------------------------------------------------------ the object

  class Persistence<V> {
    var store: Rows<V>
    var db: Rows<V>
    var queue: seq<Change>
    var inTransaction: bool
    ghost var known: set<Proxy>

    ghost function View(): (s: State<V>)
      reads this
    {
      State(store, db, queue, known)
    }

    constructor (rows: Rows<V>)
      ensures View() == State(rows, rows, [], rows.Keys) && Good(View()) && !inTransaction
    {
      store, db, queue, inTransaction, known := rows, rows, [], false, rows.Keys;
    }

    /** The entry of a proxy in the queue, from the front. */
    method FindEntry(x: Proxy) returns (i: nat)
      ensures i == Find(queue, x)
    {
      i := 0;
      while i < |queue| && queue[i].proxy != x
        invariant i <= |queue| && forall k :: 0 <= k < i ==> queue[k].proxy != x
      {
        i := i + 1;
      }
    }

    /** During a transaction nothing is registered; the transaction writes on its own. */
    method RegisterInsert(x: Proxy)
      modifies `queue
      ensures queue == if inTransaction then old(queue) else WithInsert(old(queue), x)
    {
      if inTransaction { return; }
      var i := FindEntry(x);
      if i < |queue| && queue[i].action == REMOVE {
        queue := queue[i := Change(x, INSERT)];
      } else if i == |queue| {
        queue := queue + [Change(x, INSERT)];
      }
    }

    method RegisterUpdate(x: Proxy)
      modifies `queue
      ensures queue == if inTransaction then old(queue) else WithUpdate(old(queue), x)
    {
      if inTransaction { return; }
      var i := FindEntry(x);
      if i == |queue| { queue := queue + [Change(x, UPDATE)]; }
    }

    method RegisterDelete(x: Proxy)
      modifies `queue
      ensures queue == if inTransaction then old(queue) else WithDelete(old(queue), x)
    {
      if inTransaction { return; }
      var i := FindEntry(x);
      if i < |queue| {
        if queue[i].action == INSERT {
          queue := queue[..i] + queue[i + 1..];
        } else if queue[i].action == UPDATE {
          queue := queue[i := Change(x, REMOVE)];
        }
      } else {
        queue := queue + [Change(x, REMOVE)];
      }
    }

    method Insert(x: Proxy, v: V)
      requires Good(View()) && !inTransaction && x !in known
      modifies this
      ensures Good(View()) && !inTransaction && View() == Step(old(View()), Operation.Insert(x, v))
    {
      StepKeeps(View(), Operation.Insert(x, v));
      store := store[x := v];
      RegisterInsert(x);
      known := known + {x};
    }

    method Modify(x: Proxy, v: V)
      requires Good(View()) && !inTransaction && x in store
      modifies this
      ensures Good(View()) && !inTransaction && View() == Step(old(View()), Operation.Modify(x, v))
    {
      StepKeeps(View(), Operation.Modify(x, v));
      store := store[x := v];
      RegisterUpdate(x);
    }

    method Delete(x: Proxy)
      requires Good(View()) && !inTransaction && x in store
      modifies this
      ensures Good(View()) && !inTransaction && View() == Step(old(View()), Operation.Delete(x))
    {
      StepKeeps(View(), Operation.Delete(x));
      store := store - {x};
      RegisterDelete(x);
    }

    /** Writes every entry of the queue in order; afterwards the database holds what is stored. */
    method FlushQueue()
      requires Good(View())
      modifies `db, `queue
      ensures db == store && queue == [] && Good(View())
      ensures View() == Step(old(View()), Operation.Flush)
    {
      FlushWritesStore(View());
      StepKeeps(View(), Operation.Flush);
      var i := 0;
      assert queue[0..] == queue;
      while i < |queue|
        invariant i <= |queue| && queue == old(queue)
        invariant WriteAll(db, store, queue[i..]) == Some(store)
      {
        var c := queue[i];
        assert queue[i..][1..] == queue[i + 1..];
        match c.action {
          case INSERT => db := db[c.proxy := store[c.proxy]];
          case UPDATE => if c.proxy in db { db := db[c.proxy := store[c.proxy]]; }
          case REMOVE => db := db - {c.proxy};
        }
        i := i + 1;
      }
      queue := [];
    }
  }
}
