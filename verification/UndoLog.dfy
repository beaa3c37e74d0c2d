/**
  A transaction of the object store as an undo log, on values.  Actions are
  recorded in order; the states saved by update and delete actions go into one
  byte queue in the same order; rollback replays both from the front.
*/
module UndoLog {
  import opened ByteBuffers
  import S = Serializer

  type Id = nat
  type Name = string

  /** An object: its type and its attribute values. */
  datatype Object = Object(kind: Name, attributes: seq<S.Attribute>)

  datatype Action =
    | Insert(kind: Name, ids: seq<Id>)
    | Update(id: Id)
    | Delete(id: Id)

  datatype Log = Log(
    actions: seq<Action>,
    index: map<Id, nat>,     // where the action of an object was put
    queue: seq<byte>)

  /** The store: which objects it holds, and the memory of every object handed out so far. */
  datatype Store = Store(live: set<Id>, memory: map<Id, Object>, next: Id)

  datatype State = State(store: Store, log: Log)

  datatype Option<+T> = None | Some(value: T)

  /** The declared attribute kinds of every type. */
  type Schema = Name -> seq<S.Kind>

  predicate Shaped(o: Object, schema: Schema) {
    S.Fits(o.attributes, schema(o.kind))
  }

  ghost predicate StoreOk(s: Store, schema: Schema) {
    && (forall id :: id in s.live ==> id in s.memory)
    && (forall id :: id in s.memory ==> id < s.next && Shaped(s.memory[id], schema))
  }

  /** What the store holds. */
  ghost function Contents(s: Store): (m: map<Id, Object>) {
    map id | id in s.live && id in s.memory :: s.memory[id]
  }

  function Bytes(o: Object, schema: Schema): (b: seq<byte>)
    requires Shaped(o, schema)
  {
    S.EncodeAll(o.attributes, schema(o.kind))
  }

  // ------------------------------------------------------------------ recording

  /** The first insert action for a type, or the number of actions. */
  function FindInsert(actions: seq<Action>, kind: Name): (i: nat)
    ensures i <= |actions|
    ensures i < |actions| ==> actions[i].Insert? && actions[i].kind == kind
    ensures forall j :: 0 <= j < i ==> !(actions[j].Insert? && actions[j].kind == kind)
  {
    if actions == [] then 0
    else if actions[0].Insert? && actions[0].kind == kind then 0
    else 1 + FindInsert(actions[1..], kind)
  }

  function OnInsert(log: Log, id: Id, kind: Name): (r: Log) {
    var i := FindInsert(log.actions, kind);
    var actions :=
      if i < |log.actions| then log.actions[i := Insert(kind, log.actions[i].ids + [id])]
      else log.actions + [Insert(kind, [id])];
    log.(actions := actions, index := log.index[id := i])
  }

  function OnUpdate(log: Log, id: Id, saved: seq<byte>): (r: Log) {
    if id in log.index then log else Push(log, Update(id), id, saved)
  }

  function Push(log: Log, a: Action, id: Id, saved: seq<byte>): (r: Log) {
    Log(log.actions + [a], log.index[id := |log.actions|], log.queue + saved)
  }

  function Without(ids: seq<Id>, id: Id): (r: seq<Id>) {
    if ids == [] then [] else if ids[0] == id then ids[1..] else [ids[0]] + Without(ids[1..], id)
  }

  /** Deleting an object that already has an action: cancel its insert, or turn its update into a delete. */
  function Cancel(actions: seq<Action>, i: nat, id: Id): (r: seq<Action>)
    requires i < |actions|
  {
    match actions[i]
    case Insert(kind, ids) =>
      var rest := Without(ids, id);
      if rest == [] then actions[..i] + actions[i + 1..] else actions[i := Insert(kind, rest)]
    case Update(x) => if x == id then actions[i := Delete(id)] else actions
    case Delete(_) => actions
  }

  /** `None` when the recorded position does not exist any more, which the program answers with an exception. */
  function OnDelete(log: Log, id: Id, saved: seq<byte>): (r: Option<Log>) {
    if id !in log.index then Some(Push(log, Delete(id), id, saved))
    else if log.index[id] >= |log.actions| then None
    else Some(log.(actions := Cancel(log.actions, log.index[id], id)))
  }

  // ------------------------------------------------------------------ operations of a run

  datatype Operation = Add(object: Object) | Modify(id: Id, attributes: seq<S.Attribute>) | Remove(id: Id)

  /** One operation inside a transaction; one that does not apply changes nothing. */
  function Step(s: State, op: Operation, schema: Schema): (r: Option<State>)
    requires StoreOk(s.store, schema)
    ensures r.Some? ==> StoreOk(r.value.store, schema)
  {
    var st, log := s.store, s.log;
    match op
    case Add(o) =>
      if !Shaped(o, schema) then Some(s)
      else
        Some(State(Store(st.live + {st.next}, st.memory[st.next := o], st.next + 1), OnInsert(log, st.next, o.kind)))
    case Modify(id, attributes) =>
      if id !in st.live || !S.Fits(attributes, schema(st.memory[id].kind)) then Some(s)
      else
        Some(State(st.(memory := st.memory[id := st.memory[id].(attributes := attributes)]),
                   OnUpdate(log, id, Bytes(st.memory[id], schema))))
    case Remove(id) =>
      if id !in st.live then Some(s)
      else
        match OnDelete(log, id, Bytes(st.memory[id], schema))
        case None => None
        case Some(log') => Some(State(st.(live := st.live - {id}), log'))
  }

  // ------------------------------------------------------------------ rollback

  /** `None` when an inserted object is not in the store any more, which the program answers with an exception. */
  function RemoveAll(live: set<Id>, ids: seq<Id>): (r: Option<set<Id>>) {
    if ids == [] then Some(live)
    else if ids[0] !in live then None
    else RemoveAll(live - {ids[0]}, ids[1..])
  }

  function RestoreObject(st: Store, id: Id, queue: seq<byte>, schema: Schema): (r: Option<(Store, seq<byte>)>) {
    if id !in st.memory then None
    else
      match S.DecodeAll(schema(st.memory[id].kind), queue)
      case None => None
      case Some((attributes, rest)) =>
        Some((st.(memory := st.memory[id := st.memory[id].(attributes := attributes)]), rest))
  }

  /** Undoes the actions from the front. */
  function Undo(st: Store, actions: seq<Action>, queue: seq<byte>, schema: Schema): (r: Option<Store>)
    decreases |actions|
  {
    if actions == [] then Some(st)
    else
      match actions[0]
      case Insert(_, ids) =>
        (match RemoveAll(st.live, ids)
         case None => None
         case Some(live) => Undo(st.(live := live), actions[1..], queue, schema))
      case Update(id) =>
        (match RestoreObject(st, id, queue, schema)
         case None => None
         case Some((st', rest)) => Undo(st', actions[1..], rest, schema))
      case Delete(id) =>
        (match RestoreObject(st.(live := st.live + {id}), id, queue, schema)
         case None => None
         case Some((st', rest)) => Undo(st', actions[1..], rest, schema))
  }
}
