/** A transaction over the object store, with its log in a chunked byte buffer. */
module Transactions {
  import opened ByteBuffers
  import opened UndoLog
  import P = UndoLogProofs
  import S = Serializer

  /**
    What holds in every run, also in one where a delete missed its action: the
    queue is the concatenation of the saved states, in the order of the update
    and delete actions, and objects without an action are as they were.
  */
  ghost predicate Readable(s: State, base: P.Base, schema: Schema) {
    && StoreOk(s.store, schema) && P.BaseOk(base, schema)
    && s.log.queue == P.Saved(s.log.actions, base, schema)
    && (forall a :: a in s.log.actions && !a.Insert? ==> a.id in base)
    && (forall id :: id in base ==> id in s.store.memory && s.store.memory[id].kind == base[id].kind)
    && (forall id :: id in s.store.live && id !in s.log.index ==> id in base && s.store.memory[id] == base[id])
  }

  lemma BeginReadable(st: Store, schema: Schema)
    requires StoreOk(st, schema)
    ensures Readable(P.Begin(st), Contents(st), schema)
  {
  }

  lemma StepReadable(s: State, op: Operation, base: P.Base, schema: Schema)
    requires Readable(s, base, schema) && Step(s, op, schema).Some?
    ensures Readable(Step(s, op, schema).value, base, schema)
  {
    hide P.Saved, Shaped, Bytes;
    var actions, actions' := s.log.actions, Step(s, op, schema).value.log.actions;
    match op
    case Add(o) =>
      var i := FindInsert(actions, o.kind);
      if i < |actions| {
        P.SavedReplaced(actions, i, Insert(o.kind, actions[i].ids + [s.store.next]), base, schema);
      } else {
        P.SavedPush(actions, Insert(o.kind, [s.store.next]), base, schema);
      }
    case Modify(id, attributes) =>
      P.SavedPush(actions, Update(id), base, schema);
    case Remove(id) =>
      P.SavedPush(actions, Delete(id), base, schema);
      if id in s.log.index && s.log.index[id] < |actions| {
        CancelReadable(actions, s.log.index[id], id, base, schema);
      }
  }

  lemma CancelReadable(actions: seq<Action>, i: nat, id: Id, base: P.Base, schema: Schema)
    requires i < |actions| && P.BaseOk(base, schema)
    requires forall a :: a in actions && !a.Insert? ==> a.id in base
    ensures P.Saved(Cancel(actions, i, id), base, schema) == P.Saved(actions, base, schema)
    ensures forall a :: a in Cancel(actions, i, id) && !a.Insert? ==> a.id in base
  {
    hide P.Saved, Shaped;
    assert actions[i] in actions;
    match actions[i]
    case Insert(kind, ids) =>
      var rest := Without(ids, id);
      if rest == [] {
        P.SavedErased(actions, i, base, schema);
      } else {
        P.SavedReplaced(actions, i, Insert(kind, rest), base, schema);
      }
    case Update(x) =>
      if x == id { P.SavedReplaced(actions, i, Delete(id), base, schema); }
    case Delete(_) =>
  }

  lemma ReadableStore(s: State, base: P.Base, schema: Schema)
    requires Readable(s, base, schema)
    ensures StoreOk(s.store, schema)
  {
  }

  /** Rollback can read back every state that the remaining actions saved. */
  ghost predicate Undoable(memory: map<Id, Object>, actions: seq<Action>, queue: seq<byte>, base: P.Base, schema: Schema) {
    && P.BaseOk(base, schema) && queue == P.Saved(actions, base, schema)
    && (forall a :: a in actions && !a.Insert? ==> a.id in base)
    && (forall id :: id in base ==> id in memory && memory[id].kind == base[id].kind)
  }

  lemma ReadableUndoable(s: State, base: P.Base, schema: Schema)
    requires Readable(s, base, schema)
    ensures Undoable(s.store.memory, s.log.actions, s.log.queue, base, schema)
  {
  }

  lemma InsertUndoable(memory: map<Id, Object>, actions: seq<Action>, queue: seq<byte>, base: P.Base, schema: Schema)
    requires Undoable(memory, actions, queue, base, schema) && actions != [] && actions[0].Insert?
    ensures Undoable(memory, actions[1..], queue, base, schema)
  {
    P.SavedFront(actions, base, schema);
  }

  /** The front of the queue holds the state that the first update or delete action saved. */
  lemma FrontUndoable(memory: map<Id, Object>, actions: seq<Action>, queue: seq<byte>, base: P.Base, schema: Schema)
    requires Undoable(memory, actions, queue, base, schema) && actions != [] && !actions[0].Insert?
    ensures
      var id := actions[0].id;
      && id in base && id in memory
      && S.DecodeAll(schema(memory[id].kind), queue)
         == S.Some((base[id].attributes, P.Saved(actions[1..], base, schema)))
      && Undoable(memory[id := memory[id].(attributes := base[id].attributes)], actions[1..],
                  P.Saved(actions[1..], base, schema), base, schema)
  {
    hide P.Saved;
    var id := actions[0].id;
    assert actions[0] in actions;
    P.SavedFront(actions, base, schema);
    S.ObjectRoundTrip(base[id].attributes, schema(base[id].kind), P.Saved(actions[1..], base, schema));
  }

  lemma Restored(st: Store, id: Id, queue: seq<byte>, schema: Schema)
    requires id in st.memory && RestoreObject(st, id, queue, schema).Some?
    ensures
      S.DecodeAll(schema(st.memory[id].kind), queue).Some? &&
      var (attributes, rest) := S.DecodeAll(schema(st.memory[id].kind), queue).value;
      RestoreObject(st, id, queue, schema)
        == Some((st.(memory := st.memory[id := st.memory[id].(attributes := attributes)]), rest))
  {
  }

  class Transaction {
    const schema: Schema
    const buffer: ByteBuffer
    var actions: seq<Action>
    var index: map<Id, nat>
    var live: set<Id>
    var memory: map<Id, Object>
    var next: Id
    ghost var base: P.Base // what the store held at the beginning

    ghost function View(): (s: State)
      requires buffer.Valid()
      reads this, buffer, buffer.chunks, set c | c in buffer.chunks :: c.data
    {
      State(Store(live, memory, next), Log(actions, index, buffer.Contents()))
    }

    ghost predicate Valid()
      reads this, buffer, buffer.chunks, set c | c in buffer.chunks :: c.data
    {
      buffer.Valid() && Readable(View(), base, schema)
    }

    /** The objects in the store. */
    ghost function Held(): (m: map<Id, Object>)
      reads this`live, this`memory
    {
      Contents(Store(live, memory, 0))
    }

    ghost function Repr(): (r: set<object>)
      reads this, buffer
    {
      {this, buffer} + ByteBuffer.Footprint(buffer.chunks)
    }

    constructor (schema: Schema, live: set<Id>, memory: map<Id, Object>, next: Id)
      requires StoreOk(Store(live, memory, next), schema)
      ensures Valid() && View() == P.Begin(Store(live, memory, next)) && this.schema == schema
      ensures base == Contents(Store(live, memory, next)) && fresh(Repr())
    {
      this.schema := schema;
      buffer := new ByteBuffer();
      actions, index := [], map[];
      this.live, this.memory, this.next := live, memory, next;
      base := Contents(Store(live, memory, next));
      new;
      BeginReadable(Store(live, memory, next), schema);
    }

    /** Adds an object to the store and records it with the other new objects of its type. */
    method Add(o: Object)
      requires Valid() && Shaped(o, schema)
      modifies this
      ensures Valid() && base == old(base) && Some(View()) == Step(old(View()), UndoLog.Add(o), schema)
      ensures old(next) !in old(Held()) && Held() == old(Held())[old(next) := o]
    {
      hide Readable, ByteBuffer.Valid, ByteBuffer.Contents, Shaped;
      ReadableStore(View(), base, schema);
      StepReadable(View(), UndoLog.Add(o), base, schema);
      P.AddContents(View(), o, schema);
      var id := next;
      live, memory, next := live + {id}, memory[id := o], next + 1;
      var i := 0;
      while i < |actions| && !(actions[i].Insert? && actions[i].kind == o.kind)
        invariant i <= |actions|
        invariant forall j :: 0 <= j < i ==> !(actions[j].Insert? && actions[j].kind == o.kind)
      {
        i := i + 1;
      }
      if i < |actions| {
        actions := actions[i := Insert(o.kind, actions[i].ids + [id])];
      } else {
        actions := actions + [Insert(o.kind, [id])];
      }
      index := index[id := i];
    }

    /** Changes an object, saving its state first unless it has an action already. */
    method Modify(id: Id, attributes: seq<S.Attribute>)
      requires Valid() && id in live && S.Fits(attributes, schema(memory[id].kind))
      modifies Repr()
      ensures Valid() && base == old(base) && Some(View()) == Step(old(View()), UndoLog.Modify(id, attributes), schema)
      ensures Held() == old(Held())[id := Object(old(memory)[id].kind, attributes)]
      ensures fresh(Repr() - old(Repr()))
    {
      hide Readable, ByteBuffer.Valid, ByteBuffer.Contents, S.Fits, S.EncodeAll;
      ReadableStore(View(), base, schema);
      StepReadable(View(), UndoLog.Modify(id, attributes), base, schema);
      P.ModifyContents(View(), id, attributes, schema);
      if id !in index {
        S.Backup(buffer, memory[id].attributes, schema(memory[id].kind));
        index := index[id := |actions|];
        actions := actions + [Update(id)];
      }
      memory := memory[id := memory[id].(attributes := attributes)];
    }

    /** Removes an object; fails if the position recorded for it does not exist any more. */
    method Remove(id: Id) returns (ok: bool)
      requires Valid() && id in live
      modifies Repr()
      ensures ok <==> Step(old(View()), UndoLog.Remove(id), schema).Some?
      ensures ok ==> Valid() && base == old(base) && Some(View()) == Step(old(View()), UndoLog.Remove(id), schema)
      ensures Held() == old(Held()) - {id}
      ensures fresh(Repr() - old(Repr()))
    {
      hide Readable, ByteBuffer.Valid, ByteBuffer.Contents, S.Fits, S.EncodeAll, Cancel;
      ReadableStore(View(), base, schema);
      P.RemoveContents(View(), id, schema);
      if Step(View(), UndoLog.Remove(id), schema).Some? { StepReadable(View(), UndoLog.Remove(id), base, schema); }
      live := live - {id};
      if id !in index {
        S.Backup(buffer, memory[id].attributes, schema(memory[id].kind));
        index := index[id := |actions|];
        actions := actions + [Delete(id)];
        return true;
      }
      if index[id] >= |actions| {
        return false;
      }
      actions := Cancel(actions, index[id], id);
      return true;
    }

    /** Takes objects out of the store again; fails if one is not there. */
    method TakeOut(ids: seq<Id>) returns (ok: bool)
      modifies this`live
      ensures ok <==> RemoveAll(old(live), ids).Some?
      ensures ok ==> Some(live) == RemoveAll(old(live), ids)
    {
      for i := 0 to |ids|
        invariant RemoveAll(old(live), ids) == RemoveAll(live, ids[i..])
      {
        if ids[i] !in live {
          return false;
        }
        live := live - {ids[i]};
        assert ids[i..][1..] == ids[i + 1..];
      }
      return true;
    }

    /** Reads the saved state of an object back from the buffer. */
    method RestoreFront(id: Id)
      requires buffer.Valid() && id in memory && S.DecodeAll(schema(memory[id].kind), buffer.Contents()).Some?
      modifies this`memory, buffer, ByteBuffer.Footprint(buffer.chunks)
      ensures buffer.Valid() && fresh(ByteBuffer.Footprint(buffer.chunks) - old(ByteBuffer.Footprint(buffer.chunks)))
      ensures RestoreObject(Store(live, old(memory), next), id, old(buffer.Contents()), schema)
              == Some((Store(live, memory, next), buffer.Contents()))
    {
      hide ByteBuffer.Valid, ByteBuffer.Contents, S.DecodeAll;
      var attributes := S.Restore(buffer, schema(memory[id].kind));
      memory := memory[id := memory[id].(attributes := attributes)];
    }

    /** Undoes one action. */
    method Restore(a: Action) returns (ok: bool)
      requires buffer.Valid() && actions != [] && actions[0] == a && Undoable(memory, actions, buffer.Contents(), base, schema)
      modifies this`live, this`memory, this`actions, buffer, ByteBuffer.Footprint(buffer.chunks)
      ensures buffer.Valid() && fresh(ByteBuffer.Footprint(buffer.chunks) - old(ByteBuffer.Footprint(buffer.chunks)))
      ensures actions == old(actions)[1..]
      ensures !ok ==> Undo(Store(old(live), old(memory), next), old(actions), old(buffer.Contents()), schema) == None
      ensures ok ==> Undoable(memory, actions, buffer.Contents(), base, schema)
      ensures ok ==> Undo(Store(old(live), old(memory), next), old(actions), old(buffer.Contents()), schema)
                     == Undo(Store(live, memory, next), actions, buffer.Contents(), schema)
    {
      hide ByteBuffer.Valid, ByteBuffer.Contents, S.DecodeAll, Undoable, RemoveAll, RestoreObject;
      ok := true;
      actions := actions[1..];
      match a
      case Insert(_, ids) =>
        InsertUndoable(memory, old(actions), buffer.Contents(), base, schema);
        ok := TakeOut(ids);
      case Update(id) =>
        FrontUndoable(memory, old(actions), buffer.Contents(), base, schema);
        RestoreFront(id);
        Restored(Store(live, old(memory), next), id, old(buffer.Contents()), schema);
      case Delete(id) =>
        FrontUndoable(memory, old(actions), buffer.Contents(), base, schema);
        live := live + {id};
        RestoreFront(id);
        Restored(Store(live, old(memory), next), id, old(buffer.Contents()), schema);
    }

    /** Undoes all actions, oldest first, and empties the log; fails if an inserted object is gone. */
    method Rollback() returns (ok: bool)
      requires Valid()
      modifies Repr()
      ensures ok <==> Undo(old(View()).store, old(actions), old(View()).log.queue, schema).Some?
      ensures ok ==> Some(Store(live, memory, next)) == Undo(old(View()).store, old(actions), old(View()).log.queue, schema)
      ensures ok ==> buffer.Valid() && buffer.Contents() == [] && actions == [] && index == map[]
    {
      hide Readable, ByteBuffer.Valid, ByteBuffer.Contents, Undoable;
      ReadableUndoable(View(), base, schema);
      ghost var result := Undo(View().store, actions, View().log.queue, schema);
      while actions != []
        invariant buffer.Valid() && Undoable(memory, actions, buffer.Contents(), base, schema)
        invariant fresh(ByteBuffer.Footprint(buffer.chunks) - old(ByteBuffer.Footprint(buffer.chunks)))
        invariant Undo(Store(live, memory, next), actions, buffer.Contents(), schema) == result
        decreases |actions|
      {
        ok := Restore(actions[0]);
        if !ok {
          return;
        }
      }
      buffer.Clear();
      index := map[];
      return true;
    }

    /** One operation of a run; one that does not apply changes nothing. */
    method Apply(op: Operation) returns (ok: bool)
      requires Valid()
      modifies Repr()
      ensures ok <==> Step(old(View()), op, schema).Some?
      ensures ok ==> Valid() && base == old(base) && Some(View()) == Step(old(View()), op, schema)
      ensures fresh(Repr() - old(Repr()))
    {
      hide Readable, ByteBuffer.Valid, ByteBuffer.Contents, Shaped, S.Fits, OnInsert, OnUpdate, OnDelete, Bytes;
      ReadableStore(View(), base, schema);
      ok := true;
      match op
      case Add(o) =>
        if Shaped(o, schema) { Add(o); }
      case Modify(id, attributes) =>
        if id in live && S.Fits(attributes, schema(memory[id].kind)) { Modify(id, attributes); }
      case Remove(id) =>
        if id in live { ok := Remove(id); }
    }

    /**
      A run on a transaction that has just begun, and its rollback: the store holds
      what it held if and only if every delete found the action of its object.
    */
    method RunAndRollback(ops: seq<Operation>) returns (ok: bool)
      requires Valid() && View() == P.Begin(Store(live, memory, next)) && base == Contents(Store(live, memory, next))
      modifies Repr()
      ensures (ok && Contents(Store(live, memory, next)) == old(base))
              <==> P.AllFind(P.Begin(old(View()).store), ops, schema)
    {
      hide Readable, ByteBuffer.Valid, ByteBuffer.Contents, Step, Undo, Contents, P.AllFind;
      ghost var st := View().store;
      ReadableStore(View(), base, schema);
      P.RollbackRestores(st, ops, schema);
      for i := 0 to |ops|
        invariant Valid() && base == old(base) && fresh(Repr() - old(Repr())) && StoreOk(View().store, schema)
        invariant P.RolledBack(P.Begin(st), ops, schema) == P.RolledBack(View(), ops[i..], schema)
      {
        assert ops[i..][1..] == ops[i + 1..] && ops[i..][0] == ops[i];
        ok := Apply(ops[i]);
        if !ok {
          return;
        }
      }
      ok := Rollback();
    }
  }
}
