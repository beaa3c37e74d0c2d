/** Rollback restores what the store held when the transaction began, and exactly when. */
module UndoLogProofs {
  import opened ByteBuffers
  import opened UndoLog
  import S = Serializer

  type Base = map<Id, Object>

  // ------------------------------------------------------------------ which action an object has

  ghost predicate Mentions(a: Action, id: Id) {
    match a
    case Insert(_, ids) => id in ids
    case Update(x) => x == id
    case Delete(x) => x == id
  }

  /** No object has two actions, and no insert action names one twice or is empty. */
  ghost predicate Single(actions: seq<Action>) {
    && (forall i, j, id :: 0 <= i < j < |actions| && Mentions(actions[i], id) ==> !Mentions(actions[j], id))
    && (forall i :: 0 <= i < |actions| ==> NoRepeats(actions[i]))
  }

  ghost predicate NoRepeats(a: Action) {
    a.Insert? ==> a.ids != [] && forall i, j :: 0 <= i < j < |a.ids| ==> a.ids[i] != a.ids[j]
  }

  /** An action agrees with the store: inserted objects are new and present, updated ones old and present, deleted ones old and absent. */
  ghost predicate Agrees(a: Action, live: set<Id>, base: Base) {
    match a
    case Insert(_, ids) => forall id :: id in ids ==> id in live && id !in base
    case Update(id) => id in live && id in base
    case Delete(id) => id !in live && id in base
  }

  ghost predicate Has(actions: seq<Action>, id: Id) {
    exists i :: 0 <= i < |actions| && Mentions(actions[i], id)
  }

  /** The states at the beginning of the objects with update and delete actions, in the order of the actions. */
  ghost function Saved(actions: seq<Action>, base: Base, schema: Schema): (s: seq<byte>)
    requires forall id :: id in base ==> Shaped(base[id], schema)
  {
    if actions == [] then []
    else Saved(actions[..|actions| - 1], base, schema) + SavedBy(actions[|actions| - 1], base, schema)
  }

  ghost function SavedBy(a: Action, base: Base, schema: Schema): (s: seq<byte>)
    requires forall id :: id in base ==> Shaped(base[id], schema)
  {
    if !a.Insert? && a.id in base then Bytes(base[a.id], schema) else []
  }

  /** The store and the actions together determine the contents at the beginning. */
  ghost predicate Covers(st: Store, actions: seq<Action>, base: Base) {
    && (forall id :: id in base ==> id in st.memory && st.memory[id].kind == base[id].kind)
    && (forall id :: id in base && !Has(actions, id) ==> id in st.live && st.memory[id] == base[id])
    && (forall id :: id in st.live && id !in base ==> Has(actions, id))
    && (forall i :: 0 <= i < |actions| ==> Agrees(actions[i], st.live, base))
  }

  ghost predicate BaseOk(base: Base, schema: Schema) {
    forall id :: id in base ==> Shaped(base[id], schema)
  }

  /** The invariant of a run in which every delete finds the action of its object. */
  ghost predicate Good(s: State, base: Base, schema: Schema) {
    && StoreOk(s.store, schema) && BaseOk(base, schema)
    && Single(s.log.actions) && Covers(s.store, s.log.actions, base)
    && s.log.queue == Saved(s.log.actions, base, schema)
    && (forall id :: Has(s.log.actions, id) ==> id in s.log.index)
    && (forall id :: id in s.log.index ==> id < s.store.next && (id in s.store.live || id in base ==> Has(s.log.actions, id)))
  }

  // ------------------------------------------------------------------ undoing

  /** One action undone from the front keeps the remaining ones right. */
  lemma {:induction false} SavedFront(actions: seq<Action>, base: Base, schema: Schema)
    requires actions != [] && BaseOk(base, schema)
    ensures Saved(actions, base, schema) == SavedBy(actions[0], base, schema) + Saved(actions[1..], base, schema)
    decreases |actions|
  {
    hide SavedBy;
    var n := |actions| - 1;
    if n > 0 {
      SavedFront(actions[..n], base, schema);
      assert actions[..n][1..] == actions[1..][..n - 1];
      var first, middle, last :=
        SavedBy(actions[0], base, schema), Saved(actions[1..][..n - 1], base, schema), SavedBy(actions[n], base, schema);
      assert Saved(actions[1..], base, schema) == middle + last;
      assert (first + middle) + last == first + (middle + last);
    } else {
      assert actions[..0] == [] && actions[1..] == [];
    }
  }

  lemma {:induction false} RemoveAllOk(live: set<Id>, ids: seq<Id>)
    requires forall i, j :: 0 <= i < j < |ids| ==> ids[i] != ids[j]
    requires forall id :: id in ids ==> id in live
    ensures RemoveAll(live, ids) == Some(live - (set id | id in ids))
    decreases |ids|
  {
    if ids != [] {
      RemoveAllOk(live - {ids[0]}, ids[1..]);
      assert live - {ids[0]} - (set id | id in ids[1..]) == live - (set id | id in ids);
    } else {
      assert live - (set id | id in ids) == live;
    }
  }

  lemma HasTail(actions: seq<Action>, id: Id)
    requires actions != [] && Single(actions)
    ensures Has(actions, id) <==> Mentions(actions[0], id) || Has(actions[1..], id)
    ensures Mentions(actions[0], id) ==> !Has(actions[1..], id)
  {
    if Has(actions[1..], id) {
      var i :| 0 <= i < |actions[1..]| && Mentions(actions[1..][i], id);
      assert Mentions(actions[i + 1], id);
    }
    if Has(actions, id) {
      var i :| 0 <= i < |actions| && Mentions(actions[i], id);
      assert i > 0 ==> Mentions(actions[1..][i - 1], id);
    }
  }

  lemma SingleTail(actions: seq<Action>)
    requires actions != [] && Single(actions)
    ensures Single(actions[1..])
  {
  }

  /** Rollback from a covered store gives back the contents at the beginning. */
  lemma {:induction false} UndoRestores(st: Store, actions: seq<Action>, queue: seq<byte>, base: Base, schema: Schema)
    requires StoreOk(st, schema) && BaseOk(base, schema) && Single(actions) && Covers(st, actions, base)
    requires queue == Saved(actions, base, schema)
    ensures Undo(st, actions, queue, schema).Some? && Contents(Undo(st, actions, queue, schema).value) == base
    decreases |actions|
  {
    hide Saved, Single, Covers, Contents, StoreOk, Shaped, RemoveAll, RestoreObject;
    if actions == [] {
      CoveredIsBase(st, base);
    } else {
      SavedFront(actions, base, schema);
      SingleTail(actions);
      if actions[0].Insert? {
        UndoInsert(st, actions, base);
        var live' := st.live - (set id | id in actions[0].ids);
        FewerOk(st, live', schema);
        UndoRestores(st.(live := live'), actions[1..], queue, base, schema);
      } else {
        UndoSaved(st, actions, queue, base, schema);
        var id := actions[0].id;
        var live' := if actions[0].Delete? then st.live + {id} else st.live;
        RestoredOk(st, live', id, base, actions, schema);
        UndoRestores(st.(live := live', memory := st.memory[id := base[id]]), actions[1..], Saved(actions[1..], base, schema), base, schema);
      }
    }
  }

  lemma CoveredIsBase(st: Store, base: Base)
    requires Covers(st, [], base)
    ensures Contents(st) == base
  {
    assert forall id :: !Has([], id);
  }

  lemma FewerOk(st: Store, live': set<Id>, schema: Schema)
    requires StoreOk(st, schema) && live' <= st.live
    ensures StoreOk(st.(live := live'), schema)
  {
  }

  lemma RestoredOk(st: Store, live': set<Id>, id: Id, base: Base, actions: seq<Action>, schema: Schema)
    requires StoreOk(st, schema) && BaseOk(base, schema) && Covers(st, actions, base) && id in base && live' <= st.live + {id}
    ensures StoreOk(st.(live := live', memory := st.memory[id := base[id]]), schema)
  {
    hide Shaped, Has;
  }

  lemma UndoInsert(st: Store, actions: seq<Action>, base: Base)
    requires actions != [] && actions[0].Insert? && Single(actions) && Covers(st, actions, base)
    ensures RemoveAll(st.live, actions[0].ids) == Some(st.live - (set id | id in actions[0].ids))
    ensures Covers(st.(live := st.live - (set id | id in actions[0].ids)), actions[1..], base)
  {
    hide Has;
    assert NoRepeats(actions[0]) && Agrees(actions[0], st.live, base);
    RemoveAllOk(st.live, actions[0].ids);
    var live' := st.live - (set id | id in actions[0].ids);
    forall id ensures Has(actions, id) <==> Mentions(actions[0], id) || Has(actions[1..], id) {
      HasTail(actions, id);
    }
    forall i | 0 <= i < |actions[1..]| ensures Agrees(actions[1..][i], live', base) {
      assert Agrees(actions[i + 1], st.live, base);
      assert forall id :: id in actions[0].ids ==> Mentions(actions[0], id);
      AgreesWithout(actions[i + 1], actions[0].ids, st.live, base);
    }
  }

  lemma AgreesWithout(a: Action, ids: seq<Id>, live: set<Id>, base: Base)
    requires Agrees(a, live, base) && forall id :: id in ids ==> !Mentions(a, id)
    ensures Agrees(a, live - (set id | id in ids), base)
  {
  }

  lemma UndoSaved(st: Store, actions: seq<Action>, queue: seq<byte>, base: Base, schema: Schema)
    requires BaseOk(base, schema)
    requires actions != [] && !actions[0].Insert? && Single(actions) && Covers(st, actions, base)
    requires queue == SavedBy(actions[0], base, schema) + Saved(actions[1..], base, schema)
    ensures actions[0].id in base
    ensures
      var id := actions[0].id;
      var live' := if actions[0].Delete? then st.live + {id} else st.live;
      var st' := st.(live := live', memory := st.memory[id := base[id]]);
      && RestoreObject(st.(live := live'), id, queue, schema) == Some((st', Saved(actions[1..], base, schema)))
      && Covers(st', actions[1..], base)
  {
    hide Saved, Single, Has, Mentions;
    var id := actions[0].id;
    assert Agrees(actions[0], st.live, base);
    var live' := if actions[0].Delete? then st.live + {id} else st.live;
    var st' := st.(live := live', memory := st.memory[id := base[id]]);
    RestoresFront(st.(live := live'), id, queue, Saved(actions[1..], base, schema), base, schema);
    assert Covers(st', actions[1..], base) by { CoversRest(st, actions, base); }
  }

  /** Reading the state of an object back from the front of the buffer. */
  lemma RestoresFront(st: Store, id: Id, queue: seq<byte>, rest: seq<byte>, base: Base, schema: Schema)
    requires BaseOk(base, schema) && id in base && id in st.memory && st.memory[id].kind == base[id].kind
    requires queue == Bytes(base[id], schema) + rest
    ensures RestoreObject(st, id, queue, schema) == Some((st.(memory := st.memory[id := base[id]]), rest))
  {
    S.ObjectRoundTrip(base[id].attributes, schema(base[id].kind), rest);
  }

  /** With the first action undone the others still cover what differs. */
  lemma CoversRest(st: Store, actions: seq<Action>, base: Base)
    requires actions != [] && !actions[0].Insert? && Single(actions) && Covers(st, actions, base)
    requires actions[0].id in base
    ensures
      var id := actions[0].id;
      var live' := if actions[0].Delete? then st.live + {id} else st.live;
      Covers(st.(live := live', memory := st.memory[id := base[id]]), actions[1..], base)
  {
    var id := actions[0].id;
    var live' := if actions[0].Delete? then st.live + {id} else st.live;
    forall x ensures Has(actions, x) <==> Mentions(actions[0], x) || Has(actions[1..], x)
             ensures Mentions(actions[0], x) ==> !Has(actions[1..], x) {
      HasTail(actions, x);
    }
    forall i | 0 <= i < |actions[1..]| ensures Agrees(actions[1..][i], live', base) {
      assert Agrees(actions[i + 1], st.live, base);
      assert !Mentions(actions[i + 1], id);
    }
  }

  // ------------------------------------------------------------------ changing the list of actions

  lemma HasPush(actions: seq<Action>, a: Action, id: Id)
    ensures Has(actions + [a], id) <==> Has(actions, id) || Mentions(a, id)
  {
    var r := actions + [a];
    if Has(actions, id) {
      var i :| 0 <= i < |actions| && Mentions(actions[i], id);
      assert Mentions(r[i], id);
    }
    if Mentions(a, id) {
      assert Mentions(r[|actions|], id);
    }
  }

  lemma HasReplaced(actions: seq<Action>, i: nat, a: Action, id: Id)
    requires Single(actions) && i < |actions|
    ensures Has(actions[i := a], id) <==> Mentions(a, id) || (Has(actions, id) && !Mentions(actions[i], id))
  {
    var r := actions[i := a];
    if Has(actions, id) && !Mentions(actions[i], id) {
      var j :| 0 <= j < |actions| && Mentions(actions[j], id);
      assert Mentions(r[j], id);
    }
    if Mentions(a, id) {
      assert Mentions(r[i], id);
    }
    if Has(r, id) {
      var j :| 0 <= j < |r| && Mentions(r[j], id);
      assert j != i ==> Mentions(actions[j], id);
    }
  }

  lemma HasErased(actions: seq<Action>, i: nat, id: Id)
    requires Single(actions) && i < |actions|
    ensures Has(actions[..i] + actions[i + 1..], id) <==> Has(actions, id) && !Mentions(actions[i], id)
  {
    var r := actions[..i] + actions[i + 1..];
    if Has(r, id) {
      var j :| 0 <= j < |r| && Mentions(r[j], id);
      assert r[j] == actions[if j < i then j else j + 1];
    }
    if Has(actions, id) && !Mentions(actions[i], id) {
      var j :| 0 <= j < |actions| && Mentions(actions[j], id);
      assert r[if j < i then j else j - 1] == actions[j];
    }
  }

  lemma SinglePush(actions: seq<Action>, a: Action)
    requires Single(actions) && NoRepeats(a) && forall id :: Mentions(a, id) ==> !Has(actions, id)
    ensures Single(actions + [a])
  {
    var r := actions + [a];
    forall i, j, id | 0 <= i < j < |r| && Mentions(r[i], id) ensures !Mentions(r[j], id) {
      assert Mentions(actions[i], id) ==> Has(actions, id);
    }
  }

  lemma SingleReplaced(actions: seq<Action>, i: nat, a: Action)
    requires Single(actions) && i < |actions| && NoRepeats(a)
    requires forall id :: Mentions(a, id) ==> Mentions(actions[i], id) || !Has(actions, id)
    ensures Single(actions[i := a])
  {
    var r := actions[i := a];
    forall j, k, id | 0 <= j < k < |r| && Mentions(r[j], id) ensures !Mentions(r[k], id) {
      assert Mentions(actions[k], id) ==> Has(actions, id);
      assert Mentions(actions[j], id) ==> Has(actions, id);
    }
  }

  lemma SingleErased(actions: seq<Action>, i: nat)
    requires Single(actions) && i < |actions|
    ensures Single(actions[..i] + actions[i + 1..])
  {
    var r := actions[..i] + actions[i + 1..];
    forall j, k, id | 0 <= j < k < |r| && Mentions(r[j], id) ensures !Mentions(r[k], id) {
      var j', k' := if j < i then j else j + 1, if k < i then k else k + 1;
      assert r[j] == actions[j'] && r[k] == actions[k'];
    }
    forall j | 0 <= j < |r| ensures NoRepeats(r[j]) {
      assert r[j] == actions[if j < i then j else j + 1];
    }
  }

  lemma {:induction false} SavedReplaced(actions: seq<Action>, i: nat, a: Action, base: Base, schema: Schema)
    requires BaseOk(base, schema) && i < |actions| && SavedBy(a, base, schema) == SavedBy(actions[i], base, schema)
    ensures Saved(actions[i := a], base, schema) == Saved(actions, base, schema)
    decreases |actions|
  {
    var n := |actions| - 1;
    if i < n {
      SavedReplaced(actions[..n], i, a, base, schema);
      assert actions[i := a][..n] == actions[..n][i := a];
    } else {
      assert actions[i := a][..n] == actions[..n];
    }
  }

  lemma {:induction false} SavedErased(actions: seq<Action>, i: nat, base: Base, schema: Schema)
    requires BaseOk(base, schema) && i < |actions| && SavedBy(actions[i], base, schema) == []
    ensures Saved(actions[..i] + actions[i + 1..], base, schema) == Saved(actions, base, schema)
    decreases |actions|
  {
    hide SavedBy, Shaped, BaseOk;
    var n := |actions| - 1;
    var r := actions[..i] + actions[i + 1..];
    if i < n {
      SavedErased(actions[..n], i, base, schema);
      assert r[..n - 1] == actions[..n][..i] + actions[..n][i + 1..];
      assert r[n - 1] == actions[n] && |r| == n;
    } else {
      assert r == actions[..n];
    }
  }

  lemma SavedPush(actions: seq<Action>, a: Action, base: Base, schema: Schema)
    requires BaseOk(base, schema)
    ensures Saved(actions + [a], base, schema) == Saved(actions, base, schema) + SavedBy(a, base, schema)
  {
    assert (actions + [a])[..|actions|] == actions;
  }

  predicate Different(ids: seq<Id>) {
    forall i, j :: 0 <= i < j < |ids| ==> ids[i] != ids[j]
  }

  lemma {:induction false} WithoutIs(ids: seq<Id>, id: Id)
    requires Different(ids)
    ensures forall x :: x in Without(ids, id) <==> x in ids && x != id
    ensures Different(Without(ids, id))
    decreases |ids|
  {
    if ids != [] {
      var tail := ids[1..];
      assert ids == [ids[0]] + tail && ids[0] !in tail && Different(tail);
      if ids[0] != id {
        WithoutIs(tail, id);
        FirstDifferent(ids[0], Without(tail, id));
      }
    }
  }

  lemma FirstDifferent(id: Id, ids: seq<Id>)
    requires id !in ids && Different(ids)
    ensures Different([id] + ids) && forall x :: x in [id] + ids <==> x == id || x in ids
  {
  }

  // ------------------------------------------------------------------ one step keeps the invariant

  ghost predicate Located(log: Log, id: Id) {
    id in log.index && log.index[id] < |log.actions| && Mentions(log.actions[log.index[id]], id)
  }

  /** A delete finds the action of its object where it was recorded. */
  ghost predicate Finds(s: State, op: Operation) {
    op.Remove? && op.id in s.store.live && op.id in s.log.index ==> Located(s.log, op.id)
  }

  /** Recording a new object: it gets an action, everything else stays. */
  lemma AddLog(log: Log, id: Id, kind: Name, base: Base, schema: Schema)
    requires Single(log.actions) && BaseOk(base, schema) && !Has(log.actions, id)
    ensures
      var actions' := OnInsert(log, id, kind).actions;
      && Single(actions') && Saved(actions', base, schema) == Saved(log.actions, base, schema)
      && forall x :: Has(actions', x) <==> Has(log.actions, x) || x == id
  {
    hide Has, Saved;
    var actions := log.actions;
    var i := FindInsert(actions, kind);
    var actions' := OnInsert(log, id, kind).actions;
    if i < |actions| {
      var a := Insert(kind, actions[i].ids + [id]);
      assert NoRepeats(actions[i]);
      HasAt(actions, i, id);
      SingleReplaced(actions, i, a);
      SavedReplaced(actions, i, a, base, schema);
      forall x ensures Has(actions', x) <==> Has(actions, x) || x == id {
        HasReplaced(actions, i, a, x);
        HasAt(actions, i, x);
      }
    } else {
      var a := Insert(kind, [id]);
      SinglePush(actions, a);
      SavedPush(actions, a, base, schema);
      forall x ensures Has(actions', x) <==> Has(actions, x) || x == id { HasPush(actions, a, x); }
    }
  }

  lemma HasAt(actions: seq<Action>, i: nat, id: Id)
    requires i < |actions|
    ensures Mentions(actions[i], id) ==> Has(actions, id)
  {
  }

  lemma AddKeeps(s: State, o: Object, base: Base, schema: Schema)
    requires Good(s, base, schema) && Shaped(o, schema)
    ensures Good(Step(s, Add(o), schema).value, base, schema)
  {
    hide Has, Saved, Single, Shaped;
    var id, actions := s.store.next, s.log.actions;
    assert id !in base && id !in s.log.index && !Has(actions, id);
    AddLog(s.log, id, o.kind, base, schema);
    var actions' := OnInsert(s.log, id, o.kind).actions;
    forall j | 0 <= j < |actions'| ensures Agrees(actions'[j], s.store.live + {id}, base) {
      if j < |actions| {
        assert Agrees(actions[j], s.store.live, base);
        HasAt(actions, j, id);
      }
    }
  }

  /** An object of the store without an action was there at the beginning, as it is now. */
  lemma Untouched(s: State, id: Id, base: Base, schema: Schema)
    requires Good(s, base, schema) && id in s.store.live && id !in s.log.index
    ensures id in base && s.store.memory[id] == base[id] && !Has(s.log.actions, id)
  {
  }

  lemma PushKeeps(s: State, a: Action, base: Base, schema: Schema)
    requires Good(s, base, schema) && !a.Insert? && a.id in s.store.live && a.id !in s.log.index
    ensures
      var live' := if a.Delete? then s.store.live - {a.id} else s.store.live;
      forall o :: Shaped(o, schema) && o.kind == s.store.memory[a.id].kind && (a.Delete? ==> o == s.store.memory[a.id]) ==>
        Good(State(s.store.(live := live', memory := s.store.memory[a.id := o]),
                   Push(s.log, a, a.id, Bytes(s.store.memory[a.id], schema))), base, schema)
  {
    hide Has, Saved, Single, Shaped;
    var actions := s.log.actions;
    Untouched(s, a.id, base, schema);
    SinglePush(actions, a);
    SavedPush(actions, a, base, schema);
    forall x ensures Has(actions + [a], x) <==> Has(actions, x) || x == a.id { HasPush(actions, a, x); }
    var live' := if a.Delete? then s.store.live - {a.id} else s.store.live;
    forall j | 0 <= j < |actions + [a]| ensures Agrees((actions + [a])[j], live', base) {
      if j < |actions| {
        assert Agrees(actions[j], s.store.live, base);
        HasAt(actions, j, a.id);
      }
    }
  }

  /** What is in the list after the action of `id` at `i` has been cancelled. */
  ghost predicate LeftBy(a: Action, actions: seq<Action>, i: nat, id: Id, base: Base)
    requires i < |actions|
  {
    || (a in actions && !Mentions(a, id))
    || (a == Delete(id) && id in base)
    || (a.Insert? && actions[i].Insert? && id !in a.ids && forall x :: x in a.ids ==> x in actions[i].ids)
  }

  /** Deleting an object where its action was recorded cancels the insert, or turns the update into a delete. */
  lemma CancelLog(actions: seq<Action>, i: nat, id: Id, live: set<Id>, base: Base, schema: Schema)
    requires Single(actions) && BaseOk(base, schema) && i < |actions| && Mentions(actions[i], id)
    requires id in live && Agrees(actions[i], live, base)
    ensures
      var actions' := Cancel(actions, i, id);
      && Single(actions') && Saved(actions', base, schema) == Saved(actions, base, schema)
      && (forall x :: Has(actions', x) <==> Has(actions, x) && (x == id ==> id in base))
      && (forall j :: 0 <= j < |actions'| ==> LeftBy(actions'[j], actions, i, id, base))
  {
    hide Has, Saved;
    var actions' := Cancel(actions, i, id);
    HasAt(actions, i, id);
    match actions[i]
    case Insert(kind, ids) =>
      assert NoRepeats(actions[i]);
      WithoutIs(ids, id);
      var rest := Without(ids, id);
      if rest == [] {
        SingleErased(actions, i);
        SavedErased(actions, i, base, schema);
        forall x ensures Has(actions', x) <==> Has(actions, x) && x != id {
          HasErased(actions, i, x);
        }
        forall j | 0 <= j < |actions'| ensures LeftBy(actions'[j], actions, i, id, base) {
          assert actions'[j] == actions[if j < i then j else j + 1];
        }
      } else {
        var a := Insert(kind, rest);
        SingleReplaced(actions, i, a);
        SavedReplaced(actions, i, a, base, schema);
        forall x ensures Has(actions', x) <==> Has(actions, x) && x != id {
          HasReplaced(actions, i, a, x);
          HasAt(actions, i, x);
        }
      }
    case Update(x) =>
      var a := Delete(id);
      SingleReplaced(actions, i, a);
      SavedReplaced(actions, i, a, base, schema);
      forall x ensures Has(actions', x) <==> Has(actions, x) {
        HasReplaced(actions, i, a, x);
        HasAt(actions, i, x);
      }
  }

  lemma RemoveKeeps(s: State, id: Id, base: Base, schema: Schema)
    requires Good(s, base, schema) && id in s.store.live && Located(s.log, id)
    ensures Step(s, Remove(id), schema).Some? && Good(Step(s, Remove(id), schema).value, base, schema)
  {
    hide Has, Saved, Single, Shaped, Cancel;
    var actions, i := s.log.actions, s.log.index[id];
    assert Agrees(actions[i], s.store.live, base);
    CancelLog(actions, i, id, s.store.live, base, schema);
    var actions', live' := Cancel(actions, i, id), s.store.live - {id};
    forall j | 0 <= j < |actions'| ensures Agrees(actions'[j], live', base) {
      if actions'[j] in actions {
        var k :| 0 <= k < |actions| && actions[k] == actions'[j];
        assert Agrees(actions[k], s.store.live, base);
      }
    }
  }

  /** Every operation that finds what it looks for keeps the invariant. */
  lemma StepKeeps(s: State, op: Operation, base: Base, schema: Schema)
    requires Good(s, base, schema) && Finds(s, op)
    ensures Step(s, op, schema).Some? && Good(Step(s, op, schema).value, base, schema)
  {
    hide Has, Saved, Single, Shaped, Good;
    GoodStore(s, base, schema);
    match op
    case Add(o) =>
      if Shaped(o, schema) { AddKeeps(s, o, base, schema); }
    case Modify(id, attributes) =>
      ModifyKeeps(s, id, attributes, base, schema);
    case Remove(id) =>
      if id in s.store.live {
        if id in s.log.index {
          RemoveKeeps(s, id, base, schema);
        } else {
          PushKeeps(s, Delete(id), base, schema);
          var o := s.store.memory[id];
          assert s.store.memory[id := o] == s.store.memory;
        }
      }
  }

  lemma GoodStore(s: State, base: Base, schema: Schema)
    requires Good(s, base, schema)
    ensures StoreOk(s.store, schema)
  {
  }

  lemma ModifyKeeps(s: State, id: Id, attributes: seq<S.Attribute>, base: Base, schema: Schema)
    requires Good(s, base, schema)
    ensures Good(Step(s, Modify(id, attributes), schema).value, base, schema)
  {
    hide Has, Saved, Single;
    if id in s.store.live && S.Fits(attributes, schema(s.store.memory[id].kind)) {
      var o := s.store.memory[id].(attributes := attributes);
      assert Shaped(o, schema);
      if id !in s.log.index {
        PushKeeps(s, Update(id), base, schema);
      }
    }
  }

  // ------------------------------------------------------------------ a delete that misses its action

  /** The object is gone for good: absent, and with no delete action that would bring it back. */
  ghost predicate Lost(s: State, id: Id, base: Base) {
    && id !in s.store.live && id in s.log.index && id < s.store.next
    && Delete(id) !in s.log.actions
    && (id in base || exists a :: a in s.log.actions && a.Insert? && id in a.ids)
  }

  lemma MissLoses(s: State, id: Id, base: Base, schema: Schema)
    requires Good(s, base, schema) && id in s.store.live && id in s.log.index && !Located(s.log, id)
    requires Step(s, Remove(id), schema).Some?
    ensures Lost(Step(s, Remove(id), schema).value, id, base)
  {
    hide Saved;
    var actions, i := s.log.actions, s.log.index[id];
    assert Has(actions, id);
    var k :| 0 <= k < |actions| && Mentions(actions[k], id);
    assert Agrees(actions[k], s.store.live, base);
    CancelMisses(actions, i, id);
    NoDeleteOf(s.store, actions, id, base);
    assert actions[k] in actions;
  }

  lemma NoDeleteOf(st: Store, actions: seq<Action>, id: Id, base: Base)
    requires Covers(st, actions, base) && id in st.live
    ensures Delete(id) !in actions
  {
    forall j | 0 <= j < |actions| ensures actions[j] != Delete(id) {
      assert Agrees(actions[j], st.live, base);
    }
  }

  /** Looking at the action of another object changes nothing. */
  lemma CancelMisses(actions: seq<Action>, i: nat, id: Id)
    requires Single(actions) && i < |actions| && !Mentions(actions[i], id)
    ensures Cancel(actions, i, id) == actions
  {
    if actions[i].Insert? {
      assert NoRepeats(actions[i]);
      WithoutAbsent(actions[i].ids, id);
    }
  }

  lemma {:induction false} WithoutAbsent(ids: seq<Id>, id: Id)
    requires id !in ids
    ensures Without(ids, id) == ids
    decreases |ids|
  {
    if ids != [] {
      WithoutAbsent(ids[1..], id);
    }
  }

  lemma {:induction false} WithoutOther(ids: seq<Id>, id: Id, x: Id)
    requires x in ids && x != id
    ensures x in Without(ids, id)
    decreases |ids|
  {
    if ids[0] != id && ids[0] != x {
      WithoutOther(ids[1..], id, x);
    }
  }

  /** No later operation finds a lost object again. */
  lemma LostForGood(s: State, op: Operation, id: Id, base: Base, schema: Schema)
    requires StoreOk(s.store, schema) && Lost(s, id, base) && Step(s, op, schema).Some?
    ensures Lost(Step(s, op, schema).value, id, base)
  {
    hide Shaped;
    var actions, actions' := s.log.actions, Step(s, op, schema).value.log.actions;
    match op
    case Add(o) =>
      LostOnInsert(s.log, s.store.next, o.kind, id);
    case Modify(x, attributes) =>
      assert forall a :: a in actions ==> a in actions + [Update(x)];
    case Remove(x) =>
      assert forall a :: a in actions ==> a in actions + [Delete(x)];
      if x in s.store.live && x in s.log.index {
        LostOnCancel(actions, s.log.index[x], x, id);
      }
  }

  lemma LostOnInsert(log: Log, next: Id, kind: Name, id: Id)
    requires Delete(id) !in log.actions
    ensures Delete(id) !in OnInsert(log, next, kind).actions
    ensures (exists a :: a in log.actions && a.Insert? && id in a.ids) ==>
            exists a :: a in OnInsert(log, next, kind).actions && a.Insert? && id in a.ids
  {
    var r := OnInsert(log, next, kind).actions;
    if a :| a in log.actions && a.Insert? && id in a.ids {
      var j :| 0 <= j < |log.actions| && log.actions[j] == a;
      assert r[j] in r && r[j].Insert? && id in r[j].ids;
    }
  }

  lemma LostOnCancel(actions: seq<Action>, i: nat, x: Id, id: Id)
    requires i < |actions| && x != id && Delete(id) !in actions
    ensures Delete(id) !in Cancel(actions, i, x)
    ensures (exists a :: a in actions && a.Insert? && id in a.ids) ==>
            exists a :: a in Cancel(actions, i, x) && a.Insert? && id in a.ids
  {
    var r := Cancel(actions, i, x);
    if a :| a in actions && a.Insert? && id in a.ids {
      var j :| 0 <= j < |actions| && actions[j] == a;
      if j == i {
        WithoutOther(a.ids, x, id);
        assert r[j] in r && r[j].Insert? && id in r[j].ids;
      } else if |r| == |actions| {
        assert r[j] == a;
      } else {
        assert r[if j < i then j else j - 1] == a;
      }
    }
  }

  lemma {:induction false} RemoveAllOf(live: set<Id>, ids: seq<Id>, id: Id)
    requires id !in live
    ensures id in ids ==> RemoveAll(live, ids) == None
    ensures RemoveAll(live, ids).Some? ==> id !in RemoveAll(live, ids).value
    decreases |ids|
  {
    if ids != [] && ids[0] in live {
      RemoveAllOf(live - {ids[0]}, ids[1..], id);
    }
  }

  /** Rollback does not bring a lost object back, and fails on one that it should take out. */
  lemma {:induction false} UndoMisses(st: Store, actions: seq<Action>, queue: seq<byte>, schema: Schema, id: Id)
    requires id !in st.live && Delete(id) !in actions
    ensures Undo(st, actions, queue, schema).Some? ==> id !in Undo(st, actions, queue, schema).value.live
    ensures (exists a :: a in actions && a.Insert? && id in a.ids) ==> Undo(st, actions, queue, schema) == None
    decreases |actions|
  {
    if actions != [] {
      assert actions[0] in actions;
      assert forall a :: a in actions ==> a == actions[0] || a in actions[1..];
      match actions[0]
      case Insert(_, ids) =>
        RemoveAllOf(st.live, ids, id);
        if RemoveAll(st.live, ids).Some? {
          UndoMisses(st.(live := RemoveAll(st.live, ids).value), actions[1..], queue, schema, id);
        }
      case Update(x) =>
        var r := RestoreObject(st, x, queue, schema);
        if r.Some? {
          UndoMisses(r.value.0, actions[1..], r.value.1, schema, id);
        }
      case Delete(x) =>
        var r := RestoreObject(st.(live := st.live + {x}), x, queue, schema);
        if r.Some? {
          UndoMisses(r.value.0, actions[1..], r.value.1, schema, id);
        }
    }
  }

  // ------------------------------------------------------------------ whole runs

  /** The state after a run; `None` if an operation threw. */
  function Run(s: State, ops: seq<Operation>, schema: Schema): (r: Option<State>)
    requires StoreOk(s.store, schema)
    ensures r.Some? ==> StoreOk(r.value.store, schema)
    decreases |ops|
  {
    if ops == [] then Some(s)
    else
      match Step(s, ops[0], schema)
      case None => None
      case Some(s') => Run(s', ops[1..], schema)
  }

  /** What the store holds after a run that is then rolled back; `None` if anything threw. */
  ghost function RolledBack(s: State, ops: seq<Operation>, schema: Schema): (r: Option<map<Id, Object>>)
    requires StoreOk(s.store, schema)
  {
    match Run(s, ops, schema)
    case None => None
    case Some(t) =>
      match Undo(t.store, t.log.actions, t.log.queue, schema)
      case None => None
      case Some(st) => Some(Contents(st))
  }

  function Begin(st: Store): (s: State) {
    State(st, Log([], map[], []))
  }

  /** At every delete of the run, the recorded position holds the action of the deleted object. */
  ghost predicate AllFind(s: State, ops: seq<Operation>, schema: Schema)
    requires StoreOk(s.store, schema)
    decreases |ops|
  {
    ops == [] ||
    (Finds(s, ops[0]) &&
     match Step(s, ops[0], schema)
     case None => false
     case Some(s') => AllFind(s', ops[1..], schema))
  }

  lemma {:induction false} FindingRun(s: State, ops: seq<Operation>, base: Base, schema: Schema)
    requires Good(s, base, schema) && AllFind(s, ops, schema)
    ensures RolledBack(s, ops, schema) == Some(base)
    decreases |ops|
  {
    hide Finds, Step;
    if ops == [] {
      UndoRestores(s.store, s.log.actions, s.log.queue, base, schema);
    } else {
      StepKeeps(s, ops[0], base, schema);
      FindingRun(Step(s, ops[0], schema).value, ops[1..], base, schema);
    }
  }

  lemma {:induction false} LostRun(s: State, ops: seq<Operation>, id: Id, base: Base, schema: Schema)
    requires StoreOk(s.store, schema) && Lost(s, id, base)
    ensures RolledBack(s, ops, schema) != Some(base)
    decreases |ops|
  {
    hide Step;
    if ops == [] {
      UndoMisses(s.store, s.log.actions, s.log.queue, schema, id);
    } else if Step(s, ops[0], schema).Some? {
      LostForGood(s, ops[0], id, base, schema);
      LostRun(Step(s, ops[0], schema).value, ops[1..], id, base, schema);
    }
  }

  lemma {:induction false} MissingRun(s: State, ops: seq<Operation>, base: Base, schema: Schema)
    requires Good(s, base, schema) && !AllFind(s, ops, schema)
    ensures RolledBack(s, ops, schema) != Some(base)
    decreases |ops|
  {
    hide Step;
    if Finds(s, ops[0]) {
      StepKeeps(s, ops[0], base, schema);
      MissingRun(Step(s, ops[0], schema).value, ops[1..], base, schema);
    } else if Step(s, ops[0], schema).Some? {
      MissLoses(s, ops[0].id, base, schema);
      LostRun(Step(s, ops[0], schema).value, ops[1..], ops[0].id, base, schema);
    }
  }

  lemma BeginGood(st: Store, schema: Schema)
    requires StoreOk(st, schema)
    ensures Good(Begin(st), Contents(st), schema)
  {
  }

  /**
    Rolling back any run restores what the store held at the beginning, if and
    only if every delete of the run found the action of its object where it had
    been recorded.
  */
  lemma RollbackRestores(st: Store, ops: seq<Operation>, schema: Schema)
    requires StoreOk(st, schema)
    ensures RolledBack(Begin(st), ops, schema) == Some(Contents(st)) <==> AllFind(Begin(st), ops, schema)
  {
    BeginGood(st, schema);
    if AllFind(Begin(st), ops, schema) {
      FindingRun(Begin(st), ops, Contents(st), schema);
    } else {
      MissingRun(Begin(st), ops, Contents(st), schema);
    }
  }

  // ------------------------------------------------------------------ when deletes find their actions

  /** A delete does not empty an insert action that has actions behind it. */
  ghost predicate KeepsPlaces(s: State, op: Operation) {
    op.Remove? && op.id in s.log.index && s.log.index[op.id] < |s.log.actions| ==>
      var i := s.log.index[op.id];
      s.log.actions[i].Insert? && Without(s.log.actions[i].ids, op.id) == [] ==> i + 1 == |s.log.actions|
  }

  ghost predicate AllKeepPlaces(s: State, ops: seq<Operation>, schema: Schema)
    requires StoreOk(s.store, schema)
    decreases |ops|
  {
    ops == [] ||
    (KeepsPlaces(s, ops[0]) &&
     match Step(s, ops[0], schema)
     case None => true
     case Some(s') => AllKeepPlaces(s', ops[1..], schema))
  }

  /** Every action is where it was recorded. */
  ghost predicate Recorded(log: Log) {
    forall i, id :: 0 <= i < |log.actions| && Mentions(log.actions[i], id) ==> id in log.index && log.index[id] == i
  }

  lemma RecordedFinds(s: State, op: Operation, base: Base, schema: Schema)
    requires Good(s, base, schema) && Recorded(s.log)
    ensures Finds(s, op)
  {
    if op.Remove? && op.id in s.store.live && op.id in s.log.index {
      assert Has(s.log.actions, op.id);
    }
  }

  lemma StepRecorded(s: State, op: Operation, base: Base, schema: Schema)
    requires Good(s, base, schema) && Recorded(s.log) && KeepsPlaces(s, op) && Step(s, op, schema).Some?
    ensures Recorded(Step(s, op, schema).value.log)
  {
    hide Saved, Covers, StoreOk;
    GoodStore(s, base, schema);
    RecordedFinds(s, op, base, schema);
    var log, log' := s.log, Step(s, op, schema).value.log;
    assert forall id: Id :: Has(log.actions, id) ==> id < s.store.next;
    forall i, id | 0 <= i < |log'.actions| && Mentions(log'.actions[i], id)
      ensures id in log'.index && log'.index[id] == i
    {
      if op.Remove? && op.id in s.store.live && op.id in log.index {
        var k := log.index[op.id];
        if log.actions[k].Insert? {
          assert NoRepeats(log.actions[k]);
          WithoutIs(log.actions[k].ids, op.id);
        }
      }
      assert i < |log.actions| && Mentions(log.actions[i], id) ==> Has(log.actions, id);
    }
  }

  lemma {:induction false} PlacesKept(s: State, ops: seq<Operation>, base: Base, schema: Schema)
    requires Good(s, base, schema) && Recorded(s.log) && AllKeepPlaces(s, ops, schema)
    ensures AllFind(s, ops, schema)
    decreases |ops|
  {
    hide Step, Finds, KeepsPlaces;
    if ops != [] {
      RecordedFinds(s, ops[0], base, schema);
      StepKeeps(s, ops[0], base, schema);
      StepRecorded(s, ops[0], base, schema);
      PlacesKept(Step(s, ops[0], schema).value, ops[1..], base, schema);
    }
  }

  /** In particular rollback restores the store after every run that never empties an insert action in the middle of the log. */
  lemma RollbackWithoutGaps(st: Store, ops: seq<Operation>, schema: Schema)
    requires StoreOk(st, schema) && AllKeepPlaces(Begin(st), ops, schema)
    ensures RolledBack(Begin(st), ops, schema) == Some(Contents(st))
  {
    BeginGood(st, schema);
    PlacesKept(Begin(st), ops, Contents(st), schema);
    RollbackRestores(st, ops, schema);
  }

  /** A run that does not find: insert an object, change two others, delete the inserted one and the first of the others. */
  function LosingRun(o: Object): (ops: seq<Operation>) {
    [Add(o), Modify(0, []), Modify(1, []), Remove(2), Remove(0)]
  }

  /** The state after some steps of that run. */
  function Losing(o: Object, n: nat): (s: State) {
    var memory := map[0 := o, 1 := o, 2 := o];
    var index := map[2 := 0, 0 := 1, 1 := 2];
    if n == 0 then State(Store({0, 1}, map[0 := o, 1 := o], 2), Log([], map[], []))
    else if n == 1 then State(Store({0, 1, 2}, memory, 3), Log([Insert(o.kind, [2])], map[2 := 0], []))
    else if n == 2 then State(Store({0, 1, 2}, memory, 3), Log([Insert(o.kind, [2]), Update(0)], map[2 := 0, 0 := 1], []))
    else if n == 3 then State(Store({0, 1, 2}, memory, 3), Log([Insert(o.kind, [2]), Update(0), Update(1)], index, []))
    else if n == 4 then State(Store({0, 1}, memory, 3), Log([Update(0), Update(1)], index, []))
    else State(Store({1}, memory, 3), Log([Update(0), Update(1)], index, []))
  }

  lemma LosingSteps(o: Object, schema: Schema)
    requires o.attributes == [] && schema(o.kind) == []
    ensures StoreOk(Losing(o, 0).store, schema) && StoreOk(Losing(o, 1).store, schema) && StoreOk(Losing(o, 2).store, schema)
    ensures Step(Losing(o, 0), LosingRun(o)[0], schema) == Some(Losing(o, 1))
    ensures Step(Losing(o, 1), LosingRun(o)[1], schema) == Some(Losing(o, 2))
    ensures Step(Losing(o, 2), LosingRun(o)[2], schema) == Some(Losing(o, 3))
  {
    hide Step, Losing, StoreOk;
    LosingAdd(o, schema);
    LosingFirst(o, schema);
    LosingSecond(o, schema);
  }

  lemma LosingAdd(o: Object, schema: Schema)
    requires o.attributes == [] && schema(o.kind) == []
    ensures StoreOk(Losing(o, 0).store, schema) && Step(Losing(o, 0), Add(o), schema) == Some(Losing(o, 1))
  {
    assert Shaped(o, schema);
    assert Step(Losing(o, 0), Add(o), schema).value == Losing(o, 1);
  }

  lemma LosingFirst(o: Object, schema: Schema)
    requires o.attributes == [] && schema(o.kind) == []
    ensures StoreOk(Losing(o, 1).store, schema) && Step(Losing(o, 1), Modify(0, []), schema) == Some(Losing(o, 2))
  {
    assert Shaped(o, schema) && Bytes(o, schema) == [];
    var memory := map[0 := o, 1 := o, 2 := o];
    assert memory[0 := o] == memory;
    assert Step(Losing(o, 1), Modify(0, []), schema).value == Losing(o, 2);
  }

  lemma LosingSecond(o: Object, schema: Schema)
    requires o.attributes == [] && schema(o.kind) == []
    ensures StoreOk(Losing(o, 2).store, schema) && Step(Losing(o, 2), Modify(1, []), schema) == Some(Losing(o, 3))
  {
    assert Shaped(o, schema) && Bytes(o, schema) == [];
    var memory := map[0 := o, 1 := o, 2 := o];
    assert memory[1 := o] == memory;
    assert Step(Losing(o, 2), Modify(1, []), schema).value == Losing(o, 3);
  }

  lemma LosingDeletes(o: Object, schema: Schema)
    requires o.attributes == [] && schema(o.kind) == []
    ensures StoreOk(Losing(o, 3).store, schema) && StoreOk(Losing(o, 4).store, schema)
    ensures Step(Losing(o, 3), LosingRun(o)[3], schema) == Some(Losing(o, 4))
    ensures Step(Losing(o, 4), LosingRun(o)[4], schema) == Some(Losing(o, 5))
  {
    assert Shaped(o, schema) && Bytes(o, schema) == [];
    assert Without([2], 2) == [];
    assert Cancel(Losing(o, 3).log.actions, 0, 2) == [Update(0), Update(1)];
    assert Step(Losing(o, 3), Remove(2), schema).value == Losing(o, 4);
    assert Step(Losing(o, 4), Remove(0), schema).value == Losing(o, 5);
  }

  /** Rolling that run back throws nothing and silently loses an object. */
  lemma {:induction false} RollbackLosesObject(o: Object, schema: Schema)
    requires o.attributes == [] && schema(o.kind) == []
    ensures
      var st := Store({0, 1}, map[0 := o, 1 := o], 2);
      StoreOk(st, schema) && RolledBack(Begin(st), LosingRun(o), schema) == Some(map[1 := o])
  {
    hide Step, StoreOk, Undo;
    LosingSteps(o, schema);
    LosingDeletes(o, schema);
    var s := Losing(o, 5);
    RunFive(Losing(o, 0), LosingRun(o), Losing(o, 1), Losing(o, 2), Losing(o, 3), Losing(o, 4), s, schema);
    UndoUpdates(s.store, o, schema);
    assert Contents(s.store) == map[1 := o];
  }

  lemma {:induction false} UndoUpdates(st: Store, o: Object, schema: Schema)
    requires o.attributes == [] && schema(o.kind) == [] && st.memory == map[0 := o, 1 := o, 2 := o]
    ensures Undo(st, [Update(0), Update(1)], [], schema) == Some(st)
  {
    assert st.memory[0 := o] == st.memory && st.memory[1 := o] == st.memory;
    assert S.DecodeAll([], []) == S.Some(([], []));
    assert Undo(st, [Update(1)], [], schema) == Some(st);
  }

  lemma RunFive(s0: State, ops: seq<Operation>, s1: State, s2: State, s3: State, s4: State, s5: State, schema: Schema)
    requires |ops| == 5 && StoreOk(s0.store, schema)
    requires Step(s0, ops[0], schema) == Some(s1) && Step(s1, ops[1], schema) == Some(s2)
    requires Step(s2, ops[2], schema) == Some(s3) && Step(s3, ops[3], schema) == Some(s4)
    requires Step(s4, ops[4], schema) == Some(s5)
    ensures Run(s0, ops, schema) == Some(s5)
  {
    hide Step;
    assert Run(s5, ops[5..], schema) == Some(s5);
    assert Run(s4, ops[4..], schema) == Run(s5, ops[4..][1..], schema);
    assert Run(s3, ops[3..], schema) == Run(s4, ops[3..][1..], schema);
    assert Run(s2, ops[2..], schema) == Run(s3, ops[2..][1..], schema);
    assert Run(s1, ops[1..], schema) == Run(s2, ops[1..][1..], schema);
    assert ops[4..][1..] == ops[5..] && ops[3..][1..] == ops[4..] && ops[2..][1..] == ops[3..] && ops[1..][1..] == ops[2..];
  }

  // ------------------------------------------------------------------ what the store holds meanwhile

  /** A store without a log: what it holds, and the number of the next object. */
  datatype Plain = Plain(held: map<Id, Object>, next: Id)

  function PlainStep(s: Plain, op: Operation, schema: Schema): (r: Plain) {
    match op
    case Add(o) => if Shaped(o, schema) then Plain(s.held[s.next := o], s.next + 1) else s
    case Modify(id, attributes) =>
      if id in s.held && S.Fits(attributes, schema(s.held[id].kind))
      then s.(held := s.held[id := Object(s.held[id].kind, attributes)])
      else s
    case Remove(id) => s.(held := s.held - {id})
  }

  ghost function Seen(st: Store): (s: Plain) {
    Plain(Contents(st), st.next)
  }

  lemma AddContents(s: State, o: Object, schema: Schema)
    requires StoreOk(s.store, schema) && Shaped(o, schema)
    ensures var r := Step(s, Add(o), schema);
      r.Some? && s.store.next !in Contents(s.store) && Contents(r.value.store) == Contents(s.store)[s.store.next := o]
  {
    hide OnInsert, Shaped;
  }

  lemma ModifyContents(s: State, id: Id, attributes: seq<S.Attribute>, schema: Schema)
    requires StoreOk(s.store, schema) && id in s.store.live && S.Fits(attributes, schema(s.store.memory[id].kind))
    ensures var r := Step(s, Modify(id, attributes), schema);
      r.Some? && id in Contents(s.store) &&
      Contents(r.value.store) == Contents(s.store)[id := Object(Contents(s.store)[id].kind, attributes)]
  {
    hide OnUpdate, Bytes, S.Fits;
  }

  lemma RemoveContents(s: State, id: Id, schema: Schema)
    requires StoreOk(s.store, schema)
    ensures var r := Step(s, Remove(id), schema); r.Some? ==> Contents(r.value.store) == Contents(s.store) - {id}
  {
    hide OnDelete, Bytes;
  }

  /** Within a transaction the store behaves like one without a log. */
  lemma StepSeen(s: State, op: Operation, schema: Schema)
    requires StoreOk(s.store, schema)
    ensures var r := Step(s, op, schema); r.Some? ==> Seen(r.value.store) == PlainStep(Seen(s.store), op, schema)
  {
    match op
    case Add(o) => if Shaped(o, schema) { AddContents(s, o, schema); }
    case Modify(id, attributes) =>
      if id in s.store.live && S.Fits(attributes, schema(s.store.memory[id].kind)) { ModifyContents(s, id, attributes, schema); }
    case Remove(id) => RemoveContents(s, id, schema);
  }

  function PlainRun(s: Plain, ops: seq<Operation>, schema: Schema): (r: Plain)
    decreases |ops|
  {
    if ops == [] then s else PlainRun(PlainStep(s, ops[0], schema), ops[1..], schema)
  }

  lemma {:induction false} RunSeen(s: State, ops: seq<Operation>, schema: Schema)
    requires StoreOk(s.store, schema)
    ensures var r := Run(s, ops, schema); r.Some? ==> Seen(r.value.store) == PlainRun(Seen(s.store), ops, schema)
    decreases |ops|
  {
    hide Step, PlainStep, Seen;
    if ops != [] {
      StepSeen(s, ops[0], schema);
      if Step(s, ops[0], schema).Some? { RunSeen(Step(s, ops[0], schema).value, ops[1..], schema); }
    }
  }

  /** New objects of one type share one action. */
  ghost predicate OneInsertPerType(actions: seq<Action>) {
    forall i, j :: 0 <= i < j < |actions| && actions[i].Insert? && actions[j].Insert? ==> actions[i].kind != actions[j].kind
  }

  lemma StepOneInsert(s: State, op: Operation, schema: Schema)
    requires StoreOk(s.store, schema) && OneInsertPerType(s.log.actions) && Step(s, op, schema).Some?
    ensures OneInsertPerType(Step(s, op, schema).value.log.actions)
  {
    hide Bytes, Shaped, S.Fits, Without;
  }

  lemma {:induction false} RunOneInsert(s: State, ops: seq<Operation>, schema: Schema)
    requires StoreOk(s.store, schema) && OneInsertPerType(s.log.actions)
    ensures Run(s, ops, schema).Some? ==> OneInsertPerType(Run(s, ops, schema).value.log.actions)
    decreases |ops|
  {
    hide Step, OneInsertPerType;
    if ops != [] && Step(s, ops[0], schema).Some? {
      StepOneInsert(s, ops[0], schema);
      RunOneInsert(Step(s, ops[0], schema).value, ops[1..], schema);
    }
  }
}
