/**
  The reactor with its leader/follower thread pool, as a state machine.  Each
  step is one critical section of one thread; a run is any interleaving.
*/
module Reactor {

  type Thread = nat
  type Handler = nat
  type Descriptor = nat

  datatype Event = Read | Write | Timeout

  /** A registered handler with its descriptor, 0 once it is closed, and the events it is active for. */
  datatype Entry = Entry(handler: Handler, fd: Descriptor, mask: set<Event>)

  /** A bit in the read or write set handed to `select`. */
  datatype Bit = Bit(fd: Descriptor, event: Event)

  datatype Option<+T> = None | Some(value: T)

  /** Where a thread is in the pool's loop and in `handle_events`. */
  datatype Place =
    | Outer                                  // before taking the pool's lock
    | Waiting                                // on the condition variable
    | Preparing                              // leader; fd sets not yet filled
    | Selecting(bits: set<Bit>, armed: bool) // leader; in select, with a time limit if a timer is armed
    | Resolving(bits: set<Bit>)              // leader; select has returned these bits
    | Deactivating(handler: Handler, event: Event)
    | Promoting(handler: Handler, event: Event)
    | PromotingOnly                          // leader; interrupted, or nothing to handle
    | Dispatching(handler: Handler, event: Event)
    | Finished

  datatype State = State(
    places: map<Thread, Place>,
    leader: Option<Thread>,
    ready: bool,
    running: bool,
    shutdown: bool,
    pending: bool,                           // the interrupter has been written and not yet read
    handlers: seq<Entry>)

  datatype Step =
    | Enter(thread: Thread)
    | Wake(thread: Thread)
    | Prepare(thread: Thread, wanted: set<Bit>, timers: set<Handler>)
    | SelectReturns(thread: Thread, active: set<Bit>)
    | Interrupt(thread: Thread)
    | GiveUp(thread: Thread)
    | Resolve(thread: Thread, due: set<Handler>)
    | Deactivate(thread: Thread)
    | Promote(thread: Thread)
    | Activate(thread: Thread)
    | Register(handler: Handler, fd: Descriptor, events: set<Event>)
    | Schedule(handler: Handler, fd: Descriptor)
    | Unregister(handler: Handler)
    | Close(handler: Handler)
    | Drop(handler: Handler)
    | Stop
    | Shutdown

  // ------------------------------------------------------------------ the handler list

  function Find(handlers: seq<Entry>, h: Handler): (i: nat)
    ensures i <= |handlers| && (i < |handlers| ==> handlers[i].handler == h)
    ensures forall j :: 0 <= j < i ==> handlers[j].handler != h
  {
    if handlers == [] then 0 else if handlers[0].handler == h then 0 else 1 + Find(handlers[1..], h)
  }

  function SetMask(handlers: seq<Entry>, h: Handler, on: set<Event>, off: set<Event>): (r: seq<Entry>)
    ensures |r| == |handlers|
  {
    var i := Find(handlers, h);
    if i == |handlers| then handlers
    else handlers[i := handlers[i].(mask := handlers[i].mask + on - off)]
  }

  function Closed(handlers: seq<Entry>, h: Handler): (r: seq<Entry>)
    ensures |r| == |handlers|
  {
    var i := Find(handlers, h);
    if i == |handlers| then handlers else handlers[i := handlers[i].(fd := 0)]
  }

  function Without(handlers: seq<Entry>, h: Handler): (r: seq<Entry>) {
    var i := Find(handlers, h);
    if i == |handlers| then handlers else handlers[..i] + handlers[i + 1..]
  }

  /** The first handler with an event to handle: writing before reading before a timer that is due. */
  function Choose(handlers: seq<Entry>, bits: set<Bit>, due: set<Handler>): (r: Option<(Handler, Event)>) {
    if handlers == [] then None
    else
      var e := handlers[0];
      if e.fd > 0 && Bit(e.fd, Write) in bits then Some((e.handler, Write))
      else if e.fd > 0 && Bit(e.fd, Read) in bits then Some((e.handler, Read))
      else if e.handler in due then Some((e.handler, Timeout))
      else Choose(handlers[1..], bits, due)
  }

  /** The bits of handlers that are active for reading or writing. */
  ghost predicate Enabled(handlers: seq<Entry>, b: Bit) {
    b.event != Timeout && exists i :: 0 <= i < |handlers| && handlers[i].fd == b.fd && b.event in handlers[i].mask
  }

  /** A handler with a scheduled timer is active for it. */
  ghost predicate Armed(handlers: seq<Entry>, timers: set<Handler>) {
    exists i :: 0 <= i < |handlers| && handlers[i].handler in timers && Timeout in handlers[i].mask
  }

  // ------------------------------------------------------------------ one step

  /** The step is one of a thread. */
  predicate OfThread(a: Step) {
    a.Enter? || a.Wake? || a.Prepare? || a.SelectReturns? || a.Interrupt? || a.GiveUp? || a.Resolve? || a.Deactivate? || a.Promote? || a.Activate?
  }

  /** Where the thread is after its step, and what else the step has set. */
  datatype Effect = Effect(place: Place, leader: Option<Thread>, ready: bool, pending: bool, handlers: seq<Entry>)

  /** A step of a thread at a place; one that does not belong there does nothing. */
  ghost function Act(s: State, a: Step, p: Place): (e: Effect)
    requires OfThread(a)
  {
    var same := Effect(p, s.leader, s.ready, s.pending, s.handlers);
    match a
    case Enter(t) =>
      if !p.Outer? then same
      else if !s.running then same.(place := Finished)
      else if s.leader == None then same.(place := Preparing, leader := Some(t))
      else same.(place := Waiting)
    case Wake(t) =>
      if !p.Waiting? || !(s.ready || s.shutdown) then same
      else if !s.running then same.(place := Finished, ready := false)
      else if s.leader == None then same.(place := Preparing, leader := Some(t), ready := false)
      else same.(ready := false)
    case Prepare(_, wanted, timers) =>
      if !p.Preparing? then same
      else same.(place := Selecting((set b | b in wanted && Enabled(s.handlers, b)), Armed(s.handlers, timers)))
    case SelectReturns(_, active) =>
      if p.Selecting? then same.(place := Resolving(p.bits * active)) else same
    case Interrupt(_) =>
      if p.Selecting? || p.Resolving? then same.(place := PromotingOnly, pending := false) else same
    case GiveUp(_) =>
      if p.Selecting? || p.Resolving? then same.(place := Outer) else same
    case Resolve(_, due) =>
      if !p.Resolving? then same
      else
        (match Choose(s.handlers, p.bits, due)
         case None => same.(place := PromotingOnly)
         case Some((h, ev)) => same.(place := Deactivating(h, ev)))
    case Deactivate(_) =>
      if !p.Deactivating? then same
      else same.(place := Promoting(p.handler, p.event), handlers := SetMask(s.handlers, p.handler, {}, {p.event}))
    case Promote(t) =>
      if !p.Promoting? && !p.PromotingOnly? then same
      else
        var e := same.(place := if p.Promoting? then Dispatching(p.handler, p.event) else Outer);
        if s.leader == Some(t) then e.(leader := None, ready := true) else e
    case Activate(_) =>
      if !p.Dispatching? then same
      else same.(place := Outer, handlers := SetMask(s.handlers, p.handler, {p.event}, {}))
  }

  /** A step from outside the pool. */
  ghost function Change(s: State, a: Step): (r: State)
    requires !OfThread(a)
  {
    match a
    case Register(h, fd, events) =>
      if Registered(s, h) then s.(handlers := SetMask(s.handlers, h, events, {}), pending := true)
      else s.(handlers := s.handlers + [Entry(h, fd, events)], pending := true)
    case Schedule(h, fd) =>
      if Registered(s, h) then s else s.(handlers := s.handlers + [Entry(h, fd, {Timeout})])
    case Unregister(h) => s.(handlers := Without(s.handlers, h), pending := true)
    case Close(h) => s.(handlers := Closed(s.handlers, h))
    case Drop(h) => s.(handlers := Without(s.handlers, h))
    case Stop => s.(running := false)
    case Shutdown => s.(running := false, shutdown := true)
  }

  ghost function Next(s: State, a: Step): (r: State) {
    if !OfThread(a) then Change(s, a)
    else if a.thread !in s.places then s
    else
      var e := Act(s, a, s.places[a.thread]);
      Move(s, a.thread, e.place).(leader := e.leader, ready := e.ready, pending := e.pending, handlers := e.handlers)
  }

  predicate Registered(s: State, h: Handler) {
    Find(s.handlers, h) < |s.handlers|
  }

  predicate At(s: State, t: Thread, p: Place) {
    t in s.places && s.places[t] == p
  }

  function Move(s: State, t: Thread, p: Place): (r: State) {
    s.(places := s.places[t := p])
  }

  ghost function Run(s: State, steps: seq<Step>): (r: State)
    decreases |steps|
  {
    if steps == [] then s else Run(Next(s, steps[0]), steps[1..])
  }

  /** A step moves at most its own thread. */
  lemma OthersStay(s: State, a: Step)
    ensures Next(s, a).places.Keys == s.places.Keys
    ensures forall t :: t in s.places && !(OfThread(a) && a.thread == t) ==> Next(s, a).places[t] == s.places[t]
  {
    hide Act;
    if !OfThread(a) { OthersChange(s, a); }
  }

  lemma OwnMove(s: State, a: Step)
    requires OfThread(a) && a.thread in s.places
    ensures a.thread in Next(s, a).places && Next(s, a).places[a.thread] == Act(s, a, s.places[a.thread]).place
  {
    hide Act;
  }

  lemma OthersChange(s: State, a: Step)
    requires !OfThread(a)
    ensures var r := Change(s, a); r.places == s.places && r.leader == s.leader && r.ready == s.ready && (r.running ==> s.running)
  {
    hide SetMask, Closed, Without, Registered;
  }

  /** A thread of the pool takes its step at a place where the step belongs. */
  predicate Takes(s: State, a: Step) {
    OfThread(a) && a.thread in s.places &&
    var p := s.places[a.thread];
    match a
    case Enter(_) => p.Outer?
    case Wake(_) => p.Waiting? && (s.ready || s.shutdown)
    case Prepare(_, _, _) => p.Preparing?
    case SelectReturns(_, _) => p.Selecting?
    case Interrupt(_) => p.Selecting? || p.Resolving?
    case GiveUp(_) => p.Selecting? || p.Resolving?
    case Resolve(_, _) => p.Resolving?
    case Deactivate(_) => p.Deactivating?
    case Promote(_) => p.Promoting? || p.PromotingOnly?
    case Activate(_) => p.Dispatching?
    case _ => false
  }

  /** Stopping ends running, and an interrupt is asked for by registering and taken back by the leader that sees it. */
  lemma FlagsExactly(s: State, a: Step)
    ensures var r := Next(s, a);
      (r.running <==> s.running && !a.Stop? && !a.Shutdown?) && (r.shutdown <==> s.shutdown || a.Shutdown?) &&
      (r.pending <==> a.Register? || a.Unregister? || (s.pending && !(Takes(s, a) && a.Interrupt?)))
  {
    hide SetMask, Closed, Without, Registered, Choose, Enabled, Armed;
  }

  /** A wake-up takes the signal that the promotion by a leader has given. */
  lemma SignalExactly(s: State, a: Step)
    ensures Next(s, a).ready <==>
      if Takes(s, a) && a.Promote? then s.ready || s.leader == Some(a.thread) else s.ready && !(Takes(s, a) && a.Wake?)
  {
    hide SetMask, Closed, Without, Registered, Choose, Enabled, Armed;
  }

  /** Who leads: a thread that enters or wakes while nobody does, until it promotes. */
  lemma LeaderExactly(s: State, a: Step)
    ensures Next(s, a).leader ==
      if Takes(s, a) && (a.Enter? || a.Wake?) && s.running && s.leader == None then Some(a.thread)
      else if Takes(s, a) && a.Promote? && s.leader == Some(a.thread) then None
      else s.leader
  {
    hide SetMask, Closed, Without, Registered, Choose, Enabled, Armed;
  }

  /** A step that does not belong where its thread is changes nothing. */
  lemma NothingTaken(s: State, a: Step)
    requires OfThread(a) && !Takes(s, a)
    ensures Next(s, a) == s
  {
    hide SetMask, Choose, Enabled, Armed;
    if a.thread in s.places { assert s.places[a.thread := s.places[a.thread]] == s.places; }
  }

  /** A started pool: every thread is about to take the lock; nobody leads. */
  ghost predicate Initial(s: State) {
    && (forall t :: t in s.places ==> s.places[t] == Outer)
    && s.leader == None && s.handlers == [] && !s.pending
  }

  // ------------------------------------------------------------------ the invariant

  /** Between becoming leader and promoting a successor. */
  predicate Leads(p: Place) {
    p.Preparing? || p.Selecting? || p.Resolving? || p.Deactivating? || p.Promoting? || p.PromotingOnly?
  }

  /** The thread has switched the event of the handler off and not yet on again. */
  predicate Holds(p: Place, h: Handler, ev: Event) {
    (p.Promoting? || p.Dispatching?) && p.handler == h && p.event == ev
  }

  ghost predicate Free(s: State, h: Handler, ev: Event) {
    forall t :: t in s.places ==> !Holds(s.places[t], h, ev)
  }

  ghost predicate OneLeader(s: State) {
    forall t :: t in s.places && Leads(s.places[t]) ==> s.leader == Some(t)
  }

  /** No handler, and no open descriptor, is in the list twice. */
  ghost predicate DistinctHandlers(s: State) {
    forall i, j :: 0 <= i < j < |s.handlers| ==>
      s.handlers[i].handler != s.handlers[j].handler && (s.handlers[i].fd == s.handlers[j].fd ==> s.handlers[i].fd == 0)
  }

  /** A handler that is active for reading or writing is being handled for that by nobody. */
  ghost predicate HeldIsOff(s: State) {
    forall i, ev :: 0 <= i < |s.handlers| && ev in s.handlers[i].mask && ev != Timeout ==> Free(s, s.handlers[i].handler, ev)
  }

  ghost predicate HeldOnce(s: State) {
    forall t, u, h, ev :: t in s.places && u in s.places && t != u && ev != Timeout && Holds(s.places[t], h, ev) ==>
      !Holds(s.places[u], h, ev)
  }

  /** What the leader has seen, or chosen, is being handled by nobody. */
  ghost predicate ChoiceFree(s: State, p: Place) {
    && (p.Selecting? || p.Resolving? ==>
          forall i, ev :: 0 <= i < |s.handlers| && ev != Timeout && s.handlers[i].fd > 0 && Bit(s.handlers[i].fd, ev) in p.bits ==>
            Free(s, s.handlers[i].handler, ev))
    && (p.Deactivating? && p.event != Timeout ==> Free(s, p.handler, p.event))
  }

  ghost predicate Inv(s: State) {
    && OneLeader(s) && DistinctHandlers(s) && HeldIsOff(s) && HeldOnce(s)
    && (forall t :: t in s.places ==> ChoiceFree(s, s.places[t]))
  }

  /** The leader waits for the event on the descriptor. */
  ghost predicate Awaited(s: State, b: Bit) {
    exists t :: t in s.places && (s.places[t].Selecting? || s.places[t].Resolving?) && b in s.places[t].bits
  }

  /** A descriptor of its own, for which the leader does not wait while the handler is being handled. */
  ghost predicate OwnDescriptor(s: State, h: Handler, fd: Descriptor) {
    fd > 0 ==>
      && (forall i :: 0 <= i < |s.handlers| ==> s.handlers[i].fd != fd)
      && (forall ev :: ev != Timeout && Awaited(s, Bit(fd, ev)) ==> Free(s, h, ev))
  }

  /**
    Registering switches no event on that is being handled for the handler; and a
    handler that is new to the list has a descriptor of its own, or none.
  */
  ghost predicate Careful(s: State, a: Step) {
    && (a.Register? ==> forall ev :: ev in a.events && ev != Timeout ==> Free(s, a.handler, ev))
    && (a.Register? || a.Schedule? ==> Registered(s, a.handler) || OwnDescriptor(s, a.handler, a.fd))
  }

  lemma SetMaskAt(handlers: seq<Entry>, h: Handler, on: set<Event>, off: set<Event>, i: nat)
    requires i < |handlers|
    requires forall j, k :: 0 <= j < k < |handlers| ==> handlers[j].handler != handlers[k].handler
    ensures
      var e, e' := handlers[i], SetMask(handlers, h, on, off)[i];
      e'.handler == e.handler && e'.fd == e.fd && e'.mask == if e.handler == h then e.mask + on - off else e.mask
  {
  }

  lemma WithoutAt(handlers: seq<Entry>, h: Handler, i: nat)
    requires i < |Without(handlers, h)|
    ensures |Without(handlers, h)| <= |handlers|
    ensures Without(handlers, h)[i] == handlers[if i < Find(handlers, h) then i else i + 1]
  {
  }

  lemma {:induction false} ChooseAt(handlers: seq<Entry>, bits: set<Bit>, due: set<Handler>)
    ensures
      match Choose(handlers, bits, due)
      case None => true
      case Some((h, ev)) => exists i :: 0 <= i < |handlers| && handlers[i].handler == h && (ev != Timeout ==> handlers[i].fd > 0 && Bit(handlers[i].fd, ev) in bits)
    decreases |handlers|
  {
    if handlers != [] {
      ChooseAt(handlers[1..], bits, due);
    }
  }

  // ------------------------------------------------------------------ every step keeps it

  /** If fewer events are held and the handlers are the same, what was free stays free. */
  lemma StillFree(s: State, s': State, h: Handler, ev: Event)
    requires Free(s, h, ev) && s'.places.Keys == s.places.Keys
    requires forall t :: t in s.places && Holds(s'.places[t], h, ev) ==> Holds(s.places[t], h, ev)
    ensures Free(s', h, ev)
  {
  }

  /** A thread moves on without taking hold of anything. */
  lemma MoveKeeps(s: State, s': State, t: Thread, p: Place)
    requires Inv(s) && t in s.places && s'.places == s.places[t := p] && s'.handlers == s.handlers
    requires forall h, ev :: Holds(p, h, ev) ==> Holds(s.places[t], h, ev)
    requires s'.leader == s.leader || s.leader == None || s.leader == Some(t)
    requires Leads(p) ==> s'.leader == Some(t)
    requires p.Preparing? || p.Outer? || p.Waiting? || p.Finished? || p.Promoting? || p.PromotingOnly? || p.Dispatching?
             || ChoiceFree(s, p)
    ensures Inv(s')
  {
    forall h, ev | Free(s, h, ev) ensures Free(s', h, ev) { StillFree(s, s', h, ev); }
    assert OneLeader(s');
    assert HeldIsOff(s');
    assert HeldOnce(s');
    forall u | u in s'.places ensures ChoiceFree(s', s'.places[u]) {
      assert u != t ==> ChoiceFree(s, s.places[u]);
    }
  }

  /** A step that does nothing to its thread does nothing. */
  lemma Nothing(s: State, a: Step)
    requires OfThread(a)
    requires a.thread in s.places ==>
      var p := s.places[a.thread]; Act(s, a, p) == Effect(p, s.leader, s.ready, s.pending, s.handlers)
    ensures Next(s, a) == s
  {
    hide Act;
    if a.thread in s.places { assert s.places[a.thread := s.places[a.thread]] == s.places; }
  }

  lemma PrepareKeeps(s: State, t: Thread, wanted: set<Bit>, timers: set<Handler>)
    requires Inv(s)
    ensures Inv(Next(s, Prepare(t, wanted, timers)))
  {
    hide Choose, SetMask, Inv;
    if At(s, t, Preparing) {
      LeaderIs(s, t);
      PreparedFree(s, wanted, timers);
      var p := Selecting((set b | b in wanted && Enabled(s.handlers, b)), Armed(s.handlers, timers));
      MoveKeeps(s, Next(s, Prepare(t, wanted, timers)), t, p);
    } else {
      Nothing(s, Prepare(t, wanted, timers));
    }
  }

  /** Nobody handles what the leader asks for. */
  lemma PreparedFree(s: State, wanted: set<Bit>, timers: set<Handler>)
    requires Inv(s)
    ensures ChoiceFree(s, Selecting((set b | b in wanted && Enabled(s.handlers, b)), Armed(s.handlers, timers)))
  {
    hide Armed;
    var bits := set b | b in wanted && Enabled(s.handlers, b);
    forall i, ev | 0 <= i < |s.handlers| && ev != Timeout && s.handlers[i].fd > 0 && Bit(s.handlers[i].fd, ev) in bits
      ensures Free(s, s.handlers[i].handler, ev)
    {
      assert Enabled(s.handlers, Bit(s.handlers[i].fd, ev));
      assert ev in s.handlers[i].mask;
    }
  }

  lemma ResolveKeeps(s: State, t: Thread, due: set<Handler>)
    requires Inv(s)
    ensures Inv(Next(s, Resolve(t, due)))
  {
    hide Choose, SetMask, Inv, Enabled, Armed;
    if t in s.places && s.places[t].Resolving? {
      LeaderIs(s, t);
      ChosenFree(s, s.places[t], due);
      MoveKeeps(s, Next(s, Resolve(t, due)), t, Act(s, Resolve(t, due), s.places[t]).place);
    } else {
      Nothing(s, Resolve(t, due));
    }
  }

  /** Nobody handles what the leader chooses. */
  lemma ChosenFree(s: State, p: Place, due: set<Handler>)
    requires p.Resolving? && ChoiceFree(s, p)
    ensures var c := Choose(s.handlers, p.bits, due); c.Some? ==> ChoiceFree(s, Deactivating(c.value.0, c.value.1))
  {
    hide Choose;
    ChooseAt(s.handlers, p.bits, due);
  }

  /** What switching one event of a handler on or off does to the list. */
  predicate Switched(handlers: seq<Entry>, r: seq<Entry>, h: Handler, on: set<Event>, off: set<Event>) {
    |r| == |handlers| && forall i :: 0 <= i < |handlers| ==>
      && r[i].handler == handlers[i].handler && r[i].fd == handlers[i].fd
      && r[i].mask == if handlers[i].handler == h then handlers[i].mask + on - off else handlers[i].mask
  }

  lemma SwitchedBy(s: State, h: Handler, on: set<Event>, off: set<Event>)
    requires DistinctHandlers(s)
    ensures Switched(s.handlers, SetMask(s.handlers, h, on, off), h, on, off)
  {
    hide SetMask;
    forall i | 0 <= i < |s.handlers|
      ensures var e, r := s.handlers[i], SetMask(s.handlers, h, on, off)[i];
        r.handler == e.handler && r.fd == e.fd && r.mask == if e.handler == h then e.mask + on - off else e.mask
    {
      SetMaskAt(s.handlers, h, on, off, i);
    }
  }

  lemma DeactivateKeeps(s: State, t: Thread)
    requires Inv(s)
    ensures Inv(Next(s, Deactivate(t)))
  {
    hide Inv, SetMask;
    if t in s.places && s.places[t].Deactivating? {
      var p := s.places[t];
      assert DistinctHandlers(s) by { Distinctness(s); }
      SwitchedBy(s, p.handler, {}, {p.event});
      TakesHold(s, Next(s, Deactivate(t)), t);
    } else {
      Nothing(s, Deactivate(t));
    }
  }

  lemma Distinctness(s: State)
    requires Inv(s)
    ensures DistinctHandlers(s)
  {
  }

  /** The leader takes hold of what it has chosen. */
  lemma TakesHold(s: State, s': State, t: Thread)
    requires Inv(s) && t in s.places && s.places[t].Deactivating?
    requires var p := s.places[t];
      s'.places == s.places[t := Promoting(p.handler, p.event)] && s'.leader == s.leader &&
      Switched(s.handlers, s'.handlers, p.handler, {}, {p.event})
    ensures Inv(s')
  {
    var p := s.places[t];
    assert ChoiceFree(s, p);
    forall h, ev | Free(s, h, ev) && !(h == p.handler && ev == p.event) ensures Free(s', h, ev) { StillFree(s, s', h, ev); }
    forall u | u in s'.places ensures ChoiceFree(s', s'.places[u]) {
      assert u != t ==> ChoiceFree(s, s.places[u]) && !Leads(s.places[u]);
    }
  }

  lemma ActivateKeeps(s: State, t: Thread)
    requires Inv(s)
    ensures Inv(Next(s, Activate(t)))
  {
    hide Inv, SetMask;
    if t in s.places && s.places[t].Dispatching? {
      var p := s.places[t];
      assert DistinctHandlers(s) by { Distinctness(s); }
      SwitchedBy(s, p.handler, {p.event}, {});
      LetsGo(s, Next(s, Activate(t)), t);
    } else {
      Nothing(s, Activate(t));
    }
  }

  /** A thread lets go of what it has handled. */
  lemma LetsGo(s: State, s': State, t: Thread)
    requires Inv(s) && t in s.places && s.places[t].Dispatching?
    requires var p := s.places[t];
      s'.places == s.places[t := Outer] && s'.leader == s.leader && Switched(s.handlers, s'.handlers, p.handler, {p.event}, {})
    ensures Inv(s')
  {
    var p := s.places[t];
    forall h, ev | Free(s, h, ev) ensures Free(s', h, ev) { StillFree(s, s', h, ev); }
    assert p.event != Timeout ==> Free(s', p.handler, p.event);
    forall u | u in s'.places ensures ChoiceFree(s', s'.places[u]) {
      assert u != t ==> ChoiceFree(s, s.places[u]);
    }
  }

  lemma SameFree(s: State, s': State, h: Handler, ev: Event)
    requires s'.places == s.places
    ensures Free(s', h, ev) <==> Free(s, h, ev)
  {
  }

  /** The handler list may change as long as what is active or chosen in it is handled by nobody. */
  lemma RegistryKeeps(s: State, s': State)
    requires Inv(s) && s'.places == s.places && s'.leader == s.leader && DistinctHandlers(s')
    requires forall i :: 0 <= i < |s'.handlers| ==>
               || s'.handlers[i].fd == 0
               || (exists j :: 0 <= j < |s.handlers| && s.handlers[j].handler == s'.handlers[i].handler && s.handlers[j].fd == s'.handlers[i].fd)
               || (forall ev :: ev != Timeout && Awaited(s, Bit(s'.handlers[i].fd, ev)) ==> Free(s, s'.handlers[i].handler, ev))
    requires forall i, ev :: 0 <= i < |s'.handlers| && ev in s'.handlers[i].mask && ev != Timeout ==> Free(s, s'.handlers[i].handler, ev)
    ensures Inv(s')
  {
    forall h, ev ensures Free(s', h, ev) <==> Free(s, h, ev) { SameFree(s, s', h, ev); }
    forall t | t in s'.places ensures ChoiceFree(s', s'.places[t]) {
      var p := s.places[t];
      assert ChoiceFree(s, p);
      if p.Selecting? || p.Resolving? {
        forall i, ev | 0 <= i < |s'.handlers| && ev != Timeout && s'.handlers[i].fd > 0 && Bit(s'.handlers[i].fd, ev) in p.bits
          ensures Free(s', s'.handlers[i].handler, ev)
        {
          assert Awaited(s, Bit(s'.handlers[i].fd, ev));
        }
      }
    }
  }

  lemma RegistryStepKeeps(s: State, a: Step)
    requires Inv(s) && Careful(s, a) && (a.Register? || a.Schedule? || a.Unregister? || a.Close? || a.Drop?)
    ensures Inv(Next(s, a))
  {
    if a.Close? {
      CloseKeeps(s, a.handler);
    } else if a.Drop? || a.Unregister? {
      DropKeeps(s, a);
    } else if Registered(s, a.handler) {
      RegisterAgainKeeps(s, a);
    } else {
      RegisterKeeps(s, a);
    }
  }

  lemma RegisterKeeps(s: State, a: Step)
    requires Inv(s) && Careful(s, a) && (a.Register? || a.Schedule?) && !Registered(s, a.handler)
    ensures Inv(Next(s, a))
  {
    var s' := Next(s, a);
    forall i | 0 <= i < |s'.handlers| - 1 ensures s'.handlers[i] == s.handlers[i] { }
    RegistryKeeps(s, s');
  }

  lemma RegisterAgainKeeps(s: State, a: Step)
    requires Inv(s) && Careful(s, a) && (a.Register? || a.Schedule?) && Registered(s, a.handler)
    ensures Inv(Next(s, a))
  {
    if a.Register? {
      var s' := Next(s, a);
      forall i | 0 <= i < |s.handlers|
        ensures s'.handlers[i].handler == s.handlers[i].handler && s'.handlers[i].fd == s.handlers[i].fd
        ensures s'.handlers[i].mask == if s.handlers[i].handler == a.handler then s.handlers[i].mask + a.events else s.handlers[i].mask
      {
        SetMaskAt(s.handlers, a.handler, a.events, {}, i);
      }
      RegistryKeeps(s, s');
    }
  }

  lemma CloseKeeps(s: State, h: Handler)
    requires Inv(s)
    ensures Inv(Next(s, Close(h)))
  {
    var s' := Next(s, Close(h));
    forall i | 0 <= i < |s.handlers|
      ensures s'.handlers[i].handler == s.handlers[i].handler && s'.handlers[i].mask == s.handlers[i].mask
      ensures s'.handlers[i].fd == s.handlers[i].fd || s'.handlers[i].fd == 0
    {
    }
    RegistryKeeps(s, s');
  }

  lemma DropKeeps(s: State, a: Step)
    requires Inv(s) && (a.Drop? || a.Unregister?)
    ensures Inv(Next(s, a))
  {
    hide SetMask, Closed, Act, Awaited;
    var s', h := Next(s, a), a.handler;
    forall i | 0 <= i < |s'.handlers| ensures s'.handlers[i] in s.handlers {
      WithoutAt(s.handlers, h, i);
    }
    forall i, j | 0 <= i < j < |s'.handlers|
      ensures s'.handlers[i].handler != s'.handlers[j].handler
      ensures s'.handlers[i].fd == s'.handlers[j].fd ==> s'.handlers[i].fd == 0
    {
      WithoutAt(s.handlers, h, i);
      WithoutAt(s.handlers, h, j);
    }
    RegistryKeeps(s, s');
  }

  lemma PoolStepKeeps(s: State, a: Step)
    requires Inv(s)
    requires a.Enter? || a.Wake? || a.SelectReturns? || a.Interrupt? || a.GiveUp? || a.Promote?
    ensures Inv(Next(s, a))
  {
    hide Inv;
    if a.thread in s.places {
      var t, p := a.thread, s.places[a.thread];
      LeaderIs(s, t);
      MoveKeeps(s, Next(s, a), t, Act(s, a, p).place);
    }
  }

  lemma LeaderIs(s: State, t: Thread)
    requires Inv(s) && t in s.places
    ensures ChoiceFree(s, s.places[t])
    ensures Leads(s.places[t]) ==> s.leader == Some(t)
  {
  }

  lemma StopKeeps(s: State, a: Step)
    requires Inv(s) && (a.Stop? || a.Shutdown?)
    ensures Inv(Next(s, a))
  {
    RegistryKeeps(s, Next(s, a));
  }

  /** Every step keeps the invariant. */
  lemma StepKeeps(s: State, a: Step)
    requires Inv(s) && Careful(s, a)
    ensures Inv(Next(s, a))
  {
    hide Inv, Next, Careful;
    match a
    case Prepare(t, wanted, timers) => PrepareKeeps(s, t, wanted, timers);
    case Resolve(t, due) => ResolveKeeps(s, t, due);
    case Deactivate(t) => DeactivateKeeps(s, t);
    case Activate(t) => ActivateKeeps(s, t);
    case Register(_, _, _) => RegistryStepKeeps(s, a);
    case Schedule(_, _) => RegistryStepKeeps(s, a);
    case Unregister(_) => RegistryStepKeeps(s, a);
    case Close(_) => RegistryStepKeeps(s, a);
    case Drop(_) => RegistryStepKeeps(s, a);
    case Stop => StopKeeps(s, a);
    case Shutdown => StopKeeps(s, a);
    case _ => PoolStepKeeps(s, a);
  }

  /** A step keeps the invariant if and only if it is not a registration that breaks it at once. */
  lemma StepExact(s: State, a: Step)
    requires Inv(s)
    ensures Inv(Next(s, a)) <==> Careful(s, a)
  {
    hide Next;
    if Careful(s, a) {
      StepKeeps(s, a);
    } else if Registered(s, a.handler) {
      CarelessAgain(s, a);
    } else {
      CarelessNew(s, a);
    }
  }

  lemma CarelessAgain(s: State, a: Step)
    requires a.Register? && !Careful(s, a) && Registered(s, a.handler)
    ensures !Inv(Next(s, a))
  {
    var s', i := Next(s, a), Find(s.handlers, a.handler);
    var ev :| ev in a.events && ev != Timeout && !Free(s, a.handler, ev);
    SameFree(s, s', a.handler, ev);
    assert ev in s'.handlers[i].mask && s'.handlers[i].handler == a.handler;
  }

  lemma CarelessNew(s: State, a: Step)
    requires (a.Register? || a.Schedule?) && !Careful(s, a) && !Registered(s, a.handler)
    ensures !Inv(Next(s, a))
  {
    var s', n := Next(s, a), |s.handlers|;
    forall ev ensures Free(s', a.handler, ev) <==> Free(s, a.handler, ev) { SameFree(s, s', a.handler, ev); }
    assert s'.handlers[n] == Entry(a.handler, a.fd, if a.Register? then a.events else {Timeout});
    if ev :| a.Register? && ev in a.events && ev != Timeout && !Free(s, a.handler, ev) {
      assert !HeldIsOff(s');
    } else if i :| 0 <= i < n && s.handlers[i].fd == a.fd {
      assert s'.handlers[i].fd == s'.handlers[n].fd;
    } else {
      var ev :| ev != Timeout && Awaited(s, Bit(a.fd, ev)) && !Free(s, a.handler, ev);
      var t :| t in s.places && (s.places[t].Selecting? || s.places[t].Resolving?) && Bit(a.fd, ev) in s.places[t].bits;
      assert !ChoiceFree(s', s'.places[t]);
    }
  }

  ghost predicate CarefulRun(s: State, steps: seq<Step>)
    decreases |steps|
  {
    steps == [] || (Careful(s, steps[0]) && CarefulRun(Next(s, steps[0]), steps[1..]))
  }

  lemma {:induction false} RunKeeps(s: State, steps: seq<Step>)
    requires Inv(s) && CarefulRun(s, steps)
    ensures Inv(Run(s, steps))
    decreases |steps|
  {
    hide Inv, Next, Careful;
    if steps != [] {
      StepKeeps(s, steps[0]);
      RunKeeps(Next(s, steps[0]), steps[1..]);
    }
  }

  /**
    Under every interleaving at most one thread is between becoming leader and
    promoting a successor, and no two threads handle reading, or writing, of
    the same handler at once.
  */
  lemma ExclusiveHandling(s: State, steps: seq<Step>, t: Thread, u: Thread)
    requires Initial(s) && CarefulRun(s, steps)
    requires t != u && t in Run(s, steps).places && u in Run(s, steps).places
    ensures !(Leads(Run(s, steps).places[t]) && Leads(Run(s, steps).places[u]))
    ensures forall h, ev :: ev != Timeout ==>
              !(Run(s, steps).places[t] == Dispatching(h, ev) && Run(s, steps).places[u] == Dispatching(h, ev))
  {
    assert Inv(s);
    RunKeeps(s, steps);
    var r := Run(s, steps);
    forall h, ev | ev != Timeout ensures !(r.places[t] == Dispatching(h, ev) && r.places[u] == Dispatching(h, ev)) {
      assert Holds(Dispatching(h, ev), h, ev);
    }
  }

  // ------------------------------------------------------------------ registering every handler once

  /** The step may add a handler with a descriptor. */
  predicate Adds(a: Step) {
    a.Register? || (a.Schedule? && a.fd > 0)
  }

  /** Every handler is added at most once, and open descriptors are its own; timers without descriptor do not matter. */
  predicate RegistersOnce(steps: seq<Step>) {
    forall i, j :: 0 <= i < j < |steps| && Adds(steps[i]) && Adds(steps[j]) ==>
      steps[i].handler != steps[j].handler && (steps[i].fd == steps[j].fd ==> steps[i].fd == 0)
  }

  /** The handler is read or written by no thread, and is at most a timer without descriptor; nobody uses the descriptor. */
  ghost predicate Unused(s: State, h: Handler, fd: Descriptor) {
    && (forall t :: t in s.places ==> !Names(s.places[t], h) && (fd > 0 ==> !Watches(s.places[t], fd)))
    && Apart(s.handlers, h, fd)
  }

  predicate Names(p: Place, h: Handler) {
    (p.Deactivating? || p.Promoting? || p.Dispatching?) && p.handler == h && p.event != Timeout
  }

  predicate Watches(p: Place, fd: Descriptor) {
    (p.Selecting? || p.Resolving?) && exists b :: b in p.bits && b.fd == fd
  }

  lemma UnusedStep(s: State, a: Step, h: Handler, fd: Descriptor)
    requires Unused(s, h, fd) && (Adds(a) ==> a.handler != h && (a.fd == fd ==> fd == 0))
    ensures Unused(Next(s, a), h, fd)
  {
    hide Next, Names, Watches;
    var s' := Next(s, a);
    forall t | t in s'.places ensures !Names(s'.places[t], h) && (fd > 0 ==> !Watches(s'.places[t], fd)) {
      UnusedPlace(s, a, h, fd, t);
    }
    UnusedInList(s, a, h, fd);
  }

  lemma UnusedPlace(s: State, a: Step, h: Handler, fd: Descriptor, t: Thread)
    requires Unused(s, h, fd) && t in Next(s, a).places
    ensures !Names(Next(s, a).places[t], h) && (fd > 0 ==> !Watches(Next(s, a).places[t], fd))
  {
    hide Next, Names, Watches;
    UnusedName(s, a, h, fd, t);
    if fd > 0 { UnusedBits(s, a, h, fd, t); }
  }

  lemma UnusedName(s: State, a: Step, h: Handler, fd: Descriptor, t: Thread)
    requires Unused(s, h, fd) && t in Next(s, a).places
    ensures !Names(Next(s, a).places[t], h)
  {
    hide Next, Watches, Apart;
    OthersStay(s, a);
    assert t in s.places && !Names(s.places[t], h);
    if OfThread(a) && a.thread == t { UnusedMoved(s, a, h, fd); }
  }

  lemma UnusedMoved(s: State, a: Step, h: Handler, fd: Descriptor)
    requires OfThread(a) && a.thread in s.places && !Names(s.places[a.thread], h) && Apart(s.handlers, h, fd)
    ensures a.thread in Next(s, a).places && !Names(Next(s, a).places[a.thread], h)
  {
    hide Next, Choose, SetMask, Armed, Enabled;
    OwnMove(s, a);
    var p := s.places[a.thread];
    if a.Resolve? && p.Resolving? { ChooseAt(s.handlers, p.bits, a.due); }
  }

  lemma UnusedBits(s: State, a: Step, h: Handler, fd: Descriptor, t: Thread)
    requires Unused(s, h, fd) && fd > 0 && t in Next(s, a).places
    ensures !Watches(Next(s, a).places[t], fd)
  {
    hide Next, Names, Apart;
    OthersStay(s, a);
    assert t in s.places && !Watches(s.places[t], fd);
    if OfThread(a) && a.thread == t { UnusedWatched(s, a, h, fd); }
  }

  lemma UnusedWatched(s: State, a: Step, h: Handler, fd: Descriptor)
    requires OfThread(a) && a.thread in s.places && !Watches(s.places[a.thread], fd) && Apart(s.handlers, h, fd) && fd > 0
    ensures a.thread in Next(s, a).places && !Watches(Next(s, a).places[a.thread], fd)
  {
    hide Next, Choose, SetMask, Armed;
    OwnMove(s, a);
  }

  /** In the list the handler has no descriptor, and nobody has the given one. */
  predicate Apart(handlers: seq<Entry>, h: Handler, fd: Descriptor) {
    forall i :: 0 <= i < |handlers| ==>
      (handlers[i].handler == h ==> handlers[i].fd == 0) && (handlers[i].fd == fd ==> fd == 0)
  }

  lemma ApartKept(handlers: seq<Entry>, h: Handler, fd: Descriptor, x: Handler, on: set<Event>, off: set<Event>)
    requires Apart(handlers, h, fd)
    ensures Apart(SetMask(handlers, x, on, off), h, fd) && Apart(Closed(handlers, x), h, fd) && Apart(Without(handlers, x), h, fd)
  {
    hide Find;
  }

  lemma UnusedInList(s: State, a: Step, h: Handler, fd: Descriptor)
    requires Apart(s.handlers, h, fd) && (Adds(a) ==> a.handler != h && (a.fd == fd ==> fd == 0))
    ensures Apart(Next(s, a).handlers, h, fd)
  {
    hide SetMask, Closed, Without, Choose, Enabled, Armed, Find;
    match a
    case Deactivate(t) =>
      if t in s.places && s.places[t].Deactivating? {
        ApartKept(s.handlers, h, fd, s.places[t].handler, {}, {s.places[t].event});
      }
    case Activate(t) =>
      if t in s.places && s.places[t].Dispatching? {
        ApartKept(s.handlers, h, fd, s.places[t].handler, {s.places[t].event}, {});
      }
    case Register(x, _, events) => ApartKept(s.handlers, h, fd, x, events, {});
    case Unregister(x) => ApartKept(s.handlers, h, fd, x, {}, {});
    case Close(x) => ApartKept(s.handlers, h, fd, x, {}, {});
    case Drop(x) => ApartKept(s.handlers, h, fd, x, {}, {});
    case _ =>
  }

  lemma UnusedIsCareful(s: State, a: Step)
    requires Adds(a) ==> Unused(s, a.handler, a.fd)
    ensures Careful(s, a)
  {
    if Adds(a) {
      forall ev | ev != Timeout ensures Free(s, a.handler, ev) {
        forall t | t in s.places ensures !Holds(s.places[t], a.handler, ev) { assert !Names(s.places[t], a.handler); }
      }
    }
  }

  lemma {:induction false} UnusedRun(s: State, steps: seq<Step>)
    requires RegistersOnce(steps)
    requires forall i :: 0 <= i < |steps| && Adds(steps[i]) ==> Unused(s, steps[i].handler, steps[i].fd)
    ensures CarefulRun(s, steps)
    decreases |steps|
  {
    hide Next, Unused, Careful;
    if steps != [] {
      UnusedIsCareful(s, steps[0]);
      forall i | 0 <= i < |steps[1..]| && Adds(steps[1..][i])
        ensures Unused(Next(s, steps[0]), steps[1..][i].handler, steps[1..][i].fd)
      {
        UnusedStep(s, steps[0], steps[i + 1].handler, steps[i + 1].fd);
      }
      UnusedRun(Next(s, steps[0]), steps[1..]);
    }
  }

  /** Whoever registers every handler once, on a descriptor of its own, is careful under every interleaving. */
  lemma OnceIsCareful(s: State, steps: seq<Step>)
    requires Initial(s) && RegistersOnce(steps)
    ensures CarefulRun(s, steps)
  {
    UnusedRun(s, steps);
  }

  /** What such a caller gets. */
  lemma OnceIsExclusive(s: State, steps: seq<Step>, t: Thread, u: Thread, h: Handler, ev: Event)
    requires Initial(s) && RegistersOnce(steps) && t != u && ev != Timeout
    ensures !Twice(s, steps, t, u, h, ev)
  {
    hide Run, CarefulRun, Initial;
    OnceIsCareful(s, steps);
    if Twice(s, steps, t, u, h, ev) {
      ExclusiveHandling(s, steps, t, u);
    }
  }

  // ------------------------------------------------------------------ where exclusion ends

  /**
    `select` returns because a descriptor is ready, or with a time limit set; and
    while the interrupter has been written it returns for that, once.
  */
  ghost predicate Real(s: State, a: Step) {
    && (a.SelectReturns? ==>
          && a.thread in s.places && s.places[a.thread].Selecting? && !s.pending
          && (s.places[a.thread].bits * a.active != {} || s.places[a.thread].armed))
    && (a.Interrupt? ==> a.thread in s.places && s.places[a.thread].Selecting? && s.pending)
  }

  ghost predicate RealRun(s: State, steps: seq<Step>)
    decreases |steps|
  {
    steps == [] || (Real(s, steps[0]) && RealRun(Next(s, steps[0]), steps[1..]))
  }

  lemma {:induction false} RunJoin(s: State, a: seq<Step>, b: seq<Step>)
    ensures Run(s, a + b) == Run(Run(s, a), b)
    ensures RealRun(s, a) && RealRun(Run(s, a), b) ==> RealRun(s, a + b)
    decreases |a|
  {
    hide Next, Real;
    if a == [] {
      assert a + b == b;
    } else {
      assert (a + b)[1..] == a[1..] + b;
      RunJoin(Next(s, a[0]), a[1..], b);
    }
  }

  lemma RunOne(s: State, a: Step)
    ensures Run(s, [a]) == Next(s, a)
    ensures Real(s, a) ==> RealRun(s, [a])
  {
    hide Next, Real;
    assert [a][1..] == [];
    assert Run(Next(s, a), []) == Next(s, a);
  }

  /** What a thread does that becomes leader and is interrupted. */
  function Interrupted(t: Thread, wanted: set<Bit>, timers: set<Handler>): (steps: seq<Step>) {
    [Enter(t), Prepare(t, wanted, timers), Interrupt(t), Promote(t)]
  }

  /** What a thread does that becomes leader and finds something to handle. */
  function Round(t: Thread, wanted: set<Bit>, active: set<Bit>, timers: set<Handler>): (steps: seq<Step>) {
    [Enter(t), Prepare(t, wanted, timers), SelectReturns(t, active), Resolve(t, timers), Deactivate(t), Promote(t)]
  }

  /** The state of a thread that goes through a round. */
  function InRound(s: State, t: Thread, place: Place): (r: State) {
    Move(s, t, place).(leader := Some(t))
  }

  /** The thread can become leader, and it asks for these bits. */
  ghost predicate Ready(s: State, t: Thread, wanted: set<Bit>) {
    At(s, t, Outer) && s.running && s.leader == None && forall b :: b in wanted ==> Enabled(s.handlers, b)
  }

  lemma RoundFirst(s: State, t: Thread, wanted: set<Bit>, timers: set<Handler>, armed: bool)
    requires Ready(s, t, wanted) && armed == Armed(s.handlers, timers)
    ensures Next(s, Enter(t)) == InRound(s, t, Preparing)
    ensures Next(InRound(s, t, Preparing), Prepare(t, wanted, timers)) == InRound(s, t, Selecting(wanted, armed))
  {
    hide Armed, Enabled, Choose, SetMask;
    assert (set b | b in wanted && Enabled(s.handlers, b)) == wanted;
  }

  lemma RoundInterrupted(s: State, t: Thread, wanted: set<Bit>, armed: bool)
    requires Ready(s, t, wanted) && s.pending
    ensures Real(InRound(s, t, Selecting(wanted, armed)), Interrupt(t))
    ensures Next(InRound(s, t, Selecting(wanted, armed)), Interrupt(t)) == InRound(s, t, PromotingOnly).(pending := false)
    ensures Next(InRound(s, t, PromotingOnly).(pending := false), Promote(t)) == s.(ready := true, pending := false)
  {
    hide Armed, Enabled, Choose, SetMask;
    assert s.places[t := Outer] == s.places;
  }

  lemma RunFour(s: State, steps: seq<Step>, r1: State, r2: State, r3: State, r4: State)
    requires |steps| == 4 && Next(s, steps[0]) == r1 && Next(r1, steps[1]) == r2 && Next(r2, steps[2]) == r3 && Next(r3, steps[3]) == r4
    requires Real(s, steps[0]) && Real(r1, steps[1]) && Real(r2, steps[2]) && Real(r3, steps[3])
    ensures Run(s, steps) == r4 && RealRun(s, steps)
  {
    hide Next, Real;
    RunOne(r3, steps[3]);
    assert steps[3..] == [steps[3]] && steps[2..][1..] == steps[3..] && steps[1..][1..] == steps[2..];
    assert Run(r2, steps[2..]) == r4 && RealRun(r2, steps[2..]);
    assert Run(r1, steps[1..]) == r4 && RealRun(r1, steps[1..]);
  }

  /** The interrupter is read and the next leader can do its work. */
  lemma RunInterrupted(s: State, t: Thread, wanted: set<Bit>, timers: set<Handler>)
    requires Ready(s, t, wanted) && s.pending
    ensures var steps := Interrupted(t, wanted, timers); Run(s, steps) == s.(ready := true, pending := false) && RealRun(s, steps)
  {
    hide Run, Next, InRound, RealRun, Ready, Armed;
    var armed := Armed(s.handlers, timers);
    RoundFirst(s, t, wanted, timers, armed);
    RoundInterrupted(s, t, wanted, armed);
    RunFour(s, Interrupted(t, wanted, timers), InRound(s, t, Preparing), InRound(s, t, Selecting(wanted, armed)),
            InRound(s, t, PromotingOnly).(pending := false), s.(ready := true, pending := false));
  }

  /** After a round the thread dispatches and nobody leads. */
  function Handling(s: State, t: Thread, h: Handler, ev: Event): (r: State) {
    Move(s, t, Dispatching(h, ev)).(leader := None, ready := true, handlers := SetMask(s.handlers, h, {}, {ev}))
  }

  /** Uninterrupted, `select` can return with the active bits, and then the event of the handler is chosen. */
  ghost predicate Due(s: State, t: Thread, wanted: set<Bit>, active: set<Bit>, timers: set<Handler>, h: Handler, ev: Event) {
    && Ready(s, t, wanted) && !s.pending && active <= wanted && (active != {} || Armed(s.handlers, timers))
    && Choose(s.handlers, active, timers) == Some((h, ev))
  }

  lemma RoundReturns(s: State, t: Thread, wanted: set<Bit>, active: set<Bit>, timers: set<Handler>, h: Handler, ev: Event, armed: bool)
    requires Due(s, t, wanted, active, timers, h, ev) && armed == Armed(s.handlers, timers)
    ensures Real(InRound(s, t, Selecting(wanted, armed)), SelectReturns(t, active))
    ensures Next(InRound(s, t, Selecting(wanted, armed)), SelectReturns(t, active)) == InRound(s, t, Resolving(active))
  {
    hide Armed, Enabled, Choose, SetMask;
    assert wanted * active == active;
  }

  lemma RoundLast(s: State, t: Thread, wanted: set<Bit>, active: set<Bit>, timers: set<Handler>, h: Handler, ev: Event)
    requires Due(s, t, wanted, active, timers, h, ev)
    ensures Next(InRound(s, t, Resolving(active)), Resolve(t, timers)) == InRound(s, t, Deactivating(h, ev))
    ensures Next(InRound(s, t, Deactivating(h, ev)), Deactivate(t))
            == InRound(s, t, Promoting(h, ev)).(handlers := SetMask(s.handlers, h, {}, {ev}))
    ensures Next(InRound(s, t, Promoting(h, ev)).(handlers := SetMask(s.handlers, h, {}, {ev})), Promote(t)) == Handling(s, t, h, ev)
  {
    hide Armed, Enabled, Choose, SetMask;
  }

  lemma RunSix(s: State, steps: seq<Step>, r1: State, r2: State, r3: State, r4: State, r5: State, r6: State)
    requires |steps| == 6 && Next(s, steps[0]) == r1 && Next(r1, steps[1]) == r2 && Next(r2, steps[2]) == r3
    requires Next(r3, steps[3]) == r4 && Next(r4, steps[4]) == r5 && Next(r5, steps[5]) == r6
    requires Real(s, steps[0]) && Real(r1, steps[1]) && Real(r2, steps[2]) && Real(r3, steps[3])
    requires Real(r4, steps[4]) && Real(r5, steps[5])
    ensures Run(s, steps) == r6 && RealRun(s, steps)
  {
    hide Next, Real;
    RunFour(r2, steps[2..], r3, r4, r5, r6);
    assert steps[1..][1..] == steps[2..];
    assert Run(r1, steps[1..]) == r6 && RealRun(r1, steps[1..]);
  }

  lemma RunRound(s: State, t: Thread, wanted: set<Bit>, active: set<Bit>, timers: set<Handler>, h: Handler, ev: Event)
    requires Due(s, t, wanted, active, timers, h, ev)
    ensures var steps := Round(t, wanted, active, timers); Run(s, steps) == Handling(s, t, h, ev) && RealRun(s, steps)
  {
    hide Run, Next, InRound, RealRun, Ready, Handling, SetMask, Choose, Armed;
    var armed := Armed(s.handlers, timers);
    RoundFirst(s, t, wanted, timers, armed);
    RoundReturns(s, t, wanted, active, timers, h, ev, armed);
    RoundLast(s, t, wanted, active, timers, h, ev);
    RunSix(s, Round(t, wanted, active, timers), InRound(s, t, Preparing), InRound(s, t, Selecting(wanted, armed)), InRound(s, t, Resolving(active)),
           InRound(s, t, Deactivating(h, ev)), InRound(s, t, Promoting(h, ev)).(handlers := SetMask(s.handlers, h, {}, {ev})),
           Handling(s, t, h, ev));
  }

  /** A part of a run, by where it leads. */
  ghost predicate Reaches(s: State, steps: seq<Step>, r: State) {
    Run(s, steps) == r && RealRun(s, steps)
  }

  lemma LeadsOn(s: State, a: seq<Step>, r: State, b: seq<Step>, q: State)
    requires Reaches(s, a, r) && Reaches(r, b, q)
    ensures Reaches(s, a + b, q)
  {
    hide Run, RealRun;
    RunJoin(s, a, b);
  }

  /** Both threads dispatch the event of the handler. */
  ghost predicate Twice(s: State, steps: seq<Step>, t: Thread, u: Thread, h: Handler, ev: Event) {
    At(Run(s, steps), t, Dispatching(h, ev)) && At(Run(s, steps), u, Dispatching(h, ev))
  }

  /**
    A timer is scheduled and a connection registered, which interrupts the first
    leader.  The timer is taken, and while it is being handled the connection has
    something to read.
  */
  function TimerSteps(t: Thread, u: Thread, h: Handler, g: Handler): (steps: seq<Step>) {
    var wanted := {Bit(1, Read)};
    [Schedule(h, 0)] + [Register(g, 1, {Read})] + Interrupted(t, wanted, {h}) + Round(t, wanted, {}, {h}) + Round(u, wanted, wanted, {h})
  }

  /** For timers there is no exclusion: a due timer is chosen whatever its mask says, so two threads handle it at once. */
  lemma TimerHandledTwice(s: State, t: Thread, u: Thread, h: Handler, g: Handler)
    requires Initial(s) && s.running && t in s.places && u in s.places && t != u && h != g
    ensures var steps := TimerSteps(t, u, h, g);
      RegistersOnce(steps) && CarefulRun(s, steps) && RealRun(s, steps) && Twice(s, steps, t, u, h, Timeout)
  {
    hide Run, RealRun, CarefulRun, Due, Next, Real, Round, Interrupted, SetMask, RegistersOnce, Enabled;
    var wanted := {Bit(1, Read)};
    var s1 := s.(handlers := [Entry(h, 0, {Timeout})]);
    var s2 := s.(handlers := [Entry(h, 0, {Timeout}), Entry(g, 1, {Read})], pending := true);
    var s3 := s2.(ready := true, pending := false);
    var s4 := Handling(s3, t, h, Timeout);
    var s5 := Handling(s4, u, h, Timeout);
    TimerAdded(s, h, g);
    TimerReady(s2, t, h, g);
    RunInterrupted(s2, t, wanted, {h});
    TimerDue(s3, t, h, g);
    RunRound(s3, t, wanted, {}, {h}, h, Timeout);
    TimerDueAgain(s4, u, h, g);
    RunRound(s4, u, wanted, wanted, {h}, h, Timeout);
    var a, b, c, d, e := [Schedule(h, 0)], [Register(g, 1, {Read})], Interrupted(t, wanted, {h}), Round(t, wanted, {}, {h}), Round(u, wanted, wanted, {h});
    LeadsOn(s, a, s1, b, s2);
    LeadsOn(s, a + b, s2, c, s3);
    LeadsOn(s, a + b + c, s3, d, s4);
    LeadsOn(s, a + b + c + d, s4, e, s5);
    TimerStepsOnce(t, u, h, g);
    OnceIsCareful(s, TimerSteps(t, u, h, g));
  }

  lemma TimerStepsOnce(t: Thread, u: Thread, h: Handler, g: Handler)
    ensures RegistersOnce(TimerSteps(t, u, h, g))
  {
    var wanted := {Bit(1, Read)};
    OnlyAdds(Interrupted(t, wanted, {h}) + Round(t, wanted, {}, {h}) + Round(u, wanted, wanted, {h}), TimerSteps(t, u, h, g));
  }

  lemma OnlyAdds(plain: seq<Step>, steps: seq<Step>)
    requires |steps| == |plain| + 2 && !Adds(steps[0])
    requires forall i :: 0 <= i < |plain| ==> !Adds(plain[i]) && steps[i + 2] == plain[i]
    ensures RegistersOnce(steps)
  {
    forall i | 2 <= i < |steps| ensures !Adds(steps[i]) {
      assert steps[i] == plain[i - 2];
    }
  }

  lemma TimerAdded(s: State, h: Handler, g: Handler)
    requires s.handlers == [] && h != g
    ensures
      var s1 := s.(handlers := [Entry(h, 0, {Timeout})]);
      var s2 := s.(handlers := [Entry(h, 0, {Timeout}), Entry(g, 1, {Read})], pending := true);
      Reaches(s, [Schedule(h, 0)], s1) && Reaches(s1, [Register(g, 1, {Read})], s2)
  {
    hide Run, RealRun;
    var s1 := s.(handlers := [Entry(h, 0, {Timeout})]);
    assert s.handlers + [Entry(h, 0, {Timeout})] == [Entry(h, 0, {Timeout})];
    RunOne(s, Schedule(h, 0));
    RunOne(s1, Register(g, 1, {Read}));
  }

  lemma TimerReady(s: State, t: Thread, h: Handler, g: Handler)
    requires |s.handlers| == 2 && s.handlers[1] == Entry(g, 1, {Read})
    requires At(s, t, Outer) && s.running && s.leader == None
    ensures Ready(s, t, {Bit(1, Read)})
  {
    assert s.handlers[1].fd == 1 && Read in s.handlers[1].mask;
    assert Enabled(s.handlers, Bit(1, Read));
  }

  lemma TimerDue(s: State, t: Thread, h: Handler, g: Handler)
    requires s.handlers == [Entry(h, 0, {Timeout}), Entry(g, 1, {Read})]
    requires At(s, t, Outer) && s.running && s.leader == None && !s.pending
    ensures Due(s, t, {Bit(1, Read)}, {}, {h}, h, Timeout)
    ensures SetMask(s.handlers, h, {}, {Timeout}) == [Entry(h, 0, {}), Entry(g, 1, {Read})]
  {
    TimerReady(s, t, h, g);
    assert s.handlers[0].handler in {h} && Timeout in s.handlers[0].mask;
    assert {Timeout} + {} - {Timeout} == {};
  }

  lemma TimerDueAgain(s: State, u: Thread, h: Handler, g: Handler)
    requires s.handlers == [Entry(h, 0, {}), Entry(g, 1, {Read})]
    requires At(s, u, Outer) && s.running && s.leader == None && !s.pending
    ensures Due(s, u, {Bit(1, Read)}, {Bit(1, Read)}, {h}, h, Timeout)
  {
    TimerReady(s, u, h, g);
  }

  /** A handler that is registered again while it is being read; each time the next leader is interrupted. */
  function ReadSteps(t: Thread, u: Thread, h: Handler): (steps: seq<Step>) {
    var bits := {Bit(1, Read)};
    [Register(h, 1, {Read})] + Interrupted(t, bits, {}) + Round(t, bits, bits, {}) +
    [Register(h, 1, {Read})] + Interrupted(u, bits, {}) + Round(u, bits, bits, {})
  }

  /** Nor is there for reading where a handler is registered again while it is being handled. */
  lemma ReadHandledTwice(s: State, t: Thread, u: Thread, h: Handler)
    requires Initial(s) && s.running && t in s.places && u in s.places && t != u
    ensures RealRun(s, ReadSteps(t, u, h)) && Twice(s, ReadSteps(t, u, h), t, u, h, Read)
  {
    hide Run, RealRun, Next, Real, Round, Interrupted, SetMask, Handling;
    var bits := {Bit(1, Read)};
    var a, b, c := [Register(h, 1, {Read})], Interrupted(t, bits, {}), Round(t, bits, bits, {});
    var e, f := Interrupted(u, bits, {}), Round(u, bits, bits, {});
    var s3 := ReadOnce(s, t, h);
    var s6 := ReadOnce(s3, u, h);
    LeadsOn(s, a + b + c, s3, a + e + f, s6);
    assert a + b + c + (a + e + f) == ReadSteps(t, u, h);
  }

  /** Registering, and reading once. */
  lemma ReadOnce(s: State, t: Thread, h: Handler) returns (r: State)
    requires At(s, t, Outer) && s.running && s.leader == None && (s.handlers == [] || s.handlers == [Entry(h, 1, {})])
    ensures Reaches(s, [Register(h, 1, {Read})] + Interrupted(t, {Bit(1, Read)}, {}) + Round(t, {Bit(1, Read)}, {Bit(1, Read)}, {}), r)
    ensures r.places == s.places[t := Dispatching(h, Read)] && r.running && r.leader == None && r.handlers == [Entry(h, 1, {})]
  {
    hide Run, RealRun, Next, Real, Round, Interrupted, SetMask, Due;
    var bits := {Bit(1, Read)};
    var a, b, c := [Register(h, 1, {Read})], Interrupted(t, bits, {}), Round(t, bits, bits, {});
    var s1 := s.(handlers := [Entry(h, 1, {Read})], pending := true);
    var s2 := s1.(ready := true, pending := false);
    r := Handling(s2, t, h, Read);
    RegisterRead(s, h);
    RunOne(s, Register(h, 1, {Read}));
    ReadDue(s2, t, h);
    ReadReady(s1, t, h);
    RunInterrupted(s1, t, bits, {});
    RunRound(s2, t, bits, bits, {}, h, Read);
    LeadsOn(s, a, s1, b, s2);
    LeadsOn(s, a + b, s2, c, r);
  }

  lemma RegisterRead(s: State, h: Handler)
    requires s.handlers == [] || s.handlers == [Entry(h, 1, {})]
    ensures Next(s, Register(h, 1, {Read})) == s.(handlers := [Entry(h, 1, {Read})], pending := true)
    ensures Real(s, Register(h, 1, {Read}))
  {
    assert [] + [Entry(h, 1, {Read})] == [Entry(h, 1, {Read})];
    assert {} + {Read} - {} == {Read};
  }

  lemma ReadReady(s: State, t: Thread, h: Handler)
    requires s.handlers == [Entry(h, 1, {Read})] && At(s, t, Outer) && s.running && s.leader == None
    ensures Ready(s, t, {Bit(1, Read)})
  {
    assert s.handlers[0].fd == 1 && Read in s.handlers[0].mask;
    assert Enabled(s.handlers, Bit(1, Read));
  }

  lemma ReadDue(s: State, t: Thread, h: Handler)
    requires s.handlers == [Entry(h, 1, {Read})] && At(s, t, Outer) && s.running && s.leader == None && !s.pending
    ensures Due(s, t, {Bit(1, Read)}, {Bit(1, Read)}, {}, h, Read)
    ensures SetMask(s.handlers, h, {}, {Read}) == [Entry(h, 1, {})]
  {
    ReadReady(s, t, h);
    assert {Read} + {} - {Read} == {};
  }

  // ------------------------------------------------------------------ when a timer is handled once

  /** The thread has chosen the timer of the handler and is not done with it. */
  predicate Busy(p: Place, h: Handler) {
    (p.Deactivating? || p.Promoting? || p.Dispatching?) && p.handler == h && p.event == Timeout
  }

  ghost predicate TimerOnce(s: State) {
    forall t, u, h :: t in s.places && u in s.places && t != u && Busy(s.places[t], h) ==> !Busy(s.places[u], h)
  }

  /** The leader chooses a timer that a thread has chosen already. */
  ghost predicate TakesAgain(s: State, a: Step) {
    && a.Resolve? && a.thread in s.places && s.places[a.thread].Resolving?
    && var c := Choose(s.handlers, s.places[a.thread].bits, a.due);
       c.Some? && c.value.1 == Timeout && exists u :: u in s.places && Busy(s.places[u], c.value.0)
  }

  /** That is the only way two threads come to handle one timer. */
  lemma TimerExact(s: State, a: Step)
    requires TimerOnce(s)
    ensures TimerOnce(Next(s, a)) <==> !TakesAgain(s, a)
  {
    hide Choose;
    if TakesAgain(s, a) {
      var h := Choose(s.handlers, s.places[a.thread].bits, a.due).value.0;
      var u :| u in s.places && Busy(s.places[u], h);
      var s' := Next(s, a);
      assert Busy(s'.places[a.thread], h) && Busy(s'.places[u], h);
    } else {
      TimerKeeps(s, a);
    }
  }

  lemma TimerKeeps(s: State, a: Step)
    requires TimerOnce(s) && !TakesAgain(s, a)
    ensures TimerOnce(Next(s, a))
  {
    hide Choose;
    var s' := Next(s, a);
    forall t, u, h | t in s'.places && u in s'.places && t != u && Busy(s'.places[t], h) ensures !Busy(s'.places[u], h) {
      BusyStep(s, a, t, h);
      BusyStep(s, a, u, h);
    }
  }

  /** A thread is busy with a timer because it was, or because it has just chosen it. */
  lemma BusyStep(s: State, a: Step, t: Thread, h: Handler)
    requires t in Next(s, a).places
    ensures t in s.places
    ensures Busy(Next(s, a).places[t], h) ==>
              || Busy(s.places[t], h)
              || (a.Resolve? && a.thread == t && s.places[t].Resolving? && Choose(s.handlers, s.places[t].bits, a.due) == Some((h, Timeout)))
  {
    hide Next;
    OthersStay(s, a);
    if OfThread(a) && a.thread == t { BusyMoved(s, a, h); }
  }

  lemma BusyMoved(s: State, a: Step, h: Handler)
    requires OfThread(a) && a.thread in s.places
    ensures var p, r := s.places[a.thread], Next(s, a).places[a.thread];
      Busy(r, h) ==> Busy(p, h) || (a.Resolve? && p.Resolving? && Choose(s.handlers, p.bits, a.due) == Some((h, Timeout)))
  {
    hide Next, Choose, SetMask, Enabled, Armed;
    OwnMove(s, a);
  }

  ghost predicate TimerOnceThroughout(s: State, steps: seq<Step>)
    decreases |steps|
  {
    TimerOnce(s) && (steps == [] || TimerOnceThroughout(Next(s, steps[0]), steps[1..]))
  }

  ghost predicate NeverTakesAgain(s: State, steps: seq<Step>)
    decreases |steps|
  {
    steps == [] || (!TakesAgain(s, steps[0]) && NeverTakesAgain(Next(s, steps[0]), steps[1..]))
  }

  /** Over a whole run: no timer is handled twice at any time if and only if none is chosen while it is being handled. */
  lemma {:induction false} TimerRunExact(s: State, steps: seq<Step>)
    requires TimerOnce(s)
    ensures TimerOnceThroughout(s, steps) <==> NeverTakesAgain(s, steps)
    decreases |steps|
  {
    hide Next, TimerOnce, TakesAgain;
    if steps != [] {
      TimerExact(s, steps[0]);
      if !TakesAgain(s, steps[0]) {
        TimerRunExact(Next(s, steps[0]), steps[1..]);
      } else {
        assert !TimerOnceThroughout(Next(s, steps[0]), steps[1..]);
      }
    }
  }

  // ------------------------------------------------------------------ the registry

  /** What the list says of a handler. */
  function Lookup(handlers: seq<Entry>, h: Handler): (r: Option<Entry>) {
    var i := Find(handlers, h);
    if i < |handlers| then Some(handlers[i]) else None
  }

  lemma FindIs(handlers: seq<Entry>, h: Handler, i: nat)
    requires i <= |handlers| && (i < |handlers| ==> handlers[i].handler == h)
    requires forall j :: 0 <= j < i ==> handlers[j].handler != h
    ensures Find(handlers, h) == i
  {
  }

  lemma LookupMask(handlers: seq<Entry>, h: Handler, on: set<Event>, off: set<Event>, g: Handler)
    ensures var e := Lookup(handlers, g);
      Lookup(SetMask(handlers, h, on, off), g) == if g == h && e.Some? then Some(e.value.(mask := e.value.mask + on - off)) else e
  {
    hide Find;
    FindIs(SetMask(handlers, h, on, off), g, Find(handlers, g));
  }

  lemma LookupClosed(handlers: seq<Entry>, h: Handler, g: Handler)
    ensures var e := Lookup(handlers, g);
      Lookup(Closed(handlers, h), g) == if g == h && e.Some? then Some(e.value.(fd := 0)) else e
  {
    hide Find;
    FindIs(Closed(handlers, h), g, Find(handlers, g));
  }

  lemma LookupAdded(handlers: seq<Entry>, e: Entry, g: Handler)
    requires Lookup(handlers, e.handler).None?
    ensures Lookup(handlers + [e], g) == if g == e.handler then Some(e) else Lookup(handlers, g)
  {
    hide Find;
    var f := Find(handlers, g);
    FindIs(handlers + [e], g, if f == |handlers| && g != e.handler then f + 1 else f);
  }

  lemma LookupOther(handlers: seq<Entry>, h: Handler, g: Handler)
    requires g != h
    ensures Lookup(Without(handlers, h), g) == Lookup(handlers, g)
  {
    hide Find;
    var i, f := Find(handlers, h), Find(handlers, g);
    if i < |handlers| { FindIs(Without(handlers, h), g, if f < i then f else f - 1); }
  }

  lemma LookupGone(s: State, h: Handler)
    requires DistinctHandlers(s)
    ensures Lookup(Without(s.handlers, h), h).None?
  {
    var r := Without(s.handlers, h);
    forall i | 0 <= i < |r| ensures r[i].handler != h { WithoutAt(s.handlers, h, i); }
    FindIs(r, h, |r|);
  }

  /** What a step from outside does to a handler. */
  function Registry(e: Option<Entry>, a: Step): (r: Option<Entry>)
    requires a.Register? || a.Schedule? || a.Unregister? || a.Close? || a.Drop?
  {
    match a
    case Register(h, fd, events) => if e.Some? then Some(e.value.(mask := e.value.mask + events)) else Some(Entry(h, fd, events))
    case Schedule(h, fd) => if e.Some? then e else Some(Entry(h, fd, {Timeout}))
    case Close(_) => if e.Some? then Some(e.value.(fd := 0)) else None
    case _ => None
  }

  /** The list of handlers behaves like a map: a step changes the entry of its handler and no other. */
  lemma RegistryStep(s: State, a: Step, g: Handler)
    requires DistinctHandlers(s) && (a.Register? || a.Schedule? || a.Unregister? || a.Close? || a.Drop?)
    ensures var e := Lookup(s.handlers, g);
      Lookup(Next(s, a).handlers, g) == if g == a.handler then Registry(e, a) else e
  {
    hide Find, SetMask, Closed, Without, DistinctHandlers;
    var h := a.handler;
    if a.Register? {
      if Registered(s, h) {
        LookupMask(s.handlers, h, a.events, {}, g);
        assert Lookup(s.handlers, g).Some? ==> var m := Lookup(s.handlers, g).value.mask; m + a.events - {} == m + a.events;
      } else {
        LookupAdded(s.handlers, Entry(h, a.fd, a.events), g);
      }
    } else if a.Schedule? {
      if !Registered(s, h) { LookupAdded(s.handlers, Entry(h, a.fd, {Timeout}), g); }
    } else if a.Close? {
      LookupClosed(s.handlers, h, g);
    } else {
      if g == h { LookupGone(s, g); } else { LookupOther(s.handlers, h, g); }
    }
  }

  // ------------------------------------------------------------------ no event is forgotten

  /** The handler is in the list and active for the event. */
  predicate On(s: State, h: Handler, ev: Event) {
    var e := Lookup(s.handlers, h); e.Some? && ev in e.value.mask
  }

  /** The handler is in the list, and either active for the event or a thread handles it. */
  ghost predicate Served(s: State, h: Handler, ev: Event) {
    Lookup(s.handlers, h).Some? && (On(s, h, ev) || !Free(s, h, ev))
  }

  predicate Removes(a: Step, h: Handler) {
    (a.Unregister? || a.Drop?) && a.handler == h
  }

  /** When the event has been handled the handler is active for it again; nothing else in the list changes. */
  lemma HandledIsOn(s: State, t: Thread, g: Handler)
    requires t in s.places && s.places[t].Dispatching?
    ensures var p, r, e := s.places[t], Next(s, Activate(t)), Lookup(s.handlers, g);
      && r.places[t] == Outer && (Lookup(s.handlers, p.handler).Some? ==> On(r, p.handler, p.event))
      && Lookup(r.handlers, g) == if g == p.handler && e.Some? then Some(e.value.(mask := e.value.mask + {p.event})) else e
  {
    hide SetMask, Find;
    var p := s.places[t];
    LookupMask(s.handlers, p.handler, {p.event}, {}, g);
    LookupMask(s.handlers, p.handler, {p.event}, {}, p.handler);
    assert Lookup(s.handlers, g).Some? ==> var m := Lookup(s.handlers, g).value.mask; m + {p.event} - {} == m + {p.event};
  }

  /** The list and the place of the thread after its step. */
  lemma ThreadEntry(s: State, a: Step, h: Handler)
    requires OfThread(a) && a.thread in s.places
    ensures var p, e := s.places[a.thread], Lookup(s.handlers, h);
      Lookup(Next(s, a).handlers, h) ==
        if e.None? then e
        else if a.Deactivate? && p.Deactivating? && p.handler == h then Some(e.value.(mask := e.value.mask - {p.event}))
        else if a.Activate? && p.Dispatching? && p.handler == h then Some(e.value.(mask := e.value.mask + {p.event}))
        else e
  {
    hide SetMask, Find, Choose, Enabled, Armed, Lookup;
    var p, e := s.places[a.thread], Lookup(s.handlers, h);
    if a.Deactivate? && p.Deactivating? {
      LookupMask(s.handlers, p.handler, {}, {p.event}, h);
      if e.Some? { assert e.value.mask + {} - {p.event} == e.value.mask - {p.event}; }
    } else if a.Activate? && p.Dispatching? {
      LookupMask(s.handlers, p.handler, {p.event}, {}, h);
      if e.Some? { assert e.value.mask + {p.event} - {} == e.value.mask + {p.event}; }
    }
  }

  /** What a thread holds it keeps until it switches the event on, and it takes hold as it switches the event off. */
  lemma ThreadHolds(s: State, a: Step, h: Handler, ev: Event)
    requires OfThread(a) && a.thread in s.places
    ensures var p, r := s.places[a.thread], Next(s, a).places[a.thread];
      && (Holds(p, h, ev) ==> Holds(r, h, ev) || (a.Activate? && p.Dispatching? && p.handler == h && p.event == ev))
      && (a.Deactivate? && p.Deactivating? && p.handler == h && p.event == ev ==> Holds(r, h, ev))
  {
    hide Next, SetMask, Choose, Enabled, Armed;
    OwnMove(s, a);
  }

  lemma ServedByThread(s: State, a: Step, h: Handler, ev: Event)
    requires Served(s, h, ev) && OfThread(a) && a.thread in s.places
    ensures Served(Next(s, a), h, ev)
  {
    hide Next, Lookup, Holds;
    ThreadEntry(s, a, h);
    ThreadHolds(s, a, h, ev);
    OthersStay(s, a);
    var r := Next(s, a);
    if !Free(s, h, ev) {
      var t :| t in s.places && Holds(s.places[t], h, ev);
      if t == a.thread && a.Activate? && s.places[t].Dispatching? && s.places[t].handler == h && s.places[t].event == ev {
        assert On(r, h, ev);
      } else {
        assert Holds(r.places[t], h, ev);
      }
    } else {
      var p := s.places[a.thread];
      if a.Deactivate? && p.Deactivating? && p.handler == h && p.event == ev {
        assert Holds(r.places[a.thread], h, ev);
      }
    }
  }

  /** A handler that stays in the list loses no event it is active for, except while that is being handled. */
  lemma ServedStep(s: State, a: Step, h: Handler, ev: Event)
    requires Inv(s) && Served(s, h, ev) && !Removes(a, h)
    ensures Served(Next(s, a), h, ev)
  {
    hide Next, Lookup, Registry, Inv;
    if OfThread(a) {
      if a.thread in s.places { ServedByThread(s, a, h, ev); } else { Unmoved(s, a); }
    } else {
      assert Next(s, a).places == s.places by { Outside(s, a); }
      SameFree(s, Next(s, a), h, ev);
      if a.Stop? || a.Shutdown? {
        Outside(s, a);
      } else {
        assert DistinctHandlers(s) by { Distinctness(s); }
        RegistryStep(s, a, h);
        if a.handler == h { KeepsMask(Lookup(s.handlers, h), a, h); }
      }
    }
  }

  lemma Unmoved(s: State, a: Step)
    requires OfThread(a) && a.thread !in s.places
    ensures Next(s, a) == s
  {
  }

  lemma Outside(s: State, a: Step)
    requires !OfThread(a)
    ensures Next(s, a).places == s.places && (a.Stop? || a.Shutdown? ==> Next(s, a).handlers == s.handlers)
  {
    hide SetMask, Without, Closed, Registered;
  }

  lemma KeepsMask(e: Option<Entry>, a: Step, h: Handler)
    requires e.Some? && (a.Register? || a.Schedule? || a.Unregister? || a.Close? || a.Drop?) && !Removes(a, h) && a.handler == h
    ensures Registry(e, a).Some? && e.value.mask <= Registry(e, a).value.mask
  {
  }

  /** From its registration on, over every careful run that does not remove it, a handler is served. */
  lemma {:induction false} ServedRun(s: State, steps: seq<Step>, h: Handler, ev: Event)
    requires Inv(s) && CarefulRun(s, steps) && Served(s, h, ev) && forall i :: 0 <= i < |steps| ==> !Removes(steps[i], h)
    ensures Served(Run(s, steps), h, ev)
    decreases |steps|
  {
    hide Next, Inv, Served, Careful;
    if steps != [] {
      ServedStep(s, steps[0], h, ev);
      StepKeeps(s, steps[0]);
      ServedRun(Next(s, steps[0]), steps[1..], h, ev);
    }
  }

  lemma RegisteredIsServed(s: State, h: Handler, fd: Descriptor, events: set<Event>, ev: Event)
    requires DistinctHandlers(s) && ev in events
    ensures Served(Next(s, Register(h, fd, events)), h, ev) && On(Next(s, Register(h, fd, events)), h, ev)
  {
    hide Next, Lookup;
    RegistryStep(s, Register(h, fd, events), h);
  }

  lemma {:induction false} CarefulSplit(s: State, a: seq<Step>, b: seq<Step>)
    ensures CarefulRun(s, a + b) <==> CarefulRun(s, a) && CarefulRun(Run(s, a), b)
    decreases |a|
  {
    hide Next, Careful;
    if a == [] {
      assert a + b == b;
    } else {
      assert (a + b)[1..] == a[1..] + b;
      CarefulSplit(Next(s, a[0]), a[1..], b);
    }
  }

  /** In a careful run from a started pool a handler is served for what it was registered for, unless it is removed later. */
  lemma NeverForgotten(s: State, before: seq<Step>, h: Handler, fd: Descriptor, events: set<Event>, after: seq<Step>, ev: Event)
    requires Initial(s) && CarefulRun(s, before + ([Register(h, fd, events)] + after)) && ev in events
    requires forall i :: 0 <= i < |after| ==> !Removes(after[i], h)
    ensures Served(Run(s, before + ([Register(h, fd, events)] + after)), h, ev)
  {
    hide Next, Run, CarefulRun, Served;
    var a, r := Register(h, fd, events), Run(s, before);
    assert Inv(s);
    CarefulSplit(s, before, [a] + after);
    CarefulSplit(r, [a], after);
    RunJoin(s, before, [a] + after);
    RunJoin(r, [a], after);
    RunOne(r, a);
    RunKeeps(s, before);
    RunKeeps(r, [a]);
    Distinctness(r);
    RegisteredIsServed(r, h, fd, events, ev);
    ServedRun(Next(r, a), after, h, ev);
  }

  /** No thread is about to handle the handler, or handles it. */
  ghost predicate Untouched(s: State, h: Handler) {
    forall t :: t in s.places ==> !Touches(s.places[t], h)
  }

  predicate Touches(p: Place, h: Handler) {
    (p.Deactivating? || p.Promoting? || p.Dispatching?) && p.handler == h
  }

  /** A thread only begins to handle a handler that is in the list. */
  lemma OnlyListed(s: State, a: Step, h: Handler, t: Thread)
    requires t in s.places && !Touches(s.places[t], h) && Lookup(s.handlers, h).None?
    ensures t in Next(s, a).places && !Touches(Next(s, a).places[t], h)
  {
    hide Next;
    OthersStay(s, a);
    if OfThread(a) && a.thread == t { OnlyListedMove(s, a, h); }
  }

  lemma OnlyListedMove(s: State, a: Step, h: Handler)
    requires OfThread(a) && a.thread in s.places && !Touches(s.places[a.thread], h) && Lookup(s.handlers, h).None?
    ensures !Touches(Next(s, a).places[a.thread], h)
  {
    hide Next, Choose, SetMask, Armed, Enabled, Find;
    OwnMove(s, a);
    var p := s.places[a.thread];
    if a.Resolve? && p.Resolving? { ChooseAt(s.handlers, p.bits, a.due); }
  }

  /** A removed handler is left alone for good, unless it is registered or scheduled again. */
  lemma {:induction false} RemovedIsLeft(s: State, steps: seq<Step>, h: Handler)
    requires Inv(s) && CarefulRun(s, steps) && Lookup(s.handlers, h).None? && Untouched(s, h)
    requires forall i :: 0 <= i < |steps| && (steps[i].Register? || steps[i].Schedule?) ==> steps[i].handler != h
    ensures Untouched(Run(s, steps), h) && Lookup(Run(s, steps).handlers, h).None?
    decreases |steps|
  {
    hide Next, Inv, Careful, Lookup, Touches;
    if steps != [] {
      var a := steps[0];
      OthersStay(s, a);
      forall t | t in s.places ensures !Touches(Next(s, a).places[t], h) { OnlyListed(s, a, h, t); }
      StillUnlisted(s, a, h);
      StepKeeps(s, a);
      RemovedIsLeft(Next(s, a), steps[1..], h);
    }
  }

  lemma StillUnlisted(s: State, a: Step, h: Handler)
    requires Inv(s) && Lookup(s.handlers, h).None? && (a.Register? || a.Schedule? ==> a.handler != h)
    ensures Lookup(Next(s, a).handlers, h).None?
  {
    hide Next, Inv, Lookup;
    if OfThread(a) {
      if a.thread in s.places { ThreadEntry(s, a, h); } else { Unmoved(s, a); }
    } else if a.Stop? || a.Shutdown? {
      Outside(s, a);
    } else {
      assert DistinctHandlers(s) by { Distinctness(s); }
      RegistryStep(s, a, h);
    }
  }

  // ------------------------------------------------------------------ which handler is chosen

  predicate WantsWrite(e: Entry, bits: set<Bit>) {
    e.fd > 0 && Bit(e.fd, Write) in bits
  }

  predicate WantsRead(e: Entry, bits: set<Bit>) {
    e.fd > 0 && Bit(e.fd, Read) in bits
  }

  predicate Wants(e: Entry, bits: set<Bit>, due: set<Handler>) {
    WantsWrite(e, bits) || WantsRead(e, bits) || e.handler in due
  }

  /** The first handler of the list that wants something is chosen; it is written before it is read, and its timer comes last. */
  lemma {:induction false} ChooseFirst(handlers: seq<Entry>, bits: set<Bit>, due: set<Handler>, i: nat)
    requires i <= |handlers| && forall j :: 0 <= j < i ==> !Wants(handlers[j], bits, due)
    requires i < |handlers| ==> Wants(handlers[i], bits, due)
    ensures Choose(handlers, bits, due) ==
      if i == |handlers| then None
      else
        var e := handlers[i];
        Some((e.handler, if WantsWrite(e, bits) then Write else if WantsRead(e, bits) then Read else Timeout))
    decreases i
  {
    if i > 0 {
      assert !Wants(handlers[0], bits, due);
      ChooseFirst(handlers[1..], bits, due, i - 1);
    }
  }

  // ------------------------------------------------------------------ shutting down

  /** How far a thread is from the end of its loop. */
  function Distance(p: Place): (n: nat) {
    match p
    case Finished => 0
    case Outer => 1
    case Waiting => 1
    case PromotingOnly => 2
    case Dispatching(_, _) => 2
    case Promoting(_, _) => 3
    case Resolving(_) => 3
    case Selecting(_, _) => 3
    case Deactivating(_, _) => 4
    case Preparing => 4
  }

  /** Its next step towards the end. */
  function Homeward(t: Thread, p: Place): (a: Step) {
    match p
    case Outer => Enter(t)
    case Waiting => Wake(t)
    case Preparing => Prepare(t, {}, {})
    case Selecting(_, _) => Interrupt(t)
    case Resolving(_) => Interrupt(t)
    case Deactivating(_, _) => Deactivate(t)
    case Dispatching(_, _) => Activate(t)
    case _ => Promote(t)
  }

  lemma Closer(s: State, t: Thread)
    requires !s.running && s.shutdown && t in s.places && !s.places[t].Finished?
    ensures var r := Next(s, Homeward(t, s.places[t]));
      t in r.places && Distance(r.places[t]) < Distance(s.places[t]) && !r.running && r.shutdown
  {
    hide SetMask, Enabled, Armed;
  }

  /** After a shutdown every thread comes to its end by steps of its own, at most four. */
  lemma {:induction false} Finishes(s: State, t: Thread) returns (steps: seq<Step>)
    requires !s.running && s.shutdown && t in s.places
    ensures |steps| <= 4 && At(Run(s, steps), t, Finished)
    ensures forall i :: 0 <= i < |steps| ==> OfThread(steps[i]) && steps[i].thread == t
    decreases Distance(s.places[t])
  {
    steps := FinishesIn(s, t);
    assert Distance(s.places[t]) <= 4;
  }

  lemma {:induction false} FinishesIn(s: State, t: Thread) returns (steps: seq<Step>)
    requires !s.running && s.shutdown && t in s.places
    ensures |steps| <= Distance(s.places[t]) && At(Run(s, steps), t, Finished)
    ensures forall i :: 0 <= i < |steps| ==> OfThread(steps[i]) && steps[i].thread == t
    decreases Distance(s.places[t])
  {
    hide Next;
    steps := [];
    if !s.places[t].Finished? {
      var a := Homeward(t, s.places[t]);
      Closer(s, t);
      var more := FinishesIn(Next(s, a), t);
      steps := [a] + more;
      assert steps[1..] == more;
    }
  }

  /** And it stays there. */
  lemma FinishedStays(s: State, a: Step, t: Thread)
    requires At(s, t, Finished)
    ensures At(Next(s, a), t, Finished)
  {
    hide Next, SetMask, Choose, Enabled, Armed;
    OthersStay(s, a);
    if OfThread(a) && a.thread == t { OwnMove(s, a); }
  }

  // ------------------------------------------------------------------ keeping a leader

  /** The pool still names a leader, but that thread has gone back to wait like a follower. */
  ghost predicate Abandoned(s: State, t: Thread) {
    && OneLeader(s) && s.leader == Some(t) && t in s.places
    && (s.places[t].Outer? || s.places[t].Waiting? || s.places[t].Finished?)
  }

  /** Returning from handling events without promoting a successor abandons the leadership ... */
  lemma GiveUpAbandons(s: State, t: Thread)
    requires Inv(s) && t in s.places && (s.places[t].Selecting? || s.places[t].Resolving?)
    ensures Abandoned(Next(s, GiveUp(t)), t)
  {
    PoolStepKeeps(s, GiveUp(t));
  }

  lemma AbandonedStep(s: State, t: Thread, a: Step)
    requires Abandoned(s, t)
    ensures Abandoned(Next(s, a), t)
  {
    hide Act;
    if OfThread(a) {
      if a.thread in s.places { AbandonedAct(s, t, a); }
    } else {
      OthersChange(s, a);
    }
  }

  lemma AbandonedAct(s: State, t: Thread, a: Step)
    requires Abandoned(s, t) && OfThread(a) && a.thread in s.places
    ensures var e := Act(s, a, s.places[a.thread]);
      e.leader == s.leader && (Leads(e.place) ==> a.thread != t && Leads(s.places[a.thread])) &&
      (a.thread == t ==> e.place.Outer? || e.place.Waiting? || e.place.Finished?)
  {
    hide Choose, SetMask, Enabled, Armed;
  }

  /** ... and nobody leads ever again: every thread of the pool then waits for good. */
  lemma {:induction false} AbandonedForever(s: State, t: Thread, steps: seq<Step>, u: Thread)
    requires Abandoned(s, t)
    ensures u in Run(s, steps).places ==> !Leads(Run(s, steps).places[u])
    decreases |steps|
  {
    hide Next;
    if steps != [] {
      AbandonedStep(s, t, steps[0]);
      AbandonedForever(Next(s, steps[0]), t, steps[1..], u);
    }
  }

  /** The named leader is at work, and while nobody is named some thread can be woken or is on its way. */
  ghost predicate Led(s: State) {
    && OneLeader(s) && s.places != map[]
    && (s.leader.Some? ==> s.leader.value in s.places && Leads(s.places[s.leader.value]))
    && (s.leader == None && !s.ready ==> exists t :: t in s.places && !s.places[t].Waiting?)
    && (s.running ==> forall t :: t in s.places ==> !s.places[t].Finished?)
  }

  /** A started pool is led. */
  lemma InitiallyLed(s: State)
    requires Initial(s) && s.places != map[]
    ensures Led(s)
  {
    var t :| t in s.places;
    assert !s.places[t].Waiting?;
  }

  lemma LedStep(s: State, a: Step)
    requires Led(s) && !a.GiveUp? && s.running
    ensures Led(Next(s, a))
  {
    hide Act;
    SameThreads(s, a);
    if !OfThread(a) {
      OthersChange(s, a);
    } else if a.thread in s.places {
      LedAct(s, a);
      LedApplied(s, a, Act(s, a, s.places[a.thread]));
    }
  }

  /** What the step of a thread does to the leadership. */
  predicate KeepsLed(s: State, t: Thread, e: Effect) {
    && (Leads(e.place) ==> e.leader == Some(t))
    && (e.leader == Some(t) ==> Leads(e.place))
    && (e.leader == s.leader || e.leader == Some(t) || (e.leader == None && s.leader == Some(t) && e.ready))
    && (e.leader == None && !e.ready ==> s.leader == None && !s.ready)
    && (e.leader == None && e.place.Waiting? ==> t in s.places && s.places[t].Waiting?)
    && (e.leader == Some(t) ==> s.leader == Some(t) || s.leader == None)
    && !e.place.Finished?
  }

  lemma LedAct(s: State, a: Step)
    requires Led(s) && s.running && OfThread(a) && !a.GiveUp? && a.thread in s.places
    ensures KeepsLed(s, a.thread, Act(s, a, s.places[a.thread]))
  {
    hide Choose, SetMask, Enabled, Armed;
    var p := s.places[a.thread];
    assert Leads(p) <==> s.leader == Some(a.thread);
  }

  lemma LedApplied(s: State, a: Step, e: Effect)
    requires Led(s) && s.running && OfThread(a) && a.thread in s.places && e == Act(s, a, s.places[a.thread]) && KeepsLed(s, a.thread, e)
    ensures Led(Next(s, a))
  {
    hide Act;
    SameThreads(s, a);
    var s' := Next(s, a);
    if s'.leader == None && !s'.ready {
      var u :| u in s.places && !s.places[u].Waiting?;
      assert u in s'.places && !s'.places[u].Waiting?;
    }
  }

  /** While the pool runs a step leaves it led if and only if it is not an early return of the leader. */
  lemma LedExact(s: State, a: Step)
    requires Led(s) && s.running
    ensures Led(Next(s, a)) <==> !(a.GiveUp? && a.thread in s.places && (s.places[a.thread].Selecting? || s.places[a.thread].Resolving?))
  {
    if !a.GiveUp? {
      LedStep(s, a);
    } else if a.thread !in s.places {
      assert Next(s, a) == s;
    } else if s.places[a.thread].Selecting? || s.places[a.thread].Resolving? {
      assert s.leader == Some(a.thread) && Next(s, a).places[a.thread] == Outer;
    } else {
      assert s.places[a.thread := s.places[a.thread]] == s.places;
      assert Next(s, a) == s;
    }
  }

  lemma SameThreads(s: State, a: Step)
    ensures Next(s, a).places.Keys == s.places.Keys
    ensures s.places != map[] ==> Next(s, a).places != map[]
  {
    hide Next;
    OthersStay(s, a);
    if s.places != map[] {
      var t :| t in s.places;
      assert t in Next(s, a).places.Keys;
    }
  }

  ghost predicate NoGivingUp(s: State, steps: seq<Step>)
    decreases |steps|
  {
    steps == [] || (!steps[0].GiveUp? && s.running && NoGivingUp(Next(s, steps[0]), steps[1..]))
  }

  lemma {:induction false} LedRun(s: State, steps: seq<Step>)
    requires Led(s) && NoGivingUp(s, steps)
    ensures Led(Run(s, steps))
    decreases |steps|
  {
    hide Next, Led;
    if steps != [] {
      LedStep(s, steps[0]);
      LedRun(Next(s, steps[0]), steps[1..]);
    }
  }

  /** As long as nobody gives up, the pool never gets stuck: a thread leads, or some thread is a step or two from leading. */
  lemma LeaderFound(s: State)
    requires Led(s) && s.running
    ensures exists t, steps :: |steps| <= 2 && t in Run(s, steps).places && Leads(Run(s, steps).places[t])
  {
    var none: seq<Step> := [];
    if s.leader.Some? {
      assert Run(s, none) == s;
      assert |none| <= 2 && s.leader.value in Run(s, none).places && Leads(Run(s, none).places[s.leader.value]);
    } else {
      var t: Thread;
      if !s.ready {
        t :| t in s.places && !s.places[t].Waiting?;
      } else {
        t :| t in s.places;
      }
      SoonLeads(s, t);
    }
  }

  lemma SoonLeads(s: State, t: Thread)
    requires Led(s) && s.running && s.leader == None && t in s.places && (s.ready || !s.places[t].Waiting?)
    ensures exists t, steps :: |steps| <= 2 && t in Run(s, steps).places && Leads(Run(s, steps).places[t])
  {
    hide Run, Next;
    var a := if s.places[t].Dispatching? then Activate(t) else if s.places[t].Outer? then Enter(t) else Wake(t);
    var r := Next(s, a);
    RunOne(s, a);
    OwnMove(s, a);
    if s.places[t].Dispatching? {
      NowOutside(s, t);
      RunOne(r, Enter(t));
      OwnMove(r, Enter(t));
      RunJoin(s, [a], [Enter(t)]);
      Leading(s, t, [a] + [Enter(t)]);
    } else {
      Leading(s, t, [a]);
    }
  }

  lemma NowOutside(s: State, t: Thread)
    requires t in s.places && s.places[t].Dispatching? && s.running && s.leader == None
    ensures At(Next(s, Activate(t)), t, Outer) && Next(s, Activate(t)).running && Next(s, Activate(t)).leader == None
  {
    hide SetMask;
  }

  lemma Leading(s: State, t: Thread, steps: seq<Step>)
    requires |steps| <= 2 && t in Run(s, steps).places && Leads(Run(s, steps).places[t])
    ensures exists t, steps :: |steps| <= 2 && t in Run(s, steps).places && Leads(Run(s, steps).places[t])
  {
  }
}
