/** Whole runs of an event base: its invariants hold in every reachable state (event.c). */
module EventRuns {
  import opened EventQueues
  import opened Common
  import Evmap
  import opened EventBases
  import opened EventAdds
  import opened EventTimers
  import opened EventCallbacks

  /** event_remove_timer_nolock_. */
  method RemoveTimer(b: Base, ev: Event)
    requires Sound(b) && ev in b.known && ev !in b.timers
    modifies b`heap, b`commonQueues, b`eventCount, ev`onTimeout
    ensures Sound(b) && !ev.onTimeout
    ensures ev.Now() == old(ev.Now()).(onTimeout := false)
  {
    hide Base.Valid, TakenOut, Armed, Minus, Removed;
    if !ev.onTimeout {
      return;
    }
    Apart(b);
    b.RemoveTimeout(ev);
    Apart(b);
    LeaveHeads(old(b.commonQueues), ev.timeout.common, ev);
    OffQueues(b, ev);
    AllStayArmed(b);
  }

  /** event_priority_set: refused for an active event, whose queue depends on its priority. */
  method PrioritySet(b: Base, ev: Event, pri: int) returns (ok: bool)
    requires Sound(b) && ev in b.known && ev !in b.timers
    modifies ev`pri
    ensures Sound(b)
    ensures ok <==> !ev.active && 0 <= pri < |b.activeQueues|
    ensures ev.Now() == if ok then old(ev.Now()).(pri := pri) else old(ev.Now())
  {
    hide Base.LaterOk, Base.Exclusive, Base.TimesOk, Base.MapOk, Base.TimersOk, Base.CountsOk, Armed, NoDup;
    Apart(b);
    if ev.active || pri < 0 || pri >= |b.activeQueues| {
      return false;
    }
    ev.pri := pri;
    ok := true;
    AllStayArmed(b);
  }

  /** event_assign. */
  method Assign(b: Base, init: bool, watch: Evmap.Event, signal: bool, persist: bool) returns (ev: Event)
    requires Sound(b)
    modifies b`known
    ensures Sound(b) && fresh(ev) && b.known == old(b.known) + {ev} && ev !in b.timers
    ensures ev.Idle() && !ev.finalizing && ev.init == init && !ev.internal && ev.watch == watch
    ensures ev.mapped == (watch.wants.Any() || signal)
  {
    hide Base.Valid, Armed;
    Apart(b);
    Timers(b);
    ev := b.NewEvent(init, false, watch, signal, persist);
    AllStayArmed(b);
  }

  /** event_base_init_common_timeout. */
  method InitCommonTimeout(b: Base)
    requires Sound(b)
    modifies b`known, b`commonQueues, b`timers
    ensures Sound(b) && b.known >= old(b.known) && fresh(b.known - old(b.known))
    ensures forall t :: t in b.timers ==> t in old(b.timers) || t !in old(b.known)
  {
    hide Base.Valid;
    Apart(b);
    Timers(b);
    var r := b.NewCommonTimeout();
    Apart(b);
    if r.Some? {
      ghost var n := |old(b.timers)|;
      forall i | 0 <= i < |b.timers|
        ensures Armed(b, i)
      {
        if i < n {
          assert old(Armed(b, i));
          assert b.timers[i] == b.timers[..n][i] == old(b.timers)[i];
        }
      }
    }
  }

  // ----- runs -----

  /** One call into the base. Events are numbered in the order they were assigned. */
  datatype Op =
    | NewEvent(init: bool, watch: Evmap.Event, signal: bool, persist: bool)
    | NewCommon
    | AddOp(k: nat, tv: Option<Timeval>, now: int, mapOk: bool)
    | DelOp(k: nat, evenIfFinalizing: bool)
    | ActiveOp(k: nat, what: set<What>)
    | LaterOp(k: nat, what: set<What>)
    | CancelOp(k: nat, evenIfFinalizing: bool)
    | FinalizeOp(k: nat)
    | FinalizeCbOp(k: nat)
    | RemoveTimerOp(k: nat)
    | PriorityOp(k: nat, pri: int)
    | TimeoutOp(now: int)
    | PromoteOp
    | TakeOp(p: nat)
    | ReturnOp(now: int)

  /** The events that the program holds: known to the base, and none of them one of its own timers. */
  ghost predicate Held(b: Base, pool: seq<Event>)
    reads b
  {
    forall e :: e in pool ==> e in b.known && e !in b.timers
  }

  predicate Running(b: Base, i: nat)
    reads b
  {
    i < |b.timers| && b.currentEvent == b.timers[i]
  }

  /** A call made now is the moment at which e's timeout fires: timeout_process, or the callback of e's common queue, at
      a time not before the deadline. */
  predicate Fires(b: Base, op: Op, e: Event)
    reads b, e
  {
    e.onTimeout
    && match op
       case TimeoutOp(now) => b.currentEvent == null && e.timeout.common.None? && e.timeout.usec <= now
       case ReturnOp(now) =>
         e.timeout.common.Some? && Running(b, e.timeout.common.value) && e.timeout.usec <= now
       case _ => false
  }

  /** The calls that name e, and the one that starts its callback. */
  predicate Touches(b: Base, pool: seq<Event>, op: Op, e: Event)
    reads b
  {
    match op
    case NewEvent(_, _, _, _) => false
    case NewCommon => false
    case TimeoutOp(_) => false
    case PromoteOp => false
    case ReturnOp(_) => false
    case TakeOp(p) => p < |b.activeQueues| && b.activeQueues[p] != [] && b.activeQueues[p][0] == e
    case _ => op.k < |pool| && pool[op.k] == e
  }

  /** An event that a call does not touch fires when it is due, and otherwise waits on as it did. */
  twostate predicate WaitsOn(b: Base, op: Op, e: Event)
    reads b, e
  {
    e.timeout == old(e.timeout)
    && if old(Fires(b, op, e)) then !e.onTimeout && e.active && e.res == {Timeout}
       else e.onTimeout == old(e.onTimeout)
  }

  /** An event waits where its timeout says. */
  ghost predicate Placed(b: Base, e: Event)
    reads b, e
  {
    && (e in b.heap <==> e.onTimeout && e.timeout.common.None?)
    && (forall i :: 0 <= i < |b.commonQueues| ==>
          (e in b.commonQueues[i] <==> e.onTimeout && e.timeout.common == Some(i)))
    && (e.onTimeout && e.timeout.common.Some? ==> e.timeout.common.value < |b.commonQueues|)
  }

  lemma AllPlaced(b: Base)
    requires Sound(b)
    ensures forall e :: e in b.known ==> Placed(b, e)
    ensures |b.timers| == |b.commonQueues| && NoDup(b.timers)
  {
  }

  /** timeout_process. */
  twostate lemma Ticked(b: Base, new now: int, new fired: seq<Event>)
    requires b.known == old(b.known) && old(b.currentEvent) == null
    requires forall e :: e in old(b.known) ==> old(Placed(b, e))
    requires Elems(fired) == set e | e in old(b.heap) && e.timeout.usec <= now
    requires forall e :: e in b.known ==> e.Now() == if e in fired then WhenFired(old(e.Now())) else old(e.Now())
    ensures forall e :: e in old(b.known) ==> WaitsOn(b, TimeoutOp(now), e)
  {
    forall e | e in old(b.known)
      ensures WaitsOn(b, TimeoutOp(now), e)
    {
      assert e in fired <==> e in Elems(fired);
      assert e.timeout == e.Now().timeout == old(e.Now()).timeout;
    }
  }

  /** The states of the events after a tick. */
  twostate lemma SinceStates(b: Base, new fired: seq<Event>)
    requires b.known == old(b.known) && b.Since(old(b.Here()), fired)
    ensures forall e :: e in b.known ==> e.Now() == if e in fired then WhenFired(old(e.Now())) else old(e.Now())
  {
    hide WhenFired, Event.Now, FiredInto, Elems;
  }

  /** The events of the queues are known and none of them is a queue's timer; a queue is in order. */
  lemma InQueues(b: Base, i: nat, e: Event)
    requires Sound(b) && i < |b.commonQueues| && e in b.commonQueues[i]
    ensures e in b.known && e !in b.timers && b.commonQueues[i][0].timeout.usec <= e.timeout.usec
  {
    hide Base.ActiveOk, Base.LaterOk, Base.CountsOk, Base.MapOk;
    assert Sorted(b.commonQueues[i]);
  }

  /** common_timeout_callback for queue i. */
  twostate lemma QueueServed(b: Base, new i: nat, new now: int, new fired: seq<Event>)
    requires b.known == old(b.known) && b.timers == old(b.timers) && |b.timers| == |old(b.commonQueues)|
    requires NoDup(b.timers) && i < |b.timers| && old(b.currentEvent) == b.timers[i]
    requires forall e :: e in old(b.known) ==> old(Placed(b, e))
    requires |fired| <= |old(b.commonQueues[i])| && fired == old(b.commonQueues[i])[..|fired|]
    requires b.commonQueues == old(b.commonQueues)[i := old(b.commonQueues[i])[|fired|..]]
    requires forall e :: e in b.known && e != b.timers[i] ==>
      e.Now() == if e in fired then WhenFired(old(e.Now())) else old(e.Now())
    requires forall e :: e in fired ==> e.timeout.usec <= now
    requires forall e :: e in b.commonQueues[i] ==> e.timeout.usec > now
    ensures forall e :: e in old(b.known) && e !in b.timers ==> WaitsOn(b, ReturnOp(now), e)
  {
    var q := old(b.commonQueues[i]);
    assert q == q[..|fired|] + q[|fired|..];
  }

  /** The running callback returns; if it is a common queue's timer, what it did is common_timeout_callback. */
  method Return(b: Base, now: int)
    requires Sound(b)
    modifies b`activeQueues, b`laterQueue, b`heap, b`commonQueues, b`fdMap, b`flagged, b`eventCount, b`eventCountActive
    modifies b`currentEvent
    modifies b.known`inserted, b.known`onTimeout, b.known`active, b.known`activeLater, b.known`res, b.known`timeout
    ensures Sound(b) && b.currentEvent == null && b.fdMap <= old(b.fdMap)
    ensures forall e :: e in old(b.known) && e !in b.timers ==> WaitsOn(b, ReturnOp(now), e)
  {
    hide Base.Valid, Armed, NoDup;
    Apart(b);
    AllPlaced(b);
    Timers(b);
    if b.currentEvent == null {
      return;
    }
    var i := 0;
    while i < |b.timers| && b.timers[i] != b.currentEvent
      invariant 0 <= i <= |b.timers|
      invariant forall j :: 0 <= j < i ==> b.timers[j] != b.currentEvent
    {
      i := i + 1;
    }
    if i < |b.timers| {
      ghost var fired := CommonTimeoutCallback(b, i, now);
      QueueServed(b, i, now, fired);
    } else {
      b.SetCurrent(null);
      AllStayArmed(b);
    }
  }

  /** One call; what the program may not do at that point is left out. */
  method Perform(b: Base, pool: seq<Event>, op: Op) returns (pool': seq<Event>)
    requires Sound(b) && Held(b, pool)
    modifies b, b.known
    ensures Sound(b) && Held(b, pool') && pool <= pool'
    ensures b.known >= old(b.known) && fresh(b.known - old(b.known))
    ensures !op.AddOp? ==> b.fdMap <= old(b.fdMap)
    ensures !op.NewEvent? ==> pool' == pool
    ensures op.NewEvent? ==> |pool'| == |pool| + 1 && pool'[|pool|].watch == op.watch
    ensures forall e :: e in old(b.known) && e !in old(b.timers) && !old(Touches(b, pool, op, e)) ==> WaitsOn(b, op, e)
    ensures forall e :: e in old(b.known) && e !in old(b.timers) ==> e !in b.timers
    ensures op.TimeoutOp? && old(b.currentEvent) == null ==> QueuesCalled(b, op.now)
    // a callback runs from the call that takes it to the one that returns from it
    ensures b.currentEvent == (if op.ReturnOp? then null else old(b.currentEvent))
            || (op.TakeOp? && old(b.currentEvent) == null)
  {
    hide Sound, Base.Valid, QueuesCalled;
    pool' := pool;
    InSound(b);
    match op
    case NewEvent(init, watch, signal, persist) =>
      var ev := Assign(b, init, watch, signal, persist);
      pool' := pool + [ev];
    case NewCommon =>
      InitCommonTimeout(b);
    case TimeoutOp(_) =>
      PerformLoop(b, op);
    case PromoteOp =>
      PerformLoop(b, op);
    case TakeOp(_) =>
      PerformLoop(b, op);
    case ReturnOp(_) =>
      PerformLoop(b, op);
    case _ =>
      if op.k < |pool| {
        PerformOn(b, pool[op.k], op);
      }
  }

  /** The timer of every common queue that holds an expired event is active. */
  ghost predicate QueuesCalled(b: Base, now: int)
    reads b, b.known, b.timers
  {
    forall e :: e in b.known && e.onTimeout && e.timeout.common.Some? && e.timeout.usec <= now ==>
      var i := e.timeout.common.value;
      i < |b.timers| && b.timers[i].active
  }

  lemma AllCalled(b: Base, now: int)
    requires Sound(b)
    requires forall i ::
      0 <= i < |b.commonQueues| && b.commonQueues[i] != [] && b.commonQueues[i][0].timeout.usec <= now ==>
      i < |b.timers| && b.timers[i].active
    ensures QueuesCalled(b, now)
  {
    hide Sound;
    AllPlaced(b);
    forall e | e in b.known && e.onTimeout && e.timeout.common.Some? && e.timeout.usec <= now
      ensures var i := e.timeout.common.value; i < |b.timers| && b.timers[i].active
    {
      assert Placed(b, e);
      InQueues(b, e.timeout.common.value, e);
    }
  }

  /** What the event loop itself does. */
  method PerformLoop(b: Base, op: Op)
    requires Sound(b) && (op.TimeoutOp? || op.PromoteOp? || op.TakeOp? || op.ReturnOp?)
    modifies b`activeQueues, b`laterQueue, b`heap, b`commonQueues, b`fdMap, b`flagged, b`eventCount, b`eventCountActive
    modifies b`currentEvent
    modifies b.known`inserted, b.known`onTimeout, b.known`active, b.known`activeLater, b.known`res, b.known`timeout
    ensures Sound(b) && b.fdMap <= old(b.fdMap)
    ensures forall e :: e in old(b.known) && e !in b.timers && !old(Touches(b, [], op, e)) ==> WaitsOn(b, op, e)
    ensures op.TimeoutOp? && old(b.currentEvent) == null ==> QueuesCalled(b, op.now)
    ensures b.currentEvent == (if op.ReturnOp? then null else old(b.currentEvent))
            || (op.TakeOp? && old(b.currentEvent) == null)
  {
    hide Sound, Base.Valid, NoDup;
    InSound(b);
    AllPlaced(b);
    match op
    case TimeoutOp(now) =>
      if b.currentEvent == null {
        ghost var fired := TimeoutTick(b, now);
        SinceStates(b, fired);
        Ticked(b, now, fired);
        AllCalled(b, now);
      }
    case PromoteOp =>
      if b.currentEvent == null {
        MakeLaterActive(b);
      }
    case TakeOp(p) =>
      if b.currentEvent == null && p < |b.activeQueues| && b.activeQueues[p] != [] {
        var _ := TakeNext(b, p);
      }
    case ReturnOp(now) =>
      Return(b, now);
    case _ =>
  }

  lemma InSound(b: Base)
    requires Sound(b)
    ensures b.Valid() && |b.timers| == |b.commonQueues|
    ensures forall t :: t in b.timers ==> t in b.known
    ensures forall p, e :: 0 <= p < |b.activeQueues| && e in b.activeQueues[p] ==> e in b.known
  {
  }

  /** A call on one event. */
  method PerformOn(b: Base, ev: Event, op: Op)
    requires Sound(b) && ev in b.known && ev !in b.timers
    modifies b`activeQueues, b`laterQueue, b`heap, b`commonQueues, b`fdMap, b`flagged, b`eventCount, b`eventCountActive
    modifies b.known
    ensures Sound(b) && (!op.AddOp? ==> b.fdMap <= old(b.fdMap))
    ensures forall e :: e in old(b.known) && e != ev && e !in b.timers ==>
      e.timeout == old(e.timeout) && e.onTimeout == old(e.onTimeout)
  {
    hide Sound, Base.Valid;
    InSound(b);
    match op
    case AddOp(_, tv, now, mapOk) =>
      if ev.init && Usable(b, tv) {
        var _ := Add(b, ev, tv, now, mapOk);
      }
    case DelOp(_, evenIfFinalizing) =>
      Del(b, ev, evenIfFinalizing);
    case ActiveOp(_, what) =>
      Activate(b, ev, what);
    case LaterOp(_, what) =>
      ActivateLater(b, ev, what);
    case CancelOp(_, evenIfFinalizing) =>
      Cancel(b, ev, evenIfFinalizing);
    case FinalizeOp(_) =>
      if ev.init {
        FinalizeEvent(b, ev);
      }
    case FinalizeCbOp(_) =>
      FinalizeCallback(b, ev);
    case RemoveTimerOp(_) =>
      RemoveTimer(b, ev);
    case PriorityOp(_, pri) =>
      var _ := PrioritySet(b, ev, pri);
    case _ =>
  }

  /** Every state that any run of calls reaches satisfies the whole invariant. */
  method Run(priorities: nat, ops: seq<Op>) returns (b: Base)
    requires priorities > 0
    ensures fresh(b) && Sound(b) && b.priorities == priorities
  {
    hide Base.Valid;
    b := new Base(priorities);
    Apart(b);
    var pool: seq<Event> := [];
    var i := 0;
    while i < |ops|
      invariant 0 <= i <= |ops|
      invariant Sound(b) && Held(b, pool) && fresh(b.known)
    {
      pool := Perform(b, pool, ops[i]);
      i := i + 1;
    }
  }

  /** A flag holds just when its structure holds the callback, which it does exactly once. */
  lemma OncePerFlag(b: Base, e: Event)
    requires Sound(b) && e in b.known
    ensures var at := (x: Event) => x == e;
            && CountIn(b.activeQueues, at) == (if e.active then 1 else 0)
            && Count(b.laterQueue, at) == (if e.activeLater then 1 else 0)
            && CountIn(b.commonQueues, at) + (if e in b.heap then 1 else 0) == (if e.onTimeout then 1 else 0)
            && (e in b.fdMap <==> e.inserted && e.watch.fd >= 0)
            && !(e.active && e.activeLater)
            && (e.finalizing ==> !e.inserted && !e.onTimeout)
  {
    var at := (x: Event) => x == e;
    CountInOnce(b.activeQueues, e, e.pri, at);
    CountOnce(b.laterQueue, e, at);
    if e.timeout.common.Some? {
      CountInOnce(b.commonQueues, e, e.timeout.common.value, at);
    } else {
      CountInOnce(b.commonQueues, e, |b.commonQueues|, at);
    }
  }

  /** event_count_active is the total length of the active queues and the later queue. */
  lemma ActiveIsLengths(b: Base)
    requires Sound(b)
    ensures b.eventCountActive == Lengths(b.activeQueues) + |b.laterQueue|
  {
    hide CountIn, Count;
    CountInAll(b.activeQueues, Every());
  }

  /** How many times a structure holds a callback that is not internal. */
  ghost function Memberships(b: Base): int
    reads b
  {
    Holding(b.fdMap, Visible()) + Holding(b.heap, Visible()) + CountIn(b.commonQueues, Visible())
    + CountIn(b.activeQueues, Visible()) + Count(b.laterQueue, Visible())
  }

  /** event_count counts flags; it is the number of memberships exactly when every event that is INSERTED, and not
      internal, has a descriptor. */
  lemma CountIsMemberships(b: Base)
    requires Sound(b)
    ensures b.eventCount == Memberships(b) <==> forall e :: e in b.known && e.inserted && !e.internal ==>
      e.watch.fd >= 0
  {
    hide Base.ActiveOk, Base.LaterOk, Base.Exclusive, Base.TimesOk, Base.TimersOk, CountIn, Count, Holding;
    HoldingSplit(b.flagged, b.fdMap, Visible());
    HoldingNone(b.flagged - b.fdMap, Visible());
    assert forall e :: e in b.flagged - b.fdMap <==> e in b.known && e.inserted && e.watch.fd < 0;
  }

  /** The descriptor matters: with -1 an event is INSERTED, and counted, though no map lists it. */
  method InsertedButNotListed() returns (b: Base, ev: Event)
    ensures Sound(b) && ev in b.known && ev.inserted && ev !in b.fdMap && b.eventCount != Memberships(b)
  {
    hide Sound, Memberships;
    b := new Base(1);
    NewSound(b);
    ev := Assign(b, true, Evmap.Event(0, -1, Evmap.Mask(true, false, false)), false, false);
    InSound(b);
    var _ := Add(b, ev, None, 0, true);
    OncePerFlag(b, ev);
    CountIsMemberships(b);
  }

  lemma NewSound(b: Base)
    requires b.Valid() && b.known == {} && b.timers == [] && b.currentEvent == null
    ensures Sound(b)
  {
  }
}
