/** Activation, deferral, cancellation and finalization of callbacks (event.c). */
module EventCallbacks {
  import opened EventQueues
  import opened EventBases
  import opened EventTimers

  /** event_active. */
  method Activate(b: Base, ev: Event, what: set<What>)
    requires Sound(b) && ev in b.known && ev !in b.timers
    modifies b`activeQueues, b`laterQueue, b`eventCount, b`eventCountActive, ev`active, ev`activeLater, ev`res
    ensures Sound(b)
    ensures ev.finalizing ==> ev.Now() == old(ev.Now()) && b.activeQueues == old(b.activeQueues)
    ensures !ev.finalizing ==>
      ev.Now() == old(ev.Now()).(active := true, activeLater := false,
                                 res := if old(ev.active || ev.activeLater) then old(ev.res) + what else what)
      && ev.pri < |old(b.activeQueues)|
      && b.activeQueues == if old(ev.active) then old(b.activeQueues) else Appended(old(b.activeQueues), ev.pri, ev)
  {
    hide Base.Valid, Armed, Appended;
    Apart(b);
    b.ActiveNolock(ev, what);
    Apart(b);
    AllStayArmed(b);
  }

  /** event_active_later_: what is already active, or will be, only collects the reasons. */
  method ActivateLater(b: Base, ev: Event, what: set<What>)
    requires Sound(b) && ev in b.known && ev !in b.timers
    modifies b`laterQueue, b`eventCount, b`eventCountActive, ev`activeLater, ev`res
    ensures Sound(b)
    ensures ev.Now() == if old(ev.active || ev.activeLater) then old(ev.Now()).(res := old(ev.res) + what)
                        else old(ev.Now()).(activeLater := true, res := what)
    ensures b.laterQueue == if old(ev.active || ev.activeLater) then old(b.laterQueue) else old(b.laterQueue) + [ev]
  {
    hide Base.Valid, Armed;
    Apart(b);
    if ev.active || ev.activeLater {
      ev.res := ev.res + what;
    } else {
      ev.res := what;
      var _ := CallbackActivateLater(b, ev);
    }
    Apart(b);
    AllStayArmed(b);
  }

  /** event_callback_activate_later_nolock_. */
  method CallbackActivateLater(b: Base, ev: Event) returns (first: bool)
    requires b.Valid() && ev in b.known
    modifies b`laterQueue, b`eventCount, b`eventCountActive, ev`activeLater
    ensures b.Valid() && (first <==> !old(ev.active || ev.activeLater))
    ensures ev.Now() == if first then old(ev.Now()).(activeLater := true) else old(ev.Now())
    ensures b.laterQueue == if first then old(b.laterQueue) + [ev] else old(b.laterQueue)
  {
    hide Base.Valid;
    if ev.active || ev.activeLater {
      return false;
    }
    b.InsertLater(ev);
    first := true;
  }

  /** event_callback_cancel_nolock_. */
  method Cancel(b: Base, ev: Event, evenIfFinalizing: bool)
    requires Sound(b) && ev in b.known && ev !in b.timers
    modifies b`activeQueues, b`laterQueue, b`heap, b`commonQueues, b`fdMap, b`flagged, b`eventCount, b`eventCountActive
    modifies ev`inserted, ev`onTimeout, ev`active, ev`activeLater
    ensures Sound(b)
    ensures ev.finalizing && !evenIfFinalizing ==> ev.Now() == old(ev.Now())
    ensures !ev.finalizing || evenIfFinalizing ==> ev.Idle()
    ensures b.fdMap <= old(b.fdMap)
  {
    hide Base.Valid, Armed, Removed, Minus;
    Apart(b);
    if ev.finalizing && !evenIfFinalizing {
      return;
    }
    if ev.init {
      Del(b, ev, evenIfFinalizing);
      return;
    }
    Bare(b, ev);
    if ev.active {
      b.RemoveActive(ev);
    } else if ev.activeLater {
      b.RemoveLater(ev);
    }
    Apart(b);
    AllStayArmed(b);
  }

  /** A bare callback waits on no descriptor and no timeout, and is not active twice. */
  lemma Bare(b: Base, ev: Event)
    requires b.Valid() && ev in b.known
    ensures !(ev.active && ev.activeLater) && (!ev.init ==> !ev.inserted && !ev.onTimeout)
  {
  }

  /** event_finalize: the finalizer is queued, and after that the event accepts neither add nor del. */
  method FinalizeEvent(b: Base, ev: Event)
    requires Sound(b) && ev in b.known && ev !in b.timers && ev.init
    modifies b`activeQueues, b`laterQueue, b`heap, b`commonQueues, b`fdMap, b`flagged, b`eventCount, b`eventCountActive
    modifies ev`inserted, ev`onTimeout, ev`active, ev`activeLater, ev`res, ev`finalizing
    ensures Sound(b) && ev.finalizing
    ensures old(ev.finalizing) ==> ev.Now() == old(ev.Now())
    ensures !old(ev.finalizing) ==>
      ev.Now() == old(ev.Now()).(inserted := false, onTimeout := false, active := true, activeLater := false,
                                 finalizing := true, res := {Finalize})
    ensures b.fdMap == old(b.fdMap) - if old(ev.finalizing) then {} else {ev}
  {
    hide Base.Valid, Sound, Appended;
    Finalized(b, ev);
    Del(b, ev, false);
    Activate(b, ev, {Finalize});
    MarkFinalizing(b, ev);
  }

  /** event_callback_finalize_. */
  method FinalizeCallback(b: Base, ev: Event)
    requires Sound(b) && ev in b.known && ev !in b.timers
    modifies b`activeQueues, b`laterQueue, b`heap, b`commonQueues, b`fdMap, b`flagged, b`eventCount, b`eventCountActive
    modifies ev`inserted, ev`onTimeout, ev`active, ev`activeLater, ev`finalizing
    ensures Sound(b) && ev.finalizing
    ensures old(ev.finalizing) ==> ev.Now() == old(ev.Now())
    ensures !old(ev.finalizing) ==>
      ev.Now() == old(ev.Now()).(inserted := false, onTimeout := false, active := true, activeLater := false,
                                   finalizing := true)
    ensures b.fdMap <= old(b.fdMap)
  {
    hide Base.Valid, Sound, Appended;
    Finalized(b, ev);
    if ev.init {
      Del(b, ev, false);
    } else {
      Cancel(b, ev, false);
    }
    CallbackActivateSound(b, ev);
    MarkFinalizing(b, ev);
  }

  /** A finalizing event waits for nothing. */
  lemma Finalized(b: Base, ev: Event)
    requires Sound(b) && ev in b.known
    ensures ev.finalizing ==> !ev.inserted && !ev.onTimeout
  {
  }

  /** event_callback_activate_. */
  method CallbackActivateSound(b: Base, ev: Event)
    requires Sound(b) && ev in b.known && ev !in b.timers
    modifies b`activeQueues, b`laterQueue, b`eventCount, b`eventCountActive, ev`active, ev`activeLater
    ensures Sound(b)
    ensures ev.Now() == if ev.finalizing then old(ev.Now()) else old(ev.Now()).(active := true, activeLater := false)
  {
    hide Base.Valid, Armed, Appended, Minus;
    Apart(b);
    var _ := b.CallbackActivate(ev);
    Apart(b);
    AllStayArmed(b);
  }

  /** ev_flags |= EVLIST_FINALIZING, once the event waits for nothing. */
  method MarkFinalizing(b: Base, ev: Event)
    requires Sound(b) && ev in b.known && ev !in b.timers && !ev.inserted && !ev.onTimeout
    modifies ev`finalizing
    ensures Sound(b) && ev.finalizing
  {
    hide Base.ActiveOk, Base.LaterOk, Base.Exclusive, Base.TimesOk, Base.CountsOk, Armed;
    Apart(b);
    ev.finalizing := true;
    AllStayArmed(b);
  }

  /** event_queue_make_later_events_active, run by the loop when no callback is running. */
  method MakeLaterActive(b: Base)
    requires Sound(b) && b.currentEvent == null
    modifies b`activeQueues, b`laterQueue, b.known`active, b.known`activeLater
    ensures Sound(b) && b.laterQueue == []
    // every queue gains the deferred callbacks of its priority, in the order they were deferred
    ensures Gained(old(b.activeQueues), b.activeQueues, old(b.laterQueue))
    ensures forall e :: e in b.known ==>
      e.Now() == if e in old(b.laterQueue) then old(e.Now()).(activeLater := false, active := true) else old(e.Now())
  {
    hide Base.Valid, Armed, Gained, Appended;
    Apart(b);
    ghost var done: seq<Event> := [];
    ghost var later := b.laterQueue;
    ghost var first := b.activeQueues;
    NoneGained(first);
    assert [] + later == later;
    while b.laterQueue != []
      invariant b.Valid() && done + b.laterQueue == later
      invariant Gained(first, b.activeQueues, done)
      invariant forall e :: e in b.known ==>
        e.Now() == if e in done then old(e.Now()).(activeLater := false, active := true) else old(e.Now())
      decreases |b.laterQueue|
    {
      ghost var queues := b.activeQueues;
      assert b.laterQueue == [b.laterQueue[0]] + b.laterQueue[1..];
      var ev := b.Promote();
      OneMoreGained(first, queues, done, ev);
      OneLess(done, ev, b.laterQueue);
      done := done + [ev];
    }
    assert done + [] == done;
    Apart(b);
    AllStayArmed(b);
  }

  lemma OneLess(done: seq<Event>, ev: Event, rest: seq<Event>)
    ensures done + ([ev] + rest) == (done + [ev]) + rest
  {
  }

  /** Every queue gained the members of q that have its priority, in order. */
  ghost predicate Gained(before: seq<seq<Event>>, after: seq<seq<Event>>, q: seq<Event>)
    reads q`pri
  {
    |after| == |before| && forall p :: 0 <= p < |before| ==> after[p] == before[p] + OfPri(q, p)
  }

  lemma NoneGained(qs: seq<seq<Event>>)
    ensures Gained(qs, qs, [])
  {
  }

  lemma OneMoreGained(before: seq<seq<Event>>, qs: seq<seq<Event>>, q: seq<Event>, ev: Event)
    requires Gained(before, qs, q) && ev.pri < |qs|
    ensures Gained(before, Appended(qs, ev.pri, ev), q + [ev])
  {
    var after := Appended(qs, ev.pri, ev);
    forall p | 0 <= p < |before|
      ensures after[p] == before[p] + OfPri(q + [ev], p)
    {
      OfPriPlus(q, ev, p);
    }
  }
}
