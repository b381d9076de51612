/** event_add_nolock_ and the common timeout queues (event.c). */
module EventAdds {
  import opened EventQueues
  import opened Common
  import opened EventBases

  /** ev joined queue i of `rest` at place k, behind everything due no later; or it joined none. */
  ghost predicate Joined(rest: seq<seq<Event>>, qs: seq<seq<Event>>, common: Option<nat>, k: nat, ev: Event)
    reads if common.Some? && common.value < |rest| then Elems(rest[common.value]) else {}, ev`timeout
  {
    match common
    case None => qs == rest
    case Some(i) => i < |rest| && InOrder(rest[i], k, ev) && qs == rest[i := Put(rest[i], k, ev)]
  }

  /** Off the timeout queue, and off the active queue if it was there for a timeout. */
  method Unwait(b: Base, ev: Event)
    requires b.Valid() && ev in b.known
    modifies b`heap, b`commonQueues, b`activeQueues, b`eventCount, b`eventCountActive, ev`onTimeout, ev`active
    ensures b.Valid()
    ensures ev.Now() == old(ev.Now()).(onTimeout := false, active := old(ev.active && Timeout !in ev.res))
    ensures b.heap == old(b.heap) - {ev} && b.commonQueues == TakenOut(old(b.commonQueues), ev.timeout.common, ev)
    ensures ev.pri < |old(b.activeQueues)|
    ensures b.activeQueues ==
      if old(ev.active && Timeout in ev.res) then
        Removed(old(b.activeQueues), ev.pri, ev)
      else
        old(b.activeQueues)
  {
    hide Base.Valid, Removed, TakenOut;
    b.NotThere(ev);
    if ev.onTimeout {
      b.RemoveTimeout(ev);
    }
    if ev.active && Timeout in ev.res {
      b.RemoveActive(ev);
    }
  }

  /** The part of event_add_nolock_ that sets the timeout. */
  method AddTimeout(b: Base, ev: Event, tv: Timeval, absolute: bool, now: int) returns (ghost k: nat)
    requires b.Valid() && ev in b.known && ev.init && !ev.finalizing
    requires tv.common.Some? ==> tv.common.value < |b.commonQueues|
    requires ev in b.timers ==> tv.common.None?
    modifies b`heap, b`commonQueues, b`activeQueues, b`eventCount, b`eventCountActive, ev`onTimeout, ev`active
    modifies ev`timeout
    ensures b.Valid()
    ensures ev.Now() == old(ev.Now()).(onTimeout := true, active := old(ev.active && Timeout !in ev.res),
                                       timeout := Deadline(tv, absolute, now))
    ensures ev.timeout == Timeval(if absolute then tv.usec else now + tv.usec, tv.common)
    ensures b.heap == (old(b.heap) - {ev}) + if tv.common.None? then {ev} else {}
    ensures |b.commonQueues| == |old(b.commonQueues)|
    ensures Joined(TakenOut(old(b.commonQueues), old(ev.timeout.common), ev), b.commonQueues, tv.common, k, ev)
    ensures ev.pri < |old(b.activeQueues)|
    ensures b.activeQueues ==
      if old(ev.active && Timeout in ev.res) then
        Removed(old(b.activeQueues), ev.pri, ev)
      else
        old(b.activeQueues)
  {
    hide Base.Valid, Removed, TakenOut, InOrder, Put, Minus;
    b.NotThere(ev);
    Unwait(b, ev);
    b.SetTimeout(ev, Deadline(tv, absolute, now));
    k := b.InsertTimeout(ev);
  }

  /** The timeout that event_add was given is one that this base knows. */
  predicate Usable(b: Base, tv: Option<Timeval>)
    reads b`commonQueues
  {
    tv.Some? && tv.value.common.Some? ==> tv.value.common.value < |b.commonQueues|
  }

  /** The timer of the common queue that tv names. */
  ghost function Owner(b: Base, tv: Option<Timeval>): set<Event>
    reads b`timers
  {
    if tv.Some? && tv.value.common.Some? && tv.value.common.value < |b.timers| then
      {b.timers[tv.value.common.value]}
    else
      {}
  }

  /** event_add_nolock_ has to list the event in the fd or signal map. */
  predicate NeedsMap(s: State, mapped: bool) {
    mapped && !s.inserted && !s.active && !s.activeLater
  }

  function Deadline(tv: Timeval, absolute: bool, now: int): Timeval {
    Timeval(if absolute then tv.usec else now + tv.usec, tv.common)
  }

  /** The state of an event after a successful event_add_nolock_. */
  function WhenAdded(s: State, mapped: bool, tv: Option<Timeval>, absolute: bool, now: int): State {
    var s' := s.(inserted := s.inserted || NeedsMap(s, mapped));
    if tv.None? then s'
    else s'.(onTimeout := true, active := s.active && Timeout !in s.res, timeout := Deadline(tv.value, absolute, now))
  }

  /** What that means: it is listed unless its callback is about to run anyway, and it waits until the delay after
      now. */
  lemma AddedState(s: State, mapped: bool, tv: Option<Timeval>, absolute: bool, now: int)
    ensures var s' := WhenAdded(s, mapped, tv, absolute, now);
      && (s'.inserted <==> s.inserted || (mapped && !s.active && !s.activeLater))
      && (tv.Some? ==>
            s'.onTimeout
            && s'.timeout == Timeval(if absolute then tv.value.usec else now + tv.value.usec, tv.value.common))
      && (tv.None? ==> s'.onTimeout == s.onTimeout && s'.timeout == s.timeout)
  {
  }

  lemma Timers(b: Base)
    requires b.Valid()
    ensures |b.timers| == |b.commonQueues|
    ensures forall t :: t in b.timers ==> t in b.known && t.init && !t.mapped && !t.finalizing
  {
  }

  lemma NoCommon(b: Base, t: Event)
    requires b.Valid() && t in b.timers
    ensures TakenOut(b.commonQueues, t.timeout.common, t) == b.commonQueues
  {
  }

  /** An event is at the head of the queue that took it in just when it went in front. */
  lemma AtHead(b: Base, rest: seq<seq<Event>>, i: nat, k: nat, ev: Event)
    requires b.Valid() && i < |b.commonQueues| == |rest| && Joined(rest, b.commonQueues, Some(i), k, ev)
    ensures b.commonQueues[i] != [] && (b.commonQueues[i][0] == ev <==> k == 0)
    ensures forall t :: t in b.timers ==> t !in rest[i]
  {
    PutHas(rest[i], k, ev);
    var q := b.commonQueues[i];
    assert q == Put(rest[i], k, ev) && q[k] == ev;
    assert NoDup(q);
  }

  twostate lemma StillInOrder(q: seq<Event>, new k: nat, new ev: Event)
    requires old(allocated(ev)) && old(InOrder(q, k, ev)) && ev.timeout == old(ev.timeout)
    requires forall e :: e in q ==> e.timeout == old(e.timeout)
    ensures InOrder(q, k, ev)
  {
  }

  /** event_add_nolock_; mapOk is whether the map and its backend accept the event, if it has a descriptor. */
  method AddNolock(b: Base, ev: Event, tv: Option<Timeval>, absolute: bool, now: int, mapOk: bool)
      returns (ok: bool, ghost k: nat)
    requires b.Valid() && ev in b.known && ev.init && Usable(b, tv)
    requires ev in b.timers ==> tv.Some? ==> tv.value.common.None?
    modifies b`heap, b`commonQueues, b`activeQueues, b`fdMap, b`flagged, b`eventCount, b`eventCountActive
    modifies ev`onTimeout, ev`active, ev`timeout, ev`inserted
    modifies Owner(b, tv)`onTimeout, Owner(b, tv)`active, Owner(b, tv)`timeout, Owner(b, tv)`inserted
    ensures b.Valid()
    ensures ok <==> !ev.finalizing && (NeedsMap(old(ev.Now()), ev.mapped) && ev.watch.fd >= 0 ==> mapOk)
    // on failure nothing has changed
    ensures !ok ==> ev.Now() == old(ev.Now()) && b.heap == old(b.heap) && b.commonQueues == old(b.commonQueues)
                    && b.activeQueues == old(b.activeQueues) && b.fdMap == old(b.fdMap)
                    && forall t :: t in old(Owner(b, tv)) ==> t.Now() == old(t.Now())
    ensures ok ==> ev.Now() == WhenAdded(old(ev.Now()), ev.mapped, tv, absolute, now)
    ensures ok ==> b.fdMap == old(b.fdMap) + if NeedsMap(old(ev.Now()), ev.mapped) && ev.watch.fd >= 0 then {ev} else {}
    // the common queues, and the timer of the one that took ev in
    ensures tv.None? ==> b.commonQueues == old(b.commonQueues)
    ensures ok && tv.Some? ==> |b.commonQueues| == |old(b.commonQueues)|
                               && Joined(TakenOut(old(b.commonQueues), old(ev.timeout.common), ev), b.commonQueues,
                                           tv.value.common, k, ev)
    ensures ok && Owner(b, tv) == {} ==>
      ev.pri < |old(b.activeQueues)|
      && b.activeQueues ==
         if tv.Some? && old(ev.active && Timeout in ev.res) then Removed(old(b.activeQueues), ev.pri, ev)
         else old(b.activeQueues)
    ensures forall t :: ok && t in old(Owner(b, tv)) ==>
      t.Now() ==
        if k == 0 then WhenAdded(old(t.Now()), false, Some(Timeval(ev.timeout.usec, None)), true, now) else old(t.Now())
    decreases if tv.Some? && tv.value.common.Some? then 2 else 0, 1
  {
    hide Base.Valid, Put, InOrder, Minus, TakenOut, Removed, Joined, Deadline;
    Timers(b);
    b.NotThere(ev);
    k := 0;
    if ev.finalizing {
      return false, 0;
    }
    ok := true;
    if NeedsMap(ev.Now(), ev.mapped) {
      if ev.watch.fd >= 0 && !mapOk {
        return false, 0;
      }
      b.InsertInserted(ev);
    }
    if tv.Some? {
      k := AddTimeoutAndTimer(b, ev, tv.value, absolute, now);
    }
  }

  /** The rest of event_add_nolock_ when there is a timeout: a new head of a common queue sets the queue's timer. */
  method AddTimeoutAndTimer(b: Base, ev: Event, tv: Timeval, absolute: bool, now: int) returns (ghost k: nat)
    requires b.Valid() && ev in b.known && ev.init && !ev.finalizing && Usable(b, Some(tv))
    requires ev in b.timers ==> tv.common.None?
    modifies b`heap, b`commonQueues, b`activeQueues, b`fdMap, b`flagged, b`eventCount, b`eventCountActive
    modifies ev`onTimeout, ev`active, ev`timeout
    modifies Owner(b, Some(tv))`onTimeout, Owner(b, Some(tv))`active, Owner(b, Some(tv))`timeout
    modifies Owner(b, Some(tv))`inserted
    ensures b.Valid()
    ensures ev.Now() == old(ev.Now()).(onTimeout := true, active := old(ev.active && Timeout !in ev.res),
                                       timeout := Deadline(tv, absolute, now))
    ensures b.fdMap == old(b.fdMap) && |b.commonQueues| == |old(b.commonQueues)|
    ensures Joined(TakenOut(old(b.commonQueues), old(ev.timeout.common), ev), b.commonQueues, tv.common, k, ev)
    ensures Owner(b, Some(tv)) == {} ==>
      ev.pri < |old(b.activeQueues)|
      && b.activeQueues ==
         if old(ev.active && Timeout in ev.res) then Removed(old(b.activeQueues), ev.pri, ev)
         else old(b.activeQueues)
    ensures forall t :: t in old(Owner(b, Some(tv))) ==>
      t.Now() ==
        if k == 0 then WhenAdded(old(t.Now()), false, Some(Timeval(ev.timeout.usec, None)), true, now) else old(t.Now())
    decreases if tv.common.Some? then 2 else 0, 0
  {
    hide Base.Valid, Put, InOrder, Minus, TakenOut, Removed;
    Timers(b);
    k := AddTimeout(b, ev, tv, absolute, now);
    if tv.common.Some? {
      var i := tv.common.value;
      AtHead(b, TakenOut(old(b.commonQueues), old(ev.timeout.common), ev), i, k, ev);
      if b.commonQueues[i][0] == ev {
        ghost var q := TakenOut(old(b.commonQueues), old(ev.timeout.common), ev)[i];
        assert b.timers[i] in b.timers && b.timers[i] !in q && b.timers[i] != ev && InOrder(q, k, ev);
        label Joining:
        CommonTimeoutSchedule(b, b.timers[i], ev, now);
        StillInOrder@Joining(q, k, ev);
      }
    }
  }

  /** common_timeout_schedule: t is the queue's timer. */
  method CommonTimeoutSchedule(b: Base, t: Event, head: Event, now: int)
    requires b.Valid() && t in b.timers
    modifies b`heap, b`commonQueues, b`activeQueues, b`fdMap, b`flagged, b`eventCount, b`eventCountActive
    modifies t`onTimeout, t`active, t`timeout, t`inserted
    ensures b.Valid()
    ensures t.Now() == WhenAdded(old(t.Now()), false, Some(Timeval(head.timeout.usec, None)), true, now)
    ensures b.commonQueues == old(b.commonQueues) && b.fdMap == old(b.fdMap)
    ensures old(t.active && Timeout in t.res) || b.activeQueues == old(b.activeQueues)
    decreases 1, 0
  {
    hide Base.Valid, Put, InOrder, Minus, TakenOut;
    Timers(b);
    NoCommon(b, t);
    var ok, _ := AddNolock(b, t, Some(Timeval(head.timeout.usec, None)), true, now, true);
  }
}
