/** Common timeouts: no queued event is ever left without a timer (event.c). */
module EventTimers {
  import opened EventQueues
  import opened Common
  import opened EventBases
  import opened EventAdds

  /** The timer of common queue i will go off in time for its head, or its callback is about to look. */
  ghost predicate Armed(b: Base, i: nat)
    requires i < |b.commonQueues| && i < |b.timers|
    reads b, b.timers[i], b.commonQueues[i]
  {
    var t, q := b.timers[i], b.commonQueues[i];
    q != [] ==> t == b.currentEvent || ((t.onTimeout || t.active) && t.timeout.usec <= q[0].timeout.usec)
  }

  ghost predicate AllArmed(b: Base)
    requires b.Valid()
    reads b, b.known
  {
    && (forall i :: 0 <= i < |b.timers| ==> Armed(b, i))
    && (b.currentEvent != null && b.currentEvent in b.timers ==> !b.currentEvent.active)
  }

  /** What the base keeps over every call. */
  ghost predicate Sound(b: Base)
    reads b, b.known
  {
    b.Valid() && AllArmed(b)
  }

  /** A queue whose head was there before, with a timer that is still set or running, is as armed as it was. */
  twostate lemma StaysArmed(b: Base, new i: nat)
    requires i < |b.timers| == |old(b.timers)| && i < |b.commonQueues| == |old(b.commonQueues)|
    requires old(b.Valid()) && old(Armed(b, i)) && b.timers[i] == old(b.timers)[i]
    requires var t := b.timers[i];
             t == b.currentEvent || (t != old(b.currentEvent) && t.timeout == old(t.timeout)
                                     && (old(t.onTimeout || t.active) ==> t.onTimeout || t.active))
    requires b.commonQueues[i] != [] ==>
      var h := b.commonQueues[i][0]; h in old(b.commonQueues)[i] && h.timeout == old(h.timeout)
    ensures Armed(b, i)
  {
    if b.commonQueues[i] != [] {
      var h := b.commonQueues[i][0];
      var q := old(b.commonQueues)[i];
      assert old(Sorted(q));
      var j :| 0 <= j < |q| && q[j] == h;
      assert old(q[0].timeout.usec <= q[j].timeout.usec);
    }
  }

  /** Whoever heads a queue, other than ev, stood in it before. */
  ghost predicate OldHeads(before: seq<seq<Event>>, after: seq<seq<Event>>, ev: Event) {
    |after| == |before|
    && forall i :: 0 <= i < |after| && after[i] != [] && after[i][0] != ev ==> after[i][0] in before[i]
  }

  lemma JoinHeads(before: seq<seq<Event>>, gone: Option<nat>, after: seq<seq<Event>>, common: Option<nat>, k: nat,
                  ev: Event)
    requires common.Some? ==> common.value < |before|
    requires Joined(TakenOut(before, gone, ev), after, common, k, ev)
    ensures OldHeads(before, after, ev)
  {
    forall i | 0 <= i < |after| && after[i] != [] && after[i][0] != ev
      ensures after[i][0] in before[i]
    {
      MinusHas(before[i], {ev});
      if common == Some(i) {
        PutHas(TakenOut(before, gone, ev)[i], k, ev);
      }
    }
  }

  lemma Apart(b: Base)
    requires b.Valid()
    ensures |b.timers| == |b.commonQueues| && NoDup(b.timers)
    ensures forall i :: 0 <= i < |b.commonQueues| && b.commonQueues[i] != [] ==>
      b.commonQueues[i][0] in b.known && b.commonQueues[i][0] !in b.timers
  {
  }

  /** The same for every queue. */
  twostate lemma AllStayArmed(b: Base)
    requires old(Sound(b)) && b.Valid() && b.timers == old(b.timers)
    requires forall t :: t in b.timers ==>
      t == b.currentEvent || (t != old(b.currentEvent) && t.timeout == old(t.timeout)
                              && (old(t.onTimeout || t.active) ==> t.onTimeout || t.active))
    requires b.currentEvent != null && b.currentEvent in b.timers ==> !b.currentEvent.active
    requires forall i :: 0 <= i < |b.commonQueues| && b.commonQueues[i] != [] ==>
      var h := b.commonQueues[i][0]; h in old(b.commonQueues)[i] && h.timeout == old(h.timeout)
    ensures AllArmed(b)
  {
    hide Armed, Base.TimesOk;
    forall i | 0 <= i < |b.timers|
      ensures Armed(b, i)
    {
      StaysArmed(b, i);
    }
  }

  /** ev joined queue n; its timer was armed anew if ev is at the head, and left alone if not. */
  twostate lemma JoinArmed(b: Base, new ev: Event, new n: nat)
    requires old(Sound(b)) && b.Valid() && b.timers == old(b.timers) && b.currentEvent == old(b.currentEvent)
    requires n < |b.timers| && b.commonQueues[n] != []
    requires forall i :: 0 <= i < |b.timers| && i != n ==> b.timers[i].Now() == old(b.timers[i].Now())
    requires if b.commonQueues[n][0] == ev
             then var t := b.timers[n]; t.onTimeout && t.timeout.usec == ev.timeout.usec && (t.active ==> old(t.active))
             else b.timers[n].Now() == old(b.timers[n].Now())
    requires forall i :: 0 <= i < |b.commonQueues| && b.commonQueues[i] != [] && b.commonQueues[i][0] != ev ==>
      var h := b.commonQueues[i][0]; h in old(b.commonQueues)[i] && h.timeout == old(h.timeout)
    requires ev.timeout.common == Some(n)
    ensures AllArmed(b)
  {
    hide Base.TimesOk, Base.ActiveOk, Base.LaterOk, Base.Exclusive, Base.MapOk, Base.CountsOk;
    forall i | 0 <= i < |b.timers|
      ensures Armed(b, i)
    {
      if i != n || b.commonQueues[n][0] != ev {
        if i != n {
          OnItsQueue(b, ev, i);
        }
        StaysArmed(b, i);
      }
    }
  }

  lemma OnItsQueue(b: Base, ev: Event, i: nat)
    requires b.Valid() && i < |b.commonQueues| && ev.timeout.common != Some(i)
    ensures ev !in b.commonQueues[i]
  {
  }

  lemma OnNoQueue(b: Base, ev: Event)
    requires b.Valid() && ev.timeout.common.None?
    ensures forall i :: 0 <= i < |b.commonQueues| ==> ev !in b.commonQueues[i]
  {
  }

  /** event_add. */
  method Add(b: Base, ev: Event, tv: Option<Timeval>, now: int, mapOk: bool) returns (ok: bool)
    requires Sound(b) && ev in b.known && ev.init && ev !in b.timers && Usable(b, tv)
    modifies b`heap, b`commonQueues, b`activeQueues, b`fdMap, b`flagged, b`eventCount, b`eventCountActive
    modifies ev`onTimeout, ev`active, ev`timeout, ev`inserted
    modifies Owner(b, tv)`onTimeout, Owner(b, tv)`active, Owner(b, tv)`timeout, Owner(b, tv)`inserted
    ensures Sound(b)
    ensures ok <==> !ev.finalizing && (NeedsMap(old(ev.Now()), ev.mapped) && ev.watch.fd >= 0 ==> mapOk)
    ensures ev.Now() == if ok then WhenAdded(old(ev.Now()), ev.mapped, tv, false, now) else old(ev.Now())
    ensures ok ==> (ev.inserted <==> old(ev.inserted) || (ev.mapped && !old(ev.active || ev.activeLater)))
    ensures ok && tv.Some? ==> ev.onTimeout && ev.timeout == Timeval(now + tv.value.usec, tv.value.common)
    ensures b.fdMap == old(b.fdMap) + if ok && NeedsMap(old(ev.Now()), ev.mapped) && ev.watch.fd >= 0 then {ev} else {}
  {
    hide Sound, WhenAdded, NeedsMap;
    AddedState(ev.Now(), ev.mapped, tv, false, now);
    if tv.Some? && tv.value.common.Some? {
      ok := AddToQueue(b, ev, tv, now, mapOk);
    } else {
      ok := AddElsewhere(b, ev, tv, now, mapOk);
    }
  }

  /** event_add with a common timeout. */
  method AddToQueue(b: Base, ev: Event, tv: Option<Timeval>, now: int, mapOk: bool) returns (ok: bool)
    requires Sound(b) && ev in b.known && ev.init && ev !in b.timers && Usable(b, tv) && tv.Some?
    requires tv.value.common.Some?
    modifies b`heap, b`commonQueues, b`activeQueues, b`fdMap, b`flagged, b`eventCount, b`eventCountActive
    modifies ev`onTimeout, ev`active, ev`timeout, ev`inserted
    modifies Owner(b, tv)`onTimeout, Owner(b, tv)`active, Owner(b, tv)`timeout, Owner(b, tv)`inserted
    ensures Sound(b)
    ensures ok <==> !ev.finalizing && (NeedsMap(old(ev.Now()), ev.mapped) && ev.watch.fd >= 0 ==> mapOk)
    ensures ev.Now() == if ok then WhenAdded(old(ev.Now()), ev.mapped, tv, false, now) else old(ev.Now())
    ensures b.fdMap == old(b.fdMap) + if ok && NeedsMap(old(ev.Now()), ev.mapped) && ev.watch.fd >= 0 then {ev} else {}
  {
    hide Base.Valid, Joined, TakenOut, Armed, Minus, Removed, NeedsMap;
    ghost var k;
    Apart(b);
    ok, k := AddNolock(b, ev, tv, false, now, mapOk);
    Apart(b);
    if ok {
      JoinHeads(old(b.commonQueues), old(ev.timeout.common), b.commonQueues, tv.value.common, k, ev);
      AtHead(b, TakenOut(old(b.commonQueues), old(ev.timeout.common), ev), tv.value.common.value, k, ev);
      assert forall i :: 0 <= i < |b.commonQueues| && b.commonQueues[i] != [] && b.commonQueues[i][0] != ev ==>
        b.commonQueues[i][0] in old(b.commonQueues)[i];
      assert forall e :: e in b.known && e != ev && e !in b.timers ==> e.timeout == old(e.timeout);
      JoinArmed(b, ev, tv.value.common.value);
    } else {
      assert forall t :: t in b.timers ==> t.Now() == old(t.Now());
      AllStayArmed(b);
    }
  }

  /** event_add without a timeout, or with one that the heap takes. */
  method AddElsewhere(b: Base, ev: Event, tv: Option<Timeval>, now: int, mapOk: bool) returns (ok: bool)
    requires Sound(b) && ev in b.known && ev.init && ev !in b.timers && Usable(b, tv)
    requires tv.Some? ==> tv.value.common.None?
    modifies b`heap, b`commonQueues, b`activeQueues, b`fdMap, b`flagged, b`eventCount, b`eventCountActive
    modifies ev`onTimeout, ev`active, ev`timeout, ev`inserted
    modifies Owner(b, tv)`onTimeout, Owner(b, tv)`active, Owner(b, tv)`timeout, Owner(b, tv)`inserted
    ensures Sound(b)
    ensures ok <==> !ev.finalizing && (NeedsMap(old(ev.Now()), ev.mapped) && ev.watch.fd >= 0 ==> mapOk)
    ensures ev.Now() == if ok then WhenAdded(old(ev.Now()), ev.mapped, tv, false, now) else old(ev.Now())
    ensures b.fdMap == old(b.fdMap) + if ok && NeedsMap(old(ev.Now()), ev.mapped) && ev.watch.fd >= 0 then {ev} else {}
  {
    hide Base.Valid, Joined, TakenOut, Armed, Minus, Removed;
    ghost var k;
    Apart(b);
    ok, k := AddNolock(b, ev, tv, false, now, mapOk);
    Apart(b);
    if ok && tv.Some? {
      JoinHeads(old(b.commonQueues), old(ev.timeout.common), b.commonQueues, None, k, ev);
      OnNoQueue(b, ev);
    }
    assert forall e :: e in b.known && e != ev ==> e.timeout == old(e.timeout);
    AllStayArmed(b);
  }

  /** event_del; evenIfFinalizing is EVENT_DEL_EVEN_IF_FINALIZING. */
  method Del(b: Base, ev: Event, evenIfFinalizing: bool)
    requires Sound(b) && ev in b.known && ev !in b.timers
    modifies b`activeQueues, b`laterQueue, b`heap, b`commonQueues, b`fdMap, b`flagged, b`eventCount, b`eventCountActive
    modifies ev`inserted, ev`onTimeout, ev`active, ev`activeLater
    ensures Sound(b)
    ensures !ev.finalizing || evenIfFinalizing ==> ev.Idle()
    ensures ev.finalizing && !evenIfFinalizing ==> ev.Now() == old(ev.Now())
    ensures b.fdMap == old(b.fdMap) - if ev.finalizing && !evenIfFinalizing then {} else {ev}
  {
    hide Base.Valid, TakenOut, Armed, Minus, Removed;
    Apart(b);
    b.DelNolock(ev, evenIfFinalizing);
    Apart(b);
    if !ev.finalizing || evenIfFinalizing {
      LeaveHeads(old(b.commonQueues), ev.timeout.common, ev);
      OffQueues(b, ev);
    }
    AllStayArmed(b);
  }

  lemma LeaveHeads(before: seq<seq<Event>>, gone: Option<nat>, ev: Event)
    ensures OldHeads(before, TakenOut(before, gone, ev), ev)
  {
    JoinHeads(before, gone, TakenOut(before, gone, ev), None, 0, ev);
  }

  lemma OffQueues(b: Base, ev: Event)
    requires b.Valid() && !ev.onTimeout
    ensures forall i :: 0 <= i < |b.commonQueues| ==> ev !in b.commonQueues[i]
  {
  }

  /** timeout_process, run by the loop when no callback is running. */
  method TimeoutTick(b: Base, now: int) returns (ghost fired: seq<Event>)
    requires Sound(b) && b.currentEvent == null
    modifies b`activeQueues, b`laterQueue, b`heap, b`commonQueues, b`fdMap, b`flagged, b`eventCount, b`eventCountActive
    modifies b.known`inserted, b.known`onTimeout, b.known`active, b.known`activeLater, b.known`res
    ensures Sound(b)
    ensures Elems(fired) == set e | e in old(b.heap) && e.timeout.usec <= now
    ensures b.heap == set e | e in old(b.heap) && e.timeout.usec > now
    ensures b.Since(old(b.Here()), fired) && b.commonQueues == old(b.commonQueues)
    // no common queue with an expired head is left waiting: its timer is active
    ensures forall i ::
      0 <= i < |b.commonQueues| && b.commonQueues[i] != [] && b.commonQueues[i][0].timeout.usec <= now ==>
      b.timers[i].active
  {
    hide Base.Valid, Armed, FiredInto;
    Apart(b);
    fired := b.TimeoutProcess(now);
    Apart(b);
    AllStayArmed(b);
    forall i | 0 <= i < |b.commonQueues| && b.commonQueues[i] != [] && b.commonQueues[i][0].timeout.usec <= now
      ensures b.timers[i].active
    {
      ExpiredIsActive(b, i, now);
    }
  }

  /** Once the heap holds no expired event, a common queue with an expired head has its timer active or running. */
  lemma ExpiredIsActive(b: Base, i: nat, now: int)
    requires Sound(b) && i < |b.commonQueues| && b.commonQueues[i] != [] && b.commonQueues[i][0].timeout.usec <= now
    requires forall e :: e in b.heap ==> e.timeout.usec > now
    ensures i < |b.timers| && (b.timers[i].active || b.timers[i] == b.currentEvent)
  {
    assert Armed(b, i) && b.timers[i] in b.timers;
    assert b.timers[i].onTimeout ==> b.timers[i] in b.heap;
  }

  ghost function Head(b: Base, p: nat): set<Event>
    reads b`activeQueues
  {
    if p < |b.activeQueues| && b.activeQueues[p] != [] then {b.activeQueues[p][0]} else {}
  }

  /** The head of event_process_active_single_queue's loop: the first callback leaves queue p to be run. */
  method TakeNext(b: Base, p: nat) returns (ev: Event)
    requires Sound(b) && b.currentEvent == null && p < |b.activeQueues| && b.activeQueues[p] != []
    modifies b`activeQueues, b`laterQueue, b`heap, b`commonQueues, b`fdMap, b`flagged, b`eventCount, b`eventCountActive
    modifies b`currentEvent
    modifies Head(b, p)`inserted, Head(b, p)`onTimeout, Head(b, p)`active, Head(b, p)`activeLater
    ensures Sound(b) && b.currentEvent == ev && ev == old(b.activeQueues[p][0])
    ensures b.activeQueues == old(b.activeQueues)[p := old(b.activeQueues[p])[1..]]
    ensures ev.Now() == if ev.init && !ev.persist && !ev.finalizing
                        then old(ev.Now()).(inserted := false, onTimeout := false, active := false)
                        else old(ev.Now()).(active := false)
    ensures b.fdMap == old(b.fdMap) - if ev.init && !ev.persist && !ev.finalizing then {ev} else {}
  {
    hide Base.Valid, TakenOut, Armed, Minus, Removed;
    Apart(b);
    ev := b.activeQueues[p][0];
    AtFront(b, p);
    if ev.init && !(ev.persist || ev.finalizing) {
      b.DelNolock(ev, false);
      LeaveHeads(old(b.commonQueues), ev.timeout.common, ev);
      OffQueues(b, ev);
    } else {
      b.RemoveActive(ev);
    }
    b.SetCurrent(ev);
    Apart(b);
    AllStayArmed(b);
  }

  lemma AtFront(b: Base, p: nat)
    requires b.Valid() && p < |b.activeQueues| && b.activeQueues[p] != []
    ensures var ev := b.activeQueues[p][0];
            && ev in b.known && ev.active && !ev.activeLater && ev.pri == p
            && Removed(b.activeQueues, p, ev) == b.activeQueues[p := b.activeQueues[p][1..]]
  {
    var ev := b.activeQueues[p][0];
    assert ev in b.activeQueues[p];
    MinusFirst(b.activeQueues[p]);
  }

  /** The loop of common_timeout_callback, after `fired` left queue i of what was `queues`. */
  ghost predicate Served(b: Base, s: Snapshot, queues: seq<seq<Event>>, i: nat, fired: seq<Event>, now: int)
    reads b, b.known
  {
    && b.Valid() && b.Since(s, fired)
    && i < |queues| && |fired| <= |queues[i]| && fired == queues[i][..|fired|]
    && b.commonQueues == queues[i := queues[i][|fired|..]]
    && (forall e :: e in fired ==> e.timeout.usec <= now)
    && (forall e, f :: e in fired && f in b.commonQueues[i] ==> f in b.known && e.timeout.usec <= f.timeout.usec)
  }

  lemma NoneServed(b: Base, i: nat, now: int)
    requires b.Valid() && i < |b.commonQueues|
    ensures Served(b, b.Here(), b.commonQueues, i, [], now)
  {
    b.SinceNow();
  }

  lemma HeadServed(b: Base, s: Snapshot, queues: seq<seq<Event>>, i: nat, fired: seq<Event>, now: int)
    requires Served(b, s, queues, i, fired, now) && b.commonQueues[i] != []
    ensures var ev, q := b.commonQueues[i][0], b.commonQueues[i];
            && ev in b.known && !ev.finalizing && ev !in fired && ev !in b.timers
            && TakenOut(b.commonQueues, ev.timeout.common, ev) == b.commonQueues[i := q[1..]]
            && (forall e :: e in q[1..] ==> e in b.known && ev.timeout.usec <= e.timeout.usec)
  {
    hide Base.Valid, Base.Since, TakenOut;
    FiredWaitNot(b, s, fired);
    FirstInQueue(b, i);
  }

  lemma FiredWaitNot(b: Base, s: Snapshot, fired: seq<Event>)
    requires b.Since(s, fired)
    ensures forall e :: e in fired ==> !e.onTimeout
  {
    hide Sorted, NoDup, FiredInto, Minus;
    forall e | e in fired
      ensures !e.onTimeout
    {
      assert e in Elems(fired);
      assert e.Now() == WhenFired(s.was[e]);
    }
  }

  lemma FirstInQueue(b: Base, i: nat)
    requires b.Valid() && i < |b.commonQueues| && b.commonQueues[i] != []
    ensures var ev, q := b.commonQueues[i][0], b.commonQueues[i];
            && ev in b.known && !ev.finalizing && ev.onTimeout && ev !in b.timers
            && TakenOut(b.commonQueues, ev.timeout.common, ev) == b.commonQueues[i := q[1..]]
            && (forall e :: e in q[1..] ==> e in b.known && ev.timeout.usec <= e.timeout.usec)
  {
    hide Base.ActiveOk, Base.LaterOk, Base.Exclusive, Base.CountsOk, Minus;
    var q := b.commonQueues[i];
    var ev := q[0];
    assert NoDup(q) && Sorted(q) && ev in q;
    MinusFirst(q);
  }

  method ServeHead(b: Base, ev: Event, ghost s: Snapshot, ghost queues: seq<seq<Event>>, ghost i: nat,
                   ghost fired: seq<Event>, ghost now: int)
    requires Served(b, s, queues, i, fired, now) && b.commonQueues[i] != [] && ev == b.commonQueues[i][0]
    requires ev.timeout.usec <= now
    modifies b`activeQueues, b`laterQueue, b`heap, b`commonQueues, b`fdMap, b`flagged, b`eventCount, b`eventCountActive
    modifies ev`inserted, ev`onTimeout, ev`active, ev`activeLater, ev`res
    ensures Served(b, s, queues, i, fired + [ev], now)
    ensures |b.commonQueues| == |old(b.commonQueues)| && b.commonQueues[i] == old(b.commonQueues[i])[1..]
  {
    hide Base.Valid, Base.Since, TakenOut, Removed, Minus;
    HeadServed(b, s, queues, i, fired, now);
    OneMoreServed(queues, i, fired);
    b.FireNext(ev, s, fired);
  }

  lemma OneMoreServed(queues: seq<seq<Event>>, i: nat, fired: seq<Event>)
    requires i < |queues| && |fired| < |queues[i]| && fired == queues[i][..|fired|]
    ensures fired + [queues[i][|fired|]] == queues[i][..|fired| + 1]
    ensures queues[i][|fired|..][1..] == queues[i][|fired| + 1..]
    ensures queues[i := queues[i][|fired|..]][i := queues[i][|fired| + 1..]] == queues[i := queues[i][|fired| + 1..]]
  {
  }

  /** The loop of common_timeout_callback. */
  method ServeExpired(b: Base, i: nat, now: int) returns (ghost fired: seq<Event>)
    requires b.Valid() && i < |b.commonQueues|
    modifies b`activeQueues, b`laterQueue, b`heap, b`commonQueues, b`fdMap, b`flagged, b`eventCount, b`eventCountActive
    modifies b.known`inserted, b.known`onTimeout, b.known`active, b.known`activeLater, b.known`res
    ensures b.Valid() && |fired| <= |old(b.commonQueues[i])| && fired == old(b.commonQueues[i])[..|fired|]
    ensures b.commonQueues == old(b.commonQueues)[i := old(b.commonQueues[i])[|fired|..]]
    ensures forall e :: e in fired ==> e.timeout.usec <= now
    ensures forall e :: e in b.commonQueues[i] ==> e.timeout.usec > now
    ensures FiredInto(old(b.activeQueues), b.activeQueues, fired)
    ensures b.laterQueue == Minus(old(b.laterQueue), Elems(fired)) && b.fdMap == old(b.fdMap) - Elems(fired)
    ensures forall e :: e in b.known ==> e.Now() == if e in fired then WhenFired(old(e.Now())) else old(e.Now())
    ensures forall t :: t in b.timers ==> t !in fired
  {
    hide Base.Valid, Base.Since, Base.Here, Served, FiredInto, Minus, Elems, WhenFired, Event.Now;
    fired := [];
    ghost var s, queues := b.Here(), b.commonQueues;
    NotInQueues(b);
    NoneServed(b, i, now);
    while b.commonQueues[i] != [] && b.commonQueues[i][0].timeout.usec <= now
      invariant |b.commonQueues| == |queues| && Served(b, s, queues, i, fired, now)
      decreases |b.commonQueues[i]|
    {
      var ev := b.commonQueues[i][0];
      HeadServed(b, s, queues, i, fired, now);
      ServeHead(b, ev, s, queues, i, fired, now);
      fired := fired + [ev];
    }
    ServedFacts(b, s, queues, i, fired, now);
  }

  /** What the loop leaves. */
  lemma ServedFacts(b: Base, s: Snapshot, queues: seq<seq<Event>>, i: nat, fired: seq<Event>, now: int)
    requires Served(b, s, queues, i, fired, now)
    requires b.commonQueues[i] == [] || b.commonQueues[i][0].timeout.usec > now
    ensures b.Valid() && i < |queues| && |fired| <= |queues[i]| && fired == queues[i][..|fired|]
    ensures b.commonQueues == queues[i := queues[i][|fired|..]]
    ensures forall e :: e in fired ==> e.timeout.usec <= now
    ensures forall e :: e in b.commonQueues[i] ==> e.timeout.usec > now
    ensures FiredInto(s.activeQueues, b.activeQueues, fired)
    ensures b.laterQueue == Minus(s.laterQueue, Elems(fired)) && b.fdMap == s.fdMap - Elems(fired)
    ensures s.was.Keys == b.known && forall e :: e in b.known ==>
      e.Now() == if e in fired then WhenFired(s.was[e]) else s.was[e]
  {
    hide Base.ActiveOk, Base.LaterOk, Base.Exclusive, Base.CountsOk, Base.MapOk, Base.TimersOk, FiredInto, Minus, NoDup;
    hide Event.Now, WhenFired;
    assert Sorted(b.commonQueues[i]);
  }

  /** common_timeout_callback, run for the timer of queue i; the event loop then has no current callback. */
  method CommonTimeoutCallback(b: Base, i: nat, now: int) returns (ghost fired: seq<Event>)
    requires Sound(b) && i < |b.timers| && b.currentEvent == b.timers[i]
    modifies b`activeQueues, b`laterQueue, b`heap, b`commonQueues, b`fdMap, b`flagged, b`eventCount, b`eventCountActive
    modifies b`currentEvent
    modifies b.known`inserted, b.known`onTimeout, b.known`active, b.known`activeLater, b.known`res, b.known`timeout
    ensures Sound(b) && b.currentEvent == null
    // exactly the expired prefix fires
    ensures |fired| <= |old(b.commonQueues[i])| && fired == old(b.commonQueues[i])[..|fired|]
    ensures b.commonQueues == old(b.commonQueues)[i := old(b.commonQueues[i])[|fired|..]]
    ensures forall e :: e in fired ==> e.timeout.usec <= now
    ensures forall e :: e in b.commonQueues[i] ==> e.timeout.usec > now
    // and nothing else changes, but that the timer is set for the new head
    ensures FiredInto(old(b.activeQueues), b.activeQueues, fired)
    ensures b.laterQueue == Minus(old(b.laterQueue), Elems(fired)) && b.fdMap == old(b.fdMap) - Elems(fired)
    ensures forall e :: e in b.known && e != b.timers[i] ==>
      e.Now() == if e in fired then WhenFired(old(e.Now())) else old(e.Now())
    ensures b.timers[i].Now() ==
      if b.commonQueues[i] == [] then old(b.timers[i].Now())
      else old(b.timers[i].Now()).(onTimeout := true,
                                                   timeout := Timeval(b.commonQueues[i][0].timeout.usec, None))
  {
    hide Base.Valid, Served, Armed, FiredInto, Minus, Elems, WhenFired;
    Apart(b);
    Timers(b);
    fired := ServeExpired(b, i, now);
    assert b.timers[i] in b.timers && b.timers[i].Now() == old(b.timers[i].Now());
    Rearm(b, i, now);
    Apart(b);
    RearmedArmed(b, i);
  }

  /** The end of common_timeout_callback. */
  method Rearm(b: Base, i: nat, now: int)
    requires b.Valid() && i < |b.timers| && !b.timers[i].active && i < |b.commonQueues|
    modifies b`heap, b`commonQueues, b`activeQueues, b`fdMap, b`flagged, b`eventCount, b`eventCountActive
    modifies b`currentEvent
    modifies Timer(b, i)`onTimeout, Timer(b, i)`active, Timer(b, i)`timeout, Timer(b, i)`inserted
    ensures b.Valid() && b.currentEvent == null && b.commonQueues == old(b.commonQueues) && b.fdMap == old(b.fdMap)
    ensures b.activeQueues == old(b.activeQueues)
    ensures b.commonQueues[i] == [] ==> b.timers[i].Now() == old(b.timers[i].Now())
    ensures b.commonQueues[i] != [] ==>
      b.commonQueues[i][0].timeout == old(b.commonQueues[i][0].timeout)
      && b.timers[i].Now() == old(b.timers[i].Now()).(onTimeout := true,
                                                   timeout := Timeval(b.commonQueues[i][0].timeout.usec, None))
  {
    hide Base.Valid;
    NotInQueues(b);
    if b.commonQueues[i] != [] {
      assert b.commonQueues[i][0] in b.commonQueues[i];
      CommonTimeoutSchedule(b, b.timers[i], b.commonQueues[i][0], now);
    }
    b.SetCurrent(null);
  }

  ghost function Timer(b: Base, i: nat): set<Event>
    reads b`timers
  {
    if i < |b.timers| then {b.timers[i]} else {}
  }

  lemma NotInQueues(b: Base)
    requires b.Valid()
    ensures forall t, j :: t in b.timers && 0 <= j < |b.commonQueues| ==> t !in b.commonQueues[j]
  {
  }

  /** Queue n's timer was just set for its head; the others are as they were. */
  twostate lemma RearmedArmed(b: Base, new n: nat)
    requires old(Sound(b)) && b.Valid() && b.timers == old(b.timers) && b.currentEvent == null
    requires n < |b.timers| && old(b.currentEvent) == b.timers[n]
    requires b.commonQueues[n] != [] ==>
      b.timers[n].onTimeout && b.timers[n].timeout.usec == b.commonQueues[n][0].timeout.usec
    requires forall t :: t in b.timers && t != b.timers[n] ==> t.Now() == old(t.Now())
    requires forall i :: 0 <= i < |b.commonQueues| && i != n ==> b.commonQueues[i] == old(b.commonQueues)[i]
    requires forall i :: 0 <= i < |b.commonQueues| && i != n && b.commonQueues[i] != [] ==>
      b.commonQueues[i][0].timeout == old(b.commonQueues[i][0].timeout)
    ensures AllArmed(b)
  {
    hide Base.TimesOk, Base.ActiveOk, Base.LaterOk, Base.Exclusive, Base.MapOk, Base.CountsOk;
    forall i | 0 <= i < |b.timers|
      ensures Armed(b, i)
    {
      if i != n {
        assert b.timers[i] in b.timers && b.timers[i] != b.timers[n];
        StaysArmed(b, i);
      }
    }
  }
}
