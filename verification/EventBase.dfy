/** The event base: flags, queues, timers and counters (event.c). */
module EventBases {
  import opened EventQueues
  import opened Common
  import Evmap

  /** EV_TIMEOUT, EV_READ and so on, as collected in ev_res. */
  datatype What = Timeout | Read | Write | Signal | Closed | Finalize

  /** A struct timeval; `common` is the queue number that a common timeout carries in its upper bits. */
  datatype Timeval = Timeval(usec: int, common: Option<nat>)

  /** The fields of a callback that change. */
  datatype State = State(pri: nat, inserted: bool, onTimeout: bool, active: bool, activeLater: bool,
                         finalizing: bool, timeout: Timeval, res: set<What>)

  /** struct event, or a bare struct event_callback when `init` is false. */
  class Event {
    const init: bool
    const internal: bool
    /** Which of EV_READ, EV_WRITE and EV_CLOSED it wants, on which descriptor; the descriptor may be -1. */
    const watch: Evmap.Event
    /** ev_events has EV_READ, EV_WRITE, EV_CLOSED or EV_SIGNAL. */
    const mapped: bool
    const persist: bool
    var pri: nat
    var inserted: bool
    var onTimeout: bool
    var active: bool
    var activeLater: bool
    var finalizing: bool
    /** ev_timeout. */
    var timeout: Timeval
    var res: set<What>

    constructor (init: bool, internal: bool, watch: Evmap.Event, signal: bool, persist: bool, pri: nat)
      ensures this.init == init && this.internal == internal && this.watch == watch && this.persist == persist
      ensures this.mapped == (watch.wants.Any() || signal)
      ensures this.pri == pri && Idle() && !finalizing && timeout == Timeval(0, None) && res == {}
    {
      this.init, this.internal, this.watch, this.persist, this.pri := init, internal, watch, persist, pri;
      this.mapped := watch.wants.Any() || signal;
      inserted, onTimeout, active, activeLater, finalizing := false, false, false, false, false;
      timeout, res := Timeval(0, None), {};
    }

    predicate Idle()
      reads this
    {
      !inserted && !onTimeout && !active && !activeLater
    }

    function Now(): State
      reads this
    {
      State(pri, inserted, onTimeout, active, activeLater, finalizing, timeout, res)
    }
  }

  /** Not EVLIST_INTERNAL: what event_count counts. */
  ghost function Visible(): Event -> bool {
    (e: Event) => !e.internal
  }

  ghost function Every(): Event -> bool {
    (e: Event) => true
  }

  function Weight(e: Event): int {
    if e.internal then 0 else 1
  }

  /** q in order of deadline. */
  ghost predicate Sorted(q: seq<Event>)
    reads q`timeout
  {
    forall i, j :: 0 <= i < j < |q| ==> q[i].timeout.usec <= q[j].timeout.usec
  }

  const MAX_COMMON_TIMEOUTS: nat := 256

  class Base {
    /** nactivequeues. */
    const priorities: nat
    var activeQueues: seq<seq<Event>>
    var laterQueue: seq<Event>
    /** The timer heap as the set it holds. */
    var heap: set<Event>
    var commonQueues: seq<seq<Event>>
    /** timeout_event of each common queue. */
    var timers: seq<Event>
    /** The events listed in the fd and signal maps; evmap lists none with a negative descriptor. */
    var fdMap: set<Event>
    var eventCount: int
    var eventCountActive: int
    var currentEvent: Event?
    /** Every callback set up on this base. */
    ghost var known: set<Event>
    /** Those with the flag INSERTED. */
    ghost var flagged: set<Event>

    /** event_base_new, with n priorities. */
    constructor (n: nat)
      requires n > 0
      ensures Valid() && priorities == n && known == {} && timers == [] && currentEvent == null
    {
      priorities, activeQueues := n, seq(n, i => []);
      laterQueue, commonQueues, timers := [], [], [];
      heap, fdMap, known, flagged := {}, {}, {}, {};
      eventCount, eventCountActive, currentEvent := 0, 0, null;
      new;
      CountInEmpty(activeQueues, Every());
      CountInEmpty(activeQueues, Visible());
    }

    // ----- the invariant -----

    /** ACTIVE says exactly whether the queue of its priority holds a callback, once. */
    ghost predicate ActiveOk()
      reads this`activeQueues, this`known, known`active, known`pri
    {
      && |activeQueues| == priorities > 0
      && (forall p, e :: 0 <= p < |activeQueues| && e in activeQueues[p] ==> e in known && e.active && e.pri == p)
      && (forall e :: e in known ==> e.pri < |activeQueues|)
      && (forall e :: e in known && e.active ==> e in activeQueues[e.pri])
      && (forall p :: 0 <= p < |activeQueues| ==> NoDup(activeQueues[p]))
    }

    /** ACTIVE_LATER says exactly whether the later queue holds a callback, once. */
    ghost predicate LaterOk()
      reads this`laterQueue, this`known, known`activeLater
    {
      && (forall e :: e in laterQueue ==> e in known && e.activeLater)
      && (forall e :: e in known && e.activeLater ==> e in laterQueue)
      && NoDup(laterQueue)
    }

    ghost predicate Exclusive()
      reads this`known, known`active, known`activeLater
    {
      forall e :: e in known ==> !(e.active && e.activeLater)
    }

    /** TIMEOUT says exactly whether the heap or the common queue of its timeout holds an event, once. */
    ghost predicate TimesOk()
      reads this`heap, this`commonQueues, this`known, known`onTimeout, known`timeout
    {
      && (forall e :: e in heap ==> e in known && e.onTimeout && e.timeout.common.None?)
      && (forall i, e :: 0 <= i < |commonQueues| && e in commonQueues[i] ==>
        e in known && e.onTimeout && e.timeout.common == Some(i))
      && (forall e :: e in known && e.onTimeout && e.timeout.common.None? ==> e in heap)
      && (forall e :: e in known && e.onTimeout && e.timeout.common.Some? ==>
            e.timeout.common.value < |commonQueues| && e in commonQueues[e.timeout.common.value])
      && (forall i :: 0 <= i < |commonQueues| ==> NoDup(commonQueues[i]))
      && (forall i :: 0 <= i < |commonQueues| ==> Sorted(commonQueues[i]))
    }

    /** INSERTED says whether a map lists an event, or would if the descriptor were not negative; a finalizing event
        waits for nothing. */
    ghost predicate MapOk()
      reads this`fdMap, this`flagged, this`known, known`inserted, known`onTimeout, known`finalizing
    {
      && (forall e :: e in flagged ==> e in known && e.inserted && e.mapped)
      && (forall e :: e in known && e.inserted ==> e in flagged)
      && (forall e :: e in fdMap ==> e in flagged && e.watch.fd >= 0)
      && (forall e :: e in flagged && e.watch.fd >= 0 ==> e in fdMap)
      && (forall e :: e in known && (e.onTimeout || e.inserted) ==> e.init && !e.finalizing)
    }

    ghost predicate TimersOk()
      reads this`timers, this`known, known`finalizing, known`timeout
    {
      && NoDup(timers)
      && (forall t :: t in timers ==> t in known && t.init && t.internal && !t.mapped && !t.persist
                                      && !t.finalizing && t.timeout.common.None?)
    }

    ghost predicate CountsOk()
      reads this`activeQueues, this`laterQueue, this`heap, this`commonQueues, this`flagged, this`eventCount
      reads this`eventCountActive
    {
      Balanced(activeQueues, laterQueue, heap, commonQueues, flagged, eventCount, eventCountActive)
    }

    ghost predicate Valid()
      reads this, known`active, known`activeLater, known`pri, known`onTimeout, known`timeout, known`inserted
      reads known`finalizing
    {
      && ActiveOk() && LaterOk() && Exclusive() && TimesOk() && MapOk() && TimersOk() && CountsOk()
      && |timers| == |commonQueues|
      && (currentEvent != null ==> currentEvent in known)
    }

    // ----- what one change of a queue keeps -----

    lemma OnActive(ev: Event)
      requires ActiveOk() && ev in known
      ensures ev.pri < |activeQueues| && NoDup(activeQueues[ev.pri]) && (ev.active <==> ev in activeQueues[ev.pri])
    {
    }

    twostate lemma ActiveRemoved(ev: Event)
      requires old(ActiveOk()) && known == old(known) && ev in known && !ev.active
      requires forall e :: e in known ==> e.pri == old(e.pri) && (e != ev ==> e.active == old(e.active))
      requires ev.pri < |old(activeQueues)| && activeQueues == Removed(old(activeQueues), ev.pri, ev)
      ensures ActiveOk()
    {
      hide NoDup, Removed;
      RemovedHas(old(activeQueues), ev.pri, ev);
    }

    twostate lemma ActiveAppended(ev: Event)
      requires old(ActiveOk()) && known == old(known) && ev in known && !old(ev.active) && ev.active
      requires forall e :: e in known ==> e.pri == old(e.pri) && (e != ev ==> e.active == old(e.active))
      requires ev.pri < |old(activeQueues)| && activeQueues == Appended(old(activeQueues), ev.pri, ev)
      ensures ActiveOk()
    {
      hide NoDup, Appended;
      AppendedHas(old(activeQueues), ev.pri, ev);
    }

    twostate lemma StillExclusive(ev: Event)
      requires old(Exclusive()) && known == old(known) && !(ev.active && ev.activeLater)
      requires forall e :: e in known && e != ev ==> e.active == old(e.active) && e.activeLater == old(e.activeLater)
      ensures Exclusive()
    {
    }

    lemma OnTimeout(ev: Event)
      requires TimesOk() && ev in known
      ensures ev in heap <==> ev.onTimeout && ev.timeout.common.None?
      ensures ev.onTimeout && ev.timeout.common.Some? ==> ev.timeout.common.value < |commonQueues|
      ensures forall i :: 0 <= i < |commonQueues| ==>
        NoDup(commonQueues[i]) && Sorted(commonQueues[i])
        && (ev in commonQueues[i] <==> ev.onTimeout && ev.timeout.common == Some(i))
    {
    }

    /** What a change of queue i, to q, has to bring for the common queues to stay right. */
    twostate lemma TimesCommon(ev: Event, new i: nat, new q: seq<Event>)
      requires old(TimesOk()) && heap == old(heap)
      requires known == old(known) && ev in known && ev.timeout == old(ev.timeout)
      requires forall e :: e in known && e != ev ==> e.onTimeout == old(e.onTimeout) && e.timeout == old(e.timeout)
      requires ev.timeout.common == Some(i) && i < |old(commonQueues)| && commonQueues == old(commonQueues)[i := q]
      requires NoDup(q) && Sorted(q)
      requires forall e :: e in q <==> if e == ev then ev.onTimeout else e in old(commonQueues)[i]
      ensures TimesOk()
    {
      hide NoDup;
      forall j | 0 <= j < |commonQueues|
        ensures Sorted(commonQueues[j])
      {
        if j != i {
          SortedStays(commonQueues[j]);
        }
      }
    }

    twostate lemma TimesPut(ev: Event, new i: nat, new k: nat)
      requires old(TimesOk()) && !old(ev.onTimeout) && ev.onTimeout && heap == old(heap)
      requires known == old(known) && ev in known && ev.timeout == old(ev.timeout)
      requires forall e :: e in known && e != ev ==> e.onTimeout == old(e.onTimeout) && e.timeout == old(e.timeout)
      requires ev.timeout.common == Some(i) && i < |old(commonQueues)|
      requires InOrder(old(commonQueues)[i], k, ev)
      requires commonQueues == old(commonQueues)[i := Put(old(commonQueues)[i], k, ev)]
      ensures TimesOk()
    {
      hide NoDup, Put, Sorted;
      var q := old(commonQueues)[i];
      SortedStays(q);
      PutOk(q, k, ev);
      TimesCommon(ev, i, Put(q, k, ev));
    }

    twostate lemma TimesRemoved(ev: Event, new i: nat)
      requires old(TimesOk()) && old(ev.onTimeout) && !ev.onTimeout && heap == old(heap)
      requires known == old(known) && ev in known && ev.timeout == old(ev.timeout)
      requires forall e :: e in known && e != ev ==> e.onTimeout == old(e.onTimeout) && e.timeout == old(e.timeout)
      requires ev.timeout.common == Some(i) && i < |old(commonQueues)|
      requires commonQueues == Removed(old(commonQueues), i, ev)
      ensures TimesOk()
    {
      hide NoDup, Minus, Sorted;
      var q := old(commonQueues)[i];
      SortedStays(q);
      RemovedSorted(q, ev);
      MinusHas(q, {ev});
      MinusNoDup(q, {ev});
      TimesCommon(ev, i, Minus(q, {ev}));
    }

    twostate lemma TimesHeap(ev: Event)
      requires old(TimesOk()) && commonQueues == old(commonQueues)
      requires known == old(known) && ev in known && ev.timeout == old(ev.timeout)
      requires forall e :: e in known && e != ev ==> e.onTimeout == old(e.onTimeout) && e.timeout == old(e.timeout)
      requires ev.timeout.common.None? && heap == if ev.onTimeout then old(heap) + {ev} else old(heap) - {ev}
      ensures TimesOk()
    {
      hide NoDup;
      forall j | 0 <= j < |commonQueues|
        ensures Sorted(commonQueues[j])
      {
        SortedStays(commonQueues[j]);
      }
    }

    twostate lemma RetimedTimes(ev: Event)
      requires old(TimesOk()) && !ev.onTimeout
      requires known == old(known) && heap == old(heap) && commonQueues == old(commonQueues)
      requires forall e :: e in known ==> e.onTimeout == old(e.onTimeout) && (e != ev ==> e.timeout == old(e.timeout))
      ensures TimesOk()
    {
      hide NoDup;
      forall j | 0 <= j < |commonQueues|
        ensures Sorted(commonQueues[j])
      {
        SortedStays(commonQueues[j]);
      }
    }

    twostate lemma RetimedTimers(ev: Event)
      requires old(TimersOk()) && (ev in timers ==> ev.timeout.common.None?)
      requires known == old(known) && timers == old(timers)
      requires forall e :: e in known ==> e.finalizing == old(e.finalizing) && (e != ev ==> e.timeout == old(e.timeout))
      ensures TimersOk()
    {
      hide NoDup;
    }

    /** The flag, the ghost set and the map after INSERTED of one event changed. */
    twostate lemma MapChanged(ev: Event)
      requires old(MapOk()) && known == old(known) && ev in known
      requires ev.inserted ==> ev.mapped && ev.init && !ev.finalizing
      requires forall e :: e in known ==> e.onTimeout == old(e.onTimeout) && e.finalizing == old(e.finalizing)
      requires forall e :: e in known && e != ev ==> e.inserted == old(e.inserted)
      requires flagged == if ev.inserted then old(flagged) + {ev} else old(flagged) - {ev}
      requires fdMap == if ev.inserted && ev.watch.fd >= 0 then old(fdMap) + {ev} else old(fdMap) - {ev}
      ensures MapOk()
    {
    }

    lemma OnMap(ev: Event)
      requires MapOk() && ev in known
      ensures ev in flagged <==> ev.inserted
      ensures ev in fdMap <==> ev.inserted && ev.watch.fd >= 0
    {
    }

    twostate lemma StillMapped(ev: Event)
      requires old(MapOk()) && known == old(known) && fdMap == old(fdMap) && flagged == old(flagged)
      requires forall e :: e in known ==> e.inserted == old(e.inserted) && e.finalizing == old(e.finalizing)
      requires forall e :: e in known && e != ev ==> e.onTimeout == old(e.onTimeout)
      requires ev.onTimeout ==> ev.init && !ev.finalizing
      ensures MapOk()
    {
    }

    /** A new idle callback is known from now on. */
    twostate lemma Grown(new ev: Event)
      requires old(ActiveOk() && LaterOk() && Exclusive() && MapOk()) && known == old(known) + {ev} && ev !in old(known)
      requires activeQueues == old(activeQueues) && laterQueue == old(laterQueue) && fdMap == old(fdMap)
      requires flagged == old(flagged)
      requires ev.Idle() && ev.pri < |activeQueues|
      requires forall e :: e in old(known) ==>
        e.active == old(e.active) && e.pri == old(e.pri) && e.activeLater == old(e.activeLater)
        && e.inserted == old(e.inserted) && e.onTimeout == old(e.onTimeout) && e.finalizing == old(e.finalizing)
      ensures ActiveOk() && LaterOk() && Exclusive() && MapOk()
    {
      hide NoDup;
    }

    twostate lemma GrownTimes(new ev: Event)
      requires old(TimesOk() && TimersOk()) && known == old(known) + {ev} && ev !in old(known)
      requires heap == old(heap) && !ev.onTimeout
      requires forall e :: e in old(known) ==>
        e.onTimeout == old(e.onTimeout) && e.finalizing == old(e.finalizing) && e.timeout == old(e.timeout)
      requires (commonQueues == old(commonQueues) && timers == old(timers))
               || (commonQueues == old(commonQueues) + [[]] && timers == old(timers) + [ev]
                   && ev.init && ev.internal && !ev.mapped && !ev.persist && !ev.finalizing && ev.timeout.common.None?)
      ensures TimesOk() && TimersOk()
    {
      hide Sorted;
      forall j | 0 <= j < |commonQueues|
        ensures Sorted(commonQueues[j])
      {
        if j < |old(commonQueues)| {
          SortedStays(commonQueues[j]);
        } else {
          NoneFired([], []);
        }
      }
    }

    // ----- queue primitives -----

    /** event_queue_insert_inserted, with the entry evmap_io_add_ or evmap_signal_add_ made. */
    method InsertInserted(ev: Event)
      requires Valid() && ev in known && !ev.inserted && ev.mapped && ev.init && !ev.finalizing
      modifies this`fdMap, this`flagged, this`eventCount, ev`inserted
      ensures Valid() && ev.inserted && fdMap == old(fdMap) + if ev.watch.fd >= 0 then {ev} else {}
    {
      hide ActiveOk, LaterOk, Exclusive, TimesOk, TimersOk, MapOk, Balanced;
      OnMap(ev);
      BalancedFd(activeQueues, laterQueue, heap, commonQueues, flagged, ev, eventCount, eventCountActive);
      if ev.watch.fd >= 0 {
        fdMap := fdMap + {ev};
      }
      flagged := flagged + {ev};
      eventCount := eventCount + Weight(ev);
      ev.inserted := true;
      MapChanged(ev);
    }

    /** event_queue_remove_inserted, with the entry evmap_io_del_ or evmap_signal_del_ takes out. */
    method RemoveInserted(ev: Event)
      requires Valid() && ev in known && ev.inserted
      modifies this`fdMap, this`flagged, this`eventCount, ev`inserted
      ensures Valid() && !ev.inserted && fdMap == old(fdMap) - {ev}
    {
      hide ActiveOk, LaterOk, Exclusive, TimesOk, TimersOk, MapOk, Balanced;
      OnMap(ev);
      if ev.watch.fd >= 0 {
        fdMap := fdMap - {ev};
      }
      flagged := flagged - {ev};
      assert flagged + {ev} == old(flagged);
      BalancedFd(activeQueues, laterQueue, heap, commonQueues, flagged, ev, eventCount - Weight(ev), eventCountActive);
      eventCount := eventCount - Weight(ev);
      ev.inserted := false;
      MapChanged(ev);
    }

    /** event_queue_insert_active. */
    method InsertActive(ev: Event)
      requires Valid() && ev in known && !ev.activeLater
      modifies this`activeQueues, this`eventCount, this`eventCountActive, ev`active
      ensures Valid() && ev.active
      ensures activeQueues == if old(ev.active) then old(activeQueues) else Appended(old(activeQueues), ev.pri, ev)
    {
      hide ActiveOk, LaterOk, Exclusive, TimesOk, MapOk, TimersOk, Balanced, Appended, NoDup;
      OnActive(ev);
      if ev.active {
        return;
      }
      BalancedAppended(activeQueues, ev.pri, ev, laterQueue, heap, commonQueues, flagged, eventCount, eventCountActive);
      eventCount := eventCount + Weight(ev);
      ev.active := true;
      eventCountActive := eventCountActive + 1;
      activeQueues := Appended(activeQueues, ev.pri, ev);
      ActiveAppended(ev);
      StillExclusive(ev);
    }

    /** event_queue_remove_active. */
    method RemoveActive(ev: Event)
      requires Valid() && ev in known && ev.active
      modifies this`activeQueues, this`eventCount, this`eventCountActive, ev`active
      ensures Valid() && !ev.active
      ensures activeQueues == Removed(old(activeQueues), ev.pri, ev)
    {
      hide ActiveOk, LaterOk, Exclusive, TimesOk, MapOk, TimersOk, Balanced, Removed, NoDup;
      OnActive(ev);
      BalancedRemoved(activeQueues, ev.pri, ev, laterQueue, heap, commonQueues, flagged, eventCount, eventCountActive);
      eventCount := eventCount - Weight(ev);
      ev.active := false;
      eventCountActive := eventCountActive - 1;
      activeQueues := Removed(activeQueues, ev.pri, ev);
      ActiveRemoved(ev);
      StillExclusive(ev);
    }

    /** event_queue_insert_active_later. */
    method InsertLater(ev: Event)
      requires Valid() && ev in known
      modifies this`laterQueue, this`eventCount, this`eventCountActive, ev`activeLater
      ensures Valid()
      ensures ev.activeLater == !ev.active
      ensures laterQueue == old(laterQueue) + if old(ev.active || ev.activeLater) then [] else [ev]
    {
      hide ActiveOk, TimesOk, MapOk, TimersOk, Balanced;
      if ev.activeLater || ev.active {
        return;
      }
      BalancedLater(activeQueues, laterQueue, ev, heap, commonQueues, flagged, eventCount, eventCountActive);
      eventCount := eventCount + Weight(ev);
      ev.activeLater := true;
      eventCountActive := eventCountActive + 1;
      laterQueue := laterQueue + [ev];
    }

    /** event_queue_remove_active_later. */
    method RemoveLater(ev: Event)
      requires Valid() && ev in known && ev.activeLater
      modifies this`laterQueue, this`eventCount, this`eventCountActive, ev`activeLater
      ensures Valid() && !ev.activeLater
      ensures laterQueue == Minus(old(laterQueue), {ev})
    {
      hide ActiveOk, TimesOk, MapOk, TimersOk, Minus, Balanced;
      BalancedNotLater(activeQueues, laterQueue, ev, heap, commonQueues, flagged, eventCount, eventCountActive);
      MinusHas(laterQueue, {ev});
      MinusNoDup(laterQueue, {ev});
      eventCount := eventCount - Weight(ev);
      ev.activeLater := false;
      eventCountActive := eventCountActive - 1;
      laterQueue := Minus(laterQueue, {ev});
    }

    /** event_queue_insert_timeout. `k` is where a common queue takes the event in. */
    method InsertTimeout(ev: Event) returns (ghost k: nat)
      requires Valid() && ev in known && !ev.onTimeout && ev.init && !ev.finalizing
      requires ev.timeout.common.Some? ==> ev.timeout.common.value < |commonQueues|
      modifies this`heap, this`commonQueues, this`eventCount, ev`onTimeout
      ensures Valid() && ev.onTimeout
      ensures heap == old(heap) + if ev.timeout.common.Some? then {} else {ev}
      ensures |commonQueues| == |old(commonQueues)|
      ensures match ev.timeout.common
              case None => commonQueues == old(commonQueues)
              case Some(i) => InOrder(old(commonQueues[i]), k, ev)
                              && commonQueues == old(commonQueues)[i := Put(old(commonQueues[i]), k, ev)]
    {
      hide ActiveOk, LaterOk, Exclusive, TimesOk, MapOk, TimersOk, Balanced, Put, InOrder, NoDup, Sorted;
      OnTimeout(ev);
      eventCount := eventCount + Weight(ev);
      ev.onTimeout := true;
      k := 0;
      if ev.timeout.common.Some? {
        var i := ev.timeout.common.value;
        var q;
        k, q := InsertInorder(commonQueues[i], ev);
        BalancedPut(activeQueues, laterQueue, heap, commonQueues, i, k, ev, flagged, eventCount - Weight(ev),
                    eventCountActive);
        commonQueues := commonQueues[i := q];
        TimesPut(ev, i, k);
      } else {
        BalancedHeap(activeQueues, laterQueue, heap, commonQueues, flagged, ev, eventCount - Weight(ev),
                     eventCountActive);
        heap := heap + {ev};
        TimesHeap(ev);
      }
      StillMapped(ev);
    }

    /** event_queue_remove_timeout. */
    method RemoveTimeout(ev: Event)
      requires Valid() && ev in known && ev.onTimeout
      modifies this`heap, this`commonQueues, this`eventCount, ev`onTimeout
      ensures Valid() && !ev.onTimeout
      ensures heap == old(heap) - {ev}
      ensures commonQueues == TakenOut(old(commonQueues), ev.timeout.common, ev)
    {
      hide ActiveOk, LaterOk, Exclusive, TimesOk, MapOk, TimersOk, Balanced, Removed, NoDup, Sorted;
      OnTimeout(ev);
      eventCount := eventCount - Weight(ev);
      ev.onTimeout := false;
      if ev.timeout.common.Some? {
        var i := ev.timeout.common.value;
        BalancedNotCommon(activeQueues, laterQueue, heap, commonQueues, i, ev, flagged, eventCount + Weight(ev),
                          eventCountActive);
        commonQueues := Removed(commonQueues, i, ev);
        TimesRemoved(ev, i);
        SameSize(old(commonQueues), i, ev);
      } else {
        heap := heap - {ev};
        assert heap + {ev} == old(heap);
        BalancedHeap(activeQueues, laterQueue, heap, commonQueues, flagged, ev, eventCount, eventCountActive);
        TimesHeap(ev);
      }
      StillMapped(ev);
    }

    /** Writing ev_timeout of an event that waits for none. */
    method SetTimeout(ev: Event, t: Timeval)
      requires Valid() && ev in known && !ev.onTimeout && (ev in timers ==> t.common.None?)
      modifies ev`timeout
      ensures Valid() && ev.timeout == t
    {
      hide ActiveOk, LaterOk, Exclusive, TimesOk, MapOk, TimersOk, Balanced;
      ev.timeout := t;
      RetimedTimes(ev);
      RetimedTimers(ev);
    }

    method SetCurrent(ev: Event?)
      requires Valid() && (ev != null ==> ev in known)
      modifies this`currentEvent
      ensures Valid() && currentEvent == ev
    {
      hide ActiveOk, LaterOk, Exclusive, TimesOk, MapOk, TimersOk, Balanced;
      currentEvent := ev;
    }

    /** One turn of event_queue_make_later_events_active: the counters do not move. */
    method Promote() returns (ev: Event)
      requires Valid() && laterQueue != []
      modifies this`activeQueues, this`laterQueue, known`active, known`activeLater
      ensures Valid() && ev == old(laterQueue[0]) && ev in known && laterQueue == old(laterQueue)[1..]
      ensures ev.pri < |old(activeQueues)| && activeQueues == Appended(old(activeQueues), ev.pri, ev)
      ensures forall e :: e in known ==>
        e.Now() == if e == ev then old(e.Now()).(activeLater := false, active := true) else old(e.Now())
    {
      hide ActiveOk, LaterOk, Exclusive, TimesOk, MapOk, TimersOk, Balanced, Appended, Minus, NoDup;
      ev := laterQueue[0];
      FirstLater();
      OnActive(ev);
      BalancedNotLater(activeQueues, laterQueue, ev, heap, commonQueues, flagged, eventCount, eventCountActive);
      BalancedAppended(activeQueues, ev.pri, ev, Minus(laterQueue, {ev}), heap, commonQueues, flagged,
                       eventCount - Weight(ev), eventCountActive - 1);
      laterQueue := laterQueue[1..];
      ev.activeLater := false;
      ev.active := true;
      activeQueues := Appended(activeQueues, ev.pri, ev);
      ActiveAppended(ev);
      LaterTaken(ev);
      StillExclusive(ev);
    }

    lemma FirstLater()
      requires LaterOk() && Exclusive() && laterQueue != []
      ensures NoDup(laterQueue) && Minus(laterQueue, {laterQueue[0]}) == laterQueue[1..]
      ensures laterQueue[0] in known && laterQueue[0].activeLater && !laterQueue[0].active
    {
      MinusFirst(laterQueue);
    }

    twostate lemma LaterTaken(ev: Event)
      requires old(LaterOk()) && known == old(known) && old(laterQueue) != [] && ev == old(laterQueue)[0]
      requires !ev.activeLater
      requires laterQueue == old(laterQueue)[1..]
      requires forall e :: e in known && e != ev ==> e.activeLater == old(e.activeLater)
      ensures LaterOk()
    {
      assert old(laterQueue) == [ev] + laterQueue;
    }

    lemma SomePriority()
      requires ActiveOk()
      ensures |activeQueues| == priorities > 0
    {
    }

    /** event_assign on this base, or event_callback_init_ when init is off. */
    method NewEvent(init: bool, internal: bool, watch: Evmap.Event, signal: bool, persist: bool) returns (ev: Event)
      requires Valid()
      modifies this`known
      ensures Valid() && known == old(known) + {ev} && fresh(ev)
      ensures ev.Idle() && ev.init == init && ev.internal == internal && ev.watch == watch && ev.persist == persist
      ensures ev.mapped == (watch.wants.Any() || signal)
      ensures !ev.finalizing && ev.pri == if init then priorities / 2 else priorities - 1
    {
      hide ActiveOk, LaterOk, Exclusive, TimesOk, MapOk, TimersOk, Balanced;
      SomePriority();
      ev := new Event(init, internal, watch, signal, persist, if init then priorities / 2 else priorities - 1);
      known := known + {ev};
      Grown(ev);
      GrownTimes(ev);
    }

    /** event_base_init_common_timeout for a duration that has no queue yet; None when 256 are in use. */
    method NewCommonTimeout() returns (r: Option<nat>)
      requires Valid()
      modifies this`known, this`commonQueues, this`timers
      ensures Valid()
      ensures r.None? <==> |old(commonQueues)| == MAX_COMMON_TIMEOUTS
      ensures r.None? ==> known == old(known) && commonQueues == old(commonQueues) && timers == old(timers)
      ensures r.Some? ==> r.value == |old(commonQueues)| && commonQueues == old(commonQueues) + [[]]
                          && |timers| == r.value + 1 && timers[..r.value] == old(timers)
                          && fresh(timers[r.value]) && known == old(known) + {timers[r.value]}
    {
      hide ActiveOk, LaterOk, Exclusive, TimesOk, MapOk, TimersOk, Balanced;
      if |commonQueues| == MAX_COMMON_TIMEOUTS {
        return None;
      }
      SomePriority();
      var t := new Event(true, true, Evmap.Event(0, -1, Evmap.NONE), false, false, 0);
      r := Some(|commonQueues|);
      BalancedNewQueue(activeQueues, laterQueue, heap, commonQueues, flagged, eventCount, eventCountActive);
      known := known + {t};
      commonQueues := commonQueues + [[]];
      timers := timers + [t];
      Grown(t);
      GrownTimes(t);
    }

    // ----- event_del_nolock_ and event_active_nolock_ -----

    /** Taking a callback off queues it is not on changes none of them. */
    lemma NotThere(ev: Event)
      requires Valid() && ev in known
      ensures ev.pri < |activeQueues|
      ensures !ev.active ==> Removed(activeQueues, ev.pri, ev) == activeQueues
      ensures !ev.activeLater ==> Minus(laterQueue, {ev}) == laterQueue
      ensures !ev.onTimeout ==> heap - {ev} == heap && TakenOut(commonQueues, ev.timeout.common, ev) == commonQueues
      ensures !ev.inserted ==> fdMap - {ev} == fdMap
    {
      hide NoDup, Minus, Sorted, Balanced;
      if !ev.active {
        MinusNothing(activeQueues[ev.pri], {ev});
      }
      if !ev.activeLater {
        MinusNothing(laterQueue, {ev});
      }
      if !ev.onTimeout && ev.timeout.common.Some? && ev.timeout.common.value < |commonQueues| {
        MinusNothing(commonQueues[ev.timeout.common.value], {ev});
      }
    }

    /** event_del_nolock_. */
    method DelNolock(ev: Event, evenIfFinalizing: bool)
      requires Valid() && ev in known
      modifies this`activeQueues, this`laterQueue, this`heap, this`commonQueues, this`fdMap, this`flagged
      modifies this`eventCount, this`eventCountActive
      modifies ev`inserted, ev`onTimeout, ev`active, ev`activeLater
      ensures Valid()
      ensures ev.finalizing && !evenIfFinalizing ==>
        ev.Now() == old(ev.Now()) && activeQueues == old(activeQueues) && laterQueue == old(laterQueue)
        && heap == old(heap) && commonQueues == old(commonQueues) && fdMap == old(fdMap)
      ensures !ev.finalizing || evenIfFinalizing ==>
        && ev.Idle() && ev.pri < |old(activeQueues)|
        && activeQueues == Removed(old(activeQueues), ev.pri, ev) && laterQueue == Minus(old(laterQueue), {ev})
        && heap == old(heap) - {ev} && commonQueues == TakenOut(old(commonQueues), ev.timeout.common, ev)
        && fdMap == old(fdMap) - {ev}
    {
      hide ActiveOk, LaterOk, TimesOk, MapOk, TimersOk, CountsOk, Removed, Minus, TakenOut;
      if !evenIfFinalizing && ev.finalizing {
        return;
      }
      NotThere(ev);
      if ev.onTimeout {
        RemoveTimeout(ev);
      }
      if ev.active {
        RemoveActive(ev);
      } else if ev.activeLater {
        RemoveLater(ev);
      }
      if ev.inserted {
        RemoveInserted(ev);
      }
    }

    /** event_callback_activate_nolock_. */
    method CallbackActivate(ev: Event) returns (first: bool)
      requires Valid() && ev in known
      modifies this`activeQueues, this`laterQueue, this`eventCount, this`eventCountActive, ev`active, ev`activeLater
      ensures Valid() && ev.pri < |activeQueues|
      ensures ev.finalizing ==>
        ev.Now() == old(ev.Now()) && activeQueues == old(activeQueues) && laterQueue == old(laterQueue)
      ensures !ev.finalizing ==> ev.Now() == old(ev.Now()).(active := true, activeLater := false)
                                 && laterQueue == Minus(old(laterQueue), {ev}) && |old(activeQueues)| == |activeQueues|
                                 && activeQueues ==
                                   if old(ev.active) then old(activeQueues) else Appended(old(activeQueues), ev.pri, ev)
      ensures first <==> !old(ev.active || ev.activeLater || ev.finalizing)
    {
      hide ActiveOk, LaterOk, TimesOk, MapOk, TimersOk, CountsOk, Appended, Minus;
      NotThere(ev);
      if ev.finalizing {
        return false;
      }
      first := true;
      if ev.activeLater {
        RemoveLater(ev);
        first := false;
      } else if ev.active {
        return false;
      }
      AppendedSize(activeQueues, ev.pri, ev);
      InsertActive(ev);
    }

    /** event_active_nolock_. */
    method ActiveNolock(ev: Event, what: set<What>)
      requires Valid() && ev in known
      modifies this`activeQueues, this`laterQueue, this`eventCount, this`eventCountActive, ev`active, ev`activeLater
      modifies ev`res
      ensures Valid() && ev.pri < |activeQueues|
      ensures ev.finalizing ==>
        ev.Now() == old(ev.Now()) && activeQueues == old(activeQueues) && laterQueue == old(laterQueue)
      ensures !ev.finalizing ==>
        ev.Now() == old(ev.Now()).(active := true, activeLater := false,
                                   res := if old(ev.active || ev.activeLater) then old(ev.res) + what else what)
        && laterQueue == Minus(old(laterQueue), {ev}) && |old(activeQueues)| == |activeQueues|
        && activeQueues == if old(ev.active) then old(activeQueues) else Appended(old(activeQueues), ev.pri, ev)
    {
      hide ActiveOk, LaterOk, TimesOk, MapOk, TimersOk, CountsOk, Appended, Minus;
      NotThere(ev);
      if ev.finalizing {
        return;
      }
      if ev.active {
        ev.res := ev.res + what;
        return;
      }
      ev.res := if ev.activeLater then ev.res + what else what;
      var _ := CallbackActivate(ev);
    }

    // ----- timeouts that fire -----

    /** event_del_nolock_ and then event_active_nolock_, as both timeout loops do. */
    method Fire(ev: Event)
      requires Valid() && ev in known && !ev.finalizing
      modifies this`activeQueues, this`laterQueue, this`heap, this`commonQueues, this`fdMap, this`flagged
      modifies this`eventCount, this`eventCountActive
      modifies ev`inserted, ev`onTimeout, ev`active, ev`activeLater, ev`res
      ensures Valid() && ev.Now() == WhenFired(old(ev.Now()))
      ensures ev.pri < |old(activeQueues)| && activeQueues == Requeued(old(activeQueues), ev)
      ensures laterQueue == Minus(old(laterQueue), {ev}) && heap == old(heap) - {ev} && fdMap == old(fdMap) - {ev}
      ensures commonQueues == TakenOut(old(commonQueues), ev.timeout.common, ev)
    {
      hide ActiveOk, LaterOk, TimesOk, MapOk, TimersOk, CountsOk, Appended, Removed, Minus, TakenOut;
      DelNolock(ev, false);
      NotThere(ev);
      ActiveNolock(ev, {Timeout});
    }

    /** Every callback's state, with `was` before a timeout loop, after `fired` fired. */
    ghost predicate States(was: map<Event, State>, fired: seq<Event>)
      reads this`known, known
    {
      was.Keys == known && forall e :: e in known ==> e.Now() == if e in fired then WhenFired(was[e]) else was[e]
    }

    ghost function Here(): (s: Snapshot)
      reads this, known
      ensures s == Snapshot(s.was, activeQueues, laterQueue, fdMap)
      ensures s.was.Keys == known && forall e :: e in known ==> s.was[e] == e.Now()
    {
      Snapshot(map e | e in known :: e.Now(), activeQueues, laterQueue, fdMap)
    }

    /** The base differs from s in that `fired` fired, in this order, and each of them once. */
    ghost predicate Since(s: Snapshot, fired: seq<Event>)
      reads this, known
    {
      && Elems(fired) <= known && NoDup(fired) && Sorted(fired)
      && States(s.was, fired)
      && FiredInto(s.activeQueues, activeQueues, fired)
      && laterQueue == Minus(s.laterQueue, Elems(fired))
      && fdMap == s.fdMap - Elems(fired)
    }

    lemma SinceNow()
      ensures Since(Here(), [])
    {
      NoneFired(activeQueues, laterQueue);
    }

    twostate lemma StatesFired(f: Firing)
      requires old(States(f.s.was, f.fired)) && known == old(known) && f.ev in known && f.ev !in f.fired
      requires f.ev.Now() == WhenFired(old(f.ev.Now()))
      requires forall e :: e in known && e != f.ev ==> unchanged(e)
      ensures States(f.s.was, f.fired + [f.ev])
    {
      hide Event.Now, WhenFired;
    }

    /** One turn of a timeout loop. */
    method FireNext(ev: Event, ghost s: Snapshot, ghost fired: seq<Event>)
      requires Valid() && ev in known && !ev.finalizing
      requires Since(s, fired) && ev !in fired && forall e :: e in fired ==> e.timeout.usec <= ev.timeout.usec
      modifies this`activeQueues, this`laterQueue, this`heap, this`commonQueues, this`fdMap, this`flagged
      modifies this`eventCount, this`eventCountActive
      modifies ev`inserted, ev`onTimeout, ev`active, ev`activeLater, ev`res
      ensures Valid() && Since(s, fired + [ev])
      ensures heap == old(heap) - {ev} && commonQueues == TakenOut(old(commonQueues), ev.timeout.common, ev)
    {
      hide ActiveOk, LaterOk, Exclusive, TimesOk, MapOk, TimersOk, CountsOk, Removed, Minus, Requeued, FiredInto, OfPri;
      hide NoDup, Sorted, Elems;
      hide Event.Now, WhenFired, States, TakenOut;
      ghost var f := Firing(ev, fired, s);
      ElemsPlus(fired, ev);
      HomeQueue(ev);
      OneMoreFired(s.activeQueues, activeQueues, fired, ev);
      MinusMinus(s.laterQueue, Elems(fired), {ev});
      Fire(ev);
      SortedPlus(fired, ev);
      StatesFired(f);
    }

    /** timeout_process. */
    method TimeoutProcess(now: int) returns (ghost fired: seq<Event>)
      requires Valid()
      modifies this`activeQueues, this`laterQueue, this`heap, this`commonQueues, this`fdMap, this`flagged
      modifies this`eventCount, this`eventCountActive
      modifies known`inserted, known`onTimeout, known`active, known`activeLater, known`res
      ensures Valid()
      // exactly the expired events fire, in the order of their deadlines
      ensures Elems(fired) == set e | e in old(heap) && e.timeout.usec <= now
      ensures heap == set e | e in old(heap) && e.timeout.usec > now
      ensures Since(old(Here()), fired)
      ensures commonQueues == old(commonQueues)
    {
      hide Valid, Since, Here, Elems, Popped;
      fired := [];
      ghost var s, heap0 := Here(), heap;
      NonePopped(now);
      while heap != {}
        invariant Valid() && Popped(s, heap0, fired, now) && commonQueues == old(commonQueues)
        decreases |heap|
      {
        var ev := Top();
        if ev.timeout.usec > now {
          break;
        }
        InHeap(ev);
        FireTop(ev, s, heap0, fired, now);
        fired := fired + [ev];
      }
      AllPopped(s, heap0, fired, now);
    }

    /** The loop of timeout_process, after `fired` left a heap that was heap0. */
    ghost predicate Popped(s: Snapshot, heap0: set<Event>, fired: seq<Event>, now: int)
      reads this, known
    {
      && Valid() && Since(s, fired)
      && Elems(fired) <= heap0 && heap == heap0 - Elems(fired)
      && (forall e :: e in fired ==> e.timeout.usec <= now)
      && (forall e, f :: e in fired && f in heap ==> f in known && e.timeout.usec <= f.timeout.usec)
    }

    lemma NonePopped(now: int)
      requires Valid()
      ensures Popped(Here(), heap, [], now)
    {
      SinceNow();
    }

    lemma AllPopped(s: Snapshot, heap0: set<Event>, fired: seq<Event>, now: int)
      requires Popped(s, heap0, fired, now)
      requires forall e :: e in heap ==> e.timeout.usec > now
      ensures Valid() && Since(s, fired)
      ensures Elems(fired) == set e | e in heap0 && e.timeout.usec <= now
      ensures heap == set e | e in heap0 && e.timeout.usec > now
    {
      hide Valid, Since;
    }

    method FireTop(ev: Event, ghost s: Snapshot, ghost heap0: set<Event>, ghost fired: seq<Event>, ghost now: int)
      requires Popped(s, heap0, fired, now) && ev in heap && ev.timeout.usec <= now
      requires forall e :: e in heap ==> ev.timeout.usec <= e.timeout.usec
      modifies this`activeQueues, this`laterQueue, this`heap, this`commonQueues, this`fdMap, this`flagged
      modifies this`eventCount, this`eventCountActive
      modifies ev`inserted, ev`onTimeout, ev`active, ev`activeLater, ev`res
      ensures Valid() && Popped(s, heap0, fired + [ev], now)
      ensures heap == old(heap) - {ev} && commonQueues == old(commonQueues)
    {
      hide Valid, Since, Elems, TakenOut;
      ElemsPlus(fired, ev);
      InHeap(ev);
      HeapKnown();
      FireNext(ev, s, fired);
    }

    lemma HeapKnown()
      requires Valid()
      ensures heap <= known
    {
    }

    lemma InHeap(ev: Event)
      requires Valid() && ev in heap
      ensures ev in known && !ev.finalizing && TakenOut(commonQueues, ev.timeout.common, ev) == commonQueues
    {
    }

    /** An event stands in no queue but that of its priority. */
    lemma HomeQueue(ev: Event)
      requires ActiveOk() && ev in known
      ensures ev.pri < |activeQueues| && forall p :: 0 <= p < |activeQueues| && p != ev.pri ==> ev !in activeQueues[p]
    {
    }

    /** min_heap_top_. */
    method Top() returns (ev: Event)
      requires heap != {}
      ensures ev in heap && forall e :: e in heap ==> ev.timeout.usec <= e.timeout.usec
    {
      HasEarliest(heap);
      ev :| ev in heap && forall e :: e in heap ==> ev.timeout.usec <= e.timeout.usec;
    }
  }

  /** The queues, the map and every callback's state at one moment. */
  datatype Snapshot =
    Snapshot(was: map<Event, State>, activeQueues: seq<seq<Event>>, laterQueue: seq<Event>, fdMap: set<Event>)

  datatype Firing = Firing(ev: Event, fired: seq<Event>, s: Snapshot)

  /** The state of an event once it was deleted and made active for its timeout. */
  ghost function WhenFired(s: State): State {
    s.(inserted := false, onTimeout := false, active := true, activeLater := false, res := {Timeout})
  }

  /** Moved, or added, to the end of the queue of its priority. */
  ghost function Requeued(qs: seq<seq<Event>>, ev: Event): seq<seq<Event>>
    requires ev.pri < |qs|
    reads ev`pri
  {
    SameSize(qs, ev.pri, ev);
    Appended(Removed(qs, ev.pri, ev), ev.pri, ev)
  }

  ghost function Elems(q: seq<Event>): set<Event> {
    set e | e in q
  }

  /** The members of q with priority p, in order. */
  ghost function OfPri(q: seq<Event>, p: nat): seq<Event>
    reads q`pri
  {
    if q == [] then [] else (if q[0].pri == p then [q[0]] else []) + OfPri(q[1..], p)
  }

  /** Each queue lost the fired events and then gained those of its priority, in the order they fired. */
  ghost predicate FiredInto(before: seq<seq<Event>>, after: seq<seq<Event>>, fired: seq<Event>)
    reads fired`pri
  {
    |after| == |before|
    && forall p :: 0 <= p < |before| ==> after[p] == Minus(before[p], Elems(fired)) + OfPri(fired, p)
  }

  lemma NoneFired(qs: seq<seq<Event>>, q: seq<Event>)
    ensures FiredInto(qs, qs, []) && Minus(q, Elems([])) == q && Elems([]) == {} && NoDup<Event>([]) && Sorted([])
  {
    MinusNothing(q, {});
    forall p | 0 <= p < |qs|
      ensures qs[p] == Minus(qs[p], Elems([])) + OfPri([], p)
    {
      assert Elems([]) == {};
      MinusNothing(qs[p], {});
    }
  }

  lemma ElemsPlus(q: seq<Event>, ev: Event)
    ensures Elems(q + [ev]) == Elems(q) + {ev}
    ensures ev in q <==> ev in Elems(q)
  {
  }

  lemma SortedPlus(q: seq<Event>, ev: Event)
    requires Sorted(q) && NoDup(q) && ev !in q && forall e :: e in q ==> e.timeout.usec <= ev.timeout.usec
    ensures Sorted(q + [ev]) && NoDup(q + [ev])
  {
  }

  lemma {:induction false} OfPriPlus(q: seq<Event>, ev: Event, p: nat)
    ensures OfPri(q + [ev], p) == OfPri(q, p) + if ev.pri == p then [ev] else []
  {
    if q == [] {
      assert q + [ev] == [ev];
    } else {
      OfPriPlus(q[1..], ev, p);
      assert (q + [ev])[1..] == q[1..] + [ev];
    }
  }

  lemma {:induction false} OfPriHas(q: seq<Event>, p: nat)
    ensures forall e :: e in OfPri(q, p) ==> e in q
  {
    if q != [] {
      OfPriHas(q[1..], p);
    }
  }

  lemma OneMoreFired(before: seq<seq<Event>>, qs: seq<seq<Event>>, fired: seq<Event>, ev: Event)
    requires FiredInto(before, qs, fired) && ev !in fired && ev.pri < |qs|
    requires forall p :: 0 <= p < |qs| && p != ev.pri ==> ev !in qs[p]
    ensures FiredInto(before, Requeued(qs, ev), fired + [ev])
  {
    hide FiredInto, OfPri, Minus, Elems;
    var qs' := Requeued(qs, ev);
    FiredSize(before, qs, fired);
    forall p | 0 <= p < |before|
      ensures qs'[p] == Minus(before[p], Elems(fired + [ev])) + OfPri(fired + [ev], p)
    {
      FiredAt(before, qs, fired, p);
      ElemsPlus(fired, ev);
      OfPriPlus(fired, ev, p);
      OfPriHas(fired, p);
      FiredQueue(before[p], Elems(fired), OfPri(fired, p), ev, p);
    }
    IsFiredInto(before, qs', fired + [ev]);
  }

  /** One queue, when ev leaves it and then joins the end if it is the queue of its priority. */
  lemma FiredQueue(q: seq<Event>, s: set<Event>, r: seq<Event>, ev: Event, p: nat)
    requires ev !in r
    requires ev.pri != p ==> ev !in Minus(q, s) + r
    ensures ev.pri == p ==> Minus(Minus(q, s) + r, {ev}) + [ev] == Minus(q, s + {ev}) + (r + [ev])
    ensures ev.pri != p ==> Minus(q, s) + r == Minus(q, s + {ev}) + (r + [])
  {
    hide Minus;
    MinusJoin(Minus(q, s), r, {ev});
    MinusMinus(q, s, {ev});
    MinusNothing(r, {ev});
    if ev.pri != p {
      MinusNothing(Minus(q, s), {ev});
      assert r + [] == r;
    }
  }

  lemma FiredSize(before: seq<seq<Event>>, qs: seq<seq<Event>>, fired: seq<Event>)
    requires FiredInto(before, qs, fired)
    ensures |qs| == |before|
  {
  }

  lemma FiredAt(before: seq<seq<Event>>, qs: seq<seq<Event>>, fired: seq<Event>, p: nat)
    requires FiredInto(before, qs, fired) && p < |before|
    ensures |qs| == |before| && qs[p] == Minus(before[p], Elems(fired)) + OfPri(fired, p)
  {
  }

  lemma IsFiredInto(before: seq<seq<Event>>, qs: seq<seq<Event>>, fired: seq<Event>)
    requires |qs| == |before| && forall p :: 0 <= p < |before| ==>
      qs[p] == Minus(before[p], Elems(fired)) + OfPri(fired, p)
    ensures FiredInto(before, qs, fired)
  {
  }

  lemma {:induction false} HasEarliest(s: set<Event>)
    requires s != {}
    ensures exists ev :: ev in s && forall e :: e in s ==> ev.timeout.usec <= e.timeout.usec
  {
    var x :| x in s;
    var rest := s - {x};
    if rest != {} {
      HasEarliest(rest);
      var y :| y in rest && forall e :: e in rest ==> y.timeout.usec <= e.timeout.usec;
      assert s == rest + {x};
      var ev := if x.timeout.usec <= y.timeout.usec then x else y;
      assert ev in s && forall e :: e in s ==> ev.timeout.usec <= e.timeout.usec;
    } else {
      assert s == {x};
      assert x in s && forall e :: e in s ==> x.timeout.usec <= e.timeout.usec;
    }
  }

  /** The queues after the event is taken off the common queue it names, if any. */
  function TakenOut(qs: seq<seq<Event>>, common: Option<nat>, ev: Event): (r: seq<seq<Event>>)
    ensures |r| == |qs|
  {
    if common.Some? && common.value < |qs| then Removed(qs, common.value, ev) else qs
  }

  /** Everything up to k is due no later than ev, everything after it later. */
  ghost predicate InOrder(q: seq<Event>, k: nat, ev: Event)
    reads q`timeout, ev`timeout
  {
    && k <= |q|
    && (forall j :: 0 <= j < k ==> q[j].timeout.usec <= ev.timeout.usec)
    && (forall j :: k <= j < |q| ==> ev.timeout.usec < q[j].timeout.usec)
  }

  function Put(q: seq<Event>, k: nat, ev: Event): seq<Event>
    requires k <= |q|
  {
    q[..k] + [ev] + q[k..]
  }

  /** insert_common_timeout_inorder: after the last event that is due no later. */
  method InsertInorder(q: seq<Event>, ev: Event) returns (ghost k: nat, q': seq<Event>)
    requires Sorted(q)
    ensures InOrder(q, k, ev) && q' == Put(q, k, ev)
  {
    var i := |q|;
    while i > 0
      invariant 0 <= i <= |q|
      invariant forall j :: i <= j < |q| ==> ev.timeout.usec < q[j].timeout.usec
    {
      if ev.timeout.usec >= q[i - 1].timeout.usec {
        k := i;
        return k, Put(q, i, ev);
      }
      i := i - 1;
    }
    k, q' := 0, [ev] + q;
    assert q' == Put(q, 0, ev);
  }

  lemma PutOk(q: seq<Event>, k: nat, ev: Event)
    requires InOrder(q, k, ev) && Sorted(q) && NoDup(q) && ev !in q
    ensures Sorted(Put(q, k, ev)) && NoDup(Put(q, k, ev))
    ensures forall e :: e in Put(q, k, ev) <==> e in q || e == ev
  {
    hide Sorted, NoDup;
    PutSorted(q, k, ev);
    PutNoDup(q, k, ev);
    PutHas(q, k, ev);
  }

  lemma PutSorted(q: seq<Event>, k: nat, ev: Event)
    requires InOrder(q, k, ev) && Sorted(q)
    ensures Sorted(Put(q, k, ev))
  {
    var r := Put(q, k, ev);
    forall i, j | 0 <= i < j < |r|
      ensures r[i].timeout.usec <= r[j].timeout.usec
    {
      assert r[i] == if i < k then q[i] else if i == k then ev else q[i - 1];
      assert r[j] == if j < k then q[j] else if j == k then ev else q[j - 1];
    }
  }

  lemma PutNoDup(q: seq<Event>, k: nat, ev: Event)
    requires k <= |q| && NoDup(q) && ev !in q
    ensures NoDup(Put(q, k, ev))
  {
    var r := Put(q, k, ev);
    forall i, j | 0 <= i < j < |r|
      ensures r[i] != r[j]
    {
      assert r[i] == if i < k then q[i] else if i == k then ev else q[i - 1];
      assert r[j] == if j < k then q[j] else if j == k then ev else q[j - 1];
    }
  }

  lemma PutHas(q: seq<Event>, k: nat, ev: Event)
    requires k <= |q|
    ensures forall e :: e in Put(q, k, ev) <==> e in q || e == ev
  {
    assert q == q[..k] + q[k..];
  }

  lemma AppendedSize(qs: seq<seq<Event>>, i: nat, ev: Event)
    requires i < |qs|
    ensures |Appended(qs, i, ev)| == |qs|
  {
  }

  lemma SameSize(qs: seq<seq<Event>>, i: nat, ev: Event)
    requires i < |qs|
    ensures |Removed(qs, i, ev)| == |qs|
  {
  }

  lemma RemovedSorted(q: seq<Event>, ev: Event)
    requires NoDup(q) && Sorted(q) && ev in q
    ensures Sorted(Minus(q, {ev}))
  {
    var k :| 0 <= k < |q| && q[k] == ev;
    MinusOne(q, k);
  }

  twostate lemma SortedStays(q: seq<Event>)
    requires old(Sorted(q)) && forall e :: e in q ==> e.timeout == old(e.timeout)
    ensures Sorted(q)
  {
  }

  /** TAILQ_INSERT_TAIL on queue i. */
  function Appended(qs: seq<seq<Event>>, i: nat, ev: Event): seq<seq<Event>>
    requires i < |qs|
  {
    qs[i := qs[i] + [ev]]
  }

  /** TAILQ_REMOVE on queue i. */
  function Removed(qs: seq<seq<Event>>, i: nat, ev: Event): seq<seq<Event>>
    requires i < |qs|
  {
    qs[i := Minus(qs[i], {ev})]
  }

  lemma AppendedCounts(qs: seq<seq<Event>>, i: nat, ev: Event)
    requires i < |qs|
    ensures CountIn(Appended(qs, i, ev), Every()) == CountIn(qs, Every()) + 1
    ensures CountIn(Appended(qs, i, ev), Visible()) == CountIn(qs, Visible()) + Weight(ev)
  {
    hide CountIn, Count;
    CountInUpdate(qs, i, qs[i] + [ev], Every());
    CountInUpdate(qs, i, qs[i] + [ev], Visible());
    CountJoin(qs[i], [ev], Every());
    CountJoin(qs[i], [ev], Visible());
    CountOne(ev, Every());
    CountOne(ev, Visible());
  }

  lemma AppendedHas(qs: seq<seq<Event>>, i: nat, ev: Event)
    requires i < |qs|
    ensures var qs' := Appended(qs, i, ev);
            && |qs'| == |qs|
            && (forall p, e :: 0 <= p < |qs| ==> (e in qs'[p] <==> e in qs[p] || (p == i && e == ev)))
            && (ev !in qs[i] ==> forall p :: 0 <= p < |qs| && NoDup(qs[p]) ==> NoDup(qs'[p]))
  {
  }

  lemma RemovedCounts(qs: seq<seq<Event>>, i: nat, ev: Event)
    requires i < |qs| && NoDup(qs[i]) && ev in qs[i]
    ensures CountIn(Removed(qs, i, ev), Every()) == CountIn(qs, Every()) - 1
    ensures CountIn(Removed(qs, i, ev), Visible()) == CountIn(qs, Visible()) - Weight(ev)
  {
    hide CountIn, Count;
    CountInUpdate(qs, i, Minus(qs[i], {ev}), Every());
    CountInUpdate(qs, i, Minus(qs[i], {ev}), Visible());
    CountRemove(qs[i], ev, Every());
    CountRemove(qs[i], ev, Visible());
  }

  lemma RemovedHas(qs: seq<seq<Event>>, i: nat, ev: Event)
    requires i < |qs|
    ensures var qs' := Removed(qs, i, ev);
            && |qs'| == |qs|
            && (forall p, e :: 0 <= p < |qs| ==> (e in qs'[p] <==> e in qs[p] && !(p == i && e == ev)))
            && (forall p :: 0 <= p < |qs| && NoDup(qs[p]) ==> NoDup(qs'[p]))
  {
    MinusHas(qs[i], {ev});
    if NoDup(qs[i]) {
      MinusNoDup(qs[i], {ev});
    }
  }

  // ----- the counters, as a function of the queues alone -----

  /** event_count_active is the number of active memberships, event_count that of all non-internal ones. */
  ghost predicate Balanced(active: seq<seq<Event>>, later: seq<Event>, heap: set<Event>, common: seq<seq<Event>>,
                           fds: set<Event>, count: int, countActive: int) {
    && countActive == CountIn(active, Every()) + |later|
    && count == Holding(fds, Visible()) + Holding(heap, Visible()) + CountIn(common, Visible())
                + CountIn(active, Visible()) + Count(later, Visible())
  }

  lemma BalancedFd(active: seq<seq<Event>>, later: seq<Event>, heap: set<Event>, common: seq<seq<Event>>,
                   fds: set<Event>, ev: Event, n: int, m: int)
    requires ev !in fds
    ensures Balanced(active, later, heap, common, fds, n, m)
      <==> Balanced(active, later, heap, common, fds + {ev}, n + Weight(ev), m)
  {
    HoldingPlus(fds, ev, Visible());
  }

  lemma BalancedHeap(active: seq<seq<Event>>, later: seq<Event>, heap: set<Event>, common: seq<seq<Event>>,
                     fds: set<Event>, ev: Event, n: int, m: int)
    requires ev !in heap
    ensures Balanced(active, later, heap, common, fds, n, m)
      <==> Balanced(active, later, heap + {ev}, common, fds, n + Weight(ev), m)
  {
    HoldingPlus(heap, ev, Visible());
  }

  lemma BalancedAppended(active: seq<seq<Event>>, i: nat, ev: Event, later: seq<Event>, heap: set<Event>,
                         common: seq<seq<Event>>, fds: set<Event>, n: int, m: int)
    requires i < |active| && Balanced(active, later, heap, common, fds, n, m)
    ensures Balanced(Appended(active, i, ev), later, heap, common, fds, n + Weight(ev), m + 1)
  {
    AppendedCounts(active, i, ev);
  }

  lemma BalancedRemoved(active: seq<seq<Event>>, i: nat, ev: Event, later: seq<Event>, heap: set<Event>,
                        common: seq<seq<Event>>, fds: set<Event>, n: int, m: int)
    requires i < |active| && NoDup(active[i]) && ev in active[i] && Balanced(active, later, heap, common, fds, n, m)
    ensures Balanced(Removed(active, i, ev), later, heap, common, fds, n - Weight(ev), m - 1)
  {
    RemovedCounts(active, i, ev);
  }

  lemma BalancedLater(active: seq<seq<Event>>, later: seq<Event>, ev: Event, heap: set<Event>,
                      common: seq<seq<Event>>, fds: set<Event>, n: int, m: int)
    requires Balanced(active, later, heap, common, fds, n, m)
    ensures Balanced(active, later + [ev], heap, common, fds, n + Weight(ev), m + 1)
  {
    CountJoin(later, [ev], Visible());
    CountOne(ev, Visible());
  }

  lemma BalancedNotLater(active: seq<seq<Event>>, later: seq<Event>, ev: Event, heap: set<Event>,
                         common: seq<seq<Event>>, fds: set<Event>, n: int, m: int)
    requires NoDup(later) && ev in later && Balanced(active, later, heap, common, fds, n, m)
    ensures Balanced(active, Minus(later, {ev}), heap, common, fds, n - Weight(ev), m - 1)
  {
    CountRemove(later, ev, Visible());
  }

  lemma BalancedPut(active: seq<seq<Event>>, later: seq<Event>, heap: set<Event>, common: seq<seq<Event>>,
                    i: nat, k: nat, ev: Event, fds: set<Event>, n: int, m: int)
    requires i < |common| && k <= |common[i]| && Balanced(active, later, heap, common, fds, n, m)
    ensures Balanced(active, later, heap, common[i := Put(common[i], k, ev)], fds, n + Weight(ev), m)
  {
    hide Count, CountIn;
    CountInsert(common[i], k, ev, Visible());
    CountInUpdate(common, i, Put(common[i], k, ev), Visible());
  }

  lemma BalancedNotCommon(active: seq<seq<Event>>, later: seq<Event>, heap: set<Event>, common: seq<seq<Event>>,
                          i: nat, ev: Event, fds: set<Event>, n: int, m: int)
    requires i < |common| && NoDup(common[i]) && ev in common[i] && Balanced(active, later, heap, common, fds, n, m)
    ensures Balanced(active, later, heap, Removed(common, i, ev), fds, n - Weight(ev), m)
  {
    RemovedCounts(common, i, ev);
  }

  lemma BalancedNewQueue(active: seq<seq<Event>>, later: seq<Event>, heap: set<Event>, common: seq<seq<Event>>,
                         fds: set<Event>, n: int, m: int)
    requires Balanced(active, later, heap, common, fds, n, m)
    ensures Balanced(active, later, heap, common + [[]], fds, n, m)
  {
    CountInMore(common, Visible());
  }
}
