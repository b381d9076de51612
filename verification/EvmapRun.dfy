/** Whole runs of adds, deletes and dispatches, against a reference that has no counters and no changelist. */
module EvmapRun {
  import opened Evmap

  datatype Op = AddEvent(ev: Event) | DelEvent(ev: Event) | DispatchNow

  /** Which events are registered on which descriptor. */
  type Registry = map<int, seq<Event>>

  function On(reg: Registry, fd: int): seq<Event> {
    if fd in reg then reg[fd] else []
  }

  /** No kind of event may be wanted more than 65535 times on one descriptor. */
  predicate Full(events: seq<Event>, ev: Event) {
    || (ev.wants.read && Count(events, ForRead) == 0xffff)
    || (ev.wants.write && Count(events, ForWrite) == 0xffff)
    || (ev.wants.close && Count(events, ForClose) == 0xffff)
  }

  /** What one operation does to the registry: an event is registered once, and negative descriptors are ignored. */
  function Step(reg: Registry, op: Op): Registry {
    match op
    case AddEvent(ev) =>
      if ev.fd < 0 || ev in On(reg, ev.fd) || Full(On(reg, ev.fd), ev) then reg
      else reg[ev.fd := [ev] + On(reg, ev.fd)]
    case DelEvent(ev) =>
      if ev.fd < 0 || ev !in On(reg, ev.fd) then reg else reg[ev.fd := Without(On(reg, ev.fd), ev)]
    case DispatchNow => reg
  }

  /** The kinds of event that some registered event wants. */
  ghost function Union(events: seq<Event>): Mask {
    Mask(exists e :: e in events && e.wants.read, exists e :: e in events && e.wants.write,
         exists e :: e in events && e.wants.close)
  }

  ghost function InterestOf(reg: Registry): map<int, Mask> {
    map fd | fd in reg && Union(reg[fd]).Any() :: Union(reg[fd])
  }

  /** The kernel's interest set at each dispatch of a run. */
  ghost function Trace(reg: Registry, ops: seq<Op>): seq<map<int, Mask>>
    decreases |ops|
  {
    if ops == [] then []
    else (if ops[0] == DispatchNow then [InterestOf(reg)] else []) + Trace(Step(reg, ops[0]), ops[1..])
  }

  lemma {:induction false} CountUnion(events: seq<Event>, kind: Kind)
    ensures Count(events, kind) > 0 <==> exists e :: e in events && kind.In(e.wants)
  {
    if events != [] {
      CountUnion(events[1..], kind);
      if exists e :: e in events && kind.In(e.wants) {
        var e :| e in events && kind.In(e.wants);
        assert e == events[0] || e in events[1..];
      }
      if Count(events, kind) > 0 && !kind.In(events[0].wants) {
        var e :| e in events[1..] && kind.In(e.wants);
        assert e in events;
      }
    }
  }

  lemma WantedIsUnion(fd: int, info: FdInfo)
    requires Counted(fd, info)
    ensures info.Wanted() == Union(info.events)
  {
    CountUnion(info.events, ForRead);
    CountUnion(info.events, ForWrite);
    CountUnion(info.events, ForClose);
    assert forall e: Event :: ForRead.In(e.wants) <==> e.wants.read;
    assert forall e: Event :: ForWrite.In(e.wants) <==> e.wants.write;
    assert forall e: Event :: ForClose.In(e.wants) <==> e.wants.close;
  }

  /** The map lists exactly the registered events. */
  ghost predicate Lists(io: map<int, FdInfo>, reg: Registry) {
    && (forall fd :: fd in io ==> fd >= 0 && io[fd].events == On(reg, fd))
    && (forall fd :: fd in reg && reg[fd] != [] ==> fd in io)
  }

  lemma SameInterest(io: map<int, FdInfo>, reg: Registry)
    requires Lists(io, reg) && forall fd :: fd in io ==> Counted(fd, io[fd])
    ensures Interest(io) == InterestOf(reg)
  {
    hide Counted, FdInfo.Wanted;
    forall fd
      ensures fd in Interest(io) <==> fd in InterestOf(reg)
      ensures fd in Interest(io) ==> Interest(io)[fd] == InterestOf(reg)[fd]
    {
      if fd in io {
        WantedIsUnion(fd, io[fd]);
      } else if fd in reg {
        assert reg[fd] == [] && !Union(reg[fd]).Any();
      }
    }
  }

  lemma AddLists(io: map<int, FdInfo>, io': map<int, FdInfo>, reg: Registry, ev: Event)
    requires Lists(io, reg) && ev.fd >= 0 && ev !in On(reg, ev.fd) && SameInfo(io', Added(io, ev).0)
    requires ev.fd in io ==> Counted(ev.fd, io[ev.fd])
    ensures Lists(io', Step(reg, AddEvent(ev)))
  {
    var next := Added(io, ev).0;
    assert forall fd :: fd in io' ==> io'[fd].events == next[fd].events;
  }

  lemma DelLists(io: map<int, FdInfo>, io': map<int, FdInfo>, reg: Registry, ev: Event)
    requires Lists(io, reg) && ev.fd in io && ev in io[ev.fd].events && Counted(ev.fd, io[ev.fd])
    requires SameInfo(io', Removed(io, ev).0)
    ensures Lists(io', Step(reg, DelEvent(ev)))
  {
    MinusCounted(io[ev.fd], ev);
    var next := Removed(io, ev).0;
    assert forall fd :: fd in io' ==> io'[fd].events == next[fd].events;
  }

  lemma SameLists(io: map<int, FdInfo>, io': map<int, FdInfo>, reg: Registry)
    requires Lists(io, reg) && SameInfo(io', io)
    ensures Lists(io', reg)
  {
  }

  lemma AllCounted(base: Base)
    requires base.Valid()
    ensures forall fd :: fd in base.io ==> Counted(fd, base.io[fd])
  {
    hide Counted, EffectiveIn, FdInfo.Wanted;
    assert forall fd :: fd in base.io ==> FdOk(base.io, base.changes, base.kernel, fd);
  }

  /** One operation, as the event layer issues it: an inserted event is not added again, nor an absent one deleted. */
  method Perform(base: Base, ghost reg: Registry, op: Op)
    requires base.Valid() && Lists(base.io, reg)
    modifies base
    ensures base.Valid() && Lists(base.io, Step(reg, op))
    ensures op == DispatchNow ==> base.kernel == InterestOf(reg)
  {
    hide Counted, EffectiveIn, FdInfo.Wanted, Lists, Added, Removed, Step, SameInfo, Indexed, Based, FdOk;
    AllCounted(base);
    ghost var io := base.io;
    match op {
    case AddEvent(ev) =>
      InsertedMeans(base.io, reg, ev);
      var inserted := ev.fd in base.io && ev in base.io[ev.fd].events;
      if inserted {
        return;
      }
      var _ := base.IoAdd(ev);
      if ev.fd >= 0 {
        AddLists(io, base.io, reg, ev);
      }
    case DelEvent(ev) =>
      InsertedMeans(base.io, reg, ev);
      var inserted := ev.fd in base.io && ev in base.io[ev.fd].events;
      if !inserted {
        return;
      }
      var _ := base.IoDel(ev);
      if ev.fd >= 0 {
        DelLists(io, base.io, reg, ev);
      }
    case DispatchNow =>
      base.Dispatch();
      SameLists(io, base.io, reg);
      AllCounted(base);
      SameInterest(base.io, reg);
      DispatchKeeps(reg);
    }
  }

  lemma DispatchKeeps(reg: Registry)
    ensures Step(reg, DispatchNow) == reg
  {
  }

  /** When an operation leaves the registry alone. */
  lemma InsertedMeans(io: map<int, FdInfo>, reg: Registry, ev: Event)
    requires Lists(io, reg)
    ensures var inserted := ev.fd in io && ev in io[ev.fd].events;
      && (inserted ==> ev.fd >= 0 && ev in On(reg, ev.fd) && Step(reg, AddEvent(ev)) == reg)
      && (!inserted ==> Step(reg, DelEvent(ev)) == reg)
      && (ev.fd < 0 ==> Step(reg, AddEvent(ev)) == reg && Step(reg, DelEvent(ev)) == reg)
      && (!inserted && ev.fd >= 0 ==> ev !in On(reg, ev.fd))
  {
  }

  /** Every run shows the kernel the reference interest sets, with the changelist or without it. */
  method Run(changelist: bool, ops: seq<Op>) returns (shown: seq<map<int, Mask>>)
    ensures shown == Trace(map[], ops)
  {
    hide Step, InterestOf, Trace, Lists, Base.Valid;
    var base := new Base(changelist);
    ghost var reg: Registry := map[];
    NothingListed();
    shown := [];
    var i := 0;
    assert ops[0..] == ops;
    while i < |ops|
      invariant 0 <= i <= |ops| && base.Valid() && Lists(base.io, reg) && fresh(base)
      invariant shown + Trace(reg, ops[i..]) == Trace(map[], ops)
    {
      TraceStep(shown, reg, ops, i);
      Perform(base, reg, ops[i]);
      if ops[i] == DispatchNow {
        shown := shown + [base.kernel];
      }
      reg := Step(reg, ops[i]);
      i := i + 1;
    }
    TraceEnd(shown, reg, ops[i..]);
  }

  lemma NothingListed()
    ensures Lists(map[], map[])
  {
  }

  lemma TraceStep(shown: seq<map<int, Mask>>, reg: Registry, ops: seq<Op>, i: nat)
    requires i < |ops|
    ensures shown + Trace(reg, ops[i..])
         == (if ops[i] == DispatchNow then shown + [InterestOf(reg)] else shown)
            + Trace(Step(reg, ops[i]), ops[i + 1..])
  {
    hide Step, InterestOf;
    assert ops[i..][1..] == ops[i + 1..];
  }

  lemma TraceEnd(shown: seq<map<int, Mask>>, reg: Registry, ops: seq<Op>)
    requires ops == []
    ensures shown + Trace(reg, ops) == shown
  {
  }
}
