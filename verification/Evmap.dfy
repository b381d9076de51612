/** Which events are wanted on which file descriptor, and how epoll learns about it
    (evmap.c, changelist-internal.h, epoll.c, epolltable-internal.h). */
module Evmap {

  /** A set of EV_READ, EV_WRITE and EV_CLOSED; also EPOLLIN, EPOLLOUT and EPOLLRDHUP. */
  datatype Mask = Mask(read: bool, write: bool, close: bool) {
    predicate Any() {
      read || write || close
    }
    predicate Within(m: Mask) {
      (read ==> m.read) && (write ==> m.write) && (close ==> m.close)
    }
    function Or(m: Mask): Mask {
      Mask(read || m.read, write || m.write, close || m.close)
    }
    function Minus(m: Mask): Mask {
      Mask(read && !m.read, write && !m.write, close && !m.close)
    }
  }

  const NONE: Mask := Mask(false, false, false)

  /** EV_CHANGE_ADD, EV_CHANGE_DEL, or neither. */
  datatype Change = Same | Add | Del {
    /** Whether the event is on afterwards. */
    function After(was: bool): bool {
      match this
      case Same => was
      case Add => true
      case Del => false
    }
  }

  /** struct event_change. */
  datatype FdChange = FdChange(fd: int, was: Mask, read: Change, write: Change, close: Change) {
    predicate Some(c: Change) {
      read == c || write == c || close == c
    }
    /** The events on the descriptor once the change is made. */
    function After(): Mask {
      Mask(read.After(was.read), write.After(was.write), close.After(was.close))
    }
    /** The entry after event_changelist_add_. */
    function AddTo(events: Mask): (r: FdChange)
      requires Sensible(this)
      ensures Sensible(r) && r.fd == fd && r.was == was && r.After() == After().Or(events)
    {
      FdChange(fd, was, if events.read then Add else read, if events.write then Add else write,
               if events.close then Add else close)
    }
    /** The entry after event_changelist_del_. */
    function DelFrom(events: Mask): (r: FdChange)
      requires Sensible(this)
      ensures Sensible(r) && r.fd == fd && r.was == was && r.After() == After().Minus(events)
    {
      FdChange(fd, was,
               if !events.read then read else if !was.read then Same else Del,
               if !events.write then write else if !was.write then Same else Del,
               if !events.close then close else if !was.close then Same else Del)
    }
    /** The events named by the deletions. */
    function Dels(): Mask {
      Mask(read == Del, write == Del, close == Del)
    }
  }

  // ----- the epoll operation table -----

  datatype EpollOp = Nothing | CtlAdd(events: Mask) | CtlMod(events: Mask) | CtlDel(events: Mask)

  /** The row of epoll_op_table for a change. */
  function OpFor(ch: FdChange): EpollOp {
    if ch.Some(Add) then
      if ch.was.Any() then CtlMod(ch.After()) else CtlAdd(ch.After())
    else if ch.Some(Del) then
      if ch.After().Any() then CtlMod(ch.After()) else CtlDel(ch.Dels())
    else
      Nothing
  }

  /** The interest set of one descriptor in the kernel. */
  function In(kernel: map<int, Mask>, fd: int): Mask {
    if fd in kernel then kernel[fd] else NONE
  }

  /** The kernel keeps no descriptor without events. */
  ghost predicate Tight(kernel: map<int, Mask>) {
    forall fd :: fd in kernel ==> kernel[fd].Any()
  }

  /** epoll_ctl succeeds: ADD on an absent descriptor, MOD and DEL on a present one. */
  predicate Accepted(kernel: map<int, Mask>, fd: int, op: EpollOp) {
    match op
    case Nothing => true
    case CtlAdd(m) => fd !in kernel && m.Any()
    case CtlMod(m) => fd in kernel && m.Any()
    case CtlDel(m) => fd in kernel
  }

  function EpollCtl(kernel: map<int, Mask>, fd: int, op: EpollOp): map<int, Mask> {
    match op
    case Nothing => kernel
    case CtlAdd(m) => kernel[fd := m]
    case CtlMod(m) => kernel[fd := m]
    case CtlDel(m) => kernel - {fd}
  }

  /** A change whose deletions are of events that are on. */
  predicate Sensible(ch: FdChange) {
    && (ch.read == Del ==> ch.was.read)
    && (ch.write == Del ==> ch.was.write)
    && (ch.close == Del ==> ch.was.close)
  }

  /** The table issues one accepted call that takes the kernel from the old mask to the new one. */
  lemma TableIsRight(kernel: map<int, Mask>, ch: FdChange)
    requires Tight(kernel) && In(kernel, ch.fd) == ch.was && Sensible(ch)
    ensures Accepted(kernel, ch.fd, OpFor(ch))
    ensures var k := EpollCtl(kernel, ch.fd, OpFor(ch));
      Tight(k) && In(k, ch.fd) == ch.After() && forall fd :: fd != ch.fd ==> In(k, fd) == In(kernel, fd)
  {
  }

  // ----- the map -----

  datatype Event = Event(id: nat, fd: int, wants: Mask)

  /** struct evmap_io, with the changelist slot that follows it in memory. */
  datatype FdInfo = FdInfo(nread: nat, nwrite: nat, nclose: nat, events: seq<Event>, idxplus1: nat) {
    function Wanted(): Mask {
      Mask(nread > 0, nwrite > 0, nclose > 0)
    }
    /** The kinds of event that an addition makes wanted for the first time. */
    function NewKinds(m: Mask): Mask {
      Mask(m.read && nread + 1 == 1, m.write && nwrite + 1 == 1, m.close && nclose + 1 == 1)
    }
    /** The kinds of event that a deletion leaves unwanted. */
    function LostKinds(m: Mask): Mask {
      Mask(m.read && nread - 1 == 0, m.write && nwrite - 1 == 0, m.close && nclose - 1 == 0)
    }
    /** The counters after a deletion; the source asserts that none goes below zero. */
    function MinusEvent(ev: Event): FdInfo
      requires (ev.wants.read ==> nread > 0) && (ev.wants.write ==> nwrite > 0) && (ev.wants.close ==> nclose > 0)
    {
      FdInfo(if ev.wants.read then nread - 1 else nread, if ev.wants.write then nwrite - 1 else nwrite,
             if ev.wants.close then nclose - 1 else nclose, Without(events, ev), idxplus1)
    }
    function Plus(ev: Event): FdInfo {
      FdInfo(if ev.wants.read then nread + 1 else nread, if ev.wants.write then nwrite + 1 else nwrite,
             if ev.wants.close then nclose + 1 else nclose, [ev] + events, idxplus1)
    }
  }

  const FRESH: FdInfo := FdInfo(0, 0, 0, [], 0)

  datatype Kind = ForRead | ForWrite | ForClose {
    predicate In(m: Mask) {
      match this
      case ForRead => m.read
      case ForWrite => m.write
      case ForClose => m.close
    }
  }

  function Count(events: seq<Event>, kind: Kind): nat {
    if events == [] then 0 else (if kind.In(events[0].wants) then 1 else 0) + Count(events[1..], kind)
  }

  /** What evmap_io_check_integrity_fn checks: the counters count the listed events. */
  ghost predicate Counted(fd: int, info: FdInfo) {
    && info.nread == Count(info.events, ForRead) <= 0xffff
    && info.nwrite == Count(info.events, ForWrite) <= 0xffff
    && info.nclose == Count(info.events, ForClose) <= 0xffff
    && forall i :: 0 <= i < |info.events| ==> info.events[i].fd == fd
  }

  /** The list without its first occurrence of an event (LIST_REMOVE). */
  function Without(events: seq<Event>, ev: Event): seq<Event> {
    if events == [] then [] else if events[0] == ev then events[1..] else [events[0]] + Without(events[1..], ev)
  }

  lemma {:induction false} CountWithout(events: seq<Event>, ev: Event, kind: Kind)
    requires ev in events
    ensures Count(Without(events, ev), kind) == Count(events, kind) - (if kind.In(ev.wants) then 1 else 0)
    ensures forall e :: e in Without(events, ev) ==> e in events
  {
    if events[0] != ev {
      CountWithout(events[1..], ev, kind);
      var rest := Without(events[1..], ev);
      assert ([events[0]] + rest)[1..] == rest;
    }
  }

  /** What evmap_io_add_ does to the map, and what it returns. */
  function Added(io: map<int, FdInfo>, ev: Event): (map<int, FdInfo>, int) {
    var io' := if ev.fd in io then io else io[ev.fd := FRESH];
    var next := io'[ev.fd].Plus(ev);
    if next.nread > 0xffff || next.nwrite > 0xffff || next.nclose > 0xffff then (io', -1)
    else (io'[ev.fd := next], if io'[ev.fd].NewKinds(ev.wants).Any() then 1 else 0)
  }

  /** What evmap_io_del_ does to the map, and what it returns. */
  ghost function Removed(io: map<int, FdInfo>, ev: Event): (map<int, FdInfo>, int)
    requires ev.fd in io && Counted(ev.fd, io[ev.fd]) && ev in io[ev.fd].events
  {
    MinusCounted(io[ev.fd], ev);
    (io[ev.fd := io[ev.fd].MinusEvent(ev)], if io[ev.fd].LostKinds(ev.wants).Any() then 1 else 0)
  }

  lemma {:induction false} CountMember(events: seq<Event>, ev: Event, kind: Kind)
    requires ev in events && kind.In(ev.wants)
    ensures Count(events, kind) > 0
  {
    if events[0] != ev {
      CountMember(events[1..], ev, kind);
    }
  }

  /** The counters of the kinds an inserted event wants are positive, so none goes below zero. */
  lemma MinusPositive(info: FdInfo, ev: Event)
    requires Counted(ev.fd, info) && ev in info.events
    ensures (ev.wants.read ==> info.nread > 0) && (ev.wants.write ==> info.nwrite > 0)
    ensures ev.wants.close ==> info.nclose > 0
  {
    if ev.wants.read {
      CountMember(info.events, ev, ForRead);
    }
    if ev.wants.write {
      CountMember(info.events, ev, ForWrite);
    }
    if ev.wants.close {
      CountMember(info.events, ev, ForClose);
    }
  }

  lemma MinusCounted(info: FdInfo, ev: Event)
    requires Counted(ev.fd, info) && ev in info.events
    ensures (ev.wants.read ==> info.nread > 0) && (ev.wants.write ==> info.nwrite > 0)
    ensures ev.wants.close ==> info.nclose > 0
    ensures forall i :: Counted(ev.fd, info.MinusEvent(ev).(idxplus1 := i))
    ensures forall i :: info.MinusEvent(ev).(idxplus1 := i).Wanted() == info.Wanted().Minus(info.LostKinds(ev.wants))
    ensures !info.LostKinds(ev.wants).Any() ==> info.Wanted().Minus(info.LostKinds(ev.wants)) == info.Wanted()
    ensures info.LostKinds(ev.wants).Within(info.Wanted())
  {
    MinusPositive(info, ev);
    CountWithout(info.events, ev, ForRead);
    CountWithout(info.events, ev, ForWrite);
    CountWithout(info.events, ev, ForClose);
    assert forall e :: e in info.events ==> e.fd == ev.fd;
    var rest := Without(info.events, ev);
    assert forall i :: 0 <= i < |rest| ==> rest[i] in rest && rest[i].fd == ev.fd;
  }

  // ----- what the results mean -----

  /** Some listed event wants this kind. */
  ghost predicate Wants(io: map<int, FdInfo>, fd: int, kind: Kind) {
    fd in io && exists e :: e in io[fd].events && kind.In(e.wants)
  }

  lemma {:induction false} WantsIsCount(events: seq<Event>, kind: Kind)
    ensures Count(events, kind) > 0 <==> exists e :: e in events && kind.In(e.wants)
  {
    if events != [] {
      WantsIsCount(events[1..], kind);
      if kind.In(events[0].wants) {
        assert events[0] in events;
      } else if Count(events, kind) > 0 {
        var e :| e in events[1..] && kind.In(e.wants);
        assert e in events;
      }
    }
  }

  lemma CountedWants(io: map<int, FdInfo>, fd: int)
    requires fd in io && Counted(fd, io[fd])
    ensures io[fd].nread > 0 <==> Wants(io, fd, ForRead)
    ensures io[fd].nwrite > 0 <==> Wants(io, fd, ForWrite)
    ensures io[fd].nclose > 0 <==> Wants(io, fd, ForClose)
  {
    WantsIsCount(io[fd].events, ForRead);
    WantsIsCount(io[fd].events, ForWrite);
    WantsIsCount(io[fd].events, ForClose);
  }

  /** Adding fails just when one of the counters is full, and otherwise tells whether anything is wanted of the
      descriptor that was not wanted before. */
  lemma AddedResult(io: map<int, FdInfo>, ev: Event)
    requires ev.fd in io ==> Counted(ev.fd, io[ev.fd])
    ensures var (io', r) := Added(io, ev);
      && (r == -1 <==> exists kind: Kind :: kind.In(ev.wants) && ev.fd in io && Count(io[ev.fd].events, kind) == 0xffff)
      && (r != -1 ==> r == if exists kind :: Wants(io', ev.fd, kind) != Wants(io, ev.fd, kind) then 1 else 0)
  {
    hide Counted;
    var start := if ev.fd in io then io else io[ev.fd := FRESH];
    FreshCounted(ev.fd);
    CountedWants(start, ev.fd);
    CountsAre(start[ev.fd], ev.fd);
    var (io', r) := Added(io, ev);
    if r != -1 {
      PlusCounted(start[ev.fd], ev);
      CountedWants(io', ev.fd);
      assert forall kind :: Wants(start, ev.fd, kind) == Wants(io, ev.fd, kind);
      assert r == 1 ==> Wants(io', ev.fd, ForRead) != Wants(io, ev.fd, ForRead)
                        || Wants(io', ev.fd, ForWrite) != Wants(io, ev.fd, ForWrite)
                        || Wants(io', ev.fd, ForClose) != Wants(io, ev.fd, ForClose);
    } else {
      assert ev.fd in io;
      assert (ForRead.In(ev.wants) && Count(io[ev.fd].events, ForRead) == 0xffff)
          || (ForWrite.In(ev.wants) && Count(io[ev.fd].events, ForWrite) == 0xffff)
          || (ForClose.In(ev.wants) && Count(io[ev.fd].events, ForClose) == 0xffff);
    }
  }

  lemma FreshCounted(fd: int)
    ensures Counted(fd, FRESH)
  {
  }

  lemma CountsAre(info: FdInfo, fd: int)
    requires Counted(fd, info)
    ensures info.nread == Count(info.events, ForRead) <= 0xffff
    ensures info.nwrite == Count(info.events, ForWrite) <= 0xffff
    ensures info.nclose == Count(info.events, ForClose) <= 0xffff
  {
  }

  /** The same for what is no longer wanted after deleting. */
  lemma RemovedResult(io: map<int, FdInfo>, ev: Event)
    requires ev.fd in io && Counted(ev.fd, io[ev.fd]) && ev in io[ev.fd].events
    ensures var (io', r) := Removed(io, ev);
      r == if exists kind :: Wants(io', ev.fd, kind) != Wants(io, ev.fd, kind) then 1 else 0
  {
    hide Counted;
    var (io', r) := Removed(io, ev);
    MinusCounted(io[ev.fd], ev);
    assert io[ev.fd].MinusEvent(ev).(idxplus1 := io[ev.fd].MinusEvent(ev).idxplus1) == io[ev.fd].MinusEvent(ev);
    CountedWants(io, ev.fd);
    CountedWants(io', ev.fd);
    assert r == 1 ==> Wants(io', ev.fd, ForRead) != Wants(io, ev.fd, ForRead)
                      || Wants(io', ev.fd, ForWrite) != Wants(io, ev.fd, ForWrite)
                      || Wants(io', ev.fd, ForClose) != Wants(io, ev.fd, ForClose);
  }

  lemma BasedParts(io: map<int, FdInfo>, changes: seq<FdChange>, kernel: map<int, Mask>)
    requires Indexed(io, changes) && Based(io, changes, kernel)
    ensures Tight(kernel)
    ensures (forall i :: 0 <= i < |changes| ==> Sensible(changes[i]) && In(kernel, changes[i].fd) == changes[i].was)
    ensures forall i, j :: 0 <= i < j < |changes| ==> changes[i].fd != changes[j].fd
    ensures forall i :: 0 <= i < |changes| ==> changes[i].fd in io
    ensures forall fd :: fd in kernel ==> fd in io
  {
    forall i, j | 0 <= i < j < |changes|
      ensures changes[i].fd != changes[j].fd
    {
      assert io[changes[i].fd].idxplus1 == i + 1 && io[changes[j].fd].idxplus1 == j + 1;
    }
  }

  /** A kernel that differs only on the changed descriptors knows no others. */
  lemma KernelKnown(io: map<int, FdInfo>, changes: seq<FdChange>, kernel: map<int, Mask>, k: map<int, Mask>)
    requires Tight(kernel) && Tight(k)
    requires (forall i :: 0 <= i < |changes| ==> changes[i].fd in io) && forall fd :: fd in kernel ==> fd in io
    requires forall fd :: (forall i :: 0 <= i < |changes| ==> changes[i].fd != fd) ==> In(k, fd) == In(kernel, fd)
    ensures forall fd :: fd in k ==> fd in io
  {
    forall fd | fd in k
      ensures fd in io
    {
      if forall i :: 0 <= i < |changes| ==> changes[i].fd != fd {
        assert In(k, fd) == In(kernel, fd) && In(k, fd).Any();
      }
    }
  }

  /** Two maps that differ at most in where the changelist entries are. */
  ghost predicate SameInfo(a: map<int, FdInfo>, b: map<int, FdInfo>) {
    a.Keys == b.Keys && forall fd :: fd in a ==> a[fd] == b[fd].(idxplus1 := a[fd].idxplus1)
  }

  /** event_changelist_assert_ok: entries and `idxplus1` point at each other. */
  ghost predicate Indexed(io: map<int, FdInfo>, changes: seq<FdChange>) {
    && (forall i :: 0 <= i < |changes| ==> changes[i].fd in io && io[changes[i].fd].idxplus1 == i + 1)
    && (forall fd :: fd in io && io[fd].idxplus1 > 0 ==>
          io[fd].idxplus1 <= |changes| && changes[io[fd].idxplus1 - 1].fd == fd)
  }

  /** Every pending change starts from what the kernel has. */
  ghost predicate Based(io: map<int, FdInfo>, changes: seq<FdChange>, kernel: map<int, Mask>) {
    && Tight(kernel)
    && (forall fd :: fd in kernel ==> fd in io)
    && (forall i :: 0 <= i < |changes| ==> Sensible(changes[i]) && In(kernel, changes[i].fd) == changes[i].was)
  }

  ghost function EffectiveIn(io: map<int, FdInfo>, changes: seq<FdChange>, kernel: map<int, Mask>, fd: int): Mask {
    if fd in io && 0 < io[fd].idxplus1 <= |changes| then changes[io[fd].idxplus1 - 1].After() else In(kernel, fd)
  }

  /** The counters are right, and the kernel will agree with them. */
  ghost predicate FdOk(io: map<int, FdInfo>, changes: seq<FdChange>, kernel: map<int, Mask>, fd: int)
    requires fd in io
  {
    Counted(fd, io[fd]) && EffectiveIn(io, changes, kernel, fd) == io[fd].Wanted()
  }

  /** The map and the changelist after an entry that changes nothing was appended. */
  ghost function Marked(io: map<int, FdInfo>, fd: int, n: nat): map<int, FdInfo>
    requires fd in io
  {
    io[fd := io[fd].(idxplus1 := n + 1)]
  }

  ghost function WithEntry(changes: seq<FdChange>, fd: int, was: Mask): seq<FdChange> {
    changes + [FdChange(fd, was, Same, Same, Same)]
  }

  lemma NewEntryLinked(io: map<int, FdInfo>, changes: seq<FdChange>, kernel: map<int, Mask>, fd: int)
    requires Indexed(io, changes) && Based(io, changes, kernel) && fd in io && io[fd].idxplus1 == 0
    ensures var io', changes' := Marked(io, fd, |changes|), WithEntry(changes, fd, In(kernel, fd));
      && Indexed(io', changes') && Based(io', changes', kernel) && SameInfo(io', io)
      && forall f :: f in io ==> EffectiveIn(io', changes', kernel, f) == EffectiveIn(io, changes, kernel, f)
  {
    hide Indexed, Based, EffectiveIn, Marked, WithEntry;
    NewEntryIndexed(io, changes, fd, In(kernel, fd));
    NewEntryBased(io, changes, kernel, fd);
    NewEntrySame(io, fd, |changes|);
    forall f | f in io
      ensures EffectiveIn(Marked(io, fd, |changes|), WithEntry(changes, fd, In(kernel, fd)), kernel, f)
        == EffectiveIn(io, changes, kernel, f)
    {
      NewEntryEffective(io, changes, kernel, fd, f);
    }
  }

  lemma NewEntryIndexed(io: map<int, FdInfo>, changes: seq<FdChange>, fd: int, was: Mask)
    requires Indexed(io, changes) && fd in io && io[fd].idxplus1 == 0
    ensures Indexed(Marked(io, fd, |changes|), WithEntry(changes, fd, was))
  {
  }

  lemma NewEntryBased(io: map<int, FdInfo>, changes: seq<FdChange>, kernel: map<int, Mask>, fd: int)
    requires Based(io, changes, kernel) && fd in io
    ensures Based(Marked(io, fd, |changes|), WithEntry(changes, fd, In(kernel, fd)), kernel)
  {
    hide In, Tight;
  }

  lemma NewEntrySame(io: map<int, FdInfo>, fd: int, n: nat)
    requires fd in io
    ensures SameInfo(Marked(io, fd, n), io)
  {
  }

  lemma NewEntryEffective(io: map<int, FdInfo>, changes: seq<FdChange>, kernel: map<int, Mask>, fd: int, f: int)
    requires Indexed(io, changes) && fd in io && io[fd].idxplus1 == 0 && f in io
    ensures EffectiveIn(Marked(io, fd, |changes|), WithEntry(changes, fd, In(kernel, fd)), kernel, f)
        == EffectiveIn(io, changes, kernel, f)
  {
    hide In;
  }

  lemma SetEntryLinked(io: map<int, FdInfo>, changes: seq<FdChange>, kernel: map<int, Mask>, idx: nat, ch: FdChange)
    requires Indexed(io, changes) && Based(io, changes, kernel) && idx < |changes|
    requires ch.fd == changes[idx].fd && ch.was == changes[idx].was && Sensible(ch)
    ensures var changes' := changes[idx := ch];
      && Indexed(io, changes') && Based(io, changes', kernel)
      && EffectiveIn(io, changes', kernel, ch.fd) == ch.After()
      && forall f :: f in io && f != ch.fd ==>
        EffectiveIn(io, changes', kernel, f) == EffectiveIn(io, changes, kernel, f)
  {
    hide Sensible;
    var changes' := changes[idx := ch];
    forall f | f in io && f != ch.fd
      ensures EffectiveIn(io, changes', kernel, f) == EffectiveIn(io, changes, kernel, f)
    {
    }
  }

  /** A descriptor seen for the first time. */
  lemma SlotLinked(io: map<int, FdInfo>, changes: seq<FdChange>, kernel: map<int, Mask>, fd: int)
    requires Indexed(io, changes) && Based(io, changes, kernel) && fd !in io
    requires forall f :: f in io ==> FdOk(io, changes, kernel, f)
    ensures var io' := io[fd := FRESH];
      && Indexed(io', changes) && Based(io', changes, kernel)
      && forall f :: f in io' ==> FdOk(io', changes, kernel, f)
  {
    hide Sensible;
    var io' := io[fd := FRESH];
    forall f | f in io'
      ensures FdOk(io', changes, kernel, f)
    {
      if f != fd {
        assert FdOk(io, changes, kernel, f);
      }
    }
  }

  /** New counters that match the mask the backend was told. */
  lemma SetInfoLinked(io: map<int, FdInfo>, before: map<int, FdInfo>, changes: seq<FdChange>, kernel: map<int, Mask>,
                      fd: int, info: FdInfo)
    requires Indexed(io, changes) && Based(io, changes, kernel) && fd in io && info.idxplus1 == io[fd].idxplus1
    requires Counted(fd, info) && EffectiveIn(io, changes, kernel, fd) == info.Wanted() && SameInfo(io, before)
    requires forall f :: f in io && f != fd ==>
      Counted(f, before[f]) && EffectiveIn(io, changes, kernel, f) == before[f].Wanted()
    ensures var io' := io[fd := info];
      && Indexed(io', changes) && Based(io', changes, kernel) && SameInfo(io', before[fd := info])
      && forall f :: f in io' ==> FdOk(io', changes, kernel, f)
  {
    hide Sensible, Counted, FdInfo.Wanted, FdChange.After;
    var io' := io[fd := info];
    SetInfoIndexed(io, changes, kernel, fd, info);
    forall f | f in io'
      ensures FdOk(io', changes, kernel, f)
    {
      if f != fd {
        SameInfoAt(io, before, f);
      }
    }
  }

  lemma SetInfoIndexed(io: map<int, FdInfo>, changes: seq<FdChange>, kernel: map<int, Mask>, fd: int, info: FdInfo)
    requires Indexed(io, changes) && Based(io, changes, kernel) && fd in io && info.idxplus1 == io[fd].idxplus1
    ensures Indexed(io[fd := info], changes) && Based(io[fd := info], changes, kernel)
    ensures forall f :: EffectiveIn(io[fd := info], changes, kernel, f) == EffectiveIn(io, changes, kernel, f)
  {
    hide Sensible, Tight, FdChange.After;
    var io' := io[fd := info];
    assert forall f :: f in io' <==> f in io;
    assert forall f :: f in io ==> io'[f].idxplus1 == io[f].idxplus1;
  }

  lemma SameInfoAt(a: map<int, FdInfo>, b: map<int, FdInfo>, f: int)
    requires SameInfo(a, b) && f in a
    ensures f in b && a[f].Wanted() == b[f].Wanted() && (Counted(f, b[f]) ==> Counted(f, a[f]))
  {
  }

  class Base {
    /** Whether epoll runs with the changelist (EPOLL_BASE_FLAG_USE_CHANGELIST). */
    const changelist: bool
    var io: map<int, FdInfo>
    var changes: seq<FdChange>
    var changesSize: nat
    var kernel: map<int, Mask>

    ghost predicate Linked()
      reads this
    {
      |changes| <= changesSize && Indexed(io, changes) && Based(io, changes, kernel) && (!changelist ==> changes == [])
    }

    /** The mask the kernel will have for a descriptor once the changelist is applied. */
    ghost function Effective(fd: int): Mask
      reads this
    {
      EffectiveIn(io, changes, kernel, fd)
    }

    ghost predicate Valid()
      reads this
    {
      Linked() && forall fd :: fd in io ==> FdOk(io, changes, kernel, fd)
    }

    constructor (changelist: bool)
      ensures Valid() && this.changelist == changelist && io == map[] && kernel == map[]
    {
      this.changelist := changelist;
      io, changes, changesSize, kernel := map[], [], 0, map[];
    }

    /** event_changelist_grow. */
    method Grow()
      requires |changes| <= changesSize
      modifies `changesSize
      ensures changesSize > |changes|
    {
      changesSize := if changesSize < 64 then 64 else changesSize * 2;
    }

    /** Appends an entry that changes nothing. */
    method NewEntry(fd: int, was: Mask)
      requires Linked() && changelist && fd in io && io[fd].idxplus1 == 0
      requires In(kernel, fd) == was && |changes| < changesSize
      modifies `io, `changes
      ensures Linked() && SameInfo(io, old(io))
      ensures changes == old(changes) + [FdChange(fd, was, Same, Same, Same)]
      ensures forall f :: f in io && f != fd ==> io[f] == old(io)[f]
      ensures forall f :: f in io ==> Effective(f) == old(Effective(f))
    {
      hide Indexed, Based, EffectiveIn;
      NewEntryLinked(io, changes, kernel, fd);
      io := io[fd := io[fd].(idxplus1 := |changes| + 1)];
      changes := changes + [FdChange(fd, was, Same, Same, Same)];
    }

    /** event_changelist_get_or_construct: where the entry of a descriptor is; a new one changes nothing. */
    method GetOrConstruct(fd: int, was: Mask) returns (idx: nat)
      requires Linked() && changelist && fd in io
      requires io[fd].idxplus1 == 0 ==> In(kernel, fd) == was
      modifies `io, `changes, `changesSize
      ensures Linked() && idx < |changes| && changes[idx].fd == fd
      ensures SameInfo(io, old(io)) && forall f :: f in io && f != fd ==> io[f] == old(io)[f]
      ensures forall f :: f in io ==> Effective(f) == old(Effective(f))
    {
      if io[fd].idxplus1 == 0 {
        if |changes| == changesSize {
          Grow();
        }
        idx := |changes|;
        NewEntry(fd, was);
      } else {
        idx := io[fd].idxplus1 - 1;
      }
    }

    /** Overwrites the entry of a descriptor. */
    method SetEntry(idx: nat, ch: FdChange)
      requires Linked() && changelist && idx < |changes|
      requires ch.fd == changes[idx].fd && ch.was == changes[idx].was && Sensible(ch)
      modifies `changes
      ensures Linked()
      ensures Effective(ch.fd) == ch.After()
      ensures forall f :: f in io && f != ch.fd ==> Effective(f) == old(Effective(f))
    {
      hide Indexed, Based, EffectiveIn;
      SetEntryLinked(io, changes, kernel, idx, ch);
      changes := changes[idx := ch];
    }

    /** event_changelist_add_: an add replaces an earlier delete. */
    method ChangelistAdd(fd: int, was: Mask, events: Mask)
      requires Linked() && changelist && fd in io
      requires io[fd].idxplus1 == 0 ==> In(kernel, fd) == was
      modifies `io, `changes, `changesSize
      ensures Linked()
      ensures SameInfo(io, old(io)) && forall f :: f in io && f != fd ==> io[f] == old(io)[f]
      ensures Effective(fd) == old(Effective(fd)).Or(events)
      ensures forall f :: f in io && f != fd ==> Effective(f) == old(Effective(f))
    {
      hide Indexed, Based, EffectiveIn, FdChange.AddTo, FdChange.DelFrom, Sensible, In;
      var idx := GetOrConstruct(fd, was);
      EntryIs(fd, idx);
      SetEntry(idx, changes[idx].AddTo(events));
    }

    /** event_changelist_del_: a delete of an event that is not on cancels an earlier add. */
    method ChangelistDel(fd: int, was: Mask, events: Mask)
      requires Linked() && changelist && fd in io
      requires io[fd].idxplus1 == 0 ==> In(kernel, fd) == was
      modifies `io, `changes, `changesSize
      ensures Linked()
      ensures SameInfo(io, old(io))
      ensures Effective(fd) == old(Effective(fd)).Minus(events)
      ensures forall f :: f in io && f != fd ==> Effective(f) == old(Effective(f))
    {
      hide Indexed, Based, EffectiveIn, FdChange.AddTo, FdChange.DelFrom, Sensible, In;
      var idx := GetOrConstruct(fd, was);
      EntryIs(fd, idx);
      SetEntry(idx, changes[idx].DelFrom(events));
    }

    lemma EntryIs(fd: int, idx: nat)
      requires Linked() && idx < |changes| && changes[idx].fd == fd
      ensures Sensible(changes[idx]) && Effective(fd) == changes[idx].After()
    {
    }

    /** epoll_apply_one_change: one system call, which the kernel accepts. */
    method ApplyOneChange(ch: FdChange)
      requires Tight(kernel) && In(kernel, ch.fd) == ch.was && Sensible(ch)
      modifies `kernel
      ensures Accepted(old(kernel), ch.fd, OpFor(ch)) && kernel == EpollCtl(old(kernel), ch.fd, OpFor(ch))
      ensures Tight(kernel) && In(kernel, ch.fd) == ch.After()
      ensures forall fd :: fd != ch.fd ==> In(kernel, fd) == old(In(kernel, fd))
    {
      TableIsRight(kernel, ch);
      kernel := EpollCtl(kernel, ch.fd, OpFor(ch));
    }

    /** epoll_nochangelist_add. */
    method NochangelistAdd(fd: int, was: Mask, events: Mask)
      requires Linked() && !changelist && fd in io && In(kernel, fd) == was
      modifies `kernel
      ensures Linked()
      ensures Effective(fd) == old(Effective(fd)).Or(events)
      ensures forall f :: f in io && f != fd ==> Effective(f) == old(Effective(f))
    {
      ApplyOneChange(FdChange(fd, was, Same, Same, Same).AddTo(events));
    }

    /** epoll_nochangelist_del. */
    method NochangelistDel(fd: int, was: Mask, events: Mask)
      requires Linked() && !changelist && fd in io && In(kernel, fd) == was && events.Within(was)
      modifies `kernel
      ensures Linked()
      ensures Effective(fd) == old(Effective(fd)).Minus(events)
      ensures forall f :: f in io && f != fd ==> Effective(f) == old(Effective(f))
    {
      ApplyOneChange(FdChange(fd, was, if events.read then Del else Same, if events.write then Del else Same,
                              if events.close then Del else Same));
    }

    /** The backend's `add`: evsel->add. */
    method BackendAdd(fd: int, events: Mask)
      requires Linked() && fd in io
      requires Effective(fd) == io[fd].Wanted()
      modifies `io, `changes, `changesSize, `kernel
      ensures Linked() && SameInfo(io, old(io))
      ensures Effective(fd) == old(Effective(fd)).Or(events)
      ensures forall f :: f in io && f != fd ==> Effective(f) == old(Effective(f))
    {
      var was := io[fd].Wanted();
      if changelist {
        ChangelistAdd(fd, was, events);
      } else {
        NochangelistAdd(fd, was, events);
      }
    }

    /** The backend's `del`: evsel->del. */
    method BackendDel(fd: int, events: Mask)
      requires Linked() && fd in io
      requires Effective(fd) == io[fd].Wanted() && events.Within(io[fd].Wanted())
      modifies `io, `changes, `changesSize, `kernel
      ensures Linked() && SameInfo(io, old(io))
      ensures Effective(fd) == old(Effective(fd)).Minus(events)
      ensures forall f :: f in io && f != fd ==> Effective(f) == old(Effective(f))
    {
      var was := io[fd].Wanted();
      if changelist {
        ChangelistDel(fd, was, events);
      } else {
        NochangelistDel(fd, was, events);
      }
    }

    /** GET_IO_SLOT_AND_CTOR. */
    method EnsureSlot(fd: int)
      requires Valid()
      modifies `io
      ensures Valid() && fd in io && io == if fd in old(io) then old(io) else old(io)[fd := FRESH]
    {
      hide Indexed, Based, FdOk;
      if fd !in io {
        SlotLinked(io, changes, kernel, fd);
        io := io[fd := FRESH];
      }
    }

    /** evmap_io_add_: tells the backend only about kinds of event that nobody wanted before. */
    method IoAdd(ev: Event) returns (r: int)
      requires Valid() && (ev.fd in io ==> ev !in io[ev.fd].events)
      modifies this
      ensures Valid()
      ensures ev.fd < 0 ==> r == 0 && io == old(io) && kernel == old(kernel) && changes == old(changes)
      ensures ev.fd >= 0 ==> SameInfo(io, Added(old(io), ev).0) && r == Added(old(io), ev).1
    {
      hide Indexed, Based, EffectiveIn, Counted, FdInfo.Plus, FdInfo.NewKinds, FdInfo.Wanted;
      if ev.fd < 0 {
        return 0;
      }
      EnsureSlot(ev.fd);
      ghost var before := io;
      var ctx := io[ev.fd];
      var res := ctx.NewKinds(ev.wants);
      var next := ctx.Plus(ev);
      if next.nread > 0xffff || next.nwrite > 0xffff || next.nclose > 0xffff {
        return -1;
      }
      PlusCounted(ctx, ev);
      r := 0;
      if res.Any() {
        BackendAdd(ev.fd, res);
        r := 1;
      }
      SetInfo(ev.fd, next.(idxplus1 := io[ev.fd].idxplus1), before);
    }

    /** evmap_io_del_: tells the backend only about kinds of event that nobody wants any more. */
    method IoDel(ev: Event) returns (r: int)
      requires Valid() && (ev.fd in io ==> ev in io[ev.fd].events)
      modifies this
      ensures Valid()
      ensures ev.fd < 0 ==> r == 0 && io == old(io)
      ensures ev.fd >= 0 && ev.fd !in old(io) ==> r == -1 && io == old(io)
      ensures ev.fd >= 0 && ev.fd in old(io) ==> SameInfo(io, Removed(old(io), ev).0) && r == Removed(old(io), ev).1
    {
      hide Indexed, Based, EffectiveIn, Counted, FdInfo.MinusEvent, FdInfo.LostKinds, FdInfo.Wanted;
      if ev.fd < 0 {
        return 0;
      }
      if ev.fd !in io {
        return -1;
      }
      ghost var before := io;
      var ctx := io[ev.fd];
      MinusCounted(ctx, ev);
      var res := ctx.LostKinds(ev.wants);
      var next := ctx.MinusEvent(ev);
      r := 0;
      if res.Any() {
        BackendDel(ev.fd, res);
        r := 1;
      }
      SetInfo(ev.fd, next.(idxplus1 := io[ev.fd].idxplus1), before);
    }

    /** epoll_apply_changes: one system call at most for each entry. */
    method ApplyChanges()
      requires Linked()
      modifies `kernel
      ensures Tight(kernel) && forall i :: 0 <= i < |changes| ==> In(kernel, changes[i].fd) == changes[i].After()
      ensures forall fd ::
        (forall i :: 0 <= i < |changes| ==> changes[i].fd != fd) ==> In(kernel, fd) == old(In(kernel, fd))
      ensures forall fd :: fd in kernel ==> fd in io
    {
      hide OpFor, EpollCtl, Accepted, Tight, FdChange.After, Sensible;
      BasedParts(io, changes, kernel);
      var i := 0;
      while i < |changes|
        invariant 0 <= i <= |changes| && Tight(kernel)
        invariant forall j :: 0 <= j < i ==> In(kernel, changes[j].fd) == changes[j].After()
        invariant forall j :: i <= j < |changes| ==> In(kernel, changes[j].fd) == changes[j].was
        invariant forall fd ::
          (forall j :: 0 <= j < |changes| ==> changes[j].fd != fd) ==> In(kernel, fd) == old(In(kernel, fd))
      {
        ApplyOneChange(changes[i]);
        i := i + 1;
      }
      KernelKnown(io, changes, old(kernel), kernel);
    }

    /** event_changelist_remove_all_: forgets every entry. */
    method RemoveAll()
      requires Indexed(io, changes) && |changes| <= changesSize
      modifies `io, `changes
      ensures changes == [] && SameInfo(io, old(io)) && forall fd :: fd in io ==> io[fd].idxplus1 == 0
    {
      ghost var start := io;
      var i := 0;
      while i < |changes|
        invariant 0 <= i <= |changes| && changes == old(changes) && io.Keys == start.Keys
        invariant forall fd :: fd in io ==> io[fd] == start[fd].(idxplus1 := io[fd].idxplus1)
        invariant forall fd :: fd in io ==> io[fd].idxplus1 == if start[fd].idxplus1 <= i then 0 else start[fd].idxplus1
      {
        var fd := changes[i].fd;
        assert io[fd].idxplus1 == i + 1;
        io := io[fd := io[fd].(idxplus1 := 0)];
        i := i + 1;
      }
      changes := [];
    }

    /** The part of epoll_dispatch that brings the kernel up to date. */
    method Dispatch()
      requires Valid()
      modifies `io, `changes, `kernel
      ensures Valid() && SameInfo(io, old(io)) && changes == []
      ensures kernel == Interest(io)
    {
      hide Counted, FdInfo.Wanted, FdChange.After, Sensible, Tight, OpFor, EpollCtl, In;
      ghost var before, pending, k0 := io, changes, kernel;
      assert forall fd :: fd in before ==> FdOk(before, pending, k0, fd);
      ApplyChanges();
      RemoveAll();
      Settled(before, pending, k0, io, kernel);
    }
    /** Stores new counters that match the mask the backend was told. */
    method SetInfo(fd: int, info: FdInfo, ghost before: map<int, FdInfo>)
      requires Linked() && fd in io && info.idxplus1 == io[fd].idxplus1
      requires Counted(fd, info) && Effective(fd) == info.Wanted() && SameInfo(io, before)
      requires forall f :: f in io && f != fd ==> Counted(f, before[f]) && Effective(f) == before[f].Wanted()
      modifies `io
      ensures Valid() && SameInfo(io, before[fd := info])
    {
      hide Indexed, Based, EffectiveIn, FdInfo.Wanted, Counted, FdOk, SameInfo;
      SetInfoLinked(io, before, changes, kernel, fd, info);
      io := io[fd := info];
    }
  }

  lemma PlusCounted(info: FdInfo, ev: Event)
    requires Counted(ev.fd, info)
    requires var next := info.Plus(ev); next.nread <= 0xffff && next.nwrite <= 0xffff && next.nclose <= 0xffff
    ensures forall i :: Counted(ev.fd, info.Plus(ev).(idxplus1 := i))
    ensures forall i :: info.Plus(ev).(idxplus1 := i).Wanted() == info.Wanted().Or(info.NewKinds(ev.wants))
    ensures !info.NewKinds(ev.wants).Any() ==> info.Wanted().Or(info.NewKinds(ev.wants)) == info.Wanted()
  {
    assert ([ev] + info.events)[1..] == info.events;
  }

  /** The interest set that the counters call for. */
  ghost function Interest(io: map<int, FdInfo>): map<int, Mask> {
    map fd | fd in io && io[fd].Wanted().Any() :: io[fd].Wanted()
  }

  lemma InterestIs(io: map<int, FdInfo>, kernel: map<int, Mask>)
    requires Tight(kernel) && (forall fd :: fd in kernel ==> fd in io)
    requires forall fd :: fd in io ==> In(kernel, fd) == io[fd].Wanted()
    ensures kernel == Interest(io)
  {
    var want := Interest(io);
    forall fd
      ensures fd in kernel <==> fd in want
      ensures fd in kernel ==> kernel[fd] == want[fd]
    {
      if fd in io {
        assert In(kernel, fd) == io[fd].Wanted();
      }
    }
  }

  /** After every entry is applied and dropped, the kernel has what the counters call for. */
  lemma Settled(before: map<int, FdInfo>, changes: seq<FdChange>, kernel: map<int, Mask>, io: map<int, FdInfo>,
                k: map<int, Mask>)
    requires Indexed(before, changes) && Based(before, changes, kernel) && SameInfo(io, before)
    requires forall fd :: fd in before ==> FdOk(before, changes, kernel, fd)
    requires (forall fd :: fd in io ==> io[fd].idxplus1 == 0) && Tight(k) && forall fd :: fd in k ==> fd in before
    requires forall i :: 0 <= i < |changes| ==> In(k, changes[i].fd) == changes[i].After()
    requires forall fd :: (forall i :: 0 <= i < |changes| ==> changes[i].fd != fd) ==> In(k, fd) == In(kernel, fd)
    ensures Indexed(io, []) && Based(io, [], k) && (forall fd :: fd in io ==> FdOk(io, [], k, fd)) && k == Interest(io)
  {
    hide Counted, FdInfo.Wanted, FdChange.After, Sensible, Tight, In, Interest;
    forall fd | fd in io
      ensures In(k, fd) == io[fd].Wanted() && Counted(fd, io[fd])
    {
      SameInfoAt(io, before, fd);
      assert FdOk(before, changes, kernel, fd);
      var x := before[fd].idxplus1;
      if x == 0 {
        assert forall i :: 0 <= i < |changes| ==> changes[i].fd != fd;
      } else {
        assert changes[x - 1].fd == fd;
      }
    }
    InterestIs(io, k);
  }
}
