/** The event base and the fd map together: what the kernel watches is what the INSERTED events want. */
module EventWatches {
  import opened EventQueues
  import opened Common
  import opened EventBases
  import opened EventAdds
  import opened EventTimers
  import opened EventRuns
  import Evmap
  import EvmapRun

  /** The entries that the I/O events of a set have in the map. */
  ghost function Entries(fds: set<Event>): set<Evmap.Event> {
    set e | e in fds && e.watch.wants.Any() :: e.watch
  }

  /** The map lists exactly these entries, each once, under its descriptor. */
  ghost predicate Listing(ws: set<Evmap.Event>, io: map<int, Evmap.FdInfo>) {
    && (forall fd :: fd in io ==> NoDup(io[fd].events))
    && (forall w :: w in ws ==> w.fd in io && w in io[w.fd].events)
    && (forall fd, w :: fd in io && w in io[fd].events ==> w.fd == fd && w in ws)
  }

  lemma SameListing(ws: set<Evmap.Event>, io: map<int, Evmap.FdInfo>, io': map<int, Evmap.FdInfo>)
    requires Listing(ws, io) && Evmap.SameInfo(io', io)
    ensures Listing(ws, io')
  {
    assert forall fd :: fd in io' ==> io'[fd].events == io[fd].events;
  }

  lemma FreshListing(ws: set<Evmap.Event>, io: map<int, Evmap.FdInfo>, fd: int)
    requires Listing(ws, io) && fd !in io
    ensures Listing(ws, io[fd := Evmap.FRESH])
  {
  }

  lemma OneMoreListed(ws: set<Evmap.Event>, io: map<int, Evmap.FdInfo>, w: Evmap.Event, info: Evmap.FdInfo)
    requires Listing(ws, io) && w !in ws && w.fd in io && info.events == [w] + io[w.fd].events
    ensures Listing(ws + {w}, io[w.fd := info])
  {
  }

  /** evmap_io_add_ puts the entry on the list, or changes no list when it fails. */
  lemma AddListing(ws: set<Evmap.Event>, io: map<int, Evmap.FdInfo>, w: Evmap.Event)
    requires Listing(ws, io) && w !in ws
    ensures var r := Evmap.Added(io, w); Listing(if r.1 == -1 then ws else ws + {w}, r.0)
  {
    hide Listing;
    var io0 := if w.fd in io then io else io[w.fd := Evmap.FRESH];
    if w.fd !in io {
      FreshListing(ws, io, w.fd);
    }
    OneMoreListed(ws, io0, w, io0[w.fd].Plus(w));
  }

  lemma {:induction false} WithoutHas(events: seq<Evmap.Event>, w: Evmap.Event)
    requires NoDup(events)
    ensures forall x :: x in Evmap.Without(events, w) <==> x in events && x != w
    ensures NoDup(Evmap.Without(events, w))
  {
    if events != [] {
      assert events == [events[0]] + events[1..];
      WithoutHas(events[1..], w);
      var rest := Evmap.Without(events[1..], w);
      assert events[0] !in rest;
      if events[0] != w {
        assert Evmap.Without(events, w) == [events[0]] + rest;
      }
    }
  }

  lemma OneLessListed(ws: set<Evmap.Event>, io: map<int, Evmap.FdInfo>, w: Evmap.Event, info: Evmap.FdInfo)
    requires Listing(ws, io) && w in ws && info.events == Evmap.Without(io[w.fd].events, w)
    ensures Listing(ws - {w}, io[w.fd := info])
  {
    hide NoDup;
    WithoutHas(io[w.fd].events, w);
  }

  /** evmap_io_del_ takes it off. */
  lemma DelListing(ws: set<Evmap.Event>, io: map<int, Evmap.FdInfo>, w: Evmap.Event)
    requires Listing(ws, io) && w in ws && Evmap.Counted(w.fd, io[w.fd])
    ensures w.fd in io && w in io[w.fd].events && Listing(ws - {w}, Evmap.Removed(io, w).0)
  {
    hide Evmap.Counted;
    Evmap.MinusCounted(io[w.fd], w);
    OneLessListed(ws, io, w, io[w.fd].MinusEvent(w));
  }

  // ----- what the kernel shows -----

  /** The kinds of event that INSERTED events want on a descriptor. */
  ghost function WantedOn(b: Base, fd: int): Evmap.Mask
    reads b, b.known
  {
    Evmap.Mask(exists e :: e in b.known && e.inserted && e.watch.fd == fd && e.watch.wants.read,
               exists e :: e in b.known && e.inserted && e.watch.fd == fd && e.watch.wants.write,
               exists e :: e in b.known && e.inserted && e.watch.fd == fd && e.watch.wants.close)
  }

  /** The same, over the entries of the map. */
  ghost function WantedIn(ws: set<Evmap.Event>, fd: int): Evmap.Mask {
    Evmap.Mask(exists w :: w in ws && w.fd == fd && w.wants.read, exists w :: w in ws && w.fd == fd && w.wants.write,
               exists w :: w in ws && w.fd == fd && w.wants.close)
  }

  lemma EntriesWant(b: Base, fd: int)
    requires b.MapOk() && fd >= 0
    ensures WantedIn(Entries(b.fdMap), fd) == WantedOn(b, fd)
  {
    var ws := Entries(b.fdMap);
    forall e | e in b.known && e.inserted && e.watch.fd == fd && e.watch.wants.Any()
      ensures e.watch in ws
    {
      b.OnMap(e);
    }
    forall w | w in ws
      ensures exists e :: e in b.known && e.inserted && e.watch == w
    {
      var e :| e in b.fdMap && e.watch.wants.Any() && e.watch == w;
    }
  }

  lemma ListWants(ws: set<Evmap.Event>, io: map<int, Evmap.FdInfo>, fd: int)
    requires Listing(ws, io)
    ensures WantedIn(ws, fd) == if fd in io then EvmapRun.Union(io[fd].events) else Evmap.NONE
  {
  }

  /** The kernel watches each descriptor for exactly what the INSERTED events want. */
  ghost predicate Shows(b: Base, m: Evmap.Base)
    reads b, b.known, m
  {
    forall fd :: Evmap.In(m.kernel, fd) == if fd >= 0 then WantedOn(b, fd) else Evmap.NONE
  }

  lemma InterestShows(b: Base, m: Evmap.Base, fd: int)
    requires b.MapOk() && m.Valid() && m.kernel == Evmap.Interest(m.io) && Listing(Entries(b.fdMap), m.io)
    ensures Evmap.In(m.kernel, fd) == if fd >= 0 then WantedOn(b, fd) else Evmap.NONE
  {
    hide WantedOn, Evmap.Counted, Evmap.FdInfo.Wanted, EvmapRun.Union, Listing;
    EvmapRun.AllCounted(m);
    ListWants(Entries(b.fdMap), m.io, fd);
    if fd in m.io {
      EvmapRun.WantedIsUnion(fd, m.io[fd]);
    }
    if fd >= 0 {
      EntriesWant(b, fd);
    } else {
      NegativeWantsNone(b, fd);
    }
  }

  lemma NegativeWantsNone(b: Base, fd: int)
    requires b.MapOk() && fd < 0
    ensures WantedIn(Entries(b.fdMap), fd) == Evmap.NONE
  {
  }

  // ----- calls -----

  /** Everything that holds between calls. */
  ghost predicate Watched(b: Base, m: Evmap.Base, pool: seq<Event>)
    reads b, b.known, m
  {
    && Sound(b) && m.Valid() && Held(b, pool) && Listing(Entries(b.fdMap), m.io) && InPool(b.fdMap, pool)
  }

  /** The events of the set are the program's, and an event's number in the pool tells it from the others. */
  ghost predicate InPool(fds: set<Event>, pool: seq<Event>) {
    && (forall k :: 0 <= k < |pool| ==> pool[k].watch.id == k)
    && (forall e :: e in fds ==> e in pool)
  }

  lemma EntriesPlus(fds: set<Event>, e: Event, pool: seq<Event>)
    requires InPool(fds, pool) && e in pool && e.watch.wants.Any()
    ensures Entries(fds + {e}) == Entries(fds) + {e.watch}
    ensures e !in fds ==> e.watch !in Entries(fds)
    ensures e in fds ==> e.watch in Entries(fds) && Entries(fds - {e}) == Entries(fds) - {e.watch}
  {
    forall f | f in fds && f.watch == e.watch
      ensures f == e
    {
    }
  }

  lemma EntriesSame(fds: set<Event>, e: Event)
    requires !e.watch.wants.Any()
    ensures Entries(fds + {e}) == Entries(fds) == Entries(fds - {e})
  {
  }

  /** epoll_dispatch brings the kernel up to date. */
  method DispatchNow(b: Base, m: Evmap.Base, ghost pool: seq<Event>)
    requires Watched(b, m, pool)
    modifies m
    ensures Watched(b, m, pool) && Shows(b, m)
  {
    hide Sound, Listing, Entries, Evmap.SameInfo, Evmap.Base.Valid, WantedOn;
    ghost var io := m.io;
    m.Dispatch();
    SameListing(Entries(b.fdMap), io, m.io);
    SoundMap(b);
    forall fd
      ensures Evmap.In(m.kernel, fd) == if fd >= 0 then WantedOn(b, fd) else Evmap.NONE
    {
      InterestShows(b, m, fd);
    }
  }

  lemma SoundMap(b: Base)
    requires Sound(b)
    ensures b.MapOk()
  {
  }

  /** The evmap_io_add_ that event_add makes: the map then lists ws and this entry, or fails and lists ws. */
  method AddEntry(m: Evmap.Base, w: Evmap.Event, ghost ws: set<Evmap.Event>) returns (ok: bool)
    requires m.Valid() && Listing(ws, m.io) && w !in ws
    modifies m
    ensures m.Valid() && Listing(if ok && w.fd >= 0 then ws + {w} else ws, m.io)
    ensures w.fd < 0 ==> ok
  {
    hide Listing, Evmap.Base.Valid, Evmap.SameInfo, Evmap.Added;
    ghost var io := m.io;
    NotListed(ws, io, w);
    var r := m.IoAdd(w);
    ok := r != -1;
    if w.fd >= 0 {
      AddListing(ws, io, w);
      SameListing(if ok then ws + {w} else ws, Evmap.Added(io, w).0, m.io);
    }
  }

  lemma NotListed(ws: set<Evmap.Event>, io: map<int, Evmap.FdInfo>, w: Evmap.Event)
    requires Listing(ws, io) && w !in ws
    ensures w.fd in io ==> w !in io[w.fd].events
  {
  }

  /** The evmap_io_del_ that event_del makes. */
  method DelEntry(m: Evmap.Base, w: Evmap.Event, ghost ws: set<Evmap.Event>)
    requires m.Valid() && Listing(ws, m.io) && w in ws && w.fd >= 0
    modifies m
    ensures m.Valid() && Listing(ws - {w}, m.io)
  {
    hide Listing, Evmap.Base.Valid, Evmap.SameInfo, Evmap.Counted;
    ghost var io := m.io;
    EvmapRun.AllCounted(m);
    IsListed(ws, io, w);
    DelListing(ws, io, w);
    var _ := m.IoDel(w);
    SameListing(ws - {w}, Evmap.Removed(io, w).0, m.io);
  }

  lemma IsListed(ws: set<Evmap.Event>, io: map<int, Evmap.FdInfo>, w: Evmap.Event)
    requires Listing(ws, io) && w in ws
    ensures w.fd in io && w in io[w.fd].events
  {
  }

  /** event_add, with the map's own answer; signalOk is the answer of the signal map. */
  method AddWatched(b: Base, m: Evmap.Base, ghost pool: seq<Event>, ev: Event, tv: Option<Timeval>, now: int,
                    signalOk: bool)
    requires Watched(b, m, pool) && ev in pool && ev.init && Usable(b, tv)
    modifies b, b.known, m
    ensures Watched(b, m, pool) && b.known == old(b.known)
  {
    hide Sound, Listing, Entries, Evmap.Base.Valid, Base.Valid, Base.MapOk, WhenAdded, Event.Now;
    InSound(b);
    SoundMap(b);
    b.OnMap(ev);
    IsInserted(ev);
    var mapOk := signalOk;
    ghost var fds := b.fdMap;
    if ev.watch.wants.Any() {
      EntriesPlus(b.fdMap, ev, pool);
      if !ev.finalizing && NeedsMap(ev.Now(), ev.mapped) {
        mapOk := AddEntry(m, ev.watch, Entries(b.fdMap));
      }
    } else {
      EntriesSame(b.fdMap, ev);
    }
    label Before:
    var ok := Add(b, ev, tv, now, mapOk);
    ghost var adds := ok && NeedsMap(old@Before(ev.Now()), ev.mapped) && ev.watch.fd >= 0;
    assert b.fdMap == if adds then fds + {ev} else fds;
  }

  lemma IsInserted(ev: Event)
    ensures NeedsMap(ev.Now(), ev.mapped) ==> !ev.inserted
  {
  }

  /** The evmap_io_del_ of every event that a call took off the map. */
  method DropEntries(b: Base, m: Evmap.Base, ghost pool: seq<Event>, gone: set<Event>)
    requires Sound(b) && Held(b, pool) && m.Valid() && Listing(Entries(b.fdMap + gone), m.io)
    requires InPool(b.fdMap + gone, pool)
    requires gone !! b.fdMap && forall e :: e in gone ==> e.watch.fd >= 0
    modifies m
    ensures Watched(b, m, pool)
  {
    hide Sound, Listing, Entries, Evmap.Base.Valid;
    var left := gone;
    while left != {}
      invariant left <= gone && m.Valid() && Listing(Entries(b.fdMap + left), m.io)
      decreases left
    {
      var e :| e in left;
      ghost var fds := b.fdMap + left;
      assert fds - {e} == b.fdMap + (left - {e});
      if e.watch.wants.Any() {
        EntriesPlus(fds, e, pool);
        DelEntry(m, e.watch, Entries(fds));
      } else {
        EntriesSame(fds, e);
      }
      left := left - {e};
    }
    assert b.fdMap + {} == b.fdMap;
  }

  // ----- runs -----

  datatype Call = Make(op: Op) | Dispatch

  /** A new event is numbered by its place in the pool. */
  predicate Numbered(op: Op, n: nat) {
    op.NewEvent? ==> op.watch.id == n
  }

  /** One call on the base, with the calls it makes on the map. */
  method PerformWatched(b: Base, m: Evmap.Base, pool: seq<Event>, op: Op) returns (pool': seq<Event>)
    requires Watched(b, m, pool) && Numbered(op, |pool|)
    modifies b, b.known, m
    ensures Watched(b, m, pool') && |pool'| == |pool| + (if op.NewEvent? then 1 else 0)
    ensures b.known >= old(b.known) && fresh(b.known - old(b.known))
  {
    hide Sound, Listing, Entries, Evmap.Base.Valid;
    if op.AddOp? {
      pool' := pool;
      if op.k < |pool| && pool[op.k].init && Usable(b, op.tv) {
        AddWatched(b, m, pool, pool[op.k], op.tv, op.now, op.mapOk);
      }
      return;
    }
    var before := b.fdMap;
    SoundMap(b);
    NotNegative(b);
    pool' := Perform(b, pool, op);
    var gone := before - b.fdMap;
    assert b.fdMap + gone == before;
    DropEntries(b, m, pool', gone);
  }

  lemma NotNegative(b: Base)
    requires b.MapOk()
    ensures forall e :: e in b.fdMap ==> e.watch.fd >= 0
  {
  }

  /** Over any run, with the changelist or without it, every dispatch leaves the kernel watching each descriptor for
      exactly what the INSERTED events want; since calls are arbitrary, every dispatch is the last call of a run. */
  method RunWatched(priorities: nat, changelist: bool, calls: seq<Call>) returns (b: Base, m: Evmap.Base)
    requires priorities > 0
    ensures fresh(b) && fresh(m) && Sound(b) && m.Valid()
    ensures calls != [] && calls[|calls| - 1] == Dispatch ==> Shows(b, m)
  {
    hide Sound, Listing, Entries, Evmap.Base.Valid, Shows;
    b := new Base(priorities);
    m := new Evmap.Base(changelist);
    var pool: seq<Event> := [];
    StartWatched(b, m);
    for i := 0 to |calls|
      invariant fresh(b) && fresh(b.known) && fresh(m) && Watched(b, m, pool)
      invariant i > 0 && calls[i - 1] == Dispatch ==> Shows(b, m)
    {
      match calls[i]
      case Make(op) =>
        var op' := if op.NewEvent? then op.(watch := op.watch.(id := |pool|)) else op;
        pool := PerformWatched(b, m, pool, op');
      case Dispatch =>
        DispatchNow(b, m, pool);
    }
  }

  lemma StartWatched(b: Base, m: Evmap.Base)
    requires b.Valid() && b.known == {} && b.timers == [] && b.currentEvent == null
    requires m.Valid() && m.io == map[]
    ensures Watched(b, m, [])
  {
    NewSound(b);
  }
}
