/** event_reinit's effect on the fd map: a new, empty kernel object is told about every wanted event again. */
module EvmapReinit {
  import opened Evmap

  /** The map with every changelist slot cleared. */
  function Cleared(io: map<int, FdInfo>): map<int, FdInfo> {
    map fd | fd in io :: io[fd].(idxplus1 := 0)
  }

  lemma ClearedLinked(io: map<int, FdInfo>)
    ensures Indexed(Cleared(io), []) && Based(Cleared(io), [], map[]) && SameInfo(Cleared(io), io)
    ensures forall fd :: fd in io ==> EffectiveIn(Cleared(io), [], map[], fd) == NONE
  {
  }

  lemma SameInfoTwice(a: map<int, FdInfo>, b: map<int, FdInfo>, c: map<int, FdInfo>)
    requires SameInfo(a, b) && SameInfo(b, c)
    ensures SameInfo(a, c)
  {
  }

  /** The changelist or the kernel takes a descriptor that it has nothing for. */
  method AddAgain(b: Base, fd: int, events: Mask)
    requires b.Linked() && fd in b.io && b.Effective(fd) == NONE && b.io[fd].idxplus1 == 0
    modifies b`io, b`changes, b`changesSize, b`kernel
    ensures b.Linked() && SameInfo(b.io, old(b.io)) && b.Effective(fd) == events
    ensures forall f :: f in b.io && f != fd ==> b.Effective(f) == old(b.Effective(f)) && b.io[f] == old(b.io)[f]
  {
    hide Indexed, Based;
    if b.changelist {
      b.ChangelistAdd(fd, NONE, events);
    } else {
      b.NochangelistAdd(fd, NONE, events);
    }
  }

  /** The part of event_reinit and evmap_reinit_ that concerns descriptors. The slots are cleared up front:
      an addition looks at no slot but its own, which evmap_io_reinit_iter_fn clears just before. */
  method Reinit(b: Base)
    requires b.Valid()
    modifies b`io, b`changes, b`changesSize, b`kernel
    ensures b.Valid() && SameInfo(b.io, old(b.io))
  {
    hide Indexed, Based, EffectiveIn, Counted, FdInfo.Wanted, FdOk, In;
    ghost var io0 := b.io;
    ClearedLinked(io0);
    AllRight(b);
    b.kernel, b.changes, b.changesSize := map[], [], 0;
    b.io := Cleared(b.io);
    var todo := b.io.Keys;
    while todo != {}
      invariant b.Linked() && SameInfo(b.io, io0) && todo <= b.io.Keys
      invariant forall f :: f in todo ==> b.Effective(f) == NONE && b.io[f].idxplus1 == 0
      invariant forall f :: f in b.io && f !in todo ==> b.Effective(f) == io0[f].Wanted()
      decreases todo
    {
      var fd :| fd in todo;
      ghost var before := b.io;
      SameInfoAt(b.io, io0, fd);
      AddAgain(b, fd, b.io[fd].Wanted());
      SameInfoTwice(b.io, before, io0);
      todo := todo - {fd};
    }
    forall f | f in b.io
      ensures FdOk(b.io, b.changes, b.kernel, f)
    {
      SameInfoAt(b.io, io0, f);
      IsFdOk(b, f, io0);
    }
  }

  lemma AllRight(b: Base)
    requires b.Valid()
    ensures forall f :: f in b.io ==> Counted(f, b.io[f])
  {
    assert forall f :: f in b.io ==> FdOk(b.io, b.changes, b.kernel, f);
  }

  lemma IsFdOk(b: Base, f: int, io0: map<int, FdInfo>)
    requires f in b.io && f in io0 && Counted(f, b.io[f]) && b.Effective(f) == io0[f].Wanted() == b.io[f].Wanted()
    ensures FdOk(b.io, b.changes, b.kernel, f)
  {
  }

  /** After a fork, the next dispatch leaves the new kernel object with exactly the wanted events. */
  method ReinitAndDispatch(b: Base)
    requires b.Valid()
    modifies b
    ensures b.Valid() && SameInfo(b.io, old(b.io)) && b.kernel == Interest(b.io)
  {
    hide Indexed, Based, FdOk, SameInfo;
    ghost var io0 := b.io;
    Reinit(b);
    ghost var io1 := b.io;
    b.Dispatch();
    SameInfoTwice(b.io, io1, io0);
  }
}
