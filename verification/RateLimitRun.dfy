/** Whole runs of a rate-limited bufferevent: a suspension is never lost, and its timer stays set. */
module RateLimitRuns {
  import opened Common
  import opened TokenBucket
  import opened RateLimit

  datatype Call =
    | SuspendCall(d: Direction, what: Reason)
    | UnsuspendCall(d: Direction, what: Reason)
    | EnableCall(read: bool, write: bool)
    | DisableCall(read: bool, write: bool)
    | ChargeCall(d: Direction, bytes: int)
    | DecrementCall(d: Direction, decr: int)
    | RlimMaxCall(d: Direction, tick: nat, maxSingle: nat)
    | RefillCall(tick: nat)
    | SetRateLimitCall(next: Option<Config>, tick: nat)

  /** A charge or a refund keeps the signed limit in range. */
  predicate InRange(bev: Bufferevent, d: Direction, bytes: int)
    reads bev
  {
    bev.cfg.Some? ==>
      Ssize((if d == Reading then bev.readLimit else bev.writeLimit) - bytes)
  }

  /** What a caller may ask for at this point: no other code uses the bandwidth reason, and timers fire when set. */
  predicate Allowed(bev: Bufferevent, c: Call)
    reads bev
  {
    match c
    case SuspendCall(_, what) => what != Bandwidth
    case UnsuspendCall(_, what) => what != Bandwidth
    case ChargeCall(d, bytes) => InRange(bev, d, bytes)
    case DecrementCall(d, decr) => bev.cfg.Some? && InRange(bev, d, decr)
    case RlimMaxCall(_, tick, _) => bev.cfg.Some? ==> bev.Updatable(tick)
    case RefillCall(tick) => bev.timer && bev.cfg.Some? && bev.Updatable(tick)
    case SetRateLimitCall(next, _) => next.Some? ==> next.value.Ok()
    case _ => true
  }

  /** A direction is suspended for bandwidth just when its bucket is empty. */
  predicate Exact(bev: Bufferevent)
    reads bev
  {
    bev.cfg.Some? ==>
      && (Bandwidth in bev.reading.suspended <==> bev.readLimit <= 0)
      && (Bandwidth in bev.writing.suspended <==> bev.writeLimit <= 0)
  }

  method Perform(bev: Bufferevent, c: Call)
    requires bev.Valid() && Allowed(bev, c)
    modifies bev
    ensures bev.Valid()
    ensures old(Exact(bev)) && !c.RlimMaxCall? ==> Exact(bev)
  {
    match c
    case SuspendCall(d, what) => bev.Suspend(d, what);
    case UnsuspendCall(d, what) => bev.Unsuspend(d, what);
    case EnableCall(read, write) => bev.Enable(read, write);
    case DisableCall(read, write) => bev.Disable(read, write);
    case ChargeCall(d, bytes) =>
      if d == Reading { bev.ChargeRead(bytes); } else { bev.ChargeWrite(bytes); }
    case DecrementCall(d, decr) =>
      if d == Reading { bev.DecrementReadLimit(decr); } else { bev.DecrementWriteLimit(decr); }
    case RlimMaxCall(d, tick, maxSingle) =>
      var _ := bev.RlimMax(d, tick, maxSingle);
    case RefillCall(tick) => bev.Refill(tick);
    case SetRateLimitCall(next, tick) => bev.SetRateLimit(next, tick);
  }

  /** Any run, with the calls that are not allowed left out. Only bufferevent_get_rlim_max_ can leave a direction
      suspended that is in credit, until the next charge or refill. */
  method Run(calls: seq<Call>) returns (bev: Bufferevent)
    ensures fresh(bev) && bev.Valid()
    ensures (forall i :: 0 <= i < |calls| ==> !calls[i].RlimMaxCall?) ==> Exact(bev)
  {
    hide Bufferevent.Valid, Exact;
    bev := new Bufferevent();
    NoLimit(bev);
    for i := 0 to |calls|
      invariant fresh(bev) && bev.Valid()
      invariant (forall j :: 0 <= j < i ==> !calls[j].RlimMaxCall?) ==> Exact(bev)
    {
      if Allowed(bev, calls[i]) {
        Perform(bev, calls[i]);
      }
    }
  }

  lemma NoLimit(bev: Bufferevent)
    ensures bev.cfg == None ==> Exact(bev)
  {
  }

  /** Such a call: the bucket is brought up to date and has credit again, and the direction is still suspended. */
  method RlimMaxLags() returns (bev: Bufferevent)
    ensures fresh(bev) && bev.Valid() && bev.cfg.Some? && bev.readLimit > 0 && Bandwidth in bev.reading.suspended
  {
    bev := new Bufferevent();
    bev.SetRateLimit(Some(Config(0, Rate(100, 100), Rate(100, 100))), 0);
    bev.ChargeRead(150);
    UpOneTick();
    var _ := bev.RlimMax(Reading, 1, 0);
  }

  lemma UpOneTick()
    ensures Updated(Bucket(-50, 0), Rate(100, 100), 1).limit == 50
    ensures Elapsed(Bucket(0, 0), 1) == 1 && Steady(100, Rate(100, 100), 1)
  {
  }
}
