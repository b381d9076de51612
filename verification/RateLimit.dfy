/** Suspending and resuming a bufferevent, by hand and by its rate limit (bufferevent.c, bufferevent_ratelim.c). */
module RateLimit {
  import opened Common
  import opened TokenBucket

  /** BEV_SUSPEND_*. */
  datatype Reason = Watermark | Bandwidth | GroupBandwidth | Lookup | FilterRead

  datatype Direction = Reading | Writing

  /** What one direction of a bufferevent is doing; `on` is what the backend was last told. */
  datatype Side = Side(enabled: bool, suspended: set<Reason>, on: bool) {

    /** The backend runs the direction just when it is enabled and nothing suspends it. */
    ghost predicate Ok() {
      on <==> enabled && suspended == {}
    }

    /** bufferevent_suspend_read_ and bufferevent_suspend_write_. */
    function Suspend(what: Reason): (s: Side)
      requires Ok()
      ensures s.Ok() && s.enabled == enabled && s.suspended == suspended + {what} && !s.on
    {
      Side(enabled, suspended + {what}, if suspended == {} then false else on)
    }

    /** bufferevent_unsuspend_read_ and bufferevent_unsuspend_write_. */
    function Unsuspend(what: Reason): (s: Side)
      requires Ok()
      ensures s.Ok() && s.enabled == enabled && s.suspended == suspended - {what}
    {
      var left := suspended - {what};
      Side(enabled, left, if left == {} && enabled then true else on)
    }

    /** bufferevent_enable. */
    function Enable(): (s: Side)
      requires Ok()
      ensures s.Ok() && s.enabled && s.suspended == suspended
    {
      Side(true, suspended, if suspended != {} then on else true)
    }

    /** bufferevent_disable. */
    function Disable(): (s: Side)
      requires Ok()
      ensures s.Ok() && !s.enabled && s.suspended == suspended
    {
      Side(false, suspended, false)
    }
  }

  /** struct ev_token_bucket_cfg; `id` tells two of them apart as their addresses do. */
  datatype Config = Config(id: nat, read: Rate, write: Rate) {
    predicate Ok() {
      read.Ok() && write.Ok()
    }
  }

  class Bufferevent {
    var reading: Side
    var writing: Side
    var cfg: Option<Config>
    var readLimit: int
    var writeLimit: int
    var lastUpdated: nat
    /** Whether refill_bucket_event is pending. */
    var timer: bool

    ghost predicate Valid()
      reads this
    {
      && reading.Ok() && writing.Ok()
      && (match cfg
          case None => !timer && Bandwidth !in reading.suspended && Bandwidth !in writing.suspended
          case Some(c) =>
            && c.Ok()
            && Ssize(readLimit) && Ssize(writeLimit)
            && (readLimit <= 0 ==> Bandwidth in reading.suspended)
            && (writeLimit <= 0 ==> Bandwidth in writing.suspended)
            && (timer <==> Bandwidth in reading.suspended || Bandwidth in writing.suspended))
    }

    constructor ()
      ensures Valid() && cfg == None && !reading.enabled && !writing.enabled
    {
      reading, writing := Side(false, {}, false), Side(false, {}, false);
      cfg, readLimit, writeLimit, lastUpdated, timer := None, 0, 0, 0, false;
    }

    /** Suspends a direction for a reason of its own, not for bandwidth. */
    method Suspend(d: Direction, what: Reason)
      requires Valid() && what != Bandwidth
      modifies `reading, `writing
      ensures Valid() && cfg == old(cfg)
      ensures reading == (if d == Reading then old(reading).Suspend(what) else old(reading))
      ensures writing == (if d == Writing then old(writing).Suspend(what) else old(writing))
    {
      if d == Reading {
        reading := reading.Suspend(what);
      } else {
        writing := writing.Suspend(what);
      }
    }

    method Unsuspend(d: Direction, what: Reason)
      requires Valid() && what != Bandwidth
      modifies `reading, `writing
      ensures Valid() && cfg == old(cfg)
      ensures reading == (if d == Reading then old(reading).Unsuspend(what) else old(reading))
      ensures writing == (if d == Writing then old(writing).Unsuspend(what) else old(writing))
    {
      if d == Reading {
        reading := reading.Unsuspend(what);
      } else {
        writing := writing.Unsuspend(what);
      }
    }

    /** bufferevent_enable. */
    method Enable(read: bool, write: bool)
      requires Valid()
      modifies `reading, `writing
      ensures Valid() && cfg == old(cfg)
      ensures reading == (if read then old(reading).Enable() else old(reading))
      ensures writing == (if write then old(writing).Enable() else old(writing))
    {
      if read {
        reading := reading.Enable();
      }
      if write {
        writing := writing.Enable();
      }
    }

    /** bufferevent_disable. */
    method Disable(read: bool, write: bool)
      requires Valid()
      modifies `reading, `writing
      ensures Valid() && cfg == old(cfg)
      ensures reading == (if read then old(reading).Disable() else old(reading))
      ensures writing == (if write then old(writing).Disable() else old(writing))
    {
      if read {
        reading := reading.Disable();
      }
      if write {
        writing := writing.Disable();
      }
    }

    /** bufferevent_decrement_read_buckets_: charges for bytes read; a negative number is a refund. */
    method ChargeRead(bytes: int)
      requires Valid() && (cfg.Some? ==> Ssize(readLimit - bytes))
      modifies this
      ensures Valid() && cfg == old(cfg) && writeLimit == old(writeLimit) && lastUpdated == old(lastUpdated)
      ensures readLimit == if cfg.Some? then old(readLimit) - bytes else old(readLimit)
      ensures writing == old(writing) && reading.enabled == old(reading.enabled)
      ensures cfg.Some? ==> (Bandwidth in reading.suspended <==> readLimit <= 0)
      ensures reading.suspended - {Bandwidth} == old(reading.suspended) - {Bandwidth}
      ensures cfg == None ==> reading == old(reading) && timer == old(timer)
      ensures cfg.Some? ==> (timer <==> readLimit <= 0 || Bandwidth in writing.suspended)
    {
      if cfg == None {
        return;
      }
      readLimit := readLimit - bytes;
      if readLimit <= 0 {
        reading := reading.Suspend(Bandwidth);
        timer := true;
      } else if Bandwidth in reading.suspended {
        if Bandwidth !in writing.suspended {
          timer := false;
        }
        reading := reading.Unsuspend(Bandwidth);
      }
    }

    /** bufferevent_decrement_write_buckets_. */
    method ChargeWrite(bytes: int)
      requires Valid() && (cfg.Some? ==> Ssize(writeLimit - bytes))
      modifies this
      ensures Valid() && cfg == old(cfg) && readLimit == old(readLimit) && lastUpdated == old(lastUpdated)
      ensures writeLimit == if cfg.Some? then old(writeLimit) - bytes else old(writeLimit)
      ensures reading == old(reading) && writing.enabled == old(writing.enabled)
      ensures cfg.Some? ==> (Bandwidth in writing.suspended <==> writeLimit <= 0)
      ensures writing.suspended - {Bandwidth} == old(writing.suspended) - {Bandwidth}
      ensures cfg == None ==> writing == old(writing) && timer == old(timer)
      ensures cfg.Some? ==> (timer <==> writeLimit <= 0 || Bandwidth in reading.suspended)
    {
      if cfg == None {
        return;
      }
      writeLimit := writeLimit - bytes;
      if writeLimit <= 0 {
        writing := writing.Suspend(Bandwidth);
        timer := true;
      } else if Bandwidth in writing.suspended {
        if Bandwidth !in reading.suspended {
          timer := false;
        }
        writing := writing.Unsuspend(Bandwidth);
      }
    }

    /** bufferevent_decrement_read_limit: acts only when the limit crosses zero. */
    method DecrementReadLimit(decr: int)
      requires Valid() && cfg.Some? && Ssize(readLimit - decr)
      modifies this
      ensures Valid() && cfg == old(cfg) && readLimit == old(readLimit) - decr && writeLimit == old(writeLimit)
      ensures writing == old(writing) && reading.enabled == old(reading.enabled)
      ensures reading.suspended - {Bandwidth} == old(reading.suspended) - {Bandwidth}
      ensures lastUpdated == old(lastUpdated)
      ensures (old(readLimit) > 0 <==> readLimit <= 0) ==> (Bandwidth in reading.suspended <==> readLimit <= 0)
      ensures timer <==> Bandwidth in reading.suspended || Bandwidth in writing.suspended
      ensures (old(readLimit) > 0 <==> readLimit > 0) ==> reading == old(reading) && timer == old(timer)
    {
      var oldLimit := readLimit;
      readLimit := readLimit - decr;
      if oldLimit > 0 && readLimit <= 0 {
        reading := reading.Suspend(Bandwidth);
        timer := true;
      } else if oldLimit <= 0 && readLimit > 0 {
        if Bandwidth !in writing.suspended {
          timer := false;
        }
        reading := reading.Unsuspend(Bandwidth);
      }
    }

    /** bufferevent_decrement_write_limit. */
    method DecrementWriteLimit(decr: int)
      requires Valid() && cfg.Some? && Ssize(writeLimit - decr)
      modifies this
      ensures Valid() && cfg == old(cfg) && writeLimit == old(writeLimit) - decr && readLimit == old(readLimit)
      ensures reading == old(reading) && writing.enabled == old(writing.enabled)
      ensures writing.suspended - {Bandwidth} == old(writing.suspended) - {Bandwidth}
      ensures lastUpdated == old(lastUpdated)
      ensures (old(writeLimit) > 0 <==> writeLimit <= 0) ==> (Bandwidth in writing.suspended <==> writeLimit <= 0)
      ensures timer <==> Bandwidth in reading.suspended || Bandwidth in writing.suspended
      ensures (old(writeLimit) > 0 <==> writeLimit > 0) ==> writing == old(writing) && timer == old(timer)
    {
      var oldLimit := writeLimit;
      writeLimit := writeLimit - decr;
      if oldLimit > 0 && writeLimit <= 0 {
        writing := writing.Suspend(Bandwidth);
        timer := true;
      } else if oldLimit <= 0 && writeLimit > 0 {
        if Bandwidth !in reading.suspended {
          timer := false;
        }
        writing := writing.Unsuspend(Bandwidth);
      }
    }

    /** An update at this tick keeps the invariant: a direction that is not suspended for bandwidth stays in credit. */
    predicate Updatable(tick: nat)
      requires cfg.Some?
      reads this
    {
      var n := Elapsed(Bucket(0, lastUpdated), tick);
      && (Bandwidth in reading.suspended || Steady(readLimit, cfg.value.read, n))
      && (Bandwidth in writing.suspended || Steady(writeLimit, cfg.value.write, n))
    }

    /** ev_token_bucket_update_ on both directions, which share `last_updated`. */
    method UpdateBucket(tick: nat)
      requires Valid() && cfg.Some?
      modifies `readLimit, `writeLimit, `lastUpdated
      ensures Valid() <==> old(Updatable(tick))
      ensures Ssize(readLimit) && Ssize(writeLimit)
      ensures readLimit == Updated(Bucket(old(readLimit), old(lastUpdated)), cfg.value.read, tick).limit
      ensures writeLimit == Updated(Bucket(old(writeLimit), old(lastUpdated)), cfg.value.write, tick).limit
      ensures lastUpdated == if Elapsed(Bucket(0, old(lastUpdated)), tick) == 0 then old(lastUpdated) else tick
    {
      hide Refilled, Steady, Ssize;
      var n := Elapsed(Bucket(0, lastUpdated), tick);
      Credit(readLimit, cfg.value.read, n);
      Credit(writeLimit, cfg.value.write, n);
      if n == 0 {
        return;
      }
      readLimit := Refilled(readLimit, cfg.value.read, n);
      writeLimit := Refilled(writeLimit, cfg.value.write, n);
      lastUpdated := tick;
    }

    /** bufferevent_get_rlim_max_ without a group: brings the bucket up to date, and never asks for less than
        nothing. */
    method RlimMax(d: Direction, tick: nat, maxSingle: nat) returns (max: int)
      requires Valid()
      modifies `readLimit, `writeLimit, `lastUpdated
      ensures Valid() <==> (cfg.Some? ==> old(Updatable(tick)))
      ensures lastUpdated ==
        if cfg == None || Elapsed(Bucket(0, old(lastUpdated)), tick) == 0 then old(lastUpdated) else tick
      ensures cfg == None ==> max == maxSingle && readLimit == old(readLimit) && writeLimit == old(writeLimit)
      ensures cfg.Some? ==>
        && readLimit == Updated(Bucket(old(readLimit), old(lastUpdated)), cfg.value.read, tick).limit
        && writeLimit == Updated(Bucket(old(writeLimit), old(lastUpdated)), cfg.value.write, tick).limit
        && var limit := if d == Reading then readLimit else writeLimit; max == if limit < 0 then 0 else limit
    {
      if cfg == None {
        return maxSingle;
      }
      if tick != lastUpdated {
        UpdateBucket(tick);
      }
      max := if d == Reading then readLimit else writeLimit;
      if max < 0 {
        max := 0;
      }
    }

    /** bev_refill_callback_: the timer has fired and is no longer pending. */
    method Refill(tick: nat)
      requires Valid() && timer && cfg.Some?
      modifies this
      ensures Valid() <==> old(Updatable(tick))
      ensures cfg == old(cfg)
      ensures readLimit == Updated(Bucket(old(readLimit), old(lastUpdated)), cfg.value.read, tick).limit
      ensures writeLimit == Updated(Bucket(old(writeLimit), old(lastUpdated)), cfg.value.write, tick).limit
      ensures lastUpdated == if Elapsed(Bucket(0, old(lastUpdated)), tick) == 0 then old(lastUpdated) else tick
      ensures old(Updatable(tick)) ==>
        && (Bandwidth in reading.suspended <==> readLimit <= 0)
        && (Bandwidth in writing.suspended <==> writeLimit <= 0)
        && (timer <==> readLimit <= 0 || writeLimit <= 0)
      ensures reading.enabled == old(reading.enabled) && writing.enabled == old(writing.enabled)
      ensures reading.suspended - {Bandwidth} == old(reading.suspended) - {Bandwidth}
      ensures writing.suspended - {Bandwidth} == old(writing.suspended) - {Bandwidth}
    {
      hide Updated, Elapsed, Steady, Ssize;
      UpdateBucket(tick);
      timer := false;
      var again := false;
      if Bandwidth in reading.suspended {
        if readLimit > 0 {
          reading := reading.Unsuspend(Bandwidth);
        } else {
          again := true;
        }
      }
      if Bandwidth in writing.suspended {
        if writeLimit > 0 {
          writing := writing.Unsuspend(Bandwidth);
        } else {
          again := true;
        }
      }
      if again {
        timer := true;
      }
    }

    /** bufferevent_set_rate_limit. */
    method SetRateLimit(next: Option<Config>, tick: nat)
      requires Valid() && (next.Some? ==> next.value.Ok())
      modifies this
      ensures Valid()
      ensures cfg == if next.Some? && old(cfg).Some? && old(cfg).value == next.value then old(cfg) else next
      ensures reading.enabled == old(reading.enabled) && writing.enabled == old(writing.enabled)
      ensures reading.suspended - {Bandwidth} == old(reading.suspended) - {Bandwidth}
      ensures writing.suspended - {Bandwidth} == old(writing.suspended) - {Bandwidth}
      ensures lastUpdated == if next.Some? && old(cfg) == None then tick else old(lastUpdated)
      ensures next.Some? && old(cfg) == None ==>
        readLimit == next.value.read.rate && writeLimit == next.value.write.rate
      // a configuration that is new suspends just what has nothing left, one that is the same changes nothing, and
      // without one nothing is suspended for bandwidth
      ensures next.Some? && old(cfg) != next ==>
        && (Bandwidth in reading.suspended <==> readLimit <= 0)
        && (Bandwidth in writing.suspended <==> writeLimit <= 0)
        && (timer <==> readLimit <= 0 || writeLimit <= 0)
      ensures next.Some? && old(cfg) == next ==> unchanged(this)
      ensures next == None ==>
        && Bandwidth !in reading.suspended && Bandwidth !in writing.suspended && !timer
        && readLimit == old(readLimit) && writeLimit == old(writeLimit)
      ensures next.Some? && old(cfg).Some? && old(cfg) != next ==>
        readLimit == Min(old(readLimit), next.value.read.maximum)
        && writeLimit == Min(old(writeLimit), next.value.write.maximum)
    {
      if next == None {
        cfg := None;
        reading := reading.Unsuspend(Bandwidth);
        writing := writing.Unsuspend(Bandwidth);
        timer := false;
        return;
      }
      if cfg == next {
        return;
      }
      var reinit := cfg.Some?;
      cfg := next;
      InitBucket(next.value, tick, reinit);
      timer := false;
      var suspended := false;
      if readLimit > 0 {
        reading := reading.Unsuspend(Bandwidth);
      } else {
        reading := reading.Suspend(Bandwidth);
        suspended := true;
      }
      if writeLimit > 0 {
        writing := writing.Unsuspend(Bandwidth);
      } else {
        writing := writing.Suspend(Bandwidth);
        suspended := true;
      }
      if suspended {
        timer := true;
      }
    }

    /** ev_token_bucket_init_: a new configuration only clips an old bucket. */
    method InitBucket(c: Config, tick: nat, reinitialize: bool)
      requires c.Ok()
      modifies `readLimit, `writeLimit, `lastUpdated
      ensures reinitialize ==>
        readLimit == Min(old(readLimit), c.read.maximum) && writeLimit == Min(old(writeLimit), c.write.maximum)
      ensures reinitialize ==> lastUpdated == old(lastUpdated)
      ensures !reinitialize ==> readLimit == c.read.rate && writeLimit == c.write.rate && lastUpdated == tick
    {
      if reinitialize {
        if readLimit > c.read.maximum {
          readLimit := c.read.maximum;
        }
        if writeLimit > c.write.maximum {
          writeLimit := c.write.maximum;
        }
      } else {
        readLimit, writeLimit, lastUpdated := c.read.rate, c.write.rate, tick;
      }
    }
  }

  /** What an update of n ticks does to the sign of a limit. */
  lemma Credit(limit: int, cfg: Rate, n: nat)
    requires cfg.Ok() && Ssize(limit)
    ensures n > 0 ==> Ssize(Refilled(limit, cfg, n))
    ensures n > 0 && limit > 0 ==> (Refilled(limit, cfg, n) > 0 <==> Steady(limit, cfg, n))
    ensures n == 0 || limit <= 0 ==> Steady(limit, cfg, n)
  {
    hide Refilled, Ssize;
    if n > 0 && limit > 0 {
      SteadyStaysPositive(limit, cfg, n);
    } else if n > 0 {
      RefilledUp(limit, cfg, n);
    }
  }

  /** Suspension for bandwidth ends exactly when the ticks have paid for what the bucket is short of. */
  lemma RefillFrees(b: Bucket, cfg: Rate, tick: nat)
    requires cfg.Ok() && Ssize(b.limit) && b.limit <= cfg.maximum
    ensures Updated(b, cfg, tick).limit > 0 <==> b.limit + Elapsed(b, tick) * cfg.rate > 0
  {
    hide Refilled, Elapsed, Updated;
    UpdatedBounds(b, cfg, tick);
  }

  /** n refills at successive ticks, the first at `tick`. */
  function Refills(b: Bucket, cfg: Rate, tick: nat, n: nat): Bucket
    decreases n
  {
    if n == 0 then b else Refills(Updated(b, cfg, tick), cfg, tick + 1, n - 1)
  }

  /** How far a tick is ahead of the bucket, as 32-bit numbers. */
  function Ahead(b: Bucket, tick: nat): nat {
    (tick - b.lastUpdated) % TWO32
  }

  /** A refill counts exactly when its tick is less than 2^31 ahead. */
  lemma RefillCounts(b: Bucket, cfg: Rate, tick: nat)
    ensures Elapsed(b, tick) > 0 <==> 0 < Ahead(b, tick) <= INT_MAX
    ensures Elapsed(b, tick) == 0 ==> Updated(b, cfg, tick) == b
  {
  }

  /** The ticks that n > 0 refills from `tick` on count: if the first is not ahead, only those past the moment
      at which the tick number has come round to the bucket's. */
  function CountedTicks(b: Bucket, tick: nat, n: nat): nat
    requires n > 0
  {
    var a := Ahead(b, tick);
    if a <= INT_MAX then a + n - 1 else if a + n - 1 <= TWO32 then 0 else a + n - 1 - TWO32
  }

  lemma AheadNext(b: Bucket, tick: nat)
    ensures Ahead(b, tick + 1) == if Ahead(b, tick) == TWO32 - 1 then 0 else Ahead(b, tick) + 1
  {
  }

  /** What n refills do: the one refill that the ticks they count would be. A direction that is suspended for
      bandwidth is freed exactly when these pay for what the bucket is short of. */
  lemma {:induction false} RefillsEnd(b: Bucket, cfg: Rate, tick: nat, n: nat)
    requires cfg.Ok() && Ssize(b.limit) && b.limit <= cfg.maximum && n > 0
    ensures var c, b' := CountedTicks(b, tick, n), Refills(b, cfg, tick, n);
      && b'.limit == Min(cfg.maximum, b.limit + c * cfg.rate)
      && b'.lastUpdated == (if c > 0 then tick + n - 1 else b.lastUpdated)
      && (b'.limit > 0 <==> b.limit + c * cfg.rate > 0)
    decreases n
  {
    hide Refilled, Updated;
    FirstRefill(b, cfg, tick);
    var b1 := Updated(b, cfg, tick);
    if n > 1 {
      RefillsEnd(b1, cfg, tick + 1, n - 1);
      AheadNext(b, tick);
      var e, c1 := Elapsed(b, tick), CountedTicks(b1, tick + 1, n - 1);
      RestCounts(b, b1, tick, n);
      TicksAdd(e, c1, cfg.rate);
    } else {
      assert Refills(b1, cfg, tick + 1, 0) == b1;
    }
  }

  lemma FirstRefill(b: Bucket, cfg: Rate, tick: nat)
    requires cfg.Ok() && Ssize(b.limit) && b.limit <= cfg.maximum
    ensures var b1, e := Updated(b, cfg, tick), Elapsed(b, tick);
      && Ssize(b1.limit) && b1.limit <= cfg.maximum && b1.limit == Min(cfg.maximum, b.limit + e * cfg.rate)
      && b1.lastUpdated == (if e == 0 then b.lastUpdated else tick)
  {
    hide Refilled;
    UpdatedBounds(b, cfg, tick);
  }

  lemma RestCounts(b: Bucket, b1: Bucket, tick: nat, n: nat)
    requires n > 1 && b1.lastUpdated == if Elapsed(b, tick) == 0 then b.lastUpdated else tick
    ensures CountedTicks(b, tick, n) == Elapsed(b, tick) + CountedTicks(b1, tick + 1, n - 1)
  {
    AheadNext(b, tick);
    AheadNext(b1, tick);
  }

  /** A bucket whose first refill is ahead, or on time, is freed by enough refills; one whose first refill is behind
      has to wait until the tick number has come round. */
  lemma FreedAfter(b: Bucket, cfg: Rate, tick: nat, n: nat)
    requires cfg.Ok() && Ssize(b.limit) && b.limit <= 0
    requires n > 1 - b.limit + if Ahead(b, tick) <= INT_MAX then 0 else TWO32 - Ahead(b, tick)
    ensures Refills(b, cfg, tick, n).limit > 0
  {
    RefillsEnd(b, cfg, tick, n);
    var c := CountedTicks(b, tick, n);
    MulMono(1, cfg.rate, c);
    assert c * cfg.rate == cfg.rate * c;
  }

  /** A new configuration with longer ticks leaves the bucket with a last_updated in the old, shorter ones, and so in
      the future: here an exhausted bucket with ticks of a second gets a configuration with ticks of ten seconds, and no
      refill counts for over a thousand million ticks. */
  method ReconfigurationStalls() returns (bev: Bufferevent)
    ensures fresh(bev) && bev.Valid() && bev.cfg.Some?
    ensures bev.reading.enabled && !bev.reading.on && bev.readLimit < 0
    ensures forall t :: 150_000_000 <= t < 1_500_000_000 ==>
      Updated(Bucket(bev.readLimit, bev.lastUpdated), bev.cfg.value.read, t)
        == Bucket(bev.readLimit, bev.lastUpdated)
  {
    var second := Config(0, Rate(100, 100), Rate(100, 100));
    var tenSeconds := Config(1, Rate(1000, 1000), Rate(1000, 1000));
    bev := new Bufferevent();
    bev.Enable(true, false);
    bev.SetRateLimit(Some(second), 1_500_000_000);
    bev.ChargeRead(200);
    bev.SetRateLimit(Some(tenSeconds), 150_000_000);
    forall t | 150_000_000 <= t < 1_500_000_000
      ensures Updated(Bucket(bev.readLimit, bev.lastUpdated), bev.cfg.value.read, t)
        == Bucket(bev.readLimit, bev.lastUpdated)
    {
      RefillCounts(Bucket(bev.readLimit, bev.lastUpdated), bev.cfg.value.read, t);
    }
  }
}
