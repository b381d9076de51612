/** The token bucket of the rate limiter (bufferevent_ratelim.c). */
module TokenBucket {
  import opened Common

  const TWO64: nat := 0x1_0000_0000_0000_0000

  /** One direction of struct ev_token_bucket_cfg. */
  datatype Rate = Rate(rate: nat, maximum: nat) {
    /** What ev_token_bucket_cfg_new lets through. */
    predicate Ok() {
      1 <= rate <= maximum <= SSIZE_MAX
    }
  }

  predicate Ssize(x: int) {
    -(SSIZE_MAX as int) - 1 <= x <= SSIZE_MAX
  }

  /** 64-bit unsigned wrap-around, and the signed reading of it. */
  function Unsigned(x: int): (r: nat)
    ensures r < TWO64
  {
    x % TWO64
  }

  function Signed(x: nat): int {
    if x <= SSIZE_MAX then x else x - TWO64
  }

  /** The refill of ev_token_bucket_update_ for n ticks: the division guards the product against overflow. */
  function Refilled(limit: int, cfg: Rate, n: nat): int
    requires n > 0
  {
    if Unsigned(cfg.maximum - limit) / n < cfg.rate then cfg.maximum
    else Signed(Unsigned(limit + Unsigned(n * cfg.rate)))
  }

  lemma {:induction false} MulMono(a: nat, b: nat, m: nat)
    requires a <= b
    ensures a * m <= b * m
  {
    assert b * m == a * m + (b - a) * m;
  }

  /** Dividing is comparing with the product. */
  lemma DivLess(d: nat, n: nat, r: nat)
    requires n > 0
    ensures d / n < r <==> d < n * r
  {
    var q := d / n;
    assert d == q * n + d % n;
    if q < r {
      MulMono(q + 1, r, n);
      assert (q + 1) * n == q * n + n;
      assert n * r == r * n;
    } else {
      MulMono(r, q, n);
      assert n * r == r * n;
    }
  }

  lemma UnsignedSmall(x: int)
    requires 0 <= x < TWO64
    ensures Unsigned(x) == x
  {
  }

  lemma UnsignedBig(x: int)
    requires TWO64 <= x < 2 * TWO64
    ensures Unsigned(x) == x - TWO64
  {
  }

  lemma UnsignedNeg(x: int)
    requires -(TWO64 as int) <= x < 0
    ensures Unsigned(x) == x + TWO64
  {
  }

  /** A bucket at or below its maximum is refilled to min(maximum, limit + n * rate). */
  lemma RefilledIsMin(limit: int, cfg: Rate, n: nat)
    requires cfg.Ok() && n > 0 && Ssize(limit) && limit <= cfg.maximum
    ensures Refilled(limit, cfg, n) == Min(cfg.maximum, limit + n * cfg.rate)
  {
    hide Unsigned;
    var d, p := cfg.maximum - limit, n * cfg.rate;
    UnsignedSmall(d);
    DivLess(d, n, cfg.rate);
    if d >= p {
      UnsignedSmall(p);
      if limit + p < 0 {
        UnsignedNeg(limit + p);
      } else {
        UnsignedSmall(limit + p);
      }
    }
  }

  /** A refund can leave the limit above the maximum; then the refill is right only when the product is this large. */
  lemma RefilledExactly(limit: int, cfg: Rate, n: nat)
    requires cfg.Ok() && n > 0 && Ssize(limit)
    ensures Refilled(limit, cfg, n) == Min(cfg.maximum, limit + n * cfg.rate)
      <==> limit <= cfg.maximum || TWO64 - (limit - cfg.maximum) <= n * cfg.rate
  {
    hide Unsigned;
    var p := n * cfg.rate;
    if limit <= cfg.maximum {
      RefilledIsMin(limit, cfg, n);
    } else {
      var d := TWO64 - (limit - cfg.maximum);
      UnsignedNeg(cfg.maximum - limit);
      DivLess(d, n, cfg.rate);
      Above(limit, cfg, n, p, d);
    }
  }

  lemma Above(limit: int, cfg: Rate, n: nat, p: nat, d: nat)
    requires cfg.Ok() && n > 0 && Ssize(limit) && limit > cfg.maximum && p == n * cfg.rate
    requires d == TWO64 - (limit - cfg.maximum) == Unsigned(cfg.maximum - limit) && (d / n < cfg.rate <==> d < p)
    ensures Refilled(limit, cfg, n) == cfg.maximum <==> d <= p
  {
    hide Unsigned;
    if d >= p {
      UnsignedSmall(p);
      if limit + p >= TWO64 {
        UnsignedBig(limit + p);
      } else {
        UnsignedSmall(limit + p);
      }
    }
  }

  /** n ticks do not take a positive limit, refunded past its maximum, through the top of the signed range. */
  predicate Steady(limit: int, cfg: Rate, n: nat) {
    n == 0 || limit <= cfg.maximum || limit + n * cfg.rate <= SSIZE_MAX || limit + n * cfg.rate > TWO64
  }

  /** Whatever the limit, a refill leaves a positive one positive exactly then. */
  lemma SteadyStaysPositive(limit: int, cfg: Rate, n: nat)
    requires cfg.Ok() && n > 0 && Ssize(limit) && limit > 0
    ensures Ssize(Refilled(limit, cfg, n)) && (Refilled(limit, cfg, n) > 0 <==> Steady(limit, cfg, n))
  {
    hide Unsigned;
    var p := n * cfg.rate;
    if limit <= cfg.maximum {
      RefilledIsMin(limit, cfg, n);
      assert p >= 0;
    } else {
      var d := TWO64 - (limit - cfg.maximum);
      UnsignedNeg(cfg.maximum - limit);
      DivLess(d, n, cfg.rate);
      if d >= p {
        UnsignedSmall(p);
        if limit + p >= TWO64 {
          UnsignedBig(limit + p);
        } else {
          UnsignedSmall(limit + p);
        }
      }
    }
  }

  /** Refills never lower a limit that is not positive. */
  lemma RefilledUp(limit: int, cfg: Rate, n: nat)
    requires cfg.Ok() && n > 0 && Ssize(limit) && limit <= 0
    ensures Ssize(Refilled(limit, cfg, n)) && limit <= Refilled(limit, cfg, n)
  {
    hide Refilled;
    RefilledIsMin(limit, cfg, n);
    assert n * cfg.rate >= 0;
  }

  /** One tick can make a refunded bucket look exhausted. */
  lemma RefundWraps()
    ensures var cfg := Rate(1, 10); !Steady(SSIZE_MAX, cfg, 1) && Refilled(SSIZE_MAX, cfg, 1) <= 0
  {
    SteadyStaysPositive(SSIZE_MAX, Rate(1, 10), 1);
  }

  /** The exception is real: one tick on a bucket refunded past its maximum grows it further. */
  lemma RefundOverflows()
    ensures Refilled(11, Rate(1, 10), 1) == 12 && Min(10, 11 + 1 * 1) == 10
  {
    UnsignedNeg(-1);
    DivLess(TWO64 - 1, 1, 1);
    UnsignedSmall(1);
    UnsignedSmall(12);
  }

  /** Two refills in a row are one refill for all the ticks. */
  lemma RefilledTwice(limit: int, cfg: Rate, n: nat, m: nat)
    requires cfg.Ok() && n > 0 && m > 0 && Ssize(limit) && limit <= cfg.maximum
    ensures Refilled(Refilled(limit, cfg, n), cfg, m) == Refilled(limit, cfg, n + m)
  {
    hide Refilled;
    RefilledIsMin(limit, cfg, n);
    assert n * cfg.rate >= 0 && m * cfg.rate >= 0 && (n + m) * cfg.rate == n * cfg.rate + m * cfg.rate;
    RefilledIsMin(Refilled(limit, cfg, n), cfg, m);
    RefilledIsMin(limit, cfg, n + m);
  }

  // ----- runs -----

  /** One direction of struct ev_token_bucket. */
  datatype Bucket = Bucket(limit: int, lastUpdated: nat)

  /** How many ticks an update at `tick` counts; the subtraction wraps at 32 bits, and going back counts none. */
  function Elapsed(b: Bucket, tick: nat): nat {
    var n := (tick - b.lastUpdated) % TWO32;
    if n > INT_MAX then 0 else n
  }

  /** ev_token_bucket_update_. */
  function Updated(b: Bucket, cfg: Rate, tick: nat): Bucket {
    var n := Elapsed(b, tick);
    if n == 0 then b else Bucket(Refilled(b.limit, cfg, n), tick)
  }

  datatype Step = Charge(bytes: nat) | Update(tick: nat)

  function After(b: Bucket, cfg: Rate, steps: seq<Step>): Bucket
    decreases |steps|
  {
    if steps == [] then b
    else
      var b' := match steps[0]
        case Charge(n) => b.(limit := b.limit - n)
        case Update(tick) => Updated(b, cfg, tick);
      After(b', cfg, steps[1..])
  }

  function Charged(steps: seq<Step>): nat {
    if steps == [] then 0 else (if steps[0].Charge? then steps[0].bytes else 0) + Charged(steps[1..])
  }

  /** The ticks that the updates of a run counted. */
  function Ticks(b: Bucket, cfg: Rate, steps: seq<Step>): nat
    decreases |steps|
  {
    if steps == [] then 0
    else
      match steps[0]
      case Charge(n) => Ticks(b.(limit := b.limit - n), cfg, steps[1..])
      case Update(tick) => Elapsed(b, tick) + Ticks(Updated(b, cfg, tick), cfg, steps[1..])
  }

  /** No charge of the run makes the signed limit wrap. */
  ghost predicate InRange(b: Bucket, cfg: Rate, steps: seq<Step>)
    decreases |steps|
  {
    Ssize(b.limit) && (steps == [] ||
      match steps[0]
      case Charge(n) => InRange(b.(limit := b.limit - n), cfg, steps[1..])
      case Update(tick) => InRange(Updated(b, cfg, tick), cfg, steps[1..]))
  }

  lemma UpdatedBounds(b: Bucket, cfg: Rate, tick: nat)
    requires cfg.Ok() && Ssize(b.limit) && b.limit <= cfg.maximum
    ensures b.limit <= Updated(b, cfg, tick).limit <= cfg.maximum
    ensures Updated(b, cfg, tick).limit <= b.limit + Elapsed(b, tick) * cfg.rate
    ensures Updated(b, cfg, tick).limit == Min(cfg.maximum, b.limit + Elapsed(b, tick) * cfg.rate)
  {
    hide Refilled;
    var n := Elapsed(b, tick);
    if n > 0 {
      RefilledIsMin(b.limit, cfg, n);
    }
    assert n * cfg.rate >= 0;
  }

  /** Every update of the run is at a tick less than 2^31 after the one before. */
  ghost predicate Forward(b: Bucket, cfg: Rate, steps: seq<Step>)
    decreases |steps|
  {
    steps == [] ||
      match steps[0]
      case Charge(n) => Forward(b.(limit := b.limit - n), cfg, steps[1..])
      case Update(tick) => b.lastUpdated <= tick <= b.lastUpdated + INT_MAX
                           && Forward(Updated(b, cfg, tick), cfg, steps[1..])
  }

  /** Then the ticks that were counted are the ticks that passed. */
  lemma {:induction false} TicksPassed(b: Bucket, cfg: Rate, steps: seq<Step>)
    requires Forward(b, cfg, steps)
    ensures b.lastUpdated + Ticks(b, cfg, steps) == After(b, cfg, steps).lastUpdated
    decreases |steps|
  {
    hide Refilled;
    if steps != [] {
      match steps[0]
      case Charge(n) => TicksPassed(b.(limit := b.limit - n), cfg, steps[1..]);
      case Update(tick) =>
        assert Elapsed(b, tick) == tick - b.lastUpdated;
        TicksPassed(Updated(b, cfg, tick), cfg, steps[1..]);
    }
  }

  /** So what is charged between two moments is bounded by the ticks between them. */
  lemma BoundedByTime(b: Bucket, cfg: Rate, steps: seq<Step>)
    requires cfg.Ok() && b.limit <= cfg.maximum && InRange(b, cfg, steps) && Forward(b, cfg, steps)
    ensures var b' := After(b, cfg, steps);
      b.lastUpdated <= b'.lastUpdated
      && Charged(steps) <= b.limit + (b'.lastUpdated - b.lastUpdated) * cfg.rate - b'.limit
  {
    hide After, Charged, InRange, Forward, Ticks;
    TicksPassed(b, cfg, steps);
    RunIsBounded(b, cfg, steps);
  }

  /** Over any run, what was charged is covered by the initial limit and the ticks that the updates counted. */
  lemma {:induction false} RunIsBounded(b: Bucket, cfg: Rate, steps: seq<Step>)
    requires cfg.Ok() && b.limit <= cfg.maximum && InRange(b, cfg, steps)
    ensures After(b, cfg, steps).limit <= cfg.maximum
    ensures Charged(steps) <= b.limit + Ticks(b, cfg, steps) * cfg.rate - After(b, cfg, steps).limit
    decreases |steps|
  {
    hide Updated, Elapsed;
    if steps != [] {
      match steps[0]
      case Charge(n) => RunIsBounded(b.(limit := b.limit - n), cfg, steps[1..]);
      case Update(tick) =>
        UpdatedBounds(b, cfg, tick);
        RunIsBounded(Updated(b, cfg, tick), cfg, steps[1..]);
        TicksAdd(Elapsed(b, tick), Ticks(Updated(b, cfg, tick), cfg, steps[1..]), cfg.rate);
    }
  }

  lemma TicksAdd(e: nat, t: nat, rate: nat)
    ensures (e + t) * rate == e * rate + t * rate
  {
  }
}
