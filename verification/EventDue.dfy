/** When a timeout fires: at the first chance at or after its deadline, and never before (event.c). */
module EventDue {
  import opened Common
  import opened EventBases
  import opened EventAdds
  import opened EventTimers
  import opened EventRuns

  /** What became of the timeout: the call at which it fired, or before which it was left, because that call names the
      event or starts its callback. */
  datatype Fate = NotAdded | Fired(at: nat) | Left(at: nat) | Waits

  /** What held before a call: whether a callback was running, and whether it was that of the event's common queue. */
  datatype Seen = Seen(busy: bool, serving: bool)

  /** The time of a call that fires timeouts of this kind, when it is made: timeout_process, while no callback is
      running, or the callback of the common queue. */
  function Chance(common: Option<nat>, op: Op, seen: Seen): Option<int> {
    match op
    case TimeoutOp(now) => if common.None? && !seen.busy then Some(now) else None
    case ReturnOp(now) => if common.Some? && seen.serving then Some(now) else None
    case _ => None
  }

  predicate Before(chance: Option<int>, due: int) {
    chance.Some? ==> chance.value < due
  }

  /** A callback is running after a call if it was before, until it returns; only TakeOp starts one. */
  predicate Follows(busy: bool, op: Op, busy': bool) {
    match op
    case ReturnOp(_) => !busy'
    case TakeOp(_) => busy ==> busy'
    case _ => busy' == busy
  }

  /** The first n calls were no chance to fire at or after the deadline. */
  predicate AllBefore(common: Option<nat>, ops: seq<Op>, seen: seq<Seen>, n: nat, due: int)
    requires n <= |ops| && n <= |seen|
  {
    forall i :: 0 <= i < n ==> Before(Chance(common, ops[i], seen[i]), due)
  }

  /** ev waits, in the heap or in the common queue of its timeout. */
  ghost predicate Waiting(b: Base, ev: Event, due: int, common: Option<nat>)
    reads b, ev
  {
    ev in b.known && ev !in b.timers && ev.onTimeout && ev.timeout == Timeval(due, common)
  }

  /** event_add with a delay, and any calls after it. The event fires at the first chance at or after its deadline,
      which is the delay after the call; until then it waits, whatever else is done. */
  method AddAndWait(b: Base, pool: seq<Event>, k: nat, tv: Timeval, now: int, mapOk: bool, ops: seq<Op>)
      returns (fate: Fate, seen: seq<Seen>, pool': seq<Event>)
    requires Sound(b) && Held(b, pool) && k < |pool| && pool[k].init && Usable(b, Some(tv))
    modifies b, b.known
    ensures Sound(b) && Held(b, pool')
    ensures fate == NotAdded <==>
      old(pool[k].finalizing)
      || (old(NeedsMap(pool[k].Now(), pool[k].mapped)) && pool[k].watch.fd >= 0 && !mapOk)
    ensures seen != [] ==> seen[0].busy == (old(b.currentEvent) != null)
    ensures |seen| <= |ops| && forall i :: 0 < i < |seen| ==> Follows(seen[i - 1].busy, ops[i - 1], seen[i].busy)
    ensures match fate
      case NotAdded => seen == []
      case Fired(at) =>
        && |seen| == at + 1 && AllBefore(tv.common, ops, seen, at, now + tv.usec)
        && !Before(Chance(tv.common, ops[at], seen[at]), now + tv.usec)
        && !pool[k].onTimeout && pool[k].active && pool[k].res == {Timeout}
      case Left(at) =>
        && |seen| == at < |ops| && AllBefore(tv.common, ops, seen, at, now + tv.usec)
        && Waiting(b, pool[k], now + tv.usec, tv.common) && Touches(b, pool', ops[at], pool[k])
      case Waits =>
        && |seen| == |ops| && AllBefore(tv.common, ops, seen, |ops|, now + tv.usec)
        && Waiting(b, pool[k], now + tv.usec, tv.common)
    // for a common queue, a tick at or after the deadline has made the queue's timer active
    ensures fate == Waits && ops != [] && !seen[|ops| - 1].busy && tv.common.Some? ==>
      match ops[|ops| - 1]
      case TimeoutOp(t) =>
        t >= now + tv.usec ==> tv.common.value < |b.timers| && b.timers[tv.common.value].active
      case _ => true
  {
    hide Sound, Base.Valid, NeedsMap, WhenAdded, AllBefore, Follows, Touches, QueuesCalled;
    InSound(b);
    pool', seen := pool, [];
    var ok := Add(b, pool[k], Some(tv), now, mapOk);
    if !ok {
      return NotAdded, seen, pool';
    }
    fate, seen, pool' := Await(b, pool, pool[k], now + tv.usec, tv.common, ops);
    if fate == Waits && ops != [] && tv.common.Some? && ops[|ops| - 1].TimeoutOp? && !seen[|ops| - 1].busy
       && ops[|ops| - 1].now >= now + tv.usec {
      Called(b, pool[k], now + tv.usec, tv.common, ops[|ops| - 1].now);
    }
  }

  /** Any calls, while an event waits. */
  method Await(b: Base, pool: seq<Event>, ev: Event, due: int, common: Option<nat>, ops: seq<Op>)
      returns (fate: Fate, seen: seq<Seen>, pool': seq<Event>)
    requires Sound(b) && Held(b, pool) && Waiting(b, ev, due, common)
    modifies b, b.known
    ensures Sound(b) && Held(b, pool') && !fate.NotAdded?
    ensures seen != [] ==> seen[0].busy == (old(b.currentEvent) != null)
    ensures |seen| <= |ops| && forall i :: 0 < i < |seen| ==> Follows(seen[i - 1].busy, ops[i - 1], seen[i].busy)
    ensures match fate
      case NotAdded => true
      case Fired(at) =>
        && |seen| == at + 1 && AllBefore(common, ops, seen, at, due) && !Before(Chance(common, ops[at], seen[at]), due)
        && !ev.onTimeout && ev.active && ev.res == {Timeout}
      case Left(at) =>
        && |seen| == at < |ops| && AllBefore(common, ops, seen, at, due)
        && Waiting(b, ev, due, common) && Touches(b, pool', ops[at], ev)
      case Waits => |seen| == |ops| && AllBefore(common, ops, seen, |ops|, due) && Waiting(b, ev, due, common)
    ensures fate == Waits && ops != [] && ops[|ops| - 1].TimeoutOp? && !seen[|ops| - 1].busy ==>
      QueuesCalled(b, ops[|ops| - 1].now)
  {
    hide Sound, Base.Valid, Chance, Before, Follows, QueuesCalled, Touches, Waiting, Held;
    pool', seen := pool, [];
    var i, busy := 0, b.currentEvent != null;
    while i < |ops|
      invariant 0 <= i == |seen| <= |ops| && Sound(b) && Held(b, pool')
      invariant Waiting(b, ev, due, common) && AllBefore(common, ops, seen, i, due)
      invariant b.known >= old(b.known) && fresh(b.known - old(b.known))
      invariant busy == (b.currentEvent != null)
      invariant if i == 0 then busy == (old(b.currentEvent) != null)
                else seen[0].busy == (old(b.currentEvent) != null) && Follows(seen[i - 1].busy, ops[i - 1], busy)
      invariant forall j :: 0 < j < i ==> Follows(seen[j - 1].busy, ops[j - 1], seen[j].busy)
      invariant i > 0 && ops[i - 1].TimeoutOp? && !seen[i - 1].busy ==> QueuesCalled(b, ops[i - 1].now)
    {
      if Touches(b, pool', ops[i], ev) {
        return Left(i), seen, pool';
      }
      var s, fired;
      pool', s, fired := OneCall(b, pool', ops[i], ev, due, common);
      seen := seen + [s];
      if fired {
        return Fired(i), seen, pool';
      }
      busy := b.currentEvent != null;
      i := i + 1;
    }
    fate := Waits;
  }

  lemma Called(b: Base, ev: Event, due: int, common: Option<nat>, now: int)
    requires Waiting(b, ev, due, common) && QueuesCalled(b, now) && due <= now && common.Some?
    ensures common.value < |b.timers| && b.timers[common.value].active
  {
  }

  /** One call that does not touch the event. */
  method OneCall(b: Base, pool: seq<Event>, op: Op, ev: Event, due: int, common: Option<nat>)
      returns (pool': seq<Event>, s: Seen, fired: bool)
    requires Sound(b) && Held(b, pool) && Waiting(b, ev, due, common) && !Touches(b, pool, op, ev)
    modifies b, b.known
    ensures Sound(b) && Held(b, pool')
    ensures b.known >= old(b.known) && fresh(b.known - old(b.known))
    ensures s.busy == (old(b.currentEvent) != null) && Follows(s.busy, op, b.currentEvent != null)
    ensures fired <==> !Before(Chance(common, op, s), due)
    ensures if fired then !ev.onTimeout && ev.active && ev.res == {Timeout} else Waiting(b, ev, due, common)
    ensures op.TimeoutOp? && !s.busy ==> QueuesCalled(b, op.now)
  {
    hide Sound, Base.Valid, QueuesCalled, Touches;
    s := Seen(b.currentEvent != null, common.Some? && Running(b, common.value));
    fired := !Before(Chance(common, op, s), due);
    assert fired <==> Fires(b, op, ev);
    pool' := Perform(b, pool, op);
  }
}
