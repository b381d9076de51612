/** Whole runs over two evbuffers: the chains always stand for the byte sequences the calls describe (buffer.c). */
module EvbufferRuns {
  import opened ByteSeq
  import opened Common
  import opened Chains
  import opened Evbuffers
  import opened EvbufferPtrs
  import opened EvbufferSearch
  import opened EvbufferMoves
  import opened EvbufferRemoves
  import opened EvbufferGrow
  import opened EvbufferRead

  /** The most bytes that one chain can be made for. */
  const ONE_CHAIN: nat := CHAIN_MAX - CHAIN_SIZE

  /** One call; `left` picks the buffer that is written, or from which bytes are taken. */
  datatype Op =
    | AddOp(left: bool, data: seq<byte>)
    | PrependOp(left: bool, data: seq<byte>)
    | DrainOp(left: bool, len: nat)
    | RemoveOp(left: bool, len: nat)
    | ReadlnOp(left: bool, style: EolStyle)
    | ReadOp(left: bool, howmuch: int, ready: int, input: Option<seq<byte>>)
    | PullupOp(left: bool, size: int)
    | ExpandOp(left: bool, len: nat)
    | ExpandFastOp(left: bool, len: nat)
    | FreezeOp(left: bool, atFront: bool, on: bool)
    | DeferredOp(left: bool)
    | AddBufferOp(left: bool)
    | PrependBufferOp(left: bool)
    | RemoveBufferOp(left: bool, len: nat)
  {
    predicate TwoBuffers() { AddBufferOp? || PrependBufferOp? || RemoveBufferOp? }
    predicate Grows() { AddOp? || PrependOp? || ReadOp? }
    predicate Takes() { DrainOp? || RemoveOp? || ReadlnOp? }
  }

  // ----- the specification: plain byte sequences -----

  /** A queue of bytes, and whether its ends are frozen. */
  datatype Queue = Queue(bytes: seq<byte>, noStart: bool, noEnd: bool)

  const EMPTY: Queue := Queue([], false, false)

  datatype Pair = Pair(x: Queue, y: Queue) {
    function Get(left: bool): Queue { if left then x else y }
    function Put(left: bool, q: Queue): Pair { if left then Pair(q, y) else Pair(x, q) }
  }

  const NOTHING: Pair := Pair(EMPTY, EMPTY)

  /** The end of the first line, if there is one, and the length of its terminator. */
  ghost function Line(s: seq<byte>, style: EolStyle): Option<(nat, nat)> {
    if exists e, n :: EolAt(s, 0, style, e, n) then
      var e, n :| EolAt(s, 0, style, e, n);
      Some((e, n))
    else None
  }

  lemma LineIs(s: seq<byte>, style: EolStyle, e: int, n: int)
    requires EolAt(s, 0, style, e, n)
    ensures e >= 0 && n >= 0 && e + n <= |s| && Line(s, style) == Some((e, n))
  {
    var r := Line(s, style).value;
    EolUnique(s, 0, style, e, n, r.0, r.1);
  }

  lemma NoLine(s: seq<byte>, style: EolStyle)
    ensures NoEol(s, 0, style) <==> Line(s, style) == None
  {
    hide EolAt, NoEol;
    NoEolMeansNone(s, 0, style);
  }

  lemma LineInside(s: seq<byte>, style: EolStyle)
    ensures Line(s, style).Some? ==> Line(s, style).value.0 + Line(s, style).value.1 <= |s|
  {
  }

  /** What a call that touches one buffer only does to it. */
  ghost function Alone(q: Queue, op: Op): Queue {
    var s := q.bytes;
    LineInside(s, if op.ReadlnOp? then op.style else Lf);
    match op
    case AddOp(_, data) => if q.noEnd then q else q.(bytes := s + data)
    case PrependOp(_, data) => if q.noStart then q else q.(bytes := data + s)
    case DrainOp(_, len) => if q.noStart then q else q.(bytes := s[Min(len, |s|)..])
    case RemoveOp(_, len) => if q.noStart then q else q.(bytes := s[Min(len, |s|)..])
    case ReadlnOp(_, style) =>
      (match Line(s, style)
       case None => q
       case Some((e, n)) => if q.noStart then q else q.(bytes := s[e + n..]))
    case ReadOp(_, _, _, input) => if q.noEnd || input == None then q else q.(bytes := s + input.value)
    case FreezeOp(_, atFront, on) => if atFront then q.(noStart := on) else q.(noEnd := on)
    case _ => q
  }

  /** What each call does to the queues; the two-buffer ones do nothing where an end is frozen. */
  ghost function Step(p: Pair, op: Op): Pair {
    var q, o := p.Get(op.left), p.Get(!op.left);
    var s, t := q.bytes, o.bytes;
    match op
    case AddBufferOp(_) => if q.noEnd || o.noStart then p else Both(p, op.left, s + t, [])
    case PrependBufferOp(_) => if q.noStart || o.noStart then p else Both(p, op.left, t + s, [])
    case RemoveBufferOp(_, len) =>
      if q.noEnd || o.noStart then p else Both(p, op.left, s + t[..Min(len, |t|)], t[Min(len, |t|)..])
    case _ => p.Put(op.left, Alone(q, op))
  }

  function Both(p: Pair, left: bool, s: seq<byte>, t: seq<byte>): Pair {
    p.Put(left, p.Get(left).(bytes := s)).Put(!left, p.Get(!left).(bytes := t))
  }

  /** What each call hands back. */
  ghost function Given(p: Pair, op: Op): Option<seq<byte>> {
    Handed(p.Get(op.left), op)
  }

  ghost function Handed(q: Queue, op: Op): Option<seq<byte>> {
    var s := q.bytes;
    LineInside(s, if op.ReadlnOp? then op.style else Lf);
    match op
    case RemoveOp(_, len) => if q.noStart && len > 0 && s != [] then None else Some(s[..Min(len, |s|)])
    case ReadlnOp(_, style) => if q.noStart || Line(s, style) == None then None else Some(s[..Line(s, style).value.0])
    case _ => None
  }

  // ----- what the callbacks hear of it -----

  /** The callbacks are run, after some bytes went in and some were taken out; or the event loop runs the deferred
      ones. */
  datatype Turn = Change(added: nat, deleted: nat) | Late

  /** The turns of a call that touches one buffer only. A line and its terminator are taken out separately. */
  ghost function TurnsAlone(q: Queue, op: Op): seq<Turn> {
    var s := q.bytes;
    LineInside(s, if op.ReadlnOp? then op.style else Lf);
    match op
    case AddOp(_, data) => if q.noEnd then [] else [Change(|data|, 0)]
    case PrependOp(_, data) => if q.noStart then [] else [Change(|data|, 0)]
    case DrainOp(_, len) => if q.noStart || s == [] then [] else [Change(0, Min(len, |s|))]
    case RemoveOp(_, len) => if q.noStart || len == 0 || s == [] then [] else [Change(0, Min(len, |s|))]
    case ReadlnOp(_, style) =>
      (match Line(s, style)
       case None => []
       case Some((e, n)) =>
         if q.noStart then [] else if e == 0 then [Change(0, n)] else [Change(0, e), Change(0, n)])
    case ReadOp(_, _, _, input) =>
      if q.noEnd || input == None || input.value == [] then [] else [Change(|input.value|, 0)]
    case DeferredOp(_) => [Late]
    case _ => []
  }

  /** The turns of a call for one of the buffers. Where a part of one moves to the other, the callbacks of the latter
      are run a second time. */
  ghost function Turns(p: Pair, op: Op, left: bool): seq<Turn> {
    var q, o := p.Get(op.left), p.Get(!op.left);
    var n := Moved(q, o, op);
    if !op.TwoBuffers() then if left == op.left then TurnsAlone(q, op) else []
    else if n == 0 then []
    else if left != op.left then [Change(0, n)]
    else if n < |o.bytes| then [Change(n, 0), Change(0, 0)]
    else [Change(n, 0)]
  }

  /** How many bytes go from o to q. */
  function Moved(q: Queue, o: Queue, op: Op): nat {
    match op
    case AddBufferOp(_) => if q.noEnd || o.noStart then 0 else |o.bytes|
    case PrependBufferOp(_) => if q.noStart || o.noStart then 0 else |o.bytes|
    case RemoveBufferOp(_, len) => if q.noEnd || o.noStart then 0 else Min(len, |o.bytes|)
    case _ => 0
  }

  /** What is noted after some turns of a buffer of len bytes. */
  function After(t: Tally, callbacks: bool, deferred: bool, len: int, turns: seq<Turn>): Tally
    decreases |turns|
  {
    if turns == [] then t
    else match turns[0]
      case Change(n, m) =>
        After(Tell(t, callbacks, deferred, len, n, m), callbacks, deferred, len + n - m, turns[1..])
      case Late =>
        After(if deferred then TellLate(t, callbacks, len) else t, callbacks, deferred, len, turns[1..])
  }

  lemma AfterFew(t: Tally, callbacks: bool, deferred: bool, len: int, x: Turn, y: Turn)
    ensures After(t, callbacks, deferred, len, []) == t
    ensures x.Change? ==>
      var u := Tell(t, callbacks, deferred, len, x.added, x.deleted);
      After(t, callbacks, deferred, len, [x]) == u
      && (y.Change? ==> After(t, callbacks, deferred, len, [x, y]) ==
                        Tell(u, callbacks, deferred, len + x.added - x.deleted, y.added, y.deleted))
    ensures x.Late? && deferred ==> After(t, callbacks, deferred, len, [x]) == TellLate(t, callbacks, len)
    ensures x.Late? && !deferred ==> After(t, callbacks, deferred, len, [x]) == t
  {
    hide Tell, TellLate;
    assert [x, y][1..] == [y] && [x][1..] == [];
    if x.Change? {
      var u := Tell(t, callbacks, deferred, len, x.added, x.deleted);
      assert After(u, callbacks, deferred, len + x.added - x.deleted, []) == u;
      if y.Change? {
        var v := Tell(u, callbacks, deferred, len + x.added - x.deleted, y.added, y.deleted);
        assert [y][1..] == [];
        assert After(u, callbacks, deferred, len + x.added - x.deleted, [y]) == v;
      }
    }
  }

  // ----- runs of calls -----

  ghost function Final(p: Pair, ops: seq<Op>): Pair
    decreases |ops|
  {
    if ops == [] then p else Final(Step(p, ops[0]), ops[1..])
  }

  ghost function Outputs(p: Pair, ops: seq<Op>): seq<Option<seq<byte>>>
    decreases |ops|
  {
    if ops == [] then [] else [Given(p, ops[0])] + Outputs(Step(p, ops[0]), ops[1..])
  }

  /** The turns of a run for one of the buffers. */
  ghost function AllTurns(p: Pair, ops: seq<Op>, left: bool): seq<Turn>
    decreases |ops|
  {
    if ops == [] then [] else Turns(p, ops[0], left) + AllTurns(Step(p, ops[0]), ops[1..], left)
  }

  const UNTOLD: Tally := Tally(0, 0, [], [])

  /** What a run on two new buffers leaves noted of one of them. */
  ghost function NotedOf(ops: seq<Op>, callbacks: bool, deferred: bool, left: bool): Tally {
    After(UNTOLD, callbacks, deferred, 0, AllTurns(NOTHING, ops, left))
  }

  lemma {:induction false} OneMoreCall(p: Pair, ops: seq<Op>, op: Op)
    ensures Final(p, ops + [op]) == Step(Final(p, ops), op)
    ensures Outputs(p, ops + [op]) == Outputs(p, ops) + [Given(Final(p, ops), op)]
    decreases |ops|
  {
    hide Step, Given;
    if ops == [] {
      assert ops + [op] == [op];
      assert Final(Step(p, op), [op][1..]) == Step(p, op);
    } else {
      assert (ops + [op])[1..] == ops[1..] + [op];
      OneMoreCall(Step(p, ops[0]), ops[1..], op);
    }
  }

  lemma {:induction false} OneMoreTurns(p: Pair, ops: seq<Op>, op: Op, left: bool)
    ensures AllTurns(p, ops + [op], left) == AllTurns(p, ops, left) + Turns(Final(p, ops), op, left)
    decreases |ops|
  {
    hide Step, Turns;
    if ops == [] {
      assert ops + [op] == [op];
      assert AllTurns(Step(p, op), [op][1..], left) == [];
    } else {
      assert (ops + [op])[1..] == ops[1..] + [op];
      OneMoreTurns(Step(p, ops[0]), ops[1..], op, left);
    }
  }

  /** By how much turns make a buffer longer. */
  function Net(turns: seq<Turn>): int {
    if turns == [] then 0
    else (if turns[0].Change? then turns[0].added - turns[0].deleted else 0) + Net(turns[1..])
  }

  lemma {:induction false} AfterBoth(t: Tally, callbacks: bool, deferred: bool, len: int, x: seq<Turn>, y: seq<Turn>)
    ensures Net(x + y) == Net(x) + Net(y)
    ensures After(t, callbacks, deferred, len, x + y)
         == After(After(t, callbacks, deferred, len, x), callbacks, deferred, len + Net(x), y)
    decreases |x|
  {
    hide Tell, TellLate;
    if x == [] {
      assert x + y == y;
    } else {
      assert (x + y)[1..] == x[1..] + y;
      match x[0]
      case Change(n, m) =>
        AfterBoth(Tell(t, callbacks, deferred, len, n, m), callbacks, deferred, len + n - m, x[1..], y);
      case Late =>
        AfterBoth(if deferred then TellLate(t, callbacks, len) else t, callbacks, deferred, len, x[1..], y);
    }
  }

  /** Every call changes the length by what its turns say. */
  lemma TurnsNet(p: Pair, op: Op, left: bool)
    ensures Net(Turns(p, op, left)) == |Step(p, op).Get(left).bytes| - |p.Get(left).bytes|
  {
    hide Net, TurnsAlone, Alone;
    NetFew([]);
    if op.TwoBuffers() {
      NetFew(Turns(p, op, left));
    } else {
      AloneNet(p.Get(op.left), op);
    }
  }

  lemma AloneNet(q: Queue, op: Op)
    ensures Net(TurnsAlone(q, op)) == |Alone(q, op).bytes| - |q.bytes|
  {
    hide Net, Line;
    LineInside(q.bytes, if op.ReadlnOp? then op.style else Lf);
    NetFew(TurnsAlone(q, op));
  }

  lemma NetFew(turns: seq<Turn>)
    ensures turns == [] ==> Net(turns) == 0
    ensures |turns| == 1 && turns[0].Change? ==> Net(turns) == turns[0].added - turns[0].deleted
    ensures |turns| == 1 && turns[0].Late? ==> Net(turns) == 0
    ensures |turns| == 2 && turns[0].Change? && turns[1].Change? ==>
      Net(turns) == turns[0].added - turns[0].deleted + turns[1].added - turns[1].deleted
  {
    if |turns| == 2 {
      assert Net(turns[1..][1..]) == 0;
    }
  }

  lemma {:induction false} AllTurnsNet(p: Pair, ops: seq<Op>, left: bool)
    ensures Net(AllTurns(p, ops, left)) == |Final(p, ops).Get(left).bytes| - |p.Get(left).bytes|
    decreases |ops|
  {
    hide Step, Turns;
    if ops != [] {
      TurnsNet(p, ops[0], left);
      AllTurnsNet(Step(p, ops[0]), ops[1..], left);
      AfterBoth(UNTOLD, false, false, 0, Turns(p, ops[0], left), AllTurns(Step(p, ops[0]), ops[1..], left));
    }
  }

  /** What one more call leaves noted. */
  lemma OneMoreNoted(ops: seq<Op>, op: Op, callbacks: bool, deferred: bool, left: bool)
    ensures NotedOf(ops + [op], callbacks, deferred, left)
         == After(NotedOf(ops, callbacks, deferred, left), callbacks, deferred,
                  |Final(NOTHING, ops).Get(left).bytes|, Turns(Final(NOTHING, ops), op, left))
  {
    hide Step, Turns, After, AllTurns, Final, Net;
    AllTurnsNet(NOTHING, [], left);
    OneMoreTurns(NOTHING, ops, op, left);
    AllTurnsNet(NOTHING, ops, left);
    AfterBoth(UNTOLD, callbacks, deferred, 0, AllTurns(NOTHING, ops, left), Turns(Final(NOTHING, ops), op, left));
  }

  function Inserted(op: Op): seq<byte> {
    match op
    case AddOp(_, data) => data
    case PrependOp(_, data) => data
    case ReadOp(_, _, _, input) => if input.Some? then input.value else []
    case _ => []
  }

  /** The sizes stay within the size type, the data added within one chain, and what is read within what was asked. */
  predicate Fits(p: Pair, op: Op) {
    && |Inserted(op)| <= ONE_CHAIN && |p.x.bytes| + |p.y.bytes| + |Inserted(op)| <= SIZE_MAX
    && (op.ReadOp? && op.input.Some? ==> |op.input.value| <= ReadLimit(op.howmuch, op.ready))
  }

  // ----- gaps -----

  /** Which of the two buffers is known to have no gap. */
  datatype Gaps = Gaps(x: bool, y: bool) {
    predicate Free(p: Pair, left: bool) {
      (if left then x else y) || p.Get(left).bytes == []
    }
    function Put(left: bool, free: bool): Gaps { if left then Gaps(free, y) else Gaps(x, free) }
  }

  /** Only evbuffer_prepend_buffer between two buffers with data can open a gap; an empty buffer has none. */
  function Tracked(p: Pair, g: Gaps, op: Op): Gaps {
    var s, t := g.Free(p, op.left), g.Free(p, !op.left);
    match op
    case AddBufferOp(_) => g.Put(op.left, s && t).Put(!op.left, t)
    case PrependBufferOp(_) => g.Put(op.left, s && t && (p.x.bytes == [] || p.y.bytes == [])).Put(!op.left, t)
    case RemoveBufferOp(_, _) => g.Put(op.left, s && t).Put(!op.left, t)
    case _ => g.Put(op.left, s).Put(!op.left, t)
  }

  /** Every call fits, and bytes are moved only out of a buffer that is known to have no gap. */
  ghost predicate Sure(p: Pair, g: Gaps, ops: seq<Op>)
    decreases |ops|
  {
    ops == [] || (Fits(p, ops[0]) && (ops[0].RemoveBufferOp? ==> g.Free(p, !ops[0].left))
                  && Sure(Step(p, ops[0]), Tracked(p, g, ops[0]), ops[1..]))
  }

  // ----- the buffers -----

  ghost function QueueOf(buf: Evbuffer): Queue
    reads buf
  {
    Queue(buf.Bytes(), buf.freezeStart, buf.freezeEnd)
  }

  /** What is noted after some turns. */
  ghost function NotedAfter(buf: Evbuffer, turns: seq<Turn>): Tally
    reads buf
  {
    After(buf.Noted(), buf.hasCallbacks, buf.deferredCbs, |buf.Bytes()|, turns)
  }

  ghost function PairOf(a: Evbuffer, b: Evbuffer): Pair
    reads a, b
  {
    Pair(QueueOf(a), QueueOf(b))
  }

  /** What is kept between calls. */
  ghost predicate Tidy(a: Evbuffer, b: Evbuffer, g: Gaps)
    reads a, b
  {
    && a != b && a.Valid() && b.Valid() && Apart(a, b) && Apart(b, a)
    && (g.x ==> a.GapFree()) && (g.y ==> b.GapFree())
  }

  lemma EmptyGapFree(buf: Evbuffer)
    requires buf.Valid() && buf.Bytes() == []
    ensures buf.GapFree()
  {
    hide Flatten;
    if !buf.GapFree() {
      var i, j :| 0 <= i < j < |buf.chains| && buf.chains[j].off > 0 && buf.chains[i].off == 0;
      FlattenAt(buf.chains, j);
    }
  }

  /** The flags that the bytes show, beside those that were kept. */
  lemma FreeMeans(a: Evbuffer, b: Evbuffer, g: Gaps)
    requires Tidy(a, b, g)
    ensures g.Free(PairOf(a, b), true) ==> a.GapFree()
    ensures g.Free(PairOf(a, b), false) ==> b.GapFree()
  {
    hide Flatten, NoGap, Good;
    if a.Bytes() == [] {
      EmptyGapFree(a);
    }
    if b.Bytes() == [] {
      EmptyGapFree(b);
    }
  }

  lemma AloneMeans(p: Pair, g: Gaps, op: Op)
    requires op.left && !op.TwoBuffers()
    ensures Step(p, op) == p.Put(true, Alone(p.x, op)) && Given(p, op) == Handed(p.x, op)
    ensures Turns(p, op, true) == TurnsAlone(p.x, op) && Turns(p, op, false) == []
    ensures Tracked(p, g, op) == Gaps(g.Free(p, true), g.Free(p, false))
  {
    hide Alone, TurnsAlone, Line;
  }

  /** What is noted of a move, on both sides. */
  lemma MoveTurns(p: Pair, op: Op, t: Tally, callbacks: bool, deferred: bool, t': Tally, callbacks': bool,
                  deferred': bool)
    requires op.left && op.TwoBuffers()
    ensures var n, m, len := Moved(p.x, p.y, op), |p.x.bytes|, |p.y.bytes|;
      var once := Tell(t, callbacks, deferred, m, n, 0);
      && After(t, callbacks, deferred, m, Turns(p, op, true)) ==
         (if n == 0 then t else if n == len then once else Tell(once, callbacks, deferred, m + n, 0, 0))
      && After(t', callbacks', deferred', len, Turns(p, op, false)) ==
         (if n == 0 then t' else Tell(t', callbacks', deferred', len, 0, n))
  {
    hide After, Tell;
    var n := Moved(p.x, p.y, op);
    AfterFew(t, callbacks, deferred, |p.x.bytes|, Change(n, 0), Change(0, 0));
    AfterFew(t', callbacks', deferred', |p.y.bytes|, Change(0, n), Late);
  }

  lemma MoveGaps(p: Pair, g: Gaps, op: Op)
    requires op.left && op.AddBufferOp?
    ensures Tracked(p, g, op) == Gaps(g.Free(p, true) && g.Free(p, false), g.Free(p, false))
  {
  }

  lemma MoveStep(p: Pair, op: Op)
    requires op.left && (op.AddBufferOp? || op.PrependBufferOp?)
    ensures Step(p, op) ==
      if (if op.AddBufferOp? then p.x.noEnd else p.x.noStart) || p.y.noStart then p
      else Pair(p.x.(bytes := if op.AddBufferOp? then p.x.bytes + p.y.bytes else p.y.bytes + p.x.bytes),
                p.y.(bytes := []))
  {
  }

  /** evbuffer_add_buffer. */
  method PerformAppend(s: Evbuffer, t: Evbuffer, op: Op, ghost g: Gaps)
    requires op.AddBufferOp? && op.left && Tidy(s, t, g) && Fits(PairOf(s, t), op)
    modifies s, t
    ensures Tidy(s, t, Tracked(old(PairOf(s, t)), g, op))
    ensures PairOf(s, t) == Step(old(PairOf(s, t)), op)
    ensures s.Noted() == old(NotedAfter(s, Turns(PairOf(s, t), op, true)))
    ensures t.Noted() == old(NotedAfter(t, Turns(PairOf(s, t), op, false)))
  {
    hide Good, Flatten, NoGap, Addrs, Evbuffer.Accounted, Evbuffer.Shape, Movable, Alone, Line, Inserted, ReadLimit;
    hide After, Tell, Turns, Step, Tracked;
    MoveGaps(PairOf(s, t), g, op);
    MoveStep(PairOf(s, t), op);
    Sizes(s, t);
    FreeMeans(s, t, g);
    Nothing(s.Bytes());
    MoveTurns(PairOf(s, t), op, s.Noted(), s.hasCallbacks, s.deferredCbs, t.Noted(), t.hasCallbacks, t.deferredCbs);
    var _ := AddBuffer(s, t);
  }

  /** evbuffer_prepend_buffer. */
  method PerformPrepend(s: Evbuffer, t: Evbuffer, op: Op, ghost g: Gaps)
    requires op.PrependBufferOp? && op.left && Tidy(s, t, g) && Fits(PairOf(s, t), op)
    modifies s, t
    ensures Tidy(s, t, Tracked(old(PairOf(s, t)), g, op))
    ensures PairOf(s, t) == Step(old(PairOf(s, t)), op)
    ensures s.Noted() == old(NotedAfter(s, Turns(PairOf(s, t), op, true)))
    ensures t.Noted() == old(NotedAfter(t, Turns(PairOf(s, t), op, false)))
  {
    hide Good, Flatten, NoGap, Addrs, Evbuffer.Accounted, Evbuffer.Shape, Movable, Alone, Line, Inserted, ReadLimit;
    hide After, Tell, Turns, Step;
    MoveStep(PairOf(s, t), op);
    Sizes(s, t);
    FreeMeans(s, t, g);
    Nothing(s.Bytes());
    MoveTurns(PairOf(s, t), op, s.Noted(), s.hasCallbacks, s.deferredCbs, t.Noted(), t.hasCallbacks, t.deferredCbs);
    var _ := PrependBuffer(s, t);
    if t.Bytes() == [] {
      EmptyGapFree(t);
    }
  }

  /** evbuffer_remove_buffer. */
  method PerformRemove(s: Evbuffer, t: Evbuffer, op: Op, ghost g: Gaps)
    requires op.RemoveBufferOp? && op.left && Tidy(s, t, g) && Fits(PairOf(s, t), op)
    requires Removable(t, s, op.len)
    modifies s, t
    ensures Tidy(s, t, Tracked(old(PairOf(s, t)), g, op))
    ensures PairOf(s, t) == Step(old(PairOf(s, t)), op)
    ensures s.Noted() == old(NotedAfter(s, Turns(PairOf(s, t), op, true)))
    ensures t.Noted() == old(NotedAfter(t, Turns(PairOf(s, t), op, false)))
  {
    hide Good, Flatten, NoGap, Addrs, Evbuffer.Accounted, Evbuffer.Shape, Movable, Alone, Line, Inserted, ReadLimit;
    hide After, Tell, Turns;
    Sizes(s, t);
    FreeMeans(s, t, g);
    Nothing(s.Bytes());
    MoveTurns(PairOf(s, t), op, s.Noted(), s.hasCallbacks, s.deferredCbs, t.Noted(), t.hasCallbacks, t.deferredCbs);
    var _, _ := RemoveBuffer(t, s, op.len);
  }

  /** A call that touches one buffer only. */
  method PerformAlone(s: Evbuffer, op: Op, ghost others: set<Addr>) returns (r: Option<seq<byte>>)
    requires !op.TwoBuffers() && s.Valid() && Addrs(s.chains) !! others
    requires Fits(Pair(QueueOf(s), EMPTY), op)
    modifies s
    ensures s.Valid() && Addrs(s.chains) !! others && (old(s.GapFree()) ==> s.GapFree())
    ensures QueueOf(s) == Alone(old(QueueOf(s)), op)
    ensures s.Noted() == old(NotedAfter(s, TurnsAlone(QueueOf(s), op)))
    ensures r == Handed(old(QueueOf(s)), op)
  {
    hide Good, Flatten, NoGap, Addrs, Evbuffer.Accounted, Evbuffer.Shape, Unfitted, Line, EolAt, NoEol, After, Tell;
    hide TellLate, Alone, TurnsAlone, Handed, Inserted, ReadLimit;
    if op.Grows() {
      r := PerformIn(s, op, others);
    } else if op.Takes() {
      r := PerformOut(s, op, others);
    } else {
      r := PerformRest(s, op, others);
    }
  }

  /** Bytes go in. */
  method PerformIn(s: Evbuffer, op: Op, ghost others: set<Addr>) returns (r: Option<seq<byte>>)
    requires op.Grows() && s.Valid() && Addrs(s.chains) !! others
    requires Fits(Pair(QueueOf(s), EMPTY), op)
    modifies s
    ensures s.Valid() && Addrs(s.chains) !! others && (old(s.GapFree()) ==> s.GapFree())
    ensures QueueOf(s) == Alone(old(QueueOf(s)), op)
    ensures s.Noted() == old(NotedAfter(s, TurnsAlone(QueueOf(s), op)))
    ensures r == Handed(old(QueueOf(s)), op)
  {
    hide Good, Flatten, NoGap, Addrs, Evbuffer.Accounted, Evbuffer.Shape, Unfitted, Line, EolAt, NoEol, After, Tell;
    hide TellLate;
    Sizes(s, s);
    ghost var x := OnlyTurn(QueueOf(s), op);
    AfterFew(s.Noted(), s.hasCallbacks, s.deferredCbs, |s.Bytes()|, x, x);
    r := None;
    match op
    case AddOp(_, data) =>
      var _ := s.Add(data, others);
    case PrependOp(_, data) =>
      var _ := s.Prepend(data, others);
    case ReadOp(_, howmuch, ready, input) =>
      Nothing(s.Bytes());
      var _ := Read(s, howmuch, ready, input, others);
  }

  /** Bytes are taken out. */
  method PerformOut(s: Evbuffer, op: Op, ghost others: set<Addr>) returns (r: Option<seq<byte>>)
    requires op.Takes() && s.Valid() && Addrs(s.chains) !! others
    requires Fits(Pair(QueueOf(s), EMPTY), op)
    modifies s
    ensures s.Valid() && Addrs(s.chains) !! others && (old(s.GapFree()) ==> s.GapFree())
    ensures QueueOf(s) == Alone(old(QueueOf(s)), op)
    ensures s.Noted() == old(NotedAfter(s, TurnsAlone(QueueOf(s), op)))
    ensures r == Handed(old(QueueOf(s)), op)
  {
    hide Good, Flatten, NoGap, Addrs, Evbuffer.Accounted, Evbuffer.Shape, Unfitted, Line, EolAt, NoEol, After, Tell;
    hide TellLate;
    Sizes(s, s);
    ghost var x := OnlyTurn(QueueOf(s), op);
    AfterFew(s.Noted(), s.hasCallbacks, s.deferredCbs, |s.Bytes()|, x, x);
    r := None;
    match op
    case DrainOp(_, len) =>
      var _ := s.Drain(len);
    case RemoveOp(_, len) =>
      r := TakeOut(s, len);
    case ReadlnOp(_, style) =>
      r := TakeLine(s, style);
  }

  /** The bytes stay. */
  method PerformRest(s: Evbuffer, op: Op, ghost others: set<Addr>) returns (r: Option<seq<byte>>)
    requires !op.TwoBuffers() && !op.Grows() && !op.Takes() && s.Valid() && Addrs(s.chains) !! others
    requires Fits(Pair(QueueOf(s), EMPTY), op)
    modifies s
    ensures s.Valid() && Addrs(s.chains) !! others && (old(s.GapFree()) ==> s.GapFree())
    ensures QueueOf(s) == Alone(old(QueueOf(s)), op)
    ensures s.Noted() == old(NotedAfter(s, TurnsAlone(QueueOf(s), op)))
    ensures r == Handed(old(QueueOf(s)), op)
  {
    hide Good, Flatten, NoGap, Addrs, Evbuffer.Accounted, Evbuffer.Shape, Unfitted, Line, EolAt, NoEol, After, Tell;
    hide TellLate;
    Sizes(s, s);
    ghost var x := OnlyTurn(QueueOf(s), op);
    AfterFew(s.Noted(), s.hasCallbacks, s.deferredCbs, |s.Bytes()|, x, x);
    r := None;
    match op
    case PullupOp(_, size) =>
      var _ := Pullup(s, size, others);
    case ExpandOp(_, len) =>
      var _, _ := ExpandSinglechain(s, len, others);
    case ExpandFastOp(_, len) =>
      var _ := ExpandFast(s, len, 2, others);
    case FreezeOp(_, atFront, on) =>
      s.Freeze(atFront, on);
    case DeferredOp(_) =>
      s.RunDeferred();
  }

  /** The turn of a call that has one. */
  ghost function OnlyTurn(q: Queue, op: Op): Turn {
    if |TurnsAlone(q, op)| == 1 then TurnsAlone(q, op)[0] else Late
  }

  /** One call on the buffer s, with t the other one. */
  method Perform(s: Evbuffer, t: Evbuffer, op: Op, ghost g: Gaps) returns (r: Option<seq<byte>>)
    requires op.left && Tidy(s, t, g) && Fits(PairOf(s, t), op)
    requires op.RemoveBufferOp? ==> Removable(t, s, op.len)
    modifies s, t
    ensures Tidy(s, t, Tracked(old(PairOf(s, t)), g, op))
    ensures PairOf(s, t) == Step(old(PairOf(s, t)), op)
    ensures s.Noted() == old(NotedAfter(s, Turns(PairOf(s, t), op, true)))
    ensures t.Noted() == old(NotedAfter(t, Turns(PairOf(s, t), op, false)))
    ensures r == Given(old(PairOf(s, t)), op)
  {
    hide Good, Flatten, NoGap, Addrs, Tidy, Fits, Movable, Turns, After, Step, Tracked, Handed;
    if op.TwoBuffers() {
      NothingGiven(PairOf(s, t), op);
    }
    r := None;
    match op
    case AddBufferOp(_) =>
      PerformAppend(s, t, op, g);
    case PrependBufferOp(_) =>
      PerformPrepend(s, t, op, g);
    case RemoveBufferOp(_, _) =>
      PerformRemove(s, t, op, g);
    case _ =>
      r := PerformOne(s, t, op, g);
  }

  lemma NothingGiven(p: Pair, op: Op)
    requires op.TwoBuffers()
    ensures Given(p, op) == None
  {
  }

  /** A call on s that does not touch t. */
  method PerformOne(s: Evbuffer, t: Evbuffer, op: Op, ghost g: Gaps) returns (r: Option<seq<byte>>)
    requires op.left && !op.TwoBuffers() && Tidy(s, t, g) && Fits(PairOf(s, t), op)
    modifies s, t
    ensures Tidy(s, t, Tracked(old(PairOf(s, t)), g, op))
    ensures PairOf(s, t) == Step(old(PairOf(s, t)), op)
    ensures s.Noted() == old(NotedAfter(s, Turns(PairOf(s, t), op, true)))
    ensures t.Noted() == old(NotedAfter(t, Turns(PairOf(s, t), op, false)))
    ensures r == Given(old(PairOf(s, t)), op)
  {
    hide Good, Flatten, NoGap, Addrs, Evbuffer.Accounted, Evbuffer.Shape, Movable, Alone, Line, Inserted, ReadLimit;
    hide TurnsAlone, Turns, After, Step, Tracked, Handed;
    AloneMeans(PairOf(s, t), g, op);
    FreeMeans(s, t, g);
    AfterFew(t.Noted(), t.hasCallbacks, t.deferredCbs, |t.Bytes()|, Late, Late);
    r := PerformAlone(s, op, Addrs(t.chains));
  }

  /** evbuffer_remove, with None for a failure. */
  method TakeOut(s: Evbuffer, len: nat) returns (r: Option<seq<byte>>)
    requires s.Valid()
    modifies s
    ensures s.Valid() && (old(s.GapFree()) ==> s.GapFree()) && Addrs(s.chains) <= old(Addrs(s.chains))
    ensures QueueOf(s) == Alone(old(QueueOf(s)), RemoveOp(true, len))
    ensures s.Noted() == old(NotedAfter(s, TurnsAlone(QueueOf(s), RemoveOp(true, len))))
    ensures r == Handed(old(QueueOf(s)), RemoveOp(true, len))
  {
    hide Good, Flatten, NoGap, Addrs, Evbuffer.Accounted, Evbuffer.Shape, Line, After, Tell;
    ghost var all := s.Bytes();
    Sizes(s, s);
    AfterFew(s.Noted(), s.hasCallbacks, s.deferredCbs, |all|, Change(0, Min(len, |all|)), Late);
    var n, data := Remove(s, len);
    Prefix(data, s.Bytes());
    Nothing(s.Bytes());
    r := if s.freezeStart && len > 0 && n == -1 then None else Some(data);
  }

  /** evbuffer_readln. */
  method TakeLine(s: Evbuffer, style: EolStyle) returns (r: Option<seq<byte>>)
    requires s.Valid()
    modifies s
    ensures s.Valid() && (old(s.GapFree()) ==> s.GapFree()) && Addrs(s.chains) <= old(Addrs(s.chains))
    ensures QueueOf(s) == Alone(old(QueueOf(s)), ReadlnOp(true, style))
    ensures s.Noted() == old(NotedAfter(s, TurnsAlone(QueueOf(s), ReadlnOp(true, style))))
    ensures r == Handed(old(QueueOf(s)), ReadlnOp(true, style))
  {
    hide Good, Flatten, NoGap, Addrs, Evbuffer.Accounted, Evbuffer.Shape, EolAt, NoEol, Line, Alone, Handed;
    hide TurnsAlone, LineTold, After;
    ghost var q, noted := QueueOf(s), s.Noted();
    Sizes(s, s);
    r := Readln(s, style);
    if r.Some? {
      ghost var e, n :| 0 <= e && 0 <= n && e + n <= |q.bytes| && EolAt(q.bytes, 0, style, e, n)
                        && r.value == q.bytes[..e] && s.Bytes() == q.bytes[e + n..]
                        && s.Noted() == LineTold(noted, s.hasCallbacks, s.deferredCbs, |q.bytes|, e, n);
      SomeLine(q, style, e, n);
      SomeLineTold(q, style, e, n, noted, s.hasCallbacks, s.deferredCbs);
    } else {
      NoneTaken(q, style);
      AfterFew(noted, s.hasCallbacks, s.deferredCbs, |q.bytes|, Late, Late);
    }
  }

  lemma SomeLine(q: Queue, style: EolStyle, e: nat, n: nat)
    requires e + n <= |q.bytes| && EolAt(q.bytes, 0, style, e, n) && !q.noStart
    ensures Alone(q, ReadlnOp(true, style)) == q.(bytes := q.bytes[e + n..])
    ensures Handed(q, ReadlnOp(true, style)) == Some(q.bytes[..e])
  {
    hide EolAt, Line;
    LineIs(q.bytes, style, e, n);
  }

  lemma SomeLineTold(q: Queue, style: EolStyle, e: nat, n: nat, t: Tally, callbacks: bool, deferred: bool)
    requires e + n <= |q.bytes| && EolAt(q.bytes, 0, style, e, n) && !q.noStart
    ensures After(t, callbacks, deferred, |q.bytes|, TurnsAlone(q, ReadlnOp(true, style)))
         == LineTold(t, callbacks, deferred, |q.bytes|, e, n)
  {
    hide EolAt, Line, After, Tell;
    LineIs(q.bytes, style, e, n);
    AfterFew(t, callbacks, deferred, |q.bytes|, Change(0, e), Change(0, n));
    AfterFew(t, callbacks, deferred, |q.bytes|, Change(0, n), Late);
  }

  lemma NoneTaken(q: Queue, style: EolStyle)
    requires q.noStart || NoEol(q.bytes, 0, style)
    ensures Alone(q, ReadlnOp(true, style)) == q
    ensures Handed(q, ReadlnOp(true, style)) == None && TurnsAlone(q, ReadlnOp(true, style)) == []
  {
    hide NoEol, Line;
    NoLine(q.bytes, style);
  }

  lemma Sizes(s: Evbuffer, t: Evbuffer)
    requires s.Valid() && t.Valid()
    ensures s.totalLen == |s.Bytes()| && t.totalLen == |t.Bytes()|
  {
  }

  lemma Prefix(r: seq<byte>, rest: seq<byte>)
    ensures r == (r + rest)[..|r|] && rest == (r + rest)[|r|..]
  {
  }

  // ----- the other side -----

  function Swap(p: Pair): Pair { Pair(p.y, p.x) }

  function SwapGaps(g: Gaps): Gaps { Gaps(g.y, g.x) }

  function Mirror(op: Op): Op {
    match op
    case AddOp(l, data) => AddOp(!l, data)
    case PrependOp(l, data) => PrependOp(!l, data)
    case DrainOp(l, len) => DrainOp(!l, len)
    case RemoveOp(l, len) => RemoveOp(!l, len)
    case ReadlnOp(l, style) => ReadlnOp(!l, style)
    case ReadOp(l, howmuch, ready, input) => ReadOp(!l, howmuch, ready, input)
    case PullupOp(l, size) => PullupOp(!l, size)
    case ExpandOp(l, len) => ExpandOp(!l, len)
    case ExpandFastOp(l, len) => ExpandFastOp(!l, len)
    case FreezeOp(l, atFront, on) => FreezeOp(!l, atFront, on)
    case DeferredOp(l) => DeferredOp(!l)
    case AddBufferOp(l) => AddBufferOp(!l)
    case PrependBufferOp(l) => PrependBufferOp(!l)
    case RemoveBufferOp(l, len) => RemoveBufferOp(!l, len)
  }

  lemma OtherSide(p: Pair, g: Gaps, op: Op)
    requires !op.left
    ensures Mirror(op).left && Step(p, op) == Swap(Step(Swap(p), Mirror(op)))
    ensures Given(p, op) == Given(Swap(p), Mirror(op))
    ensures forall left :: Turns(p, op, left) == Turns(Swap(p), Mirror(op), !left)
    ensures Tracked(p, g, op) == SwapGaps(Tracked(Swap(p), SwapGaps(g), Mirror(op)))
    ensures Fits(p, op) ==> Fits(Swap(p), Mirror(op))
    ensures op.RemoveBufferOp? <==> Mirror(op).RemoveBufferOp?
    ensures op.RemoveBufferOp? ==> Mirror(op).len == op.len
  {
    hide Line, Step, Given, Turns;
    OtherQueues(p, op);
  }

  lemma OtherQueues(p: Pair, op: Op)
    requires !op.left
    ensures Step(p, op) == Swap(Step(Swap(p), Mirror(op)))
    ensures Given(p, op) == Given(Swap(p), Mirror(op))
    ensures forall left :: Turns(p, op, left) == Turns(Swap(p), Mirror(op), !left)
  {
    hide Line;
  }

  lemma TidySwap(a: Evbuffer, b: Evbuffer, g: Gaps)
    requires Tidy(a, b, g)
    ensures Tidy(b, a, SwapGaps(g))
  {
  }

  method PerformEither(a: Evbuffer, b: Evbuffer, op: Op, ghost g: Gaps) returns (r: Option<seq<byte>>)
    requires Tidy(a, b, g) && Fits(PairOf(a, b), op) && Harmless(a, b, op)
    modifies a, b
    ensures Tidy(a, b, Tracked(old(PairOf(a, b)), g, op))
    ensures PairOf(a, b) == Step(old(PairOf(a, b)), op)
    ensures a.Noted() == old(NotedAfter(a, Turns(PairOf(a, b), op, true)))
    ensures b.Noted() == old(NotedAfter(b, Turns(PairOf(a, b), op, false)))
    ensures r == Given(old(PairOf(a, b)), op)
  {
    hide Step, Given, Evbuffer.Valid, Evbuffer.Bytes, Evbuffer.GapFree, Addrs, Flatten, Tidy, Tracked, Fits, Movable;
    hide Mirror, Turns, After;
    if op.left {
      r := Perform(a, b, op, g);
    } else {
      OtherSide(PairOf(a, b), g, op);
      TidySwap(a, b, g);
      r := Perform(b, a, Mirror(op), SwapGaps(g));
      TidySwap(b, a, SwapGaps(Tracked(old(PairOf(a, b)), g, op)));
    }
  }

  // ----- runs -----

  /** A move does no harm: both buffers come out well formed. */
  predicate Harmless(a: Evbuffer, b: Evbuffer, op: Op)
    reads a, b
  {
    op.RemoveBufferOp? ==> if op.left then Removable(b, a, op.len) else Removable(a, b, op.len)
  }

  predicate Affordable(a: Evbuffer, b: Evbuffer, op: Op)
    reads a, b
  {
    && |Inserted(op)| <= ONE_CHAIN && a.totalLen + b.totalLen + |Inserted(op)| <= SIZE_MAX
    && (op.ReadOp? && op.input.Some? ==> |op.input.value| <= ReadLimit(op.howmuch, op.ready))
  }

  lemma AffordableFits(a: Evbuffer, b: Evbuffer, op: Op)
    requires a.Valid() && b.Valid()
    ensures Affordable(a, b, op) <==> Fits(PairOf(a, b), op)
  {
    hide Good, Flatten, Inserted, ReadLimit;
    Sizes(a, b);
  }

  /** Moving out of a buffer without gaps does no harm. */
  lemma FreeHarmless(a: Evbuffer, b: Evbuffer, g: Gaps, op: Op)
    requires Tidy(a, b, g) && (op.RemoveBufferOp? ==> g.Free(PairOf(a, b), !op.left))
    ensures Harmless(a, b, op)
  {
    hide Flatten, NoGap, Good, Movable;
    FreeMeans(a, b, g);
    if op.RemoveBufferOp? {
      var dst, src := if op.left then a else b, if op.left then b else a;
      MovableIfFree(src, dst.totalLen > 0, op.len);
    }
  }

  lemma MovableIfFree(buf: Evbuffer, dstData: bool, n: nat)
    requires buf.Valid() && buf.GapFree()
    ensures Movable(buf.chains, buf.Lwd(), dstData, n)
  {
    GapFreeMovable(buf.chains, buf.lastWithDatap, buf.last, buf.totalLen, dstData, n);
  }

  /** The calls that were made. */
  function Made(ops: seq<Op>, made: seq<bool>): seq<Op>
    requires |made| == |ops|
  {
    if ops == [] then [] else (if made[0] then [ops[0]] else []) + Made(ops[1..], made[1..])
  }

  lemma {:induction false} OneMoreMade(ops: seq<Op>, made: seq<bool>, op: Op, m: bool)
    requires |made| == |ops|
    ensures Made(ops + [op], made + [m]) == Made(ops, made) + if m then [op] else []
  {
    if ops == [] {
      assert ops + [op] == [op] && made + [m] == [m];
      assert Made([op][1..], [m][1..]) == [];
    } else {
      AfterFirst(ops, op);
      AfterFirst(made, m);
      OneMoreMade(ops[1..], made[1..], op, m);
      Regroup(if made[0] then [ops[0]] else [], Made(ops[1..], made[1..]), if m then [op] else []);
    }
  }

  lemma Regroup(a: seq<Op>, b: seq<Op>, c: seq<Op>)
    ensures a + (b + c) == (a + b) + c
  {
  }

  lemma AfterFirst<T>(s: seq<T>, x: T)
    requires s != []
    ensures (s + [x])[0] == s[0] && (s + [x])[1..] == s[1..] + [x]
  {
  }

  /** Any run over two new buffers. A call is left out when its sizes do not fit, or when it is a move that would leave
      a buffer malformed; in a Sure run none is. */
  method Run(ops: seq<Op>, hasCallbacks: bool, deferredCbs: bool)
      returns (a: Evbuffer, b: Evbuffer, outs: seq<Option<seq<byte>>>, made: seq<bool>)
    ensures fresh(a) && fresh(b) && a.Valid() && b.Valid() && |made| == |ops|
    ensures PairOf(a, b) == Final(NOTHING, Made(ops, made)) && outs == Outputs(NOTHING, Made(ops, made))
    ensures forall i :: 0 <= i < |ops| && !made[i] ==>
      ops[i].RemoveBufferOp? || !Fits(Final(NOTHING, Made(ops[..i], made[..i])), ops[i])
    ensures Sure(NOTHING, Gaps(true, true), ops) ==> Made(ops, made) == ops
    ensures a.Noted() == NotedOf(Made(ops, made), hasCallbacks, deferredCbs, true)
    ensures b.Noted() == NotedOf(Made(ops, made), hasCallbacks, deferredCbs, false)
    // callbacks that are not deferred have heard of every change when it happened
    ensures hasCallbacks && !deferredCbs ==>
      a.Noted() == Tally(0, 0, AllHeard(NOTHING, Made(ops, made), true), [])
      && b.Noted() == Tally(0, 0, AllHeard(NOTHING, Made(ops, made), false), [])
  {
    hide Step, Given, Evbuffer.Valid, Evbuffer.Bytes, Evbuffer.GapFree, Addrs, Flatten, Tidy, Tracked, Fits, Sure, Made;
    hide Harmless, Affordable, Final, Outputs, NotedOf, AllHeard, Turns, After, Evbuffer.Noted;
    a := new Evbuffer(hasCallbacks, deferredCbs);
    b := new Evbuffer(hasCallbacks, deferredCbs);
    outs, made := [], [];
    ghost var g, trace: seq<Op>, sure := Gaps(true, true), [], Sure(NOTHING, Gaps(true, true), ops);
    StartRun(a, b, ops);
    var i := 0;
    while i < |ops|
      invariant 0 <= i <= |ops| && |made| == i && fresh(a) && fresh(b) && Tidy(a, b, g)
      invariant trace == Made(ops[..i], made)
      invariant PairOf(a, b) == Final(NOTHING, trace) && outs == Outputs(NOTHING, trace)
      invariant forall j :: 0 <= j < i && !made[j] ==>
        ops[j].RemoveBufferOp? || !Fits(Final(NOTHING, Made(ops[..j], made[..j])), ops[j])
      invariant sure ==> trace == ops[..i] && Sure(PairOf(a, b), g, ops[i..])
      invariant a.Noted() == NotedOf(trace, hasCallbacks, deferredCbs, true)
      invariant b.Noted() == NotedOf(trace, hasCallbacks, deferredCbs, false)
    {
      ghost var p := PairOf(a, b);
      var op := ops[i];
      TidyValid(a, b, g);
      AffordableFits(a, b, op);
      OneMoreOp(ops, i);
      if sure {
        SureStep(a, b, g, ops, i);
      }
      var can := Affordable(a, b, op);
      if can {
        can := Harmless(a, b, op);
        HarmlessOrMove(a, b, op);
      }
      if can {
        OneMoreCall(NOTHING, trace, op);
        OneMoreNoted(trace, op, hasCallbacks, deferredCbs, true);
        OneMoreNoted(trace, op, hasCallbacks, deferredCbs, false);
        var r := PerformEither(a, b, op, g);
        g, trace, outs := Tracked(p, g, op), trace + [op], outs + [r];
      }
      OneMoreMade(ops[..i], made, op, can);
      made := made + [can];
      KeptMade(made, i);
      i := i + 1;
    }
    assert ops[..i] == ops;
    TidyValid(a, b, g);
    EveryChangeIsTold(trace, true);
    EveryChangeIsTold(trace, false);
  }

  lemma StartRun(a: Evbuffer, b: Evbuffer, ops: seq<Op>)
    requires a != b && a.Valid() && b.Valid() && a.chains == [] == b.chains && a.GapFree() && b.GapFree()
    requires !a.freezeStart && !a.freezeEnd && !b.freezeStart && !b.freezeEnd
    requires a.Noted() == UNTOLD == b.Noted()
    ensures a.Noted() == NotedOf([], a.hasCallbacks, a.deferredCbs, true)
    ensures b.Noted() == NotedOf([], b.hasCallbacks, b.deferredCbs, false)
    ensures Tidy(a, b, Gaps(true, true)) && PairOf(a, b) == NOTHING
    ensures Made(ops[..0], []) == [] && Final(NOTHING, []) == NOTHING && Outputs(NOTHING, []) == [] && ops[0..] == ops
  {
  }

  lemma TidyValid(a: Evbuffer, b: Evbuffer, g: Gaps)
    requires Tidy(a, b, g)
    ensures a.Valid() && b.Valid()
  {
  }

  lemma OneMoreOp(ops: seq<Op>, i: nat)
    requires i < |ops|
    ensures ops[..i + 1] == ops[..i] + [ops[i]] && ops[i..][0] == ops[i] && ops[i..][1..] == ops[i + 1..]
  {
  }

  lemma KeptMade(made: seq<bool>, i: nat)
    requires |made| == i + 1
    ensures forall j :: 0 <= j <= i ==> made[..i][..j] == made[..j]
  {
  }

  lemma SureStep(a: Evbuffer, b: Evbuffer, g: Gaps, ops: seq<Op>, i: nat)
    requires i < |ops| && Tidy(a, b, g) && Sure(PairOf(a, b), g, ops[i..])
    ensures Fits(PairOf(a, b), ops[i]) && Harmless(a, b, ops[i])
    ensures Sure(Step(PairOf(a, b), ops[i]), Tracked(PairOf(a, b), g, ops[i]), ops[i + 1..])
  {
    hide Step, Tracked, Fits, Tidy, Harmless;
    assert ops[i..][0] == ops[i] && ops[i..][1..] == ops[i + 1..];
    FreeHarmless(a, b, g, ops[i]);
  }

  lemma HarmlessOrMove(a: Evbuffer, b: Evbuffer, op: Op)
    ensures !Harmless(a, b, op) ==> op.RemoveBufferOp?
  {
  }

  // ----- what the specification says of the callbacks -----

  /** The report that a change of length calls for. */
  function Report(before: nat, after: nat): seq<CbInfo> {
    if before < after then [CbInfo(before, after - before, 0)]
    else if after < before then [CbInfo(before, 0, before - after)]
    else []
  }

  /** What the callbacks of a buffer hear of a call: one report of how its length changed. Only of a line they hear
      twice, once without and once with its terminator. */
  ghost function Heard(p: Pair, op: Op, left: bool): seq<CbInfo> {
    var before, after := |p.Get(left).bytes|, |Step(p, op).Get(left).bytes|;
    if op.ReadlnOp? && op.left == left && Given(p, op).Some? then
      var mid := before - |Given(p, op).value|;
      LineInside(p.Get(left).bytes, op.style);
      Report(before, mid) + Report(mid, after)
    else
      Report(before, after)
  }

  ghost function AllHeard(p: Pair, ops: seq<Op>, left: bool): seq<CbInfo>
    decreases |ops|
  {
    if ops == [] then [] else Heard(p, ops[0], left) + AllHeard(Step(p, ops[0]), ops[1..], left)
  }

  lemma HeardAtOnce(p: Pair, op: Op, left: bool, t: Tally)
    requires t.added == 0 == t.deleted
    ensures After(t, true, false, |p.Get(left).bytes|, Turns(p, op, left))
         == t.(reports := t.reports + Heard(p, op, left))
  {
    hide After, TurnsAlone, Alone, Handed;
    if op.TwoBuffers() {
      BothAtOnce(p, op, left, t);
    } else if left == op.left {
      AloneAtOnce(p.Get(left), op, t);
    } else {
      AfterFew(t, true, false, |p.Get(left).bytes|, Late, Late);
    }
  }

  lemma BothAtOnce(p: Pair, op: Op, left: bool, t: Tally)
    requires op.TwoBuffers() && t.added == 0 == t.deleted
    ensures After(t, true, false, |p.Get(left).bytes|, Turns(p, op, left))
         == t.(reports := t.reports + Report(|p.Get(left).bytes|, |Step(p, op).Get(left).bytes|))
  {
    hide After, Tell;
    var n, len := Moved(p.Get(op.left), p.Get(!op.left), op), |p.Get(left).bytes|;
    var x := if left == op.left then Change(n, 0) else Change(0, n);
    AfterFew(t, true, false, len, x, Change(0, 0));
    ToldAtOnce(t, len, x.added, x.deleted);
    ToldAtOnce(Tell(t, true, false, len, x.added, x.deleted), len + x.added - x.deleted, 0, 0);
  }

  lemma AloneAtOnce(q: Queue, op: Op, t: Tally)
    requires !op.TwoBuffers() && t.added == 0 == t.deleted
    ensures var before, after := |q.bytes|, |Alone(q, op).bytes|;
      After(t, true, false, before, TurnsAlone(q, op)) == t.(reports := t.reports +
        if op.ReadlnOp? && Handed(q, op).Some? then
          var mid := before - |Handed(q, op).value|;
          LineInside(q.bytes, op.style);
          Report(before, mid) + Report(mid, after)
        else Report(before, after))
  {
    hide After, Tell, Line;
    LineInside(q.bytes, if op.ReadlnOp? then op.style else Lf);
    var x, y := FirstTurn(TurnsAlone(q, op), 0), FirstTurn(TurnsAlone(q, op), 1);
    AfterFew(t, true, false, |q.bytes|, x, y);
    if x.Change? {
      ToldAtOnce(t, |q.bytes|, x.added, x.deleted);
      if y.Change? {
        ToldAtOnce(Tell(t, true, false, |q.bytes|, x.added, x.deleted), |q.bytes| + x.added - x.deleted, y.added,
                   y.deleted);
      }
    }
  }

  function FirstTurn(turns: seq<Turn>, i: nat): Turn {
    if i < |turns| then turns[i] else Late
  }

  lemma {:induction false} AllHeardAtOnce(p: Pair, ops: seq<Op>, left: bool, t: Tally)
    requires t.added == 0 == t.deleted
    ensures After(t, true, false, |p.Get(left).bytes|, AllTurns(p, ops, left))
         == t.(reports := t.reports + AllHeard(p, ops, left))
    decreases |ops|
  {
    hide Step, Turns, Heard, After, Net;
    var len := |p.Get(left).bytes|;
    AfterFew(t, true, false, len, Late, Late);
    if ops != [] {
      var q, turns := Step(p, ops[0]), Turns(p, ops[0], left);
      HeardAtOnce(p, ops[0], left, t);
      AfterBoth(t, true, false, len, turns, AllTurns(q, ops[1..], left));
      TurnsNet(p, ops[0], left);
      AllHeardAtOnce(q, ops[1..], left, After(t, true, false, len, turns));
    }
  }

  /** Callbacks that are not deferred have been told of every change of every call, when it happened, and of nothing
      else; and no byte is left untold. */
  lemma EveryChangeIsTold(ops: seq<Op>, left: bool)
    ensures NotedOf(ops, true, false, left) == Tally(0, 0, AllHeard(NOTHING, ops, left), [])
  {
    hide After, AllTurns, AllHeard;
    AllHeardAtOnce(NOTHING, ops, left, UNTOLD);
  }

  /** Without callbacks nothing is counted or told. */
  lemma {:induction false} NothingTold(t: Tally, deferred: bool, len: int, turns: seq<Turn>)
    requires t.added == 0 == t.deleted
    ensures After(t, false, deferred, len, turns) == t
    decreases |turns|
  {
    if turns != [] {
      var n, m := if turns[0].Change? then turns[0].added else 0, if turns[0].Change? then turns[0].deleted else 0;
      NothingTold(t, deferred, len + n - m, turns[1..]);
    }
  }

  /** The bytes a call puts into a buffer, and those it takes out: no call does both. */
  ghost function PutIn(p: Pair, op: Op, left: bool): nat {
    var before, after := |p.Get(left).bytes|, |Step(p, op).Get(left).bytes|;
    if before < after then after - before else 0
  }

  ghost function TakenOut(p: Pair, op: Op, left: bool): nat {
    var before, after := |p.Get(left).bytes|, |Step(p, op).Get(left).bytes|;
    if after < before then before - after else 0
  }

  /** With deferred callbacks each call adds just these to the counters, and the deferred run reports and clears
      them. */
  lemma CountedForLater(p: Pair, op: Op, left: bool, t: Tally)
    ensures var u := After(t, true, true, |p.Get(left).bytes|, Turns(p, op, left));
      if op == DeferredOp(left) then
        u == if t.added == 0 == t.deleted then t
             else Tally(0, 0, t.reports,
                        t.late + [CbInfo(|p.Get(left).bytes| + t.deleted - t.added, t.added, t.deleted)])
      else
        u.added == t.added + PutIn(p, op, left) && u.deleted == t.deleted + TakenOut(p, op, left) && u.late == t.late
  {
    hide After, Turns, PutIn, TakenOut, Total;
    TurnsCount(p, op, left);
    FewCounted(t, |p.Get(left).bytes|, Turns(p, op, left));
  }

  /** At most two, or the late one. */
  predicate Few(turns: seq<Turn>) {
    turns == [] || (turns[0].Change? && (|turns| == 1 || (|turns| == 2 && turns[1].Change?)))
  }

  lemma TurnsCount(p: Pair, op: Op, left: bool)
    ensures var turns := Turns(p, op, left);
      if op == DeferredOp(left) then turns == [Late]
      else Few(turns) && PutIn(p, op, left) == Total(turns, true) && TakenOut(p, op, left) == Total(turns, false)
  {
    hide Alone, TurnsAlone;
    if !op.TwoBuffers() && left == op.left {
      AloneCounted(p.Get(left), op);
    }
  }

  /** The turns of a call change the length by what they count, all in one direction. */
  lemma AloneCounted(q: Queue, op: Op)
    requires !op.TwoBuffers()
    ensures var turns := TurnsAlone(q, op);
      if op.DeferredOp? then turns == [Late]
      else
        var n, m := Total(turns, true), Total(turns, false);
        Few(turns) && (n == 0 || m == 0) && |Alone(q, op).bytes| == |q.bytes| + n - m
  {
    hide Line;
    LineInside(q.bytes, if op.ReadlnOp? then op.style else Lf);
  }

  /** The bytes that at most two turns count. */
  function Total(turns: seq<Turn>, added: bool): nat {
    (if |turns| > 0 && turns[0].Change? then if added then turns[0].added else turns[0].deleted else 0)
    + (if |turns| > 1 && turns[1].Change? then if added then turns[1].added else turns[1].deleted else 0)
  }

  lemma FewCounted(t: Tally, len: int, turns: seq<Turn>)
    ensures var u := After(t, true, true, len, turns);
      && (Few(turns) ==>
            u.added == t.added + Total(turns, true) && u.deleted == t.deleted + Total(turns, false)
            && u.late == t.late)
      && (turns == [Late] ==> u == TellLate(t, true, len))
  {
    hide After, Tell;
    var x, y := FirstTurn(turns, 0), FirstTurn(turns, 1);
    AfterFew(t, true, true, len, x, y);
    assert turns == [] || turns == [x] || turns == [x, y] || |turns| > 2;
    if x.Change? {
      ToldLater(t, len, x.added, x.deleted);
      if y.Change? {
        ToldLater(Tell(t, true, true, len, x.added, x.deleted), len + x.added - x.deleted, y.added, y.deleted);
      }
    }
  }

  function SumAdded(reports: seq<CbInfo>): nat {
    if reports == [] then 0 else SumAdded(reports[..|reports| - 1]) + reports[|reports| - 1].nAdded
  }

  function SumDeleted(reports: seq<CbInfo>): nat {
    if reports == [] then 0 else SumDeleted(reports[..|reports| - 1]) + reports[|reports| - 1].nDeleted
  }

  ghost function AllPutIn(p: Pair, ops: seq<Op>, left: bool): nat
    decreases |ops|
  {
    if ops == [] then 0 else PutIn(p, ops[0], left) + AllPutIn(Step(p, ops[0]), ops[1..], left)
  }

  ghost function AllTakenOut(p: Pair, ops: seq<Op>, left: bool): nat
    decreases |ops|
  {
    if ops == [] then 0 else TakenOut(p, ops[0], left) + AllTakenOut(Step(p, ops[0]), ops[1..], left)
  }

  lemma OneMoreSum(reports: seq<CbInfo>, info: CbInfo)
    ensures SumAdded(reports + [info]) == SumAdded(reports) + info.nAdded
    ensures SumDeleted(reports + [info]) == SumDeleted(reports) + info.nDeleted
  {
    assert (reports + [info])[..|reports|] == reports;
  }

  /** No byte is lost or told twice: what deferred callbacks were told of, with what is counted for them, is all that
      went in and all that was taken out. */
  lemma {:induction false} LateTellsAll(p: Pair, ops: seq<Op>, left: bool, t: Tally)
    ensures var u := After(t, true, true, |p.Get(left).bytes|, AllTurns(p, ops, left));
      && SumAdded(u.late) + u.added == SumAdded(t.late) + t.added + AllPutIn(p, ops, left)
      && SumDeleted(u.late) + u.deleted == SumDeleted(t.late) + t.deleted + AllTakenOut(p, ops, left)
    decreases |ops|
  {
    hide Step, Turns, After, Net, PutIn, TakenOut;
    var len := |p.Get(left).bytes|;
    AfterFew(t, true, true, len, Late, Late);
    if ops != [] {
      var q, turns := Step(p, ops[0]), Turns(p, ops[0], left);
      CountedForLater(p, ops[0], left, t);
      RunChangesNothing(p, ops[0], left);
      OneMoreSum(t.late, CbInfo(len + t.deleted - t.added, t.added, t.deleted));
      AfterBoth(t, true, true, len, turns, AllTurns(q, ops[1..], left));
      TurnsNet(p, ops[0], left);
      LateTellsAll(q, ops[1..], left, After(t, true, true, len, turns));
    }
  }

  lemma RunChangesNothing(p: Pair, op: Op, left: bool)
    ensures op.DeferredOp? ==> PutIn(p, op, left) == 0 == TakenOut(p, op, left)
  {
  }

  // ----- what the specification says of the bytes -----

  function Concat(ss: seq<Option<seq<byte>>>): seq<byte> {
    if ss == [] then [] else (if ss[0].Some? then ss[0].value else []) + Concat(ss[1..])
  }

  function AllInserted(ops: seq<Op>): seq<byte> {
    if ops == [] then [] else Inserted(ops[0]) + AllInserted(ops[1..])
  }

  /** Writes at the end of the left buffer, moves to the right one, and reads from that one. */
  predicate Piped(op: Op) {
    match op
    case AddOp(left, _) => left
    case ReadOp(left, _, _, _) => left
    case RemoveOp(left, _) => !left
    case AddBufferOp(left) => !left
    case RemoveBufferOp(left, _) => !left
    case PullupOp(_, _) => true
    case ExpandOp(_, _) => true
    case ExpandFastOp(_, _) => true
    case _ => false
  }

  predicate Unfrozen(p: Pair) {
    !p.x.noStart && !p.x.noEnd && !p.y.noStart && !p.y.noEnd
  }

  /** First in, first out: over a piped run what was read, then what waits in the right buffer, then in the left one, is
      what was written. */
  lemma {:induction false} FirstInFirstOut(p: Pair, ops: seq<Op>)
    requires Unfrozen(p) && forall i :: 0 <= i < |ops| ==> Piped(ops[i])
    ensures Concat(Outputs(p, ops)) + Final(p, ops).y.bytes + Final(p, ops).x.bytes
         == p.y.bytes + p.x.bytes + AllInserted(ops)
    decreases |ops|
  {
    hide Step, Given;
    if ops != [] {
      var op, q := ops[0], Step(p, ops[0]);
      FifoStep(p, op);
      FirstInFirstOut(q, ops[1..]);
      HeadOut(p, ops);
      Regroup5(Out(p, op), Concat(Outputs(q, ops[1..])), Final(p, ops).y.bytes, Final(p, ops).x.bytes,
               q.y.bytes + q.x.bytes, AllInserted(ops[1..]), p.y.bytes + p.x.bytes, Inserted(op));
    }
  }

  ghost function Out(p: Pair, op: Op): seq<byte> {
    if Given(p, op).Some? then Given(p, op).value else []
  }

  lemma HeadOut(p: Pair, ops: seq<Op>)
    requires ops != []
    ensures Concat(Outputs(p, ops)) == Out(p, ops[0]) + Concat(Outputs(Step(p, ops[0]), ops[1..]))
  {
    hide Step, Given;
    var outs := Outputs(p, ops);
    assert outs[1..] == Outputs(Step(p, ops[0]), ops[1..]);
  }

  lemma FifoStep(p: Pair, op: Op)
    requires Unfrozen(p) && Piped(op)
    ensures Unfrozen(Step(p, op))
    ensures Out(p, op) + (Step(p, op).y.bytes + Step(p, op).x.bytes) == (p.y.bytes + p.x.bytes) + Inserted(op)
  {
    hide Line;
    var x, y := p.x.bytes, p.y.bytes;
    match op
    case AddOp(_, data) =>
      Assoc(y, x, data);
      Nothing(y + (x + data));
    case ReadOp(_, _, _, input) =>
      Assoc(y, x, Inserted(op));
      Nothing(x);
      Nothing(y + (x + Inserted(op)));
    case RemoveOp(_, len) =>
      CutLeft(y, Min(len, |y|), x);
      Nothing(y + x);
    case RemoveBufferOp(_, len) =>
      CutRight(y, x, Min(len, |x|));
      Nothing(y + x);
    case AddBufferOp(_) =>
      Nothing(y + x);
    case _ =>
      Nothing(y + x);
  }

  lemma CutLeft(s: seq<byte>, n: nat, t: seq<byte>)
    requires n <= |s|
    ensures s[..n] + (s[n..] + t) == s + t
  {
    assert s == s[..n] + s[n..];
    Assoc(s[..n], s[n..], t);
  }

  lemma CutRight(s: seq<byte>, t: seq<byte>, n: nat)
    requires n <= |t|
    ensures (s + t[..n]) + t[n..] == s + t
  {
    assert t == t[..n] + t[n..];
    Assoc(s, t[..n], t[n..]);
  }

  lemma Regroup5(g: seq<byte>, out: seq<byte>, fy: seq<byte>, fx: seq<byte>, q: seq<byte>, more: seq<byte>,
                 p: seq<byte>, ins: seq<byte>)
    requires out + fy + fx == q + more && g + q == p + ins
    ensures (g + out) + fy + fx == p + (ins + more)
  {
    assert (g + out) + fy + fx == g + (out + fy + fx);
    assert g + (q + more) == (g + q) + more;
    assert (p + ins) + more == p + (ins + more);
  }
}
