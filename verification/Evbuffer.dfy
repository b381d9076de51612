/** The evbuffer: a byte queue kept as a list of chains (buffer.c). */
module Evbuffers {
  import opened ByteSeq
  import opened Common
  import opened Chains
  import opened ChainLists

  const CHAIN_MAX_AUTO_SIZE: nat := 4096

  /** What a callback is told (struct evbuffer_cb_info). */
  datatype CbInfo = CbInfo(origSize: int, nAdded: nat, nDeleted: nat) {
    function NewSize(): int { origSize + nAdded - nDeleted }
  }

  /** Every report starts from the size the previous one ended at, and the last one ended at `size`. */
  ghost predicate Chained(reports: seq<CbInfo>, size: nat) {
    && (forall i :: 0 < i < |reports| ==> reports[i].origSize == reports[i - 1].NewSize())
    && (reports != [] ==> reports[|reports| - 1].NewSize() == size)
  }

  lemma OneMoreReport(reports: seq<CbInfo>, info: CbInfo, size: nat)
    requires Chained(reports, size) && info.origSize == size && info.NewSize() >= 0
    ensures Chained(reports + [info], info.NewSize())
  {
  }

  /** The callback counters, what the callbacks have been told while a call was running, and what those that are
      deferred have been told later. */
  datatype Tally = Tally(added: nat, deleted: nat, reports: seq<CbInfo>, late: seq<CbInfo>) {
    function Put(n: nat): Tally { this.(added := added + n) }
    function Take(m: nat): Tally { this.(deleted := deleted + m) }
  }

  /** What is left when n bytes go into a buffer of len bytes, m are taken out, and its callbacks are run. */
  function Tell(t: Tally, callbacks: bool, deferred: bool, len: int, n: nat, m: nat): Tally {
    var now := t.Put(n).Take(m);
    if !callbacks then now.(added := 0, deleted := 0)
    else if now.added == 0 == now.deleted then now
    else
      var told := now.(reports := now.reports + [CbInfo(len + t.deleted - t.added, now.added, now.deleted)]);
      if deferred then told else told.(added := 0, deleted := 0)
  }

  /** What is left when the deferred callbacks of a buffer of len bytes are run. */
  function TellLate(t: Tally, callbacks: bool, len: int): Tally {
    if !callbacks || t.added == 0 == t.deleted then t.(added := 0, deleted := 0)
    else Tally(0, 0, t.reports, t.late + [CbInfo(len + t.deleted - t.added, t.added, t.deleted)])
  }

  /** Counting first and running the callbacks afterwards. */
  lemma CountThenTell(t: Tally, callbacks: bool, deferred: bool, len: int, n: nat, m: nat)
    ensures Tell(t.Put(n).Take(m), callbacks, deferred, len + n - m, 0, 0) == Tell(t, callbacks, deferred, len, n, m)
  {
  }

  /** Counting a part first. */
  lemma CountMore(t: Tally, callbacks: bool, deferred: bool, len: int, n: nat, more: nat)
    ensures Tell(t.Put(n), callbacks, deferred, len + n, more, 0) == Tell(t, callbacks, deferred, len, n + more, 0)
  {
  }

  /** Callbacks that are not deferred and know all so far are told once, of a call that changes something, the length
      before it and how many bytes went in and out. */
  lemma ToldAtOnce(t: Tally, len: int, n: nat, m: nat)
    requires t.added == 0 == t.deleted
    ensures Tell(t, true, false, len, n, m) ==
      t.(reports := t.reports + if n + m > 0 then [CbInfo(len, n, m)] else [])
  {
  }

  /** For those that are deferred the counters grow by just those numbers. */
  lemma ToldLater(t: Tally, len: int, n: nat, m: nat)
    ensures var after := Tell(t, true, true, len, n, m);
      after.added == t.added + n && after.deleted == t.deleted + m && after.late == t.late
  {
  }

  /** How many of n bytes do not fit in front of the data of the first chain; an empty chain is all gap. */
  function Unfitted(cs: seq<Chain>, n: nat): (r: nat)
    ensures r <= n
  {
    if cs == [] then n
    else
      var gap := if cs[0].off == 0 then |cs[0].buffer| else cs[0].misalign;
      if gap >= n then 0 else n - gap
  }

  class Evbuffer {
    /** The linked list from `first` on. */
    var chains: seq<Chain>
    var last: Addr?
    var lastWithDatap: Link
    var totalLen: nat
    var nAddForCb: nat
    var nDelForCb: nat
    var freezeStart: bool
    var freezeEnd: bool
    const hasCallbacks: bool
    const deferredCbs: bool
    /** What the callbacks have been told so far; deferred ones are told later. */
    var reports: seq<CbInfo>
    var lateReports: seq<CbInfo>
    /** The length when the callback counters were last cleared. */
    ghost var lenAtClear: nat

    /** The position of `*last_with_datap`. */
    function Lwd(): nat
      reads `chains, `lastWithDatap
    {
      Pos(chains, lastWithDatap)
    }

    /** The list is well formed: everything but the callback counters. */
    ghost predicate Shape()
      reads `chains, `last, `lastWithDatap, `totalLen
    {
      Good(chains, lastWithDatap, last, totalLen)
    }

    /** The callback counters account for every byte since they were last cleared. */
    ghost predicate Accounted()
      reads `totalLen, `nAddForCb, `nDelForCb, `reports, `lateReports, `lenAtClear
    {
      && totalLen + nDelForCb == lenAtClear + nAddForCb
      && (hasCallbacks ==> Chained(if deferredCbs then lateReports else reports, lenAtClear))
    }

    /** What has been counted and told. */
    function Noted(): Tally
      reads `nAddForCb, `nDelForCb, `reports, `lateReports
    {
      Tally(nAddForCb, nDelForCb, reports, lateReports)
    }

    /** The same after n bytes went in, m were taken out, and the callbacks were run. */
    function Notes(n: nat, m: nat): Tally
      reads `nAddForCb, `nDelForCb, `reports, `lateReports, `totalLen
    {
      Tell(Noted(), hasCallbacks, deferredCbs, totalLen, n, m)
    }

    ghost predicate Valid()
      reads this
    {
      Shape() && Accounted()
    }

    /** The queue of bytes this buffer stands for. */
    ghost function Bytes(): seq<byte>
      reads `chains
    {
      Flatten(chains)
    }

    ghost predicate GapFree()
      reads `chains
    {
      NoGap(chains)
    }

    constructor (hasCallbacks: bool, deferredCbs: bool)
      ensures Valid() && Bytes() == [] && GapFree() && chains == []
      ensures !freezeStart && !freezeEnd && Noted() == Tally(0, 0, [], [])
      ensures this.hasCallbacks == hasCallbacks && this.deferredCbs == deferredCbs
    {
      chains, last, lastWithDatap := [], null, First;
      totalLen, nAddForCb, nDelForCb := 0, 0, 0;
      freezeStart, freezeEnd, reports, lateReports := false, false, [], [];
      this.hasCallbacks, this.deferredCbs := hasCallbacks, deferredCbs;
      lenAtClear := 0;
    }

    /** evbuffer_run_callbacks; only callbacks that are deferred are run as such. */
    method RunCallbacks(runningDeferred: bool)
      requires Accounted() && (runningDeferred ==> deferredCbs)
      modifies `nAddForCb, `nDelForCb, `reports, `lateReports, `lenAtClear
      ensures Accounted()
      ensures !hasCallbacks || runningDeferred || !deferredCbs ==>
        lenAtClear == totalLen && nAddForCb == 0 && nDelForCb == 0
      ensures hasCallbacks && deferredCbs && !runningDeferred ==>
        lenAtClear == old(lenAtClear) && nAddForCb == old(nAddForCb) && nDelForCb == old(nDelForCb)
      ensures var info := CbInfo(old(lenAtClear), old(nAddForCb), old(nDelForCb));
        var news := if hasCallbacks && (old(nAddForCb) != 0 || old(nDelForCb) != 0) then [info] else [];
        if runningDeferred then reports == old(reports) && lateReports == old(lateReports) + news
        else reports == old(reports) + news && lateReports == old(lateReports)
      ensures Noted() ==
        if runningDeferred then TellLate(old(Noted()), hasCallbacks, totalLen) else old(Notes(0, 0))
    {
      hide Chained;
      var clear := runningDeferred || !deferredCbs;
      if !hasCallbacks {
        nAddForCb, nDelForCb, lenAtClear := 0, 0, totalLen;
        return;
      }
      if nAddForCb == 0 && nDelForCb == 0 {
        return;
      }
      var info := CbInfo(totalLen + nDelForCb - nAddForCb, nAddForCb, nDelForCb);
      OneMoreReport(if deferredCbs then lateReports else reports, info, lenAtClear);
      if clear {
        nAddForCb, nDelForCb, lenAtClear := 0, 0, totalLen;
      }
      if runningDeferred {
        lateReports := lateReports + [info];
      } else {
        reports := reports + [info];
      }
    }

    /** evbuffer_deferred_callback, which is only ever scheduled for a buffer with deferred callbacks. */
    method RunDeferred()
      requires Valid()
      modifies `nAddForCb, `nDelForCb, `reports, `lateReports, `lenAtClear
      ensures Valid()
      ensures Noted() == if deferredCbs then TellLate(old(Noted()), hasCallbacks, totalLen) else old(Noted())
    {
      hide Good;
      if deferredCbs {
        RunCallbacks(true);
      }
    }

    /** evbuffer_free_trailing_empty_chains: returns the link where they hung; the caller mends `last`. */
    method FreeTrailingEmptyChains() returns (ch: Link)
      requires Shape()
      modifies `chains
      ensures chains == old(chains[..Keep(chains, Lwd())])
      ensures ch == LinkAt(chains, |chains|)
    {
      var k := Pos(chains, lastWithDatap);
      var i := k;
      while i < |chains| && chains[i].off != 0
        invariant k <= i <= |chains| && (i == k || i == Keep(chains, k))
      {
        i := i + 1;
      }
      ch := LinkAt(chains, i);
      if i < |chains| {
        chains := chains[..i];
      }
    }

    /** evbuffer_chain_insert: puts a chain at the end, dropping trailing empty ones. */
    method ChainInsert(chain: Chain)
      requires Shape() && chain.Ok() && chain.addr !in Addrs(chains)
      modifies `chains, `last, `lastWithDatap, `totalLen
      ensures Shape()
      ensures chains != [] && chains == Joined(old(chains), old(Lwd()), [chain])
      ensures Bytes() == old(Bytes()) + chain.Data()
      ensures totalLen == old(totalLen) + chain.off
      ensures Lwd() == if chain.off != 0 then |chains| - 1 else old(Lwd())
      ensures old(GapFree()) ==> GapFree()
      ensures Addrs(chains) <= old(Addrs(chains)) + {chain.addr}
    {
      hide Good, Flatten, NoGap, Pos, Keep, Addrs;
      JoinAddrs(chains, Lwd(), [chain]);
      AddrsOne(chain);
      ghost var cs, lp, k := chains, lastWithDatap, Lwd();
      ghost var m := Keep(cs, k);
      InsertGood(cs, lp, last, totalLen, chain, if chain.off != 0 then LinkAt(cs, m) else lp);
      InsertNoGap(cs, lp, last, totalLen, chain);
      EmptyList(cs, lp, last, totalLen);
      if |chains| == 0 {
        chains := [chain];
        last := chain.addr;
      } else {
        var chp := FreeTrailingEmptyChains();
        chains := chains + [chain];
        if chain.off != 0 {
          lastWithDatap := chp;
        }
        last := chain.addr;
      }
      assert chains == Joined(cs, k, [chain]);
      totalLen := totalLen + chain.off;
    }

    /** Replaces the last chain with data by one holding `d` more. */
    method ExtendLast(c: Chain, ghost d: seq<byte>)
      requires Shape() && Lwd() < |chains| && c.Ok()
      requires c.addr == chains[Lwd()].addr && c.Data() == chains[Lwd()].Data() + d
      modifies `chains, `totalLen
      ensures Shape() && Lwd() == old(Lwd()) && chains == old(chains)[old(Lwd()) := c]
      ensures Bytes() == old(Bytes()) + d && totalLen == old(totalLen) + |d|
      ensures old(GapFree()) ==> GapFree()
      ensures Addrs(chains) == old(Addrs(chains))
    {
      hide Good, Flatten, NoGap, Pos, Chain.Data, Addrs;
      ExtendGood(chains, lastWithDatap, last, totalLen, c, d);
      ReplaceAddrs(chains, Lwd(), c);
      var k := Lwd();
      totalLen := totalLen + (c.off - chains[k].off);
      chains := chains[k := c];
    }

    /** Fills the last chain with data, then puts the rest of `data` into the new chain `tmp`. */
    method Spill(data: seq<byte>, remain: nat, tmp: Chain)
      requires Valid() && Lwd() < |chains| && chains[Lwd()].Ok() && remain == chains[Lwd()].SpaceLen()
      requires tmp.Ok() && tmp.off == 0 && remain < |data| <= remain + tmp.SpaceLen()
      requires tmp.addr !in Addrs(chains)
      modifies `chains, `last, `lastWithDatap, `totalLen, `nAddForCb
      ensures Valid() && (old(GapFree()) ==> GapFree())
      ensures Bytes() == old(Bytes()) + data && Noted() == old(Noted()).Put(|data|)
      ensures Addrs(chains) <= old(Addrs(chains)) + {tmp.addr}
    {
      hide Good, Flatten, NoGap, Pos, Chain.Data, Chain.Append, Chain.Align, Patch, Joined, Addrs;
      var a, b := data[..remain], data[remain..];
      if remain > 0 {
        ExtendLast(chains[Lwd()].Append(a), a);
        nAddForCb := nAddForCb + remain;
      }
      assert Bytes() == old(Bytes()) + a;
      var c := tmp.Append(b);
      assert c.Data() == b by { EmptyData(tmp); }
      ChainInsert(c);
      Assoc(old(Bytes()), a, b);
      assert data == a + b;
      nAddForCb := nAddForCb + |b|;
    }

    /** The part of evbuffer_add that writes into the last chain with data, or into a new one. */
    method AddToLast(data: seq<byte>, ghost others: set<Addr> := {}) returns (ok: bool)
      requires Addrs(chains) !! others
      requires Valid() && chains != []
      modifies `chains, `last, `lastWithDatap, `totalLen, `nAddForCb
      ensures Valid() && (old(GapFree()) ==> GapFree())
      ensures ok <==> |data| <= CHAIN_MAX - CHAIN_SIZE
      ensures Bytes() == if ok then old(Bytes()) + data else old(Bytes())
      ensures Noted() == old(Noted()).Put(if ok then |data| else 0)
      ensures Addrs(chains) !! others
    {
      hide Good, Flatten, NoGap, Pos, Chain.Data, Chain.Append, Chain.Align, Patch, Joined, Addrs;
      LwdChain(chains, lastWithDatap, last, totalLen);
      var k := Lwd();
      var chain := chains[k];
      var remain := |chain.buffer| - chain.misalign - chain.off;
      if remain >= |data| {
        ExtendLast(chain.Append(data), data);
        nAddForCb := nAddForCb + |data|;
        return true;
      } else if chain.ShouldRealign(|data|) {
        ExtendLast(chain.Align().Append(data), data);
        nAddForCb := nAddForCb + |data|;
        return true;
      }
      var toAlloc := |chain.buffer|;
      if toAlloc <= CHAIN_MAX_AUTO_SIZE / 2 {
        toAlloc := toAlloc * 2;
      }
      if |data| > toAlloc {
        toAlloc := |data|;
      }
      var got, tmp := NewChain(toAlloc, Addrs(chains) + others);
      if !got {
        return false;
      }
      Spill(data, remain, tmp);
      ok := true;
    }

    /** A buffer without chains gets an empty one that holds n bytes. */
    method FirstChain(n: nat, ghost others: set<Addr> := {}) returns (ok: bool)
      requires Addrs(chains) !! others
      requires Valid()
      modifies `chains, `last, `lastWithDatap, `totalLen
      ensures Valid() && (old(GapFree()) ==> GapFree()) && totalLen == old(totalLen)
      ensures Bytes() == old(Bytes()) && Addrs(chains) !! others
      ensures if old(chains) != [] then ok && chains == old(chains) else ok <==> n <= CHAIN_MAX - CHAIN_SIZE
      ensures if ok then chains != [] else chains == old(chains)
      ensures ok && old(chains) == [] ==> Unfitted(chains, n) == 0
    {
      hide Good, Flatten, NoGap, Pos, Chain.Data, Joined;
      ok := true;
      EmptyList(chains, lastWithDatap, last, totalLen);
      if |chains| == 0 {
        var chain;
        ok, chain := NewChain(n, Addrs(chains) + others);
        if !ok {
          return;
        }
        EmptyData(chain);
        Nothing(Bytes());
        ChainInsert(chain);
        OneJoined(old(chains), old(Lwd()), chain);
      }
    }

    /** evbuffer_add. */
    method Add(data: seq<byte>, ghost others: set<Addr> := {}) returns (ok: bool)
      requires Addrs(chains) !! others
      requires Valid()
      modifies this
      ensures Valid() && (old(GapFree()) ==> GapFree())
      ensures freezeStart == old(freezeStart) && freezeEnd == old(freezeEnd)
      ensures ok <==> !freezeEnd && |data| <= SIZE_MAX - old(totalLen) && |data| <= CHAIN_MAX - CHAIN_SIZE
      ensures Bytes() == if ok then old(Bytes()) + data else old(Bytes())
      ensures Noted() == if ok then old(Notes(|data|, 0)) else old(Noted())
      ensures Addrs(chains) !! others
    {
      hide Good, Flatten, NoGap, Pos, Chain.Data, Joined, Tell, Accounted;
      CountThenTell(Noted(), hasCallbacks, deferredCbs, totalLen, |data|, 0);
      ValidLength();
      if freezeEnd {
        return false;
      }
      if |data| > SIZE_MAX - totalLen {
        return false;
      }
      var got := FirstChain(|data|, others);
      if !got {
        return false;
      }
      ok := AddToLast(data, others);
      ValidLength();
      if ok {
        RunCallbacks(false);
      }
    }

    lemma ValidLength()
      requires Valid()
      ensures totalLen == |Bytes()|
    {
    }

    /** evbuffer_prepend. A request can fail after its tail went in front, when the rest is too large for a chain. */
    method Prepend(data: seq<byte>, ghost others: set<Addr> := {}) returns (ok: bool)
      requires Addrs(chains) !! others
      requires Valid()
      modifies this
      ensures Valid() && (old(GapFree()) ==> GapFree())
      ensures freezeStart == old(freezeStart) && freezeEnd == old(freezeEnd)
      ensures ok <==>
        !freezeStart && |data| <= SIZE_MAX - old(totalLen)
        && Unfitted(old(chains), |data|) <= CHAIN_MAX - CHAIN_SIZE
      ensures ok ==> Bytes() == data + old(Bytes())
      ensures !ok && (freezeStart || |data| > SIZE_MAX - old(totalLen)) ==> Bytes() == old(Bytes())
      ensures !ok && !freezeStart && |data| <= SIZE_MAX - old(totalLen) ==>
        Bytes() == data[Unfitted(old(chains), |data|)..] + old(Bytes())
      // the callbacks hear of a success; what went in before a failure is only counted
      ensures Noted() ==
        if ok then old(Notes(|data|, 0))
        else old(Noted()).Put(|Bytes()| - |old(Bytes())|)
      ensures Addrs(chains) !! others
    {
      hide Good, Flatten, NoGap, Pos, Chain.Data, Chain.Prepend, Patch, Joined, Addrs, Tell, Accounted, Unfitted;
      CountThenTell(Noted(), hasCallbacks, deferredCbs, totalLen, |data|, 0);
      ValidLength();
      if freezeStart {
        return false;
      }
      if |data| > SIZE_MAX - totalLen {
        return false;
      }
      var got := FirstChain(|data|, others);
      NoneUnfitted(old(chains), chains, |data|);
      if !got {
        PrependNothing(data, Bytes());
        return false;
      }
      ok := PutInFront(data, others);
      ValidLength();
      if ok {
        RunCallbacks(false);
      }
    }

    /** The part of evbuffer_prepend that writes into the gap, and into a new first chain. */
    method PutInFront(data: seq<byte>, ghost others: set<Addr> := {}) returns (ok: bool)
      requires Addrs(chains) !! others
      requires Valid() && chains != []
      modifies `chains, `lastWithDatap, `totalLen, `nAddForCb
      ensures Valid() && (old(GapFree()) ==> GapFree())
      ensures ok <==> Unfitted(old(chains), |data|) <= CHAIN_MAX - CHAIN_SIZE
      ensures Bytes() == if ok then data + old(Bytes()) else data[Unfitted(old(chains), |data|)..] + old(Bytes())
      ensures Noted() == old(Noted()).Put(|data| - if ok then 0 else Unfitted(old(chains), |data|))
      ensures Addrs(chains) !! others
    {
      hide Good, Flatten, NoGap, Pos, Chain.Data, Chain.Prepend, Patch, Joined, Addrs, Accounted, Unfitted;
      ghost var bytes := Bytes();
      var n := FillGap(data);
      ok := true;
      if n > 0 {
        ok := PrependNew(data[..n], others);
        Rejoin(data, n, bytes);
      }
    }

    /** Prepends as much of the end of `data` as the leading gap holds; n bytes of it are left. */
    method FillGap(data: seq<byte>) returns (n: nat)
      requires Valid() && chains != []
      modifies `chains, `totalLen, `nAddForCb
      ensures Valid() && (old(GapFree()) ==> GapFree())
      ensures n == Unfitted(old(chains), |data|) <= |data| && Bytes() == data[n..] + old(Bytes())
      ensures Noted() == old(Noted()).Put(|data| - n)
      ensures chains != [] && (n > 0 ==> chains[0].off > 0)
      ensures Addrs(chains) == old(Addrs(chains))
    {
      hide Good, Flatten, NoGap, Pos, Chain.Data, Chain.Prepend, Patch, Joined, Addrs;
      LwdChain(chains, lastWithDatap, last, totalLen);
      var chain := chains[0];
      if chain.off == 0 {
        EmptyData(chain);
        chain := chain.(misalign := |chain.buffer|);
        EmptyData(chain);
      }
      assert chain.Data() == chains[0].Data();
      n := if chain.misalign >= |data| then 0 else |data| - chain.misalign;
      var d := data[n..];
      chain := chain.Prepend(d);
      ExtendFrontGood(chains, lastWithDatap, last, totalLen, chain, d);
      ReplaceAddrs(chains, 0, chain);
      chains := chains[0 := chain];
      totalLen := totalLen + |d|;
      nAddForCb := nAddForCb + |d|;
    }

    /** Puts `data` at the end of a new first chain. */
    method PrependNew(data: seq<byte>, ghost others: set<Addr> := {}) returns (ok: bool)
      requires Addrs(chains) !! others
      requires Valid() && chains != [] && chains[0].off > 0 && data != []
      modifies `chains, `lastWithDatap, `totalLen, `nAddForCb
      ensures Valid() && (old(GapFree()) ==> GapFree())
      ensures ok <==> |data| <= CHAIN_MAX - CHAIN_SIZE
      ensures Bytes() == if ok then data + old(Bytes()) else old(Bytes())
      ensures Noted() == old(Noted()).Put(if ok then |data| else 0)
      ensures Addrs(chains) !! others
    {
      hide Good, Flatten, NoGap, Pos, Chain.Data, Chain.Prepend, Patch, Joined, Addrs;
      var tmp: Chain;
      ok, tmp := NewChain(|data|, Addrs(chains) + others);
      if !ok {
        return;
      }
      tmp := tmp.(misalign := |tmp.buffer|);
      EmptyData(tmp);
      tmp := tmp.Prepend(data);
      PrependGood(chains, lastWithDatap, last, totalLen, tmp);
      PrependAddrs(chains, tmp);
      chains := [tmp] + chains;
      if lastWithDatap == First {
        lastWithDatap := Next(tmp.addr);
      }
      totalLen := totalLen + |data|;
      nAddForCb := nAddForCb + |data|;
    }

    /** evbuffer_freeze and evbuffer_unfreeze. */
    method Freeze(atFront: bool, on: bool)
      requires Valid()
      modifies `freezeStart, `freezeEnd
      ensures Valid()
      ensures freezeStart == (if atFront then on else old(freezeStart))
      ensures freezeEnd == (if atFront then old(freezeEnd) else on)
    {
      hide Good;
      if atFront {
        freezeStart := on;
      } else {
        freezeEnd := on;
      }
    }

    /** evbuffer_drain. */
    method Drain(len: nat) returns (ok: bool)
      requires Valid()
      modifies this
      ensures Valid() && (old(GapFree()) ==> GapFree())
      ensures freezeStart == old(freezeStart) && freezeEnd == old(freezeEnd)
      ensures ok <==> old(totalLen) == 0 || !freezeStart
      ensures Bytes() ==
        if !ok then old(Bytes()) else if len >= |old(Bytes())| then [] else old(Bytes())[len..]
      ensures Noted() ==
        if freezeStart || old(Bytes()) == [] then old(Noted())
        else old(Notes(0, Min(len, |Bytes()|)))
      ensures Addrs(chains) <= old(Addrs(chains))
    {
      hide Good, Flatten, NoGap, Pos, Chain.Data, Addrs, Dropped, Tell, Chained;
      TotalIs(chains, lastWithDatap, last, totalLen);
      CountThenTell(Noted(), hasCallbacks, deferredCbs, totalLen, 0, if len >= totalLen then totalLen else len);
      if totalLen == 0 {
        return true;
      }
      if freezeStart {
        return false;
      }
      if len >= totalLen {
        nDelForCb := nDelForCb + totalLen;
        ZeroGood(chains);
        chains, last, lastWithDatap, totalLen := [], null, First, 0;
      } else {
        DrainSome(len);
        nDelForCb := nDelForCb + len;
      }
      RunCallbacks(false);
      ok := true;
    }

    /** The loop of evbuffer_drain: frees whole chains, then trims one. */
    method DrainSome(len: nat)
      requires Shape() && len < totalLen
      modifies `chains, `lastWithDatap, `totalLen
      ensures Shape() && (old(GapFree()) ==> GapFree())
      ensures totalLen == old(totalLen) - len
      ensures len <= |old(Bytes())| && Bytes() == old(Bytes())[len..]
      ensures Addrs(chains) <= old(Addrs(chains))
    {
      hide Good, Flatten, NoGap, Pos, Chain.Data, Addrs, Dropped;
      ghost var lp, k := lastWithDatap, Lwd();
      var i: nat, remaining: nat := 0, len;
      TotalIs(chains, lp, last, totalLen);
      PosZero(chains, lp);
      FlattenEmpty(chains[..0]);
      PrefixShort(chains, lp, last, totalLen, 0);
      while remaining >= chains[i].off
        invariant i < |chains| && chains[i].Ok() && remaining + |Flatten(chains[..i])| == len
        invariant lastWithDatap == if k <= i then First else lp
        modifies `lastWithDatap
        decreases |chains| - i
      {
        PrefixShort(chains, lp, last, totalLen, i);
        PosOfNext(chains, lp, last, totalLen, i);
        remaining := remaining - chains[i].off;
        if Pos(chains, lastWithDatap) == i {
          lastWithDatap := First;
        }
        if lastWithDatap == Next(chains[i].addr) {
          lastWithDatap := First;
        }
        i := i + 1;
        PrefixShort(chains, lp, last, totalLen, i);
      }
      DropGood(chains, lp, last, totalLen, i, remaining);
      DropAddrs(chains, i, remaining);
      assert [chains[i].TrimFront(remaining)] + chains[i + 1..] == Dropped(chains, i, remaining) by {
        DroppedIs(chains, i, remaining);
      }
      chains := [chains[i].TrimFront(remaining)] + chains[i + 1..];
      totalLen := totalLen - len;
    }
  }

  lemma NoneUnfitted(before: seq<Chain>, cs: seq<Chain>, n: nat)
    requires before != [] ==> cs == before
    requires before == [] ==> cs == [] || Unfitted(cs, n) == 0
    ensures Unfitted(before, n) == if before == [] then n else Unfitted(cs, n)
  {
  }

  lemma OneJoined(cs: seq<Chain>, k: nat, c: Chain)
    requires cs == []
    ensures Joined(cs, k, [c]) == [c]
  {
  }
}
