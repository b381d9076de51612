/** Operations that move whole chains from one evbuffer to another (buffer.c). */
module EvbufferMoves {
  import opened Chains
  import opened ChainLists
  import opened Evbuffers
  import opened EvbufferPtrs

  /** Two buffers share no chain. */
  ghost predicate Apart(a: Evbuffer, b: Evbuffer)
    reads a, b
  {
    Addrs(a.chains) !! Addrs(b.chains)
  }

  /** ZERO_CHAIN. */
  method ZeroChain(buf: Evbuffer)
    modifies buf`chains, buf`last, buf`lastWithDatap, buf`totalLen
    ensures buf.Shape() && buf.chains == [] && buf.Bytes() == [] && buf.totalLen == 0 && buf.GapFree()
  {
    ZeroGood([]);
    buf.chains, buf.last, buf.lastWithDatap, buf.totalLen := [], null, First, 0;
  }

  /** COPY_CHAIN into a buffer whose own chains, all empty, have been freed. */
  method CopyChain(dst: Evbuffer, src: Evbuffer)
    requires src != dst && src.Shape()
    modifies dst`chains, dst`last, dst`lastWithDatap, dst`totalLen
    ensures dst.Shape() && dst.chains == src.chains && dst.totalLen == src.totalLen
  {
    dst.chains := src.chains;
    if src.lastWithDatap == First {
      dst.lastWithDatap := First;
    } else {
      dst.lastWithDatap := src.lastWithDatap;
    }
    dst.last := src.last;
    dst.totalLen := src.totalLen;
  }

  /** APPEND_CHAIN. */
  method AppendChain(dst: Evbuffer, src: Evbuffer)
    requires src != dst && src.Shape() && dst.Shape() && Apart(dst, src) && src.totalLen > 0
    modifies dst`chains, dst`last, dst`lastWithDatap, dst`totalLen
    ensures dst.Shape() && dst.Bytes() == old(dst.Bytes()) + src.Bytes()
    ensures dst.totalLen == old(dst.totalLen) + src.totalLen
    ensures old(dst.GapFree()) && src.GapFree() ==> dst.GapFree()
    ensures Addrs(dst.chains) <= old(Addrs(dst.chains)) + Addrs(src.chains)
  {
    hide Good, Flatten, NoGap, Pos, Chain.Data, Addrs, Keep;
    ghost var cs, k := dst.chains, dst.Lwd();
    JoinGood(cs, dst.lastWithDatap, dst.last, dst.totalLen, src.chains, src.lastWithDatap, src.last, src.totalLen);
    JoinAddrs(cs, k, src.chains);
    var chp := dst.FreeTrailingEmptyChains();
    dst.chains := dst.chains + src.chains;
    if src.lastWithDatap == First {
      dst.lastWithDatap := chp;
    } else {
      dst.lastWithDatap := src.lastWithDatap;
    }
    dst.last := src.last;
    dst.totalLen := dst.totalLen + src.totalLen;
    assert dst.chains == Joined(cs, k, src.chains);
  }

  /** PREPEND_CHAIN onto a buffer that holds data. */
  method PrependChain(dst: Evbuffer, src: Evbuffer)
    requires src != dst && src.Shape() && dst.Shape() && Apart(dst, src) && dst.totalLen > 0 && src.chains != []
    modifies dst`chains, dst`lastWithDatap, dst`totalLen
    ensures dst.Shape() && dst.Bytes() == src.Bytes() + old(dst.Bytes()) && dst.chains == src.chains + old(dst.chains)
    ensures dst.totalLen == old(dst.totalLen) + src.totalLen
    ensures old(dst.GapFree()) && src.GapFree() ==> (dst.GapFree() <==> src.chains[|src.chains| - 1].off > 0)
    ensures Addrs(dst.chains) <= old(Addrs(dst.chains)) + Addrs(src.chains)
  {
    hide Good, Flatten, NoGap, Pos, Chain.Data, Addrs;
    FrontGood(dst.chains, dst.lastWithDatap, dst.last, dst.totalLen, src.chains, src.lastWithDatap, src.last,
              src.totalLen);
    FrontAddrs(src.chains, dst.chains);
    dst.chains := src.chains + dst.chains;
    dst.totalLen := dst.totalLen + src.totalLen;
    if dst.lastWithDatap == First {
      dst.lastWithDatap := LinkAt(src.chains, |src.chains|);
    }
  }

  /** The callback counters are n additions behind. */
  ghost predicate Behind(buf: Evbuffer, n: nat)
    reads buf
  {
    && buf.totalLen + buf.nDelForCb == buf.lenAtClear + buf.nAddForCb + n
    && (buf.hasCallbacks ==> Chained(if buf.deferredCbs then buf.lateReports else buf.reports, buf.lenAtClear))
  }

  method EmptyOut(buf: Evbuffer, total: nat)
    requires buf.Valid() && buf.totalLen == total
    modifies buf`chains, buf`last, buf`lastWithDatap, buf`totalLen, buf`nDelForCb
    ensures buf.Valid() && buf.chains == [] && buf.Bytes() == [] && buf.totalLen == 0 && buf.GapFree()
    ensures buf.Noted() == old(buf.Noted()).Take(total)
  {
    hide Good, Flatten, NoGap, Chained;
    ZeroChain(buf);
    buf.nDelForCb := buf.nDelForCb + total;
  }

  method CountAdded(buf: Evbuffer, n: nat)
    requires Behind(buf, n)
    modifies buf`nAddForCb
    ensures buf.Accounted() && buf.Noted() == old(buf.Noted()).Put(n)
  {
    hide Chained;
    buf.nAddForCb := buf.nAddForCb + n;
  }

  /** The common end of evbuffer_add_buffer and evbuffer_prepend_buffer. */
  method EndMove(outbuf: Evbuffer, inbuf: Evbuffer, inTotal: nat)
    requires outbuf != inbuf && inbuf.Valid() && inbuf.totalLen == inTotal && outbuf.Shape() && Behind(outbuf, inTotal)
    modifies inbuf, outbuf`nAddForCb, outbuf`nDelForCb, outbuf`reports, outbuf`lateReports, outbuf`lenAtClear
    ensures inbuf.Valid() && inbuf.chains == [] && inbuf.Bytes() == [] && inbuf.GapFree()
    ensures inbuf.freezeStart == old(inbuf.freezeStart) && inbuf.freezeEnd == old(inbuf.freezeEnd)
    ensures outbuf.Valid()
    ensures inbuf.Noted() == old(inbuf.Notes(0, inTotal))
    ensures outbuf.totalLen >= inTotal ==>
      outbuf.Noted() == Tell(old(outbuf.Noted()), outbuf.hasCallbacks, outbuf.deferredCbs, outbuf.totalLen - inTotal,
                             inTotal, 0)
  {
    hide Good, Flatten, NoGap, Tell, Behind, Evbuffer.Accounted;
    CountThenTell(inbuf.Noted(), inbuf.hasCallbacks, inbuf.deferredCbs, inTotal, 0, inTotal);
    if outbuf.totalLen >= inTotal {
      CountThenTell(outbuf.Noted(), outbuf.hasCallbacks, outbuf.deferredCbs, outbuf.totalLen - inTotal, inTotal, 0);
    }
    EmptyOut(inbuf, inTotal);
    CountAdded(outbuf, inTotal);
    inbuf.RunCallbacks(false);
    outbuf.RunCallbacks(false);
  }

  /** evbuffer_add_buffer: moves everything in `inbuf` to the end of `outbuf`. */
  method AddBuffer(outbuf: Evbuffer, inbuf: Evbuffer) returns (ok: bool)
    requires outbuf.Valid() && inbuf.Valid() && (outbuf != inbuf ==> Apart(outbuf, inbuf))
    modifies outbuf, inbuf
    ensures outbuf.Valid() && inbuf.Valid() && (outbuf != inbuf ==> Apart(outbuf, inbuf))
    ensures outbuf.freezeEnd == old(outbuf.freezeEnd) && inbuf.freezeStart == old(inbuf.freezeStart)
    ensures outbuf.freezeStart == old(outbuf.freezeStart) && inbuf.freezeEnd == old(inbuf.freezeEnd)
    ensures ok <==> old(inbuf.Bytes()) == [] || outbuf == inbuf || !(outbuf.freezeEnd || inbuf.freezeStart)
    ensures !ok || outbuf == inbuf ==> outbuf.Bytes() == old(outbuf.Bytes()) && inbuf.Bytes() == old(inbuf.Bytes())
    ensures ok && outbuf != inbuf ==> outbuf.Bytes() == old(outbuf.Bytes()) + old(inbuf.Bytes()) && inbuf.Bytes() == []
    ensures old(inbuf.GapFree()) ==> inbuf.GapFree() && (old(outbuf.GapFree()) ==> outbuf.GapFree())
    ensures Addrs(outbuf.chains) <= old(Addrs(outbuf.chains)) + old(Addrs(inbuf.chains))
    ensures Addrs(inbuf.chains) <= old(Addrs(inbuf.chains))
    ensures !ok || outbuf == inbuf || old(inbuf.Bytes()) == [] ==>
      outbuf.Noted() == old(outbuf.Noted()) && inbuf.Noted() == old(inbuf.Noted())
    ensures ok && outbuf != inbuf && old(inbuf.Bytes()) != [] ==>
      && outbuf.Noted() == old(outbuf.Notes(|inbuf.Bytes()|, 0))
      && inbuf.Noted() == old(inbuf.Notes(0, |inbuf.Bytes()|))
  {
    hide Good, Flatten, NoGap, Pos, Chain.Data, Addrs, Spine, Chained, Tell;
    ValidChains(outbuf);
    ValidChains(inbuf);
    var inTotal, outTotal := inbuf.totalLen, outbuf.totalLen;
    if inTotal == 0 || outbuf == inbuf {
      return true;
    }
    if outbuf.freezeEnd || inbuf.freezeStart {
      return false;
    }
    if outTotal == 0 {
      CopyChain(outbuf, inbuf);
    } else {
      AppendChain(outbuf, inbuf);
    }
    NoAddrs();
    EndMove(outbuf, inbuf, inTotal);
    ok := true;
  }

  /** evbuffer_prepend_buffer: moves everything in `inbuf` to the front of `outbuf`. */
  method PrependBuffer(outbuf: Evbuffer, inbuf: Evbuffer) returns (ok: bool)
    requires outbuf.Valid() && inbuf.Valid() && (outbuf != inbuf ==> Apart(outbuf, inbuf))
    modifies outbuf, inbuf
    ensures outbuf.Valid() && inbuf.Valid() && (outbuf != inbuf ==> Apart(outbuf, inbuf))
    ensures outbuf.freezeEnd == old(outbuf.freezeEnd) && inbuf.freezeStart == old(inbuf.freezeStart)
    ensures outbuf.freezeStart == old(outbuf.freezeStart) && inbuf.freezeEnd == old(inbuf.freezeEnd)
    ensures ok <==> old(inbuf.Bytes()) == [] || outbuf == inbuf || !(outbuf.freezeStart || inbuf.freezeStart)
    ensures !ok || outbuf == inbuf ==> outbuf.Bytes() == old(outbuf.Bytes()) && inbuf.Bytes() == old(inbuf.Bytes())
    ensures ok && outbuf != inbuf ==> outbuf.Bytes() == old(inbuf.Bytes()) + old(outbuf.Bytes()) && inbuf.Bytes() == []
    ensures !ok ==> outbuf.chains == old(outbuf.chains) && inbuf.chains == old(inbuf.chains)
    ensures ok && outbuf != inbuf && old(inbuf.Bytes()) != [] && old(outbuf.Bytes()) != [] ==>
      outbuf.chains == old(inbuf.chains) + old(outbuf.chains)
    ensures old(outbuf.GapFree()) && old(inbuf.GapFree()) && ok && outbuf != inbuf ==>
      inbuf.GapFree() && (outbuf.GapFree() <==>
        old(inbuf.Bytes()) == [] || old(outbuf.Bytes()) == [] || old(inbuf.chains[|inbuf.chains| - 1].off > 0))
    ensures Addrs(outbuf.chains) <= old(Addrs(outbuf.chains)) + old(Addrs(inbuf.chains))
    ensures Addrs(inbuf.chains) <= old(Addrs(inbuf.chains))
    ensures !ok || outbuf == inbuf || old(inbuf.Bytes()) == [] ==>
      outbuf.Noted() == old(outbuf.Noted()) && inbuf.Noted() == old(inbuf.Noted())
    ensures ok && outbuf != inbuf && old(inbuf.Bytes()) != [] ==>
      && outbuf.Noted() == old(outbuf.Notes(|inbuf.Bytes()|, 0))
      && inbuf.Noted() == old(inbuf.Notes(0, |inbuf.Bytes()|))
  {
    hide Good, Flatten, NoGap, Pos, Chain.Data, Addrs, Spine, Chained, Tell;
    ValidChains(outbuf);
    ValidChains(inbuf);
    var inTotal, outTotal := inbuf.totalLen, outbuf.totalLen;
    if inTotal == 0 || outbuf == inbuf {
      return true;
    }
    if outbuf.freezeStart || inbuf.freezeStart {
      return false;
    }
    HasData(inbuf.chains, inbuf.lastWithDatap, inbuf.last, inbuf.totalLen);
    if outTotal == 0 {
      CopyChain(outbuf, inbuf);
    } else {
      PrependChain(outbuf, inbuf);
    }
    NoAddrs();
    EndMove(outbuf, inbuf, inTotal);
    ok := true;
  }
}
