/** Operations that reshape an evbuffer without changing its bytes (buffer.c). */
module EvbufferGrow {
  import opened ByteSeq
  import opened Chains
  import opened ChainLists
  import opened Evbuffers
  import opened EvbufferPtrs

  /** The copying loop of evbuffer_pullup: takes whole chains from position `from` on, while `size` lasts. */
  method GatherChains(cs: seq<Chain>, lp: Link, from: nat, size: nat)
      returns (j: nat, data: seq<byte>, left: nat, removedLast: bool, removedLink: bool)
    requires Spine(cs) && from <= |cs| && |Flatten(cs[..from])| + size <= |Flatten(cs)| && Pos(cs, lp) < |cs|
    ensures from <= j <= |cs| && |data| + left == size
    ensures Flatten(cs[..j]) == Flatten(cs[..from]) + data
    ensures if j < |cs| then left < cs[j].off else left == 0
    ensures removedLast <==> from <= Pos(cs, lp) < j
    ensures removedLink <==> from + 1 <= Pos(cs, lp) <= j
  {
    hide Flatten, Chain.Data, Pos;
    var lastWithData := cs[Pos(cs, lp)].addr;
    PosAddr(cs, lp);
    j, data, left, removedLast, removedLink := from, [], size, false, false;
    while j < |cs| && left >= cs[j].off
      invariant from <= j <= |cs| && |data| + left == size
      invariant Flatten(cs[..j]) == Flatten(cs[..from]) + data
      invariant removedLast <==> from <= Pos(cs, lp) < j
      invariant removedLink <==> from + 1 <= Pos(cs, lp) <= j
    {
      FlattenSnoc(cs, j);
      Assoc(Flatten(cs[..from]), data, cs[j].Data());
      data := data + cs[j].Data();
      left := left - cs[j].off;
      if cs[j].addr == lastWithData {
        removedLast := true;
      }
      if lp == Next(cs[j].addr) {
        removedLink := true;
      }
      j := j + 1;
    }
    assert cs[..|cs|] == cs;
  }

  /** Addresses tell positions apart. */
  lemma PosAddr(cs: seq<Chain>, lp: Link)
    requires Spine(cs) && Pos(cs, lp) < |cs|
    ensures forall i :: 0 <= i < |cs| ==> (cs[i].addr == cs[Pos(cs, lp)].addr <==> i == Pos(cs, lp))
    ensures forall i :: 0 <= i < |cs| ==> (lp == Next(cs[i].addr) <==> Pos(cs, lp) == i + 1)
  {
    forall i | 0 <= i < |cs|
      ensures lp == Next(cs[i].addr) <==> Pos(cs, lp) == i + 1
    {
      PosLinkAt(cs, i + 1);
    }
  }

  /** evbuffer_pullup: makes the first `size` bytes contiguous; a negative size asks for all of them. */
  method Pullup(buf: Evbuffer, size: int, ghost others: set<Addr> := {}) returns (ok: bool)
    requires buf.Valid() && Addrs(buf.chains) !! others
    modifies buf`chains, buf`last, buf`lastWithDatap
    ensures buf.Valid() && buf.Bytes() == old(buf.Bytes()) && Addrs(buf.chains) !! others
    ensures old(buf.GapFree()) ==> buf.GapFree()
    ensures var want := if size < 0 then buf.totalLen else size;
      && (ok ==> 0 < want <= buf.totalLen && buf.chains != [] && want <= buf.chains[0].off)
      && (0 < want <= buf.totalLen && want <= CHAIN_MAX - CHAIN_SIZE ==> ok)
  {
    hide Good, Flatten, NoGap, Pos, Chain.Data, Addrs, Spine, Pulled;
    ValidChains(buf);
    var want := if size < 0 then buf.totalLen else size;
    if want == 0 || want > buf.totalLen {
      return false;
    }
    HasData(buf.chains, buf.lastWithDatap, buf.last, buf.totalLen);
    var chain := buf.chains[0];
    if chain.off >= want {
      return true;
    }
    ok := Gather(buf, want, others);
  }

  lemma FirstPieces(cs: seq<Chain>, lp: Link, last: Addr?, total: nat)
    requires Good(cs, lp, last, total) && cs != []
    ensures Flatten(cs[..0]) == [] && Flatten(cs[..1]) == cs[0].Data()
    ensures cs[0].off < total ==> Pos(cs, lp) > 0
    ensures Pos(cs, lp) == 1 ==> lp == Next(cs[0].addr)
    ensures cs[0].addr in Addrs(cs)
  {
    hide Flatten, Chain.Data;
    FlattenEmpty(cs[..0]);
    FlattenSnoc(cs, 0);
    if Pos(cs, lp) == 0 {
      FlattenAt(cs, 0);
      FlattenEmpty(cs[1..]);
    }
  }

  lemma PulledIs(cs: seq<Chain>, t: Chain, j: nat, n: nat)
    requires j <= |cs| && (j < |cs| ==> cs[j].Ok() && n <= cs[j].off)
    ensures Pulled(cs, t, j, n) == [t] + if j < |cs| then [cs[j].TrimFront(n)] + cs[j + 1..] else []
  {
  }

  /** The part of evbuffer_pullup that has to copy. */
  method Gather(buf: Evbuffer, size: nat, ghost others: set<Addr>) returns (ok: bool)
    requires buf.Valid() && Addrs(buf.chains) !! others
    requires buf.chains != [] && buf.chains[0].off < size <= buf.totalLen
    modifies buf`chains, buf`last, buf`lastWithDatap
    ensures buf.Valid() && buf.Bytes() == old(buf.Bytes()) && Addrs(buf.chains) !! others
    ensures old(buf.GapFree()) ==> buf.GapFree()
    ensures ok ==> buf.chains != [] && size <= buf.chains[0].off
    ensures size <= CHAIN_MAX - CHAIN_SIZE ==> ok
  {
    hide Good, Flatten, NoGap, Pos, Chain.Data, Addrs, Spine, Pulled, Chain.Append, Patch;
    ValidChains(buf);
    HasData(buf.chains, buf.lastWithDatap, buf.last, buf.totalLen);
    ghost var cs, lp := buf.chains, buf.lastWithDatap;
    FirstPieces(cs, lp, buf.last, buf.totalLen);
    var chain := buf.chains[0];
    var tmp: Chain, from: nat, left: nat := chain, 1, size - chain.off;
    if |chain.buffer| - chain.misalign < size {
      ok, tmp := NewChain(size, Addrs(buf.chains) + others);
      if !ok {
        return;
      }
      EmptyData(tmp);
      from, left := 0, size;
    }
    var j, data, rest, removedLast, removedLink := GatherChains(buf.chains, buf.lastWithDatap, from, left);
    assert tmp.Data() + data == Flatten(cs[..j]);
    var all := data + if j < |buf.chains| then buf.chains[j].Data()[..rest] else [];
    Assoc(tmp.Data(), data, if j < |cs| then cs[j].Data()[..rest] else []);
    tmp := tmp.Append(all);
    assert tmp.off == size;
    PullGood(cs, lp, buf.last, buf.totalLen, tmp, j, rest);
    PulledIs(cs, tmp, j, rest);
    if j < |buf.chains| {
      buf.chains := [tmp] + ([buf.chains[j].TrimFront(rest)] + buf.chains[j + 1..]);
    } else {
      buf.last := tmp.addr;
      buf.chains := [tmp];
    }
    assert buf.chains == Pulled(cs, tmp, j, rest);
    if removedLast {
      buf.lastWithDatap := First;
    } else if removedLink {
      // The source falls back to `&first` when no data follows; that cannot happen.
      assert 1 < |buf.chains| && buf.chains[1].off != 0;
      buf.lastWithDatap := Next(tmp.addr);
    }
    ok := true;
  }

  // ----- making room -----

  const MAX_TO_COPY_IN_EXPAND: nat := 4096

  lemma ResizeSpine(cs: seq<Chain>, k: nat, t: Chain)
    requires Spine(cs) && k < |cs| && t.Ok() && t.addr !in Addrs(cs)
    ensures Spine(cs[k := t]) && Addrs(cs[k := t]) <= Addrs(cs) + {t.addr}
  {
    assert forall i :: 0 <= i < |cs| ==> cs[i].addr in Addrs(cs);
  }

  /** A copy in a larger block takes the place of the last chain with data. */
  lemma ResizeGood(cs: seq<Chain>, lp: Link, last: Addr?, total: nat, t: Chain)
    requires Good(cs, lp, last, total) && Pos(cs, lp) < |cs|
    requires t.Ok() && t.addr !in Addrs(cs) && t.Data() == cs[Pos(cs, lp)].Data() && t.off == cs[Pos(cs, lp)].off
    ensures var k := Pos(cs, lp); var out := cs[k := t];
      && Good(out, lp, if last == cs[k].addr then t.addr else last, total)
      && Flatten(out) == Flatten(cs) && Pos(out, lp) == k
      && (NoGap(cs) ==> NoGap(out))
      && Addrs(out) <= Addrs(cs) + {t.addr}
  {
    hide Flatten, Chain.Data, Addrs;
    var k := Pos(cs, lp);
    FlattenAt(cs, k);
    FlattenUpdate(cs, k, t);
    ResizeSpine(cs, k, t);
    PosStays(cs, lp, cs[k := t]);
  }

  /** Chain i has room for n more bytes, and writing there would extend the buffer. */
  ghost predicate RoomAt(cs: seq<Chain>, k: nat, i: nat, n: nat) {
    && (i == k || i == k + 1) && i < |cs| && cs[i].Ok() && cs[i].SpaceLen() >= n
    && (i > k ==> cs[i].off == 0)
  }

  /** A chain inserted empty is where the next bytes go. */
  lemma InsertRoom(cs: seq<Chain>, lp: Link, last: Addr?, total: nat, c: Chain)
    requires Good(cs, lp, last, total) && c.Ok() && c.off == 0
    ensures var out := Joined(cs, Pos(cs, lp), [c]);
      && out != [] && out[|out| - 1] == c && (|out| - 1 == Pos(cs, lp) || |out| - 1 == Pos(cs, lp) + 1)
      && (|out| - 1 > Pos(cs, lp) ==> out[Pos(cs, lp)].off > 0)
  {
    hide Flatten;
  }

  /** Appends a new empty chain of at least `datlen` bytes. */
  method InsertNew(buf: Evbuffer, datlen: nat, ghost others: set<Addr>) returns (ok: bool, i: nat)
    requires buf.Valid() && Addrs(buf.chains) !! others
    modifies buf`chains, buf`last, buf`lastWithDatap, buf`totalLen
    ensures buf.Valid() && buf.Bytes() == old(buf.Bytes()) && Addrs(buf.chains) !! others
    ensures old(buf.GapFree()) ==> buf.GapFree()
    ensures ok <==> datlen <= CHAIN_MAX - CHAIN_SIZE
    ensures ok ==> RoomAt(buf.chains, buf.Lwd(), i, datlen) && buf.chains[i].SpaceLen() > 0
    ensures ok && i > buf.Lwd() ==> buf.chains[buf.Lwd()].off > 0
  {
    hide Good, Flatten, NoGap, Pos, Chain.Data, Addrs, Spine, Joined;
    var chain: Chain;
    ok, chain := NewChain(datlen, Addrs(buf.chains) + others);
    i := 0;
    if ok {
      EmptyData(chain);
      InsertRoom(buf.chains, buf.lastWithDatap, buf.last, buf.totalLen, chain);
      buf.ChainInsert(chain);
      i := |buf.chains| - 1;
    }
  }

  lemma LwdFacts(buf: Evbuffer)
    requires buf.Valid()
    ensures buf.Lwd() <= |buf.chains| && (buf.Lwd() == |buf.chains| ==> buf.chains == [])
    ensures forall i :: buf.Lwd() < i < |buf.chains| ==> buf.chains[i].off == 0
    ensures buf.last == LastAddr(buf.chains)
    ensures buf.Lwd() < |buf.chains| ==> (buf.last == buf.chains[buf.Lwd()].addr <==> buf.Lwd() == |buf.chains| - 1)
  {
    hide Flatten;
  }

  /** evbuffer_expand_singlechain: room for `datlen` bytes in one chain, by using, realigning, replacing or adding
      one. */
  method ExpandSinglechain(buf: Evbuffer, datlen: nat, ghost others: set<Addr> := {}) returns (ok: bool, i: nat)
    requires buf.Valid() && Addrs(buf.chains) !! others
    modifies buf`chains, buf`last, buf`lastWithDatap, buf`totalLen
    ensures buf.Valid() && buf.Bytes() == old(buf.Bytes()) && Addrs(buf.chains) !! others
    ensures old(buf.GapFree()) ==> buf.GapFree()
    ensures ok ==> RoomAt(buf.chains, buf.Lwd(), i, datlen)
    ensures datlen <= CHAIN_MAX - CHAIN_SIZE - MAX_TO_COPY_IN_EXPAND ==> ok
  {
    hide Good, Flatten, NoGap, Pos, Chain.Data, Addrs, Spine, Joined, Chain.Align, Chain.Append, Patch;
    ValidChains(buf);
    LwdFacts(buf);
    i := buf.Lwd();
    if i < |buf.chains| && buf.chains[i].SpaceLen() == 0 {
      i := i + 1;
    }
    if i >= |buf.chains| {
      ok, i := InsertNew(buf, datlen, others);
      return;
    }
    var chain := buf.chains[i];
    if chain.SpaceLen() >= datlen {
      return true, i;
    }
    if chain.off == 0 {
      ok, i := InsertNew(buf, datlen, others);
      return;
    }
    if chain.ShouldRealign(datlen) {
      buf.ExtendLast(chain.Align(), []);
      return true, i;
    }
    if chain.SpaceLen() < |chain.buffer| / 8 || chain.off > MAX_TO_COPY_IN_EXPAND || datlen >= CHAIN_MAX - chain.off {
      if i + 1 < |buf.chains| && buf.chains[i + 1].SpaceLen() >= datlen {
        return true, i + 1;
      }
      ok, i := InsertNew(buf, datlen, others);
      return;
    }
    ok := Resize(buf, datlen, others);
  }

  /** Copies the last chain with data into a block with room for `datlen` more bytes. */
  method Resize(buf: Evbuffer, datlen: nat, ghost others: set<Addr>) returns (ok: bool)
    requires buf.Valid() && Addrs(buf.chains) !! others && buf.Lwd() < |buf.chains|
    modifies buf`chains, buf`last
    ensures buf.Valid() && buf.Bytes() == old(buf.Bytes()) && Addrs(buf.chains) !! others
    ensures old(buf.GapFree()) ==> buf.GapFree()
    ensures buf.Lwd() == old(buf.Lwd())
    ensures ok ==> RoomAt(buf.chains, buf.Lwd(), buf.Lwd(), datlen)
    ensures ok <==> old(buf.chains[buf.Lwd()].off) + datlen <= CHAIN_MAX - CHAIN_SIZE
  {
    hide Good, Flatten, NoGap, Pos, Chain.Data, Addrs, Spine, Chain.Append, Patch;
    ValidChains(buf);
    var k := buf.Lwd();
    var chain := buf.chains[k];
    var tmp: Chain;
    ok, tmp := NewChain(chain.off + datlen, Addrs(buf.chains) + others);
    if !ok {
      return;
    }
    EmptyData(tmp);
    tmp := tmp.Append(chain.Data());
    ResizeGood(buf.chains, buf.lastWithDatap, buf.last, buf.totalLen, tmp);
    if buf.last == chain.addr {
      buf.last := tmp.addr;
    }
    buf.chains := buf.chains[k := tmp];
  }
}
