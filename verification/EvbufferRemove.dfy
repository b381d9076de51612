/** evbuffer_remove_buffer, and what gaps between chains do to it (buffer.c). */
module EvbufferRemoves {
  import opened ByteSeq
  import opened Common
  import opened Chains
  import opened ChainLists
  import opened Evbuffers
  import opened EvbufferPtrs
  import opened EvbufferMoves

  /** advance_last_with_data: walks `last_with_datap` forward over chains with data. */
  method AdvanceLastWithData(buf: Evbuffer)
    requires Spine(buf.chains) && buf.Lwd() < |buf.chains|
    modifies buf`lastWithDatap
    ensures old(buf.Lwd()) <= buf.Lwd() < |buf.chains|
    ensures forall i :: old(buf.Lwd()) < i <= buf.Lwd() ==> buf.chains[i].off > 0
    ensures buf.Lwd() + 1 < |buf.chains| ==> buf.chains[buf.Lwd() + 1].off == 0
    ensures buf.Lwd() == Advanced(buf.chains, old(buf.Lwd()))
    ensures buf.lastWithDatap == LinkAt(buf.chains, buf.Lwd())
  {
    PosLinkAt(buf.chains, buf.Lwd());
    var k := buf.Lwd();
    var n := k;
    while n + 1 < |buf.chains| && buf.chains[n + 1].off != 0
      invariant k <= n < |buf.chains|
      invariant forall i :: k < i <= n ==> buf.chains[i].off > 0
      invariant Advanced(buf.chains, k) == Advanced(buf.chains, n)
      invariant buf.lastWithDatap == LinkAt(buf.chains, n)
    {
      n := n + 1;
      buf.lastWithDatap := LinkAt(buf.chains, n);
    }
    PosLinkAt(buf.chains, n);
  }

  /** Where advance_last_with_data stops. */
  ghost function Advanced(cs: seq<Chain>, k: nat): (r: nat)
    requires k < |cs|
    ensures k <= r < |cs|
    decreases |cs| - k
  {
    if k + 1 < |cs| && cs[k + 1].off != 0 then Advanced(cs, k + 1) else k
  }

  /** That is the last chain with data exactly when no empty chain past k stands before one with data. */
  lemma {:induction false} AdvancedIsLast(cs: seq<Chain>, k: nat)
    requires k < |cs| && (k == 0 || cs[k].off > 0)
    ensures LastWithData(cs, Advanced(cs, k)) <==> Orderly(cs, k + 1)
    decreases |cs| - k
  {
    if k + 1 < |cs| && cs[k + 1].off != 0 {
      AdvancedIsLast(cs, k + 1);
    } else if !LastWithData(cs, k) {
      var j :| k < j < |cs| && cs[j].off > 0;
      assert cs[k + 1].off == 0 && k + 1 < j;
    }
  }

  // ----- which moves leave both buffers well formed -----

  /** How many whole chains fit in n bytes. */
  function Whole(cs: seq<Chain>, n: nat): (i: nat)
    ensures i <= |cs|
  {
    if cs == [] || cs[0].off > n then 0 else 1 + Whole(cs[1..], n - cs[0].off)
  }

  /** From position `from` on, no empty chain stands before one with data. */
  predicate Orderly(cs: seq<Chain>, from: nat) {
    forall a, b :: from <= a < b < |cs| && cs[b].off > 0 ==> cs[a].off > 0
  }

  /** The destination comes out right: the moved chains have no gap, but the first of them may be empty when the
      destination holds no data. */
  predicate DstFine(moved: seq<Chain>, dstData: bool) {
    Flatten(moved) == [] || Orderly(moved, if dstData then 0 else 1)
  }

  /** The source comes out right: if only empty chains would go, and so none goes, the last chain with data has to
      be past the one that bytes are taken from. */
  predicate SrcFine(moved: seq<Chain>, k: nat) {
    Flatten(moved) == [] && |moved| > 0 ==> k > |moved|
  }

  /** evbuffer_remove_buffer(src, dst, n) leaves both buffers well formed; k is where src's last_with_datap points. */
  predicate Movable(cs: seq<Chain>, k: nat, dstData: bool, n: nat) {
    n >= |Flatten(cs)| || (DstFine(cs[..Whole(cs, n)], dstData) && SrcFine(cs[..Whole(cs, n)], k))
  }

  /** A gap-free buffer can be moved from. */
  lemma GapFreeMovable(cs: seq<Chain>, lp: Link, last: Addr?, total: nat, dstData: bool, n: nat)
    requires Good(cs, lp, last, total) && NoGap(cs)
    ensures Movable(cs, Pos(cs, lp), dstData, n)
  {
    hide Flatten, Chain.Data;
    if n < total {
      var i := Whole(cs, n);
      WholeFits(cs, n);
      if i > 0 {
        assert cs[..i][0] == cs[0];
        FirstFull(cs, i);
      }
    }
  }

  /** The chains that fit do fit, and the next one does not. */
  lemma {:induction false} WholeFits(cs: seq<Chain>, n: nat)
    requires (forall j :: 0 <= j < |cs| ==> cs[j].Ok()) && n < |Flatten(cs)|
    ensures var i := Whole(cs, n); i < |cs| && |Flatten(cs[..i])| <= n < |Flatten(cs[..i])| + cs[i].off
    decreases |cs|
  {
    var i := Whole(cs, n);
    if i > 0 {
      WholeFits(cs[1..], n - cs[0].off);
      assert cs[..i][1..] == cs[1..][..i - 1];
    }
  }

  lemma FirstFull(cs: seq<Chain>, i: nat)
    requires 0 < i < |cs| && NoGap(cs) && cs[i].off > 0 && cs[0].Ok()
    ensures Flatten(cs[..i]) != [] && Orderly(cs[..i], 0) && Orderly(cs[..i], 1)
  {
    assert cs[..i][0] == cs[0];
    assert |cs[0].Data()| > 0;
  }

  // ----- the operation -----

  /** The first loop of evbuffer_remove_buffer: how many whole chains fit in `datlen`. */
  method SkipWholeChains(src: Evbuffer, datlen: nat) returns (i: nat, nread: nat)
    requires src.Shape() && datlen < src.totalLen
    modifies src`lastWithDatap
    ensures i == Whole(src.chains, datlen) < |src.chains| && src.chains[i].Ok()
    ensures nread == |Flatten(src.chains[..i])| && nread <= datlen < nread + src.chains[i].off
    ensures src.lastWithDatap == if old(src.Lwd()) <= i then First else old(src.lastWithDatap)
  {
    hide Good, Flatten, NoGap, Pos, Chain.Data, Addrs, Dropped, Whole;
    ghost var lp, k := src.lastWithDatap, src.Lwd();
    i, nread := 0, 0;
    PosZero(src.chains, lp);
    FlattenEmpty(src.chains[..0]);
    PrefixShort(src.chains, lp, src.last, src.totalLen, 0);
    assert src.chains[0..] == src.chains;
    while src.chains[i].off <= datlen - nread
      invariant i < |src.chains| && src.chains[i].Ok() && nread == |Flatten(src.chains[..i])| <= datlen
      invariant src.lastWithDatap == if k <= i then First else lp
      invariant Whole(src.chains, datlen) == i + Whole(src.chains[i..], datlen - nread)
      decreases |src.chains| - i
    {
      PrefixShort(src.chains, lp, src.last, src.totalLen, i);
      PosOfNext(src.chains, lp, src.last, src.totalLen, i);
      // the source asserts that this chain is not the last one with data
      NotTheLast(src.chains, lp, src.last, src.totalLen, i);
      assert i < k == src.Lwd();
      WholeOn(src.chains[i..], datlen - nread);
      assert src.chains[i..][1..] == src.chains[i + 1..];
      nread := nread + src.chains[i].off;
      if src.lastWithDatap == Next(src.chains[i].addr) {
        src.lastWithDatap := First;
      }
      i := i + 1;
      PrefixShort(src.chains, lp, src.last, src.totalLen, i);
    }
    WholeStops(src.chains[i..], datlen - nread);
  }

  lemma WholeOn(cs: seq<Chain>, n: nat)
    requires cs != [] && cs[0].off <= n
    ensures Whole(cs, n) == 1 + Whole(cs[1..], n - cs[0].off)
  {
  }

  lemma WholeStops(cs: seq<Chain>, n: nat)
    requires cs != [] && cs[0].off > n
    ensures Whole(cs, n) == 0
  {
  }

  /** A chain that bytes follow is not the last one with data. */
  lemma NotTheLast(cs: seq<Chain>, lp: Link, last: Addr?, total: nat, i: nat)
    requires Good(cs, lp, last, total) && i < |cs| && |Flatten(cs[..i + 1])| < total
    ensures i < Pos(cs, lp)
  {
    hide Flatten, Chain.Data;
    if Pos(cs, lp) <= i {
      FlattenSplit(cs, i + 1);
      FlattenEmpty(cs[i + 1..]);
    }
  }

  /** Relinks a run of chains at the end of `dst`, which is well formed again just when the run has no gap. */
  method TakeChains(dst: Evbuffer, more: seq<Chain>, nread: nat)
    requires dst.Valid() && Spine(more) && more != [] && Addrs(dst.chains) !! Addrs(more) && nread == |Flatten(more)|
    modifies dst`chains, dst`last, dst`lastWithDatap, dst`totalLen, dst`nAddForCb
    ensures dst.Accounted() && dst.chains == Joined(old(dst.chains), old(dst.Lwd()), more) && Spine(dst.chains)
    ensures old(dst.Lwd()) < |dst.chains| && dst.Lwd() == Advanced(dst.chains, old(dst.Lwd()))
    ensures dst.Shape() <==> !DataBehind(dst.chains, dst.Lwd())
    ensures dst.Shape() <==> Orderly(more, if old(dst.totalLen) > 0 then 0 else 1)
    ensures dst.Bytes() == old(dst.Bytes()) + Flatten(more)
    ensures dst.totalLen == old(dst.totalLen) + nread && dst.Noted() == old(dst.Noted()).Put(nread)
    ensures old(dst.GapFree()) && NoGap(more) ==> dst.GapFree()
    ensures Addrs(dst.chains) <= old(Addrs(dst.chains)) + Addrs(more)
  {
    hide Good, Flatten, NoGap, Chain.Data, Addrs, Spine, IndexOf, Orderly, Advanced, DataBehind;
    ghost var cs, lp, k := dst.chains, dst.lastWithDatap, dst.Lwd();
    JoinAddrs(cs, k, more);
    MoveLink(cs, lp, dst.last, dst.totalLen, more);
    MoveExactly(cs, lp, dst.last, dst.totalLen, more);
    var chp := dst.FreeTrailingEmptyChains();
    dst.chains := dst.chains + more;
    assert dst.chains == Joined(cs, k, more);
    dst.last := more[|more| - 1].addr;
    AdvanceLastWithData(dst);
    dst.totalLen := dst.totalLen + nread;
    dst.nAddForCb := dst.nAddForCb + nread;
  }

  /** Where the old link points in the joined list. */
  lemma MoveLink(cs: seq<Chain>, lp: Link, last: Addr?, total: nat, more: seq<Chain>)
    requires Good(cs, lp, last, total) && Spine(more) && more != [] && Addrs(cs) !! Addrs(more)
    ensures var k, out := Pos(cs, lp), Joined(cs, Pos(cs, lp), more); Spine(out) && Pos(out, lp) == k < |out|
  {
    hide Flatten;
    var k, out := Pos(cs, lp), Joined(cs, Pos(cs, lp), more);
    JoinSpine(cs, k, more);
    KeepBounds(cs, k);
    PosStays(cs, lp, out);
  }

  /** The joined list with the link that advance_last_with_data leaves. */
  lemma MoveExactly(cs: seq<Chain>, lp: Link, last: Addr?, total: nat, more: seq<Chain>)
    requires Good(cs, lp, last, total) && Spine(more) && more != [] && Addrs(cs) !! Addrs(more)
    ensures var k, out := Pos(cs, lp), Joined(cs, Pos(cs, lp), more);
      && k < |out| && Flatten(out) == Flatten(cs) + Flatten(more)
      && (NoGap(cs) && NoGap(more) ==> NoGap(out))
      && (Good(out, LinkAt(out, Advanced(out, k)), more[|more| - 1].addr, total + |Flatten(more)|)
          <==> Orderly(more, if total > 0 then 0 else 1))
      && (DataBehind(out, Advanced(out, k)) <==> !Orderly(more, if total > 0 then 0 else 1))
  {
    hide Flatten, NoGap, Chain.Data, Addrs, Spine, LastWithData, Orderly, Advanced, DataBehind;
    var k, out := Pos(cs, lp), Joined(cs, Pos(cs, lp), more);
    JoinBytes(cs, k, more);
    MoveLink(cs, lp, last, total, more);
    if NoGap(cs) && NoGap(more) {
      JoinNoGap(cs, k, more);
    }
    DataOrNot(cs, lp, last, total);
    JoinOrderly(cs, k, more, total > 0);
    JoinedAt(cs, k, more);
    AdvancedAt(out, k);
    WrongLink(out, Advanced(out, k));
    PosLinkAt(out, Advanced(out, k));
  }

  lemma {:induction false} AdvancedAt(cs: seq<Chain>, k: nat)
    requires k < |cs|
    ensures Advanced(cs, k) == k || cs[Advanced(cs, k)].off > 0
    decreases |cs| - k
  {
    if k + 1 < |cs| && cs[k + 1].off != 0 {
      AdvancedAt(cs, k + 1);
    }
  }

  lemma JoinedAt(cs: seq<Chain>, k: nat, more: seq<Chain>)
    requires LastWithData(cs, k) && k < |Joined(cs, k, more)|
    ensures k == 0 || Joined(cs, k, more)[k].off > 0
  {
  }

  lemma DataOrNot(cs: seq<Chain>, lp: Link, last: Addr?, total: nat)
    requires Good(cs, lp, last, total)
    ensures LastWithData(cs, Pos(cs, lp)) && (total > 0 <==> Pos(cs, lp) < |cs| && cs[Pos(cs, lp)].off > 0)
  {
    hide Flatten, Chain.Data;
    if total > 0 {
      HasData(cs, lp, last, total);
    } else if Pos(cs, lp) < |cs| && cs[Pos(cs, lp)].off > 0 {
      FlattenAt(cs, Pos(cs, lp));
    }
  }

  lemma JoinOrderly(cs: seq<Chain>, k: nat, more: seq<Chain>, data: bool)
    requires LastWithData(cs, k) && more != [] && (data <==> k < |cs| && cs[k].off > 0)
    ensures k < |Joined(cs, k, more)|
    ensures LastWithData(Joined(cs, k, more), Advanced(Joined(cs, k, more), k))
      <==> Orderly(more, if data then 0 else 1)
  {
    hide Orderly, Advanced;
    AdvancedIsLast(Joined(cs, k, more), k);
    OrderlyShift(cs[..Keep(cs, k)], more, if data then 0 else 1);
  }

  lemma OrderlyShift(pre: seq<Chain>, more: seq<Chain>, from: nat)
    ensures Orderly(pre + more, |pre| + from) <==> Orderly(more, from)
  {
    var out, m := pre + more, |pre|;
    if Orderly(out, m + from) {
      forall a, b | from <= a < b < |more| && more[b].off > 0
        ensures more[a].off > 0
      {
        assert out[m + a] == more[a] && out[m + b] == more[b];
      }
    }
    if Orderly(more, from) {
      forall a, b | m + from <= a < b < |out| && out[b].off > 0
        ensures out[a].off > 0
      {
        assert out[a] == more[a - m] && out[b] == more[b - m];
      }
    }
  }

  /** The link that SkipWholeChains leaves, in the list that the relinking leaves: right just when SrcFine says so. */
  lemma SrcLink(cs: seq<Chain>, lp: Link, last: Addr?, total: nat, i: nat)
    requires Good(cs, lp, last, total) && i < |cs| && cs[i].Ok() && cs[i].off > 0
    ensures var k, out := Pos(cs, lp), if Flatten(cs[..i]) != [] then cs[i..] else cs;
      i <= k <= |cs| && (LastWithData(out, Pos(out, if k <= i then First else lp)) <==> SrcFine(cs[..i], k))
  {
    hide Flatten, Chain.Data, Spine;
    var k := Pos(cs, lp);
    DropGood(cs, lp, last, total, i, 0);
    DroppedSteps(cs, i, 0);
    if Flatten(cs[..i]) != [] {
      assert Dropped(cs, i, 0) == cs[i..];
    }
  }

  lemma DroppedSteps(cs: seq<Chain>, i: nat, n: nat)
    requires i < |cs| && cs[i].Ok() && n <= cs[i].off
    ensures Dropped(cs, i, n) == cs[i..][0 := cs[i].TrimFront(n)]
    ensures n == 0 ==> cs[i].TrimFront(n) == cs[i]
  {
  }

  /** Skipping and relinking whole chains, for any source. Both lists come out right exactly when the move is
      Movable. */
  method Relink(src: Evbuffer, dst: Evbuffer, datlen: nat) returns (i: nat, nread: nat)
    requires src.Valid() && dst.Valid() && src != dst && Apart(dst, src) && datlen < src.totalLen
    modifies src`chains, src`lastWithDatap, dst`chains, dst`last, dst`lastWithDatap, dst`totalLen, dst`nAddForCb
    ensures i == Whole(old(src.chains), datlen) < |old(src.chains)|
    ensures nread == |Flatten(old(src.chains)[..i])| <= datlen
    ensures src.chains == if nread > 0 then old(src.chains)[i..] else old(src.chains)
    ensures src.lastWithDatap == if old(src.Lwd()) <= i then First else old(src.lastWithDatap)
    ensures LastWithData(src.chains, src.Lwd()) <==> SrcFine(old(src.chains)[..i], old(src.Lwd()))
    ensures dst.Accounted() && dst.totalLen == old(dst.totalLen) + nread && Spine(dst.chains)
    ensures dst.Noted() == old(dst.Noted()).Put(nread)
    ensures dst.Lwd() <= |dst.chains|
    ensures !dst.Shape() ==> dst.Lwd() < |dst.chains| && DataBehind(dst.chains, dst.Lwd())
    ensures nread > 0 ==>
      dst.chains == Joined(old(dst.chains), old(dst.Lwd()), old(src.chains)[..i])
      && old(dst.Lwd()) < |dst.chains| && dst.Lwd() == Advanced(dst.chains, old(dst.Lwd()))
    ensures dst.Shape() <==> DstFine(old(src.chains)[..i], old(dst.totalLen) > 0)
    ensures dst.Bytes() == old(dst.Bytes()) + Flatten(old(src.chains)[..i])
    ensures LastWithData(src.chains, src.Lwd()) && dst.Shape() <==>
      Movable(old(src.chains), old(src.Lwd()), old(dst.totalLen) > 0, datlen)
    ensures old(dst.GapFree()) && old(src.GapFree()) ==> dst.GapFree()
    ensures Addrs(dst.chains) <= old(Addrs(dst.chains)) + if nread > 0 then Addrs(old(src.chains)[..i]) else {}
  {
    hide Good, Flatten, NoGap, Pos, Chain.Data, Addrs, Spine, LastWithData, Orderly, Whole, SrcFine, Dropped;
    hide DataBehind;
    ValidChains(src);
    ValidChains(dst);
    LwdInside(dst);
    ghost var cs := src.chains;
    ghost var lp, total := src.lastWithDatap, src.totalLen;
    i, nread := SkipWholeChains(src, datlen);
    SrcLink(cs, lp, src.last, total, i);
    PrefixSpine(cs, lp, src.last, total, i);
    PrefixNoGap(cs, i);
    PrefixAddrs(cs, i, 0);
    NoBytes(dst.Bytes(), Flatten(cs[..i]));
    if nread > 0 {
      SomeChain(cs[..i]);
      TakeChains(dst, src.chains[..i], nread);
      src.chains := src.chains[i..];
    }
  }

  lemma LwdInside(buf: Evbuffer)
    requires buf.Shape()
    ensures buf.Lwd() <= |buf.chains|
  {
  }

  lemma SomeChain(cs: seq<Chain>)
    requires |Flatten(cs)| > 0
    ensures cs != []
  {
  }

  lemma PrefixNoGap(cs: seq<Chain>, i: nat)
    requires i <= |cs|
    ensures NoGap(cs) ==> NoGap(cs[..i])
  {
  }

  lemma NoBytes(s: seq<byte>, t: seq<byte>)
    ensures |t| == 0 ==> s + t == s && t == []
  {
  }

  /** Taking bytes off a chain that stands behind empty ones only. */
  lemma TrimGood(cs: seq<Chain>, lp: Link, last: Addr?, total: nat, i: nat, n: nat)
    requires Good(cs, lp, last, total) && i < |cs| && cs[i].Ok() && n < cs[i].off
    requires Flatten(cs[..i]) == [] && SrcFine(cs[..i], Pos(cs, lp))
    ensures var out := cs[i := cs[i].TrimFront(n)];
      && n <= total && Good(out, if Pos(cs, lp) <= i then First else lp, last, total - n)
      && Flatten(out) == Flatten(cs)[n..] && (NoGap(cs) ==> NoGap(out)) && Addrs(out) == Addrs(cs)
  {
    hide Flatten, Chain.Data, Addrs, NoGap, Spine, LastWithData, SrcFine;
    var c, k := cs[i].TrimFront(n), Pos(cs, lp);
    TotalIs(cs, lp, last, total);
    TrimBytes(cs, i, n);
    SrcLink(cs, lp, last, total, i);
    TrimLast(cs, k, i, c);
    ReplaceSpine(cs, i, c);
    ReplaceAddrs(cs, i, c);
    PosStays(cs, lp, cs[i := c]);
    TrimNoGap(cs, i, c);
    SrcFineLink(cs, lp, i);
    assert LastAddr(cs[i := c]) == LastAddr(cs);
  }

  /** When the source comes out right with nothing moved, its link did not have to change. */
  lemma SrcFineLink(cs: seq<Chain>, lp: Link, i: nat)
    requires i < |cs| && Flatten(cs[..i]) == [] && i <= Pos(cs, lp) && SrcFine(cs[..i], Pos(cs, lp))
    ensures (if Pos(cs, lp) <= i then First else lp) == lp
  {
    PosZero(cs, lp);
  }

  lemma TrimBytes(cs: seq<Chain>, i: nat, n: nat)
    requires i < |cs| && cs[i].Ok() && n <= cs[i].off && Flatten(cs[..i]) == []
    ensures n <= |Flatten(cs)| && Flatten(cs[i := cs[i].TrimFront(n)]) == Flatten(cs)[n..]
  {
    hide Flatten, Chain.Data;
    var out := cs[i := cs[i].TrimFront(n)];
    DropBytes(cs, i, n);
    FlattenSplit(out, i);
    assert out[..i] == cs[..i] && out[i..] == Dropped(cs, i, n);
    Nothing(Flatten(out[i..]));
  }

  lemma TrimLast(cs: seq<Chain>, k: nat, i: nat, c: Chain)
    requires LastWithData(cs, k) && i <= k && i < |cs| && c.off > 0
    ensures LastWithData(cs[i := c], k)
  {
  }

  lemma TrimNoGap(cs: seq<Chain>, i: nat, c: Chain)
    requires i < |cs| && c.off > 0 && cs[i].off > 0
    ensures NoGap(cs) ==> NoGap(cs[i := c])
  {
  }

  /** The list that is left in the source, and the bytes that were taken. */
  lemma LeftIn(cs: seq<Chain>, lp: Link, last: Addr?, total: nat, i: nat, n: nat)
    requires Good(cs, lp, last, total) && i < |cs| && cs[i].Ok() && n < cs[i].off && SrcFine(cs[..i], Pos(cs, lp))
    ensures var m := |Flatten(cs[..i])|;
      var list, j := if m > 0 then cs[i..] else cs, if m > 0 then 0 else i;
      var out := list[j := cs[i].TrimFront(n)];
      && list[j] == cs[i] && m + n <= total == |Flatten(cs)|
      && Good(out, if Pos(cs, lp) <= i then First else lp, last, total - (m + n))
      && Flatten(out) == Flatten(cs)[m + n..] && (NoGap(cs) ==> NoGap(out))
      && Flatten(cs[..i]) + cs[i].Data()[..n] == Flatten(cs)[..m + n]
      && (m > 0 ==> Addrs(cs[..i]) !! Addrs(out)) && Addrs(out) <= Addrs(cs)
  {
    hide Flatten, Chain.Data, Addrs, NoGap, Spine, Dropped, SrcFine, Good, Pos;
    TotalIs(cs, lp, last, total);
    TakeBytes(cs, i, n);
    if |Flatten(cs[..i])| > 0 {
      DropGood(cs, lp, last, total, i, n);
      DroppedSteps(cs, i, n);
      GoodSpine(cs, lp, last, total);
      PrefixAddrs(cs, i, n);
      DropAddrs(cs, i, n);
    } else {
      NoBytes([], Flatten(cs[..i]));
      TrimGood(cs, lp, last, total, i, n);
    }
  }

  lemma GoodSpine(cs: seq<Chain>, lp: Link, last: Addr?, total: nat)
    requires Good(cs, lp, last, total)
    ensures Spine(cs)
  {
  }

  // ----- evbuffer_add where last_with_datap is wrong -----

  /** A chain with data stands behind position k. */
  predicate DataBehind(cs: seq<Chain>, k: nat) {
    exists j :: k < j < |cs| && cs[j].off > 0
  }

  /** evbuffer_add to a list whose last_with_datap names too early a chain. What fits goes into that chain, in the
      middle of the bytes; what does not fails an assertion of evbuffer_free_trailing_empty_chains. */
  method AddLoose(dst: Evbuffer, data: seq<byte>) returns (asserted: bool)
    requires Spine(dst.chains) && dst.Lwd() < |dst.chains| && DataBehind(dst.chains, dst.Lwd()) && dst.Accounted()
    modifies dst`chains, dst`totalLen, dst`nAddForCb, dst`nDelForCb, dst`reports, dst`lateReports, dst`lenAtClear
    ensures dst.Accounted() && dst.Lwd() == old(dst.Lwd()) < |dst.chains| && DataBehind(dst.chains, dst.Lwd())
    ensures |data| <= old(dst.chains[dst.Lwd()]).SpaceLen() ==> asserted
    ensures dst.Bytes() ==
      if asserted then
        Flatten(old(dst.chains)[..old(dst.Lwd()) + 1]) + data + Flatten(old(dst.chains)[old(dst.Lwd()) + 1..])
      else
        old(dst.Bytes())
    ensures dst.Noted() == if asserted then old(dst.Notes(|data|, 0)) else old(dst.Noted())
  {
    hide Flatten, Pos, Chain.Data, Chain.Append, Chain.Align, Chained, Spine, Tell;
    CountThenTell(dst.Noted(), dst.hasCallbacks, dst.deferredCbs, dst.totalLen, |data|, 0);
    ghost var cs := dst.chains;
    InSpine(cs);
    var k := dst.Lwd();
    var chain := dst.chains[k];
    var remain := |chain.buffer| - chain.misalign - chain.off;
    if remain >= |data| {
      chain := chain.Append(data);
    } else if chain.ShouldRealign(|data|) {
      chain := chain.Align().Append(data);
    } else {
      return false;
    }
    PutInMiddle(cs, dst.lastWithDatap, k, chain, data);
    dst.chains := dst.chains[k := chain];
    dst.totalLen := dst.totalLen + |data|;
    dst.nAddForCb := dst.nAddForCb + |data|;
    dst.RunCallbacks(false);
    asserted := true;
  }

  lemma InSpine(cs: seq<Chain>)
    requires Spine(cs)
    ensures forall i :: 0 <= i < |cs| ==> cs[i].Ok()
  {
  }

  lemma PutInMiddle(cs: seq<Chain>, lp: Link, k: nat, c: Chain, data: seq<byte>)
    requires Spine(cs) && k == Pos(cs, lp) < |cs| && DataBehind(cs, k)
    requires c.Ok() && c.addr == cs[k].addr && c.Data() == cs[k].Data() + data
    ensures var out := cs[k := c];
      && Pos(out, lp) == k && DataBehind(out, k)
      && Flatten(out) == Flatten(cs[..k + 1]) + data + Flatten(cs[k + 1..])
  {
    hide Flatten, Chain.Data;
    var out := cs[k := c];
    var j :| k < j < |cs| && cs[j].off > 0;
    assert out[j] == cs[j];
    ReplaceSpine(cs, k, c);
    PosStays(cs, lp, out);
    FlattenUpdate(cs, k, c);
    FlattenSnoc(cs, k);
    Middle(Flatten(cs[..k]), cs[k].Data(), data, Flatten(cs[k + 1..]));
  }

  lemma Middle(a: seq<byte>, b: seq<byte>, data: seq<byte>, c: seq<byte>)
    ensures a + (b + data) + c == (a + b) + data + c
  {
  }

  /** A wrong link, at the first position or at a chain with data, has a chain with data behind it. */
  lemma WrongLink(cs: seq<Chain>, k: nat)
    requires k < |cs| && (k == 0 || cs[k].off > 0)
    ensures LastWithData(cs, k) <==> !DataBehind(cs, k)
  {
  }

  // ----- the rest of the operation -----

  /** evbuffer_add of the part of a chain, wherever last_with_datap points. */
  method AddTail(dst: Evbuffer, tail: seq<byte>, ghost before: seq<byte>, ghost moved: seq<byte>,
                 ghost others: set<Addr>)
      returns (asserted: bool)
    requires Spine(dst.chains) && dst.Lwd() <= |dst.chains| && dst.Accounted() && !dst.freezeEnd
    requires dst.Shape() || (dst.Lwd() < |dst.chains| && DataBehind(dst.chains, dst.Lwd()))
    requires Addrs(dst.chains) !! others && dst.Bytes() == before + moved
    requires dst.totalLen + |tail| <= SIZE_MAX && |tail| <= CHAIN_MAX - CHAIN_SIZE
    modifies dst
    ensures dst.Accounted() && !dst.freezeEnd && dst.freezeStart == old(dst.freezeStart)
    ensures !old(dst.Shape()) ==> !dst.Shape()
    ensures old(dst.Shape()) ==>
      asserted && dst.Valid() && (old(dst.GapFree()) ==> dst.GapFree())
      && dst.Bytes() == before + (moved + tail) && Addrs(dst.chains) !! others
    ensures asserted ==> dst.Noted() == old(dst.Notes(|tail|, 0))
  {
    hide Good, Flatten, NoGap, Pos, Chain.Data, Addrs, Spine, Chained, Tell;
    NoShape(dst);
    if DataBehind(dst.chains, dst.Lwd()) {
      asserted := AddLoose(dst, tail);
      NoShape(dst);
    } else {
      Assoc(before, moved, tail);
      var ok := dst.Add(tail, others);
      asserted := true;
    }
  }

  lemma NoShape(dst: Evbuffer)
    ensures DataBehind(dst.chains, dst.Lwd()) ==> !dst.Shape()
  {
  }

  /** The part of evbuffer_remove_buffer that leaves some bytes in `src`, for any source. */
  method RemovePart(src: Evbuffer, dst: Evbuffer, datlen: nat) returns (asserted: bool)
    requires src.Valid() && dst.Valid() && src != dst && Apart(dst, src) && !dst.freezeEnd
    requires datlen < src.totalLen && src.totalLen + dst.totalLen <= SIZE_MAX
    modifies src`chains, src`lastWithDatap, src`totalLen, src`nDelForCb, dst
    ensures src.Accounted() && dst.Accounted() && !dst.freezeEnd && dst.freezeStart == old(dst.freezeStart)
    ensures asserted && src.Shape() && dst.Shape() <==> old(Movable(src.chains, src.Lwd(), dst.totalLen > 0, datlen))
    ensures old(Movable(src.chains, src.Lwd(), dst.totalLen > 0, datlen)) ==>
      && Apart(dst, src) && (old(src.GapFree()) ==> src.GapFree() && (old(dst.GapFree()) ==> dst.GapFree()))
      && datlen <= |old(src.Bytes())| && src.Bytes() == old(src.Bytes())[datlen..]
      && dst.Bytes() == old(dst.Bytes()) + old(src.Bytes())[..datlen]
    ensures asserted ==>
      && dst.Noted() == Tell(old(dst.Noted()), dst.hasCallbacks, dst.deferredCbs, old(dst.totalLen), datlen, 0)
      && src.Noted() == old(src.Noted()).Take(datlen)
  {
    hide Good, Flatten, NoGap, Pos, Chain.Data, Addrs, Spine, LastWithData, SrcFine, DstFine, Movable, Whole;
    hide DataBehind, Chained, Tell, Evbuffer.Accounted, Evbuffer.Noted;
    ValidChains(src);
    ValidChains(dst);
    ghost var cs, lp, total, before := src.chains, src.lastWithDatap, src.totalLen, dst.Bytes();
    ghost var movable := Movable(cs, src.Lwd(), dst.totalLen > 0, datlen);
    MovableParts(cs, src.Lwd(), dst.totalLen > 0, datlen);
    WholeFits(cs, datlen);
    ghost var noted, length := dst.Noted(), dst.totalLen;
    var i, nread := Relink(src, dst, datlen);
    var j := if nread > 0 then 0 else i;
    ghost var left := if nread > 0 then cs[i..] else cs;
    var rest := datlen - nread;
    Remainder(cs, lp, src.last, total, i, rest);
    ghost var others := if movable then Addrs(left[j := cs[i].TrimFront(rest)]) else {};
    CountMore(noted, dst.hasCallbacks, dst.deferredCbs, length, nread, rest);
    asserted := CopyRest(src, dst, j, rest, before, Flatten(cs[..i]), others);
    CountTaken(src, nread + rest);
  }

  method CountTaken(src: Evbuffer, n: nat)
    requires src.Accounted() && n <= src.totalLen
    modifies src`totalLen, src`nDelForCb
    ensures src.Accounted() && src.totalLen == old(src.totalLen) - n && src.Noted() == old(src.Noted()).Take(n)
  {
    hide Chained;
    src.totalLen := src.totalLen - n;
    src.nDelForCb := src.nDelForCb + n;
  }

  /** The first bytes of chain j go to the end of dst. */
  method CopyRest(src: Evbuffer, dst: Evbuffer, j: nat, rest: nat, ghost before: seq<byte>, ghost moved: seq<byte>,
                  ghost others: set<Addr>)
      returns (asserted: bool)
    requires src != dst && j < |src.chains| && src.chains[j].Ok() && rest <= src.chains[j].off
    requires Spine(dst.chains) && dst.Lwd() <= |dst.chains| && dst.Accounted() && !dst.freezeEnd
    requires dst.Shape() || (dst.Lwd() < |dst.chains| && DataBehind(dst.chains, dst.Lwd()))
    requires Addrs(dst.chains) !! others && dst.Bytes() == before + moved
    requires dst.totalLen + rest <= SIZE_MAX && rest <= CHAIN_MAX - CHAIN_SIZE
    modifies src`chains, dst
    ensures src.chains == old(src.chains)[j := old(src.chains[j]).TrimFront(rest)]
    ensures dst.Accounted() && !dst.freezeEnd && dst.freezeStart == old(dst.freezeStart)
    ensures !old(dst.Shape()) ==> !dst.Shape()
    ensures old(dst.Shape()) ==>
      asserted && dst.Valid() && (old(dst.GapFree()) ==> dst.GapFree())
      && dst.Bytes() == before + (moved + old(src.chains[j]).Data()[..rest]) && Addrs(dst.chains) !! others
    ensures asserted ==>
      dst.Noted() == Tell(old(dst.Noted()), dst.hasCallbacks, dst.deferredCbs, old(dst.totalLen), rest, 0)
  {
    hide Good, Flatten, NoGap, Pos, Chain.Data, Addrs, Spine, DataBehind, Chained, Tell;
    var chain := src.chains[j];
    asserted := AddTail(dst, chain.Data()[..rest], before, moved, others);
    src.chains := src.chains[j := chain.TrimFront(rest)];
  }

  lemma MovableParts(cs: seq<Chain>, k: nat, dstData: bool, n: nat)
    requires n < |Flatten(cs)|
    ensures Movable(cs, k, dstData, n) <==> DstFine(cs[..Whole(cs, n)], dstData) && SrcFine(cs[..Whole(cs, n)], k)
  {
  }

  /** The source's list after the call: well formed just when SrcFine says so. */
  lemma Remainder(cs: seq<Chain>, lp: Link, last: Addr?, total: nat, i: nat, n: nat)
    requires Good(cs, lp, last, total) && i < |cs| && cs[i].Ok() && n < cs[i].off
    ensures var m := |Flatten(cs[..i])|;
      var list, j := if m > 0 then cs[i..] else cs, if m > 0 then 0 else i;
      var out, lp' := list[j := cs[i].TrimFront(n)], if Pos(cs, lp) <= i then First else lp;
      && list[j] == cs[i] && m + n <= total == |Flatten(cs)|
      && (SrcFine(cs[..i], Pos(cs, lp)) <==> Good(out, lp', last, total - (m + n)))
      && (SrcFine(cs[..i], Pos(cs, lp)) ==>
            && Flatten(out) == Flatten(cs)[m + n..] && (NoGap(cs) ==> NoGap(out))
            && Flatten(cs[..i]) + cs[i].Data()[..n] == Flatten(cs)[..m + n]
            && (m > 0 ==> Addrs(cs[..i]) !! Addrs(out)) && Addrs(out) <= Addrs(cs))
  {
    hide Flatten, Chain.Data, Addrs, NoGap, Spine, Dropped, SrcFine, Good, Pos;
    if SrcFine(cs[..i], Pos(cs, lp)) {
      LeftIn(cs, lp, last, total, i, n);
    } else {
      TotalIs(cs, lp, last, total);
      TakeBytes(cs, i, n);
      WrongSource(cs, lp, last, total, i, n, total - (|Flatten(cs[..i])| + n));
    }
  }

  lemma WrongSource(cs: seq<Chain>, lp: Link, last: Addr?, total: nat, i: nat, n: nat, left: nat)
    requires Good(cs, lp, last, total) && i < |cs| && cs[i].Ok() && n < cs[i].off && !SrcFine(cs[..i], Pos(cs, lp))
    ensures Flatten(cs[..i]) == []
    ensures !Good(cs[i := cs[i].TrimFront(n)], if Pos(cs, lp) <= i then First else lp, last, left)
  {
    hide Flatten, Chain.Data, Spine;
    var out := cs[i := cs[i].TrimFront(n)];
    SrcLink(cs, lp, last, total, i);
    assert out[i].off > 0 && i > 0;
  }

  /** evbuffer_remove_buffer: moves the first bytes of `src` to the end of `dst`. `asserted` is whether the assertions
      of the source hold. They do, and both buffers are well formed afterwards, exactly when the move is Movable. */
  method RemoveBuffer(src: Evbuffer, dst: Evbuffer, datlen: nat) returns (result: int, asserted: bool)
    requires src.Valid() && dst.Valid() && (src != dst ==> Apart(dst, src))
    requires src.totalLen + dst.totalLen <= SIZE_MAX
    modifies src, dst
    ensures asserted && src.Valid() && dst.Valid() <==> old(Removable(src, dst, datlen))
    ensures src.freezeStart == old(src.freezeStart) && dst.freezeEnd == old(dst.freezeEnd)
    ensures src.freezeEnd == old(src.freezeEnd) && dst.freezeStart == old(dst.freezeStart)
    ensures result ==
      if datlen > 0 && src != dst && (dst.freezeEnd || src.freezeStart) then -1
      else if src == dst then 0 else AsInt(Min(datlen, |old(src.Bytes())|))
    ensures !Moves(src, dst, datlen) ==>
      src.Bytes() == old(src.Bytes()) && dst.Bytes() == old(dst.Bytes())
    ensures old(Removable(src, dst, datlen)) ==>
      && (src != dst ==> Apart(dst, src))
      && (old(src.GapFree()) ==> src.GapFree() && (old(dst.GapFree()) ==> dst.GapFree()))
    ensures old(Removable(src, dst, datlen)) && src != dst && !dst.freezeEnd && !src.freezeStart ==>
      var n := Min(datlen, |old(src.Bytes())|);
      src.Bytes() == old(src.Bytes())[n..] && dst.Bytes() == old(dst.Bytes()) + old(src.Bytes())[..n]
    // the callbacks of both hear of it; those of dst are run again where only a part of src went
    ensures !Moves(src, dst, datlen) || old(src.Bytes()) == [] ==>
      src.Noted() == old(src.Noted()) && dst.Noted() == old(dst.Noted())
    ensures old(Removable(src, dst, datlen)) && Moves(src, dst, datlen) && old(src.Bytes()) != [] ==>
      var n := Min(datlen, |old(src.Bytes())|);
      && src.Noted() == old(src.Notes(0, n))
      && dst.Noted() ==
         if n < |old(src.Bytes())| then
           Tell(old(dst.Notes(n, 0)), dst.hasCallbacks, dst.deferredCbs, old(dst.totalLen) + n, 0, 0)
         else
           old(dst.Notes(n, 0))
  {
    hide Good, Flatten, NoGap, Pos, Chain.Data, Addrs, Spine, Movable, Chained, Tell;
    ValidChains(src);
    ghost var all := src.Bytes();
    assert all[..|all|] == all && all[|all|..] == [] && all[0..] == all && all[..0] == [];
    if datlen == 0 || dst == src {
      assert dst.Bytes() + [] == dst.Bytes();
      return 0, true;
    }
    if dst.freezeEnd || src.freezeStart {
      return -1, true;
    }
    if datlen >= src.totalLen {
      result := AsInt(src.totalLen);
      var _ := AddBuffer(dst, src);
      EverythingMovable(old(src.chains), old(src.Lwd()), old(dst.totalLen) > 0, datlen);
      return result, true;
    }
    asserted := RemoveSome(src, dst, datlen);
    result := AsInt(datlen);
  }

  /** The move of some of the bytes, with the callbacks. */
  method RemoveSome(src: Evbuffer, dst: Evbuffer, datlen: nat) returns (asserted: bool)
    requires src.Valid() && dst.Valid() && Apart(dst, src) && Moves(src, dst, datlen)
    requires datlen < src.totalLen && src.totalLen + dst.totalLen <= SIZE_MAX
    modifies src, dst
    ensures src.freezeStart == old(src.freezeStart) && dst.freezeEnd == old(dst.freezeEnd)
    ensures src.freezeEnd == old(src.freezeEnd) && dst.freezeStart == old(dst.freezeStart)
    ensures asserted && src.Valid() && dst.Valid() <==>
      old(Movable(src.chains, src.Lwd(), dst.totalLen > 0, datlen))
    ensures old(Movable(src.chains, src.Lwd(), dst.totalLen > 0, datlen)) ==>
      && Apart(dst, src) && (old(src.GapFree()) ==> src.GapFree() && (old(dst.GapFree()) ==> dst.GapFree()))
      && datlen <= |old(src.Bytes())| && src.Bytes() == old(src.Bytes())[datlen..]
      && dst.Bytes() == old(dst.Bytes()) + old(src.Bytes())[..datlen]
      && src.Noted() == old(src.Notes(0, datlen))
      && dst.Noted() == Tell(old(dst.Notes(datlen, 0)), dst.hasCallbacks, dst.deferredCbs, old(dst.totalLen) + datlen,
                             0, 0)
  {
    hide Good, Flatten, NoGap, Pos, Chain.Data, Addrs, Spine, Movable, Evbuffer.Accounted, Tell;
    LengthIs(src);
    LengthIs(dst);
    CountThenTell(src.Noted(), src.hasCallbacks, src.deferredCbs, src.totalLen, 0, datlen);
    asserted := RemovePart(src, dst, datlen);
    LengthIs(src);
    LengthIs(dst);
    dst.RunCallbacks(false);
    src.RunCallbacks(false);
  }

  lemma LengthIs(buf: Evbuffer)
    ensures buf.Shape() ==> buf.totalLen == |buf.Bytes()|
  {
  }

  /** The calls that ask for bytes and get past the checks. */
  predicate Moves(src: Evbuffer, dst: Evbuffer, datlen: nat)
    reads src, dst
  {
    datlen > 0 && src != dst && !dst.freezeEnd && !src.freezeStart
  }

  /** The calls that leave both buffers well formed. */
  predicate Removable(src: Evbuffer, dst: Evbuffer, datlen: nat)
    reads src, dst
  {
    !Moves(src, dst, datlen) || Movable(src.chains, src.Lwd(), dst.totalLen > 0, datlen)
  }

  lemma EverythingMovable(cs: seq<Chain>, k: nat, dstData: bool, n: nat)
    requires n >= |Flatten(cs)|
    ensures Movable(cs, k, dstData, n)
  {
  }

  // ----- a gap that does harm -----

  /** A chain of its own for one byte or none goes to the end of a buffer. */
  method InsertOne(buf: Evbuffer, data: seq<byte>, ghost others: set<Addr>)
    requires buf.Valid() && |data| <= 1 && Addrs(buf.chains) !! others
    modifies buf`chains, buf`last, buf`lastWithDatap, buf`totalLen, buf`nAddForCb
    ensures buf.Valid() && Addrs(buf.chains) !! others && buf.chains != []
    ensures buf.chains == Joined(old(buf.chains), old(buf.Lwd()), [buf.chains[|buf.chains| - 1]])
    ensures buf.chains[|buf.chains| - 1].off == |data| && buf.chains[|buf.chains| - 1].Ok()
    ensures buf.chains[|buf.chains| - 1].SpaceLen() > 0
    ensures buf.Lwd() == if |data| == 1 then |buf.chains| - 1 else old(buf.Lwd())
    ensures buf.Bytes() == old(buf.Bytes()) + data
  {
    hide Good, Flatten, NoGap, Pos, Chain.Data, Addrs, Spine, Joined;
    var _, chain := NewChain(2, Addrs(buf.chains) + others);
    EmptyData(chain);
    chain := chain.Append(data);
    LastOfJoined(buf.chains, buf.Lwd(), chain);
    buf.ChainInsert(chain);
    buf.nAddForCb := buf.nAddForCb + |data|;
  }

  lemma LastOfJoined(cs: seq<Chain>, k: nat, c: Chain)
    ensures var out := Joined(cs, k, [c]); out != [] && out[|out| - 1] == c
  {
  }

  /** A chain with data, an empty one, and two more with data, the first with room behind its data. */
  ghost predicate Gap4(cs: seq<Chain>) {
    && |cs| == 4 && cs[0].off == 1 && cs[1].off == 0 && cs[2].off == 1 && cs[3].off == 1
    && (forall i :: 0 <= i < 4 ==> cs[i].Ok()) && cs[0].SpaceLen() > 0
  }

  /** Insertions and evbuffer_prepend_buffer get from new buffers to one with such a gap. */
  method Gapped() returns (buf: Evbuffer)
    ensures fresh(buf) && buf.Valid() && !buf.freezeStart && !buf.freezeEnd && Gap4(buf.chains)
    ensures buf.Bytes() == [1, 3, 4]
  {
    hide Good, Flatten, NoGap, Pos, Chain.Data, Addrs, Spine;
    var front := TwoChains(1, [], {});
    buf := TwoChains(3, [4], Addrs(front.chains));
    ghost var cs := front.chains + buf.chains;
    var _ := PrependBuffer(buf, front);
    assert buf.chains == cs;
    ValidChains(buf);
  }

  /** Moving two bytes out of it leaves the destination malformed. */
  method GapDoesHarm() returns (src: Evbuffer, dst: Evbuffer, asserted: bool)
    ensures !(asserted && src.Valid() && dst.Valid())
  {
    hide Good, Flatten, NoGap, Pos, Chain.Data, Addrs, Spine, DstFine, Whole, Evbuffer.Accounted;
    src := Gapped();
    dst := new Evbuffer(false, false);
    ValidChains(src);
    ValidChains(dst);
    GapShape(src.chains);
    NoneShared(src.chains);
    var result;
    result, asserted := RemoveBuffer(src, dst, 2);
  }

  /** What that costs: after the move, which has only whole chains to relink, evbuffer_add puts a byte between the two
      that were moved. */
  method GapReorders() returns (dst: Evbuffer)
    ensures dst.Bytes() == [1, 9, 3]
  {
    hide Good, Flatten, NoGap, Pos, Chain.Data, Addrs, Spine, LastWithData, DstFine, SrcFine, Movable, Whole, Joined;
    hide DataBehind, Advanced;
    var src := Gapped();
    dst := new Evbuffer(false, false);
    ghost var cs := src.chains;
    ValidChains(src);
    ValidChains(dst);
    GapShape(cs);
    NoneShared(cs);
    LwdInside(dst);
    var i, nread := Relink(src, dst, 2);
    GapLink(cs);
    GapSplit(cs, [1, 3, 4]);
    assert dst.chains == cs[..3] && dst.Lwd() == 0;
    var _ := AddLoose(dst, [9]);
  }

  lemma GapLink(cs: seq<Chain>)
    requires Gap4(cs)
    ensures Joined([], 0, cs[..3]) == cs[..3] && Advanced(cs[..3], 0) == 0
  {
    assert cs[..3][1] == cs[1];
  }

  /** A buffer with a byte in one chain and at most one in the next. */
  method TwoChains(x: byte, y: seq<byte>, ghost others: set<Addr>) returns (buf: Evbuffer)
    requires |y| <= 1
    ensures fresh(buf) && buf.Valid() && !buf.freezeStart && !buf.freezeEnd && Addrs(buf.chains) !! others
    ensures |buf.chains| == 2 && buf.chains[0].off == 1 && buf.chains[1].off == |y|
    ensures buf.chains[0].Ok() && buf.chains[1].Ok() && buf.chains[0].SpaceLen() > 0
    ensures buf.Bytes() == [x] + y
  {
    hide Good, Flatten, NoGap, Pos, Chain.Data, Addrs, Spine;
    buf := new Evbuffer(false, false);
    NoneShared([]);
    NoAddrs();
    InsertOne(buf, [x], others);
    assert |buf.chains| == 1;
    InsertOne(buf, y, others);
  }

  lemma NoneShared(cs: seq<Chain>)
    ensures Addrs([]) !! Addrs(cs)
  {
  }

  lemma GapShape(cs: seq<Chain>)
    requires Gap4(cs)
    ensures Whole(cs, 2) == 3 && !DstFine(cs[..3], false) && |Flatten(cs[..3])| == 2 && |Flatten(cs)| == 3
  {
    hide Flatten, Chain.Data;
    assert Whole(cs[3..], 0) == 0 && cs[2..][1..] == cs[3..] && cs[1..][1..] == cs[2..];
    assert Whole(cs[2..], 1) == 1 && Whole(cs[1..], 1) == 2;
    GapLengths(cs);
    assert cs[..3][1] == cs[1] && cs[..3][2] == cs[2];
  }

  lemma GapLengths(cs: seq<Chain>)
    requires Gap4(cs)
    ensures |Flatten(cs[..1])| == 1 && |Flatten(cs[..3])| == 2 && |Flatten(cs)| == 3
  {
    hide Flatten, Chain.Data;
    FlattenEmpty(cs[..0]);
    FlattenSnoc(cs, 0);
    FlattenSnoc(cs, 1);
    FlattenSnoc(cs, 2);
    FlattenSnoc(cs, 3);
    assert cs[..4] == cs;
  }

  lemma GapSplit(cs: seq<Chain>, all: seq<byte>)
    requires Gap4(cs) && Flatten(cs) == all
    ensures |all| == 3
    ensures Flatten(cs[..3][..1]) + [9] + Flatten(cs[..3][1..]) == [all[0], 9, all[1]]
  {
    hide Flatten;
    GapLengths(cs);
    FlattenSplit(cs, 3);
    FlattenSplit(cs[..3], 1);
    assert cs[..3][..1] == cs[..1];
    assert all[..2] == Flatten(cs[..3]);
    assert all[..1] == Flatten(cs[..1]) && Flatten(cs[..3][1..]) == all[1..2];
  }
}
