/** What each change to a list of chains does to its bytes, its links and its gaps. */
module ChainLists {
  import opened ByteSeq
  import opened Chains

  // ----- inserting at the end -----

  /** How many leading chains remain once the trailing empty ones are dropped. */
  ghost function Keep(cs: seq<Chain>, k: nat): (m: nat)
    ensures m <= |cs|
  {
    if k < |cs| && cs[k].off > 0 then k + 1 else 0
  }

  lemma KeepBounds(cs: seq<Chain>, k: nat)
    requires LastWithData(cs, k)
    ensures k <= Keep(cs, k) && (k == |cs| ==> cs == [])
  {
  }

  lemma KeepFlatten(cs: seq<Chain>, k: nat)
    requires LastWithData(cs, k)
    ensures Flatten(cs[..Keep(cs, k)]) == Flatten(cs)
  {
    var m := Keep(cs, k);
    FlattenSplit(cs, m);
    FlattenEmpty(cs[m..]);
  }

  /** A list after a run of chains replaced its trailing empty ones. */
  ghost function Joined(cs: seq<Chain>, k: nat, more: seq<Chain>): seq<Chain> {
    cs[..Keep(cs, k)] + more
  }

  lemma JoinBytes(cs: seq<Chain>, k: nat, more: seq<Chain>)
    requires LastWithData(cs, k)
    ensures Flatten(Joined(cs, k, more)) == Flatten(cs) + Flatten(more)
  {
    KeepFlatten(cs, k);
    FlattenConcat(cs[..Keep(cs, k)], more);
  }

  lemma JoinSpine(cs: seq<Chain>, k: nat, more: seq<Chain>)
    requires Spine(cs) && Spine(more) && Addrs(cs) !! Addrs(more)
    ensures Spine(Joined(cs, k, more))
  {
    var out := Joined(cs, k, more);
    forall i, j | 0 <= i < j < |out|
      ensures out[i].addr != out[j].addr
    {
      var m := Keep(cs, k);
      if i < m <= j {
        assert cs[i].addr in Addrs(cs) && more[j - m].addr in Addrs(more);
      }
    }
  }

  lemma EmptyList(cs: seq<Chain>, lp: Link, last: Addr?, total: nat)
    requires Good(cs, lp, last, total)
    ensures cs == [] <==> last == null
    ensures cs == [] ==> lp == First
  {
  }

  lemma TotalIs(cs: seq<Chain>, lp: Link, last: Addr?, total: nat)
    requires Good(cs, lp, last, total)
    ensures total == |Flatten(cs)|
  {
  }

  lemma ZeroGood(cs: seq<Chain>)
    ensures Good([], First, null, 0) && Flatten([]) == [] && NoGap([]) && Addrs([]) <= Addrs(cs)
  {
  }

  lemma LwdChain(cs: seq<Chain>, lp: Link, last: Addr?, total: nat)
    requires Good(cs, lp, last, total) && cs != []
    ensures Pos(cs, lp) < |cs| && cs[Pos(cs, lp)].Ok() && cs[0].Ok()
  {
    hide Flatten;
  }

  lemma JoinAddrs(cs: seq<Chain>, k: nat, more: seq<Chain>)
    ensures Addrs(Joined(cs, k, more)) <= Addrs(cs) + Addrs(more)
  {
  }

  lemma NoAddrs()
    ensures Addrs([]) == {}
  {
  }

  lemma FrontAddrs(ds: seq<Chain>, cs: seq<Chain>)
    ensures Addrs(ds + cs) <= Addrs(cs) + Addrs(ds)
  {
  }

  lemma PrependAddrs(cs: seq<Chain>, c: Chain)
    ensures Addrs([c] + cs) <= Addrs(cs) + {c.addr}
  {
  }

  lemma ReplaceAddrs(cs: seq<Chain>, i: nat, c: Chain)
    requires i < |cs| && c.addr == cs[i].addr
    ensures Addrs(cs[i := c]) == Addrs(cs)
  {
    var out := cs[i := c];
    forall a | a in Addrs(cs)
      ensures a in Addrs(out)
    {
      var j :| 0 <= j < |cs| && cs[j].addr == a;
      assert out[j].addr == a;
    }
    forall a | a in Addrs(out)
      ensures a in Addrs(cs)
    {
      var j :| 0 <= j < |out| && out[j].addr == a;
      assert cs[j].addr == a;
    }
  }

  lemma InsertLast(cs: seq<Chain>, k: nat, c: Chain)
    requires LastWithData(cs, k)
    ensures LastWithData(Joined(cs, k, [c]), if c.off != 0 then Keep(cs, k) else k)
  {
  }

  lemma InsertGood(cs: seq<Chain>, lp: Link, last: Addr?, total: nat, c: Chain, lp': Link)
    requires Good(cs, lp, last, total) && c.Ok() && c.addr !in Addrs(cs)
    requires var m := Keep(cs, Pos(cs, lp)); lp' == if c.off != 0 then LinkAt(cs, m) else lp
    ensures var out := Joined(cs, Pos(cs, lp), [c]);
      && Good(out, lp', c.addr, total + c.off)
      && Flatten(out) == Flatten(cs) + c.Data()
      && Pos(out, lp') == (if c.off != 0 then Keep(cs, Pos(cs, lp)) else Pos(cs, lp))
  {
    hide Flatten, Spine, LastWithData;
    var k := Pos(cs, lp);
    var out := Joined(cs, k, [c]);
    assert Flatten(out) == Flatten(cs) + c.Data() by {
      JoinBytes(cs, k, [c]);
      FlattenOne(c);
    }
    assert Spine(out) by {
      SpineOne(c);
      AddrsOne(c);
      JoinSpine(cs, k, [c]);
    }
    InsertLast(cs, k, c);
    KeepBounds(cs, k);
    PosStays(cs, lp, out);
    PosLinkAt(out, Keep(cs, k));
    assert LinkAt(out, Keep(cs, k)) == LinkAt(cs, Keep(cs, k));
  }

  lemma InsertNoGap(cs: seq<Chain>, lp: Link, last: Addr?, total: nat, c: Chain)
    requires Good(cs, lp, last, total)
    ensures NoGap(cs) ==> NoGap(Joined(cs, Pos(cs, lp), [c]))
  {
    hide Flatten;
  }

  // ----- changing one chain -----

  lemma ReplaceSpine(cs: seq<Chain>, i: nat, c: Chain)
    requires Spine(cs) && i < |cs| && c.Ok() && c.addr == cs[i].addr
    ensures Spine(cs[i := c])
  {
  }

  /** More bytes, or none, go into the last chain with data. */
  lemma ExtendGood(cs: seq<Chain>, lp: Link, last: Addr?, total: nat, c: Chain, d: seq<byte>)
    requires Good(cs, lp, last, total) && Pos(cs, lp) < |cs|
    requires var b := cs[Pos(cs, lp)]; c.Ok() && c.addr == b.addr && c.Data() == b.Data() + d
    ensures var out := cs[Pos(cs, lp) := c];
      && Good(out, lp, last, total + |d|)
      && Flatten(out) == Flatten(cs) + d
      && Pos(out, lp) == Pos(cs, lp)
      && c.off == cs[Pos(cs, lp)].off + |d|
      && (NoGap(cs) ==> NoGap(out))
  {
    hide Flatten;
    var k := Pos(cs, lp);
    var out := cs[k := c];
    assert Flatten(out) == Flatten(cs) + d by {
      FlattenAt(cs, k);
      FlattenUpdate(cs, k, c);
      FlattenEmpty(cs[k + 1..]);
    }
    ReplaceSpine(cs, k, c);
    PosStays(cs, lp, out);
  }

  lemma ExtendFrontBytes(cs: seq<Chain>, c: Chain, d: seq<byte>)
    requires cs != [] && c.Data() == d + cs[0].Data()
    ensures Flatten(cs[0 := c]) == d + Flatten(cs)
  {
    assert cs[0 := c][1..] == cs[1..];
    Assoc(d, cs[0].Data(), Flatten(cs[1..]));
  }

  /** More bytes, or none, go in front of the data of the first chain. */
  lemma ExtendFrontGood(cs: seq<Chain>, lp: Link, last: Addr?, total: nat, c: Chain, d: seq<byte>)
    requires Good(cs, lp, last, total) && cs != []
    requires c.Ok() && c.addr == cs[0].addr && c.Data() == d + cs[0].Data()
    ensures var out := cs[0 := c];
      && Good(out, lp, last, total + |d|)
      && Flatten(out) == d + Flatten(cs)
      && (NoGap(cs) ==> NoGap(out))
  {
    hide Flatten, Chain.Data;
    ExtendFrontBytes(cs, c, d);
    ReplaceSpine(cs, 0, c);
    PosStays(cs, lp, cs[0 := c]);
  }

  /** Appending lists shifts the last chain with data of the second. */
  lemma ShiftLast(a: seq<Chain>, cs: seq<Chain>, k: nat)
    requires LastWithData(cs, k) && cs != [] && (cs[0].off > 0 || k > 0)
    ensures k < |cs| && LastWithData(a + cs, |a| + k)
  {
  }

  lemma PrependSpine(cs: seq<Chain>, c: Chain)
    requires Spine(cs) && c.Ok() && c.addr !in Addrs(cs)
    ensures Spine([c] + cs)
  {
    assert forall j :: 0 <= j < |cs| ==> cs[j].addr in Addrs(cs);
  }

  lemma PrependBytes(cs: seq<Chain>, c: Chain)
    ensures Flatten([c] + cs) == c.Data() + Flatten(cs)
  {
    hide Flatten, Chain.Data;
    FlattenConcat([c], cs);
    FlattenOne(c);
  }

  lemma PrependNoGap(cs: seq<Chain>, c: Chain)
    requires NoGap(cs) && c.off > 0
    ensures NoGap([c] + cs)
  {
  }

  /** A chain with data goes in front of a list whose first chain has data. */
  lemma PrependGood(cs: seq<Chain>, lp: Link, last: Addr?, total: nat, c: Chain)
    requires Good(cs, lp, last, total) && cs != [] && cs[0].off > 0
    requires c.Ok() && c.addr !in Addrs(cs) && c.off > 0
    ensures var out := [c] + cs;
      && Good(out, if lp == First then Next(c.addr) else lp, last, total + c.off)
      && Flatten(out) == c.Data() + Flatten(cs)
      && (NoGap(cs) ==> NoGap(out))
  {
    hide Flatten, Spine, LastWithData, NoGap, Chain.Data;
    var out, k := [c] + cs, Pos(cs, lp);
    PrependBytes(cs, c);
    PrependSpine(cs, c);
    if NoGap(cs) {
      PrependNoGap(cs, c);
    }
    ShiftLast([c], cs, k);
    PosShift(cs, lp, [c]);
  }

  // ----- dropping from the front -----

  /** The list once the first i chains and then n bytes of the next one are gone. */
  ghost function Dropped(cs: seq<Chain>, i: nat, n: nat): seq<Chain>
    requires i < |cs| && cs[i].Ok() && n <= cs[i].off
  {
    [cs[i].TrimFront(n)] + cs[i + 1..]
  }

  lemma DroppedIs(cs: seq<Chain>, i: nat, n: nat)
    requires i < |cs| && cs[i].Ok() && n <= cs[i].off
    ensures Dropped(cs, i, n) == [cs[i].TrimFront(n)] + cs[i + 1..]
  {
  }

  lemma DropAddrs(cs: seq<Chain>, i: nat, n: nat)
    requires i < |cs| && cs[i].Ok() && n <= cs[i].off
    ensures Addrs(Dropped(cs, i, n)) <= Addrs(cs)
  {
    var out := Dropped(cs, i, n);
    forall a | a in Addrs(out)
      ensures a in Addrs(cs)
    {
      var j :| 0 <= j < |out| && out[j].addr == a;
      assert cs[i + j].addr == a;
    }
  }

  lemma DropBytes(cs: seq<Chain>, i: nat, n: nat)
    requires i < |cs| && cs[i].Ok() && n <= cs[i].off
    ensures |Flatten(cs[..i])| + n <= |Flatten(cs)|
    ensures Flatten(Dropped(cs, i, n)) == Flatten(cs)[|Flatten(cs[..i])| + n..]
  {
    hide Flatten;
    FlattenAt(cs, i);
    FlattenConcat([cs[i].TrimFront(n)], cs[i + 1..]);
    FlattenOne(cs[i].TrimFront(n));
    SuffixOf(Flatten(cs[..i]), cs[i].Data(), Flatten(cs[i + 1..]), n);
  }

  lemma DropSpine(cs: seq<Chain>, i: nat, n: nat)
    requires Spine(cs) && i < |cs| && n <= cs[i].off
    ensures Spine(Dropped(cs, i, n))
  {
  }

  lemma DropLast(cs: seq<Chain>, k: nat, i: nat, n: nat)
    requires LastWithData(cs, k) && i < |cs| && cs[i].Ok() && n < cs[i].off
    ensures i <= k < |cs| && LastWithData(Dropped(cs, i, n), k - i)
  {
  }

  lemma DropNoGap(cs: seq<Chain>, i: nat, n: nat)
    requires NoGap(cs) && i < |cs| && cs[i].Ok() && n < cs[i].off
    ensures NoGap(Dropped(cs, i, n))
  {
  }

  lemma DropGood(cs: seq<Chain>, lp: Link, last: Addr?, total: nat, i: nat, n: nat)
    requires Good(cs, lp, last, total) && i < |cs| && cs[i].Ok() && n < cs[i].off
    ensures |Flatten(cs[..i])| + n <= total && i <= Pos(cs, lp) <= |cs|
    ensures var out := Dropped(cs, i, n);
      && Good(out, if Pos(cs, lp) <= i then First else lp, last, total - (|Flatten(cs[..i])| + n))
      && Flatten(out) == Flatten(cs)[|Flatten(cs[..i])| + n..]
      && (NoGap(cs) ==> NoGap(out))
  {
    hide Flatten, Spine, LastWithData, NoGap, Chain.Data;
    var out, k := Dropped(cs, i, n), Pos(cs, lp);
    DropBytes(cs, i, n);
    DropSpine(cs, i, n);
    DropLast(cs, k, i, n);
    if NoGap(cs) {
      DropNoGap(cs, i, n);
    }
    PosLinkAt(out, k - i);
    assert k > i ==> lp == LinkAt(out, k - i);
  }

  /** A prefix that spells fewer bytes than the list stops short of its end. */
  lemma PrefixShort(cs: seq<Chain>, lp: Link, last: Addr?, total: nat, i: nat)
    requires Good(cs, lp, last, total) && i <= |cs| && |Flatten(cs[..i])| < total
    ensures i < |cs| && cs[i].Ok() && |Flatten(cs[..i + 1])| == |Flatten(cs[..i])| + cs[i].off
  {
    hide Flatten, Chain.Data;
    assert cs[..|cs|] == cs;
    FlattenSnoc(cs, i);
  }

  lemma PosZero(cs: seq<Chain>, lp: Link)
    ensures Pos(cs, lp) == 0 <==> lp == First
  {
  }

  /** A link is `&c->next` for the chain at position i just when it points at position i + 1. */
  lemma PosOfNext(cs: seq<Chain>, lp: Link, last: Addr?, total: nat, i: nat)
    requires Good(cs, lp, last, total) && i < |cs|
    ensures lp == Next(cs[i].addr) <==> Pos(cs, lp) == i + 1
  {
    hide Flatten, LastWithData;
    PosLinkAt(cs, i + 1);
  }

  // ----- moving chains between lists -----

  lemma HasData(cs: seq<Chain>, lp: Link, last: Addr?, total: nat)
    requires Good(cs, lp, last, total) && total > 0
    ensures cs != [] && Pos(cs, lp) < |cs| && cs[Pos(cs, lp)].off > 0
    ensures cs[0].off > 0 || Pos(cs, lp) > 0
  {
    hide Flatten, Chain.Data;
    var k := Pos(cs, lp);
    if k == 0 && (cs == [] || cs[0].off == 0) {
      FlattenEmpty(cs);
    }
  }

  lemma JoinNoGap(cs: seq<Chain>, k: nat, more: seq<Chain>)
    requires LastWithData(cs, k) && NoGap(cs) && NoGap(more)
    ensures NoGap(Joined(cs, k, more))
  {
  }

  /** APPEND_CHAIN: a list with data takes over the chains of another. */
  lemma JoinGood(cs: seq<Chain>, lp: Link, last: Addr?, total: nat, ds: seq<Chain>, lq: Link, dlast: Addr?, dtotal: nat)
    requires Good(cs, lp, last, total) && Good(ds, lq, dlast, dtotal) && dtotal > 0
    requires Addrs(cs) !! Addrs(ds)
    ensures var m := Keep(cs, Pos(cs, lp));
      var out, lp' := Joined(cs, Pos(cs, lp), ds), if lq == First then LinkAt(cs, m) else lq;
      && Good(out, lp', dlast, total + dtotal)
      && Flatten(out) == Flatten(cs) + Flatten(ds)
      && (NoGap(cs) && NoGap(ds) ==> NoGap(out))
  {
    hide Flatten, Spine, LastWithData, NoGap, Addrs, Chain.Data, Pos, LastAddr, Keep;
    var k, m := Pos(cs, lp), Keep(cs, Pos(cs, lp));
    var kept := cs[..m];
    HasData(ds, lq, dlast, dtotal);
    FrontLast(kept, ds);
    JoinBytes(cs, k, ds);
    JoinSpine(cs, k, ds);
    if NoGap(cs) && NoGap(ds) {
      JoinNoGap(cs, k, ds);
    }
    ShiftLast(kept, ds, Pos(ds, lq));
    PosShift(ds, lq, kept);
    assert LinkAt(kept, |kept|) == LinkAt(cs, m);
  }

  lemma FrontSpine(ds: seq<Chain>, cs: seq<Chain>)
    requires Spine(ds) && Spine(cs) && Addrs(cs) !! Addrs(ds)
    ensures Spine(ds + cs)
  {
    var out := ds + cs;
    forall i, j | 0 <= i < j < |out|
      ensures out[i].addr != out[j].addr
    {
      if i < |ds| <= j {
        assert ds[i].addr in Addrs(ds) && cs[j - |ds|].addr in Addrs(cs);
      }
    }
  }

  lemma FrontLast(ds: seq<Chain>, cs: seq<Chain>)
    requires cs != []
    ensures LastAddr(ds + cs) == LastAddr(cs)
  {
  }

  lemma FrontNoGap(ds: seq<Chain>, cs: seq<Chain>, k: nat)
    requires NoGap(ds) && NoGap(cs) && ds != [] && k < |cs| && cs[k].off > 0
    ensures NoGap(ds + cs) <==> ds[|ds| - 1].off > 0
  {
    var out := ds + cs;
    assert out[|ds| - 1] == ds[|ds| - 1] && out[|ds| + k] == cs[k];
  }

  /** PREPEND_CHAIN: the chains of one list go in front of a list with data. */
  lemma FrontGood(cs: seq<Chain>, lp: Link, last: Addr?, total: nat, ds: seq<Chain>, lq: Link, dlast: Addr?,
                  dtotal: nat)
    requires Good(cs, lp, last, total) && Good(ds, lq, dlast, dtotal) && total > 0 && ds != []
    requires Addrs(cs) !! Addrs(ds)
    ensures var out, lp' := ds + cs, if lp == First then LinkAt(ds, |ds|) else lp;
      && Good(out, lp', last, total + dtotal)
      && Flatten(out) == Flatten(ds) + Flatten(cs)
      && (NoGap(cs) && NoGap(ds) ==> (NoGap(out) <==> ds[|ds| - 1].off > 0))
  {
    hide Flatten, Spine, LastWithData, NoGap, Addrs, Chain.Data, Pos, LastAddr;
    HasData(cs, lp, last, total);
    FrontLast(ds, cs);
    FlattenConcat(ds, cs);
    FrontSpine(ds, cs);
    if NoGap(cs) && NoGap(ds) {
      FrontNoGap(ds, cs, Pos(cs, lp));
    }
    ShiftLast(ds, cs, Pos(cs, lp));
    PosShift(cs, lp, ds);
  }

  lemma PrefixSpine(cs: seq<Chain>, lp: Link, last: Addr?, total: nat, i: nat)
    requires Good(cs, lp, last, total) && i <= |cs|
    ensures Spine(cs[..i])
  {
  }

  lemma PrefixAddrs(cs: seq<Chain>, i: nat, n: nat)
    requires Spine(cs) && i < |cs| && n <= cs[i].off
    ensures Addrs(cs[..i]) <= Addrs(cs)
    ensures Addrs(cs[..i]) !! Addrs(Dropped(cs, i, n))
  {
    var a, out := cs[..i], Dropped(cs, i, n);
    forall x | x in Addrs(a)
      ensures x in Addrs(cs) && x !in Addrs(out)
    {
      var j :| 0 <= j < |a| && a[j].addr == x;
      assert cs[j].addr == x;
      forall l | 0 <= l < |out|
        ensures out[l].addr != x
      {
        assert out[l].addr == cs[i + l].addr;
      }
    }
  }

  // ----- gathering a prefix into one chain -----

  /** The list once chain t holds everything up to byte n of chain j; j may be past the end. */
  ghost function Pulled(cs: seq<Chain>, t: Chain, j: nat, n: nat): seq<Chain>
    requires j <= |cs| && (j < |cs| ==> cs[j].Ok() && n <= cs[j].off)
  {
    if j < |cs| then [t] + Dropped(cs, j, n) else [t]
  }

  lemma PullBytes(cs: seq<Chain>, t: Chain, j: nat, n: nat)
    requires j <= |cs| && (j < |cs| ==> cs[j].Ok() && n <= cs[j].off)
    requires t.Data() == Flatten(cs[..j]) + if j < |cs| then cs[j].Data()[..n] else []
    ensures Flatten(Pulled(cs, t, j, n)) == Flatten(cs)
  {
    hide Flatten, Chain.Data, Dropped;
    if j < |cs| {
      PrependBytes(Dropped(cs, j, n), t);
      DropBytes(cs, j, n);
      TakeBytes(cs, j, n);
      var all, i := Flatten(cs), |Flatten(cs[..j])| + n;
      assert all[..i] + all[i..] == all;
    } else {
      FlattenOne(t);
      assert cs[..j] == cs;
    }
  }

  /** The bytes of whole chains and then of part of the next one are a prefix of the list. */
  lemma TakeBytes(cs: seq<Chain>, i: nat, n: nat)
    requires i < |cs| && cs[i].Ok() && n <= cs[i].off
    ensures |Flatten(cs[..i])| + n <= |Flatten(cs)|
    ensures Flatten(cs[..i]) + cs[i].Data()[..n] == Flatten(cs)[..|Flatten(cs[..i])| + n]
  {
    hide Flatten, Chain.Data;
    FlattenAt(cs, i);
    var a, b, c := Flatten(cs[..i]), cs[i].Data(), Flatten(cs[i + 1..]);
    assert a + b[..n] == (a + b + c)[..|a| + n];
  }

  lemma PullSpine(cs: seq<Chain>, t: Chain, j: nat, n: nat)
    requires Spine(cs) && 0 < j <= |cs| && (j < |cs| ==> n <= cs[j].off)
    requires t.Ok() && (t.addr == cs[0].addr || t.addr !in Addrs(cs))
    ensures Spine(Pulled(cs, t, j, n))
    ensures Addrs(Pulled(cs, t, j, n)) <= Addrs(cs) + {t.addr}
  {
    var out := Pulled(cs, t, j, n);
    forall i | 0 < i < |out|
      ensures out[i].addr == cs[j + i - 1].addr && out[i].addr != t.addr && out[i].addr in Addrs(cs) && out[i].Ok()
    {
      assert cs[j + i - 1].addr in Addrs(cs);
    }
  }

  lemma PullLast(cs: seq<Chain>, k: nat, t: Chain, j: nat, n: nat)
    requires LastWithData(cs, k) && 0 < j <= |cs| && (j < |cs| ==> cs[j].Ok() && n < cs[j].off)
    ensures j < |cs| ==> j <= k < |cs|
    ensures LastWithData(Pulled(cs, t, j, n), if j < |cs| then k - j + 1 else 0)
  {
  }

  lemma PullNoGap(cs: seq<Chain>, t: Chain, j: nat, n: nat)
    requires NoGap(cs) && 0 < j <= |cs| && (j < |cs| ==> cs[j].Ok() && n < cs[j].off) && t.off > 0
    ensures NoGap(Pulled(cs, t, j, n))
  {
  }

  lemma PullLink(cs: seq<Chain>, lp: Link, t: Chain, j: nat, n: nat)
    requires 0 < j < |cs| && cs[j].Ok() && n <= cs[j].off && j <= Pos(cs, lp) <= |cs|
    requires Spine(Pulled(cs, t, j, n))
    ensures Pos(Pulled(cs, t, j, n), if Pos(cs, lp) == j then Next(t.addr) else lp) == Pos(cs, lp) - j + 1
  {
    hide Spine, IndexOf, Pos, Pulled;
    var k, out := Pos(cs, lp), Pulled(cs, t, j, n);
    PulledAddrs(cs, t, j, n);
    PosLinkAt(out, k - j + 1);
    if k > j {
      PosSame(cs, lp);
    }
  }

  lemma PulledAddrs(cs: seq<Chain>, t: Chain, j: nat, n: nat)
    requires 0 < j < |cs| && cs[j].Ok() && n <= cs[j].off
    ensures var out := Pulled(cs, t, j, n);
      && |out| == |cs| - j + 1 && out[0] == t
      && forall i :: 1 <= i < |out| ==> out[i].addr == cs[j + i - 1].addr
  {
  }

  /** A link past the first position is the link of the chain before it. */
  lemma PosSame(cs: seq<Chain>, lp: Link)
    requires 0 < Pos(cs, lp) <= |cs|
    ensures lp == Next(cs[Pos(cs, lp) - 1].addr)
  {
  }

  lemma PullLastAddr(cs: seq<Chain>, t: Chain, j: nat, n: nat)
    requires 0 < j <= |cs| && (j < |cs| ==> cs[j].Ok() && n <= cs[j].off)
    ensures LastAddr(Pulled(cs, t, j, n)) == if j < |cs| then LastAddr(cs) else t.addr
  {
  }

  lemma PullGood(cs: seq<Chain>, lp: Link, last: Addr?, total: nat, t: Chain, j: nat, n: nat)
    requires Good(cs, lp, last, total) && 0 < j <= |cs| && (j < |cs| ==> cs[j].Ok() && n < cs[j].off)
    requires t.Ok() && t.off > 0 && (t.addr == cs[0].addr || t.addr !in Addrs(cs))
    requires t.Data() == Flatten(cs[..j]) + if j < |cs| then cs[j].Data()[..n] else []
    ensures j < |cs| ==> j <= Pos(cs, lp) < |cs|
    ensures var out := Pulled(cs, t, j, n);
      var lp' := if j == |cs| then First else if Pos(cs, lp) == j then Next(t.addr) else lp;
      && Good(out, lp', if j == |cs| then t.addr else last, total)
      && Flatten(out) == Flatten(cs)
      && (NoGap(cs) ==> NoGap(out))
      && Addrs(out) <= Addrs(cs) + {t.addr}
  {
    hide Flatten, Spine, LastWithData, NoGap, Addrs, Chain.Data, Pos, LastAddr, Pulled;
    var out, k := Pulled(cs, t, j, n), Pos(cs, lp);
    PullBytes(cs, t, j, n);
    PullSpine(cs, t, j, n);
    PullLast(cs, k, t, j, n);
    PullLastAddr(cs, t, j, n);
    if NoGap(cs) {
      PullNoGap(cs, t, j, n);
    }
    if j < |cs| {
      PullLink(cs, lp, t, j, n);
    } else {
      PosZero(out, First);
    }
  }
}
