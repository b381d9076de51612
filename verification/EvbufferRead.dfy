/** Reading from a socket into the spare space of several chains (buffer.c). */
module EvbufferRead {
  import opened ByteSeq
  import opened Common
  import opened Chains
  import opened ChainLists
  import opened Evbuffers
  import opened EvbufferPtrs
  import opened EvbufferGrow

  const NUM_READ_IOVEC: nat := 4
  const MAX_READ: nat := 4096

  /** CHAIN_SPACE_LEN, on any chain. */
  function Space(c: Chain): nat {
    if c.misalign + c.off <= |c.buffer| then |c.buffer| - (c.misalign + c.off) else 0
  }

  /** The spare space of `count` chains from position f on. */
  ghost function Room(cs: seq<Chain>, f: nat, count: nat): nat
    requires f + count <= |cs|
  {
    if count == 0 then 0 else Room(cs, f, count - 1) + Space(cs[f + count - 1])
  }

  /** The first chain that can take more bytes. */
  function FirstSpace(cs: seq<Chain>, k: nat): nat
    requires k < |cs|
  {
    if Space(cs[k]) == 0 then k + 1 else k
  }

  /** The c chains from the first with space all have some, and offer `want` bytes. */
  ghost predicate Offers(cs: seq<Chain>, k: nat, c: nat, want: nat)
    requires k < |cs|
  {
    var f := FirstSpace(cs, k);
    && f + c <= |cs| && Room(cs, f, c) >= want
    && (forall i :: f <= i < f + c ==> Space(cs[i]) > 0)
    && (f > k ==> cs[k].off > 0)
  }

  /** At most n chains offer `want` bytes. */
  ghost predicate Ready(cs: seq<Chain>, k: nat, n: nat, want: nat) {
    k < |cs| && exists c :: 0 <= c <= n && Offers(cs, k, c, want)
  }

  lemma {:induction false} RoomSame(cs: seq<Chain>, ds: seq<Chain>, f: nat, count: nat)
    requires f + count <= |cs| && f + count <= |ds|
    requires forall i :: f <= i < f + count ==> ds[i] == cs[i]
    ensures Room(cs, f, count) == Room(ds, f, count)
  {
    if count > 0 {
      RoomSame(cs, ds, f, count - 1);
    }
  }

  /** Changing the gap of an empty chain changes nothing else. */
  lemma RealignGood(cs: seq<Chain>, lp: Link, last: Addr?, total: nat, i: nat, c: Chain)
    requires Good(cs, lp, last, total) && i < |cs| && c.Ok() && c.addr == cs[i].addr && c.off == 0 == cs[i].off
    ensures var out := cs[i := c];
      && Good(out, lp, last, total) && Flatten(out) == Flatten(cs) && Pos(out, lp) == Pos(cs, lp)
      && (NoGap(cs) ==> NoGap(out)) && Addrs(out) == Addrs(cs)
  {
    hide Flatten, Chain.Data, Addrs;
    EmptyData(c);
    EmptyData(cs[i]);
    FlattenAt(cs, i);
    FlattenUpdate(cs, i, c);
    ReplaceSpine(cs, i, c);
    ReplaceAddrs(cs, i, c);
    PosStays(cs, lp, cs[i := c]);
  }

  /** An empty chain at the very end changes no byte. */
  lemma SnocGood(cs: seq<Chain>, lp: Link, last: Addr?, total: nat, c: Chain)
    requires Good(cs, lp, last, total) && cs != [] && c.Ok() && c.off == 0 && c.addr !in Addrs(cs)
    ensures var out := cs + [c];
      && Good(out, lp, c.addr, total) && Flatten(out) == Flatten(cs) && Pos(out, lp) == Pos(cs, lp)
      && (NoGap(cs) ==> NoGap(out)) && Addrs(out) <= Addrs(cs) + {c.addr}
  {
    hide Flatten, Chain.Data, Addrs;
    EmptyData(c);
    FlattenConcat(cs, [c]);
    FlattenOne(c);
    SnocSpine(cs, c);
    PosStays(cs, lp, cs + [c]);
  }

  lemma SnocSpine(cs: seq<Chain>, c: Chain)
    requires Spine(cs) && c.Ok() && c.addr !in Addrs(cs)
    ensures Spine(cs + [c]) && Addrs(cs + [c]) <= Addrs(cs) + {c.addr}
  {
    assert forall i :: 0 <= i < |cs| ==> cs[i].addr in Addrs(cs);
  }

  /** The counts of evbuffer_expand_fast_ once it has looked at the chains from k up to i. */
  ghost predicate Tally(cs: seq<Chain>, k: nat, i: nat, used: nat, avail: nat) {
    && k < |cs| && k <= i <= |cs|
    && (i == k ==> used == 0 && avail == 0)
    && (i > k ==>
      FirstSpace(cs, k) + used == i && avail == Room(cs, FirstSpace(cs, k), used) && Offers(cs, k, used, avail))
  }

  /** Counting one more chain: the first only if it has space, the later ones being empty of data. */
  lemma TallyNext(cs: seq<Chain>, k: nat, i: nat, used: nat, avail: nat)
    requires Tally(cs, k, i, used, avail) && i < |cs|
    requires Space(cs[i]) > 0 || (i == k && cs[i].off > 0)
    ensures Tally(cs, k, i + 1, used + (if Space(cs[i]) > 0 then 1 else 0), avail + Space(cs[i]))
  {
  }

  /** A change to the next chain does not touch the counts. */
  lemma TallyKept(cs: seq<Chain>, k: nat, i: nat, used: nat, avail: nat, c: Chain)
    requires Tally(cs, k, i, used, avail) && i < |cs|
    ensures Tally(cs[i := c], k, i, used, avail)
  {
    if i > k {
      RoomSame(cs, cs[i := c], FirstSpace(cs, k), used);
    }
  }

  /** The counting loop of evbuffer_expand_fast_: measures, and realigns empty chains on its way. */
  method CountRoom(buf: Evbuffer, datlen: nat, n: nat) returns (i: nat, used: nat, avail: nat)
    requires buf.Valid() && buf.Lwd() < |buf.chains| && n >= 2
    modifies buf`chains
    ensures buf.Valid() && buf.Bytes() == old(buf.Bytes()) && (old(buf.GapFree()) ==> buf.GapFree())
    ensures Addrs(buf.chains) == old(Addrs(buf.chains)) && buf.Lwd() == old(buf.Lwd()) < |buf.chains|
    ensures buf.Lwd() < i <= |buf.chains| && used <= n
    ensures FirstSpace(buf.chains, buf.Lwd()) + used == i
    ensures avail == Room(buf.chains, FirstSpace(buf.chains, buf.Lwd()), used)
    ensures avail < datlen ==> i == |buf.chains| || used == n
    ensures Offers(buf.chains, buf.Lwd(), used, avail)
  {
    hide Good, Flatten, NoGap, Pos, Chain.Data, Addrs, Spine, Tally, Room, Offers, FirstSpace;
    ValidChains(buf);
    LwdFacts(buf);
    var k := buf.Lwd();
    i, used, avail := k, 0, 0;
    NoTally(buf.chains, k);
    while i < |buf.chains|
      invariant buf.Valid() && buf.Bytes() == old(buf.Bytes()) && (old(buf.GapFree()) ==> buf.GapFree())
      invariant Addrs(buf.chains) == old(Addrs(buf.chains)) && k == buf.Lwd() < |buf.chains|
      invariant forall j :: 0 <= j < |buf.chains| ==> buf.chains[j].Ok()
      invariant forall j :: k < j < |buf.chains| ==> buf.chains[j].off == 0
      invariant k <= i <= |buf.chains| && used < n
      invariant Tally(buf.chains, k, i, used, avail)
      decreases |buf.chains| - i
    {
      var chain := buf.chains[i];
      if chain.off > 0 {
        TallyNext(buf.chains, k, i, used, avail);
        if Space(chain) > 0 {
          avail, used := avail + Space(chain), used + 1;
        }
      } else {
        chain := chain.(misalign := 0);
        TallyKept(buf.chains, k, i, used, avail, chain);
        RealignGood(buf.chains, buf.lastWithDatap, buf.last, buf.totalLen, i, chain);
        buf.chains := buf.chains[i := chain];
        TallyNext(buf.chains, k, i, used, avail);
        avail, used := avail + |chain.buffer|, used + 1;
      }
      i := i + 1;
      if avail >= datlen || used == n {
        break;
      }
    }
    TallyEnd(buf.chains, k, i, used, avail);
  }

  lemma NoTally(cs: seq<Chain>, k: nat)
    requires k < |cs|
    ensures Tally(cs, k, k, 0, 0)
  {
  }

  lemma TallyEnd(cs: seq<Chain>, k: nat, i: nat, used: nat, avail: nat)
    requires Tally(cs, k, i, used, avail) && i > k
    ensures FirstSpace(cs, k) + used == i && avail == Room(cs, FirstSpace(cs, k), used) && Offers(cs, k, used, avail)
  {
  }

  /** The room of several chains covers the space of the first. */
  lemma {:induction false} SpaceInRoom(cs: seq<Chain>, k: nat, used: nat)
    requires k < |cs| && FirstSpace(cs, k) + used <= |cs| && FirstSpace(cs, k) + used > k
    ensures Space(cs[k]) <= Room(cs, FirstSpace(cs, k), used)
  {
    if used > 1 {
      SpaceInRoom(cs, k, used - 1);
    }
  }

  lemma RoomIsReady(cs: seq<Chain>, k: nat, at: nat, n: nat, want: nat)
    requires k < |cs| && RoomAt(cs, k, at, want) && n >= 2 && Space(cs[at]) > 0 && (at > k ==> cs[k].off > 0)
    ensures Ready(cs, k, n, want)
  {
    var f := FirstSpace(cs, k);
    var c := at + 1 - f;
    assert Room(cs, f, 0) == 0;
    assert Room(cs, f, c) >= Space(cs[at]);
    assert Offers(cs, k, c, want);
  }

  /** Adds an empty chain after all the others, for what they lack. */
  method AddEmpty(buf: Evbuffer, datlen: nat, n: nat, used: nat, avail: nat, ghost others: set<Addr>) returns (ok: bool)
    requires buf.Valid() && Addrs(buf.chains) !! others && buf.Lwd() < |buf.chains| && used < n && avail < datlen
    requires FirstSpace(buf.chains, buf.Lwd()) + used == |buf.chains|
    requires avail == Room(buf.chains, FirstSpace(buf.chains, buf.Lwd()), used)
    requires Offers(buf.chains, buf.Lwd(), used, avail)
    modifies buf`chains, buf`last
    ensures buf.Valid() && buf.Bytes() == old(buf.Bytes()) && Addrs(buf.chains) !! others
    ensures old(buf.GapFree()) ==> buf.GapFree()
    ensures ok ==> Ready(buf.chains, buf.Lwd(), n, datlen)
    ensures datlen <= CHAIN_MAX - CHAIN_SIZE ==> ok
  {
    hide Good, Flatten, NoGap, Pos, Chain.Data, Addrs, Spine;
    var tmp: Chain;
    ok, tmp := NewChain(datlen - avail, Addrs(buf.chains) + others);
    if !ok {
      return;
    }
    SnocGood(buf.chains, buf.lastWithDatap, buf.last, buf.totalLen, tmp);
    ghost var f, cs := FirstSpace(buf.chains, buf.Lwd()), buf.chains;
    buf.chains := buf.chains + [tmp];
    buf.last := tmp.addr;
    RoomSame(cs, buf.chains, f, used);
    assert buf.Lwd() < |cs| && FirstSpace(buf.chains, buf.Lwd()) == f;
    assert Room(buf.chains, f, used + 1) >= datlen;
    assert Offers(buf.chains, buf.Lwd(), used + 1, datlen);
  }

  /** Replaces every empty chain by one new chain, large enough together with the last chain with data. */
  method ReplaceEmpties(buf: Evbuffer, datlen: nat, n: nat, ghost others: set<Addr>) returns (ok: bool)
    requires buf.Valid() && Addrs(buf.chains) !! others && buf.Lwd() < |buf.chains| && n >= 2
    requires buf.chains[buf.Lwd()].off > 0 ==> Space(buf.chains[buf.Lwd()]) <= datlen
    modifies buf`chains, buf`last, buf`lastWithDatap, buf`totalLen
    ensures buf.Valid() && buf.Bytes() == old(buf.Bytes()) && Addrs(buf.chains) !! others
    ensures old(buf.GapFree()) ==> buf.GapFree()
    ensures ok ==> Ready(buf.chains, buf.Lwd(), n, datlen)
    ensures datlen <= CHAIN_MAX - CHAIN_SIZE ==> ok
  {
    hide Good, Flatten, NoGap, Pos, Chain.Data, Addrs, Spine, LastAddr;
    ghost var cs, lp, total := buf.chains, buf.lastWithDatap, buf.totalLen;
    var k := buf.Lwd();
    var rmvAll := buf.chains[k].off == 0;
    var avail := if rmvAll then 0 else Space(buf.chains[k]);
    KeepGood(cs, lp, buf.last, total);
    PosZero(cs, lp);
    var kept := if rmvAll then [] else buf.chains[..k + 1];
    var tmp: Chain;
    ok, tmp := NewChain(datlen - avail, Addrs(buf.chains) + others);
    if !ok {
      NoAddrs();
      buf.chains := kept;
      buf.last := if rmvAll then null else kept[k].addr;
      return;
    }
    EmptyData(tmp);
    InsertGood(cs, lp, buf.last, total, tmp, lp);
    InsertNoGap(cs, lp, buf.last, total, tmp);
    JoinAddrs(cs, k, [tmp]);
    AddrsOne(tmp);
    buf.chains := kept + [tmp];
    buf.last := tmp.addr;
    assert buf.chains == Joined(cs, k, [tmp]);
    ghost var at := |buf.chains| - 1;
    ghost var f := FirstSpace(buf.chains, k);
    assert Room(buf.chains, f, 0) == 0;
    assert k < at ==> Room(buf.chains, k, 1) == Space(cs[k]);
    assert Room(buf.chains, f, at + 1 - f) >= datlen;
    assert Offers(buf.chains, k, at + 1 - f, datlen);
  }

  /** Dropping the trailing empty chains leaves a good list. */
  lemma KeepGood(cs: seq<Chain>, lp: Link, last: Addr?, total: nat)
    requires Good(cs, lp, last, total) && Pos(cs, lp) < |cs|
    ensures cs[Pos(cs, lp)].off == 0 ==> Pos(cs, lp) == 0
    ensures var kept := if cs[Pos(cs, lp)].off == 0 then [] else cs[..Pos(cs, lp) + 1];
      && Good(kept, lp, if kept == [] then null else kept[|kept| - 1].addr, total)
      && Flatten(kept) == Flatten(cs) && (NoGap(cs) ==> NoGap(kept)) && Addrs(kept) <= Addrs(cs)
  {
    hide Flatten;
    var k := Pos(cs, lp);
    KeepFlatten(cs, k);
    var kept := cs[..Keep(cs, k)];
    PosStays(cs, lp, kept);
    assert kept == if cs[k].off == 0 then [] else cs[..k + 1];
  }

  /** evbuffer_expand_fast_: room for `datlen` bytes in at most n chains, without copying any data. */
  method ExpandFast(buf: Evbuffer, datlen: nat, n: nat, ghost others: set<Addr> := {}) returns (ok: bool)
    requires buf.Valid() && Addrs(buf.chains) !! others && n >= 2
    modifies buf`chains, buf`last, buf`lastWithDatap, buf`totalLen
    ensures buf.Valid() && buf.Bytes() == old(buf.Bytes()) && Addrs(buf.chains) !! others
    ensures old(buf.GapFree()) ==> buf.GapFree()
    ensures ok ==> Ready(buf.chains, buf.Lwd(), n, datlen)
    ensures datlen <= CHAIN_MAX - CHAIN_SIZE ==> ok
  {
    hide Good, Flatten, NoGap, Pos, Chain.Data, Addrs, Spine, Joined;
    LwdFacts(buf);
    ValidChains(buf);
    if |buf.chains| == 0 {
      var at;
      ok, at := InsertNew(buf, datlen, others);
      if ok {
        LwdFacts(buf);
        RoomIsReady(buf.chains, buf.Lwd(), at, n, datlen);
      }
      return;
    }
    var i, used, avail := CountRoom(buf, datlen, n);
    if avail >= datlen {
      assert Offers(buf.chains, buf.Lwd(), used, datlen);
      return true;
    }
    SpaceInRoom(buf.chains, buf.Lwd(), used);
    if used < n {
      ok := AddEmpty(buf, datlen, n, used, avail, others);
    } else {
      ok := ReplaceEmpties(buf, datlen, n, others);
    }
  }

  // ----- the vectors -----

  ghost function Sum(lens: seq<nat>): nat {
    if lens == [] then 0 else Sum(lens[..|lens| - 1]) + lens[|lens| - 1]
  }

  /** Each vector is the spare space of its chain; only the last may be cut short. */
  ghost predicate Vectors(cs: seq<Chain>, f: nat, lens: seq<nat>) {
    && f + |lens| <= |cs|
    && (forall t :: 0 <= t < |lens| ==> lens[t] <= Space(cs[f + t]))
    && (forall t :: 0 <= t < |lens| - 1 ==> lens[t] == Space(cs[f + t]))
  }

  lemma {:induction false} RoomGrows(cs: seq<Chain>, f: nat, a: nat, b: nat)
    requires a <= b && f + b <= |cs|
    ensures Room(cs, f, a) <= Room(cs, f, b)
  {
    if a < b {
      RoomGrows(cs, f, a, b - 1);
    }
  }

  /** evbuffer_read_setup_vecs_: stays on the list and offers `howmuch` bytes, no more when `exact`. */
  method ReadSetupVecs(cs: seq<Chain>, k: nat, howmuch: nat, n: nat, exact: bool) returns (f: nat, lens: seq<nat>)
    requires Ready(cs, k, n, howmuch)
    ensures f == FirstSpace(cs, k) && |lens| <= n && Vectors(cs, f, lens)
    ensures Sum(lens) >= howmuch && (exact ==> Sum(lens) == howmuch)
    ensures (forall i :: f <= i < f + |lens| ==> Space(cs[i]) > 0) && (f > k ==> cs[k].off > 0)
  {
    hide Offers, Room, Sum, Vectors, FirstSpace;
    f := FirstSpace(cs, k);
    lens := [];
    var soFar := 0;
    ghost var c :| 0 <= c <= n && Offers(cs, k, c, howmuch);
    OffersFacts(cs, k, c, howmuch);
    NoVectors(cs, f);
    while |lens| < n && soFar < howmuch
      invariant |lens| <= c && Vectors(cs, f, lens) && soFar == Sum(lens)
      invariant soFar == Room(cs, f, |lens|) || soFar == howmuch
      invariant exact ==> soFar <= howmuch
      invariant |lens| > 0 && soFar < howmuch ==> lens[|lens| - 1] == Space(cs[f + |lens| - 1])
      decreases n - |lens|
    {
      RoomGrows(cs, f, |lens|, c);
      assert |lens| < c;
      var avail := Space(cs[f + |lens|]);
      if avail > howmuch - soFar && exact {
        avail := howmuch - soFar;
      }
      OneMoreVector(cs, f, lens, avail);
      lens, soFar := lens + [avail], soFar + avail;
    }
    RoomGrows(cs, f, |lens|, c);
  }

  lemma OffersFacts(cs: seq<Chain>, k: nat, c: nat, want: nat)
    requires k < |cs| && Offers(cs, k, c, want)
    ensures var f := FirstSpace(cs, k);
      && f + c <= |cs| && Room(cs, f, c) >= want && (forall i :: f <= i < f + c ==>
        Space(cs[i]) > 0) && (f > k ==> cs[k].off > 0)
  {
  }

  lemma NoVectors(cs: seq<Chain>, f: nat)
    requires f <= |cs|
    ensures Vectors(cs, f, []) && Sum([]) == 0 == Room(cs, f, 0)
  {
  }

  lemma OneMoreVector(cs: seq<Chain>, f: nat, lens: seq<nat>, avail: nat)
    requires Vectors(cs, f, lens) && f + |lens| < |cs| && avail <= Space(cs[f + |lens|])
    requires |lens| > 0 ==> lens[|lens| - 1] == Space(cs[f + |lens| - 1])
    ensures Vectors(cs, f, lens + [avail]) && Sum(lens + [avail]) == Sum(lens) + avail
    ensures Room(cs, f, |lens| + 1) == Room(cs, f, |lens|) + Space(cs[f + |lens|])
  {
    assert (lens + [avail])[..|lens|] == lens;
  }

  /** The spare bytes of a chain. */
  function Spare(c: Chain): seq<byte> {
    if c.misalign + c.off <= |c.buffer| then c.buffer[c.misalign + c.off..] else []
  }

  /** What one vector gets out of the bytes that arrive, in order. */
  ghost function Piece(lens: seq<nat>, data: seq<byte>, t: nat): seq<byte>
    requires t < |lens|
  {
    var lo := Sum(lens[..t]);
    if |data| <= lo then [] else if lo + lens[t] < |data| then data[lo..lo + lens[t]] else data[lo..]
  }

  lemma SumEmpty(lens: seq<nat>)
    ensures Sum(lens[..0]) == 0 && Sum(lens[..|lens|]) == Sum(lens)
  {
    assert lens[..|lens|] == lens;
  }

  lemma SumSnoc(lens: seq<nat>, t: nat)
    requires t < |lens|
    ensures Sum(lens[..t + 1]) == Sum(lens[..t]) + lens[t]
  {
    assert lens[..t + 1][..t] == lens[..t];
  }

  lemma PieceIs(lens: seq<nat>, data: seq<byte>, t: nat)
    requires t < |lens|
    ensures var lo := Sum(lens[..t]);
      Piece(lens, data, t) ==
        if |data| <= lo then [] else if lo + lens[t] < |data| then data[lo..lo + lens[t]] else data[lo..]
    ensures |Piece(lens, data, t)| <= lens[t]
  {
  }

  /** A chain as the kernel leaves it: `piece` written at the start of its spare space. */
  function Written(c: Chain, piece: seq<byte>): (r: Chain)
    requires c.Ok() && |piece| <= Space(c)
    ensures r.Ok() && r.Data() == c.Data() && r.addr == c.addr && r.misalign == c.misalign && r.off == c.off
    ensures |r.buffer| == |c.buffer| && piece <= Spare(r)
  {
    var b := Patch(c.buffer, c.misalign + c.off, piece);
    assert b[..c.misalign + c.off] == c.buffer[..c.misalign + c.off];
    assert b[c.misalign..c.misalign + c.off] == b[..c.misalign + c.off][c.misalign..];
    assert b[c.misalign + c.off..][..|piece|] == b[c.misalign + c.off..c.misalign + c.off + |piece|];
    c.(buffer := b)
  }

  /** The vectors hold the bytes that arrived. */
  ghost predicate Filled(cs: seq<Chain>, f: nat, lens: seq<nat>, data: seq<byte>) {
    && f + |lens| <= |cs|
    && forall t :: 0 <= t < |lens| ==> Piece(lens, data, t) <= Spare(cs[f + t])
  }

  /** readv: the kernel fills the vectors in order with `data`. */
  method Readv(cs: seq<Chain>, f: nat, lens: seq<nat>, data: seq<byte>) returns (out: seq<Chain>)
    requires Spine(cs) && Vectors(cs, f, lens) && |data| <= Sum(lens)
    ensures |out| == |cs| && Filled(out, f, lens, data)
    ensures forall i :: 0 <= i < |cs| ==> SameBut(cs[i], out[i])
  {
    hide Chain.Data, Written, Patch, Spare, Sum, Piece;
    out := cs;
    var t, lo: nat := 0, 0;
    SumEmpty(lens);
    while t < |lens|
      invariant 0 <= t <= |lens| && |out| == |cs| && lo == Sum(lens[..t])
      invariant forall i :: 0 <= i < |cs| ==> SameBut(cs[i], out[i])
      invariant forall u :: 0 <= u < t ==> Piece(lens, data, u) <= Spare(out[f + u])
    {
      var piece := if |data| <= lo then [] else if lo + lens[t] < |data| then data[lo..lo + lens[t]] else data[lo..];
      PieceIs(lens, data, t);
      SumSnoc(lens, t);
      out := out[f + t := Written(out[f + t], piece)];
      t, lo := t + 1, lo + lens[t];
    }
  }

  /** Two chains that differ at most in their spare bytes. */
  ghost predicate SameBut(a: Chain, b: Chain) {
    b.Ok() && b.addr == a.addr && b.misalign == a.misalign && b.off == a.off && b.Data() == a.Data()
    && |b.buffer| == |a.buffer|
  }

  // ----- the commit -----

  /** A chain that counts s of its spare bytes as data. */
  function Committed(c: Chain, s: nat): (r: Chain)
    requires c.Ok() && s <= Space(c)
    ensures r.Ok() && r.addr == c.addr && r.off == c.off + s && s <= |Spare(c)|
    ensures r.Data() == c.Data() + Spare(c)[..s]
  {
    c.(off := c.off + s)
  }

  lemma Regroup(a: seq<byte>, b: seq<byte>, x: seq<byte>, y: seq<byte>)
    requires b == [] || x == []
    ensures (a + x) + (b + y) == (a + b) + (x + y)
  {
  }

  lemma CommitStep(cs: seq<Chain>, cur: seq<Chain>, j: nat, c: Chain, data: seq<byte>, d: nat, s: nat)
    requires j < |cs| == |cur| && d + s <= |data| && Flatten(cur[..j]) == Flatten(cs[..j]) + data[..d]
    requires c.Data() == cs[j].Data() + data[d..d + s] && (d == 0 || cs[j].Data() == [])
    ensures Flatten(cur[j := c][..j + 1]) == Flatten(cs[..j + 1]) + data[..d + s]
  {
    hide Flatten, Chain.Data;
    assert cur[j := c][..j] == cur[..j];
    FlattenSnoc(cur[j := c], j);
    FlattenSnoc(cs, j);
    Regroup(Flatten(cs[..j]), cs[j].Data(), data[..d], data[d..d + s]);
    SliceJoin(data, 0, d, d + s);
    assert data[0..d] == data[..d] && data[0..d + s] == data[..d + s];
  }

  lemma CommitEnd(cs: seq<Chain>, out: seq<Chain>, at: nat, data: seq<byte>)
    requires at < |cs| == |out| && Flatten(out[..at + 1]) == Flatten(cs[..at + 1]) + data
    requires forall i :: at < i < |cs| ==> cs[i].off == 0 && out[i].off == 0
    ensures Flatten(out) == Flatten(cs) + data
  {
    hide Flatten, Chain.Data;
    NothingAfter(cs, at + 1);
    NothingAfter(out, at + 1);
  }

  lemma NothingAfter(cs: seq<Chain>, n: nat)
    requires n <= |cs| && forall i :: n <= i < |cs| ==> cs[i].off == 0
    ensures Flatten(cs) == Flatten(cs[..n])
  {
    hide Flatten, Chain.Data;
    FlattenSplit(cs, n);
    FlattenEmpty(cs[n..]);
  }

  lemma FilledAt(cs: seq<Chain>, f: nat, lens: seq<nat>, data: seq<byte>, t: nat)
    requires Vectors(cs, f, lens) && Filled(cs, f, lens, data) && t < |lens|
    ensures Piece(lens, data, t) <= Spare(cs[f + t]) && lens[t] <= Space(cs[f + t])
    ensures t < |lens| - 1 ==> lens[t] == Space(cs[f + t])
  {
  }

  /** The vector of chain t takes all its space, or all that remains. */
  lemma PieceFits(cs: seq<Chain>, f: nat, lens: seq<nat>, data: seq<byte>, t: nat)
    requires Vectors(cs, f, lens) && Filled(cs, f, lens, data) && t < |lens|
    requires Sum(lens[..t]) < |data| <= Sum(lens)
    ensures var d, space := Sum(lens[..t]), Space(cs[f + t]);
      var s := if space < |data| - d then space else |data| - d;
      && s <= |Spare(cs[f + t])| && Spare(cs[f + t])[..s] == data[d..d + s]
      && (space < |data| - d ==> t + 1 < |lens| && Sum(lens[..t + 1]) == d + s)
  {
    hide Piece, Vectors, Filled, Spare, Sum, Space;
    VectorBound(cs, f, lens);
    FilledAt(cs, f, lens, data, t);
    PieceIs(lens, data, t);
    SumSnoc(lens, t);
    SumEmpty(lens);
  }

  lemma EmptyTail(cs: seq<Chain>, i: nat)
    requires i < |cs| && cs[i].off == 0
    ensures cs[i].Data() == []
  {
  }

  /** The loop of evbuffer_read that accounts for the bytes the kernel wrote. */
  method CommitLoop(cs: seq<Chain>, f: nat, lens: seq<nat>, data: seq<byte>) returns (out: seq<Chain>, at: nat)
    requires Spine(cs) && Vectors(cs, f, lens) && Filled(cs, f, lens, data) && 0 < |data| <= Sum(lens)
    requires forall i :: f < i < |cs| ==> cs[i].off == 0
    ensures |out| == |cs| && f <= at < |out| && at < f + |lens| && out[at].off > 0
    ensures forall i :: 0 <= i < |cs| ==>
      out[i].Ok() && out[i].addr == cs[i].addr && (i < f || i > at ==> out[i] == cs[i])
    ensures forall i :: f <= i <= at ==> out[i].off > 0 || Space(cs[i]) == 0
    ensures Flatten(out) == Flatten(cs) + data
  {
    hide Flatten, Chain.Data, Sum, Spare, Committed, Vectors, Filled, Committing;
    VectorBound(cs, f, lens);
    out := cs;
    var t: nat, remaining: nat := 0, |data|;
    SumEmpty(lens);
    NoneCommitted(cs, f, data);
    while t < |lens|
      invariant t < |lens| && |out| == |cs| && remaining + Sum(lens[..t]) == |data| && remaining > 0
      invariant Committing(cs, out, f, t, data, Sum(lens[..t]))
      decreases |lens| - t
    {
      ghost var d := Sum(lens[..t]);
      PieceFits(cs, f, lens, data, t);
      at := f + t;
      NextChain(cs, out, f, t, data, d);
      var space := Space(out[at]);
      if space < remaining {
        var c := Committed(out[at], space);
        OneMoreCommitted(cs, out, f, t, data, d, c, space);
        out := out[at := c];
        remaining := remaining - space;
      } else {
        var c := Committed(out[at], remaining);
        OneMoreCommitted(cs, out, f, t, data, d, c, remaining);
        out := out[at := c];
        assert data[..d + remaining] == data;
        AllCommitted(cs, out, f, t + 1, data);
        return;
      }
      t := t + 1;
    }
  }

  /** The first t chains from f on, in `out`, count their share of the first d bytes as data. */
  ghost predicate Committing(cs: seq<Chain>, out: seq<Chain>, f: nat, t: nat, data: seq<byte>, d: nat) {
    && |out| == |cs| && f + t <= |cs| && d <= |data| && (t == 0 ==> d == 0)
    && (forall i :: 0 <= i < |cs| ==> cs[i].Ok() && out[i].Ok() && out[i].addr == cs[i].addr)
    && (forall i :: 0 <= i < |cs| && (i < f || i >= f + t) ==> out[i] == cs[i])
    && (forall i :: f < i < |cs| ==> cs[i].off == 0)
    && (forall i :: f <= i < f + t ==> out[i].off > 0 || Space(cs[i]) == 0)
    && Flatten(out[..f + t]) == Flatten(cs[..f + t]) + data[..d]
  }

  lemma NoneCommitted(cs: seq<Chain>, f: nat, data: seq<byte>)
    requires Spine(cs) && f <= |cs| && forall i :: f < i < |cs| ==> cs[i].off == 0
    ensures Committing(cs, cs, f, 0, data, 0)
  {
    assert Flatten(cs[..f]) == Flatten(cs[..f]) + data[..0];
  }

  lemma NextChain(cs: seq<Chain>, out: seq<Chain>, f: nat, t: nat, data: seq<byte>, d: nat)
    requires Committing(cs, out, f, t, data, d) && f + t < |cs|
    ensures out[f + t] == cs[f + t] && cs[f + t].Ok()
  {
  }

  lemma OneMoreCommitted(cs: seq<Chain>, out: seq<Chain>, f: nat, t: nat, data: seq<byte>, d: nat, c: Chain, s: nat)
    requires Committing(cs, out, f, t, data, d) && f + t < |cs| && s <= Space(cs[f + t]) && s <= |Spare(cs[f + t])|
    requires d + s <= |data|
    requires c == Committed(out[f + t], s) && Spare(cs[f + t])[..s] == data[d..d + s]
    requires s > 0 || Space(cs[f + t]) == 0
    ensures Committing(cs, out[f + t := c], f, t + 1, data, d + s) && (s > 0 ==> c.off > 0)
  {
    hide Flatten, Chain.Data, Spare, Committed;
    var j := f + t;
    if t > 0 {
      EmptyTail(cs, j);
    }
    CommitStep(cs, out, j, c, data, d, s);
  }

  lemma AllCommitted(cs: seq<Chain>, out: seq<Chain>, f: nat, t: nat, data: seq<byte>)
    requires t > 0 && Committing(cs, out, f, t, data, |data|)
    ensures forall i :: 0 <= i < |cs| ==>
      out[i].Ok() && out[i].addr == cs[i].addr && (i < f || i >= f + t ==> out[i] == cs[i])
    ensures forall i :: f <= i < f + t ==> out[i].off > 0 || Space(cs[i]) == 0
    ensures Flatten(out) == Flatten(cs) + data
  {
    hide Flatten;
    assert data[..|data|] == data;
    CommitEnd(cs, out, f + t - 1, data);
  }

  lemma VectorBound(cs: seq<Chain>, f: nat, lens: seq<nat>)
    requires Vectors(cs, f, lens)
    ensures f + |lens| <= |cs|
    ensures Sum(lens) > 0 ==> |lens| > 0
  {
  }

  lemma SameAddrs(cs: seq<Chain>, out: seq<Chain>)
    requires Spine(cs) && |out| == |cs| && forall i :: 0 <= i < |cs| ==> out[i].Ok() && out[i].addr == cs[i].addr
    ensures Spine(out) && LastAddr(out) == LastAddr(cs) && Addrs(out) == Addrs(cs)
  {
    forall a | a in Addrs(cs)
      ensures a in Addrs(out)
    {
      var i :| 0 <= i < |cs| && cs[i].addr == a;
      assert out[i].addr == a;
    }
    forall a | a in Addrs(out)
      ensures a in Addrs(cs)
    {
      var i :| 0 <= i < |out| && out[i].addr == a;
      assert cs[i].addr == a;
    }
  }

  /** The list after the bytes that arrived are counted in. */
  lemma ReadGood(cs: seq<Chain>, lp: Link, last: Addr?, total: nat, out: seq<Chain>, f: nat, at: nat, data: seq<byte>)
    requires Good(cs, lp, last, total) && |out| == |cs| && Pos(cs, lp) <= f <= at < |out| && out[at].off > 0
    requires forall i :: 0 <= i < |cs| ==>
      out[i].Ok() && out[i].addr == cs[i].addr && (i < f || i > at ==> out[i].off == cs[i].off)
    requires Flatten(out) == Flatten(cs) + data
    ensures Good(out, LinkAt(out, at), last, total + |data|) && Addrs(out) == Addrs(cs)
  {
    hide Flatten, Addrs;
    SameAddrs(cs, out);
    PosLinkAt(out, at);
  }

  lemma ReadNoGap(cs: seq<Chain>, k: nat, out: seq<Chain>, f: nat, at: nat)
    requires NoGap(cs) && LastWithData(cs, k) && |out| == |cs| && k < |cs| && (f == k || (f == k + 1 && cs[k].off > 0))
    requires f <= at < |out|
    requires forall i :: 0 <= i < |cs| && (i < f || i > at) ==> out[i].off == cs[i].off
    requires forall i :: f <= i <= at ==> out[i].off > 0
    ensures NoGap(out)
  {
  }

  /** How much evbuffer_read asks for, given what the socket says is there. */
  function ReadLimit(howmuch: int, ready: int): (limit: nat)
    ensures limit <= MAX_READ && (0 <= howmuch ==> limit <= howmuch) && (0 < ready <= MAX_READ ==> limit <= ready)
    ensures howmuch < 0 || limit < howmuch ==> limit == if 0 < ready <= MAX_READ then ready else MAX_READ
  {
    var n := if ready <= 0 || ready > MAX_READ then MAX_READ else ready;
    if howmuch < 0 || howmuch > n then n else howmuch
  }

  /** evbuffer_read: `input` is what readv delivers, None when it fails; it never exceeds what was asked. */
  method Read(buf: Evbuffer, howmuch: int, ready: int, input: Option<seq<byte>>, ghost others: set<Addr> := {})
      returns (result: int)
    requires Addrs(buf.chains) !! others
    requires buf.Valid() && (input.Some? ==> |input.value| <= ReadLimit(howmuch, ready))
    modifies buf
    ensures buf.Valid() && (old(buf.GapFree()) ==> buf.GapFree())
    ensures buf.freezeStart == old(buf.freezeStart) && buf.freezeEnd == old(buf.freezeEnd)
    ensures result == if buf.freezeEnd || input == None then -1 else |input.value|
    ensures (0 <= howmuch ==> result <= howmuch) && (0 < ready <= MAX_READ ==> result <= ready)
    ensures buf.Bytes() == old(buf.Bytes()) + if result > 0 then input.value else []
    ensures buf.Noted() == if result > 0 then old(buf.Notes(|input.value|, 0)) else old(buf.Noted())
    ensures Addrs(buf.chains) !! others
  {
    hide Good, Flatten, NoGap, Pos, Chain.Data, Addrs, Spine, Ready, Vectors, Filled, Sum, Tell, Evbuffer.Accounted;
    buf.ValidLength();
    if input.Some? {
      CountThenTell(buf.Noted(), buf.hasCallbacks, buf.deferredCbs, buf.totalLen, |input.value|, 0);
    }
    if buf.freezeEnd {
      return -1;
    }
    var limit := ReadLimit(howmuch, ready);
    var ok := ExpandFast(buf, limit, NUM_READ_IOVEC, others);
    if input == None {
      return -1;
    }
    if |input.value| == 0 {
      return 0;
    }
    Receive(buf, limit, input.value);
    buf.ValidLength();
    buf.RunCallbacks(false);
    result := |input.value|;
  }

  /** Sets up the vectors, lets the kernel fill them, and commits what it wrote. */
  method Receive(buf: Evbuffer, limit: nat, data: seq<byte>)
    requires buf.Valid() && Ready(buf.chains, buf.Lwd(), NUM_READ_IOVEC, limit) && 0 < |data| <= limit
    modifies buf`chains, buf`lastWithDatap, buf`totalLen, buf`nAddForCb
    ensures buf.Valid() && (old(buf.GapFree()) ==> buf.GapFree())
    ensures buf.Bytes() == old(buf.Bytes()) + data && Addrs(buf.chains) == old(Addrs(buf.chains))
    ensures buf.Noted() == old(buf.Noted()).Put(|data|)
  {
    hide Good, Flatten, NoGap, Pos, Chain.Data, Addrs, Spine, Ready, Vectors, Filled, Sum, LastWithData;
    ValidChains(buf);
    LwdFacts(buf);
    ghost var lp, last, total := buf.lastWithDatap, buf.last, buf.totalLen;
    var cs, k := buf.chains, buf.Lwd();
    var f, lens := ReadSetupVecs(cs, k, limit, NUM_READ_IOVEC, true);
    var filled := Readv(cs, f, lens, data);
    FilledFacts(cs, filled, f, lens, data);
    var out, at := CommitLoop(filled, f, lens, data);
    FirstSpaceIs(cs, k);
    ReadGood(cs, lp, last, total, out, f, at, data);
    GoodLast(cs, lp, last, total);
    if NoGap(cs) {
      ReadNoGap(cs, k, out, f, at);
    }
    buf.chains := out;
    buf.lastWithDatap := LinkAt(out, at);
    buf.totalLen := buf.totalLen + |data|;
    buf.nAddForCb := buf.nAddForCb + |data|;
  }

  lemma FirstSpaceIs(cs: seq<Chain>, k: nat)
    requires k < |cs|
    ensures FirstSpace(cs, k) == k || FirstSpace(cs, k) == k + 1
  {
  }

  lemma GoodLast(cs: seq<Chain>, lp: Link, last: Addr?, total: nat)
    requires Good(cs, lp, last, total)
    ensures LastWithData(cs, Pos(cs, lp))
  {
  }

  /** Writing into spare space changes no byte of the buffer and no vector. */
  lemma FilledFacts(cs: seq<Chain>, out: seq<Chain>, f: nat, lens: seq<nat>, data: seq<byte>)
    requires Spine(cs) && Vectors(cs, f, lens) && |out| == |cs| && forall i :: 0 <= i < |cs| ==> SameBut(cs[i], out[i])
    ensures Spine(out) && Vectors(out, f, lens) && Flatten(out) == Flatten(cs)
    ensures forall i :: 0 <= i < |cs| ==> Space(out[i]) == Space(cs[i])
  {
    hide Flatten, Chain.Data;
    SameFlatten(cs, out);
  }

  lemma {:induction false} SameFlatten(cs: seq<Chain>, out: seq<Chain>)
    requires |out| == |cs| && forall i :: 0 <= i < |cs| ==> out[i].Data() == cs[i].Data()
    ensures Flatten(out) == Flatten(cs)
  {
    hide Chain.Data;
    if cs != [] {
      SameFlatten(cs[1..], out[1..]);
    }
  }
}
