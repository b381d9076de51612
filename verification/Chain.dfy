/** Chains, the memory blocks of an evbuffer, and lists of them (buffer.c, evbuffer-internal.h). */
module Chains {
  import opened ByteSeq

  const CHAIN_MAX: nat := 0x7FFF_FFFF_FFFF_FFFF
  const CHAIN_SIZE: nat := 48
  const MIN_BUFFER_SIZE: nat := 1024
  const MAX_TO_REALIGN: nat := 2048

  /** The identity of an allocated chain: what a pointer to it holds. */
  class Addr {
    constructor () {}
  }

  /** A block of memory: a gap of `misalign` bytes, `off` bytes of data, then spare space. */
  datatype Chain = Chain(addr: Addr, buffer: seq<byte>, misalign: nat, off: nat) {

    predicate Ok() {
      misalign + off <= |buffer| <= CHAIN_MAX - CHAIN_SIZE && 0 < |buffer|
    }

    function Data(): (d: seq<byte>)
      ensures Ok() ==> |d| == off
    {
      if misalign + off <= |buffer| then buffer[misalign..misalign + off] else []
    }

    /** CHAIN_SPACE_LEN. */
    function SpaceLen(): nat
      requires Ok()
    {
      |buffer| - (misalign + off)
    }

    /** Copies `data` into the spare space. */
    function Append(data: seq<byte>): (c: Chain)
      requires Ok() && |data| <= SpaceLen()
      ensures c.Ok() && c.Data() == Data() + data && c.addr == addr && |c.buffer| == |buffer|
      ensures c.misalign == misalign && c.off == off + |data|
    {
      this.(buffer := Patch(buffer, misalign + off, data), off := off + |data|)
    }

    /** Copies `data` into the end of the leading gap. */
    function Prepend(data: seq<byte>): (c: Chain)
      requires Ok() && |data| <= misalign
      ensures c.Ok() && c.Data() == data + Data() && c.addr == addr && |c.buffer| == |buffer|
    {
      PatchBefore(buffer, misalign - |data|, data, off);
      this.(buffer := Patch(buffer, misalign - |data|, data), off := off + |data|, misalign := misalign - |data|)
    }

    /** evbuffer_chain_align: slides the data to the front of the block. */
    function Align(): (c: Chain)
      requires Ok()
      ensures c.Ok() && c.Data() == Data() && c.misalign == 0 && c.addr == addr
      ensures c.off == off && |c.buffer| == |buffer|
    {
      this.(buffer := Patch(buffer, 0, Data()), misalign := 0)
    }

    /** evbuffer_chain_should_realign. */
    predicate ShouldRealign(datlen: nat)
      requires Ok()
    {
      |buffer| - off >= datlen && off < |buffer| / 2 && off <= MAX_TO_REALIGN
    }

    /** Drops n bytes of data from the front. */
    function TrimFront(n: nat): (c: Chain)
      requires Ok() && n <= off
      ensures c.Ok() && c.Data() == Data()[n..] && c.addr == addr && |c.buffer| == |buffer|
    {
      this.(misalign := misalign + n, off := off - n)
    }
  }

  lemma EmptyData(c: Chain)
    requires c.off == 0
    ensures c.Data() == []
  {
  }

  /** evbuffer_chain_new: rounds the block up to a power of two, and refuses sizes over the limit. */
  method NewChain(size: nat, ghost taken: set<Addr>) returns (ok: bool, chain: Chain)
    ensures ok <==> size <= CHAIN_MAX - CHAIN_SIZE
    ensures ok ==> chain.Ok() && chain.misalign == 0 && chain.off == 0 && size <= |chain.buffer|
    ensures fresh(chain.addr) && chain.addr !in taken
  {
    var addr := new Addr();
    if size > CHAIN_MAX - CHAIN_SIZE {
      return false, Chain(addr, [], 0, 0);
    }
    var need := size + CHAIN_SIZE;
    var toAlloc := need;
    if need < CHAIN_MAX / 2 {
      toAlloc := MIN_BUFFER_SIZE;
      while toAlloc < need
        invariant MIN_BUFFER_SIZE <= toAlloc
        invariant toAlloc < 2 * need || toAlloc == MIN_BUFFER_SIZE
        decreases need - toAlloc
      {
        toAlloc := toAlloc * 2;
      }
    }
    ok, chain := true, Chain(addr, seq(toAlloc - CHAIN_SIZE, _ => 0), 0, 0);
  }

  // ----- lists of chains -----

  /** The byte string that a list of chains spells out. */
  function Flatten(cs: seq<Chain>): seq<byte> {
    if cs == [] then [] else cs[0].Data() + Flatten(cs[1..])
  }

  lemma FlattenTail(a: seq<Chain>, b: seq<Chain>)
    requires a != []
    ensures Flatten(a + b) == a[0].Data() + Flatten(a[1..] + b)
  {
    assert (a + b)[1..] == a[1..] + b;
  }

  lemma {:induction false} FlattenConcat(a: seq<Chain>, b: seq<Chain>)
    ensures Flatten(a + b) == Flatten(a) + Flatten(b)
  {
    if a == [] {
      assert a + b == b;
    } else {
      FlattenConcat(a[1..], b);
      FlattenTail(a, b);
      Assoc(a[0].Data(), Flatten(a[1..]), Flatten(b));
    }
  }

  lemma {:induction false} FlattenSplit(cs: seq<Chain>, i: nat)
    requires i <= |cs|
    ensures Flatten(cs) == Flatten(cs[..i]) + Flatten(cs[i..])
  {
    assert cs == cs[..i] + cs[i..];
    FlattenConcat(cs[..i], cs[i..]);
  }

  lemma FlattenOne(c: Chain)
    ensures Flatten([c]) == c.Data()
  {
  }

  /** A prefix one chain longer. */
  lemma {:induction false} FlattenSnoc(cs: seq<Chain>, i: nat)
    requires i < |cs|
    ensures Flatten(cs[..i + 1]) == Flatten(cs[..i]) + cs[i].Data()
  {
    assert cs[..i + 1] == cs[..i] + [cs[i]];
    FlattenConcat(cs[..i], [cs[i]]);
    FlattenOne(cs[i]);
  }

  /** Isolates chain i. */
  lemma {:induction false} FlattenAt(cs: seq<Chain>, i: nat)
    requires i < |cs|
    ensures Flatten(cs) == Flatten(cs[..i]) + cs[i].Data() + Flatten(cs[i + 1..])
  {
    FlattenSplit(cs, i + 1);
    FlattenSnoc(cs, i);
  }

  /** Replacing one chain replaces its bytes in place. */
  lemma {:induction false} FlattenUpdate(cs: seq<Chain>, i: nat, c: Chain)
    requires i < |cs|
    ensures Flatten(cs[i := c]) == Flatten(cs[..i]) + c.Data() + Flatten(cs[i + 1..])
  {
    FlattenAt(cs[i := c], i);
    assert cs[i := c][..i] == cs[..i];
    assert cs[i := c][i + 1..] == cs[i + 1..];
  }

  lemma {:induction false} FlattenEmpty(cs: seq<Chain>)
    requires forall i :: 0 <= i < |cs| ==> cs[i].off == 0
    ensures Flatten(cs) == []
  {
    if cs != [] {
      FlattenEmpty(cs[1..]);
    }
  }

  /** A list of allocated chains: each well formed, no two at one address. */
  ghost predicate Spine(cs: seq<Chain>) {
    && (forall i :: 0 <= i < |cs| ==> cs[i].Ok())
    && (forall i, j :: 0 <= i < j < |cs| ==> cs[i].addr != cs[j].addr)
  }

  lemma SpineOne(c: Chain)
    requires c.Ok()
    ensures Spine([c])
  {
  }

  ghost function Addrs(cs: seq<Chain>): set<Addr> {
    set i | 0 <= i < |cs| :: cs[i].addr
  }

  lemma AddrsOne(c: Chain)
    ensures Addrs([c]) == {c.addr}
  {
    assert [c][0].addr in Addrs([c]);
  }

  // ----- links -----

  /** A pointer to a pointer to a chain: `&buf->first`, or `&c->next` for the chain at `addr`. */
  datatype Link = First | Next(addr: Addr)

  /** The position of the chain at an address, or the length of the list when it is not there. */
  function IndexOf(cs: seq<Chain>, a: Addr): (i: nat)
    ensures i <= |cs| && (i < |cs| ==> cs[i].addr == a)
    ensures forall j :: 0 <= j < i ==> cs[j].addr != a
  {
    if cs == [] || cs[0].addr == a then 0 else 1 + IndexOf(cs[1..], a)
  }

  /** The position that a link points at; beyond the end of the list when the link dangles. */
  function Pos(cs: seq<Chain>, link: Link): nat {
    if link.First? then 0 else 1 + IndexOf(cs, link.addr)
  }

  /** The link that points at position i. */
  function LinkAt(cs: seq<Chain>, i: nat): Link
    requires i <= |cs|
  {
    if i == 0 then First else Next(cs[i - 1].addr)
  }

  lemma PosLinkAt(cs: seq<Chain>, i: nat)
    requires Spine(cs) && i <= |cs|
    ensures Pos(cs, LinkAt(cs, i)) == i
  {
  }

  /** A link keeps its position in a list that has the same chain there. */
  lemma PosStays(cs: seq<Chain>, lp: Link, out: seq<Chain>)
    requires Spine(out) && Pos(cs, lp) <= |cs| && Pos(cs, lp) <= |out|
    requires Pos(cs, lp) > 0 ==> out[Pos(cs, lp) - 1].addr == cs[Pos(cs, lp) - 1].addr
    ensures Pos(out, lp) == Pos(cs, lp)
  {
    PosLinkAt(out, Pos(cs, lp));
  }

  /** Putting chains in front moves every other position up. */
  lemma PosShift(cs: seq<Chain>, lp: Link, a: seq<Chain>)
    requires Spine(a + cs) && Pos(cs, lp) <= |cs|
    ensures Pos(a + cs, if lp == First then LinkAt(a, |a|) else lp) == |a| + Pos(cs, lp)
  {
    var out, k := a + cs, Pos(cs, lp);
    PosLinkAt(out, |a| + k);
  }

  /** Position k holds the last chain with data; it is 0 when no chain holds any. */
  ghost predicate LastWithData(cs: seq<Chain>, k: nat) {
    && (k == 0 || (k < |cs| && cs[k].off > 0))
    && forall i :: k < i < |cs| ==> cs[i].off == 0
  }

  /** No empty chain stands before a chain with data. */
  ghost predicate NoGap(cs: seq<Chain>) {
    forall i, j :: 0 <= i < j < |cs| && cs[j].off > 0 ==> cs[i].off > 0
  }

  /** What `buf->last` holds. */
  ghost function LastAddr(cs: seq<Chain>): Addr? {
    if cs == [] then null else cs[|cs| - 1].addr
  }

  /** The list, its `last_with_datap`, its `last` and its `total_len` agree. */
  ghost predicate Good(cs: seq<Chain>, lp: Link, last: Addr?, total: nat) {
    Spine(cs) && LastWithData(cs, Pos(cs, lp)) && last == LastAddr(cs) && total == |Flatten(cs)|
  }
}
