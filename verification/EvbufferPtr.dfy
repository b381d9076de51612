/** Positions in an evbuffer, and the operations that read from one (buffer.c). */
module EvbufferPtrs {
  import opened ByteSeq
  import opened Chains
  import opened Common
  import opened Evbuffers

  /** struct evbuffer_ptr: a byte position, with the chain and the offset in it that it stands for. */
  datatype Ptr = Ptr(pos: int, chain: Addr?, posInChain: nat)

  const NOT_FOUND: Ptr := Ptr(-1, null, 0)

  /** The position of the chain at an address; a null pointer is past the last chain. */
  function At(cs: seq<Chain>, a: Addr?): (i: nat)
    ensures i <= |cs|
  {
    if a == null then |cs| else IndexOf(cs, a)
  }

  function AddrAt(cs: seq<Chain>, i: nat): Addr?
    requires i <= |cs|
  {
    if i < |cs| then cs[i].addr else null
  }

  lemma AtAddrAt(cs: seq<Chain>, i: nat)
    requires Spine(cs) && i <= |cs|
    ensures At(cs, AddrAt(cs, i)) == i
  {
  }

  /** How many bytes stand before chain i. */
  ghost function Before(cs: seq<Chain>, i: nat): nat
    requires i <= |cs|
  {
    |Flatten(cs[..i])|
  }

  /** `pos` is byte q of chain i, or the end of the list; q may be the length of the chain. */
  ghost predicate Cursor(cs: seq<Chain>, i: nat, q: nat, pos: int) {
    && i <= |cs|
    && pos == Before(cs, i) + q
    && (if i < |cs| then q <= cs[i].off else q == 0)
  }

  /** The chain and offset of a pointer agree with its position, and the offset is inside the chain. */
  ghost predicate PtrOk(cs: seq<Chain>, p: Ptr) {
    var i := At(cs, p.chain);
    && Cursor(cs, i, p.posInChain, p.pos)
    && (p.chain == null <==> i == |cs|)
    && (i < |cs| ==> p.posInChain < cs[i].off)
  }

  lemma BeforeEnds(cs: seq<Chain>)
    ensures Before(cs, 0) == 0 && Before(cs, |cs|) == |Flatten(cs)|
  {
    assert cs[..|cs|] == cs;
  }

  lemma BeforeNext(cs: seq<Chain>, i: nat)
    requires i < |cs| && cs[i].Ok()
    ensures Before(cs, i + 1) == Before(cs, i) + cs[i].off <= |Flatten(cs)|
  {
    hide Flatten, Chain.Data;
    FlattenSnoc(cs, i);
    FlattenSplit(cs, i + 1);
  }

  /** Bytes q to q + n of chain i are bytes of the whole buffer. */
  lemma SliceOf(cs: seq<Chain>, i: nat, q: nat, n: nat)
    requires i < |cs| && cs[i].Ok() && q + n <= cs[i].off
    ensures Before(cs, i) + q + n <= |Flatten(cs)|
    ensures Flatten(cs)[Before(cs, i) + q..Before(cs, i) + q + n] == cs[i].Data()[q..q + n]
  {
    hide Flatten, Chain.Data;
    FlattenAt(cs, i);
    Middle(Flatten(cs[..i]), cs[i].Data(), Flatten(cs[i + 1..]), q, n);
  }

  lemma Middle(a: seq<byte>, b: seq<byte>, c: seq<byte>, q: nat, n: nat)
    requires q + n <= |b|
    ensures (a + b + c)[|a| + q..|a| + q + n] == b[q..q + n]
  {
  }

  lemma SliceJoin(s: seq<byte>, a: nat, b: nat, c: nat)
    requires a <= b <= c <= |s|
    ensures s[a..b] + s[b..c] == s[a..c]
  {
  }

  /** The well-formedness of a buffer, chain by chain. */
  lemma ValidChains(buf: Evbuffer)
    requires buf.Valid()
    ensures Spine(buf.chains) && buf.totalLen == |buf.Bytes()|
    ensures forall i :: 0 <= i < |buf.chains| ==> buf.chains[i].Ok()
  {
    hide Flatten;
  }

  lemma CursorBound(cs: seq<Chain>, i: nat, q: nat, pos: int)
    requires Cursor(cs, i, q, pos) && Spine(cs)
    ensures 0 <= pos <= |Flatten(cs)|
  {
    hide Flatten, Chain.Data;
    if i < |cs| {
      BeforeNext(cs, i);
    } else {
      BeforeEnds(cs);
    }
  }

  /** One round of the copying loop: the rest of chain i. */
  lemma CopyStep(cs: seq<Chain>, i: nat, q: nat, p: nat, n: nat, m: nat)
    requires i < |cs| && cs[i].Ok() && q + m <= cs[i].off && Before(cs, i) + q == p + n
    ensures p + n + m <= |Flatten(cs)|
    ensures Flatten(cs)[p..p + n] + cs[i].Data()[q..q + m] == Flatten(cs)[p..p + n + m]
  {
    hide Flatten, Chain.Data, Before;
    SliceOf(cs, i, q, m);
    SliceJoin(Flatten(cs), p, p + n, p + n + m);
  }

  /** The copying loop of evbuffer_copyout_from, from byte q of chain i. */
  method CopyBytes(cs: seq<Chain>, start: nat, startq: nat, ghost p: nat, want: nat) returns (data: seq<byte>)
    requires Spine(cs) && Cursor(cs, start, startq, p) && p + want <= |Flatten(cs)|
    ensures data == Flatten(cs)[p..p + want]
  {
    hide Flatten, Chain.Data, Before;
    BeforeEnds(cs);
    data := [];
    var i: nat, q: nat, left: nat := start, startq, want;
    while left > 0 && left >= cs[i].off - q
      invariant 0 <= left && |data| + left == want
      invariant Cursor(cs, i, q, p + |data|)
      invariant left > 0 ==> i < |cs|
      invariant data == Flatten(cs)[p..p + |data|]
      decreases |cs| - i
    {
      CopyStep(cs, i, q, p, |data|, cs[i].off - q);
      BeforeNext(cs, i);
      data := data + cs[i].Data()[q..cs[i].off];
      left := left - (cs[i].off - q);
      i, q := i + 1, 0;
    }
    if left > 0 {
      CopyStep(cs, i, q, p, |data|, left);
      data := data + cs[i].Data()[q..q + left];
    }
  }

  /** evbuffer_copyout_from: copies out up to `datlen` bytes; nothing is drained. */
  method CopyoutFrom(buf: Evbuffer, start: Option<Ptr>, datlen: nat) returns (r: Option<seq<byte>>)
    requires buf.Valid()
    requires start.Some? ==> PtrOk(buf.chains, start.value)
    ensures var p := if start.Some? then start.value.pos else 0;
      var n := if datlen + p > buf.totalLen then buf.totalLen - p else datlen;
      && 0 <= p <= p + n <= |buf.Bytes()|
      && (r == None <==> (start.Some? && datlen > SSIZE_MAX - p) || (n > 0 && buf.freezeStart))
      && (r.Some? ==> r.value == buf.Bytes()[p..p + n])
  {
    hide Flatten, Chain.Data, Before, Good, Spine;
    ValidChains(buf);
    var cs := buf.chains;
    BeforeEnds(cs);
    var i: nat, q: nat, p: int, want := 0, 0, 0, datlen;
    if start.Some? {
      p := start.value.pos;
      i, q := At(cs, start.value.chain), start.value.posInChain;
      CursorBound(cs, i, q, p);
      if datlen > SSIZE_MAX - p {
        return None;
      }
    }
    if want + p > buf.totalLen {
      want := buf.totalLen - p;
    }
    if want == 0 {
      return Some([]);
    }
    if buf.freezeStart {
      return None;
    }
    var data := CopyBytes(cs, i, q, p, want);
    r := Some(data);
  }

  /** evbuffer_remove: copies out and drains. The count is returned as an int. */
  method Remove(buf: Evbuffer, datlen: nat) returns (r: int, data: seq<byte>)
    requires buf.Valid()
    modifies buf
    ensures buf.Valid() && (old(buf.GapFree()) ==> buf.GapFree())
    ensures buf.freezeStart == old(buf.freezeStart) && buf.freezeEnd == old(buf.freezeEnd)
    ensures Addrs(buf.chains) <= old(Addrs(buf.chains))
    ensures data + buf.Bytes() == old(buf.Bytes())
    ensures buf.Noted() == if data == [] then old(buf.Noted()) else old(buf.Notes(0, |data|))
    ensures
      if buf.freezeStart && datlen > 0 && old(buf.Bytes()) != [] then r == -1 && data == []
      else r == AsInt(|data|) && |data| == Min(datlen, |old(buf.Bytes())|)
  {
    hide Flatten, Chain.Data, Before, Good, Spine, Tell;
    ValidChains(buf);
    var out := CopyoutFrom(buf, None, datlen);
    if out == None {
      return -1, [];
    }
    data := out.value;
    if |data| > 0 {
      var ok := buf.Drain(|data|);
      if !ok {
        return -1, [];
      }
    }
    r := AsInt(|data|);
  }

  // ----- moving a pointer -----

  datatype How = PtrSet | PtrAdd

  /** The walking loop of evbuffer_ptr_set, from byte q of chain i. */
  method Walk(cs: seq<Chain>, start: nat, startq: nat, ghost p: nat, far: nat) returns (ok: bool, chain: Addr?, q: nat)
    requires Spine(cs) && Cursor(cs, start, startq, p)
    ensures ok <==> p + far <= |Flatten(cs)|
    ensures ok ==> PtrOk(cs, Ptr(p + far, chain, q))
  {
    hide Flatten, Chain.Data, Before;
    BeforeEnds(cs);
    var i: nat, left: nat := start, far;
    q := startq;
    while i < |cs| && q + left >= cs[i].off
      invariant 0 <= left && Cursor(cs, i, q, p + far - left)
      decreases |cs| - i
    {
      BeforeNext(cs, i);
      left := left - (cs[i].off - q);
      i, q := i + 1, 0;
    }
    AtAddrAt(cs, i);
    if i < |cs| {
      BeforeNext(cs, i);
      ok, chain, q := true, cs[i].addr, q + left;
    } else {
      ok, chain, q := left == 0, null, 0;
    }
  }

  /** evbuffer_ptr_set: the pointer moved to, or by, `position`. A pointer that cannot be added to stays as it is, and
      one that would come to lie past the end is NOT_FOUND. */
  method SetPtr(buf: Evbuffer, ptr: Ptr, position: nat, how: How) returns (ok: bool, r: Ptr)
    requires buf.Valid()
    requires how.PtrAdd? ==> ptr.pos < 0 || PtrOk(buf.chains, ptr)
    ensures var target := if how.PtrSet? then position else ptr.pos + position;
      && (ok <==> 0 <= target <= buf.totalLen && (how.PtrAdd? ==> 0 <= ptr.pos && target <= SIZE_MAX))
      && (ok ==> PtrOk(buf.chains, r) && r.pos == target)
      && (!ok ==> r == if how.PtrAdd? && (ptr.pos < 0 || target > SIZE_MAX) then ptr else NOT_FOUND)
  {
    hide Flatten, Chain.Data, Before, Good, Spine;
    ValidChains(buf);
    BeforeEnds(buf.chains);
    var i: nat, q: nat, target: int := 0, 0, position;
    if how.PtrAdd? {
      if ptr.pos < 0 || SIZE_MAX - position < ptr.pos {
        return false, ptr;
      }
      i, q := At(buf.chains, ptr.chain), ptr.posInChain;
      target := ptr.pos + position;
    }
    var chain;
    ok, chain, q := Walk(buf.chains, i, q, target - position, position);
    r := if ok then Ptr(target, chain, q) else NOT_FOUND;
  }
}
