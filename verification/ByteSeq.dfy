/** Bytes, and the concatenation of a list of byte strings. */
module ByteSeq {

  type byte = b: int | 0 <= b < 256

  /** memcpy and memmove: the block `dst` after `src` is written from index `at`. */
  function Patch(dst: seq<byte>, at: nat, src: seq<byte>): (r: seq<byte>)
    requires at + |src| <= |dst|
    ensures |r| == |dst| && r[at..at + |src|] == src
    ensures r[..at] == dst[..at] && r[at + |src|..] == dst[at + |src|..]
  {
    dst[..at] + src + dst[at + |src|..]
  }

  lemma Assoc(a: seq<byte>, b: seq<byte>, c: seq<byte>)
    ensures a + (b + c) == a + b + c
  {
  }

  lemma Nothing(s: seq<byte>)
    ensures s + [] == s == [] + s
  {
  }

  lemma SuffixOf(a: seq<byte>, b: seq<byte>, c: seq<byte>, n: nat)
    requires n <= |b|
    ensures (a + b + c)[|a| + n..] == b[n..] + c
  {
  }

  lemma PatchBefore(dst: seq<byte>, at: nat, src: seq<byte>, n: nat)
    requires at + |src| + n <= |dst|
    ensures Patch(dst, at, src)[at..at + |src| + n] == src + dst[at + |src|..at + |src| + n]
  {
  }

  lemma PrependNothing(a: seq<byte>, b: seq<byte>)
    ensures a[|a|..] + b == b && a[0..] == a
  {
  }

  lemma Rejoin(a: seq<byte>, n: nat, b: seq<byte>)
    requires n <= |a|
    ensures a[..n] + (a[n..] + b) == a + b
  {
    assert a[..n] + a[n..] == a;
  }
}
