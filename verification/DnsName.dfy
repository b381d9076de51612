/** Domain names on the wire, with compression (evdns.c; section 4.1.4 of RFC 1035). */
module DnsName {
  import opened ByteSeq
  import opened Common

  const DOT: byte := 46
  const MAX_LABELS: nat := 128
  const MAX_LABEL_LEN: nat := 63
  const MAX_NAME_LEN: nat := 255
  /** A compression pointer has fourteen bits. */
  const JUMP_LIMIT: nat := 0x4000

  // ----- names -----

  /** strchr(name, '.'): the length of the first label. */
  function FirstLabel(name: seq<byte>): (n: nat)
    ensures n <= |name| && (n < |name| ==> name[n] == DOT)
    ensures forall i :: 0 <= i < n ==> name[i] != DOT
  {
    if name == [] || name[0] == DOT then 0 else 1 + FirstLabel(name[1..])
  }

  /** One or more labels of 1 to 63 bytes, none of them NUL, separated by dots. */
  predicate GoodLabels(name: seq<byte>) {
    var n := FirstLabel(name);
    && 1 <= n <= MAX_LABEL_LEN
    && (forall i :: 0 <= i < n ==> name[i] != 0)
    && (n < |name| ==> GoodLabels(name[n + 1..]))
  }

  predicate ValidName(name: seq<byte>) {
    GoodLabels(name) && |name| <= MAX_NAME_LEN
  }

  // ----- what a position in a packet spells -----

  /** Where a pointer byte pair leads. */
  function Target(hi: byte, lo: byte): nat {
    (hi % 64) * 256 + lo
  }

  /** APPEND16(ref | 0xc000). */
  function PointerTo(pos: nat): (r: (byte, byte)) {
    var x := 0xc000 + pos % 0x4000;
    (x / 256, x % 256)
  }

  /** Fourteen bits are enough just for the positions below 16384. */
  lemma PointerExact(pos: nat)
    ensures Target(PointerTo(pos).0, PointerTo(pos).1) == pos <==> pos < JUMP_LIMIT
    ensures PointerTo(pos).0 >= 0xc0
  {
  }

  /** Bytes from p on spell `name`; every pointer on the way leads below `lim`, and each one lower than the last. */
  ghost predicate Spells(b: seq<byte>, p: nat, name: seq<byte>, lim: nat)
    decreases lim, |name|, 1
  {
    || SpellsHere(b, p, name, lim)
    || (p + 1 < |b| && b[p] >= 0xc0 && Target(b[p], b[p + 1]) < lim
        && SpellsHere(b, Target(b[p], b[p + 1]), name, Target(b[p], b[p + 1])))
  }

  /** The same, with the first label written out at p. */
  ghost predicate SpellsHere(b: seq<byte>, p: nat, name: seq<byte>, lim: nat)
    decreases lim, |name|, 0
  {
    var n := FirstLabel(name);
    && 1 <= n <= MAX_LABEL_LEN && p + 1 + n < |b|
    && b[p] == n && b[p + 1..p + 1 + n] == name[..n]
    && (if n == |name| then b[p + 1 + n] == 0 else Spells(b, p + 1 + n, name[n + 1..], lim))
  }

  /** The index after the name that starts at p: past its zero, or past its first pointer. */
  function EndOf(b: seq<byte>, p: nat): nat
    decreases if p < |b| then |b| - p else 0
  {
    if p >= |b| then p
    else if b[p] == 0 then p + 1
    else if b[p] >= 64 then p + 2
    else EndOf(b, p + 1 + b[p])
  }

  // ----- name_parse -----

  /** The loop of name_parse from index j: `out` is the name so far, `ptrs` the jumps made,
      `end` the index after the first pointer, `cap` the size of the output buffer. */
  function ParseFrom(b: seq<byte>, j: nat, out: seq<byte>, ptrs: nat, end: Option<nat>, cap: nat): Option<(seq<byte>,
                     nat)>
    requires ptrs <= |b|
    decreases |b| - ptrs, if j < |b| then |b| - j else 0
  {
    if j >= |b| then None
    else if b[j] == 0 then
      if |out| >= cap then None else Some((out, if end.Some? then end.value else j + 1))
    else if b[j] >= 64 then
      if j + 1 >= |b| then None
      else
        var target := Target(b[j], b[j + 1]);
        if target >= |b| || ptrs + 1 > |b| then None
        else ParseFrom(b, target, out, ptrs + 1, if end.Some? then end else Some(j + 2), cap)
    else
      var n := b[j] as int;
      if out != [] && |out| + 1 >= cap then None
      else
        var dotted := if out != [] then out + [DOT] else out;
        if |dotted| + n >= cap || j + 1 + n > |b| then None
        else ParseFrom(b, j + 1 + n, dotted + b[j + 1..j + 1 + n], ptrs, end, cap)
  }

  /** Whatever the packet: a name that is returned fits the output with its NUL, and the index returned is
      past the first zero or pointer, inside the packet. */
  lemma {:induction false} ParseEnds(b: seq<byte>, j: nat, out: seq<byte>, ptrs: nat, end: Option<nat>, cap: nat)
    requires ptrs <= |b|
    ensures var r := ParseFrom(b, j, out, ptrs, end, cap);
            r.Some? ==>
              && |r.value.0| < cap && out <= r.value.0
              && (if end.Some? then r.value.1 == end.value else r.value.1 == EndOf(b, j) && j < r.value.1 <= |b|)
    decreases |b| - ptrs, if j < |b| then |b| - j else 0
  {
    var r := ParseFrom(b, j, out, ptrs, end, cap);
    if r.Some? && b[j] != 0 {
      if b[j] >= 64 {
        ParseEnds(b, Target(b[j], b[j + 1]), out, ptrs + 1, if end.Some? then end else Some(j + 2), cap);
      } else {
        var n := b[j] as int;
        var dotted := if out != [] then out + [DOT] else out;
        ParseEnds(b, j + 1 + n, dotted + b[j + 1..j + 1 + n], ptrs, end, cap);
      }
    }
  }

  /** name_parse. */
  method NameParse(packet: seq<byte>, idx: nat, cap: nat) returns (r: Option<(seq<byte>, nat)>)
    ensures r == ParseFrom(packet, idx, [], 0, None, cap)
    ensures r.Some? ==> |r.value.0| < cap && r.value.1 == EndOf(packet, idx) && idx < r.value.1 <= |packet|
  {
    ParseEnds(packet, idx, [], 0, None, cap);
    var end: Option<nat> := None;
    var j, ptrs: nat, out: seq<byte> := idx, 0, [];
    while true
      invariant ptrs <= |packet| && j >= 0
      invariant ParseFrom(packet, idx, [], 0, None, cap) == ParseFrom(packet, j, out, ptrs, end, cap)
      decreases |packet| - ptrs, if j < |packet| then |packet| - j else 0
    {
      if j >= |packet| {
        return None;
      }
      var len := packet[j];
      j := j + 1;
      if len == 0 {
        break;
      }
      if len >= 64 {
        if j >= |packet| {
          return None;
        }
        var low := packet[j];
        j := j + 1;
        if end == None {
          end := Some(j);
        }
        j := Target(len, low);
        if j >= |packet| {
          return None;
        }
        ptrs := ptrs + 1;
        if ptrs > |packet| {
          return None;
        }
        continue;
      }
      if |out| != 0 {
        if |out| + 1 >= cap {
          return None;
        }
        out := out + [DOT];
      }
      if |out| + len >= cap {
        return None;
      }
      if j + len > |packet| {
        return None;
      }
      out := out + packet[j..j + len];
      j := j + len;
    }
    if |out| >= cap {
      return None;
    }
    r := Some((out, if end.Some? then end.value else j));
  }
}
