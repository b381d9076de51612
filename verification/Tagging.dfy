/** Marshalling to and from evbuffers (event_tagging.c). */
module Tagging {
  import opened ByteSeq
  import opened Chains
  import opened Common
  import opened Evbuffers
  import opened EvbufferPtrs
  import opened EvbufferGrow
  import opened TagCodec

  // ----- writing -----

  lemma ZeroNibbles(a: seq<byte>)
    requires forall i :: 0 <= i < |a| ==> a[i] == 0
    ensures forall t :: 0 <= t < 2 * |a| ==> NibbleAt(a, t) == 0
  {
  }

  /** Writing one half of a byte changes one nibble. */
  lemma SetNibble(a: seq<byte>, b: seq<byte>, t: nat, x: nibble)
    requires |a| == |b| && t / 2 < |a|
    requires b == a[t / 2 := if t % 2 == 1 then a[t / 2] / 16 * 16 + x as int else a[t / 2] % 16 + x as int * 16]
    ensures forall u :: 0 <= u < 2 * |a| ==> NibbleAt(b, u) == if u == t then x else NibbleAt(a, u)
  {
    forall u | 0 <= u < 2 * |a|
      ensures NibbleAt(b, u) == if u == t then x else NibbleAt(a, u)
    {
      if u / 2 == t / 2 {
        Halves(a[t / 2], x);
        SameByte(t, u);
      } else {
        assert b[u / 2] == a[u / 2];
      }
    }
  }

  lemma Halves(v: byte, x: nibble)
    ensures var lo, hi := v / 16 * 16 + x as int, v % 16 + x as int * 16;
      lo % 16 == x && lo / 16 == v / 16 && hi / 16 == x && hi % 16 == v % 16
  {
  }

  lemma SameByte(t: nat, u: nat)
    requires u / 2 == t / 2
    ensures u == t || u % 2 != t % 2
  {
  }

  /** Writes one nibble, as the macro does with its masks. */
  method PutNibble(a: array<byte>, t: nat, x: nibble)
    requires t / 2 < a.Length
    modifies a
    ensures forall u :: 0 <= u < 2 * a.Length ==> NibbleAt(a[..], u) == if u == t then x else old(NibbleAt(a[..], u))
  {
    hide NibbleAt;
    ghost var was := a[..];
    if t % 2 == 1 {
      a[t / 2] := a[t / 2] / 16 * 16 + x as int;
    } else {
      a[t / 2] := a[t / 2] % 16 + x as int * 16;
    }
    SetNibble(was, a[..], t, x);
  }

  lemma DigitStep(n: nat)
    requires n > 0
    ensures Digits(n)[0] == n % 16
    ensures if n >= 16 then n / 16 > 0 && Digits(n)[1..] == Digits(n / 16) else n / 16 == 0 && |Digits(n)| == 1
  {
  }

  /** The loop of ENCODE_INT_INTERNAL: the digits of n go to nibbles 1, 2 and so on. */
  method WriteDigits(a: array<byte>, n: nat) returns (off: nat)
    requires 2 * a.Length >= |Digits(n)| + 1 && forall t :: 0 <= t < 2 * a.Length ==> NibbleAt(a[..], t) == 0
    modifies a
    ensures off == if n == 0 then 1 else |Digits(n)| + 1
    ensures forall t :: 1 <= t <= |Digits(n)| ==> NibbleAt(a[..], t) == Digits(n)[t - 1]
    ensures forall t :: |Digits(n)| < t < 2 * a.Length ==> NibbleAt(a[..], t) == 0
  {
    hide NibbleAt, Digits;
    ghost var ds := Digits(n);
    DigitsZero();
    var number: nat := n;
    off := 1;
    while number > 0
      invariant 1 <= off <= |ds| + 1 && (number > 0 ==> off <= |ds| && Digits(number) == ds[off - 1..])
      invariant number == 0 ==> off == if n == 0 then 1 else |ds| + 1
      invariant forall t :: 1 <= t < off ==> NibbleAt(a[..], t) == ds[t - 1]
      invariant forall t :: off <= t < 2 * a.Length ==> NibbleAt(a[..], t) == 0
      decreases number
    {
      DigitStep(number);
      assert number >= 16 ==> ds[off - 1..][1..] == ds[off..];
      PutNibble(a, off, number % 16);
      number := number / 16;
      off := off + 1;
    }
    if n == 0 {
      assert NibbleAt(a[..], 1) == 0 == ds[0];
    }
  }

  /** encode_int_internal and encode_int64_internal: `size` is the width of the integer in bytes. */
  method EncodeIntInternal(n: nat, size: nat) returns (data: seq<byte>)
    requires 0 < size <= 8 && n < Pow16(2 * size)
    ensures |Digits(n)| <= 16 && data == EncInt(n)
  {
    hide NibbleAt, Pack, Digits, EncInt;
    DigitsShort(n, 2 * size);
    DigitsZero();
    var a := new byte[size + 1](_ => 0);
    ZeroNibbles(a[..]);
    var off := WriteDigits(a, n);
    var nibbles := if off > 2 then off - 2 else 0;
    PutNibble(a, 0, nibbles);
    data := a[..(off + 1) / 2];
    EncodedIs(n, a[..], data, nibbles);
  }

  lemma DigitsZero()
    ensures Digits(0) == [0]
  {
  }

  /** Bytes whose nibbles are the count, the digits and zero are the encoding. */
  lemma EncodedIs(n: nat, a: seq<byte>, data: seq<byte>, nibbles: nat)
    requires |Digits(n)| <= 16 && data <= a && |data| == |Digits(n)| / 2 + 1 && nibbles == |Digits(n)| - 1
    requires NibbleAt(a, 0) == nibbles
    requires forall t :: 1 <= t <= |Digits(n)| ==> t / 2 < |a| && NibbleAt(a, t) == Digits(n)[t - 1]
    requires forall t :: |Digits(n)| < t < 2 * |a| ==> NibbleAt(a, t) == 0
    ensures data == EncInt(n)
  {
    var ds := Digits(n);
    var s := [|ds| - 1] + ds;
    forall t | 0 <= t < 2 * |data|
      ensures NibbleAt(data, t) == NibbleAt(EncInt(n), t)
    {
      assert NibbleAt(data, t) == NibbleAt(a, t);
      if t < |s| {
        PackNibble(s, t);
      } else {
        PackPad(s);
      }
    }
    NibblesTell(data, EncInt(n));
  }

  /** The loop of evtag_encode_tag. */
  method EncodeTagBytes(tag: nat) returns (data: seq<byte>)
    requires tag < TWO32
    ensures data == EncTag(tag)
  {
    data := [];
    var t, going := tag, true;
    while going
      invariant if going then data + EncTag(t) == EncTag(tag) else data == EncTag(tag)
      decreases going, t
    {
      ghost var before := t;
      var lower := t % 128;
      t := t / 128;
      if t > 0 {
        lower := lower + 128;
      }
      data := data + [lower];
      going := t > 0;
      assert EncTag(before) == [lower] + if going then EncTag(t) else [];
    }
  }

  /** A buffer that can be marshalled into: not frozen, and with address space for n more bytes. */
  ghost predicate Writable(buf: Evbuffer, n: nat)
    reads buf
  {
    buf.Valid() && !buf.freezeEnd && buf.totalLen + n <= SIZE_MAX && n <= CHAIN_MAX - CHAIN_SIZE
  }

  /** evtag_encode_int and evtag_encode_int64. */
  method EncodeInt(buf: Evbuffer, n: nat, size: nat, ghost others: set<Addr> := {})
    requires 0 < size <= 8 && n < Pow16(2 * size) && |Digits(n)| <= 16
    requires Writable(buf, |EncInt(n)|) && Addrs(buf.chains) !! others
    modifies buf
    ensures buf.Valid() && !buf.freezeEnd && buf.freezeStart == old(buf.freezeStart) && Addrs(buf.chains) !! others
    ensures buf.Bytes() == old(buf.Bytes()) + EncInt(n)
  {
    hide Good, Flatten, Digits, EncInt, Pow16, Addrs;
    var data := EncodeIntInternal(n, size);
    var _ := buf.Add(data, others);
  }

  /** evtag_encode_tag. */
  method EncodeTag(buf: Evbuffer, tag: nat, ghost others: set<Addr> := {})
    requires tag < TWO32 && Writable(buf, |EncTag(tag)|) && Addrs(buf.chains) !! others
    modifies buf
    ensures buf.Valid() && !buf.freezeEnd && buf.freezeStart == old(buf.freezeStart) && Addrs(buf.chains) !! others
    ensures buf.Bytes() == old(buf.Bytes()) + EncTag(tag)
  {
    hide Good, Flatten, EncTag, Addrs;
    TagLength(tag, 0);
    var data := EncodeTagBytes(tag);
    var _ := buf.Add(data, others);
  }

  /** An encoded 32-bit tag has at most five bytes. */
  lemma {:induction false} TagLength(n: nat, i: nat)
    requires i <= 4 && n < TagLimit(i)
    ensures |EncTag(n)| <= 5 - i
    decreases n
  {
    if n >= 128 {
      TagLength(n / 128, i + 1);
    }
  }

  /** evtag_marshal. */
  method Marshal(buf: Evbuffer, tag: nat, data: seq<byte>, ghost others: set<Addr> := {})
    requires Fits(Record(tag, data)) && Writable(buf, |EncRecord(Record(tag, data))|) && Addrs(buf.chains) !! others
    modifies buf
    ensures buf.Valid() && !buf.freezeEnd && buf.freezeStart == old(buf.freezeStart) && Addrs(buf.chains) !! others
    ensures buf.Bytes() == old(buf.Bytes()) + EncRecord(Record(tag, data))
  {
    hide Good, Flatten, EncTag, EncInt, Digits, Pow16, Addrs;
    ghost var start := buf.Bytes();
    ValidChains(buf);
    TagLength(tag, 0);
    SmallDigits(|data|);
    EncodeTag(buf, tag, others);
    ValidChains(buf);
    EncodeInt(buf, |data|, 4, others);
    ValidChains(buf);
    var _ := buf.Add(data, others);
    ghost var t, l := EncTag(tag), EncInt(|data|);
    assert start + t + l + data == start + (t + l + data);
  }

  // ----- reading -----

  /** The first n bytes made contiguous, without taking them off. */
  method Front(buf: Evbuffer, n: nat) returns (r: Option<seq<byte>>)
    requires buf.Valid() && n <= CHAIN_MAX - CHAIN_SIZE
    modifies buf`chains, buf`last, buf`lastWithDatap
    ensures buf.Valid() && buf.Bytes() == old(buf.Bytes())
    ensures r == if 0 < n <= |buf.Bytes()| then Some(buf.Bytes()[..n]) else None
  {
    hide Good, Flatten, Pos, Chain.Data, Addrs;
    ValidChains(buf);
    var ok := Pullup(buf, n);
    ValidChains(buf);
    if !ok {
      return None;
    }
    FirstBytes(buf.chains, n);
    r := Some(buf.chains[0].Data()[..n]);
  }

  lemma FirstBytes(cs: seq<Chain>, n: nat)
    requires cs != [] && cs[0].Ok() && n <= cs[0].off
    ensures n <= |cs[0].Data()| && n <= |Flatten(cs)| && Flatten(cs)[..n] == cs[0].Data()[..n]
  {
    hide Chain.Data;
    assert Flatten(cs) == cs[0].Data() + Flatten(cs[1..]);
  }

  function Pow128(i: nat): (p: nat)
    ensures p > 0
  {
    if i == 0 then 1 else 128 * Pow128(i - 1)
  }

  /** The decoded value of a tag when `sofar` holds its first i groups. */
  function Resume(r: Option<(nat, nat)>, sofar: nat, i: nat): Option<(nat, nat)> {
    match r
    case None => None
    case Some((v, n)) => Some((sofar + Pow128(i) * v, n))
  }

  lemma ResumeStep(b: seq<byte>, i: nat, sofar: nat)
    requires i < |b| && i <= 4 && !(i == 4 && b[i] % 128 > 15)
    ensures Resume(DecTagFrom(b, i), sofar, i) ==
      if b[i] < 128 then Some((sofar + Pow128(i) * (b[i] % 128), i + 1))
      else Resume(DecTagFrom(b, i + 1), sofar + Pow128(i) * (b[i] % 128), i + 1)
  {
    if b[i] >= 128 {
      match DecTagFrom(b, i + 1)
      case None =>
      case Some((v, n)) =>
        assert Pow128(i) * (b[i] % 128 + 128 * v) == Pow128(i) * (b[i] % 128) + Pow128(i + 1) * v;
    }
  }

  lemma DecTagPrefix(b: seq<byte>, n: nat, i: nat)
    requires i <= n <= |b| && (n == |b| || n == 5) && i <= 5
    ensures DecTagFrom(b[..n], i) == DecTagFrom(b, i)
    decreases n - i
  {
    if i < n && i <= 4 {
      DecTagPrefix(b, n, i + 1);
    }
  }

  /** decode_tag_internal: looks at no more than five bytes. */
  method DecodeTagInternal(buf: Evbuffer, dodrain: bool) returns (r: Option<(nat, nat)>)
    requires buf.Valid()
    modifies buf
    ensures buf.Valid() && buf.freezeStart == old(buf.freezeStart)
    ensures r == DecTag(old(buf.Bytes()))
    ensures buf.Bytes() ==
      if dodrain && r.Some? && !buf.freezeStart then old(buf.Bytes())[r.value.1..] else old(buf.Bytes())
  {
    hide Good, Flatten, DecTagFrom, Pow128;
    ValidChains(buf);
    var len := buf.totalLen;
    var n := if len < 5 then len else 5;
    var front := Front(buf, n);
    ghost var all := buf.Bytes();
    DecTagPrefix(all, n, 0);
    if front == None {
      TagEmpty(all);
      return None;
    }
    r := ParseTag(front.value);
    if r == None {
      return;
    }
    if dodrain {
      var _ := buf.Drain(r.value.1);
      assert r.value.1 == |all| ==> all[r.value.1..] == [];
    }
  }

  lemma TagEmpty(b: seq<byte>)
    requires b == []
    ensures DecTag(b) == None
  {
  }

  /** The decoding loop of decode_tag_internal. */
  method ParseTag(b: seq<byte>) returns (r: Option<(nat, nat)>)
    ensures r == DecTag(b)
  {
    hide DecTagFrom, Pow128, Resume;
    var number: nat, i: nat := 0, 0;
    ResumeStart(b);
    while i < |b|
      invariant 0 <= i <= |b| && i <= 5
      invariant DecTag(b) == Resume(DecTagFrom(b, i), number, i)
      decreases |b| - i
    {
      var lower := b[i];
      if i >= 4 && (i > 4 || lower % 128 > 15) {
        ResumeFails(b, i, number);
        return None;
      }
      ResumeStep(b, i, number);
      number := number + Pow128(i) * (lower % 128);
      if lower < 128 {
        return Some((number, i + 1));
      }
      i := i + 1;
    }
    ResumeFails(b, i, number);
    r := None;
  }

  lemma ResumeStart(b: seq<byte>)
    ensures DecTag(b) == Resume(DecTagFrom(b, 0), 0, 0)
  {
  }

  lemma ResumeFails(b: seq<byte>, i: nat, sofar: nat)
    requires i <= |b| && (i == |b| || i > 4 || (i == 4 && b[i] % 128 > 15))
    ensures Resume(DecTagFrom(b, i), sofar, i) == None
  {
  }

  /** The decoding loop of DECODE_INT_INTERNAL: from the last nibble down to the first. */
  method ParseNibbles(data: seq<byte>, k: nat) returns (number: nat)
    requires k / 2 < |data|
    ensures number == Value(Nibbles(data, 1, k))
  {
    hide NibbleAt;
    var nibbles := k;
    number := 0;
    ghost var ds := Nibbles(data, 1, k);
    assert ds[k..] == [];
    while nibbles > 0
      invariant 0 <= nibbles <= k && number == Value(ds[nibbles..])
    {
      assert ds[nibbles - 1..][1..] == ds[nibbles..];
      number := number * 16 + NibbleAt(data, nibbles) as int;
      nibbles := nibbles - 1;
    }
    assert ds[0..] == ds;
  }

  /** A decoder looks only at the bytes of the integer. */
  lemma NibblesPrefix(b: seq<byte>, n: nat, t: nat, k: nat)
    requires n <= |b| && (t + k - 1) / 2 < n
    ensures Nibbles(b[..n], t, k) == Nibbles(b, t, k)
  {
    forall i | 0 <= i < k
      ensures Nibbles(b[..n], t, k)[i] == Nibbles(b, t, k)[i]
    {
      assert NibbleAt(b[..n], t + i) == NibbleAt(b, t + i);
    }
  }

  /** decode_int_internal and decode_int64_internal: reads at `offset`, drains nothing. */
  method DecodeIntInternal(buf: Evbuffer, offset: nat, maxNibbles: nat) returns (r: Option<(nat, nat)>)
    requires buf.Valid() && offset <= |buf.Bytes()| && offset <= 16 && maxNibbles <= 16
    modifies buf`chains, buf`last, buf`lastWithDatap
    ensures buf.Valid() && buf.Bytes() == old(buf.Bytes())
    ensures r == DecInt(buf.Bytes()[offset..], maxNibbles)
  {
    hide Good, Flatten, NibbleAt, Nibbles, Value;
    ValidChains(buf);
    ghost var b := buf.Bytes()[offset..];
    var len := buf.totalLen - offset;
    if len <= 0 {
      return None;
    }
    var data := Front(buf, offset + 1);
    assert data.value[offset] == b[0];
    var nibbles := data.value[offset] / 16 + 1;
    if nibbles > maxNibbles || nibbles / 2 + 1 > len {
      return None;
    }
    len := nibbles / 2 + 1;
    data := Front(buf, offset + len);
    assert data.value[offset..] == b[..len];
    NibblesPrefix(b, len, 1, nibbles);
    var number := ParseNibbles(data.value[offset..], nibbles);
    r := Some((number, len));
  }

  /** evtag_decode_int and evtag_decode_int64. */
  method DecodeInt(buf: Evbuffer, maxNibbles: nat) returns (r: Option<nat>)
    requires buf.Valid() && maxNibbles <= 16
    modifies buf
    ensures buf.Valid() && buf.freezeStart == old(buf.freezeStart)
    ensures match DecInt(old(buf.Bytes()), maxNibbles)
      case None => r == None && buf.Bytes() == old(buf.Bytes())
      case Some((n, len)) =>
        r == Some(n) && buf.Bytes() == if buf.freezeStart then old(buf.Bytes()) else old(buf.Bytes())[len..]
  {
    hide Good, Flatten, DecInt;
    ghost var b := buf.Bytes();
    assert b[0..] == b;
    ValidChains(buf);
    var res := DecodeIntInternal(buf, 0, maxNibbles);
    if res == None {
      return None;
    }
    var _ := buf.Drain(res.value.1);
    assert res.value.1 == |b| ==> b[res.value.1..] == [];
    r := Some(res.value.0);
  }

  /** What evtag_unmarshal_header finds: tag, payload length, and how many bytes it drains. Nothing drains a frozen
      buffer, so that there the length is read from the same bytes as the tag. */
  function ReadHeader(b: seq<byte>, frozen: bool): (r: Option<(nat, nat, nat)>)
    ensures r.Some? ==> r.value.2 + r.value.1 <= |b|
  {
    if !frozen then DecHeader(b)
    else
      match DecTag(b)
      case None => None
      case Some((tag, _)) =>
        match DecInt(b, 8)
        case None => None
        case Some((len, _)) => if len > |b| then None else Some((tag, len, 0))
  }

  /** How many bytes are gone when evtag_unmarshal_header returns: those of the tag and of the length, as far as it
      could read them, whether the payload is there or not. */
  function HeaderTaken(b: seq<byte>, frozen: bool): (n: nat)
    ensures n <= |b| && (frozen ==> n == 0)
  {
    if frozen then 0
    else
      match DecTag(b)
      case None => 0
      case Some((_, n)) =>
        match DecInt(b[n..], 8)
        case None => n
        case Some((_, m)) => n + m
  }

  /** evtag_unmarshal_header: the payload length, as an int, and the tag; on success the header is drained.
      A length of 2^31 or more comes back negative, and the largest one as the failure code. */
  method UnmarshalHeader(buf: Evbuffer) returns (r: int, tag: nat)
    requires buf.Valid()
    modifies buf
    ensures buf.Valid() && buf.freezeStart == old(buf.freezeStart)
    ensures match ReadHeader(old(buf.Bytes()), buf.freezeStart)
      case None => r == -1
      case Some((t, len, n)) => len < TWO32 && r == AsInt(len) && tag == t && buf.Bytes() == old(buf.Bytes())[n..]
    ensures buf.Bytes() == old(buf.Bytes())[HeaderTaken(old(buf.Bytes()), buf.freezeStart)..]
  {
    hide Good, Flatten, DecInt, DecTag, AsInt;
    ghost var b := buf.Bytes();
    assert b[0..] == b;
    var decoded := DecodeTagInternal(buf, true);
    if decoded == None {
      return -1, 0;
    }
    tag := decoded.value.0;
    ghost var drained := if buf.freezeStart then 0 else decoded.value.1;
    ghost var b1 := b[drained..];
    IntSmall(b1);
    var len := DecodeInt(buf, 8);
    if len == None {
      return -1, 0;
    }
    ValidChains(buf);
    ghost var m := if buf.freezeStart then 0 else DecInt(b1, 8).value.1;
    assert b1[m..] == b[drained + m..];
    if buf.totalLen < len.value {
      return -1, 0;
    }
    r := AsInt(len.value);
  }

  /** An integer of at most eight nibbles has 32 bits. */
  lemma IntSmall(b: seq<byte>)
    ensures DecInt(b, 8).Some? ==> DecInt(b, 8).value.0 < TWO32
  {
    if DecInt(b, 8).Some? {
      var ds := Nibbles(b, 1, b[0] / 16 + 1);
      ValueSmall(ds, 8);
      SmallDigits(0);
    }
  }

  /** evtag_consume. It drains exactly one record when the payload length fits an int; of a longer one it drains
      all that a buffer can hold, and it takes the longest possible payload for a failure. */
  method Consume(buf: Evbuffer) returns (ok: bool)
    requires buf.Valid()
    modifies buf
    ensures buf.Valid() && buf.freezeStart == old(buf.freezeStart)
    ensures match ReadHeader(old(buf.Bytes()), buf.freezeStart)
      case None => !ok && buf.Bytes() == old(buf.Bytes())[HeaderTaken(old(buf.Bytes()), buf.freezeStart)..]
      case Some((tag, len, n)) =>
        var rest := old(buf.Bytes())[n..];
        && len < TWO32 && (ok <==> len != TWO32 - 1)
        && (!ok || buf.freezeStart ==> buf.Bytes() == rest)
        && (ok && !buf.freezeStart ==> buf.Bytes() == rest[Min(AsSize(AsInt(len)), |rest|)..])
        && (len <= INT_MAX && !buf.freezeStart ==> ok && buf.Bytes() == old(buf.Bytes())[n + len..])
  {
    hide Good, Flatten, ReadHeader, HeaderTaken;
    ghost var b := buf.Bytes();
    var len, _ := UnmarshalHeader(buf);
    if len == -1 {
      return false;
    }
    ghost var header := ReadHeader(b, buf.freezeStart).value;
    ValidChains(buf);
    var _ := buf.Drain(AsSize(len));
    AfterHeader(b, header.2, header.1);
    ok := true;
  }

  /** An int passed as a size_t. */
  function AsSize(len: int): (r: nat)
    requires -0x8000_0000 <= len <= INT_MAX
    ensures len >= 0 ==> r == len
    ensures len < 0 ==> r > SIZE_MAX - TWO32
  {
    if len >= 0 then len else SIZE_MAX + 1 + len
  }

  lemma AfterHeader(b: seq<byte>, n: nat, len: nat)
    requires n + len <= |b|
    ensures b[n..][len..] == b[n + len..] && b[n..][..len] == b[n..n + len]
    ensures len >= |b[n..]| ==> b[n + len..] == []
  {
  }

  /** The length of the record of which b is a beginning, as a 32-bit number. */
  function Peeked(b: seq<byte>): Option<nat> {
    match DecTag(b)
    case None => None
    case Some((_, n)) =>
      match DecInt(b[n..], 8)
      case None => None
      case Some((len, m)) => Some((n + m + len) % TWO32)
  }

  /** evtag_peek_length: what evtag_consume would drain, as a 32-bit number; nothing is drained. */
  method PeekLength(buf: Evbuffer) returns (r: Option<nat>)
    requires buf.Valid()
    modifies buf
    ensures buf.Valid() && buf.freezeStart == old(buf.freezeStart) && buf.Bytes() == old(buf.Bytes())
    ensures r == None <==> DecTag(buf.Bytes()) == None || DecInt(buf.Bytes()[DecTag(buf.Bytes()).value.1..], 8) == None
    ensures r.Some? ==>
      var n := DecTag(buf.Bytes()).value.1;
      var (len, m) := DecInt(buf.Bytes()[n..], 8).value;
      r == Some((n + m + len) % TWO32)
    // of a record of which no more than the header has to be there, it is the length of the whole record
    ensures forall rec :: Fits(rec) && HeaderLength(rec) <= |buf.Bytes()| && buf.Bytes() <= EncRecord(rec) ==>
      r == Some(|EncRecord(rec)| % TWO32)
  {
    hide Good, Flatten, DecInt, DecTagFrom, EncRecord, HeaderLength, EncTag, EncInt, Digits;
    ghost var b := buf.Bytes();
    forall rec | Fits(rec) && HeaderLength(rec) <= |b| && b <= EncRecord(rec)
      ensures Peeked(b) == Some(|EncRecord(rec)| % TWO32)
    {
      HeaderFirst(rec, b);
    }
    TagCount(b, 0);
    var tag := DecodeTagInternal(buf, false);
    if tag == None {
      return None;
    }
    var len := DecodeIntInternal(buf, tag.value.1, 8);
    if len == None {
      return None;
    }
    r := Some((len.value.0 + (len.value.1 + tag.value.1)) % TWO32);
  }

  /** A tag takes at most five bytes. */
  lemma {:induction false} TagCount(b: seq<byte>, i: nat)
    requires i <= |b|
    ensures DecTagFrom(b, i).Some? ==> DecTagFrom(b, i).value.1 <= 5
    decreases |b| - i
  {
    if i < |b| && i <= 4 {
      TagCount(b, i + 1);
    }
  }

  /** evtag_unmarshal: moves the payload of the next record to the end of `dst`. A payload of 2^31 bytes or more
      is not moved: its negative length is more than evbuffer_add takes. */
  method Unmarshal(src: Evbuffer, dst: Evbuffer) returns (r: int, tag: nat)
    requires src.Valid() && dst.Valid() && dst != src
    modifies src, dst
    ensures src.Valid() && dst.Valid() && src.freezeStart == old(src.freezeStart)
    ensures dst.freezeEnd == old(dst.freezeEnd) && dst.freezeStart == old(dst.freezeStart)
    ensures match ReadHeader(old(src.Bytes()), src.freezeStart)
      case None =>
        && r == -1 && dst.Bytes() == old(dst.Bytes())
        && src.Bytes() == old(src.Bytes())[HeaderTaken(old(src.Bytes()), src.freezeStart)..]
      case Some((t, len, n)) =>
        if len <= INT_MAX && !dst.freezeEnd && len <= SIZE_MAX - |old(dst.Bytes())| then
          && r == len && tag == t && dst.Bytes() == old(dst.Bytes()) + old(src.Bytes())[n..n + len]
          && src.Bytes() == old(src.Bytes())[if src.freezeStart then n else n + len..]
        else
          r == -1 && dst.Bytes() == old(dst.Bytes()) && src.Bytes() == old(src.Bytes())[n..]
  {
    hide Good, Flatten, ReadHeader, HeaderTaken, Addrs, NoGap, Evbuffer.Accounted, Evbuffer.Shape;
    ghost var b := src.Bytes();
    ValidChains(dst);
    r, tag := UnmarshalHeader(src);
    if r == -1 {
      return;
    }
    ghost var header := ReadHeader(b, src.freezeStart).value;
    AfterHeader(b, header.2, header.1);
    ValidChains(src);
    if r < 0 {
      // evbuffer_pullup makes all of src contiguous, and evbuffer_add refuses the size
      var _ := Pullup(src, r);
      return -1, tag;
    }
    var data := Front(src, r);
    var payload := if data.Some? then data.value else [];
    var ok := dst.Add(payload);
    if !ok {
      return -1, tag;
    }
    var _ := src.Drain(r);
  }

  /** In a buffer that is not frozen, what is found is the record at its front. */
  lemma HeaderIsRecord(b: seq<byte>)
    ensures match ReadHeader(b, false)
      case None => DecRecord(b) == None
      case Some((tag, len, n)) => DecRecord(b) == Some((Record(tag, b[n..n + len]), n + len))
  {
  }
}
