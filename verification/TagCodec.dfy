/** The tagged wire format as functions on byte strings (event_tagging.c). */
module TagCodec {
  import opened ByteSeq
  import opened Common


  // ----- integers: a count of nibbles, then the nibbles, least significant first -----

  type nibble = x: int | 0 <= x < 16

  function Digits(n: nat): (ds: seq<nibble>)
    ensures |ds| > 0
  {
    if n < 16 then [n] else [n % 16] + Digits(n / 16)
  }

  function Value(ds: seq<nibble>): nat {
    if ds == [] then 0 else ds[0] + 16 * Value(ds[1..])
  }

  lemma {:induction false} ValueDigits(n: nat)
    ensures Value(Digits(n)) == n
  {
    if n >= 16 {
      ValueDigits(n / 16);
      assert Digits(n)[1..] == Digits(n / 16);
    }
  }

  /** 16 to the power k. */
  function Pow16(k: nat): (p: nat)
    ensures p > 0
  {
    if k == 0 then 1 else 16 * Pow16(k - 1)
  }

  /** A number below 16^k has at most k nibbles. */
  lemma {:induction false} DigitsShort(n: nat, k: nat)
    requires k > 0 && n < Pow16(k)
    ensures |Digits(n)| <= k
  {
    if n >= 16 {
      assert k > 1;
      assert n / 16 < Pow16(k - 1);
      DigitsShort(n / 16, k - 1);
    }
  }

  /** k nibbles spell a number below 16^k. */
  lemma {:induction false} ValueSmall(ds: seq<nibble>, k: nat)
    requires |ds| <= k
    ensures Value(ds) < Pow16(k)
    decreases k
  {
    if ds != [] {
      ValueSmall(ds[1..], k - 1);
    }
  }

  /** The nibble at position t of a byte string: high halves first. */
  function NibbleAt(b: seq<byte>, t: nat): (x: nibble)
    requires t / 2 < |b|
  {
    if t % 2 == 0 then b[t / 2] / 16 else b[t / 2] % 16
  }

  function Pack(s: seq<nibble>): (b: seq<byte>)
    ensures |b| == (|s| + 1) / 2
  {
    if s == [] then [] else if |s| == 1 then [s[0] as int * 16] else [s[0] as int * 16 + s[1] as int] + Pack(s[2..])
  }

  lemma {:induction false} PackNibble(s: seq<nibble>, t: nat)
    requires t < |s|
    ensures NibbleAt(Pack(s), t) == s[t]
  {
    if t >= 2 {
      PackNibble(s[2..], t - 2);
      assert Pack(s)[t / 2] == Pack(s[2..])[(t - 2) / 2];
    }
  }

  /** Padding: a last odd nibble is followed by zero. */
  lemma {:induction false} PackPad(s: seq<nibble>)
    requires |s| % 2 == 1
    ensures NibbleAt(Pack(s), |s|) == 0
  {
    if |s| > 1 {
      PackPad(s[2..]);
      assert Pack(s)[|s| / 2] == Pack(s[2..])[(|s| - 2) / 2];
    }
  }

  /** A byte string is known by its nibbles. */
  lemma NibblesTell(a: seq<byte>, b: seq<byte>)
    requires |a| == |b| && forall t :: 0 <= t < 2 * |a| ==> NibbleAt(a, t) == NibbleAt(b, t)
    ensures a == b
  {
    forall i | 0 <= i < |a|
      ensures a[i] == b[i]
    {
      assert NibbleAt(a, 2 * i) == NibbleAt(b, 2 * i);
      assert NibbleAt(a, 2 * i + 1) == NibbleAt(b, 2 * i + 1);
      assert (2 * i + 1) / 2 == i;
    }
  }

  /** What encode_int_internal writes. */
  function EncInt(n: nat): (b: seq<byte>)
    requires |Digits(n)| <= 16
    ensures |b| == |Digits(n)| / 2 + 1
  {
    Pack([|Digits(n)| - 1] + Digits(n))
  }

  /** What decode_int_internal reads at the front of a byte string: the number and its length. */
  function DecInt(b: seq<byte>, maxNibbles: nat): (r: Option<(nat, nat)>)
    ensures r.Some? ==> 0 < r.value.1 <= |b|
  {
    if b == [] then None
    else
      var k := b[0] / 16 + 1;
      if k > maxNibbles || k / 2 + 1 > |b| then None
      else Some((Value(Nibbles(b, 1, k)), k / 2 + 1))
  }

  /** The k nibbles from position t on. */
  function Nibbles(b: seq<byte>, t: nat, k: nat): (ds: seq<nibble>)
    requires (t + k - 1) / 2 < |b|
    ensures |ds| == k && forall i :: 0 <= i < k ==> ds[i] == NibbleAt(b, t + i)
  {
    if k == 0 then [] else Nibbles(b, t, k - 1) + [NibbleAt(b, t + k - 1)]
  }

  /** An encoded integer is read back, whatever follows it. */
  lemma IntRoundTrip(n: nat, maxNibbles: nat, rest: seq<byte>)
    requires 0 < maxNibbles <= 16 && n < Pow16(maxNibbles)
    ensures |Digits(n)| <= 16 && DecInt(EncInt(n) + rest, maxNibbles) == Some((n, |EncInt(n)|))
  {
    hide Digits, EncInt, Nibbles, Value, NibbleAt, Pow16;
    DigitsShort(n, maxNibbles);
    ValueDigits(n);
    EncNibbles(n, rest);
    SameNibbles(EncInt(n) + rest, Digits(n));
  }

  lemma SameNibbles(b: seq<byte>, ds: seq<nibble>)
    requires |ds| / 2 < |b| && forall i :: 0 <= i < |ds| ==> NibbleAt(b, 1 + i) == ds[i]
    ensures Nibbles(b, 1, |ds|) == ds && b[0] / 16 == NibbleAt(b, 0)
  {
    var read := Nibbles(b, 1, |ds|);
    assert forall i :: 0 <= i < |ds| ==> read[i] == ds[i];
  }

  /** The nibbles of an encoded integer: the count less one, then the digits. */
  lemma EncNibbles(n: nat, rest: seq<byte>)
    requires |Digits(n)| <= 16
    ensures var b := EncInt(n) + rest;
      NibbleAt(b, 0) == |Digits(n)| - 1 && forall i :: 0 <= i < |Digits(n)| ==> NibbleAt(b, 1 + i) == Digits(n)[i]
  {
    var ds := Digits(n);
    var s := [|ds| - 1] + ds;
    PackNibble(s, 0);
    forall i | 0 <= i < |ds|
      ensures NibbleAt(EncInt(n) + rest, 1 + i) == ds[i]
    {
      PackNibble(s, 1 + i);
    }
  }

  // ----- tags: seven bits to a byte, least significant first, the high bit set on all but the last -----

  function EncTag(n: nat): (b: seq<byte>)
    ensures |b| > 0
  {
    if n < 128 then [n] else [n % 128 + 128] + EncTag(n / 128)
  }

  /** The tag value and length at position i of a tag: at most five bytes, the fifth at most 15. */
  function DecTagFrom(b: seq<byte>, i: nat): (r: Option<(nat, nat)>)
    requires i <= |b|
    ensures r.Some? ==> i < r.value.1 <= |b|
    decreases |b| - i
  {
    if i == |b| || i > 4 || (i == 4 && b[i] % 128 > 15) then None
    else if b[i] < 128 then Some((b[i], i + 1))
    else
      match DecTagFrom(b, i + 1)
      case None => None
      case Some((v, n)) => Some((b[i] % 128 + 128 * v, n))
  }

  /** What decode_tag_internal reads. */
  function DecTag(b: seq<byte>): (r: Option<(nat, nat)>)
    ensures r.Some? ==> 0 < r.value.1 <= |b|
  {
    DecTagFrom(b, 0)
  }

  /** The values that fit when i bytes of a 32-bit tag are already out. */
  function TagLimit(i: nat): nat {
    if i == 0 then 0x1_0000_0000 else if i == 1 then 0x200_0000
    else if i == 2 then 0x4_0000 else if i == 3 then 0x800 else 16
  }

  lemma {:induction false} TagFrom(n: nat, pre: seq<byte>, rest: seq<byte>)
    requires |pre| <= 4 && n < TagLimit(|pre|)
    ensures DecTagFrom(pre + EncTag(n) + rest, |pre|) == Some((n, |pre| + |EncTag(n)|))
    decreases n
  {
    var i, b := |pre|, pre + EncTag(n) + rest;
    assert b[i] == EncTag(n)[0];
    if n >= 128 {
      var pre' := pre + [n % 128 + 128];
      TagFrom(n / 128, pre', rest);
      assert b == pre' + EncTag(n / 128) + rest;
    }
  }

  lemma TagRoundTrip(n: nat, rest: seq<byte>)
    requires n < TWO32
    ensures DecTag(EncTag(n) + rest) == Some((n, |EncTag(n)|))
  {
    TagFrom(n, [], rest);
    assert [] + EncTag(n) + rest == EncTag(n) + rest;
  }

  // ----- records -----

  datatype Record = Record(tag: nat, payload: seq<byte>)

  predicate Fits(r: Record) {
    r.tag < TWO32 && |r.payload| < 0x8000_0000
  }

  lemma SmallDigits(n: nat)
    requires n < TWO32
    ensures n < Pow16(8) == TWO32 && |Digits(n)| <= 8
  {
    assert Pow16(1) == 16 && Pow16(2) == 0x100 && Pow16(4) == 0x1_0000 by {
      assert Pow16(3) == 16 * Pow16(2);
    }
    assert Pow16(8) == 0x1_0000_0000 by {
      assert Pow16(5) == 16 * Pow16(4) && Pow16(6) == 16 * Pow16(5) && Pow16(7) == 16 * Pow16(6);
    }
    DigitsShort(n, 8);
  }

  /** What evtag_marshal appends. */
  function EncRecord(r: Record): seq<byte>
    requires Fits(r)
  {
    SmallDigits(|r.payload|);
    EncTag(r.tag) + EncInt(|r.payload|) + r.payload
  }

  /** What evtag_unmarshal_header reads: the tag, the payload length, and the length of the header. */
  function DecHeader(b: seq<byte>): (r: Option<(nat, nat, nat)>)
    ensures r.Some? ==> 0 < r.value.2 && r.value.2 + r.value.1 <= |b|
  {
    match DecTag(b)
    case None => None
    case Some((tag, n)) =>
      match DecInt(b[n..], 8)
      case None => None
      case Some((len, m)) => if n + m + len > |b| then None else Some((tag, len, n + m))
  }

  /** What evtag_unmarshal reads: a record, and how many bytes it took. */
  function DecRecord(b: seq<byte>): (r: Option<(Record, nat)>)
    ensures r.Some? ==> 0 < r.value.1 <= |b|
  {
    match DecHeader(b)
    case None => None
    case Some((tag, len, n)) => Some((Record(tag, b[n..n + len]), n + len))
  }

  lemma HeaderRoundTrip(r: Record, rest: seq<byte>)
    requires Fits(r)
    ensures |Digits(|r.payload|)| <= 16
    ensures DecHeader(EncRecord(r) + rest) == Some((r.tag, |r.payload|, |EncTag(r.tag)| + |EncInt(|r.payload|)|))
  {
    hide Digits, Pow16, EncTag, EncInt, DecTag, DecInt;
    SmallDigits(|r.payload|);
    var t, l := EncTag(r.tag), EncInt(|r.payload|);
    ThreeParts(t, l, r.payload, rest);
    TagRoundTrip(r.tag, l + (r.payload + rest));
    IntRoundTrip(|r.payload|, 8, r.payload + rest);
  }

  lemma ThreeParts(t: seq<byte>, l: seq<byte>, payload: seq<byte>, rest: seq<byte>)
    ensures var b := t + l + payload + rest;
      b == t + (l + (payload + rest)) && b[|t|..] == l + (payload + rest)
  {
  }

  /** The length of a record's header: its tag and the length of its payload. */
  function HeaderLength(r: Record): nat
    requires Fits(r)
  {
    SmallDigits(|r.payload|);
    |EncTag(r.tag)| + |EncInt(|r.payload|)|
  }

  /** The header can be read as soon as it is there, before the payload is. */
  lemma HeaderFirst(r: Record, b: seq<byte>)
    requires Fits(r) && HeaderLength(r) <= |b| && b <= EncRecord(r)
    ensures var n := |EncTag(r.tag)|;
      && DecTag(b) == Some((r.tag, n)) && n <= |b|
      && DecInt(b[n..], 8) == Some((|r.payload|, HeaderLength(r) - n))
      && HeaderLength(r) + |r.payload| == |EncRecord(r)|
  {
    hide Digits, Pow16, EncTag, EncInt, DecTag, DecInt;
    SmallDigits(|r.payload|);
    var t, l := EncTag(r.tag), EncInt(|r.payload|);
    var part := b[|t| + |l|..];
    HeaderThenPart(t, l, r.payload, b);
    TagRoundTrip(r.tag, l + part);
    IntRoundTrip(|r.payload|, 8, part);
  }

  lemma HeaderThenPart(t: seq<byte>, l: seq<byte>, payload: seq<byte>, b: seq<byte>)
    requires |t| + |l| <= |b| && b <= t + l + payload
    ensures b == t + (l + b[|t| + |l|..]) && b[|t|..] == l + b[|t| + |l|..]
  {
    assert b[..|t| + |l|] == (t + l + payload)[..|t| + |l|] == t + l;
    assert b == b[..|t| + |l|] + b[|t| + |l|..];
    assert (t + (l + b[|t| + |l|..]))[|t|..] == l + b[|t| + |l|..];
  }

  lemma RecordRoundTrip(r: Record, rest: seq<byte>)
    requires Fits(r)
    ensures DecRecord(EncRecord(r) + rest) == Some((r, |EncRecord(r)|))
  {
    HeaderRoundTrip(r, rest);
    SmallDigits(|r.payload|);
    var n := |EncTag(r.tag)| + |EncInt(|r.payload|)|;
    assert (EncRecord(r) + rest)[n..n + |r.payload|] == r.payload;
  }

  function EncAll(rs: seq<Record>): seq<byte>
    requires forall i :: 0 <= i < |rs| ==> Fits(rs[i])
  {
    if rs == [] then [] else EncRecord(rs[0]) + EncAll(rs[1..])
  }

  /** Repeated unmarshalling, until the bytes are used up or do not parse. */
  function DecAll(b: seq<byte>): seq<Record>
    decreases |b|
  {
    match DecRecord(b)
    case None => []
    case Some((r, n)) => [r] + DecAll(b[n..])
  }

  lemma {:induction false} AllRoundTrip(rs: seq<Record>)
    requires forall i :: 0 <= i < |rs| ==> Fits(rs[i])
    ensures DecAll(EncAll(rs)) == rs
  {
    if rs != [] {
      var rest := EncAll(rs[1..]);
      RecordRoundTrip(rs[0], rest);
      assert EncAll(rs)[|EncRecord(rs[0])|..] == rest;
      AllRoundTrip(rs[1..]);
    }
  }
}
