/** Records marshalled one after the other into an evbuffer, and unmarshalled again (event_tagging.c). */
module TaggingRuns {
  import opened ByteSeq
  import opened Common
  import opened Chains
  import opened Evbuffers
  import opened EvbufferPtrs
  import opened TagCodec
  import opened Tagging

  lemma {:induction false} EncSnoc(rs: seq<Record>, i: nat)
    requires i < |rs| && forall j :: 0 <= j < |rs| ==> Fits(rs[j])
    ensures EncAll(rs[..i + 1]) == EncAll(rs[..i]) + EncRecord(rs[i])
    decreases |rs|
  {
    hide EncRecord;
    if i == 0 {
      assert rs[..1] == [rs[0]] && rs[..0] == [];
      assert EncAll([rs[0]]) == EncRecord(rs[0]) + EncAll([]);
    } else {
      EncSnoc(rs[1..], i - 1);
      assert rs[..i + 1][1..] == rs[1..][..i] && rs[..i][1..] == rs[1..][..i - 1];
      Assoc(EncRecord(rs[0]), EncAll(rs[1..][..i - 1]), EncRecord(rs[i]));
    }
  }

  lemma {:induction false} EncSplit(rs: seq<Record>, i: nat)
    requires i <= |rs| && forall j :: 0 <= j < |rs| ==> Fits(rs[j])
    ensures EncAll(rs) == EncAll(rs[..i]) + EncAll(rs[i..])
    decreases |rs|
  {
    hide EncRecord;
    if i == 0 {
      assert rs[..0] == [] && rs[0..] == rs;
    } else {
      EncSplit(rs[1..], i - 1);
      assert rs[..i][1..] == rs[1..][..i - 1] && rs[1..][i - 1..] == rs[i..];
      Assoc(EncRecord(rs[0]), EncAll(rs[..i][1..]), EncAll(rs[i..]));
    }
  }

  /** evtag_marshal for each record. */
  method MarshalAll(buf: Evbuffer, rs: seq<Record>)
    requires buf.Valid() && !buf.freezeEnd && buf.Bytes() == []
    requires (forall i :: 0 <= i < |rs| ==> Fits(rs[i])) && |EncAll(rs)| <= SIZE_MAX
    modifies buf
    ensures buf.Valid() && !buf.freezeEnd && buf.freezeStart == old(buf.freezeStart) && buf.Bytes() == EncAll(rs)
  {
    hide Good, Flatten, Addrs, EncRecord;
    assert rs[..0] == [];
    for i := 0 to |rs|
      invariant buf.Valid() && !buf.freezeEnd && buf.freezeStart == old(buf.freezeStart)
      invariant buf.Bytes() == EncAll(rs[..i])
    {
      EncSplit(rs, i + 1);
      ValidChains(buf);
      EncSnoc(rs, i);
      assert Record(rs[i].tag, rs[i].payload) == rs[i];
      RecordLength(rs[i]);
      NoOne(buf.chains);
      Marshal(buf, rs[i].tag, rs[i].payload);
    }
    assert rs[..|rs|] == rs;
  }

  /** A record fits one chain. */
  lemma RecordLength(r: Record)
    requires Fits(r)
    ensures |EncRecord(r)| <= 10 + |r.payload|
  {
    TagLength(r.tag, 0);
    SmallDigits(|r.payload|);
  }

  lemma NoOne(cs: seq<Chain>)
    ensures Addrs(cs) !! {}
  {
  }

  /** The records before the first whose payload length does not fit an int. */
  function UpToLong(rs: seq<Record>): (r: seq<Record>)
    ensures (forall i :: 0 <= i < |rs| ==> |rs[i].payload| <= INT_MAX) ==> r == rs
  {
    if rs == [] || |rs[0].payload| > INT_MAX then [] else [rs[0]] + UpToLong(rs[1..])
  }

  /** evtag_unmarshal into a new buffer, which is then read out. */
  method UnmarshalOne(buf: Evbuffer) returns (r: Option<Record>)
    requires buf.Valid() && !buf.freezeStart
    modifies buf
    ensures buf.Valid() && !buf.freezeStart
    ensures match DecRecord(old(buf.Bytes()))
      case None => r == None
      case Some((rec, n)) =>
        if |rec.payload| > INT_MAX then r == None else r == Some(rec) && buf.Bytes() == old(buf.Bytes())[n..]
  {
    hide Good, Flatten, DecRecord, ReadHeader, Addrs, Evbuffer.Accounted, Evbuffer.Shape;
    ghost var b := buf.Bytes();
    HeaderIsRecord(b);
    var dst := new Evbuffer(false, false);
    ValidChains(dst);
    var len, tag := Unmarshal(buf, dst);
    if len == -1 {
      return None;
    }
    ValidChains(dst);
    ghost var all := dst.Bytes();
    var _, payload := Remove(dst, dst.totalLen);
    AllOfIt(payload, dst.Bytes(), DecRecord(b).value.0.payload);
    r := Some(Record(tag, payload));
  }

  /** evtag_unmarshal until it fails: the records of the reference decoding, up to the first that is too long. */
  method UnmarshalAll(buf: Evbuffer) returns (rs: seq<Record>)
    requires buf.Valid() && !buf.freezeStart
    modifies buf
    ensures buf.Valid() && rs == UpToLong(DecAll(old(buf.Bytes())))
  {
    hide Good, Flatten, DecRecord, Evbuffer.Valid, UpToLong, DecAll;
    rs := [];
    ghost var all := UpToLong(DecAll(buf.Bytes()));
    while true
      invariant buf.Valid() && !buf.freezeStart
      invariant all == rs + UpToLong(DecAll(buf.Bytes()))
      decreases |buf.Bytes()|
    {
      ghost var b := buf.Bytes();
      var next := UnmarshalOne(buf);
      if next == None {
        NoneLeft(b);
        assert rs + [] == rs;
        return;
      }
      OneOff(b);
      OneMore(rs, next.value, DecAll(buf.Bytes()));
      rs := rs + [next.value];
    }
  }

  lemma OneMore(rs: seq<Record>, r: Record, more: seq<Record>)
    requires |r.payload| <= INT_MAX
    ensures rs + UpToLong([r] + more) == (rs + [r]) + UpToLong(more)
  {
    hide UpToLong;
    UpToLongFirst(r, more);
  }

  lemma UpToLongFirst(r: Record, more: seq<Record>)
    requires |r.payload| <= INT_MAX
    ensures UpToLong([r] + more) == [r] + UpToLong(more)
  {
    assert ([r] + more)[1..] == more;
  }

  lemma NoneLeft(b: seq<byte>)
    requires DecRecord(b) == None || |DecRecord(b).value.0.payload| > INT_MAX
    ensures UpToLong(DecAll(b)) == []
  {
  }

  lemma OneOff(b: seq<byte>)
    requires DecRecord(b).Some?
    ensures 0 < DecRecord(b).value.1 <= |b| && DecAll(b) == [DecRecord(b).value.0] + DecAll(b[DecRecord(b).value.1..])
  {
  }

  lemma AllOfIt(r: seq<byte>, rest: seq<byte>, s: seq<byte>)
    requires r + rest == [] + s && |r| == |s|
    ensures r == s
  {
    assert (r + rest)[..|r|] == r;
    assert ([] + s)[..|s|] == s;
  }

  /** Any records that a buffer has room for come back as they went in. */
  method RoundTrip(rs: seq<Record>) returns (out: seq<Record>)
    requires (forall i :: 0 <= i < |rs| ==> Fits(rs[i])) && |EncAll(rs)| <= SIZE_MAX
    ensures out == rs
  {
    hide Good, Flatten, EncAll, DecAll;
    var buf := new Evbuffer(false, false);
    MarshalAll(buf, rs);
    AllRoundTrip(rs);
    out := UnmarshalAll(buf);
  }
}
