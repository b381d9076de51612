/** What dnsname_to_labels writes, byte by byte, and what it remembers: every suffix that it may point to later, and
    nothing else (evdns.c; section 4.1.4 of RFC 1035). */
module DnsCompress {
  import opened ByteSeq
  import opened Common
  import opened DnsName
  import opened DnsLabels

  /** A label starts at k: at the front, and after each dot. */
  predicate Starts(name: seq<byte>, k: nat) {
    k == 0 || (k <= |name| && name[k - 1] == DOT)
  }

  /** How many labels start before position i. */
  function Count(name: seq<byte>, i: nat): nat {
    if i == 0 then 0 else Count(name, i - 1) + if Starts(name, i - 1) then 1 else 0
  }

  predicate InTable(t: seq<Entry>, s: seq<byte>) {
    exists m :: 0 <= m < |t| && t[m].0 == s
  }

  /** The longest suffix that is in the table, of those that start a label, starts at i; there is none when i is past
      the end of the name. */
  ghost predicate IsCut(t: seq<Entry>, name: seq<byte>, i: nat) {
    && i <= |name| + 1
    && (i <= |name| ==> Starts(name, i) && InTable(t, name[i..]))
    && NoneBefore(t, name, i)
  }

  predicate NoneBefore(t: seq<Entry>, name: seq<byte>, i: nat) {
    forall k: nat :: k < i && k <= |name| && Starts(name, k) ==> !InTable(t, name[k..])
  }

  /** The first i bytes stand for the first i of the name, with the length of its label in front of each label, where
      the dot before it would be. */
  ghost predicate Lengths(bytes: seq<byte>, name: seq<byte>, i: nat) {
    i <= |bytes| && i <= |name| + 1
    && forall k: nat :: k < i ==>
         bytes[k] as int == if Starts(name, k) then FirstLabel(name[k..]) else name[k - 1] as int
  }

  /** The first entry for s gives this position. */
  predicate FirstAt(t: seq<Entry>, s: seq<byte>, pos: nat) {
    exists m :: 0 <= m < |t| && t[m] == (s, pos) && forall l :: 0 <= l < m ==> t[l].0 != s
  }

  /** 11 and then fourteen bits. */
  function Bits(pos: nat): seq<byte> {
    [192 + pos % 16384 / 256, pos % 256]
  }

  /** Two bytes that give the first position noted for s. */
  ghost predicate Points(bytes: seq<byte>, t: seq<Entry>, s: seq<byte>) {
    exists pos :: FirstAt(t, s, pos) && bytes == Bits(pos)
  }

  /** The table gained an entry for each label that starts before i, in their order, until it was full. */
  ghost predicate Gained(t: seq<Entry>, t': seq<Entry>, name: seq<byte>, j: nat, i: nat) {
    && i <= |name| + 1
    && t <= t' && |t'| == Min(MAX_LABELS, |t| + Count(name, i))
    && forall k: nat :: k < i ==> EntryIs(t, t', name, j, k)
  }

  /** The entry for the label that starts at k stands behind those of the labels before it. */
  ghost predicate EntryIs(t: seq<Entry>, t': seq<Entry>, name: seq<byte>, j: nat, k: nat) {
    var c := |t| + Count(name, k);
    k <= |name| && Starts(name, k) && c < MAX_LABELS ==> c < |t'| && t'[c] == (name[k..], j + k)
  }

  ghost predicate ShortUpTo(name: seq<byte>, i: nat) {
    forall k: nat :: k < i && k <= |name| && Starts(name, k) ==> FirstLabel(name[k..]) <= MAX_LABEL_LEN
  }

  // ----- one label off the front -----

  /** What follows the first dot, which stands at n. */
  predicate IsRest(name: seq<byte>, n: nat, rest: seq<byte>) {
    n == FirstLabel(name) && n < |name| && rest == name[n + 1..]
  }

  lemma NoStart(name: seq<byte>, k: nat)
    ensures 0 < k <= FirstLabel(name) ==> !Starts(name, k)
    ensures Starts(name, 0) && Count(name, 0) == 0 && name[0..] == name
  {
  }

  lemma StartsRest(name: seq<byte>, n: nat, rest: seq<byte>, k: nat)
    requires IsRest(name, n, rest)
    ensures |name| == n + 1 + |rest| && n == FirstLabel(name)
    ensures k <= |rest| ==> (Starts(name, n + 1 + k) <==> Starts(rest, k)) && name[n + 1 + k..] == rest[k..]
  {
  }

  lemma {:induction false} CountRest(name: seq<byte>, n: nat, rest: seq<byte>, i: nat)
    requires IsRest(name, n, rest)
    ensures i <= |rest| + 1 ==> Count(name, n + 1 + i) == 1 + Count(rest, i)
    decreases i
  {
    hide IsRest, Starts;
    StartsRest(name, n, rest, 0);
    if i == 0 {
      CountFirst(name, n, n + 1);
      NoStart(rest, 0);
    } else {
      CountRest(name, n, rest, i - 1);
      StartsRest(name, n, rest, i - 1);
    }
  }

  lemma {:induction false} CountFirst(name: seq<byte>, n: nat, i: nat)
    requires n == FirstLabel(name) && 0 < i <= n + 1
    ensures Count(name, i) == 1
  {
    hide Starts;
    if i > 1 {
      CountFirst(name, n, i - 1);
      NoStart(name, i - 1);
    } else {
      NoStart(name, 0);
      assert Count(name, 1) == Count(name, 0) + 1;
    }
  }

  lemma {:induction false} LookupFirst(t: seq<Entry>, s: seq<byte>)
    ensures Lookup(t, s).Some? <==> InTable(t, s)
    ensures Lookup(t, s).Some? ==> FirstAt(t, s, Lookup(t, s).value)
  {
    if t != [] && t[0].0 != s {
      LookupFirst(t[1..], s);
      if InTable(t[1..], s) {
        FirstAtOn(t, s, Lookup(t, s).value);
        var m :| 0 <= m < |t[1..]| && t[1..][m].0 == s;
        assert t[m + 1].0 == s;
      }
      if InTable(t, s) {
        var m :| 0 <= m < |t| && t[m].0 == s;
        assert t[1..][m - 1].0 == s;
      }
    } else if t != [] {
      assert t[0] == (s, t[0].1);
    }
  }

  lemma FirstAtOn(t: seq<Entry>, s: seq<byte>, pos: nat)
    requires t != [] && t[0].0 != s && FirstAt(t[1..], s, pos)
    ensures FirstAt(t, s, pos)
  {
    var m :| 0 <= m < |t[1..]| && t[1..][m] == (s, pos) && forall l :: 0 <= l < m ==> t[1..][l].0 != s;
    assert t[m + 1] == (s, pos);
    forall l | 0 <= l < m + 1
      ensures t[l].0 != s
    {
      if l > 0 {
        assert t[l] == t[1..][l - 1];
      }
    }
  }

  lemma PairBits(pos: nat)
    ensures Pair(pos) == Bits(pos)
  {
    assert pos % 16384 % 256 == pos % 256;
  }

  /** Remembering a name leaves shorter ones as they were in the table. */
  lemma ShorterStay(t: seq<Entry>, name: seq<byte>, j: nat, s: seq<byte>)
    requires |s| < |name|
    ensures InTable(Remembered(t, name, j), s) <==> InTable(t, s)
    ensures forall pos :: FirstAt(Remembered(t, name, j), s, pos) ==> FirstAt(t, s, pos)
  {
    var t' := Remembered(t, name, j);
    assert forall m :: 0 <= m < |t| ==> t'[m] == t[m];
    assert |t'| > |t| ==> t'[|t|].0 == name;
  }

  lemma CutRest(t: seq<Entry>, name: seq<byte>, n: nat, rest: seq<byte>, j: nat, i: nat)
    requires IsCut(t, name, i) && !InTable(t, name) && IsRest(name, n, rest)
    ensures n < i <= |name| + 1 && IsCut(Remembered(t, name, j), rest, i - n - 1)
  {
    hide Remembered, InTable, Starts, NoneBefore, IsRest;
    NoStart(name, i);
    StartsRest(name, n, rest, 0);
    assert i > n;
    RestAt(t, name, n, rest, j, i - n - 1);
    NoneInRest(t, name, n, rest, j, i);
  }

  lemma NoneInRest(t: seq<Entry>, name: seq<byte>, n: nat, rest: seq<byte>, j: nat, i: nat)
    requires IsRest(name, n, rest) && n < i && NoneBefore(t, name, i)
    ensures NoneBefore(Remembered(t, name, j), rest, i - n - 1)
  {
    hide Remembered, InTable, Starts, IsRest;
    forall k: nat | k < i - n - 1 && k <= |rest| && Starts(rest, k)
      ensures !InTable(Remembered(t, name, j), rest[k..])
    {
      RestAt(t, name, n, rest, j, k);
    }
  }

  lemma RestAt(t: seq<Entry>, name: seq<byte>, n: nat, rest: seq<byte>, j: nat, k: nat)
    requires IsRest(name, n, rest)
    ensures |name| == n + 1 + |rest|
    ensures k <= |rest| ==>
      (InTable(Remembered(t, name, j), rest[k..]) <==> InTable(t, name[n + 1 + k..]))
      && (Starts(rest, k) <==> Starts(name, n + 1 + k))
  {
    hide Remembered, InTable, Starts, IsRest;
    StartsRest(name, n, rest, k);
    if k <= |rest| {
      ShorterStay(t, name, j, rest[k..]);
    }
  }

  lemma CutHere(t: seq<Entry>, name: seq<byte>, i: nat)
    requires IsCut(t, name, i)
    ensures InTable(t, name) ==> i == 0
    ensures !InTable(t, name) && FirstLabel(name) == |name| ==> i == |name| + 1
    ensures i == 0 ==> InTable(t, name)
  {
    NoStart(name, i);
  }

  // ----- the theorem -----

  /** How a name ends: with a pointer to the suffix that is known, or with a zero, which an empty last label is. */
  ghost predicate Ends(bytes: seq<byte>, t: seq<Entry>, name: seq<byte>, i: nat) {
    if i <= |name| then |bytes| == i + 2 && Points(bytes[i..], t, name[i..])
    else |bytes| > |name| && bytes[|name| + 1..] == if name == [] || name[|name| - 1] == DOT then [] else [0]
  }

  /** The room that takes. */
  function Needs(name: seq<byte>, i: nat): nat {
    if i <= |name| then i + 2 else |name| + 1
  }

  /** What writing a name stores: its labels, up to the longest suffix that the table knows, and then a pointer to where
      that was first written. What it remembers: the suffix at each of these labels, with its own position. */
  lemma {:induction false} Compresses(t: seq<Entry>, j: nat, name: seq<byte>, room: nat, i: nat)
    requires IsCut(t, name, i) && |t| <= MAX_LABELS
    ensures var w := Labels(t, j, name, room);
      && (w.Written? <==> ShortUpTo(name, i) && j + Needs(name, i) <= room)
      && (w.Written? ==>
            Lengths(w.bytes, name, i) && Ends(w.bytes, t, name, i) && Gained(t, w.table, name, j, i))
    decreases |name|
  {
    hide Labels, Lookup, Remembered, Lengths, Ends, Gained, ShortUpTo, IsCut, InTable, IsRest;
    var n := FirstLabel(name);
    LookupFirst(t, name);
    CutHere(t, name, i);
    if InTable(t, name) {
      LabelsEnd(t, j, name, room);
      KnownAlready(t, j, name);
    } else if n == |name| {
      LabelsEnd(t, j, name, room);
      LastLabel(t, j, name);
    } else {
      var t', rest := Remembered(t, name, j), name[n + 1..];
      RestIs(name);
      CutRest(t, name, n, rest, j, i);
      ShortRest(name, n, rest, i);
      AtMostFull(t, name, j);
      if n <= MAX_LABEL_LEN && j + n + 1 <= room {
        LabelsOn(t, j, name, room);
        Compresses(t', j + n + 1, rest, room, i - n - 1);
        var w := Labels(t', j + n + 1, rest, room);
        if w.Written? {
          LengthsOn(w.bytes, name, n, rest, i);
          EndsOn(w.bytes, t, j, name, n, rest, i);
          GainedOn(t, w.table, name, n, rest, j, i);
        }
      } else {
        LabelsEnd(t, j, name, room);
      }
    }
  }

  lemma RestIs(name: seq<byte>)
    requires FirstLabel(name) < |name|
    ensures IsRest(name, FirstLabel(name), name[FirstLabel(name) + 1..])
  {
  }

  lemma AtMostFull(t: seq<Entry>, name: seq<byte>, j: nat)
    requires |t| <= MAX_LABELS
    ensures |Remembered(t, name, j)| <= MAX_LABELS
  {
  }

  lemma KnownAlready(t: seq<Entry>, j: nat, name: seq<byte>)
    requires Lookup(t, name).Some? && |t| <= MAX_LABELS
    ensures var bytes := Pair(Lookup(t, name).value);
      Lengths(bytes, name, 0) && Ends(bytes, t, name, 0) && Gained(t, t, name, j, 0) && ShortUpTo(name, 0)
  {
    hide Lookup, FirstAt;
    LookupFirst(t, name);
    PairBits(Lookup(t, name).value);
    var bytes := Pair(Lookup(t, name).value);
    assert bytes[0..] == bytes && name[0..] == name;
  }

  lemma LastLabel(t: seq<Entry>, j: nat, name: seq<byte>)
    requires FirstLabel(name) == |name| && |t| <= MAX_LABELS
    ensures ShortUpTo(name, |name| + 1) <==> |name| <= MAX_LABEL_LEN
    ensures |name| <= MAX_LABEL_LEN ==>
      var bytes := Final(name[..|name|]);
      Lengths(bytes, name, |name| + 1) && Ends(bytes, t, name, |name| + 1)
      && Gained(t, Remembered(t, name, j), name, j, |name| + 1)
  {
    hide FirstLabel, Starts, Count, Ends, Lengths, Gained, ShortUpTo;
    ShortLast(name);
    GainedLast(t, j, name);
    assert name[..|name|] == name;
    if |name| <= MAX_LABEL_LEN {
      FinalEnds(t, name);
    }
  }

  lemma ShortLast(name: seq<byte>)
    requires FirstLabel(name) == |name|
    ensures ShortUpTo(name, |name| + 1) <==> |name| <= MAX_LABEL_LEN
  {
    hide FirstLabel, Starts, Count;
    OneStart(name);
    assert name[0..] == name;
  }

  lemma GainedLast(t: seq<Entry>, j: nat, name: seq<byte>)
    requires FirstLabel(name) == |name| && |t| <= MAX_LABELS
    ensures Gained(t, Remembered(t, name, j), name, j, |name| + 1)
  {
    hide FirstLabel, Starts, Count;
    OneStart(name);
    assert name[0..] == name;
  }

  lemma FinalEnds(t: seq<Entry>, name: seq<byte>)
    requires FirstLabel(name) == |name| <= MAX_LABEL_LEN
    ensures Lengths(Final(name), name, |name| + 1) && Ends(Final(name), t, name, |name| + 1)
  {
    hide FirstLabel, Starts, Points, Count;
    OneStart(name);
    assert name[0..] == name;
    FinalBytes(name);
  }

  lemma FinalBytes(name: seq<byte>)
    requires |name| <= MAX_LABEL_LEN
    ensures var bytes := Final(name);
      && |bytes| > |name| && bytes[0] as int == |name| && bytes[|name| + 1..] == (if name == [] then [] else [0])
      && forall k :: 0 < k <= |name| ==> bytes[k] == name[k - 1]
  {
  }

  lemma OneStart(name: seq<byte>)
    requires FirstLabel(name) == |name|
    ensures Starts(name, 0) && forall k: nat :: 0 < k <= |name| ==> !Starts(name, k)
    ensures Count(name, 0) == 0 && Count(name, |name| + 1) == 1
    ensures name != [] ==> name[|name| - 1] != DOT
  {
    hide FirstLabel;
    CountFirst(name, |name|, |name| + 1);
  }

  lemma ShortRest(name: seq<byte>, n: nat, rest: seq<byte>, i: nat)
    requires IsRest(name, n, rest) && n < i
    ensures ShortUpTo(name, i) <==> n <= MAX_LABEL_LEN && ShortUpTo(rest, i - n - 1)
  {
    hide FirstLabel, Starts, IsRest;
    NoStart(name, 0);
    StartsRest(name, n, rest, 0);
    if ShortUpTo(name, i) {
      forall k: nat | k < i - n - 1 && k <= |rest| && Starts(rest, k)
        ensures FirstLabel(rest[k..]) <= MAX_LABEL_LEN
      {
        StartsRest(name, n, rest, k);
      }
    }
    if n <= MAX_LABEL_LEN && ShortUpTo(rest, i - n - 1) {
      forall k: nat | k < i && k <= |name| && Starts(name, k)
        ensures FirstLabel(name[k..]) <= MAX_LABEL_LEN
      {
        NoStart(name, k);
        if k > 0 {
          StartsRest(name, n, rest, k - n - 1);
        }
      }
    }
  }

  lemma LengthsOn(bytes: seq<byte>, name: seq<byte>, n: nat, rest: seq<byte>, i: nat)
    requires IsRest(name, n, rest) && n < i && n <= MAX_LABEL_LEN && Lengths(bytes, rest, i - n - 1)
    ensures Lengths([n as byte] + name[..n] + bytes, name, i)
  {
    hide FirstLabel, Starts, IsRest;
    StartsRest(name, n, rest, 0);
    forall k: nat | k < i {
      LengthAt(bytes, name, n, rest, i, k);
    }
  }

  lemma LengthAt(bytes: seq<byte>, name: seq<byte>, n: nat, rest: seq<byte>, i: nat, k: nat)
    requires IsRest(name, n, rest) && n < i && n <= MAX_LABEL_LEN && Lengths(bytes, rest, i - n - 1) && k < i
    ensures var all := [n as byte] + name[..n] + bytes;
      k < |all| && k <= |name|
      && all[k] as int == if Starts(name, k) then FirstLabel(name[k..]) else name[k - 1] as int
  {
    hide FirstLabel, Starts, IsRest;
    NoStart(name, k);
    NoStart(rest, 0);
    StartsRest(name, n, rest, if k > n then k - n - 1 else 0);
    OneByOne(name, n, rest, bytes, k);
  }

  lemma OneByOne(name: seq<byte>, n: nat, rest: seq<byte>, bytes: seq<byte>, k: nat)
    requires IsRest(name, n, rest) && n <= MAX_LABEL_LEN && k <= |name| && k < n + 1 + |bytes|
    ensures var all := [n as byte] + name[..n] + bytes;
      all[k] as int == if k == 0 then n else if k <= n then name[k - 1] as int else bytes[k - n - 1] as int
    ensures n + 1 < k ==> name[k - 1] == rest[k - n - 2]
  {
  }

  lemma EndsOn(bytes: seq<byte>, t: seq<Entry>, j: nat, name: seq<byte>, n: nat, rest: seq<byte>, i: nat)
    requires IsRest(name, n, rest) && n < i <= |name| + 1 && n <= MAX_LABEL_LEN
    requires Ends(bytes, Remembered(t, name, j), rest, i - n - 1)
    ensures Ends([n as byte] + name[..n] + bytes, t, name, i)
  {
    hide FirstLabel, FirstAt, Remembered, Starts, IsRest;
    StartsRest(name, n, rest, i - n - 1);
    Behind([n as byte] + name[..n], bytes, if i <= |name| then i else |name| + 1);
    if i <= |name| {
      ShorterStay(t, name, j, rest[i - n - 1..]);
    } else {
      LastByte(name, n, rest);
    }
  }

  lemma Behind(pre: seq<byte>, bytes: seq<byte>, i: nat)
    requires |pre| <= i <= |pre| + |bytes|
    ensures (pre + bytes)[i..] == bytes[i - |pre|..]
  {
  }

  lemma LastByte(name: seq<byte>, n: nat, rest: seq<byte>)
    requires IsRest(name, n, rest)
    ensures rest == [] || rest[|rest| - 1] == DOT <==> name[|name| - 1] == DOT
  {
  }

  lemma GainedOn(t: seq<Entry>, t': seq<Entry>, name: seq<byte>, n: nat, rest: seq<byte>, j: nat, i: nat)
    requires IsRest(name, n, rest) && n < i <= |name| + 1 && |t| <= MAX_LABELS
    requires Gained(Remembered(t, name, j), t', rest, j + n + 1, i - n - 1)
    ensures Gained(t, t', name, j, i)
  {
    hide FirstLabel, Starts, Count, EntryIs, IsRest;
    StartsRest(name, n, rest, 0);
    CountRest(name, n, rest, i - n - 1);
    forall k: nat | k < i
      ensures EntryIs(t, t', name, j, k)
    {
      if k > n {
        EntryOn(t, t', name, n, rest, j, k - n - 1);
      } else {
        EntryFirst(t, t', name, j, k);
      }
    }
  }

  lemma EntryFirst(t: seq<Entry>, t': seq<Entry>, name: seq<byte>, j: nat, k: nat)
    requires k <= FirstLabel(name) && |t| <= MAX_LABELS && Remembered(t, name, j) <= t'
    ensures EntryIs(t, t', name, j, k)
  {
    hide FirstLabel, Starts, Count;
    NoStart(name, k);
  }

  lemma EntryOn(t: seq<Entry>, t': seq<Entry>, name: seq<byte>, n: nat, rest: seq<byte>, j: nat, m: nat)
    requires IsRest(name, n, rest) && m <= |rest| && |t| <= MAX_LABELS
    requires EntryIs(Remembered(t, name, j), t', rest, j + n + 1, m)
    ensures EntryIs(t, t', name, j, n + 1 + m)
  {
    hide FirstLabel, Starts, Count, IsRest;
    StartsRest(name, n, rest, m);
    CountRest(name, n, rest, m);
  }

  /** There always is such a place. */
  function Cut(t: seq<Entry>, name: seq<byte>, k: nat): nat
    requires k <= |name| + 1
    decreases |name| + 1 - k
  {
    if k == |name| + 1 || (Starts(name, k) && InTable(t, name[k..])) then k else Cut(t, name, k + 1)
  }

  lemma {:induction false} CutIs(t: seq<Entry>, name: seq<byte>, k: nat)
    requires k <= |name| + 1 && forall l: nat :: l < k && Starts(name, l) ==> !InTable(t, name[l..])
    ensures IsCut(t, name, Cut(t, name, k))
    decreases |name| + 1 - k
  {
    hide InTable, Starts;
    if !(k == |name| + 1 || (Starts(name, k) && InTable(t, name[k..]))) {
      CutIs(t, name, k + 1);
    }
  }

  /** A name that was written once, with room for it in the table, takes two bytes the second time. They point to where
      it was written first, which is the first time unless the table knew it before. */
  lemma SecondTime(t: seq<Entry>, j: nat, name: seq<byte>, room: nat, j': nat, room': nat)
    requires Labels(t, j, name, room).Written? && |t| <= MAX_LABELS && (|t| < MAX_LABELS || InTable(t, name))
    requires j' + 2 <= room'
    ensures var t' := Labels(t, j, name, room).table; var w := Labels(t', j', name, room');
      && w.Written? && |w.bytes| == 2 && w.table == t' && Points(w.bytes, t', name)
      && (!InTable(t, name) ==> w.bytes == Bits(j))
  {
    hide Labels, Lookup, FirstAt, Lengths, ShortUpTo;
    var t' := Labels(t, j, name, room).table;
    var i := Cut(t, name, 0);
    CutIs(t, name, 0);
    CutHere(t, name, i);
    Compresses(t, j, name, room, i);
    NoStart(name, 0);
    if !InTable(t, name) {
      OneOrMore(name, i);
      assert EntryIs(t, t', name, j, 0);
      assert t'[|t|] == (name, j);
      NowFirst(t, t', name, j);
    } else {
      StillThere(t, t', name);
    }
    LookupFirst(t', name);
    PairBits(Lookup(t', name).value);
    LabelsEnd(t', j', name, room');
  }

  lemma {:induction false} OneOrMore(name: seq<byte>, i: nat)
    requires i > 0
    ensures Count(name, i) > 0
  {
    if i > 1 {
      OneOrMore(name, i - 1);
    } else {
      assert Count(name, 1) == Count(name, 0) + 1;
    }
  }

  lemma NowFirst(t: seq<Entry>, t': seq<Entry>, name: seq<byte>, j: nat)
    requires t <= t' && |t| < |t'| && t'[|t|] == (name, j) && !InTable(t, name)
    ensures InTable(t', name) && forall pos :: FirstAt(t', name, pos) ==> pos == j
  {
    assert t'[|t|].0 == name;
    assert forall m :: 0 <= m < |t| ==> t'[m] == t[m];
  }

  lemma StillThere(t: seq<Entry>, t': seq<Entry>, name: seq<byte>)
    requires t <= t' && InTable(t, name)
    ensures InTable(t', name)
  {
    var m :| 0 <= m < |t| && t[m].0 == name;
    assert t'[m].0 == name;
  }

  /** Two names that share their last label: the second one takes a label and a pointer into the first. */
  lemma SharedEnd()
    ensures Labels([], 0, [97, DOT, 98], 9) == Written([1, 97, 1, 98, 0], [([97, DOT, 98], 0), ([98], 2)])
    ensures var t := [([97, DOT, 98], 0), ([98], 2)];
      Labels(t, 5, [99, DOT, 98], 9) == Written([1, 99, 192, 2], t + [([99, DOT, 98], 5)])
  {
    hide Labels, Lookup, FirstLabel;
    LastOne([([97, DOT, 98], 0)], 2);
    assert [] + [([97, DOT, 98], 0)] == [([97, DOT, 98], 0)];
    OneDot([], 0, 97, Labels([([97, DOT, 98], 0)], 2, [98], 9));
    var t: seq<Entry> := [([97, DOT, 98], 0), ([98], 2)];
    KnownOne(t, t + [([99, DOT, 98], 5)], 7);
    OneDot(t, 5, 99, Labels(t + [([99, DOT, 98], 5)], 7, [98], 9));
  }

  lemma OneDot(t: seq<Entry>, j: nat, x: byte, rest: Outcome)
    requires j <= 5 && x != DOT && |t| < 10 && forall m :: 0 <= m < |t| ==> t[m].0 != [x, DOT, 98]
    requires rest == Labels(t + [([x, DOT, 98], j)], j + 2, [98], 9)
    ensures Labels(t, j, [x, DOT, 98], 9) == Onto([1, x], rest)
  {
    hide Labels, Lookup;
    var name := [x, DOT, 98];
    assert FirstLabel(name) == 1 && name[2..] == [98] && [1 as byte] + name[..1] == [1, x];
    LookupFirst(t, name);
    LabelsOn(t, j, name, 9);
  }

  lemma LastOne(t: seq<Entry>, j: nat)
    requires j == 2 && t == [([97, DOT, 98], 0)]
    ensures Labels(t, j, [98], 9) == Written([1, 98, 0], t + [([98], j)])
  {
    hide Labels, Lookup;
    assert FirstLabel([98]) == 1 && [98 as byte][..1] == [98];
    LookupFirst(t, [98]);
    LabelsEnd(t, j, [98], 9);
  }

  lemma KnownOne(t: seq<Entry>, t': seq<Entry>, j: nat)
    requires t == [([97, DOT, 98], 0), ([98], 2)] && t <= t' && j == 7
    ensures Labels(t', j, [98], 9) == Written([192, 2], t')
  {
    hide Labels;
    assert t'[0] == t[0] && t'[1] == t[1] && t'[1..][0] == t[1];
    assert Lookup(t', [98]) == Some(2);
    LabelsEnd(t', j, [98], 9);
  }
}
