/** dnsname_to_labels and its compression table, against name_parse (evdns.c; section 4.1.4 of RFC 1035). */
module DnsLabels {
  import opened ByteSeq
  import opened Common
  import opened DnsName

  type Entry = (seq<byte>, nat)

  // ----- the specification -----

  /** The position of the first entry for `name`. */
  function Lookup(t: seq<Entry>, name: seq<byte>): (r: Option<nat>)
    ensures r.Some? ==> (name, r.value) in t
    ensures r.None? ==> forall e :: e in t ==> e.0 != name
  {
    if t == [] then None
    else if t[0].0 == name then Some(t[0].1)
    else Lookup(t[1..], name)
  }

  function Remembered(t: seq<Entry>, name: seq<byte>, pos: nat): seq<Entry> {
    if |t| == MAX_LABELS then t else t + [(name, pos)]
  }

  /** What writing a name gives: the bytes stored and the new table, or -1, or -2. */
  datatype Outcome = Written(bytes: seq<byte>, table: seq<Entry>) | LabelTooLong | NoRoom

  function Pair(pos: nat): seq<byte> {
    [PointerTo(pos).0, PointerTo(pos).1]
  }

  function Labels(t: seq<Entry>, j: nat, name: seq<byte>, room: nat): Outcome
    decreases |name|
  {
    var known := Lookup(t, name);
    var n := FirstLabel(name);
    if known.Some? then
      if j + 2 > room then NoRoom else Written(Pair(known.value), t)
    else if n > MAX_LABEL_LEN then LabelTooLong
    else if j + n + 1 > room then NoRoom
    else
      var here := [n as byte] + name[..n];
      var t' := Remembered(t, name, j);
      if n == |name| then Written(Final(name[..n]), t')
      else Onto(here, Labels(t', j + n + 1, name[n + 1..], room))
  }

  /** The last label and the zero that ends the name; an empty label is that zero already. */
  function Final(text: seq<byte>): seq<byte>
    requires |text| <= MAX_LABEL_LEN
  {
    if text == [] then [0] else [|text| as byte] + text + [0]
  }

  function Onto(here: seq<byte>, rest: Outcome): Outcome {
    if rest.Written? then rest.(bytes := here + rest.bytes) else rest
  }

  // ----- Spells survives later writes, and looser limits -----

  lemma {:induction false} SpellsMore(b: seq<byte>, p: nat, name: seq<byte>, lim: nat, more: seq<byte>, lim': nat)
    requires Spells(b, p, name, lim) && lim <= lim'
    ensures Spells(b + more, p, name, lim')
    decreases lim, |name|, 1
  {
    if SpellsHere(b, p, name, lim) {
      HereMore(b, p, name, lim, more, lim');
    } else {
      var target := Target(b[p], b[p + 1]);
      HereMore(b, target, name, target, more, target);
    }
  }

  lemma {:induction false} HereMore(b: seq<byte>, p: nat, name: seq<byte>, lim: nat, more: seq<byte>, lim': nat)
    requires SpellsHere(b, p, name, lim) && lim <= lim'
    ensures SpellsHere(b + more, p, name, lim')
    decreases lim, |name|, 0
  {
    var n := FirstLabel(name);
    assert (b + more)[p + 1..p + 1 + n] == b[p + 1..p + 1 + n];
    if n < |name| {
      SpellsMore(b, p + 1 + n, name[n + 1..], lim, more, lim');
    }
  }

  lemma {:induction false} EndMore(b: seq<byte>, p: nat, name: seq<byte>, lim: nat, more: seq<byte>)
    requires Spells(b, p, name, lim)
    ensures EndOf(b + more, p) == EndOf(b, p) <= |b|
    decreases |name|
  {
    if SpellsHere(b, p, name, lim) {
      var n := FirstLabel(name);
      if n < |name| {
        EndMore(b, p + 1 + n, name[n + 1..], lim, more);
      }
    }
  }

  // ----- name_parse reads what a position spells -----

  function Extended(out: seq<byte>, name: seq<byte>): seq<byte> {
    if out == [] then name else out + [DOT] + name
  }

  lemma ExtendedTwice(out: seq<byte>, a: seq<byte>, rest: seq<byte>)
    requires a != []
    ensures Extended(Extended(out, a), rest) == Extended(out, a + [DOT] + rest)
  {
    if out != [] {
      assert (out + [DOT] + a) + [DOT] + rest == out + [DOT] + (a + [DOT] + rest);
    }
  }

  lemma ExtendedSplit(out: seq<byte>, name: seq<byte>, n: nat)
    requires 1 <= n < |name| && name[n] == DOT
    ensures Extended(Extended(out, name[..n]), name[n + 1..]) == Extended(out, name)
  {
    assert name == name[..n] + [DOT] + name[n + 1..];
    ExtendedTwice(out, name[..n], name[n + 1..]);
  }

  /** One turn of name_parse's loop, at a label. */
  lemma LabelTurn(b: seq<byte>, p: nat, n: nat, out: seq<byte>, ptrs: nat, end: Option<nat>, cap: nat)
    requires ptrs <= |b| && p + 1 + n <= |b| && b[p] as int == n && 1 <= n <= MAX_LABEL_LEN
    requires |Extended(out, b[p + 1..p + 1 + n])| < cap
    ensures ParseFrom(b, p, out, ptrs, end, cap)
         == ParseFrom(b, p + 1 + n, Extended(out, b[p + 1..p + 1 + n]), ptrs, end, cap)
    ensures EndOf(b, p) == EndOf(b, p + 1 + n)
  {
    var text := b[p + 1..p + 1 + n];
    if out == [] {
      assert out + text == text;
    } else {
      assert out + [DOT] + text == Extended(out, text);
    }
  }

  lemma LastTurn(b: seq<byte>, p: nat, out: seq<byte>, ptrs: nat, end: Option<nat>, cap: nat)
    requires ptrs <= |b| && p < |b| && b[p] == 0 && |out| < cap
    ensures ParseFrom(b, p, out, ptrs, end, cap) == Some((out, if end.Some? then end.value else EndOf(b, p)))
  {
  }

  lemma ExtendedShorter(out: seq<byte>, name: seq<byte>, n: nat)
    requires n <= |name|
    ensures |Extended(out, name[..n])| <= |Extended(out, name)|
  {
  }

  lemma {:induction false} ParseHere(b: seq<byte>, p: nat, name: seq<byte>, lim: nat, out: seq<byte>, ptrs: nat,
                                     end: Option<nat>, cap: nat)
    requires SpellsHere(b, p, name, lim) && ptrs + lim <= |b| && |Extended(out, name)| < cap
    ensures ParseFrom(b, p, out, ptrs, end, cap)
         == Some((Extended(out, name), if end.Some? then end.value else EndOf(b, p)))
    decreases lim, |name|, 0
  {
    hide ParseFrom, EndOf, Spells, FirstLabel, Extended;
    var n := FirstLabel(name);
    ExtendedShorter(out, name, n);
    LabelTurn(b, p, n, out, ptrs, end, cap);
    if n == |name| {
      assert name[..n] == name;
      LastTurn(b, p + 1 + n, Extended(out, name), ptrs, end, cap);
    } else {
      ExtendedSplit(out, name, n);
      ParseSpells(b, p + 1 + n, name[n + 1..], lim, Extended(out, name[..n]), ptrs, end, cap);
    }
  }

  lemma {:induction false} ParseSpells(b: seq<byte>, p: nat, name: seq<byte>, lim: nat, out: seq<byte>, ptrs: nat,
                                       end: Option<nat>, cap: nat)
    requires Spells(b, p, name, lim) && ptrs + lim <= |b| && |Extended(out, name)| < cap
    ensures ParseFrom(b, p, out, ptrs, end, cap)
         == Some((Extended(out, name), if end.Some? then end.value else EndOf(b, p)))
    decreases lim, |name|, 1
  {
    if SpellsHere(b, p, name, lim) {
      ParseHere(b, p, name, lim, out, ptrs, end, cap);
    } else {
      var target := Target(b[p], b[p + 1]);
      ParseHere(b, target, name, target, out, ptrs + 1, if end.Some? then end else Some(p + 2), cap);
    }
  }

  // ----- what dnsname_to_labels writes spells the name -----

  /** Entries no longer than `len` are spelled out at their positions, below `lim`. */
  ghost predicate Known(b: seq<byte>, t: seq<Entry>, len: nat, lim: nat) {
    forall e :: e in t && |e.0| <= len ==> e.1 < lim && SpellsHere(b, e.1, e.0, e.1)
  }

  /** The whole table is usable for the packet b. */
  ghost predicate TableOk(b: seq<byte>, t: seq<Entry>) {
    |t| <= MAX_LABELS && forall e :: e in t ==> e.1 < |b| && SpellsHere(b, e.1, e.0, e.1)
  }

  /** Everything a call has to establish: the new bytes spell the name, and so does every new entry. */
  ghost predicate Spelled(b: seq<byte>, j: nat, name: seq<byte>, lim: nat, t: seq<Entry>, t': seq<Entry>) {
    && Spells(b, j, name, lim)
    && (forall e :: e in t' ==> e in t || (j <= e.1 < |b| && SpellsHere(b, e.1, e.0, lim)))
    && EndOf(b, j) == |b|
  }

  lemma PointerSpelled(b: seq<byte>, name: seq<byte>, lim: nat, t: seq<Entry>, pos: nat)
    requires pos < lim <= JUMP_LIMIT && SpellsHere(b, pos, name, pos)
    ensures Spelled(b + Pair(pos), |b|, name, lim, t, t)
  {
    PointerExact(pos);
    HereMore(b, pos, name, pos, Pair(pos), pos);
  }

  lemma LastSpelled(b: seq<byte>, name: seq<byte>, lim: nat, t: seq<Entry>)
    requires GoodLabels(name) && FirstLabel(name) == |name|
    ensures Spelled(b + Final(name[..|name|]), |b|, name, lim, t, Remembered(t, name, |b|))
  {
    hide Spells, FirstLabel;
    assert name[..|name|] == name;
    var b' := b + Final(name);
    LastBytes(b, name);
    LastIsHere(b', |b|, name, lim);
    LastEnds(b', |b|, |name|);
    HereSpells(b', |b|, name, lim);
  }

  lemma LastBytes(b: seq<byte>, name: seq<byte>)
    requires 1 <= |name| <= MAX_LABEL_LEN
    ensures var b', j := b + Final(name), |b|;
            && j + 2 + |name| == |b'| && b'[j] as int == |name|
            && b'[j + 1..j + 1 + |name|] == name && b'[j + 1 + |name|] == 0
  {
  }

  lemma HereSpells(b: seq<byte>, j: nat, name: seq<byte>, lim: nat)
    requires SpellsHere(b, j, name, lim)
    ensures Spells(b, j, name, lim)
  {
  }

  lemma LastIsHere(b: seq<byte>, j: nat, name: seq<byte>, lim: nat)
    requires FirstLabel(name) == |name| && 1 <= |name| <= MAX_LABEL_LEN
    requires j + 2 + |name| == |b| && b[j] as int == |name| && b[j + 1..j + 1 + |name|] == name
    requires b[j + 1 + |name|] == 0
    ensures SpellsHere(b, j, name, lim)
  {
    assert name[..|name|] == name;
  }

  lemma LastEnds(b: seq<byte>, j: nat, n: nat)
    requires 1 <= n <= MAX_LABEL_LEN && j + 2 + n == |b| && b[j] as int == n && b[j + 1 + n] == 0
    ensures EndOf(b, j) == |b|
  {
    assert EndOf(b, j + 1 + n) == |b|;
  }

  lemma OneMoreSpelled(b: seq<byte>, j: nat, name: seq<byte>, lim: nat, t: seq<Entry>, t': seq<Entry>)
    requires GoodLabels(name) && FirstLabel(name) < |name|
    requires var n := FirstLabel(name);
             && j + n + 1 < |b| && b[j] == n && b[j + 1..j + 1 + n] == name[..n]
             && Spelled(b, j + n + 1, name[n + 1..], lim, Remembered(t, name, j), t')
    ensures Spelled(b, j, name, lim, t, t')
  {
    hide FirstLabel, Spells, SpellsHere, EndOf, GoodLabels;
    var n := FirstLabel(name);
    FirstIsGood(name);
    LabelIsHere(b, j, name, lim);
    HereSpells(b, j, name, lim);
    OneMoreEntry(b, j, n, name, lim, t, t');
    EndOn(b, j, n);
  }

  lemma FirstIsGood(name: seq<byte>)
    requires GoodLabels(name)
    ensures 1 <= FirstLabel(name) <= MAX_LABEL_LEN
  {
  }

  lemma LabelIsHere(b: seq<byte>, j: nat, name: seq<byte>, lim: nat)
    requires var n := FirstLabel(name);
             && 1 <= n <= MAX_LABEL_LEN && n < |name| && j + n + 1 < |b|
             && b[j] == n && b[j + 1..j + 1 + n] == name[..n] && Spells(b, j + n + 1, name[n + 1..], lim)
    ensures SpellsHere(b, j, name, lim)
  {
    hide FirstLabel, Spells;
  }

  lemma EndOn(b: seq<byte>, j: nat, n: nat)
    requires 1 <= n <= MAX_LABEL_LEN && j < |b| && b[j] as int == n
    ensures EndOf(b, j) == EndOf(b, j + n + 1)
  {
  }

  lemma OneMoreEntry(b: seq<byte>, j: nat, n: nat, name: seq<byte>, lim: nat, t: seq<Entry>, t': seq<Entry>)
    requires SpellsHere(b, j, name, lim) && j < |b|
    requires forall e :: e in t' ==>
      e in Remembered(t, name, j) || (j + n + 1 <= e.1 < |b| && SpellsHere(b, e.1, e.0, lim))
    ensures forall e :: e in t' ==> e in t || (j <= e.1 < |b| && SpellsHere(b, e.1, e.0, lim))
  {
    hide SpellsHere;
  }

  lemma {:induction false} LabelsSpell(b: seq<byte>, t: seq<Entry>, name: seq<byte>, room: nat, lim: nat)
    requires GoodLabels(name) && Known(b, t, |name|, lim) && lim <= |b| && lim <= JUMP_LIMIT
    requires Labels(t, |b|, name, room).Written?
    ensures var w := Labels(t, |b|, name, room); Spelled(b + w.bytes, |b|, name, lim, t, w.table)
    decreases |name|
  {
    var w, n := Labels(t, |b|, name, room), FirstLabel(name);
    var known := Lookup(t, name);
    if known.Some? {
      assert (name, known.value) in t;
      PointerSpelled(b, name, lim, t, known.value);
    } else if n == |name| {
      LastSpelled(b, name, lim, t);
    } else {
      RestSpells(b, t, name, room, lim);
    }
  }

  /** Labels at a label that another one follows. */
  lemma LabelsOn(t: seq<Entry>, j: nat, name: seq<byte>, room: nat)
    requires Lookup(t, name).None? && FirstLabel(name) < |name|
    requires FirstLabel(name) <= MAX_LABEL_LEN && j + FirstLabel(name) + 1 <= room
    ensures var n := FirstLabel(name);
            && Labels(t, j, name, room)
            == Onto([n as byte] + name[..n], Labels(Remembered(t, name, j), j + n + 1, name[n + 1..], room))
  {
  }

  /** Labels where the loop leaves. */
  lemma LabelsEnd(t: seq<Entry>, j: nat, name: seq<byte>, room: nat)
    requires Lookup(t, name).Some? || FirstLabel(name) == |name| || FirstLabel(name) > MAX_LABEL_LEN
      || j + FirstLabel(name) + 1 > room
    ensures var known, n := Lookup(t, name), FirstLabel(name);
            && Labels(t, j, name, room)
            == if known.Some? then if j + 2 > room then NoRoom else Written(Pair(known.value), t)
               else if n > MAX_LABEL_LEN then LabelTooLong
               else if j + n + 1 > room then NoRoom
               else Written(Final(name[..n]), Remembered(t, name, j))
  {
  }

  lemma RoomForLabel(t: seq<Entry>, j: nat, name: seq<byte>, room: nat)
    requires Labels(t, j, name, room).Written? && Lookup(t, name).None?
    ensures FirstLabel(name) <= MAX_LABEL_LEN && j + FirstLabel(name) + 1 <= room
  {
  }

  lemma {:induction false} RestSpells(b: seq<byte>, t: seq<Entry>, name: seq<byte>, room: nat, lim: nat)
    requires GoodLabels(name) && Known(b, t, |name|, lim) && lim <= |b| && lim <= JUMP_LIMIT
    requires Labels(t, |b|, name, room).Written? && Lookup(t, name).None? && FirstLabel(name) < |name|
    ensures var w := Labels(t, |b|, name, room); Spelled(b + w.bytes, |b|, name, lim, t, w.table)
    decreases |name|, 0
  {
    hide Spelled, Labels, Known, Lookup, Remembered, FirstLabel;
    RoomForLabel(t, |b|, name, room);
    LabelsOn(t, |b|, name, room);
    var n := FirstLabel(name);
    var here, t' := [n as byte] + name[..n], Remembered(t, name, |b|);
    var b' := b + here;
    KnownMore(b, t, |name|, lim, here, n, name);
    assert |b'| == |b| + n + 1;
    var w' := Labels(t', |b'|, name[n + 1..], room);
    LabelsSpell(b', t', name[n + 1..], room, lim);
    var all := b' + w'.bytes;
    Assoc(b, here, w'.bytes);
    LabelStays(b, n as byte, name[..n], w'.bytes);
    LongEnough(all, |b'|, name[n + 1..], lim, t', w'.table);
    OneMoreSpelled(all, |b|, name, lim, t, w'.table);
  }

  lemma LabelStays(b: seq<byte>, n: byte, text: seq<byte>, more: seq<byte>)
    requires n as int == |text|
    ensures var all := b + ([n] + text) + more;
            all[|b|] == n && all[|b| + 1..|b| + 1 + |text|] == text
  {
  }

  lemma LongEnough(b: seq<byte>, j: nat, name: seq<byte>, lim: nat, t: seq<Entry>, t': seq<Entry>)
    requires Spelled(b, j, name, lim, t, t')
    ensures j < |b|
  {
    if SpellsHere(b, j, name, lim) {
      assert j + 1 + FirstLabel(name) < |b|;
    }
  }

  lemma KnownMore(b: seq<byte>, t: seq<Entry>, len: nat, lim: nat, more: seq<byte>, n: nat, name: seq<byte>)
    requires Known(b, t, len, lim) && len == |name| && n < |name|
    ensures Known(b + more, Remembered(t, name, |b|), |name[n + 1..]|, lim)
  {
    forall e | e in Remembered(t, name, |b|) && |e.0| <= |name[n + 1..]|
      ensures e.1 < lim && SpellsHere(b + more, e.1, e.0, e.1)
    {
      assert e in t;
      HereMore(b, e.1, e.0, e.1, more, e.1);
    }
  }

  /** Writing one valid name into a packet with a usable table: name_parse reads the name back,
      ends where the writer ended, and the table stays usable for later names. */
  lemma OneName(b: seq<byte>, t: seq<Entry>, name: seq<byte>, room: nat, cap: nat)
    requires ValidName(name) && TableOk(b, t) && |b| <= JUMP_LIMIT && |name| < cap
    requires Labels(t, |b|, name, room).Written?
    ensures var w := Labels(t, |b|, name, room); var b' := b + w.bytes;
            && TableOk(b', w.table)
            && Spells(b', |b|, name, |b|) && EndOf(b', |b|) == |b'|
            && ParseFrom(b', |b|, [], 0, None, cap) == Some((name, |b'|))
  {
    var w := Labels(t, |b|, name, room);
    var b' := b + w.bytes;
    LabelsSpell(b, t, name, room, |b|);
    ParseSpells(b', |b|, name, |b|, [], 0, None, cap);
    AtMost128(t, |b|, name, room);
    forall e | e in w.table
      ensures e.1 < |b'| && SpellsHere(b', e.1, e.0, e.1)
    {
      if e in t {
        HereMore(b, e.1, e.0, e.1, w.bytes, e.1);
      } else {
        HereMore(b', e.1, e.0, |b|, [], e.1);
        assert b' + [] == b';
      }
    }
  }

  lemma LabelsOut(t: seq<Entry>, j: nat, name: seq<byte>, room: nat)
    requires Labels(t, j, name, room).Written? && (Lookup(t, name).Some? || FirstLabel(name) == |name|)
    ensures Labels(t, j, name, room).table in {t, Remembered(t, name, j)}
  {
    hide Labels;
    LabelsEnd(t, j, name, room);
  }

  lemma {:induction false} AtMost128(t: seq<Entry>, j: nat, name: seq<byte>, room: nat)
    requires |t| <= MAX_LABELS && Labels(t, j, name, room).Written?
    ensures |Labels(t, j, name, room).table| <= MAX_LABELS
    decreases |name|
  {
    hide Lookup, Labels;
    var n := FirstLabel(name);
    if Lookup(t, name).Some? || n == |name| {
      LabelsOut(t, j, name, room);
    } else {
      RoomForLabel(t, j, name, room);
      LabelsOn(t, j, name, room);
      AtMost128(Remembered(t, name, j), j + n + 1, name[n + 1..], room);
    }
  }

  /** Later writes do not change what a written name reads back as. */
  lemma StillReads(b: seq<byte>, p: nat, name: seq<byte>, more: seq<byte>, cap: nat)
    requires Spells(b, p, name, p) && p <= |b| && |name| < cap
    ensures Spells(b + more, p, name, p)
    ensures ParseFrom(b + more, p, [], 0, None, cap) == Some((name, EndOf(b, p)))
  {
    SpellsMore(b, p, name, p, more, p);
    EndMore(b, p, name, p, more);
    ParseSpells(b + more, p, name, p, [], 0, None, cap);
  }

  /** A valid name never fails for want of anything but room, and compression never costs bytes. */
  lemma {:induction false} Fits(t: seq<Entry>, j: nat, name: seq<byte>, room: nat)
    requires GoodLabels(name) && j + |name| + 1 <= room
    ensures Labels(t, j, name, room).Written?
    ensures 2 <= |Labels(t, j, name, room).bytes| <= |name| + 2
    decreases |name|
  {
    hide Lookup, Remembered, Labels;
    var n := FirstLabel(name);
    if Lookup(t, name).Some? || n == |name| {
      LabelsEnd(t, j, name, room);
    } else {
      LabelsOn(t, j, name, room);
      Fits(Remembered(t, name, j), j + n + 1, name[n + 1..], room);
    }
  }

  // ----- the zero past the end -----

  /** No suffix of the name that starts a label is in the table. */
  predicate NoneKnown(t: seq<Entry>, name: seq<byte>)
    decreases |name|
  {
    Lookup(t, name).None? && (FirstLabel(name) < |name| ==> NoneKnown(t, name[FirstLabel(name) + 1..]))
  }

  predicate ShortLabels(name: seq<byte>)
    decreases |name|
  {
    FirstLabel(name) <= MAX_LABEL_LEN && (FirstLabel(name) < |name| ==> ShortLabels(name[FirstLabel(name) + 1..]))
  }

  /** What a caller can look at: nothing of the name is known, no label is too long, it does not end in a dot, and
      its labels just fill the buffer. */
  predicate JustFills(t: seq<Entry>, j: nat, name: seq<byte>, room: nat) {
    NoneKnown(t, name) && ShortLabels(name) && name != [] && name[|name| - 1] != DOT && j + |name| + 1 == room
  }

  lemma RememberedLonger(t: seq<Entry>, name: seq<byte>, pos: nat, other: seq<byte>)
    requires |other| < |name|
    ensures NoneKnown(Remembered(t, name, pos), other) <==> NoneKnown(t, other)
    ensures Lookup(Remembered(t, name, pos), other).Some? <==> Lookup(t, other).Some?
    decreases |other|
  {
    LookupMeans(t, other);
    LookupMeans(Remembered(t, name, pos), other);
    if FirstLabel(other) < |other| {
      RememberedLonger(t, name, pos, other[FirstLabel(other) + 1..]);
    }
  }

  lemma LookupMeans(t: seq<Entry>, name: seq<byte>)
    ensures Lookup(t, name).Some? <==> exists e :: e in t && e.0 == name
  {
  }

  /** The condition says the same of the name from its second label on. */
  lemma FillsOn(t: seq<Entry>, j: nat, name: seq<byte>, room: nat)
    requires Lookup(t, name).None? && FirstLabel(name) < |name| && FirstLabel(name) <= MAX_LABEL_LEN
    ensures var n := FirstLabel(name);
            && JustFills(Remembered(t, name, j), j + n + 1, name[n + 1..], room) <==> JustFills(t, j, name, room)
  {
    hide Lookup, Remembered, NoneKnown, ShortLabels, FirstLabel;
    var n := FirstLabel(name);
    RememberedLonger(t, name, j, name[n + 1..]);
    LabelsRest(t, name);
    EndsRest(name, n);
  }

  lemma LabelsRest(t: seq<Entry>, name: seq<byte>)
    requires Lookup(t, name).None? && FirstLabel(name) < |name| && FirstLabel(name) <= MAX_LABEL_LEN
    ensures NoneKnown(t, name) <==> NoneKnown(t, name[FirstLabel(name) + 1..])
    ensures ShortLabels(name) <==> ShortLabels(name[FirstLabel(name) + 1..])
  {
  }

  lemma EndsRest(name: seq<byte>, n: nat)
    requires n < |name| && name[n] == DOT
    ensures var rest := name[n + 1..]; (rest != [] && rest[|rest| - 1] != DOT) <==> name[|name| - 1] != DOT
  {
  }

  /** The zero goes past the end exactly then, and only by one byte. */
  lemma {:induction false} PastTheEnd(t: seq<Entry>, j: nat, name: seq<byte>, room: nat)
    ensures var w := Labels(t, j, name, room);
            && (w.Written? ==> j + |w.bytes| <= room + 1)
            && (w.Written? && j + |w.bytes| > room <==> JustFills(t, j, name, room))
    decreases |name|
  {
    hide Lookup, Remembered, Labels;
    var n := FirstLabel(name);
    if Lookup(t, name).Some? || n == |name| || n > MAX_LABEL_LEN || j + n + 1 > room {
      LabelsEnd(t, j, name, room);
      LastByteFills(t, j, name, room);
    } else {
      LabelsOn(t, j, name, room);
      FillsOn(t, j, name, room);
      PastTheEnd(Remembered(t, name, j), j + n + 1, name[n + 1..], room);
    }
  }

  lemma LastByteFills(t: seq<Entry>, j: nat, name: seq<byte>, room: nat)
    requires Lookup(t, name).Some? || FirstLabel(name) == |name| || FirstLabel(name) > MAX_LABEL_LEN
      || j + FirstLabel(name) + 1 > room
    ensures JustFills(t, j, name, room) <==>
      && Lookup(t, name).None? && FirstLabel(name) == |name| && 0 < |name| <= MAX_LABEL_LEN && j + |name| + 1 == room
  {
    var n := FirstLabel(name);
    if n == |name| && n > 0 {
      assert name[n - 1] != DOT;
    }
  }

  /** Such a call: one letter for two bytes of room is stored as three. */
  lemma OnePastTheEnd()
    ensures Labels([], 0, [97], 2) == Written([1, 97, 0], [([97], 0)])
    ensures JustFills([], 0, [97], 2)
  {
    assert FirstLabel([97]) == 1;
    assert [97][..1] == [97];
  }

  // ----- the code -----

  class LabelTable {
    var labels: seq<Entry>

    /** dnslabel_table_init. */
    constructor ()
      ensures labels == []
    {
      labels := [];
    }

    /** dnslabel_table_get_pos. */
    method GetPos(text: seq<byte>) returns (r: Option<nat>)
      ensures r == Lookup(labels, text)
    {
      var i := 0;
      while i < |labels|
        invariant 0 <= i <= |labels|
        invariant Lookup(labels, text) == Lookup(labels[i..], text)
      {
        if labels[i].0 == text {
          return Some(labels[i].1);
        }
        assert labels[i..][1..] == labels[i + 1..];
        i := i + 1;
      }
      r := None;
    }

    /** dnslabel_table_add: a full table stays as it is. */
    method Add(text: seq<byte>, pos: nat) returns (ok: bool)
      modifies this
      ensures ok <==> |old(labels)| != MAX_LABELS
      ensures labels == Remembered(old(labels), text, pos)
      ensures labels == if ok then old(labels) + [(text, pos)] else old(labels)
    {
      if |labels| == MAX_LABELS {
        return false;
      }
      labels := labels + [(text, pos)];
      ok := true;
    }
  }

  lemma OntoOnto(a: seq<byte>, b: seq<byte>, rest: Outcome)
    ensures Onto(a, Onto(b, rest)) == Onto(a + b, rest)
  {
    if rest.Written? {
      assert a + (b + rest.bytes) == a + b + rest.bytes;
    }
  }

  /** buf[j++] = length; memcpy(buf + j, start, length). */
  method StoreLabel(buf: array<byte>, j: nat, text: seq<byte>) returns (j': nat)
    requires |text| <= MAX_LABEL_LEN && j + 1 + |text| <= buf.Length
    modifies buf
    ensures j' == j + 1 + |text| && buf[..j'] == old(buf[..j]) + ([|text| as byte] + text)
  {
    buf[j] := |text| as byte;
    var k := 0;
    while k < |text|
      invariant 0 <= k <= |text|
      invariant buf[..j + 1 + k] == old(buf[..j]) + ([|text| as byte] + text[..k])
    {
      buf[j + 1 + k] := text[k];
      assert buf[..j + 1 + k + 1] == buf[..j + 1 + k] + [text[k]];
      k := k + 1;
    }
    assert text[..k] == text;
    j' := j + 1 + |text|;
  }

  /** The last label, then a zero unless the byte before is one. */
  method StoreLast(buf: array<byte>, j: nat, text: seq<byte>) returns (r: nat)
    requires |text| <= MAX_LABEL_LEN && j + |Final(text)| <= buf.Length
    requires forall i :: 0 <= i < |text| ==> text[i] != 0
    modifies buf
    ensures r == j + |Final(text)| <= buf.Length && buf[..r] == old(buf[..j]) + Final(text)
    ensures buf[..j] == old(buf[..j])
  {
    hide Final;
    ghost var packet := buf[..j];
    FinalIs(text);
    r := StoreLabel(buf, j, text);
    LabelLast(packet, text, buf[..r]);
    Kept(packet, [|text| as byte] + text, buf[..], r);
    if buf[r - 1] != 0 {
      buf[r] := 0;
      ZeroAdded(packet, [|text| as byte] + text, buf[..], r);
      r := r + 1;
    }
  }

  lemma FinalIs(text: seq<byte>)
    requires |text| <= MAX_LABEL_LEN
    ensures Final(text) == [|text| as byte] + text + if text == [] then [] else [0]
  {
  }

  /** The byte before the end is a zero just when the label is empty. */
  lemma LabelLast(packet: seq<byte>, text: seq<byte>, buf: seq<byte>)
    requires |text| <= MAX_LABEL_LEN && buf == packet + ([|text| as byte] + text)
    requires forall i :: 0 <= i < |text| ==> text[i] != 0
    ensures buf[|buf| - 1] != 0 <==> text != []
  {
    if text != [] {
      assert buf[|buf| - 1] == text[|text| - 1];
    }
  }

  lemma ZeroAdded(packet: seq<byte>, here: seq<byte>, buf: seq<byte>, r: nat)
    requires r < |buf| && buf[..r] == packet + here && buf[r] == 0 && r == |packet| + |here|
    ensures buf[..r + 1] == packet + (here + [0]) && buf[..|packet|] == packet
  {
    assert buf[..r + 1] == buf[..r] + [0];
    Assoc(packet, here, [0]);
    Kept(packet, here, buf, r);
  }

  /** APPEND16(ref | 0xc000). */
  method StorePointer(buf: array<byte>, j: nat, pos: nat)
    requires j + 2 <= buf.Length
    modifies buf
    ensures buf[..j + 2] == old(buf[..j]) + Pair(pos) && buf[..j] == old(buf[..j])
  {
    var x := PointerTo(pos);
    buf[j], buf[j + 1] := x.0, x.1;
  }

  /** The call's outcome is `o`: on success the packet grew by the bytes. */
  ghost predicate Returns(o: Outcome, packet: seq<byte>, r: int, buf: seq<byte>) {
    match o
    case Written(bytes, t) => r == |packet| + |bytes| <= |buf| && buf[..r] == packet + bytes
    case LabelTooLong => r == -1
    case NoRoom => r == -2
  }

  lemma ReturnsEnd(goal: Outcome, packet: seq<byte>, done: seq<byte>, last: Outcome, r: int, buf: seq<byte>)
    requires goal == Onto(done, last)
    requires last.NoRoom? ==> r == -2
    requires last.LabelTooLong? ==> r == -1
    requires last.Written? ==> r == |packet + done| + |last.bytes| <= |buf| && buf[..r] == packet + done + last.bytes
    ensures Returns(goal, packet, r, buf)
    ensures goal.Written? <==> last.Written?
    ensures last.Written? ==> goal.table == last.table
  {
    if last.Written? {
      Assoc(packet, done, last.bytes);
    }
  }

  /** What a table holds; a call without one finds nothing. */
  function Held(table: LabelTable?): seq<Entry>
    reads table
  {
    if table == null then [] else table.labels
  }

  /** No table, no entry. */
  lemma {:induction false} NothingKnown(name: seq<byte>)
    ensures NoneKnown([], name)
    decreases |name|
  {
    if FirstLabel(name) < |name| {
      NothingKnown(name[FirstLabel(name) + 1..]);
    }
  }

  /** The next label of a name of which nothing is known, once the name itself is remembered. */
  lemma StillNoneKnown(t: seq<Entry>, name: seq<byte>, pos: nat)
    requires NoneKnown(t, name) && FirstLabel(name) < |name|
    ensures NoneKnown(Remembered(t, name, pos), name[FirstLabel(name) + 1..])
  {
    hide Lookup, Remembered;
    RememberedLonger(t, name, pos, name[FirstLabel(name) + 1..]);
  }

  /** The lookup, which is left out without a table; t is what a table would hold. */
  method FindLabel(table: LabelTable?, name: seq<byte>, ghost t: seq<Entry>) returns (known: Option<nat>)
    requires if table != null then t == table.labels else Lookup(t, name).None?
    ensures known == Lookup(t, name)
  {
    known := None;
    if table != null {
      known := table.GetPos(name);
    }
  }

  method RememberLabel(table: LabelTable?, name: seq<byte>, pos: nat)
    modifies table
    ensures table != null ==> table.labels == Remembered(old(table.labels), name, pos)
  {
    if table != null {
      var _ := table.Add(name, pos);
    }
  }

  /** dnsname_to_labels; room is buf_len, and the table may be missing. The terminating zero is stored without comparing
      j with buf_len: the one case in which it falls past the end needs a longer array. A C string holds no NUL. */
  method DnsnameToLabels(buf: array<byte>, room: nat, start: nat, text: seq<byte>, table: LabelTable?) returns (r: int)
    requires start <= room <= buf.Length
    requires room == buf.Length && |text| <= MAX_NAME_LEN ==> !JustFills(Held(table), start, text, room)
    requires forall i :: 0 <= i < |text| ==> text[i] != 0
    modifies buf, table
    ensures buf[..start] == old(buf[..start])
    ensures |text| > MAX_NAME_LEN ==> r == -2 && Held(table) == old(Held(table)) && buf[..] == old(buf[..])
    ensures |text| <= MAX_NAME_LEN ==>
      Returns(Labels(old(Held(table)), start, text, room), old(buf[..start]), r, buf[..])
    ensures |text| <= MAX_NAME_LEN && table != null && Labels(old(table.labels), start, text, room).Written? ==>
      table.labels == Labels(old(table.labels), start, text, room).table
  {
    hide Labels, Lookup, Remembered, Returns, Onto, Final, Pair, JustFills, NoneKnown, FirstLabel;
    if |text| > MAX_NAME_LEN {
      return -2;
    }
    var name, j := text, start;
    ghost var packet, t := buf[..start], Held(table);
    ghost var done: seq<byte> := [];
    ghost var goal := Labels(t, start, text, room);
    OntoNothing(goal);
    NothingKnown(name);
    while true
      invariant start <= j <= room && buf[..j] == packet + done
      invariant forall i :: 0 <= i < |name| ==> name[i] != 0
      invariant goal == Onto(done, Labels(t, j, name, room))
      invariant room == buf.Length ==> !JustFills(t, j, name, room)
      invariant if table != null then t == table.labels else NoneKnown(t, name)
      decreases |name|
    {
      ghost var last := Labels(t, j, name, room);
      if table == null {
        NotKnown(t, name);
      }
      var known := FindLabel(table, name, t);
      var n := FirstLabel(name);
      if known.Some? {
        LabelsEnd(t, j, name, room);
        if j + 2 > room {
          r := -2;
        } else {
          StorePointer(buf, j, known.value);
          r := j + 2;
        }
        ReturnsEnd(goal, packet, done, last, r, buf[..]);
        Kept(packet, done, buf[..], j);
        return;
      }
      if n > MAX_LABEL_LEN || j + n + 1 > room || n == |name| {
        LabelsEnd(t, j, name, room);
        if n > MAX_LABEL_LEN {
          r := -1;
        } else if j + n + 1 > room {
          r := -2;
        } else {
          LastByteFills(t, j, name, room);
          FinalSize(name[..n]);
          RememberLabel(table, name, j);
          r := StoreLast(buf, j, name[..n]);
        }
        ReturnsEnd(goal, packet, done, last, r, buf[..]);
        Kept(packet, done, buf[..], j);
        return;
      }
      LabelsOn(t, j, name, room);
      FillsOn(t, j, name, room);
      if table == null {
        StillNoneKnown(t, name, j);
      }
      ghost var here := [n as byte] + name[..n];
      RememberLabel(table, name, j);
      t := Remembered(t, name, j);
      OntoOnto(done, here, Labels(t, j + n + 1, name[n + 1..], room));
      j := StoreLabel(buf, j, name[..n]);
      Assoc(packet, done, here);
      done := done + here;
      name := name[n + 1..];
    }
  }

  lemma Kept(packet: seq<byte>, done: seq<byte>, buf: seq<byte>, j: nat)
    requires |packet| <= j <= |buf| && buf[..j] == packet + done
    ensures buf[..|packet|] == packet
  {
    assert buf[..|packet|] == buf[..j][..|packet|];
  }

  lemma NotKnown(t: seq<Entry>, name: seq<byte>)
    requires NoneKnown(t, name)
    ensures Lookup(t, name).None?
  {
  }

  lemma FinalSize(text: seq<byte>)
    requires |text| <= MAX_LABEL_LEN
    ensures |Final(text)| == if text == [] then 1 else |text| + 2
  {
  }

  lemma OntoNothing(o: Outcome)
    ensures Onto([], o) == o
  {
  }

  // ----- a packet with many names -----

  /** A name, and what is written after it: types, lifetimes, record data. */
  datatype Item = Item(name: seq<byte>, after: seq<byte>)

  /** Where a name was written. */
  datatype Span = Span(start: nat, end: nat)

  function Needed(items: seq<Item>): nat {
    if items == [] then 0 else |items[0].name| + 2 + |items[0].after| + Needed(items[1..])
  }

  lemma {:induction false} NoNul(name: seq<byte>)
    requires GoodLabels(name)
    ensures forall i :: 0 <= i < |name| ==> name[i] != 0
    decreases |name|
  {
    var n := FirstLabel(name);
    if n < |name| {
      NoNul(name[n + 1..]);
      assert forall i :: n < i < |name| ==> name[i] == name[n + 1..][i - n - 1];
    }
  }

  /** The first |spans| names stand in b where the spans say. */
  ghost predicate Readable(b: seq<byte>, spans: seq<Span>, items: seq<Item>) {
    && |spans| <= |items|
    && forall i :: 0 <= i < |spans| ==>
         var p := spans[i].start;
         && p <= |b| && Spells(b, p, items[i].name, p) && EndOf(b, p) == spans[i].end <= |b|
         && spans[i].end + |items[i].after| <= |b|
         && b[spans[i].end..spans[i].end + |items[i].after|] == items[i].after
  }

  /** Bytes that are appended change neither what was written nor what the table says. */
  lemma MoreReadable(b: seq<byte>, spans: seq<Span>, items: seq<Item>, more: seq<byte>)
    requires Readable(b, spans, items)
    ensures Readable(b + more, spans, items)
  {
    hide Spells, SpellsHere, EndOf;
    forall i | 0 <= i < |spans|
      ensures var p, q := spans[i].start, spans[i].end + |items[i].after|;
        && p <= |b + more| && Spells(b + more, p, items[i].name, p) && EndOf(b + more, p) == spans[i].end
        && q <= |b + more| && (b + more)[spans[i].end..q] == items[i].after
    {
      SpellsMore(b, spans[i].start, items[i].name, spans[i].start, more, spans[i].start);
      EndMore(b, spans[i].start, items[i].name, spans[i].start, more);
      SameSlice(b, more, spans[i].end, spans[i].end + |items[i].after|);
    }
  }

  lemma SameSlice(b: seq<byte>, more: seq<byte>, lo: nat, hi: nat)
    requires lo <= hi <= |b|
    ensures (b + more)[lo..hi] == b[lo..hi]
  {
  }

  lemma MoreTable(b: seq<byte>, t: seq<Entry>, more: seq<byte>)
    requires TableOk(b, t)
    ensures TableOk(b + more, t)
  {
    forall e | e in t
      ensures e.1 < |b + more| && SpellsHere(b + more, e.1, e.0, e.1)
    {
      HereMore(b, e.1, e.0, e.1, more, e.1);
    }
  }

  lemma OneMoreReadable(b: seq<byte>, t: seq<Entry>, spans: seq<Span>, items: seq<Item>, room: nat)
    requires Readable(b, spans, items) && TableOk(b, t) && |b| <= JUMP_LIMIT && |spans| < |items|
    requires ValidName(items[|spans|].name) && Labels(t, |b|, items[|spans|].name, room).Written?
    ensures var w, after := Labels(t, |b|, items[|spans|].name, room), items[|spans|].after;
      && Readable(b + w.bytes + after, spans + [Span(|b|, |b + w.bytes|)], items)
      && TableOk(b + w.bytes + after, w.table)
  {
    hide Spells, SpellsHere, EndOf, Labels, ParseFrom, TableOk;
    var item := items[|spans|];
    var w := Labels(t, |b|, item.name, room);
    var b1 := b + w.bytes;
    var b2 := b1 + item.after;
    OneName(b, t, item.name, room, MAX_NAME_LEN + 1);
    MoreTable(b1, w.table, item.after);
    Assoc(b, w.bytes, item.after);
    MoreReadable(b, spans, items, w.bytes + item.after);
    SpellsMore(b1, |b|, item.name, |b|, item.after, |b|);
    EndMore(b1, |b|, item.name, |b|, item.after);
    assert b2[|b1|..|b1| + |item.after|] == item.after;
  }

  /** memcpy of the bytes after a name. */
  method StoreBytes(buf: array<byte>, j: nat, data: seq<byte>)
    requires j + |data| <= buf.Length
    modifies buf
    ensures buf[..j + |data|] == old(buf[..j]) + data
  {
    var k := 0;
    while k < |data|
      invariant 0 <= k <= |data|
      invariant buf[..j + k] == old(buf[..j]) + data[..k]
    {
      buf[j + k] := data[k];
      assert buf[..j + k + 1] == buf[..j + k] + [data[k]];
      k := k + 1;
    }
    assert data[..k] == data;
  }

  /** Where the next name goes. */
  function NextStart(spans: seq<Span>, items: seq<Item>, start: nat): nat
    requires |spans| <= |items|
  {
    if spans == [] then start else spans[|spans| - 1].end + |items[|spans| - 1].after|
  }

  /** The names and what follows them stand one after the other. */
  ghost predicate InARow(spans: seq<Span>, items: seq<Item>, start: nat) {
    |spans| <= |items| && forall i :: 0 <= i < |spans| ==> spans[i].start == NextStart(spans[..i], items, start)
  }

  lemma OneMoreInARow(spans: seq<Span>, items: seq<Item>, start: nat, end: nat)
    requires InARow(spans, items, start) && |spans| < |items|
    ensures InARow(spans + [Span(NextStart(spans, items, start), end)], items, start)
  {
    var more := spans + [Span(NextStart(spans, items, start), end)];
    assert forall i :: 0 <= i <= |spans| ==> more[..i] == spans[..i];
    assert spans[..|spans|] == spans;
  }

  /** What name_parse makes of each name in b. */
  ghost predicate ReadsBack(b: seq<byte>, spans: seq<Span>, items: seq<Item>) {
    |spans| == |items| && forall i :: 0 <= i < |items| ==>
      ParseFrom(b, spans[i].start, [], 0, None, MAX_NAME_LEN + 1) == Some((items[i].name, spans[i].end))
  }

  lemma AllReadBack(b: seq<byte>, spans: seq<Span>, items: seq<Item>)
    requires Readable(b, spans, items) && |spans| == |items| && forall i :: 0 <= i < |items| ==>
      ValidName(items[i].name)
    ensures ReadsBack(b, spans, items)
  {
    hide ParseFrom, Spells, EndOf, GoodLabels;
    forall i | 0 <= i < |items|
      ensures ParseFrom(b, spans[i].start, [], 0, None, MAX_NAME_LEN + 1) == Some((items[i].name, spans[i].end))
    {
      StillReads(b, spans[i].start, items[i].name, [], MAX_NAME_LEN + 1);
      assert b + [] == b;
    }
  }

  /** One name and the bytes after it. */
  method WriteItem(buf: array<byte>, room: nat, j: nat, item: Item, table: LabelTable, ghost spans: seq<Span>,
                   ghost items: seq<Item>)
      returns (r: nat)
    requires j + |item.name| + 2 + |item.after| <= room <= buf.Length && room <= JUMP_LIMIT && ValidName(item.name)
    requires TableOk(buf[..j], table.labels) && Readable(buf[..j], spans, items) && |spans| < |items|
    requires item == items[|spans|]
    modifies buf, table
    ensures r <= j + |item.name| + 2
    ensures TableOk(buf[..r + |item.after|], table.labels)
    ensures Readable(buf[..r + |item.after|], spans + [Span(j, r)], items)
  {
    hide Labels, TableOk, Readable, JustFills, GoodLabels, Returns;
    ghost var b, t := buf[..j], table.labels;
    Fits(t, j, item.name, room);
    OneMoreReadable(b, t, spans, items, room);
    NoNul(item.name);
    RoomLeft(t, j, item.name, room);
    var res := DnsnameToLabels(buf, room, j, item.name, table);
    ReturnsBytes(Labels(t, j, item.name, room), b, res, buf[..]);
    r := res;
    StoreBytes(buf, r, item.after);
  }

  lemma ReturnsBytes(o: Outcome, packet: seq<byte>, r: int, buf: seq<byte>)
    requires Returns(o, packet, r, buf) && o.Written?
    ensures 0 <= r == |packet| + |o.bytes| <= |buf| && buf[..r] == packet + o.bytes
  {
  }

  /** Writing any valid names through one table, each with any bytes after it, and reading each of them back. */
  method WriteNames(buf: array<byte>, room: nat, start: nat, items: seq<Item>) returns (spans: seq<Span>, end: nat)
    requires start + Needed(items) <= room <= buf.Length && room <= JUMP_LIMIT
    requires forall i :: 0 <= i < |items| ==> ValidName(items[i].name)
    modifies buf
    ensures |spans| == |items| && InARow(spans, items, start) && end == NextStart(spans, items, start) <= room
    ensures ReadsBack(buf[..end], spans, items)
    ensures forall i :: 0 <= i < |items| ==>
      spans[i].end + |items[i].after| <= end && buf[spans[i].end..spans[i].end + |items[i].after|] == items[i].after
  {
    hide TableOk, Readable, GoodLabels, InARow;
    var table := new LabelTable();
    spans := [];
    var j, k := start, 0;
    EmptyTable(buf[..j], items, start);
    while k < |items|
      invariant 0 <= k <= |items| && |spans| == k && fresh(table) && j + Needed(items[k..]) <= room
      invariant j == NextStart(spans, items, start) && InARow(spans, items, start)
      invariant TableOk(buf[..j], table.labels) && Readable(buf[..j], spans, items)
    {
      assert items[k..][1..] == items[k + 1..] && items[k..][0] == items[k];
      var r := WriteItem(buf, room, j, items[k], table, spans, items);
      OneMoreInARow(spans, items, start, r);
      spans := spans + [Span(j, r)];
      j := r + |items[k].after|;
      k := k + 1;
    }
    end := j;
    AllReadBack(buf[..j], spans, items);
    AfterNames(buf[..j], spans, items);
  }

  lemma AfterNames(b: seq<byte>, spans: seq<Span>, items: seq<Item>)
    requires Readable(b, spans, items)
    ensures forall i :: 0 <= i < |spans| ==>
      spans[i].end + |items[i].after| <= |b| && b[spans[i].end..spans[i].end + |items[i].after|] == items[i].after
  {
  }

  lemma RoomLeft(t: seq<Entry>, j: nat, name: seq<byte>, room: nat)
    requires j + |name| + 2 <= room
    ensures !JustFills(t, j, name, room)
  {
  }

  lemma EmptyTable(b: seq<byte>, items: seq<Item>, start: nat)
    ensures TableOk(b, []) && Readable(b, [], items) && InARow([], items, start)
  {
  }
}
