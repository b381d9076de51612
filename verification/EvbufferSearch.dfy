/** Searching an evbuffer for a byte string or for the end of a line (buffer.c). */
module EvbufferSearch {
  import opened ByteSeq
  import opened Chains
  import opened Common
  import opened Evbuffers
  import opened EvbufferPtrs

  /** `what` stands at position p of `s`. */
  ghost predicate MatchAt(s: seq<byte>, what: seq<byte>, p: int) {
    0 <= p && p + |what| <= |s| && s[p..p + |what|] == what
  }

  /** memchr: the first place a byte stands at, or -1. */
  method Memchr(s: seq<byte>, c: byte) returns (i: int)
    ensures -1 <= i < |s|
    ensures i >= 0 ==> s[i] == c && forall j :: 0 <= j < i ==> s[j] != c
    ensures i < 0 ==> forall j :: 0 <= j < |s| ==> s[j] != c
  {
    i := 0;
    while i < |s|
      invariant 0 <= i <= |s| && forall j :: 0 <= j < i ==> s[j] != c
    {
      if s[i] == c {
        return;
      }
      i := i + 1;
    }
    i := -1;
  }

  /** One more piece agrees just when the prefix that ends with it does. */
  lemma PrefixStep(s: seq<byte>, what: seq<byte>, p: nat, done: nat, n: nat)
    requires done + n <= |what| && p + |what| <= |s| && s[p..p + done] == what[..done]
    ensures s[p + done..p + done + n] == what[done..done + n] <==> s[p..p + done + n] == what[..done + n]
    ensures s[p..p + |what|] == what ==> s[p..p + done + n] == what[..done + n]
  {
    var t, w := s[p..p + done + n], what[..done + n];
    assert t == t[..done] + t[done..] && w == w[..done] + w[done..];
    assert t[..done] == s[p..p + done] && t[done..] == s[p + done..p + done + n];
    assert w[..done] == what[..done] && w[done..] == what[done..done + n];
    assert s[p..p + |what|][..done + n] == t;
  }

  /** evbuffer_ptr_memcmp: compares across chains; true stands for a result of 0. */
  method PtrMemcmp(cs: seq<Chain>, total: nat, start: nat, startq: nat, pos: nat, what: seq<byte>) returns (same: bool)
    requires Spine(cs) && total == |Flatten(cs)| && Cursor(cs, start, startq, pos)
    ensures same <==> MatchAt(Flatten(cs), what, pos)
  {
    hide Flatten, Chain.Data, Before;
    if pos + |what| > total {
      return false;
    }
    BeforeEnds(cs);
    var i: nat, q: nat, done: nat := start, startq, 0;
    while done < |what| && i < |cs|
      invariant done <= |what| && (done < |what| ==> Cursor(cs, i, q, pos + done))
      invariant Flatten(cs)[pos..pos + done] == what[..done]
      decreases |cs| - i
    {
      var n := if |what| - done + q > cs[i].off then cs[i].off - q else |what| - done;
      SliceOf(cs, i, q, n);
      BeforeNext(cs, i);
      PrefixStep(Flatten(cs), what, pos, done, n);
      if cs[i].Data()[q..q + n] != what[done..done + n] {
        return false;
      }
      done, i, q := done + n, i + 1, 0;
    }
    same := true;
  }

  /** No match starts in the stretch from `lo` to `hi`. */
  ghost predicate NoMatch(s: seq<byte>, what: seq<byte>, lo: int, hi: int) {
    forall p :: lo <= p < hi ==> !MatchAt(s, what, p)
  }

  lemma ByteOf(cs: seq<Chain>, i: nat, q: nat)
    requires i < |cs| && cs[i].Ok() && q < cs[i].off
    ensures Before(cs, i) + q < |Flatten(cs)| && Flatten(cs)[Before(cs, i) + q] == cs[i].Data()[q]
  {
    hide Flatten, Chain.Data, Before;
    SliceOf(cs, i, q, 1);
    var b := Before(cs, i) + q;
    assert Flatten(cs)[b..b + 1][0] == cs[i].Data()[q..q + 1][0];
  }

  lemma FirstByteDiffers(s: seq<byte>, what: seq<byte>, p: nat)
    requires p < |s| && what != [] && s[p] != what[0]
    ensures !MatchAt(s, what, p)
  {
    assert p + |what| <= |s| ==> s[p..p + |what|][0] == s[p];
  }

  /** A stretch without the first byte has no match. */
  lemma NoFirstByte(cs: seq<Chain>, what: seq<byte>, i: nat, q: nat, n: nat)
    requires i < |cs| && cs[i].Ok() && q + n <= cs[i].off && what != []
    requires forall j :: 0 <= j < n ==> cs[i].Data()[q..][j] != what[0]
    ensures NoMatch(Flatten(cs), what, Before(cs, i) + q, Before(cs, i) + q + n)
  {
    hide Flatten, Chain.Data, Before, MatchAt;
    var b := Before(cs, i);
    forall p | b + q <= p < b + q + n
      ensures !MatchAt(Flatten(cs), what, p)
    {
      ByteOf(cs, i, p - b);
      assert cs[i].Data()[q..][p - b - q] == cs[i].Data()[p - b];
      FirstByteDiffers(Flatten(cs), what, p);
    }
  }

  /** The end of the range a search may reach. */
  ghost function Limit(cs: seq<Chain>, end: Option<Ptr>): int {
    if end.Some? then end.value.pos else |Flatten(cs)|
  }

  /** evbuffer_search_range: the first match at or after `start` that ends by `end`. */
  method SearchRange(buf: Evbuffer, what: seq<byte>, start: Option<Ptr>, end: Option<Ptr>) returns (r: Ptr)
    requires buf.Valid()
    requires start.Some? ==> PtrOk(buf.chains, start.value)
    requires end.Some? ==> PtrOk(buf.chains, end.value)
    ensures var from := if start.Some? then start.value.pos else 0;
      if |what| == 0 || |what| > SSIZE_MAX then
        r == if start.Some? then start.value else Ptr(0, AddrAt(buf.chains, 0), 0)
      else if r == NOT_FOUND then
        NoMatch(buf.Bytes(), what, from, Limit(buf.chains, end) - |what| + 1)
      else
        && PtrOk(buf.chains, r) && from <= r.pos && r.pos + |what| <= Limit(buf.chains, end)
        && MatchAt(buf.Bytes(), what, r.pos) && NoMatch(buf.Bytes(), what, from, r.pos)
  {
    hide Flatten, Chain.Data, Before, Good, Spine, NoMatch, MatchAt;
    ValidChains(buf);
    var cs := buf.chains;
    BeforeEnds(cs);
    var pos: int, i: nat, q: nat := 0, 0, 0;
    if start.Some? {
      pos, i, q := start.value.pos, At(cs, start.value.chain), start.value.posInChain;
    }
    if |what| == 0 || |what| > SSIZE_MAX {
      return if start.Some? then start.value else Ptr(0, AddrAt(cs, 0), 0);
    }
    ghost var from := pos;
    var lastChain := if end.Some? then end.value.chain else null;
    NoMatchEmpty(buf.Bytes(), what, pos);
    while i < |cs|
      invariant Cursor(cs, i, q, pos) && NoMatch(buf.Bytes(), what, from, pos) && from <= pos
      decreases |cs| - i, if i < |cs| then cs[i].off - q else 0
    {
      var n := Memchr(cs[i].Data()[q..], what[0]);
      BeforeNext(cs, i);
      if n >= 0 {
        NoFirstByte(cs, what, i, q, n);
        NoMatchJoin(buf.Bytes(), what, from, pos, pos + n);
        pos, q := pos + n, q + n;
        var same := PtrMemcmp(cs, buf.totalLen, i, q, pos, what);
        if same {
          if end.Some? && pos + |what| > end.value.pos {
            NoMatchShrink(buf.Bytes(), what, from, pos, Limit(cs, end) - |what| + 1);
            return NOT_FOUND;
          }
          AtAddrAt(cs, i);
          MatchInside(buf.Bytes(), what, pos);
          return Ptr(pos, cs[i].addr, q);
        }
        NoMatchMore(buf.Bytes(), what, from, pos);
        pos, q := pos + 1, q + 1;
        if q == cs[i].off {
          i, q := i + 1, 0;
        }
      } else {
        NoFirstByte(cs, what, i, q, cs[i].off - q);
        NoMatchJoin(buf.Bytes(), what, from, pos, pos + (cs[i].off - q));
        if cs[i].addr == lastChain {
          EndInside(cs, end.value, i);
          NoMatchShrink(buf.Bytes(), what, from, pos + (cs[i].off - q), Limit(cs, end) - |what| + 1);
          return NOT_FOUND;
        }
        pos := pos + (cs[i].off - q);
        i, q := i + 1, 0;
      }
    }
    if end.Some? {
      CursorBound(cs, At(cs, end.value.chain), end.value.posInChain, end.value.pos);
    }
    NoMatchShrink(buf.Bytes(), what, from, pos, Limit(cs, end) - |what| + 1);
    r := NOT_FOUND;
  }

  lemma NoMatchEmpty(s: seq<byte>, what: seq<byte>, p: int)
    ensures NoMatch(s, what, p, p)
  {
  }

  lemma NoMatchJoin(s: seq<byte>, what: seq<byte>, a: int, b: int, c: int)
    requires NoMatch(s, what, a, b) && NoMatch(s, what, b, c)
    ensures NoMatch(s, what, a, c)
  {
  }

  lemma NoMatchMore(s: seq<byte>, what: seq<byte>, a: int, b: int)
    requires NoMatch(s, what, a, b) && !MatchAt(s, what, b)
    ensures NoMatch(s, what, a, b + 1)
  {
  }

  lemma NoMatchShrink(s: seq<byte>, what: seq<byte>, a: int, b: int, c: int)
    requires NoMatch(s, what, a, b) && c <= b
    ensures NoMatch(s, what, a, c)
  {
  }

  lemma MatchInside(s: seq<byte>, what: seq<byte>, p: int)
    requires MatchAt(s, what, p)
    ensures p + |what| <= |s|
  {
  }

  /** A pointer into chain i stands before the end of that chain. */
  lemma EndInside(cs: seq<Chain>, p: Ptr, i: nat)
    requires Spine(cs) && PtrOk(cs, p) && i < |cs| && p.chain == cs[i].addr
    ensures p.pos <= Before(cs, i) + cs[i].off
  {
    AtAddrAt(cs, i);
  }

  // ----- the end of a line -----

  const CR: byte := 13
  const LF: byte := 10

  datatype EolStyle = Any | Crlf | CrlfStrict | Lf | Nul

  predicate IsEol(b: byte) {
    b == CR || b == LF
  }

  /** Which bytes a scan stops at. */
  datatype Stop = AtByte(b: byte) | AtEol {
    predicate Is(x: byte) {
      match this
      case AtByte(b) => x == b
      case AtEol => IsEol(x)
    }
  }

  /** No byte from `from` up to `p` stops the scan. */
  ghost predicate NoStop(s: seq<byte>, stop: Stop, from: int, p: int) {
    forall j :: 0 <= from <= j < p && j < |s| ==> !stop.Is(s[j])
  }

  /** Position p is the first at or after `from` that stops the scan. */
  ghost predicate FirstAt(s: seq<byte>, stop: Stop, from: int, p: int) {
    0 <= from <= p < |s| && stop.Is(s[p]) && NoStop(s, stop, from, p)
  }

  /** What a line of each style is: it ends at `eol`, and its terminator is `len` bytes long. */
  ghost predicate EolAt(s: seq<byte>, from: int, style: EolStyle, eol: int, len: int) {
    && 0 <= from <= eol && 0 < len && eol + len <= |s|
    && match style
       case Any =>
         && FirstAt(s, AtEol, from, eol)
         && (forall j :: eol <= j < eol + len ==> IsEol(s[j]))
         && (eol + len < |s| ==> !IsEol(s[eol + len]))
       case CrlfStrict => len == 2 && MatchAt(s, [CR, LF], eol) && NoMatch(s, [CR, LF], from, eol)
       case Crlf =>
         && FirstAt(s, AtByte(LF), from, eol + len - 1)
         && len == (if eol + len - 1 > from && s[eol + len - 2] == CR then 2 else 1)
       case Lf => len == 1 && FirstAt(s, AtByte(LF), from, eol)
       case Nul => len == 1 && FirstAt(s, AtByte(0), from, eol)
  }

  /** No line of the style ends at or after `from`. */
  ghost predicate NoEol(s: seq<byte>, from: int, style: EolStyle) {
    match style
    case Any => NoStop(s, AtEol, from, |s|)
    case CrlfStrict => NoMatch(s, [CR, LF], from, |s| - 1)
    case Crlf => NoStop(s, AtByte(LF), from, |s|)
    case Lf => NoStop(s, AtByte(LF), from, |s|)
    case Nul => NoStop(s, AtByte(0), from, |s|)
  }

  /** There is only one line end of a style to be found. */
  lemma EolUnique(s: seq<byte>, from: int, style: EolStyle, e: int, n: int, e': int, n': int)
    requires EolAt(s, from, style, e, n) && EolAt(s, from, style, e', n')
    ensures e == e' && n == n'
  {
    match style
    case Any =>
      assert e == e';
    case CrlfStrict =>
    case Crlf =>
      assert e + n - 1 == e' + n' - 1;
    case Lf =>
    case Nul =>
  }

  lemma {:induction false} FirstStop(s: seq<byte>, stop: Stop, from: nat, hi: nat) returns (p: nat)
    requires from <= hi <= |s| && !NoStop(s, stop, from, hi)
    ensures FirstAt(s, stop, from, p) && p < hi
    decreases hi
  {
    if hi > from && !NoStop(s, stop, from, hi - 1) {
      p := FirstStop(s, stop, from, hi - 1);
    } else {
      p := hi - 1;
    }
  }

  lemma {:induction false} FirstMatch(s: seq<byte>, what: seq<byte>, from: nat, hi: int) returns (p: int)
    requires !NoMatch(s, what, from, hi)
    ensures from <= p < hi && MatchAt(s, what, p) && NoMatch(s, what, from, p)
    decreases hi - from
  {
    if !NoMatch(s, what, from, hi - 1) {
      p := FirstMatch(s, what, from, hi - 1);
    } else {
      p := hi - 1;
    }
  }

  lemma {:induction false} EolRun(s: seq<byte>, p: nat) returns (n: nat)
    requires p < |s| && IsEol(s[p])
    ensures 0 < n && p + n <= |s| && (forall j :: p <= j < p + n ==> IsEol(s[j])) && (p + n < |s| ==> !IsEol(s[p + n]))
    decreases |s| - p
  {
    if p + 1 < |s| && IsEol(s[p + 1]) {
      n := EolRun(s, p + 1);
      n := n + 1;
    } else {
      n := 1;
    }
  }

  /** evbuffer_readln finds a line just when there is one. */
  lemma NoEolMeansNone(s: seq<byte>, from: nat, style: EolStyle)
    requires from <= |s|
    ensures NoEol(s, from, style) <==> forall e, n :: !EolAt(s, from, style, e, n)
  {
    if !NoEol(s, from, style) {
      match style
      case Any =>
        var p := FirstStop(s, AtEol, from, |s|);
        var n := EolRun(s, p);
        assert EolAt(s, from, style, p, n);
      case CrlfStrict =>
        var p := FirstMatch(s, [CR, LF], from, |s| - 1);
        assert EolAt(s, from, style, p, 2);
      case Crlf =>
        var p := FirstStop(s, AtByte(LF), from, |s|);
        var n := if p > from && s[p - 1] == CR then 2 else 1;
        assert EolAt(s, from, style, p - n + 1, n);
      case Lf =>
        var p := FirstStop(s, AtByte(LF), from, |s|);
        assert EolAt(s, from, style, p, 1);
      case Nul =>
        var p := FirstStop(s, AtByte(0), from, |s|);
        assert EolAt(s, from, style, p, 1);
    }
  }

  const CHUNK_SZ: nat := 128

  /** find_eol_char: looks for CR and LF separately in stretches of 128 bytes. */
  method FindEolChar(s: seq<byte>) returns (i: int)
    ensures -1 <= i < |s|
    ensures i >= 0 ==> IsEol(s[i]) && forall j :: 0 <= j < i ==> !IsEol(s[j])
    ensures i < 0 ==> forall j :: 0 <= j < |s| ==> !IsEol(s[j])
  {
    var at := 0;
    while at < |s|
      invariant 0 <= at && forall j :: 0 <= j < at && j < |s| ==> !IsEol(s[j])
    {
      var end := if at + CHUNK_SZ < |s| then at + CHUNK_SZ else |s|;
      var chunk := s[at..end];
      assert forall j :: at <= j < end ==> s[j] == chunk[j - at];
      var cr := Memchr(chunk, CR);
      var lf := Memchr(chunk, LF);
      if cr >= 0 {
        if lf >= 0 && lf < cr {
          return at + lf;
        }
        return at + cr;
      } else if lf >= 0 {
        return at + lf;
      }
      at := at + CHUNK_SZ;
    }
    i := -1;
  }

  lemma ChainNoStop(cs: seq<Chain>, stop: Stop, i: nat, q: nat, n: nat, from: int)
    requires i < |cs| && cs[i].Ok() && q + n <= cs[i].off
    requires forall j :: 0 <= j < n ==> !stop.Is(cs[i].Data()[q..][j])
    requires NoStop(Flatten(cs), stop, from, Before(cs, i) + q)
    ensures NoStop(Flatten(cs), stop, from, Before(cs, i) + q + n)
  {
    hide Flatten, Chain.Data, Before;
    var b := Before(cs, i);
    forall j | 0 <= from <= j < b + q + n && j < |Flatten(cs)|
      ensures !stop.Is(Flatten(cs)[j])
    {
      if j >= b + q {
        ByteOf(cs, i, j - b);
        assert cs[i].Data()[q..][j - b - q] == cs[i].Data()[j - b];
      }
    }
  }

  /** evbuffer_strchr and evbuffer_find_eol_char: the first stopping byte at or after a cursor. */
  method Scan(cs: seq<Chain>, start: nat, startq: nat, from: nat, stop: Stop) returns (found: bool, r: Ptr)
    requires Spine(cs) && Cursor(cs, start, startq, from)
    ensures found ==> PtrOk(cs, r) && FirstAt(Flatten(cs), stop, from, r.pos)
    ensures !found ==> NoStop(Flatten(cs), stop, from, |Flatten(cs)|)
  {
    hide Flatten, Chain.Data, Before, NoStop;
    BeforeEnds(cs);
    NoStopEmpty(Flatten(cs), stop, from);
    var i: nat, q: nat, pos: nat := start, startq, from;
    while i < |cs|
      invariant Cursor(cs, i, q, pos) && from <= pos && NoStop(Flatten(cs), stop, from, pos)
      decreases |cs| - i
    {
      var n: int;
      if stop.AtEol? {
        n := FindEolChar(cs[i].Data()[q..]);
      } else {
        n := Memchr(cs[i].Data()[q..], stop.b);
      }
      if n >= 0 {
        ChainNoStop(cs, stop, i, q, n, from);
        ByteOf(cs, i, q + n);
        assert cs[i].Data()[q..][n] == cs[i].Data()[q + n];
        AtAddrAt(cs, i);
        return true, Ptr(pos + n, cs[i].addr, q + n);
      }
      ChainNoStop(cs, stop, i, q, cs[i].off - q, from);
      BeforeNext(cs, i);
      pos := pos + (cs[i].off - q);
      i, q := i + 1, 0;
    }
    found, r := false, NOT_FOUND;
  }

  lemma NoStopEmpty(s: seq<byte>, stop: Stop, from: int)
    ensures NoStop(s, stop, from, from)
  {
  }

  /** evbuffer_strspn over CR and LF: the length of the run of them at a cursor. */
  method SpanEol(cs: seq<Chain>, start: nat, startq: nat, ghost from: nat) returns (count: nat)
    requires Spine(cs) && Cursor(cs, start, startq, from)
    ensures from + count <= |Flatten(cs)|
    ensures forall j :: from <= j < from + count ==> IsEol(Flatten(cs)[j])
    ensures from + count < |Flatten(cs)| ==> !IsEol(Flatten(cs)[from + count])
  {
    hide Flatten, Chain.Data, Before;
    BeforeEnds(cs);
    count := 0;
    var i: nat, q: nat := start, startq;
    CursorBound(cs, i, q, from);
    while i < |cs|
      invariant from + count <= |Flatten(cs)| && Cursor(cs, i, q, from + count)
      invariant forall j :: from <= j < from + count ==> IsEol(Flatten(cs)[j])
      decreases |cs| - i, if i < |cs| then cs[i].off - q else 0
    {
      if q < cs[i].off {
        ByteOf(cs, i, q);
        if !IsEol(cs[i].Data()[q]) {
          return;
        }
        count, q := count + 1, q + 1;
      } else {
        BeforeNext(cs, i);
        i, q := i + 1, 0;
      }
    }
  }

  /** evbuffer_ptr_subtract by one, then evbuffer_getchr: the byte before a pointer, and where it is. */
  method StepBack(buf: Evbuffer, p: Ptr) returns (r: Ptr, b: byte)
    requires buf.Valid() && PtrOk(buf.chains, p) && p.pos > 0
    ensures PtrOk(buf.chains, r) && r.pos == p.pos - 1
    ensures r.pos < |buf.Bytes()| && b == buf.Bytes()[r.pos]
  {
    hide Flatten, Chain.Data, Before, Good, Spine;
    ValidChains(buf);
    CursorBound(buf.chains, At(buf.chains, p.chain), p.posInChain, p.pos);
    BeforeEnds(buf.chains);
    if p.chain != null && 1 <= p.posInChain {
      r := Ptr(p.pos - 1, p.chain, p.posInChain - 1);
    } else {
      var ok;
      ok, r := SetPtr(buf, p, p.pos - 1, PtrSet);
    }
    var i := At(buf.chains, r.chain);
    ByteOf(buf.chains, i, r.posInChain);
    b := buf.chains[i].Data()[r.posInChain];
  }

  /** evbuffer_search_eol. */
  method SearchEol(buf: Evbuffer, start: Option<Ptr>, style: EolStyle) returns (r: Ptr, len: nat)
    requires buf.Valid() && (start.Some? ==> PtrOk(buf.chains, start.value))
    ensures var from := if start.Some? then start.value.pos else 0;
      if r == NOT_FOUND then len == 0 && NoEol(buf.Bytes(), from, style)
      else PtrOk(buf.chains, r) && EolAt(buf.Bytes(), from, style, r.pos, len)
  {
    hide Flatten, Chain.Data, Before, Good, Spine, NoStop, NoMatch;
    ValidChains(buf);
    var cs := buf.chains;
    BeforeEnds(cs);
    var from: nat, i: nat, q: nat := 0, 0, 0;
    if start.Some? {
      CursorBound(cs, At(cs, start.value.chain), start.value.posInChain, start.value.pos);
      from, i, q := start.value.pos, At(cs, start.value.chain), start.value.posInChain;
    }
    var found;
    match style {
    case Any =>
      found, r := Scan(cs, i, q, from, AtEol);
      if found {
        len := SpanEol(cs, At(cs, r.chain), r.posInChain, r.pos);
        return;
      }
    case CrlfStrict =>
      r := SearchRange(buf, [CR, LF], start, None);
      len := if r == NOT_FOUND then 0 else 2;
      return;
    case Crlf =>
      found, r := Scan(cs, i, q, from, AtByte(LF));
      if found {
        len := 1;
        if r.pos != from {
          var r2, b := StepBack(buf, r);
          if b == CR {
            r, len := r2, 2;
          }
        }
        return;
      }
    case Lf =>
      found, r := Scan(cs, i, q, from, AtByte(LF));
      if found {
        len := 1;
        return;
      }
    case Nul =>
      found, r := Scan(cs, i, q, from, AtByte(0));
      if found {
        len := 1;
        return;
      }
    }
    r, len := NOT_FOUND, 0;
  }

  /** The callbacks hear of the line, unless it is empty, and then of its terminator. */
  function LineTold(t: Tally, callbacks: bool, deferred: bool, total: nat, eol: nat, len: nat): Tally
    requires eol <= total
  {
    Tell(if eol == 0 then t else Tell(t, callbacks, deferred, total, 0, eol), callbacks, deferred, total - eol, 0, len)
  }

  /** evbuffer_readln: takes one line and its terminator off the front. */
  method Readln(buf: Evbuffer, style: EolStyle) returns (line: Option<seq<byte>>)
    requires buf.Valid()
    modifies buf
    ensures buf.Valid() && (old(buf.GapFree()) ==> buf.GapFree())
    ensures buf.freezeStart == old(buf.freezeStart) && buf.freezeEnd == old(buf.freezeEnd)
    ensures Addrs(buf.chains) <= old(Addrs(buf.chains))
    ensures line == None ==> buf.Bytes() == old(buf.Bytes()) && (buf.freezeStart || NoEol(buf.Bytes(), 0, style))
    ensures line.Some? ==> !buf.freezeStart && exists eol, len ::
      && 0 <= eol && 0 <= len && eol + len <= |old(buf.Bytes())|
      && EolAt(old(buf.Bytes()), 0, style, eol, len)
      && line.value == old(buf.Bytes())[..eol]
      && buf.Bytes() == old(buf.Bytes())[eol + len..]
      && buf.Noted() == LineTold(old(buf.Noted()), buf.hasCallbacks, buf.deferredCbs, old(buf.totalLen), eol, len)
    ensures line == None ==> buf.Noted() == old(buf.Noted())
  {
    hide Flatten, Chain.Data, Before, Good, Spine, NoStop, NoMatch, Tell, Evbuffer.Accounted;
    if buf.freezeStart {
      return None;
    }
    ValidChains(buf);
    var it, extra := SearchEol(buf, None, style);
    if it == NOT_FOUND {
      return None;
    }
    assert EolAt(buf.Bytes(), 0, style, it.pos, extra);
    var data := TakeLine(buf, it.pos, extra);
    line := Some(data);
  }

  /** Takes the line and its terminator off the front. */
  method TakeLine(buf: Evbuffer, eol: nat, len: nat) returns (line: seq<byte>)
    requires buf.Valid() && !buf.freezeStart && len > 0 && eol + len <= |buf.Bytes()|
    modifies buf
    ensures buf.Valid() && (old(buf.GapFree()) ==> buf.GapFree())
    ensures buf.freezeStart == old(buf.freezeStart) && buf.freezeEnd == old(buf.freezeEnd)
    ensures Addrs(buf.chains) <= old(Addrs(buf.chains))
    ensures line == old(buf.Bytes())[..eol] && buf.Bytes() == old(buf.Bytes())[eol + len..]
    ensures eol + len <= old(buf.totalLen)
    ensures buf.Noted() == LineTold(old(buf.Noted()), buf.hasCallbacks, buf.deferredCbs, old(buf.totalLen), eol, len)
  {
    hide Flatten, Good, Tell, Evbuffer.Accounted, Addrs, NoGap;
    ghost var all := buf.Bytes();
    buf.ValidLength();
    var _, data := Remove(buf, eol);
    line := data;
    TakenOff(all, line, buf.Bytes(), len);
    buf.ValidLength();
    var _ := buf.Drain(len);
  }

  lemma TakenOff(all: seq<byte>, line: seq<byte>, rest: seq<byte>, len: nat)
    requires line + rest == all && len <= |rest|
    ensures line == all[..|line|] && rest[len..] == all[|line| + len..]
  {
  }
}
