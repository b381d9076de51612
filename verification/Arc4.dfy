/** The arc4random generator and its unbiased bounded draw (arc4random.c). */
module Arc4 {
  import opened ByteSeq
  import opened Common

  // ----- the state table -----

  /** Every byte value stands in the table exactly once. */
  ghost predicate Permutation(s: seq<byte>) {
    |s| == 256 && forall a, b :: 0 <= a < b < 256 ==> s[a] != s[b]
  }

  ghost function Values(s: seq<byte>): (r: set<int>)
    ensures forall x :: x in r <==> x in s
  {
    if s == [] then {} else Values(s[..|s| - 1]) + {s[|s| - 1]}
  }

  ghost function Range(n: nat): (r: set<int>)
    ensures |r| == n && forall x :: x in r <==> 0 <= x < n
  {
    if n == 0 then {} else Range(n - 1) + {n - 1}
  }

  lemma {:induction false} DistinctCount(s: seq<byte>)
    requires forall a, b :: 0 <= a < b < |s| ==> s[a] != s[b]
    ensures |Values(s)| == |s|
  {
    if s != [] {
      DistinctCount(s[..|s| - 1]);
    }
  }

  lemma SubsetFull(a: set<int>, b: set<int>)
    requires a <= b && |a| == |b|
    ensures a == b
  {
    assert b == a + (b - a);
    assert |b - a| == 0;
  }

  /** A permutation misses no byte value. */
  lemma PermutationCovers(s: seq<byte>, v: byte)
    requires Permutation(s)
    ensures v in s
  {
    DistinctCount(s);
    SubsetFull(Values(s), Range(256));
    assert v in Range(256);
  }

  function Swapped(s: seq<byte>, a: nat, b: nat): seq<byte>
    requires a < |s| && b < |s|
  {
    s[a := s[b]][b := s[a]]
  }

  lemma SwapKeeps(s: seq<byte>, a: nat, b: nat)
    requires Permutation(s) && a < 256 && b < 256
    ensures Permutation(Swapped(s, a, b))
  {
  }

  /** The state of the stream cipher. */
  datatype State = State(i: byte, j: byte, s: seq<byte>)

  /** One swap of the key schedule, fed with a byte of seed. */
  function Mix(st: State, seed: byte): (r: State)
    requires |st.s| == 256
    ensures |r.s| == 256
  {
    var i := (st.i as int + 1) % 256;
    var j := (st.j as int + st.s[i] as int + seed as int) % 256;
    State(i, j, Swapped(st.s, i, j))
  }

  /** n swaps; the seed is used cyclically. */
  function Mixed(st: State, dat: seq<byte>, n: nat): (r: State)
    requires |st.s| == 256 && |dat| > 0
    ensures |r.s| == 256
  {
    if n == 0 then st else Mix(Mixed(st, dat, n - 1), dat[(n - 1) % |dat|])
  }

  /** The next byte of key stream, and the state after it. */
  function NextByte(st: State): (State, byte)
    requires |st.s| == 256
  {
    var st' := Mix(st, 0);
    (st', st'.s[(st'.s[st'.j] as int + st'.s[st'.i] as int) % 256])
  }

  function Word(a: byte, b: byte, c: byte, d: byte): (w: nat)
    ensures w < TWO32
  {
    a as int * 0x100_0000 + b as int * 0x1_0000 + c as int * 0x100 + d as int
  }

  /** The bytes of a word, the first one the most significant. */
  lemma WordBytes(a: byte, b: byte, c: byte, d: byte)
    ensures var w := Word(a, b, c, d);
      w / 0x100_0000 == a && w / 0x1_0000 % 0x100 == b && w / 0x100 % 0x100 == c && w % 0x100 == d
  {
    var ab, abc := a as int * 0x100 + b, (a as int * 0x100 + b) * 0x100 + c;
    var w := Word(a, b, c, d);
    Remainder(ab, 0x100, a, b);
    Remainder(abc, 0x100, ab, c);
    Remainder(w, 0x100, abc, d);
    Remainder(w, 0x1_0000, ab, c as int * 0x100 + d);
    Remainder(w, 0x100_0000, a, (b as int * 0x100 + c) * 0x100 + d);
  }

  // ----- what the key schedule keeps of the seed -----

  /** A swap undone, knowing the byte it was fed with. */
  function Unmix(st: State, seed: byte): State
    requires |st.s| == 256
  {
    var s := Swapped(st.s, st.i, st.j);
    State((st.i as int + 255) % 256, (st.j as int - s[st.i] as int - seed as int) % 256, s)
  }

  lemma SwapTwice(s: seq<byte>, a: nat, b: nat)
    requires a < |s| && b < |s|
    ensures Swapped(Swapped(s, a, b), a, b) == s
  {
  }

  /** Every step can be undone, so that no two states become one by the same seed byte. */
  lemma Undone(st: State, seed: byte)
    requires |st.s| == 256
    ensures Unmix(Mix(st, seed), seed) == st
  {
    var after := Mix(st, seed);
    SwapTwice(st.s, after.i, after.j);
    var x := st.j as int + st.s[after.i] as int + seed as int;
    assert (x % 256 - st.s[after.i] as int - seed as int) % 256 == st.j as int;
  }

  /** The state after the bytes of a seed, one step for each. */
  function Fed(st: State, seed: seq<byte>): (r: State)
    requires |st.s| == 256
    ensures |r.s| == 256
    decreases |seed|
  {
    if seed == [] then st else Fed(Mix(st, seed[0]), seed[1..])
  }

  /** The key schedule feeds the seed over and over. */
  lemma {:induction false} MixedIsFed(st: State, dat: seq<byte>, n: nat)
    requires |st.s| == 256 && |dat| > 0
    ensures Mixed(st, dat, n) == Fed(st, seq(n, k requires 0 <= k < n => dat[k % |dat|]))
  {
    var bytes := seq(n, k requires 0 <= k < n => dat[k % |dat|]);
    if n > 0 {
      MixedIsFed(st, dat, n - 1);
      var before := seq(n - 1, k requires 0 <= k < n - 1 => dat[k % |dat|]);
      assert bytes == before + [bytes[n - 1]];
      FedOn(st, before, bytes[n - 1]);
    }
  }

  lemma {:induction false} FedOn(st: State, seed: seq<byte>, b: byte)
    requires |st.s| == 256
    ensures Fed(st, seed + [b]) == Mix(Fed(st, seed), b)
    decreases |seed|
  {
    if seed == [] {
      assert [] + [b] == [b];
      assert Fed(Mix(st, b), [b][1..]) == Mix(st, b);
    } else {
      assert (seed + [b])[1..] == seed[1..] + [b];
      FedOn(Mix(st, seed[0]), seed[1..], b);
    }
  }

  /** Different states stay different when the same bytes are fed to both. */
  lemma {:induction false} SameRest(st: State, st': State, seed: seq<byte>)
    requires |st.s| == 256 && |st'.s| == 256
    ensures Fed(st, seed) == Fed(st', seed) <==> st == st'
    decreases |seed|
  {
    if seed != [] {
      Undone(st, seed[0]);
      Undone(st', seed[0]);
      SameRest(Mix(st, seed[0]), Mix(st', seed[0]), seed[1..]);
    }
  }

  /** The byte fed in a step shows in j, and which two entries were swapped shows in a table without repetition. */
  lemma OneByte(st: State, x: byte, y: byte)
    requires |st.s| == 256 && Permutation(st.s) && x != y
    ensures Mix(st, x).j != Mix(st, y).j && Mix(st, x).s != Mix(st, y).s
  {
    var i := (st.i as int + 1) % 256;
    var jx, jy := Mix(st, x).j, Mix(st, y).j;
    assert jx != jy by {
      var base := st.j as int + st.s[i] as int;
      assert jx == (base + x as int) % 256 && jy == (base + y as int) % 256;
    }
    assert Mix(st, x).s[i] == st.s[jx] && Mix(st, y).s[i] == st.s[jy];
  }

  /** Seeds that differ in no more than two successive bytes never lead from one state to the same state. */
  lemma TwoBytesShow(st: State, x: byte, y: byte, x': byte, y': byte, rest: seq<byte>)
    requires |st.s| == 256 && Permutation(st.s) && (x, y) != (x', y')
    ensures Fed(st, [x, y] + rest) != Fed(st, [x', y'] + rest)
  {
    hide Mix, Permutation, Fed;
    var a, b := Mix(st, x), Mix(st, x');
    TwoThenRest(st, x, y, rest);
    TwoThenRest(st, x', y', rest);
    SameRest(Mix(a, y), Mix(b, y'), rest);
    if Mix(a, y) == Mix(b, y') {
      SameTable(a, y, b, y');
      assert a.s == b.s;
      if x != x' {
        OneByte(st, x, x');
        assert false;
      } else {
        MixKeeps(st, x);
        OneByte(a, y, y');
        assert false;
      }
    }
  }

  lemma TwoThenRest(st: State, x: byte, y: byte, rest: seq<byte>)
    requires |st.s| == 256
    ensures Fed(st, [x, y] + rest) == Fed(Mix(Mix(st, x), y), rest)
  {
    hide Mix;
    assert ([x, y] + rest)[1..] == [y] + rest && ([y] + rest)[1..] == rest;
    assert Fed(st, [x, y] + rest) == Fed(Mix(st, x), [y] + rest);
  }

  lemma MixKeeps(st: State, x: byte)
    requires |st.s| == 256 && Permutation(st.s)
    ensures Permutation(Mix(st, x).s) && |Mix(st, x).s| == 256
  {
    SwapKeeps(st.s, Mix(st, x).i, Mix(st, x).j);
  }

  lemma SameTable(a: State, y: byte, b: State, y': byte)
    requires |a.s| == 256 && |b.s| == 256 && Mix(a, y) == Mix(b, y')
    ensures a.s == b.s
  {
    var c := Mix(a, y);
    SwapTwice(a.s, c.i, c.j);
    SwapTwice(b.s, c.i, c.j);
  }

  /** Three bytes may not show: these two seeds lead from the same state to the same state. */
  lemma ThreeBytesMayNot()
    ensures var st := State(255, 0, InitTable()); Fed(st, [1, 4, 0]) == Fed(st, [5, 250, 5])
  {
    hide Fed, Mix, InitTable;
    FirstSeed();
    SecondSeed();
    FedThree(State(255, 0, InitTable()), 1, 4, 0);
    FedThree(State(255, 0, InitTable()), 5, 250, 5);
  }

  lemma FirstSeed()
    ensures var st := State(255, 0, InitTable()); var t := InitTable()[0 := 1][1 := 5][5 := 0];
      Mix(Mix(Mix(st, 1), 4), 0) == Mix(State(1, 5, t), 0) == State(2, 7, t[2 := 7][7 := 2])
  {
    hide InitTable;
    assert Mix(State(255, 0, InitTable()), 1) == State(0, 1, InitTable()[0 := 1][1 := 0]);
    assert Mix(State(0, 1, InitTable()[0 := 1][1 := 0]), 4) == State(1, 5, InitTable()[0 := 1][1 := 5][5 := 0]);
  }

  lemma SecondSeed()
    ensures var st := State(255, 0, InitTable()); var t := InitTable()[0 := 1][1 := 5][5 := 0];
      Mix(Mix(Mix(st, 5), 250), 5) == Mix(State(1, 0, t), 5) == State(2, 7, t[2 := 7][7 := 2])
  {
    hide InitTable;
    assert Mix(State(255, 0, InitTable()), 5) == State(0, 5, InitTable()[0 := 5][5 := 0]);
    assert Mix(State(0, 5, InitTable()[0 := 5][5 := 0]), 250) == State(1, 0, InitTable()[0 := 1][1 := 5][5 := 0]);
  }

  lemma FedThree(st: State, x: byte, y: byte, z: byte)
    requires |st.s| == 256
    ensures Fed(st, [x, y, z]) == Mix(Mix(Mix(st, x), y), z)
  {
    hide Mix;
    assert [x, y] + [z] == [x, y, z];
    TwoThenRest(st, x, y, [z]);
    assert [z][1..] == [];
    assert Fed(Mix(Mix(Mix(st, x), y), z), []) == Mix(Mix(Mix(st, x), y), z);
  }

  /** The table of arc4_init. */
  function InitTable(): (s: seq<byte>)
    ensures |s| == 256 && forall n :: 0 <= n < 256 ==> s[n] == n
  {
    seq(256, n requires 0 <= n < 256 => n)
  }

  /** The key stream of a new table begins with 2, 5 and 7. */
  lemma FirstBytes()
    ensures var (s1, a) := NextByte(State(0, 0, InitTable())); var (s2, b) := NextByte(s1); var (s3, c) := NextByte(s2);
      a == 2 && b == 5 && c == 7
  {
    hide InitTable;
    var (s1, a) := NextByte(State(0, 0, InitTable()));
    assert s1 == State(1, 1, InitTable());
    var (s2, b) := NextByte(s1);
    assert s2 == State(2, 3, InitTable()[2 := 3][3 := 2]);
    var (s3, c) := NextByte(s2);
    assert s3 == State(3, 5, InitTable()[2 := 3][3 := 5][5 := 2]);
  }

  class Stream {
    var i: byte
    var j: byte
    const s: array<byte>

    ghost predicate Valid()
      reads this, s
    {
      s.Length == 256 && Permutation(s[..])
    }

    ghost function Now(): State
      reads this, s
    {
      State(i, j, s[..])
    }

    /** arc4_init. */
    constructor ()
      ensures Valid() && fresh(s) && i == 0 && j == 0 && forall n :: 0 <= n < 256 ==> s[n] == n
    {
      i, j := 0, 0;
      s := new byte[256](n requires 0 <= n < 256 => n);
    }

    /** The swap that both loops perform. */
    method Swap(seed: byte)
      requires Valid()
      modifies this, s
      ensures Valid() && Now() == Mix(old(Now()), seed)
    {
      ghost var was := s[..];
      i := (i as int + 1) % 256;
      var si := s[i];
      j := (j as int + si as int + seed as int) % 256;
      SwapKeeps(was, i, j);
      s[i] := s[j];
      s[j] := si;
      assert s[..] == Swapped(was, i, j);
    }

    /** arc4_addrandom. */
    method AddRandom(dat: seq<byte>)
      requires Valid() && |dat| > 0
      modifies this, s
      ensures Valid()
      ensures var st := Mixed(old(State((i as int + 255) % 256, j, s[..])), dat, 256); Now() == State(st.i, st.i, st.s)
    {
      hide Mix, Permutation;
      i := (i as int + 255) % 256;
      ghost var start := Now();
      var n := 0;
      while n < 256
        invariant 0 <= n <= 256 && Valid() && Now() == Mixed(start, dat, n)
      {
        Swap(dat[n % |dat|]);
        n := n + 1;
      }
      j := i;
    }

    /** arc4_getbyte. */
    method GetByte() returns (b: byte)
      requires Valid()
      modifies this, s
      ensures Valid() && (Now(), b) == NextByte(old(Now()))
    {
      hide Permutation;
      Swap(0);
      b := s[(s[j] as int + s[i] as int) % 256];
    }

    /** arc4_getword: four bytes, the first the most significant. */
    method GetWord() returns (w: nat)
      requires Valid()
      modifies this, s
      ensures Valid() && w < TWO32
      ensures var (s1, a) := NextByte(old(Now())); var (s2, b) := NextByte(s1); var (s3, c) := NextByte(s2);
        var (s4, d) := NextByte(s3); Now() == s4 && w == Word(a, b, c, d)
    {
      hide Permutation, NextByte;
      var a := GetByte();
      var b := GetByte();
      var c := GetByte();
      var d := GetByte();
      w := Word(a, b, c, d);
    }
  }

  // ----- the bounded draw -----

  /** 32-bit wrap-around. */
  function Wrap(x: int): (r: nat)
    ensures r < TWO32
  {
    x % TWO32
  }

  /** The rejection threshold, computed without 64-bit arithmetic. */
  function Threshold(bound: nat): nat
    requires 2 <= bound < TWO32
  {
    if bound > 0x8000_0000 then Wrap(1 + (0xffff_ffff - bound))
    else Wrap(Wrap(0xffff_ffff - Wrap(bound * 2)) + 1) % bound
  }

  lemma ModMinus(a: int, m: nat, k: nat)
    requires m > 0
    ensures (a - k * m) % m == a % m
    decreases k
  {
    if k > 0 {
      ModMinus(a - m, m, k - 1);
      assert a - m - (k - 1) * m == a - k * m;
      ModOnce(a, m);
    }
  }

  lemma ModOnce(a: int, m: nat)
    requires m > 0
    ensures (a - m) % m == a % m
  {
    var q, r := a / m, a % m;
    assert a == q * m + r;
    assert a - m == (q - 1) * m + r;
    Remainder(a - m, m, q - 1, r);
  }

  lemma {:induction false} MulAtLeast(d: nat, m: nat)
    requires d >= 1
    ensures d * m >= m
  {
    if d > 1 {
      MulAtLeast(d - 1, m);
      assert d * m == (d - 1) * m + m;
    }
  }

  lemma SmallMultiple(d: int, m: nat, x: int)
    requires x == d * m && 0 < x + m && x < m
    ensures d == 0
  {
    if d >= 1 {
      MulAtLeast(d, m);
    }
  }

  /** Quotient and remainder are determined. */
  lemma Remainder(a: int, m: nat, q: int, r: int)
    requires m > 0 && a == q * m + r && 0 <= r < m
    ensures a % m == r && a / m == q
  {
    var q', r' := a / m, a % m;
    assert a == q' * m + r';
    var x := r' - r;
    assert x == (q - q') * m;
    SmallMultiple(q - q', m, x);
  }

  lemma ThresholdIsRemainder(bound: nat)
    requires 2 <= bound < TWO32
    ensures Threshold(bound) == TWO32 % bound
  {
    hide Wrap;
    if bound > 0x8000_0000 {
      WrapSmall(1 + (0xffff_ffff - bound));
      Remainder(TWO32, bound, 1, TWO32 - bound);
    } else if bound == 0x8000_0000 {
      WrapFull();
      WrapSmall(0xffff_ffff);
      Remainder(TWO32, bound, 2, 0);
    } else {
      WrapSmall(bound * 2);
      WrapSmall(0xffff_ffff - bound * 2);
      WrapSmall(TWO32 - bound * 2);
      ModMinus(TWO32, bound, 2);
    }
  }

  lemma WrapSmall(x: int)
    requires 0 <= x < TWO32
    ensures Wrap(x) == x
  {
  }

  lemma WrapFull()
    ensures Wrap(TWO32) == 0
  {
  }

  /** The values in n blocks of m from `lo` on that leave remainder v. */
  ghost function Class(lo: nat, n: nat, m: nat, v: nat): set<int>
    requires m > 0
  {
    set x: int | lo <= x < lo + n * m && x % m == v
  }

  /** m consecutive numbers contain exactly one with each remainder. */
  lemma OneInBlock(lo: nat, m: nat, v: nat) returns (x: nat)
    requires v < m
    ensures lo <= x < lo + m && x % m == v
    ensures forall y :: lo <= y < lo + m && y % m == v ==> y == x
  {
    var q, r := lo / m, lo % m;
    assert lo == q * m + r;
    if r <= v {
      x := q * m + v;
      Remainder(x, m, q, v);
    } else {
      x := (q + 1) * m + v;
      assert x == q * m + m + v;
      Remainder(x, m, q + 1, v);
    }
    forall y | lo <= y < lo + m && y % m == v
      ensures y == x
    {
      SameRemainder(x, y, m);
    }
  }

  lemma SameRemainder(x: nat, y: nat, m: nat)
    requires m > 0 && x % m == y % m && x < y + m && y < x + m
    ensures x == y
  {
    var d := x - y;
    assert x == x / m * m + x % m && y == y / m * m + y % m;
    assert d == (x / m - y / m) * m;
    SmallMultiple(x / m - y / m, m, d);
  }

  lemma {:induction false} ClassSize(lo: nat, n: nat, m: nat, v: nat)
    requires v < m
    ensures |Class(lo, n, m, v)| == n
  {
    if n == 0 {
      assert Class(lo, n, m, v) == {};
    } else {
      ClassSize(lo, n - 1, m, v);
      assert lo + n * m == lo + (n - 1) * m + m;
      var x := OneInBlock(lo + (n - 1) * m, m, v);
      assert Class(lo, n, m, v) == Class(lo, n - 1, m, v) + {x};
    }
  }

  /** Every result below the bound comes from the same number of accepted 32-bit inputs. */
  lemma Unbiased(bound: nat, v: nat)
    requires 2 <= bound < TWO32 && v < bound
    ensures |set x: int | Threshold(bound) <= x < TWO32 && x % bound == v| == TWO32 / bound
  {
    ThresholdIsRemainder(bound);
    var min, n := TWO32 % bound, TWO32 / bound;
    assert min + n * bound == TWO32;
    ClassSize(min, n, bound, v);
    assert (set x: int | Threshold(bound) <= x < TWO32 && x % bound == v) == Class(min, n, bound, v);
  }

  datatype Draw = Result(value: nat, used: nat) | Exhausted

  /** arc4random_uniform on a given stream of 32-bit words: the first word at or above the threshold, reduced. */
  method Uniform(bound: nat, words: seq<nat>) returns (r: Draw)
    requires bound < TWO32 && forall k :: 0 <= k < |words| ==> words[k] < TWO32
    ensures bound < 2 ==> r == Result(0, 0)
    ensures bound >= 2 ==>
      match r
      case Result(v, used) =>
        && 0 < used <= |words| && words[used - 1] >= TWO32 % bound && v == words[used - 1] % bound < bound
        && forall k :: 0 <= k < used - 1 ==> words[k] < TWO32 % bound
      case Exhausted => forall k :: 0 <= k < |words| ==> words[k] < TWO32 % bound
  {
    if bound < 2 {
      return Result(0, 0);
    }
    ThresholdIsRemainder(bound);
    var min := Threshold(bound);
    var k := 0;
    while k < |words|
      invariant 0 <= k <= |words| && forall l :: 0 <= l < k ==> words[l] < min
    {
      if words[k] >= min {
        return Result(words[k] % bound, k + 1);
      }
      k := k + 1;
    }
    r := Exhausted;
  }
}
