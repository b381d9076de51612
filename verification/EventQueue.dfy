/** Tail queues of event callbacks as sequences without repetition. */
module EventQueues {

  predicate NoDup<T(==)>(q: seq<T>) {
    forall i, j :: 0 <= i < j < |q| ==> q[i] != q[j]
  }

  /** The members of q that are not in s, in order. */
  function Minus<T(==)>(q: seq<T>, s: set<T>): seq<T> {
    if q == [] then [] else (if q[0] in s then [] else [q[0]]) + Minus(q[1..], s)
  }

  lemma {:induction false} MinusHas<T>(q: seq<T>, s: set<T>)
    ensures forall e :: e in Minus(q, s) <==> e in q && e !in s
  {
    if q != [] {
      MinusHas(q[1..], s);
      assert q == [q[0]] + q[1..];
    }
  }

  lemma {:induction false} MinusNothing<T>(q: seq<T>, s: set<T>)
    requires forall e :: e in q ==> e !in s
    ensures Minus(q, s) == q
  {
    if q != [] {
      MinusNothing(q[1..], s);
    }
  }

  lemma {:induction false} MinusJoin<T>(p: seq<T>, q: seq<T>, s: set<T>)
    ensures Minus(p + q, s) == Minus(p, s) + Minus(q, s)
  {
    hide Minus;
    if p == [] {
      assert p + q == q;
      MinusStep(p, s);
      assert [] + Minus(q, s) == Minus(q, s);
    } else {
      assert (p + q)[0] == p[0] && (p + q)[1..] == p[1..] + q;
      MinusStep(p + q, s);
      MinusStep(p, s);
      MinusJoin(p[1..], q, s);
      SeqAssoc(if p[0] in s then [] else [p[0]], Minus(p[1..], s), Minus(q, s));
    }
  }

  lemma MinusStep<T>(q: seq<T>, s: set<T>)
    ensures Minus(q, s) == if q == [] then [] else (if q[0] in s then [] else [q[0]]) + Minus(q[1..], s)
  {
  }

  lemma SeqAssoc<T>(a: seq<T>, b: seq<T>, c: seq<T>)
    ensures a + (b + c) == (a + b) + c
  {
  }

  lemma {:induction false} MinusMinus<T>(q: seq<T>, s: set<T>, t: set<T>)
    ensures Minus(Minus(q, s), t) == Minus(q, s + t)
  {
    if q != [] {
      MinusMinus(q[1..], s, t);
      var rest := Minus(q[1..], s);
      MinusJoin(if q[0] in s then [] else [q[0]], rest, t);
    }
  }

  lemma MinusSelf<T>(x: T)
    ensures Minus([x], {x}) == []
  {
  }

  /** TAILQ_REMOVE: taking out the one occurrence. */
  lemma {:induction false} MinusOne<T>(q: seq<T>, k: nat)
    requires NoDup(q) && k < |q|
    ensures Minus(q, {q[k]}) == q[..k] + q[k + 1..]
  {
    hide Minus;
    var x, a, b := q[k], q[..k], q[k + 1..];
    assert q == a + ([x] + b);
    MinusJoin(a, [x] + b, {x});
    MinusJoin([x], b, {x});
    MinusNothing(a, {x});
    MinusNothing(b, {x});
    MinusSelf(x);
    assert [] + b == b;
  }

  lemma {:induction false} MinusNoDup<T>(q: seq<T>, s: set<T>)
    requires NoDup(q)
    ensures NoDup(Minus(q, s))
  {
    if q != [] {
      MinusNoDup(q[1..], s);
      MinusHas(q[1..], s);
    }
  }

  lemma {:induction false} MinusFirst<T>(q: seq<T>)
    requires NoDup(q) && q != []
    ensures Minus(q, {q[0]}) == q[1..]
  {
    MinusOne(q, 0);
    assert q[..0] + q[1..] == q[1..];
  }

  // ----- a measure summed over a queue, and over a list of queues -----

  /** How many members of q satisfy p. */
  ghost function Count<T>(q: seq<T>, p: T -> bool): nat {
    if q == [] then 0 else (if p(q[0]) then 1 else 0) + Count(q[1..], p)
  }

  lemma {:induction false} CountJoin<T>(q: seq<T>, r: seq<T>, p: T -> bool)
    ensures Count(q + r, p) == Count(q, p) + Count(r, p)
  {
    if q == [] {
      assert q + r == r;
    } else {
      CountJoin(q[1..], r, p);
      assert (q + r)[1..] == q[1..] + r;
    }
  }

  lemma CountOne<T>(x: T, p: T -> bool)
    ensures Count([x], p) == if p(x) then 1 else 0
  {
  }

  lemma CountInsert<T>(q: seq<T>, k: nat, x: T, p: T -> bool)
    requires k <= |q|
    ensures Count(q[..k] + [x] + q[k..], p) == Count(q, p) + if p(x) then 1 else 0
  {
    assert q == q[..k] + q[k..];
    CountJoin(q[..k], q[k..], p);
    CountJoin(q[..k], [x], p);
    CountJoin(q[..k] + [x], q[k..], p);
    CountOne(x, p);
  }

  lemma CountRemove<T>(q: seq<T>, x: T, p: T -> bool)
    requires NoDup(q) && x in q
    ensures Count(Minus(q, {x}), p) == Count(q, p) - if p(x) then 1 else 0
    ensures |Minus(q, {x})| == |q| - 1
  {
    var k :| 0 <= k < |q| && q[k] == x;
    MinusOne(q, k);
    var r := q[..k] + q[k + 1..];
    CountInsert(r, k, x, p);
    assert r[..k] + [x] + r[k..] == q;
  }

  lemma {:induction false} CountAll<T>(q: seq<T>, p: T -> bool)
    requires forall x :: x in q ==> p(x)
    ensures Count(q, p) == |q|
  {
    if q != [] {
      CountAll(q[1..], p);
    }
  }

  ghost function CountIn<T>(qs: seq<seq<T>>, p: T -> bool): nat {
    if qs == [] then 0 else Count(qs[0], p) + CountIn(qs[1..], p)
  }

  /** The lengths of a list of queues, added up. */
  ghost function Lengths<T>(qs: seq<seq<T>>): nat {
    if qs == [] then 0 else |qs[0]| + Lengths(qs[1..])
  }

  lemma {:induction false} CountInAll<T>(qs: seq<seq<T>>, p: T -> bool)
    requires forall i, x :: 0 <= i < |qs| && x in qs[i] ==> p(x)
    ensures CountIn(qs, p) == Lengths(qs)
  {
    if qs != [] {
      CountAll(qs[0], p);
      CountInAll(qs[1..], p);
    }
  }

  lemma {:induction false} CountInUpdate<T>(qs: seq<seq<T>>, i: nat, q: seq<T>, p: T -> bool)
    requires i < |qs|
    ensures CountIn(qs[i := q], p) == CountIn(qs, p) - Count(qs[i], p) + Count(q, p)
  {
    if i == 0 {
      assert qs[i := q][1..] == qs[1..];
    } else {
      CountInUpdate(qs[1..], i - 1, q, p);
      assert qs[i := q][1..] == qs[1..][i - 1 := q];
    }
  }

  lemma {:induction false} CountOnce<T>(q: seq<T>, x: T, p: T -> bool)
    requires NoDup(q) && forall y :: p(y) <==> y == x
    ensures Count(q, p) == if x in q then 1 else 0
  {
    if q != [] {
      CountOnce(q[1..], x, p);
      assert q == [q[0]] + q[1..];
    }
  }

  /** A member of one queue only is counted there only. */
  lemma {:induction false} CountInOnce<T>(qs: seq<seq<T>>, x: T, n: nat, p: T -> bool)
    requires forall y :: p(y) <==> y == x
    requires forall i :: 0 <= i < |qs| ==> NoDup(qs[i]) && (i != n ==> x !in qs[i])
    ensures CountIn(qs, p) == if n < |qs| && x in qs[n] then 1 else 0
  {
    if qs != [] {
      CountOnce(qs[0], x, p);
      if n == 0 {
        CountInNone(qs[1..], x, p);
      } else {
        CountInOnce(qs[1..], x, n - 1, p);
      }
    }
  }

  lemma {:induction false} CountInNone<T>(qs: seq<seq<T>>, x: T, p: T -> bool)
    requires forall y :: p(y) <==> y == x
    requires forall i :: 0 <= i < |qs| ==> NoDup(qs[i]) && x !in qs[i]
    ensures CountIn(qs, p) == 0
  {
    if qs != [] {
      CountOnce(qs[0], x, p);
      CountInNone(qs[1..], x, p);
    }
  }

  lemma {:induction false} CountInEmpty<T>(qs: seq<seq<T>>, p: T -> bool)
    requires forall i :: 0 <= i < |qs| ==> qs[i] == []
    ensures CountIn(qs, p) == 0
  {
    if qs != [] {
      CountInEmpty(qs[1..], p);
    }
  }

  lemma {:induction false} CountInMore<T>(qs: seq<seq<T>>, p: T -> bool)
    ensures CountIn(qs + [[]], p) == CountIn(qs, p)
  {
    if qs == [] {
      assert qs + [[]] == [[]];
    } else {
      CountInMore(qs[1..], p);
      assert (qs + [[]])[1..] == qs[1..] + [[]];
    }
  }

  // ----- a measure over a set -----

  ghost function Holding<T>(s: set<T>, p: T -> bool): nat {
    |set e | e in s && p(e)|
  }

  lemma HoldingPlus<T>(s: set<T>, x: T, p: T -> bool)
    requires x !in s
    ensures Holding(s + {x}, p) == Holding(s, p) + if p(x) then 1 else 0
  {
    var a, b := set e | e in s && p(e), set e | e in s + {x} && p(e);
    assert b == if p(x) then a + {x} else a;
  }

  lemma HoldingSplit<T>(s: set<T>, t: set<T>, p: T -> bool)
    requires t <= s
    ensures Holding(s, p) == Holding(t, p) + Holding(s - t, p)
  {
    var a, b, c := set e | e in s && p(e), set e | e in t && p(e), set e | e in s - t && p(e);
    assert a == b + c && b !! c;
  }

  lemma HoldingNone<T>(s: set<T>, p: T -> bool)
    ensures Holding(s, p) == 0 <==> forall e :: e in s ==> !p(e)
  {
    var a := set e | e in s && p(e);
    if a == {} {
      assert forall e :: e in s && p(e) ==> e in a;
    } else {
      var e :| e in a;
    }
  }
}
