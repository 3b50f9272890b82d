/** A kfifo: a bounded queue whose put is refused when it is full. */
module Fifo {
  import opened Basics

  function Put<T>(q: seq<T>, cap: nat, x: T): seq<T> {
    if |q| < cap then q + [x] else q
  }

  function Refused<T>(q: seq<T>, cap: nat): nat {
    if |q| < cap then 0 else 1
  }

  /** Either the element is last in the queue or the put is refused; never more than cap elements. */
  lemma PutIs<T>(q: seq<T>, cap: nat, x: T)
    requires |q| <= cap
    ensures |Put(q, cap, x)| <= cap
    ensures |q| < cap <==> Put(q, cap, x) == q + [x]
    ensures |q| == cap <==> Put(q, cap, x) == q
    ensures Refused(q, cap) == |q| + 1 - |Put(q, cap, x)|
  {
    assert |q + [x]| == |q| + 1;
  }

  function Without<T>(q: seq<T>, i: nat): (r: seq<T>)
    requires i < |q|
    ensures |r| == |q| - 1
  {
    q[..i] + q[i + 1..]
  }

  function Count(n: nat): (r: seq<nat>)
    ensures |r| == n
    ensures forall i :: 0 <= i < n ==> r[i] == i
  {
    seq(n, i requires 0 <= i < n => i)
  }

  /** A sequence that holds each of 0 .. n - 1 once has length n. */
  lemma Pool(s: seq<nat>, n: nat)
    requires forall b: nat :: Occurs(s, b) == One(b < n)
    ensures |s| == n
  {
    CountOnce(n);
    forall b: nat ensures multiset(s)[b] == multiset(Count(n))[b] {
      assert Occurs(s, b) == Occurs(Count(n), b);
    }
    assert multiset(s) == multiset(Count(n));
    assert |multiset(s)| == |s| && |multiset(Count(n))| == n;
  }

  lemma {:induction false} CountOnce(n: nat)
    ensures forall b: nat :: Occurs(Count(n), b) == One(b < n)
  {
    if n == 0 {
      assert Count(n) == [];
    } else {
      CountOnce(n - 1);
      assert Count(n) == Count(n - 1) + [n - 1];
      forall b: nat ensures Occurs(Count(n), b) == One(b < n) {
        Snoc(Count(n - 1), n - 1, b);
        assert Occurs(Count(n - 1), b) == One(b < n - 1);
      }
    }
  }
}
