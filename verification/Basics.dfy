/** What several modules share. */
module Basics {

  /** 2^32. */
  const WORD: nat := 0x1_0000_0000

  function ToInt32(x: int): int {
    if x >= WORD / 2 then x - WORD else x
  }

  function One(b: bool): nat { if b then 1 else 0 }

  function Min(a: nat, b: nat): nat { if a < b then a else b }

  function Repeat<T>(x: T, n: nat): (r: seq<T>)
    ensures |r| == n
  {
    seq(n, _ => x)
  }

  // ----- counting -----

  function Occurs(q: seq<nat>, x: nat): nat { multiset(q)[x] }

  lemma Head(q: seq<nat>, b: nat)
    requires q != []
    ensures Occurs(q, b) == Occurs([q[0]], b) + Occurs(q[1..], b) && Occurs([q[0]], b) == One(b == q[0])
  {
    assert q == [q[0]] + q[1..];
  }

  lemma Snoc(q: seq<nat>, x: nat, b: nat)
    ensures Occurs(q + [x], b) == Occurs(q, b) + Occurs([x], b) && Occurs([x], b) == One(b == x)
  {
  }

  lemma Middle(p: seq<nat>, x: nat, q: seq<nat>, b: nat)
    ensures Occurs(p + [x] + q, b) == Occurs(p + q, b) + Occurs([x], b) && Occurs([x], b) == One(b == x)
  {
  }
}
