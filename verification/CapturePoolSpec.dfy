/** Who owns the capture buffers of a context: the m2m ready queue, the token table, or one of the
    three requesters. A handle is a vb2 buffer's address; buffer index i has handle i + 1, 0 is none. */
module CapturePoolSpec {
  import opened Basics

  const CAP_BUFF_MAX: nat := 32
  const IN_M2M: nat := 1

  datatype Requester = Dec | Vpp | Ge2d

  function Status(r: Requester): nat {
    match r
    case Dec => 2
    case Vpp => 3
    case Ge2d => 4
  }

  datatype Grant = Grant(handle: nat, who: Requester)

  /** inNum, outNum, dec, vpp, ge2d and words are cap_pool, queued the que_in_m2m flags, tok the
      requesters' fb_token. holds are the requesters whose last query gave a token they have not used;
      came and went record what was queued and allocated, lost what a full table dropped. */
  datatype Pool = Pool(
    n: nat, ready: seq<nat>, table: seq<nat>, queued: set<nat>,
    words: seq<nat>, inNum: nat, outNum: nat, dec: nat, vpp: nat, ge2d: nat, used: nat,
    tok: map<Requester, nat>, holds: set<Requester>,
    came: seq<nat>, went: seq<Grant>, lost: set<nat>)

  datatype Action = Queue(handle: nat) | Query(who: Requester, streaming: bool) | Alloc(who: Requester, off: bool)

  /** A session of n buffers, the requesters starting with the tokens tok. */
  function Start(n: nat, tok: map<Requester, nat>): Pool {
    Pool(n, [], Repeat<nat>(0, CAP_BUFF_MAX), {}, Repeat<nat>(0, CAP_BUFF_MAX), 0, 0, 0, 0, 0, 0, tok, {}, [], [], {})
  }

  function Tok(s: Pool, r: Requester): nat { if r in s.tok then s.tok[r] else 0 }

  /** The first index of x, or the length. */
  function Find(table: seq<nat>, x: nat): (i: nat)
    ensures i <= |table| && (i < |table| <==> x in table)
    ensures i < |table| ==> table[i] == x
  {
    if table == [] then 0 else if table[0] == x then 0 else 1 + Find(table[1..], x)
  }

  lemma {:induction false} FindIs(table: seq<nat>, x: nat, i: nat)
    requires i <= |table| && (forall j :: 0 <= j < i ==> table[j] != x) && (i < |table| ==> table[i] == x)
    ensures i == Find(table, x)
  {
    if i > 0 {
      assert forall j :: 0 <= j < i - 1 ==> table[1..][j] == table[j + 1];
      FindIs(table[1..], x, i - 1);
    }
  }

  function Replaced(table: seq<nat>, old_: nat, new_: nat): (r: seq<nat>)
    ensures |r| == |table|
  {
    if old_ in table then table[Find(table, old_) := new_] else table
  }

  function Write(words: seq<nat>, i: nat, x: nat): (r: seq<nat>)
    ensures |r| == |words|
  {
    if i < |words| then words[i := x] else words
  }

  /** status << 16 | index. */
  function Word(status: nat, handle: nat): nat {
    status * 65536 + if handle == 0 then 0 else handle - 1
  }

  // ----- the three operations -----

  /** The capture branch of vb2ops_vdec_buf_queue. */
  function QueueNext(s: Pool, h: nat): Pool {
    if h in s.queued then s
    else s.(ready := s.ready + [h], queued := s.queued + {h}, came := s.came + [h],
            words := Write(s.words, s.inNum, Word(IN_M2M, h)), inNum := s.inNum + 1)
  }

  /** fb_token_insert with the requester's token. */
  function InsertNext(s: Pool, r: Requester): Pool {
    if Tok(s, r) != 0 && Tok(s, r) in s.table then s.(holds := s.holds + {r})
    else if s.ready == [] then s.(holds := s.holds - {r})
    else if 0 in s.table then
      s.(ready := s.ready[1..], table := Replaced(s.table, 0, s.ready[0]), tok := s.tok[r := s.ready[0]],
         holds := s.holds + {r})
    else s.(ready := s.ready[1..], lost := s.lost + {s.ready[0]}, holds := s.holds - {r})
  }

  /** fb_buff_from_queue with a token that is not null. */
  function AllocNext(s: Pool, r: Requester): Pool {
    s.(used := s.used + 1,
       dec := if r == Dec then s.dec + 1 else s.dec, vpp := if r == Vpp then s.vpp + 1 else s.vpp,
       ge2d := if r == Ge2d then s.ge2d + 1 else s.ge2d,
       words := Write(s.words, s.outNum, Word(Status(r), Tok(s, r))), outNum := s.outNum + 1,
       table := Replaced(s.table, Tok(s, r), 0), went := s.went + [Grant(Tok(s, r), r)],
       holds := s.holds - {r})
  }

  /** A buffer is allocated only after a query that succeeded. */
  predicate Enabled(s: Pool, a: Action) {
    match a
    case Queue(h) => 1 <= h <= s.n
    case Query(_, _) => true
    case Alloc(r, _) => r in s.holds
  }

  function Next(s: Pool, a: Action): Pool {
    match a
    case Queue(h) => QueueNext(s, h)
    case Query(r, streaming) => if streaming then InsertNext(s, r) else s
    case Alloc(r, off) => if off || Tok(s, r) == 0 then s else AllocNext(s, r)
  }

  predicate Run(s0: Pool, acts: seq<Action>, s: Pool)
    decreases |acts|
  {
    if acts == [] then s == s0
    else Enabled(s0, acts[0]) && Run(Next(s0, acts[0]), acts[1..], s)
  }

  // ----- what every run keeps -----

  function Handles(gs: seq<Grant>): (r: seq<nat>)
    ensures |r| == |gs|
  {
    seq(|gs|, i requires 0 <= i < |gs| => gs[i].handle)
  }

  function CountWho(gs: seq<Grant>, r: Requester): nat {
    if gs == [] then 0 else CountWho(gs[..|gs| - 1], r) + One(gs[|gs| - 1].who == r)
  }

  function PlacesOf(s: Pool, h: nat): nat {
    Occurs(s.ready, h) + Occurs(s.table, h) + Occurs(Handles(s.went), h)
  }

  /** Every queued buffer is in exactly one place, others nowhere. */
  ghost predicate Places(s: Pool) {
    && (forall h: nat :: h != 0 ==> PlacesOf(s, h) == One(h in s.queued))
    && (forall h: nat :: Occurs(s.came, h) == One(h in s.queued))
    && (forall h: nat :: h in s.queued ==> 1 <= h <= s.n)
    && Occurs(s.ready, 0) == 0 && Occurs(Handles(s.went), 0) == 0
  }

  predicate Counters(s: Pool) {
    && s.n <= CAP_BUFF_MAX && |s.table| == CAP_BUFF_MAX && s.lost == {}
    && (s.inNum, s.outNum, s.used, s.dec, s.vpp, s.ge2d)
       == (|s.came|, |s.went|, |s.went|, CountWho(s.went, Dec), CountWho(s.went, Vpp), CountWho(s.went, Ge2d))
  }

  predicate Records(s: Pool) {
    && |s.words| == CAP_BUFF_MAX && s.outNum <= s.inNum <= CAP_BUFF_MAX
    && |s.came| == s.inNum && |s.went| == s.outNum
    && (forall i :: 0 <= i < s.outNum ==> s.words[i] == Word(Status(s.went[i].who), s.went[i].handle))
    && (forall i :: s.outNum <= i < s.inNum ==> s.words[i] == Word(IN_M2M, s.came[i]))
    && (forall i :: s.inNum <= i < CAP_BUFF_MAX ==> s.words[i] == 0)
  }

  predicate Unused(s: Pool, r: Requester) {
    Tok(s, r) == 0 || Tok(s, r) > s.n || Tok(s, r) in Handles(s.went)
  }

  predicate Tokens(s: Pool) {
    && (forall r :: r in s.holds ==> Tok(s, r) != 0 && Tok(s, r) in s.table)
    && (forall r, q :: r in s.holds && q in s.holds && r != q ==> Tok(s, r) != Tok(s, q))
    && (forall r: Requester :: r !in s.holds ==> Unused(s, r))
  }

  ghost predicate Inv(s: Pool) { Places(s) && Counters(s) && Records(s) && Tokens(s) }

  // ----- bags -----

  lemma SubBag(q: seq<nat>, r: seq<nat>)
    requires forall h: nat :: Occurs(q, h) <= Occurs(r, h)
    ensures |q| <= |r|
  {
    var a, b := multiset(q), multiset(r);
    assert forall h: nat :: a[h] == Occurs(q, h) && b[h] == Occurs(r, h);
    assert a <= b;
    assert b == a + (b - a);
    assert |a| == |q| && |b| == |r|;
  }

  function Upto(n: nat): (r: seq<nat>)
    ensures |r| == n
  {
    if n == 0 then [] else Upto(n - 1) + [n]
  }

  lemma {:induction false} UptoOccurs(n: nat, h: nat)
    ensures Occurs(Upto(n), h) == One(1 <= h <= n)
  {
    if n > 0 {
      UptoOccurs(n - 1, h);
      assert multiset(Upto(n)) == multiset(Upto(n - 1)) + multiset{n};
    }
  }

  lemma Distinct(s: Pool)
    requires Places(s)
    ensures |s.came| <= s.n
  {
    forall h: nat ensures Occurs(s.came, h) <= Occurs(Upto(s.n), h) { UptoOccurs(s.n, h); }
    SubBag(s.came, Upto(s.n));
  }

  lemma ReplacedOccurs(table: seq<nat>, x: nat, y: nat, h: nat)
    requires x in table && x != y
    ensures Occurs(Replaced(table, x, y), h) == Occurs(table, h) + One(h == y) - One(h == x)
  {
    var i := Find(table, x);
    assert multiset(table[i := y]) == multiset(table) - multiset{x} + multiset{y};
    assert multiset(table)[x] > 0;
  }

  lemma HandlesAppend(gs: seq<Grant>, g: Grant)
    ensures Handles(gs + [g]) == Handles(gs) + [g.handle]
  {
  }

  /** More was queued than allocated while the table still holds a buffer. */
  lemma TokenMeansMore(s: Pool, h: nat)
    requires Places(s) && h != 0 && h in s.table
    ensures |s.went| < |s.came|
  {
    var q := Handles(s.went) + [h];
    assert Occurs(s.table, h) > 0;
    forall x: nat ensures Occurs(q, x) <= Occurs(s.came, x) {
      Snoc(Handles(s.went), h, x);
      assert x != 0 ==> PlacesOf(s, x) == One(x in s.queued);
    }
    SubBag(q, s.came);
  }

  lemma WentFits(s: Pool)
    requires Places(s)
    ensures |s.went| <= |s.came|
  {
    forall x: nat ensures Occurs(Handles(s.went), x) <= Occurs(s.came, x) {
      assert x != 0 ==> PlacesOf(s, x) == One(x in s.queued);
    }
    SubBag(Handles(s.went), s.came);
  }

  /** With a buffer still ready the table has room. */
  lemma TableHasRoom(s: Pool)
    requires Places(s) && Counters(s) && s.ready != []
    ensures 0 in s.table
  {
    if 0 !in s.table {
      var q := s.table + [s.ready[0]];
      forall x: nat ensures Occurs(q, x) <= Occurs(s.came, x) {
        Snoc(s.table, s.ready[0], x);
        Head(s.ready, x);
        assert x != 0 ==> PlacesOf(s, x) == One(x in s.queued);
        if x == 0 { assert Occurs(s.table, 0) == 0; }
      }
      SubBag(q, s.came);
      Distinct(s);
      assert false;
    }
  }
}
