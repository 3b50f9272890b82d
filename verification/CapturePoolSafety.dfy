/** The bookkeeping of the capture buffers over all runs of a session. */
module CapturePoolSafety {
  import opened Basics
  import opened CapturePoolSpec

  // ----- queueing -----

  lemma QueueKeeps(s: Pool, h: nat)
    requires Inv(s) && 1 <= h <= s.n
    ensures Inv(QueueNext(s, h))
  {
    if h !in s.queued {
      QueuePlaces(s, h);
      Distinct(QueueNext(s, h));
      WentFits(s);
      assert Records(QueueNext(s, h)) by { hide Places, Tokens; }
      assert Tokens(QueueNext(s, h)) by { hide Places, Records; }
      hide Places, Records, Tokens;
    }
  }

  lemma QueuePlaces(s: Pool, h: nat)
    requires Places(s) && h !in s.queued && 1 <= h <= s.n
    ensures Places(QueueNext(s, h))
  {
    var t := QueueNext(s, h);
    forall x: nat
      ensures x != 0 ==> PlacesOf(t, x) == One(x in t.queued)
      ensures Occurs(t.came, x) == One(x in t.queued)
    {
      Snoc(s.ready, h, x);
      Snoc(s.came, h, x);
      assert x != 0 ==> PlacesOf(s, x) == One(x in s.queued);
    }
    Snoc(s.ready, h, 0);
  }

  // ----- querying -----

  /** Taking the first ready buffer into the table. */
  function TakeNext(s: Pool, r: Requester): Pool
    requires s.ready != []
  {
    s.(ready := s.ready[1..], table := Replaced(s.table, 0, s.ready[0]), tok := s.tok[r := s.ready[0]],
       holds := s.holds + {r})
  }

  lemma TakePlaces(s: Pool, r: Requester)
    requires Places(s) && s.ready != [] && 0 in s.table
    ensures Places(TakeNext(s, r)) && s.ready[0] != 0
    ensures forall x: nat :: Occurs(TakeNext(s, r).table, x)
                             == Occurs(s.table, x) + One(x == s.ready[0]) - One(x == 0)
    ensures Occurs(s.table, s.ready[0]) == 0
  {
    var t := TakeNext(s, r);
    Head(s.ready, 0);
    forall x: nat
      ensures x != 0 ==> PlacesOf(t, x) == One(x in t.queued)
      ensures Occurs(t.table, x) == Occurs(s.table, x) + One(x == s.ready[0]) - One(x == 0)
    {
      Head(s.ready, x);
      ReplacedOccurs(s.table, 0, s.ready[0], x);
      assert x != 0 ==> PlacesOf(s, x) == One(x in s.queued);
    }
    Head(s.ready, s.ready[0]);
    assert PlacesOf(s, s.ready[0]) == One(s.ready[0] in s.queued);
  }

  lemma TakeTokens(s: Pool, r: Requester)
    requires Places(s) && Tokens(s) && s.ready != [] && 0 in s.table && r !in s.holds
    ensures Tokens(TakeNext(s, r))
  {
    var t := TakeNext(s, r);
    TakePlaces(s, r);
    hide Places, Replaced;
    forall q | q in t.holds ensures Tok(t, q) != 0 && Tok(t, q) in t.table {
      if q != r { assert Occurs(s.table, Tok(s, q)) > 0; }
      assert Occurs(t.table, Tok(t, q)) > 0;
    }
    forall q | q in t.holds && q != r ensures Tok(t, q) != Tok(t, r) {
      assert Occurs(s.table, Tok(s, q)) > 0;
    }
    forall q: Requester | q !in t.holds ensures Unused(t, q) { assert Unused(s, q); }
  }

  /** A token that nobody was given since the session began is not in the table. */
  lemma UnusedNotInTable(s: Pool, r: Requester)
    requires Places(s) && Unused(s, r) && Tok(s, r) != 0
    ensures Tok(s, r) !in s.table
  {
    var h := Tok(s, r);
    assert PlacesOf(s, h) == One(h in s.queued);
    if h in Handles(s.went) { assert Occurs(Handles(s.went), h) > 0; }
    assert Occurs(s.table, h) == 0;
  }

  lemma InsertKeeps(s: Pool, r: Requester)
    requires Inv(s)
    ensures Inv(InsertNext(s, r))
  {
    if r in s.holds {
      assert InsertNext(s, r) == s.(holds := s.holds + {r}) == s;
    } else {
      assert Unused(s, r);
      if Tok(s, r) != 0 { UnusedNotInTable(s, r); }
      if s.ready == [] {
        assert InsertNext(s, r) == s;
      } else {
        TableHasRoom(s);
        TakePlaces(s, r);
        TakeTokens(s, r);
        assert InsertNext(s, r) == TakeNext(s, r);
        hide Places, Tokens;
      }
    }
  }

  // ----- allocating -----

  lemma AllocPlaces(s: Pool, r: Requester)
    requires Places(s) && Tok(s, r) != 0
    ensures Places(AllocNext(s, r)) <==> Tok(s, r) in s.table
  {
    var h, t := Tok(s, r), AllocNext(s, r);
    HandlesAppend(s.went, Grant(h, r));
    forall x: nat ensures Occurs(Handles(t.went), x) == Occurs(Handles(s.went), x) + One(x == h) {
      Snoc(Handles(s.went), h, x);
    }
    hide Handles;
    if h in s.table {
      forall x: nat ensures x != 0 ==> PlacesOf(t, x) == One(x in t.queued) {
        ReplacedOccurs(s.table, h, 0, x);
        assert x != 0 ==> PlacesOf(s, x) == One(x in s.queued);
      }
    } else {
      assert PlacesOf(t, h) == PlacesOf(s, h) + 1;
      assert PlacesOf(s, h) == One(h in s.queued);
      assert PlacesOf(t, h) != One(h in t.queued);
    }
  }

  lemma CountWhoAppend(gs: seq<Grant>, g: Grant, r: Requester)
    ensures CountWho(gs + [g], r) == CountWho(gs, r) + One(g.who == r)
  {
    assert (gs + [g])[..|gs|] == gs;
  }

  lemma AllocCounters(s: Pool, r: Requester)
    requires Counters(s)
    ensures Counters(AllocNext(s, r))
  {
    var g := Grant(Tok(s, r), r);
    CountWhoAppend(s.went, g, Dec);
    CountWhoAppend(s.went, g, Vpp);
    CountWhoAppend(s.went, g, Ge2d);
    hide CountWho;
  }

  lemma AllocRecords(s: Pool, r: Requester)
    requires Records(s) && |s.went| < |s.came|
    ensures Records(AllocNext(s, r))
  {
  }

  lemma AllocTokens(s: Pool, r: Requester)
    requires Tokens(s) && r in s.holds
    ensures Tokens(AllocNext(s, r))
  {
    var h, t := Tok(s, r), AllocNext(s, r);
    HandlesAppend(s.went, Grant(h, r));
    hide Replaced, Handles;
    forall q | q in t.holds ensures Tok(t, q) != 0 && Tok(t, q) in t.table {
      ReplacedOccurs(s.table, h, 0, Tok(s, q));
      assert Occurs(t.table, Tok(s, q)) > 0;
    }
    forall q: Requester | q !in t.holds ensures Unused(t, q) {
      if q != r { assert Unused(s, q); }
      assert h in Handles(t.went) by { assert Handles(t.went)[|s.went|] == h; }
    }
  }

  lemma AllocKeeps(s: Pool, r: Requester)
    requires Inv(s) && r in s.holds
    ensures Inv(AllocNext(s, r))
  {
    assert Tok(s, r) != 0 && Tok(s, r) in s.table;
    AllocPlaces(s, r);
    TokenMeansMore(s, Tok(s, r));
    AllocCounters(s, r);
    AllocRecords(s, r);
    AllocTokens(s, r);
    hide Places, Counters, Records, Tokens;
  }

  // ----- all runs -----

  lemma StepKeeps(s: Pool, a: Action)
    requires Inv(s) && Enabled(s, a)
    ensures Inv(Next(s, a))
  {
    hide Inv, QueueNext, InsertNext, AllocNext;
    match a
    case Queue(h) => QueueKeeps(s, h);
    case Query(r, _) => InsertKeeps(s, r);
    case Alloc(r, _) => AllocKeeps(s, r);
  }

  lemma {:induction false} RunKeeps(s0: Pool, acts: seq<Action>, s: Pool)
    requires Inv(s0) && Run(s0, acts, s)
    ensures Inv(s)
    decreases |acts|
  {
    hide Inv, Next, Enabled;
    if acts != [] {
      StepKeeps(s0, acts[0]);
      RunKeeps(Next(s0, acts[0]), acts[1..], s);
    }
  }

  /** No requester starts with the handle of one of the session's buffers. */
  predicate TokensFresh(n: nat, tok: map<Requester, nat>) {
    forall r :: r in tok ==> tok[r] == 0 || tok[r] > n
  }

  lemma StartHolds(n: nat, tok: map<Requester, nat>)
    requires n <= CAP_BUFF_MAX && TokensFresh(n, tok)
    ensures Inv(Start(n, tok))
  {
    var s := Start(n, tok);
    forall h: nat ensures h != 0 ==> PlacesOf(s, h) == 0 {
      assert h != 0 ==> h !in s.table;
    }
  }

  lemma {:induction false} WhoSums(gs: seq<Grant>)
    ensures CountWho(gs, Dec) + CountWho(gs, Vpp) + CountWho(gs, Ge2d) == |gs|
  {
    if gs != [] { WhoSums(gs[..|gs| - 1]); }
  }

  /** In a session that starts with fresh tokens: every queued buffer is in exactly one place, none is
      lost to a full table, and dec + vpp + ge2d == out == used <= in <= 32. */
  lemma SessionIsRight(n: nat, tok: map<Requester, nat>, acts: seq<Action>, s: Pool)
    requires n <= CAP_BUFF_MAX && TokensFresh(n, tok) && Run(Start(n, tok), acts, s)
    ensures Places(s) && s.lost == {}
    ensures s.dec + s.vpp + s.ge2d == s.outNum == s.used <= s.inNum <= 32
    ensures (s.dec, s.vpp, s.ge2d) == (CountWho(s.went, Dec), CountWho(s.went, Vpp), CountWho(s.went, Ge2d))
  {
    StartHolds(n, tok);
    RunKeeps(Start(n, tok), acts, s);
    WhoSums(s.went);
    hide Places;
  }

  /** seq holds the allocations in order, then the queueings that are not overwritten yet. */
  lemma SeqIsTheLog(n: nat, tok: map<Requester, nat>, acts: seq<Action>, s: Pool, i: nat)
    requires n <= CAP_BUFF_MAX && TokensFresh(n, tok) && Run(Start(n, tok), acts, s) && i < s.inNum
    ensures i < |s.words| && |s.went| == s.outNum && |s.came| == s.inNum
    ensures i < s.outNum ==>
              s.words[i] == (match s.went[i].who case Dec => 2 case Vpp => 3 case Ge2d => 4) * 0x1_0000
                            + s.went[i].handle - 1
    ensures i >= s.outNum ==> s.words[i] == 0x1_0000 + s.came[i] - 1
  {
    StartHolds(n, tok);
    RunKeeps(Start(n, tok), acts, s);
    NoNulls(s);
    hide Places;
  }

  lemma NoNulls(s: Pool)
    requires Places(s)
    ensures forall i :: 0 <= i < |s.went| ==> s.went[i].handle != 0
    ensures forall i :: 0 <= i < |s.came| ==> s.came[i] != 0
  {
    forall i | 0 <= i < |s.went| ensures s.went[i].handle != 0 {
      assert Occurs(Handles(s.went), Handles(s.went)[i]) > 0;
    }
    forall i | 0 <= i < |s.came| ensures s.came[i] != 0 { assert Occurs(s.came, s.came[i]) > 0; }
  }

  /** fb_buff_from_queue does not look the token up: from a sound state it leaves each buffer in one
      place exactly when the table holds the token. */
  lemma AllocNeedsToken(s: Pool, r: Requester)
    requires Inv(s) && Tok(s, r) != 0
    ensures Places(AllocNext(s, r)) <==> Tok(s, r) in s.table
  {
    AllocPlaces(s, r);
  }

  /** Nothing is asked for but while streaming is off. */
  predicate AllOff(acts: seq<Action>) {
    forall i :: 0 <= i < |acts| ==> (acts[i].Query? && !acts[i].streaming) || (acts[i].Alloc? && acts[i].off)
  }

  /** While streaming is off no buffer changes hands. */
  lemma {:induction false} OffMovesNothing(s0: Pool, acts: seq<Action>, s: Pool)
    requires AllOff(acts) && Run(s0, acts, s)
    ensures s == s0
    decreases |acts|
  {
    if acts != [] {
      assert Next(s0, acts[0]) == s0;
      assert AllOff(acts[1..]) by {
        forall i | 0 <= i < |acts[1..]|
          ensures (acts[1..][i].Query? && !acts[1..][i].streaming) || (acts[1..][i].Alloc? && acts[1..][i].off)
        {
          assert acts[1..][i] == acts[i + 1];
        }
      }
      hide Next, Enabled, AllOff;
      OffMovesNothing(s0, acts[1..], s);
    }
  }

  // ----- the order -----

  /** The last k of what was queued. */
  predicate Suffix(s: Pool) {
    |s.ready| <= |s.came| && s.ready == s.came[|s.came| - |s.ready|..]
  }

  lemma StepKeepsOrder(s: Pool, a: Action)
    requires Suffix(s)
    ensures Suffix(Next(s, a))
  {
    hide Replaced, Write, Word, Status, Tok;
    var t := Next(s, a);
    if t.came != s.came {
      assert t.came == s.came + t.came[|s.came|..] && t.ready == s.ready + t.came[|s.came|..];
    }
  }

  lemma {:induction false} RunKeepsOrder(s0: Pool, acts: seq<Action>, s: Pool)
    requires Suffix(s0) && Run(s0, acts, s)
    ensures Suffix(s)
    decreases |acts|
  {
    hide Suffix, Next, Enabled;
    if acts != [] {
      StepKeepsOrder(s0, acts[0]);
      RunKeepsOrder(Next(s0, acts[0]), acts[1..], s);
    }
  }

  /** Buffers are handed out in the order in which they were queued: in every run, whatever tokens it starts
      with, those still ready are the last ones queued, in their order. */
  lemma FirstQueuedFirstServed(n: nat, tok: map<Requester, nat>, acts: seq<Action>, s: Pool)
    requires Run(Start(n, tok), acts, s)
    ensures |s.ready| <= |s.came| && s.ready == s.came[|s.came| - |s.ready|..]
  {
    RunKeepsOrder(Start(n, tok), acts, s);
  }

  // ----- tokens left over from an earlier session -----

  function Other(r: Requester): (q: Requester)
    ensures q != r
  {
    if r == Dec then Vpp else Dec
  }

  function Stale(r: Requester, h: nat): seq<Action> {
    [Queue(h), Query(Other(r), true), Query(r, true), Alloc(Other(r), false), Alloc(r, false)]
  }

  /** With h left in r's token, r and another requester are both given buffer h. */
  lemma StaleRun(n: nat, tok: map<Requester, nat>, r: Requester, h: nat) returns (s: Pool)
    requires 1 <= h <= n && r in tok && tok[r] == h
    ensures Run(Start(n, tok), Stale(r, h), s) && s.outNum == 2 && s.inNum == 1
  {
    var q := Other(r);
    var s0 := Start(n, tok);
    var s1 := Next(s0, Queue(h));
    assert s1.ready == [h];
    var s2 := Next(s1, Query(q, true));
    StaleTaken(s1, q, h);
    var s3 := s2.(holds := {q, r});
    assert s3 == Next(s2, Query(r, true)) by {
      assert Tok(s2, r) == h && s2.table[0] == h;
      assert s2.holds + {r} == {q, r};
    }
    var s4 := Next(s3, Alloc(q, false));
    assert s4 == AllocNext(s3, q) && r in s4.holds && Tok(s4, r) == h;
    s := Next(s4, Alloc(r, false));
    assert s == AllocNext(s4, r);
    assert Enabled(s0, Queue(h)) && Enabled(s3, Alloc(q, false)) && Enabled(s4, Alloc(r, false));
    assert Enabled(s1, Query(q, true)) && Enabled(s2, Query(r, true));
    hide Next, Enabled, AllocNext;
    Five(s0, s1, s2, s3, s4, s, Stale(r, h));
  }

  lemma Five(s0: Pool, s1: Pool, s2: Pool, s3: Pool, s4: Pool, s5: Pool, acts: seq<Action>)
    requires |acts| == 5 && Enabled(s0, acts[0]) && s1 == Next(s0, acts[0])
    requires Enabled(s1, acts[1]) && s2 == Next(s1, acts[1]) && Enabled(s2, acts[2]) && s3 == Next(s2, acts[2])
    requires Enabled(s3, acts[3]) && s4 == Next(s3, acts[3]) && Enabled(s4, acts[4]) && s5 == Next(s4, acts[4])
    ensures Run(s0, acts, s5)
  {
    hide Next, Enabled;
    var a1, a2, a3, a4 := acts[1..], acts[2..], acts[3..], acts[4..];
    assert a1[1..] == a2 && a2[1..] == a3 && a3[1..] == a4 && a4[1..] == [];
    assert Run(s5, [], s5);
    assert Run(s4, a4, s5);
    assert Run(s3, a3, s5);
    assert Run(s2, a2, s5);
    assert Run(s1, a1, s5);
  }

  lemma StaleTaken(s: Pool, q: Requester, h: nat)
    requires s.ready == [h] && h != 0 && s.table == Repeat<nat>(0, CAP_BUFF_MAX) && s.holds == {}
    ensures Next(s, Query(q, true)).table == s.table[0 := h]
    ensures Next(s, Query(q, true)) == s.(ready := [], table := s.table[0 := h], tok := s.tok[q := h], holds := {q})
  {
    assert Tok(s, q) == 0 || Tok(s, q) !in s.table;
    assert 0 in s.table by { assert s.table[0] == 0; }
    FindIs(s.table, 0, 0);
  }

  /** Sessions are sound, whatever is done in them, exactly when they start with fresh tokens. */
  lemma FreshTokensNeeded(n: nat, tok: map<Requester, nat>)
    requires n <= CAP_BUFF_MAX
    ensures TokensFresh(n, tok) <==> forall acts, s :: Run(Start(n, tok), acts, s) ==> Places(s) && s.outNum <= s.inNum
  {
    if TokensFresh(n, tok) {
      forall acts, s | Run(Start(n, tok), acts, s) ensures Places(s) && s.outNum <= s.inNum {
        SessionIsRight(n, tok, acts, s);
      }
    } else {
      var r :| r in tok && 1 <= tok[r] <= n;
      var s := StaleRun(n, tok, r, tok[r]);
      assert !(s.outNum <= s.inNum);
    }
  }
}
