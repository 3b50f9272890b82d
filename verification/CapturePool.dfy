/** The capture-buffer functions of drivers/amvdec_ports/aml_vcodec_dec.c over the token table and the
    cap_pool record. */
module CapturePool {
  import opened Basics
  import opened CapturePoolSpec
  import opened CapturePoolSafety

  /** m is the state of the state machine this context is in. */
  class Context {
    const n: nat
    var ready: seq<nat>
    const table: array<nat>
    var queued: set<nat>
    const words: array<nat>
    var inNum: nat
    var outNum: nat
    var dec: nat
    var vpp: nat
    var ge2d: nat
    var used: nat
    ghost var m: Pool

    ghost predicate Tied()
      reads this, table, words
    {
      && table != words && table.Length == CAP_BUFF_MAX && words.Length == CAP_BUFF_MAX && n == m.n
      && ready == m.ready && table[..] == m.table && queued == m.queued
      && words[..] == m.words
      && inNum == m.inNum && outNum == m.outNum && used == m.used && dec == m.dec && vpp == m.vpp && ge2d == m.ge2d
    }

    ghost predicate Valid()
      reads this, table, words
    {
      Inv(m) && Tied()
    }

    constructor (n: nat, ghost tok: map<Requester, nat>)
      requires n <= CAP_BUFF_MAX && TokensFresh(n, tok)
      ensures Valid() && m == Start(n, tok) && fresh(table) && fresh(words)
    {
      this.n := n;
      ready, queued, inNum, outNum, dec, vpp, ge2d, used := [], {}, 0, 0, 0, 0, 0, 0;
      table := new nat[CAP_BUFF_MAX](i => 0);
      words := new nat[CAP_BUFF_MAX](i => 0);
      m := Start(n, tok);
      StartHolds(n, tok);
      hide Inv;
      new;
      assert table[..] == m.table && words[..] == m.words;
    }

    /** The scan loops of fb_token_insert and fb_token_remove. */
    method Scan(x: nat) returns (i: nat)
      ensures i == Find(table[..], x)
    {
      i := 0;
      while i < table.Length && table[i] != x
        invariant i <= table.Length && forall j :: 0 <= j < i ==> table[j] != x
      {
        i := i + 1;
      }
      FindIs(table[..], x, i);
    }

    /** fb_token_remove. */
    method TokenRemove(token: nat)
      modifies table
      ensures table[..] == Replaced(old(table[..]), token, 0)
    {
      var i := Scan(token);
      if i < table.Length {
        table[i] := 0;
      }
    }

    /** fb_token_clean. */
    method TokenClean()
      modifies table
      ensures table[..] == Repeat<nat>(0, table.Length)
    {
      for i := 0 to table.Length
        invariant forall j :: 0 <= j < i ==> table[j] == 0
      {
        table[i] := 0;
      }
    }

    /** Lines 1073-1080: the first ready buffer goes to the first free entry. */
    method TakeReady() returns (handle: nat)
      requires ready != [] && 0 in table[..]
      modifies this`ready, table
      ensures handle == old(ready)[0] && ready == old(ready)[1..]
      ensures table[..] == Replaced(old(table[..]), 0, handle)
    {
      handle := ready[0];
      ready := ready[1..];
      var i := Scan(0);
      table[i] := handle;
    }

    /** fb_token_insert: what is done to the queue and the table. */
    method TokenInsert(token: nat) returns (ok: bool, tokenOut: nat)
      requires ready == [] || 0 in table[..]
      modifies this`ready, table
      ensures ok <==> (token != 0 && token in old(table[..])) || old(ready) != []
      ensures (token != 0 && token in old(table[..])) || old(ready) == [] ==>
                tokenOut == token && ready == old(ready) && table[..] == old(table[..])
      ensures !(token != 0 && token in old(table[..])) && old(ready) != [] ==>
                && tokenOut == old(ready)[0] && ready == old(ready)[1..]
                && table[..] == Replaced(old(table[..]), 0, old(ready)[0])
    {
      hide Replaced;
      tokenOut := token;
      var i := table.Length;
      if token != 0 {
        i := Scan(token);
      }
      if i < table.Length {
        ok := true;
      } else if ready == [] {
        ok := false;
      } else {
        ok := true;
        tokenOut := TakeReady();
      }
    }

    /** fb_buff_query, for the requester whose token is given. */
    method Query(ghost r: Requester, token: nat, streaming: bool) returns (ok: bool, tokenOut: nat)
      requires Valid() && token == Tok(m, r)
      modifies this`ready, this`m, table
      ensures Valid() && m == Next(old(m), Action.Query(r, streaming)) && tokenOut == Tok(m, r)
      ensures ok <==> streaming && (old(m.ready) != [] || (token != 0 && token in old(m.table)))
      ensures ok ==> r in m.holds && tokenOut != 0
    {
      if !streaming {
        return false, token;
      }
      hide Inv, InsertNext, Replaced;
      InsertKeeps(m, r);
      Shape(m);
      InsertEffect(m, r);
      ok, tokenOut := TokenInsert(token);
      m := InsertNext(m, r);
    }

    /** Lines 1282-1296: the counter of the requester and the record of the allocation. */
    method Count(r: Requester, buf: nat)
      requires outNum < words.Length && words != table
      modifies this`used, this`outNum, this`vpp, this`dec, this`ge2d, words
      ensures used == old(used) + 1 && outNum == old(outNum) + 1
      ensures dec == old(dec) + One(r == Dec) && vpp == old(vpp) + One(r == Vpp) && ge2d == old(ge2d) + One(r == Ge2d)
      ensures words[..] == Write(old(words[..]), old(outNum), Word(Status(r), buf + 1))
    {
      used := used + 1;
      match r {
        case Vpp => vpp := vpp + 1;
        case Dec => dec := dec + 1;
        case Ge2d => ge2d := ge2d + 1;
      }
      words[outNum] := Status(r) * 65536 + buf;
      outNum := outNum + 1;
    }

    /** fb_buff_from_queue; buf is the index of the buffer given. The token is not looked up: each buffer stays
        in one place if and only if the table holds it, and the invariant stays when the requester was
        given it. */
    method Alloc(r: Requester, token: nat, off: bool) returns (ret: int, buf: nat)
      requires Valid() && token == Tok(m, r) && (off || token == 0 || outNum < CAP_BUFF_MAX)
      modifies this, table, words
      ensures Tied() && m == Next(old(m), Action.Alloc(r, off))
      ensures ret == if off || token == 0 then -1 else 0
      ensures ret == -1 ==> Valid()
      ensures ret == 0 ==> buf == token - 1 && (Places(m) <==> token in old(table[..]))
      ensures ret == 0 && r in old(m.holds) ==> Valid() && token !in table[..]
    {
      hide Inv, AllocNext, Replaced, Write, Word, Status, Places;
      ret, buf := -1, 0;
      if off || token == 0 {
        return;
      }
      if r in m.holds {
        AllocRoom(m, r);
        AllocKeeps(m, r);
      }
      AllocEffect(m, r);
      AllocNeedsToken(m, r);
      ret, buf := 0, token - 1;
      Count(r, buf);
      TokenRemove(token);
      m := AllocNext(m, r);
    }

    /** Lines 4279-4282. */
    method Enqueue(handle: nat)
      requires inNum < words.Length && words != table && handle != 0
      modifies this`inNum, this`ready, this`queued, words
      ensures inNum == old(inNum) + 1 && ready == old(ready) + [handle] && queued == old(queued) + {handle}
      ensures words[..] == Write(old(words[..]), old(inNum), Word(IN_M2M, handle))
    {
      words[inNum] := IN_M2M * 65536 + (handle - 1);
      inNum := inNum + 1;
      ready := ready + [handle];
      queued := queued + {handle};
    }

    /** The capture branch of vb2ops_vdec_buf_queue. */
    method BufQueue(handle: nat)
      requires Valid() && 1 <= handle <= n
      modifies this, words
      ensures Valid() && m == Next(old(m), Queue(handle))
      ensures inNum == old(inNum) + One(handle !in old(queued))
    {
      hide Inv, Write, Word, QueueNext;
      if handle !in queued {
        QueueKeeps(m, handle);
        QueueRoom(m, handle);
        QueueEffect(m, handle);
        Enqueue(handle);
        m := QueueNext(m, handle);
      } else {
        QueuedStays(m, handle);
      }
    }

    /** The loop over the buffers. */
    method ClearWords()
      requires n <= words.Length
      modifies words
      ensures forall j :: 0 <= j < words.Length ==> words[j] == if j < n then 0 else old(words[j])
    {
      for i := 0 to n
        invariant forall j :: 0 <= j < words.Length ==> words[j] == if j < i then 0 else old(words[j])
      {
        words[i] := 0;
      }
    }

    /** The capture branch of vb2ops_vdec_stop_streaming. */
    method StopStreaming()
      requires Valid()
      modifies this, table, words
      ensures m == Start(n, old(m.tok)) && Tied()
      ensures TokensFresh(n, m.tok) ==> Valid()
      ensures forall i :: 0 <= i < n ==> words[i] == 0
    {
      Unwritten(m);
      StartFields(n, m.tok);
      hide Inv, Start, TokensFresh;
      ClearWords();
      AllZero(words[..]);
      TokenClean();
      ready, queued := [], {};
      used, inNum, outNum, dec, vpp, ge2d := 0, 0, 0, 0, 0, 0;
      m := Start(n, m.tok);
      if TokensFresh(n, m.tok) { StartHolds(n, m.tok); }
    }
  }

  lemma StartFields(n: nat, tok: map<Requester, nat>)
    ensures var s := Start(n, tok);
            && s.n == n && s.ready == [] && s.queued == {} && s.tok == tok
            && s.table == s.words == Repeat<nat>(0, CAP_BUFF_MAX)
            && (s.inNum, s.outNum, s.used, s.dec, s.vpp, s.ge2d) == (0, 0, 0, 0, 0, 0)
  {
  }

  /** What a query finds. */
  lemma Shape(s: Pool)
    requires Inv(s)
    ensures |s.table| == CAP_BUFF_MAX && (s.ready != [] ==> 0 in s.table && s.ready[0] != 0)
  {
    if s.ready != [] {
      TableHasRoom(s);
      assert Occurs(s.ready, s.ready[0]) > 0;
    }
  }

  lemma AllocRoom(s: Pool, r: Requester)
    requires Inv(s) && r in s.holds
    ensures s.outNum < CAP_BUFF_MAX && |s.words| == CAP_BUFF_MAX && Tok(s, r) in s.table
    ensures Tok(s, r) !in AllocNext(s, r).table
  {
    var h := Tok(s, r);
    TokenMeansMore(s, h);
    assert PlacesOf(s, h) == One(h in s.queued) && Occurs(s.table, h) > 0;
    ReplacedOccurs(s.table, h, 0, h);
  }

  /** What fb_token_insert changes: the queue, the table, the requester's token and that it holds one. */
  lemma InsertEffect(s: Pool, r: Requester)
    requires |s.table| == CAP_BUFF_MAX && (s.ready != [] ==> 0 in s.table)
    ensures var h, t := Tok(s, r), InsertNext(s, r);
            && t == s.(ready := t.ready, table := t.table, tok := t.tok, holds := t.holds)
            && (r in t.holds <==> (h != 0 && h in s.table) || s.ready != [])
            && ((h != 0 && h in s.table) || s.ready == [] ==>
                  t.ready == s.ready && t.table == s.table && Tok(t, r) == h)
            && (!(h != 0 && h in s.table) && s.ready != [] ==>
                  && t.ready == s.ready[1..] && t.table == Replaced(s.table, 0, s.ready[0])
                  && Tok(t, r) == s.ready[0])
  {
  }

  lemma AllZero(w: seq<nat>)
    requires forall i :: 0 <= i < |w| ==> w[i] == 0
    ensures w == Repeat<nat>(0, |w|)
  {
  }

  lemma QueueEffect(s: Pool, h: nat)
    requires h !in s.queued
    ensures QueueNext(s, h) == s.(ready := s.ready + [h], queued := s.queued + {h}, came := s.came + [h],
                                  words := Write(s.words, s.inNum, Word(IN_M2M, h)), inNum := s.inNum + 1)
  {
  }

  lemma QueuedStays(s: Pool, h: nat)
    requires h in s.queued
    ensures QueueNext(s, h) == s
  {
  }

  lemma AllocEffect(s: Pool, r: Requester)
    ensures var t := AllocNext(s, r);
            && t.n == s.n && t.ready == s.ready && t.queued == s.queued && t.inNum == s.inNum && t.tok == s.tok
            && t.outNum == s.outNum + 1 && t.used == s.used + 1 && t.table == Replaced(s.table, Tok(s, r), 0)
            && t.words == Write(s.words, s.outNum, Word(Status(r), Tok(s, r)))
            && t.dec == s.dec + One(r == Dec) && t.vpp == s.vpp + One(r == Vpp) && t.ge2d == s.ge2d + One(r == Ge2d)
  {
  }

  lemma Unwritten(s: Pool)
    requires Inv(s)
    ensures s.n <= CAP_BUFF_MAX && forall i :: s.n <= i < |s.words| ==> s.words[i] == 0
  {
    Distinct(s);
  }

  lemma QueueRoom(s: Pool, h: nat)
    requires Inv(s) && Inv(QueueNext(s, h)) && h !in s.queued
    ensures s.inNum < CAP_BUFF_MAX && |s.words| == CAP_BUFF_MAX
  {
  }
}
