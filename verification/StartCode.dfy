/** avpriv_find_start_code of drivers/amvdec_ports/decoder/aml_mpeg12_parser.c: the search that jumps
    three, two or one bytes, against a shift register fed one byte at a time. */
module StartCode {
  import opened Basics
  import opened Bytes

  const LOW: nat := 0x100_0000

  function Shift(state: nat, b: Byte): (r: nat)
    ensures r < WORD
  {
    (state * 256 + b) % WORD
  }

  /** The last three bytes seen are 00 00 01. */
  predicate Armed(state: nat) { state % LOW == 1 }

  /** state is a start code 00 00 01 xx. */
  predicate IsCode(state: nat) { state / 256 == 1 }

  /** One byte at a time from p: stop after the byte that follows 00 00 01, or at the end. */
  function Scan(buf: seq<Byte>, p: nat, state: nat): (r: (nat, nat))
    requires p <= |buf|
    ensures p <= r.0 <= |buf|
    ensures state < WORD ==> r.1 < WORD
    decreases |buf| - p
  {
    if p == |buf| then (p, state)
    else if Armed(state) then (p + 1, Shift(state, buf[p]))
    else Scan(buf, p + 1, Shift(state, buf[p]))
  }

  /** Bytes p-3 .. p-1, as the state's low 24 bits. */
  function Last3(buf: seq<Byte>, p: nat): nat
    requires 3 <= p <= |buf|
  {
    65536 * (buf[p - 3] as int) + 256 * (buf[p - 2] as int) + buf[p - 1]
  }

  /** AV_RB32 of the four bytes before p. */
  function Last4(buf: seq<Byte>, p: nat): nat
    requires 4 <= p <= |buf|
  {
    0x100_0000 * (buf[p - 4] as int) + Last3(buf, p)
  }

  lemma ShiftIs(state: nat, b: Byte)
    requires state < WORD
    ensures Shift(state, b) == state * 256 % WORD + b == state % LOW * 256 + b
  {
    var hi, lo := state / LOW, state % LOW;
    assert state * 256 == hi * WORD + lo * 256;
    assert state * 256 % WORD == lo * 256;
    assert (state * 256 + b) % WORD == lo * 256 + b;
  }

  lemma LowBits(state: nat)
    ensures state % LOW % 65536 == state % 65536
    ensures state % LOW % 256 == state % 256
  {
  }

  /** The low bits of the register after one more byte. */
  lemma ShiftLow(state: nat, b: Byte)
    requires state < WORD
    ensures Shift(state, b) == state * 256 % WORD + b
    ensures Shift(state, b) % LOW == state % 65536 * 256 + b
    ensures Shift(state, b) % 65536 == state % 256 * 256 + b
    ensures Shift(state, b) % 256 == b
    ensures state * 256 % WORD == 0x100 <==> Armed(state)
    ensures IsCode(Shift(state, b)) <==> Armed(state)
  {
    var lo := state % LOW;
    ShiftIs(state, b);
    LowBits(state);
    LowThree(lo, b);
    hide Shift;
  }

  lemma LowThree(lo: nat, b: Byte)
    requires lo < LOW
    ensures (lo * 256 + b) % LOW == lo % 65536 * 256 + b
    ensures (lo * 256 + b) % 65536 == lo % 256 * 256 + b
    ensures (lo * 256 + b) % 256 == b
    ensures (lo * 256 + b) / 256 == lo
  {
    assert lo * 256 == lo / 65536 * LOW + lo % 65536 * 256;
    assert lo * 256 == lo / 256 * 65536 + lo % 256 * 256;
  }

  lemma ScanStep(buf: seq<Byte>, p: nat, state: nat)
    requires p <= |buf|
    ensures p == |buf| ==> Scan(buf, p, state) == (p, state)
    ensures p < |buf| && Armed(state) ==> Scan(buf, p, state) == (p + 1, Shift(state, buf[p]))
    ensures p < |buf| && !Armed(state) ==> Scan(buf, p, state) == Scan(buf, p + 1, Shift(state, buf[p]))
  {
  }

  /** The register's low bytes after one more byte. */
  lemma ShiftLast(buf: seq<Byte>, p: nat, state: nat)
    requires 3 <= p < |buf| && state < WORD && state % LOW == Last3(buf, p)
    ensures Shift(state, buf[p]) == Last4(buf, p + 1)
    ensures Shift(state, buf[p]) % LOW == Last3(buf, p + 1)
  {
    ShiftIs(state, buf[p]);
    hide Shift;
  }

  /** Where a scan that has reached p stands: the register agrees with the buffer. */
  predicate At(buf: seq<Byte>, start: nat, state: nat, p: nat, cur: nat)
    requires start + 3 <= p <= |buf|
  {
    && cur < WORD && cur % LOW == Last3(buf, p)
    && (start + 4 <= p ==> cur == Last4(buf, p))
    && Scan(buf, start, state) == Scan(buf, p, cur)
  }

  lemma Advance(buf: seq<Byte>, start: nat, state: nat, p: nat, cur: nat)
    requires start + 3 <= p < |buf| && At(buf, start, state, p, cur) && !Armed(cur)
    ensures At(buf, start, state, p + 1, Shift(cur, buf[p]))
  {
    ShiftLast(buf, p, cur);
  }

  /** The three bytes before p cannot be 00 00 01. */
  predicate Quiet(buf: seq<Byte>, p: nat)
    requires 3 <= p <= |buf|
  {
    buf[p - 1] != 1 || buf[p - 2] != 0 || buf[p - 3] != 0
  }

  /** Up to n quiet positions are passed without a stop; the scan may run into the end. */
  lemma {:induction false} Jump(buf: seq<Byte>, start: nat, state: nat, p: nat, cur: nat, n: nat) returns (cur': nat)
    requires start + 3 <= p <= |buf| && At(buf, start, state, p, cur)
    requires forall q :: p <= q < p + n && q < |buf| ==> Quiet(buf, q)
    ensures At(buf, start, state, Min(p + n, |buf|), cur')
    decreases n
  {
    if n == 0 || p == |buf| {
      cur' := cur;
    } else {
      assert Quiet(buf, p);
      Advance(buf, start, state, p, cur);
      cur' := Jump(buf, start, state, p + 1, Shift(cur, buf[p]), n - 1);
    }
  }

  lemma Stop(buf: seq<Byte>, p: nat, cur: nat)
    requires 3 <= p < |buf| && cur < WORD && cur % LOW == Last3(buf, p) && !Quiet(buf, p)
    ensures Scan(buf, p, cur) == (p + 1, Last4(buf, p + 1))
  {
    ShiftLast(buf, p, cur);
  }

  /** The jumping loop, lines 66-80, once three bytes are in the register. */
  method JumpSearch(buf: seq<Byte>, ghost start: nat, ghost state: nat, from: nat, ghost reg: nat)
      returns (p: nat, s: nat)
    requires start + 3 <= from < |buf| && At(buf, start, state, from, reg)
    ensures (p, s) == Scan(buf, start, state)
  {
    hide Shift, Armed, Scan, IsCode;
    ghost var cur: nat := reg;
    p := from;
    while p < |buf|
      invariant start + 3 <= p
      invariant At(buf, start, state, Min(p, |buf|), cur)
      decreases |buf| - p
    {
      if buf[p - 1] > 1 {
        cur := Jump(buf, start, state, p, cur, 3);
        p := p + 3;
      } else if buf[p - 2] != 0 {
        cur := Jump(buf, start, state, p, cur, 2);
        p := p + 2;
      } else if buf[p - 3] != 0 || buf[p - 1] as int - 1 != 0 {
        cur := Jump(buf, start, state, p, cur, 1);
        p := p + 1;
      } else {
        Stop(buf, p, cur);
        p := p + 1;
        s := Last4(buf, p);
        return;
      }
    }
    p := Min(p, |buf|);
    ScanStep(buf, p, cur);
    s := Last4(buf, p);
  }

  /** The driver's search returns the same place and the same register as the one-byte scan. */
  method FindStartCode(buf: seq<Byte>, start: nat, state: nat) returns (p: nat, s: nat)
    requires start <= |buf| && state < WORD
    ensures (p, s) == Scan(buf, start, state)
  {
    hide Shift, Armed, Scan, IsCode;
    p, s := start, state;
    if p >= |buf| {
      ScanStep(buf, p, s);
      return;
    }
    for i := 0 to 3
      invariant p == start + i < |buf| && s < WORD
      invariant Scan(buf, start, state) == Scan(buf, p, s)
      invariant i == 1 ==> s % 256 == buf[p - 1]
      invariant i == 2 ==> s % 65536 == 256 * (buf[p - 2] as int) + buf[p - 1]
      invariant i == 3 ==> s % LOW == Last3(buf, p)
    {
      ShiftLow(s, buf[p]);
      ScanStep(buf, p, s);
      ScanStep(buf, p + 1, Shift(s, buf[p]));
      var tmp := s * 256 % WORD;
      s := tmp + buf[p];
      p := p + 1;
      if tmp == 0x100 || p == |buf| {
        return;
      }
    }
    p, s := JumpSearch(buf, start, state, p, s);
  }

  // ----- what a scan finds -----

  /** A start code 00 00 01 xx at k. */
  predicate CodeAt(buf: seq<Byte>, k: nat) {
    k + 3 < |buf| && buf[k] == 0 && buf[k + 1] == 0 && buf[k + 2] == 1
  }

  /** The search register before any byte: all ones. */
  const FRESH: nat := 0xffff_ffff

  function ByteBefore(buf: seq<Byte>, start: nat, p: int): int
    requires p <= |buf|
  {
    if p - 1 < start then 255 else buf[p - 1]
  }

  function Window(buf: seq<Byte>, start: nat, p: nat): int
    requires p <= |buf|
  {
    65536 * ByteBefore(buf, start, p - 2) + 256 * ByteBefore(buf, start, p - 1) + ByteBefore(buf, start, p)
  }

  lemma WindowShift(buf: seq<Byte>, start: nat, p: nat, cur: nat)
    requires start <= p < |buf| && cur < WORD && cur % LOW == Window(buf, start, p)
    ensures Shift(cur, buf[p]) % LOW == Window(buf, start, p + 1)
    ensures Armed(cur) <==> p >= start + 3 && CodeAt(buf, p - 3)
    ensures Armed(cur) ==> Shift(cur, buf[p]) == 0x100 + buf[p] as int
    ensures IsCode(Shift(cur, buf[p])) <==> Armed(cur)
  {
    LowBits(cur);
    ShiftLow(cur, buf[p]);
    ShiftIs(cur, buf[p]);
    hide Shift;
  }

  /** What a finished search reports about the codes at or after position from. */
  predicate Reports(buf: seq<Byte>, from: int, p: nat, s: nat)
    requires p <= |buf|
  {
    && (IsCode(s) ==> p >= 4 && p - 4 >= from && CodeAt(buf, p - 4) && s == 0x100 + buf[p - 1] as int
                      && forall k: nat :: from <= k < p - 4 ==> !CodeAt(buf, k))
    && (!IsCode(s) ==> p == |buf| && forall k: nat :: from <= k < |buf| ==> !CodeAt(buf, k))
  }

  lemma {:induction false} ScanReports(buf: seq<Byte>, start: nat, p: nat, cur: nat)
    requires start <= p <= |buf| && cur < WORD && cur % LOW == Window(buf, start, p) && !IsCode(cur)
    ensures var (q, s) := Scan(buf, p, cur);
            Reports(buf, if p < start + 3 then start else p - 3, q, s)
    decreases |buf| - p
  {
    ScanStep(buf, p, cur);
    hide Scan, Shift, Armed, IsCode, Window;
    if p < |buf| {
      WindowShift(buf, start, p, cur);
      if !Armed(cur) {
        ScanReports(buf, start, p + 1, Shift(cur, buf[p]));
      }
    }
  }

  /** A search that starts fresh, as mpegvideo_extract_headers does each time, finds the first start
      code of the rest of the buffer, or reports that there is none. */
  lemma FreshScanFindsFirst(buf: seq<Byte>, start: nat)
    requires start <= |buf|
    ensures var (p, s) := Scan(buf, start, FRESH);
            Reports(buf, start, p, s)
  {
    ScanReports(buf, start, start, FRESH);
  }

  // ----- carrying the register across buffers -----

  lemma {:induction false} ScanOffset(a: seq<Byte>, b: seq<Byte>, p: nat, state: nat)
    requires p <= |b|
    ensures Scan(a + b, |a| + p, state) == (|a| + Scan(b, p, state).0, Scan(b, p, state).1)
    decreases |b| - p
  {
    if p < |b| && !Armed(state) {
      ScanOffset(a, b, p + 1, Shift(state, b[p]));
      assert (a + b)[|a| + p] == b[p];
    }
  }

  /** Two pieces with the register carried over give what the whole buffer gives. */
  lemma {:induction false} ScanPieces(a: seq<Byte>, b: seq<Byte>, p: nat, state: nat)
    requires p < |a| && state < WORD
    ensures var (q, t) := Scan(a, p, state);
            Scan(a + b, p, state) == if IsCode(t) then (q, t) else (|a| + Scan(b, 0, t).0, Scan(b, 0, t).1)
    decreases |a| - p
  {
    var next := Shift(state, a[p]);
    ShiftLow(state, a[p]);
    ScanStep(a, p, state);
    ScanStep(a + b, p, state);
    ScanStep(a, |a|, next);
    assert (a + b)[p] == a[p];
    hide Scan, Shift, Armed, IsCode;
    if !Armed(state) {
      if p + 1 == |a| {
        ScanOffset(a, b, 0, next);
      } else {
        ScanPieces(a, b, p + 1, next);
      }
    }
  }
}
