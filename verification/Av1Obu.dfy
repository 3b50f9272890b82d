/** parser_frame of drivers/amvdec_ports/decoder/vdec_av1_if.c for streams that are not Annex B:
    each OBU (section 5.3 of AV1) is copied behind a 20-byte header. */
module Av1Obu {
  import opened Basics
  import opened Bytes
  import opened Av1Leb

  const SEQUENCE_HEADER: nat := 1
  const TEMPORAL_DELIMITER: nat := 2
  const FRAME_HEADER: nat := 3
  const TILE_GROUP: nat := 4
  const FRAME: nat := 6
  const REDUNDANT_FRAME_HEADER: nat := 7
  const PADDING: nat := 15

  predicate ValidType(kind: nat) { 1 <= kind <= 8 || kind == PADDING }

  // ----- one OBU -----

  datatype Head = Head(kind: nat, size: nat) | BadHead

  /** obu_header of section 5.3.2, with the size flag required and the reserved bits zero. */
  function ReadHead(s: seq<Byte>): (r: Head)
    ensures r.Head? ==> ValidType(r.kind) && 1 <= r.size <= 2 && r.size <= |s|
  {
    if |s| < 1 || s[0] / 128 != 0 || !ValidType(s[0] / 8 % 16) || s[0] / 2 % 2 == 0 || s[0] % 2 != 0 then BadHead
    else if s[0] / 4 % 2 == 0 then Head(s[0] / 8 % 16, 1)
    else if |s| == 1 || s[1] % 8 != 0 then BadHead
    else Head(s[0] / 8 % 16, 2)
  }

  /** lead: bytes of header and size field; payload: the size they announce. */
  datatype Obu = Obu(kind: nat, lead: nat, payload: nat) | BadObu

  function ReadObu(s: seq<Byte>, max: nat): (r: Obu)
    ensures r.Obu? ==> ValidType(r.kind) && r.lead >= 2 && r.lead + r.payload <= |s|
  {
    match ReadHead(s)
    case BadHead => BadObu
    case Head(kind, size) =>
      match Decode(s[size..], max)
      case Unterminated => BadObu
      case Number(payload, n) =>
        if |s| - size - n < payload then BadObu else Obu(kind, size + n, payload)
  }

  /** An OBU with all its bytes. */
  datatype Unit = Unit(kind: nat, bytes: seq<Byte>)

  datatype Units = Units(units: seq<Unit>) | NotObus

  /** The OBUs that make up s, if s is nothing but OBUs. */
  function Split(s: seq<Byte>, max: nat): Units
    decreases |s|
  {
    if s == [] then Units([])
    else
      match ReadObu(s, max)
      case BadObu => NotObus
      case Obu(kind, lead, payload) => Prepend([Unit(kind, s[..lead + payload])], Split(s[lead + payload..], max))
  }

  function Prepend(us: seq<Unit>, rest: Units): Units {
    match rest case NotObus => NotObus case Units(vs) => Units(us + vs)
  }

  // ----- the order of OBUs -----

  function Kinds(us: seq<Unit>): (r: seq<nat>)
    ensures |r| == |us|
  {
    seq(|us|, i requires 0 <= i < |us| => us[i].kind)
  }

  /** A frame header came before position n, with no temporal delimiter since. */
  predicate HeaderSeen(ks: seq<nat>, n: nat)
    requires n <= |ks|
  {
    exists j :: 0 <= j < n && ks[j] == FRAME_HEADER && forall m :: j < m < n ==> ks[m] != TEMPORAL_DELIMITER
  }

  /** Tile groups and redundant headers need a frame header; a sequence header or frame excludes one. */
  predicate InPlace(ks: seq<nat>, i: nat)
    requires i < |ks|
  {
    && (ks[i] == TILE_GROUP || ks[i] == REDUNDANT_FRAME_HEADER ==> HeaderSeen(ks, i))
    && (ks[i] == SEQUENCE_HEADER || ks[i] == FRAME ==> !HeaderSeen(ks, i))
  }

  predicate Closes(kind: nat) { kind == FRAME_HEADER || kind == TILE_GROUP || kind == FRAME }

  /** The data may not stop while a frame is still open. */
  predicate Accepted(ks: seq<nat>) {
    && (forall i :: 0 <= i < |ks| ==> InPlace(ks, i))
    && ((ks != [] && Closes(ks[|ks| - 1])) || !HeaderSeen(ks, |ks|))
  }

  // ----- what is written -----

  predicate Small(us: seq<Unit>) { forall i :: 0 <= i < |us| ==> |us[i].bytes| + 8 < WORD }

  /** AMLV header with the size plus 8, and the size plus 4 as a four-byte LEB128 number. */
  function ObuHeader(n: nat): (r: seq<Byte>)
    requires n + 8 < WORD
    ensures |r| == 20
  {
    AmlvHeader(n + 8) + FixedSize(n + 4)
  }

  function Output(us: seq<Unit>): seq<Byte>
    requires Small(us)
  {
    if us == [] then []
    else
      var u := us[|us| - 1];
      Output(us[..|us| - 1]) + ObuHeader(|u.bytes|) + u.bytes
  }

  function TotalBytes(us: seq<Unit>): nat {
    if us == [] then 0 else TotalBytes(us[..|us| - 1]) + |us[|us| - 1].bytes|
  }

  lemma {:induction false} OutputLength(us: seq<Unit>)
    requires Small(us)
    ensures |Output(us)| == TotalBytes(us) + 20 * |us|
  {
    if us != [] { OutputLength(us[..|us| - 1]); }
  }

  // ----- the parser -----

  method ReadObuHeaderAndSize(s: seq<Byte>, max: nat) returns (ret: int, kind: nat, bytesRead: nat, payload: nat)
    ensures match ReadHead(s)
            case BadHead => ret == -1
            case Head(k, size) =>
              match Decode(s[size..], max)
              case Unterminated => ret == -1
              case Number(v, n) => ret == 0 && kind == k && bytesRead == size + n && payload == v
  {
    ret, kind, bytesRead, payload := -1, 0, 0, 0;
    if |s| < 1 {
      return;
    }
    var b := s[0];
    var size := 1;
    if b / 128 != 0 {
      return;
    }
    kind := b / 8 % 16;
    if !ValidType(kind) {
      return;
    }
    if b / 2 % 2 == 0 {
      return;
    }
    if b % 2 != 0 {
      return;
    }
    if b / 4 % 2 != 0 {
      if |s| == 1 {
        return;
      }
      size := size + 1;
      if s[1] % 8 != 0 {
        return;
      }
    }
    var length;
    ret, payload, length := UlebDecode(s[size..], max);
    bytesRead := size + length;
  }

  lemma HeaderSeenPrefix(ks: seq<nat>, i: nat)
    requires i <= |ks|
    ensures HeaderSeen(ks, i) == HeaderSeen(ks[..i], i)
  {
    if HeaderSeen(ks, i) {
      var j :| 0 <= j < i && ks[j] == FRAME_HEADER && forall m :: j < m < i ==> ks[m] != TEMPORAL_DELIMITER;
      assert ks[..i][j] == FRAME_HEADER;
    }
    if HeaderSeen(ks[..i], i) {
      var j :| 0 <= j < i && ks[..i][j] == FRAME_HEADER && forall m :: j < m < i ==> ks[..i][m] != TEMPORAL_DELIMITER;
      assert ks[j] == FRAME_HEADER && forall m :: j < m < i ==> ks[m] == ks[..i][m];
    }
  }

  lemma HeaderSeenNext(ks: seq<nat>, k: nat)
    ensures HeaderSeen(ks + [k], |ks|) == HeaderSeen(ks, |ks|)
    ensures HeaderSeen(ks + [k], |ks| + 1)
            == if k == TEMPORAL_DELIMITER then false else if k == FRAME_HEADER then true else HeaderSeen(ks, |ks|)
  {
    var t := ks + [k];
    HeaderSeenPrefix(t, |ks|);
    assert t[..|ks|] == ks && t[|ks|] == k;
    if HeaderSeen(t, |ks|) {
      var j :| 0 <= j < |ks| && t[j] == FRAME_HEADER && forall m :: j < m < |ks| ==> t[m] != TEMPORAL_DELIMITER;
      assert k != TEMPORAL_DELIMITER ==> forall m :: j < m < |t| ==> t[m] != TEMPORAL_DELIMITER;
    }
    if k == FRAME_HEADER { assert t[|ks|] == FRAME_HEADER; }
  }

  lemma InPlacePrefix(ks: seq<nat>, n: nat, i: nat)
    requires i < n <= |ks|
    ensures InPlace(ks, i) == InPlace(ks[..n], i)
  {
    HeaderSeenPrefix(ks, i);
    HeaderSeenPrefix(ks[..n], i);
    assert ks[..n][..i] == ks[..i];
  }

  /** What parser_frame has to answer, decided by the whole input. */
  predicate Good(data: seq<Byte>, max: nat) {
    Split(data, max).Units? && Accepted(Kinds(Split(data, max).units))
  }

  /** The units read so far lead on to the whole. */
  predicate Leads(data: seq<Byte>, max: nat, us: seq<Unit>, pos: nat)
    requires pos <= |data|
  {
    Split(data, max) == Prepend(us, Split(data[pos..], max)) && TotalBytes(us) == pos
  }

  lemma SplitUnfolds(data: seq<Byte>, pos: nat, max: nat)
    requires pos < |data|
    ensures match ReadObu(data[pos..], max)
            case BadObu => Split(data[pos..], max) == NotObus
            case Obu(kind, lead, payload) =>
              var n := lead + payload;
              Split(data[pos..], max) == Prepend([Unit(kind, data[pos..pos + n])], Split(data[pos + n..], max))
  {
    hide ReadObu, Prepend;
    var o := ReadObu(data[pos..], max);
    if o.Obu? {
      var n := o.lead + o.payload;
      assert data[pos..][..n] == data[pos..pos + n] && data[pos..][n..] == data[pos + n..];
    }
  }

  lemma PrependTwice(us: seq<Unit>, vs: seq<Unit>, rest: Units)
    ensures Prepend(us, Prepend(vs, rest)) == Prepend(us + vs, rest)
  {
    if rest.Units? { assert us + (vs + rest.units) == us + vs + rest.units; }
  }

  lemma PrependNone(us: seq<Unit>)
    ensures Prepend(us, NotObus) == NotObus
  {
  }

  lemma TotalNext(us: seq<Unit>, u: Unit)
    ensures TotalBytes(us + [u]) == TotalBytes(us) + |u.bytes|
  {
    assert (us + [u])[..|us|] == us;
  }

  lemma LeadsOn(data: seq<Byte>, max: nat, us: seq<Unit>, pos: nat, u: Unit)
    requires pos + |u.bytes| <= |data| && Leads(data, max, us, pos)
    requires Split(data[pos..], max) == Prepend([u], Split(data[pos + |u.bytes|..], max))
    ensures Leads(data, max, us + [u], pos + |u.bytes|)
  {
    hide Split, TotalBytes, Prepend;
    PrependTwice(us, [u], Split(data[pos + |u.bytes|..], max));
    TotalNext(us, u);
  }

  lemma LeadsNext(data: seq<Byte>, max: nat, us: seq<Unit>, pos: nat)
    requires pos < |data| && Leads(data, max, us, pos)
    ensures match ReadObu(data[pos..], max)
            case BadObu => Split(data, max).NotObus?
            case Obu(kind, lead, payload) =>
              Leads(data, max, us + [Unit(kind, data[pos..pos + (lead + payload)])], pos + (lead + payload))
  {
    hide ReadObu, Split, TotalBytes, Prepend;
    SplitUnfolds(data, pos, max);
    var o := ReadObu(data[pos..], max);
    if o.BadObu? {
      PrependNone(us);
    } else {
      hide Leads;
      LeadsOn(data, max, us, pos, Unit(o.kind, data[pos..pos + (o.lead + o.payload)]));
    }
  }

  lemma KindsNext(us: seq<Unit>, u: Unit)
    ensures Kinds(us + [u]) == Kinds(us) + [u.kind]
  {
  }

  /** A unit out of place spoils every continuation. */
  lemma OutOfPlace(data: seq<Byte>, max: nat, us: seq<Unit>, pos: nat)
    requires pos <= |data| && Leads(data, max, us, pos) && us != []
    requires !InPlace(Kinds(us), |us| - 1)
    ensures !Good(data, max)
  {
    if Split(data, max).Units? {
      var ks := Kinds(Split(data, max).units);
      assert ks[..|us|] == Kinds(us);
      InPlacePrefix(ks, |us|, |us| - 1);
    }
  }

  lemma OutputNext(us: seq<Unit>, u: Unit)
    requires Small(us) && |u.bytes| + 8 < WORD
    ensures Small(us + [u]) && Output(us + [u]) == Output(us) + ObuHeader(|u.bytes|) + u.bytes
  {
    assert (us + [u])[..|us|] == us;
  }

  /** The state flag after a unit of the given kind, or None when it may not come now. */
  datatype Verdict = Go(seen: bool) | Stop

  function Judge(kind: nat, seen: bool): Verdict {
    if kind == TEMPORAL_DELIMITER then Go(false)
    else if kind == FRAME_HEADER then Go(true)
    else if kind == SEQUENCE_HEADER || kind == FRAME then (if seen then Stop else Go(false))
    else if kind == TILE_GROUP || kind == REDUNDANT_FRAME_HEADER then (if seen then Go(true) else Stop)
    else Go(seen)
  }

  /** Lines 845-974: the switch on the OBU type. */
  method CheckOrder(kind: nat, atEnd: bool, seen0: bool) returns (ok: bool, seen: bool, finished: bool)
    ensures ok == Judge(kind, seen0).Go?
    ensures ok ==> finished == (atEnd && Closes(kind))
    ensures ok && !finished ==> seen == Judge(kind, seen0).seen
  {
    ok, seen, finished := true, seen0, false;
    if kind == TEMPORAL_DELIMITER {
      seen := false;
    } else if kind == SEQUENCE_HEADER {
      ok := !seen;
    } else if kind == FRAME_HEADER {
      if atEnd {
        finished := true;
      } else {
        seen := true;
      }
    } else if kind == REDUNDANT_FRAME_HEADER || kind == FRAME {
      if kind == REDUNDANT_FRAME_HEADER {
        if !seen {
          return false, seen, false;
        }
      } else {
        if seen {
          return false, seen, false;
        }
      }
      if kind == FRAME && atEnd {
        finished := true;
        seen := false;
      }
    } else if kind == TILE_GROUP {
      if !seen {
        return false, seen, false;
      }
      finished := atEnd;
      if finished {
        seen := false;
      }
    }
  }

  lemma JudgeIsInPlace(ks: seq<nat>, kind: nat)
    ensures InPlace(ks + [kind], |ks|) <==> Judge(kind, HeaderSeen(ks, |ks|)).Go?
    ensures Judge(kind, HeaderSeen(ks, |ks|)).Go? ==>
              HeaderSeen(ks + [kind], |ks| + 1) == Judge(kind, HeaderSeen(ks, |ks|)).seen
  {
    HeaderSeenNext(ks, kind);
  }

  /** All units so far are in place. */
  predicate PlacedSoFar(ks: seq<nat>) { forall i :: 0 <= i < |ks| ==> InPlace(ks, i) }

  lemma PlacedNext(ks: seq<nat>, k: nat)
    requires PlacedSoFar(ks) && InPlace(ks + [k], |ks|)
    ensures PlacedSoFar(ks + [k])
  {
    forall i | 0 <= i < |ks| ensures InPlace(ks + [k], i) {
      InPlacePrefix(ks + [k], |ks|, i);
      assert (ks + [k])[..|ks|] == ks;
    }
  }

  /** At the end of the data the answer is known. */
  lemma AtEnd(data: seq<Byte>, max: nat, us: seq<Unit>)
    requires Leads(data, max, us, |data|) && PlacedSoFar(Kinds(us))
    ensures Split(data, max) == Units(us) && TotalBytes(us) == |data|
    ensures Good(data, max) <==>
            (us != [] && Closes(Kinds(us)[|us| - 1])) || !HeaderSeen(Kinds(us), |us|)
  {
    assert data[|data|..] == [] && us + [] == us;
  }

  /** parser_frame returns 0 exactly when the input is a sequence of OBUs in a legal order; it has then
      read all of it and written each OBU behind its header. */
  method ParserFrame(data: seq<Byte>, max: nat) returns (ret: int, out: seq<Byte>, frameLen: nat)
    requires |data| + 8 < WORD
    ensures ret == 0 <==> Good(data, max)
    ensures ret == 0 || ret == -1
    ensures ret == 0 ==>
              var us := Split(data, max).units;
              && Small(us) && out == Output(us)
              && TotalBytes(us) == |data| && |out| == |data| + 20 * |us| && frameLen == |out| % WORD
  {
    hide Split, Output, HeaderSeen, InPlace, Good, Kinds, TotalBytes, ReadObu, Closes, PlacedSoFar, Leads, Judge,
      ObuHeader, Read, ReadHead, Decode, Small;
    ret, out, frameLen := 0, [], 0;
    ghost var us: seq<Unit> := [];
    var pos: nat := 0;
    var seen, finished := false, false;
    Start(data, max);
    while !finished
      invariant pos <= |data| && Leads(data, max, us, pos) && PlacedSoFar(Kinds(us)) && |Kinds(us)| == |us|
      invariant Small(us) && out == Output(us) && |out| == pos + 20 * |us| && frameLen == |out| % WORD
      invariant finished ==> pos == |data| && Good(data, max)
      invariant !finished ==> seen == HeaderSeen(Kinds(us), |us|)
      invariant !finished && pos == |data| ==> us == [] || !Closes(Kinds(us)[|us| - 1])
      decreases !finished, |data| - pos
    {
      if pos == |data| {
        AtEnd(data, max, us);
      } else {
        LeadsNext(data, max, us, pos);
      }
      if pos == |data| && !seen {
        break;
      }
      var status, kind, bytesRead, payload := ReadObuHeaderAndSize(data[pos..], max);
      ObuOfParts(data[pos..], max);
      if status != 0 || |data| - pos - bytesRead < payload {
        if pos < |data| {
          NotGood(data, max);
        }
        return -1, out, frameLen;
      }
      ghost var ks := Kinds(us);
      ghost var u := Unit(kind, data[pos..pos + (bytesRead + payload)]);
      KindsNext(us, u);
      JudgeIsInPlace(ks, kind);
      OutputNext(us, u);
      out := out + ObuHeader(bytesRead + payload) + data[pos..pos + (bytesRead + payload)];
      WrapAdds(|out| - 20 - bytesRead - payload, 20 + bytesRead + payload);
      frameLen := (frameLen + 20 + bytesRead + payload) % WORD;
      us := us + [u];
      pos := pos + bytesRead + payload;
      var ok;
      ok, seen, finished := CheckOrder(kind, pos == |data|, seen);
      if !ok {
        OutOfPlace(data, max, us, pos);
        return -1, out, frameLen;
      }
      PlacedNext(ks, kind);
      if finished {
        AtEnd(data, max, us);
      }
    }
    AtEnd(data, max, us);
    ret := 0;
  }

  lemma WrapAdds(a: nat, b: nat)
    ensures (a % WORD + b) % WORD == (a + b) % WORD
  {
  }

  lemma Start(data: seq<Byte>, max: nat)
    ensures Leads(data, max, [], 0) && PlacedSoFar(Kinds([])) && Small([]) && Output([]) == []
    ensures !HeaderSeen(Kinds([]), 0) && |Kinds([])| == 0
  {
    assert data[0..] == data;
    match Split(data, max) case Units(us) => assert [] + us == us; case NotObus =>
  }

  lemma NotGood(data: seq<Byte>, max: nat)
    requires Split(data, max).NotObus?
    ensures !Good(data, max)
  {
  }

  lemma ObuOfParts(s: seq<Byte>, max: nat)
    ensures ReadObu(s, max)
            == match ReadHead(s)
               case BadHead => BadObu
               case Head(kind, size) =>
                 match Decode(s[size..], max)
                 case Unterminated => BadObu
                 case Number(payload, n) =>
                   if |s| - size - n < payload then BadObu else Obu(kind, size + n, payload)
  {
  }

  // ----- taking the OBUs out again -----

  datatype Payloads = Payloads(obus: seq<seq<Byte>>) | Malformed

  /** A receiver: check the AMLV header, read the LEB128 size behind it, take that many bytes less four. */
  function Receive(s: seq<Byte>, max: nat): Payloads
    decreases |s|
  {
    if s == [] then Payloads([])
    else if |s| < 20 || !HeaderOk(s) then Malformed
    else
      match Decode(s[16..], max)
      case Unterminated => Malformed
      case Number(v, n) =>
        if n != 4 || v < 4 || 16 + v > |s| || FromBe4(s[..4]) != v + 4 then Malformed
        else
          match Receive(s[16 + v..], max)
          case Malformed => Malformed
          case Payloads(os) => Payloads([s[20..16 + v]] + os)
  }

  /** The written form of the units from i on. */
  function OutputFrom(us: seq<Unit>, i: nat): seq<Byte>
    requires Small(us) && i <= |us|
    decreases |us| - i
  {
    if i == |us| then [] else ObuHeader(|us[i].bytes|) + us[i].bytes + OutputFrom(us, i + 1)
  }

  lemma Regroup(a: seq<Byte>, b: seq<Byte>, c: seq<Byte>, d: seq<Byte>)
    ensures a + b + c + d == a + (b + c + d)
  {
  }

  lemma {:induction false} OutputIsFrom(us: seq<Unit>, i: nat)
    requires Small(us) && i <= |us|
    ensures Output(us[..i]) + OutputFrom(us, i) == Output(us)
    decreases |us| - i
  {
    hide ObuHeader, Output;
    if i == |us| {
      assert us[..i] == us && Output(us) + [] == Output(us);
    } else {
      assert us[..i + 1] == us[..i] + [us[i]];
      OutputNext(us[..i], us[i]);
      OutputIsFrom(us, i + 1);
      Regroup(Output(us[..i]), ObuHeader(|us[i].bytes|), us[i].bytes, OutputFrom(us, i + 1));
    }
  }

  lemma ReceiveOne(b: seq<Byte>, rest: seq<Byte>, max: nat)
    requires |b| + 4 < 0x1000_0000 && |b| + 4 <= max
    ensures Receive(ObuHeader(|b|) + b + rest, max)
            == match Receive(rest, max) case Malformed => Malformed case Payloads(os) => Payloads([b] + os)
  {
    hide HeaderOk, FromBe4, AmlvHeader, FixedSize, Decode;
    var v := |b| + 4;
    var s := ObuHeader(|b|) + b + rest;
    AmlvRoundTrip(|b| + 8, FixedSize(v) + b + rest);
    assert s == AmlvHeader(|b| + 8) + (FixedSize(v) + b + rest);
    FixedSizeDecodes(v, max, b + rest);
    assert s[16..] == FixedSize(v) + (b + rest);
    assert s[20..16 + v] == b && s[16 + v..] == rest;
  }

  /** An OBU of 2^28 - 4 bytes or more does not get through. */
  lemma TooBig(b: seq<Byte>, rest: seq<Byte>, max: nat)
    requires |b| + 8 < WORD && |b| + 4 <= max && |b| + 4 >= 0x1000_0000
    ensures Receive(ObuHeader(|b|) + b + rest, max) == Malformed
  {
    hide HeaderOk, FromBe4, AmlvHeader, FixedSize, Decode;
    var v := |b| + 4;
    var s := ObuHeader(|b|) + b + rest;
    AmlvRoundTrip(|b| + 8, FixedSize(v) + b + rest);
    assert s == AmlvHeader(|b| + 8) + (FixedSize(v) + b + rest);
    FixedSizeDecodes(v, max, b + rest);
    assert s[16..] == FixedSize(v) + (b + rest);
  }

  function BytesFrom(us: seq<Unit>, i: nat): (r: seq<seq<Byte>>)
    requires i <= |us|
    ensures |r| == |us| - i
    decreases |us| - i
  {
    if i == |us| then [] else [us[i].bytes] + BytesFrom(us, i + 1)
  }

  lemma ReceiveNone(max: nat)
    ensures Receive([], max) == Payloads([])
  {
  }

  /** Every size from unit i on fits the four-byte field. */
  predicate FieldsFit(us: seq<Unit>, i: nat) { forall j :: i <= j < |us| ==> |us[j].bytes| + 4 < 0x1000_0000 }

  predicate FitsLong(us: seq<Unit>, max: nat) { forall j :: 0 <= j < |us| ==> |us[j].bytes| + 4 <= max }

  lemma {:induction false} ReceiveFrom(us: seq<Unit>, i: nat, max: nat)
    requires Small(us) && i <= |us| && FitsLong(us, max)
    ensures Receive(OutputFrom(us, i), max) == if FieldsFit(us, i) then Payloads(BytesFrom(us, i)) else Malformed
    decreases |us| - i
  {
    hide Receive, ObuHeader;
    if i < |us| {
      ReceiveFrom(us, i + 1, max);
      var b, rest := us[i].bytes, OutputFrom(us, i + 1);
      if |b| + 4 < 0x1000_0000 { ReceiveOne(b, rest, max); } else { TooBig(b, rest, max); }
      assert FieldsFit(us, i) <==> |b| + 4 < 0x1000_0000 && FieldsFit(us, i + 1);
    } else {
      ReceiveNone(max);
    }
  }

  /** A receiver gets exactly the OBUs back from what the parser writes if and only if each of them is
      below 2^28 - 4 bytes. */
  lemma ReceiveUndoesOutput(us: seq<Unit>, max: nat)
    requires Small(us) && FitsLong(us, max)
    ensures Receive(Output(us), max) == Payloads(BytesFrom(us, 0)) <==> FieldsFit(us, 0)
  {
    hide Receive, Output, OutputFrom, BytesFrom;
    OutputIsFrom(us, 0);
    assert us[..0] == [];
    assert Output([]) + OutputFrom(us, 0) == OutputFrom(us, 0) by { OutputOfNone(); }
    ReceiveFrom(us, 0, max);
  }

  lemma OutputOfNone()
    ensures Small([]) && Output([]) == []
  {
  }

  function Concat(bs: seq<seq<Byte>>): seq<Byte> { if bs == [] then [] else bs[0] + Concat(bs[1..]) }

  lemma SplitStep(s: seq<Byte>, max: nat) returns (n: nat)
    requires s != [] && Split(s, max).Units?
    ensures 0 < n <= |s| && Split(s[n..], max).Units?
    ensures exists kind :: Split(s, max).units == [Unit(kind, s[..n])] + Split(s[n..], max).units
  {
    assert s[0..] == s;
    SplitUnfolds(s, 0, max);
    var o := ReadObu(s, max);
    hide ReadObu, Split;
    n := o.lead + o.payload;
    assert Split(s, max).units == [Unit(o.kind, s[..n])] + Split(s[n..], max).units;
  }

  lemma {:induction false} SplitCovers(s: seq<Byte>, max: nat)
    requires Split(s, max).Units?
    ensures Concat(BytesFrom(Split(s, max).units, 0)) == s
    decreases |s|
  {
    hide *;
    if s == [] {
      NothingCovered(max);
    } else {
      var n := SplitStep(s, max);
      var us := Split(s[n..], max).units;
      var kind :| Split(s, max).units == [Unit(kind, s[..n])] + us;
      SplitCovers(s[n..], max);
      FromShifts(Unit(kind, s[..n]), us);
      assert s[..n] + s[n..] == s;
    }
  }

  lemma NothingCovered(max: nat)
    ensures Split([], max) == Units([]) && Concat(BytesFrom([], 0)) == []
  {
  }

  lemma FromShifts(u: Unit, us: seq<Unit>)
    ensures Concat(BytesFrom([u] + us, 0)) == u.bytes + Concat(BytesFrom(us, 0))
  {
    ShiftFrom(u, us, 0);
    hide Concat;
    var bs := BytesFrom([u] + us, 0);
    assert bs == [u.bytes] + BytesFrom(us, 0);
    assert bs[1..] == BytesFrom(us, 0);
    ConcatCons(u.bytes, BytesFrom(us, 0));
  }

  lemma ConcatCons(b: seq<Byte>, bs: seq<seq<Byte>>)
    ensures Concat([b] + bs) == b + Concat(bs)
  {
    assert ([b] + bs)[1..] == bs;
  }

  lemma {:induction false} ShiftFrom(u: Unit, us: seq<Unit>, i: nat)
    requires i <= |us|
    ensures BytesFrom([u] + us, i + 1) == BytesFrom(us, i)
    decreases |us| - i
  {
    if i < |us| {
      assert ([u] + us)[i + 1] == us[i];
      ShiftFrom(u, us, i + 1);
    }
  }

  /** Parsing, then receiving: an accepted input comes back whole, cut into its OBUs. */
  lemma ParsedIsReceived(data: seq<Byte>, max: nat)
    requires Good(data, max) && |data| + 4 < 0x1000_0000 && |data| + 4 <= max
    ensures var us := Split(data, max).units;
            && Small(us) && Receive(Output(us), max) == Payloads(BytesFrom(us, 0))
            && Concat(BytesFrom(us, 0)) == data
  {
    var us := Split(data, max).units;
    hide Split, Receive, Output, BytesFrom;
    SplitCovers(data, max);
    forall j | 0 <= j < |us| ensures |us[j].bytes| <= |data| { PartOf(us, 0, j); }
    ReceiveUndoesOutput(us, max);
  }

  lemma {:induction false} PartOf(us: seq<Unit>, i: nat, j: nat)
    requires i <= j < |us|
    ensures |us[j].bytes| <= |Concat(BytesFrom(us, i))|
    decreases j - i
  {
    assert BytesFrom(us, i)[1..] == BytesFrom(us, i + 1);
    if i < j { PartOf(us, i + 1, j); }
  }
}
