/** OBUs as sections 5.3.1 to 5.3.3 of AV1 write them, and the order of OBUs in a temporal unit: what the parser
    accepts, said without the parser. */
module Av1Syntax {
  import opened Basics
  import opened Bytes
  import opened Av1Leb
  import opened Av1Obu

  /** temporal_id and spatial_id, where obu_extension_flag is set. */
  datatype Extension = None | Layers(temporal: nat, spatial: nat)

  predicate LegalExtension(ext: Extension) { ext.Layers? ==> ext.temporal < 8 && ext.spatial < 4 }

  /** The types of section 6.2.2 that are not reserved. */
  predicate LegalType(kind: nat) { 1 <= kind <= 8 || kind == 15 }

  /** A forbidden zero bit, four bits of type, the extension flag, the size flag, a zero bit; three bits of
      temporal_id, two of spatial_id and three zero bits if there is an extension. */
  function WriteHead(kind: nat, ext: Extension): (r: seq<Byte>)
    requires LegalType(kind) && LegalExtension(ext)
    ensures 1 <= |r| <= 2
  {
    match ext
    case None => [8 * kind + 2]
    case Layers(temporal, spatial) => [8 * kind + 4 + 2, 32 * temporal + 8 * spatial]
  }

  /** Header, size of the payload, payload. */
  datatype Written = Written(kind: nat, ext: Extension, payload: seq<Byte>)

  predicate Legal(o: Written, max: nat) {
    LegalType(o.kind) && LegalExtension(o.ext) && |o.payload| < 0x100_0000_0000_0000 && |o.payload| <= max
  }

  function Lead(o: Written): seq<Byte>
    requires LegalType(o.kind) && LegalExtension(o.ext)
  {
    WriteHead(o.kind, o.ext) + Encoded(|o.payload|)
  }

  function WriteObu(o: Written): (r: seq<Byte>)
    requires LegalType(o.kind) && LegalExtension(o.ext)
    ensures |r| > 0
  {
    Lead(o) + o.payload
  }

  // ----- one OBU -----

  lemma HeadRoundTrip(kind: nat, ext: Extension, rest: seq<Byte>)
    requires LegalType(kind) && LegalExtension(ext)
    ensures ReadHead(WriteHead(kind, ext) + rest) == Head(kind, |WriteHead(kind, ext)|)
  {
    var s := WriteHead(kind, ext) + rest;
    if ext.None? {
      assert s[0] == 8 * kind + 2;
      BitsOf(kind, 0);
    } else {
      assert s[0] == 8 * kind + 4 + 2 && s[1] == 32 * ext.temporal + 8 * ext.spatial;
      BitsOf(kind, 1);
      assert s[1] % 8 == 0;
    }
  }

  lemma BitsOf(kind: nat, e: nat)
    requires kind <= 15 && e <= 1
    ensures var b := 8 * kind + 4 * e + 2;
            b < 128 && b / 8 % 16 == kind && b / 4 % 2 == e && b / 2 % 2 == 1 && b % 2 == 0
  {
    var b := 8 * kind + 4 * e + 2;
    assert b / 8 == kind && b / 4 == 2 * kind + e && b / 2 == 4 * kind + 2 * e + 1;
  }

  lemma BitsBack(b: Byte)
    requires b < 128 && b / 2 % 2 == 1 && b % 2 == 0
    ensures b == 8 * (b / 8 % 16) + 4 * (b / 4 % 2) + 2
  {
    assert b == 2 * (b / 2) && b / 2 == 2 * (b / 4) + 1 && b / 4 == 2 * (b / 8) + b / 4 % 2;
  }

  /** A header is accepted exactly when it is one of those that are written. */
  lemma HeadIs(s: seq<Byte>, kind: nat, size: nat)
    ensures ReadHead(s) == Head(kind, size) <==>
            LegalType(kind)
            && exists ext :: LegalExtension(ext) && WriteHead(kind, ext) <= s && size == |WriteHead(kind, ext)|
  {
    if ReadHead(s) == Head(kind, size) {
      BitsBack(s[0]);
      if s[0] / 4 % 2 == 0 {
        assert WriteHead(kind, None) <= s;
      } else {
        var ext := Layers(s[1] / 32, s[1] / 8 % 4);
        ExtensionBack(s[1]);
        assert LegalExtension(ext) && WriteHead(kind, ext) <= s;
      }
    }
    if LegalType(kind) {
      forall ext | LegalExtension(ext) && WriteHead(kind, ext) <= s && size == |WriteHead(kind, ext)|
        ensures ReadHead(s) == Head(kind, size)
      {
        assert s == WriteHead(kind, ext) + s[|WriteHead(kind, ext)|..];
        HeadRoundTrip(kind, ext, s[|WriteHead(kind, ext)|..]);
      }
    }
  }

  lemma ExtensionBack(b: Byte)
    requires b % 8 == 0
    ensures b / 32 < 8 && b / 8 % 4 < 4 && b == 32 * (b / 32) + 8 * (b / 8 % 4)
  {
    assert b == 8 * (b / 8) && b / 8 == 4 * (b / 32) + b / 8 % 4;
  }

  /** A written OBU is read back, type and lengths, whatever follows it. */
  lemma ObuRoundTrip(o: Written, rest: seq<Byte>, max: nat)
    requires Legal(o, max)
    ensures ReadObu(WriteObu(o) + rest, max) == Obu(o.kind, |Lead(o)|, |o.payload|)
  {
    var h, n := WriteHead(o.kind, o.ext), Encoded(|o.payload|);
    var s := WriteObu(o) + rest;
    assert s == h + (n + (o.payload + rest));
    HeadRoundTrip(o.kind, o.ext, n + (o.payload + rest));
    assert s[|h|..] == n + (o.payload + rest);
    PowOf8();
    DecodeUndoesEncode(|o.payload|, max, o.payload + rest);
    hide ReadHead, WriteHead, Encoded, Decode;
  }

  lemma PowOf8()
    ensures Pow128(8) == 0x100_0000_0000_0000
  {
    assert Pow128(4) == 0x1000_0000;
  }

  /** A written header, and behind it a number that is the size of the payload. */
  predicate HasForm(s: seq<Byte>, max: nat, kind: nat, lead: nat, payload: nat, ext: Extension)
    requires LegalType(kind)
  {
    LegalExtension(ext)
    && var h := WriteHead(kind, ext);
    h <= s && |h| <= lead && Decode(s[|h|..], max) == Number(payload, lead - |h|)
  }

  /** What is accepted as an OBU has a header of the standard, a size that can be read, and all its bytes. */
  lemma ObuIs(s: seq<Byte>, max: nat, kind: nat, lead: nat, payload: nat)
    ensures ReadObu(s, max) == Obu(kind, lead, payload) <==>
            LegalType(kind) && lead + payload <= |s| && exists ext :: HasForm(s, max, kind, lead, payload, ext)
  {
    hide Decode, WriteHead, ReadHead, ReadObu, LegalExtension;
    ReadObuIs(s, max, kind, lead, payload);
    if ReadObu(s, max) == Obu(kind, lead, payload) {
      var size := ReadHead(s).size;
      HeadIs(s, kind, size);
      var ext :| LegalExtension(ext) && WriteHead(kind, ext) <= s && size == |WriteHead(kind, ext)|;
      assert HasForm(s, max, kind, lead, payload, ext);
    }
    if ext :| LegalType(kind) && HasForm(s, max, kind, lead, payload, ext) && lead + payload <= |s| {
      HeadIs(s, kind, |WriteHead(kind, ext)|);
    }
  }

  lemma ReadObuIs(s: seq<Byte>, max: nat, kind: nat, lead: nat, payload: nat)
    ensures ReadObu(s, max) == Obu(kind, lead, payload) <==>
            var h := ReadHead(s);
            && h.Head? && h.kind == kind && h.size <= lead && lead + payload <= |s|
            && Decode(s[h.size..], max) == Number(payload, lead - h.size)
  {
    hide Decode, ReadHead;
  }

  // ----- a sequence of OBUs -----

  predicate AllLegal(os: seq<Written>, max: nat) { forall i :: 0 <= i < |os| ==> Legal(os[i], max) }

  function WriteAll(os: seq<Written>, max: nat): seq<Byte>
    requires AllLegal(os, max)
  {
    if os == [] then [] else WriteObu(os[0]) + WriteAll(os[1..], max)
  }

  function UnitsOf(os: seq<Written>, max: nat): (r: seq<Unit>)
    requires AllLegal(os, max)
    ensures |r| == |os| && forall i :: 0 <= i < |os| ==> r[i] == Unit(os[i].kind, WriteObu(os[i]))
  {
    seq(|os|, i requires 0 <= i < |os| => Unit(os[i].kind, WriteObu(os[i])))
  }

  lemma SplitFirst(s: seq<Byte>, max: nat, kind: nat, lead: nat, payload: nat)
    requires ReadObu(s, max) == Obu(kind, lead, payload) && s != []
    ensures Split(s, max)
            == Prepend([Unit(kind, s[..lead + payload])], Split(s[lead + payload..], max))
  {
    hide ReadObu, Prepend;
  }

  /** Written OBUs are cut apart where they were joined. */
  lemma {:induction false} SplitUndoesWrite(os: seq<Written>, max: nat)
    requires AllLegal(os, max)
    ensures Split(WriteAll(os, max), max) == Units(UnitsOf(os, max))
  {
    hide Split, WriteObu, Legal, Lead;
    if os == [] {
      SplitNone(max);
    } else {
      var o, rest := os[0], WriteAll(os[1..], max);
      var s := WriteAll(os, max);
      assert Legal(o, max);
      ObuRoundTrip(o, rest, max);
      assert LegalType(o.kind) && LegalExtension(o.ext) by { LegalParts(o, max); }
      WriteObuLength(o);
      SplitFirst(s, max, o.kind, |Lead(o)|, |o.payload|);
      assert s[..|WriteObu(o)|] == WriteObu(o) && s[|WriteObu(o)|..] == rest;
      SplitUndoesWrite(os[1..], max);
      assert UnitsOf(os, max) == [Unit(o.kind, WriteObu(o))] + UnitsOf(os[1..], max);
    }
  }

  lemma LegalParts(o: Written, max: nat)
    requires Legal(o, max)
    ensures LegalType(o.kind) && LegalExtension(o.ext)
  {
  }

  lemma SplitNone(max: nat)
    ensures Split([], max) == Units([])
  {
  }

  lemma WriteObuLength(o: Written)
    requires LegalType(o.kind) && LegalExtension(o.ext)
    ensures |WriteObu(o)| == |Lead(o)| + |o.payload|
  {
  }

  // ----- the order of OBUs -----

  /** Place f is the first frame header (3), or the end: no tile group (4) and no redundant frame header (7) come
      before it, no sequence header (1) and no whole frame (6) behind it. */
  predicate TurnsAt(ks: seq<nat>, f: nat) {
    && f <= |ks| && (f < |ks| ==> ks[f] == 3)
    && (forall i :: 0 <= i < f ==> ks[i] != 3 && ks[i] != 4 && ks[i] != 7)
    && (forall i :: f < i < |ks| ==> ks[i] != 1 && ks[i] != 6)
  }

  /** The OBUs of a temporal unit behind its delimiter. */
  predicate InOrder(ks: seq<nat>) { exists f :: 0 <= f <= |ks| && TurnsAt(ks, f) }

  predicate NoDelimiter(ks: seq<nat>) { forall i :: 0 <= i < |ks| ==> ks[i] != 2 }

  /** A frame header came since the delimiter. */
  lemma SeenInUnit(pre: seq<nat>, ks: seq<nat>, n: nat)
    requires NoDelimiter(ks) && n <= |ks|
    ensures HeaderSeen(pre + [2] + ks, |pre| + 1 + n) <==> exists j :: 0 <= j < n && ks[j] == 3
  {
    var t := pre + [2] + ks;
    assert t[|pre|] == 2 && forall j :: 0 <= j < |ks| ==> t[|pre| + 1 + j] == ks[j];
    if HeaderSeen(t, |pre| + 1 + n) {
      var j :| 0 <= j < |pre| + 1 + n && t[j] == FRAME_HEADER
               && forall m :: j < m < |pre| + 1 + n ==> t[m] != TEMPORAL_DELIMITER;
      assert ks[j - |pre| - 1] == 3;
    }
    if j :| 0 <= j < n && ks[j] == 3 {
      assert t[|pre| + 1 + j] == FRAME_HEADER;
      forall m | |pre| + 1 + j < m < |pre| + 1 + n ensures t[m] != TEMPORAL_DELIMITER {
        assert t[m] == ks[m - |pre| - 1];
      }
    }
  }

  /** OBU i of a temporal unit, seen from inside the unit. */
  predicate Fitting(ks: seq<nat>, i: nat)
    requires i < |ks|
  {
    && (ks[i] == 4 || ks[i] == 7 ==> exists j :: 0 <= j < i && ks[j] == 3)
    && (ks[i] == 1 || ks[i] == 6 ==> forall j :: 0 <= j < i ==> ks[j] != 3)
  }

  lemma PlacedInUnit(pre: seq<nat>, ks: seq<nat>, i: nat)
    requires NoDelimiter(ks) && i < |ks|
    ensures InPlace(pre + [2] + ks, |pre| + 1 + i) <==> Fitting(ks, i)
  {
    SeenInUnit(pre, ks, i);
    assert (pre + [2] + ks)[|pre| + 1 + i] == ks[i];
    hide HeaderSeen;
  }

  function FirstHeader(ks: seq<nat>): (f: nat)
    ensures f <= |ks| && (forall i :: 0 <= i < f ==> ks[i] != 3) && (f < |ks| ==> ks[f] == 3)
  {
    if ks == [] || ks[0] == 3 then 0 else 1 + FirstHeader(ks[1..])
  }

  /** The first frame header is the place the order turns round. */
  lemma OrderDecides(ks: seq<nat>)
    ensures InOrder(ks) <==> forall i :: 0 <= i < |ks| ==> Fitting(ks, i)
  {
    if forall i :: 0 <= i < |ks| ==> Fitting(ks, i) {
      var f := FirstHeader(ks);
      forall i | 0 <= i < f ensures ks[i] != 3 && ks[i] != 4 && ks[i] != 7 { assert Fitting(ks, i); }
      forall i | f < i < |ks| ensures ks[i] != 1 && ks[i] != 6 { assert Fitting(ks, i); }
      assert TurnsAt(ks, f);
    }
    if InOrder(ks) { OrderFits(ks); }
  }

  lemma OrderFits(ks: seq<nat>)
    requires InOrder(ks)
    ensures forall i :: 0 <= i < |ks| ==> Fitting(ks, i)
  {
    var f :| TurnsAt(ks, f);
  }

  /** Temporal units one after the other, each behind its delimiter. */
  function Stream(tus: seq<seq<nat>>): seq<nat> {
    if tus == [] then [] else Stream(tus[..|tus| - 1]) + [2] + tus[|tus| - 1]
  }

  lemma UnitAdds(pre: seq<nat>, ks: seq<nat>)
    requires NoDelimiter(ks)
    ensures PlacedSoFar(pre + [2] + ks) <==> PlacedSoFar(pre) && InOrder(ks)
  {
    var t := pre + [2] + ks;
    OrderDecides(ks);
    forall i | 0 <= i < |pre| ensures InPlace(t, i) == InPlace(pre, i) {
      InPlacePrefix(t, |pre|, i);
      assert t[..|pre|] == pre;
    }
    assert InPlace(t, |pre|) by { assert t[|pre|] == 2; hide HeaderSeen; }
    forall i | |pre| < i < |t| ensures InPlace(t, i) <==> Fitting(ks, i - |pre| - 1) {
      PlacedInUnit(pre, ks, i - |pre| - 1);
    }
    hide InPlace, InOrder, Fitting;
    if PlacedSoFar(t) {
      forall i | 0 <= i < |ks| ensures Fitting(ks, i) { assert InPlace(t, |pre| + 1 + i); }
    }
  }

  lemma {:induction false} StreamPlaced(tus: seq<seq<nat>>)
    requires forall u :: 0 <= u < |tus| ==> NoDelimiter(tus[u])
    ensures PlacedSoFar(Stream(tus)) <==> forall u :: 0 <= u < |tus| ==> InOrder(tus[u])
  {
    hide PlacedSoFar, InOrder, NoDelimiter;
    if tus == [] {
      NothingPlaced();
    } else {
      StreamPlaced(tus[..|tus| - 1]);
      UnitAdds(Stream(tus[..|tus| - 1]), tus[|tus| - 1]);
    }
  }

  lemma NothingPlaced()
    ensures PlacedSoFar([]) && Accepted([])
  {
  }

  /** The last temporal unit may stop here: no frame was begun with a frame header, or the data ends with a frame
      header, a tile group or a frame. */
  predicate MayStop(ks: seq<nat>) {
    3 !in ks || (ks != [] && (ks[|ks| - 1] == 3 || ks[|ks| - 1] == 4 || ks[|ks| - 1] == 6))
  }

  /** A sequence of temporal units is accepted if and only if each of them is in order and the last may stop. */
  lemma StreamAccepted(tus: seq<seq<nat>>)
    requires forall u :: 0 <= u < |tus| ==> NoDelimiter(tus[u])
    ensures Accepted(Stream(tus)) <==>
            (forall u :: 0 <= u < |tus| ==> InOrder(tus[u])) && (tus != [] ==> MayStop(tus[|tus| - 1]))
  {
    StreamPlaced(tus);
    if tus == [] {
      NothingPlaced();
    } else {
      var pre, ks := Stream(tus[..|tus| - 1]), tus[|tus| - 1];
      assert Stream(tus) == pre + [2] + ks;
      hide *;
      assert pre + [2] + ks != [];
      StopsAfter(pre, ks);
      AcceptedIs(pre + [2] + ks);
    }
  }

  lemma AcceptedIs(ks: seq<nat>)
    requires ks != []
    ensures Accepted(ks) <==> PlacedSoFar(ks) && (Closes(ks[|ks| - 1]) || !HeaderSeen(ks, |ks|))
  {
    hide InPlace, HeaderSeen, Closes;
  }

  lemma StopsAfter(pre: seq<nat>, ks: seq<nat>)
    requires NoDelimiter(ks)
    ensures var t := pre + [2] + ks; MayStop(ks) <==> Closes(t[|t| - 1]) || !HeaderSeen(t, |t|)
  {
    SeenInUnit(pre, ks, |ks|);
    hide HeaderSeen;
    var t := pre + [2] + ks;
    assert ks == [] ==> t[|t| - 1] == 2;
    assert ks != [] ==> t[|t| - 1] == ks[|ks| - 1];
    if 3 in ks { var j :| 0 <= j < |ks| && ks[j] == 3; }
  }

  /** The input of parser_frame: written OBUs are accepted if and only if their types are in a legal order. */
  lemma WrittenIsGood(os: seq<Written>, tus: seq<seq<nat>>, max: nat)
    requires AllLegal(os, max) && (forall u :: 0 <= u < |tus| ==> NoDelimiter(tus[u]))
    requires |os| == |Stream(tus)| && forall i :: 0 <= i < |os| ==> os[i].kind == Stream(tus)[i]
    ensures Good(WriteAll(os, max), max) <==>
            (forall u :: 0 <= u < |tus| ==> InOrder(tus[u])) && (tus != [] ==> MayStop(tus[|tus| - 1]))
    ensures Split(WriteAll(os, max), max) == Units(UnitsOf(os, max))
  {
    SplitUndoesWrite(os, max);
    StreamAccepted(tus);
    hide InOrder, MayStop, NoDelimiter, Accepted, Split, WriteAll, Stream;
    assert Kinds(UnitsOf(os, max)) == Stream(tus);
  }

  /** 12 00, the temporal delimiter that begins every temporal unit. */
  lemma DelimiterExample(max: nat)
    ensures Good([0x12, 0x00], max)
  {
    var os := [Written(2, None, [])];
    assert os[1..] == [] && WriteAll(os[1..], max) == [];
    assert Encoded(0) == [0] && WriteObu(os[0]) == [0x12, 0x00];
    assert WriteAll(os, max) == [0x12, 0x00];
    var tus: seq<seq<nat>> := [[]];
    assert tus[..0] == [] && Stream(tus) == [2];
    OrderDecides([]);
    WrittenIsGood(os, tus, max);
  }
}
