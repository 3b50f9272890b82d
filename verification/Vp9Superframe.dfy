/** Superframes (Annex B of the VP9 bitstream specification): the index parser of
    drivers/amvdec_ports/decoder/vdec_vp9_if.c, also in aml_vp9_parser.c. */
module Vp9Superframe {
  import opened Basics

  import opened Bytes

  const MAX_FRAMES: nat := 8

  /** Little-endian number. */
  function Le(s: seq<Byte>): nat {
    if s == [] then 0 else s[0] + 256 * Le(s[1..])
  }

  function Pow256(n: nat): (r: nat)
    ensures r > 0
  {
    if n == 0 then 1 else 256 * Pow256(n - 1)
  }

  function Sum(s: seq<nat>): nat {
    if s == [] then 0 else Sum(s[..|s| - 1]) + s[|s| - 1]
  }

  // ----- the index -----

  predicate IsMarker(x: Byte) { x / 32 == 6 }

  function LengthSize(marker: Byte): (r: nat)
    ensures 1 <= r <= 4
  {
    1 + marker / 8 % 4
  }

  function FrameCount(marker: Byte): (r: nat)
    ensures 1 <= r <= MAX_FRAMES
  {
    1 + marker % 8
  }

  function IndexSize(marker: Byte): nat {
    2 + FrameCount(marker) * LengthSize(marker)
  }

  datatype Sizes = Sizes(sizes: seq<nat>) | BadSize

  /** The first n entries of an index whose first entry is at at; every partial sum must fit in room. */
  function ReadSizes(data: seq<Byte>, at: nat, width: nat, n: nat, room: nat): (r: Sizes)
    requires at + n * width <= |data|
    ensures r.Sizes? ==> |r.sizes| == n && Sum(r.sizes) <= room
  {
    if n == 0 then Sizes([])
    else
      assert n * width == (n - 1) * width + width;
      match ReadSizes(data, at, width, n - 1, room)
      case BadSize => BadSize
      case Sizes(sizes) =>
        var size := ToInt32(Le(data[at + (n - 1) * width..at + n * width]));
        if size < 0 || Sum(sizes) + size > room then BadSize
        else
          assert (sizes + [size])[..n - 1] == sizes;
          Sizes(sizes + [size])
  }

  /** Superframe: a valid index. Unmarked: one plain frame. NoIndex: a marker byte without a matching
      index, on which the parser leaves nb_frames alone. Invalid: -EINVAL. */
  datatype Split = Superframe(sizes: seq<nat>) | Unmarked | NoIndex | Invalid

  function Parse(data: seq<Byte>): (r: Split)
    requires data != []
  {
    var marker := data[|data| - 1];
    if !IsMarker(marker) then Unmarked
    else
      var idx := IndexSize(marker);
      if |data| >= idx && data[|data| - idx] == marker then
        match ReadSizes(data, |data| + 1 - idx, LengthSize(marker), FrameCount(marker), |data| - idx)
        case BadSize => Invalid
        case Sizes(sizes) => Superframe(sizes)
      else NoIndex
  }

  /** The marker outcome without an index: the last byte is a marker, and the data is too short for the index
      it announces or the byte where the index would begin differs from it. */
  lemma NoIndexIs(data: seq<Byte>)
    requires data != []
    ensures var marker := data[|data| - 1];
            Parse(data).NoIndex? <==>
              IsMarker(marker) && (|data| < IndexSize(marker) || data[|data| - IndexSize(marker)] != marker)
  {
  }

  /** The single byte C0 announces an index of three bytes. */
  lemma NoIndexExample()
    ensures Parse([0xC0]).NoIndex?
  {
    NoIndexIs([0xC0]);
  }

  /** Where frame i starts. */
  function Offset(sizes: seq<nat>, i: nat): nat
    requires i <= |sizes|
  {
    Sum(sizes[..i])
  }

  lemma {:induction false} SumAppend(a: seq<nat>, b: seq<nat>)
    ensures Sum(a + b) == Sum(a) + Sum(b)
  {
    if b == [] {
      assert a + b == a;
    } else {
      SumAppend(a, b[..|b| - 1]);
      assert (a + b)[..|a + b| - 1] == a + b[..|b| - 1];
    }
  }

  lemma OffsetNext(sizes: seq<nat>, i: nat)
    requires i < |sizes|
    ensures Offset(sizes, i + 1) == Offset(sizes, i) + sizes[i]
  {
    assert sizes[..i + 1][..i] == sizes[..i];
  }

  lemma OffsetMonotone(sizes: seq<nat>, i: nat, j: nat)
    requires i <= j <= |sizes|
    ensures Offset(sizes, i) <= Offset(sizes, j)
  {
    SumAppend(sizes[..i], sizes[i..j]);
    assert sizes[..j] == sizes[..i] + sizes[i..j];
  }

  /** Frame i lies directly before frame i + 1 and within the first total bytes. */
  predicate Tiled(sizes: seq<nat>, total: nat, i: nat)
    requires i < |sizes|
  {
    Offset(sizes, i) + sizes[i] == Offset(sizes, i + 1) <= total
  }

  /** On any accepted index the frames lie one behind the other and end before the index. */
  lemma AcceptedFramesTile(data: seq<Byte>)
    requires data != [] && Parse(data).Superframe?
    ensures var sizes := Parse(data).sizes;
            && 1 <= |sizes| <= MAX_FRAMES
            && Sum(sizes) + IndexSize(data[|data| - 1]) <= |data|
            && Offset(sizes, 0) == 0 && Offset(sizes, |sizes|) == Sum(sizes)
            && forall i :: 0 <= i < |sizes| ==> Tiled(sizes, Sum(sizes), i)
  {
    var sizes := Parse(data).sizes;
    hide Parse, IndexSize;
    assert sizes[..|sizes|] == sizes;
    forall i | 0 <= i < |sizes| ensures Tiled(sizes, Sum(sizes), i) {
      OffsetNext(sizes, i);
      OffsetMonotone(sizes, i + 1, |sizes|);
    }
  }

  // ----- the parser -----

  lemma {:induction false} LeAppend(a: seq<Byte>, b: Byte)
    ensures Le(a + [b]) == Le(a) + Pow256(|a|) * b
  {
    if a == [] {
      assert a + [b] == [b] && [b][1..] == [];
    } else {
      LeAppend(a[1..], b);
      assert (a + [b])[1..] == a[1..] + [b];
    }
  }

  lemma {:induction false} BadStaysBad(data: seq<Byte>, at: nat, width: nat, i: nat, n: nat, room: nat)
    requires i <= n && at + n * width <= |data| && at + i * width <= |data|
    requires ReadSizes(data, at, width, i, room).BadSize?
    ensures ReadSizes(data, at, width, n, room).BadSize?
    decreases n
  {
    if i < n {
      assert n * width == (n - 1) * width + width;
      BadStaysBad(data, at, width, i, n - 1, room);
    }
  }

  /** The data already begins with an AMLV header: bytes 12 to 15 read "AMLV". */
  predicate HasPrefix(data: seq<Byte>) { |data| >= 16 && data[12..16] == [0x41, 0x4D, 0x4C, 0x56] }

  /** Data that was framed before is recognised by its header, whatever the size in it. */
  lemma PrefixIsSeen(size: nat, rest: seq<Byte>)
    requires size < WORD
    ensures HasPrefix(AmlvHeader(size) + rest)
  {
    var h := AmlvHeader(size);
    HeaderBytes(size);
    hide AmlvHeader;
    assert (h + rest)[12..16] == h[12..16];
  }

  /** struct vp9_superframe_split. */
  class SuperframeSplit {
    const data: seq<Byte>
    var nbFrames: int
    var size: int
    var prefixSize: int
    const sizes: array<int>

    constructor (data: seq<Byte>)
      ensures this.data == data && nbFrames == 0 && size == 0 && prefixSize == 0
      ensures sizes.Length == MAX_FRAMES && fresh(sizes)
    {
      this.data := data;
      nbFrames, size, prefixSize := 0, 0, 0;
      sizes := new int[MAX_FRAMES](_ => 0);
    }

    /** Lines 651-652: one little-endian entry. */
    method ReadSize(idx: nat, width: nat) returns (frameSize: int)
      requires idx + width <= |data| && width <= 4
      ensures frameSize == ToInt32(Le(data[idx..idx + width]))
    {
      var bits: nat := 0;
      for j := 0 to width
        invariant bits == Le(data[idx..idx + j])
      {
        LeAppend(data[idx..idx + j], data[idx + j]);
        assert data[idx..idx + j + 1] == data[idx..idx + j] + [data[idx + j]];
        bits := bits + Pow256(j) * data[idx + j];
      }
      frameSize := ToInt32(bits);
    }

    /** vp9_superframe_split_filter for a non-empty buffer. */
    method Filter() returns (ret: int)
      requires data != [] && |data| < 0x8000_0000 && sizes.Length == MAX_FRAMES
      modifies this, sizes
      ensures (ret == 0) == !Parse(data).Invalid?
      ensures prefixSize == if HasPrefix(data) then 16 else old(prefixSize)
      ensures match Parse(data)
              case Superframe(ss) => nbFrames == |ss| && size == Sum(ss) && sizes[..|ss|] == ss
              case Unmarked => nbFrames == 1 && size == |data| && sizes[0] == |data|
              case _ => nbFrames == old(nbFrames) && size == old(size)
    {
      hide ReadSizes, LengthSize, FrameCount, IsMarker, Sum;
      ret := 0;
      if HasPrefix(data) {
        prefixSize := 16;
      }
      var marker := data[|data| - 1];
      if IsMarker(marker) {
        var lengthSize := LengthSize(marker);
        var nb := FrameCount(marker);
        var idxSize := IndexSize(marker);
        if |data| >= idxSize && data[|data| - idxSize] == marker {
          ret := ReadIndex(|data| + 1 - idxSize, lengthSize, nb, |data| - idxSize);
        }
      } else {
        nbFrames := 1;
        sizes[0] := |data|;
        size := |data|;
      }
    }

    /** Lines 647-670. */
    method ReadIndex(at: nat, width: nat, n: nat, room: nat) returns (ret: int)
      requires at + n * width <= |data| && 1 <= width <= 4 && n <= MAX_FRAMES == sizes.Length
      modifies this`nbFrames, this`size, sizes
      ensures match ReadSizes(data, at, width, n, room)
              case BadSize => ret != 0 && nbFrames == old(nbFrames) && size == old(size)
              case Sizes(ss) => ret == 0 && nbFrames == n && size == Sum(ss) && sizes[..n] == ss
    {
      hide ReadSizes, Le, Sum, ToInt32;
      ReadSizesUnfolds(data, at, width, 0, room);
      var totalSize := 0;
      var idx := at;
      ghost var ss: seq<nat> := [];
      SumNone();
      for i := 0 to n
        invariant idx == at + i * width && idx <= |data|
        invariant ReadSizes(data, at, width, i, room) == Sizes(ss)
        invariant |ss| == i && totalSize == Sum(ss) && sizes[..i] == ss
        invariant nbFrames == old(nbFrames) && size == old(size)
      {
        EntryFits(i, n, width);
        ReadSizesUnfolds(data, at, width, i, room);
        var frameSize := ReadSize(idx, width);
        totalSize := totalSize + frameSize;
        if frameSize < 0 || totalSize > room {
          BadStaysBad(data, at, width, i + 1, n, room);
          return -22;
        }
        idx := idx + width;
        sizes[i] := frameSize;
        SumSnoc(ss, frameSize);
        ss := ss + [frameSize];
      }
      nbFrames := n;
      size := totalSize;
      ret := 0;
    }
  }

  lemma SumNone()
    ensures Sum([]) == 0
  {
  }

  lemma SumSnoc(ss: seq<nat>, x: nat)
    ensures Sum(ss + [x]) == Sum(ss) + x
  {
    SumAppend(ss, [x]);
  }

  lemma EntryFits(i: nat, n: nat, width: nat)
    requires i < n
    ensures i * width + width == (i + 1) * width <= n * width
  {
    assert n * width == (i + 1) * width + (n - i - 1) * width;
  }

  lemma ReadSizesUnfolds(data: seq<Byte>, at: nat, width: nat, i: nat, room: nat)
    requires at + i * width <= |data|
    ensures ReadSizes(data, at, width, 0, room) == Sizes([])
    ensures at + i * width + width <= |data| && ReadSizes(data, at, width, i, room).Sizes? ==>
              (assert (i + 1) * width == i * width + width;
               var ss := ReadSizes(data, at, width, i, room).sizes;
               var size := ToInt32(Le(data[at + i * width..at + i * width + width]));
               ReadSizes(data, at, width, i + 1, room)
               == if size < 0 || Sum(ss) + size > room then BadSize else Sizes(ss + [size]))
  {
    assert (i + 1) * width == i * width + width;
  }

  // ----- joining frames and splitting them again -----

  function LeBytes(v: nat, width: nat): (r: seq<Byte>)
    ensures |r| == width
  {
    if width == 0 then [] else [v % 256] + LeBytes(v / 256, width - 1)
  }

  lemma {:induction false} LeRoundTrip(v: nat, width: nat)
    requires v < Pow256(width)
    ensures Le(LeBytes(v, width)) == v
  {
    if width > 0 { LeRoundTrip(v / 256, width - 1); }
  }

  function Lengths(frames: seq<seq<Byte>>): (r: seq<nat>)
    ensures |r| == |frames|
  {
    seq(|frames|, i requires 0 <= i < |frames| => |frames[i]|)
  }

  function Concat(frames: seq<seq<Byte>>): seq<Byte> {
    if frames == [] then [] else Concat(frames[..|frames| - 1]) + frames[|frames| - 1]
  }

  function Entries(sizes: seq<nat>, width: nat): (r: seq<Byte>)
    ensures |r| == |sizes| * width
  {
    if sizes == [] then []
    else
      assert |sizes| * width == (|sizes| - 1) * width + width;
      Entries(sizes[..|sizes| - 1], width) + LeBytes(sizes[|sizes| - 1], width)
  }

  function Marker(width: nat, n: nat): (r: Byte)
    requires 1 <= width <= 4 && 1 <= n <= MAX_FRAMES
    ensures IsMarker(r) && LengthSize(r) == width && FrameCount(r) == n
  {
    0xc0 + 8 * (width - 1) + (n - 1)
  }

  /** A superframe as Annex B lays it out. */
  function Join(frames: seq<seq<Byte>>, width: nat): seq<Byte>
    requires 1 <= width <= 4 && 1 <= |frames| <= MAX_FRAMES
  {
    var m := Marker(width, |frames|);
    Concat(frames) + [m] + Entries(Lengths(frames), width) + [m]
  }

  /** Sizes that fit the entry width and a C int. */
  predicate Fits(sizes: seq<nat>, width: nat) {
    forall i :: 0 <= i < |sizes| ==> sizes[i] < Pow256(width) && sizes[i] < 0x8000_0000
  }

  lemma {:induction false} ConcatLength(frames: seq<seq<Byte>>)
    ensures |Concat(frames)| == Sum(Lengths(frames))
  {
    if frames != [] {
      ConcatLength(frames[..|frames| - 1]);
      assert Lengths(frames)[..|frames| - 1] == Lengths(frames[..|frames| - 1]);
    }
  }

  lemma SplitSlice(data: seq<Byte>, at: nat, m: nat, n: nat, w: seq<Byte>, x: seq<Byte>)
    requires at + m + n <= |data| && |w| == m && |x| == n && data[at..at + m + n] == w + x
    ensures data[at..at + m] == w && data[at + m..at + m + n] == x
  {
    assert data[at..at + m] == data[at..at + m + n][..m];
    assert data[at + m..at + m + n] == data[at..at + m + n][m..];
  }

  /** Entries of the index as Annex B writes them, each below 256 to the width. */
  predicate Written(sizes: seq<nat>, width: nat) { forall i :: 0 <= i < |sizes| ==> sizes[i] < Pow256(width) }

  /** What the parser demands of the entries: no size beyond a C int, and room for all frames. */
  predicate Roomy(sizes: seq<nat>, room: nat) {
    (forall i :: 0 <= i < |sizes| ==> sizes[i] < 0x8000_0000) && Sum(sizes) <= room
  }

  lemma {:induction false} PowIs(n: nat)
    requires n <= 4
    ensures Pow256(n) <= 0x1_0000_0000
  {
    assert Pow256(1) == 256 && Pow256(2) == 0x1_0000 && Pow256(3) == 0x100_0000;
  }

  /** One more entry: accepted or not. */
  lemma ReadEntry(data: seq<Byte>, at: nat, width: nat, init: seq<nat>, last: nat, room: nat)
    requires var p := at + |init| * width; p + width <= |data| && data[p..p + width] == LeBytes(last, width)
    requires ReadSizes(data, at, width, |init|, room) == Sizes(init)
    requires last < Pow256(width) && width <= 4
    ensures at + (|init| + 1) * width <= |data|
    ensures ReadSizes(data, at, width, |init| + 1, room)
            == if last < 0x8000_0000 && Sum(init) + last <= room then Sizes(init + [last]) else BadSize
  {
    hide *;
    assert (|init| + 1) * width == |init| * width + width;
    PowIs(width);
    LeRoundTrip(last, width);
    SignOf(last);
    ReadSizesUnfolds(data, at, width, |init|, room);
  }

  lemma SignOf(x: nat)
    requires x < 0x1_0000_0000
    ensures if x < 0x8000_0000 then ToInt32(x) == x else ToInt32(x) < 0
  {
  }

  lemma RoomyNext(sizes: seq<nat>, room: nat)
    requires sizes != []
    ensures var n := |sizes| - 1;
            Roomy(sizes, room)
            <==> Roomy(sizes[..n], room) && sizes[n] < 0x8000_0000 && Sum(sizes[..n]) + sizes[n] <= room
  {
  }

  lemma {:induction false} ReadEntries(data: seq<Byte>, at: nat, width: nat, sizes: seq<nat>, room: nat)
    requires at + |sizes| * width <= |data| && data[at..at + |sizes| * width] == Entries(sizes, width)
    requires Written(sizes, width) && width <= 4
    ensures ReadSizes(data, at, width, |sizes|, room) == if Roomy(sizes, room) then Sizes(sizes) else BadSize
  {
    hide *;
    if sizes == [] {
      ReadSizesUnfolds(data, at, width, 0, room);
      NoneIsRoomy(room);
    } else {
      var n := |sizes|;
      var init, last := sizes[..n - 1], sizes[n - 1];
      assert sizes == init + [last];
      EntryFits(n - 1, n, width);
      EntriesNext(sizes, width);
      WrittenNext(sizes, width);
      SplitSlice(data, at, (n - 1) * width, width, Entries(init, width), LeBytes(last, width));
      ReadEntries(data, at, width, init, room);
      RoomyNext(sizes, room);
      if Roomy(init, room) {
        ReadEntry(data, at, width, init, last, room);
      } else {
        BadStaysBad(data, at, width, n - 1, n, room);
      }
    }
  }

  lemma EntriesNext(sizes: seq<nat>, width: nat)
    requires sizes != []
    ensures var n := |sizes| - 1; Entries(sizes, width) == Entries(sizes[..n], width) + LeBytes(sizes[n], width)
  {
    hide LeBytes;
  }

  lemma WrittenNext(sizes: seq<nat>, width: nat)
    requires sizes != [] && Written(sizes, width)
    ensures var n := |sizes| - 1; Written(sizes[..n], width) && sizes[n] < Pow256(width)
  {
    hide Pow256;
  }

  lemma NoneIsRoomy(room: nat)
    ensures Roomy([], room)
  {
  }

  /** Some bytes, and an index as Annex B writes it: the marker, the sizes, the marker again. */
  function Indexed(body: seq<Byte>, sizes: seq<nat>, width: nat): seq<Byte>
    requires 1 <= width <= 4 && 1 <= |sizes| <= MAX_FRAMES
  {
    var m := Marker(width, |sizes|);
    body + [m] + Entries(sizes, width) + [m]
  }

  /** A buffer that carries an index is split as the index says, or rejected when a size is beyond a C int or the
      frames do not fit before the index. */
  lemma IndexDecides(body: seq<Byte>, sizes: seq<nat>, width: nat)
    requires 1 <= width <= 4 && 1 <= |sizes| <= 8 && Written(sizes, width)
    ensures Parse(Indexed(body, sizes, width)) == if Roomy(sizes, |body|) then Superframe(sizes) else Invalid
  {
    hide ReadSizes, Entries, IsMarker, LengthSize, FrameCount, Roomy, Written, Le, Marker;
    var m := Marker(width, |sizes|);
    var data := Indexed(body, sizes, width);
    var at := |body| + 1;
    assert data[|data| - 1] == m && data[|data| - IndexSize(m)] == m;
    assert data[at..at + |sizes| * width] == Entries(sizes, width);
    ReadEntries(data, at, width, sizes, |body|);
  }

  lemma {:induction false} LeInverse(s: seq<Byte>)
    ensures Le(s) < Pow256(|s|) && LeBytes(Le(s), |s|) == s
  {
    if s != [] {
      LeInverse(s[1..]);
      assert Le(s) % 256 == s[0] && Le(s) / 256 == Le(s[1..]);
      assert s == [s[0]] + s[1..];
    }
  }

  /** The bytes of an index are the entries of some sizes. */
  lemma {:induction false} BytesAreEntries(w: seq<Byte>, width: nat, n: nat) returns (sizes: seq<nat>)
    requires |w| == n * width
    ensures |sizes| == n && Written(sizes, width) && Entries(sizes, width) == w
  {
    if n == 0 {
      sizes := [];
    } else {
      assert n * width == (n - 1) * width + width;
      var k := (n - 1) * width;
      var init := BytesAreEntries(w[..k], width, n - 1);
      LeInverse(w[k..]);
      sizes := init + [Le(w[k..])];
      assert sizes[..n - 1] == init && w == w[..k] + w[k..];
    }
  }

  /** The markers are the 32 bytes C0 to DF, one for each width and number of frames. */
  lemma MarkersAre(x: Byte)
    ensures IsMarker(x) <==> 0xc0 <= x <= 0xdf
    ensures 0xc0 <= x <= 0xdf ==> Marker(LengthSize(x), FrameCount(x)) == x
    ensures IsMarker(x) <==> exists width, n :: 1 <= width <= 4 && 1 <= n <= 8 && x == Marker(width, n)
  {
    InRange(x);
    if IsMarker(x) { MarkerOf(x); }
    hide Marker, IsMarker, LengthSize, FrameCount;
  }

  lemma InRange(x: Byte)
    ensures IsMarker(x) <==> 0xc0 <= x <= 0xdf
  {
  }

  lemma MarkerOf(x: Byte)
    requires IsMarker(x)
    ensures 0xc0 <= x <= 0xdf && Marker(LengthSize(x), FrameCount(x)) == x
  {
    assert x / 8 / 4 == 6 && x == 8 * (x / 8) + x % 8;
  }

  /** Data whose last byte is not C0 to DF is one plain frame, and nothing else is. */
  lemma UnmarkedIs(data: seq<Byte>)
    requires data != []
    ensures Parse(data).Unmarked? <==> !(0xc0 <= data[|data| - 1] <= 0xdf)
  {
    MarkersAre(data[|data| - 1]);
    hide IsMarker, ReadSizes, Marker;
  }

  lemma IndexPresent(data: seq<Byte>)
    requires data != [] && (Parse(data).Superframe? || Parse(data).Invalid?)
    ensures var m := data[|data| - 1];
            IsMarker(m) && IndexSize(m) <= |data| && data[|data| - IndexSize(m)] == m
  {
    hide ReadSizes, IsMarker, IndexSize;
  }

  lemma Cut(data: seq<Byte>, k: nat)
    requires k + 1 < |data|
    ensures data == data[..k] + [data[k]] + data[k + 1..|data| - 1] + [data[|data| - 1]]
  {
  }

  /** Data with a marker at both ends of its index is a body with an index. */
  lemma HasIndex(data: seq<Byte>) returns (body: seq<Byte>, sizes: seq<nat>, width: nat)
    requires data != [] && (Parse(data).Superframe? || Parse(data).Invalid?)
    ensures 1 <= width <= 4 && 1 <= |sizes| <= MAX_FRAMES && Written(sizes, width)
    ensures data == Indexed(body, sizes, width)
  {
    var m := data[|data| - 1];
    IndexPresent(data);
    MarkersAre(m);
    width := LengthSize(m);
    IndexSizeIs(m);
    hide *;
    var k := |data| - IndexSize(m);
    body := data[..k];
    Cut(data, k);
    sizes := EntriesBetween(data[k + 1..|data| - 1], m);
    IndexedIs(body, sizes, width);
  }

  lemma IndexSizeIs(m: Byte)
    ensures IndexSize(m) >= 2 && IndexSize(m) - 2 == FrameCount(m) * LengthSize(m)
  {
    hide LengthSize, FrameCount;
  }

  lemma EntriesBetween(w: seq<Byte>, m: Byte) returns (sizes: seq<nat>)
    requires |w| == IndexSize(m) - 2
    ensures |sizes| == FrameCount(m) <= MAX_FRAMES
    ensures Written(sizes, LengthSize(m)) && Entries(sizes, LengthSize(m)) == w
  {
    hide LengthSize, FrameCount, Written, Entries;
    sizes := BytesAreEntries(w, LengthSize(m), FrameCount(m));
  }

  lemma IndexedIs(body: seq<Byte>, sizes: seq<nat>, width: nat)
    requires 1 <= width <= 4 && 1 <= |sizes| <= MAX_FRAMES
    ensures var m := Marker(width, |sizes|); Indexed(body, sizes, width) == body + [m] + Entries(sizes, width) + [m]
  {
    hide Entries, Marker;
  }

  /** An accepted superframe is exactly some bytes and an index with these sizes, ending in the marker for their
      number and width. */
  lemma SuperframeIs(data: seq<Byte>, sizes: seq<nat>)
    requires data != []
    ensures Parse(data) == Superframe(sizes) <==>
            1 <= |sizes| <= 8
            && exists body: seq<Byte>, width: nat ::
                 1 <= width <= 4 && Written(sizes, width) && Roomy(sizes, |body|) && data == Indexed(body, sizes, width)
  {
    hide Parse, Written, Roomy, Indexed;
    if Parse(data) == Superframe(sizes) {
      var body, ss, width := HasIndex(data);
      IndexDecides(body, ss, width);
    }
    if 1 <= |sizes| <= 8 {
      forall body: seq<Byte>, width: nat |
        1 <= width <= 4 && Written(sizes, width) && Roomy(sizes, |body|) && data == Indexed(body, sizes, width)
        ensures Parse(data) == Superframe(sizes)
      {
        IndexDecides(body, sizes, width);
      }
    }
  }

  /** Splitting undoes joining: exactly the frame sizes come back, and they cut the frames out again. */
  lemma SplitUndoesJoin(frames: seq<seq<Byte>>, width: nat)
    requires 1 <= width <= 4 && 1 <= |frames| <= MAX_FRAMES && Fits(Lengths(frames), width)
    ensures Parse(Join(frames, width)) == Superframe(Lengths(frames))
    ensures Concat(frames) <= Join(frames, width)
  {
    JoinIsIndexed(frames, width);
    FitsIs(Lengths(frames), width);
    hide *;
    ConcatLength(frames);
    IndexDecides(Concat(frames), Lengths(frames), width);
  }

  lemma JoinIsIndexed(frames: seq<seq<Byte>>, width: nat)
    requires 1 <= width <= 4 && 1 <= |frames| <= MAX_FRAMES
    ensures Join(frames, width) == Indexed(Concat(frames), Lengths(frames), width)
    ensures |frames| <= 8 && Concat(frames) <= Join(frames, width)
  {
    hide Concat, Entries, Marker;
  }

  lemma FitsIs(sizes: seq<nat>, width: nat)
    requires Fits(sizes, width)
    ensures Written(sizes, width) && Roomy(sizes, Sum(sizes))
  {
    hide Sum, Pow256;
  }

  lemma {:induction false} FrameInConcat(frames: seq<seq<Byte>>, i: nat)
    requires i < |frames|
    ensures var o := Offset(Lengths(frames), i);
            o + |frames[i]| <= |Concat(frames)| && Concat(frames)[o..o + |frames[i]|] == frames[i]
  {
    var init := frames[..|frames| - 1];
    ConcatLength(init);
    assert Lengths(frames)[..|init|] == Lengths(init);
    if i == |init| {
    } else {
      FrameInConcat(init, i);
      assert Lengths(frames)[..i] == Lengths(init)[..i];
      var o := Offset(Lengths(init), i);
      assert Concat(frames)[o..o + |frames[i]|] == Concat(init)[o..o + |frames[i]|];
    }
  }
}
