/** add_prefix_data of drivers/amvdec_ports/decoder/vdec_vp9_if.c: 16-byte gaps are opened in place,
    from the last frame to the first, by overlapping moves. */
module Vp9Prefix {
  import opened Basics
  import opened Bytes
  import opened Vp9Superframe

  /** The frame's size with its header. */
  function Header(frameSize: nat): (r: seq<Byte>)
    requires frameSize + PREFIX_SIZE < WORD
    ensures |r| == PREFIX_SIZE
  {
    AmlvHeader(frameSize + PREFIX_SIZE)
  }

  /** The sizes cut up data, and the result still has a 32-bit length. */
  predicate Cuts(data: seq<Byte>, sizes: seq<nat>) {
    Sum(sizes) <= |data| && Sum(sizes) + PREFIX_SIZE * |sizes| < WORD
  }

  function Frame(data: seq<Byte>, sizes: seq<nat>, i: nat): (r: seq<Byte>)
    requires Cuts(data, sizes) && i < |sizes|
    ensures |r| == sizes[i]
  {
    FrameFits(data, sizes, i);
    data[Offset(sizes, i)..Offset(sizes, i) + sizes[i]]
  }

  lemma FrameFits(data: seq<Byte>, sizes: seq<nat>, i: nat)
    requires Cuts(data, sizes) && i < |sizes|
    ensures Offset(sizes, i) + sizes[i] == Offset(sizes, i + 1) <= Sum(sizes)
    ensures sizes[i] + PREFIX_SIZE < WORD
  {
    OffsetNext(sizes, i);
    OffsetMonotone(sizes, i + 1, |sizes|);
    assert sizes[..|sizes|] == sizes;
  }

  /** Header and bytes of frames i, i + 1, ... in order. */
  function Framed(data: seq<Byte>, sizes: seq<nat>, i: nat): seq<Byte>
    requires Cuts(data, sizes) && i <= |sizes|
    decreases |sizes| - i
  {
    if i == |sizes| then []
    else
      FrameFits(data, sizes, i);
      Header(sizes[i]) + Frame(data, sizes, i) + Framed(data, sizes, i + 1)
  }

  lemma {:induction false} FramedLength(data: seq<Byte>, sizes: seq<nat>, i: nat)
    requires Cuts(data, sizes) && i <= |sizes|
    ensures Offset(sizes, i) + |Framed(data, sizes, i)| == Sum(sizes) + PREFIX_SIZE * (|sizes| - i)
    decreases |sizes| - i
  {
    if i < |sizes| {
      FrameFits(data, sizes, i);
      FramedLength(data, sizes, i + 1);
    } else {
      assert sizes[..i] == sizes;
    }
  }

  /** memmove: reads all before it writes. */
  method MemMove(p: array<Byte>, dst: nat, src: nat, n: nat)
    requires dst + n <= p.Length && src + n <= p.Length
    modifies p
    ensures p[dst..dst + n] == old(p[src..src + n])
    ensures p[..dst] == old(p[..dst]) && p[dst + n..] == old(p[dst + n..])
  {
    forall j | 0 <= j < n {
      p[dst + j] := p[src + j];
    }
  }

  method WriteHeader(p: array<Byte>, at: nat, frameSize: nat)
    requires at + PREFIX_SIZE <= p.Length && frameSize + PREFIX_SIZE < WORD
    modifies p
    ensures p[at..at + PREFIX_SIZE] == Header(frameSize)
    ensures p[..at] == old(p[..at]) && p[at + PREFIX_SIZE..] == old(p[at + PREFIX_SIZE..])
  {
    var h := Header(frameSize);
    forall j | 0 <= j < PREFIX_SIZE {
      p[at + j] := h[j];
    }
  }

  /** One frame moved up by 16 * i bytes and its header put in front of it: everything below the frame
      is as before, everything from the header on is framed. */
  method PlaceFrame(p: array<Byte>, q: nat, n: nat, i: nat,
                    ghost low: seq<Byte>, ghost f: seq<Byte>, ghost high: seq<Byte>)
    requires i > 0 && |low| == q && |f| == n && n + PREFIX_SIZE < WORD
    requires q + n + PREFIX_SIZE * i <= p.Length
    requires p[..q] == low && p[q..q + n] == f && p[q + n + PREFIX_SIZE * i..] == high
    modifies p
    ensures p[..q] == low
    ensures p[q + PREFIX_SIZE * (i - 1)..] == Header(n) + f + high
  {
    var to := q + PREFIX_SIZE * i;
    var at := to - PREFIX_SIZE;
    ghost var before := p[..];
    MemMove(p, to, q, n);
    ghost var moved := p[..];
    Cut(moved, to, to + n);
    TakeTwice(before, q, to);
    TakeTwice(moved, q, to);
    assert moved[to..] == f + high && moved[..q] == low;
    WriteHeader(p, at, n);
    Cut(p[..], at, to);
    TakeTwice(moved, q, at);
    TakeTwice(p[..], q, at);
    assert Header(n) + (f + high) == Header(n) + f + high;
  }

  lemma Cut(s: seq<Byte>, a: nat, b: nat)
    requires a <= b <= |s|
    ensures s[a..] == s[a..b] + s[b..]
  {
  }

  lemma TakeTwice(s: seq<Byte>, a: nat, b: nat)
    requires a <= b <= |s|
    ensures s[..b][..a] == s[..a]
  {
  }

  /** The buffer handed on is exactly header and frame for each frame in order; nothing for no frames. */
  method AddPrefixData(data: seq<Byte>, sizes: seq<nat>) returns (out: array?<Byte>)
    requires Cuts(data, sizes)
    ensures out == null <==> Sum(sizes) + PREFIX_SIZE * |sizes| == 0
    ensures out != null ==> fresh(out) && out[..] == Framed(data, sizes, 0)
  {
    hide Sum, Header, Framed, Offset, Frame;
    var size := Sum(sizes);
    var length := size + |sizes| * PREFIX_SIZE;
    if length == 0 {
      return null;
    }
    var p := new Byte[length](_ => 0);
    forall j | 0 <= j < size {
      p[j] := data[j];
    }
    var q := size;
    var i := |sizes|;
    OffsetEnds(sizes);
    FramedEnds(data, sizes);
    assert p[..q] == data[..q];
    while i > 0
      invariant 0 <= i <= |sizes| && q == Offset(sizes, i) <= |data|
      invariant q + PREFIX_SIZE * i <= p.Length
      invariant p[..q] == data[..q]
      invariant p[q + PREFIX_SIZE * i..] == Framed(data, sizes, i)
    {
      FrameFits(data, sizes, i - 1);
      FramedStep(data, sizes, i - 1);
      var frameSize := sizes[i - 1];
      q := q - frameSize;
      FrameStands(p[..], data, sizes, i - 1);
      PlaceFrame(p, q, frameSize, i, data[..q], Frame(data, sizes, i - 1), Framed(data, sizes, i));
      i := i - 1;
    }
    OffsetEnds(sizes);
    assert p[0..] == p[..];
    out := p;
  }

  /** Frame i is still where it was, and so is what lies before it. */
  lemma FrameStands(p: seq<Byte>, data: seq<Byte>, sizes: seq<nat>, i: nat)
    requires Cuts(data, sizes) && i < |sizes|
    requires Offset(sizes, i) + sizes[i] <= |p| && Offset(sizes, i) + sizes[i] <= |data|
    requires p[..Offset(sizes, i) + sizes[i]] == data[..Offset(sizes, i) + sizes[i]]
    ensures var q := Offset(sizes, i);
            p[..q] == data[..q] && p[q..q + sizes[i]] == Frame(data, sizes, i)
  {
    hide Offset;
    FrameIs(data, sizes, i);
    var q, e := Offset(sizes, i), Offset(sizes, i) + sizes[i];
    TakeTwice(p, q, e);
    TakeTwice(data, q, e);
    assert p[q..e] == p[..e][q..] == data[..e][q..] == data[q..e];
  }

  lemma OffsetEnds(sizes: seq<nat>)
    ensures Offset(sizes, 0) == 0 && Offset(sizes, |sizes|) == Sum(sizes)
  {
    assert sizes[..|sizes|] == sizes && sizes[..0] == [];
  }

  lemma FrameIs(data: seq<Byte>, sizes: seq<nat>, i: nat)
    requires Cuts(data, sizes) && i < |sizes|
    ensures Offset(sizes, i) + sizes[i] <= |data|
    ensures Frame(data, sizes, i) == data[Offset(sizes, i)..Offset(sizes, i) + sizes[i]]
  {
    FrameFits(data, sizes, i);
  }

  lemma FramedEnds(data: seq<Byte>, sizes: seq<nat>)
    requires Cuts(data, sizes)
    ensures Framed(data, sizes, |sizes|) == []
  {
  }

  lemma FramedStep(data: seq<Byte>, sizes: seq<nat>, i: nat)
    requires Cuts(data, sizes) && i < |sizes| && sizes[i] + PREFIX_SIZE < WORD
    ensures Framed(data, sizes, i) == Header(sizes[i]) + Frame(data, sizes, i) + Framed(data, sizes, i + 1)
  {
  }

  // ----- reading the headers back -----

  datatype Frames = Frames(frames: seq<seq<Byte>>) | Malformed

  /** A receiver that checks each header and takes out the frame behind it. */
  function Unframe(s: seq<Byte>): Frames
    decreases |s|
  {
    if s == [] then Frames([])
    else if |s| < PREFIX_SIZE || !HeaderOk(s) then Malformed
    else
      var total := FromBe4(s[..4]);
      if total < PREFIX_SIZE || total > |s| then Malformed
      else
        match Unframe(s[total..])
        case Malformed => Malformed
        case Frames(fs) => Frames([s[PREFIX_SIZE..total]] + fs)
  }

  lemma UnframeStep(f: seq<Byte>, rest: seq<Byte>)
    requires |f| + PREFIX_SIZE < WORD
    ensures Unframe(Header(|f|) + f + rest)
            == match Unframe(rest) case Malformed => Malformed case Frames(fs) => Frames([f] + fs)
  {
    var s := Header(|f|) + f + rest;
    var total := |f| + PREFIX_SIZE;
    AmlvRoundTrip(total, f + rest);
    hide AmlvHeader, HeaderOk, FromBe4;
    assert s == Header(|f|) + (f + rest);
    assert s[total..] == rest && s[PREFIX_SIZE..total] == f;
  }

  function CutFrames(data: seq<Byte>, sizes: seq<nat>, i: nat): seq<seq<Byte>>
    requires Cuts(data, sizes) && i <= |sizes|
    decreases |sizes| - i
  {
    if i == |sizes| then [] else [Frame(data, sizes, i)] + CutFrames(data, sizes, i + 1)
  }

  /** Parsing the headers recovers the frames. */
  lemma {:induction false} UnframeUndoesFraming(data: seq<Byte>, sizes: seq<nat>, i: nat)
    requires Cuts(data, sizes) && i <= |sizes|
    ensures Unframe(Framed(data, sizes, i)) == Frames(CutFrames(data, sizes, i))
    decreases |sizes| - i
  {
    hide Unframe, Header, Offset;
    if i == |sizes| {
      UnframeEmpty();
    } else {
      FrameFits(data, sizes, i);
      UnframeStep(Frame(data, sizes, i), Framed(data, sizes, i + 1));
      UnframeUndoesFraming(data, sizes, i + 1);
    }
  }

  lemma UnframeEmpty()
    ensures Unframe([]) == Frames([])
  {
  }

  lemma {:induction false} CutFramesOfConcat(frames: seq<seq<Byte>>, data: seq<Byte>, i: nat)
    requires Concat(frames) <= data && Cuts(data, Lengths(frames)) && i <= |frames|
    ensures CutFrames(data, Lengths(frames), i) == frames[i..]
    decreases |frames| - i
  {
    if i < |frames| {
      FrameInConcat(frames, i);
      CutFramesOfConcat(frames, data, i + 1);
      var o := Offset(Lengths(frames), i);
      assert data[o..o + |frames[i]|] == Concat(frames)[o..o + |frames[i]|];
    }
  }

  /** From a joined superframe through parser and prefixing to a receiver: the same frames. */
  lemma SuperframeSurvives(frames: seq<seq<Byte>>, width: nat)
    requires 1 <= width <= 4 && 1 <= |frames| <= MAX_FRAMES && Fits(Lengths(frames), width)
    requires Sum(Lengths(frames)) + PREFIX_SIZE * |frames| < WORD
    ensures var data := Join(frames, width);
            && Parse(data) == Superframe(Lengths(frames)) && Cuts(data, Lengths(frames))
            && Unframe(Framed(data, Lengths(frames), 0)) == Frames(frames)
  {
    hide Parse, Sum, Unframe, Framed, Fits;
    var data := Join(frames, width);
    SplitUndoesJoin(frames, width);
    ConcatLength(frames);
    UnframeUndoesFraming(data, Lengths(frames), 0);
    CutFramesOfConcat(frames, data, 0);
  }
}
