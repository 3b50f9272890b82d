/** LEB128 numbers (section 4.10.5 of AV1) as drivers/amvdec_ports/decoder/vdec_av1_if.c
    reads and writes them. max is the kernel's ULONG_MAX. */
module Av1Leb {
  import opened Basics
  import opened Bytes

  const MAX_SIZE: nat := 8

  function Pow128(n: nat): (r: nat)
    ensures r > 0
  {
    if n == 0 then 1 else 128 * Pow128(n - 1)
  }

  /** The bytes of v: seven bits each, least significant first, the top bit on all but the last. */
  function Encoded(v: nat): (r: seq<Byte>)
    ensures |r| > 0
  {
    if v < 128 then [v] else [v % 128 + 128] + Encoded(v / 128)
  }

  datatype Number = Number(value: nat, length: nat) | Unterminated

  /** The number at the start of s, however long. */
  function Read(s: seq<Byte>): (r: Number)
    ensures r.Number? ==> 1 <= r.length <= |s|
  {
    if s == [] then Unterminated
    else if s[0] < 128 then Number(s[0], 1)
    else
      match Read(s[1..])
      case Unterminated => Unterminated
      case Number(v, n) => Number(s[0] % 128 + 128 * v, n + 1)
  }

  /** What uleb_decode accepts: a number within eight bytes that fits an unsigned long. */
  function Decode(s: seq<Byte>, max: nat): (r: Number)
    ensures r.Number? ==> 1 <= r.length <= Min(MAX_SIZE, |s|) && r.value <= max
  {
    match Read(s[..Min(MAX_SIZE, |s|)])
    case Unterminated => Unterminated
    case Number(v, n) => if v > max then Unterminated else Number(v, n)
  }

  // ----- the codec -----

  lemma {:induction false} EncodedLength(v: nat, n: nat)
    requires n >= 1
    ensures |Encoded(v)| <= n <==> v < Pow128(n)
    decreases n
  {
    if n == 1 {
      assert Pow128(1) == 128;
    } else {
      if v >= 128 { EncodedLength(v / 128, n - 1); } else { PowGrows(n); }
    }
  }

  lemma {:induction false} PowGrows(n: nat)
    requires n >= 1
    ensures Pow128(n) >= 128
  {
    if n > 1 { PowGrows(n - 1); }
  }

  method UlebSizeInBytes(value: nat) returns (size: nat)
    ensures size == |Encoded(value)|
  {
    var v: nat := value / 128;
    size := 1;
    while v != 0
      invariant size >= 1
      invariant |Encoded(value)| == if v == 0 then size else size + |Encoded(v)|
      decreases v
    {
      size := size + 1;
      v := v / 128;
    }
  }

  /** The digits of s, continuation bits dropped. */
  function Digits(s: seq<Byte>): nat {
    if s == [] then 0 else s[0] % 128 + 128 * Digits(s[1..])
  }

  predicate Continues(s: seq<Byte>) { forall i :: 0 <= i < |s| ==> s[i] >= 128 }

  lemma {:induction false} DigitsAppend(s: seq<Byte>, b: Byte)
    ensures Digits(s + [b]) == Digits(s) + Pow128(|s|) * (b % 128)
  {
    if s == [] {
      assert s + [b] == [b] && [b][1..] == [];
    } else {
      DigitsAppend(s[1..], b);
      assert (s + [b])[1..] == s[1..] + [b];
    }
  }

  lemma {:induction false} ReadAfter(s: seq<Byte>, n: nat)
    requires n <= |s| && Continues(s[..n])
    ensures n == |s| ==> Read(s) == Unterminated
    ensures n < |s| && s[n] < 128 ==> Read(s) == Number(Digits(s[..n + 1]), n + 1)
  {
    if n > 0 {
      assert s[0] == s[..n][0] && s[..n][1..] == s[1..][..n - 1];
      assert Continues(s[1..][..n - 1]);
      ReadAfter(s[1..], n - 1);
      if n < |s| { assert s[..n + 1][1..] == s[1..][..n]; }
    } else if |s| > 0 {
      assert s[..1][1..] == [];
    }
  }

  method UlebDecode(buffer: seq<Byte>, max: nat) returns (ret: int, value: nat, length: nat)
    ensures match Decode(buffer, max)
            case Unterminated => ret == -1
            case Number(v, n) => ret == 0 && value == v && length == n
  {
    hide Read, Digits, Pow128;
    value, length := 0, 0;
    var i := 0;
    ghost var s := buffer[..Min(MAX_SIZE, |buffer|)];
    DigitsEmpty();
    while i < MAX_SIZE && i < |buffer|
      invariant i <= |s| && Continues(s[..i]) && value == Digits(s[..i])
    {
      var decodedByte := buffer[i] % 128;
      DigitsAppend(s[..i], buffer[i]);
      assert s[..i + 1] == s[..i] + [buffer[i]];
      value := value + Pow128(i) * decodedByte;
      if buffer[i] / 128 == 0 {
        length := i + 1;
        ReadAfter(s, i);
        return if value > max then -1 else 0, value, length;
      }
      i := i + 1;
    }
    ReadAfter(s, i);
    ret := -1;
  }

  lemma DigitsEmpty()
    ensures Digits([]) == 0
  {
  }

  method UlebEncode(value: nat, available: nat, max: nat) returns (ret: int, coded: seq<Byte>)
    ensures ret == 0 <==> value <= max && |Encoded(value)| <= MAX_SIZE && |Encoded(value)| <= available
    ensures ret == 0 ==> coded == Encoded(value)
    ensures ret != 0 ==> ret == -1
  {
    coded := [];
    var lebSize := UlebSizeInBytes(value);
    if value > max || lebSize > MAX_SIZE || lebSize > available {
      return -1, [];
    }
    var v: nat := value;
    for i := 0 to lebSize
      invariant |coded| == i
      invariant i < lebSize ==> coded + Encoded(v) == Encoded(value)
      invariant i == lebSize ==> coded == Encoded(value)
    {
      var byte := v % 128;
      assert Encoded(v)[0] % 128 == v % 128;
      v := v / 128;
      if v != 0 {
        byte := byte + 128;
      }
      coded := coded + [byte];
    }
    ret := 0;
  }

  // ----- round trips -----

  lemma {:induction false} ReadEncoded(v: nat, rest: seq<Byte>)
    ensures Read(Encoded(v) + rest) == Number(v, |Encoded(v)|)
  {
    if v >= 128 {
      ReadEncoded(v / 128, rest);
      assert (Encoded(v) + rest)[1..] == Encoded(v / 128) + rest;
    }
  }

  /** Every value below 2^56 that fits an unsigned long comes back, with the length it was written in,
      whatever bytes follow. */
  lemma DecodeUndoesEncode(v: nat, max: nat, rest: seq<Byte>)
    requires v < Pow128(8) && v <= max
    ensures Decode(Encoded(v) + rest, max) == Number(v, |Encoded(v)|)
  {
    EncodedLength(v, 8);
    var s := Encoded(v) + rest;
    var n := Min(MAX_SIZE, |s|);
    assert s[..n] == Encoded(v) + rest[..n - |Encoded(v)|];
    ReadEncoded(v, rest[..n - |Encoded(v)|]);
  }

  /** No shorter encoding of the same value exists. */
  lemma {:induction false} EncodedIsShortest(s: seq<Byte>)
    requires Read(s).Number?
    ensures |Encoded(Read(s).value)| <= Read(s).length
  {
    if s[0] >= 128 {
      EncodedIsShortest(s[1..]);
    }
  }

  /** The four bytes at the end of the AMLV header. */
  function FixedSize(v: nat): seq<Byte>
    requires v < WORD
  {
    [v % 128 + 128, v / 0x80 % 128 + 128, v / 0x4000 % 128 + 128, v / 0x20_0000 % 256]
  }

  /** They decode to the size they were made from exactly when it is below 2^28. */
  lemma FixedSizeDecodes(v: nat, max: nat, rest: seq<Byte>)
    requires v < WORD && v <= max
    ensures Decode(FixedSize(v) + rest, max) == Number(v, 4) <==> v < 0x1000_0000
  {
    var s := FixedSize(v) + rest;
    var t := s[..Min(MAX_SIZE, |s|)];
    assert t[..3] == FixedSize(v)[..3] && Continues(t[..3]) && t[3] == FixedSize(v)[3];
    assert t[..4] == FixedSize(v);
    FourDigits(v);
    if t[3] < 128 {
      ReadAfter(t, 3);
    } else if Read(t).Number? {
      ReadBeyond(t, 4);
    }
  }

  lemma DigitsCons(x: Byte, s: seq<Byte>)
    ensures Digits([x] + s) == x % 128 + 128 * Digits(s)
  {
    assert ([x] + s)[1..] == s;
  }

  /** Four digits with their continuation bits dropped. */
  lemma DigitsOfFour(a: Byte, b: Byte, c: Byte, d: Byte)
    ensures Digits([a, b, c, d]) == a % 128 + 128 * (b % 128 + 128 * (c % 128 + 128 * (d % 128)))
  {
    DigitsEmpty();
    DigitsCons(d, []);
    DigitsCons(c, [d]);
    DigitsCons(b, [c, d]);
    DigitsCons(a, [b, c, d]);
    hide Digits;
    assert [d] == [d] + [] && [c, d] == [c] + [d] && [b, c, d] == [b] + [c, d];
    assert [a, b, c, d] == [a] + [b, c, d];
  }

  lemma DropBit(x: nat)
    requires x < 128
    ensures (x + 128) % 128 == x
  {
  }

  lemma FixedDigits(v: nat)
    requires v < WORD
    ensures Digits(FixedSize(v)) == v % 0x1000_0000
  {
    DigitsOfFour(v % 128 + 128, v / 0x80 % 128 + 128, v / 0x4000 % 128 + 128, v / 0x20_0000 % 256);
    hide Digits;
    DropBit(v % 128);
    DropBit(v / 0x80 % 128);
    DropBit(v / 0x4000 % 128);
    SplitDigits(v);
    TopDigit(v / 0x20_0000);
  }

  lemma TopDigit(x: nat)
    ensures x % 256 % 128 == x % 128
  {
  }

  lemma FourDigits(v: nat)
    requires v < WORD
    ensures v < 0x1000_0000 ==> FixedSize(v)[3] < 128 && Digits(FixedSize(v)) == v
    ensures v >= 0x1000_0000 && FixedSize(v)[3] < 128 ==> Digits(FixedSize(v)) != v
  {
    FixedDigits(v);
    hide Digits;
    if v < 0x1000_0000 { assert v / 0x20_0000 < 128; }
  }

  lemma SplitDigits(v: nat)
    requires v < WORD
    ensures v % 0x1000_0000 == v % 128 + 128 * (v / 0x80 % 128) + 0x4000 * (v / 0x4000 % 128)
                               + 0x20_0000 * (v / 0x20_0000 % 128)
  {
    var a := v / 0x80;
    var b := a / 0x80;
    var c := b / 0x80;
    assert b == v / 0x4000 && c == v / 0x20_0000;
  }

  lemma {:induction false} ReadBeyond(s: seq<Byte>, n: nat)
    requires n <= |s| && Continues(s[..n]) && Read(s).Number?
    ensures Read(s).length > n
  {
    if n > 0 {
      assert s[0] == s[..n][0] && s[..n][1..] == s[1..][..n - 1];
      ReadBeyond(s[1..], n - 1);
    }
  }
}
