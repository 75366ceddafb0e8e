/** The RSA exponent as the JWKS document carries it: Base64urlUInt of section 2 of RFC 7518 asks
    for the shortest big-endian octet sequence, and a single zero octet for zero. */
module Jwks {
  import opened Units

  const TWO_32 := 0x1_0000_0000

  function BigEndian(s: seq<Byte>): nat {
    if s == [] then 0 else BigEndian(s[..|s| - 1]) * 256 + s[|s| - 1]
  }

  /** Non-empty, and no leading zero that could be dropped. */
  ghost predicate IsMinimal(s: seq<Byte>) {
    |s| >= 1 && (|s| == 1 || s[0] != 0)
  }

  // byte(e >> k): the shift is arithmetic and the conversion keeps the low eight bits.
  function LowByte(x: int): Byte { x % 256 }

  method EncodeExponent(e: int) returns (buf: seq<Byte>)
    ensures IsMinimal(buf) && |buf| <= 4
    ensures BigEndian(buf) == e % TWO_32
    ensures BigEndian(buf) == e <==> 0 <= e < TWO_32
  {
    buf := [LowByte(e / 0x100_0000), LowByte(e / 0x1_0000), LowByte(e / 0x100), LowByte(e)];
    FourBytes(e, buf);
    ghost var value := e % TWO_32;
    assert value == e <==> 0 <= e < TWO_32;
    while |buf| > 1 && buf[0] == 0
      invariant 1 <= |buf| <= 4
      invariant BigEndian(buf) == value
    {
      LeadingZero(buf);
      buf := buf[1..];
    }
  }

  lemma SplitDigit(x: int, d: int)
    requires 0 <= d < 256
    ensures (x * 256 + d) % 256 == d && (x * 256 + d) / 256 == x
  {
  }

  // e % (256 * m) is one more digit on top of e % m.
  lemma TwoDigits(e: int)
    ensures e % 0x1_0000 == (e / 0x100) % 256 * 0x100 + e % 256
  {
  }

  lemma ThreeDigits(e: int)
    ensures e % 0x100_0000 == (e / 0x1_0000) % 256 * 0x1_0000 + e % 0x1_0000
  {
  }

  lemma FourDigits(e: int)
    ensures e % TWO_32 == (e / 0x100_0000) % 256 * 0x100_0000 + e % 0x100_0000
  {
  }

  lemma FourByteValue(s: seq<Byte>)
    requires |s| == 4
    ensures BigEndian(s) == ((s[0] as int * 256 + s[1]) * 256 + s[2]) * 256 + s[3]
  {
    assert s[..3][..2] == s[..2] && s[..2][..1] == s[..1] && s[..1][..0] == [];
    assert BigEndian(s[..1]) == s[0];
    assert BigEndian(s[..2]) == BigEndian(s[..1]) * 256 + s[1];
    assert BigEndian(s[..3]) == BigEndian(s[..2]) * 256 + s[2];
  }

  lemma FourBytes(e: int, buf: seq<Byte>)
    requires buf == [LowByte(e / 0x100_0000), LowByte(e / 0x1_0000), LowByte(e / 0x100), LowByte(e)]
    ensures BigEndian(buf) == e % TWO_32
  {
    FourByteValue(buf);
    TwoDigits(e);
    ThreeDigits(e);
    FourDigits(e);
  }

  lemma {:induction false} LeadingZero(s: seq<Byte>)
    requires s != [] && s[0] == 0
    ensures BigEndian(s[1..]) == BigEndian(s)
  {
    if |s| > 1 {
      var f := s[..|s| - 1];
      LeadingZero(f);
      assert s[1..][..|s[1..]| - 1] == f[1..];
    }
  }

  function Stripped(s: seq<Byte>): seq<Byte> {
    if s != [] && s[0] == 0 then Stripped(s[1..]) else s
  }

  lemma {:induction false} StrippedValue(s: seq<Byte>)
    ensures BigEndian(Stripped(s)) == BigEndian(s) && |Stripped(s)| <= |s|
    ensures Stripped(s) != [] ==> Stripped(s)[0] != 0
  {
    if s != [] && s[0] == 0 {
      LeadingZero(s);
      StrippedValue(s[1..]);
    }
  }

  lemma {:induction false} LeadingDigitCounts(s: seq<Byte>)
    requires s != [] && s[0] != 0
    ensures BigEndian(s) > 0
  {
    if |s| > 1 { LeadingDigitCounts(s[..|s| - 1]); }
  }

  lemma {:induction false} DigitsAreUnique(a: seq<Byte>, b: seq<Byte>)
    requires BigEndian(a) == BigEndian(b)
    requires (a != [] ==> a[0] != 0) && (b != [] ==> b[0] != 0)
    ensures a == b
  {
    if a != [] { LeadingDigitCounts(a); }
    if b != [] { LeadingDigitCounts(b); }
    if a != [] && b != [] {
      var fa, fb := a[..|a| - 1], b[..|b| - 1];
      SplitDigit(BigEndian(fa), a[|a| - 1]);
      SplitDigit(BigEndian(fb), b[|b| - 1]);
      DigitsAreUnique(fa, fb);
      assert a == fa + [a[|a| - 1]] && b == fb + [b[|b| - 1]];
    }
  }

  /** The minimal encoding is the only one of its kind, and no non-empty encoding of the same number
      is shorter. */
  lemma MinimalIsShortestAndUnique(a: seq<Byte>, b: seq<Byte>)
    requires IsMinimal(a) && b != [] && BigEndian(a) == BigEndian(b)
    ensures |a| <= |b|
    ensures IsMinimal(b) || |a| == |b| ==> a == b
  {
    StrippedValue(a);
    StrippedValue(b);
    DigitsAreUnique(Stripped(a), Stripped(b));
    assert |a| == 1 && a[0] == 0 ==> Stripped(a) == [] by { if |a| == 1 && a[0] == 0 { assert a[1..] == []; } }
    assert |b| == 1 && b[0] == 0 ==> Stripped(b) == [] by { if |b| == 1 && b[0] == 0 { assert b[1..] == []; } }
    if b[0] == 0 { StrippedShorter(b); }
    if a[0] == 0 { StrippedShorter(a); }
  }

  lemma StrippedShorter(s: seq<Byte>)
    requires s != [] && s[0] == 0
    ensures |Stripped(s)| < |s|
  {
    StrippedValue(s[1..]);
  }
}
