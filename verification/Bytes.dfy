/** Bytes, and numbers written out as bytes. */
module Bytes {
  newtype Byte = x: int | 0 <= x < 256

  function Power256(n: nat): (p: nat)
    ensures p >= 1
  {
    if n == 0 then 1 else 256 * Power256(n - 1)
  }

  /** The `i`-th base-256 digit of `n`, counting from the least significant. */
  function Digit(n: nat, i: nat): Byte {
    if i == 0 then (n % 256) as Byte else Digit(n / 256, i - 1)
  }

  /** `n` in `width` bytes, least significant first. */
  function LittleEndian(n: nat, width: nat): (s: seq<Byte>)
    ensures |s| == width
  {
    seq(width, i requires 0 <= i < width => Digit(n, i))
  }

  function FromLittleEndian(s: seq<Byte>): nat {
    if s == [] then 0 else s[0] as int + 256 * FromLittleEndian(s[1..])
  }

  /** `n` in `width` bytes, most significant first. */
  function BigEndian(n: nat, width: nat): (s: seq<Byte>)
    ensures |s| == width
  {
    seq(width, i requires 0 <= i < width => Digit(n, width - 1 - i))
  }

  function FromBigEndian(s: seq<Byte>): nat {
    if s == [] then 0 else 256 * FromBigEndian(s[..|s| - 1]) + s[|s| - 1] as int
  }

  lemma LittleEndianSplit(n: nat, width: nat)
    ensures LittleEndian(n, width + 1) == [(n % 256) as Byte] + LittleEndian(n / 256, width)
  {
    assert forall i :: 0 <= i < width ==> LittleEndian(n, width + 1)[i + 1] == LittleEndian(n / 256, width)[i];
  }

  lemma BigEndianSplit(n: nat, width: nat)
    ensures BigEndian(n, width + 1) == BigEndian(n / 256, width) + [(n % 256) as Byte]
  {
    forall i | 0 <= i < width ensures BigEndian(n, width + 1)[i] == BigEndian(n / 256, width)[i] {
      assert Digit(n, width - i) == Digit(n / 256, width - i - 1);
    }
    assert BigEndian(n, width + 1)[width] == Digit(n, 0);
    assert Digit(n, 0) == (n % 256) as Byte;
  }

  /** A number that fits its width is read back unchanged. */
  lemma {:induction false} LittleEndianRoundTrip(n: nat, width: nat)
    requires n < Power256(width)
    ensures FromLittleEndian(LittleEndian(n, width)) == n
  {
    if width > 0 {
      LittleEndianSplit(n, width - 1);
      LittleEndianRoundTrip(n / 256, width - 1);
    }
  }

  lemma {:induction false} BigEndianRoundTrip(n: nat, width: nat)
    requires n < Power256(width)
    ensures FromBigEndian(BigEndian(n, width)) == n
  {
    if width > 0 {
      BigEndianSplit(n, width - 1);
      BigEndianRoundTrip(n / 256, width - 1);
    }
  }

  /** And every byte string is the writing of the number it reads as. */
  lemma {:induction false} LittleEndianOnto(s: seq<Byte>)
    ensures FromLittleEndian(s) < Power256(|s|)
    ensures LittleEndian(FromLittleEndian(s), |s|) == s
  {
    if s != [] {
      LittleEndianSplit(FromLittleEndian(s), |s| - 1);
      LittleEndianOnto(s[1..]);
    }
  }

  lemma {:induction false} BigEndianOnto(s: seq<Byte>)
    ensures FromBigEndian(s) < Power256(|s|)
    ensures BigEndian(FromBigEndian(s), |s|) == s
  {
    if s != [] {
      BigEndianSplit(FromBigEndian(s), |s| - 1);
      BigEndianOnto(s[..|s| - 1]);
    }
  }

  const LIMIT_4: nat := 0x1_0000_0000
  const LIMIT_8: nat := 0x1_0000_0000_0000_0000

  lemma Widths()
    ensures Power256(4) == LIMIT_4 && Power256(8) == LIMIT_8
  {
    assert Power256(2) == 0x1_0000;
    assert Power256(4) == 256 * (256 * Power256(2));
    assert Power256(6) == 256 * (256 * Power256(4));
    assert Power256(8) == 256 * (256 * Power256(6));
  }

  lemma EightBytes(n: nat)
    requires n < LIMIT_8
    ensures FromLittleEndian(LittleEndian(n, 8)) == n
  {
    Widths();
    LittleEndianRoundTrip(n, 8);
  }

  lemma FourBytes(n: nat)
    requires n < LIMIT_4
    ensures FromLittleEndian(LittleEndian(n, 4)) == n && FromBigEndian(BigEndian(n, 4)) == n
  {
    Widths();
    LittleEndianRoundTrip(n, 4);
    BigEndianRoundTrip(n, 4);
  }

  lemma EightBytesOnto(s: seq<Byte>)
    requires |s| == 8
    ensures FromLittleEndian(s) < LIMIT_8 && LittleEndian(FromLittleEndian(s), 8) == s
  {
    Widths();
    LittleEndianOnto(s);
  }

  lemma FourBytesOnto(s: seq<Byte>)
    requires |s| == 4
    ensures FromLittleEndian(s) < LIMIT_4 && LittleEndian(FromLittleEndian(s), 4) == s
    ensures FromBigEndian(s) < LIMIT_4 && BigEndian(FromBigEndian(s), 4) == s
  {
    Widths();
    LittleEndianOnto(s);
    BigEndianOnto(s);
  }
}
