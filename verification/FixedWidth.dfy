/** Integers of a fixed number of bytes, as Python's `struct` packs them. */
module FixedWidth {
  import opened Bytes

  function Power(width: nat): nat {
    if width == 0 then 1 else 256 * Power(width - 1)
  }

  lemma {:induction false} Powers()
    ensures Power(1) == 0x100 && Power(2) == 0x1_0000
    ensures Power(4) == 0x1_0000_0000 && Power(8) == 0x1_0000_0000_0000_0000
  {
    assert Power(3) == 0x100_0000 && Power(4) == 0x1_0000_0000;
    assert Power(5) == 0x100_0000_0000 && Power(6) == 0x1_0000_0000_0000;
    assert Power(7) == 0x100_0000_0000_0000;
  }

  /** Big-endian bytes. */
  function BigEndian(n: nat, width: nat): (s: Bytes)
    ensures |s| == width
  {
    if width == 0 then [] else BigEndian(n / 256, width - 1) + [n % 256]
  }

  function Unsigned(s: Bytes): nat
    decreases |s|
  {
    if s == [] then 0 else 256 * Unsigned(s[..|s| - 1]) + s[|s| - 1]
  }

  /** The first byte weighs most. */
  lemma {:induction false} FirstWeighsMost(b: Byte, s: Bytes)
    ensures Unsigned([b] + s) == b * Power(|s|) + Unsigned(s)
    decreases |s|
  {
    if s == [] {
      assert ([b] + s)[..0] == [] && [b] + s == [b];
      assert Unsigned([b]) == 256 * Unsigned([b][..0]) + b;
    } else {
      var front, last := s[..|s| - 1], s[|s| - 1];
      assert ([b] + s)[..|s|] == [b] + front;
      FirstWeighsMost(b, front);
      assert 256 * (b * Power(|front|)) == b * Power(|s|);
    }
  }

  function Signed(s: Bytes): int {
    if 2 * Unsigned(s) >= Power(|s|) then Unsigned(s) - Power(|s|) else Unsigned(s)
  }

  lemma {:induction false} BigEndianReads(n: nat, width: nat)
    requires n < Power(width)
    ensures Unsigned(BigEndian(n, width)) == n
    decreases width
  {
    if width > 0 {
      BigEndianReads(n / 256, width - 1);
      assert BigEndian(n, width)[..width - 1] == BigEndian(n / 256, width - 1);
    }
  }

  /** Little-endian bytes. */
  function LittleEndian(n: nat, width: nat): (s: Bytes)
    ensures |s| == width
  {
    if width == 0 then [] else [n % 256] + LittleEndian(n / 256, width - 1)
  }

  function FromLittle(s: Bytes): nat
    decreases |s|
  {
    if s == [] then 0 else s[0] + 256 * FromLittle(s[1..])
  }

  lemma {:induction false} LittleReads(n: nat, width: nat)
    requires n < Power(width)
    ensures FromLittle(LittleEndian(n, width)) == n
    decreases width
  {
    if width > 0 { LittleReads(n / 256, width - 1); }
  }
}
