/**
 * CRC16 over a byte range with a caller-supplied generator polynomial.
 *
 * The codec's own implementation is not part of this model; this is a
 * reference definition (most-significant bit first, initial value 0, no
 * final inversion) used wherever the codec computes a checksum.  The codec
 * relies only on the checksum being a function of the bytes and the
 * polynomial.  The register is an integer below 2^16 and exclusive or is
 * written out bit by bit.
 */
module Crc16 {
  import opened Bytes

  /** Bitwise exclusive or of two naturals. */
  function Xor(a: nat, b: nat): (r: nat)
    decreases a + b
  {
    if a == 0 then b
    else if b == 0 then a
    else (a % 2 + b % 2) % 2 + 2 * Xor(a / 2, b / 2)
  }

  lemma {:induction false} XorBound(a: nat, b: nat, k: nat)
    requires a < Pow2(k) && b < Pow2(k)
    ensures Xor(a, b) < Pow2(k)
    decreases a + b
  {
    if a != 0 && b != 0 {
      XorBound(a / 2, b / 2, k - 1);
    }
  }

  function Pow2(k: nat): (r: nat)
    ensures r >= 1
  {
    if k == 0 then 1 else 2 * Pow2(k - 1)
  }

  lemma {:induction false} Pow2Add(i: nat, j: nat)
    ensures Pow2(i + j) == Pow2(i) * Pow2(j)
    decreases i
  {
    if i > 0 {
      Pow2Add(i - 1, j);
    }
  }

  /** Exclusive or of two 16-bit values is a 16-bit value. */
  lemma XorBound16(a: uint16, b: uint16)
    ensures Xor(a, b) < 0x1_0000
  {
    assert Pow2(4) == 16;
    Pow2Add(4, 4);
    Pow2Add(8, 8);
    XorBound(a, b, 16);
  }

  /**
   * One shift step of the division register: shift left, and xor in the
   * polynomial when the bit shifted out was set.
   */
  function Shift(c: uint16, poly: uint16): uint16
  {
    if c >= 0x8000 then
      XorBound16(2 * c - 0x1_0000, poly);
      Xor(2 * c - 0x1_0000, poly)
    else 2 * c
  }

  /** `k` shift steps. */
  function ShiftN(c: uint16, k: nat, poly: uint16): uint16
    decreases k
  {
    if k == 0 then c else ShiftN(Shift(c, poly), k - 1, poly)
  }

  /** The register after absorbing byte `b`: b enters the top eight bits, then eight shift steps. */
  function Absorb(c: uint16, b: byte, poly: uint16): uint16
  {
    XorBound16(c, 0x100 * b);
    ShiftN(Xor(c, 0x100 * b), 8, poly)
  }

  /** crc16Gen: the 16-bit checksum of `data`, first byte first. */
  function Crc(data: seq<byte>, poly: uint16): uint16
    decreases |data|
  {
    if |data| == 0 then 0
    else Absorb(Crc(data[..|data| - 1], poly), data[|data| - 1], poly)
  }

  /** Shifting a clear register leaves it clear. */
  lemma {:induction false} ShiftNZero(k: nat, poly: uint16)
    ensures ShiftN(0, k, poly) == 0
    decreases k
  {
    if k > 0 {
      ShiftNZero(k - 1, poly);
    }
  }

  /**
   * With initial value 0, a zero byte in front of the data does not change
   * the checksum: the register stays clear while it absorbs it.
   */
  lemma {:induction false} CrcLeadingZero(data: seq<byte>, poly: uint16)
    ensures Crc([0] + data, poly) == Crc(data, poly)
    decreases |data|
  {
    if |data| == 0 {
      assert ([0] + data)[..0] == [];
      ShiftNZero(8, poly);
    } else {
      var n := |data|;
      assert ([0] + data)[..n] == [0] + data[..n - 1];
      CrcLeadingZero(data[..n - 1], poly);
    }
  }
}
