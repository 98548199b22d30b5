/**
 * Machine words shared by the packet codec and the IMU producer:
 * bytes, 16- and 32-bit unsigned words, 32-bit signed words, and their
 * little- and big-endian byte images.
 */
module Bytes {

  type byte = x: int | 0 <= x < 0x100
  type uint16 = x: int | 0 <= x < 0x1_0000
  type uint32 = x: int | 0 <= x < 0x1_0000_0000
  type int32 = x: int | -0x8000_0000 <= x < 0x8000_0000
  type uint64 = x: int | 0 <= x < 0x1_0000_0000_0000_0000

  datatype Option<T> = None | Some(value: T)

  /** The two bytes of `w` in little-endian order (low byte first). */
  function LittleEndian16(w: uint16): (r: seq<byte>)
    ensures |r| == 2
  {
    [w % 0x100, w / 0x100]
  }

  /** The 16-bit word whose little-endian image is `lo`, `hi`. */
  function FromLittleEndian16(lo: byte, hi: byte): (w: uint16)
    ensures LittleEndian16(w) == [lo, hi]
  {
    lo + 0x100 * hi
  }

  lemma LittleEndian16RoundTrip(w: uint16)
    ensures FromLittleEndian16(LittleEndian16(w)[0], LittleEndian16(w)[1]) == w
  {
  }

  /** The 32-bit word whose big-endian image is `s` (most significant byte first). */
  function FromBigEndian32(s: seq<byte>): (w: uint32)
    requires |s| == 4
  {
    ((s[0] as int * 0x100 + s[1]) * 0x100 + s[2]) * 0x100 + s[3]
  }

  /** Concatenation regroups. */
  lemma ConcatAssoc<T>(a: seq<T>, b: seq<T>, c: seq<T>)
    ensures a + (b + c) == (a + b) + c
  {
  }

  /** A sequence is its part before index k, the element at k, and its part after k. */
  lemma SplitAt<T>(x: seq<T>, k: nat)
    requires k < |x|
    ensures x[..k] + [x[k]] + x[k + 1..] == x
  {
  }

  /** A slice is the slice up to j followed by the slice from j. */
  lemma SliceSplit<T>(x: seq<T>, i: nat, j: nat, k: nat)
    requires i <= j <= k <= |x|
    ensures x[i..k] == x[i..j] + x[j..k]
  {
  }

  /** A non-empty sequence is its head, the elements up to k, and the rest. */
  lemma SplitHead<T>(x: seq<T>, k: nat)
    requires 1 <= k <= |x|
    ensures [x[0]] + x[1..k] + x[k..] == x
  {
  }

  /** Quotient and remainder are the only such pair: `t == q * d + m` with `0 <= m < d`. */
  /** A suffix of the tail of `s` is a suffix of `s`. */
  lemma SuffixOfTail<T>(s: seq<T>, t: seq<T>)
    requires s != [] && |t| <= |s| - 1 && t == s[1..][|s| - 1 - |t|..]
    ensures |t| <= |s| && t == s[|s| - |t|..]
  {
    assert s[1..][|s| - 1 - |t|..] == s[|s| - |t|..];
  }

  lemma DivModUnique(t: int, d: nat, q: int, m: int)
    requires d > 0 && 0 <= m < d && t == q * d + m
    ensures t / d == q && t % d == m
  {
    var q0, m0 := t / d, t % d;
    assert t == q0 * d + m0;
    assert (q - q0) * d == m0 - m;
    if q > q0 {
      MulAtLeast(q - q0, d);
    } else if q < q0 {
      MulAtLeast(q0 - q, d);
    }
  }

  lemma {:induction false} MulAtLeast(k: nat, d: nat)
    requires k >= 1
    ensures k * d >= d
    decreases k
  {
    if k > 1 {
      MulAtLeast(k - 1, d);
      assert k * d == (k - 1) * d + d;
    }
  }

  /** memcpy of `s` into `a` at offset `off`: only `a[off .. off + |s|)` changes. */
  method CopyInto(a: array<byte>, off: nat, s: seq<byte>)
    requires off + |s| <= a.Length
    modifies a
    ensures a[..] == old(a[..off]) + s + old(a[off + |s|..])
    ensures a[off..off + |s|] == s
    ensures forall j :: 0 <= j < off ==> a[j] == old(a[j])
  {
    for k := 0 to |s|
      invariant forall j :: 0 <= j < a.Length ==> a[j] == if off <= j < off + k then s[j - off] else old(a[j])
    {
      a[off + k] := s[k];
    }
    ghost var want := old(a[..off]) + s + old(a[off + |s|..]);
    assert |want| == a.Length;
    assert forall j :: 0 <= j < a.Length ==> a[j] == want[j];
  }
}
