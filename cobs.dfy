/**
 * Consistent Overhead Byte Stuffing (S. Cheshire and M. Baker, "Consistent
 * Overhead Byte Stuffing", IEEE/ACM Transactions on Networking, 1999), in
 * the in-place form the packet codec calls: a span of n bytes whose first
 * byte is the overhead slot and whose last byte is the end-of-packet slot;
 * the n - 2 bytes between them are the data.  Encoding replaces every zero
 * data byte (and fills the overhead slot) with the distance to the next
 * zero or to the end of the span, and writes 0 into the end slot.
 *
 * The codec's own implementation is not part of this model; this is a
 * reference definition written from the published algorithm, restricted to
 * spans of at most 255 bytes, where every distance fits in one byte and the
 * 0xFF "no zero follows" code never arises.
 */
module Cobs {
  import opened Bytes

  /** Longest span the reference handles. */
  const MaxSpan := 255

  /** Index of the first zero byte of `x`, or |x| when there is none. */
  function FirstZero(x: seq<byte>): (k: nat)
    ensures k <= |x|
    ensures k < |x| ==> x[k] == 0
  {
    if |x| == 0 then 0
    else if x[0] == 0 then 0
    else 1 + FirstZero(x[1..])
  }

  /** No byte before the first zero is a zero. */
  lemma {:induction false} BeforeFirstZero(x: seq<byte>, i: nat)
    requires i < FirstZero(x)
    ensures x[i] != 0
    decreases i
  {
    if i > 0 {
      BeforeFirstZero(x[1..], i - 1);
    }
  }

  /** The part of `x` before its first zero has no zero. */
  lemma {:induction false} FirstZeroPrefix(x: seq<byte>)
    ensures FirstZero(x[..FirstZero(x)]) == FirstZero(x)
    decreases |x|
  {
    var k := FirstZero(x);
    if k > 0 {
      FirstZeroPrefix(x[1..]);
      assert x[..k][1..] == x[1..][..k - 1];
    }
  }

  /**
   * The stuffed form of `x`: one code byte per zero-terminated block, no
   * end marker.
   */
  function Stuff(x: seq<byte>): (s: seq<byte>)
    requires |x| < MaxSpan - 1
    ensures |s| == |x| + 1
    decreases |x|
  {
    var k := FirstZero(x);
    if k == |x| then [k + 1] + x
    else [k + 1] + x[..k] + Stuff(x[k + 1..])
  }

  /**
   * Inverse of Stuff: follows the chain of codes from the first byte; fails
   * unless every code is non-zero, no zero sits inside a block, and the
   * chain lands exactly on the end of `s`.
   */
  function Unstuff(s: seq<byte>): (r: Option<seq<byte>>)
    ensures r.Some? ==> |r.value| + 1 == |s|
    decreases |s|
  {
    if |s| == 0 then None
    else
      var c := s[0];
      if c == 0 || c > |s| then None
      else if FirstZero(s[1..c]) < c - 1 then None
      else if c == |s| then Some(s[1..])
      else match Unstuff(s[c..])
        case None => None
        case Some(rest) => Some(s[1..c] + [0] + rest)
  }

  /** cobsEncode over a span: the data between the two slots, stuffed, then the end marker. */
  function EncodeSpan(span: seq<byte>): (r: seq<byte>)
    requires 2 <= |span| <= MaxSpan
    ensures |r| == |span|
  {
    Stuff(span[1..|span| - 1]) + [0]
  }

  /**
   * cobsDecode over a span: the restored data between the two slots, or
   * None when the stuffing is malformed.  Only the bytes before the end slot
   * take part.
   */
  function DecodeSpan(span: seq<byte>): (r: Option<seq<byte>>)
    requires 2 <= |span| <= MaxSpan
    ensures r.Some? ==> |r.value| == |span| - 2
  {
    Unstuff(span[..|span| - 1])
  }

  /** No byte of `s` is zero. */
  predicate NoZero(s: seq<byte>)
  {
    forall i :: 0 <= i < |s| ==> s[i] != 0
  }

  lemma {:induction false} StuffHasNoZero(x: seq<byte>)
    requires |x| < MaxSpan - 1
    ensures NoZero(Stuff(x))
    decreases |x|
  {
    var k := FirstZero(x);
    NoZeroBeforeFirstZero(x);
    if k < |x| {
      StuffHasNoZero(x[k + 1..]);
      assert Stuff(x) == [k + 1] + x[..k] + Stuff(x[k + 1..]);
      NoZeroConcat([k + 1], x[..k]);
      NoZeroConcat([k + 1] + x[..k], Stuff(x[k + 1..]));
    } else {
      assert Stuff(x) == [k + 1] + x[..k];
      NoZeroConcat([k + 1], x[..k]);
    }
  }

  /** The part of `x` before its first zero has no zero. */
  lemma NoZeroBeforeFirstZero(x: seq<byte>)
    ensures NoZero(x[..FirstZero(x)])
  {
    forall i | 0 <= i < FirstZero(x) ensures x[..FirstZero(x)][i] != 0 {
      BeforeFirstZero(x, i);
    }
  }

  /** Joining two zero-free sequences leaves no zero. */
  lemma NoZeroConcat(a: seq<byte>, b: seq<byte>)
    requires NoZero(a) && NoZero(b)
    ensures NoZero(a + b)
  {
    forall i | 0 <= i < |a + b| ensures (a + b)[i] != 0 {
      if i >= |a| {
        assert (a + b)[i] == b[i - |a|];
      }
    }
  }

  lemma {:induction false} UnstuffStuff(x: seq<byte>)
    requires |x| < MaxSpan - 1
    ensures Unstuff(Stuff(x)) == Some(x)
    decreases |x|
  {
    var k := FirstZero(x);
    if k == |x| {
      UnstuffStuffBlock(x);
    } else {
      UnstuffStuff(x[k + 1..]);
      UnstuffStuffStep(x);
    }
  }

  /** The round trip for data with no zero: one block. */
  lemma UnstuffStuffBlock(x: seq<byte>)
    requires |x| < MaxSpan - 1 && FirstZero(x) == |x|
    ensures Unstuff(Stuff(x)) == Some(x)
  {
    var s := [|x| + 1] + x;
    assert Stuff(x) == s;
    assert s[1..] == x;
    UnstuffLastBlock(s);
  }

  /** A code that points at the end of the input, over a zero-free block, is the last block. */
  lemma UnstuffLastBlock(s: seq<byte>)
    requires 0 < |s| && s[0] == |s| && FirstZero(s[1..]) == |s| - 1
    ensures Unstuff(s) == Some(s[1..])
  {
    assert s[1..s[0]] == s[1..];
  }

  /** The round trip for data with a zero, given the round trip for what follows that zero. */
  lemma UnstuffStuffStep(x: seq<byte>)
    requires |x| < MaxSpan - 1 && FirstZero(x) < |x|
    requires Unstuff(Stuff(x[FirstZero(x) + 1..])) == Some(x[FirstZero(x) + 1..])
    ensures Unstuff(Stuff(x)) == Some(x)
  {
    var k := FirstZero(x);
    var block, rest := x[..k], x[k + 1..];
    FirstZeroPrefix(x);
    UnstuffBlock(block, Stuff(rest), rest);
    assert Stuff(x) == [|block| + 1] + block + Stuff(rest);
    SplitAt(x, k);
  }

  /** Unstuff reads one code, its zero-free block, and goes on from where the code points. */
  lemma UnstuffBlock(block: seq<byte>, tail: seq<byte>, rest: seq<byte>)
    requires |block| < MaxSpan - 1 && FirstZero(block) == |block|
    requires Unstuff(tail) == Some(rest)
    ensures Unstuff([|block| + 1] + block + tail) == Some(block + [0] + rest)
  {
    var s := [|block| + 1] + block + tail;
    assert s[1..|block| + 1] == block && s[|block| + 1..] == tail;
  }

  lemma {:induction false} StuffUnstuff(s: seq<byte>, x: seq<byte>)
    requires Unstuff(s) == Some(x)
    requires |s| <= MaxSpan - 1
    ensures Stuff(x) == s
    decreases |s|
  {
    var c: nat := s[0];
    UnstuffShape(s);
    if c == |s| {
      assert s[1..c] == x;
      assert s == [s[0]] + x;
    } else {
      var rest := Unstuff(s[c..]).value;
      StuffUnstuff(s[c..], rest);
      StuffUnstuffStep(s, x, rest);
    }
  }

  /** The reverse round trip for a chain of several blocks, given it for the chain after the first. */
  lemma StuffUnstuffStep(s: seq<byte>, x: seq<byte>, rest: seq<byte>)
    requires Unstuff(s) == Some(x) && |s| <= MaxSpan - 1
    requires s[0] < |s| && Unstuff(s[s[0]..]) == Some(rest) && Stuff(rest) == s[s[0]..]
    ensures Stuff(x) == s
  {
    var c: nat := s[0];
    UnstuffShape(s);
    FirstZeroOfBlock(s[1..c], rest);
    assert x[..c - 1] == s[1..c];
    assert x[c..] == rest;
    assert Stuff(x) == [c] + x[..c - 1] + Stuff(x[c..]);
    SplitHead(s, c);
  }

  /** What a successful Unstuff reveals about its input. */
  lemma UnstuffShape(s: seq<byte>)
    requires Unstuff(s).Some?
    ensures 0 < s[0] <= |s|
    ensures FirstZero(s[1..s[0]]) == s[0] - 1
    ensures s[0] == |s| ==> Unstuff(s).value == s[1..]
    ensures s[0] < |s| ==> Unstuff(s[s[0]..]).Some?
    ensures s[0] < |s| ==> Unstuff(s).value == s[1..s[0]] + [0] + Unstuff(s[s[0]..]).value
  {
  }

  /** A zero-free block followed by a zero has its first zero right after the block. */
  lemma {:induction false} FirstZeroOfBlock(block: seq<byte>, rest: seq<byte>)
    requires FirstZero(block) == |block|
    ensures FirstZero(block + [0] + rest) == |block|
    decreases |block|
  {
    if |block| > 0 {
      assert (block + [0] + rest)[1..] == block[1..] + [0] + rest;
      FirstZeroOfBlock(block[1..], rest);
    }
  }

  /** Decoding an encoded span gives back its data bytes. */
  lemma DecodeEncode(span: seq<byte>)
    requires 2 <= |span| <= MaxSpan
    ensures DecodeSpan(EncodeSpan(span)) == Some(span[1..|span| - 1])
  {
    var e := EncodeSpan(span);
    assert e[..|e| - 1] == Stuff(span[1..|span| - 1]);
    UnstuffStuff(span[1..|span| - 1]);
  }

  /** An encoded span has no zero byte before its end slot, and a zero in it. */
  lemma EncodeNoZero(span: seq<byte>)
    requires 2 <= |span| <= MaxSpan
    ensures forall i :: 0 <= i < |span| - 1 ==> EncodeSpan(span)[i] != 0
    ensures EncodeSpan(span)[|span| - 1] == 0
  {
    StuffHasNoZero(span[1..|span| - 1]);
  }

  /**
   * The decoder accepts only canonical encodings: whatever it accepts is the
   * encoding of what it returns, up to the ignored end slot.
   */
  lemma EncodeDecode(span: seq<byte>, data: seq<byte>)
    requires 2 <= |span| <= MaxSpan
    requires DecodeSpan(span) == Some(data)
    ensures |data| == |span| - 2
    ensures EncodeSpan([0] + data + [0]) == span[..|span| - 1] + [0]
  {
    StuffUnstuff(span[..|span| - 1], data);
    assert ([0] + data + [0])[1..|data| + 1] == data;
  }

  /** cobsEncode in place over the span `a[off .. off + n)`. */
  method EncodeInPlace(a: array<byte>, off: nat, n: nat)
    requires 2 <= n <= MaxSpan && off + n <= a.Length
    modifies a
    ensures a[..] == old(a[..off]) + EncodeSpan(old(a[off..off + n])) + old(a[off + n..])
  {
    var e := EncodeSpan(a[off..off + n]);
    CopyInto(a, off, e);
  }

  /**
   * cobsDecode in place over the span `a[off .. off + n)`: on success the
   * data bytes between the two slots are restored and the slots are left as
   * they were; on failure nothing changes.
   */
  method DecodeInPlace(a: array<byte>, off: nat, n: nat) returns (ok: bool)
    requires 2 <= n <= MaxSpan && off + n <= a.Length
    modifies a
    ensures ok == DecodeSpan(old(a[off..off + n])).Some?
    ensures !ok ==> a[..] == old(a[..])
    ensures ok ==> a[..] == old(a[..off + 1]) + DecodeSpan(old(a[off..off + n])).value + old(a[off + n - 1..])
  {
    var d := DecodeSpan(a[off..off + n]);
    ok := d.Some?;
    if ok {
      CopyInto(a, off + 1, d.value);
    }
  }
}
