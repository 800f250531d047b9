/** Bit-level view of byte buffers, most significant bit first, and the bit copy routine. */
module Bits {

  type byte = bv8

  /** A bit count between 0 and 8 as a shift amount. */
  function Amount(n: nat): bv4 {
    if n == 0 then 0 else Amount(n - 1) + 1
  }

  lemma {:induction false} AmountValue(n: nat)
    requires n <= 8
    ensures Amount(n) == if n == 0 then 0 else if n == 1 then 1 else if n == 2 then 2 else if n == 3 then 3
                         else if n == 4 then 4 else if n == 5 then 5 else if n == 6 then 6 else if n == 7 then 7 else 8
  {
    assert Amount(1) == 1 && Amount(2) == 2 && Amount(3) == 3 && Amount(4) == 4;
    assert Amount(5) == 5 && Amount(6) == 6 && Amount(7) == 7 && Amount(8) == 8;
  }

  predicate BitAt(b: byte, k: bv4)
    decreases k
  {
    if k == 0 then b & 0x80 != 0 else BitAt(b << 1, k - 1)
  }

  /** Bit k of a byte; bit 0 is the most significant one. */
  predicate Bit(b: byte, k: nat)
    requires k < 8
    decreases k
  {
    if k == 0 then b & 0x80 != 0 else Bit(b << 1, k - 1)
  }

  lemma {:induction false} BitByShift(b: byte, k: nat)
    requires k < 8
    ensures Bit(b, k) == BitAt(b, Amount(k))
  {
    AmountValue(k);
    if k == 0 {
    } else if k == 1 { assert Bit(b, 1) == BitAt(b, 1);
    } else if k == 2 { assert Bit(b, 2) == BitAt(b, 2);
    } else if k == 3 { assert Bit(b, 3) == BitAt(b, 3);
    } else if k == 4 { assert Bit(b, 4) == BitAt(b, 4);
    } else if k == 5 { assert Bit(b, 5) == BitAt(b, 5);
    } else if k == 6 { assert Bit(b, 6) == BitAt(b, 6);
    } else { assert Bit(b, 7) == BitAt(b, 7); }
  }

  /** Bit i of a buffer: the bits of byte 0 come first. */
  predicate BitOf(s: seq<byte>, i: nat)
    requires i < 8 * |s|
  {
    Bit(s[i / 8], i % 8)
  }

  lemma SameBitsSameByte(a: byte, b: byte)
    requires forall k | 0 <= k < 8 :: Bit(a, k) == Bit(b, k)
    ensures a == b
  {
    BitMasks(a);
    BitMasks(b);
    assert Bit(a, 0) == Bit(b, 0) && Bit(a, 1) == Bit(b, 1) && Bit(a, 2) == Bit(b, 2) && Bit(a, 3) == Bit(b, 3);
    assert Bit(a, 4) == Bit(b, 4) && Bit(a, 5) == Bit(b, 5) && Bit(a, 6) == Bit(b, 6) && Bit(a, 7) == Bit(b, 7);
    SameMasksSameByte(a, b);
  }

  lemma {:induction false} BitMasks(b: byte)
    ensures Bit(b, 0) == (b & 0x80 != 0) && Bit(b, 1) == (b & 0x40 != 0) && Bit(b, 2) == (b & 0x20 != 0)
         && Bit(b, 3) == (b & 0x10 != 0) && Bit(b, 4) == (b & 8 != 0) && Bit(b, 5) == (b & 4 != 0)
         && Bit(b, 6) == (b & 2 != 0) && Bit(b, 7) == (b & 1 != 0)
  {
  }

  lemma SameMasksSameByte(a: byte, b: byte)
    requires a & 0x80 == b & 0x80 && a & 0x40 == b & 0x40 && a & 0x20 == b & 0x20 && a & 0x10 == b & 0x10
    requires a & 8 == b & 8 && a & 4 == b & 4 && a & 2 == b & 2 && a & 1 == b & 1
    ensures a == b
  {
  }

  /** Two buffers of one length that agree on every bit are equal. */
  lemma SameBitsSameBuffer(s: seq<byte>, t: seq<byte>)
    requires |s| == |t|
    requires forall i | 0 <= i < 8 * |s| :: BitOf(s, i) == BitOf(t, i)
    ensures s == t
  {
    forall j | 0 <= j < |s| ensures s[j] == t[j] {
      forall k | 0 <= k < 8 ensures Bit(s[j], k) == Bit(t[j], k) {
        var i := 8 * j + k;
        assert i / 8 == j && i % 8 == k;
        assert BitOf(s, i) == BitOf(t, i);
      }
      SameBitsSameByte(s[j], t[j]);
    }
  }

  function MergeAt(d: byte, s: byte, from: bv4, to: bv4, n: bv4): byte {
    var mask := (((0xFF00 as bv16) >> n) & 0xFF) >> to;
    var data := (((s as bv16) << from) >> to) & 0xFF;
    (((d as bv16) & !mask & 0xFF) | (data & mask)) as bv8
  }

  /** The masked store of one round of the copy: n bits of s from bit `from` go to bit `to` of d. */
  function Merge(d: byte, s: byte, from: nat, to: nat, n: nat): byte
    requires from < 8 && to < 8 && 1 <= n <= 8
  {
    MergeAt(d, s, Amount(from), Amount(to), Amount(n))
  }

  lemma MergedInside(d: byte, s: byte, from: bv4, to: bv4, n: bv4, k: bv4)
    requires from < 8 && to < 8 && 1 <= n <= 8 && from + n <= 8 && to + n <= 8 && to <= k < to + n
    ensures from + k - to < 8
    ensures (MergeAt(d, s, from, to, n) >> (7 - k)) & 1 == (s >> (7 - (from + k - to))) & 1
  {
  }

  lemma MergedOutside(d: byte, s: byte, from: bv4, to: bv4, n: bv4, k: bv4)
    requires to < 8 && 1 <= n <= 8 && to + n <= 8 && k < 8 && !(to <= k < to + n)
    ensures (MergeAt(d, s, from, to, n) >> (7 - k)) & 1 == (d >> (7 - k)) & 1
  {
  }

  lemma MergeAtShifted(d: byte, s: byte, from: bv4, to: bv4, n: bv4, k: bv4)
    requires from < 8 && to < 8 && 1 <= n <= 8 && from + n <= 8 && to + n <= 8 && k < 8
    ensures if to <= k < to + n then
              from + k - to < 8 && (MergeAt(d, s, from, to, n) >> (7 - k)) & 1 == (s >> (7 - (from + k - to))) & 1
            else
              (MergeAt(d, s, from, to, n) >> (7 - k)) & 1 == (d >> (7 - k)) & 1
  {
    if to <= k < to + n {
      MergedInside(d, s, from, to, n, k);
    } else {
      MergedOutside(d, s, from, to, n, k);
    }
  }

  lemma {:induction false} BitAtShift(b: byte, k: bv4)
    requires k < 8
    ensures BitAt(b, k) <==> (b >> (7 - k)) & 1 == 1
  {
    if k == 0 { assert BitAt(b, 0) == (b & 0x80 != 0);
    } else if k == 1 { assert BitAt(b, 1) == (b & 0x40 != 0);
    } else if k == 2 { assert BitAt(b, 2) == (b & 0x20 != 0);
    } else if k == 3 { assert BitAt(b, 3) == (b & 0x10 != 0);
    } else if k == 4 { assert BitAt(b, 4) == (b & 0x08 != 0);
    } else if k == 5 { assert BitAt(b, 5) == (b & 0x04 != 0);
    } else if k == 6 { assert BitAt(b, 6) == (b & 0x02 != 0);
    } else { assert BitAt(b, 7) == (b & 0x01 != 0); }
  }

  lemma {:induction false} MergeAtBits(d: byte, s: byte, from: bv4, to: bv4, n: bv4, k: bv4)
    requires from < 8 && to < 8 && 1 <= n <= 8 && from + n <= 8 && to + n <= 8 && k < 8
    ensures BitAt(MergeAt(d, s, from, to, n), k) ==
            if to <= k < to + n then BitAt(s, from + k - to) else BitAt(d, k)
  {
    MergeAtShifted(d, s, from, to, n, k);
    BitAtShift(MergeAt(d, s, from, to, n), k);
    if to <= k < to + n {
      BitAtShift(s, from + k - to);
    } else {
      BitAtShift(d, k);
    }
  }

  lemma AmountAgrees(from: nat, to: nat, n: nat, k: nat)
    requires from < 8 && to < 8 && 1 <= n <= 8 && from + n <= 8 && to + n <= 8 && k < 8
    ensures Amount(from) < 8 && Amount(to) < 8 && 1 <= Amount(n) <= 8 && Amount(k) < 8
    ensures Amount(from) + Amount(n) <= 8 && Amount(to) + Amount(n) <= 8
    ensures to <= k < to + n <==> Amount(to) <= Amount(k) < Amount(to) + Amount(n)
    ensures to <= k < to + n ==> Amount(from + k - to) == Amount(from) + Amount(k) - Amount(to)
  {
    AmountValue(from);
    AmountValue(to);
    AmountValue(n);
    AmountValue(k);
    if to <= k < to + n {
      AmountValue(from + k - to);
    }
  }

  lemma {:induction false} MergeBits(d: byte, s: byte, from: nat, to: nat, n: nat, k: nat)
    requires from < 8 && to < 8 && 1 <= n <= 8 && from + n <= 8 && to + n <= 8 && k < 8
    ensures Bit(Merge(d, s, from, to, n), k) == if to <= k < to + n then Bit(s, from + k - to) else Bit(d, k)
  {
    AmountAgrees(from, to, n, k);
    MergeAtBits(d, s, Amount(from), Amount(to), Amount(n), Amount(k));
    BitByShift(Merge(d, s, from, to, n), k);
    if to <= k < to + n {
      BitByShift(s, from + k - to);
    } else {
      BitByShift(d, k);
    }
  }

  /** What the copy promises of the buffer after, bit by bit. */
  ghost predicate Copied(src: seq<byte>, srcOffset: nat, len: nat, before: seq<byte>, dstOffset: nat, after: seq<byte>)
    requires srcOffset + len <= 8 * |src|
  {
    |after| == |before| &&
    forall i {:trigger BitOf(after, i)} | 0 <= i < 8 * |after| ::
      BitOf(after, i) == if dstOffset <= i < dstOffset + len then BitOf(src, srcOffset + i - dstOffset)
                         else BitOf(before, i)
  }

  lemma {:induction false} BitOfAt(s: seq<byte>, q: nat, k: nat)
    requires q < |s| && k < 8
    ensures (8 * q + k) / 8 == q && (8 * q + k) % 8 == k
    ensures BitOf(s, 8 * q + k) == Bit(s[q], k)
  {
  }

  /** One bit after the store: n bits of source byte fq from bit fb went to destination byte tq at bit tb. */
  lemma MergedBitOf(src: seq<byte>, fq: nat, fb: nat, n: nat, mid: seq<byte>, tq: nat, tb: nat, i: nat)
    requires fq < |src| && tq < |mid| && fb < 8 && tb < 8 && 1 <= n <= 8 && fb + n <= 8 && tb + n <= 8
    requires i < 8 * |mid|
    ensures var after := mid[tq := Merge(mid[tq], src[fq], fb, tb, n)];
            if 8 * tq + tb <= i < 8 * tq + tb + n
            then 0 <= 8 * fq + fb + i - (8 * tq + tb) < 8 * |src|
                 && BitOf(after, i) == BitOf(src, 8 * fq + fb + i - (8 * tq + tb))
            else BitOf(after, i) == BitOf(mid, i)
  {
    var q, k := i / 8, i % 8;
    assert i == 8 * q + k;
    if q == tq {
      MergeBits(mid[tq], src[fq], fb, tb, n, k);
      if tb <= k < tb + n {
        BitOfAt(src, fq, fb + k - tb);
      }
    }
  }

  lemma MergeExtendsCopy(src: seq<byte>, srcOffset: nat, done: nat, n: nat,
                         before: seq<byte>, dstOffset: nat, mid: seq<byte>, after: seq<byte>,
                         fq: nat, fb: nat, tq: nat, tb: nat)
    requires srcOffset + done == 8 * fq + fb && dstOffset + done == 8 * tq + tb
    requires fq < |src| && tq < |mid| && fb < 8 && tb < 8 && 1 <= n <= 8 && fb + n <= 8 && tb + n <= 8
    requires srcOffset + done + n <= 8 * |src|
    requires Copied(src, srcOffset, done, before, dstOffset, mid)
    requires after == mid[tq := Merge(mid[tq], src[fq], fb, tb, n)]
    ensures Copied(src, srcOffset, done + n, before, dstOffset, after)
  {
    forall i | 0 <= i < 8 * |after|
      ensures BitOf(after, i) == if dstOffset <= i < dstOffset + (done + n) then BitOf(src, srcOffset + i - dstOffset)
                                 else BitOf(before, i)
    {
      MergedBitOf(src, fq, fb, n, mid, tq, tb, i);
      assert BitOf(mid, i) == if dstOffset <= i < dstOffset + done then BitOf(src, srcOffset + i - dstOffset)
                              else BitOf(before, i);
    }
  }

  lemma Normalized(offset: nat, done: nat)
    ensures (offset + done) / 8 == offset / 8 + (offset % 8 + done) / 8
    ensures (offset + done) % 8 == (offset % 8 + done) % 8
  {
  }

  function Zeros(n: nat): (z: seq<byte>)
    ensures |z| == n && forall i | 0 <= i < n :: z[i] == 0
  {
    seq(n, _ => 0)
  }

  function Xor(a: byte, b: byte): byte { a ^ b }

  function Min(a: nat, b: nat): nat { if a < b then a else b }

  function Max(a: nat, b: nat): nat { if a > b then a else b }

  /** copyBitArray: moves len bits, a run inside one source byte and one destination byte at a time. */
  method CopyBitArray(src: seq<byte>, srcOffset: nat, srcLen: nat, dst: array<byte>, dstOffset: nat)
    requires srcLen > 0
    requires srcOffset + srcLen <= 8 * |src| && dstOffset + srcLen <= 8 * dst.Length
    modifies dst
    ensures Copied(src, srcOffset, srcLen, old(dst[..]), dstOffset, dst[..])
  {
    var srcBase, dstBase := srcOffset / 8, dstOffset / 8;
    var s, d := srcOffset % 8, dstOffset % 8;
    var lastBit := s + srcLen;
    ghost var done := 0;
    while lastBit - s != 0
      invariant s == srcOffset % 8 + done && d == dstOffset % 8 + done
      invariant done <= srcLen
      invariant Copied(src, srcOffset, done, old(dst[..]), dstOffset, dst[..])
      decreases lastBit - s
    {
      var srcBit, dstBit := s % 8, d % 8;
      var n := Min(lastBit - s, 8 - Max(srcBit, dstBit));
      Normalized(srcOffset, done);
      Normalized(dstOffset, done);
      ghost var mid := dst[..];
      var merged := Merge(dst[dstBase + d / 8], src[srcBase + s / 8], srcBit, dstBit, n);
      dst[dstBase + d / 8] := merged;
      assert dst[..] == mid[dstBase + d / 8 := merged];
      MergeExtendsCopy(src, srcOffset, done, n, old(dst[..]), dstOffset, mid, dst[..],
                       srcBase + s / 8, srcBit, dstBase + d / 8, dstBit);
      s, d, done := s + n, d + n, done + n;
    }
  }
}
