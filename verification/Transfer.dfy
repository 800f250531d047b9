/** A received transfer whose payload is scattered over head, block chain and tail, and how bits are read from it. */
module Transfer {
  import opened Bits

  /** Bytes in RxState.buffer_head and in one buffer block, for the 32-bit layout. */
  const HEAD_SIZE := 6
  const BLOCK_SIZE := 28

  /** Where block k of the chain starts in the flat payload, and how many of its bytes are payload. */
  function BlockStart(k: nat): nat { 6 + 28 * k }

  function BlockValid(k: nat, total: nat): nat
    requires BlockStart(k) <= total
  {
    Min(BLOCK_SIZE, total - BlockStart(k))
  }

  datatype TransferType = Response | Request | Broadcast

  /** CanardRxTransfer at the moment the application sees it; `middle` lists the data of the block chain,
      an empty `tail` is the null pointer. */
  datatype RxTransfer = RxTransfer(
    timestamp: nat,
    head: seq<byte>,
    middle: seq<seq<byte>>,
    tail: seq<byte>,
    payloadLen: nat,
    dataTypeId: nat,
    transferType: TransferType,
    transferId: bv8,
    priority: nat,
    source: nat,
    destination: nat)

  function Concat(blocks: seq<seq<byte>>): (r: seq<byte>)
    ensures (forall b | b in blocks :: |b| == BLOCK_SIZE) ==> |r| == 28 * |blocks|
  {
    if blocks == [] then [] else blocks[0] + Concat(blocks[1..])
  }

  lemma {:induction false} ConcatAt(blocks: seq<seq<byte>>, k: nat)
    requires forall b | b in blocks :: |b| == BLOCK_SIZE
    requires k < |blocks|
    ensures 28 * (k + 1) <= |Concat(blocks)|
    ensures Concat(blocks)[28 * k..28 * (k + 1)] == blocks[k]
  {
    assert forall b | b in blocks[1..] :: b in blocks;
    if k > 0 {
      ConcatAt(blocks[1..], k - 1);
      assert Concat(blocks)[BLOCK_SIZE..] == Concat(blocks[1..]);
      assert Concat(blocks)[28 * k..28 * (k + 1)]
          == Concat(blocks)[BLOCK_SIZE..][28 * (k - 1)..28 * k];
    }
  }

  predicate Scattered(t: RxTransfer) {
    t.middle != [] || t.tail != []
  }

  /** The bytes the head and the chain can hold. */
  function Capacity(t: RxTransfer): nat {
    BlockStart(|t.middle|)
  }

  ghost predicate WellFormed(t: RxTransfer) {
    if !Scattered(t) then
      t.payloadLen <= |t.head|
    else
      && |t.head| == HEAD_SIZE
      && (forall b | b in t.middle :: |b| == BLOCK_SIZE)
      && HEAD_SIZE <= t.payloadLen
      && (if t.tail == [] then t.payloadLen <= Capacity(t) else t.payloadLen == Capacity(t) + |t.tail|)
  }

  /** The payload as one byte sequence. */
  function Flat(t: RxTransfer): (r: seq<byte>)
    requires WellFormed(t)
    ensures |r| == t.payloadLen
  {
    if !Scattered(t) then t.head[..t.payloadLen]
    else (t.head + Concat(t.middle))[..t.payloadLen - |t.tail|] + t.tail
  }

  /** The first n bytes of `piece` are the bytes of `flat` from `start` on. */
  ghost predicate Piece(flat: seq<byte>, start: nat, piece: seq<byte>, n: nat) {
    n <= |piece| && start + n <= |flat| && flat[start..start + n] == piece[..n]
  }

  lemma PieceBit(flat: seq<byte>, start: nat, piece: seq<byte>, n: nat, i: nat)
    requires Piece(flat, start, piece, n) && i < 8 * n
    ensures BitOf(piece, i) == BitOf(flat, 8 * start + i)
  {
    var q, k := i / 8, i % 8;
    assert flat[start + q] == flat[start..start + n][q] == piece[..n][q] == piece[q];
    BitOfAt(piece, q, k);
    BitOfAt(flat, start + q, k);
  }

  /** Copying the next bits from a piece continues a copy from the flat payload. */
  lemma CopyFromPiece(flat: seq<byte>, offset: nat, done: nat, start: nat, piece: seq<byte>, valid: nat, amount: nat,
                      before: seq<byte>, mid: seq<byte>, after: seq<byte>)
    requires Piece(flat, start, piece, valid)
    requires 8 * start <= offset + done && offset + done + amount <= 8 * (start + valid)
    requires Copied(flat, offset, done, before, 0, mid)
    requires Copied(piece, offset + done - 8 * start, amount, mid, done, after)
    ensures Copied(flat, offset, done + amount, before, 0, after)
  {
    var base := offset - 8 * start;
    forall i | 0 <= i < 8 * |after|
      ensures BitOf(after, i) == if 0 <= i < done + amount then BitOf(flat, offset + i) else BitOf(before, i)
    {
      if done <= i < done + amount {
        assert BitOf(after, i) == BitOf(piece, base + done + i - done);
        PieceBit(flat, start, piece, valid, base + i);
      } else {
        assert BitOf(after, i) == BitOf(mid, i);
      }
    }
  }

  lemma HeadPiece(t: RxTransfer)
    requires WellFormed(t)
    ensures Piece(Flat(t), 0, t.head, if Scattered(t) then HEAD_SIZE else t.payloadLen)
  {
  }

  lemma BlockPiece(t: RxTransfer, k: nat)
    requires WellFormed(t) && k < |t.middle|
    requires BlockStart(k) <= t.payloadLen
    ensures Piece(Flat(t), BlockStart(k), t.middle[k], BlockValid(k, t.payloadLen))
  {
    ConcatAt(t.middle, k);
    var start, n := BlockStart(k), BlockValid(k, t.payloadLen);
    var chain, whole := Concat(t.middle), t.payloadLen - |t.tail|;
    forall j | 0 <= j < n ensures Flat(t)[start + j] == t.middle[k][j] {
      assert Flat(t)[start + j] == (t.head + chain)[start + j] == chain[28 * k + j];
      assert chain[28 * k..28 * (k + 1)][j] == chain[28 * k + j];
    }
    assert Flat(t)[start..start + n] == t.middle[k][..n];
  }

  lemma TailPiece(t: RxTransfer)
    requires WellFormed(t) && t.tail != []
    ensures Piece(Flat(t), Capacity(t), t.tail, |t.tail|)
  {
  }

  /** One copy out of a piece, stated against the flat payload. */
  method CopyPiece(piece: seq<byte>, from: nat, amount: nat, output: array<byte>, out: nat,
                   ghost flat: seq<byte>, ghost offset: nat, ghost start: nat, ghost valid: nat, ghost before: seq<byte>)
    requires Piece(flat, start, piece, valid)
    requires amount > 0 && offset + out == 8 * start + from && from + amount <= 8 * valid
    requires out + amount <= 8 * output.Length
    requires Copied(flat, offset, out, before, 0, output[..])
    modifies output
    ensures Copied(flat, offset, out + amount, before, 0, output[..])
  {
    ghost var mid := output[..];
    CopyBitArray(piece, from, amount, output, out);
    CopyFromPiece(flat, offset, out, start, piece, valid, amount, before, mid, output[..]);
  }

  ghost predicate Pieces(flat: seq<byte>, middle: seq<seq<byte>>) {
    forall k | 0 <= k < |middle| && BlockStart(k) <= |flat| ::
      Piece(flat, BlockStart(k), middle[k], BlockValid(k, |flat|))
  }

  lemma MiddlePieces(t: RxTransfer)
    requires WellFormed(t)
    ensures Pieces(Flat(t), t.middle)
  {
    forall k | 0 <= k < |t.middle| && BlockStart(k) <= |Flat(t)|
      ensures Piece(Flat(t), BlockStart(k), t.middle[k], BlockValid(k, |Flat(t)|))
    {
      BlockPiece(t, k);
    }
  }

  /** The block loop of descatterTransferPayload, over a payload of |flat| bytes. */
  method DescatterMiddle(middle: seq<seq<byte>>, payloadLen: nat, bitOffset: nat, length: nat, out0: nat,
                         output: array<byte>, ghost flat: seq<byte>, ghost before: seq<byte>)
    returns (remainingBits: nat, blockOffset: nat, out: nat)
    requires |flat| == payloadLen >= HEAD_SIZE && Pieces(flat, middle)
    requires 1 <= length <= 64 && output.Length == 8
    requires out0 <= length && bitOffset + length <= 8 * payloadLen
    requires out0 < length ==> bitOffset + out0 >= 48
    requires Copied(flat, bitOffset, out0, before, 0, output[..])
    modifies output
    ensures out <= length && Copied(flat, bitOffset, out, before, 0, output[..])
    ensures length - out <= remainingBits
    ensures out < length ==> blockOffset == 8 * BlockStart(|middle|) <= bitOffset + out
  {
    remainingBits := payloadLen * 8 - 48;
    blockOffset := 48;
    out := out0;
    var k := 0;
    while k < |middle| && length - out > 0
      invariant k <= |middle| && out0 <= out <= length
      invariant blockOffset + remainingBits == 8 * payloadLen
      invariant out < length ==> blockOffset == 8 * BlockStart(k) <= bitOffset + out
      invariant Copied(flat, bitOffset, out, before, 0, output[..])
    {
      var input := bitOffset + out;
      assert remainingBits > 0;
      var blockEnd := blockOffset + Min(224, remainingBits);
      if blockEnd > input {
        var amount := Min(length - out, blockEnd - input);
        assert input >= blockOffset;
        assert blockEnd == 8 * (BlockStart(k) + BlockValid(k, payloadLen));
        CopyPiece(middle[k], input - blockOffset, amount, output, out,
                  flat, bitOffset, BlockStart(k), BlockValid(k, payloadLen), before);
        out := out + amount;
      }
      assert blockEnd > blockOffset;
      remainingBits := remainingBits - (blockEnd - blockOffset);
      blockOffset := blockEnd;
      k := k + 1;
    }
  }

  /** descatterTransferPayload: reads up to bitLength bits at bitOffset; every assertion of the source holds. */
  method Descatter(t: RxTransfer, bitOffset: nat, bitLength: nat, output: array<byte>) returns (copied: nat)
    requires WellFormed(t)
    requires 1 <= bitLength <= 64 && output.Length == 8
    modifies output
    ensures copied == if bitOffset >= 8 * t.payloadLen then 0 else Min(bitLength, 8 * t.payloadLen - bitOffset)
    ensures copied == 0 ==> output[..] == old(output[..])
    ensures copied > 0 ==> Copied(Flat(t), bitOffset, copied, old(output[..]), 0, output[..])
  {
    if bitOffset >= t.payloadLen * 8 {
      return 0;
    }
    var length := bitLength;
    if bitOffset + length > t.payloadLen * 8 {
      length := t.payloadLen * 8 - bitOffset;
    }
    assert length > 0;
    HeadPiece(t);
    ghost var flat, before := Flat(t), output[..];
    assert Copied(flat, bitOffset, 0, before, 0, output[..]);
    if t.middle != [] || t.tail != [] {
      DescatterScattered(t, bitOffset, length, output, flat, before);
    } else {
      CopyPiece(t.head, bitOffset, length, output, 0, flat, bitOffset, 0, t.payloadLen, before);
    }
    return length;
  }

  /** The multi-frame branch: head, then blocks, then tail. */
  method DescatterScattered(t: RxTransfer, bitOffset: nat, length: nat, output: array<byte>,
                            ghost flat: seq<byte>, ghost before: seq<byte>)
    requires WellFormed(t) && Scattered(t) && flat == Flat(t)
    requires 1 <= length <= 64 && output.Length == 8
    requires bitOffset + length <= 8 * t.payloadLen
    requires Copied(flat, bitOffset, 0, before, 0, output[..])
    modifies output
    ensures Copied(flat, bitOffset, length, before, 0, output[..])
  {
    HeadPiece(t);
    MiddlePieces(t);
    var out := 0;
    if bitOffset < 48 {
      out := Min(length, 48 - bitOffset);
      CopyPiece(t.head, bitOffset, out, output, 0, flat, bitOffset, 0, HEAD_SIZE, before);
    }
    var remainingBits, blockOffset;
    remainingBits, blockOffset, out := DescatterMiddle(t.middle, t.payloadLen, bitOffset, length, out, output, flat, before);
    assert length - out <= remainingBits;
    if t.tail != [] && length - out > 0 {
      assert bitOffset + out >= blockOffset;
      TailPiece(t);
      CopyPiece(t.tail, bitOffset + out - blockOffset, length - out, output, out,
                flat, bitOffset, Capacity(t), |t.tail|, before);
      out := length;
    }
    assert bitOffset + out <= t.payloadLen * 8;
    assert out <= 64;
    assert length - out == 0;
  }
}
