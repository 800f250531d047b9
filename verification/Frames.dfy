/** How a transfer is cut into CAN frames: section 4 "CAN bus transport layer" of the UAVCAN v0 specification. */
module Frames {
  import opened Bits
  import opened CanId

  /** data holds the data_len valid bytes; the last one is the tail byte. */
  datatype Frame = Frame(id: Id, data: seq<byte>)

  predicate IsStart(tail: byte) { tail & 0x80 != 0 }
  predicate IsEnd(tail: byte) { tail & 0x40 != 0 }
  predicate IsToggled(tail: byte) { tail & 0x20 != 0 }
  function TransferId(tail: byte): byte { tail & 0x1F }

  function TailByte(start: bool, end: bool, toggle: bool, transferId: byte): byte {
    (if start then 0x80 else 0) | (if end then 0x40 else 0) | (if toggle then 0x20 else 0) | (transferId & 0x1F)
  }

  lemma TailByteFields(start: bool, end: bool, toggle: bool, transferId: byte)
    ensures var t := TailByte(start, end, toggle, transferId);
            IsStart(t) == start && IsEnd(t) == end && IsToggled(t) == toggle && TransferId(t) == transferId & 0x1F
  {
  }

  /** The flags are the three highest bits of the tail byte, the transfer ID is the rest. */
  lemma TailBits(tail: byte)
    ensures IsStart(tail) <==> tail >= 128
    ensures IsEnd(tail) <==> tail & 127 >= 64
    ensures IsToggled(tail) <==> tail & 63 >= 32
    ensures TransferId(tail) == tail & 31
  {
  }

  function FrameCount(len: nat): nat {
    if len < 8 then 1 else (len + 2 + 6) / 7
  }

  /** The bytes a multi-frame transfer sends: its CRC, low byte first, then the payload. */
  function Stream(crc: bv16, payload: seq<byte>): seq<byte> {
    [(crc & 0xFF) as bv8, (crc >> 8) as bv8] + payload
  }

  /** Frame k of a multi-frame transfer carries bytes 7k to 7k+6 of the stream. */
  function MultiFrame(id: Id, transferId: byte, crc: bv16, payload: seq<byte>, k: nat): Frame
    requires |payload| >= 8 && k < FrameCount(|payload|)
  {
    var stream, count := Stream(crc, payload), FrameCount(|payload|);
    Frame(id, stream[7 * k..Min(7 * k + 7, |stream|)] + [TailByte(k == 0, k == count - 1, k % 2 == 1, transferId)])
  }

  /** All frames of a transfer, in order. */
  function TransferFrames(id: Id, transferId: byte, crc: bv16, payload: seq<byte>): (fs: seq<Frame>)
    ensures |fs| == FrameCount(|payload|)
    ensures forall k | 0 <= k < |fs| :: fs[k].id == id && 1 <= |fs[k].data| <= 8
  {
    if |payload| < 8 then [Frame(id, payload + [TailByte(true, true, false, transferId)])]
    else seq(FrameCount(|payload|), k requires 0 <= k < FrameCount(|payload|) => MultiFrame(id, transferId, crc, payload, k))
  }

  /** Up to seven bytes go in one frame, that starts and ends the transfer; eight or more take at least two. */
  lemma OneFrame(id: Id, transferId: byte, crc: bv16, payload: seq<byte>)
    ensures |payload| <= 7 ==>
              TransferFrames(id, transferId, crc, payload) == [Frame(id, payload + [0xC0 | (transferId & 0x1F)])]
    ensures |payload| >= 8 ==> |TransferFrames(id, transferId, crc, payload)| >= 2
  {
    assert TailByte(true, true, false, transferId) == 0xC0 | (transferId & 0x1F);
  }

  /** What frames carry besides their tail bytes. */
  function Bodies(fs: seq<Frame>): seq<byte>
    requires forall f | f in fs :: f.data != []
  {
    if fs == [] then [] else Bodies(fs[..|fs| - 1]) + fs[|fs| - 1].data[..|fs[|fs| - 1].data| - 1]
  }

  lemma {:induction false} FirstBodies(id: Id, transferId: byte, crc: bv16, payload: seq<byte>, k: nat)
    requires |payload| >= 8 && k <= FrameCount(|payload|)
    ensures var fs, stream := TransferFrames(id, transferId, crc, payload), Stream(crc, payload);
            Bodies(fs[..k]) == stream[..Min(7 * k, |stream|)]
  {
    var fs, stream := TransferFrames(id, transferId, crc, payload), Stream(crc, payload);
    if k > 0 {
      FirstBodies(id, transferId, crc, payload, k - 1);
      assert fs[..k][..k - 1] == fs[..k - 1];
      assert fs[k - 1].data[..|fs[k - 1].data| - 1] == stream[7 * (k - 1)..Min(7 * k, |stream|)];
    }
  }

  /** A payload of 8 or more bytes takes the length and two, divided by 7 and rounded up, frames; all but the last are full,
      and together they carry the checksum and the payload. */
  lemma FullFrames(id: Id, transferId: byte, crc: bv16, payload: seq<byte>)
    requires |payload| >= 8
    ensures var fs := TransferFrames(id, transferId, crc, payload);
            && |fs| == (|payload| + 2 + 6) / 7 && Bodies(fs) == Stream(crc, payload)
            && (forall k | 0 <= k < |fs| - 1 :: |fs[k].data| == 8) && 2 <= |fs[|fs| - 1].data| <= 8
  {
    var fs := TransferFrames(id, transferId, crc, payload);
    FirstBodies(id, transferId, crc, payload, |fs|);
    assert fs[..|fs|] == fs;
  }
}
