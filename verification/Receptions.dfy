/** What the receiver makes of the frames that are no part of a longer transfer in progress: which it ignores, and which
    counter each of the others moves. */
module Receptions {
  import opened Wrappers
  import opened Bits
  import opened CanId
  import opened Frames
  import opened Reassembly
  import opened EndToEnd
  import opened Restarts
  import Crc = TransferCrc

  /** One more; the counters wrap at their 64 and 32 bits. */
  function WithReception(before: Stats): Stats {
    before.(received := if before.received >= 0xFFFF_FFFF_FFFF_FFFF then 0 else before.received + 1)
  }

  function WithDrop(before: Stats): Stats {
    before.(dropped := if before.dropped >= 0xFFFF_FFFF then 0 else before.dropped + 1)
  }

  /** A frame of the base format, a remote or error frame, or one without data: an error, and nothing else. */
  lemma UnsupportedCounts(m: Machine, accept: Acceptor, frame: Frame, now: nat)
    requires !frame.id.extended || frame.id.remote || frame.id.error || frame.data == []
    ensures Step(m, accept, frame, now) == (m.(stats := WithError(m.stats)), None)
  {
  }

  /** All other frames are looked at: the beginning of an unwanted transfer, or the rest of one that nobody began, changes
      nothing. */
  lemma OthersAreIgnored(m: Machine, accept: Acceptor, frame: Frame, now: nat)
    requires frame.id.extended && !frame.id.remote && !frame.id.error && frame.data != []
    requires var tail, id := frame.data[|frame.data| - 1], frame.id.clean;
             if tail & 0x80 != 0 then
               accept(ExtractDataType(id), ExtractTransferType(id), Source(id), ExtractDestination(id)) == None
             else Project(m, DescriptorOf(id)) == None
    ensures Step(m, accept, frame, now) == (m, None)
  {
  }

  /** The beginning of a wanted transfer that finds no block for its state is a dropped transfer. */
  lemma NoBlockForState(m: Machine, accept: Acceptor, frame: Frame, now: nat)
    requires Supported(frame) && IsStart(Tail(frame)) && Wanted(accept, frame).Some?
    requires Project(m, DescriptorOf(frame.id.clean)).None? && m.free == 0
    ensures Step(m, accept, frame, now) == (m.(stats := WithDrop(m.stats)), None)
  {
  }

  // ---- Transfers of one frame ----

  lemma {:induction false} SingleHere(s: RxView, free: nat, stats: Stats, frame: Frame, now: nat)
    requires frame.data != [] && IsStart(Tail(frame)) && IsEnd(Tail(frame)) && s.transferId < 32
    ensures var o := Receive(s, free, stats, frame, now);
            && o.free == free + s.blocks && o.stats == WithReception(stats)
            && o.delivery == Some(MakeDelivery(frame, now, Body(frame)))
            && Idle(o.state) && o.state.timestamp == now && o.state.descriptor == s.descriptor
            && o.state.transferId == NextTransferId(if Anew(s, frame, now) then TransferId(Tail(frame)) else s.transferId)
  {
    AnewRestarts(s, frame, now);
  }

  /** A transfer in one frame is delivered with all its bytes, whatever the state holds; what it holds is thrown away and its
      chain comes back. The state awaits the number after this one if it began anew, else after the one it awaited. */
  lemma {:induction false} SingleTransfer(m: Machine, accept: Acceptor, frame: Frame, now: nat)
    requires Supported(frame) && IsStart(Tail(frame)) && IsEnd(Tail(frame)) && Wanted(accept, frame).Some?
    requires Project(m, DescriptorOf(frame.id.clean)).Some?
    requires Project(m, DescriptorOf(frame.id.clean)).value.transferId < 32
    ensures var s, (next, delivery) := Project(m, DescriptorOf(frame.id.clean)).value, Step(m, accept, frame, now);
            && next.free == m.free + s.blocks && next.stats == WithReception(m.stats)
            && delivery == Some(MakeDelivery(frame, now, Body(frame)))
            && Project(next, DescriptorOf(frame.id.clean)).Some?
            && var t := Project(next, DescriptorOf(frame.id.clean)).value;
               && Idle(t) && t.timestamp == now
               && t.transferId == NextTransferId(if Anew(s, frame, now) then TransferId(Tail(frame)) else s.transferId)
  {
    var s := StartsIn(m, accept, frame, now);
    SingleHere(s, m.free, m.stats, frame, now);
  }

  // ---- First frames without payload ----

  /** A first frame of a longer transfer with no byte behind its checksum: an error. What the state held is gone. */
  lemma {:induction false} ShortFirstFrame(m: Machine, accept: Acceptor, frame: Frame, now: nat)
    requires Supported(frame) && IsStart(Tail(frame)) && !IsEnd(Tail(frame)) && !IsToggled(Tail(frame))
    requires Wanted(accept, frame).Some? && |frame.data| <= 3 && Project(m, DescriptorOf(frame.id.clean)).Some?
    requires var s := Project(m, DescriptorOf(frame.id.clean)).value; s.transferId < 32 && Anew(s, frame, now)
    ensures var s, (next, delivery) := Project(m, DescriptorOf(frame.id.clean)).value, Step(m, accept, frame, now);
            && Project(next, DescriptorOf(frame.id.clean)).Some?
            && Idle(Project(next, DescriptorOf(frame.id.clean)).value)
            && Project(next, DescriptorOf(frame.id.clean)).value.transferId == TransferId(Tail(frame))
            && next.free == m.free + s.blocks && next.stats == WithError(m.stats) && delivery == None
  {
    var s := StartsIn(m, accept, frame, now);
    AnewRestarts(s, frame, now);
    RestartedIsEmpty(s, Tail(frame), now);
  }

  // ---- No room ----

  lemma {:induction false} NoRoom(s: RxView, free: nat, stats: Stats, bytes: seq<byte>)
    requires |s.stored| + |bytes| < 1024 && 1 <= |bytes| <= 7 && s.blocks == BlocksFor(|s.stored|)
    requires BlocksFor(|s.stored| + |bytes|) > s.blocks + free
    ensures Store(s, free, stats, bytes) ==
            Outcome(s.(transferId := NextTransferId(s.transferId), stored := [], nextToggle := false, blocks := 0),
                    free + s.blocks, WithDrop(stats), None)
  {
    BlocksGrow(|s.stored|, |bytes|);
    assert PayloadLen(s) == |s.stored|;
  }

  /** A frame in the middle of a transfer for which there is no block: the transfer is dropped, its chain comes back, and the
      next transfer is awaited. */
  lemma {:induction false} DroppedForRoom(m: Machine, accept: Acceptor, frame: Frame, now: nat)
    requires Supported(frame) && !IsStart(Tail(frame)) && !IsEnd(Tail(frame)) && 2 <= |frame.data| <= 8
    requires Project(m, DescriptorOf(frame.id.clean)).Some?
    requires var s := Project(m, DescriptorOf(frame.id.clean)).value;
             && Fresher(s, now) && IsToggled(Tail(frame)) == s.nextToggle && TransferId(Tail(frame)) == s.transferId
             && |s.stored| + |frame.data| < 1024 && s.blocks == BlocksFor(|s.stored|)
             && BlocksFor(|s.stored| + |frame.data| - 1) > s.blocks + m.free
    ensures var s, (next, delivery) := Project(m, DescriptorOf(frame.id.clean)).value, Step(m, accept, frame, now);
            && Project(next, DescriptorOf(frame.id.clean))
               == Some(s.(transferId := NextTransferId(s.transferId), stored := [], nextToggle := false, blocks := 0))
            && next.free == m.free + s.blocks && next.stats == WithDrop(m.stats) && delivery == None
  {
    var s := Project(m, DescriptorOf(frame.id.clean)).value;
    FollowsIn(m, accept, frame, now);
    NoRoom(s, m.free, m.stats, Body(frame));
  }
}
