/** The receiver as a state machine: what one CAN frame does to the reassembly states, the number of free
    pool blocks and the statistics, and which transfer it completes. */
module Reassembly {
  import opened Wrappers
  import opened Bits
  import opened CanId
  import opened Frames
  import opened Transfer
  import Crc = TransferCrc

  const TIMEOUT_USEC := 2_000_000
  const MAX_UINT64 := 0xFFFF_FFFF_FFFF_FFFF
  const MAX_UINT32 := 0xFFFF_FFFF

  /** Whether the application wants a transfer, and the signature of its data type. */
  type Acceptor = (nat, TransferType, nat, nat) -> Option<bv64>

  /** One reassembly state. `stored` is every byte taken since the last reset; the 10-bit payload_len is its
      length modulo 1024. `blocks` is the length of the buffer chain. */
  datatype RxView = RxView(
    descriptor: nat,
    timestamp: nat,
    calculatedCrc: bv16,
    payloadCrc: bv16,
    transferId: byte,
    nextToggle: bool,
    stored: seq<byte>,
    blocks: nat)

  datatype Stats = Stats(received: nat, sent: nat, dropped: nat, errors: nat)

  datatype Delivery = Delivery(
    timestamp: nat,
    payload: seq<byte>,
    dataTypeId: nat,
    transferType: TransferType,
    transferId: byte,
    priority: nat,
    source: nat,
    destination: nat)

  /** Counters wrap to zero past their largest value. */
  function Count(n: nat, max: nat): nat { if n >= max then 0 else n + 1 }

  function CountReceived(s: Stats): Stats { s.(received := Count(s.received, MAX_UINT64)) }
  function CountDropped(s: Stats): Stats { s.(dropped := Count(s.dropped, MAX_UINT32)) }
  function CountError(s: Stats): Stats { s.(errors := Count(s.errors, MAX_UINT32)) }

  function Fresh(descriptor: nat): RxView {
    RxView(descriptor, 0, 0, 0, 0, false, [], 0)
  }

  function PayloadLen(s: RxView): nat { |s.stored| % 1024 }

  function Tail(frame: Frame): byte
    requires frame.data != []
  {
    frame.data[|frame.data| - 1]
  }

  /** The bytes of a frame before its tail byte. */
  function Body(frame: Frame): seq<byte>
    requires frame.data != []
  {
    frame.data[..|frame.data| - 1]
  }

  /** Time passed, in 64-bit unsigned arithmetic. */
  function Elapsed(now: nat, since: nat): int {
    if now >= since then now - since else now - since + MAX_UINT64 + 1
  }

  /** How many times a must be incremented modulo 32 to reach b; both are below 32, and the 8-bit difference wraps. */
  function ForwardDistance(a: byte, b: byte): byte {
    if b < a then (b - a) + 32 else b - a
  }

  function NextTransferId(t: byte): byte { (t + 1) & 0x1F }

  predicate NeedsRestart(s: RxView, tail: byte, now: nat) {
    || s.timestamp == 0
    || Elapsed(now, s.timestamp) > TIMEOUT_USEC
    || (IsStart(tail) && (ForwardDistance(s.transferId, TransferId(tail)) > 1 || s.blocks > 0))
  }

  /** A difference in 32-bit unsigned arithmetic. */
  function Unsigned(x: int): nat
    requires x >= -0x1_0000_0000
  {
    if x < 0 then x + 0x1_0000_0000 else x
  }

  /** Quotient and remainder by the block size. */
  function BlockQuotient(x: nat): nat { if x < 28 then 0 else 1 + BlockQuotient(x - 28) }
  function BlockRemainder(x: nat): nat { if x < 28 then x else BlockRemainder(x - 28) }

  lemma {:induction false} BlockSplit(x: nat)
    ensures x == 28 * BlockQuotient(x) + BlockRemainder(x) && BlockRemainder(x) < 28
  {
    if x >= 28 {
      BlockSplit(x - 28);
    }
  }

  lemma {:induction false} BlockSplitOf(x: nat, q: nat, r: nat)
    requires x == 28 * q + r && r < 28
    ensures BlockQuotient(x) == q && BlockRemainder(x) == r
  {
    BlockSplit(x);
  }

  /** Blocks in the chain after pushing n <= 7 bytes at payload length len. A push of nothing at a just filled
      head still allocates the first block. */
  function BlocksAfter(len: nat, blocks: nat, n: nat): (after: nat)
    ensures blocks <= after <= blocks + 1 || n > 7
  {
    if len != HEAD_SIZE && (n == 0 || len + n <= HEAD_SIZE) then blocks
    else if blocks == 0 then 1
    else
      var rest := if len < HEAD_SIZE then len + n - HEAD_SIZE else n;
      var index := BlockRemainder(Unsigned(len - HEAD_SIZE));
      var wanted := BlockQuotient(Unsigned(len + n - HEAD_SIZE)) + 1;
      if wanted > blocks && index == 0 then blocks + 1
      else if index + rest > BLOCK_SIZE then blocks + 1
      else blocks
  }

  datatype Outcome = Outcome(state: RxView, free: nat, stats: Stats, delivery: Option<Delivery>)

  /** No block is lost or invented, and the state keeps its descriptor. */
  predicate Conserves(s: RxView, free: nat, o: Outcome) {
    o.free + o.state.blocks == free + s.blocks && o.state.descriptor == s.descriptor
  }

  /** prepareForNextTransfer. */
  function Prepared(s: RxView): RxView {
    s.(transferId := NextTransferId(s.transferId), stored := [], nextToggle := false)
  }

  predicate HasRoom(s: RxView, free: nat, bytes: seq<byte>) {
    BlocksAfter(PayloadLen(s), s.blocks, |bytes|) <= s.blocks + free
  }

  /** Storing the bytes of a start or middle frame: all of them, or the whole transfer is dropped. */
  function Store(s: RxView, free: nat, stats: Stats, bytes: seq<byte>): (o: Outcome)
    ensures Conserves(s, free, o)
  {
    var after := BlocksAfter(PayloadLen(s), s.blocks, |bytes|);
    if !HasRoom(s, free, bytes) then
      Outcome(Prepared(s.(blocks := 0)), free + s.blocks, CountDropped(stats), None)
    else
      Outcome(s.(stored := s.stored + bytes, blocks := after, calculatedCrc := Crc.Add(s.calculatedCrc, bytes),
                 nextToggle := !s.nextToggle),
              free + s.blocks - after, stats, None)
  }

  function MakeDelivery(frame: Frame, now: nat, payload: seq<byte>): Delivery
    requires frame.data != []
  {
    var id := frame.id.clean;
    Delivery(now, payload, ExtractDataType(id), ExtractTransferType(id), TransferId(Tail(frame)), CanId.Priority(id),
             Source(id), ExtractDestination(id))
  }

  /** The end frame: its bytes complete the payload, which is delivered when the checksums agree. */
  function Finish(s: RxView, free: nat, stats: Stats, frame: Frame, now: nat): (o: Outcome)
    requires frame.data != []
    ensures Conserves(s, free, o)
  {
    var crc := Crc.Add(s.calculatedCrc, Body(frame));
    var done := Prepared(s.(calculatedCrc := crc, blocks := 0));
    if crc == s.payloadCrc then
      Outcome(done, free + s.blocks, CountReceived(stats), Some(MakeDelivery(frame, now, s.stored + Body(frame))))
    else
      Outcome(done, free + s.blocks, CountError(stats), None)
  }

  /** A frame of a multi-frame transfer, once the restart check is done. */
  function ReceivePart(s: RxView, free: nat, stats: Stats, frame: Frame, now: nat): (o: Outcome)
    requires frame.data != []
    ensures Conserves(s, free, o)
  {
    var tail := Tail(frame);
    if IsToggled(tail) != s.nextToggle || TransferId(tail) != s.transferId then
      Outcome(s, free, CountError(stats), None)
    else if IsStart(tail) then
      if |frame.data| <= 3 then Outcome(s, free, CountError(stats), None)
      else
        var bytes := Body(frame)[2..];
        var o := Store(s.(timestamp := now), free, stats, bytes);
        if !HasRoom(s, free, bytes) then o
        else o.(state := o.state.(payloadCrc := (frame.data[0] as bv16) | ((frame.data[1] as bv16) << 8)))
    else if !IsEnd(tail) then Store(s, free, stats, Body(frame))
    else Finish(s, free, stats, frame, now)
  }

  /** A frame, once the restart check is done: a whole transfer, or a part of one. */
  function ReceiveReady(s: RxView, free: nat, stats: Stats, frame: Frame, now: nat): (o: Outcome)
    requires frame.data != []
    ensures Conserves(s, free, o)
  {
    if IsStart(Tail(frame)) && IsEnd(Tail(frame)) then
      Outcome(Prepared(s.(timestamp := now)), free, CountReceived(stats), Some(MakeDelivery(frame, now, Body(frame))))
    else ReceivePart(s, free, stats, frame, now)
  }

  function Restarted(s: RxView, tail: byte, now: nat): RxView {
    if NeedsRestart(s, tail, now) then
      s.(transferId := TransferId(tail), nextToggle := false, stored := [], blocks := 0)
    else s
  }

  lemma StartsEmpty(s: RxView, tail: byte, now: nat)
    ensures IsStart(tail) ==> Restarted(s, tail, now).blocks == 0
  {
  }

  /** A frame that goes on with a transfer whose first frame was missed. */
  function Missed(s: RxView, free: nat, stats: Stats): Outcome {
    Outcome(s.(transferId := NextTransferId(s.transferId)), free, CountError(stats), None)
  }

  function AfterRestart(s: RxView, free: nat, stats: Stats, frame: Frame, restarted: bool, now: nat): (o: Outcome)
    requires frame.data != []
    ensures Conserves(s, free, o)
  {
    if restarted && !IsStart(Tail(frame)) then Missed(s, free, stats) else ReceiveReady(s, free, stats, frame, now)
  }

  /** The part of canardHandleRxFrame after the state is found. */
  function Receive(s: RxView, free: nat, stats: Stats, frame: Frame, now: nat): (o: Outcome)
    requires frame.data != []
    ensures Conserves(s, free, o)
  {
    var tail := Tail(frame);
    var r := Restarted(s, tail, now);
    var freed := free + s.blocks - r.blocks;
    AfterRestart(r, freed, stats, frame, NeedsRestart(s, tail, now), now)
  }

  datatype Machine = Machine(free: nat, states: seq<RxView>, stats: Stats)

  /** Position of the state with this descriptor, or the number of states. */
  function Find(states: seq<RxView>, descriptor: nat): (i: nat)
    ensures i <= |states|
    ensures i < |states| ==> states[i].descriptor == descriptor
    ensures forall j | 0 <= j < i :: states[j].descriptor != descriptor
  {
    if states == [] || states[0].descriptor == descriptor then 0 else 1 + Find(states[1..], descriptor)
  }

  predicate Supported(frame: Frame) {
    frame.id.extended && !frame.id.remote && !frame.id.error && frame.data != []
  }

  function Wanted(accept: Acceptor, frame: Frame): Option<bv64> {
    var id := frame.id.clean;
    accept(ExtractDataType(id), ExtractTransferType(id), Source(id), ExtractDestination(id))
  }

  function ApplyAt(m: Machine, i: nat, frame: Frame, now: nat): (Machine, Option<Delivery>)
    requires i < |m.states| && frame.data != []
  {
    var o := Receive(m.states[i], m.free, m.stats, frame, now);
    (Machine(o.free, m.states[i := o.state], o.stats), o.delivery)
  }

  /** The state a start frame works on: found or newly created at the front, with the checksum seeded. */
  function Opened(m: Machine, descriptor: nat, signature: bv64): (o: Machine)
    requires Find(m.states, descriptor) == |m.states| ==> m.free > 0
    ensures Find(o.states, descriptor) < |o.states|
  {
    var i := Find(m.states, descriptor);
    var seed := Crc.AddSignature(0xFFFF, signature);
    if i == |m.states| then
      Machine(m.free - 1, [Fresh(descriptor).(calculatedCrc := seed)] + m.states, m.stats)
    else
      var states := m.states[i := m.states[i].(calculatedCrc := seed)];
      assert states[i].descriptor == descriptor;
      m.(states := states)
  }

  /** canardHandleRxFrame. */
  function Step(m: Machine, accept: Acceptor, frame: Frame, now: nat): (Machine, Option<Delivery>) {
    var d := DescriptorOf(frame.id.clean);
    var i := Find(m.states, d);
    if !Supported(frame) then (m.(stats := CountError(m.stats)), None)
    else if !IsStart(Tail(frame)) then
      if i == |m.states| then (m, None) else ApplyAt(m, i, frame, now)
    else if Wanted(accept, frame).None? then (m, None)
    else if i == |m.states| && m.free == 0 then (m.(stats := CountDropped(m.stats)), None)
    else
      var ready := Opened(m, d, Wanted(accept, frame).value);
      ApplyAt(ready, Find(ready.states, d), frame, now)
  }

  /** The assertions the source makes while handling a frame: no blocks are left when the state is prepared for
      the next transfer, and the end frame does not find the last block exactly full. */
  predicate ReceiveAsserts(s: RxView, frame: Frame, now: nat)
    requires frame.data != []
  {
    var tail := Tail(frame);
    var r := Restarted(s, tail, now);
    if NeedsRestart(s, tail, now) && !IsStart(tail) then true
    else ReadyAsserts(r, frame)
  }

  predicate ReadyAsserts(s: RxView, frame: Frame)
    requires frame.data != []
  {
    if IsStart(Tail(frame)) && IsEnd(Tail(frame)) then s.blocks == 0 else PartAsserts(s, frame)
  }

  predicate PartAsserts(s: RxView, frame: Frame)
    requires frame.data != []
  {
    var tail := Tail(frame);
    if IsToggled(tail) != s.nextToggle || TransferId(tail) != s.transferId then true
    else if IsStart(tail) || !IsEnd(tail) then true
    else EndAsserts(s)
  }

  predicate EndAsserts(s: RxView) {
    || PayloadLen(s) < HEAD_SIZE
    || s.blocks == 0
    || BlockStart(s.blocks - 1) <= PayloadLen(s) < BlockStart(s.blocks)
  }

  /** The state a frame is for; a start frame makes it if there is none. */
  function StateFor(m: Machine, frame: Frame): RxView {
    var d := DescriptorOf(frame.id.clean);
    var i := Find(m.states, d);
    if i < |m.states| then m.states[i] else Fresh(d)
  }

  predicate StepAsserts(m: Machine, frame: Frame, now: nat) {
    Supported(frame) ==> ReceiveAsserts(StateFor(m, frame), frame, now)
  }

  predicate DistinctDescriptors(states: seq<RxView>) {
    forall i, j | 0 <= i < j < |states| :: states[i].descriptor != states[j].descriptor
  }

  // ---- Conservation ----

  /** Pool blocks held by the reassembly states: one each, and their chains. */
  function Held(states: seq<RxView>): nat {
    if states == [] then 0 else 1 + states[0].blocks + Held(states[1..])
  }

  function InUse(m: Machine): nat { m.free + Held(m.states) }

  lemma {:induction false} HeldUpdate(states: seq<RxView>, i: nat, s: RxView)
    requires i < |states|
    ensures Held(states[i := s]) == Held(states) - states[i].blocks + s.blocks
  {
    if i > 0 {
      assert states[i := s][1..] == states[1..][i - 1 := s];
      HeldUpdate(states[1..], i - 1, s);
    } else {
      assert states[0 := s][1..] == states[1..];
    }
  }

  lemma ApplyConserves(m: Machine, i: nat, frame: Frame, now: nat)
    requires i < |m.states| && frame.data != []
    ensures var after := ApplyAt(m, i, frame, now).0;
            && InUse(after) == InUse(m) && |after.states| == |m.states|
            && (forall j | 0 <= j < |m.states| :: after.states[j].descriptor == m.states[j].descriptor)
  {
    HeldUpdate(m.states, i, Receive(m.states[i], m.free, m.stats, frame, now).state);
  }

  lemma {:induction false} OpenedConserves(m: Machine, d: nat, signature: bv64)
    requires Find(m.states, d) == |m.states| ==> m.free > 0
    requires DistinctDescriptors(m.states)
    ensures InUse(Opened(m, d, signature)) == InUse(m) && DistinctDescriptors(Opened(m, d, signature).states)
    ensures Find(Opened(m, d, signature).states, d) < |Opened(m, d, signature).states|
  {
    var i, o := Find(m.states, d), Opened(m, d, signature);
    if i < |m.states| {
      HeldUpdate(m.states, i, o.states[i]);
      assert o.states[i].descriptor == d;
    } else {
      assert o.states[1..] == m.states;
      assert o.states[0].descriptor == d;
    }
  }

  /** No frame loses or invents a pool block, and descriptors stay distinct. */
  lemma StepConserves(m: Machine, accept: Acceptor, frame: Frame, now: nat)
    requires DistinctDescriptors(m.states)
    ensures var after := Step(m, accept, frame, now).0;
            InUse(after) == InUse(m) && DistinctDescriptors(after.states)
  {
    var d := DescriptorOf(frame.id.clean);
    var i := Find(m.states, d);
    if Supported(frame) {
      if !IsStart(Tail(frame)) {
        if i < |m.states| {
          ApplyConserves(m, i, frame, now);
        }
      } else if Wanted(accept, frame).Some? && (i < |m.states| || m.free > 0) {
        var signature := Wanted(accept, frame).value;
        OpenedConserves(m, d, signature);
        var ready := Opened(m, d, signature);
        ApplyConserves(ready, Find(ready.states, d), frame, now);
      }
    }
  }

  // ---- Cleanup ----

  predicate Stale(s: RxView, now: nat) { Elapsed(now, s.timestamp) > TIMEOUT_USEC }

  /** The states cleanup keeps, in their order. */
  function Survivors(states: seq<RxView>, now: nat): seq<RxView> {
    if states == [] then []
    else (if Stale(states[0], now) then [] else [states[0]]) + Survivors(states[1..], now)
  }

  /** The blocks of the others. */
  function Reclaimed(states: seq<RxView>, now: nat): nat {
    if states == [] then 0
    else (if Stale(states[0], now) then 1 + states[0].blocks else 0) + Reclaimed(states[1..], now)
  }

  /** Every removed state that had begun to collect a transfer counts as a dropped one. */
  function CountLost(stats: Stats, states: seq<RxView>, now: nat): Stats
    decreases |states|
  {
    if states == [] then stats
    else CountLost(if Stale(states[0], now) && states[0].blocks > 0 then CountDropped(stats) else stats, states[1..], now)
  }

  /** canardCleanupStaleTransfers. */
  function Cleaned(m: Machine, now: nat): Machine {
    Machine(m.free + Reclaimed(m.states, now), Survivors(m.states, now), CountLost(m.stats, m.states, now))
  }

  /** Cleanup has reached position k: what came before is decided, the rest is as it was. */
  ghost predicate CleanedSoFar(m: Machine, now: nat, vs: seq<RxView>, k: nat, f: nat, stats: Stats) {
    && k <= |vs|
    && Survivors(m.states, now) == vs[..k] + Survivors(vs[k..], now)
    && m.free + Reclaimed(m.states, now) == f + Reclaimed(vs[k..], now)
    && CountLost(m.stats, m.states, now) == CountLost(stats, vs[k..], now)
  }

  lemma CleanedKeep(m: Machine, now: nat, vs: seq<RxView>, k: nat, f: nat, stats: Stats)
    requires CleanedSoFar(m, now, vs, k, f, stats) && k < |vs| && !Stale(vs[k], now)
    ensures CleanedSoFar(m, now, vs, k + 1, f, stats)
  {
    assert vs[k..][1..] == vs[k + 1..];
    assert vs[..k] + ([vs[k]] + Survivors(vs[k + 1..], now)) == vs[..k + 1] + Survivors(vs[k + 1..], now);
  }

  lemma CleanedRemove(m: Machine, now: nat, vs: seq<RxView>, k: nat, f: nat, stats: Stats)
    requires CleanedSoFar(m, now, vs, k, f, stats) && k < |vs| && Stale(vs[k], now)
    ensures CleanedSoFar(m, now, vs[..k] + vs[k + 1..], k, f + 1 + vs[k].blocks,
                         if vs[k].blocks > 0 then CountDropped(stats) else stats)
  {
    var left := vs[..k] + vs[k + 1..];
    assert vs[k..][1..] == vs[k + 1..] == left[k..];
    assert left[..k] == vs[..k];
    assert [] + Survivors(vs[k + 1..], now) == Survivors(vs[k + 1..], now);
  }

  /** Exactly the stale states go, and all their blocks come back. */
  lemma {:induction false} SurvivorsAreFresh(states: seq<RxView>, now: nat)
    ensures forall s :: s in Survivors(states, now) <==> s in states && !Stale(s, now)
    ensures Held(Survivors(states, now)) + Reclaimed(states, now) == Held(states)
  {
    if states != [] {
      SurvivorsAreFresh(states[1..], now);
      var rest := Survivors(states[1..], now);
      assert states == [states[0]] + states[1..];
      if Stale(states[0], now) {
        assert Survivors(states, now) == rest;
      } else {
        assert Survivors(states, now)[1..] == rest;
      }
    }
  }

  /** The others stay in their order: what is kept of a list is what is kept of its parts, one after the other. */
  lemma {:induction false} SurvivorsInOrder(front: seq<RxView>, rest: seq<RxView>, now: nat)
    ensures Survivors(front + rest, now) == Survivors(front, now) + Survivors(rest, now)
  {
    if front == [] {
      assert front + rest == rest;
    } else {
      assert (front + rest)[1..] == front[1..] + rest;
      SurvivorsInOrder(front[1..], rest, now);
    }
  }

  lemma {:induction false} SurvivorsDistinct(states: seq<RxView>, now: nat)
    requires DistinctDescriptors(states)
    ensures DistinctDescriptors(Survivors(states, now))
  {
    if states != [] {
      SurvivorsDistinct(states[1..], now);
      SurvivorsAreFresh(states[1..], now);
      var rest := Survivors(states[1..], now);
      forall j | 0 <= j < |rest| ensures rest[j].descriptor != states[0].descriptor {
        assert rest[j] in states[1..];
      }
    }
  }

  lemma CleanupConserves(m: Machine, now: nat)
    requires DistinctDescriptors(m.states)
    ensures InUse(Cleaned(m, now)) == InUse(m) && DistinctDescriptors(Cleaned(m, now).states)
    ensures forall s :: s in Cleaned(m, now).states <==> s in m.states && !Stale(s, now)
  {
    SurvivorsAreFresh(m.states, now);
    SurvivorsDistinct(m.states, now);
  }
}
