/** A transfer that is cut into frames and put back together arrives exactly once, unchanged, no matter which
    frames of other transfers arrive in between, and what is cleaned up or sent meanwhile. If its frames carry a checksum
    that is not the one of its payload, it does not arrive at all, and one error is counted. */
module EndToEnd {
  import opened Wrappers
  import opened Bits
  import opened CanId
  import opened Frames
  import opened Transfer
  import opened Reassembly
  import opened Runs
  import opened Traffic
  import Crc = TransferCrc

  /** A transfer as its frames carry it: the payload, and the checksum in the first frame. */
  datatype Sending = Sending(id: Id, transferId: byte, signature: bv64, payload: seq<byte>, carried: bv16) {
    predicate Valid() {
      id.extended && !id.remote && !id.error && transferId & 0x1F == transferId
    }

    function Seed(): bv16 { Crc.AddSignature(0xFFFF, signature) }

    function Checksum(): bv16 { Crc.Add(Seed(), payload) }

    /** A transfer of one frame has no checksum. */
    predicate Intact() { Count() == 1 || carried == Checksum() }

    function Frames(): seq<Frame> { TransferFrames(id, transferId, carried, payload) }

    function Count(): nat { FrameCount(|payload|) }

    function Descriptor(): nat { DescriptorOf(id.clean) }

    /** Payload bytes in the first k frames, for 0 < k < Count(). */
    function Sent(k: nat): nat
      requires k > 0
    {
      7 * k - 2
    }
  }

  /** A transfer as the library sends it. */
  function Sealed(id: Id, transferId: byte, signature: bv64, payload: seq<byte>): (x: Sending)
    ensures x.Intact()
  {
    Sending(id, transferId, signature, payload, Crc.Add(Crc.AddSignature(0xFFFF, signature), payload))
  }

  /** The delivery the sender hopes for. */
  function Expected(x: Sending, now: nat): Delivery {
    var id := x.id.clean;
    Delivery(now, x.payload, ExtractDataType(id), ExtractTransferType(id), x.transferId, CanId.Priority(id),
             Source(id), ExtractDestination(id))
  }

  /** What its last frame delivers. */
  function Arriving(x: Sending, now: nat): Option<Delivery> {
    if x.Intact() then Some(Expected(x, now)) else None
  }

  /** What its last frame does to the statistics. */
  function Counted(x: Sending, stats: Stats): Stats {
    if x.Intact() then CountReceived(stats) else CountError(stats)
  }

  /** Blocks a chain needs for n stored bytes. */
  function BlocksFor(n: nat): nat {
    if n <= 6 then 0 else (n + 21) / 28
  }

  lemma BlocksGrow(n: nat, m: nat)
    requires n + m < 1024 && 1 <= m <= 7
    ensures BlocksAfter(n, BlocksFor(n), m) == BlocksFor(n + m)
  {
    if n > 6 {
      var b := BlocksFor(n);
      assert 28 * b <= n + 21 < 28 * b + 28;
      var q := if n < 6 + 28 * b then b - 1 else b;
      BlockSplitOf(n - 6, q, n - 6 - 28 * q);
      var p := if n + m < 6 + 28 * (q + 1) then q else q + 1;
      BlockSplitOf(n + m - 6, p, n + m - 6 - 28 * p);
    }
  }

  lemma SentWithinPayload(x: Sending, k: nat)
    requires 0 < k < x.Count()
    ensures 0 < x.Sent(k) < |x.payload|
  {
  }

  // ---- The frames ----

  lemma FrameTail(x: Sending, k: nat)
    requires x.Valid() && k < x.Count()
    ensures var t := Tail(x.Frames()[k]);
            && IsStart(t) == (k == 0) && IsEnd(t) == (k == x.Count() - 1) && IsToggled(t) == (k % 2 == 1)
            && TransferId(t) == x.transferId
  {
    TailByteFields(k == 0, k == x.Count() - 1, k % 2 == 1, x.transferId);
  }

  lemma FirstBody(x: Sending)
    requires x.Count() > 1
    ensures var f := x.Frames()[0];
            && |f.data| == 8 && Body(f)[2..] == x.payload[..5]
            && f.data[0] == (x.carried & 0xFF) as bv8 && f.data[1] == (x.carried >> 8) as bv8
  {
    var stream := Stream(x.carried, x.payload);
    assert Body(x.Frames()[0]) == stream[0..7];
  }

  lemma MiddleBody(x: Sending, k: nat)
    requires 0 < k < x.Count() - 1
    ensures |x.Frames()[k].data| == 8 && Body(x.Frames()[k]) == x.payload[x.Sent(k)..x.Sent(k + 1)]
  {
    var stream := Stream(x.carried, x.payload);
    assert Body(x.Frames()[k]) == stream[7 * k..7 * k + 7];
  }

  lemma LastBody(x: Sending)
    requires x.Count() > 1
    ensures Body(x.Frames()[x.Count() - 1]) == x.payload[x.Sent(x.Count() - 1)..]
  {
    var stream, k := Stream(x.carried, x.payload), x.Count() - 1;
    assert Body(x.Frames()[k]) == stream[7 * k..];
  }

  lemma SplitChecksum(c: bv16)
    ensures (((c & 0xFF) as bv8) as bv16) | ((((c >> 8) as bv8) as bv16) << 8) == c
  {
  }

  // ---- One state ----

  /** The state is idle and expects this transfer ID. */
  predicate Expecting(s: RxView, transferId: byte) {
    s.stored == [] && s.blocks == 0 && !s.nextToggle && s.transferId == transferId
  }

  /** The state takes the first frame as a beginning: it restarts, or expects this transfer. */
  predicate Ready(s: RxView, x: Sending, now: nat) {
    (x.Count() >= 1 && NeedsRestart(s, Tail(x.Frames()[0]), now)) || Expecting(s, x.transferId)
  }

  /** The state after k frames, the first of which came at time t0. */
  predicate Receiving(s: RxView, x: Sending, k: nat, t0: nat)
    requires 0 < k < x.Count()
  {
    SentWithinPayload(x, k);
    var stored := x.payload[..x.Sent(k)];
    && s.stored == stored && s.blocks == BlocksFor(|stored|)
    && s.nextToggle == (k % 2 == 1) && s.transferId == x.transferId
    && s.calculatedCrc == Crc.Add(x.Seed(), stored) && s.payloadCrc == x.carried
    && s.timestamp == t0
  }

  /** Not a new beginning: within two seconds of the first frame. */
  predicate InTime(t0: nat, now: nat) {
    0 < t0 <= now <= t0 + TIMEOUT_USEC
  }

  lemma {:induction false} StoredAll(s: RxView, free: nat, stats: Stats, bytes: seq<byte>, after: nat)
    requires |s.stored| < 1024 && BlocksAfter(|s.stored|, s.blocks, |bytes|) == after <= s.blocks + free
    ensures Store(s, free, stats, bytes) ==
            Outcome(s.(stored := s.stored + bytes, blocks := after, calculatedCrc := Crc.Add(s.calculatedCrc, bytes),
                       nextToggle := !s.nextToggle),
                    free + s.blocks - after, stats, None)
  {
    assert PayloadLen(s) == |s.stored|;
  }

  /** The first frame in an idle state. */
  lemma FirstStored(r: RxView, free: nat, stats: Stats, x: Sending, now: nat)
    requires x.Valid() && x.Count() > 1 && Expecting(r, x.transferId) && r.calculatedCrc == x.Seed()
    ensures var o := ReceivePart(r, free, stats, x.Frames()[0], now);
            o.delivery == None && Receiving(o.state, x, 1, now) && o.free == free && o.stats == stats
  {
    FrameTail(x, 0);
    FirstBody(x);
    SplitChecksum(x.carried);
    StoredAll(r.(timestamp := now), free, stats, x.payload[..5], 0);
    assert [] + x.payload[..5] == x.payload[..5];
  }

  lemma FirstFrame(s: RxView, free: nat, stats: Stats, x: Sending, now: nat)
    requires x.Valid() && x.Count() > 1
    requires Ready(s, x, now) && s.calculatedCrc == x.Seed()
    ensures var o := Receive(s, free, stats, x.Frames()[0], now);
            o.delivery == None && Receiving(o.state, x, 1, now) && o.free == free + s.blocks && o.stats == stats
  {
    var f := x.Frames()[0];
    FrameTail(x, 0);
    var r := Restarted(s, Tail(f), now);
    assert Expecting(r, x.transferId) && r.calculatedCrc == x.Seed();
    FirstStored(r, free + s.blocks, stats, x, now);
  }

  /** Middle frames of the transfer pass every check. */
  lemma MiddleIsStored(s: RxView, free: nat, stats: Stats, x: Sending, k: nat, t0: nat, now: nat)
    requires x.Valid() && 0 < k < x.Count() - 1
    requires Receiving(s, x, k, t0) && InTime(t0, now)
    ensures Receive(s, free, stats, x.Frames()[k], now) == Store(s, free, stats, Body(x.Frames()[k]))
  {
    FrameTail(x, k);
    assert !NeedsRestart(s, Tail(x.Frames()[k]), now);
  }

  lemma {:induction false} StoredMore(s: RxView, free: nat, stats: Stats, seed: bv16, before: seq<byte>, bytes: seq<byte>)
    requires s.stored == before && s.blocks == BlocksFor(|before|) && s.calculatedCrc == Crc.Add(seed, before)
    requires |bytes| == 7 && |before| + 7 < 1024 && BlocksFor(|before| + 7) <= s.blocks + free
    ensures Store(s, free, stats, bytes) ==
            Outcome(s.(stored := before + bytes, blocks := BlocksFor(|before| + 7),
                       calculatedCrc := Crc.Add(seed, before + bytes), nextToggle := !s.nextToggle),
                    free + s.blocks - BlocksFor(|before| + 7), stats, None)
  {
    BlocksGrow(|before|, 7);
    Crc.AddConcat(seed, before, bytes);
    StoredAll(s, free, stats, bytes, BlocksFor(|before| + 7));
  }

  lemma MiddleStored(s: RxView, free: nat, stats: Stats, x: Sending, k: nat, t0: nat)
    requires 0 < k < x.Count() - 1 && |x.payload| < 1024
    requires x.Sent(k + 1) < |x.payload|
    requires Receiving(s, x, k, t0)
    requires BlocksFor(x.Sent(k + 1)) <= s.blocks + free
    ensures var o := Store(s, free, stats, x.payload[x.Sent(k)..x.Sent(k + 1)]);
            && o.delivery == None && Receiving(o.state, x, k + 1, t0)
            && o.free == free + s.blocks - BlocksFor(x.Sent(k + 1)) && o.stats == stats
  {
    var before, bytes := x.payload[..x.Sent(k)], x.payload[x.Sent(k)..x.Sent(k + 1)];
    StoredMore(s, free, stats, x.Seed(), before, bytes);
    assert before + bytes == x.payload[..x.Sent(k + 1)];
    ReceivingMore(s, x, k, t0);
  }

  lemma ReceivingMore(s: RxView, x: Sending, k: nat, t0: nat)
    requires 0 < k < x.Count() - 1 && x.Sent(k + 1) < |x.payload| && Receiving(s, x, k, t0)
    ensures var stored := x.payload[..x.Sent(k + 1)];
            Receiving(s.(stored := stored, blocks := BlocksFor(|stored|), calculatedCrc := Crc.Add(x.Seed(), stored),
                         nextToggle := !s.nextToggle), x, k + 1, t0)
  {
    assert ((k + 1) % 2 == 1) == !(k % 2 == 1);
  }

  lemma MiddleFrame(s: RxView, free: nat, stats: Stats, x: Sending, k: nat, t0: nat, now: nat)
    requires x.Valid() && 0 < k < x.Count() - 1 && |x.payload| < 1024
    requires Receiving(s, x, k, t0) && InTime(t0, now)
    requires BlocksFor(x.Sent(k + 1)) <= s.blocks + free
    ensures var o := Receive(s, free, stats, x.Frames()[k], now);
            && o.delivery == None && Receiving(o.state, x, k + 1, t0)
            && o.free == free + s.blocks - BlocksFor(x.Sent(k + 1)) && o.stats == stats
  {
    SentWithinPayload(x, k + 1);
    MiddleStored(s, free, stats, x, k, t0);
    MiddleBody(x, k);
    MiddleIsStored(s, free, stats, x, k, t0, now);
  }

  /** The end frame delivers the transfer if the checksum is right, and the state expects the next one. */
  lemma LastFrame(s: RxView, free: nat, stats: Stats, x: Sending, t0: nat, now: nat)
    requires x.Valid() && x.Count() > 1
    requires Receiving(s, x, x.Count() - 1, t0) && InTime(t0, now)
    ensures var o := Receive(s, free, stats, x.Frames()[x.Count() - 1], now);
            && o.delivery == Arriving(x, now) && o.free == free + s.blocks && o.stats == Counted(x, stats)
            && Expecting(o.state, NextTransferId(x.transferId))
            && o.state.timestamp == t0 && o.state.calculatedCrc == x.Checksum() && o.state.payloadCrc == x.carried
  {
    var k := x.Count() - 1;
    var f := x.Frames()[k];
    FrameTail(x, k);
    LastBody(x);
    var bytes := Body(f);
    assert x.payload == x.payload[..x.Sent(k)] + bytes;
    Crc.AddConcat(x.Seed(), x.payload[..x.Sent(k)], bytes);
    assert !NeedsRestart(s, Tail(f), now);
    assert Receive(s, free, stats, f, now) == Finish(s, free, stats, f, now);
  }

  /** A transfer of fewer than eight bytes needs no condition on the state at all to be delivered. */
  lemma SingleFrame(s: RxView, free: nat, stats: Stats, x: Sending, now: nat)
    requires x.Valid() && x.Count() == 1
    ensures var o := Receive(s, free, stats, x.Frames()[0], now);
            && o.delivery == Arriving(x, now) && o.stats == Counted(x, stats)
            && (Ready(s, x, now) ==> Expecting(o.state, NextTransferId(x.transferId)))
  {
    FrameTail(x, 0);
    assert Body(x.Frames()[0]) == x.payload;
  }

  // ---- The whole receiver ----

  function Project(m: Machine, d: nat): Option<RxView> {
    var i := Find(m.states, d);
    if i < |m.states| then Some(m.states[i]) else None
  }

  predicate Concerns(e: Event, d: nat) {
    e.Received? && Supported(e.frame) && DescriptorOf(e.frame.id.clean) == d
  }

  lemma {:induction false} FindUpdated(states: seq<RxView>, i: nat, s: RxView, d: nat)
    requires i < |states| && s.descriptor == states[i].descriptor
    ensures Find(states[i := s], d) == Find(states, d)
  {
    if i > 0 {
      assert states[i := s][1..] == states[1..][i - 1 := s];
      FindUpdated(states[1..], i - 1, s, d);
    } else {
      assert states[0 := s][1..] == states[1..];
    }
  }

  lemma ApplyElsewhere(m: Machine, i: nat, frame: Frame, now: nat, d: nat)
    requires i < |m.states| && frame.data != [] && m.states[i].descriptor != d
    ensures Project(ApplyAt(m, i, frame, now).0, d) == Project(m, d)
  {
    FindUpdated(m.states, i, Receive(m.states[i], m.free, m.stats, frame, now).state, d);
  }

  lemma {:induction false} OpenedElsewhere(m: Machine, e: nat, signature: bv64, d: nat)
    requires Find(m.states, e) == |m.states| ==> m.free > 0
    requires e != d
    ensures Project(Opened(m, e, signature), d) == Project(m, d)
  {
    var i, o := Find(m.states, e), Opened(m, e, signature);
    if i < |m.states| {
      FindUpdated(m.states, i, o.states[i], d);
    } else {
      assert o.states[1..] == m.states;
    }
  }

  lemma FrameElsewhere(m: Machine, accept: Acceptor, frame: Frame, now: nat, d: nat)
    requires !(Supported(frame) && DescriptorOf(frame.id.clean) == d)
    ensures Project(Step(m, accept, frame, now).0, d) == Project(m, d)
  {
    var e := DescriptorOf(frame.id.clean);
    var i := Find(m.states, e);
    if Supported(frame) {
      if !IsStart(Tail(frame)) {
        if i < |m.states| {
          ApplyElsewhere(m, i, frame, now, d);
        }
      } else if Wanted(accept, frame).Some? && (i < |m.states| || m.free > 0) {
        var signature := Wanted(accept, frame).value;
        var ready := Opened(m, e, signature);
        OpenedElsewhere(m, e, signature, d);
        ApplyElsewhere(ready, Find(ready.states, e), frame, now, d);
      }
    }
  }

  lemma {:induction false} CleanupHere(states: seq<RxView>, now: nat, d: nat)
    requires DistinctDescriptors(states)
    ensures var i, left := Find(states, d), Survivors(states, now);
            var j := Find(left, d);
            if i < |states| && !Stale(states[i], now) then j < |left| && left[j] == states[i] else j == |left|
  {
    var i, left := Find(states, d), Survivors(states, now);
    var j := Find(left, d);
    SurvivorsAreFresh(states, now);
    if j < |left| {
      assert left[j] in left;
      var p :| 0 <= p < |states| && states[p] == left[j];
      assert p == i;
    }
  }

  /** Nothing but its own frames touches the state of a transfer, except that a cleanup takes it if it is stale. */
  lemma OthersDoNotInterfere(n: Station, accept: Acceptor, e: Event, d: nat)
    requires !Concerns(e, d) && DistinctDescriptors(n.receiver.states)
    ensures var before, after := Project(n.receiver, d), Project(Next(n, accept, e).0.receiver, d);
            after == if e.CleanedUp? && before.Some? && Stale(before.value, e.time) then None else before
  {
    match e
    case Received(frame, time) => FrameElsewhere(n.receiver, accept, frame, time, d);
    case CleanedUp(time) => CleanupHere(n.receiver.states, time, d);
    case Enqueued =>
    case Dequeued =>
  }

  lemma {:induction false} ApplyHere(m: Machine, frame: Frame, now: nat, d: nat)
    requires Find(m.states, d) < |m.states| && frame.data != []
    ensures var i := Find(m.states, d);
            var o := Receive(m.states[i], m.free, m.stats, frame, now);
            && Project(ApplyAt(m, i, frame, now).0, d) == Some(o.state)
            && ApplyAt(m, i, frame, now).1 == o.delivery && ApplyAt(m, i, frame, now).0.free == o.free
            && ApplyAt(m, i, frame, now).0.stats == o.stats
  {
    var i := Find(m.states, d);
    FindUpdated(m.states, i, Receive(m.states[i], m.free, m.stats, frame, now).state, d);
  }

  lemma {:induction false} OpenedHere(m: Machine, d: nat, signature: bv64)
    requires Find(m.states, d) == |m.states| ==> m.free > 0
    ensures var s := if Project(m, d).Some? then Project(m, d).value else Fresh(d);
            Project(Opened(m, d, signature), d) == Some(s.(calculatedCrc := Crc.AddSignature(0xFFFF, signature)))
  {
    var i, o := Find(m.states, d), Opened(m, d, signature);
    if i < |m.states| {
      FindUpdated(m.states, i, o.states[i], d);
    }
  }

  /** Where a transfer stands after k of its frames. A transfer of one frame may come in any state; if it is one of a chain,
      it is to find the state ready and leave it so. */
  predicate Stage(m: Machine, x: Sending, k: nat, t0: nat, chained: bool)
    requires k <= x.Count()
  {
    var s := Project(m, x.Descriptor());
    if k == x.Count() then s.Some? && (chained || x.Count() > 1) ==> Expecting(s.value, NextTransferId(x.transferId))
    else if k == 0 then s.Some? && (chained || x.Count() > 1) ==> Ready(s.value, x, t0)
    else s.Some? && Receiving(s.value, x, k, t0)
  }

  /** The pool can take the next frame. */
  predicate Room(m: Machine, x: Sending, k: nat)
    requires k < x.Count()
  {
    if k == 0 then Project(m, x.Descriptor()).None? ==> m.free > 0
    else k < x.Count() - 1 ==> BlocksFor(x.Sent(k + 1)) <= BlocksFor(x.Sent(k)) + m.free
  }

  /** Free blocks once the state of the transfer is there and empty. */
  function Available(m: Machine, x: Sending): int {
    var s := Project(m, x.Descriptor());
    if s.Some? then m.free + s.value.blocks else m.free - 1
  }

  /** The chain the transfer needs right before its last frame. */
  function Needed(x: Sending): nat {
    if x.Count() > 1 then BlocksFor(x.Sent(x.Count() - 1)) else 0
  }

  /** Blocks enough for all frames to come. */
  predicate Reserve(m: Machine, x: Sending, k: nat) {
    Needed(x) <= if k == 0 then Available(m, x) else m.free + BlocksFor(x.Sent(k))
  }

  predicate Accepts(accept: Acceptor, x: Sending) {
    var id := x.id.clean;
    accept(ExtractDataType(id), ExtractTransferType(id), Source(id), ExtractDestination(id)) == Some(x.signature)
  }

  /** A frame's effect on the receiver is its effect on the state of its transfer. */
  lemma StepStarts(m: Machine, accept: Acceptor, x: Sending, now: nat) returns (s: RxView, free: nat, stats: Stats)
    requires x.Valid() && x.Count() > 0 && Accepts(accept, x) && Room(m, x, 0)
    ensures s == (if Project(m, x.Descriptor()).Some? then Project(m, x.Descriptor()).value else Fresh(x.Descriptor()))
                 .(calculatedCrc := x.Seed())
    ensures free == m.free - (if Project(m, x.Descriptor()).Some? then 0 else 1) && stats == m.stats
    ensures var o := Receive(s, free, stats, x.Frames()[0], now);
            var (next, delivery) := Step(m, accept, x.Frames()[0], now);
            && Project(next, x.Descriptor()) == Some(o.state) && delivery == o.delivery && next.free == o.free
            && next.stats == o.stats
  {
    var d, f := x.Descriptor(), x.Frames()[0];
    FrameTail(x, 0);
    OpenedHere(m, d, x.signature);
    var ready := Opened(m, d, x.signature);
    ApplyHere(ready, f, now, d);
    s, free, stats := Project(ready, d).value, ready.free, ready.stats;
    assert Step(m, accept, f, now) == ApplyAt(ready, Find(ready.states, d), f, now);
  }

  lemma StepContinues(m: Machine, accept: Acceptor, x: Sending, k: nat, now: nat)
    requires x.Valid() && 0 < k < x.Count() && Project(m, x.Descriptor()).Some?
    ensures var d, f := x.Descriptor(), x.Frames()[k];
            var o := Receive(Project(m, d).value, m.free, m.stats, f, now);
            var (next, delivery) := Step(m, accept, f, now);
            && Project(next, d) == Some(o.state) && delivery == o.delivery && next.free == o.free && next.stats == o.stats
  {
    FrameTail(x, k);
    ApplyHere(m, x.Frames()[k], now, x.Descriptor());
  }

  lemma OwnFirst(m: Machine, accept: Acceptor, x: Sending, now: nat, chained: bool)
    requires x.Valid() && x.Count() > 0 && Accepts(accept, x)
    requires Stage(m, x, 0, now, chained) && Room(m, x, 0)
    ensures var (next, delivery) := Step(m, accept, x.Frames()[0], now);
            && Stage(next, x, 1, now, chained)
            && if x.Count() == 1 then delivery == Arriving(x, now) && next.stats == Counted(x, m.stats)
               else delivery == None && next.free == Available(m, x) && next.stats == m.stats
  {
    var s, free, stats := StepStarts(m, accept, x, now);
    if x.Count() == 1 {
      SingleFrame(s, free, stats, x, now);
    } else {
      FirstFrame(s, free, stats, x, now);
    }
  }

  lemma OwnMiddle(m: Machine, accept: Acceptor, x: Sending, k: nat, t0: nat, now: nat, chained: bool)
    requires x.Valid() && 0 < k < x.Count() - 1 && |x.payload| < 1024
    requires Stage(m, x, k, t0, chained) && Room(m, x, k) && InTime(t0, now)
    ensures var (next, delivery) := Step(m, accept, x.Frames()[k], now);
            && delivery == None && Stage(next, x, k + 1, t0, chained) && next.stats == m.stats
            && next.free == m.free + BlocksFor(x.Sent(k)) - BlocksFor(x.Sent(k + 1))
  {
    SentWithinPayload(x, k);
    MiddleFrame(Project(m, x.Descriptor()).value, m.free, m.stats, x, k, t0, now);
    StepContinues(m, accept, x, k, now);
  }

  lemma OwnLast(m: Machine, accept: Acceptor, x: Sending, t0: nat, now: nat, chained: bool)
    requires x.Valid() && x.Count() > 1
    requires Stage(m, x, x.Count() - 1, t0, chained) && InTime(t0, now)
    ensures var (next, delivery) := Step(m, accept, x.Frames()[x.Count() - 1], now);
            delivery == Arriving(x, now) && Stage(next, x, x.Count(), t0, chained) && next.stats == Counted(x, m.stats)
  {
    LastFrame(Project(m, x.Descriptor()).value, m.free, m.stats, x, t0, now);
    StepContinues(m, accept, x, x.Count() - 1, now);
  }

  /** The last frame of the transfer delivers it, or counts an error. */
  lemma OwnEnds(m: Machine, accept: Acceptor, x: Sending, t0: nat, now: nat, chained: bool)
    requires x.Valid() && x.Count() > 0 && Accepts(accept, x)
    requires Stage(m, x, x.Count() - 1, t0, chained) && InTime(t0, now)
    requires x.Count() == 1 ==> now == t0 && Room(m, x, 0)
    ensures var (next, delivery) := Step(m, accept, x.Frames()[x.Count() - 1], now);
            delivery == Arriving(x, now) && Stage(next, x, x.Count(), t0, chained) && next.stats == Counted(x, m.stats)
  {
    if x.Count() == 1 {
      OwnFirst(m, accept, x, now, chained);
    } else {
      OwnLast(m, accept, x, t0, now, chained);
    }
  }

  /** The others move it to the next stage. */
  lemma OwnAdvances(m: Machine, accept: Acceptor, x: Sending, k: nat, t0: nat, now: nat, chained: bool)
    requires x.Valid() && k + 1 < x.Count() && |x.payload| < 1024 && Accepts(accept, x)
    requires Stage(m, x, k, t0, chained) && Room(m, x, k) && InTime(t0, now) && (k == 0 ==> now == t0)
    ensures var (next, delivery) := Step(m, accept, x.Frames()[k], now);
            && delivery == None && Stage(next, x, k + 1, t0, chained) && next.stats == m.stats
            && next.free == if k == 0 then Available(m, x) else m.free + BlocksFor(x.Sent(k)) - BlocksFor(x.Sent(k + 1))
  {
    if k == 0 {
      OwnFirst(m, accept, x, now, chained);
    } else {
      OwnMiddle(m, accept, x, k, t0, now, chained);
    }
  }

  // ---- Runs ----

  function IsOwn(x: Sending): Event -> bool {
    (e: Event) => Concerns(e, x.Descriptor())
  }

  /** The event is the arrival of frame k of the transfer, within the time limit counted from the first one. */
  predicate IsFrame(e: Event, x: Sending, k: nat, t0: nat) {
    k < x.Count() && e.Received? && e.frame == x.Frames()[k] && InTime(t0, e.time) && (k == 0 ==> e.time == t0)
  }

  function IsNext(x: Sending, t0: nat): (Event, nat) -> bool {
    (e: Event, k: nat) => IsFrame(e, x, k, t0)
  }

  predicate Stands(n: Station, x: Sending, k: nat, t0: nat, chained: bool) {
    k <= x.Count() && DistinctDescriptors(n.receiver.states) && Stage(n.receiver, x, k, t0, chained)
  }

  function AtStage(x: Sending, t0: nat, chained: bool): (Station, nat) -> bool {
    (n: Station, k: nat) => Stands(n, x, k, t0, chained)
  }

  /** The pool can take every frame of the transfer, and no cleanup comes that takes a state of the time t0 while it is
      collected. All else may happen. */
  predicate Allowed(n: Station, e: Event, x: Sending, k: nat, t0: nat) {
    && (Concerns(e, x.Descriptor()) && k < x.Count() ==> Room(n.receiver, x, k))
    && (e.CleanedUp? && 0 < k < x.Count() ==> Elapsed(e.time, t0) <= TIMEOUT_USEC)
  }

  function Allows(x: Sending, t0: nat): (Station, Event, nat) -> bool {
    (n: Station, e: Event, k: nat) => Allowed(n, e, x, k, t0)
  }

  function ExpectedAt(x: Sending): Event -> Option<Delivery> {
    (e: Event) => Arriving(x, if e.Received? then e.time else 0)
  }

  /** The statistics, and what the transfer does to them. */
  function StatsOf(): Station -> Stats { (n: Station) => n.receiver.stats }

  function CountsOf(x: Sending): Stats -> Stats { (stats: Stats) => Counted(x, stats) }

  /** The delivery is one of this sender to this destination, of the same kind and type. */
  function IsFrom(x: Sending): Delivery -> bool {
    var id := x.id.clean;
    (d: Delivery) =>
      && d.dataTypeId == ExtractDataType(id) && d.transferType == ExtractTransferType(id)
      && d.source == Source(id) && d.destination == ExtractDestination(id)
  }

  lemma StaysAtStage(accept: Acceptor, x: Sending, t0: nat, chained: bool, n: Station, e: Event, k: nat)
    requires !Concerns(e, x.Descriptor()) && AtStage(x, t0, chained)(n, k) && Allows(x, t0)(n, e, k)
    ensures AtStage(x, t0, chained)(Stepping(accept)(n, e).0, k)
  {
    NextConserves(n, accept, e);
    OthersDoNotInterfere(n, accept, e, x.Descriptor());
  }

  lemma ReceiverIsolates(accept: Acceptor, x: Sending, t0: nat, chained: bool)
    ensures Isolated(Stepping(accept), IsOwn(x), x.Count(), AtStage(x, t0, chained), Allows(x, t0))
  {
    var step, stage := Stepping(accept), AtStage(x, t0, chained);
    forall n: Station, e: Event, k: nat {:trigger stage(step(n, e).0, k)}
      | !IsOwn(x)(e) && k <= x.Count() && stage(n, k) && Allows(x, t0)(n, e, k)
      ensures stage(step(n, e).0, k)
    {
      StaysAtStage(accept, x, t0, chained, n, e, k);
    }
  }

  lemma NextIsOwn(x: Sending, t0: nat, e: Event, k: nat)
    requires x.Valid() && IsNext(x, t0)(e, k)
    ensures Concerns(e, x.Descriptor())
  {
  }

  // The parts of a run by names that do not show what they are.

  ghost predicate Named(step: Stepper<Station, Event, Delivery>, isNext: (Event, nat) -> bool, stage: (Station, nat) -> bool,
                        permits: (Station, Event, nat) -> bool, accept: Acceptor, x: Sending, t0: nat, chained: bool) {
    && (forall n: Station, e: Event {:trigger Next(n, accept, e)} :: step(n, e) == Next(n, accept, e))
    && (forall e: Event, k: nat {:trigger IsFrame(e, x, k, t0)} :: isNext(e, k) == IsFrame(e, x, k, t0))
    && (forall n: Station, k: nat {:trigger Stands(n, x, k, t0, chained)} :: stage(n, k) == Stands(n, x, k, t0, chained))
    && (forall n: Station, e: Event, k: nat {:trigger Allowed(n, e, x, k, t0)} :: permits(n, e, k) == Allowed(n, e, x, k, t0))
  }

  lemma FrameAdvances(n: Station, accept: Acceptor, x: Sending, e: Event, k: nat, t0: nat, chained: bool)
    requires x.Valid() && |x.payload| < 1024 && Accepts(accept, x) && k + 1 < x.Count()
    requires IsFrame(e, x, k, t0) && Stands(n, x, k, t0, chained) && Allowed(n, e, x, k, t0)
    ensures Next(n, accept, e).1.None? && Stands(Next(n, accept, e).0, x, k + 1, t0, chained)
    ensures StatsOf()(Next(n, accept, e).0) == StatsOf()(n)
  {
    NextIsOwn(x, t0, e, k);
    NextConserves(n, accept, e);
    OwnAdvances(n.receiver, accept, x, k, t0, e.time, chained);
  }

  lemma FrameFinishes(n: Station, accept: Acceptor, x: Sending, e: Event, t0: nat, chained: bool)
    requires x.Valid() && Accepts(accept, x) && x.Count() > 0 && IsFrame(e, x, x.Count() - 1, t0)
    requires Stands(n, x, x.Count() - 1, t0, chained) && Allowed(n, e, x, x.Count() - 1, t0)
    ensures Next(n, accept, e).1 == ExpectedAt(x)(e) && Stands(Next(n, accept, e).0, x, x.Count(), t0, chained)
    ensures StatsOf()(Next(n, accept, e).0) == CountsOf(x)(StatsOf()(n))
  {
    NextIsOwn(x, t0, e, x.Count() - 1);
    NextConserves(n, accept, e);
    OwnEnds(n.receiver, accept, x, t0, e.time, chained);
  }

  lemma AdvancesAt(step: Stepper<Station, Event, Delivery>, isNext: (Event, nat) -> bool, stage: (Station, nat) -> bool,
                   permits: (Station, Event, nat) -> bool, accept: Acceptor, x: Sending, t0: nat, chained: bool,
                   n: Station, e: Event, k: nat)
    requires Named(step, isNext, stage, permits, accept, x, t0, chained)
    requires x.Valid() && |x.payload| < 1024 && Accepts(accept, x) && k + 1 < x.Count()
    requires isNext(e, k) && stage(n, k) && permits(n, e, k)
    ensures stage(step(n, e).0, k + 1) && step(n, e).1 == None && StatsOf()(step(n, e).0) == StatsOf()(n)
  {
    assert IsFrame(e, x, k, t0) && Stands(n, x, k, t0, chained) && Allowed(n, e, x, k, t0);
    FrameAdvances(n, accept, x, e, k, t0, chained);
  }

  lemma FinishesAt(step: Stepper<Station, Event, Delivery>, isNext: (Event, nat) -> bool, stage: (Station, nat) -> bool,
                   permits: (Station, Event, nat) -> bool, accept: Acceptor, x: Sending, t0: nat, chained: bool,
                   n: Station, e: Event, k: nat)
    requires Named(step, isNext, stage, permits, accept, x, t0, chained)
    requires x.Valid() && Accepts(accept, x) && k + 1 == x.Count()
    requires isNext(e, k) && stage(n, k) && permits(n, e, k)
    ensures stage(step(n, e).0, k + 1) && step(n, e).1 == ExpectedAt(x)(e)
    ensures StatsOf()(step(n, e).0) == CountsOf(x)(StatsOf()(n))
  {
    assert IsFrame(e, x, k, t0) && Stands(n, x, k, t0, chained) && Allowed(n, e, x, k, t0);
    FrameFinishes(n, accept, x, e, t0, chained);
  }

  lemma StepServes(step: Stepper<Station, Event, Delivery>, isNext: (Event, nat) -> bool, stage: (Station, nat) -> bool,
                   permits: (Station, Event, nat) -> bool, accept: Acceptor, x: Sending, t0: nat, chained: bool)
    requires Named(step, isNext, stage, permits, accept, x, t0, chained)
    requires x.Valid() && |x.payload| < 1024 && Accepts(accept, x)
    ensures Advances(step, isNext, x.Count(), stage, permits)
    ensures Finishes(step, isNext, x.Count(), stage, permits, ExpectedAt(x))
    ensures Registers(step, isNext, x.Count(), stage, permits, StatsOf(), CountsOf(x))
  {
    forall n: Station, e: Event, k: nat {:trigger step(n, e), isNext(e, k)}
      | isNext(e, k) && k < x.Count() && stage(n, k) && permits(n, e, k)
      ensures stage(step(n, e).0, k + 1)
      ensures step(n, e).1 == if k + 1 == x.Count() then ExpectedAt(x)(e) else None
      ensures StatsOf()(step(n, e).0) == if k + 1 == x.Count() then CountsOf(x)(StatsOf()(n)) else StatsOf()(n)
    {
      if k + 1 == x.Count() {
        FinishesAt(step, isNext, stage, permits, accept, x, t0, chained, n, e, k);
      } else {
        AdvancesAt(step, isNext, stage, permits, accept, x, t0, chained, n, e, k);
      }
    }
  }

  /** Its own frames take a transfer from stage to stage, and the last one delivers it. */
  lemma ReceiverServes(accept: Acceptor, x: Sending, t0: nat, chained: bool)
    requires x.Valid() && |x.payload| < 1024 && Accepts(accept, x)
    ensures Advances(Stepping(accept), IsNext(x, t0), x.Count(), AtStage(x, t0, chained), Allows(x, t0))
    ensures Finishes(Stepping(accept), IsNext(x, t0), x.Count(), AtStage(x, t0, chained), Allows(x, t0), ExpectedAt(x))
    ensures Registers(Stepping(accept), IsNext(x, t0), x.Count(), AtStage(x, t0, chained), Allows(x, t0), StatsOf(), CountsOf(x))
  {
    StepServes(Stepping(accept), IsNext(x, t0), AtStage(x, t0, chained), Allows(x, t0), accept, x, t0, chained);
  }

  lemma DeliveryOfPart(s: RxView, free: nat, stats: Stats, frame: Frame, now: nat)
    requires frame.data != [] && ReceivePart(s, free, stats, frame, now).delivery.Some?
    ensures var d := ReceivePart(s, free, stats, frame, now).delivery.value; d == MakeDelivery(frame, now, d.payload)
  {
  }

  lemma DeliveryOfReady(s: RxView, free: nat, stats: Stats, frame: Frame, now: nat)
    requires frame.data != [] && ReceiveReady(s, free, stats, frame, now).delivery.Some?
    ensures var d := ReceiveReady(s, free, stats, frame, now).delivery.value; d == MakeDelivery(frame, now, d.payload)
  {
    if !(IsStart(Tail(frame)) && IsEnd(Tail(frame))) {
      DeliveryOfPart(s, free, stats, frame, now);
    }
  }

  lemma DeliveryOfState(s: RxView, free: nat, stats: Stats, frame: Frame, now: nat)
    requires frame.data != [] && Receive(s, free, stats, frame, now).delivery.Some?
    ensures var d := Receive(s, free, stats, frame, now).delivery.value; d == MakeDelivery(frame, now, d.payload)
  {
    var r := Restarted(s, Tail(frame), now);
    DeliveryOfReady(r, free + s.blocks - r.blocks, stats, frame, now);
  }

  /** A delivery names the type, kind, source and destination of the frame that caused it. */
  lemma DeliveryOfFrame(m: Machine, accept: Acceptor, frame: Frame, now: nat)
    requires Step(m, accept, frame, now).1.Some?
    ensures var d, id := Step(m, accept, frame, now).1.value, frame.id.clean;
            && Supported(frame) && d.dataTypeId == ExtractDataType(id) && d.transferType == ExtractTransferType(id)
            && d.source == Source(id) && d.destination == ExtractDestination(id)
  {
    var d := DescriptorOf(frame.id.clean);
    var i := Find(m.states, d);
    if !IsStart(Tail(frame)) {
      DeliveryOfState(m.states[i], m.free, m.stats, frame, now);
    } else {
      var ready := Opened(m, d, Wanted(accept, frame).value);
      DeliveryOfState(ready.states[Find(ready.states, d)], ready.free, ready.stats, frame, now);
    }
  }

  lemma TellsAt(accept: Acceptor, x: Sending, n: Station, e: Event)
    requires Next(n, accept, e).1.Some?
    ensures IsFrom(x)(Next(n, accept, e).1.value) == Concerns(e, x.Descriptor())
  {
    DeliveryOfFrame(n.receiver, accept, e.frame, e.time);
    var a, b := e.frame.id.clean, x.id.clean;
    FieldBounds(a);
    FieldBounds(b);
    if DescriptorOf(a) == DescriptorOf(b) {
      DescriptorInjective(ExtractDataType(a), ExtractTransferType(a), Source(a), ExtractDestination(a),
        ExtractDataType(b), ExtractTransferType(b), Source(b), ExtractDestination(b));
    }
  }

  lemma FieldBounds(id: uint29)
    ensures ExtractDataType(id) < 0x1_0000 && Source(id) < 0x80 && ExtractDestination(id) < 0x80
  {
    PowersOfTwo();
    ShrLow(id, 7);
    ShrLow(Shr(id, 8), 7);
    ShrLow(Shr(id, 8), 16);
    ShrLow(MessageType(id), 2);
    ShrLow(Shr(id, 16), 8);
  }

  /** Frames of other senders, types and destinations deliver nothing of this sender. */
  lemma ReceiverTells(accept: Acceptor, x: Sending)
    ensures Tells(Stepping(accept), IsOwn(x), IsFrom(x))
  {
    var step := Stepping(accept);
    forall n: Station, e: Event {:trigger step(n, e)} | step(n, e).1.Some?
      ensures IsFrom(x)(step(n, e).1.value) == IsOwn(x)(e)
    {
      TellsAt(accept, x, n, e);
    }
  }

  /** When the frames of a transfer came, the last one. */
  function Completed(x: Sending, events: seq<Event>): nat
    requires x.Count() > 0
  {
    var mine := Runs.Own(events, IsOwn(x));
    if |mine| == x.Count() && mine[x.Count() - 1].Received? then mine[x.Count() - 1].time else 0
  }

  /** What the receiver reports of the transfer. */
  function Arrivals(x: Sending, now: nat): seq<Delivery> {
    if x.Intact() then [Expected(x, now)] else []
  }

  /** Exactly one delivery of this sender, type, kind and destination in the whole run, on the last frame of the transfer, of
      exactly what was sent: the bus carries its frames in order and in time, mixed with anything else, and the pool can take
      each of them when it comes. None at all if the checksum does not belong to the payload. */
  lemma {:induction false} DeliveredOnce(n: Station, accept: Acceptor, events: seq<Event>, x: Sending, t0: nat,
                                         chained: bool)
    requires x.Valid() && x.Count() > 0 && |x.payload| < 1024 && Accepts(accept, x)
    requires AtStage(x, t0, chained)(n, 0) && Permitted(Stepping(accept), n, events, IsOwn(x), Allows(x, t0), 0)
    requires Carries(events, IsOwn(x), IsNext(x, t0), 0, x.Count())
    ensures OnceAtTheEnd(Stepping(accept), n, events, IsOwn(x), x.Count(), ExpectedAt(x))
    ensures Marked(Deliveries(n, accept, events), IsFrom(x)) == Arrivals(x, Completed(x, events))
    ensures AtStage(x, t0, chained)(Run(n, accept, events), x.Count())
  {
    ReceiverIsolates(accept, x, t0, chained);
    ReceiverServes(accept, x, t0, chained);
    ReceiverTells(accept, x);
    ServedFromStart(Stepping(accept), n, events, IsOwn(x), IsNext(x, t0), x.Count(), AtStage(x, t0, chained), Allows(x, t0),
      ExpectedAt(x));
    OneMarked(Stepping(accept), n, events, IsOwn(x), x.Count(), ExpectedAt(x), IsFrom(x));
    LastOfOwn(events, x, t0);
  }

  lemma {:induction false} LastOfOwn(events: seq<Event>, x: Sending, t0: nat)
    requires x.Count() > 0 && Carries(events, IsOwn(x), IsNext(x, t0), 0, x.Count())
    ensures var mine := Runs.Own(events, IsOwn(x));
            && |mine| == x.Count() && ExpectedAt(x)(mine[x.Count() - 1]) == Arriving(x, Completed(x, events))
            && Somes([ExpectedAt(x)(mine[x.Count() - 1])]) == Arrivals(x, Completed(x, events))
  {
    var mine := Runs.Own(events, IsOwn(x));
    assert IsNext(x, t0)(mine[x.Count() - 1], 0 + (x.Count() - 1));
    assert [ExpectedAt(x)(mine[x.Count() - 1])][1..] == [];
  }

  /** The frames of the transfer change the statistics once, with the last one: a reception, or an error. */
  lemma {:induction false} CountedOnce(n: Station, accept: Acceptor, events: seq<Event>, x: Sending, t0: nat, chained: bool)
    requires x.Valid() && x.Count() > 0 && |x.payload| < 1024 && Accepts(accept, x)
    requires AtStage(x, t0, chained)(n, 0) && Permitted(Stepping(accept), n, events, IsOwn(x), Allows(x, t0), 0)
    requires Carries(events, IsOwn(x), IsNext(x, t0), 0, x.Count())
    ensures OneChange(Readings(Stepping(accept), n, events, IsOwn(x), StatsOf()), x.Count() - 1, CountsOf(x))
  {
    ReceiverIsolates(accept, x, t0, chained);
    ReceiverServes(accept, x, t0, chained);
    ChangedFromStart(Stepping(accept), n, events, IsOwn(x), IsNext(x, t0), x.Count(), AtStage(x, t0, chained), Allows(x, t0),
      ExpectedAt(x), StatsOf(), CountsOf(x));
  }

  // ---- One transfer after the other ----

  /** A transfer of a chain, the time of its first frame, and what happens until its last one and on to the next transfer. */
  datatype Job = Job(x: Sending, t0: nat, events: seq<Event>)

  function AllEvents(jobs: seq<Job>): seq<Event> {
    if jobs == [] then [] else jobs[0].events + AllEvents(jobs[1..])
  }

  function AllExpected(jobs: seq<Job>): seq<Delivery>
    requires forall j | j in jobs :: j.x.Count() > 0
  {
    if jobs == [] then [] else Arrivals(jobs[0].x, Completed(jobs[0].x, jobs[0].events)) + AllExpected(jobs[1..])
  }

  /** The transfers are of one sender, type, kind and destination. */
  predicate Same(x: Sending, y: Sending) {
    var a, b := x.id.clean, y.id.clean;
    && ExtractDataType(a) == ExtractDataType(b) && ExtractTransferType(a) == ExtractTransferType(b)
    && Source(a) == Source(b) && ExtractDestination(a) == ExtractDestination(b)
  }

  /** Each transfer has the next transfer ID, and its frames come in order, in time, and find room. */
  predicate InTurn(n: Station, accept: Acceptor, jobs: seq<Job>)
    decreases |jobs|
  {
    jobs != [] ==>
      var j := jobs[0];
      && j.x.Valid() && j.x.Count() > 0 && |j.x.payload| < 1024 && Accepts(accept, j.x)
      && Permitted(Stepping(accept), n, j.events, IsOwn(j.x), Allows(j.x, j.t0), 0)
      && (|jobs| > 1 ==> Same(jobs[1].x, j.x) && jobs[1].x.transferId == NextTransferId(j.x.transferId))
      && InTurn(Run(n, accept, j.events), accept, jobs[1..])
  }

  ghost predicate AllCarry(jobs: seq<Job>) {
    forall j | j in jobs :: Carries(j.events, IsOwn(j.x), IsNext(j.x, j.t0), 0, j.x.Count())
  }

  lemma NextInChain(n: Station, x: Sending, t0: nat, y: Sending, t1: nat)
    requires x.Count() > 0 && AtStage(x, t0, true)(n, x.Count())
    requires Same(y, x) && y.transferId == NextTransferId(x.transferId) && y.Count() > 0
    ensures AtStage(y, t1, true)(n, 0)
  {
  }

  /** Any number of transfers of one sender, one after the other, mixed with anything: all that are intact are delivered, in
      order, each once, and nothing else of that sender, type, kind and destination is. */
  lemma {:induction false} ChainDelivered(n: Station, accept: Acceptor, jobs: seq<Job>, like: Sending)
    requires InTurn(n, accept, jobs) && AllCarry(jobs) && forall j | j in jobs :: Same(j.x, like) && j.x.Count() > 0
    requires jobs != [] ==> AtStage(jobs[0].x, jobs[0].t0, true)(n, 0)
    ensures Marked(Deliveries(n, accept, AllEvents(jobs)), IsFrom(like)) == AllExpected(jobs)
    decreases |jobs|
  {
    if jobs != [] {
      var j, rest := jobs[0], jobs[1..];
      assert j in jobs && forall i | i in rest :: i in jobs;
      DeliveredOnce(n, accept, j.events, j.x, j.t0, true);
      var next := Run(n, accept, j.events);
      if rest != [] {
        assert rest[0] == jobs[1];
        NextInChain(next, j.x, j.t0, rest[0].x, rest[0].t0);
      }
      ChainDelivered(next, accept, rest, like);
      SameMark(Deliveries(n, accept, j.events), j.x, like);
      OutputsConcat(Stepping(accept), n, j.events, AllEvents(rest));
      MarkedConcat(Deliveries(n, accept, j.events), Deliveries(next, accept, AllEvents(rest)), IsFrom(like));
    }
  }

  lemma {:induction false} SameMark(ds: seq<Option<Delivery>>, x: Sending, y: Sending)
    requires Same(x, y)
    ensures Marked(ds, IsFrom(x)) == Marked(ds, IsFrom(y))
    decreases |ds|
  {
    if ds != [] {
      SameMark(ds[1..], x, y);
    }
  }

  // ---- A quiet bus ----

  function HasReserve(x: Sending): (Station, nat) -> bool {
    (n: Station, k: nat) => k < x.Count() && Reserve(n.receiver, x, k)
  }

  lemma ReserveIsRoom(m: Machine, x: Sending, k: nat)
    requires k < x.Count() && Reserve(m, x, k)
    ensures Room(m, x, k)
  {
  }

  lemma ReservesAt(accept: Acceptor, x: Sending, t0: nat, n: Station, e: Event, k: nat)
    requires x.Valid() && |x.payload| < 1024 && Accepts(accept, x) && k + 1 < x.Count()
    requires IsNext(x, t0)(e, k) && AtStage(x, t0, false)(n, k) && HasReserve(x)(n, k)
    ensures HasReserve(x)(Stepping(accept)(n, e).0, k + 1)
  {
    ReserveIsRoom(n.receiver, x, k);
    OwnAdvances(n.receiver, accept, x, k, t0, e.time, false);
  }

  lemma ReceiverReserves(accept: Acceptor, x: Sending, t0: nat)
    requires x.Valid() && |x.payload| < 1024 && Accepts(accept, x)
    ensures Reserves(Stepping(accept), IsNext(x, t0), x.Count(), AtStage(x, t0, false), Allows(x, t0), HasReserve(x))
  {
    var step, isNext, stage, reserve := Stepping(accept), IsNext(x, t0), AtStage(x, t0, false), HasReserve(x);
    var permits := Allows(x, t0);
    forall n: Station, e: Event, k: nat {:trigger permits(n, e, k)} | reserve(n, k) && isNext(e, k) && stage(n, k) && k < x.Count()
      ensures permits(n, e, k)
    {
      ReserveIsRoom(n.receiver, x, k);
    }
    forall n: Station, e: Event, k: nat {:trigger step(n, e), isNext(e, k)}
      | isNext(e, k) && k + 1 < x.Count() && stage(n, k) && reserve(n, k)
      ensures reserve(step(n, e).0, k + 1)
    {
      ReservesAt(accept, x, t0, n, e, k);
    }
  }

  /** The frames of the transfer as they arrive, one after the other. */
  function Stamped(fs: seq<Frame>, times: seq<nat>): (bus: seq<Event>)
    requires |fs| == |times|
  {
    seq(|fs|, i requires 0 <= i < |fs| => Received(fs[i], times[i]))
  }

  lemma StampedIsQuiet(x: Sending, times: seq<nat>)
    requires x.Valid() && x.Count() == |times| > 0
    requires forall i | 0 <= i < |times| :: InTime(times[0], times[i])
    ensures Quiet(Stamped(x.Frames(), times), IsOwn(x), IsNext(x, times[0]), 0, x.Count())
  {
  }

  lemma StampedIsOwn(x: Sending, times: seq<nat>)
    requires x.Valid() && x.Count() == |times|
    ensures forall e | e in Stamped(x.Frames(), times) :: Concerns(e, x.Descriptor())
  {
    forall e | e in Stamped(x.Frames(), times) ensures Concerns(e, x.Descriptor()) {
    }
  }

  /** The whole path, with explicit conditions: the frames of a transfer of up to 1023 bytes, one after the other within
      two seconds, a state that is absent or takes the first frame as a beginning, and blocks enough for the chain. */
  lemma QuietBusDelivers(n: Station, accept: Acceptor, x: Sending, times: seq<nat>)
    requires x.Valid() && |x.payload| < 1024 && Accepts(accept, x) && DistinctDescriptors(n.receiver.states)
    requires x.Count() == |times| > 0 && forall i | 0 <= i < |times| :: InTime(times[0], times[i])
    requires var s := Project(n.receiver, x.Descriptor()); s.Some? && x.Count() > 1 ==> Ready(s.value, x, times[0])
    requires Needed(x) <= Available(n.receiver, x)
    ensures OnceAtTheEnd(Stepping(accept), n, Stamped(x.Frames(), times), IsOwn(x), x.Count(), ExpectedAt(x))
  {
    QuietBusPermits(n, accept, x, times);
    DeliveredOnce(n, accept, Stamped(x.Frames(), times), x, times[0], false);
  }

  lemma QuietBusPermits(n: Station, accept: Acceptor, x: Sending, times: seq<nat>)
    requires x.Valid() && |x.payload| < 1024 && Accepts(accept, x) && DistinctDescriptors(n.receiver.states)
    requires x.Count() == |times| > 0 && forall i | 0 <= i < |times| :: InTime(times[0], times[i])
    requires var s := Project(n.receiver, x.Descriptor()); s.Some? && x.Count() > 1 ==> Ready(s.value, x, times[0])
    requires Needed(x) <= Available(n.receiver, x)
    ensures var t0, bus := times[0], Stamped(x.Frames(), times);
            && AtStage(x, t0, false)(n, 0) && Permitted(Stepping(accept), n, bus, IsOwn(x), Allows(x, t0), 0)
            && Carries(bus, IsOwn(x), IsNext(x, t0), 0, x.Count())
  {
    var t0, bus := times[0], Stamped(x.Frames(), times);
    StampedIsQuiet(x, times);
    ReceiverServes(accept, x, t0, false);
    ReceiverReserves(accept, x, t0);
    QuietIsPermitted(Stepping(accept), n, bus, IsOwn(x), IsNext(x, t0), 0, x.Count(), AtStage(x, t0, false), Allows(x, t0),
      HasReserve(x));
  }

  /** And what is left in the statistics: one transfer received, or one error. */
  lemma QuietBusCounts(n: Station, accept: Acceptor, x: Sending, times: seq<nat>)
    requires x.Valid() && |x.payload| < 1024 && Accepts(accept, x) && DistinctDescriptors(n.receiver.states)
    requires x.Count() == |times| > 0 && forall i | 0 <= i < |times| :: InTime(times[0], times[i])
    requires var s := Project(n.receiver, x.Descriptor()); s.Some? && x.Count() > 1 ==> Ready(s.value, x, times[0])
    requires Needed(x) <= Available(n.receiver, x)
    ensures var before, after := n.receiver.stats, Run(n, accept, Stamped(x.Frames(), times)).receiver.stats;
            after == if x.Intact()
                     then before.(received := if before.received >= 0xFFFF_FFFF_FFFF_FFFF then 0 else before.received + 1)
                     else before.(errors := if before.errors >= 0xFFFF_FFFF then 0 else before.errors + 1)
  {
    var bus := Stamped(x.Frames(), times);
    QuietBusPermits(n, accept, x, times);
    CountedOnce(n, accept, bus, x, times[0], false);
    StampedIsOwn(x, times);
    OnlyChange(Stepping(accept), n, bus, IsOwn(x), StatsOf(), x.Count() - 1, CountsOf(x));
  }

  lemma {:induction false} OwnOutputs(n: Station, accept: Acceptor, bus: seq<Event>, x: Sending)
    requires forall e | e in bus :: Concerns(e, x.Descriptor())
    ensures Outputs(Stepping(accept), n, bus, IsOwn(x)) == Deliveries(n, accept, bus)
    decreases |bus|
  {
    if bus != [] {
      OwnOutputs(Next(n, accept, bus[0]).0, accept, bus[1..], x);
    }
  }

  /** The same, message by message: nothing until the last frame, then exactly what was sent, if it is intact. */
  lemma QuietBusDeliveries(n: Station, accept: Acceptor, x: Sending, times: seq<nat>)
    requires x.Valid() && |x.payload| < 1024 && Accepts(accept, x) && DistinctDescriptors(n.receiver.states)
    requires x.Count() == |times| > 0 && forall i | 0 <= i < |times| :: InTime(times[0], times[i])
    requires var s := Project(n.receiver, x.Descriptor()); s.Some? && x.Count() > 1 ==> Ready(s.value, x, times[0])
    requires Needed(x) <= Available(n.receiver, x)
    ensures var k, ds := x.Count(), Deliveries(n, accept, Stamped(x.Frames(), times));
            && ds[k - 1] == Arriving(x, times[k - 1]) && forall i | 0 <= i < k - 1 :: ds[i] == None
  {
    var bus := Stamped(x.Frames(), times);
    QuietBusDelivers(n, accept, x, times);
    StampedIsOwn(x, times);
    OwnDeliveries(n, accept, bus, x);
  }

  lemma OwnDeliveries(n: Station, accept: Acceptor, bus: seq<Event>, x: Sending)
    requires OnceAtTheEnd(Stepping(accept), n, bus, IsOwn(x), x.Count(), ExpectedAt(x))
    requires forall e | e in bus :: Concerns(e, x.Descriptor())
    ensures |bus| == x.Count() > 0
    ensures var k, ds := x.Count(), Deliveries(n, accept, bus);
            ds[k - 1] == ExpectedAt(x)(bus[k - 1]) && forall i | 0 <= i < k - 1 :: ds[i] == None
  {
    OwnOutputs(n, accept, bus, x);
    AllOwn(bus, x);
    OnlyLastAt(x.Count() - 1, ExpectedAt(x)(bus[x.Count() - 1]));
  }

  lemma {:induction false} AllOwn(bus: seq<Event>, x: Sending)
    requires forall e | e in bus :: Concerns(e, x.Descriptor())
    ensures Runs.Own(bus, IsOwn(x)) == bus
  {
    if bus != [] {
      AllOwn(bus[1..], x);
      assert [bus[0]] + bus[1..] == bus;
    }
  }
}
