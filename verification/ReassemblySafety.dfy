/** When the assertions inside the receiver hold, for every sequence of frames. */
module ReassemblySafety {
  import opened Wrappers
  import opened Bits
  import opened CanId
  import opened Frames
  import opened Transfer
  import opened Reassembly
  import opened Traffic

  /** The largest pool whose chains cannot make the 10-bit payload length wrap. */
  const SAFE_POOL := 37

  /** How stored bytes sit in the head and the chain: every block but the last is full. */
  predicate Layout(len: nat, blocks: nat) {
    if blocks == 0 then len <= 6 else BlockStart(blocks - 1) <= len <= BlockStart(blocks)
  }

  predicate AllLaidOut(states: seq<RxView>) {
    forall i | 0 <= i < |states| :: Layout(|states[i].stored|, states[i].blocks)
  }

  lemma PushKeepsLayout(len: nat, blocks: nat, n: nat)
    requires len < 1024 && Layout(len, blocks) && n <= 7
    ensures Layout(len + n, BlocksAfter(len, blocks, n))
  {
    if blocks > 0 && len >= 6 {
      var q := if len < BlockStart(blocks) then blocks - 1 else blocks;
      BlockSplitOf(len - 6, q, len - 6 - 28 * q);
      var p := if len + n < BlockStart(q + 1) then q else q + 1;
      BlockSplitOf(len + n - 6, p, len + n - 6 - 28 * p);
    }
  }

  lemma {:induction false} ChainFitsPool(states: seq<RxView>, i: nat)
    requires i < |states|
    ensures 1 + states[i].blocks <= Held(states)
  {
    if i > 0 {
      ChainFitsPool(states[1..], i - 1);
    }
  }

  /** The bytes a start or middle frame adds to the storage. */
  function Added(frame: Frame): seq<byte>
    requires frame.data != []
  {
    if !IsStart(Tail(frame)) then Body(frame) else if |frame.data| > 3 then Body(frame)[2..] else []
  }

  /** A frame leaves the storage as it was after the restart check, empties it, or appends its bytes. */
  ghost predicate StoredAs(r: RxView, free: nat, frame: Frame, after: RxView)
    requires frame.data != []
  {
    var bytes := Added(frame);
    || (after.stored == r.stored && after.blocks == r.blocks)
    || (after.stored == [] && after.blocks == 0)
    || (&& !IsEnd(Tail(frame)) && (IsStart(Tail(frame)) ==> r.blocks == 0)
        && after.stored == r.stored + bytes && after.blocks == BlocksAfter(PayloadLen(r), r.blocks, |bytes|)
        && after.blocks <= r.blocks + free)
  }

  lemma StoreStorage(s: RxView, free: nat, stats: Stats, bytes: seq<byte>)
    ensures var after := Store(s, free, stats, bytes).state;
            || (after.stored == [] && after.blocks == 0)
            || (after.stored == s.stored + bytes && after.blocks == BlocksAfter(PayloadLen(s), s.blocks, |bytes|)
                && after.blocks <= s.blocks + free)
  {
  }

  lemma PartStorage(r: RxView, free: nat, stats: Stats, frame: Frame, now: nat)
    requires frame.data != [] && !(IsStart(Tail(frame)) && IsEnd(Tail(frame))) && (IsStart(Tail(frame)) ==> r.blocks == 0)
    ensures StoredAs(r, free, frame, ReceivePart(r, free, stats, frame, now).state)
  {
    if !IsEnd(Tail(frame)) {
      if IsStart(Tail(frame)) {
        if |frame.data| > 3 {
          StoreStorage(r.(timestamp := now), free, stats, Added(frame));
        }
      } else {
        StoreStorage(r, free, stats, Added(frame));
      }
    }
  }

  lemma ReceiveStorage(s: RxView, free: nat, stats: Stats, frame: Frame, now: nat)
    requires frame.data != []
    ensures var r := Restarted(s, Tail(frame), now);
            StoredAs(r, free + s.blocks - r.blocks, frame, Receive(s, free, stats, frame, now).state)
  {
    var tail := Tail(frame);
    var r := Restarted(s, tail, now);
    var freed := free + s.blocks - r.blocks;
    if !(IsStart(tail) && IsEnd(tail)) && !(NeedsRestart(s, tail, now) && !IsStart(tail)) {
      PartStorage(r, freed, stats, frame, now);
    }
  }

  lemma StorageKeepsLayout(r: RxView, free: nat, frame: Frame, after: RxView)
    requires frame.data != [] && |frame.data| <= 8 && StoredAs(r, free, frame, after)
    requires Layout(|r.stored|, r.blocks) && free + r.blocks < SAFE_POOL
    ensures Layout(|after.stored|, after.blocks)
  {
    LayoutBound(|r.stored|, r.blocks);
    assert PayloadLen(r) == |r.stored|;
    PushKeepsLayout(|r.stored|, r.blocks, |Added(frame)|);
  }

  lemma LayoutBound(len: nat, blocks: nat)
    requires Layout(len, blocks) && blocks < SAFE_POOL
    ensures len < 1024
  {
  }

  lemma ReceiveKeepsLayout(s: RxView, free: nat, stats: Stats, frame: Frame, now: nat)
    requires frame.data != [] && |frame.data| <= 8
    requires Layout(|s.stored|, s.blocks) && free + s.blocks < SAFE_POOL
    ensures var o := Receive(s, free, stats, frame, now); Layout(|o.state.stored|, o.state.blocks)
  {
    var r, after := Restarted(s, Tail(frame), now), Receive(s, free, stats, frame, now).state;
    ReceiveStorage(s, free, stats, frame, now);
    StorageKeepsLayout(r, free + s.blocks - r.blocks, frame, after);
  }

  /** With a small pool the layout is kept by any frame whatever. */
  lemma StepKeepsLayout(m: Machine, accept: Acceptor, frame: Frame, now: nat)
    requires |frame.data| <= 8
    requires AllLaidOut(m.states) && InUse(m) <= SAFE_POOL
    ensures AllLaidOut(Step(m, accept, frame, now).0.states)
  {
    var d := DescriptorOf(frame.id.clean);
    var i := Find(m.states, d);
    if Supported(frame) {
      if !IsStart(Tail(frame)) {
        if i < |m.states| {
          ChainFitsPool(m.states, i);
          ReceiveKeepsLayout(m.states[i], m.free, m.stats, frame, now);
        }
      } else if Wanted(accept, frame).Some? && (i < |m.states| || m.free > 0) {
        var ready := Opened(m, d, Wanted(accept, frame).value);
        var k := Find(ready.states, d);
        OpenedLaidOut(m, d, Wanted(accept, frame).value);
        ChainFitsPool(ready.states, k);
        ReceiveKeepsLayout(ready.states[k], ready.free, ready.stats, frame, now);
      }
    }
  }

  lemma NextKeepsLayout(n: Station, accept: Acceptor, e: Event)
    requires AllLaidOut(n.receiver.states) && Blocks(n) <= SAFE_POOL && (e.Received? ==> |e.frame.data| <= 8)
    ensures AllLaidOut(Next(n, accept, e).0.receiver.states)
  {
    match e
    case Received(frame, time) => StepKeepsLayout(n.receiver, accept, frame, time);
    case CleanedUp(time) =>
      SurvivorsAreFresh(n.receiver.states, time);
      forall i | 0 <= i < |Survivors(n.receiver.states, time)|
        ensures var s := Survivors(n.receiver.states, time)[i]; Layout(|s.stored|, s.blocks)
      {
        assert Survivors(n.receiver.states, time)[i] in n.receiver.states;
      }
    case Enqueued =>
    case Dequeued =>
  }

  lemma {:induction false} OpenedLaidOut(m: Machine, d: nat, signature: bv64)
    requires Find(m.states, d) == |m.states| ==> m.free > 0
    requires AllLaidOut(m.states)
    ensures AllLaidOut(Opened(m, d, signature).states) && InUse(Opened(m, d, signature)) == InUse(m)
  {
    var i, o := Find(m.states, d), Opened(m, d, signature);
    if i < |m.states| {
      HeldUpdate(m.states, i, o.states[i]);
    } else {
      assert o.states[1..] == m.states;
    }
  }

  /** An end frame is about to extend a state whose last block is exactly full. */
  predicate EndsOnFullBlock(s: RxView, frame: Frame, now: nat)
    requires frame.data != []
  {
    var tail := Tail(frame);
    var r := Restarted(s, tail, now);
    && !NeedsRestart(s, tail, now)
    && !IsStart(tail) && IsEnd(tail) && IsToggled(tail) == s.nextToggle && TransferId(tail) == s.transferId
    && s.blocks > 0 && |s.stored| == BlockStart(s.blocks)
  }

  /** The one way an assertion fails while the length does not wrap; prepareForNextTransfer never fails. */
  lemma AssertionsFailExactly(s: RxView, frame: Frame, now: nat)
    requires frame.data != [] && |s.stored| < 1024 && Layout(|s.stored|, s.blocks)
    ensures ReceiveAsserts(s, frame, now) <==> !EndsOnFullBlock(s, frame, now)
  {
  }

  /** No event of the run is an end frame for a full last block. */
  predicate MeetsNoFullBlock(n: Station, accept: Acceptor, events: seq<Event>)
    decreases |events|
  {
    events != [] ==>
      && (events[0].Received? && Supported(events[0].frame) ==>
            !EndsOnFullBlock(StateFor(n.receiver, events[0].frame), events[0].frame, events[0].time))
      && MeetsNoFullBlock(Next(n, accept, events[0]).0, accept, events[1..])
  }

  lemma StepAssertsExactly(m: Machine, frame: Frame, now: nat)
    requires AllLaidOut(m.states) && InUse(m) <= SAFE_POOL
    ensures StepAsserts(m, frame, now) <==> (Supported(frame) ==> !EndsOnFullBlock(StateFor(m, frame), frame, now))
  {
    if Supported(frame) {
      var s, i := StateFor(m, frame), Find(m.states, DescriptorOf(frame.id.clean));
      if i < |m.states| {
        ChainFitsPool(m.states, i);
      }
      LayoutBound(|s.stored|, s.blocks);
      AssertionsFailExactly(s, frame, now);
    }
  }

  /** In a pool of at most 37 blocks, the assertions of a run hold exactly if no end frame meets a full last block. */
  lemma {:induction false} RunAssertsExactly(n: Station, accept: Acceptor, events: seq<Event>)
    requires DistinctDescriptors(n.receiver.states) && AllLaidOut(n.receiver.states) && Blocks(n) <= SAFE_POOL
    requires forall e | e in events && e.Received? :: |e.frame.data| <= 8
    ensures RunAsserts(n, accept, events) <==> MeetsNoFullBlock(n, accept, events)
    decreases |events|
  {
    if events != [] {
      var e := events[0];
      assert e in events;
      if e.Received? {
        StepAssertsExactly(n.receiver, e.frame, e.time);
      }
      NextKeepsLayout(n, accept, e);
      NextConserves(n, accept, e);
      RunAssertsExactly(Next(n, accept, e).0, accept, events[1..]);
    }
  }

  // ---- Full frames ----

  /** Start and middle frames carry eight bytes. */
  predicate Full(frame: Frame) {
    |frame.data| <= 8 && (frame.data != [] && !IsEnd(Tail(frame)) ==> |frame.data| == 8)
  }

  /** What full frames can leave in a state. */
  predicate RegularAt(len: nat, blocks: nat) {
    if blocks == 0 then len == 0 || len == 5
    else BlockStart(blocks - 1) < len < BlockStart(blocks) && (len % 7 == 0 || len % 7 == 3 || len % 7 == 5)
  }

  predicate Regular(s: RxView) { RegularAt(|s.stored|, s.blocks) }

  predicate AllRegular(states: seq<RxView>) {
    forall i | 0 <= i < |states| :: Regular(states[i])
  }

  lemma BlockStartModuloSeven(blocks: nat)
    ensures BlockStart(blocks) % 7 == 6
  {
    assert BlockStart(blocks) == 7 * (4 * blocks) + 6;
  }

  /** The stored length is never 6 modulo 7, so it is never that of a full last block. */
  lemma NeverSixModuloSeven(s: RxView)
    requires Regular(s)
    ensures |s.stored| % 7 != 6 && |s.stored| != BlockStart(s.blocks)
  {
    BlockStartModuloSeven(s.blocks);
  }

  lemma PushKeepsRegular(len: nat, blocks: nat, n: nat)
    requires len < 1024 && RegularAt(len, blocks)
    requires n == 7 || (n == 5 && blocks == 0)
    ensures RegularAt(len + n, BlocksAfter(len, blocks, n))
  {
    PushKeepsLayout(len, blocks, n);
    var after := BlocksAfter(len, blocks, n);
    if blocks > 0 {
      assert (len + 7) % 7 == len % 7;
      BlockStartModuloSeven(after);
      BlockStartModuloSeven(after - 1);
    }
  }

  lemma StorageKeepsRegular(r: RxView, free: nat, frame: Frame, after: RxView)
    requires frame.data != [] && Full(frame) && StoredAs(r, free, frame, after)
    requires Regular(r) && free + r.blocks < SAFE_POOL
    ensures Regular(after)
  {
    var bytes := |Added(frame)|;
    if !IsEnd(Tail(frame)) && (IsStart(Tail(frame)) ==> r.blocks == 0) {
      assert bytes == if IsStart(Tail(frame)) then 5 else 7;
      RegularBound(|r.stored|, r.blocks);
      PushKeepsRegular(|r.stored|, r.blocks, bytes);
    }
  }

  lemma RegularBound(len: nat, blocks: nat)
    requires RegularAt(len, blocks) && blocks < SAFE_POOL
    ensures len < 1024
  {
  }

  lemma ReceiveKeepsRegular(s: RxView, free: nat, stats: Stats, frame: Frame, now: nat)
    requires frame.data != [] && Full(frame) && Regular(s) && free + s.blocks < SAFE_POOL
    ensures Regular(Receive(s, free, stats, frame, now).state)
  {
    var r, after := Restarted(s, Tail(frame), now), Receive(s, free, stats, frame, now).state;
    ReceiveStorage(s, free, stats, frame, now);
    StorageKeepsRegular(r, free + s.blocks - r.blocks, frame, after);
  }

  lemma {:induction false} OpenedRegular(m: Machine, d: nat, signature: bv64)
    requires Find(m.states, d) == |m.states| ==> m.free > 0
    requires AllRegular(m.states)
    ensures AllRegular(Opened(m, d, signature).states) && InUse(Opened(m, d, signature)) == InUse(m)
  {
    var i, o := Find(m.states, d), Opened(m, d, signature);
    if i < |m.states| {
      HeldUpdate(m.states, i, o.states[i]);
    } else {
      assert o.states[1..] == m.states;
    }
  }

  lemma StepKeepsRegular(m: Machine, accept: Acceptor, frame: Frame, now: nat)
    requires Full(frame) && AllRegular(m.states) && InUse(m) <= SAFE_POOL
    ensures AllRegular(Step(m, accept, frame, now).0.states)
  {
    var d := DescriptorOf(frame.id.clean);
    var i := Find(m.states, d);
    if Supported(frame) {
      if !IsStart(Tail(frame)) {
        if i < |m.states| {
          ChainFitsPool(m.states, i);
          ReceiveKeepsRegular(m.states[i], m.free, m.stats, frame, now);
        }
      } else if Wanted(accept, frame).Some? && (i < |m.states| || m.free > 0) {
        var ready := Opened(m, d, Wanted(accept, frame).value);
        var k := Find(ready.states, d);
        OpenedRegular(m, d, Wanted(accept, frame).value);
        ChainFitsPool(ready.states, k);
        ReceiveKeepsRegular(ready.states[k], ready.free, ready.stats, frame, now);
      }
    }
  }

  lemma NextKeepsRegular(n: Station, accept: Acceptor, e: Event)
    requires AllRegular(n.receiver.states) && Blocks(n) <= SAFE_POOL && (e.Received? ==> Full(e.frame))
    ensures AllRegular(Next(n, accept, e).0.receiver.states)
  {
    match e
    case Received(frame, time) => StepKeepsRegular(n.receiver, accept, frame, time);
    case CleanedUp(time) =>
      SurvivorsAreFresh(n.receiver.states, time);
      forall i | 0 <= i < |Survivors(n.receiver.states, time)| ensures Regular(Survivors(n.receiver.states, time)[i]) {
        assert Survivors(n.receiver.states, time)[i] in n.receiver.states;
      }
    case Enqueued =>
    case Dequeued =>
  }

  lemma RegularAsserts(s: RxView, frame: Frame, now: nat)
    requires frame.data != [] && Regular(s) && s.blocks < SAFE_POOL
    ensures ReceiveAsserts(s, frame, now)
  {
    NeverSixModuloSeven(s);
    AssertionsFailExactly(s, frame, now);
  }

  lemma RegularStepAsserts(m: Machine, frame: Frame, now: nat)
    requires AllRegular(m.states) && InUse(m) <= SAFE_POOL
    ensures StepAsserts(m, frame, now)
  {
    if Supported(frame) {
      var i := Find(m.states, DescriptorOf(frame.id.clean));
      if i < |m.states| {
        ChainFitsPool(m.states, i);
      }
      RegularAsserts(StateFor(m, frame), frame, now);
    }
  }

  /** In a pool of at most 37 blocks, no sequence of full frames, however lost, repeated or interleaved, and whatever is
      cleaned up or sent in between, fails an assertion. */
  lemma {:induction false} FullFramesAreSafe(n: Station, accept: Acceptor, events: seq<Event>)
    requires DistinctDescriptors(n.receiver.states) && AllRegular(n.receiver.states) && Blocks(n) <= SAFE_POOL
    requires forall e | e in events && e.Received? :: Full(e.frame)
    ensures RunAsserts(n, accept, events) && AllRegular(Run(n, accept, events).receiver.states)
    decreases |events|
  {
    if events != [] {
      var e := events[0];
      assert e in events;
      if e.Received? {
        RegularStepAsserts(n.receiver, e.frame, e.time);
      }
      NextKeepsRegular(n, accept, e);
      NextConserves(n, accept, e);
      FullFramesAreSafe(Next(n, accept, e).0, accept, events[1..]);
    }
  }

  // ---- Where the conditions end ----

  /** A state that is collecting transfer 0. */
  predicate Collecting(s: RxView, len: nat, blocks: nat, toggle: bool) {
    |s.stored| == len && s.blocks == blocks && s.nextToggle == toggle && s.transferId == 0 && s.timestamp == 1
  }

  /** A frame with n zero bytes before its tail. */
  function ZeroFrame(id: uint29, n: nat, start: bool, end: bool, toggle: bool): Frame {
    Frame(Id(id, true, false, false), seq(n, _ => 0) + [TailByte(start, end, toggle, 0)])
  }

  /** Its arrival at time 1. */
  function Arrives(id: uint29, n: nat, start: bool, end: bool, toggle: bool): Event {
    Received(ZeroFrame(id, n, start, end, toggle), 1)
  }

  predicate Wants(accept: Acceptor, id: uint29) {
    accept(ExtractDataType(id), ExtractTransferType(id), Source(id), ExtractDestination(id)).Some?
  }

  /** The receiver knows this transfer and no other. */
  predicate Alone(n: Station, id: uint29, len: nat, blocks: nat, toggle: bool) {
    var states := n.receiver.states;
    |states| == 1 && states[0].descriptor == DescriptorOf(id) && Collecting(states[0], len, blocks, toggle)
  }

  lemma CollectsFirst(s: RxView, free: nat, stats: Stats, id: uint29)
    requires s.stored == [] && s.blocks == 0 && s.timestamp == 0
    ensures var o := Receive(s, free, stats, ZeroFrame(id, 7, true, false, false), 1);
            Collecting(o.state, 5, 0, true) && o.free == free && o.state.descriptor == s.descriptor
  {
    TailByteFields(true, false, false, 0);
  }

  lemma CollectsMiddle(s: RxView, free: nat, stats: Stats, id: uint29, n: nat, len: nat, blocks: nat, toggle: bool)
    requires Collecting(s, len, blocks, toggle) && n <= 7 && BlocksAfter(len % 1024, blocks, n) <= blocks + free
    ensures var o := Receive(s, free, stats, ZeroFrame(id, n, false, false, toggle), 1);
            Collecting(o.state, len + n, BlocksAfter(len % 1024, blocks, n), !toggle) && o.state.descriptor == s.descriptor
  {
    TailByteFields(false, false, toggle, 0);
    assert Body(ZeroFrame(id, n, false, false, toggle)) == seq(n, _ => 0);
  }

  lemma AloneStarts(n: Station, accept: Acceptor, id: uint29)
    requires n.receiver.states == [] && n.receiver.free > 0 && Wants(accept, id)
    ensures var next := Next(n, accept, Arrives(id, 7, true, false, false)).0;
            Alone(next, id, 5, 0, true) && Blocks(next) == Blocks(n) && next.queued == n.queued
  {
    var f, d := ZeroFrame(id, 7, true, false, false), DescriptorOf(id);
    TailByteFields(true, false, false, 0);
    NextConserves(n, accept, Arrives(id, 7, true, false, false));
    var ready := Opened(n.receiver, d, Wanted(accept, f).value);
    CollectsFirst(ready.states[0], ready.free, ready.stats, id);
  }

  lemma AloneGrows(n: Station, accept: Acceptor, id: uint29, bytes: nat, len: nat, blocks: nat, toggle: bool)
    requires Alone(n, id, len, blocks, toggle) && bytes <= 7
    requires BlocksAfter(len % 1024, blocks, bytes) <= blocks + n.receiver.free
    ensures var next := Next(n, accept, Arrives(id, bytes, false, false, toggle)).0;
            && Alone(next, id, len + bytes, BlocksAfter(len % 1024, blocks, bytes), !toggle)
            && Blocks(next) == Blocks(n) && next.queued == n.queued
  {
    TailByteFields(false, false, toggle, 0);
    NextConserves(n, accept, Arrives(id, bytes, false, false, toggle));
    CollectsMiddle(n.receiver.states[0], n.receiver.free, n.receiver.stats, id, bytes, len, blocks, toggle);
  }

  /** The blocks of a station that knows one transfer. */
  lemma AloneBlocks(n: Station, id: uint29, len: nat, blocks: nat, toggle: bool)
    requires Alone(n, id, len, blocks, toggle)
    ensures Blocks(n) == n.receiver.free + 1 + blocks + n.queued
  {
    assert n.receiver.states[1..] == [];
    assert Held(n.receiver.states[1..]) == 0;
  }

  /** An end frame fails its assertion where the payload length does not fit the chain. */
  lemma {:induction false} EndFails(n: Station, accept: Acceptor, id: uint29, len: nat, blocks: nat, toggle: bool)
    requires Alone(n, id, len, blocks, toggle) && !EndAsserts(n.receiver.states[0])
    ensures !RunAsserts(n, accept, [Arrives(id, 1, false, true, toggle)])
  {
    TailByteFields(false, true, toggle, 0);
  }

  lemma {:induction false} FailsLater(n: Station, accept: Acceptor, e: Event, rest: seq<Event>)
    requires !RunAsserts(Next(n, accept, e).0, accept, rest)
    ensures !RunAsserts(n, accept, [e] + rest)
  {
    assert ([e] + rest)[1..] == rest;
  }

  lemma FitsFirstBlock(len: nat, n: nat, blocks: nat)
    requires blocks <= 1 && (blocks == 0 <==> len == 5) && 5 <= len && 1 <= n <= 7 && 6 < len + n <= 34
    ensures BlocksAfter(len % 1024, blocks, n) == 1
  {
    if blocks == 1 {
      BlockSplitOf(len - 6, 0, len - 6);
      BlockSplitOf(len + n - 6, if len + n < 34 then 0 else 1, if len + n < 34 then len + n - 6 else 0);
    }
  }

  /** Middle frames of the given sizes and an end frame. */
  function Short(id: uint29, sizes: seq<nat>, toggle: bool): seq<Event> {
    if sizes == [] then [Arrives(id, 1, false, true, toggle)]
    else [Arrives(id, sizes[0], false, false, toggle)] + Short(id, sizes[1..], !toggle)
  }

  /** If together they fill the head and one block exactly, the end frame fails its assertion. */
  lemma {:induction false} ShortFails(n: Station, accept: Acceptor, id: uint29, sizes: seq<nat>, len: nat, blocks: nat,
                                      toggle: bool)
    requires Alone(n, id, len, blocks, toggle) && Blocks(n) == 3 && n.queued == 0 && blocks <= 1 && (blocks == 0 <==> len == 5)
    requires 5 <= len && len + Sum(sizes) == 34 && forall i | 0 <= i < |sizes| :: 2 <= sizes[i] <= 7
    ensures !RunAsserts(n, accept, Short(id, sizes, toggle))
    decreases |sizes|
  {
    AloneBlocks(n, id, len, blocks, toggle);
    if sizes == [] {
      EndFails(n, accept, id, len, blocks, toggle);
    } else {
      var e := Arrives(id, sizes[0], false, false, toggle);
      FitsFirstBlock(len, sizes[0], blocks);
      AloneGrows(n, accept, id, sizes[0], len, blocks, toggle);
      ShortFails(Next(n, accept, e).0, accept, id, sizes[1..], len + sizes[0], 1, !toggle);
      FailsLater(n, accept, e, Short(id, sizes[1..], !toggle));
    }
  }

  function Sum(sizes: seq<nat>): nat {
    if sizes == [] then 0 else sizes[0] + Sum(sizes[1..])
  }

  /** A start frame, five middle frames of 7, 7, 7, 6 and 2 bytes, and an end frame. */
  function PartialFrames(id: uint29): seq<Event> {
    [Arrives(id, 7, true, false, false)] + Short(id, [7, 7, 7, 6, 2], true)
  }

  /** Without full frames the assertion of the end frame can fail, in a pool of three blocks already. */
  lemma {:induction false} PartialFramesFail(accept: Acceptor, id: uint29, stats: Stats)
    requires Wants(accept, id)
    ensures !RunAsserts(Station(Machine(3, [], stats), 0), accept, PartialFrames(id))
  {
    var n, e := Station(Machine(3, [], stats), 0), Arrives(id, 7, true, false, false);
    AloneStarts(n, accept, id);
    assert Sum([7, 7, 7, 6, 2]) == 29 by {
      assert [7, 7, 7, 6, 2][1..] == [7, 7, 6, 2] && [7, 7, 6, 2][1..] == [7, 6, 2] && [7, 6, 2][1..] == [6, 2];
      assert [6, 2][1..] == [2] && Sum([2]) == 2;
    }
    ShortFails(Next(n, accept, e).0, accept, id, [7, 7, 7, 6, 2], 5, 0, true);
    FailsLater(n, accept, e, Short(id, [7, 7, 7, 6, 2], true));
  }

  /** Full middle frames from number j to 146, and an end frame. */
  function Overlong(id: uint29, j: nat, toggle: bool): seq<Event>
    requires j <= 147
    decreases 147 - j
  {
    if j == 147 then [Arrives(id, 1, false, true, toggle)] else [Arrives(id, 7, false, false, toggle)] + Overlong(id, j + 1, !toggle)
  }

  lemma WrapBlocks()
    ensures BlocksAfter(1027 % 1024, 37, 7) == 37
  {
    BlockSplitOf(Unsigned(3 - 6), 153391689, 1);
    BlockSplitOf(4, 0, 4);
  }

  lemma SevenMore(len: nat, blocks: nat)
    requires RegularAt(len, blocks) && len <= 1020
    ensures RegularAt(len + 7, BlocksAfter(len % 1024, blocks, 7)) && BlocksAfter(len % 1024, blocks, 7) <= 37
  {
    PushKeepsRegular(len, blocks, 7);
  }

  /** The last of them makes the payload length wrap to 10, while 37 blocks are chained. */
  lemma {:induction false} WrapFails(n: Station, accept: Acceptor, id: uint29, toggle: bool)
    requires Alone(n, id, 1027, 37, toggle)
    ensures !RunAsserts(n, accept, Overlong(id, 146, toggle))
  {
    var e := Arrives(id, 7, false, false, toggle);
    WrapBlocks();
    AloneGrows(n, accept, id, 7, 1027, 37, toggle);
    EndFails(Next(n, accept, e).0, accept, id, 1034, 37, !toggle);
    FailsLater(n, accept, e, Overlong(id, 147, !toggle));
  }

  lemma {:induction false} OverlongFails(n: Station, accept: Acceptor, id: uint29, j: nat, blocks: nat, toggle: bool)
    requires j <= 146 && Alone(n, id, 5 + 7 * j, blocks, toggle) && RegularAt(5 + 7 * j, blocks)
    requires Blocks(n) == SAFE_POOL + 1 && n.queued == 0
    ensures !RunAsserts(n, accept, Overlong(id, j, toggle))
    decreases 146 - j
  {
    var len := 5 + 7 * j;
    if j == 146 {
      WrapFails(n, accept, id, toggle);
    } else {
      var e := Arrives(id, 7, false, false, toggle);
      AloneBlocks(n, id, len, blocks, toggle);
      SevenMore(len, blocks);
      AloneGrows(n, accept, id, 7, len, blocks, toggle);
      OverlongFails(Next(n, accept, e).0, accept, id, j + 1, BlocksAfter(len % 1024, blocks, 7), !toggle);
      FailsLater(n, accept, e, Overlong(id, j + 1, !toggle));
    }
  }

  lemma {:induction false} OverlongIsFull(id: uint29, j: nat, toggle: bool)
    requires j <= 147
    ensures forall e | e in Overlong(id, j, toggle) :: e.Received? && Full(e.frame)
    decreases 147 - j
  {
    TailByteFields(false, j == 147, toggle, 0);
    if j < 147 {
      OverlongIsFull(id, j + 1, !toggle);
    }
  }

  /** 37 blocks are the most: in a pool of 38, these full frames make an assertion fail. */
  lemma SafePoolIsSharp(accept: Acceptor, id: uint29, stats: Stats)
    requires Wants(accept, id)
    ensures forall e | e in OverlongTransfer(id) :: e.Received? && Full(e.frame)
    ensures !RunAsserts(Station(Machine(SAFE_POOL + 1, [], stats), 0), accept, OverlongTransfer(id))
  {
    var n, e := Station(Machine(SAFE_POOL + 1, [], stats), 0), Arrives(id, 7, true, false, false);
    AloneStarts(n, accept, id);
    OverlongFails(Next(n, accept, e).0, accept, id, 0, 0, true);
    FailsLater(n, accept, e, Overlong(id, 0, true));
    OverlongIsFull(id, 0, true);
  }

  /** A start frame, 147 middle frames and an end frame. */
  function OverlongTransfer(id: uint29): seq<Event> {
    [Arrives(id, 7, true, false, false)] + Overlong(id, 0, true)
  }
}
