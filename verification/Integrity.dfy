/** What the checksum of a transfer guarantees over whole runs, and what it does not: a frame that comes where the receiver
    does not look at the beginning of a transfer. */
module Integrity {
  import opened Wrappers
  import opened Bits
  import opened CanId
  import opened Frames
  import opened Reassembly
  import opened Runs
  import opened Traffic
  import opened EndToEnd
  import opened Restarts
  import Crc = TransferCrc
  import Crc16
  import Transfer

  /** A frame that begins a transfer of several frames the application wants. */
  predicate Opens(accept: Acceptor, frame: Frame) {
    Supported(frame) && IsStart(Tail(frame)) && !IsEnd(Tail(frame)) && Wanted(accept, frame).Some?
  }

  /** The last such frame with this descriptor. */
  function LastOpening(accept: Acceptor, events: seq<Event>, d: nat): (o: Option<Frame>)
    ensures o.Some? ==> Opens(accept, o.value) && DescriptorOf(o.value.id.clean) == d
    decreases |events|
  {
    if events == [] then None
    else
      var e := events[|events| - 1];
      if e.Received? && Opens(accept, e.frame) && DescriptorOf(e.frame.id.clean) == d then Some(e.frame)
      else LastOpening(accept, events[..|events| - 1], d)
  }

  /** The checksum a first frame carries. */
  function Carried(frame: Frame): bv16
    requires |frame.data| >= 2
  {
    (frame.data[0] as bv16) | ((frame.data[1] as bv16) << 8)
  }

  /** What the state has stored began with this frame: its number, its checksum, and the register over what is stored. */
  predicate Sound(s: RxView, accept: Acceptor, o: Option<Frame>)
    requires o.Some? ==> Opens(accept, o.value)
  {
    s.stored != [] ==>
      && o.Some? && |o.value.data| > 3 && s.transferId == TransferId(Tail(o.value)) && s.payloadCrc == Carried(o.value)
      && s.calculatedCrc == Crc.Add(Seed(accept, o.value), s.stored)
  }

  /** A frame that comes where the receiver does not look at the beginning of a transfer: a first frame that does not throw
      away what is stored, or a later frame that fits although nothing is stored. */
  predicate Misplaced(s: RxView, accept: Acceptor, frame: Frame, now: nat)
    requires frame.data != []
  {
    var tail := Tail(frame);
    if IsStart(tail) then Opens(accept, frame) && s.stored != [] && !NeedsRestart(s, tail, now)
    else s.stored == [] && !NeedsRestart(s, tail, now) && IsToggled(tail) == s.nextToggle && TransferId(tail) == s.transferId
  }

  // ---- One state ----

  lemma {:induction false} StoredKeeps(s: RxView, free: nat, stats: Stats, bytes: seq<byte>)
    ensures var o := Store(s, free, stats, bytes);
            && o.delivery == None
            && (o.state.stored == [] ||
                o.state == s.(stored := s.stored + bytes, blocks := o.state.blocks, nextToggle := !s.nextToggle,
                              calculatedCrc := Crc.Add(s.calculatedCrc, bytes)))
  {
  }

  lemma {:induction false} OpeningIsSound(s: RxView, free: nat, stats: Stats, accept: Acceptor, frame: Frame, now: nat)
    requires Opens(accept, frame) && s.calculatedCrc == Seed(accept, frame) && s.stored == []
    ensures var o := ReceivePart(s, free, stats, frame, now); o.delivery == None && Sound(o.state, accept, Some(frame))
  {
    if |frame.data| > 3 {
      var bytes := Body(frame)[2..];
      StoredKeeps(s.(timestamp := now), free, stats, bytes);
      assert [] + bytes == bytes;
    }
  }

  lemma {:induction false} StartIsSound(s: RxView, free: nat, stats: Stats, accept: Acceptor, frame: Frame, now: nat)
    requires Opens(accept, frame) && s.calculatedCrc == Seed(accept, frame) && !Misplaced(s, accept, frame, now)
    ensures var o := Receive(s, free, stats, frame, now); o.delivery == None && Sound(o.state, accept, Some(frame))
  {
    var r := Restarted(s, Tail(frame), now);
    OpeningIsSound(r, free + s.blocks - r.blocks, stats, accept, frame, now);
  }

  lemma {:induction false} SingleIsSound(s: RxView, free: nat, stats: Stats, frame: Frame, now: nat)
    requires frame.data != [] && IsStart(Tail(frame)) && IsEnd(Tail(frame))
    ensures Receive(s, free, stats, frame, now).state.stored == []
  {
  }

  lemma {:induction false} MiddleIsSound(s: RxView, free: nat, stats: Stats, accept: Acceptor, bytes: seq<byte>, o: Frame)
    requires Opens(accept, o) && s.stored != [] && Sound(s, accept, Some(o))
    ensures Sound(Store(s, free, stats, bytes).state, accept, Some(o))
  {
    StoredKeeps(s, free, stats, bytes);
    Crc.AddConcat(Seed(accept, o), s.stored, bytes);
  }

  /** A later frame. */
  lemma {:induction false} FollowingIsSound(s: RxView, free: nat, stats: Stats, accept: Acceptor, frame: Frame, now: nat,
                                            o: Option<Frame>)
    requires frame.data != [] && !IsStart(Tail(frame)) && !Misplaced(s, accept, frame, now)
    requires o.Some? ==> Opens(accept, o.value)
    requires Sound(s, accept, o)
    ensures Sound(Receive(s, free, stats, frame, now).state, accept, o)
  {
    if !NeedsRestart(s, Tail(frame), now) && s.stored != [] {
      MiddleIsSound(s, free, stats, accept, Body(frame), o.value);
    }
  }

  lemma {:induction false} StartPartIsSilent(s: RxView, free: nat, stats: Stats, frame: Frame, now: nat)
    requires frame.data != [] && IsStart(Tail(frame))
    ensures ReceivePart(s, free, stats, frame, now).delivery == None
  {
  }

  lemma {:induction false} StartDeliversNothing(s: RxView, free: nat, stats: Stats, frame: Frame, now: nat)
    requires frame.data != [] && IsStart(Tail(frame)) && !IsEnd(Tail(frame))
    ensures Receive(s, free, stats, frame, now).delivery == None
  {
    var r := Restarted(s, Tail(frame), now);
    StartPartIsSilent(r, free + s.blocks - r.blocks, stats, frame, now);
  }

  /** What a later frame delivers, and when. */
  lemma {:induction false} FollowingDelivers(s: RxView, free: nat, stats: Stats, frame: Frame, now: nat)
    requires frame.data != [] && !(IsStart(Tail(frame)) && IsEnd(Tail(frame)))
    requires Receive(s, free, stats, frame, now).delivery.Some?
    ensures !IsStart(Tail(frame)) && !NeedsRestart(s, Tail(frame), now)
    ensures IsToggled(Tail(frame)) == s.nextToggle && TransferId(Tail(frame)) == s.transferId
    ensures Receive(s, free, stats, frame, now).delivery == Some(MakeDelivery(frame, now, s.stored + Body(frame)))
    ensures Crc.Add(s.calculatedCrc, Body(frame)) == s.payloadCrc
  {
    if IsStart(Tail(frame)) {
      StartDeliversNothing(s, free, stats, frame, now);
    }
  }

  /** The payload of a delivery has the checksum the state keeps exactly if the register is the one of what was stored. */
  lemma {:induction false} CheckedExactly(s: RxView, free: nat, stats: Stats, frame: Frame, now: nat, seed: bv16)
    requires frame.data != [] && !(IsStart(Tail(frame)) && IsEnd(Tail(frame)))
    requires Receive(s, free, stats, frame, now).delivery.Some?
    ensures Crc.Add(seed, Receive(s, free, stats, frame, now).delivery.value.payload) == s.payloadCrc <==>
            s.calculatedCrc == Crc.Add(seed, s.stored)
  {
    FollowingDelivers(s, free, stats, frame, now);
    Crc.AddConcat(seed, s.stored, Body(frame));
    Crc.RegistersAgree(s.calculatedCrc, Crc.Add(seed, s.stored), Body(frame));
  }

  // ---- Runs ----

  /** The state of this descriptor, if there is one, is sound for the events so far. */
  predicate SoundAt(m: Machine, accept: Acceptor, events: seq<Event>, d: nat) {
    Project(m, d).Some? ==> Sound(Project(m, d).value, accept, LastOpening(accept, events, d))
  }

  predicate MisplacedIn(m: Machine, accept: Acceptor, e: Event, d: nat) {
    Concerns(e, d) && Project(m, d).Some? && Misplaced(Project(m, d).value, accept, e.frame, e.time)
  }

  lemma {:induction false} OpeningMore(accept: Acceptor, events: seq<Event>, e: Event, d: nat)
    ensures LastOpening(accept, events + [e], d) ==
            if Concerns(e, d) && Opens(accept, e.frame) then Some(e.frame) else LastOpening(accept, events, d)
  {
    assert (events + [e])[..|events|] == events;
  }

  /** A wanted start frame, whether its state is there or not. */
  lemma StartsAt(m: Machine, accept: Acceptor, frame: Frame, now: nat) returns (s: RxView, free: nat)
    requires Supported(frame) && IsStart(Tail(frame)) && Wanted(accept, frame).Some?
    requires Project(m, DescriptorOf(frame.id.clean)).None? ==> m.free > 0
    ensures var p := Project(m, DescriptorOf(frame.id.clean));
            s == (if p.Some? then p.value else Fresh(DescriptorOf(frame.id.clean))).(calculatedCrc := Seed(accept, frame))
    ensures var o := Receive(s, free, m.stats, frame, now);
            var (next, delivery) := Step(m, accept, frame, now);
            Project(next, DescriptorOf(frame.id.clean)) == Some(o.state) && delivery == o.delivery
  {
    var d := DescriptorOf(frame.id.clean);
    OpenedHere(m, d, Wanted(accept, frame).value);
    var ready := Opened(m, d, Wanted(accept, frame).value);
    ApplyHere(ready, frame, now, d);
    s, free := Project(ready, d).value, ready.free;
  }

  lemma {:induction false} FrameKeepsSound(m: Machine, accept: Acceptor, frame: Frame, now: nat, o: Option<Frame>)
    requires Supported(frame) && (o.Some? ==> Opens(accept, o.value))
    requires var p := Project(m, DescriptorOf(frame.id.clean));
             p.Some? ==> Sound(p.value, accept, o) && !Misplaced(p.value, accept, frame, now)
    ensures var p := Project(Step(m, accept, frame, now).0, DescriptorOf(frame.id.clean));
            p.Some? ==> Sound(p.value, accept, if Opens(accept, frame) then Some(frame) else o)
  {
    var d := DescriptorOf(frame.id.clean);
    if !IsStart(Tail(frame)) {
      if Project(m, d).Some? {
        FollowsIn(m, accept, frame, now);
        FollowingIsSound(Project(m, d).value, m.free, m.stats, accept, frame, now, o);
      }
    } else if Wanted(accept, frame).Some? && (Project(m, d).Some? || m.free > 0) {
      var s, free := StartsAt(m, accept, frame, now);
      if IsEnd(Tail(frame)) {
        SingleIsSound(s, free, m.stats, frame, now);
      } else {
        StartIsSound(s, free, m.stats, accept, frame, now);
      }
    }
  }

  lemma {:induction false} EventKeepsSound(n: Station, accept: Acceptor, events: seq<Event>, e: Event, d: nat)
    requires DistinctDescriptors(n.receiver.states) && SoundAt(n.receiver, accept, events, d)
    requires !MisplacedIn(n.receiver, accept, e, d)
    ensures SoundAt(Next(n, accept, e).0.receiver, accept, events + [e], d)
  {
    OpeningMore(accept, events, e, d);
    if Concerns(e, d) {
      FrameKeepsSound(n.receiver, accept, e.frame, e.time, LastOpening(accept, events, d));
    } else {
      OthersDoNotInterfere(n, accept, e, d);
    }
  }

  /** No event of the run up to and with number j is misplaced. */
  ghost predicate InPlace(n: Station, accept: Acceptor, events: seq<Event>, j: nat, d: nat)
    requires j <= |events|
  {
    forall i | 0 <= i < j :: !MisplacedIn(Run(n, accept, events[..i]).receiver, accept, events[i], d)
  }

  lemma {:induction false} RunKeepsSound(n: Station, accept: Acceptor, events: seq<Event>, j: nat, d: nat)
    requires DistinctDescriptors(n.receiver.states) && SoundAt(n.receiver, accept, [], d)
    requires j <= |events| && InPlace(n, accept, events, j, d)
    ensures SoundAt(Run(n, accept, events[..j]).receiver, accept, events[..j], d)
    ensures DistinctDescriptors(Run(n, accept, events[..j]).receiver.states)
    decreases j
  {
    if j > 0 {
      var before := events[..j - 1];
      RunKeepsSound(n, accept, events, j - 1, d);
      assert !MisplacedIn(Run(n, accept, before).receiver, accept, events[j - 1], d);
      EventKeepsSound(Run(n, accept, before), accept, before, events[j - 1], d);
      NextConserves(Run(n, accept, before), accept, events[j - 1]);
      OutputAt(Stepping(accept), n, events, j - 1);
      assert events[..j] == before + [events[j - 1]];
    } else {
      assert events[..0] == [];
    }
  }

  /** What a frame delivers that is not a whole transfer has the checksum that the first frame of its transfer carried. */
  lemma {:induction false} FrameIsChecked(m: Machine, accept: Acceptor, frame: Frame, now: nat, o: Option<Frame>)
    requires Step(m, accept, frame, now).1.Some? && (o.Some? ==> Opens(accept, o.value))
    requires Supported(frame) ==>
               && !(IsStart(Tail(frame)) && IsEnd(Tail(frame)))
               && var p := Project(m, DescriptorOf(frame.id.clean));
                  p.Some? ==> Sound(p.value, accept, o) && !Misplaced(p.value, accept, frame, now)
    ensures var t := Step(m, accept, frame, now).1.value;
            && o.Some? && |o.value.data| > 3 && t.transferId == TransferId(Tail(o.value))
            && Crc.Add(Seed(accept, o.value), t.payload) == Carried(o.value)
  {
    var d := DescriptorOf(frame.id.clean);
    if IsStart(Tail(frame)) {
      var s, free := StartsAt(m, accept, frame, now);
      FollowingDelivers(s, free, m.stats, frame, now);
      assert false;
    } else {
      var s := Project(m, d).value;
      FollowsIn(m, accept, frame, now);
      FollowingDelivers(s, m.free, m.stats, frame, now);
      assert s.stored != [];
      CheckedExactly(s, m.free, m.stats, frame, now, Seed(accept, o.value));
    }
  }

  /** Over every run: if the state of a descriptor starts empty and no frame of it is misplaced, then whatever is delivered
      of it, and did not come in one frame, has the checksum that the last first frame before it carried, seeded with
      the signature of its type, and the same transfer number. */
  lemma {:induction false} DeliveredIsChecked(n: Station, accept: Acceptor, events: seq<Event>, j: nat, d: nat)
    requires DistinctDescriptors(n.receiver.states)
    requires Project(n.receiver, d).Some? ==> Project(n.receiver, d).value.stored == []
    requires j < |events| && InPlace(n, accept, events, j + 1, d)
    requires Concerns(events[j], d) && !(IsStart(Tail(events[j].frame)) && IsEnd(Tail(events[j].frame)))
    requires Deliveries(n, accept, events)[j].Some?
    ensures var o, t := LastOpening(accept, events[..j], d), Deliveries(n, accept, events)[j].value;
            && o.Some? && |o.value.data| > 3 && t.transferId == TransferId(Tail(o.value))
            && Crc.Add(Crc.AddSignature(0xFFFF, Wanted(accept, o.value).value), t.payload) ==
               (o.value.data[0] as bv16) | ((o.value.data[1] as bv16) << 8)
  {
    var m := Run(n, accept, events[..j]).receiver;
    RunKeepsSound(n, accept, events, j, d);
    OutputAt(Stepping(accept), n, events, j);
    assert !MisplacedIn(m, accept, events[j], d);
    FrameIsChecked(m, accept, events[j].frame, events[j].time, LastOpening(accept, events[..j], d));
  }

  // ---- What a misplaced frame does ----

  /** An empty state that is still within its two seconds: an end frame with a number and a toggle bit that fit delivers its
      bytes as a transfer exactly if they lead from the register of the last transfer to its checksum. Nothing began this
      transfer. */
  lemma {:induction false} OrphanIsDelivered(m: Machine, accept: Acceptor, frame: Frame, now: nat)
    requires Supported(frame) && !IsStart(Tail(frame)) && IsEnd(Tail(frame))
    requires Project(m, DescriptorOf(frame.id.clean)).Some?
    requires var s := Project(m, DescriptorOf(frame.id.clean)).value;
             Fresher(s, now) && s.stored == [] && IsToggled(Tail(frame)) == s.nextToggle && TransferId(Tail(frame)) == s.transferId
    ensures var s := Project(m, DescriptorOf(frame.id.clean)).value;
            Step(m, accept, frame, now).1 ==
            if Crc.Add(s.calculatedCrc, Body(frame)) == s.payloadCrc then Some(MakeDelivery(frame, now, Body(frame))) else None
  {
    FollowsIn(m, accept, frame, now);
    assert [] + Body(frame) == Body(frame);
  }

  /** Two such bytes there are for every state. */
  lemma {:induction false} OrphanExists(m: Machine, accept: Acceptor, id: Id, now: nat, d: nat)
    requires id.extended && !id.remote && !id.error && DescriptorOf(id.clean) == d && Project(m, d).Some?
    requires var s := Project(m, d).value; Fresher(s, now) && s.stored == [] && s.transferId < 32
    ensures var s := Project(m, d).value;
            var frame := Frame(id, Crc16.Between(s.calculatedCrc, s.payloadCrc)
                                   + [TailByte(false, true, s.nextToggle, s.transferId)]);
            && Step(m, accept, frame, now).1.Some?
            && Step(m, accept, frame, now).1.value.payload == Crc16.Between(s.calculatedCrc, s.payloadCrc)
  {
    var s := Project(m, d).value;
    var bytes, tail := Crc16.Between(s.calculatedCrc, s.payloadCrc), TailByte(false, true, s.nextToggle, s.transferId);
    Crc16.TwoBytesReach(s.calculatedCrc, s.payloadCrc);
    TailByteFields(false, true, s.nextToggle, s.transferId);
    SmallId(s.transferId);
    OrphanIsDelivered(m, accept, Frame(id, bytes + [tail]), now);
    assert Body(Frame(id, bytes + [tail])) == bytes;
  }

  lemma SmallId(t: byte)
    requires t < 32
    ensures t & 0x1F == t
  {
  }

  /** After a first frame that was misplaced and refused, the register no longer is the one of what is stored, unless what is
      stored leaves it where it was. Then the next end frame that is delivered is not checked. */
  lemma {:induction false} MisplacedFirst(m: Machine, accept: Acceptor, frame: Frame, now: nat, end: Frame, later: nat)
    requires IsFirst(accept, frame) && Project(m, DescriptorOf(frame.id.clean)).Some?
    requires var s := Project(m, DescriptorOf(frame.id.clean)).value;
             && s.transferId < 32 && !Anew(s, frame, now) && s.nextToggle
             && Step(Step(m, accept, frame, now).0, accept, end, later).1.Some?
    requires Supported(end) && !IsStart(Tail(end)) && DescriptorOf(end.id.clean) == DescriptorOf(frame.id.clean)
    ensures var s := Project(m, DescriptorOf(frame.id.clean)).value;
            var t := Step(Step(m, accept, frame, now).0, accept, end, later).1.value;
            && t.payload == s.stored + Body(end)
            && (Crc.Add(Seed(accept, frame), t.payload) == s.payloadCrc <==>
                Crc.Add(Seed(accept, frame), s.stored) == Seed(accept, frame))
  {
    var s, next := Project(m, DescriptorOf(frame.id.clean)).value, Step(m, accept, frame, now).0;
    var r := s.(calculatedCrc := Seed(accept, frame));
    FirstIsRefused(m, accept, frame, now);
    FollowsIn(next, accept, end, later);
    FollowingDelivers(r, next.free, next.stats, end, later);
    CheckedExactly(r, next.free, next.stats, end, later, Seed(accept, frame));
  }

  // ---- Inputs that show it ----

  lemma ThreeOutputs(n: Station, accept: Acceptor, a: Event, b: Event, c: Event)
    ensures var n1 := Next(n, accept, a).0;
            var n2 := Next(n1, accept, b).0;
            Deliveries(n, accept, [a, b, c]) == [Next(n, accept, a).1, Next(n1, accept, b).1, Next(n2, accept, c).1]
  {
    var step, n1 := Stepping(accept), Next(n, accept, a).0;
    var n2 := Next(n1, accept, b).0;
    assert [a, b, c][1..] == [b, c] && [b, c][1..] == [c] && [c][1..] == [];
    assert AllOutputs(step, n2, [c]) == [Next(n2, accept, c).1];
    assert AllOutputs(step, n1, [b, c]) == [Next(n1, accept, b).1] + AllOutputs(step, n2, [c]);
  }

  /** An end frame without payload. */
  function Orphan(x: Sending): Frame {
    Frame(x.id, [TailByte(false, true, false, NextTransferId(x.transferId))])
  }

  lemma OrphanTail(x: Sending)
    ensures var t := Tail(Orphan(x));
            !IsStart(t) && IsEnd(t) && !IsToggled(t) && TransferId(t) == NextTransferId(x.transferId)
    ensures x.Valid() ==> NextTransferId(x.transferId) != x.transferId
  {
    TailByteFields(false, true, false, NextTransferId(x.transferId));
    NextIsMasked(x.transferId);
  }

  lemma NextIsMasked(t: byte)
    ensures NextTransferId(t) & 0x1F == NextTransferId(t) && NextTransferId(t) != t
  {
  }

  /** Any transfer of two frames, to a receiver that has no state for it, and then an end frame without payload: the
      receiver reports the transfer, and after it an empty one that nobody began. */
  lemma {:induction false} OrphanRun(n: Station, accept: Acceptor, x: Sending, t0: nat, t1: nat, t2: nat)
    requires x.Valid() && x.Intact() && x.Count() == 2 && Accepts(accept, x)
    requires Project(n.receiver, x.Descriptor()).None? && n.receiver.free > 0 && 0 < t0 && InTime(t0, t1) && InTime(t0, t2)
    ensures var bus := [Received(x.Frames()[0], t0), Received(x.Frames()[1], t1), Received(Orphan(x), t2)];
            var ds := Deliveries(n, accept, bus);
            && ds[0] == None && ds[1] == Some(Expected(x, t1))
            && ds[2].Some? && ds[2].value.payload == [] && ds[2].value.transferId == NextTransferId(x.transferId) != x.transferId
  {
    var d, m0 := x.Descriptor(), n.receiver;
    var s, free, stats := StepStarts(m0, accept, x, t0);
    FirstFrame(s, free, stats, x, t0);
    var m1 := Step(m0, accept, x.Frames()[0], t0).0;
    var s1 := Project(m1, d).value;
    StepContinues(m1, accept, x, 1, t1);
    LastFrame(s1, m1.free, m1.stats, x, t0, t1);
    var m2 := Step(m1, accept, x.Frames()[1], t1).0;
    OrphanTail(x);
    OrphanIsDelivered(m2, accept, Orphan(x), t2);
    assert Body(Orphan(x)) == [];
    ThreeOutputs(n, accept, Received(x.Frames()[0], t0), Received(x.Frames()[1], t1), Received(Orphan(x), t2));
  }

  /** A first frame with a checksum for other bytes than it begins with, and an end frame with those bytes. */
  function Opener(id: Id, transferId: byte, carried: bv16, z: seq<byte>): Frame {
    Frame(id, [(carried & 0xFF) as bv8, (carried >> 8) as bv8] + z + [TailByte(true, false, false, transferId)])
  }

  function Closer(id: Id, transferId: byte, bytes: seq<byte>): Frame {
    Frame(id, bytes + [TailByte(false, true, true, transferId)])
  }

  lemma OpenerIsFirst(accept: Acceptor, id: Id, transferId: byte, carried: bv16, z: seq<byte>)
    requires id.extended && !id.remote && !id.error && transferId & 0x1F == transferId && 1 <= |z| <= 5
    requires Wanted(accept, Opener(id, transferId, carried, z)).Some?
    ensures var f := Opener(id, transferId, carried, z);
            && IsFirst(accept, f) && FirstBytes(f) == z && TransferId(Tail(f)) == transferId
            && f.data[0] == (carried & 0xFF) as bv8 && f.data[1] == (carried >> 8) as bv8
  {
    TailByteFields(true, false, false, transferId);
  }

  lemma SameBytes(c: bv16, d: bv16)
    requires (c & 0xFF) as bv8 == (d & 0xFF) as bv8 && (c >> 8) as bv8 == (d >> 8) as bv8
    ensures c == d
  {
  }

  lemma BelowThirtyTwo(t: byte)
    requires t & 0x1F == t
    ensures t < 32
  {
  }

  /** A first frame in a receiver that has no state for it. */
  lemma {:induction false} NewFirstFrame(m: Machine, accept: Acceptor, frame: Frame, now: nat)
    requires IsFirst(accept, frame) && Project(m, DescriptorOf(frame.id.clean)).None? && m.free > 0
    ensures var (next, delivery) := Step(m, accept, frame, now);
            && Project(next, DescriptorOf(frame.id.clean)).Some? && delivery == None
            && Begun(Project(next, DescriptorOf(frame.id.clean)).value, accept, frame, now)
  {
    var s, free := StartsAt(m, accept, frame, now);
    AnewBegins(s, free, m.stats, accept, frame, now);
  }

  predicate Awaits(s: RxView, z: seq<byte>, carried: bv16, transferId: byte, t0: nat) {
    && s.stored == z && s.blocks == 0 && s.timestamp == t0 && s.nextToggle && s.transferId == transferId
    && s.payloadCrc == carried
  }

  lemma {:induction false} BegunAwaits(s: RxView, accept: Acceptor, first: Frame, carried: bv16, now: nat)
    requires IsFirst(accept, first) && Begun(s, accept, first, now)
    requires first.data[0] == (carried & 0xFF) as bv8 && first.data[1] == (carried >> 8) as bv8
    ensures Awaits(s, FirstBytes(first), carried, TransferId(Tail(first)), now)
  {
    SameBytes(s.payloadCrc, carried);
  }

  lemma {:induction false} AgainThenEnd(m: Machine, accept: Acceptor, id: Id, transferId: byte, first: Frame, bytes: seq<byte>,
                                        z: seq<byte>, carried: bv16, t0: nat, t1: nat, t2: nat)
    requires id.extended && !id.remote && !id.error && transferId & 0x1F == transferId
    requires IsFirst(accept, first) && first.id == id && TransferId(Tail(first)) == transferId
    requires carried == Crc.Add(Seed(accept, first), bytes)
    requires Project(m, DescriptorOf(id.clean)).Some? && 0 < t0 && InTime(t0, t1) && InTime(t0, t2)
    requires Awaits(Project(m, DescriptorOf(id.clean)).value, z, carried, transferId, t0)
    ensures var (next, delivery) := Step(m, accept, first, t1);
            var last := Step(next, accept, Closer(id, transferId, bytes), t2).1;
            && delivery == None && last.Some? && last.value.payload == z + bytes
            && (Crc.Add(Seed(accept, first), last.value.payload) == carried <==>
                Crc.Add(Seed(accept, first), z) == Seed(accept, first))
  {
    BelowThirtyTwo(transferId);
    FirstIsRefused(m, accept, first, t1);
    EndOfRepeat(Step(m, accept, first, t1).0, accept, id, transferId, bytes, t2);
    MisplacedFirst(m, accept, first, t1, Closer(id, transferId, bytes), t2);
  }

  /** The first frame of a transfer comes twice, then its end: a payload is reported that the carried checksum is not the one
      of, unless the bytes of the first frame leave the register where it was. */
  lemma {:induction false} RepeatRun(n: Station, accept: Acceptor, id: Id, transferId: byte, signature: bv64, carried: bv16,
                                     z: seq<byte>, bytes: seq<byte>, t0: nat, t1: nat, t2: nat)
    requires id.extended && !id.remote && !id.error && transferId & 0x1F == transferId && 1 <= |z| <= 5
    requires Project(n.receiver, DescriptorOf(id.clean)).None? && n.receiver.free > 0
    requires 0 < t0 && InTime(t0, t1) && InTime(t0, t2)
    requires carried == Crc.Add(Crc.AddSignature(0xFFFF, signature), bytes)
    requires Wanted(accept, Opener(id, transferId, carried, z)) == Some(signature)
    ensures var seed := Crc.AddSignature(0xFFFF, signature);
            var first, end := Opener(id, transferId, carried, z), Closer(id, transferId, bytes);
            var ds := Deliveries(n, accept, [Received(first, t0), Received(first, t1), Received(end, t2)]);
            && ds[0] == None && ds[1] == None && ds[2].Some? && ds[2].value.payload == z + bytes
            && (Crc.Add(seed, ds[2].value.payload) == carried <==> Crc.Add(seed, z) == seed)
  {
    var first, end := Opener(id, transferId, carried, z), Closer(id, transferId, bytes);
    OpenerIsFirst(accept, id, transferId, carried, z);
    NewFirstFrame(n.receiver, accept, first, t0);
    BegunAwaits(Project(Step(n.receiver, accept, first, t0).0, DescriptorOf(id.clean)).value, accept, first, carried, t0);
    AgainThenEnd(Step(n.receiver, accept, first, t0).0, accept, id, transferId, first, bytes, z, carried, t0, t1, t2);
    ThreeOutputs(n, accept, Received(first, t0), Received(first, t1), Received(end, t2));
  }

  lemma {:induction false} EndOfRepeat(m: Machine, accept: Acceptor, id: Id, transferId: byte, bytes: seq<byte>, now: nat)
    requires id.extended && !id.remote && !id.error && transferId & 0x1F == transferId
    requires Project(m, DescriptorOf(id.clean)).Some?
    requires var s := Project(m, DescriptorOf(id.clean)).value;
             Fresher(s, now) && s.nextToggle && s.transferId == transferId && Crc.Add(s.calculatedCrc, bytes) == s.payloadCrc
    ensures var end := Closer(id, transferId, bytes);
            Supported(end) && !IsStart(Tail(end)) && Body(end) == bytes && Step(m, accept, end, now).1.Some?
  {
    var end := Closer(id, transferId, bytes);
    TailByteFields(false, true, true, transferId);
    assert Body(end) == bytes;
    FollowsIn(m, accept, end, now);
  }

  // With signature 0 the register starts at the checksum of eight zero bytes; a zero byte more moves it.

  function Zero(c: bv16): bv16 { Crc.AddByte(c, 0) }

  lemma ZeroIs(c: bv16)
    ensures Zero(c) == Crc16.Eight(c)
  {
    assert Crc.WithByte(c, 0) == c;
    Crc16.IterIsEight(c);
  }

  lemma FirstZeros()
    ensures Zero(0xFFFF) == 0xE1F0
    ensures Zero(0xE1F0) == 0x1D0F
    ensures Zero(0x1D0F) == 0xCC9C
    ensures Zero(0xCC9C) == 0x84C0
  {
    ZeroIs(0xFFFF);
    ZeroIs(0xE1F0);
    ZeroIs(0x1D0F);
    ZeroIs(0xCC9C);
  }

  lemma MoreZeros()
    ensures Zero(0x84C0) == 0x110C
    ensures Zero(0x110C) == 0x0E10
    ensures Zero(0x0E10) == 0xF1CE
    ensures Zero(0xF1CE) == 0x313E
    ensures Zero(0x313E) == 0x1872
  {
    ZeroIs(0x84C0);
    ZeroIs(0x110C);
    ZeroIs(0x0E10);
    ZeroIs(0xF1CE);
    ZeroIs(0x313E);
  }

  lemma {:induction false} DropsZero(i: nat)
    ensures Crc.DropBytes(0, i) == 0
    decreases i
  {
    if i > 0 {
      DropsZero(i - 1);
    }
  }

  lemma {:induction false} AddOneZero(c: bv16, bytes: seq<byte>)
    requires bytes != [] && bytes[0] == 0
    ensures Crc.Add(c, bytes) == Crc.Add(Zero(c), bytes[1..])
  {
  }

  lemma {:induction false} AddFourZeros(c: bv16, bytes: seq<byte>)
    requires |bytes| >= 4 && forall i | 0 <= i < 4 :: bytes[i] == 0
    ensures Crc.Add(c, bytes) == Crc.Add(Zero(Zero(Zero(Zero(c)))), bytes[4..])
  {
    AddOneZero(c, bytes);
    AddOneZero(Zero(c), bytes[1..]);
    AddOneZero(Zero(Zero(c)), bytes[1..][1..]);
    AddOneZero(Zero(Zero(Zero(c))), bytes[1..][1..][1..]);
    assert bytes[1..][1..][1..][1..] == bytes[4..];
  }

  lemma {:induction false} SignatureZero()
    ensures Crc.AddSignature(0xFFFF, 0) == 0x313E
  {
    var bytes := Crc.SignatureBytes(0);
    forall i | 0 <= i < 8 ensures bytes[i] == 0 {
      DropsZero(i);
    }
    FirstZeros();
    MoreZeros();
    AddFourZeros(0xFFFF, bytes);
    AddFourZeros(0x84C0, bytes[4..]);
    assert bytes[4..][4..] == [];
  }

  lemma {:induction false} AddSingle(c: bv16, z: seq<byte>)
    requires |z| == 1
    ensures Crc.Add(c, z) == Crc.AddByte(c, z[0])
  {
    assert z[1..] == [];
  }

  lemma {:induction false} OneZero(z: seq<byte>)
    requires |z| == 1 && z[0] == 0
    ensures Crc.Add(0x313E, z) == 0x1872
  {
    MoreZeros();
    AddSingle(0x313E, z);
  }

  /** Such an input: signature 0, a first frame with the byte 0 that comes twice, and an end frame with any bytes, of which the
      carried checksum is. What is reported is 0 and these bytes. */
  lemma {:induction false} RepeatInput(n: Station, accept: Acceptor, id: Id, carried: bv16, z: seq<byte>, bytes: seq<byte>)
    requires id == Id(CanId.MessageId(0, 1, 1), true, false, false) && n.receiver.states == [] && n.receiver.free > 0
    requires accept(1, Transfer.Broadcast, 1, 0) == Some(0) && carried == Crc.Add(Crc.AddSignature(0xFFFF, 0), bytes)
    requires |z| == 1 && z[0] == 0
    ensures var first, end := Opener(id, 0, carried, z), Closer(id, 0, bytes);
            var ds := Deliveries(n, accept, [Received(first, 1), Received(first, 2), Received(end, 3)]);
            && ds[2].Some? && ds[2].value.payload == z + bytes
            && Crc.Add(Crc.AddSignature(0xFFFF, 0), ds[2].value.payload) != carried
  {
    CanId.MessageIdFields(0, 1, 1);
    SignatureZero();
    OneZero(z);
    RepeatRun(n, accept, id, 0, 0, carried, z, bytes, 1, 2, 3);
  }

  /** And one of the other kind: any eight bytes with signature 0, then an end frame with the next number and no payload. */
  lemma {:induction false} OrphanInput(n: Station, accept: Acceptor, x: Sending)
    requires x.id == Id(CanId.MessageId(0, 1, 1), true, false, false) && x.transferId == 0 && x.signature == 0
    requires |x.payload| == 8 && x.Intact()
    requires n.receiver.states == [] && n.receiver.free > 0 && accept(1, Transfer.Broadcast, 1, 0) == Some(0)
    ensures var bus := [Received(x.Frames()[0], 1), Received(x.Frames()[1], 2), Received(Orphan(x), 3)];
            var ds := Deliveries(n, accept, bus);
            ds[1] == Some(Expected(x, 2)) && ds[2].Some? && ds[2].value.payload == [] && ds[2].value.transferId != 0
  {
    CanId.MessageIdFields(0, 1, 1);
    OrphanRun(n, accept, x, 1, 2, 3);
  }
}
