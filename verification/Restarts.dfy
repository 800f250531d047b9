/** When a state is given up, and when it takes a frame: in microseconds, transfer numbers and toggle bits. */
module Restarts {
  import opened Wrappers
  import opened Bits
  import opened CanId
  import opened Frames
  import opened Reassembly
  import opened EndToEnd
  import opened Traffic
  import Crc = TransferCrc

  // ---- Cleanup ----

  /** While the clock has not wrapped since, a cleanup keeps exactly the states that are at most two seconds old. */
  lemma {:induction false} KeptByAge(states: seq<RxView>, s: RxView, now: nat)
    requires s.timestamp <= now
    ensures s in Survivors(states, now) <==> s in states && now - s.timestamp <= 2_000_000
  {
    SurvivorsAreFresh(states, now);
  }

  /** Likewise when the 64-bit clock has wrapped. */
  lemma {:induction false} KeptAcrossWrap(states: seq<RxView>, s: RxView, now: nat)
    requires now < s.timestamp <= 0xFFFF_FFFF_FFFF_FFFF
    ensures s in Survivors(states, now) <==> s in states && now + 0x1_0000_0000_0000_0000 - s.timestamp <= 2_000_000
  {
    SurvivorsAreFresh(states, now);
  }

  /** Of the states older than two seconds, those with a chain. */
  function Lost(states: seq<RxView>, now: nat): nat {
    if states == [] then 0
    else (if now - states[0].timestamp > 2_000_000 && states[0].blocks > 0 then 1 else 0) + Lost(states[1..], now)
  }

  predicate Past(states: seq<RxView>, now: nat) {
    forall i | 0 <= i < |states| :: states[i].timestamp <= now
  }

  lemma {:induction false} LostAreCounted(stats: Stats, states: seq<RxView>, now: nat)
    requires Past(states, now) && stats.dropped < 0x1_0000_0000
    ensures CountLost(stats, states, now) == stats.(dropped := Wrapped(stats.dropped + Lost(states, now)))
    decreases |states|
  {
    if states != [] {
      var next := if Stale(states[0], now) && states[0].blocks > 0 then CountDropped(stats) else stats;
      assert Past(states[1..], now);
      LostAreCounted(next, states[1..], now);
      WrappedAgain(stats.dropped, Lost(states[1..], now));
    }
  }

  /** The value of a 32-bit counter. */
  function Wrapped(n: nat): nat {
    if n < 0x1_0000_0000 then n else Wrapped(n - 0x1_0000_0000)
  }

  lemma {:induction false} WrappedAgain(d: nat, n: nat)
    requires d < 0x1_0000_0000
    ensures Wrapped((if d + 1 < 0x1_0000_0000 then d + 1 else 0) + n) == Wrapped(d + 1 + n)
  {
  }

  /** A cleanup gives back the blocks of what it removes, and counts every started transfer among it as dropped. */
  lemma {:induction false} CleanupCounts(m: Machine, now: nat)
    requires Past(m.states, now) && m.stats.dropped < 0x1_0000_0000
    ensures var after := Cleaned(m, now);
            && after.free + Held(after.states) == m.free + Held(m.states)
            && after.stats == m.stats.(dropped := Wrapped(m.stats.dropped + Lost(m.states, now)))
  {
    SurvivorsAreFresh(m.states, now);
    LostAreCounted(m.stats, m.states, now);
  }

  // ---- First frames ----

  /** The first frame of a transfer of several frames, of a kind the application wants. */
  predicate IsFirst(accept: Acceptor, frame: Frame) {
    && Supported(frame) && Wanted(accept, frame).Some? && 4 <= |frame.data| <= 8
    && IsStart(Tail(frame)) && !IsEnd(Tail(frame)) && !IsToggled(Tail(frame))
  }

  function Seed(accept: Acceptor, frame: Frame): bv16
    requires Wanted(accept, frame).Some?
  {
    Crc.AddSignature(0xFFFF, Wanted(accept, frame).value)
  }

  /** A first frame carries the checksum, then payload. */
  function FirstBytes(frame: Frame): seq<byte>
    requires |frame.data| >= 4
  {
    frame.data[2..|frame.data| - 1]
  }

  /** The transfer has begun with this frame and nothing before it. */
  predicate Begun(s: RxView, accept: Acceptor, frame: Frame, now: nat)
    requires IsFirst(accept, frame)
  {
    && s.stored == FirstBytes(frame) && s.blocks == 0 && s.timestamp == now && s.nextToggle
    && s.transferId == TransferId(Tail(frame)) && s.calculatedCrc == Crc.Add(Seed(accept, frame), FirstBytes(frame))
    && (s.payloadCrc & 0xFF) as bv8 == frame.data[0] && (s.payloadCrc >> 8) as bv8 == frame.data[1]
  }

  lemma JoinBytes(low: byte, high: byte)
    ensures var c := (low as bv16) | ((high as bv16) << 8); (c & 0xFF) as bv8 == low && (c >> 8) as bv8 == high
  {
  }

  /** Neither the number awaited nor the one after it, modulo 32. */
  predicate Skips(awaited: byte, transferId: byte) {
    transferId != awaited && transferId != if awaited == 31 then 0 else awaited + 1
  }

  lemma SkipsIsDistance(a: byte, b: byte)
    requires a < 32 && b < 32
    ensures ForwardDistance(a, b) > 1 <==> Skips(a, b)
  {
  }

  lemma TransferIdBound(tail: byte)
    ensures TransferId(tail) < 32
  {
  }

  /** Why a first frame begins anew: a new or old state, a chain, or a transfer too far ahead. */
  predicate Anew(s: RxView, frame: Frame, now: nat)
    requires frame.data != []
  {
    || s.timestamp == 0
    || (if s.timestamp <= now then now - s.timestamp else now + 0x1_0000_0000_0000_0000 - s.timestamp) > 2_000_000
    || s.blocks > 0
    || Skips(s.transferId, TransferId(Tail(frame)))
  }

  lemma {:induction false} AnewRestarts(s: RxView, frame: Frame, now: nat)
    requires frame.data != [] && IsStart(Tail(frame)) && s.transferId < 32
    ensures NeedsRestart(s, Tail(frame), now) <==> Anew(s, frame, now)
  {
    TransferIdBound(Tail(frame));
    SkipsIsDistance(s.transferId, TransferId(Tail(frame)));
  }

  lemma {:induction false} FirstIsStored(s: RxView, free: nat, stats: Stats, bytes: seq<byte>)
    requires s.stored == [] && s.blocks == 0 && |bytes| <= 5
    ensures Store(s, free, stats, bytes) ==
            Outcome(s.(stored := bytes, calculatedCrc := Crc.Add(s.calculatedCrc, bytes), nextToggle := !s.nextToggle),
                    free, stats, None)
  {
    assert [] + bytes == bytes;
  }

  /** In an empty state that awaits it, a first frame begins the transfer. */
  lemma {:induction false} BeginsHere(s: RxView, free: nat, stats: Stats, accept: Acceptor, frame: Frame, now: nat)
    requires IsFirst(accept, frame) && s.calculatedCrc == Seed(accept, frame) && s.stored == [] && s.blocks == 0
    requires !s.nextToggle && s.transferId == TransferId(Tail(frame))
    ensures var o := ReceivePart(s, free, stats, frame, now);
            Begun(o.state, accept, frame, now) && o.free == free && o.stats == stats && o.delivery == None
  {
    var bytes := Body(frame)[2..];
    assert bytes == FirstBytes(frame);
    FirstIsStored(s.(timestamp := now), free, stats, bytes);
    JoinBytes(frame.data[0], frame.data[1]);
  }

  lemma {:induction false} RestartedIsEmpty(s: RxView, tail: byte, now: nat)
    requires NeedsRestart(s, tail, now)
    ensures Restarted(s, tail, now) == s.(transferId := TransferId(tail), nextToggle := false, stored := [], blocks := 0)
  {
  }

  lemma {:induction false} AnewBegins(s: RxView, free: nat, stats: Stats, accept: Acceptor, frame: Frame, now: nat)
    requires IsFirst(accept, frame) && s.calculatedCrc == Seed(accept, frame) && s.transferId < 32 && Anew(s, frame, now)
    ensures var o := Receive(s, free, stats, frame, now);
            Begun(o.state, accept, frame, now) && o.free == free + s.blocks && o.stats == stats && o.delivery == None
  {
    AnewRestarts(s, frame, now);
    RestartedIsEmpty(s, Tail(frame), now);
    BeginsHere(Restarted(s, Tail(frame), now), free + s.blocks, stats, accept, frame, now);
  }

  /** A wanted frame that starts a transfer works on the state of its descriptor with the checksum seeded. */
  lemma StartsIn(m: Machine, accept: Acceptor, frame: Frame, now: nat) returns (s: RxView)
    requires Supported(frame) && IsStart(Tail(frame)) && Wanted(accept, frame).Some?
    requires Project(m, DescriptorOf(frame.id.clean)).Some?
    ensures s == Project(m, DescriptorOf(frame.id.clean)).value.(calculatedCrc := Seed(accept, frame))
    ensures var o := Receive(s, m.free, m.stats, frame, now);
            var (next, delivery) := Step(m, accept, frame, now);
            && Project(next, DescriptorOf(frame.id.clean)) == Some(o.state) && delivery == o.delivery && next.free == o.free
            && next.stats == o.stats
  {
    var d := DescriptorOf(frame.id.clean);
    OpenedHere(m, d, Wanted(accept, frame).value);
    var ready := Opened(m, d, Wanted(accept, frame).value);
    ApplyHere(ready, frame, now, d);
    s := Project(ready, d).value;
    assert ready.free == m.free && ready.stats == m.stats;
  }

  /** A state that has been silent for more than two seconds takes any first frame as a beginning, whatever it holds, and
      gives back its chain. So does a new one, one with a chain, and one the transfer number is too far ahead of. */
  lemma {:induction false} LateFirstFrame(m: Machine, accept: Acceptor, frame: Frame, now: nat)
    requires IsFirst(accept, frame) && Project(m, DescriptorOf(frame.id.clean)).Some?
    requires var s := Project(m, DescriptorOf(frame.id.clean)).value; s.transferId < 32 && Anew(s, frame, now)
    ensures var s, (next, delivery) := Project(m, DescriptorOf(frame.id.clean)).value, Step(m, accept, frame, now);
            && Project(next, DescriptorOf(frame.id.clean)).Some?
            && Begun(Project(next, DescriptorOf(frame.id.clean)).value, accept, frame, now)
            && next.free == m.free + s.blocks && next.stats == m.stats && delivery == None
  {
    var s := StartsIn(m, accept, frame, now);
    AnewBegins(s, m.free, m.stats, accept, frame, now);
  }

  /** One more error; the counter wraps at its 32 bits. */
  function WithError(before: Stats): Stats {
    before.(errors := if before.errors >= 0xFFFF_FFFF then 0 else before.errors + 1)
  }

  lemma {:induction false} NotAnewStays(s: RxView, free: nat, stats: Stats, frame: Frame, now: nat)
    requires frame.data != [] && IsStart(Tail(frame)) && s.transferId < 32 && !Anew(s, frame, now)
    ensures Receive(s, free, stats, frame, now) == ReceiveReady(s, free, stats, frame, now)
  {
    AnewRestarts(s, frame, now);
  }

  /** A state that is still within its two seconds and has no chain refuses a first frame that is not the one awaited: it
      counts an error, and only the checksum register is seeded again. */
  lemma {:induction false} FirstIsRefused(m: Machine, accept: Acceptor, frame: Frame, now: nat)
    requires IsFirst(accept, frame) && Project(m, DescriptorOf(frame.id.clean)).Some?
    requires var s := Project(m, DescriptorOf(frame.id.clean)).value;
             s.transferId < 32 && !Anew(s, frame, now) && (s.nextToggle || s.transferId != TransferId(Tail(frame)))
    ensures var s, (next, delivery) := Project(m, DescriptorOf(frame.id.clean)).value, Step(m, accept, frame, now);
            && Project(next, DescriptorOf(frame.id.clean)) == Some(s.(calculatedCrc := Seed(accept, frame)))
            && next.free == m.free && next.stats == WithError(m.stats) && delivery == None
  {
    var s := StartsIn(m, accept, frame, now);
    NotAnewStays(s, m.free, m.stats, frame, now);
  }

  predicate Idle(s: RxView) {
    s.stored == [] && s.blocks == 0 && !s.nextToggle
  }

  lemma {:induction false} IdleBegins(m: Machine, accept: Acceptor, frame: Frame, now: nat)
    requires IsFirst(accept, frame) && Project(m, DescriptorOf(frame.id.clean)).Some?
    requires var s := Project(m, DescriptorOf(frame.id.clean)).value;
             s.transferId < 32 && !Anew(s, frame, now) && Idle(s) && s.transferId == TransferId(Tail(frame))
    ensures var (next, delivery) := Step(m, accept, frame, now);
            && Project(next, DescriptorOf(frame.id.clean)).Some?
            && Begun(Project(next, DescriptorOf(frame.id.clean)).value, accept, frame, now)
            && next.free == m.free && next.stats == m.stats && delivery == None
  {
    var s := StartsIn(m, accept, frame, now);
    NotAnewStays(s, m.free, m.stats, frame, now);
    BeginsHere(s, m.free, m.stats, accept, frame, now);
  }

  /** An idle state takes the first frame of every transfer, except, within the two seconds, of the one right after the one
      it awaits. */
  lemma {:induction false} IdleTakesFirst(m: Machine, accept: Acceptor, frame: Frame, now: nat)
    requires IsFirst(accept, frame) && Project(m, DescriptorOf(frame.id.clean)).Some?
    requires var s := Project(m, DescriptorOf(frame.id.clean)).value;
             Idle(s) && s.transferId < 32 && 0 < s.timestamp <= now
    ensures var s, next := Project(m, DescriptorOf(frame.id.clean)).value, Step(m, accept, frame, now).0;
            && Project(next, DescriptorOf(frame.id.clean)).Some?
            && (Begun(Project(next, DescriptorOf(frame.id.clean)).value, accept, frame, now) <==>
                now - s.timestamp > 2_000_000 || TransferId(Tail(frame)) != if s.transferId == 31 then 0 else s.transferId + 1)
  {
    var s := Project(m, DescriptorOf(frame.id.clean)).value;
    if Anew(s, frame, now) {
      LateFirstFrame(m, accept, frame, now);
    } else if s.transferId == TransferId(Tail(frame)) {
      IdleBegins(m, accept, frame, now);
    } else {
      FirstIsRefused(m, accept, frame, now);
    }
  }

  // ---- The other frames ----

  predicate Fresher(s: RxView, now: nat) {
    0 < s.timestamp <= now <= s.timestamp + 2_000_000
  }

  lemma {:induction false} FollowsIn(m: Machine, accept: Acceptor, frame: Frame, now: nat)
    requires Supported(frame) && !IsStart(Tail(frame)) && Project(m, DescriptorOf(frame.id.clean)).Some?
    ensures var o := Receive(Project(m, DescriptorOf(frame.id.clean)).value, m.free, m.stats, frame, now);
            var (next, delivery) := Step(m, accept, frame, now);
            && Project(next, DescriptorOf(frame.id.clean)) == Some(o.state) && delivery == o.delivery && next.free == o.free
            && next.stats == o.stats
  {
    ApplyHere(m, frame, now, DescriptorOf(frame.id.clean));
  }

  /** A later frame of a transfer that has been silent for more than two seconds: what there is of it is thrown away, its
      chain comes back, an error is counted, and the next transfer is awaited. */
  lemma {:induction false} LateOtherFrame(m: Machine, accept: Acceptor, frame: Frame, now: nat)
    requires Supported(frame) && !IsStart(Tail(frame)) && Project(m, DescriptorOf(frame.id.clean)).Some?
    requires var s := Project(m, DescriptorOf(frame.id.clean)).value;
             s.timestamp <= now && (s.timestamp == 0 || now - s.timestamp > 2_000_000)
    ensures var s, (next, delivery) := Project(m, DescriptorOf(frame.id.clean)).value, Step(m, accept, frame, now);
            && Project(next, DescriptorOf(frame.id.clean)).Some? && delivery == None
            && var t := Project(next, DescriptorOf(frame.id.clean)).value;
               && t == s.(transferId := t.transferId, nextToggle := false, stored := [], blocks := 0)
               && t.transferId == (if TransferId(Tail(frame)) == 31 then 0 else TransferId(Tail(frame)) + 1)
               && next.free == m.free + s.blocks && next.stats == WithError(m.stats)
  {
    FollowsIn(m, accept, frame, now);
    NextIs(Tail(frame));
  }

  lemma NextIs(tail: byte)
    ensures NextTransferId(TransferId(tail)) == if TransferId(tail) == 31 then 0 else TransferId(tail) + 1
  {
  }

  /** In time, a later frame of another transfer, or out of turn, changes nothing but the count of errors. */
  lemma {:induction false} OutOfTurn(m: Machine, accept: Acceptor, frame: Frame, now: nat)
    requires Supported(frame) && !IsStart(Tail(frame)) && Project(m, DescriptorOf(frame.id.clean)).Some?
    requires var s := Project(m, DescriptorOf(frame.id.clean)).value;
             Fresher(s, now) && (IsToggled(Tail(frame)) != s.nextToggle || TransferId(Tail(frame)) != s.transferId)
    ensures var (next, delivery) := Step(m, accept, frame, now);
            && Project(next, DescriptorOf(frame.id.clean)) == Project(m, DescriptorOf(frame.id.clean))
            && next.free == m.free && next.stats == WithError(m.stats) && delivery == None
  {
    FollowsIn(m, accept, frame, now);
  }

  lemma {:induction false} TakenToggles(s: RxView, free: nat, stats: Stats, frame: Frame, now: nat)
    requires Supported(frame) && !IsStart(Tail(frame)) && !IsEnd(Tail(frame)) && Fresher(s, now) && |frame.data| > 1
    requires Receive(s, free, stats, frame, now).state.stored == s.stored + Body(frame)
    ensures var o := Receive(s, free, stats, frame, now).state;
            o.nextToggle != IsToggled(Tail(frame)) && o.timestamp == s.timestamp
  {
    assert |s.stored + Body(frame)| > |s.stored|;
  }

  /** A frame in the middle of a transfer that comes twice is taken once. */
  lemma {:induction false} RepeatIsRefused(m: Machine, accept: Acceptor, frame: Frame, now: nat, again: nat)
    requires Supported(frame) && !IsStart(Tail(frame)) && !IsEnd(Tail(frame)) && |frame.data| > 1
    requires Project(m, DescriptorOf(frame.id.clean)).Some?
    requires var d := DescriptorOf(frame.id.clean);
             var s, after := Project(m, d).value, Project(Step(m, accept, frame, now).0, d);
             Fresher(s, now) && Fresher(s, again) && after.Some? && after.value.stored == s.stored + Body(frame)
    ensures var taken := Step(m, accept, frame, now).0;
            var (next, delivery) := Step(taken, accept, frame, again);
            && Project(next, DescriptorOf(frame.id.clean)) == Project(taken, DescriptorOf(frame.id.clean))
            && next.free == taken.free && next.stats == WithError(taken.stats) && delivery == None
  {
    FollowsIn(m, accept, frame, now);
    TakenToggles(Project(m, DescriptorOf(frame.id.clean)).value, m.free, m.stats, frame, now);
    OutOfTurn(Step(m, accept, frame, now).0, accept, frame, again);
  }

  // ---- Transfer numbers stay below 32 ----

  predicate SmallIds(states: seq<RxView>) {
    forall i | 0 <= i < |states| :: states[i].transferId < 32
  }

  lemma NextIsSmall(t: byte)
    ensures NextTransferId(t) < 32
  {
  }

  predicate OneOf(t: byte, a: byte, b: byte, c: byte, d: byte) { t == a || t == b || t == c || t == d }

  lemma {:induction false} ReceiveIds(s: RxView, free: nat, stats: Stats, frame: Frame, now: nat)
    requires frame.data != []
    ensures OneOf(Receive(s, free, stats, frame, now).state.transferId, s.transferId, TransferId(Tail(frame)),
                  NextTransferId(s.transferId), NextTransferId(TransferId(Tail(frame))))
  {
  }

  lemma {:induction false} SmallOneOf(t: byte, a: byte, tail: byte)
    requires a < 32 && OneOf(t, a, TransferId(tail), NextTransferId(a), NextTransferId(TransferId(tail)))
    ensures t < 32
  {
    TransferIdBound(tail);
    NextIsSmall(a);
    NextIsSmall(TransferId(tail));
  }

  lemma {:induction false} ReceiveKeepsSmall(s: RxView, free: nat, stats: Stats, frame: Frame, now: nat)
    requires frame.data != [] && s.transferId < 32
    ensures Receive(s, free, stats, frame, now).state.transferId < 32
  {
    ReceiveIds(s, free, stats, frame, now);
    SmallOneOf(Receive(s, free, stats, frame, now).state.transferId, s.transferId, Tail(frame));
  }

  lemma {:induction false} ApplyKeepsSmall(m: Machine, i: nat, frame: Frame, now: nat)
    requires i < |m.states| && frame.data != [] && SmallIds(m.states)
    ensures SmallIds(ApplyAt(m, i, frame, now).0.states)
  {
    ReceiveKeepsSmall(m.states[i], m.free, m.stats, frame, now);
  }

  lemma {:induction false} StepKeepsSmall(m: Machine, accept: Acceptor, frame: Frame, now: nat)
    requires SmallIds(m.states)
    ensures SmallIds(Step(m, accept, frame, now).0.states)
  {
    var d := DescriptorOf(frame.id.clean);
    var i := Find(m.states, d);
    if Supported(frame) {
      if !IsStart(Tail(frame)) {
        if i < |m.states| {
          ApplyKeepsSmall(m, i, frame, now);
        }
      } else if Wanted(accept, frame).Some? && (i < |m.states| || m.free > 0) {
        var ready := Opened(m, d, Wanted(accept, frame).value);
        ApplyKeepsSmall(ready, Find(ready.states, d), frame, now);
      }
    }
  }

  lemma {:induction false} CleanupKeepsSmall(states: seq<RxView>, now: nat)
    requires SmallIds(states)
    ensures SmallIds(Survivors(states, now))
  {
    SurvivorsAreFresh(states, now);
    var left := Survivors(states, now);
    forall i | 0 <= i < |left| ensures left[i].transferId < 32 {
      assert left[i] in states;
    }
  }

  /** The number a state awaits is below 32 in every run from an empty receiver. */
  lemma {:induction false} RunKeepsSmall(n: Station, accept: Acceptor, events: seq<Event>)
    requires SmallIds(n.receiver.states)
    ensures SmallIds(Run(n, accept, events).receiver.states)
    decreases |events|
  {
    if events != [] {
      match events[0] {
        case Received(frame, time) => StepKeepsSmall(n.receiver, accept, frame, time);
        case CleanedUp(time) => CleanupKeepsSmall(n.receiver.states, time);
        case _ =>
      }
      RunKeepsSmall(Next(n, accept, events[0]).0, accept, events[1..]);
    }
  }
}
