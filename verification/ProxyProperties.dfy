/** What holds in every run of the master's view of a device. */
module ProxyProperties {
  import opened Wrappers
  import opened Bits
  import opened ProxyModel

  /** What every operation keeps. */
  ghost predicate Ok(v: Proxy) {
    && |v.pending| <= v.maxRequests && |v.types| <= v.maxFields && v.retries <= MAX_RETRIES
    && (v.mode == REQUEST_NODE_INFO ==> v.types == []) && (v.mode == REQUEST_FIELDS ==> |v.types| < v.maxFields)
    && forall i | 0 <= i < |v.pending| ::
         Askable(v.pending[i].kind) && ((v.pending[i].kind.FieldRead? || v.pending[i].kind.FieldWrite?) ==> v.pending[i].id < |v.types|)
  }

  lemma {:induction false} RemainingIsSuffix(pending: seq<Request>, now: nat) returns (i: nat)
    ensures i <= |pending| && Remaining(pending, now) == pending[i..]
  {
    if pending == [] || pending[0].deadline > now {
      i := 0;
    } else {
      i := RemainingIsSuffix(pending[1..], now);
      i := i + 1;
    }
  }

  lemma DiscoverOk(v: Proxy, kind: Service, number: nat, payload: seq<byte>, now: nat)
    requires Ok(v)
    ensures var next := Discover(v, kind, number, payload, now).0;
            Ok(next) && |next.pending| >= |v.pending| && next.pending[..|v.pending|] == v.pending
  {
  }

  lemma TickOk(v: Proxy, turn: bool, now: nat)
    requires Ok(v)
    ensures Ok(Tick(v, turn, now).0)
  {
    var i := RemainingIsSuffix(v.pending, now);
  }

  lemma StepOk(v: Proxy, op: Op, now: nat)
    requires Ok(v) && Possible(op)
    ensures Ok(Step(v, op, now).0)
  {
    match op
    case DoAsk(kind, id, position, data, caller) =>
    case DoResponse(kind, number, payload) => DiscoverOk(v, kind, number, payload, now);
    case DoTick(turn) => TickOk(v, turn, now);
    case DoReset(attached) =>
  }

  // ---- One outcome per request ----

  /** Whose request it is, and what it is about. */
  datatype Key = Key(caller: nat, kind: Service, id: nat)

  function Calls(events: seq<Event>, key: Key): nat {
    if events == [] then 0
    else
      (if events[0].Callback? && Key(events[0].caller, events[0].kind, events[0].id) == key then 1 else 0)
      + Calls(events[1..], key)
  }

  predicate Belongs(r: Request, key: Key) {
    r.caller == Some(key.caller) && r.kind == key.kind && r.id == key.id
  }

  function Waiting(pending: seq<Request>, key: Key): nat {
    if pending == [] then 0 else (if Belongs(pending[0], key) then 1 else 0) + Waiting(pending[1..], key)
  }

  function Asked(op: Op, key: Key): nat {
    if op.DoAsk? && op.caller == Some(key.caller) && op.kind == key.kind && op.id == key.id then 1 else 0
  }

  function AskedIn(ops: seq<Timed>, key: Key): nat {
    if ops == [] then 0 else Asked(ops[0].op, key) + AskedIn(ops[1..], key)
  }

  lemma {:induction false} CallsConcat(a: seq<Event>, b: seq<Event>, key: Key)
    ensures Calls(a + b, key) == Calls(a, key) + Calls(b, key)
  {
    if a == [] {
      assert a + b == b;
    } else {
      assert (a + b)[1..] == a[1..] + b;
      CallsConcat(a[1..], b, key);
    }
  }

  lemma {:induction false} WaitingConcat(a: seq<Request>, b: seq<Request>, key: Key)
    ensures Waiting(a + b, key) == Waiting(a, key) + Waiting(b, key)
  {
    if a == [] {
      assert a + b == b;
    } else {
      assert (a + b)[1..] == a[1..] + b;
      WaitingConcat(a[1..], b, key);
    }
  }

  lemma {:induction false} WaitingWithout(pending: seq<Request>, i: nat, key: Key)
    requires i < |pending|
    ensures Waiting(pending, key) == Waiting(WithoutAt(pending, i), key) + (if Belongs(pending[i], key) then 1 else 0)
  {
    assert pending == pending[..i] + ([pending[i]] + pending[i + 1..]);
    WaitingConcat(pending[..i], [pending[i]] + pending[i + 1..], key);
    WaitingConcat(pending[..i], pending[i + 1..], key);
    assert ([pending[i]] + pending[i + 1..])[1..] == pending[i + 1..];
  }

  lemma {:induction false} EnqueueOutcome(v: Proxy, kind: Service, id: nat, position: nat, data: seq<byte>,
                                          caller: Option<nat>, now: nat, key: Key)
    requires |v.pending| < v.maxRequests
    ensures var (next, events) := Enqueue(v, kind, id, position, data, caller, now);
            && Calls(events, key) == 0
            && Waiting(next.pending, key)
                 == Waiting(v.pending, key) + (if caller == Some(key.caller) && kind == key.kind && id == key.id then 1 else 0)
  {
    var r := Request(kind, Number(v.numbers, kind), now + REQUEST_TIMEOUT, caller, id, position);
    WaitingConcat(v.pending, [r], key);
    assert [r][1..] == [];
  }

  lemma {:induction false} AskOutcome(v: Proxy, op: Op, now: nat, key: Key)
    requires op.DoAsk? && Possible(op)
    ensures var (next, events) := Step(v, op, now);
            Calls(events, key) + Waiting(next.pending, key) == Waiting(v.pending, key) + Asked(op, key)
  {
    if !(AboutField(op.kind) && op.id >= |v.types|) && v.attached && |v.pending| < v.maxRequests {
      EnqueueOutcome(v, op.kind, op.id, op.position, op.data, op.caller, now, key);
    }
  }

  /** Discovery has no observers. */
  lemma {:induction false} DiscoverOutcome(v: Proxy, kind: Service, number: nat, payload: seq<byte>, now: nat, key: Key)
    ensures var (next, events) := Discover(v, kind, number, payload, now);
            && Calls(events, key) == 0 && Waiting(next.pending, key) == Waiting(v.pending, key)
            && |next.pending| >= |v.pending| && next.pending[..|v.pending|] == v.pending
  {
    forall field: nat, w: Proxy | w.pending == v.pending && |w.pending| < w.maxRequests
      ensures var (next, events) := Enqueue(w, GetFieldInfo, field, 0, [], None, now);
              Calls(events, key) == 0 && Waiting(next.pending, key) == Waiting(v.pending, key)
    {
      EnqueueOutcome(w, GetFieldInfo, field, 0, [], None, now, key);
    }
  }

  /** Every pending request gets exactly one callback from a response that finds it. */
  lemma {:induction false} RespondOnce(v: Proxy, i: nat, payload: seq<byte>, key: Key)
    requires Ok(v) && i < |v.pending|
    ensures Calls(Respond(v.pending[i], v.types, payload), key) == if Belongs(v.pending[i], key) then 1 else 0
  {
  }

  lemma {:induction false} ResponseOutcome(v: Proxy, kind: Service, number: nat, payload: seq<byte>, now: nat, key: Key)
    requires Ok(v)
    ensures var (next, events) := Response(v, kind, number, payload, now);
            Calls(events, key) + Waiting(next.pending, key) == Waiting(v.pending, key)
  {
    var i := FindRequest(v.pending, kind, number);
    var (next, events) := Discover(v, kind, number, payload, now);
    DiscoverOutcome(v, kind, number, payload, now, key);
    if i < |v.pending| {
      assert next.pending[i] == next.pending[..|v.pending|][i] == v.pending[i];
      WaitingWithout(next.pending, i, key);
      RespondOnce(v, i, payload, key);
      CallsConcat(events, Respond(v.pending[i], v.types, payload), key);
    }
  }

  lemma {:induction false} TimedOutOutcome(pending: seq<Request>, now: nat, key: Key)
    ensures Calls(TimedOut(pending, now), key) + Waiting(Remaining(pending, now), key) == Waiting(pending, key)
  {
    if pending != [] && pending[0].deadline <= now {
      TimedOutOutcome(pending[1..], now, key);
      CallsConcat(Expired(pending[0]), TimedOut(pending[1..], now), key);
    }
  }

  lemma {:induction false} DetachedOutcome(pending: seq<Request>, key: Key)
    ensures Calls(AllDetached(pending), key) == Waiting(pending, key)
  {
    if pending != [] {
      DetachedOutcome(pending[1..], key);
      CallsConcat(Detached(pending[0]), AllDetached(pending[1..]), key);
    }
  }

  lemma {:induction false} AttemptOutcome(v: Proxy, now: nat, key: Key)
    requires Discovering(v)
    ensures var (next, events) := Attempt(v, now);
            Calls(events, key) == 0 && Waiting(next.pending, key) == Waiting(v.pending, key)
  {
    if v.retries > 0 && v.mode == REQUEST_FIELDS && |v.pending| < v.maxRequests {
      EnqueueOutcome(v.(retries := v.retries - 1), GetFieldInfo, |v.types|, 0, [], None, now, key);
    }
  }

  lemma {:induction false} TickOutcome(v: Proxy, turn: bool, now: nat, key: Key)
    ensures var (next, events) := Tick(v, turn, now);
            Calls(events, key) + Waiting(next.pending, key) == Waiting(v.pending, key)
  {
    TimedOutOutcome(v.pending, now, key);
    if Due(v, turn, now) {
      var purged := v.(pending := Remaining(v.pending, now));
      AttemptOutcome(purged, now, key);
      CallsConcat(TimedOut(v.pending, now), Attempt(purged, now).1, key);
    }
  }

  /** One step: callbacks made and requests still waiting are those that waited before and the one just asked. */
  lemma {:induction false} StepOutcome(v: Proxy, op: Op, now: nat, key: Key)
    requires Ok(v) && Possible(op)
    ensures var (next, events) := Step(v, op, now);
            Calls(events, key) + Waiting(next.pending, key) == Waiting(v.pending, key) + Asked(op, key)
  {
    match op
    case DoAsk(kind, id, position, data, caller) => AskOutcome(v, op, now, key);
    case DoResponse(kind, number, payload) => ResponseOutcome(v, kind, number, payload, now, key);
    case DoTick(turn) => TickOutcome(v, turn, now, key);
    case DoReset(attached) => DetachedOutcome(v.pending, key);
  }

  /** In every run, each request made with an observer has had exactly one callback, for its own service and subject, or
      is still waiting for it. */
  lemma {:induction false} OneOutcomePerRequest(v: Proxy, ops: seq<Timed>, key: Key)
    requires Ok(v) && AllPossible(ops)
    ensures var (last, events) := Run(v, ops);
            Ok(last) && Calls(events, key) + Waiting(last.pending, key) == Waiting(v.pending, key) + AskedIn(ops, key)
    decreases |ops|
  {
    if ops != [] {
      var (next, events) := Step(v, ops[0].op, ops[0].now);
      StepOk(v, ops[0].op, ops[0].now);
      StepOutcome(v, ops[0].op, ops[0].now, key);
      OneOutcomePerRequest(next, ops[1..], key);
      CallsConcat(events, Run(next, ops[1..]).1, key);
    }
  }

  lemma {:induction false} RunConcat(v: Proxy, a: seq<Timed>, b: seq<Timed>)
    requires AllPossible(a) && AllPossible(b)
    ensures AllPossible(a + b)
    ensures var (mid, first) := Run(v, a); var (last, second) := Run(mid, b); Run(v, a + b) == (last, first + second)
    decreases |a|
  {
    if a == [] {
      assert a + b == b;
      assert [] + Run(v, b).1 == Run(v, b).1;
    } else {
      assert (a + b)[1..] == a[1..] + b;
      var (next, events) := Step(v, a[0].op, a[0].now);
      RunConcat(next, a[1..], b);
      var (mid, more) := Run(next, a[1..]);
      assert events + (more + Run(mid, b).1) == (events + more) + Run(mid, b).1;
    }
  }

  /** When the device is detached, every request ever made has had its one callback. */
  lemma {:induction false} DetachSettlesAll(v: Proxy, ops: seq<Timed>, now: nat, key: Key)
    requires Ok(v) && v.pending == [] && AllPossible(ops)
    ensures var all := ops + [Timed(DoReset(false), now)]; AllPossible(all) && Calls(Run(v, all).1, key) == AskedIn(ops, key)
  {
    var mid := Run(v, ops).0;
    var last := [Timed(DoReset(false), now)];
    OneOutcomePerRequest(v, ops, key);
    RunConcat(v, ops, last);
    DetachedOutcome(mid.pending, key);
    CallsConcat(Run(v, ops).1, AllDetached(mid.pending), key);
    assert last[1..] == [];
    assert Run(mid, last).1 == AllDetached(mid.pending) + [];
    assert AllDetached(mid.pending) + [] == AllDetached(mid.pending);
  }

  // ---- Expiry ----

  /** The oldest deadline is first. */
  ghost predicate DeadlinesAscend(pending: seq<Request>) {
    forall i, j | 0 <= i < j < |pending| :: pending[i].deadline <= pending[j].deadline
  }

  /** All deadlines are in order, and none is further away than the timeout. */
  ghost predicate Paced(v: Proxy, now: nat) {
    DeadlinesAscend(v.pending) && forall i | 0 <= i < |v.pending| :: v.pending[i].deadline <= now + REQUEST_TIMEOUT
  }

  lemma PacedLonger(v: Proxy, next: Proxy, r: Request, now: nat)
    requires Paced(v, now) && r.deadline == now + REQUEST_TIMEOUT && next.pending == v.pending + [r]
    ensures Paced(next, now)
  {
  }

  lemma PacedShorter(v: Proxy, next: Proxy, i: nat, now: nat)
    requires Paced(v, now) && next.pending == WithoutAt(v.pending, i)
    ensures Paced(next, now)
  {
  }

  lemma PacedSuffix(v: Proxy, next: Proxy, i: nat, now: nat)
    requires Paced(v, now) && i <= |v.pending| && next.pending == v.pending[i..]
    ensures Paced(next, now)
  {
  }

  lemma PacedLater(v: Proxy, before: nat, now: nat)
    requires Paced(v, before) && before <= now
    ensures Paced(v, now)
  {
  }

  /** Sending a request at the current time. */
  lemma PacedSend(v: Proxy, next: Proxy, now: nat)
    requires Paced(v, now)
    requires next.pending == v.pending
             || (|next.pending| == |v.pending| + 1 && next.pending[..|v.pending|] == v.pending
                 && next.pending[|v.pending|].deadline == now + REQUEST_TIMEOUT)
    ensures Paced(next, now)
  {
    if next.pending != v.pending {
      assert next.pending == v.pending + [next.pending[|v.pending|]];
      PacedLonger(v, next, next.pending[|v.pending|], now);
    }
  }

  lemma PacedStep(v: Proxy, op: Op, before: nat, now: nat)
    requires Paced(v, before) && before <= now && Possible(op)
    ensures Paced(Step(v, op, now).0, now)
  {
    PacedLater(v, before, now);
    match op
    case DoAsk(kind, id, position, data, caller) => PacedSend(v, Step(v, op, now).0, now);
    case DoResponse(kind, number, payload) =>
      var next := Discover(v, kind, number, payload, now).0;
      PacedSend(v, next, now);
      if FindRequest(v.pending, kind, number) < |v.pending| {
        PacedShorter(next, Step(v, op, now).0, FindRequest(v.pending, kind, number), now);
      }
    case DoTick(turn) =>
      var i := RemainingIsSuffix(v.pending, now);
      var purged := v.(pending := Remaining(v.pending, now));
      PacedSuffix(v, purged, i, now);
      PacedSend(purged, Step(v, op, now).0, now);
    case DoReset(attached) =>
  }

  /** The clock of a run never goes back. */
  ghost predicate Monotone(ops: seq<Timed>, from: nat) {
    forall i, j | 0 <= i <= j < |ops| :: from <= ops[i].now <= ops[j].now
  }

  lemma {:induction false} PacedRun(v: Proxy, ops: seq<Timed>, from: nat)
    requires Paced(v, from) && AllPossible(ops) && Monotone(ops, from)
    ensures Paced(Run(v, ops).0, if ops == [] then from else ops[|ops| - 1].now)
    decreases |ops|
  {
    if ops != [] {
      var next := Step(v, ops[0].op, ops[0].now).0;
      PacedStep(v, ops[0].op, from, ops[0].now);
      assert Monotone(ops[1..], ops[0].now);
      PacedRun(next, ops[1..], ops[0].now);
    }
  }

  function StillOpen(pending: seq<Request>, now: nat): seq<Request> {
    if pending == [] then [] else (if pending[0].deadline > now then [pending[0]] else []) + StillOpen(pending[1..], now)
  }

  function Overdue(pending: seq<Request>, now: nat): seq<Request> {
    if pending == [] then [] else (if pending[0].deadline > now then [] else [pending[0]]) + Overdue(pending[1..], now)
  }

  function AllExpired(pending: seq<Request>): seq<Event> {
    if pending == [] then [] else Expired(pending[0]) + AllExpired(pending[1..])
  }

  lemma {:induction false} NoneOverdue(pending: seq<Request>, now: nat)
    requires forall i | 0 <= i < |pending| :: pending[i].deadline > now
    ensures StillOpen(pending, now) == pending && Overdue(pending, now) == []
  {
    if pending != [] {
      NoneOverdue(pending[1..], now);
      assert [pending[0]] + pending[1..] == pending;
    }
  }

  /** Looking at the front only is enough: exactly the overdue requests go, in order, and are told so. */
  lemma {:induction false} FrontExpiryIsComplete(pending: seq<Request>, now: nat)
    requires DeadlinesAscend(pending)
    ensures Remaining(pending, now) == StillOpen(pending, now)
    ensures TimedOut(pending, now) == AllExpired(Overdue(pending, now))
  {
    if pending != [] {
      assert DeadlinesAscend(pending[1..]);
      if pending[0].deadline > now {
        NoneOverdue(pending, now);
      } else {
        FrontExpiryIsComplete(pending[1..], now);
        assert Overdue(pending, now)[1..] == Overdue(pending[1..], now);
      }
    }
  }

  lemma {:induction false} StillOpenMembers(pending: seq<Request>, now: nat)
    ensures forall r :: r in StillOpen(pending, now) <==> r in pending && r.deadline > now
  {
    if pending != [] {
      StillOpenMembers(pending[1..], now);
      assert pending == [pending[0]] + pending[1..];
    }
  }

  /** In every run with a clock that does not go back, a tick leaves exactly the requests whose deadline is still to
      come, and the wake-up time is no later than any of their deadlines. */
  lemma {:induction false} TickExpires(v: Proxy, turn: bool, before: nat, now: nat)
    requires Paced(v, before) && before <= now
    ensures forall r :: r in Remaining(v.pending, now) <==> r in v.pending && r.deadline > now
    ensures TimedOut(v.pending, now) == AllExpired(Overdue(v.pending, now))
    ensures var wake, open := Wake(v, turn, now), Remaining(v.pending, now);
            && (wake.None? <==> open == [] && !Due(v, turn, now))
            && (wake.Some? ==> (forall i | 0 <= i < |open| :: wake.value <= open[i].deadline)
                               && ((open != [] && wake.value == open[0].deadline) || wake.value == now + REQUEST_TIMEOUT))
  {
    FrontExpiryIsComplete(v.pending, now);
    StillOpenMembers(v.pending, now);
    var i := RemainingIsSuffix(v.pending, now);
  }

  // ---- Discovery ----

  /** How much discovery there is left: attempts and fields. */
  function Rank(v: Proxy): int {
    match v.mode
    case REQUEST_NODE_INFO => v.maxFields * 9 + 9 + v.retries + 1
    case REQUEST_FIELDS => (v.maxFields - |v.types|) * 9 + v.retries + 1
    case _ => 0
  }

  lemma SendKeepsRank(v: Proxy, field: nat, now: nat)
    ensures Rank(SendGetFieldInfo(v, field, now).0) == Rank(v) && SendGetFieldInfo(v, field, now).0.mode == v.mode
  {
  }

  /** Every attempt brings the end of discovery closer, whether anything is answered or not. */
  lemma AttemptProgresses(v: Proxy, turn: bool, now: nat)
    requires Ok(v) && Due(v, turn, now)
    ensures Rank(Tick(v, turn, now).0) < Rank(v)
  {
    var purged := v.(pending := Remaining(v.pending, now));
    if v.retries > 0 {
      SendKeepsRank(purged.(retries := v.retries - 1), |v.types|, now);
    }
  }

  /** Nothing but a reset takes discovery back. */
  lemma StepKeepsRank(v: Proxy, op: Op, now: nat)
    requires Ok(v) && Possible(op) && !op.DoReset?
    ensures 0 <= Rank(Step(v, op, now).0) <= Rank(v)
  {
    StepOk(v, op, now);
    if op.DoTick? && Due(v, op.turn, now) {
      AttemptProgresses(v, op.turn, now);
    } else if op.DoResponse? {
      var next := Discover(v, op.kind, op.number, op.payload, now).0;
      DiscoverKeepsRank(v, op.kind, op.number, op.payload, now);
    }
  }

  lemma DiscoverKeepsRank(v: Proxy, kind: Service, number: nat, payload: seq<byte>, now: nat)
    requires Ok(v)
    ensures Rank(Discover(v, kind, number, payload, now).0) <= Rank(v)
  {
    var i := FindRequest(v.pending, kind, number);
    if kind.GetNodeInfo? {
      SendKeepsRank(v.(mode := REQUEST_FIELDS, retries := MAX_RETRIES), 0, now);
    } else if kind.GetFieldInfo? && i < |v.pending| && GoodLength(kind, |payload|) {
      var grown := v.(types := v.types + [FieldTypeIn(payload)]);
      SendKeepsRank(grown.(retries := MAX_RETRIES), |grown.types|, now);
    }
  }

  ghost predicate NoReset(ops: seq<Timed>) {
    forall i | 0 <= i < |ops| :: !ops[i].op.DoReset?
  }

  /** Attempts made in a run. */
  function Attempts(v: Proxy, ops: seq<Timed>): nat
    requires AllPossible(ops)
    decreases |ops|
  {
    if ops == [] then 0
    else
      (if ops[0].op.DoTick? && Due(v, ops[0].op.turn, ops[0].now) then 1 else 0)
      + Attempts(Step(v, ops[0].op, ops[0].now).0, ops[1..])
  }

  /** Discovery ends: no run holds more attempts than its rank, and once that many were made the device is idle or given up,
      for good. */
  lemma {:induction false} DiscoveryTerminates(v: Proxy, ops: seq<Timed>)
    requires Ok(v) && AllPossible(ops) && NoReset(ops)
    ensures Attempts(v, ops) + Rank(Run(v, ops).0) <= Rank(v)
    ensures Attempts(v, ops) == Rank(v) ==> Run(v, ops).0.mode == IDLE || Run(v, ops).0.mode == ERROR
    ensures v.mode == IDLE || v.mode == ERROR ==> Run(v, ops).0.mode == v.mode
    decreases |ops|
  {
    if ops != [] {
      var op, now := ops[0].op, ops[0].now;
      var next := Step(v, op, now).0;
      StepOk(v, op, now);
      StepKeepsRank(v, op, now);
      if op.DoTick? && Due(v, op.turn, now) {
        AttemptProgresses(v, op.turn, now);
      }
      DoneStays(v, op, now);
      DiscoveryTerminates(next, ops[1..]);
    }
    OneOutcomePerRequest(v, ops, Key(0, Other, 0));
    RankPositive(Run(v, ops).0);
  }

  lemma RankPositive(v: Proxy)
    requires Ok(v)
    ensures Rank(v) >= 0 && (Rank(v) == 0 <==> v.mode == IDLE || v.mode == ERROR)
  {
  }

  lemma DoneStays(v: Proxy, op: Op, now: nat)
    requires Possible(op) && !op.DoReset?
    ensures v.mode == IDLE || v.mode == ERROR ==> Step(v, op, now).0.mode == v.mode
  {
  }

  // ---- Ready ----

  function Readies(events: seq<Event>): nat {
    if events == [] then 0 else (if events[0].Ready? then 1 else 0) + Readies(events[1..])
  }

  lemma {:induction false} ReadiesConcat(a: seq<Event>, b: seq<Event>)
    ensures Readies(a + b) == Readies(a) + Readies(b)
  {
    if a == [] {
      assert a + b == b;
    } else {
      assert (a + b)[1..] == a[1..] + b;
      ReadiesConcat(a[1..], b);
    }
  }

  function IsIdle(v: Proxy): nat { if v.mode == IDLE then 1 else 0 }

  lemma {:induction false} TimedOutNotReady(pending: seq<Request>, now: nat)
    ensures Readies(TimedOut(pending, now)) == 0
  {
    if pending != [] && pending[0].deadline <= now {
      TimedOutNotReady(pending[1..], now);
      ReadiesConcat(Expired(pending[0]), TimedOut(pending[1..], now));
    }
  }

  lemma ReadyStep(v: Proxy, op: Op, now: nat)
    requires Possible(op) && !op.DoReset?
    ensures Readies(Step(v, op, now).1) + IsIdle(v) == IsIdle(Step(v, op, now).0)
  {
    match op
    case DoAsk(kind, id, position, data, caller) =>
    case DoResponse(kind, number, payload) => ReadyResponse(v, kind, number, payload, now);
    case DoTick(turn) => ReadyTick(v, turn, now);
  }

  lemma ReadyResponse(v: Proxy, kind: Service, number: nat, payload: seq<byte>, now: nat)
    ensures Readies(Response(v, kind, number, payload, now).1) + IsIdle(v) == IsIdle(Response(v, kind, number, payload, now).0)
  {
    var i := FindRequest(v.pending, kind, number);
    var (next, events) := Discover(v, kind, number, payload, now);
    assert Readies(events) + IsIdle(v) == IsIdle(next);
    if i < |v.pending| {
      ReadiesConcat(events, Respond(v.pending[i], v.types, payload));
    }
  }

  lemma ReadyTick(v: Proxy, turn: bool, now: nat)
    ensures Readies(Tick(v, turn, now).1) + IsIdle(v) == IsIdle(Tick(v, turn, now).0)
  {
    TimedOutNotReady(v.pending, now);
    if Due(v, turn, now) {
      var purged := v.(pending := Remaining(v.pending, now));
      ReadiesConcat(TimedOut(v.pending, now), Attempt(purged, now).1);
    }
  }

  /** The hub hears that the device is ready exactly when the proxy goes idle: at most once from one reset to the next. */
  lemma {:induction false} ReadyOnce(v: Proxy, ops: seq<Timed>)
    requires AllPossible(ops) && NoReset(ops)
    ensures var (last, events) := Run(v, ops); Readies(events) + IsIdle(v) == IsIdle(last) && Readies(events) <= 1
    decreases |ops|
  {
    if ops != [] {
      var (next, events) := Step(v, ops[0].op, ops[0].now);
      ReadyStep(v, ops[0].op, ops[0].now);
      ReadyOnce(next, ops[1..]);
      ReadiesConcat(events, Run(next, ops[1..]).1);
    }
  }

  // ---- Faithfulness ----

  /** No two outstanding requests of one service share a transfer number. */
  ghost predicate DistinctNumbers(pending: seq<Request>) {
    forall i, j | 0 <= i < j < |pending| :: pending[i].kind != pending[j].kind || pending[i].number != pending[j].number
  }

  predicate Matches(r: Request, op: Op) {
    op.DoResponse? && r.kind == op.kind && r.number == op.number
  }

  /** Request i is the one the device answers, and it answers with the type of that field. */
  ghost predicate AnswersRequest(pending: seq<Request>, op: Op, i: nat, table: nat -> byte) {
    && i < |pending| && Matches(pending[i], op) && op.payload != []
    && (op.payload[0] == SUCCESS ==> FieldTypeIn(op.payload) == table(pending[i].id))
  }

  /** A field description answers an outstanding request that its number singles out, or none at all. */
  ghost predicate Genuine(v: Proxy, op: Op, table: nat -> byte) {
    op.DoResponse? && op.kind.GetFieldInfo? ==>
      || (forall i | 0 <= i < |v.pending| :: !Matches(v.pending[i], op))
      || (DistinctNumbers(v.pending) && exists i :: AnswersRequest(v.pending, op, i, table))
  }

  ghost predicate AllGenuine(v: Proxy, ops: seq<Timed>, table: nat -> byte)
    requires AllPossible(ops)
    decreases |ops|
  {
    ops != [] ==>
      Genuine(v, ops[0].op, table) && AllGenuine(Step(v, ops[0].op, ops[0].now).0, ops[1..], table)
  }

  /** The types known so far are those of the device's table. */
  ghost predicate Faithful(v: Proxy, table: nat -> byte) {
    forall i | 0 <= i < |v.types| :: v.types[i] == table(i)
  }

  lemma FaithfulStep(v: Proxy, op: Op, now: nat, table: nat -> byte)
    requires Faithful(v, table) && Possible(op) && Genuine(v, op, table)
    ensures Faithful(Step(v, op, now).0, table)
  {
    if op.DoResponse? && op.kind.GetFieldInfo? {
      var i := FindRequest(v.pending, op.kind, op.number);
      if i < |v.pending| {
        assert Matches(v.pending[i], op);
        var k :| AnswersRequest(v.pending, op, k, table);
        assert i == k;
      }
    }
  }

  /** After any run, type i is what the device answered for field i, as long as transfer numbers single out requests. */
  lemma {:induction false} TypesAreFaithful(v: Proxy, ops: seq<Timed>, table: nat -> byte)
    requires Faithful(v, table) && AllPossible(ops) && AllGenuine(v, ops, table)
    ensures Faithful(Run(v, ops).0, table)
    decreases |ops|
  {
    if ops != [] {
      FaithfulStep(v, ops[0].op, ops[0].now, table);
      TypesAreFaithful(Step(v, ops[0].op, ops[0].now).0, ops[1..], table);
    }
  }
}
