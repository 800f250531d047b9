/** The discovery of a device in numbers: who is asked, when, how often, and what the answers lead to. */
module ProxyDiscovery {
  import opened Wrappers
  import opened Bits
  import opened ProxyModel

  predicate OnlyCallbacks(events: seq<Event>) { forall e | e in events :: e.Callback? }

  lemma {:induction false} TimeoutsAreCallbacks(pending: seq<Request>, now: nat)
    ensures OnlyCallbacks(TimedOut(pending, now))
  {
    if pending != [] && pending[0].deadline <= now {
      TimeoutsAreCallbacks(pending[1..], now);
    }
  }

  /** Assigned anew, a proxy knows nothing, has eight retries and counts its messages from 0. */
  lemma StartsOver(v: Proxy, attached: bool, now: nat)
    ensures Step(v, DoReset(attached), now).0
         == Proxy(attached, v.maxRequests, v.maxFields, REQUEST_NODE_INFO, 8, [], now, Numbers(0, 0, 0, 0, 0, 0, 0), [])
  {
  }

  // ---- Attempts ----

  /** Discovery is going on, it is this node's turn, and the time has come. */
  predicate ItsTurn(v: Proxy, turn: bool, now: nat) {
    (v.mode == REQUEST_NODE_INFO || v.mode == REQUEST_FIELDS) && turn && now >= v.nextRequestTime
  }

  /** Otherwise a tick only takes expired requests off the list. */
  lemma NotItsTurn(v: Proxy, turn: bool, now: nat)
    requires !ItsTurn(v, turn, now)
    ensures var (next, events) := Step(v, DoTick(turn), now);
            next == v.(pending := next.pending) && OnlyCallbacks(events)
  {
    TimeoutsAreCallbacks(v.pending, now);
  }

  /** The events are callbacks and then these. */
  predicate EndsWith(events: seq<Event>, last: seq<Event>) {
    |events| >= |last| && events[|events| - |last|..] == last && OnlyCallbacks(events[..|events| - |last|])
  }

  lemma {:induction false} CallbacksFirst(told: seq<Event>, more: seq<Event>)
    requires OnlyCallbacks(told)
    ensures EndsWith(told + more, more)
  {
    assert (told + more)[|told|..] == more && (told + more)[..|told|] == told;
  }

  /** The next attempt comes 100 ms later. While the device itself is not known, its description is asked for. */
  lemma AsksForNodeInfo(v: Proxy, now: nat)
    requires ItsTurn(v, true, now) && v.mode == REQUEST_NODE_INFO && v.retries > 0
    ensures var (next, events) := Step(v, DoTick(true), now);
            && next.mode == REQUEST_NODE_INFO && next.retries == v.retries - 1 && next.nextRequestTime == now + 100_000
            && next.types == v.types && EndsWith(events, [Send(GetNodeInfo, v.numbers.getNodeInfo, 0, 0, [])])
  {
    TimeoutsAreCallbacks(v.pending, now);
    CallbacksFirst(TimedOut(v.pending, now), [Send(GetNodeInfo, v.numbers.getNodeInfo, 0, 0, [])]);
  }

  lemma {:induction false} AttemptAtField(v: Proxy, now: nat)
    requires ItsTurn(v, true, now) && v.mode == REQUEST_FIELDS && v.retries > 0
    ensures var left := Remaining(v.pending, now);
            var asked := SendGetFieldInfo(v.(pending := left, retries := v.retries - 1), |v.types|, now);
            Step(v, DoTick(true), now)
              == (asked.0.(nextRequestTime := now + 100_000), TimedOut(v.pending, now) + asked.1)
  {
  }

  /** Then its fields one by one; an attempt that finds no descriptor sends nothing but counts. */
  lemma {:induction false} AsksForField(v: Proxy, now: nat)
    requires ItsTurn(v, true, now) && v.mode == REQUEST_FIELDS && v.retries > 0
    ensures var (next, events) := Step(v, DoTick(true), now);
            var n, field, left := v.numbers.getFieldInfo, |v.types|, Remaining(v.pending, now);
            && next.mode == REQUEST_FIELDS && next.retries == v.retries - 1 && next.nextRequestTime == now + 100_000
            && next.types == v.types
            && if |left| < v.maxRequests
               then EndsWith(events, [Send(GetFieldInfo, n, field, 0, [])])
                    && next.pending == left + [Request(GetFieldInfo, n, now + 100_000, None, field, 0)]
               else OnlyCallbacks(events) && next.pending == left
  {
    var told := TimedOut(v.pending, now);
    AttemptAtField(v, now);
    TimeoutsAreCallbacks(v.pending, now);
    if |Remaining(v.pending, now)| < v.maxRequests {
      CallbacksFirst(told, [Send(GetFieldInfo, v.numbers.getFieldInfo, |v.types|, 0, [])]);
    } else {
      assert told + [] == told;
    }
  }

  /** Without retries left, a device that never described itself is in error, and one that did is ready with the fields it
      has. */
  lemma GivesUp(v: Proxy, now: nat)
    requires ItsTurn(v, true, now) && v.retries == 0
    ensures var (next, events) := Step(v, DoTick(true), now);
            && next.types == v.types
            && if v.mode == REQUEST_NODE_INFO then next.mode == ERROR && OnlyCallbacks(events)
               else next.mode == IDLE && EndsWith(events, [Ready])
  {
    var told := TimedOut(v.pending, now);
    TimeoutsAreCallbacks(v.pending, now);
    CallbacksFirst(told, [Ready]);
    assert told + [] == told;
  }

  /** The proxy is woken again for its next attempt. */
  lemma WakesForAttempt(v: Proxy, now: nat)
    requires ItsTurn(v, true, now)
    ensures Wake(v, true, now).Some? && Wake(v, true, now).value <= now + 100_000
  {
  }

  // ---- Answers ----

  /** A description of the device is complete if it has the 41 bytes up to the length of the certificate, the certificate, and
      a name. Then the first field is asked for, or the device is ready at once if it has none. */
  lemma NodeInfoLeads(v: Proxy, number: nat, payload: seq<byte>, now: nat)
    requires forall j | 0 <= j < |v.pending| :: !v.pending[j].kind.GetNodeInfo?
    ensures var (next, events) := Step(v, DoResponse(GetNodeInfo, number, payload), now);
            var n := v.numbers.getFieldInfo;
            if v.mode != REQUEST_NODE_INFO || |payload| < 41 || |payload| < 42 + payload[40] as nat then
              next == v && events == []
            else if v.maxFields == 0 then next == v.(mode := IDLE) && events == [Ready]
            else
              && next.mode == REQUEST_FIELDS && next.retries == 8 && next.types == v.types
              && if |v.pending| < v.maxRequests
                 then events == [Send(GetFieldInfo, n, 0, 0, [])]
                      && next.pending == v.pending + [Request(GetFieldInfo, n, now + 100_000, None, 0, 0)]
                 else events == [] && next.pending == v.pending
  {
  }

  /** The request for the next field is pending. */
  ghost predicate Pending(v: Proxy, number: nat, i: nat) {
    && v.mode == REQUEST_FIELDS && i < |v.pending| && v.pending[i].kind == GetFieldInfo && v.pending[i].number == number
    && v.pending[i].caller == None
    && forall j | 0 <= j < i :: !(v.pending[j].kind == GetFieldInfo && v.pending[j].number == number)
  }

  lemma {:induction false} PendingIsFound(v: Proxy, number: nat, i: nat)
    requires Pending(v, number, i)
    ensures FindRequest(v.pending, GetFieldInfo, number) == i
  {
  }

  /** A field is described: its type joins the others, and the next one is asked for, with eight retries again, until there
      are as many as the device may have. */
  lemma {:induction false} FieldInfoLeads(v: Proxy, number: nat, i: nat, payload: seq<byte>, now: nat)
    requires Pending(v, number, i) && v.pending[i].id == |v.types| && 6 <= |payload| <= 62 && payload[0] == 0
    ensures var (next, events) := Step(v, DoResponse(GetFieldInfo, number, payload), now);
            && next.types == v.types + [payload[1]]
            && if |v.types| + 1 >= v.maxFields then next.mode == IDLE && events == [Ready]
               else
                 && next.mode == REQUEST_FIELDS && next.retries == 8
                 && events == if |v.pending| < v.maxRequests
                              then [Send(GetFieldInfo, v.numbers.getFieldInfo, |v.types| + 1, 0, [])] else []
  {
    PendingIsFound(v, number, i);
  }

  /** The device has no such field: discovery is over. Any other refusal, or a packet that does not fit, leads nowhere. */
  lemma {:induction false} NoMoreFields(v: Proxy, number: nat, i: nat, payload: seq<byte>, now: nat)
    requires Pending(v, number, i) && !(6 <= |payload| <= 62 && payload[0] == 0) && payload != [0]
    ensures var (next, events) := Step(v, DoResponse(GetFieldInfo, number, payload), now);
            && next.types == v.types
            && if (|payload| == 1 || 6 <= |payload| <= 62) && payload[0] == 2 then next.mode == IDLE && events == [Ready]
               else next == v.(pending := v.pending[..i] + v.pending[i + 1..]) && events == []
  {
    PendingIsFound(v, number, i);
  }

  // ---- A device that does not answer ----

  /** Ticks 100 ms apart. */
  function Ticks(t0: nat, n: nat): (ops: seq<Timed>)
    ensures |ops| == n && AllPossible(ops)
    decreases n
  {
    if n == 0 then [] else [Timed(DoTick(true), t0)] + Ticks(t0 + 100_000, n - 1)
  }

  lemma {:induction false} SilentRun(v: Proxy, t0: nat, n: nat)
    requires v.pending == [] && v.mode == REQUEST_NODE_INFO && v.nextRequestTime <= t0 && n <= v.retries + 1
    ensures var (last, events) := Run(v, Ticks(t0, n));
            && last.mode == (if n <= v.retries then REQUEST_NODE_INFO else ERROR)
            && |events| == (if n <= v.retries then n else v.retries)
            && forall e | e in events :: e.Send? && e.kind == GetNodeInfo
    decreases n
  {
    if n > 0 {
      var next, events := Step(v, DoTick(true), t0).0, Step(v, DoTick(true), t0).1;
      assert Ticks(t0, n)[1..] == Ticks(t0 + 100_000, n - 1);
      assert TimedOut(v.pending, t0) == [] && Remaining(v.pending, t0) == [];
      if v.retries > 0 {
        SilentRun(next, t0 + 100_000, n - 1);
      } else {
        assert Ticks(t0 + 100_000, 0) == [];
      }
    }
  }

  /** It is asked eight times, and at the ninth it is given up. */
  lemma {:induction false} SilentDevice(v: Proxy, t0: nat, n: nat)
    requires n <= 9
    ensures var (last, events) := Run(Step(v, DoReset(true), t0).0, Ticks(t0, n));
            && last.mode == (if n <= 8 then REQUEST_NODE_INFO else ERROR) && |events| == (if n <= 8 then n else 8)
            && forall e | e in events :: e.Send? && e.kind == GetNodeInfo
  {
    SilentRun(Step(v, DoReset(true), t0).0, t0, n);
  }
}
