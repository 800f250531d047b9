/** Transfer numbers of the requests to one device: they count modulo 32, and single out requests for 32 in a row. */
module ProxyNumbers {
  import opened Wrappers
  import opened Bits
  import opened ProxyModel
  import opened ProxyProperties

  /** The numbers of the messages of one service that were sent, in order. */
  function Sent(events: seq<Event>, kind: Service): seq<nat> {
    if events == [] then []
    else (if events[0].Send? && events[0].kind == kind then [events[0].number] else []) + Sent(events[1..], kind)
  }

  lemma {:induction false} SentConcat(a: seq<Event>, b: seq<Event>, kind: Service)
    ensures Sent(a + b, kind) == Sent(a, kind) + Sent(b, kind)
  {
    if a == [] {
      assert a + b == b;
    } else {
      assert (a + b)[1..] == a[1..] + b;
      SentConcat(a[1..], b, kind);
    }
  }

  lemma {:induction false} CallbacksSendNothing(events: seq<Event>, kind: Service)
    requires forall e | e in events :: !e.Send?
    ensures Sent(events, kind) == []
  {
    if events != [] {
      assert forall e | e in events[1..] :: e in events;
      CallbacksSendNothing(events[1..], kind);
    }
  }

  lemma {:induction false} TimeoutsSendNothing(pending: seq<Request>, now: nat)
    ensures forall e | e in TimedOut(pending, now) :: !e.Send?
    ensures forall e | e in AllDetached(pending) :: !e.Send?
  {
    if pending != [] {
      TimeoutsSendNothing(pending[1..], now);
    }
  }

  /** The number of a running count: the remainder by 32. */
  function NumberOf(count: nat): nat {
    if count < 32 then count else NumberOf(count - 32)
  }

  lemma {:induction false} NumberOfIs(count: nat)
    ensures NumberOf(count) == count % 32
  {
    if count >= 32 {
      NumberOfIs(count - 32);
    }
  }

  /** The requests of this service have numbers that come from the running counts lo to hi - 1, each from a later one than
      those before it. */
  ghost predicate Numbered(pending: seq<Request>, kind: Service, lo: nat, hi: nat) {
    pending != [] ==>
      if pending[0].kind != kind then Numbered(pending[1..], kind, lo, hi)
      else exists i: nat :: lo <= i < hi && pending[0].number == NumberOf(i) && Numbered(pending[1..], kind, i + 1, hi)
  }

  lemma {:induction false} NumberedWider(pending: seq<Request>, kind: Service, lo: nat, hi: nat, low: nat, high: nat)
    requires Numbered(pending, kind, lo, hi) && low <= lo && hi <= high
    ensures Numbered(pending, kind, low, high)
  {
    if pending != [] {
      if pending[0].kind != kind {
        NumberedWider(pending[1..], kind, lo, hi, low, high);
      } else {
        var i: nat :| lo <= i < hi && pending[0].number == NumberOf(i) && Numbered(pending[1..], kind, i + 1, hi);
        NumberedWider(pending[1..], kind, i + 1, hi, i + 1, high);
      }
    }
  }

  lemma {:induction false} NumberedMore(pending: seq<Request>, kind: Service, lo: nat, hi: nat, r: Request)
    requires Numbered(pending, kind, lo, hi) && lo <= hi && (r.kind == kind ==> r.number == NumberOf(hi))
    ensures Numbered(pending + [r], kind, lo, hi + 1)
  {
    if pending == [] {
      assert [r][1..] == [] && [] + [r] == [r];
      assert Numbered([], kind, hi + 1, hi + 1);
    } else {
      assert (pending + [r])[1..] == pending[1..] + [r];
      if pending[0].kind != kind {
        NumberedMore(pending[1..], kind, lo, hi, r);
      } else {
        var i: nat :| lo <= i < hi && pending[0].number == NumberOf(i) && Numbered(pending[1..], kind, i + 1, hi);
        NumberedMore(pending[1..], kind, i + 1, hi, r);
      }
    }
  }

  lemma {:induction false} NumberedLess(pending: seq<Request>, kind: Service, lo: nat, hi: nat, k: nat)
    requires Numbered(pending, kind, lo, hi)
    ensures Numbered(WithoutAt(pending, k), kind, lo, hi)
  {
    if k == 0 && pending != [] {
      assert pending[..0] + pending[1..] == pending[1..];
      if pending[0].kind == kind {
        var i: nat :| lo <= i < hi && pending[0].number == NumberOf(i) && Numbered(pending[1..], kind, i + 1, hi);
        NumberedWider(pending[1..], kind, i + 1, hi, lo, hi);
      }
    } else if k < |pending| {
      var left := WithoutAt(pending, k);
      assert left[0] == pending[0] && left[1..] == WithoutAt(pending[1..], k - 1);
      if pending[0].kind != kind {
        NumberedLess(pending[1..], kind, lo, hi, k - 1);
      } else {
        var i: nat :| lo <= i < hi && pending[0].number == NumberOf(i) && Numbered(pending[1..], kind, i + 1, hi);
        NumberedLess(pending[1..], kind, i + 1, hi, k - 1);
      }
    }
  }

  lemma {:induction false} NumberedRemaining(pending: seq<Request>, kind: Service, lo: nat, hi: nat, now: nat)
    requires Numbered(pending, kind, lo, hi)
    ensures Numbered(Remaining(pending, now), kind, lo, hi)
  {
    if pending != [] && pending[0].deadline <= now {
      NumberedLess(pending, kind, lo, hi, 0);
      assert WithoutAt(pending, 0) == pending[1..];
      NumberedRemaining(pending[1..], kind, lo, hi, now);
    }
  }

  /** Counts that are less than 32 apart have different numbers. */
  lemma CountsApart(i: nat, j: nat)
    requires i < j < i + 32
    ensures NumberOf(i) != NumberOf(j)
  {
    NumberOfIs(i);
    NumberOfIs(j);
  }

  lemma {:induction false} NumberedApart(pending: seq<Request>, kind: Service, lo: nat, hi: nat, count: nat)
    requires Numbered(pending, kind, lo, hi) && count < lo && hi <= count + 32
    ensures forall j | 0 <= j < |pending| && pending[j].kind == kind :: pending[j].number != NumberOf(count)
  {
    if pending != [] {
      if pending[0].kind != kind {
        NumberedApart(pending[1..], kind, lo, hi, count);
      } else {
        var i: nat :| lo <= i < hi && pending[0].number == NumberOf(i) && Numbered(pending[1..], kind, i + 1, hi);
        CountsApart(count, i);
        NumberedApart(pending[1..], kind, i + 1, hi, count);
      }
      assert forall j | 0 < j < |pending| :: pending[j] == pending[1..][j - 1];
    }
  }

  /** No two requests of this service have the same number. */
  ghost predicate SingledOut(pending: seq<Request>, kind: Service) {
    forall i, j | 0 <= i < j < |pending| && pending[i].kind == pending[j].kind == kind :: pending[i].number != pending[j].number
  }

  lemma {:induction false} NumberedSinglesOut(pending: seq<Request>, kind: Service, lo: nat, hi: nat)
    requires Numbered(pending, kind, lo, hi) && hi <= lo + 32
    ensures SingledOut(pending, kind)
  {
    if pending != [] {
      if pending[0].kind != kind {
        NumberedSinglesOut(pending[1..], kind, lo, hi);
      } else {
        var i: nat :| lo <= i < hi && pending[0].number == NumberOf(i) && Numbered(pending[1..], kind, i + 1, hi);
        NumberedApart(pending[1..], kind, i + 1, hi, i);
        NumberedSinglesOut(pending[1..], kind, i + 1, hi);
      }
      assert forall j | 0 < j < |pending| :: pending[j] == pending[1..][j - 1];
    }
  }

  // ---- Steps ----

  /** The next number is that of the running count, and so are those of the waiting requests. */
  ghost predicate Counted(v: Proxy, kind: Service, lo: nat, hi: nat) {
    lo <= hi && Number(v.numbers, kind) == NumberOf(hi) && Numbered(v.pending, kind, lo, hi)
  }

  /** What a step that sends at most one message does to the count. */
  ghost predicate Counts(next: Proxy, sent: seq<nat>, kind: Service, lo: nat, hi: nat) {
    Counted(next, kind, lo, hi + |sent|) && Consecutive(sent, hi) && |sent| <= 1
  }

  /** The numbers are those of the counts from hi on. */
  predicate Consecutive(numbers: seq<nat>, hi: nat) {
    numbers != [] ==> numbers[0] == NumberOf(hi) && Consecutive(numbers[1..], hi + 1)
  }

  lemma {:induction false} ConsecutiveAt(numbers: seq<nat>, hi: nat, i: nat)
    requires Consecutive(numbers, hi) && i < |numbers|
    ensures numbers[i] == NumberOf(hi + i)
  {
    if i > 0 {
      ConsecutiveAt(numbers[1..], hi + 1, i - 1);
    }
  }

  lemma ConsecutiveMore(first: seq<nat>, rest: seq<nat>, hi: nat)
    requires |first| <= 1 && Consecutive(first, hi) && Consecutive(rest, hi + |first|)
    ensures Consecutive(first + rest, hi)
  {
    if first == [] {
      assert first + rest == rest;
    } else {
      assert (first + rest)[1..] == rest;
    }
  }

  lemma Silent(told: seq<Event>, more: seq<Event>, kind: Service)
    requires forall e | e in told :: !e.Send?
    ensures Sent(told + more, kind) == Sent(more, kind) && Sent(more + told, kind) == Sent(more, kind)
  {
    CallbacksSendNothing(told, kind);
    SentConcat(told, more, kind);
    SentConcat(more, told, kind);
  }

  lemma NextCount(hi: nat)
    ensures NextNumber(NumberOf(hi)) == NumberOf(hi + 1)
  {
    NumberOfIs(hi);
    NumberOfIs(hi + 1);
  }

  lemma {:induction false} EnqueueCounts(v: Proxy, sort: Service, id: nat, position: nat, data: seq<byte>, caller: Option<nat>,
                                         now: nat, kind: Service, lo: nat, hi: nat)
    requires Counted(v, kind, lo, hi) && |v.pending| < v.maxRequests && !kind.Other?
    ensures var (next, events) := Enqueue(v, sort, id, position, data, caller, now); Counts(next, Sent(events, kind), kind, lo, hi)
  {
    var r := Request(sort, Number(v.numbers, sort), now + REQUEST_TIMEOUT, caller, id, position);
    NextCount(hi);
    var events := [Send(sort, Number(v.numbers, sort), id, position, data)];
    assert events[1..] == [];
    NumberedMore(v.pending, kind, lo, hi, r);
    if sort != kind {
      SortElsewhere(v.pending, r, kind, lo, hi);
    }
  }

  lemma {:induction false} SortElsewhere(pending: seq<Request>, r: Request, kind: Service, lo: nat, hi: nat)
    requires Numbered(pending, kind, lo, hi) && r.kind != kind
    ensures Numbered(pending + [r], kind, lo, hi)
  {
    if pending == [] {
      assert [r][1..] == [] && [] + [r] == [r];
    } else {
      assert (pending + [r])[1..] == pending[1..] + [r];
      if pending[0].kind != kind {
        SortElsewhere(pending[1..], r, kind, lo, hi);
      } else {
        var i: nat :| lo <= i < hi && pending[0].number == NumberOf(i) && Numbered(pending[1..], kind, i + 1, hi);
        SortElsewhere(pending[1..], r, kind, i + 1, hi);
      }
    }
  }

  /** A field is asked for, or there is no descriptor for it. */
  lemma {:induction false} FieldCounts(v: Proxy, field: nat, now: nat, kind: Service, lo: nat, hi: nat)
    requires Counted(v, kind, lo, hi) && !kind.Other?
    ensures var (next, events) := SendGetFieldInfo(v, field, now); Counts(next, Sent(events, kind), kind, lo, hi)
  {
    if |v.pending| < v.maxRequests {
      EnqueueCounts(v, GetFieldInfo, field, 0, [], None, now, kind, lo, hi);
    }
  }

  lemma {:induction false} AskCounts(v: Proxy, op: Op, now: nat, kind: Service, lo: nat, hi: nat)
    requires Counted(v, kind, lo, hi) && !kind.Other? && op.DoAsk? && Possible(op)
    ensures var (next, events) := Step(v, op, now); Counts(next, Sent(events, kind), kind, lo, hi)
  {
    if !(AboutField(op.kind) && op.id >= |v.types|) && v.attached && |v.pending| < v.maxRequests {
      EnqueueCounts(v, op.kind, op.id, op.position, op.data, op.caller, now, kind, lo, hi);
    } else {
      CallbacksSendNothing(Step(v, op, now).1, kind);
    }
  }

  lemma {:induction false} NodeInfoCounts(v: Proxy, payload: seq<byte>, now: nat, kind: Service, lo: nat, hi: nat)
    requires Counted(v, kind, lo, hi) && !kind.Other?
    ensures var (next, events) := NodeInfoArrived(v, payload, now); Counts(next, Sent(events, kind), kind, lo, hi)
  {
    NothingSent(kind);
    FieldCounts(v.(mode := REQUEST_FIELDS, retries := MAX_RETRIES), 0, now, kind, lo, hi);
  }

  lemma {:induction false} FieldInfoCounts(v: Proxy, field: nat, payload: seq<byte>, now: nat, kind: Service, lo: nat, hi: nat)
    requires Counted(v, kind, lo, hi) && !kind.Other? && payload != []
    ensures var (next, events) := FieldInfoArrived(v, field, payload, now); Counts(next, Sent(events, kind), kind, lo, hi)
  {
    NothingSent(kind);
    var grown := v.(types := v.types + [FieldTypeIn(payload)]);
    FieldCounts(grown.(retries := MAX_RETRIES), |grown.types|, now, kind, lo, hi);
  }

  lemma {:induction false} DiscoverCounts(v: Proxy, sort: Service, number: nat, payload: seq<byte>, now: nat, kind: Service,
                                          lo: nat, hi: nat)
    requires Counted(v, kind, lo, hi) && !kind.Other?
    ensures var (next, events) := Discover(v, sort, number, payload, now); Counts(next, Sent(events, kind), kind, lo, hi)
  {
    var i := FindRequest(v.pending, sort, number);
    if sort.GetNodeInfo? {
      NodeInfoCounts(v, payload, now, kind, lo, hi);
    } else if sort.GetFieldInfo? && i < |v.pending| && GoodLength(sort, |payload|) {
      FieldInfoCounts(v, v.pending[i].id, payload, now, kind, lo, hi);
    } else {
      NothingSent(kind);
    }
  }

  lemma NothingSent(kind: Service)
    ensures Sent([], kind) == [] && Sent([Ready], kind) == []
  {
    assert [Ready][1..] == [];
  }

  lemma {:induction false} ResponseCounts(v: Proxy, sort: Service, number: nat, payload: seq<byte>, now: nat, kind: Service,
                                          lo: nat, hi: nat)
    requires Counted(v, kind, lo, hi) && !kind.Other?
    ensures var (next, events) := Response(v, sort, number, payload, now); Counts(next, Sent(events, kind), kind, lo, hi)
  {
    var i := FindRequest(v.pending, sort, number);
    var (next, events) := Discover(v, sort, number, payload, now);
    DiscoverCounts(v, sort, number, payload, now, kind, lo, hi);
    if i < |v.pending| {
      var answer := Respond(v.pending[i], v.types, payload);
      Silent(answer, events, kind);
      RemovedCounts(next, Sent(events, kind), kind, lo, hi, i);
    }
  }

  lemma {:induction false} RemovedCounts(v: Proxy, sent: seq<nat>, kind: Service, lo: nat, hi: nat, i: nat)
    requires Counts(v, sent, kind, lo, hi)
    ensures Counts(v.(pending := WithoutAt(v.pending, i)), sent, kind, lo, hi)
  {
    NumberedLess(v.pending, kind, lo, hi + |sent|, i);
  }

  lemma {:induction false} AttemptCounts(v: Proxy, now: nat, kind: Service, lo: nat, hi: nat)
    requires Counted(v, kind, lo, hi) && !kind.Other? && Discovering(v)
    ensures var (next, events) := Attempt(v, now); Counts(next, Sent(events, kind), kind, lo, hi)
  {
    NothingSent(kind);
    if v.retries > 0 {
      var tried := v.(retries := v.retries - 1);
      if v.mode == REQUEST_NODE_INFO {
        NextCount(hi);
        var events := [Send(GetNodeInfo, v.numbers.getNodeInfo, 0, 0, [])];
        assert events[1..] == [];
        NumberedWider(v.pending, kind, lo, hi, lo, hi + 1);
      } else {
        FieldCounts(tried, |v.types|, now, kind, lo, hi);
      }
    }
  }

  lemma {:induction false} TickCounts(v: Proxy, turn: bool, now: nat, kind: Service, lo: nat, hi: nat)
    requires Counted(v, kind, lo, hi) && !kind.Other?
    ensures var (next, events) := Tick(v, turn, now); Counts(next, Sent(events, kind), kind, lo, hi)
  {
    var told, purged := TimedOut(v.pending, now), v.(pending := Remaining(v.pending, now));
    TimeoutsSendNothing(v.pending, now);
    NumberedRemaining(v.pending, kind, lo, hi, now);
    if Due(v, turn, now) {
      AttemptCounts(purged, now, kind, lo, hi);
      Silent(told, Attempt(purged, now).1, kind);
      var next := Attempt(purged, now).0;
      assert Counts(next.(nextRequestTime := now + REQUEST_TIMEOUT), Sent(Attempt(purged, now).1, kind), kind, lo, hi);
    } else {
      CallbacksSendNothing(told, kind);
    }
  }

  lemma {:induction false} StepCounts(v: Proxy, op: Op, now: nat, kind: Service, lo: nat, hi: nat)
    requires Counted(v, kind, lo, hi) && !kind.Other? && Possible(op) && !op.DoReset?
    ensures var (next, events) := Step(v, op, now); Counts(next, Sent(events, kind), kind, lo, hi)
  {
    match op
    case DoAsk(sort, id, position, data, caller) => AskCounts(v, op, now, kind, lo, hi);
    case DoResponse(sort, number, payload) => ResponseCounts(v, sort, number, payload, now, kind, lo, hi);
    case DoTick(turn) => TickCounts(v, turn, now, kind, lo, hi);
  }

  /** In every run, the messages of a service are numbered one after the other, modulo 32. */
  lemma {:induction false} NumbersCountUp(v: Proxy, ops: seq<Timed>, kind: Service, lo: nat, hi: nat)
    requires AllPossible(ops) && NoReset(ops) && Counted(v, kind, lo, hi) && !kind.Other?
    ensures var (last, events) := Run(v, ops);
            var numbers := Sent(events, kind);
            Counted(last, kind, lo, hi + |numbers|) && Consecutive(numbers, hi)
    decreases |ops|
  {
    if ops != [] {
      var (next, events) := Step(v, ops[0].op, ops[0].now);
      StepCounts(v, ops[0].op, ops[0].now, kind, lo, hi);
      assert NoReset(ops[1..]) by {
        assert forall i | 0 <= i < |ops[1..]| :: ops[1..][i] == ops[i + 1];
      }
      var first, rest := Sent(events, kind), Run(next, ops[1..]).1;
      NumbersCountUp(next, ops[1..], kind, lo, hi + |first|);
      SentConcat(events, rest, kind);
      ConsecutiveMore(first, Sent(rest, kind), hi);
    }
  }

  /** Message i of the service has the number behind the one before it. */
  lemma NumberAt(v: Proxy, ops: seq<Timed>, kind: Service, i: nat)
    requires AllPossible(ops) && NoReset(ops) && !kind.Other? && Number(v.numbers, kind) < 32
    requires forall j | 0 <= j < |v.pending| :: v.pending[j].kind != kind
    requires i < |Sent(Run(v, ops).1, kind)|
    ensures Sent(Run(v, ops).1, kind)[i] == (Number(v.numbers, kind) + i) % 32
  {
    var n := Number(v.numbers, kind);
    NoneNumbered(v.pending, kind, n);
    NumbersCountUp(v, ops, kind, n, n);
    ConsecutiveAt(Sent(Run(v, ops).1, kind), n, i);
    NumberOfIs(n + i);
  }

  /** As long as at most 32 requests of a service were sent since none of them was waiting, however many of them wait now,
      their numbers single them out. */
  lemma {:induction false} NumbersSingleOut(v: Proxy, ops: seq<Timed>, kind: Service)
    requires AllPossible(ops) && NoReset(ops) && !kind.Other? && Number(v.numbers, kind) < 32
    requires forall i | 0 <= i < |v.pending| :: v.pending[i].kind != kind
    requires |Sent(Run(v, ops).1, kind)| <= 32
    ensures SingledOut(Run(v, ops).0.pending, kind)
  {
    var n := Number(v.numbers, kind);
    NoneNumbered(v.pending, kind, n);
    NumbersCountUp(v, ops, kind, n, n);
    NumberedSinglesOut(Run(v, ops).0.pending, kind, n, n + |Sent(Run(v, ops).1, kind)|);
  }

  lemma {:induction false} NoneNumbered(pending: seq<Request>, kind: Service, n: nat)
    requires forall i | 0 <= i < |pending| :: pending[i].kind != kind
    ensures Numbered(pending, kind, n, n)
  {
    if pending != [] {
      NoneNumbered(pending[1..], kind, n);
    }
  }
}
