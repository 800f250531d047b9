/** What the callers of a proxy are told, in numbers: results, positions, types and data. */
module ProxyAnswers {
  import opened Wrappers
  import opened Bits
  import opened ProxyModel
  import opened ProxyProperties

  /** Request i is the oldest with this service and number, and somebody waits for it. */
  ghost predicate Awaited(v: Proxy, kind: Service, number: nat, i: nat, caller: nat) {
    && i < |v.pending| && v.pending[i].kind == kind && v.pending[i].number == number && v.pending[i].caller == Some(caller)
    && forall j | 0 <= j < i :: v.pending[j].kind != kind || v.pending[j].number != number
  }

  /** Bytes of a value: bool, char and 8-bit numbers, 16 bits, 32 bits and float, 64 bits and double. */
  predicate IsSizeOf(size: nat, fieldType: byte) {
    || (size == 1 && (fieldType == 0 || fieldType == 1 || fieldType == 2 || fieldType == 6))
    || (size == 2 && (fieldType == 3 || fieldType == 7))
    || (size == 4 && (fieldType == 4 || fieldType == 8 || fieldType == 10))
    || (size == 8 && (fieldType == 5 || fieldType == 9 || fieldType == 11))
  }

  lemma {:induction false} Found(v: Proxy, kind: Service, number: nat, i: nat, caller: nat)
    requires Awaited(v, kind, number, i, caller)
    ensures FindRequest(v.pending, kind, number) == i
  {
  }

  /** The callback and nothing else; the request is off the list and the rest of the proxy is as it was. */
  ghost predicate Tells(v: Proxy, kind: Service, number: nat, payload: seq<byte>, now: nat, i: nat, event: Event) {
    Step(v, DoResponse(kind, number, payload), now) == (v.(pending := WithoutAt(v.pending, i)), [event])
  }

  lemma OnlyAnswer(v: Proxy, kind: Service, number: nat, payload: seq<byte>, now: nat, i: nat, caller: nat)
    requires Awaited(v, kind, number, i, caller) && !kind.GetNodeInfo? && !kind.GetFieldInfo?
    ensures Step(v, DoResponse(kind, number, payload), now)
         == (v.(pending := WithoutAt(v.pending, i)), Respond(v.pending[i], v.types, payload))
  {
    Found(v, kind, number, i, caller);
    assert [] + Respond(v.pending[i], v.types, payload) == Respond(v.pending[i], v.types, payload);
  }

  /** A field that was read: exactly the bytes of the value, behind the status byte, and the type of the field. */
  lemma FieldReadTells(v: Proxy, number: nat, value: seq<byte>, now: nat, i: nat, caller: nat)
    requires Ok(v) && Awaited(v, FieldRead, number, i, caller) && IsSizeOf(|value|, v.types[v.pending[i].id])
    ensures var id := v.pending[i].id;
            Tells(v, FieldRead, number, [0] + value, now, i, Callback(caller, FieldRead, id, Answer(0, 0, v.types[id], value)))
  {
    OnlyAnswer(v, FieldRead, number, [0] + value, now, i, caller);
    assert ([0] + value)[1..1 + |value|] == value;
  }

  /** A chunk of a file that was read: exactly its bytes, and the position that was asked for. */
  lemma FileReadTells(v: Proxy, number: nat, chunk: seq<byte>, now: nat, i: nat, caller: nat)
    requires Awaited(v, FileRead, number, i, caller) && |chunk| <= 240
    ensures var r := v.pending[i];
            Tells(v, FileRead, number, [0] + chunk, now, i, Callback(caller, FileRead, r.id, Answer(0, r.position, 0, chunk)))
  {
    OnlyAnswer(v, FileRead, number, [0] + chunk, now, i, caller);
    assert ([0] + chunk)[1..] == chunk;
  }

  /** A write of a field or a file: the result of the device, and for a file the position that was asked for. */
  lemma WriteTells(v: Proxy, kind: Service, number: nat, result: byte, now: nat, i: nat, caller: nat)
    requires Ok(v) && Awaited(v, kind, number, i, caller) && (kind.FieldWrite? || kind.FileWrite?)
    ensures var r := v.pending[i];
            Tells(v, kind, number, [result], now, i,
                  Callback(caller, kind, r.id, Answer(result, if kind.FileWrite? then r.position else 0, 0, [])))
  {
    OnlyAnswer(v, kind, number, [result], now, i, caller);
  }

  /** What the device says of a file: the packet as it is. */
  lemma FileInfoTells(v: Proxy, number: nat, payload: seq<byte>, now: nat, i: nat, caller: nat)
    requires Awaited(v, GetFileInfo, number, i, caller) && |payload| == 10 && payload[0] == 0
    ensures Tells(v, GetFileInfo, number, payload, now, i,
                  Callback(caller, GetFileInfo, v.pending[i].id, Answer(0, 0, 0, payload)))
  {
    OnlyAnswer(v, GetFileInfo, number, payload, now, i, caller);
  }

  /** The lengths of the packets. */
  predicate FitsService(kind: Service, len: nat) {
    match kind
    case FieldRead => 1 <= len <= 9
    case FieldWrite => len == 1
    case GetFileInfo => len == 1 || len == 10
    case FileRead => 1 <= len <= 241
    case FileWrite => len == 1
    case GetFieldInfo => len == 1 || 6 <= len <= 62
    case _ => false
  }

  /** A device that refuses: its result, and no data. */
  lemma RefusalTells(v: Proxy, kind: Service, number: nat, payload: seq<byte>, now: nat, i: nat, caller: nat)
    requires Ok(v) && Awaited(v, kind, number, i, caller) && Askable(kind) && !kind.GetFieldInfo?
    requires FitsService(kind, |payload|) && payload[0] != 0
    ensures var r := v.pending[i];
            Tells(v, kind, number, payload, now, i,
                  Callback(caller, kind, r.id,
                           Answer(payload[0], if kind.FileRead? || kind.FileWrite? then r.position else 0, 0, [])))
  {
    OnlyAnswer(v, kind, number, payload, now, i, caller);
  }

  /** A packet of the wrong length: command error, result 17. */
  lemma WrongLengthTells(v: Proxy, kind: Service, number: nat, payload: seq<byte>, now: nat, i: nat, caller: nat)
    requires Ok(v) && Awaited(v, kind, number, i, caller) && Askable(kind) && !FitsService(kind, |payload|)
    ensures var r := v.pending[i];
            Tells(v, kind, number, payload, now, i,
                  Callback(caller, kind, r.id, Answer(17, if kind.FileRead? || kind.FileWrite? then r.position else 0, 0, [])))
  {
    if kind.GetFieldInfo? {
      Found(v, kind, number, i, caller);
      assert [] + Respond(v.pending[i], v.types, payload) == Respond(v.pending[i], v.types, payload);
    } else {
      OnlyAnswer(v, kind, number, payload, now, i, caller);
    }
  }

  /** A field description: its type is byte 1, or the device refuses; discovery, which goes first, tells no caller. */
  lemma {:induction false} FieldInfoTells(v: Proxy, number: nat, payload: seq<byte>, now: nat, i: nat, caller: nat)
    requires Awaited(v, GetFieldInfo, number, i, caller) && FitsService(GetFieldInfo, |payload|)
    ensures var events := Step(v, DoResponse(GetFieldInfo, number, payload), now).1;
            && events != []
            && events[|events| - 1] ==
                 Callback(caller, GetFieldInfo, v.pending[i].id,
                          if payload[0] != 0 then Answer(payload[0], 0, 0, [])
                          else Answer(0, 0, if |payload| > 1 then payload[1] else 0, payload))
            && forall e | e in events[..|events| - 1] :: !e.Callback?
  {
    Found(v, GetFieldInfo, number, i, caller);
  }

  /** Nobody's answer: no request waits with this number. */
  lemma {:induction false} UnknownTells(v: Proxy, kind: Service, number: nat, payload: seq<byte>, now: nat)
    requires forall j | 0 <= j < |v.pending| :: v.pending[j].kind != kind || v.pending[j].number != number
    ensures forall e | e in Step(v, DoResponse(kind, number, payload), now).1 :: !e.Callback?
    ensures !kind.GetNodeInfo? ==> Step(v, DoResponse(kind, number, payload), now) == (v, [])
  {
  }

  // ---- Requests that get no answer ----

  /** The callers of these requests, in order, with a result for fields and one for files. */
  function Failed(rs: seq<Request>, field: byte, file: byte): seq<Event> {
    if rs == [] then []
    else
      var r := rs[0];
      var result := match r.kind
                    case GetFieldInfo => field case FieldRead => field case FieldWrite => field case _ => file;
      (if r.caller.Some? then [Callback(r.caller.value, r.kind, r.id, Answer(result, 0, 0, []))] else [])
      + Failed(rs[1..], field, file)
  }

  lemma {:induction false} TimedOutIs(pending: seq<Request>, now: nat, k: nat)
    requires k <= |pending| && (forall i | 0 <= i < k :: pending[i].deadline <= now)
    requires k < |pending| ==> pending[k].deadline > now
    ensures TimedOut(pending, now) == Failed(pending[..k], 10, 13) && Remaining(pending, now) == pending[k..]
    decreases k
  {
    if k > 0 {
      assert pending[..k][1..] == pending[1..][..k - 1];
      TimedOutIs(pending[1..], now, k - 1);
    }
  }

  /** A tick tells the callers of the requests at the front whose time is over, first of all: result 10 for a field, 13 for a
      file. */
  lemma TimeoutTells(v: Proxy, turn: bool, now: nat, k: nat)
    requires k <= |v.pending| && (forall i | 0 <= i < k :: v.pending[i].deadline <= now)
    requires k < |v.pending| ==> v.pending[k].deadline > now
    ensures Failed(v.pending[..k], 10, 13) <= Step(v, DoTick(turn), now).1
    ensures forall e | e in Step(v, DoTick(turn), now).1[|Failed(v.pending[..k], 10, 13)|..] :: !e.Callback?
  {
    TimedOutIs(v.pending, now, k);
    if Due(v, turn, now) {
      var told, more := TimedOut(v.pending, now), Attempt(v.(pending := Remaining(v.pending, now)), now).1;
      assert (told + more)[|told|..] == more;
    }
  }

  lemma {:induction false} AllDetachedIs(pending: seq<Request>)
    ensures AllDetached(pending) == Failed(pending, 1, 1)
  {
    if pending != [] {
      AllDetachedIs(pending[1..]);
    }
  }

  /** Assigning the proxy anew tells all callers: result 1. */
  lemma DetachTells(v: Proxy, attached: bool, now: nat)
    ensures Step(v, DoReset(attached), now).1 == Failed(v.pending, 1, 1)
  {
    AllDetachedIs(v.pending);
  }

  // ---- Requests ----

  /** A request that is taken: its message goes out with the next number, and it waits for 100 ms. */
  lemma AskSends(v: Proxy, kind: Service, id: nat, position: nat, data: seq<byte>, caller: Option<nat>, now: nat)
    requires Askable(kind) && v.attached && |v.pending| < v.maxRequests && (AboutField(kind) ==> id < |v.types|)
    ensures var (next, events) := Step(v, DoAsk(kind, id, position, data, caller), now);
            var number := Number(v.numbers, kind);
            && events == [Send(kind, number, id, position, data)]
            && next.pending == v.pending + [Request(kind, number, now + 100_000, caller, id, position)]
            && next.types == v.types && next.attached && next.maxRequests == v.maxRequests
  {
  }

  /** A request that is not: result 2 for a field that is not known, 17 for a device that is gone, 14 without a descriptor. */
  lemma AskRefuses(v: Proxy, kind: Service, id: nat, position: nat, data: seq<byte>, caller: nat, now: nat)
    requires Askable(kind)
    requires ((kind.GetFieldInfo? || kind.FieldRead? || kind.FieldWrite?) && id >= |v.types|) || !v.attached
             || |v.pending| >= v.maxRequests
    ensures var unknown := (kind.GetFieldInfo? || kind.FieldRead? || kind.FieldWrite?) && id >= |v.types|;
            var result := if unknown then 2 else if !v.attached then 17 else 14;
            Step(v, DoAsk(kind, id, position, data, Some(caller)), now)
              == (v, [Callback(caller, kind, id, Answer(result, if kind.FileRead? || kind.FileWrite? then position else 0, 0, []))])
  {
  }

  /** In any run: a field is asked for, the device answers, and the caller has exactly the value. */
  lemma {:induction false} FieldReadRoundTrip(v: Proxy, before: seq<Timed>, id: nat, caller: nat, t0: nat, value: seq<byte>, t1: nat)
    requires Ok(v) && AllPossible(before)
    requires var w := Run(v, before).0;
             && w.attached && |w.pending| < w.maxRequests && id < |w.types| && IsSizeOf(|value|, w.types[id])
             && forall j | 0 <= j < |w.pending| :: w.pending[j].kind != FieldRead || w.pending[j].number != w.numbers.fieldRead
    ensures var (w, told) := Run(v, before);
            var both := [Timed(DoAsk(FieldRead, id, 0, [], Some(caller)), t0),
                         Timed(DoResponse(FieldRead, w.numbers.fieldRead, [0] + value), t1)];
            && AllPossible(before + both)
            && Run(v, before + both).1
                 == told + [Send(FieldRead, w.numbers.fieldRead, id, 0, []),
                            Callback(caller, FieldRead, id, Answer(0, 0, w.types[id], value))]
  {
    var (w, told) := Run(v, before);
    var ask, response := DoAsk(FieldRead, id, 0, [], Some(caller)), DoResponse(FieldRead, w.numbers.fieldRead, [0] + value);
    var both := [Timed(ask, t0), Timed(response, t1)];
    OneOutcomePerRequest(v, before, Key(0, Other, 0));
    AskSends(w, FieldRead, id, 0, [], Some(caller), t0);
    StepOk(w, ask, t0);
    var asked := Step(w, ask, t0).0;
    FieldReadTells(asked, w.numbers.fieldRead, value, t1, |w.pending|, caller);
    RunConcat(v, before, both);
    TwoSteps(w, ask, t0, response, t1);
    var sent := Send(FieldRead, w.numbers.fieldRead, id, 0, []);
    var answer := Callback(caller, FieldRead, id, Answer(0, 0, w.types[id], value));
    assert Step(w, ask, t0).1 == [sent] && Step(asked, response, t1).1 == [answer];
    assert [sent] + [answer] == [sent, answer];
  }

  lemma {:induction false} TwoSteps(v: Proxy, a: Op, t0: nat, b: Op, t1: nat)
    requires Possible(a) && Possible(b)
    ensures AllPossible([Timed(a, t0), Timed(b, t1)])
    ensures var (mid, first) := Step(v, a, t0); var (last, second) := Step(mid, b, t1);
            Run(v, [Timed(a, t0), Timed(b, t1)]) == (last, first + second)
  {
    var both := [Timed(a, t0), Timed(b, t1)];
    assert both[1..] == [Timed(b, t1)] && both[1..][1..] == [];
    var mid := Step(v, a, t0).0;
    var last, second := Step(mid, b, t1).0, Step(mid, b, t1).1;
    assert Run(last, []) == (last, []);
    assert second + [] == second;
    assert Run(mid, [Timed(b, t1)]) == (last, second);
  }
}
