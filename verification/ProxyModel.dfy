/** The master's view of one remote device: outstanding requests, their outcomes, and the discovery of its fields. */
module ProxyModel {
  import opened Wrappers
  import opened Bits

  const REQUEST_TIMEOUT := 100_000
  const MAX_RETRIES := 8

  const SUCCESS: byte := 0
  const COMPONENT_NOT_FOUND: byte := 1
  const FIELD_NOT_FOUND: byte := 2
  const FIELD_TIMEOUT: byte := 10
  const FILE_TIMEOUT: byte := 13
  const QUEUE_ERROR: byte := 14
  const COMMAND_ERROR: byte := 17

  datatype Service = GetNodeInfo | GetFieldInfo | FieldRead | FieldWrite | GetFileInfo | FileRead | FileWrite | Other

  predicate Askable(kind: Service) {
    !kind.GetNodeInfo? && !kind.Other?
  }

  predicate AboutField(kind: Service) {
    kind.GetFieldInfo? || kind.FieldRead? || kind.FieldWrite?
  }

  /** A request descriptor. The caller stands for the observer and its token; None is the null observer. */
  datatype Request = Request(kind: Service, number: nat, deadline: nat, caller: Option<nat>, id: nat, position: nat)

  datatype Answer = Answer(result: byte, position: nat, fieldType: byte, data: seq<byte>)

  datatype Event =
    | Callback(caller: nat, kind: Service, id: nat, answer: Answer)
    | Send(kind: Service, number: nat, id: nat, position: nat, data: seq<byte>)
    | Ready

  datatype Mode = REQUEST_NODE_INFO | REQUEST_FIELDS | IDLE | ERROR

  datatype Numbers = Numbers(getNodeInfo: nat, getFieldInfo: nat, fieldRead: nat, fieldWrite: nat, getFileInfo: nat,
                             fileRead: nat, fileWrite: nat)

  datatype Proxy = Proxy(attached: bool, maxRequests: nat, maxFields: nat, mode: Mode, retries: nat, types: seq<byte>,
                         nextRequestTime: nat, numbers: Numbers, pending: seq<Request>)

  /** Transfer numbers count modulo 32. */
  function NextNumber(n: nat): nat { if n + 1 >= 32 then 0 else n + 1 }

  function Number(n: Numbers, kind: Service): nat {
    match kind
    case GetNodeInfo => n.getNodeInfo
    case GetFieldInfo => n.getFieldInfo
    case FieldRead => n.fieldRead
    case FieldWrite => n.fieldWrite
    case GetFileInfo => n.getFileInfo
    case FileRead => n.fileRead
    case FileWrite => n.fileWrite
    case Other => 0
  }

  function Advanced(n: Numbers, kind: Service): Numbers {
    match kind
    case GetNodeInfo => n.(getNodeInfo := NextNumber(n.getNodeInfo))
    case GetFieldInfo => n.(getFieldInfo := NextNumber(n.getFieldInfo))
    case FieldRead => n.(fieldRead := NextNumber(n.fieldRead))
    case FieldWrite => n.(fieldWrite := NextNumber(n.fieldWrite))
    case GetFileInfo => n.(getFileInfo := NextNumber(n.getFileInfo))
    case FileRead => n.(fileRead := NextNumber(n.fileRead))
    case FileWrite => n.(fileWrite := NextNumber(n.fileWrite))
    case Other => n
  }

  function Call(caller: Option<nat>, kind: Service, id: nat, answer: Answer): seq<Event> {
    if caller.Some? then [Callback(caller.value, kind, id, answer)] else []
  }

  function Failure(result: byte): Answer { Answer(result, 0, 0, []) }

  // ---- Asking ----

  /** A descriptor from the pool, behind the others, and a message to the device; or no descriptor. */
  function Enqueue(v: Proxy, kind: Service, id: nat, position: nat, data: seq<byte>, caller: Option<nat>, now: nat)
    : (Proxy, seq<Event>)
    requires |v.pending| < v.maxRequests
  {
    var number := Number(v.numbers, kind);
    (v.(pending := v.pending + [Request(kind, number, now + REQUEST_TIMEOUT, caller, id, position)],
        numbers := Advanced(v.numbers, kind)),
     [Send(kind, number, id, position, data)])
  }

  /** fieldRequestInfo, fieldRead, fieldWrite, fileRequestInfo, fileRead and fileWrite. */
  function Ask(v: Proxy, kind: Service, id: nat, position: nat, data: seq<byte>, caller: Option<nat>, now: nat)
    : (Proxy, seq<Event>)
    requires Askable(kind)
  {
    if AboutField(kind) && id >= |v.types| then (v, Call(caller, kind, id, RefusalOf(kind, position, FIELD_NOT_FOUND)))
    else if !v.attached then (v, Call(caller, kind, id, RefusalOf(kind, position, COMMAND_ERROR)))
    else if |v.pending| >= v.maxRequests then (v, Call(caller, kind, id, RefusalOf(kind, position, QUEUE_ERROR)))
    else Enqueue(v, kind, id, position, data, caller, now)
  }

  /** File transfers are refused together with their position. */
  function RefusalOf(kind: Service, position: nat, result: byte): Answer {
    Answer(result, if kind.FileRead? || kind.FileWrite? then position else 0, 0, [])
  }

  /** sendGetFieldInfo: without a descriptor nothing is sent. */
  function SendGetFieldInfo(v: Proxy, field: nat, now: nat): (Proxy, seq<Event>) {
    if |v.pending| >= v.maxRequests then (v, []) else Enqueue(v, GetFieldInfo, field, 0, [], None, now)
  }

  // ---- Answers ----

  /** Position of the oldest request with this service and number, or the number of requests. */
  function FindRequest(pending: seq<Request>, kind: Service, number: nat): (i: nat)
    ensures i <= |pending|
    ensures i < |pending| ==> pending[i].kind == kind && pending[i].number == number
    ensures forall j | 0 <= j < i :: pending[j].kind != kind || pending[j].number != number
  {
    if pending == [] || (pending[0].kind == kind && pending[0].number == number) then 0
    else 1 + FindRequest(pending[1..], kind, number)
  }

  function SizeOfFieldType(t: byte): nat {
    if t == 0 || t == 1 || t == 2 || t == 6 then 1
    else if t == 3 || t == 7 then 2
    else if t == 4 || t == 8 || t == 10 then 4
    else if t == 5 || t == 9 || t == 11 then 8
    else 0
  }

  predicate GoodLength(kind: Service, len: nat) {
    match kind
    case GetFieldInfo => 6 <= len <= 62 || len == 1
    case FieldRead => 1 <= len <= 9
    case FieldWrite => len == 1
    case GetFileInfo => len == 10 || len == 1
    case FileRead => 1 <= len <= 241
    case FileWrite => len == 1
    case _ => false
  }

  /** What the observer is told when a response of acceptable length comes. */
  function AnswerTo(r: Request, types: seq<byte>, payload: seq<byte>): Answer
    requires payload != []
  {
    var result := payload[0];
    match r.kind
    case GetFieldInfo => if result == SUCCESS then Answer(SUCCESS, 0, FieldTypeIn(payload), payload) else Failure(result)
    case FieldRead =>
      if result == SUCCESS && r.id < |types| then
        Answer(SUCCESS, 0, types[r.id], payload[1..Min(1 + SizeOfFieldType(types[r.id]), |payload|)])
      else Failure(result)
    case FileRead =>
      Answer(result, r.position, 0, if result == SUCCESS then payload[1..] else [])
    case GetFileInfo => if result == SUCCESS then Answer(SUCCESS, 0, 0, payload) else Failure(result)
    case FileWrite => Answer(result, r.position, 0, [])
    case _ => Failure(result)
  }

  function FieldTypeIn(payload: seq<byte>): byte { if |payload| > 1 then payload[1] else 0 }

  /** The callback a response leads to. Read and write responses are checked against the known fields. */
  function Respond(r: Request, types: seq<byte>, payload: seq<byte>): seq<Event> {
    if (r.kind.FieldRead? || r.kind.FieldWrite?) && r.id >= |types| then []
    else if !GoodLength(r.kind, |payload|) then
      Call(r.caller, r.kind, r.id, RefusalOf(r.kind, r.position, COMMAND_ERROR))
    else Call(r.caller, r.kind, r.id, AnswerTo(r, types, payload))
  }

  function WithoutAt(pending: seq<Request>, i: nat): seq<Request> {
    if i < |pending| then pending[..i] + pending[i + 1..] else pending
  }

  // ---- Discovery ----

  function BecomeReady(v: Proxy): (Proxy, seq<Event>) { (v.(mode := IDLE), [Ready]) }

  /** Status, versions, identifier and certificate are all there, and at least one byte of the name. */
  predicate NodeInfoComplete(payload: seq<byte>) {
    |payload| > 40 && |payload| > 41 + payload[40] as nat
  }

  function NodeInfoArrived(v: Proxy, payload: seq<byte>, now: nat): (Proxy, seq<Event>) {
    if v.mode == REQUEST_NODE_INFO && NodeInfoComplete(payload) then
      if v.maxFields > 0 then SendGetFieldInfo(v.(mode := REQUEST_FIELDS, retries := MAX_RETRIES), 0, now)
      else BecomeReady(v)
    else (v, [])
  }

  /** What a field description does to discovery: the next field is asked for, or the device is ready. */
  function FieldInfoArrived(v: Proxy, field: nat, payload: seq<byte>, now: nat): (Proxy, seq<Event>)
    requires payload != []
  {
    if v.mode != REQUEST_FIELDS then (v, [])
    else if payload[0] == SUCCESS then
      if field != |v.types| then (v, [])
      else
        var grown := v.(types := v.types + [FieldTypeIn(payload)]);
        if |grown.types| < v.maxFields then SendGetFieldInfo(grown.(retries := MAX_RETRIES), |grown.types|, now)
        else BecomeReady(grown)
    else if payload[0] == FIELD_NOT_FOUND then BecomeReady(v)
    else (v, [])
  }

  /** What a response does before its descriptor goes back to the pool. */
  function Discover(v: Proxy, kind: Service, number: nat, payload: seq<byte>, now: nat): (Proxy, seq<Event>) {
    var i := FindRequest(v.pending, kind, number);
    if kind.GetNodeInfo? then NodeInfoArrived(v, payload, now)
    else if kind.GetFieldInfo? && i < |v.pending| && GoodLength(kind, |payload|) then
      FieldInfoArrived(v, v.pending[i].id, payload, now)
    else (v, [])
  }

  /** processServiceResponse: discovery first, then the observer, then the descriptor goes. */
  function Response(v: Proxy, kind: Service, number: nat, payload: seq<byte>, now: nat): (Proxy, seq<Event>) {
    var i := FindRequest(v.pending, kind, number);
    var (next, events) := Discover(v, kind, number, payload, now);
    if i < |v.pending| then
      (next.(pending := WithoutAt(next.pending, i)), events + Respond(v.pending[i], v.types, payload))
    else (next, events)
  }

  // ---- Time ----

  function TimeoutOf(kind: Service): byte {
    if AboutField(kind) then FIELD_TIMEOUT else FILE_TIMEOUT
  }

  function Expired(r: Request): seq<Event> { Call(r.caller, r.kind, r.id, Failure(TimeoutOf(r.kind))) }

  function Detached(r: Request): seq<Event> { Call(r.caller, r.kind, r.id, Failure(COMPONENT_NOT_FOUND)) }

  /** purgeTimedOutDescriptors looks at the front only. */
  function Remaining(pending: seq<Request>, now: nat): seq<Request> {
    if pending == [] || pending[0].deadline > now then pending else Remaining(pending[1..], now)
  }

  function TimedOut(pending: seq<Request>, now: nat): seq<Event> {
    if pending == [] || pending[0].deadline > now then [] else Expired(pending[0]) + TimedOut(pending[1..], now)
  }

  function AllDetached(pending: seq<Request>): seq<Event> {
    if pending == [] then [] else Detached(pending[0]) + AllDetached(pending[1..])
  }

  predicate Discovering(v: Proxy) { v.mode == REQUEST_NODE_INFO || v.mode == REQUEST_FIELDS }

  /** One attempt of the discovery: ask once more, or give up. */
  function Attempt(v: Proxy, now: nat): (Proxy, seq<Event>)
    requires Discovering(v)
  {
    if v.retries > 0 then
      var tried := v.(retries := v.retries - 1);
      if v.mode == REQUEST_NODE_INFO then
        (tried.(numbers := Advanced(v.numbers, GetNodeInfo)), [Send(GetNodeInfo, v.numbers.getNodeInfo, 0, 0, [])])
      else SendGetFieldInfo(tried, |v.types|, now)
    else if v.mode == REQUEST_NODE_INFO then (v.(mode := ERROR), [])
    else BecomeReady(v)
  }

  predicate Due(v: Proxy, turn: bool, now: nat) { Discovering(v) && turn && now >= v.nextRequestTime }

  /** onTimeoutOccurred; turn says that this is the next node to be initialized. */
  function Tick(v: Proxy, turn: bool, now: nat): (Proxy, seq<Event>) {
    var purged := v.(pending := Remaining(v.pending, now));
    if Due(v, turn, now) then
      var (next, events) := Attempt(purged, now);
      (next.(nextRequestTime := now + REQUEST_TIMEOUT), TimedOut(v.pending, now) + events)
    else (purged, TimedOut(v.pending, now))
  }

  /** The time to be called again: the first deadline, or the next attempt. */
  function Wake(v: Proxy, turn: bool, now: nat): Option<nat> {
    var rest := Remaining(v.pending, now);
    var deadline := if rest == [] then None else Some(rest[0].deadline);
    if Due(v, turn, now) && (deadline == None || now + REQUEST_TIMEOUT < deadline.value) then Some(now + REQUEST_TIMEOUT)
    else deadline
  }

  /** Assigning a proxy anew: every outstanding request is told so first. */
  function Reset(v: Proxy, attached: bool, now: nat): (Proxy, seq<Event>) {
    (v.(attached := attached, mode := REQUEST_NODE_INFO, retries := MAX_RETRIES, types := [], nextRequestTime := now,
        numbers := Numbers(0, 0, 0, 0, 0, 0, 0), pending := []),
     AllDetached(v.pending))
  }

  // ---- Runs ----

  datatype Op =
    | DoAsk(kind: Service, id: nat, position: nat, data: seq<byte>, caller: Option<nat>)
    | DoResponse(kind: Service, number: nat, payload: seq<byte>)
    | DoTick(turn: bool)
    | DoReset(attached: bool)

  predicate Possible(op: Op) { op.DoAsk? ==> Askable(op.kind) }

  function Step(v: Proxy, op: Op, now: nat): (Proxy, seq<Event>)
    requires Possible(op)
  {
    match op
    case DoAsk(kind, id, position, data, caller) => Ask(v, kind, id, position, data, caller, now)
    case DoResponse(kind, number, payload) => Response(v, kind, number, payload, now)
    case DoTick(turn) => Tick(v, turn, now)
    case DoReset(attached) => Reset(v, attached, now)
  }

  datatype Timed = Timed(op: Op, now: nat)

  ghost predicate AllPossible(ops: seq<Timed>) {
    forall i | 0 <= i < |ops| :: Possible(ops[i].op)
  }

  function Run(v: Proxy, ops: seq<Timed>): (Proxy, seq<Event>)
    requires AllPossible(ops)
    decreases |ops|
  {
    if ops == [] then (v, [])
    else
      var (next, events) := Step(v, ops[0].op, ops[0].now);
      var (last, more) := Run(next, ops[1..]);
      (last, events + more)
  }
}
