/** The loops that move frames between the library and the bus. */
module CanHandler {
  import opened Wrappers
  import opened Bits
  import opened CanId
  import opened Frames
  import opened TxOrder
  import opened Transfer
  import opened Reassembly
  import opened EndToEnd
  import opened Runs
  import opened Traffic
  import opened Canard
  import Crc = TransferCrc

  /** enqueuePackets: everything queued goes to the bus, in queue order. */
  method EnqueuePackets(canard: Instance) returns (written: seq<Frame>)
    requires canard.Valid()
    modifies canard, canard.mem
    ensures canard.Valid() && canard.Queue() == [] && written == old(canard.Queue())
    ensures canard.View() == old(canard.View()).(free := old(canard.View()).free + |written|)
  {
    written := [];
    ghost var q, m := canard.Queue(), canard.View();
    var top := canard.PeekTxQueue();
    while top != None
      invariant canard.Valid() && Writing(canard, q, m, written)
      invariant top == if canard.Queue() == [] then None else Some(canard.Queue()[0])
      decreases |canard.Queue()|
    {
      written, top := WriteNext(canard, top.value, written, q, m);
    }
    assert q == written;
  }

  /** What has been written, and what is still queued. */
  ghost predicate Writing(canard: Instance, q: seq<Frame>, m: Machine, written: seq<Frame>)
    requires canard.Valid()
    reads canard, canard.mem
  {
    q == written + canard.Queue() && canard.View() == m.(free := m.free + |written|)
  }

  /** One turn of the loop. */
  method WriteNext(canard: Instance, top: Frame, written: seq<Frame>, ghost q: seq<Frame>, ghost m: Machine)
    returns (more: seq<Frame>, next: Option<Frame>)
    requires canard.Valid() && Writing(canard, q, m, written) && canard.Queue() != [] && top == canard.Queue()[0]
    modifies canard, canard.mem
    ensures canard.Valid() && Writing(canard, q, m, more) && |canard.Queue()| < |old(canard.Queue())|
    ensures next == if canard.Queue() == [] then None else Some(canard.Queue()[0])
  {
    MoveOne(q, written, canard.Queue());
    more := written + [top];
    canard.PopTxQueue();
    next := canard.PeekTxQueue();
  }

  lemma MoveOne<T>(q: seq<T>, written: seq<T>, rest: seq<T>)
    requires q == written + rest && rest != []
    ensures q == (written + [rest[0]]) + rest[1..]
  {
  }

  /** The receiver and the length of the queue, as the specification sees them. */
  ghost function StationOf(canard: Instance): Station
    requires canard.Linked()
    reads canard, canard.mem
  {
    Station(canard.View(), |canard.Queue()|)
  }

  datatype Message = Message(frame: Frame, time: nat)

  /** A message from the bus always counts as an extended frame. */
  function Framed(message: Message): Event {
    Received(Frame(message.frame.id.(extended := true), message.frame.data), message.time)
  }

  function AllFramed(messages: seq<Message>): (bus: seq<Event>)
    ensures |bus| == |messages| && forall i | 0 <= i < |messages| :: bus[i] == Framed(messages[i])
  {
    seq(|messages|, i requires 0 <= i < |messages| => Framed(messages[i]))
  }

  /** onMessageReceived: the receiver runs through the messages in order; `delivered` is what the application sees
      of each. */
  method OnMessageReceived(canard: Instance, accept: Acceptor,
                           messages: seq<Message>) returns (delivered: seq<Option<RxTransfer>>)
    requires canard.Valid() && forall i | 0 <= i < |messages| :: |messages[i].frame.data| <= 8
    modifies canard, canard.mem
    ensures canard.Valid() && canard.Queue() == old(canard.Queue())
    ensures StationOf(canard) == Run(old(StationOf(canard)), accept, AllFramed(messages))
    ensures |delivered| == |messages|
    ensures forall i | 0 <= i < |messages| ::
              Instance.Sees(delivered[i], Deliveries(old(StationOf(canard)), accept, AllFramed(messages))[i],
                            Framed(messages[i]).frame)
  {
    ghost var n, bus := StationOf(canard), AllFramed(messages);
    delivered := [];
    var i := 0;
    assert bus[..0] == [];
    while i < |messages|
      invariant i <= |messages| && canard.Valid() && canard.Queue() == old(canard.Queue()) && |delivered| == i
      invariant StationOf(canard) == Run(n, accept, bus[..i])
      invariant SeenSoFar(delivered, n, accept, bus)
    {
      var seen := ReceiveMessage(canard, accept, messages[i], n, bus, i);
      SeenMore(delivered, seen, n, accept, bus);
      delivered := delivered + [seen];
      i := i + 1;
    }
    assert bus[..i] == bus;
  }

  ghost predicate SeenSoFar(delivered: seq<Option<RxTransfer>>, n: Station, accept: Acceptor, bus: seq<Event>) {
    && |delivered| <= |bus|
    && forall j | 0 <= j < |delivered| ::
         bus[j].Received? && Instance.Sees(delivered[j], Deliveries(n, accept, bus)[j], bus[j].frame)
  }

  lemma SeenMore(delivered: seq<Option<RxTransfer>>, seen: Option<RxTransfer>, n: Station, accept: Acceptor, bus: seq<Event>)
    requires SeenSoFar(delivered, n, accept, bus) && |delivered| < |bus| && bus[|delivered|].Received?
    requires Instance.Sees(seen, Deliveries(n, accept, bus)[|delivered|], bus[|delivered|].frame)
    ensures SeenSoFar(delivered + [seen], n, accept, bus)
  {
  }

  /** One message on the way. */
  method ReceiveMessage(canard: Instance, accept: Acceptor, message: Message, ghost n: Station, ghost bus: seq<Event>,
                        ghost i: nat)
    returns (seen: Option<RxTransfer>)
    requires canard.Valid() && |message.frame.data| <= 8 && i < |bus| && bus[i] == Framed(message)
    requires StationOf(canard) == Run(n, accept, bus[..i])
    modifies canard, canard.mem
    ensures canard.Valid() && canard.Queue() == old(canard.Queue()) && StationOf(canard) == Run(n, accept, bus[..i + 1])
    ensures Instance.Sees(seen, Deliveries(n, accept, bus)[i], bus[i].frame)
  {
    OutputAt(Stepping(accept), n, bus, i);
    var ok;
    seen, ok := canard.HandleRxFrame(accept, Frame(message.frame.id.(extended := true), message.frame.data), message.time);
  }

  /** A broadcast transfer as sendCanMessage makes it: always of the highest priority. */
  function BroadcastOf(source: nat, signature: bv64, dataType: nat, transferId: byte, payload: seq<byte>): (x: Sending)
    requires source < 0x80 && dataType < 0x1_0000
    ensures x.Intact()
  {
    Sealed(Id(MessageId(0, dataType, source), true, false, false), transferId, signature, payload)
  }

  /** A request or a response as sendCanServiceRequest and sendCanServiceResponse make it. */
  function ServiceOf(source: nat, destination: nat, signature: bv64, dataType: nat, transferId: byte, isRequest: bool,
                     payload: seq<byte>): (x: Sending)
    requires source < 0x80 && destination < 0x80 && dataType < 0x100
    ensures x.Intact()
  {
    Sealed(Id(ServiceId(0, dataType, isRequest, source, destination), true, false, false), transferId, signature, payload)
  }

  /** The sender counts its transfers as the receiver expects them, modulo 32. */
  lemma SameCount(t: byte)
    requires t < 32
    ensures Instance.Incremented(t) == NextTransferId(t) == if t == 31 then 0 else t + 1
  {
  }

  /** Short transfers do not use the checksum. */
  lemma FramesOf(x: Sending, crc: bv16)
    requires |x.payload| > 7 ==> crc == x.carried
    ensures TransferFrames(x.id, x.transferId, crc, x.payload) == x.Frames()
  {
  }

  /** sendCanMessage on an idle queue with blocks enough: the frames of the transfer go out, in order. */
  method SendCanMessage(canard: Instance, source: nat, signature: bv64, dataType: nat, transferId: byte, payload: seq<byte>)
    returns (written: seq<Frame>, nextTransferId: byte)
    requires canard.Valid() && 0 < source < 0x80 && dataType < 0x1_0000
    requires canard.Queue() == [] && FrameCount(|payload|) <= |canard.free|
    modifies canard, canard.mem
    ensures canard.Valid() && canard.Queue() == [] && |canard.free| == old(|canard.free|)
    ensures written == BroadcastOf(source, signature, dataType, transferId, payload).Frames()
    ensures nextTransferId == Instance.Incremented(transferId)
  {
    ghost var x := BroadcastOf(source, signature, dataType, transferId, payload);
    var result;
    result, nextTransferId := canard.Broadcast(source, signature, dataType, transferId, 0, payload);
    WholeTransfer(x);
    written := WriteTransfer(canard, x);
  }

  /** sendCanServiceRequest and sendCanServiceResponse, likewise; a response does not move the transfer ID on. */
  method SendCanService(canard: Instance, source: nat, destination: nat, signature: bv64, dataType: nat, transferId: byte,
                        isRequest: bool, payload: seq<byte>)
    returns (written: seq<Frame>, nextTransferId: byte)
    requires canard.Valid() && 0 < source < 0x80 && destination < 0x80 && dataType < 0x100
    requires canard.Queue() == [] && FrameCount(|payload|) <= |canard.free|
    modifies canard, canard.mem
    ensures canard.Valid() && canard.Queue() == [] && |canard.free| == old(|canard.free|)
    ensures written == ServiceOf(source, destination, signature, dataType, transferId, isRequest, payload).Frames()
    ensures nextTransferId == if isRequest then Instance.Incremented(transferId) else transferId
  {
    ghost var x := ServiceOf(source, destination, signature, dataType, transferId, isRequest, payload);
    var result;
    result, nextTransferId := canard.RequestOrRespond(source, destination, signature, dataType, transferId, 0, isRequest, payload);
    WholeTransfer(x);
    written := WriteTransfer(canard, x);
  }

  lemma WholeTransfer(x: Sending)
    ensures QueuedFrames(x)[..x.Count()] == QueuedFrames(x)
  {
  }

  /** What was queued of one transfer goes out as its frames. */
  method WriteTransfer(canard: Instance, ghost x: Sending) returns (written: seq<Frame>)
    requires canard.Valid() && canard.Queue() == InsertAll([], QueuedFrames(x)) && x.Intact()
    modifies canard, canard.mem
    ensures canard.Valid() && canard.Queue() == [] && |canard.free| == old(|canard.free|) + x.Count()
    ensures written == x.Frames()
  {
    FramesOf(x, QueuedChecksum(x));
    ghost var fs := QueuedFrames(x);
    QueueOfOneTransfer(fs, |fs|);
    assert fs[..|fs|] == fs;
    written := EnqueuePackets(canard);
  }

  function QueuedChecksum(x: Sending): bv16 {
    if |x.payload| > 7 then x.Checksum() else 0xFFFF
  }

  function QueuedFrames(x: Sending): (fs: seq<Frame>)
    ensures |fs| == x.Count()
  {
    TransferFrames(x.id, x.transferId, QueuedChecksum(x), x.payload)
  }

  /** The receiver has blocks for the transfer, and its state, if there is one, takes the first frame as a beginning. */
  ghost predicate Prepared(receiver: Instance, x: Sending, first: nat)
    requires receiver.Linked()
    reads receiver, receiver.mem
  {
    var s := Project(receiver.View(), x.Descriptor());
    Needed(x) <= Available(receiver.View(), x) && (s.Some? && x.Count() > 1 ==> Ready(s.value, x, first))
  }

  /** From payload to payload, through both pools: a broadcast of up to 1023 bytes is delivered exactly once, with its last
      frame, with exactly the payload, type, source, priority and transfer ID that were sent. */
  method BroadcastArrives(sender: Instance, receiver: Instance, accept: Acceptor, source: nat, signature: bv64,
                          dataType: nat,
                          transferId: byte, payload: seq<byte>, times: seq<nat>)
    returns (delivered: seq<Option<RxTransfer>>)
    requires sender != receiver && sender.mem != receiver.mem && sender.Valid() && receiver.Valid()
    requires 0 < source < 0x80 && dataType < 0x1_0000 && transferId & 0x1F == transferId && |payload| < 1024
    requires sender.Queue() == [] && FrameCount(|payload|) <= |sender.free|
    requires |times| == FrameCount(|payload|) && forall i | 0 <= i < |times| :: InTime(times[0], times[i])
    requires accept(dataType, Broadcast, source, 0) == Some(signature)
    requires Prepared(receiver, BroadcastOf(source, signature, dataType, transferId, payload), times[0])
    modifies sender, sender.mem, receiver, receiver.mem
    ensures sender.Valid() && receiver.Valid() && |delivered| == |times|
    ensures forall i | 0 <= i < |delivered| - 1 :: delivered[i] == None
    ensures delivered != [] && delivered[|delivered| - 1].Some?
    ensures var t := delivered[|delivered| - 1].value;
            && WellFormed(t) && Flat(t) == payload && t.timestamp == times[|times| - 1]
            && t.dataTypeId == dataType && t.transferType == Broadcast && t.source == source && t.destination == 0
            && t.priority == 0 && t.transferId == transferId
  {
    ghost var x := BroadcastOf(source, signature, dataType, transferId, payload);
    MessageIdFields(0, dataType, source);
    var written, next := SendCanMessage(sender, source, signature, dataType, transferId, payload);
    delivered := DeliverTransfer(receiver, accept, x, written, times);
  }

  /** The same for requests and responses, with their destination. */
  method ServiceArrives(sender: Instance, receiver: Instance, accept: Acceptor, source: nat, destination: nat,
                        signature: bv64,
                        dataType: nat, transferId: byte, isRequest: bool, payload: seq<byte>, times: seq<nat>)
    returns (delivered: seq<Option<RxTransfer>>)
    requires sender != receiver && sender.mem != receiver.mem && sender.Valid() && receiver.Valid()
    requires 0 < source < 0x80 && destination < 0x80 && dataType < 0x100
    requires transferId & 0x1F == transferId && |payload| < 1024
    requires sender.Queue() == [] && FrameCount(|payload|) <= |sender.free|
    requires |times| == FrameCount(|payload|) && forall i | 0 <= i < |times| :: InTime(times[0], times[i])
    requires accept(dataType, if isRequest then Request else Response, source, destination) == Some(signature)
    requires Prepared(receiver, ServiceOf(source, destination, signature, dataType, transferId, isRequest, payload), times[0])
    modifies sender, sender.mem, receiver, receiver.mem
    ensures sender.Valid() && receiver.Valid() && |delivered| == |times|
    ensures forall i | 0 <= i < |delivered| - 1 :: delivered[i] == None
    ensures delivered != [] && delivered[|delivered| - 1].Some?
    ensures var t := delivered[|delivered| - 1].value;
            && WellFormed(t) && Flat(t) == payload && t.timestamp == times[|times| - 1]
            && t.dataTypeId == dataType && t.transferType == (if isRequest then Request else Response)
            && t.source == source && t.destination == destination && t.priority == 0 && t.transferId == transferId
  {
    ghost var x := ServiceOf(source, destination, signature, dataType, transferId, isRequest, payload);
    ServiceIdFields(0, dataType, isRequest, source, destination);
    var written, next := SendCanService(sender, source, destination, signature, dataType, transferId, isRequest, payload);
    delivered := DeliverTransfer(receiver, accept, x, written, times);
  }

  /** The frames of a transfer on a quiet bus. */
  method DeliverTransfer(receiver: Instance, accept: Acceptor, ghost x: Sending, written: seq<Frame>, times: seq<nat>)
    returns (delivered: seq<Option<RxTransfer>>)
    requires receiver.Valid() && x.Valid() && x.Intact() && |x.payload| < 1024 && Accepts(accept, x) && written == x.Frames()
    requires x.Count() == |times| > 0 && forall i | 0 <= i < |times| :: InTime(times[0], times[i])
    requires Prepared(receiver, x, times[0])
    modifies receiver, receiver.mem
    ensures receiver.Valid() && |delivered| == |times| && OnceAtTheEnd(x, times, delivered)
  {
    ghost var n := StationOf(receiver);
    delivered := OnMessageReceived(receiver, accept, Messages(written, times));
    QuietBusDeliveries(n, accept, x, times);
    SeenOnBus(n, accept, x, times, delivered);
  }

  /** The frames as messages from the bus. */
  function Messages(fs: seq<Frame>, times: seq<nat>): (messages: seq<Message>)
    requires |fs| == |times|
    ensures |messages| == |fs| && forall i | 0 <= i < |fs| :: messages[i] == Message(fs[i], times[i])
  {
    seq(|fs|, i requires 0 <= i < |fs| => Message(fs[i], times[i]))
  }

  lemma SeenOnBus(n: Station, accept: Acceptor, x: Sending, times: seq<nat>, delivered: seq<Option<RxTransfer>>)
    requires x.Valid() && |x.payload| < 1024 && |times| == |delivered| == x.Count() > 0
    requires var ds := Deliveries(n, accept, Stamped(x.Frames(), times));
             && ds[|ds| - 1] == Some(Expected(x, times[|ds| - 1])) && forall i | 0 <= i < |ds| - 1 :: ds[i] == None
    requires forall i | 0 <= i < |times| ::
               Instance.Sees(delivered[i], Deliveries(n, accept, AllFramed(Messages(x.Frames(), times)))[i],
                             Framed(Messages(x.Frames(), times)[i]).frame)
    ensures OnceAtTheEnd(x, times, delivered)
  {
    var messages, bus := Messages(x.Frames(), times), Stamped(x.Frames(), times);
    assert AllFramed(messages) == bus;
    var ds := Deliveries(n, accept, bus);
    forall i | 0 <= i < |ds| ensures Instance.Sees(delivered[i], ds[i], x.Frames()[i]) {
      assert Framed(messages[i]).frame == x.Frames()[i];
    }
    SeenOnce(x, times, ds, delivered);
  }

  /** Nothing before the last frame, and with it exactly what was sent. */
  ghost predicate OnceAtTheEnd(x: Sending, times: seq<nat>, delivered: seq<Option<RxTransfer>>)
    requires |delivered| == |times| > 0
  {
    && (forall i | 0 <= i < |delivered| - 1 :: delivered[i] == None) && delivered[|delivered| - 1].Some?
    && var t, e := delivered[|delivered| - 1].value, Expected(x, times[|times| - 1]);
       && WellFormed(t) && Flat(t) == x.payload && t.timestamp == e.timestamp
       && t.dataTypeId == e.dataTypeId && t.transferType == e.transferType && t.source == e.source
       && t.destination == e.destination && t.priority == e.priority && t.transferId == e.transferId
  }

  /** What the application has seen of a transfer that came out of the state machine once, with the last frame. */
  lemma SeenOnce(x: Sending, times: seq<nat>, ds: seq<Option<Delivery>>, delivered: seq<Option<RxTransfer>>)
    requires x.Valid() && |x.payload| < 1024 && |times| == |ds| == |delivered| == x.Count() > 0
    requires ds[|ds| - 1] == Some(Expected(x, times[|ds| - 1])) && forall i | 0 <= i < |ds| - 1 :: ds[i] == None
    requires forall i | 0 <= i < |ds| :: Instance.Sees(delivered[i], ds[i], x.Frames()[i])
    ensures OnceAtTheEnd(x, times, delivered)
  {
    LastBodyBound(x);
    assert Instance.Sees(delivered[|ds| - 1], ds[|ds| - 1], x.Frames()[|ds| - 1]);
    forall i | 0 <= i < |delivered| - 1 ensures delivered[i] == None {
      assert Instance.Sees(delivered[i], ds[i], x.Frames()[i]);
    }
  }

  lemma LastBodyBound(x: Sending)
    requires x.Count() > 0 && |x.payload| < 1024
    ensures x.Frames()[x.Count() - 1].data != [] && |x.payload| < 1024 + |Body(x.Frames()[x.Count() - 1])|
  {
  }
}
