/** What happens to a station: frames arrive, stale states are cleaned up, and the TX queue takes blocks from the same pool
    and gives them back. */
module Traffic {
  import opened Wrappers
  import opened Frames
  import opened Reassembly
  import opened Runs

  /** The receiver, and the number of frames in the TX queue. */
  datatype Station = Station(receiver: Machine, queued: nat)

  datatype Event = Received(frame: Frame, time: nat) | CleanedUp(time: nat) | Enqueued | Dequeued

  /** A frame is enqueued if there is a block for it, and dequeued if there is one. */
  function Next(n: Station, accept: Acceptor, e: Event): (Station, Option<Delivery>) {
    match e
    case Received(frame, time) =>
      var (m, delivery) := Step(n.receiver, accept, frame, time);
      (n.(receiver := m), delivery)
    case CleanedUp(time) => (n.(receiver := Cleaned(n.receiver, time)), None)
    case Enqueued =>
      if n.receiver.free == 0 then (n, None)
      else (Station(n.receiver.(free := n.receiver.free - 1), n.queued + 1), None)
    case Dequeued =>
      if n.queued == 0 then (n, None)
      else (Station(n.receiver.(free := n.receiver.free + 1), n.queued - 1), None)
  }

  function Stepping(accept: Acceptor): Stepper<Station, Event, Delivery> {
    (n: Station, e: Event) => Next(n, accept, e)
  }

  function Run(n: Station, accept: Acceptor, events: seq<Event>): Station {
    Final(Stepping(accept), n, events)
  }

  /** What each event delivers. */
  function Deliveries(n: Station, accept: Acceptor, events: seq<Event>): (ds: seq<Option<Delivery>>)
    ensures |ds| == |events|
  {
    AllOutputs(Stepping(accept), n, events)
  }

  /** Every assertion met on the way. */
  predicate RunAsserts(n: Station, accept: Acceptor, events: seq<Event>)
    decreases |events|
  {
    events != [] ==>
      && (events[0].Received? ==> StepAsserts(n.receiver, events[0].frame, events[0].time))
      && RunAsserts(Next(n, accept, events[0]).0, accept, events[1..])
  }

  /** All blocks: free, held by the receiver, or in the TX queue. */
  function Blocks(n: Station): nat { InUse(n.receiver) + n.queued }

  lemma NextConserves(n: Station, accept: Acceptor, e: Event)
    requires DistinctDescriptors(n.receiver.states)
    ensures Blocks(Next(n, accept, e).0) == Blocks(n) && DistinctDescriptors(Next(n, accept, e).0.receiver.states)
  {
    match e
    case Received(frame, time) => StepConserves(n.receiver, accept, frame, time);
    case CleanedUp(time) => CleanupConserves(n.receiver, time);
    case Enqueued =>
    case Dequeued =>
  }

  /** No run loses or invents a block. */
  lemma {:induction false} RunConserves(n: Station, accept: Acceptor, events: seq<Event>)
    requires DistinctDescriptors(n.receiver.states)
    ensures Blocks(Run(n, accept, events)) == Blocks(n) && DistinctDescriptors(Run(n, accept, events).receiver.states)
    decreases |events|
  {
    if events != [] {
      NextConserves(n, accept, events[0]);
      RunConserves(Next(n, accept, events[0]).0, accept, events[1..]);
    }
  }

  /** The assertions of a run in two parts. */
  lemma {:induction false} RunAssertsConcat(n: Station, accept: Acceptor, a: seq<Event>, b: seq<Event>)
    ensures RunAsserts(n, accept, a + b) <==> RunAsserts(n, accept, a) && RunAsserts(Run(n, accept, a), accept, b)
    decreases |a|
  {
    if a == [] {
      assert a + b == b;
    } else {
      assert (a + b)[1..] == a[1..] + b;
      RunAssertsConcat(Next(n, accept, a[0]).0, accept, a[1..], b);
    }
  }
}
