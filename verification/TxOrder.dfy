/** The TX queue as a sequence of frames: a stable priority queue. */
module TxOrder {
  import opened CanId
  import opened Frames

  /** Where a frame goes: before the first queued frame it outranks. */
  function InsertAt(q: seq<Frame>, f: Frame): (i: nat)
    ensures i <= |q|
    ensures forall j | 0 <= j < i :: !Outranks(f.id, q[j].id)
    ensures i < |q| ==> Outranks(f.id, q[i].id)
  {
    if q == [] || Outranks(f.id, q[0].id) then 0 else 1 + InsertAt(q[1..], f)
  }

  function Insert(q: seq<Frame>, f: Frame): seq<Frame> {
    q[..InsertAt(q, f)] + [f] + q[InsertAt(q, f)..]
  }

  function InsertAll(q: seq<Frame>, fs: seq<Frame>): seq<Frame>
    decreases |fs|
  {
    if fs == [] then q else InsertAll(Insert(q, fs[0]), fs[1..])
  }

  lemma {:induction false} InsertAllLast(q: seq<Frame>, fs: seq<Frame>, n: nat)
    requires n < |fs|
    ensures InsertAll(q, fs[..n + 1]) == Insert(InsertAll(q, fs[..n]), fs[n])
    decreases n
  {
    if n > 0 {
      assert fs[..n + 1][1..] == fs[1..][..n] && fs[..n][1..] == fs[1..][..n - 1];
      InsertAllLast(Insert(q, fs[0]), fs[1..], n - 1);
    } else {
      assert fs[..1][1..] == [] && fs[..0] == [];
    }
  }

  /** No frame waits behind one it outranks. */
  ghost predicate Sorted(q: seq<Frame>) {
    forall i, j | 0 <= i < j < |q| :: Rank(q[i].id) <= Rank(q[j].id)
  }

  lemma InsertPosition(q: seq<Frame>, i: nat, f: Frame)
    requires Sorted(q) && i <= |q|
    requires forall j | 0 <= j < i :: Rank(q[j].id) <= Rank(f.id)
    requires i < |q| ==> Rank(f.id) < Rank(q[i].id)
    ensures Sorted(q[..i] + [f] + q[i..])
  {
  }

  /** Insertion keeps the queue sorted: the frame peeked at is always one of highest priority. */
  lemma InsertKeepsSorted(q: seq<Frame>, f: Frame)
    requires Sorted(q)
    ensures Sorted(Insert(q, f))
  {
    var i := InsertAt(q, f);
    forall j | 0 <= j < i ensures Rank(q[j].id) <= Rank(f.id) {
      OutranksIsRankOrder(f.id, q[j].id);
    }
    if i < |q| {
      OutranksIsRankOrder(f.id, q[i].id);
    }
    InsertPosition(q, i, f);
  }

  lemma PeekIsMaximal(q: seq<Frame>, j: nat)
    requires Sorted(q) && j < |q|
    ensures !Outranks(q[j].id, q[0].id)
  {
    OutranksIsRankOrder(q[j].id, q[0].id);
  }

  /** The frames of one rank, in queue order. */
  function OfRank(q: seq<Frame>, rank: nat): seq<Frame> {
    if q == [] then [] else (if Rank(q[0].id) == rank then [q[0]] else []) + OfRank(q[1..], rank)
  }

  lemma {:induction false} OfRankStep(q: seq<Frame>, rest: seq<Frame>, rank: nat)
    requires q != [] && q[1..] == rest
    ensures OfRank(q, rank) == OfRank(q[..1], rank) + OfRank(rest, rank)
  {
    assert OfRank(q[..1][1..], rank) == [];
  }

  lemma {:induction false} OfRankConcat(a: seq<Frame>, b: seq<Frame>, rank: nat)
    ensures OfRank(a + b, rank) == OfRank(a, rank) + OfRank(b, rank)
    decreases |a|
  {
    if |a| == 0 {
      assert a + b == b;
    } else {
      OfRankStep(a, a[1..], rank);
      OfRankStep(a + b, a[1..] + b, rank);
      assert (a + b)[..1] == a[..1];
      OfRankConcat(a[1..], b, rank);
      Associates(OfRank(a[..1], rank), OfRank(a[1..], rank), OfRank(b, rank));
    }
  }

  lemma Associates<T>(x: seq<T>, y: seq<T>, z: seq<T>)
    ensures x + (y + z) == (x + y) + z
  {
  }

  lemma {:induction false} OfRankNone(q: seq<Frame>, rank: nat)
    requires forall j | 0 <= j < |q| :: Rank(q[j].id) != rank
    ensures OfRank(q, rank) == []
  {
    if q != [] {
      OfRankNone(q[1..], rank);
    }
  }

  lemma {:induction false} InsertedRank(front: seq<Frame>, f: Frame, back: seq<Frame>, rank: nat)
    requires Rank(f.id) == rank ==> OfRank(back, rank) == []
    ensures OfRank(front + [f] + back, rank) == OfRank(front + back, rank) + OfRank([f], rank)
  {
    OfRankConcat(front, back, rank);
    OfRankConcat(front + [f], back, rank);
    OfRankConcat(front, [f], rank);
    var x, y, z := OfRank(front, rank), OfRank([f], rank), OfRank(back, rank);
    assert y == [] || z == [];
    assert x + y + z == x + z + y;
  }

  /** Insertion is stable: a frame goes behind all queued frames of its rank and leaves every other rank alone. */
  lemma {:induction false} InsertIsStable(q: seq<Frame>, f: Frame, rank: nat)
    requires Sorted(q)
    ensures OfRank(Insert(q, f), rank) == OfRank(q, rank) + OfRank([f], rank)
  {
    var i := InsertAt(q, f);
    var back := q[i..];
    if i < |q| && Rank(f.id) == rank {
      OutranksIsRankOrder(f.id, q[i].id);
      forall j | 0 <= j < |back| ensures Rank(back[j].id) != rank {
        assert back[j] == q[i + j];
      }
      OfRankNone(back, rank);
    }
    InsertedRank(q[..i], f, back, rank);
    assert q == q[..i] + back;
  }

  /** A run of the queue: frames are pushed and, when there is one, the front frame is taken. */
  datatype Op = Push(frame: Frame) | Pop

  function Apply(q: seq<Frame>, op: Op): seq<Frame> {
    match op
    case Push(f) => Insert(q, f)
    case Pop => if q == [] then q else q[1..]
  }

  function ApplyAll(q: seq<Frame>, ops: seq<Op>): seq<Frame>
    decreases |ops|
  {
    if ops == [] then q else ApplyAll(Apply(q, ops[0]), ops[1..])
  }

  function Pushed(ops: seq<Op>): seq<Frame> {
    if ops == [] then [] else (if ops[0].Push? then [ops[0].frame] else []) + Pushed(ops[1..])
  }

  function Popped(q: seq<Frame>, ops: seq<Op>): seq<Frame>
    decreases |ops|
  {
    if ops == [] then [] else (if ops[0].Pop? && q != [] then [q[0]] else []) + Popped(Apply(q, ops[0]), ops[1..])
  }

  lemma StepKeepsSorted(q: seq<Frame>, op: Op)
    requires Sorted(q)
    ensures Sorted(Apply(q, op))
  {
    if op.Push? {
      InsertKeepsSorted(q, op.frame);
    }
  }

  /** So does every run of pushes and pops. */
  lemma {:induction false} RunKeepsSorted(q: seq<Frame>, ops: seq<Op>)
    requires Sorted(q)
    ensures Sorted(ApplyAll(q, ops))
    decreases |ops|
  {
    if ops != [] {
      StepKeepsSorted(q, ops[0]);
      RunKeepsSorted(Apply(q, ops[0]), ops[1..]);
    }
  }

  lemma Reassociate<T>(a: seq<T>, b: seq<T>, c: seq<T>)
    ensures (a + b) + c == a + (b + c)
  {
  }

  /** What has left of a rank, followed by what still waits, is what waited before followed by what was pushed. */
  ghost predicate InOrder(q: seq<Frame>, ops: seq<Op>, rank: nat) {
    OfRank(Popped(q, ops), rank) + OfRank(ApplyAll(q, ops), rank) == OfRank(q, rank) + OfRank(Pushed(ops), rank)
  }

  lemma PushInOrder(q: seq<Frame>, f: Frame, rest: seq<Op>, rank: nat)
    requires Sorted(q) && InOrder(Insert(q, f), rest, rank)
    ensures InOrder(q, [Push(f)] + rest, rank)
  {
    var ops := [Push(f)] + rest;
    assert ops[1..] == rest;
    assert Popped(q, ops) == Popped(Insert(q, f), rest);
    OfRankConcat([f], Pushed(rest), rank);
    InsertIsStable(q, f, rank);
    Reassociate(OfRank(q, rank), OfRank([f], rank), OfRank(Pushed(rest), rank));
  }

  lemma PopInOrder(q: seq<Frame>, rest: seq<Op>, rank: nat)
    requires InOrder(if q == [] then q else q[1..], rest, rank)
    ensures InOrder(q, [Pop] + rest, rank)
  {
    var ops := [Pop] + rest;
    assert ops[1..] == rest;
    assert Pushed(ops) == Pushed(rest);
    if q == [] {
      assert Popped(q, ops) == Popped(q, rest);
    } else {
      var next := q[1..];
      assert q == [q[0]] + next;
      OfRankConcat([q[0]], Popped(next, rest), rank);
      OfRankConcat([q[0]], next, rank);
      Reassociate(OfRank([q[0]], rank), OfRank(Popped(next, rest), rank), OfRank(ApplyAll(next, rest), rank));
      Reassociate(OfRank([q[0]], rank), OfRank(next, rank), OfRank(Pushed(rest), rank));
    }
  }

  /** In any interleaving of pushes and pops, the frames of one rank leave in the order they were made. */
  lemma {:induction false} FramesLeaveInOrder(q: seq<Frame>, ops: seq<Op>, rank: nat)
    requires Sorted(q)
    ensures Sorted(ApplyAll(q, ops)) && InOrder(q, ops, rank)
    decreases |ops|
  {
    if ops == [] {
      assert OfRank([], rank) + OfRank(q, rank) == OfRank(q, rank) + OfRank([], rank);
    } else {
      var op, rest := ops[0], ops[1..];
      assert ops == [op] + rest;
      StepKeepsSorted(q, op);
      FramesLeaveInOrder(Apply(q, op), rest, rank);
      match op
      case Push(f) => PushInOrder(q, f, rest, rank);
      case Pop => PopInOrder(q, rest, rank);
    }
  }

  /** A transfer queued on an empty queue waits there as its frames, in order. */
  lemma {:induction false} QueueOfOneTransfer(fs: seq<Frame>, n: nat)
    requires forall i, j | 0 <= i < |fs| && 0 <= j < |fs| :: fs[i].id == fs[j].id
    requires n <= |fs|
    ensures InsertAll([], fs[..n]) == fs[..n]
    decreases n
  {
    if n > 0 {
      QueueOfOneTransfer(fs, n - 1);
      InsertAllLast([], fs, n - 1);
      var q := fs[..n - 1];
      var i := InsertAt(q, fs[n - 1]);
      assert i == |q|;
      assert fs[..n - 1] + [fs[n - 1]] == fs[..n];
    }
  }
}
