/** The library instance: the fixed-block pool, the TX queue and the reassembly states, updated in place. */
module Canard {
  import opened Wrappers
  import opened Bits
  import opened CanId
  import opened Frames
  import opened TxOrder
  import opened Transfer
  import opened Reassembly
  import opened ReassemblySafety
  import opened Arena
  import opened HeapOps
  import opened SlotOps
  import opened Storage
  import Crc = TransferCrc

  const INVALID_ARGUMENT := 2
  const OUT_OF_MEMORY := 3
  const NODE_ID_NOT_SET := 4
  const MAX_BLOCKS := 0xFFFF

  /** The bytes a recycled block still holds past its link word. What a frame or a state leaves there is never read. */
  function Leftover(b: Block): BlockData {
    match b
    case Free(_, data) => data
    case Buffer(_, data) => data
    case _ => Blank(28)
  }

  // ---- Views of a heap ----

  ghost function Views(h: Heap): (vs: seq<RxView>)
    requires forall k | 0 <= k < |h.rx| :: SlotShape(h.mem, h.rx[k])
    ensures |vs| == |h.rx|
  {
    seq(|h.rx|, k requires 0 <= k < |h.rx| => SlotView(h.mem, h.rx[k]))
  }

  ghost predicate Contents(h: Heap)
    requires forall k | 0 <= k < |h.rx| :: SlotShape(h.mem, h.rx[k])
  {
    forall k | 0 <= k < |h.rx| :: SlotContent(h.mem, h.rx[k])
  }

  /** Blocks on the TX queue, on the state list and its chains, and in hand. */
  ghost function BlocksInUse(h: Heap): nat {
    |h.tx| + RxBlocks(h.rx) + |h.held|
  }

  ghost function RxBlocks(rx: seq<Slot>): nat {
    if rx == [] then 0 else 1 + |rx[0].chain| + RxBlocks(rx[1..])
  }

  lemma {:induction false} RxBlocksUpdate(rx: seq<Slot>, k: nat, s: Slot)
    requires k < |rx|
    ensures RxBlocks(rx[k := s]) + |rx[k].chain| == RxBlocks(rx) + |s.chain|
  {
    if k > 0 {
      assert rx[k := s][1..] == rx[1..][k - 1 := s];
      RxBlocksUpdate(rx[1..], k - 1, s);
    } else {
      assert rx[0 := s][1..] == rx[1..];
    }
  }

  lemma {:induction false} RxBlocksRemove(rx: seq<Slot>, k: nat)
    requires k < |rx|
    ensures RxBlocks(rx) == RxBlocks(rx[..k] + rx[k + 1..]) + 1 + |rx[k].chain|
  {
    if k > 0 {
      assert (rx[..k] + rx[k + 1..])[1..] == rx[1..][..k - 1] + rx[1..][k..];
      RxBlocksRemove(rx[1..], k - 1);
    } else {
      assert rx[..0] + rx[1..] == rx[1..];
    }
  }

  lemma ViewsBut(h: Heap, after: Heap, k: nat)
    requires WellLinked(h) && WellLinked(after) && k < |h.rx| && SameSlotsBut(h, after, k)
    ensures Views(after) == Views(h)[k := SlotView(after.mem, after.rx[k])]
  {
    forall j | 0 <= j < |h.rx| && j != k ensures Views(after)[j] == Views(h)[j] {
      assert SameSlot(h, j, after, j);
    }
  }

  lemma ViewsSame(h: Heap, after: Heap)
    requires WellLinked(h) && WellLinked(after) && SameSlotsBut(h, after, -1)
    ensures Views(after) == Views(h) && (Contents(h) ==> Contents(after))
  {
    forall j | 0 <= j < |h.rx| ensures Views(after)[j] == Views(h)[j] && (SlotContent(h.mem, h.rx[j]) ==> SlotContent(after.mem, after.rx[j])) {
      assert SameSlot(h, j, after, j);
    }
  }

  lemma {:induction false} InsertAtUnique(q: seq<Frame>, f: Frame, i: nat)
    requires i <= |q|
    requires forall j | 0 <= j < i :: !Outranks(f.id, q[j].id)
    requires i < |q| ==> Outranks(f.id, q[i].id)
    ensures InsertAt(q, f) == i
  {
  }

  lemma {:induction false} FindUnique(vs: seq<RxView>, descriptor: nat, k: nat)
    requires k <= |vs| && forall j | 0 <= j < k :: vs[j].descriptor != descriptor
    requires k < |vs| ==> vs[k].descriptor == descriptor
    ensures Find(vs, descriptor) == k
  {
  }

  lemma ViewsPrepend(h: Heap)
    requires WellLinked(h) && FreshState(h)
    requires h.mem[h.held[0]] == RxState(h.rxHead, NULL, 0, h.mem[h.held[0]].descriptor, 0, 0, 0, false, 0, Blank(6))
    requires WellLinked(Prepend(h))
    requires forall j {:trigger Before(0, j)} | 0 <= j < |h.rx| :: SameSlot(h, j, Prepend(h), Before(0, j))
    ensures Views(Prepend(h)) == [Fresh(h.mem[h.held[0]].descriptor)] + Views(h)
    ensures Contents(h) ==> Contents(Prepend(h))
  {
    var after := Prepend(h);
    forall j | 0 <= j < |h.rx| ensures Views(after)[j + 1] == Views(h)[j] {
      assert SameSlot(h, j, after, Before(0, j));
    }
    if Contents(h) {
      forall i | 0 <= i < |after.rx| ensures SlotContent(after.mem, after.rx[i]) {
        if i > 0 {
          assert SameSlot(h, i - 1, after, Before(0, i - 1));
        }
      }
    }
  }

  lemma {:induction false} PrependDistinct(vs: seq<RxView>, v: RxView)
    requires DistinctDescriptors(vs) && Find(vs, v.descriptor) == |vs|
    ensures DistinctDescriptors([v] + vs)
  {
  }

  /** from, from + 1, ..., end - 1. */
  function Range(from: nat, end: nat): (r: seq<int>)
    requires from <= end
    ensures |r| == end - from && forall j | 0 <= j < |r| :: r[j] == from + j
  {
    seq(end - from, i requires 0 <= i < end - from => from + i)
  }

  lemma {:induction false} RangeIsLinked(mem: seq<Block>, from: nat)
    requires from <= |mem| && forall j | 0 <= j < |mem| :: mem[j].next == if j + 1 < |mem| then j + 1 else NULL
    ensures Chain(mem, if from < |mem| then from else NULL, Range(from, |mem|))
    decreases |mem| - from
  {
    if from < |mem| {
      RangeIsLinked(mem, from + 1);
      assert Range(from, |mem|)[1..] == Range(from + 1, |mem|);
    }
  }

  lemma {:induction false} RangeOnce(from: nat, end: nat, x: int)
    requires from <= end
    ensures Times(Range(from, end), x) == if from <= x < end then 1 else 0
    decreases end - from
  {
    if from < end {
      RangeOnce(from + 1, end, x);
      assert Range(from, end)[1..] == Range(from + 1, end);
    }
  }

  // ---- What the ownership count means ----

  ghost predicate SlotHas(s: Slot, x: int) {
    x == s.at || x in s.chain
  }

  lemma {:induction false} TimesZero(l: seq<int>, x: int)
    ensures Times(l, x) == 0 <==> x !in l
  {
    if Times(l, x) == 0 {
      AvoidsByCount(l, x);
    } else {
      TimesSome(l, x);
    }
  }

  lemma {:induction false} TimesSome(l: seq<int>, x: int)
    requires Times(l, x) > 0
    ensures x in l
  {
    if l[0] != x {
      TimesSome(l[1..], x);
    }
  }

  lemma {:induction false} RxOwnsSome(rx: seq<Slot>, x: int) returns (k: nat)
    requires RxOwns(rx, x) > 0
    ensures k < |rx| && SlotHas(rx[k], x)
  {
    if SlotOwns(rx[0], x) > 0 {
      TimesZero(rx[0].chain, x);
      k := 0;
    } else {
      k := RxOwnsSome(rx[1..], x);
      k := k + 1;
    }
  }

  lemma {:induction false} DistinctByCount(l: seq<int>)
    requires forall x :: Times(l, x) <= 1
    ensures Distinct(l)
  {
    forall i, j | 0 <= i < j < |l| ensures l[i] != l[j] {
      if l[i] == l[j] {
        TimesTwice(l, i, j);
      }
    }
  }

  /** The free list, the TX queue, the states and their chains have no block twice and none in common, and together they
      are the whole pool. */
  lemma ListsPartitionPool(h: Heap)
    requires WellLinked(h) && h.held == []
    ensures Distinct(h.free) && Distinct(h.tx) && forall k | 0 <= k < |h.rx| :: Distinct(h.rx[k].chain)
    ensures forall x | x in h.free :: x !in h.tx && forall k | 0 <= k < |h.rx| :: !SlotHas(h.rx[k], x)
    ensures forall x | x in h.tx :: forall k | 0 <= k < |h.rx| :: !SlotHas(h.rx[k], x)
    ensures forall j, k, x | 0 <= j < k < |h.rx| && SlotHas(h.rx[j], x) :: !SlotHas(h.rx[k], x)
    ensures forall k | 0 <= k < |h.rx| :: h.rx[k].at !in h.rx[k].chain
    ensures forall x :: 0 <= x < |h.mem| <==> x in h.free || x in h.tx || exists k :: 0 <= k < |h.rx| && SlotHas(h.rx[k], x)
  {
    forall x ensures Times(h.free, x) + Times(h.tx, x) + RxOwns(h.rx, x) == if 0 <= x < |h.mem| then 1 else 0 {
      assert Owners(h, x) == if 0 <= x < |h.mem| then 1 else 0;
    }
    DistinctByCount(h.free);
    DistinctByCount(h.tx);
    forall k | 0 <= k < |h.rx| ensures Distinct(h.rx[k].chain) && h.rx[k].at !in h.rx[k].chain {
      forall x ensures Times(h.rx[k].chain, x) <= 1 && SlotOwns(h.rx[k], x) <= 1 {
        RxOwnsRemove(h.rx, k, x);
      }
      DistinctByCount(h.rx[k].chain);
      TimesZero(h.rx[k].chain, h.rx[k].at);
    }
    forall x
      ensures (x in h.free <==> Times(h.free, x) > 0) && (x in h.tx <==> Times(h.tx, x) > 0)
      ensures forall k | 0 <= k < |h.rx| && SlotHas(h.rx[k], x) :: RxOwns(h.rx, x) > 0
      ensures RxOwns(h.rx, x) > 0 ==> exists k :: 0 <= k < |h.rx| && SlotHas(h.rx[k], x)
    {
      TimesZero(h.free, x);
      TimesZero(h.tx, x);
      SlotsCount(h.rx, x);
    }
    forall j, k, x | 0 <= j < k < |h.rx| && SlotHas(h.rx[j], x) ensures !SlotHas(h.rx[k], x) {
      RxOwnsTwo(h.rx, j, k, x);
      TimesZero(h.rx[j].chain, x);
      TimesZero(h.rx[k].chain, x);
    }
  }

  lemma {:induction false} SlotsCount(rx: seq<Slot>, x: int)
    ensures forall k | 0 <= k < |rx| && SlotHas(rx[k], x) :: RxOwns(rx, x) > 0
    ensures RxOwns(rx, x) > 0 ==> exists k :: 0 <= k < |rx| && SlotHas(rx[k], x)
  {
    forall k | 0 <= k < |rx| && SlotHas(rx[k], x) ensures RxOwns(rx, x) > 0 {
      RxOwnsRemove(rx, k, x);
      TimesZero(rx[k].chain, x);
    }
    if RxOwns(rx, x) > 0 {
      var k := RxOwnsSome(rx, x);
    }
  }

  lemma {:induction false} BlocksAreHeld(rx: seq<Slot>, vs: seq<RxView>)
    requires |vs| == |rx| && forall k | 0 <= k < |rx| :: vs[k].blocks == |rx[k].chain|
    ensures RxBlocks(rx) == Held(vs)
  {
    if rx != [] {
      BlocksAreHeld(rx[1..], vs[1..]);
    }
  }

  class Instance {
    const mem: array<Block>
    var freeList: int
    var usage: nat
    var peak: nat
    var txQueue: int
    var rxStates: int
    var stats: Stats

    ghost var free: seq<int>
    ghost var tx: seq<int>
    ghost var rx: seq<Slot>
    ghost var held: seq<int>

    ghost function H(): Heap
      reads this, mem
    {
      Heap(mem[..], freeList, txQueue, rxStates, free, tx, rx, held)
    }

    /** The lists are linked, every block is owned once, and the counters count. */
    ghost predicate Linked()
      reads this, mem
    {
      var counted := |free| + usage == mem.Length && usage == BlocksInUse(H()) && usage <= peak <= mem.Length <= MAX_BLOCKS;
      WellLinked(H()) && counted
    }

    /** Between calls: no block is in hand, and the chains hold what was received. */
    ghost predicate Valid()
      reads this, mem
    {
      Linked() && held == [] && Contents(H()) && DistinctDescriptors(Views(H()))
    }

    /** The receiver as a state machine. */
    ghost function View(): Machine
      requires Linked()
      reads this, mem
    {
      Machine(|free|, Views(H()), stats)
    }

    ghost function Queue(): seq<Frame>
      requires Linked()
      reads this, mem
    {
      TxFrames(mem[..], tx)
    }

    /** The blocks the state machine accounts for and the queued frames make up the pool; so do the free blocks and those
        that the statistics count as used, which are never more than the peak. */
    lemma PoolAccounts()
      requires Valid()
      ensures InUse(View()) + |Queue()| == mem.Length
      ensures View().free + usage == mem.Length && usage == Held(View().states) + |Queue()| && usage <= peak <= mem.Length
    {
      BlocksAreHeld(rx, Views(H()));
    }

    // ---- Pool allocator ----

    /** canardInit and initPoolAllocator: the arena becomes a list of free blocks, at most 65535. */
    constructor (arenaSize: nat)
      ensures Valid() && fresh(mem) && mem.Length == Bits.Min(arenaSize / 32, MAX_BLOCKS)
      ensures View() == Machine(mem.Length, [], Stats(0, 0, 0, 0)) && Queue() == [] && usage == 0 && peak == 0
    {
      var capacity := arenaSize / 32;
      if capacity > MAX_BLOCKS {
        capacity := MAX_BLOCKS;
      }
      mem := new Block[capacity](_ => Free(NULL, Blank(28)));
      freeList, usage, peak, txQueue, rxStates, stats := NULL, 0, 0, NULL, NULL, Stats(0, 0, 0, 0);
      free, tx, rx, held := [], [], [], [];
      new;
      var i := 0;
      while i < capacity
        invariant 0 <= i <= capacity == mem.Length
        invariant freeList == if i == 0 then NULL else 0
        invariant forall j | 0 <= j < i :: mem[j].Free? && mem[j].next == if j + 1 < i then j + 1 else NULL
        invariant forall j | i <= j < capacity :: mem[j].Free? && mem[j].next == NULL
        invariant usage == 0 && peak == 0 && txQueue == NULL && rxStates == NULL && stats == Stats(0, 0, 0, 0)
        invariant tx == [] && rx == [] && held == []
        modifies this`freeList, mem
      {
        if i == 0 {
          freeList := 0;
        } else {
          mem[i - 1] := SetNext(mem[i - 1], i);
        }
        i := i + 1;
      }
      free := Range(0, capacity);
      RangeIsLinked(mem[..], 0);
      forall x ensures Owners(H(), x) == if 0 <= x < |mem[..]| then 1 else 0 {
        RangeOnce(0, capacity, x);
      }
    }

    method AllocateBlock() returns (p: int)
      requires Linked()
      modifies this`freeList, this`usage, this`peak, this`free, this`held
      ensures Linked()
      ensures old(free) == [] ==> p == NULL && H() == old(H())
      ensures old(free) != [] ==> p == old(freeList) && 0 <= p < mem.Length && mem[p].Free?
      ensures old(free) != [] ==> H() == Alloc(old(H())) && held == [p] + old(held)
      ensures SameSlotsBut(old(H()), H(), -1) && SameTx(old(H()), H())
    {
      if freeList == NULL {
        assert free == [];
        ghost var h := H();
        assert forall k | 0 <= k < |rx| :: SameSlot(h, k, h, k);
        return NULL;
      }
      AllocOk(H());
      p := freeList;
      freeList := mem[p].next;
      usage := usage + 1;
      if peak < usage {
        peak := usage;
      }
      free, held := free[1..], [p] + held;
    }

    method FreeBlock(p: int)
      requires Linked() && held != [] && p == held[0]
      modifies this`freeList, this`usage, this`free, this`held, mem
      ensures Linked() && 0 <= p < mem.Length
      ensures H() == Release(old(H()), Leftover(old(mem[p])))
      ensures held == old(held)[1..] && |free| == |old(free)| + 1
      ensures SameSlotsBut(old(H()), H(), -1) && SameTx(old(H()), H())
    {
      HeldApart(H());
      ghost var h := H();
      ReleaseOk(h, Leftover(mem[p]));
      mem[p] := Free(freeList, Leftover(mem[p]));
      freeList := p;
      free, held := [p] + free, held[1..];
      assert H() == Release(h, Leftover(h.mem[p]));
      assert usage > 0;
      usage := usage - 1;
    }

    // ---- TX queue ----

    method CreateTxItem() returns (p: int)
      requires Linked() && held == []
      modifies this`freeList, this`usage, this`peak, this`free, this`held, mem
      ensures Linked() && SameSlotsBut(old(H()), H(), -1) && SameTx(old(H()), H())
      ensures old(free) == [] ==> p == NULL && held == [] && free == []
      ensures old(free) != [] ==> 0 <= p < mem.Length && held == [p] && free == old(free)[1..]
      ensures old(free) != [] ==> mem[p] == TxItem(NULL, Frame(Id(0, false, false, false), []))
    {
      ghost var h := H();
      p := AllocateBlock();
      if p != NULL {
        ghost var mid := H();
        WriteInHand(p, TxItem(NULL, Frame(Id(0, false, false, false), [])));
        SameThrough(h, mid, H(), -1);
      }
    }

    /** Filling a block that is on no list yet. */
    method WriteInHand(p: int, v: Block)
      requires Linked() && held != [] && p == held[0]
      modifies mem
      ensures Linked() && 0 <= p < mem.Length && mem[..] == old(mem[..])[p := v]
      ensures SameSlotsBut(old(H()), H(), -1) && SameTx(old(H()), H())
    {
      WriteHeld(H(), v);
      ghost var h := H();
      mem[p] := v;
      assert H() == h.(mem := h.mem[p := v]);
    }

    /** Walks to the first queued frame that f outranks; queue is NULL when there is none. */
    method FindPlace(f: Frame) returns (previous: int, queue: int, ghost i: nat)
      requires Linked() && txQueue != NULL
      ensures i == InsertAt(Queue(), f) && i <= |tx| && queue == Link(tx, i)
      ensures previous == if i == 0 then txQueue else tx[i - 1]
      ensures i == 0 ==> tx != [] && queue == txQueue
      ensures i > 0 ==> 0 <= previous < mem.Length && queue != txQueue
    {
      assert tx != [];
      i := 0;
      ChainAt(mem[..], txQueue, tx, 0);
      queue, previous := txQueue, txQueue;
      while queue != NULL && !Outranks(f.id, mem[queue].frame.id)
        invariant i <= |tx| && queue == Link(tx, i)
        invariant previous == if i == 0 then txQueue else tx[i - 1]
        invariant i > 0 ==> 0 <= previous < mem.Length
        invariant forall j | 0 <= j < i :: !Outranks(f.id, Queue()[j].id)
        decreases |tx| - i
      {
        ChainAt(mem[..], txQueue, tx, i);
        previous := queue;
        queue := mem[queue].next;
        i := i + 1;
      }
      if i > 0 {
        TxApart(H(), 0);
      }
      InsertAtUnique(Queue(), f, i);
    }

    /** The pointer writes that put the item between its neighbours. */
    method WriteLinks(item: int, previous: int, queue: int, ghost i: nat)
      requires WellLinked(H()) && held == [item] && 0 <= item < mem.Length && mem[item].TxItem?
      requires i <= |tx| && queue == Link(tx, i)
      requires i == 0 ==> queue == txQueue
      requires i > 0 ==> previous == tx[i - 1] && 0 <= previous < mem.Length && queue != txQueue
      modifies this`txQueue, mem
      ensures 0 <= item < |old(mem[..])| && old(mem[item]).TxItem? && (i > 0 ==> 0 <= tx[i - 1] < |old(mem[..])|)
      ensures mem[..] == LinkTx(old(H()), i).mem && txQueue == LinkTx(old(H()), i).txHead
    {
      HeldApart(H());
      if queue == txQueue {
        mem[item] := SetNext(mem[item], queue);
        txQueue := item;
      } else {
        mem[previous] := SetNext(mem[previous], item);
        mem[item] := SetNext(mem[item], queue);
      }
    }

    /** Puts a frame on the TX queue: behind every frame it does not outrank. */
    method PushTxQueue(item: int)
      requires Linked() && held == [item] && 0 <= item < mem.Length
      requires mem[item].TxItem? && mem[item].frame.data != []
      modifies this`txQueue, this`tx, this`held, mem
      ensures Linked() && held == [] && SameSlotsBut(old(H()), H(), -1)
      ensures Queue() == Insert(old(Queue()), old(mem[item]).frame)
    {
      ghost var i := 0;
      var previous, queue := NULL, NULL;
      if txQueue != NULL {
        previous, queue, i := FindPlace(mem[item].frame);
      } else {
        assert tx == [];
      }
      LinkItem(item, previous, queue, i);
    }

    method LinkItem(item: int, previous: int, queue: int, ghost i: nat)
      requires Linked() && held == [item] && 0 <= item < mem.Length
      requires mem[item].TxItem? && mem[item].frame.data != []
      requires i == InsertAt(Queue(), mem[item].frame) && i <= |tx| && queue == Link(tx, i)
      requires i == 0 ==> queue == txQueue
      requires i > 0 ==> previous == tx[i - 1] && 0 <= previous < mem.Length && queue != txQueue
      modifies this`txQueue, this`tx, this`held, mem
      ensures Linked() && held == [] && SameSlotsBut(old(H()), H(), -1)
      ensures Queue() == Insert(old(Queue()), old(mem[item]).frame)
    {
      ghost var h := H();
      WriteLinks(item, previous, queue, i);
      LinkTxOk(h, i);
      Adopt(h, LinkTx(h, i));
    }

    /** The ghost lists follow the writes. */
    ghost method Adopt(h: Heap, g: Heap)
      requires WellLinked(g) && SameSlotsBut(h, g, -1) && g.held == [] && H() == g.(tx := h.tx, held := h.held)
      requires |free| + usage == mem.Length && usage == BlocksInUse(g) && usage <= peak <= mem.Length <= MAX_BLOCKS
      modifies this`tx, this`held
      ensures Linked() && held == [] && SameSlotsBut(h, H(), -1)
      ensures AllTx(g.mem, g.tx) && Queue() == TxFrames(g.mem, g.tx)
    {
      tx, held := g.tx, g.held;
      Adopted(h, g);
    }

    /** The fields are heap g, which is as good as heap h. */
    lemma Adopted(h: Heap, g: Heap)
      requires H() == g && WellLinked(g) && |free| + usage == mem.Length && usage == BlocksInUse(g)
      requires usage <= peak <= mem.Length <= MAX_BLOCKS && SameSlotsBut(h, g, -1)
      ensures Linked() && SameSlotsBut(h, H(), -1) && AllTx(g.mem, g.tx) && Queue() == TxFrames(g.mem, g.tx)
    {
    }

    method PeekTxQueue() returns (top: Option<Frame>)
      requires Linked()
      ensures top == if Queue() == [] then None else Some(Queue()[0])
    {
      if txQueue == NULL {
        assert tx == [];
        return None;
      }
      assert tx != [];
      ChainAt(mem[..], txQueue, tx, 0);
      top := Some(mem[txQueue].frame);
    }

    method UnlinkFirst() returns (item: int)
      requires Linked() && held == [] && Queue() != []
      modifies this`txQueue, this`tx, this`held
      ensures Linked() && held == [item] && SameSlotsBut(old(H()), H(), -1)
      ensures Queue() == old(Queue())[1..]
    {
      ghost var h := H();
      UnlinkTxOk(h);
      item := txQueue;
      txQueue := mem[item].next;
      tx, held := tx[1..], [item];
      assert H() == UnlinkTx(h);
    }

    method PopTxQueue()
      requires Valid() && Queue() != []
      modifies this`freeList, this`usage, this`txQueue, this`free, this`tx, this`held, mem
      ensures Valid() && Queue() == old(Queue())[1..]
      ensures View() == old(View()).(free := old(|free|) + 1)
    {
      ghost var h := H();
      var item := UnlinkFirst();
      ghost var mid := H();
      FreeBlock(item);
      SameThrough(h, mid, H(), -1);
      ViewsSame(h, H());
    }

    /** The bytes of frame k before the tail byte; `next` is the payload index after them. */
    method FillFrame(crc: bv16, payload: seq<byte>, dataIndex: nat, ghost k: nat) returns (data: seq<byte>, next: nat)
      requires dataIndex < |payload| && |payload| >= 8
      requires dataIndex == if k == 0 then 0 else 7 * k - 2
      ensures k < FrameCount(|payload|)
      ensures next == Bits.Min(7 * k + 5, |payload|)
      ensures data == Stream(crc, payload)[7 * k..Bits.Min(7 * k + 7, |payload| + 2)]
    {
      data, next := [], dataIndex;
      if dataIndex == 0 {
        data := [(crc & 0xFF) as bv8, (crc >> 8) as bv8];
      }
      ghost var stream := Stream(crc, payload);
      while |data| < 7 && next < |payload|
        invariant dataIndex <= next <= |payload| && 7 * k + |data| == next + 2 && |data| <= 7
        invariant data == stream[7 * k..7 * k + |data|]
        decreases |payload| - next
      {
        assert stream[7 * k + |data|] == payload[next];
        data := data + [payload[next]];
        next := next + 1;
      }
    }

    /** Allocating an item, filling it and queueing it. */
    method EnqueueFrame(f: Frame) returns (result: int)
      requires Linked() && held == [] && f.data != []
      modifies this`freeList, this`usage, this`peak, this`txQueue, this`free, this`tx, this`held, mem
      ensures Linked() && held == [] && SameSlotsBut(old(H()), H(), -1)
      ensures old(free) == [] ==> result == -OUT_OF_MEMORY && free == [] && Queue() == old(Queue())
      ensures old(free) != [] ==> result == 1 && |free| == |old(free)| - 1 && Queue() == Insert(old(Queue()), f)
    {
      ghost var h := H();
      var item := CreateTxItem();
      if item == NULL {
        return -OUT_OF_MEMORY;
      }
      ghost var h1 := H();
      WriteInHand(item, TxItem(NULL, f));
      ghost var h2 := H();
      SameThrough(h, h1, h2, -1);
      PushTxQueue(item);
      SameThrough(h, h2, H(), -1);
      result := 1;
    }

    /** What is left of the queue and the pool once the first n frames are queued. */
    ghost predicate Queued(h: Heap, q: seq<Frame>, fs: seq<Frame>, n: nat)
      reads this, mem
    {
      var queued := && Linked() && held == [] && SameSlotsBut(h, H(), -1)
        && n <= |fs| && |free| + n == |h.free| && Queue() == InsertAll(q, fs[..n]);
      queued
    }

    /** Frame k of the transfer is made from the payload index and the flags the loop carries. */
    lemma FrameMade(id: Id, transferId: byte, crc: bv16, payload: seq<byte>, k: nat, data: seq<byte>, next: nat)
      requires |payload| >= 8 && k < FrameCount(|payload|) && next == Bits.Min(7 * k + 5, |payload|)
      requires data == Stream(crc, payload)[7 * k..Bits.Min(7 * k + 7, |payload| + 2)]
      ensures TransferFrames(id, transferId, crc, payload)[k]
           == Frame(id, data + [TailByte(k == 0 && next != |payload|, next == |payload|, k % 2 == 1, transferId)])
      ensures next == |payload| <==> k + 1 == FrameCount(|payload|)
    {
    }

    /** What the loop of enqueueTxFrames carries after k frames: payload index, toggle bit and start bit. */
    static ghost function LoopState(len: nat, k: nat): (nat, bool, bool)
      decreases k
    {
      if k == 0 then (0, false, true) else (Bits.Min(7 * k - 2, len), !LoopState(len, k - 1).1, false)
    }

    static lemma {:induction false} LoopStateIs(len: nat, k: nat)
      requires len >= 8
      ensures LoopState(len, k) == (if k == 0 then 0 else Bits.Min(7 * k - 2, len), k % 2 == 1, k == 0)
      ensures LoopState(len, k).0 <= len && (LoopState(len, k).0 == len <==> k >= FrameCount(len))
      decreases k
    {
      if k > 0 {
        LoopStateIs(len, k - 1);
      }
    }

    /** The next frame of the transfer. */
    method MakeFrame(id: Id, transferId: byte, crc: bv16, payload: seq<byte>, dataIndex: nat, toggle: bool, start: bool,
                     ghost k: nat)
      returns (f: Frame, next: nat)
      requires |payload| >= 8 && (dataIndex, toggle, start) == LoopState(|payload|, k) && dataIndex < |payload|
      ensures k < FrameCount(|payload|) && f == TransferFrames(id, transferId, crc, payload)[k] && f.data != []
      ensures (next, !toggle, false) == LoopState(|payload|, k + 1) && dataIndex < next <= |payload|
    {
      LoopStateIs(|payload|, k);
      var data;
      data, next := FillFrame(crc, payload, dataIndex, k);
      FrameMade(id, transferId, crc, payload, k, data, next);
      f := Frame(id, data + [TailByte(start && next != |payload|, next == |payload|, toggle, transferId)]);
    }

    /** As many frames as the pool had blocks for are queued, and the result tells. */
    ghost predicate Enqueued(h: Heap, q: seq<Frame>, fs: seq<Frame>, result: int)
      reads this, mem
    {
      var n := Bits.Min(|fs|, |h.free|);
      var enqueued := Queued(h, q, fs, n) && result == if n == |fs| then n else -OUT_OF_MEMORY;
      enqueued
    }

    method EnqueueMulti(id: Id, transferId: byte, crc: bv16, payload: seq<byte>) returns (result: int)
      requires Linked() && held == [] && |payload| >= 8
      modifies this`freeList, this`usage, this`peak, this`txQueue, this`free, this`tx, this`held, mem
      ensures Enqueued(old(H()), old(Queue()), TransferFrames(id, transferId, crc, payload), result)
    {
      ghost var h, fs := H(), TransferFrames(id, transferId, crc, payload);
      assert fs[..0] == [];
      assert forall j | 0 <= j < |rx| :: SameSlot(h, j, h, j);
      result := EnqueueLoop(id, transferId, crc, payload, h, Queue(), fs);
    }

    /** The multi-frame loop of enqueueTxFrames. */
    method EnqueueLoop(id: Id, transferId: byte, crc: bv16, payload: seq<byte>, ghost h: Heap, ghost q: seq<Frame>,
                       ghost fs: seq<Frame>)
      returns (result: int)
      requires Queued(h, q, fs, 0) && |payload| >= 8 && fs == TransferFrames(id, transferId, crc, payload)
      modifies this`freeList, this`usage, this`peak, this`txQueue, this`free, this`tx, this`held, mem
      ensures Enqueued(h, q, fs, result)
    {
      var dataIndex, toggle, start := 0, false, true;
      result := 0;
      while |payload| - dataIndex != 0
        invariant dataIndex <= |payload| && 0 <= result && Queued(h, q, fs, result)
        invariant (dataIndex, toggle, start) == LoopState(|payload|, result)
        decreases |payload| - dataIndex
      {
        var r;
        r, dataIndex := EnqueueTurn(id, transferId, crc, payload, dataIndex, toggle, start, h, q, fs, result);
        if r < 0 {
          return r;
        }
        result, toggle, start := result + 1, !toggle, false;
      }
      AllQueued(h, q, fs, |payload|, result);
    }

    lemma AllQueued(h: Heap, q: seq<Frame>, fs: seq<Frame>, len: nat, k: nat)
      requires Queued(h, q, fs, k) && len >= 8 && |fs| == FrameCount(len) && LoopState(len, k).0 == len
      ensures Enqueued(h, q, fs, k)
    {
      LoopStateIs(len, k);
    }

    /** One turn of the loop. */
    method EnqueueTurn(id: Id, transferId: byte, crc: bv16, payload: seq<byte>, dataIndex: nat, toggle: bool, start: bool,
                       ghost h: Heap, ghost q: seq<Frame>, ghost fs: seq<Frame>, ghost k: nat)
      returns (r: int, next: nat)
      requires Queued(h, q, fs, k) && |payload| >= 8 && fs == TransferFrames(id, transferId, crc, payload)
      requires (dataIndex, toggle, start) == LoopState(|payload|, k) && dataIndex < |payload|
      modifies this`freeList, this`usage, this`peak, this`txQueue, this`free, this`tx, this`held, mem
      ensures dataIndex < next <= |payload|
      ensures |old(free)| == 0 ==> r == -OUT_OF_MEMORY && Enqueued(h, q, fs, r)
      ensures |old(free)| > 0 ==>
                r == 1 && Queued(h, q, fs, k + 1) && (next, !toggle, false) == LoopState(|payload|, k + 1)
    {
      var f;
      f, next := MakeFrame(id, transferId, crc, payload, dataIndex, toggle, start, k);
      r := EnqueueNext(f, h, q, fs, k);
    }

    method EnqueueNext(f: Frame, ghost h: Heap, ghost q: seq<Frame>, ghost fs: seq<Frame>, ghost k: nat)
      returns (r: int)
      requires Queued(h, q, fs, k) && k < |fs| && fs[k] == f && f.data != []
      modifies this`freeList, this`usage, this`peak, this`txQueue, this`free, this`tx, this`held, mem
      ensures |old(free)| == 0 ==> r == -OUT_OF_MEMORY && Queued(h, q, fs, k)
      ensures |old(free)| > 0 ==> r == 1 && Queued(h, q, fs, k + 1)
    {
      ghost var mid := H();
      r := EnqueueFrame(f);
      SameThrough(h, mid, H(), -1);
      InsertAllLast(q, fs, k);
    }

    /** enqueueTxFrames: on exhaustion the frames made so far stay queued. */
    method EnqueueTxFrames(canId: uint29, transferId: byte, crc: bv16, payload: seq<byte>) returns (result: int)
      requires Valid()
      modifies this`freeList, this`usage, this`peak, this`txQueue, this`free, this`tx, this`held, mem
      ensures Valid() && View() == old(View()).(free := |free|)
      ensures var fs := TransferFrames(Id(canId, true, false, false), transferId, crc, payload);
              var n := Bits.Min(|fs|, old(|free|));
              && Queue() == InsertAll(old(Queue()), fs[..n]) && |free| == old(|free|) - n
              && result == if n == |fs| then n else -OUT_OF_MEMORY
    {
      ghost var h, q := H(), Queue();
      var id := Id(canId, true, false, false);
      if |payload| < 8 {
        ghost var fs := TransferFrames(id, transferId, crc, payload);
        assert fs[..0] == [] && fs[..1] == fs;
        assert forall j | 0 <= j < |rx| :: SameSlot(h, j, h, j);
        result := EnqueueNext(Frame(id, payload + [TailByte(true, true, false, transferId)]), h, q, fs, 0);
      } else {
        result := EnqueueMulti(id, transferId, crc, payload);
      }
      ViewsSame(h, H());
    }

    /** incrementTransferID on a caller's 8-bit variable. */
    static function Incremented(transferId: byte): byte {
      if transferId + 1 >= 32 then 0 else transferId + 1
    }

    /** canardBroadcast: the identifier, the checksum and the error are decided before anything is queued. */
    method Broadcast(source: nat, signature: bv64, dataType: nat, transferId: byte, priority: nat, payload: seq<byte>)
      returns (result: int, nextTransferId: byte)
      requires Valid() && source < 0x80 && dataType < 0x1_0000
      modifies this`freeList, this`usage, this`peak, this`txQueue, this`stats, this`free, this`tx, this`held, mem
      ensures Valid() && Views(H()) == Views(old(H()))
      ensures result == -2 <==> priority > 31 || (source == 0 && |payload| <= 7 && dataType >= 4)
      ensures result == -4 <==> priority <= 31 && source == 0 && |payload| > 7
      ensures result == -2 || result == -4 ==>
                Queue() == old(Queue()) && View() == old(View()) && nextTransferId == transferId
      ensures result != -2 && result != -4 ==>
                && nextTransferId == Incremented(transferId)
                && stats == old(stats).(sent := Count(old(stats).sent, MAX_UINT64))
                && SentBy(old(Queue()), old(|free|), result, BroadcastId(source, dataType, priority, payload), transferId,
                          if |payload| > 7 then Crc.Add(Crc.AddSignature(0xFFFF, signature), payload) else 0xFFFF, payload)
    {
      nextTransferId := transferId;
      if priority > 31 {
        return -INVALID_ARGUMENT, nextTransferId;
      }
      var canId: uint29;
      var crc: bv16 := 0xFFFF;
      if source == 0 {
        if |payload| > 7 {
          return -NODE_ID_NOT_SET, nextTransferId;
        }
        if dataType >= 4 {
          return -INVALID_ARGUMENT, nextTransferId;
        }
        var discriminator := Crc.CrcAdd(0xFFFF, payload);
        canId := AnonymousId(priority, discriminator as nat, dataType);
      } else {
        canId := MessageId(priority, dataType, source);
        if |payload| > 7 {
          crc := Crc.CrcAddSignature(crc, signature);
          crc := Crc.CrcAdd(crc, payload);
        }
      }
      result := EnqueueTxFrames(canId, transferId, crc, payload);
      nextTransferId := Incremented(transferId);
      CountSent();
    }

    method CountSent()
      requires Valid()
      modifies this`stats
      ensures Valid() && H() == old(H()) && Queue() == old(Queue())
      ensures stats == old(stats).(sent := Count(old(stats).sent, MAX_UINT64))
    {
      stats := stats.(sent := Count(stats.sent, MAX_UINT64));
    }

    /** What a sender leaves behind: the frames of its transfer, as many as the pool had blocks for. */
    ghost predicate SentBy(q: seq<Frame>, blocks: nat, result: int, id: uint29, transferId: byte, crc: bv16,
                           payload: seq<byte>)
      requires Linked()
      reads this, mem
    {
      var fs := TransferFrames(Id(id, true, false, false), transferId, crc, payload);
      var n := Bits.Min(|fs|, blocks);
      && Queue() == InsertAll(q, fs[..n]) && |free| == blocks - n
      && result == if n == |fs| then n else -3
    }

    static ghost function BroadcastId(source: nat, dataType: nat, priority: nat, payload: seq<byte>): uint29
      requires source < 0x80 && dataType < 0x1_0000 && priority <= 31 && (source == 0 ==> dataType < 4)
    {
      if source == 0 then AnonymousId(priority, Crc.Add(0xFFFF, payload) as nat, dataType)
      else MessageId(priority, dataType, source)
    }

    /** canardRequestOrRespond: a response leaves the transfer ID alone. */
    method RequestOrRespond(source: nat, destination: nat, signature: bv64, dataType: nat, transferId: byte,
                            priority: nat, isRequest: bool, payload: seq<byte>)
      returns (result: int, nextTransferId: byte)
      requires Valid() && source < 0x80 && destination < 0x80 && dataType < 0x100
      modifies this`freeList, this`usage, this`peak, this`txQueue, this`stats, this`free, this`tx, this`held, mem
      ensures Valid() && Views(H()) == Views(old(H()))
      ensures result == -2 <==> priority > 31
      ensures result == -4 <==> priority <= 31 && source == 0
      ensures result == -2 || result == -4 ==>
                Queue() == old(Queue()) && View() == old(View()) && nextTransferId == transferId
      ensures result != -2 && result != -4 ==>
                && nextTransferId == (if isRequest then Incremented(transferId) else transferId)
                && stats == old(stats).(sent := Count(old(stats).sent, MAX_UINT64))
                && SentBy(old(Queue()), old(|free|), result, ServiceId(priority, dataType, isRequest, source, destination),
                          transferId,
                          if |payload| > 7 then Crc.Add(Crc.AddSignature(0xFFFF, signature), payload) else 0xFFFF, payload)
    {
      nextTransferId := transferId;
      if priority > 31 {
        return -INVALID_ARGUMENT, nextTransferId;
      }
      if source == 0 {
        return -NODE_ID_NOT_SET, nextTransferId;
      }
      var canId := ServiceId(priority, dataType, isRequest, source, destination);
      var crc: bv16 := 0xFFFF;
      if |payload| > 7 {
        crc := Crc.CrcAddSignature(crc, signature);
        crc := Crc.CrcAdd(crc, payload);
      }
      result := EnqueueTxFrames(canId, transferId, crc, payload);
      if isRequest {
        nextTransferId := Incremented(transferId);
      }
      CountSent();
    }

    // ---- Reassembly states ----

    method FindRxState(descriptor: nat) returns (p: int, ghost k: nat)
      requires Linked()
      ensures k == Find(Views(H()), descriptor)
      ensures p == if k < |rx| then rx[k].at else NULL
      ensures k < |rx| ==> 0 <= p < mem.Length && mem[p].RxState?
    {
      p, k := rxStates, 0;
      ghost var vs := Views(H());
      if rx != [] {
        ChainAt(mem[..], rxStates, Ats(rx), 0);
      }
      while p != NULL
        invariant k <= |rx| && p == Link(Ats(rx), k)
        invariant forall j | 0 <= j < k :: vs[j].descriptor != descriptor
        decreases |rx| - k
      {
        ChainAt(mem[..], rxStates, Ats(rx), k);
        assert vs[k] == SlotView(mem[..], rx[k]);
        if mem[p].descriptor == descriptor {
          FindUnique(vs, descriptor, k);
          return;
        }
        p := mem[p].next;
        k := k + 1;
      }
      assert k == |rx|;
      FindUnique(vs, descriptor, k);
    }

    /** A new state at the front of the list, or NULL when the pool is empty. */
    method PrependRxState(descriptor: nat) returns (p: int)
      requires Valid() && Find(Views(H()), descriptor) == |rx|
      modifies this`freeList, this`usage, this`peak, this`rxStates, this`free, this`rx, this`held, mem
      ensures Valid() && Queue() == old(Queue())
      ensures old(free) == [] ==> p == NULL && View() == old(View())
      ensures old(free) != [] ==>
                && rx != [] && p == rx[0].at && 0 <= p < mem.Length && mem[p].RxState?
                && View() == old(View()).(free := old(|free|) - 1, states := [Fresh(descriptor)] + old(View()).states)
    {
      p := StateInHand(descriptor);
      if p != NULL {
        PrependDistinct(Views(H()), Fresh(descriptor));
        LinkState(p, descriptor);
      }
    }

    /** The state in hand becomes the first of the list. */
    method LinkState(p: int, descriptor: nat)
      requires Linked() && Contents(H()) && held == [p] && 0 <= p < mem.Length
      requires mem[p] == RxState(rxStates, NULL, 0, descriptor, 0, 0, 0, false, 0, Blank(6))
      modifies this`rxStates, this`rx, this`held
      ensures Linked() && held == [] && Contents(H()) && Queue() == old(Queue()) && rx != [] && p == rx[0].at
      ensures Views(H()) == [Fresh(descriptor)] + old(Views(H()))
    {
      ghost var h := H();
      PrependOk(h);
      ViewsPrepend(h);
      rxStates := p;
      rx, held := [Slot(p, [], [])] + rx, [];
      assert H() == Prepend(h);
    }

    /** createRxState: a block for a state whose next one is the first of the list. */
    method StateInHand(descriptor: nat) returns (p: int)
      requires Valid()
      modifies this`freeList, this`usage, this`peak, this`free, this`held, mem
      ensures Linked() && Contents(H()) && Views(H()) == Views(old(H())) && Queue() == old(Queue())
      ensures old(free) == [] ==> p == NULL && held == [] && |free| == 0
      ensures old(free) != [] ==>
                && held == [p] && 0 <= p < mem.Length && |free| == old(|free|) - 1
                && mem[p] == RxState(rxStates, NULL, 0, descriptor, 0, 0, 0, false, 0, Blank(6))
    {
      ghost var h := H();
      p := AllocateBlock();
      if p == NULL {
        ViewsSame(h, H());
        return;
      }
      ghost var h1 := H();
      WriteInHand(p, RxState(rxStates, NULL, 0, descriptor, 0, 0, 0, false, 0, Blank(6)));
      SameThrough(h, h1, H(), -1);
      ViewsSame(h, H());
    }

    /** traverseRxStates: the state with this descriptor, found or created. */
    method TraverseRxStates(descriptor: nat) returns (p: int, ghost k: nat)
      requires Valid()
      modifies this`freeList, this`usage, this`peak, this`rxStates, this`free, this`rx, this`held, mem
      ensures Valid() && Queue() == old(Queue())
      ensures var i := Find(old(View()).states, descriptor);
              if i < |old(View()).states| then View() == old(View()) && k == i
              else if old(free) == [] then View() == old(View()) && p == NULL
              else k == 0
                   && View() == old(View()).(free := old(|free|) - 1, states := [Fresh(descriptor)] + old(View()).states)
      ensures p != NULL ==> k < |rx| && p == rx[k].at && 0 <= p < mem.Length && mem[p].RxState?
      ensures p == NULL ==> old(free) == [] && Find(old(View()).states, descriptor) == |old(View()).states|
    {
      p, k := FindRxState(descriptor);
      if p == NULL {
        p := PrependRxState(descriptor);
        k := 0;
      }
    }

    /** Assigning fields of a state other than its pointers; `stored` is what it then counts as stored. */
    method UpdateState(p: int, v: Block, ghost k: nat, ghost stored: seq<byte>)
      requires Linked() && k < |rx| && p == rx[k].at && 0 <= p < mem.Length && SamePointers(mem[p], v)
      modifies this`rx, mem
      ensures Linked() && k < |old(rx)| && 0 <= p < |old(mem[..])| && H() == WriteState(old(H()), k, v, stored)
      ensures SameSlotsBut(old(H()), H(), k) && SameTx(old(H()), H())
      ensures SlotShape(old(mem[..]), old(rx)[k]) && SlotShape(mem[..], rx[k])
      ensures SlotBytes(mem[..], rx[k]) == v.head + SlotBytes(old(mem[..]), old(rx)[k])[HEAD_SIZE..]
    {
      ghost var h := H();
      WriteStateOk(h, k, v, stored);
      RxBlocksUpdate(rx, k, rx[k].(stored := stored));
      mem[p] := v;
      rx := rx[k := rx[k].(stored := stored)];
      assert H() == WriteState(h, k, v, stored);
    }

    /** Taking the first n blocks of a chain in hand; the state's pointer moves past them. */
    method TakeBuffers(p: int, next: int, ghost k: nat, ghost n: nat)
      requires Linked() && held == [] && k < |rx| && p == rx[k].at && 0 <= p < mem.Length && mem[p].RxState?
      requires n <= |rx[k].chain| && next == Link(rx[k].chain, n)
      modifies this`rx, this`held, mem
      ensures Linked() && rx == old(rx)[k := old(rx)[k].(chain := old(rx)[k].chain[n..])]
      ensures held == old(rx)[k].chain[..n] && mem[..] == old(mem[..])[p := old(mem[p]).(buffers := next)]
      ensures SameSlotsBut(old(H()), H(), k) && SameTx(old(H()), H())
    {
      ghost var h := H();
      assert SlotShape(h.mem, h.rx[k]);
      DetachOk(h, k, n);
      RxBlocksUpdate(rx, k, rx[k].(chain := rx[k].chain[n..]));
      mem[p] := mem[p].(buffers := next);
      held := rx[k].chain[..n] + held;
      rx := rx[k := rx[k].(chain := rx[k].chain[n..])];
      assert H() == Detach(h, k, n);
    }

    /** releaseStatePayload: every block of the chain goes back to the pool. */
    method ReleaseStatePayload(p: int, ghost k: nat)
      requires Linked() && held == [] && k < |rx| && p == rx[k].at && 0 <= p < mem.Length && mem[p].RxState?
      modifies this`freeList, this`usage, this`free, this`rx, this`held, mem
      ensures Linked() && held == [] && |free| == old(|free|) + |old(rx)[k].chain|
      ensures rx == old(rx)[k := Slot(p, [], [])]
      ensures mem[p] == old(mem[p]).(buffers := NULL, payloadLen := 0)
      ensures SameSlotsBut(old(H()), H(), k) && SameTx(old(H()), H()) && SlotContent(mem[..], rx[k])
    {
      ghost var h := H();
      assert forall j | 0 <= j < |rx| :: SameSlot(h, j, h, j);
      while mem[p].buffers != NULL
        invariant Linked() && held == [] && k < |rx| && p == rx[k].at && 0 <= p < mem.Length && mem[p].RxState?
        invariant |rx| == |old(rx)| && |free| + |rx[k].chain| == old(|free|) + |old(rx)[k].chain|
        invariant forall j | 0 <= j < |rx| && j != k :: rx[j] == old(rx)[j]
        invariant mem[p] == old(mem[p]).(buffers := mem[p].buffers)
        invariant SameSlotsBut(h, H(), k) && SameTx(h, H())
        decreases |rx[k].chain|
      {
        ReleaseFirst(p, k, h);
      }
      NoChain(k);
      NothingStored(p, k, h);
    }

    lemma NoChain(k: nat)
      requires Linked() && k < |rx| && mem[rx[k].at].RxState? && mem[rx[k].at].buffers == NULL
      ensures rx[k].chain == []
    {
      assert SlotShape(mem[..], rx[k]);
    }

    /** A state without a chain forgets the bytes it counted. */
    method NothingStored(p: int, ghost k: nat, ghost h: Heap)
      requires Linked() && held == [] && k < |rx| && p == rx[k].at && 0 <= p < mem.Length && mem[p].RxState?
      requires rx[k].chain == [] && SameSlotsBut(h, H(), k) && SameTx(h, H())
      modifies this`rx, mem
      ensures Linked() && held == [] && rx == old(rx)[k := Slot(p, [], [])]
      ensures mem[p] == old(mem[p]).(payloadLen := 0)
      ensures SameSlotsBut(h, H(), k) && SameTx(h, H()) && SlotContent(mem[..], rx[k])
    {
      ghost var mid := H();
      UpdateState(p, mem[p].(payloadLen := 0), k, []);
      SameThrough(h, mid, H(), k);
    }

    /** One round of the release loop. */
    method ReleaseFirst(p: int, ghost k: nat, ghost h: Heap)
      requires Linked() && held == [] && k < |rx| && p == rx[k].at && 0 <= p < mem.Length && mem[p].RxState?
      requires mem[p].buffers != NULL && SameSlotsBut(h, H(), k) && SameTx(h, H())
      modifies this`freeList, this`usage, this`free, this`rx, this`held, mem
      ensures Linked() && held == [] && |rx| == |old(rx)| && |free| == old(|free|) + 1
      ensures old(rx)[k].chain != [] && rx == old(rx)[k := old(rx)[k].(chain := old(rx)[k].chain[1..])]
      ensures mem[p].RxState? && old(mem[p]).RxState? && mem[p] == old(mem[p]).(buffers := mem[p].buffers)
      ensures SameSlotsBut(h, H(), k) && SameTx(h, H())
    {
      ghost var before := H();
      assert SlotShape(mem[..], rx[k]);
      assert rx[k].chain != [];
      ChainAt(mem[..], mem[p].buffers, rx[k].chain, 0);
      var block := mem[p].buffers;
      var next := mem[block].next;
      TakeBuffers(p, next, k, 1);
      ghost var mid := H();
      SameThrough(h, before, mid, k);
      StateApart(mid, k);
      FreeBlock(block);
      SameWeaken(mid, H(), k);
      SameThrough(h, mid, H(), k);
    }

    // ---- Storing bytes ----

    /** What pushing bytes keeps, from heap h on: only state k is touched, and of its own block only the head and the
        chain pointer. */
    ghost predicate Working(h: Heap, p: int, k: nat)
      reads this, mem
    {
      && Linked() && held == [] && k < |h.rx| && |rx| == |h.rx| && p == rx[k].at && p == h.rx[k].at
      && 0 <= p < mem.Length && |h.mem| == mem.Length && mem[p].RxState? && h.mem[p].RxState?
      && mem[p] == h.mem[p].(buffers := mem[p].buffers, head := mem[p].head)
      && rx[k].stored == h.rx[k].stored && |free| + |rx[k].chain| == |h.free| + |h.rx[k].chain|
      && SlotShape(h.mem, h.rx[k]) && SameSlotsBut(h, H(), k) && SameTx(h, H())
    }

    /** The state holds these bytes, as long as that is tracked. */
    ghost predicate Keeps(k: nat, bytes: seq<byte>, exact: bool)
      requires Linked() && k < |rx|
      reads this, mem
    {
      exact ==> Holds(mem[..], rx[k], bytes)
    }

    method WriteHead(p: int, head: HeadData, ghost h: Heap, ghost k: nat)
      requires Working(h, p, k)
      modifies this`rx, mem
      ensures Working(h, p, k) && mem[p].head == head && rx == old(rx)
      ensures SlotBytes(mem[..], rx[k]) == head + SlotBytes(old(mem[..]), old(rx)[k])[HEAD_SIZE..]
    {
      ghost var mid := H();
      assert rx[k := rx[k].(stored := rx[k].stored)] == rx;
      UpdateState(p, mem[p].(head := head), k, rx[k].stored);
      SameThrough(h, mid, H(), k);
    }

    /** createBufferBlock: the data of the block is whatever was left there. */
    method CreateBufferBlock() returns (block: int)
      requires Linked() && held == []
      modifies this`freeList, this`usage, this`peak, this`free, this`held, mem
      ensures Linked() && SameSlotsBut(old(H()), H(), -1) && SameTx(old(H()), H()) && rx == old(rx)
      ensures old(free) == [] ==> block == NULL && H() == old(H())
      ensures old(free) != [] ==>
                && held == [block] && 0 <= block < mem.Length && FreshBuffer(H()) && |free| == |old(free)| - 1
                && mem[..] == old(mem[..])[block := mem[block]]
    {
      ghost var h := H();
      block := AllocateBlock();
      if block != NULL {
        ghost var mid := H();
        WriteInHand(block, Buffer(NULL, Leftover(mem[block])));
        SameThrough(h, mid, H(), -1);
      }
    }

    /** The pointer write that adds the block in hand to a chain; last is NULL for an empty chain. */
    method AttachBlock(p: int, last: int, block: int, ghost k: nat)
      requires Linked() && held == [block] && k < |rx| && p == rx[k].at && FreshBuffer(H())
      requires last == if rx[k].chain == [] then NULL else rx[k].chain[|rx[k].chain| - 1]
      modifies this`rx, this`held, mem
      ensures Linked() && k < |old(rx)| && SlotShape(old(mem[..]), old(rx)[k]) && FreshBuffer(old(H()))
      ensures H() == Attach(old(H()), k) && SameSlotsBut(old(H()), H(), k) && SameTx(old(H()), H())
    {
      ghost var h := H();
      assert SlotShape(h.mem, h.rx[k]);
      AttachOk(h, k);
      RxBlocksUpdate(rx, k, rx[k].(chain := rx[k].chain + [block]));
      if last == NULL {
        mem[p] := mem[p].(buffers := block);
      } else {
        mem[last] := SetNext(mem[last], block);
      }
      rx, held := rx[k := rx[k].(chain := rx[k].chain + [block])], [];
      assert H() == Attach(h, k);
    }

    /** A longer chain holds what it held before. */
    lemma AttachKeeps(h: Heap, k: nat, bytes: seq<byte>)
      requires WellLinked(h) && k < |h.rx| && SlotShape(h.mem, h.rx[k]) && FreshBuffer(h)
      requires SlotShape(Attach(h, k).mem, Attach(h, k).rx[k])
      requires Holds(h.mem, h.rx[k], bytes)
      ensures Holds(Attach(h, k).mem, Attach(h, k).rx[k], bytes)
    {
      AttachChain(h, k);
      var data := h.mem[h.held[0]].data;
      ConcatAppend(ChainData(h.mem, h.rx[k].chain), data);
      BeginsLonger(SlotBytes(h.mem, h.rx[k]), data, bytes);
      assert SlotBytes(Attach(h, k).mem, Attach(h, k).rx[k]) == SlotBytes(h.mem, h.rx[k]) + data;
    }

    /** A new block at the end of the chain, or NULL when the pool is empty. */
    method Extend(p: int, last: int, ghost h: Heap, ghost k: nat, ghost bytes: seq<byte>, ghost exact: bool)
      returns (block: int)
      requires Working(h, p, k) && Keeps(k, bytes, exact)
      requires last == if rx[k].chain == [] then NULL else rx[k].chain[|rx[k].chain| - 1]
      modifies this`freeList, this`usage, this`peak, this`free, this`rx, this`held, mem
      ensures Working(h, p, k) && Keeps(k, bytes, exact)
      ensures old(free) == [] ==> block == NULL && free == [] && rx == old(rx)
      ensures old(free) != [] ==> rx[k].chain == old(rx)[k].chain + [block] && 0 <= block < mem.Length
    {
      ghost var h0 := H();
      block := CreateBufferBlock();
      if block == NULL {
        return;
      }
      ghost var h1 := H();
      HeldApart(h1);
      SameWeaken(h0, h1, k);
      SameThrough(h, h0, h1, k);
      assert SameSlot(h0, k, h1, k);
      AttachBlock(p, last, block, k);
      AttachChain(h1, k);
      if exact {
        AttachKeeps(h1, k, bytes);
      }
      SameThrough(h, h1, H(), k);
    }

    /** Filling the last block from index on. */
    method FillBlock(p: int, block: int, index: nat, data: seq<byte>, from: nat,
                     ghost h: Heap, ghost k: nat, ghost bytes: seq<byte>, ghost exact: bool)
      returns (next: nat)
      requires Working(h, p, k) && rx[k].chain != [] && block == rx[k].chain[|rx[k].chain| - 1]
      requires index < BLOCK_SIZE && from <= |data|
      requires Keeps(k, bytes, exact) && (exact ==> |bytes| == BlockStart(|rx[k].chain| - 1) + index)
      modifies mem
      ensures Working(h, p, k)
      ensures next == from + Bits.Min(BLOCK_SIZE - index, |data| - from) && Keeps(k, bytes + data[from..next], exact)
    {
      ghost var h0, i := H(), |rx[k].chain| - 1;
      assert SlotShape(h0.mem, h0.rx[k]);
      BufferApart(h0, k, i);
      var v;
      v, next := CopyInto(mem[block].data, index, data, from);
      WriteBufferOk(h0, k, i, v);
      mem[block] := Buffer(mem[block].next, v);
      assert H() == WriteBuffer(h0, k, i, v);
      SameThrough(h, h0, H(), k);
      if exact {
        PieceInBlock(h0.mem[p].head, ChainData(h0.mem, h0.rx[k].chain), i, index, data[from..next], bytes);
      }
    }

    /** The head takes what fits into it. */
    method FillHead(p: int, data: seq<byte>, ghost h: Heap, ghost k: nat, ghost stored: seq<byte>, ghost exact: bool)
      returns (next: nat)
      requires Working(h, p, k) && Keeps(k, stored, exact) && (exact ==> mem[p].payloadLen == |stored|)
      modifies this`rx, mem
      ensures Working(h, p, k) && rx == old(rx)
      ensures next == if h.mem[p].payloadLen < HEAD_SIZE then Bits.Min(HEAD_SIZE - h.mem[p].payloadLen, |data|) else 0
      ensures Keeps(k, stored + data[..next], exact)
    {
      ghost var rest := SlotBytes(mem[..], rx[k])[HEAD_SIZE..];
      ghost var before := mem[p].head;
      var head;
      head, next := CopyInto(mem[p].head, mem[p].payloadLen, data, 0);
      assert SlotBytes(mem[..], rx[k]) == before + rest;
      WriteHead(p, head, h, k);
      assert data[0..next] == data[..next];
      if exact && mem[p].payloadLen < HEAD_SIZE {
        PieceInHead(before, rest, data[..next], stored);
      } else if exact {
        assert data[..next] == [] && stored + [] == stored;
      }
    }

    /** Walks to the end of the chain. */
    method LastBlock(p: int, ghost k: nat) returns (block: int, count: nat)
      requires Linked() && k < |rx| && p == rx[k].at && 0 <= p < mem.Length && mem[p].RxState? && mem[p].buffers != NULL
      ensures rx[k].chain != [] && count == |rx[k].chain| && block == rx[k].chain[count - 1]
      ensures 0 <= block < mem.Length && mem[block].Buffer?
    {
      assert SlotShape(mem[..], rx[k]);
      ghost var chain := rx[k].chain;
      block, count := mem[p].buffers, 1;
      ChainAt(mem[..], mem[p].buffers, chain, 0);
      while mem[block].next != NULL
        invariant 1 <= count <= |chain| && block == chain[count - 1] && 0 <= block < mem.Length
        decreases |chain| - count
      {
        ChainAt(mem[..], mem[p].buffers, chain, count - 1);
        block := mem[block].next;
        count := count + 1;
      }
      ChainAt(mem[..], mem[p].buffers, chain, count - 1);
    }

    /** What the search for the place of the next byte leaves: block NULL when one was needed and the pool is empty. */
    ghost predicate Placed(h: Heap, p: int, k: nat, block: int, index: nat, rest: nat, after: nat)
      requires Working(h, p, k)
      reads this, mem
    {
      && index < BLOCK_SIZE
      && (block == NULL ==> free == [] && after == |rx[k].chain| + 1)
      && (block != NULL ==>
            && rx[k].chain != [] && block == rx[k].chain[|rx[k].chain| - 1]
            && after == |rx[k].chain| + (if index + rest > BLOCK_SIZE then 1 else 0))
    }

    /** The arithmetic of the search in a chain of `count` blocks. */
    static lemma PlaceFound(len: nat, count: nat, n: nat, exact: bool)
      requires count > 0 && n <= 7 && (len == HEAD_SIZE || (n > 0 && len + n > HEAD_SIZE))
      requires exact ==> len < 1024 && Layout(len, count)
      ensures var index, next := Unsigned(len - HEAD_SIZE) % 28, if len < HEAD_SIZE then HEAD_SIZE - len else 0;
              var more := Unsigned(len + n - HEAD_SIZE) / 28 + 1 > count && index == 0;
              && next <= n
              && BlocksAfter(len, count, n) == (if more then count + 1 else count + (if index + (n - next) > BLOCK_SIZE then 1 else 0))
              && (exact ==> len + next == BlockStart(if more then count else count - 1) + index)
    {
      BlockDivision(Unsigned(len - HEAD_SIZE));
      BlockDivision(Unsigned(len + n - HEAD_SIZE));
      BlocksNeeded(len, count, n);
      if exact {
        Position(len, count, n);
      }
    }

    /** Finds the block the next byte goes to, adding one when the last is full. */
    method NextPlace(p: int, dataLen: nat, ghost next: nat, ghost h: Heap, ghost k: nat, ghost bytes: seq<byte>,
                     ghost exact: bool)
      returns (block: int, index: nat)
      requires Working(h, p, k) && rx[k].chain == h.rx[k].chain && dataLen <= 7 && mem[p].payloadLen < 1024
      requires mem[p].buffers != NULL
      requires mem[p].payloadLen == HEAD_SIZE || (dataLen > 0 && mem[p].payloadLen + dataLen > HEAD_SIZE)
      requires next == if mem[p].payloadLen < HEAD_SIZE then HEAD_SIZE - mem[p].payloadLen else 0
      requires Keeps(k, bytes, exact) && (exact ==> Layout(mem[p].payloadLen, |rx[k].chain|))
      modifies this`freeList, this`usage, this`peak, this`free, this`rx, this`held, mem
      ensures Working(h, p, k) && Keeps(k, bytes, exact) && next <= dataLen
      ensures Placed(h, p, k, block, index, dataLen - next, BlocksAfter(h.mem[p].payloadLen, |h.rx[k].chain|, dataLen))
      ensures block != NULL && exact ==> h.mem[p].payloadLen + next == BlockStart(|rx[k].chain| - 1) + index
    {
      var len := mem[p].payloadLen;
      index := Unsigned(len - HEAD_SIZE) % 28;
      assert SlotShape(mem[..], rx[k]);
      var count;
      block, count := LastBlock(p, k);
      var wanted := Unsigned(len + dataLen - HEAD_SIZE) / 28 + 1;
      PlaceFound(len, count, dataLen, exact);
      if wanted > count && index == 0 {
        block := Extend(p, block, h, k, bytes, exact);
      }
    }

    /** One round: the last block takes what fits, and a new one is added when bytes are left. */
    method FillRound(p: int, last: int, start: nat, data: seq<byte>, from: nat, ghost h: Heap, ghost k: nat,
                     ghost bytes: seq<byte>, ghost exact: bool, ghost after: nat)
      returns (block: int, index: nat, next: nat)
      requires Working(h, p, k) && Keeps(k, bytes, exact) && from < |data| <= 7
      requires last != NULL && Placed(h, p, k, last, start, |data| - from, after)
      requires exact ==> |bytes| == BlockStart(|rx[k].chain| - 1) + start
      modifies this`freeList, this`usage, this`peak, this`free, this`rx, this`held, mem
      ensures Working(h, p, k) && from < next <= |data| && Keeps(k, bytes + data[from..next], exact)
      ensures Placed(h, p, k, block, index, |data| - next, after) && (block == NULL ==> next < |data|)
      ensures block != NULL && exact && next < |data| ==>
                |bytes| + (next - from) == BlockStart(|rx[k].chain| - 1) + index
    {
      block, index := last, start;
      next := FillBlock(p, block, index, data, from, h, k, bytes, exact);
      if next < |data| {
        block := Extend(p, block, h, k, bytes + data[from..next], exact);
        index := 0;
      }
    }

    lemma JoinPieces(bytes: seq<byte>, data: seq<byte>, from: nat, mid: nat, end: nat)
      requires from <= mid <= end <= |data|
      ensures bytes + data[from..mid] + data[mid..end] == bytes + data[from..end]
    {
    }

    /** The loop that fills the last block and goes on in a new one. */
    method FillBlocks(p: int, first: int, start: nat, data: seq<byte>, from: nat, ghost h: Heap, ghost k: nat,
                      ghost bytes: seq<byte>, ghost exact: bool, ghost after: nat)
      returns (ok: bool)
      requires Working(h, p, k) && Keeps(k, bytes, exact) && from <= |data| <= 7
      requires first != NULL && Placed(h, p, k, first, start, |data| - from, after)
      requires exact ==> |bytes| == BlockStart(|rx[k].chain| - 1) + start
      modifies this`freeList, this`usage, this`peak, this`free, this`rx, this`held, mem
      ensures Working(h, p, k)
      ensures if ok then |rx[k].chain| == after && Keeps(k, bytes + data[from..], exact)
              else free == [] && after == |rx[k].chain| + 1
    {
      var block, index, next := first, start, from;
      assert bytes + data[from..from] == bytes;
      while next < |data|
        invariant Working(h, p, k) && from <= next <= |data|
        invariant block != NULL && Placed(h, p, k, block, index, |data| - next, after)
        invariant Keeps(k, bytes + data[from..next], exact)
        invariant exact && next < |data| ==> |bytes| + (next - from) == BlockStart(|rx[k].chain| - 1) + index
        decreases |data| - next
      {
        ghost var done, now := next, bytes + data[from..next];
        block, index, next := FillRound(p, block, index, data, next, h, k, now, exact, after);
        JoinPieces(bytes, data, from, done, next);
        if block == NULL {
          return false;
        }
      }
      assert data[from..next] == data[from..];
      return true;
    }

    /** The state took the bytes, and nothing else changed. */
    ghost predicate Pushed(h: Heap, p: int, k: nat, data: seq<byte>, after: nat)
      reads this, mem
    {
      && Linked() && held == [] && k < |h.rx| == |rx| && p == rx[k].at && 0 <= p < mem.Length && SlotShape(h.mem, h.rx[k])
      && SlotContent(mem[..], rx[k]) && SameSlotsBut(h, H(), k) && SameTx(h, H())
      && SlotView(mem[..], rx[k]) == SlotView(h.mem, h.rx[k]).(stored := h.rx[k].stored + data, blocks := after)
      && |free| + after == |h.free| + |h.rx[k].chain|
    }

    /** The length word, once the bytes are in place. */
    method StoreLength(p: int, n: nat, ghost h: Heap, ghost k: nat, ghost data: seq<byte>, ghost exact: bool)
      requires Working(h, p, k) && n == |data| && mem[p].payloadLen == |rx[k].stored| % 1024
      requires Keeps(k, rx[k].stored + data, exact)
      requires |rx[k].stored| + n < 1024 ==> exact && Layout(|rx[k].stored| + n, |rx[k].chain|)
      modifies this`rx, mem
      ensures Pushed(h, p, k, data, |old(rx)[k].chain|)
    {
      ghost var mid, stored := H(), rx[k].stored + data;
      assert SlotShape(mem[..], rx[k]);
      ghost var v := mem[p].(payloadLen := (mem[p].payloadLen + n) % 1024);
      UpdateState(p, mem[p].(payloadLen := (mem[p].payloadLen + n) % 1024), k, stored);
      LengthWritten(mid, k, v, data);
      SameThrough(h, mid, H(), k);
    }

    /** The length now counts the bytes that are already in place. */
    static lemma LengthWritten(h: Heap, k: nat, v: Block, data: seq<byte>)
      requires k < |h.rx| && SlotShape(h.mem, h.rx[k])
      requires v == h.mem[h.rx[k].at].(payloadLen := (h.mem[h.rx[k].at].payloadLen + |data|) % 1024)
      requires h.mem[h.rx[k].at].payloadLen == |h.rx[k].stored| % 1024
      requires |h.rx[k].stored| + |data| < 1024 ==>
                 Layout(|h.rx[k].stored| + |data|, |h.rx[k].chain|) && Holds(h.mem, h.rx[k], h.rx[k].stored + data)
      requires var after := WriteState(h, k, v, h.rx[k].stored + data);
               SlotShape(after.mem, after.rx[k])
               && SlotBytes(after.mem, after.rx[k]) == v.head + SlotBytes(h.mem, h.rx[k])[HEAD_SIZE..]
      ensures var after := WriteState(h, k, v, h.rx[k].stored + data); SlotContent(after.mem, after.rx[k])
    {
      LengthWraps(|h.rx[k].stored|, |data|);
      HeadAndRest(v.head, SlotBytes(h.mem, h.rx[k]));
    }

    static lemma LengthWraps(len: nat, n: nat)
      ensures (len % 1024 + n) % 1024 == (len + n) % 1024
    {
    }

    static lemma HeadAndRest(head: seq<byte>, whole: seq<byte>)
      requires |head| == HEAD_SIZE && head <= whole
      ensures head + whole[HEAD_SIZE..] == whole
    {
    }

    /** Where a push goes on behind the head. */
    method Place(p: int, dataLen: nat, ghost next: nat, ghost h: Heap, ghost k: nat, ghost bytes: seq<byte>,
                 ghost exact: bool)
      returns (block: int, index: nat)
      requires Working(h, p, k) && rx[k].chain == h.rx[k].chain && dataLen <= 7 && mem[p].payloadLen < 1024
      requires mem[p].payloadLen == HEAD_SIZE || (dataLen > 0 && mem[p].payloadLen + dataLen > HEAD_SIZE)
      requires next == if mem[p].payloadLen < HEAD_SIZE then HEAD_SIZE - mem[p].payloadLen else 0
      requires Keeps(k, bytes, exact) && (exact ==> Layout(mem[p].payloadLen, |rx[k].chain|))
      modifies this`freeList, this`usage, this`peak, this`free, this`rx, this`held, mem
      ensures Working(h, p, k) && Keeps(k, bytes, exact) && next <= dataLen
      ensures Placed(h, p, k, block, index, dataLen - next, BlocksAfter(h.mem[p].payloadLen, |h.rx[k].chain|, dataLen))
      ensures block != NULL && exact ==> h.mem[p].payloadLen + next == BlockStart(|rx[k].chain| - 1) + index
    {
      if mem[p].buffers == NULL {
        assert SlotShape(mem[..], rx[k]);
        BlocksNeeded(mem[p].payloadLen, 0, dataLen);
        block := Extend(p, NULL, h, k, bytes, exact);
        index := 0;
      } else {
        block, index := NextPlace(p, dataLen, next, h, k, bytes, exact);
      }
    }

    /** The part of a push behind the head. */
    method PushBlocks(p: int, data: seq<byte>, next: nat, ghost h: Heap, ghost k: nat, ghost stored: seq<byte>,
                      ghost exact: bool, ghost after: nat)
      returns (ok: bool)
      requires Working(h, p, k) && rx[k].chain == h.rx[k].chain && |data| <= 7 && mem[p].payloadLen < 1024
      requires mem[p].payloadLen == HEAD_SIZE || (|data| > 0 && mem[p].payloadLen + |data| > HEAD_SIZE)
      requires next == if mem[p].payloadLen < HEAD_SIZE then HEAD_SIZE - mem[p].payloadLen else 0
      requires next <= |data| && Keeps(k, stored + data[..next], exact)
      requires exact ==> mem[p].payloadLen == |stored| && Layout(|stored|, |rx[k].chain|)
      requires after == BlocksAfter(mem[p].payloadLen, |rx[k].chain|, |data|)
      modifies this`freeList, this`usage, this`peak, this`free, this`rx, this`held, mem
      ensures Working(h, p, k)
      ensures if ok then |rx[k].chain| == after && Keeps(k, stored + data, exact)
              else free == [] && after == |rx[k].chain| + 1
    {
      ghost var bytes := stored + data[..next];
      assert bytes + data[next..] == stored + data;
      var block, index := Place(p, |data|, next, h, k, bytes, exact);
      if block == NULL {
        return false;
      }
      ok := FillBlocks(p, block, index, data, next, h, k, bytes, exact, after);
    }

    /** The part of a push that fills the head; done when all bytes went there. */
    method PushHead(p: int, data: seq<byte>, ghost h: Heap, ghost k: nat, ghost stored: seq<byte>, ghost exact: bool)
      returns (next: nat, done: bool)
      requires Working(h, p, k) && Keeps(k, stored, exact) && (exact ==> mem[p].payloadLen == |stored|)
      requires mem[p].payloadLen < 1024
      modifies this`rx, mem
      ensures Working(h, p, k) && rx == old(rx)
      ensures next == if h.mem[p].payloadLen < HEAD_SIZE then Bits.Min(HEAD_SIZE - h.mem[p].payloadLen, |data|) else 0
      ensures done <==> h.mem[p].payloadLen != HEAD_SIZE && next == |data|
      ensures Keeps(k, stored + data[..next], exact)
    {
      next, done := 0, false;
      assert stored + data[..0] == stored;
      if Unsigned(HEAD_SIZE - mem[p].payloadLen) > 0 {
        next := FillHead(p, data, h, k, stored, exact);
        done := next >= |data|;
      }
    }

    lemma PushIsLaidOut(s: Slot, n: nat)
      requires SlotShape(mem[..], s) && SlotContent(mem[..], s) && n <= 7
      ensures var len := mem[s.at].payloadLen;
              && len == |s.stored| % 1024
              && (|s.stored| < 1024 ==>
                    && len == |s.stored| && Layout(len, |s.chain|) && Layout(len + n, BlocksAfter(len, |s.chain|, n))
                    && Holds(mem[..], s, s.stored))
    {
      if |s.stored| < 1024 {
        PushKeepsLayout(|s.stored|, |s.chain|, n);
      }
    }

    /** bufferBlockPushBytes: the bytes go behind those stored, or the pool runs out of blocks. */
    method PushBytes(p: int, data: seq<byte>, ghost k: nat) returns (ok: bool)
      requires Linked() && held == [] && k < |rx| && p == rx[k].at && 0 <= p < mem.Length && mem[p].RxState?
      requires |data| <= 7 && SlotContent(mem[..], rx[k])
      modifies this`freeList, this`usage, this`peak, this`free, this`rx, this`held, mem
      ensures var after := BlocksAfter(old(mem[p]).payloadLen, |old(rx)[k].chain|, |data|);
              && ok == (after <= |old(rx)[k].chain| + |old(free)|)
              && (ok ==> Pushed(old(H()), p, k, data, after))
      ensures !ok ==> Working(old(H()), p, k)
    {
      ghost var h, stored, exact := H(), rx[k].stored, |rx[k].stored| < 1024;
      ghost var after := BlocksAfter(mem[p].payloadLen, |rx[k].chain|, |data|);
      assert forall j | 0 <= j < |rx| :: SameSlot(h, j, h, j);
      PushIsLaidOut(rx[k], |data|);
      ok := PushData(p, data, h, k, stored, exact, after);
      if ok {
        StoreLength(p, |data|, h, k, data, exact);
      }
    }

    /** All of a push but the length. */
    method PushData(p: int, data: seq<byte>, ghost h: Heap, ghost k: nat, ghost stored: seq<byte>, ghost exact: bool,
                    ghost after: nat)
      returns (ok: bool)
      requires Working(h, p, k) && rx[k].chain == h.rx[k].chain && Keeps(k, stored, exact) && |data| <= 7
      requires mem[p].payloadLen < 1024 && h.mem[p].payloadLen == mem[p].payloadLen
      requires exact ==> mem[p].payloadLen == |stored| && Layout(|stored|, |rx[k].chain|)
      requires after == BlocksAfter(mem[p].payloadLen, |rx[k].chain|, |data|)
      modifies this`freeList, this`usage, this`peak, this`free, this`rx, this`held, mem
      ensures Working(h, p, k)
      ensures if ok then |rx[k].chain| == after && Keeps(k, stored + data, exact)
              else free == [] && after == |rx[k].chain| + 1
    {
      var next, done := PushHead(p, data, h, k, stored, exact);
      ok := true;
      if !done {
        ok := PushBlocks(p, data, next, h, k, stored, exact, after);
      } else {
        assert data[..next] == data;
      }
    }

    // ---- Receiving ----

    /** While a frame is handled: state k is the view v, f blocks are free, and all else is as in heap h. */
    ghost predicate Around(h: Heap, p: int, k: nat, v: RxView, f: nat)
      reads this, mem
    {
      && Linked() && k < |h.rx| == |rx| && p == rx[k].at && 0 <= p < mem.Length && mem[p].RxState?
      && SlotView(mem[..], rx[k]) == v && |free| == f && SameSlotsBut(h, H(), k) && SameTx(h, H())
    }

    /** The same, with no block in hand and the stored bytes in their place. */
    ghost predicate At(h: Heap, p: int, k: nat, v: RxView, f: nat)
      reads this, mem
    {
      Around(h, p, k, v, f) && held == [] && SlotContent(mem[..], rx[k])
    }

    static function ViewOf(b: Block, stored: seq<byte>, blocks: nat): RxView
      requires b.RxState?
    {
      RxView(b.descriptor, b.timestamp, b.calculatedCrc, b.payloadCrc, b.transferId, b.nextToggle, stored, blocks)
    }

    /** Assigning fields; the stored bytes stay, or are dropped when there is no chain. */
    method Assign(p: int, v: Block, ghost h: Heap, ghost k: nat, ghost s: RxView, ghost f: nat, ghost stored: seq<byte>)
      requires At(h, p, k, s, f) && SamePointers(mem[p], v) && v.head == mem[p].head
      requires stored == s.stored || (stored == [] && s.blocks == 0)
      requires v.payloadLen == |stored| % 1024
      modifies this`rx, mem
      ensures At(h, p, k, ViewOf(v, stored, s.blocks), f)
    {
      ghost var mid := H();
      assert SlotShape(mem[..], rx[k]);
      UpdateState(p, v, k, stored);
      SameThrough(h, mid, H(), k);
    }

    /** The flags that decide about a restart, and the restart itself. */
    method Restart(p: int, tail: byte, now: nat, ghost h: Heap, ghost k: nat, ghost s: RxView, ghost f: nat)
      returns (needed: bool)
      requires At(h, p, k, s, f)
      modifies this`freeList, this`usage, this`free, this`rx, this`held, mem
      ensures needed == NeedsRestart(s, tail, now)
      ensures At(h, p, k, Restarted(s, tail, now), f + s.blocks - Restarted(s, tail, now).blocks)
    {
      assert SlotShape(mem[..], rx[k]);
      var notInitialized := mem[p].timestamp == 0;
      var timedOut := Elapsed(now, mem[p].timestamp) > TIMEOUT_USEC;
      var notPrevious := ForwardDistance(mem[p].transferId, TransferId(tail)) > 1;
      var incomplete := mem[p].buffers != NULL;
      needed := notInitialized || timedOut || (IsStart(tail) && (notPrevious || incomplete));
      if needed {
        Assign(p, mem[p].(transferId := TransferId(tail), nextToggle := false), h, k, s, f, s.stored);
        ghost var mid := H();
        ReleaseStatePayload(p, k);
        SameThrough(h, mid, H(), k);
      }
    }

    /** After a push that failed on the way: the payload goes, and the state waits for the next transfer. */
    method DropTransfer(p: int, ghost h: Heap, ghost mid: Heap, ghost k: nat, ghost s: RxView, ghost f: nat)
      requires Working(mid, p, k) && SlotView(mid.mem, mid.rx[k]) == s && |mid.free| == f
      requires SameSlotsBut(h, mid, k) && SameTx(h, mid)
      modifies this`freeList, this`usage, this`free, this`rx, this`held, this`stats, mem
      ensures At(h, p, k, Prepared(s.(blocks := 0)), f + s.blocks) && stats == CountDropped(old(stats))
    {
      ghost var failed := H();
      SameThrough(h, mid, failed, k);
      ReleaseStatePayload(p, k);
      SameThrough(h, failed, H(), k);
      Assign(p, mem[p].(transferId := NextTransferId(mem[p].transferId), nextToggle := false), h, k,
             s.(stored := [], blocks := 0), f + s.blocks, []);
      stats := CountDropped(stats);
    }

    /** Storing the bytes of a start or middle frame; without room the whole transfer is dropped. */
    method StoreBytes(p: int, bytes: seq<byte>, ghost h: Heap, ghost k: nat, ghost s: RxView, ghost f: nat)
      returns (ok: bool)
      requires At(h, p, k, s, f) && |bytes| <= 7
      modifies this`freeList, this`usage, this`peak, this`free, this`rx, this`held, this`stats, mem
      ensures ok == HasRoom(s, f, bytes)
      ensures var o := Store(s, f, old(stats), bytes); At(h, p, k, o.state, o.free) && stats == o.stats
    {
      ghost var mid := H();
      ok := PushBytes(p, bytes, k);
      if !ok {
        DropTransfer(p, h, mid, k, s, f);
      } else {
        SameThrough(h, mid, H(), k);
        var crc := Crc.CrcAdd(mem[p].calculatedCrc, bytes);
        ghost var after := BlocksAfter(PayloadLen(s), s.blocks, |bytes|);
        Assign(p, mem[p].(calculatedCrc := crc, nextToggle := !mem[p].nextToggle), h, k,
               s.(stored := s.stored + bytes, blocks := after), f + s.blocks - after, s.stored + bytes);
      }
    }

    // ---- The end of a multi-frame transfer ----

    /** canardReleaseRxTransferPayload. */
    method ReleasePayload(first: int)
      requires Linked() && Chain(mem[..], first, held)
      modifies this`freeList, this`usage, this`free, this`held, mem
      ensures Linked() && held == [] && |free| == old(|free|) + |old(held)|
      ensures SameSlotsBut(old(H()), H(), -1) && SameTx(old(H()), H())
    {
      ghost var h := H();
      assert forall j | 0 <= j < |rx| :: SameSlot(h, j, h, j);
      var middle := first;
      while middle != NULL
        invariant Linked() && Chain(mem[..], middle, held) && |free| + |held| == |h.free| + |h.held|
        invariant SameSlotsBut(h, H(), -1) && SameTx(h, H())
        decreases |held|
      {
        ghost var before := H();
        HeldApart(before);
        var next := mem[middle].next;
        FreeBlock(middle);
        ChainFrame(before.mem, mem[..], next, held);
        SameThrough(h, before, H(), -1);
        middle := next;
      }
    }

    /** What a pointer to the buffer chain gives to see. */
    method ReadChain(p: int, ghost k: nat) returns (middle: seq<seq<byte>>)
      requires Linked() && k < |rx| && p == rx[k].at && 0 <= p < mem.Length && mem[p].RxState?
      ensures SlotShape(mem[..], rx[k]) && middle == ChainData(mem[..], rx[k].chain)
    {
      assert SlotShape(mem[..], rx[k]);
      ghost var chain := rx[k].chain;
      middle := [];
      var block, i := mem[p].buffers, 0;
      if chain != [] {
        ChainAt(mem[..], mem[p].buffers, chain, 0);
      }
      while block != NULL
        invariant i <= |chain| && block == Link(chain, i) && middle == ChainData(mem[..], chain)[..i]
        decreases |chain| - i
      {
        ChainAt(mem[..], mem[p].buffers, chain, i);
        middle := middle + [mem[block].data];
        block, i := mem[block].next, i + 1;
      }
    }

    /** The checksum decides, the blocks go back to the pool, and the state waits for the next transfer. */
    method CloseTransfer(p: int, body: seq<byte>, ghost h: Heap, ghost k: nat, ghost s: RxView,
                         ghost f: nat) returns (good: bool)
      requires Around(h, p, k, s, f) && held == []
      modifies this`freeList, this`usage, this`free, this`rx, this`held, this`stats, mem
      ensures var crc := Crc.Add(s.calculatedCrc, body);
              && good == (crc == s.payloadCrc) && stats == (if good then CountReceived(old(stats)) else CountError(old(stats)))
              && At(h, p, k, Prepared(s.(calculatedCrc := crc, blocks := 0)), f + s.blocks)
    {
      var middle := mem[p].buffers;
      TakeChain(p, h, k, s, f);
      var crc := Crc.CrcAdd(mem[p].calculatedCrc, body);
      good := crc == mem[p].payloadCrc;
      stats := if good then CountReceived(stats) else CountError(stats);
      ClearTransfer(p, middle, crc, h, k, s.(blocks := 0), f);
    }

    /** The blocks go back to the pool, and the state waits for the next transfer. */
    method ClearTransfer(p: int, middle: int, crc: bv16, ghost h: Heap, ghost k: nat, ghost s: RxView, ghost f: nat)
      requires Around(h, p, k, s, f) && s.blocks == 0 && Chain(mem[..], middle, held)
      modifies this`freeList, this`usage, this`free, this`rx, this`held, mem
      ensures At(h, p, k, Prepared(s.(calculatedCrc := crc)), f + |old(held)|)
    {
      GiveBack(p, middle, h, k, s, f);
      ghost var blocks := |old(held)|;
      Clear(p, mem[p].(calculatedCrc := crc, transferId := NextTransferId(mem[p].transferId), payloadLen := 0,
                       nextToggle := false), h, k, s, f + blocks);
    }

    /** Assigning fields of a state that has no chain, with nothing stored afterwards. */
    method Clear(p: int, v: Block, ghost h: Heap, ghost k: nat, ghost s: RxView, ghost f: nat)
      requires Around(h, p, k, s, f) && held == [] && s.blocks == 0
      requires SamePointers(mem[p], v) && v.payloadLen == 0
      modifies this`rx, mem
      ensures At(h, p, k, ViewOf(v, [], 0), f)
    {
      ghost var mid := H();
      assert SlotShape(mem[..], rx[k]);
      UpdateState(p, v, k, []);
      SameThrough(h, mid, H(), k);
    }

    /** The blocks go back to the pool; the state does not notice. */
    method GiveBack(p: int, middle: int, ghost h: Heap, ghost k: nat, ghost s: RxView, ghost f: nat)
      requires Around(h, p, k, s, f) && Chain(mem[..], middle, held)
      modifies this`freeList, this`usage, this`free, this`held, mem
      ensures Around(h, p, k, s, f + |old(held)|) && held == []
    {
      ghost var mid := H();
      ReleasePayload(middle);
      SameWeaken(mid, H(), k);
      SameThrough(h, mid, H(), k);
      assert SameSlot(mid, k, H(), k);
    }

    /** The chain changes hands: the state forgets it. */
    method TakeChain(p: int, ghost h: Heap, ghost k: nat, ghost s: RxView, ghost f: nat)
      requires Around(h, p, k, s, f) && held == []
      modifies this`rx, this`held, mem
      ensures Around(h, p, k, s.(blocks := 0), f) && |held| == s.blocks && rx[k].chain == []
      ensures Chain(mem[..], old(mem[p]).buffers, held)
    {
      ghost var before := H();
      assert SlotShape(mem[..], rx[k]);
      StateApart(before, k);
      TakeBuffers(p, NULL, k, |rx[k].chain|);
      assert held == before.rx[k].chain;
      ChainFrame(before.mem, mem[..], before.mem[p].buffers, held);
      SameThrough(h, before, H(), k);
    }

    lemma ChainFits(k: nat)
      requires Linked() && k < |rx|
      ensures |rx[k].chain| <= MAX_BLOCKS
    {
      RxBlocksRemove(rx, k);
    }

    /** The end frame first completes the head or the last block; ok is the assertion made on the way. */
    method FinishPayload(p: int, body: seq<byte>, ghost h: Heap, ghost k: nat, ghost exact: bool)
      returns (offset: nat, ok: bool)
      requires Working(h, p, k) && rx[k].chain == h.rx[k].chain && |body| <= 7 && mem[p].payloadLen < 1024
      requires Keeps(k, rx[k].stored, exact)
      requires exact ==> mem[p].payloadLen == |rx[k].stored| && Layout(mem[p].payloadLen, |rx[k].chain|)
      modifies this`rx, mem
      ensures Working(h, p, k) && rx == old(rx) && offset <= |body|
      ensures ok <==> h.mem[p].payloadLen < HEAD_SIZE || h.rx[k].chain == []
                      || BlockStart(|h.rx[k].chain| - 1) <= h.mem[p].payloadLen < BlockStart(|h.rx[k].chain|)
      ensures Keeps(k, rx[k].stored + body[..offset], exact)
      ensures exact && offset < |body| ==> |rx[k].stored| + offset == BlockStart(|rx[k].chain|)
    {
      ok := true;
      assert SlotShape(mem[..], rx[k]);
      ChainFits(k);
      if mem[p].payloadLen < HEAD_SIZE {
        offset := FillHead(p, body, h, k, rx[k].stored, exact);
      } else {
        offset := 0;
        assert rx[k].stored + body[..0] == rx[k].stored;
        if mem[p].buffers != NULL {
          offset, ok := FinishLastBlock(p, body, h, k, exact);
        }
      }
    }

    method FinishLastBlock(p: int, body: seq<byte>, ghost h: Heap, ghost k: nat, ghost exact: bool)
      returns (offset: nat, ok: bool)
      requires Working(h, p, k) && rx[k].chain == h.rx[k].chain && |body| <= 7 && HEAD_SIZE <= mem[p].payloadLen < 1024
      requires mem[p].buffers != NULL && |rx[k].chain| <= MAX_BLOCKS && Keeps(k, rx[k].stored, exact)
      requires exact ==> mem[p].payloadLen == |rx[k].stored| && Layout(mem[p].payloadLen, |rx[k].chain|)
      modifies mem
      ensures Working(h, p, k) && offset <= |body|
      ensures ok == (BlockStart(|rx[k].chain| - 1) <= mem[p].payloadLen < BlockStart(|rx[k].chain|))
      ensures Keeps(k, rx[k].stored + body[..offset], exact)
      ensures exact && offset < |body| ==> |rx[k].stored| + offset == BlockStart(|rx[k].chain|)
    {
      var block, count := LastBlock(p, k);
      var within := Unsigned(mem[p].payloadLen - (HEAD_SIZE + 28 * (count - 1)));
      ok := within < BLOCK_SIZE;
      offset := 0;
      assert rx[k].stored + body[..0] == rx[k].stored;
      if within < BLOCK_SIZE {
        offset := FillBlock(p, block, within, body, 0, h, k, rx[k].stored, exact);
        assert body[0..offset] == body[..offset];
      }
    }

    static function MakeTransfer(frame: Frame, now: nat, head: seq<byte>, middle: seq<seq<byte>>, tail: seq<byte>,
                                 len: nat): RxTransfer
      requires frame.data != []
    {
      var id := frame.id.clean;
      RxTransfer(now, head, middle, tail, len, ExtractDataType(id), ExtractTransferType(id), TransferId(Tail(frame)),
                 CanId.Priority(id), CanId.Source(id), ExtractDestination(id))
    }

    /** The transfer the application sees is the delivery; its payload is, unless the length wrapped. */
    static ghost predicate Reports(t: RxTransfer, d: Delivery, exact: bool) {
      var same := && t.timestamp == d.timestamp && t.dataTypeId == d.dataTypeId && t.transferType == d.transferType
        && t.transferId == d.transferId && t.priority == d.priority && t.source == d.source && t.destination == d.destination;
      same && (exact ==> WellFormed(t) && Flat(t) == d.payload)
    }

    static ghost predicate Agrees(t: Option<RxTransfer>, d: Option<Delivery>, exact: bool) {
      if d.Some? then t.Some? && Reports(t.value, d.value, exact) else t.None?
    }

    method ReceiveEnd(p: int, frame: Frame, now: nat, ghost h: Heap, ghost k: nat, ghost s: RxView, ghost f: nat)
      returns (delivered: Option<RxTransfer>, ok: bool)
      requires At(h, p, k, s, f) && 1 <= |frame.data| <= 8
      modifies this`freeList, this`usage, this`free, this`rx, this`held, this`stats, mem
      ensures ok == EndAsserts(s)
      ensures var o := Finish(s, f, old(stats), frame, now);
              && At(h, p, k, o.state, o.free) && stats == o.stats
              && Agrees(delivered, o.delivery, |s.stored| < 1024)
    {
      var body := frame.data[..|frame.data| - 1];
      var t;
      t, ok := CollectPayload(p, frame, body, now, h, k, s, f);
      var good := CloseTransfer(p, body, h, k, s, f);
      delivered := if good then Some(t) else None;
    }

    method CollectPayload(p: int, frame: Frame, body: seq<byte>, now: nat, ghost h: Heap, ghost k: nat, ghost s: RxView,
                          ghost f: nat)
      returns (t: RxTransfer, ok: bool)
      requires At(h, p, k, s, f) && 1 <= |frame.data| <= 8 && body == Body(frame)
      modifies this`rx, mem
      ensures Around(h, p, k, s, f) && held == [] && ok == EndAsserts(s)
      ensures Reports(t, MakeDelivery(frame, now, s.stored + body), |s.stored| < 1024)
    {
      ghost var mid, exact := H(), |s.stored| < 1024;
      assert forall j | 0 <= j < |rx| :: SameSlot(mid, j, mid, j);
      var offset;
      offset, ok := FinishPayload(p, body, mid, k, exact);
      SameThrough(h, mid, H(), k);
      var middle := ReadChain(p, k);
      t := MakeTransfer(frame, now, mem[p].head, middle, body[offset..], mem[p].payloadLen + |body|);
      if exact {
        CollectedWhole(t, rx[k], body, offset);
      }
    }

    /** Head, chain and the rest of the end frame are the payload. */
    lemma CollectedWhole(t: RxTransfer, s: Slot, body: seq<byte>, offset: nat)
      requires SlotShape(mem[..], s) && t.head == mem[s.at].head && t.middle == ChainData(mem[..], s.chain)
      requires offset <= |body| && t.tail == body[offset..] && t.payloadLen == |s.stored| + |body|
      requires Holds(mem[..], s, s.stored + body[..offset]) && Layout(|s.stored|, |s.chain|)
      requires offset < |body| ==> |s.stored| + offset == BlockStart(|s.chain|)
      ensures WellFormed(t) && Flat(t) == s.stored + body
    {
      WholePayload(t, s.stored, body, offset);
    }

    // ---- One frame ----

    /** A transfer in one frame. */
    method ReceiveSingle(p: int, frame: Frame, now: nat, ghost h: Heap, ghost k: nat, ghost s: RxView, ghost f: nat)
      returns (delivered: Option<RxTransfer>)
      requires At(h, p, k, s, f) && s.blocks == 0 && 1 <= |frame.data| <= 8
      modifies this`rx, this`stats, mem
      ensures At(h, p, k, Prepared(s.(timestamp := now)), f) && stats == CountReceived(old(stats))
      ensures Agrees(delivered, Some(MakeDelivery(frame, now, Body(frame))), true)
    {
      assert SlotShape(mem[..], rx[k]);
      delivered := Some(MakeTransfer(frame, now, frame.data, [], [], |frame.data| - 1));
      stats := CountReceived(stats);
      assert mem[p].buffers == NULL;
      Assign(p, mem[p].(timestamp := now, transferId := NextTransferId(mem[p].transferId), payloadLen := 0, nextToggle := false),
             h, k, s, f, []);
    }

    /** The first frame of several: two checksum bytes, then payload. */
    method ReceiveStart(p: int, frame: Frame, now: nat, ghost h: Heap, ghost k: nat, ghost s: RxView, ghost f: nat)
      requires At(h, p, k, s, f) && 3 < |frame.data| <= 8
      modifies this`freeList, this`usage, this`peak, this`free, this`rx, this`held, this`stats, mem
      ensures var o := Store(s.(timestamp := now), f, old(stats), Body(frame)[2..]);
              var state := if HasRoom(s, f, Body(frame)[2..])
                           then o.state.(payloadCrc := (frame.data[0] as bv16) | ((frame.data[1] as bv16) << 8)) else o.state;
              At(h, p, k, state, o.free) && stats == o.stats
    {
      assert SlotShape(mem[..], rx[k]);
      Assign(p, mem[p].(timestamp := now), h, k, s, f, s.stored);
      ghost var timed, before := s.(timestamp := now), stats;
      var bytes := frame.data[2..|frame.data| - 1];
      assert bytes == Body(frame)[2..];
      var ok := StoreBytes(p, bytes, h, k, timed, f);
      if ok {
        ghost var o := Store(timed, f, before, bytes);
        var crc := (frame.data[0] as bv16) | ((frame.data[1] as bv16) << 8);
        Assign(p, mem[p].(payloadCrc := crc), h, k, o.state, o.free, o.state.stored);
      }
    }

    /** The 10-bit length did not wrap before the last frame. */
    static predicate Unwrapped(d: Option<Delivery>, frame: Frame)
      requires frame.data != []
    {
      d.Some? ==> |d.value.payload| < 1024 + |Body(frame)|
    }

    /** What the application sees of a frame. */
    static ghost predicate Sees(t: Option<RxTransfer>, d: Option<Delivery>, frame: Frame) {
      if d.None? then t == None else frame.data != [] && Agrees(t, d, Unwrapped(d, frame))
    }

    ghost predicate Becomes(h: Heap, p: int, k: nat, o: Outcome, frame: Frame, delivered: Option<RxTransfer>)
      requires frame.data != []
      reads this, mem
    {
      At(h, p, k, o.state, o.free) && stats == o.stats && Agrees(delivered, o.delivery, Unwrapped(o.delivery, frame))
    }

    /** The frames of a multi-frame transfer, once the restart check is done. */
    method ReceivePart(p: int, frame: Frame, now: nat, ghost h: Heap, ghost k: nat, ghost s: RxView, ghost f: nat)
      returns (delivered: Option<RxTransfer>, ok: bool)
      requires At(h, p, k, s, f) && 1 <= |frame.data| <= 8
      modifies this`freeList, this`usage, this`peak, this`free, this`rx, this`held, this`stats, mem
      ensures Becomes(h, p, k, Reassembly.ReceivePart(s, f, old(stats), frame, now), frame, delivered)
      ensures ok == PartAsserts(s, frame)
    {
      delivered, ok := None, true;
      var tail := frame.data[|frame.data| - 1];
      assert SlotShape(mem[..], rx[k]);
      if IsToggled(tail) != mem[p].nextToggle || TransferId(tail) != mem[p].transferId {
        stats := CountError(stats);
      } else if IsStart(tail) {
        if |frame.data| <= 3 {
          stats := CountError(stats);
        } else {
          ReceiveStart(p, frame, now, h, k, s, f);
        }
      } else if !IsEnd(tail) {
        var body := frame.data[..|frame.data| - 1];
        var _ := StoreBytes(p, body, h, k, s, f);
      } else {
        delivered, ok := ReceiveEnd(p, frame, now, h, k, s, f);
      }
    }

    /** The frame, once the restart check is done. */
    method ReceiveReady(p: int, frame: Frame, now: nat, ghost h: Heap, ghost k: nat, ghost s: RxView, ghost f: nat)
      returns (delivered: Option<RxTransfer>, ok: bool)
      requires At(h, p, k, s, f) && 1 <= |frame.data| <= 8 && (IsStart(Tail(frame)) ==> s.blocks == 0 || !IsEnd(Tail(frame)))
      modifies this`freeList, this`usage, this`peak, this`free, this`rx, this`held, this`stats, mem
      ensures Becomes(h, p, k, Reassembly.ReceiveReady(s, f, old(stats), frame, now), frame, delivered)
      ensures ok == ReadyAsserts(s, frame)
    {
      var tail := frame.data[|frame.data| - 1];
      if IsStart(tail) && IsEnd(tail) {
        ok := mem[p].buffers == NULL;
        delivered := ReceiveSingle(p, frame, now, h, k, s, f);
      } else {
        delivered, ok := ReceivePart(p, frame, now, h, k, s, f);
      }
    }

    /** The frame that would go on with a transfer whose first frame was missed. */
    method MissFrame(p: int, frame: Frame, ghost h: Heap, ghost k: nat, ghost s: RxView, ghost f: nat)
      requires At(h, p, k, s, f) && frame.data != []
      modifies this`rx, this`stats, mem
      ensures Becomes(h, p, k, Missed(s, f, old(stats)), frame, None)
    {
      assert SlotShape(mem[..], rx[k]);
      Assign(p, mem[p].(transferId := NextTransferId(mem[p].transferId)), h, k, s, f, s.stored);
      stats := CountError(stats);
    }

    /** The frame, given the state of its transfer; r is that state after the restart check, o the outcome. */
    method ReceiveAt(p: int, frame: Frame, now: nat, ghost h: Heap, ghost k: nat, ghost s: RxView, ghost f: nat,
                     ghost r: RxView, ghost o: Outcome)
      returns (delivered: Option<RxTransfer>, ok: bool)
      requires At(h, p, k, s, f) && 1 <= |frame.data| <= 8 && r == Restarted(s, Tail(frame), now)
      requires r.blocks <= s.blocks && (IsStart(Tail(frame)) ==> r.blocks == 0)
      requires o == AfterRestart(r, f + s.blocks - r.blocks, stats, frame, NeedsRestart(s, Tail(frame), now), now)
      modifies this`freeList, this`usage, this`peak, this`free, this`rx, this`held, this`stats, mem
      ensures Becomes(h, p, k, o, frame, delivered)
      ensures ok == ((NeedsRestart(s, Tail(frame), now) && !IsStart(Tail(frame))) || ReadyAsserts(r, frame))
    {
      ghost var freed := f + s.blocks - r.blocks;
      var restarted := Restart(p, frame.data[|frame.data| - 1], now, h, k, s, f);
      assert At(h, p, k, r, freed);
      delivered, ok := ReceiveRestarted(p, frame, restarted, h, k, r, freed, now, o);
    }

    method ReceiveRestarted(p: int, frame: Frame, restarted: bool, ghost h: Heap, ghost k: nat, ghost r: RxView,
                            ghost f: nat,
                            now: nat, ghost o: Outcome)
      returns (delivered: Option<RxTransfer>, ok: bool)
      requires At(h, p, k, r, f) && 1 <= |frame.data| <= 8 && (IsStart(Tail(frame)) ==> r.blocks == 0)
      requires o == AfterRestart(r, f, stats, frame, restarted, now)
      modifies this`freeList, this`usage, this`peak, this`free, this`rx, this`held, this`stats, mem
      ensures Becomes(h, p, k, o, frame, delivered)
      ensures ok == ((restarted && !IsStart(Tail(frame))) || ReadyAsserts(r, frame))
    {
      if restarted && !IsStart(frame.data[|frame.data| - 1]) {
        MissFrame(p, frame, h, k, r, f);
        delivered, ok := None, true;
      } else {
        delivered, ok := ReceiveReady(p, frame, now, h, k, r, f);
      }
    }

    lemma Elsewhere(h: Heap, p: int, k: nat, v: RxView, f: nat)
      requires WellLinked(h) && Contents(h) && DistinctDescriptors(Views(h)) && k < |h.rx|
      requires At(h, p, k, v, f) && v.descriptor == Views(h)[k].descriptor
      ensures Valid() && View() == Machine(f, Views(h)[k := v], stats)
    {
      ViewsBut(h, H(), k);
      forall j | 0 <= j < |rx| ensures SlotContent(mem[..], rx[j]) {
        if j != k {
          assert SameSlot(h, j, H(), j);
        }
      }
    }

    lemma NothingDone(p: int, k: nat)
      requires Valid() && k < |rx| && p == rx[k].at && 0 <= p < mem.Length && mem[p].RxState?
      ensures At(H(), p, k, Views(H())[k], |free|)
    {
      assert forall j | 0 <= j < |rx| :: SameSlot(H(), j, H(), j);
    }

    /** The part of canardHandleRxFrame after the state is found. */
    method ReceiveFrame(p: int, frame: Frame, now: nat, ghost k: nat) returns (delivered: Option<RxTransfer>, ok: bool)
      requires Valid() && k < |rx| && p == rx[k].at && 0 <= p < mem.Length && mem[p].RxState? && 1 <= |frame.data| <= 8
      modifies this`freeList, this`usage, this`peak, this`free, this`rx, this`held, this`stats, mem
      ensures Valid() && Queue() == old(Queue()) && View() == ApplyAt(old(View()), k, frame, now).0
      ensures ok == ReceiveAsserts(old(View()).states[k], frame, now)
      ensures var d := ApplyAt(old(View()), k, frame, now).1; Agrees(delivered, d, Unwrapped(d, frame))
    {
      ghost var h, s, f := H(), Views(H())[k], |free|;
      NothingDone(p, k);
      ghost var r := Restarted(s, Tail(frame), now);
      ghost var o := ApplyIs(View(), k, frame, now, r);
      delivered, ok := ReceiveAt(p, frame, now, h, k, s, f, r, o);
      Elsewhere(h, p, k, o.state, o.free);
    }

    /** The step on state k, by way of the state after the restart check. */
    lemma ApplyIs(m: Machine, k: nat, frame: Frame, now: nat, r: RxView) returns (o: Outcome)
      requires k < |m.states| && frame.data != [] && r == Restarted(m.states[k], Tail(frame), now)
      ensures r.blocks <= m.states[k].blocks && (IsStart(Tail(frame)) ==> r.blocks == 0)
      ensures o == AfterRestart(r, m.free + m.states[k].blocks - r.blocks, m.stats, frame,
                                NeedsRestart(m.states[k], Tail(frame), now), now)
      ensures o.state.descriptor == m.states[k].descriptor
      ensures ApplyAt(m, k, frame, now) == (Machine(o.free, m.states[k := o.state], o.stats), o.delivery)
      ensures ReceiveAsserts(m.states[k], frame, now)
           == ((NeedsRestart(m.states[k], Tail(frame), now) && !IsStart(Tail(frame))) || ReadyAsserts(r, frame))
    {
      StartsEmpty(m.states[k], Tail(frame), now);
      o := Receive(m.states[k], m.free, m.stats, frame, now);
    }

    method SeedChecksum(p: int, crc: bv16, ghost k: nat)
      requires Valid() && k < |rx| && p == rx[k].at && 0 <= p < mem.Length && mem[p].RxState?
      modifies this`rx, mem
      ensures Valid() && Queue() == old(Queue()) && k < |rx| && p == rx[k].at && mem[p].RxState?
      ensures View() == old(View()).(states := old(View()).states[k := old(View()).states[k].(calculatedCrc := crc)])
    {
      ghost var h, s, f := H(), Views(H())[k], |free|;
      NothingDone(p, k);
      assert SlotShape(mem[..], rx[k]);
      Assign(p, mem[p].(calculatedCrc := crc), h, k, s, f, s.stored);
      Elsewhere(h, p, k, s.(calculatedCrc := crc), f);
    }

    /** mid has the state with descriptor d at position k, found or new; seeding its checksum completes it. */
    lemma {:induction false} OpenedIs(m: Machine, d: nat, signature: bv64, mid: Machine, k: nat)
      requires Find(m.states, d) == |m.states| ==> m.free > 0
      requires if Find(m.states, d) < |m.states| then mid == m && k == Find(m.states, d)
               else k == 0 && mid == m.(free := m.free - 1, states := [Fresh(d)] + m.states)
      ensures k < |mid.states| && k == Find(Opened(m, d, signature).states, d)
      ensures Opened(m, d, signature)
           == mid.(states := mid.states[k := mid.states[k].(calculatedCrc := Crc.AddSignature(0xFFFF, signature))])
    {
      FindUnique(Opened(m, d, signature).states, d, k);
    }

    /** The state a start frame works on, its checksum seeded with the signature of the data type. */
    method OpenState(descriptor: nat, signature: bv64) returns (p: int, ghost k: nat)
      requires Valid()
      modifies this`freeList, this`usage, this`peak, this`rxStates, this`free, this`rx, this`held, mem
      ensures Valid() && Queue() == old(Queue())
      ensures p == NULL <==> Find(old(View()).states, descriptor) == |old(View()).states| && old(|free|) == 0
      ensures p == NULL ==> View() == old(View())
      ensures p != NULL ==>
                && View() == Opened(old(View()), descriptor, signature) && k == Find(View().states, descriptor)
                && k < |rx| && p == rx[k].at && 0 <= p < mem.Length && mem[p].RxState?
    {
      ghost var m := View();
      p, k := TraverseRxStates(descriptor);
      if p != NULL {
        OpenedIs(m, descriptor, signature, View(), k);
        var crc := Crc.CrcAddSignature(0xFFFF, signature);
        SeedChecksum(p, crc, k);
      }
    }

    /** The receiver takes exactly the step of the state machine. delivered is what the application's callback sees, ok
        tells whether the assertions of the source held. */
    ghost predicate Stepped(m: Machine, accept: Acceptor, frame: Frame, now: nat, delivered: Option<RxTransfer>, ok: bool)
      requires Valid()
      reads this, mem
    {
      && View() == Step(m, accept, frame, now).0 && ok == StepAsserts(m, frame, now)
      && Sees(delivered, Step(m, accept, frame, now).1, frame)
    }

    method HandleStart(accept: Acceptor, frame: Frame, now: nat) returns (delivered: Option<RxTransfer>, ok: bool)
      requires Valid() && |frame.data| <= 8 && Supported(frame) && IsStart(Tail(frame))
      modifies this`freeList, this`usage, this`peak, this`rxStates, this`free, this`rx, this`held, this`stats, mem
      ensures Valid() && Queue() == old(Queue()) && Stepped(old(View()), accept, frame, now, delivered, ok)
    {
      delivered, ok := None, true;
      var id := frame.id.clean;
      var wanted := accept(ExtractDataType(id), ExtractTransferType(id), CanId.Source(id), ExtractDestination(id));
      if wanted == None {
        return;
      }
      delivered, ok := HandleWanted(accept, frame, now, wanted.value);
    }

    /** What a wanted start frame makes of the receiver. */
    lemma {:induction false} StartIs(m: Machine, accept: Acceptor, frame: Frame, now: nat, signature: bv64)
      requires Supported(frame) && IsStart(Tail(frame)) && Wanted(accept, frame) == Some(signature)
      ensures var d := DescriptorOf(frame.id.clean);
              if Find(m.states, d) == |m.states| && m.free == 0 then
                Step(m, accept, frame, now) == (m.(stats := CountDropped(m.stats)), None) && StepAsserts(m, frame, now)
              else
                var o := Opened(m, d, signature);
                var k := Find(o.states, d);
                && k < |o.states| && Step(m, accept, frame, now) == ApplyAt(o, k, frame, now)
                && StepAsserts(m, frame, now) == ReceiveAsserts(o.states[k], frame, now)
    {
    }

    method HandleWanted(accept: Acceptor, frame: Frame, now: nat, signature: bv64)
      returns (delivered: Option<RxTransfer>, ok: bool)
      requires Valid() && |frame.data| <= 8 && Supported(frame) && IsStart(Tail(frame))
      requires Wanted(accept, frame) == Some(signature)
      modifies this`freeList, this`usage, this`peak, this`rxStates, this`free, this`rx, this`held, this`stats, mem
      ensures Valid() && Queue() == old(Queue()) && Stepped(old(View()), accept, frame, now, delivered, ok)
    {
      StartIs(View(), accept, frame, now, signature);
      var p;
      ghost var k;
      p, k := OpenState(DescriptorOf(frame.id.clean), signature);
      if p == NULL {
        delivered, ok := None, true;
        stats := CountDropped(stats);
      } else {
        delivered, ok := ReceiveFrame(p, frame, now, k);
      }
    }

    method HandleFollowing(accept: Acceptor, frame: Frame, now: nat) returns (delivered: Option<RxTransfer>, ok: bool)
      requires Valid() && |frame.data| <= 8 && Supported(frame) && !IsStart(Tail(frame))
      modifies this`freeList, this`usage, this`peak, this`rxStates, this`free, this`rx, this`held, this`stats, mem
      ensures Valid() && Queue() == old(Queue()) && Stepped(old(View()), accept, frame, now, delivered, ok)
    {
      delivered, ok := None, true;
      var p;
      ghost var k;
      p, k := FindRxState(DescriptorOf(frame.id.clean));
      if p == NULL {
        return;
      }
      delivered, ok := ReceiveFrame(p, frame, now, k);
    }

    /** canardHandleRxFrame. */
    method HandleRxFrame(accept: Acceptor, frame: Frame, now: nat) returns (delivered: Option<RxTransfer>, ok: bool)
      requires Valid() && |frame.data| <= 8
      modifies this`freeList, this`usage, this`peak, this`rxStates, this`free, this`rx, this`held, this`stats, mem
      ensures Valid() && Queue() == old(Queue()) && Stepped(old(View()), accept, frame, now, delivered, ok)
    {
      if !frame.id.extended || frame.id.remote || frame.id.error || |frame.data| < 1 {
        delivered, ok := None, true;
        stats := CountError(stats);
      } else if IsStart(frame.data[|frame.data| - 1]) {
        delivered, ok := HandleStart(accept, frame, now);
      } else {
        delivered, ok := HandleFollowing(accept, frame, now);
      }
    }

    // ---- Cleanup ----

    /** Unlinking a state that has no buffers; prev is the state before it, if there is one. */
    method Unlink(p: int, prev: int, ghost k: nat)
      requires Linked() && held == [] && k < |rx| && p == rx[k].at && 0 <= p < mem.Length && mem[p].RxState?
      requires rx[k].chain == [] && (k > 0 ==> prev == rx[k - 1].at)
      modifies this`rxStates, this`rx, this`held, mem
      ensures Linked() && held == [p] && rx == old(rx)[..k] + old(rx)[k + 1..] && SameTx(old(H()), H())
      ensures forall i {:trigger Before(k, i)} | 0 <= i < |rx| :: Before(k, i) < |old(rx)| && SameSlot(old(H()), Before(k, i), H(), i)
    {
      ghost var h := H();
      if k > 0 {
        assert SlotShape(h.mem, h.rx[k - 1]);
        StateApart(h, k);
        assert SlotAvoids(h.rx[0], p);
      }
      HeadIsFirst();
      RemoveOk(h, k);
      RxBlocksRemove(rx, k);
      if p == rxStates {
        rxStates := mem[rxStates].next;
      } else {
        mem[prev] := SetNext(mem[prev], mem[p].next);
      }
      rx, held := rx[..k] + rx[k + 1..], [p];
      assert H() == Remove(h, k);
    }

    lemma HeadIsFirst()
      requires Linked() && rx != []
      ensures rxStates == rx[0].at
    {
      ChainAt(mem[..], rxStates, Ats(rx), 0);
    }

    lemma ViewsRemoved(h: Heap, after: Heap, k: nat)
      requires WellLinked(h) && WellLinked(after) && k < |h.rx| && |after.rx| == |h.rx| - 1
      requires forall i {:trigger Before(k, i)} | 0 <= i < |after.rx| :: SameSlot(h, Before(k, i), after, i)
      ensures Views(after) == Views(h)[..k] + Views(h)[k + 1..]
      ensures (forall j | 0 <= j < |h.rx| && j != k :: SlotContent(h.mem, h.rx[j])) ==> Contents(after)
    {
      forall i | 0 <= i < |after.rx|
        ensures Views(after)[i] == (Views(h)[..k] + Views(h)[k + 1..])[i]
        ensures SlotContent(h.mem, h.rx[Before(k, i)]) ==> SlotContent(after.mem, after.rx[i])
      {
        assert SameSlot(h, Before(k, i), after, i);
      }
    }

    /** Emptying a state. */
    method EmptyState(p: int, ghost k: nat)
      requires Valid() && k < |rx| && p == rx[k].at && 0 <= p < mem.Length && mem[p].RxState?
      modifies this`freeList, this`usage, this`free, this`rx, this`held, mem
      ensures Linked() && held == [] && rx == old(rx)[k := Slot(p, [], [])] && mem[p].RxState?
      ensures |free| == old(|free|) + old(Views(H()))[k].blocks && SameTx(old(H()), H()) && Contents(H())
      ensures Views(H())[..k] == old(Views(H()))[..k] && Views(H())[k + 1..] == old(Views(H()))[k + 1..]
    {
      ghost var h := H();
      assert SlotShape(h.mem, h.rx[k]);
      ReleaseStatePayload(p, k);
      ghost var mid := H();
      ViewsBut(h, mid, k);
      forall j | 0 <= j < |mid.rx| ensures SlotContent(mid.mem, mid.rx[j]) {
        if j != k {
          assert SameSlot(h, j, mid, j);
        }
      }
    }

    /** Emptying a state and taking it off the list. */
    method TakeState(p: int, prev: int, ghost k: nat)
      requires Valid() && k < |rx| && p == rx[k].at && 0 <= p < mem.Length && mem[p].RxState?
      requires k > 0 ==> prev == rx[k - 1].at
      modifies this`freeList, this`usage, this`rxStates, this`free, this`rx, this`held, mem
      ensures Linked() && held == [p] && Contents(H()) && SameTx(old(H()), H())
      ensures |free| == old(|free|) + old(Views(H()))[k].blocks
      ensures Ats(rx) == Ats(old(rx))[..k] + Ats(old(rx))[k + 1..]
      ensures Views(H()) == old(Views(H()))[..k] + old(Views(H()))[k + 1..]
    {
      EmptyState(p, k);
      ghost var mid := H();
      Unlink(p, prev, k);
      ViewsRemoved(mid, H(), k);
    }

    /** A state goes, with all its blocks. */
    method RemoveState(p: int, prev: int, ghost k: nat)
      requires Valid() && k < |rx| && p == rx[k].at && 0 <= p < mem.Length && mem[p].RxState?
      requires k > 0 ==> prev == rx[k - 1].at
      modifies this`freeList, this`usage, this`rxStates, this`free, this`rx, this`held, mem
      ensures Valid() && Queue() == old(Queue())
      ensures Ats(rx) == Ats(old(rx))[..k] + Ats(old(rx))[k + 1..]
      ensures View().states == old(View()).states[..k] + old(View()).states[k + 1..]
      ensures |free| == old(|free|) + 1 + old(View()).states[k].blocks
    {
      ghost var vs := Views(H());
      TakeState(p, prev, k);
      WithoutDistinct(vs, k);
      FreeUnlinked(p);
    }

    method FreeUnlinked(p: int)
      requires Linked() && held == [p] && Contents(H())
      modifies this`freeList, this`usage, this`free, this`held, mem
      ensures Linked() && held == [] && |free| == old(|free|) + 1 && SameTx(old(H()), H())
      ensures Views(H()) == Views(old(H())) && Contents(H())
    {
      ghost var unlinked := H();
      FreeBlock(p);
      ViewsSame(unlinked, H());
    }

    lemma WithoutDistinct(vs: seq<RxView>, k: nat)
      requires DistinctDescriptors(vs) && k < |vs|
      ensures DistinctDescriptors(vs[..k] + vs[k + 1..])
    {
    }

    /** The two ways to remove a state and go on with the next one. */
    method RemoveAndAdvance(state: int, previous: int, ghost k: nat) returns (next: int, prev: int)
      requires Valid() && k < |rx| && state == rx[k].at && 0 <= state < mem.Length && mem[state].RxState?
      requires k > 0 ==> previous == rx[k - 1].at
      modifies this`freeList, this`usage, this`rxStates, this`free, this`rx, this`held, mem
      ensures Valid() && Queue() == old(Queue())
      ensures k <= |rx| && next == Link(Ats(rx), k) && (k > 0 ==> prev == rx[k - 1].at)
      ensures View().states == old(View()).states[..k] + old(View()).states[k + 1..]
      ensures |free| == old(|free|) + 1 + old(View()).states[k].blocks
    {
      ghost var before := H();
      HeadIsFirst();
      if k > 0 {
        StateApart(before, k);
        assert SlotAvoids(rx[0], state);
      }
      if state == rxStates {
        RemoveState(state, previous, k);
        next := rxStates;
        prev := next;
        if rx != [] {
          HeadIsFirst();
        }
      } else {
        RemoveState(state, previous, k);
        prev := previous;
        assert Ats(rx)[k - 1] == rx[k - 1].at;
        ChainAt(mem[..], rxStates, Ats(rx), k - 1);
        next := mem[prev].next;
      }
    }

    /** An incomplete transfer counts as dropped. */
    method RemoveStale(state: int, previous: int, now: nat, ghost m: Machine, ghost k: nat) returns (next: int, prev: int)
      requires Valid() && k < |rx| && state == rx[k].at && 0 <= state < mem.Length && mem[state].RxState?
      requires (k > 0 ==> previous == rx[k - 1].at) && Stale(View().states[k], now)
      requires CleanedSoFar(m, now, View().states, k, |free|, stats)
      modifies this`freeList, this`usage, this`rxStates, this`free, this`rx, this`held, this`stats, mem
      ensures Valid() && Queue() == old(Queue()) && CleanedSoFar(m, now, View().states, k, |free|, stats)
      ensures |rx| == |old(rx)| - 1 && next == Link(Ats(rx), k) && (k > 0 ==> prev == rx[k - 1].at)
    {
      ghost var vs, f, before := View().states, |free|, stats;
      assert vs[k] == SlotView(mem[..], rx[k]) && SlotShape(mem[..], rx[k]);
      CleanedRemove(m, now, vs, k, f, before);
      if mem[state].buffers != NULL {
        stats := CountDropped(stats);
      }
      next, prev := RemoveAndAdvance(state, previous, k);
    }

    /** One round: the state goes, or the walk moves past it. */
    method CleanOne(state: int, previous: int, now: nat, ghost m: Machine, ghost k: nat) returns (next: int, prev: int,
                    ghost i: nat)
      requires Valid() && state != NULL && state == Link(Ats(rx), k) && (k > 0 ==> previous == rx[k - 1].at)
      requires CleanedSoFar(m, now, View().states, k, |free|, stats)
      modifies this`freeList, this`usage, this`rxStates, this`free, this`rx, this`held, this`stats, mem
      ensures Valid() && Queue() == old(Queue()) && CleanedSoFar(m, now, View().states, i, |free|, stats)
      ensures |rx| - i < |old(rx)| - k && next == Link(Ats(rx), i) && (i > 0 ==> prev == rx[i - 1].at)
    {
      ChainAt(mem[..], rxStates, Ats(rx), k);
      assert View().states[k] == SlotView(mem[..], rx[k]) && SlotShape(mem[..], rx[k]);
      if Elapsed(now, mem[state].timestamp) > TIMEOUT_USEC {
        next, prev := RemoveStale(state, previous, now, m, k);
        i := k;
      } else {
        CleanedKeep(m, now, View().states, k, |free|, stats);
        prev := state;
        next := mem[state].next;
        i := k + 1;
      }
    }

    /** canardCleanupStaleTransfers. */
    method CleanupStaleTransfers(now: nat)
      requires Valid()
      modifies this`freeList, this`usage, this`rxStates, this`free, this`rx, this`held, this`stats, mem
      ensures Valid() && Queue() == old(Queue()) && View() == Cleaned(old(View()), now)
    {
      ghost var m, k := View(), 0;
      var prev, state := rxStates, rxStates;
      if rx != [] {
        HeadIsFirst();
      }
      assert m.states[0..] == m.states && [] + Survivors(m.states, now) == Survivors(m.states, now);
      while state != NULL
        invariant Valid() && Queue() == old(Queue()) && CleanedSoFar(m, now, View().states, k, |free|, stats)
        invariant state == Link(Ats(rx), k) && (k > 0 ==> prev == rx[k - 1].at)
        decreases |rx| - k
      {
        state, prev, k := CleanOne(state, prev, now, m, k);
      }
    }
  }
}
