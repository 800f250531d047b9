/** The elementary list operations on the block pool: each keeps every list linked and every block owned once. */
module HeapOps {
  import opened Bits
  import opened Frames
  import opened Transfer
  import opened Reassembly
  import opened Arena

  ghost predicate Avoids(l: seq<int>, x: int) {
    forall j | 0 <= j < |l| :: l[j] != x
  }

  ghost predicate SlotAvoids(s: Slot, x: int) {
    s.at != x && Avoids(s.chain, x)
  }

  lemma {:induction false} AvoidsByCount(l: seq<int>, x: int)
    requires Times(l, x) == 0
    ensures Avoids(l, x)
  {
    forall j | 0 <= j < |l| ensures l[j] != x {
      TimesAt(l, j);
    }
  }

  lemma {:induction false} SlotsAvoidByCount(rx: seq<Slot>, x: int)
    requires RxOwns(rx, x) == 0
    ensures forall k | 0 <= k < |rx| :: SlotAvoids(rx[k], x)
  {
    forall k | 0 <= k < |rx| ensures SlotAvoids(rx[k], x) {
      RxOwnsRemove(rx, k, x);
      AvoidsByCount(rx[k].chain, x);
    }
  }

  /** The front block in hand is a block of the pool that is on no list. */
  lemma HeldApart(h: Heap)
    requires OwnedOnce(h) && h.held != []
    ensures var x := h.held[0];
            && 0 <= x < |h.mem| && Avoids(h.free, x) && Avoids(h.tx, x) && Avoids(h.held[1..], x)
            && forall k | 0 <= k < |h.rx| :: SlotAvoids(h.rx[k], x)
  {
    var x := h.held[0];
    assert Owners(h, x) >= 1;
    AvoidsByCount(h.free, x);
    AvoidsByCount(h.tx, x);
    AvoidsByCount(h.held[1..], x);
    SlotsAvoidByCount(h.rx, x);
  }

  /** A block of the TX queue is nowhere else. */
  lemma TxApart(h: Heap, i: nat)
    requires OwnedOnce(h) && i < |h.tx|
    ensures var x := h.tx[i];
            && 0 <= x < |h.mem| && Avoids(h.free, x) && Avoids(h.held, x)
            && (forall j | 0 <= j < |h.tx| && j != i :: h.tx[j] != x)
            && forall k | 0 <= k < |h.rx| :: SlotAvoids(h.rx[k], x)
  {
    var x := h.tx[i];
    TimesAt(h.tx, i);
    assert Owners(h, x) == 1;
    AvoidsByCount(h.free, x);
    AvoidsByCount(h.held, x);
    SlotsAvoidByCount(h.rx, x);
    forall j | 0 <= j < |h.tx| && j != i ensures h.tx[j] != x {
      if h.tx[j] == x {
        if i < j { TimesTwice(h.tx, i, j); } else { TimesTwice(h.tx, j, i); }
      }
    }
  }

  /** A block of one slot is nowhere else. */
  lemma SlotApart(h: Heap, k: nat, x: int)
    requires OwnedOnce(h) && k < |h.rx| && SlotOwns(h.rx[k], x) >= 1
    ensures SlotOwns(h.rx[k], x) == 1
    ensures 0 <= x < |h.mem| && Avoids(h.free, x) && Avoids(h.tx, x) && Avoids(h.held, x)
    ensures forall j | 0 <= j < |h.rx| && j != k :: SlotAvoids(h.rx[j], x)
  {
    RxOwnsRemove(h.rx, k, x);
    assert Owners(h, x) == 1;
    AvoidsByCount(h.free, x);
    AvoidsByCount(h.tx, x);
    AvoidsByCount(h.held, x);
    forall j | 0 <= j < |h.rx| && j != k ensures SlotAvoids(h.rx[j], x) {
      RxOwnsTwo(h.rx, j, k, x);
      AvoidsByCount(h.rx[j].chain, x);
    }
  }

  lemma StateApart(h: Heap, k: nat)
    requires OwnedOnce(h) && k < |h.rx|
    ensures var x := h.rx[k].at;
            && 0 <= x < |h.mem| && Avoids(h.free, x) && Avoids(h.tx, x) && Avoids(h.held, x)
            && Avoids(h.rx[k].chain, x)
            && forall j | 0 <= j < |h.rx| && j != k :: SlotAvoids(h.rx[j], x)
  {
    SlotApart(h, k, h.rx[k].at);
    AvoidsByCount(h.rx[k].chain, h.rx[k].at);
  }

  lemma BufferApart(h: Heap, k: nat, i: nat)
    requires OwnedOnce(h) && k < |h.rx| && i < |h.rx[k].chain|
    ensures var x := h.rx[k].chain[i];
            && 0 <= x < |h.mem| && Avoids(h.free, x) && Avoids(h.tx, x) && Avoids(h.held, x) && h.rx[k].at != x
            && (forall j | 0 <= j < |h.rx[k].chain| && j != i :: h.rx[k].chain[j] != x)
            && forall j | 0 <= j < |h.rx| && j != k :: SlotAvoids(h.rx[j], x)
  {
    var chain, x := h.rx[k].chain, h.rx[k].chain[i];
    TimesAt(chain, i);
    SlotApart(h, k, x);
    forall j | 0 <= j < |chain| && j != i ensures chain[j] != x {
      if chain[j] == x {
        if i < j { TimesTwice(chain, i, j); } else { TimesTwice(chain, j, i); }
      }
    }
  }

  /** Slot j of one heap, slot i of the other: same blocks, same contents, same view. */
  ghost predicate SameSlot(h: Heap, j: nat, after: Heap, i: nat)
    requires j < |h.rx| && i < |after.rx|
  {
    && after.rx[i] == h.rx[j]
    && SlotShape(h.mem, h.rx[j]) && SlotShape(after.mem, h.rx[j])
    && (SlotContent(h.mem, h.rx[j]) ==> SlotContent(after.mem, h.rx[j]))
    && SlotView(after.mem, h.rx[j]) == SlotView(h.mem, h.rx[j])
    && SlotBytes(after.mem, h.rx[j]) == SlotBytes(h.mem, h.rx[j])
  }

  /** All slots but slot k are the same. */
  ghost predicate SameSlotsBut(h: Heap, after: Heap, k: int) {
    var same := |after.rx| == |h.rx| && forall j | 0 <= j < |h.rx| && j != k :: SameSlot(h, j, after, j);
    same
  }

  ghost predicate SameTx(h: Heap, after: Heap) {
    var same := && AllTx(h.mem, h.tx) && AllTx(after.mem, after.tx) && after.tx == h.tx
      && TxFrames(after.mem, after.tx) == TxFrames(h.mem, h.tx);
    same
  }

  lemma SameThrough(h: Heap, mid: Heap, after: Heap, k: int)
    requires SameSlotsBut(h, mid, k) && SameSlotsBut(mid, after, k)
    ensures SameSlotsBut(h, after, k)
  {
    forall j | 0 <= j < |h.rx| && j != k ensures SameSlot(h, j, after, j) {
      assert SameSlot(h, j, mid, j) && SameSlot(mid, j, after, j);
    }
  }

  lemma SameWeaken(h: Heap, after: Heap, k: int)
    requires SameSlotsBut(h, after, -1)
    ensures SameSlotsBut(h, after, k)
  {
    forall j | 0 <= j < |h.rx| && j != k ensures SameSlot(h, j, after, j) {
      assert j != -1;
    }
  }

  lemma SlotSurvives(h: Heap, after: Heap, j: nat, x: int, v: Block)
    requires j < |h.rx| && |after.rx| == |h.rx| && after.rx[j] == h.rx[j] && SlotShape(h.mem, h.rx[j])
    requires 0 <= x < |h.mem| && after.mem == h.mem[x := v] && SlotAvoids(h.rx[j], x)
    ensures SameSlot(h, j, after, j)
  {
    SlotFrame(h.mem, after.mem, h.rx[j]);
  }

  /** Writing a block that is on none of the lists. */
  lemma WriteHeld(h: Heap, v: Block)
    requires WellLinked(h) && h.held != []
    ensures 0 <= h.held[0] < |h.mem|
    ensures var after := h.(mem := h.mem[h.held[0] := v]);
            WellLinked(after) && SameSlotsBut(h, after, -1) && SameTx(h, after)
  {
    HeldApart(h);
    var x := h.held[0];
    var after := h.(mem := h.mem[x := v]);
    ChainFrame(h.mem, after.mem, h.freeHead, h.free);
    ChainFrame(h.mem, after.mem, h.txHead, h.tx);
    ChainFrame(h.mem, after.mem, h.rxHead, Ats(h.rx));
    forall k | 0 <= k < |h.rx| ensures SameSlot(h, k, after, k) && SlotShape(after.mem, after.rx[k]) {
      SlotSurvives(h, after, k, x, v);
    }
    forall y ensures Owners(after, y) == Owners(h, y) {}
    TxFramesFrame(h.mem, after.mem, h.tx);
  }

  ghost function Alloc(h: Heap): Heap
    requires h.free != [] && 0 <= h.freeHead < |h.mem|
  {
    h.(freeHead := h.mem[h.freeHead].next, free := h.free[1..], held := [h.free[0]] + h.held)
  }

  /** Taking the first free block. */
  lemma AllocOk(h: Heap)
    requires WellLinked(h) && h.free != []
    ensures h.freeHead == h.free[0] && 0 <= h.freeHead < |h.mem| && h.mem[h.freeHead].Free?
    ensures WellLinked(Alloc(h)) && SameSlotsBut(h, Alloc(h), -1) && SameTx(h, Alloc(h))
  {
    ChainAt(h.mem, h.freeHead, h.free, 0);
    var after := Alloc(h);
    assert forall j | 0 <= j < |after.free| :: after.free[j] == h.free[j + 1];
    forall x ensures Owners(after, x) == Owners(h, x) {
      assert ([h.free[0]] + h.held)[1..] == h.held;
    }
  }

  ghost function Release(h: Heap, data: BlockData): Heap
    requires h.held != [] && 0 <= h.held[0] < |h.mem|
  {
    h.(mem := h.mem[h.held[0] := Free(h.freeHead, data)], freeHead := h.held[0], free := [h.held[0]] + h.free,
       held := h.held[1..])
  }

  /** Putting the block in hand on the free list. */
  lemma ReleaseOk(h: Heap, data: BlockData)
    requires WellLinked(h) && h.held != []
    ensures 0 <= h.held[0] < |h.mem|
    ensures WellLinked(Release(h, data)) && SameSlotsBut(h, Release(h, data), -1) && SameTx(h, Release(h, data))
  {
    HeldApart(h);
    var x := h.held[0];
    WriteHeld(h, Free(h.freeHead, data));
    var mid, after := h.(mem := h.mem[x := Free(h.freeHead, data)]), Release(h, data);
    assert after.free[1..] == h.free;
    forall k | 0 <= k < |h.rx| ensures SameSlot(h, k, after, k) {
      assert SameSlot(h, k, mid, k);
    }
    forall y ensures Owners(after, y) == Owners(mid, y) {}
  }

  ghost function LinkTx(h: Heap, i: nat): Heap
    requires h.held != [] && 0 <= h.held[0] < |h.mem| && h.mem[h.held[0]].TxItem? && i <= |h.tx|
    requires i > 0 ==> 0 <= h.tx[i - 1] < |h.mem|
  {
    var x := h.held[0];
    var mem := if i == 0 then h.mem else h.mem[h.tx[i - 1] := SetNext(h.mem[h.tx[i - 1]], x)];
    h.(mem := mem[x := SetNext(mem[x], Link(h.tx, i))], txHead := if i == 0 then x else h.txHead,
       tx := h.tx[..i] + [x] + h.tx[i..], held := h.held[1..])
  }

  /** What the two writes change. */
  lemma LinkTxWrites(h: Heap, i: nat)
    requires h.held != [] && 0 <= h.held[0] < |h.mem| && h.mem[h.held[0]].TxItem? && i <= |h.tx|
    requires i > 0 ==> 0 <= h.tx[i - 1] < |h.mem| && h.tx[i - 1] != h.held[0]
    ensures var after := LinkTx(h, i);
            && |after.mem| == |h.mem| && after.mem[h.held[0]].next == Link(h.tx, i)
            && (i > 0 ==> after.mem[h.tx[i - 1]].next == h.held[0])
            && forall y | 0 <= y < |h.mem| && y != h.held[0] && (i > 0 ==> y != h.tx[i - 1]) :: after.mem[y] == h.mem[y]
  {
  }

  lemma LinkTxChains(h: Heap, i: nat)
    requires WellLinked(h) && h.held != [] && i <= |h.tx|
    requires 0 <= h.held[0] < |h.mem| && h.mem[h.held[0]].TxItem?
    requires i > 0 ==> 0 <= h.tx[i - 1] < |h.mem|
    ensures var after := LinkTx(h, i);
            && Chain(after.mem, after.txHead, after.tx) && Chain(after.mem, h.freeHead, h.free)
            && Chain(after.mem, h.rxHead, Ats(h.rx))
  {
    var x, after := h.held[0], LinkTx(h, i);
    var a, b := h.tx[..i], h.tx[i..];
    HeldApart(h);
    if i > 0 {
      TxApart(h, i - 1);
    }
    LinkTxWrites(h, i);
    assert h.tx == a + b;
    ChainInsert(h.mem, after.mem, h.txHead, a, x, b);
    ChainFrame(h.mem, after.mem, h.freeHead, h.free);
    ChainFrame(h.mem, after.mem, h.rxHead, Ats(h.rx));
  }

  lemma LinkTxOwners(h: Heap, i: nat, y: int)
    requires h.held != [] && 0 <= h.held[0] < |h.mem| && h.mem[h.held[0]].TxItem? && i <= |h.tx|
    requires i > 0 ==> 0 <= h.tx[i - 1] < |h.mem|
    ensures Owners(LinkTx(h, i), y) == Owners(h, y)
  {
    var x, l := h.held[0], LinkTx(h, i).tx;
    TimesSplit(l, i, y);
    assert l[..i] + l[i + 1..] == h.tx;
  }

  lemma LinkTxSlots(h: Heap, i: nat)
    requires WellLinked(h) && h.held != [] && i <= |h.tx|
    requires 0 <= h.held[0] < |h.mem| && h.mem[h.held[0]].TxItem?
    requires i > 0 ==> 0 <= h.tx[i - 1] < |h.mem|
    ensures SameSlotsBut(h, LinkTx(h, i), -1)
  {
    HeldApart(h);
    if i > 0 {
      TxApart(h, i - 1);
    }
    var after := LinkTx(h, i);
    forall k | 0 <= k < |h.rx| ensures SameSlot(h, k, after, k) {
      SlotFrame(h.mem, after.mem, h.rx[k]);
    }
  }

  lemma LinkTxShapes(h: Heap, i: nat)
    requires WellLinked(h) && h.held != [] && i <= |h.tx|
    requires 0 <= h.held[0] < |h.mem| && h.mem[h.held[0]].TxItem?
    requires i > 0 ==> 0 <= h.tx[i - 1] < |h.mem|
    ensures AllTx(h.mem, h.tx)
    ensures AllFree(LinkTx(h, i).mem, h.free) && AllTx(LinkTx(h, i).mem, LinkTx(h, i).tx)
  {
    HeldApart(h);
    if i > 0 {
      TxApart(h, i - 1);
    }
  }

  lemma LinkTxFrames(h: Heap, i: nat)
    requires WellLinked(h) && h.held != [] && i <= |h.tx|
    requires 0 <= h.held[0] < |h.mem| && h.mem[h.held[0]].TxItem?
    requires i > 0 ==> 0 <= h.tx[i - 1] < |h.mem|
    requires AllTx(LinkTx(h, i).mem, LinkTx(h, i).tx)
    ensures TxFrames(LinkTx(h, i).mem, LinkTx(h, i).tx)
         == TxFrames(h.mem, h.tx)[..i] + [h.mem[h.held[0]].frame] + TxFrames(h.mem, h.tx)[i..]
  {
    HeldApart(h);
    if i > 0 {
      TxApart(h, i - 1);
    }
  }

  /** Linking the block in hand into the TX queue before position i. */
  lemma LinkTxOk(h: Heap, i: nat)
    requires WellLinked(h) && h.held != [] && i <= |h.tx|
    requires 0 <= h.held[0] < |h.mem| && h.mem[h.held[0]].TxItem?
    requires i > 0 ==> 0 <= h.tx[i - 1] < |h.mem|
    ensures WellLinked(LinkTx(h, i)) && SameSlotsBut(h, LinkTx(h, i), -1)
    ensures AllTx(h.mem, h.tx) && AllTx(LinkTx(h, i).mem, LinkTx(h, i).tx)
    ensures TxFrames(LinkTx(h, i).mem, LinkTx(h, i).tx)
         == TxFrames(h.mem, h.tx)[..i] + [h.mem[h.held[0]].frame] + TxFrames(h.mem, h.tx)[i..]
  {
    var after := LinkTx(h, i);
    LinkTxChains(h, i);
    LinkTxShapes(h, i);
    LinkTxFrames(h, i);
    LinkTxSlots(h, i);
    forall k | 0 <= k < |after.rx| ensures SlotShape(after.mem, after.rx[k]) {
      assert SameSlot(h, k, after, k);
    }
    forall y ensures Owners(after, y) == if 0 <= y < |after.mem| then 1 else 0 {
      LinkTxOwners(h, i, y);
    }
  }

  ghost function UnlinkTx(h: Heap): Heap
    requires h.tx != [] && 0 <= h.txHead < |h.mem|
  {
    h.(txHead := h.mem[h.txHead].next, tx := h.tx[1..], held := [h.tx[0]] + h.held)
  }

  /** Taking the first block off the TX queue. */
  lemma UnlinkTxOk(h: Heap)
    requires WellLinked(h) && h.tx != []
    ensures h.txHead == h.tx[0] && 0 <= h.txHead < |h.mem| && h.mem[h.txHead].TxItem?
    ensures WellLinked(UnlinkTx(h)) && SameSlotsBut(h, UnlinkTx(h), -1)
    ensures AllTx(h.mem, h.tx) && AllTx(UnlinkTx(h).mem, UnlinkTx(h).tx)
    ensures TxFrames(UnlinkTx(h).mem, UnlinkTx(h).tx) == TxFrames(h.mem, h.tx)[1..]
    ensures TxFrames(h.mem, h.tx)[0] == h.mem[h.txHead].frame
  {
    ChainAt(h.mem, h.txHead, h.tx, 0);
    var after := UnlinkTx(h);
    assert forall j | 0 <= j < |after.tx| :: after.tx[j] == h.tx[j + 1];
    forall x ensures Owners(after, x) == Owners(h, x) {
      assert ([h.tx[0]] + h.held)[1..] == h.held;
    }
  }
}
