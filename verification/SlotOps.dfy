/** The elementary operations on reassembly states and their buffer chains. */
module SlotOps {
  import opened Bits
  import opened Frames
  import opened Transfer
  import opened Reassembly
  import opened Arena
  import opened HeapOps

  // ---- Writing a state without touching its pointers ----

  ghost predicate SamePointers(a: Block, b: Block) {
    a.RxState? && b.RxState? && a.next == b.next && a.buffers == b.buffers
  }

  ghost function WriteState(h: Heap, k: nat, v: Block, stored: seq<byte>): Heap
    requires k < |h.rx| && 0 <= h.rx[k].at < |h.mem|
  {
    h.(mem := h.mem[h.rx[k].at := v], rx := h.rx[k := h.rx[k].(stored := stored)])
  }

  lemma AtsUpdate(rx: seq<Slot>, k: nat, s: Slot)
    requires k < |rx| && s.at == rx[k].at
    ensures Ats(rx[k := s]) == Ats(rx)
  {
  }

  lemma WriteStateOk(h: Heap, k: nat, v: Block, stored: seq<byte>)
    requires WellLinked(h) && k < |h.rx|
    requires 0 <= h.rx[k].at < |h.mem| && SamePointers(h.mem[h.rx[k].at], v)
    ensures WellLinked(WriteState(h, k, v, stored)) && SameSlotsBut(h, WriteState(h, k, v, stored), k)
    ensures SameTx(h, WriteState(h, k, v, stored))
    ensures SlotShape(h.mem, h.rx[k]) && SlotShape(WriteState(h, k, v, stored).mem, WriteState(h, k, v, stored).rx[k])
    ensures SlotBytes(WriteState(h, k, v, stored).mem, WriteState(h, k, v, stored).rx[k])
         == v.head + SlotBytes(h.mem, h.rx[k])[HEAD_SIZE..]
  {
    StateApart(h, k);
    var x, s, after := h.rx[k].at, h.rx[k], WriteState(h, k, v, stored);
    ChainFrame(h.mem, after.mem, h.freeHead, h.free);
    ChainFrame(h.mem, after.mem, h.txHead, h.tx);
    AtsUpdate(h.rx, k, after.rx[k]);
    ChainFrame(h.mem, after.mem, h.rxHead, Ats(h.rx));
    ChainFrame(h.mem, after.mem, v.buffers, s.chain);
    assert ChainData(after.mem, s.chain) == ChainData(h.mem, s.chain);
    forall j | 0 <= j < |h.rx| && j != k ensures SameSlot(h, j, after, j) && SlotShape(after.mem, after.rx[j]) {
      SlotSurvives(h, after, j, x, v);
    }
    TxFramesFrame(h.mem, after.mem, h.tx);
    forall y ensures Owners(after, y) == Owners(h, y) {
      RxOwnsUpdate(h.rx, k, after.rx[k], y);
    }
  }

  // ---- Writing the data of a chained block ----

  ghost function WriteBuffer(h: Heap, k: nat, i: nat, data: BlockData): Heap
    requires k < |h.rx| && i < |h.rx[k].chain| && 0 <= h.rx[k].chain[i] < |h.mem| && h.mem[h.rx[k].chain[i]].Buffer?
  {
    var x := h.rx[k].chain[i];
    h.(mem := h.mem[x := Buffer(h.mem[x].next, data)])
  }

  lemma WriteBufferOk(h: Heap, k: nat, i: nat, data: BlockData)
    requires WellLinked(h) && k < |h.rx| && i < |h.rx[k].chain|
    requires 0 <= h.rx[k].chain[i] < |h.mem| && h.mem[h.rx[k].chain[i]].Buffer?
    ensures WellLinked(WriteBuffer(h, k, i, data)) && SameSlotsBut(h, WriteBuffer(h, k, i, data), k)
    ensures SameTx(h, WriteBuffer(h, k, i, data))
    ensures SlotShape(h.mem, h.rx[k]) && SlotShape(WriteBuffer(h, k, i, data).mem, h.rx[k])
    ensures WriteBuffer(h, k, i, data).mem[h.rx[k].at] == h.mem[h.rx[k].at]
    ensures ChainData(WriteBuffer(h, k, i, data).mem, h.rx[k].chain) == ChainData(h.mem, h.rx[k].chain)[i := data]
  {
    BufferApart(h, k, i);
    var x, s, after := h.rx[k].chain[i], h.rx[k], WriteBuffer(h, k, i, data);
    ChainFrame(h.mem, after.mem, h.freeHead, h.free);
    ChainFrame(h.mem, after.mem, h.txHead, h.tx);
    ChainFrame(h.mem, after.mem, h.rxHead, Ats(h.rx));
    ChainFrame(h.mem, after.mem, h.mem[s.at].buffers, s.chain);
    forall j | 0 <= j < |h.rx| && j != k ensures SameSlot(h, j, after, j) && SlotShape(after.mem, after.rx[j]) {
      SlotSurvives(h, after, j, x, after.mem[x]);
    }
    TxFramesFrame(h.mem, after.mem, h.tx);
    forall y ensures Owners(after, y) == Owners(h, y) {}
  }

  // ---- Attaching the block in hand to a chain ----

  ghost predicate FreshBuffer(h: Heap) {
    && h.held != [] && 0 <= h.held[0] < |h.mem| && h.mem[h.held[0]].Buffer?
    && h.mem[h.held[0]].next == NULL
  }

  ghost function Attach(h: Heap, k: nat): Heap
    requires k < |h.rx| && SlotShape(h.mem, h.rx[k]) && FreshBuffer(h)
  {
    var x, s := h.held[0], h.rx[k];
    var n := |s.chain|;
    var mem := if n == 0 then h.mem[s.at := h.mem[s.at].(buffers := x)]
               else h.mem[s.chain[n - 1] := SetNext(h.mem[s.chain[n - 1]], x)];
    h.(mem := mem, rx := h.rx[k := s.(chain := s.chain + [x])], held := h.held[1..])
  }

  lemma AttachChain(h: Heap, k: nat)
    requires WellLinked(h) && k < |h.rx| && SlotShape(h.mem, h.rx[k]) && FreshBuffer(h)
    ensures var after, s := Attach(h, k), h.rx[k];
            && SlotShape(after.mem, after.rx[k])
            && ChainData(after.mem, after.rx[k].chain) == ChainData(h.mem, s.chain) + [h.mem[h.held[0]].data]
            && after.mem[s.at] == (if s.chain == [] then h.mem[s.at].(buffers := h.held[0]) else h.mem[s.at])
  {
    var x, s, after := h.held[0], h.rx[k], Attach(h, k);
    HeldApart(h);
    assert s.chain + [] == s.chain;
    assert s.chain + [x] + [] == s.chain + [x];
    if s.chain == [] {
      StateApart(h, k);
      assert [x][1..] == [];
    } else {
      BufferApart(h, k, |s.chain| - 1);
      ChainInsert(h.mem, after.mem, h.mem[s.at].buffers, s.chain, x, []);
    }
  }

  lemma AttachOwners(h: Heap, k: nat, y: int)
    requires k < |h.rx| && SlotShape(h.mem, h.rx[k]) && FreshBuffer(h)
    ensures Owners(Attach(h, k), y) == Owners(h, y)
  {
    var x, s := h.held[0], h.rx[k];
    RxOwnsUpdate(h.rx, k, s.(chain := s.chain + [x]), y);
    TimesConcat(s.chain, [x], y);
    assert Times([x], y) == if x == y then 1 else 0;
  }

  lemma AttachOk(h: Heap, k: nat)
    requires WellLinked(h) && k < |h.rx| && SlotShape(h.mem, h.rx[k]) && FreshBuffer(h)
    ensures WellLinked(Attach(h, k)) && SameSlotsBut(h, Attach(h, k), k) && SameTx(h, Attach(h, k))
  {
    var s, after := h.rx[k], Attach(h, k);
    var n := |s.chain|;
    var x := if n == 0 then s.at else s.chain[n - 1];
    if n == 0 {
      StateApart(h, k);
    } else {
      BufferApart(h, k, n - 1);
    }
    AttachChain(h, k);
    ChainFrame(h.mem, after.mem, h.freeHead, h.free);
    ChainFrame(h.mem, after.mem, h.txHead, h.tx);
    AtsUpdate(h.rx, k, after.rx[k]);
    ChainFrame(h.mem, after.mem, h.rxHead, Ats(h.rx));
    forall j | 0 <= j < |h.rx| && j != k ensures SameSlot(h, j, after, j) && SlotShape(after.mem, after.rx[j]) {
      SlotSurvives(h, after, j, x, after.mem[x]);
    }
    TxFramesFrame(h.mem, after.mem, h.tx);
    forall y ensures Owners(after, y) == if 0 <= y < |after.mem| then 1 else 0 {
      AttachOwners(h, k, y);
    }
  }

  // ---- Taking the chain of a state in hand ----

  ghost function Detach(h: Heap, k: nat, n: nat): Heap
    requires k < |h.rx| && SlotShape(h.mem, h.rx[k]) && n <= |h.rx[k].chain|
  {
    var s := h.rx[k];
    h.(mem := h.mem[s.at := h.mem[s.at].(buffers := Link(s.chain, n))],
       rx := h.rx[k := s.(chain := s.chain[n..])], held := s.chain[..n] + h.held)
  }

  lemma DetachOwners(h: Heap, k: nat, n: nat, y: int)
    requires k < |h.rx| && SlotShape(h.mem, h.rx[k]) && n <= |h.rx[k].chain|
    ensures Owners(Detach(h, k, n), y) == Owners(h, y)
  {
    var s := h.rx[k];
    RxOwnsUpdate(h.rx, k, s.(chain := s.chain[n..]), y);
    TimesConcat(s.chain[..n], s.chain[n..], y);
    assert s.chain[..n] + s.chain[n..] == s.chain;
    TimesConcat(s.chain[..n], h.held, y);
  }

  lemma ChainSuffix(mem: seq<Block>, p: int, l: seq<int>, n: nat)
    requires Chain(mem, p, l) && n <= |l|
    ensures Chain(mem, Link(l, n), l[n..])
  {
    assert l[..n] + l[n..] == l;
    PathConcat(mem, p, l[..n], l[n..], NULL);
  }

  lemma DetachSlot(h: Heap, k: nat, n: nat)
    requires WellLinked(h) && k < |h.rx| && SlotShape(h.mem, h.rx[k]) && n <= |h.rx[k].chain|
    ensures SlotShape(Detach(h, k, n).mem, Detach(h, k, n).rx[k])
  {
    var s, after := h.rx[k], Detach(h, k, n);
    StateApart(h, k);
    ChainSuffix(h.mem, h.mem[s.at].buffers, s.chain, n);
    ChainFrame(h.mem, after.mem, Link(s.chain, n), s.chain[n..]);
  }

  /** Moving the first n blocks of a chain into the hand. */
  lemma DetachOk(h: Heap, k: nat, n: nat)
    requires WellLinked(h) && k < |h.rx| && SlotShape(h.mem, h.rx[k]) && n <= |h.rx[k].chain|
    ensures WellLinked(Detach(h, k, n)) && SameSlotsBut(h, Detach(h, k, n), k) && SameTx(h, Detach(h, k, n))
  {
    var s, after := h.rx[k], Detach(h, k, n);
    StateApart(h, k);
    DetachSlot(h, k, n);
    ChainFrame(h.mem, after.mem, h.freeHead, h.free);
    ChainFrame(h.mem, after.mem, h.txHead, h.tx);
    AtsUpdate(h.rx, k, after.rx[k]);
    ChainFrame(h.mem, after.mem, h.rxHead, Ats(h.rx));
    forall j | 0 <= j < |h.rx| && j != k ensures SameSlot(h, j, after, j) && SlotShape(after.mem, after.rx[j]) {
      SlotSurvives(h, after, j, s.at, after.mem[s.at]);
    }
    TxFramesFrame(h.mem, after.mem, h.tx);
    forall y ensures Owners(after, y) == if 0 <= y < |after.mem| then 1 else 0 {
      DetachOwners(h, k, n, y);
    }
  }

  // ---- Adding and removing states ----

  /** Position i of a list without its element k, counted in the whole list. */
  function Before(k: nat, i: nat): nat {
    if i < k then i else i + 1
  }

  ghost predicate FreshState(h: Heap) {
    && h.held != [] && 0 <= h.held[0] < |h.mem| && h.mem[h.held[0]].RxState?
    && h.mem[h.held[0]].next == h.rxHead && h.mem[h.held[0]].buffers == NULL
  }

  ghost function Prepend(h: Heap): Heap
    requires FreshState(h)
  {
    h.(rxHead := h.held[0], rx := [Slot(h.held[0], [], [])] + h.rx, held := h.held[1..])
  }

  /** Linking the state in hand at the front of the list. */
  lemma PrependOk(h: Heap)
    requires WellLinked(h) && FreshState(h)
    ensures WellLinked(Prepend(h)) && SameTx(h, Prepend(h))
    ensures forall j {:trigger Before(0, j)} | 0 <= j < |h.rx| :: SameSlot(h, j, Prepend(h), Before(0, j))
    ensures SlotShape(Prepend(h).mem, Prepend(h).rx[0])
  {
    var x, after := h.held[0], Prepend(h);
    assert Ats(after.rx)[1..] == Ats(h.rx);
    assert after.rx[1..] == h.rx;
    forall j {:trigger Before(0, j)} | 0 <= j < |h.rx| ensures SameSlot(h, j, after, Before(0, j)) {
      assert after.rx[j + 1] == h.rx[j];
    }
    forall k | 0 <= k < |after.rx| ensures SlotShape(after.mem, after.rx[k]) {
      if k > 0 {
        assert after.rx[k] == h.rx[k - 1];
      }
    }
    forall y ensures Owners(after, y) == Owners(h, y) {}
  }

  ghost function Remove(h: Heap, k: nat): Heap
    requires k < |h.rx| && 0 <= h.rx[k].at < |h.mem|
    requires k > 0 ==> 0 <= h.rx[k - 1].at < |h.mem| && h.mem[h.rx[k - 1].at].RxState?
  {
    var next := h.mem[h.rx[k].at].next;
    h.(mem := if k == 0 then h.mem else h.mem[h.rx[k - 1].at := SetNext(h.mem[h.rx[k - 1].at], next)],
       rxHead := if k == 0 then next else h.rxHead,
       rx := h.rx[..k] + h.rx[k + 1..], held := [h.rx[k].at] + h.held)
  }

  lemma AtsSplit(rx: seq<Slot>, k: nat)
    requires k < |rx|
    ensures Ats(rx) == Ats(rx[..k]) + [rx[k].at] + Ats(rx[k + 1..])
    ensures Ats(rx[..k] + rx[k + 1..]) == Ats(rx[..k]) + Ats(rx[k + 1..])
  {
  }

  lemma RemoveChain(h: Heap, k: nat)
    requires WellLinked(h) && k < |h.rx| && 0 <= h.rx[k].at < |h.mem|
    requires k > 0 ==> 0 <= h.rx[k - 1].at < |h.mem| && h.mem[h.rx[k - 1].at].RxState?
    ensures Chain(Remove(h, k).mem, Remove(h, k).rxHead, Ats(Remove(h, k).rx))
  {
    var after := Remove(h, k);
    var a, x, b := Ats(h.rx[..k]), h.rx[k].at, Ats(h.rx[k + 1..]);
    AtsSplit(h.rx, k);
    ChainMiddle(h.mem, h.rxHead, a, x, b);
    if k > 0 {
      StateApart(h, k - 1);
      forall j | 0 <= j < |a| - 1 ensures a[j] != h.rx[k - 1].at {
        assert a[j] == h.rx[j].at && SlotAvoids(h.rx[j], h.rx[k - 1].at);
      }
      forall j | 0 <= j < |b| ensures b[j] != h.rx[k - 1].at {
        assert b[j] == h.rx[k + 1 + j].at && SlotAvoids(h.rx[k + 1 + j], h.rx[k - 1].at);
      }
    }
    ChainRemove(h.mem, after.mem, h.rxHead, a, x, b);
  }

  lemma ChainMiddle(mem: seq<Block>, p: int, a: seq<int>, x: int, b: seq<int>)
    requires Chain(mem, p, a + [x] + b)
    ensures 0 <= x < |mem| && mem[x].next == First(b, NULL) && (a == [] ==> p == x)
  {
    assert a + [x] + b == a + ([x] + b);
    PathConcat(mem, p, a, [x] + b, NULL);
    assert ([x] + b)[1..] == b;
    assert Path(mem, mem[x].next, b, NULL);
  }

  lemma RemoveKeepsSlot(h: Heap, k: nat, s: Slot)
    requires WellLinked(h) && 0 < k < |h.rx| && 0 <= h.rx[k].at < |h.mem|
    requires 0 <= h.rx[k - 1].at < |h.mem| && h.mem[h.rx[k - 1].at].RxState?
    requires SlotShape(h.mem, s) && Avoids(s.chain, h.rx[k - 1].at)
    ensures var after := Remove(h, k).mem;
            && SlotShape(after, s) && SlotBytes(after, s) == SlotBytes(h.mem, s) && SlotView(after, s) == SlotView(h.mem, s)
            && (SlotContent(h.mem, s) ==> SlotContent(after, s))
  {
    var after := Remove(h, k).mem;
    ChainFrame(h.mem, after, h.mem[s.at].buffers, s.chain);
    assert ChainData(after, s.chain) == ChainData(h.mem, s.chain);
  }

  lemma RemovedElsewhere(h: Heap, k: nat, i: nat)
    requires WellLinked(h) && k < |h.rx| && i < |h.rx| - 1 && 0 <= h.rx[k].at < |h.mem|
    requires k > 0 ==> 0 <= h.rx[k - 1].at < |h.mem| && h.mem[h.rx[k - 1].at].RxState?
    ensures SameSlot(h, Before(k, i), Remove(h, k), i)
  {
    var s := h.rx[Before(k, i)];
    assert Remove(h, k).rx[i] == s && SlotShape(h.mem, s);
    if k > 0 {
      StateApart(h, k - 1);
      assert Avoids(s.chain, h.rx[k - 1].at) by {
        if i != k - 1 {
          assert SlotAvoids(s, h.rx[k - 1].at);
        }
      }
      RemoveKeepsSlot(h, k, s);
    }
  }

  lemma RemoveRest(h: Heap, k: nat)
    requires WellLinked(h) && k < |h.rx| && 0 <= h.rx[k].at < |h.mem|
    requires k > 0 ==> 0 <= h.rx[k - 1].at < |h.mem| && h.mem[h.rx[k - 1].at].RxState?
    ensures Chain(Remove(h, k).mem, h.freeHead, h.free) && AllFree(Remove(h, k).mem, h.free)
    ensures Chain(Remove(h, k).mem, h.txHead, h.tx) && SameTx(h, Remove(h, k))
  {
    if k > 0 {
      var after := Remove(h, k);
      StateApart(h, k - 1);
      ChainFrame(h.mem, after.mem, h.freeHead, h.free);
      ChainFrame(h.mem, after.mem, h.txHead, h.tx);
      TxFramesFrame(h.mem, after.mem, h.tx);
    }
  }

  /** Unlinking a state that has no buffers. */
  lemma RemoveOk(h: Heap, k: nat)
    requires WellLinked(h) && k < |h.rx| && h.rx[k].chain == [] && 0 <= h.rx[k].at < |h.mem|
    requires k > 0 ==> 0 <= h.rx[k - 1].at < |h.mem| && h.mem[h.rx[k - 1].at].RxState?
    ensures WellLinked(Remove(h, k)) && SameTx(h, Remove(h, k))
    ensures forall i {:trigger Before(k, i)} | 0 <= i < |h.rx| - 1 :: SameSlot(h, Before(k, i), Remove(h, k), i)
  {
    var after := Remove(h, k);
    RemoveChain(h, k);
    RemoveRest(h, k);
    forall i {:trigger Before(k, i)} | 0 <= i < |h.rx| - 1 ensures SameSlot(h, Before(k, i), after, i) {
      RemovedElsewhere(h, k, i);
    }
    forall i | 0 <= i < |after.rx| ensures SlotShape(after.mem, after.rx[i]) {
      assert SameSlot(h, Before(k, i), after, i);
    }
    forall y ensures Owners(after, y) == Owners(h, y) {
      RxOwnsRemove(h.rx, k, y);
    }
  }
}
