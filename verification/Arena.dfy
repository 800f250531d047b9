/** The block pool as a heap of tagged blocks linked by index, and what each list operation keeps. */
module Arena {
  import opened Bits
  import opened Frames
  import opened Transfer
  import opened Reassembly
  import opened ReassemblySafety

  const NULL := -1

  type BlockData = d: seq<byte> | |d| == 28 witness Blank(28)
  type HeadData = d: seq<byte> | |d| == 6 witness Blank(6)

  function Blank(n: nat): (d: seq<byte>)
    ensures |d| == n
  {
    seq(n, _ => 0)
  }

  /** One pool block, by its current use. A pointer is the index of a block, or NULL. */
  datatype Block =
    | Free(next: int, data: BlockData)
    | TxItem(next: int, frame: Frame)
    | RxState(next: int, buffers: int, timestamp: nat, descriptor: nat, calculatedCrc: bv16, payloadLen: nat,
              transferId: byte, nextToggle: bool, payloadCrc: bv16, head: HeadData)
    | Buffer(next: int, data: BlockData)

  /** Writing the link of a block. */
  function SetNext(b: Block, next: int): (r: Block)
    ensures r.next == next && (b.Free? <==> r.Free?) && (b.TxItem? <==> r.TxItem?)
    ensures (b.RxState? <==> r.RxState?) && (b.Buffer? <==> r.Buffer?)
  {
    match b
    case Free(_, data) => Free(next, data)
    case TxItem(_, frame) => TxItem(next, frame)
    case RxState(_, buffers, timestamp, descriptor, calculated, len, id, toggle, crc, head) =>
      RxState(next, buffers, timestamp, descriptor, calculated, len, id, toggle, crc, head)
    case Buffer(_, data) => Buffer(next, data)
  }

  /** A reassembly state in the list: its block, its buffer chain, and every byte taken since the last reset. */
  datatype Slot = Slot(at: int, chain: seq<int>, stored: seq<byte>)

  /** The heap: memory, the three list heads, and which blocks are on which list. `held` blocks are allocated
      but on no list yet. */
  datatype Heap = Heap(mem: seq<Block>, freeHead: int, txHead: int, rxHead: int,
                       free: seq<int>, tx: seq<int>, rx: seq<Slot>, held: seq<int>)

  // ---- Chains ----

  /** Following next from p visits exactly the blocks of l, in order, and arrives at q. */
  ghost predicate Path(mem: seq<Block>, p: int, l: seq<int>, q: int)
    decreases |l|
  {
    if l == [] then p == q
    else p == l[0] && 0 <= p < |mem| && Path(mem, mem[p].next, l[1..], q)
  }

  ghost predicate Chain(mem: seq<Block>, p: int, l: seq<int>) {
    Path(mem, p, l, NULL)
  }

  function First(l: seq<int>, q: int): int {
    if l == [] then q else l[0]
  }

  /** The first n blocks of l have the same successor in both memories. */
  ghost predicate SameNext(mem: seq<Block>, after: seq<Block>, l: seq<int>, n: nat) {
    |after| == |mem| && forall j | 0 <= j < n && j < |l| && 0 <= l[j] < |mem| :: after[l[j]].next == mem[l[j]].next
  }

  lemma {:induction false} PathFrame(mem: seq<Block>, after: seq<Block>, p: int, l: seq<int>, q: int)
    requires Path(mem, p, l, q) && SameNext(mem, after, l, |l|)
    ensures Path(after, p, l, q)
    decreases |l|
  {
    if l != [] {
      assert forall j | 0 <= j < |l[1..]| :: l[1..][j] == l[j + 1];
      PathFrame(mem, after, mem[p].next, l[1..], q);
    }
  }

  lemma {:induction false} PathConcat(mem: seq<Block>, p: int, a: seq<int>, b: seq<int>, q: int)
    ensures Path(mem, p, a + b, q) <==> Path(mem, p, a, First(b, q)) && Path(mem, First(b, q), b, q)
    decreases |a|
  {
    if a == [] {
      assert a + b == b;
    } else {
      assert (a + b)[1..] == a[1..] + b;
      if 0 <= p < |mem| {
        PathConcat(mem, mem[p].next, a[1..], b, q);
      }
    }
  }

  /** Redirecting the last block of a path. */
  lemma {:induction false} PathRetarget(mem: seq<Block>, after: seq<Block>, p: int, l: seq<int>, q: int, r: int)
    requires l != [] && Path(mem, p, l, q) && SameNext(mem, after, l, |l| - 1)
    requires 0 <= l[|l| - 1] < |mem| ==> after[l[|l| - 1]].next == r
    ensures Path(after, p, l, r)
    decreases |l|
  {
    if |l| > 1 {
      assert forall j | 0 <= j < |l[1..]| :: l[1..][j] == l[j + 1];
      PathRetarget(mem, after, mem[p].next, l[1..], q, r);
    }
  }

  lemma ChainFrame(mem: seq<Block>, after: seq<Block>, p: int, l: seq<int>)
    requires Chain(mem, p, l) && SameNext(mem, after, l, |l|)
    ensures Chain(after, p, l)
  {
    PathFrame(mem, after, p, l, NULL);
  }

  function Link(l: seq<int>, i: nat): int {
    if i < |l| then l[i] else NULL
  }

  lemma {:induction false} ChainAt(mem: seq<Block>, p: int, l: seq<int>, i: nat)
    requires Chain(mem, p, l) && i < |l|
    ensures p == l[0] && 0 <= l[i] < |mem| && mem[l[i]].next == Link(l, i + 1)
    decreases i
  {
    assert Path(mem, mem[p].next, l[1..], NULL);
    if i > 0 {
      ChainAt(mem, mem[p].next, l[1..], i - 1);
    }
  }

  /** Linking block x in between the parts a and b. */
  lemma ChainInsert(mem: seq<Block>, after: seq<Block>, p: int, a: seq<int>, x: int, b: seq<int>)
    requires Chain(mem, p, a + b) && 0 <= x < |mem|
    requires SameNext(mem, after, a, if a == [] then 0 else |a| - 1) && SameNext(mem, after, b, |b|)
    requires after[x].next == First(b, NULL)
    requires a != [] && 0 <= a[|a| - 1] < |mem| ==> after[a[|a| - 1]].next == x
    ensures Chain(after, if a == [] then x else p, a + [x] + b)
  {
    PathConcat(mem, p, a, b, NULL);
    PathFrame(mem, after, First(b, NULL), b, NULL);
    assert ([x] + b)[1..] == b;
    assert Path(after, x, [x] + b, NULL);
    if a != [] {
      PathRetarget(mem, after, p, a, First(b, NULL), x);
    }
    PathConcat(after, if a == [] then x else p, a, [x] + b, NULL);
    assert a + [x] + b == a + ([x] + b);
  }

  /** Unlinking block x from between the parts a and b. */
  lemma ChainRemove(mem: seq<Block>, after: seq<Block>, p: int, a: seq<int>, x: int, b: seq<int>)
    requires Chain(mem, p, a + [x] + b)
    requires SameNext(mem, after, a, if a == [] then 0 else |a| - 1) && SameNext(mem, after, b, |b|)
    requires a != [] && 0 <= a[|a| - 1] < |mem| ==> after[a[|a| - 1]].next == First(b, NULL)
    ensures Chain(after, if a == [] then First(b, NULL) else p, a + b)
    ensures 0 <= x < |mem| && mem[x].next == First(b, NULL)
  {
    assert a + [x] + b == a + ([x] + b);
    PathConcat(mem, p, a, [x] + b, NULL);
    assert ([x] + b)[1..] == b;
    assert Path(mem, mem[x].next, b, NULL);
    PathFrame(mem, after, First(b, NULL), b, NULL);
    if a != [] {
      PathRetarget(mem, after, p, a, x, First(b, NULL));
    }
    PathConcat(after, if a == [] then First(b, NULL) else p, a, b, NULL);
  }

  // ---- Contents ----

  ghost predicate AllFree(mem: seq<Block>, l: seq<int>) {
    forall j | 0 <= j < |l| :: 0 <= l[j] < |mem| && mem[l[j]].Free?
  }

  ghost predicate AllTx(mem: seq<Block>, l: seq<int>) {
    forall j | 0 <= j < |l| :: 0 <= l[j] < |mem| && mem[l[j]].TxItem?
  }

  ghost predicate AllBuffers(mem: seq<Block>, l: seq<int>) {
    forall j | 0 <= j < |l| :: 0 <= l[j] < |mem| && mem[l[j]].Buffer?
  }

  /** The frames of the TX queue. */
  ghost function TxFrames(mem: seq<Block>, tx: seq<int>): (fs: seq<Frame>)
    requires AllTx(mem, tx)
    ensures |fs| == |tx|
    ensures forall j | 0 <= j < |tx| :: fs[j] == mem[tx[j]].frame
  {
    seq(|tx|, j requires 0 <= j < |tx| => mem[tx[j]].frame)
  }

  /** The data of a buffer chain. */
  ghost function ChainData(mem: seq<Block>, chain: seq<int>): (d: seq<seq<byte>>)
    requires AllBuffers(mem, chain)
    ensures |d| == |chain|
    ensures forall j | 0 <= j < |chain| :: d[j] == mem[chain[j]].data
  {
    seq(|chain|, j requires 0 <= j < |chain| => mem[chain[j]].data)
  }

  /** A slot's blocks are what they should be and its chain is linked. */
  ghost predicate SlotShape(mem: seq<Block>, s: Slot) {
    && 0 <= s.at < |mem| && mem[s.at].RxState?
    && AllBuffers(mem, s.chain)
    && Chain(mem, mem[s.at].buffers, s.chain)
  }

  ghost function SlotBytes(mem: seq<Block>, s: Slot): seq<byte>
    requires SlotShape(mem, s)
  {
    mem[s.at].head + Concat(ChainData(mem, s.chain))
  }

  /** While the length does not wrap, head and chain hold exactly the stored bytes. */
  ghost predicate SlotContent(mem: seq<Block>, s: Slot)
    requires SlotShape(mem, s)
  {
    && mem[s.at].payloadLen == |s.stored| % 1024
    && (|s.stored| < 1024 ==>
          && Layout(|s.stored|, |s.chain|)
          && |s.stored| <= |SlotBytes(mem, s)| && SlotBytes(mem, s)[..|s.stored|] == s.stored)
  }

  ghost function SlotView(mem: seq<Block>, s: Slot): RxView
    requires SlotShape(mem, s)
  {
    var b := mem[s.at];
    RxView(b.descriptor, b.timestamp, b.calculatedCrc, b.payloadCrc, b.transferId, b.nextToggle, s.stored, |s.chain|)
  }

  /** The blocks of l are the same in both memories. */
  ghost predicate Agree(mem: seq<Block>, after: seq<Block>, l: seq<int>) {
    |after| == |mem| && forall j | 0 <= j < |l| && 0 <= l[j] < |mem| :: after[l[j]] == mem[l[j]]
  }

  /** A slot does not notice writes to blocks that are not its own. */
  lemma SlotFrame(mem: seq<Block>, after: seq<Block>, s: Slot)
    requires SlotShape(mem, s) && Agree(mem, after, s.chain) && after[s.at] == mem[s.at]
    ensures SlotShape(after, s) && SlotBytes(after, s) == SlotBytes(mem, s)
    ensures SlotView(after, s) == SlotView(mem, s)
    ensures SlotContent(mem, s) ==> SlotContent(after, s)
  {
    ChainFrame(mem, after, mem[s.at].buffers, s.chain);
    assert ChainData(after, s.chain) == ChainData(mem, s.chain);
  }

  lemma TxFramesFrame(mem: seq<Block>, after: seq<Block>, tx: seq<int>)
    requires AllTx(mem, tx) && Agree(mem, after, tx)
    ensures AllTx(after, tx) && TxFrames(after, tx) == TxFrames(mem, tx)
  {
  }

  // ---- Ownership ----

  /** How often a block occurs in a list. */
  ghost function Times(l: seq<int>, x: int): nat {
    if l == [] then 0 else (if l[0] == x then 1 else 0) + Times(l[1..], x)
  }

  lemma {:induction false} TimesConcat(a: seq<int>, b: seq<int>, x: int)
    ensures Times(a + b, x) == Times(a, x) + Times(b, x)
  {
    if a == [] {
      assert a + b == b;
    } else {
      assert (a + b)[1..] == a[1..] + b;
      TimesConcat(a[1..], b, x);
    }
  }

  lemma {:induction false} TimesAt(l: seq<int>, j: nat)
    requires j < |l|
    ensures Times(l, l[j]) >= 1
  {
    if j > 0 {
      TimesAt(l[1..], j - 1);
    }
  }

  /** A block that occurs once is not found at a second position. */
  lemma {:induction false} TimesTwice(l: seq<int>, i: nat, j: nat)
    requires i < j < |l| && l[i] == l[j]
    ensures Times(l, l[i]) >= 2
  {
    if i > 0 {
      TimesTwice(l[1..], i - 1, j - 1);
    } else {
      TimesAt(l[1..], j - 1);
    }
  }

  lemma {:induction false} TimesSplit(l: seq<int>, i: nat, x: int)
    requires i < |l|
    ensures Times(l, x) == Times(l[..i] + l[i + 1..], x) + (if l[i] == x then 1 else 0)
  {
    TimesConcat(l[..i], l[i + 1..], x);
    TimesConcat(l[..i], [l[i]] + l[i + 1..], x);
    assert l == l[..i] + ([l[i]] + l[i + 1..]);
    TimesConcat([l[i]], l[i + 1..], x);
    assert Times([l[i]], x) == if l[i] == x then 1 else 0;
  }

  ghost function SlotOwns(s: Slot, x: int): nat {
    (if s.at == x then 1 else 0) + Times(s.chain, x)
  }

  ghost function RxOwns(rx: seq<Slot>, x: int): nat {
    if rx == [] then 0 else SlotOwns(rx[0], x) + RxOwns(rx[1..], x)
  }

  /** On how many lists, counting repetitions, a block is. */
  ghost function Owners(h: Heap, x: int): nat {
    Times(h.free, x) + Times(h.tx, x) + RxOwns(h.rx, x) + Times(h.held, x)
  }

  function Ats(rx: seq<Slot>): (l: seq<int>)
    ensures |l| == |rx|
    ensures forall j | 0 <= j < |rx| :: l[j] == rx[j].at
  {
    seq(|rx|, j requires 0 <= j < |rx| => rx[j].at)
  }

  lemma {:induction false} RxOwnsUpdate(rx: seq<Slot>, k: nat, s: Slot, x: int)
    requires k < |rx|
    ensures RxOwns(rx[k := s], x) + SlotOwns(rx[k], x) == RxOwns(rx, x) + SlotOwns(s, x)
  {
    if k > 0 {
      assert rx[k := s][1..] == rx[1..][k - 1 := s];
      RxOwnsUpdate(rx[1..], k - 1, s, x);
    } else {
      assert rx[0 := s][1..] == rx[1..];
    }
  }

  lemma {:induction false} RxOwnsRemove(rx: seq<Slot>, k: nat, x: int)
    requires k < |rx|
    ensures RxOwns(rx, x) == RxOwns(rx[..k] + rx[k + 1..], x) + SlotOwns(rx[k], x)
  {
    if k > 0 {
      assert (rx[..k] + rx[k + 1..])[1..] == rx[1..][..k - 1] + rx[1..][k..];
      RxOwnsRemove(rx[1..], k - 1, x);
    } else {
      assert rx[..0] + rx[1..] == rx[1..];
    }
  }

  lemma {:induction false} RxOwnsTwo(rx: seq<Slot>, j: nat, k: nat, x: int)
    requires j < |rx| && k < |rx| && j != k
    ensures RxOwns(rx, x) >= SlotOwns(rx[j], x) + SlotOwns(rx[k], x)
  {
    RxOwnsRemove(rx, k, x);
    var rest := rx[..k] + rx[k + 1..];
    var i := if j < k then j else j - 1;
    assert rest[i] == rx[j];
    RxOwnsRemove(rest, i, x);
  }

  /** Every block of the pool is on exactly one list, exactly once. */
  ghost predicate OwnedOnce(h: Heap) {
    forall x :: Owners(h, x) == if 0 <= x < |h.mem| then 1 else 0
  }

  /** Each list is linked, every block is where it belongs, and the lists together are exactly the pool. */
  ghost predicate WellLinked(h: Heap) {
    && OwnedOnce(h)
    && Chain(h.mem, h.freeHead, h.free) && AllFree(h.mem, h.free)
    && Chain(h.mem, h.txHead, h.tx) && AllTx(h.mem, h.tx)
    && Chain(h.mem, h.rxHead, Ats(h.rx))
    && (forall k | 0 <= k < |h.rx| :: SlotShape(h.mem, h.rx[k]))
  }
}
