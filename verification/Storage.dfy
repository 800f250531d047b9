/** Bytes spread over a head and a chain of blocks, and where the next ones go. */
module Storage {
  import opened Bits
  import opened Transfer
  import opened Reassembly
  import opened ReassemblySafety
  import opened Arena
  import opened HeapOps
  import opened SlotOps

  function Spliced(buf: seq<byte>, at: nat, piece: seq<byte>): (r: seq<byte>)
    requires at + |piece| <= |buf|
    ensures |r| == |buf|
  {
    buf[..at] + piece + buf[at + |piece|..]
  }

  /** The byte loop that fills a buffer from `at` on until it is full or the data ends. */
  method CopyInto(buf: seq<byte>, at: nat, data: seq<byte>, from: nat) returns (r: seq<byte>, next: nat)
    requires from <= |data|
    ensures |r| == |buf| && from <= next <= |data|
    ensures at >= |buf| ==> next == from && r == buf
    ensures at < |buf| ==> next == from + Min(|buf| - at, |data| - from) && r == Spliced(buf, at, data[from..next])
  {
    r, next := buf, from;
    var i := at;
    while i < |buf| && next < |data|
      invariant from <= next <= |data| && i == at + (next - from) && |r| == |buf|
      invariant at < |buf| ==> i <= |buf| && r == Spliced(buf, at, data[from..next])
      invariant at >= |buf| ==> next == from && r == buf
      decreases |data| - next
    {
      r := r[i := data[next]];
      assert data[from..next + 1] == data[from..next] + [data[next]];
      i, next := i + 1, next + 1;
    }
  }

  lemma DropFront(front: seq<byte>, rest: seq<byte>, n: nat, v: seq<byte>)
    requires |front| == 28 && n + 28 <= |rest|
    ensures front + (rest[..n] + v + rest[n + 28..]) == (front + rest)[..n + 28] + v + (front + rest)[n + 56..]
  {
  }

  lemma {:induction false} ConcatReplace(d: seq<seq<byte>>, i: nat, v: seq<byte>)
    requires i < |d| && |v| == BLOCK_SIZE && forall b | b in d :: |b| == BLOCK_SIZE
    ensures 28 * (i + 1) <= |Concat(d)|
    ensures Concat(d[i := v]) == Concat(d)[..28 * i] + v + Concat(d)[28 * (i + 1)..]
  {
    assert forall b | b in d[1..] :: b in d;
    if i > 0 {
      ConcatReplace(d[1..], i - 1, v);
      assert d[i := v][1..] == d[1..][i - 1 := v];
      var rest := Concat(d[1..]);
      assert Concat(d) == d[0] + rest;
      DropFront(d[0], rest, 28 * (i - 1), v);
    } else {
      assert d[0 := v][1..] == d[1..];
    }
  }

  lemma {:induction false} ConcatAppend(d: seq<seq<byte>>, v: seq<byte>)
    ensures Concat(d + [v]) == Concat(d) + v
  {
    if d == [] {
      assert (d + [v])[1..] == [];
    } else {
      assert (d + [v])[1..] == d[1..] + [v];
      ConcatAppend(d[1..], v);
    }
  }

  /** The blocks hold `bytes` at their beginning. */
  ghost predicate Begins(whole: seq<byte>, bytes: seq<byte>) {
    |bytes| <= |whole| && whole[..|bytes|] == bytes
  }

  /** Writing a piece right behind the bytes held so far extends them. */
  lemma PieceInBlock(head: seq<byte>, d: seq<seq<byte>>, i: nat, at: nat, piece: seq<byte>, bytes: seq<byte>)
    requires |head| == HEAD_SIZE && i < |d| && forall b | b in d :: |b| == BLOCK_SIZE
    requires at + |piece| <= BLOCK_SIZE && |bytes| == BlockStart(i) + at
    requires Begins(head + Concat(d), bytes)
    ensures Begins(head + Concat(d[i := Spliced(d[i], at, piece)]), bytes + piece)
  {
    var v := Spliced(d[i], at, piece);
    ConcatReplace(d, i, v);
    ConcatAt(d, i);
    var whole, after := head + Concat(d), head + Concat(d[i := v]);
    assert |after| >= |bytes| + |piece|;
    forall j | 0 <= j < |bytes| + |piece| ensures after[j] == (bytes + piece)[j] {
      if j < BlockStart(i) {
        assert after[j] == whole[j] == whole[..|bytes|][j];
      } else if j < |bytes| {
        assert after[j] == v[j - BlockStart(i)] == d[i][j - BlockStart(i)];
        assert Concat(d)[28 * i..28 * (i + 1)][j - BlockStart(i)] == whole[j] == whole[..|bytes|][j];
      }
    }
  }

  lemma PieceInHead(head: seq<byte>, rest: seq<byte>, piece: seq<byte>, bytes: seq<byte>)
    requires |bytes| + |piece| <= |head| && Begins(head + rest, bytes)
    ensures Begins(Spliced(head, |bytes|, piece) + rest, bytes + piece)
  {
    assert (head + rest)[..|bytes|] == head[..|bytes|];
  }

  lemma BeginsLonger(whole: seq<byte>, more: seq<byte>, bytes: seq<byte>)
    requires Begins(whole, bytes)
    ensures Begins(whole + more, bytes)
  {
  }

  ghost predicate Holds(mem: seq<Block>, s: Slot, bytes: seq<byte>)
    requires SlotShape(mem, s)
  {
    Begins(SlotBytes(mem, s), bytes)
  }

  /** The C remainder and quotient by the block size. */
  lemma {:induction false} BlockDivision(x: nat)
    ensures BlockRemainder(x) == x % 28 && BlockQuotient(x) == x / 28
  {
    BlockSplit(x);
  }

  /** Where the next byte goes once the block to write to has been found or added. */
  lemma Position(len: nat, blocks: nat, n: nat)
    requires 6 <= len < 1024 && Layout(len, blocks) && blocks > 0 && n <= 7
    ensures var index := BlockRemainder(Unsigned(len - 6));
            var more := BlockQuotient(Unsigned(len + n - 6)) + 1 > blocks && index == 0;
            BlockStart(if more then blocks else blocks - 1) + index == len
  {
    var q := if len < BlockStart(blocks) then blocks - 1 else blocks;
    BlockSplitOf(len - 6, q, len - 6 - 28 * q);
    var p := if len + n < BlockStart(q + 1) then q else q + 1;
    BlockSplitOf(len + n - 6, p, len + n - 6 - 28 * p);
  }

  /** How many blocks the chain has after a push, from where the push starts writing. */
  lemma BlocksNeeded(len: nat, blocks: nat, n: nat)
    requires n <= 7 && (len == 6 || (n > 0 && len + n > 6))
    ensures var index := BlockRemainder(Unsigned(len - 6));
            var more := BlockQuotient(Unsigned(len + n - 6)) + 1 > blocks && index == 0;
            var rest := if len < 6 then len + n - 6 else n;
            BlocksAfter(len, blocks, n) ==
              if blocks == 0 then 1
              else if more then blocks + 1
              else blocks + (if index + rest > 28 then 1 else 0)
  {
  }

  /** Head, blocks and the rest of the last frame make up the whole payload. */
  lemma WholePayload(t: RxTransfer, stored: seq<byte>, body: seq<byte>, offset: nat)
    requires |t.head| == HEAD_SIZE && (forall b | b in t.middle :: |b| == BLOCK_SIZE)
    requires offset <= |body| && t.tail == body[offset..] && t.payloadLen == |stored| + |body|
    requires Begins(t.head + Concat(t.middle), stored + body[..offset])
    requires offset < |body| ==> |stored| + offset == BlockStart(|t.middle|)
    requires t.middle != [] ==> |stored| >= HEAD_SIZE
    ensures WellFormed(t) && Flat(t) == stored + body
  {
    var whole := t.head + Concat(t.middle);
    assert |whole| == BlockStart(|t.middle|);
    assert stored + body == (stored + body[..offset]) + body[offset..];
    if Scattered(t) {
      assert whole[..t.payloadLen - |t.tail|] == stored + body[..offset];
    } else {
      assert t.middle == [] && Concat(t.middle) == [];
      assert whole == t.head;
    }
  }
}
