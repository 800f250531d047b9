/** A file in memory that is uploaded chunk by chunk. */
module MemoryFile {
  import opened Bits
  import opened Crc32

  const RESERVED_POSITION := 0xFFFF_FFFF

  /** A sum and a difference in 32-bit size_t arithmetic. */
  function Plus(a: nat, b: nat): nat { (a + b) % 0x1_0000_0000 }

  function Minus(a: nat, b: nat): nat
    requires a < 0x1_0000_0000 && b < 0x1_0000_0000
  {
    if a >= b then a - b else a + 0x1_0000_0000 - b
  }

  /** What is stored after a chunk: only the part behind what is there already is new; a chunk that leaves a gap is
      dropped. */
  function Written(stored: seq<byte>, offset: nat, chunk: seq<byte>): seq<byte> {
    if offset <= |stored| < offset + |chunk| then stored + chunk[|stored| - offset..] else stored
  }

  /** The chunk is a part of the file. */
  predicate PartOf(file: seq<byte>, offset: nat, chunk: seq<byte>) {
    offset + |chunk| <= |file| && file[offset..offset + |chunk|] == chunk
  }

  /** One operation of an upload, and a run of them. */
  datatype Op = Restart | Chunk(offset: nat, data: seq<byte>)

  function Apply(stored: seq<byte>, op: Op): seq<byte> {
    match op
    case Restart => []
    case Chunk(offset, data) => Written(stored, offset, data)
  }

  function ApplyAll(stored: seq<byte>, ops: seq<Op>): seq<byte>
    decreases |ops|
  {
    if ops == [] then stored else ApplyAll(Apply(stored, ops[0]), ops[1..])
  }

  lemma {:induction false} ApplyLast(stored: seq<byte>, ops: seq<Op>, i: nat)
    requires i < |ops|
    ensures ApplyAll(stored, ops[..i + 1]) == Apply(ApplyAll(stored, ops[..i]), ops[i])
    decreases i
  {
    if i == 0 {
      assert ops[..1][1..] == [];
    } else {
      assert ops[..i + 1][1..] == ops[1..][..i] && ops[..i][1..] == ops[1..][..i - 1];
      ApplyLast(Apply(stored, ops[0]), ops[1..], i - 1);
    }
  }

  ghost predicate AllPartsOf(file: seq<byte>, ops: seq<Op>) {
    forall i | 0 <= i < |ops| && ops[i].Chunk? :: PartOf(file, ops[i].offset, ops[i].data)
  }

  lemma WrittenIsPrefix(file: seq<byte>, stored: seq<byte>, offset: nat, chunk: seq<byte>)
    requires stored <= file && PartOf(file, offset, chunk)
    ensures Written(stored, offset, chunk) <= file && |Written(stored, offset, chunk)| >= |stored|
  {
    if offset <= |stored| < offset + |chunk| {
      var more := chunk[|stored| - offset..];
      assert more == file[|stored|..offset + |chunk|];
      assert stored + more == file[..offset + |chunk|];
    }
  }

  /** However chunks of a file are lost, repeated or reordered, what is stored is a prefix of the file. */
  lemma {:induction false} StoredIsPrefix(file: seq<byte>, stored: seq<byte>, ops: seq<Op>)
    requires stored <= file && AllPartsOf(file, ops)
    ensures ApplyAll(stored, ops) <= file
    decreases |ops|
  {
    if ops != [] {
      match ops[0] {
        case Restart =>
        case Chunk(offset, data) => WrittenIsPrefix(file, stored, offset, data);
      }
      assert AllPartsOf(file, ops[1..]) by {
        assert forall i | 0 <= i < |ops[1..]| :: ops[1..][i] == ops[i + 1];
      }
      StoredIsPrefix(file, Apply(stored, ops[0]), ops[1..]);
    }
  }

  /** So a file that is as long as it should be is the file. */
  lemma {:induction false} FullLengthIsFile(file: seq<byte>, ops: seq<Op>)
    requires AllPartsOf(file, ops) && |ApplyAll([], ops)| == |file|
    ensures ApplyAll([], ops) == file
  {
    StoredIsPrefix(file, [], ops);
  }

  // ---- Nothing that fits is lost ----

  /** A chunk that begins in the stored part, or right behind it, and ends behind it, extends it to its own end; any other
      chunk changes nothing. */
  lemma ChunkExtends(stored: seq<byte>, offset: nat, chunk: seq<byte>)
    ensures var w, end := Written(stored, offset, chunk), offset + |chunk|;
            if offset <= |stored| < end then
              && |w| == end && (forall j | 0 <= j < |stored| :: w[j] == stored[j])
              && (forall j | |stored| <= j < end :: w[j] == chunk[j - offset])
            else w == stored
  {
  }

  ghost predicate NoRestart(ops: seq<Op>) {
    forall i | 0 <= i < |ops| :: ops[i].Chunk?
  }

  /** The chosen chunks, in their order, cover the file from `reached` to `total`: each begins no later than where those
      before it end. What lies between them does not matter. */
  predicate Covers(ops: seq<Op>, chosen: seq<bool>, reached: nat, total: nat)
    requires |chosen| == |ops|
    decreases |ops|
  {
    if ops == [] then total <= reached
    else if chosen[0] then
      && ops[0].Chunk? && ops[0].offset <= reached
      && Covers(ops[1..], chosen[1..], Max(reached, ops[0].offset + |ops[0].data|), total)
    else Covers(ops[1..], chosen[1..], reached, total)
  }

  ghost predicate Complete(ops: seq<Op>, reached: nat, total: nat) {
    exists chosen: seq<bool> :: |chosen| == |ops| && Covers(ops, chosen, reached, total)
  }

  function Max(a: nat, b: nat): nat { if a < b then b else a }

  lemma {:induction false} CoveredIsStored(file: seq<byte>, stored: seq<byte>, ops: seq<Op>, chosen: seq<bool>, reached: nat)
    requires stored <= file && reached <= |stored| && AllPartsOf(file, ops) && NoRestart(ops)
    requires |chosen| == |ops| && Covers(ops, chosen, reached, |file|)
    ensures ApplyAll(stored, ops) == file
    decreases |ops|
  {
    if ops != [] {
      var offset, data := ops[0].offset, ops[0].data;
      RestOfUpload(file, ops);
      WrittenIsPrefix(file, stored, offset, data);
      ChunkExtends(stored, offset, data);
      var next := if chosen[0] then Max(reached, offset + |data|) else reached;
      CoveredIsStored(file, Apply(stored, ops[0]), ops[1..], chosen[1..], next);
    }
  }

  lemma RestOfUpload(file: seq<byte>, ops: seq<Op>)
    requires ops != [] && AllPartsOf(file, ops)
    ensures AllPartsOf(file, ops[1..]) && (NoRestart(ops) ==> NoRestart(ops[1..]))
    ensures ops[0].Chunk? ==> PartOf(file, ops[0].offset, ops[0].data)
  {
    assert forall i | 0 <= i < |ops[1..]| :: ops[1..][i] == ops[i + 1];
  }

  /** The chunks that extended what was stored cover the file. */
  lemma {:induction false} StoredIsCovered(file: seq<byte>, stored: seq<byte>, ops: seq<Op>) returns (chosen: seq<bool>)
    requires stored <= file && AllPartsOf(file, ops) && NoRestart(ops) && ApplyAll(stored, ops) == file
    ensures |chosen| == |ops| && Covers(ops, chosen, |stored|, |file|)
    decreases |ops|
  {
    if ops == [] {
      chosen := [];
    } else {
      var offset, data := ops[0].offset, ops[0].data;
      RestOfUpload(file, ops);
      WrittenIsPrefix(file, stored, offset, data);
      ChunkExtends(stored, offset, data);
      var rest := StoredIsCovered(file, Apply(stored, ops[0]), ops[1..]);
      chosen := [offset <= |stored| < offset + |data|] + rest;
      assert chosen[1..] == rest;
    }
  }

  /** After a restart, the file is stored exactly if some of the chunks, in the order in which they came, cover it from the
      beginning without a gap, whatever was repeated, lost or came in between. */
  lemma StoredExactlyIfCovered(file: seq<byte>, ops: seq<Op>)
    requires AllPartsOf(file, ops) && NoRestart(ops)
    ensures ApplyAll([], ops) == file <==> Complete(ops, 0, |file|)
  {
    if ApplyAll([], ops) == file {
      var chosen := StoredIsCovered(file, [], ops);
    }
    if Complete(ops, 0, |file|) {
      var chosen: seq<bool> :| |chosen| == |ops| && Covers(ops, chosen, 0, |file|);
      CoveredIsStored(file, [], ops, chosen, 0);
    }
  }

  /** What came before the last restart does not matter. */
  lemma {:induction false} RestartForgets(stored: seq<byte>, before: seq<Op>, after: seq<Op>)
    ensures ApplyAll(stored, before + [Restart] + after) == ApplyAll([], after)
    decreases |before|
  {
    var all := before + [Restart] + after;
    if before == [] {
      assert all[1..] == after;
    } else {
      assert all[1..] == before[1..] + [Restart] + after;
      RestartForgets(Apply(stored, before[0]), before[1..], after);
    }
  }

  class MemoryFile {
    const readonly: bool
    const data: array<byte>
    var size: nat
    var finalized: bool

    ghost predicate Valid()
      reads this
    {
      size <= data.Length < 0x1_0000_0000
    }

    ghost function Stored(): seq<byte>
      requires Valid()
      reads this, data
    {
      data[..size]
    }

    constructor (capacity: nat, readonly: bool)
      requires capacity < 0x1_0000_0000
      ensures Valid() && fresh(data) && data.Length == capacity && this.readonly == readonly && Stored() == [] && finalized
    {
      this.readonly := readonly;
      data := new byte[capacity];
      size, finalized := 0, true;
    }

    method GetChecksum() returns (c: bv32)
      requires Valid()
      ensures c == Sum(0, Stored())
    {
      c := Crc32.FastUpdate(0, data[..size]);
    }

    /** readChunk: at most length bytes from offset on; none at or behind the end. */
    method ReadChunk(offset: nat, length: nat) returns (ok: bool, chunk: seq<byte>)
      requires Valid()
      ensures ok == (offset < size && length > 0)
      ensures chunk == if ok then Stored()[offset..offset + Bits.Min(size - offset, length)] else []
    {
      if offset >= size {
        return false, [];
      }
      var n := Bits.Min(size - offset, length);
      ok := n > 0;
      chunk := data[offset..offset + n];
    }

    /** writeChunk, for offsets that do not overflow; a chunk that begins behind the end of what is stored is accepted and
        dropped. */
    method WriteChunk(offset: nat, buffer: seq<byte>) returns (ok: bool)
      requires Valid() && offset < 0x1_0000_0000 && offset + |buffer| < 0x1_0000_0000
      modifies this`size, data
      ensures Valid() && ok == (!readonly && buffer != [] && offset + |buffer| <= data.Length)
      ensures Stored() == if ok then Written(old(Stored()), offset, buffer) else old(Stored())
      ensures ok && offset <= old(size) < offset + |buffer| ==>
                && size == offset + |buffer| && Stored()[..old(size)] == old(Stored())
                && forall j | old(size) <= j < size :: Stored()[j] == buffer[j - offset]
    {
      if readonly {
        return false;
      }
      if |buffer| == 0 || Plus(offset, |buffer|) > data.Length {
        return false;
      }
      var skipped := Minus(size, offset);
      if skipped < |buffer| {
        Append(buffer[skipped..]);
      }
      ok := true;
    }

    /** memcpy behind what is stored. */
    method Append(more: seq<byte>)
      requires Valid() && size + |more| <= data.Length
      modifies this`size, data
      ensures Valid() && Stored() == old(Stored()) + more
    {
      ghost var before := data[..size];
      var i := 0;
      while i < |more|
        invariant i <= |more| && size == old(size) && data[..size] == before && forall j | 0 <= j < i :: data[size + j] == more[j]
      {
        data[size + i] := more[i];
        i := i + 1;
      }
      size := size + |more|;
      assert data[..size] == before + more;
    }

    method RestartWrite() returns (ok: bool)
      requires Valid()
      modifies this
      ensures Valid() && ok == !readonly
      ensures if ok then Stored() == [] && !finalized else size == old(size) && finalized == old(finalized)
    {
      if readonly {
        return false;
      }
      size := 0;
      finalized := false;
      ok := true;
    }

    /** finalizeWrite: succeeds exactly for the stored size; the reserved position stands for an empty file. */
    method FinalizeWrite(total: nat) returns (ok: bool)
      requires Valid() && total < 0x1_0000_0000
      modifies this`finalized
      ensures ok == (!readonly && size == (if total == 0xFFFF_FFFF then 0 else total))
      ensures finalized == (ok || old(finalized))
    {
      if readonly {
        return false;
      }
      var expected := if total == RESERVED_POSITION then 0 else total;
      if expected == size {
        finalized := true;
        return true;
      }
      ok := false;
    }

    /** An upload: after a restart, any chunks of the file in any order, any number of times. The last call accepts the
        length of the file exactly if the file is stored; without a second restart, exactly if the chunks cover it. */
    method Upload(ghost file: seq<byte>, ops: seq<Op>, total: nat) returns (ok: bool)
      requires Valid() && !readonly && total == |file| < 0xFFFF_FFFF && AllPartsOf(file, ops)
      requires forall i | 0 <= i < |ops| && ops[i].Chunk? ::
                 ops[i].data != [] && ops[i].offset + |ops[i].data| <= data.Length
      modifies this, data
      ensures Valid() && Stored() == ApplyAll([], ops) && Stored() <= file && ok == (Stored() == file) && (ok ==> finalized)
      ensures NoRestart(ops) ==> (ok <==> Complete(ops, 0, |file|))
    {
      ok := RestartWrite();
      var i := 0;
      while i < |ops|
        invariant 0 <= i <= |ops| && Valid() && Stored() <= file && Stored() == ApplyAll([], ops[..i])
      {
        ApplyLast([], ops, i);
        match ops[i] {
          case Restart => ok := RestartWrite();
          case Chunk(offset, chunk) =>
            WrittenIsPrefix(file, Stored(), offset, chunk);
            ok := WriteChunk(offset, chunk);
        }
        i := i + 1;
      }
      assert ops[..i] == ops;
      if NoRestart(ops) {
        StoredExactlyIfCovered(file, ops);
      }
      ok := FinalizeWrite(total);
    }
  }
}
