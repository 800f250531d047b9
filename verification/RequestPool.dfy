/** A pool of objects handed out by number; the free ones wait in a queue. */
module RequestPool {
  import opened RingQueue

  const NULL := -1

  class Pool<T(0)> {
    const slots: array<T>
    const requests: Queue<int>

    /** The waiting numbers are slots, each at most once. */
    ghost predicate Valid()
      reads this, requests, requests.data
    {
      && requests.Valid() && requests.data.Length == slots.Length && (slots as object) != requests.data
      && (forall i | 0 <= i < |requests.Contents()| :: 0 <= requests.Contents()[i] < slots.Length)
      && (forall i, j | 0 <= i < j < |requests.Contents()| :: requests.Contents()[i] != requests.Contents()[j])
    }

    ghost function Waiting(): seq<int>
      requires Valid()
      reads this, requests, requests.data
    {
      requests.Contents()
    }

    constructor (size: nat, blank: T)
      ensures Valid() && fresh(slots) && fresh(requests) && fresh(requests.data) && slots.Length == size
      ensures |Waiting()| == size
    {
      slots := new T[size](_ => blank);
      requests := new Queue<int>(size);
      new;
      var i := 0;
      while i < size
        invariant 0 <= i <= size && requests.Valid() && requests.data.Length == size && fresh(requests) && fresh(requests.data)
        invariant |requests.Contents()| == i && forall j | 0 <= j < i :: requests.Contents()[j] == j
      {
        requests.Push(i);
        i := i + 1;
      }
    }

    /** The oldest free slot, filled with the value; NULL when there is none. */
    method Alloc(value: T) returns (p: int)
      requires Valid()
      modifies requests, slots
      ensures Valid()
      ensures old(Waiting()) == [] ==> p == NULL && Waiting() == [] && slots[..] == old(slots[..])
      ensures old(Waiting()) != [] ==>
                && 0 <= p < slots.Length && old(Waiting()) == [p] + Waiting() && slots[..] == old(slots[..])[p := value]
    {
      if requests.elements != 0 {
        ghost var before := requests.Contents();
        p := requests.Pop();
        assert before[0] == p && forall i | 0 <= i < |requests.Contents()| :: requests.Contents()[i] == before[i + 1];
        slots[p] := value;
      } else {
        p := NULL;
      }
    }

    /** A slot that nobody refers to any more goes to the end of the queue. */
    method Free(p: int, refs: nat)
      requires Valid() && 0 <= p < slots.Length && (refs == 0 ==> p !in Waiting() && |Waiting()| < slots.Length)
      modifies requests, requests.data
      ensures Valid() && Waiting() == if refs == 0 then old(Waiting()) + [p] else old(Waiting())
    {
      if refs == 0 {
        requests.Push(p);
      }
    }
  }
}
