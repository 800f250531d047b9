/** A fixed-capacity queue in a ring of array cells. */
module RingQueue {

  class Queue<T(0)> {
    const data: array<T>
    var elements: nat
    var head: nat
    var tail: nat

    ghost predicate Valid()
      reads this
    {
      && elements <= data.Length
      && (data.Length == 0 ==> head == 0 && tail == 0) && (data.Length > 0 ==> head < data.Length && tail < data.Length)
      && (if head + elements < data.Length || data.Length == 0 then tail == head + elements
          else tail == head + elements - data.Length)
    }

    /** The queued values, oldest first. */
    ghost function Contents(): (s: seq<T>)
      requires Valid()
      reads this, data
      ensures |s| == elements
    {
      if head + elements <= data.Length then data[head..head + elements]
      else data[head..] + data[..head + elements - data.Length]
    }

    constructor (capacity: nat)
      ensures Valid() && fresh(data) && data.Length == capacity && Contents() == []
    {
      data := new T[capacity];
      elements, head, tail := 0, 0, 0;
    }

    method Clear()
      requires Valid()
      modifies this
      ensures Valid() && Contents() == []
    {
      head, tail, elements := 0, 0, 0;
    }

    method Push(value: T)
      requires Valid() && elements < data.Length
      modifies this, data
      ensures Valid() && Contents() == old(Contents()) + [value]
    {
      ghost var before := Contents();
      data[tail] := value;
      tail := tail + 1;
      if tail == data.Length {
        tail := 0;
      }
      elements := elements + 1;
      assert Contents()[..|before|] == before;
    }

    method Pop() returns (value: T)
      requires Valid() && elements > 0
      modifies this
      ensures Valid() && old(Contents()) == [value] + Contents()
    {
      value := data[head];
      head := head + 1;
      if head == data.Length {
        head := 0;
      }
      elements := elements - 1;
    }

    /** As many of the values as fit, in order. */
    method PushAll(buffer: seq<T>) returns (count: nat)
      requires Valid()
      modifies this, data
      ensures Valid() && count == (if |buffer| < data.Length - old(elements) then |buffer| else data.Length - old(elements))
      ensures Contents() == old(Contents()) + buffer[..count]
    {
      count := 0;
      while elements < data.Length && count < |buffer|
        invariant Valid() && count <= |buffer| && elements == old(elements) + count
        invariant Contents() == old(Contents()) + buffer[..count]
        decreases |buffer| - count
      {
        Push(buffer[count]);
        count := count + 1;
      }
    }

    /** At most length values, oldest first. */
    method PopAll(length: nat) returns (buffer: seq<T>)
      requires Valid()
      modifies this
      ensures Valid() && |buffer| == (if length < old(elements) then length else old(elements))
      ensures old(Contents()) == buffer + Contents()
    {
      buffer := [];
      while elements > 0 && |buffer| < length
        invariant Valid() && |buffer| <= length && elements + |buffer| == old(elements)
        invariant old(Contents()) == buffer + Contents()
        decreases elements
      {
        ghost var before := Contents();
        var value := Pop();
        assert buffer + before == buffer + [value] + Contents();
        buffer := buffer + [value];
      }
    }
  }
}
