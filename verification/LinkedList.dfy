/** A singly linked list whose nodes live in a fixed arena; unused nodes wait on a stack. */
module LinkedList {
  import opened Wrappers

  const NULL := -1

  datatype Node<T> = Node(next: int, data: T)

  /** The elements that do not satisfy p, in order. */
  function Without<T>(s: seq<T>, p: T -> bool): seq<T> {
    if s == [] then [] else (if p(s[0]) then [] else [s[0]]) + Without(s[1..], p)
  }

  /** The sequence without its first occurrence of x. */
  function RemoveFirst<T(==)>(s: seq<T>, x: T): seq<T> {
    if s == [] then [] else if s[0] == x then s[1..] else [s[0]] + RemoveFirst(s[1..], x)
  }

  lemma {:induction false} RemoveFirstAt<T>(s: seq<T>, x: T, i: nat)
    requires i <= |s| && (forall j | 0 <= j < i :: s[j] != x) && (i < |s| ==> s[i] == x)
    ensures RemoveFirst(s, x) == if i < |s| then s[..i] + s[i + 1..] else s
  {
    if i > 0 {
      RemoveFirstAt(s[1..], x, i - 1);
      FirstKept(s, i);
    } else if s != [] {
      assert s[..0] + s[1..] == s[1..];
    }
  }

  lemma FirstKept<T>(s: seq<T>, i: nat)
    requires 0 < i <= |s|
    ensures [s[0]] + s[1..] == s
    ensures i < |s| ==> [s[0]] + (s[1..][..i - 1] + s[1..][i..]) == s[..i] + s[i + 1..]
  {
  }

  function Cut<T>(s: seq<T>, i: nat): seq<T>
    requires i < |s|
  {
    s[..i] + s[i + 1..]
  }

  /** The elements before position i have been decided about. */
  ghost predicate DecidedTo<T>(all: seq<T>, p: T -> bool, now: seq<T>, i: nat) {
    i <= |now| && Without(all, p) == now[..i] + Without(now[i..], p)
  }

  lemma DecideKeep<T>(all: seq<T>, p: T -> bool, now: seq<T>, i: nat)
    requires DecidedTo(all, p, now, i) && i < |now| && !p(now[i])
    ensures DecidedTo(all, p, now, i + 1)
  {
    assert now[i..][1..] == now[i + 1..];
    assert now[..i] + ([now[i]] + Without(now[i + 1..], p)) == now[..i + 1] + Without(now[i + 1..], p);
  }

  lemma DecideDrop<T>(all: seq<T>, p: T -> bool, now: seq<T>, i: nat)
    requires DecidedTo(all, p, now, i) && i < |now| && p(now[i])
    ensures DecidedTo(all, p, Cut(now, i), i)
  {
    var left := Cut(now, i);
    assert now[i..][1..] == left[i..] && left[..i] == now[..i];
    assert [] + Without(left[i..], p) == Without(left[i..], p);
  }

  /** The node at position i of a list of node numbers, or NULL. */
  function Nth(order: seq<int>, i: nat): int {
    if i < |order| then order[i] else NULL
  }

  // ---- The nodes as values ----

  /** Node i of the order is followed by node i + 1, or by nothing. */
  ghost predicate Follows<T>(nodes: seq<Node<T>>, order: seq<int>, i: nat)
    requires i < |order|
  {
    0 <= order[i] < |nodes| && nodes[order[i]].next == Nth(order, i + 1)
  }

  /** Following next from first visits the nodes of order and ends. */
  ghost predicate Linked<T>(nodes: seq<Node<T>>, first: int, order: seq<int>) {
    first == Nth(order, 0) && forall i {:trigger Follows(nodes, order, i)} | 0 <= i < |order| :: Follows(nodes, order, i)
  }

  /** The listed and the spare nodes are the arena: none twice, none in both, as many as there are. */
  ghost predicate Shared(size: nat, order: seq<int>, spare: seq<int>) {
    && |order| + |spare| == size && Distinct(order) && Distinct(spare)
    && (forall i | 0 <= i < |spare| :: 0 <= spare[i] < size)
    && (forall i, j | 0 <= i < |spare| && 0 <= j < |order| :: spare[i] != order[j])
  }

  ghost predicate InArena<T>(nodes: seq<Node<T>>, order: seq<int>) {
    forall i | 0 <= i < |order| :: 0 <= order[i] < |nodes|
  }

  ghost function DataOf<T>(nodes: seq<Node<T>>, order: seq<int>): (s: seq<T>)
    requires InArena(nodes, order)
    ensures |s| == |order| && forall i | 0 <= i < |s| :: s[i] == nodes[order[i]].data
  {
    seq(|order|, i requires 0 <= i < |order| => nodes[order[i]].data)
  }

  /** Taking node i out of the list. */
  lemma CutLinked<T>(nodes: seq<Node<T>>, after: seq<Node<T>>, first: int, order: seq<int>, i: nat)
    requires Linked(nodes, first, order) && Distinct(order) && i < |order| && InArena(nodes, order)
    requires after == if i == 0 then nodes
                      else nodes[order[i - 1] := Node(nodes[order[i]].next, nodes[order[i - 1]].data)]
    ensures Linked(after, if i == 0 then nodes[order[i]].next else first, Cut(order, i))
    ensures InArena(after, Cut(order, i)) && DataOf(after, Cut(order, i)) == Cut(DataOf(nodes, order), i)
  {
    var l := Cut(order, i);
    assert Follows(nodes, order, i);
    forall j | 0 <= j < |l| ensures Follows(after, l, j) {
      assert Follows(nodes, order, if j < i then j else j + 1);
    }
  }

  /** Putting a node that is not listed behind the others. */
  lemma AppendLinked<T>(nodes: seq<Node<T>>, after: seq<Node<T>>, first: int, order: seq<int>, x: int, value: T)
    requires Linked(nodes, first, order) && Distinct(order) && x !in order && 0 <= x < |nodes| && InArena(nodes, order)
    requires var added := nodes[x := Node(NULL, value)];
             after == if order == [] then added
                      else added[order[|order| - 1] := Node(x, added[order[|order| - 1]].data)]
    ensures Linked(after, if order == [] then x else first, order + [x])
    ensures InArena(after, order + [x]) && DataOf(after, order + [x]) == DataOf(nodes, order) + [value]
  {
    var l := order + [x];
    forall j | 0 <= j < |l| ensures Follows(after, l, j) {
      if j < |order| {
        assert Follows(nodes, order, j);
      }
    }
  }

  lemma CutShared(size: nat, order: seq<int>, spare: seq<int>, i: nat)
    requires Shared(size, order, spare) && i < |order| && 0 <= order[i] < size
    ensures Shared(size, Cut(order, i), spare + [order[i]])
  {
  }

  lemma TakeShared(size: nat, order: seq<int>, spare: seq<int>, x: int)
    requires Shared(size, order, spare + [x])
    ensures x !in order && 0 <= x < size && Shared(size, order + [x], spare)
  {
    var all := spare + [x];
    assert all[|spare|] == x;
    assert forall i | 0 <= i < |spare| :: all[i] == spare[i];
  }

  class List<T(0, ==)> {
    const nodes: array<Node<T>>
    const pool: array<int>
    var first: int
    var available: nat
    ghost var order: seq<int>

    ghost predicate Valid()
      reads this, nodes, pool
    {
      && pool.Length == nodes.Length && available <= pool.Length
      && Linked(nodes[..], first, order) && InArena(nodes[..], order) && Shared(nodes.Length, order, pool[..available])
    }

    ghost function Contents(): (s: seq<T>)
      requires Valid()
      reads this, nodes, pool
    {
      DataOf(nodes[..], order)
    }

    constructor (capacity: nat, blank: T)
      ensures Valid() && fresh(nodes) && fresh(pool) && nodes.Length == capacity && Contents() == []
    {
      nodes := new Node<T>[capacity](_ => Node(NULL, blank));
      pool := new int[capacity];
      first, available, order := NULL, 0, [];
      new;
      Fill();
    }

    /** The loop that puts every node on the stack. */
    method Fill()
      requires pool.Length == nodes.Length && first == NULL && order == []
      modifies this`available, pool
      ensures Valid()
    {
      available := nodes.Length;
      var i := 0;
      while i < nodes.Length
        invariant 0 <= i <= nodes.Length == available && forall j | 0 <= j < i :: pool[j] == j
      {
        pool[i] := i;
        i := i + 1;
      }
    }

    method Clear()
      requires Valid()
      modifies this, pool
      ensures Valid() && Contents() == []
    {
      first, order := NULL, [];
      Fill();
    }

    method PushBack(value: T)
      requires Valid() && available > 0
      modifies this, nodes
      ensures Valid() && Contents() == old(Contents()) + [value]
    {
      ghost var was, before, spare := nodes[..], order, pool[..available];
      available := available - 1;
      var node := pool[available];
      assert spare == pool[..available] + [node];
      TakeShared(nodes.Length, before, pool[..available], node);
      nodes[node] := Node(NULL, value);
      if first != NULL {
        var current := LastNode(was, node);
        nodes[current] := Node(node, nodes[current].data);
      } else {
        first := node;
      }
      order := before + [node];
      AppendLinked(was, nodes[..], old(first), before, node, value);
    }

    /** Walks to the end of the list; the new node is not on it yet. */
    method LastNode(ghost was: seq<Node<T>>, ghost node: int) returns (current: int)
      requires order != [] && Linked(was, first, order) && InArena(was, order) && |was| == nodes.Length
      requires node !in order && forall i | 0 <= i < nodes.Length && i != node :: nodes[i] == was[i]
      ensures current == order[|order| - 1]
    {
      current := first;
      ghost var i := 0;
      assert Follows(was, order, 0);
      while nodes[current].next != NULL
        invariant i < |order| && current == order[i] && Follows(was, order, i)
        decreases |order| - i
      {
        current := nodes[current].next;
        i := i + 1;
        assert Follows(was, order, i);
      }
    }

    /** Takes node number i of the list out of it; prev is the node before, or NULL. */
    method Unlink(prev: int, target: int, ghost i: nat)
      requires Valid() && i < |order| && target == order[i] && prev == (if i == 0 then NULL else order[i - 1])
      modifies this, nodes, pool
      ensures Valid() && order == Cut(old(order), i) && Contents() == Cut(old(Contents()), i)
    {
      ghost var was, before, spare := nodes[..], order, pool[..available];
      if prev == NULL {
        first := nodes[target].next;
      } else {
        nodes[prev] := Node(nodes[target].next, nodes[prev].data);
      }
      assert available < nodes.Length;
      pool[available] := target;
      available := available + 1;
      order := Cut(before, i);
      CutLinked(was, nodes[..], old(first), before, i);
      CutShared(nodes.Length, before, spare, i);
      assert pool[..available] == spare + [target];
    }

    /** Removes the first occurrence of the value, if there is one. */
    method Erase(value: T)
      requires Valid()
      modifies this, nodes, pool
      ensures Valid() && Contents() == RemoveFirst(old(Contents()), value)
    {
      var prev, current := NULL, first;
      ghost var i := 0;
      while current != NULL && nodes[current].data != value
        invariant i <= |order| && current == Nth(order, i) && prev == (if i == 0 then NULL else order[i - 1])
        invariant forall j | 0 <= j < i :: Contents()[j] != value
        decreases |order| - i
      {
        assert Follows(nodes[..], order, i);
        prev := current;
        current := nodes[current].next;
        i := i + 1;
      }
      RemoveFirstAt(Contents(), value, i);
      if current != NULL {
        Unlink(prev, current, i);
      }
    }

    /** Removes a node; returns the one behind it. */
    method EraseNode(node: int, ghost k: nat) returns (next: int)
      requires Valid() && k < |order| && node == order[k]
      modifies this, nodes, pool
      ensures Valid() && order == Cut(old(order), k) && Contents() == Cut(old(Contents()), k) && next == Nth(order, k)
    {
      var prev, current := NULL, first;
      ghost var i := 0;
      while current != NULL && current != node
        invariant i <= k && current == order[i] && prev == (if i == 0 then NULL else order[i - 1])
        decreases k - i
      {
        assert Follows(nodes[..], order, i);
        prev := current;
        current := nodes[current].next;
        i := i + 1;
      }
      assert Follows(nodes[..], order, i);
      next := nodes[current].next;
      Unlink(prev, current, i);
    }

    /** Removes every element that satisfies p; the others keep their order. */
    method EraseIf(p: T -> bool)
      requires Valid()
      modifies this, nodes, pool
      ensures Valid() && Contents() == Without(old(Contents()), p)
    {
      var prev, current := NULL, first;
      ghost var i := 0;
      assert Contents()[0..] == Contents() && [] + Without(Contents(), p) == Without(Contents(), p);
      while current != NULL
        invariant Valid() && DecidedTo(old(Contents()), p, Contents(), i)
        invariant current == Nth(order, i) && prev == (if i == 0 then NULL else order[i - 1])
        decreases |order| - i
      {
        assert Follows(nodes[..], order, i);
        if p(nodes[current].data) {
          DecideDrop(old(Contents()), p, Contents(), i);
          var next := nodes[current].next;
          Unlink(prev, current, i);
          current := next;
        } else {
          DecideKeep(old(Contents()), p, Contents(), i);
          prev := current;
          current := nodes[current].next;
          i := i + 1;
        }
      }
    }
  }
}
