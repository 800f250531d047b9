/** How the hub gives addresses to devices. */
module CanProxyHub {
  import opened Bits

  const UNALLOCATED := 0
  const RESERVED_ID := 255
  const FIRST_ADDRESS := 125
  const NONE := -1
  const UID_LENGTH := 16
  /** Where the identifier begins in a node information packet. */
  const UID_POSITION := 24

  type Uid = u: seq<byte> | |u| == UID_LENGTH witness NoUid()

  /** A proxy slot; address 0 means that it is not in use. */
  datatype Entry = Entry(address: nat, uid: Uid)

  /** A node attached to the bus handler: one of the hub's own components, or a proxy slot. */
  datatype Attached = Vacant | Component(address: nat) | Slot(i: nat)

  function NoUid(): (u: seq<byte>)
    ensures |u| == UID_LENGTH
  {
    Zeros(16)
  }

  function Blank(): Entry { Entry(UNALLOCATED, NoUid()) }

  /** The address before a, in 8-bit arithmetic. */
  function Previous(a: nat): nat { if a == 0 then 255 else a - 1 }

  predicate UsedByProxy(proxies: seq<Entry>, a: nat) {
    exists i :: 0 <= i < |proxies| && proxies[i].address == a
  }

  function AddressOf(proxies: seq<Entry>, node: Attached): int {
    match node
    case Vacant => NONE
    case Component(address) => address
    case Slot(i) => if i < |proxies| then proxies[i].address else NONE
  }

  predicate UsedByNode(proxies: seq<Entry>, nodes: seq<Attached>, a: nat) {
    exists i :: 0 <= i < |nodes| && AddressOf(proxies, nodes[i]) == a
  }

  predicate IsFree(proxies: seq<Entry>, nodes: seq<Attached>, a: nat) {
    !UsedByProxy(proxies, a) && !UsedByNode(proxies, nodes, a)
  }

  /** No two devices in use have the same address. */
  ghost predicate Unique(proxies: seq<Entry>) {
    forall i, j | 0 <= i < j < |proxies| && proxies[i].address != UNALLOCATED :: proxies[i].address != proxies[j].address
  }

  /** The highest free address from `start` down to `lowest`. */
  ghost predicate HighestFree(proxies: seq<Entry>, nodes: seq<Attached>, start: nat, a: nat) {
    a <= start && IsFree(proxies, nodes, a) && forall b | a < b <= start :: !IsFree(proxies, nodes, b)
  }

  // ---- Counting ----

  function UpTo(n: nat): (s: set<nat>)
    ensures forall x :: x in s <==> 1 <= x <= n
  {
    if n == 0 then {} else UpTo(n - 1) + {n}
  }

  lemma {:induction false} UpToSize(n: nat)
    ensures |UpTo(n)| == n
  {
    if n > 0 {
      UpToSize(n - 1);
    }
  }

  /** The addresses in 1..n that are in use. */
  function Occupied(proxies: seq<Entry>, nodes: seq<Attached>, n: nat): set<nat> {
    set a | a in UpTo(n) && !IsFree(proxies, nodes, a)
  }

  /** With fewer than n of them in use, one of the addresses 1..n is free. */
  lemma OneIsFree(proxies: seq<Entry>, nodes: seq<Attached>, n: nat) returns (a: nat)
    requires |Occupied(proxies, nodes, n)| < n
    ensures 1 <= a <= n && IsFree(proxies, nodes, a)
  {
    UpToSize(n);
    var taken := Occupied(proxies, nodes, n);
    assert taken != UpTo(n);
    a :| a in UpTo(n) && a !in taken;
  }

  /** The first x becomes y. */
  function ReplaceFirst(s: seq<Attached>, x: Attached, y: Attached): seq<Attached> {
    if s == [] then [] else if s[0] == x then [y] + s[1..] else [s[0]] + ReplaceFirst(s[1..], x, y)
  }

  lemma {:induction false} ReplaceFirstAt(s: seq<Attached>, x: Attached, y: Attached, i: nat)
    requires i <= |s| && (forall j | 0 <= j < i :: s[j] != x) && (i < |s| ==> s[i] == x)
    ensures ReplaceFirst(s, x, y) == if i < |s| then s[i := y] else s
  {
    if i > 0 {
      ReplaceFirstAt(s[1..], x, y, i - 1);
      assert s == [s[0]] + s[1..];
    }
  }

  /** The new entry took the first slot that was not in use, and the slot was attached to the handler. */
  ghost predicate TakesFirstVacant(before: seq<Entry>, after: seq<Entry>, nodes: seq<Attached>, attached: seq<Attached>,
                                   e: Entry) {
    exists i :: 0 <= i < |before| && before[i].address == UNALLOCATED
                && (forall j | 0 <= j < i :: before[j].address != UNALLOCATED) && after == before[i := e]
                && attached == ReplaceFirst(nodes, Vacant, Slot(i))
  }

  class Hub {
    const proxies: array<Entry>
    const nodes: array<Attached>
    var own: nat
    var first: nat

    ghost predicate Valid()
      reads this, proxies, nodes
    {
      (proxies as object) != nodes && own < 256 && first <= FIRST_ADDRESS && Unique(proxies[..])
    }

    constructor (maxNodes: nat, handlerNodes: nat, own: nat)
      requires own < 256
      ensures Valid() && fresh(proxies) && fresh(nodes) && proxies.Length == maxNodes && nodes.Length == handlerNodes
      ensures (forall e | e in proxies[..] :: e == Blank()) && (forall n | n in nodes[..] :: n == Vacant)
      ensures this.own == own && first == 125
    {
      proxies := new Entry[maxNodes](_ => Blank());
      nodes := new Attached[handlerNodes](_ => Vacant);
      this.own, first := own, FIRST_ADDRESS;
    }

    /** The hub's isAddressFree. */
    method ProxyAddressFree(a: nat) returns (free: bool)
      ensures free == !UsedByProxy(proxies[..], a)
    {
      var i := 0;
      while i < proxies.Length
        invariant 0 <= i <= proxies.Length && forall j | 0 <= j < i :: proxies[j].address != a
      {
        if proxies[i].address == a {
          assert proxies[..][i].address == a;
          return false;
        }
        i := i + 1;
      }
      free := true;
    }

    /** The handler's isAddressFree. */
    method NodeAddressFree(a: nat) returns (free: bool)
      ensures free == !UsedByNode(proxies[..], nodes[..], a)
    {
      var i := 0;
      while i < nodes.Length
        invariant 0 <= i <= nodes.Length && forall j | 0 <= j < i :: AddressOf(proxies[..], nodes[j]) != a
      {
        if AddressOf(proxies[..], nodes[i]) == a {
          assert AddressOf(proxies[..], nodes[..][i]) == a;
          return false;
        }
        i := i + 1;
      }
      free := true;
    }

    method AddressFree(a: nat) returns (free: bool)
      ensures free == IsFree(proxies[..], nodes[..], a)
    {
      free := ProxyAddressFree(a);
      if free {
        free := NodeAddressFree(a);
      }
    }

    /** findFreeAddress: the preferred address, or the first free one on the way down. Some address must be free for the
        search to end; with fewer than `first` of them in use, it ends with the highest free one of 1..first. */
    method FindFreeAddress(preferred: nat) returns (address: nat)
      requires Valid() && preferred < 256
      requires exists w :: 0 <= w < 256 && IsFree(proxies[..], nodes[..], w)
      ensures address < 256 && IsFree(proxies[..], nodes[..], address)
      ensures preferred != 255 && IsFree(proxies[..], nodes[..], preferred) ==> address == preferred
      ensures !(preferred != 255 && IsFree(proxies[..], nodes[..], preferred)) && 0 < first
              && |Occupied(proxies[..], nodes[..], first)| < first && UsedByNode(proxies[..], nodes[..], own) ==>
                1 <= address && HighestFree(proxies[..], nodes[..], first, address)
    {
      var free := AddressFree(preferred);
      if preferred != RESERVED_ID && free {
        return preferred;
      }
      address := first;
      if address == own {
        address := Previous(address);
      }
      address := SearchDown(address);
      ghost var ps, ns := proxies[..], nodes[..];
      if 0 < first && |Occupied(ps, ns, first)| < first && UsedByNode(ps, ns, own) {
        var w := OneIsFree(ps, ns, first);
        assert w != own;
      }
    }

    method SearchDown(start: nat) returns (address: nat)
      requires Valid() && start < 256
      requires exists w :: 0 <= w < 256 && IsFree(proxies[..], nodes[..], w)
      ensures address < 256 && IsFree(proxies[..], nodes[..], address)
      ensures (exists w :: 0 <= w <= start && IsFree(proxies[..], nodes[..], w)) ==>
                HighestFree(proxies[..], nodes[..], start, address)
    {
      ghost var ps, ns := proxies[..], nodes[..];
      ghost var w :| 0 <= w < 256 && IsFree(ps, ns, w);
      address := start;
      var found := false;
      while !found
        invariant address < 256
        invariant found ==> IsFree(ps, ns, address)
        invariant (address <= start && forall b | address < b <= start :: !IsFree(ps, ns, b))
                  || (forall b | 0 <= b <= start :: !IsFree(ps, ns, b))
        decreases if found then 0 else 1 + (if address >= w then address - w else address + 256 - w)
      {
        found := AddressFree(address);
        if !found {
          address := Previous(address);
        }
      }
    }

    /** The handler's attach: the first vacant place, if there is one. */
    method Attach(i: nat)
      requires Valid() && i < proxies.Length
      modifies nodes
      ensures Valid() && nodes[..] == ReplaceFirst(old(nodes[..]), Vacant, Slot(i))
    {
      var j := 0;
      while j < nodes.Length
        invariant 0 <= j <= nodes.Length && nodes[..] == old(nodes[..])
        invariant forall k | 0 <= k < j :: nodes[..][k] != Vacant
      {
        if nodes[j] == Vacant {
          ReplaceFirstAt(nodes[..], Vacant, Slot(i), j);
          nodes[j] := Slot(i);
          return;
        }
        j := j + 1;
      }
      ReplaceFirstAt(nodes[..], Vacant, Slot(i), j);
    }

    /** The slot of the first proxy that is not in use, or the number of slots. */
    method VacantSlot() returns (i: nat)
      ensures i <= proxies.Length && (i < proxies.Length ==> proxies[i].address == UNALLOCATED)
      ensures forall j | 0 <= j < i :: proxies[j].address != UNALLOCATED
    {
      i := 0;
      while i < proxies.Length && proxies[i].address != UNALLOCATED
        invariant i <= proxies.Length && forall j | 0 <= j < i :: proxies[j].address != UNALLOCATED
      {
        i := i + 1;
      }
    }

    /** A new proxy with a free address keeps addresses unique. */
    lemma UniqueWith(ps: seq<Entry>, i: nat, e: Entry)
      requires Unique(ps) && i < |ps| && !UsedByProxy(ps, e.address)
      ensures Unique(ps[i := e])
    {
      assert forall j | 0 <= j < |ps| :: ps[j].address != e.address;
    }

    /** attachDevice: a device that is known keeps its address; a new one gets a free address and a slot, if there is
        one. */
    method AttachDevice(uid: seq<byte>) returns (address: nat)
      requires Valid() && exists w :: 0 <= w < 256 && IsFree(proxies[..], nodes[..], w)
      modifies proxies, nodes
      ensures Valid()
      ensures (exists i :: 0 <= i < proxies.Length && old(proxies[i].address) != UNALLOCATED && old(proxies[i].uid) == uid) ==>
                proxies[..] == old(proxies[..]) && nodes[..] == old(nodes[..])
                && exists i :: 0 <= i < proxies.Length && proxies[i].uid == uid && proxies[i].address == address != UNALLOCATED
      ensures (forall i | 0 <= i < proxies.Length :: old(proxies[i].address) == UNALLOCATED || old(proxies[i].uid) != uid) ==>
                && IsFree(old(proxies[..]), old(nodes[..]), address)
                && if UsedByProxy(old(proxies[..]), UNALLOCATED) && address != 255
                   then TakesFirstVacant(old(proxies[..]), proxies[..], old(nodes[..]), nodes[..], Entry(address, NoUid()))
                   else proxies[..] == old(proxies[..]) && nodes[..] == old(nodes[..])
    {
      var k := 0;
      while k < proxies.Length
        invariant 0 <= k <= proxies.Length
        invariant forall j | 0 <= j < k :: proxies[j].address == UNALLOCATED || proxies[j].uid != uid
      {
        if proxies[k].address != UNALLOCATED && proxies[k].uid == uid {
          return proxies[k].address;
        }
        k := k + 1;
      }
      ghost var ps := proxies[..];
      address := FindFreeAddress(RESERVED_ID);
      if address != RESERVED_ID {
        var i := VacantSlot();
        if i < proxies.Length {
          UniqueWith(ps, i, Entry(address, NoUid()));
          proxies[i] := Entry(address, NoUid());
          assert proxies[..] == ps[i := Entry(address, NoUid())];
          assert proxies[..][i].address == address;
          Attach(i);
        }
      }
    }

    /** The part of processGetNodeInfoResponse that reads the identifier of proxy i; a packet that is too short leaves
        the bytes it lacks as they were. */
    method ReadUid(i: nat, payload: seq<byte>)
      requires Valid() && i < proxies.Length
      modifies proxies
      ensures Valid() && |proxies[..]| == |old(proxies[..])|
      ensures forall k | 0 <= k < proxies.Length && k != i :: proxies[k] == old(proxies[k])
      ensures proxies[i].address == old(proxies[i].address)
      ensures forall j | 0 <= j < 16 ::
                proxies[i].uid[j] == if 24 + j < |payload| then payload[24 + j] else old(proxies[i].uid[j])
    {
      ghost var before, ps := proxies[i].uid, proxies[..];
      var uid := proxies[i].uid;
      var position := UID_POSITION;
      while position < UID_POSITION + UID_LENGTH
        invariant UID_POSITION <= position <= UID_POSITION + UID_LENGTH
        invariant forall j | 0 <= j < UID_LENGTH ::
                    uid[j] == if UID_POSITION + j < position && UID_POSITION + j < |payload|
                              then payload[UID_POSITION + j] else before[j]
      {
        if position < |payload| {
          uid := uid[position - UID_POSITION := payload[position]];
        }
        position := position + 1;
      }
      proxies[i] := Entry(proxies[i].address, uid);
      assert proxies[..] == ps[i := Entry(ps[i].address, uid)];
    }

    /** processNodeStatus: a node nobody knows yet takes a slot, if there is one. */
    method ProcessNodeStatus(source: nat)
      requires Valid()
      modifies proxies, nodes
      ensures Valid()
      ensures if UsedByProxy(old(proxies[..]), source) || !UsedByProxy(old(proxies[..]), UNALLOCATED)
              then proxies[..] == old(proxies[..]) && nodes[..] == old(nodes[..])
              else TakesFirstVacant(old(proxies[..]), proxies[..], old(nodes[..]), nodes[..], Entry(source, NoUid()))
    {
      ghost var ps := proxies[..];
      var unknown := ProxyAddressFree(source);
      if unknown {
        var i := VacantSlot();
        if i < proxies.Length {
          UniqueWith(ps, i, Entry(source, NoUid()));
          proxies[i] := Entry(source, NoUid());
          assert proxies[..] == ps[i := Entry(source, NoUid())] && ps[i].address == UNALLOCATED;
          Attach(i);
        }
      }
    }

    /** purge: the first proxy with this identifier is detached and its slot becomes vacant. */
    method Purge(uid: seq<byte>) returns (purged: bool)
      requires Valid()
      modifies proxies, nodes
      ensures Valid() && purged == exists i :: 0 <= i < proxies.Length && old(proxies[i].uid) == uid
      ensures !purged ==> proxies[..] == old(proxies[..]) && nodes[..] == old(nodes[..])
      ensures purged ==> exists i :: 0 <= i < proxies.Length && old(proxies[i].uid) == uid
                                     && (forall j | 0 <= j < i :: old(proxies[j].uid) != uid)
                                     && proxies[..] == old(proxies[..])[i := Blank()]
                                     && nodes[..] == ReplaceFirst(old(nodes[..]), Slot(i), Vacant)
    {
      ghost var ps := proxies[..];
      var k := 0;
      while k < proxies.Length
        invariant 0 <= k <= proxies.Length && forall j | 0 <= j < k :: proxies[j].uid != uid
        invariant proxies[..] == ps && nodes[..] == old(nodes[..])
      {
        if proxies[k].uid == uid {
          Detach(k);
          proxies[k] := Blank();
          assert proxies[..] == ps[k := Blank()] && ps[k].uid == uid;
          return true;
        }
        k := k + 1;
      }
      purged := false;
    }

    /** The handler's detach. */
    method Detach(i: nat)
      requires Valid()
      modifies nodes
      ensures Valid()
      ensures nodes[..] == ReplaceFirst(old(nodes[..]), Slot(i), Vacant)
    {
      var j := 0;
      while j < nodes.Length
        invariant 0 <= j <= nodes.Length && nodes[..] == old(nodes[..])
        invariant forall k | 0 <= k < j :: nodes[..][k] != Slot(i)
      {
        if nodes[j] == Slot(i) {
          ReplaceFirstAt(nodes[..], Slot(i), Vacant, j);
          nodes[j] := Vacant;
          return;
        }
        j := j + 1;
      }
      ReplaceFirstAt(nodes[..], Slot(i), Vacant, j);
    }
  }
}
