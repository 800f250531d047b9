/** The proxy of a remote device: its requests live in a pool and wait in a list, and every operation updates them in place. */
module Proxies {
  import opened Wrappers
  import opened Bits
  import opened ProxyModel
  import opened ProxyProperties
  import opened LinkedList
  import opened RequestPool

  const NONE := -1

  ghost predicate InRange(order: seq<int>, n: nat) {
    forall i | 0 <= i < |order| :: 0 <= order[i] < n
  }

  /** The requests in the slots the list names, in list order. */
  ghost function PendingOf(slots: seq<Request>, order: seq<int>): (rs: seq<Request>)
    requires InRange(order, |slots|)
    ensures |rs| == |order| && forall i | 0 <= i < |rs| :: rs[i] == slots[order[i]]
  {
    seq(|order|, i requires 0 <= i < |order| => slots[order[i]])
  }

  lemma {:induction false} FoundAt(pending: seq<Request>, kind: Service, number: nat, i: nat)
    requires i <= |pending|
    requires i < |pending| ==> pending[i].kind == kind && pending[i].number == number
    requires forall j | 0 <= j < i :: pending[j].kind != kind || pending[j].number != number
    ensures FindRequest(pending, kind, number) == i
  {
  }

  lemma {:induction false} ResponseIs(v: Proxy, kind: Service, number: nat, payload: seq<byte>, now: nat, i: nat,
                                      next: Proxy, told: seq<Event>)
    requires i == FindRequest(v.pending, kind, number) && (next, told) == Discover(v, kind, number, payload, now)
    ensures Response(v, kind, number, payload, now)
         == if i < |v.pending|
            then (next.(pending := WithoutAt(next.pending, i)), told + Respond(v.pending[i], v.types, payload))
            else (next, told)
  {
  }

  /** Discovery adds requests at the end only. */
  lemma DiscoverKeeps(v: Proxy, kind: Service, number: nat, payload: seq<byte>, now: nat)
    ensures v.pending <= Discover(v, kind, number, payload, now).0.pending
  {
  }

  /** Purging these requests, after all that has been told, tells all and leaves what is left. */
  ghost predicate Purging(p: seq<Request>, told: seq<Event>, now: nat, left: seq<Request>, all: seq<Event>)
    decreases |p|
  {
    if p == [] || p[0].deadline > now then p == left && told == all
    else Purging(p[1..], told + Expired(p[0]), now, left, all)
  }

  lemma {:induction false} PurgingIs(p: seq<Request>, told: seq<Event>, now: nat)
    ensures Purging(p, told, now, Remaining(p, now), told + TimedOut(p, now))
    decreases |p|
  {
    if p == [] || p[0].deadline > now {
      assert told + [] == told;
    } else {
      PurgingIs(p[1..], told + Expired(p[0]), now);
      assert (told + Expired(p[0])) + TimedOut(p[1..], now) == told + (Expired(p[0]) + TimedOut(p[1..], now));
    }
  }

  /** A waiting slot becomes a listed one. */
  lemma TakeSlot(n: nat, order: seq<int>, p: int, rest: seq<int>, waiting: seq<int>)
    requires waiting == [p] + rest && Shared(n, order, waiting) && InRange(order, n)
    ensures Shared(n, order + [p], rest) && InRange(order + [p], n) && p !in order
  {
    assert waiting[0] == p;
    forall i | 0 <= i < |rest| ensures rest[i] == waiting[i + 1] && rest[i] != p {
    }
    forall j | 0 <= j < |order| ensures order[j] != p {
      assert waiting[0] != order[j];
    }
  }

  lemma PendingTaken(slots: seq<Request>, order: seq<int>, p: int, r: Request)
    requires InRange(order, |slots|) && 0 <= p < |slots| && p !in order
    ensures InRange(order + [p], |slots|) && PendingOf(slots[p := r], order + [p]) == PendingOf(slots, order) + [r]
  {
  }

  lemma PendingCut(slots: seq<Request>, order: seq<int>, i: nat)
    requires InRange(order, |slots|) && i < |order|
    ensures InRange(Cut(order, i), |slots|)
    ensures PendingOf(slots, Cut(order, i)) == WithoutAt(PendingOf(slots, order), i)
  {
  }

  /** A proxy after its construction. */
  function Start(maxRequests: nat, maxFields: nat, attached: bool, now: nat): (p: Proxy)
    ensures Ok(p)
  {
    Proxy(attached, maxRequests, maxFields, REQUEST_NODE_INFO, MAX_RETRIES, [], now, Numbers(0, 0, 0, 0, 0, 0, 0), [])
  }

  // Every public operation is a step of the state machine, so that Ok of the view is kept by StepOk.

  class CanProxy {
    const pool: Pool<Request>
    const requests: List<int>
    const types: array<byte>
    var attached: bool
    var mode: Mode
    var retries: nat
    var fields: nat
    var nextRequestTime: nat
    var numbers: Numbers

    /** The pool and the list. */
    ghost function Lists(): set<object> {
      {pool, pool.requests, pool.requests.data, pool.slots, requests, requests.nodes, requests.pool}
    }

    ghost function Parts(): set<object> {
      {this, types} + Lists()
    }

    /** No array serves two purposes. */
    ghost predicate Separate()
    {
      && pool.requests.data != requests.pool && (pool.requests.data as object) != requests.nodes
      && (pool.slots as object) != requests.nodes && (pool.slots as object) != requests.pool
      && (types as object) != pool.slots && (types as object) != pool.requests.data
      && (types as object) != requests.nodes && (types as object) != requests.pool
    }

    /** Every slot of the pool is either listed or waiting, never both. */
    ghost predicate Listed()
      reads Lists()
    {
      var listed := && pool.Valid() && requests.Valid() && Separate()
        && requests.nodes.Length == pool.slots.Length && InRange(requests.Contents(), pool.slots.Length)
        && Shared(pool.slots.Length, requests.Contents(), pool.Waiting());
      listed
    }

    ghost predicate Valid()
      reads Parts()
    {
      Listed() && fields <= types.Length
    }

    ghost function Pending(): seq<Request>
      requires Listed()
      reads Lists()
    {
      PendingOf(pool.slots[..], requests.Contents())
    }

    ghost function View(): Proxy
      requires Valid()
      reads Parts()
    {
      Proxy(attached, pool.slots.Length, types.Length, mode, retries, types[..fields], nextRequestTime, numbers, Pending())
    }

    constructor (maxRequests: nat, maxFields: nat, attached: bool, now: nat)
      ensures Valid() && fresh(pool) && fresh(pool.slots) && fresh(pool.requests) && fresh(pool.requests.data)
      ensures fresh(requests) && fresh(requests.nodes) && fresh(requests.pool) && fresh(types)
      ensures View() == Start(maxRequests, maxFields, attached, now)
    {
      pool := new Pool<Request>(maxRequests, Request(Other, 0, 0, None, 0, 0));
      requests := new List<int>(maxRequests, 0);
      types := new byte[maxFields];
      this.attached, mode, retries, fields := attached, REQUEST_NODE_INFO, MAX_RETRIES, 0;
      nextRequestTime, numbers := now, Numbers(0, 0, 0, 0, 0, 0, 0);
    }

    /** A descriptor from the pool goes to the end of the list. */
    method Append(r: Request) returns (ok: bool)
      requires Valid()
      modifies pool.requests, pool.requests.data, pool.slots, requests, requests.nodes, requests.pool
      ensures Valid() && ok == (|old(Pending())| < pool.slots.Length)
      ensures Pending() == if ok then old(Pending()) + [r] else old(Pending())
      ensures old(requests.Contents()) <= requests.Contents()
    {
      ghost var order, waiting := requests.Contents(), pool.Waiting();
      var p := pool.Alloc(r);
      ok := p != NONE;
      if ok {
        TakeSlot(pool.slots.Length, order, p, pool.Waiting(), waiting);
        PendingTaken(old(pool.slots[..]), order, p, r);
        ListSlot(p);
      }
    }

    /** The slot taken from the pool joins the list. */
    method ListSlot(p: int)
      requires pool.Valid() && requests.Valid() && Separate() && requests.nodes.Length == pool.slots.Length
      requires InRange(requests.Contents() + [p], pool.slots.Length)
      requires Shared(pool.slots.Length, requests.Contents() + [p], pool.Waiting())
      modifies requests, requests.nodes, requests.pool
      ensures Listed() && requests.Contents() == old(requests.Contents()) + [p]
    {
      requests.PushBack(p);
    }

    /** A descriptor, its place in the list, and the message; nothing when the pool is empty. */
    method Submit(kind: Service, id: nat, position: nat, data: seq<byte>, caller: Option<nat>, now: nat)
      returns (ok: bool, events: seq<Event>)
      requires Valid()
      modifies this, pool.requests, pool.requests.data, pool.slots, requests, requests.nodes, requests.pool
      ensures Valid() && ok == (|old(View()).pending| < old(View()).maxRequests)
      ensures if ok then (View(), events) == Enqueue(old(View()), kind, id, position, data, caller, now)
              else View() == old(View()) && events == []
      ensures old(requests.Contents()) <= requests.Contents()
    {
      var number := Number(numbers, kind);
      ok := Append(Request(kind, number, now + REQUEST_TIMEOUT, caller, id, position));
      events := [];
      if ok {
        CountNumber(kind);
        events := [Send(kind, number, id, position, data)];
      }
    }

    method CountNumber(kind: Service)
      requires Valid()
      modifies this`numbers
      ensures Valid() && View() == old(View()).(numbers := Advanced(old(View()).numbers, kind))
    {
      numbers := Advanced(numbers, kind);
    }

    /** findRequestDescriptor. */
    method FindRequestDescriptor(kind: Service, number: nat) returns (slot: int, ghost i: nat)
      requires Valid()
      ensures i == FindRequest(Pending(), kind, number)
      ensures slot == if i < |Pending()| then requests.Contents()[i] else NONE
    {
      var iter := requests.first;
      i := 0;
      while iter != NONE
        invariant i <= |requests.order| && iter == Nth(requests.order, i)
        invariant forall j | 0 <= j < i :: Pending()[j].kind != kind || Pending()[j].number != number
        decreases |requests.order| - i
      {
        assert Follows(requests.nodes[..], requests.order, i);
        var descriptor := requests.nodes[iter].data;
        assert descriptor == requests.Contents()[i];
        assert Pending()[i] == pool.slots[descriptor];
        if pool.slots[descriptor].kind == kind && pool.slots[descriptor].number == number {
          FoundAt(Pending(), kind, number, i);
          return descriptor, i;
        }
        iter := requests.nodes[iter].next;
        i := i + 1;
      }
      FoundAt(Pending(), kind, number, i);
      slot := NONE;
    }

    /** The descriptor leaves the list and goes back to the pool. */
    method Release(slot: int, ghost i: nat)
      requires Valid() && i < |Pending()| && slot == requests.Contents()[i]
      modifies requests, requests.nodes, requests.pool, pool.requests, pool.requests.data
      ensures Valid() && View() == old(View()).(pending := WithoutAt(old(Pending()), i))
    {
      CanLeave(requests.Contents(), pool.Waiting(), i);
      requests.Erase(slot);
      pool.Free(slot, 0);
    }

    lemma CanLeave(order: seq<int>, waiting: seq<int>, i: nat)
      requires i < |order| && Shared(pool.slots.Length, order, waiting) && InRange(order, pool.slots.Length)
      ensures order[i] !in waiting && |waiting| < pool.slots.Length && RemoveFirst(order, order[i]) == Cut(order, i)
      ensures Shared(pool.slots.Length, Cut(order, i), waiting + [order[i]]) && InRange(Cut(order, i), pool.slots.Length)
      ensures PendingOf(pool.slots[..], Cut(order, i)) == WithoutAt(PendingOf(pool.slots[..], order), i)
    {
      RemoveFirstAt(order, order[i], i);
      CutShared(pool.slots.Length, order, waiting, i);
      PendingCut(pool.slots[..], order, i);
      SlotIsTaken(order, waiting, i);
    }

    lemma SlotIsTaken(order: seq<int>, waiting: seq<int>, i: nat)
      requires i < |order| && Shared(pool.slots.Length, order, waiting)
      ensures order[i] !in waiting && |waiting| < pool.slots.Length
    {
    }

    function OutcomeOf(r: Request, detached: bool): seq<Event> {
      if detached then Detached(r) else Expired(r)
    }

    /** One round of either purge loop: off the list, the callback, back to the pool. */
    method RetireFirst(detached: bool) returns (events: seq<Event>)
      requires Valid() && requests.first != NONE
      modifies requests, requests.nodes, requests.pool, pool.requests, pool.requests.data
      ensures old(Pending()) != [] && Valid() && View() == old(View()).(pending := old(Pending())[1..])
      ensures events == OutcomeOf(old(Pending())[0], detached)
    {
      var iter := requests.first;
      var descriptor := requests.nodes[iter].data;
      CanLeave(requests.Contents(), pool.Waiting(), 0);
      assert WithoutAt(Pending(), 0) == Pending()[1..];
      var _ := requests.EraseNode(iter, 0);
      events := OutcomeOf(pool.slots[descriptor], detached);
      pool.Free(descriptor, 0);
    }

    /** The deadline at the front of the list. */
    method FirstDeadline() returns (d: Option<nat>)
      requires Valid()
      ensures d == if Pending() == [] then None else Some(Pending()[0].deadline)
    {
      d := if requests.first == NONE then None else Some(pool.slots[requests.nodes[requests.first].data].deadline);
    }

    /** One round of the loop. */
    method ExpireFirst(told: seq<Event>, now: nat, ghost left: seq<Request>, ghost all: seq<Event>)
      returns (events: seq<Event>, wake: Option<nat>)
      requires Valid() && Purging(Pending(), told, now, left, all) && Pending() != [] && Pending()[0].deadline <= now
      modifies requests, requests.nodes, requests.pool, pool.requests, pool.requests.data
      ensures Valid() && View() == old(View()).(pending := Pending()) && |Pending()| < |old(Pending())|
      ensures Purging(Pending(), events, now, left, all)
      ensures wake == if Pending() == [] then None else Some(Pending()[0].deadline)
    {
      var more := RetireFirst(false);
      events := told + more;
      wake := FirstDeadline();
    }

    /** purgeTimedOutDescriptors. */
    method PurgeTimedOut(now: nat) returns (events: seq<Event>, wake: Option<nat>)
      requires Valid()
      modifies requests, requests.nodes, requests.pool, pool.requests, pool.requests.data
      ensures Valid() && View() == old(View()).(pending := Remaining(old(Pending()), now))
      ensures events == TimedOut(old(Pending()), now)
      ensures wake == if Pending() == [] then None else Some(Pending()[0].deadline)
    {
      events := [];
      ghost var all, left := events + TimedOut(Pending(), now), Remaining(Pending(), now);
      PurgingIs(Pending(), events, now);
      assert all == TimedOut(Pending(), now);
      wake := FirstDeadline();
      while wake != None && wake.value <= now
        invariant Valid() && View() == old(View()).(pending := Pending()) && Purging(Pending(), events, now, left, all)
        invariant wake == if Pending() == [] then None else Some(Pending()[0].deadline)
        decreases |Pending()|
      {
        events, wake := ExpireFirst(events, now, left, all);
      }
    }

    method DetachFirst(told: seq<Event>, ghost all: seq<Event>) returns (events: seq<Event>)
      requires Valid() && requests.first != NONE && told + AllDetached(Pending()) == all
      modifies requests, requests.nodes, requests.pool, pool.requests, pool.requests.data
      ensures Valid() && View() == old(View()).(pending := Pending()) && |Pending()| < |old(Pending())|
      ensures events + AllDetached(Pending()) == all
    {
      var more := RetireFirst(true);
      events := told + more;
      assert told + (more + AllDetached(Pending())) == events + AllDetached(Pending());
    }

    /** purgeRequestDescriptors. */
    method PurgeAll() returns (events: seq<Event>)
      requires Valid()
      modifies requests, requests.nodes, requests.pool, pool.requests, pool.requests.data
      ensures Valid() && View() == old(View()).(pending := []) && events == AllDetached(old(Pending()))
    {
      events := [];
      ghost var all := AllDetached(Pending());
      assert [] + all == all;
      while requests.first != NONE
        invariant Valid() && View() == old(View()).(pending := Pending())
        invariant events + AllDetached(Pending()) == all
        decreases |Pending()|
      {
        events := DetachFirst(events, all);
      }
      assert events + [] == events;
    }

    /** fieldRequestInfo, fieldRead, fieldWrite, fileRequestInfo, fileRead and fileWrite differ in the service and the
        message only. */
    method Require(kind: Service, id: nat, position: nat, data: seq<byte>, caller: Option<nat>, now: nat)
      returns (events: seq<Event>)
      requires Valid() && Ok(View()) && Askable(kind)
      modifies this, pool.requests, pool.requests.data, pool.slots, requests, requests.nodes, requests.pool
      ensures Valid() && (View(), events) == Ask(old(View()), kind, id, position, data, caller, now)
    {
      var result := SUCCESS;
      events := [];
      if !AboutField(kind) || id < fields {
        if attached {
          var ok;
          ok, events := Submit(kind, id, position, data, caller, now);
          if !ok {
            result := QUEUE_ERROR;
          }
        } else {
          result := COMMAND_ERROR;
        }
      } else {
        result := FIELD_NOT_FOUND;
      }
      if result != SUCCESS && caller != None {
        events := [Callback(caller.value, kind, id, RefusalOf(kind, position, result))];
      }
    }

    method SendFieldRequest(field: nat, now: nat) returns (events: seq<Event>)
      requires Valid()
      modifies this, pool.requests, pool.requests.data, pool.slots, requests, requests.nodes, requests.pool
      ensures Valid() && (View(), events) == SendGetFieldInfo(old(View()), field, now)
      ensures old(requests.Contents()) <= requests.Contents()
    {
      var ok;
      ok, events := Submit(GetFieldInfo, field, 0, [], None, now);
    }

    /** Asking for the node information once more costs no descriptor. */
    method TryNodeInfo(ghost now: nat) returns (events: seq<Event>)
      requires Valid() && mode == REQUEST_NODE_INFO
      modifies this
      ensures Valid() && (View(), events) == Attempt(old(View()), now)
    {
      events := [];
      if retries > 0 {
        retries := retries - 1;
        events := [Send(GetNodeInfo, numbers.getNodeInfo, 0, 0, [])];
        numbers := Advanced(numbers, GetNodeInfo);
      } else {
        mode := ERROR;
      }
    }

    method TryFields(now: nat) returns (events: seq<Event>)
      requires Valid() && mode == REQUEST_FIELDS
      modifies this, pool.requests, pool.requests.data, pool.slots, requests, requests.nodes, requests.pool
      ensures Valid() && (View(), events) == Attempt(old(View()), now)
    {
      if retries > 0 {
        retries := retries - 1;
        events := SendFieldRequest(fields, now);
      } else {
        events := EnterIdle();
      }
    }

    /** The switch over the discovery state. */
    method TryAgain(now: nat) returns (events: seq<Event>)
      requires Valid() && Discovering(View())
      modifies this, pool.requests, pool.requests.data, pool.slots, requests, requests.nodes, requests.pool
      ensures Valid() && (View(), events) == Attempt(old(View()), now)
    {
      if mode == REQUEST_NODE_INFO {
        events := TryNodeInfo(now);
      } else {
        events := TryFields(now);
      }
    }

    method TryNow(now: nat) returns (events: seq<Event>)
      requires Valid() && Discovering(View())
      modifies this, pool.requests, pool.requests.data, pool.slots, requests, requests.nodes, requests.pool
      ensures Valid() && nextRequestTime == now + REQUEST_TIMEOUT && events == Attempt(old(View()), now).1
      ensures View() == Attempt(old(View()), now).0.(nextRequestTime := now + REQUEST_TIMEOUT)
    {
      events := TryAgain(now);
      nextRequestTime := now + REQUEST_TIMEOUT;
    }

    /** onTimeoutOccurred; `turn` says that this is the next node to be initialized. */
    method OnTimeoutOccurred(turn: bool, now: nat) returns (events: seq<Event>, wake: Option<nat>)
      requires Valid() && Ok(View())
      modifies this, pool.requests, pool.requests.data, pool.slots, requests, requests.nodes, requests.pool
      ensures Valid() && (View(), events) == Tick(old(View()), turn, now) && wake == Wake(old(View()), turn, now)
    {
      events, wake := PurgeTimedOut(now);
      if (mode != IDLE && mode != ERROR) && turn && now >= nextRequestTime {
        var more := TryNow(now);
        events := events + more;
        if wake == None || nextRequestTime < wake.value {
          wake := Some(nextRequestTime);
        }
      }
    }

    /** processGetNodeInfoResponse: the parts of the packet, one after the other. */
    method NodeInfoParts(payload: seq<byte>) returns (complete: bool)
      ensures complete == NodeInfoComplete(payload)
    {
      var part, position := 0, 0;
      while position < |payload|
        invariant part == 0 ==> position == 0
        invariant part == 1 ==> position == 7 && 0 < |payload|
        invariant part == 2 ==> position == 24 && 7 < |payload|
        invariant part == 3 ==> position == 40 && 24 < |payload|
        invariant part == 4 ==> 40 < |payload| && position == 41 + payload[40] as nat
        invariant part == 5 ==> position == |payload| && NodeInfoComplete(payload)
        invariant 0 <= part <= 5
        decreases 5 - part
      {
        if part == 0 {
          position := position + 7;
        } else if part == 1 {
          position := position + 17;
        } else if part == 2 {
          position := position + 16;
        } else if part == 3 {
          position := position + 1 + payload[position] as nat;
        } else {
          position := |payload|;
        }
        part := part + 1;
      }
      complete := part == 5;
    }

    method ProcessNodeInfo(payload: seq<byte>, now: nat) returns (events: seq<Event>)
      requires Valid()
      modifies this, pool.requests, pool.requests.data, pool.slots, requests, requests.nodes, requests.pool
      ensures Valid() && (View(), events) == NodeInfoArrived(old(View()), payload, now)
      ensures old(requests.Contents()) <= requests.Contents()
    {
      events := [];
      if mode == REQUEST_NODE_INFO {
        var complete := NodeInfoParts(payload);
        if complete {
          events := StartFields(now);
        }
      }
    }

    method StartFields(now: nat) returns (events: seq<Event>)
      requires Valid()
      modifies this, pool.requests, pool.requests.data, pool.slots, requests, requests.nodes, requests.pool
      ensures Valid() && old(requests.Contents()) <= requests.Contents()
      ensures (View(), events) == if types.Length > 0
                                  then SendGetFieldInfo(old(View()).(mode := REQUEST_FIELDS, retries := MAX_RETRIES), 0, now)
                                  else BecomeReady(old(View()))
    {
      if types.Length > 0 {
        mode, retries := REQUEST_FIELDS, MAX_RETRIES;
        events := SendFieldRequest(0, now);
      } else {
        events := EnterIdle();
      }
    }

    method AppendField(fieldType: byte)
      requires Valid() && fields < types.Length
      modifies this`fields, types
      ensures Valid() && View() == old(View()).(types := old(View()).types + [fieldType])
    {
      ghost var before := types[..fields];
      types[fields] := fieldType;
      fields := fields + 1;
      assert types[..fields] == before + [fieldType];
    }

    method EnterIdle() returns (events: seq<Event>)
      requires Valid()
      modifies this`mode
      ensures Valid() && (View(), events) == BecomeReady(old(View()))
    {
      mode := IDLE;
      events := [Ready];
    }

    /** Asks for the next field, or is ready when the table is full. */
    method NextField(now: nat) returns (events: seq<Event>)
      requires Valid()
      modifies this, pool.requests, pool.requests.data, pool.slots, requests, requests.nodes, requests.pool
      ensures Valid() && old(requests.Contents()) <= requests.Contents()
      ensures (View(), events) == if fields < types.Length
                                  then SendGetFieldInfo(old(View()).(retries := MAX_RETRIES), old(fields), now)
                                  else BecomeReady(old(View()))
    {
      if fields < types.Length {
        retries := MAX_RETRIES;
        events := SendFieldRequest(fields, now);
      } else {
        events := EnterIdle();
      }
    }

    /** The part of processGetFieldInfoResponse that moves discovery on. */
    method ProcessFieldInfo(field: nat, payload: seq<byte>, now: nat) returns (events: seq<Event>)
      requires Valid() && payload != [] && (mode == REQUEST_FIELDS ==> fields < types.Length)
      modifies this, types, pool.requests, pool.requests.data, pool.slots, requests, requests.nodes, requests.pool
      ensures Valid() && (View(), events) == FieldInfoArrived(old(View()), field, payload, now)
      ensures old(requests.Contents()) <= requests.Contents()
    {
      events := [];
      if payload[0] == SUCCESS {
        if mode == REQUEST_FIELDS && field == fields {
          AppendField(FieldTypeIn(payload));
          events := NextField(now);
        }
      } else if mode == REQUEST_FIELDS && payload[0] == FIELD_NOT_FOUND {
        events := EnterIdle();
      }
    }

    /** The callback of a response that found its descriptor, after discovery has had its turn. */
    method Notify(slot: int, known: seq<byte>, payload: seq<byte>) returns (events: seq<Event>)
      requires 0 <= slot < pool.slots.Length
      ensures events == Respond(pool.slots[slot], known, payload)
    {
      var r := pool.slots[slot];
      if (r.kind.FieldRead? || r.kind.FieldWrite?) && r.id >= |known| {
        return [];
      }
      if !GoodLength(r.kind, |payload|) {
        return Call(r.caller, r.kind, r.id, RefusalOf(r.kind, r.position, COMMAND_ERROR));
      }
      return Call(r.caller, r.kind, r.id, AnswerTo(r, known, payload));
    }

    method DiscoverFrom(slot: int, kind: Service, number: nat, payload: seq<byte>, now: nat, ghost i: nat)
      returns (events: seq<Event>)
      requires Valid() && i == FindRequest(Pending(), kind, number) && (mode == REQUEST_FIELDS ==> fields < types.Length)
      requires slot == if i < |Pending()| then requests.Contents()[i] else NONE
      modifies this, types, pool.requests, pool.requests.data, pool.slots, requests, requests.nodes, requests.pool
      ensures Valid() && (View(), events) == Discover(old(View()), kind, number, payload, now)
      ensures old(requests.Contents()) <= requests.Contents()
    {
      events := [];
      if kind == GetNodeInfo {
        events := ProcessNodeInfo(payload, now);
      } else if kind == GetFieldInfo && slot != NONE {
        assert Pending()[i] == pool.slots[slot];
        if GoodLength(kind, |payload|) {
          events := ProcessFieldInfo(pool.slots[slot].id, payload, now);
        }
      }
    }

    /** processServiceResponse. */
    method ProcessServiceResponse(kind: Service, number: nat, payload: seq<byte>, now: nat) returns (events: seq<Event>)
      requires Valid() && Ok(View())
      modifies this, types, pool.requests, pool.requests.data, pool.slots, requests, requests.nodes, requests.pool
      ensures Valid() && (View(), events) == Response(old(View()), kind, number, payload, now)
    {
      ghost var v := View();
      var known := types[..fields];
      var slot;
      ghost var i;
      slot, i := FindRequestDescriptor(kind, number);
      events := DiscoverFrom(slot, kind, number, payload, now, i);
      ghost var next, told := View(), events;
      DiscoverKeeps(v, kind, number, payload, now);
      events := SettleKnown(slot, known, payload, events, i);
      ResponseIs(v, kind, number, payload, now, i, next, told);
    }

    /** An answered request is settled; an unknown number is nobody's answer. */
    method SettleKnown(slot: int, known: seq<byte>, payload: seq<byte>, told: seq<Event>, ghost i: nat)
      returns (events: seq<Event>)
      requires Valid() && (slot != NONE ==> i < |Pending()| && slot == requests.Contents()[i])
      modifies requests, requests.nodes, requests.pool, pool.requests, pool.requests.data
      ensures Valid()
      ensures (View(), events) == if slot == NONE then (old(View()), told)
                                  else (old(View()).(pending := WithoutAt(old(Pending()), i)),
                                        told + Respond(old(Pending())[i], known, payload))
    {
      events := told;
      if slot != NONE {
        var more := Settle(slot, known, payload, i);
        events := events + more;
      }
    }

    /** The callback, and then the descriptor goes. */
    method Settle(slot: int, known: seq<byte>, payload: seq<byte>, ghost i: nat) returns (events: seq<Event>)
      requires Valid() && i < |Pending()| && slot == requests.Contents()[i]
      modifies requests, requests.nodes, requests.pool, pool.requests, pool.requests.data
      ensures Valid() && View() == old(View()).(pending := WithoutAt(old(Pending()), i))
      ensures events == Respond(old(Pending())[i], known, payload)
    {
      assert Pending()[i] == pool.slots[slot];
      events := Notify(slot, known, payload);
      Release(slot, i);
    }

    /** Assigning the proxy anew. */
    method Assign(attached: bool, now: nat) returns (events: seq<Event>)
      requires Valid()
      modifies this, requests, requests.nodes, requests.pool, pool.requests, pool.requests.data
      ensures Valid() && (View(), events) == Reset(old(View()), attached, now)
    {
      events := PurgeAll();
      StartOver(attached, now);
    }

    method StartOver(attached: bool, now: nat)
      requires Valid() && Pending() == []
      modifies this
      ensures Valid() && View() == Reset(old(View()), attached, now).0
    {
      this.attached, nextRequestTime, retries, fields := attached, now, MAX_RETRIES, 0;
      mode, numbers := REQUEST_NODE_INFO, Numbers(0, 0, 0, 0, 0, 0, 0);
      assert types[..fields] == [];
    }
  }
}
