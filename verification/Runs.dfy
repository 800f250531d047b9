/** Runs of a machine that serves one client step by step, whatever else happens in between. */
module Runs {
  import opened Wrappers

  type Stepper<!S, !E, +O> = (S, E) -> (S, Option<O>)

  /** Where a run ends, and what its events produce. */
  function Final<S, E, O>(step: Stepper<S, E, O>, s: S, events: seq<E>): S
    decreases |events|
  {
    if events == [] then s else Final(step, step(s, events[0]).0, events[1..])
  }

  function AllOutputs<S, E, O>(step: Stepper<S, E, O>, s: S, events: seq<E>): (os: seq<Option<O>>)
    ensures |os| == |events|
    decreases |events|
  {
    if events == [] then [] else [step(s, events[0]).1] + AllOutputs(step, step(s, events[0]).0, events[1..])
  }

  /** The events of a client, in order, and what they produce. */
  function Own<E>(events: seq<E>, own: E -> bool): seq<E> {
    if events == [] then [] else (if own(events[0]) then [events[0]] else []) + Own(events[1..], own)
  }

  function Outputs<S, E, O>(step: Stepper<S, E, O>, s: S, events: seq<E>, own: E -> bool): seq<Option<O>>
    decreases |events|
  {
    if events == [] then []
    else
      (if own(events[0]) then [step(s, events[0]).1] else []) + Outputs(step, step(s, events[0]).0, events[1..], own)
  }

  /** The outputs with a mark, in order. */
  function Marked<O>(os: seq<Option<O>>, mark: O -> bool): seq<O> {
    if os == [] then [] else (if os[0].Some? && mark(os[0].value) then [os[0].value] else []) + Marked(os[1..], mark)
  }

  /** Every event of the run is permitted when it comes; k events of the client came before. */
  predicate Permitted<S, E, O>(step: Stepper<S, E, O>, s: S, events: seq<E>, own: E -> bool, permits: (S, E, nat) -> bool,
                               k: nat)
    decreases |events|
  {
    events != [] ==>
      && permits(s, events[0], k)
      && Permitted(step, step(s, events[0]).0, events[1..], own, permits, if own(events[0]) then k + 1 else k)
  }

  /** The client's events are numbers k, k + 1, ..., count - 1 of its sequence. */
  ghost predicate Carries<E>(events: seq<E>, own: E -> bool, isNext: (E, nat) -> bool, k: nat, count: nat) {
    var mine := Own(events, own);
    |mine| + k == count && forall j: nat | j < |mine| :: isNext(mine[j], k + j)
  }

  /** Events of others leave the client's stage alone, before, between and after its own. */
  ghost predicate Isolated<S(!new), E(!new), O>(step: Stepper<S, E, O>, own: E -> bool, count: nat, stage: (S, nat) -> bool,
                                                permits: (S, E, nat) -> bool) {
    forall s: S, e: E, k: nat {:trigger stage(step(s, e).0, k)} ::
      !own(e) && k <= count && stage(s, k) && permits(s, e, k) ==> stage(step(s, e).0, k)
  }

  /** The client's event k moves it from stage k to stage k + 1 and produces nothing. */
  ghost predicate Advances<S(!new), E(!new), O>(step: Stepper<S, E, O>, isNext: (E, nat) -> bool, count: nat,
                                                stage: (S, nat) -> bool, permits: (S, E, nat) -> bool) {
    forall s: S, e: E, k: nat {:trigger step(s, e), isNext(e, k)} ::
      isNext(e, k) && k + 1 < count && stage(s, k) && permits(s, e, k) ==> step(s, e).1.None? && stage(step(s, e).0, k + 1)
  }

  /** Its last event produces what is expected, an output or nothing, and leaves the last stage. */
  ghost predicate Finishes<S(!new), E(!new), O(!new)>(step: Stepper<S, E, O>, isNext: (E, nat) -> bool, count: nat,
                                                      stage: (S, nat) -> bool, permits: (S, E, nat) -> bool, expected: E -> Option<O>) {
    forall s: S, e: E, k: nat {:trigger step(s, e), isNext(e, k)} ::
      isNext(e, k) && k + 1 == count && stage(s, k) && permits(s, e, k) ==>
        step(s, e).1 == expected(e) && stage(step(s, e).0, count)
  }

  /** The marked outputs are those of the client's events. */
  ghost predicate Tells<S(!new), E(!new), O(!new)>(step: Stepper<S, E, O>, own: E -> bool, mark: O -> bool) {
    forall s: S, e: E {:trigger step(s, e)} :: step(s, e).1.Some? ==> mark(step(s, e).1.value) == own(e)
  }

  /** n empty outputs, then o. */
  function OnlyLast<O>(n: nat, o: Option<O>): seq<Option<O>> {
    if n == 0 then [o] else [None] + OnlyLast(n - 1, o)
  }

  /** The client's events produce nothing before its last event, and what is expected with it. */
  ghost predicate OnceAtTheEnd<S, E, O(!new)>(step: Stepper<S, E, O>, s: S, events: seq<E>, own: E -> bool, count: nat,
                                              expected: E -> Option<O>) {
    var mine := Own(events, own);
    && count > 0 && |mine| == count
    && Outputs(step, s, events, own) == OnlyLast(count - 1, expected(mine[count - 1]))
  }

  lemma CarriesFirst<E>(events: seq<E>, own: E -> bool, isNext: (E, nat) -> bool, k: nat, count: nat)
    requires events != [] && Carries(events, own, isNext, k, count)
    ensures own(events[0]) ==> k < count && isNext(events[0], k) && Carries(events[1..], own, isNext, k + 1, count)
    ensures !own(events[0]) ==> Carries(events[1..], own, isNext, k, count)
  {
    var mine, rest := Own(events, own), Own(events[1..], own);
    if own(events[0]) {
      assert mine == [events[0]] + rest;
      assert isNext(mine[0], k + 0);
      forall j: nat | j < |rest| ensures isNext(rest[j], k + 1 + j) {
        assert rest[j] == mine[j + 1];
        assert isNext(mine[j + 1], k + (j + 1));
      }
    } else {
      assert mine == rest;
    }
  }

  lemma OwnFirst<S, E, O>(step: Stepper<S, E, O>, s: S, events: seq<E>, own: E -> bool)
    requires events != [] && own(events[0])
    ensures Own(events, own) == [events[0]] + Own(events[1..], own)
    ensures Outputs(step, s, events, own) == [step(s, events[0]).1] + Outputs(step, step(s, events[0]).0, events[1..], own)
    ensures Final(step, s, events) == Final(step, step(s, events[0]).0, events[1..])
  {
  }

  lemma OthersFirst<S, E, O>(step: Stepper<S, E, O>, s: S, events: seq<E>, own: E -> bool)
    requires events != [] && !own(events[0])
    ensures Own(events, own) == Own(events[1..], own)
    ensures Outputs(step, s, events, own) == Outputs(step, step(s, events[0]).0, events[1..], own)
    ensures Final(step, s, events) == Final(step, step(s, events[0]).0, events[1..])
  {
  }

  /** A machine that serves the client one step at a time serves it over every run: no output but the one expected on the
      client's last event, and the last stage from then on. */
  lemma {:induction false} ServedOnce<S(!new), E(!new), O(!new)>(
      step: Stepper<S, E, O>, s: S, events: seq<E>, own: E -> bool, isNext: (E, nat) -> bool, k: nat, count: nat,
      stage: (S, nat) -> bool, permits: (S, E, nat) -> bool, expected: E -> Option<O>)
    requires Isolated(step, own, count, stage, permits) && Advances(step, isNext, count, stage, permits)
    requires Finishes(step, isNext, count, stage, permits, expected) && k <= count
    requires stage(s, k) && Permitted(step, s, events, own, permits, k) && Carries(events, own, isNext, k, count)
    ensures stage(Final(step, s, events), count)
    ensures var mine := Own(events, own);
            if k == count then Outputs(step, s, events, own) == []
            else mine != [] && Outputs(step, s, events, own) == OnlyLast(count - 1 - k, expected(mine[|mine| - 1]))
    decreases |events|
  {
    if events != [] {
      CarriesFirst(events, own, isNext, k, count);
      var e, rest, next := events[0], events[1..], step(s, events[0]).0;
      OneServed(step, s, e, own, isNext, k, count, stage, permits, expected);
      if own(e) {
        ServedOnce(step, next, rest, own, isNext, k + 1, count, stage, permits, expected);
        OwnFirst(step, s, events, own);
      } else {
        ServedOnce(step, next, rest, own, isNext, k, count, stage, permits, expected);
        OthersFirst(step, s, events, own);
      }
    }
  }

  /** One event. */
  lemma OneServed<S(!new), E(!new), O(!new)>(
      step: Stepper<S, E, O>, s: S, e: E, own: E -> bool, isNext: (E, nat) -> bool, k: nat, count: nat,
      stage: (S, nat) -> bool, permits: (S, E, nat) -> bool, expected: E -> Option<O>)
    requires Isolated(step, own, count, stage, permits) && Advances(step, isNext, count, stage, permits)
    requires Finishes(step, isNext, count, stage, permits, expected) && k <= count
    requires stage(s, k) && permits(s, e, k) && (own(e) ==> k < count && isNext(e, k))
    ensures stage(step(s, e).0, if own(e) then k + 1 else k)
    ensures own(e) ==> step(s, e).1 == if k + 1 == count then expected(e) else None
  {
  }

  lemma {:induction false} ServedFromStart<S(!new), E(!new), O(!new)>(
      step: Stepper<S, E, O>, s: S, events: seq<E>, own: E -> bool, isNext: (E, nat) -> bool, count: nat,
      stage: (S, nat) -> bool, permits: (S, E, nat) -> bool, expected: E -> Option<O>)
    requires Isolated(step, own, count, stage, permits) && Advances(step, isNext, count, stage, permits)
    requires Finishes(step, isNext, count, stage, permits, expected) && count > 0
    requires stage(s, 0) && Permitted(step, s, events, own, permits, 0) && Carries(events, own, isNext, 0, count)
    ensures OnceAtTheEnd(step, s, events, own, count, expected) && stage(Final(step, s, events), count)
  {
    ServedOnce(step, s, events, own, isNext, 0, count, stage, permits, expected);
  }

  /** What is left when the empty outputs are dropped. */
  function Somes<O>(os: seq<Option<O>>): seq<O> {
    if os == [] then [] else (if os[0].Some? then [os[0].value] else []) + Somes(os[1..])
  }

  lemma {:induction false} MarkedAreOwn<S(!new), E(!new), O(!new)>(
      step: Stepper<S, E, O>, s: S, events: seq<E>, own: E -> bool, mark: O -> bool)
    requires Tells(step, own, mark)
    ensures Marked(AllOutputs(step, s, events), mark) == Somes(Outputs(step, s, events, own))
    decreases |events|
  {
    if events != [] {
      var next, all := step(s, events[0]).0, AllOutputs(step, s, events);
      MarkedAreOwn(step, next, events[1..], own, mark);
      assert all[1..] == AllOutputs(step, next, events[1..]);
      if own(events[0]) {
        assert Outputs(step, s, events, own)[1..] == Outputs(step, next, events[1..], own);
      } else {
        assert Outputs(step, s, events, own) == Outputs(step, next, events[1..], own);
      }
    }
  }

  lemma {:induction false} OneIsLeft<O>(n: nat, o: Option<O>)
    ensures Somes(OnlyLast(n, o)) == if o.Some? then [o.value] else []
  {
    if n > 0 {
      OneIsLeft(n - 1, o);
      assert OnlyLast(n, o)[1..] == OnlyLast(n - 1, o);
    } else {
      assert [o][1..] == [];
    }
  }

  /** At most one output of the client in the whole run, the expected one, whoever caused the others. */
  lemma {:induction false} OneMarked<S(!new), E(!new), O(!new)>(
      step: Stepper<S, E, O>, s: S, events: seq<E>, own: E -> bool, count: nat, expected: E -> Option<O>, mark: O -> bool)
    requires OnceAtTheEnd(step, s, events, own, count, expected) && Tells(step, own, mark)
    ensures Marked(AllOutputs(step, s, events), mark) == Somes([expected(Own(events, own)[count - 1])])
  {
    MarkedAreOwn(step, s, events, own, mark);
    var o := expected(Own(events, own)[count - 1]);
    OneIsLeft(count - 1, o);
    assert [o][1..] == [];
  }

  // ---- Readings ----

  /** What a reading of the machine shows before and after each event of the client. */
  function Readings<S, E, O, R>(step: Stepper<S, E, O>, s: S, events: seq<E>, own: E -> bool, reading: S -> R): seq<(R, R)>
    decreases |events|
  {
    if events == [] then []
    else
      var next := step(s, events[0]).0;
      (if own(events[0]) then [(reading(s), reading(next))] else []) + Readings(step, next, events[1..], own, reading)
  }

  /** The client's events leave the reading as it is, all but the last, which changes it in the expected way. */
  ghost predicate Registers<S(!new), E(!new), O, R>(
      step: Stepper<S, E, O>, isNext: (E, nat) -> bool, count: nat, stage: (S, nat) -> bool, permits: (S, E, nat) -> bool,
      reading: S -> R, change: R -> R) {
    forall s: S, e: E, k: nat {:trigger step(s, e), isNext(e, k)} ::
      isNext(e, k) && k < count && stage(s, k) && permits(s, e, k) ==>
        reading(step(s, e).0) == if k + 1 == count then change(reading(s)) else reading(s)
  }

  /** n readings that stay, then one that changes. */
  predicate OneChange<R(==)>(rs: seq<(R, R)>, n: nat, change: R -> R) {
    |rs| == n + 1 && (forall i | 0 <= i < n :: rs[i].1 == rs[i].0) && rs[n].1 == change(rs[n].0)
  }

  /** Over every run the client's events change the reading once, with the last one. */
  lemma {:induction false} ChangedOnce<S(!new), E(!new), O(!new), R>(
      step: Stepper<S, E, O>, s: S, events: seq<E>, own: E -> bool, isNext: (E, nat) -> bool, k: nat, count: nat,
      stage: (S, nat) -> bool, permits: (S, E, nat) -> bool, expected: E -> Option<O>, reading: S -> R, change: R -> R)
    requires Isolated(step, own, count, stage, permits) && Advances(step, isNext, count, stage, permits)
    requires Finishes(step, isNext, count, stage, permits, expected) && k <= count
    requires Registers(step, isNext, count, stage, permits, reading, change)
    requires stage(s, k) && Permitted(step, s, events, own, permits, k) && Carries(events, own, isNext, k, count)
    ensures var rs := Readings(step, s, events, own, reading);
            if k == count then rs == [] else OneChange(rs, count - 1 - k, change)
    decreases |events|
  {
    if events != [] {
      CarriesFirst(events, own, isNext, k, count);
      var e, rest, next := events[0], events[1..], step(s, events[0]).0;
      OneServed(step, s, e, own, isNext, k, count, stage, permits, expected);
      var rs := Readings(step, next, rest, own, reading);
      if own(e) {
        ChangedOnce(step, next, rest, own, isNext, k + 1, count, stage, permits, expected, reading, change);
        assert Readings(step, s, events, own, reading) == [(reading(s), reading(next))] + rs;
      } else {
        ChangedOnce(step, next, rest, own, isNext, k, count, stage, permits, expected, reading, change);
        assert Readings(step, s, events, own, reading) == rs;
      }
    }
  }

  lemma {:induction false} ChangedFromStart<S(!new), E(!new), O(!new), R>(
      step: Stepper<S, E, O>, s: S, events: seq<E>, own: E -> bool, isNext: (E, nat) -> bool, count: nat,
      stage: (S, nat) -> bool, permits: (S, E, nat) -> bool, expected: E -> Option<O>, reading: S -> R, change: R -> R)
    requires Isolated(step, own, count, stage, permits) && Advances(step, isNext, count, stage, permits)
    requires Finishes(step, isNext, count, stage, permits, expected) && count > 0
    requires Registers(step, isNext, count, stage, permits, reading, change)
    requires stage(s, 0) && Permitted(step, s, events, own, permits, 0) && Carries(events, own, isNext, 0, count)
    ensures OneChange(Readings(step, s, events, own, reading), count - 1, change)
  {
    ChangedOnce(step, s, events, own, isNext, 0, count, stage, permits, expected, reading, change);
  }

  lemma {:induction false} AllAreRead<S, E, O, R>(
      step: Stepper<S, E, O>, s: S, events: seq<E>, own: E -> bool, reading: S -> R)
    requires forall e | e in events :: own(e)
    ensures |Readings(step, s, events, own, reading)| == |events|
    decreases |events|
  {
    if events != [] {
      assert own(events[0]);
      AllAreRead(step, step(s, events[0]).0, events[1..], own, reading);
    }
  }

  /** If all events are the client's, that is what the whole run does to the reading. */
  lemma {:induction false} OnlyChange<S, E, O, R>(
      step: Stepper<S, E, O>, s: S, events: seq<E>, own: E -> bool, reading: S -> R, n: nat, change: R -> R)
    requires forall e | e in events :: own(e)
    requires OneChange(Readings(step, s, events, own, reading), n, change)
    ensures |events| == n + 1 && reading(Final(step, s, events)) == change(reading(s))
    decreases |events|
  {
    var next := step(s, events[0]).0;
    var rs, rest := Readings(step, s, events, own, reading), Readings(step, next, events[1..], own, reading);
    assert own(events[0]);
    assert rs == [(reading(s), reading(next))] + rest;
    if n > 0 {
      assert rs[0].1 == rs[0].0;
      forall i | 0 <= i < n - 1 ensures rest[i].1 == rest[i].0 {
        assert rest[i] == rs[i + 1];
      }
      OnlyChange(step, next, events[1..], own, reading, n - 1, change);
    } else {
      AllAreRead(step, next, events[1..], own, reading);
    }
  }

  // ---- Runs in two parts ----

  lemma {:induction false} OutputsConcat<S, E, O>(step: Stepper<S, E, O>, s: S, a: seq<E>, b: seq<E>)
    ensures Final(step, s, a + b) == Final(step, Final(step, s, a), b)
    ensures AllOutputs(step, s, a + b) == AllOutputs(step, s, a) + AllOutputs(step, Final(step, s, a), b)
    decreases |a|
  {
    if a == [] {
      assert a + b == b;
    } else {
      assert (a + b)[1..] == a[1..] + b;
      OutputsConcat(step, step(s, a[0]).0, a[1..], b);
    }
  }

  lemma {:induction false} MarkedConcat<O>(a: seq<Option<O>>, b: seq<Option<O>>, mark: O -> bool)
    ensures Marked(a + b, mark) == Marked(a, mark) + Marked(b, mark)
    decreases |a|
  {
    if a == [] {
      assert a + b == b;
    } else {
      assert (a + b)[1..] == a[1..] + b;
      MarkedConcat(a[1..], b, mark);
    }
  }

  /** The last event of a part of a run. */
  lemma {:induction false} OutputAt<S, E, O>(step: Stepper<S, E, O>, s: S, events: seq<E>, i: nat)
    requires i < |events|
    ensures Final(step, s, events[..i + 1]) == step(Final(step, s, events[..i]), events[i]).0
    ensures AllOutputs(step, s, events)[i] == step(Final(step, s, events[..i]), events[i]).1
    decreases i
  {
    if i == 0 {
      assert events[..1][1..] == [];
    } else {
      assert events[..i + 1][1..] == events[1..][..i] && events[..i][1..] == events[1..][..i - 1];
      OutputAt(step, step(s, events[0]).0, events[1..], i - 1);
    }
  }

  // ---- A client alone ----

  /** The client's own events use up no more than was reserved. */
  ghost predicate Reserves<S(!new), E(!new), O>(step: Stepper<S, E, O>, isNext: (E, nat) -> bool, count: nat,
                                                stage: (S, nat) -> bool, permits: (S, E, nat) -> bool, reserve: (S, nat) -> bool) {
    && (forall s: S, e: E, k: nat {:trigger permits(s, e, k)} ::
          reserve(s, k) && isNext(e, k) && stage(s, k) && k < count ==> permits(s, e, k))
    && (forall s: S, e: E, k: nat {:trigger step(s, e), isNext(e, k)} ::
          isNext(e, k) && k + 1 < count && stage(s, k) && reserve(s, k) ==> reserve(step(s, e).0, k + 1))
  }

  /** Only events of the client, numbers k to count - 1. */
  ghost predicate Quiet<E>(events: seq<E>, own: E -> bool, isNext: (E, nat) -> bool, k: nat, count: nat) {
    |events| + k == count && forall j: nat | j < |events| :: own(events[j]) && isNext(events[j], k + j)
  }

  /** With nothing else going on, a reserve at the beginning is enough all along. */
  lemma {:induction false} QuietIsPermitted<S(!new), E(!new), O(!new)>(
      step: Stepper<S, E, O>, s: S, events: seq<E>, own: E -> bool, isNext: (E, nat) -> bool, k: nat, count: nat,
      stage: (S, nat) -> bool, permits: (S, E, nat) -> bool, reserve: (S, nat) -> bool)
    requires Advances(step, isNext, count, stage, permits) && Reserves(step, isNext, count, stage, permits, reserve)
    requires k < count && stage(s, k) && reserve(s, k) && Quiet(events, own, isNext, k, count)
    ensures Permitted(step, s, events, own, permits, k) && Carries(events, own, isNext, k, count)
    ensures Own(events, own) == events
    decreases |events|
  {
    var e, rest, next := events[0], events[1..], step(s, events[0]).0;
    assert own(e) && isNext(events[0], k + 0);
    assert events == [e] + rest;
    forall j: nat | j < |rest| ensures own(rest[j]) && isNext(rest[j], k + 1 + j) {
      assert rest[j] == events[j + 1];
      assert isNext(events[j + 1], k + (j + 1));
    }
    assert permits(s, e, k);
    if k + 1 < count {
      QuietIsPermitted(step, next, rest, own, isNext, k + 1, count, stage, permits, reserve);
    } else {
      assert rest == [];
    }
  }

  lemma {:induction false} OnlyLastAt<O>(n: nat, o: Option<O>)
    ensures |OnlyLast(n, o)| == n + 1 && OnlyLast(n, o)[n] == o && forall i | 0 <= i < n :: OnlyLast(n, o)[i] == None
  {
    if n > 0 {
      OnlyLastAt(n - 1, o);
    }
  }
}
