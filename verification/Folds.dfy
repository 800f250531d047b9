/** Repeating a step, and folding a step over a sequence. */
module Folds {

  function Iter<X>(f: X -> X, x: X, n: nat): X
    decreases n
  {
    if n == 0 then x else Iter(f, f(x), n - 1)
  }

  lemma {:induction false} IterLast<X>(f: X -> X, x: X, n: nat)
    ensures Iter(f, x, n + 1) == f(Iter(f, x, n))
    decreases n
  {
    if n > 0 {
      IterLast(f, f(x), n - 1);
    }
  }

  lemma {:induction false} IterSplit<X>(f: X -> X, x: X, m: nat, n: nat)
    ensures Iter(f, x, m + n) == Iter(f, Iter(f, x, m), n)
    decreases m
  {
    if m > 0 {
      IterSplit(f, f(x), m - 1, n);
    }
  }

  /** A map that turns one step into the other turns the repetitions into each other. */
  lemma {:induction false} IterMap<X(!new), Y>(f: X -> X, g: Y -> Y, h: X -> Y, x: X, n: nat)
    requires forall y: X :: h(f(y)) == g(h(y))
    ensures h(Iter(f, x, n)) == Iter(g, h(x), n)
    decreases n
  {
    if n > 0 {
      IterMap(f, g, h, f(x), n - 1);
    }
  }

  lemma {:induction false} IterInjective<X(!new)>(f: X -> X, undo: X -> X, x: X, y: X, n: nat)
    requires forall z: X :: undo(f(z)) == z
    requires Iter(f, x, n) == Iter(f, y, n)
    ensures x == y
    decreases n
  {
    if n > 0 {
      IterInjective(f, undo, f(x), f(y), n - 1);
      assert undo(f(x)) == x && undo(f(y)) == y;
    }
  }

  lemma IterEight<X>(f: X -> X, x: X)
    ensures Iter(f, x, 8) == f(f(f(f(f(f(f(f(x))))))))
  {
  }

  function Fold<R, B>(step: (R, B) -> R, r: R, bytes: seq<B>): R
    decreases |bytes|
  {
    if bytes == [] then r else Fold(step, step(r, bytes[0]), bytes[1..])
  }

  lemma {:induction false} FoldConcat<R, B>(step: (R, B) -> R, r: R, a: seq<B>, b: seq<B>)
    ensures Fold(step, r, a + b) == Fold(step, Fold(step, r, a), b)
    decreases |a|
  {
    if a == [] {
      assert a + b == b;
    } else {
      assert (a + b)[1..] == a[1..] + b;
      FoldConcat(step, step(r, a[0]), a[1..], b);
    }
  }

  lemma FoldLast<R, B>(step: (R, B) -> R, r: R, bytes: seq<B>, n: nat)
    requires n < |bytes|
    ensures Fold(step, r, bytes[..n + 1]) == step(Fold(step, r, bytes[..n]), bytes[n])
  {
    assert bytes[..n + 1] == bytes[..n] + [bytes[n]];
    FoldConcat(step, r, bytes[..n], [bytes[n]]);
  }

  /** The recursion of a compile-time fold: the value at i is made from the value at i + 1. */
  function FromBack<R, B>(step: (R, B) -> R, r: R, s: seq<B>, i: nat): R
    requires i <= |s|
    decreases |s| - i
  {
    if i == |s| then r else step(FromBack(step, r, s, i + 1), s[|s| - i - 1])
  }

  lemma {:induction false} FromBackIsFold<R(!new), B(!new)>(step: (R, B) -> R, slow: (R, B) -> R, r: R, s: seq<B>, i: nat)
    requires i <= |s| && forall q: R, b: B :: step(q, b) == slow(q, b)
    ensures FromBack(step, r, s, i) == Fold(slow, r, s[..|s| - i])
    decreases |s| - i
  {
    if i < |s| {
      FromBackIsFold(step, slow, r, s, i + 1);
      FoldLast(slow, r, s, |s| - i - 1);
    }
  }

  ghost predicate Injective<R(!new), B(!new)>(step: (R, B) -> R) {
    && (forall r: R, s: R, b: B {:trigger step(r, b), step(s, b)} :: step(r, b) == step(s, b) ==> r == s)
    && (forall r: R, a: B, b: B {:trigger step(r, a), step(r, b)} :: step(r, a) == step(r, b) ==> a == b)
  }

  lemma FoldOne<R, B>(step: (R, B) -> R, r: R, bytes: seq<B>)
    requires |bytes| == 1
    ensures Fold(step, r, bytes) == step(r, bytes[0])
  {
    assert bytes[1..] == [];
  }

  /** Different registers stay different. */
  lemma {:induction false} FoldApart<R(!new), B(!new)>(step: (R, B) -> R, r: R, s: R, bytes: seq<B>)
    requires Injective(step) && r != s
    ensures Fold(step, r, bytes) != Fold(step, s, bytes)
    decreases |bytes|
  {
    if bytes != [] {
      assert step(r, bytes[0]) != step(s, bytes[0]);
      FoldApart(step, step(r, bytes[0]), step(s, bytes[0]), bytes[1..]);
    }
  }

  /** Changing one element changes the result. */
  lemma OneChange<R(!new), B(!new)>(step: (R, B) -> R, r: R, bytes: seq<B>, i: nat, b: B)
    requires Injective(step) && i < |bytes| && b != bytes[i]
    ensures Fold(step, r, bytes[i := b]) != Fold(step, r, bytes)
  {
    var front, rest := bytes[..i], bytes[i + 1..];
    var mid := Fold(step, r, front);
    assert bytes == front + ([bytes[i]] + rest) && bytes[i := b] == front + ([b] + rest);
    FoldConcat(step, r, front, [bytes[i]] + rest);
    FoldConcat(step, r, front, [b] + rest);
    assert ([bytes[i]] + rest)[1..] == rest && ([b] + rest)[1..] == rest;
    assert step(mid, bytes[i]) != step(mid, b);
    FoldApart(step, step(mid, bytes[i]), step(mid, b), rest);
  }

  /** A register kept complemented between calls can be continued. */
  lemma {:induction false} ComplementedConcat<R(!new), B>(step: (R, B) -> R, not: R -> R, r: R, a: seq<B>, b: seq<B>)
    requires forall s: R :: not(not(s)) == s
    ensures not(Fold(step, not(not(Fold(step, not(r), a))), b)) == not(Fold(step, not(r), a + b))
  {
    FoldConcat(step, not(r), a, b);
  }

  /** A step on pairs that shifts its second component and, seen through join, is a round on single values. */
  ghost predicate Merges<R(!new), V(!new)>(step: ((R, V)) -> (R, V), shift: V -> V, join: (R, V) -> R, round: R -> R) {
    forall r: R, v: V {:trigger step((r, v))} ::
      step((r, v)).1 == shift(v) && join(step((r, v)).0, step((r, v)).1) == round(join(r, v))
  }

  lemma {:induction false} IterMerges<R(!new), V(!new)>(
      step: ((R, V)) -> (R, V), shift: V -> V, join: (R, V) -> R, round: R -> R, r: R, v: V, n: nat)
    requires Merges(step, shift, join, round)
    ensures var last := Iter(step, (r, v), n);
            last.1 == Iter(shift, v, n) && join(last.0, last.1) == Iter(round, join(r, v), n)
    decreases n
  {
    if n > 0 {
      var next := step((r, v));
      assert next == (next.0, next.1);
      IterMerges(step, shift, join, round, next.0, next.1, n - 1);
    }
  }

  ghost predicate Linear<X(!new)>(f: X -> X, op: (X, X) -> X) {
    forall x: X, y: X {:trigger op(x, y)} :: f(op(x, y)) == op(f(x), f(y))
  }

  lemma {:induction false} IterLinear<X(!new)>(f: X -> X, op: (X, X) -> X, x: X, y: X, n: nat)
    requires Linear(f, op)
    ensures Iter(f, op(x, y), n) == op(Iter(f, x, n), Iter(f, y, n))
    decreases n
  {
    if n > 0 {
      IterLinear(f, op, f(x), f(y), n - 1);
    }
  }

  lemma {:induction false} IterParts<X(!new)>(f: X -> X, op: (X, X) -> X, n: nat, whole: X, x: X, y: X, fx: X, fy: X)
    requires Linear(f, op) && whole == op(x, y) && Iter(f, x, n) == fx && Iter(f, y, n) == fy
    ensures Iter(f, whole, n) == op(fx, fy)
  {
    IterLinear(f, op, x, y, n);
  }
}
