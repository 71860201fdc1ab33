// Laws of left folds whose step does not care about the order of its inputs.
// The noisy-OR product and the indicator store are both folds of this kind.
module Folds {

  function Fold<S, E>(f: (S, E) -> S, s: S, es: seq<E>): S {
    if es == [] then s else f(Fold(f, s, es[..|es| - 1]), es[|es| - 1])
  }

  lemma FoldSnoc<S, E>(f: (S, E) -> S, s: S, es: seq<E>, e: E)
    ensures Fold(f, s, es + [e]) == f(Fold(f, s, es), e)
  {
    assert (es + [e])[..|es|] == es;
  }

  lemma {:induction false} FoldConcat<S, E>(f: (S, E) -> S, s: S, a: seq<E>, b: seq<E>)
    ensures Fold(f, s, a + b) == Fold(f, Fold(f, s, a), b)
  {
    if b == [] {
      assert a + b == a;
    } else {
      var n := |b| - 1;
      assert (a + b)[..|a + b| - 1] == a + b[..n];
      FoldConcat(f, s, a, b[..n]);
    }
  }

  /** Two consecutive inputs may be swapped. */
  ghost predicate Exchangeable<S(!new), E(!new)>(f: (S, E) -> S) {
    forall s, x, y :: f(f(s, x), y) == f(f(s, y), x)
  }

  lemma {:induction false} FoldMiddle<S(!new), E(!new)>(f: (S, E) -> S, s: S, a: seq<E>, e: E, b: seq<E>)
    requires Exchangeable(f)
    ensures Fold(f, s, a + [e] + b) == f(Fold(f, s, a + b), e)
  {
    if b == [] {
      assert a + [e] + b == a + [e] && a + b == a;
    } else {
      var n := |b| - 1;
      FoldMiddle(f, s, a, e, b[..n]);
      assert (a + [e] + b)[..|a + b|] == a + [e] + b[..n];
      assert (a + b)[..|a + b| - 1] == a + b[..n];
    }
  }

  lemma RemoveOne<E>(a: seq<E>, b: seq<E>) returns (i: nat)
    requires a != [] && multiset(a) <= multiset(b)
    ensures i < |b| && b[i] == a[|a| - 1]
    ensures b == b[..i] + [b[i]] + b[i + 1..]
    ensures multiset(a[..|a| - 1]) <= multiset(b[..i] + b[i + 1..])
  {
    var n := |a| - 1;
    assert a == a[..n] + [a[n]];
    assert a[n] in multiset(a);
    assert a[n] in b;
    i :| 0 <= i < |b| && b[i] == a[n];
    assert b == b[..i] + [b[i]] + b[i + 1..];
    assert multiset(a) == multiset(a[..n]) + multiset{a[n]};
    assert multiset(b) == multiset(b[..i]) + multiset([b[i]]) + multiset(b[i + 1..]);
    forall x
      ensures multiset(a[..n])[x] <= multiset(b[..i] + b[i + 1..])[x]
    {
      assert multiset(a)[x] <= multiset(b)[x];
    }
  }

  /** The result depends on which inputs arrived, not on when. */
  lemma {:induction false} FoldPermutation<S(!new), E(!new)>(f: (S, E) -> S, s: S, a: seq<E>, b: seq<E>)
    requires Exchangeable(f) && multiset(a) == multiset(b)
    ensures Fold(f, s, a) == Fold(f, s, b)
  {
    assert |multiset(a)| == |a| && |multiset(b)| == |b|;
    if a != [] {
      var n := |a| - 1;
      var i := RemoveOne(a, b);
      var rest := b[..i] + b[i + 1..];
      assert a == a[..n] + [a[n]];
      assert multiset(a) == multiset(a[..n]) + multiset{a[n]};
      assert multiset(b) == multiset(rest) + multiset{a[n]};
      assert multiset(a[..n]) == multiset(a) - multiset{a[n]} == multiset(rest);
      FoldPermutation(f, s, a[..n], rest);
      FoldMiddle(f, s, b[..i], b[i], b[i + 1..]);
    }
  }

  /** `below` is an order on states that every step respects, and under which a step only descends. */
  ghost predicate Descending<S(!new), E(!new)>(f: (S, E) -> S, below: (S, S) -> bool, over: (E, E) -> bool) {
    && (forall s, t, u :: below(s, t) && below(t, u) ==> below(s, u))
    && (forall s, t, x, y :: below(s, t) && over(x, y) ==> below(f(s, x), f(t, y)))
    && (forall s, x :: below(s, s) ==> below(f(s, x), s))
    && (forall x :: over(x, x))
  }

  lemma {:induction false} FoldPointwise<S(!new), E(!new)>(f: (S, E) -> S, below: (S, S) -> bool, over: (E, E) -> bool,
                                               s: S, a: seq<E>, b: seq<E>)
    requires Descending(f, below, over) && below(s, s)
    requires |a| == |b| && forall i :: 0 <= i < |a| ==> over(b[i], a[i])
    ensures below(Fold(f, s, b), Fold(f, s, a))
  {
    if a != [] {
      var n := |a| - 1;
      FoldPointwise(f, below, over, s, a[..n], b[..n]);
    }
  }

  /** More inputs can only descend further. */
  lemma {:induction false} FoldSubset<S(!new), E(!new)>(f: (S, E) -> S, below: (S, S) -> bool, over: (E, E) -> bool,
                                            s: S, a: seq<E>, b: seq<E>)
    requires Exchangeable(f) && Descending(f, below, over) && below(s, s)
    requires multiset(a) <= multiset(b)
    ensures below(Fold(f, s, b), Fold(f, s, a))
  {
    if a != [] {
      var n := |a| - 1;
      var i := RemoveOne(a, b);
      FoldSubset(f, below, over, s, a[..n], b[..i] + b[i + 1..]);
      FoldMiddle(f, s, b[..i], b[i], b[i + 1..]);
    } else if b != [] {
      FoldSubset(f, below, over, s, a, b[..|b| - 1]);
      var t := Fold(f, s, b[..|b| - 1]);
      FoldPointwise(f, below, over, s, b[..|b| - 1], b[..|b| - 1]);
      assert below(f(t, b[|b| - 1]), t);
    }
  }
}
