// combine/clampProb of the composite correlator (composite.go), computed
// exactly: probabilities are reals, the final int(x + 0.5) is round half up.
module NoisyOr {
  import opened Folds

  function ClampProb(c: int): real {
    if c < 0 then 0.0 else if c > 100 then 1.0 else c as real / 100.0
  }

  /** The same clamp on the percentage scale. */
  function Clamp(c: int): int {
    if c < 0 then 0 else if c > 100 then 100 else c
  }

  /** One more signal: the chance that all of them are wrong shrinks. */
  function Miss(inv: real, c: int): real {
    inv * (1.0 - ClampProb(c))
  }

  /** The chance that no signal is right. */
  function Inv(cs: seq<int>): real {
    Fold(Miss, 1.0, cs)
  }

  function Round(x: real): int {
    (x + 0.5).Floor
  }

  /** The noisy-OR of independent confidences, in percent. */
  function NoisyOr(cs: seq<int>): int {
    Round((1.0 - Inv(cs)) * 100.0)
  }

  /** The accumulating loop of the source. */
  method Combine(confidences: seq<int>) returns (combined: int)
    ensures combined == NoisyOr(confidences)
  {
    var inv := 1.0;
    for i := 0 to |confidences|
      invariant inv == Inv(confidences[..i])
    {
      assert confidences[..i + 1] == confidences[..i] + [confidences[i]];
      FoldSnoc(Miss, 1.0, confidences[..i], confidences[i]);
      inv := inv * (1.0 - ClampProb(confidences[i]));
    }
    assert confidences[..|confidences|] == confidences;
    combined := ((1.0 - inv) * 100.0 + 0.5).Floor;
  }

  // ----- one step of the product -----

  predicate Below(x: real, y: real) {
    0.0 <= x <= y <= 1.0
  }

  predicate Over(x: int, y: int) {
    x >= y
  }

  lemma MulMono(a: real, b: real, x: real, y: real)
    requires 0.0 <= a <= b && 0.0 <= x <= y
    ensures 0.0 <= a * x <= b * y
  {
    assert a * x <= b * x;
    assert b * x <= b * y;
  }

  lemma Interchange(s: real, p: real, q: real)
    ensures (s * p) * q == (s * q) * p
  {
  }

  lemma MissesExchange(s: real, x: int, y: int)
    ensures Miss(Miss(s, x), y) == Miss(Miss(s, y), x)
  {
    Interchange(s, 1.0 - ClampProb(x), 1.0 - ClampProb(y));
  }

  lemma MissExchangeable()
    ensures Exchangeable(Miss)
  {
    forall s, x, y
      ensures Miss(Miss(s, x), y) == Miss(Miss(s, y), x)
    {
      MissesExchange(s, x, y);
    }
  }

  lemma MissStep(s: real, t: real, x: int, y: int)
    requires Below(s, t) && Over(x, y)
    ensures Below(Miss(s, x), Miss(t, y))
  {
    MulMono(s, t, 1.0 - ClampProb(x), 1.0 - ClampProb(y));
    MulMono(t, 1.0, 1.0 - ClampProb(y), 1.0);
  }

  lemma MissDescends(s: real, x: int)
    requires Below(s, s)
    ensures Below(Miss(s, x), s)
  {
    MulMono(s, s, 1.0 - ClampProb(x), 1.0);
  }

  lemma MissDescending()
    ensures Descending(Miss, Below, Over)
  {
    forall s, t, x, y | Below(s, t) && Over(x, y)
      ensures Below(Miss(s, x), Miss(t, y))
    {
      MissStep(s, t, x, y);
    }
    forall s, x | Below(s, s)
      ensures Below(Miss(s, x), s)
    {
      MissDescends(s, x);
    }
  }

  lemma NoisyOrAntitone(x: real, y: real)
    requires x <= y
    ensures Round((1.0 - y) * 100.0) <= Round((1.0 - x) * 100.0)
  {
  }

  lemma InvSnoc(cs: seq<int>, c: int)
    ensures Inv(cs + [c]) == Inv(cs) * (1.0 - ClampProb(c))
  {
    FoldSnoc(Miss, 1.0, cs, c);
  }

  lemma InvSingle(c: int)
    ensures Inv([c]) == 1.0 - ClampProb(c)
  {
    InvSnoc([], c);
    assert [] + [c] == [c];
  }

  lemma InvRange(cs: seq<int>)
    ensures 0.0 <= Inv(cs) <= 1.0
  {
    MissDescending();
    FoldPointwise(Miss, Below, Over, 1.0, cs, cs);
  }

  lemma ClampProbPercent(c: int)
    ensures ClampProb(c) * 100.0 == Clamp(c) as real
  {
  }

  // ----- the laws -----

  /** The order in which signals are combined does not matter. */
  lemma NoisyOrPermutation(a: seq<int>, b: seq<int>)
    requires multiset(a) == multiset(b)
    ensures NoisyOr(a) == NoisyOr(b)
  {
    MissExchangeable();
    FoldPermutation(Miss, 1.0, a, b);
  }

  /** Raising any confidence never lowers the result. */
  lemma NoisyOrPointwise(a: seq<int>, b: seq<int>)
    requires |a| == |b| && forall i :: 0 <= i < |a| ==> a[i] <= b[i]
    ensures NoisyOr(a) <= NoisyOr(b)
  {
    MissDescending();
    FoldPointwise(Miss, Below, Over, 1.0, a, b);
    NoisyOrAntitone(Inv(b), Inv(a));
  }

  /** Adding corroborating signals never lowers the result. */
  lemma NoisyOrSubset(a: seq<int>, b: seq<int>)
    requires multiset(a) <= multiset(b)
    ensures NoisyOr(a) <= NoisyOr(b)
  {
    MissExchangeable();
    MissDescending();
    FoldSubset(Miss, Below, Over, 1.0, a, b);
    NoisyOrAntitone(Inv(b), Inv(a));
  }

  /** A lone signal keeps its own (clamped) confidence. */
  lemma NoisyOrSingle(c: int)
    ensures NoisyOr([c]) == Clamp(c)
  {
    InvSingle(c);
    ClampProbPercent(c);
  }

  /** The result is at least every input. */
  lemma NoisyOrAtLeast(cs: seq<int>, i: nat)
    requires i < |cs|
    ensures Clamp(cs[i]) <= NoisyOr(cs)
  {
    assert cs == cs[..i] + [cs[i]] + cs[i + 1..];
    assert multiset([cs[i]]) <= multiset(cs);
    NoisyOrSubset([cs[i]], cs);
    NoisyOrSingle(cs[i]);
  }

  function ClampedSum(cs: seq<int>): int {
    if cs == [] then 0 else ClampedSum(cs[..|cs| - 1]) + Clamp(cs[|cs| - 1])
  }

  lemma UnionBound(inv: real, p: real)
    requires 0.0 <= inv <= 1.0 && 0.0 <= p
    ensures 1.0 - inv * (1.0 - p) <= (1.0 - inv) + p
  {
    MulMono(inv, 1.0, p, p);
    assert inv * (1.0 - p) == inv - inv * p;
  }

  lemma SumStep(inv: real, p: real, inv': real, sum: real, c: real)
    requires 0.0 <= inv <= 1.0 && 0.0 <= p && inv' == inv * (1.0 - p)
    requires (1.0 - inv) * 100.0 <= sum && p * 100.0 == c
    ensures (1.0 - inv') * 100.0 <= sum + c
  {
    UnionBound(inv, p);
  }

  lemma {:induction false} InvAgainstSum(cs: seq<int>)
    ensures (1.0 - Inv(cs)) * 100.0 <= ClampedSum(cs) as real
  {
    if cs != [] {
      var n := |cs| - 1;
      InvAgainstSum(cs[..n]);
      InvRange(cs[..n]);
      assert cs == cs[..n] + [cs[n]];
      InvSnoc(cs[..n], cs[n]);
      ClampProbPercent(cs[n]);
      SumStep(Inv(cs[..n]), ClampProb(cs[n]), Inv(cs), ClampedSum(cs[..n]) as real, Clamp(cs[n]) as real);
    }
  }

  /** The result is a percentage, and no more than the sum of the inputs. */
  lemma NoisyOrAtMost(cs: seq<int>)
    ensures 0 <= NoisyOr(cs) <= 100
    ensures NoisyOr(cs) <= ClampedSum(cs)
  {
    InvRange(cs);
    InvAgainstSum(cs);
  }

  /** Certainty is reported exactly when at most half a percent of doubt is left. */
  lemma NoisyOrCertain(cs: seq<int>)
    ensures NoisyOr(cs) == 100 <==> Inv(cs) * 200.0 <= 1.0
  {
    InvRange(cs);
  }

  /** Independence: the doubt left by two lists of signals together is the product of the doubts each leaves. */
  lemma {:induction false} DoubtsMultiply(a: seq<int>, b: seq<int>)
    ensures Inv(a + b) == Inv(a) * Inv(b)
  {
    if b == [] {
      NothingAdded(a);
      assert a + b == a;
    } else {
      var n := |b| - 1;
      DoubtsMultiply(a, b[..n]);
      OneMoreDoubt(a, b[..n], b[n], a + b[..n]);
      assert a + b == (a + b[..n]) + [b[n]] && b == b[..n] + [b[n]];
    }
  }

  lemma NothingAdded(a: seq<int>)
    ensures Inv(a) == Inv(a) * Inv([])
  {
  }

  function Product(x: real, y: real): real {
    x * y
  }

  lemma MissOfProduct(x: real, y: real, c: int)
    ensures Miss(Product(x, y), c) == Product(x, Miss(y, c))
  {
    assert (x * y) * (1.0 - ClampProb(c)) == x * (y * (1.0 - ClampProb(c)));
  }

  lemma InvMiss(cs: seq<int>, c: int)
    ensures Inv(cs + [c]) == Miss(Inv(cs), c)
  {
    FoldSnoc(Miss, 1.0, cs, c);
  }

  lemma OneMoreDoubt(a: seq<int>, b: seq<int>, c: int, ab: seq<int>)
    requires Inv(ab) == Product(Inv(a), Inv(b))
    ensures Inv(ab + [c]) == Product(Inv(a), Inv(b + [c]))
  {
    InvMiss(ab, c);
    InvMiss(b, c);
    MissOfProduct(Inv(a), Inv(b), c);
  }

  /** One signal leaves the complement of its clamped confidence. */
  lemma SingleDoubt(c: int)
    ensures Inv([c]) == 1.0 - (if c < 0 then 0.0 else if c > 100 then 1.0 else c as real / 100.0)
  {
    InvSingle(c);
  }

  /** The result is the complement of the doubt in percent, rounded to the nearest integer, halves up. */
  lemma RoundedToNearest(cs: seq<int>)
    ensures var exact := (1.0 - Inv(cs)) * 100.0;
            NoisyOr(cs) as real - 0.5 <= exact < NoisyOr(cs) as real + 0.5
  {
  }

  /** The examples of the source: two signals of 60 make 84, three of 30 make 66. */
  lemma DocumentedExamples()
    ensures NoisyOr([60, 60]) == 84 && NoisyOr([30, 30, 30]) == 66
  {
    assert [60, 60][..1] == [60] && [60][..0] == [];
    assert Inv([60]) == 1.0 - 0.6;
    assert [30, 30, 30][..2] == [30, 30] && [30, 30][..1] == [30] && [30][..0] == [];
    assert Inv([30]) == 1.0 - 0.3;
    assert Inv([30, 30]) == 0.7 * 0.7;
  }

  // ----- the caps on local heuristics -----

  const VOLUMETRIC_CAP := 70
  const BEACON_CAP := 75
  const TLS_MISMATCH_CAP := 30

  const HEURISTIC_CAPS := [VOLUMETRIC_CAP, BEACON_CAP, TLS_MISMATCH_CAP]

  /** At most one signal per listed cap, each within its cap: `slots` says which cap covers which signal. */
  ghost predicate Capped(cs: seq<int>, slots: seq<int>, caps: seq<int>) {
    && |slots| == |caps|
    && multiset(cs) <= multiset(slots)
    && forall i :: 0 <= i < |caps| ==> slots[i] <= caps[i]
  }

  lemma CappedAtMost(cs: seq<int>, slots: seq<int>, caps: seq<int>)
    requires Capped(cs, slots, caps)
    ensures NoisyOr(cs) <= NoisyOr(caps)
  {
    NoisyOrSubset(cs, slots);
    NoisyOrPointwise(slots, caps);
  }

  /** The capped heuristics reach 95 together, and no combination of them goes beyond. */
  lemma CappedHeuristicsStayBelow(cs: seq<int>, slots: seq<int>)
    ensures NoisyOr(HEURISTIC_CAPS) == 95
    ensures Capped(cs, slots, HEURISTIC_CAPS) ==> NoisyOr(cs) <= 95
  {
    CapsReach95();
    if Capped(cs, slots, HEURISTIC_CAPS) {
      CappedAtMost(cs, slots, HEURISTIC_CAPS);
    }
  }

  lemma CapsReach95()
    ensures NoisyOr(HEURISTIC_CAPS) == 95
  {
    InvSingle(VOLUMETRIC_CAP);
    InvSnoc([VOLUMETRIC_CAP], BEACON_CAP);
    InvSnoc([VOLUMETRIC_CAP] + [BEACON_CAP], TLS_MISMATCH_CAP);
    assert [VOLUMETRIC_CAP] + [BEACON_CAP] + [TLS_MISMATCH_CAP] == HEURISTIC_CAPS;
    assert Inv(HEURISTIC_CAPS) == 0.0525;
  }
}
