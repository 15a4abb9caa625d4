/** Permutation tests with Benjamini-Hochberg false-discovery control
    (internal/execution/validation.go). */
module Validation {
  import opened Sequences
  import opened Sorting
  import opened OrderStatistics

  datatype PermutationResult = PermutationResult(observed: real, pValue: real, qValue: real, significant: bool)

  datatype Indexed = Indexed(index: nat, value: real)

  function Min(a: real, b: real): real { if a <= b then a else b }

  // ----- empirical p-values -----

  function PValue(observed: real, placebo: seq<real>): (p: real)
    ensures 0.0 < p <= 1.0
  {
    CountBound(placebo, AtLeast(observed));
    if |placebo| == 0 then 1.0
    else (Count(placebo, AtLeast(observed)) + 1) as real / (|placebo| + 1) as real
  }

  lemma QuotientTimes(a: real, c: real)
    requires c > 0.0
    ensures a / c * c == a
  {
  }

  /** With n placebo runs, (n + 1) times the p-value is one more than the number of runs at least as extreme;
      without runs the p-value is 1. */
  lemma PValueIsSmoothedShare(observed: real, placebo: seq<real>)
    ensures var extreme := set i | 0 <= i < |placebo| && placebo[i] >= observed;
            PValue(observed, placebo) * (|placebo| + 1) as real == (|extreme| + 1) as real
    ensures |placebo| == 0 ==> PValue(observed, placebo) == 1.0
  {
    var extreme := set i | 0 <= i < |placebo| && placebo[i] >= observed;
    CountsPlaces(placebo, AtLeast(observed));
    assert Places(placebo, AtLeast(observed)) == extreme;
    if |placebo| > 0 {
      QuotientTimes((Count(placebo, AtLeast(observed)) + 1) as real, (|placebo| + 1) as real);
    }
  }

  method EmpiricalPValue(observed: real, placebo: seq<real>) returns (p: real)
    ensures p == PValue(observed, placebo)
  {
    if |placebo| == 0 {
      return 1.0;
    }
    var extreme := 0;
    for i := 0 to |placebo|
      invariant extreme == Count(placebo[..i], AtLeast(observed))
    {
      CountStep(placebo, i, AtLeast(observed));
      if placebo[i] >= observed {
        extreme := extreme + 1;
      }
    }
    assert placebo[..|placebo|] == placebo;
    p := (extreme + 1) as real / (|placebo| + 1) as real;
  }

  lemma QuotientMonotone(a: real, b: real, c: real)
    requires a <= b && c > 0.0
    ensures a / c <= b / c
  {
  }

  lemma PValueAntitone(low: real, high: real, placebo: seq<real>)
    requires low <= high
    ensures PValue(high, placebo) <= PValue(low, placebo)
  {
    CountMonotone(placebo, AtLeast(high), placebo, AtLeast(low));
    QuotientMonotone((Count(placebo, AtLeast(high)) + 1) as real, (Count(placebo, AtLeast(low)) + 1) as real,
                     (|placebo| + 1) as real);
  }

  // ----- false-discovery rates of cut-offs -----

  /** The estimated false-discovery rate of rejecting the `c` hypotheses with p-values up to `v`. */
  type Rate = (real, nat) -> real

  /** v * m / c, the estimate of Benjamini and Hochberg (1995). */
  function BHRate(m: nat): Rate {
    (v: real, c: nat) => if c == 0 then 1.0 else v * m as real / c as real
  }

  /** What the argument needs of a rate: it grows with the cut-off, shrinks with the number rejected,
      and never falls below the cut-off. */
  ghost predicate IsRate(rate: Rate, m: nat) {
    && (forall v, w, c, d :: 0.0 <= v <= w && 0 < d <= c ==> rate(v, c) <= rate(w, d))
    && (forall v, c :: 0.0 <= v && 0 < c <= m ==> v <= rate(v, c))
  }

  lemma QuotientOrder(x: real, c: real, d: real)
    requires x >= 0.0 && 0.0 < d <= c
    ensures x / c <= x / d
  {
    var q := x / c;
    assert q * d <= q * c == x;
    QuotientMonotone(q * d, x, d);
  }

  lemma RateOrder(v: real, w: real, m: real, c: real, d: real)
    requires 0.0 <= v <= w && m >= 0.0 && 0.0 < d <= c
    ensures v * m / c <= w * m / d
  {
    assert v * m <= w * m;
    QuotientMonotone(v * m, w * m, c);
    QuotientOrder(w * m, c, d);
  }

  lemma QuotientCancel(v: real, m: real)
    requires m > 0.0
    ensures v * m / m == v
  {
    var q := v * m / m;
    assert q * m == v * m;
    assert (q - v) * m == 0.0;
  }

  lemma BHRateOrder(m: nat, v: real, w: real, c: nat, d: nat)
    requires 0.0 <= v <= w && 0 < d <= c
    ensures BHRate(m)(v, c) <= BHRate(m)(w, d)
  {
    RateOrder(v, w, m as real, c as real, d as real);
  }

  lemma BHRateAtLeast(m: nat, v: real, c: nat)
    requires 0.0 <= v && 0 < c <= m
    ensures v <= BHRate(m)(v, c)
  {
    RateOrder(v, v, m as real, m as real, c as real);
    QuotientCancel(v, m as real);
  }

  lemma BHRateIsRate(m: nat)
    ensures IsRate(BHRate(m), m)
  {
    var rate := BHRate(m);
    forall v, w, c: nat, d: nat | 0.0 <= v <= w && 0 < d <= c
      ensures rate(v, c) <= rate(w, d)
    {
      BHRateOrder(m, v, w, c, d);
    }
    forall v, c: nat | 0.0 <= v && 0 < c <= m
      ensures v <= rate(v, c)
    {
      BHRateAtLeast(m, v, c);
    }
  }

  // ----- the q-value of a hypothesis, without any sorting -----

  ghost predicate NonNegative(p: seq<real>) {
    forall k :: 0 <= k < |p| ==> p[k] >= 0.0
  }

  /** The rate of rejecting everything up to `v`. */
  function CutoffRate(rate: Rate, p: seq<real>, v: real): real {
    rate(v, Count(p, AtMost(v)))
  }

  function LeastRate(rate: Rate, p: seq<real>, floor: real, n: nat): real
    requires n <= |p|
  {
    if n == 0 then 1.0
    else
      var rest := LeastRate(rate, p, floor, n - 1);
      if p[n - 1] >= floor then Min(rest, CutoffRate(rate, p, p[n - 1])) else rest
  }

  /** The smallest rate, capped at 1, among the cut-offs that reject hypothesis `i`. */
  function QValue(p: seq<real>, i: nat): real
    requires i < |p|
  {
    LeastRate(BHRate(|p|), p, p[i], |p|)
  }

  lemma {:induction false} LeastRateIsLeast(rate: Rate, p: seq<real>, floor: real, n: nat)
    requires n <= |p|
    ensures var q := LeastRate(rate, p, floor, n);
            && q <= 1.0
            && (forall k :: 0 <= k < n && p[k] >= floor ==> q <= CutoffRate(rate, p, p[k]))
            && (q == 1.0 || exists k :: 0 <= k < n && p[k] >= floor && q == CutoffRate(rate, p, p[k]))
  {
    if n > 0 {
      LeastRateIsLeast(rate, p, floor, n - 1);
    }
  }

  lemma LargestAtMost(p: seq<real>, i: nat, v: real) returns (l: nat)
    requires i < |p| && p[i] <= v
    ensures l < |p| && p[i] <= p[l] <= v
    ensures forall k :: 0 <= k < |p| && p[k] <= v ==> p[k] <= p[l]
  {
    l := i;
    for n := 0 to |p|
      invariant l < |p| && p[i] <= p[l] <= v
      invariant forall k :: 0 <= k < n && p[k] <= v ==> p[k] <= p[l]
    {
      if p[l] < p[n] <= v {
        l := n;
      }
    }
  }

  /** Any cut-off at or above p[i], observed or not, bounds the least rate from above. */
  lemma CutoffBoundsQ(rate: Rate, p: seq<real>, i: nat, v: real)
    requires IsRate(rate, |p|) && i < |p| && NonNegative(p) && p[i] <= v
    ensures LeastRate(rate, p, p[i], |p|) <= CutoffRate(rate, p, v)
  {
    CountPositive(p, i, AtMost(v));
    LeastRateIsLeast(rate, p, p[i], |p|);
    var l := LargestAtMost(p, i, v);
    CountPointwise(p, AtMost(p[l]), p, AtMost(v));
  }

  lemma LeastRateBetween(rate: Rate, p: seq<real>, i: nat)
    requires IsRate(rate, |p|) && i < |p| && NonNegative(p) && p[i] <= 1.0
    ensures p[i] <= LeastRate(rate, p, p[i], |p|) <= 1.0
  {
    LeastRateIsLeast(rate, p, p[i], |p|);
    var q := LeastRate(rate, p, p[i], |p|);
    if q != 1.0 {
      var k :| 0 <= k < |p| && p[k] >= p[i] && q == CutoffRate(rate, p, p[k]);
      CountPositive(p, k, AtMost(p[k]));
      CountBound(p, AtMost(p[k]));
    }
  }

  lemma LeastRateMonotone(rate: Rate, low: seq<real>, high: seq<real>, i: nat)
    requires |low| == |high| && i < |low| && NonNegative(low) && IsRate(rate, |low|)
    requires forall k :: 0 <= k < |low| ==> low[k] <= high[k]
    ensures LeastRate(rate, low, low[i], |low|) <= LeastRate(rate, high, high[i], |high|)
  {
    LeastRateIsLeast(rate, low, low[i], |low|);
    LeastRateIsLeast(rate, high, high[i], |high|);
    var q := LeastRate(rate, high, high[i], |high|);
    if q != 1.0 {
      var k :| 0 <= k < |high| && high[k] >= high[i] && q == CutoffRate(rate, high, high[k]);
      CutoffBoundsQ(rate, low, i, high[k]);
      CountPositive(high, k, AtMost(high[k]));
      CountMonotone(high, AtMost(high[k]), low, AtMost(high[k]));
    }
  }

  lemma LeastRateAtMost(rate: Rate, p: seq<real>, i: nat, p': seq<real>, i': nat)
    requires multiset(p) == multiset(p')
    requires i < |p| && i' < |p'| && p[i] == p'[i']
    ensures LeastRate(rate, p, p[i], |p|) <= LeastRate(rate, p', p'[i'], |p'|)
  {
    LeastRateIsLeast(rate, p, p[i], |p|);
    LeastRateIsLeast(rate, p', p'[i'], |p'|);
    PermutationMembers(p, p');
    var q := LeastRate(rate, p', p'[i'], |p'|);
    if q != 1.0 {
      var k' :| 0 <= k' < |p'| && p'[k'] >= p'[i'] && q == CutoffRate(rate, p', p'[k']);
      assert p'[k'] in p;
      CountPermutation(p, p', AtMost(p'[k']));
    }
  }

  lemma QBetweenPAndOne(p: seq<real>, i: nat)
    requires i < |p| && NonNegative(p) && p[i] <= 1.0
    ensures p[i] <= QValue(p, i) <= 1.0
  {
    BHRateIsRate(|p|);
    LeastRateBetween(BHRate(|p|), p, i);
  }

  /** Raising p-values anywhere in the vector never lowers any hypothesis's q-value. */
  lemma QMonotone(low: seq<real>, high: seq<real>, i: nat)
    requires |low| == |high| && i < |low| && NonNegative(low)
    requires forall k :: 0 <= k < |low| ==> low[k] <= high[k]
    ensures QValue(low, i) <= QValue(high, i)
  {
    BHRateIsRate(|low|);
    LeastRateMonotone(BHRate(|low|), low, high, i);
  }

  /** A q-value depends on its own p-value and on the multiset of all of them, so reordering the
      hypotheses reorders the q-values alike. */
  lemma QPermutation(p: seq<real>, i: nat, p': seq<real>, i': nat)
    requires multiset(p) == multiset(p')
    requires i < |p| && i' < |p'| && p[i] == p'[i']
    ensures QValue(p, i) == QValue(p', i')
  {
    PermutationMembers(p, p');
    LeastRateAtMost(BHRate(|p|), p, i, p', i');
    LeastRateAtMost(BHRate(|p|), p', i', p, i);
  }

  // ----- ranks of a sorted vector -----

  /** The capped rate at the 0-based rank `j`, which rejects j + 1 hypotheses. */
  function RankRate(rate: Rate, s: seq<real>, j: nat): real
    requires j < |s|
  {
    Min(1.0, rate(s[j], j + 1))
  }

  function SuffixMin(rate: Rate, s: seq<real>, r: nat): real
    requires r < |s|
    decreases |s| - r
  {
    if r == |s| - 1 then RankRate(rate, s, r) else Min(RankRate(rate, s, r), SuffixMin(rate, s, r + 1))
  }

  lemma {:induction false} SuffixMinIsLeast(rate: Rate, s: seq<real>, r: nat)
    requires r < |s|
    ensures forall j :: r <= j < |s| ==> SuffixMin(rate, s, r) <= RankRate(rate, s, j)
    ensures exists j :: r <= j < |s| && SuffixMin(rate, s, r) == RankRate(rate, s, j)
    decreases |s| - r
  {
    if r < |s| - 1 {
      SuffixMinIsLeast(rate, s, r + 1);
      var j :| r + 1 <= j < |s| && SuffixMin(rate, s, r + 1) == RankRate(rate, s, j);
      assert SuffixMin(rate, s, r) in {RankRate(rate, s, r), RankRate(rate, s, j)};
    } else {
      assert SuffixMin(rate, s, r) == RankRate(rate, s, r);
    }
  }

  /** The suffix minimum of the rank rates is the q-value, for every way of sorting. */
  lemma SuffixMinIsQ(rate: Rate, p: seq<real>, i: nat, s: seq<real>, r: nat)
    requires IsRate(rate, |p|) && NonNegative(p) && IsSortOf(s, p, RealLess())
    requires i < |p| && r < |s| && s[r] == p[i]
    ensures SuffixMin(rate, s, r) == LeastRate(rate, p, p[i], |p|)
  {
    SuffixMinIsLeast(rate, s, r);
    SuffixMinAtMostQ(rate, p, i, s, r);
    var j :| r <= j < |s| && SuffixMin(rate, s, r) == RankRate(rate, s, j);
    SortedAtMost(s, r, j);
    QAtMostRankRate(rate, p, i, s, j);
  }

  lemma SuffixMinAtMostQ(rate: Rate, p: seq<real>, i: nat, s: seq<real>, r: nat)
    requires IsSortOf(s, p, RealLess())
    requires i < |p| && r < |s| && s[r] == p[i]
    ensures SuffixMin(rate, s, r) <= LeastRate(rate, p, p[i], |p|)
  {
    SuffixMinIsLeast(rate, s, r);
    LeastRateIsLeast(rate, p, p[i], |p|);
    var q := LeastRate(rate, p, p[i], |p|);
    if q == 1.0 {
      assert SuffixMin(rate, s, r) <= RankRate(rate, s, r);
    } else {
      var k :| 0 <= k < |p| && p[k] >= p[i] && q == CutoffRate(rate, p, p[k]);
      var j := RankOfCutoff(rate, p, s, r, k);
      assert SuffixMin(rate, s, r) <= RankRate(rate, s, j);
    }
  }

  /** The rate of an observed cut-off is the rate at the last rank it reaches. */
  lemma RankOfCutoff(rate: Rate, p: seq<real>, s: seq<real>, r: nat, k: nat) returns (j: nat)
    requires IsSortOf(s, p, RealLess())
    requires k < |p| && r < |s| && s[r] <= p[k]
    ensures r <= j < |s| && rate(s[j], j + 1) == CutoffRate(rate, p, p[k])
  {
    PermutationMembers(s, p);
    CountPermutation(s, p, AtMost(p[k]));
    assert p[k] in s;
    RankOfValue(s, p[k]);
    OrderStatistic(s, r, p[k]);
    j := Count(s, AtMost(p[k])) - 1;
  }

  lemma QAtMostRankRate(rate: Rate, p: seq<real>, i: nat, s: seq<real>, j: nat)
    requires IsRate(rate, |p|) && NonNegative(p) && IsSortOf(s, p, RealLess())
    requires i < |p| && j < |s| && p[i] <= s[j]
    ensures LeastRate(rate, p, p[i], |p|) <= RankRate(rate, s, j)
  {
    LeastRateIsLeast(rate, p, p[i], |p|);
    CutoffBoundsQ(rate, p, i, s[j]);
    CountPermutation(s, p, AtMost(s[j]));
    OrderStatistic(s, j, s[j]);
  }

  // ----- the step-up procedure -----

  /** The largest rank k <= n whose rate is below alpha, or 0. */
  function StepUpRank(rate: Rate, s: seq<real>, alpha: real, n: nat): (k: nat)
    requires n <= |s|
    ensures k <= n
    ensures k > 0 ==> rate(s[k - 1], k) < alpha
    ensures forall j {:trigger rate(s[j], j + 1)} :: k <= j < n ==> rate(s[j], j + 1) >= alpha
  {
    if n == 0 then 0
    else if rate(s[n - 1], n) < alpha then n
    else StepUpRank(rate, s, alpha, n - 1)
  }

  /** Reject every hypothesis up to the p-value at the largest rank k with p_(k) * m / k < alpha. */
  predicate StepUpRejects(rate: Rate, s: seq<real>, alpha: real, value: real) {
    var k := StepUpRank(rate, s, alpha, |s|);
    k > 0 && value <= s[k - 1]
  }

  lemma BelowAlphaIsStepUp(rate: Rate, p: seq<real>, i: nat, s: seq<real>, alpha: real)
    requires IsRate(rate, |p|) && NonNegative(p) && IsSortOf(s, p, RealLess()) && i < |p| && alpha <= 1.0
    ensures LeastRate(rate, p, p[i], |p|) < alpha <==> StepUpRejects(rate, s, alpha, p[i])
  {
    var k := StepUpRank(rate, s, alpha, |s|);
    if k > 0 && p[i] <= s[k - 1] {
      QAtMostRankRate(rate, p, i, s, k - 1);
    }
    if LeastRate(rate, p, p[i], |p|) < alpha {
      LeastRateIsLeast(rate, p, p[i], |p|);
      var c :| 0 <= c < |p| && p[c] >= p[i] && LeastRate(rate, p, p[i], |p|) == CutoffRate(rate, p, p[c]);
      PassingCutoffIsRejected(rate, p, s, alpha, c);
    }
  }

  lemma PassingCutoffIsRejected(rate: Rate, p: seq<real>, s: seq<real>, alpha: real, c: nat)
    requires IsSortOf(s, p, RealLess()) && c < |p|
    requires CutoffRate(rate, p, p[c]) < alpha
    ensures StepUpRejects(rate, s, alpha, p[c])
  {
    PermutationMembers(s, p);
    assert p[c] in s;
    var r :| 0 <= r < |s| && s[r] == p[c];
    var j := RankOfCutoff(rate, p, s, r, c);
    SortedAtMost(s, r, StepUpRank(rate, s, alpha, |s|) - 1);
  }

  /** What a q-value is, over the sorted p-values: p_(k) * m / k at the least favourable rank from the hypothesis's
      own on, or 1 if that is less. */
  lemma QIsLeastScaled(p: seq<real>, i: nat, s: seq<real>, r: nat)
    requires NonNegative(p) && i < |p| && r < |s| && s[r] == p[i]
    requires multiset(s) == multiset(p) && forall j, k :: 0 <= j < k < |s| ==> s[j] <= s[k]
    ensures QValue(p, i) <= 1.0
    ensures forall j :: r <= j < |s| ==> QValue(p, i) <= s[j] * |p| as real / (j + 1) as real
    ensures QValue(p, i) == 1.0 || exists j :: r <= j < |s| && QValue(p, i) == s[j] * |p| as real / (j + 1) as real
  {
    var rate := BHRate(|p|);
    PermutationMembers(s, p);
    BHRateIsRate(|p|);
    SuffixMinIsQ(rate, p, i, s, r);
    SuffixMinIsLeast(rate, s, r);
    forall j | r <= j < |s|
      ensures RankRate(rate, s, j) == Min(1.0, s[j] * |p| as real / (j + 1) as real)
    {
      RateWrittenOut(s, j);
    }
  }

  /** k is the last 0-based rank whose rate is below alpha. */
  ghost predicate LastPassing(rate: Rate, s: seq<real>, alpha: real, k: nat) {
    && k < |s| && rate(s[k], k + 1) < alpha
    && forall j {:trigger rate(s[j], j + 1)} :: k < j < |s| ==> rate(s[j], j + 1) >= alpha
  }

  lemma LastPassingIsStepUpRank(rate: Rate, s: seq<real>, alpha: real, k: nat)
    ensures LastPassing(rate, s, alpha, k) <==> StepUpRank(rate, s, alpha, |s|) == k + 1
  {
    var top := StepUpRank(rate, s, alpha, |s|);
    if top > 0 {
      var j := top - 1;
      assert rate(s[j], j + 1) < alpha;
    }
  }

  /** The same with the rate written out: s[k] * m / (k + 1) < alpha. */
  ghost predicate LastBelow(s: seq<real>, alpha: real, k: nat) {
    && k < |s| && s[k] * |s| as real / (k + 1) as real < alpha
    && forall j :: k < j < |s| ==> s[j] * |s| as real / (j + 1) as real >= alpha
  }

  lemma RateWrittenOut(s: seq<real>, j: nat)
    requires j < |s|
    ensures BHRate(|s|)(s[j], j + 1) == s[j] * |s| as real / (j + 1) as real
  {
  }

  lemma LastBelowIsLastPassing(s: seq<real>, alpha: real, k: nat)
    ensures LastBelow(s, alpha, k) <==> LastPassing(BHRate(|s|), s, alpha, k)
  {
    var rate := BHRate(|s|);
    if k < |s| {
      RateWrittenOut(s, k);
      if LastBelow(s, alpha, k) {
        forall j {:trigger rate(s[j], j + 1)} | k < j < |s|
          ensures rate(s[j], j + 1) >= alpha
        {
          RateWrittenOut(s, j);
        }
      }
      if LastPassing(rate, s, alpha, k) {
        forall j | k < j < |s|
          ensures s[j] * |s| as real / (j + 1) as real >= alpha
        {
          RateWrittenOut(s, j);
          assert rate(s[j], j + 1) >= alpha;
        }
      }
    }
  }

  lemma StepUpRejectsBelow(s: seq<real>, alpha: real, value: real)
    ensures StepUpRejects(BHRate(|s|), s, alpha, value) <==>
            exists k: nat :: LastBelow(s, alpha, k) && value <= s[k]
  {
    var top := StepUpRank(BHRate(|s|), s, alpha, |s|);
    forall k: nat
      ensures LastBelow(s, alpha, k) <==> top == k + 1
    {
      LastBelowIsLastPassing(s, alpha, k);
      LastPassingIsStepUpRank(BHRate(|s|), s, alpha, k);
    }
    if top > 0 {
      assert LastBelow(s, alpha, top - 1);
    }
  }

  /** For a level up to 1, q < alpha selects exactly what the step-up procedure rejects: everything up to the
      p-value at the largest rank k with p_(k) * m / k < alpha. */
  lemma QBelowAlphaIsStepUp(p: seq<real>, i: nat, s: seq<real>, alpha: real)
    requires NonNegative(p) && i < |p| && alpha <= 1.0
    requires multiset(s) == multiset(p) && forall j, k :: 0 <= j < k < |s| ==> s[j] <= s[k]
    ensures QValue(p, i) < alpha <==> exists k: nat :: LastBelow(s, alpha, k) && p[i] <= s[k]
  {
    PermutationMembers(s, p);
    BHRateIsRate(|p|);
    BelowAlphaIsStepUp(BHRate(|p|), p, i, s, alpha);
    StepUpRejectsBelow(s, alpha, p[i]);
  }

  /** Above level 1 the two part ways: every q-value is selected, whatever the step-up rank. */
  lemma AboveLevelOne(p: seq<real>, i: nat, alpha: real)
    requires i < |p| && alpha > 1.0
    ensures QValue(p, i) < alpha
  {
    LeastRateIsLeast(BHRate(|p|), p, p[i], |p|);
  }

  // ----- the adjustment itself -----

  function Tagged(p: seq<real>): (t: seq<Indexed>)
    ensures |t| == |p|
    ensures forall i :: 0 <= i < |p| ==> t[i] == Indexed(i, p[i])
  {
    seq(|p|, i requires 0 <= i < |p| => Indexed(i, p[i]))
  }

  function ByValue(): (Indexed, Indexed) -> bool { (x: Indexed, y: Indexed) => x.value < y.value }

  function ValueOf(): Indexed -> real { (x: Indexed) => x.value }

  function Values(ordered: seq<Indexed>): (v: seq<real>)
    ensures |v| == |ordered|
    ensures forall r :: 0 <= r < |v| ==> v[r] == ordered[r].value
  {
    Map(ordered, ValueOf())
  }

  /** The indices carried through the sort are a permutation of the hypotheses. */
  lemma OrderedIndices(p: seq<real>, ordered: seq<Indexed>)
    requires IsSortOf(ordered, Tagged(p), ByValue())
    ensures |ordered| == |p|
    ensures forall r :: 0 <= r < |p| ==> ordered[r].index < |p| && ordered[r].value == p[ordered[r].index]
    ensures forall r, t :: 0 <= r < t < |p| ==> ordered[r].index != ordered[t].index
    ensures forall i :: 0 <= i < |p| ==> Indexed(i, p[i]) in ordered
  {
    PermutationMembers(ordered, Tagged(p));
    NoDupPermutation(ordered, Tagged(p));
    forall r | 0 <= r < |p|
      ensures ordered[r].index < |p| && ordered[r].value == p[ordered[r].index]
    {
      assert ordered[r] in Tagged(p);
    }
    forall i | 0 <= i < |p|
      ensures Indexed(i, p[i]) in ordered
    {
      assert Tagged(p)[i] in ordered;
    }
  }

  lemma ValuesSorted(p: seq<real>, ordered: seq<Indexed>)
    requires IsSortOf(ordered, Tagged(p), ByValue())
    ensures IsSortOf(Values(ordered), p, RealLess())
  {
    MapPermutation(ordered, Tagged(p), ValueOf());
    assert Map(Tagged(p), ValueOf()) == p;
    forall i, j | 0 <= i < j < |ordered|
      ensures !RealLess()(Values(ordered)[j], Values(ordered)[i])
    {
      assert !ByValue()(ordered[j], ordered[i]);
    }
  }

  /** q was scattered back from the suffix minima of some sort of the tagged p-values. */
  ghost predicate ScatteredFrom(p: seq<real>, ordered: seq<Indexed>, q: seq<real>) {
    && IsSortOf(ordered, Tagged(p), ByValue())
    && |q| == |p| == |ordered|
    && forall r :: 0 <= r < |p| ==>
                     (ordered[r].index < |p| && q[ordered[r].index] == SuffixMin(BHRate(|p|), Values(ordered), r))
  }

  /** Whatever order the sort leaves ties in, the scattered result is the vector of q-values. */
  lemma ScatterIsQ(p: seq<real>, ordered: seq<Indexed>, q: seq<real>)
    requires NonNegative(p) && ScatteredFrom(p, ordered, q)
    ensures forall i :: 0 <= i < |p| ==> q[i] == QValue(p, i)
  {
    BHRateIsRate(|p|);
    OrderedIndices(p, ordered);
    ValuesSorted(p, ordered);
    forall i | 0 <= i < |p|
      ensures q[i] == QValue(p, i)
    {
      var r :| 0 <= r < |ordered| && ordered[r] == Indexed(i, p[i]);
      SuffixMinIsQ(BHRate(|p|), p, i, Values(ordered), r);
    }
  }

  method BenjaminiHochberg(pValues: seq<real>) returns (q: seq<real>)
    ensures |q| == |pValues|
    ensures exists ordered :: ScatteredFrom(pValues, ordered, q)
    ensures NonNegative(pValues) ==> forall i :: 0 <= i < |q| ==> q[i] == QValue(pValues, i)
  {
    var n := |pValues|;
    var ordered := new Indexed[n](i requires 0 <= i < n => Indexed(i, pValues[i]));
    assert ordered[..] == Tagged(pValues);
    SortSlice(ordered, ByValue());
    ghost var rates := BHRate(n);

    var adjusted := CappedRates(ordered[..]);
    RunningMinimum(adjusted, rates, Values(ordered[..]));
    q := Scatter(pValues, ordered[..], adjusted[..]);
    assert ScatteredFrom(pValues, ordered[..], q);
    if NonNegative(pValues) {
      ScatterIsQ(pValues, ordered[..], q);
    }
  }

  method CappedRate(value: real, m: nat, rank: nat) returns (rate: real)
    requires rank > 0
    ensures rate == Min(1.0, BHRate(m)(value, rank))
  {
    var raw := value * m as real / rank as real;
    assert raw == BHRate(m)(value, rank);
    rate := raw;
    if rate > 1.0 {
      rate := 1.0;
    }
  }

  /** The forward pass: the rate at each rank, capped at 1. */
  method CappedRates(ordered: seq<Indexed>) returns (adjusted: array<real>)
    ensures fresh(adjusted) && adjusted.Length == |ordered|
    ensures forall j :: 0 <= j < |ordered| ==> adjusted[j] == RankRate(BHRate(|ordered|), Values(ordered), j)
  {
    var m := |ordered|;
    ghost var rates := BHRate(m);
    adjusted := new real[m];
    for i := 0 to m
      invariant forall j :: 0 <= j < i ==> adjusted[j] == RankRate(rates, Values(ordered), j)
    {
      var rate := CappedRate(ordered[i].value, m, i + 1);
      adjusted[i] := rate;
    }
  }

  /** The backward pass: rank rates become their suffix minima, in place. */
  method RunningMinimum(adjusted: array<real>, ghost rate: Rate, ghost s: seq<real>)
    requires adjusted.Length == |s|
    requires forall j :: 0 <= j < |s| ==> adjusted[j] == RankRate(rate, s, j)
    modifies adjusted
    ensures forall r :: 0 <= r < |s| ==> adjusted[r] == SuffixMin(rate, s, r)
  {
    var i := adjusted.Length - 2;
    while i >= 0
      invariant -2 <= i < adjusted.Length - 1 && (i == -2 ==> adjusted.Length == 0)
      invariant forall j :: 0 <= j <= i ==> adjusted[j] == RankRate(rate, s, j)
      invariant forall r :: 0 <= r < |s| && i < r ==> adjusted[r] == SuffixMin(rate, s, r)
    {
      if adjusted[i] > adjusted[i + 1] {
        adjusted[i] := adjusted[i + 1];
      }
      i := i - 1;
    }
  }

  /** The scatter: the value at each rank goes back to the hypothesis it came from. */
  method Scatter(pValues: seq<real>, ordered: seq<Indexed>, adjusted: seq<real>) returns (q: seq<real>)
    requires IsSortOf(ordered, Tagged(pValues), ByValue()) && |adjusted| == |ordered|
    ensures |q| == |pValues| == |ordered|
    ensures forall r :: 0 <= r < |ordered| ==> ordered[r].index < |q| && q[ordered[r].index] == adjusted[r]
  {
    OrderedIndices(pValues, ordered);
    var n := |ordered|;
    var out := new real[n];
    for i := 0 to n
      invariant forall r :: 0 <= r < i ==> out[ordered[r].index] == adjusted[r]
    {
      out[ordered[i].index] := adjusted[i];
    }
    q := out[..];
  }

  // ----- single tests and sets of tests -----

  function Placebo(placebo: seq<seq<real>>, i: nat): seq<real> {
    if i < |placebo| then placebo[i] else []
  }

  function PValues(observed: seq<real>, placebo: seq<seq<real>>): (p: seq<real>)
    ensures |p| == |observed|
    ensures forall i :: 0 <= i < |p| ==> p[i] == PValue(observed[i], Placebo(placebo, i))
  {
    seq(|observed|, i requires 0 <= i < |observed| => PValue(observed[i], Placebo(placebo, i)))
  }

  method EvaluatePermutation(observed: real, placebo: seq<real>, fdrQMax: real) returns (r: PermutationResult)
    ensures r.observed == observed && r.pValue == r.qValue == PValue(observed, placebo)
    ensures r.significant <==> PValue(observed, placebo) < fdrQMax
  {
    var p := EmpiricalPValue(observed, placebo);
    r := PermutationResult(observed, p, p, p < fdrQMax);
  }

  method EvaluatePermutationSet(observed: seq<real>, placebo: seq<seq<real>>, fdrQMax: real)
    returns (results: seq<PermutationResult>)
    ensures |results| == |observed|
    ensures forall i :: 0 <= i < |results| ==>
              var p := PValue(observed[i], if i < |placebo| then placebo[i] else []);
              var q := QValue(PValues(observed, placebo), i);
              p == PValues(observed, placebo)[i] && results[i] == PermutationResult(observed[i], p, q, q < fdrQMax)
  {
    var pValues := EmpiricalPValues(observed, placebo);
    var qValues := BenjaminiHochberg(pValues);
    results := [];
    for i := 0 to |observed|
      invariant |results| == i
      invariant forall j :: 0 <= j < i ==>
                  results[j] == PermutationResult(observed[j], pValues[j], qValues[j], qValues[j] < fdrQMax)
    {
      results := results + [PermutationResult(observed[i], pValues[i], qValues[i], qValues[i] < fdrQMax)];
    }
  }

  method EmpiricalPValues(observed: seq<real>, placebo: seq<seq<real>>) returns (p: seq<real>)
    ensures p == PValues(observed, placebo)
  {
    p := [];
    for i := 0 to |observed|
      invariant |p| == i
      invariant forall j :: 0 <= j < i ==> p[j] == PValue(observed[j], Placebo(placebo, j))
    {
      var permutations := [];
      if i < |placebo| {
        permutations := placebo[i];
      }
      var value := EmpiricalPValue(observed[i], permutations);
      p := p + [value];
    }
  }

  /** A hypothesis significant within a set is significant on its own. */
  lemma SetSignificanceIsSingleSignificance(observed: seq<real>, placebo: seq<seq<real>>, i: nat, fdrQMax: real)
    requires i < |observed|
    ensures QValue(PValues(observed, placebo), i) < fdrQMax ==> PValue(observed[i], Placebo(placebo, i)) < fdrQMax
  {
    QBetweenPAndOne(PValues(observed, placebo), i);
  }

  /** Raising any observed metrics never raises any hypothesis's q-value. */
  lemma RaisingMetricsNeverRaisesQ(observed: seq<real>, raised: seq<real>, placebo: seq<seq<real>>, i: nat)
    requires |observed| == |raised| && i < |observed|
    requires forall k :: 0 <= k < |observed| ==> observed[k] <= raised[k]
    ensures QValue(PValues(raised, placebo), i) <= QValue(PValues(observed, placebo), i)
  {
    var low, high := PValues(raised, placebo), PValues(observed, placebo);
    forall k | 0 <= k < |low|
      ensures low[k] <= high[k]
    {
      PValueAntitone(observed[k], raised[k], Placebo(placebo, k));
    }
    QMonotone(low, high, i);
  }

  function Identity(n: nat): seq<nat> { seq(n, i => i) }

  function At(p: seq<real>): nat -> real { (i: nat) => if i < |p| then p[i] else 0.0 }

  /** Permuting the hypotheses, each with its own placebo runs, permutes the q-values. */
  lemma PermutingHypothesesPermutesQ(observed: seq<real>, placebo: seq<seq<real>>,
                                     observed': seq<real>, placebo': seq<seq<real>>, perm: seq<nat>, i: nat)
    requires |observed| == |observed'| == |perm| && i < |perm|
    requires multiset(perm) == multiset(Identity(|perm|))
    requires forall k :: 0 <= k < |perm| ==>
               perm[k] < |perm| && observed'[k] == observed[perm[k]]
               && Placebo(placebo', k) == Placebo(placebo, perm[k])
    ensures QValue(PValues(observed', placebo'), i) == QValue(PValues(observed, placebo), perm[i])
  {
    var p, p' := PValues(observed, placebo), PValues(observed', placebo');
    MapPermutation(perm, Identity(|perm|), At(p));
    assert Map(perm, At(p)) == p';
    assert Map(Identity(|perm|), At(p)) == p;
    QPermutation(p', i, p, perm[i]);
  }
}
