/** The two percentile computations of internal/assetpicker/selector.go: the floor, which sorts and
    indexes, and the rank, which counts. */
module Percentiles {
  import opened Sequences
  import opened Sorting
  import opened OrderStatistics

  function SortedReals(values: seq<real>): seq<real> {
    InsertionSort(values, RealLess())
  }

  lemma SortedRealsUnique(s: seq<real>, values: seq<real>)
    requires IsSortOf(s, values, RealLess())
    ensures s == SortedReals(values) && |s| == |values|
  {
    InsertionSortCorrect(values, RealLess());
    SortUnique(s, SortedReals(values), RealLess());
    PermutationMembers(s, values);
  }

  function FloorIndex(n: nat, q: real): nat
    requires n > 0
  {
    var clamped := if q <= 0.0 then 0.0 else if q >= 1.0 then 1.0 else q;
    var index := (clamped * n as real).Floor;
    if index < 0 then 0 else if index >= n then n - 1 else index
  }

  function PercentileFloor(values: seq<real>, q: real): real {
    SortedRealsLength(values);
    if |values| == 0 then 0.0 else SortedReals(values)[FloorIndex(|values|, q)]
  }

  lemma SortedRealsLength(values: seq<real>)
    ensures IsSortOf(SortedReals(values), values, RealLess()) && |SortedReals(values)| == |values|
  {
    InsertionSortCorrect(values, RealLess());
    PermutationMembers(SortedReals(values), values);
  }

  function PercentileRank(values: seq<real>, value: real): real {
    if |values| == 0 then 0.0 else Count(values, AtMost(value)) as real / |values| as real
  }

  lemma ScaleStrict(x: real, y: real, n: real)
    requires n > 0.0
    ensures x > y <==> x * n > y * n
  {
    if x > y {
      assert (x - y) * n > 0.0;
    }
    if x < y {
      assert (y - x) * n > 0.0;
    }
  }

  lemma QuotientAbove(c: real, n: real, q: real)
    requires n > 0.0
    ensures c / n > q <==> c > q * n
  {
    ScaleStrict(c / n, q, n);
    assert c / n * n == c;
  }

  lemma CountAboveReal(c: int, x: real)
    ensures c > x.Floor <==> c as real > x
  {
  }

  lemma BelowAll(q: real, n: real)
    requires 0.0 <= q < 1.0 && n > 0.0
    ensures 0.0 <= q * n < n
  {
    ScaleStrict(1.0, q, n);
  }

  lemma FloorIndexIsFloor(n: nat, q: real)
    requires n > 0 && 0.0 <= q < 1.0
    ensures FloorIndex(n, q) == (q * n as real).Floor
  {
    BelowAll(q, n as real);
  }

  /** For a proportion below 1, a count exceeds floor(q * n) exactly when it exceeds q * n. */
  lemma CountAboveFloor(n: nat, q: real, count: nat)
    requires n > 0 && 0.0 <= q < 1.0
    ensures count > FloorIndex(n, q) <==> count as real / n as real > q
  {
    FloorIndexIsFloor(n, q);
    QuotientAbove(count as real, n as real, q);
    CountAboveReal(count, q * n as real);
  }

  /** The sort-and-index floor and the counting rank describe the same cut, ties included. */
  lemma FloorIsRankCut(values: seq<real>, top: real, value: real)
    requires |values| > 0 && 0.0 < top <= 1.0
    ensures value >= PercentileFloor(values, 1.0 - top) <==> PercentileRank(values, value) > 1.0 - top
  {
    var s, index := SortedReals(values), FloorIndex(|values|, 1.0 - top);
    SortedRealsLength(values);
    OrderStatistic(s, index, value);
    CountPermutation(s, values, AtMost(value));
    CountAboveFloor(|values|, 1.0 - top, Count(values, AtMost(value)));
  }

  /** The floor is one of the values; out of range it is the least or the greatest. */
  lemma FloorAtTheEnds(values: seq<real>, q: real)
    requires |values| > 0
    ensures PercentileFloor(values, q) in values
    ensures q <= 0.0 ==> forall v :: v in values ==> PercentileFloor(values, q) <= v
    ensures q >= 1.0 ==> forall v :: v in values ==> v <= PercentileFloor(values, q)
  {
    var s := SortedReals(values);
    SortedRealsLength(values);
    PermutationMembers(s, values);
    assert PercentileFloor(values, q) in s;
    forall v | v in values
      ensures (q <= 0.0 ==> PercentileFloor(values, q) <= v) && (q >= 1.0 ==> v <= PercentileFloor(values, q))
    {
      assert v in s;
      var i :| 0 <= i < |s| && s[i] == v;
      EndIndex(|s|, q);
      SortedAtMost(s, 0, i);
      SortedAtMost(s, i, |s| - 1);
    }
  }

  lemma EndIndex(n: nat, q: real)
    requires n > 0
    ensures q <= 0.0 ==> FloorIndex(n, q) == 0
    ensures q >= 1.0 ==> FloorIndex(n, q) == n - 1
  {
  }

  method SortReals(values: seq<real>) returns (sorted: seq<real>)
    ensures sorted == SortedReals(values)
  {
    var slice := new real[|values|](i requires 0 <= i < |values| => values[i]);
    assert slice[..] == values;
    SortSlice(slice, RealLess());
    SortedRealsUnique(slice[..], values);
    sorted := slice[..];
  }

  method ComputeFloorIndex(n: nat, q: real) returns (index: nat)
    requires n > 0
    ensures index == FloorIndex(n, q)
  {
    var p := q;
    if p <= 0.0 {
      p := 0.0;
    }
    if p >= 1.0 {
      p := 1.0;
    }
    var floor := (p * n as real).Floor;
    if floor < 0 {
      floor := 0;
    }
    if floor >= n {
      floor := n - 1;
    }
    index := floor;
  }

  method ComputePercentileFloor(values: seq<real>, q: real) returns (floor: real)
    ensures floor == PercentileFloor(values, q)
  {
    if |values| == 0 {
      return 0.0;
    }
    SortedRealsLength(values);
    var sorted := SortReals(values);
    var index := ComputeFloorIndex(|sorted|, q);
    floor := sorted[index];
  }

  method ComputePercentileRank(values: seq<real>, value: real) returns (rank: real)
    ensures rank == PercentileRank(values, value)
  {
    if |values| == 0 {
      return 0.0;
    }
    var count := 0;
    for i := 0 to |values|
      invariant count == Count(values[..i], AtMost(value))
    {
      CountStep(values, i, AtMost(value));
      if values[i] <= value {
        count := count + 1;
      }
    }
    assert values[..|values|] == values;
    rank := count as real / |values| as real;
  }

  lemma FloorOfPermutation(values: seq<real>, values': seq<real>, q: real)
    requires multiset(values) == multiset(values')
    ensures PercentileFloor(values, q) == PercentileFloor(values', q)
  {
    PermutationMembers(values, values');
    SortedRealsLength(values);
    SortedRealsUnique(SortedReals(values), values');
  }

  lemma RankOfPermutation(values: seq<real>, values': seq<real>, v: real)
    requires multiset(values) == multiset(values')
    ensures PercentileRank(values, v) == PercentileRank(values', v)
  {
    PermutationMembers(values, values');
    CountPermutation(values, values', AtMost(v));
  }
}
