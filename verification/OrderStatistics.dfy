/** Ranks in sorted data. */
module OrderStatistics {
  import opened Sequences

  function AtLeast(bound: real): real -> bool { x => x >= bound }

  function AtMost(bound: real): real -> bool { x => x <= bound }

  function RealLess(): (real, real) -> bool { (x, y) => x < y }

  lemma SortedAtMost(s: seq<real>, i: nat, j: nat)
    requires Sorted(s, RealLess()) && i <= j < |s|
    ensures s[i] <= s[j]
  {
    assert i < j ==> !RealLess()(s[j], s[i]);
  }

  /** In sorted data, the value at 0-based rank j is at most v exactly when more than j values are. */
  lemma OrderStatistic(s: seq<real>, j: nat, v: real)
    requires Sorted(s, RealLess()) && j < |s|
    ensures s[j] <= v <==> Count(s, AtMost(v)) > j
  {
    if s[j] <= v {
      forall i | 0 <= i < j + 1
        ensures AtMost(v)(s[i])
      {
        SortedAtMost(s, i, j);
      }
      CountAtLeast(s, j + 1, AtMost(v));
    } else {
      forall i | j <= i < |s|
        ensures !AtMost(v)(s[i])
      {
        SortedAtMost(s, j, i);
      }
      CountAtMost(s, j, AtMost(v));
    }
  }

  /** An observed value sits at the last rank counted up to it. */
  lemma RankOfValue(s: seq<real>, v: real)
    requires Sorted(s, RealLess()) && v in s
    ensures 0 < Count(s, AtMost(v)) <= |s| && s[Count(s, AtMost(v)) - 1] == v
  {
    var t :| 0 <= t < |s| && s[t] == v;
    CountBound(s, AtMost(v));
    OrderStatistic(s, t, v);
    var c := Count(s, AtMost(v));
    OrderStatistic(s, c - 1, v);
    SortedAtMost(s, t, c - 1);
  }
}
