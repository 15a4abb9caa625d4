/** Counting, permutation and order facts about sequences that several components share. */
module Sequences {

  ghost predicate NoDup<T>(s: seq<T>) {
    forall i, j :: 0 <= i < j < |s| ==> s[i] != s[j]
  }

  /** How many elements of `s` satisfy `f`. */
  function Count<T>(s: seq<T>, f: T -> bool): nat {
    if |s| == 0 then 0
    else Count(s[..|s| - 1], f) + if f(s[|s| - 1]) then 1 else 0
  }

  lemma CountStep<T>(s: seq<T>, i: nat, f: T -> bool)
    requires i < |s|
    ensures Count(s[..i + 1], f) == Count(s[..i], f) + if f(s[i]) then 1 else 0
  {
    assert s[..i + 1][..i] == s[..i];
  }

  lemma {:induction false} CountConcat<T>(s: seq<T>, t: seq<T>, f: T -> bool)
    ensures Count(s + t, f) == Count(s, f) + Count(t, f)
  {
    if |t| == 0 {
      assert s + t == s;
    } else {
      CountConcat(s, t[..|t| - 1], f);
      assert (s + t)[..|s + t| - 1] == s + t[..|t| - 1];
    }
  }

  /** Counting elementwise-equivalent predicates over two sequences gives the same number. */
  lemma {:induction false} CountPointwise<S, T>(s: seq<S>, f: S -> bool, t: seq<T>, g: T -> bool)
    requires |s| == |t|
    requires forall i :: 0 <= i < |s| ==> f(s[i]) == g(t[i])
    ensures Count(s, f) == Count(t, g)
  {
    if |s| > 0 {
      CountPointwise(s[..|s| - 1], f, t[..|t| - 1], g);
    }
  }

  lemma {:induction false} CountBound<T>(s: seq<T>, f: T -> bool)
    ensures Count(s, f) <= |s|
  {
    if |s| > 0 {
      CountBound(s[..|s| - 1], f);
    }
  }

  /** A predicate that holds on the first `k` elements is counted at least `k` times. */
  lemma {:induction false} CountAtLeast<T>(s: seq<T>, k: nat, f: T -> bool)
    requires k <= |s|
    requires forall i :: 0 <= i < k ==> f(s[i])
    ensures Count(s, f) >= k
  {
    if k > 0 {
      if k < |s| {
        CountAtLeast(s[..|s| - 1], k, f);
      } else {
        CountAtLeast(s[..|s| - 1], k - 1, f);
      }
    }
  }

  /** A predicate that fails from index `k` on is counted at most `k` times. */
  lemma {:induction false} CountAtMost<T>(s: seq<T>, k: nat, f: T -> bool)
    requires k <= |s|
    requires forall i :: k <= i < |s| ==> !f(s[i])
    ensures Count(s, f) <= k
  {
    if k == |s| {
      CountBound(s, f);
    } else {
      CountAtMost(s[..|s| - 1], k, f);
    }
  }

  lemma {:induction false} CountMonotone<S, T>(s: seq<S>, f: S -> bool, t: seq<T>, g: T -> bool)
    requires |s| == |t|
    requires forall i :: 0 <= i < |s| && f(s[i]) ==> g(t[i])
    ensures Count(s, f) <= Count(t, g)
  {
    if |s| > 0 {
      CountMonotone(s[..|s| - 1], f, t[..|t| - 1], g);
    }
  }

  lemma {:induction false} CountPositive<T>(s: seq<T>, i: nat, f: T -> bool)
    requires i < |s| && f(s[i])
    ensures Count(s, f) >= 1
  {
    if i < |s| - 1 {
      CountPositive(s[..|s| - 1], i, f);
    }
  }

  lemma SliceStep<T>(s: seq<T>, a: nat, i: nat)
    requires a < i <= |s|
    ensures s[a..i] == s[a..i - 1] + [s[i - 1]]
  {
  }

  lemma Associate<T>(a: seq<T>, b: seq<T>, c: seq<T>)
    ensures (a + b) + c == a + (b + c)
  {
  }

  function RemoveAt<T>(s: seq<T>, k: nat): seq<T>
    requires k < |s|
  {
    s[..k] + s[k + 1..]
  }

  lemma RemoveAtMultiset<T>(s: seq<T>, k: nat)
    requires k < |s|
    ensures multiset(RemoveAt(s, k)) == multiset(s) - multiset{s[k]}
  {
    assert s == s[..k] + [s[k]] + s[k + 1..];
  }

  /** The places at which `f` holds. */
  ghost function Places<T>(s: seq<T>, f: T -> bool): set<int> {
    set i | 0 <= i < |s| && f(s[i])
  }

  /** Counting counts places. */
  lemma {:induction false} CountsPlaces<T>(s: seq<T>, f: T -> bool)
    ensures Count(s, f) == |Places(s, f)|
  {
    if |s| == 0 {
      assert Places(s, f) == {};
    } else {
      var n := |s| - 1;
      CountsPlaces(s[..n], f);
      assert Places(s, f) == if f(s[n]) then Places(s[..n], f) + {n} else Places(s[..n], f);
    }
  }

  /** Taking one element out from between two others. */
  lemma CountAround<T>(a: seq<T>, x: T, b: seq<T>, f: T -> bool)
    ensures Count(a + [x] + b, f) == Count(a + b, f) + if f(x) then 1 else 0
  {
    CountConcat(a + [x], b, f);
    CountConcat(a, b, f);
    assert (a + [x])[..|a|] == a;
  }

  lemma SplitAt<T>(s: seq<T>, k: nat)
    requires k < |s|
    ensures s == s[..k] + [s[k]] + s[k + 1..]
  {
  }

  lemma CountRemoveAt<T>(s: seq<T>, k: nat, f: T -> bool)
    requires k < |s|
    ensures Count(s, f) == Count(RemoveAt(s, k), f) + if f(s[k]) then 1 else 0
  {
    SplitAt(s, k);
    CountAround(s[..k], s[k], s[k + 1..], f);
  }

  /** Where the last element of a sequence sits in a permutation of it. */
  lemma LastInPermutation<T>(s: seq<T>, t: seq<T>) returns (k: nat)
    requires multiset(s) == multiset(t) && |s| > 0
    ensures k < |t| && t[k] == s[|s| - 1]
    ensures multiset(RemoveAt(t, k)) == multiset(s[..|s| - 1])
  {
    var n := |s| - 1;
    assert s == s[..n] + [s[n]];
    assert s[n] in multiset(t);
    k :| 0 <= k < |t| && t[k] == s[n];
    RemoveAtMultiset(t, k);
  }

  /** The count depends on the elements and their multiplicities only, not on their order. */
  lemma {:induction false} CountPermutation<T>(s: seq<T>, t: seq<T>, f: T -> bool)
    requires multiset(s) == multiset(t)
    ensures Count(s, f) == Count(t, f)
    decreases |s|
  {
    if |s| == 0 {
      assert |multiset(t)| == |t|;
    } else {
      var k := LastInPermutation(s, t);
      CountPermutation(s[..|s| - 1], RemoveAt(t, k), f);
      CountRemoveAt(t, k, f);
    }
  }

  lemma {:induction false} PermutationMembers<T>(s: seq<T>, t: seq<T>)
    requires multiset(s) == multiset(t)
    ensures |s| == |t|
    ensures forall x :: x in s <==> x in t
  {
    assert |multiset(s)| == |s| && |multiset(t)| == |t|;
    forall x
      ensures x in s <==> x in t
    {
      assert x in s <==> x in multiset(s);
    }
  }

  lemma {:induction false} NoDupMultiplicity<T>(s: seq<T>, x: T)
    requires NoDup(s)
    ensures multiset(s)[x] <= 1
  {
    if |s| > 0 {
      var n := |s| - 1;
      assert s == s[..n] + [s[n]];
      NoDupMultiplicity(s[..n], x);
      if x == s[n] {
        assert x !in s[..n];
      }
    }
  }

  lemma SplitTwice<T>(s: seq<T>, i: nat, j: nat)
    requires i < j < |s|
    ensures s == s[..i] + [s[i]] + s[i + 1..j] + [s[j]] + s[j + 1..]
  {
  }

  lemma MultisetOfParts<T>(a: seq<T>, x: T, b: seq<T>, y: T, c: seq<T>)
    ensures multiset(a + [x] + b + [y] + c) ==
            multiset(a) + multiset{x} + multiset(b) + multiset{y} + multiset(c)
  {
  }

  lemma TwiceThere<T>(s: seq<T>, i: nat, j: nat)
    requires i < j < |s| && s[i] == s[j]
    ensures multiset(s)[s[i]] >= 2
  {
    SplitTwice(s, i, j);
    MultisetOfParts(s[..i], s[i], s[i + 1..j], s[j], s[j + 1..]);
  }

  lemma {:induction false} NoDupPermutation<T>(s: seq<T>, t: seq<T>)
    requires multiset(s) == multiset(t)
    requires NoDup(t)
    ensures NoDup(s)
  {
    forall i, j | 0 <= i < j < |s|
      ensures s[i] != s[j]
    {
      NoDupMultiplicity(t, s[i]);
      if s[i] == s[j] {
        TwiceThere(s, i, j);
      }
    }
  }

  ghost function Elements<T>(s: seq<T>): set<T> {
    set x | x in s
  }

  lemma {:induction false} ElementCount<T>(s: seq<T>)
    ensures |Elements(s)| <= |s| && (NoDup(s) ==> |Elements(s)| == |s|)
  {
    if |s| == 0 {
      assert Elements(s) == {};
    } else {
      var n := |s| - 1;
      ElementCount(s[..n]);
      assert Elements(s) == Elements(s[..n]) + {s[n]};
    }
  }

  lemma SubsetCount<T>(a: set<T>, b: set<T>)
    requires a <= b
    ensures |a| <= |b| && (|a| == |b| ==> a == b)
  {
    assert b == a + (b - a);
  }

  function Map<S, T>(s: seq<S>, f: S -> T): (r: seq<T>)
    ensures |r| == |s|
    ensures forall i :: 0 <= i < |s| ==> r[i] == f(s[i])
  {
    seq(|s|, i requires 0 <= i < |s| => f(s[i]))
  }

  lemma MapRemoveAt<S, T>(s: seq<S>, k: nat, f: S -> T)
    requires k < |s|
    ensures Map(RemoveAt(s, k), f) == RemoveAt(Map(s, f), k)
  {
  }

  lemma {:induction false} MapPermutation<S, T>(s: seq<S>, t: seq<S>, f: S -> T)
    requires multiset(s) == multiset(t)
    ensures multiset(Map(s, f)) == multiset(Map(t, f))
    decreases |s|
  {
    if |s| == 0 {
      assert |multiset(t)| == |t|;
    } else {
      var k := LastInPermutation(s, t);
      var n := |s| - 1;
      MapPermutation(s[..n], RemoveAt(t, k), f);
      assert Map(s, f) == Map(s[..n], f) + [f(s[n])];
      MapRemoveAt(t, k, f);
      var image := Map(t, f);
      RemoveAtMultiset(image, k);
      assert image[k] in multiset(image);
    }
  }

  datatype Option<T> = None | Some(value: T)

  function Kept<T>(x: Option<T>): seq<T> {
    if x.None? then [] else [x.value]
  }

  function FilterMap<S, T>(s: seq<S>, f: S -> Option<T>): seq<T> {
    if |s| == 0 then [] else FilterMap(s[..|s| - 1], f) + Kept(f(s[|s| - 1]))
  }

  lemma FilterMapOne<S, T>(s: seq<S>, x: S, f: S -> Option<T>)
    ensures FilterMap(s + [x], f) == FilterMap(s, f) + Kept(f(x))
  {
    assert (s + [x])[..|s|] == s;
  }

  lemma TakeStep<T>(s: seq<T>, i: nat)
    requires i < |s|
    ensures s[..i + 1] == s[..i] + [s[i]]
  {
  }

  lemma FilterMapStep<S, T>(s: seq<S>, i: nat, f: S -> Option<T>)
    requires i < |s|
    ensures FilterMap(s[..i + 1], f) == FilterMap(s[..i], f) + Kept(f(s[i]))
  {
    TakeStep(s, i);
    FilterMapOne(s[..i], s[i], f);
  }

  lemma WholeTake<T>(s: seq<T>)
    ensures s[..|s|] == s && s + [] == s
  {
  }

  lemma {:induction false} FilterMapConcat<S, T>(s: seq<S>, t: seq<S>, f: S -> Option<T>)
    ensures FilterMap(s + t, f) == FilterMap(s, f) + FilterMap(t, f)
  {
    if |t| == 0 {
      WholeTake(s);
      WholeTake(FilterMap(s, f));
    } else {
      var init, x := t[..|t| - 1], t[|t| - 1];
      FilterMapConcat(s, init, f);
      FilterMapOne(s + init, x, f);
      TakeStep(t, |t| - 1);
      WholeTake(t);
      Associate(s, init, [x]);
      Associate(FilterMap(s, f), FilterMap(init, f), Kept(f(x)));
    }
  }

  lemma FilterMapAround<S, T>(a: seq<S>, x: S, b: seq<S>, f: S -> Option<T>)
    ensures FilterMap(a + [x] + b, f) == FilterMap(a, f) + Kept(f(x)) + FilterMap(b, f)
  {
    FilterMapConcat(a + [x], b, f);
    assert (a + [x])[..|a|] == a;
  }

  lemma FilterMapRemoveAt<S, T>(s: seq<S>, k: nat, f: S -> Option<T>)
    requires k < |s|
    ensures multiset(FilterMap(s, f)) == multiset(FilterMap(RemoveAt(s, k), f)) + multiset(Kept(f(s[k])))
  {
    SplitAt(s, k);
    FilterMapAround(s[..k], s[k], s[k + 1..], f);
    FilterMapConcat(s[..k], s[k + 1..], f);
  }

  lemma {:induction false} FilterMapPermutation<S, T>(s: seq<S>, t: seq<S>, f: S -> Option<T>)
    requires multiset(s) == multiset(t)
    ensures multiset(FilterMap(s, f)) == multiset(FilterMap(t, f))
    decreases |s|
  {
    if |s| == 0 {
      assert |multiset(t)| == |t|;
    } else {
      var k := LastInPermutation(s, t);
      FilterMapPermutation(s[..|s| - 1], RemoveAt(t, k), f);
      FilterMapRemoveAt(t, k, f);
    }
  }

  lemma {:induction false} FilterMapPointwise<S, T>(s: seq<S>, f: S -> Option<T>, g: S -> Option<T>)
    requires forall x :: x in s ==> f(x) == g(x)
    ensures FilterMap(s, f) == FilterMap(s, g)
  {
    if |s| > 0 {
      FilterMapPointwise(s[..|s| - 1], f, g);
    }
  }

  lemma {:induction false} FilterMapMembers<S, T>(s: seq<S>, f: S -> Option<T>)
    ensures forall y :: y in FilterMap(s, f) <==> exists x :: x in s && f(x) == Some(y)
  {
    if |s| > 0 {
      var n := |s| - 1;
      FilterMapMembers(s[..n], f);
      assert s == s[..n] + [s[n]];
    }
  }

  lemma {:induction false} CountFiltered<S, T>(s: seq<S>, f: S -> Option<T>, p: T -> bool, q: S -> bool)
    requires forall x :: x in s ==> q(x) == (f(x).Some? && p(f(x).value))
    ensures Count(FilterMap(s, f), p) == Count(s, q)
  {
    if |s| > 0 {
      var n := |s| - 1;
      CountFiltered(s[..n], f, p, q);
      if f(s[n]).Some? {
        assert FilterMap(s, f)[..|FilterMap(s[..n], f)|] == FilterMap(s[..n], f);
      } else {
        WholeTake(FilterMap(s[..n], f));
      }
    }
  }

  lemma {:induction false} FilterMapLength<S, T>(s: seq<S>, f: S -> Option<T>, q: S -> bool)
    requires forall x :: x in s ==> q(x) == f(x).Some?
    ensures |FilterMap(s, f)| == Count(s, q)
  {
    if |s| > 0 {
      FilterMapLength(s[..|s| - 1], f, q);
    }
  }

  /** No two different elements share a key. */
  ghost predicate KnownBy<T, K>(s: seq<T>, key: T -> K) {
    forall x, y :: x in s && y in s && key(x) == key(y) ==> x == y
  }

  lemma FilterMapSource<S, T>(s: seq<S>, f: S -> Option<T>, y: T) returns (x: S)
    requires y in FilterMap(s, f)
    ensures x in s && f(x) == Some(y)
  {
    FilterMapMembers(s, f);
    x :| x in s && f(x) == Some(y);
  }

  lemma FilterMapKeepsKey<S, T, K>(s: seq<S>, f: S -> Option<T>, key: S -> K, key': T -> K)
    requires KnownBy(s, key)
    requires forall x :: x in s && f(x).Some? ==> key'(f(x).value) == key(x)
    ensures KnownBy(FilterMap(s, f), key')
  {
    forall x, y | x in FilterMap(s, f) && y in FilterMap(s, f) && key'(x) == key'(y)
      ensures x == y
    {
      var x0 := FilterMapSource(s, f, x);
      var y0 := FilterMapSource(s, f, y);
      assert x0 == y0;
    }
  }

  // ----- orders -----

  /** What sort.Slice asks of its comparison: a strict weak order. */
  ghost predicate StrictWeak<T(!new)>(less: (T, T) -> bool) {
    && (forall x, y :: less(x, y) ==> !less(y, x))
    && (forall x, y, z :: less(x, z) ==> less(x, y) || less(y, z))
  }

  ghost predicate Sorted<T>(s: seq<T>, less: (T, T) -> bool) {
    forall i, j :: 0 <= i < j < |s| ==> !less(s[j], s[i])
  }

  /** What any correct sort may return: unstable sorts differ only among these. */
  ghost predicate IsSortOf<T>(s: seq<T>, input: seq<T>, less: (T, T) -> bool) {
    multiset(s) == multiset(input) && Sorted(s, less)
  }

  function Below<T>(less: (T, T) -> bool, bound: T): T -> bool {
    x => less(x, bound)
  }

  /** Two sorts of the same data agree position by position up to the order's ties. */
  lemma SortsAgree<T(!new)>(s: seq<T>, t: seq<T>, less: (T, T) -> bool, i: nat)
    requires StrictWeak(less)
    requires Sorted(s, less) && Sorted(t, less)
    requires multiset(s) == multiset(t)
    requires i < |s|
    ensures |s| == |t| && !less(s[i], t[i])
  {
    PermutationMembers(s, t);
    if less(s[i], t[i]) {
      CountPermutation(s, t, Below(less, t[i]));
      CountAtMost(t, i, Below(less, t[i]));
      forall j | 0 <= j < i + 1
        ensures less(s[j], t[i])
      {
        assert less(s[i], s[j]) || less(s[j], t[i]);
      }
      CountAtLeast(s, i + 1, Below(less, t[i]));
    }
  }

  /** If elements the order cannot separate are equal, there is only one sort. */
  lemma SortUnique<T(!new)>(s: seq<T>, t: seq<T>, less: (T, T) -> bool)
    requires StrictWeak(less)
    requires Sorted(s, less) && Sorted(t, less)
    requires multiset(s) == multiset(t)
    requires forall x, y :: x in s && y in s && !less(x, y) && !less(y, x) ==> x == y
    ensures s == t
  {
    PermutationMembers(s, t);
    forall i | 0 <= i < |s|
      ensures s[i] == t[i]
    {
      SortsAgree(s, t, less, i);
      SortsAgree(t, s, less, i);
      assert t[i] in s;
    }
  }

  // ----- stable sorts -----

  /** The elements that the order cannot tell from `x`. */
  function TiedWith<T>(less: (T, T) -> bool, x: T): T -> Option<T> {
    y => if less(x, y) || less(y, x) then None else Some(y)
  }

  /** What a stable sort returns: ties keep the order they had. */
  ghost predicate IsStableSortOf<T(!new)>(s: seq<T>, input: seq<T>, less: (T, T) -> bool) {
    IsSortOf(s, input, less) && SameTies(s, input, less)
  }

  ghost predicate SameTies<T(!new)>(s: seq<T>, t: seq<T>, less: (T, T) -> bool) {
    forall x :: FilterMap(s, TiedWith(less, x)) == FilterMap(t, TiedWith(less, x))
  }

  lemma {:induction false} FilterMapNone<S, T>(s: seq<S>, f: S -> Option<T>)
    requires forall x :: x in s ==> f(x) == None
    ensures FilterMap(s, f) == []
  {
    if |s| > 0 {
      FilterMapNone(s[..|s| - 1], f);
    }
  }

  lemma LastTie<T(!new)>(s: seq<T>, x: T, less: (T, T) -> bool)
    requires |s| > 0 && TiedWith(less, x)(s[|s| - 1]).Some?
    ensures FilterMap(s, TiedWith(less, x)) == FilterMap(s[..|s| - 1], TiedWith(less, x)) + [s[|s| - 1]]
  {
  }

  lemma SameLast<T(!new)>(s: seq<T>, t: seq<T>, less: (T, T) -> bool)
    requires StrictWeak(less) && Sorted(s, less) && Sorted(t, less)
    requires multiset(s) == multiset(t) && SameTies(s, t, less) && |s| > 0
    ensures |s| == |t| && s[|s| - 1] == t[|t| - 1]
  {
    var n := |s| - 1;
    SortsAgree(s, t, less, n);
    SortsAgree(t, s, less, n);
    LastTie(s, s[n], less);
    LastTie(t, s[n], less);
    var f := TiedWith(less, s[n]);
    SameEnd(FilterMap(s[..n], f), s[n], FilterMap(t[..|t| - 1], f), t[|t| - 1]);
  }

  lemma SameEnd<T>(a: seq<T>, x: T, b: seq<T>, y: T)
    requires a + [x] == b + [y]
    ensures x == y
  {
    assert (a + [x])[|a|] == x && (b + [y])[|b|] == y && |a| == |b|;
  }

  lemma SameButLast<T>(s: seq<T>, t: seq<T>)
    requires |s| == |t| > 0 && s[..|s| - 1] == t[..|t| - 1] && s[|s| - 1] == t[|t| - 1]
    ensures s == t
  {
    TakeStep(s, |s| - 1);
    TakeStep(t, |t| - 1);
    WholeTake(s);
    WholeTake(t);
  }

  lemma EqualTails<T>(a: seq<T>, b: seq<T>, c: seq<T>)
    requires a + c == b + c
    ensures a == b
  {
    assert |a| == |b|;
    assert (a + c)[..|a|] == a && (b + c)[..|b|] == b;
  }

  lemma SameTiesBefore<T(!new)>(s: seq<T>, t: seq<T>, less: (T, T) -> bool)
    requires SameTies(s, t, less) && |s| > 0 && |t| > 0 && s[|s| - 1] == t[|t| - 1]
    ensures SameTies(s[..|s| - 1], t[..|t| - 1], less)
  {
    forall x
      ensures FilterMap(s[..|s| - 1], TiedWith(less, x)) == FilterMap(t[..|t| - 1], TiedWith(less, x))
    {
      var f := TiedWith(less, x);
      EqualTails(FilterMap(s[..|s| - 1], f), FilterMap(t[..|t| - 1], f), Kept(f(s[|s| - 1])));
    }
  }

  lemma MultisetBeforeLast<T>(s: seq<T>)
    requires |s| > 0
    ensures multiset(s[..|s| - 1]) == multiset(s) - multiset{s[|s| - 1]}
  {
    TakeStep(s, |s| - 1);
    WholeTake(s);
  }

  lemma SortedBeforeLast<T>(s: seq<T>, less: (T, T) -> bool)
    requires |s| > 0 && Sorted(s, less)
    ensures Sorted(s[..|s| - 1], less)
  {
  }

  lemma {:induction false} SortedWithSameTies<T(!new)>(s: seq<T>, t: seq<T>, less: (T, T) -> bool)
    requires StrictWeak(less) && Sorted(s, less) && Sorted(t, less)
    requires multiset(s) == multiset(t) && SameTies(s, t, less)
    ensures s == t
    decreases |s|
  {
    assert |multiset(s)| == |multiset(t)|;
    if |s| > 0 {
      var n := |s| - 1;
      SameLast(s, t, less);
      SameTiesBefore(s, t, less);
      MultisetBeforeLast(s);
      MultisetBeforeLast(t);
      SortedBeforeLast(s, less);
      SortedBeforeLast(t, less);
      SortedWithSameTies(s[..n], t[..n], less);
      SameButLast(s, t);
    }
  }

  /** There is only one stable sort, whatever the ties. */
  lemma StableSortUnique<T(!new)>(s: seq<T>, t: seq<T>, input: seq<T>, less: (T, T) -> bool)
    requires StrictWeak(less)
    requires IsStableSortOf(s, input, less) && IsStableSortOf(t, input, less)
    ensures s == t
  {
    assert SameTies(s, t, less);
    SortedWithSameTies(s, t, less);
  }
}
