/** Go's sort.Slice and sort.SliceStable, known to their callers by their contracts alone: the slice is
    sorted in place; only the stable one says in which order ties come out. */
module Sorting {
  import opened Sequences

  function Insert<T>(x: T, s: seq<T>, less: (T, T) -> bool): seq<T> {
    if |s| == 0 || less(x, s[0]) then [x] + s else [s[0]] + Insert(x, s[1..], less)
  }

  lemma {:induction false} InsertMultiset<T>(x: T, s: seq<T>, less: (T, T) -> bool)
    ensures multiset(Insert(x, s, less)) == multiset(s) + multiset{x}
  {
    if |s| == 0 || less(x, s[0]) {
    } else {
      assert s == [s[0]] + s[1..];
      InsertMultiset(x, s[1..], less);
    }
  }

  lemma {:induction false} InsertSorted<T(!new)>(x: T, s: seq<T>, less: (T, T) -> bool)
    requires StrictWeak(less) && Sorted(s, less)
    ensures Sorted(Insert(x, s, less), less)
  {
    if |s| == 0 {
    } else if less(x, s[0]) {
      forall y | y in s
        ensures !less(y, x)
      {
        assert !less(y, s[0]);
      }
    } else {
      var rest := Insert(x, s[1..], less);
      InsertSorted(x, s[1..], less);
      InsertMultiset(x, s[1..], less);
      forall y | y in rest
        ensures !less(y, s[0])
      {
        assert y in multiset(rest);
        if y != x {
          assert y in s[1..];
        }
      }
    }
  }

  function InsertionSort<T>(s: seq<T>, less: (T, T) -> bool): seq<T> {
    if |s| == 0 then [] else Insert(s[|s| - 1], InsertionSort(s[..|s| - 1], less), less)
  }

  lemma {:induction false} InsertionSortCorrect<T(!new)>(s: seq<T>, less: (T, T) -> bool)
    requires StrictWeak(less)
    ensures IsSortOf(InsertionSort(s, less), s, less)
  {
    if |s| > 0 {
      var n := |s| - 1;
      InsertionSortCorrect(s[..n], less);
      InsertMultiset(s[n], InsertionSort(s[..n], less), less);
      InsertSorted(s[n], InsertionSort(s[..n], less), less);
      assert s == s[..n] + [s[n]];
    }
  }

  method SortSlice<T(!new)>(a: array<T>, less: (T, T) -> bool)
    requires StrictWeak(less)
    modifies a
    ensures IsSortOf(a[..], old(a[..]), less)
  {
    var s := InsertionSort(a[..], less);
    InsertionSortCorrect(a[..], less);
    PermutationMembers(s, a[..]);
    forall i | 0 <= i < a.Length {
      a[i] := s[i];
    }
    assert a[..] == s;
  }

  // ----- sort.SliceStable -----

  lemma NothingTied<T(!new)>(x: T, s: seq<T>, y: T, less: (T, T) -> bool)
    requires StrictWeak(less) && Sorted(s, less) && |s| > 0 && less(x, s[0])
    requires TiedWith(less, y)(x).Some?
    ensures FilterMap(s, TiedWith(less, y)) == []
  {
    var first := s[0];
    forall z | z in s
      ensures TiedWith(less, y)(z) == None
    {
      assert !less(z, first);
      assert less(x, z) || less(z, first);
      assert less(x, y) || less(y, z);
    }
    FilterMapNone(s, TiedWith(less, y));
  }

  lemma FilterMapFirst<S, T>(x: S, s: seq<S>, f: S -> Option<T>)
    ensures FilterMap([x] + s, f) == Kept(f(x)) + FilterMap(s, f)
  {
    FilterMapOne([], x, f);
    assert [] + [x] == [x];
    FilterMapConcat([x], s, f);
  }

  lemma HeadAndTail<T>(s: seq<T>)
    requires |s| > 0
    ensures s == [s[0]] + s[1..]
  {
  }

  /** An inserted element comes after everything it ties with. */
  lemma {:induction false} InsertAfterTies<T(!new)>(x: T, s: seq<T>, y: T, less: (T, T) -> bool)
    requires StrictWeak(less) && Sorted(s, less)
    ensures FilterMap(Insert(x, s, less), TiedWith(less, y)) ==
            FilterMap(s, TiedWith(less, y)) + Kept(TiedWith(less, y)(x))
  {
    var f := TiedWith(less, y);
    if |s| == 0 {
      FilterMapFirst(x, s, f);
    } else if less(x, s[0]) {
      FilterMapFirst(x, s, f);
      if f(x).Some? {
        NothingTied(x, s, y, less);
      }
    } else {
      InsertAfterTies(x, s[1..], y, less);
      HeadAndTail(s);
      FilterMapFirst(s[0], s[1..], f);
      FilterMapFirst(s[0], Insert(x, s[1..], less), f);
      Associate(Kept(f(s[0])), FilterMap(s[1..], f), Kept(f(x)));
    }
  }

  lemma {:induction false} InsertionSortKeepsTies<T(!new)>(s: seq<T>, y: T, less: (T, T) -> bool)
    requires StrictWeak(less)
    ensures FilterMap(InsertionSort(s, less), TiedWith(less, y)) == FilterMap(s, TiedWith(less, y))
  {
    if |s| > 0 {
      var n := |s| - 1;
      InsertionSortKeepsTies(s[..n], y, less);
      InsertionSortCorrect(s[..n], less);
      InsertAfterTies(s[n], InsertionSort(s[..n], less), y, less);
    }
  }

  lemma InsertionSortStable<T(!new)>(s: seq<T>, less: (T, T) -> bool)
    requires StrictWeak(less)
    ensures IsStableSortOf(InsertionSort(s, less), s, less)
  {
    InsertionSortCorrect(s, less);
    forall y
      ensures FilterMap(InsertionSort(s, less), TiedWith(less, y)) == FilterMap(s, TiedWith(less, y))
    {
      InsertionSortKeepsTies(s, y, less);
    }
  }

  method SortSliceStable<T(!new)>(a: array<T>, less: (T, T) -> bool)
    requires StrictWeak(less)
    modifies a
    ensures IsStableSortOf(a[..], old(a[..]), less)
  {
    var s := InsertionSort(a[..], less);
    InsertionSortStable(a[..], less);
    PermutationMembers(s, a[..]);
    forall i | 0 <= i < a.Length {
      a[i] := s[i];
    }
    assert a[..] == s;
  }
}
