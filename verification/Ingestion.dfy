/** The raw-event ledger, gap detection and backfill (internal/ingestion). */
module Ingestion {
  import opened FixedWidth
  import opened Sequences
  import opened Sorting
  import opened Text

  newtype int64 = x: int | -0x8000_0000_0000_0000 <= x < 0x8000_0000_0000_0000

  const MAX_INT64: int64 := 0x7FFF_FFFF_FFFF_FFFF

  datatype RawEvent = RawEvent(
    id: string,
    sequence: int64,
    source: string,
    payload: string,
    sourceTS: int,
    ingestTS: int,
    normalizedTS: int)

  datatype SequenceGap = SequenceGap(from: int64, to: int64)

  // ----- the ledger -----

  predicate Acceptable(e: RawEvent) {
    e.id != "" && e.sourceTS != ZERO_TIME && e.ingestTS != ZERO_TIME && e.normalizedTS != ZERO_TIME
  }

  predicate HasID(events: seq<RawEvent>, id: string) {
    exists i :: 0 <= i < |events| && events[i].id == id
  }

  ghost predicate DistinctIDs(events: seq<RawEvent>) {
    forall i, j :: 0 <= i < j < |events| ==> events[i].id != events[j].id
  }

  function Written(events: seq<RawEvent>, e: RawEvent): seq<RawEvent> {
    if Acceptable(e) && !HasID(events, e.id) then events + [e] else events
  }

  function AllWritten(events: seq<RawEvent>, more: seq<RawEvent>): seq<RawEvent> {
    if more == [] then events else Written(AllWritten(events, more[..|more| - 1]), more[|more| - 1])
  }

  lemma WrittenKeepsDistinct(events: seq<RawEvent>, e: RawEvent)
    requires DistinctIDs(events)
    ensures DistinctIDs(Written(events, e)) && events <= Written(events, e)
  {
  }

  /** Writing a batch adds exactly those of its events whose ids the ledger lacks. */
  lemma {:induction false} AllWrittenMembers(events: seq<RawEvent>, more: seq<RawEvent>)
    requires DistinctIDs(events) && DistinctIDs(more)
    requires forall e :: e in more ==> Acceptable(e)
    ensures var all := AllWritten(events, more);
            && events <= all && DistinctIDs(all)
            && forall e :: e in all <==> e in events || (e in more && !HasID(events, e.id))
  {
    if more != [] {
      var n := |more| - 1;
      var before, last := AllWritten(events, more[..n]), more[n];
      AllWrittenMembers(events, more[..n]);
      WrittenKeepsDistinct(before, last);
      LastIsNew(events, more, before);
      forall e
        ensures e in Written(before, last) <==> e in events || (e in more && !HasID(events, e.id))
      {
        assert e in more <==> e in more[..n] || e == last;
        assert e in Written(before, last) <==> e in before || (e == last && !HasID(events, last.id));
      }
    }
  }

  lemma LastIsNew(events: seq<RawEvent>, more: seq<RawEvent>, before: seq<RawEvent>)
    requires more != [] && DistinctIDs(more)
    requires forall e :: e in before <==> e in events || (e in more[..|more| - 1] && !HasID(events, e.id))
    ensures HasID(before, more[|more| - 1].id) <==> HasID(events, more[|more| - 1].id)
  {
    var last := more[|more| - 1];
    if HasID(events, last.id) {
      var i :| 0 <= i < |events| && events[i].id == last.id;
      assert events[i] in before;
    }
    if HasID(before, last.id) {
      var i :| 0 <= i < |before| && before[i].id == last.id;
      assert before[i] in before;
    }
  }

  class MemoryRawWriter {
    var byID: map<string, RawEvent>
    var order: seq<string>

    ghost predicate Valid()
      reads this
    {
      && NoDup(order)
      && (forall id :: id in order <==> id in byID)
      && forall id :: id in byID ==> byID[id].id == id
    }

    ghost function Events(): (events: seq<RawEvent>)
      requires Valid()
      reads this
      ensures |events| == |order| && forall i :: 0 <= i < |order| ==> events[i] == byID[order[i]]
      ensures DistinctIDs(events)
    {
      seq(|order|, i requires 0 <= i < |order| reads this requires Valid() => byID[order[i]])
    }

    constructor ()
      ensures Valid() && Events() == []
    {
      byID, order := map[], [];
    }

    method Write(event: RawEvent) returns (stored: bool, err: bool)
      requires Valid()
      modifies this
      ensures Valid() && Events() == Written(old(Events()), event)
      ensures err <==> event.id == "" || ZERO_TIME in {event.sourceTS, event.ingestTS, event.normalizedTS}
      ensures stored <==> !err && forall e :: e in old(Events()) ==> e.id != event.id
      ensures Events() == if stored then old(Events()) + [event] else old(Events())
    {
      if event.id == "" {
        return false, true;
      }
      if event.sourceTS == ZERO_TIME || event.ingestTS == ZERO_TIME || event.normalizedTS == ZERO_TIME {
        return false, true;
      }
      ghost var before := Events();
      if event.id in byID {
        var i :| 0 <= i < |order| && order[i] == event.id;
        assert before[i].id == event.id;
        return false, false;
      }
      byID := byID[event.id := event];
      order := order + [event.id];
      assert Events() == before + [event];
      return true, false;
    }

    method Get(id: string) returns (found: bool, event: RawEvent)
      requires Valid()
      ensures found <==> exists e :: e in Events() && e.id == id
      ensures found ==> event in Events() && event.id == id
    {
      if id in byID {
        var i :| 0 <= i < |order| && order[i] == id;
        assert Events()[i].id == id;
        return true, byID[id];
      }
      return false, RawEvent("", 0, "", "", ZERO_TIME, ZERO_TIME, ZERO_TIME);
    }

    method List() returns (events: seq<RawEvent>)
      requires Valid()
      ensures events == Events()
    {
      events := [];
      for i := 0 to |order|
        invariant events == Events()[..i]
      {
        events := events + [byID[order[i]]];
      }
    }
  }

  // ----- gaps -----

  /** The positive sequence numbers present. */
  function Present(events: seq<RawEvent>): set<int64> {
    set e | e in events && e.sequence > 0 :: e.sequence
  }

  ghost predicate InGap(g: SequenceGap, n: int64) {
    g.from <= n <= g.to
  }

  ghost predicate Covered(gaps: seq<SequenceGap>, n: int64) {
    exists i :: 0 <= i < |gaps| && InGap(gaps[i], n)
  }

  /** `n` is absent although smaller and larger numbers are present. */
  ghost predicate Missing(present: set<int64>, n: int64) {
    n !in present && (exists lo :: lo in present && lo < n) && (exists hi :: hi in present && n < hi)
  }

  ghost predicate Ascending(gaps: seq<SequenceGap>) {
    && (forall i :: 0 <= i < |gaps| ==> 0 < gaps[i].from <= gaps[i].to < MAX_INT64)
    && forall i, j :: 0 <= i < j < |gaps| ==> gaps[i].to < gaps[j].from
  }

  ghost predicate Flanked(present: set<int64>, gaps: seq<SequenceGap>)
    requires Ascending(gaps)
  {
    forall i :: 0 <= i < |gaps| ==> gaps[i].from - 1 in present && gaps[i].to + 1 in present
  }

  /** The gaps are the missing numbers, in ascending, separate runs, each between two present numbers. */
  ghost predicate IsGapList(present: set<int64>, gaps: seq<SequenceGap>) {
    && Ascending(gaps)
    && Flanked(present, gaps)
    && forall n :: Covered(gaps, n) <==> Missing(present, n)
  }

  /** Distinct positive numbers in ascending order, as the scan sees them. */
  ghost predicate Scannable(s: seq<int64>) {
    (forall i :: 0 <= i < |s| ==> s[i] > 0) && forall i, j :: 0 <= i < j < |s| ==> s[i] < s[j]
  }

  function Between(lo: int64, hi: int64): seq<SequenceGap>
    requires 0 < lo < hi
  {
    if hi - lo > 1 then [SequenceGap(lo + 1, hi - 1)] else []
  }

  function GapsOf(s: seq<int64>): seq<SequenceGap>
    requires Scannable(s)
  {
    if |s| < 2 then [] else GapsOf(s[..|s| - 1]) + Between(s[|s| - 2], s[|s| - 1])
  }

  function Numbers(s: seq<int64>): set<int64> {
    set x | x in s
  }

  lemma {:induction false} GapsOfAscending(s: seq<int64>)
    requires Scannable(s)
    ensures Ascending(GapsOf(s)) && Flanked(Numbers(s), GapsOf(s))
    ensures forall i :: 0 <= i < |GapsOf(s)| ==> |s| >= 2 && GapsOf(s)[i].to < s[|s| - 1]
  {
    if |s| >= 2 {
      var prefix, lo, hi := s[..|s| - 1], s[|s| - 2], s[|s| - 1];
      GapsOfAscending(prefix);
      assert s == prefix + [hi];
      assert lo in prefix;
      AppendGap(Numbers(prefix), GapsOf(prefix), lo, hi);
      assert Numbers(s) == Numbers(prefix) + {hi};
    }
  }

  lemma AppendGap(present: set<int64>, gaps: seq<SequenceGap>, lo: int64, hi: int64)
    requires Ascending(gaps) && Flanked(present, gaps)
    requires 0 < lo < hi && lo in present && forall i :: 0 <= i < |gaps| ==> gaps[i].to < lo
    ensures Ascending(gaps + Between(lo, hi)) && Flanked(present + {hi}, gaps + Between(lo, hi))
    ensures forall i :: 0 <= i < |gaps + Between(lo, hi)| ==> (gaps + Between(lo, hi))[i].to < hi
  {
  }

  lemma MemberOfLast(s: seq<int64>, n: int64)
    requires |s| > 0
    ensures n in s <==> n in s[..|s| - 1] || n == s[|s| - 1]
  {
    TakeStep(s, |s| - 1);
    WholeTake(s);
  }

  lemma ScannedUpTo(s: seq<int64>, n: int64)
    requires Scannable(s) && n in s
    ensures s[0] <= n <= s[|s| - 1]
  {
  }

  lemma {:induction false} GapsOfCovers(s: seq<int64>, n: int64)
    requires Scannable(s)
    ensures Covered(GapsOf(s), n) <==> |s| > 0 && s[0] < n < s[|s| - 1] && n !in s
  {
    if |s| >= 2 {
      var prefix, lo, hi := s[..|s| - 1], s[|s| - 2], s[|s| - 1];
      GapsOfCovers(prefix, n);
      CoveredConcat(GapsOf(prefix), Between(lo, hi), n);
      CoveredBetween(lo, hi, n);
      MemberOfLast(s, n);
      if n in prefix {
        ScannedUpTo(prefix, n);
      }
      assert prefix[|prefix| - 1] == lo && prefix[0] == s[0];
    }
  }

  lemma CoveredConcat(a: seq<SequenceGap>, b: seq<SequenceGap>, n: int64)
    ensures Covered(a + b, n) <==> Covered(a, n) || Covered(b, n)
  {
    if Covered(a, n) {
      var i :| 0 <= i < |a| && InGap(a[i], n);
      assert InGap((a + b)[i], n);
    }
    if Covered(b, n) {
      var i :| 0 <= i < |b| && InGap(b[i], n);
      assert InGap((a + b)[|a| + i], n);
    }
  }

  lemma CoveredBetween(lo: int64, hi: int64, n: int64)
    requires 0 < lo < hi
    ensures Covered(Between(lo, hi), n) <==> lo < n < hi
  {
    if hi - lo > 1 {
      assert InGap(Between(lo, hi)[0], n) <==> lo < n < hi;
    }
  }

  lemma MissingInScan(s: seq<int64>, n: int64)
    requires Scannable(s)
    ensures Missing(Numbers(s), n) <==> |s| > 0 && s[0] < n < s[|s| - 1] && n !in s
  {
    if |s| > 0 {
      assert s[0] in Numbers(s) && s[|s| - 1] in Numbers(s);
      assert forall x :: x in s ==> s[0] <= x <= s[|s| - 1];
    }
  }

  lemma GapsOfIsGapList(s: seq<int64>)
    requires Scannable(s)
    ensures IsGapList(Numbers(s), GapsOf(s))
  {
    GapsOfAscending(s);
    forall n
      ensures Covered(GapsOf(s), n) <==> Missing(Numbers(s), n)
    {
      GapsOfCovers(s, n);
      MissingInScan(s, n);
    }
  }

  function Int64Less(): (int64, int64) -> bool { (x: int64, y: int64) => x < y }

  lemma SortedIsScannable(s: seq<int64>, input: seq<int64>)
    requires IsSortOf(s, input, Int64Less()) && NoDup(input) && forall x :: x in input ==> x > 0
    ensures Scannable(s) && Numbers(s) == Numbers(input)
  {
    NoDupPermutation(s, input);
    PermutationMembers(s, input);
    assert forall i :: 0 <= i < |s| ==> s[i] in input;
    forall i, j | 0 <= i < j < |s|
      ensures s[i] < s[j]
    {
      assert !Int64Less()(s[j], s[i]);
    }
  }

  lemma PresentStep(events: seq<RawEvent>, e: RawEvent)
    ensures Present(events + [e]) == Present(events) + if e.sequence > 0 then {e.sequence} else {}
  {
    assert forall x :: x in events + [e] <==> x in events || x == e;
  }

  method DetectSequenceGaps(events: seq<RawEvent>) returns (gaps: seq<SequenceGap>)
    ensures IsGapList(Present(events), gaps)
  {
    var distinct: seq<int64>, seen: set<int64> := [], {};
    for i := 0 to |events|
      invariant NoDup(distinct) && (forall x :: x in seen <==> x in distinct)
      invariant forall x :: x in distinct ==> x > 0
      invariant Numbers(distinct) == Present(events[..i])
    {
      PresentStep(events[..i], events[i]);
      assert events[..i + 1] == events[..i] + [events[i]];
      var n := events[i].sequence;
      assert n in seen <==> n in Numbers(distinct);
      if n > 0 && n !in seen {
        seen := seen + {n};
        assert Numbers(distinct + [n]) == Numbers(distinct) + {n};
        distinct := distinct + [n];
      }
    }
    assert events[..|events|] == events;
    gaps := ScanSorted(distinct);
  }

  /** The in-place sort, and the scan that compares each number with the one before. */
  method ScanSorted(distinct: seq<int64>) returns (gaps: seq<SequenceGap>)
    requires NoDup(distinct) && forall x :: x in distinct ==> x > 0
    ensures IsGapList(Numbers(distinct), gaps)
  {
    var a := new int64[|distinct|](i requires 0 <= i < |distinct| => distinct[i]);
    assert a[..] == distinct;
    SortSlice(a, Int64Less());
    SortedIsScannable(a[..], distinct);
    GapsOfIsGapList(a[..]);
    gaps := Scan(a[..]);
  }

  method Scan(s: seq<int64>) returns (gaps: seq<SequenceGap>)
    requires Scannable(s)
    ensures gaps == GapsOf(s)
  {
    gaps := [];
    if |s| < 2 {
      return;
    }
    var prev := s[0];
    for i := 1 to |s|
      invariant prev == s[i - 1] && gaps == GapsOf(s[..i])
    {
      var curr := s[i];
      assert s[..i + 1][..i] == s[..i];
      if curr - prev > 1 {
        gaps := gaps + [SequenceGap(prev + 1, curr - 1)];
      }
      prev := curr;
    }
    assert s[..|s|] == s;
  }

  // ----- backfill -----

  function BackfillID(n: int): string {
    "backfill-" + FormatInt(n)
  }

  function Backfill(n: int64, ts: int): RawEvent {
    RawEvent(BackfillID(n as int), n, "backfill", "{\"closure\":true}", ts, ts, ts)
  }

  lemma BackfillIDsDiffer(m: int, n: int)
    requires BackfillID(m) == BackfillID(n)
    ensures m == n
  {
    assert BackfillID(m)[9..] == FormatInt(m) && BackfillID(n)[9..] == FormatInt(n);
    FormatIntInjective(m, n);
  }

  /** One event per number of each gap, in order. */
  ghost predicate IsFill(gaps: seq<SequenceGap>, ts: int, filled: seq<RawEvent>) {
    && (forall i :: 0 <= i < |filled| ==> filled[i] == Backfill(filled[i].sequence, ts))
    && (forall i, j :: 0 <= i < j < |filled| ==> filled[i].sequence < filled[j].sequence)
    && (forall n :: Covered(gaps, n) <==> Backfill(n, ts) in filled)
  }

  lemma FillConcat(a: seq<SequenceGap>, x: seq<RawEvent>, b: seq<SequenceGap>, y: seq<RawEvent>, ts: int)
    requires IsFill(a, ts, x) && IsFill(b, ts, y)
    requires forall i, j :: 0 <= i < |x| && 0 <= j < |y| ==> x[i].sequence < y[j].sequence
    ensures IsFill(a + b, ts, x + y)
  {
    forall n
      ensures Covered(a + b, n) <==> Backfill(n, ts) in x + y
    {
      CoveredConcat(a, b, n);
    }
  }

  /** What is filled in before a gap lies before it. */
  lemma EarlierFillIsSmaller(gaps: seq<SequenceGap>, g: nat, ts: int, filled: seq<RawEvent>, i: nat)
    requires Ascending(gaps) && g < |gaps| && IsFill(gaps[..g], ts, filled) && i < |filled|
    ensures filled[i].sequence < gaps[g].from
  {
    var n := filled[i].sequence;
    assert Backfill(n, ts) in filled;
    var h :| 0 <= h < |gaps[..g]| && InGap(gaps[..g][h], n);
    assert gaps[h].to < gaps[g].from;
  }

  /** The events of the numbers from gap.from to gap.to, one each. */
  function FillOf(gap: SequenceGap, ts: int): (filled: seq<RawEvent>)
    ensures |filled| == if gap.from <= gap.to then gap.to as int - gap.from as int + 1 else 0
    ensures forall i :: 0 <= i < |filled| ==> filled[i] == Backfill((gap.from as int + i) as int64, ts)
  {
    if gap.from > gap.to then []
    else
      seq(gap.to as int - gap.from as int + 1,
          i requires 0 <= i < gap.to as int - gap.from as int + 1 => Backfill((gap.from as int + i) as int64, ts))
  }

  function AllFills(gaps: seq<SequenceGap>, ts: int): seq<RawEvent> {
    if |gaps| == 0 then [] else AllFills(gaps[..|gaps| - 1], ts) + FillOf(gaps[|gaps| - 1], ts)
  }

  lemma CoveredByOne(gap: SequenceGap, n: int64)
    ensures Covered([gap], n) <==> InGap(gap, n)
  {
    assert [gap][0] == gap;
  }

  lemma FillOfOne(gap: SequenceGap, ts: int)
    requires gap.from <= gap.to
    ensures IsFill([gap], ts, FillOf(gap, ts))
    ensures forall i :: 0 <= i < |FillOf(gap, ts)| ==> gap.from <= FillOf(gap, ts)[i].sequence
  {
    var filled := FillOf(gap, ts);
    forall n
      ensures Covered([gap], n) <==> Backfill(n, ts) in filled
    {
      CoveredByOne(gap, n);
      if InGap(gap, n) {
        assert filled[n as int - gap.from as int] == Backfill(n, ts);
      }
    }
  }

  /** One more gap behind the others. */
  lemma FillOneMore(gaps: seq<SequenceGap>, gap: SequenceGap, ts: int, filled: seq<RawEvent>)
    requires gap.from <= gap.to && IsFill(gaps, ts, filled)
    requires forall i :: 0 <= i < |filled| ==> filled[i].sequence < gap.from
    ensures IsFill(gaps + [gap], ts, filled + FillOf(gap, ts))
  {
    FillOfOne(gap, ts);
    FillConcat(gaps, filled, [gap], FillOf(gap, ts), ts);
  }

  /** For what the detector returns, the fill is one event per missing number, in order. */
  lemma {:induction false} AllFillsIsFill(gaps: seq<SequenceGap>, ts: int)
    requires Ascending(gaps)
    ensures IsFill(gaps, ts, AllFills(gaps, ts))
  {
    if |gaps| > 0 {
      var n := |gaps| - 1;
      var before := AllFills(gaps[..n], ts);
      AllFillsIsFill(gaps[..n], ts);
      forall i | 0 <= i < |before|
        ensures before[i].sequence < gaps[n].from
      {
        EarlierFillIsSmaller(gaps, n, ts, before, i);
      }
      FillOneMore(gaps[..n], gaps[n], ts, before);
      TakeStep(gaps, n);
      WholeTake(gaps);
    }
  }

  /** A gap whose counting loop ends: see CountingLoopEnds. */
  predicate Countable(gap: SequenceGap) {
    gap.from > gap.to || gap.to < MAX_INT64
  }

  /** What a backfill event looks like. */
  ghost predicate ClosesGap(e: RawEvent, ts: int) {
    && e.id == "backfill-" + FormatInt(e.sequence as int) && e.source == "backfill"
    && e.payload == "{\"closure\":true}"
    && e.sourceTS == ts && e.ingestTS == ts && e.normalizedTS == ts
  }

  /** `now` replaces a zero base time. */
  method FillGaps(gaps: seq<SequenceGap>, baseTS: int, now: int) returns (filled: seq<RawEvent>)
    requires forall i :: 0 <= i < |gaps| ==> Countable(gaps[i])
    ensures filled == AllFills(gaps, if baseTS == ZERO_TIME then now else baseTS)
    ensures forall i :: 0 <= i < |filled| ==> ClosesGap(filled[i], if baseTS == ZERO_TIME then now else baseTS)
  {
    var ts := if baseTS == ZERO_TIME then now else baseTS;
    filled := [];
    for g := 0 to |gaps|
      invariant filled == AllFills(gaps[..g], ts)
      invariant forall i :: 0 <= i < |filled| ==> ClosesGap(filled[i], ts)
    {
      assert gaps[..g + 1][..g] == gaps[..g];
      var one := FillGap(gaps[g], ts);
      filled := filled + one;
    }
    assert gaps[..|gaps|] == gaps;
  }

  /** The inner loop over one gap. */
  method FillGap(gap: SequenceGap, ts: int) returns (filled: seq<RawEvent>)
    requires Countable(gap)
    ensures filled == FillOf(gap, ts)
    ensures forall i :: 0 <= i < |filled| ==> ClosesGap(filled[i], ts)
  {
    filled := [];
    if gap.from > gap.to {
      return;
    }
    var n := gap.from;
    while n <= gap.to
      invariant gap.from <= n <= gap.to + 1
      invariant filled == FillOf(gap, ts)[..n as int - gap.from as int]
      invariant forall i :: 0 <= i < |filled| ==> ClosesGap(filled[i], ts)
      decreases gap.to as int - n as int
    {
      filled := filled + [RawEvent("backfill-" + FormatInt(n as int), n, "backfill", "{\"closure\":true}", ts, ts, ts)];
      n := n + 1;
    }
  }

  // ----- the counting loop at the end of int64 -----

  function Int64Plus(x: int64, k: int): int64 {
    Wrap64(x as int + k) as int64
  }

  /** `for seq := from; seq <= to; seq++` with wrap-around ends exactly when the range is empty or stops
      short of the largest int64. */
  lemma CountingLoopEnds(gap: SequenceGap)
    ensures (exists k: nat :: Int64Plus(gap.from, k) > gap.to) <==> Countable(gap)
  {
    if gap.from > gap.to {
      assert Int64Plus(gap.from, 0) > gap.to;
    } else if gap.to < MAX_INT64 {
      var k := gap.to as int + 1 - gap.from as int;
      assert Int64Plus(gap.from, k) == gap.to + 1;
    }
  }
}
