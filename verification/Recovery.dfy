/** The replay-and-backfill runbook: detect gaps, fill them, persist them to the ledger
    (docs/runbooks/replay-backfill.md over internal/ingestion). */
module Recovery {
  import opened FixedWidth
  import opened Ingestion

  /** What one pass of the runbook's first two steps makes of a ledger. */
  ghost predicate Recovers(ledger: seq<RawEvent>, ts: int, gaps: seq<SequenceGap>, filled: seq<RawEvent>,
                           ledger': seq<RawEvent>) {
    && IsGapList(Present(ledger), gaps)
    && IsFill(gaps, ts, filled)
    && ledger' == AllWritten(ledger, filled)
  }

  method Recover(w: MemoryRawWriter, baseTS: int, now: int)
    returns (ghost gaps: seq<SequenceGap>, ghost filled: seq<RawEvent>)
    requires w.Valid()
    modifies w
    ensures w.Valid()
    ensures Recovers(old(w.Events()), if baseTS == ZERO_TIME then now else baseTS, gaps, filled, w.Events())
  {
    var events := w.List();
    var detected, backfill := DetectAndFill(events, baseTS, now);
    gaps, filled := detected, backfill;
    WriteAll(w, backfill);
  }

  method DetectAndFill(events: seq<RawEvent>, baseTS: int, now: int)
    returns (gaps: seq<SequenceGap>, filled: seq<RawEvent>)
    ensures IsGapList(Present(events), gaps)
    ensures IsFill(gaps, if baseTS == ZERO_TIME then now else baseTS, filled)
  {
    gaps := DetectSequenceGaps(events);
    filled := FillGaps(gaps, baseTS, now);
    AllFillsIsFill(gaps, if baseTS == ZERO_TIME then now else baseTS);
  }

  method WriteAll(w: MemoryRawWriter, events: seq<RawEvent>)
    requires w.Valid()
    modifies w
    ensures w.Valid() && w.Events() == AllWritten(old(w.Events()), events)
  {
    for i := 0 to |events|
      invariant w.Valid() && w.Events() == AllWritten(old(w.Events()), events[..i])
    {
      assert events[..i + 1][..i] == events[..i];
      var stored, err := w.Write(events[i]);
    }
    assert events[..|events|] == events;
  }

  lemma FillIsWritable(gaps: seq<SequenceGap>, ts: int, filled: seq<RawEvent>)
    requires IsFill(gaps, ts, filled) && ts != ZERO_TIME
    ensures DistinctIDs(filled) && forall e :: e in filled ==> Acceptable(e)
  {
    forall i, j | 0 <= i < j < |filled|
      ensures filled[i].id != filled[j].id
    {
      if filled[i].id == filled[j].id {
        BackfillIDsDiffer(filled[i].sequence as int, filled[j].sequence as int);
      }
    }
  }

  /** Recovery keeps every event and adds one backfill event per missing number, except where the
      ledger already holds that event's id. */
  lemma RecoveredEvents(ledger: seq<RawEvent>, ts: int, gaps: seq<SequenceGap>, filled: seq<RawEvent>,
                        ledger': seq<RawEvent>)
    requires DistinctIDs(ledger) && ts != ZERO_TIME && Recovers(ledger, ts, gaps, filled, ledger')
    ensures ledger <= ledger' && DistinctIDs(ledger')
    ensures forall e :: e in ledger' <==> e in ledger || Added(ledger, ts, e)
  {
    FillIsWritable(gaps, ts, filled);
    AllWrittenMembers(ledger, filled);
    forall e
      ensures e in ledger' <==> e in ledger || Added(ledger, ts, e)
    {
      assert Covered(gaps, e.sequence) <==> Missing(Present(ledger), e.sequence);
      assert e in filled <==> e == Backfill(e.sequence, ts) && Covered(gaps, e.sequence);
    }
  }

  ghost predicate Added(ledger: seq<RawEvent>, ts: int, e: RawEvent) {
    Missing(Present(ledger), e.sequence) && e == Backfill(e.sequence, ts) && !HasID(ledger, e.id)
  }

  /** No event of the ledger carries the backfill id of a number that is missing. */
  ghost predicate NoForeignIDs(ledger: seq<RawEvent>) {
    forall n :: Missing(Present(ledger), n) ==> !HasID(ledger, BackfillID(n as int))
  }

  lemma AddedNumbers(ledger: seq<RawEvent>, ts: int, gaps: seq<SequenceGap>, filled: seq<RawEvent>,
                     ledger': seq<RawEvent>, n: int64)
    requires DistinctIDs(ledger) && ts != ZERO_TIME && Recovers(ledger, ts, gaps, filled, ledger')
    ensures n in Present(ledger') <==>
            n in Present(ledger) || (Missing(Present(ledger), n) && !HasID(ledger, BackfillID(n as int)))
  {
    RecoveredEvents(ledger, ts, gaps, filled, ledger');
    if n in Present(ledger') {
      var e :| e in ledger' && e.sequence > 0 && e.sequence == n;
      assert e in ledger || Added(ledger, ts, e);
    }
    if n in Present(ledger) {
      var e :| e in ledger && e.sequence > 0 && e.sequence == n;
      assert e in ledger';
    }
    if Missing(Present(ledger), n) && !HasID(ledger, BackfillID(n as int)) {
      MissingIsPositive(ledger, n);
      assert Added(ledger, ts, Backfill(n, ts));
      assert Backfill(n, ts) in ledger';
    }
  }

  lemma MissingIsPositive(events: seq<RawEvent>, n: int64)
    requires Missing(Present(events), n)
    ensures n > 0
  {
    var lo :| lo in Present(events) && lo < n;
  }

  /** What is missing afterwards is what was missing and could not be written. */
  lemma StillMissing(ledger: seq<RawEvent>, ts: int, gaps: seq<SequenceGap>, filled: seq<RawEvent>,
                     ledger': seq<RawEvent>, n: int64)
    requires DistinctIDs(ledger) && ts != ZERO_TIME && Recovers(ledger, ts, gaps, filled, ledger')
    ensures Missing(Present(ledger'), n) <==>
            Missing(Present(ledger), n) && HasID(ledger, BackfillID(n as int))
  {
    AddedNumbers(ledger, ts, gaps, filled, ledger', n);
    if Missing(Present(ledger'), n) {
      var lo, hi :| lo in Present(ledger') && lo < n && hi in Present(ledger') && n < hi;
      AddedNumbers(ledger, ts, gaps, filled, ledger', lo);
      AddedNumbers(ledger, ts, gaps, filled, ledger', hi);
    }
    if Missing(Present(ledger), n) {
      var lo, hi :| lo in Present(ledger) && lo < n && hi in Present(ledger) && n < hi;
      AddedNumbers(ledger, ts, gaps, filled, ledger', lo);
      AddedNumbers(ledger, ts, gaps, filled, ledger', hi);
    }
  }

  lemma EmptyGapListMeansNoneMissing(present: set<int64>, gaps: seq<SequenceGap>)
    requires IsGapList(present, gaps)
    ensures gaps == [] <==> forall n :: !Missing(present, n)
  {
    if gaps != [] {
      assert InGap(gaps[0], gaps[0].from);
      assert Covered(gaps, gaps[0].from);
    }
  }

  /** The detector finds nothing in the recovered ledger exactly when no foreign event sat on a needed
      backfill id. */
  lemma RecoveryIsComplete(ledger: seq<RawEvent>, ts: int, gaps: seq<SequenceGap>, filled: seq<RawEvent>,
                           ledger': seq<RawEvent>, gaps': seq<SequenceGap>)
    requires DistinctIDs(ledger) && ts != ZERO_TIME && Recovers(ledger, ts, gaps, filled, ledger')
    requires IsGapList(Present(ledger'), gaps')
    ensures gaps' == [] <==> NoForeignIDs(ledger)
  {
    EmptyGapListMeansNoneMissing(Present(ledger'), gaps');
    forall n
      ensures Missing(Present(ledger'), n) <==> Missing(Present(ledger), n) && HasID(ledger, BackfillID(n as int))
    {
      StillMissing(ledger, ts, gaps, filled, ledger', n);
    }
  }

  /** Then the numbers present are exactly those from the least to the greatest, and each missing one
      was added by one event. */
  lemma RecoveredRange(ledger: seq<RawEvent>, ts: int, gaps: seq<SequenceGap>, filled: seq<RawEvent>,
                       ledger': seq<RawEvent>, n: int64)
    requires DistinctIDs(ledger) && ts != ZERO_TIME && Recovers(ledger, ts, gaps, filled, ledger')
    requires NoForeignIDs(ledger)
    ensures n in Present(ledger') <==> exists lo, hi :: lo in Present(ledger) && hi in Present(ledger) && lo <= n <= hi
    ensures Missing(Present(ledger), n) ==>
              Backfill(n, ts) in ledger' && forall e :: e in ledger' && e.sequence == n ==> e == Backfill(n, ts)
  {
    AddedNumbers(ledger, ts, gaps, filled, ledger', n);
    if lo, hi :| lo in Present(ledger) && hi in Present(ledger) && lo <= n <= hi {
      assert n in Present(ledger) || Missing(Present(ledger), n);
    }
    if Missing(Present(ledger), n) {
      RecoveredEvents(ledger, ts, gaps, filled, ledger');
      MissingIsPositive(ledger, n);
      assert Added(ledger, ts, Backfill(n, ts));
      forall e | e in ledger' && e.sequence == n
        ensures e == Backfill(n, ts)
      {
        assert e in ledger ==> e.sequence in Present(ledger);
        assert e in ledger || Added(ledger, ts, e);
      }
    }
  }

  lemma {:induction false} NothingWritten(events: seq<RawEvent>, more: seq<RawEvent>)
    requires forall i :: 0 <= i < |more| ==> HasID(events, more[i].id)
    ensures AllWritten(events, more) == events
  {
    if more != [] {
      NothingWritten(events, more[..|more| - 1]);
    }
  }

  /** A second recovery, at whatever time, adds nothing. */
  lemma SecondRecoveryAddsNothing(ledger: seq<RawEvent>, ts: int, gaps: seq<SequenceGap>, filled: seq<RawEvent>,
                                  ledger': seq<RawEvent>, ts': int, gaps': seq<SequenceGap>, filled': seq<RawEvent>,
                                  ledger'': seq<RawEvent>)
    requires DistinctIDs(ledger) && ts != ZERO_TIME && Recovers(ledger, ts, gaps, filled, ledger')
    requires Recovers(ledger', ts', gaps', filled', ledger'')
    ensures ledger'' == ledger'
  {
    RecoveredEvents(ledger, ts, gaps, filled, ledger');
    forall i | 0 <= i < |filled'|
      ensures HasID(ledger', filled'[i].id)
    {
      var n := filled'[i].sequence;
      assert Backfill(n, ts') in filled';
      StillMissing(ledger, ts, gaps, filled, ledger', n);
      var k :| 0 <= k < |ledger| && ledger[k].id == BackfillID(n as int);
      assert ledger'[k] == ledger[k];
    }
    NothingWritten(ledger', filled');
  }
}
