/** A run in which an open order is starved: with a sweep limit of 1, the younger of two live orders is swept
    again and again (internal/runtime/autopilot.go). */
module StarvationRun {
  import opened LiveRouting
  import opened OrderLog
  import opened PendingHistory
  import opened PilotRuns
  import opened Reconciling
  import opened Sequences
  import opened SweepStarvation
  import Text

  const LIVE := LiveConfig({"m"}, map[], map[], 0.0, 0, 0.0, {})
  const CONFIG := PilotConfig(LIVE, ReconcileConfig(1, 1, 1), 1)

  /** The exchange keeps answering that the order is live. */
  const ANSWERS: seq<Attempt> := [Attempt(Open("live"), true, true, true)]

  function OrderFor(key: string): LiveOrder { LiveOrder(key, "m", "US", 10.0) }

  function AnswerFor(orderID: string): PostAnswer { PostAnswer(false, true, orderID, "live") }

  function Place(signalID: string, orderID: string): Event {
    Execute(signalID, OrderFor(orderID), true, AnswerFor(orderID), true, ANSWERS)
  }

  // ----- one reconciliation -----

  lemma LiveIsNormal()
    ensures Normalize("live") == "live" && !IsTerminal("live")
  {
    PlainIsNormal("live");
    assert "live" !in TERMINAL;
  }

  lemma PendingWordIsNormal()
    ensures Normalize("reconcile_pending") == "reconcile_pending" && !IsTerminal("reconcile_pending")
  {
    NotTerminal("reconcile_pending");
  }

  lemma LiveIsObserved()
    ensures Observed("live") == "live"
  {
    LiveIsNormal();
  }

  lemma NormalizedLive(a: Attempt)
    requires a.answer.Open? && Observed(a.answer.status) == a.answer.status
    ensures Normalized()(a) == a
  {
  }

  lemma SameScript(script: seq<Attempt>)
    requires forall k :: 0 <= k < |script| ==> Normalized()(script[k]) == script[k]
    ensures ObservedScript(script) == script
  {
  }

  lemma ObservedLive()
    ensures ObservedScript(ANSWERS) == ANSWERS
  {
    LiveIsObserved();
    NormalizedLive(ANSWERS[0]);
    SameScript(ANSWERS);
  }

  lemma OneAttempt(t: Terms, status: string)
    requires t.maxAttempts == 1 && !t.terminal("live")
    ensures Attempts(t, ANSWERS, 0, status).written == Change(status, "live") + [t.pending]
  {
  }

  lemma ReconciledLive(orderID: string, status: string)
    requires Text.TrimSpace(orderID) != "" && !IsTerminal(status) && Normalize(status) == status
    ensures Reconcile(CONFIG.reconcile, ANSWERS, orderID, status).written ==
            Change(status, "live") + ["reconcile_pending"]
  {
    LiveIsNormal();
    ObservedLive();
    OneAttempt(TermsOf(CONFIG.reconcile), status);
  }

  lemma IDIsKept(orderID: string)
    requires Plain(orderID)
    ensures Text.TrimSpace(orderID) != ""
  {
    PlainIsNormal(orderID);
    PlainCharStays(orderID[0]);
    PlainCharStays(orderID[|orderID| - 1]);
    Text.TrimSpaceOfTrimmed(orderID);
  }

  // ----- the log -----

  function Row(clock: nat -> int, n: nat, signalID: string, orderID: string, status: string): OrderRecord {
    OrderRecord(signalID, status, orderID, clock(n))
  }

  /** The row that records an answer and the one that closes its reconciliation. */
  function TwoRows(clock: nat -> int, n: nat, signalID: string, orderID: string): seq<OrderRecord> {
    [Row(clock, n, signalID, orderID, "live"), Row(clock, n + 1, signalID, orderID, "reconcile_pending")]
  }

  lemma AppendTwo(clock: nat -> int, log: seq<OrderRecord>, signalID: string, orderID: string, a: string, b: string)
    ensures Append(clock, log, signalID, orderID, [a, b]) ==
            log + [Row(clock, |log|, signalID, orderID, a), Row(clock, |log| + 1, signalID, orderID, b)]
  {
    AppendOne(clock, log, signalID, orderID, a);
    AppendOne(clock, Append(clock, log, signalID, orderID, [a]), signalID, orderID, b);
    AppendConcat(clock, log, signalID, orderID, [a], [b]);
    assert [a] + [b] == [a, b];
  }

  lemma AppendOne(clock: nat -> int, log: seq<OrderRecord>, signalID: string, orderID: string, a: string)
    ensures Append(clock, log, signalID, orderID, [a]) == log + [Row(clock, |log|, signalID, orderID, a)]
  {
    assert [a][..0] == [];
  }

  lemma PlacedLog(clock: nat -> int, log: seq<OrderRecord>, signalID: string, orderID: string)
    requires Plain(orderID)
    ensures ExecuteLog(CONFIG, clock, log, signalID, AnswerFor(orderID), ANSWERS) ==
            log + TwoRows(clock, |log|, signalID, orderID)
  {
    IDIsKept(orderID);
    LiveIsNormal();
    ReconciledLive(orderID, "live");
    assert [] + ["reconcile_pending"] == ["reconcile_pending"];
    AppendConcat(clock, log, signalID, orderID, ["live"], ["reconcile_pending"]);
    assert ["live"] + ["reconcile_pending"] == ["live", "reconcile_pending"];
    AppendTwo(clock, log, signalID, orderID, "live", "reconcile_pending");
  }

  lemma SweptStatuses(row: OrderRecord)
    requires Plain(row.orderID) && row.status == "reconcile_pending"
    ensures Statuses(CONFIG, row, ANSWERS) == ["live", "reconcile_pending"]
    ensures StaysOpenAfter(CONFIG, row, ANSWERS)
  {
    IDIsKept(row.orderID);
    PendingWordIsNormal();
    ReconciledLive(row.orderID, row.status);
    assert ["live"] + ["reconcile_pending"] == ["live", "reconcile_pending"];
  }

  // ----- the run -----

  lemma PlacedOrderPasses(ledger: Ledger, key: string)
    requires key != "" && key !in ledger.seenKeys
    ensures Decide(LIVE, ledger, Kill(false, ""), SubmissionOf(OrderFor(key), true)) == Accepted
  {
  }

  function AfterPlacing(clock: nat -> int, st: RunState, signalID: string, orderID: string): RunState {
    RunState(Book(LIVE, st.ledger, OrderFor(orderID)), st.accepted + [OrderFor(orderID)], st.kill,
             st.posted + [Posting(signalID, OrderFor(orderID), orderID)],
             st.log + TwoRows(clock, |st.log|, signalID, orderID))
  }

  lemma Placing(clock: nat -> int, st: RunState, signalID: string, orderID: string)
    requires Plain(orderID) && st.kill == Kill(false, "") && orderID !in st.ledger.seenKeys
    requires forall k :: 0 <= k < |st.log| ==> st.log[k].orderID != orderID
    ensures Enabled(CONFIG, st, Place(signalID, orderID))
    ensures Step(CONFIG, clock, st, Place(signalID, orderID)) == AfterPlacing(clock, st, signalID, orderID)
  {
    PlacedOrderPasses(st.ledger, orderID);
    PlacedLog(clock, st.log, signalID, orderID);
  }

  function First(clock: nat -> int): RunState { AfterPlacing(clock, INITIAL, "s", "b") }

  function Second(clock: nat -> int): RunState { AfterPlacing(clock, First(clock), "t", "a") }

  lemma FirstPlacing(clock: nat -> int)
    ensures Enabled(CONFIG, INITIAL, Place("s", "b"))
    ensures Step(CONFIG, clock, INITIAL, Place("s", "b")) == First(clock)
  {
    Placing(clock, INITIAL, "s", "b");
  }

  lemma NothingOfTheOther(clock: nat -> int, orderID: string)
    requires orderID != "b"
    ensures orderID !in First(clock).ledger.seenKeys && First(clock).kill == Kill(false, "")
    ensures forall k :: 0 <= k < |First(clock).log| ==> First(clock).log[k].orderID != orderID
  {
  }

  lemma SecondPlacing(clock: nat -> int)
    ensures Enabled(CONFIG, First(clock), Place("t", "a"))
    ensures Step(CONFIG, clock, First(clock), Place("t", "a")) == Second(clock)
  {
    assert "a" != "b";
    NothingOfTheOther(clock, "a");
    Placing(clock, First(clock), "t", "a");
  }

  lemma SecondLog(clock: nat -> int)
    ensures Second(clock).log ==
            [Row(clock, 0, "s", "b", "live"), Row(clock, 1, "s", "b", "reconcile_pending"),
             Row(clock, 2, "t", "a", "live"), Row(clock, 3, "t", "a", "reconcile_pending")]
  {
  }

  lemma PendingWordIsPending()
    ensures SqlPending("reconcile_pending")
  {
    PendingWordIsNormal();
    FiltersComplement("reconcile_pending");
  }

  /** The younger order fills the query, the older one is pending outside it. */
  lemma YoungerFillsQuery(clock: nat -> int)
    requires Increasing(clock)
    ensures var log := Second(clock).log;
            && |log| == 4 && log[1].orderID == "b" && IsPending(log, 1)
            && Indices(log, [3]) && IsPendingQuery(log, 1, [3]) && OrderIDs(Rows(log, [3])) == {"a"}
  {
    var log := Second(clock).log;
    SecondLog(clock);
    PendingWordIsPending();
    assert IsPending(log, 1) && IsPending(log, 3);
    assert ListsPending(log, 3, [3]);
    assert Map(Rows(log, [3]), OrderIDOf()) == ["a"];
  }

  lemma SweepFinishesNothing(clock: nat -> int)
    requires Increasing(clock)
    ensures FinishesNothing(CONFIG, Second(clock), Sweep([3], [ANSWERS]))
  {
    var st := Second(clock);
    YoungerFillsQuery(clock);
    SecondLog(clock);
    SweptStatuses(st.log[3]);
    assert Rows(st.log, [3])[0] == st.log[3];
  }

  ghost predicate Starves(cfg: PilotConfig, clock: nat -> int, states: seq<RunState>, events: seq<Event>,
                          rows: seq<nat>, r: nat)
  {
    && IsRun(cfg, clock, states, events) && |events| == 3 && events[2].Sweep?
    && NothingFinishes(cfg, states, events, 2, 3)
    && Indices(states[2].log, rows) && IsPendingQuery(states[2].log, cfg.sweepLimit, rows)
    && |rows| == cfg.sweepLimit
    && r < |states[2].log| && IsPending(states[2].log, r)
    && states[2].log[r].orderID !in OrderIDs(Rows(states[2].log, rows))
  }

  lemma SecondStarves(clock: nat -> int, states: seq<RunState>, events: seq<Event>)
    requires Increasing(clock) && IsRun(CONFIG, clock, states, events) && |events| == 3
    requires states[2] == Second(clock) && events[2] == Sweep([3], [ANSWERS])
    ensures Starves(CONFIG, clock, states, events, [3], 1)
  {
    YoungerFillsQuery(clock);
    SweepFinishesNothing(clock);
  }

  lemma RunOfThree(clock: nat -> int, s1: RunState, s2: RunState, e0: Event, e1: Event, e2: Event)
      returns (states: seq<RunState>, events: seq<Event>)
    requires Enabled(CONFIG, INITIAL, e0) && s1 == Step(CONFIG, clock, INITIAL, e0)
    requires Enabled(CONFIG, s1, e1) && s2 == Step(CONFIG, clock, s1, e1)
    requires Enabled(CONFIG, s2, e2)
    ensures IsRun(CONFIG, clock, states, events) && |events| == 3 && states[2] == s2 && events[2] == e2
  {
    events := [e0, e1, e2];
    states := [INITIAL, s1, s2, Step(CONFIG, clock, s2, e2)];
  }

  lemma SomeRunStarves(clock: nat -> int, s1: RunState, s2: RunState, e0: Event, e1: Event)
    requires Increasing(clock) && s2 == Second(clock)
    requires Enabled(CONFIG, INITIAL, e0) && s1 == Step(CONFIG, clock, INITIAL, e0)
    requires Enabled(CONFIG, s1, e1) && s2 == Step(CONFIG, clock, s1, e1)
    ensures exists states: seq<RunState>, events: seq<Event> :: Starves(CONFIG, clock, states, events, [3], 1)
  {
    SweepFinishesNothing(clock);
    var states, events := RunOfThree(clock, s1, s2, e0, e1, Sweep([3], [ANSWERS]));
    SecondStarves(clock, states, events);
  }

  /** Starvation happens: after two placements the older order is pending, the full query names the younger
      one only, and a sweep finishes nothing. */
  lemma StarvationHappens(clock: nat -> int)
    requires Increasing(clock)
    ensures exists states: seq<RunState>, events: seq<Event> :: Starves(CONFIG, clock, states, events, [3], 1)
  {
    FirstPlacing(clock);
    SecondPlacing(clock);
    SomeRunStarves(clock, First(clock), Second(clock), Place("s", "b"), Place("t", "a"));
  }
}
