/** Rows that never leave the pending query, over whole runs of the autopilot
    (internal/persistence/store.go, internal/runtime/autopilot.go). */
module PendingHistory {
  import opened LiveRouting
  import opened OrderLog
  import opened PilotRuns
  import opened Reconciling
  import opened Sequences
  import Text

  // ----- only an order's first row may be spelt otherwise -----

  /** Every row of an order but its first is in normal form. */
  ghost predicate LaterRowsNormal(normal: string -> bool, log: seq<OrderRecord>) {
    forall i, j :: 0 <= i < j < |log| && log[i].orderID == log[j].orderID != "" ==> normal(log[j].status)
  }

  function Normal(): string -> bool { (status: string) => NormalForm(status) }

  ghost predicate AllNormal(normal: string -> bool, statuses: seq<string>) {
    forall k :: 0 <= k < |statuses| ==> normal(statuses[k])
  }

  lemma NormalRowsKeepNormal(normal: string -> bool, clock: nat -> int, log: seq<OrderRecord>, signalID: string,
                             orderID: string, statuses: seq<string>)
    requires LaterRowsNormal(normal, log) && AllNormal(normal, statuses)
    ensures LaterRowsNormal(normal, Append(clock, log, signalID, orderID, statuses))
  {
    AppendRows(clock, log, signalID, orderID, statuses);
    var log' := Append(clock, log, signalID, orderID, statuses);
    PrefixRows(log, log');
    forall i, j | 0 <= i < j < |log'| && log'[i].orderID == log'[j].orderID != ""
      ensures normal(log'[j].status)
    {
      if j >= |log| {
        assert log'[j].status == statuses[j - |log|];
      }
    }
  }

  lemma FirstRowKeepsNormal(normal: string -> bool, clock: nat -> int, log: seq<OrderRecord>, signalID: string,
                            orderID: string, status: string)
    requires LaterRowsNormal(normal, log)
    requires orderID == "" || forall k :: 0 <= k < |log| ==> log[k].orderID != orderID
    ensures LaterRowsNormal(normal, Append(clock, log, signalID, orderID, [status]))
  {
    AppendRows(clock, log, signalID, orderID, [status]);
    PrefixRows(log, Append(clock, log, signalID, orderID, [status]));
  }

  lemma ReconcileKeepsNormal(cfg: PilotConfig, clock: nat -> int, log: seq<OrderRecord>, row: OrderRecord,
                             script: seq<Attempt>)
    requires ScriptOk(cfg, script) && LaterRowsNormal(Normal(), log)
    ensures LaterRowsNormal(Normal(), ReconcileLog(cfg, clock, log, row, script))
  {
    var written := Reconcile(cfg.reconcile, script, row.orderID, row.status).written;
    forall k | 0 <= k < |written|
      ensures Normal()(written[k])
    {
      WritesNormalForms(cfg.reconcile, script, row.orderID, row.status, written[k]);
    }
    NormalRowsKeepNormal(Normal(), clock, log, row.signalID, row.orderID, written);
  }

  lemma {:induction false} SweepKeepsNormal(cfg: PilotConfig, clock: nat -> int, log: seq<OrderRecord>,
                                            rows: seq<OrderRecord>, scripts: seq<seq<Attempt>>)
    requires |rows| <= |scripts| && forall k :: 0 <= k < |scripts| ==> ScriptOk(cfg, scripts[k])
    requires LaterRowsNormal(Normal(), log)
    ensures LaterRowsNormal(Normal(), SweepLog(cfg, clock, log, rows, scripts))
    decreases |rows|
  {
    if rows != [] {
      ReconcileKeepsNormal(cfg, clock, log, rows[0], scripts[0]);
      SweepKeepsNormal(cfg, clock, ReconcileLog(cfg, clock, log, rows[0], scripts[0]), rows[1..], scripts[1..]);
    }
  }

  lemma StepKeepsNormal(cfg: PilotConfig, clock: nat -> int, st: RunState, e: Event)
    requires Enabled(cfg, st, e) && LaterRowsNormal(Normal(), st.log)
    ensures LaterRowsNormal(Normal(), Step(cfg, clock, st, e).log)
  {
    match e {
      case Execute(signalID, _, _, post, _, script) =>
        var status := RecordedStatus(post);
        FirstRowKeepsNormal(Normal(), clock, st.log, signalID, "", "blocked");
        FirstRowKeepsNormal(Normal(), clock, st.log, signalID, post.orderID, status);
        ReconcileKeepsNormal(cfg, clock, Append(clock, st.log, signalID, post.orderID, [status]),
                             OrderRecord(signalID, status, post.orderID, 0), script);
      case Sweep(rows, scripts) =>
        SweepKeepsNormal(cfg, clock, st.log, Rows(st.log, rows), scripts);
      case _ =>
    }
  }

  /** Over whole runs, every row of an order but its first, the one that records the answer to the posting,
      is in normal form. */
  lemma {:induction false} OnlyFirstRowsAreRaw(cfg: PilotConfig, clock: nat -> int, states: seq<RunState>,
                                               events: seq<Event>, i: nat)
    requires IsRun(cfg, clock, states, events) && i <= |events|
    ensures LaterRowsNormal(Normal(), states[i].log)
  {
    if i > 0 {
      OnlyFirstRowsAreRaw(cfg, clock, states, events, i - 1);
      StepKeepsNormal(cfg, clock, states[i - 1], events[i - 1]);
    }
  }

  // ----- terminal rows that stay pending -----

  /** A terminal row is its order's latest. */
  lemma TerminalRowIsLatest(cfg: PilotConfig, clock: nat -> int, states: seq<RunState>, events: seq<Event>, i: nat,
                            r: nat)
    requires Increasing(clock) && IsRun(cfg, clock, states, events) && i <= |events|
    requires r < |states[i].log| && states[i].log[r].orderID != "" && IsTerminal(states[i].log[r].status)
    ensures IsLatest(states[i].log, r)
  {
    RunInvariant(cfg, clock, states, events, i);
    StampedIsChronological(clock, states[i].log);
    LatestIsLast(states[i].log, r);
    forall k | r < k < |states[i].log|
      ensures states[i].log[k].orderID != states[i].log[r].orderID
    {
      NothingFollowsTerminal(cfg, clock, states, events, i, r, k);
    }
  }

  lemma TerminalPending(status: string)
    requires IsTerminal(status)
    ensures SqlPending(status) <==> !NormalForm(status)
  {
    FiltersComplement(status);
    if NormalForm(status) {
      assert status in TERMINAL;
    }
  }

  /** In every reachable state, a finished order is still in the pending query exactly when the row that
      finished it is not in normal form. */
  lemma FinishedOrderPendingExactlyWhen(cfg: PilotConfig, clock: nat -> int, states: seq<RunState>,
                                        events: seq<Event>, i: nat, r: nat)
    requires Increasing(clock) && IsRun(cfg, clock, states, events) && i <= |events|
    requires r < |states[i].log| && states[i].log[r].orderID != "" && IsTerminal(states[i].log[r].status)
    ensures IsPending(states[i].log, r) <==> !NormalForm(states[i].log[r].status)
  {
    TerminalRowIsLatest(cfg, clock, states, events, i, r);
    TerminalPending(states[i].log[r].status);
  }

  lemma StepGrowsLog(cfg: PilotConfig, clock: nat -> int, st: RunState, e: Event)
    requires Enabled(cfg, st, e)
    ensures st.log <= Step(cfg, clock, st, e).log
  {
    match e {
      case Execute(signalID, _, _, post, _, script) =>
        var status := RecordedStatus(post);
        var posted := Append(clock, st.log, signalID, post.orderID, [status]);
        AppendRows(clock, st.log, signalID, "", ["blocked"]);
        AppendRows(clock, st.log, signalID, post.orderID, [status]);
        AppendRows(clock, posted, signalID, post.orderID,
                   Reconcile(cfg.reconcile, script, post.orderID, status).written);
      case Sweep(rows, scripts) =>
        SweepGrowsLog(cfg, clock, st.log, Rows(st.log, rows), scripts);
      case _ =>
    }
  }

  lemma {:induction false} SweepGrowsLog(cfg: PilotConfig, clock: nat -> int, log: seq<OrderRecord>,
                                         rows: seq<OrderRecord>, scripts: seq<seq<Attempt>>)
    requires |rows| <= |scripts| && forall k :: 0 <= k < |scripts| ==> ScriptOk(cfg, scripts[k])
    ensures log <= SweepLog(cfg, clock, log, rows, scripts)
    decreases |rows|
  {
    if rows != [] {
      var written := Reconcile(cfg.reconcile, scripts[0], rows[0].orderID, rows[0].status).written;
      AppendRows(clock, log, rows[0].signalID, rows[0].orderID, written);
      SweepGrowsLog(cfg, clock, ReconcileLog(cfg, clock, log, rows[0], scripts[0]), rows[1..], scripts[1..]);
    }
  }

  ghost predicate LogsGrow(states: seq<RunState>) {
    forall i :: 0 <= i < |states| - 1 ==> states[i].log <= states[i + 1].log
  }

  lemma RunsGrow(cfg: PilotConfig, clock: nat -> int, states: seq<RunState>, events: seq<Event>)
    requires IsRun(cfg, clock, states, events)
    ensures LogsGrow(states)
  {
    forall i | 0 <= i < |states| - 1
      ensures states[i].log <= states[i + 1].log
    {
      StepGrowsLog(cfg, clock, states[i], events[i]);
    }
  }

  lemma PrefixOfPrefix(a: seq<OrderRecord>, b: seq<OrderRecord>, c: seq<OrderRecord>)
    requires a <= b <= c
    ensures a <= c
  {
  }

  lemma {:induction false} LogGrows(states: seq<RunState>, i: nat, j: nat)
    requires LogsGrow(states) && i <= j < |states|
    ensures states[i].log <= states[j].log
  {
    if i < j {
      LogGrows(states, i, j - 1);
      PrefixOfPrefix(states[i].log, states[j - 1].log, states[j].log);
    }
  }

  /** An order whose terminal status was recorded in another spelling stays in the pending query for ever. */
  lemma RawTerminalRowStaysPending(cfg: PilotConfig, clock: nat -> int, states: seq<RunState>, events: seq<Event>,
                                   i: nat, j: nat, r: nat)
    requires Increasing(clock) && IsRun(cfg, clock, states, events) && i <= j <= |events|
    requires r < |states[i].log| && states[i].log[r].orderID != ""
    requires IsTerminal(states[i].log[r].status) && !NormalForm(states[i].log[r].status)
    ensures r < |states[j].log| && IsPending(states[j].log, r)
  {
    RunsGrow(cfg, clock, states, events);
    LogGrows(states, i, j);
    PrefixRows(states[i].log, states[j].log);
    FinishedOrderPendingExactlyWhen(cfg, clock, states, events, j, r);
  }

  // ----- "Filled" -----

  lemma FilledIsTrimmed()
    ensures Text.TrimSpace("Filled") == "Filled"
  {
    Text.TrimSpaceOfTrimmed("Filled");
  }

  lemma FilledInLower()
    ensures Text.ToLower("Filled") == "filled"
  {
  }

  lemma FilledIsRaw()
    ensures Normalize("Filled") == "filled" && IsTerminal("Filled") && !NormalForm("Filled")
  {
    FilledIsTrimmed();
    FilledInLower();
    assert "Filled"[0] != "filled"[0];
  }

  const FILLED_ORDER := LiveOrder("k", "m", "US", 10.0)
  const FILLED_LIVE := LiveConfig({"m"}, map[], map[], 0.0, 0, 0.0, {})
  const FILLED_CONFIG := PilotConfig(FILLED_LIVE, ReconcileConfig(1, 1, 1), 50)

  function FilledEvent(script: seq<Attempt>): Event {
    Execute("s", FILLED_ORDER, true, PostAnswer(false, true, "o", "Filled"), true, script)
  }

  lemma FilledOrderPasses()
    ensures Decide(FILLED_LIVE, EMPTY_LEDGER, Kill(false, ""), SubmissionOf(FILLED_ORDER, true)) == Accepted
  {
  }

  lemma FilledIsSkipped(script: seq<Attempt>)
    requires |script| == 1
    ensures Reconcile(FILLED_CONFIG.reconcile, script, "o", "Filled").written == []
  {
    FilledIsRaw();
  }

  lemma FilledLog(clock: nat -> int, script: seq<Attempt>)
    requires |script| == 1
    ensures ExecuteLog(FILLED_CONFIG, clock, [], "s", PostAnswer(false, true, "o", "Filled"), script) ==
            [OrderRecord("s", "Filled", "o", clock(0))]
  {
    FilledIsSkipped(script);
    var posted := Append(clock, [], "s", "o", ["Filled"]);
    assert ["Filled"][..0] == [];
    assert posted == [OrderRecord("s", "Filled", "o", clock(0))];
  }

  /** It happens on an ordinary run: an order that the exchange reports "Filled" at once is pending after. */
  lemma FilledOrderIsPending(clock: nat -> int, script: seq<Attempt>)
    requires Increasing(clock) && |script| == 1
    ensures Enabled(FILLED_CONFIG, INITIAL, FilledEvent(script))
    ensures var log := Step(FILLED_CONFIG, clock, INITIAL, FilledEvent(script)).log;
            |log| == 1 && IsTerminal(log[0].status) && IsPending(log, 0)
  {
    FilledOrderPasses();
    FilledLog(clock, script);
    FilledIsRaw();
    TerminalPending("Filled");
  }
}
