/** The autopilot's order handling over whole runs: guarded submission, posting, reconciliation and the
    periodic sweep, over one append-only attempt log (internal/runtime/autopilot.go). */
module PilotRuns {
  import opened LiveRouting
  import opened OrderLog
  import opened Reconciling
  import opened Sequences

  datatype PilotConfig = PilotConfig(live: LiveConfig, reconcile: ReconcileConfig, sweepLimit: nat)

  /** PostOrder's answer: an error, or a response that may report a rejection of its own. */
  datatype PostAnswer = PostAnswer(failed: bool, success: bool, orderID: string, status: string)

  /** A posted order and the order id it was answered with. */
  datatype Posting = Posting(signalID: string, order: LiveOrder, orderID: string)

  /** The signal and the order id that a row names. */
  datatype Names = Names(signalID: string, orderID: string)

  function RecordedStatus(post: PostAnswer): string {
    if post.failed || !post.success then "failed"
    else if post.status == "" then "submitted"
    else post.status
  }

  // ----- appending to the log -----

  /** `statuses` recorded one after the other; `clock(k)` is the time of the k-th row ever written. */
  function Append(clock: nat -> int, log: seq<OrderRecord>, signalID: string, orderID: string, statuses: seq<string>)
    : seq<OrderRecord>
  {
    if statuses == [] then log
    else
      var n := |statuses| - 1;
      var before := Append(clock, log, signalID, orderID, statuses[..n]);
      before + [OrderRecord(signalID, statuses[n], orderID, clock(|before|))]
  }

  lemma {:induction false} AppendRows(clock: nat -> int, log: seq<OrderRecord>, signalID: string, orderID: string,
                                      statuses: seq<string>)
    ensures var log' := Append(clock, log, signalID, orderID, statuses);
            && log <= log' && |log'| == |log| + |statuses|
            && forall k {:trigger log'[k]} :: |log| <= k < |log'| ==>
                 log'[k] == OrderRecord(signalID, statuses[k - |log|], orderID, clock(k))
  {
    if statuses != [] {
      AppendRows(clock, log, signalID, orderID, statuses[..|statuses| - 1]);
    }
  }

  lemma {:induction false} AppendConcat(clock: nat -> int, log: seq<OrderRecord>, signalID: string, orderID: string,
                                        first: seq<string>, second: seq<string>)
    ensures Append(clock, Append(clock, log, signalID, orderID, first), signalID, orderID, second) ==
            Append(clock, log, signalID, orderID, first + second)
  {
    if second == [] {
      assert first + [] == first;
    } else {
      var n := |second| - 1;
      AppendConcat(clock, log, signalID, orderID, first, second[..n]);
      assert (first + second)[..|first + second| - 1] == first + second[..n];
    }
  }

  // ----- terminal statuses are final -----

  /** No row follows a terminal row of the same order, so an order has at most one. */
  ghost predicate Absorbing(terminal: string -> bool, log: seq<OrderRecord>) {
    forall i, j :: 0 <= i < j < |log| && log[i].orderID == log[j].orderID && log[i].orderID != "" ==>
                     !terminal(log[i].status)
  }

  ghost predicate OpenOrder(terminal: string -> bool, log: seq<OrderRecord>, orderID: string) {
    forall i :: 0 <= i < |log| && log[i].orderID == orderID ==> !terminal(log[i].status)
  }

  lemma AppendKeepsAbsorbing(terminal: string -> bool, clock: nat -> int, log: seq<OrderRecord>, signalID: string,
                             orderID: string, statuses: seq<string>)
    requires Absorbing(terminal, log) && FinalOnlyLast(terminal, statuses)
    requires statuses != [] && orderID != "" ==> OpenOrder(terminal, log, orderID)
    ensures Absorbing(terminal, Append(clock, log, signalID, orderID, statuses))
  {
    AppendRows(clock, log, signalID, orderID, statuses);
    var log' := Append(clock, log, signalID, orderID, statuses);
    forall i, j | 0 <= i < j < |log'| && log'[i].orderID == log'[j].orderID && log'[i].orderID != ""
      ensures !terminal(log'[i].status)
    {
      assert i < |log| ==> log'[i] == log[i];
      assert j < |log| ==> log'[j] == log[j];
      assert i >= |log| ==> log'[i].status == statuses[i - |log|];
    }
  }

  lemma AppendElsewhereKeepsOpen(terminal: string -> bool, clock: nat -> int, log: seq<OrderRecord>, signalID: string,
                                 orderID: string, statuses: seq<string>, other: string)
    requires OpenOrder(terminal, log, other) && other != orderID
    ensures OpenOrder(terminal, Append(clock, log, signalID, orderID, statuses), other)
  {
    AppendRows(clock, log, signalID, orderID, statuses);
    var log' := Append(clock, log, signalID, orderID, statuses);
    forall i | 0 <= i < |log'| && log'[i].orderID == other
      ensures !terminal(log'[i].status)
    {
      assert i < |log| && log'[i] == log[i];
    }
  }

  /** The order of a latest, non-terminal row has no terminal row at all. */
  lemma LatestRowIsOpen(terminal: string -> bool, log: seq<OrderRecord>, i: nat)
    requires Absorbing(terminal, log) && Chronological(log) && IsLatest(log, i) && !terminal(log[i].status)
    ensures OpenOrder(terminal, log, log[i].orderID)
  {
    LatestIsLast(log, i);
  }

  // ----- one reconciliation and one sweep on the log -----

  predicate ScriptOk(cfg: PilotConfig, script: seq<Attempt>) {
    0 < cfg.reconcile.maxAttempts <= |script|
  }

  function ReconcileLog(cfg: PilotConfig, clock: nat -> int, log: seq<OrderRecord>, row: OrderRecord,
                        script: seq<Attempt>): seq<OrderRecord>
    requires ScriptOk(cfg, script)
  {
    Append(clock, log, row.signalID, row.orderID, Reconcile(cfg.reconcile, script, row.orderID, row.status).written)
  }

  /** The rows of the sweep's snapshot in turn, up to the first lost save. */
  function SweepLog(cfg: PilotConfig, clock: nat -> int, log: seq<OrderRecord>, rows: seq<OrderRecord>,
                    scripts: seq<seq<Attempt>>): seq<OrderRecord>
    requires |rows| <= |scripts|
    requires forall k :: 0 <= k < |scripts| ==> ScriptOk(cfg, scripts[k])
    decreases |rows|
  {
    if rows == [] then log
    else
      var row := rows[0];
      var log' := ReconcileLog(cfg, clock, log, row, scripts[0]);
      if Reconcile(cfg.reconcile, scripts[0], row.orderID, row.status).outcome == SaveFailed then log'
      else SweepLog(cfg, clock, log', rows[1..], scripts[1..])
  }

  // ----- what a sweep writes -----

  function StatusFor(orderID: string): OrderRecord -> Option<string> {
    (row: OrderRecord) => if row.orderID == orderID then Some(row.status) else None
  }

  /** The statuses recorded for an order from row `from` on. */
  function StatusesSince(log: seq<OrderRecord>, from: nat, orderID: string): seq<string>
    requires from <= |log|
  {
    FilterMap(log[from..], StatusFor(orderID))
  }

  lemma OneMoreStatus(log: seq<OrderRecord>, from: nat, row: OrderRecord, id: string)
    requires from <= |log|
    ensures StatusesSince(log + [row], from, id) ==
            StatusesSince(log, from, id) + if row.orderID == id then [row.status] else []
  {
    assert (log + [row])[from..] == log[from..] + [row];
    FilterMapOne(log[from..], row, StatusFor(id));
  }

  lemma {:induction false} AppendShows(clock: nat -> int, log: seq<OrderRecord>, signalID: string, orderID: string,
                                       statuses: seq<string>, id: string)
    ensures var log' := Append(clock, log, signalID, orderID, statuses);
            && log <= log'
            && StatusesSince(log', |log|, id) == if id == orderID then statuses else []
  {
    if statuses == [] {
      assert log[|log|..] == [];
    } else {
      var n := |statuses| - 1;
      var before := Append(clock, log, signalID, orderID, statuses[..n]);
      AppendShows(clock, log, signalID, orderID, statuses[..n], id);
      OneMoreStatus(before, |log|, OrderRecord(signalID, statuses[n], orderID, clock(|before|)), id);
      TakeStep(statuses, n);
      WholeTake(statuses);
    }
  }

  lemma StatusesSplit(log: seq<OrderRecord>, mid: seq<OrderRecord>, all: seq<OrderRecord>, id: string)
    requires log <= mid <= all
    ensures StatusesSince(all, |log|, id) == StatusesSince(mid, |log|, id) + StatusesSince(all, |mid|, id)
  {
    assert all[|log|..] == mid[|log|..] + all[|mid|..];
    FilterMapConcat(mid[|log|..], all[|mid|..], StatusFor(id));
  }

  ghost predicate ScriptsOk(cfg: PilotConfig, rows: seq<OrderRecord>, scripts: seq<seq<Attempt>>) {
    |rows| <= |scripts| && forall k :: 0 <= k < |scripts| ==> ScriptOk(cfg, scripts[k])
  }

  lemma OtherScriptsOk(cfg: PilotConfig, rows: seq<OrderRecord>, scripts: seq<seq<Attempt>>)
    requires ScriptsOk(cfg, rows, scripts) && |rows| > 0
    ensures ScriptsOk(cfg, rows[1..], scripts[1..])
  {
  }

  predicate LosesSaveAt(cfg: PilotConfig, row: OrderRecord, script: seq<Attempt>) {
    ScriptOk(cfg, script) && Reconcile(cfg.reconcile, script, row.orderID, row.status).outcome == SaveFailed
  }

  /** No save is lost while the first k rows are reconciled. */
  ghost predicate SavesHold(cfg: PilotConfig, rows: seq<OrderRecord>, scripts: seq<seq<Attempt>>, k: nat)
    requires k <= |rows| <= |scripts|
  {
    forall j :: 0 <= j < k ==> !LosesSaveAt(cfg, rows[j], scripts[j])
  }

  /** What the reconciliation of one row alone writes. */
  function WrittenFor(cfg: PilotConfig, row: OrderRecord, script: seq<Attempt>): seq<string> {
    if ScriptOk(cfg, script) then Reconcile(cfg.reconcile, script, row.orderID, row.status).written else []
  }

  lemma SavesHoldLater(cfg: PilotConfig, rows: seq<OrderRecord>, scripts: seq<seq<Attempt>>, k: nat)
    requires 0 < k <= |rows| <= |scripts|
    ensures SavesHold(cfg, rows, scripts, k) <==>
            !LosesSaveAt(cfg, rows[0], scripts[0]) && SavesHold(cfg, rows[1..], scripts[1..], k - 1)
  {
    if !LosesSaveAt(cfg, rows[0], scripts[0]) && SavesHold(cfg, rows[1..], scripts[1..], k - 1) {
      forall j | 0 < j < k
        ensures !LosesSaveAt(cfg, rows[j], scripts[j])
      {
        assert rows[1..][j - 1] == rows[j] && scripts[1..][j - 1] == scripts[j];
      }
    }
  }

  /** The statuses a sweep records for an order. */
  ghost function SweptStatuses(cfg: PilotConfig, clock: nat -> int, log: seq<OrderRecord>, rows: seq<OrderRecord>,
                               scripts: seq<seq<Attempt>>, id: string): seq<string>
    requires ScriptsOk(cfg, rows, scripts)
  {
    var log' := SweepLog(cfg, clock, log, rows, scripts);
    if log <= log' then StatusesSince(log', |log|, id) else []
  }

  lemma SweepGoesOn(cfg: PilotConfig, clock: nat -> int, log: seq<OrderRecord>, rows: seq<OrderRecord>,
                    scripts: seq<seq<Attempt>>, id: string)
    requires ScriptsOk(cfg, rows, scripts) && |rows| > 0 && ScriptsOk(cfg, rows[1..], scripts[1..])
    requires var log' := ReconcileLog(cfg, clock, log, rows[0], scripts[0]);
             log' <= SweepLog(cfg, clock, log', rows[1..], scripts[1..])
    ensures log <= SweepLog(cfg, clock, log, rows, scripts)
    ensures var log' := ReconcileLog(cfg, clock, log, rows[0], scripts[0]);
            SweptStatuses(cfg, clock, log, rows, scripts, id) ==
            (if id == rows[0].orderID then WrittenFor(cfg, rows[0], scripts[0]) else [])
            + if LosesSaveAt(cfg, rows[0], scripts[0]) then []
              else SweptStatuses(cfg, clock, log', rows[1..], scripts[1..], id)
  {
    var log' := ReconcileLog(cfg, clock, log, rows[0], scripts[0]);
    AppendShows(clock, log, rows[0].signalID, rows[0].orderID, WrittenFor(cfg, rows[0], scripts[0]), id);
    StatusesSplit(log, log', SweepLog(cfg, clock, log', rows[1..], scripts[1..]), id);
  }

  lemma {:induction false} SweepGrows(cfg: PilotConfig, clock: nat -> int, log: seq<OrderRecord>,
                                      rows: seq<OrderRecord>, scripts: seq<seq<Attempt>>)
    requires ScriptsOk(cfg, rows, scripts)
    ensures log <= SweepLog(cfg, clock, log, rows, scripts)
    decreases |rows|
  {
    if |rows| > 0 {
      OtherScriptsOk(cfg, rows, scripts);
      SweepGrows(cfg, clock, ReconcileLog(cfg, clock, log, rows[0], scripts[0]), rows[1..], scripts[1..]);
      SweepGoesOn(cfg, clock, log, rows, scripts, "");
    }
  }

  lemma {:induction false} SweepShowsNoOther(cfg: PilotConfig, clock: nat -> int, log: seq<OrderRecord>,
                                             rows: seq<OrderRecord>, scripts: seq<seq<Attempt>>, id: string)
    requires ScriptsOk(cfg, rows, scripts) && forall k :: 0 <= k < |rows| ==> rows[k].orderID != id
    ensures SweptStatuses(cfg, clock, log, rows, scripts, id) == []
    decreases |rows|
  {
    if |rows| > 0 {
      var log' := ReconcileLog(cfg, clock, log, rows[0], scripts[0]);
      OtherScriptsOk(cfg, rows, scripts);
      SweepGrows(cfg, clock, log', rows[1..], scripts[1..]);
      SweepShowsNoOther(cfg, clock, log', rows[1..], scripts[1..], id);
      SweepGoesOn(cfg, clock, log, rows, scripts, id);
    } else {
      assert log[|log|..] == [];
    }
  }

  ghost predicate DistinctOrders(rows: seq<OrderRecord>) {
    forall i, j :: 0 <= i < j < |rows| ==> rows[i].orderID != rows[j].orderID
  }

  lemma OthersAreDistinct(rows: seq<OrderRecord>)
    requires DistinctOrders(rows) && |rows| > 0
    ensures DistinctOrders(rows[1..]) && forall k :: 0 <= k < |rows[1..]| ==> rows[1..][k].orderID != rows[0].orderID
  {
  }

  /** What a sweep has for its k-th row, row by row. */
  ghost function ShareOf(cfg: PilotConfig, rows: seq<OrderRecord>, scripts: seq<seq<Attempt>>, k: nat): seq<string>
    requires k < |rows| <= |scripts|
    decreases k
  {
    if k == 0 then WrittenFor(cfg, rows[0], scripts[0])
    else if LosesSaveAt(cfg, rows[0], scripts[0]) then []
    else ShareOf(cfg, rows[1..], scripts[1..], k - 1)
  }

  lemma {:induction false} ShareIsWritten(cfg: PilotConfig, rows: seq<OrderRecord>, scripts: seq<seq<Attempt>>, k: nat)
    requires k < |rows| <= |scripts|
    ensures ShareOf(cfg, rows, scripts, k) ==
            if SavesHold(cfg, rows, scripts, k) then WrittenFor(cfg, rows[k], scripts[k]) else []
    decreases k
  {
    if k > 0 {
      ShareIsWritten(cfg, rows[1..], scripts[1..], k - 1);
      SavesHoldLater(cfg, rows, scripts, k);
    }
  }

  lemma FirstShare(cfg: PilotConfig, clock: nat -> int, log: seq<OrderRecord>, rows: seq<OrderRecord>,
                   scripts: seq<seq<Attempt>>)
    requires ScriptsOk(cfg, rows, scripts) && |rows| > 0
    requires forall k :: 0 <= k < |rows[1..]| ==> rows[1..][k].orderID != rows[0].orderID
    ensures SweptStatuses(cfg, clock, log, rows, scripts, rows[0].orderID) == WrittenFor(cfg, rows[0], scripts[0])
  {
    var log' := ReconcileLog(cfg, clock, log, rows[0], scripts[0]);
    OtherScriptsOk(cfg, rows, scripts);
    SweepGrows(cfg, clock, log', rows[1..], scripts[1..]);
    SweepGoesOn(cfg, clock, log, rows, scripts, rows[0].orderID);
    SweepShowsNoOther(cfg, clock, log', rows[1..], scripts[1..], rows[0].orderID);
  }

  lemma LaterShare(cfg: PilotConfig, clock: nat -> int, log: seq<OrderRecord>, rows: seq<OrderRecord>,
                   scripts: seq<seq<Attempt>>, id: string)
    requires ScriptsOk(cfg, rows, scripts) && |rows| > 0 && ScriptsOk(cfg, rows[1..], scripts[1..])
    requires id != rows[0].orderID
    ensures var log' := ReconcileLog(cfg, clock, log, rows[0], scripts[0]);
            SweptStatuses(cfg, clock, log, rows, scripts, id) ==
            if LosesSaveAt(cfg, rows[0], scripts[0]) then []
            else SweptStatuses(cfg, clock, log', rows[1..], scripts[1..], id)
  {
    SweepGrows(cfg, clock, ReconcileLog(cfg, clock, log, rows[0], scripts[0]), rows[1..], scripts[1..]);
    SweepGoesOn(cfg, clock, log, rows, scripts, id);
  }

  lemma {:induction false} SweepWritesShare(cfg: PilotConfig, clock: nat -> int, log: seq<OrderRecord>,
                                            rows: seq<OrderRecord>, scripts: seq<seq<Attempt>>, k: nat, id: string)
    requires ScriptsOk(cfg, rows, scripts) && DistinctOrders(rows) && k < |rows| && id == rows[k].orderID
    ensures SweptStatuses(cfg, clock, log, rows, scripts, id) == ShareOf(cfg, rows, scripts, k)
    decreases k
  {
    OthersAreDistinct(rows);
    if k == 0 {
      FirstShare(cfg, clock, log, rows, scripts);
    } else {
      var rest, others := rows[1..], scripts[1..];
      OtherScriptsOk(cfg, rows, scripts);
      assert rest[k - 1] == rows[k];
      LaterShare(cfg, clock, log, rows, scripts, id);
      SweepWritesShare(cfg, clock, ReconcileLog(cfg, clock, log, rows[0], scripts[0]), rest, others, k - 1, id);
    }
  }

  /** A sweep records for each of its orders what a reconciliation of that order alone would, as long as no save was
      lost before it, and otherwise nothing. */
  lemma SweepWritesEachOrder(cfg: PilotConfig, clock: nat -> int, log: seq<OrderRecord>, rows: seq<OrderRecord>,
                             scripts: seq<seq<Attempt>>, k: nat)
    requires ScriptsOk(cfg, rows, scripts) && DistinctOrders(rows) && k < |rows|
    ensures log <= SweepLog(cfg, clock, log, rows, scripts)
    ensures StatusesSince(SweepLog(cfg, clock, log, rows, scripts), |log|, rows[k].orderID) ==
            if SavesHold(cfg, rows, scripts, k) then WrittenFor(cfg, rows[k], scripts[k]) else []
  {
    SweepGrows(cfg, clock, log, rows, scripts);
    SweepWritesShare(cfg, clock, log, rows, scripts, k, rows[k].orderID);
    ShareIsWritten(cfg, rows, scripts, k);
  }

  function Terminal(): string -> bool { (status: string) => IsTerminal(status) }

  /** What lets a row be reconciled: its order is still open unless the row itself is terminal. */
  ghost predicate Reconcilable(terminal: string -> bool, log: seq<OrderRecord>, row: OrderRecord) {
    row.orderID != "" && (!terminal(row.status) ==> OpenOrder(terminal, log, row.orderID))
  }

  lemma ReconciledStatuses(cfg: ReconcileConfig, script: seq<Attempt>, orderID: string, status: string)
    requires 0 < cfg.maxAttempts <= |script|
    ensures var written := Reconcile(cfg, script, orderID, status).written;
            && FinalOnlyLast(Terminal(), written)
            && (written != [] ==> !Terminal()(status) && orderID != "")
  {
    TerminalEndsReconciliation(cfg, script, orderID, status);
    var written := Reconcile(cfg, script, orderID, status).written;
    forall k | 0 <= k < |written| - 1
      ensures !Terminal()(written[k])
    {
      assert !TermsOf(cfg).terminal(written[k]);
    }
  }

  lemma ReconcileKeepsAbsorbing(cfg: PilotConfig, clock: nat -> int, log: seq<OrderRecord>, row: OrderRecord,
                                script: seq<Attempt>)
    requires ScriptOk(cfg, script) && Absorbing(Terminal(), log)
    requires row.orderID == "" || Reconcilable(Terminal(), log, row)
    ensures Absorbing(Terminal(), ReconcileLog(cfg, clock, log, row, script))
  {
    ReconciledStatuses(cfg.reconcile, script, row.orderID, row.status);
    var written := Reconcile(cfg.reconcile, script, row.orderID, row.status).written;
    AppendKeepsAbsorbing(Terminal(), clock, log, row.signalID, row.orderID, written);
  }

  ghost predicate Snapshot(terminal: string -> bool, log: seq<OrderRecord>, rows: seq<OrderRecord>) {
    && (forall k :: 0 <= k < |rows| ==> Reconcilable(terminal, log, rows[k]))
    && (forall k, l :: 0 <= k < l < |rows| ==> rows[k].orderID != rows[l].orderID)
  }

  /** Reconciling one row of a snapshot leaves the others as they were found. */
  lemma ReconcileKeepsSnapshot(cfg: PilotConfig, clock: nat -> int, log: seq<OrderRecord>, rows: seq<OrderRecord>,
                               script: seq<Attempt>)
    requires ScriptOk(cfg, script) && rows != [] && Snapshot(Terminal(), log, rows)
    ensures Snapshot(Terminal(), ReconcileLog(cfg, clock, log, rows[0], script), rows[1..])
  {
    var written := Reconcile(cfg.reconcile, script, rows[0].orderID, rows[0].status).written;
    forall k | 0 <= k < |rows[1..]|
      ensures Reconcilable(Terminal(), ReconcileLog(cfg, clock, log, rows[0], script), rows[1..][k])
    {
      var row := rows[k + 1];
      if !Terminal()(row.status) {
        AppendElsewhereKeepsOpen(Terminal(), clock, log, rows[0].signalID, rows[0].orderID, written, row.orderID);
      }
    }
  }

  lemma {:induction false} SweepKeepsAbsorbing(cfg: PilotConfig, clock: nat -> int, log: seq<OrderRecord>,
                                               rows: seq<OrderRecord>, scripts: seq<seq<Attempt>>)
    requires |rows| <= |scripts| && forall k :: 0 <= k < |scripts| ==> ScriptOk(cfg, scripts[k])
    requires Absorbing(Terminal(), log) && Snapshot(Terminal(), log, rows)
    ensures Absorbing(Terminal(), SweepLog(cfg, clock, log, rows, scripts))
    decreases |rows|
  {
    if rows != [] {
      ReconcileKeepsAbsorbing(cfg, clock, log, rows[0], scripts[0]);
      ReconcileKeepsSnapshot(cfg, clock, log, rows, scripts[0]);
      SweepKeepsAbsorbing(cfg, clock, ReconcileLog(cfg, clock, log, rows[0], scripts[0]), rows[1..], scripts[1..]);
    }
  }

  /** Appending keeps what came before, stamps the new rows with the clock, and leaves every row that names
      an exchange order with names of the given set. */
  ghost predicate Extends(clock: nat -> int, posted: set<Names>, log: seq<OrderRecord>, log': seq<OrderRecord>) {
    && log <= log'
    && (Stamped(clock, log) ==> Stamped(clock, log'))
    && (Owned(posted, log) ==> Owned(posted, log'))
  }

  ghost predicate Stamped(clock: nat -> int, log: seq<OrderRecord>) {
    forall k :: 0 <= k < |log| ==> log[k].createdAt == clock(k)
  }

  /** Every row that names an exchange order stems from a posting that was answered with its id. */
  ghost predicate Owned(posted: set<Names>, log: seq<OrderRecord>) {
    forall k :: 0 <= k < |log| && log[k].orderID != "" ==> Names(log[k].signalID, log[k].orderID) in posted
  }

  lemma AppendExtends(clock: nat -> int, posted: set<Names>, log: seq<OrderRecord>, signalID: string,
                      orderID: string, statuses: seq<string>)
    requires orderID == "" || Names(signalID, orderID) in posted
    ensures Extends(clock, posted, log, Append(clock, log, signalID, orderID, statuses))
  {
    AppendRows(clock, log, signalID, orderID, statuses);
    var log' := Append(clock, log, signalID, orderID, statuses);
    assert forall k :: 0 <= k < |log| ==> log'[k] == log[k];
  }

  lemma {:induction false} SweepExtends(cfg: PilotConfig, clock: nat -> int, posted: set<Names>,
                                        log: seq<OrderRecord>, rows: seq<OrderRecord>, scripts: seq<seq<Attempt>>)
    requires |rows| <= |scripts| && forall k :: 0 <= k < |scripts| ==> ScriptOk(cfg, scripts[k])
    requires forall k :: 0 <= k < |rows| ==> Names(rows[k].signalID, rows[k].orderID) in posted
    ensures Extends(clock, posted, log, SweepLog(cfg, clock, log, rows, scripts))
    decreases |rows|
  {
    if rows != [] {
      var written := Reconcile(cfg.reconcile, scripts[0], rows[0].orderID, rows[0].status).written;
      AppendExtends(clock, posted, log, rows[0].signalID, rows[0].orderID, written);
      SweepExtends(cfg, clock, posted, ReconcileLog(cfg, clock, log, rows[0], scripts[0]), rows[1..], scripts[1..]);
    }
  }

  // ----- whole runs -----

  datatype RunState = RunState(
    ledger: Ledger,
    accepted: seq<LiveOrder>,
    kill: Kill,
    posted: seq<Posting>,
    log: seq<OrderRecord>)

  /** What the autopilot's loop or the world beside it does next. */
  datatype Event =
    | Execute(signalID: string, order: LiveOrder, complies: bool, post: PostAnswer, saves: bool, script: seq<Attempt>)
    | Sweep(rows: seq<nat>, scripts: seq<seq<Attempt>>)
    | Record(pnl: real)
    | Trigger(reason: string)
    | Reset

  const INITIAL := RunState(EMPTY_LEDGER, [], Kill(false, ""), [], [])

  /** A run is over order ids the exchange has not given out before, and pending queries of the log. */
  ghost predicate Enabled(cfg: PilotConfig, st: RunState, e: Event) {
    match e
    case Execute(_, _, _, post, _, script) =>
      && ScriptOk(cfg, script)
      && (post.orderID == "" || forall k :: 0 <= k < |st.log| ==> st.log[k].orderID != post.orderID)
    case Sweep(rows, scripts) =>
      && IsPendingQuery(st.log, cfg.sweepLimit, rows) && |rows| <= |scripts|
      && (forall k :: 0 <= k < |rows| ==> rows[k] < |st.log|)
      && forall k :: 0 <= k < |scripts| ==> ScriptOk(cfg, scripts[k])
    case _ => true
  }

  function Rows(log: seq<OrderRecord>, rows: seq<nat>): (r: seq<OrderRecord>)
    requires forall k :: 0 <= k < |rows| ==> rows[k] < |log|
    ensures |r| == |rows|
    ensures forall k :: 0 <= k < |rows| ==> r[k] == log[rows[k]]
  {
    seq(|rows|, k requires 0 <= k < |rows| => log[rows[k]])
  }

  /** The autopilot passes 0 as the age of its data. */
  function SubmissionOf(order: LiveOrder, complies: bool): Submission {
    Submission(order, 0, complies)
  }

  function ExecuteLog(cfg: PilotConfig, clock: nat -> int, log: seq<OrderRecord>, signalID: string, post: PostAnswer,
                      script: seq<Attempt>): seq<OrderRecord>
    requires ScriptOk(cfg, script)
  {
    var status := RecordedStatus(post);
    var posted := Append(clock, log, signalID, post.orderID, [status]);
    ReconcileLog(cfg, clock, posted, OrderRecord(signalID, status, post.orderID, 0), script)
  }

  function Step(cfg: PilotConfig, clock: nat -> int, st: RunState, e: Event): RunState
    requires Enabled(cfg, st, e)
  {
    match e
    case Execute(signalID, order, complies, post, saves, script) =>
      if Decide(cfg.live, st.ledger, st.kill, SubmissionOf(order, complies)) != Accepted
      then st.(log := if saves then Append(clock, st.log, signalID, "", ["blocked"]) else st.log)
      else
        st.(ledger := Book(cfg.live, st.ledger, order),
            accepted := st.accepted + [order],
            posted := st.posted + [Posting(signalID, order, post.orderID)],
            log := if saves then ExecuteLog(cfg, clock, st.log, signalID, post, script) else st.log)
    case Sweep(rows, scripts) => st.(log := SweepLog(cfg, clock, st.log, Rows(st.log, rows), scripts))
    case Record(pnl) =>
      var ledger := st.ledger.(dayPnL := st.ledger.dayPnL + pnl);
      st.(ledger := ledger, kill := if Breached(cfg.live, ledger.dayPnL) then Kill(true, "daily_loss_cap") else st.kill)
    case Trigger(reason) => st.(kill := Kill(true, reason))
    case Reset => st.(kill := Kill(false, ""))
  }

  /** What an accepted order leaves in the log: "failed" for an error or a rejection, "submitted" for a blank status
      and otherwise the status as it was answered; then what the first reconciliation from there on writes. */
  lemma PostingIsRecorded(cfg: PilotConfig, clock: nat -> int, log: seq<OrderRecord>, signalID: string,
                          post: PostAnswer, script: seq<Attempt>)
    requires ScriptOk(cfg, script)
    ensures var status := if post.failed || !post.success then "failed"
                          else if post.status == "" then "submitted" else post.status;
            var log' := ExecuteLog(cfg, clock, log, signalID, post, script);
            && log <= log' && |log'| > |log|
            && log'[|log|] == OrderRecord(signalID, status, post.orderID, clock(|log|))
            && StatusesSince(log', |log| + 1, post.orderID) ==
               Reconcile(cfg.reconcile, script, post.orderID, status).written
  {
    var posted := Append(clock, log, signalID, post.orderID, [RecordedStatus(post)]);
    AppendRows(clock, log, signalID, post.orderID, [RecordedStatus(post)]);
    AppendShows(clock, posted, signalID, post.orderID,
                Reconcile(cfg.reconcile, script, post.orderID, RecordedStatus(post)).written, post.orderID);
  }

  /** A failed posting is recorded as failed and not asked about. */
  lemma FailedPostingIsFinal(cfg: PilotConfig, clock: nat -> int, log: seq<OrderRecord>, signalID: string,
                             post: PostAnswer, script: seq<Attempt>)
    requires ScriptOk(cfg, script) && (post.failed || !post.success)
    ensures ExecuteLog(cfg, clock, log, signalID, post, script) ==
            log + [OrderRecord(signalID, "failed", post.orderID, clock(|log|))]
  {
    TerminalAreNormal("failed");
    assert IsTerminal("failed");
    AppendRows(clock, log, signalID, post.orderID, ["failed"]);
    var log' := Append(clock, log, signalID, post.orderID, ["failed"]);
    assert log' == log'[..|log|] + [log'[|log|]];
  }

  function Orders(posted: seq<Posting>): (o: seq<LiveOrder>)
    ensures |o| == |posted| && forall k :: 0 <= k < |o| ==> o[k] == posted[k].order
  {
    seq(|posted|, k requires 0 <= k < |posted| => posted[k].order)
  }

  function NamesOf(posted: seq<Posting>): set<Names> {
    set p | p in posted :: Names(p.signalID, p.orderID)
  }

  ghost predicate Increasing(clock: nat -> int) {
    forall i, j :: 0 <= i < j ==> clock(i) < clock(j)
  }

  ghost predicate LogInvariant(clock: nat -> int, posted: seq<Posting>, log: seq<OrderRecord>) {
    && Absorbing(Terminal(), log)
    && Stamped(clock, log)
    && Owned(NamesOf(posted), log)
  }

  ghost predicate Invariant(cfg: PilotConfig, clock: nat -> int, st: RunState) {
    && Balanced(cfg.live, st.ledger, st.accepted)
    && Orders(st.posted) == st.accepted
    && LogInvariant(clock, st.posted, st.log)
  }

  lemma StampedIsChronological(clock: nat -> int, log: seq<OrderRecord>)
    requires Increasing(clock) && Stamped(clock, log)
    ensures Chronological(log)
  {
  }

  lemma BlockedKeepsLog(clock: nat -> int, posted: seq<Posting>, log: seq<OrderRecord>, signalID: string)
    requires LogInvariant(clock, posted, log)
    ensures LogInvariant(clock, posted, Append(clock, log, signalID, "", ["blocked"]))
  {
    AppendKeepsAbsorbing(Terminal(), clock, log, signalID, "", ["blocked"]);
    AppendExtends(clock, NamesOf(posted), log, signalID, "", ["blocked"]);
  }

  lemma MorePostings(posted: seq<Posting>, p: Posting, log: seq<OrderRecord>)
    requires Owned(NamesOf(posted), log)
    ensures Owned(NamesOf(posted + [p]), log) && Names(p.signalID, p.orderID) in NamesOf(posted + [p])
  {
    assert p in posted + [p];
    assert forall q :: q in posted ==> q in posted + [p];
  }

  lemma PostingKeepsLog(cfg: PilotConfig, clock: nat -> int, posted: seq<Posting>, log: seq<OrderRecord>, p: Posting,
                        post: PostAnswer, script: seq<Attempt>)
    requires LogInvariant(clock, posted, log) && ScriptOk(cfg, script) && p.orderID == post.orderID
    requires post.orderID == "" || forall k :: 0 <= k < |log| ==> log[k].orderID != post.orderID
    ensures LogInvariant(clock, posted + [p], ExecuteLog(cfg, clock, log, p.signalID, post, script))
  {
    MorePostings(posted, p, log);
    var status := RecordedStatus(post);
    var log1 := Append(clock, log, p.signalID, post.orderID, [status]);
    var row := OrderRecord(p.signalID, status, post.orderID, 0);
    var names := NamesOf(posted + [p]);
    AppendKeepsAbsorbing(Terminal(), clock, log, p.signalID, post.orderID, [status]);
    AppendExtends(clock, names, log, p.signalID, post.orderID, [status]);
    if post.orderID != "" {
      FreshOrderIsReconcilable(clock, log, row);
    }
    ReconcileKeepsAbsorbing(cfg, clock, log1, row, script);
    AppendExtends(clock, names, log1, p.signalID, post.orderID,
                  Reconcile(cfg.reconcile, script, post.orderID, status).written);
  }

  lemma PrefixRows(log: seq<OrderRecord>, log': seq<OrderRecord>)
    requires log <= log'
    ensures forall k :: 0 <= k < |log| ==> log'[k] == log[k]
  {
  }

  lemma FreshOrderIsOpen(terminal: string -> bool, clock: nat -> int, log: seq<OrderRecord>, row: OrderRecord)
    requires !terminal(row.status) && forall k :: 0 <= k < |log| ==> log[k].orderID != row.orderID
    ensures OpenOrder(terminal, Append(clock, log, row.signalID, row.orderID, [row.status]), row.orderID)
  {
    var log1 := Append(clock, log, row.signalID, row.orderID, [row.status]);
    AppendRows(clock, log, row.signalID, row.orderID, [row.status]);
    PrefixRows(log, log1);
    assert log1[|log|].status == row.status;
  }

  lemma FreshOrderIsReconcilable(clock: nat -> int, log: seq<OrderRecord>, row: OrderRecord)
    requires row.orderID != "" && forall k :: 0 <= k < |log| ==> log[k].orderID != row.orderID
    ensures Reconcilable(Terminal(), Append(clock, log, row.signalID, row.orderID, [row.status]), row)
  {
    if !Terminal()(row.status) {
      FreshOrderIsOpen(Terminal(), clock, log, row);
    }
  }

  lemma SweepKeepsLog(cfg: PilotConfig, clock: nat -> int, posted: seq<Posting>, log: seq<OrderRecord>, rows: seq<nat>,
                      scripts: seq<seq<Attempt>>)
    requires Increasing(clock) && LogInvariant(clock, posted, log)
    requires IsPendingQuery(log, cfg.sweepLimit, rows) && |rows| <= |scripts|
    requires forall k :: 0 <= k < |rows| ==> rows[k] < |log|
    requires forall k :: 0 <= k < |scripts| ==> ScriptOk(cfg, scripts[k])
    ensures LogInvariant(clock, posted, SweepLog(cfg, clock, log, Rows(log, rows), scripts))
  {
    StampedIsChronological(clock, log);
    var snapshot := Rows(log, rows);
    PendingRowsAreSnapshot(cfg, log, rows);
    forall k | 0 <= k < |snapshot|
      ensures Names(snapshot[k].signalID, snapshot[k].orderID) in NamesOf(posted)
    {
      assert IsLatest(log, rows[k]);
    }
    SweepKeepsAbsorbing(cfg, clock, log, snapshot, scripts);
    SweepExtends(cfg, clock, NamesOf(posted), log, snapshot, scripts);
  }

  lemma PendingRowsAreSnapshot(cfg: PilotConfig, log: seq<OrderRecord>, rows: seq<nat>)
    requires Chronological(log) && Absorbing(Terminal(), log)
    requires IsPendingQuery(log, cfg.sweepLimit, rows)
    requires forall k :: 0 <= k < |rows| ==> rows[k] < |log|
    ensures Snapshot(Terminal(), log, Rows(log, rows))
    ensures forall k :: 0 <= k < |rows| ==> IsLatest(log, rows[k])
  {
    forall k | 0 <= k < |rows|
      ensures IsLatest(log, rows[k]) && Reconcilable(Terminal(), log, log[rows[k]])
    {
      assert IsPending(log, rows[k]);
      if !Terminal()(log[rows[k]].status) {
        LatestRowIsOpen(Terminal(), log, rows[k]);
      }
    }
    forall k, l | 0 <= k < l < |rows|
      ensures log[rows[k]].orderID != log[rows[l]].orderID
    {
      PendingOrdersDistinct(log, rows[k], rows[l]);
    }
  }

  lemma ExecuteKeepsInvariant(cfg: PilotConfig, clock: nat -> int, st: RunState, e: Event)
    requires e.Execute? && Invariant(cfg, clock, st) && Enabled(cfg, st, e)
    ensures Invariant(cfg, clock, Step(cfg, clock, st, e))
  {
    var s, p := SubmissionOf(e.order, e.complies), Posting(e.signalID, e.order, e.post.orderID);
    if Decide(cfg.live, st.ledger, st.kill, s) != Accepted {
      BlockedKeepsLog(clock, st.posted, st.log, e.signalID);
    } else {
      BookingKeepsBalance(cfg.live, st.ledger, st.accepted, st.kill, s);
      AnsweredKeepsLog(cfg, clock, st.posted, st.log, p, e.post, e.saves, e.script);
      OrdersGrow(st.posted, p);
    }
  }

  lemma OrdersGrow(posted: seq<Posting>, p: Posting)
    ensures Orders(posted + [p]) == Orders(posted) + [p.order]
  {
  }

  lemma AnsweredKeepsLog(cfg: PilotConfig, clock: nat -> int, posted: seq<Posting>, log: seq<OrderRecord>, p: Posting,
                         post: PostAnswer, saves: bool, script: seq<Attempt>)
    requires LogInvariant(clock, posted, log) && ScriptOk(cfg, script) && p.orderID == post.orderID
    requires post.orderID == "" || forall k :: 0 <= k < |log| ==> log[k].orderID != post.orderID
    ensures LogInvariant(clock, posted + [p],
                         if saves then ExecuteLog(cfg, clock, log, p.signalID, post, script) else log)
  {
    if saves {
      PostingKeepsLog(cfg, clock, posted, log, p, post, script);
    } else {
      MorePostings(posted, p, log);
    }
  }

  lemma StepKeepsInvariant(cfg: PilotConfig, clock: nat -> int, st: RunState, e: Event)
    requires Increasing(clock) && Invariant(cfg, clock, st) && Enabled(cfg, st, e)
    ensures Invariant(cfg, clock, Step(cfg, clock, st, e))
  {
    match e
    case Execute(_, _, _, _, _, _) =>
      ExecuteKeepsInvariant(cfg, clock, st, e);
    case Sweep(rows, scripts) =>
      SweepKeepsLog(cfg, clock, st.posted, st.log, rows, scripts);
    case _ =>
  }

  ghost predicate IsRun(cfg: PilotConfig, clock: nat -> int, states: seq<RunState>, events: seq<Event>) {
    && |states| == |events| + 1
    && states[0] == INITIAL
    && forall i :: 0 <= i < |events| ==>
                     Enabled(cfg, states[i], events[i]) && states[i + 1] == Step(cfg, clock, states[i], events[i])
  }

  lemma {:induction false} RunInvariant(cfg: PilotConfig, clock: nat -> int, states: seq<RunState>, events: seq<Event>,
                                        i: nat)
    requires Increasing(clock) && IsRun(cfg, clock, states, events) && i <= |events|
    ensures Invariant(cfg, clock, states[i])
  {
    if i == 0 {
      EmptyIsBalanced(cfg.live);
    } else {
      RunInvariant(cfg, clock, states, events, i - 1);
      StepKeepsInvariant(cfg, clock, states[i - 1], events[i - 1]);
    }
  }

  /** Terminal statuses are absorbing over whole runs: under any interleaving of submissions and sweeps
      and any exchange answers, no row ever follows an order's terminal row. */
  lemma NothingFollowsTerminal(cfg: PilotConfig, clock: nat -> int, states: seq<RunState>, events: seq<Event>, i: nat,
                               r: nat, k: nat)
    requires Increasing(clock) && IsRun(cfg, clock, states, events) && i <= |events|
    requires r < k < |states[i].log| && states[i].log[r].orderID != "" && IsTerminal(states[i].log[r].status)
    ensures states[i].log[k].orderID != states[i].log[r].orderID
  {
    RunInvariant(cfg, clock, states, events, i);
    assert Terminal()(states[i].log[r].status);
  }

  /** What was sent to PostOrder for a market is the router's exposure there and never exceeds the cap;
      every accepted order was posted, in order, and no key was posted twice. */
  lemma PostedIsExposure(cfg: PilotConfig, clock: nat -> int, states: seq<RunState>, events: seq<Event>, i: nat,
                         market: string)
    requires Increasing(clock) && IsRun(cfg, clock, states, events) && i <= |events|
    ensures var st := states[i];
            && Notional(Orders(st.posted), market) == Lookup(st.ledger.exposure, market)
            && OrdersWithinCaps(cfg.live, Orders(st.posted))
            && Orders(st.posted) == st.accepted && DistinctKeys(Orders(st.posted))
  {
    RunInvariant(cfg, clock, states, events, i);
    BooksAreOrders(cfg.live, states[i].ledger, states[i].accepted);
  }

  // ----- the day's result and the switch -----

  /** Everything recorded so far. */
  function PnL(events: seq<Event>): real {
    if events == [] then 0.0
    else
      var last := events[|events| - 1];
      PnL(events[..|events| - 1]) + if last.Record? then last.pnl else 0.0
  }

  /** A trigger, or a result that leaves the loss above the cap. */
  ghost predicate Latches(cap: real, events: seq<Event>, j: nat) {
    j < |events| && (events[j].Trigger? || (events[j].Record? && cap > 0.0 && PnL(events[..j + 1]) < -cap))
  }

  /** Event j has latched the switch and no reset has come since. */
  ghost predicate LatchedSince(cap: real, events: seq<Event>, i: nat, j: nat) {
    j < i <= |events| && Latches(cap, events, j) && forall k :: j < k < i ==> !events[k].Reset?
  }

  lemma {:induction false} DayPnLIsSum(cfg: PilotConfig, clock: nat -> int, states: seq<RunState>, events: seq<Event>,
                                       i: nat)
    requires IsRun(cfg, clock, states, events) && i <= |events|
    ensures states[i].ledger.dayPnL == PnL(events[..i])
  {
    if i > 0 {
      DayPnLIsSum(cfg, clock, states, events, i - 1);
      assert events[..i][..i - 1] == events[..i - 1];
    }
  }

  ghost predicate LatchedAt(cap: real, events: seq<Event>, i: nat) {
    exists j :: LatchedSince(cap, events, i, j)
  }

  lemma LatchedStep(cap: real, events: seq<Event>, n: nat)
    requires n < |events|
    ensures LatchedAt(cap, events, n + 1) <==>
            Latches(cap, events, n) || (LatchedAt(cap, events, n) && !events[n].Reset?)
  {
    if Latches(cap, events, n) {
      assert LatchedSince(cap, events, n + 1, n);
    }
    if j: nat :| LatchedSince(cap, events, n, j) {
      assert !events[n].Reset? ==> LatchedSince(cap, events, n + 1, j);
    }
    var i := n + 1;
    if j: nat :| LatchedSince(cap, events, i, j) && j < n {
      assert LatchedSince(cap, events, n, j);
    }
  }

  lemma SwitchStep(cfg: PilotConfig, clock: nat -> int, st: RunState, e: Event)
    requires Enabled(cfg, st, e)
    ensures var st', cap := Step(cfg, clock, st, e), cfg.live.dailyLossCap;
            st'.kill.triggered <==>
            || e.Trigger? || (e.Record? && cap > 0.0 && st'.ledger.dayPnL < -cap)
            || (st.kill.triggered && !e.Reset?)
  {
  }

  lemma {:induction false} SwitchIsLatched(cfg: PilotConfig, clock: nat -> int, states: seq<RunState>,
                                           events: seq<Event>, i: nat)
    requires IsRun(cfg, clock, states, events) && i <= |events|
    ensures states[i].kill.triggered <==> LatchedAt(cfg.live.dailyLossCap, events, i)
  {
    if i > 0 {
      SwitchIsLatched(cfg, clock, states, events, i - 1);
      DayPnLIsSum(cfg, clock, states, events, i);
      SwitchStep(cfg, clock, states[i - 1], events[i - 1]);
      LatchedStep(cfg.live.dailyLossCap, events, i - 1);
    }
  }

  /** Over whole runs an order is accepted exactly when the switch is not latched, the recorded loss is within its cap
      and the order passes the other gates on top of what was posted before it. */
  lemma AcceptedInRunExactlyWhen(cfg: PilotConfig, clock: nat -> int, states: seq<RunState>, events: seq<Event>, i: nat)
    requires Increasing(clock) && IsRun(cfg, clock, states, events) && i < |events| && events[i].Execute?
    ensures var o, live, posted := events[i].order, cfg.live, Orders(states[i].posted);
            Orders(states[i + 1].posted) != posted <==>
            && !LatchedAt(live.dailyLossCap, events, i)
            && (live.dailyLossCap > 0.0 ==> PnL(events[..i]) >= -live.dailyLossCap)
            && o.key != "" && o.market != "" && o.country != "" && o.notional > 0.0
            && o.market in live.whitelist && (|live.countries| > 0 ==> o.country in live.countries)
            && events[i].complies && (forall p :: p in posted ==> p.key != o.key)
            && OrdersWithinCaps(live, posted + [o])
  {
    var st, e := states[i], events[i];
    RunInvariant(cfg, clock, states, events, i);
    SwitchIsLatched(cfg, clock, states, events, i);
    DayPnLIsSum(cfg, clock, states, events, i);
    AcceptedExactlyWhen(cfg.live, st.ledger, st.accepted, st.kill, SubmissionOf(e.order, e.complies));
    OrdersGrow(st.posted, Posting(e.signalID, e.order, e.post.orderID));
  }

  /** Every row a pending query returns names an exchange order: the one that a posting of its signal was
      answered with. The rows of blocked orders name none. */
  lemma PendingRowsWerePosted(cfg: PilotConfig, clock: nat -> int, states: seq<RunState>, events: seq<Event>, i: nat,
                              limit: nat, rows: seq<nat>, k: nat)
    requires Increasing(clock) && IsRun(cfg, clock, states, events) && i <= |events|
    requires IsPendingQuery(states[i].log, limit, rows) && k < |rows|
    ensures rows[k] < |states[i].log|
    ensures var row := states[i].log[rows[k]];
            row.orderID != ""
            && exists p :: p in states[i].posted && p.signalID == row.signalID && p.orderID == row.orderID
  {
    RunInvariant(cfg, clock, states, events, i);
    assert IsPending(states[i].log, rows[k]);
  }

  /** The verdict on what the autopilot submits does not depend on the stale-data cut-off. */
  lemma StaleCutoffIsInert(cfg: LiveConfig, cutoff: int, ledger: Ledger, kill: Kill, order: LiveOrder, complies: bool)
    ensures Decide(cfg, ledger, kill, SubmissionOf(order, complies)) ==
            Decide(cfg.(staleCutoff := cutoff), ledger, kill, SubmissionOf(order, complies))
  {
    var cfg' := cfg.(staleCutoff := cutoff);
    assert OverClusterCap(cfg, ledger, order) == OverClusterCap(cfg', ledger, order);
    assert OverMarketCap(cfg, ledger, order) == OverMarketCap(cfg', ledger, order);
  }
}
