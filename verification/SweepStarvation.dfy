/** Orders that never enter a sweep: the sweep takes the newest pending orders and moves what it reconciles
    to the top (internal/persistence/store.go, internal/runtime/autopilot.go). */
module SweepStarvation {
  import opened LiveRouting
  import opened OrderLog
  import opened PendingHistory
  import opened PilotRuns
  import opened Reconciling
  import opened Sequences
  import Text

  // ----- last rows -----

  /** Row `j` is the last row of this order. */
  ghost predicate LastRow(log: seq<OrderRecord>, j: nat, orderID: string) {
    j < |log| && log[j].orderID == orderID && forall l :: j < l < |log| ==> log[l].orderID != orderID
  }

  ghost predicate LastPending(log: seq<OrderRecord>, j: nat, orderID: string) {
    LastRow(log, j, orderID) && SqlPending(log[j].status)
  }

  /** The order's last row is pending and at or after `n`. */
  ghost predicate OpenFrom(log: seq<OrderRecord>, n: nat, orderID: string) {
    exists j: nat :: n <= j && LastPending(log, j, orderID)
  }

  /** The order's last row is not pending. */
  ghost predicate Done(log: seq<OrderRecord>, orderID: string) {
    exists j: nat :: LastRow(log, j, orderID) && !SqlPending(log[j].status)
  }

  /** All rows from `from` on belong to orders of the set. */
  ghost predicate OnlyOrders(log: seq<OrderRecord>, from: nat, orders: set<string>) {
    forall j :: from <= j < |log| ==> log[j].orderID in orders
  }

  /** From row `n` on, the pending orders are exactly these. */
  ghost predicate OnTop(log: seq<OrderRecord>, n: nat, orders: set<string>) {
    && n <= |log| && "" !in orders
    && (forall id :: id in orders ==> OpenFrom(log, n, id))
    && (forall j: nat, id :: n <= j && id != "" && LastPending(log, j, id) ==> id in orders)
  }

  /** Rows of other orders leave an order's last row what it is. */
  lemma LastRowStays(log: seq<OrderRecord>, log': seq<OrderRecord>, j: nat, orderID: string, orders: set<string>)
    requires log <= log' && LastRow(log, j, orderID)
    requires OnlyOrders(log', |log|, orders) && orderID !in orders
    ensures LastRow(log', j, orderID) && log'[j] == log[j]
  {
    PrefixRows(log, log');
  }

  lemma EarlierLastRow(log: seq<OrderRecord>, log': seq<OrderRecord>, j: nat, orderID: string)
    requires log <= log' && j < |log| && LastRow(log', j, orderID)
    ensures LastRow(log, j, orderID) && log'[j] == log[j]
  {
    PrefixRows(log, log');
  }

  lemma AppendedRows(clock: nat -> int, log: seq<OrderRecord>, signalID: string, orderID: string,
                     statuses: seq<string>)
    ensures var log' := Append(clock, log, signalID, orderID, statuses);
            && log <= log' && OnlyOrders(log', |log|, {orderID})
            && (statuses != [] ==>
                  LastRow(log', |log'| - 1, orderID) && |log'| > |log|
                  && log'[|log'| - 1].status == statuses[|statuses| - 1])
  {
    AppendRows(clock, log, signalID, orderID, statuses);
  }

  // ----- what one reconciliation and one sweep do to the top -----

  lemma OthersStayOnTop(log: seq<OrderRecord>, log': seq<OrderRecord>, n: nat, orderID: string, id: string)
    requires log <= log' && OnlyOrders(log', |log|, {orderID}) && OpenFrom(log, n, id) && id != orderID
    ensures OpenFrom(log', n, id)
  {
    var j: nat :| n <= j && LastPending(log, j, id);
    LastRowStays(log, log', j, id, {orderID});
    assert LastPending(log', j, id);
  }

  lemma NothingElseOnTop(log: seq<OrderRecord>, log': seq<OrderRecord>, n: nat, orders: set<string>,
                         orderID: string, j: nat, id: string)
    requires log <= log' && OnlyOrders(log', |log|, {orderID}) && OnTop(log, n, orders)
    requires orderID in orders || orderID == ""
    requires n <= j && id != "" && LastPending(log', j, id)
    ensures id in orders
  {
    if j < |log| {
      EarlierLastRow(log, log', j, id);
      assert LastPending(log, j, id);
    } else {
      assert log'[j].orderID in {orderID};
    }
  }

  /** Further rows of an order on top, the last of them pending, leave the top what it is; so do rows that
      name no order. */
  lemma AppendKeepsTop(clock: nat -> int, log: seq<OrderRecord>, signalID: string, orderID: string,
                       statuses: seq<string>, n: nat, orders: set<string>)
    requires OnTop(log, n, orders) && (orderID in orders || orderID == "")
    requires statuses == [] || SqlPending(statuses[|statuses| - 1])
    ensures OnTop(Append(clock, log, signalID, orderID, statuses), n, orders)
  {
    var log' := Append(clock, log, signalID, orderID, statuses);
    AppendedRows(clock, log, signalID, orderID, statuses);
    forall id | id in orders
      ensures OpenFrom(log', n, id)
    {
      if id != orderID {
        OthersStayOnTop(log, log', n, orderID, id);
      } else if statuses != [] {
        assert LastPending(log', |log'| - 1, id);
      }
    }
    forall j: nat, id | n <= j && id != "" && LastPending(log', j, id)
      ensures id in orders
    {
      NothingElseOnTop(log, log', n, orders, orderID, j, id);
    }
  }

  function Statuses(cfg: PilotConfig, row: OrderRecord, script: seq<Attempt>): seq<string>
    requires ScriptOk(cfg, script)
  {
    Reconcile(cfg.reconcile, script, row.orderID, row.status).written
  }

  /** Reconciling the row does not finish its order: nothing is written, or nothing terminal. */
  ghost predicate StaysOpenAfter(cfg: PilotConfig, row: OrderRecord, script: seq<Attempt>)
    requires ScriptOk(cfg, script)
  {
    LeavesOpen(Statuses(cfg, row, script))
  }

  predicate LeavesOpen(written: seq<string>) {
    |written| == 0 || !IsTerminal(written[|written| - 1])
  }

  /** The query judges these statuses as the loop does. */
  ghost predicate JudgedAlike(pending: string -> bool, terminal: string -> bool, written: seq<string>) {
    forall k :: 0 <= k < |written| ==> (pending(written[k]) <==> !terminal(written[k]))
  }

  function Pending(): string -> bool { (status: string) => SqlPending(status) }

  lemma StatusesJudgedAlike(cfg: PilotConfig, row: OrderRecord, script: seq<Attempt>)
    requires ScriptOk(cfg, script)
    ensures JudgedAlike(Pending(), Terminal(), Statuses(cfg, row, script))
  {
    var written := Statuses(cfg, row, script);
    forall k | 0 <= k < |written|
      ensures Pending()(written[k]) <==> !Terminal()(written[k])
    {
      WritesNormalForms(cfg.reconcile, script, row.orderID, row.status, written[k]);
    }
  }

  lemma LastPendingExactlyWhen(written: seq<string>)
    requires |written| > 0 && JudgedAlike(Pending(), Terminal(), written)
    ensures SqlPending(written[|written| - 1]) <==> LeavesOpen(written)
  {
    assert Pending()(written[|written| - 1]) <==> !Terminal()(written[|written| - 1]);
  }

  lemma LastStatusPending(cfg: PilotConfig, row: OrderRecord, script: seq<Attempt>, written: seq<string>)
    requires ScriptOk(cfg, script) && written == Statuses(cfg, row, script) && |written| > 0
    ensures SqlPending(written[|written| - 1]) <==> LeavesOpen(written)
  {
    StatusesJudgedAlike(cfg, row, script);
    LastPendingExactlyWhen(written);
  }

  lemma ReconcileKeepsTop(cfg: PilotConfig, clock: nat -> int, log: seq<OrderRecord>, row: OrderRecord,
                          script: seq<Attempt>, n: nat, orders: set<string>)
    requires ScriptOk(cfg, script) && OnTop(log, n, orders) && row.orderID in orders
    requires StaysOpenAfter(cfg, row, script)
    ensures OnTop(ReconcileLog(cfg, clock, log, row, script), n, orders)
  {
    var written := Statuses(cfg, row, script);
    if |written| > 0 {
      LastStatusPending(cfg, row, script, written);
    }
    AppendKeepsTop(clock, log, row.signalID, row.orderID, written, n, orders);
  }

  /** How many rows the sweep gets to before a lost save ends it. */
  ghost function Reached(cfg: PilotConfig, rows: seq<OrderRecord>, scripts: seq<seq<Attempt>>): (n: nat)
    requires ScriptsOk(cfg, rows, scripts)
    ensures n <= |rows|
    decreases |rows|
  {
    if |rows| == 0 then 0
    else if LosesSaveAt(cfg, rows[0], scripts[0]) then 1
    else
      OtherScriptsOk(cfg, rows, scripts);
      1 + Reached(cfg, rows[1..], scripts[1..])
  }

  /** The sweep finishes none of the orders it gets to. */
  ghost predicate AllStayOpen(cfg: PilotConfig, rows: seq<OrderRecord>, scripts: seq<seq<Attempt>>)
    requires ScriptsOk(cfg, rows, scripts)
  {
    forall k :: 0 <= k < Reached(cfg, rows, scripts) ==> StaysOpenAfter(cfg, rows[k], scripts[k])
  }

  lemma OthersStayOpen(cfg: PilotConfig, rows: seq<OrderRecord>, scripts: seq<seq<Attempt>>)
    requires ScriptsOk(cfg, rows, scripts) && |rows| > 0 && AllStayOpen(cfg, rows, scripts)
    ensures StaysOpenAfter(cfg, rows[0], scripts[0]) && ScriptsOk(cfg, rows[1..], scripts[1..])
    ensures !LosesSaveAt(cfg, rows[0], scripts[0]) ==> AllStayOpen(cfg, rows[1..], scripts[1..])
  {
    OtherScriptsOk(cfg, rows, scripts);
    if !LosesSaveAt(cfg, rows[0], scripts[0]) {
      forall k | 0 <= k < Reached(cfg, rows[1..], scripts[1..])
        ensures StaysOpenAfter(cfg, rows[1..][k], scripts[1..][k])
      {
        assert StaysOpenAfter(cfg, rows[k + 1], scripts[k + 1]);
      }
    }
  }

  ghost predicate RowsOf(rows: seq<OrderRecord>, orders: set<string>) {
    forall k :: 0 <= k < |rows| ==> rows[k].orderID in orders
  }

  lemma OtherRowsOf(rows: seq<OrderRecord>, orders: set<string>)
    requires RowsOf(rows, orders) && |rows| > 0
    ensures RowsOf(rows[1..], orders)
  {
  }

  lemma {:induction false} SweepKeepsTop(cfg: PilotConfig, clock: nat -> int, log: seq<OrderRecord>,
                                         rows: seq<OrderRecord>, scripts: seq<seq<Attempt>>, n: nat,
                                         orders: set<string>)
    requires ScriptsOk(cfg, rows, scripts) && AllStayOpen(cfg, rows, scripts)
    requires OnTop(log, n, orders) && RowsOf(rows, orders)
    ensures OnTop(SweepLog(cfg, clock, log, rows, scripts), n, orders)
    decreases |rows|
  {
    if rows != [] {
      OthersStayOpen(cfg, rows, scripts);
      ReconcileKeepsTop(cfg, clock, log, rows[0], scripts[0], n, orders);
      if !LosesSaveAt(cfg, rows[0], scripts[0]) {
        OtherRowsOf(rows, orders);
        SweepKeepsTop(cfg, clock, ReconcileLog(cfg, clock, log, rows[0], scripts[0]), rows[1..], scripts[1..], n,
                      orders);
      }
    }
  }

  lemma OnlyOrdersJoin(log: seq<OrderRecord>, log1: seq<OrderRecord>, log2: seq<OrderRecord>, orders: set<string>)
    requires log <= log1 <= log2 && OnlyOrders(log1, |log|, orders) && OnlyOrders(log2, |log1|, orders)
    ensures log <= log2 && OnlyOrders(log2, |log|, orders)
  {
    PrefixRows(log1, log2);
  }

  lemma OnlyOrdersWiden(log: seq<OrderRecord>, from: nat, orders: set<string>, more: set<string>)
    requires OnlyOrders(log, from, orders) && orders <= more
    ensures OnlyOrders(log, from, more)
  {
  }

  /** A sweep adds rows of the orders it was given only. */
  lemma {:induction false} SweepAddsOnly(cfg: PilotConfig, clock: nat -> int, log: seq<OrderRecord>,
                                         rows: seq<OrderRecord>, scripts: seq<seq<Attempt>>, orders: set<string>)
    requires ScriptsOk(cfg, rows, scripts) && RowsOf(rows, orders)
    ensures var log' := SweepLog(cfg, clock, log, rows, scripts);
            log <= log' && OnlyOrders(log', |log|, orders)
    decreases |rows|
  {
    if rows != [] {
      var log1 := ReconcileLog(cfg, clock, log, rows[0], scripts[0]);
      AppendedRows(clock, log, rows[0].signalID, rows[0].orderID, Statuses(cfg, rows[0], scripts[0]));
      OnlyOrdersWiden(log1, |log|, {rows[0].orderID}, orders);
      if !LosesSaveAt(cfg, rows[0], scripts[0]) {
        OtherScriptsOk(cfg, rows, scripts);
        OtherRowsOf(rows, orders);
        SweepAddsOnly(cfg, clock, log1, rows[1..], scripts[1..], orders);
        OnlyOrdersJoin(log, log1, SweepLog(cfg, clock, log1, rows[1..], scripts[1..]), orders);
      }
    }
  }

  // ----- orders that a sweep finishes -----

  function OrderIDOf(): OrderRecord -> string { (row: OrderRecord) => row.orderID }

  ghost function OrderIDs(rows: seq<OrderRecord>): set<string> {
    Elements(Map(rows, OrderIDOf()))
  }

  lemma OrderIDListed(rows: seq<OrderRecord>, k: nat)
    requires k < |rows|
    ensures rows[k].orderID in OrderIDs(rows)
  {
    assert Map(rows, OrderIDOf())[k] == rows[k].orderID;
  }

  lemma FirstIsNotLater(rows: seq<OrderRecord>)
    requires |rows| > 0 && DistinctOrders(rows)
    ensures rows[0].orderID !in OrderIDs(rows[1..]) && DistinctOrders(rows[1..])
  {
    var rest, f := rows[1..], OrderIDOf();
    forall k | 0 <= k < |rest|
      ensures Map(rest, f)[k] != rows[0].orderID
    {
      assert rest[k] == rows[k + 1];
    }
  }

  lemma RowsOfTheirOrders(rows: seq<OrderRecord>)
    ensures RowsOf(rows, OrderIDs(rows))
  {
    forall k | 0 <= k < |rows|
      ensures rows[k].orderID in OrderIDs(rows)
    {
      OrderIDListed(rows, k);
    }
  }

  lemma DoneStays(log: seq<OrderRecord>, log': seq<OrderRecord>, orderID: string, orders: set<string>)
    requires log <= log' && OnlyOrders(log', |log|, orders) && orderID !in orders && Done(log, orderID)
    ensures Done(log', orderID)
  {
    var j: nat :| LastRow(log, j, orderID) && !SqlPending(log[j].status);
    LastRowStays(log, log', j, orderID, orders);
  }

  lemma FinishedIsDone(cfg: PilotConfig, clock: nat -> int, log: seq<OrderRecord>, row: OrderRecord,
                       script: seq<Attempt>)
    requires ScriptOk(cfg, script) && !StaysOpenAfter(cfg, row, script)
    ensures Done(ReconcileLog(cfg, clock, log, row, script), row.orderID)
  {
    var log' := ReconcileLog(cfg, clock, log, row, script);
    var written := Statuses(cfg, row, script);
    AppendedRows(clock, log, row.signalID, row.orderID, written);
    LastStatusPending(cfg, row, script, written);
    assert LastRow(log', |log'| - 1, row.orderID);
  }

  lemma {:induction false} FinishedLeaves(cfg: PilotConfig, clock: nat -> int, log: seq<OrderRecord>,
                                          rows: seq<OrderRecord>, scripts: seq<seq<Attempt>>, k: nat)
    requires ScriptsOk(cfg, rows, scripts) && DistinctOrders(rows) && k < Reached(cfg, rows, scripts)
    requires !StaysOpenAfter(cfg, rows[k], scripts[k])
    ensures Done(SweepLog(cfg, clock, log, rows, scripts), rows[k].orderID)
    decreases |rows|
  {
    var log1 := ReconcileLog(cfg, clock, log, rows[0], scripts[0]);
    OtherScriptsOk(cfg, rows, scripts);
    FirstIsNotLater(rows);
    if k == 0 {
      FinishedIsDone(cfg, clock, log, rows[0], scripts[0]);
      RowsOfTheirOrders(rows[1..]);
      SweepAddsOnly(cfg, clock, log1, rows[1..], scripts[1..], OrderIDs(rows[1..]));
      if !LosesSaveAt(cfg, rows[0], scripts[0]) {
        DoneStays(log1, SweepLog(cfg, clock, log1, rows[1..], scripts[1..]), rows[0].orderID, OrderIDs(rows[1..]));
      }
    } else {
      assert rows[1..][k - 1] == rows[k] && scripts[1..][k - 1] == scripts[k];
      FinishedLeaves(cfg, clock, log1, rows[1..], scripts[1..], k - 1);
    }
  }

  // ----- what a query names -----

  ghost predicate Indices(log: seq<OrderRecord>, rows: seq<nat>) {
    forall k :: 0 <= k < |rows| ==> rows[k] < |log|
  }

  lemma QueryRows(log: seq<OrderRecord>, limit: nat, rows: seq<nat>) returns (n: nat)
    requires IsPendingQuery(log, limit, rows)
    ensures ListsPending(log, n, rows) && (n > 0 ==> |rows| == limit)
    ensures forall k :: 0 <= k < |rows| ==> rows[k] < |log| && IsPending(log, rows[k])
  {
    n :| ListsPending(log, n, rows) && (n > 0 ==> |rows| == limit);
    assert forall k :: 0 <= k < |rows| ==> IsPending(log, rows[k]);
  }

  lemma QueriedOrdersDistinct(log: seq<OrderRecord>, limit: nat, rows: seq<nat>)
    requires Chronological(log) && IsPendingQuery(log, limit, rows)
    requires Indices(log, rows)
    ensures DistinctOrders(Rows(log, rows)) && |OrderIDs(Rows(log, rows))| == |rows|
    ensures forall k :: 0 <= k < |rows| ==> log[rows[k]].orderID != ""
  {
    var n := QueryRows(log, limit, rows);
    forall k, l | 0 <= k < l < |rows|
      ensures log[rows[k]].orderID != log[rows[l]].orderID
    {
      PendingOrdersDistinct(log, rows[k], rows[l]);
    }
    ElementCount(Map(Rows(log, rows), OrderIDOf()));
  }

  lemma ListedOrder(log: seq<OrderRecord>, rows: seq<nat>, j: nat)
    requires Indices(log, rows)
    requires j in rows
    ensures log[j].orderID in OrderIDs(Rows(log, rows))
  {
    var k :| 0 <= k < |rows| && rows[k] == j;
    OrderIDListed(Rows(log, rows), k);
  }

  lemma AllListed(moved: seq<OrderRecord>, orders: set<string>)
    requires forall k :: 0 <= k < |moved| ==> moved[k].orderID in orders
    ensures OrderIDs(moved) <= orders
  {
    var ids := Map(moved, OrderIDOf());
    assert forall k :: 0 <= k < |ids| ==> ids[k] in orders;
  }

  lemma PendingExactlyWhen(log: seq<OrderRecord>, j: nat)
    requires Chronological(log) && j < |log|
    ensures IsPending(log, j) <==> log[j].orderID != "" && LastPending(log, j, log[j].orderID)
  {
    LatestIsLast(log, j);
  }

  lemma TopOfRows(log: seq<OrderRecord>, n: nat, rows: seq<nat>)
    requires Chronological(log) && n <= |log| && ListsPending(log, n, rows) && Indices(log, rows)
    ensures OnTop(log, n, OrderIDs(Rows(log, rows)))
  {
    var named, ids := Rows(log, rows), Map(Rows(log, rows), OrderIDOf());
    forall k | 0 <= k < |rows|
      ensures ids[k] != "" && OpenFrom(log, n, ids[k])
    {
      assert ids[k] == log[rows[k]].orderID && IsPending(log, rows[k]);
      PendingExactlyWhen(log, rows[k]);
    }
    forall j: nat, id | n <= j && id != "" && LastPending(log, j, id)
      ensures id in OrderIDs(named)
    {
      PendingExactlyWhen(log, j);
      ListedOrder(log, rows, j);
    }
  }

  /** What a query names is on top. */
  lemma QueryIsTop(log: seq<OrderRecord>, limit: nat, rows: seq<nat>) returns (n: nat)
    requires Chronological(log) && Indices(log, rows) && IsPendingQuery(log, limit, rows)
    ensures OnTop(log, n, OrderIDs(Rows(log, rows)))
  {
    var n0 := QueryRows(log, limit, rows);
    n := if n0 > |log| then |log| else n0;
    TopOfRows(log, n, rows);
  }

  lemma OnTopIsListed(log: seq<OrderRecord>, n: nat, n': nat, rows: seq<nat>, id: string)
    requires Chronological(log) && Indices(log, rows) && ListsPending(log, n', rows) && n' <= n
    requires id != "" && OpenFrom(log, n, id)
    ensures id in OrderIDs(Rows(log, rows))
  {
    var j: nat :| n <= j && LastPending(log, j, id);
    PendingExactlyWhen(log, j);
    ListedOrder(log, rows, j);
  }

  lemma ListedIsOnTop(log: seq<OrderRecord>, n: nat, orders: set<string>, n': nat, rows: seq<nat>)
    requires Chronological(log) && Indices(log, rows) && ListsPending(log, n', rows) && n <= n'
    requires OnTop(log, n, orders)
    ensures OrderIDs(Rows(log, rows)) <= orders
  {
    forall k | 0 <= k < |rows|
      ensures log[rows[k]].orderID in orders
    {
      assert IsPending(log, rows[k]);
      PendingExactlyWhen(log, rows[k]);
    }
    AllListed(Rows(log, rows), orders);
  }

  /** As many orders on top as the limit allows are what every query names. */
  lemma TopIsQueried(log: seq<OrderRecord>, n: nat, orders: set<string>, limit: nat, rows: seq<nat>)
    requires Chronological(log) && OnTop(log, n, orders) && |orders| == limit
    requires Indices(log, rows) && IsPendingQuery(log, limit, rows)
    ensures OrderIDs(Rows(log, rows)) == orders
  {
    var n' := QueryRows(log, limit, rows);
    QueriedOrdersDistinct(log, limit, rows);
    if n < n' {
      ListedIsOnTop(log, n, orders, n', rows);
      SubsetCount(OrderIDs(Rows(log, rows)), orders);
    } else {
      forall id | id in orders
        ensures id in OrderIDs(Rows(log, rows))
      {
        OnTopIsListed(log, n, n', rows, id);
      }
      SubsetCount(orders, OrderIDs(Rows(log, rows)));
    }
  }

  lemma OneLastRow(log: seq<OrderRecord>, i: nat, j: nat, id: string)
    requires LastRow(log, i, id) && LastRow(log, j, id)
    ensures i == j
  {
  }

  lemma DoneIsNotQueried(log: seq<OrderRecord>, limit: nat, rows: seq<nat>, id: string)
    requires Chronological(log) && Indices(log, rows) && IsPendingQuery(log, limit, rows) && Done(log, id)
    ensures id !in OrderIDs(Rows(log, rows))
  {
    var n := QueryRows(log, limit, rows);
    var j: nat :| LastRow(log, j, id) && !SqlPending(log[j].status);
    var ids := Map(Rows(log, rows), OrderIDOf());
    forall k | 0 <= k < |ids|
      ensures ids[k] != id
    {
      PendingExactlyWhen(log, rows[k]);
      if ids[k] == id {
        OneLastRow(log, rows[k], j, id);
      }
    }
  }

  // ----- one sweep after another -----

  /** The situation after a sweep over a full answer of the query. */
  ghost predicate FullSweep(cfg: PilotConfig, clock: nat -> int, log: seq<OrderRecord>, rows: seq<nat>,
                            scripts: seq<seq<Attempt>>, log': seq<OrderRecord>) {
    && Chronological(log) && Indices(log, rows)
    && IsPendingQuery(log, cfg.sweepLimit, rows) && |rows| == cfg.sweepLimit
    && ScriptsOk(cfg, Rows(log, rows), scripts)
    && Chronological(log') && log' == SweepLog(cfg, clock, log, Rows(log, rows), scripts)
  }

  lemma OpenSweepRepeats(cfg: PilotConfig, clock: nat -> int, log: seq<OrderRecord>, rows: seq<nat>,
                         scripts: seq<seq<Attempt>>, log': seq<OrderRecord>, rows': seq<nat>)
    requires FullSweep(cfg, clock, log, rows, scripts, log') && AllStayOpen(cfg, Rows(log, rows), scripts)
    requires Indices(log', rows') && IsPendingQuery(log', cfg.sweepLimit, rows')
    ensures OrderIDs(Rows(log', rows')) == OrderIDs(Rows(log, rows))
  {
    var orders := OrderIDs(Rows(log, rows));
    var n := QueryIsTop(log, cfg.sweepLimit, rows);
    QueriedOrdersDistinct(log, cfg.sweepLimit, rows);
    RowsOfTheirOrders(Rows(log, rows));
    SweepKeepsTop(cfg, clock, log, Rows(log, rows), scripts, n, orders);
    TopIsQueried(log', n, orders, cfg.sweepLimit, rows');
  }

  lemma FinishingSweepChanges(cfg: PilotConfig, clock: nat -> int, log: seq<OrderRecord>, rows: seq<nat>,
                              scripts: seq<seq<Attempt>>, log': seq<OrderRecord>, rows': seq<nat>)
    requires FullSweep(cfg, clock, log, rows, scripts, log') && !AllStayOpen(cfg, Rows(log, rows), scripts)
    requires Indices(log', rows') && IsPendingQuery(log', cfg.sweepLimit, rows')
    ensures OrderIDs(Rows(log', rows')) != OrderIDs(Rows(log, rows))
  {
    var named := Rows(log, rows);
    var k :| 0 <= k < Reached(cfg, named, scripts) && !StaysOpenAfter(cfg, named[k], scripts[k]);
    QueriedOrdersDistinct(log, cfg.sweepLimit, rows);
    FinishedLeaves(cfg, clock, log, named, scripts, k);
    DoneIsNotQueried(log', cfg.sweepLimit, rows', named[k].orderID);
    OrderIDListed(named, k);
  }

  /** After a full sweep the next query names the same orders again exactly when the sweep has finished none
      of them. */
  lemma SweepRepeatsExactlyWhen(cfg: PilotConfig, clock: nat -> int, log: seq<OrderRecord>, rows: seq<nat>,
                                scripts: seq<seq<Attempt>>, log': seq<OrderRecord>, rows': seq<nat>)
    requires FullSweep(cfg, clock, log, rows, scripts, log')
    requires Indices(log', rows') && IsPendingQuery(log', cfg.sweepLimit, rows')
    ensures OrderIDs(Rows(log', rows')) == OrderIDs(Rows(log, rows)) <==>
            AllStayOpen(cfg, Rows(log, rows), scripts)
  {
    if AllStayOpen(cfg, Rows(log, rows), scripts) {
      OpenSweepRepeats(cfg, clock, log, rows, scripts, log', rows');
    } else {
      FinishingSweepChanges(cfg, clock, log, rows, scripts, log', rows');
    }
  }

  // ----- whole runs -----

  /** A submission after which no new order is on record: it is blocked, its record is lost, or the exchange
      gives it no id. */
  ghost predicate AddsNoOrder(cfg: PilotConfig, st: RunState, e: Event)
    requires e.Execute?
  {
    || Decide(cfg.live, st.ledger, st.kill, SubmissionOf(e.order, e.complies)) != Accepted
    || !e.saves || e.post.orderID == ""
  }

  /** No sweep that finishes an order, and no new order. */
  ghost predicate FinishesNothing(cfg: PilotConfig, st: RunState, e: Event) {
    && Enabled(cfg, st, e)
    && (e.Execute? ==> AddsNoOrder(cfg, st, e))
    && (e.Sweep? ==> AllStayOpen(cfg, Rows(st.log, e.rows), e.scripts))
  }

  ghost predicate NothingFinishes(cfg: PilotConfig, states: seq<RunState>, events: seq<Event>, a: nat, b: nat) {
    forall i :: a <= i < b && i < |events| && i < |states| ==> FinishesNothing(cfg, states[i], events[i])
  }

  /** What holds of a log while these orders are swept again and again: they stay on top, and no other order
      gets a row. */
  ghost predicate Swept(log0: seq<OrderRecord>, log: seq<OrderRecord>, n: nat, orders: set<string>) {
    OnTop(log, n, orders) && log0 <= log && OnlyOrders(log, |log0|, orders + {""})
  }

  lemma SkippedBlank(cfg: PilotConfig, script: seq<Attempt>, status: string)
    requires ScriptOk(cfg, script)
    ensures Reconcile(cfg.reconcile, script, "", status).written == []
  {
    Text.TrimSpaceOfTrimmed("");
  }

  lemma UnnamedRowKeepsSwept(clock: nat -> int, log0: seq<OrderRecord>, log: seq<OrderRecord>, signalID: string,
                             status: string, n: nat, orders: set<string>)
    requires Swept(log0, log, n, orders)
    ensures Swept(log0, Append(clock, log, signalID, "", [status]), n, orders)
  {
    var log' := Append(clock, log, signalID, "", [status]);
    AppendedRows(clock, log, signalID, "", [status]);
    OnlyOrdersWiden(log', |log|, {""}, orders + {""});
    OnlyOrdersJoin(log0, log, log', orders + {""});
    UnnamedKeepsTop(log, log', n, orders);
  }

  lemma UnnamedKeepsTop(log: seq<OrderRecord>, log': seq<OrderRecord>, n: nat, orders: set<string>)
    requires OnTop(log, n, orders) && log <= log' && OnlyOrders(log', |log|, {""})
    ensures OnTop(log', n, orders)
  {
    forall id | id in orders
      ensures OpenFrom(log', n, id)
    {
      OthersStayOnTop(log, log', n, "", id);
    }
    forall j: nat, id | n <= j && id != "" && LastPending(log', j, id)
      ensures id in orders
    {
      NothingElseOnTop(log, log', n, orders, "", j, id);
    }
  }

  lemma UnnamedAnswerLog(cfg: PilotConfig, clock: nat -> int, log: seq<OrderRecord>, signalID: string,
                         post: PostAnswer, script: seq<Attempt>)
    requires ScriptOk(cfg, script) && post.orderID == ""
    ensures ExecuteLog(cfg, clock, log, signalID, post, script) ==
            Append(clock, log, signalID, "", [RecordedStatus(post)])
  {
    SkippedBlank(cfg, script, RecordedStatus(post));
  }

  lemma ExecuteKeepsSwept(cfg: PilotConfig, clock: nat -> int, st: RunState, e: Event, log0: seq<OrderRecord>, n: nat,
                          orders: set<string>)
    requires e.Execute? && Enabled(cfg, st, e) && AddsNoOrder(cfg, st, e) && Swept(log0, st.log, n, orders)
    ensures Swept(log0, Step(cfg, clock, st, e).log, n, orders)
  {
    if e.saves {
      if Decide(cfg.live, st.ledger, st.kill, SubmissionOf(e.order, e.complies)) != Accepted {
        UnnamedRowKeepsSwept(clock, log0, st.log, e.signalID, "blocked", n, orders);
      } else {
        UnnamedAnswerLog(cfg, clock, st.log, e.signalID, e.post, e.script);
        UnnamedRowKeepsSwept(clock, log0, st.log, e.signalID, RecordedStatus(e.post), n, orders);
      }
    }
  }

  lemma SweepKeepsSwept(cfg: PilotConfig, clock: nat -> int, log0: seq<OrderRecord>, log: seq<OrderRecord>,
                        rows: seq<nat>, scripts: seq<seq<Attempt>>, n: nat, orders: set<string>)
    requires Chronological(log) && Indices(log, rows) && IsPendingQuery(log, cfg.sweepLimit, rows)
    requires ScriptsOk(cfg, Rows(log, rows), scripts) && AllStayOpen(cfg, Rows(log, rows), scripts)
    requires Swept(log0, log, n, orders) && |orders| == cfg.sweepLimit
    ensures Swept(log0, SweepLog(cfg, clock, log, Rows(log, rows), scripts), n, orders)
  {
    var named := Rows(log, rows);
    var log' := SweepLog(cfg, clock, log, named, scripts);
    TopIsQueried(log, n, orders, cfg.sweepLimit, rows);
    RowsOfTheirOrders(named);
    SweepKeepsTop(cfg, clock, log, named, scripts, n, orders);
    SweepAddsOnly(cfg, clock, log, named, scripts, orders);
    OnlyOrdersWiden(log', |log|, orders, orders + {""});
    OnlyOrdersJoin(log0, log, log', orders + {""});
  }

  lemma StepKeepsSwept(cfg: PilotConfig, clock: nat -> int, st: RunState, e: Event, st': RunState,
                       log0: seq<OrderRecord>, n: nat, orders: set<string>)
    requires FinishesNothing(cfg, st, e) && st' == Step(cfg, clock, st, e) && Chronological(st.log)
    requires Swept(log0, st.log, n, orders) && |orders| == cfg.sweepLimit
    ensures Swept(log0, st'.log, n, orders)
  {
    if e.Execute? {
      ExecuteKeepsSwept(cfg, clock, st, e, log0, n, orders);
    } else if e.Sweep? {
      SweepKeepsSwept(cfg, clock, log0, st.log, e.rows, e.scripts, n, orders);
    } else {
      assert st'.log == st.log;
    }
  }

  lemma RunIsChronological(cfg: PilotConfig, clock: nat -> int, states: seq<RunState>, events: seq<Event>, i: nat)
    requires Increasing(clock) && IsRun(cfg, clock, states, events) && i <= |events|
    ensures Chronological(states[i].log)
  {
    RunInvariant(cfg, clock, states, events, i);
    StampedIsChronological(clock, states[i].log);
  }

  lemma SweptOnce(cfg: PilotConfig, clock: nat -> int, states: seq<RunState>, events: seq<Event>, i: nat,
                  log0: seq<OrderRecord>, n: nat, orders: set<string>)
    requires Increasing(clock) && IsRun(cfg, clock, states, events) && i < |events|
    requires FinishesNothing(cfg, states[i], events[i])
    requires Swept(log0, states[i].log, n, orders) && |orders| == cfg.sweepLimit
    ensures Swept(log0, states[i + 1].log, n, orders)
  {
    RunIsChronological(cfg, clock, states, events, i);
    StepKeepsSwept(cfg, clock, states[i], events[i], states[i + 1], log0, n, orders);
  }

  ghost predicate SweptOn(states: seq<RunState>, i: nat, log0: seq<OrderRecord>, n: nat, orders: set<string>) {
    i + 1 < |states| && (Swept(log0, states[i].log, n, orders) ==> Swept(log0, states[i + 1].log, n, orders))
  }

  lemma {:induction false} SweptFrom(states: seq<RunState>, a: nat, b: nat, log0: seq<OrderRecord>, n: nat,
                                     orders: set<string>)
    requires a <= b < |states| && forall i: nat :: a <= i < b ==> SweptOn(states, i, log0, n, orders)
    requires Swept(log0, states[a].log, n, orders)
    ensures Swept(log0, states[b].log, n, orders)
    decreases b
  {
    if a < b {
      SweptFrom(states, a, b - 1, log0, n, orders);
      assert SweptOn(states, b - 1, log0, n, orders);
    }
  }

  lemma SweptThroughout(cfg: PilotConfig, clock: nat -> int, states: seq<RunState>, events: seq<Event>, a: nat, b: nat,
                        n: nat, orders: set<string>)
    requires Increasing(clock) && IsRun(cfg, clock, states, events) && a <= b <= |events|
    requires NothingFinishes(cfg, states, events, a, b)
    requires OnTop(states[a].log, n, orders) && |orders| == cfg.sweepLimit
    ensures Swept(states[a].log, states[b].log, n, orders)
  {
    var log0 := states[a].log;
    forall i: nat | a <= i < b
      ensures SweptOn(states, i, log0, n, orders)
    {
      if Swept(log0, states[i].log, n, orders) {
        SweptOnce(cfg, clock, states, events, i, log0, n, orders);
      }
    }
    SweptFrom(states, a, b, log0, n, orders);
  }

  /** Whatever the pending query answers, it names these orders. */
  ghost predicate QueriesName(log: seq<OrderRecord>, limit: nat, orders: set<string>) {
    forall rows: seq<nat> :: Indices(log, rows) && IsPendingQuery(log, limit, rows) ==>
                               OrderIDs(Rows(log, rows)) == orders
  }

  /** The order has a pending row that is its last, and gets no row after `from`. */
  ghost predicate LeftAlone(log: seq<OrderRecord>, from: nat, r: nat) {
    IsPending(log, r) && forall k :: from <= k < |log| ==> log[k].orderID != log[r].orderID
  }

  lemma OutsideIsLeftAlone(log0: seq<OrderRecord>, log: seq<OrderRecord>, n: nat, orders: set<string>, r: nat)
    requires Swept(log0, log, n, orders) && Chronological(log0) && Chronological(log)
    requires r < |log0| && IsPending(log0, r) && log0[r].orderID !in orders
    ensures LeftAlone(log, |log0|, r)
  {
    PendingExactlyWhen(log0, r);
    LastRowStays(log0, log, r, log0[r].orderID, orders + {""});
    PendingExactlyWhen(log, r);
  }

  /** As long as no order of a full query is finished and none is added, every later query names exactly these
      orders; an open order outside them gets no further row and stays pending. */
  lemma StarvedOrdersStayStarved(cfg: PilotConfig, clock: nat -> int, states: seq<RunState>, events: seq<Event>,
                                 a: nat, b: nat, rows: seq<nat>)
    requires Increasing(clock) && IsRun(cfg, clock, states, events) && a <= b <= |events|
    requires NothingFinishes(cfg, states, events, a, b)
    requires Indices(states[a].log, rows) && IsPendingQuery(states[a].log, cfg.sweepLimit, rows)
    requires |rows| == cfg.sweepLimit
    ensures var orders := OrderIDs(Rows(states[a].log, rows));
            && QueriesName(states[b].log, cfg.sweepLimit, orders)
            && (forall r: nat :: r < |states[a].log| && IsPending(states[a].log, r)
                                 && states[a].log[r].orderID !in orders ==>
                                   LeftAlone(states[b].log, |states[a].log|, r))
  {
    var log0, log, orders := states[a].log, states[b].log, OrderIDs(Rows(states[a].log, rows));
    RunIsChronological(cfg, clock, states, events, a);
    RunIsChronological(cfg, clock, states, events, b);
    QueriedOrdersDistinct(log0, cfg.sweepLimit, rows);
    var n := QueryIsTop(log0, cfg.sweepLimit, rows);
    SweptThroughout(cfg, clock, states, events, a, b, n, orders);
    forall rows': seq<nat> | Indices(log, rows') && IsPendingQuery(log, cfg.sweepLimit, rows')
      ensures OrderIDs(Rows(log, rows')) == orders
    {
      TopIsQueried(log, n, orders, cfg.sweepLimit, rows');
    }
    forall r: nat | r < |log0| && IsPending(log0, r) && log0[r].orderID !in orders
      ensures LeftAlone(log, |log0|, r)
    {
      OutsideIsLeftAlone(log0, log, n, orders, r);
    }
  }
}
