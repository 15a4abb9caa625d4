/** Order statuses, the append-only attempt log and its pending query
    (internal/persistence/store.go, internal/runtime/autopilot.go). */
module OrderLog {
  import opened Sequences
  import opened Text

  // ----- statuses -----

  function Normalize(status: string): string {
    ToLower(TrimSpace(status))
  }

  /** A status is normalised to its text without the white space at both ends, letter by letter in lower case. */
  lemma NormalizedIsLowerCore(status: string) returns (lead: string, core: string, tail: string)
    ensures status == lead + core + tail && AllSpaces(lead) && AllSpaces(tail) && Trimmed(core)
    ensures |Normalize(status)| == |core|
    ensures forall k :: 0 <= k < |core| ==> Normalize(status)[k] == LowerChar(core[k])
  {
    core := TrimSpace(status);
    lead, tail := TrimSpaceCuts(status);
  }

  /** The cases of isTerminalOrderStatus. */
  const TERMINAL := {"filled", "cancelled", "canceled", "expired", "failed", "matched"}

  predicate IsTerminal(status: string) {
    Normalize(status) in TERMINAL
  }

  /** WHERE latest.status NOT IN (...): the database compares the stored text as it is. */
  predicate SqlPending(status: string) {
    status !in ["filled", "cancelled", "canceled", "expired", "failed", "matched"]
  }

  /** The query and the loop list the same words. */
  lemma SameWords(status: string)
    ensures SqlPending(status) <==> status !in TERMINAL
  {
  }

  predicate NormalForm(status: string) {
    Normalize(status) == status
  }

  lemma NormalizeNormalizes(status: string)
    ensures NormalForm(Normalize(status))
  {
    LowerTrimIdempotent(status);
  }

  lemma TerminalAreNormal(status: string)
    requires status in TERMINAL
    ensures NormalForm(status)
  {
    assert status != "" && !IsSpace(status[0]) && !IsSpace(status[|status| - 1]);
    TrimSpaceOfTrimmed(status);
    assert ToLower(status) == status;
  }

  /** The query's filter and the loop's test are complements exactly when the stored text is in normal
      form or does not normalise to a terminal status. */
  lemma FiltersComplement(status: string)
    ensures (SqlPending(status) <==> !IsTerminal(status)) <==> (NormalForm(status) || !IsTerminal(status))
  {
    SameWords(status);
    if status in TERMINAL {
      TerminalAreNormal(status);
    }
  }

  // ----- the log -----

  datatype OrderRecord = OrderRecord(signalID: string, status: string, orderID: string, createdAt: int)

  ghost predicate Chronological(log: seq<OrderRecord>) {
    forall i, j :: 0 <= i < j < |log| ==> log[i].createdAt < log[j].createdAt
  }

  /** Row `i` is one that DISTINCT ON (order_id) ... ORDER BY created_at DESC may keep. */
  ghost predicate IsLatest(log: seq<OrderRecord>, i: nat) {
    && i < |log| && log[i].orderID != ""
    && forall j :: 0 <= j < |log| && log[j].orderID == log[i].orderID ==> log[j].createdAt <= log[i].createdAt
  }

  ghost predicate IsPending(log: seq<OrderRecord>, i: nat) {
    IsLatest(log, i) && SqlPending(log[i].status)
  }

  /** Some of the pending rows from row `n` on: newest first, none left out between those listed. */
  ghost predicate ListsPending(log: seq<OrderRecord>, n: nat, rows: seq<nat>) {
    && (forall k :: 0 <= k < |rows| ==> n <= rows[k] && IsPending(log, rows[k]))
    && (forall k, l :: 0 <= k < l < |rows| ==> rows[l] < rows[k])
    && (forall i: nat :: n <= i && IsPending(log, i) ==> i in rows)
  }

  /** What selectPendingOrders returns, as row numbers: all pending rows, or the newest `limit`. */
  ghost predicate IsPendingQuery(log: seq<OrderRecord>, limit: nat, rows: seq<nat>) {
    |rows| <= limit && exists n :: ListsPending(log, n, rows) && (n > 0 ==> |rows| == limit)
  }

  /** In a chronological log the latest row of an order is its last one. */
  lemma LatestIsLast(log: seq<OrderRecord>, i: nat)
    requires Chronological(log) && i < |log|
    ensures IsLatest(log, i) <==> log[i].orderID != "" && forall j :: i < j < |log| ==> log[j].orderID != log[i].orderID
  {
    if j :| i < j < |log| && log[j].orderID == log[i].orderID {
      assert log[i].createdAt < log[j].createdAt;
    }
  }

  /** Each order appears in the answer at most once. */
  lemma PendingOrdersDistinct(log: seq<OrderRecord>, i: nat, j: nat)
    requires Chronological(log) && IsLatest(log, i) && IsLatest(log, j) && i != j
    ensures log[i].orderID != log[j].orderID
  {
    LatestIsLast(log, i);
    LatestIsLast(log, j);
  }

  /** The order ids in the rows from `n` on. */
  ghost predicate SeenFrom(log: seq<OrderRecord>, n: nat, seen: set<string>) {
    forall id :: id in seen <==> exists j :: n <= j < |log| && log[j].orderID == id
  }

  lemma SeeOneMore(log: seq<OrderRecord>, n: nat, seen: set<string>)
    requires n < |log| && SeenFrom(log, n + 1, seen)
    ensures SeenFrom(log, n, seen + {log[n].orderID})
  {
    forall id
      ensures id in seen + {log[n].orderID} <==> exists j :: n <= j < |log| && log[j].orderID == id
    {
      if id in seen {
        var j :| n + 1 <= j < |log| && log[j].orderID == id;
      }
    }
  }

  lemma UnseenIsLatest(log: seq<OrderRecord>, n: nat, seen: set<string>)
    requires Chronological(log) && n < |log| && SeenFrom(log, n + 1, seen)
    ensures IsLatest(log, n) <==> log[n].orderID != "" && log[n].orderID !in seen
  {
    LatestIsLast(log, n);
  }

  lemma ListOneMore(log: seq<OrderRecord>, n: nat, rows: seq<nat>)
    requires n < |log| && ListsPending(log, n + 1, rows)
    ensures ListsPending(log, n, if IsPending(log, n) then rows + [n] else rows)
  {
    if IsPending(log, n) {
      var more := rows + [n];
      assert forall i: nat :: i in more <==> i in rows || i == n;
    }
  }

  // ----- what the limit leaves out -----

  ghost function PendingRows(log: seq<OrderRecord>): set<nat> {
    set i: nat | i < |log| && IsPending(log, i)
  }

  lemma ListedArePending(log: seq<OrderRecord>, n: nat, rows: seq<nat>)
    requires ListsPending(log, n, rows)
    ensures NoDup(rows) && Elements(rows) <= PendingRows(log)
  {
  }

  /** One sweep covers every pending order exactly when there are no more of them than the limit. */
  lemma QueryCoversAllExactlyWhen(log: seq<OrderRecord>, limit: nat, rows: seq<nat>)
    requires IsPendingQuery(log, limit, rows)
    ensures Elements(rows) == PendingRows(log) <==> |PendingRows(log)| <= limit
  {
    var n :| ListsPending(log, n, rows) && (n > 0 ==> |rows| == limit);
    ListedArePending(log, n, rows);
    ElementCount(rows);
    SubsetCount(Elements(rows), PendingRows(log));
    if n == 0 {
      assert PendingRows(log) <= Elements(rows);
    }
  }

  class OrderStore {
    var log: seq<OrderRecord>

    constructor ()
      ensures log == []
    {
      log := [];
    }

    /** An INSERT that either adds its row or reports an error and adds nothing. */
    method SaveOrder(record: OrderRecord, succeeds: bool) returns (ok: bool)
      modifies this
      ensures ok == succeeds && log == if succeeds then old(log) + [record] else old(log)
    {
      if succeeds {
        log := log + [record];
      }
      ok := succeeds;
    }

    /** The pending query, answered by a scan from the newest row back. */
    method ListPending(limit: int) returns (rows: seq<nat>)
      requires Chronological(log)
      ensures IsPendingQuery(log, if limit <= 0 then 50 else limit, rows)
    {
      var max := if limit <= 0 then 50 else limit;
      rows := [];
      var seen := {};
      var n := |log|;
      while n > 0 && |rows| < max
        invariant 0 <= n <= |log| && |rows| <= max
        invariant SeenFrom(log, n, seen) && ListsPending(log, n, rows)
      {
        n := n - 1;
        var id := log[n].orderID;
        UnseenIsLatest(log, n, seen);
        ListOneMore(log, n, rows);
        SeeOneMore(log, n, seen);
        if id != "" && id !in seen && SqlPending(log[n].status) {
          rows := rows + [n];
        }
        seen := seen + {id};
      }
    }
  }
}
