/** The autopilot's methods as they run, over the order store and the live router
    (internal/runtime/autopilot.go). */
module AutoPiloting {
  import opened FixedWidth
  import opened LiveRouting
  import opened OrderLog
  import opened PilotRuns
  import opened Reconciling
  import Backoff
  import Text

  /** What is known `done` attempts into the loop, given what the rest of it will do. */
  function Resume(written: seq<string>, done: nat, waits: seq<int>, rest: Reconciliation): Reconciliation {
    Reconciliation(written + rest.written, done + rest.calls, waits + rest.waits, rest.outcome)
  }

  /** Each delay is the reconcile step of the one before. */
  ghost predicate Scheduled(t: Terms, maxDelay: int) {
    forall k: nat :: t.delay(k + 1) == Backoff.NextReconcileDelay(t.delay(k), maxDelay)
  }

  class AutoPilot {
    const cfg: PilotConfig
    const clock: nat -> int
    const store: OrderStore
    const router: LiveRouter
    ghost var posted: seq<Posting>

    constructor (cfg: PilotConfig, clock: nat -> int, store: OrderStore, router: LiveRouter)
      ensures this.cfg == cfg && this.clock == clock && this.store == store && this.router == router && posted == []
    {
      this.cfg, this.clock, this.store, this.router, posted := cfg, clock, store, router, [];
    }

    ghost function State(): RunState
      reads this, store, router, router.kill
    {
      RunState(router.Books(), router.accepted, router.kill.State(), posted, store.log)
    }

    /** SaveOrder with the time read from the clock. */
    method Save(signalID: string, orderID: string, status: string, succeeds: bool) returns (ok: bool)
      modifies store
      ensures ok == succeeds
      ensures store.log == if ok then Append(clock, old(store.log), signalID, orderID, [status]) else old(store.log)
    {
      ok := store.SaveOrder(OrderRecord(signalID, status, orderID, clock(|store.log|)), succeeds);
      assert [status][..0] == [];
    }

    /** The record of an observed status that differs from the current one. */
    method SaveChange(signalID: string, orderID: string, status: string, seen: string, succeeds: bool)
      returns (ok: bool)
      modifies store
      ensures ok == (seen == status || succeeds)
      ensures store.log == Append(clock, old(store.log), signalID, orderID, if ok then Change(status, seen) else [])
    {
      ok := true;
      if seen != status {
        ok := Save(signalID, orderID, seen, succeeds);
      }
    }

    method SaveClosing(signalID: string, orderID: string, ghost written: seq<string>, closing: string, succeeds: bool,
                       ghost before: seq<OrderRecord>) returns (ok: bool)
      requires store.log == Append(clock, before, signalID, orderID, written)
      modifies store
      ensures ok == succeeds
      ensures store.log == Append(clock, before, signalID, orderID, Closing(written, closing, ok).written)
    {
      AppendConcat(clock, before, signalID, orderID, written, [closing]);
      ok := Save(signalID, orderID, closing, succeeds);
    }

    /** The status text as the loop reads it. */
    method ReadStatus(raw: string) returns (seen: string)
      ensures seen == Observed(raw)
    {
      seen := Text.ToLower(Text.TrimSpace(raw));
      if seen == "" {
        seen := "unknown";
      }
    }

    /** isRetryableOrderStatusError on the HTTP status in the error's text, if there is one. */
    method ShouldRetry(answer: Answer) returns (retry: bool)
      ensures retry == Retryable(answer)
    {
      if !answer.HttpError? {
        return false;
      }
      if answer.code == 425 || answer.code == 429 {
        return true;
      }
      retry := answer.code >= 500 && answer.code <= 599;
    }

    /** One turn of the loop. `Stop` carries what the turn wrote and how the call ends. */
    method Turn(t: Terms, signalID: string, orderID: string, attempt: nat, status: string, raw: Attempt, delay: int)
      returns (step: TurnEnd)
      requires delay == t.delay(attempt)
      modifies store
      ensures var a := Normalized()(raw);
              && step == AttemptOnce(t, a, attempt, status)
              && store.log == Append(clock, old(store.log), signalID, orderID,
                                     if step.Stop? then step.result.written else Change(status, Seen(a.answer, status)))
    {
      var last := attempt == t.maxAttempts - 1;
      if !raw.answer.Open? {
        var retry := ShouldRetry(raw.answer);
        if !retry || last {
          var ok := SaveClosing(signalID, orderID, [], t.error, raw.closes, store.log);
          return Stop(Closing([], t.error, ok));
        }
        return if raw.waits then GoOn else Stop(Reconciliation([], 1, [delay], Cancelled));
      }
      var seen := ReadStatus(raw.answer.status);
      var ok := SaveChange(signalID, orderID, status, seen, raw.saves);
      var written := Change(status, seen);
      if !ok {
        return Stop(Reconciliation([], 1, [], SaveFailed));
      }
      if t.terminal(seen) {
        return Stop(Reconciliation(written, 1, [], Closed));
      }
      if last {
        ok := SaveClosing(signalID, orderID, written, t.pending, raw.closes, old(store.log));
        return Stop(Closing(written, t.pending, ok));
      }
      return if raw.waits then GoOn else Stop(Reconciliation(written, 1, [delay], Cancelled));
    }

    /** The current status after an attempt that goes on. */
    method StatusAfter(raw: Attempt, status: string) returns (seen: string)
      ensures seen == Seen(Normalized()(raw).answer, status)
    {
      seen := status;
      if raw.answer.Open? {
        seen := ReadStatus(raw.answer.status);
      }
    }

    method NextDelay(ghost t: Terms, ghost attempt: nat, delay: int) returns (next: int)
      requires Scheduled(t, cfg.reconcile.maxDelay) && delay == t.delay(attempt)
      ensures next == t.delay(attempt + 1)
    {
      next := Wrap64(delay * 2);
      if next <= 0 {
        next := 200 * Backoff.MILLISECOND;
      }
      if cfg.reconcile.maxDelay > 0 && next > cfg.reconcile.maxDelay {
        next := cfg.reconcile.maxDelay;
      }
    }

    /** The loop, for any terms it may be run with. */
    method Loop(t: Terms, signalID: string, orderID: string, initial: string, script: seq<Attempt>)
      returns (r: Reconciliation)
      requires Scripted(t, script)
      requires t.delay(0) == cfg.reconcile.baseDelay && Scheduled(t, cfg.reconcile.maxDelay)
      modifies store
      ensures r == Attempts(t, ObservedScript(script), 0, initial)
      ensures store.log == Append(clock, old(store.log), signalID, orderID, r.written)
    {
      ghost var read := ObservedScript(script);
      var status, delay, attempt := initial, cfg.reconcile.baseDelay, 0;
      var written: seq<string>, waits: seq<int> := [], [];
      while true
        invariant attempt < t.maxAttempts && delay == t.delay(attempt)
        invariant Resume(written, attempt, waits, Attempts(t, read, attempt, status)) == Attempts(t, read, 0, initial)
        invariant store.log == Append(clock, old(store.log), signalID, orderID, written)
        decreases t.maxAttempts - attempt
      {
        var step := Turn(t, signalID, orderID, attempt, status, script[attempt], delay);
        if step.Stop? {
          AppendConcat(clock, old(store.log), signalID, orderID, written, step.result.written);
          return Resume(written, attempt, waits, step.result);
        }
        var seen := StatusAfter(script[attempt], status);
        ghost var rest := Attempts(t, read, attempt + 1, seen);
        ResumeStep(written, attempt, waits, Change(status, seen), delay, rest);
        AppendConcat(clock, old(store.log), signalID, orderID, written, Change(status, seen));
        written, waits := written + Change(status, seen), waits + [delay];
        delay := NextDelay(t, attempt, delay);
        status, attempt := seen, attempt + 1;
      }
    }

    method ReconcileOrder(signalID: string, orderID: string, currentStatus: string, script: seq<Attempt>)
      returns (r: Reconciliation)
      requires ScriptOk(cfg, script)
      modifies store
      ensures r == Reconcile(cfg.reconcile, script, orderID, currentStatus)
      ensures store.log == Append(clock, old(store.log), signalID, orderID, r.written)
    {
      if Text.TrimSpace(orderID) == "" || IsTerminal(currentStatus) {
        return Reconciliation([], 0, [], Skipped);
      }
      r := Loop(TermsOf(cfg.reconcile), signalID, orderID, Normalize(currentStatus), script);
    }

    /** The periodic sweep: the pending rows in turn, until a save fails. */
    method ReconcilePendingOrders(scripts: seq<seq<Attempt>>) returns (rows: seq<nat>)
      requires Chronological(store.log) && 0 < cfg.sweepLimit <= |scripts|
      requires forall k :: 0 <= k < |scripts| ==> ScriptOk(cfg, scripts[k])
      modifies store
      ensures IsPendingQuery(old(store.log), cfg.sweepLimit, rows)
      ensures forall k :: 0 <= k < |rows| ==> rows[k] < |old(store.log)|
      ensures old(Enabled(cfg, State(), Sweep(rows, scripts)))
              && State() == Step(cfg, clock, old(State()), Sweep(rows, scripts))
    {
      rows := store.ListPending(cfg.sweepLimit);
      assert forall k :: 0 <= k < |rows| ==> IsPending(store.log, rows[k]);
      SweepRows(Rows(store.log, rows), scripts);
    }

    method SweepRows(pending: seq<OrderRecord>, scripts: seq<seq<Attempt>>)
      requires |pending| <= |scripts| && forall k :: 0 <= k < |scripts| ==> ScriptOk(cfg, scripts[k])
      modifies store
      ensures store.log == SweepLog(cfg, clock, old(store.log), pending, scripts)
    {
      ghost var before := store.log;
      for k := 0 to |pending|
        invariant SweepLog(cfg, clock, before, pending, scripts) ==
                  SweepLog(cfg, clock, store.log, pending[k..], scripts[k..])
      {
        var row := pending[k];
        assert pending[k..][0] == row && scripts[k..][0] == scripts[k];
        assert pending[k..][1..] == pending[k + 1..] && scripts[k..][1..] == scripts[k + 1..];
        var r := ReconcileOrder(row.signalID, row.orderID, row.status, scripts[k]);
        if r.outcome == SaveFailed {
          return;
        }
      }
    }

    /** From a signal's order to its posting and first reconciliation. */
    method ExecuteSignal(signalID: string, order: LiveOrder, complies: bool, post: PostAnswer, saves: bool,
                         script: seq<Attempt>) returns (verdict: Verdict)
      requires router.Valid() && ScriptOk(cfg, script)
      modifies this, store, router
      ensures router.Valid()
      ensures verdict ==
              Decide(router.cfg, old(router.Books()), old(router.kill.State()), SubmissionOf(order, complies))
      ensures router.Books() ==
              if verdict == Accepted then Book(router.cfg, old(router.Books()), order) else old(router.Books())
      ensures posted ==
              if verdict == Accepted then old(posted) + [Posting(signalID, order, post.orderID)] else old(posted)
      ensures store.log ==
              if !saves then old(store.log)
              else if verdict == Accepted then ExecuteLog(cfg, clock, old(store.log), signalID, post, script)
              else Append(clock, old(store.log), signalID, "", ["blocked"])
      ensures router.cfg == cfg.live
              && old(Enabled(cfg, State(), Execute(signalID, order, complies, post, saves, script)))
              ==> State() == Step(cfg, clock, old(State()), Execute(signalID, order, complies, post, saves, script))
    {
      verdict := router.Submit(order, 0, complies);
      if verdict != Accepted {
        var saved := Save(signalID, "", "blocked", saves);
        return;
      }
      posted := posted + [Posting(signalID, order, post.orderID)];
      var status := post.status;
      if status == "" {
        status := "submitted";
      }
      if post.failed || !post.success {
        status := "failed";
      }
      var saved := Save(signalID, post.orderID, status, saves);
      if !saved {
        return;
      }
      var r := ReconcileOrder(signalID, post.orderID, status, script);
    }
  }

  lemma ResumeStep(written: seq<string>, done: nat, waits: seq<int>, change: seq<string>, delay: int,
                   rest: Reconciliation)
    ensures Resume(written, done, waits, Then(change, delay, rest)) ==
            Resume(written + change, done + 1, waits + [delay], rest)
  {
  }
}
