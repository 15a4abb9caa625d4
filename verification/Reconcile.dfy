/** The bounded reconcile loop of the autopilot as a function of what the exchange answers
    (internal/runtime/autopilot.go, reconcileOrder). */
module Reconciling {
  import opened Backoff
  import opened OrderLog
  import opened Sequences
  import Text

  /** GetOrder's answer; an error matters only through the HTTP status its text carries, if any. */
  datatype Answer = Open(status: string) | HttpError(code: int) | OtherError

  /** What the world does during one attempt: the exchange's answer, whether the two saves it may lead
      to succeed, and whether the wait after it runs out rather than being cancelled. */
  datatype Attempt = Attempt(answer: Answer, saves: bool, closes: bool, waits: bool)

  datatype ReconcileConfig = ReconcileConfig(maxAttempts: nat, baseDelay: int, maxDelay: int)

  datatype Outcome = Skipped | Closed | Cancelled | SaveFailed

  /** The statuses written, the number of GetOrder calls, the waits in between, and how it ended. */
  datatype Reconciliation = Reconciliation(written: seq<string>, calls: nat, waits: seq<int>, outcome: Outcome)

  /** What the loop is run with: its bound, the delay before each next attempt, the statuses that end an
      order, and the two words it coins itself. */
  datatype Terms = Terms(maxAttempts: nat, delay: nat -> int, terminal: string -> bool, pending: string, error: string)

  function TermsOf(cfg: ReconcileConfig): Terms {
    Terms(cfg.maxAttempts, (k: nat) => NthDelay(cfg.baseDelay, cfg.maxDelay, k), (status: string) => IsTerminal(status),
          "reconcile_pending", "reconcile_error")
  }

  predicate Retryable(answer: Answer) {
    answer.HttpError? && ShouldRetryHTTPStatus(answer.code)
  }

  /** What the loop makes of the status text it is given. */
  function Observed(raw: string): string {
    var status := Normalize(raw);
    if status == "" then "unknown" else status
  }

  function Normalized(): Attempt -> Attempt {
    (a: Attempt) => if a.answer.Open? then a.(answer := Open(Observed(a.answer.status))) else a
  }

  predicate Scripted(t: Terms, script: seq<Attempt>) {
    0 < t.maxAttempts <= |script|
  }

  function Closing(written: seq<string>, closing: string, closes: bool): Reconciliation {
    if closes then Reconciliation(written + [closing], 1, [], Closed) else Reconciliation(written, 1, [], SaveFailed)
  }

  function Then(written: seq<string>, delay: int, rest: Reconciliation): Reconciliation {
    Reconciliation(written + rest.written, 1 + rest.calls, [delay] + rest.waits, rest.outcome)
  }

  function Change(status: string, seen: string): seq<string> {
    if seen != status then [seen] else []
  }

  datatype TurnEnd = Stop(result: Reconciliation) | GoOn

  function Seen(answer: Answer, status: string): string {
    if answer.Open? then answer.status else status
  }

  /** One attempt: either it ends the loop, or the loop waits and goes on. */
  function AttemptOnce(t: Terms, a: Attempt, attempt: nat, status: string): TurnEnd {
    var last := attempt == t.maxAttempts - 1;
    match a.answer
    case Open(seen) =>
      var written := Change(status, seen);
      if seen != status && !a.saves then Stop(Reconciliation([], 1, [], SaveFailed))
      else if t.terminal(seen) then Stop(Reconciliation(written, 1, [], Closed))
      else if last then Stop(Closing(written, t.pending, a.closes))
      else if !a.waits then Stop(Reconciliation(written, 1, [t.delay(attempt)], Cancelled))
      else GoOn
    case _ =>
      if !Retryable(a.answer) || last then Stop(Closing([], t.error, a.closes))
      else if !a.waits then Stop(Reconciliation([], 1, [t.delay(attempt)], Cancelled))
      else GoOn
  }

  /** The loop from one attempt on, over normalised answers. */
  function Attempts(t: Terms, script: seq<Attempt>, attempt: nat, status: string): Reconciliation
    requires Scripted(t, script) && attempt < t.maxAttempts
    decreases t.maxAttempts - attempt
  {
    var seen := Seen(script[attempt].answer, status);
    match AttemptOnce(t, script[attempt], attempt, status)
    case Stop(r) => r
    case GoOn => Then(Change(status, seen), t.delay(attempt), Attempts(t, script, attempt + 1, seen))
  }

  predicate Skips(orderID: string, currentStatus: string) {
    Text.TrimSpace(orderID) == "" || IsTerminal(currentStatus)
  }

  function ObservedScript(script: seq<Attempt>): (r: seq<Attempt>)
    ensures |r| == |script|
  {
    seq(|script|, i requires 0 <= i < |script| => Normalized()(script[i]))
  }

  function Reconcile(cfg: ReconcileConfig, script: seq<Attempt>, orderID: string, currentStatus: string): Reconciliation
    requires 0 < cfg.maxAttempts <= |script|
  {
    if Skips(orderID, currentStatus) then Reconciliation([], 0, [], Skipped)
    else Attempts(TermsOf(cfg), ObservedScript(script), 0, Normalize(currentStatus))
  }

  // ----- what one reconciliation writes -----

  predicate IsClosing(t: Terms, status: string) {
    t.terminal(status) || status == t.pending || status == t.error
  }

  /** The exchange keeps to its own vocabulary. */
  ghost predicate ExternalNames(t: Terms, script: seq<Attempt>) {
    forall k :: 0 <= k < |script| && script[k].answer.Open? ==> script[k].answer.status !in {t.pending, t.error}
  }

  /** The statuses answered in `n` attempts from one on, in order. */
  function Observations(script: seq<Attempt>, from: nat, n: nat): seq<string>
    requires from + n <= |script|
    decreases n
  {
    if n == 0 then []
    else
      var a := script[from].answer;
      (if a.Open? then [a.status] else []) + Observations(script, from + 1, n - 1)
  }

  /** `statuses` without the entries that repeat the one before, `previous` standing before the first. */
  function WithoutRepeats(previous: string, statuses: seq<string>): seq<string>
    decreases |statuses|
  {
    if statuses == [] then []
    else Change(previous, statuses[0]) + WithoutRepeats(statuses[0], statuses[1..])
  }

  /** The record a finished loop adds to the observed statuses, if the last of them is not terminal. */
  function Addendum(t: Terms, r: Reconciliation): seq<string> {
    if r.outcome == Closed && r.written != [] && !t.terminal(r.written[|r.written| - 1])
    then [r.written[|r.written| - 1]] else []
  }

  ghost predicate CoinsOwnWords(t: Terms) {
    !t.terminal(t.pending) && !t.terminal(t.error)
  }

  ghost predicate FinalOnlyLast(terminal: string -> bool, statuses: seq<string>) {
    forall k :: 0 <= k < |statuses| - 1 ==> !terminal(statuses[k])
  }

  /** A terminal status is the last thing a loop writes. */
  lemma {:induction false} TerminalComesLast(t: Terms, script: seq<Attempt>, attempt: nat, status: string)
    requires Scripted(t, script) && attempt < t.maxAttempts
    ensures FinalOnlyLast(t.terminal, Attempts(t, script, attempt, status).written)
    decreases t.maxAttempts - attempt
  {
    var a := script[attempt];
    if AttemptOnce(t, a, attempt, status).GoOn? {
      TerminalComesLast(t, script, attempt + 1, Seen(a.answer, status));
    }
  }

  /** Whatever a loop writes was answered by the exchange or is one of its own two words. */
  lemma {:induction false} WrittenWords(t: Terms, script: seq<Attempt>, attempt: nat, status: string)
    requires Scripted(t, script) && attempt < t.maxAttempts
    ensures forall word :: word in Attempts(t, script, attempt, status).written ==>
                             || word == t.pending || word == t.error
                             || exists k :: 0 <= k < |script| && script[k].answer == Open(word)
    decreases t.maxAttempts - attempt
  {
    var a := script[attempt];
    if AttemptOnce(t, a, attempt, status).GoOn? {
      WrittenWords(t, script, attempt + 1, Seen(a.answer, status));
    }
  }

  /** A loop that is neither cancelled nor loses a save writes exactly one closing record, as its last,
      after at most the attempts it has left. */
  lemma {:induction false} ClosesOnce(t: Terms, script: seq<Attempt>, attempt: nat, status: string)
    requires Scripted(t, script) && attempt < t.maxAttempts && ExternalNames(t, script) && !t.terminal(status)
    ensures var r := Attempts(t, script, attempt, status);
            && 1 <= r.calls <= t.maxAttempts - attempt
            && ClosingComesLast(t, r)
    decreases t.maxAttempts - attempt
  {
    var a := script[attempt];
    if AttemptOnce(t, a, attempt, status).GoOn? {
      ClosesOnce(t, script, attempt + 1, Seen(a.answer, status));
    }
  }

  // ----- how one reconciliation ends -----

  /** The current status after `n` attempts from one on. */
  function StatusAfter(script: seq<Attempt>, from: nat, n: nat, status: string): string
    requires from + n <= |script|
    decreases n
  {
    if n == 0 then status else StatusAfter(script, from + 1, n - 1, Seen(script[from].answer, status))
  }

  /** The attempt's save of a changed status fails. */
  predicate LosesChange(a: Attempt, status: string) {
    a.answer.Open? && a.answer.status != status && !a.saves
  }

  /** An answer after which the loop asks again: 425 Too Early, 429 Too Many Requests or a server error. */
  predicate AskedAgain(answer: Answer) {
    answer.HttpError? && (answer.code in {425, 429} || 500 <= answer.code < 600)
  }

  /** The attempt has a closing word of the loop's own to write. */
  predicate ClosingDue(t: Terms, a: Attempt, last: bool) {
    if a.answer.Open? then last && !t.terminal(a.answer.status) else last || !AskedAgain(a.answer)
  }

  /** The attempt leaves the order open, with attempts left: the loop waits. */
  predicate WaitDue(t: Terms, a: Attempt, status: string, last: bool) {
    !last && !LosesChange(a, status) && if a.answer.Open? then !t.terminal(a.answer.status) else AskedAgain(a.answer)
  }

  predicate LosesSave(t: Terms, a: Attempt, status: string, last: bool) {
    LosesChange(a, status) || (ClosingDue(t, a, last) && !a.closes)
  }

  predicate CancelledIn(t: Terms, a: Attempt, status: string, last: bool) {
    WaitDue(t, a, status, last) && !a.waits
  }

  /** Attempt number `k` of a call that starts at `attempt` has its wait run out and is followed by another. */
  predicate GoesOnAt(t: Terms, script: seq<Attempt>, attempt: nat, k: nat, status: string)
    requires attempt + k < |script|
  {
    var a := script[attempt + k];
    WaitDue(t, a, StatusAfter(script, attempt, k, status), attempt + k == t.maxAttempts - 1) && a.waits
  }

  /** The outcome as the last consulted attempt determines it. */
  ghost predicate EndsWith(t: Terms, a: Attempt, status: string, last: bool, outcome: Outcome) {
    && (outcome == Cancelled <==> CancelledIn(t, a, status, last))
    && (outcome == SaveFailed <==> LosesSave(t, a, status, last))
    && (outcome == Closed <==> !CancelledIn(t, a, status, last) && !LosesSave(t, a, status, last))
  }

  /** Which attempts a call consults, how it ends, and how often it waits: once between two attempts, and a
      last time when that wait is cancelled. */
  ghost predicate EndsAsDetermined(t: Terms, script: seq<Attempt>, attempt: nat, status: string, r: Reconciliation)
    requires attempt + r.calls <= |script|
  {
    && 1 <= r.calls <= t.maxAttempts - attempt
    && (forall k: nat :: k < r.calls - 1 ==> GoesOnAt(t, script, attempt, k, status))
    && !GoesOnAt(t, script, attempt, r.calls - 1, status)
    && EndsWith(t, script[attempt + r.calls - 1], StatusAfter(script, attempt, r.calls - 1, status),
                attempt + r.calls == t.maxAttempts, r.outcome)
    && |r.waits| == r.calls - (if r.outcome == Cancelled then 0 else 1)
  }

  lemma StopEnds(t: Terms, a: Attempt, attempt: nat, status: string)
    requires attempt < t.maxAttempts && AttemptOnce(t, a, attempt, status).Stop?
    ensures var r := AttemptOnce(t, a, attempt, status).result;
            && r.calls == 1 && |r.waits| == (if r.outcome == Cancelled then 1 else 0)
            && EndsWith(t, a, status, attempt + 1 == t.maxAttempts, r.outcome)
            && !(WaitDue(t, a, status, attempt + 1 == t.maxAttempts) && a.waits)
  {
  }

  lemma GoOnWaits(t: Terms, a: Attempt, attempt: nat, status: string)
    requires attempt < t.maxAttempts && AttemptOnce(t, a, attempt, status).GoOn?
    ensures attempt + 1 < t.maxAttempts && WaitDue(t, a, status, false) && a.waits
  {
  }

  lemma GoesOnLater(t: Terms, script: seq<Attempt>, attempt: nat, k: nat, status: string)
    requires attempt + 1 + k < |script|
    ensures GoesOnAt(t, script, attempt, k + 1, status) ==
            GoesOnAt(t, script, attempt + 1, k, Seen(script[attempt].answer, status))
  {
  }

  lemma EndsLater(t: Terms, script: seq<Attempt>, attempt: nat, status: string, delay: int, rest: Reconciliation)
    requires attempt + 1 + rest.calls <= |script| && attempt + 1 < t.maxAttempts
    requires GoesOnAt(t, script, attempt, 0, status)
    requires EndsAsDetermined(t, script, attempt + 1, Seen(script[attempt].answer, status), rest)
    ensures var change := Change(status, Seen(script[attempt].answer, status));
            EndsAsDetermined(t, script, attempt, status, Then(change, delay, rest))
  {
    forall k: nat | k < rest.calls
      ensures GoesOnAt(t, script, attempt, k, status)
    {
      if k > 0 {
        GoesOnLater(t, script, attempt, k - 1, status);
      }
    }
    GoesOnLater(t, script, attempt, rest.calls - 1, status);
  }

  /** The course of a call is determined by the answers, the saves and the waits alone. */
  lemma {:induction false} OutcomeIsDetermined(t: Terms, script: seq<Attempt>, attempt: nat, status: string)
    requires Scripted(t, script) && attempt < t.maxAttempts
    ensures var r := Attempts(t, script, attempt, status);
            attempt + r.calls <= |script| && EndsAsDetermined(t, script, attempt, status, r)
    decreases t.maxAttempts - attempt
  {
    var a := script[attempt];
    if AttemptOnce(t, a, attempt, status).GoOn? {
      var seen := Seen(a.answer, status);
      GoOnWaits(t, a, attempt, status);
      OutcomeIsDetermined(t, script, attempt + 1, seen);
      EndsLater(t, script, attempt, status, t.delay(attempt), Attempts(t, script, attempt + 1, seen));
    } else {
      StopEnds(t, a, attempt, status);
    }
  }

  /** No save is lost and no wait is cancelled. */
  ghost predicate Undisturbed(t: Terms, script: seq<Attempt>)
    requires t.maxAttempts <= |script|
  {
    forall k :: 0 <= k < t.maxAttempts ==> script[k].saves && script[k].closes && script[k].waits
  }

  lemma UndisturbedCloses(t: Terms, script: seq<Attempt>, status: string, r: Reconciliation)
    requires Scripted(t, script) && Undisturbed(t, script) && r.calls <= |script|
    requires EndsAsDetermined(t, script, 0, status, r)
    ensures r.outcome == Closed && |r.waits| == r.calls - 1
  {
    assert script[r.calls - 1].saves;
  }

  // ----- what is written, in full -----

  /** The calls whose observations are all written: all of them, or all but one that lost its own. */
  function ObservedCalls(script: seq<Attempt>, attempt: nat, status: string, calls: nat): nat
    requires 0 < calls && attempt + calls <= |script|
  {
    if LosesChange(script[attempt + calls - 1], StatusAfter(script, attempt, calls - 1, status)) then calls - 1
    else calls
  }

  /** What is written are the observed statuses without consecutive repeats, but for one whose save fails,
      and the addendum. */
  ghost predicate WritesAsObserved(t: Terms, script: seq<Attempt>, attempt: nat, status: string, r: Reconciliation)
    requires 0 < r.calls && attempt + r.calls <= |script|
  {
    WritesFirst(t, script, attempt, ObservedCalls(script, attempt, status, r.calls), status, r)
  }

  ghost predicate WritesFirst(t: Terms, script: seq<Attempt>, attempt: nat, n: nat, status: string, r: Reconciliation)
    requires attempt + n <= |script|
  {
    r.written == WithoutRepeats(status, Observations(script, attempt, n)) + Addendum(t, r)
  }

  lemma {:induction false} WritesObservations(t: Terms, script: seq<Attempt>, attempt: nat, status: string)
    requires Scripted(t, script) && attempt < t.maxAttempts && ExternalNames(t, script)
    requires !t.terminal(status) && CoinsOwnWords(t)
    ensures var r := Attempts(t, script, attempt, status);
            0 < r.calls && attempt + r.calls <= t.maxAttempts && WritesAsObserved(t, script, attempt, status, r)
    decreases t.maxAttempts - attempt
  {
    var seen := Seen(script[attempt].answer, status);
    if AttemptOnce(t, script[attempt], attempt, status).GoOn? {
      ClosesOnce(t, script, attempt + 1, seen);
      WritesObservations(t, script, attempt + 1, seen);
      GoOnWrites(t, script, attempt, status, Attempts(t, script, attempt + 1, seen));
    } else {
      StopWrites(t, script[attempt], attempt, status);
      StoppedWrites(t, script, attempt, status, AttemptOnce(t, script[attempt], attempt, status).result);
    }
  }

  lemma StoppedWrites(t: Terms, script: seq<Attempt>, attempt: nat, status: string, r: Reconciliation)
    requires attempt < |script| && r.calls == 1
    requires var a := script[attempt];
             r.written ==
             (if LosesChange(a, status) then [] else Change(status, Seen(a.answer, status))) + Addendum(t, r)
    ensures WritesAsObserved(t, script, attempt, status, r)
  {
    if !LosesChange(script[attempt], status) {
      ObservationsStep(script, attempt, 1, status);
    }
  }

  lemma GoOnWrites(t: Terms, script: seq<Attempt>, attempt: nat, status: string, rest: Reconciliation)
    requires 0 < rest.calls && attempt + 1 + rest.calls <= |script|
    requires WritesAsObserved(t, script, attempt + 1, Seen(script[attempt].answer, status), rest)
    requires rest.outcome == Closed ==> rest.written != []
    ensures var seen := Seen(script[attempt].answer, status);
            WritesAsObserved(t, script, attempt, status, Then(Change(status, seen), t.delay(attempt), rest))
  {
    var seen := Seen(script[attempt].answer, status);
    ObservedStep(script, attempt, status, rest.calls);
    WritesOneMore(t, script, attempt, ObservedCalls(script, attempt + 1, seen, rest.calls), status, seen, rest);
  }

  lemma WritesOneMore(t: Terms, script: seq<Attempt>, attempt: nat, n: nat, status: string, seen: string,
                      rest: Reconciliation)
    requires attempt + 1 + n <= |script| && seen == Seen(script[attempt].answer, status)
    requires WritesFirst(t, script, attempt + 1, n, seen, rest)
    requires rest.outcome == Closed ==> rest.written != []
    ensures WritesFirst(t, script, attempt, n + 1, status, Then(Change(status, seen), t.delay(attempt), rest))
  {
    ObservationsStep(script, attempt, n + 1, status);
    WrittenBefore(t, Change(status, seen), t.delay(attempt), rest,
                  WithoutRepeats(seen, Observations(script, attempt + 1, n)));
  }

  lemma WrittenBefore(t: Terms, change: seq<string>, delay: int, rest: Reconciliation, observed: seq<string>)
    requires rest.written == observed + Addendum(t, rest)
    requires rest.outcome == Closed ==> rest.written != []
    ensures var r := Then(change, delay, rest); r.written == (change + observed) + Addendum(t, r)
  {
    AddendumOfRest(t, change, delay, rest);
    Associate(change, observed, Addendum(t, rest));
  }

  lemma ObservedStep(script: seq<Attempt>, attempt: nat, status: string, calls: nat)
    requires 0 < calls && attempt + 1 + calls <= |script|
    ensures ObservedCalls(script, attempt, status, calls + 1) ==
            ObservedCalls(script, attempt + 1, Seen(script[attempt].answer, status), calls) + 1
  {
  }

  lemma StopWrites(t: Terms, a: Attempt, attempt: nat, status: string)
    requires AttemptOnce(t, a, attempt, status).Stop? && !t.terminal(status) && CoinsOwnWords(t)
    ensures var r := AttemptOnce(t, a, attempt, status).result;
            && r.calls == 1
            && r.written ==
               (if LosesChange(a, status) then [] else Change(status, Seen(a.answer, status))) + Addendum(t, r)
  {
  }

  lemma AddendumOfRest(t: Terms, written: seq<string>, delay: int, rest: Reconciliation)
    requires rest.outcome == Closed ==> rest.written != []
    ensures Addendum(t, Then(written, delay, rest)) == Addendum(t, rest)
  {
  }

  lemma ObservationsStep(script: seq<Attempt>, from: nat, n: nat, previous: string)
    requires 0 < n && from + n <= |script|
    ensures var seen := Seen(script[from].answer, previous);
            WithoutRepeats(previous, Observations(script, from, n)) ==
            Change(previous, seen) + WithoutRepeats(seen, Observations(script, from + 1, n - 1))
  {
    var a, rest := script[from].answer, Observations(script, from + 1, n - 1);
    if a.Open? {
      assert ([a.status] + rest)[1..] == rest;
    } else {
      assert [] + rest == rest;
    }
  }

  ghost predicate DelaysFrom(t: Terms, attempt: nat, waits: seq<int>) {
    forall k :: 0 <= k < |waits| ==> waits[k] == t.delay(attempt + k)
  }

  /** The waits are the successive delays. */
  lemma {:induction false} WaitsAreDelays(t: Terms, script: seq<Attempt>, attempt: nat, status: string)
    requires Scripted(t, script) && attempt < t.maxAttempts
    ensures DelaysFrom(t, attempt, Attempts(t, script, attempt, status).waits)
    decreases t.maxAttempts - attempt
  {
    if AttemptOnce(t, script[attempt], attempt, status).GoOn? {
      var seen := Seen(script[attempt].answer, status);
      WaitsAreDelays(t, script, attempt + 1, seen);
      DelayStep(t, attempt, Attempts(t, script, attempt + 1, seen).waits);
    }
  }

  lemma DelayStep(t: Terms, attempt: nat, rest: seq<int>)
    requires DelaysFrom(t, attempt + 1, rest)
    ensures DelaysFrom(t, attempt, [t.delay(attempt)] + rest)
  {
    var waits := [t.delay(attempt)] + rest;
    forall k | 0 < k < |waits|
      ensures waits[k] == t.delay(attempt + k)
    {
      assert rest[k - 1] == t.delay(attempt + 1 + (k - 1));
    }
  }

  /** The closing record, where there is one, is the last record and the only one of its kind. */
  ghost predicate ClosingComesLast(t: Terms, r: Reconciliation) {
    && (r.outcome == Closed ==> r.written != [] && IsClosing(t, r.written[|r.written| - 1]))
    && (forall k :: 0 <= k < |r.written| - (if r.outcome == Closed then 1 else 0) ==> !IsClosing(t, r.written[k]))
  }

  /** The word a finished loop ends on, by its last answer. */
  ghost predicate EndsOnWord(t: Terms, answer: Answer, r: Reconciliation) {
    r.outcome == Closed ==>
      r.written != []
      && r.written[|r.written| - 1] ==
         if !answer.Open? then t.error else if t.terminal(answer.status) then answer.status else t.pending
  }

  lemma {:induction false} EndsOnItsWord(t: Terms, script: seq<Attempt>, attempt: nat, status: string)
    requires Scripted(t, script) && attempt < t.maxAttempts && !t.terminal(status)
    ensures var r := Attempts(t, script, attempt, status);
            0 < r.calls && attempt + r.calls <= |script| && EndsOnWord(t, script[attempt + r.calls - 1].answer, r)
    decreases t.maxAttempts - attempt
  {
    var a := script[attempt];
    if AttemptOnce(t, a, attempt, status).GoOn? {
      EndsOnItsWord(t, script, attempt + 1, Seen(a.answer, status));
    }
  }

  /** What one call of the loop does: the attempts it consults, how it ends, what it writes, when it waits. */
  ghost predicate LoopDone(t: Terms, script: seq<Attempt>, status: string, r: Reconciliation)
    requires Scripted(t, script)
  {
    && 1 <= r.calls <= t.maxAttempts
    && EndsAsDetermined(t, script, 0, status, r)
    && (Undisturbed(t, script) ==> r.outcome == Closed && |r.waits| == r.calls - 1)
    && WritesAsObserved(t, script, 0, status, r)
    && ClosingComesLast(t, r)
    && EndsOnWord(t, script[r.calls - 1].answer, r)
    && DelaysFrom(t, 0, r.waits)
  }

  /** One call of the loop, in full. */
  lemma LoopContract(t: Terms, script: seq<Attempt>, status: string)
    requires Scripted(t, script) && ExternalNames(t, script) && !t.terminal(status) && CoinsOwnWords(t)
    ensures LoopDone(t, script, status, Attempts(t, script, 0, status))
  {
    ClosesOnce(t, script, 0, status);
    OutcomeIsDetermined(t, script, 0, status);
    WritesObservations(t, script, 0, status);
    EndsOnItsWord(t, script, 0, status);
    WaitsAreDelays(t, script, 0, status);
    if Undisturbed(t, script) {
      UndisturbedCloses(t, script, status, Attempts(t, script, 0, status));
    }
  }

  // ----- the whole call -----

  predicate PlainChar(c: char) {
    'a' <= c <= 'z' || c == '_'
  }

  predicate Plain(word: string) {
    |word| > 0 && forall i :: 0 <= i < |word| ==> PlainChar(word[i])
  }

  lemma PlainCharStays(c: char)
    requires PlainChar(c)
    ensures !Text.IsSpace(c) && Text.LowerChar(c) == c
  {
  }

  lemma PlainIsLower(word: string)
    requires Plain(word)
    ensures Text.ToLower(word) == word
  {
    forall i | 0 <= i < |word|
      ensures Text.LowerChar(word[i]) == word[i]
    {
      PlainCharStays(word[i]);
    }
  }

  lemma PlainIsNormal(word: string)
    requires Plain(word)
    ensures NormalForm(word)
  {
    PlainCharStays(word[0]);
    PlainCharStays(word[|word| - 1]);
    Text.TrimSpaceOfTrimmed(word);
    PlainIsLower(word);
  }

  lemma TerminalHead(word: string)
    requires word in TERMINAL
    ensures |word| > 0 && word[0] != 'r' && word[0] != 'u'
  {
  }

  lemma PlainIsOpen(word: string)
    requires Plain(word) && (word[0] == 'r' || word[0] == 'u')
    ensures NormalForm(word) && !IsTerminal(word)
  {
    PlainIsNormal(word);
    if word in TERMINAL {
      TerminalHead(word);
      assert false;
    }
  }

  lemma OwnWordsArePlain(word: string)
    requires word == "reconcile_pending" || word == "reconcile_error" || word == "unknown"
    ensures Plain(word) && (word[0] == 'r' || word[0] == 'u')
  {
  }

  lemma NotTerminal(word: string)
    requires word == "reconcile_pending" || word == "reconcile_error" || word == "unknown"
    ensures NormalForm(word) && !IsTerminal(word)
  {
    OwnWordsArePlain(word);
    PlainIsOpen(word);
  }

  lemma OwnWords(cfg: ReconcileConfig)
    ensures CoinsOwnWords(TermsOf(cfg))
  {
    NotTerminal("reconcile_pending");
    NotTerminal("reconcile_error");
  }

  lemma ObservedIsNormal(raw: string)
    ensures NormalForm(Observed(raw))
  {
    NormalizeNormalizes(raw);
    NotTerminal("unknown");
  }

  lemma StaysOpen(cfg: ReconcileConfig, status: string)
    requires !IsTerminal(status)
    ensures !TermsOf(cfg).terminal(Normalize(status))
  {
    NormalizeNormalizes(status);
  }

  /** The loop reads a status text in normal form, a blank one as "unknown", and an error as it is. */
  ghost predicate ReadAs(raw: Attempt, read: Attempt) {
    if raw.answer.Open? then
      var word := Normalize(raw.answer.status);
      read == raw.(answer := Open(if word == "" then "unknown" else word))
    else read == raw
  }

  ghost predicate AllReadAs(raw: seq<Attempt>, read: seq<Attempt>) {
    |raw| == |read| && forall k :: 0 <= k < |raw| ==> ReadAs(raw[k], read[k])
  }

  lemma ScriptIsRead(script: seq<Attempt>)
    ensures AllReadAs(script, ObservedScript(script))
  {
    forall k | 0 <= k < |script|
      ensures ReadAs(script[k], Normalized()(script[k]))
    {
    }
  }

  lemma ReadOneWay(script: seq<Attempt>, read: seq<Attempt>)
    requires AllReadAs(script, read)
    ensures read == ObservedScript(script)
  {
    ScriptIsRead(script);
  }

  /** The words and the schedule of a call. */
  ghost predicate TermsFor(cfg: ReconcileConfig, t: Terms) {
    && t.maxAttempts == cfg.maxAttempts
    && (forall status :: t.terminal(status) <==> IsTerminal(status))
    && t.pending == "reconcile_pending" && t.error == "reconcile_error"
    && t.delay(0) == cfg.baseDelay
    && forall k: nat :: t.delay(k + 1) == NextReconcileDelay(t.delay(k), cfg.maxDelay)
  }

  lemma TermsAreFor(cfg: ReconcileConfig)
    ensures TermsFor(cfg, TermsOf(cfg))
  {
  }

  /** One reconcileOrder call on an open order, in full, over what the exchange answers. It makes at most
      maxAttempts GetOrder calls and writes the observed statuses, as read, without consecutive repeats. It is
      cancelled exactly when a wait that is due is cancelled, fails exactly when a save that is due fails, and
      otherwise ends in its one closing record. It waits between two calls, for the scheduled delays. */
  lemma ReconcileContract(cfg: ReconcileConfig, script: seq<Attempt>, read: seq<Attempt>, orderID: string,
                          currentStatus: string)
    requires 0 < cfg.maxAttempts <= |script|
    requires Text.TrimSpace(orderID) != "" && !IsTerminal(currentStatus)
    requires AllReadAs(script, read) && ExternalNames(TermsOf(cfg), read)
    ensures TermsFor(cfg, TermsOf(cfg))
    ensures LoopDone(TermsOf(cfg), read, Normalize(currentStatus), Reconcile(cfg, script, orderID, currentStatus))
  {
    TermsAreFor(cfg);
    ReadOneWay(script, read);
    StaysOpen(cfg, currentStatus);
    OwnWords(cfg);
    LoopContract(TermsOf(cfg), read, Normalize(currentStatus));
  }

  /** The answer is a blank status and the word "unknown", or a status with this normal form. */
  ghost predicate StemsFrom(word: string, answer: Answer) {
    answer.Open? && if Text.AllSpaces(answer.status) then word == "unknown" else word == Normalize(answer.status)
  }

  lemma ReadWordStems(raw: Attempt, word: string)
    requires Normalized()(raw).answer == Open(word)
    ensures StemsFrom(word, raw.answer)
  {
    BlankNormalizes(raw.answer.status);
  }

  /** What a call writes stems from the answers it got: each word is one of the loop's own two, or "unknown" for a
      blank status, or the normal form of a status that is not blank. */
  lemma WrittenStemFromAnswers(cfg: ReconcileConfig, script: seq<Attempt>, orderID: string, currentStatus: string,
                               word: string)
    requires 0 < cfg.maxAttempts <= |script| && word in Reconcile(cfg, script, orderID, currentStatus).written
    ensures || word == "reconcile_pending" || word == "reconcile_error"
            || exists k :: 0 <= k < |script| && StemsFrom(word, script[k].answer)
  {
    var seen := ObservedScript(script);
    WrittenWords(TermsOf(cfg), seen, 0, Normalize(currentStatus));
    if k :| 0 <= k < |seen| && seen[k].answer == Open(word) {
      ReadWordStems(script[k], word);
    }
  }

  /** Exactly the blank texts have an empty normal form. */
  lemma BlankNormalizes(status: string)
    ensures Normalize(status) == "" <==> Text.AllSpaces(status)
  {
    var lead, core, tail := NormalizedIsLowerCore(status);
    if core == "" {
      Text.JoinedSpaces(lead, tail);
      assert status == lead + tail;
    } else {
      assert status[|lead|] == core[0];
    }
  }

  /** An open order whose first answer is terminal is recorded with that status, and the call is over. */
  lemma TerminalAnswerCloses(cfg: ReconcileConfig, script: seq<Attempt>, orderID: string, currentStatus: string)
    requires 0 < cfg.maxAttempts <= |script|
    requires Text.TrimSpace(orderID) != "" && !IsTerminal(currentStatus)
    requires script[0].answer.Open? && IsTerminal(script[0].answer.status) && script[0].saves
    ensures Reconcile(cfg, script, orderID, currentStatus) ==
            Reconciliation([Normalize(script[0].answer.status)], 1, [], Closed)
  {
    var raw := script[0].answer.status;
    NormalizeNormalizes(raw);
    StaysOpen(cfg, currentStatus);
    assert Normalize(raw) != "";
    assert TermsOf(cfg).terminal(Normalize(raw));
    ScriptIsRead(script);
  }

  /** Every status the loop writes is in normal form, so the pending query judges it as the loop does. */
  lemma WritesNormalForms(cfg: ReconcileConfig, script: seq<Attempt>, orderID: string, currentStatus: string,
                          word: string)
    requires 0 < cfg.maxAttempts <= |script| && word in Reconcile(cfg, script, orderID, currentStatus).written
    ensures NormalForm(word) && (SqlPending(word) <==> !IsTerminal(word))
  {
    WrittenWords(TermsOf(cfg), ObservedScript(script), 0, Normalize(currentStatus));
    WordIsNormal(cfg, script, word);
    FiltersComplement(word);
  }

  lemma WordIsNormal(cfg: ReconcileConfig, script: seq<Attempt>, word: string)
    requires var t, seen := TermsOf(cfg), ObservedScript(script);
             word == t.pending || word == t.error || exists k :: 0 <= k < |seen| && seen[k].answer == Open(word)
    ensures NormalForm(word)
  {
    var t, seen := TermsOf(cfg), ObservedScript(script);
    if word == t.pending || word == t.error {
      NotTerminal(word);
    } else {
      var k :| 0 <= k < |seen| && seen[k].answer == Open(word);
      ScriptWordIsNormal(script, k, word);
    }
  }

  lemma ScriptWordIsNormal(script: seq<Attempt>, k: nat, word: string)
    requires k < |script| && Normalized()(script[k]).answer == Open(word)
    ensures NormalForm(word)
  {
    ObservedIsNormal(script[k].answer.status);
  }

  /** A blank order id or a terminal status ends a call before it asks anything, and a terminal status is the last
      thing a call writes. */
  lemma TerminalEndsReconciliation(cfg: ReconcileConfig, script: seq<Attempt>, orderID: string, currentStatus: string)
    requires 0 < cfg.maxAttempts <= |script|
    ensures var r := Reconcile(cfg, script, orderID, currentStatus);
            && (Text.TrimSpace(orderID) == "" || IsTerminal(currentStatus) ==> r == Reconciliation([], 0, [], Skipped))
            && (forall k :: 0 <= k < |r.written| - 1 ==> !IsTerminal(r.written[k]))
  {
    TerminalComesLast(TermsOf(cfg), ObservedScript(script), 0, Normalize(currentStatus));
    TermsAreFor(cfg);
  }
}
