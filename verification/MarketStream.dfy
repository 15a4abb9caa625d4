/** The reconnect loop of the market stream (Stream in internal/connectors/polymarket/ws_market_client.go). */
module MarketStream {
  import opened Backoff

  /** How one round of the loop ends: no connection, no subscription, or a session that was read until it
      ended. */
  datatype Round = DialFailed | SubscribeFailed | Session

  /** Where the current streak starts: at the last session, or at the beginning. */
  function StreakStart(rounds: seq<Round>): (s: nat)
    ensures s <= |rounds| && (|rounds| > 0 ==> s < |rounds|)
  {
    if |rounds| == 0 then 0
    else if rounds[|rounds| - 1] == Session then |rounds| - 1
    else StreakStart(rounds[..|rounds| - 1])
  }

  /** Rounds since the last session, which counts as one itself. */
  function Streak(rounds: seq<Round>): (n: nat)
    ensures |rounds| > 0 ==> n > 0
  {
    |rounds| - StreakStart(rounds)
  }

  /** The start of a streak is a session followed by failures only, or there was no session. */
  lemma {:induction false} StreakStartsAtSession(rounds: seq<Round>)
    ensures var s := StreakStart(rounds);
            && (s > 0 ==> rounds[s] == Session)
            && (forall i :: s < i < |rounds| ==> rounds[i] != Session)
            && (|rounds| > 0 && rounds[s] != Session ==> s == 0)
  {
    if |rounds| > 0 && rounds[|rounds| - 1] != Session {
      StreakStartsAtSession(rounds[..|rounds| - 1]);
    }
  }

  predicate EndsLoop(rounds: seq<Round>, i: nat, maxAttempts: int) {
    i < |rounds| && rounds[i] == DialFailed && 0 < maxAttempts <= Streak(rounds[..i + 1])
  }

  ghost predicate NoneEnds(rounds: seq<Round>, n: nat, maxAttempts: int) {
    forall i: nat :: i < n ==> !EndsLoop(rounds, i, maxAttempts)
  }

  function Waiting(policy: ReconnectPolicy): int -> int { attempt => NextBackoff(attempt, policy) }

  /** Each round is followed by the wait of its place in the streak. */
  ghost predicate WaitsFollow(rounds: seq<Round>, wait: int -> int, waits: seq<int>) {
    && |waits| <= |rounds|
    && (forall i :: 0 <= i < |waits| ==> waits[i] == wait(Streak(rounds[..i + 1]) - 1))
  }

  /** What one run of the loop over the given rounds comes to: it stops at the first dial failure with
      maxAttempts rounds since the last session, and every round is followed by the wait of its place. */
  ghost predicate IsRun(rounds: seq<Round>, policy: ReconnectPolicy, waits: seq<int>, gaveUp: bool) {
    && WaitsFollow(rounds, Waiting(policy), waits)
    && (if gaveUp then
          |waits| > 0 && NoneEnds(rounds, |waits| - 1, policy.maxAttempts)
          && EndsLoop(rounds, |waits| - 1, policy.maxAttempts)
        else |waits| == |rounds| && NoneEnds(rounds, |rounds|, policy.maxAttempts))
  }

  lemma StreakStep(rounds: seq<Round>, i: nat)
    requires i < |rounds|
    ensures Streak(rounds[..i + 1]) == if rounds[i] == Session then 1 else Streak(rounds[..i]) + 1
  {
    assert rounds[..i + 1][..i] == rounds[..i];
  }

  lemma WaitsExtend(rounds: seq<Round>, wait: int -> int, waits: seq<int>, attempt: int)
    requires WaitsFollow(rounds, wait, waits) && |waits| < |rounds|
    requires attempt == Streak(rounds[..|waits| + 1]) - 1
    ensures WaitsFollow(rounds, wait, waits + [wait(attempt)])
  {
  }

  ghost predicate SomeRoundEnds(rounds: seq<Round>, maxAttempts: int) {
    exists i: nat :: EndsLoop(rounds, i, maxAttempts)
  }

  ghost predicate NoDialFails(rounds: seq<Round>) {
    forall i :: 0 <= i < |rounds| ==> rounds[i] != DialFailed
  }

  /** The stream gives up exactly when some dial failure comes with maxAttempts rounds since the last
      session: failures to subscribe count towards the limit but never reach it by themselves.
      Cancellation cuts the list of rounds short. */
  method Stream(rounds: seq<Round>, policy: ReconnectPolicy) returns (waits: seq<int>, gaveUp: bool)
    ensures IsRun(rounds, policy, waits, gaveUp)
    ensures gaveUp <==> SomeRoundEnds(rounds, policy.maxAttempts)
    ensures NoDialFails(rounds) ==> !gaveUp && |waits| == |rounds|
  {
    var attempt, wait := 0, Waiting(policy);
    waits, gaveUp := [], false;
    for i := 0 to |rounds|
      invariant attempt == Streak(rounds[..i])
      invariant |waits| == i
      invariant WaitsFollow(rounds, wait, waits)
      invariant NoneEnds(rounds, i, policy.maxAttempts)
    {
      StreakStep(rounds, i);
      if rounds[i] == Session {
        attempt := 0;
      }
      WaitsExtend(rounds, wait, waits, attempt);
      waits := waits + [wait(attempt)];
      attempt := attempt + 1;
      if rounds[i] == DialFailed && policy.maxAttempts > 0 && attempt >= policy.maxAttempts {
        gaveUp := true;
        RunGivesUp(rounds, policy, waits, gaveUp);
        return;
      }
    }
    RunGivesUp(rounds, policy, waits, gaveUp);
  }

  lemma RunGivesUp(rounds: seq<Round>, policy: ReconnectPolicy, waits: seq<int>, gaveUp: bool)
    requires IsRun(rounds, policy, waits, gaveUp)
    ensures gaveUp <==> SomeRoundEnds(rounds, policy.maxAttempts)
    ensures NoDialFails(rounds) ==> !gaveUp && |waits| == |rounds|
  {
    if SomeRoundEnds(rounds, policy.maxAttempts) {
      var i: nat :| EndsLoop(rounds, i, policy.maxAttempts);
      assert i < |rounds|;
    }
  }

  lemma {:induction false} StreakOfFailures(rounds: seq<Round>)
    requires forall i :: 0 <= i < |rounds| ==> rounds[i] != Session
    ensures Streak(rounds) == |rounds|
  {
    if |rounds| > 0 {
      StreakOfFailures(rounds[..|rounds| - 1]);
    }
  }

  /** A server that is never reached is tried exactly maxAttempts times. */
  lemma UnreachableGivesUp(rounds: seq<Round>, policy: ReconnectPolicy, waits: seq<int>, gaveUp: bool)
    requires policy.maxAttempts > 0 && IsRun(rounds, policy, waits, gaveUp)
    requires forall i :: 0 <= i < |rounds| ==> rounds[i] == DialFailed
    ensures if |rounds| < policy.maxAttempts then !gaveUp && |waits| == |rounds|
            else gaveUp && |waits| == policy.maxAttempts
  {
    forall i: nat | i < |rounds|
      ensures EndsLoop(rounds, i, policy.maxAttempts) <==> i + 1 >= policy.maxAttempts
    {
      StreakOfFailures(rounds[..i + 1]);
    }
    if |rounds| >= policy.maxAttempts {
      var last := policy.maxAttempts - 1;
      assert EndsLoop(rounds, last, policy.maxAttempts);
    }
  }
}
