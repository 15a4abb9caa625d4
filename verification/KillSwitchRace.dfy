/** A run of the interleaved router in which an order is accepted after the kill switch has fired
    (internal/execution/live_router.go, internal/execution/kill_switch.go). */
module KillSwitchRace {
  import opened LiveRouting
  import opened RouterConcurrency

  const RACE_CONFIG := LiveConfig({"m"}, map[], map[], 0.0, 0, 50.0, {})
  const RACE_ORDER := Submission(LiveOrder("k", "m", "US", 10.0), 0, true)

  const RACE_EVENTS: seq<Event> := [AddPnL(1, -60.0), AddPnL(2, 30.0), Begin(RACE_ORDER), FireTrigger(1), Finish]

  function RaceState(n: nat): System
    requires n <= 5
  {
    var ledger := EMPTY_LEDGER.(dayPnL := if n == 0 then 0.0 else if n == 1 then -60.0 else -30.0);
    var kill := Kill(n >= 4, if n >= 4 then "daily_loss_cap" else "");
    var inFlight := if 3 <= n <= 4 then Busy(RACE_ORDER, Kill(false, "")) else Idle;
    if n < 5 then System(ledger, [], kill, inFlight, if 1 <= n <= 3 then {1} else {})
    else System(Book(RACE_CONFIG, ledger, RACE_ORDER.order), [RACE_ORDER.order], kill, Idle, {})
  }

  lemma RaceOrderPasses()
    ensures Decide(RACE_CONFIG, EMPTY_LEDGER.(dayPnL := -30.0), Kill(false, ""), RACE_ORDER) == Accepted
  {
  }

  lemma RaceStep(n: nat)
    requires n < 5
    ensures Enabled(RaceState(n), RACE_EVENTS[n]) && RaceState(n + 1) == Next(RACE_CONFIG, RaceState(n), RACE_EVENTS[n])
  {
    RaceOrderPasses();
  }

  lemma RaceIsRun(states: seq<System>)
    requires |states| == 6 && forall n :: 0 <= n < 6 ==> states[n] == RaceState(n)
    ensures IsRun(RACE_CONFIG, states, RACE_EVENTS)
  {
    forall n | 0 <= n < 5
      ensures Enabled(states[n], RACE_EVENTS[n]) && states[n + 1] == Next(RACE_CONFIG, states[n], RACE_EVENTS[n])
    {
      RaceStep(n);
    }
  }

  lemma RaceBreach()
    ensures PnL(RACE_EVENTS[..1]) == -60.0
  {
    assert RACE_EVENTS[..1][..0] == [];
    assert RACE_EVENTS[..1][0] == AddPnL(1, -60.0);
  }

  ghost predicate LateAcceptance(cfg: LiveConfig, states: seq<System>, events: seq<Event>) {
    && IsRun(cfg, states, events) && |events| == 5
    && events[0].AddPnL? && LossAbove(cfg.dailyLossCap, PnL(events[..1]))
    && events[3] == FireTrigger(events[0].thread)
    && (forall k :: 0 <= k < 5 ==> !events[k].Reset?)
    && Accepts(cfg, states[4], events[4])
  }

  /** The race is real: thread 1's RecordPnL breaches the cap, thread 2's lifts the PnL again, a Submit
      reads the switch, thread 1's call fires it and returns, and the order is then accepted. */
  lemma AcceptedAfterBreachReturned()
    ensures exists states: seq<System>, events: seq<Event> :: LateAcceptance(RACE_CONFIG, states, events)
  {
    var states := seq(6, n requires 0 <= n < 6 => RaceState(n));
    RaceIsRun(states);
    RaceBreach();
    RaceOrderPasses();
    assert LateAcceptance(RACE_CONFIG, states, RACE_EVENTS);
  }
}
