/** The live router with its calls interleaved. Submit holds the router's lock from Begin to Finish
    but reads the kill switch, which has a lock of its own, only at Begin; RecordPnL gives up the
    router's lock before it fires the kill switch; Trigger and Reset take no router lock at all
    (internal/execution/live_router.go, internal/execution/kill_switch.go). */
module RouterConcurrency {
  import opened LiveRouting
  import Sequences

  datatype InFlight = Idle | Busy(s: Submission, seen: Kill)

  /** `owing` holds the threads between the two steps of a breaching RecordPnL. */
  datatype System = System(ledger: Ledger, accepted: seq<LiveOrder>, kill: Kill, inFlight: InFlight, owing: set<nat>)

  datatype Event =
    | Begin(s: Submission)
    | Finish
    | AddPnL(thread: nat, pnl: real)
    | FireTrigger(thread: nat)
    | Trigger(reason: string)
    | Reset

  const INITIAL := System(EMPTY_LEDGER, [], Kill(false, ""), Idle, {})

  predicate Enabled(sys: System, e: Event) {
    match e
    case Begin(_) => sys.inFlight.Idle?
    case Finish => sys.inFlight.Busy?
    case AddPnL(thread, _) => sys.inFlight.Idle? && thread !in sys.owing
    case FireTrigger(thread) => thread in sys.owing
    case Trigger(_) => true
    case Reset => true
  }

  predicate Accepts(cfg: LiveConfig, sys: System, e: Event) {
    e.Finish? && sys.inFlight.Busy? && Decide(cfg, sys.ledger, sys.inFlight.seen, sys.inFlight.s) == Accepted
  }

  function Next(cfg: LiveConfig, sys: System, e: Event): System
    requires Enabled(sys, e)
  {
    match e
    case Begin(s) => sys.(inFlight := Busy(s, sys.kill))
    case Finish =>
      if Accepts(cfg, sys, e) then
        var order := sys.inFlight.s.order;
        sys.(ledger := Book(cfg, sys.ledger, order), accepted := sys.accepted + [order], inFlight := Idle)
      else sys.(inFlight := Idle)
    case AddPnL(thread, pnl) =>
      var ledger := sys.ledger.(dayPnL := sys.ledger.dayPnL + pnl);
      sys.(ledger := ledger, owing := sys.owing + if Breached(cfg, ledger.dayPnL) then {thread} else {})
    case FireTrigger(thread) => sys.(kill := Kill(true, "daily_loss_cap"), owing := sys.owing - {thread})
    case Trigger(reason) => sys.(kill := Kill(true, reason))
    case Reset => sys.(kill := Kill(false, ""))
  }

  ghost predicate IsRun(cfg: LiveConfig, states: seq<System>, events: seq<Event>) {
    && |states| == |events| + 1
    && states[0] == INITIAL
    && forall i :: 0 <= i < |events| ==>
                     Enabled(states[i], events[i]) && states[i + 1] == Next(cfg, states[i], events[i])
  }

  /** Everything recorded by RecordPnL so far. */
  function PnL(events: seq<Event>): real {
    if events == [] then 0.0
    else
      var last := events[|events| - 1];
      PnL(events[..|events| - 1]) + if last.AddPnL? then last.pnl else 0.0
  }

  /** A loss above a cap that is set. */
  ghost predicate LossAbove(cap: real, pnl: real) {
    cap > 0.0 && pnl < -cap
  }

  /** In every reachable state the ledgers are balanced and the day's PnL is the sum of what was recorded. */
  lemma {:induction false} ReachableBooks(cfg: LiveConfig, states: seq<System>, events: seq<Event>, i: nat)
    requires IsRun(cfg, states, events) && i <= |events|
    ensures Balanced(cfg, states[i].ledger, states[i].accepted)
    ensures OrdersWithinCaps(cfg, states[i].accepted)
    ensures states[i].ledger.dayPnL == PnL(events[..i])
  {
    if i == 0 {
      EmptyIsBalanced(cfg);
    } else {
      ReachableBooks(cfg, states, events, i - 1);
      assert events[..i][..i - 1] == events[..i - 1];
      StepKeepsBalance(cfg, states[i - 1], events[i - 1]);
    }
    BooksAreOrders(cfg, states[i].ledger, states[i].accepted);
  }

  lemma StepKeepsBalance(cfg: LiveConfig, sys: System, e: Event)
    requires Balanced(cfg, sys.ledger, sys.accepted) && Enabled(sys, e)
    ensures Balanced(cfg, Next(cfg, sys, e).ledger, Next(cfg, sys, e).accepted)
  {
    if Accepts(cfg, sys, e) {
      BookingKeepsBalance(cfg, sys.ledger, sys.accepted, sys.inFlight.seen, sys.inFlight.s);
    }
  }

  /** No order is accepted while the recorded loss exceeds the daily cap: not before the kill switch
      fires, not after it is reset. */
  lemma NoAcceptanceInBreach(cfg: LiveConfig, states: seq<System>, events: seq<Event>, i: nat)
    requires IsRun(cfg, states, events) && i < |events|
    requires Accepts(cfg, states[i], events[i])
    ensures !LossAbove(cfg.dailyLossCap, PnL(events[..i]))
  {
    ReachableBooks(cfg, states, events, i);
  }

  /** Submission `b` is the one that is finished at `f`. */
  ghost predicate Finishes(events: seq<Event>, b: nat, f: nat) {
    && b < f < |events| && events[b].Begin? && events[f].Finish?
    && forall k :: b < k < f ==> !events[k].Begin? && !events[k].Finish?
  }

  lemma {:induction false} InFlightBegan(cfg: LiveConfig, states: seq<System>, events: seq<Event>, i: nat)
    returns (b: nat)
    requires IsRun(cfg, states, events) && i <= |events| && states[i].inFlight.Busy?
    ensures b < i && events[b].Begin? && states[i].inFlight == Busy(events[b].s, states[b].kill)
    ensures forall k :: b < k < i ==> !events[k].Begin? && !events[k].Finish?
  {
    if events[i - 1].Begin? {
      b := i - 1;
    } else {
      b := InFlightBegan(cfg, states, events, i - 1);
    }
  }

  lemma {:induction false} Latched(cfg: LiveConfig, states: seq<System>, events: seq<Event>, t: nat, i: nat)
    requires IsRun(cfg, states, events) && t < i <= |events|
    requires events[t].FireTrigger? || events[t].Trigger?
    requires forall k :: t < k < i ==> !events[k].Reset?
    ensures states[i].kill.triggered
  {
    if t + 1 < i {
      Latched(cfg, states, events, t, i - 1);
    }
  }

  /** Once a breaching RecordPnL has returned, or the switch was thrown by hand, every Submit that
      starts before a Reset is rejected, whatever becomes of the PnL. */
  lemma RejectedUntilReset(cfg: LiveConfig, states: seq<System>, events: seq<Event>, t: nat, b: nat, f: nat)
    requires IsRun(cfg, states, events) && Finishes(events, b, f)
    requires t < b && (events[t].FireTrigger? || events[t].Trigger?)
    requires forall k :: t < k < b ==> !events[k].Reset?
    ensures !Accepts(cfg, states[f], events[f])
    ensures states[f + 1].ledger == states[f].ledger
  {
    Latched(cfg, states, events, t, b);
    var b' := InFlightBegan(cfg, states, events, f);
  }

  /** So an acceptance after the switch fired, with no Reset in between, is a Submit that had already
      read the switch. */
  lemma LateAcceptanceBeganEarlier(cfg: LiveConfig, states: seq<System>, events: seq<Event>, t: nat, f: nat)
    returns (b: nat)
    requires IsRun(cfg, states, events) && t < f < |events|
    requires events[t].FireTrigger? || events[t].Trigger?
    requires forall k :: t < k < f ==> !events[k].Reset?
    requires Accepts(cfg, states[f], events[f])
    ensures Finishes(events, b, f) && b < t
    ensures !states[b].kill.triggered && !LossAbove(cfg.dailyLossCap, PnL(events[..f]))
  {
    b := InFlightBegan(cfg, states, events, f);
    NoAcceptanceInBreach(cfg, states, events, f);
    if t < b {
      RejectedUntilReset(cfg, states, events, t, b, f);
    }
  }

  /** From `t` to `i` the Submit in flight is not finished. */
  ghost predicate StaysInFlight(events: seq<Event>, t: nat, i: nat)
    requires i <= |events|
  {
    forall k :: t <= k < i ==> !events[k].Finish?
  }

  lemma {:induction false} FlightFreezesLedger(cfg: LiveConfig, states: seq<System>, events: seq<Event>, t: nat, i: nat)
    requires IsRun(cfg, states, events) && t <= i <= |events|
    requires states[t].inFlight.Busy? && StaysInFlight(events, t, i)
    ensures states[i].inFlight == states[t].inFlight && states[i].ledger == states[t].ledger
  {
    if t < i {
      FlightFreezesLedger(cfg, states, events, t, i - 1);
    }
  }

  lemma LateAcceptanceWasInFlight(cfg: LiveConfig, states: seq<System>, events: seq<Event>, t: nat, f: nat)
    requires IsRun(cfg, states, events) && t < f < |events|
    requires events[t].FireTrigger? || events[t].Trigger?
    requires forall k :: t < k < f ==> !events[k].Reset?
    requires Accepts(cfg, states[f], events[f])
    ensures states[t].inFlight.Busy? && StaysInFlight(events, t, f)
  {
    var b := LateAcceptanceBeganEarlier(cfg, states, events, t, f);
    FlightFreezesLedger(cfg, states, events, b + 1, t);
  }

  /** The exact condition. After the switch was fired, by a breaching RecordPnL or by hand, and before a
      Reset, a Submit ends in an acceptance exactly when it was in flight at that moment, nothing has ended
      since, and what it had read then, an open switch included, lets its order pass. */
  lemma AcceptedAfterTriggerExactlyWhen(cfg: LiveConfig, states: seq<System>, events: seq<Event>, t: nat, f: nat)
    requires IsRun(cfg, states, events) && t < f < |events| && events[f].Finish?
    requires events[t].FireTrigger? || events[t].Trigger?
    requires forall k :: t < k < f ==> !events[k].Reset?
    ensures Accepts(cfg, states[f], events[f]) <==>
            && states[t].inFlight.Busy? && StaysInFlight(events, t, f)
            && Decide(cfg, states[t].ledger, states[t].inFlight.seen, states[t].inFlight.s) == Accepted
  {
    if Accepts(cfg, states[f], events[f]) {
      LateAcceptanceWasInFlight(cfg, states, events, t, f);
    }
    if states[t].inFlight.Busy? && StaysInFlight(events, t, f) {
      FlightFreezesLedger(cfg, states, events, t, f);
    }
  }

  /** So between a firing and the next Reset at most one order is accepted. */
  lemma AtMostOneLateAcceptance(cfg: LiveConfig, states: seq<System>, events: seq<Event>, t: nat, f: nat, g: nat)
    requires IsRun(cfg, states, events) && t < f < g < |events|
    requires events[t].FireTrigger? || events[t].Trigger?
    requires forall k :: t < k < g ==> !events[k].Reset?
    requires Accepts(cfg, states[f], events[f])
    ensures !Accepts(cfg, states[g], events[g])
  {
    if Accepts(cfg, states[g], events[g]) {
      LateAcceptanceWasInFlight(cfg, states, events, t, g);
    }
  }

  /** Every breaching RecordPnL that has not returned still owes its trigger, and one that has
      returned fired it: its thread leaves `owing` by FireTrigger only. */
  lemma {:induction false} BreachOwesTrigger(cfg: LiveConfig, states: seq<System>, events: seq<Event>, a: nat, i: nat)
    requires IsRun(cfg, states, events) && a < i <= |events|
    requires events[a].AddPnL? && LossAbove(cfg.dailyLossCap, PnL(events[..a + 1]))
    ensures events[a].thread in states[i].owing || FireTrigger(events[a].thread) in events[a + 1..i]
  {
    if a + 1 == i {
      ReachableBooks(cfg, states, events, i);
    } else {
      BreachOwesTrigger(cfg, states, events, a, i - 1);
      Sequences.SliceStep(events, a + 1, i);
    }
  }

  /** And nobody else fires it: a call that owes its trigger has added a result that left the loss above the cap, and
      has not fired since. */
  lemma {:induction false} OwingMeansBreach(cfg: LiveConfig, states: seq<System>, events: seq<Event>, i: nat,
                                            thread: nat) returns (a: nat)
    requires IsRun(cfg, states, events) && i <= |events| && thread in states[i].owing
    ensures a < i && events[a].AddPnL? && events[a].thread == thread
    ensures LossAbove(cfg.dailyLossCap, PnL(events[..a + 1]))
    ensures forall k :: a < k < i ==> events[k] != FireTrigger(thread)
  {
    if thread in states[i - 1].owing {
      a := OwingMeansBreach(cfg, states, events, i - 1, thread);
    } else {
      a := i - 1;
      ReachableBooks(cfg, states, events, i);
    }
  }
}
