/** The paper router and its parity with the live router (internal/execution/paper_router.go). */
module PaperRouting {
  import opened LiveRouting

  datatype PaperOrder = PaperOrder(id: string, market: string, notional: real)

  datatype PaperLimits = PaperLimits(marketCap: real, dailyLossCap: real)

  datatype PaperBook = PaperBook(exposure: map<string, real>, dayPnL: real, halted: bool)

  function PaperDecide(limits: PaperLimits, book: PaperBook, order: PaperOrder): Verdict {
    if book.halted then Rejected("trading_halted")
    else if order.id == "" || order.market == "" || order.notional <= 0.0 then Rejected("invalid_order")
    else if limits.marketCap > 0.0 && Lookup(book.exposure, order.market) + order.notional > limits.marketCap
    then Rejected("market_exposure_cap")
    else Accepted
  }

  function PaperSubmit(limits: PaperLimits, book: PaperBook, order: PaperOrder): PaperBook {
    if PaperDecide(limits, book, order) == Accepted
    then book.(exposure := book.exposure[order.market := Lookup(book.exposure, order.market) + order.notional])
    else book
  }

  function PaperRecord(limits: PaperLimits, book: PaperBook, pnl: real): PaperBook {
    var total := book.dayPnL + pnl;
    book.(dayPnL := total, halted := book.halted || (limits.dailyLossCap > 0.0 && -total > limits.dailyLossCap))
  }

  class PaperRouter {
    const limits: PaperLimits
    var exposure: map<string, real>
    var dayPnL: real
    var halted: bool

    ghost function Book(): PaperBook
      reads this
    {
      PaperBook(exposure, dayPnL, halted)
    }

    constructor (limits: PaperLimits)
      ensures this.limits == limits && Book() == PaperBook(map[], 0.0, false)
    {
      this.limits := limits;
      exposure, dayPnL, halted := map[], 0.0, false;
    }

    method Submit(order: PaperOrder) returns (verdict: Verdict)
      modifies this
      ensures verdict == PaperDecide(limits, old(Book()), order)
      ensures Book() == PaperSubmit(limits, old(Book()), order)
    {
      if halted {
        return Rejected("trading_halted");
      }
      if order.id == "" || order.market == "" || order.notional <= 0.0 {
        return Rejected("invalid_order");
      }
      var next := Lookup(exposure, order.market) + order.notional;
      if limits.marketCap > 0.0 && next > limits.marketCap {
        return Rejected("market_exposure_cap");
      }
      exposure := exposure[order.market := next];
      return Accepted;
    }

    method RecordPnL(pnl: real)
      modifies this
      ensures Book() == PaperRecord(limits, old(Book()), pnl)
    {
      dayPnL := dayPnL + pnl;
      if limits.dailyLossCap > 0.0 && -dayPnL > limits.dailyLossCap {
        halted := true;
      }
    }
  }

  // ----- parity on whole traces -----

  /** One call made on both routers; the live one also needs a country and the age of the data. */
  datatype Op = Submit(key: string, market: string, country: string, notional: real, age: int) | Record(pnl: real)

  datatype LiveState = LiveState(ledger: Ledger, kill: Kill)

  function AsLive(op: Op): Submission
    requires op.Submit?
  {
    Submission(LiveOrder(op.key, op.market, op.country, op.notional), op.age, true)
  }

  function AsPaper(op: Op): PaperOrder
    requires op.Submit?
  {
    PaperOrder(op.key, op.market, op.notional)
  }

  function LiveRecord(cfg: LiveConfig, st: LiveState, pnl: real): LiveState {
    var ledger := st.ledger.(dayPnL := st.ledger.dayPnL + pnl);
    LiveState(ledger, if Breached(cfg, ledger.dayPnL) then Kill(true, "daily_loss_cap") else st.kill)
  }

  function LiveAfter(cfg: LiveConfig, ops: seq<Op>): LiveState {
    if ops == [] then LiveState(EMPTY_LEDGER, Kill(false, ""))
    else
      var st, op := LiveAfter(cfg, ops[..|ops| - 1]), ops[|ops| - 1];
      match op
      case Submit(_, _, _, _, _) => LiveState(Settle(cfg, st.ledger, st.kill, AsLive(op)), st.kill)
      case Record(pnl) => LiveRecord(cfg, st, pnl)
  }

  function PaperAfter(limits: PaperLimits, ops: seq<Op>): PaperBook {
    if ops == [] then PaperBook(map[], 0.0, false)
    else
      var book, op := PaperAfter(limits, ops[..|ops| - 1]), ops[|ops| - 1];
      match op
      case Submit(_, _, _, _, _) => PaperSubmit(limits, book, AsPaper(op))
      case Record(pnl) => PaperRecord(limits, book, pnl)
  }

  predicate LiveAccepts(cfg: LiveConfig, ops: seq<Op>, i: nat)
    requires i < |ops|
  {
    var st := LiveAfter(cfg, ops[..i]);
    ops[i].Submit? && Decide(cfg, st.ledger, st.kill, AsLive(ops[i])) == Accepted
  }

  predicate PaperAccepts(limits: PaperLimits, ops: seq<Op>, i: nat)
    requires i < |ops|
  {
    ops[i].Submit? && PaperDecide(limits, PaperAfter(limits, ops[..i]), AsPaper(ops[i])) == Accepted
  }

  // ----- the paper router on its own -----

  /** The notional the paper router has accepted for a market. */
  function PaperNotional(limits: PaperLimits, ops: seq<Op>, market: string): real {
    if ops == [] then 0.0
    else
      var n := |ops| - 1;
      PaperNotional(limits, ops[..n], market)
      + if PaperAccepts(limits, ops, n) && ops[n].market == market then ops[n].notional else 0.0
  }

  function RecordedPnL(ops: seq<Op>): real {
    if ops == [] then 0.0
    else RecordedPnL(ops[..|ops| - 1]) + match ops[|ops| - 1] case Record(pnl) => pnl case _ => 0.0
  }

  /** The loss recorded in the first k operations exceeds the cap. */
  ghost predicate LossAt(limits: PaperLimits, ops: seq<Op>, k: nat) {
    k <= |ops| && limits.dailyLossCap > 0.0 && RecordedPnL(ops[..k]) < -limits.dailyLossCap
  }

  /** The recorded loss has exceeded the cap at some point. */
  ghost predicate LossExceeded(limits: PaperLimits, ops: seq<Op>) {
    exists k :: LossAt(limits, ops, k)
  }

  lemma LossAtPrefix(limits: PaperLimits, ops: seq<Op>, n: nat, k: nat)
    requires k <= n <= |ops|
    ensures LossAt(limits, ops[..n], k) == LossAt(limits, ops, k)
  {
    assert ops[..n][..k] == ops[..k];
  }

  lemma LossExceededStep(limits: PaperLimits, ops: seq<Op>)
    requires |ops| > 0
    ensures LossExceeded(limits, ops) <==>
            LossExceeded(limits, ops[..|ops| - 1])
            || (limits.dailyLossCap > 0.0 && RecordedPnL(ops) < -limits.dailyLossCap)
  {
    var n := |ops| - 1;
    assert ops[..|ops|] == ops;
    forall k: nat | k <= n
      ensures LossAt(limits, ops[..n], k) == LossAt(limits, ops, k)
    {
      LossAtPrefix(limits, ops, n, k);
    }
    assert LossAt(limits, ops, |ops|) <==> limits.dailyLossCap > 0.0 && RecordedPnL(ops) < -limits.dailyLossCap;
  }

  /** The paper book is the book of the orders it accepted and the results it recorded. */
  lemma {:induction false} PaperBookIsTrace(limits: PaperLimits, ops: seq<Op>)
    ensures var book := PaperAfter(limits, ops);
            && (forall m :: Lookup(book.exposure, m) == PaperNotional(limits, ops, m))
            && book.dayPnL == RecordedPnL(ops)
            && book.halted == LossExceeded(limits, ops)
  {
    if ops == [] {
      assert ops[..0] == ops;
    } else {
      PaperBookIsTrace(limits, ops[..|ops| - 1]);
      LossExceededStep(limits, ops);
      if ops[|ops| - 1].Submit? {
        UnchangedByOrder(limits, ops);
      }
    }
  }

  /** An order changes no PnL, so it brings about no new excess. */
  lemma UnchangedByOrder(limits: PaperLimits, ops: seq<Op>)
    requires |ops| > 0 && ops[|ops| - 1].Submit?
    ensures LossExceeded(limits, ops) <==> LossExceeded(limits, ops[..|ops| - 1])
  {
    var n := |ops| - 1;
    LossExceededStep(limits, ops);
    assert ops[..n][..n] == ops[..n];
    assert RecordedPnL(ops) == RecordedPnL(ops[..n]);
    assert LossAt(limits, ops[..n], n) <==> limits.dailyLossCap > 0.0 && RecordedPnL(ops) < -limits.dailyLossCap;
  }

  /** When the paper router accepts, over the trace so far: the order names a key and a market and has a positive
      notional, the market stays within its cap, and the loss has never exceeded its own. */
  lemma PaperAcceptsExactlyWhen(limits: PaperLimits, ops: seq<Op>, i: nat)
    requires i < |ops| && ops[i].Submit?
    ensures PaperAccepts(limits, ops, i) <==>
            && ops[i].key != "" && ops[i].market != "" && ops[i].notional > 0.0
            && (limits.marketCap > 0.0 ==>
                  PaperNotional(limits, ops[..i], ops[i].market) + ops[i].notional <= limits.marketCap)
            && !LossExceeded(limits, ops[..i])
  {
    PaperBookIsTrace(limits, ops[..i]);
  }

  /** The live router configured like the paper one: no staleness cut-off, no cluster caps. */
  ghost predicate SameLimits(cfg: LiveConfig, limits: PaperLimits) {
    && cfg.marketCap == limits.marketCap && cfg.dailyLossCap == limits.dailyLossCap
    && cfg.staleCutoff <= 0 && cfg.clusterCap == map[]
  }

  /** Every submission names a whitelisted market and an allowed country. */
  ghost predicate Routable(cfg: LiveConfig, ops: seq<Op>) {
    forall i :: 0 <= i < |ops| && ops[i].Submit? ==>
                  ops[i].market in cfg.whitelist && ops[i].country != "" && CountryAllowed(cfg, ops[i].country)
  }

  /** No order the paper router takes carries the key of an earlier one it took. */
  ghost predicate FreshKeys(limits: PaperLimits, ops: seq<Op>) {
    forall i, j :: 0 <= i < j < |ops| && PaperAccepts(limits, ops, i) && PaperAccepts(limits, ops, j) ==>
                     ops[i].key != ops[j].key
  }

  ghost predicate SameVerdicts(cfg: LiveConfig, limits: PaperLimits, ops: seq<Op>) {
    forall i :: 0 <= i < |ops| ==> (LiveAccepts(cfg, ops, i) <==> PaperAccepts(limits, ops, i))
  }

  /** The lock-step relation: equal exposure and PnL, halted exactly when killed, the loss cap never
      breached without a halt, and the live router's keys are those of the paper acceptances. */
  ghost predicate InStep(cfg: LiveConfig, limits: PaperLimits, ops: seq<Op>) {
    var live, paper := LiveAfter(cfg, ops), PaperAfter(limits, ops);
    && live.ledger.exposure == paper.exposure
    && live.ledger.dayPnL == paper.dayPnL
    && live.kill.triggered == paper.halted
    && (Breached(cfg, live.ledger.dayPnL) ==> paper.halted)
    && (forall k :: k in live.ledger.seenKeys <==> KeyTaken(limits, ops, k))
  }

  ghost predicate KeyTaken(limits: PaperLimits, ops: seq<Op>, k: string) {
    exists i :: 0 <= i < |ops| && PaperAccepts(limits, ops, i) && ops[i].key == k
  }

  lemma PaperAcceptsPrefix(limits: PaperLimits, ops: seq<Op>, i: nat, n: nat)
    requires i < n <= |ops|
    ensures PaperAccepts(limits, ops[..n], i) == PaperAccepts(limits, ops, i)
  {
    assert ops[..n][..i] == ops[..i];
  }

  lemma KeyTakenStep(limits: PaperLimits, ops: seq<Op>, k: string)
    requires |ops| > 0
    ensures var n := |ops| - 1;
            KeyTaken(limits, ops, k) <==>
            KeyTaken(limits, ops[..n], k) || (PaperAccepts(limits, ops, n) && ops[n].key == k)
  {
    var n := |ops| - 1;
    forall i | 0 <= i < n
      ensures PaperAccepts(limits, ops[..n], i) == PaperAccepts(limits, ops, i) && ops[..n][i] == ops[i]
    {
      PaperAcceptsPrefix(limits, ops, i, n);
    }
    if KeyTaken(limits, ops[..n], k) {
      var i :| 0 <= i < n && PaperAccepts(limits, ops[..n], i) && ops[..n][i].key == k;
      assert PaperAccepts(limits, ops, i);
    }
    if KeyTaken(limits, ops, k) {
      var i :| 0 <= i < |ops| && PaperAccepts(limits, ops, i) && ops[i].key == k;
      assert i < n ==> PaperAccepts(limits, ops[..n], i) && ops[..n][i].key == k;
    }
  }

  /** In step, the live router accepts what the paper one does except where a key is reused. */
  lemma VerdictsInStep(cfg: LiveConfig, limits: PaperLimits, ops: seq<Op>, i: nat)
    requires SameLimits(cfg, limits) && Routable(cfg, ops) && i < |ops| && InStep(cfg, limits, ops[..i])
    ensures LiveAccepts(cfg, ops, i) <==>
            PaperAccepts(limits, ops, i) && !KeyTaken(limits, ops[..i], ops[i].key)
  {
  }

  lemma StepKeepsInStep(cfg: LiveConfig, limits: PaperLimits, ops: seq<Op>)
    requires SameLimits(cfg, limits) && |ops| > 0
    requires InStep(cfg, limits, ops[..|ops| - 1])
    requires LiveAccepts(cfg, ops, |ops| - 1) <==> PaperAccepts(limits, ops, |ops| - 1)
    ensures InStep(cfg, limits, ops)
  {
    var n := |ops| - 1;
    forall k
      ensures k in LiveAfter(cfg, ops).ledger.seenKeys <==> KeyTaken(limits, ops, k)
    {
      KeyTakenStep(limits, ops, k);
    }
  }

  /** As long as the verdicts agree the states stay in step. */
  lemma {:induction false} AgreementKeepsInStep(cfg: LiveConfig, limits: PaperLimits, ops: seq<Op>, n: nat)
    requires SameLimits(cfg, limits) && n <= |ops|
    requires forall i :: 0 <= i < n ==> (LiveAccepts(cfg, ops, i) <==> PaperAccepts(limits, ops, i))
    ensures InStep(cfg, limits, ops[..n])
  {
    if n > 0 {
      AgreementKeepsInStep(cfg, limits, ops, n - 1);
      var prefix := ops[..n];
      assert prefix[..|prefix| - 1] == ops[..n - 1];
      assert LiveAccepts(cfg, prefix, n - 1) == LiveAccepts(cfg, ops, n - 1);
      PaperAcceptsPrefix(limits, ops, n - 1, n);
      StepKeepsInStep(cfg, limits, prefix);
    }
  }

  lemma {:induction false} FreshKeysGiveAgreement(cfg: LiveConfig, limits: PaperLimits, ops: seq<Op>, n: nat)
    requires SameLimits(cfg, limits) && Routable(cfg, ops) && FreshKeys(limits, ops) && n <= |ops|
    ensures forall i :: 0 <= i < n ==> (LiveAccepts(cfg, ops, i) <==> PaperAccepts(limits, ops, i))
  {
    if n > 0 {
      FreshKeysGiveAgreement(cfg, limits, ops, n - 1);
      AgreementKeepsInStep(cfg, limits, ops, n - 1);
      VerdictsInStep(cfg, limits, ops, n - 1);
      if PaperAccepts(limits, ops, n - 1) && KeyTaken(limits, ops[..n - 1], ops[n - 1].key) {
        var i :| 0 <= i < n - 1 && PaperAccepts(limits, ops[..n - 1], i) && ops[..n - 1][i].key == ops[n - 1].key;
        PaperAcceptsPrefix(limits, ops, i, n - 1);
      }
    }
  }

  lemma AgreementGivesFreshKeys(cfg: LiveConfig, limits: PaperLimits, ops: seq<Op>)
    requires SameLimits(cfg, limits) && Routable(cfg, ops) && SameVerdicts(cfg, limits, ops)
    ensures FreshKeys(limits, ops)
  {
    forall i, j | 0 <= i < j < |ops| && PaperAccepts(limits, ops, i) && PaperAccepts(limits, ops, j)
      ensures ops[i].key != ops[j].key
    {
      AgreementKeepsInStep(cfg, limits, ops, j);
      VerdictsInStep(cfg, limits, ops, j);
      PaperAcceptsPrefix(limits, ops, i, j);
      assert ops[..j][i] == ops[i];
    }
  }

  /** With the same limits and routable orders, the two routers give the same verdicts on a whole trace
      exactly when the paper router never takes a key twice, and then they end with equal exposure and
      PnL, both halted or both open. */
  lemma PaperLiveParity(cfg: LiveConfig, limits: PaperLimits, ops: seq<Op>)
    requires SameLimits(cfg, limits) && Routable(cfg, ops)
    ensures SameVerdicts(cfg, limits, ops) <==> FreshKeys(limits, ops)
    ensures FreshKeys(limits, ops) ==>
              var live, paper := LiveAfter(cfg, ops), PaperAfter(limits, ops);
              live.ledger.exposure == paper.exposure && live.ledger.dayPnL == paper.dayPnL
              && live.kill.triggered == paper.halted
  {
    if FreshKeys(limits, ops) {
      FreshKeysGiveAgreement(cfg, limits, ops, |ops|);
      AgreementKeepsInStep(cfg, limits, ops, |ops|);
      assert ops[..|ops|] == ops;
    }
    if SameVerdicts(cfg, limits, ops) {
      AgreementGivesFreshKeys(cfg, limits, ops);
    }
  }
}
