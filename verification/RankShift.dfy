/** The rank-shift signal machine of internal/strategy/rank_shift.go, and the order keys that
    cmd/worker/main.go derives from its signals. */
module RankShift {
  import opened FixedWidth
  import opened LiveRouting
  import opened Sequences
  import opened Text

  datatype Config = Config(assetA: string, assetB: string, flipSpread: real, cooldown: int, targetLabel: string)

  datatype State = State(prices: map<string, real>, leader: string, lastSignalAt: int)

  /** One market update, its price already extracted, and what the clock shows if it is read. */
  datatype Update = Update(assetID: string, price: Option<real>, now: int)

  datatype Signal = Signal(
    id: string,
    assetID: string,
    assetLabel: string,
    confidence: real,
    createdAt: int,
    newLeader: string,
    spread: real)

  const FRESH := State(map[], "", ZERO_TIME)

  function WithDefaults(cfg: Config): Config {
    cfg.(flipSpread := if cfg.flipSpread <= 0.0 then 0.03 else cfg.flipSpread,
         cooldown := if cfg.cooldown <= 0 then 180 * 1_000_000_000 else cfg.cooldown)
  }

  predicate Followed(cfg: Config, u: Update) {
    |u.assetID| > 0 && (u.assetID == cfg.assetA || u.assetID == cfg.assetB) && u.price.Some?
  }

  predicate BothSeen(cfg: Config, prices: map<string, real>) {
    cfg.assetA in prices && cfg.assetB in prices
  }

  /** The asset with the higher price; the first asset on a tie. */
  function Best(cfg: Config, prices: map<string, real>): string
    requires BothSeen(cfg, prices)
  {
    if prices[cfg.assetB] > prices[cfg.assetA] then cfg.assetB else cfg.assetA
  }

  function Spread(cfg: Config, prices: map<string, real>): real
    requires BothSeen(cfg, prices)
  {
    var d := prices[cfg.assetA] - prices[cfg.assetB];
    if d < 0.0 then -d else d
  }

  /** Time.Sub: a difference that saturates at the ends of int64. */
  function Elapsed(now: int, since: int): int {
    var d := now - since;
    if d >= TWO_63 then TWO_63 - 1 else if d < -TWO_63 then -TWO_63 else d
  }

  predicate Cooling(cfg: Config, s: State, now: int) {
    s.lastSignalAt != ZERO_TIME && Elapsed(now, s.lastSignalAt) < cfg.cooldown
  }

  function Labelled(tag: string, n: int): string {
    tag + FormatInt(n)
  }

  function SignalID(now: int): string {
    Labelled("rankshift-", Wrap64(now))
  }

  function MakeSignal(cfg: Config, overtaken: string, prices: map<string, real>, now: int): Signal
    requires BothSeen(cfg, prices)
  {
    var spread := Spread(cfg, prices);
    Signal(SignalID(now), overtaken, if |TrimSpace(cfg.targetLabel)| == 0 then overtaken else cfg.targetLabel,
           if spread > 1.0 then 1.0 else spread, now, Best(cfg, prices), spread)
  }

  /** Whether an update that shows both prices makes the machine speak. */
  predicate Speaks(cfg: Config, s: State, prices: map<string, real>, now: int)
    requires BothSeen(cfg, prices)
  {
    && |s.leader| > 0 && s.leader != Best(cfg, prices)
    && Spread(cfg, prices) >= cfg.flipSpread
    && !Cooling(cfg, s, now)
  }

  function Advance(cfg: Config, s: State, u: Update): (State, Option<Signal>) {
    if !Followed(cfg, u) then (s, None)
    else
      var prices := s.prices[u.assetID := u.price.value];
      if !BothSeen(cfg, prices) then (s.(prices := prices), None)
      else if Speaks(cfg, s, prices, u.now) then
        (State(prices, Best(cfg, prices), u.now), Some(MakeSignal(cfg, s.leader, prices, u.now)))
      else (State(prices, Best(cfg, prices), s.lastSignalAt), None)
  }

  class RankShiftStrategy {
    const cfg: Config
    var prices: map<string, real>
    var leader: string
    var lastSignalAt: int

    ghost function Contents(): State reads this { State(prices, leader, lastSignalAt) }

    constructor (cfg: Config)
      ensures this.cfg == WithDefaults(cfg) && Contents() == State(map[], "", ZERO_TIME)
      ensures this.cfg.flipSpread == (if cfg.flipSpread > 0.0 then cfg.flipSpread else 0.03)
      ensures this.cfg.cooldown == (if cfg.cooldown > 0 then cfg.cooldown else 180_000_000_000)
    {
      this.cfg := WithDefaults(cfg);
      prices, leader, lastSignalAt := map[], "", ZERO_TIME;
    }

    method OnUpdate(u: Update) returns (signals: seq<Signal>)
      modifies this
      ensures Contents() == Advance(cfg, old(Contents()), u).0
      ensures signals == Kept(Advance(cfg, old(Contents()), u).1)
    {
      if u.assetID == "" || (u.assetID != cfg.assetA && u.assetID != cfg.assetB) || u.price.None? {
        return [];
      }
      prices := prices[u.assetID := u.price.value];
      if cfg.assetA !in prices || cfg.assetB !in prices {
        return [];
      }
      var priceA, priceB := prices[cfg.assetA], prices[cfg.assetB];
      var newLeader := if priceB > priceA then cfg.assetB else cfg.assetA;
      var diff := if priceA - priceB < 0.0 then priceB - priceA else priceA - priceB;
      if |leader| == 0 {
        leader := newLeader;
        return [];
      }
      var oldLeader := leader;
      leader := newLeader;
      if oldLeader == newLeader || diff < cfg.flipSpread {
        return [];
      }
      var now := u.now;
      if lastSignalAt != ZERO_TIME && Elapsed(now, lastSignalAt) < cfg.cooldown {
        return [];
      }
      lastSignalAt := now;
      signals := [MakeSignal(cfg, oldLeader, prices, now)];
    }
  }

  // ----- runs -----

  function After(cfg: Config, updates: seq<Update>): State {
    if |updates| == 0 then FRESH
    else Advance(cfg, After(cfg, updates[..|updates| - 1]), updates[|updates| - 1]).0
  }

  function Emitted(cfg: Config, updates: seq<Update>): seq<Signal> {
    if |updates| == 0 then []
    else
      var n := |updates| - 1;
      Emitted(cfg, updates[..n]) + Kept(Advance(cfg, After(cfg, updates[..n]), updates[n]).1)
  }

  /** The latest price of an asset over a history. */
  function Latest(cfg: Config, updates: seq<Update>, asset: string): Option<real> {
    if |updates| == 0 then None
    else
      var u := updates[|updates| - 1];
      if Followed(cfg, u) && u.assetID == asset then u.price else Latest(cfg, updates[..|updates| - 1], asset)
  }

  ghost predicate HoldsLatest(cfg: Config, s: State, updates: seq<Update>) {
    forall asset :: Latest(cfg, updates, asset) == if asset in s.prices then Some(s.prices[asset]) else None
  }

  ghost predicate LeaderIsBest(cfg: Config, s: State) {
    && (forall asset :: asset in s.prices ==> |asset| > 0)
    && s.leader == if BothSeen(cfg, s.prices) then Best(cfg, s.prices) else ""
  }

  lemma AdvanceKeepsLeader(cfg: Config, s: State, u: Update)
    requires LeaderIsBest(cfg, s)
    ensures LeaderIsBest(cfg, Advance(cfg, s, u).0)
  {
  }

  lemma {:induction false} HistoryIsHeld(cfg: Config, updates: seq<Update>)
    ensures HoldsLatest(cfg, After(cfg, updates), updates)
  {
    if |updates| > 0 {
      HistoryIsHeld(cfg, updates[..|updates| - 1]);
    }
  }

  lemma {:induction false} LeaderInvariant(cfg: Config, updates: seq<Update>)
    ensures LeaderIsBest(cfg, After(cfg, updates))
  {
    if |updates| > 0 {
      var n := |updates| - 1;
      LeaderInvariant(cfg, updates[..n]);
      AdvanceKeepsLeader(cfg, After(cfg, updates[..n]), updates[n]);
    }
  }

  /** After any history the leader is the asset with the higher latest price, and there is none until both
      prices are known. */
  lemma LeaderIsArgmax(cfg: Config, updates: seq<Update>)
    ensures var a, b := Latest(cfg, updates, cfg.assetA), Latest(cfg, updates, cfg.assetB);
            After(cfg, updates).leader ==
            if a.None? || b.None? then "" else if b.value > a.value then cfg.assetB else cfg.assetA
  {
    HistoryIsHeld(cfg, updates);
    LeaderInvariant(cfg, updates);
  }

  // ----- when a signal comes -----

  /** Both prices are known. */
  ghost predicate Known(a: Option<real>, b: Option<real>) {
    a.Some? && b.Some?
  }

  ghost predicate AtLeastApart(a: real, b: real, spread: real) {
    a - b >= spread || b - a >= spread
  }

  lemma LatestStep(cfg: Config, updates: seq<Update>, u: Update, asset: string)
    ensures Latest(cfg, updates + [u], asset) ==
            if asset == u.assetID != "" && u.assetID in {cfg.assetA, cfg.assetB} && u.price.Some? then u.price
            else Latest(cfg, updates, asset)
  {
    assert (updates + [u])[..|updates|] == updates;
  }

  /** The update makes the other asset the leader, the two prices being at least the flip spread apart. */
  ghost predicate Flips(cfg: Config, updates: seq<Update>, u: Update) {
    var a, b := Latest(cfg, updates, cfg.assetA), Latest(cfg, updates, cfg.assetB);
    var a', b' := Latest(cfg, updates + [u], cfg.assetA), Latest(cfg, updates + [u], cfg.assetB);
    Known(a, b) && Known(a', b') && (b.value > a.value <==> b'.value <= a'.value)
    && AtLeastApart(a'.value, b'.value, cfg.flipSpread)
  }

  /** The last signal, if there is one, is at least a cooldown ago. */
  ghost predicate Rested(cfg: Config, updates: seq<Update>, now: int) {
    var signals := Emitted(cfg, updates);
    signals != [] ==> now - signals[|signals| - 1].createdAt >= cfg.cooldown
  }

  lemma SpeaksAgain(cfg: Config, updates: seq<Update>, u: Update)
    requires 0 < cfg.cooldown < TWO_63 && RealClock(updates)
    ensures !Cooling(cfg, After(cfg, updates), u.now) <==> Rested(cfg, updates, u.now)
  {
    SpacingInvariant(cfg, updates);
  }

  lemma UnpricedIsNoFlip(cfg: Config, updates: seq<Update>, u: Update)
    requires !Followed(cfg, u)
    ensures !Flips(cfg, updates, u)
  {
    LatestStep(cfg, updates, u, cfg.assetA);
    LatestStep(cfg, updates, u, cfg.assetB);
  }

  lemma SpeaksExactlyWhen(cfg: Config, updates: seq<Update>, u: Update)
    requires 0 < cfg.cooldown < TWO_63 && RealClock(updates)
    ensures Advance(cfg, After(cfg, updates), u).1.Some? <==>
            Flips(cfg, updates, u) && Rested(cfg, updates, u.now)
  {
    LatestStep(cfg, updates, u, cfg.assetA);
    LatestStep(cfg, updates, u, cfg.assetB);
    HistoryIsHeld(cfg, updates);
    LeaderInvariant(cfg, updates);
    SpeaksAgain(cfg, updates, u);
    if !Followed(cfg, u) {
      UnpricedIsNoFlip(cfg, updates, u);
    }
  }

  /** The signal of B overtaking A, or A overtaking B. */
  ghost function SignalFor(cfg: Config, toB: bool, a: real, b: real, now: int): Signal {
    var overtaken, leader, spread :=
      if toB then cfg.assetA else cfg.assetB, if toB then cfg.assetB else cfg.assetA, if toB then b - a else a - b;
    Signal("rankshift-" + FormatInt(now), overtaken,
           if TrimSpace(cfg.targetLabel) == "" then overtaken else cfg.targetLabel,
           if spread <= 1.0 then spread else 1.0, now, leader, spread)
  }

  lemma MadeAsDue(cfg: Config, s: State, prices: map<string, real>, now: int)
    requires BothSeen(cfg, prices) && Speaks(cfg, s, prices, now) && Int64(now)
    requires s.leader in {cfg.assetA, cfg.assetB}
    ensures var a, b := prices[cfg.assetA], prices[cfg.assetB];
            MakeSignal(cfg, s.leader, prices, now) == SignalFor(cfg, b > a, a, b, now)
  {
  }

  lemma SignalIsDue(cfg: Config, updates: seq<Update>, u: Update)
    requires Advance(cfg, After(cfg, updates), u).1.Some? && Int64(u.now)
    ensures var a, b := Latest(cfg, updates + [u], cfg.assetA), Latest(cfg, updates + [u], cfg.assetB);
            && Known(a, b)
            && Advance(cfg, After(cfg, updates), u).1 ==
               Some(SignalFor(cfg, b.value > a.value, a.value, b.value, u.now))
  {
    var s := After(cfg, updates);
    LatestStep(cfg, updates, u, cfg.assetA);
    LatestStep(cfg, updates, u, cfg.assetB);
    HistoryIsHeld(cfg, updates);
    LeaderInvariant(cfg, updates);
    MadeAsDue(cfg, s, s.prices[u.assetID := u.price.value], u.now);
  }

  /** Over any history: an update brings a signal exactly when it makes the other asset the leader by at least the flip
      spread and the last signal is at least a cooldown ago. The signal names the overtaken asset. */
  lemma SignalExactlyWhen(cfg: Config, updates: seq<Update>, u: Update)
    requires 0 < cfg.cooldown < TWO_63 && RealClock(updates) && Int64(u.now)
    ensures var a, b := Latest(cfg, updates + [u], cfg.assetA), Latest(cfg, updates + [u], cfg.assetB);
            Emitted(cfg, updates + [u]) == Emitted(cfg, updates) +
            if !Flips(cfg, updates, u) || !Rested(cfg, updates, u.now) then []
            else [SignalFor(cfg, b.value > a.value, a.value, b.value, u.now)]
  {
    assert (updates + [u])[..|updates|] == updates;
    SpeaksExactlyWhen(cfg, updates, u);
    if Advance(cfg, After(cfg, updates), u).1.Some? {
      SignalIsDue(cfg, updates, u);
    }
  }

  // ----- what a signal says -----

  /** It names the asset that led before the update and no longer does, by at least the flip spread. */
  ghost predicate NamesOvertaken(cfg: Config, before: State, u: Update, signal: Signal)
    requires u.price.Some?
  {
    var prices := before.prices[u.assetID := u.price.value];
    && BothSeen(cfg, before.prices) && BothSeen(cfg, prices)
    && signal.assetID == Best(cfg, before.prices)
    && signal.newLeader == Best(cfg, prices) && signal.newLeader != signal.assetID
    && {signal.assetID, signal.newLeader} == {cfg.assetA, cfg.assetB}
    && signal.spread >= cfg.flipSpread && signal.spread == prices[signal.newLeader] - prices[signal.assetID]
    && signal.confidence == (if signal.spread > 1.0 then 1.0 else signal.spread)
    && signal.createdAt == u.now
  }

  lemma SignalNamesOvertaken(cfg: Config, updates: seq<Update>, u: Update)
    requires u.price.Some? && Advance(cfg, After(cfg, updates), u).1.Some?
    ensures NamesOvertaken(cfg, After(cfg, updates), u, Advance(cfg, After(cfg, updates), u).1.value)
  {
    LeaderInvariant(cfg, updates);
    assert BothSeen(cfg, After(cfg, updates).prices);
  }

  // ----- spacing -----

  ghost predicate Spaced(cfg: Config, signals: seq<Signal>) {
    forall i, j :: 0 <= i < j < |signals| ==> signals[i].createdAt + cfg.cooldown <= signals[j].createdAt
  }

  ghost predicate Remembers(s: State, signals: seq<Signal>) {
    s.lastSignalAt == if |signals| == 0 then ZERO_TIME else signals[|signals| - 1].createdAt
  }

  ghost predicate RealClock(updates: seq<Update>) {
    forall i :: 0 <= i < |updates| ==> updates[i].now != ZERO_TIME
  }

  lemma ElapsedAtLeast(now: int, since: int, cooldown: int)
    requires 0 < cooldown < TWO_63
    ensures Elapsed(now, since) >= cooldown ==> now - since >= cooldown
  {
  }

  lemma SpokenAfterCooldown(cfg: Config, s: State, u: Update)
    requires 0 < cfg.cooldown < TWO_63 && s.lastSignalAt != ZERO_TIME
    requires Advance(cfg, s, u).1.Some?
    ensures Advance(cfg, s, u).1.value.createdAt >= s.lastSignalAt + cfg.cooldown
  {
    ElapsedAtLeast(u.now, s.lastSignalAt, cfg.cooldown);
  }

  lemma SpacedExtends(cfg: Config, signals: seq<Signal>, x: Signal)
    requires Spaced(cfg, signals) && cfg.cooldown > 0
    requires |signals| > 0 ==> x.createdAt >= signals[|signals| - 1].createdAt + cfg.cooldown
    ensures Spaced(cfg, signals + [x])
  {
  }

  /** What a run has emitted so far: spaced by the cooldown, the last one remembered. */
  ghost predicate SpacedSoFar(cfg: Config, s: State, signals: seq<Signal>) {
    Spaced(cfg, signals) && Remembers(s, signals) && (|signals| > 0 ==> s.lastSignalAt != ZERO_TIME)
  }

  /** What one update does to the memory of the last signal. */
  ghost predicate KeepsTime(cfg: Config, s: State, s': State, x: Option<Signal>) {
    if x.None? then s'.lastSignalAt == s.lastSignalAt
    else
      && s'.lastSignalAt == x.value.createdAt != ZERO_TIME
      && (s.lastSignalAt != ZERO_TIME ==> x.value.createdAt >= s.lastSignalAt + cfg.cooldown)
  }

  lemma AdvanceKeepsTime(cfg: Config, s: State, u: Update)
    requires 0 < cfg.cooldown < TWO_63 && u.now != ZERO_TIME
    ensures KeepsTime(cfg, s, Advance(cfg, s, u).0, Advance(cfg, s, u).1)
  {
    if Advance(cfg, s, u).1.Some? && s.lastSignalAt != ZERO_TIME {
      SpokenAfterCooldown(cfg, s, u);
    }
  }

  lemma SpacingStep(cfg: Config, s: State, s': State, signals: seq<Signal>, x: Option<Signal>)
    requires cfg.cooldown > 0 && SpacedSoFar(cfg, s, signals) && KeepsTime(cfg, s, s', x)
    ensures SpacedSoFar(cfg, s', signals + Kept(x))
  {
    if x.Some? {
      SpacedExtends(cfg, signals, x.value);
    } else {
      assert signals + Kept(x) == signals;
    }
  }

  lemma {:induction false} SpacingInvariant(cfg: Config, updates: seq<Update>)
    requires 0 < cfg.cooldown < TWO_63 && RealClock(updates)
    ensures SpacedSoFar(cfg, After(cfg, updates), Emitted(cfg, updates))
  {
    if |updates| > 0 {
      var n := |updates| - 1;
      SpacingInvariant(cfg, updates[..n]);
      var s, step := After(cfg, updates[..n]), Advance(cfg, After(cfg, updates[..n]), updates[n]);
      AdvanceKeepsTime(cfg, s, updates[n]);
      SpacingStep(cfg, s, step.0, Emitted(cfg, updates[..n]), step.1);
    }
  }

  /** Whatever the clock does, even running backwards, each signal comes at least a cooldown after every
      earlier one. */
  lemma SignalsAreSpaced(cfg: Config, updates: seq<Update>)
    requires cfg.cooldown < TWO_63 && RealClock(updates)
    ensures Spaced(WithDefaults(cfg), Emitted(WithDefaults(cfg), updates))
  {
    SpacingInvariant(WithDefaults(cfg), updates);
  }

  // ----- ids and order keys -----

  /** A clock whose readings fit int64 nanoseconds, the range in which UnixNano is defined. */
  ghost predicate NanoClock(updates: seq<Update>) {
    forall i :: 0 <= i < |updates| ==> Int64(updates[i].now)
  }

  ghost predicate Stamped(signals: seq<Signal>) {
    forall i :: 0 <= i < |signals| ==> Int64(signals[i].createdAt) && signals[i].id == SignalID(signals[i].createdAt)
  }

  lemma {:induction false} EmittedAreStamped(cfg: Config, updates: seq<Update>)
    requires NanoClock(updates)
    ensures Stamped(Emitted(cfg, updates))
  {
    if |updates| > 0 {
      EmittedAreStamped(cfg, updates[..|updates| - 1]);
    }
  }

  function OrUnknown(trimmed: string): string {
    if |trimmed| == 0 then "unknown" else trimmed
  }

  function Joined(lead: string, id: string, market: string): string {
    lead + OrUnknown(TrimSpace(id)) + "-" + OrUnknown(TrimSpace(market))
  }

  function LiveOrderKey(signalID: string, market: string): string {
    Joined("sig-", signalID, market)
  }

  /** A key names the signal and the market, each trimmed, or "unknown" where one is blank. */
  lemma KeyNamesBoth(signalID: string, market: string)
    ensures var s, m := TrimSpace(signalID), TrimSpace(market);
            LiveOrderKey(signalID, market) ==
            "sig-" + (if s == "" then "unknown" else s) + "-" + (if m == "" then "unknown" else m)
  {
  }

  lemma CancelPrefix(prefix: string, u: string, v: string)
    requires prefix + u == prefix + v
    ensures u == v
  {
    assert (prefix + u)[|prefix|..] == u && (prefix + v)[|prefix|..] == v;
  }

  lemma Regrouped(lead: string, tag: string, number: string, x: string)
    ensures lead + (tag + number) + "-" + x == (lead + tag) + (number + "-" + x)
  {
  }

  lemma NumbersShow(lead: string, tag: string, a: int, x: string, b: int, y: string)
    requires lead + (tag + FormatInt(a)) + "-" + x == lead + (tag + FormatInt(b)) + "-" + y
    ensures a == b
  {
    Regrouped(lead, tag, FormatInt(a), x);
    Regrouped(lead, tag, FormatInt(b), y);
    CancelPrefix(lead + tag, FormatInt(a) + "-" + x, FormatInt(b) + "-" + y);
    FormatIntPrefixFree(a, x, b, y);
  }

  lemma FormatIntEnd(n: int)
    ensures var s := FormatInt(n); |s| > 0 && '0' <= s[|s| - 1] <= '9'
  {
    if n < 0 {
      DigitsInvertible(-n);
    } else {
      DigitsInvertible(n);
    }
  }

  lemma LabelledIsTrimmed(tag: string, n: int)
    requires |tag| > 0 && !IsSpace(tag[0])
    ensures OrUnknown(TrimSpace(Labelled(tag, n))) == tag + FormatInt(n)
  {
    FormatIntEnd(n);
    TrimSpaceOfTrimmed(tag + FormatInt(n));
  }

  lemma JoinedTellNumbers(lead: string, tag: string, a: int, x: string, b: int, y: string)
    requires |tag| > 0 && !IsSpace(tag[0])
    ensures Joined(lead, Labelled(tag, a), x) == Joined(lead, Labelled(tag, b), y) ==> a == b
  {
    LabelledIsTrimmed(tag, a);
    LabelledIsTrimmed(tag, b);
    if Joined(lead, Labelled(tag, a), x) == Joined(lead, Labelled(tag, b), y) {
      NumbersShow(lead, tag, a, OrUnknown(TrimSpace(x)), b, OrUnknown(TrimSpace(y)));
    }
  }

  lemma KeysTellTimes(a: int, x: string, b: int, y: string)
    requires Int64(a) && Int64(b)
    ensures LiveOrderKey(SignalID(a), x) == LiveOrderKey(SignalID(b), y) ==> a == b
  {
    JoinedTellNumbers("sig-", "rankshift-", a, x, b, y);
  }

  /** Orders made from two of the signals have different keys, whatever markets they are for. */
  ghost predicate DistinctOrderKeys(signals: seq<Signal>) {
    forall i, j, m, n :: 0 <= i < j < |signals| ==> LiveOrderKey(signals[i].id, m) != LiveOrderKey(signals[j].id, n)
  }

  lemma SpacedKeysDiffer(cfg: Config, signals: seq<Signal>)
    requires Spaced(cfg, signals) && cfg.cooldown > 0 && Stamped(signals)
    ensures DistinctOrderKeys(signals)
  {
    forall i, j, m, n | 0 <= i < j < |signals|
      ensures LiveOrderKey(signals[i].id, m) != LiveOrderKey(signals[j].id, n)
    {
      KeysTellTimes(signals[i].createdAt, m, signals[j].createdAt, n);
    }
  }

  lemma SignalsHaveDistinctKeys(cfg: Config, updates: seq<Update>)
    requires cfg.cooldown < TWO_63 && NanoClock(updates)
    ensures DistinctOrderKeys(Emitted(WithDefaults(cfg), updates))
  {
    SignalsAreSpaced(cfg, updates);
    EmittedAreStamped(WithDefaults(cfg), updates);
    SpacedKeysDiffer(WithDefaults(cfg), Emitted(WithDefaults(cfg), updates));
  }

  // ----- and the router -----

  /** One submission, with the kill switch and the day's result as they are at that moment. */
  datatype Handed = Handed(submission: Submission, kill: Kill, dayPnL: real)

  function LedgerAfter(cfg: LiveConfig, handed: seq<Handed>): Ledger {
    if |handed| == 0 then EMPTY_LEDGER
    else
      var h := handed[|handed| - 1];
      Settle(cfg, LedgerAfter(cfg, handed[..|handed| - 1]).(dayPnL := h.dayPnL), h.kill, h.submission)
  }

  lemma {:induction false} SeenWereHanded(cfg: LiveConfig, handed: seq<Handed>, key: string)
    requires key in LedgerAfter(cfg, handed).seenKeys
    ensures exists i :: 0 <= i < |handed| && handed[i].submission.order.key == key
  {
    if |handed| > 0 {
      var n := |handed| - 1;
      if handed[n].submission.order.key != key {
        SeenWereHanded(cfg, handed[..n], key);
        var i :| 0 <= i < n && handed[..n][i].submission.order.key == key;
        assert handed[i].submission.order.key == key;
      }
    }
  }

  ghost predicate DistinctHanded(handed: seq<Handed>) {
    forall i, j :: 0 <= i < j < |handed| ==>
                     handed[i].submission.order.key != handed[j].submission.order.key
  }

  lemma DistinctNeverDuplicate(live: LiveConfig, handed: seq<Handed>, k: nat)
    requires DistinctHanded(handed) && k < |handed|
    ensures handed[k].submission.order.key !in LedgerAfter(live, handed[..k]).seenKeys
  {
    var earlier, key := handed[..k], handed[k].submission.order.key;
    forall i | 0 <= i < |earlier|
      ensures earlier[i].submission.order.key != key
    {
      assert earlier[i] == handed[i];
    }
    if key in LedgerAfter(live, earlier).seenKeys {
      SeenWereHanded(live, earlier, key);
      assert false;
    }
  }

  /** Orders made from different signals of a run, each for the signal's own asset or a market of the
      configuration: the key names the order's market. */
  ghost predicate OrdersOf(signals: seq<Signal>, handed: seq<Handed>, which: seq<nat>) {
    && |which| == |handed| && NoDup(which)
    && (forall i :: 0 <= i < |handed| ==>
          which[i] < |signals| && OrderOf(signals[which[i]], handed[i].submission.order))
  }

  predicate OrderOf(signal: Signal, order: LiveOrder) {
    order.key == LiveOrderKey(signal.id, order.market)
  }

  lemma OrdersAreDistinct(signals: seq<Signal>, handed: seq<Handed>, which: seq<nat>)
    requires DistinctOrderKeys(signals) && OrdersOf(signals, handed, which)
    ensures DistinctHanded(handed)
  {
    forall i, j | 0 <= i < j < |handed|
      ensures handed[i].submission.order.key != handed[j].submission.order.key
    {
      var a, b := which[i], which[j];
      var m, n := handed[i].submission.order.market, handed[j].submission.order.market;
      assert a != b;
      if a < b {
        assert LiveOrderKey(signals[a].id, m) != LiveOrderKey(signals[b].id, n);
      } else {
        assert LiveOrderKey(signals[b].id, n) != LiveOrderKey(signals[a].id, m);
      }
    }
  }

  /** No order made from a rank-shift signal ever meets its own key in the router. */
  lemma SignalNeverDuplicate(cfg: Config, updates: seq<Update>, live: LiveConfig, handed: seq<Handed>,
                             which: seq<nat>, k: nat)
    requires cfg.cooldown < TWO_63 && NanoClock(updates) && k < |handed|
    requires OrdersOf(Emitted(WithDefaults(cfg), updates), handed, which)
    ensures handed[k].submission.order.key !in LedgerAfter(live, handed[..k]).seenKeys
  {
    SignalsHaveDistinctKeys(cfg, updates);
    OrdersAreDistinct(Emitted(WithDefaults(cfg), updates), handed, which);
    DistinctNeverDuplicate(live, handed, k);
  }
}
