/** The guarded live router and its kill switch
    (internal/execution/live_router.go, internal/execution/kill_switch.go). */
module LiveRouting {

  datatype LiveOrder = LiveOrder(key: string, market: string, country: string, notional: real)

  /** Go's nil or empty maps are empty collections here. The compliance hook is arbitrary code: each
      submission carries its answer. */
  datatype LiveConfig = LiveConfig(
    whitelist: set<string>,
    marketCluster: map<string, string>,
    clusterCap: map<string, real>,
    marketCap: real,
    staleCutoff: int,
    dailyLossCap: real,
    countries: set<string>)

  datatype Submission = Submission(order: LiveOrder, age: int, complies: bool)

  datatype Kill = Kill(triggered: bool, reason: string)

  datatype Ledger = Ledger(
    exposure: map<string, real>,
    clusterExposure: map<string, real>,
    seenKeys: set<string>,
    dayPnL: real)

  datatype Verdict = Accepted | Rejected(reason: string)

  const EMPTY_LEDGER := Ledger(map[], map[], {}, 0.0)

  function Lookup(m: map<string, real>, k: string): real {
    if k in m then m[k] else 0.0
  }

  function Cluster(cfg: LiveConfig, market: string): string {
    if market in cfg.marketCluster && cfg.marketCluster[market] != "" then cfg.marketCluster[market] else market
  }

  predicate Breached(cfg: LiveConfig, dayPnL: real) {
    cfg.dailyLossCap > 0.0 && -dayPnL > cfg.dailyLossCap
  }

  predicate WellFormed(order: LiveOrder) {
    order.key != "" && order.market != "" && order.country != "" && order.notional > 0.0
  }

  predicate CountryAllowed(cfg: LiveConfig, country: string) {
    cfg.countries == {} || country in cfg.countries
  }

  predicate Stale(cfg: LiveConfig, age: int) {
    cfg.staleCutoff > 0 && age > cfg.staleCutoff
  }

  predicate OverMarketCap(cfg: LiveConfig, ledger: Ledger, order: LiveOrder) {
    cfg.marketCap > 0.0 && Lookup(ledger.exposure, order.market) + order.notional > cfg.marketCap
  }

  predicate OverClusterCap(cfg: LiveConfig, ledger: Ledger, order: LiveOrder) {
    var c := Cluster(cfg, order.market);
    c in cfg.clusterCap && cfg.clusterCap[c] > 0.0
    && Lookup(ledger.clusterExposure, c) + order.notional > cfg.clusterCap[c]
  }

  /** The gates in the order the router tries them; the first that fails names the reason. */
  function Decide(cfg: LiveConfig, ledger: Ledger, kill: Kill, s: Submission): Verdict {
    if kill.triggered then Rejected(if kill.reason == "" then "kill_switch" else kill.reason)
    else if Breached(cfg, ledger.dayPnL) then Rejected("daily_loss_cap")
    else if !WellFormed(s.order) then Rejected("invalid_live_order")
    else if s.order.market !in cfg.whitelist then Rejected("market_not_whitelisted")
    else if !CountryAllowed(cfg, s.order.country) then Rejected("geoblock_compliance")
    else if !s.complies then Rejected("compliance_failed")
    else if Stale(cfg, s.age) then Rejected("stale_data_cutoff")
    else if s.order.key in ledger.seenKeys then Rejected("duplicate_order_key")
    else if OverMarketCap(cfg, ledger, s.order) then Rejected("market_exposure_cap")
    else if OverClusterCap(cfg, ledger, s.order) then Rejected("cluster_exposure_cap")
    else Accepted
  }

  /** The bookings of an accepted order. */
  function Book(cfg: LiveConfig, ledger: Ledger, order: LiveOrder): Ledger {
    var c := Cluster(cfg, order.market);
    Ledger(ledger.exposure[order.market := Lookup(ledger.exposure, order.market) + order.notional],
           ledger.clusterExposure[c := Lookup(ledger.clusterExposure, c) + order.notional],
           ledger.seenKeys + {order.key},
           ledger.dayPnL)
  }

  function Settle(cfg: LiveConfig, ledger: Ledger, kill: Kill, s: Submission): Ledger {
    if Decide(cfg, ledger, kill, s) == Accepted then Book(cfg, ledger, s.order) else ledger
  }

  // ----- what the ledgers mean -----

  /** The notional of the orders for one market. */
  function Notional(orders: seq<LiveOrder>, market: string): real {
    if orders == [] then 0.0
    else
      var o := orders[|orders| - 1];
      Notional(orders[..|orders| - 1], market) + if o.market == market then o.notional else 0.0
  }

  ghost function Total(markets: set<string>, exposure: map<string, real>): real {
    if markets == {} then 0.0
    else
      var m :| m in markets;
      Lookup(exposure, m) + Total(markets - {m}, exposure)
  }

  /** A market belongs to the cluster it is mapped to, or to one of its own name if it is unmapped or mapped to the
      empty name. */
  predicate Belongs(cfg: LiveConfig, market: string, c: string) {
    if market in cfg.marketCluster && cfg.marketCluster[market] != "" then cfg.marketCluster[market] == c
    else market == c
  }

  ghost function Members(cfg: LiveConfig, exposure: map<string, real>, c: string): set<string> {
    set m | m in exposure && Belongs(cfg, m, c)
  }

  /** The notional of the orders for the markets of one cluster. */
  function ClusterNotional(cfg: LiveConfig, orders: seq<LiveOrder>, c: string): real {
    if orders == [] then 0.0
    else
      var o := orders[|orders| - 1];
      ClusterNotional(cfg, orders[..|orders| - 1], c) + if Belongs(cfg, o.market, c) then o.notional else 0.0
  }

  ghost predicate MarketsBalanced(ledger: Ledger, accepted: seq<LiveOrder>) {
    forall m :: Lookup(ledger.exposure, m) == Notional(accepted, m)
  }

  ghost predicate ClustersBalanced(cfg: LiveConfig, ledger: Ledger) {
    forall c :: Lookup(ledger.clusterExposure, c) == Total(Members(cfg, ledger.exposure, c), ledger.exposure)
  }

  ghost predicate ClusterBooksBalanced(cfg: LiveConfig, ledger: Ledger, accepted: seq<LiveOrder>) {
    forall c :: Lookup(ledger.clusterExposure, c) == ClusterNotional(cfg, accepted, c)
  }

  ghost predicate DistinctKeys(orders: seq<LiveOrder>) {
    forall i, j :: 0 <= i < j < |orders| ==> orders[i].key != orders[j].key
  }

  ghost predicate KeysBalanced(seen: set<string>, accepted: seq<LiveOrder>) {
    && DistinctKeys(accepted)
    && seen == set o | o in accepted :: o.key
  }

  ghost predicate MarketsWithinCap(cfg: LiveConfig, ledger: Ledger) {
    cfg.marketCap > 0.0 ==> forall m :: Lookup(ledger.exposure, m) <= cfg.marketCap
  }

  ghost predicate ClustersWithinCaps(cfg: LiveConfig, ledger: Ledger) {
    forall c :: c in cfg.clusterCap && cfg.clusterCap[c] > 0.0 ==>
                  Lookup(ledger.clusterExposure, c) <= cfg.clusterCap[c]
  }

  ghost predicate WithinCaps(cfg: LiveConfig, ledger: Ledger) {
    MarketsWithinCap(cfg, ledger) && ClustersWithinCaps(cfg, ledger)
  }

  predicate Admissible(cfg: LiveConfig, order: LiveOrder) {
    WellFormed(order) && order.market in cfg.whitelist && CountryAllowed(cfg, order.country)
  }

  ghost predicate AllAdmissible(cfg: LiveConfig, orders: seq<LiveOrder>) {
    forall i :: 0 <= i < |orders| ==> Admissible(cfg, orders[i])
  }

  /** The ledgers are exactly the books of the accepted orders, and no cap is exceeded. */
  ghost predicate Balanced(cfg: LiveConfig, ledger: Ledger, accepted: seq<LiveOrder>) {
    && MarketsBalanced(ledger, accepted)
    && ClustersBalanced(cfg, ledger)
    && ClusterBooksBalanced(cfg, ledger, accepted)
    && KeysBalanced(ledger.seenKeys, accepted)
    && AllAdmissible(cfg, accepted)
    && WithinCaps(cfg, ledger)
  }

  lemma {:induction false} TotalPick(markets: set<string>, exposure: map<string, real>, m: string)
    requires m in markets
    ensures Total(markets, exposure) == Lookup(exposure, m) + Total(markets - {m}, exposure)
    decreases markets
  {
    var p :| p in markets && Total(markets, exposure) == Lookup(exposure, p) + Total(markets - {p}, exposure);
    if p != m {
      TotalPick(markets - {p}, exposure, m);
      TotalPick(markets - {m}, exposure, p);
      assert markets - {p} - {m} == markets - {m} - {p};
    }
  }

  lemma {:induction false} TotalElsewhere(markets: set<string>, e: map<string, real>, e': map<string, real>)
    requires forall m :: m in markets ==> Lookup(e, m) == Lookup(e', m)
    ensures Total(markets, e) == Total(markets, e')
    decreases markets
  {
    if markets != {} {
      var m :| m in markets;
      TotalPick(markets, e, m);
      TotalPick(markets, e', m);
      TotalElsewhere(markets - {m}, e, e');
    }
  }

  /** Booking an order moves the total of its own cluster by the notional and no other total. */
  lemma TotalAfterBooking(cfg: LiveConfig, e: map<string, real>, market: string, notional: real, c: string)
    ensures var e' := e[market := Lookup(e, market) + notional];
            Total(Members(cfg, e', c), e') ==
            Total(Members(cfg, e, c), e) + if Belongs(cfg, market, c) then notional else 0.0
  {
    var e' := e[market := Lookup(e, market) + notional];
    var before, after := Members(cfg, e, c), Members(cfg, e', c);
    if Belongs(cfg, market, c) {
      TotalPick(after, e', market);
      TotalElsewhere(after - {market}, e, e');
      if market in e {
        assert after == before;
        TotalPick(before, e, market);
      } else {
        assert after - {market} == before;
      }
    } else {
      assert after == before;
      TotalElsewhere(before, e, e');
    }
  }

  lemma MarketsAfterBooking(cfg: LiveConfig, ledger: Ledger, accepted: seq<LiveOrder>, order: LiveOrder)
    requires MarketsBalanced(ledger, accepted)
    ensures MarketsBalanced(Book(cfg, ledger, order), accepted + [order])
  {
    assert (accepted + [order])[..|accepted|] == accepted;
  }

  lemma ClustersAfterBooking(cfg: LiveConfig, ledger: Ledger, order: LiveOrder)
    requires ClustersBalanced(cfg, ledger)
    ensures ClustersBalanced(cfg, Book(cfg, ledger, order))
  {
    forall c
      ensures var next := Book(cfg, ledger, order);
              Lookup(next.clusterExposure, c) == Total(Members(cfg, next.exposure, c), next.exposure)
    {
      TotalAfterBooking(cfg, ledger.exposure, order.market, order.notional, c);
    }
  }

  lemma ClusterBooksAfterBooking(cfg: LiveConfig, ledger: Ledger, accepted: seq<LiveOrder>, order: LiveOrder)
    requires ClusterBooksBalanced(cfg, ledger, accepted)
    ensures ClusterBooksBalanced(cfg, Book(cfg, ledger, order), accepted + [order])
  {
    assert (accepted + [order])[..|accepted|] == accepted;
  }

  lemma KeysAfterBooking(seen: set<string>, accepted: seq<LiveOrder>, order: LiveOrder)
    requires KeysBalanced(seen, accepted) && order.key !in seen
    ensures KeysBalanced(seen + {order.key}, accepted + [order])
  {
    var orders := accepted + [order];
    forall i | 0 <= i < |accepted|
      ensures orders[i].key != order.key
    {
      assert orders[i] in accepted;
    }
    assert order in orders;
    assert forall o :: o in orders <==> o in accepted || o == order;
  }

  lemma CapsAfterBooking(cfg: LiveConfig, ledger: Ledger, order: LiveOrder)
    requires WithinCaps(cfg, ledger)
    ensures WithinCaps(cfg, Book(cfg, ledger, order)) <==>
            !OverMarketCap(cfg, ledger, order) && !OverClusterCap(cfg, ledger, order)
  {
    var next := Book(cfg, ledger, order);
    var cluster := Cluster(cfg, order.market);
    assert Lookup(next.exposure, order.market) == Lookup(ledger.exposure, order.market) + order.notional;
    assert Lookup(next.clusterExposure, cluster) == Lookup(ledger.clusterExposure, cluster) + order.notional;
    forall m | m != order.market
      ensures Lookup(next.exposure, m) == Lookup(ledger.exposure, m)
    {
    }
    forall c | c != cluster
      ensures Lookup(next.clusterExposure, c) == Lookup(ledger.clusterExposure, c)
    {
    }
    assert MarketsWithinCap(cfg, next) <==> !OverMarketCap(cfg, ledger, order);
    assert ClustersWithinCaps(cfg, next) <==> !OverClusterCap(cfg, ledger, order);
  }

  lemma AcceptedIsAdmissible(cfg: LiveConfig, ledger: Ledger, accepted: seq<LiveOrder>, kill: Kill, s: Submission)
    requires AllAdmissible(cfg, accepted) && Decide(cfg, ledger, kill, s) == Accepted
    ensures AllAdmissible(cfg, accepted + [s.order]) && s.order.key !in ledger.seenKeys
    ensures !OverMarketCap(cfg, ledger, s.order) && !OverClusterCap(cfg, ledger, s.order)
  {
  }

  /** An accepted submission keeps the books balanced with the order added. */
  lemma BookingKeepsBalance(cfg: LiveConfig, ledger: Ledger, accepted: seq<LiveOrder>, kill: Kill, s: Submission)
    requires Balanced(cfg, ledger, accepted) && Decide(cfg, ledger, kill, s) == Accepted
    ensures Balanced(cfg, Book(cfg, ledger, s.order), accepted + [s.order])
  {
    AcceptedIsAdmissible(cfg, ledger, accepted, kill, s);
    MarketsAfterBooking(cfg, ledger, accepted, s.order);
    ClustersAfterBooking(cfg, ledger, s.order);
    ClusterBooksAfterBooking(cfg, ledger, accepted, s.order);
    KeysAfterBooking(ledger.seenKeys, accepted, s.order);
    CapsAfterBooking(cfg, ledger, s.order);
  }

  /** What the caps mean for the orders themselves: the accepted notional of no market exceeds the market cap, and
      that of the markets of no capped cluster exceeds the cluster's. */
  ghost predicate OrdersWithinCaps(cfg: LiveConfig, orders: seq<LiveOrder>) {
    && (cfg.marketCap > 0.0 ==> forall m :: Notional(orders, m) <= cfg.marketCap)
    && (forall c :: c in cfg.clusterCap && cfg.clusterCap[c] > 0.0 ==>
                      ClusterNotional(cfg, orders, c) <= cfg.clusterCap[c])
  }

  /** In balanced books a cluster's exposure is the notional of the orders accepted for its markets, and within the
      caps. */
  lemma BooksAreOrders(cfg: LiveConfig, ledger: Ledger, accepted: seq<LiveOrder>)
    requires Balanced(cfg, ledger, accepted)
    ensures forall m :: Lookup(ledger.exposure, m) == Notional(accepted, m)
    ensures forall c :: Lookup(ledger.clusterExposure, c) == ClusterNotional(cfg, accepted, c)
    ensures OrdersWithinCaps(cfg, accepted)
  {
    CapsAreKept(cfg, ledger, accepted);
  }

  lemma CapsAreKept(cfg: LiveConfig, ledger: Ledger, orders: seq<LiveOrder>)
    requires MarketsBalanced(ledger, orders) && ClusterBooksBalanced(cfg, ledger, orders)
    ensures WithinCaps(cfg, ledger) <==> OrdersWithinCaps(cfg, orders)
  {
    if OrdersWithinCaps(cfg, orders) {
      forall c | c in cfg.clusterCap && cfg.clusterCap[c] > 0.0
        ensures Lookup(ledger.clusterExposure, c) <= cfg.clusterCap[c]
      {
        assert ClusterNotional(cfg, orders, c) <= cfg.clusterCap[c];
      }
      forall m | cfg.marketCap > 0.0
        ensures Lookup(ledger.exposure, m) <= cfg.marketCap
      {
        assert Notional(orders, m) <= cfg.marketCap;
      }
    }
  }

  /** The gates without their order, over the orders accepted so far: when exactly a submission is accepted. */
  lemma AcceptedExactlyWhen(cfg: LiveConfig, ledger: Ledger, accepted: seq<LiveOrder>, kill: Kill, s: Submission)
    requires Balanced(cfg, ledger, accepted)
    ensures Decide(cfg, ledger, kill, s) == Accepted <==>
            && !kill.triggered && !(cfg.dailyLossCap > 0.0 && -ledger.dayPnL > cfg.dailyLossCap)
            && s.order.key != "" && s.order.market != "" && s.order.country != "" && s.order.notional > 0.0
            && s.order.market in cfg.whitelist && (|cfg.countries| > 0 ==> s.order.country in cfg.countries)
            && s.complies && !(cfg.staleCutoff > 0 && s.age > cfg.staleCutoff)
            && (forall o :: o in accepted ==> o.key != s.order.key)
            && OrdersWithinCaps(cfg, accepted + [s.order])
  {
    CapsAfterBooking(cfg, ledger, s.order);
    KeyUnused(ledger.seenKeys, accepted, s.order.key);
    MarketsAfterBooking(cfg, ledger, accepted, s.order);
    ClusterBooksAfterBooking(cfg, ledger, accepted, s.order);
    CapsAreKept(cfg, Book(cfg, ledger, s.order), accepted + [s.order]);
  }

  /** A condition a submission has to meet, and the reason for its rejection if it is the first it fails. */
  datatype Gate = Gate(open: bool, reason: string)

  ghost function Gates(cfg: LiveConfig, accepted: seq<LiveOrder>, dayPnL: real, kill: Kill, s: Submission): seq<Gate> {
    var o := s.order;
    [Gate(!kill.triggered, if |kill.reason| > 0 then kill.reason else "kill_switch"),
     Gate(cfg.dailyLossCap <= 0.0 || dayPnL >= -cfg.dailyLossCap, "daily_loss_cap"),
     Gate("" !in {o.key, o.market, o.country} && o.notional > 0.0, "invalid_live_order"),
     Gate(o.market in cfg.whitelist, "market_not_whitelisted"),
     Gate(cfg.countries == {} || o.country in cfg.countries, "geoblock_compliance"),
     Gate(s.complies, "compliance_failed"),
     Gate(cfg.staleCutoff <= 0 || s.age <= cfg.staleCutoff, "stale_data_cutoff"),
     Gate(forall p :: p in accepted ==> p.key != o.key, "duplicate_order_key"),
     Gate(cfg.marketCap <= 0.0 || Notional(accepted + [o], o.market) <= cfg.marketCap, "market_exposure_cap"),
     Gate(forall c :: c in cfg.clusterCap && cfg.clusterCap[c] > 0.0 ==>
                        ClusterNotional(cfg, accepted + [o], c) <= cfg.clusterCap[c],
          "cluster_exposure_cap")]
  }

  lemma GatesAreChecks(cfg: LiveConfig, ledger: Ledger, accepted: seq<LiveOrder>, kill: Kill, s: Submission)
    requires Balanced(cfg, ledger, accepted)
    ensures var gates := Gates(cfg, accepted, ledger.dayPnL, kill, s);
            && gates[0].open == !kill.triggered && gates[1].open == !Breached(cfg, ledger.dayPnL)
            && gates[2].open == WellFormed(s.order) && gates[3].open == (s.order.market in cfg.whitelist)
            && gates[4].open == CountryAllowed(cfg, s.order.country) && gates[5].open == s.complies
            && gates[6].open == !Stale(cfg, s.age) && gates[7].open == (s.order.key !in ledger.seenKeys)
            && gates[8].open == !OverMarketCap(cfg, ledger, s.order)
            && gates[9].open == !OverClusterCap(cfg, ledger, s.order)
  {
    KeyUnused(ledger.seenKeys, accepted, s.order.key);
    OnlyOwnClusterMoves(cfg, ledger, accepted, s.order);
  }

  /** A rejection names the first condition that fails. */
  lemma FirstClosedGateNames(cfg: LiveConfig, ledger: Ledger, accepted: seq<LiveOrder>, kill: Kill, s: Submission,
                             i: nat)
    requires Balanced(cfg, ledger, accepted)
    requires var gates := Gates(cfg, accepted, ledger.dayPnL, kill, s);
             i < |gates| && !gates[i].open && forall j :: 0 <= j < i ==> gates[j].open
    ensures Decide(cfg, ledger, kill, s) == Rejected(Gates(cfg, accepted, ledger.dayPnL, kill, s)[i].reason)
  {
    GatesAreChecks(cfg, ledger, accepted, kill, s);
  }

  lemma OnlyOwnClusterMoves(cfg: LiveConfig, ledger: Ledger, accepted: seq<LiveOrder>, order: LiveOrder)
    requires Balanced(cfg, ledger, accepted)
    ensures OverClusterCap(cfg, ledger, order) <==>
            exists c :: c in cfg.clusterCap && cfg.clusterCap[c] > 0.0
                        && ClusterNotional(cfg, accepted + [order], c) > cfg.clusterCap[c]
    ensures OverMarketCap(cfg, ledger, order) <==>
            cfg.marketCap > 0.0 && Notional(accepted + [order], order.market) > cfg.marketCap
  {
    var orders, own := accepted + [order], Cluster(cfg, order.market);
    assert orders[..|accepted|] == accepted;
    assert ClusterNotional(cfg, orders, own) == Lookup(ledger.clusterExposure, own) + order.notional;
    assert Notional(orders, order.market) == Lookup(ledger.exposure, order.market) + order.notional;
    forall c | c != own
      ensures ClusterNotional(cfg, orders, c) == Lookup(ledger.clusterExposure, c)
    {
    }
  }

  lemma KeyUnused(seen: set<string>, accepted: seq<LiveOrder>, key: string)
    requires KeysBalanced(seen, accepted)
    ensures key !in seen <==> forall o :: o in accepted ==> o.key != key
  {
    if key in seen {
      var o :| o in accepted && o.key == key;
    } else {
      forall o | o in accepted
        ensures o.key != key
      {
        assert o.key in seen;
      }
    }
  }

  lemma EmptyIsBalanced(cfg: LiveConfig)
    ensures Balanced(cfg, EMPTY_LEDGER, [])
  {
    forall c
      ensures Total(Members(cfg, map[], c), map[]) == 0.0
    {
      assert Members(cfg, map[], c) == {};
    }
    assert ClusterBooksBalanced(cfg, EMPTY_LEDGER, []);
  }

  class KillSwitch {
    var triggered: bool
    var reason: string

    ghost function State(): Kill
      reads this
    {
      Kill(triggered, reason)
    }

    constructor ()
      ensures State() == Kill(false, "")
    {
      triggered, reason := false, "";
    }

    method Trigger(why: string)
      modifies this
      ensures State() == Kill(true, why)
    {
      triggered := true;
      reason := why;
    }

    method Reset()
      modifies this
      ensures State() == Kill(false, "")
    {
      triggered := false;
      reason := "";
    }

    method Active() returns (active: bool, why: string)
      ensures Kill(active, why) == State()
    {
      return triggered, reason;
    }
  }

  class LiveRouter {
    const cfg: LiveConfig
    const kill: KillSwitch
    var seenKeys: set<string>
    var exposure: map<string, real>
    var clusterExposure: map<string, real>
    var dayPnL: real
    ghost var accepted: seq<LiveOrder>

    ghost function Books(): Ledger
      reads this
    {
      Ledger(exposure, clusterExposure, seenKeys, dayPnL)
    }

    ghost predicate Valid()
      reads this
    {
      Balanced(cfg, Books(), accepted)
    }

    constructor (config: LiveConfig)
      ensures Valid() && cfg == config && Books() == EMPTY_LEDGER && accepted == []
      ensures fresh(kill) && kill.State() == Kill(false, "")
    {
      cfg := config;
      kill := new KillSwitch();
      seenKeys, exposure, clusterExposure, dayPnL, accepted := {}, map[], map[], 0.0, [];
      new;
      EmptyIsBalanced(config);
    }

    method ClusterOf(market: string) returns (cluster: string)
      ensures cluster == Cluster(cfg, market)
    {
      cluster := market;
      if market in cfg.marketCluster && cfg.marketCluster[market] != "" {
        cluster := cfg.marketCluster[market];
      }
    }

    /** The gates of Submit, in its order. */
    method Screen(order: LiveOrder, dataAge: int, complies: bool) returns (verdict: Verdict)
      ensures verdict == Decide(cfg, Books(), kill.State(), Submission(order, dataAge, complies))
    {
      var active, reason := kill.Active();
      if active {
        if reason == "" {
          reason := "kill_switch";
        }
        return Rejected(reason);
      }
      if cfg.dailyLossCap > 0.0 && -dayPnL > cfg.dailyLossCap {
        return Rejected("daily_loss_cap");
      }
      if order.key == "" || order.market == "" || order.country == "" || order.notional <= 0.0 {
        return Rejected("invalid_live_order");
      }
      if order.market !in cfg.whitelist {
        return Rejected("market_not_whitelisted");
      }
      if |cfg.countries| > 0 && order.country !in cfg.countries {
        return Rejected("geoblock_compliance");
      }
      if !complies {
        return Rejected("compliance_failed");
      }
      if cfg.staleCutoff > 0 && dataAge > cfg.staleCutoff {
        return Rejected("stale_data_cutoff");
      }
      if order.key in seenKeys {
        return Rejected("duplicate_order_key");
      }
      if cfg.marketCap > 0.0 && Lookup(exposure, order.market) + order.notional > cfg.marketCap {
        return Rejected("market_exposure_cap");
      }
      var cluster := ClusterOf(order.market);
      var next := Lookup(clusterExposure, cluster) + order.notional;
      if cluster in cfg.clusterCap && cfg.clusterCap[cluster] > 0.0 && next > cfg.clusterCap[cluster] {
        return Rejected("cluster_exposure_cap");
      }
      return Accepted;
    }

    method Submit(order: LiveOrder, dataAge: int, complies: bool) returns (verdict: Verdict)
      requires Valid()
      modifies this
      ensures Valid()
      ensures verdict == Decide(cfg, old(Books()), kill.State(), Submission(order, dataAge, complies))
      ensures Books() == if verdict == Accepted then Book(cfg, old(Books()), order) else old(Books())
      ensures accepted == if verdict == Accepted then old(accepted) + [order] else old(accepted)
    {
      verdict := Screen(order, dataAge, complies);
      if verdict == Accepted {
        BookingKeepsBalance(cfg, Books(), accepted, kill.State(), Submission(order, dataAge, complies));
        Record(order);
      }
    }

    /** The bookings at the end of Submit. */
    method Record(order: LiveOrder)
      modifies this
      ensures Books() == Book(cfg, old(Books()), order) && accepted == old(accepted) + [order]
    {
      var cluster := ClusterOf(order.market);
      exposure := exposure[order.market := Lookup(exposure, order.market) + order.notional];
      clusterExposure := clusterExposure[cluster := Lookup(clusterExposure, cluster) + order.notional];
      seenKeys := seenKeys + {order.key};
      accepted := accepted + [order];
    }

    /** The part of RecordPnL that runs under the router's lock. */
    method AddPnL(pnl: real) returns (exceeded: bool)
      requires Valid()
      modifies this
      ensures Valid() && accepted == old(accepted)
      ensures Books() == old(Books()).(dayPnL := old(dayPnL) + pnl)
      ensures exceeded == Breached(cfg, dayPnL)
    {
      dayPnL := dayPnL + pnl;
      exceeded := cfg.dailyLossCap > 0.0 && -dayPnL > cfg.dailyLossCap;
    }

    /** The whole of RecordPnL when nothing runs between its two steps. */
    method RecordPnL(pnl: real)
      requires Valid()
      modifies this, kill
      ensures Valid() && accepted == old(accepted)
      ensures Books() == old(Books()).(dayPnL := old(dayPnL) + pnl)
      ensures kill.State() == if Breached(cfg, dayPnL) then Kill(true, "daily_loss_cap") else old(kill.State())
    {
      var exceeded := AddPnL(pnl);
      if exceeded {
        kill.Trigger("daily_loss_cap");
      }
    }
  }
}
