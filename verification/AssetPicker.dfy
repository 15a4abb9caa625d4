/** Market selection (internal/assetpicker/selector.go). */
module AssetPicker {
  import opened OrderStatistics
  import opened Sequences
  import opened Sorting
  import opened Percentiles
  import opened Text
  import opened Tokens

  datatype MarketSnapshot = MarketSnapshot(
    id: string,
    question: string,
    category: string,
    volume: real,
    liquidity: real,
    tokenIDs: seq<string>)

  datatype SelectionConfig = SelectionConfig(
    coreCategories: seq<string>,
    coreTop: real,
    otherTop: real,
    maxMarkets: int)

  datatype Candidate = Candidate(
    id: string,
    question: string,
    category: string,
    tier: string,
    volume: real,
    liquidity: real,
    volumeRank: real,
    liquidityRank: real,
    score: real,
    tokenIDs: seq<string>,
    marketTop: real,
    volumeFloor: real,
    liquidityFloor: real)

  // ----- token ids -----

  function AllTokens(candidates: seq<Candidate>): seq<string> {
    if |candidates| == 0 then []
    else AllTokens(candidates[..|candidates| - 1]) + candidates[|candidates| - 1].tokenIDs
  }

  function TokensFrom(candidates: seq<Candidate>, c: nat): seq<string>
    requires c <= |candidates|
    decreases |candidates| - c
  {
    if c == |candidates| then [] else candidates[c].tokenIDs + TokensFrom(candidates, c + 1)
  }

  lemma AllTokensStep(candidates: seq<Candidate>, c: nat)
    requires c < |candidates|
    ensures AllTokens(candidates[..c + 1]) == AllTokens(candidates[..c]) + candidates[c].tokenIDs
  {
    assert candidates[..c + 1][..c] == candidates[..c];
  }

  lemma {:induction false} AllTokensSplit(candidates: seq<Candidate>, c: nat)
    requires c <= |candidates|
    ensures AllTokens(candidates) == AllTokens(candidates[..c]) + TokensFrom(candidates, c)
    decreases |candidates| - c
  {
    if c == |candidates| {
      assert candidates[..c] == candidates;
    } else {
      AllTokensSplit(candidates, c + 1);
      AllTokensStep(candidates, c);
      Associate(AllTokens(candidates[..c]), candidates[c].tokenIDs, TokensFrom(candidates, c + 1));
    }
  }

  function FirstOf<T>(s: seq<T>, n: nat): seq<T> {
    if n < |s| then s[..n] else s
  }

  function AssetIDs(candidates: seq<Candidate>): seq<string> {
    Distinct(AllTokens(candidates), Trimming())
  }

  lemma TokensSoFar(candidates: seq<Candidate>, c: nat, taken: nat)
    requires c < |candidates| && taken <= |candidates[c].tokenIDs|
    ensures Distinct(AllTokens(candidates[..c]) + candidates[c].tokenIDs[..taken], Trimming()) <= AssetIDs(candidates)
  {
    var some, tokens := AllTokens(candidates[..c]) + candidates[c].tokenIDs[..taken], candidates[c].tokenIDs;
    var more := tokens[taken..] + TokensFrom(candidates, c + 1);
    AllTokensSplit(candidates, c + 1);
    AllTokensStep(candidates, c);
    assert tokens == tokens[..taken] + tokens[taken..];
    assert AllTokens(candidates) == some + more;
    DistinctGrow(some, more, Trimming());
  }

  lemma FirstOfPrefix<T>(s: seq<T>, t: seq<T>)
    requires s <= t
    ensures FirstOf(t, |s|) == s
  {
  }

  /** The cap k > 0 keeps the first k of the duplicate-free tokens, a negative one all, and 0 none. */
  method BuildPOLYAssetIDs(candidates: seq<Candidate>, maxIDs: int) returns (assetIDs: seq<string>)
    ensures assetIDs == if maxIDs < 0 then AssetIDs(candidates) else FirstOf(AssetIDs(candidates), maxIDs)
  {
    assetIDs := [];
    if maxIDs == 0 {
      return;
    }
    var seen := {};
    for c := 0 to |candidates|
      invariant Collects(assetIDs, seen, AllTokens(candidates[..c]))
      invariant maxIDs > 0 ==> |assetIDs| < maxIDs
    {
      var full;
      ghost var taken;
      assetIDs, seen, full, taken :=
        AddTokens(AllTokens(candidates[..c]), candidates[c].tokenIDs, assetIDs, seen, maxIDs);
      if full {
        TokensSoFar(candidates, c, taken);
        FirstOfPrefix(assetIDs, AssetIDs(candidates));
        return;
      }
      AllTokensStep(candidates, c);
      assert candidates[c].tokenIDs[..taken] == candidates[c].tokenIDs;
    }
    assert candidates[..|candidates|] == candidates;
  }

  /** Without a cap or with one, the ids are distinct, and exactly the trimmed, non-empty tokens of the candidates. */
  lemma AssetIDsAreDistinctTokens(candidates: seq<Candidate>, t: string)
    ensures NoDup(AssetIDs(candidates))
    ensures t in AssetIDs(candidates) <==>
            t != "" && exists c, u :: c in candidates && u in c.tokenIDs && TrimSpace(u) == t
  {
    var all := AllTokens(candidates);
    DistinctNoDup(all, Trimming());
    TrimmedMembers(all);
    AllTokensMembers(candidates);
    if c, u :| c in candidates && u in c.tokenIDs && TrimSpace(u) == t {
      assert u in all;
    }
  }

  lemma {:induction false} AllTokensMembers(candidates: seq<Candidate>)
    ensures forall u :: u in AllTokens(candidates) <==> exists c :: c in candidates && u in c.tokenIDs
  {
    if |candidates| > 0 {
      var n := |candidates| - 1;
      AllTokensMembers(candidates[..n]);
      assert candidates == candidates[..n] + [candidates[n]];
    }
  }

  // ----- selection -----

  function NormalizeCategory(category: string): string {
    ToLower(TrimSpace(category))
  }

  function CoreSet(categories: seq<string>): set<string> {
    set i | 0 <= i < |categories| && |NormalizeCategory(categories[i])| > 0 :: NormalizeCategory(categories[i])
  }

  /** What a configuration asks of core markets and of the others. */
  datatype Tiers = Tiers(core: set<string>, coreTop: real, otherTop: real)

  function WithDefaults(cfg: SelectionConfig): SelectionConfig {
    SelectionConfig(
      if |cfg.coreCategories| == 0 then ["Sports", "Soccer", "Politics"] else cfg.coreCategories,
      if cfg.coreTop <= 0.0 || cfg.coreTop > 1.0 then 0.30 else cfg.coreTop,
      if cfg.otherTop <= 0.0 || cfg.otherTop > 1.0 then 0.10 else cfg.otherTop,
      cfg.maxMarkets)
  }

  function TiersOf(cfg: SelectionConfig): Tiers {
    var config := WithDefaults(cfg);
    Tiers(CoreSet(config.coreCategories), config.coreTop, config.otherTop)
  }

  predicate IsCore(tiers: Tiers, category: string) {
    NormalizeCategory(category) in tiers.core
  }

  /** A market with positive volume and liquidity and at least one token, its tokens normalised. */
  function Admit(m: MarketSnapshot): Option<MarketSnapshot> {
    if m.volume <= 0.0 || m.liquidity <= 0.0 || |Distinct(m.tokenIDs, Trimming())| == 0 then None
    else Some(m.(tokenIDs := Distinct(m.tokenIDs, Trimming())))
  }

  function Admitting(): MarketSnapshot -> Option<MarketSnapshot> { (m: MarketSnapshot) => Admit(m) }

  function VolumeOf(): MarketSnapshot -> real { (m: MarketSnapshot) => m.volume }

  function LiquidityOf(): MarketSnapshot -> real { (m: MarketSnapshot) => m.liquidity }

  function Top(tiers: Tiers, m: MarketSnapshot): real {
    if IsCore(tiers, m.category) then tiers.coreTop else tiers.otherTop
  }

  /** Where a market stands among the valid ones when the top `top` of them is asked for. */
  datatype Standing = Standing(volumeRank: real, liquidityRank: real, volumeFloor: real, liquidityFloor: real)

  function StandingOf(volumes: seq<real>, liquidities: seq<real>, m: MarketSnapshot, top: real): Standing {
    Standing(PercentileRank(volumes, m.volume), PercentileRank(liquidities, m.liquidity),
             PercentileFloor(volumes, 1.0 - top), PercentileFloor(liquidities, 1.0 - top))
  }

  function Judge(m: MarketSnapshot, core: bool, top: real, s: Standing): Option<Candidate> {
    if m.volume < s.volumeFloor || m.liquidity < s.liquidityFloor then None
    else
      Some(Candidate(m.id, m.question, m.category, if core then "tier1" else "tier3", m.volume, m.liquidity,
                     s.volumeRank, s.liquidityRank, s.volumeRank + s.liquidityRank, m.tokenIDs,
                     top, s.volumeFloor, s.liquidityFloor))
  }

  function Qualify(tiers: Tiers, volumes: seq<real>, liquidities: seq<real>): MarketSnapshot -> Option<Candidate> {
    (m: MarketSnapshot) =>
      Judge(m, IsCore(tiers, m.category), Top(tiers, m), StandingOf(volumes, liquidities, m, Top(tiers, m)))
  }

  function Qualified(tiers: Tiers, valid: seq<MarketSnapshot>): seq<Candidate> {
    FilterMap(valid, Qualify(tiers, Map(valid, VolumeOf()), Map(valid, LiquidityOf())))
  }

  /** Score, volume and liquidity downwards, then id upwards. */
  predicate Better(x: Candidate, y: Candidate) {
    if x.score != y.score then x.score > y.score
    else if x.volume != y.volume then x.volume > y.volume
    else if x.liquidity != y.liquidity then x.liquidity > y.liquidity
    else StringLess(x.id, y.id)
  }

  function ByRank(): (Candidate, Candidate) -> bool { (x: Candidate, y: Candidate) => Better(x, y) }

  lemma ByRankStrictWeak()
    ensures StrictWeak(ByRank())
  {
    forall x, y
      ensures ByRank()(x, y) ==> !ByRank()(y, x)
    {
      StringLessAsymmetric(x.id, y.id);
    }
    forall x, y, z | ByRank()(x, z)
      ensures ByRank()(x, y) || ByRank()(y, z)
    {
      if StringLess(x.id, z.id) {
        StringLessSplits(x.id, y.id, z.id);
      }
    }
  }

  lemma UnrankedHaveSameID(x: Candidate, y: Candidate)
    requires !ByRank()(x, y) && !ByRank()(y, x)
    ensures x.id == y.id
  {
    StringLessTotal(x.id, y.id);
  }

  function Capped(sorted: seq<Candidate>, maxMarkets: int): seq<Candidate> {
    if maxMarkets > 0 then FirstOf(sorted, maxMarkets) else sorted
  }

  /** The candidates among the markets, in the markets' order. */
  function CandidatesOf(tiers: Tiers, markets: seq<MarketSnapshot>): seq<Candidate> {
    Qualified(tiers, FilterMap(markets, Admitting()))
  }

  /** What a selection returns: the candidates stably sorted by rank, then capped. */
  ghost predicate IsSelection(markets: seq<MarketSnapshot>, cfg: SelectionConfig, r: seq<Candidate>) {
    exists sorted :: IsStableSortOf(sorted, CandidatesOf(TiersOf(cfg), markets), ByRank())
                     && r == Capped(sorted, cfg.maxMarkets)
  }

  lemma TopInRange(cfg: SelectionConfig, m: MarketSnapshot)
    ensures 0.0 < Top(TiersOf(cfg), m) <= 1.0
  {
  }

  lemma JudgedByRank(volumes: seq<real>, liquidities: seq<real>, m: MarketSnapshot, core: bool, top: real)
    requires volumes != [] && liquidities != [] && 0.0 < top <= 1.0
    ensures Judge(m, core, top, StandingOf(volumes, liquidities, m, top)).Some? <==>
            PercentileRank(volumes, m.volume) > 1.0 - top && PercentileRank(liquidities, m.liquidity) > 1.0 - top
  {
    FloorIsRankCut(volumes, top, m.volume);
    FloorIsRankCut(liquidities, top, m.liquidity);
  }

  /** A valid market becomes a candidate exactly when both its counting ranks exceed 1 - top. */
  lemma QualifiesByRank(cfg: SelectionConfig, valid: seq<MarketSnapshot>, m: MarketSnapshot)
    requires valid != []
    ensures var volumes, liquidities, top := Map(valid, VolumeOf()), Map(valid, LiquidityOf()), Top(TiersOf(cfg), m);
            Qualify(TiersOf(cfg), volumes, liquidities)(m).Some? <==>
            PercentileRank(volumes, m.volume) > 1.0 - top && PercentileRank(liquidities, m.liquidity) > 1.0 - top
  {
    var tiers := TiersOf(cfg);
    TopInRange(cfg, m);
    JudgedByRank(Map(valid, VolumeOf()), Map(valid, LiquidityOf()), m, IsCore(tiers, m.category), Top(tiers, m));
  }

  // ----- the selection does not depend on the order of its input -----

  function MarketID(): MarketSnapshot -> string { (m: MarketSnapshot) => m.id }

  function CandidateID(): Candidate -> string { (c: Candidate) => c.id }

  lemma StandingOfPermutation(v: seq<real>, l: seq<real>, v': seq<real>, l': seq<real>, m: MarketSnapshot, top: real)
    requires multiset(v) == multiset(v') && multiset(l) == multiset(l')
    ensures StandingOf(v, l, m, top) == StandingOf(v', l', m, top)
  {
    FloorOfPermutation(v, v', 1.0 - top);
    FloorOfPermutation(l, l', 1.0 - top);
    RankOfPermutation(v, v', m.volume);
    RankOfPermutation(l, l', m.liquidity);
  }

  lemma QualifiedOfPermutation(tiers: Tiers, valid: seq<MarketSnapshot>, valid': seq<MarketSnapshot>)
    requires multiset(valid) == multiset(valid')
    ensures multiset(Qualified(tiers, valid)) == multiset(Qualified(tiers, valid'))
  {
    var v, l := Map(valid, VolumeOf()), Map(valid, LiquidityOf());
    var v', l' := Map(valid', VolumeOf()), Map(valid', LiquidityOf());
    MapPermutation(valid, valid', VolumeOf());
    MapPermutation(valid, valid', LiquidityOf());
    var f, g := Qualify(tiers, v, l), Qualify(tiers, v', l');
    forall m | m in valid'
      ensures f(m) == g(m)
    {
      StandingOfPermutation(v, l, v', l', m, Top(tiers, m));
    }
    FilterMapPointwise(valid', f, g);
    FilterMapPermutation(valid, valid', f);
  }

  lemma QualifiedKnownByID(markets: seq<MarketSnapshot>, tiers: Tiers)
    requires KnownBy(markets, MarketID())
    ensures KnownBy(CandidatesOf(tiers, markets), CandidateID())
  {
    FilterMapKeepsKey(markets, Admitting(), MarketID(), MarketID());
    var valid := FilterMap(markets, Admitting());
    var qualify := Qualify(tiers, Map(valid, VolumeOf()), Map(valid, LiquidityOf()));
    FilterMapKeepsKey(valid, qualify, MarketID(), CandidateID());
  }

  lemma RankingUnique(s: seq<Candidate>, t: seq<Candidate>, all: seq<Candidate>)
    requires KnownBy(all, CandidateID())
    requires IsSortOf(s, all, ByRank()) && IsSortOf(t, all, ByRank())
    ensures s == t
  {
    ByRankStrictWeak();
    PermutationMembers(s, all);
    forall x, y | x in s && y in s && !ByRank()(x, y) && !ByRank()(y, x)
      ensures x == y
    {
      UnrankedHaveSameID(x, y);
      assert CandidateID()(x) == CandidateID()(y);
    }
    SortUnique(s, t, ByRank());
  }

  lemma CandidatesOfPermutation(markets: seq<MarketSnapshot>, markets': seq<MarketSnapshot>, tiers: Tiers)
    requires multiset(markets) == multiset(markets')
    ensures multiset(CandidatesOf(tiers, markets)) == multiset(CandidatesOf(tiers, markets'))
  {
    FilterMapPermutation(markets, markets', Admitting());
    QualifiedOfPermutation(tiers, FilterMap(markets, Admitting()), FilterMap(markets', Admitting()));
  }

  lemma SelectionsAgree(markets: seq<MarketSnapshot>, markets': seq<MarketSnapshot>, tiers: Tiers,
                        s: seq<Candidate>, t: seq<Candidate>)
    requires KnownBy(markets, MarketID()) && multiset(markets) == multiset(markets')
    requires IsSortOf(s, CandidatesOf(tiers, markets), ByRank())
    requires IsSortOf(t, CandidatesOf(tiers, markets'), ByRank())
    ensures s == t
  {
    CandidatesOfPermutation(markets, markets', tiers);
    QualifiedKnownByID(markets, tiers);
    RankingUnique(s, t, CandidatesOf(tiers, markets));
  }

  lemma SortBehind(markets: seq<MarketSnapshot>, cfg: SelectionConfig, r: seq<Candidate>) returns (s: seq<Candidate>)
    requires IsSelection(markets, cfg, r)
    ensures IsStableSortOf(s, CandidatesOf(TiersOf(cfg), markets), ByRank()) && r == Capped(s, cfg.maxMarkets)
  {
    s :| IsStableSortOf(s, CandidatesOf(TiersOf(cfg), markets), ByRank()) && r == Capped(s, cfg.maxMarkets);
  }

  /** With market ids that identify their markets the selection is the same for every permutation of its
      input. */
  lemma SelectionIgnoresInputOrder(markets: seq<MarketSnapshot>, markets': seq<MarketSnapshot>, cfg: SelectionConfig,
                                   r: seq<Candidate>, r': seq<Candidate>)
    requires KnownBy(markets, MarketID()) && multiset(markets) == multiset(markets')
    requires IsSelection(markets, cfg, r) && IsSelection(markets', cfg, r')
    ensures r == r'
  {
    var s := SortBehind(markets, cfg, r);
    var t := SortBehind(markets', cfg, r');
    SelectionsAgree(markets, markets', TiersOf(cfg), s, t);
  }

  lemma TiersIgnoreCap(cfg: SelectionConfig)
    ensures TiersOf(cfg.(maxMarkets := 0)) == TiersOf(cfg)
  {
  }

  /** A MaxMarkets cap of k > 0 returns the first k of what the uncapped selection returns, for any markets:
      the sort is stable, so it has one outcome. */
  lemma CapGivesPrefix(markets: seq<MarketSnapshot>, cfg: SelectionConfig, r: seq<Candidate>, all: seq<Candidate>)
    requires cfg.maxMarkets > 0
    requires IsSelection(markets, cfg, r) && IsSelection(markets, cfg.(maxMarkets := 0), all)
    ensures r == FirstOf(all, cfg.maxMarkets)
  {
    var s := SortBehind(markets, cfg, r);
    var t := SortBehind(markets, cfg.(maxMarkets := 0), all);
    TiersIgnoreCap(cfg);
    ByRankStrictWeak();
    StableSortUnique(s, t, CandidatesOf(TiersOf(cfg), markets), ByRank());
  }

  // ----- the selection in terms of the markets -----

  ghost predicate Tradable(m: MarketSnapshot) {
    m.volume > 0.0 && m.liquidity > 0.0 && exists t :: t in m.tokenIDs && TrimSpace(t) != ""
  }

  /** The places of the tradable markets, all of them or those up to a volume or a liquidity. */
  ghost function TradablePlaces(markets: seq<MarketSnapshot>): set<int> {
    set i | 0 <= i < |markets| && Tradable(markets[i])
  }

  ghost function VolumeUpTo(markets: seq<MarketSnapshot>, v: real): set<int> {
    set i | 0 <= i < |markets| && Tradable(markets[i]) && markets[i].volume <= v
  }

  ghost function LiquidityUpTo(markets: seq<MarketSnapshot>, v: real): set<int> {
    set i | 0 <= i < |markets| && Tradable(markets[i]) && markets[i].liquidity <= v
  }

  ghost function Share(some: set<int>, all: set<int>): real {
    if |all| == 0 then 0.0 else |some| as real / |all| as real
  }

  ghost function VolumeShare(markets: seq<MarketSnapshot>, v: real): real {
    Share(VolumeUpTo(markets, v), TradablePlaces(markets))
  }

  ghost function LiquidityShare(markets: seq<MarketSnapshot>, v: real): real {
    Share(LiquidityUpTo(markets, v), TradablePlaces(markets))
  }

  /** The market's category is one of the core categories, or of the three there are without a configuration. */
  ghost predicate InCore(cfg: SelectionConfig, m: MarketSnapshot) {
    var categories := if cfg.coreCategories == [] then ["Sports", "Soccer", "Politics"] else cfg.coreCategories;
    ToLower(TrimSpace(m.category)) != ""
    && exists c :: c in categories && ToLower(TrimSpace(c)) == ToLower(TrimSpace(m.category))
  }

  ghost function TopShare(cfg: SelectionConfig, m: MarketSnapshot): real {
    if InCore(cfg, m) then if 0.0 < cfg.coreTop <= 1.0 then cfg.coreTop else 0.30
    else if 0.0 < cfg.otherTop <= 1.0 then cfg.otherTop else 0.10
  }

  /** A tradable market among the top of its tier both by volume and by liquidity. */
  ghost predicate InTop(markets: seq<MarketSnapshot>, cfg: SelectionConfig, m: MarketSnapshot) {
    && Tradable(m)
    && VolumeShare(markets, m.volume) > 1.0 - TopShare(cfg, m)
    && LiquidityShare(markets, m.liquidity) > 1.0 - TopShare(cfg, m)
  }

  /** The two floors separate the top markets from the others. */
  ghost predicate CutsTop(markets: seq<MarketSnapshot>, top: real, volumeFloor: real, liquidityFloor: real) {
    forall m :: m in markets && Tradable(m) ==>
                  && (m.volume >= volumeFloor <==> VolumeShare(markets, m.volume) > 1.0 - top)
                  && (m.liquidity >= liquidityFloor <==> LiquidityShare(markets, m.liquidity) > 1.0 - top)
  }

  /** What the candidate says about its market. */
  ghost predicate Describes(markets: seq<MarketSnapshot>, cfg: SelectionConfig, m: MarketSnapshot, c: Candidate) {
    && c.id == m.id && c.question == m.question && c.category == m.category
    && c.volume == m.volume && c.liquidity == m.liquidity
    && c.tier == (if InCore(cfg, m) then "tier1" else "tier3") && c.marketTop == TopShare(cfg, m)
    && c.volumeRank == VolumeShare(markets, m.volume) && c.liquidityRank == LiquidityShare(markets, m.liquidity)
    && c.score == VolumeShare(markets, m.volume) + LiquidityShare(markets, m.liquidity)
    && CutsTop(markets, TopShare(cfg, m), c.volumeFloor, c.liquidityFloor)
    && TrimmedTokens(m, c.tokenIDs)
  }

  /** The market's tokens, trimmed, without blanks and duplicates. */
  ghost predicate TrimmedTokens(m: MarketSnapshot, tokens: seq<string>) {
    NoDup(tokens) && forall t :: t in tokens <==> t != "" && exists u :: u in m.tokenIDs && TrimSpace(u) == t
  }

  lemma AdmitsTradable(m: MarketSnapshot)
    ensures Admit(m).Some? <==> Tradable(m)
  {
    var tokens := Distinct(m.tokenIDs, Trimming());
    if |tokens| > 0 {
      DistinctMembers(m.tokenIDs, Trimming(), tokens[0]);
    }
    if t :| t in m.tokenIDs && TrimSpace(t) != "" {
      DistinctMembers(m.tokenIDs, Trimming(), TrimSpace(t));
    }
  }

  ghost function IsTradable(): MarketSnapshot -> bool { (m: MarketSnapshot) => Tradable(m) }

  ghost function UpTo(field: MarketSnapshot -> real, v: real): MarketSnapshot -> bool {
    (m: MarketSnapshot) => Tradable(m) && field(m) <= v
  }

  function Within(field: MarketSnapshot -> real, v: real): MarketSnapshot -> bool {
    (m: MarketSnapshot) => field(m) <= v
  }

  lemma ValidCount(markets: seq<MarketSnapshot>)
    ensures |FilterMap(markets, Admitting())| == |TradablePlaces(markets)|
  {
    forall m
      ensures IsTradable()(m) == Admitting()(m).Some?
    {
      AdmitsTradable(m);
    }
    FilterMapLength(markets, Admitting(), IsTradable());
    CountsPlaces(markets, IsTradable());
    assert Places(markets, IsTradable()) == TradablePlaces(markets);
  }

  lemma ValidCountUpTo(markets: seq<MarketSnapshot>, field: MarketSnapshot -> real, v: real)
    requires forall m :: Admit(m).Some? ==> field(Admit(m).value) == field(m)
    ensures var valid := FilterMap(markets, Admitting());
            Count(Map(valid, field), AtMost(v)) == |Places(markets, UpTo(field, v))|
  {
    var valid := FilterMap(markets, Admitting());
    CountPointwise(Map(valid, field), AtMost(v), valid, Within(field, v));
    forall m
      ensures UpTo(field, v)(m) == (Admitting()(m).Some? && Within(field, v)(Admitting()(m).value))
    {
      AdmitsTradable(m);
    }
    CountFiltered(markets, Admitting(), Within(field, v), UpTo(field, v));
    CountsPlaces(markets, UpTo(field, v));
  }

  lemma RanksAreShares(markets: seq<MarketSnapshot>, v: real)
    ensures var valid := FilterMap(markets, Admitting());
            && PercentileRank(Map(valid, VolumeOf()), v) == VolumeShare(markets, v)
            && PercentileRank(Map(valid, LiquidityOf()), v) == LiquidityShare(markets, v)
  {
    ValidCount(markets);
    ValidCountUpTo(markets, VolumeOf(), v);
    ValidCountUpTo(markets, LiquidityOf(), v);
    assert Places(markets, UpTo(VolumeOf(), v)) == VolumeUpTo(markets, v);
    assert Places(markets, UpTo(LiquidityOf(), v)) == LiquidityUpTo(markets, v);
  }

  lemma FloorsCutTop(markets: seq<MarketSnapshot>, top: real)
    requires 0.0 < top <= 1.0
    ensures var valid := FilterMap(markets, Admitting());
            CutsTop(markets, top, PercentileFloor(Map(valid, VolumeOf()), 1.0 - top),
                    PercentileFloor(Map(valid, LiquidityOf()), 1.0 - top))
  {
    var valid := FilterMap(markets, Admitting());
    var volumes, liquidities := Map(valid, VolumeOf()), Map(valid, LiquidityOf());
    forall m | m in markets && Tradable(m)
      ensures m.volume >= PercentileFloor(volumes, 1.0 - top) <==> VolumeShare(markets, m.volume) > 1.0 - top
      ensures m.liquidity >= PercentileFloor(liquidities, 1.0 - top)
              <==> LiquidityShare(markets, m.liquidity) > 1.0 - top
    {
      AdmitsTradable(m);
      AdmittedIsValid(markets, m);
      FloorIsRankCut(volumes, top, m.volume);
      FloorIsRankCut(liquidities, top, m.liquidity);
      RanksAreShares(markets, m.volume);
      RanksAreShares(markets, m.liquidity);
    }
  }

  lemma CoreIsCore(cfg: SelectionConfig, m: MarketSnapshot)
    ensures IsCore(TiersOf(cfg), m.category) <==> InCore(cfg, m)
    ensures Top(TiersOf(cfg), m) == TopShare(cfg, m)
  {
    var categories := WithDefaults(cfg).coreCategories;
    if IsCore(TiersOf(cfg), m.category) {
      var k :| 0 <= k < |categories| && |NormalizeCategory(categories[k])| > 0
               && NormalizeCategory(categories[k]) == NormalizeCategory(m.category);
      assert categories[k] in categories;
    }
    if InCore(cfg, m) {
      var c :| c in categories && ToLower(TrimSpace(c)) == ToLower(TrimSpace(m.category));
      var k :| 0 <= k < |categories| && categories[k] == c;
      assert NormalizeCategory(categories[k]) in TiersOf(cfg).core;
    }
  }

  /** What the picker makes of one market. */
  function Picked(markets: seq<MarketSnapshot>, cfg: SelectionConfig, m: MarketSnapshot): Option<Candidate> {
    var valid := FilterMap(markets, Admitting());
    if Admit(m).None? then None
    else Qualify(TiersOf(cfg), Map(valid, VolumeOf()), Map(valid, LiquidityOf()))(Admit(m).value)
  }

  lemma PickedTokens(m: MarketSnapshot)
    requires Admit(m).Some?
    ensures TrimmedTokens(m, Admit(m).value.tokenIDs)
  {
    DistinctNoDup(m.tokenIDs, Trimming());
    TrimmedMembers(m.tokenIDs);
  }

  /** A market of the input is picked exactly when it is in the top of its tier, ... */
  lemma PickedExactlyWhen(markets: seq<MarketSnapshot>, cfg: SelectionConfig, m: MarketSnapshot)
    requires m in markets
    ensures Picked(markets, cfg, m).Some? <==> InTop(markets, cfg, m)
  {
    AdmitsTradable(m);
    if Admit(m).Some? {
      AdmittedIsValid(markets, m);
      CoreIsCore(cfg, m);
      QualifiesByRank(cfg, FilterMap(markets, Admitting()), Admit(m).value);
      RanksAreShares(markets, m.volume);
      RanksAreShares(markets, m.liquidity);
    }
  }

  /** What a judgement says, ranks and floors being those of some values. */
  ghost predicate Says(c: Candidate, m: MarketSnapshot, tokens: seq<string>, core: bool, top: real, s: Standing) {
    c == Candidate(m.id, m.question, m.category, if core then "tier1" else "tier3", m.volume, m.liquidity,
                   s.volumeRank, s.liquidityRank, s.volumeRank + s.liquidityRank, tokens, top, s.volumeFloor,
                   s.liquidityFloor)
  }

  lemma JudgementSays(m: MarketSnapshot, tokens: seq<string>, core: bool, top: real, s: Standing)
    requires Judge(m.(tokenIDs := tokens), core, top, s).Some?
    ensures Says(Judge(m.(tokenIDs := tokens), core, top, s).value, m, tokens, core, top, s)
  {
  }

  lemma AdmitKeeps(m: MarketSnapshot)
    requires Admit(m).Some?
    ensures Admit(m).value == m.(tokenIDs := Admit(m).value.tokenIDs)
  {
  }

  lemma StandingOfFields(volumes: seq<real>, liquidities: seq<real>, m: MarketSnapshot, n: MarketSnapshot, top: real)
    requires m.volume == n.volume && m.liquidity == n.liquidity
    ensures StandingOf(volumes, liquidities, m, top) == StandingOf(volumes, liquidities, n, top)
  {
  }

  lemma PickedIsJudged(markets: seq<MarketSnapshot>, cfg: SelectionConfig, m: MarketSnapshot)
    requires Picked(markets, cfg, m).Some?
    ensures Admit(m).Some?
    ensures var valid, tiers, top := FilterMap(markets, Admitting()), TiersOf(cfg), Top(TiersOf(cfg), m);
            Says(Picked(markets, cfg, m).value, m, Admit(m).value.tokenIDs, IsCore(tiers, m.category), top,
                 StandingOf(Map(valid, VolumeOf()), Map(valid, LiquidityOf()), m, top))
  {
    var valid, tiers, top := FilterMap(markets, Admitting()), TiersOf(cfg), Top(TiersOf(cfg), m);
    var volumes, liquidities, v := Map(valid, VolumeOf()), Map(valid, LiquidityOf()), Admit(m).value;
    AdmitKeeps(m);
    StandingOfFields(volumes, liquidities, v, m, top);
    assert Picked(markets, cfg, m) ==
           Judge(v, IsCore(tiers, m.category), top, StandingOf(volumes, liquidities, m, top));
    JudgementSays(m, v.tokenIDs, IsCore(tiers, m.category), top, StandingOf(volumes, liquidities, m, top));
  }

  lemma SaysDescribes(markets: seq<MarketSnapshot>, cfg: SelectionConfig, m: MarketSnapshot, c: Candidate,
                      tokens: seq<string>, s: Standing)
    requires Says(c, m, tokens, InCore(cfg, m), TopShare(cfg, m), s) && TrimmedTokens(m, tokens)
    requires s.volumeRank == VolumeShare(markets, m.volume) && s.liquidityRank == LiquidityShare(markets, m.liquidity)
    requires CutsTop(markets, TopShare(cfg, m), s.volumeFloor, s.liquidityFloor)
    ensures Describes(markets, cfg, m, c)
  {
  }

  /** ... and described as it is. */
  lemma PickedIsDescribed(markets: seq<MarketSnapshot>, cfg: SelectionConfig, m: MarketSnapshot)
    requires m in markets && Picked(markets, cfg, m).Some?
    ensures Describes(markets, cfg, m, Picked(markets, cfg, m).value)
  {
    var valid, top := FilterMap(markets, Admitting()), TopShare(cfg, m);
    PickedIsJudged(markets, cfg, m);
    CoreIsCore(cfg, m);
    RanksAreShares(markets, m.volume);
    RanksAreShares(markets, m.liquidity);
    FloorsCutTop(markets, top);
    PickedTokens(m);
    SaysDescribes(markets, cfg, m, Picked(markets, cfg, m).value, Admit(m).value.tokenIDs,
                  StandingOf(Map(valid, VolumeOf()), Map(valid, LiquidityOf()), m, top));
  }

  lemma AdmittedIsValid(markets: seq<MarketSnapshot>, m: MarketSnapshot)
    requires m in markets && Admit(m).Some?
    ensures Admit(m).value in FilterMap(markets, Admitting())
  {
    FilterMapMembers(markets, Admitting());
    assert Admitting()(m) == Some(Admit(m).value);
  }

  ghost function InTopPlaces(markets: seq<MarketSnapshot>, cfg: SelectionConfig): set<int> {
    set i | 0 <= i < |markets| && InTop(markets, cfg, markets[i])
  }

  ghost function IsPicked(markets: seq<MarketSnapshot>, cfg: SelectionConfig): MarketSnapshot -> bool {
    (m: MarketSnapshot) => Picked(markets, cfg, m).Some?
  }

  function Qualifies(qualify: MarketSnapshot -> Option<Candidate>): MarketSnapshot -> bool {
    (m: MarketSnapshot) => qualify(m).Some?
  }

  lemma CandidatesCounted(markets: seq<MarketSnapshot>, cfg: SelectionConfig)
    ensures |CandidatesOf(TiersOf(cfg), markets)| == Count(markets, IsPicked(markets, cfg))
  {
    var valid := FilterMap(markets, Admitting());
    var qualify := Qualify(TiersOf(cfg), Map(valid, VolumeOf()), Map(valid, LiquidityOf()));
    FilterMapLength(valid, qualify, Qualifies(qualify));
    CountFiltered(markets, Admitting(), Qualifies(qualify), IsPicked(markets, cfg));
  }

  lemma CandidateCount(markets: seq<MarketSnapshot>, cfg: SelectionConfig)
    ensures |CandidatesOf(TiersOf(cfg), markets)| == |InTopPlaces(markets, cfg)|
  {
    CandidatesCounted(markets, cfg);
    CountsPlaces(markets, IsPicked(markets, cfg));
    forall i | 0 <= i < |markets|
      ensures IsPicked(markets, cfg)(markets[i]) == InTop(markets, cfg, markets[i])
    {
      PickedExactlyWhen(markets, cfg, markets[i]);
    }
    assert Places(markets, IsPicked(markets, cfg)) == InTopPlaces(markets, cfg);
  }

  lemma CandidateOfMarket(markets: seq<MarketSnapshot>, cfg: SelectionConfig, m: MarketSnapshot)
    requires m in markets && InTop(markets, cfg, m)
    ensures Picked(markets, cfg, m).Some? && Picked(markets, cfg, m).value in CandidatesOf(TiersOf(cfg), markets)
    ensures Describes(markets, cfg, m, Picked(markets, cfg, m).value)
  {
    PickedExactlyWhen(markets, cfg, m);
    PickedIsDescribed(markets, cfg, m);
    AdmittedIsValid(markets, m);
    var valid := FilterMap(markets, Admitting());
    FilterMapMembers(valid, Qualify(TiersOf(cfg), Map(valid, VolumeOf()), Map(valid, LiquidityOf())));
  }

  lemma MarketOfCandidate(markets: seq<MarketSnapshot>, cfg: SelectionConfig, c: Candidate) returns (m: MarketSnapshot)
    requires c in CandidatesOf(TiersOf(cfg), markets)
    ensures m in markets && InTop(markets, cfg, m) && Describes(markets, cfg, m, c)
  {
    var valid := FilterMap(markets, Admitting());
    var qualify := Qualify(TiersOf(cfg), Map(valid, VolumeOf()), Map(valid, LiquidityOf()));
    var v := FilterMapSource(valid, qualify, c);
    m := FilterMapSource(markets, Admitting(), v);
    PickedExactlyWhen(markets, cfg, m);
    PickedIsDescribed(markets, cfg, m);
  }

  /** x may stand before y: a higher score, then more volume, then more liquidity, then no larger id. */
  ghost predicate MayPrecede(x: Candidate, y: Candidate) {
    x.score > y.score
    || (x.score == y.score
        && (x.volume > y.volume
            || (x.volume == y.volume
                && (x.liquidity > y.liquidity || (x.liquidity == y.liquidity && !StringLess(y.id, x.id))))))
  }

  lemma SortedBestFirst(s: seq<Candidate>, i: nat, j: nat)
    requires Sorted(s, ByRank()) && i < j < |s|
    ensures MayPrecede(s[i], s[j])
  {
    assert !ByRank()(s[j], s[i]);
  }

  /** A selection has the best first, and holds markets that are in the top of their tier and nothing else. */
  ghost predicate SelectsTop(markets: seq<MarketSnapshot>, cfg: SelectionConfig, r: seq<Candidate>) {
    && (forall i, j :: 0 <= i < j < |r| ==> MayPrecede(r[i], r[j]))
    && (forall c :: c in r ==> exists m :: m in markets && InTop(markets, cfg, m) && Describes(markets, cfg, m, c))
  }

  /** It holds all of them, or as many as the cap allows, and then those left out score no higher than any kept. */
  ghost predicate SelectsAllOrBest(markets: seq<MarketSnapshot>, cfg: SelectionConfig, r: seq<Candidate>) {
    && |r| == (if 0 < cfg.maxMarkets < |InTopPlaces(markets, cfg)| then cfg.maxMarkets
               else |InTopPlaces(markets, cfg)|)
    && forall m :: m in markets && InTop(markets, cfg, m) ==>
                     (exists c :: c in r && Describes(markets, cfg, m, c))
                     || (|r| == cfg.maxMarkets && forall c :: c in r ==> c.score >= ScoreOf(markets, m))
  }

  ghost function ScoreOf(markets: seq<MarketSnapshot>, m: MarketSnapshot): real {
    VolumeShare(markets, m.volume) + LiquidityShare(markets, m.liquidity)
  }

  lemma CappedMembers(s: seq<Candidate>, cap: int, c: Candidate)
    requires c in s && c !in Capped(s, cap) && Sorted(s, ByRank())
    ensures |Capped(s, cap)| == cap && forall d :: d in Capped(s, cap) ==> d.score >= c.score
  {
    var j :| 0 <= j < |s| && s[j] == c;
    forall i | 0 <= i < |Capped(s, cap)|
      ensures s[i] in Capped(s, cap)
    {
      assert Capped(s, cap)[i] == s[i];
    }
    forall d | d in Capped(s, cap)
      ensures d.score >= c.score
    {
      var i :| 0 <= i < |Capped(s, cap)| && Capped(s, cap)[i] == d;
      SortedBestFirst(s, i, j);
    }
  }

  lemma SelectionSelectsTop(markets: seq<MarketSnapshot>, cfg: SelectionConfig, r: seq<Candidate>)
    requires IsSelection(markets, cfg, r)
    ensures SelectsTop(markets, cfg, r)
  {
    var s := SortBehind(markets, cfg, r);
    PermutationMembers(s, CandidatesOf(TiersOf(cfg), markets));
    forall i, j | 0 <= i < j < |r|
      ensures MayPrecede(r[i], r[j])
    {
      SortedBestFirst(s, i, j);
    }
    forall c | c in r
      ensures exists m :: m in markets && InTop(markets, cfg, m) && Describes(markets, cfg, m, c)
    {
      assert c in s;
      var m := MarketOfCandidate(markets, cfg, c);
    }
  }

  /** What SelectCandidates returns, in terms of the markets alone. */
  lemma SelectionIsTopBestFirst(markets: seq<MarketSnapshot>, cfg: SelectionConfig, r: seq<Candidate>)
    requires IsSelection(markets, cfg, r)
    ensures SelectsTop(markets, cfg, r) && SelectsAllOrBest(markets, cfg, r)
  {
    SelectionSelectsTop(markets, cfg, r);
    CandidateCount(markets, cfg);
    var s := SortBehind(markets, cfg, r);
    PermutationMembers(s, CandidatesOf(TiersOf(cfg), markets));
    forall m | m in markets && InTop(markets, cfg, m)
      ensures (exists c :: c in r && Describes(markets, cfg, m, c))
              || (|r| == cfg.maxMarkets && forall c :: c in r ==> c.score >= ScoreOf(markets, m))
    {
      CandidateOfMarket(markets, cfg, m);
      var c := Picked(markets, cfg, m).value;
      if c !in r {
        CappedMembers(s, cfg.maxMarkets, c);
      }
    }
  }

  // ----- SelectCandidates -----

  method BuildCoreSet(categories: seq<string>) returns (core: set<string>)
    ensures core == CoreSet(categories)
  {
    core := {};
    for i := 0 to |categories|
      invariant core == CoreSet(categories[..i])
    {
      CoreSetStep(categories, i);
      var normalized := NormalizeCategory(categories[i]);
      if |normalized| > 0 {
        core := core + {normalized};
      }
    }
    assert categories[..|categories|] == categories;
  }

  lemma CoreSetStep(categories: seq<string>, i: nat)
    requires i < |categories|
    ensures var n := NormalizeCategory(categories[i]);
            CoreSet(categories[..i + 1]) == if |n| > 0 then CoreSet(categories[..i]) + {n} else CoreSet(categories[..i])
  {
    var n, s, t := NormalizeCategory(categories[i]), CoreSet(categories[..i]), CoreSet(categories[..i + 1]);
    forall c
      ensures c in t <==> c in s || (|n| > 0 && c == n)
    {
      if c in s {
        var j :| 0 <= j < i && NormalizeCategory(categories[..i][j]) == c && |c| > 0;
        assert categories[..i + 1][j] == categories[..i][j];
      }
      if |n| > 0 && c == n {
        assert categories[..i + 1][i] == categories[i];
      }
    }
  }

  /** The loop's test and the normalisation of one market's tokens. */
  method AdmitMarket(market: MarketSnapshot) returns (m: Option<MarketSnapshot>)
    ensures m == Admit(market)
  {
    if market.volume <= 0.0 || market.liquidity <= 0.0 {
      return None;
    }
    var tokens := NormalizeTokenIDs(market.tokenIDs);
    if |tokens| == 0 {
      return None;
    }
    m := Some(market.(tokenIDs := tokens));
  }

  /** The three slices that grow together. */
  ghost predicate Collected(valid: seq<MarketSnapshot>, volumes: seq<real>, liquidities: seq<real>) {
    volumes == Map(valid, VolumeOf()) && liquidities == Map(valid, LiquidityOf())
  }

  lemma CollectedMore(valid: seq<MarketSnapshot>, volumes: seq<real>, liquidities: seq<real>, m: MarketSnapshot)
    requires Collected(valid, volumes, liquidities)
    ensures Collected(valid + [m], volumes + [m.volume], liquidities + [m.liquidity])
  {
  }

  method AdmitMarkets(markets: seq<MarketSnapshot>)
      returns (valid: seq<MarketSnapshot>, volumes: seq<real>, liquidities: seq<real>)
    ensures valid == FilterMap(markets, Admitting()) && Collected(valid, volumes, liquidities)
  {
    valid, volumes, liquidities := [], [], [];
    for i := 0 to |markets|
      invariant valid == FilterMap(markets[..i], Admitting()) && Collected(valid, volumes, liquidities)
    {
      FilterMapStep(markets, i, Admitting());
      var market := AdmitMarket(markets[i]);
      if market.None? {
        continue;
      }
      var m := market.value;
      CollectedMore(valid, volumes, liquidities, m);
      valid, volumes, liquidities := valid + [m], volumes + [m.volume], liquidities + [m.liquidity];
    }
    WholeTake(markets);
  }

  datatype Floors = Floors(coreVolume: real, coreLiquidity: real, otherVolume: real, otherLiquidity: real)

  function FloorsOf(tiers: Tiers, volumes: seq<real>, liquidities: seq<real>): Floors {
    Floors(PercentileFloor(volumes, 1.0 - tiers.coreTop), PercentileFloor(liquidities, 1.0 - tiers.coreTop),
           PercentileFloor(volumes, 1.0 - tiers.otherTop), PercentileFloor(liquidities, 1.0 - tiers.otherTop))
  }

  method ComputeFloors(tiers: Tiers, volumes: seq<real>, liquidities: seq<real>) returns (floors: Floors)
    ensures floors == FloorsOf(tiers, volumes, liquidities)
  {
    var coreVolume := ComputePercentileFloor(volumes, 1.0 - tiers.coreTop);
    var coreLiquidity := ComputePercentileFloor(liquidities, 1.0 - tiers.coreTop);
    var otherVolume := ComputePercentileFloor(volumes, 1.0 - tiers.otherTop);
    var otherLiquidity := ComputePercentileFloor(liquidities, 1.0 - tiers.otherTop);
    floors := Floors(coreVolume, coreLiquidity, otherVolume, otherLiquidity);
  }

  method FloorsFor(tiers: Tiers, core: bool, ghost volumes: seq<real>, ghost liquidities: seq<real>, floors: Floors)
      returns (requiredTop: real, volumeFloor: real, liquidityFloor: real)
    requires floors == FloorsOf(tiers, volumes, liquidities)
    ensures requiredTop == if core then tiers.coreTop else tiers.otherTop
    ensures volumeFloor == PercentileFloor(volumes, 1.0 - requiredTop)
    ensures liquidityFloor == PercentileFloor(liquidities, 1.0 - requiredTop)
  {
    requiredTop, volumeFloor, liquidityFloor := tiers.otherTop, floors.otherVolume, floors.otherLiquidity;
    if core {
      requiredTop, volumeFloor, liquidityFloor := tiers.coreTop, floors.coreVolume, floors.coreLiquidity;
    }
  }

  method JudgeMarket(m: MarketSnapshot, core: bool, top: real, volumes: seq<real>, liquidities: seq<real>,
                     volumeFloor: real, liquidityFloor: real) returns (c: Option<Candidate>)
    requires volumeFloor == PercentileFloor(volumes, 1.0 - top)
    requires liquidityFloor == PercentileFloor(liquidities, 1.0 - top)
    ensures c == Judge(m, core, top, StandingOf(volumes, liquidities, m, top))
  {
    if m.volume < volumeFloor || m.liquidity < liquidityFloor {
      return None;
    }
    var volumeRank := ComputePercentileRank(volumes, m.volume);
    var liquidityRank := ComputePercentileRank(liquidities, m.liquidity);
    var tier := if core then "tier1" else "tier3";
    c := Some(Candidate(m.id, m.question, m.category, tier, m.volume, m.liquidity, volumeRank, liquidityRank,
                        volumeRank + liquidityRank, m.tokenIDs, top, volumeFloor, liquidityFloor));
  }

  method QualifyMarkets(tiers: Tiers, valid: seq<MarketSnapshot>, volumes: seq<real>, liquidities: seq<real>)
      returns (candidates: seq<Candidate>)
    ensures candidates == FilterMap(valid, Qualify(tiers, volumes, liquidities))
  {
    ghost var qualify := Qualify(tiers, volumes, liquidities);
    var floors := ComputeFloors(tiers, volumes, liquidities);
    candidates := [];
    for i := 0 to |valid|
      invariant candidates == FilterMap(valid[..i], qualify)
    {
      FilterMapStep(valid, i, qualify);
      var isCore := IsCore(tiers, valid[i].category);
      var top, volumeFloor, liquidityFloor := FloorsFor(tiers, isCore, volumes, liquidities, floors);
      var c := JudgeMarket(valid[i], isCore, top, volumes, liquidities, volumeFloor, liquidityFloor);
      candidates := candidates + Kept(c);
    }
    assert valid[..|valid|] == valid;
  }

  method SortByRank(candidates: seq<Candidate>) returns (sorted: seq<Candidate>)
    ensures IsStableSortOf(sorted, candidates, ByRank())
  {
    var slice := new Candidate[|candidates|](i requires 0 <= i < |candidates| => candidates[i]);
    assert slice[..] == candidates;
    ByRankStrictWeak();
    SortSliceStable(slice, ByRank());
    sorted := slice[..];
  }

  lemma SelectionOfNothing(markets: seq<MarketSnapshot>, cfg: SelectionConfig)
    requires |FilterMap(markets, Admitting())| == 0
    ensures IsSelection(markets, cfg, [])
  {
    assert IsStableSortOf([], CandidatesOf(TiersOf(cfg), markets), ByRank());
  }

  lemma SelectionOfSort(markets: seq<MarketSnapshot>, cfg: SelectionConfig, sorted: seq<Candidate>)
    requires IsStableSortOf(sorted, CandidatesOf(TiersOf(cfg), markets), ByRank())
    ensures IsSelection(markets, cfg, Capped(sorted, cfg.maxMarkets))
  {
  }

  /** The candidates of the valid markets, ranked and capped; nothing when no market is valid. */
  method SelectCandidates(markets: seq<MarketSnapshot>, cfg: SelectionConfig) returns (selected: seq<Candidate>)
    ensures IsSelection(markets, cfg, selected)
    ensures SelectsTop(markets, cfg, selected) && SelectsAllOrBest(markets, cfg, selected)
  {
    var config := WithDefaults(cfg);
    var core := BuildCoreSet(config.coreCategories);
    var tiers := Tiers(core, config.coreTop, config.otherTop);
    var valid, volumes, liquidities := AdmitMarkets(markets);
    if |valid| == 0 {
      SelectionOfNothing(markets, cfg);
      SelectionIsTopBestFirst(markets, cfg, []);
      return [];
    }
    var candidates := QualifyMarkets(tiers, valid, volumes, liquidities);
    var sorted := SortByRank(candidates);
    SelectionOfSort(markets, cfg, sorted);
    selected := sorted;
    if config.maxMarkets > 0 && |selected| > config.maxMarkets {
      selected := selected[..config.maxMarkets];
    }
    SelectionIsTopBestFirst(markets, cfg, selected);
  }

  // ----- SuggestPair -----

  function FirstToken(c: Candidate): string
    requires |c.tokenIDs| > 0
  {
    TrimSpace(c.tokenIDs[0])
  }

  /** Two candidates of one category whose first tokens are non-empty and differ. */
  predicate Pairs(x: Candidate, y: Candidate) {
    && |x.tokenIDs| > 0 && |y.tokenIDs| > 0
    && NormalizeCategory(x.category) == NormalizeCategory(y.category)
    && |FirstToken(x)| > 0 && |FirstToken(y)| > 0 && FirstToken(x) != FirstToken(y)
  }

  function Pairing(): (Candidate, Candidate) -> bool { (x: Candidate, y: Candidate) => Pairs(x, y) }

  ghost predicate NoPair<T>(s: seq<T>, related: (T, T) -> bool) {
    forall i: nat, j: nat :: i < j < |s| ==> !related(s[i], s[j])
  }

  /** The pair the nested loops meet first. */
  ghost predicate IsFirstPair<T>(s: seq<T>, related: (T, T) -> bool, i: nat, j: nat) {
    && i < j < |s| && related(s[i], s[j])
    && (forall i': nat, j': nat :: i' < j' < |s| && related(s[i'], s[j']) ==> i < i' || (i == i' && j <= j'))
  }

  method FindPair<T>(s: seq<T>, related: (T, T) -> bool) returns (found: bool, first: nat, second: nat)
    ensures found ==> IsFirstPair(s, related, first, second)
    ensures !found ==> NoPair(s, related)
  {
    found, first, second := false, 0, 0;
    for i := 0 to |s|
      invariant forall i': nat, j': nat :: i' < j' < |s| && related(s[i'], s[j']) ==> i' >= i
    {
      for j := i + 1 to |s|
        invariant forall j': nat :: i < j' < j ==> !related(s[i], s[j'])
      {
        if related(s[i], s[j]) {
          return true, i, j;
        }
      }
    }
  }

  /** The first pair within a category, otherwise the first two distinct tokens, otherwise nothing. */
  ghost predicate IsSuggestion(candidates: seq<Candidate>, a: string, b: string) {
    && (forall i: nat, j: nat :: IsFirstPair(candidates, Pairing(), i, j) && Pairs(candidates[i], candidates[j]) ==>
          a == FirstToken(candidates[i]) && b == FirstToken(candidates[j]))
    && (NoPair(candidates, Pairing()) ==>
          [a, b] == if |AssetIDs(candidates)| < 2 then ["", ""] else AssetIDs(candidates)[..2])
  }

  lemma FirstPairSuggested(candidates: seq<Candidate>, i: nat, j: nat)
    requires IsFirstPair(candidates, Pairing(), i, j)
    requires Pairs(candidates[i], candidates[j])
    ensures IsSuggestion(candidates, FirstToken(candidates[i]), FirstToken(candidates[j]))
  {
    forall i': nat, j': nat | IsFirstPair(candidates, Pairing(), i', j')
      ensures i == i' && j == j'
    {
    }
  }

  lemma NoPairSuggested(candidates: seq<Candidate>, assetIDs: seq<string>)
    requires NoPair(candidates, Pairing())
    requires assetIDs == FirstOf(AssetIDs(candidates), 2)
    ensures |assetIDs| == 2 ==> IsSuggestion(candidates, assetIDs[0], assetIDs[1])
    ensures |assetIDs| != 2 ==> IsSuggestion(candidates, "", "")
  {
  }

  method SuggestPair(candidates: seq<Candidate>) returns (a: string, b: string)
    ensures IsSuggestion(candidates, a, b)
  {
    var found, i, j := FindPair(candidates, Pairing());
    if found {
      assert Pairing()(candidates[i], candidates[j]);
      FirstPairSuggested(candidates, i, j);
      return FirstToken(candidates[i]), FirstToken(candidates[j]);
    }
    var assetIDs := BuildPOLYAssetIDs(candidates, 2);
    NoPairSuggested(candidates, assetIDs);
    if |assetIDs| == 2 {
      return assetIDs[0], assetIDs[1];
    }
    return "", "";
  }

  /** Two markets of one category, up to case and white space, with different first tokens. */
  ghost predicate Rivals(x: Candidate, y: Candidate) {
    && ToLower(TrimSpace(x.category)) == ToLower(TrimSpace(y.category))
    && x.tokenIDs != [] && y.tokenIDs != []
    && TrimSpace(x.tokenIDs[0]) != "" && TrimSpace(y.tokenIDs[0]) != ""
    && TrimSpace(x.tokenIDs[0]) != TrimSpace(y.tokenIDs[0])
  }

  lemma RivalsPair(x: Candidate, y: Candidate)
    ensures Pairing()(x, y) <==> Rivals(x, y)
  {
  }

  /** The suggestion is the first tokens of the first two rivals in the order of the loops, ... */
  lemma FirstRivalsAreSuggested(candidates: seq<Candidate>, a: string, b: string, i: nat, j: nat)
    requires IsSuggestion(candidates, a, b) && i < j < |candidates| && Rivals(candidates[i], candidates[j])
    requires forall k: nat, l: nat :: k < l < |candidates| && Rivals(candidates[k], candidates[l]) ==>
                                        i < k || (i == k && j <= l)
    ensures a == TrimSpace(candidates[i].tokenIDs[0]) && b == TrimSpace(candidates[j].tokenIDs[0])
  {
    forall k: nat, l: nat | k < l < |candidates|
      ensures Pairing()(candidates[k], candidates[l]) <==> Rivals(candidates[k], candidates[l])
    {
      RivalsPair(candidates[k], candidates[l]);
    }
    assert IsFirstPair(candidates, Pairing(), i, j);
  }

  /** ... and without rivals the first two tokens there are. */
  lemma FirstTokensAreSuggested(candidates: seq<Candidate>, a: string, b: string)
    requires IsSuggestion(candidates, a, b)
    requires forall k: nat, l: nat :: k < l < |candidates| ==> !Rivals(candidates[k], candidates[l])
    ensures if |AssetIDs(candidates)| < 2 then a == b == "" else [a, b] == AssetIDs(candidates)[..2]
  {
    forall k: nat, l: nat | k < l < |candidates|
      ensures !Pairing()(candidates[k], candidates[l])
    {
      RivalsPair(candidates[k], candidates[l]);
    }
    assert NoPair(candidates, Pairing());
    assert [a, b][0] == a && [a, b][1] == b;
  }

  lemma TwoTokensDiffer(candidates: seq<Candidate>)
    requires |AssetIDs(candidates)| >= 2
    ensures var ids := AssetIDs(candidates); |ids[0]| > 0 && |ids[1]| > 0 && ids[0] != ids[1]
  {
    AssetIDsAreDistinctTokens(candidates, AssetIDs(candidates)[0]);
    AssetIDsAreDistinctTokens(candidates, AssetIDs(candidates)[1]);
  }

  lemma FirstTokenIsAsset(candidates: seq<Candidate>, i: nat)
    requires i < |candidates| && |candidates[i].tokenIDs| > 0 && |FirstToken(candidates[i])| > 0
    ensures FirstToken(candidates[i]) in AssetIDs(candidates)
  {
    AllTokensSplit(candidates, i);
    var all := AllTokens(candidates);
    assert all[|AllTokens(candidates[..i])|] == candidates[i].tokenIDs[0];
    AssetIDsAreDistinctTokens(candidates, FirstToken(candidates[i]));
  }

  lemma TwoMembers<T>(s: seq<T>, x: T, y: T)
    requires x in s && y in s && x != y
    ensures |s| >= 2
  {
  }

  lemma TwoAssets(candidates: seq<Candidate>, i: nat, j: nat)
    requires i < j < |candidates| && Pairs(candidates[i], candidates[j])
    ensures |AssetIDs(candidates)| >= 2
  {
    FirstTokenIsAsset(candidates, i);
    FirstTokenIsAsset(candidates, j);
    TwoMembers(AssetIDs(candidates), FirstToken(candidates[i]), FirstToken(candidates[j]));
  }

  lemma EarliestPair(candidates: seq<Candidate>, related: (Candidate, Candidate) -> bool, i: nat, j: nat)
      returns (first: nat, second: nat)
    requires i < j < |candidates| && related(candidates[i], candidates[j])
    ensures IsFirstPair(candidates, related, first, second)
    decreases i, j
  {
    if i': nat, j': nat :| (i' < j' < |candidates| && related(candidates[i'], candidates[j'])
                            && (i' < i || (i' == i && j' < j))) {
      first, second := EarliestPair(candidates, related, i', j');
    } else {
      first, second := i, j;
    }
  }

  /** The suggestion is two distinct non-empty tokens, or two empty strings exactly when the candidates
      have fewer than two distinct tokens between them. */
  lemma SuggestionIsTwoOrNone(candidates: seq<Candidate>, a: string, b: string)
    requires IsSuggestion(candidates, a, b)
    ensures if |AssetIDs(candidates)| < 2 then a == b == "" else |a| > 0 && |b| > 0 && a != b
  {
    if NoPair(candidates, Pairing()) {
      if |AssetIDs(candidates)| >= 2 {
        TwoTokensDiffer(candidates);
      }
    } else {
      var i: nat, j: nat :| i < j < |candidates| && Pairing()(candidates[i], candidates[j]);
      var first, second := EarliestPair(candidates, Pairing(), i, j);
      assert Pairs(candidates[first], candidates[second]);
      TwoAssets(candidates, first, second);
    }
  }
}
