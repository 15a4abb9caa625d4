/** From an order book to a limit price (cmd/worker/pricing.go) and from a price to base units
    (internal/connectors/polymarket/dynamic_order_builder.go). */
module Pricing {
  import opened Sequences
  import opened Text

  /** A float64: finite values as exact reals, NaN and the infinities as one. */
  datatype Float = Finite(value: real) | NotFinite

  datatype Outcome = Price(price: real, mode: string) | Refused

  datatype OrderBook = OrderBook(bids: seq<Float>, asks: seq<Float>)

  predicate IsProbability(f: Float) {
    f.Finite? && 0.0 < f.value < 1.0
  }

  // ----- clamping -----

  function EffectiveMin(min: Float): real {
    if IsProbability(min) then min.value else 0.01
  }

  function EffectiveMax(max: Float): real {
    if IsProbability(max) then max.value else 0.99
  }

  function Clamp(price: Float, min: Float, max: Float): Option<real> {
    var low, high := EffectiveMin(min), EffectiveMax(max);
    if !IsProbability(price) || low >= high then None
    else if price.value < low then Some(low)
    else if price.value > high then Some(high)
    else Some(price.value)
  }

  // ----- the best bid and the best ask -----

  /** The level met first among those that no level beats in `better`. */
  function Best(levels: seq<Float>, better: (real, real) -> bool): Option<real> {
    if |levels| == 0 then None
    else
      var best, level := Best(levels[..|levels| - 1], better), levels[|levels| - 1];
      if IsProbability(level) && (best.None? || better(level.value, best.value)) then Some(level.value) else best
  }

  function Higher(): (real, real) -> bool { (x, y) => x > y }

  function Lower(): (real, real) -> bool { (x, y) => x < y }

  method BestBidPrice(levels: seq<Float>) returns (best: real, found: bool)
    ensures (if found then Some(best) else None) == Best(levels, Higher())
  {
    best, found := 0.0, false;
    for i := 0 to |levels|
      invariant (if found then Some(best) else None) == Best(levels[..i], Higher())
    {
      assert levels[..i + 1][..i] == levels[..i];
      if IsProbability(levels[i]) && (!found || levels[i].value > best) {
        best, found := levels[i].value, true;
      }
    }
    assert levels[..|levels|] == levels;
  }

  method BestAskPrice(levels: seq<Float>) returns (best: real, found: bool)
    ensures (if found then Some(best) else None) == Best(levels, Lower())
  {
    best, found := 0.0, false;
    for i := 0 to |levels|
      invariant (if found then Some(best) else None) == Best(levels[..i], Lower())
    {
      assert levels[..i + 1][..i] == levels[..i];
      if IsProbability(levels[i]) && (!found || levels[i].value < best) {
        best, found := levels[i].value, true;
      }
    }
    assert levels[..|levels|] == levels;
  }

  ghost predicate IsBest(levels: seq<Float>, better: (real, real) -> bool, best: Option<real>) {
    match best
    case None => forall f :: f in levels ==> !IsProbability(f)
    case Some(p) =>
      0.0 < p < 1.0 && Finite(p) in levels && forall f :: f in levels && IsProbability(f) ==> !better(f.value, p)
  }

  lemma BestStep(levels: seq<Float>, f: Float, better: (real, real) -> bool, best: Option<real>)
    requires StrictWeak(better) && IsBest(levels, better, best)
    ensures IsBest(levels + [f], better,
                   if IsProbability(f) && (best.None? || better(f.value, best.value)) then Some(f.value) else best)
  {
    if best.Some? && IsProbability(f) && better(f.value, best.value) {
      forall g | g in levels && IsProbability(g)
        ensures !better(g.value, f.value)
      {
        var p, q, r := f.value, g.value, best.value;
        assert better(p, q) || better(q, r);
      }
    }
  }

  /** The best bid is the highest price strictly between 0 and 1, the best ask the lowest; there is none
      exactly when no level lies there. */
  lemma {:induction false} BestIsExtreme(levels: seq<Float>, better: (real, real) -> bool)
    requires StrictWeak(better)
    ensures IsBest(levels, better, Best(levels, better))
  {
    if |levels| > 0 {
      var n := |levels| - 1;
      BestIsExtreme(levels[..n], better);
      BestStep(levels[..n], levels[n], better, Best(levels[..n], better));
      assert levels == levels[..n] + [levels[n]];
    }
  }

  lemma BestOfBook(book: OrderBook)
    ensures IsBest(book.bids, Higher(), Best(book.bids, Higher()))
    ensures IsBest(book.asks, Lower(), Best(book.asks, Lower()))
  {
    BestIsExtreme(book.bids, Higher());
    BestIsExtreme(book.asks, Lower());
  }

  // ----- choosing a limit price -----

  function FoldChar(c: char): char {
    if c == '\U{017F}' then 's' else LowerChar(c)
  }

  function Folding(): char -> char { (c: char) => FoldChar(c) }

  /** strings.EqualFold against "SELL": the long s folds to s as well. */
  predicate IsSell(side: string) {
    Map(TrimSpace(side), Folding()) == "sell"
  }

  function Mid(bid: Option<real>, ask: Option<real>): Option<real> {
    if bid.Some? && ask.Some? then Some((bid.value + ask.value) / 2.0)
    else if bid.Some? then bid
    else ask
  }

  function BookMid(book: OrderBook): Option<real> {
    Mid(Best(book.bids, Higher()), Best(book.asks, Lower()))
  }

  function Shifted(mid: real, sell: bool, offsetBps: Float): Float {
    if offsetBps == NotFinite then NotFinite
    else
      var adjustment := offsetBps.value / 10000.0;
      Finite(if sell then mid * (1.0 - adjustment) else mid * (1.0 + adjustment))
  }

  function SelectLimitPrice(book: OrderBook, sell: bool, fallback: Float, offsetBps: Float,
                            min: Float, max: Float): Outcome
  {
    var safe := Clamp(fallback, min, max);
    var mid := BookMid(book);
    if safe.None? then Refused
    else if mid.None? then Price(safe.value, "fallback")
    else
      var clamped := Clamp(Shifted(mid.value, sell, offsetBps), min, max);
      if clamped.None? then Price(safe.value, "fallback") else Price(clamped.value, "dynamic")
  }

  /** `book` is None when fetching it failed. */
  function ChooseLimitPrice(dynamicEnabled: bool, book: Option<OrderBook>, side: string,
                            fallback: Float, offsetBps: Float, min: Float, max: Float): Outcome {
    if !dynamicEnabled || book.None? then
      match Clamp(fallback, min, max)
      case None => Refused
      case Some(p) => Price(p, if dynamicEnabled then "fallback" else "static")
    else SelectLimitPrice(book.value, IsSell(side), fallback, offsetBps, min, max)
  }

  /** The mid price is as far above the best bid as it is below the best ask; a one-sided book has its one
      side. */
  lemma MidIsMiddle(bid: Option<real>, ask: Option<real>)
    ensures Mid(bid, ask).Some? <==> bid.Some? || ask.Some?
    ensures bid.Some? && ask.Some? ==> Mid(bid, ask).value - bid.value == ask.value - Mid(bid, ask).value
    ensures bid.Some? != ask.Some? ==> Mid(bid, ask) in {bid, ask} && Mid(bid, ask).Some?
  {
  }

  predicate HasLevel(book: OrderBook) {
    exists f :: f in book.bids + book.asks && IsProbability(f)
  }

  lemma MidWhenLevel(book: OrderBook)
    ensures BookMid(book).Some? <==> HasLevel(book)
  {
    BestOfBook(book);
    var bid, ask := Best(book.bids, Higher()), Best(book.asks, Lower());
    if bid.Some? {
      assert IsProbability(Finite(bid.value));
    }
    if ask.Some? {
      assert IsProbability(Finite(ask.value));
    }
  }

  function ShiftedMid(book: OrderBook, sell: bool, offsetBps: Float): Float
    requires HasLevel(book)
  {
    MidWhenLevel(book);
    Shifted(BookMid(book).value, sell, offsetBps)
  }

  /** The reported mode: "dynamic" exactly when a fetched book has a usable level and the shifted mid price
      is itself a probability; otherwise the clamped fallback is used. */
  lemma ModeExactlyWhen(dynamicEnabled: bool, book: Option<OrderBook>, side: string,
                        fallback: Float, offsetBps: Float, min: Float, max: Float)
    ensures var r := ChooseLimitPrice(dynamicEnabled, book, side, fallback, offsetBps, min, max);
            r.Price? ==>
              && (r.mode == "static" <==> !dynamicEnabled)
              && (r.mode == "dynamic" <==>
                  && dynamicEnabled && book.Some? && HasLevel(book.value)
                  && IsProbability(ShiftedMid(book.value, IsSell(side), offsetBps)))
              && (r.mode != "dynamic" ==> Some(r.price) == Clamp(fallback, min, max))
  {
    ClampInRange(fallback, min, max);
    if book.Some? {
      MidWhenLevel(book.value);
      var mid := BookMid(book.value);
      if mid.Some? {
        ClampInRange(Shifted(mid.value, IsSell(side), offsetBps), min, max);
      }
    }
  }

  lemma ClampInRange(price: Float, min: Float, max: Float)
    ensures Clamp(price, min, max).Some? <==> IsProbability(price) && EffectiveMin(min) < EffectiveMax(max)
    ensures Clamp(price, min, max).Some? ==>
              0.0 < EffectiveMin(min) <= Clamp(price, min, max).value <= EffectiveMax(max) < 1.0
  {
  }

  /** Whatever the book holds and whether or not it could be fetched, a price comes out exactly when the
      fallback is a probability and the range is not empty, and then it lies in the range. */
  lemma ChosenPriceInRange(dynamicEnabled: bool, book: Option<OrderBook>, side: string,
                           fallback: Float, offsetBps: Float, min: Float, max: Float)
    ensures var r := ChooseLimitPrice(dynamicEnabled, book, side, fallback, offsetBps, min, max);
            && (r.Price? <==> IsProbability(fallback) && EffectiveMin(min) < EffectiveMax(max))
            && (r.Price? ==> 0.0 < EffectiveMin(min) <= r.price <= EffectiveMax(max) < 1.0)
  {
    ClampInRange(fallback, min, max);
    if dynamicEnabled && book.Some? {
      var mid := BookMid(book.value);
      if mid.Some? {
        ClampInRange(Shifted(mid.value, IsSell(side), offsetBps), min, max);
      }
    }
  }

  lemma ClampMonotone(p: real, q: real, min: Float, max: Float)
    requires p <= q && Clamp(Finite(p), min, max).Some? && Clamp(Finite(q), min, max).Some?
    ensures Clamp(Finite(p), min, max).value <= Clamp(Finite(q), min, max).value
  {
  }

  lemma ScaledOrder(mid: real, a: real)
    requires mid > 0.0 && a >= 0.0
    ensures mid * (1.0 - a) <= mid <= mid * (1.0 + a)
  {
  }

  lemma MidInRange(book: OrderBook)
    ensures var mid := BookMid(book); mid.Some? ==> 0.0 < mid.value < 1.0
  {
    BestOfBook(book);
  }

  /** With a non-negative offset, when both sides are priced from the book the sell limit is at most the
      clamped mid price and the buy limit at least that. */
  lemma SellBelowBuy(book: OrderBook, fallback: Float, offsetBps: real, min: Float, max: Float)
    requires offsetBps >= 0.0
    requires SelectLimitPrice(book, true, fallback, Finite(offsetBps), min, max).Price?
    requires SelectLimitPrice(book, true, fallback, Finite(offsetBps), min, max).mode == "dynamic"
    requires SelectLimitPrice(book, false, fallback, Finite(offsetBps), min, max).Price?
    requires SelectLimitPrice(book, false, fallback, Finite(offsetBps), min, max).mode == "dynamic"
    ensures var mid := BookMid(book);
            mid.Some? && Clamp(Finite(mid.value), min, max).Some?
            && SelectLimitPrice(book, true, fallback, Finite(offsetBps), min, max).price
               <= Clamp(Finite(mid.value), min, max).value
               <= SelectLimitPrice(book, false, fallback, Finite(offsetBps), min, max).price
  {
    var mid := BookMid(book);
    MidInRange(book);
    assert mid.Some?;
    ScaledOrder(mid.value, offsetBps / 10000.0);
    ClampMonotone(Shifted(mid.value, true, Finite(offsetBps)).value, mid.value, min, max);
    ClampMonotone(mid.value, Shifted(mid.value, false, Finite(offsetBps)).value, min, max);
  }

  // ----- the choice in full -----

  ghost predicate Usable(f: Float) {
    f != NotFinite && f.value > 0.0 && f.value < 1.0
  }

  /** The highest usable level, none without one. */
  ghost predicate IsHighest(levels: seq<Float>, p: Option<real>) {
    if p.None? then forall f :: f in levels ==> !Usable(f)
    else Usable(Finite(p.value)) && Finite(p.value) in levels
         && forall f :: f in levels && Usable(f) ==> f.value <= p.value
  }

  ghost predicate IsLowest(levels: seq<Float>, p: Option<real>) {
    if p.None? then forall f :: f in levels ==> !Usable(f)
    else Usable(Finite(p.value)) && Finite(p.value) in levels
         && forall f :: f in levels && Usable(f) ==> p.value <= f.value
  }

  lemma HighestIsBest(levels: seq<Float>, p: Option<real>)
    requires IsHighest(levels, p)
    ensures Best(levels, Higher()) == p
  {
    BestIsExtreme(levels, Higher());
    var best := Best(levels, Higher());
    if best.Some? && p.Some? {
      assert !Higher()(p.value, best.value);
      assert Usable(Finite(best.value));
    }
    if best.Some? {
      assert Usable(Finite(best.value));
    }
    if p.Some? {
      assert IsProbability(Finite(p.value));
    }
  }

  lemma LowestIsBest(levels: seq<Float>, p: Option<real>)
    requires IsLowest(levels, p)
    ensures Best(levels, Lower()) == p
  {
    BestIsExtreme(levels, Lower());
    var best := Best(levels, Lower());
    if best.Some? && p.Some? {
      assert !Lower()(p.value, best.value);
      assert Usable(Finite(best.value));
    }
    if best.Some? {
      assert Usable(Finite(best.value));
    }
    if p.Some? {
      assert IsProbability(Finite(p.value));
    }
  }

  /** "SELL" with white space around it, in any case; the long s is an s. */
  ghost predicate SaysSell(side: string) {
    var t := TrimSpace(side);
    |t| == 4 && t[0] in "sS\U{017F}" && t[1] in "eE" && t[2] in "lL" && t[3] in "lL"
  }

  lemma FoldsTo(c: char)
    ensures FoldChar(c) == 's' <==> c in "sS\U{017F}"
    ensures FoldChar(c) == 'e' <==> c in "eE"
    ensures FoldChar(c) == 'l' <==> c in "lL"
  {
  }

  lemma SellIsSell(side: string)
    ensures IsSell(side) <==> SaysSell(side)
  {
    var t := TrimSpace(side);
    var folded := Map(t, Folding());
    if |t| == 4 {
      FoldsTo(t[0]);
      FoldsTo(t[1]);
      FoldsTo(t[2]);
      FoldsTo(t[3]);
      assert folded == "sell" <==>
             folded[0] == 's' && folded[1] == 'e' && folded[2] == 'l' && folded[3] == 'l';
    }
  }

  /** The mid of the best prices, moved by the offset in basis points: down to sell, up to buy. */
  ghost function Moved(bid: Option<real>, ask: Option<real>, sell: bool, bps: real): real
    requires bid.Some? || ask.Some?
  {
    var mid := if bid.None? then ask.value else if ask.None? then bid.value else (ask.value + bid.value) / 2.0;
    if sell then mid - mid * (bps / 10000.0) else mid + mid * (bps / 10000.0)
  }

  lemma MovedIsShifted(bid: Option<real>, ask: Option<real>, sell: bool, offsetBps: Float)
    requires bid.Some? || ask.Some?
    ensures Mid(bid, ask).Some?
    ensures Shifted(Mid(bid, ask).value, sell, offsetBps) ==
            if offsetBps == NotFinite then NotFinite else Finite(Moved(bid, ask, sell, offsetBps.value))
  {
    if offsetBps != NotFinite {
      var mid, a := Mid(bid, ask).value, offsetBps.value / 10000.0;
      Distributes(mid, a);
      assert Shifted(mid, sell, offsetBps) == Finite(if sell then mid * (1.0 - a) else mid * (1.0 + a));
      assert Moved(bid, ask, sell, offsetBps.value) == if sell then mid - mid * a else mid + mid * a;
    }
  }

  lemma Distributes(mid: real, a: real)
    ensures mid * (1.0 - a) == mid - mid * a && mid * (1.0 + a) == mid + mid * a
  {
  }

  ghost function Distance(p: real, q: real): real {
    if p <= q then q - p else p - q
  }

  /** Of all prices in the range, the one nearest to the target. */
  ghost predicate IsNearest(price: real, target: real, low: real, high: real) {
    low <= price <= high && forall p :: low <= p <= high ==> Distance(price, target) <= Distance(p, target)
  }

  lemma ClampIsNearest(f: Float, min: Float, max: Float)
    requires Clamp(f, min, max).Some?
    ensures f.Finite? && IsNearest(Clamp(f, min, max).value, f.value, BoundOr(min, 0.01), BoundOr(max, 0.99))
  {
  }

  ghost function BoundOr(f: Float, default: real): real {
    if Usable(f) then f.value else default
  }

  /** The price that is chosen, from the book's best prices: one comes out exactly when the fallback is usable and the
      range is not empty. It is the price in the range nearest to the moved mid if that can be had and is usable, and
      else nearest to the fallback. */
  lemma ChosenPriceIsNearest(dynamicEnabled: bool, book: Option<OrderBook>, side: string, fallback: Float,
                             offsetBps: Float, min: Float, max: Float, bid: Option<real>, ask: Option<real>)
    requires book.Some? ==> IsHighest(book.value.bids, bid) && IsLowest(book.value.asks, ask)
    ensures var r := ChooseLimitPrice(dynamicEnabled, book, side, fallback, offsetBps, min, max);
            var low, high := BoundOr(min, 0.01), BoundOr(max, 0.99);
            var dynamic := dynamicEnabled && book.Some? && (bid.Some? || ask.Some?) && offsetBps != NotFinite
                           && Usable(Finite(Moved(bid, ask, SaysSell(side), offsetBps.value)));
            && (r.Price? <==> Usable(fallback) && low < high)
            && (r.Price? ==>
                  && r.mode == (if dynamic then "dynamic" else if dynamicEnabled then "fallback" else "static")
                  && IsNearest(r.price, if dynamic then Moved(bid, ask, SaysSell(side), offsetBps.value)
                                        else fallback.value, low, high))
  {
    ClampInRange(fallback, min, max);
    if Clamp(fallback, min, max).Some? {
      ClampIsNearest(fallback, min, max);
    }
    if book.Some? {
      HighestIsBest(book.value.bids, bid);
      LowestIsBest(book.value.asks, ask);
      SellIsSell(side);
      if bid.Some? || ask.Some? {
        MovedIsShifted(bid, ask, SaysSell(side), offsetBps);
        var moved := Shifted(Mid(bid, ask).value, SaysSell(side), offsetBps);
        ClampInRange(moved, min, max);
        if Clamp(moved, min, max).Some? {
          ClampIsNearest(moved, min, max);
        }
      }
    }
  }

  // ----- base units -----

  const MULTIPLIER := 1000000.0

  /** math.Round on a positive value: to the nearest integer, halves up. */
  function Round(x: real): int {
    (x + 0.5).Floor
  }

  function ToBaseUnits(value: real): Option<int> {
    var units := Round(value * MULTIPLIER);
    if value <= 0.0 || units <= 0 then None else Some(units)
  }

  datatype Amounts = Amounts(maker: int, taker: int)

  function ResolvePrice(configured: Float, override: Option<Float>): Option<real> {
    var price := if override.Some? then override.value else configured;
    if IsProbability(price) then Some(price.value) else None
  }

  function ComputeAmounts(notional: real, price: real, sell: bool): Option<Amounts>
    requires 0.0 < price < 1.0
  {
    if notional <= 0.0 then None
    else
      var notionalUnits, sizeUnits := ToBaseUnits(notional), ToBaseUnits(notional / price);
      if notionalUnits.None? || sizeUnits.None? then None
      else if sell then Some(Amounts(sizeUnits.value, notionalUnits.value))
      else Some(Amounts(notionalUnits.value, sizeUnits.value))
  }

  lemma RoundNear(x: real)
    ensures x - 0.5 < Round(x) as real <= x + 0.5
  {
  }

  lemma RoundMonotone(x: real, y: real)
    requires x <= y
    ensures Round(x) <= Round(y)
  {
  }

  lemma RoundPositive(x: real)
    ensures Round(x) > 0 <==> x >= 0.5
  {
  }

  lemma Divides(n: real, p: real)
    requires p > 0.0
    ensures p * (n / p) == n
  {
  }

  lemma ProductPositive(a: real, b: real)
    requires a > 0.0 && b > 0.0
    ensures a * b > 0.0
  {
  }

  lemma FactorAbove(n: real, s: real, p: real)
    requires n > 0.0 && 0.0 < p < 1.0 && p * s == n && s > 0.0
    ensures n < s
  {
    ProductPositive(1.0 - p, s);
    var part := p * s;
    var gap := (1.0 - p) * s;
    assert gap > 0.0;
    assert gap == s - part;
    assert part == n;
    assert part < s;
  }

  lemma QuotientPositive(n: real, p: real)
    requires n > 0.0 && p > 0.0
    ensures n / p > 0.0
  {
  }

  lemma SizeExceedsNotional(notional: real, price: real)
    requires notional > 0.0 && 0.0 < price < 1.0
    ensures notional < notional / price && price * (notional / price) == notional
  {
    Divides(notional, price);
    QuotientPositive(notional, price);
    FactorAbove(notional, notional / price, price);
  }

  /** An order is sized exactly when its notional rounds to at least one base unit. */
  lemma SizedExactlyWhen(notional: real, price: real, sell: bool)
    requires 0.0 < price < 1.0
    ensures ComputeAmounts(notional, price, sell).Some? <==> notional * 1000000.0 >= 0.5
  {
    RoundPositive(notional * MULTIPLIER);
    if notional > 0.0 {
      SizeExceedsNotional(notional, price);
      RoundMonotone(notional * MULTIPLIER, notional / price * MULTIPLIER);
    }
  }

  lemma ErrorBound(n: real, s: real, price: real, roundedN: real, roundedS: real)
    requires 0.0 < price < 1.0 && n == price * s
    requires -0.5 <= roundedN - n <= 0.5 && -0.5 <= roundedS - s <= 0.5
    ensures -1.0 < roundedN - price * roundedS < 1.0
  {
    var d := roundedS - s;
    assert price * roundedS == n + price * d;
    ScaledError(price, d);
  }

  lemma ScaledError(price: real, d: real)
    requires 0.0 < price < 1.0 && -0.5 <= d <= 0.5
    ensures -0.5 < price * d < 0.5
  {
    if d >= 0.0 {
      ScaledBelow(price, d);
    } else {
      ScaledBelow(price, -d);
    }
  }

  lemma ScaledBelow(price: real, d: real)
    requires 0.0 < price < 1.0 && 0.0 <= d <= 0.5
    ensures 0.0 <= price * d < 0.5
  {
    if d > 0.0 {
      assert (1.0 - price) * d > 0.0;
    }
  }

  lemma UnitsMatchPrice(x: real, y: real, price: real)
    requires 0.0 < price < 1.0 && x == price * y && x < y
    ensures Round(x) <= Round(y)
    ensures -1.0 < Round(x) as real - price * Round(y) as real < 1.0
  {
    RoundNear(x);
    RoundNear(y);
    RoundMonotone(x, y);
    ErrorBound(x, y, price, Round(x) as real, Round(y) as real);
  }

  /** The two amounts are the notional and the size in millionths, rounded to the nearest, halves up; they differ from
      the price by less than one unit, never buy fewer shares than they cost, and stand on the sides that the order's
      direction asks for. */
  lemma AmountsMatchPrice(notional: real, price: real, sell: bool)
    requires 0.0 < price < 1.0 && notional * 1000000.0 >= 0.5
    ensures ComputeAmounts(notional, price, sell).Some?
    ensures var Amounts(maker, taker) := ComputeAmounts(notional, price, sell).value;
            var n, s := if sell then taker else maker, if sell then maker else taker;
            0 < n <= s && -1.0 < n as real - price * s as real < 1.0
            && n as real - 0.5 <= notional * 1000000.0 < n as real + 0.5
            && s as real - 0.5 <= notional / price * 1000000.0 < s as real + 0.5
  {
    var size := notional / price;
    SizedExactlyWhen(notional, price, sell);
    SizeExceedsNotional(notional, price);
    RoundNear(notional * MULTIPLIER);
    RoundNear(size * MULTIPLIER);
    assert notional * MULTIPLIER == price * (size * MULTIPLIER);
    UnitsMatchPrice(notional * MULTIPLIER, size * MULTIPLIER, price);
  }

  /** A chosen limit price is one the order builder accepts, whatever price it was configured with. */
  lemma ChosenPriceIsResolved(dynamicEnabled: bool, book: Option<OrderBook>, side: string,
                              fallback: Float, offsetBps: Float, min: Float, max: Float, configured: Float)
    ensures var r := ChooseLimitPrice(dynamicEnabled, book, side, fallback, offsetBps, min, max);
            r.Price? ==> ResolvePrice(configured, Some(Finite(r.price))) == Some(r.price)
  {
    ChosenPriceInRange(dynamicEnabled, book, side, fallback, offsetBps, min, max);
  }

  /** The amounts of a request: the price is resolved first, then the order is sized. */
  function BuildAmounts(configured: Float, override: Option<Float>, notional: real, sell: bool): Option<Amounts> {
    var price := ResolvePrice(configured, override);
    if notional <= 0.0 || price.None? then None else ComputeAmounts(notional, price.value, sell)
  }

  /** Which requests are sized, and at which price: the override if there is one, usable, and from half a base unit. */
  lemma RequestSizedExactlyWhen(configured: Float, override: Option<Float>, notional: real, sell: bool)
    ensures var price := if override.Some? then override.value else configured;
            var a := BuildAmounts(configured, override, notional, sell);
            && (a.Some? <==> Usable(price) && notional * 1000000.0 >= 0.5)
            && (a.Some? ==> a == ComputeAmounts(notional, price.value, sell))
  {
    var price := if override.Some? then override.value else configured;
    if Usable(price) {
      SizedExactlyWhen(notional, price.value, sell);
    }
  }

  /** With a chosen limit price the only request that cannot be sized is one below half a base unit. */
  lemma ChosenPriceYieldsOrder(dynamicEnabled: bool, book: Option<OrderBook>, side: string, fallback: Float,
                               offsetBps: Float, min: Float, max: Float, configured: Float, notional: real, sell: bool)
    ensures var r := ChooseLimitPrice(dynamicEnabled, book, side, fallback, offsetBps, min, max);
            r.Price? ==> (BuildAmounts(configured, Some(Finite(r.price)), notional, sell).Some? <==>
                          notional * MULTIPLIER >= 0.5)
  {
    var r := ChooseLimitPrice(dynamicEnabled, book, side, fallback, offsetBps, min, max);
    ChosenPriceInRange(dynamicEnabled, book, side, fallback, offsetBps, min, max);
    if r.Price? {
      ChosenPriceIsResolved(dynamicEnabled, book, side, fallback, offsetBps, min, max, configured);
      SizedExactlyWhen(notional, r.price, sell);
    }
  }
}
