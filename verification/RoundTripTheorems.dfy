/** Round trips opened by one fill: closing them in any number of parts loses. */
module RoundTripTheorems {
  import opened Results
  import opened Arithmetic
  import opened Ratios
  import opened DemoMarketPricing
  import opened PricingTheorems

  /** What one unit paid in weighs, and what one unit paid out weighs. */
  function InWeight(cfg: Config, p: Ratio, side: Side): nat {
    if side.Buy? then p.denominator * cfg.assetScale else p.numerator * cfg.quoteScale
  }

  function OutWeight(cfg: Config, p: Ratio, side: Side): nat {
    if side.Buy? then p.numerator * cfg.quoteScale else p.denominator * cfg.assetScale
  }

  function Total(parts: seq<nat>): nat {
    if parts == [] then 0 else parts[0] + Total(parts[1..])
  }

  /** The price after a trade that paid out. */
  function AfterTrade(cfg: Config, p: Ratio, side: Side, amountIn: nat, amountOut: nat): (q: Ratio)
    requires ValidConfig(cfg) && IsPositive(p)
    ensures IsPositive(q)
  {
    var rwa := if side.Buy? then amountOut else amountIn;
    FillMovesPrice(cfg, p, side, rwa);
    AfterFill(cfg, p, side, rwa)
  }

  /** Everything paid out for trading the parts one after the other on one side; a part that would
      pay nothing is refused and leaves the price alone. */
  function TradeInParts(cfg: Config, p: Ratio, side: Side, parts: seq<nat>): nat
    requires ValidConfig(cfg) && IsPositive(p)
    decreases |parts|
  {
    if parts == [] then 0
    else match AmountOut(cfg, p, parts[0], side)
      case Err(_) => TradeInParts(cfg, p, side, parts[1..])
      case Ok(out) => out + TradeInParts(cfg, AfterTrade(cfg, p, side, parts[0], out), side, parts[1..])
  }

  /** Trading on a side never improves its rate. */
  lemma TradeWorsensRate(cfg: Config, p: Ratio, side: Side, amountIn: nat, amountOut: nat)
    requires ValidConfig(cfg) && IsPositive(p)
    ensures var q := AfterTrade(cfg, p, side, amountIn, amountOut);
            InWeight(cfg, q, side) * OutWeight(cfg, p, side) <= InWeight(cfg, p, side) * OutWeight(cfg, q, side)
  {
    hide AfterFill, ImpactBps;
    var rwa := if side.Buy? then amountOut else amountIn;
    var q := AfterTrade(cfg, p, side, amountIn, amountOut);
    FillMovesWeights(cfg, p, side, rwa);
    ImpactInRange(cfg, rwa);
    RateByFactor(q.numerator * cfg.quoteScale, q.denominator * cfg.assetScale,
                 p.numerator * cfg.quoteScale, p.denominator * cfg.assetScale, Factor(cfg, side, rwa));
  }

  /** With weights u' to v' in the proportion of f/BPS to u to v: a factor of at most BPS lowers
      u against v, one of at least BPS raises it. */
  lemma RateByFactor(u': nat, v': nat, u: nat, v: nat, f: nat)
    requires u' * (v * BPS) == v' * (u * f)
    ensures f <= BPS ==> u' * v <= u * v'
    ensures BPS <= f ==> v' * u <= v * u'
  {
    assert (u' * v) * BPS == (u * v') * f;
    if f <= BPS {
      MulMono(f, BPS, u * v');
      MulCancel(u' * v, u * v', BPS);
    }
    if BPS <= f {
      MulMono(BPS, f, u * v');
      MulCancel(v' * u, v * u', BPS);
    }
  }

  /** A rate that is no better than a reference rate, worsened further. */
  lemma RatesChain(in1: nat, out1: nat, in0: nat, out0: nat, inRef: nat, outRef: nat)
    requires out0 > 0 && in1 * out0 <= in0 * out1 && in0 * outRef <= inRef * out0
    ensures in1 * outRef <= inRef * out1
  {
    MulMono(in1 * out0, in0 * out1, outRef);
    MulMono(in0 * outRef, inRef * out0, out1);
    assert (in1 * outRef) * out0 == (in1 * out0) * outRef;
    assert (in0 * out1) * outRef == (in0 * outRef) * out1;
    assert (inRef * out0) * out1 == (inRef * out1) * out0;
    MulCancel(in1 * outRef, inRef * out1, out0);
  }

  lemma WeightsArePositive(cfg: Config, p: Ratio, side: Side)
    requires ValidConfig(cfg) && IsPositive(p)
    ensures InWeight(cfg, p, side) > 0 && OutWeight(cfg, p, side) > 0
  {
    WeightsPositive(cfg, p);
  }

  /** One trade pays strictly less than its input is worth at any rate at least as good. */
  lemma TradePaysLess(cfg: Config, p: Ratio, side: Side, amountIn: nat, inRef: nat, outRef: nat)
    requires ValidConfig(cfg) && IsPositive(p) && AmountOut(cfg, p, amountIn, side).Ok?
    requires InWeight(cfg, p, side) * outRef <= inRef * OutWeight(cfg, p, side)
    ensures (AmountOut(cfg, p, amountIn, side).value + 1) * outRef <= amountIn * inRef
  {
    hide ImpactBps, MidAmountOut, AfterImpact;
    var mid := MidAmountOut(cfg, p, amountIn, side);
    var rwa := if side.Buy? then mid else amountIn;
    var out := AmountOut(cfg, p, amountIn, side).value;
    ImpactInRange(cfg, rwa);
    ImpactShrinks(mid, ImpactBps(cfg, rwa), side);
    MidIsFloor(cfg, p, amountIn, side, mid);
    WeightsArePositive(cfg, p, side);
    WorthAtReference(mid, amountIn, InWeight(cfg, p, side), OutWeight(cfg, p, side), inRef, outRef);
    MulMono(out + 1, mid, outRef);
  }

  lemma WorthAtReference(mid: nat, amountIn: nat, inW: nat, outW: nat, inRef: nat, outRef: nat)
    requires outW > 0 && mid * outW <= amountIn * inW && inW * outRef <= inRef * outW
    ensures mid * outRef <= amountIn * inRef
  {
    MulMono(mid * outW, amountIn * inW, outRef);
    MulMono(inW * outRef, inRef * outW, amountIn);
    assert (mid * outRef) * outW == (mid * outW) * outRef;
    assert (amountIn * inW) * outRef == (inW * outRef) * amountIn;
    assert (inRef * outW) * amountIn == (amountIn * inRef) * outW;
    MulCancel(mid * outRef, amountIn * inRef, outW);
  }

  /** Trading in parts from a rate no better than a reference pays less than the parts are worth
      at the reference, strictly less if it pays anything. */
  lemma {:induction false} PartsPayLess(
      cfg: Config, p: Ratio, side: Side, parts: seq<nat>, inRef: nat, outRef: nat)
    requires ValidConfig(cfg) && IsPositive(p)
    requires InWeight(cfg, p, side) * outRef <= inRef * OutWeight(cfg, p, side)
    ensures var paid := TradeInParts(cfg, p, side, parts);
            (if paid > 0 then paid + 1 else 0) * outRef <= Total(parts) * inRef
    decreases |parts|
  {
    hide AmountOut, AfterTrade, InWeight, OutWeight;
    if parts != [] {
      var rest := parts[1..];
      match AmountOut(cfg, p, parts[0], side) {
        case Err(_) =>
          PartsPayLess(cfg, p, side, rest, inRef, outRef);
          MulMono(Total(rest), Total(parts), inRef);
        case Ok(out) =>
          var q := AfterTrade(cfg, p, side, parts[0], out);
          TradePaysLess(cfg, p, side, parts[0], inRef, outRef);
          TradeWorsensRate(cfg, p, side, parts[0], out);
          WeightsArePositive(cfg, p, side);
          RatesChain(InWeight(cfg, q, side), OutWeight(cfg, q, side), InWeight(cfg, p, side),
                     OutWeight(cfg, p, side), inRef, outRef);
          PartsPayLess(cfg, q, side, rest, inRef, outRef);
          var paid := TradeInParts(cfg, q, side, rest);
          MulMono(out + 1 + paid, out + 1 + if paid > 0 then paid + 1 else 0, outRef);
          Distribute(out + 1, if paid > 0 then paid + 1 else 0, outRef);
          Distribute(parts[0], Total(rest), inRef);
      }
    }
  }

  lemma Distribute(a: int, b: int, c: int)
    ensures (a + b) * c == a * c + b * c
  {
  }

  /** One buy, then selling what it received in any parts, returns strictly less than was paid. */
  lemma BuyThenSellInPartsLoses(cfg: Config, p: Ratio, x: nat, parts: seq<nat>)
    requires ValidConfig(cfg) && IsPositive(p)
    ensures AmountOut(cfg, p, x, Buy).Ok? ==>
              var r := AmountOut(cfg, p, x, Buy).value;
              Total(parts) <= r ==> TradeInParts(cfg, AfterTrade(cfg, p, Buy, x, r), Sell, parts) < x
  {
    if AmountOut(cfg, p, x, Buy).Ok? && Total(parts) <= AmountOut(cfg, p, x, Buy).value {
      hide ImpactBps, MidAmountOut, TradeInParts, AfterFill;
      var r := AmountOut(cfg, p, x, Buy).value;
      var q := AfterTrade(cfg, p, Buy, x, r);
      var m := MidAmountOut(cfg, p, x, Buy);
      var b, c := ImpactBps(cfg, m), ImpactBps(cfg, r);
      var paid := TradeInParts(cfg, q, Sell, parts);
      var back := if paid > 0 then paid + 1 else 0;
      ImpactInRange(cfg, m);
      ImpactShrinks(m, b, Buy);
      ImpactMonotone(cfg, r, m);
      PayoutIsFloor(m, b, Buy, r);
      MidIsFloor(cfg, p, x, Buy, m);
      FillMovesWeights(cfg, p, Buy, r);
      PartsPayLess(cfg, q, Sell, parts, InWeight(cfg, q, Sell), OutWeight(cfg, q, Sell));
      MulMono(Total(parts), r, InWeight(cfg, q, Sell));
      WeightsPositive(cfg, p);
      WeightsPositive(cfg, q);
      BuyThenSellMid(x, p.numerator * cfg.quoteScale, p.denominator * cfg.assetScale, m, b, r, c,
                     q.numerator * cfg.quoteScale, q.denominator * cfg.assetScale, back);
      if x == 0 {
        MulMono(1, m, p.numerator * cfg.quoteScale);
      }
    }
  }

  /** One sell, then buying back with its proceeds in any parts, returns strictly less asset. */
  lemma SellThenBuyInPartsLoses(cfg: Config, p: Ratio, r: nat, parts: seq<nat>)
    requires ValidConfig(cfg) && IsPositive(p)
    ensures AmountOut(cfg, p, r, Sell).Ok? ==>
              var y := AmountOut(cfg, p, r, Sell).value;
              Total(parts) <= y ==> TradeInParts(cfg, AfterTrade(cfg, p, Sell, r, y), Buy, parts) < r
  {
    if AmountOut(cfg, p, r, Sell).Ok? && Total(parts) <= AmountOut(cfg, p, r, Sell).value {
      hide ImpactBps, MidAmountOut, TradeInParts, AfterFill;
      var y := AmountOut(cfg, p, r, Sell).value;
      var q := AfterTrade(cfg, p, Sell, r, y);
      var m := MidAmountOut(cfg, p, r, Sell);
      var b := ImpactBps(cfg, r);
      var paid := TradeInParts(cfg, q, Buy, parts);
      var back := if paid > 0 then paid + 1 else 0;
      ImpactInRange(cfg, r);
      ImpactShrinks(m, b, Sell);
      PayoutIsFloor(m, b, Sell, y);
      MidIsFloor(cfg, p, r, Sell, m);
      FillMovesWeights(cfg, p, Sell, r);
      PartsPayLess(cfg, q, Buy, parts, InWeight(cfg, q, Buy), OutWeight(cfg, q, Buy));
      MulMono(Total(parts), y, InWeight(cfg, q, Buy));
      WeightsPositive(cfg, p);
      WeightsPositive(cfg, q);
      SellThenBuyMid(r, p.numerator * cfg.quoteScale, p.denominator * cfg.assetScale, m, b, y,
                     q.numerator * cfg.quoteScale, q.denominator * cfg.assetScale, back);
      if r == 0 {
        MulMono(1, m, p.denominator * cfg.assetScale);
      }
    }
  }
}
