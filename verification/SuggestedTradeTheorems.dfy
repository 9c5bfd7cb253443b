/** When the suggested trades reach the minimum amount. */
module SuggestedTradeTheorems {
  import opened Results
  import opened Arithmetic
  import opened Ratios
  import opened DemoMarketPricing
  import opened PricingTheorems

  /** The required buy is the least input whose mid output reaches the buffered minimum. */
  lemma RequiredBuyIsLeast(cfg: Config, p: Ratio, x: nat)
    requires ValidConfig(cfg) && IsPositive(p)
    ensures RequiredBuy(cfg, p) <= x <==> BufferedMinimum(cfg) <= MidAmountOut(cfg, p, x, Buy)
  {
    WeightsPositive(cfg, p);
    RoundingUpIsLeast(BufferedMinimum(cfg) * (p.numerator * cfg.quoteScale), p.denominator * cfg.assetScale, x);
    MidIsFloor(cfg, p, x, Buy, BufferedMinimum(cfg));
  }

  /** What is suggested: the least buy that is no smaller than the default one and whose mid output
      reaches the minimum with the buffer on top, and the least such sell. */
  lemma SuggestionsExactly(cfg: Config, p: Ratio, x: nat)
    requires ValidConfig(cfg) && IsPositive(p)
    ensures var buffered := cfg.minimumAmount * (10_000 + cfg.bufferBps);
            && (SuggestedTradeAmounts(cfg, p).buyAmountIn <= x <==>
                  cfg.defaultBuy <= x && buffered <= MidAmountOut(cfg, p, x, Buy) * 10_000)
            && (SuggestedTradeAmounts(cfg, p).sellAmountIn <= x <==> cfg.defaultSell <= x && buffered <= x * 10_000)
  {
    hide MidAmountOut, RequiredBuy;
    RequiredBuyIsLeast(cfg, p, x);
    RoundingUpIsLeast(cfg.minimumAmount * (BPS + cfg.bufferBps), BPS, MidAmountOut(cfg, p, x, Buy));
    RoundingUpIsLeast(cfg.minimumAmount * (BPS + cfg.bufferBps), BPS, x);
  }

  /** The validator accepts the default trades exactly when each is worth at least one unit at the
      initial price and, where the minimum is enforced, the buy is worth the minimum and the sell
      is at least that. */
  lemma DefaultsAcceptedExactly(cfg: Config, enforcesMinimum: bool)
    requires ValidConfig(cfg)
    ensures var u, v := cfg.initial.numerator * cfg.quoteScale, cfg.initial.denominator * cfg.assetScale;
            DefaultsAccepted(cfg, enforcesMinimum) <==>
              && u <= cfg.defaultBuy * v && v <= cfg.defaultSell * u
              && (enforcesMinimum ==>
                    cfg.minimumAmount * u <= cfg.defaultBuy * v && cfg.minimumAmount <= cfg.defaultSell)
  {
    hide MidAmountOut;
    MidIsFloor(cfg, cfg.initial, cfg.defaultBuy, Buy, 1);
    MidIsFloor(cfg, cfg.initial, cfg.defaultSell, Sell, 1);
    MidIsFloor(cfg, cfg.initial, cfg.defaultBuy, Buy, cfg.minimumAmount);
  }

  /** A mid amount at the buffered minimum covers the minimum after any impact within the buffer. */
  lemma BufferCoversImpact(cfg: Config, mid: nat, impact: nat)
    requires ValidConfig(cfg) && BufferedMinimum(cfg) <= mid && impact <= cfg.bufferBps
    ensures cfg.minimumAmount <= AfterImpact(mid, impact, Buy)
  {
    RoundingUpIsLeast(cfg.minimumAmount * (BPS + cfg.bufferBps), BPS, mid);
    MulMono(BPS + impact, BPS + cfg.bufferBps, cfg.minimumAmount);
    DivAtLeast(mid * BPS, BPS + impact, cfg.minimumAmount);
  }

  lemma BufferedMinimumCovers(cfg: Config)
    requires ValidConfig(cfg)
    ensures cfg.minimumAmount <= BufferedMinimum(cfg)
  {
  }

  /** The suggested buy yields at least the minimum amount. */
  predicate BuyQualifies(cfg: Config, p: Ratio)
    requires ValidConfig(cfg) && IsPositive(p)
  {
    var out := AmountOut(cfg, p, SuggestedTradeAmounts(cfg, p).buyAmountIn, Buy);
    out.Ok? && cfg.minimumAmount <= out.value
  }

  /** The suggested sell is at least the minimum amount, at every price. */
  lemma SuggestedSellQualifies(cfg: Config, p: Ratio)
    requires ValidConfig(cfg) && IsPositive(p)
    ensures cfg.minimumAmount <= SuggestedTradeAmounts(cfg, p).sellAmountIn
  {
    BufferedMinimumCovers(cfg);
  }

  /** A mid amount covers the minimum with the impact on top. */
  predicate Covers(cfg: Config, mid: nat)
    requires ValidConfig(cfg)
  {
    cfg.minimumAmount * (BPS + ImpactBps(cfg, mid)) <= mid * BPS
  }

  lemma BuyQualifiesIffMidCovers(cfg: Config, p: Ratio)
    requires ValidConfig(cfg) && IsPositive(p)
    ensures BuyQualifies(cfg, p) <==>
              Covers(cfg, MidAmountOut(cfg, p, SuggestedTradeAmounts(cfg, p).buyAmountIn, Buy))
  {
    hide ImpactBps, MidAmountOut, SuggestedTradeAmounts;
    var mid := MidAmountOut(cfg, p, SuggestedTradeAmounts(cfg, p).buyAmountIn, Buy);
    ImpactInRange(cfg, mid);
    PayoutIsFloor(mid, ImpactBps(cfg, mid), Buy, cfg.minimumAmount);
  }

  lemma SuggestedMidIsBuffered(cfg: Config, p: Ratio)
    requires ValidConfig(cfg) && IsPositive(p)
    ensures BufferedMinimum(cfg) <= MidAmountOut(cfg, p, SuggestedTradeAmounts(cfg, p).buyAmountIn, Buy)
  {
    RequiredBuyIsLeast(cfg, p, SuggestedTradeAmounts(cfg, p).buyAmountIn);
  }

  /** From here on any mid amount covers the minimum, whatever its impact. */
  function AlwaysCovering(cfg: Config): nat {
    DivideRoundingUp(cfg.minimumAmount * (BPS + cfg.maxImpactBps), BPS)
  }

  lemma LargeMidsCover(cfg: Config, m: nat)
    requires ValidConfig(cfg) && AlwaysCovering(cfg) <= m
    ensures Covers(cfg, m)
  {
    hide ImpactBps;
    ImpactInRange(cfg, m);
    RoundingUpIsLeast(cfg.minimumAmount * (BPS + cfg.maxImpactBps), BPS, m);
    MulMono(BPS + ImpactBps(cfg, m), BPS + cfg.maxImpactBps, cfg.minimumAmount);
  }

  /** At this price the default buy has the mid amount `m`. */
  lemma PriceWithMid(cfg: Config, m: nat) returns (p: Ratio)
    requires ValidConfig(cfg) && m > 0
    ensures IsPositive(p) && MidAmountOut(cfg, p, cfg.defaultBuy, Buy) == m
  {
    p := Ratio(cfg.defaultBuy * cfg.assetScale, m * cfg.quoteScale);
    var weight := p.numerator * cfg.quoteScale;
    assert cfg.defaultBuy * (p.denominator * cfg.assetScale) == m * weight;
    DivUnique(m * weight, weight, m);
  }

  /** The buffered minimum covers the minimum, and so does the first amount of each later impact
      step: no more checks than there are basis points in the maximal impact. */
  ghost predicate EveryStepCovers(cfg: Config)
    requires ValidConfig(cfg)
  {
    && Covers(cfg, BufferedMinimum(cfg))
    && forall i: nat :: 1 <= i < cfg.maxImpactBps && BufferedMinimum(cfg) <= StepAt(cfg, i) ==>
         Covers(cfg, StepAt(cfg, i) + 1)
  }

  /** A larger amount of the same impact covers as well. */
  lemma CoversUpwards(cfg: Config, f: nat, m: nat)
    requires ValidConfig(cfg) && f <= m && ImpactBps(cfg, f) == ImpactBps(cfg, m) && Covers(cfg, f)
    ensures Covers(cfg, m)
  {
    hide ImpactBps;
  }

  lemma StepsCoverAll(cfg: Config, m: nat)
    requires ValidConfig(cfg) && EveryStepCovers(cfg) && BufferedMinimum(cfg) <= m
    ensures Covers(cfg, m)
  {
    hide ImpactBps, StepAt, Covers, BufferedMinimum;
    var least := BufferedMinimum(cfg);
    ImpactMonotone(cfg, least, m);
    ImpactInRange(cfg, least);
    ImpactInRange(cfg, m);
    if ImpactBps(cfg, least) == ImpactBps(cfg, m) {
      CoversUpwards(cfg, least, m);
    } else {
      var i := ImpactBps(cfg, m) - 1;
      var first := StepAt(cfg, i) + 1;
      ImpactMonotone(cfg, first, m);
      CoversUpwards(cfg, first, m);
    }
  }

  /** The suggested buy qualifies at every price exactly when the buffered minimum and the first
      amount of each impact step beyond it cover the minimum. */
  lemma QualifiesAtEveryPriceExactlyWhen(cfg: Config)
    requires ValidConfig(cfg)
    ensures (forall p: Ratio :: IsPositive(p) ==> BuyQualifies(cfg, p)) <==> EveryStepCovers(cfg)
  {
    hide BuyQualifies, Covers, MidAmountOut, SuggestedTradeAmounts, BufferedMinimum, StepAt;
    if EveryStepCovers(cfg) {
      forall p: Ratio | IsPositive(p) ensures BuyQualifies(cfg, p) {
        BuyQualifiesIffMidCovers(cfg, p);
        SuggestedMidIsBuffered(cfg, p);
        StepsCoverAll(cfg, MidAmountOut(cfg, p, SuggestedTradeAmounts(cfg, p).buyAmountIn, Buy));
      }
    }
    if forall p: Ratio :: IsPositive(p) ==> BuyQualifies(cfg, p) {
      forall m: nat | BufferedMinimum(cfg) <= m ensures Covers(cfg, m) {
        BufferedMinimumCovers(cfg);
        var p := PriceWithMid(cfg, m);
        DefaultIsSuggested(cfg, p);
        BuyQualifiesIffMidCovers(cfg, p);
      }
    }
  }

  lemma DefaultIsSuggested(cfg: Config, p: Ratio)
    requires ValidConfig(cfg) && IsPositive(p) && BufferedMinimum(cfg) <= MidAmountOut(cfg, p, cfg.defaultBuy, Buy)
    ensures SuggestedTradeAmounts(cfg, p).buyAmountIn == cfg.defaultBuy
  {
    RequiredBuyIsLeast(cfg, p, cfg.defaultBuy);
  }

  /** The suggestions qualify at every price at which the impact of the suggested buy stays
      within the buffer. */
  lemma SuggestionsQualifyWithinBuffer(cfg: Config, p: Ratio)
    requires ValidConfig(cfg) && IsPositive(p)
    requires ImpactBps(cfg, MidAmountOut(cfg, p, SuggestedTradeAmounts(cfg, p).buyAmountIn, Buy)) <= cfg.bufferBps
    ensures BuyQualifies(cfg, p) && cfg.minimumAmount <= SuggestedTradeAmounts(cfg, p).sellAmountIn
  {
    hide SuggestedTradeAmounts, BufferedMinimum, ImpactBps, MidAmountOut;
    var mid := MidAmountOut(cfg, p, SuggestedTradeAmounts(cfg, p).buyAmountIn, Buy);
    SuggestedMidIsBuffered(cfg, p);
    ImpactInRange(cfg, mid);
    BufferCoversImpact(cfg, mid, ImpactBps(cfg, mid));
    SuggestedSellQualifies(cfg, p);
  }

  /** With a buffer of at least the maximal impact, that is at every price. */
  lemma SuggestionsQualify(cfg: Config, p: Ratio)
    requires ValidConfig(cfg) && IsPositive(p) && cfg.maxImpactBps <= cfg.bufferBps
    ensures BuyQualifies(cfg, p) && cfg.minimumAmount <= SuggestedTradeAmounts(cfg, p).sellAmountIn
  {
    ImpactInRange(cfg, MidAmountOut(cfg, p, SuggestedTradeAmounts(cfg, p).buyAmountIn, Buy));
    SuggestionsQualifyWithinBuffer(cfg, p);
  }

  /** A smaller buffer does as well, if it covers the impact of every amount that could fall short:
      those below the minimum with the maximal impact on top. */
  predicate BufferCoversNeed(cfg: Config) {
    cfg.impactBpsPerReference * (cfg.minimumAmount * (BPS + cfg.maxImpactBps))
      <= cfg.bufferBps * cfg.referenceAmount * BPS
  }

  lemma SmallMidsHaveBufferedImpact(cfg: Config, m: nat)
    requires ValidConfig(cfg) && BufferCoversNeed(cfg) && m * BPS <= cfg.minimumAmount * (BPS + cfg.maxImpactBps)
    ensures ImpactBps(cfg, m) <= cfg.bufferBps
  {
    ImpactIsLeast(cfg, m, cfg.bufferBps);
    MulMono(m * BPS, cfg.minimumAmount * (BPS + cfg.maxImpactBps), cfg.impactBpsPerReference);
    assert (m * cfg.impactBpsPerReference) * BPS == (m * BPS) * cfg.impactBpsPerReference;
    MulCancel(m * cfg.impactBpsPerReference, cfg.bufferBps * cfg.referenceAmount, BPS);
  }

  lemma SuggestionsQualifyWithNeededBuffer(cfg: Config, p: Ratio)
    requires ValidConfig(cfg) && IsPositive(p) && BufferCoversNeed(cfg)
    ensures BuyQualifies(cfg, p) && cfg.minimumAmount <= SuggestedTradeAmounts(cfg, p).sellAmountIn
  {
    hide BuyQualifies, Covers, MidAmountOut, SuggestedTradeAmounts, ImpactBps, BufferedMinimum;
    var mid := MidAmountOut(cfg, p, SuggestedTradeAmounts(cfg, p).buyAmountIn, Buy);
    SuggestedSellQualifies(cfg, p);
    if AlwaysCovering(cfg) <= mid {
      BuyQualifiesIffMidCovers(cfg, p);
      LargeMidsCover(cfg, mid);
    } else {
      RoundingUpIsLeast(cfg.minimumAmount * (BPS + cfg.maxImpactBps), BPS, mid);
      SmallMidsHaveBufferedImpact(cfg, mid);
      SuggestionsQualifyWithinBuffer(cfg, p);
    }
  }

  /** The shipped demo scenario, in base units of eighteen decimals. */
  function ShippedScenario(): Config {
    var scale := 1_000_000_000_000_000_000;
    var fund := 5_000_000 * scale;
    Config(scale, scale, Ratio(1, 1), 12, fund, 75, fund, 50, fund, fund)
  }

  /** It has a buffer below its maximal impact, and its suggestions qualify at every price. */
  lemma ShippedScenarioQualifies(p: Ratio)
    requires IsPositive(p)
    ensures var cfg := ShippedScenario();
            && ValidConfig(cfg) && DefaultsAccepted(cfg, true) && cfg.bufferBps < cfg.maxImpactBps
            && BuyQualifies(cfg, p) && cfg.minimumAmount <= SuggestedTradeAmounts(cfg, p).sellAmountIn
  {
    hide BuyQualifies, SuggestedTradeAmounts;
    SuggestionsQualifyWithNeededBuffer(ShippedScenario(), p);
  }

  /** In general they need not: an accepted configuration that enforces the minimum, with a buffer
      of 1 under an impact of 500, falls short at its initial price. */
  lemma SmallBufferFallsShort()
    ensures var cfg := Config(1, 1, Ratio(1, 1), 500, 1, 500, 10_000, 1, 10_000, 10_000);
            && ValidConfig(cfg) && DefaultsAccepted(cfg, true)
            && AmountOut(cfg, cfg.initial, SuggestedTradeAmounts(cfg, cfg.initial).buyAmountIn, Buy) == Ok(9524)
            && !BuyQualifies(cfg, cfg.initial)
  {
  }
}
