/** Trade-impact pricing of the demo market: an exact rational mid price that every recorded
    fill moves, and quotes that pay a clamped impact on top of it. */
module DemoMarketPricing {
  import opened Results
  import opened Arithmetic
  import opened Ratios

  const BPS: nat := 10_000

  datatype Side = Buy | Sell

  datatype PricingError = ZeroAmountOut | DivisionByZero

  /** The scenario's pricing parameters; scales are powers of ten, impacts in basis points. */
  datatype Config = Config(
    quoteScale: nat, assetScale: nat, initial: Ratio,
    impactBpsPerReference: nat, referenceAmount: nat, maxImpactBps: nat,
    minimumAmount: nat, bufferBps: nat, defaultBuy: nat, defaultSell: nat)

  predicate IsPositive(p: Ratio) {
    p.numerator > 0 && p.denominator > 0
  }

  /** What the scenario validator accepts. */
  predicate ValidConfig(cfg: Config) {
    && cfg.quoteScale > 0 && cfg.assetScale > 0 && IsPositive(cfg.initial)
    && 0 < cfg.impactBpsPerReference <= cfg.maxImpactBps < BPS
    && cfg.referenceAmount > 0 && cfg.minimumAmount > 0 && 0 < cfg.bufferBps < BPS
    && cfg.defaultBuy > 0 && cfg.defaultSell > 0
  }

  function Max(a: nat, b: nat): nat { if a > b then a else b }

  function Min(a: nat, b: nat): nat { if a < b then a else b }

  function DivideRoundingUp(n: nat, d: nat): nat
    requires d > 0
  {
    (n + d - 1) / d
  }

  function ImpactBps(cfg: Config, amountRwa: nat): nat
    requires ValidConfig(cfg)
  {
    Min(Max(DivideRoundingUp(amountRwa * cfg.impactBpsPerReference, cfg.referenceAmount), 1), cfg.maxImpactBps)
  }

  /** The amount at the mid price, rounded down. */
  function MidAmountOut(cfg: Config, p: Ratio, amountIn: nat, side: Side): nat
    requires ValidConfig(cfg) && IsPositive(p)
  {
    var assetWeight := p.denominator * cfg.assetScale;
    var quoteWeight := p.numerator * cfg.quoteScale;
    WeightsPositive(cfg, p);
    if side.Buy? then amountIn * assetWeight / quoteWeight else amountIn * quoteWeight / assetWeight
  }

  lemma WeightsPositive(cfg: Config, p: Ratio)
    requires ValidConfig(cfg) && IsPositive(p)
    ensures p.denominator * cfg.assetScale > 0 && p.numerator * cfg.quoteScale > 0
  {
  }

  /** The validator's checks on the default trades at the initial price: positive outputs, and for
      a profile that enforces the minimum amount, that both trades reach it. */
  predicate DefaultsAccepted(cfg: Config, enforcesMinimum: bool)
    requires ValidConfig(cfg)
  {
    && MidAmountOut(cfg, cfg.initial, cfg.defaultBuy, Buy) > 0
    && MidAmountOut(cfg, cfg.initial, cfg.defaultSell, Sell) > 0
    && (enforcesMinimum ==>
          && cfg.minimumAmount <= MidAmountOut(cfg, cfg.initial, cfg.defaultBuy, Buy)
          && cfg.minimumAmount <= cfg.defaultSell)
  }

  /** What remains of a mid amount after its impact. */
  function AfterImpact(mid: nat, impact: nat, side: Side): nat
    requires impact < BPS
  {
    if side.Buy? then
      DivAtLeast(mid * BPS, BPS + impact, 0);
      mid * BPS / (BPS + impact)
    else
      MulMono(0, mid, BPS - impact);
      mid * (BPS - impact) / BPS
  }

  function AmountOut(cfg: Config, p: Ratio, amountIn: nat, side: Side): Result<nat, PricingError>
    requires ValidConfig(cfg) && IsPositive(p)
  {
    var mid := MidAmountOut(cfg, p, amountIn, side);
    var impact := ImpactBps(cfg, if side.Buy? then mid else amountIn);
    var out := AfterImpact(mid, impact, side);
    if out <= 0 then Err(ZeroAmountOut) else Ok(out)
  }

  /** The factor, over BPS, by which a fill multiplies the price. */
  function Factor(cfg: Config, side: Side, amountRwa: nat): nat
    requires ValidConfig(cfg)
  {
    if side.Buy? then BPS + ImpactBps(cfg, amountRwa) else BPS - ImpactBps(cfg, amountRwa)
  }

  /** The price after a fill. */
  function AfterFill(cfg: Config, p: Ratio, side: Side, amountRwa: nat): Ratio
    requires ValidConfig(cfg) && IsPositive(p)
  {
    NormalizeRatio(p.numerator * Factor(cfg, side, amountRwa), p.denominator * BPS)
  }

  function BufferedMinimum(cfg: Config): nat {
    DivideRoundingUp(cfg.minimumAmount * (BPS + cfg.bufferBps), BPS)
  }

  function RequiredBuy(cfg: Config, p: Ratio): nat
    requires ValidConfig(cfg) && IsPositive(p)
  {
    WeightsPositive(cfg, p);
    DivideRoundingUp(BufferedMinimum(cfg) * (p.numerator * cfg.quoteScale), p.denominator * cfg.assetScale)
  }

  datatype Suggestion = Suggestion(buyAmountIn: nat, sellAmountIn: nat)

  function SuggestedTradeAmounts(cfg: Config, p: Ratio): Suggestion
    requires ValidConfig(cfg) && IsPositive(p)
  {
    Suggestion(Max(RequiredBuy(cfg, p), cfg.defaultBuy), Max(BufferedMinimum(cfg), cfg.defaultSell))
  }

  datatype Fill = Fill(side: Side, amountRwa: nat)

  /** The price after a run of fills, oldest first. */
  function AfterFills(cfg: Config, fills: seq<Fill>): (p: Ratio)
    requires ValidConfig(cfg)
    ensures IsPositive(p)
  {
    if fills == [] then cfg.initial
    else
      var last := fills[|fills| - 1];
      var before := AfterFills(cfg, fills[..|fills| - 1]);
      FillMovesPrice(cfg, before, last.side, last.amountRwa);
      AfterFill(cfg, before, last.side, last.amountRwa)
  }

  lemma AfterOneMore(cfg: Config, fills: seq<Fill>, fill: Fill)
    requires ValidConfig(cfg)
    ensures AfterFills(cfg, fills + [fill]) == AfterFill(cfg, AfterFills(cfg, fills), fill.side, fill.amountRwa)
  {
    hide AfterFill;
    assert (fills + [fill])[..|fills|] == fills;
  }

  /** A fill multiplies the price by exactly its factor, and leaves it in lowest terms. */
  lemma FillMovesPrice(cfg: Config, p: Ratio, side: Side, amountRwa: nat)
    requires ValidConfig(cfg) && IsPositive(p)
    ensures var q := AfterFill(cfg, p, side, amountRwa);
            && q.numerator * (p.denominator * BPS) == (p.numerator * Factor(cfg, side, amountRwa)) * q.denominator
            && IsPositive(q) && Gcd(q.numerator, q.denominator) == 1
    ensures side.Buy? ==> Factor(cfg, side, amountRwa) == 10_000 + ImpactBps(cfg, amountRwa)
    ensures side.Sell? ==> Factor(cfg, side, amountRwa) == 10_000 - ImpactBps(cfg, amountRwa)
  {
    assert p.numerator * Factor(cfg, side, amountRwa) > 0;
    NormalizeKeepsRatio(p.numerator * Factor(cfg, side, amountRwa), p.denominator * BPS);
  }

  datatype Move = Initial | BuyUp | SellDown

  datatype FillDetails = FillDetails(timestamp: int, amountRwa: nat, amountQuote: nat, transactionHash: string)

  datatype PricePoint = PricePoint(timestamp: int, price: Ratio)

  datatype FillPoint = FillPoint(point: PricePoint, side: Side, details: FillDetails)

  class DemoMarket {
    const cfg: Config
    var price: Ratio
    var lastImpactBps: nat
    var lastMove: Move
    var indicativeHistory: seq<PricePoint>
    var fills: seq<FillPoint>
    /** Every fill since the last reset, with or without details. */
    ghost var run: seq<Fill>

    ghost predicate Valid()
      reads this
    {
      ValidConfig(cfg) && price == AfterFills(cfg, run)
    }

    constructor (cfg: Config)
      requires ValidConfig(cfg)
      ensures Valid() && this.cfg == cfg && run == [] && fills == [] && lastMove.Initial?
    {
      this.cfg := cfg;
      price := cfg.initial;
      lastImpactBps := 0;
      lastMove := Initial;
      indicativeHistory := [];
      fills := [];
      run := [];
    }

    /** Reduces a ratio with the source's loop. */
    method Normalize(numerator: nat, denominator: nat) returns (r: Ratio)
      requires numerator > 0 || denominator > 0
      ensures r == NormalizeRatio(numerator, denominator)
    {
      GcdDivides(numerator, denominator);
      var divisor := GreatestCommonDivisor(numerator, denominator);
      r := Ratio(Quotient(numerator, divisor), Quotient(denominator, divisor));
    }

    method RecordFill(side: Side, details: Option<FillDetails>) returns (res: Result<(), PricingError>)
      requires Valid()
      modifies this
      ensures Valid()
      ensures res.Err? <==> details.Some? && details.value.amountQuote == 0 && details.value.amountRwa == 0
      ensures res.Err? ==> unchanged(this)
      ensures res.Ok? ==>
                var amount := if details.Some? then details.value.amountRwa else cfg.referenceAmount;
                && run == old(run) + [Fill(side, amount)]
                && price == AfterFill(cfg, old(price), side, amount)
                && lastImpactBps == ImpactBps(cfg, amount)
                && lastMove == (if side.Buy? then BuyUp else SellDown)
      ensures res.Ok? && details.None? ==> fills == old(fills) && indicativeHistory == old(indicativeHistory)
      ensures res.Ok? && details.Some? ==>
                && indicativeHistory == old(indicativeHistory) + [PricePoint(details.value.timestamp, price)]
                && (details.value.amountQuote * cfg.assetScale > 0 || details.value.amountRwa * cfg.quoteScale > 0)
                && fills == old(fills) + [FillPoint(
                     PricePoint(details.value.timestamp,
                                NormalizeRatio(details.value.amountQuote * cfg.assetScale,
                                               details.value.amountRwa * cfg.quoteScale)),
                     side, details.value)]
    {
      hide AfterFills, NormalizeRatio, ImpactBps, Gcd;
      var amount := cfg.referenceAmount;
      if details.Some? {
        amount := details.value.amountRwa;
        var paid := details.value.amountQuote * cfg.assetScale;
        var received := amount * cfg.quoteScale;
        if paid == 0 && received == 0 {
          return Err(DivisionByZero);
        }
        var executed := Normalize(paid, received);
        fills := fills + [FillPoint(PricePoint(details.value.timestamp, executed), side, details.value)];
      }
      var bps := ImpactBps(cfg, amount);
      FillMovesPrice(cfg, price, side, amount);
      assert price.numerator * Factor(cfg, side, amount) >= 0 && price.denominator * BPS > 0;
      var next := Normalize(price.numerator * (if side.Buy? then BPS + bps else BPS - bps), price.denominator * BPS);
      AfterOneMore(cfg, run, Fill(side, amount));
      price := next;
      run := run + [Fill(side, amount)];
      lastImpactBps := bps;
      lastMove := if side.Buy? then BuyUp else SellDown;
      if details.Some? {
        indicativeHistory := indicativeHistory + [PricePoint(details.value.timestamp, price)];
      }
      return Ok(());
    }

    /** Back to the initial price; the replayed chart series comes from outside the model. */
    method Reset(series: seq<PricePoint>)
      requires Valid()
      modifies this
      ensures Valid() && run == [] && price == cfg.initial && lastMove.Initial? && lastImpactBps == 0
      ensures fills == [] && indicativeHistory == series
    {
      price := cfg.initial;
      lastMove := Initial;
      lastImpactBps := 0;
      fills := [];
      indicativeHistory := series;
      run := [];
    }
  }
}
