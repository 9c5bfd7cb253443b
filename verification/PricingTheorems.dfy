/** Bounds on what trading against the demo market can yield. */
module PricingTheorems {
  import opened Results
  import opened Arithmetic
  import opened Ratios
  import opened DemoMarketPricing

  lemma ImpactInRange(cfg: Config, a: nat)
    requires ValidConfig(cfg)
    ensures 1 <= ImpactBps(cfg, a) <= cfg.maxImpactBps
  {
  }

  lemma ImpactMonotone(cfg: Config, a: nat, b: nat)
    requires ValidConfig(cfg) && a <= b
    ensures ImpactBps(cfg, a) <= ImpactBps(cfg, b)
  {
    MulMono(a, b, cfg.impactBpsPerReference);
    DivMono(a * cfg.impactBpsPerReference + cfg.referenceAmount - 1,
            b * cfg.impactBpsPerReference + cfg.referenceAmount - 1, cfg.referenceAmount);
  }

  /** Rounding up reaches the dividend; nothing smaller does. */
  lemma RoundingUpIsLeast(n: nat, d: nat, q: nat)
    requires d > 0
    ensures DivideRoundingUp(n, d) <= q <==> n <= q * d
  {
    DivBounds(n + d - 1, d);
    var up := DivideRoundingUp(n, d);
    if up <= q {
      MulMono(up, q, d);
    } else {
      MulMono(q + 1, up, d);
    }
  }

  /** The impact is the least whole number of basis points, from one to the maximum, that covers
      the amount's proportional share. */
  lemma ImpactIsLeast(cfg: Config, amount: nat, q: nat)
    requires ValidConfig(cfg)
    ensures ImpactBps(cfg, amount) <= q <==>
              q >= cfg.maxImpactBps
              || (q >= 1 && amount * cfg.impactBpsPerReference <= q * cfg.referenceAmount)
  {
    RoundingUpIsLeast(amount * cfg.impactBpsPerReference, cfg.referenceAmount, q);
  }

  /** What is paid out is the largest amount whose impact-adjusted value the mid amount covers. */
  lemma PayoutIsFloor(mid: nat, impact: nat, side: Side, y: nat)
    requires impact < BPS
    ensures y <= AfterImpact(mid, impact, side) <==>
              if side.Buy? then y * (BPS + impact) <= mid * BPS else y * BPS <= mid * (BPS - impact)
  {
    DivAtLeast(mid * BPS, BPS + impact, y);
    DivAtLeast(mid * (BPS - impact), BPS, y);
  }

  /** An impact strictly shrinks a positive amount. */
  lemma ImpactShrinks(mid: nat, impact: nat, side: Side)
    requires 1 <= impact < BPS && AfterImpact(mid, impact, side) > 0
    ensures AfterImpact(mid, impact, side) < mid
  {
    var out := AfterImpact(mid, impact, side);
    if side.Buy? {
      DivBounds(mid * BPS, BPS + impact);
      if mid <= out {
        MulMono(mid, out, BPS + impact);
        MulMono(1, impact, mid);
      }
    } else {
      MulMono(0, mid, BPS - impact);
      DivBounds(mid * (BPS - impact), BPS);
      if mid <= out {
        MulMono(1, impact, mid);
      }
    }
  }

  /** The mid amount as the largest that the paid weight covers. */
  lemma MidIsFloor(cfg: Config, p: Ratio, amountIn: nat, side: Side, m: nat)
    requires ValidConfig(cfg) && IsPositive(p)
    ensures var u := p.numerator * cfg.quoteScale; var v := p.denominator * cfg.assetScale;
            m <= MidAmountOut(cfg, p, amountIn, side) <==>
              if side.Buy? then m * u <= amountIn * v else m * v <= amountIn * u
  {
    WeightsPositive(cfg, p);
    DivAtLeast(amountIn * (p.denominator * cfg.assetScale), p.numerator * cfg.quoteScale, m);
    DivAtLeast(amountIn * (p.numerator * cfg.quoteScale), p.denominator * cfg.assetScale, m);
  }

  /** A trade pays the largest positive amount whose impact-adjusted value the mid amount covers, with
      the impact of the asset amount on either side, and fails if there is none. */
  lemma TradePaysExactly(cfg: Config, p: Ratio, amountIn: nat, side: Side, y: nat)
    requires ValidConfig(cfg) && IsPositive(p)
    ensures AmountOut(cfg, p, amountIn, side).Ok? ==> AmountOut(cfg, p, amountIn, side).value >= 1
    ensures var out, mid := AmountOut(cfg, p, amountIn, side), MidAmountOut(cfg, p, amountIn, side);
            y >= 1 ==>
              (out.Ok? && y <= out.value <==>
                 if side.Buy? then y * (10_000 + ImpactBps(cfg, mid)) <= mid * 10_000
                 else y * 10_000 <= mid * (10_000 - ImpactBps(cfg, amountIn)))
  {
    hide MidAmountOut, ImpactBps, AfterImpact;
    var mid := MidAmountOut(cfg, p, amountIn, side);
    var traded := if side.Buy? then mid else amountIn;
    ImpactInRange(cfg, traded);
    PayoutIsFloor(mid, ImpactBps(cfg, traded), side, y);
  }

  /** The weights before and after a fill stand in the proportion of its factor. */
  lemma FillMovesWeights(cfg: Config, p: Ratio, side: Side, amountRwa: nat)
    requires ValidConfig(cfg) && IsPositive(p)
    ensures var q := AfterFill(cfg, p, side, amountRwa);
            && IsPositive(q)
            && (q.numerator * cfg.quoteScale) * ((p.denominator * cfg.assetScale) * BPS)
               == (q.denominator * cfg.assetScale) * ((p.numerator * cfg.quoteScale) * Factor(cfg, side, amountRwa))
  {
    FillMovesPrice(cfg, p, side, amountRwa);
    var q := AfterFill(cfg, p, side, amountRwa);
    Reweigh(q.numerator, q.denominator, p.numerator, p.denominator, Factor(cfg, side, amountRwa),
            cfg.quoteScale, cfg.assetScale);
  }

  lemma Reweigh(n': int, d': int, n: int, d: int, f: int, qs: int, as_: int)
    requires n' * (d * BPS) == (n * f) * d'
    ensures (n' * qs) * ((d * as_) * BPS) == (d' * as_) * ((n * qs) * f)
  {
    Regroup(n', qs, d, as_);
    assert (n' * qs) * ((d * as_) * BPS) == ((n' * qs) * (d * as_)) * BPS == (n' * d) * (qs * as_) * BPS
        == (n' * (d * BPS)) * (qs * as_);
    Regroup(d', as_, n * f, qs);
    assert (d' * as_) * ((n * qs) * f) == (d' * as_) * ((n * f) * qs) == (d' * (n * f)) * (as_ * qs);
  }

  lemma Regroup(a: int, b: int, c: int, d: int)
    ensures (a * b) * (c * d) == (a * c) * (b * d)
  {
  }

  lemma Regroup3(a: int, b: int, c: int)
    ensures (a * b) * c == (a * c) * b && (a * b) * c == a * (b * c)
  {
  }

  /** If back units weigh at most r units, and the weights stand as z to w, then so do the amounts. */
  lemma CrossWeights(back: int, r: int, u': int, v': int, w: int, z: int)
    requires v' > 0 && w > 0 && u' * w == v' * z && back * v' <= r * u'
    ensures back * w <= r * z
  {
    MulMono(back * v', r * u', w);
    Regroup3(back, v', w);
    Regroup3(r, u', w);
    Regroup3(r, v', z);
    Regroup3(r, z, v');
    assert (back * w) * v' <= r * (v' * z);
    assert r * (v' * z) == (r * z) * v';
    MulCancel(back * w, r * z, v');
  }

  /** Two floors in a row: r within m at factor f over BPS, m within x at weights v over u. */
  lemma ChainFloors(x: int, u: int, v: int, m: int, r: int, f: int)
    requires u >= 0 && m * u <= x * v && r * f <= m * BPS
    ensures (r * u) * f <= x * (v * BPS)
  {
    MulMono(r * f, m * BPS, u);
    MulMono(m * u, x * v, BPS);
    Regroup3(r, f, u);
    Regroup3(m, BPS, u);
    Regroup3(x, v, BPS);
  }

  /** Buying m for x, paying impact b, then selling the r received at a price raised by c <= b:
      the mid proceeds are at most x. */
  lemma BuyThenSellMid(x: nat, u: nat, v: nat, m: nat, b: nat, r: nat, c: nat, u': nat, v': nat, back: nat)
    requires u > 0 && v > 0 && u' > 0 && v' > 0 && c <= b
    requires m * u <= x * v
    requires r * (BPS + b) <= m * BPS
    requires u' * (v * BPS) == v' * (u * (BPS + c))
    requires back * v' <= r * u'
    ensures back <= x
  {
    CrossWeights(back, r, u', v', v * BPS, u * (BPS + c));
    ChainFloors(x, u, v, m, r, BPS + b);
    MulMono(0, r, u);
    MulMono(BPS + c, BPS + b, r * u);
    Regroup3(r, u, BPS + c);
    MulCancel(back, x, v * BPS);
  }

  /** The mirrored trip: selling r, then buying back at a price lowered by the same b. */
  lemma SellThenBuyMid(r: nat, u: nat, v: nat, m: nat, b: nat, q: nat, u': nat, v': nat, back: nat)
    requires u > 0 && v > 0 && u' > 0 && v' > 0 && b < BPS
    requires m * v <= r * u
    requires q * BPS <= m * (BPS - b)
    requires u' * (v * BPS) == v' * (u * (BPS - b))
    requires back * u' <= q * v'
    ensures back <= r
  {
    var f: nat := BPS - b;
    CrossWeights(back, q, v', u', u * f, v * BPS);
    MulMono(q * BPS, m * f, v);
    MulMono(m * v, r * u, f);
    Regroup3(q, BPS, v);
    Regroup3(q, v, BPS);
    Regroup3(m, f, v);
    Regroup3(r, u, f);
    MulCancel(back, r, u * f);
  }

  /** One buy and one sell: buying with x, letting that fill move the price, and selling back
      everything received returns strictly less than x. */
  lemma BuyThenSellLoses(cfg: Config, p: Ratio, x: nat)
    requires ValidConfig(cfg) && IsPositive(p)
    ensures AmountOut(cfg, p, x, Buy).Ok? ==>
              var r := AmountOut(cfg, p, x, Buy).value;
              var q := AfterFill(cfg, p, Buy, r);
              IsPositive(q) && (AmountOut(cfg, q, r, Sell).Ok? ==> AmountOut(cfg, q, r, Sell).value < x)
  {
    if AmountOut(cfg, p, x, Buy).Err? {
      return;
    }
    var m := MidAmountOut(cfg, p, x, Buy);
    var b := ImpactBps(cfg, m);
    var r := AmountOut(cfg, p, x, Buy).value;
    var q := AfterFill(cfg, p, Buy, r);
    FillMovesWeights(cfg, p, Buy, r);
    if AmountOut(cfg, q, r, Sell).Ok? {
      var back := MidAmountOut(cfg, q, r, Sell);
      var c := ImpactBps(cfg, r);
      ImpactInRange(cfg, m);
      ImpactInRange(cfg, r);
      ImpactShrinks(m, b, Buy);
      ImpactMonotone(cfg, r, m);
      ImpactShrinks(back, c, Sell);
      DivBounds(m * BPS, BPS + b);
      MidIsFloor(cfg, p, x, Buy, m);
      MidIsFloor(cfg, q, r, Sell, back);
      WeightsPositive(cfg, p);
      WeightsPositive(cfg, q);
      BuyThenSellMid(x, p.numerator * cfg.quoteScale, p.denominator * cfg.assetScale, m, b, r, c,
                     q.numerator * cfg.quoteScale, q.denominator * cfg.assetScale, back);
    }
  }

  /** One sell and one buy: selling r and buying back with the proceeds returns strictly less RWA. */
  lemma SellThenBuyLoses(cfg: Config, p: Ratio, r: nat)
    requires ValidConfig(cfg) && IsPositive(p)
    ensures AmountOut(cfg, p, r, Sell).Ok? ==>
              var y := AmountOut(cfg, p, r, Sell).value;
              var q := AfterFill(cfg, p, Sell, r);
              IsPositive(q) && (AmountOut(cfg, q, y, Buy).Ok? ==> AmountOut(cfg, q, y, Buy).value < r)
  {
    if AmountOut(cfg, p, r, Sell).Err? {
      return;
    }
    var m := MidAmountOut(cfg, p, r, Sell);
    var b := ImpactBps(cfg, r);
    var y := AmountOut(cfg, p, r, Sell).value;
    var q := AfterFill(cfg, p, Sell, r);
    FillMovesWeights(cfg, p, Sell, r);
    if AmountOut(cfg, q, y, Buy).Ok? {
      var back := MidAmountOut(cfg, q, y, Buy);
      ImpactInRange(cfg, r);
      ImpactInRange(cfg, back);
      ImpactShrinks(back, ImpactBps(cfg, back), Buy);
      MulMono(0, m, BPS - b);
      DivBounds(m * (BPS - b), BPS);
      MidIsFloor(cfg, p, r, Sell, m);
      MidIsFloor(cfg, q, y, Buy, back);
      WeightsPositive(cfg, p);
      WeightsPositive(cfg, q);
      SellThenBuyMid(r, p.numerator * cfg.quoteScale, p.denominator * cfg.assetScale, m, b, y,
                     q.numerator * cfg.quoteScale, q.denominator * cfg.assetScale, back);
    }
  }

  // ---- monotonicity ----

  /** The amount paid out, before a payout of zero is refused. */
  function Payout(cfg: Config, p: Ratio, amountIn: nat, side: Side): (out: nat)
    requires ValidConfig(cfg) && IsPositive(p)
    ensures AmountOut(cfg, p, amountIn, side) == if out == 0 then Err(ZeroAmountOut) else Ok(out)
  {
    var mid := MidAmountOut(cfg, p, amountIn, side);
    AfterImpact(mid, ImpactBps(cfg, if side.Buy? then mid else amountIn), side)
  }

  /** More in can mean less out: the impact is a step function. */
  lemma AmountOutIsNotMonotone()
    ensures var cfg := Config(1, 1, Ratio(1, 1), 1, 1_000_000, 500, 1, 1, 1, 1);
            && ValidConfig(cfg) && DefaultsAccepted(cfg, true)
            && AmountOut(cfg, cfg.initial, 1_000_000, Buy) == Ok(999_900)
            && AmountOut(cfg, cfg.initial, 1_000_001, Buy) == Ok(999_801)
  {
  }

  lemma BuyPayoutsCompare(mx: nat, ix: nat, my: nat, iy: nat)
    requires ix < BPS && iy < BPS && mx * (BPS + iy) <= my * (BPS + ix)
    ensures AfterImpact(mx, ix, Buy) <= AfterImpact(my, iy, Buy)
  {
    var out := AfterImpact(mx, ix, Buy);
    PayoutIsFloor(mx, ix, Buy, out);
    PayoutIsFloor(my, iy, Buy, out);
    assert out * (BPS + iy) <= my * BPS by {
      MulMono(out * (BPS + ix), mx * BPS, BPS + iy);
      MulMono(mx * (BPS + iy), my * (BPS + ix), BPS);
      assert (out * (BPS + iy)) * (BPS + ix) == (out * (BPS + ix)) * (BPS + iy);
      assert (mx * BPS) * (BPS + iy) == (mx * (BPS + iy)) * BPS;
      assert (my * (BPS + ix)) * BPS == (my * BPS) * (BPS + ix);
      MulCancel(out * (BPS + iy), my * BPS, BPS + ix);
    }
  }

  lemma SellPayoutsCompare(mx: nat, ix: nat, my: nat, iy: nat)
    requires ix < BPS && iy < BPS && mx * (BPS - ix) <= my * (BPS - iy)
    ensures AfterImpact(mx, ix, Sell) <= AfterImpact(my, iy, Sell)
  {
    DivMono(mx * (BPS - ix), my * (BPS - iy), BPS);
  }

  /** Which of two inputs is paid more is decided by their mid amounts weighed with each other's
      impact: for a buy, mid amounts times the other side's surcharge; for a sell, mid amounts less
      their own impact. An impact step makes a larger input lose where it tips that comparison. */
  lemma PayoutsFollowWeighedMids(cfg: Config, p: Ratio, side: Side, x: nat, y: nat)
    requires ValidConfig(cfg) && IsPositive(p)
    ensures var mx, my := MidAmountOut(cfg, p, x, side), MidAmountOut(cfg, p, y, side);
            var ix, iy := ImpactBps(cfg, if side.Buy? then mx else x), ImpactBps(cfg, if side.Buy? then my else y);
            var wx, wy := if side.Buy? then mx * (BPS + iy) else mx * (BPS - ix),
                          if side.Buy? then my * (BPS + ix) else my * (BPS - iy);
            && (wx <= wy ==> Payout(cfg, p, x, side) <= Payout(cfg, p, y, side))
            && (wy <= wx ==> Payout(cfg, p, y, side) <= Payout(cfg, p, x, side))
  {
    hide ImpactBps, MidAmountOut, AfterImpact, AmountOut;
    var mx, my := MidAmountOut(cfg, p, x, side), MidAmountOut(cfg, p, y, side);
    var rx, ry := if side.Buy? then mx else x, if side.Buy? then my else y;
    var ix, iy := ImpactBps(cfg, rx), ImpactBps(cfg, ry);
    ImpactInRange(cfg, rx);
    ImpactInRange(cfg, ry);
    if side.Buy? {
      if mx * (BPS + iy) <= my * (BPS + ix) {
        BuyPayoutsCompare(mx, ix, my, iy);
      }
      if my * (BPS + ix) <= mx * (BPS + iy) {
        BuyPayoutsCompare(my, iy, mx, ix);
      }
    } else {
      if mx * (BPS - ix) <= my * (BPS - iy) {
        SellPayoutsCompare(mx, ix, my, iy);
      }
      if my * (BPS - iy) <= mx * (BPS - ix) {
        SellPayoutsCompare(my, iy, mx, ix);
      }
    }
  }

  lemma MidMonotone(cfg: Config, p: Ratio, side: Side, x: nat, y: nat)
    requires ValidConfig(cfg) && IsPositive(p) && x <= y
    ensures MidAmountOut(cfg, p, x, side) <= MidAmountOut(cfg, p, y, side)
  {
    WeightsPositive(cfg, p);
    MidIsFloor(cfg, p, x, side, MidAmountOut(cfg, p, x, side));
    MidIsFloor(cfg, p, y, side, MidAmountOut(cfg, p, x, side));
    MulMono(x, y, if side.Buy? then p.denominator * cfg.assetScale else p.numerator * cfg.quoteScale);
  }

  /** So more in never means less out while the impact stays on one step. */
  lemma AmountOutMonotoneWithinAStep(cfg: Config, p: Ratio, side: Side, x: nat, y: nat)
    requires ValidConfig(cfg) && IsPositive(p) && x <= y
    requires var rx := if side.Buy? then MidAmountOut(cfg, p, x, side) else x;
             var ry := if side.Buy? then MidAmountOut(cfg, p, y, side) else y;
             ImpactBps(cfg, rx) == ImpactBps(cfg, ry)
    ensures Payout(cfg, p, x, side) <= Payout(cfg, p, y, side)
  {
    hide ImpactBps, MidAmountOut, AfterImpact, AmountOut;
    var mx, my := MidAmountOut(cfg, p, x, side), MidAmountOut(cfg, p, y, side);
    var impact := ImpactBps(cfg, if side.Buy? then mx else x);
    ImpactInRange(cfg, if side.Buy? then mx else x);
    MidMonotone(cfg, p, side, x, y);
    MulMono(mx, my, if side.Buy? then BPS + impact else BPS - impact);
    PayoutsFollowWeighedMids(cfg, p, side, x, y);
  }

  /** The largest amount with an impact of at most `i` basis points, below the maximal impact. */
  function StepAt(cfg: Config, i: nat): (m: nat)
    requires ValidConfig(cfg)
    ensures 1 <= i < cfg.maxImpactBps ==> forall k: nat :: ImpactBps(cfg, k) <= i <==> k <= m
  {
    DivAtLeast(i * cfg.referenceAmount, cfg.impactBpsPerReference, 0);
    var m := i * cfg.referenceAmount / cfg.impactBpsPerReference;
    assert 1 <= i < cfg.maxImpactBps ==> forall k: nat :: ImpactBps(cfg, k) <= i <==> k <= m by {
      if 1 <= i < cfg.maxImpactBps {
        forall k: nat ensures ImpactBps(cfg, k) <= i <==> k <= m {
          ImpactIsLeast(cfg, k, i);
          DivAtLeast(i * cfg.referenceAmount, cfg.impactBpsPerReference, k);
        }
      }
    }
    m
  }

  /** The impact changes from one amount to the next only at these steps. */
  lemma ImpactChangesAtSteps(cfg: Config, m: nat)
    requires ValidConfig(cfg) && ImpactBps(cfg, m) != ImpactBps(cfg, m + 1)
    ensures 1 <= ImpactBps(cfg, m) < cfg.maxImpactBps && m == StepAt(cfg, ImpactBps(cfg, m))
  {
    hide ImpactBps, StepAt;
    ImpactMonotone(cfg, m, m + 1);
    ImpactInRange(cfg, m);
    ImpactInRange(cfg, m + 1);
    var step := StepAt(cfg, ImpactBps(cfg, m));
  }

  /** What a buy is paid, by its mid amount alone. */
  function BuyPayout(cfg: Config, mid: nat): nat
    requires ValidConfig(cfg)
  {
    AfterImpact(mid, ImpactBps(cfg, mid), Buy)
  }

  /** No step of the impact makes a buy lose: one check per step. */
  ghost predicate NoBuyStepLoses(cfg: Config)
    requires ValidConfig(cfg)
  {
    forall i: nat :: 1 <= i < cfg.maxImpactBps ==>
      BuyPayout(cfg, StepAt(cfg, i)) <= BuyPayout(cfg, StepAt(cfg, i) + 1)
  }

  lemma {:induction false} BuyPayoutsClimb(cfg: Config, m: nat, n: nat)
    requires ValidConfig(cfg) && m <= n && NoBuyStepLoses(cfg)
    ensures BuyPayout(cfg, m) <= BuyPayout(cfg, n)
    decreases n - m
  {
    hide ImpactBps, AfterImpact, StepAt;
    if m < n {
      if ImpactBps(cfg, m) == ImpactBps(cfg, m + 1) {
        ImpactInRange(cfg, m);
        MulMono(m, m + 1, BPS + ImpactBps(cfg, m));
        BuyPayoutsCompare(m, ImpactBps(cfg, m), m + 1, ImpactBps(cfg, m));
      } else {
        ImpactChangesAtSteps(cfg, m);
      }
      BuyPayoutsClimb(cfg, m + 1, n);
    }
  }

  /** At this price a buy's mid amount is its input. */
  lemma ParityPrice(cfg: Config, x: nat) returns (p: Ratio)
    requires ValidConfig(cfg)
    ensures p == Ratio(cfg.assetScale, cfg.quoteScale) && IsPositive(p) && MidAmountOut(cfg, p, x, Buy) == x
  {
    p := Ratio(cfg.assetScale, cfg.quoteScale);
    DivUnique(x * (p.denominator * cfg.assetScale), p.numerator * cfg.quoteScale, x);
  }

  /** Buying is monotone at every price exactly when no step of the impact makes a buy lose: fewer
      checks than there are basis points in the maximal impact. */
  lemma BuysAreMonotoneExactlyWhen(cfg: Config)
    requires ValidConfig(cfg)
    ensures (forall p: Ratio, x: nat, y: nat :: IsPositive(p) && x <= y ==>
               Payout(cfg, p, x, Buy) <= Payout(cfg, p, y, Buy))
       <==> NoBuyStepLoses(cfg)
  {
    hide ImpactBps, MidAmountOut, AfterImpact, AmountOut, StepAt;
    if NoBuyStepLoses(cfg) {
      forall p: Ratio, x: nat, y: nat | IsPositive(p) && x <= y
        ensures Payout(cfg, p, x, Buy) <= Payout(cfg, p, y, Buy)
      {
        MidMonotone(cfg, p, Buy, x, y);
        BuyPayoutsClimb(cfg, MidAmountOut(cfg, p, x, Buy), MidAmountOut(cfg, p, y, Buy));
      }
    }
    if forall p: Ratio, x: nat, y: nat :: IsPositive(p) && x <= y ==>
         Payout(cfg, p, x, Buy) <= Payout(cfg, p, y, Buy)
    {
      forall i: nat | 1 <= i < cfg.maxImpactBps
        ensures BuyPayout(cfg, StepAt(cfg, i)) <= BuyPayout(cfg, StepAt(cfg, i) + 1)
      {
        var m := StepAt(cfg, i);
        var p := ParityPrice(cfg, m);
        var q := ParityPrice(cfg, m + 1);
        assert Payout(cfg, p, m, Buy) <= Payout(cfg, p, m + 1, Buy);
      }
    }
  }

  /** No step of the impact makes a sell lose at a price. */
  ghost predicate NoSellStepLoses(cfg: Config, p: Ratio)
    requires ValidConfig(cfg) && IsPositive(p)
  {
    forall i: nat :: 1 <= i < cfg.maxImpactBps ==>
      Payout(cfg, p, StepAt(cfg, i), Sell) <= Payout(cfg, p, StepAt(cfg, i) + 1, Sell)
  }

  lemma {:induction false} SellPayoutsClimb(cfg: Config, p: Ratio, x: nat, y: nat)
    requires ValidConfig(cfg) && IsPositive(p) && x <= y && NoSellStepLoses(cfg, p)
    ensures Payout(cfg, p, x, Sell) <= Payout(cfg, p, y, Sell)
    decreases y - x
  {
    hide ImpactBps, MidAmountOut, AfterImpact, AmountOut, StepAt, Payout;
    if x < y {
      if ImpactBps(cfg, x) == ImpactBps(cfg, x + 1) {
        AmountOutMonotoneWithinAStep(cfg, p, Sell, x, x + 1);
      } else {
        ImpactChangesAtSteps(cfg, x);
      }
      SellPayoutsClimb(cfg, p, x + 1, y);
    }
  }

  /** Selling is monotone at a price exactly when no step of the impact makes a sell lose there. */
  lemma SellsAreMonotoneExactlyWhen(cfg: Config, p: Ratio)
    requires ValidConfig(cfg) && IsPositive(p)
    ensures (forall x: nat, y: nat :: x <= y ==> Payout(cfg, p, x, Sell) <= Payout(cfg, p, y, Sell))
       <==> NoSellStepLoses(cfg, p)
  {
    hide Payout, StepAt;
    if NoSellStepLoses(cfg, p) {
      forall x: nat, y: nat | x <= y ensures Payout(cfg, p, x, Sell) <= Payout(cfg, p, y, Sell) {
        SellPayoutsClimb(cfg, p, x, y);
      }
    }
  }

  // ---- the price path ----

  function FactorProduct(cfg: Config, fills: seq<Fill>): int
    requires ValidConfig(cfg)
  {
    if fills == [] then 1
    else
      var last := fills[|fills| - 1];
      FactorProduct(cfg, fills[..|fills| - 1]) * Factor(cfg, last.side, last.amountRwa)
  }

  function BpsPower(n: nat): nat {
    if n == 0 then 1 else BpsPower(n - 1) * BPS
  }

  /** After any run of fills the price is exactly the initial ratio times the product of the
      factors over BPS; it is positive, and in lowest terms after each fill. */
  lemma {:induction false} PricePath(cfg: Config, fills: seq<Fill>)
    requires ValidConfig(cfg)
    ensures var p := AfterFills(cfg, fills);
            && p.numerator * (cfg.initial.denominator * BpsPower(|fills|))
               == p.denominator * (cfg.initial.numerator * FactorProduct(cfg, fills))
            && IsPositive(p)
            && (fills != [] ==> Gcd(p.numerator, p.denominator) == 1)
  {
    if fills != [] {
      var n := |fills| - 1;
      var before := AfterFills(cfg, fills[..n]);
      var last := fills[n];
      var f := Factor(cfg, last.side, last.amountRwa);
      PricePath(cfg, fills[..n]);
      FillMovesPrice(cfg, before, last.side, last.amountRwa);
      var p := AfterFill(cfg, before, last.side, last.amountRwa);
      assert p == AfterFills(cfg, fills);
      var x := cfg.initial.numerator * FactorProduct(cfg, fills[..n]);
      var y := cfg.initial.denominator * BpsPower(n);
      ProductStep(before.numerator, before.denominator, p.numerator, p.denominator, x, y, f);
      Reassociate(cfg.initial.numerator, FactorProduct(cfg, fills[..n]), f);
      Reassociate(cfg.initial.denominator, BpsPower(n), BPS);
    }
  }

  lemma Reassociate(a: int, b: int, c: int)
    ensures (a * b) * c == a * (b * c)
  {
  }

  lemma ProductStep(a: int, b: int, a': int, b': int, x: int, y: int, f: int)
    requires b > 0
    requires a * y == b * x && a' * (b * BPS) == (a * f) * b'
    ensures a' * (y * BPS) == b' * (x * f)
  {
    assert b * (a' * (y * BPS)) == (a' * (b * BPS)) * y == ((a * f) * b') * y == (a * y) * (f * b')
        == (b * x) * (f * b') == b * (b' * (x * f));
    MulCancel(a' * (y * BPS), b' * (x * f), b);
    MulCancel(b' * (x * f), a' * (y * BPS), b);
  }
}
