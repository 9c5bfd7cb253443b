/** Round trips opened by several fills and closed by one: they always lose up to two buys or one
    sell, and can win from then on. */
module TripLengthTheorems {
  import opened Results
  import opened Arithmetic
  import opened Ratios
  import opened DemoMarketPricing
  import opened PricingTheorems
  import opened RoundTripTheorems

  function Opposite(side: Side): Side { if side.Buy? then Sell else Buy }

  /** Where the market stands after opening trades, and what they paid out together. */
  datatype Position = Position(price: Ratio, received: nat)

  /** Trades the parts one after the other; none may be refused, or move less than `least` of the asset. */
  function Opened(cfg: Config, p: Ratio, side: Side, parts: seq<nat>, least: nat): (pos: Option<Position>)
    requires ValidConfig(cfg) && IsPositive(p)
    ensures pos.Some? ==> IsPositive(pos.value.price)
    decreases |parts|
  {
    if parts == [] then Some(Position(p, 0))
    else match AmountOut(cfg, p, parts[0], side)
      case Err(_) => None
      case Ok(out) =>
        if (if side.Buy? then out else parts[0]) < least then None
        else match Opened(cfg, AfterTrade(cfg, p, side, parts[0], out), side, parts[1..], least)
          case None => None
          case Some(pos) => Some(Position(pos.price, out + pos.received))
  }

  /** Closing the position in one trade is refused, or returns less than was paid in. */
  predicate Loses(cfg: Config, pos: Position, side: Side, paid: nat)
    requires ValidConfig(cfg) && IsPositive(pos.price)
  {
    AmountOut(cfg, pos.price, pos.received, Opposite(side)).Ok? ==>
      AmountOut(cfg, pos.price, pos.received, Opposite(side)).value < paid
  }

  // ---- two buys ----

  /** An opening buy moves the price no further than it costs. */
  lemma BuyCoversRaise(cfg: Config, p: Ratio, x: nat)
    requires ValidConfig(cfg) && IsPositive(p) && AmountOut(cfg, p, x, Buy).Ok?
    ensures var r := AmountOut(cfg, p, x, Buy).value;
            var q := AfterTrade(cfg, p, Buy, x, r);
            r * (q.numerator * cfg.quoteScale) <= x * (q.denominator * cfg.assetScale)
  {
    hide ImpactBps, MidAmountOut, AfterFill;
    var m := MidAmountOut(cfg, p, x, Buy);
    var r := AmountOut(cfg, p, x, Buy).value;
    var q := AfterTrade(cfg, p, Buy, x, r);
    var b, c := ImpactBps(cfg, m), ImpactBps(cfg, r);
    ImpactInRange(cfg, m);
    ImpactShrinks(m, b, Buy);
    ImpactMonotone(cfg, r, m);
    PayoutIsFloor(m, b, Buy, r);
    MidIsFloor(cfg, p, x, Buy, m);
    FillMovesWeights(cfg, p, Buy, r);
    WeightsPositive(cfg, p);
    RaiseIsCovered(x, p.numerator * cfg.quoteScale, p.denominator * cfg.assetScale, m, b, r, c,
                   q.numerator * cfg.quoteScale, q.denominator * cfg.assetScale);
  }

  lemma RaiseIsCovered(x: nat, u: nat, v: nat, m: nat, b: nat, r: nat, c: nat, u': nat, v': nat)
    requires u > 0 && v > 0 && c <= b && m * u <= x * v && r * (BPS + b) <= m * BPS
    requires u' * (v * BPS) == v' * (u * (BPS + c))
    ensures r * u' <= x * v'
  {
    ChainFloors(x, u, v, m, r, BPS + b);
    MulMono(BPS + c, BPS + b, r * u);
    Regroup3(r, u, BPS + c);
    Transfer(r, x, u', v', v * BPS, u * (BPS + c));
  }

  /** Weights u' to v' in the proportion of z to w: what z covers, u' covers. */
  lemma Transfer(r: nat, x: nat, u': nat, v': nat, w: nat, z: nat)
    requires w > 0 && u' * w == v' * z && r * z <= x * w
    ensures r * u' <= x * v'
  {
    MulMono(r * z, x * w, v');
    Regroup3(r, u', w);
    Regroup3(r, z, v');
    Regroup3(x, w, v');
    assert (r * u') * w == r * (v' * z);
    MulCancel(r * u', x * v', w);
  }

  /** The closing sale gives up at least the last raise. */
  lemma SaleEatsRaise(total: nat, units: nat, u: nat, v: nat, c: nat, s: nat, mid: nat, out: nat)
    requires u > 0 && v > 0 && c <= s < BPS
    requires units * u < total * v
    requires mid * (v * BPS) <= units * (u * (BPS + c)) && out * BPS <= mid * (BPS - s)
    ensures out < total
  {
    assert (BPS + c) * (BPS - s) <= BPS * BPS by {
      MulMono(0, s, c);
    }
    MulMono(out * BPS, mid * (BPS - s), v * BPS);
    MulMono(mid * (v * BPS), units * (u * (BPS + c)), BPS - s);
    assert (mid * (BPS - s)) * (v * BPS) == (mid * (v * BPS)) * (BPS - s);
    assert (units * (u * (BPS + c))) * (BPS - s) == (units * u) * ((BPS + c) * (BPS - s));
    MulMono((BPS + c) * (BPS - s), BPS * BPS, units * u);
    assert (out * BPS) * (v * BPS) == (out * v) * (BPS * BPS);
    MulCancel(out * v, units * u, BPS * BPS);
    if total <= out {
      MulMono(total, out, v);
    }
  }

  /** Two buys of any sizes at any price, closed by one sell, return strictly less than they cost. */
  lemma TwoBuysThenSellLoses(cfg: Config, p: Ratio, x: nat, y: nat)
    requires ValidConfig(cfg) && IsPositive(p)
    ensures Opened(cfg, p, Buy, [x, y], 0).Some? ==>
              Loses(cfg, Opened(cfg, p, Buy, [x, y], 0).value, Buy, x + y)
  {
    if Opened(cfg, p, Buy, [x, y], 0).None? {
      return;
    }
    TwoTrades(cfg, p, Buy, x, y);
    hide ImpactBps, MidAmountOut, AfterImpact, AfterFill, Opened, AmountOut, AfterTrade;
    var r := AmountOut(cfg, p, x, Buy).value;
    var p1 := AfterTrade(cfg, p, Buy, x, r);
    var q := AmountOut(cfg, p1, y, Buy).value;
    BuyCoversRaise(cfg, p, x);
    BuyPaysLess(cfg, p1, y);
    AddCovers(r, q, p1.numerator * cfg.quoteScale, x, y, p1.denominator * cfg.assetScale);
    SaleAfterBuyLoses(cfg, p1, y, r + q, x + y);
  }

  lemma AddCovers(r: nat, q: nat, u: nat, x: nat, y: nat, v: nat)
    requires r * u <= x * v && q * u < y * v
    ensures (r + q) * u < (x + y) * v
  {
  }

  /** A buy pays strictly less than its input is worth. */
  lemma BuyPaysLess(cfg: Config, p: Ratio, y: nat)
    requires ValidConfig(cfg) && IsPositive(p) && AmountOut(cfg, p, y, Buy).Ok?
    ensures AmountOut(cfg, p, y, Buy).value * (p.numerator * cfg.quoteScale) < y * (p.denominator * cfg.assetScale)
  {
    hide ImpactBps, MidAmountOut, AfterImpact;
    var m := MidAmountOut(cfg, p, y, Buy);
    var q := AmountOut(cfg, p, y, Buy).value;
    ImpactInRange(cfg, m);
    ImpactShrinks(m, ImpactBps(cfg, m), Buy);
    MidIsFloor(cfg, p, y, Buy, m);
    WeightsPositive(cfg, p);
    MulMono(q + 1, m, p.numerator * cfg.quoteScale);
  }

  /** Units worth less than the total before a buy that pays some of them are sold for less after it. */
  lemma SaleAfterBuyLoses(cfg: Config, p: Ratio, y: nat, units: nat, total: nat)
    requires ValidConfig(cfg) && IsPositive(p) && AmountOut(cfg, p, y, Buy).Ok?
    requires AmountOut(cfg, p, y, Buy).value <= units
    requires units * (p.numerator * cfg.quoteScale) < total * (p.denominator * cfg.assetScale)
    ensures var q := AfterTrade(cfg, p, Buy, y, AmountOut(cfg, p, y, Buy).value);
            AmountOut(cfg, q, units, Sell).Ok? ==> AmountOut(cfg, q, units, Sell).value < total
  {
    hide ImpactBps, MidAmountOut, AfterImpact, AfterFill;
    var bought := AmountOut(cfg, p, y, Buy).value;
    var q := AfterTrade(cfg, p, Buy, y, bought);
    var mid := MidAmountOut(cfg, q, units, Sell);
    var c, s := ImpactBps(cfg, bought), ImpactBps(cfg, units);
    var u, v := p.numerator * cfg.quoteScale, p.denominator * cfg.assetScale;
    WeightsPositive(cfg, p);
    WeightsPositive(cfg, q);
    MidIsFloor(cfg, q, units, Sell, mid);
    FillMovesWeights(cfg, p, Buy, bought);
    ImpactInRange(cfg, units);
    ImpactMonotone(cfg, bought, units);
    PayoutIsFloor(mid, s, Sell, AfterImpact(mid, s, Sell));
    CrossWeights(mid, units, q.numerator * cfg.quoteScale, q.denominator * cfg.assetScale, v * BPS, u * (BPS + c));
    SaleEatsRaise(total, units, u, v, c, s, mid, AfterImpact(mid, s, Sell));
  }

  lemma TwoTrades(cfg: Config, p: Ratio, side: Side, x: nat, y: nat)
    requires ValidConfig(cfg) && IsPositive(p) && Opened(cfg, p, side, [x, y], 0).Some?
    ensures AmountOut(cfg, p, x, side).Ok?
    ensures var p1 := AfterTrade(cfg, p, side, x, AmountOut(cfg, p, x, side).value);
            && AmountOut(cfg, p1, y, side).Ok?
            && Opened(cfg, p, side, [x, y], 0).value
               == Position(AfterTrade(cfg, p1, side, y, AmountOut(cfg, p1, y, side).value),
                           AmountOut(cfg, p, x, side).value + AmountOut(cfg, p1, y, side).value)
  {
    hide AmountOut, AfterTrade;
    assert [x, y][1..] == [y] && [y][1..] == [];
    var out := AmountOut(cfg, p, x, side).value;
    var p1 := AfterTrade(cfg, p, side, x, out);
    assert Opened(cfg, p1, side, [y], 0).Some?;
  }

  lemma OneTrade(cfg: Config, p: Ratio, side: Side, x: nat)
    requires ValidConfig(cfg) && IsPositive(p) && Opened(cfg, p, side, [x], 0).Some?
    ensures AmountOut(cfg, p, x, side).Ok?
    ensures var out := AmountOut(cfg, p, x, side).value;
            Opened(cfg, p, side, [x], 0).value == Position(AfterTrade(cfg, p, side, x, out), out)
  {
    hide AmountOut, AfterTrade;
    assert [x][1..] == [];
  }

  // ---- trips that win ----

  /** Every trade has an impact of 500 basis points; the minimum amount is 10_000. */
  function FlatConfig(): Config {
    Config(1, 1, Ratio(1, 1), 500, 1, 500, 10_000, 500, 10_500, 10_000)
  }

  lemma FlatImpact(amount: nat)
    requires amount > 0
    ensures ValidConfig(FlatConfig()) && ImpactBps(FlatConfig(), amount) == 500
    ensures DefaultsAccepted(FlatConfig(), true)
  {
  }

  lemma Scaled(k: nat, n: nat, d: nat, a: nat, b: nat, x: nat)
    requires n * b == a * d && b > 0 && d > 0 && k * a <= x * b < k * a + a
    ensures k * n <= x * d < k * n + n
  {
    Regroup3(k, n, b);
    Regroup3(k, a, d);
    Regroup3(x, b, d);
    Regroup3(x, d, b);
    assert (k * n) * b == (k * a) * d && (k * n + n) * b == (k * a + a) * d;
    MulMono(k * a, x * b, d);
    MulMono(x * b + 1, k * a + a, d);
    MulCancel(k * n, x * d, b);
    if k * n + n <= x * d {
      MulMono(k * n + n, x * d, b);
    }
  }

  /** A buy at the price a/b, and the price it leaves. */
  lemma FlatBuy(p: Ratio, a: nat, b: nat, x: nat, mid: nat, out: nat)
    requires IsPositive(p) && a > 0 && b > 0 && p.numerator * b == a * p.denominator
    requires mid * a <= x * b < mid * a + a
    requires 0 < out && out * 10_500 <= mid * 10_000 < out * 10_500 + 10_500
    ensures ValidConfig(FlatConfig()) && AmountOut(FlatConfig(), p, x, Buy) == Ok(out)
    ensures var q := AfterTrade(FlatConfig(), p, Buy, x, out);
            q.numerator * (b * BPS) == (a * 10_500) * q.denominator
  {
    hide ImpactBps, AfterFill;
    FlatImpact(mid);
    FlatImpact(out);
    Scaled(mid, p.numerator, p.denominator, a, b, x);
    DivUnique(x * p.denominator, p.numerator, mid);
    DivUnique(mid * 10_000, 10_500, out);
    FillMovesPrice(FlatConfig(), p, Buy, out);
    Reprice(AfterTrade(FlatConfig(), p, Buy, x, out), p, a, b, 10_500);
  }

  /** A sell at the price a/b, and the price it leaves. */
  lemma FlatSell(p: Ratio, a: nat, b: nat, x: nat, mid: nat, out: nat)
    requires IsPositive(p) && a > 0 && b > 0 && p.numerator * b == a * p.denominator
    requires mid * b <= x * a < mid * b + b
    requires 0 < x && 0 < out && out * 10_000 <= mid * 9_500 < out * 10_000 + 10_000
    ensures ValidConfig(FlatConfig()) && AmountOut(FlatConfig(), p, x, Sell) == Ok(out)
    ensures var q := AfterTrade(FlatConfig(), p, Sell, x, out);
            q.numerator * (b * BPS) == (a * 9_500) * q.denominator
  {
    hide ImpactBps, AfterFill;
    FlatImpact(x);
    Scaled(mid, p.denominator, p.numerator, b, a, x);
    DivUnique(x * p.numerator, p.denominator, mid);
    DivUnique(mid * 9_500, 10_000, out);
    FillMovesPrice(FlatConfig(), p, Sell, x);
    Reprice(AfterTrade(FlatConfig(), p, Sell, x, out), p, a, b, 9_500);
  }

  lemma Reprice(q: Ratio, p: Ratio, a: nat, b: nat, f: nat)
    requires IsPositive(p) && p.numerator * b == a * p.denominator
    requires q.numerator * (p.denominator * BPS) == (p.numerator * f) * q.denominator
    ensures q.numerator * (b * BPS) == (a * f) * q.denominator
  {
    assert (q.numerator * (b * BPS)) * p.denominator == (q.numerator * (p.denominator * BPS)) * b
        == ((p.numerator * f) * q.denominator) * b == ((p.numerator * b) * f) * q.denominator
        == ((a * f) * q.denominator) * p.denominator;
    MulCancel(q.numerator * (b * BPS), (a * f) * q.denominator, p.denominator);
    MulCancel((a * f) * q.denominator, q.numerator * (b * BPS), p.denominator);
  }

  lemma {:induction false} OpenedOneMore(
      cfg: Config, p: Ratio, side: Side, parts: seq<nat>, x: nat, out: nat, least: nat)
    requires ValidConfig(cfg) && IsPositive(p) && Opened(cfg, p, side, parts, least).Some?
    requires AmountOut(cfg, Opened(cfg, p, side, parts, least).value.price, x, side) == Ok(out)
    requires least <= if side.Buy? then out else x
    ensures var pos := Opened(cfg, p, side, parts, least).value;
            Opened(cfg, p, side, parts + [x], least)
            == Some(Position(AfterTrade(cfg, pos.price, side, x, out), pos.received + out))
    ensures Total(parts + [x]) == Total(parts) + x
    decreases |parts|
  {
    hide AmountOut, AfterTrade;
    if parts == [] {
      assert [x][1..] == [] && [] + [x] == [x];
    } else {
      assert (parts + [x])[1..] == parts[1..] + [x];
      var paid := AmountOut(cfg, p, parts[0], side).value;
      OpenedOneMore(cfg, AfterTrade(cfg, p, side, parts[0], paid), side, parts[1..], x, out, least);
    }
  }

  /** One opening trade after another, from the initial price. */
  function Opening(side: Side, parts: seq<nat>): (pos: Option<Position>)
    ensures pos.Some? ==> IsPositive(pos.value.price)
  {
    FlatImpact(1);
    Opened(FlatConfig(), FlatConfig().initial, side, parts, FlatConfig().minimumAmount)
  }

  lemma NothingOpened(side: Side)
    ensures Opening(side, []) == Some(Position(Ratio(1, 1), 0)) && Total([]) == 0
  {
  }

  /** Extends an opening by a buy at the price a/b. */
  lemma BuyMore(parts: seq<nat>, a: nat, b: nat, x: nat, mid: nat, out: nat)
    requires Opening(Buy, parts).Some? && a > 0 && b > 0
    requires var p := Opening(Buy, parts).value.price; p.numerator * b == a * p.denominator
    requires mid * a <= x * b < mid * a + a
    requires 10_000 <= out && out * 10_500 <= mid * 10_000 < out * 10_500 + 10_500
    ensures Opening(Buy, parts + [x]).Some? && Total(parts + [x]) == Total(parts) + x
    ensures var pos := Opening(Buy, parts + [x]).value;
            && pos.received == Opening(Buy, parts).value.received + out
            && pos.price.numerator * (b * BPS) == (a * 10_500) * pos.price.denominator
  {
    hide AmountOut, AfterTrade, Opened;
    FlatBuy(Opening(Buy, parts).value.price, a, b, x, mid, out);
    OpenedOneMore(FlatConfig(), FlatConfig().initial, Buy, parts, x, out, FlatConfig().minimumAmount);
  }

  lemma SellMore(parts: seq<nat>, a: nat, b: nat, x: nat, mid: nat, out: nat)
    requires Opening(Sell, parts).Some? && a > 0 && b > 0
    requires var p := Opening(Sell, parts).value.price; p.numerator * b == a * p.denominator
    requires mid * b <= x * a < mid * b + b
    requires 10_000 <= x && 0 < out && out * 10_000 <= mid * 9_500 < out * 10_000 + 10_000
    ensures Opening(Sell, parts + [x]).Some? && Total(parts + [x]) == Total(parts) + x
    ensures var pos := Opening(Sell, parts + [x]).value;
            && pos.received == Opening(Sell, parts).value.received + out
            && pos.price.numerator * (b * BPS) == (a * 9_500) * pos.price.denominator
  {
    hide AmountOut, AfterTrade, Opened;
    FlatSell(Opening(Sell, parts).value.price, a, b, x, mid, out);
    OpenedOneMore(FlatConfig(), FlatConfig().initial, Sell, parts, x, out, FlatConfig().minimumAmount);
  }

  lemma ThreeBuys()
    ensures Opening(Buy, [1_000_000, 11_025, 11_577]).Some?
    ensures Total([1_000_000, 11_025, 11_577]) == 1_022_602
    ensures var pos := Opening(Buy, [1_000_000, 11_025, 11_577]).value;
            pos.received == 972_380 && pos.price.numerator * 8_000 == 9_261 * pos.price.denominator
  {
    hide Opening, Total;
    NothingOpened(Buy);
    BuyMore([], 1, 1, 1_000_000, 1_000_000, 952_380);
    assert [] + [1_000_000] == [1_000_000];
    BuyMore([1_000_000], 21, 20, 11_025, 10_500, 10_000);
    assert [1_000_000] + [11_025] == [1_000_000, 11_025];
    BuyMore([1_000_000, 11_025], 441, 400, 11_577, 10_500, 10_000);
    assert [1_000_000, 11_025] + [11_577] == [1_000_000, 11_025, 11_577];
  }

  lemma TwoSells()
    ensures Opening(Sell, [1_000_000, 10_000]).Some? && Total([1_000_000, 10_000]) == 1_010_000
    ensures var pos := Opening(Sell, [1_000_000, 10_000]).value;
            pos.received == 959_025 && pos.price.numerator * 400 == 361 * pos.price.denominator
  {
    hide Opening, Total;
    NothingOpened(Sell);
    SellMore([], 1, 1, 1_000_000, 1_000_000, 950_000);
    assert [] + [1_000_000] == [1_000_000];
    SellMore([1_000_000], 19, 20, 10_000, 9_500, 9_025);
    assert [1_000_000] + [10_000] == [1_000_000, 10_000];
  }

  /** Three buys of at least the minimum amount and one sell of everything, in an accepted
      configuration that enforces it: 1_022_602 is paid in and 1_069_368 comes back. */
  lemma ThreeBuysThenSellCanWin()
    ensures ValidConfig(FlatConfig()) && DefaultsAccepted(FlatConfig(), true)
    ensures var pos := Opening(Buy, [1_000_000, 11_025, 11_577]);
            pos.Some? && AmountOut(FlatConfig(), pos.value.price, pos.value.received, Sell) == Ok(1_069_368)
    ensures Total([1_000_000, 11_025, 11_577]) == 1_022_602
  {
    hide Opening, Total, AmountOut;
    FlatImpact(1);
    ThreeBuys();
    FlatSell(Opening(Buy, [1_000_000, 11_025, 11_577]).value.price, 9_261, 8_000, 972_380, 1_125_651, 1_069_368);
  }

  /** Two sells and one buy with the proceeds: 1_010_000 is paid in and 1_012_029 comes back. */
  lemma TwoSellsThenBuyCanWin()
    ensures ValidConfig(FlatConfig()) && DefaultsAccepted(FlatConfig(), true)
    ensures var pos := Opening(Sell, [1_000_000, 10_000]);
            pos.Some? && AmountOut(FlatConfig(), pos.value.price, pos.value.received, Buy) == Ok(1_012_029)
    ensures Total([1_000_000, 10_000]) == 1_010_000
  {
    hide Opening, Total, AmountOut;
    FlatImpact(1);
    TwoSells();
    FlatBuy(Opening(Sell, [1_000_000, 10_000]).value.price, 361, 400, 959_025, 1_062_631, 1_012_029);
  }

  // ---- and keep winning ----

  /** A buy position that closes at a profit, with room for more buys. */
  predicate BuysAhead(pos: Position, paid: nat) {
    && pos.received >= 900_000
    && pos.price.denominator <= pos.price.numerator
    && 100 * (pos.price.denominator * (paid + 2)) <= 95 * (pos.received * pos.price.numerator)
  }

  lemma BuyMargin(a: nat, b: nat, ua: nat, paidB: nat, xb: nat)
    requires b <= a && 900_000 * a <= ua && 100 * paidB <= 95 * ua && xb <= 10_500 * a + b
    ensures 1_000_000 * (paidB + xb) <= 997_500 * ua
  {
  }

  lemma Constants(k: nat, m: nat, s: nat, t: nat)
    ensures (k * s) * (t * m) == (k * m) * (s * t)
  {
    Regroup(k, s, m, t);
  }

  /** What the profit is worth at the old price leaves room for one more buy. */
  lemma RoomForBuy(a: nat, b: nat, units: nat, paid: nat, x: nat)
    requires 0 < b <= a && units >= 900_000
    requires 100 * (b * (paid + 2)) <= 95 * (units * a) && x * b <= 10_500 * a + b
    ensures (100 * (paid + x + 2)) * (b * BPS) <= (95 * units) * (a * 10_500)
  {
    MulMono(900_000, units, a);
    BuyMargin(a, b, units * a, b * (paid + 2), x * b);
    Distribute(paid + 2, x, b);
    Constants(100, BPS, paid + x + 2, b);
    Constants(95, 10_500, units, a);
  }

  /** A buy of ten thousand more keeps the position ahead. */
  lemma StayAheadBuying(a: nat, b: nat, units: nat, paid: nat, x: nat, a': nat, b': nat)
    requires 0 < b <= a && units >= 900_000
    requires 100 * (b * (paid + 2)) <= 95 * (units * a) && x * b <= 10_500 * a + b
    requires a' * (b * BPS) == (a * 10_500) * b'
    ensures b' <= a' && 100 * (b' * (paid + x + 2)) <= 95 * ((units + 10_000) * a')
  {
    RoomForBuy(a, b, units, paid, x);
    Reproportion(100, paid + x + 2, 95, units, b', a', a * 10_500, b * BPS);
    MulMono(units, units + 10_000, a');
    Transfer(1, 1, b', a', a * 10_500, b * BPS);
  }

  lemma Reproportion(k: nat, t: nat, m: nat, s: nat, u': nat, v': nat, w: nat, z: nat)
    requires w > 0 && u' * w == v' * z && (k * t) * z <= (m * s) * w
    ensures k * (u' * t) <= m * (s * v')
  {
    Transfer(k * t, m * s, u', v', w, z);
    Regroup3(k, t, u');
    Regroup3(m, s, v');
  }

  lemma {:induction false} WinningBuys(n: nat) returns (parts: seq<nat>)
    requires n >= 3
    ensures |parts| == n && Opening(Buy, parts).Some? && BuysAhead(Opening(Buy, parts).value, Total(parts))
  {
    hide Opening, Total;
    if n == 3 {
      parts := [1_000_000, 11_025, 11_577];
      ThreeBuys();
    } else {
      parts := WinningBuys(n - 1);
      var pos := Opening(Buy, parts).value;
      var a, b := pos.price.numerator, pos.price.denominator;
      var x := DivideRoundingUp(10_500 * a, b);
      DivBounds(10_500 * a + b - 1, b);
      BuyMore(parts, a, b, x, 10_500, 10_000);
      var next := Opening(Buy, parts + [x]).value;
      StayAheadBuying(a, b, pos.received, Total(parts), x, next.price.numerator, next.price.denominator);
      parts := parts + [x];
    }
  }

  lemma BuysAheadWin(pos: Position, paid: nat)
    requires IsPositive(pos.price) && BuysAhead(pos, paid)
    ensures ValidConfig(FlatConfig()) && !Loses(FlatConfig(), pos, Buy, paid)
  {
    hide ImpactBps, MidAmountOut;
    FlatImpact(pos.received);
    var a, b := pos.price.numerator, pos.price.denominator;
    var mid := MidAmountOut(FlatConfig(), pos.price, pos.received, Sell);
    MidIsFloor(FlatConfig(), pos.price, pos.received, Sell, mid + 1);
    assert (mid + 1) * b > pos.received * a;
    assert 100 * (b * (paid + 2)) < 95 * ((mid + 1) * b) == (95 * (mid + 1)) * b;
    assert (100 * (paid + 2)) * b <= (95 * (mid + 1)) * b;
    MulCancel(100 * (paid + 2), 95 * (mid + 1), b);
    PayoutIsFloor(mid, 500, Sell, paid);
    PayoutIsFloor(mid, 500, Sell, 1);
  }

  /** A sell position that closes at a profit, with room for more sells. */
  predicate SellsAhead(pos: Position, paid: nat) {
    && pos.received >= 950_000
    && pos.price.numerator <= pos.price.denominator
    && 10_500 * (pos.price.numerator * (paid + 3)) <= 10_000 * (pos.received * pos.price.denominator)
  }

  lemma SellMargin(a: nat, b: nat, pb: nat, paidA: nat, ra: nat)
    requires a <= b && 950_000 * b <= pb && 10_500 * paidA <= 10_000 * pb && ra <= 10_002 * a + 2 * b
    ensures 99_750_000 * (paidA + ra) <= 100_000_000 * pb
  {
  }

  /** What the profit is worth at the old price leaves room for one more sell, if it is not much
      larger than needed. */
  lemma RoomForSell(a: nat, b: nat, proceeds: nat, paid: nat, r: nat)
    requires 0 < a <= b && proceeds >= 950_000
    requires 10_500 * (a * (paid + 3)) <= 10_000 * (proceeds * b) && r * a <= 10_002 * a + 2 * b
    ensures (10_500 * (paid + r + 3)) * (a * 9_500) <= (10_000 * proceeds) * (b * BPS)
  {
    MulMono(950_000, proceeds, b);
    SellMargin(a, b, proceeds * b, a * (paid + 3), r * a);
    Distribute(paid + 3, r, a);
    Constants(10_500, 9_500, paid + r + 3, a);
    Constants(10_000, BPS, proceeds, b);
  }

  /** Such a sell keeps the position ahead, whatever it pays. */
  lemma StayAheadSelling(a: nat, b: nat, proceeds: nat, paid: nat, r: nat, out: nat, a': nat, b': nat)
    requires 0 < a <= b && proceeds >= 950_000
    requires 10_500 * (a * (paid + 3)) <= 10_000 * (proceeds * b) && r * a <= 10_002 * a + 2 * b
    requires a' * (b * BPS) == (a * 9_500) * b'
    ensures a' <= b' && 10_500 * (a' * (paid + r + 3)) <= 10_000 * ((proceeds + out) * b')
  {
    RoomForSell(a, b, proceeds, paid, r);
    Reproportion(10_500, paid + r + 3, 10_000, proceeds, a', b', b * BPS, a * 9_500);
    MulMono(proceeds, proceeds + out, b');
    Transfer(1, 1, a', b', b * BPS, a * 9_500);
  }

  lemma {:induction false} WinningSells(n: nat) returns (parts: seq<nat>)
    requires n >= 2
    ensures |parts| == n && Opening(Sell, parts).Some? && SellsAhead(Opening(Sell, parts).value, Total(parts))
  {
    hide Opening, Total;
    if n == 2 {
      parts := [1_000_000, 10_000];
      TwoSells();
    } else {
      parts := WinningSells(n - 1);
      var pos := Opening(Sell, parts).value;
      var a, b := pos.price.numerator, pos.price.denominator;
      var x, mid, out := SellableAmount(a, b);
      SellMore(parts, a, b, x, mid, out);
      var next := Opening(Sell, parts + [x]).value;
      StayAheadSelling(a, b, pos.received, Total(parts), x, out, next.price.numerator, next.price.denominator);
      parts := parts + [x];
    }
  }

  /** An amount that reaches the minimum and is paid something at the price a/b. */
  lemma SellableAmount(a: nat, b: nat) returns (x: nat, mid: nat, out: nat)
    requires a > 0 && b > 0
    ensures 10_000 <= x && x * a <= 10_002 * a + 2 * b
    ensures mid * b <= x * a < mid * b + b
    ensures 0 < out && out * 10_000 <= mid * 9_500 < out * 10_000 + 10_000
  {
    var share := 2 * b / a;
    DivBounds(2 * b, a);
    DivAtLeast(2 * b, a, 0);
    x := 10_002 + share;
    assert x * a == 10_002 * a + share * a;
    mid := x * a / b;
    DivBounds(x * a, b);
    DivAtLeast(x * a, b, 2);
    out := mid * 9_500 / 10_000;
  }

  lemma SellsAheadWin(pos: Position, paid: nat)
    requires IsPositive(pos.price) && SellsAhead(pos, paid)
    ensures ValidConfig(FlatConfig()) && !Loses(FlatConfig(), pos, Sell, paid)
  {
    hide ImpactBps, MidAmountOut;
    var a, b := pos.price.numerator, pos.price.denominator;
    FlatImpact(1);
    var mid := MidAmountOut(FlatConfig(), pos.price, pos.received, Buy);
    MidIsFloor(FlatConfig(), pos.price, pos.received, Buy, mid + 1);
    assert (mid + 1) * a > pos.received * b;
    assert (10_500 * (paid + 3)) * a <= (10_000 * (mid + 1)) * a;
    MulCancel(10_500 * (paid + 3), 10_000 * (mid + 1), a);
    FlatImpact(mid);
    PayoutIsFloor(mid, 500, Buy, paid);
    PayoutIsFloor(mid, 500, Buy, 1);
  }

  // ---- exactly how many trades ----

  /** Every trip of this many opening trades on a side, closed by one trade, loses: in every
      configuration, at every price, for all amounts. With `enforced`, only in configurations that
      enforce the minimum amount, from their initial price, with trades that reach it. */
  ghost predicate AlwaysLoses(side: Side, n: nat, enforced: bool) {
    forall cfg: Config, p: Ratio, parts: seq<nat> ::
      (&& ValidConfig(cfg) && IsPositive(p) && |parts| == n
       && (enforced ==> DefaultsAccepted(cfg, true) && p == cfg.initial)
       && Opened(cfg, p, side, parts, if enforced then cfg.minimumAmount else 0).Some?) ==>
        Loses(cfg, Opened(cfg, p, side, parts, if enforced then cfg.minimumAmount else 0).value, side, Total(parts))
  }

  lemma {:induction false} OpenedWithoutMinimum(cfg: Config, p: Ratio, side: Side, parts: seq<nat>, least: nat)
    requires ValidConfig(cfg) && IsPositive(p) && Opened(cfg, p, side, parts, least).Some?
    ensures Opened(cfg, p, side, parts, 0) == Opened(cfg, p, side, parts, least)
    decreases |parts|
  {
    hide AmountOut, AfterTrade;
    if parts != [] {
      var out := AmountOut(cfg, p, parts[0], side).value;
      OpenedWithoutMinimum(cfg, AfterTrade(cfg, p, side, parts[0], out), side, parts[1..], least);
    }
  }

  lemma NothingToClose(cfg: Config, p: Ratio, side: Side)
    requires ValidConfig(cfg) && IsPositive(p)
    ensures Loses(cfg, Position(p, 0), side, 0)
  {
    hide ImpactBps;
    WeightsPositive(cfg, p);
    MidIsFloor(cfg, p, 0, Opposite(side), 1);
    ImpactInRange(cfg, 0);
    PayoutIsFloor(0, ImpactBps(cfg, 0), Opposite(side), 1);
  }

  lemma ShortTripsLose(cfg: Config, p: Ratio, side: Side, parts: seq<nat>)
    requires ValidConfig(cfg) && IsPositive(p) && Opened(cfg, p, side, parts, 0).Some?
    requires |parts| <= if side.Buy? then 2 else 1
    ensures Loses(cfg, Opened(cfg, p, side, parts, 0).value, side, Total(parts))
  {
    hide AmountOut, AfterTrade, AfterFill;
    if |parts| == 0 {
      NothingToClose(cfg, p, side);
    } else if |parts| == 1 {
      var x := parts[0];
      assert parts == [x] && Total([]) == 0 && parts[1..] == [];
      OneTrade(cfg, p, side, x);
      ClosingWhole(cfg, p, side, x);
    } else {
      var x, y := parts[0], parts[1];
      assert parts == [x, y] && parts[1..] == [y] && [y][1..] == [] && Total([]) == 0;
      assert Total([y]) == y;
      TwoBuysThenSellLoses(cfg, p, x, y);
    }
  }

  /** A trip of two trades loses. */
  lemma ClosingWhole(cfg: Config, p: Ratio, side: Side, x: nat)
    requires ValidConfig(cfg) && IsPositive(p) && AmountOut(cfg, p, x, side).Ok?
    ensures var out := AmountOut(cfg, p, x, side).value;
            Loses(cfg, Position(AfterTrade(cfg, p, side, x, out), out), side, x)
  {
    hide AmountOut, AfterFill;
    if side.Buy? {
      BuyThenSellLoses(cfg, p, x);
    } else {
      SellThenBuyLoses(cfg, p, x);
    }
  }

  lemma LongTripCanWin(side: Side, n: nat) returns (parts: seq<nat>)
    requires n > if side.Buy? then 2 else 1
    ensures |parts| == n && ValidConfig(FlatConfig()) && DefaultsAccepted(FlatConfig(), true)
    ensures Opening(side, parts).Some? && !Loses(FlatConfig(), Opening(side, parts).value, side, Total(parts))
  {
    hide Opening, Total, Loses, BuysAhead, SellsAhead;
    FlatImpact(1);
    if side.Buy? {
      parts := WinningBuys(n);
      BuysAheadWin(Opening(side, parts).value, Total(parts));
    } else {
      parts := WinningSells(n);
      SellsAheadWin(Opening(side, parts).value, Total(parts));
    }
  }

  /** A trip closed in one trade always loses exactly when it was opened by at most two buys, or by
      at most one sell, whether or not the minimum amount is enforced. */
  lemma TripsAlwaysLoseExactlyWhen(side: Side, n: nat, enforced: bool)
    ensures AlwaysLoses(side, n, enforced) <==> n <= if side.Buy? then 2 else 1
  {
    hide Opened, Loses, Total, DefaultsAccepted;
    if n <= if side.Buy? then 2 else 1 {
      forall cfg: Config, p: Ratio, parts: seq<nat> |
        && ValidConfig(cfg) && IsPositive(p) && |parts| == n
        && Opened(cfg, p, side, parts, if enforced then cfg.minimumAmount else 0).Some?
        ensures Loses(cfg, Opened(cfg, p, side, parts, if enforced then cfg.minimumAmount else 0).value, side,
                      Total(parts))
      {
        OpenedWithoutMinimum(cfg, p, side, parts, if enforced then cfg.minimumAmount else 0);
        ShortTripsLose(cfg, p, side, parts);
      }
    } else {
      var parts := LongTripCanWin(side, n);
      OpenedWithoutMinimum(FlatConfig(), FlatConfig().initial, side, parts, FlatConfig().minimumAmount);
      assert !AlwaysLoses(side, n, enforced);
    }
  }
}
