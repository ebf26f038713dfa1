/** What the average fill price of `OrderBookFill` promises a trader. */
module FillLaws {
  import opened OrderBookFill
  import opened RealOrder

  /** Every further token costs at least the cheapest price on the book. */
  lemma {:induction false} MarginalCost(levels: seq<Level>, a: real, b: real, lo: real)
    requires NonNegativeQty(levels)
    requires forall l :: l in levels ==> l.price >= lo
    requires 0.0 <= a <= b <= Depth(levels)
    ensures TokenCost(levels, b) - TokenCost(levels, a) >= Notional(b - a, lo)
  {
    hide Notional;
    if levels == [] {
      NotionalSplit(0.0, 0.0, lo);
    } else {
      var q, p := levels[0].qty, levels[0].price;
      assert levels[0] in levels;
      CostUnfold(levels, a);
      CostUnfold(levels, b);
      if b <= q {
        NotionalSplit(a, b, p);
        NotionalGrows(b - a, lo, p);
      } else if a <= q {
        MarginalCost(levels[1..], 0.0, b - q, lo);
        NotionalSplit(a, q, p);
        NotionalGrows(q - a, lo, p);
        NotionalSplit(q - a, b - a, lo);
      } else {
        MarginalCost(levels[1..], a - q, b - q, lo);
      }
    }
  }

  lemma NotionalSplit(a: real, b: real, p: real)
    ensures Notional(0.0, p) == 0.0
    ensures Notional(b, p) == Notional(a, p) + Notional(b - a, p)
  {
  }

  lemma NotionalGrows(qty: real, p1: real, p2: real)
    requires qty >= 0.0 && p1 <= p2
    ensures Notional(qty, p1) <= Notional(qty, p2)
  {
    MulMono(p1, p2, qty);
  }

  /** On ascending prices the mean cost per token never falls as the order grows (cross-multiplied form). */
  lemma {:induction false} MeanCostGrows(levels: seq<Level>, a: real, b: real)
    requires NonNegativeQty(levels) && Ascending(levels)
    requires 0.0 <= a <= b <= Depth(levels)
    ensures Notional(b, TokenCost(levels, a)) <= Notional(a, TokenCost(levels, b))
  {
    hide Notional, Ascending;
    if levels == [] {
      NotionalSplit(0.0, 0.0, 0.0);
    } else {
      var q, p, rest := levels[0].qty, levels[0].price, levels[1..];
      assert levels[0] in levels;
      CostUnfold(levels, a);
      CostUnfold(levels, b);
      FirstIsCheapest(levels);
      if a <= q {
        MarginalCost(levels, 0.0, b, p);
        NoTokensNoCost(levels);
        SmallOrder(p, a, b, TokenCost(levels, b));
      } else {
        MeanCostGrows(rest, a - q, b - q);
        MarginalCost(rest, a - q, b - q, p);
        AddCheaperLevel(p, q, a - q, b - q, TokenCost(rest, a - q), TokenCost(rest, b - q));
      }
    }
  }

  lemma FirstIsCheapest(levels: seq<Level>)
    requires levels != [] && Ascending(levels)
    ensures Ascending(levels[1..])
    ensures forall l :: l in levels ==> l.price >= levels[0].price
    ensures forall l :: l in levels[1..] ==> l.price >= levels[0].price
  {
  }

  lemma SmallOrder(p: real, a: real, b: real, cost: real)
    requires a >= 0.0 && cost >= Notional(b, p)
    ensures Notional(b, Notional(a, p)) <= Notional(a, cost)
  {
    assert (a * p) * b == (b * p) * a;
    MulMono(b * p, cost, a);
  }

  lemma AddCheaperLevel(p: real, q: real, a: real, b: real, ca: real, cb: real)
    requires q >= 0.0 && Notional(b, ca) <= Notional(a, cb) && cb - ca >= Notional(b - a, p)
    ensures Notional(q + b, Notional(q, p) + ca) <= Notional(q + a, Notional(q, p) + cb)
  {
    var gain := cb - ca - (b - a) * p;
    MulMono(0.0, gain, q);
    calc {
      (q * p + cb) * (q + a) - (q * p + ca) * (q + b);
      q * p * (a - b) + q * (cb - ca) + (cb * a - ca * b);
      gain * q + (cb * a - ca * b);
    }
  }

  /** The same book with every price negated turns bids into asks. */
  ghost function Negated(levels: seq<Level>): (r: seq<Level>) {
    seq(|levels|, i requires 0 <= i < |levels| => Level(-levels[i].price, levels[i].qty))
  }

  lemma {:induction false} NegatedCost(levels: seq<Level>, size: real)
    ensures TokenCost(Negated(levels), size) == -TokenCost(levels, size)
    ensures Depth(Negated(levels)) == Depth(levels)
  {
    if levels != [] {
      assert Negated(levels)[1..] == Negated(levels[1..]);
      NegatedCost(levels[1..], size - Min(levels[0].qty, size));
    }
  }

  /** The price of the deepest level reached bounds the mean from above on asks. */
  lemma {:induction false} TouchedBounds(levels: seq<Level>, size: real)
    requires NonNegativeQty(levels) && levels != [] && Ascending(levels)
    requires 0.0 <= size <= Depth(levels)
    ensures LastTouched(levels, size) >= levels[0].price
    ensures TokenCost(levels, size) <= Notional(size, LastTouched(levels, size))
  {
    hide Notional;
    CostUnfold(levels, size);
    var q, p := levels[0].qty, levels[0].price;
    assert levels[0] in levels;
    if |levels| > 1 && size > q {
      TouchedBounds(levels[1..], size - q);
      var top := LastTouched(levels, size);
      NotionalGrows(q, p, top);
      NotionalSplit(q, size, top);
    }
  }

  /** The deepest level reached is the one whose slice of the book contains the last token of the order. */
  lemma {:induction false} TouchedLevel(levels: seq<Level>, size: real) returns (k: nat)
    requires NonNegativeQty(levels) && 0.0 < size <= Depth(levels)
    ensures k < |levels| && LastTouched(levels, size) == levels[k].price
    ensures Depth(levels[..k]) < size <= Depth(levels[..k + 1])
  {
    k := 0;
    assert levels[..1][1..] == levels[..0];
    if size > levels[0].qty {
      k := TouchedLevel(levels[1..], size - levels[0].qty);
      assert levels[..k + 1][1..] == levels[1..][..k];
      assert levels[..k + 2][1..] == levels[1..][..k + 1];
      k := k + 1;
    }
  }

  lemma {:induction false} TouchedOfNegated(levels: seq<Level>, size: real)
    requires levels != []
    ensures LastTouched(Negated(levels), size) == -LastTouched(levels, size)
  {
    if |levels| > 1 && size > levels[0].qty {
      assert Negated(levels)[1..] == Negated(levels[1..]);
      TouchedOfNegated(levels[1..], size - levels[0].qty);
    }
  }

  /** More money never buys fewer tokens. */
  lemma {:induction false} UsdtFillGrows(levels: seq<Level>, c1: real, c2: real)
    requires NonNegative(levels) && c1 <= c2
    ensures UsdtFill(levels, c1) <= UsdtFill(levels, c2)
  {
    hide Notional, Buys;
    if c2 > 0.0 {
      CostOfUsdtFill(levels, c2);
    }
    if levels != [] && c1 > 0.0 {
      var l := levels[0];
      assert l in levels;
      var all := Notional(l.qty, l.price);
      if all <= c1 {
        UsdtFillGrows(levels[1..], c1 - all, c2 - all);
      } else if all <= c2 {
        PricedAbove(l, c1);
        PartOfLevel(l, c1);
        CostOfUsdtFill(levels[1..], c2 - all);
      } else {
        PricedAbove(l, c1);
        BuysGrows(c1, c2, l.price);
      }
    }
  }

  lemma BuysGrows(c1: real, c2: real, price: real)
    requires price > 0.0 && c1 <= c2
    ensures Buys(c1, price) <= Buys(c2, price)
  {
    if c1 / price > c2 / price {
      MulStrict(c2 / price, c1 / price, price);
    }
  }

  /** Tokens obtained lie between nothing and the whole book. */
  lemma FilledBounds(levels: seq<Level>, size: real, unit: SizeUnit)
    requires NonNegative(levels)
    ensures 0.0 <= Filled(levels, size, unit) <= Depth(levels)
  {
    DepthNonNegative(levels);
    if unit == Usdt && size > 0.0 {
      CostOfUsdtFill(levels, size);
    }
  }

  lemma FilledGrows(levels: seq<Level>, s1: real, s2: real, unit: SizeUnit)
    requires NonNegative(levels) && s1 <= s2
    ensures Filled(levels, s1, unit) <= Filled(levels, s2, unit)
  {
    DepthNonNegative(levels);
    match unit
    case Token =>
    case Usdt => UsdtFillGrows(levels, s1, s2);
  }

  lemma QuotientOrder(ca: real, a: real, cb: real, b: real)
    requires a > 0.0 && b > 0.0 && Notional(b, ca) <= Notional(a, cb)
    ensures PerToken(ca, a) <= PerToken(cb, b)
  {
    var x, y := ca / a, cb / b;
    assert ca == x * a && cb == y * b;
    assert ca * b == x * (a * b) && cb * a == y * (a * b);
    MulStrict(0.0, a, b);
    if x > y {
      MulStrict(y, x, a * b);
    }
  }

  lemma QuotientBounds(c: real, f: real, lo: real, hi: real)
    requires f > 0.0 && Notional(f, lo) <= c <= Notional(f, hi)
    ensures lo <= PerToken(c, f) <= hi
  {
    var x := c / f;
    assert c == x * f;
    if x < lo { MulStrict(x, lo, f); }
    if x > hi { MulStrict(hi, x, f); }
  }

  lemma NotionalOfNegated(qty: real, p: real)
    ensures Notional(qty, -p) == -Notional(qty, p)
  {
  }

  // ---------------------------------------------------------------- main results

  /** Buying: the mean price lies between the best ask and the last ask the order touched. */
  lemma AskMeanBetween(levels: seq<Level>, size: real, unit: SizeUnit)
    requires NonNegative(levels) && levels != [] && Ascending(levels)
    ensures levels[0].price <= MeanPrice(levels, size, unit) <= LastTouched(levels, Filled(levels, size, unit))
  {
    hide Notional, Buys, PerToken;
    var f := Filled(levels, size, unit);
    FilledBounds(levels, size, unit);
    TouchedBounds(levels, f);
    if f > 0.0 {
      MarginalCost(levels, 0.0, f, levels[0].price);
      QuotientBounds(TokenCost(levels, f), f, levels[0].price, LastTouched(levels, f));
    }
  }

  /** Selling: the mean price lies between the last bid the order touched and the best bid. */
  lemma BidMeanBetween(levels: seq<Level>, size: real, unit: SizeUnit)
    requires NonNegative(levels) && levels != [] && Descending(levels)
    ensures LastTouched(levels, Filled(levels, size, unit)) <= MeanPrice(levels, size, unit) <= levels[0].price
  {
    hide Notional, Buys, PerToken;
    var f := Filled(levels, size, unit);
    FilledBounds(levels, size, unit);
    BidCostBounds(levels, f);
    if f > 0.0 {
      QuotientBounds(TokenCost(levels, f), f, LastTouched(levels, f), levels[0].price);
    }
  }

  /** What a sale brings in lies between its size at the last bid touched and its size at the best bid. */
  lemma BidCostBounds(levels: seq<Level>, f: real)
    requires NonNegative(levels) && levels != [] && Descending(levels) && 0.0 <= f <= Depth(levels)
    ensures LastTouched(levels, f) <= levels[0].price
    ensures Notional(f, LastTouched(levels, f)) <= TokenCost(levels, f) <= Notional(f, levels[0].price)
  {
    hide Notional, TokenCost, LastTouched, Depth;
    var neg := Negated(levels);
    NegatedCost(levels, f);
    NegatedCost(levels, 0.0);
    TouchedOfNegated(levels, f);
    TouchedBounds(neg, f);
    MarginalCost(neg, 0.0, f, neg[0].price);
    NoTokensNoCost(levels);
    NotionalOfNegated(f, levels[0].price);
    NotionalOfNegated(f, LastTouched(levels, f));
  }

  lemma NoTokensNoCost(levels: seq<Level>)
    ensures TokenCost(levels, 0.0) == 0.0
  {
  }

  /** A larger buy never gets a better mean price, in either unit, whatever the two sizes. */
  lemma AskMeanMonotone(levels: seq<Level>, s1: real, s2: real, unit: SizeUnit)
    requires NonNegative(levels) && levels != [] && Ascending(levels) && s1 <= s2
    ensures MeanPrice(levels, s1, unit) <= MeanPrice(levels, s2, unit)
  {
    hide Notional, Buys, PerToken;
    var f1, f2 := Filled(levels, s1, unit), Filled(levels, s2, unit);
    FilledBounds(levels, s1, unit);
    FilledBounds(levels, s2, unit);
    FilledGrows(levels, s1, s2, unit);
    if f1 > 0.0 {
      MeanCostGrows(levels, f1, f2);
      QuotientOrder(TokenCost(levels, f1), f1, TokenCost(levels, f2), f2);
    } else {
      AskMeanBetween(levels, s2, unit);
    }
  }

  /** A larger sell never gets a better mean price, in either unit, whatever the two sizes. */
  lemma BidMeanAntitone(levels: seq<Level>, s1: real, s2: real, unit: SizeUnit)
    requires NonNegative(levels) && levels != [] && Descending(levels) && s1 <= s2
    ensures MeanPrice(levels, s1, unit) >= MeanPrice(levels, s2, unit)
  {
    hide Notional, Buys, PerToken;
    var f1, f2 := Filled(levels, s1, unit), Filled(levels, s2, unit);
    FilledBounds(levels, s1, unit);
    FilledBounds(levels, s2, unit);
    FilledGrows(levels, s1, s2, unit);
    if f1 > 0.0 {
      NegatedCost(levels, f1);
      NegatedCost(levels, f2);
      MeanCostGrows(Negated(levels), f1, f2);
      var c1, c2 := TokenCost(levels, f1), TokenCost(levels, f2);
      NotionalOfNegated(f2, c1);
      NotionalOfNegated(f1, c2);
      QuotientOrder(c2, f2, c1, f1);
    } else {
      BidMeanBetween(levels, s2, unit);
    }
  }

  /** Once the book is exhausted the quote stops moving: it is the mean price of the whole book. */
  lemma PastDepth(levels: seq<Level>, size: real, unit: SizeUnit)
    requires Positive(levels) && Depth(levels) > 0.0
    requires size >= match unit case Token => Depth(levels) case Usdt => DepthCost(levels)
    ensures MeanPrice(levels, size, unit) == DepthCost(levels) / Depth(levels)
  {
    CostOfFill(levels, Depth(levels));
    if unit == Usdt {
      UnitsInverse(levels, Depth(levels));
      var all := DepthCost(levels);
      DepthCostNonNegative(levels);
      UsdtFillGrows(levels, all, size);
      CostOfUsdtFill(levels, size);
    }
  }

  /** The two units are inverse: paying exactly what `size` tokens cost buys exactly `size` tokens,
      at the same mean price. */
  lemma {:induction false} UnitsInverse(levels: seq<Level>, size: real)
    requires Positive(levels) && 0.0 <= size <= Depth(levels)
    ensures TokenCost(levels, size) >= 0.0
    ensures UsdtFill(levels, TokenCost(levels, size)) == size
    ensures levels != [] ==> MeanPrice(levels, TokenCost(levels, size), Usdt) == MeanPrice(levels, size, Token)
  {
    hide Notional, Buys;
    if levels != [] && size > 0.0 {
      var l := levels[0];
      assert l in levels;
      CostUnfold(levels, size);
      PayForPart(l, size);
      if size >= l.qty {
        UnitsInverse(levels[1..], size - l.qty);
        PayForPart(l, l.qty);
      }
      assert UsdtFill(levels, TokenCost(levels, size)) == size;
    }
  }

  lemma PayForPart(l: Level, size: real)
    requires l.price > 0.0 && l.qty >= 0.0 && size >= 0.0
    ensures Notional(size, l.price) >= 0.0 && (size > 0.0 ==> Notional(size, l.price) > 0.0)
    ensures Buys(Notional(size, l.price), l.price) == size
    ensures size < l.qty ==> Notional(size, l.price) < Notional(l.qty, l.price)
  {
    var c := size * l.price;
    var x := c / l.price;
    assert x * l.price == c;
    SameFactor(x, size, l.price);
    ProductOrder(size, c, l.price, 0.0);
    ProductOrder(size, c, l.price, l.qty);
  }
}
