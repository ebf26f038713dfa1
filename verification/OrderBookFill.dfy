/** Average fill price of a market order that walks one side of an order book.
    Prices and quantities are exact reals. */
module OrderBookFill {
  import opened Options
  import opened RealOrder

  datatype Level = Level(price: real, qty: real)
  datatype SizeUnit = Usdt | Token

  function Min(a: real, b: real): real {
    if a < b then a else b
  }

  /** Money that `qty` tokens cost at `price`. */
  function Notional(qty: real, price: real): real {
    qty * price
  }

  /** Tokens that `usdt` buys at `price`. */
  function Buys(usdt: real, price: real): real
    requires price > 0.0
  {
    usdt / price
  }

  /** What every level of any book satisfies. */
  ghost predicate NonNegative(levels: seq<Level>) {
    forall l :: l in levels ==> l.price >= 0.0 && l.qty >= 0.0
  }

  /** What every level of a usable book satisfies. */
  ghost predicate Positive(levels: seq<Level>) {
    forall l :: l in levels ==> l.price > 0.0 && l.qty >= 0.0
  }

  /** Asks: cheapest first. */
  ghost predicate Ascending(levels: seq<Level>) {
    forall i, j :: 0 <= i < j < |levels| ==> levels[i].price <= levels[j].price
  }

  /** Bids: dearest first. */
  ghost predicate Descending(levels: seq<Level>) {
    forall i, j :: 0 <= i < j < |levels| ==> levels[i].price >= levels[j].price
  }

  ghost predicate NonNegativeQty(levels: seq<Level>) {
    forall l :: l in levels ==> l.qty >= 0.0
  }

  /** Tokens on offer over all levels. */
  ghost function Depth(levels: seq<Level>): real {
    if levels == [] then 0.0 else levels[0].qty + Depth(levels[1..])
  }

  /** Money that buys the whole book. */
  ghost function DepthCost(levels: seq<Level>): real {
    if levels == [] then 0.0 else Notional(levels[0].qty, levels[0].price) + DepthCost(levels[1..])
  }

  /** Money needed to take `size` tokens from the top of the book, or the whole book when it is thinner. */
  ghost function TokenCost(levels: seq<Level>, size: real): real {
    if levels == [] || size <= 0.0 then 0.0
    else
      var take := Min(levels[0].qty, size);
      Notional(take, levels[0].price) + TokenCost(levels[1..], size - take)
  }

  /** Tokens bought when spending up to `usdt` from the top of the book. */
  ghost function UsdtFill(levels: seq<Level>, usdt: real): real
    requires NonNegative(levels)
  {
    if levels == [] || usdt <= 0.0 then 0.0
    else
      var all := Notional(levels[0].qty, levels[0].price);
      if all <= usdt then levels[0].qty + UsdtFill(levels[1..], usdt - all)
      else
        PricedAbove(levels[0], usdt);
        Buys(usdt, levels[0].price)
  }

  /** A level that costs more than the money on offer has a price. */
  lemma PricedAbove(l: Level, usdt: real)
    requires l.price >= 0.0 && l.qty >= 0.0 && 0.0 < usdt < Notional(l.qty, l.price)
    ensures l.price > 0.0
  {
  }

  /** Tokens one level gives for the money still on offer; a free level gives all it has. */
  function TakeForMoney(l: Level, need: real): real
    requires l.price >= 0.0
  {
    if l.price == 0.0 then l.qty else Min(l.qty, Buys(need, l.price))
  }

  /** Tokens obtained for an order of the given size. */
  ghost function Filled(levels: seq<Level>, size: real, unit: SizeUnit): real
    requires NonNegative(levels)
  {
    match unit
    case Token => if size <= 0.0 then 0.0 else Min(size, Depth(levels))
    case Usdt => UsdtFill(levels, size)
  }

  /** The mean price of an order: money paid for the tokens obtained, over those tokens.
      The best price stands in for an order that obtains nothing. */
  ghost function MeanPrice(levels: seq<Level>, size: real, unit: SizeUnit): real
    requires NonNegative(levels) && levels != []
  {
    var filled := Filled(levels, size, unit);
    if filled > 0.0 then PerToken(TokenCost(levels, filled), filled) else levels[0].price
  }

  function PerToken(cost: real, qty: real): real
    requires qty > 0.0
  {
    cost / qty
  }

  /** The price of the deepest level that an order for `size` tokens reaches. */
  ghost function LastTouched(levels: seq<Level>, size: real): real
    requires levels != []
  {
    if |levels| == 1 || size <= levels[0].qty then levels[0].price
    else LastTouched(levels[1..], size - levels[0].qty)
  }

  // ---------------------------------------------------------------- what an order takes

  ghost function Tokens(takes: seq<real>): real {
    if takes == [] then 0.0 else takes[0] + Tokens(takes[1..])
  }

  ghost function Money(levels: seq<Level>, takes: seq<real>): real
    requires |takes| == |levels|
  {
    if takes == [] then 0.0 else Notional(takes[0], levels[0].price) + Money(levels[1..], takes[1..])
  }

  /** Takes from a book, best level first: no level gives more than it has, and none is touched before those in front
      of it are empty. */
  ghost predicate BestFirst(levels: seq<Level>, takes: seq<real>) {
    && |takes| == |levels|
    && (forall i :: 0 <= i < |levels| ==> 0.0 <= takes[i] <= levels[i].qty)
    && (forall i, j :: 0 <= i < j < |levels| && takes[j] > 0.0 ==> takes[i] == levels[i].qty)
  }

  /** How an order of some size is executed: best level first, as many tokens as asked for or as much money as offered,
      as far as the book goes, at the mean of the prices paid; the best price stands in when nothing is taken. */
  ghost predicate Executes(levels: seq<Level>, size: real, unit: SizeUnit, takes: seq<real>, mean: real)
    requires levels != []
  {
    && BestFirst(levels, takes)
    && (match unit
        case Token => Tokens(takes) == if size <= 0.0 then 0.0 else Min(size, Depth(levels))
        case Usdt => Money(levels, takes) == if size <= 0.0 then 0.0 else Min(size, DepthCost(levels)))
    && (size <= 0.0 ==> Tokens(takes) == 0.0)
    && if Tokens(takes) > 0.0 then mean * Tokens(takes) == Money(levels, takes) else mean == levels[0].price
  }

  lemma {:induction false} TakesOf(levels: seq<Level>, f: real) returns (takes: seq<real>)
    requires NonNegativeQty(levels) && 0.0 <= f <= Depth(levels)
    ensures BestFirst(levels, takes) && Tokens(takes) == f && Money(levels, takes) == TokenCost(levels, f)
    ensures f == 0.0 ==> forall i :: 0 <= i < |takes| ==> takes[i] == 0.0
  {
    if levels == [] {
      takes := [];
    } else {
      var l := levels[0];
      assert l in levels;
      DepthNonNegative(levels[1..]);
      var take := Min(l.qty, f);
      var rest := TakesOf(levels[1..], f - take);
      takes := [take] + rest;
      hide Notional, BestFirst, TokenCost, Tokens, Money;
      FirstTake(levels, f, rest);
    }
  }

  /** A take from the best level in front of takes from the others. */
  lemma FirstTake(levels: seq<Level>, f: real, rest: seq<real>)
    requires levels != [] && levels[0].qty >= 0.0 && f >= 0.0
    requires var left := f - Min(levels[0].qty, f);
             && BestFirst(levels[1..], rest) && Tokens(rest) == left
             && Money(levels[1..], rest) == TokenCost(levels[1..], left)
             && (left == 0.0 ==> forall i :: 0 <= i < |rest| ==> rest[i] == 0.0)
    ensures var takes := [Min(levels[0].qty, f)] + rest;
            BestFirst(levels, takes) && Tokens(takes) == f && Money(levels, takes) == TokenCost(levels, f)
            && (f == 0.0 ==> forall i :: 0 <= i < |takes| ==> takes[i] == 0.0)
  {
    var takes := [Min(levels[0].qty, f)] + rest;
    assert takes[1..] == rest;
    FirstTakeBest(levels, f, rest);
    hide BestFirst;
    NoTakeNoCost(levels[0].price);
    hide Notional;
    if f <= 0.0 { NoCost(levels[1..]); }
  }

  lemma NoTakeNoCost(price: real)
    ensures Notional(0.0, price) == 0.0
  {
  }

  lemma FirstTakeBest(levels: seq<Level>, f: real, rest: seq<real>)
    requires levels != [] && levels[0].qty >= 0.0 && f >= 0.0 && BestFirst(levels[1..], rest)
    requires f - Min(levels[0].qty, f) == 0.0 ==> forall i :: 0 <= i < |rest| ==> rest[i] == 0.0
    ensures BestFirst(levels, [Min(levels[0].qty, f)] + rest)
  {
    var takes := [Min(levels[0].qty, f)] + rest;
    forall i | 0 <= i < |levels|
      ensures 0.0 <= takes[i] <= levels[i].qty
    {
      if i > 0 { assert takes[i] == rest[i - 1] && levels[i] == levels[1..][i - 1]; }
    }
    forall i, j | 0 <= i < j < |levels| && takes[j] > 0.0
      ensures takes[i] == levels[i].qty
    {
      assert takes[j] == rest[j - 1];
      if i > 0 { assert takes[i] == rest[i - 1] && levels[i] == levels[1..][i - 1]; }
    }
  }

  lemma NoCost(levels: seq<Level>)
    ensures TokenCost(levels, 0.0) == 0.0
  {
  }

  /** The mean price is that of the takes. */
  lemma MeanOfTakes(levels: seq<Level>, size: real, unit: SizeUnit) returns (takes: seq<real>)
    requires NonNegative(levels) && levels != []
    ensures Executes(levels, size, unit, takes, MeanPrice(levels, size, unit))
  {
    hide MeanPrice, Filled, TokenCost, Money, Tokens, Depth, DepthCost;
    FilledPaid(levels, size, unit);
    takes := TakesOf(levels, Filled(levels, size, unit));
    MeanTimes(levels, size, unit);
  }

  /** What an order obtains and pays, and the bounds of both. */
  lemma FilledPaid(levels: seq<Level>, size: real, unit: SizeUnit)
    requires NonNegative(levels)
    ensures var f := Filled(levels, size, unit);
            && 0.0 <= f <= Depth(levels)
            && (size <= 0.0 ==> f == 0.0 && TokenCost(levels, f) == 0.0)
            && (size > 0.0 && unit == Token ==> f == Min(size, Depth(levels)))
            && (size > 0.0 && unit == Usdt ==> TokenCost(levels, f) == Min(size, DepthCost(levels)))
  {
    hide Notional, Buys;
    DepthNonNegative(levels);
    if size > 0.0 && unit == Usdt { CostOfUsdtFill(levels, size); }
  }

  lemma MeanTimes(levels: seq<Level>, size: real, unit: SizeUnit)
    requires NonNegative(levels) && levels != []
    ensures var f, mean := Filled(levels, size, unit), MeanPrice(levels, size, unit);
            if f > 0.0 then mean * f == TokenCost(levels, f) else mean == levels[0].price
  {
    hide Filled, TokenCost;
    var f := Filled(levels, size, unit);
    if f > 0.0 { PerTokenTimes(TokenCost(levels, f), f); }
  }

  lemma PerTokenTimes(cost: real, qty: real)
    requires qty > 0.0
    ensures PerToken(cost, qty) * qty == cost
  {
  }

  // ---------------------------------------------------------------- the walk

  /** One pass over the levels that stops once the order is filled. */
  method Vwap(levels: seq<Level>, size: real, unit: SizeUnit) returns (r: Option<real>)
    requires NonNegative(levels)
    ensures r == if levels == [] then None else Some(MeanPrice(levels, size, unit))
    ensures r.Some? ==> exists takes :: Executes(levels, size, unit, takes, r.value)
  {
    if levels != [] { var takes := MeanOfTakes(levels, size, unit); }
    hide Executes;
    hide Notional, Buys, PerToken, TakeForMoney;
    if levels == [] {
      return None;
    }
    if size <= 0.0 {
      return Some(levels[0].price);
    }
    var filledQty, cost := 0.0, 0.0;
    WalkStarts(levels, size, unit);
    var i := 0;
    while i < |levels|
      invariant 0 <= i <= |levels|
      invariant Walked(levels, size, unit, i, filledQty, cost)
    {
      hide Walked;
      var l := levels[i];
      assert l in levels;
      var take;
      match unit {
        case Token =>
          var need := size - filledQty;
          if need <= 0.0 { break; }
          take := Min(l.qty, need);
          TokenStep(levels, size, i, filledQty, cost, take);
        case Usdt =>
          var need := size - cost;
          if need <= 0.0 { break; }
          take := TakeForMoney(l, need);
          UsdtStep(levels, size, i, filledQty, cost, take);
      }
      cost := cost + Notional(take, l.price);
      filledQty := filledQty + take;
      i := i + 1;
    }
    WalkEnds(levels, size, unit, i, filledQty, cost);
    return Some(if filledQty > 0.0 then PerToken(cost, filledQty) else levels[0].price);
  }

  /** Where the walk stands before level `i`: what it has taken plus what the rest would give is the whole. */
  ghost predicate Walked(levels: seq<Level>, size: real, unit: SizeUnit, i: nat, filledQty: real, cost: real)
    requires NonNegative(levels) && i <= |levels|
  {
    match unit
    case Token =>
      && filledQty <= size
      && cost + TokenCost(levels[i..], size - filledQty) == TokenCost(levels, size)
      && filledQty + Min(size - filledQty, Depth(levels[i..])) == Min(size, Depth(levels))
    case Usdt =>
      && cost <= size
      && cost + Min(size - cost, DepthCost(levels[i..])) == Min(size, DepthCost(levels))
      && filledQty + UsdtFill(levels[i..], size - cost) == UsdtFill(levels, size)
  }

  lemma WalkStarts(levels: seq<Level>, size: real, unit: SizeUnit)
    requires NonNegative(levels) && size > 0.0
    ensures Walked(levels, size, unit, 0, 0.0, 0.0)
  {
    assert levels[0..] == levels;
  }

  lemma TokenStep(levels: seq<Level>, size: real, i: nat, filledQty: real, cost: real, take: real)
    requires NonNegative(levels) && i < |levels| && size - filledQty > 0.0
    requires Walked(levels, size, Token, i, filledQty, cost)
    requires take == Min(levels[i].qty, size - filledQty)
    ensures Walked(levels, size, Token, i + 1, filledQty + take, cost + Notional(take, levels[i].price))
  {
    hide Notional;
    assert levels[i] in levels;
    assert levels[i..][1..] == levels[i + 1..];
    DepthNonNegative(levels[i + 1..]);
  }

  lemma UsdtStep(levels: seq<Level>, size: real, i: nat, filledQty: real, cost: real, take: real)
    requires NonNegative(levels) && i < |levels| && size - cost > 0.0
    requires Walked(levels, size, Usdt, i, filledQty, cost)
    requires levels[i] in levels && take == TakeForMoney(levels[i], size - cost)
    ensures Walked(levels, size, Usdt, i + 1, filledQty + take, cost + Notional(take, levels[i].price))
  {
    hide Notional, Buys, TakeForMoney;
    assert levels[i..][1..] == levels[i + 1..];
    DepthCostNonNegative(levels[i + 1..]);
    TakeOf(levels[i], size - cost, take);
  }

  /** One level serves the smaller of what it holds and what is still needed. */
  lemma TakeOf(l: Level, need: real, take: real)
    requires l.price >= 0.0 && l.qty >= 0.0 && need > 0.0
    requires take == TakeForMoney(l, need)
    ensures Notional(take, l.price) == Min(need, Notional(l.qty, l.price))
    ensures take == if Notional(l.qty, l.price) <= need then l.qty else Buys(need, l.price)
  {
    if l.price > 0.0 {
      var x := need / l.price;
      assert x * l.price == need;
      ProductOrder(x, need, l.price, l.qty);
    }
  }

  lemma WalkEnds(levels: seq<Level>, size: real, unit: SizeUnit, i: nat, filledQty: real, cost: real)
    requires NonNegative(levels) && levels != [] && size > 0.0 && i <= |levels|
    requires Walked(levels, size, unit, i, filledQty, cost)
    requires i < |levels| ==> (if unit == Token then size - filledQty else size - cost) <= 0.0
    ensures filledQty == Filled(levels, size, unit)
    ensures cost == TokenCost(levels, filledQty)
  {
    hide Notional, Buys;
    DepthNonNegative(levels[i..]);
    DepthCostNonNegative(levels[i..]);
    if unit == Token {
      CostOfFill(levels, size);
    } else {
      CostOfUsdtFill(levels, size);
    }
  }

  lemma {:induction false} DepthNonNegative(levels: seq<Level>)
    requires NonNegativeQty(levels)
    ensures Depth(levels) >= 0.0
  {
    if levels != [] {
      DepthNonNegative(levels[1..]);
    }
  }

  lemma {:induction false} DepthCostNonNegative(levels: seq<Level>)
    requires NonNegative(levels)
    ensures DepthCost(levels) >= 0.0
  {
    if levels != [] {
      assert levels[0] in levels;
      MulMono(0.0, levels[0].qty, levels[0].price);
      DepthCostNonNegative(levels[1..]);
    }
  }

  /** Asking for more than the book holds costs what the book costs. */
  lemma {:induction false} CostOfFill(levels: seq<Level>, size: real)
    requires NonNegativeQty(levels) && size >= 0.0
    ensures Min(size, Depth(levels)) >= 0.0
    ensures TokenCost(levels, size) == TokenCost(levels, Min(size, Depth(levels)))
    ensures size >= Depth(levels) ==> TokenCost(levels, size) == DepthCost(levels)
  {
    hide Notional;
    DepthNonNegative(levels);
    if levels != [] {
      DepthNonNegative(levels[1..]);
      CostUnfold(levels, size);
      CostUnfold(levels, Depth(levels));
      CostOfFill(levels[1..], Depth(levels[1..]));
      if size > levels[0].qty {
        CostOfFill(levels[1..], size - levels[0].qty);
      }
    }
  }

  lemma CostUnfold(levels: seq<Level>, size: real)
    requires NonNegativeQty(levels) && levels != [] && size >= 0.0
    ensures size <= levels[0].qty ==> TokenCost(levels, size) == Notional(size, levels[0].price)
    ensures size >= levels[0].qty ==>
              TokenCost(levels, size) ==
              Notional(levels[0].qty, levels[0].price) + TokenCost(levels[1..], size - levels[0].qty)
  {
    assert levels[0].qty >= 0.0;
  }

  /** Money offered is spent down to the last cent the book can absorb, and it pays for the tokens obtained. */
  lemma {:induction false} CostOfUsdtFill(levels: seq<Level>, usdt: real)
    requires NonNegative(levels) && usdt >= 0.0
    ensures 0.0 <= UsdtFill(levels, usdt) <= Depth(levels)
    ensures TokenCost(levels, UsdtFill(levels, usdt)) == Min(usdt, DepthCost(levels))
  {
    hide Notional, Buys;
    DepthNonNegative(levels);
    DepthCostNonNegative(levels);
    if levels != [] && usdt > 0.0 {
      var l := levels[0];
      assert l in levels;
      DepthNonNegative(levels[1..]);
      DepthCostNonNegative(levels[1..]);
      var all := Notional(l.qty, l.price);
      if all <= usdt {
        CostOfUsdtFill(levels[1..], usdt - all);
        CostUnfold(levels, UsdtFill(levels, usdt));
      } else {
        PricedAbove(l, usdt);
        PartOfLevel(l, usdt);
        CostUnfold(levels, Buys(usdt, l.price));
      }
    }
  }

  lemma PartOfLevel(l: Level, usdt: real)
    requires l.price > 0.0 && 0.0 <= usdt < Notional(l.qty, l.price)
    ensures 0.0 <= Buys(usdt, l.price) < l.qty && Notional(Buys(usdt, l.price), l.price) == usdt
  {
    var x := usdt / l.price;
    assert x * l.price == usdt;
    if x >= l.qty { MulMono(l.qty, x, l.price); }
    if x < 0.0 { MulStrict(x, 0.0, l.price); }
  }
}
