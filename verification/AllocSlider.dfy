/** Sizing an order by slider: percent of what both legs can fund, shown as a rounded quantity, and read back. */
module AllocSlider {
  import opened OrderBookFill
  import opened RealOrder

  datatype PairKind = LongShort | SpotShort

  /** The integer nearest to a number, halves upwards. */
  function Round(x: real): (n: int)
    ensures n as real - 0.5 <= x < n as real + 0.5
  {
    (x + 0.5).Floor
  }

  /** A non-negative number printed with two or six decimals and parsed back. */
  function ToFixed2(x: real): real {
    Round(x * 100.0) as real / 100.0
  }

  function ToFixed6(x: real): real {
    Round(x * 1000000.0) as real / 1000000.0
  }

  // ---------------------------------------------------------------- what the code computes

  /** The largest notional that both legs can fund. */
  function MaxNotionalUsd(kind: PairKind, longAvail: real, shortAvail: real, leverage: real): real {
    match kind
    case SpotShort => Min(longAvail, shortAvail * leverage)
    case LongShort => Min(longAvail, shortAvail) * leverage
  }

  function InputNotionalUsd(unit: SizeUnit, qty: real, mark: real): real {
    match unit
    case Usdt => qty
    case Token => if mark > 0.0 then Notional(qty, mark) else 0.0
  }

  function UsdToInputValue(unit: SizeUnit, usd: real, mark: real): real {
    match unit
    case Usdt => ToFixed2(usd)
    case Token => if mark > 0.0 then ToFixed6(Buys(usd, mark)) else 0.0
  }

  /** A percentage of the cap, before rounding. */
  function Share(cap: real, pct: int): real {
    cap * (pct as real / 100.0)
  }

  function Percent(part: real, whole: real): real
    requires whole > 0.0
  {
    part / whole * 100.0
  }

  function Clamp(n: int): int {
    if n < 0 then 0 else if n > 100 then 100 else n
  }

  /** The input's value after the slider was moved to `pct`. */
  function QtyOfPercent(unit: SizeUnit, mark: real, cap: real, pct: int): real {
    UsdToInputValue(unit, Share(cap, pct), mark)
  }

  /** The slider's position after a quantity was typed. */
  function PercentOfQty(unit: SizeUnit, mark: real, cap: real, qty: real): int
    requires cap > 0.0
  {
    Clamp(Round(Percent(InputNotionalUsd(unit, qty, mark), cap)))
  }

  class LtPanel {
    var kind: PairKind
    var unit: SizeUnit
    var longAvail: real
    var shortAvail: real
    var leverageText: int
    var mark: real
    var qty: real
    var slider: int

    /** An unreadable or zero leverage counts as one. */
    function Leverage(): real
      reads this
    {
      if leverageText == 0 then 1.0 else leverageText as real
    }

    function Cap(): real
      reads this
    {
      MaxNotionalUsd(kind, longAvail, shortAvail, Leverage())
    }

    /** What both legs can fund with the panel's balances and leverage; no readable leverage counts as one. */
    lemma CapReads(n: real)
      requires leverageText >= 0
      ensures var lev := if leverageText == 0 then 1.0 else leverageText as real;
              n <= Cap() <==>
              && n / lev <= shortAvail
              && match kind { case LongShort => n / lev <= longAvail case SpotShort => n <= longAvail }
    {
      CapIsExact(kind, longAvail, shortAvail, Leverage(), n);
    }

    method OnAlloc(pct: int)
      modifies this`slider, this`qty
      ensures slider == pct
      ensures qty == if Cap() > 0.0 then QtyOfPercent(unit, mark, Cap(), pct) else old(qty)
    {
      hide Share, MaxNotionalUsd, UsdToInputValue;
      slider := pct;
      var cap := Cap();
      if cap > 0.0 {
        var usd := Share(cap, pct);
        qty := UsdToInputValue(unit, usd, mark);
      }
    }

    method OnQtyInput()
      modifies this`slider
      ensures slider == if Cap() > 0.0 then PercentOfQty(unit, mark, Cap(), qty) else old(slider)
    {
      var usd := InputNotionalUsd(unit, qty, mark);
      var cap := Cap();
      if cap > 0.0 {
        slider := Clamp(Round(Percent(usd, cap)));
      }
    }

    /** A move of the slider, and the input it has written read back. */
    method MoveAndReadBack(pct: int)
      modifies this`slider, this`qty
      ensures slider == SliderTrip(unit, mark, Cap(), pct)
    {
      hide MaxNotionalUsd, PercentOfQty, QtyOfPercent;
      OnAlloc(pct);
      OnQtyInput();
    }

    /** Re-expresses the typed quantity in the other unit. */
    method SetUnit(newUnit: SizeUnit)
      modifies this`unit, this`qty, this`slider
      ensures unit == newUnit
      ensures old(unit) == newUnit ==> qty == old(qty) && slider == old(slider)
      ensures old(unit) != newUnit ==>
                && qty == Converted(newUnit, old(qty), mark)
                && slider == if Cap() > 0.0 then PercentOfQty(unit, mark, Cap(), qty) else old(slider)
    {
      hide MaxNotionalUsd, PercentOfQty, Rescaled;
      if unit == newUnit { return; }
      var next := Rescaled(newUnit, qty, mark);
      unit := newUnit;
      PrintedZero(newUnit);
      hide Printed;
      qty := if next == 0.0 then 0.0 else Printed(newUnit, next);
      OnQtyInput();
    }
  }

  /** The same order in the other unit; without a price or a quantity the number stands as it is. */
  function Rescaled(newUnit: SizeUnit, qty: real, mark: real): real {
    if mark > 0.0 && qty > 0.0 then (if newUnit == Usdt then Notional(qty, mark) else Buys(qty, mark)) else qty
  }

  function ToDecimals(unit: SizeUnit, x: real): real {
    if unit == Usdt then ToFixed2(x) else ToFixed6(x)
  }

  /** A number printed with the decimals of a unit and parsed back; the sign does not change the rounding. */
  function Printed(unit: SizeUnit, x: real): real {
    if x < 0.0 then -ToDecimals(unit, -x) else ToDecimals(unit, x)
  }

  /** The typed quantity after a change of unit. */
  function Converted(newUnit: SizeUnit, qty: real, mark: real): real {
    Printed(newUnit, Rescaled(newUnit, qty, mark))
  }

  lemma PrintedZero(unit: SizeUnit)
    ensures Printed(unit, 0.0) == 0.0
  {
    assert 0.5.Floor == 0;
  }

  // ---------------------------------------------------------------- the cap

  /** Whether both legs can put up their margin for a notional. A spot leg pays in full. */
  ghost predicate Fundable(kind: PairKind, longAvail: real, shortAvail: real, leverage: real, n: real)
    requires leverage > 0.0
  {
    n / leverage <= shortAvail &&
    match kind
    case LongShort => n / leverage <= longAvail
    case SpotShort => n <= longAvail
  }

  /** The cap is exact: both legs can fund a notional if and only if it does not exceed the cap. */
  lemma CapIsExact(kind: PairKind, longAvail: real, shortAvail: real, leverage: real, n: real)
    requires leverage > 0.0
    ensures Fundable(kind, longAvail, shortAvail, leverage, n)
       <==> n <= MaxNotionalUsd(kind, longAvail, shortAvail, leverage)
  {
    MarginFits(n, shortAvail, leverage);
    MarginFits(n, longAvail, leverage);
  }

  lemma MarginFits(n: real, avail: real, leverage: real)
    requires leverage > 0.0
    ensures n / leverage <= avail <==> n <= avail * leverage
  {
    ProductOrder(n / leverage, n, leverage, avail);
  }

  // ---------------------------------------------------------------- reading a quantity back

  /** The slider's position is the percentage of the cap that the quantity is worth, to the nearest percent, between the
      ends of the slider. */
  lemma PositionReads(unit: SizeUnit, mark: real, cap: real, qty: real)
    requires cap > 0.0
    ensures var pos, worth := PercentOfQty(unit, mark, cap, qty), InputNotionalUsd(unit, qty, mark);
            && 0 <= pos <= 100
            && (pos > 0 ==> (pos as real - 0.5) * cap <= 100.0 * worth)
            && (pos < 100 ==> 100.0 * worth < (pos as real + 0.5) * cap)
  {
    hide InputNotionalUsd, Percent;
    var worth := InputNotionalUsd(unit, qty, mark);
    var z, pos := Percent(worth, cap), PercentOfQty(unit, mark, cap, qty);
    PercentTimes(worth, cap);
    ProductOrder(z, worth * 100.0, cap, pos as real - 0.5);
    ProductOrder(z, worth * 100.0, cap, pos as real + 0.5);
  }

  /** Without a price the slider writes no tokens. */
  lemma NoTokensWithoutPrice(usd: real, mark: real)
    requires mark <= 0.0
    ensures UsdToInputValue(Token, usd, mark) == 0.0
  {
  }

  /** What a quantity is worth in either unit. */
  lemma WorthReads(qty: real, mark: real)
    ensures InputNotionalUsd(Usdt, qty, mark) == qty
    ensures InputNotionalUsd(Token, qty, mark) == if mark > 0.0 then qty * mark else 0.0
  {
  }

  // ---------------------------------------------------------------- rounding

  /** What one step of the last decimal is worth in USDT. */
  function Grain(unit: SizeUnit, mark: real): real {
    match unit
    case Usdt => 0.01
    case Token => mark / 1000000.0
  }

  /** Whether quantities in a unit have a worth: tokens need a price, and there is none before the first quote. */
  predicate Priced(unit: SizeUnit, mark: real) {
    unit == Usdt || mark > 0.0
  }

  lemma GrainPositive(unit: SizeUnit, mark: real)
    ensures Grain(unit, mark) > 0.0 <==> Priced(unit, mark)
  {
  }

  /** What a number of grains is worth. */
  function Worth(n: real, g: real): real {
    n * g
  }

  function InGrains(usd: real, g: real): real
    requires g > 0.0
  {
    usd / g
  }

  lemma InGrainsTimes(usd: real, g: real)
    requires g > 0.0
    ensures InGrains(usd, g) * g == usd && Worth(InGrains(usd, g), g) == usd
  {
  }

  lemma WorthOrder(x: real, a: real, g: real)
    requires g > 0.0
    ensures x <= a <==> Worth(x, g) <= Worth(a, g)
    ensures x < a <==> Worth(x, g) < Worth(a, g)
    ensures Worth(a - 0.5, g) == Worth(a, g) - 0.5 * g && Worth(a + 0.5, g) == Worth(a, g) + 0.5 * g
  {
    ProductOrder(x, x * g, g, a);
  }

  /** The notional that the slider's quantity stands for is the exact share rounded to whole grains;
      without a price it is nothing at all. */
  lemma NotionalInGrains(unit: SizeUnit, mark: real, usd: real)
    ensures Grain(unit, mark) > 0.0 <==> Priced(unit, mark)
    ensures InputNotionalUsd(unit, UsdToInputValue(unit, usd, mark), mark) ==
            if Grain(unit, mark) > 0.0
            then Worth(Round(InGrains(usd, Grain(unit, mark))) as real, Grain(unit, mark))
            else 0.0
  {
    GrainPositive(unit, mark);
    if unit == Token && mark > 0.0 { TokenGrains(mark, usd); }
  }

  lemma TokenGrains(mark: real, usd: real)
    requires mark > 0.0
    ensures Notional(ToFixed6(Buys(usd, mark)), mark) ==
            Worth(Round(InGrains(usd, mark / 1000000.0)) as real, mark / 1000000.0)
  {
    var x, g := usd / mark, mark / 1000000.0;
    assert x * mark == usd;
    InGrainsTimes(usd, g);
    assert (x * 1000000.0) * g == x * mark;
    SameFactor(InGrains(usd, g), x * 1000000.0, g);
    var n := Round(x * 1000000.0) as real;
    assert (n / 1000000.0) * mark == n * g;
  }

  /** Rounding to whole grains misses by at most half a grain, and upwards only. */
  lemma HalfGrain(usd: real, g: real)
    requires g > 0.0
    ensures -0.5 * g < Worth(Round(InGrains(usd, g)) as real, g) - usd <= 0.5 * g
    ensures Worth(Round(InGrains(usd, g)) as real, g) <= usd
       <==> InGrains(usd, g) - InGrains(usd, g).Floor as real < 0.5
  {
    hide InGrains, Worth;
    InGrainsTimes(usd, g);
    RoundDown(InGrains(usd, g));
    NearestWorth(InGrains(usd, g), Round(InGrains(usd, g)) as real, g);
  }

  lemma RoundDown(x: real)
    ensures Round(x) as real <= x <==> x - x.Floor as real < 0.5
  {
    var f := x.Floor;
    if x - f as real < 0.5 {
      assert Round(x) == f;
    } else {
      assert Round(x) == f + 1;
    }
  }

  lemma NearestWorth(x: real, n: real, g: real)
    requires g > 0.0 && n - 0.5 <= x < n + 0.5
    ensures -0.5 * g < Worth(n, g) - Worth(x, g) <= 0.5 * g
    ensures Worth(n, g) <= Worth(x, g) <==> n <= x
  {
    hide Worth;
    WorthOrder(x, n, g);
    WorthOrder(n, x, g);
    WorthOrder(n - 0.5, x, g);
    WorthOrder(x, n + 0.5, g);
  }

  /** The slider's notional misses its exact share by at most half a grain, 0.005 USDT in USDT mode, exactly when
      the unit is priced; otherwise the slider orders nothing. */
  lemma NotionalNearShare(unit: SizeUnit, mark: real, cap: real, pct: int)
    ensures var notional := InputNotionalUsd(unit, QtyOfPercent(unit, mark, cap, pct), mark);
            && (-0.5 * Grain(unit, mark) < notional - Share(cap, pct) <= 0.5 * Grain(unit, mark) <==>
                Priced(unit, mark))
            && (!Priced(unit, mark) ==> notional == 0.0)
  {
    hide Share, InputNotionalUsd, UsdToInputValue, Worth, InGrains, Grain;
    NotionalInGrains(unit, mark, Share(cap, pct));
    if Priced(unit, mark) { HalfGrain(Share(cap, pct), Grain(unit, mark)); }
  }

  /** At 100 % the order stays within the cap exactly when the cap's fraction of a grain is below one half;
      without a price nothing is ordered. */
  lemma FullSliderWithinCapIff(unit: SizeUnit, mark: real, cap: real)
    ensures var g := Grain(unit, mark);
            InputNotionalUsd(unit, QtyOfPercent(unit, mark, cap, 100), mark) <= cap <==>
            if g > 0.0 then InGrains(cap, g) - InGrains(cap, g).Floor as real < 0.5 else cap >= 0.0
  {
    hide InputNotionalUsd, UsdToInputValue, Grain, Worth;
    assert Share(cap, 100) == cap;
    NotionalInGrains(unit, mark, cap);
    if Grain(unit, mark) > 0.0 { HalfGrain(cap, Grain(unit, mark)); }
  }

  // ---------------------------------------------------------------- slider, input, slider

  /** The round trip in whole grains: `x` is the cap counted in grains. */
  function GrainsAt(x: real, pct: int): int {
    Round(Share(x, pct))
  }

  function PercentBack(x: real, n: int): int
    requires x > 0.0
  {
    Clamp(Round(Percent(n as real, x)))
  }

  lemma RoundTripInGrains(unit: SizeUnit, mark: real, cap: real, pct: int)
    requires cap > 0.0 && Priced(unit, mark)
    ensures Grain(unit, mark) > 0.0 && InGrains(cap, Grain(unit, mark)) > 0.0
    ensures PercentOfQty(unit, mark, cap, QtyOfPercent(unit, mark, cap, pct)) ==
            PercentBack(InGrains(cap, Grain(unit, mark)), GrainsAt(InGrains(cap, Grain(unit, mark)), pct))
  {
    hide Share, Percent, InGrains, InputNotionalUsd, UsdToInputValue, Grain, Worth;
    var g := Grain(unit, mark);
    NotionalInGrains(unit, mark, Share(cap, pct));
    GrainScale(cap, g, pct);
    PercentScale(Round(InGrains(Share(cap, pct), g)) as real, cap, g);
  }

  lemma GrainScale(cap: real, g: real, pct: int)
    requires g > 0.0 && cap > 0.0
    ensures InGrains(cap, g) > 0.0
    ensures InGrains(Share(cap, pct), g) == Share(InGrains(cap, g), pct)
  {
    var x, f, y := InGrains(cap, g), pct as real / 100.0, InGrains(Share(cap, pct), g);
    InGrainsTimes(cap, g);
    InGrainsTimes(Share(cap, pct), g);
    ProductOrder(x, cap, g, 0.0);
    assert (x * f) * g == (x * g) * f;
    SameFactor(y, x * f, g);
  }

  lemma PercentScale(n: real, cap: real, g: real)
    requires g > 0.0 && cap > 0.0
    ensures InGrains(cap, g) > 0.0
    ensures Percent(Worth(n, g), cap) == Percent(n, InGrains(cap, g))
  {
    var x := InGrains(cap, g);
    InGrainsTimes(cap, g);
    ProductOrder(x, cap, g, 0.0);
    var y, z := (n * g) / cap, n / x;
    assert y * cap == n * g && z * x == n;
    assert z * cap == (z * x) * g;
    SameFactor(y, z, cap);
  }

  /** A cap of at least 99.5 grains survives the trip at every percent. */
  lemma TripReturns(x: real, pct: int)
    requires x >= 99.5 && 0 <= pct <= 100
    ensures PercentBack(x, GrainsAt(x, pct)) == pct
  {
    hide Share, Percent;
    var p, n := pct as real, GrainsAt(x, pct);
    ShareTimes(x, pct);
    PercentTimes(n as real, x);
    if x > 100.0 {
      FineGrains(x, p, n as real, Share(x, pct), Percent(n as real, x));
    } else {
      CoarseGrains(x, p, n as real, Share(x, pct));
      NearestIs(n, pct, Share(x, pct));
      CoarseBack(x, p, Percent(n as real, x));
    }
  }

  lemma NearestIs(n: int, p: int, y: real)
    requires n as real - 0.5 <= y < n as real + 0.5
    requires p as real - 0.5 <= y <= p as real
    ensures n == p
  {
  }

  lemma ShareTimes(x: real, pct: int)
    ensures Share(x, pct) * 100.0 == pct as real * x
  {
  }

  lemma PercentTimes(n: real, x: real)
    requires x > 0.0
    ensures Percent(n, x) * x == n * 100.0
  {
    var y := n / x;
    assert y * x == n;
  }

  /** More than 100 grains: half a grain is less than half a percent. */
  lemma FineGrains(x: real, p: real, n: real, y: real, z: real)
    requires x > 100.0 && z * x == n * 100.0 && y * 100.0 == p * x
    requires n - 0.5 <= y < n + 0.5
    ensures p - 0.5 < z < p + 0.5
  {
    ProductOrder(z, n * 100.0, x, p + 0.5);
    ProductOrder(z, n * 100.0, x, p - 0.5);
    assert (p + 0.5) * x == p * x + 0.5 * x;
    assert (p - 0.5) * x == p * x - 0.5 * x;
  }

  /** Between 99.5 and 100 grains: every percent is shown as that many grains. */
  lemma CoarseGrains(x: real, p: real, n: real, y: real)
    requires 99.5 <= x <= 100.0 && 0.0 <= p <= 100.0 && y * 100.0 == p * x
    ensures p - 0.5 <= y <= p
  {
    MulMono(x, 100.0, p);
    MulMono(99.5, x, p);
    assert x * p == p * x;
  }

  lemma CoarseBack(x: real, p: real, z: real)
    requires 99.5 <= x <= 100.0 && 0.0 <= p <= 100.0 && z * x == p * 100.0
    ensures z >= p
    ensures p <= 99.0 ==> z < p + 0.5
  {
    var target := p * 100.0;
    assert p * x <= target by { MulMono(x, 100.0, p); }
    ProductOrder(z, target, x, p);
    CoarseBound(x, p);
    ProductOrder(z, target, x, p + 0.5);
  }

  lemma CoarseBound(x: real, p: real)
    requires 99.5 <= x <= 100.0 && 0.0 <= p
    ensures p <= 99.0 ==> p * 100.0 < (p + 0.5) * x
  {
    MulMono(100.0 - x, 0.5, p);
    assert (100.0 - x) * p == 100.0 * p - p * x;
    assert (p + 0.5) * x == p * x + 0.5 * x;
  }

  /** Moving the slider up never shows less. */
  lemma GrainsGrow(x: real, pct: int)
    requires x > 0.0
    ensures GrainsAt(x, pct) <= GrainsAt(x, pct + 1)
  {
    hide Share;
    ShareTimes(x, pct);
    ShareTimes(x, pct + 1);
    MulMono(pct as real, (pct + 1) as real, x);
  }

  /** If the trip returned at every percent up to `pct`, all of them would show different quantities. */
  lemma {:induction false} DistinctGrains(x: real, pct: nat)
    requires x > 0.0 && pct <= 100
    requires forall q :: 0 <= q <= pct ==> PercentBack(x, GrainsAt(x, q)) == q
    ensures GrainsAt(x, pct) >= pct
  {
    if pct == 0 {
      assert GrainsAt(x, 0) == 0;
    } else {
      DistinctGrains(x, pct - 1);
      GrainsGrow(x, pct - 1);
      assert PercentBack(x, GrainsAt(x, pct - 1)) == pct - 1;
    }
  }

  /** The slider's position after it was moved to `pct` and the input was then read back. Without a cap the input
      stays as it was and so does the slider. */
  function SliderTrip(unit: SizeUnit, mark: real, cap: real, pct: int): int {
    if cap > 0.0 then PercentOfQty(unit, mark, cap, QtyOfPercent(unit, mark, cap, pct)) else pct
  }

  /** Slider to input to slider returns the same percent at every position if and only if there is no cap, or the
      unit is priced and the cap is worth at least 99.5 steps of the input's last decimal: 0.995 USDT, or mark times
      0.0000995 in tokens. */
  lemma SliderRoundTripIff(unit: SizeUnit, mark: real, cap: real)
    ensures (forall pct :: 0 <= pct <= 100 ==> SliderTrip(unit, mark, cap, pct) == pct)
       <==> cap <= 0.0 || (Priced(unit, mark) && cap >= 99.5 * Grain(unit, mark))
  {
    hide PercentOfQty, QtyOfPercent, Grain;
    if cap > 0.0 && Priced(unit, mark) {
      PricedTripIff(unit, mark, cap);
    } else if cap > 0.0 {
      UnpricedTrip(unit, mark, cap, 1);
      assert SliderTrip(unit, mark, cap, 1) != 1;
    }
  }

  /** The same threshold in money: 99.5 cents, or 99.5 millionths of a token. */
  lemma SliderRoundTripThreshold(unit: SizeUnit, mark: real, cap: real)
    ensures (forall pct :: 0 <= pct <= 100 ==> SliderTrip(unit, mark, cap, pct) == pct)
       <==> match unit
            case Usdt => cap <= 0.0 || cap >= 0.995
            case Token => cap <= 0.0 || (mark > 0.0 && 1000000.0 * cap >= 99.5 * mark)
  {
    hide SliderTrip;
    SliderRoundTripIff(unit, mark, cap);
  }

  /** Before the first quote the input reads zero tokens, and so does the slider. */
  lemma UnpricedTrip(unit: SizeUnit, mark: real, cap: real, pct: int)
    requires cap > 0.0 && !Priced(unit, mark)
    ensures PercentOfQty(unit, mark, cap, QtyOfPercent(unit, mark, cap, pct)) == 0
  {
    assert InputNotionalUsd(unit, QtyOfPercent(unit, mark, cap, pct), mark) == 0.0;
    assert 0.0 / cap == 0.0;
  }

  lemma PricedTripIff(unit: SizeUnit, mark: real, cap: real)
    requires cap > 0.0 && Priced(unit, mark)
    ensures (forall pct :: 0 <= pct <= 100 ==> SliderTrip(unit, mark, cap, pct) == pct)
       <==> cap >= 99.5 * Grain(unit, mark)
  {
    hide PercentOfQty, QtyOfPercent, PercentBack, GrainsAt, InGrains, Grain;
    RoundTripInGrains(unit, mark, cap, 0);
    var g := Grain(unit, mark);
    var x := InGrains(cap, g);
    CapInGrains(cap, g);
    forall pct
      ensures SliderTrip(unit, mark, cap, pct) == PercentBack(x, GrainsAt(x, pct))
      ensures x >= 99.5 && 0 <= pct <= 100 ==> PercentBack(x, GrainsAt(x, pct)) == pct
    {
      RoundTripInGrains(unit, mark, cap, pct);
      if x >= 99.5 && 0 <= pct <= 100 { TripReturns(x, pct); }
    }
    if forall pct :: 0 <= pct <= 100 ==> PercentBack(x, GrainsAt(x, pct)) == pct {
      DistinctGrains(x, 100);
      TopGrains(x);
    }
  }

  lemma CapInGrains(cap: real, g: real)
    requires g > 0.0
    ensures InGrains(cap, g) >= 99.5 <==> cap >= 99.5 * g
  {
    InGrainsTimes(cap, g);
    ProductOrder(InGrains(cap, g), cap, g, 99.5);
  }

  lemma TopGrains(x: real)
    ensures GrainsAt(x, 100) >= 100 ==> x >= 99.5
  {
    assert x * (100.0 / 100.0) == x;
  }

  /** What the last decimal of a unit counts. */
  function Decimals(unit: SizeUnit): real {
    match unit
    case Usdt => 0.01
    case Token => 0.000001
  }

  /** A printed number is a whole number of hundredths or millionths. */
  lemma PrintedWhole(unit: SizeUnit, x: real) returns (n: int)
    ensures Printed(unit, x) * (if unit == Usdt then 100.0 else 1000000.0) == n as real
  {
    var scale := if unit == Usdt then 100.0 else 1000000.0;
    n := if x < 0.0 then -Round(-x * scale) else Round(x * scale);
    assert Printed(unit, x) * scale == n as real;
  }

  lemma PrintedNear(unit: SizeUnit, x: real)
    ensures -0.5 * Decimals(unit) <= Printed(unit, x) - x <= 0.5 * Decimals(unit)
  {
  }

  /** Switching units with a price keeps the worth of a positive quantity to within half a grain of the new unit.
      Otherwise the number itself stands, to the new unit's decimals, whatever it was worth: before the first quote
      100 tokens become 100 USDT. */
  lemma UnitSwitchKeepsNotional(newUnit: SizeUnit, qty: real, mark: real)
    ensures var oldUnit := if newUnit == Usdt then Token else Usdt;
            var before := InputNotionalUsd(oldUnit, qty, mark);
            var qty' := Converted(newUnit, qty, mark);
            var after := InputNotionalUsd(newUnit, qty', mark);
            if mark > 0.0 && qty > 0.0 then
              -0.5 * Grain(newUnit, mark) < after - before <= 0.5 * Grain(newUnit, mark)
            else
              && -0.5 * Decimals(newUnit) <= qty' - qty <= 0.5 * Decimals(newUnit)
              && (mark <= 0.0 ==> before == (if newUnit == Usdt then 0.0 else qty))
              && (mark <= 0.0 ==> after == (if newUnit == Usdt then qty' else 0.0))
  {
    if mark > 0.0 && qty > 0.0 {
      PricedSwitch(newUnit, qty, mark);
    } else {
      hide Printed;
      PrintedNear(newUnit, qty);
    }
  }

  lemma PricedSwitch(newUnit: SizeUnit, qty: real, mark: real)
    requires mark > 0.0 && qty > 0.0
    ensures var oldUnit := if newUnit == Usdt then Token else Usdt;
            var before := InputNotionalUsd(oldUnit, qty, mark);
            var after := InputNotionalUsd(newUnit, Converted(newUnit, qty, mark), mark);
            -0.5 * Grain(newUnit, mark) < after - before <= 0.5 * Grain(newUnit, mark)
  {
    hide Notional, Buys, ToFixed2, ToFixed6, Worth, InGrains;
    var before := if newUnit == Usdt then Notional(qty, mark) else qty;
    RescaledPositive(qty, mark);
    assert Converted(newUnit, qty, mark) == UsdToInputValue(newUnit, before, mark);
    NotionalInGrains(newUnit, mark, before);
    HalfGrain(before, Grain(newUnit, mark));
  }

  lemma RescaledPositive(qty: real, mark: real)
    requires mark > 0.0 && qty > 0.0
    ensures Notional(qty, mark) > 0.0 && Buys(qty, mark) > 0.0
  {
    MulStrict(0.0, qty, mark);
    var x := qty / mark;
    assert x * mark == qty;
    ProductOrder(x, qty, mark, 0.0);
  }
}
