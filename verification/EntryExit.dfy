/** Entry and exit divergence of a long/short pair, sampled from the two venues' books. */
module EntryExit {
  import opened Options
  import opened OrderBookFill
  import opened RealOrder
  import opened FillLaws

  datatype Book = Book(asks: seq<Level>, bids: seq<Level>)
  datatype Sample = Sample(ts: real, inPct: real, outPct: real)

  const HISTORY_LIMIT := 2000
  const WINDOW_S := 1300.0
  const DUPLICATE_S := 0.02

  /** Both sides quoted; nothing is assumed about their order, or about the two sides together. */
  ghost predicate Quoted(b: Book) {
    NonNegative(b.asks) && NonNegative(b.bids) && b.asks != [] && b.bids != []
  }

  /** A live venue book: priced, best price first, and best ask above best bid. */
  ghost predicate Tradable(b: Book) {
    && Positive(b.asks) && Positive(b.bids)
    && b.asks != [] && b.bids != []
    && Ascending(b.asks) && Descending(b.bids)
    && b.bids[0].price < b.asks[0].price
  }

  ghost function AskAt(b: Book, size: real, unit: SizeUnit): real
    requires Quoted(b)
  {
    MeanPrice(b.asks, size, unit)
  }

  ghost function BidAt(b: Book, size: real, unit: SizeUnit): real
    requires Quoted(b)
  {
    MeanPrice(b.bids, size, unit)
  }

  /** A gain relative to the mean of the two asks, in percent. */
  function PctOf(gain: real, askL: real, askS: real): real
    requires askL + askS != 0.0
  {
    gain / ((askL + askS) / 2.0) * 100.0
  }

  /** All four mean prices exist and none is zero. */
  ghost predicate Priced(long: Book, short: Book, size: real, unit: SizeUnit) {
    && Quoted(long) && Quoted(short)
    && AskAt(long, size, unit) > 0.0 && BidAt(long, size, unit) > 0.0
    && AskAt(short, size, unit) > 0.0 && BidAt(short, size, unit) > 0.0
  }

  /** Buy the long leg, sell the short leg. */
  ghost function InPct(long: Book, short: Book, size: real, unit: SizeUnit): real
    requires Priced(long, short, size, unit)
  {
    PctOf(BidAt(short, size, unit) - AskAt(long, size, unit), AskAt(long, size, unit), AskAt(short, size, unit))
  }

  /** Sell the long leg, buy the short leg back. */
  ghost function OutPct(long: Book, short: Book, size: real, unit: SizeUnit): real
    requires Priced(long, short, size, unit)
  {
    PctOf(BidAt(long, size, unit) - AskAt(short, size, unit), AskAt(long, size, unit), AskAt(short, size, unit))
  }

  /** Both percentages are the gain per two hundredths of the sum of the asks. */
  lemma PercentagesRead(long: Book, short: Book, size: real, unit: SizeUnit)
    requires Priced(long, short, size, unit)
    ensures var asks := AskAt(long, size, unit) + AskAt(short, size, unit);
            && InPct(long, short, size, unit) * asks == 200.0 * (BidAt(short, size, unit) - AskAt(long, size, unit))
            && OutPct(long, short, size, unit) * asks == 200.0 * (BidAt(long, size, unit) - AskAt(short, size, unit))
  {
    hide MeanPrice;
    PctScale(BidAt(short, size, unit) - AskAt(long, size, unit), AskAt(long, size, unit), AskAt(short, size, unit));
    PctScale(BidAt(long, size, unit) - AskAt(short, size, unit), AskAt(long, size, unit), AskAt(short, size, unit));
  }

  /** Any order on a live book pays more per token than it would receive, and receives something. */
  lemma AsksAboveBids(b: Book, size: real, unit: SizeUnit)
    requires Tradable(b)
    ensures AskAt(b, size, unit) > BidAt(b, size, unit) > 0.0
  {
    AskMeanBetween(b.asks, size, unit);
    BidMeanBetween(b.bids, size, unit);
    TouchedIsPositive(b.bids, Filled(b.bids, size, unit));
  }

  lemma LiveIsPriced(long: Book, short: Book, size: real, unit: SizeUnit)
    requires Tradable(long) && Tradable(short)
    ensures Priced(long, short, size, unit)
  {
    AsksAboveBids(long, size, unit);
    AsksAboveBids(short, size, unit);
  }

  lemma MeanNotNegative(levels: seq<Level>, size: real, unit: SizeUnit)
    requires NonNegative(levels) && levels != []
    ensures MeanPrice(levels, size, unit) >= 0.0
  {
    hide Notional, PerToken;
    var f := Filled(levels, size, unit);
    FilledBounds(levels, size, unit);
    assert levels[0] in levels;
    if f > 0.0 {
      MarginalCost(levels, 0.0, f, 0.0);
      NoTokensNoCost(levels);
      NotionalAtZero(f);
      NonNegativeQuotient(TokenCost(levels, f), f);
    }
  }

  lemma NotionalAtZero(qty: real)
    ensures Notional(qty, 0.0) == 0.0
  {
  }

  lemma NonNegativeQuotient(c: real, f: real)
    requires c >= 0.0 && f > 0.0
    ensures PerToken(c, f) >= 0.0
  {
    var x := c / f;
    assert x * f == c;
    if x < 0.0 { MulStrict(x, 0.0, f); }
  }

  lemma {:induction false} TouchedIsPositive(levels: seq<Level>, size: real)
    requires Positive(levels) && levels != []
    ensures LastTouched(levels, size) > 0.0
  {
    assert levels[0] in levels;
    if |levels| > 1 && size > levels[0].qty {
      TouchedIsPositive(levels[1..], size - levels[0].qty);
    }
  }

  // ---------------------------------------------------------------- round-trip results

  /** Entry plus exit is the realistic round trip, and it always loses money. */
  lemma RoundTrip(long: Book, short: Book, size: real, unit: SizeUnit)
    requires Tradable(long) && Tradable(short)
    ensures Priced(long, short, size, unit)
    ensures var asks := AskAt(long, size, unit) + AskAt(short, size, unit);
            var bids := BidAt(long, size, unit) + BidAt(short, size, unit);
            asks > bids > 0.0
            && InPct(long, short, size, unit) + OutPct(long, short, size, unit) == 200.0 * (bids / asks - 1.0) < 0.0
  {
    hide MeanPrice;
    AsksAboveBids(long, size, unit);
    AsksAboveBids(short, size, unit);
    SumOfLegs(BidAt(long, size, unit), BidAt(short, size, unit), AskAt(long, size, unit), AskAt(short, size, unit));
  }

  lemma SumOfLegs(bidL: real, bidS: real, askL: real, askS: real)
    requires askL + askS > bidL + bidS > 0.0
    ensures PctOf(bidS - askL, askL, askS) + PctOf(bidL - askS, askL, askS)
         == 200.0 * ((bidL + bidS) / (askL + askS) - 1.0) < 0.0
  {
    hide PctOf;
    var asks, bids := askL + askS, bidL + bidS;
    PctScale(bidS - askL, askL, askS);
    PctScale(bidL - askS, askL, askS);
    SumOfScaled(PctOf(bidS - askL, askL, askS), PctOf(bidL - askS, askL, askS), bidS - askL, bidL - askS, asks);
    RatioLoss(bids, asks);
    SameFactor(PctOf(bidS - askL, askL, askS) + PctOf(bidL - askS, askL, askS), 200.0 * (bids / asks - 1.0), asks);
  }

  lemma SumOfScaled(a: real, b: real, g: real, h: real, k: real)
    requires a * k == 200.0 * g && b * k == 200.0 * h
    ensures (a + b) * k == 200.0 * (g + h)
  {
    assert (a + b) * k == a * k + b * k;
  }

  lemma RatioLoss(bids: real, asks: real)
    requires asks > bids > 0.0
    ensures (200.0 * (bids / asks - 1.0)) * asks == 200.0 * (bids - asks)
    ensures bids / asks < 1.0
  {
    var r := bids / asks;
    assert r * asks == bids;
    if r >= 1.0 { MulMono(1.0, r, asks); }
    var c := 200.0 * (r - 1.0);
    assert c * asks == 200.0 * (r * asks) - 200.0 * asks;
  }

  lemma PctScale(gain: real, askL: real, askS: real)
    requires askL + askS > 0.0
    ensures PctOf(gain, askL, askS) * (askL + askS) == 200.0 * gain
  {
    var half := (askL + askS) / 2.0;
    var x := gain / half;
    assert x * half == gain;
  }

  /** Raising both asks or lowering the gain cannot raise a non-negative percentage. */
  lemma PctFalls(gain1: real, askL1: real, askS1: real, gain2: real, askL2: real, askS2: real)
    requires 0.0 < askL1 + askS1 <= askL2 + askS2
    requires gain1 >= gain2 && gain1 >= 0.0
    ensures PctOf(gain1, askL1, askS1) >= PctOf(gain2, askL2, askS2)
  {
    var a1, a2 := askL1 + askS1, askL2 + askS2;
    var x1, x2 := PctOf(gain1, askL1, askS1), PctOf(gain2, askL2, askS2);
    PctScale(gain1, askL1, askS1);
    PctScale(gain2, askL2, askS2);
    ScaledOrder(x1, a1, x2, a2);
  }

  lemma ScaledOrder(x1: real, a1: real, x2: real, a2: real)
    requires 0.0 < a1 <= a2 && x1 * a1 >= x2 * a2 && x1 * a1 >= 0.0
    ensures x1 >= x2
  {
    if x1 < 0.0 { MulStrict(x1, 0.0, a1); }
    MulMono(a1, a2, x1);
    assert x1 * a1 == a1 * x1 && x1 * a2 == a2 * x1;
    if x1 < x2 { MulStrict(x1, x2, a2); }
  }

  /** The round trip never improves with size. */
  lemma RoundTripAntitone(long: Book, short: Book, s1: real, s2: real, unit: SizeUnit)
    requires Tradable(long) && Tradable(short) && s1 <= s2
    ensures Priced(long, short, s1, unit) && Priced(long, short, s2, unit)
    ensures InPct(long, short, s1, unit) + OutPct(long, short, s1, unit)
         >= InPct(long, short, s2, unit) + OutPct(long, short, s2, unit)
  {
    hide MeanPrice, PctOf;
    RoundTrip(long, short, s1, unit);
    RoundTrip(long, short, s2, unit);
    SidesMove(long, s1, s2, unit);
    SidesMove(short, s1, s2, unit);
    var asks1, asks2 := AskAt(long, s1, unit) + AskAt(short, s1, unit), AskAt(long, s2, unit) + AskAt(short, s2, unit);
    var bids1, bids2 := BidAt(long, s1, unit) + BidAt(short, s1, unit), BidAt(long, s2, unit) + BidAt(short, s2, unit);
    RatioFalls(bids1, asks1, bids2, asks2);
  }

  lemma RatioFalls(b1: real, a1: real, b2: real, a2: real)
    requires 0.0 < a1 <= a2 && b1 >= b2 && b1 >= 0.0
    ensures b1 / a1 >= b2 / a2
  {
    var x1, x2 := b1 / a1, b2 / a2;
    assert x1 * a1 == b1 && x2 * a2 == b2;
    ScaledOrder(x1, a1, x2, a2);
  }

  /** Growing the order raises what is paid and lowers what is received, on either venue. */
  lemma SidesMove(b: Book, s1: real, s2: real, unit: SizeUnit)
    requires Tradable(b) && s1 <= s2
    ensures AskAt(b, s1, unit) <= AskAt(b, s2, unit)
    ensures BidAt(b, s1, unit) >= BidAt(b, s2, unit)
  {
    AskMeanMonotone(b.asks, s1, s2, unit);
    BidMeanAntitone(b.bids, s1, s2, unit);
  }

  /** Entry alone never improves from a size at which it is not a loss. */
  lemma InPctAntitone(long: Book, short: Book, s1: real, s2: real, unit: SizeUnit)
    requires Tradable(long) && Tradable(short) && s1 <= s2
    requires AskAt(long, s1, unit) <= BidAt(short, s1, unit)
    ensures Priced(long, short, s1, unit) && Priced(long, short, s2, unit)
    ensures InPct(long, short, s1, unit) >= InPct(long, short, s2, unit)
  {
    hide MeanPrice, PctOf;
    LiveIsPriced(long, short, s1, unit);
    LiveIsPriced(long, short, s2, unit);
    SidesMove(long, s1, s2, unit);
    SidesMove(short, s1, s2, unit);
    AsksAboveBids(long, s1, unit);
    AsksAboveBids(short, s1, unit);
    PctFalls(BidAt(short, s1, unit) - AskAt(long, s1, unit), AskAt(long, s1, unit), AskAt(short, s1, unit),
             BidAt(short, s2, unit) - AskAt(long, s2, unit), AskAt(long, s2, unit), AskAt(short, s2, unit));
  }

  /** Exit alone never improves from a size at which it is not a loss. */
  lemma OutPctAntitone(long: Book, short: Book, s1: real, s2: real, unit: SizeUnit)
    requires Tradable(long) && Tradable(short) && s1 <= s2
    requires AskAt(short, s1, unit) <= BidAt(long, s1, unit)
    ensures Priced(long, short, s1, unit) && Priced(long, short, s2, unit)
    ensures OutPct(long, short, s1, unit) >= OutPct(long, short, s2, unit)
  {
    hide MeanPrice, PctOf;
    LiveIsPriced(long, short, s1, unit);
    LiveIsPriced(long, short, s2, unit);
    SidesMove(long, s1, s2, unit);
    SidesMove(short, s1, s2, unit);
    AsksAboveBids(long, s1, unit);
    AsksAboveBids(short, s1, unit);
    PctFalls(BidAt(long, s1, unit) - AskAt(short, s1, unit), AskAt(long, s1, unit), AskAt(short, s1, unit),
             BidAt(long, s2, unit) - AskAt(short, s2, unit), AskAt(long, s2, unit), AskAt(short, s2, unit));
  }

  /** The threshold is sharp: for any quotes at which entry is a loss, at any size in either unit, there are books
      with those quotes on which a larger order shows a better entry, because the reference price moves too. */
  lemma LosingEntryCanImprove(askL: real, bidS: real, askS: real, s1: real, unit: SizeUnit)
    returns (long: Book, short: Book, s2: real)
    requires 0.0 < bidS < askL && bidS < askS
    ensures Tradable(long) && Tradable(short) && s1 < s2
    ensures Priced(long, short, s1, unit) && Priced(long, short, s2, unit)
    ensures AskAt(long, s1, unit) == askL && BidAt(short, s1, unit) == bidS && AskAt(short, s1, unit) == askS
    ensures InPct(long, short, s1, unit) < InPct(long, short, s2, unit) < 0.0
  {
    var q;
    q, s2 := SteppedSide(askS, s1, unit);
    long := Book([Level(askL, 1.0)], [Level(askL / 2.0, 1.0)]);
    short := Book([Level(askS, q), Level(2.0 * askS, q)], [Level(bidS, 1.0)]);
    FlatSide(askL, s1, unit);
    FlatSide(askL, s2, unit);
    FlatSide(bidS, s1, unit);
    FlatSide(bidS, s2, unit);
    assert Tradable(long) && Tradable(short);
    hide MeanPrice, PctOf, Tradable;
    LiveIsPriced(long, short, s1, unit);
    LiveIsPriced(long, short, s2, unit);
    LossOverLargerReference(bidS - askL, askL, askS);
  }

  /** A larger order shows no better entry. */
  ghost predicate EntryNoBetter(long: Book, short: Book, s1: real, s2: real, unit: SizeUnit) {
    && Priced(long, short, s1, unit) && Priced(long, short, s2, unit)
    && InPct(long, short, s1, unit) >= InPct(long, short, s2, unit)
  }

  /** Live books that quote these prices for an order. */
  ghost predicate Quotes(long: Book, short: Book, s: real, unit: SizeUnit, askL: real, bidS: real, askS: real) {
    && Tradable(long) && Tradable(short)
    && AskAt(long, s, unit) == askL && BidAt(short, s, unit) == bidS && AskAt(short, s, unit) == askS
  }

  /** Quotes rule out a better entry for any larger order, on all books that give them, if and only if entry is not a
      loss at them. */
  lemma EntryNeverImprovesIff(askL: real, bidS: real, askS: real, s1: real, unit: SizeUnit)
    requires askL > 0.0 && 0.0 < bidS < askS
    ensures (forall long, short, s2 :: Quotes(long, short, s1, unit, askL, bidS, askS) && s1 <= s2
                                       ==> EntryNoBetter(long, short, s1, s2, unit))
       <==> askL <= bidS
  {
    hide Tradable, MeanPrice, Priced, PctOf;
    if askL <= bidS {
      forall long, short, s2 | Quotes(long, short, s1, unit, askL, bidS, askS) && s1 <= s2
        ensures EntryNoBetter(long, short, s1, s2, unit)
      {
        InPctAntitone(long, short, s1, s2, unit);
      }
    } else {
      var long, short, s2 := LosingEntryCanImprove(askL, bidS, askS, s1, unit);
      assert Quotes(long, short, s1, unit, askL, bidS, askS) && !EntryNoBetter(long, short, s1, s2, unit);
    }
  }

  /** Exit is entry with the venues exchanged. */
  lemma ExitIsMirroredEntry(long: Book, short: Book, size: real, unit: SizeUnit)
    requires Priced(long, short, size, unit)
    ensures Priced(short, long, size, unit) && OutPct(long, short, size, unit) == InPct(short, long, size, unit)
  {
  }

  ghost predicate ExitNoBetter(long: Book, short: Book, s1: real, s2: real, unit: SizeUnit) {
    && Priced(long, short, s1, unit) && Priced(long, short, s2, unit)
    && OutPct(long, short, s1, unit) >= OutPct(long, short, s2, unit)
  }

  /** The same threshold for exit. */
  lemma ExitNeverImprovesIff(askS: real, bidL: real, askL: real, s1: real, unit: SizeUnit)
    requires askS > 0.0 && 0.0 < bidL < askL
    ensures (forall long, short, s2 :: Quotes(short, long, s1, unit, askS, bidL, askL) && s1 <= s2
                                       ==> ExitNoBetter(long, short, s1, s2, unit))
       <==> askS <= bidL
  {
    hide Tradable, MeanPrice, PctOf, Quotes;
    forall long, short, s2
      ensures ExitNoBetter(long, short, s1, s2, unit) <==> EntryNoBetter(short, long, s1, s2, unit)
    {
      MirroredNoBetter(long, short, s1, s2, unit);
    }
    EntryNeverImprovesIff(askS, bidL, askL, s1, unit);
    if askS > bidL {
      var short, long, s2 :|
        Quotes(short, long, s1, unit, askS, bidL, askL) && s1 <= s2 && !EntryNoBetter(short, long, s1, s2, unit);
      assert !ExitNoBetter(long, short, s1, s2, unit);
    }
  }

  lemma MirroredNoBetter(long: Book, short: Book, s1: real, s2: real, unit: SizeUnit)
    ensures ExitNoBetter(long, short, s1, s2, unit) <==> EntryNoBetter(short, long, s1, s2, unit)
  {
    hide MeanPrice;
    if Priced(long, short, s1, unit) && Priced(long, short, s2, unit) {
      ExitIsMirroredEntry(long, short, s1, unit);
      ExitIsMirroredEntry(long, short, s2, unit);
    }
  }

  lemma LossOverLargerReference(gain: real, askL: real, askS: real)
    requires gain < 0.0 < askL && askS > 0.0
    ensures PctOf(gain, askL, askS) < PctOf(gain, askL, 1.5 * askS) < 0.0
  {
    hide PctOf;
    PctScale(gain, askL, askS);
    PctScale(gain, askL, 1.5 * askS);
    LossShrinks(gain, PctOf(gain, askL, askS), askL + askS, PctOf(gain, askL, 1.5 * askS), askL + 1.5 * askS);
  }

  lemma LossShrinks(gain: real, x1: real, a1: real, x2: real, a2: real)
    requires gain < 0.0 < a1 < a2 && x1 * a1 == 200.0 * gain == x2 * a2
    ensures x1 < x2 < 0.0
  {
    if x2 >= 0.0 { MulMono(0.0, x2, a2); }
    MulStrict(a1, a2, -x2);
    assert a1 * (-x2) == -(x2 * a1) && a2 * (-x2) == -(x2 * a2);
    if x1 >= x2 { MulMono(x2, x1, a1); }
  }

  /** A side of one level quotes its price for every order. */
  lemma FlatSide(p: real, size: real, unit: SizeUnit)
    requires p > 0.0
    ensures MeanPrice([Level(p, 1.0)], size, unit) == p
  {
    hide MeanPrice;
    AskMeanBetween([Level(p, 1.0)], size, unit);
  }

  /** A side of two equal levels, the second twice as dear: the given order stays within the first, a larger one takes
      both. */
  lemma SteppedSide(p: real, s1: real, unit: SizeUnit) returns (q: real, s2: real)
    requires p > 0.0
    ensures q > 0.0 && s1 < s2
    ensures var side := [Level(p, q), Level(2.0 * p, q)];
            MeanPrice(side, s1, unit) == p && MeanPrice(side, s2, unit) == 1.5 * p
  {
    q := if s1 <= 0.0 then 1.0 else if unit == Token then s1 else s1 / p;
    assert q > 0.0 && (s1 > 0.0 && unit == Usdt ==> q * p == s1) by { FirstLevelTokens(p, s1); }
    var side := [Level(p, q), Level(2.0 * p, q)];
    SteppedCosts(p, q);
    s2 := if unit == Token then 2.0 * q else TokenCost(side, 2.0 * q);
    assert s1 < s2 by { MulStrict(0.0, q, p); }
    UnitsInverse(side, q);
    UnitsInverse(side, 2.0 * q);
    NothingBought(side, s1, unit);
  }

  lemma FirstLevelTokens(p: real, s1: real)
    requires p > 0.0
    ensures s1 > 0.0 ==> s1 / p > 0.0 && (s1 / p) * p == s1
  {
    var x := s1 / p;
    assert x * p == s1;
    if s1 > 0.0 && x <= 0.0 { MulMono(x, 0.0, p); }
  }

  lemma NothingBought(levels: seq<Level>, size: real, unit: SizeUnit)
    requires NonNegative(levels) && levels != []
    ensures size <= 0.0 ==> MeanPrice(levels, size, unit) == levels[0].price
  {
  }

  lemma SteppedCosts(p: real, q: real)
    requires p > 0.0 && q > 0.0
    ensures var side := [Level(p, q), Level(2.0 * p, q)];
            && Positive(side) && Depth(side) == 2.0 * q
            && TokenCost(side, q) == q * p && TokenCost(side, 2.0 * q) == 3.0 * (q * p)
            && MeanPrice(side, q, Token) == p && MeanPrice(side, 2.0 * q, Token) == 1.5 * p
  {
    var side := [Level(p, q), Level(2.0 * p, q)];
    assert side[1..] == [Level(2.0 * p, q)];
    assert side[1..][1..] == [];
    assert Depth(side[1..]) == q + Depth(side[1..][1..]);
    assert Depth(side) == q + Depth(side[1..]);
    CostUnfold(side, q);
    CostUnfold(side, 2.0 * q);
    CostUnfold(side[1..], 0.0);
    CostUnfold(side[1..], q);
    CostPer(q * p, q, p);
    CostPer(3.0 * (q * p), 2.0 * q, 1.5 * p);
  }

  lemma CostPer(c: real, q: real, p: real)
    requires q > 0.0 && c == q * p
    ensures PerToken(c, q) == p
  {
    var x := c / q;
    assert x * q == c;
    SameFactor(x, p, q);
  }

  // ---------------------------------------------------------------- the sampler

  /** The history with its oldest samples dropped until the front is recent enough. */
  ghost function DropOld(hist: seq<Sample>, cutoff: real): seq<Sample> {
    if hist != [] && hist[0].ts < cutoff then DropOld(hist[1..], cutoff) else hist
  }

  /** The history after a new sample: bounded in number, then in age. */
  ghost function Recorded(hist: seq<Sample>, s: Sample): seq<Sample> {
    var grown := hist + [s];
    var bounded := if |grown| > HISTORY_LIMIT then grown[1..] else grown;
    DropOld(bounded, s.ts - WINDOW_S)
  }

  ghost predicate Duplicate(hist: seq<Sample>, s: Sample) {
    && hist != []
    && var last := hist[|hist| - 1];
       s.ts - last.ts < DUPLICATE_S && last.inPct == s.inPct && last.outPct == s.outPct
  }

  ghost predicate Chronological(hist: seq<Sample>) {
    forall i, j :: 0 <= i < j < |hist| ==> hist[i].ts <= hist[j].ts
  }

  /** No sample repeats the one before it within the time in which a repetition is dropped. */
  ghost predicate NoStutter(hist: seq<Sample>) {
    forall i :: 0 < i < |hist| ==>
      !(hist[i].ts - hist[i - 1].ts < 0.02
        && hist[i].inPct == hist[i - 1].inPct && hist[i].outPct == hist[i - 1].outPct)
  }

  /** The newest sample shows some percentages and is less than 20 ms old, if not of this very instant. */
  ghost predicate UpToDate(hist: seq<Sample>, now: real, inPct: real, outPct: real) {
    && hist != []
    && var last := hist[|hist| - 1];
       last.inPct == inPct && last.outPct == outPct && (last.ts == now || now - last.ts < 0.02)
  }

  class Sampler {
    var longBook: Option<Book>
    var shortBook: Option<Book>
    var size: real
    var unit: SizeUnit
    var hist: seq<Sample>

    /** Both books are there, both sides of both are quoted, and every price is known. */
    ghost predicate Ready()
      reads this
    {
      longBook.Some? && shortBook.Some? && Priced(longBook.value, shortBook.value, size, unit)
    }

    /** Takes one sample at time `now`; does nothing while a price is missing or when nothing changed. */
    method TakeSample(now: real)
      requires longBook.Some? ==> NonNegative(longBook.value.asks) && NonNegative(longBook.value.bids)
      requires shortBook.Some? ==> NonNegative(shortBook.value.asks) && NonNegative(shortBook.value.bids)
      modifies this`hist
      ensures !Ready() ==> hist == old(hist)
      ensures Ready() ==>
                var s := Sample(now, InPct(longBook.value, shortBook.value, size, unit),
                                     OutPct(longBook.value, shortBook.value, size, unit));
                hist == if Duplicate(old(hist), s) then old(hist) else Recorded(old(hist), s)
      ensures Ready() ==>
                UpToDate(hist, now, InPct(longBook.value, shortBook.value, size, unit),
                         OutPct(longBook.value, shortBook.value, size, unit))
      ensures NoStutter(old(hist)) ==> NoStutter(hist)
    {
      if longBook.Some? && shortBook.Some? && Priced(longBook.value, shortBook.value, size, unit) {
        RecordedReads(hist, Sample(now, InPct(longBook.value, shortBook.value, size, unit),
                                   OutPct(longBook.value, shortBook.value, size, unit)));
      }
      hide NoStutter, UpToDate;
      hide MeanPrice, PctOf;
      if longBook.None? || shortBook.None? { return; }
      var long, short := longBook.value, shortBook.value;
      var askL := Vwap(long.asks, size, unit);
      var bidS := Vwap(short.bids, size, unit);
      var bidL := Vwap(long.bids, size, unit);
      var askS := Vwap(short.asks, size, unit);
      if askL.None? || bidL.None? || askS.None? || bidS.None? { return; }
      if askL.value == 0.0 || bidL.value == 0.0 || askS.value == 0.0 || bidS.value == 0.0 { return; }
      MeanNotNegative(long.asks, size, unit);
      MeanNotNegative(short.asks, size, unit);
      MeanNotNegative(long.bids, size, unit);
      MeanNotNegative(short.bids, size, unit);
      var inPct := PctOf(bidS.value - askL.value, askL.value, askS.value);
      var outPct := PctOf(bidL.value - askS.value, askL.value, askS.value);
      if |hist| > 0 {
        var last := hist[|hist| - 1];
        if now - last.ts < DUPLICATE_S && last.inPct == inPct && last.outPct == outPct { return; }
      }
      hist := hist + [Sample(now, inPct, outPct)];
      if |hist| > HISTORY_LIMIT { hist := hist[1..]; }
      ghost var bounded := hist;
      var cutoff := now - WINDOW_S;
      while |hist| > 0 && hist[0].ts < cutoff
        invariant DropOld(hist, cutoff) == DropOld(bounded, cutoff)
        decreases |hist|
      {
        hist := hist[1..];
      }
    }
  }

  /** A recording keeps the history without repetitions and up to date. */
  lemma RecordedReads(hist: seq<Sample>, s: Sample)
    ensures var hist' := if Duplicate(hist, s) then hist else Recorded(hist, s);
            UpToDate(hist', s.ts, s.inPct, s.outPct) && (NoStutter(hist) ==> NoStutter(hist'))
  {
    if !Duplicate(hist, s) {
      hide DropOld;
      var grown := hist + [s];
      var bounded := if |grown| > HISTORY_LIMIT then grown[1..] else grown;
      var k := DropOldKeepsLast(bounded, s.ts - WINDOW_S);
      if NoStutter(hist) {
        NoStutterMore(hist, s);
        hide NoStutter;
        NoStutterSuffix(grown, 1);
        NoStutterSuffix(bounded, k);
      }
    }
  }

  lemma NoStutterMore(hist: seq<Sample>, s: Sample)
    requires NoStutter(hist) && !Duplicate(hist, s)
    ensures NoStutter(hist + [s])
  {
    assert forall i :: 0 <= i < |hist| ==> (hist + [s])[i] == hist[i];
  }

  lemma NoStutterSuffix(hist: seq<Sample>, n: nat)
    requires n <= |hist| && NoStutter(hist)
    ensures NoStutter(hist[n..])
  {
  }

  lemma {:induction false} DropOldKeepsLast(hist: seq<Sample>, cutoff: real) returns (k: nat)
    requires hist != [] && hist[|hist| - 1].ts >= cutoff
    ensures k < |hist| && DropOld(hist, cutoff) == hist[k..]
  {
    k := 0;
    if hist[0].ts < cutoff {
      var n := DropOldKeepsLast(hist[1..], cutoff);
      k := n + 1;
    }
  }

  /** With a clock that never goes back, the history is always the newest samples that are young enough,
      at most the limit: a sample is dropped only for its age, or as the single oldest of a full history. */
  lemma HistoryWindow(hist: seq<Sample>, s: Sample) returns (dropped: nat)
    requires Chronological(hist) && |hist| <= HISTORY_LIMIT
    requires hist != [] ==> hist[|hist| - 1].ts <= s.ts
    ensures dropped <= |hist| && Recorded(hist, s) == (hist + [s])[dropped..]
    ensures Chronological(Recorded(hist, s)) && |Recorded(hist, s)| <= HISTORY_LIMIT
    ensures forall i :: dropped <= i < |hist| ==> hist[i].ts >= s.ts - WINDOW_S
    ensures forall i :: 0 <= i < dropped ==> hist[i].ts < s.ts - WINDOW_S || (i == 0 && |hist| == HISTORY_LIMIT)
  {
    var grown := hist + [s];
    var first := if |grown| > HISTORY_LIMIT then 1 else 0;
    var bounded := grown[first..];
    GrownChronological(hist, s, first);
    var k := DropOldIsSuffix(bounded, s.ts - WINDOW_S);
    assert bounded[|bounded| - 1] == s;
    hide DropOld;
    dropped := first + k;
    SuffixOfSuffix(grown, first, k);
    SuffixAges(hist, s, first, k);
  }

  lemma GrownChronological(hist: seq<Sample>, s: Sample, first: nat)
    requires Chronological(hist) && first <= 1
    requires hist != [] ==> hist[|hist| - 1].ts <= s.ts
    ensures Chronological((hist + [s])[first..])
  {
  }

  lemma SuffixOfSuffix(grown: seq<Sample>, first: nat, k: nat)
    requires first + k <= |grown| && Chronological(grown[first..])
    ensures grown[first..][k..] == grown[first + k..] && Chronological(grown[first + k..])
  {
    assert grown[first..][k..] == grown[first + k..];
  }

  lemma SuffixAges(hist: seq<Sample>, s: Sample, first: nat, k: nat)
    requires first <= 1 && (first == 1 ==> |hist| == HISTORY_LIMIT)
    requires first + k <= |hist|
    requires forall i :: 0 <= i < k ==> (hist + [s])[first..][i].ts < s.ts - WINDOW_S
    requires forall i :: k <= i < |hist| + 1 - first ==> (hist + [s])[first..][i].ts >= s.ts - WINDOW_S
    ensures forall i :: first + k <= i < |hist| ==> hist[i].ts >= s.ts - WINDOW_S
    ensures forall i :: 0 <= i < first + k ==> hist[i].ts < s.ts - WINDOW_S || (i == 0 && |hist| == HISTORY_LIMIT)
  {
    forall i | first <= i < |hist|
      ensures (hist + [s])[first..][i - first] == hist[i]
    {
    }
  }

  lemma {:induction false} DropOldIsSuffix(hist: seq<Sample>, cutoff: real) returns (k: nat)
    requires Chronological(hist)
    ensures k <= |hist| && DropOld(hist, cutoff) == hist[k..]
    ensures forall i :: 0 <= i < k ==> hist[i].ts < cutoff
    ensures forall i :: k <= i < |hist| ==> hist[i].ts >= cutoff
  {
    k := 0;
    if hist != [] && hist[0].ts < cutoff {
      k := DropOldIsSuffix(hist[1..], cutoff);
      k := k + 1;
    }
  }
}
