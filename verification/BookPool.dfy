/** The depth ladder: a fixed pool of rows that is patched in place and must look like a fresh render. */
module BookPool {
  import opened JsSort
  import opened Options
  import opened OrderBookFill
  import opened RealOrder
  import opened BookGrouping

  const POOL_SIZE := 50

  /** How numbers become text; any formatters will do. */
  datatype Format = Format(price: real -> string, volume: real -> string, percent: real -> string)

  datatype Frame = Frame(asks: seq<Level>, bids: seq<Level>)

  // ---------------------------------------------------------------- a render from scratch

  datatype RowView = Hidden | Shown(price: string, amount: string, total: string, width: string)

  datatype Panel = Blank | NoBook | Ladder(asks: seq<RowView>, bids: seq<RowView>)

  /** Money in the first `n` rows, the running total of the right-hand column. */
  function RunningTotal(levels: seq<Level>, n: nat): real
    requires n <= |levels|
  {
    if n == 0 then 0.0 else RunningTotal(levels, n - 1) + levels[n - 1].qty * levels[n - 1].price
  }

  /** The quantity that fills a bar: the largest on the side, but never less than one. */
  function FullBar(levels: seq<Level>): (m: real)
    ensures m >= 1.0
  {
    if levels == [] then 1.0
    else
      var m := FullBar(levels[..|levels| - 1]);
      if levels[|levels| - 1].qty > m then levels[|levels| - 1].qty else m
  }

  function BarPercent(qty: real, full: real): real
    requires full >= 1.0
  {
    qty / full * 100.0
  }

  function RowText(fmt: Format, levels: seq<Level>, full: real, i: nat): RowView
    requires full >= 1.0
  {
    if i >= |levels| then Hidden
    else
      Shown(fmt.price(levels[i].price), fmt.volume(levels[i].qty), fmt.volume(RunningTotal(levels, i + 1)),
            fmt.percent(BarPercent(levels[i].qty, full)) + "%")
  }

  function SideView(fmt: Format, levels: seq<Level>): (r: seq<RowView>)
    ensures |r| == POOL_SIZE
  {
    seq(POOL_SIZE, i requires 0 <= i => RowText(fmt, levels, FullBar(levels), i))
  }

  /** The price that picks the grouping step: the first bid, else the first ask, else zero; a zero price is skipped. */
  function RefPrice(f: Frame): real {
    if f.bids != [] && f.bids[0].price != 0.0 then f.bids[0].price
    else if f.asks != [] then f.asks[0].price else 0.0
  }

  function Shortest(n: nat): nat {
    if n < POOL_SIZE then n else POOL_SIZE
  }

  /** The asks on screen: the buckets nearest the market, dearest on top. */
  function ShownAsks(raw: seq<Level>, step: real): seq<Level>
    requires step > 0.0
  {
    var g := ToLevels(Grouping(raw, step), step);
    g[|g| - Shortest(|g|)..]
  }

  /** The bids on screen: the buckets nearest the market, dearest on top. */
  function ShownBids(raw: seq<Level>, step: real): seq<Level>
    requires step > 0.0
  {
    var g := ToLevels(Grouping(raw, step), step);
    g[..Shortest(|g|)]
  }

  function Scratch(fmt: Format, f: Frame, depthIdx: nat): Panel {
    if f.asks == [] && f.bids == [] then NoBook
    else
      var step := GroupSize(RefPrice(f), depthIdx);
      Ladder(SideView(fmt, ShownAsks(f.asks, step)), SideView(fmt, ShownBids(f.bids, step)))
  }

  /** A bar never overflows its row, and with quantities that are not negative it never runs backwards. */
  lemma BarsFit(levels: seq<Level>, i: nat)
    requires i < |levels|
    ensures BarPercent(levels[i].qty, FullBar(levels)) <= 100.0
    ensures levels[i].qty >= 0.0 ==> BarPercent(levels[i].qty, FullBar(levels)) >= 0.0
  {
    FullBarIsLargest(levels, i);
    BarBounds(levels[i].qty, FullBar(levels));
  }

  lemma BarBounds(q: real, full: real)
    requires full >= 1.0 && q <= full
    ensures BarPercent(q, full) <= 100.0 && (q >= 0.0 ==> BarPercent(q, full) >= 0.0)
  {
    var x := q / full;
    assert x * full == q;
    if x > 1.0 { MulStrict(1.0, x, full); }
    if x < 0.0 { MulStrict(x, 0.0, full); }
  }

  lemma {:induction false} FullBarIsLargest(levels: seq<Level>, i: nat)
    requires i < |levels|
    ensures levels[i].qty <= FullBar(levels)
  {
    if i < |levels| - 1 {
      FullBarIsLargest(levels[..|levels| - 1], i);
    }
  }

  // ---------------------------------------------------------------- what a frame shows

  lemma {:induction false} DepthCostAppend(levels: seq<Level>, l: Level)
    ensures DepthCost(levels + [l]) == DepthCost(levels) + Notional(l.qty, l.price)
  {
    if levels == [] {
      assert ([] + [l])[1..] == [];
    } else {
      assert (levels + [l])[1..] == levels[1..] + [l];
      DepthCostAppend(levels[1..], l);
    }
  }

  /** The total column holds the money that buys the side down to its row. */
  lemma {:induction false} TotalIsMoney(levels: seq<Level>, n: nat)
    requires n <= |levels|
    ensures RunningTotal(levels, n) == DepthCost(levels[..n])
  {
    if n > 0 {
      TotalIsMoney(levels, n - 1);
      assert levels[..n] == levels[..n - 1] + [levels[n - 1]];
      DepthCostAppend(levels[..n - 1], levels[n - 1]);
    }
  }

  /** What fills a bar: one, or the quantity of a level, and no level has more. */
  ghost predicate IsFullBar(levels: seq<Level>, full: real) {
    && full >= 1.0 && (forall l :: l in levels ==> l.qty <= full)
    && (full == 1.0 || exists l :: l in levels && l.qty == full)
  }

  lemma {:induction false} FullBarReads(levels: seq<Level>)
    ensures IsFullBar(levels, FullBar(levels))
  {
    if levels != [] {
      FullBarReads(levels[..|levels| - 1]);
      assert levels[|levels| - 1] in levels;
      assert levels == levels[..|levels| - 1] + [levels[|levels| - 1]];
    }
  }

  lemma BarReads(qty: real, full: real)
    requires full >= 1.0
    ensures BarPercent(qty, full) * full == 100.0 * qty
  {
    var x := qty / full;
    assert x * full == qty;
  }

  /** A shown row: price and quantity of its level, the money from the top of the side down to it, and the quantity as a
      share of the fullest bar. */
  ghost predicate RowReads(fmt: Format, levels: seq<Level>, i: nat, full: real, pct: real, row: RowView) {
    && i < |levels| && pct * full == 100.0 * levels[i].qty
    && row == Shown(fmt.price(levels[i].price), fmt.volume(levels[i].qty), fmt.volume(DepthCost(levels[..i + 1])),
                    fmt.percent(pct) + "%")
  }

  ghost predicate SomeRow(fmt: Format, levels: seq<Level>, i: nat, full: real, row: RowView) {
    exists pct :: RowReads(fmt, levels, i, full, pct, row)
  }

  ghost predicate RowsRead(fmt: Format, levels: seq<Level>, full: real, rows: seq<RowView>)
    requires |levels| <= |rows|
  {
    forall i :: 0 <= i < |levels| ==> SomeRow(fmt, levels, i, full, rows[i])
  }

  /** A side shows its levels from the top, and nothing below them. */
  ghost predicate SideReads(fmt: Format, levels: seq<Level>, rows: seq<RowView>) {
    && |levels| <= |rows| == POOL_SIZE
    && (exists full :: IsFullBar(levels, full) && RowsRead(fmt, levels, full, rows))
    && (forall i :: |levels| <= i < |rows| ==> rows[i] == Hidden)
  }

  lemma SideViewReads(fmt: Format, levels: seq<Level>)
    requires |levels| <= POOL_SIZE
    ensures SideReads(fmt, levels, SideView(fmt, levels))
  {
    var full := FullBar(levels);
    FullBarReads(levels);
    hide FullBar, IsFullBar, RowReads, RowText;
    forall i: nat | i < |levels|
      ensures SomeRow(fmt, levels, i, full, SideView(fmt, levels)[i])
    {
      var pct := RowTextReads(fmt, levels, i, full);
      SideAt(fmt, levels, i);
      assert RowReads(fmt, levels, i, full, pct, SideView(fmt, levels)[i]);
    }
    assert RowsRead(fmt, levels, full, SideView(fmt, levels));
    BeyondHidden(fmt, levels);
  }

  lemma SideAt(fmt: Format, levels: seq<Level>, i: nat)
    requires i < POOL_SIZE
    ensures SideView(fmt, levels)[i] == RowText(fmt, levels, FullBar(levels), i)
  {
  }

  lemma RowTextReads(fmt: Format, levels: seq<Level>, i: nat, full: real) returns (pct: real)
    requires i < |levels| && full >= 1.0
    ensures RowReads(fmt, levels, i, full, pct, RowText(fmt, levels, full, i))
  {
    hide BarPercent, RunningTotal, DepthCost;
    BarReads(levels[i].qty, full);
    TotalIsMoney(levels, i + 1);
    pct := BarPercent(levels[i].qty, full);
  }

  lemma BeyondHidden(fmt: Format, levels: seq<Level>)
    ensures forall i :: |levels| <= i < POOL_SIZE ==> SideView(fmt, levels)[i] == Hidden
  {
  }

  /** The best of a side: of its buckets, dearest first, the `POOL_SIZE` nearest the market. */
  ghost predicate Nearest(raw: seq<Level>, step: real, asks: bool, shown: seq<Level>)
    requires step > 0.0
  {
    exists rows, omitted ::
      && IsGrouping(rows, raw, step)
      && ToLevels(rows, step) == (if asks then omitted + shown else shown + omitted)
      && |shown| <= POOL_SIZE && (omitted == [] || |shown| == POOL_SIZE)
  }

  lemma ShownIsNearest(raw: seq<Level>, step: real)
    requires step > 0.0
    ensures Nearest(raw, step, true, ShownAsks(raw, step)) && Nearest(raw, step, false, ShownBids(raw, step))
  {
    hide Grouping, ToLevels, IsGrouping, ShownAsks, ShownBids, Nearest;
    var rows := Grouping(raw, step);
    var g := ToLevels(rows, step);
    var n := Shortest(|g|);
    GroupingIsGrouping(raw, step);
    ShownParts(raw, step);
    Halves(g, n);
    NearestPart(raw, step, rows, true, g[..|g| - n], g[|g| - n..]);
    NearestPart(raw, step, rows, false, g[n..], g[..n]);
  }

  lemma ShownParts(raw: seq<Level>, step: real)
    requires step > 0.0
    ensures var g := ToLevels(Grouping(raw, step), step);
            ShownAsks(raw, step) == g[|g| - Shortest(|g|)..] && ShownBids(raw, step) == g[..Shortest(|g|)]
  {
    hide Grouping, ToLevels;
  }

  lemma Halves(g: seq<Level>, n: nat)
    requires n <= |g|
    ensures g == g[..|g| - n] + g[|g| - n..] && g == g[..n] + g[n..]
  {
  }

  lemma NearestPart(raw: seq<Level>, step: real, rows: seq<(int, real)>, asks: bool, omitted: seq<Level>,
                    shown: seq<Level>)
    requires step > 0.0 && IsGrouping(rows, raw, step)
    requires ToLevels(rows, step) == if asks then omitted + shown else shown + omitted
    requires |shown| <= POOL_SIZE && (omitted == [] || |shown| == POOL_SIZE)
    ensures Nearest(raw, step, asks, shown)
  {
    hide IsGrouping, ToLevels;
  }

  /** The price that picks the step is the first bid's, or the first ask's while there is no bid with a price. */
  ghost predicate PicksStep(f: Frame, ref: real) {
    if f.bids != [] && f.bids[0].price != 0.0 then ref == f.bids[0].price
    else if f.asks != [] then ref == f.asks[0].price else ref == 0.0
  }

  /** What the panel shows of a frame. */
  ghost predicate PanelReads(fmt: Format, f: Frame, depthIdx: nat, view: Panel) {
    if f.asks == [] && f.bids == [] then view == NoBook
    else
      exists ref, asks, bids ::
        && PicksStep(f, ref) && view.Ladder?
        && Nearest(f.asks, GroupSize(ref, depthIdx), true, asks) && SideReads(fmt, asks, view.asks)
        && Nearest(f.bids, GroupSize(ref, depthIdx), false, bids) && SideReads(fmt, bids, view.bids)
  }

  lemma ScratchReads(fmt: Format, f: Frame, depthIdx: nat)
    ensures PanelReads(fmt, f, depthIdx, Scratch(fmt, f, depthIdx))
  {
    if f.asks != [] || f.bids != [] {
      var ref := RefPrice(f);
      assert PicksStep(f, ref);
      hide GroupSize, ShownAsks, ShownBids, SideView, SideReads, Nearest, RefPrice, PicksStep;
      var step := GroupSize(ref, depthIdx);
      var asks, bids := ShownAsks(f.asks, step), ShownBids(f.bids, step);
      ShownIsNearest(f.asks, step);
      ShownIsNearest(f.bids, step);
      ShownFits(f.asks, step);
      ShownFits(f.bids, step);
      SideViewReads(fmt, asks);
      SideViewReads(fmt, bids);
    }
  }

  lemma ShownFits(raw: seq<Level>, step: real)
    requires step > 0.0
    ensures |ShownAsks(raw, step)| <= POOL_SIZE && |ShownBids(raw, step)| <= POOL_SIZE
  {
  }

  // ---------------------------------------------------------------- the row pool

  /** One pooled row: its live text and, for each cell, the text it remembers having written. */
  class BookRow {
    var width: string
    var price: string
    var amount: string
    var total: string
    var visible: bool
    var widthMemo: Option<string>
    var priceMemo: Option<string>
    var amountMemo: Option<string>
    var totalMemo: Option<string>

    ghost predicate Remembers()
      reads this
    {
      && (widthMemo.Some? ==> widthMemo.value == width)
      && (priceMemo.Some? ==> priceMemo.value == price)
      && (amountMemo.Some? ==> amountMemo.value == amount)
      && (totalMemo.Some? ==> totalMemo.value == total)
    }

    ghost function View(): RowView
      reads this
    {
      if visible then Shown(price, amount, total, width) else Hidden
    }

    constructor ()
      ensures Remembers() && View() == Hidden
    {
      width, price, amount, total, visible := "0%", "", "", "", false;
      widthMemo, priceMemo, amountMemo, totalMemo := None, None, None, None;
    }

    method Hide()
      requires Remembers()
      modifies this`visible
      ensures Remembers() && View() == Hidden
    {
      if visible { visible := false; }
    }

    /** Writes only the cells whose text changed. */
    method Show(priceText: string, amountText: string, totalText: string, widthText: string)
      requires Remembers()
      modifies this
      ensures Remembers() && View() == Shown(priceText, amountText, totalText, widthText)
    {
      if widthMemo != Some(widthText) { width := widthText; widthMemo := Some(widthText); }
      if priceMemo != Some(priceText) { price := priceText; priceMemo := Some(priceText); }
      if amountMemo != Some(amountText) { amount := amountText; amountMemo := Some(amountText); }
      if totalMemo != Some(totalText) { total := totalText; totalMemo := Some(totalText); }
      if !visible { visible := true; }
    }
  }

  ghost predicate PoolRows(rows: seq<BookRow>)
    reads rows
  {
    && |rows| == POOL_SIZE
    && (forall i, j :: 0 <= i < j < |rows| ==> rows[i] != rows[j])
    && (forall i :: 0 <= i < |rows| ==> rows[i].Remembers())
  }

  ghost function Views(rows: seq<BookRow>): (r: seq<RowView>)
    reads rows
    ensures |r| == |rows| && forall i :: 0 <= i < |r| ==> r[i] == rows[i].View()
  {
    seq(|rows|, i requires 0 <= i < |rows| reads rows => rows[i].View())
  }

  method BuildSidePool() returns (rows: seq<BookRow>)
    ensures PoolRows(rows) && fresh(rows)
    ensures forall i :: 0 <= i < |rows| ==> rows[i].View() == Hidden
  {
    rows := [];
    var i := 0;
    while i < POOL_SIZE
      invariant 0 <= i == |rows| <= POOL_SIZE && fresh(rows)
      invariant forall j, k :: 0 <= j < k < |rows| ==> rows[j] != rows[k]
      invariant forall j :: 0 <= j < |rows| ==> rows[j].Remembers() && rows[j].View() == Hidden
    {
      var row := new BookRow();
      rows := rows + [row];
      i := i + 1;
    }
  }

  /** Patches the pool to show some levels. */
  method ApplyLevelsToPool(fmt: Format, rows: seq<BookRow>, levels: seq<Level>, max: real)
    requires PoolRows(rows) && max == FullBar(levels)
    modifies rows
    ensures PoolRows(rows) && Views(rows) == SideView(fmt, levels)
  {
    var total := 0.0;
    var i := 0;
    while i < POOL_SIZE
      invariant 0 <= i <= POOL_SIZE && PoolRows(rows)
      invariant total == RunningTotal(levels, if i < |levels| then i else |levels|)
      invariant forall j :: 0 <= j < i ==> rows[j].View() == RowText(fmt, levels, max, j)
    {
      var r := rows[i];
      if i >= |levels| {
        r.Hide();
      } else {
        var l := levels[i];
        total := total + l.qty * l.price;
        r.Show(fmt.price(l.price), fmt.volume(l.qty), fmt.volume(total), fmt.percent(BarPercent(l.qty, max)) + "%");
      }
      i := i + 1;
    }
  }

  /** A pool for each side, with no row in both. */
  ghost predicate TwoPools(asks: seq<BookRow>, bids: seq<BookRow>)
    reads asks, bids
  {
    && PoolRows(asks) && PoolRows(bids)
    && forall i, j :: 0 <= i < |asks| && 0 <= j < |bids| ==> asks[i] != bids[j]
  }

  lemma TwoPoolsSizes(asks: seq<BookRow>, bids: seq<BookRow>)
    requires TwoPools(asks, bids)
    ensures |asks| == |bids| == POOL_SIZE
  {
  }

  method BuildTwoPools() returns (asks: seq<BookRow>, bids: seq<BookRow>)
    ensures TwoPools(asks, bids) && fresh(asks) && fresh(bids)
  {
    asks := BuildSidePool();
    bids := BuildSidePool();
  }

  /** Patches the two pools, asks first; neither patch touches the other side. */
  method ApplyToBoth(fmt: Format, askRows: seq<BookRow>, asks: seq<Level>, maxA: real,
                     bidRows: seq<BookRow>, bids: seq<Level>, maxB: real)
    requires TwoPools(askRows, bidRows) && maxA == FullBar(asks) && maxB == FullBar(bids)
    modifies askRows, bidRows
    ensures TwoPools(askRows, bidRows)
    ensures Views(askRows) == SideView(fmt, asks) && Views(bidRows) == SideView(fmt, bids)
  {
    hide SideView, FullBar;
    ApplyLevelsToPool(fmt, askRows, asks, maxA);
    label AsksDone:
    assert forall j :: 0 <= j < |bidRows| ==> bidRows[j].Remembers();
    ApplyLevelsToPool(fmt, bidRows, bids, maxB);
    assert forall i :: 0 <= i < |askRows| ==> unchanged@AsksDone(askRows[i]);
    assert forall i :: 0 <= i < |askRows| ==> Views(askRows)[i] == old@AsksDone(Views(askRows))[i];
    assert PoolRows(askRows);
  }

  // ---------------------------------------------------------------- the panel

  datatype Pool = Pool(asks: seq<BookRow>, bids: seq<BookRow>)
  datatype Kind = NotBuilt | PoolBuilt | EmptyShown

  class BookPanel {
    /** The rows inside the two containers, and whether the asks container shows the empty message instead. */
    var askRows: seq<BookRow>
    var bidRows: seq<BookRow>
    var message: bool
    var pool: Option<Pool>
    var kind: Kind
    ghost var Repr: set<object>

    ghost predicate Valid()
      reads this, Repr
    {
      && this in Repr
      && (forall i :: 0 <= i < |askRows| ==> askRows[i] in Repr)
      && (forall i :: 0 <= i < |bidRows| ==> bidRows[i] in Repr)
      && Consistent()
    }

    ghost predicate Consistent()
      reads this, askRows, bidRows
    {
      match kind
      case NotBuilt => pool == None && askRows == bidRows == [] && !message
      case EmptyShown => pool == None && askRows == bidRows == [] && message
      case PoolBuilt =>
        pool == Some(Pool(askRows, bidRows)) && !message && TwoPools(askRows, bidRows)
    }

    ghost function View(): Panel
      reads this, askRows, bidRows
    {
      if message then NoBook
      else if askRows == [] then Blank
      else Ladder(Views(askRows), Views(bidRows))
    }

    constructor ()
      ensures Valid() && View() == Blank && fresh(Repr)
    {
      askRows, bidRows, message, pool, kind := [], [], false, None, NotBuilt;
      Repr := {this};
    }

    /** Wipes both containers and fills them with fresh pools, unless a pool is in place. */
    method EnsurePool() returns (p: Pool)
      requires Valid()
      modifies this
      ensures Valid() && fresh(Repr - old(Repr)) && kind == PoolBuilt && p == Pool(askRows, bidRows)
    {
      if pool.Some? && kind == PoolBuilt {
        return pool.value;
      }
      hide TwoPools;
      var asks, bids := BuildTwoPools();
      askRows, bidRows, message := asks, bids, false;
      p := Pool(asks, bids);
      pool, kind := Some(p), PoolBuilt;
      Repr := Repr + (set i | 0 <= i < |asks| :: asks[i]) + (set i | 0 <= i < |bids| :: bids[i]);
      assert forall i :: 0 <= i < |asks| ==> asks[i] in Repr;
      assert forall i :: 0 <= i < |bids| ==> bids[i] in Repr;
    }

    method RenderEmptyBook()
      requires Valid()
      modifies this
      ensures Valid() && Repr == old(Repr) && View() == NoBook
    {
      if kind == EmptyShown { return; }
      askRows, bidRows, message := [], [], true;
      pool, kind := None, EmptyShown;
    }

    /** Shows one frame. */
    method RenderBook(fmt: Format, d: Frame, depthIdx: nat)
      requires Valid()
      modifies Repr
      ensures Valid() && fresh(Repr - old(Repr))
      ensures View() == Scratch(fmt, d, depthIdx)
      ensures PanelReads(fmt, d, depthIdx, View())
    {
      ScratchReads(fmt, d, depthIdx);
      hide PanelReads;
      hide SideView, ShownAsks, ShownBids, GroupSize, RefPrice, FullBar;
      if |d.asks| == 0 && |d.bids| == 0 {
        RenderEmptyBook();
        return;
      }
      var groupSize := GroupSize(RefPrice(d), depthIdx);
      var asks := NearestAsks(d.asks, groupSize);
      var bids := NearestBids(d.bids, groupSize);
      var maxA := LargestQty(asks);
      var maxB := LargestQty(bids);
      var p := EnsurePool();
      PatchBoth(fmt, asks, maxA, bids, maxB);
    }

    method PatchBoth(fmt: Format, asks: seq<Level>, maxA: real, bids: seq<Level>, maxB: real)
      requires Valid() && kind == PoolBuilt && maxA == FullBar(asks) && maxB == FullBar(bids)
      modifies Repr - {this}
      ensures Valid() && View() == Ladder(SideView(fmt, asks), SideView(fmt, bids))
    {
      hide SideView, FullBar;
      TwoPoolsSizes(askRows, bidRows);
      hide TwoPools;
      ApplyToBoth(fmt, askRows, asks, maxA, bidRows, bids, maxB);
    }

    /** Any run of frames, empty ones included, leaves what a render of the last one from scratch would show. */
    method Replay(fmt: Format, frames: seq<Frame>, depths: seq<nat>)
      requires Valid() && |frames| == |depths| && frames != []
      modifies Repr
      ensures Valid() && fresh(Repr - old(Repr))
      ensures View() == Scratch(fmt, frames[|frames| - 1], depths[|depths| - 1])
      ensures PanelReads(fmt, frames[|frames| - 1], depths[|depths| - 1], View())
    {
      hide Scratch, PanelReads;
      var i := 0;
      while i < |frames|
        invariant 0 <= i <= |frames| && Valid() && fresh(Repr - old(Repr))
        invariant i > 0 ==>
                    View() == Scratch(fmt, frames[i - 1], depths[i - 1])
                    && PanelReads(fmt, frames[i - 1], depths[i - 1], View())
      {
        RenderBook(fmt, frames[i], depths[i]);
        i := i + 1;
      }
    }
  }

  method LargestQty(levels: seq<Level>) returns (m: real)
    ensures m == FullBar(levels)
  {
    m := 1.0;
    var i := 0;
    while i < |levels|
      invariant 0 <= i <= |levels| && m == FullBar(levels[..i])
    {
      assert levels[..i + 1][..i] == levels[..i];
      if levels[i].qty > m { m := levels[i].qty; }
      i := i + 1;
    }
    assert levels[..i] == levels;
  }

  /** Groups, sorts upwards, keeps the cheapest, and turns them round. */
  method NearestAsks(raw: seq<Level>, step: real) returns (asks: seq<Level>)
    requires step > 0.0
    ensures asks == ShownAsks(raw, step)
  {
    var grouped := GroupBookLevels(raw, step);
    PricesFall(raw, step);
    var up := Sort(grouped, (l: Level) => l.price);
    SortOfFalling(grouped, (l: Level) => l.price);
    var n := Shortest(|up|);
    asks := Reversed(up[..n]);
    ReversedEnds(grouped, n);
  }

  method NearestBids(raw: seq<Level>, step: real) returns (bids: seq<Level>)
    requires step > 0.0
    ensures bids == ShownBids(raw, step)
  {
    var grouped := GroupBookLevels(raw, step);
    PricesFall(raw, step);
    var down := Sort(grouped, (l: Level) => -l.price);
    SortOfSorted(grouped, (l: Level) => -l.price);
    bids := down[..Shortest(|down|)];
  }

  function Reversed(s: seq<Level>): (r: seq<Level>)
    ensures |r| == |s| && forall i :: 0 <= i < |s| ==> r[i] == s[|s| - 1 - i]
  {
    seq(|s|, i requires 0 <= i < |s| => s[|s| - 1 - i])
  }

  lemma ReversedEnds(s: seq<Level>, n: nat)
    requires n <= |s|
    ensures Reversed(Reversed(s)[..n]) == s[|s| - n..]
  {
  }

  lemma {:induction false} SortOfSorted(xs: seq<Level>, rank: Level -> real)
    requires SortedBy(xs, rank)
    ensures Sort(xs, rank) == xs
  {
    hide Insert, SortedBy;
    if xs != [] {
      var front, last := xs[..|xs| - 1], xs[|xs| - 1];
      FrontSorted(xs, rank);
      SortOfSorted(front, rank);
      InsertAtEnd(front, last, rank);
      SortUnfold(xs, rank);
    }
  }

  lemma SortUnfold(xs: seq<Level>, rank: Level -> real)
    requires xs != []
    ensures Sort(xs, rank) == Insert(Sort(xs[..|xs| - 1], rank), xs[|xs| - 1], rank)
  {
  }

  lemma FrontSorted(xs: seq<Level>, rank: Level -> real)
    requires xs != [] && SortedBy(xs, rank)
    ensures var front := xs[..|xs| - 1];
            SortedBy(front, rank) && (front == [] || rank(front[|front| - 1]) <= rank(xs[|xs| - 1]))
  {
  }

  lemma InsertAtEnd(xs: seq<Level>, x: Level, rank: Level -> real)
    requires xs == [] || rank(xs[|xs| - 1]) <= rank(x)
    ensures Insert(xs, x, rank) == xs + [x]
  {
    assert Slot(xs, x, rank) == |xs|;
    assert xs[..|xs|] == xs && xs[|xs|..] == [];
  }

  lemma {:induction false} SortOfFalling(xs: seq<Level>, rank: Level -> real)
    requires forall i, j :: 0 <= i < j < |xs| ==> rank(xs[i]) > rank(xs[j])
    ensures Sort(xs, rank) == Reversed(xs)
  {
    hide Insert;
    if xs != [] {
      var front, last := xs[..|xs| - 1], xs[|xs| - 1];
      SortOfFalling(front, rank);
      ReversedLast(xs);
      InsertInFront(Reversed(front), last, rank);
    }
  }

  lemma ReversedLast(xs: seq<Level>)
    requires xs != []
    ensures Reversed(xs) == [xs[|xs| - 1]] + Reversed(xs[..|xs| - 1])
  {
  }

  lemma InsertInFront(up: seq<Level>, x: Level, rank: Level -> real)
    requires forall i :: 0 <= i < |up| ==> rank(up[i]) > rank(x)
    ensures Insert(up, x, rank) == [x] + up
  {
    assert Slot(up, x, rank) == 0;
    assert up[..0] == [] && up[0..] == up;
  }
}
