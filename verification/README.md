# Verified models of the arbitrage terminal

This project models the parts of the terminal whose behaviour is easy to get wrong and hard to see
from one function: how an order walks a book, how positions are paired, how the live table keeps rows
alive and redraws them, how the depth ladder is patched, how candles and last-known positions are
kept, how the size slider rounds, and how server processes elect the owner of the user streams. It
proves what those parts guarantee, for every input and every run of the model.

Where the source changes fields in place the model is a class whose methods are proved against a
function of the old state, and the lemmas are about that function; where it computes a value the model
is a function.

| file | subject |
|---|---|
| `RealOrder.dfy`, `JsMap.dfy`, `JsSort.dfy`, `Filters.dfy`, `Options.dfy`, `Text.dfy` | order of products, the insertion-ordered map, the stable sort, the filter, optional values, decimal text |
| `OrderBookFill.dfy`, `FillLaws.dfy`, `EntryExit.dfy` | average fill price of an order, entry/exit divergence and its history |
| `BookGrouping.dfy`, `BookPool.dfy` | price bucketing, the pooled depth ladder |
| `PairMatching.dfy`, `PairReadings.dfy`, `PairLaws.dfy`, `PairConservation.dfy`, `PairKeys.dfy`, `PairHalf.dfy` | pairing of long and short positions, what its rules mean for the numbers of two positions, its guarantees, and exactly which row keys they need |
| `ArbFeed.dfy`, `ArbNames.dfy`, `ArbFeedRuns.dfy`, `ArbSlotRuns.dfy`, `KeyedTable.dfy` | live table with delayed deletion, the names of its rows, whole runs of it, runs through the single pending slot, keyed redraw |
| `LeaderLock.dfy`, `LeaderElection.dfy` | one round of the leader loop and one shutdown, runs of many processes |
| `Candles.dfy`, `CandleLaws.dfy`, `CandleOrder.dfy` | live and batch candles, and in which order readings must come for them to agree |
| `LastGood.dfy`, `LastGoodLaws.dfy` | merge of positions with the last known rows |
| `AllocSlider.dfy` | size slider, quantity input, unit switch |

Conventions. Prices, quantities and money are exact reals. Clock readings are parameters: seconds in the
sampler and the leader loop, whole milliseconds elsewhere. Formatters of the ladder are parameters, so its
results hold for any formatting. A level priced at zero yields its whole quantity to a money order, as the
source's division by zero does. JavaScript's `Map` is a sequence of entries with distinct keys, so the order of
the rows it yields is part of the model; its stable `sort` is a function with sortedness, permutation and
stability proved.

Findings, each stated by a lemma below:

* Entry alone (`inPct`) can improve as the order grows while it is a loss, because the reference price moves with
  the size; from a size at which it is not a loss it cannot. The threshold is exact, for exit as well.
* Lock renewal does not look at the owner. Mutual exclusion therefore rests on timing: oversleeping by less than
  20 s keeps it, and with exactly 20 s there is a run in which two processes lead and keep renewing.
* The release of the lock is registered as a coroutine function that the shutdown loop calls and never awaits, so a
  clean shutdown is a crash for the other processes: nobody leads until the lock expires. Awaited, it would hand the
  lead over within one poll period; in a split brain it would delete the lock under the other leader, because the
  release does not look at the owner either.
* Pairing names a row by its `position_id`, and several sources put the symbol there
  (`backend/services/user_streams/_supervisor.py:383`, `backend/services/trade_adapters/binance.py:437`,
  `backend/services/trade_adapters/bybit.py:488`, `backend/services/trade_adapters/aster.py:318`), so rows of
  different venues share a key. The two rows of one pair may. A third one is lost: with a long, a short and a second
  long of one symbol the second long is shown neither in a pair nor as a single. Rows are conserved, at all sizes and
  prices, if and only if no third row has the key of a long or short of one symbol; no pair blocks if and only if
  longs and shorts of different symbols share no key. That two acceptable rows are never both left among the
  singles, and the half-of-optimum bound over choices that use no key twice, hold whatever the keys. Over choices
  that use no row twice the bound fails: of three longs and three shorts with one id, which could make three pairs,
  one is made. It holds at all sizes and prices if and only if no long and short of one symbol share keys with three
  row-disjoint pairs of that symbol or of symbols visited later.
* The pending slot of the table's socket keeps only the newest message. That is exact when the newest is a snapshot;
  for a diff it is exact if and only if the overwritten messages changed nothing outside it. Over a whole run the
  live rows are the server's if and only if, for every key, the newest applied message that decides it says what the
  newest received one says; an applied snapshot heals every earlier loss.
* The feed's own script `tests/test_arb_ws_diff.mjs` expects removed rows to vanish at once; the code keeps them for
  12 s. The model follows the code, and states exactly when the two agree.
* The slider returns to the same percent at every position if and only if there is no cap, or the unit has a price and
  the cap is worth at least 99.5 steps of the input's last decimal. Tokens have no price before the first quote: the
  slider then orders nothing and springs back to zero, and a unit switch turns 100 tokens into 100 USDT. At 100 % a
  priced slider may ask for up to half a step more than the cap.
* Live candles are right, and equal the batch build, if and only if no reading falls into an earlier bucket than the
  one before it. The clock is the wall clock: a reading at 5000 ms and then one at 4999 ms leave the live chart with
  candles at 5000 and 0 in that order. Joining the batch build's fine candles gives the coarse ones if and only if every
  coarse bucket ends as it would in order of the fine ones.
* Cache scopes never mix if and only if none of their names continues another after a bar. The two scopes of a page,
  the account's and its symbol's, never do, whatever the symbol.

## Model

| member | source | states |
|---|---|---|
| OrderBookFill.Vwap | frontend/arb.js:3047-3063 | the walk returns nothing for an empty side; else there are takes per level, best level first, none beyond what a level has and none before those in front are empty, that amount to the tokens asked for or the money offered as far as the book goes, and the result times their sum is the money paid (the best price when nothing is obtained), for either unit and any size |
| OrderBookFill.MeanOfTakes | frontend/arb.js:3052-3062 | the same of the specification's mean price |
| OrderBookFill.CostOfFill | frontend/arb.js:3053-3056 | an order beyond the book costs the whole book, and never more than that |
| OrderBookFill.CostOfUsdtFill | frontend/arb.js:3057-3060 | a money order spends exactly the smaller of the money and the book's worth, and that pays for exactly the tokens it obtains |
| FillLaws.MarginalCost | frontend/arb.js:3047-3063 | every further token costs at least the cheapest price on the side |
| FillLaws.TouchedLevel | frontend/arb.js:3052-3060 | the last price touched is that of the level whose slice of the book holds the order's last token |
| FillLaws.AskMeanBetween | frontend/arb.js:3047-3063 | a buy's mean price lies between the best ask and the last ask touched |
| FillLaws.BidMeanBetween | frontend/arb.js:3047-3063 | a sale's mean price lies between the last bid touched and the best bid |
| FillLaws.AskMeanMonotone | frontend/arb.js:3047-3063 | a larger buy never has a better mean price, in either unit, for any two sizes |
| FillLaws.BidMeanAntitone | frontend/arb.js:3047-3063 | a larger sale never has a better mean price, in either unit, for any two sizes |
| FillLaws.PastDepth | frontend/arb.js:3047-3063 | past the full depth the mean price is constant: the whole book's cost over its quantity |
| FillLaws.UnitsInverse | frontend/arb.js:3053-3060 | spending exactly what some tokens within depth cost buys exactly those tokens at the same mean price |
| EntryExit.RoundTrip | frontend/arb.js:3076-3081 | on two live books entry plus exit equals 200·(bids/asks − 1) over the four mean prices and is strictly negative |
| EntryExit.PercentagesRead | frontend/arb.js:3079-3081 | entry times the sum of the two asks is 200 times what the short bid exceeds the long ask by, and exit likewise with the venues exchanged |
| EntryExit.RoundTripAntitone | frontend/arb.js:3069-3081 | the round trip never improves as the size grows, in either unit |
| EntryExit.InPctAntitone | frontend/arb.js:3079-3080 | entry never improves from a size at which it is not a loss |
| EntryExit.OutPctAntitone | frontend/arb.js:3079-3081 | exit never improves from a size at which it is not a loss |
| EntryExit.LosingEntryCanImprove | frontend/arb.js:3079-3080 | for any quotes at which entry is a loss, at any size in either unit, there are live books with those quotes on which a larger order improves entry |
| EntryExit.EntryNeverImprovesIff | frontend/arb.js:3079-3080 | quotes rule out a better entry for every larger order, on all live books that give them, if and only if entry is not a loss at them |
| EntryExit.ExitNeverImprovesIff | frontend/arb.js:3079-3081 | the same threshold is exact for exit |
| EntryExit.Sampler.TakeSample | frontend/arb.js:3064-3093 | nothing is recorded unless both sides of both books are quoted and priced; else the newest sample shows the two current percentages and is of now or less than 20 ms old, and no sample repeats the one before it within 20 ms |
| EntryExit.RecordedReads | frontend/arb.js:3086-3093 | recording keeps the history so |
| EntryExit.HistoryWindow | frontend/arb.js:3088-3093 | on a clock that never goes back the history is the newest samples of the last 1300 s, at most 2000; a sample is dropped only for its age or as the one oldest of a full history |
| BookGrouping.GroupBookLevels | frontend/arb.js:2665-2673 | one pass and a sort produce the grouping of the levels |
| BookGrouping.GroupingIsGrouping | frontend/arb.js:2665-2673 | the rows are exactly the occupied buckets, each once, highest first, each with the summed quantity of its levels |
| BookGrouping.GroupingUnique | frontend/arb.js:2665-2673 | that description determines the rows |
| BookGrouping.GroupingConserves | frontend/arb.js:2667-2671 | the quantity over any selection of buckets is the quantity of the raw levels in them |
| BookGrouping.TotalConserved | frontend/arb.js:2667-2671 | grouping loses no quantity |
| BookGrouping.PricesFall | frontend/arb.js:2668-2672 | displayed prices fall strictly and are whole multiples of the step |
| BookGrouping.BucketEncloses | frontend/arb.js:2668 | a price lies between its bucket's price and the next |
| BookGrouping.NeverCrosses | frontend/arb.js:2665-2673 | grouping an uncrossed book never shows a bid above an ask |
| BookGrouping.TickReads | frontend/arb.js:2652-2660 | the finest step is a power of ten from a millionth to one of which the price is ten thousand to a hundred thousand, as far as that range goes |
| BookGrouping.NextDepth | frontend/arb.js:2661-2664 | the first depth button shows the finest step and each next one makes it ten times as large |
| BookGrouping.GroupingNests | frontend/arb.js:2665-2673 | regrouping a grouped book at a multiple of its step equals grouping the raw book at that multiple |
| BookGrouping.DepthsNest | frontend/arb.js:2661-2673 | regrouping what one depth button shows gives what the next one shows |
| BookPool.BarsFit | frontend/arb.js:2922-2925 | every bar is at most 100 % and, for quantities that are not negative, at least 0 % |
| BookPool.TotalIsMoney | frontend/arb.js:2826 | the total column holds the money that buys the side from its top down to the row |
| BookPool.FullBarReads | frontend/arb.js:2923-2925 | a full bar is one or the largest quantity shown, whichever is more |
| BookPool.BarReads | frontend/arb.js:2826-2846 | a bar is the row's quantity as a percentage of that |
| BookPool.ShownIsNearest | frontend/arb.js:2919-2920 | each side shows its buckets dearest first, all of them or the 50 next to the other side |
| BookPool.BookRow.Show | frontend/arb.js:2832-2846 | writing only changed cells leaves the row showing exactly the new texts, whatever it remembered |
| BookPool.ApplyLevelsToPool | frontend/arb.js:2815-2848 | the patched pool shows the levels with running totals and bars, and hides the surplus rows |
| BookPool.NearestAsks | frontend/arb.js:2919 | the asks shown are the (at most 50) cheapest buckets, dearest first |
| BookPool.NearestBids | frontend/arb.js:2920 | the bids shown are the (at most 50) dearest buckets, dearest first |
| BookPool.BookPanel.EnsurePool | frontend/arb.js:2793-2801 | an existing pool is kept, else both sides are rebuilt with fresh rows |
| BookPool.BookPanel.RenderEmptyBook | frontend/arb.js:2803-2811 | an empty frame destroys the pool and shows the message |
| BookPool.BookPanel.RenderBook | frontend/arb.js:2906-2934 | from any earlier state a frame leaves the panel as a render of that frame from scratch: each shown row with its bucket's price and quantity, the money from the top of its side down to it, and its share of the fullest bar, and nothing in the rows below |
| BookPool.BookPanel.Replay | frontend/arb.js:2906-2934 | any run of frames, empty ones included, leaves the panel as a render of the last one from scratch |
| PairMatching.AccPairPositions | frontend/arb.js:5043-5103 | the loops compute the manual pairs, then the greedy pairs symbol by symbol, and the unused rows |
| PairMatching.PtPairPositions | frontend/arb.js:1949-1978 | the sibling computes the greedy pairs under the 10 % notional rule and the unused rows |
| PairReadings.AccCandidatesIff | frontend/arb.js:5075-5093 | two open positions are candidates on the account page if and only if they are a buy and a sell of one symbol and their sizes differ, relative to the larger, by what their entry prices differ relatively, give or take twelve points, stated without a quotient |
| PairReadings.PtCandidatesIff | frontend/arb.js:1959-1968 | on the trade page if and only if they are a buy and a sell in any letter case and their sizes differ by at most a tenth of the larger |
| PairReadings.AccPairsRead | frontend/arb.js:5043-5103 | every automatic pair is such a candidate, and no two singles are |
| PairReadings.SpreadAccepts | frontend/arb.js:5081-5090 | with both entry prices the deviation is the exact distance of the two relative differences, and twelve points are the limit |
| PairReadings.SpreadAcceptsSizes | frontend/arb.js:5085-5090 | without one of the entry prices the spread counts as none |
| PairReadings.NotionalAccepts | frontend/arb.js:1963-1968 | the sibling's deviation is the exact relative difference, and a tenth is the limit |
| PairReadings.SpreadPrefers | frontend/arb.js:5095 | of two candidates the rule prefers the one whose sizes are nearer to what its entry prices explain, cross-multiplied |
| PairReadings.SidesRead | frontend/arb.js:5075-5076 | the account page reads sides as written, the trade page without regard to letter case |
| PairReadings.TagReads | frontend/arb.js:5044-5048 | a row's size is the absolute value of quantity times mark, and its key the position's id or, for want of one, venue, symbol and place |
| PairReadings.FallbackKeysDiffer | frontend/arb.js:5046 | two rows without an id never share a key |
| PairReadings.FindLegIsFirst | frontend/arb.js:5060-5061 | a manual decision takes the first free row on each of its venues |
| PairReadings.SymbolsByFirstRow | frontend/arb.js:5049-5050 | groups come in the order of their first rows |
| PairReadings.CandidatesConcat | frontend/arb.js:5078 | candidates come long by long, in the order of the rows |
| PairReadings.GreedyTakesIff | frontend/arb.js:5096-5100 | the next candidate is taken if and only if no key of it is used or in a pair taken before it |
| PairReadings.UnusedIsFilter | frontend/arb.js:5102 | the singles are the unused rows in their order |
| PairMatching.GroupBySymbol | frontend/arb.js:5049-5050 | the groups are the rows of each symbol, in order of first appearance |
| PairMatching.PickGreedily | frontend/arb.js:5096-5100 | the loop takes every candidate whose legs are both free, best first, and records exactly the legs taken |
| PairLaws.GreedyBlocks | frontend/arb.js:5095-5100 | a free candidate is passed over only for a chosen one that shares a leg and deviates no more |
| PairLaws.NoBlockingPair | frontend/arb.js:5075-5101 | every acceptable pair of rows not taken by hand meets a chosen automatic pair that shares a leg and deviates no more, under any acceptance rule, the two of the source among them, wherever longs and shorts of different symbols share no key |
| PairKeys.NoBlockingIff | frontend/arb.js:5045-5101 | that condition is exact: no pair blocks at any sizes, prices and manual decisions if and only if longs and shorts of different symbols share no key |
| PairKeys.SharedIdBlocks | frontend/arb.js:5046 | four positions of two symbols, two of which share an id, for which a pair that fits exactly is broken by one that deviates by five points |
| PairLaws.NoPairAmongSingles | frontend/arb.js:5075-5102 | no acceptable pair is left with both legs among the singles, whatever keys the rows share |
| PairLaws.AtLeastHalfOfAnyMatching | frontend/arb.js:5075-5100 | any choice of acceptable pairs that uses no key twice has at most twice as many pairs as the greedy choice, under any acceptance rule, the two of the source among them, whatever keys the rows share |
| PairLaws.AtLeastHalfOfAnyRows | frontend/arb.js:5075-5100 | the bound holds against choices that use no row twice where no long and short of one symbol share keys with three row-disjoint pairs of that symbol or of symbols visited later |
| PairHalf.HalfBoundIff | frontend/arb.js:5043-5100 | that condition is exact: the bound over row-disjoint choices holds at all sizes, prices and manual decisions if and only if it is met |
| PairHalf.SixRowsBreakHalf | frontend/arb.js:5046 | three longs and three shorts of one symbol with one id could make three pairs, and one is made |
| PairLaws.NoThirdRowSuffices | frontend/arb.js:5046 | the condition is met where no third row has the key of a long or short of one symbol |
| PairLaws.FewRowsSuffice | frontend/arb.js:5046 | it is met by any list of fewer than six rows |
| PairLaws.OneKeyOnePair | frontend/arb.js:5096-5100 | rows that all have one key make at most one pair, however many of them there are |
| PairLaws.DistinctKeysSuffice | frontend/arb.js:5044-5048 | distinct row keys meet both conditions on keys |
| PairLaws.ManualMembers | frontend/arb.js:5054-5065 | manual pairs are disjoint and each is a buy and a sell on the exchanges and symbol the user named |
| PairLaws.ManualHonouredIff | frontend/arb.js:5057-5064 | a manual decision makes a pair exactly when both of its legs are open and free at its turn |
| PairLaws.SourceRulesSided | frontend/arb.js:5075-5076 | both rules take every buy for a long and every sell for a short, and their longs and shorts are on different sides, which is what the next results ask of a rule |
| PairLaws.PairsSound | frontend/arb.js:5051-5103 | no row is in two pairs, each pair has one symbol and opposite sides, each is as asked by hand or within the rule, and automatic pairs use no leg of a manual one |
| PairConservation.EveryRowOnce | frontend/arb.js:5043-5103 | where no third row has the key of a long or short of one symbol, every row appears exactly once across long legs, short legs and singles |
| PairConservation.TotalsPreserved | frontend/arb.js:5043-5103 | so any per-row total is the same before and after pairing |
| PairKeys.ConservesIff | frontend/arb.js:5043-5103 | that condition is exact: every row is shown once at any sizes, prices and manual decisions if and only if no third row has the key of a long or short of one symbol |
| PairConservation.ThirdRowLost | frontend/arb.js:5096-5102 | beside the only acceptable pair a third row with the key of one of its legs is shown nowhere |
| PairConservation.ThreeVenuesLoseRow | frontend/arb.js:5046 | three positions of one symbol on three venues that name positions by symbol, of which one is shown nowhere |
| ArbFeed.SoftFeed.ApplyPayload | frontend/screener.js:284-354 | a snapshot or diff upserts its rows, cancels their deletions, starts deletions of dropped rows that are not pending, and the flat array equals the map's values in order |
| ArbNames.RemovedByName | frontend/screener.js:309-312 | the parts, or the text, by which the server names a dropped opportunity make the name under which its row is kept |
| ArbNames.SameRowIff | frontend/screener.js:272 | two opportunities share a row if and only if symbol, long venue and short venue agree, unless a bar occurs in one of the first two |
| ArbNames.DiffShows | frontend/screener.js:294-326 | after a diff a name it removes is not live, whatever else it says of it; any other shows its newest update, else its newest addition, else what it showed before |
| ArbNames.SnapshotShows | frontend/screener.js:329-349 | after a snapshot a name shows the snapshot's newest row of it, if any |
| ArbNames.RemovalTakesOut | frontend/screener.js:309-323 | a diff that removes one opportunity takes exactly that one out of the live rows, and its timer takes it off the screen |
| ArbNames.FireTakesOff | frontend/screener.js:316-322 | on a page a set timer takes exactly its row off and is not set any more; one that is not set does nothing |
| ArbFeed.SoftFeed.Fire | frontend/screener.js:316-322 | the end of a grace period removes the row and its timer, and the flat array follows |
| ArbFeed.SoftFeed.Play | frontend/screener.js:2297-2400 | any run of socket messages, flushes and timers leaves rows, timers and slot as specified: a message overwrites the slot, a flush applies and empties it, only a set timer goes off |
| ArbFeed.SoftFeed.FlushPending | frontend/screener.js:2305-2309 | a flush applies the slot's message, if any, and empties the slot |
| ArbFeed.HardFeed.ApplyPayload | frontend/screener.js:1482-1498 | the sibling feed clears on a snapshot and deletes at once, and its flat array equals the map's values |
| ArbFeed.HardMeaning | frontend/screener.js:1482-1498 | the immediate feed computes the intended set of live rows |
| ArbFeed.SoftMeaning | frontend/screener.js:284-354 | one payload has the intended effect on the rows without a pending deletion |
| ArbFeed.SnapshotMeaning | frontend/screener.js:329-349 | after a snapshot the live rows are exactly the snapshot's, whatever was there |
| ArbFeed.ScreenKeysDistinct | frontend/screener.js:270-353 | no two rows of the flat array share a key |
| ArbFeedRuns.SoftRefinesHard | frontend/screener.js:284-354 | for every interleaving of messages and timers the rows without a pending deletion equal the rows of the immediate feed |
| ArbFeedRuns.ScreenIsExactIff | frontend/screener.js:274-281 | the screen equals the server's rows if and only if no row on it is waiting to be deleted |
| ArbFeedRuns.DeadlineFromDrop | frontend/screener.js:290-349 | a row on screen has a deletion pending exactly when the server dropped it, due 12 s after the drop: repeats do not move it, any mention clears it |
| ArbFeedRuns.DroppedRowsLeaveInTime | frontend/screener.js:281-323 | with timers at most some time late no dropped row is on screen longer than 12 s and that lateness after the message that dropped it |
| ArbFeedRuns.RowsLeaveOnlyAfterGrace | frontend/screener.js:316-323 | a timer that takes a row off screen does so at least 12 s after the drop and only for a row the server no longer has |
| ArbFeedRuns.SlotExactIff | frontend/screener.js:2297-2400 | flushing only the newest message gives the same live rows as applying all if and only if the overwritten ones changed nothing outside what the newest decides |
| ArbFeedRuns.SlotExactForSnapshots | frontend/screener.js:2297-2400 | a snapshot in the slot makes up for everything it overwrote |
| ArbFeedRuns.SlotLosesDiffs | frontend/screener.js:2397-2400 | two diffs for which the flush loses a row |
| ArbSlotRuns.PageMeaning | frontend/screener.js:2297-2400 | over any run of messages, flushes and timers the live rows are the meaning of the applied messages in order |
| ArbSlotRuns.SlotIsPending | frontend/screener.js:2305-2400 | the slot holds the newest received message, unless a flush has come since |
| ArbSlotRuns.PageExactIff | frontend/screener.js:2297-2400 | after any run the live rows are the server's if and only if, for every key, the newest applied message that decides it says what the newest received one says |
| ArbSlotRuns.SnapshotHeals | frontend/screener.js:2297-2400 | once a snapshot and everything after it is applied, the live rows are the server's, whatever was lost before |
| ArbSlotRuns.InTimeIsExact | frontend/screener.js:2297-2400 | a page whose slot is empty at every message lags behind the server by the waiting message and no more |
| KeyedTable.TableBody.RenderArb | frontend/screener.js:2804-2846 | the body ends with exactly the page's rows in page order: row i drawn from the filtered row at page index times page size plus i, up to the end of the page or of the rows, in the node it already had or a new one; keys stay distinct; no insert happens if and only if the surviving rows already match, and rows that kept their order cost one insert per new row only |
| KeyedTable.RowOnPage | frontend/screener.js:2806-2807 | every filtered row is on the page that its place names, at its place there |
| KeyedTable.PagesJoin | frontend/screener.js:2806-2807 | the pages in order are the filtered rows in order |
| KeyedTable.SurvivorsIsFilter | frontend/screener.js:2826-2830 | the rows that survive keep their order |
| KeyedTable.TableBody.Prune | frontend/screener.js:2826-2830 | removing placeholders and unlisted rows leaves the surviving rows in order, indexed by key |
| KeyedTable.TableBody.Reposition | frontend/screener.js:2831-2842 | the indexed loop puts the page's nodes in order, reusing each survivor |
| KeyedTable.PassStep | frontend/screener.js:2831-2842 | filling one place keeps the placed prefix final and the waiting rows exactly the survivors still to come |
| KeyedTable.PutInPlace | frontend/screener.js:2840-2841 | moving or inserting before the child at the place puts the node right behind the placed prefix |
| KeyedTable.PruneIsSurvivors | frontend/screener.js:2826-2830 | the two removal loops leave the listed keyed rows in their order |
| KeyedTable.FilteredFeedKeysDistinct | frontend/screener.js:2514-2548 | rows cut from the live feed by any filter and sort have distinct keys, so a render may be fed with them |
| LeaderLock.Store.SetIfAbsent | app.py:200 | the lock is written only when no live entry exists |
| LeaderLock.Store.SetIfPresent | app.py:192 | the lock is written only when a live entry exists, whoever owns it |
| LeaderLock.Worker.LoopBody | app.py:179-205 | one round of the loop changes leadership and lock as specified, for a missing store, a failing call and an answer |
| LeaderLock.Worker.Release | app.py:210-219 | the stop function's body ends the loop and deletes the lock exactly for a leader whose store answers, whoever the lock names |
| LeaderLock.Worker.Shutdown | app.py:327-333 | the loop over the stop functions releases the lock only if it awaits them; as written it leaves lock and loop alone |
| LeaderElection.MutualExclusion | app.py:176-206 | in every run of any number of processes in which the store answers and no leader lets its write expire, at most one process leads, the lock is live and names it |
| LeaderElection.PunctualIsPrompt | app.py:190-206 | processes that oversleep by less than 20 s never let a write expire |
| LeaderElection.PunctualExclusion | app.py:176-206 | so at most one process leads |
| LeaderElection.SecondLeaderIff | app.py:189-203 | a poll by another process makes a second leader exactly when the leader's write has expired |
| LeaderElection.EveryoneLeadsWithoutStore | app.py:183-188 | without a store client every process whose supervisor starts becomes a leader, one beside the other, and the lock is left alone |
| LeaderElection.NothingChangesOnFailure | app.py:183-205 | a failed start without a client and a failing call change neither leaders nor lock |
| LeaderElection.FailedStartBlocks | app.py:200-205 | a process that takes the lock and then fails to start does not lead and keeps everyone else from leading for 30 s |
| LeaderElection.LeadersNeverStepDown | app.py:190-198 | while the lock is live whenever leaders poll, no leader ever steps down, however many there are |
| LeaderElection.SplitBrainLasts | app.py:190-198 | two leaders that both renew stay leaders for any number of rounds |
| LeaderElection.TwoLeadersWithoutTheBound | app.py:189-206 | with 20 s of oversleeping there is a run that ends in two lasting leaders |
| LeaderElection.DroppedStopIsCrash | app.py:327-333 | a shutdown leaves all processes and the lock as a crash does if and only if it is not an awaited release by a leader that finds a lock to delete |
| LeaderElection.NobodyLeadsBeforeExpiry | app.py:189-206 | after a leader's death or unreleased shutdown nobody leads and the lock stands until the old lock's expiry, whatever the other processes do |
| LeaderElection.Failover | app.py:189-206 | that expiry is at most 30 s away, and within one further poll period of survivors that poll on time exactly one survivor leads and holds the live lock |
| LeaderElection.AwaitedHandOver | app.py:210-219 | were the release awaited, exactly one survivor would lead and hold the live lock within one poll period of the shutdown |
| LeaderElection.StopInSplitBrain | app.py:210-219 | between two leaders an awaited release deletes the lock under the other: at whatever time the next poll comes, it makes that leader step down or a third process lead beside it |
| LeaderElection.DroppedStopInSplitBrain | app.py:327-333 | a dropped release leaves the lock, and the other leader keeps its lead exactly if it polls before the lock expires |
| Candles.LiveChart.constructor | frontend/arb.js:954-957 | the chart starts from the newest saved candles that are recent enough, the last one open |
| Candles.LiveChart.PushSample | frontend/arb.js:970-982 | a sample patches the open candle in place or starts the next one, keeping the newest 1200 |
| Candles.LiveChart.PushRun | frontend/arb.js:970-982 | any run of samples leaves the newest 1200 candles of the unlimited chart |
| Candles.BuildCandles | frontend/arb.js:3111-3130 | one pass builds both the entry and the exit chart |
| Candles.SeriesRead | frontend/arb.js:3118-3120 | the first chart is of the entry percentages, the second of the exit percentages |
| Candles.BucketReads | frontend/arb.js:3119 | a bucket starts at the last whole multiple of its size not after the time |
| Candles.RecentIsFilter | frontend/arb.js:954-957 | the saved candles kept are those not older than the cutoff, in order |
| Candles.NewestReads | frontend/arb.js:981 | trimming keeps the end of the list, as much as the limit allows |
| CandleLaws.ChartIsChart | frontend/arb.js:970-982 | as long as no reading goes back to an earlier bucket the incremental chart has one candle per occupied bucket, times rising, with first, highest, lowest and last value |
| CandleOrder.ChartIsChartIff | frontend/arb.js:970-982 | and only then is it right |
| CandleLaws.BatchIsChart | frontend/arb.js:3111-3130 | the batch chart has the same property for a history in any order |
| CandleLaws.ChartUnique | frontend/arb.js:3111-3130 | samples determine their chart |
| CandleOrder.BatchIsIncrementalIff | frontend/arb.js:3111-3130 | the two builds agree if and only if no reading goes back to an earlier bucket |
| CandleOrder.StepBackParts | frontend/arb.js:970-982 | two readings, the second a millisecond earlier and in an earlier bucket, on which they differ |
| CandleOrder.LiveIsNewestOfBatch | frontend/arb.js:3111-3130 | the live chart is the newest 1200 candles of the batch build if no reading goes back to an earlier bucket, and only then while nothing was trimmed |
| CandleLaws.CoarseningExact | frontend/arb.js:970-982 | joining the candles of a bucket size gives exactly the candles of any multiple of it |
| CandleOrder.BatchCoarsensIff | frontend/arb.js:3104-3130 | for the batch build, in any order of readings, it does so if and only if in every coarse bucket the first and last value are those of the readings in order of fine buckets |
| CandleOrder.BatchCoarsens | frontend/arb.js:3104-3130 | which holds when no reading goes back to an earlier fine bucket |
| CandleOrder.StepBackSpoilsJoin | frontend/arb.js:3104-3130 | and fails for two readings of unlike value that step back to an earlier fine bucket of the same coarse one |
| CandleLaws.EvictionIsLocal | frontend/arb.js:3088-3130 | evicting the oldest sample changes no candle outside its bucket |
| LastGood.PositionMemory.MergeRows | frontend/arb.js:23-41 | one poll updates the cache and returns the merged rows as specified |
| LastGood.PositionMemory.Play | frontend/arb.js:21-44 | any run of polls and closes leaves the cache and shows the rows that the specification gives |
| LastGoodLaws.ScopesApartIff | frontend/arb.js:32-39 | over all runs of polls of some scopes every poll shows what it should if and only if no scope's name continues another's after a bar |
| LastGoodLaws.ContinuedScopeLeaks | frontend/arb.js:35-39 | a scope whose name does so shows its rows under the other scope, which never had any |
| LastGoodLaws.PageScopesApart | frontend/arb.js:1861 | the two scopes that a page polls never mix, whatever the symbol |
| LastGoodLaws.RunRemembers | frontend/arb.js:23-41 | over any run and whatever the scopes are called the cache holds exactly what was last seen, except what was too old at an earlier poll |
| LastGoodLaws.PollShows | frontend/arb.js:21-44 | unless a polled scope continues this one, a poll shows for every wallet its current rows if any, else the rows last seen in that scope since the last clear if at most 30 s old, else nothing |
| LastGoodLaws.CurrentRowsFirst | frontend/arb.js:33-40 | a poll shows the current rows first, as they came |
| LastGoodLaws.PollSweeps | frontend/arb.js:32-38 | after a poll the cache holds the response's rows and nothing else of the scope that is more than 30 s old |
| LastGoodLaws.OfWalletIsFilter | frontend/arb.js:26-31 | a wallet's rows are its rows of the response, in order |
| LastGoodLaws.WalletPlaces | frontend/arb.js:26-31 | wallets take their places with their first rows |
| LastGoodLaws.ShownAt | frontend/arb.js:23-41 | what a run shows at each poll is what that poll shows of the cache before it |
| LastGoodLaws.ClearForgets | frontend/arb.js:42-44 | nothing from before a clear has any later effect |
| AllocSlider.CapIsExact | frontend/arb.js:6808-6824 | both legs can fund a notional if and only if it does not exceed the cap, for both pair kinds |
| AllocSlider.LtPanel.CapReads | frontend/arb.js:6814-6824 | with the panel's balances and leverage, none counting as one, the cap is what both legs can fund |
| AllocSlider.LtPanel.OnAlloc | frontend/arb.js:6872-6882 | the slider writes its share of the cap into the input, if there is a cap |
| AllocSlider.LtPanel.OnQtyInput | frontend/arb.js:6884-6896 | typing moves the slider to the clamped nearest percent, if there is a cap |
| AllocSlider.PositionReads | frontend/arb.js:6884-6892 | the position is the nearest percent of the cap that the quantity is worth, between 0 and 100 |
| AllocSlider.WorthReads | frontend/arb.js:6857-6862 | a quantity is worth itself in USDT, and times the price, if there is one, in tokens |
| AllocSlider.NoTokensWithoutPrice | frontend/arb.js:6866-6870 | without a price the slider writes no tokens |
| AllocSlider.LtPanel.MoveAndReadBack | frontend/arb.js:6872-6896 | moving the slider and reading the input back leaves the slider at the position whose exactness SliderRoundTripIff decides |
| AllocSlider.LtPanel.SetUnit | frontend/arb.js:6826-6843 | a unit switch re-expresses the quantity and resyncs the slider |
| AllocSlider.NotionalInGrains | frontend/arb.js:6857-6870 | the notional behind the input is the exact share rounded to whole steps of the last decimal, and nothing in tokens without a price |
| AllocSlider.NotionalNearShare | frontend/arb.js:6866-6880 | it misses the exact share by at most half a step, 0.005 USDT in USDT mode, if and only if the unit has a price |
| AllocSlider.FullSliderWithinCapIff | frontend/arb.js:6872-6880 | at 100 % the order stays within the cap exactly when the cap's fraction of a step is below one half; without a price nothing is ordered |
| AllocSlider.SliderRoundTripIff | frontend/arb.js:6872-6896 | slider to input to slider returns every percent if and only if there is no cap, or the unit has a price and the cap is worth at least 99.5 steps |
| AllocSlider.SliderRoundTripThreshold | frontend/arb.js:6872-6896 | in numbers: no cap, or at least 0.995 USDT, or with a price at least 0.0000995 tokens' worth |
| AllocSlider.UnitSwitchKeepsNotional | frontend/arb.js:6826-6843 | with a price a unit switch keeps the worth of a positive quantity to within half a step of the new unit; otherwise the number stands, so without a price tokens worth nothing become as many USDT |
| AllocSlider.PrintedWhole | frontend/arb.js:6839 | the new quantity is a whole number of hundredths or millionths |
| JsMap.SetContent | frontend/screener.js:337 | setting a key keeps keys distinct and changes that key only |
| JsMap.DeleteContent | frontend/screener.js:318 | deleting a key keeps keys distinct and changes that key only |
| JsMap.SetOrder | frontend/screener.js:337 | a present key keeps its place and a new one goes to the end |
| JsMap.DeleteOrder | frontend/screener.js:318 | the other keys keep their order |
| JsSort.SortSorted | frontend/arb.js:5095 | the sort orders by rank |
| JsSort.SortStable | frontend/arb.js:5095 | elements of equal rank keep their order |
| Text.DecimalRoundTrip | frontend/arb.js:32-36 | a number printed into a cache key and read back is the same number |

## Left out

- Binary floating point: all arithmetic is exact, so rounding in the last bits of prices, of the ten-decimal bucket keys and of percentages is not modelled; the decimal rounding of the input box is.
- Drawing: flash animations, dot pulses, mid price, colours, tooltips, share cards, card views and the chart library.
- The full cell text of table rows: a row node remembers the data it was last drawn from; fee, status and health cells are not refreshed by the source's patch and are not compared.
- The table feed's fees and exchange list, which each payload may replace wholesale.
- The order of symbol groups whose names look like integers, which the source's object visits first; with it the turn of such symbols, and so the order of pairs and, where symbols share a key, which of their pairs is made, is that of first appearance in the model.
- Letter case outside ASCII in the side of a position.
- Trade coalescing, which keeps the last price and flash of each side per frame.
- Network, socket reconnection, browser storage limits, authentication and the services behind the API, including what the user-stream supervisor does once started or stopped.
- A lock write that takes effect although its call fails: a failing call leaves the lock as it was.
- The endless loop itself: one round is a method, and runs are sequences of rounds of any processes at any times.
- Loads of the table over HTTP while a socket message waits in the slot: a run of the slot has socket messages, flushes and timers only.
- Snapshots of the funding table that drop rows without a symbol or exchange; its diffs follow the immediate feed.
