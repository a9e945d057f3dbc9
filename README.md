# 32-team dynasty trade calculator: a verified model of its core

This project models the logic at the core of a fantasy-football dynasty trade
calculator for 32-team leagues. The model is written in Dafny.

The calculator does five things:

- It projects each roster's draft slot from reverse standings.
- It resolves who currently owns every future draft pick, from the rosters,
  the league's traded-pick records and a pick-value curve.
- It labels picks `"YYYY R.PP"` and values them from the curve.
- It loads the player-value and pick-value CSV files.
- It lets a user build two trade sides, total them and grade the trade.

The model follows the program's own structure:

- **Pure helpers become functions.** Pick labels, overall pick numbers, the
  drop adjustment, the grade ladders, position normalisation, the CSV row
  mapping and the filter predicate are Dafny functions.
- **Loops become methods proved against functions.** The CSV tokenizer, the
  two loader loops, the slot projector, every loop of `computeOwnedPicks`,
  `pickValuesToMap`, `ownerByPlayerId` and the position scan are methods. Each
  method's `ensures` says it computes the function that specifies it, and the
  properties the program promises are lemmas about those functions.
- **State becomes classes.** The state-changing handlers of the two screens
  are methods of `TradeSides.TradeBoard` (sides A and B and the hidden ids) and
  `TradeApp.Screen` (the two sides, team needs and the value range). Their
  `Valid()` invariant is kept by every handler.

JavaScript values are modelled explicitly:

- **Numbers.** An integer that may be `NaN` is `Numbers.Num`. A number with
  a fraction is written as `units / 10^scale` (the `Decimal` field case), and
  fraction-keeping readings of numbers are `Option<real>`, with `None` for
  `NaN`. Asset values are `real`.
- **Records and coercions.** Dynamically typed record fields are
  `JsValues.Field`. `String(x)`, `Number(x)`, `??` and truthiness are
  functions over that type.
- **Maps.** A `Map` or object whose insertion order matters is
  `JsMaps.OrderedMap`: a key sequence plus a map.
- **Sorting.** `Array.prototype.sort` is a stable insertion sort on
  sequences, `Sorting.SortBy`.

Module by file:

| file | module | source |
|---|---|---|
| picks.dfy | Picks | src/utils/picks.ts |
| drop_adjustment.dfy | DropAdjustment | src/logic/dropAdjustment.ts |
| grades.dfy | Grades | src/components/Grades.tsx (`computeTotal`) |
| positions.dfy | Positions | src/utils/positions.ts |
| slot_projection.dfy | SlotProjection | src/logic/slotProjection.ts |
| owned_picks.dfy | OwnedPicks | src/logic/ownedPicks.ts (specification functions) |
| owned_picks_engine.dfy | OwnedPicksEngine | src/logic/ownedPicks.ts (the loops) |
| owned_picks_properties.dfy | OwnedPicksProperties | src/logic/ownedPicks.ts (end-to-end properties) |
| trade_calculator.dfy | TradeCalculator | src/pages/TradeCalculatorPage.tsx (pure helpers, map-building loops) |
| trade_board.dfy | TradeSides | src/pages/TradeCalculatorPage.tsx (trade-side state) |
| app.dfy | TradeApp | src/App.tsx |
| csv.dfy | Csv | `parseCSV` in src/data/loaders.ts |
| loaders.dfy | Loaders | src/data/loaders.ts (after the fetch) |
| load_pick_curve.dfy | LoadPickCurve | src/data/loadPickCurve.ts (row mapping) |
| strings.dfy, numbers.dfy, js_values.dfy, js_map.dfy, sorting.dfy, wrappers.dfy | shared | JavaScript string, number, record, map and sort semantics |

Behaviour kept exactly as the code does it:

- **The "C" rung of `gradeFromEdge` is dead.** The rung tests `edgePct > 0`,
  but it comes after `edgePct >= 0`, so it can never fire.
  `TradeCalculator.GradeNeverC` proves that `"C"` is never returned.
- **Negative origin ids decode to 0.** `computeOwnedPicks` decodes its keys
  with `key.split("-")`. A negative origin id writes a second dash into the
  key, so its third part is `""` and `Number("")` is 0. See
  `OwnedPicks.DecodePickKey` and `OwnedPicksProperties.DecodedOrigin`.
- **`gradeTrade`'s denominator is simpler than it looks.**
  `Math.min(base, base + |diff|)` is always `base`, so the denominator is
  `max(1, base)` (`TradeApp.TradePctDenominator`).
- **Later rows overwrite earlier ones.** In both loaders, `pickValuesToMap`
  and `ownerByPlayerId`, the last row with a given key wins.

## Model

Some members are plain definitions with no contract of their own; the rows
below state what they mean: `DropAdjustment.PieceCount`,
`Positions.OrElse`, `SlotProjection.RosterList`, `OwnedPicks.ValueOf`,
`TradeCalculator.SlotOf`, `TradeCalculator.OrQuestion`,
`TradeCalculator.LetterRank`, `TradeSides.Ids`, `TradeApp.IdsOf`,
`Csv.Finish`, `Loaders.Cell`, `Loaders.TrimAll`, `Loaders.ColumnOr`,
`Loaders.BySeasonRoundPick` (see `Loaders.CurveByTriple`), `Numbers.NumOr`,
`Numbers.Pad2Num`, `Numbers.CellReal`, `Numbers.ToNum`, `JsValues.Coalesce`, `JsValues.JsNumber`,
`JsValues.JsReal` and `JsMaps.OrderedMap.GetOr`.

| member | source | states |
|---|---|---|
| Picks.BuildPickNamePadding | src/utils/picks.ts:11-13 | a pick below 10 gets one leading zero; a pick of 10 or more is written unpadded |
| Picks.PickKeySplits | src/utils/picks.ts:4-5 | for a dash-free season and non-negative numbers, the dash key splits back into season, round and pick |
| Picks.OverallFromInjective | src/utils/picks.ts:7-9 | for picks in 1..teams, equal overall numbers mean equal round and pick |
| Picks.OverallFromRange | src/utils/picks.ts:7-9 | round r with a pick in 1..teams numbers its picks in ((r - 1) * teams, r * teams] |
| DropAdjustment.ApplyDropAdjustment | src/logic/dropAdjustment.ts:10-23 | the result lies between 0 and the base total, on whichever side of 0 the base is |
| DropAdjustment.DropAdjustmentCases | src/logic/dropAdjustment.ts:18-22 | at most 2 pieces return the base unchanged; more than 2 return exactly base * 0.95 |
| DropAdjustment.DependsOnlyOnCounts | src/logic/dropAdjustment.ts:15-22 | two sides with the same number of pieces get the same adjustment, whatever the pieces are |
| DropAdjustment.DropAdjustmentMonotone | src/logic/dropAdjustment.ts:15-22 | on the same pieces, a larger base total never gives a smaller result |
| Grades.ComputeTotal | src/components/Grades.tsx:18-30 | the total is the player sum (missing value_final_1000 is 0) plus the pick sum (missing value is 0); it is cut to exactly 95% only when the flag is on and the side holds more than two pieces; with non-negative values it lies between 0 and the plain sum |
| Grades.PlayerSumAppend | src/components/Grades.tsx:19-22 | the player sum of two concatenated lists is the sum of their sums |
| Grades.PlayerSumNonNegative | src/components/Grades.tsx:19-22 | non-negative player values give a non-negative sum |
| Grades.PickSumNonNegative | src/components/Grades.tsx:23 | non-negative pick values give a non-negative sum |
| Positions.PickPos | src/utils/positions.ts:23-26 | the result is the base position whose code is the upper-cased text, or null when no code equals it |
| Positions.OtherThan | src/utils/positions.ts:31 | a second component is kept only when present and different from the first |
| Positions.ContainedCodes | src/utils/positions.ts:40-43 | exactly the listed base positions whose code occurs in the upper-cased text |
| Positions.FirstTwoContained | src/utils/positions.ts:39-43 | the scan loop with its early break returns the first two contained codes, or all of them when fewer |
| Positions.ScanCodes | src/utils/positions.ts:16-43 | over BASE_POS, the scan returns the first two contained codes, or all of them when fewer |
| Positions.ContainedPrefix | src/utils/positions.ts:40-43 | the codes found in a prefix of the list are a prefix of those found in the whole list |
| Positions.NormalizeDualPositions | src/utils/positions.ts:19-48 | all four branches; a valid primary comes first and the second never repeats the first; arrays use only items 0 and 1, slash strings their two trimmed parts, longer text its first two codes; otherwise [primary, null] |
| Positions.SplitHasTwoParts | src/utils/positions.ts:33-34 | a string containing "/" splits into at least two parts, so the destructuring gets both |
| SlotProjection.SortStandings | src/logic/slotProjection.ts:43-54 | the sort is a permutation of the list |
| SlotProjection.BuildReverseOrderSlotProjection | src/logic/slotProjection.ts:26-65 | the slice, sort and slot loop produce SlotsFrom(SortStandings(list)), whatever `years` is |
| SlotProjection.BuildSlotProjection | src/logic/slotProjection.ts:72-77 | the page's wrapper gives the same map as buildReverseOrderSlotProjection |
| SlotProjection.BeforePreorder | src/logic/slotProjection.ts:43-54 | the comparator (wins, then fpts, then roster id, with missing values as 0) is total and transitive |
| SlotProjection.SortStandingsSorted | src/logic/slotProjection.ts:43-54 | the sorted list is ordered by wins, then points-for, then roster id |
| SlotProjection.SlotsKeys | src/logic/slotProjection.ts:57-62 | an id gets a slot exactly when it is >= 0 and some listed roster has it |
| SlotProjection.SlotsLast | src/logic/slotProjection.ts:58-61 | an id's slot is one more than the index of its last occurrence in the list |
| SlotProjection.SlotsRange | src/logic/slotProjection.ts:58-61 | every slot lies in 1..N |
| SlotProjection.SlotKeysAreRosterIds | src/logic/slotProjection.ts:60-61 | the projection's keys are exactly the non-negative ids of the input rosters; a missing id (coerced to -1) gets none |
| SlotProjection.DistinctSlots | src/logic/slotProjection.ts:58-61 | among distinct rosters, the roster at index i gets slot i + 1 |
| SlotProjection.SortedSlotsOrder | src/logic/slotProjection.ts:57-62 | in a sorted list, a roster that sorts strictly first gets the strictly smaller slot |
| SlotProjection.SlotIndex | src/logic/slotProjection.ts:58-61 | when ids identify rosters, slot - 1 indexes that very roster |
| SlotProjection.SortedIndexOrder | src/logic/slotProjection.ts:43-54 | in a sorted list, a roster that does not sort before another sits at a larger index |
| SlotProjection.WorseRecordPicksEarlier | src/logic/slotProjection.ts:44-61 | fewer wins (or equal wins and fewer points, or then a lower id) gives a strictly smaller slot |
| SlotProjection.SlotsAreOneToN | src/logic/slotProjection.ts:40-62 | for distinct rosters with ids >= 0, every roster gets a slot, all slots are in 1..N, and the i-th in standings order gets i + 1, a bijection onto 1..N |
| OwnedPicks.LeadingSpace | src/logic/ownedPicks.ts:55 | the length of the maximal white-space prefix (the `\s+` of the pattern) |
| OwnedPicks.MatchPickLabel | src/logic/ownedPicks.ts:55 | a match captures the key's first four characters, all digits, as the season |
| OwnedPicks.MatchBuildPickName | src/logic/ownedPicks.ts:55 | the canonical label of a four-digit season and a slot below 100 matches, giving back its season and round |
| OwnedPicks.MatchLabelParts | src/logic/ownedPicks.ts:55 | four digits, a space, round digits, a dot and two digits match, with the round read from its digits |
| OwnedPicks.SeasonsSeen | src/logic/ownedPicks.ts:52-59 | the season Set: no repeats, and it holds exactly the seasons of matching keys |
| OwnedPicks.RoundsSeen | src/logic/ownedPicks.ts:53-59 | the round Set: no repeats, and it holds exactly the rounds of matching keys |
| OwnedPicks.InferSeasonsSpec | src/logic/ownedPicks.ts:51-61 | seasons are the matching keys' seasons, each once, in string order, each four digits |
| OwnedPicks.InferRoundsSpec | src/logic/ownedPicks.ts:51-62 | rounds are the matching keys' rounds, each once, in numeric order |
| OwnedPicks.MatchGivesGrid | src/logic/ownedPicks.ts:54-59 | one matching curve key yields both a season and a round |
| OwnedPicks.GridGivesMatch | src/logic/ownedPicks.ts:54-59 | a season or round is only inferred from a matching key |
| OwnedPicks.InferEmptyTogether | src/logic/ownedPicks.ts:54-62 | no seasons exactly when no rounds, exactly when no key matches |
| OwnedPicks.PickKeyParts | src/logic/ownedPicks.ts:90 | a key built from a dash-free season and a round >= 0 gives back its season, round and origin |
| OwnedPicks.PickKeyInjective | src/logic/ownedPicks.ts:90 | distinct (season, round, origin) triples get distinct keys |
| OwnedPicks.SeedOriginsValid | src/logic/ownedPicks.ts:89-91 | the inner loop keeps the map well formed and every key owned by its origin |
| OwnedPicks.SeedOriginsKeys | src/logic/ownedPicks.ts:89-91 | the inner loop adds exactly the keys of its season, round and origins |
| OwnedPicks.SeedOriginsCount | src/logic/ownedPicks.ts:89-91 | with new keys and no repeated origin, the inner loop adds one key per origin |
| OwnedPicks.SeedRoundsValid | src/logic/ownedPicks.ts:88-92 | the middle loop keeps the map well formed and self-owned |
| OwnedPicks.SeedRoundsKeys | src/logic/ownedPicks.ts:88-92 | the middle loop adds exactly the keys of its season's rounds and origins |
| OwnedPicks.SeedRoundsCount | src/logic/ownedPicks.ts:88-92 | the middle loop adds |rounds| * |origins| new keys |
| OwnedPicks.SeedSeasonsValid | src/logic/ownedPicks.ts:87-93 | the outer loop keeps the map well formed and self-owned |
| OwnedPicks.SeedSeasonsKeys | src/logic/ownedPicks.ts:87-93 | the outer loop adds exactly the keys of the season x round x origin grid |
| OwnedPicks.SeedSeasonsCount | src/logic/ownedPicks.ts:87-93 | with no repeats, the triple loop creates |seasons| * (|rounds| * |origins|) keys |
| OwnedPicks.BaselineSpec | src/logic/ownedPicks.ts:84-93 | before trades, the keys are exactly the grid, each owned by its origin, and there are |seasons| * |rounds| * |rosters| of them |
| OwnedPicks.TradeKey | src/logic/ownedPicks.ts:96-100 | a record with finite round and origin addresses `${season}-${round}-${origin}` |
| OwnedPicks.LastOwnerNone | src/logic/ownedPicks.ts:95-105 | a key has no last owner exactly when no record addresses it |
| OwnedPicks.LastOwnerLast | src/logic/ownedPicks.ts:95-105 | the last owner is that of the last record addressing the key |
| OwnedPicks.ReplaySpec | src/logic/ownedPicks.ts:95-105 | the trade loop adds and reorders no keys; each owner becomes the last addressing record's owner, or stays |
| OwnedPicks.DecodePickKey | src/logic/ownedPicks.ts:110-112 | a grid key decodes to its season and round, and to its origin when >= 0; a negative origin decodes to 0 |
| OwnedPicks.NegativeKeySplits | src/logic/ownedPicks.ts:110 | a key with a negative origin splits into four parts, the third empty |
| OwnedPicks.MakeLabel | src/logic/ownedPicks.ts:39-48 | the label uses the origin's slot: "YYYY R.PP" when it has one, otherwise "pick-season-round-origin" |
| OwnedPicks.MakeLabelFallback | src/logic/ownedPicks.ts:45-46 | a fallback label never matches the curve pattern |
| OwnedPicks.MakeLabelMatches | src/logic/ownedPicks.ts:45-47 | a label from a slot below 100 is a curve label of the same season and round |
| OwnedPicks.OwnedBy | src/logic/ownedPicks.ts:131-138 | an owner's bucket holds only entries of `all` with that owner |
| OwnedPicks.GroupByOwnerKeys | src/logic/ownedPicks.ts:131-138 | a bucket exists exactly for the owners of some entry |
| OwnedPicks.GroupByOwnerValues | src/logic/ownedPicks.ts:131-138 | each bucket is its owner's entries, in order |
| OwnedPicks.GroupByOwnerSpec | src/logic/ownedPicks.ts:128-138 | the buckets are exactly the owners, each holding its own entries in order |
| OwnedPicks.OwnedByComplete | src/logic/ownedPicks.ts:131-134 | every entry is in its owner's bucket |
| OwnedPicks.OwnedByEmpty | src/logic/ownedPicks.ts:131-134 | an owner with no entry has an empty bucket |
| OwnedPicks.PickBeforePreorder | src/logic/ownedPicks.ts:141-144 | the comparator (season text, then round, then label text) is total and transitive |
| OwnedPicks.SortBuckets | src/logic/ownedPicks.ts:147-148 | sorting the buckets keeps the same bucket names |
| OwnedPicks.GridFlattenable | src/logic/ownedPicks.ts:108-112 | every key of the replayed grid has an owner and decodes to numbers |
| OwnedPicks.InferSeasonsDashFree | src/logic/ownedPicks.ts:55-57 | inferred seasons are four digits, so they contain no dash |
| OwnedPicksEngine.InferSeasonsAndRounds | src/logic/ownedPicks.ts:51-64 | the Set-filling loop and the sorts compute InferSeasons and InferRounds |
| OwnedPicksEngine.SeedOriginsLoop | src/logic/ownedPicks.ts:89-91 | the inner loop computes SeedOrigins |
| OwnedPicksEngine.SeedRoundsLoop | src/logic/ownedPicks.ts:88-92 | the middle loop computes SeedRounds |
| OwnedPicksEngine.SeedBaseline | src/logic/ownedPicks.ts:84-93 | the triple loop computes Baseline |
| OwnedPicksEngine.ReplayTrades | src/logic/ownedPicks.ts:95-105 | the trade loop computes Replay |
| OwnedPicksEngine.FlattenOwnership | src/logic/ownedPicks.ts:107-125 | the flatten loop computes Flatten: one labelled, valued entry per key, in key order |
| OwnedPicksEngine.GroupEntries | src/logic/ownedPicks.ts:127-138 | the grouping loop fills byRosterId and byUserId with the same GroupByOwner buckets |
| OwnedPicksEngine.ComputeOwnedPicks | src/logic/ownedPicks.ts:67-151 | the whole procedure computes OwnedPicks.ComputeOwnedPicks |
| OwnedPicksProperties.DecodedOrigin | src/logic/ownedPicks.ts:110-112 | an origin >= 0 decodes to itself; a negative one to 0 |
| OwnedPicksProperties.EntryOfGridKey | src/logic/ownedPicks.ts:108-125 | a grid key decodes, and its entry has that season, round and origin, a label from the origin's slot and value pickMap[label] ?? 0 |
| OwnedPicksProperties.SortKeeps | src/logic/ownedPicks.ts:146 | sorting keeps the length and the elements |
| OwnedPicksProperties.EmptyGrid | src/logic/ownedPicks.ts:87-93 | with no seasons, rounds or rosters the map has no keys |
| OwnedPicksProperties.ResolvedLength | src/logic/ownedPicks.ts:108-125 | `all` before sorting has one entry per key of the ownership map |
| OwnedPicksProperties.ComputeShape | src/logic/ownedPicks.ts:75-78 | byUserId mirrors byRosterId; with no seasons or rounds the result is empty; otherwise `all` is the sorted entries and the buckets the sorted groups |
| OwnedPicksProperties.ReplayedKeyInGrid | src/logic/ownedPicks.ts:95-105 | trade replay never adds a key outside the grid |
| OwnedPicksProperties.GridKeyReplayed | src/logic/ownedPicks.ts:84-105 | every grid key survives the trades, owned by the last addressing record or else by its origin |
| OwnedPicksProperties.ReplayedOwner | src/logic/ownedPicks.ts:95-105 | a grid key's owner after replay is the last addressing record's owner or else its origin |
| OwnedPicksProperties.ResolvedEntries | src/logic/ownedPicks.ts:84-125 | the unsorted entries are exactly the grid entries |
| OwnedPicksProperties.AllEntries | src/logic/ownedPicks.ts:67-151 | `all` holds exactly, per curve season, curve round and roster, the pick owned by its last trade (or origin), labelled from the origin's slot and valued from the curve |
| OwnedPicksProperties.AllCount | src/logic/ownedPicks.ts:84-125 | with distinct roster ids, `all` has |seasons| * |rounds| * |rosters| entries |
| OwnedPicksProperties.NoCurveNoPicks | src/logic/ownedPicks.ts:75-78 | with no curve key of the form "YYYY R.PP" the result is {byUserId: {}, byRosterId: {}, all: []} |
| OwnedPicksProperties.GridNonEmpty | src/logic/ownedPicks.ts:87-93 | the grid has a key exactly when there is a season, a round and a roster |
| OwnedPicksProperties.AllLength | src/logic/ownedPicks.ts:108-146 | `all` has one entry per key of the ownership map |
| OwnedPicksProperties.SomePicks | src/logic/ownedPicks.ts:51-125 | `all` is non-empty exactly when some curve key matches and there is a roster |
| OwnedPicksProperties.BucketsSpec | src/logic/ownedPicks.ts:128-148 | byUserId mirrors byRosterId, the buckets cover `all` by owner, and each bucket is a permutation of its owner's entries |
| OwnedPicksProperties.BucketsOf | src/logic/ownedPicks.ts:128-148 | grouping then sorting each bucket covers the sorted list, each bucket a permutation of its owner's entries |
| OwnedPicksProperties.SortedOutput | src/logic/ownedPicks.ts:140-148 | `all` and every bucket are sorted by (season, round, label), and `all` is a permutation of the unsorted entries |
| TradeCalculator.PickLabelCanonical | src/pages/TradeCalculatorPage.tsx:126-134 | with finite season, round and a projected origin slot, the label is buildPickName(season, round, slot) |
| TradeCalculator.PickLabelIgnoresOwner | src/pages/TradeCalculatorPage.tsx:126-134 | a canonical label depends on the origin's slot, never on the current owner |
| TradeCalculator.PickLabelYear | src/pages/TradeCalculatorPage.tsx:127 | a missing or null season falls back to `year` |
| TradeCalculator.PickLabelFallbacks | src/pages/TradeCalculatorPage.tsx:135-136 | without a slot, a truthy pick_name is used, otherwise a "pick-" placeholder |
| TradeCalculator.GradeNeverC | src/pages/TradeCalculatorPage.tsx:140-151 | "C" is never returned; the letter is one of the other nine |
| TradeCalculator.GradeFromEdgeMonotone | src/pages/TradeCalculatorPage.tsx:140-151 | a larger edge percentage never gets a worse letter |
| TradeCalculator.GradeThresholds | src/pages/TradeCalculatorPage.tsx:140-151 | A+ exactly from 15; B- exactly on [0, 3); C- exactly on (-5, 0); F exactly at -10 and below |
| TradeCalculator.PickValueMap | src/pages/TradeCalculatorPage.tsx:108-112 | the map built from the rows is well formed |
| TradeCalculator.PickValuesToMap | src/pages/TradeCalculatorPage.tsx:108-112 | the loop computes PickValueMap(rows) |
| TradeCalculator.PickValueMapKeys | src/pages/TradeCalculatorPage.tsx:110 | a name has an entry exactly when it is non-empty and some row has it |
| TradeCalculator.PickValueMapLast | src/pages/TradeCalculatorPage.tsx:110 | a name's entry is the value of the last row with that name |
| TradeCalculator.IncludesAllOneWord | src/pages/TradeCalculatorPage.tsx:119-123 | a one-word needle is a plain substring test; the empty needle always matches |
| TradeCalculator.IncludesAllCons | src/pages/TradeCalculatorPage.tsx:121-122 | a needle of several words matches exactly when its first word is a substring and the rest matches |
| TradeCalculator.IncludesAllWider | src/pages/TradeCalculatorPage.tsx:119-123 | a needle that matches a hay matches every hay containing it |
| TradeCalculator.MatchValBounds | src/pages/TradeCalculatorPage.tsx:473-476 | a value that reads as a number, fraction kept, matches exactly when it lies within both bounds inclusive; a missing value and one that is not a number count as 0; a number and its text match alike |
| TradeCalculator.FirstPresent | src/pages/TradeCalculatorPage.tsx:159 | a `??` chain yields the last fallback or one of the named fields |
| TradeCalculator.AssetIds | src/pages/TradeCalculatorPage.tsx:158-175 | player and pick ids never collide, and equal pick ids mean equal labels |
| TradeCalculator.PlayerAssetValue | src/pages/TradeCalculatorPage.tsx:161-162 | a player's value is value_final_1000 read as a number, fraction kept, or 0 when missing or not a number; a value stored as text is worth the same as the number it spells |
| TradeCalculator.PlayerIdPrecedence | src/pages/TradeCalculatorPage.tsx:159-160 | a player with a `uid` gets the id "player:" + uid |
| TradeCalculator.Max3 | src/pages/TradeCalculatorPage.tsx:556 | Math.max of three is one of them and at least each |
| TradeCalculator.SideTotalAppend | src/pages/TradeCalculatorPage.tsx:551 | the total of two concatenated sides is the sum of their totals |
| TradeCalculator.SideTotalNonNegative | src/pages/TradeCalculatorPage.tsx:551 | non-negative asset values give a non-negative total |
| TradeCalculator.EdgePctBounds | src/pages/TradeCalculatorPage.tsx:551-558 | edge = sum(A) - sum(B) over max(sumA, sumB, 1): within [-100, 100], non-negative exactly when A >= B, and antisymmetric |
| TradeCalculator.ScaledRatio | src/pages/TradeCalculatorPage.tsx:556-557 | a difference bounded by the denominator gives a percentage in [-100, 100] with the difference's sign |
| TradeCalculator.AddRosterPlayers | src/pages/TradeCalculatorPage.tsx:381-382 | the inner loop computes AddPlayers for one roster |
| TradeCalculator.OwnerByPlayerId | src/pages/TradeCalculatorPage.tsx:378-385 | the nested loop computes OwnerMap(rosters) |
| TradeCalculator.AddPlayersEntry | src/pages/TradeCalculatorPage.tsx:381-382 | after one roster, a listed id maps to that roster and other ids keep their owner |
| TradeCalculator.OwnerMapKeys | src/pages/TradeCalculatorPage.tsx:378-385 | a player id has an owner exactly when some roster lists it |
| TradeCalculator.ListedIn | src/pages/TradeCalculatorPage.tsx:378-385 | some roster in a list lists an id exactly when one before the last does or the last one does |
| TradeCalculator.OwnerMapLast | src/pages/TradeCalculatorPage.tsx:378-385 | a player's owner is the last roster that lists it |
| TradeSides.AddOnceProperties | src/pages/TradeCalculatorPage.tsx:563 | the add puts the asset's id on the side once, keeps ids unique and everything already there, and is idempotent |
| TradeSides.WithoutIdMembers | src/pages/TradeCalculatorPage.tsx:564 | filtering keeps exactly the assets with another id |
| TradeSides.WithoutIdUnique | src/pages/TradeCalculatorPage.tsx:564 | filtering introduces no duplicate id |
| TradeSides.WithoutIdProperties | src/pages/TradeCalculatorPage.tsx:591-592 | filtering removes exactly that id from the side's ids |
| TradeSides.WithoutAbsentId | src/pages/TradeCalculatorPage.tsx:564 | filtering an absent id changes nothing |
| TradeSides.TradeBoard.constructor | src/pages/TradeCalculatorPage.tsx:198-206 | both sides and the hidden set start empty, satisfying the invariant |
| TradeSides.TradeBoard.HideAsset | src/pages/TradeCalculatorPage.tsx:219-226 | the asset's id joins the hidden set; the sides are unchanged |
| TradeSides.TradeBoard.UnhideById | src/pages/TradeCalculatorPage.tsx:228-235 | the id leaves the hidden set; the sides are unchanged |
| TradeSides.TradeBoard.Receive | src/pages/TradeCalculatorPage.tsx:561-566 | side A gains the asset once, side B loses its id, the id is hidden; the invariant (unique ids, disjoint sides, hidden = both sides' ids) is kept |
| TradeSides.TradeBoard.Send | src/pages/TradeCalculatorPage.tsx:568-573 | side B gains the asset once, side A loses its id, the id is hidden; the invariant is kept |
| TradeSides.TradeBoard.OnReceivePlayer | src/pages/TradeCalculatorPage.tsx:561-566 | Receive of the player's asset |
| TradeSides.TradeBoard.OnSendPlayer | src/pages/TradeCalculatorPage.tsx:568-573 | Send of the player's asset |
| TradeSides.TradeBoard.OnReceivePick | src/pages/TradeCalculatorPage.tsx:575-580 | Receive of the pick's asset, valued from the curve by its label |
| TradeSides.TradeBoard.OnSendPick | src/pages/TradeCalculatorPage.tsx:582-587 | Send of the pick's asset |
| TradeSides.TradeBoard.RemoveFromSide | src/pages/TradeCalculatorPage.tsx:590-594 | only the named side loses the id, and the id is unhidden |
| TradeSides.TradeBoard.ClearAll | src/pages/TradeCalculatorPage.tsx:596-600 | both sides and the hidden set become empty |
| TradeApp.TradePctDenominator | src/App.tsx:41-42 | the percentage is diff / max(1, base) * 100, because min(base, base + \|diff\|) is base |
| TradeApp.GradeOfPctMonotone | src/App.tsx:43-52 | a higher percentage never gets a worse letter |
| TradeApp.GradeTradeMonotone | src/App.tsx:40-53 | for a fixed base, a larger difference never grades worse; diff >= 0 grades B- or better, diff < 0 grades C or worse |
| TradeApp.PctSign | src/App.tsx:41-42 | the percentage has the sign of the difference |
| TradeApp.GradeOfPctSign | src/App.tsx:43-52 | a non-negative percentage grades B- or better, a negative one C or worse |
| TradeApp.TotalsAgree | src/App.tsx:316-323 | the edge is ta - tb and the grade is the ladder applied to the percentage; swapping the sides negates the edge and the percentage |
| TradeApp.UpperPartsMembers | src/App.tsx:290-293 | the position list holds exactly the non-empty trimmed, upper-cased comma parts |
| TradeApp.SelectedIds | src/App.tsx:271 | the selected ids are exactly the ids on either side |
| TradeApp.FilteredAllMembers | src/App.tsx:274-310 | the filtered list holds exactly the assets the predicate accepts |
| TradeApp.ShownConsequences | src/App.tsx:278-306 | a listed asset is unselected, is a pick only with no position or team filter, and lies within both bounds |
| TradeApp.ValueBoundsInclusive | src/App.tsx:304-306 | with no search or filter, an unselected asset is listed exactly when min <= value <= max |
| TradeApp.SliderKeepsGap | src/App.tsx:488-500 | for inputs in 0..1000, the result keeps 0 <= lo, hi <= 1000 and hi - lo >= 50; a wide pair is kept unchanged |
| TradeApp.TypedMinBounds | src/App.tsx:537-538 | typed min <= 950 and <= maxVal - 50, and >= 0 when maxVal >= 50 |
| TradeApp.TypedMaxBounds | src/App.tsx:551-553 | typed max lies in 50..1000, and is >= minVal + 50 when minVal <= 950 |
| TradeApp.ToggleNeed | src/App.tsx:415-417 | a present position is removed (the rest kept); an absent one is appended |
| TradeApp.Remove | src/App.tsx:416 | the filter keeps exactly the other positions |
| TradeApp.ToggleTwice | src/App.tsx:415-417 | a toggle flips membership of its position only, so toggling twice restores the membership |
| TradeApp.ToggleNoRepeats | src/App.tsx:415-417 | toggling keeps the list free of repeats |
| TradeApp.RemoveNoRepeats | src/App.tsx:416 | filtering keeps the list free of repeats |
| TradeApp.WithoutItem | src/App.tsx:333 | the filter keeps exactly the items with another id |
| TradeApp.AppendFresh | src/App.tsx:329-330 | appending an item with a new id keeps ids distinct and adds that id |
| TradeApp.WithoutItemDistinct | src/App.tsx:333 | filtering keeps ids distinct |
| TradeApp.WithoutItemIds | src/App.tsx:333 | filtering removes exactly that id from the ids |
| TradeApp.Screen.constructor | src/App.tsx:195-200 | empty sides and needs, range 0..1000 |
| TradeApp.Screen.HandleAdd | src/App.tsx:326-331 | nothing changes if the id is on either side; otherwise the item is appended to exactly the chosen side; ids stay distinct across both sides |
| TradeApp.Screen.RemoveItem | src/App.tsx:332-336 | only the named side loses the id |
| TradeApp.Screen.ClearSideA | src/App.tsx:337-339 | side A is emptied, nothing else changes |
| TradeApp.Screen.ClearSideB | src/App.tsx:340-342 | side B is emptied, nothing else changes |
| TradeApp.Screen.ToggleTeamNeed | src/App.tsx:414-417 | the needs become ToggleNeed of the old needs |
| TradeApp.Screen.OnSliderChange | src/App.tsx:488-500 | the range becomes SliderChange of the inputs, keeping the gap for inputs in 0..1000 |
| TradeApp.Screen.OnTypedMin | src/App.tsx:536-541 | the minimum becomes TypedMin of the text and the old maximum |
| TradeApp.Screen.OnTypedMax | src/App.tsx:550-555 | the maximum becomes TypedMax of the text and the old minimum |
| Csv.ParseCSV | src/data/loaders.ts:6-48 | the character loop computes CsvTable(text) |
| Csv.QuotedRoundTrip | src/data/loaders.ts:12-46 | a table written with every field quoted (quotes doubled) parses back to itself, commas, newlines and quotes inside fields included |
| Csv.QuotedFieldRun | src/data/loaders.ts:14-28 | a quoted field adds its text to the cell, with `""` read as one quote |
| Csv.RowRun | src/data/loaders.ts:27-31 | a row of quoted fields splits at the unquoted commas |
| Csv.TableRun | src/data/loaders.ts:12-43 | the rows of a quoted table are completed at each unquoted newline |
| Csv.UnquotedTable | src/data/loaders.ts:12-46 | quote-free, CR-free text parses to its lines split at commas, dropping an empty last line |
| Csv.LinesRun | src/data/loaders.ts:29-40 | unquoted lines are read into rows split at commas |
| Csv.RunAppend | src/data/loaders.ts:12-43 | the loop over quote-free text continues from where the first piece ended |
| Csv.DropCR | src/data/loaders.ts:37-38 | the text without its carriage returns keeps only characters of the text |
| Csv.CarriageReturnsIgnored | src/data/loaders.ts:37-38 | outside quotes a carriage return changes nothing |
| Csv.CsvIgnoresCR | src/data/loaders.ts:37-38 | CRLF text parses as LF text when unquoted |
| Loaders.Idx | src/data/loaders.ts:92 | indexOf: -1 when absent, otherwise the first position of the name |
| Loaders.Find | src/data/loaders.ts:95 | find returns a header satisfying the test, or nothing exactly when none does |
| Loaders.FindFirst | src/data/loaders.ts:95 | find returns the first header satisfying the test |
| Loaders.IdColumn | src/data/loaders.ts:95 | `sleeper_id` when present; otherwise a header matching /sleeper.?id/i |
| Loaders.ValueColumn | src/data/loaders.ts:98-101 | `value_final_1000` when present; otherwise a header matching /value[_ ]?final[_ ]?1000/i |
| Loaders.IdColumnMissing | src/data/loaders.ts:95-96 | the id column is missing exactly when no header matches /sleeper.?id/i |
| Loaders.IdColumnFirst | src/data/loaders.ts:95 | without the exact `sleeper_id` header, the id column is the first header matching /sleeper.?id/i |
| Loaders.SleeperIdSpellings | src/data/loaders.ts:95 | any spelling of "sleeper", at most one character that is not a line terminator, then any spelling of "id", anywhere in a header, matches the pattern |
| Loaders.RowObject | src/data/loaders.ts:112 | the row object has exactly the headers as keys |
| Loaders.RowObjectCell | src/data/loaders.ts:112 | a header's cell is the trimmed cell of the last column with that header |
| Loaders.PlayerRowOf | src/data/loaders.ts:108-119 | a kept row is non-blank with a non-empty key, stored under `sleeper_id`; it has a value exactly when there is a value column |
| Loaders.BuildRowObject | src/data/loaders.ts:111-112 | the forEach computes RowObject |
| Loaders.ReadPlayerRow | src/data/loaders.ts:108-119 | the loop body computes PlayerRowOf |
| Loaders.PushPlayer | src/data/loaders.ts:121-123 | the pushes compute Push |
| Loaders.ReadPlayers | src/data/loaders.ts:107-124 | the row loop computes Collect of the rows read; with a value column valueBySleeperId has exactly the keys of bySleeperId, without one it is empty |
| Loaders.LoadValuesCSV | src/data/loaders.ts:88-126 | the loader after the fetch computes LoadValues |
| Loaders.PlayerValues | src/data/loaders.ts:119-123 | with a value column every kept key has a value, namely its (last) row's; without one valueBySleeperId is empty |
| Loaders.CollectMirror | src/data/loaders.ts:121-123 | when every kept row has a value, valueBySleeperId has the keys of bySleeperId and each row's value |
| Loaders.CollectNoValues | src/data/loaders.ts:121-123 | when no kept row has a value, valueBySleeperId stays empty |
| Loaders.PlayerValue | src/data/loaders.ts:50-53 | a value cell reads as its number when finite, and as toNum's default 0 (the explicit `undefined` argument still takes the default) for any other text |
| Loaders.PlayerValueRendered | src/data/loaders.ts:119 | a value cell holding a number's rendering reads back as that number |
| Loaders.CollectRows | src/data/loaders.ts:107-124 | `rows` holds exactly the rows not skipped |
| Loaders.CollectOrder | src/data/loaders.ts:107-124 | rows keep the order of the data rows |
| Loaders.CollectById | src/data/loaders.ts:122 | a key is in bySleeperId exactly when some kept row has it, and maps to the last such row |
| Loaders.CollectValues | src/data/loaders.ts:119-123 | a key has a value exactly when some kept row with it has one, and gets the last such row's value |
| Loaders.LoadValuesOutcomes | src/data/loaders.ts:88-96 | an empty table loads as empty rows and maps; otherwise the loader fails with a missing id column exactly when no trimmed header matches /sleeper.?id/i |
| Loaders.PickKeyFromPartsIsLabel | src/data/loaders.ts:150-151 | pickKeyFromParts is buildPickName of the season written out: "s r.pp" |
| Loaders.OverallInSeasonRange | src/data/loaders.ts:154-155 | for rounds 1..7 and picks 1..32 the number lies in 1..224 and equals overallFrom |
| Loaders.OverallCumulativeIndexing | src/data/loaders.ts:158-168 | the zero-indexed count is the one-indexed count minus one; the base season's first pick is 0 |
| Loaders.OverallCumulativeContinues | src/data/loaders.ts:158-168 | a season's first pick follows the previous season's 7.32 |
| Loaders.OverallCumulativeRange | src/data/loaders.ts:158-168 | a season's picks fill [224 * (s - base), 224 * (s - base) + 223] |
| Loaders.OverallCumulativeInjective | src/data/loaders.ts:158-168 | on the 7 x 32 grid, different picks get different cumulative numbers |
| Loaders.SplitPart | src/data/loaders.ts:221-229 | `s?.split(sep)[i]` is the i-th part when it exists |
| Loaders.CanonicalName | src/data/loaders.ts:235-237 | the trimmed raw name when non-empty, otherwise pickKeyFromParts; never empty |
| Loaders.CurveRowOpt | src/data/loaders.ts:211-212 | a row is skipped exactly when all its cells are blank |
| Loaders.PushCurveRow | src/data/loaders.ts:251-255 | the pushes compute PushCurve |
| Loaders.CurveNumbers | src/data/loaders.ts:216-248 | the value is the cell's number or 0; the overall pick is the cell's number with its fraction, and undefined when the column is missing or the cell is not a finite number |
| Loaders.CurveOverallRendered | src/data/loaders.ts:231-232 | an overall-pick cell holding a number's rendering reads back as that number |
| Loaders.ReadCurve | src/data/loaders.ts:210-256 | the row loop computes CollectCurve of the rows read |
| Loaders.LoadPickValuesCSV | src/data/loaders.ts:180-261 | the loader after the fetch computes LoadPickValues, failing exactly without a `value` column |
| Loaders.CurveRows | src/data/loaders.ts:210-256 | the curve keeps exactly the rows not skipped |
| Loaders.CurveRowsKept | src/data/loaders.ts:210-256 | the rows are exactly those of the non-blank lines, each with a non-empty name |
| Loaders.CurveByName | src/data/loaders.ts:252 | a name is in byPickName exactly when some row has it, with the last such row's value |
| Loaders.TripleKeyInjective | src/data/loaders.ts:254 | different triples get different `season\|round\|pick` keys |
| Loaders.CurveByTriple | src/data/loaders.ts:253-259 | bySeasonRoundPick has a value exactly when some row has that finite triple, and it is the last such row's value |
| Loaders.LabelParsedBack | src/data/loaders.ts:219-237 | without season, round and pick columns, a canonical name is parsed back into its numbers and kept as the name |
| LoadPickCurve.OneRowPerRecord | src/data/loadPickCurve.ts:18-30 | exactly one row per record, in order |
| LoadPickCurve.LoadPickCurveAppend | src/data/loadPickCurve.ts:18 | mapping concatenated batches is concatenating their mappings |
| LoadPickCurve.OverallPickDefault | src/data/loadPickCurve.ts:22-24 | overall_pick defaults to overallFrom(round, pick, 32) when absent or null; a present integer, decimal or numeric text is read as that number, fraction kept |
| LoadPickCurve.PickNameDefault | src/data/loadPickCurve.ts:25-26 | pick_name defaults to buildPickName(season, round, pick) when absent or null; a present one is kept |
| LoadPickCurve.ValueAndSeason | src/data/loadPickCurve.ts:19-27 | a missing or null value is 0; a decimal keeps its fraction, text is read as a signed decimal, and the value agrees with the integer reading wherever that is a number; the season is the field stringified |
| LoadPickCurve.BareRecord | src/data/loadPickCurve.ts:18-30 | a record with only integer season, round and pick gets the canonical name, the 32-team overall number and value 0 |
| LoadPickCurve.IntegerRow | src/data/loadPickCurve.ts:18-30 | any record whose season, round and pick are integers and whose overall pick, pick name and value are missing maps to that same canonical row |
| Numbers.ToNumber | src/data/loaders.ts:50-53 | blank text is 0 |
| Numbers.IntToStringToNumber | src/data/loaders.ts:50-53 | `Number(String(i))` is i |
| Numbers.ParseDecimal | src/data/loaders.ts:119 | blank text is 0 |
| Numbers.ParseDecimalOfInteger | src/data/loaders.ts:119 | an integer literal reads as that integer |
| JsValues.NumOrZero | src/pages/TradeCalculatorPage.tsx:72-75 | num: an integer field reads as its integer, a decimal as its value; undefined and text that is not a number give 0 |
| JsValues.JsRealAgrees | src/pages/TradeCalculatorPage.tsx:72-75 | the fraction-keeping reading of Number(x) agrees with the integer reading wherever that is a number |
| JsValues.NumberOfString | src/pages/TradeCalculatorPage.tsx:54 | Number(String(x)) is x for every number field, NaN included, so a value given as text is worth the same as the number |
| Numbers.DecimalRoundTrip | src/data/loadPickCurve.ts:19-27 | the rendering String(x) of a fractional number reads back as that number |
| JsMaps.OrderedMap.Set | src/logic/ownedPicks.ts:90 | Map.set updates the value; a new key goes last in insertion order, an existing key keeps its place |
| JsMaps.Empty | src/logic/ownedPicks.ts:84 | `new Map()` has no keys |
| Strings.Pad2 | src/utils/picks.ts:12 | padStart(2, "0"): one leading zero for 0..9, unchanged otherwise |
| Strings.Pad2Digits | src/utils/picks.ts:12 | a padded number below 100 is two digits reading back as the number |
| Strings.IntToStringInjective | src/utils/picks.ts:4-5 | different integers print differently |
| Strings.SplitCons | src/logic/ownedPicks.ts:110 | splitting `a + sep + b` with a dash-free a gives a followed by b's parts |
| Strings.LexLeTotal | src/logic/ownedPicks.ts:61 | the string order compares every pair |
| Strings.LexLeTransitive | src/logic/ownedPicks.ts:61 | the string order is transitive |
| Strings.LexLeAntisymmetric | src/logic/ownedPicks.ts:61 | strings ordered both ways are equal |
| Sorting.SortBy | src/logic/ownedPicks.ts:146 | sorting is a permutation |
| Sorting.SortBySorted | src/logic/ownedPicks.ts:146 | for a total preorder the result is sorted |
| Sorting.NoDupPermutation | src/logic/ownedPicks.ts:61 | a permutation of a list without repeats has no repeats |

## Left out

- The `fetch` calls of `loadValuesCSV`, `loadPickValuesCSV` and `loadPickCurve` are left out, along with their HTTP error paths. The loaders start from the fetched text.
- Papa.parse in `loadPickCurve` and in App.tsx is left out. Its records are the input `JsValues.Record` of `LoadPickCurve.LoadPickCurve`.
- The zustand store is not modelled. The drop flag is a parameter of `Grades.ComputeTotal`.
- The async league flows are left out: `onSubmit`, `onGetLeagues` and the calls into src/api/sleeper.ts.
- localStorage, theming and all JSX rendering are left out, along with `positionBarStyle`.
- The exported trade summary (`exportConfig`) is left out because it formats a display payload.
- `Number(...)` is read in two ways. Fields that hold integers (season, round, pick, roster ids) use `JsValues.JsNumber`. Fields that may hold a fraction keep it: records use `JsValues.JsReal`, and the CSV loaders read player values, curve values and the curve's overall pick with `Numbers.CellReal` and `Numbers.ToNum`, both built on `Numbers.ParseDecimal`. `Infinity` reads as not a number, which is what `toNum`'s finiteness test makes of it. Exponents, hexadecimal and the regex stripping in `tryNum` are not modelled.
- Numbers.ToNumber: reads integer literals only, so decimal text reads as NaN. It is used only for the integer fields; value fields are read with `Numbers.ParseDecimal`.
- JsValues.JsNumber: a fractional number reads as NaN, because `Numbers.Num` holds integers. It is used only for the integer fields; `JsValues.JsRealAgrees` shows it agrees with `JsValues.JsReal` wherever it is a number.
- Numbers.DecimalToString: exponent notation (`String(1e21)`, `String(1e-7)`) is not modelled. The rendering is the plain decimal form JavaScript uses between those magnitudes.
- Asset values are real numbers. IEEE rounding is not modelled.
- `TradeCalculator.EdgePct`: the `Math.round(... * 1000) / 10` rounding is left out, so the model keeps the unrounded percentage.
- `toFixed` display is left out.
- `norm`'s NFKD normalisation and white-space collapsing are left out. `IncludesAll` works on the normalised strings.
- Case conversion is ASCII-only.
- `localeCompare` is taken as plain character-code order.
- `Sorting.SortBy` is a stable insertion sort on sequences. It models the result of `Array.prototype.sort`, not the engine's algorithm or its in-place update.
- The `rosterDefById` DEF-code heuristic is left out; it is a display lookup over external player metadata.
- These page helpers are left out: `toPickRow`, `keyFromPickRow`, `withUid`, `normalizePositions`, `matchPos` and `matchTeamByOwner`.
- The `years` argument of the slot projector is dropped; the source ignores it for the result.
- The slot projector's input is the list of already coerced fields (`SlotProjection.SlotRoster`).
- `TradeSides.TradeBoard.RemoveFromSide` keeps the invariant only when the id is not on the other side. With the invariant, an id is never on both sides, so this is always the case; the clause states it explicitly.
- `TradeApp.Screen.OnSliderChange` keeps the range invariant only for inputs in 0..1000. Those are the slider's own bounds.
- The pick-curve loader's `type` column is read as text. Its values play no part in any lookup.
- src/types/picks.ts is not part of this model; it holds type declarations only.
