# Space Math Command — a verified model of the game core

Space Math Command is a multiplication-practice game. A round asks questions
drawn from the selected times tables. Misses are counted per fact ("7x8") as
*weak areas*, and later rounds favour those facts. A campaign leads the player
along a route of fourteen legs, Earth to Arrokoth, five waypoints per leg. Each
waypoint earns one to three stars. Completing the last waypoint of a leg
unlocks the next leg when, after that result, all five waypoints of the leg
hold three stars. A leg perfected by a result on an earlier waypoint unlocks
nothing until its last waypoint is played again
(`CampaignLogic.UnlockOnlyAtLastWaypoint`).

This project models that core as pure Dafny functions over immutable
datatypes and proves properties of it:

- `GameTypes`: the records the game passes around (questions, settings,
  bodies, legs, waypoint results, campaign progress, player stats).
- `CampaignRoute`: the constant route data (fifteen bodies with their focus
  tables, fourteen legs) and chapter names.
- `GameLogic`: question generation, practice XP and the weak-area update.
- `CampaignLogic`: stars, the keyed record of completed waypoints, leg
  perfection, unlocking, the player's position, mission settings and campaign
  XP.
- `Ranks`: the rank table and the rank for an XP total.
- `SelectTables`: the table-selection screen. It covers toggling, "All",
  "Random", "Clear" and the settings of the round it starts.
- `WeakAreasDialog`: the weak-areas dialog. It covers the sorted list, the
  "Practice Now" round and the difficulty bands.
- Helper modules:
  - `Results`: `Option` and `Result`.
  - `Decimal`: integer printing and the subset of `Number(s)` that fact keys
    need.
  - `Sorting`: a stable sort by a numeric key, shuffles and `filter`.
  - `Accuracy`: the floating-point accuracy tests, stated exactly over the
    integers.

Randomness is an input:

- A random index `Math.floor(Math.random() * n)` is a draw `d`, reduced to
  `d % n`.
- A sort with a random comparator is `Shuffle(s, choices)`. It can produce
  any permutation, and each element of `choices` decides which element goes
  next.
- The clock reading `Date.now()` is the parameter `now`.

Source behaviour kept in the model:

- When a waypoint completion neither unlocks a leg nor advances along the
  current leg, the position moves to the waypoint just played. That can move
  the position backwards (`ReplayMovesPositionBack`).
- `Math.floor(q * 0.6)` is modelled as `(3 * q) / 5`. The two agree for the
  round sizes the game uses (10 and 20 questions give 6 and 12 weak picks).
  For very large `q` the floating-point product can round up to the next
  integer, and the model does not follow that.
- Accuracy tests such as `(score / total) * 100 >= 90` are stated as exact
  integer comparisons. The floored percentage in the XP formulas is the exact
  floor too; JavaScript's rounded quotient can fall just below an integer and
  floor one lower (see "## Left out"). They include JavaScript's division by zero:
  - a positive score over zero is +Infinity;
  - zero over zero is NaN, which fails every comparison;
  - a negative score over zero is -Infinity.
- When the random share of a round is positive but the pool is no larger
  than the weak share, the code pushes `undefined` and then throws while
  destructuring it. The model returns `Err`.

## Model

| member | source | states |
|---|---|---|
| Decimal.IntToString | src/utils/gameLogic.ts:21-22 | an integer prints as a non-empty string of decimal digits and the minus sign, as in the template key `${a}x${b}`: a leading '-' exactly for negatives, "0" as the only spelling starting with '0', and no zero after the '-'; with `ParseIntToString` this is the shortest spelling |
| Decimal.ParseNumber | src/components/WeakAreasDialog.tsx:28 | `Number(s)` on a string of digits is its decimal value; the empty string reads as 0 |
| Decimal.ParseIntToString | src/utils/gameLogic.ts:76 | reading back a printed integer gives the integer (round trip of key printing and `Number`) |
| Decimal.NatToStringInjective | src/utils/gameLogic.ts:76 | two numbers print the same exactly when they are equal |
| Sorting.SortBy | src/components/WeakAreasDialog.tsx:23 | a sort with a numeric comparator returns a permutation of its input ordered by the key |
| Sorting.SortByStable | src/components/WeakAreasDialog.tsx:23 | the sort is stable: for every key value, the elements with that key appear in the same order in the output as in the input |
| Sorting.Shuffle | src/utils/gameLogic.ts:49 | a sort with a random comparator returns a permutation of its input, of the same length |
| Sorting.ShuffleReachesEveryPermutation | src/utils/gameLogic.ts:49 | every permutation of the input is the outcome of some sequence of random choices |
| Sorting.RemoveAll | src/pages/SelectTables.tsx:16 | `filter(n => n !== num)` keeps exactly the other elements and keeps a strictly ascending list strictly ascending |
| Sorting.SortDistinctStrict | src/pages/SelectTables.tsx:18 | sorting numbers without repeats gives a strictly ascending list |
| Sorting.StrictlyAscendingUnique | src/pages/SelectTables.tsx:14-20 | two strictly ascending lists with the same elements are equal |
| Accuracy.FloorPercent | src/utils/gameLogic.ts:64 | `Math.floor((score / total) * 100)`, computed exactly: the unique n with n·total ≤ 100·score < (n+1)·total (sign-adjusted for a negative total) |
| Accuracy.FloorPercentMonotone | src/utils/gameLogic.ts:64 | a higher score never gives a lower floored percentage |
| Accuracy.FloorPercentRange | src/utils/gameLogic.ts:64 | a score between 0 and the total gives a percentage between 0 and 100 |
| GameLogic.BuildPool | src/utils/gameLogic.ts:10-16 | the pool has \|tables\|·max(maxMultiplier, 0) pairs, and (a, b) is in it exactly when a is a selected table and 1 ≤ b ≤ maxMultiplier |
| GameLogic.PoolLayout | src/utils/gameLogic.ts:12-16 | pair i of the pool is (tables[i / m], i % m + 1), table by table in selection order |
| GameLogic.OrderByWeakness | src/utils/gameLogic.ts:18-27 | the pool is reordered, never changed: without stats or with no weak areas it stays as built, otherwise miss counts are non-increasing and pairs with equal miss counts keep their pool order |
| GameLogic.WeakCount | src/utils/gameLogic.ts:33 | the weak share is the floor of 3/5 of the round size |
| GameLogic.PairKey | src/utils/gameLogic.ts:21-22 | the key is the printed first number, then its only 'x', then the printed second number |
| GameLogic.Draw | src/utils/gameLogic.ts:43-45 | one pick per draw, each a pair of the remaining pool |
| GameLogic.DrawReachesEveryPair | src/utils/gameLogic.ts:44-45 | every pair of the remaining pool can be picked by some draw |
| GameLogic.SelectPairs | src/utils/gameLogic.ts:29-46 | fails exactly when random picks are due but nothing lies past the weak share; otherwise returns the round size in pairs: the first weak-share pairs of the pool, then picks from the pool past the weak share |
| GameLogic.ToQuestions | src/utils/gameLogic.ts:51-57 | one unanswered question per pair, in order, whose answer is the product |
| GameLogic.GenerateQuestions | src/utils/gameLogic.ts:3-60 | fails exactly when the pool is no larger than the weak share and random picks are due; otherwise gives the round size in questions, each a selected table times a multiplier in range, answer = product, unanswered, and a permutation of the selected pairs |
| GameLogic.FullRound | src/utils/gameLogic.ts:37-46 | a pool larger than the weak share always gives a full round |
| GameLogic.CalculateXP | src/utils/gameLogic.ts:62-66 | XP is 50 plus the floored percentage, so 50..150 for a score between 0 and the total |
| GameLogic.CalculateXPMonotone | src/utils/gameLogic.ts:62-66 | more correct answers never earn less XP |
| GameLogic.UpdateWeakAreas | src/utils/gameLogic.ts:68-82 | every key's count grows by the number of wrongly answered questions with that key, and keys appear only for misses |
| GameLogic.UpdateWeakAreasFrame | src/utils/gameLogic.ts:72-79 | keys without misses keep their count and no count decreases |
| CampaignRoute.ChapterName | src/data/campaignRoute.ts:165-173 | every chapter has a non-empty display name |
| CampaignRoute.ChapterNamesDistinct | src/data/campaignRoute.ts:166-171 | different chapters have different names |
| CampaignRoute.LegIds | src/data/campaignRoute.ts:141-163 | there are fourteen legs, leg i is "leg-(i+1)", and leg ids are distinct |
| CampaignRoute.LegIdIndex | src/data/campaignRoute.ts:141-163 | a leg id names one position on the route |
| CampaignRoute.LegsFormChain | src/data/campaignRoute.ts:141-163 | every leg starts at the body where the previous leg ends |
| CampaignRoute.BodiesResolve | src/data/campaignRoute.ts:3-163 | every body a leg names is in the body table, filed under its own id |
| CampaignRoute.FocusTablesValid | src/data/campaignRoute.ts:3-139 | every body has at least three focus tables, all in 1..12 |
| CampaignRoute.FactsMatchBodies | src/data/campaignRoute.ts:3-139 | the fact table and the body table have the same ids |
| CampaignRoute.EveryLegHasFiveWaypoints | src/data/campaignRoute.ts:141-163 | every leg requires five waypoints |
| CampaignLogic.CalculateStars | src/utils/campaignLogic.ts:5-11 | stars are 1..3; 3 exactly from 90% accuracy and at least 2 exactly from 70%, with the comparison flipped for a negative total and, for a zero total, 3 stars exactly when the score is positive (JavaScript's infinite ratio) and 1 otherwise |
| CampaignLogic.CalculateStarsMonotone | src/utils/campaignLogic.ts:5-11 | a higher score never earns fewer stars |
| CampaignLogic.InitializeCampaignProgress | src/utils/campaignLogic.ts:13-21 | a fresh record is valid, empty, with zero missions, at waypoint 0 of the first leg, with only the first leg unlocked |
| CampaignLogic.FindWaypointIndex | src/utils/campaignLogic.ts:61-63 | the index of the first entry with the key, or -1 exactly when no entry has it |
| CampaignLogic.WaypointIn | src/utils/campaignLogic.ts:23-31 | an entry is found exactly when one has the key, and the found entry has the key |
| CampaignLogic.GetWaypointProgress | src/utils/campaignLogic.ts:23-31 | a found result is an entry of the record with the key; when none is found, no entry has the key |
| CampaignLogic.WaypointInFirst | src/utils/campaignLogic.ts:28-30 | the entry found is the first one with the key: no earlier entry has it |
| CampaignLogic.PerfectedFrom | src/utils/campaignLogic.ts:34-38 | the loop with early return answers true exactly when every remaining waypoint has a three-star entry |
| CampaignLogic.IsLegPerfected | src/utils/campaignLogic.ts:33-39 | a leg is perfected exactly when all five waypoints have three-star entries |
| CampaignLogic.LegIndex | src/utils/campaignLogic.ts:42 | the index of the leg with the id, or -1 exactly when there is none |
| CampaignLogic.GetLegById | src/utils/campaignLogic.ts:132-134 | a leg is found exactly when its id is on the route, and it is that leg |
| CampaignLogic.GetNextLegId | src/utils/campaignLogic.ts:41-45 | there is a next leg exactly for the first thirteen legs, and it is the following leg on the route |
| CampaignLogic.CanUnlockNextLeg | src/utils/campaignLogic.ts:47-49 | true exactly when all five waypoints of the current leg have three stars |
| CampaignLogic.UpsertWaypoint | src/utils/campaignLogic.ts:74-82 | a new key is appended; a known key is replaced only by strictly more stars; the stored stars become the maximum; other entries, length bounds and key uniqueness are kept |
| CampaignLogic.CompleteWaypoint | src/utils/campaignLogic.ts:51-108 | stores the best stars for the key and leaves entries alone when not improved; counts a mission only for a new key; unlocks and moves to the next leg after the last waypoint of a perfected leg, advances along the current leg, or else moves to the waypoint just played |
| CampaignLogic.GenerateCampaignMission | src/utils/campaignLogic.ts:110-121 | succeeds exactly for a leg on the route, with the destination's focus tables, multipliers to 12 and 20 questions; otherwise "Invalid leg ID" |
| CampaignLogic.CalculateCampaignXP | src/utils/campaignLogic.ts:123-130 | the practice XP, or its half rounded down on a replay (25..75 for a score within the total) |
| CampaignLogic.TotalWaypoints | src/utils/campaignLogic.ts:136-138 | the route has 70 waypoints |
| CampaignLogic.IsReplayAttempt | src/utils/campaignLogic.ts:148-155 | a replay needs a completed entry for the key; when all entries are completed, a replay is exactly a known key; when keys are unique, a replay is exactly a completed entry with the key |
| CampaignLogic.UnlockExtendsPrefix | src/utils/campaignLogic.ts:90-96 | unlocking the next leg keeps the unlocked legs a prefix of the route |
| CampaignLogic.CompleteWaypointEntries | src/utils/campaignLogic.ts:61-106 | after a completion, keys stay unique, every entry is a completed 1..3-star result on an unlocked leg, and the counter equals the number of entries |
| CampaignLogic.CompleteWaypointPreservesValid | src/utils/campaignLogic.ts:51-108 | completing a waypoint of an unlocked leg keeps the whole record valid |
| CampaignLogic.ReplayAfterComplete | src/utils/campaignLogic.ts:148-155 | after a completion, the same waypoint is a replay and earns half XP |
| CampaignLogic.CompleteWaypointIdempotent | src/utils/campaignLogic.ts:76-82 | repeating a completion with the same score changes neither entries nor counter |
| CampaignLogic.TotalStarsAfterComplete | src/utils/campaignLogic.ts:144-146 | the star total grows by a first completion's stars or by an upgrade's improvement, and by nothing otherwise |
| CampaignLogic.GetTotalStarsEarned | src/utils/campaignLogic.ts:144-146 | the total is the star sum of the entries, zero for no entries |
| CampaignLogic.StarsSumAppend | src/utils/campaignLogic.ts:145 | the star sum of two lists joined is the sum of their star sums, so together with `StarsSumSingleton` it is the sum of every entry's stars |
| CampaignLogic.StarsSumSingleton | src/utils/campaignLogic.ts:145 | one entry contributes exactly its own stars |
| CampaignLogic.TotalStarsBounds | src/utils/campaignLogic.ts:144-146 | with every entry worth one to three stars, the total lies between the number of entries and three times that |
| CampaignLogic.GetCompletedWaypointsCount | src/utils/campaignLogic.ts:140-142 | the count is the number of positions holding a completed entry; it is at most the number of entries and equals it exactly when every entry is completed |
| CampaignLogic.CompletedCountIsMissionCount | src/utils/campaignLogic.ts:140-142 | on a valid record the completed-waypoint count equals the mission counter |
| CampaignLogic.UnlockOnlyAtLastWaypoint | src/utils/campaignLogic.ts:90-99 | a result on any waypoint but the last never unlocks a leg, even one it perfects, and keeps the player on that leg |
| CampaignLogic.ReplayMovesPositionBack | src/utils/campaignLogic.ts:84-99 | replaying an earlier waypoint of the current leg moves the position back |
| CampaignLogic.FirstClearAdvances | src/utils/campaignLogic.ts:97-99 | a first completion before the last waypoint of the current leg appends one entry, counts one mission and advances one waypoint |
| CampaignLogic.NewEntryCounted | src/utils/campaignLogic.ts:107 | a completion for a key with no entry yet counts one more mission |
| CampaignLogic.LastClearUnlocks | src/utils/campaignLogic.ts:90-95 | finishing the last waypoint of the only unlocked leg, when that perfects the leg, unlocks exactly the next leg |
| CampaignLogic.LastClearMoves | src/utils/campaignLogic.ts:90-107 | the same completion moves the player to waypoint 0 of the next leg and counts one mission |
| CampaignLogic.PerfectFirstLegUnlocksSecond | src/utils/campaignLogic.ts:90-96 | five perfect rounds from a fresh record unlock leg 2 and put the player at its start after five missions |
| CampaignLogic.MissionSettingsShape | src/utils/campaignLogic.ts:110-121 | a mission practises three or more tables in 1..12, multipliers to 12, 20 questions |
| CampaignLogic.MissionRoundsNeverFail | src/utils/campaignLogic.ts:110-121 | a campaign round for any leg yields exactly twenty questions |
| Ranks.GetRankFromXP | src/components/RankBadge.tsx:74-78 | the rank is the highest one whose threshold the XP reaches, and the XP is below that rank's next threshold |
| Ranks.RankConfig | src/components/RankBadge.tsx:9-31 | requirements are non-negative, each next threshold lies above its own requirement, and only the commander has none |
| Ranks.RankConfigChain | src/components/RankBadge.tsx:9-31 | each rank's next threshold is the following rank's requirement, only the top rank has none, and requirements rise |
| Ranks.RankThresholds | src/components/RankBadge.tsx:74-78 | commander exactly from 2000 XP, captain exactly from 500 to 1999, cadet below 500 |
| Ranks.GetRankFromXPMonotone | src/components/RankBadge.tsx:74-78 | more XP never gives a lower rank |
| SelectTables.TablesAreOneToTwelve | src/pages/SelectTables.tsx:12 | the table buttons are 1..12 in order |
| SelectTables.ToggleTable | src/pages/SelectTables.tsx:14-20 | toggling flips whether the table is selected, leaves the others, and keeps the selection strictly ascending |
| SelectTables.ToggleTwiceRestores | src/pages/SelectTables.tsx:14-20 | toggling a table twice restores the selection |
| SelectTables.SelectAll | src/pages/SelectTables.tsx:22-25 | "All" selects 2..12 in order |
| SelectTables.SelectRandom | src/pages/SelectTables.tsx:27-33 | "Random" selects five to seven distinct tables of 2..12, ascending |
| SelectTables.StartGame | src/pages/SelectTables.tsx:35-45 | no round starts without a selection; otherwise the round uses the selection, multipliers to 12 and ten questions |
| SelectTables.PracticeRoundsNeverFail | src/pages/SelectTables.tsx:35-45 | a started practice round always yields ten questions |
| SelectTables.ActionsKeepSelectionValid | src/pages/SelectTables.tsx:10-33 | any sequence of button presses keeps the selection strictly ascending within 1..12 |
| WeakAreasDialog.WeakAreasList | src/components/WeakAreasDialog.tsx:21-23 | the list is a permutation of the entries, most-missed first, and entries with the same count keep their `Object.entries` order |
| WeakAreasDialog.WeakAreasListEnumerates | src/components/WeakAreasDialog.tsx:21-23 | the list shows every weak area of the map exactly once |
| WeakAreasDialog.IndexOf | src/components/WeakAreasDialog.tsx:28 | the first occurrence of a character, or -1 exactly when absent |
| WeakAreasDialog.SplitPair | src/components/WeakAreasDialog.tsx:28 | none exactly when the key has no 'x'; otherwise the text before the first 'x' and the text from there up to the next 'x' or the end |
| WeakAreasDialog.PiecesUnique | src/components/WeakAreasDialog.tsx:28 | those two pieces are determined by the key |
| WeakAreasDialog.ParseKey | src/components/WeakAreasDialog.tsx:28 | a pair exactly when both of the first two pieces read as numbers, and then the pair is those two numbers |
| WeakAreasDialog.ParsePairKey | src/components/WeakAreasDialog.tsx:28 | splitting and reading the key the game writes for a × b gives back (a, b) |
| WeakAreasDialog.PairKeyInjective | src/utils/gameLogic.ts:76 | the key `${a}x${b}` names one fact: two keys are equal exactly when their facts are |
| WeakAreasDialog.AddUnique | src/components/WeakAreasDialog.tsx:29-30 | `Set.add` adds the value once and keeps the set free of repeats |
| WeakAreasDialog.CollectNumbers | src/components/WeakAreasDialog.tsx:26-31 | the set holds exactly the numbers of the keys, without repeats |
| WeakAreasDialog.PracticeTables | src/components/WeakAreasDialog.tsx:25-36 | the practice tables are exactly the numbers occurring in weak keys, strictly ascending |
| WeakAreasDialog.PracticeSettings | src/components/WeakAreasDialog.tsx:33-41 | "Practice Now" uses those tables, multipliers to 12 and ten questions |
| WeakAreasDialog.GameKeysParse | src/components/WeakAreasDialog.tsx:27-31 | keys the game writes always parse, and a non-empty list gives at least one table |
| WeakAreasDialog.PracticeNowNeverFails | src/components/WeakAreasDialog.tsx:25-41 | "Practice Now" with any weak area yields a full ten-question round |
| WeakAreasDialog.DifficultyColor | src/components/WeakAreasDialog.tsx:45-49 | destructive exactly from 5 misses, warning exactly from 3 to 4, success exactly below 3 |
| WeakAreasDialog.DifficultyLabel | src/components/WeakAreasDialog.tsx:51-55 | "Needs lots of practice" exactly from 5 misses, "Getting better" exactly from 3 to 4, "Almost there" exactly below 3; the strongest and mildest labels appear exactly with the red and green colours |
| WeakAreasDialog.DifficultyBandsAgree | src/components/WeakAreasDialog.tsx:45-55 | each label goes with exactly one colour: the two use the same bands |

## Left out

- Rendering, navigation, dialogs and React state hooks are left out. `SelectTables.Apply` models the selection state updates as a pure step function.
- `loadPlayerStats` and `savePlayerStats` are left out, because they only read and write browser storage.
- The `accuracy` field of a waypoint result is left out. It is a floating-point percentage that no decision reads.
- The rank badge's progress bar is left out. It is a floating-point display value.
- Facts for the bodies live in their own table, `BodyFacts`, keyed by body id, instead of a field of each body. This keeps the long display texts out of the proofs about the route.
- Numbers are unbounded integers. The 2^53 safe-integer limit of JavaScript numbers is not modelled.
- Accuracy.FloorPercent: is the exact floor of 100·score/total. JavaScript computes `(score / total) * 100` in floating point, which can land just below the exact integer: `(29 / 50) * 100` is 57.99999999999999, so the source floors to 57 where the model gives 58. The same happens at 29/100, 57/100 and 87/150. For the round sizes the game uses, 10 and 20 questions, no score between 0 and the total is affected.
- GameLogic.CalculateXP: requires a non-zero total. With a zero total the source returns NaN or ±Infinity, which are not integers. It also uses the exact floored percentage, so at totals such as 50 it can be one above the source (108 for 29 of 50, where the source gives 107).
- GameLogic.WeakCount: is the exact floor of 3q/5. For very large round sizes the floating-point product `q * 0.6` can round up to the next integer and the source's floor is then one higher; the game's round sizes, 10 and 20, are exact.
- CampaignLogic.CalculateCampaignXP: requires a non-zero total, for the same reason, and inherits the exact floored percentage of GameLogic.CalculateXP. Campaign rounds have 20 questions, where the two agree.
- WeakAreasDialog.PracticeTables: requires every key to parse as two numbers. For any other key the source sorts NaN among numbers, and the result of that depends on the engine. `GameKeysParse` shows that every key the game writes parses.
- Decimal.ParseNumber: models `Number(s)` only on the empty string, digit strings and '-' followed by digits. Whitespace, '+', fractions, exponents and hex never occur in fact keys and read as failure here.
- Sorting.Shuffle: allows every permutation. It does not model which permutations a particular engine's sort with a random comparator can actually produce.
- WeakAreasDialog.CollectNumbers: requires every key to parse as two numbers, for the same reason as PracticeTables.
- WeakAreasDialog.PracticeSettings: requires every key to parse as two numbers, for the same reason as PracticeTables.
- GameLogic.SelectPairs: requires one draw per random pick. That is exactly how many times the source calls `Math.random` in that loop.
