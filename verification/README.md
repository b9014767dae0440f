# Football tactical analysis, modelled in Dafny

`football_analysis.py` is a simulated-match analysis script. It builds an event
table: one row per minute (1–90) and per player (P1–P22). Each row holds the
player's team, a pitch position `x`, `y`, a speed and an event (pass, shot,
pressure, carry or none). The script then prints a series of reports over that
table:

- pressing intensity per minute, with its mean and its peak minute;
- Team A's use of five vertical pitch zones;
- a proxy expected-goals (xG) value per shot, and the mean xG;
- counts of fast carries, of Team B actions deep in its own half and of wide
  shots;
- a histogram of event kinds that feeds a short narrative;
- the five players with the most recorded events.

The model keeps the table as a sequence of `Record`s and builds the generator
as a method with the script's nested minute × player loop. Every report is a
function over the table. The random draws are parameters.

Module layout:

- `Wrappers` — `Option`.
- `Table` — the pandas building blocks: a row filter (`df[mask]`), per-key
  counting, and the `groupby(...).size()` / `.count()` / `value_counts()`
  result. That result is modelled as an association list of `Group(key, size)`
  with distinct keys. `Size(g, k)` is `Series.get(k, 0)`.
- `MatchData` — records, the roster, the generator and facts about the table
  it generates.
- `Pressing`, `PitchZones`, `EventReports`, `ExpectedGoals`, `PlayerRanking` —
  one module per report.

Decisions that follow the code:

- **Pitch zones** use `pd.cut` with its default right-closed bins: (0,20] is
  Far Left, and so on up to (80,100] for Far Right. `x = 0` and values outside
  (0,100] fall in no zone. A half-open [a,b) reading would put `x = 20` in
  Left; the code puts it in Far Left.
- **Pressing, no pressure rows.** The mean of the per-minute counts is NaN
  (`None` here), and `idxmax` raises an error (`None` here). Neither is 0, and
  there is no "empty" peak.
- **The peak minute** is the minute with the largest count; among equal
  counts it is the earliest. That is what `idxmax` returns over the
  minute-sorted index that `groupby` builds.
- **Uniform draws** (`np.random.uniform(a, b)`) lie in the half-open [a,b).
  The xG bands are therefore [0.3,0.6) and [0.05,0.25).
- **Ranking ties.** `sort_values(ascending=False)` gives no particular order
  among players with equal counts, so no tie order is promised.
- **Missing events.** The `Event` type has a `Missing` value for an empty
  event cell read back from the CSV file. `groupby("player")["event"].count()`
  and `value_counts()` skip it; `groupby("minute").size()` does not. The
  generator never produces it.

## Model

| member | source | states |
|---|---|---|
| Table.Select | football_analysis.py:73 | the filtered rows are rows of the table that pass the mask; each passing row is kept as many times as it occurs and each failing row is dropped (equal multisets); the result is empty exactly when no row passes |
| Table.CountKeyOfSelect | football_analysis.py:73-76 | counting one key within the filtered rows equals counting rows that have that key and pass the mask |
| Table.Tally | football_analysis.py:76 | adding one row to a grouping raises exactly that key's count by one and adds the key if new; keys stay distinct; the total grows by one |
| Table.GroupCount | football_analysis.py:76 | grouping and counting: keys are distinct; the keys are exactly the keys present in the table; each key's count is the number of its counted rows; counts sum to the number of counted rows |
| MatchData.Roster | football_analysis.py:20 | the roster `P1`..`P22` has exactly 22 labels, one per squad slot; `RosterAllDistinct` shows no label repeats |
| MatchData.DecimalInjective | football_analysis.py:20 | two numbers with the same decimal rendering are equal, so player names `P1`..`P22` identify their slots |
| MatchData.RosterAllDistinct | football_analysis.py:20 | the 22 player names are pairwise different |
| MatchData.TeamOf | football_analysis.py:30 | the team of a label: a label that is not on the roster falls to Team_B, the `else` branch of the membership test |
| MatchData.TeamOfSlot | football_analysis.py:30 | a player is on Team_A exactly when they are among the first 11 names |
| MatchData.MatchTable | football_analysis.py:25-38 | the closed form of the generated table: one row per draw, row `i` built by `RowAt` from draw `i`, with the minute `i / 22 + 1` and roster slot `i mod 22`; its shape is stated by `MatchTableShape` and `EachPairOnce` |
| MatchData.LoopRow | football_analysis.py:27-38 | the record the loop appends for minute m and slot k is `RowAt` of index (m − 1)·22 + k: the right minute, the slot's player, the team from the membership test, and the draw's values |
| MatchData.GenerateMatch | football_analysis.py:20-38 | the nested minute × player loop produces exactly the minute-major table of one row per (minute, player), with each row's draws in order |
| MatchData.MatchTableShape | football_analysis.py:20-38 | the table has 1980 rows, minutes 1..90 in non-decreasing order, row `i` belongs to player `i mod 22`, and Team_A holds exactly slots 0..10 |
| MatchData.EachPairOnce | football_analysis.py:25-38 | each (minute, player) pair has its row at index (minute − 1)·22 + slot and at no other index |
| MatchData.RosterInTable | football_analysis.py:25-38 | every roster player appears in the generated table |
| MatchData.PrefixCountsBlocks | football_analysis.py:25-38 | in the first m minutes of the table, each player has exactly m rows |
| MatchData.EveryPlayerCountsNinety | football_analysis.py:25-38 | with no missing event, every player has exactly 90 recorded events |
| Pressing.PressingIntensity | football_analysis.py:73-76 | per-minute pressure counts: a minute is listed exactly when it has a pressure row; each count is positive and equals that minute's pressure rows; counts sum to the number of pressure rows |
| Pressing.NoPressingMinutes | football_analysis.py:73-76 | the per-minute grouping is empty exactly when there is no pressure row |
| Pressing.PeakGroupIsArgmax | football_analysis.py:82-83 | read through `Series.get`, the peak group's key carries the peak count, no minute has more, and every minute with as many is at least as late |
| Pressing.PeakGroup | football_analysis.py:82-83 | the chosen group is a member, has the largest count, and has the smallest key among equally large groups |
| Pressing.AveragePressing | football_analysis.py:76-80 | the mean is undefined exactly when no pressure row exists; otherwise it is the pressure-row count over the number of pressing minutes, and at least 1 |
| Pressing.PeakPressingMinute | football_analysis.py:82-83 | the peak exists exactly when a pressure row exists; it is a pressing minute; no minute has more presses; it is the earliest minute with the peak count |
| Pressing.AverageAtMostPeak | football_analysis.py:76-83 | whenever both are defined, the mean never exceeds the peak minute's count |
| PitchZones.Bin | football_analysis.py:92-96 | with increasing edges, `x` falls in bin j exactly when edge_j < x ≤ edge_{j+1}, and in no bin exactly when x ≤ the first edge or x > the last |
| PitchZones.ZoneOf | football_analysis.py:92-96 | the zone of an x coordinate: the label of the bin holding it; no zone exactly when x ≤ 0 or x > 100 |
| PitchZones.ZoneBands | football_analysis.py:92-96 | Far Left is exactly (0,20], Left (20,40], Center (40,60], Right (60,80], Far Right (80,100]; no zone exactly when x ≤ 0 or x > 100 |
| PitchZones.TeamAZoneGroups | football_analysis.py:89-98 | the zone count of each label is the number of Team_A rows in that zone |
| PitchZones.ZoneUsage | football_analysis.py:89-98 | all five labels are reported in label order, each with its Team_A row count, zero included |
| PitchZones.BandCountsCover | football_analysis.py:89-98 | the five zone counts add up to the number of Team_A rows with 0 < x ≤ 100 |
| PitchZones.ZoneUsageTotal | football_analysis.py:89-98 | the reported zone usage totals the Team_A rows on the pitch |
| EventReports.EventCounts | football_analysis.py:136 | the event histogram has distinct, positive entries; a missing event is never a key; every other kind's count is its number of rows; counts sum to rows with an event |
| EventReports.NarrativeFigures | football_analysis.py:141-143 | the narrative's pass, pressure and shot figures are the rows of each kind, 0 when a kind is absent |
| EventReports.TransitionCount | football_analysis.py:123-129 | the transition count is the number of carries with speed strictly above 5; it never exceeds the carry count, and is zero exactly when no such carry exists |
| EventReports.WeakZoneCount | football_analysis.py:166-172 | the weak-zone count is the number of Team_B rows with x strictly below 30; it never exceeds Team_B's rows, and is zero exactly when no such row exists |
| EventReports.SetPieceCount | football_analysis.py:200-206 | the set-piece count is the number of shots with y strictly below 20 or strictly above 80; it never exceeds the shot count, and is zero exactly when every shot has 20 ≤ y ≤ 80 |
| ExpectedGoals.Shots | football_analysis.py:107 | the shot rows are exactly the table's shot rows, each as often as it occurs in the table (equal multisets); no other row is kept; as many as the histogram's shot count |
| ExpectedGoals.ShotsAreRows | football_analysis.py:107 | every record the shot filter returns is a row of the table |
| ExpectedGoals.ProxyXG | football_analysis.py:110-114 | each shot takes its high-band draw exactly when x > 70 strictly, and its low-band draw otherwise (x = 70 included) |
| ExpectedGoals.XGBand | football_analysis.py:110-114 | with draws in their bands, a shot's xG is in [0.3,0.6) exactly when x > 70, and in [0.05,0.25) exactly when x ≤ 70 |
| ExpectedGoals.MeanXG | football_analysis.py:117 | the mean xG is undefined exactly when there are no shots |
| ExpectedGoals.SumWithin | football_analysis.py:117 | n values in [lo,hi) sum to at least n·lo and less than n·hi |
| ExpectedGoals.MeanWithin | football_analysis.py:117 | the mean of values in [lo,hi) lies in [lo,hi) |
| ExpectedGoals.MeanXGBounds | football_analysis.py:110-117 | the mean xG lies in [0.05,0.6); it is in the high band [0.3,0.6) when every shot is beyond x = 70, and in the low band [0.05,0.25) when none is |
| ExpectedGoals.TableMeanXG | football_analysis.py:107-117 | the xG report read from the table: with one draw per shot row, the mean xG of the table's shots lies in [0.05,0.6), in the high band when every shot row of the table is beyond x = 70, and in the low band when none is |
| PlayerRanking.RoleScore | football_analysis.py:153-155 | one entry per player in the table, holding that player's count of recorded events; the counts sum to the rows with an event |
| PlayerRanking.InsertBySize | football_analysis.py:156 | inserting into a list sorted by decreasing count keeps it sorted and adds exactly that entry |
| PlayerRanking.SortBySize | football_analysis.py:156 | sorting yields a non-increasing permutation of the entries |
| PlayerRanking.SortKeepsTotal | football_analysis.py:153-156 | sorting keeps the sum of counts |
| PlayerRanking.Ranking | football_analysis.py:153-157 | the ranking is a non-increasing permutation of the per-player counts, which sum to the rows with a recorded event |
| PlayerRanking.Head | football_analysis.py:160 | the first n entries of the sorted list: min(n, size) of them, non-increasing, distinct keys, and no entry left out has a larger count than one shown |
| PlayerRanking.TopPlayers | football_analysis.py:153-160 | the top five is a prefix of the ranking; it shows each player once with their true count, and no player left out has more events than one shown |
| PlayerRanking.GeneratedRankingIsFlat | football_analysis.py:153-160 | on a generated table with no missing event, every shown count is 90 |
| PlayerRanking.FivePlayersShowFive | football_analysis.py:159-160 | a table with five different roster players among its rows makes the ranking show exactly five entries |
| PlayerRanking.GeneratedRankingShowsFive | football_analysis.py:159-160 | on a generated table the ranking shows exactly five players |

## Left out

- KMeans shape clustering (football_analysis.py:58-59) is a foreign sklearn call with floating-point centroids, and its result is not determined by this file.
- The compactness index (football_analysis.py:178-189) needs floating-point means and a square root, which are not modelled.
- Random number generation (`np.random.seed`, `uniform`, `choice`): the drawn values are parameters. The generator's draws are `Draw` values; the xG draws are two sequences of reals. The probability weights of `choice` are not modelled.
- Directory creation and the CSV write and read-back (football_analysis.py:13, 41, 50) are I/O. The round trip is assumed to return the same table; an empty event cell is represented by `Missing`.
- `print`, `round(...)` and the narrative's string formatting are presentation only. The model returns the numbers that would be printed.
- Floating point: coordinates, speeds, xG values and means are exact `real`s, so rounding and NaN coordinates are not modelled.
- Table.Select: the filtered rows keep their table order, but the contract states only which rows are kept and how often (their multiset), not that order.
- PlayerRanking.TopPlayers: the order among players with equal counts is not stated, because `sort_values` promises none.
- EventReports.EventCounts and PitchZones.ZoneUsage: the display order of `value_counts()` (by decreasing count) is not stated. Only the counts per key are. `ZoneUsage` lists the zones in label order.
- Pressing.PressingIntensity: the order of the groups is not stated. The peak is defined by value (largest count, earliest minute), which matches `idxmax` over pandas' sorted minute index.
