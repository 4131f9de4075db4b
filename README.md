# StatsBomb statistics core in Dafny

This project models the statistics pipeline of a StatsBomb open-data client.
The model covers these steps:

- **Match aggregation.** The event aggregator `get_player_match_stats` turns one match's lineups and ordered events into one counter record per lineup player.
- **Season roll-up.** `get_player_season_stats` groups the records of all of a season's matches by (player, team, position). It sums each group's counters and derives per-90 and percentage rates.
- **League table.** `get_team_stats` tallies games, wins, draws, losses and goals per team, adds points and goal difference, and orders the teams by points.
- **Heatmap.** `get_player_heatmap_data` lists the located events of one player.
- **Passing network.** `get_passing_network` gives the position of each player in a team's lineup and counts passes between pairs of team-mates.
- **Player analysis.** `analyze_player_performance` builds a career total, per-90 figures and guarded efficiency ratios for one player across the selected competitions. `compare_players` tabulates those figures for several players.
- **Rankings.** The three ranking reports (shooting efficiency, creative players, defensive players) filter the season table, derive their columns and sort.
- **Scouting report.** `generate_scouting_report` is a summary, rule-based strengths, weaknesses and style traits, and up to five recent match records.

## How the model is built

- **Fetched data is passed in.** The data the client fetches over HTTP is passed in as values (`Events.MatchData`, `Analyzer.Competition`). A fetch or aggregation that raised is an `Option` value of `None`, which the callers drop just as their `try/except` blocks do.
- **Loops become methods.** Each loop of the source is a method (`AggregateMatch`, `PlayerSeasonStats`, `TeamStats`, `PassingNetwork`, `PlayerHeatmap`, `AnalyzePlayerPerformance`, `ComparePlayers`, `GenerateScoutingReport`). Each method is proved against a specification function, and the lemmas state the source's promises about that function.
- **Insertion order is kept.** A Python dict whose insertion order shows in the result is kept as a sequence of keys next to a map (`Records.MatchTable`, `TeamStats.Standings`).
- **Unguarded divisions give an `Option<real>`.** `None` stands for pandas' NaN or infinity. A comparison against NaN is false, as in Python (`Scouting.Above`). A sort puts NaN keys last (`Rankings.NanLast`).
- **Unstable sorts.** pandas' `sort_values` is not stable, so every sort is specified by its two promises, ordered and a permutation of its input (`Sorting.SortDesc`).
- **`groupby` sorts its keys.** Both the roll-up and the career total use the lexicographic string order `Text.StrLess`. The career total is the group of the smallest matching name (`.iloc[0]`).

Counters are *consistent* when completed passes ≤ passes, assists + key passes ≤ passes, goals ≤ shots on target ≤ shots, completed dribbles ≤ dribbles, yellow + red cards ≤ fouls, and xa = 0 (the aggregator never credits xa). A season row is *regular* when it has games > 0, 90 minutes per game and consistent counters.

The model follows these details of the code:

- An event of a player who is in no lineup is skipped (statsbomb_fetcher.py:116-117). No record is created for that player.
- The divisions of the season table (statsbomb_fetcher.py:230-239) and of the rankings (statsbomb_analyzer.py:357-360, 378-386, 408-413) are not guarded. A zero denominator gives NaN or infinity, never 0.
- Cards are counted by comparing the card name with "Yellow Card" and "Red Card" (statsbomb_fetcher.py:164-167).
- The shot outcomes that are not on target are "Blocked", "Off T" and "Wayward" (statsbomb_fetcher.py:138).
- `xg_for` and `xg_against` in the league table are created at 0 (statsbomb_fetcher.py:263-264) and never updated.

## Model

| member | source | states |
|---|---|---|
| Text.Lower | statsbomb_fetcher.py:202 | the folded string has the same length, and each character is the ASCII lower-case form of the original one |
| Text.ContainsItselfIgnoringCase | statsbomb_fetcher.py:200-203 | the name filter keeps every record whose player name equals the filter |
| Text.StrLessTransitive | statsbomb_fetcher.py:206 | the order in which `groupby` sorts string keys is transitive |
| Text.StrLessTotal | statsbomb_fetcher.py:206 | any two different keys are ordered one way or the other |
| Text.StrLessIrreflexive | statsbomb_fetcher.py:206 | no key precedes itself |
| Text.PairKey | statsbomb_fetcher.py:357 | the network key is the passer's name, then "->", then the recipient's name |
| Text.PairKeyInjective | statsbomb_fetcher.py:357 | when the passer name has no '>', two keys are equal only for the same passer and recipient |
| Text.PairKeyCollision | statsbomb_fetcher.py:357 | without that condition two different pairs share a key ("a->b" to "c" and "a" to "b->c") |
| Sorting.SortDesc | statsbomb_analyzer.py:363 | the result is ordered by non-increasing key and is a permutation of the input |
| Records.Rows | statsbomb_fetcher.py:172 | the table's rows, one per player id, in first-insertion order |
| MatchStats.Tally | statsbomb_fetcher.py:119-170 | the if/elif dispatch on the event type adds exactly the per-event increments of the policy table `Delta` |
| MatchStats.AggregateMatch | statsbomb_fetcher.py:74-172 | the lineup loop and the event loop produce the table `Aggregated` |
| MatchStats.SeedShape | statsbomb_fetcher.py:82-108 | after the lineup loop the ids are the lineup ids without repeats, in order of first appearance; there is one zeroed record per id, built from the last lineup entry with that id: its name and team, its first position or "Unknown", and 90 minutes |
| MatchStats.RegisterAllShape | statsbomb_fetcher.py:83-108 | registering a lineup appends each new player id once, at its first entry, keeps existing ids in place, and gives every id of the lineup the record of its last entry; other records are unchanged |
| MatchStats.DedupSpec | statsbomb_fetcher.py:83-86 | the id list has no repeats, holds exactly the ids of the input, and orders them by first occurrence |
| MatchStats.LineupIdsSpec | statsbomb_fetcher.py:83-84 | the flattened id list holds exactly the ids that some lineup entry carries |
| MatchStats.LastEntryFound | statsbomb_fetcher.py:84-86 | the search in one lineup finds an entry exactly when one has the id |
| MatchStats.LastEntrySpec | statsbomb_fetcher.py:84-86 | the entry found is one with the id and no later entry has it |
| MatchStats.LastSlotFound | statsbomb_fetcher.py:83-86 | the search over all lineups finds an entry exactly when some lineup lists the id |
| MatchStats.LastSlotSpec | statsbomb_fetcher.py:83-86 | the entry found has the id, comes with its team's name, and no later entry of that team or of a later team has the id |
| MatchStats.SeedKeys | statsbomb_fetcher.py:82-108 | the lineup loop creates records for exactly the ids some lineup lists |
| MatchStats.RepeatedIdScenario | statsbomb_fetcher.py:82-108 | with id 7 listed by team A as "P" and later by team B as "Q", after id 8, the ids are 7 then 8 and 7's record is "Q" of team B with position "Unknown" |
| MatchStats.ApplyEventsEffect | statsbomb_fetcher.py:111-170 | the event loop keeps the set and order of player ids and adds to each record the increments of exactly the events credited to that player |
| MatchStats.DeltaShape | statsbomb_fetcher.py:119-170 | one event adds one touch, never any xa, at most one of the type counters, and consistent increments |
| MatchStats.PlayerTotalCounts | statsbomb_fetcher.py:169-170 | a player's touches equal the number of that player's events, and the counters stay consistent |
| MatchStats.MatchStatsShape | statsbomb_fetcher.py:74-172 | the table lists each lineup player id once, in order of first appearance, and has a record for exactly those ids; each record has the name, team and position of the last lineup entry with that id, 90 minutes, and counters equal to the sum over the player's events |
| MatchStats.TouchesCountEvents | statsbomb_fetcher.py:169-170 | every credited event counts as a touch, whatever its type |
| MatchStats.MatchRowsConsistent | statsbomb_fetcher.py:85-172 | every record of a match has 90 minutes and consistent counters |
| MatchStats.UnlistedEventIgnored | statsbomb_fetcher.py:112-117 | an event without a player, or of a player who is in no lineup, changes nothing |
| MatchStats.GoalCounts | statsbomb_fetcher.py:133-139 | a goal adds one shot, one shot on target, one goal and one touch to its scorer |
| MatchStats.GoalAndTwoPassesScenario | statsbomb_fetcher.py:82-170 | a forward who scores with 0.3 xg and makes one complete and one incomplete pass gets 1 shot on target, 1 goal, 2 passes of which 1 is completed, and 3 touches |
| MatchStats.ApplyEventsAsWrittenSpec | statsbomb_fetcher.py:122-167 | the event loop as written raises exactly when a credited event's branch reads a payload cell that is NaN; otherwise it agrees with the corrected loop |
| MatchStats.AggregatedAsWrittenSpec | statsbomb_fetcher.py:111-172 | as written the aggregator fails exactly on matches that have such an event; otherwise it returns `Aggregated` |
| MatchStats.UncardedFoulDropsMatch | statsbomb_fetcher.py:159-167 | a foul without `foul_committed` raises as written when another foul of the match was booked; the intended record has 2 fouls and 1 yellow card |
| SeasonStats.KeyLessTransitive | statsbomb_fetcher.py:206 | the (player, team, position) key order is transitive |
| SeasonStats.KeyLessTotal | statsbomb_fetcher.py:206 | any two different group keys are ordered |
| SeasonStats.TotalOfAppend | statsbomb_fetcher.py:206-227 | a group's sums over two record lists add up |
| SeasonStats.TotalOfPermutation | statsbomb_fetcher.py:206-227 | a group's sums do not depend on the order of its records |
| SeasonStats.TotalOfGames | statsbomb_fetcher.py:207 | a group has a positive game count exactly when some record has its key |
| SeasonStats.TotalOfMinutes | statsbomb_fetcher.py:208 | the group's minutes are 90 times its games |
| SeasonStats.TotalOfConsistent | statsbomb_fetcher.py:209-226 | summed counters stay consistent |
| SeasonStats.AbsorbSpec | statsbomb_fetcher.py:206-227 | adding a record to the grouped rows keeps them strictly ordered by key and adds the record's counters to its own group alone |
| SeasonStats.RollupSpec | statsbomb_fetcher.py:206-227 | the grouped rows are strictly ordered by key, and each key's row holds that key's sums over all records |
| SeasonStats.GroupedUnique | statsbomb_fetcher.py:206 | two grouped tables with the same sums for every key are equal |
| SeasonStats.RollupPermutation | statsbomb_fetcher.py:197-227 | the roll-up of any reordering of the records is the same table |
| SeasonStats.RollupGroups | statsbomb_fetcher.py:206-227 | there is one row per key that occurs in the records and no other, and each row holds its key's sums |
| SeasonStats.Select | statsbomb_fetcher.py:200-203 | the filter keeps every record whose name contains the pattern ignoring case, each as often as before, and no other record |
| SeasonStats.FilterCounts | statsbomb_fetcher.py:200-203 | with an empty or absent name every record is kept; otherwise exactly the records that match |
| SeasonStats.Ratio | statsbomb_fetcher.py:230-239 | a ratio is defined exactly when its denominator is nonzero, and then it times the denominator gives the scaled numerator |
| SeasonStats.PercentBounds | statsbomb_fetcher.py:235-237 | a defined percentage of a part no larger than the whole is between 0 and 100 |
| SeasonStats.Per90IsPerGame | statsbomb_fetcher.py:230-239 | with 90 minutes per game, per-90 is the per-game average |
| SeasonStats.TablesNone | statsbomb_fetcher.py:180-191 | a match whose aggregation raised is skipped, so there is no table at all exactly when every match raised |
| SeasonStats.PlayerSeasonStats | statsbomb_fetcher.py:174-241 | the match loop and the roll-up produce `SeasonTable` |
| SeasonStats.NoMatchesWhenAllFailed | statsbomb_fetcher.py:193-194 | the empty result comes back exactly when no match was aggregated |
| SeasonStats.MatchRowsEmpty | statsbomb_fetcher.py:82-108 | a match table is empty exactly when every lineup is empty |
| SeasonStats.ColumnsMissingWhenNoPlayers | statsbomb_fetcher.py:196-206 | the group-by raises for missing columns exactly when some match was aggregated but every aggregated match had empty lineups |
| SeasonStats.DeriveRollup | statsbomb_fetcher.py:206-241 | the rows are strictly ordered by key, each holds its key's sums and the rates of those sums, and every occurring key has a row |
| SeasonStats.SeasonGroups | statsbomb_fetcher.py:197-241 | the season rows are the roll-up of the filtered records of the matches that were aggregated, and every row's name passes the filter |
| SeasonStats.SeasonRowsTallied | statsbomb_fetcher.py:206-239 | every row has games > 0 and 90 minutes per game; its per-90 rates are defined (goals per 90 is goals per game, xa per 90 is 0); its percentages lie in [0, 100] when defined |
| SeasonStats.SeasonOrderIndependent | statsbomb_fetcher.py:180-227 | the season table does not depend on the order of the matches |
| SeasonStats.TableRegular | statsbomb_fetcher.py:206-227 | every season row has games > 0, 90 minutes per game and consistent counters |
| SeasonStats.SeasonAsWrittenSpec | statsbomb_fetcher.py:182-194 | as written, the season is the empty DataFrame exactly when every match failed to fetch or raised in the aggregator; with no raising match it is the intended table |
| SeasonStats.RaisingMatchEmptiesSeason | statsbomb_fetcher.py:182-194 | a season whose only match raises in the aggregator as written is the empty DataFrame, while the intended season has rows |
| SeasonStats.SingleMatchTable | statsbomb_fetcher.py:182-206 | a season of one aggregated match with some lineup player has rows |
| SeasonStats.UncardedFoulEmptiesSeason | statsbomb_fetcher.py:159-194 | the season of the uncarded-foul match alone is the empty DataFrame as written, and has rows as intended |
| TeamStats.Enter | statsbomb_fetcher.py:254-265 | a team is added with a zero record if absent; existing records are unchanged |
| TeamStats.RecordResult | statsbomb_fetcher.py:267-287 | one match adds a game and the goals to both teams, and a win and a loss or two draws, following the score |
| TeamStats.TeamStats | statsbomb_fetcher.py:243-293 | with no match the dictionary is empty and reading the `wins` column raises; otherwise the rows are ordered by non-increasing points and are a permutation of the league standings' rows |
| TeamStats.EnterValid | statsbomb_fetcher.py:254-265 | a new team is appended at the end of the insertion order; a known team changes nothing |
| TeamStats.PlayKeys | statsbomb_fetcher.py:249-287 | after a match the teams are the old ones plus its home and away teams |
| TeamStats.StandingsValid | statsbomb_fetcher.py:249-287 | the table has exactly the teams named in some match |
| TeamStats.NoTeamsWhenNoMatches | statsbomb_fetcher.py:249-265 | the dictionary is empty exactly when there is no match, since every match enters its two teams |
| TeamStats.StandingsBalanced | statsbomb_fetcher.py:256-287 | for every team games = wins + draws + losses, and the xg columns stay 0 |
| TeamStats.PlaySums | statsbomb_fetcher.py:271-287 | a match adds 2 to the total games and keeps total goals for minus against, and total wins minus losses |
| TeamStats.LeagueTotals | statsbomb_fetcher.py:249-287 | total games are twice the number of matches, total goals for equal total goals against, and total wins equal total losses |
| TeamStats.LeagueTable | statsbomb_fetcher.py:289-293 | every row belongs to a team of some match, has points = 3·wins + draws and goal difference = goals for − goals against; the league totals hold over the rows |
| PassingNetwork.FindLineup | statsbomb_fetcher.py:320-325 | the lineup of the first team with that name is returned, or none when no team has it |
| PassingNetwork.PassingNetwork | statsbomb_fetcher.py:315-361 | the lineup search, the three loops and the `type` column read produce `NetworkOf` |
| PassingNetwork.NoNetworkWhen | statsbomb_fetcher.py:320-341 | `{}` is returned exactly when the first team with that name is absent or has an empty lineup; otherwise reading the `type` column raises exactly when the match has no event |
| PassingNetwork.PositionsKeys | statsbomb_fetcher.py:330-336 | the players map has exactly the names of the lineup's entries |
| PassingNetwork.PositionsValues | statsbomb_fetcher.py:330-336 | each name maps to the id and first position (or "Unknown") of the last entry with that name |
| PassingNetwork.PassCountsSpec | statsbomb_fetcher.py:338-358 | a key is present exactly when some counted pass has it, and its value is the number of such passes |
| PassingNetwork.PairCountExact | statsbomb_fetcher.py:354-358 | when names have no '>', the count under "a->b" is the number of passes from a to b with both in the team |
| PassingNetwork.NetworkCounts | statsbomb_fetcher.py:338-361 | every count is positive and equals its key's number of passes; for '>'-free names, each passer and recipient pair's count equals the number of its passes within the team |
| Heatmap.PlayerHeatmap | statsbomb_fetcher.py:295-313 | the filter and loop produce `HeatmapOf` |
| Heatmap.PointsOfAppend | statsbomb_fetcher.py:304-313 | the points keep the order of their events |
| Heatmap.PointsOfSpec | statsbomb_fetcher.py:299-313 | there is at most one point per event, and a point is returned exactly when some located event of the player has that location and type |
| Heatmap.NoPointsWhen | statsbomb_fetcher.py:299-313 | the list is empty exactly when the player has no located event |
| Heatmap.PointsAsWrittenSpec | statsbomb_fetcher.py:305-311 | the loop as written raises exactly on an event of the player with a NaN location cell; otherwise it agrees with the corrected loop |
| Heatmap.HeatmapAsWrittenSpec | statsbomb_fetcher.py:295-313 | as written the call fails exactly when the player has an event without a location in a match where some event has one; otherwise it returns `HeatmapOf` |
| Heatmap.SubstitutionBreaksHeatmap | statsbomb_fetcher.py:305-311 | a "Player Off" event next to a located pass makes the call raise as written; the intended list holds the pass |
| Rankings.Where | statsbomb_analyzer.py:354 | the filter keeps exactly the rows that satisfy the condition, each as often as before |
| Rankings.Project | statsbomb_analyzer.py:365-367 | one derived row per row, in order |
| Rankings.RankSpec | statsbomb_analyzer.py:354-367 | a ranking is ordered by non-increasing key and holds exactly the derived rows of the kept rows |
| Rankings.ShooterRatios | statsbomb_analyzer.py:357-360 | for a shooter with at least one shot, goals per shot is in [0, 1], xg per shot is defined, and shot accuracy is in [0, 100] |
| Rankings.ShootersSpec | statsbomb_analyzer.py:354-367 | the shooters are exactly the rows with shots ≥ min_shots, ordered by goals − xg, non-increasing; for min_shots ≥ 1 their ratios are defined and bounded |
| Rankings.ShootingSpec | statsbomb_analyzer.py:348-367 | the ranking fails exactly when the season table does; otherwise it holds exactly the rows with enough shots, ordered by overperformance |
| Rankings.CreatorRates | statsbomb_analyzer.py:378-386 | the per-90 rates are defined; creative actions per 90 is assists per 90 plus key passes per 90; assist rate is defined exactly when assists + key passes > 0 and then lies in [0, 100] |
| Rankings.CreatorsSpec | statsbomb_analyzer.py:375-393 | the creators are exactly the rows with passes ≥ min_passes, ordered by creative actions per 90, non-increasing, with those rates |
| Rankings.CreativeSpec | statsbomb_analyzer.py:369-393 | the ranking fails exactly when the season table does; otherwise it holds exactly the rows with enough passes, in that order |
| Rankings.DefenderRates | statsbomb_analyzer.py:408-414 | a defender's per-90 rates are defined, and defensive actions per 90 is the sum of its three parts |
| Rankings.DefendersSpec | statsbomb_analyzer.py:401-421 | the defenders are exactly the rows whose position contains "Back", "Defender" or "Defensive Midfield" ignoring case and whose minutes ≥ min_minutes, ordered by defensive actions per 90, non-increasing |
| Rankings.DefensiveSpec | statsbomb_analyzer.py:395-421 | the ranking fails exactly when the season table does; otherwise it holds exactly those defenders, in that order |
| Analyzer.Tag | statsbomb_analyzer.py:41-43 | each season row keeps its columns and gains the competition and season names |
| Analyzer.FirstName | statsbomb_analyzer.py:53-67 | the group taken is the name of one of the rows |
| Analyzer.FirstNameSmallest | statsbomb_analyzer.py:53-67 | no row's name precedes the group taken, which is the first key `groupby` yields |
| Analyzer.EfficiencyOf | statsbomb_analyzer.py:83-85 | goals per shot and shot accuracy are 0 without shots and pass completion is 0 without passes; otherwise each is its ratio (×100 for the percentages) |
| Analyzer.AnalyzePlayerPerformance | statsbomb_analyzer.py:19-92 | the competition loop and the metric block produce `PerformanceOf` |
| Analyzer.PlayerDataEmpty | statsbomb_analyzer.py:31-48 | no rows are collected exactly when every selected competition contributes nothing |
| Analyzer.PlayerDataRegular | statsbomb_analyzer.py:33-43 | every collected row is a regular season row whose name contains the player name ignoring case |
| Analyzer.CareerRegular | statsbomb_analyzer.py:53-67 | the career total has 90 minutes per game and consistent counters, and at least one game when the name occurs |
| Analyzer.Per90PerGame | statsbomb_analyzer.py:73-81 | with 90 minutes per game each per-90 figure is the per-game average |
| Analyzer.EfficiencyBounds | statsbomb_analyzer.py:82-88 | goals per shot is in [0, 1], shot accuracy and pass completion are in [0, 100], goals per shot ×100 ≤ shot accuracy, and xa overperformance equals assists |
| Analyzer.NoDataWhen | statsbomb_analyzer.py:47-48 | the error dict "No data found for player …" comes back exactly when no selected competition yields rows |
| Analyzer.AnalysisCareer | statsbomb_analyzer.py:50-88 | an analysis has a career with games > 0 and 90 minutes per game, and its metrics are those of that career |
| Analyzer.AnalysisSpec | statsbomb_analyzer.py:50-90 | an analysis lists the player's rows and totals the group of the smallest matching name; its per-90 figures are per-game averages and its guarded ratios are bounded |
| Analyzer.Compared | statsbomb_analyzer.py:103-109 | only players without the error key are tabulated |
| Analyzer.ComparedSpec | statsbomb_analyzer.py:103-109 | a player is tabulated exactly when it is requested and its analysis succeeds, with that analysis |
| Analyzer.AvailableSpec | statsbomb_analyzer.py:114 | the selected metrics are exactly the requested ones that are comparison columns |
| Analyzer.AvailableAppend | statsbomb_analyzer.py:114 | the selection keeps the requested order |
| Analyzer.ComparePlayers | statsbomb_analyzer.py:94-115 | the loop and the column selection produce `ComparisonOf` |
| Analyzer.ComparisonFails | statsbomb_analyzer.py:111-115 | the selection raises for missing columns exactly when every player's analysis fails |
| Analyzer.ComparisonShape | statsbomb_analyzer.py:97-115 | the columns are "player_name" and then the requested metrics that exist, in requested order; there is one row per tabulated player, starting with the name |
| Analyzer.TabulateShape | statsbomb_analyzer.py:111-115 | every row has one cell per column and starts with the player's name |
| Scouting.GenerateScoutingReport | statsbomb_analyzer.py:423-502 | the method produces `ReportOf` |
| Scouting.Assess | statsbomb_analyzer.py:448-486 | the appends build exactly the strengths, weaknesses and style traits of the rule functions |
| Scouting.CollectRecent | statsbomb_analyzer.py:489-500 | the match loop collects the first record of the player from each of the first five matches that were aggregated |
| Scouting.FirstRecordOf | statsbomb_analyzer.py:494-496 | the player's first record in the match table, or none when the player is absent |
| Scouting.FailurePassesThrough | statsbomb_analyzer.py:426-429 | the report is the analysis's error dict exactly when the analysis fails |
| Scouting.ScoringRule | statsbomb_analyzer.py:453-456 | "Elite goal scorer" exactly when goals per 90 > 0.5, "Good goal threat" exactly when it is in (0.3, 0.5], never both |
| Scouting.CreativityRule | statsbomb_analyzer.py:459-462 | "Excellent creator" exactly when assists per 90 > 0.3, otherwise "Creates chances regularly" exactly when key passes per 90 > 2 |
| Scouting.ShootingRule | statsbomb_analyzer.py:465-468 | "Accurate shooter" exactly when shot accuracy > 40, "Poor shot accuracy" exactly when it is < 25, never both |
| Scouting.FinishingRule | statsbomb_analyzer.py:471-474 | the clinical-finisher strength exactly when xg overperformance > 5, the underperformance weakness exactly when it is < −5 |
| Scouting.PassingRule | statsbomb_analyzer.py:480-483 | "Reliable passer" exactly when pass completion > 85, "Risk-taking passer" exactly when it is < 70, never both |
| Scouting.ReportSizes | statsbomb_analyzer.py:452-486 | at most 4 strengths, 2 weaknesses and 3 style traits |
| Scouting.RecentMatchesSpec | statsbomb_analyzer.py:490-498 | at most one record per match, each the player's own |
| Scouting.RecentLimitRule | statsbomb_analyzer.py:489-500 | matches after the fifth never change the report; the recent list has at most 5 records, each the player's |
| Scouting.SummarySpec | statsbomb_analyzer.py:431-442 | the summary has games > 0 and 90 minutes per game, and goal contributions per 90 is (goals + assists) per game |

## Findings

| source | as written | input that shows it | evidently intended | confidence | as-written member | corrected member |
|---|---|---|---|---|---|---|
| statsbomb_fetcher.py:159-167 | The events frame has a `foul_committed` column as soon as one event carries that key. A foul without it then holds NaN, `'foul_committed' in event` is true, and `event['foul_committed'].get` raises. The season loop then drops the whole match (`SeasonStats.UncardedFoulEmptiesSeason`). The same applies to the `pass`, `shot`, `dribble` and `duel` reads at lines 124-150. | one lineup player; two "Foul Committed" events, the first without `foul_committed`, the second with a yellow card | a missing payload reads as `{}`: 2 fouls, 1 yellow card | high, not executed | MatchStats.UncardedFoulDropsMatch | MatchStats.MatchStatsShape |
| statsbomb_fetcher.py:305-311 | The frame has a `location` column as soon as one event has a location. A player's event without one then holds NaN, `event['location'] is not None` is true, and `event['location'][0]` raises. | one player with a "Player Off" event without a location and a "Pass" at (60, 40) | events without a location are skipped: one point (60, 40, "Pass") | high, not executed | Heatmap.SubstitutionBreaksHeatmap | Heatmap.PointsOfSpec |

## Left out

- HTTP fetching and the memo cache (statsbomb_fetcher.py:18-72) are not modelled. The fetched competitions, matches, events and lineups are parameters, and a fetch that raised is `None`.
- The `print` calls and the exception messages they show (statsbomb_fetcher.py:181, 190) are output only and are not modelled.
- Plotting (statsbomb_analyzer.py:175-346) is matplotlib drawing and is not modelled.
- `find_similar_players_statsbomb` (statsbomb_analyzer.py:117-173) is not modelled; it is floating-point statistics over standard deviations.
- statsbomb_main.py (a command-line wrapper) and test_connection.py (a network smoke test) are not part of this model.
- The `max_workers` argument at statsbomb_analyzer.py:17 would make the constructor raise, since `StatsBombFetcher.__init__` accepts no such argument. The model starts from a working fetcher.
- Floating point is not modelled. All rates are exact reals, so the rounding and summation order of pandas do not show.
- NaN and infinity are not values in the model. A division with a zero denominator is `None`, which covers both NaN and infinity.
- `str.contains` in the season name filter and the defensive position filter is modelled as a literal substring test with ASCII-only case folding. Regular-expression metacharacters in a player name and non-ASCII case folding are not modelled.
- The per-match columns `match_id`, `match_date` and `competition` (statsbomb_fetcher.py:185-187) are not carried. The roll-up's `match_id` count is the number of records in the group, which is what `count` gives since every record has a match id.
- The `competition` and `season` columns of `by_competition` (statsbomb_analyzer.py:41-42, 89) are carried. The career total sums every counter column, not only the 13 the source lists; those 13 have the same sums.
- The order in which the passing network's `players` and `passes` dictionaries list their keys is not modelled. They are maps.
- PassingNetwork: a "Pass" event without a `pass` payload is treated as having no recipient. As written, it would raise on the NaN cell just as the aggregator does (see Findings). StatsBomb passes always carry that payload, so this case is not given a separate member.
- Events are assumed to carry a `type` with a name and a location of at least two coordinates; the source indexes both without checks.
- SeasonStats.PlayerSeasonStats: each fetched match is aggregated with the corrected aggregator `Aggregated`, so a match on which the code as written raises (see Findings) still adds its rows. `SeasonStats.SeasonAsWritten` is the season with such matches dropped, as the `except` at statsbomb_fetcher.py:189-191 does.
- Scouting.CollectRecent: the recent matches also use the corrected aggregator. As written, the bare `except` at statsbomb_analyzer.py:497-498 skips a match on which the aggregator raises (see Findings).
- Sorting.SortDesc: equal keys may come out in any order, because pandas' default sort is not stable. The contract promises only ordering and permutation.
