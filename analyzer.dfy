/**
 * The player analysis of the analyzer (`analyze_player_performance`): the
 * player's season rows across the selected competitions, a career total for
 * one player name, and the per-90 and efficiency metrics derived from it;
 * and `compare_players`, which tabulates those metrics for several players.
 *
 * `AnalyzePlayerPerformance` and `ComparePlayers` are the source's loops;
 * `PerformanceOf` and `ComparisonOf` are the functions that specify them.
 */
module Analyzer {
  import opened Wrappers
  import opened Text
  import opened Events
  import opened Records
  import opened SeasonStats
  import MatchStats

  /**
   * One row of the competitions list. `matches` is what fetching that
   * competition's season delivers: `None` when fetching raised, otherwise
   * each match's data (`None` for a match whose aggregation raised).
   */
  datatype Competition = Competition(
    competitionId: int, seasonId: int,
    competitionName: string, seasonName: string,
    matches: Option<seq<Option<MatchData>>>)

  /** `if competition_name:` and `if season_name:` — an absent or empty name selects every row. */
  predicate Selected(c: Competition, competitionName: Option<string>, seasonName: Option<string>) {
    && (competitionName.None? || competitionName.value == "" || c.competitionName == competitionName.value)
    && (seasonName.None? || seasonName.value == "" || c.seasonName == seasonName.value)
  }

  /** One row of `player_data`: a season row with its `competition` and `season` columns. */
  datatype CompetitionRow = CompetitionRow(row: SeasonRow, competition: string, season: string)

  function Tag(rows: seq<SeasonRow>, c: Competition): (r: seq<CompetitionRow>)
    ensures |r| == |rows|
    ensures forall i :: 0 <= i < |rows| ==> r[i].row == rows[i]
  {
    seq(|rows|, i requires 0 <= i < |rows| => CompetitionRow(rows[i], c.competitionName, c.seasonName))
  }

  /**
   * What one competition adds to `all_stats`: nothing when fetching or the
   * season roll-up raised (the bare `except`) or the table is empty.
   */
  function Contribution(c: Competition, playerName: string): seq<CompetitionRow> {
    if c.matches.None? then []
    else
      var season := SeasonTable(c.matches.value, Some(playerName));
      if season.Table? then Tag(season.rows, c) else []
  }

  /** `player_data`: the contributions of the selected competitions, in order. */
  function PlayerData(comps: seq<Competition>, playerName: string,
                      competitionName: Option<string>, seasonName: Option<string>): seq<CompetitionRow>
    decreases |comps|
  {
    if comps == [] then []
    else
      var c := comps[|comps| - 1];
      PlayerData(comps[..|comps| - 1], playerName, competitionName, seasonName)
        + if Selected(c, competitionName, seasonName) then Contribution(c, playerName) else []
  }

  function NameOf(r: CompetitionRow): string {
    r.row.key.playerName
  }

  /** The first key of `groupby('player_name')`: a name of the rows that no other name precedes. */
  function FirstName(rows: seq<CompetitionRow>): (name: string)
    requires rows != []
    ensures exists i :: 0 <= i < |rows| && NameOf(rows[i]) == name
    decreases |rows|
  {
    var last := NameOf(rows[|rows| - 1]);
    if |rows| == 1 then last
    else
      var m := FirstName(rows[..|rows| - 1]);
      assert forall i :: 0 <= i < |rows| - 1 ==> rows[..|rows| - 1][i] == rows[i];
      if StrLess(last, m) then last else m
  }

  /** The career columns: every column summed over the rows of one player name. */
  function CareerOf(rows: seq<CompetitionRow>, name: string): Totals
    decreases |rows|
  {
    if rows == [] then NoTotals
    else
      var last := rows[|rows| - 1];
      Plus(CareerOf(rows[..|rows| - 1], name), if NameOf(last) == name then last.row.totals else NoTotals)
  }

  /** `per_90_stats`: each unguarded division; `None` stands for NaN or infinity. */
  datatype Per90Stats = Per90Stats(
    goalsPer90: Option<real>, assistsPer90: Option<real>, xgPer90: Option<real>, xaPer90: Option<real>,
    shotsPer90: Option<real>, keyPassesPer90: Option<real>, tacklesPer90: Option<real>)

  function Per90Of(c: Totals): Per90Stats {
    var s := c.stats;
    Per90Stats(
      Per90(s.goals as real, c), Per90(s.assists as real, c), Per90(s.xg, c), Per90(s.xa, c),
      Per90(s.shots as real, c), Per90(s.keyPasses as real, c), Per90(s.tackles as real, c))
  }

  /** `efficiency_metrics`. */
  datatype Efficiency = Efficiency(
    goalsPerShot: real, shotAccuracy: real, passCompletion: real,
    xgOverperformance: real, xaOverperformance: real)

  /**
   * The three ratios fall back to 0 on a zero denominator; otherwise each is
   * the ratio of its columns (times 100 for the percentages).
   */
  function EfficiencyOf(c: Totals): (r: Efficiency)
    ensures c.stats.shots == 0 ==> r.goalsPerShot == 0.0 && r.shotAccuracy == 0.0
    ensures c.stats.shots > 0 ==> r.goalsPerShot * c.stats.shots as real == c.stats.goals as real
    ensures c.stats.shots > 0 ==> r.shotAccuracy * c.stats.shots as real == c.stats.shotsOnTarget as real * 100.0
    ensures c.stats.passes == 0 ==> r.passCompletion == 0.0
    ensures c.stats.passes > 0 ==> r.passCompletion * c.stats.passes as real == c.stats.passesCompleted as real * 100.0
  {
    var s := c.stats;
    Efficiency(
      if s.shots > 0 then s.goals as real / s.shots as real else 0.0,
      if s.shots > 0 then s.shotsOnTarget as real / s.shots as real * 100.0 else 0.0,
      if s.passes > 0 then s.passesCompleted as real / s.passes as real * 100.0 else 0.0,
      s.goals as real - s.xg,
      s.assists as real - s.xa)
  }

  /** The returned dictionary: the error, or the analysis. */
  datatype Performance =
    | NoData(error: string)
    | Analysis(playerName: string, career: Totals, per90: Per90Stats, efficiency: Efficiency,
               byCompetition: seq<CompetitionRow>)

  function NoDataMessage(playerName: string): string {
    "No data found for player " + playerName
  }

  /** What `analyze_player_performance` returns for these competitions and filters. */
  function PerformanceOf(comps: seq<Competition>, playerName: string,
                         competitionName: Option<string>, seasonName: Option<string>): Performance {
    var data := PlayerData(comps, playerName, competitionName, seasonName);
    if data == [] then NoData(NoDataMessage(playerName))
    else
      var career := CareerOf(data, FirstName(data));
      Analysis(playerName, career, Per90Of(career), EfficiencyOf(career), data)
  }

  /** `analyze_player_performance` on already-fetched competitions. */
  method AnalyzePlayerPerformance(comps: seq<Competition>, playerName: string,
                                  competitionName: Option<string>, seasonName: Option<string>)
    returns (perf: Performance)
    ensures perf == PerformanceOf(comps, playerName, competitionName, seasonName)
  {
    var playerData: seq<CompetitionRow> := [];
    for i := 0 to |comps|
      invariant playerData == PlayerData(comps[..i], playerName, competitionName, seasonName)
    {
      var comp := comps[i];
      assert comps[..i + 1][..i] == comps[..i];
      if !Selected(comp, competitionName, seasonName) || comp.matches.None? {
        continue;
      }
      var stats := PlayerSeasonStats(comp.matches.value, Some(playerName));
      if stats.Table? && stats.rows != [] {
        playerData := playerData + Tag(stats.rows, comp);
      }
    }
    assert comps[..|comps|] == comps;
    if playerData == [] {
      return NoData(NoDataMessage(playerName));
    }
    var career := CareerOf(playerData, FirstName(playerData));
    perf := Analysis(playerName, career, Per90Of(career), EfficiencyOf(career), playerData);
  }

  // ---------------------------------------------------------------------
  // What the analysis promises

  /** `FirstName` is the smallest name of the rows. */
  lemma {:induction false} FirstNameSmallest(rows: seq<CompetitionRow>)
    requires rows != []
    ensures forall i :: 0 <= i < |rows| ==> !StrLess(NameOf(rows[i]), FirstName(rows))
    decreases |rows|
  {
    var n := |rows| - 1;
    var last := NameOf(rows[n]);
    StrLessIrreflexive(last);
    if n > 0 {
      var pre := rows[..n];
      var m := FirstName(pre);
      FirstNameSmallest(pre);
      forall i | 0 <= i < n ensures !StrLess(NameOf(rows[i]), FirstName(rows)) {
        assert rows[i] == pre[i];
        if StrLess(last, m) && StrLess(NameOf(rows[i]), last) {
          StrLessTransitive(NameOf(rows[i]), last, m);
        }
      }
    }
  }

  /** No selected competition contributes a row. */
  predicate Silent(comps: seq<Competition>, playerName: string, competitionName: Option<string>, seasonName: Option<string>) {
    forall c :: c in comps && Selected(c, competitionName, seasonName) ==> Contribution(c, playerName) == []
  }

  /** The data is empty exactly when no selected competition contributes a row. */
  lemma PlayerDataEmpty(comps: seq<Competition>, playerName: string,
                        competitionName: Option<string>, seasonName: Option<string>)
    ensures PlayerData(comps, playerName, competitionName, seasonName) == [] <==>
      forall c :: c in comps && Selected(c, competitionName, seasonName) ==> Contribution(c, playerName) == []
  {
    if Silent(comps, playerName, competitionName, seasonName) {
      SilentEmpty(comps, playerName, competitionName, seasonName);
    }
    if PlayerData(comps, playerName, competitionName, seasonName) == [] {
      EmptySilent(comps, playerName, competitionName, seasonName);
    }
  }

  lemma {:induction false} SilentEmpty(comps: seq<Competition>, playerName: string,
                                       competitionName: Option<string>, seasonName: Option<string>)
    requires Silent(comps, playerName, competitionName, seasonName)
    ensures PlayerData(comps, playerName, competitionName, seasonName) == []
    decreases |comps|
  {
    if comps != [] {
      var n := |comps| - 1;
      assert comps == comps[..n] + [comps[n]];
      SilentEmpty(comps[..n], playerName, competitionName, seasonName);
    }
  }

  lemma {:induction false} EmptySilent(comps: seq<Competition>, playerName: string,
                                       competitionName: Option<string>, seasonName: Option<string>)
    requires PlayerData(comps, playerName, competitionName, seasonName) == []
    ensures Silent(comps, playerName, competitionName, seasonName)
    decreases |comps|
  {
    if comps != [] {
      var n := |comps| - 1;
      EmptyParts(comps, playerName, competitionName, seasonName);
      EmptySilent(comps[..n], playerName, competitionName, seasonName);
      SilentSnoc(comps[..n], comps[n], playerName, competitionName, seasonName);
      assert comps[..n] + [comps[n]] == comps;
    }
  }

  lemma SilentSnoc(pre: seq<Competition>, c: Competition, playerName: string,
                   competitionName: Option<string>, seasonName: Option<string>)
    requires Silent(pre, playerName, competitionName, seasonName)
    requires Selected(c, competitionName, seasonName) ==> Contribution(c, playerName) == []
    ensures Silent(pre + [c], playerName, competitionName, seasonName)
  {
  }

  /** Empty data has an empty prefix and nothing from its last competition. */
  lemma EmptyParts(comps: seq<Competition>, playerName: string,
                   competitionName: Option<string>, seasonName: Option<string>)
    requires comps != [] && PlayerData(comps, playerName, competitionName, seasonName) == []
    ensures PlayerData(comps[..|comps| - 1], playerName, competitionName, seasonName) == []
    ensures Selected(comps[|comps| - 1], competitionName, seasonName) ==> Contribution(comps[|comps| - 1], playerName) == []
  {
    var head := PlayerData(comps[..|comps| - 1], playerName, competitionName, seasonName);
    var tail := if Selected(comps[|comps| - 1], competitionName, seasonName) then Contribution(comps[|comps| - 1], playerName) else [];
    assert |head + tail| == |head| + |tail|;
  }

  /** Every row of the data has the season table's shape and a name the player filter keeps. */
  lemma {:induction false} PlayerDataRegular(comps: seq<Competition>, playerName: string,
                                             competitionName: Option<string>, seasonName: Option<string>)
    ensures forall r :: r in PlayerData(comps, playerName, competitionName, seasonName) ==>
      Regular(r.row) && Keeps(Some(playerName), NameOf(r))
    decreases |comps|
  {
    if comps != [] {
      var n := |comps| - 1;
      var c := comps[n];
      PlayerDataRegular(comps[..n], playerName, competitionName, seasonName);
      if c.matches.Some? && SeasonTable(c.matches.value, Some(playerName)).Table? {
        TableRegular(c.matches.value, Some(playerName));
        SeasonGroups(c.matches.value, Some(playerName));
      }
    }
  }

  /** The career of a regular name keeps the table's shape: 90 minutes per game, consistent counters. */
  lemma {:induction false} CareerRegular(rows: seq<CompetitionRow>, name: string)
    requires forall r :: r in rows ==> Regular(r.row)
    ensures CareerOf(rows, name).minutes == MatchStats.DefaultMinutes * CareerOf(rows, name).games
    ensures Consistent(CareerOf(rows, name).stats)
    ensures (exists i :: 0 <= i < |rows| && NameOf(rows[i]) == name) ==> CareerOf(rows, name).games > 0
    decreases |rows|
  {
    if rows != [] {
      var n := |rows| - 1;
      var pre := rows[..n];
      assert forall i :: 0 <= i < n ==> pre[i] == rows[i];
      CareerRegular(pre, name);
      assert rows[n] in rows;
      var part := if NameOf(rows[n]) == name then rows[n].row.totals else NoTotals;
      assert CareerOf(rows, name) == Plus(CareerOf(pre, name), part);
      PlusKeepsShape(CareerOf(pre, name), part);
      if exists i :: 0 <= i < |rows| && NameOf(rows[i]) == name {
        var i :| 0 <= i < |rows| && NameOf(rows[i]) == name;
        if i < n {
          assert NameOf(pre[i]) == name;
        } else {
          assert part.games > 0;
        }
      }
    }
  }

  /** Summing two totals of 90 minutes per game and consistent counters keeps both properties. */
  lemma PlusKeepsShape(a: Totals, b: Totals)
    requires a.minutes == MatchStats.DefaultMinutes * a.games && Consistent(a.stats)
    requires b.minutes == MatchStats.DefaultMinutes * b.games && Consistent(b.stats)
    ensures Plus(a, b).minutes == MatchStats.DefaultMinutes * Plus(a, b).games
    ensures Consistent(Plus(a, b).stats)
    ensures Plus(a, b).games == a.games + b.games
  {
    AddConsistent(a.stats, b.stats);
  }

  /** With 90 minutes per game, every per-90 rate is defined and is the per-game average. */
  lemma Per90PerGame(c: Totals)
    requires c.games > 0 && c.minutes == MatchStats.DefaultMinutes * c.games
    ensures var g := c.games as real; var p := Per90Of(c);
      && p.goalsPer90 == Some(c.stats.goals as real / g)
      && p.assistsPer90 == Some(c.stats.assists as real / g)
      && p.xgPer90 == Some(c.stats.xg / g)
      && p.xaPer90 == Some(c.stats.xa / g)
      && p.shotsPer90 == Some(c.stats.shots as real / g)
      && p.keyPassesPer90 == Some(c.stats.keyPasses as real / g)
      && p.tacklesPer90 == Some(c.stats.tackles as real / g)
  {
    var s := c.stats;
    Per90IsPerGame(s.goals as real, c);
    Per90IsPerGame(s.assists as real, c);
    Per90IsPerGame(s.xg, c);
    Per90IsPerGame(s.xa, c);
    Per90IsPerGame(s.shots as real, c);
    Per90IsPerGame(s.keyPasses as real, c);
    Per90IsPerGame(s.tackles as real, c);
  }

  /**
   * On consistent counters the guarded ratios are in range (goals per shot in
   * [0, 1], the percentages in [0, 100], goals per shot at most a hundredth of
   * the accuracy) and the xa overperformance is the assist count.
   */
  lemma EfficiencyBounds(c: Totals)
    requires Consistent(c.stats)
    ensures var e := EfficiencyOf(c);
      && 0.0 <= e.goalsPerShot <= 1.0
      && 0.0 <= e.shotAccuracy <= 100.0
      && 0.0 <= e.passCompletion <= 100.0
      && e.goalsPerShot * 100.0 <= e.shotAccuracy
      && e.xaOverperformance == c.stats.assists as real
  {
    var e := EfficiencyOf(c);
    var s := c.stats;
    if s.shots > 0 {
      ShotRatios(e.goalsPerShot, e.shotAccuracy, s.goals as real, s.shotsOnTarget as real, s.shots as real);
    }
    if s.passes > 0 {
      RatioBounds(e.passCompletion, s.passesCompleted as real, s.passes as real, 100.0);
    }
  }

  /** A ratio `x = scale * part / whole` of a part of a positive whole lies in [0, scale]. */
  lemma RatioBounds(x: real, part: real, whole: real, scale: real)
    requires whole > 0.0 && 0.0 <= part <= whole && scale >= 0.0
    requires x * whole == part * scale
    ensures 0.0 <= x <= scale
  {
    MulNonneg(part, scale);
    MulMonotone(part, whole, scale);
    if x < 0.0 {
      MulStrict(0.0, x, whole);
      assert false;
    }
    if x > scale {
      MulStrict(x, scale, whole);
      assert false;
    }
  }

  /** Goals per shot and shot accuracy stay in range, and the first never exceeds the second, scaled to percent. */
  lemma ShotRatios(perShot: real, accuracy: real, goals: real, onTarget: real, shots: real)
    requires 0.0 <= goals <= onTarget <= shots && shots > 0.0
    requires perShot * shots == goals && accuracy * shots == onTarget * 100.0
    ensures 0.0 <= perShot <= 1.0 && 0.0 <= accuracy <= 100.0
    ensures perShot * 100.0 <= accuracy
  {
    RatioBounds(perShot, goals, shots, 1.0);
    RatioBounds(accuracy, onTarget, shots, 100.0);
    ScaleProduct(perShot, shots, goals, 100.0);
    MulMonotone(goals, onTarget, 100.0);
    ScaledOrder(perShot * 100.0, accuracy, shots, goals * 100.0, onTarget * 100.0);
  }

  lemma ScaledOrder(x: real, y: real, n: real, p: real, q: real)
    requires n > 0.0 && x * n == p && y * n == q && p <= q
    ensures x <= y
  {
    CancelPositive(x, y, n);
  }

  lemma CancelPositive(x: real, y: real, n: real)
    requires n > 0.0 && x * n <= y * n
    ensures x <= y
  {
    if x > y {
      MulStrict(x, y, n);
      assert false;
    }
  }

  lemma ScaleProduct(x: real, n: real, part: real, k: real)
    requires x * n == part
    ensures (x * k) * n == part * k
  {
  }

  lemma MulStrict(a: real, b: real, n: real)
    requires n > 0.0 && a > b
    ensures a * n > b * n
  {
  }

  lemma MulNonneg(a: real, b: real)
    requires a >= 0.0 && b >= 0.0
    ensures a * b >= 0.0
  {
  }

  lemma MulMonotone(a: real, b: real, n: real)
    requires a <= b && n >= 0.0
    ensures a * n <= b * n
  {
  }

  /** The error is returned exactly when no selected competition yields a row for the player. */
  lemma NoDataWhen(comps: seq<Competition>, playerName: string,
                   competitionName: Option<string>, seasonName: Option<string>)
    ensures PerformanceOf(comps, playerName, competitionName, seasonName).NoData? <==>
      forall c :: c in comps && Selected(c, competitionName, seasonName) ==> Contribution(c, playerName) == []
    ensures PerformanceOf(comps, playerName, competitionName, seasonName).NoData? ==>
      PerformanceOf(comps, playerName, competitionName, seasonName).error == "No data found for player " + playerName
  {
    PlayerDataEmpty(comps, playerName, competitionName, seasonName);
  }

  /** An analysis derives its metrics from a career that has games and 90 minutes per game. */
  lemma AnalysisCareer(comps: seq<Competition>, playerName: string,
                       competitionName: Option<string>, seasonName: Option<string>)
    requires PerformanceOf(comps, playerName, competitionName, seasonName).Analysis?
    ensures var a := PerformanceOf(comps, playerName, competitionName, seasonName);
      && a.career.games > 0 && a.career.minutes == MatchStats.DefaultMinutes * a.career.games
      && Consistent(a.career.stats)
      && a.per90 == Per90Of(a.career) && a.efficiency == EfficiencyOf(a.career)
  {
    var data := PlayerData(comps, playerName, competitionName, seasonName);
    PlayerDataRegular(comps, playerName, competitionName, seasonName);
    CareerRegular(data, FirstName(data));
  }

  /**
   * An analysis totals the rows of the smallest matching name: every row
   * passes the name filter, the career has games and 90 minutes per game,
   * every per-90 rate is the per-game average, and the efficiency metrics are
   * in range, with the xa overperformance equal to the assists.
   */
  lemma AnalysisSpec(comps: seq<Competition>, playerName: string,
                     competitionName: Option<string>, seasonName: Option<string>)
    requires PerformanceOf(comps, playerName, competitionName, seasonName).Analysis?
    ensures var a := PerformanceOf(comps, playerName, competitionName, seasonName);
      var c := a.career;
      && a.byCompetition != []
      && (forall r :: r in a.byCompetition ==> Keeps(Some(playerName), NameOf(r)))
      && (forall i :: 0 <= i < |a.byCompetition| ==> !StrLess(NameOf(a.byCompetition[i]), FirstName(a.byCompetition)))
      && c == CareerOf(a.byCompetition, FirstName(a.byCompetition))
      && c.games > 0 && c.minutes == MatchStats.DefaultMinutes * c.games
      && a.per90.goalsPer90 == Some(c.stats.goals as real / c.games as real)
      && a.per90.assistsPer90 == Some(c.stats.assists as real / c.games as real)
      && a.per90.shotsPer90.Some? && a.per90.xgPer90.Some? && a.per90.keyPassesPer90.Some?
      && a.per90.tacklesPer90.Some? && a.per90.xaPer90 == Some(0.0)
      && 0.0 <= a.efficiency.shotAccuracy <= 100.0
      && 0.0 <= a.efficiency.passCompletion <= 100.0
      && a.efficiency.xaOverperformance == c.stats.assists as real
  {
    var data := PlayerData(comps, playerName, competitionName, seasonName);
    var name := FirstName(data);
    PlayerDataRegular(comps, playerName, competitionName, seasonName);
    FirstNameSmallest(data);
    CareerRegular(data, name);
    var c := CareerOf(data, name);
    Per90PerGame(c);
    EfficiencyBounds(c);
  }

  // ---------------------------------------------------------------------
  // compare_players

  const DefaultMetrics: seq<string> :=
    ["goals_per_90", "assists_per_90", "xg_per_90", "xa_per_90", "shots_per_90", "key_passes_per_90", "tackles_per_90"]

  const EfficiencyColumns: seq<string> :=
    ["goals_per_shot", "shot_accuracy", "pass_completion", "xg_overperformance", "xa_overperformance"]

  /** The columns of `comparison_df` when it has rows: the name, the per-90 rates, the efficiency metrics. */
  const ComparisonColumns: seq<string> := ["player_name"] + DefaultMetrics + EfficiencyColumns

  /** A cell of the comparison: the player's name, a number, or NaN. */
  datatype Cell = Text(text: string) | Number(value: real) | NaN

  function RateCell(v: Option<real>): Cell {
    if v.Some? then Number(v.value) else NaN
  }

  /** The cell of `column` in the row `{'player_name': player, **per_90_stats, **efficiency_metrics}`. */
  function CellOf(player: string, a: Performance, column: string): Cell
    requires a.Analysis?
  {
    var p := a.per90;
    var e := a.efficiency;
    match column
    case "goals_per_90" => RateCell(p.goalsPer90)
    case "assists_per_90" => RateCell(p.assistsPer90)
    case "xg_per_90" => RateCell(p.xgPer90)
    case "xa_per_90" => RateCell(p.xaPer90)
    case "shots_per_90" => RateCell(p.shotsPer90)
    case "key_passes_per_90" => RateCell(p.keyPassesPer90)
    case "tackles_per_90" => RateCell(p.tacklesPer90)
    case "goals_per_shot" => Number(e.goalsPerShot)
    case "shot_accuracy" => Number(e.shotAccuracy)
    case "pass_completion" => Number(e.passCompletion)
    case "xg_overperformance" => Number(e.xgOverperformance)
    case "xa_overperformance" => Number(e.xaOverperformance)
    case _ => Text(player)
  }

  /** A player with data and their analysis: one entry of `comparison_data`. */
  datatype Entry = Entry(player: string, analysis: Performance)

  /** `comparison_data`: the players whose analysis is not the error, in the order given. */
  function Compared(players: seq<string>, comps: seq<Competition>): (r: seq<Entry>)
    ensures forall e :: e in r ==> e.analysis.Analysis?
    decreases |players|
  {
    if players == [] then []
    else
      var p := players[|players| - 1];
      var a := PerformanceOf(comps, p, None, None);
      Compared(players[..|players| - 1], comps) + if a.Analysis? then [Entry(p, a)] else []
  }

  /** `[m for m in metrics if m in comparison_df.columns]` for a frame that has rows. */
  function Available(metrics: seq<string>): seq<string>
    decreases |metrics|
  {
    if metrics == [] then []
    else
      var m := metrics[|metrics| - 1];
      Available(metrics[..|metrics| - 1]) + if m in ComparisonColumns then [m] else []
  }

  /** The returned frame, or the KeyError on `['player_name']` when no player has data (the frame has no columns). */
  datatype Comparison = NoColumns | Comparison(columns: seq<string>, rows: seq<seq<Cell>>)

  function Tabulate(entries: seq<Entry>, columns: seq<string>): seq<seq<Cell>>
    requires forall e :: e in entries ==> e.analysis.Analysis?
  {
    seq(|entries|, i requires 0 <= i < |entries| =>
      seq(|columns|, j requires 0 <= j < |columns| => CellOf(entries[i].player, entries[i].analysis, columns[j])))
  }

  /** What `compare_players` returns; `metrics` is `None` when the caller passes none. */
  function ComparisonOf(players: seq<string>, metrics: Option<seq<string>>, comps: seq<Competition>): Comparison {
    var entries := Compared(players, comps);
    if entries == [] then NoColumns
    else
      var columns := ["player_name"] + Available(metrics.GetOr(DefaultMetrics));
      Comparison(columns, Tabulate(entries, columns))
  }

  /** `compare_players` on already-fetched competitions. */
  method ComparePlayers(players: seq<string>, metrics: Option<seq<string>>, comps: seq<Competition>)
    returns (result: Comparison)
    ensures result == ComparisonOf(players, metrics, comps)
  {
    var requested := if metrics.None? then DefaultMetrics else metrics.value;
    var comparisonData: seq<Entry> := [];
    for i := 0 to |players|
      invariant comparisonData == Compared(players[..i], comps)
    {
      var analysis := AnalyzePlayerPerformance(comps, players[i], None, None);
      if analysis.Analysis? {
        comparisonData := comparisonData + [Entry(players[i], analysis)];
      }
      assert players[..i + 1][..i] == players[..i];
    }
    assert players[..|players|] == players;
    if comparisonData == [] {
      return NoColumns;
    }
    var columns := ["player_name"] + Available(requested);
    result := Comparison(columns, Tabulate(comparisonData, columns));
  }

  // ---------------------------------------------------------------------
  // What the comparison promises

  /** The column filter keeps the requested metrics that exist, in the requested order. */
  lemma {:induction false} AvailableAppend(a: seq<string>, b: seq<string>)
    ensures Available(a + b) == Available(a) + Available(b)
    decreases |b|
  {
    if b == [] {
      assert a + b == a;
    } else {
      var n := |b| - 1;
      assert (a + b)[..|a + b| - 1] == a + b[..n];
      assert (a + b)[|a + b| - 1] == b[n];
      AvailableAppend(a, b[..n]);
    }
  }

  /** A metric is selected exactly when it is requested and is a column, and no more often than requested. */
  lemma {:induction false} AvailableSpec(metrics: seq<string>)
    ensures |Available(metrics)| <= |metrics|
    ensures forall m :: m in Available(metrics) <==> m in metrics && m in ComparisonColumns
    decreases |metrics|
  {
    if metrics != [] {
      var n := |metrics| - 1;
      AvailableSpec(metrics[..n]);
      assert metrics == metrics[..n] + [metrics[n]];
    }
  }

  /** `comparison_data` holds, in order, exactly the players whose analysis is not the error. */
  lemma {:induction false} ComparedSpec(players: seq<string>, comps: seq<Competition>)
    ensures |Compared(players, comps)| <= |players|
    ensures forall p :: (exists e :: e in Compared(players, comps) && e.player == p) <==>
      p in players && PerformanceOf(comps, p, None, None).Analysis?
    ensures forall e :: e in Compared(players, comps) ==> e.analysis == PerformanceOf(comps, e.player, None, None)
    decreases |players|
  {
    if players != [] {
      var n := |players| - 1;
      ComparedSpec(players[..n], comps);
      assert players == players[..n] + [players[n]];
    }
  }

  /** The comparison fails exactly when no player has data. */
  lemma ComparisonFails(players: seq<string>, metrics: Option<seq<string>>, comps: seq<Competition>)
    ensures ComparisonOf(players, metrics, comps).NoColumns? <==>
      forall i :: 0 <= i < |players| ==> PerformanceOf(comps, players[i], None, None).NoData?
  {
    var entries := Compared(players, comps);
    ComparedSpec(players, comps);
    if entries != [] {
      var e := entries[0];
      assert e in entries;
      var i :| 0 <= i < |players| && players[i] == e.player;
      assert PerformanceOf(comps, players[i], None, None).Analysis?;
    }
  }

  /**
   * A comparison's columns are "player_name" and then the requested metrics
   * that exist, in the requested order; it has one row per player with data,
   * whose first cell is that player's name.
   */
  lemma ComparisonShape(players: seq<string>, metrics: Option<seq<string>>, comps: seq<Competition>)
    requires ComparisonOf(players, metrics, comps).Comparison?
    ensures var c := ComparisonOf(players, metrics, comps);
      var requested := metrics.GetOr(DefaultMetrics);
      && c.columns[0] == "player_name"
      && c.columns[1..] == Available(requested)
      && (forall m :: m in c.columns[1..] <==> m in requested && m in ComparisonColumns)
      && |c.columns| <= |requested| + 1
      && |c.rows| == |Compared(players, comps)|
      && (forall i :: 0 <= i < |c.rows| ==>
            |c.rows[i]| == |c.columns| && c.rows[i][0] == Text(Compared(players, comps)[i].player))
  {
    var entries := Compared(players, comps);
    var requested := metrics.GetOr(DefaultMetrics);
    var columns := ["player_name"] + Available(requested);
    AvailableSpec(requested);
    TabulateShape(entries, columns);
    assert ComparisonOf(players, metrics, comps) == Comparison(columns, Tabulate(entries, columns));
    assert columns[1..] == Available(requested);
  }

  /** Each row of the table has one cell per column, and the "player_name" cell holds the player's name. */
  lemma TabulateShape(entries: seq<Entry>, columns: seq<string>)
    requires forall e :: e in entries ==> e.analysis.Analysis?
    requires columns != [] && columns[0] == "player_name"
    ensures |Tabulate(entries, columns)| == |entries|
    ensures forall i :: 0 <= i < |entries| ==>
      |Tabulate(entries, columns)[i]| == |columns| && Tabulate(entries, columns)[i][0] == Text(entries[i].player)
  {
    forall i | 0 <= i < |entries|
      ensures |Tabulate(entries, columns)[i]| == |columns| && Tabulate(entries, columns)[i][0] == Text(entries[i].player)
    {
      assert entries[i] in entries;
      assert CellOf(entries[i].player, entries[i].analysis, "player_name") == Text(entries[i].player);
    }
  }
}
