/**
 * The scouting report (`generate_scouting_report`): a summary of the
 * player's analysis, the strengths, weaknesses and style traits that fixed
 * thresholds on the per-90 and efficiency metrics select, and the player's
 * record in at most the first five of the given matches.
 *
 * `GenerateScoutingReport` is the source's step-by-step construction;
 * `ReportOf` is the function that specifies it.
 */
module Scouting {
  import opened Wrappers
  import opened Events
  import opened Records
  import opened SeasonStats
  import opened MatchStats
  import opened Analyzer

  /** A comparison with NaN is false: `None` (NaN) exceeds and undercuts nothing. */
  predicate Above(v: Option<real>, threshold: real) {
    v.Some? && v.value > threshold
  }

  /** `goals_per_90 + assists_per_90`; NaN when either is. */
  function AddRates(a: Option<real>, b: Option<real>): Option<real> {
    if a.Some? && b.Some? then Some(a.value + b.value) else None
  }

  datatype Summary = Summary(
    gamesAnalyzed: nat, totalMinutes: int, goals: nat, assists: nat,
    goalContributionsPer90: Option<real>)

  /**
   * The report: the analysis' error dictionary returned as it is, or the
   * report proper; `recentMatches` is absent unless match ids were given.
   */
  datatype Report =
    | Failed(performance: Performance)
    | Report(playerName: string, summary: Summary,
             strengths: seq<string>, weaknesses: seq<string>, styleTraits: seq<string>,
             recentMatches: Option<seq<MatchRecord>>)

  function SummaryOf(a: Performance): Summary
    requires a.Analysis?
  {
    var c := a.career;
    Summary(c.games, c.minutes, c.stats.goals, c.stats.assists,
      AddRates(a.per90.goalsPer90, a.per90.assistsPer90))
  }

  /** The scoring rule: at most one of "Elite goal scorer" and "Good goal threat". */
  function ScoringStrength(p: Per90Stats): seq<string> {
    if Above(p.goalsPer90, 0.5) then ["Elite goal scorer"]
    else if Above(p.goalsPer90, 0.3) then ["Good goal threat"] else []
  }

  function CreativityStrength(p: Per90Stats): seq<string> {
    if Above(p.assistsPer90, 0.3) then ["Excellent creator"]
    else if Above(p.keyPassesPer90, 2.0) then ["Creates chances regularly"] else []
  }

  function ShootingStrength(e: Efficiency): seq<string> {
    if e.shotAccuracy > 40.0 then ["Accurate shooter"] else []
  }

  function ShootingWeakness(e: Efficiency): seq<string> {
    if e.shotAccuracy <= 40.0 && e.shotAccuracy < 25.0 then ["Poor shot accuracy"] else []
  }

  function FinishingStrength(e: Efficiency): seq<string> {
    if e.xgOverperformance > 5.0 then ["Clinical finisher (outperforms xG)"] else []
  }

  function FinishingWeakness(e: Efficiency): seq<string> {
    if e.xgOverperformance <= 5.0 && e.xgOverperformance < -5.0 then ["Underperforms expected goals"] else []
  }

  function VolumeTrait(p: Per90Stats): seq<string> {
    if Above(p.shotsPer90, 3.0) then ["High volume shooter"] else []
  }

  function PassingTrait(e: Efficiency): seq<string> {
    if e.passCompletion > 85.0 then ["Reliable passer"]
    else if e.passCompletion < 70.0 then ["Risk-taking passer"] else []
  }

  function DefendingTrait(p: Per90Stats): seq<string> {
    if Above(p.tacklesPer90, 2.0) then ["Active defender"] else []
  }

  /** The strengths the thresholds select, in the order the rules are applied. */
  function Strengths(p: Per90Stats, e: Efficiency): seq<string> {
    ScoringStrength(p) + CreativityStrength(p) + ShootingStrength(e) + FinishingStrength(e)
  }

  function Weaknesses(p: Per90Stats, e: Efficiency): seq<string> {
    ShootingWeakness(e) + FinishingWeakness(e)
  }

  function StyleTraits(p: Per90Stats, e: Efficiency): seq<string> {
    VolumeTrait(p) + PassingTrait(e) + DefendingTrait(p)
  }

  /** The first row of the table whose player name is `playerName`. */
  function FirstRecordOf(rows: seq<MatchRecord>, playerName: string): (r: Option<MatchRecord>)
    ensures r.None? <==> forall i :: 0 <= i < |rows| ==> rows[i].playerName != playerName
    ensures r.Some? ==> exists i :: (0 <= i < |rows| && rows[i] == r.value && rows[i].playerName == playerName
      && forall j :: 0 <= j < i ==> rows[j].playerName != playerName)
    decreases |rows|
  {
    if rows == [] then None
    else if rows[0].playerName == playerName then Some(rows[0])
    else
      var r := FirstRecordOf(rows[1..], playerName);
      assert forall i :: 0 < i < |rows| ==> rows[i] == rows[1..][i - 1];
      if r.Some? then
        var i :| 0 <= i < |rows[1..]| && rows[1..][i] == r.value && rows[1..][i].playerName == playerName
          && forall j :: 0 <= j < i ==> rows[1..][j].playerName != playerName;
        assert rows[i + 1] == r.value;
        r
      else r
  }

  /** The player's record in each match that could be aggregated and lists the player, in match order. */
  function RecentMatches(matches: seq<Option<MatchData>>, playerName: string): seq<MatchRecord>
    decreases |matches|
  {
    if matches == [] then []
    else
      var pre := RecentMatches(matches[..|matches| - 1], playerName);
      var last := matches[|matches| - 1];
      if last.None? then pre
      else
        var found := FirstRecordOf(MatchRows(last.value), playerName);
        if found.Some? then pre + [found.value] else pre
  }

  const RecentLimit := 5

  /** The matches examined: the first five. */
  function Examined(matches: seq<Option<MatchData>>): seq<Option<MatchData>> {
    if |matches| <= RecentLimit then matches else matches[..RecentLimit]
  }

  /**
   * What `generate_scouting_report` returns; `matches` holds the data of each
   * given match id (`None` where fetching or aggregating raised).
   */
  function ReportOf(comps: seq<Competition>, playerName: string, matches: seq<Option<MatchData>>): Report {
    var perf := PerformanceOf(comps, playerName, None, None);
    if perf.NoData? then Failed(perf)
    else
      Report(playerName, SummaryOf(perf),
        Strengths(perf.per90, perf.efficiency), Weaknesses(perf.per90, perf.efficiency),
        StyleTraits(perf.per90, perf.efficiency),
        if matches == [] then None else Some(RecentMatches(Examined(matches), playerName)))
  }

  /** The threshold rules, appending to the three lists in the order the source applies them. */
  method Assess(per90: Per90Stats, efficiency: Efficiency)
    returns (strengths: seq<string>, weaknesses: seq<string>, styleTraits: seq<string>)
    ensures strengths == Strengths(per90, efficiency)
    ensures weaknesses == Weaknesses(per90, efficiency)
    ensures styleTraits == StyleTraits(per90, efficiency)
  {
    strengths, weaknesses, styleTraits := [], [], [];
    if Above(per90.goalsPer90, 0.5) {
      strengths := strengths + ["Elite goal scorer"];
    } else if Above(per90.goalsPer90, 0.3) {
      strengths := strengths + ["Good goal threat"];
    }
    if Above(per90.assistsPer90, 0.3) {
      strengths := strengths + ["Excellent creator"];
    } else if Above(per90.keyPassesPer90, 2.0) {
      strengths := strengths + ["Creates chances regularly"];
    }
    assert strengths == ScoringStrength(per90) + CreativityStrength(per90);
    if efficiency.shotAccuracy > 40.0 {
      strengths := strengths + ["Accurate shooter"];
    } else if efficiency.shotAccuracy < 25.0 {
      weaknesses := weaknesses + ["Poor shot accuracy"];
    }
    assert strengths == ScoringStrength(per90) + CreativityStrength(per90) + ShootingStrength(efficiency);
    assert weaknesses == ShootingWeakness(efficiency);
    if efficiency.xgOverperformance > 5.0 {
      strengths := strengths + ["Clinical finisher (outperforms xG)"];
    } else if efficiency.xgOverperformance < -5.0 {
      weaknesses := weaknesses + ["Underperforms expected goals"];
    }
    assert strengths == Strengths(per90, efficiency);
    assert weaknesses == Weaknesses(per90, efficiency);
    if Above(per90.shotsPer90, 3.0) {
      styleTraits := styleTraits + ["High volume shooter"];
    }
    if efficiency.passCompletion > 85.0 {
      styleTraits := styleTraits + ["Reliable passer"];
    } else if efficiency.passCompletion < 70.0 {
      styleTraits := styleTraits + ["Risk-taking passer"];
    }
    assert styleTraits == VolumeTrait(per90) + PassingTrait(efficiency);
    if Above(per90.tacklesPer90, 2.0) {
      styleTraits := styleTraits + ["Active defender"];
    }
  }

  /** The loop over `match_ids[:5]`: the player's first row in each match that aggregates and lists them. */
  method CollectRecent(matches: seq<Option<MatchData>>, playerName: string) returns (performances: seq<MatchRecord>)
    ensures performances == RecentMatches(Examined(matches), playerName)
  {
    var examined := Examined(matches);
    performances := [];
    for i := 0 to |examined|
      invariant performances == RecentMatches(examined[..i], playerName)
    {
      assert examined[..i + 1][..i] == examined[..i];
      if examined[i].Some? {
        var m := examined[i].value;
        var table := AggregateMatch(m.lineups, m.events);
        MatchRowsConsistent(m.lineups, m.events);
        var found := FirstRecordOf(Rows(table), playerName);
        if found.Some? {
          performances := performances + [found.value];
        }
      }
    }
    assert examined[..|examined|] == examined;
  }

  /** `generate_scouting_report` on already-fetched competitions and matches. */
  method GenerateScoutingReport(comps: seq<Competition>, playerName: string, matches: seq<Option<MatchData>>)
    returns (report: Report)
    ensures report == ReportOf(comps, playerName, matches)
  {
    var performance := AnalyzePlayerPerformance(comps, playerName, None, None);
    if performance.NoData? {
      return Failed(performance);
    }
    var per90 := performance.per90;
    var c := performance.career;
    var summary := Summary(c.games, c.minutes, c.stats.goals, c.stats.assists,
      AddRates(per90.goalsPer90, per90.assistsPer90));
    var strengths, weaknesses, styleTraits := Assess(per90, performance.efficiency);
    var recent: Option<seq<MatchRecord>> := None;
    if matches != [] {
      var performances := CollectRecent(matches, playerName);
      recent := Some(performances);
    }
    report := Report(playerName, summary, strengths, weaknesses, styleTraits, recent);
  }

  // ---------------------------------------------------------------------
  // What the report promises

  /** The analysis' error comes back unchanged, and only then is there no report. */
  lemma FailurePassesThrough(comps: seq<Competition>, playerName: string, matches: seq<Option<MatchData>>)
    ensures ReportOf(comps, playerName, matches).Failed? <==> PerformanceOf(comps, playerName, None, None).NoData?
    ensures ReportOf(comps, playerName, matches).Failed? ==>
      ReportOf(comps, playerName, matches).performance == PerformanceOf(comps, playerName, None, None)
      == NoData("No data found for player " + playerName)
  {
  }

  /** At most one scoring strength: "Elite goal scorer" above 0.5 goals per 90, else "Good goal threat" above 0.3. */
  lemma ScoringRule(p: Per90Stats, e: Efficiency)
    ensures "Elite goal scorer" in Strengths(p, e) <==> Above(p.goalsPer90, 0.5)
    ensures "Good goal threat" in Strengths(p, e) <==> Above(p.goalsPer90, 0.3) && !Above(p.goalsPer90, 0.5)
    ensures !("Elite goal scorer" in Strengths(p, e) && "Good goal threat" in Strengths(p, e))
  {
  }

  /** The shooting rule: a strength above 40 accuracy, a weakness below 25, never both. */
  lemma ShootingRule(p: Per90Stats, e: Efficiency)
    ensures "Accurate shooter" in Strengths(p, e) <==> e.shotAccuracy > 40.0
    ensures "Poor shot accuracy" in Weaknesses(p, e) <==> e.shotAccuracy < 25.0
    ensures !("Accurate shooter" in Strengths(p, e) && "Poor shot accuracy" in Weaknesses(p, e))
  {
  }

  /** The xg rule: a strength above +5 goals over xg, a weakness below -5, never both. */
  lemma FinishingRule(p: Per90Stats, e: Efficiency)
    ensures "Clinical finisher (outperforms xG)" in Strengths(p, e) <==> e.xgOverperformance > 5.0
    ensures "Underperforms expected goals" in Weaknesses(p, e) <==> e.xgOverperformance < -5.0
  {
  }

  /** The passing rule: "Reliable passer" above 85 completion, "Risk-taking passer" below 70, never both. */
  lemma PassingRule(p: Per90Stats, e: Efficiency)
    ensures "Reliable passer" in StyleTraits(p, e) <==> e.passCompletion > 85.0
    ensures "Risk-taking passer" in StyleTraits(p, e) <==> e.passCompletion < 70.0
    ensures !("Reliable passer" in StyleTraits(p, e) && "Risk-taking passer" in StyleTraits(p, e))
  {
  }

  /** The creativity rule: "Excellent creator" above 0.3 assists per 90, else "Creates chances regularly" above 2 key passes. */
  lemma CreativityRule(p: Per90Stats, e: Efficiency)
    ensures "Excellent creator" in Strengths(p, e) <==> Above(p.assistsPer90, 0.3)
    ensures "Creates chances regularly" in Strengths(p, e) <==> !Above(p.assistsPer90, 0.3) && Above(p.keyPassesPer90, 2.0)
  {
  }

  /** Each rule adds at most one label: at most four strengths, two weaknesses and three traits. */
  lemma ReportSizes(p: Per90Stats, e: Efficiency)
    ensures |Strengths(p, e)| <= 4 && |Weaknesses(p, e)| <= 2 && |StyleTraits(p, e)| <= 3
  {
  }

  /** Each recent record belongs to the player, and there is at most one per examined match. */
  lemma {:induction false} RecentMatchesSpec(matches: seq<Option<MatchData>>, playerName: string)
    ensures |RecentMatches(matches, playerName)| <= |matches|
    ensures forall r :: r in RecentMatches(matches, playerName) ==> r.playerName == playerName
    decreases |matches|
  {
    if matches != [] {
      RecentMatchesSpec(matches[..|matches| - 1], playerName);
      var last := matches[|matches| - 1];
      if last.Some? {
        var found := FirstRecordOf(MatchRows(last.value), playerName);
        if found.Some? {
          var i :| 0 <= i < |MatchRows(last.value)| && MatchRows(last.value)[i] == found.value
            && MatchRows(last.value)[i].playerName == playerName;
        }
      }
    }
  }

  /**
   * Only the first five matches are examined: matches after the fifth never
   * change the report, and it lists at most five records, each the player's.
   */
  lemma RecentLimitRule(comps: seq<Competition>, playerName: string, matches: seq<Option<MatchData>>)
    ensures |matches| > RecentLimit ==>
      ReportOf(comps, playerName, matches) == ReportOf(comps, playerName, matches[..RecentLimit])
    ensures ReportOf(comps, playerName, matches).Report? && ReportOf(comps, playerName, matches).recentMatches.Some? ==>
      var recent := ReportOf(comps, playerName, matches).recentMatches.value;
      |recent| <= RecentLimit && forall r :: r in recent ==> r.playerName == playerName
  {
    RecentMatchesSpec(Examined(matches), playerName);
  }

  /**
   * The summary of an analysis (what a report carries): games and 90
   * minutes per game, and goal contributions per 90 equal to goals plus
   * assists per game.
   */
  lemma SummarySpec(comps: seq<Competition>, playerName: string)
    requires PerformanceOf(comps, playerName, None, None).Analysis?
    ensures var s := SummaryOf(PerformanceOf(comps, playerName, None, None));
      && s.gamesAnalyzed > 0
      && s.totalMinutes == DefaultMinutes * s.gamesAnalyzed
      && s.goalContributionsPer90 == Some((s.goals + s.assists) as real / s.gamesAnalyzed as real)
  {
    var perf := PerformanceOf(comps, playerName, None, None);
    AnalysisCareer(comps, playerName, None, None);
    var c := perf.career;
    Per90PerGame(c);
    SumOfQuotients(c.stats.goals as real, c.stats.assists as real, c.games as real);
  }

  lemma SumOfQuotients(a: real, b: real, g: real)
    requires g > 0.0
    ensures a / g + b / g == (a + b) / g
  {
  }
}
