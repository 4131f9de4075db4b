/**
 * The three competition-wide rankings of the analyzer: shooting efficiency,
 * creative players and defensive players. Each takes the season table of one
 * competition and season (no name filter), keeps the rows that pass a
 * threshold, derives a few columns and sorts by one of them, largest first.
 */
module Rankings {
  import opened Wrappers
  import opened Text
  import opened Sorting
  import opened Events
  import opened Records
  import opened SeasonStats

  /**
   * A ranking, or the KeyError raised when the season table has no columns:
   * no match was aggregated (the empty DataFrame) or every aggregated table
   * was empty.
   */
  datatype Ranking<T> = NoColumns | Ranked(rows: seq<T>)

  /** The rows that `keep` accepts, in their original order. */
  function Where(rows: seq<SeasonRow>, keep: SeasonRow -> bool): (r: seq<SeasonRow>)
    ensures forall x :: multiset(r)[x] == if keep(x) then multiset(rows)[x] else 0
    decreases |rows|
  {
    if rows == [] then []
    else
      var pre := rows[..|rows| - 1];
      var last := rows[|rows| - 1];
      assert rows == pre + [last];
      Where(pre, keep) + if keep(last) then [last] else []
  }

  /** The derived row of every row, in order. */
  function Project<T>(rows: seq<SeasonRow>, derive: SeasonRow -> T): (r: seq<T>)
    ensures |r| == |rows|
    ensures forall i :: 0 <= i < |rows| ==> r[i] == derive(rows[i])
  {
    seq(|rows|, i requires 0 <= i < |rows| => derive(rows[i]))
  }

  /** Filter, derive, then sort by `key`, largest first. */
  function Rank<T(==)>(rows: seq<SeasonRow>, keep: SeasonRow -> bool, derive: SeasonRow -> T, key: T -> real): seq<T> {
    SortDesc(Project(Where(rows, keep), derive), key)
  }

  /**
   * A ranking holds the derived row of each kept row, each as often as it
   * occurs, and nothing else, in non-increasing key order.
   */
  lemma RankSpec<T>(rows: seq<SeasonRow>, keep: SeasonRow -> bool, derive: SeasonRow -> T, key: T -> real)
    ensures SortedDesc(Rank(rows, keep, derive, key), key)
    ensures multiset(Rank(rows, keep, derive, key)) == multiset(Project(Where(rows, keep), derive))
    ensures forall x :: x in Rank(rows, keep, derive, key) <==> exists row :: row in rows && keep(row) && x == derive(row)
  {
    var kept := Where(rows, keep);
    var r := Rank(rows, keep, derive, key);
    forall x ensures x in r <==> exists row :: row in rows && keep(row) && x == derive(row) {
      assert x in r <==> x in Project(kept, derive) by {
        assert multiset(r) == multiset(Project(kept, derive));
        assert x in r <==> x in multiset(r);
      }
      if x in Project(kept, derive) {
        var i :| 0 <= i < |kept| && Project(kept, derive)[i] == x;
        assert multiset(kept)[kept[i]] > 0;
      }
      if exists row :: row in rows && keep(row) && x == derive(row) {
        var row :| row in rows && keep(row) && x == derive(row);
        assert multiset(kept)[row] > 0;
        var i :| 0 <= i < |kept| && kept[i] == row;
        assert Project(kept, derive)[i] == x;
      }
    }
  }

  /**
   * The sort key of a column that can hold NaN: pandas puts NaN last, and
   * every defined value of these columns is non-negative.
   */
  function NanLast(v: Option<real>): real {
    if v.Some? then v.value else -1.0
  }

  /** Applies a ranking to the season table of one competition and season. */
  function RankSeason<T(==)>(season: Season, keep: SeasonRow -> bool, derive: SeasonRow -> T, key: T -> real): Ranking<T> {
    if season.Table? then Ranked(Rank(season.rows, keep, derive, key)) else NoColumns
  }

  // ---------------------------------------------------------------------
  // Shooting efficiency

  datatype Shooter = Shooter(
    key: GroupKey, goals: nat, xg: real, shots: nat,
    goalsPerShot: Option<real>, xgPerShot: Option<real>,
    overperformance: real, shotAccuracy: Option<real>)

  function ShooterOf(row: SeasonRow): Shooter {
    var s := row.totals.stats;
    Shooter(row.key, s.goals, s.xg, s.shots,
      Ratio(s.goals as real, s.shots as real, 1.0), Ratio(s.xg, s.shots as real, 1.0),
      s.goals as real - s.xg, Percent(s.shotsOnTarget, s.shots))
  }

  function Overperformance(s: Shooter): real {
    s.overperformance
  }

  predicate EnoughShots(row: SeasonRow, minShots: int) {
    row.totals.stats.shots >= minShots
  }

  /** `analyze_shooting_efficiency`: players with at least `minShots` shots, by goals minus xg. */
  function ShootingEfficiency(matches: seq<Option<MatchData>>, minShots: int): Ranking<Shooter> {
    RankSeason(SeasonTable(matches, None), row => EnoughShots(row, minShots), ShooterOf, Overperformance)
  }

  /** A shooter with at least one shot has defined ratios; goals per shot lies in [0, 1] and accuracy in [0, 100]. */
  lemma ShooterRatios(row: SeasonRow)
    requires Consistent(row.totals.stats) && row.totals.stats.shots >= 1
    ensures var x := ShooterOf(row);
      && x.goalsPerShot.Some? && 0.0 <= x.goalsPerShot.value <= 1.0
      && x.xgPerShot.Some?
      && x.shotAccuracy.Some? && 0.0 <= x.shotAccuracy.value <= 100.0
  {
    var x := ShooterOf(row);
    var s := row.totals.stats;
    var n := s.shots as real;
    PercentBounds(s.shotsOnTarget, s.shots);
    assert x.goalsPerShot.value * n == s.goals as real;
    assert s.goals as real <= n;
  }

  /**
   * The shooters are exactly the rows with at least `minShots` shots,
   * ordered by goals minus xg, largest first; with `minShots` at least 1,
   * every ratio is defined and in range.
   */
  lemma ShootersSpec(rows: seq<SeasonRow>, minShots: int)
    requires forall row :: row in rows ==> Regular(row)
    ensures var r := Rank(rows, row => EnoughShots(row, minShots), ShooterOf, Overperformance);
      && SortedDesc(r, Overperformance)
      && (forall x :: x in r <==> exists row :: row in rows && EnoughShots(row, minShots) && x == ShooterOf(row))
      && (forall x :: x in r ==> x.overperformance == x.goals as real - x.xg)
      && (minShots >= 1 ==> forall x :: x in r ==>
            && x.goalsPerShot.Some? && 0.0 <= x.goalsPerShot.value <= 1.0
            && x.xgPerShot.Some?
            && x.shotAccuracy.Some? && 0.0 <= x.shotAccuracy.value <= 100.0)
  {
    var keep := (row: SeasonRow) => EnoughShots(row, minShots);
    RankSpec(rows, keep, ShooterOf, Overperformance);
    var r := Rank(rows, keep, ShooterOf, Overperformance);
    forall x | x in r && minShots >= 1
      ensures x.goalsPerShot.Some? && 0.0 <= x.goalsPerShot.value <= 1.0
      ensures x.xgPerShot.Some?
      ensures x.shotAccuracy.Some? && 0.0 <= x.shotAccuracy.value <= 100.0
    {
      var row :| row in rows && keep(row) && x == ShooterOf(row);
      ShooterRatios(row);
    }
  }

  /** `analyze_shooting_efficiency` raises exactly when the season table has no columns, and otherwise ranks as `ShootersSpec` states. */
  lemma ShootingSpec(matches: seq<Option<MatchData>>, minShots: int)
    ensures ShootingEfficiency(matches, minShots).Ranked? <==> SeasonTable(matches, None).Table?
    ensures ShootingEfficiency(matches, minShots).Ranked? ==>
      var r := ShootingEfficiency(matches, minShots).rows;
      var rows := SeasonTable(matches, None).rows;
      && SortedDesc(r, Overperformance)
      && (forall x :: x in r <==> exists row :: row in rows && EnoughShots(row, minShots) && x == ShooterOf(row))
      && (minShots >= 1 ==> forall x :: x in r ==>
            && x.goalsPerShot.Some? && 0.0 <= x.goalsPerShot.value <= 1.0
            && x.shotAccuracy.Some? && 0.0 <= x.shotAccuracy.value <= 100.0)
  {
    var season := SeasonTable(matches, None);
    if season.Table? {
      TableRegular(matches, None);
      ShootersSpec(season.rows, minShots);
    }
  }

  // ---------------------------------------------------------------------
  // Creative players

  datatype Creator = Creator(
    key: GroupKey, assists: nat, xa: real, keyPasses: nat,
    assistsPer90: Option<real>, xaPer90: Option<real>, keyPassesPer90: Option<real>,
    creativeActionsPer90: Option<real>, assistRate: Option<real>)

  function CreatorOf(row: SeasonRow): Creator {
    var t := row.totals;
    var s := t.stats;
    Creator(row.key, s.assists, s.xa, s.keyPasses,
      Per90(s.assists as real, t), Per90(s.xa, t), Per90(s.keyPasses as real, t),
      Per90((s.assists + s.keyPasses) as real, t), Percent(s.assists, s.assists + s.keyPasses))
  }

  function CreativeKey(c: Creator): real {
    NanLast(c.creativeActionsPer90)
  }

  predicate EnoughPasses(row: SeasonRow, minPasses: int) {
    row.totals.stats.passes >= minPasses
  }

  /** `analyze_creative_players`: players with at least `minPasses` passes, by assists plus key passes per 90. */
  function CreativePlayers(matches: seq<Option<MatchData>>, minPasses: int): Ranking<Creator> {
    RankSeason(SeasonTable(matches, None), row => EnoughPasses(row, minPasses), CreatorOf, CreativeKey)
  }

  /**
   * The rates of a season row's creator: every per-90 rate is defined, the
   * creative-actions rate is the sum of the assist and key-pass rates and is
   * non-negative, and the assist rate is a percentage defined exactly when
   * there is an assist or a key pass.
   */
  lemma CreatorRates(row: SeasonRow)
    requires Regular(row)
    ensures var x := CreatorOf(row);
      && x.assistsPer90.Some? && x.keyPassesPer90.Some? && x.xaPer90 == Some(0.0)
      && x.creativeActionsPer90.Some?
      && x.creativeActionsPer90.value == x.assistsPer90.value + x.keyPassesPer90.value
      && CreativeKey(x) >= 0.0
      && (x.assistRate.Some? <==> x.assists + x.keyPasses > 0)
      && (x.assistRate.Some? ==> 0.0 <= x.assistRate.value <= 100.0)
  {
    var x := CreatorOf(row);
    var s := row.totals.stats;
    var m := row.totals.minutes as real;
    assert m > 0.0;
    assert x.assistsPer90.value * m == s.assists as real * 90.0;
    assert x.keyPassesPer90.value * m == s.keyPasses as real * 90.0;
    assert x.creativeActionsPer90.value * m == (s.assists + s.keyPasses) as real * 90.0;
    assert x.xaPer90.value * m == 0.0;
    PercentBounds(s.assists, s.assists + s.keyPasses);
  }

  /**
   * The creators are exactly the rows with at least `minPasses` passes,
   * ordered by creative actions per 90, largest first, with the rates
   * `CreatorRates` states.
   */
  lemma CreatorsSpec(rows: seq<SeasonRow>, minPasses: int)
    requires forall row :: row in rows ==> Regular(row)
    ensures var r := Rank(rows, row => EnoughPasses(row, minPasses), CreatorOf, CreativeKey);
      && SortedDesc(r, CreativeKey)
      && (forall x :: x in r <==> exists row :: row in rows && EnoughPasses(row, minPasses) && x == CreatorOf(row))
      && (forall x :: x in r ==>
            && x.assistsPer90.Some? && x.keyPassesPer90.Some? && x.xaPer90 == Some(0.0)
            && x.creativeActionsPer90.Some?
            && x.creativeActionsPer90.value == x.assistsPer90.value + x.keyPassesPer90.value
            && CreativeKey(x) >= 0.0
            && (x.assistRate.Some? <==> x.assists + x.keyPasses > 0)
            && (x.assistRate.Some? ==> 0.0 <= x.assistRate.value <= 100.0))
  {
    var keep := (row: SeasonRow) => EnoughPasses(row, minPasses);
    RankSpec(rows, keep, CreatorOf, CreativeKey);
    var r := Rank(rows, keep, CreatorOf, CreativeKey);
    forall x | x in r
      ensures x.assistsPer90.Some? && x.keyPassesPer90.Some? && x.xaPer90 == Some(0.0)
      ensures x.creativeActionsPer90.Some?
      ensures x.creativeActionsPer90.value == x.assistsPer90.value + x.keyPassesPer90.value
      ensures CreativeKey(x) >= 0.0
      ensures x.assistRate.Some? <==> x.assists + x.keyPasses > 0
      ensures x.assistRate.Some? ==> 0.0 <= x.assistRate.value <= 100.0
    {
      var row :| row in rows && keep(row) && x == CreatorOf(row);
      CreatorRates(row);
    }
  }

  /** `analyze_creative_players` raises exactly when the season table has no columns, and otherwise ranks as `CreatorsSpec` states. */
  lemma CreativeSpec(matches: seq<Option<MatchData>>, minPasses: int)
    ensures CreativePlayers(matches, minPasses).Ranked? <==> SeasonTable(matches, None).Table?
    ensures CreativePlayers(matches, minPasses).Ranked? ==>
      var r := CreativePlayers(matches, minPasses).rows;
      var rows := SeasonTable(matches, None).rows;
      && SortedDesc(r, CreativeKey)
      && (forall x :: x in r <==> exists row :: row in rows && EnoughPasses(row, minPasses) && x == CreatorOf(row))
      && (forall x :: x in r ==> x.creativeActionsPer90.Some? && CreativeKey(x) >= 0.0)
  {
    var season := SeasonTable(matches, None);
    if season.Table? {
      TableRegular(matches, None);
      CreatorsSpec(season.rows, minPasses);
    }
  }

  // ---------------------------------------------------------------------
  // Defensive players

  datatype Defender = Defender(
    key: GroupKey, games: nat,
    tacklesPer90: Option<real>, interceptionsPer90: Option<real>, clearancesPer90: Option<real>,
    defensiveActionsPer90: Option<real>,
    fouls: nat, cardsYellow: nat, cardsRed: nat)

  /** The position filter: contains "Back", "Defender" or "Defensive Midfield", ignoring case. */
  predicate DefensivePosition(position: string) {
    || ContainsIgnoringCase(position, "Back")
    || ContainsIgnoringCase(position, "Defender")
    || ContainsIgnoringCase(position, "Defensive Midfield")
  }

  function DefenderOf(row: SeasonRow): Defender {
    var t := row.totals;
    var s := t.stats;
    Defender(row.key, t.games,
      Per90(s.tackles as real, t), Per90(s.interceptions as real, t), Per90(s.clearances as real, t),
      Per90((s.tackles + s.interceptions + s.clearances) as real, t),
      s.fouls, s.cardsYellow, s.cardsRed)
  }

  function DefensiveKey(d: Defender): real {
    NanLast(d.defensiveActionsPer90)
  }

  /** A row in a defensive position with at least `minMinutes` minutes. */
  predicate DefensiveRegular(row: SeasonRow, minMinutes: int) {
    DefensivePosition(row.key.position) && row.totals.minutes >= minMinutes
  }

  /** `analyze_defensive_players`: defensive positions with at least `minMinutes` minutes, by defensive actions per 90. */
  function DefensivePlayers(matches: seq<Option<MatchData>>, minMinutes: int): Ranking<Defender> {
    RankSeason(SeasonTable(matches, None), row => DefensiveRegular(row, minMinutes), DefenderOf, DefensiveKey)
  }

  /** The rates of a season row's defender: all defined, the actions rate the sum of the three and non-negative. */
  lemma DefenderRates(row: SeasonRow)
    requires Regular(row)
    ensures var x := DefenderOf(row);
      && x.games > 0
      && x.tacklesPer90.Some? && x.interceptionsPer90.Some? && x.clearancesPer90.Some?
      && x.defensiveActionsPer90.Some?
      && x.defensiveActionsPer90.value == x.tacklesPer90.value + x.interceptionsPer90.value + x.clearancesPer90.value
      && DefensiveKey(x) >= 0.0
  {
    var x := DefenderOf(row);
    var s := row.totals.stats;
    var m := row.totals.minutes as real;
    assert m > 0.0;
    assert x.tacklesPer90.value * m == s.tackles as real * 90.0;
    assert x.interceptionsPer90.value * m == s.interceptions as real * 90.0;
    assert x.clearancesPer90.value * m == s.clearances as real * 90.0;
    assert x.defensiveActionsPer90.value * m == (s.tackles + s.interceptions + s.clearances) as real * 90.0;
  }

  /**
   * The defenders are exactly the rows in a defensive position with at
   * least `minMinutes` minutes, ordered by defensive actions per 90, largest
   * first, with the rates `DefenderRates` states.
   */
  lemma DefendersSpec(rows: seq<SeasonRow>, minMinutes: int)
    requires forall row :: row in rows ==> Regular(row)
    ensures var r := Rank(rows, row => DefensiveRegular(row, minMinutes), DefenderOf, DefensiveKey);
      && SortedDesc(r, DefensiveKey)
      && (forall x :: x in r <==> exists row :: row in rows && DefensiveRegular(row, minMinutes) && x == DefenderOf(row))
      && (forall x :: x in r ==>
            && x.games > 0
            && x.tacklesPer90.Some? && x.interceptionsPer90.Some? && x.clearancesPer90.Some?
            && x.defensiveActionsPer90.Some?
            && x.defensiveActionsPer90.value
               == x.tacklesPer90.value + x.interceptionsPer90.value + x.clearancesPer90.value
            && DefensiveKey(x) >= 0.0)
  {
    var keep := (row: SeasonRow) => DefensiveRegular(row, minMinutes);
    RankSpec(rows, keep, DefenderOf, DefensiveKey);
    var r := Rank(rows, keep, DefenderOf, DefensiveKey);
    forall x | x in r
      ensures x.games > 0
      ensures x.tacklesPer90.Some? && x.interceptionsPer90.Some? && x.clearancesPer90.Some?
      ensures x.defensiveActionsPer90.Some?
      ensures x.defensiveActionsPer90.value == x.tacklesPer90.value + x.interceptionsPer90.value + x.clearancesPer90.value
      ensures DefensiveKey(x) >= 0.0
    {
      var row :| row in rows && keep(row) && x == DefenderOf(row);
      DefenderRates(row);
    }
  }

  /** `analyze_defensive_players` raises exactly when the season table has no columns, and otherwise ranks as `DefendersSpec` states. */
  lemma DefensiveSpec(matches: seq<Option<MatchData>>, minMinutes: int)
    ensures DefensivePlayers(matches, minMinutes).Ranked? <==> SeasonTable(matches, None).Table?
    ensures DefensivePlayers(matches, minMinutes).Ranked? ==>
      var r := DefensivePlayers(matches, minMinutes).rows;
      var rows := SeasonTable(matches, None).rows;
      && SortedDesc(r, DefensiveKey)
      && (forall x :: x in r <==> exists row :: row in rows && DefensiveRegular(row, minMinutes) && x == DefenderOf(row))
      && (forall x :: x in r ==> x.defensiveActionsPer90.Some? && DefensiveKey(x) >= 0.0)
  {
    var season := SeasonTable(matches, None);
    if season.Table? {
      TableRegular(matches, None);
      DefendersSpec(season.rows, minMinutes);
    }
  }
}
