/**
 * The league table (`get_team_stats`): one record per team seen, in the
 * order teams first appear, credited with every match's result; then the
 * points (three per win, one per draw) and goal difference of every team,
 * sorted by points, highest first.
 *
 * `TeamStats` is the source's loop with its in-place dictionary updates;
 * `LeagueStandings` is the fold that specifies it, one `Play` per match.
 */
module TeamStats {
  import opened Sorting

  /** The fields of a match listing the table reads. */
  datatype MatchSummary = MatchSummary(homeTeam: string, awayTeam: string, homeScore: int, awayScore: int)

  /** One team's entry; `xgFor` and `xgAgainst` are created at zero and never updated. */
  datatype TeamRecord = TeamRecord(
    games: nat, wins: nat, draws: nat, losses: nat,
    goalsFor: int, goalsAgainst: int,
    xgFor: int, xgAgainst: int)

  const Fresh := TeamRecord(0, 0, 0, 0, 0, 0, 0, 0)

  function Count(b: bool): nat {
    if b then 1 else 0
  }

  /** One team's share of a match in which it scored `scored` and conceded `conceded`. */
  function Credit(r: TeamRecord, scored: int, conceded: int): TeamRecord {
    r.(games := r.games + 1,
       goalsFor := r.goalsFor + scored,
       goalsAgainst := r.goalsAgainst + conceded,
       wins := r.wins + Count(scored > conceded),
       draws := r.draws + Count(scored == conceded),
       losses := r.losses + Count(scored < conceded))
  }

  /** The dictionary `team_stats`: `teams` lists its keys in insertion order. */
  datatype Standings = Standings(teams: seq<string>, records: map<string, TeamRecord>)

  const NoStandings := Standings([], map[])

  ghost predicate Valid(s: Standings) {
    && (forall i, j :: 0 <= i < j < |s.teams| ==> s.teams[i] != s.teams[j])
    && (forall k :: k in s.records <==> k in s.teams)
    && (forall i :: 0 <= i < |s.teams| ==> s.teams[i] in s.records)
  }

  /** `if team not in team_stats`: a team seen for the first time starts from zero. */
  function Enter(s: Standings, team: string): (r: Standings)
    ensures team in r.records
    ensures forall k :: k in s.records ==> k in r.records && r.records[k] == s.records[k]
  {
    if team in s.records then s else Standings(s.teams + [team], s.records[team := Fresh])
  }

  /** A match's result: the home side credited, then the away side (the same entry twice if they coincide). */
  function Settle(records: map<string, TeamRecord>, m: MatchSummary): map<string, TeamRecord>
    requires m.homeTeam in records && m.awayTeam in records
  {
    var r1 := records[m.homeTeam := Credit(records[m.homeTeam], m.homeScore, m.awayScore)];
    r1[m.awayTeam := Credit(r1[m.awayTeam], m.awayScore, m.homeScore)]
  }

  /** One match: both teams entered, then the result settled. */
  function Play(s: Standings, m: MatchSummary): Standings {
    var s1 := Enter(Enter(s, m.homeTeam), m.awayTeam);
    s1.(records := Settle(s1.records, m))
  }

  /** The dictionary after the loop over all matches. */
  function LeagueStandings(matches: seq<MatchSummary>): Standings
    decreases |matches|
  {
    if matches == [] then NoStandings
    else Play(LeagueStandings(matches[..|matches| - 1]), matches[|matches| - 1])
  }

  /** A row of the returned table. */
  datatype TeamRow = TeamRow(team: string, record: TeamRecord, points: int, goalDifference: int)

  function RowOf(team: string, r: TeamRecord): TeamRow {
    TeamRow(team, r, 3 * r.wins + r.draws, r.goalsFor - r.goalsAgainst)
  }

  /** `pd.DataFrame.from_dict(team_stats, orient='index')` with the two derived columns, in insertion order. */
  function RowsOf(s: Standings): seq<TeamRow>
    requires forall i :: 0 <= i < |s.teams| ==> s.teams[i] in s.records
  {
    seq(|s.teams|, i requires 0 <= i < |s.teams| => RowOf(s.teams[i], s.records[s.teams[i]]))
  }

  /** The rows of the dictionary after all matches, in insertion order. */
  function LeagueRows(matches: seq<MatchSummary>): seq<TeamRow> {
    StandingsValid(matches);
    RowsOf(LeagueStandings(matches))
  }

  function PointsKey(r: TeamRow): real {
    r.points as real
  }

  /**
   * The returned DataFrame: a KeyError on the `wins` column when no team was
   * entered (a frame built from an empty dictionary has no columns);
   * otherwise the sorted rows.
   */
  datatype TeamTable = NoColumns | Table(rows: seq<TeamRow>)

  /** `get_team_stats` on the already-fetched match listing of one season. */
  method TeamStats(matches: seq<MatchSummary>) returns (result: TeamTable)
    ensures result.NoColumns? <==> matches == []
    ensures result.Table? ==> SortedDesc(result.rows, PointsKey)
    ensures result.Table? ==> multiset(result.rows) == multiset(LeagueRows(matches))
  {
    var teams: seq<string> := [];
    var stats: map<string, TeamRecord> := map[];
    for i := 0 to |matches|
      invariant Standings(teams, stats) == LeagueStandings(matches[..i])
    {
      var m := matches[i];
      var home := m.homeTeam;
      var away := m.awayTeam;
      var pair := [home, away];
      for j := 0 to |pair|
        invariant Standings(teams, stats) == EnterAll(LeagueStandings(matches[..i]), pair[..j])
      {
        var team := pair[j];
        if team !in stats {
          teams := teams + [team];
          stats := stats[team := Fresh];
        }
        assert pair[..j + 1][..j] == pair[..j];
      }
      assert pair[..|pair|] == [home, away];
      assert EnterAll(LeagueStandings(matches[..i]), [home, away]) == Enter(Enter(LeagueStandings(matches[..i]), home), away) by {
        assert [home, away][..1] == [home];
        assert [home][..0] == [];
      }
      stats := RecordResult(stats, m);
      assert matches[..i + 1][..i] == matches[..i];
    }
    assert matches[..|matches|] == matches;
    StandingsValid(matches);
    NoTeamsWhenNoMatches(matches);
    if stats == map[] {
      return NoColumns;
    }
    var rows := SortDesc(RowsOf(Standings(teams, stats)), PointsKey);
    result := Table(rows);
  }

  /**
   * The result updates of one match, column by column as the source makes
   * them; together they settle the match.
   */
  method RecordResult(stats0: map<string, TeamRecord>, m: MatchSummary) returns (stats: map<string, TeamRecord>)
    requires m.homeTeam in stats0 && m.awayTeam in stats0
    ensures stats == Settle(stats0, m)
  {
    stats := stats0;
    var home := m.homeTeam;
    var away := m.awayTeam;
    var homeScore := m.homeScore;
    var awayScore := m.awayScore;
    stats := stats[home := stats[home].(games := stats[home].games + 1)];
    stats := stats[away := stats[away].(games := stats[away].games + 1)];
    stats := stats[home := stats[home].(goalsFor := stats[home].goalsFor + homeScore)];
    stats := stats[home := stats[home].(goalsAgainst := stats[home].goalsAgainst + awayScore)];
    stats := stats[away := stats[away].(goalsFor := stats[away].goalsFor + awayScore)];
    stats := stats[away := stats[away].(goalsAgainst := stats[away].goalsAgainst + homeScore)];
    if homeScore > awayScore {
      stats := stats[home := stats[home].(wins := stats[home].wins + 1)];
      stats := stats[away := stats[away].(losses := stats[away].losses + 1)];
    } else if homeScore < awayScore {
      stats := stats[away := stats[away].(wins := stats[away].wins + 1)];
      stats := stats[home := stats[home].(losses := stats[home].losses + 1)];
    } else {
      stats := stats[home := stats[home].(draws := stats[home].draws + 1)];
      stats := stats[away := stats[away].(draws := stats[away].draws + 1)];
    }
  }

  /** The teams entered one after another. */
  function EnterAll(s: Standings, names: seq<string>): Standings
    decreases |names|
  {
    if names == [] then s else Enter(EnterAll(s, names[..|names| - 1]), names[|names| - 1])
  }

  // ---------------------------------------------------------------------
  // The dictionary

  lemma EnterValid(s: Standings, team: string)
    requires Valid(s)
    ensures Valid(Enter(s, team))
    ensures team !in s.records ==> Enter(s, team).teams == s.teams + [team]
    ensures team in s.records ==> Enter(s, team) == s
  {
  }

  /** A match enters its two teams and no other. */
  lemma PlayKeys(s: Standings, m: MatchSummary)
    requires Valid(s)
    ensures Valid(Play(s, m))
    ensures forall k :: k in Play(s, m).records <==> k in s.records || k == m.homeTeam || k == m.awayTeam
  {
    EnterValid(s, m.homeTeam);
    EnterValid(Enter(s, m.homeTeam), m.awayTeam);
  }

  /** Some match names team `k`, at home or away. */
  ghost predicate Named(matches: seq<MatchSummary>, k: string) {
    exists i :: 0 <= i < |matches| && (matches[i].homeTeam == k || matches[i].awayTeam == k)
  }

  lemma NamedSnoc(matches: seq<MatchSummary>, k: string)
    requires matches != []
    ensures Named(matches, k) <==>
      Named(matches[..|matches| - 1], k) || matches[|matches| - 1].homeTeam == k || matches[|matches| - 1].awayTeam == k
  {
    var pre := matches[..|matches| - 1];
    if Named(pre, k) {
      var i :| 0 <= i < |pre| && (pre[i].homeTeam == k || pre[i].awayTeam == k);
      assert matches[i] == pre[i];
    }
    if Named(matches, k) {
      var i :| 0 <= i < |matches| && (matches[i].homeTeam == k || matches[i].awayTeam == k);
      if i < |pre| {
        assert pre[i] == matches[i];
      }
    }
  }

  /**
   * The dictionary has exactly one entry per team named in some match, its
   * keys listed once each in order of first appearance.
   */
  lemma {:induction false} StandingsValid(matches: seq<MatchSummary>)
    ensures Valid(LeagueStandings(matches))
    ensures forall k :: k in LeagueStandings(matches).records <==> Named(matches, k)
    decreases |matches|
  {
    if matches != [] {
      var pre := matches[..|matches| - 1];
      var m := matches[|matches| - 1];
      StandingsValid(pre);
      PlayKeys(LeagueStandings(pre), m);
      forall k ensures k in LeagueStandings(matches).records <==> Named(matches, k) {
        NamedSnoc(matches, k);
      }
    }
  }

  /** The dictionary stays empty exactly when there is no match: every match enters its two teams. */
  lemma NoTeamsWhenNoMatches(matches: seq<MatchSummary>)
    ensures LeagueStandings(matches).records == map[] <==> matches == []
  {
    if matches != [] {
      var m := matches[|matches| - 1];
      var s := Enter(Enter(LeagueStandings(matches[..|matches| - 1]), m.homeTeam), m.awayTeam);
      assert m.awayTeam in Settle(s.records, m);
    }
  }

  /** A record whose games split into wins, draws and losses and whose xg columns are zero. */
  predicate Balanced(r: TeamRecord) {
    r.games == r.wins + r.draws + r.losses && r.xgFor == 0 && r.xgAgainst == 0
  }

  /** Every team's games split into wins, draws and losses; its xg columns stay zero. */
  lemma {:induction false} StandingsBalanced(matches: seq<MatchSummary>)
    ensures AllBalanced(LeagueStandings(matches).records)
    decreases |matches|
  {
    if matches != [] {
      var pre := matches[..|matches| - 1];
      StandingsBalanced(pre);
      PlayBalanced(LeagueStandings(pre), matches[|matches| - 1]);
    }
  }

  /** A match keeps every entry balanced: each credit adds one game and one of win, draw or loss. */
  lemma PlayBalanced(s: Standings, m: MatchSummary)
    requires AllBalanced(s.records)
    ensures AllBalanced(Play(s, m).records)
  {
    var s0 := Enter(s, m.homeTeam);
    var s1 := Enter(s0, m.awayTeam);
    EnterBalanced(s, m.homeTeam);
    EnterBalanced(s0, m.awayTeam);
    SettleBalanced(s1.records, m);
  }

  predicate AllBalanced(records: map<string, TeamRecord>) {
    forall k :: k in records ==> Balanced(records[k])
  }

  lemma EnterBalanced(s: Standings, team: string)
    requires AllBalanced(s.records)
    ensures AllBalanced(Enter(s, team).records)
  {
  }

  lemma SettleBalanced(records: map<string, TeamRecord>, m: MatchSummary)
    requires m.homeTeam in records && m.awayTeam in records
    requires AllBalanced(records)
    ensures AllBalanced(Settle(records, m))
  {
    var r1 := records[m.homeTeam := Credit(records[m.homeTeam], m.homeScore, m.awayScore)];
    CreditKeepsBalance(records, m.homeTeam, m.homeScore, m.awayScore);
    CreditKeepsBalance(r1, m.awayTeam, m.awayScore, m.homeScore);
  }

  lemma CreditKeepsBalance<K>(records: map<K, TeamRecord>, team: K, scored: int, conceded: int)
    requires team in records && forall k :: k in records ==> Balanced(records[k])
    ensures var r := records[team := Credit(records[team], scored, conceded)];
      forall k :: k in r ==> Balanced(r[k])
  {
    CreditBalanced(records[team], scored, conceded);
  }


  lemma CreditBalanced(r: TeamRecord, scored: int, conceded: int)
    requires Balanced(r)
    ensures Balanced(Credit(r, scored, conceded))
  {
    if scored > conceded {
      assert Count(scored > conceded) == 1 && Count(scored == conceded) == 0 && Count(scored < conceded) == 0;
    } else if scored == conceded {
      assert Count(scored > conceded) == 0 && Count(scored == conceded) == 1 && Count(scored < conceded) == 0;
    } else {
      assert Count(scored > conceded) == 0 && Count(scored == conceded) == 0 && Count(scored < conceded) == 1;
    }
  }

  // ---------------------------------------------------------------------
  // Column totals

  datatype Column = Games | Wins | Draws | Losses | GoalsFor | GoalsAgainst

  function Col(r: TeamRow, c: Column): int {
    match c
    case Games => r.record.games
    case Wins => r.record.wins
    case Draws => r.record.draws
    case Losses => r.record.losses
    case GoalsFor => r.record.goalsFor
    case GoalsAgainst => r.record.goalsAgainst
  }

  /** The sum of one column over the rows. */
  function RowSum(rows: seq<TeamRow>, c: Column): int
    decreases |rows|
  {
    if rows == [] then 0 else RowSum(rows[..|rows| - 1], c) + Col(rows[|rows| - 1], c)
  }

  lemma {:induction false} RowSumAppend(u: seq<TeamRow>, v: seq<TeamRow>, c: Column)
    ensures RowSum(u + v, c) == RowSum(u, c) + RowSum(v, c)
    decreases |v|
  {
    if v == [] {
      assert u + v == u;
    } else {
      assert (u + v)[..|u + v| - 1] == u + v[..|v| - 1];
      RowSumAppend(u, v[..|v| - 1], c);
    }
  }

  /** Replacing one row changes a column's sum by the difference of the two rows. */
  lemma {:induction false} RowSumReplace(rows: seq<TeamRow>, i: nat, x: TeamRow, c: Column)
    requires i < |rows|
    ensures RowSum(rows[i := x], c) == RowSum(rows, c) - Col(rows[i], c) + Col(x, c)
    decreases |rows|
  {
    var n := |rows| - 1;
    if i < n {
      assert rows[i := x][..n] == rows[..n][i := x];
      RowSumReplace(rows[..n], i, x, c);
    } else {
      assert rows[i := x][..n] == rows[..n];
    }
  }

  /** Column sums do not depend on the order of the rows. */
  lemma {:induction false} RowSumPermutation(a: seq<TeamRow>, b: seq<TeamRow>, c: Column)
    requires multiset(a) == multiset(b)
    ensures RowSum(a, c) == RowSum(b, c)
    decreases |a|
  {
    if a == [] {
      assert |b| == |multiset(b)| == 0;
    } else {
      var i := PermutationSplit(a, b);
      var b1, b2 := b[..i], b[i + 1..];
      RowSumPermutation(a[..|a| - 1], b1 + b2, c);
      RowSumRemove(b1, b[i], b2, c);
    }
  }

  lemma RowSumRemove(b1: seq<TeamRow>, x: TeamRow, b2: seq<TeamRow>, c: Column)
    ensures RowSum(b1 + [x] + b2, c) == RowSum(b1 + b2, c) + Col(x, c)
  {
    RowSumAppend(b1 + [x], b2, c);
    RowSumAppend(b1, [x], c);
    RowSumAppend(b1, b2, c);
    assert RowSum([x], c) == Col(x, c) by {
      assert [x][..0] == [];
    }
  }

  /** A new team adds a row of zeros at the end. */
  lemma EnterRows(s: Standings, team: string)
    requires Valid(s) && team !in s.records
    ensures RowsOf(Enter(s, team)) == RowsOf(s) + [RowOf(team, Fresh)]
  {
    var r := Enter(s, team);
    assert forall i :: 0 <= i < |s.teams| ==> s.teams[i] != team;
    assert |RowsOf(r)| == |RowsOf(s) + [RowOf(team, Fresh)]|;
    forall i | 0 <= i < |RowsOf(r)| ensures RowsOf(r)[i] == (RowsOf(s) + [RowOf(team, Fresh)])[i] {
    }
  }

  /** Entering a team leaves every column sum unchanged. */
  lemma EnterSums(s: Standings, team: string, c: Column)
    requires Valid(s)
    ensures Valid(Enter(s, team))
    ensures RowSum(RowsOf(Enter(s, team)), c) == RowSum(RowsOf(s), c)
  {
    EnterValid(s, team);
    if team !in s.records {
      EnterRows(s, team);
      RowSumAppend(RowsOf(s), [RowOf(team, Fresh)], c);
      assert [RowOf(team, Fresh)][..0] == [];
    }
  }

  /** Updating one team's entry changes a column sum by the difference of its two rows. */
  lemma UpdateSums(s: Standings, k: string, v: TeamRecord, c: Column)
    requires Valid(s) && k in s.records
    ensures Valid(s.(records := s.records[k := v]))
    ensures RowSum(RowsOf(s.(records := s.records[k := v])), c)
      == RowSum(RowsOf(s), c) - Col(RowOf(k, s.records[k]), c) + Col(RowOf(k, v), c)
  {
    var i :| 0 <= i < |s.teams| && s.teams[i] == k;
    UpdateRows(s, i, v);
    RowSumReplace(RowsOf(s), i, RowOf(k, v), c);
  }

  /** Updating the entry of the team at position `i` replaces row `i` and no other. */
  lemma UpdateRows(s: Standings, i: int, v: TeamRecord)
    requires Valid(s) && 0 <= i < |s.teams|
    ensures Valid(s.(records := s.records[s.teams[i] := v]))
    ensures RowsOf(s.(records := s.records[s.teams[i] := v])) == RowsOf(s)[i := RowOf(s.teams[i], v)]
  {
    var k := s.teams[i];
    var s' := s.(records := s.records[k := v]);
    var rows, rows' := RowsOf(s), RowsOf(s');
    forall j | 0 <= j < |rows|
      ensures rows'[j] == rows[i := RowOf(k, v)][j]
    {
      if j != i {
        assert s.teams[j] != k;
      }
    }
  }

  /** A match changes a column sum by what its two credits add to the column. */
  lemma PlayColumn(s: Standings, m: MatchSummary, c: Column)
    requires Valid(s)
    ensures Valid(Play(s, m))
    ensures var s1 := Enter(Enter(s, m.homeTeam), m.awayTeam);
      var r1 := s1.records[m.homeTeam := Credit(s1.records[m.homeTeam], m.homeScore, m.awayScore)];
      RowSum(RowsOf(Play(s, m)), c) == RowSum(RowsOf(s), c)
        + Col(RowOf(m.homeTeam, r1[m.homeTeam]), c) - Col(RowOf(m.homeTeam, s1.records[m.homeTeam]), c)
        + Col(RowOf(m.awayTeam, Credit(r1[m.awayTeam], m.awayScore, m.homeScore)), c) - Col(RowOf(m.awayTeam, r1[m.awayTeam]), c)
  {
    var h, a := m.homeTeam, m.awayTeam;
    var s0 := Enter(s, h);
    var s1 := Enter(s0, a);
    var r1 := s1.records[h := Credit(s1.records[h], m.homeScore, m.awayScore)];
    var s2 := s1.(records := r1);
    var s3 := s2.(records := r1[a := Credit(r1[a], m.awayScore, m.homeScore)]);
    assert Play(s, m) == s3;
    EnterSums(s, h, c);
    EnterSums(s0, a, c);
    UpdateSums(s1, h, r1[h], c);
    UpdateSums(s2, a, s3.records[a], c);
  }

  /** One match adds two games, as many goals for as against, and as many wins as losses. */
  lemma PlaySums(s: Standings, m: MatchSummary)
    requires Valid(s)
    ensures Valid(Play(s, m))
    ensures RowSum(RowsOf(Play(s, m)), Games) == RowSum(RowsOf(s), Games) + 2
    ensures RowSum(RowsOf(Play(s, m)), GoalsFor) - RowSum(RowsOf(Play(s, m)), GoalsAgainst)
      == RowSum(RowsOf(s), GoalsFor) - RowSum(RowsOf(s), GoalsAgainst)
    ensures RowSum(RowsOf(Play(s, m)), Wins) - RowSum(RowsOf(Play(s, m)), Losses)
      == RowSum(RowsOf(s), Wins) - RowSum(RowsOf(s), Losses)
  {
    PlayColumn(s, m, Games);
    PlayColumn(s, m, GoalsFor);
    PlayColumn(s, m, GoalsAgainst);
    PlayColumn(s, m, Wins);
    PlayColumn(s, m, Losses);
  }

  /**
   * Over the whole table: two games per match, total goals for equal to
   * total goals against, and total wins equal to total losses.
   */
  lemma {:induction false} LeagueTotals(matches: seq<MatchSummary>)
    ensures Valid(LeagueStandings(matches))
    ensures RowSum(RowsOf(LeagueStandings(matches)), Games) == 2 * |matches|
    ensures RowSum(RowsOf(LeagueStandings(matches)), GoalsFor) == RowSum(RowsOf(LeagueStandings(matches)), GoalsAgainst)
    ensures RowSum(RowsOf(LeagueStandings(matches)), Wins) == RowSum(RowsOf(LeagueStandings(matches)), Losses)
    decreases |matches|
  {
    if matches != [] {
      var pre := matches[..|matches| - 1];
      LeagueTotals(pre);
      PlaySums(LeagueStandings(pre), matches[|matches| - 1]);
    } else {
      assert RowsOf(NoStandings) == [];
    }
  }

  /**
   * What the returned table promises, for any ordering of the dictionary's
   * rows: one row per team named in some match; on every row, games split
   * into wins, draws and losses, points are three per win and one per draw,
   * goal difference is goals for minus goals against, the xg columns are
   * zero; two games per match in all, total goals for equal to total goals
   * against and total wins equal to total losses.
   */
  lemma LeagueTable(matches: seq<MatchSummary>, rows: seq<TeamRow>)
    requires multiset(rows) == multiset(LeagueRows(matches))
    ensures forall r :: r in rows ==> Named(matches, r.team)
    ensures forall r :: r in rows ==>
      && r.record.games == r.record.wins + r.record.draws + r.record.losses
      && r.points == 3 * r.record.wins + r.record.draws
      && r.goalDifference == r.record.goalsFor - r.record.goalsAgainst
      && r.record.xgFor == 0 && r.record.xgAgainst == 0
    ensures RowSum(rows, Games) == 2 * |matches|
    ensures RowSum(rows, GoalsFor) == RowSum(rows, GoalsAgainst)
    ensures RowSum(rows, Wins) == RowSum(rows, Losses)
  {
    var s := LeagueStandings(matches);
    StandingsValid(matches);
    StandingsBalanced(matches);
    forall r | r in rows
      ensures Named(matches, r.team)
      ensures r.record.games == r.record.wins + r.record.draws + r.record.losses
      ensures r.points == 3 * r.record.wins + r.record.draws
      ensures r.goalDifference == r.record.goalsFor - r.record.goalsAgainst
      ensures r.record.xgFor == 0 && r.record.xgAgainst == 0
    {
      assert r in multiset(RowsOf(s));
      var i :| 0 <= i < |RowsOf(s)| && RowsOf(s)[i] == r;
      assert s.teams[i] in s.records;
    }
    LeagueTotals(matches);
    RowSumPermutation(rows, RowsOf(s), Games);
    RowSumPermutation(rows, RowsOf(s), GoalsFor);
    RowSumPermutation(rows, RowsOf(s), GoalsAgainst);
    RowSumPermutation(rows, RowsOf(s), Wins);
    RowSumPermutation(rows, RowsOf(s), Losses);
  }
}
