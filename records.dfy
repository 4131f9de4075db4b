/**
 * The per-player, per-match statistics record that the event aggregator
 * builds, and the table of such records keyed by player id.
 */
module Records {

  /** The counting columns of a match record, plus the xg and xa sums. */
  datatype Counters = Counters(
    passes: nat, passesCompleted: nat,
    shots: nat, shotsOnTarget: nat, goals: nat,
    assists: nat, keyPasses: nat,
    dribbles: nat, dribblesCompleted: nat,
    tackles: nat, interceptions: nat, clearances: nat,
    fouls: nat, cardsYellow: nat, cardsRed: nat,
    touches: nat,
    xg: real, xa: real)

  const Zero := Counters(0, 0, 0, 0, 0, 0, 0, 0, 0, 0, 0, 0, 0, 0, 0, 0, 0.0, 0.0)

  /** Column-wise sum, as pandas sums each column of a group. */
  function Add(a: Counters, b: Counters): Counters {
    Counters(
      a.passes + b.passes, a.passesCompleted + b.passesCompleted,
      a.shots + b.shots, a.shotsOnTarget + b.shotsOnTarget, a.goals + b.goals,
      a.assists + b.assists, a.keyPasses + b.keyPasses,
      a.dribbles + b.dribbles, a.dribblesCompleted + b.dribblesCompleted,
      a.tackles + b.tackles, a.interceptions + b.interceptions, a.clearances + b.clearances,
      a.fouls + b.fouls, a.cardsYellow + b.cardsYellow, a.cardsRed + b.cardsRed,
      a.touches + b.touches,
      a.xg + b.xg, a.xa + b.xa)
  }

  lemma AddZero(a: Counters)
    ensures Add(Zero, a) == a && Add(a, Zero) == a
  {
  }

  lemma AddCommutes(a: Counters, b: Counters)
    ensures Add(a, b) == Add(b, a)
  {
  }

  lemma AddAssociates(a: Counters, b: Counters, c: Counters)
    ensures Add(Add(a, b), c) == Add(a, Add(b, c))
  {
  }

  /**
   * The relations between columns that every aggregated record keeps:
   * no more completions, assists or key passes than passes, goals within
   * shots on target within shots, no more completed dribbles than dribbles,
   * at most one card per foul, and xa never credited.
   */
  predicate Consistent(c: Counters) {
    && c.passesCompleted <= c.passes
    && c.assists + c.keyPasses <= c.passes
    && c.goals <= c.shotsOnTarget <= c.shots
    && c.dribblesCompleted <= c.dribbles
    && c.cardsYellow + c.cardsRed <= c.fouls
    && c.xa == 0.0
  }

  /** Consistency survives column-wise sums. */
  lemma AddConsistent(a: Counters, b: Counters)
    requires Consistent(a) && Consistent(b)
    ensures Consistent(Add(a, b))
  {
  }

  /** One row of a match's statistics table. */
  datatype MatchRecord = MatchRecord(
    playerName: string,
    teamName: string,
    position: string,
    minutesPlayed: int,
    stats: Counters)

  /**
   * The dictionary `player_stats` of one match: `ids` lists the keys in
   * insertion order (the row order of the DataFrame built from it) and
   * `rows` maps each id to its record.
   */
  datatype MatchTable = MatchTable(ids: seq<int>, rows: map<int, MatchRecord>)

  const EmptyTable := MatchTable([], map[])

  ghost predicate WellFormed(t: MatchTable) {
    && (forall i, j :: 0 <= i < j < |t.ids| ==> t.ids[i] != t.ids[j])
    && (forall k :: k in t.rows <==> k in t.ids)
  }

  /** The table's rows in insertion order. */
  function Rows(t: MatchTable): (r: seq<MatchRecord>)
    requires forall i :: 0 <= i < |t.ids| ==> t.ids[i] in t.rows
    ensures |r| == |t.ids|
    ensures forall i :: 0 <= i < |r| ==> r[i] == t.rows[t.ids[i]]
  {
    seq(|t.ids|, i requires 0 <= i < |t.ids| => t.rows[t.ids[i]])
  }
}
