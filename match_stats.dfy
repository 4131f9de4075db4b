/**
 * The per-match event aggregator (`get_player_match_stats`): one zeroed
 * record per lineup player, then a single ordered pass over the match's
 * events that credits each event to its player's record.
 *
 * `AggregateMatch` is the source's loops; `Aggregated` is the function that
 * specifies it, built from `Seed` (the lineup pass) and `ApplyEvents` (the
 * event pass), where each event adds the increments of the policy table
 * `Delta`. The lemmas state what the aggregator promises about its output.
 */
module MatchStats {
  import opened Wrappers
  import opened Events
  import opened Records

  /** Minutes credited to every lineup player, whether or not the player came on. */
  const DefaultMinutes := 90

  /** Shot outcomes that do not count as on target. */
  const OffTargetOutcomes: set<string> := {"Blocked", "Off T", "Wayward"}

  function PrimaryPosition(p: LineupEntry): string {
    if p.positions == [] then "Unknown" else p.positions[0]
  }

  /** The zeroed record a lineup entry starts with. */
  function SeedRecord(teamName: string, p: LineupEntry): MatchRecord {
    MatchRecord(p.playerName, teamName, PrimaryPosition(p), DefaultMinutes, Zero)
  }

  /** `player_stats[player_id] = {...}`: a repeated id keeps its place and takes the new record. */
  function Register(t: MatchTable, teamName: string, p: LineupEntry): MatchTable {
    MatchTable(if p.playerId in t.rows then t.ids else t.ids + [p.playerId],
               t.rows[p.playerId := SeedRecord(teamName, p)])
  }

  function RegisterAll(t: MatchTable, teamName: string, ps: seq<LineupEntry>): MatchTable
    decreases |ps|
  {
    if ps == [] then t
    else Register(RegisterAll(t, teamName, ps[..|ps| - 1]), teamName, ps[|ps| - 1])
  }

  /** The table after the lineup pass, before any event. */
  function Seed(lineups: seq<TeamLineup>): MatchTable
    decreases |lineups|
  {
    if lineups == [] then EmptyTable
    else
      var last := lineups[|lineups| - 1];
      RegisterAll(Seed(lineups[..|lineups| - 1]), last.teamName, last.lineup)
  }

  /** Some lineup entry of some team carries player id `k`. */
  ghost predicate InLineups(lineups: seq<TeamLineup>, k: int) {
    exists i, j :: 0 <= i < |lineups| && 0 <= j < |lineups[i].lineup| && lineups[i].lineup[j].playerId == k
  }

  predicate IsTackle(e: Event) {
    (e.typeName == "Tackle" || e.typeName == "Duel") && DuelType(e) == Some("Tackle")
  }

  function Count(b: bool): nat {
    if b then 1 else 0
  }

  /**
   * The policy table: what one event adds to its player's record, column by
   * column. Every column is decided on its own here; `Tally` follows the
   * source's if/elif chain instead, and is proved to add exactly this.
   */
  function Delta(e: Event): Counters {
    var isPass := e.typeName == "Pass";
    var isShot := e.typeName == "Shot";
    var isDribble := e.typeName == "Dribble";
    var isFoul := e.typeName == "Foul Committed";
    var outcome := ShotOutcome(e);
    Counters(
      passes := Count(isPass),
      passesCompleted := Count(isPass && PassOutcome(e) != Some("Incomplete")),
      shots := Count(isShot),
      shotsOnTarget := Count(isShot && !(outcome.Some? && outcome.value in OffTargetOutcomes)),
      goals := Count(isShot && outcome == Some("Goal")),
      assists := Count(isPass && GoalAssist(e)),
      keyPasses := Count(isPass && !GoalAssist(e) && ShotAssist(e)),
      dribbles := Count(isDribble),
      dribblesCompleted := Count(isDribble && DribbleOutcome(e) == Some("Complete")),
      tackles := Count(IsTackle(e)),
      interceptions := Count(e.typeName == "Interception"),
      clearances := Count(e.typeName == "Clearance"),
      fouls := Count(isFoul),
      cardsYellow := Count(isFoul && CardName(e) == Some("Yellow Card")),
      cardsRed := Count(isFoul && CardName(e) == Some("Red Card")),
      touches := 1,
      xg := if isShot && ShotXg(e).Some? then ShotXg(e).value else 0.0,
      xa := 0.0)
  }

  /** The event is credited to the record keyed `k`. */
  predicate AttributedTo(e: Event, k: int) {
    e.player.Some? && e.player.value.id == k
  }

  /** One step of the event pass: events without a player, or of a player outside the table, are skipped. */
  function ApplyEvent(t: MatchTable, e: Event): MatchTable {
    if e.player.Some? && e.player.value.id in t.rows then
      var k := e.player.value.id;
      t.(rows := t.rows[k := t.rows[k].(stats := Add(t.rows[k].stats, Delta(e)))])
    else t
  }

  function ApplyEvents(t: MatchTable, events: seq<Event>): MatchTable
    decreases |events|
  {
    if events == [] then t
    else ApplyEvent(ApplyEvents(t, events[..|events| - 1]), events[|events| - 1])
  }

  /** The aggregator's result for a match with these lineups and events. */
  function Aggregated(lineups: seq<TeamLineup>, events: seq<Event>): MatchTable {
    ApplyEvents(Seed(lineups), events)
  }

  /** The sum of `Delta` over the events credited to player `k`, in order. */
  function PlayerTotal(events: seq<Event>, k: int): Counters
    decreases |events|
  {
    if events == [] then Zero
    else
      var last := events[|events| - 1];
      Add(PlayerTotal(events[..|events| - 1], k), if AttributedTo(last, k) then Delta(last) else Zero)
  }

  /** The number of events credited to player `k`. */
  function EventsOf(events: seq<Event>, k: int): nat
    decreases |events|
  {
    if events == [] then 0
    else EventsOf(events[..|events| - 1], k) + Count(AttributedTo(events[|events| - 1], k))
  }

  /**
   * The source's dispatch on the event type, one branch per if/elif, adding
   * to the record's columns in place; it adds exactly the policy table's
   * increments.
   */
  method Tally(s: Counters, e: Event) returns (t: Counters)
    ensures t == Add(s, Delta(e))
  {
    t := s;
    if e.typeName == "Pass" {
      t := t.(passes := t.passes + 1);
      if PassOutcome(e) != Some("Incomplete") {
        t := t.(passesCompleted := t.passesCompleted + 1);
      }
      if GoalAssist(e) {
        t := t.(assists := t.assists + 1);
      } else if ShotAssist(e) {
        t := t.(keyPasses := t.keyPasses + 1);
      }
    } else if e.typeName == "Shot" {
      t := t.(shots := t.shots + 1);
      var outcome := ShotOutcome(e);
      if outcome == Some("Goal") {
        t := t.(goals := t.goals + 1);
        t := t.(shotsOnTarget := t.shotsOnTarget + 1);
      } else if !(outcome.Some? && outcome.value in {"Blocked", "Off T", "Wayward"}) {
        t := t.(shotsOnTarget := t.shotsOnTarget + 1);
      }
      if e.shot.Some? && e.shot.value.xg.Some? {
        t := t.(xg := t.xg + e.shot.value.xg.value);
      }
    } else if e.typeName == "Dribble" {
      t := t.(dribbles := t.dribbles + 1);
      if DribbleOutcome(e) == Some("Complete") {
        t := t.(dribblesCompleted := t.dribblesCompleted + 1);
      }
    } else if (e.typeName == "Tackle" || e.typeName == "Duel") && DuelType(e) == Some("Tackle") {
      t := t.(tackles := t.tackles + 1);
    } else if e.typeName == "Interception" {
      t := t.(interceptions := t.interceptions + 1);
    } else if e.typeName == "Clearance" {
      t := t.(clearances := t.clearances + 1);
    } else if e.typeName == "Foul Committed" {
      t := t.(fouls := t.fouls + 1);
      if e.foulCommitted.Some? {
        if e.foulCommitted.value.card == Some("Yellow Card") {
          t := t.(cardsYellow := t.cardsYellow + 1);
        } else if e.foulCommitted.value.card == Some("Red Card") {
          t := t.(cardsRed := t.cardsRed + 1);
        }
      }
    }
    t := t.(touches := t.touches + 1);
  }

  /** `get_player_match_stats` on already-fetched lineups and events. */
  method AggregateMatch(lineups: seq<TeamLineup>, events: seq<Event>) returns (table: MatchTable)
    ensures table == Aggregated(lineups, events)
  {
    var ids: seq<int> := [];
    var rows: map<int, MatchRecord> := map[];
    for i := 0 to |lineups|
      invariant MatchTable(ids, rows) == Seed(lineups[..i])
    {
      var team := lineups[i];
      for j := 0 to |team.lineup|
        invariant MatchTable(ids, rows) == RegisterAll(Seed(lineups[..i]), team.teamName, team.lineup[..j])
      {
        var player := team.lineup[j];
        if player.playerId !in rows {
          ids := ids + [player.playerId];
        }
        var position := if player.positions != [] then player.positions[0] else "Unknown";
        rows := rows[player.playerId := MatchRecord(player.playerName, team.teamName, position, 90, Zero)];
        assert team.lineup[..j + 1][..j] == team.lineup[..j];
      }
      assert team.lineup[..|team.lineup|] == team.lineup;
      assert lineups[..i + 1][..i] == lineups[..i];
    }
    assert lineups[..|lineups|] == lineups;
    for n := 0 to |events|
      invariant MatchTable(ids, rows) == ApplyEvents(Seed(lineups), events[..n])
    {
      var e := events[n];
      if e.player.Some? && e.player.value.id in rows {
        var k := e.player.value.id;
        var s := Tally(rows[k].stats, e);
        rows := rows[k := rows[k].(stats := s)];
      }
      assert events[..n + 1][..n] == events[..n];
    }
    assert events[..|events|] == events;
    table := MatchTable(ids, rows);
  }

  // ---------------------------------------------------------------------
  // The lineup pass

  /** The player ids of a team's lineup entries, in listing order. */
  function EntryIds(ps: seq<LineupEntry>): seq<int> {
    seq(|ps|, j requires 0 <= j < |ps| => ps[j].playerId)
  }

  /** The player ids of every lineup entry, team after team, in listing order. */
  function LineupIds(lineups: seq<TeamLineup>): seq<int>
    decreases |lineups|
  {
    if lineups == [] then []
    else LineupIds(lineups[..|lineups| - 1]) + EntryIds(lineups[|lineups| - 1].lineup)
  }

  /** `acc` followed by each id of `xs` not seen before, at its first occurrence. */
  function Extend(acc: seq<int>, xs: seq<int>): seq<int>
    decreases |xs|
  {
    if xs == [] then acc
    else
      var a := Extend(acc, xs[..|xs| - 1]);
      if xs[|xs| - 1] in a then a else a + [xs[|xs| - 1]]
  }

  /** The ids of `xs` without repeats, in order of first occurrence. */
  function Dedup(xs: seq<int>): seq<int> {
    Extend([], xs)
  }

  ghost predicate Distinct(xs: seq<int>) {
    forall i, j :: 0 <= i < j < |xs| ==> xs[i] != xs[j]
  }

  /** Where `x` first occurs in `xs`. */
  function FirstIndex(xs: seq<int>, x: int): (i: nat)
    requires x in xs
    ensures i < |xs| && xs[i] == x
    ensures forall j :: 0 <= j < i ==> xs[j] != x
  {
    if xs[0] == x then 0
    else
      var i := 1 + FirstIndex(xs[1..], x);
      assert forall j :: 1 <= j < i ==> xs[j] == xs[1..][j - 1];
      i
  }

  /** Some entry of `ps` carries player id `k`. */
  ghost predicate Lists(ps: seq<LineupEntry>, k: int) {
    exists j :: 0 <= j < |ps| && ps[j].playerId == k
  }

  /** The last entry of `ps` with player id `k`. */
  function LastEntry(ps: seq<LineupEntry>, k: int): Option<LineupEntry>
    decreases |ps|
  {
    if ps == [] then None
    else if ps[|ps| - 1].playerId == k then Some(ps[|ps| - 1])
    else LastEntry(ps[..|ps| - 1], k)
  }

  /** A lineup entry together with the name of the team that lists it. */
  datatype Slot = Slot(teamName: string, entry: LineupEntry)

  /** The last entry with player id `k` over all lineups, team after team. */
  function LastSlot(lineups: seq<TeamLineup>, k: int): Option<Slot>
    decreases |lineups|
  {
    if lineups == [] then None
    else
      var last := lineups[|lineups| - 1];
      var e := LastEntry(last.lineup, k);
      if e.Some? then Some(Slot(last.teamName, e.value)) else LastSlot(lineups[..|lineups| - 1], k)
  }

  function SlotRecord(s: Slot): MatchRecord {
    SeedRecord(s.teamName, s.entry)
  }

  /** Entry `j` of `ps` carries id `k` and no later entry does. */
  ghost predicate LastAt(ps: seq<LineupEntry>, k: int, j: int) {
    0 <= j < |ps| && ps[j].playerId == k && forall j2 :: j < j2 < |ps| ==> ps[j2].playerId != k
  }

  /** Entry `j` of team `i` carries id `k`, and no later entry of that team or of a later team does. */
  ghost predicate LastSlotAt(lineups: seq<TeamLineup>, k: int, i: int, j: int) {
    0 <= i < |lineups| && LastAt(lineups[i].lineup, k, j)
    && forall i2 :: i < i2 < |lineups| ==> !Lists(lineups[i2].lineup, k)
  }

  lemma {:induction false} ExtendAppend(acc: seq<int>, xs: seq<int>, ys: seq<int>)
    ensures Extend(acc, xs + ys) == Extend(Extend(acc, xs), ys)
    decreases |ys|
  {
    if ys == [] {
      assert xs + ys == xs;
    } else {
      var pre := ys[..|ys| - 1];
      ExtendAppend(acc, xs, pre);
      assert (xs + ys)[..|xs + ys| - 1] == xs + pre;
    }
  }

  lemma FirstIndexOfPrefix(xs: seq<int>, x: int, v: int)
    requires v in xs
    ensures FirstIndex(xs + [x], v) == FirstIndex(xs, v)
  {
    assert (xs + [x])[FirstIndex(xs, v)] == v;
    assert forall j :: 0 <= j < |xs| ==> (xs + [x])[j] == xs[j];
  }

  lemma FirstIndexOfNew(xs: seq<int>, x: int)
    requires x !in xs
    ensures FirstIndex(xs + [x], x) == |xs|
  {
    assert forall j :: 0 <= j < |xs| ==> (xs + [x])[j] == xs[j];
  }

  /**
   * `Dedup` lists every id of `xs` exactly once, and no other, in the order
   * of their first occurrences.
   */
  lemma {:induction false} DedupSpec(xs: seq<int>)
    ensures Distinct(Dedup(xs))
    ensures forall x :: x in Dedup(xs) <==> x in xs
    ensures forall i, j :: 0 <= i < j < |Dedup(xs)| ==> FirstIndex(xs, Dedup(xs)[i]) < FirstIndex(xs, Dedup(xs)[j])
    decreases |xs|
  {
    if xs != [] {
      var n := |xs| - 1;
      var pre := xs[..n];
      var x := xs[n];
      DedupSpec(pre);
      assert xs == pre + [x];
      var d := Dedup(xs);
      forall i, j | 0 <= i < j < |d| ensures FirstIndex(xs, d[i]) < FirstIndex(xs, d[j]) {
        FirstIndexOfPrefix(pre, x, d[i]);
        if j < |Dedup(pre)| {
          FirstIndexOfPrefix(pre, x, d[j]);
        } else {
          FirstIndexOfNew(pre, x);
        }
      }
    }
  }

  /** An id is among a lineup's ids exactly when some entry carries it. */
  lemma EntryIdsLists(ps: seq<LineupEntry>, k: int)
    ensures k in EntryIds(ps) <==> Lists(ps, k)
  {
    if Lists(ps, k) {
      var j :| 0 <= j < |ps| && ps[j].playerId == k;
      assert EntryIds(ps)[j] == k;
    }
  }

  /** The flattened id list holds exactly the ids some lineup entry carries. */
  lemma {:induction false} LineupIdsSpec(lineups: seq<TeamLineup>, k: int)
    ensures k in LineupIds(lineups) <==> InLineups(lineups, k)
    decreases |lineups|
  {
    if lineups != [] {
      var n := |lineups| - 1;
      var pre := lineups[..n];
      var last := lineups[n];
      LineupIdsSpec(pre, k);
      EntryIdsLists(last.lineup, k);
      if Lists(last.lineup, k) {
        var j :| 0 <= j < |last.lineup| && last.lineup[j].playerId == k;
        assert lineups[n].lineup[j].playerId == k;
      } else {
        if InLineups(lineups, k) {
          var i, j :| 0 <= i < |lineups| && 0 <= j < |lineups[i].lineup| && lineups[i].lineup[j].playerId == k;
          assert i != n;
          assert pre[i] == lineups[i];
        }
        if InLineups(pre, k) {
          var i, j :| 0 <= i < |pre| && 0 <= j < |pre[i].lineup| && pre[i].lineup[j].playerId == k;
          assert lineups[i] == pre[i];
        }
      }
    }
  }

  /** `LastEntry` finds an entry exactly when one has the id. */
  lemma {:induction false} LastEntryFound(ps: seq<LineupEntry>, k: int)
    ensures LastEntry(ps, k).Some? <==> Lists(ps, k)
    decreases |ps|
  {
    if ps != [] {
      var n := |ps| - 1;
      var pre := ps[..n];
      LastEntryFound(pre, k);
      if ps[n].playerId == k {
        assert Lists(ps, k);
      } else {
        if Lists(ps, k) {
          var j :| 0 <= j < |ps| && ps[j].playerId == k;
          assert pre[j].playerId == k;
        }
        if Lists(pre, k) {
          var j :| 0 <= j < |pre| && pre[j].playerId == k;
          assert ps[j].playerId == k;
        }
      }
    }
  }

  /** What `LastEntry` finds is the last entry with the id. */
  lemma {:induction false} LastEntrySpec(ps: seq<LineupEntry>, k: int)
    ensures LastEntry(ps, k).Some? ==> exists j :: LastAt(ps, k, j) && LastEntry(ps, k).value == ps[j]
    decreases |ps|
  {
    if ps != [] {
      var n := |ps| - 1;
      var pre := ps[..n];
      if ps[n].playerId == k {
        assert LastAt(ps, k, n);
      } else if LastEntry(pre, k).Some? {
        LastEntrySpec(pre, k);
        var j :| LastAt(pre, k, j) && LastEntry(pre, k).value == pre[j];
        assert LastAt(ps, k, j);
      }
    }
  }

  /** `LastSlot` finds an entry exactly when some lineup lists the id. */
  lemma {:induction false} LastSlotFound(lineups: seq<TeamLineup>, k: int)
    ensures LastSlot(lineups, k).Some? <==> InLineups(lineups, k)
    decreases |lineups|
  {
    if lineups != [] {
      var n := |lineups| - 1;
      var pre := lineups[..n];
      var last := lineups[n];
      LastSlotFound(pre, k);
      LastEntryFound(last.lineup, k);
      if Lists(last.lineup, k) {
        var j :| 0 <= j < |last.lineup| && last.lineup[j].playerId == k;
        assert lineups[n].lineup[j].playerId == k;
      } else {
        if InLineups(lineups, k) {
          var i, j :| 0 <= i < |lineups| && 0 <= j < |lineups[i].lineup| && lineups[i].lineup[j].playerId == k;
          assert i != n;
          assert pre[i] == lineups[i];
        }
        if InLineups(pre, k) {
          var i, j :| 0 <= i < |pre| && 0 <= j < |pre[i].lineup| && pre[i].lineup[j].playerId == k;
          assert lineups[i] == pre[i];
        }
      }
    }
  }

  /** What `LastSlot` finds is the last entry with the id in listing order, with its team's name. */
  lemma {:induction false} LastSlotSpec(lineups: seq<TeamLineup>, k: int)
    ensures LastSlot(lineups, k).Some? ==> exists i, j ::
      LastSlotAt(lineups, k, i, j) && LastSlot(lineups, k).value == Slot(lineups[i].teamName, lineups[i].lineup[j])
    decreases |lineups|
  {
    if lineups != [] {
      var n := |lineups| - 1;
      var pre := lineups[..n];
      var last := lineups[n];
      if LastEntry(last.lineup, k).Some? {
        LastEntrySpec(last.lineup, k);
        var j :| LastAt(last.lineup, k, j) && LastEntry(last.lineup, k).value == last.lineup[j];
        assert LastSlotAt(lineups, k, n, j);
      } else if LastSlot(pre, k).Some? {
        LastSlotSpec(pre, k);
        LastEntryFound(last.lineup, k);
        var i, j :| LastSlotAt(pre, k, i, j) && LastSlot(pre, k).value == Slot(pre[i].teamName, pre[i].lineup[j]);
        assert lineups[i] == pre[i];
        assert LastSlotAt(lineups, k, i, j);
      }
    }
  }

  lemma {:induction false} RegisterAllShape(t: MatchTable, teamName: string, ps: seq<LineupEntry>)
    requires WellFormed(t)
    ensures WellFormed(RegisterAll(t, teamName, ps))
    ensures RegisterAll(t, teamName, ps).ids == Extend(t.ids, EntryIds(ps))
    ensures forall k :: k in RegisterAll(t, teamName, ps).rows <==> k in t.rows || LastEntry(ps, k).Some?
    ensures forall k :: k in RegisterAll(t, teamName, ps).rows ==>
      RegisterAll(t, teamName, ps).rows[k]
        == if LastEntry(ps, k).Some? then SeedRecord(teamName, LastEntry(ps, k).value) else t.rows[k]
    decreases |ps|
  {
    if ps == [] {
      assert EntryIds(ps) == [];
    } else {
      var n := |ps| - 1;
      var pre := ps[..n];
      RegisterAllShape(t, teamName, pre);
      assert EntryIds(ps)[..n] == EntryIds(pre);
      var a := RegisterAll(t, teamName, pre);
      assert ps[n].playerId in a.rows <==> ps[n].playerId in a.ids;
    }
  }

  /**
   * The lineup pass lists each player id found in the lineups once, in the
   * order the ids first appear, and creates exactly those records; a
   * repeated id takes the record of its last entry in listing order: that
   * entry's name and team, its first listed position or "Unknown", 90
   * minutes, and every counter at zero.
   */
  lemma {:induction false} SeedShape(lineups: seq<TeamLineup>)
    ensures WellFormed(Seed(lineups))
    ensures Seed(lineups).ids == Dedup(LineupIds(lineups))
    ensures forall k :: k in Seed(lineups).rows <==> LastSlot(lineups, k).Some?
    ensures forall k :: k in Seed(lineups).rows ==> Seed(lineups).rows[k] == SlotRecord(LastSlot(lineups, k).value)
    decreases |lineups|
  {
    if lineups != [] {
      var n := |lineups| - 1;
      var pre := lineups[..n];
      var last := lineups[n];
      SeedShape(pre);
      RegisterAllShape(Seed(pre), last.teamName, last.lineup);
      ExtendAppend([], LineupIds(pre), EntryIds(last.lineup));
    }
  }

  /**
   * Player 7 is listed by both teams, first as "P" of team A and last as "Q"
   * of team B, with player 8 between them: the ids are 7 then 8, and 7's
   * record is that of "Q" of team B.
   */
  lemma RepeatedIdScenario()
    ensures
      var lineups := [TeamLineup("A", [LineupEntry(7, "P", ["Forward"])]),
                      TeamLineup("B", [LineupEntry(8, "R", []), LineupEntry(7, "Q", [])])];
      && Seed(lineups).ids == [7, 8]
      && 7 in Seed(lineups).rows
      && Seed(lineups).rows[7] == MatchRecord("Q", "B", "Unknown", 90, Zero)
  {
    var p, r, q := LineupEntry(7, "P", ["Forward"]), LineupEntry(8, "R", []), LineupEntry(7, "Q", []);
    var lineups := [TeamLineup("A", [p]), TeamLineup("B", [r, q])];
    assert lineups[..1] == [TeamLineup("A", [p])] && lineups[..1][..0] == [];
    assert [p][..0] == [] && [r, q][..1] == [r] && [r][..0] == [];
    var t1 := Register(EmptyTable, "A", p);
    assert Seed(lineups[..1][..0]) == EmptyTable;
    assert RegisterAll(EmptyTable, "A", [p]) == Register(RegisterAll(EmptyTable, "A", []), "A", p) == t1;
    assert Seed(lineups[..1]) == t1;
    var t2 := Register(t1, "B", r);
    assert RegisterAll(t1, "B", [r]) == Register(RegisterAll(t1, "B", []), "B", r) == t2;
    assert RegisterAll(t1, "B", [r, q]) == Register(RegisterAll(t1, "B", [r]), "B", q);
    assert PrimaryPosition(q) == "Unknown";
  }

  /** The lineup pass creates a record for exactly the player ids some lineup lists. */
  lemma SeedKeys(lineups: seq<TeamLineup>)
    ensures WellFormed(Seed(lineups))
    ensures forall k :: k in Seed(lineups).rows <==> InLineups(lineups, k)
  {
    SeedShape(lineups);
    forall k ensures LastSlot(lineups, k).Some? <==> InLineups(lineups, k) {
      LastSlotFound(lineups, k);
    }
  }

  // ---------------------------------------------------------------------
  // The event pass

  /**
   * The event pass keeps the key set and the key order, leaves names, teams,
   * positions and minutes alone, and adds to each record the policy-table
   * increments of exactly the events credited to it.
   */
  lemma {:induction false} ApplyEventsEffect(t: MatchTable, events: seq<Event>)
    ensures ApplyEvents(t, events).ids == t.ids
    ensures ApplyEvents(t, events).rows.Keys == t.rows.Keys
    ensures forall k :: k in t.rows ==>
      ApplyEvents(t, events).rows[k] == t.rows[k].(stats := Add(t.rows[k].stats, PlayerTotal(events, k)))
    decreases |events|
  {
    if events == [] {
      forall k | k in t.rows ensures t.rows[k] == t.rows[k].(stats := Add(t.rows[k].stats, Zero)) {
        AddZero(t.rows[k].stats);
      }
    } else {
      var pre := events[..|events| - 1];
      var e := events[|events| - 1];
      ApplyEventsEffect(t, pre);
      var a := ApplyEvents(t, pre);
      forall k | k in t.rows
        ensures ApplyEvents(t, events).rows[k] == t.rows[k].(stats := Add(t.rows[k].stats, PlayerTotal(events, k)))
      {
        var d := if AttributedTo(e, k) then Delta(e) else Zero;
        AddAssociates(t.rows[k].stats, PlayerTotal(pre, k), d);
        if !AttributedTo(e, k) {
          AddZero(Add(t.rows[k].stats, PlayerTotal(pre, k)));
          AddZero(PlayerTotal(pre, k));
        }
      }
    }
  }

  /** What one event adds: one touch, never xa, at most one type-specific branch, and consistent columns. */
  lemma DeltaShape(e: Event)
    ensures Delta(e).touches == 1 && Delta(e).xa == 0.0
    ensures Consistent(Delta(e))
    ensures Delta(e).passes + Delta(e).shots + Delta(e).dribbles + Delta(e).tackles
      + Delta(e).interceptions + Delta(e).clearances + Delta(e).fouls <= 1
  {
  }

  lemma {:induction false} PlayerTotalCounts(events: seq<Event>, k: int)
    ensures PlayerTotal(events, k).touches == EventsOf(events, k)
    ensures Consistent(PlayerTotal(events, k))
    decreases |events|
  {
    if events != [] {
      var pre := events[..|events| - 1];
      var e := events[|events| - 1];
      PlayerTotalCounts(pre, k);
      DeltaShape(e);
      AddConsistent(PlayerTotal(pre, k), if AttributedTo(e, k) then Delta(e) else Zero);
    }
  }

  /**
   * The aggregator's output: one record per player id found in the lineups,
   * listed in the order the ids first appear there (see `DedupSpec` and
   * `LineupIdsSpec`); each has the name, team and position of the id's last
   * lineup entry (see `LastSlotSpec`), 90 minutes, and counters equal to the
   * sum of the policy-table increments of that player's events.
   */
  lemma MatchStatsShape(lineups: seq<TeamLineup>, events: seq<Event>)
    ensures WellFormed(Aggregated(lineups, events))
    ensures Aggregated(lineups, events).ids == Seed(lineups).ids == Dedup(LineupIds(lineups))
    ensures forall k :: k in Aggregated(lineups, events).rows <==> InLineups(lineups, k)
    ensures forall k :: k in Aggregated(lineups, events).rows ==>
      && LastSlot(lineups, k).Some?
      && Aggregated(lineups, events).rows[k] == SlotRecord(LastSlot(lineups, k).value).(stats := PlayerTotal(events, k))
      && Aggregated(lineups, events).rows[k].stats == PlayerTotal(events, k)
      && Aggregated(lineups, events).rows[k].minutesPlayed == DefaultMinutes
  {
    SeedShape(lineups);
    SeedKeys(lineups);
    var seed := Seed(lineups);
    ApplyEventsEffect(seed, events);
    forall k | k in seed.rows ensures Add(seed.rows[k].stats, PlayerTotal(events, k)) == PlayerTotal(events, k) {
      AddZero(PlayerTotal(events, k));
    }
  }

  /** Every record counts one touch per event credited to its player, whatever the event type. */
  lemma TouchesCountEvents(lineups: seq<TeamLineup>, events: seq<Event>, k: int)
    requires k in Aggregated(lineups, events).rows
    ensures Aggregated(lineups, events).rows[k].stats.touches == EventsOf(events, k)
  {
    MatchStatsShape(lineups, events);
    PlayerTotalCounts(events, k);
  }

  /** Every row of the aggregator's table has 90 minutes and consistent counters. */
  lemma MatchRowsConsistent(lineups: seq<TeamLineup>, events: seq<Event>)
    ensures var t := Aggregated(lineups, events);
      forall i :: 0 <= i < |t.ids| ==> t.ids[i] in t.rows
    ensures forall r :: r in Rows(Aggregated(lineups, events)) ==>
      r.minutesPlayed == DefaultMinutes && Consistent(r.stats)
  {
    MatchStatsShape(lineups, events);
    var t := Aggregated(lineups, events);
    assert WellFormed(t);
    forall i | 0 <= i < |t.ids| ensures t.ids[i] in t.rows {
      var k := t.ids[i];
      assert k in t.ids;
    }
    var rows := Rows(t);
    forall r | r in rows ensures r.minutesPlayed == DefaultMinutes && Consistent(r.stats) {
      var i :| 0 <= i < |rows| && rows[i] == r;
      assert r == t.rows[t.ids[i]];
      PlayerTotalCounts(events, t.ids[i]);
    }
  }

  /** An event without a player, or whose player is in no lineup, changes nothing and adds no record. */
  lemma UnlistedEventIgnored(lineups: seq<TeamLineup>, events: seq<Event>, e: Event)
    requires e.player.None? || !InLineups(lineups, e.player.value.id)
    ensures Aggregated(lineups, events + [e]) == Aggregated(lineups, events)
  {
    MatchStatsShape(lineups, events);
    assert (events + [e])[..|events|] == events;
  }

  /** A goal by a lineup player adds one shot, one shot on target and one goal to that player's record. */
  lemma GoalCounts(lineups: seq<TeamLineup>, events: seq<Event>, e: Event, k: int)
    requires e.typeName == "Shot" && ShotOutcome(e) == Some("Goal") && AttributedTo(e, k)
    requires InLineups(lineups, k)
    ensures k in Aggregated(lineups, events).rows && k in Aggregated(lineups, events + [e]).rows
    ensures var before := Aggregated(lineups, events).rows[k].stats;
            var after := Aggregated(lineups, events + [e]).rows[k].stats;
            after.shots == before.shots + 1 && after.shotsOnTarget == before.shotsOnTarget + 1
            && after.goals == before.goals + 1 && after.touches == before.touches + 1
  {
    MatchStatsShape(lineups, events);
    MatchStatsShape(lineups, events + [e]);
    assert (events + [e])[..|events|] == events;
  }

  /**
   * A lineup of one forward, then a goal worth 0.3 xg, a complete pass and
   * an incomplete pass: one shot on target and goal, two passes of which one
   * completed, and three touches.
   */
  lemma GoalAndTwoPassesScenario()
    ensures
      var p := PlayerRef(7, "P");
      var lineups := [TeamLineup("A", [LineupEntry(7, "P", ["Forward"])])];
      var shot := Event("Shot", Some(p), None, None, Some(ShotInfo(Some("Goal"), Some(0.3))), None, None, None);
      var done := Event("Pass", Some(p), None, Some(PassInfo(Some("Complete"), false, false, None)), None, None, None, None);
      var miss := Event("Pass", Some(p), None, Some(PassInfo(Some("Incomplete"), false, false, None)), None, None, None, None);
      var t := Aggregated(lineups, [shot, done, miss]);
      && t.ids == [7] && 7 in t.rows
      && t.rows[7] == MatchRecord("P", "A", "Forward", 90, Zero.(
           shots := 1, goals := 1, shotsOnTarget := 1, xg := 0.3,
           passes := 2, passesCompleted := 1, touches := 3))
  {
    var p := PlayerRef(7, "P");
    var entry := LineupEntry(7, "P", ["Forward"]);
    var lineups := [TeamLineup("A", [entry])];
    var shot := Event("Shot", Some(p), None, None, Some(ShotInfo(Some("Goal"), Some(0.3))), None, None, None);
    var done := Event("Pass", Some(p), None, Some(PassInfo(Some("Complete"), false, false, None)), None, None, None, None);
    var miss := Event("Pass", Some(p), None, Some(PassInfo(Some("Incomplete"), false, false, None)), None, None, None, None);
    OneForwardSeed(entry, lineups);
    ScenarioTotal(p, shot, done, miss);
    MatchStatsShape(lineups, [shot, done, miss]);
    assert InLineups(lineups, 7) by {
      assert lineups[0].lineup[0].playerId == 7;
    }
  }

  lemma OneForwardSeed(entry: LineupEntry, lineups: seq<TeamLineup>)
    requires entry == LineupEntry(7, "P", ["Forward"]) && lineups == [TeamLineup("A", [entry])]
    ensures Seed(lineups) == MatchTable([7], map[7 := MatchRecord("P", "A", "Forward", 90, Zero)])
  {
    assert lineups[..0] == [];
    assert [entry][..0] == [];
    assert RegisterAll(EmptyTable, "A", []) == EmptyTable;
    assert RegisterAll(EmptyTable, "A", [entry]) == Register(EmptyTable, "A", entry);
    assert PrimaryPosition(entry) == "Forward";
  }

  lemma ScenarioTotal(p: PlayerRef, shot: Event, done: Event, miss: Event)
    requires p == PlayerRef(7, "P")
    requires shot == Event("Shot", Some(p), None, None, Some(ShotInfo(Some("Goal"), Some(0.3))), None, None, None)
    requires done == Event("Pass", Some(p), None, Some(PassInfo(Some("Complete"), false, false, None)), None, None, None, None)
    requires miss == Event("Pass", Some(p), None, Some(PassInfo(Some("Incomplete"), false, false, None)), None, None, None, None)
    ensures PlayerTotal([shot, done, miss], 7) == Zero.(
           shots := 1, goals := 1, shotsOnTarget := 1, xg := 0.3,
           passes := 2, passesCompleted := 1, touches := 3)
  {
    assert [shot, done, miss][..2] == [shot, done];
    assert [shot, done][..1] == [shot];
    assert [shot][..0] == [];
    var s1 := Zero.(shots := 1, shotsOnTarget := 1, goals := 1, touches := 1, xg := 0.3);
    var s2 := s1.(passes := 1, passesCompleted := 1, touches := 2);
    GoalDelta(shot);
    CompletePassDelta(done);
    IncompletePassDelta(miss);
    assert PlayerTotal([shot], 7) == s1;
    assert PlayerTotal([shot, done], 7) == s2;
  }

  lemma GoalDelta(e: Event)
    requires e.typeName == "Shot" && e.shot == Some(ShotInfo(Some("Goal"), Some(0.3)))
    ensures Delta(e) == Zero.(shots := 1, shotsOnTarget := 1, goals := 1, touches := 1, xg := 0.3)
  {
  }

  lemma CompletePassDelta(e: Event)
    requires e.typeName == "Pass" && e.pass == Some(PassInfo(Some("Complete"), false, false, None))
    ensures Delta(e) == Zero.(passes := 1, passesCompleted := 1, touches := 1)
  {
  }

  lemma IncompletePassDelta(e: Event)
    requires e.typeName == "Pass" && e.pass == Some(PassInfo(Some("Incomplete"), false, false, None))
    ensures Delta(e) == Zero.(passes := 1, touches := 1)
  {
  }

  // ---------------------------------------------------------------------
  // As written: payload cells the event frame fills with NaN
  //
  // The events reach the aggregator as a DataFrame, which has a column for
  // every key that any event of the match carries; an event without that key
  // holds NaN in the column rather than lacking the key. `'foul_committed' in
  // event` is then true and `event.get('pass', {})` yields NaN instead of the
  // `{}` fallback, and the `.get` chained onto it raises. `Aggregated` is the
  // evidently intended behaviour, where a missing payload reads as `{}`.

  predicate HasPassColumn(frame: seq<Event>) {
    exists i :: 0 <= i < |frame| && frame[i].pass.Some?
  }

  predicate HasShotColumn(frame: seq<Event>) {
    exists i :: 0 <= i < |frame| && frame[i].shot.Some?
  }

  predicate HasDribbleColumn(frame: seq<Event>) {
    exists i :: 0 <= i < |frame| && frame[i].dribble.Some?
  }

  predicate HasDuelColumn(frame: seq<Event>) {
    exists i :: 0 <= i < |frame| && frame[i].duel.Some?
  }

  predicate HasFoulColumn(frame: seq<Event>) {
    exists i :: 0 <= i < |frame| && frame[i].foulCommitted.Some?
  }

  /** The dispatch branch taken for `e` reads a payload that `e` lacks while `frame` has its column. */
  predicate ReadsNaNPayload(e: Event, frame: seq<Event>) {
    if e.typeName == "Pass" then e.pass.None? && HasPassColumn(frame)
    else if e.typeName == "Shot" then e.shot.None? && HasShotColumn(frame)
    else if e.typeName == "Dribble" then e.dribble.None? && HasDribbleColumn(frame)
    else if e.typeName == "Tackle" || e.typeName == "Duel" then e.duel.None? && HasDuelColumn(frame)
    else if e.typeName == "Foul Committed" then e.foulCommitted.None? && HasFoulColumn(frame)
    else false
  }

  /** An event the pass credits to a record of `t` and on which it raises. */
  predicate Breaks(e: Event, t: MatchTable, frame: seq<Event>) {
    e.player.Some? && e.player.value.id in t.rows && ReadsNaNPayload(e, frame)
  }

  /** The event pass as written over the events of `frame`; `None` once it has raised. */
  function ApplyEventsAsWritten(t: MatchTable, frame: seq<Event>, events: seq<Event>): Option<MatchTable>
    decreases |events|
  {
    if events == [] then Some(t)
    else
      var prev := ApplyEventsAsWritten(t, frame, events[..|events| - 1]);
      var e := events[|events| - 1];
      if prev.None? then None
      else if e.player.Some? && e.player.value.id in prev.value.rows && ReadsNaNPayload(e, frame) then None
      else Some(ApplyEvent(prev.value, e))
  }

  /** `get_player_match_stats` as written: `None` where it raises, which drops the match from the season. */
  function AggregatedAsWritten(lineups: seq<TeamLineup>, events: seq<Event>): Option<MatchTable> {
    ApplyEventsAsWritten(Seed(lineups), events, events)
  }

  /** Some event of `events` breaks. */
  ghost predicate AnyBreaks(events: seq<Event>, t: MatchTable, frame: seq<Event>) {
    exists i :: 0 <= i < |events| && Breaks(events[i], t, frame)
  }

  lemma AnyBreaksSnoc(events: seq<Event>, t: MatchTable, frame: seq<Event>)
    requires events != []
    ensures AnyBreaks(events, t, frame) <==>
      AnyBreaks(events[..|events| - 1], t, frame) || Breaks(events[|events| - 1], t, frame)
  {
    var pre := events[..|events| - 1];
    if AnyBreaks(pre, t, frame) {
      var i :| 0 <= i < |pre| && Breaks(pre[i], t, frame);
      assert events[i] == pre[i];
    }
    if AnyBreaks(events, t, frame) {
      var i :| 0 <= i < |events| && Breaks(events[i], t, frame);
      if i < |pre| {
        assert pre[i] == events[i];
      }
    }
  }

  /** The pass as written raises exactly when some credited event breaks, and otherwise agrees with `ApplyEvents`. */
  lemma {:induction false} ApplyEventsAsWrittenSpec(t: MatchTable, frame: seq<Event>, events: seq<Event>)
    ensures ApplyEventsAsWritten(t, frame, events).None? <==> AnyBreaks(events, t, frame)
    ensures ApplyEventsAsWritten(t, frame, events).Some? ==>
      ApplyEventsAsWritten(t, frame, events).value == ApplyEvents(t, events)
    decreases |events|
  {
    if events != [] {
      var pre := events[..|events| - 1];
      ApplyEventsAsWrittenSpec(t, frame, pre);
      ApplyEventsEffect(t, pre);
      AnyBreaksSnoc(events, t, frame);
    }
  }

  /** The aggregator as written fails exactly on a match with a breaking event, and otherwise returns `Aggregated`. */
  lemma AggregatedAsWrittenSpec(lineups: seq<TeamLineup>, events: seq<Event>)
    ensures AggregatedAsWritten(lineups, events).None? <==>
      exists i :: 0 <= i < |events| && Breaks(events[i], Seed(lineups), events)
    ensures AggregatedAsWritten(lineups, events).Some? ==>
      AggregatedAsWritten(lineups, events).value == Aggregated(lineups, events)
  {
    ApplyEventsAsWrittenSpec(Seed(lineups), events, events);
  }

  /**
   * A foul without a `foul_committed` payload, in a match where another foul
   * drew a yellow card: as written the aggregator raises and the season loses
   * the match; the intended record holds two fouls and one yellow card.
   */
  lemma UncardedFoulDropsMatch()
    ensures
      var p := PlayerRef(7, "P");
      var lineups := [TeamLineup("A", [LineupEntry(7, "P", ["Forward"])])];
      var plain := Event("Foul Committed", Some(p), None, None, None, None, None, None);
      var booked := Event("Foul Committed", Some(p), None, None, None, None, None, Some(FoulInfo(Some("Yellow Card"))));
      && AggregatedAsWritten(lineups, [plain, booked]) == None
      && 7 in Aggregated(lineups, [plain, booked]).rows
      && var s := Aggregated(lineups, [plain, booked]).rows[7].stats;
      s.fouls == 2 && s.cardsYellow == 1 && s.cardsRed == 0 && s.touches == 2
  {
    var p := PlayerRef(7, "P");
    var entry := LineupEntry(7, "P", ["Forward"]);
    var lineups := [TeamLineup("A", [entry])];
    var plain := Event("Foul Committed", Some(p), None, None, None, None, None, None);
    var booked := Event("Foul Committed", Some(p), None, None, None, None, None, Some(FoulInfo(Some("Yellow Card"))));
    OneForwardSeed(entry, lineups);
    UncardedFoulBreaks(lineups, plain, booked);
    FoulsTotal(plain, booked);
    MatchStatsShape(lineups, [plain, booked]);
    assert InLineups(lineups, 7) by {
      assert lineups[0].lineup[0].playerId == 7;
    }
  }

  lemma UncardedFoulBreaks(lineups: seq<TeamLineup>, plain: Event, booked: Event)
    requires 7 in Seed(lineups).rows
    requires plain == Event("Foul Committed", Some(PlayerRef(7, "P")), None, None, None, None, None, None)
    requires booked.foulCommitted.Some?
    ensures AggregatedAsWritten(lineups, [plain, booked]) == None
  {
    var events := [plain, booked];
    assert HasFoulColumn(events) by {
      assert events[1].foulCommitted.Some?;
    }
    assert Breaks(events[0], Seed(lineups), events);
    AggregatedAsWrittenSpec(lineups, events);
  }

  lemma FoulsTotal(plain: Event, booked: Event)
    requires plain == Event("Foul Committed", Some(PlayerRef(7, "P")), None, None, None, None, None, None)
    requires booked == Event("Foul Committed", Some(PlayerRef(7, "P")), None, None, None, None, None, Some(FoulInfo(Some("Yellow Card"))))
    ensures var s := PlayerTotal([plain, booked], 7);
      s.fouls == 2 && s.cardsYellow == 1 && s.cardsRed == 0 && s.touches == 2
  {
    LastStep([plain, booked], 7);
    PrefixOfPair(plain, booked);
    LastStep([plain], 7);
    EmptyPrefix(plain, 7);
    PlainFoul(plain);
    BookedFoul(booked);
    FoulFields(PlayerTotal([plain], 7), PlayerTotal([plain, booked], 7), Delta(plain), Delta(booked));
  }

  /** The last event's step of `PlayerTotal`, for an event credited to `k`. */
  lemma LastStep(events: seq<Event>, k: int)
    requires events != [] && AttributedTo(events[|events| - 1], k)
    ensures PlayerTotal(events, k) == Add(PlayerTotal(events[..|events| - 1], k), Delta(events[|events| - 1]))
  {
  }

  lemma PrefixOfPair(x: Event, y: Event)
    ensures [x, y][..|[x, y]| - 1] == [x] && [x, y][|[x, y]| - 1] == y
  {
    assert [x, y][..1] == [x];
  }

  lemma EmptyPrefix(x: Event, k: int)
    ensures [x][..|[x]| - 1] == [] && [x][|[x]| - 1] == x && PlayerTotal([], k) == Zero
  {
    assert [x][..0] == [];
  }

  lemma FoulFields(t1: Counters, t2: Counters, d1: Counters, d2: Counters)
    requires t1 == Add(Zero, d1) && t2 == Add(t1, d2)
    requires d1.fouls == 1 && d1.cardsYellow == 0 && d1.cardsRed == 0 && d1.touches == 1
    requires d2.fouls == 1 && d2.cardsYellow == 1 && d2.cardsRed == 0 && d2.touches == 1
    ensures t2.fouls == 2 && t2.cardsYellow == 1 && t2.cardsRed == 0 && t2.touches == 2
  {
  }

  lemma PlainFoul(plain: Event)
    requires plain == Event("Foul Committed", Some(PlayerRef(7, "P")), None, None, None, None, None, None)
    ensures AttributedTo(plain, 7)
    ensures Delta(plain).fouls == 1 && Delta(plain).cardsYellow == 0 && Delta(plain).cardsRed == 0 && Delta(plain).touches == 1
  {
  }

  lemma BookedFoul(booked: Event)
    requires booked == Event("Foul Committed", Some(PlayerRef(7, "P")), None, None, None, None, None, Some(FoulInfo(Some("Yellow Card"))))
    ensures AttributedTo(booked, 7)
    ensures Delta(booked).fouls == 1 && Delta(booked).cardsYellow == 1 && Delta(booked).cardsRed == 0 && Delta(booked).touches == 1
  {
  }
}
