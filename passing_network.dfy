/**
 * The passing network of one team in one match (`get_passing_network`):
 * the team's lineup keyed by player name, and for every ordered pair of its
 * players the number of passes from one to the other, keyed "passer->recipient".
 *
 * `PassingNetwork` is the source's loops; `NetworkOf` is the function that
 * specifies it.
 */
module PassingNetwork {
  import opened Wrappers
  import opened Text
  import opened Events
  import MatchStats

  /** `player_positions[name]`: the player's id and first listed position. */
  datatype Slot = Slot(id: int, position: string)

  /**
   * The outcome: the returned `{}`, the KeyError raised by `events['type']`
   * when the match has no event (the frame then has no columns), or the
   * players and pass counts.
   */
  datatype Network = NoNetwork | NoTypeColumn | Network(players: map<string, Slot>, passes: map<string, nat>)

  /** The lineup of the first team named `teamName`, if there is one. */
  function FindLineup(lineups: seq<TeamLineup>, teamName: string): (r: Option<seq<LineupEntry>>)
    ensures r.None? <==> forall i :: 0 <= i < |lineups| ==> lineups[i].teamName != teamName
    ensures r.Some? ==> exists i :: (0 <= i < |lineups| && lineups[i].teamName == teamName
      && r.value == lineups[i].lineup && forall j :: 0 <= j < i ==> lineups[j].teamName != teamName)
    decreases |lineups|
  {
    if lineups == [] then None
    else if lineups[0].teamName == teamName then Some(lineups[0].lineup)
    else
      var r := FindLineup(lineups[1..], teamName);
      assert forall i :: 0 < i < |lineups| ==> lineups[i] == lineups[1..][i - 1];
      if r.Some? then
        var i :| 0 <= i < |lineups[1..]| && lineups[1..][i].teamName == teamName
          && r.value == lineups[1..][i].lineup && forall j :: 0 <= j < i ==> lineups[1..][j].teamName != teamName;
        assert lineups[i + 1].teamName == teamName && r.value == lineups[i + 1].lineup;
        r
      else r
  }

  function SlotOf(p: LineupEntry): Slot {
    Slot(p.playerId, MatchStats.PrimaryPosition(p))
  }

  /** `player_positions` after the loop over the lineup: a repeated name takes the later entry. */
  function Positions(lineup: seq<LineupEntry>): map<string, Slot>
    decreases |lineup|
  {
    if lineup == [] then map[]
    else
      var p := lineup[|lineup| - 1];
      Positions(lineup[..|lineup| - 1])[p.playerName := SlotOf(p)]
  }

  /** A Pass event with a passer and a recipient who are both among `players`. */
  predicate Qualifies(e: Event, players: map<string, Slot>) {
    && e.typeName == "Pass"
    && e.player.Some?
    && e.pass.Some? && e.pass.value.recipient.Some?
    && e.player.value.name in players
    && e.pass.value.recipient.value.name in players
  }

  function PassKey(e: Event): string
    requires e.player.Some? && e.pass.Some? && e.pass.value.recipient.Some?
  {
    PairKey(e.player.value.name, e.pass.value.recipient.value.name)
  }

  /** `pass_network` after the loop over the events. */
  function PassCounts(events: seq<Event>, players: map<string, Slot>): map<string, nat>
    decreases |events|
  {
    if events == [] then map[]
    else
      var m := PassCounts(events[..|events| - 1], players);
      var e := events[|events| - 1];
      if Qualifies(e, players) then
        var key := PassKey(e);
        m[key := (if key in m then m[key] else 0) + 1]
      else m
  }

  /** The network `get_passing_network` returns for this match and team. */
  function NetworkOf(lineups: seq<TeamLineup>, events: seq<Event>, teamName: string): Network {
    var found := FindLineup(lineups, teamName);
    if found.None? || found.value == [] then NoNetwork
    else if events == [] then NoTypeColumn
    else
      var players := Positions(found.value);
      Network(players, PassCounts(events, players))
  }

  /** `get_passing_network` on already-fetched events and lineups. */
  method PassingNetwork(lineups: seq<TeamLineup>, events: seq<Event>, teamName: string) returns (net: Network)
    ensures net == NetworkOf(lineups, events, teamName)
  {
    var teamLineup: Option<seq<LineupEntry>> := None;
    var i := 0;
    while i < |lineups|
      invariant 0 <= i <= |lineups|
      invariant forall j :: 0 <= j < i ==> lineups[j].teamName != teamName
    {
      if lineups[i].teamName == teamName {
        teamLineup := Some(lineups[i].lineup);
        break;
      }
      i := i + 1;
    }
    FindLineupAt(lineups, teamName, i);
    if teamLineup.None? || teamLineup.value == [] {
      return NoNetwork;
    }
    var lineup := teamLineup.value;
    var players: map<string, Slot> := map[];
    for j := 0 to |lineup|
      invariant players == Positions(lineup[..j])
    {
      var player := lineup[j];
      var position := if player.positions != [] then player.positions[0] else "Unknown";
      players := players[player.playerName := Slot(player.playerId, position)];
      assert lineup[..j + 1][..j] == lineup[..j];
    }
    assert lineup[..|lineup|] == lineup;
    if events == [] {
      return NoTypeColumn;
    }
    var passes: map<string, nat> := map[];
    for n := 0 to |events|
      invariant passes == PassCounts(events[..n], players)
    {
      var e := events[n];
      if e.typeName == "Pass" && e.player.Some? {
        var passer := e.player.value.name;
        if e.pass.Some? && e.pass.value.recipient.Some? {
          var recipient := e.pass.value.recipient.value.name;
          if passer in players && recipient in players {
            var key := passer + "->" + recipient;
            passes := passes[key := (if key in passes then passes[key] else 0) + 1];
          }
        }
      }
      assert events[..n + 1][..n] == events[..n];
    }
    assert events[..|events|] == events;
    net := Network(players, passes);
  }

  /** Where the search stops: at the first team of that name, or past the end when there is none. */
  lemma FindLineupAt(lineups: seq<TeamLineup>, teamName: string, i: nat)
    requires i <= |lineups|
    requires forall j :: 0 <= j < i ==> lineups[j].teamName != teamName
    requires i < |lineups| ==> lineups[i].teamName == teamName
    ensures FindLineup(lineups, teamName) == if i < |lineups| then Some(lineups[i].lineup) else None
  {
    var r := FindLineup(lineups, teamName);
    if r.Some? {
      var k :| 0 <= k < |lineups| && lineups[k].teamName == teamName
        && r.value == lineups[k].lineup && forall j :: 0 <= j < k ==> lineups[j].teamName != teamName;
      assert k == i;
    }
  }

  // ---------------------------------------------------------------------
  // What the network promises

  /** No team has that name, or the first team of that name has an empty lineup. */
  ghost predicate NoTeamLineup(lineups: seq<TeamLineup>, teamName: string) {
    forall i :: 0 <= i < |lineups| && lineups[i].teamName == teamName ==>
      lineups[i].lineup == [] || exists j :: 0 <= j < i && lineups[j].teamName == teamName
  }

  /**
   * `{}` exactly when no team has that name or the first team of that name
   * has an empty lineup; otherwise a KeyError exactly when the match has no
   * event.
   */
  lemma NoNetworkWhen(lineups: seq<TeamLineup>, events: seq<Event>, teamName: string)
    ensures NetworkOf(lineups, events, teamName) == NoNetwork <==> NoTeamLineup(lineups, teamName)
    ensures NetworkOf(lineups, events, teamName) == NoTypeColumn <==> !NoTeamLineup(lineups, teamName) && events == []
  {
    var found := FindLineup(lineups, teamName);
    if found.Some? {
      var k :| 0 <= k < |lineups| && lineups[k].teamName == teamName
        && found.value == lineups[k].lineup && forall j :: 0 <= j < k ==> lineups[j].teamName != teamName;
      forall i | 0 <= i < |lineups| && lineups[i].teamName == teamName && i != k
        ensures exists j :: 0 <= j < i && lineups[j].teamName == teamName
      {
        assert k < i;
      }
    }
  }

  /** Every lineup name is a key of the players map, and no other. */
  lemma {:induction false} PositionsKeys(lineup: seq<LineupEntry>)
    ensures forall k :: k in Positions(lineup) <==> exists j :: 0 <= j < |lineup| && lineup[j].playerName == k
    decreases |lineup|
  {
    if lineup != [] {
      var n := |lineup| - 1;
      var pre := lineup[..n];
      PositionsKeys(pre);
      forall k ensures k in Positions(lineup) <==> exists j :: 0 <= j < |lineup| && lineup[j].playerName == k {
        if exists j :: 0 <= j < |pre| && pre[j].playerName == k {
          var j :| 0 <= j < |pre| && pre[j].playerName == k;
          assert lineup[j] == pre[j];
        }
        if exists j :: 0 <= j < |lineup| && lineup[j].playerName == k {
          var j :| 0 <= j < |lineup| && lineup[j].playerName == k;
          if j < n {
            assert pre[j] == lineup[j];
          }
        }
      }
    }
  }

  /** The entry at index `j` is the last one carrying its name. */
  ghost predicate LastWithName(lineup: seq<LineupEntry>, j: int) {
    0 <= j < |lineup| && forall j' :: j < j' < |lineup| ==> lineup[j'].playerName != lineup[j].playerName
  }

  /** Each name maps to the id and first position of the last lineup entry with that name. */
  lemma {:induction false} PositionsValues(lineup: seq<LineupEntry>)
    ensures forall k :: k in Positions(lineup) ==>
      exists j :: LastWithName(lineup, j) && lineup[j].playerName == k && Positions(lineup)[k] == SlotOf(lineup[j])
    decreases |lineup|
  {
    if lineup != [] {
      var n := |lineup| - 1;
      var pre := lineup[..n];
      var p := lineup[n];
      PositionsValues(pre);
      var before := Positions(pre);
      assert Positions(lineup) == before[p.playerName := SlotOf(p)];
      assert LastWithName(lineup, n);
      forall k | k in Positions(lineup) && k != p.playerName
        ensures exists j :: LastWithName(lineup, j) && lineup[j].playerName == k && Positions(lineup)[k] == SlotOf(lineup[j])
      {
        assert k in before && Positions(lineup)[k] == before[k];
        var j :| LastWithName(pre, j) && pre[j].playerName == k && Positions(pre)[k] == SlotOf(pre[j]);
        assert lineup[j] == pre[j];
        forall j' | j < j' < |lineup| ensures lineup[j'].playerName != k {
          if j' < n {
            assert lineup[j'] == pre[j'];
          }
        }
        assert LastWithName(lineup, j);
      }
    }
  }

  /** The number of qualifying passes whose key is `key`. */
  function KeyCount(events: seq<Event>, players: map<string, Slot>, key: string): nat
    decreases |events|
  {
    if events == [] then 0
    else
      var e := events[|events| - 1];
      KeyCount(events[..|events| - 1], players, key) + if Qualifies(e, players) && PassKey(e) == key then 1 else 0
  }

  /** The number of qualifying passes from `passer` to `recipient`. */
  function PairCount(events: seq<Event>, players: map<string, Slot>, passer: string, recipient: string): nat
    decreases |events|
  {
    if events == [] then 0
    else
      var e := events[|events| - 1];
      PairCount(events[..|events| - 1], players, passer, recipient)
        + if Qualifies(e, players) && e.player.value.name == passer && e.pass.value.recipient.value.name == recipient
          then 1 else 0
  }

  /** Each key is present exactly when some qualifying pass has it, and counts those passes. */
  lemma {:induction false} PassCountsSpec(events: seq<Event>, players: map<string, Slot>)
    ensures forall key :: key in PassCounts(events, players) <==> KeyCount(events, players, key) > 0
    ensures forall key :: key in PassCounts(events, players) ==> PassCounts(events, players)[key] == KeyCount(events, players, key)
    decreases |events|
  {
    if events != [] {
      PassCountsSpec(events[..|events| - 1], players);
    }
  }

  /** With no player name containing '>', the count under "a->b" is the number of passes from a to b. */
  lemma {:induction false} PairCountExact(events: seq<Event>, players: map<string, Slot>, a: string, b: string)
    requires forall k :: k in players ==> '>' !in k
    requires '>' !in a
    ensures KeyCount(events, players, PairKey(a, b)) == PairCount(events, players, a, b)
    decreases |events|
  {
    if events != [] {
      var e := events[|events| - 1];
      PairCountExact(events[..|events| - 1], players, a, b);
      if Qualifies(e, players) && PassKey(e) == PairKey(a, b) {
        PairKeyInjective(e.player.value.name, e.pass.value.recipient.value.name, a, b);
      }
    }
  }

  /**
   * The network of a team found with a non-empty lineup: every pass count is
   * positive and counts exactly the Pass events between two of its players
   * under that key; when no name contains '>', the count under "a->b" is
   * the number of passes from a to b.
   */
  lemma NetworkCounts(lineups: seq<TeamLineup>, events: seq<Event>, teamName: string)
    requires NetworkOf(lineups, events, teamName).Network?
    ensures var net := NetworkOf(lineups, events, teamName);
      forall key :: key in net.passes ==> net.passes[key] == KeyCount(events, net.players, key) > 0
    ensures var net := NetworkOf(lineups, events, teamName);
      forall a, b :: (forall k :: k in net.players ==> '>' !in k) && a in net.players ==>
        (if PairKey(a, b) in net.passes then net.passes[PairKey(a, b)] else 0) == PairCount(events, net.players, a, b)
  {
    var net := NetworkOf(lineups, events, teamName);
    PassCountsSpec(events, net.players);
    forall a, b | (forall k :: k in net.players ==> '>' !in k) && a in net.players
      ensures (if PairKey(a, b) in net.passes then net.passes[PairKey(a, b)] else 0) == PairCount(events, net.players, a, b)
    {
      PairCountExact(events, net.players, a, b);
    }
  }
}
