/**
 * The season roll-up (`get_player_season_stats`): the per-match tables of
 * every match whose aggregation succeeded are concatenated, optionally
 * filtered by a case-insensitive substring of the player's name, grouped by
 * (player name, team name, position) with every column summed and the
 * records counted as games, and given per-90 and percentage rates.
 *
 * `PlayerSeasonStats` is the source's loop over the season's matches;
 * `SeasonTable` is the function that specifies it. The grouping is
 * `Rollup`, which keeps its groups strictly sorted by key as pandas does.
 */
module SeasonStats {
  import opened Wrappers
  import opened Text
  import opened Events
  import opened Records
  import opened MatchStats
  import opened Sorting

  // ---------------------------------------------------------------------
  // Group keys and their order

  datatype GroupKey = GroupKey(playerName: string, teamName: string, position: string)

  function KeyOf(r: MatchRecord): GroupKey {
    GroupKey(r.playerName, r.teamName, r.position)
  }

  /** The order pandas sorts group keys in: lexicographic on the three columns. */
  predicate KeyLess(a: GroupKey, b: GroupKey) {
    || StrLess(a.playerName, b.playerName)
    || (a.playerName == b.playerName && StrLess(a.teamName, b.teamName))
    || (a.playerName == b.playerName && a.teamName == b.teamName && StrLess(a.position, b.position))
  }

  lemma KeyLessIrreflexive(a: GroupKey)
    ensures !KeyLess(a, a)
  {
    StrLessIrreflexive(a.playerName);
    StrLessIrreflexive(a.teamName);
    StrLessIrreflexive(a.position);
  }

  lemma KeyLessTransitive(a: GroupKey, b: GroupKey, c: GroupKey)
    requires KeyLess(a, b) && KeyLess(b, c)
    ensures KeyLess(a, c)
  {
    if StrLess(a.playerName, b.playerName) && StrLess(b.playerName, c.playerName) {
      StrLessTransitive(a.playerName, b.playerName, c.playerName);
    }
    if a.playerName == b.playerName == c.playerName {
      if StrLess(a.teamName, b.teamName) && StrLess(b.teamName, c.teamName) {
        StrLessTransitive(a.teamName, b.teamName, c.teamName);
      }
      if a.teamName == b.teamName == c.teamName && StrLess(a.position, b.position) && StrLess(b.position, c.position) {
        StrLessTransitive(a.position, b.position, c.position);
      }
    }
  }

  lemma KeyLessTotal(a: GroupKey, b: GroupKey)
    ensures a == b || KeyLess(a, b) || KeyLess(b, a)
  {
    StrLessTotal(a.playerName, b.playerName);
    StrLessTotal(a.teamName, b.teamName);
    StrLessTotal(a.position, b.position);
  }

  // ---------------------------------------------------------------------
  // Group totals

  /** The aggregated columns of one group: the record count (games played), the minutes and the counters, summed. */
  datatype Totals = Totals(games: nat, minutes: int, stats: Counters)

  const NoTotals := Totals(0, 0, Zero)

  function Plus(a: Totals, b: Totals): Totals {
    Totals(a.games + b.games, a.minutes + b.minutes, Add(a.stats, b.stats))
  }

  /** What one record contributes to its group. */
  function Single(r: MatchRecord): Totals {
    Totals(1, r.minutesPlayed, r.stats)
  }

  lemma PlusZero(a: Totals)
    ensures Plus(NoTotals, a) == a && Plus(a, NoTotals) == a
  {
    AddZero(a.stats);
  }

  lemma PlusCommutes(a: Totals, b: Totals)
    ensures Plus(a, b) == Plus(b, a)
  {
    AddCommutes(a.stats, b.stats);
  }

  lemma PlusAssociates(a: Totals, b: Totals, c: Totals)
    ensures Plus(Plus(a, b), c) == Plus(a, Plus(b, c))
  {
    AddAssociates(a.stats, b.stats, c.stats);
  }

  /**
   * The reference definition of a group's row: the totals of the records
   * whose key is `k`, in record order.
   */
  function TotalOf(recs: seq<MatchRecord>, k: GroupKey): Totals
    decreases |recs|
  {
    if recs == [] then NoTotals
    else
      var last := recs[|recs| - 1];
      Plus(TotalOf(recs[..|recs| - 1], k), if KeyOf(last) == k then Single(last) else NoTotals)
  }

  /** A group's totals split over any cut of the records. */
  lemma {:induction false} TotalOfAppend(u: seq<MatchRecord>, v: seq<MatchRecord>, k: GroupKey)
    ensures TotalOf(u + v, k) == Plus(TotalOf(u, k), TotalOf(v, k))
    decreases |v|
  {
    if v == [] {
      assert u + v == u;
      PlusZero(TotalOf(u, k));
    } else {
      var w := v[..|v| - 1];
      var x := v[|v| - 1];
      assert (u + v)[..|u + v| - 1] == u + w;
      TotalOfAppend(u, w, k);
      PlusAssociates(TotalOf(u, k), TotalOf(w, k), if KeyOf(x) == k then Single(x) else NoTotals);
    }
  }

  /** Group totals do not depend on the order of the records. */
  lemma {:induction false} TotalOfPermutation(a: seq<MatchRecord>, b: seq<MatchRecord>, k: GroupKey)
    requires multiset(a) == multiset(b)
    ensures TotalOf(a, k) == TotalOf(b, k)
    decreases |a|
  {
    if a == [] {
      assert |b| == |multiset(b)| == 0;
    } else {
      var a', x := a[..|a| - 1], a[|a| - 1];
      var i := PermutationSplit(a, b);
      var b1, b2 := b[..i], b[i + 1..];
      TotalOfPermutation(a', b1 + b2, k);
      var tx := TotalOf([x], k);
      assert [x][..0] == [];
      PlusZero(if KeyOf(x) == k then Single(x) else NoTotals);
      TotalOfAppend(b1 + [x], b2, k);
      TotalOfAppend(b1, [x], k);
      TotalOfAppend(b1, b2, k);
      TotalOfAppend(a', [x], k);
      PlusAssociates(TotalOf(b1, k), tx, TotalOf(b2, k));
      PlusCommutes(tx, TotalOf(b2, k));
      PlusAssociates(TotalOf(b1, k), TotalOf(b2, k), tx);
    }
  }

  /** Records straight out of the match aggregator: 90 minutes each, consistent counters. */
  ghost predicate Tallied(recs: seq<MatchRecord>) {
    forall r :: r in recs ==> r.minutesPlayed == DefaultMinutes && Consistent(r.stats)
  }

  /** A group of aggregator records has 90 minutes per game. */
  lemma {:induction false} TotalOfMinutes(recs: seq<MatchRecord>, k: GroupKey)
    requires Tallied(recs)
    ensures TotalOf(recs, k).minutes == DefaultMinutes * TotalOf(recs, k).games
    decreases |recs|
  {
    if recs != [] {
      var pre := recs[..|recs| - 1];
      assert Tallied(pre) by {
        forall r | r in pre ensures r in recs {
        }
      }
      TotalOfMinutes(pre, k);
    }
  }

  /** A group of aggregator records has consistent counters. */
  lemma {:induction false} TotalOfConsistent(recs: seq<MatchRecord>, k: GroupKey)
    requires Tallied(recs)
    ensures Consistent(TotalOf(recs, k).stats)
    decreases |recs|
  {
    if recs != [] {
      var pre := recs[..|recs| - 1];
      var last := recs[|recs| - 1];
      assert Tallied(pre) by {
        forall r | r in pre ensures r in recs {
        }
      }
      TotalOfConsistent(pre, k);
      var d := if KeyOf(last) == k then Single(last) else NoTotals;
      assert Consistent(d.stats) by {
        assert last in recs;
      }
      AddConsistent(TotalOf(pre, k).stats, d.stats);
    }
  }

  /** A group is non-empty exactly when some record carries its key. */
  lemma {:induction false} TotalOfGames(recs: seq<MatchRecord>, k: GroupKey)
    ensures TotalOf(recs, k).games > 0 <==> exists i :: 0 <= i < |recs| && KeyOf(recs[i]) == k
    decreases |recs|
  {
    if recs != [] {
      var pre := recs[..|recs| - 1];
      TotalOfGames(pre, k);
      GamesStep(recs, k);
      if exists i :: 0 <= i < |pre| && KeyOf(pre[i]) == k {
        var i :| 0 <= i < |pre| && KeyOf(pre[i]) == k;
        assert recs[i] == pre[i];
      }
      if exists i :: 0 <= i < |recs| && KeyOf(recs[i]) == k {
        var i :| 0 <= i < |recs| && KeyOf(recs[i]) == k;
        if i < |pre| {
          assert pre[i] == recs[i];
        }
      }
    }
  }

  /** The last record adds one game to its own key's group and none to any other. */
  lemma GamesStep(recs: seq<MatchRecord>, k: GroupKey)
    requires recs != []
    ensures TotalOf(recs, k).games
      == TotalOf(recs[..|recs| - 1], k).games + if KeyOf(recs[|recs| - 1]) == k then 1 else 0
  {
  }

  // ---------------------------------------------------------------------
  // Grouping

  datatype Group = Group(key: GroupKey, totals: Totals)

  /** Groups strictly increasing by key, none empty: the shape of a pandas groupby result. */
  predicate Grouped(rows: seq<Group>) {
    && (forall i, j :: 0 <= i < j < |rows| ==> KeyLess(rows[i].key, rows[j].key))
    && (forall i :: 0 <= i < |rows| ==> rows[i].totals.games > 0)
  }

  /** The totals of the group keyed `k`, or no totals when there is none. */
  function Lookup(rows: seq<Group>, k: GroupKey): Totals
    decreases |rows|
  {
    if rows == [] then NoTotals
    else if rows[0].key == k then rows[0].totals
    else Lookup(rows[1..], k)
  }

  /** Adds one record to its group, opening the group in key order when it is new. */
  function Absorb(rows: seq<Group>, r: MatchRecord): (res: seq<Group>)
    ensures res != []
    decreases |rows|
  {
    var k := KeyOf(r);
    if rows == [] then [Group(k, Single(r))]
    else if rows[0].key == k then [Group(k, Plus(rows[0].totals, Single(r)))] + rows[1..]
    else if KeyLess(k, rows[0].key) then [Group(k, Single(r))] + rows
    else [rows[0]] + Absorb(rows[1..], r)
  }

  /** `groupby([...]).agg(sum)` over the records, in record order. */
  function Rollup(recs: seq<MatchRecord>): (groups: seq<Group>)
    ensures groups == [] <==> recs == []
    decreases |recs|
  {
    if recs == [] then []
    else Absorb(Rollup(recs[..|recs| - 1]), recs[|recs| - 1])
  }

  /** A key below the first group of a grouped sequence has no group. */
  lemma {:induction false} LookupBelow(rows: seq<Group>, k: GroupKey)
    requires Grouped(rows)
    ensures rows != [] && KeyLess(k, rows[0].key) ==> Lookup(rows, k) == NoTotals
    decreases |rows|
  {
    if rows != [] && KeyLess(k, rows[0].key) {
      KeyLessIrreflexive(k);
      if |rows| > 1 {
        KeyLessTransitive(k, rows[0].key, rows[1].key);
        LookupBelow(rows[1..], k);
      }
    }
  }

  /** In a grouped sequence, each group is what `Lookup` finds for its key. */
  lemma {:induction false} LookupMember(rows: seq<Group>, i: nat)
    requires Grouped(rows) && i < |rows|
    ensures Lookup(rows, rows[i].key) == rows[i].totals
    decreases i
  {
    if i > 0 {
      KeyLessIrreflexive(rows[0].key);
      assert rows[1..][i - 1] == rows[i];
      LookupMember(rows[1..], i - 1);
    }
  }

  /** A key has a group exactly when its totals are non-empty. */
  lemma {:induction false} LookupPresent(rows: seq<Group>, k: GroupKey)
    requires Grouped(rows)
    ensures Lookup(rows, k).games > 0 <==> exists i :: 0 <= i < |rows| && rows[i].key == k
    decreases |rows|
  {
    if rows != [] {
      LookupPresent(rows[1..], k);
      if exists i :: 0 <= i < |rows[1..]| && rows[1..][i].key == k {
        var i :| 0 <= i < |rows[1..]| && rows[1..][i].key == k;
        assert rows[i + 1].key == k;
      }
      if exists i :: 0 <= i < |rows| && rows[i].key == k {
        var i :| 0 <= i < |rows| && rows[i].key == k;
        if i > 0 {
          assert rows[1..][i - 1].key == k;
        }
      }
    }
  }

  /** Every key of `res` is `k0` or the key of a group of `rows`. */
  predicate KeysFrom(res: seq<Group>, rows: seq<Group>, k0: GroupKey) {
    forall i :: 0 <= i < |res| ==> res[i].key == k0 || exists j :: 0 <= j < |rows| && rows[j].key == res[i].key
  }

  /** `res` holds the totals of `rows` with the record `r` added to its own key's totals. */
  ghost predicate AddsRecord(res: seq<Group>, rows: seq<Group>, r: MatchRecord) {
    forall k :: Lookup(res, k) == if k == KeyOf(r) then Plus(Lookup(rows, k), Single(r)) else Lookup(rows, k)
  }

  /**
   * Adding a record keeps the groups sorted and non-empty, adds the record
   * to its own group's totals and leaves every other group alone.
   */
  lemma {:induction false} AbsorbSpec(rows: seq<Group>, r: MatchRecord)
    requires Grouped(rows)
    ensures Grouped(Absorb(rows, r))
    ensures KeysFrom(Absorb(rows, r), rows, KeyOf(r))
    ensures AddsRecord(Absorb(rows, r), rows, r)
    decreases |rows|, 1
  {
    if rows == [] {
      PlusZero(Single(r));
    } else if rows[0].key == KeyOf(r) {
      AbsorbHere(rows, r);
    } else if KeyLess(KeyOf(r), rows[0].key) {
      AbsorbBefore(rows, r);
    } else {
      AbsorbAfter(rows, r);
    }
  }

  /** The record's group is the first one: it grows, and the rest stay. */
  lemma AbsorbHere(rows: seq<Group>, r: MatchRecord)
    requires Grouped(rows) && rows != [] && rows[0].key == KeyOf(r)
    ensures Grouped(Absorb(rows, r))
    ensures KeysFrom(Absorb(rows, r), rows, KeyOf(r))
    ensures AddsRecord(Absorb(rows, r), rows, r)
  {
    var k0 := KeyOf(r);
    var res := Absorb(rows, r);
    assert res[1..] == rows[1..];
    forall i | 0 <= i < |res|
      ensures res[i].key == k0 || exists j :: 0 <= j < |rows| && rows[j].key == res[i].key
    {
      assert res[i].key == rows[i].key;
    }
  }

  /** The record's key precedes every group: a new group opens in front. */
  lemma AbsorbBefore(rows: seq<Group>, r: MatchRecord)
    requires Grouped(rows) && rows != [] && KeyLess(KeyOf(r), rows[0].key)
    ensures Grouped(Absorb(rows, r))
    ensures KeysFrom(Absorb(rows, r), rows, KeyOf(r))
    ensures AddsRecord(Absorb(rows, r), rows, r)
  {
    var k0 := KeyOf(r);
    var res := Absorb(rows, r);
    KeyLessIrreflexive(k0);
    assert res == [Group(k0, Single(r))] + rows;
    assert res[1..] == rows;
    LookupBelow(rows, k0);
    PlusZero(Single(r));
    forall i, j | 0 <= i < j < |res| ensures KeyLess(res[i].key, res[j].key) {
      if i == 0 && j > 1 {
        KeyLessTransitive(k0, rows[0].key, rows[j - 1].key);
      }
    }
    forall i | 0 <= i < |res|
      ensures res[i].key == k0 || exists j :: 0 <= j < |rows| && rows[j].key == res[i].key
    {
      if i > 0 {
        assert res[i].key == rows[i - 1].key;
      }
    }
  }

  /** The record's key follows the first group: the first group stays and the record goes into the rest. */
  lemma {:induction false} AbsorbAfter(rows: seq<Group>, r: MatchRecord)
    requires Grouped(rows) && rows != [] && rows[0].key != KeyOf(r) && !KeyLess(KeyOf(r), rows[0].key)
    ensures Grouped(Absorb(rows, r))
    ensures KeysFrom(Absorb(rows, r), rows, KeyOf(r))
    ensures AddsRecord(Absorb(rows, r), rows, r)
    decreases |rows|, 0
  {
    var k0 := KeyOf(r);
    var res := Absorb(rows, r);
    var tail := rows[1..];
    AbsorbSpec(tail, r);
    var sub := Absorb(tail, r);
    assert res == [rows[0]] + sub;
    KeyLessTotal(k0, rows[0].key);
    forall i, j | 0 <= i < j < |res| ensures KeyLess(res[i].key, res[j].key) {
      if i == 0 {
        assert res[j] == sub[j - 1];
        if sub[j - 1].key != k0 {
          var m :| 0 <= m < |tail| && tail[m].key == sub[j - 1].key;
          assert rows[m + 1] == tail[m];
        }
      } else {
        assert res[i] == sub[i - 1] && res[j] == sub[j - 1];
      }
    }
    forall i | 0 <= i < |res|
      ensures res[i].key == k0 || exists j :: 0 <= j < |rows| && rows[j].key == res[i].key
    {
      if i > 0 && res[i].key != k0 {
        assert res[i] == sub[i - 1];
        var m :| 0 <= m < |tail| && tail[m].key == sub[i - 1].key;
        assert rows[m + 1] == tail[m];
      }
    }
    forall k ensures Lookup(res, k) == if k == k0 then Plus(Lookup(rows, k), Single(r)) else Lookup(rows, k) {
      assert res[1..] == sub;
    }
  }

  /**
   * The grouping: groups strictly sorted by key, none empty, and the group
   * of every key holds exactly the totals of that key's records.
   */
  lemma {:induction false} RollupSpec(recs: seq<MatchRecord>)
    ensures Grouped(Rollup(recs))
    ensures forall k :: Lookup(Rollup(recs), k) == TotalOf(recs, k)
    decreases |recs|
  {
    if recs == [] {
    } else {
      var pre := recs[..|recs| - 1];
      var last := recs[|recs| - 1];
      RollupSpec(pre);
      AbsorbSpec(Rollup(pre), last);
      forall k ensures Lookup(Rollup(recs), k) == TotalOf(recs, k) {
        PlusZero(TotalOf(pre, k));
      }
    }
  }

  /** Two grouped sequences that agree on every key's totals are the same sequence. */
  lemma {:induction false} GroupedUnique(x: seq<Group>, y: seq<Group>)
    requires Grouped(x) && Grouped(y)
    requires forall k :: Lookup(x, k) == Lookup(y, k)
    ensures x == y
    decreases |x|
  {
    if x != [] && y != [] {
      var kx, ky := x[0].key, y[0].key;
      LookupMember(x, 0);
      LookupMember(y, 0);
      LookupBelow(x, ky);
      LookupBelow(y, kx);
      KeyLessTotal(kx, ky);
      assert kx == ky;
      forall k ensures Lookup(x[1..], k) == Lookup(y[1..], k) {
        if k == kx {
          if |x| > 1 {
            assert x[1..][0] == x[1];
            LookupBelow(x[1..], k);
          }
          if |y| > 1 {
            assert y[1..][0] == y[1];
            LookupBelow(y[1..], k);
          }
          assert Lookup(x[1..], k) == NoTotals == Lookup(y[1..], k);
        } else {
          assert Lookup(x, k) == Lookup(x[1..], k);
          assert Lookup(y, k) == Lookup(y[1..], k);
        }
      }
      GroupedUnique(x[1..], y[1..]);
      assert x == [x[0]] + x[1..] && y == [y[0]] + y[1..];
    } else if x != [] {
      LookupMember(x, 0);
    } else if y != [] {
      LookupMember(y, 0);
    }
  }

  /** The grouping does not depend on the order of the records. */
  lemma RollupPermutation(a: seq<MatchRecord>, b: seq<MatchRecord>)
    requires multiset(a) == multiset(b)
    ensures Rollup(a) == Rollup(b)
  {
    RollupSpec(a);
    RollupSpec(b);
    forall k ensures Lookup(Rollup(a), k) == Lookup(Rollup(b), k) {
      TotalOfPermutation(a, b, k);
    }
    GroupedUnique(Rollup(a), Rollup(b));
  }

  /** Every group carries the totals of its key's records. */
  ghost predicate GroupsTotal(groups: seq<Group>, recs: seq<MatchRecord>) {
    forall g :: g in groups ==> g.totals == TotalOf(recs, g.key)
  }

  /** Every group's key is the key of some record. */
  ghost predicate GroupsFrom(groups: seq<Group>, recs: seq<MatchRecord>) {
    forall g :: g in groups ==> exists r :: r in recs && KeyOf(r) == g.key
  }

  /** Every record's key has a group. */
  ghost predicate GroupsCover(groups: seq<Group>, recs: seq<MatchRecord>) {
    forall r :: r in recs ==> exists g :: g in groups && g.key == KeyOf(r)
  }

  /**
   * Every group of the roll-up carries a key found among the records and the
   * totals of exactly that key's records; every record's key has a group.
   */
  lemma RollupGroups(recs: seq<MatchRecord>)
    ensures Grouped(Rollup(recs))
    ensures GroupsTotal(Rollup(recs), recs) && GroupsFrom(Rollup(recs), recs) && GroupsCover(Rollup(recs), recs)
  {
    var rows := Rollup(recs);
    RollupSpec(recs);
    forall g | g in rows
      ensures g.totals == TotalOf(recs, g.key)
      ensures exists r :: r in recs && KeyOf(r) == g.key
    {
      var i :| 0 <= i < |rows| && rows[i] == g;
      LookupMember(rows, i);
      TotalOfGames(recs, g.key);
      var n :| 0 <= n < |recs| && KeyOf(recs[n]) == g.key;
      assert recs[n] in recs;
    }
    forall r | r in recs ensures exists g :: g in rows && g.key == KeyOf(r) {
      var i :| 0 <= i < |recs| && recs[i] == r;
      TotalOfGames(recs, KeyOf(r));
      LookupPresent(rows, KeyOf(r));
      var j :| 0 <= j < |rows| && rows[j].key == KeyOf(r);
      assert rows[j] in rows;
    }
  }


  // ---------------------------------------------------------------------
  // The name filter

  /** `if player_name:` — no filter, or the empty string, keeps every record. */
  predicate Keeps(nameFilter: Option<string>, playerName: string) {
    nameFilter.None? || nameFilter.value == "" || ContainsIgnoringCase(playerName, nameFilter.value)
  }

  /** The records whose player name contains `pattern`, ignoring case, in their original order. */
  function Select(recs: seq<MatchRecord>, pattern: string): (r: seq<MatchRecord>)
    ensures forall x :: multiset(r)[x] == if ContainsIgnoringCase(x.playerName, pattern) then multiset(recs)[x] else 0
    decreases |recs|
  {
    if recs == [] then []
    else
      var pre := recs[..|recs| - 1];
      var last := recs[|recs| - 1];
      assert recs == pre + [last];
      Select(pre, pattern) + if ContainsIgnoringCase(last.playerName, pattern) then [last] else []
  }

  function Filter(recs: seq<MatchRecord>, nameFilter: Option<string>): seq<MatchRecord> {
    if nameFilter.None? || nameFilter.value == "" then recs else Select(recs, nameFilter.value)
  }

  /** The filter keeps each record exactly as often as it occurs when its name passes, and never otherwise. */
  lemma FilterCounts(recs: seq<MatchRecord>, nameFilter: Option<string>)
    ensures forall x :: multiset(Filter(recs, nameFilter))[x] == if Keeps(nameFilter, x.playerName) then multiset(recs)[x] else 0
  {
  }

  // ---------------------------------------------------------------------
  // Rates

  /** `num / den * scale`; `None` stands for the NaN or infinity pandas yields when `den` is zero. */
  function Ratio(num: real, den: real, scale: real): (r: Option<real>)
    ensures r.Some? <==> den != 0.0
    ensures r.Some? ==> r.value * den == num * scale
  {
    if den == 0.0 then None else Some(num / den * scale)
  }

  /** The derived columns of one season row. */
  datatype Rates = Rates(
    goalsPer90: Option<real>, assistsPer90: Option<real>, shotsPer90: Option<real>,
    keyPassesPer90: Option<real>, tacklesPer90: Option<real>,
    passCompletion: Option<real>, dribbleSuccess: Option<real>, shotAccuracy: Option<real>,
    xgPer90: Option<real>, xaPer90: Option<real>)

  function Per90(stat: real, t: Totals): Option<real> {
    Ratio(stat, t.minutes as real, 90.0)
  }

  function Percent(part: nat, whole: nat): Option<real> {
    Ratio(part as real, whole as real, 100.0)
  }

  function RatesOf(t: Totals): Rates {
    var s := t.stats;
    Rates(
      goalsPer90 := Per90(s.goals as real, t),
      assistsPer90 := Per90(s.assists as real, t),
      shotsPer90 := Per90(s.shots as real, t),
      keyPassesPer90 := Per90(s.keyPasses as real, t),
      tacklesPer90 := Per90(s.tackles as real, t),
      passCompletion := Percent(s.passesCompleted, s.passes),
      dribbleSuccess := Percent(s.dribblesCompleted, s.dribbles),
      shotAccuracy := Percent(s.shotsOnTarget, s.shots),
      xgPer90 := Per90(s.xg, t),
      xaPer90 := Per90(s.xa, t))
  }

  /** A share of a whole, as a percentage, lies between 0 and 100 whenever it is defined. */
  lemma PercentBounds(part: nat, whole: nat)
    requires part <= whole
    ensures Percent(part, whole).Some? ==> 0.0 <= Percent(part, whole).value <= 100.0
  {
    if whole > 0 {
      var r := Percent(part, whole).value;
      assert r * whole as real == part as real * 100.0;
      assert r == part as real * 100.0 / whole as real;
    }
  }

  /** With 90 minutes per game, a per-90 rate is the per-game average. */
  lemma Per90IsPerGame(stat: real, t: Totals)
    requires t.games > 0 && t.minutes == DefaultMinutes * t.games
    ensures Per90(stat, t) == Some(stat / t.games as real)
  {
    var g := t.games as real;
    assert t.minutes as real == 90.0 * g;
    assert stat / (90.0 * g) * 90.0 == stat / g;
  }

  // ---------------------------------------------------------------------
  // The season table

  datatype SeasonRow = SeasonRow(key: GroupKey, totals: Totals, rates: Rates)

  /**
   * What `get_player_season_stats` returns: the column-less empty DataFrame
   * when no match was aggregated; a KeyError on the group columns when every
   * aggregated match produced an empty table (such a table has no columns);
   * otherwise the grouped rows.
   */
  datatype Season = NoMatches | ColumnsMissing | Table(rows: seq<SeasonRow>)

  /** One match's aggregated table as a list of records. */
  function MatchRows(m: MatchData): (r: seq<MatchRecord>)
    ensures |r| == |Seed(m.lineups).ids|
    ensures Tallied(r)
  {
    MatchRowsConsistent(m.lineups, m.events);
    MatchStatsShape(m.lineups, m.events);
    Rows(Aggregated(m.lineups, m.events))
  }

  /**
   * `all_player_stats`: the tables of the matches whose aggregation did not
   * raise (`None` marks one that did), in match order.
   */
  function Tables(matches: seq<Option<MatchData>>): (r: seq<seq<MatchRecord>>)
    ensures |r| <= |matches|
    decreases |matches|
  {
    if matches == [] then []
    else
      var last := matches[|matches| - 1];
      Tables(matches[..|matches| - 1]) + if last.Some? then [MatchRows(last.value)] else []
  }

  /** No table at all exactly when every match raised. */
  lemma {:induction false} TablesNone(matches: seq<Option<MatchData>>)
    ensures Tables(matches) == [] <==> forall i :: 0 <= i < |matches| ==> matches[i].None?
    decreases |matches|
  {
    if matches != [] {
      var pre := matches[..|matches| - 1];
      TablesNone(pre);
      assert forall i :: 0 <= i < |pre| ==> pre[i] == matches[i];
    }
  }

  /** `pd.concat`: the tables' records one after another. */
  function Concat(tables: seq<seq<MatchRecord>>): seq<MatchRecord>
    decreases |tables|
  {
    if tables == [] then []
    else Concat(tables[..|tables| - 1]) + tables[|tables| - 1]
  }

  function Derive(groups: seq<Group>): seq<SeasonRow> {
    seq(|groups|, i requires 0 <= i < |groups| => SeasonRow(groups[i].key, groups[i].totals, RatesOf(groups[i].totals)))
  }

  /** The season table for these per-match results and this name filter. */
  function SeasonTable(matches: seq<Option<MatchData>>, nameFilter: Option<string>): Season {
    var tables := Tables(matches);
    if tables == [] then NoMatches
    else
      var recs := Concat(tables);
      if recs == [] then ColumnsMissing
      else Table(Derive(Rollup(Filter(recs, nameFilter))))
  }

  /** `get_player_season_stats` on the already-fetched matches of one season. */
  method PlayerSeasonStats(matches: seq<Option<MatchData>>, nameFilter: Option<string>) returns (season: Season)
    ensures season == SeasonTable(matches, nameFilter)
  {
    var tables: seq<seq<MatchRecord>> := [];
    for i := 0 to |matches|
      invariant tables == Tables(matches[..i])
    {
      match matches[i] {
        case Some(m) =>
          var t := AggregateMatch(m.lineups, m.events);
          MatchRowsConsistent(m.lineups, m.events);
          tables := tables + [Rows(t)];
        case None =>
      }
      assert matches[..i + 1][..i] == matches[..i];
    }
    assert matches[..|matches|] == matches;
    if tables == [] {
      return NoMatches;
    }
    var recs := Concat(tables);
    if recs == [] {
      return ColumnsMissing;
    }
    season := Table(Derive(Rollup(Filter(recs, nameFilter))));
  }

  // ---------------------------------------------------------------------
  // What the season table promises

  /** The roll-up's input: the successful matches' records, after the name filter. */
  function SeasonRecords(matches: seq<Option<MatchData>>, nameFilter: Option<string>): seq<MatchRecord> {
    Filter(Concat(Tables(matches)), nameFilter)
  }

  /** The result is the empty DataFrame exactly when no match was aggregated. */
  lemma NoMatchesWhenAllFailed(matches: seq<Option<MatchData>>, nameFilter: Option<string>)
    ensures SeasonTable(matches, nameFilter) == NoMatches <==> forall i :: 0 <= i < |matches| ==> matches[i].None?
  {
    TablesNone(matches);
  }

  /** A match's table is empty exactly when its lineups list no player. */
  lemma MatchRowsEmpty(m: MatchData)
    ensures MatchRows(m) == [] <==> forall i :: 0 <= i < |m.lineups| ==> m.lineups[i].lineup == []
  {
    SeedKeys(m.lineups);
    var seed := Seed(m.lineups);
    if seed.ids != [] {
      assert seed.ids[0] in seed.ids;
      var i, j :| 0 <= i < |m.lineups| && 0 <= j < |m.lineups[i].lineup| && m.lineups[i].lineup[j].playerId == seed.ids[0];
    }
    if exists i :: 0 <= i < |m.lineups| && m.lineups[i].lineup != [] {
      var i :| 0 <= i < |m.lineups| && m.lineups[i].lineup != [];
      assert InLineups(m.lineups, m.lineups[i].lineup[0].playerId);
    }
  }

  lemma {:induction false} ConcatTablesEmpty(matches: seq<Option<MatchData>>)
    ensures Concat(Tables(matches)) == [] <==> forall m :: m in matches && m.Some? ==> MatchRows(m.value) == []
    decreases |matches|
  {
    if matches != [] {
      var pre := matches[..|matches| - 1];
      var last := matches[|matches| - 1];
      ConcatTablesEmpty(pre);
      var ts := Tables(pre);
      if last.Some? {
        var ts' := ts + [MatchRows(last.value)];
        assert Tables(matches) == ts';
        assert ts'[..|ts|] == ts;
        assert Concat(ts') == Concat(ts) + MatchRows(last.value);
      } else {
        assert Tables(matches) == ts;
      }
      assert matches == pre + [last];
    }
  }

  /**
   * The KeyError case: some match was aggregated, but every aggregated match
   * had lineups without a single player.
   */
  lemma ColumnsMissingWhenNoPlayers(matches: seq<Option<MatchData>>, nameFilter: Option<string>)
    ensures SeasonTable(matches, nameFilter) == ColumnsMissing <==>
      && (exists m :: m in matches && m.Some?)
      && (forall m, j :: m in matches && m.Some? && 0 <= j < |m.value.lineups| ==> m.value.lineups[j].lineup == [])
  {
    TablesNone(matches);
    if exists i :: 0 <= i < |matches| && matches[i].Some? {
      var i :| 0 <= i < |matches| && matches[i].Some?;
      assert matches[i] in matches;
    }
    ConcatTablesEmpty(matches);
    forall m | m in matches && m.Some? {
      MatchRowsEmpty(m.value);
    }
  }

  lemma {:induction false} SeasonRecordsTallied(matches: seq<Option<MatchData>>)
    ensures Tallied(Concat(Tables(matches)))
    decreases |matches|
  {
    if matches != [] {
      var pre := matches[..|matches| - 1];
      var last := matches[|matches| - 1];
      SeasonRecordsTallied(pre);
      var ts := Tables(pre);
      if last.Some? {
        var ts' := ts + [MatchRows(last.value)];
        assert Tables(matches) == ts';
        assert ts'[..|ts|] == ts;
        assert Concat(ts') == Concat(ts) + MatchRows(last.value);
      } else {
        assert Tables(matches) == ts;
      }
    }
  }

  lemma FilterTallied(recs: seq<MatchRecord>, nameFilter: Option<string>)
    requires Tallied(recs)
    ensures Tallied(Filter(recs, nameFilter))
  {
    FilterCounts(recs, nameFilter);
    forall r | r in Filter(recs, nameFilter) ensures r in recs {
      assert multiset(Filter(recs, nameFilter))[r] > 0;
    }
  }

  /** Rows strictly increasing by (name, team, position). */
  predicate RowsOrdered(rows: seq<SeasonRow>) {
    forall i, j :: 0 <= i < j < |rows| ==> KeyLess(rows[i].key, rows[j].key)
  }

  /** Every row carries the totals of its key's records and the rates derived from them. */
  ghost predicate RowsTotal(rows: seq<SeasonRow>, recs: seq<MatchRecord>) {
    forall row :: row in rows ==> row.totals == TotalOf(recs, row.key) && row.rates == RatesOf(row.totals)
  }

  /** Every row's key is the key of some record. */
  ghost predicate RowsFrom(rows: seq<SeasonRow>, recs: seq<MatchRecord>) {
    forall row :: row in rows ==> exists r :: r in recs && KeyOf(r) == row.key
  }

  /** Every record's key has a row. */
  ghost predicate RowsCover(rows: seq<SeasonRow>, recs: seq<MatchRecord>) {
    forall r :: r in recs ==> exists row :: row in rows && row.key == KeyOf(r)
  }

  /**
   * The rows built from any records: strictly sorted by (name, team,
   * position); one per key found among the records and no other, each
   * carrying exactly that key's totals and the rates derived from them.
   */
  lemma DeriveRollup(recs: seq<MatchRecord>)
    ensures var rows := Derive(Rollup(recs));
      RowsOrdered(rows) && RowsTotal(rows, recs) && RowsFrom(rows, recs) && RowsCover(rows, recs)
  {
    var groups := Rollup(recs);
    RollupGroups(recs);
    DeriveOrdered(groups);
    DeriveTotals(recs, groups);
    DeriveCovers(recs, groups);
  }

  /** Row `i` of `Derive` is group `i` with its rates. */
  lemma DeriveAt(groups: seq<Group>, i: nat)
    requires i < |groups|
    ensures |Derive(groups)| == |groups|
    ensures Derive(groups)[i] == SeasonRow(groups[i].key, groups[i].totals, RatesOf(groups[i].totals))
  {
  }

  lemma DeriveOrdered(groups: seq<Group>)
    requires Grouped(groups)
    ensures RowsOrdered(Derive(groups))
  {
  }

  lemma DeriveTotals(recs: seq<MatchRecord>, groups: seq<Group>)
    requires GroupsTotal(groups, recs) && GroupsFrom(groups, recs)
    ensures RowsTotal(Derive(groups), recs) && RowsFrom(Derive(groups), recs)
  {
    var rows := Derive(groups);
    forall row | row in rows
      ensures row.totals == TotalOf(recs, row.key) && row.rates == RatesOf(row.totals)
      ensures exists r :: r in recs && KeyOf(r) == row.key
    {
      var n :| 0 <= n < |rows| && rows[n] == row;
      DeriveAt(groups, n);
      assert groups[n] in groups;
    }
  }

  lemma DeriveCovers(recs: seq<MatchRecord>, groups: seq<Group>)
    requires GroupsCover(groups, recs)
    ensures RowsCover(Derive(groups), recs)
  {
    var rows := Derive(groups);
    forall r | r in recs ensures exists row :: row in rows && row.key == KeyOf(r) {
      var g :| g in groups && g.key == KeyOf(r);
      var j :| 0 <= j < |groups| && groups[j] == g;
      DeriveAt(groups, j);
      assert rows[j] in rows;
    }
  }

  /**
   * The season table holds the rows of the filtered records (see
   * `DeriveRollup`), and every row's player name passes the filter.
   */
  lemma SeasonGroups(matches: seq<Option<MatchData>>, nameFilter: Option<string>)
    requires SeasonTable(matches, nameFilter).Table?
    ensures SeasonTable(matches, nameFilter).rows == Derive(Rollup(SeasonRecords(matches, nameFilter)))
    ensures forall row :: row in SeasonTable(matches, nameFilter).rows ==> Keeps(nameFilter, row.key.playerName)
  {
    var recs := SeasonRecords(matches, nameFilter);
    var rows := SeasonTable(matches, nameFilter).rows;
    assert rows == Derive(Rollup(recs));
    DeriveRollup(recs);
    FilterCounts(Concat(Tables(matches)), nameFilter);
    forall row | row in rows ensures Keeps(nameFilter, row.key.playerName) {
      var r :| r in recs && KeyOf(r) == row.key;
      assert multiset(recs)[r] > 0;
    }
  }

  /** What every row of a season table satisfies: some games, 90 minutes per game, consistent counters. */
  ghost predicate Regular(row: SeasonRow) {
    && row.totals.games > 0
    && row.totals.minutes == DefaultMinutes * row.totals.games
    && Consistent(row.totals.stats)
  }

  /**
   * The rates of a row with games: every per-90 rate defined (the goals rate
   * is goals per game, the xa rate zero), and each percentage between 0 and
   * 100 whenever its denominator is not zero.
   */
  ghost predicate Rated(row: SeasonRow)
    requires row.totals.games > 0
  {
    && row.rates.goalsPer90 == Some(row.totals.stats.goals as real / row.totals.games as real)
    && row.rates.assistsPer90.Some? && row.rates.shotsPer90.Some? && row.rates.keyPassesPer90.Some?
    && row.rates.tacklesPer90.Some? && row.rates.xgPer90.Some?
    && row.rates.xaPer90 == Some(0.0)
    && (row.rates.passCompletion.Some? ==> 0.0 <= row.rates.passCompletion.value <= 100.0)
    && (row.rates.dribbleSuccess.Some? ==> 0.0 <= row.rates.dribbleSuccess.value <= 100.0)
    && (row.rates.shotAccuracy.Some? ==> 0.0 <= row.rates.shotAccuracy.value <= 100.0)
  }

  /**
   * Every row of the season table, built from aggregator records: at least
   * one game, 90 minutes a game, consistent counters, and rates as `Rated`
   * describes.
   */
  lemma SeasonRowsTallied(matches: seq<Option<MatchData>>, nameFilter: Option<string>)
    requires SeasonTable(matches, nameFilter).Table?
    ensures forall row :: row in SeasonTable(matches, nameFilter).rows ==> Regular(row) && Rated(row)
  {
    var recs := SeasonRecords(matches, nameFilter);
    SeasonRecordsTallied(matches);
    FilterTallied(Concat(Tables(matches)), nameFilter);
    SeasonGroups(matches, nameFilter);
    DeriveRollup(recs);
    forall row | row in SeasonTable(matches, nameFilter).rows ensures Regular(row) && Rated(row) {
      RowTallied(recs, row);
    }
  }

  /** A row carrying the totals of a key that occurs among aggregator records is regular and rated. */
  lemma RowTallied(recs: seq<MatchRecord>, row: SeasonRow)
    requires Tallied(recs)
    requires row.totals == TotalOf(recs, row.key) && row.rates == RatesOf(row.totals)
    requires exists r :: r in recs && KeyOf(r) == row.key
    ensures Regular(row) && Rated(row)
  {
    var r :| r in recs && KeyOf(r) == row.key;
    var i :| 0 <= i < |recs| && recs[i] == r;
    TotalOfGames(recs, row.key);
    TotalOfMinutes(recs, row.key);
    TotalOfConsistent(recs, row.key);
    RowRated(row);
  }

  /** The rates of a regular row are all defined and in range. */
  lemma RowRated(row: SeasonRow)
    requires Regular(row) && row.rates == RatesOf(row.totals)
    ensures Rated(row)
  {
    var t := row.totals;
    var s := t.stats;
    Per90IsPerGame(s.goals as real, t);
    Per90IsPerGame(s.xa, t);
    PercentBounds(s.passesCompleted, s.passes);
    PercentBounds(s.dribblesCompleted, s.dribbles);
    PercentBounds(s.shotsOnTarget, s.shots);
  }



  lemma {:induction false} TablesAppend(u: seq<Option<MatchData>>, v: seq<Option<MatchData>>)
    ensures Tables(u + v) == Tables(u) + Tables(v)
    decreases |v|
  {
    if v == [] {
      assert u + v == u;
    } else {
      var w := v[..|v| - 1];
      assert (u + v)[..|u + v| - 1] == u + w;
      TablesAppend(u, w);
    }
  }

  lemma {:induction false} ConcatAppend(u: seq<seq<MatchRecord>>, v: seq<seq<MatchRecord>>)
    ensures Concat(u + v) == Concat(u) + Concat(v)
    decreases |v|
  {
    if v == [] {
      assert u + v == u;
    } else {
      var w := v[..|v| - 1];
      var x := v[|v| - 1];
      assert (u + v)[..|u + v| - 1] == u + w;
      assert (u + v)[|u + v| - 1] == x;
      ConcatAppend(u, w);
      calc {
        Concat(u + v);
        Concat(u + w) + x;
        (Concat(u) + Concat(w)) + x;
        Concat(u) + (Concat(w) + x);
        Concat(u) + Concat(v);
      }
    }
  }

  /** Reordering the matches reorders their tables. */
  lemma {:induction false} TablesPermutation(a: seq<Option<MatchData>>, b: seq<Option<MatchData>>)
    requires multiset(a) == multiset(b)
    ensures multiset(Tables(a)) == multiset(Tables(b))
    decreases |a|
  {
    if a == [] {
      assert |b| == |multiset(b)| == 0;
    } else {
      var a', x := a[..|a| - 1], a[|a| - 1];
      var i := PermutationSplit(a, b);
      var b1, b2 := b[..i], b[i + 1..];
      TablesPermutation(a', b1 + b2);
      TablesAppend(a', [x]);
      TablesAppend(b1 + [x], b2);
      TablesAppend(b1, [x]);
      TablesAppend(b1, b2);
    }
  }

  /** Taking one table out of the middle takes its records out of the concatenation. */
  lemma ConcatRemove(b1: seq<seq<MatchRecord>>, x: seq<MatchRecord>, b2: seq<seq<MatchRecord>>)
    ensures multiset(Concat(b1 + [x] + b2)) == multiset(Concat(b1 + b2)) + multiset(x)
  {
    ConcatAppend(b1 + [x], b2);
    ConcatAppend(b1, [x]);
    ConcatAppend(b1, b2);
    assert Concat([x]) == x by {
      assert [x][..0] == [];
    }
  }

  /** Reordering the tables reorders their records. */
  lemma {:induction false} ConcatPermutation(a: seq<seq<MatchRecord>>, b: seq<seq<MatchRecord>>)
    requires multiset(a) == multiset(b)
    ensures multiset(Concat(a)) == multiset(Concat(b))
    decreases |a|
  {
    if a == [] {
      assert |b| == |multiset(b)| == 0;
    } else {
      var a', x := a[..|a| - 1], a[|a| - 1];
      var i := PermutationSplit(a, b);
      var b1, b2 := b[..i], b[i + 1..];
      ConcatPermutation(a', b1 + b2);
      ConcatRemove(b1, x, b2);
      assert Concat(a) == Concat(a') + x;
    }
  }

  /** The season table does not depend on the order in which the matches are processed. */
  lemma SeasonOrderIndependent(a: seq<Option<MatchData>>, b: seq<Option<MatchData>>, nameFilter: Option<string>)
    requires multiset(a) == multiset(b)
    ensures SeasonTable(a, nameFilter) == SeasonTable(b, nameFilter)
  {
    RecordsPermutation(a, b, nameFilter);
    RollupPermutation(SeasonRecords(a, nameFilter), SeasonRecords(b, nameFilter));
  }

  /**
   * Reordering the matches reorders the aggregated tables and the filtered
   * records, and keeps both emptiness tests the same.
   */
  lemma RecordsPermutation(a: seq<Option<MatchData>>, b: seq<Option<MatchData>>, nameFilter: Option<string>)
    requires multiset(a) == multiset(b)
    ensures (Tables(a) == []) == (Tables(b) == [])
    ensures (Concat(Tables(a)) == []) == (Concat(Tables(b)) == [])
    ensures multiset(SeasonRecords(a, nameFilter)) == multiset(SeasonRecords(b, nameFilter))
  {
    TablesPermutation(a, b);
    var ta, tb := Tables(a), Tables(b);
    assert |ta| == |multiset(ta)| == |multiset(tb)| == |tb|;
    ConcatPermutation(ta, tb);
    var ra, rb := Concat(ta), Concat(tb);
    assert |ra| == |multiset(ra)| == |multiset(rb)| == |rb|;
    FilterPermutation(ra, rb, nameFilter);
  }

  /** The name filter maps permutations to permutations. */
  lemma FilterPermutation(a: seq<MatchRecord>, b: seq<MatchRecord>, nameFilter: Option<string>)
    requires multiset(a) == multiset(b)
    ensures multiset(Filter(a, nameFilter)) == multiset(Filter(b, nameFilter))
  {
    FilterCounts(a, nameFilter);
    FilterCounts(b, nameFilter);
  }


  lemma TableRegular(matches: seq<Option<MatchData>>, nameFilter: Option<string>)
    ensures SeasonTable(matches, nameFilter).Table? ==>
      forall row :: row in SeasonTable(matches, nameFilter).rows ==> Regular(row)
  {
    if SeasonTable(matches, nameFilter).Table? {
      SeasonRowsTallied(matches, nameFilter);
    }
  }

  // ---------------------------------------------------------------------
  // As written: a match whose aggregation raises is dropped
  //
  // `SeasonTable` aggregates every fetched match with the intended
  // aggregator `Aggregated`. As written, `get_player_match_stats` raises on
  // a match with an event that reads a NaN payload (see
  // `MatchStats.AggregatedAsWritten`), and the loop's `except` then skips the
  // whole match.

  /** A fetched match on which the aggregator as written raises. */
  predicate RaisesAsWritten(m: Option<MatchData>) {
    m.Some? && AggregatedAsWritten(m.value.lineups, m.value.events).None?
  }

  /** The matches as the loop's `try` passes them on as written: one that raises counts as failed. */
  function SurvivorsAsWritten(matches: seq<Option<MatchData>>): seq<Option<MatchData>> {
    seq(|matches|, i requires 0 <= i < |matches| => if RaisesAsWritten(matches[i]) then None else matches[i])
  }

  /** `get_player_season_stats` as written. */
  function SeasonAsWritten(matches: seq<Option<MatchData>>, nameFilter: Option<string>): Season {
    SeasonTable(SurvivorsAsWritten(matches), nameFilter)
  }

  /**
   * As written, the season is the empty DataFrame exactly when every match
   * either failed to fetch or raised in the aggregator; when no match
   * raises, it is the intended season table.
   */
  lemma SeasonAsWrittenSpec(matches: seq<Option<MatchData>>, nameFilter: Option<string>)
    ensures SeasonAsWritten(matches, nameFilter) == NoMatches <==>
      forall i :: 0 <= i < |matches| ==> matches[i].None? || RaisesAsWritten(matches[i])
    ensures (forall i :: 0 <= i < |matches| ==> !RaisesAsWritten(matches[i])) ==>
      SeasonAsWritten(matches, nameFilter) == SeasonTable(matches, nameFilter)
  {
    var survivors := SurvivorsAsWritten(matches);
    NoMatchesWhenAllFailed(survivors, nameFilter);
    assert forall i :: 0 <= i < |matches| ==> (survivors[i].None? <==> matches[i].None? || RaisesAsWritten(matches[i]));
    if forall i :: 0 <= i < |matches| ==> !RaisesAsWritten(matches[i]) {
      assert SurvivorsAsWritten(matches) == matches;
    }
  }

  /**
   * A season of one match on which the aggregator as written raises, with
   * some lineup player: as written the season is the empty DataFrame, while
   * the intended season table has rows.
   */
  lemma RaisingMatchEmptiesSeason(m: MatchData)
    requires RaisesAsWritten(Some(m))
    requires exists i :: 0 <= i < |m.lineups| && m.lineups[i].lineup != []
    ensures SeasonAsWritten([Some(m)], None) == NoMatches
    ensures SeasonTable([Some(m)], None).Table? && SeasonTable([Some(m)], None).rows != []
  {
    SeasonAsWrittenSpec([Some(m)], None);
    SingleMatchTable(m);
  }

  /** A season of one aggregated match with some lineup player has rows. */
  lemma SingleMatchTable(m: MatchData)
    requires exists i :: 0 <= i < |m.lineups| && m.lineups[i].lineup != []
    ensures SeasonTable([Some(m)], None).Table? && SeasonTable([Some(m)], None).rows != []
  {
    MatchRowsEmpty(m);
    SingleMatchRecords(m);
    RowsNonEmpty(MatchRows(m));
  }

  lemma SingleMatchRecords(m: MatchData)
    ensures Tables([Some(m)]) == [MatchRows(m)]
    ensures Concat(Tables([Some(m)])) == MatchRows(m)
  {
    assert [Some(m)][..0] == [];
    var rows := MatchRows(m);
    assert [rows][..0] == [];
    assert Concat([rows]) == Concat([]) + rows;
  }

  /** Some records give some rows. */
  lemma RowsNonEmpty(recs: seq<MatchRecord>)
    requires recs != []
    ensures Derive(Rollup(recs)) != []
  {
    DeriveRollup(recs);
    assert recs[0] in recs;
  }

  /**
   * The match of `MatchStats.UncardedFoulDropsMatch`, alone in a season: as
   * written the season is the empty DataFrame.
   */
  lemma UncardedFoulEmptiesSeason()
    ensures
      var p := PlayerRef(7, "P");
      var lineups := [TeamLineup("A", [LineupEntry(7, "P", ["Forward"])])];
      var plain := Event("Foul Committed", Some(p), None, None, None, None, None, None);
      var booked := Event("Foul Committed", Some(p), None, None, None, None, None, Some(FoulInfo(Some("Yellow Card"))));
      var season := [Some(MatchData([plain, booked], lineups))];
      && SeasonAsWritten(season, None) == NoMatches
      && SeasonTable(season, None).Table? && SeasonTable(season, None).rows != []
  {
    var p := PlayerRef(7, "P");
    var lineups := [TeamLineup("A", [LineupEntry(7, "P", ["Forward"])])];
    var plain := Event("Foul Committed", Some(p), None, None, None, None, None, None);
    var booked := Event("Foul Committed", Some(p), None, None, None, None, None, Some(FoulInfo(Some("Yellow Card"))));
    UncardedFoulDropsMatch();
    assert lineups[0].lineup != [];
    RaisingMatchEmptiesSeason(MatchData([plain, booked], lineups));
  }
}
