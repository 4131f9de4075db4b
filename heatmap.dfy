/**
 * Heatmap extraction (`get_player_heatmap_data`): the pitch locations of one
 * player's events in one match, in event order, each tagged with the event's
 * type name.
 *
 * `PlayerHeatmap` is the source's loop; `HeatmapOf` is the function that
 * specifies it.
 */
module Heatmap {
  import opened Wrappers
  import opened Events

  /** One entry of the returned list: `{'x': .., 'y': .., 'event_type': ..}`. */
  datatype Point = Point(x: real, y: real, eventType: string)

  /**
   * The outcome: a list of points, or the KeyError raised by `events['player']`
   * when no event of the match carries a player, so the frame has no such column.
   */
  datatype Heatmap = NoPlayerColumn | Points(points: seq<Point>)

  /** The name the filter compares: the player's name, or "" for an event without a player. */
  function NameOf(e: Event): string {
    if e.player.Some? then e.player.value.name else ""
  }

  predicate HasPlayerColumn(events: seq<Event>) {
    exists i :: 0 <= i < |events| && events[i].player.Some?
  }

  /** An event the player filter keeps and that has a location. */
  predicate Plotted(e: Event, playerName: string) {
    NameOf(e) == playerName && e.location.Some?
  }

  function PointOf(e: Event): Point
    requires e.location.Some?
  {
    Point(e.location.value.x, e.location.value.y, e.typeName)
  }

  /** The points of the plotted events, in event order. */
  function PointsOf(events: seq<Event>, playerName: string): seq<Point>
    decreases |events|
  {
    if events == [] then []
    else
      var e := events[|events| - 1];
      PointsOf(events[..|events| - 1], playerName) + if Plotted(e, playerName) then [PointOf(e)] else []
  }

  function HeatmapOf(events: seq<Event>, playerName: string): Heatmap {
    if HasPlayerColumn(events) then Points(PointsOf(events, playerName)) else NoPlayerColumn
  }

  /** `get_player_heatmap_data` on already-fetched events. */
  method PlayerHeatmap(events: seq<Event>, playerName: string) returns (heat: Heatmap)
    ensures heat == HeatmapOf(events, playerName)
  {
    if !HasPlayerColumn(events) {
      return NoPlayerColumn;
    }
    var locations: seq<Point> := [];
    for i := 0 to |events|
      invariant locations == PointsOf(events[..i], playerName)
    {
      var event := events[i];
      var name := if event.player.Some? then event.player.value.name else "";
      if name == playerName && event.location.Some? {
        locations := locations + [Point(event.location.value.x, event.location.value.y, event.typeName)];
      }
      assert events[..i + 1][..i] == events[..i];
    }
    assert events[..|events|] == events;
    heat := Points(locations);
  }

  // ---------------------------------------------------------------------
  // What the extraction promises

  /** Extraction distributes over concatenation: the points keep the order of their events. */
  lemma {:induction false} PointsOfAppend(a: seq<Event>, b: seq<Event>, playerName: string)
    ensures PointsOf(a + b, playerName) == PointsOf(a, playerName) + PointsOf(b, playerName)
    decreases |b|
  {
    if b != [] {
      var n := |b| - 1;
      assert (a + b)[..|a + b| - 1] == a + b[..n];
      assert (a + b)[|a + b| - 1] == b[n];
      PointsOfAppend(a, b[..n], playerName);
    } else {
      assert a + b == a;
    }
  }

  /**
   * A point is returned exactly when some event of the player has that
   * location and type, and there is at most one point per event.
   */
  lemma {:induction false} PointsOfSpec(events: seq<Event>, playerName: string)
    ensures |PointsOf(events, playerName)| <= |events|
    ensures forall p :: p in PointsOf(events, playerName) <==>
      exists i :: 0 <= i < |events| && Plotted(events[i], playerName) && p == PointOf(events[i])
    decreases |events|
  {
    if events != [] {
      var n := |events| - 1;
      var pre := events[..n];
      PointsOfSpec(pre, playerName);
      forall p ensures p in PointsOf(events, playerName) <==>
        exists i :: 0 <= i < |events| && Plotted(events[i], playerName) && p == PointOf(events[i])
      {
        if exists i :: 0 <= i < |pre| && Plotted(pre[i], playerName) && p == PointOf(pre[i]) {
          var i :| 0 <= i < |pre| && Plotted(pre[i], playerName) && p == PointOf(pre[i]);
          assert events[i] == pre[i];
        }
        if exists i :: 0 <= i < |events| && Plotted(events[i], playerName) && p == PointOf(events[i]) {
          var i :| 0 <= i < |events| && Plotted(events[i], playerName) && p == PointOf(events[i]);
          if i < n {
            assert pre[i] == events[i];
          }
        }
      }
    }
  }

  /** An empty list when the player has no located event, and only then. */
  lemma NoPointsWhen(events: seq<Event>, playerName: string)
    ensures PointsOf(events, playerName) == [] <==> forall i :: 0 <= i < |events| ==> !Plotted(events[i], playerName)
  {
    PointsOfSpec(events, playerName);
    if exists i :: 0 <= i < |events| && Plotted(events[i], playerName) {
      var i :| 0 <= i < |events| && Plotted(events[i], playerName);
      assert PointOf(events[i]) in PointsOf(events, playerName);
    }
  }

  // ---------------------------------------------------------------------
  // As written: a location cell the event frame fills with NaN
  //
  // The frame has a `location` column as soon as one event of the match has
  // a location; an event without one then holds NaN there, `event['location']
  // is not None` holds, and `event['location'][0]` raises. `PointsOf`, which
  // skips an event without a location, is the evidently intended behaviour.

  predicate HasLocationColumn(frame: seq<Event>) {
    exists i :: 0 <= i < |frame| && frame[i].location.Some?
  }

  /** An event the player filter keeps whose location cell is NaN. */
  predicate ReadsNaNLocation(e: Event, playerName: string, frame: seq<Event>) {
    NameOf(e) == playerName && e.location.None? && HasLocationColumn(frame)
  }

  /** The extraction loop as written over the events of `frame`; `None` once it has raised. */
  function PointsAsWritten(frame: seq<Event>, events: seq<Event>, playerName: string): Option<seq<Point>>
    decreases |events|
  {
    if events == [] then Some([])
    else
      var prev := PointsAsWritten(frame, events[..|events| - 1], playerName);
      var e := events[|events| - 1];
      if prev.None? || ReadsNaNLocation(e, playerName, frame) then None
      else Some(prev.value + if Plotted(e, playerName) then [PointOf(e)] else [])
  }

  /** `get_player_heatmap_data` as written: `None` where it raises. */
  function HeatmapAsWritten(events: seq<Event>, playerName: string): Option<Heatmap> {
    if !HasPlayerColumn(events) then Some(NoPlayerColumn)
    else
      var points := PointsAsWritten(events, events, playerName);
      if points.None? then None else Some(Points(points.value))
  }

  /** The loop as written raises exactly on a kept event with a NaN location, and otherwise agrees with `PointsOf`. */
  lemma {:induction false} PointsAsWrittenSpec(frame: seq<Event>, events: seq<Event>, playerName: string)
    ensures PointsAsWritten(frame, events, playerName).None? <==>
      exists i :: 0 <= i < |events| && ReadsNaNLocation(events[i], playerName, frame)
    ensures PointsAsWritten(frame, events, playerName).Some? ==>
      PointsAsWritten(frame, events, playerName).value == PointsOf(events, playerName)
    decreases |events|
  {
    if events != [] {
      var n := |events| - 1;
      var pre := events[..n];
      PointsAsWrittenSpec(frame, pre, playerName);
      if exists i :: 0 <= i < |pre| && ReadsNaNLocation(pre[i], playerName, frame) {
        var i :| 0 <= i < |pre| && ReadsNaNLocation(pre[i], playerName, frame);
        assert events[i] == pre[i];
      }
      if exists i :: 0 <= i < |events| && ReadsNaNLocation(events[i], playerName, frame) {
        var i :| 0 <= i < |events| && ReadsNaNLocation(events[i], playerName, frame);
        if i < n {
          assert pre[i] == events[i];
        }
      }
    }
  }

  /** The heatmap as written fails exactly when the player has an event without a location in a match that has locations. */
  lemma HeatmapAsWrittenSpec(events: seq<Event>, playerName: string)
    ensures HeatmapAsWritten(events, playerName).None? <==>
      HasPlayerColumn(events) && exists i :: 0 <= i < |events| && ReadsNaNLocation(events[i], playerName, events)
    ensures HeatmapAsWritten(events, playerName).Some? ==>
      HeatmapAsWritten(events, playerName).value == HeatmapOf(events, playerName)
  {
    PointsAsWrittenSpec(events, events, playerName);
  }

  /**
   * A player who is substituted off (an event without a location) and also
   * makes a pass from the centre spot: as written the call raises; the
   * intended heatmap holds the one pass.
   */
  lemma SubstitutionBreaksHeatmap()
    ensures
      var p := PlayerRef(7, "P");
      var off := Event("Player Off", Some(p), None, None, None, None, None, None);
      var pass := Event("Pass", Some(p), Some(Location(60.0, 40.0)), None, None, None, None, None);
      && HeatmapAsWritten([off, pass], "P") == None
      && HeatmapOf([off, pass], "P") == Points([Point(60.0, 40.0, "Pass")])
  {
    var p := PlayerRef(7, "P");
    var off := Event("Player Off", Some(p), None, None, None, None, None, None);
    var pass := Event("Pass", Some(p), Some(Location(60.0, 40.0)), None, None, None, None, None);
    var events := [off, pass];
    assert HasPlayerColumn(events) by {
      assert events[0].player.Some?;
    }
    assert HasLocationColumn(events) by {
      assert events[1].location.Some?;
    }
    assert ReadsNaNLocation(events[0], "P", events);
    HeatmapAsWrittenSpec(events, "P");
    assert events[..1] == [off];
    assert [off][..0] == [];
    assert PointsOf([off], "P") == [];
  }
}
