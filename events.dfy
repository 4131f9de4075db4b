/**
 * The already-parsed match data the fetcher consumes: one match's events in
 * order of occurrence and its team lineups. Every nested field that the JSON
 * may leave out is an `Option`; a payload that is absent behaves like the
 * empty dictionary the source falls back to with `.get(..., {})`.
 */
module Events {
  import opened Wrappers

  /** A player reference inside an event: its numeric id and display name. */
  datatype PlayerRef = PlayerRef(id: int, name: string)

  /** A point on the 120 x 80 pitch. */
  datatype Location = Location(x: real, y: real)

  /** `pass`: outcome name, the goal_assist and shot_assist flags, and the recipient. */
  datatype PassInfo = PassInfo(outcome: Option<string>, goalAssist: bool, shotAssist: bool,
                               recipient: Option<PlayerRef>)

  /** `shot`: outcome name and StatsBomb's expected-goals value. */
  datatype ShotInfo = ShotInfo(outcome: Option<string>, xg: Option<real>)

  /** `dribble`: outcome name. */
  datatype DribbleInfo = DribbleInfo(outcome: Option<string>)

  /** `duel`: the duel's own type name ("Tackle", "Aerial Lost", ...). */
  datatype DuelInfo = DuelInfo(duelType: Option<string>)

  /** `foul_committed`: the card name ("Yellow Card", "Red Card", ...). */
  datatype FoulInfo = FoulInfo(card: Option<string>)

  /** One event; `typeName` is `event['type']['name']`. */
  datatype Event = Event(
    typeName: string,
    player: Option<PlayerRef>,
    location: Option<Location>,
    pass: Option<PassInfo>,
    shot: Option<ShotInfo>,
    dribble: Option<DribbleInfo>,
    duel: Option<DuelInfo>,
    foulCommitted: Option<FoulInfo>)

  /** One registered player; `positions` lists the position names held, the starting one first. */
  datatype LineupEntry = LineupEntry(playerId: int, playerName: string, positions: seq<string>)

  datatype TeamLineup = TeamLineup(teamName: string, lineup: seq<LineupEntry>)

  /** What the fetch layer delivers for one match: its events and its lineups. */
  datatype MatchData = MatchData(events: seq<Event>, lineups: seq<TeamLineup>)

  /** The nested names the event dispatch reads; each is None when any level is missing. */
  function PassOutcome(e: Event): Option<string> {
    if e.pass.Some? then e.pass.value.outcome else None
  }

  function GoalAssist(e: Event): bool {
    e.pass.Some? && e.pass.value.goalAssist
  }

  function ShotAssist(e: Event): bool {
    e.pass.Some? && e.pass.value.shotAssist
  }

  function ShotOutcome(e: Event): Option<string> {
    if e.shot.Some? then e.shot.value.outcome else None
  }

  function ShotXg(e: Event): Option<real> {
    if e.shot.Some? then e.shot.value.xg else None
  }

  function DribbleOutcome(e: Event): Option<string> {
    if e.dribble.Some? then e.dribble.value.outcome else None
  }

  function DuelType(e: Event): Option<string> {
    if e.duel.Some? then e.duel.value.duelType else None
  }

  function CardName(e: Event): Option<string> {
    if e.foulCommitted.Some? then e.foulCommitted.value.card else None
  }
}
