// The rows of the league server's tables that the scoring engine reads and
// writes: leagues, events, event_teams and matches.  Dates are integer
// timestamps; a NULL column is None.

module Tables {

  datatype Option<T> = None | Some(value: T)

  /** A row of `leagues`; the engine only needs its midpoint date. */
  datatype League = League(midwayPoint: int)

  /** A row of `events`: its league, and how many matches a team must play
      before the league's midpoint to earn the mid bonus. */
  datatype Event = Event(league: int, midwayMatches: int)

  /** The key of an `event_teams` row: (event id, team id). */
  type Key = (int, int)

  /** A row of `event_teams`: a team's standing in one event. */
  datatype EventTeam = EventTeam(
    setPoints: int,
    midBonus: int,
    allBonus: int,
    totalPoints: int,
    challengerBonus: int,
    withdrawn: bool)

  /** A row of `matches`. */
  datatype Match = Match(
    id: int,
    event: int,
    team1: int,
    team2: int,
    team1Sets: Option<int>,
    team2Sets: Option<int>,
    finished: bool,
    winner: Option<int>,
    winnerScore: Option<int>,
    date: Option<int>,
    byMidpoint: bool,
    withdrawal: bool)

  /** The row that enrolling a team inserts: every figure 0, not withdrawn
      (the columns' defaults). */
  const Enrolled: EventTeam := EventTeam(0, 0, 0, 0, 0, false)

  predicate Involves(m: Match, t: int) {
    m.team1 == t || m.team2 == t
  }

  /** SQL's SUM skips NULL, so a NULL set count adds nothing. */
  function SetsOrZero(s: Option<int>): int {
    match s
    case None => 0
    case Some(n) => n
  }

  /** The team's own set count in a match: team1's when it is team1,
      team2's when it is team2, nothing when it does not play. */
  function OwnSets(m: Match, t: int): int {
    if m.team1 == t then SetsOrZero(m.team1Sets)
    else if m.team2 == t then SetsOrZero(m.team2Sets)
    else 0
  }

  /** `match_id` is the table's key. */
  predicate DistinctIds(ms: seq<Match>) {
    forall i, j :: 0 <= i < j < |ms| ==> ms[i].id != ms[j].id
  }

  /** Every id was handed out before the serial counter reached `next`. */
  predicate IdsBelow(ms: seq<Match>, next: int) {
    forall i :: 0 <= i < |ms| ==> ms[i].id < next
  }
}
