// Editing a match's result, `PUT /matches/:id` (server.js:724-788): look up
// the league's midpoint through the match's event, overwrite the result
// columns, then flag the match as played before the midpoint when its date
// is not after it.

module MatchEdit {
  import opened Tables
  import opened Aggregate

  /** The request body of the edit. */
  datatype MatchResult = MatchResult(
    date: int,
    finished: bool,
    winner: Option<int>,
    team1Sets: Option<int>,
    team2Sets: Option<int>,
    winnerScore: Option<int>)

  /** The position of the first match with this id, if any. */
  function IndexOf(ms: seq<Match>, id: int): (r: Option<nat>)
    ensures r.Some? ==> r.value < |ms| && ms[r.value].id == id
    ensures r.None? ==> forall i :: 0 <= i < |ms| ==> ms[i].id != id
  {
    if ms == [] then None
    else if ms[0].id == id then Some(0)
    else match IndexOf(ms[1..], id)
      case None => None
      case Some(j) => Some(j + 1)
  }

  /** The nested lookup of server.js:737-740: match, then its event, then the
      event's league.  None when any of the three is missing, where the source
      fails on `rows[0]` before it writes anything. */
  function MidwayOf(ms: seq<Match>, events: map<int, Event>, leagues: map<int, League>, id: int): Option<int> {
    match IndexOf(ms, id)
    case None => None
    case Some(i) =>
      if ms[i].event in events && events[ms[i].event].league in leagues
      then Some(leagues[events[ms[i].event].league].midwayPoint)
      else None
  }

  /** The first UPDATE (server.js:742-753) on one row. */
  function Overwritten(m: Match, res: MatchResult): Match {
    m.(date := Some(res.date), finished := res.finished, winner := res.winner,
       team1Sets := res.team1Sets, team2Sets := res.team2Sets, winnerScore := res.winnerScore)
  }

  function OverwriteResult(ms: seq<Match>, id: int, res: MatchResult): seq<Match> {
    seq(|ms|, i requires 0 <= i < |ms| => if ms[i].id == id then Overwritten(ms[i], res) else ms[i])
  }

  /** The second UPDATE (server.js:773-779): it only ever sets the flag. */
  function FlagByMidpoint(ms: seq<Match>, id: int): seq<Match> {
    seq(|ms|, i requires 0 <= i < |ms| => if ms[i].id == id then ms[i].(byMidpoint := true) else ms[i])
  }

  /** The `matches` table after a successful edit, given the league's midpoint. */
  function EditedMatches(ms: seq<Match>, id: int, res: MatchResult, midway: int): seq<Match> {
    var r := OverwriteResult(ms, id, res);
    if res.date <= midway then FlagByMidpoint(r, id) else r
  }

  /** The lookup succeeds exactly when the match, its event and the event's
      league all exist, and then yields that league's midpoint. */
  lemma MidwayOfFindsLeague(ms: seq<Match>, events: map<int, Event>, leagues: map<int, League>, id: int, i: nat)
    requires DistinctIds(ms)
    requires i < |ms| && ms[i].id == id
    ensures MidwayOf(ms, events, leagues, id).Some? <==> ms[i].event in events && events[ms[i].event].league in leagues
    ensures MidwayOf(ms, events, leagues, id).Some? ==>
      MidwayOf(ms, events, leagues, id).value == leagues[events[ms[i].event].league].midwayPoint
  {
    var j := IndexOf(ms, id).value;
    assert ms[j].id == ms[i].id;
  }

  /** The edited match takes the request's date, finished flag, winner, set
      counts and winner score; its midpoint flag becomes true when the date is
      not after the midpoint and otherwise stays as it was, so a true flag is
      never reset.  Its id, event, teams and withdrawal flag, and every other
      match, are unchanged. */
  lemma EditedMatchEffect(ms: seq<Match>, id: int, res: MatchResult, midway: int)
    ensures var r := EditedMatches(ms, id, res, midway);
      && |r| == |ms|
      && (forall i :: 0 <= i < |ms| && ms[i].id == id ==>
            && r[i].date == Some(res.date) && r[i].finished == res.finished && r[i].winner == res.winner
            && r[i].team1Sets == res.team1Sets && r[i].team2Sets == res.team2Sets
            && r[i].winnerScore == res.winnerScore
            && r[i].byMidpoint == (ms[i].byMidpoint || res.date <= midway))
      && (forall i :: 0 <= i < |ms| ==>
            && r[i].id == ms[i].id && r[i].event == ms[i].event
            && r[i].team1 == ms[i].team1 && r[i].team2 == ms[i].team2
            && r[i].withdrawal == ms[i].withdrawal
            && (ms[i].byMidpoint ==> r[i].byMidpoint))
      && (forall i :: 0 <= i < |ms| && ms[i].id != id ==> r[i] == ms[i])
  {
  }

  /** No team's count of matches before the midpoint ever goes down through
      an edit, and its number of matches stays the same. */
  lemma EditNeverLowersBeforeMidpoint(ms: seq<Match>, id: int, res: MatchResult, midway: int, e: int, t: int)
    ensures var r := EditedMatches(ms, id, res, midway);
      && Count(r, e, t, BeforeMidpoint) >= Count(ms, e, t, BeforeMidpoint)
      && Count(r, e, t, AllMatches) == Count(ms, e, t, AllMatches)
  {
    var r := EditedMatches(ms, id, res, midway);
    EditedMatchEffect(ms, id, res, midway);
    CountPointwise(r, ms, e, t, BeforeMidpoint);
    CountSame(ms, r, e, t, AllMatches);
  }
}
