// The league server's tables as one in-memory store, and the request
// handlers of the scoring engine as methods that update it in place.

module LeagueServer {
  import opened Tables
  import opened Standings
  import opened Withdrawal
  import opened MatchEdit
  import opened BulkCreate

  class LeagueStore {
    var leagues: map<int, League>
    var events: map<int, Event>
    var eventTeams: map<Key, EventTeam>
    var matches: seq<Match>
    var nextMatchId: int

    /** Match ids are the table's key, handed out by a serial counter. */
    ghost predicate Valid()
      reads this
    {
      DistinctIds(matches) && IdsBelow(matches, nextMatchId)
    }

    /** A store holding the given leagues and events, no enrolments and no matches. */
    constructor (leagues: map<int, League>, events: map<int, Event>)
      ensures Valid()
      ensures this.leagues == leagues && this.events == events
      ensures eventTeams == map[] && matches == [] && nextMatchId == 1
    {
      this.leagues := leagues;
      this.events := events;
      eventTeams := map[];
      matches := [];
      nextMatchId := 1;
    }

    /** `GET /events/:id/teams`: take the snapshot, then run the four passes
        over it in source order. */
    method RecomputeStandings(e: int)
      modifies this`eventTeams
      ensures eventTeams == StandingsAsWritten(old(eventTeams), matches, events, leagues, e)
    {
      var rows := Snapshot(eventTeams, matches, events, leagues, e);
      RunPass(SetPointsPass, rows);
      RunPass(TotalPointsPass, rows);
      RunPass(MidBonusPass, rows);
      RunPass(AllBonusPass, rows);
    }

    /** One of the handler's `for` loops: visit every snapshot row and UPDATE
        its `event_teams` row. */
    method RunPass(p: Pass, rows: map<Key, Row>)
      modifies this`eventTeams
      ensures eventTeams == ApplyPass(old(eventTeams), rows, rows.Keys, p)
    {
      var todo := rows.Keys;
      assert eventTeams == ApplyPass(old(eventTeams), rows, {}, p);
      while todo != {}
        invariant todo <= rows.Keys
        invariant eventTeams == ApplyPass(old(eventTeams), rows, rows.Keys - todo, p)
        decreases todo
      {
        var k :| k in todo;
        if k in eventTeams {
          eventTeams := eventTeams[k := PassRow(p, eventTeams[k], rows[k])];
        }
        todo := todo - {k};
      }
    }

    /** `POST /events/:id/teams`: insert a fresh row; an existing (event, team)
        row makes the INSERT fail and changes nothing. */
    method EnrolTeam(e: int, t: int) returns (ok: bool)
      modifies this`eventTeams
      ensures ok == ((e, t) !in old(eventTeams))
      ensures eventTeams == if ok then old(eventTeams)[(e, t) := Enrolled] else old(eventTeams)
    {
      ok := (e, t) !in eventTeams;
      if ok {
        eventTeams := eventTeams[(e, t) := Enrolled];
      }
    }

    /** `DELETE /events/:id/teams/:tid`: delete the row if there is one. */
    method RemoveTeam(e: int, t: int)
      modifies this`eventTeams
      ensures eventTeams == old(eventTeams) - {(e, t)}
      ensures (e, t) !in eventTeams
    {
      eventTeams := eventTeams - {(e, t)};
    }

    /** `PUT /events/:id/teams/:tid`: zero the team's matches, then flag its
        row of event id.  There is no check that it already withdrew. */
    method Withdraw(id: int, tid: int)
      requires Valid()
      modifies this`matches, this`eventTeams
      ensures Valid()
      ensures matches == WithdrawnMatches(old(matches), old(eventTeams), tid)
      ensures eventTeams == MarkWithdrawn(old(eventTeams), id, tid)
    {
      WithdrawnMatchesEffect(matches, eventTeams, tid);
      matches := WithdrawnMatches(matches, eventTeams, tid);
      eventTeams := MarkWithdrawn(eventTeams, id, tid);
    }

    /** `PUT /matches/:id`: fails, changing nothing, when the match, its event
        or the event's league is missing; otherwise overwrites the result and
        flags the match when its date is not after the league's midpoint. */
    method EditMatch(id: int, res: MatchResult) returns (ok: bool)
      requires Valid()
      modifies this`matches
      ensures Valid()
      ensures ok == MidwayOf(old(matches), events, leagues, id).Some?
      ensures ok ==> matches == EditedMatches(old(matches), id, res, MidwayOf(old(matches), events, leagues, id).value)
      ensures !ok ==> matches == old(matches)
    {
      var midway := MidwayOf(matches, events, leagues, id);
      if midway.None? {
        ok := false;
        return;
      }
      EditedMatchEffect(matches, id, res, midway.value);
      matches := OverwriteResult(matches, id, res);
      if res.date <= midway.value {
        matches := FlagByMidpoint(matches, id);
      }
      ok := true;
    }

    /** `POST /matches`: the requests, one after another; returns the inserted rows. */
    method CreateMatches(reqs: seq<MatchRequest>) returns (inserted: seq<Match>)
      requires Valid()
      modifies this`matches, this`nextMatchId
      ensures Valid()
      ensures var b := CreateAll(Batch(old(matches), old(nextMatchId), []), reqs);
        matches == b.matches && nextMatchId == b.nextId && inserted == b.inserted
      ensures matches == old(matches) + inserted
    {
      inserted := [];
      var i := 0;
      while i < |reqs|
        invariant 0 <= i <= |reqs|
        invariant CreateAll(Batch(matches, nextMatchId, inserted), reqs[i..])
               == CreateAll(Batch(old(matches), old(nextMatchId), []), reqs)
      {
        var q := reqs[i];
        assert reqs[i..][1..] == reqs[i + 1..];
        if !PairExists(matches, q.event, q.team1, q.team2) {
          var m := NewMatch(nextMatchId, q);
          matches := matches + [m];
          nextMatchId := nextMatchId + 1;
          inserted := inserted + [m];
        }
        i := i + 1;
      }
      CreateKeepsIds(old(matches), old(nextMatchId), reqs);
      CreateMatchesSpec(old(matches), old(nextMatchId), reqs);
    }
  }
}
