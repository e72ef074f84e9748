// The standings recomputation of `GET /events/:id/teams` (server.js:423-551):
// one snapshot query, then four passes over its rows, each writing one
// column of `event_teams`: set points, total points, mid bonus, all bonus.

module Standings {
  import opened Tables
  import opened Aggregate

  /** One row of the snapshot: the stored `event_teams` columns, the event's
      `midway_matches` and the aggregate's figures for the team. */
  datatype Row = Row(stored: EventTeam, midwayMatches: int, figures: Figures)

  /** The query joins `events` and `leagues` with inner joins: it returns no
      row for an event that is missing or whose league is missing. */
  predicate Listed(events: map<int, Event>, leagues: map<int, League>, e: int) {
    e in events && events[e].league in leagues
  }

  /** The snapshot read at server.js:471, one row per enrolled team, keyed by
      the (event, team) key of its `event_teams` row. */
  function Snapshot(et: map<Key, EventTeam>, ms: seq<Match>, events: map<int, Event>,
                    leagues: map<int, League>, e: int): (rows: map<Key, Row>)
    ensures rows.Keys <= et.Keys
  {
    if Listed(events, leagues, e) then
      map k | k in et && k.0 == e :: Row(et[k], events[e].midwayMatches, FiguresOf(ms, e, k.1))
    else map[]
  }

  /** The four loops of the handler, in the order they run. */
  datatype Pass = SetPointsPass | TotalPointsPass | MidBonusPass | AllBonusPass

  /** The mid-bonus test of server.js:513. */
  predicate MidBonusEarned(row: Row) {
    row.figures.beforeMidpoint >= row.midwayMatches
  }

  /** The filter of server.js:524-528.  The source compares the two COUNT
      columns as the strings the database driver returns, so its `>=` is
      lexicographic ("10" >= "9" is false); integer order is modelled here. */
  predicate AllBonusEligible(fig: Figures) {
    fig.totalMatches > 0 && fig.completedNotWithdrawn >= fig.notWithdrawnTotal
  }

  /** What one pass writes into one `event_teams` row: `cur` is the row as the
      table holds it now, `row` the snapshot's row for the same team. */
  function PassRow(p: Pass, cur: EventTeam, row: Row): EventTeam {
    match p
    case SetPointsPass => cur.(setPoints := 2 * row.figures.setsWon)
    case TotalPointsPass =>
      cur.(totalPoints := 2 * row.figures.setsWon + row.stored.midBonus + row.stored.allBonus)
    case MidBonusPass => if MidBonusEarned(row) then cur.(midBonus := 2) else cur
    case AllBonusPass =>
      if AllBonusEligible(row.figures) then cur.(allBonus := if row.stored.withdrawn then 0 else 1)
      else cur
  }

  /** The table once a pass has visited the snapshot rows in `done`. */
  function ApplyPass(et: map<Key, EventTeam>, rows: map<Key, Row>, done: set<Key>, p: Pass): map<Key, EventTeam> {
    map k | k in et :: if k in rows && k in done then PassRow(p, et[k], rows[k]) else et[k]
  }

  /** The table after the handler: the four passes, in source order, over one snapshot. */
  function StandingsAsWritten(et: map<Key, EventTeam>, ms: seq<Match>, events: map<int, Event>,
                              leagues: map<int, League>, e: int): map<Key, EventTeam> {
    var rows := Snapshot(et, ms, events, leagues, e);
    var afterSets := ApplyPass(et, rows, rows.Keys, SetPointsPass);
    var afterTotals := ApplyPass(afterSets, rows, rows.Keys, TotalPointsPass);
    var afterMid := ApplyPass(afterTotals, rows, rows.Keys, MidBonusPass);
    ApplyPass(afterMid, rows, rows.Keys, AllBonusPass)
  }

  /** The four passes' combined effect on one row. */
  function AsWrittenRow(cur: EventTeam, row: Row): EventTeam {
    PassRow(AllBonusPass, PassRow(MidBonusPass, PassRow(TotalPointsPass, PassRow(SetPointsPass, cur, row), row), row), row)
  }

  /** Each row of the result is the row the four passes make of it, or untouched. */
  lemma StandingsAt(et: map<Key, EventTeam>, ms: seq<Match>, events: map<int, Event>,
                    leagues: map<int, League>, e: int, k: Key)
    requires k in et
    ensures var s := StandingsAsWritten(et, ms, events, leagues, e);
      && k in s
      && s[k] == if Listed(events, leagues, e) && k.0 == e
                 then AsWrittenRow(et[k], Row(et[k], events[e].midwayMatches, FiguresOf(ms, e, k.1)))
                 else et[k]
  {
  }

  /** The recomputation writes only `event_teams` rows of the requested event,
      keeps every row's key, challenger bonus and withdrawn flag, and changes
      nothing when the event or its league is missing. */
  lemma StandingsFrame(et: map<Key, EventTeam>, ms: seq<Match>, events: map<int, Event>,
                       leagues: map<int, League>, e: int)
    ensures var s := StandingsAsWritten(et, ms, events, leagues, e);
      && s.Keys == et.Keys
      && (forall k :: k in et && k.0 != e ==> s[k] == et[k])
      && (!Listed(events, leagues, e) ==> s == et)
      && (forall k :: k in et ==> s[k].challengerBonus == et[k].challengerBonus && s[k].withdrawn == et[k].withdrawn)
  {
    var s := StandingsAsWritten(et, ms, events, leagues, e);
    forall k | k in et
      ensures k in s && (k.0 != e || !Listed(events, leagues, e) ==> s[k] == et[k])
      ensures s[k].challengerBonus == et[k].challengerBonus && s[k].withdrawn == et[k].withdrawn
    {
      StandingsAt(et, ms, events, leagues, e, k);
    }
  }

  /** Set points become twice the team's sets won in the event. */
  lemma SetPointsAfterStandings(et: map<Key, EventTeam>, ms: seq<Match>, events: map<int, Event>,
                                leagues: map<int, League>, e: int, t: int)
    requires (e, t) in et && Listed(events, leagues, e)
    ensures var s := StandingsAsWritten(et, ms, events, leagues, e);
      (e, t) in s && s[(e, t)].setPoints == 2 * SetsWon(ms, e, t)
  {
    StandingsAt(et, ms, events, leagues, e, (e, t));
  }

  /** Total points become twice the sets won plus the mid and all bonuses as
      they stood BEFORE this recomputation; the challenger bonus is not added. */
  lemma TotalPointsAfterStandings(et: map<Key, EventTeam>, ms: seq<Match>, events: map<int, Event>,
                                  leagues: map<int, League>, e: int, t: int)
    requires (e, t) in et && Listed(events, leagues, e)
    ensures var s := StandingsAsWritten(et, ms, events, leagues, e);
      && (e, t) in s
      && s[(e, t)].totalPoints == 2 * SetsWon(ms, e, t) + et[(e, t)].midBonus + et[(e, t)].allBonus
      && s[(e, t)].totalPoints == s[(e, t)].setPoints + et[(e, t)].midBonus + et[(e, t)].allBonus
  {
    StandingsAt(et, ms, events, leagues, e, (e, t));
  }

  /** The mid bonus becomes 2 exactly when the team's matches before the
      midpoint reach the event's threshold; otherwise it is left as stored.
      So a stored bonus of at most 2 is never lowered. */
  lemma MidBonusAfterStandings(et: map<Key, EventTeam>, ms: seq<Match>, events: map<int, Event>,
                               leagues: map<int, League>, e: int, t: int)
    requires (e, t) in et && Listed(events, leagues, e)
    ensures var s := StandingsAsWritten(et, ms, events, leagues, e);
      && (e, t) in s
      && s[(e, t)].midBonus == (if Count(ms, e, t, BeforeMidpoint) >= events[e].midwayMatches then 2
                                else et[(e, t)].midBonus)
      && (et[(e, t)].midBonus <= 2 ==> s[(e, t)].midBonus >= et[(e, t)].midBonus)
  {
    StandingsAt(et, ms, events, leagues, e, (e, t));
  }

  /** The all bonus is written only for a team with at least one match that
      has finished every match not voided by a withdrawal: 0 when the team has
      withdrawn, 1 otherwise.  Every other team's all bonus is unchanged. */
  lemma AllBonusAfterStandings(et: map<Key, EventTeam>, ms: seq<Match>, events: map<int, Event>,
                               leagues: map<int, League>, e: int, t: int)
    requires (e, t) in et && Listed(events, leagues, e)
    ensures var s := StandingsAsWritten(et, ms, events, leagues, e);
      && (e, t) in s
      && s[(e, t)].allBonus ==
           if Count(ms, e, t, AllMatches) > 0
              && Count(ms, e, t, CompletedNotWithdrawn) >= Count(ms, e, t, NotWithdrawn)
           then (if et[(e, t)].withdrawn then 0 else 1)
           else et[(e, t)].allBonus
  {
    StandingsAt(et, ms, events, leagues, e, (e, t));
  }

  /** An enrolled team with no match in the event gets 0 set points, a total
      of its previous bonuses, and an unchanged all bonus. */
  lemma {:induction false} StandingsNoMatches(et: map<Key, EventTeam>, ms: seq<Match>, events: map<int, Event>,
                                              leagues: map<int, League>, e: int, t: int)
    requires (e, t) in et && Listed(events, leagues, e)
    requires forall i :: 0 <= i < |ms| ==> !(ms[i].event == e && Involves(ms[i], t))
    ensures var s := StandingsAsWritten(et, ms, events, leagues, e);
      && (e, t) in s
      && s[(e, t)].setPoints == 0
      && s[(e, t)].totalPoints == et[(e, t)].midBonus + et[(e, t)].allBonus
      && s[(e, t)].allBonus == et[(e, t)].allBonus
      && s[(e, t)].midBonus == (if events[e].midwayMatches <= 0 then 2 else et[(e, t)].midBonus)
  {
    SetsWonNone(ms, e, t);
    CountNone(ms, e, t, AllMatches);
    CountNone(ms, e, t, BeforeMidpoint);
    StandingsAt(et, ms, events, leagues, e, (e, t));
  }

  /** Every mid bonus is 0 or 2 and every all bonus 0 or 1. */
  predicate BonusesInRange(et: map<Key, EventTeam>) {
    forall k :: k in et ==>
      (et[k].midBonus == 0 || et[k].midBonus == 2) && (et[k].allBonus == 0 || et[k].allBonus == 1)
  }

  /** The recomputation writes only these values, so it keeps the bonuses in range. */
  lemma StandingsKeepBonusesInRange(et: map<Key, EventTeam>, ms: seq<Match>, events: map<int, Event>,
                                    leagues: map<int, League>, e: int)
    requires BonusesInRange(et)
    ensures BonusesInRange(StandingsAsWritten(et, ms, events, leagues, e))
  {
    var s := StandingsAsWritten(et, ms, events, leagues, e);
    StandingsFrame(et, ms, events, leagues, e);
    forall k | k in s
      ensures (s[k].midBonus == 0 || s[k].midBonus == 2) && (s[k].allBonus == 0 || s[k].allBonus == 1)
    {
      StandingsAt(et, ms, events, leagues, e, k);
    }
  }

  /** On one row: the second recomputation settles the total, the third changes nothing. */
  lemma AsWrittenRowSettles(cur: EventTeam, midway: int, fig: Figures)
    ensures var r1 := AsWrittenRow(cur, Row(cur, midway, fig));
      var r2 := AsWrittenRow(r1, Row(r1, midway, fig));
      && AsWrittenRow(r2, Row(r2, midway, fig)) == r2
      && r2.totalPoints == r2.setPoints + r2.midBonus + r2.allBonus
  {
  }

  /** Because the total is taken from the bonuses before they are updated, a
      second recomputation can change it; a third changes nothing, and after
      the second every total of the event equals set points plus both bonuses. */
  lemma StandingsSettleAfterTwoPasses(et: map<Key, EventTeam>, ms: seq<Match>, events: map<int, Event>,
                                      leagues: map<int, League>, e: int)
    ensures var s2 := StandingsAsWritten(StandingsAsWritten(et, ms, events, leagues, e), ms, events, leagues, e);
      && StandingsAsWritten(s2, ms, events, leagues, e) == s2
      && forall k :: k in s2 && k.0 == e && Listed(events, leagues, e) ==>
           s2[k].totalPoints == s2[k].setPoints + s2[k].midBonus + s2[k].allBonus
  {
    var s1 := StandingsAsWritten(et, ms, events, leagues, e);
    var s2 := StandingsAsWritten(s1, ms, events, leagues, e);
    var s3 := StandingsAsWritten(s2, ms, events, leagues, e);
    StandingsFrame(et, ms, events, leagues, e);
    StandingsFrame(s1, ms, events, leagues, e);
    StandingsFrame(s2, ms, events, leagues, e);
    forall k | k in et
      ensures s3[k] == s2[k]
      ensures k.0 == e && Listed(events, leagues, e) ==>
        s2[k].totalPoints == s2[k].setPoints + s2[k].midBonus + s2[k].allBonus
    {
      StandingsAt(et, ms, events, leagues, e, k);
      StandingsAt(s1, ms, events, leagues, e, k);
      StandingsAt(s2, ms, events, leagues, e, k);
      if Listed(events, leagues, e) && k.0 == e {
        AsWrittenRowSettles(et[k], events[e].midwayMatches, FiguresOf(ms, e, k.1));
      }
    }
  }

  /** A concrete case where two successive recomputations with nothing in
      between write different totals: event 1 (threshold 1) whose one team 10
      won its only match 2-0 before the midpoint.  The first pass writes total
      4 with mid bonus 2 and all bonus 1, the second writes total 7. */
  lemma StandingsAsWrittenNotIdempotent()
    ensures var et := map[(1, 10) := Enrolled];
      var ms := [Match(1, 1, 10, 20, Some(2), Some(0), true, Some(10), Some(6), Some(100), true, false)];
      var events := map[1 := Event(5, 1)];
      var leagues := map[5 := League(200)];
      var s1 := StandingsAsWritten(et, ms, events, leagues, 1);
      var s2 := StandingsAsWritten(s1, ms, events, leagues, 1);
      && s1[(1, 10)] == EventTeam(4, 2, 1, 4, 0, false)
      && s2[(1, 10)] == EventTeam(4, 2, 1, 7, 0, false)
      && s2 != s1
  {
    var et := map[(1, 10) := Enrolled];
    var ms := [Match(1, 1, 10, 20, Some(2), Some(0), true, Some(10), Some(6), Some(100), true, false)];
    var events := map[1 := Event(5, 1)];
    var leagues := map[5 := League(200)];
    var s1 := StandingsAsWritten(et, ms, events, leagues, 1);
    var fig := FiguresOf(ms, 1, 10);
    assert ms[..0] == [];
    assert fig == Figures(1, 1, 1, 1, 1, 1, 2);
    StandingsAt(et, ms, events, leagues, 1, (1, 10));
    StandingsFrame(et, ms, events, leagues, 1);
    StandingsAt(s1, ms, events, leagues, 1, (1, 10));
  }

  /** The recomputation as evidently intended: the total is taken from the
      bonuses this same recomputation writes. */
  function IntendedRow(cur: EventTeam, row: Row): EventTeam {
    var mid := if MidBonusEarned(row) then 2 else cur.midBonus;
    var all := if AllBonusEligible(row.figures) then (if cur.withdrawn then 0 else 1) else cur.allBonus;
    cur.(setPoints := 2 * row.figures.setsWon, midBonus := mid, allBonus := all,
         totalPoints := 2 * row.figures.setsWon + mid + all)
  }

  function StandingsIntended(et: map<Key, EventTeam>, ms: seq<Match>, events: map<int, Event>,
                             leagues: map<int, League>, e: int): map<Key, EventTeam> {
    var rows := Snapshot(et, ms, events, leagues, e);
    map k | k in et :: if k in rows then IntendedRow(et[k], rows[k]) else et[k]
  }

  /** The intended recomputation differs from the source only in the totals,
      every total it writes is set points plus both bonuses, and running it
      twice is running it once. */
  lemma StandingsIntendedIdempotent(et: map<Key, EventTeam>, ms: seq<Match>, events: map<int, Event>,
                                    leagues: map<int, League>, e: int)
    ensures var s := StandingsIntended(et, ms, events, leagues, e);
      && StandingsIntended(s, ms, events, leagues, e) == s
      && s.Keys == et.Keys
      && (forall k :: k in s && k.0 == e && Listed(events, leagues, e) ==>
            s[k].totalPoints == s[k].setPoints + s[k].midBonus + s[k].allBonus)
      && (forall k :: k in s ==>
            s[k] == StandingsAsWritten(et, ms, events, leagues, e)[k].(totalPoints := s[k].totalPoints))
  {
    var s := StandingsIntended(et, ms, events, leagues, e);
    var s' := StandingsIntended(s, ms, events, leagues, e);
    forall k | k in et
      ensures k in s' && s'[k] == s[k]
      ensures s[k] == StandingsAsWritten(et, ms, events, leagues, e)[k].(totalPoints := s[k].totalPoints)
    {
      StandingsAt(et, ms, events, leagues, e, k);
    }
  }
}
