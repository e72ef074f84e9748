// How the operations combine: a withdrawal followed by the standings
// recomputation that the next view of the event runs.

module Interplay {
  import opened Tables
  import opened Aggregate
  import opened Standings
  import opened Withdrawal

  /** After team tid withdraws from event id, the next recomputation of id
      gives it no set points and a total of its earlier bonuses; its all
      bonus becomes 0 as soon as it has a match in the event; and its mid
      bonus is decided by the same matches before the midpoint as before the
      withdrawal, so a bonus already earned is kept. */
  lemma WithdrawThenStandings(et: map<Key, EventTeam>, ms: seq<Match>, events: map<int, Event>,
                              leagues: map<int, League>, id: int, tid: int)
    requires (id, tid) in et && Listed(events, leagues, id)
    ensures var ms1, et1 := WithdrawnMatches(ms, et, tid), MarkWithdrawn(et, id, tid);
      var s := StandingsAsWritten(et1, ms1, events, leagues, id);
      && (id, tid) in s
      && s[(id, tid)].withdrawn
      && s[(id, tid)].setPoints == 0
      && s[(id, tid)].totalPoints == et[(id, tid)].midBonus + et[(id, tid)].allBonus
      && s[(id, tid)].allBonus == (if Count(ms, id, tid, AllMatches) > 0 then 0 else et[(id, tid)].allBonus)
      && s[(id, tid)].midBonus == (if Count(ms, id, tid, BeforeMidpoint) >= events[id].midwayMatches then 2
                                   else et[(id, tid)].midBonus)
  {
    var ms1, et1 := WithdrawnMatches(ms, et, tid), MarkWithdrawn(et, id, tid);
    WithdrawnFigures(ms, et, tid, id);
    MarkWithdrawnEffect(et, id, tid);
    StandingsAt(et1, ms1, events, leagues, id, (id, tid));
  }
}
