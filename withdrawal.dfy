// Withdrawing a team from an event, `PUT /events/:id/teams/:tid`
// (server.js:594-622): one UPDATE on `matches`, then one on `event_teams`.

module Withdrawal {
  import opened Tables
  import opened Aggregate

  /** The UPDATE's join condition (server.js:599-607): the match involves tid
      and tid is enrolled in the match's event.  The event in the URL plays no
      part in it. */
  predicate AffectedAsWritten(m: Match, et: map<Key, EventTeam>, tid: int) {
    Involves(m, tid) && (m.event, tid) in et
  }

  /** Both set counts 0 and the withdrawal flag set. */
  function Zeroed(m: Match): Match {
    m.(team1Sets := Some(0), team2Sets := Some(0), withdrawal := true)
  }

  /** The `matches` table after the first UPDATE. */
  function WithdrawnMatches(ms: seq<Match>, et: map<Key, EventTeam>, tid: int): seq<Match> {
    seq(|ms|, i requires 0 <= i < |ms| => if AffectedAsWritten(ms[i], et, tid) then Zeroed(ms[i]) else ms[i])
  }

  /** The `event_teams` table after the second UPDATE (server.js:609-615). */
  function MarkWithdrawn(et: map<Key, EventTeam>, id: int, tid: int): map<Key, EventTeam> {
    if (id, tid) in et then et[(id, tid) := et[(id, tid)].(withdrawn := true)] else et
  }

  /** Every match of an event tid is enrolled in, where tid plays, ends with
      no sets on either side and the withdrawal flag; every other match is
      unchanged, whether tid does not play in it or tid has no `event_teams`
      row for its event (a removed enrolment leaves its matches behind); no
      match changes its id, event, teams, result or midpoint flag. */
  lemma WithdrawnMatchesEffect(ms: seq<Match>, et: map<Key, EventTeam>, tid: int)
    ensures var r := WithdrawnMatches(ms, et, tid);
      && |r| == |ms|
      && (forall i :: 0 <= i < |ms| && Involves(ms[i], tid) && (ms[i].event, tid) in et ==>
            r[i].team1Sets == Some(0) && r[i].team2Sets == Some(0) && r[i].withdrawal)
      && (forall i :: 0 <= i < |ms| && !Involves(ms[i], tid) ==> r[i] == ms[i])
      && (forall i :: 0 <= i < |ms| && (ms[i].event, tid) !in et ==> r[i] == ms[i])
      && (forall i :: 0 <= i < |ms| ==>
            r[i] == ms[i].(team1Sets := r[i].team1Sets, team2Sets := r[i].team2Sets, withdrawal := r[i].withdrawal))
  {
  }

  /** Only the (id, tid) row changes, and only its withdrawn flag. */
  lemma MarkWithdrawnEffect(et: map<Key, EventTeam>, id: int, tid: int)
    ensures var r := MarkWithdrawn(et, id, tid);
      && r.Keys == et.Keys
      && ((id, tid) in et ==> r[(id, tid)] == et[(id, tid)].(withdrawn := true))
      && (forall k :: k in et && k != (id, tid) ==> r[k] == et[k])
  {
  }

  /** Withdrawing the same team twice leaves the tables as withdrawing it once. */
  lemma WithdrawTwiceIsOnce(ms: seq<Match>, et: map<Key, EventTeam>, id: int, tid: int)
    ensures var ms1, et1 := WithdrawnMatches(ms, et, tid), MarkWithdrawn(et, id, tid);
      WithdrawnMatches(ms1, et1, tid) == ms1 && MarkWithdrawn(et1, id, tid) == et1
  {
    var ms1, et1 := WithdrawnMatches(ms, et, tid), MarkWithdrawn(et, id, tid);
    assert et1.Keys == et.Keys;
    var ms2 := WithdrawnMatches(ms1, et1, tid);
    forall i | 0 <= i < |ms1| ensures ms2[i] == ms1[i] {
      assert AffectedAsWritten(ms1[i], et1, tid) == AffectedAsWritten(ms[i], et, tid);
    }
  }

  /** After the withdrawal, in every event tid is enrolled in, tid has won no
      sets and has no match that still counts, while its number of matches,
      finished matches, wins and matches before the midpoint are unchanged. */
  lemma {:induction false} WithdrawnFigures(ms: seq<Match>, et: map<Key, EventTeam>, tid: int, e: int)
    requires (e, tid) in et
    ensures var r := WithdrawnMatches(ms, et, tid);
      && SetsWon(r, e, tid) == 0
      && Count(r, e, tid, NotWithdrawn) == 0
      && Count(r, e, tid, CompletedNotWithdrawn) == 0
      && Count(r, e, tid, AllMatches) == Count(ms, e, tid, AllMatches)
      && Count(r, e, tid, Played) == Count(ms, e, tid, Played)
      && Count(r, e, tid, Won) == Count(ms, e, tid, Won)
      && Count(r, e, tid, BeforeMidpoint) == Count(ms, e, tid, BeforeMidpoint)
  {
    var r := WithdrawnMatches(ms, et, tid);
    SetsWonNone(r, e, tid);
    CountNone(r, e, tid, NotWithdrawn);
    CountNone(r, e, tid, CompletedNotWithdrawn);
    CountSame(ms, r, e, tid, AllMatches);
    CountSame(ms, r, e, tid, Played);
    CountSame(ms, r, e, tid, Won);
    CountSame(ms, r, e, tid, BeforeMidpoint);
  }

  /** For every team and event, the withdrawal keeps the number of matches and
      of matches before the midpoint: it never takes away progress toward the
      mid bonus. */
  lemma {:induction false} WithdrawKeepsSchedule(ms: seq<Match>, et: map<Key, EventTeam>, tid: int, e: int, t: int)
    ensures var r := WithdrawnMatches(ms, et, tid);
      && Count(r, e, t, AllMatches) == Count(ms, e, t, AllMatches)
      && Count(r, e, t, BeforeMidpoint) == Count(ms, e, t, BeforeMidpoint)
  {
    var r := WithdrawnMatches(ms, et, tid);
    CountSame(ms, r, e, t, AllMatches);
    CountSame(ms, r, e, t, BeforeMidpoint);
  }

  // The match UPDATE is not restricted to the event in the URL: a team
  // enrolled in several events loses its sets in all of them.

  /** A concrete case: team 10 is enrolled in events 1 and 2 and won 2-1 in
      event 2.  Withdrawing it from event 1 zeroes that event-2 match, which
      the withdrawal restricted to event 1 leaves alone. */
  lemma WithdrawReachesOtherEvents()
    ensures var et := map[(1, 10) := Enrolled, (2, 10) := Enrolled, (2, 20) := Enrolled];
      var ms := [Match(7, 2, 10, 20, Some(2), Some(1), true, Some(10), Some(6), Some(100), false, false)];
      && WithdrawnMatches(ms, et, 10)[0] == Zeroed(ms[0])
      && WithdrawnMatches(ms, et, 10) != ms
      && WithdrawnMatchesInEvent(ms, 1, 10) == ms
  {
    var et := map[(1, 10) := Enrolled, (2, 10) := Enrolled, (2, 20) := Enrolled];
    var ms := [Match(7, 2, 10, 20, Some(2), Some(1), true, Some(10), Some(6), Some(100), false, false)];
    assert AffectedAsWritten(ms[0], et, 10);
    assert WithdrawnMatches(ms, et, 10)[0].team1Sets != ms[0].team1Sets;
  }

  /** The withdrawal as evidently intended: only matches of event id. */
  function WithdrawnMatchesInEvent(ms: seq<Match>, id: int, tid: int): seq<Match> {
    seq(|ms|, i requires 0 <= i < |ms| =>
      if ms[i].event == id && Involves(ms[i], tid) then Zeroed(ms[i]) else ms[i])
  }

  /** The intended withdrawal zeroes exactly tid's matches in event id, and
      agrees with the source whenever id is the only event tid is enrolled in. */
  lemma WithdrawInEventStaysInEvent(ms: seq<Match>, et: map<Key, EventTeam>, id: int, tid: int)
    ensures var r := WithdrawnMatchesInEvent(ms, id, tid);
      && |r| == |ms|
      && (forall i :: 0 <= i < |ms| && ms[i].event == id && Involves(ms[i], tid) ==> r[i] == Zeroed(ms[i]))
      && (forall i :: 0 <= i < |ms| && (ms[i].event != id || !Involves(ms[i], tid)) ==> r[i] == ms[i])
      && ((id, tid) in et && (forall k :: k in et && k.1 == tid ==> k.0 == id) ==>
            r == WithdrawnMatches(ms, et, tid))
  {
    var r := WithdrawnMatchesInEvent(ms, id, tid);
    if (id, tid) in et && (forall k :: k in et && k.1 == tid ==> k.0 == id) {
      forall i | 0 <= i < |ms| ensures r[i] == WithdrawnMatches(ms, et, tid)[i] {
        assert AffectedAsWritten(ms[i], et, tid) <==> ms[i].event == id && Involves(ms[i], tid) by {
          if AffectedAsWritten(ms[i], et, tid) {
            assert (ms[i].event, tid).1 == tid;
          }
        }
      }
    }
  }
}
