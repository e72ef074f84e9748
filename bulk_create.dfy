// Creating matches in bulk, `POST /matches` (server.js:684-721): for each
// requested pairing, insert a match unless one on the same two teams, in
// either order, already exists in that event; answer with the inserted rows.
// The source runs the requests concurrently; here they run one after another.

module BulkCreate {
  import opened Tables
  import opened Aggregate

  /** One element of the request body. */
  datatype MatchRequest = MatchRequest(event: int, team1: int, team2: int)

  /** The existence check of server.js:693-701: same event, same unordered pair. */
  predicate SamePair(m: Match, e: int, a: int, b: int) {
    m.event == e && ((m.team1 == a && m.team2 == b) || (m.team1 == b && m.team2 == a))
  }

  predicate PairExists(ms: seq<Match>, e: int, a: int, b: int) {
    exists i :: 0 <= i < |ms| && SamePair(ms[i], e, a, b)
  }

  /** The row the INSERT of server.js:704-707 creates: everything but the
      event and the two teams is left to the column defaults (no result, no
      date, flags false). */
  function NewMatch(id: int, r: MatchRequest): Match {
    Match(id, r.event, r.team1, r.team2, None, None, false, None, None, None, false, false)
  }

  /** The table, the serial counter and the rows inserted so far. */
  datatype Batch = Batch(matches: seq<Match>, nextId: int, inserted: seq<Match>)

  /** One request: skip it when its pair exists, else insert it. */
  function Step(b: Batch, r: MatchRequest): Batch {
    if PairExists(b.matches, r.event, r.team1, r.team2) then b
    else
      var m := NewMatch(b.nextId, r);
      Batch(b.matches + [m], b.nextId + 1, b.inserted + [m])
  }

  function CreateAll(b: Batch, reqs: seq<MatchRequest>): Batch
    decreases |reqs|
  {
    if reqs == [] then b else CreateAll(Step(b, reqs[0]), reqs[1..])
  }

  /** No two matches of one event are on the same unordered pair. */
  predicate NoRepeatedPairs(ms: seq<Match>) {
    forall i, j :: 0 <= i < j < |ms| ==> !SamePair(ms[j], ms[i].event, ms[i].team1, ms[i].team2)
  }

  /** What holds of a batch that started on table ms with counter next and
      the requests R: the table is ms followed by the inserted rows, which are
      fresh rows for requests of R with consecutive ids, each inserted only
      when no match on its pair was in the table at that moment. */
  ghost predicate BatchFrom(b: Batch, ms: seq<Match>, next: int, rs: seq<MatchRequest>) {
    && b.matches == ms + b.inserted
    && b.nextId == next + |b.inserted|
    && (forall j :: 0 <= j < |b.inserted| ==>
          b.inserted[j].id == next + j
          && (exists q :: q in rs && b.inserted[j] == NewMatch(next + j, q)))
    && (forall j :: 0 <= j < |b.inserted| ==>
          !PairExists(ms + b.inserted[..j], b.inserted[j].event, b.inserted[j].team1, b.inserted[j].team2))
  }

  lemma {:induction false} CreateAllFrom(b: Batch, reqs: seq<MatchRequest>, ms: seq<Match>, next: int, rs: seq<MatchRequest>)
    requires BatchFrom(b, ms, next, rs)
    requires forall q :: q in reqs ==> q in rs
    ensures var r := CreateAll(b, reqs);
      && BatchFrom(r, ms, next, rs)
      && b.inserted <= r.inserted
      && |r.inserted| <= |b.inserted| + |reqs|
    decreases |reqs|
  {
    if reqs != [] {
      var q := reqs[0];
      var b' := Step(b, q);
      if !PairExists(b.matches, q.event, q.team1, q.team2) {
        var m := NewMatch(b.nextId, q);
        assert b'.inserted[..|b.inserted|] == b.inserted;
        forall j | 0 <= j < |b'.inserted|
          ensures b'.inserted[j].id == next + j && (exists q' :: q' in rs && b'.inserted[j] == NewMatch(next + j, q'))
          ensures !PairExists(ms + b'.inserted[..j], b'.inserted[j].event, b'.inserted[j].team1, b'.inserted[j].team2)
        {
          if j < |b.inserted| {
            assert b'.inserted[j] == b.inserted[j];
            assert b'.inserted[..j] == b.inserted[..j];
          } else {
            assert b'.inserted[j] == m && b'.inserted[..j] == b.inserted;
            assert q in rs && m == NewMatch(next + j, q);
          }
        }
      }
      CreateAllFrom(b', reqs[1..], ms, next, rs);
    }
  }

  /** Later requests only append rows. */
  lemma {:induction false} CreateAllExtends(b: Batch, reqs: seq<MatchRequest>)
    ensures b.matches <= CreateAll(b, reqs).matches
    decreases |reqs|
  {
    if reqs != [] {
      CreateAllExtends(Step(b, reqs[0]), reqs[1..]);
    }
  }

  /** Once a batch is done, every requested pair has a match in its event. */
  lemma {:induction false} CreateAllCovers(b: Batch, reqs: seq<MatchRequest>)
    ensures forall q :: q in reqs ==> PairExists(CreateAll(b, reqs).matches, q.event, q.team1, q.team2)
    decreases |reqs|
  {
    if reqs != [] {
      var q := reqs[0];
      var b' := Step(b, q);
      var r := CreateAll(b', reqs[1..]);
      assert PairExists(b'.matches, q.event, q.team1, q.team2) by {
        if !PairExists(b.matches, q.event, q.team1, q.team2) {
          assert SamePair(b'.matches[|b.matches|], q.event, q.team1, q.team2);
        }
      }
      CreateAllExtends(b', reqs[1..]);
      var i :| 0 <= i < |b'.matches| && SamePair(b'.matches[i], q.event, q.team1, q.team2);
      assert r.matches[i] == b'.matches[i];
      CreateAllCovers(b', reqs[1..]);
      forall q' | q' in reqs ensures PairExists(r.matches, q'.event, q'.team1, q'.team2) {
        if q' != q {
          assert q' in reqs[1..];
        }
      }
    }
  }

  /** A bulk creation on table ms with serial counter next: the table becomes
      ms followed by exactly the returned rows; each returned row is a fresh
      match for one of the requests, with the next id in turn, and was
      inserted only because no match on its pair existed in its event at that
      moment; afterwards every requested pair has a match. */
  lemma CreateMatchesSpec(ms: seq<Match>, next: int, reqs: seq<MatchRequest>)
    ensures var r := CreateAll(Batch(ms, next, []), reqs);
      && r.matches == ms + r.inserted
      && r.nextId == next + |r.inserted|
      && |r.inserted| <= |reqs|
      && (forall j :: 0 <= j < |r.inserted| ==>
            exists q :: q in reqs && r.inserted[j] == NewMatch(next + j, q))
      && (forall j :: 0 <= j < |r.inserted| ==>
            !PairExists(ms + r.inserted[..j], r.inserted[j].event, r.inserted[j].team1, r.inserted[j].team2))
      && (forall q :: q in reqs ==> PairExists(r.matches, q.event, q.team1, q.team2))
  {
    assert ms + [] == ms;
    CreateAllFrom(Batch(ms, next, []), reqs, ms, next, reqs);
    CreateAllCovers(Batch(ms, next, []), reqs);
  }

  /** A table without repeated pairs keeps none after a bulk creation. */
  lemma {:induction false} CreateKeepsPairsUnique(b: Batch, reqs: seq<MatchRequest>)
    requires NoRepeatedPairs(b.matches)
    ensures NoRepeatedPairs(CreateAll(b, reqs).matches)
    decreases |reqs|
  {
    if reqs != [] {
      var q := reqs[0];
      var b' := Step(b, q);
      if !PairExists(b.matches, q.event, q.team1, q.team2) {
        var n := |b.matches|;
        forall i, j | 0 <= i < j < |b'.matches|
          ensures !SamePair(b'.matches[j], b'.matches[i].event, b'.matches[i].team1, b'.matches[i].team2)
        {
          if j == n {
            assert b'.matches[i] == b.matches[i];
            assert !SamePair(b.matches[i], q.event, q.team1, q.team2);
          } else {
            assert b'.matches[i] == b.matches[i] && b'.matches[j] == b.matches[j];
          }
        }
      }
      CreateKeepsPairsUnique(b', reqs[1..]);
    }
  }

  /** Bulk creation keeps match ids distinct and below the serial counter. */
  lemma CreateKeepsIds(ms: seq<Match>, next: int, reqs: seq<MatchRequest>)
    requires DistinctIds(ms) && IdsBelow(ms, next)
    ensures var r := CreateAll(Batch(ms, next, []), reqs);
      DistinctIds(r.matches) && IdsBelow(r.matches, r.nextId)
  {
    var r := CreateAll(Batch(ms, next, []), reqs);
    CreateMatchesSpec(ms, next, reqs);
    forall i | 0 <= i < |r.matches| ensures r.matches[i].id < r.nextId
      ensures i >= |ms| ==> r.matches[i].id == next + (i - |ms|)
    {
      if i >= |ms| {
        assert r.matches[i] == r.inserted[i - |ms|];
      }
    }
  }

  /** New matches carry no result: every team keeps its sets won, finished
      matches, wins and matches before the midpoint, and gains one match (one
      that still counts) per inserted match it plays in the event. */
  lemma CreateKeepsResults(ms: seq<Match>, next: int, reqs: seq<MatchRequest>, e: int, t: int)
    ensures var r := CreateAll(Batch(ms, next, []), reqs);
      && SetsWon(r.matches, e, t) == SetsWon(ms, e, t)
      && Count(r.matches, e, t, Played) == Count(ms, e, t, Played)
      && Count(r.matches, e, t, CompletedNotWithdrawn) == Count(ms, e, t, CompletedNotWithdrawn)
      && Count(r.matches, e, t, Won) == Count(ms, e, t, Won)
      && Count(r.matches, e, t, BeforeMidpoint) == Count(ms, e, t, BeforeMidpoint)
      && Count(r.matches, e, t, AllMatches) == Count(ms, e, t, AllMatches) + Count(r.inserted, e, t, AllMatches)
      && Count(r.matches, e, t, NotWithdrawn) == Count(ms, e, t, NotWithdrawn) + Count(r.inserted, e, t, AllMatches)
  {
    var r := CreateAll(Batch(ms, next, []), reqs);
    CreateMatchesSpec(ms, next, reqs);
    forall j | 0 <= j < |r.inserted|
      ensures r.inserted[j].team1Sets.None? && r.inserted[j].team2Sets.None?
      ensures !r.inserted[j].finished && r.inserted[j].winner.None?
      ensures !r.inserted[j].byMidpoint && !r.inserted[j].withdrawal
    {
      var q :| q in reqs && r.inserted[j] == NewMatch(next + j, q);
    }
    SetsWonNone(r.inserted, e, t);
    CountNone(r.inserted, e, t, Played);
    CountNone(r.inserted, e, t, CompletedNotWithdrawn);
    CountNone(r.inserted, e, t, Won);
    CountNone(r.inserted, e, t, BeforeMidpoint);
    SetsWonConcat(ms, r.inserted, e, t);
    CountConcat(ms, r.inserted, e, t, Played);
    CountConcat(ms, r.inserted, e, t, CompletedNotWithdrawn);
    CountConcat(ms, r.inserted, e, t, Won);
    CountConcat(ms, r.inserted, e, t, BeforeMidpoint);
    CountConcat(ms, r.inserted, e, t, AllMatches);
    CountConcat(ms, r.inserted, e, t, NotWithdrawn);
    NotWithdrawnIsAll(r.inserted, e, t);
  }

  /** Over matches none of which is withdrawn, every match still counts. */
  lemma {:induction false} NotWithdrawnIsAll(ms: seq<Match>, e: int, t: int)
    requires forall i :: 0 <= i < |ms| ==> !ms[i].withdrawal
    ensures Count(ms, e, t, NotWithdrawn) == Count(ms, e, t, AllMatches)
  {
    if ms != [] {
      NotWithdrawnIsAll(ms[..|ms| - 1], e, t);
    }
  }
}
