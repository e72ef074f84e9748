// The grouped aggregate of the standings query: for one team in one event,
// the seven figures computed over the matches the team plays in that event
// (server.js:440-450, the LEFT JOIN at 459-460).

module Aggregate {
  import opened Tables

  /** The CASE condition of each COUNT column. */
  datatype Filter = AllMatches | Played | NotWithdrawn | CompletedNotWithdrawn | Won | BeforeMidpoint

  predicate Selects(f: Filter, m: Match, t: int) {
    match f
    case AllMatches => true
    case Played => m.finished
    case NotWithdrawn => !m.withdrawal
    case CompletedNotWithdrawn => !m.withdrawal && m.finished
    case Won => m.winner == Some(t)
    case BeforeMidpoint => m.byMidpoint
  }

  /** The match is joined to team t of event e and passes the filter. */
  predicate Counted(f: Filter, m: Match, e: int, t: int) {
    m.event == e && Involves(m, t) && Selects(f, m, t)
  }

  /** Every match that passes f also passes g. */
  predicate Narrower(f: Filter, g: Filter) {
    f == g || g == AllMatches || (f == CompletedNotWithdrawn && (g == Played || g == NotWithdrawn))
  }

  /** How many of the team's matches in the event pass the filter. */
  function Count(ms: seq<Match>, e: int, t: int, f: Filter): (n: nat)
    ensures n <= |ms|
  {
    if ms == [] then 0
    else Count(ms[..|ms| - 1], e, t, f) + (if Counted(f, ms[|ms| - 1], e, t) then 1 else 0)
  }

  /** What one match adds to the team's `team_sets_won` in event e. */
  function Contribution(m: Match, e: int, t: int): int {
    if m.event == e then OwnSets(m, t) else 0
  }

  /** `team_sets_won`: the team's own set counts, summed over its matches in the event. */
  function SetsWon(ms: seq<Match>, e: int, t: int): int {
    if ms == [] then 0
    else SetsWon(ms[..|ms| - 1], e, t) + Contribution(ms[|ms| - 1], e, t)
  }

  /** The seven per-team columns of the aggregate. */
  datatype Figures = Figures(
    totalMatches: nat,
    playedMatches: nat,
    notWithdrawnTotal: nat,
    completedNotWithdrawn: nat,
    wins: nat,
    beforeMidpoint: nat,
    setsWon: int)

  function FiguresOf(ms: seq<Match>, e: int, t: int): Figures {
    Figures(
      Count(ms, e, t, AllMatches),
      Count(ms, e, t, Played),
      Count(ms, e, t, NotWithdrawn),
      Count(ms, e, t, CompletedNotWithdrawn),
      Count(ms, e, t, Won),
      Count(ms, e, t, BeforeMidpoint),
      SetsWon(ms, e, t))
  }

  /** The ids of the matches Count counts: the `COUNT(DISTINCT m.match_id)` of the query. */
  function SelectedIds(ms: seq<Match>, e: int, t: int, f: Filter): set<int> {
    set i | 0 <= i < |ms| && Counted(f, ms[i], e, t) :: ms[i].id
  }

  lemma CountAppend(ms: seq<Match>, m: Match, e: int, t: int, f: Filter)
    ensures Count(ms + [m], e, t, f) == Count(ms, e, t, f) + (if Counted(f, m, e, t) then 1 else 0)
  {
    assert (ms + [m])[..|ms|] == ms;
  }

  lemma SetsWonAppend(ms: seq<Match>, m: Match, e: int, t: int)
    ensures SetsWon(ms + [m], e, t) == SetsWon(ms, e, t) + Contribution(m, e, t)
  {
    assert (ms + [m])[..|ms|] == ms;
  }

  /** Counting over two lists one after the other. */
  lemma {:induction false} CountConcat(a: seq<Match>, b: seq<Match>, e: int, t: int, f: Filter)
    ensures Count(a + b, e, t, f) == Count(a, e, t, f) + Count(b, e, t, f)
  {
    if b != [] {
      var p, x := b[..|b| - 1], b[|b| - 1];
      CountConcat(a, p, e, t, f);
      assert a + b == (a + p) + [x];
      CountAppend(a + p, x, e, t, f);
    } else {
      assert a + b == a;
    }
  }

  lemma {:induction false} SetsWonConcat(a: seq<Match>, b: seq<Match>, e: int, t: int)
    ensures SetsWon(a + b, e, t) == SetsWon(a, e, t) + SetsWon(b, e, t)
  {
    if b != [] {
      var p, x := b[..|b| - 1], b[|b| - 1];
      SetsWonConcat(a, p, e, t);
      assert a + b == (a + p) + [x];
      SetsWonAppend(a + p, x, e, t);
    } else {
      assert a + b == a;
    }
  }

  /** Dropping the last match drops at most its id from the selected ids. */
  lemma SelectedIdsSnoc(ms: seq<Match>, e: int, t: int, f: Filter)
    requires ms != []
    ensures var p, x := ms[..|ms| - 1], ms[|ms| - 1];
      SelectedIds(ms, e, t, f) == SelectedIds(p, e, t, f) + (if Counted(f, x, e, t) then {x.id} else {})
  {
    var p, x := ms[..|ms| - 1], ms[|ms| - 1];
    var add := if Counted(f, x, e, t) then {x.id} else {};
    forall y | y in SelectedIds(ms, e, t, f) ensures y in SelectedIds(p, e, t, f) + add {
      var i :| 0 <= i < |ms| && Counted(f, ms[i], e, t) && ms[i].id == y;
      if i < |p| {
        assert p[i] == ms[i];
      }
    }
    forall y | y in SelectedIds(p, e, t, f) ensures y in SelectedIds(ms, e, t, f) {
      var i :| 0 <= i < |p| && Counted(f, p[i], e, t) && p[i].id == y;
      assert ms[i] == p[i];
    }
  }

  /** Counting over a match list is counting distinct match ids, because ids are distinct. */
  lemma {:induction false} CountIsDistinctIds(ms: seq<Match>, e: int, t: int, f: Filter)
    requires DistinctIds(ms)
    ensures Count(ms, e, t, f) == |SelectedIds(ms, e, t, f)|
  {
    if ms != [] {
      var p, x := ms[..|ms| - 1], ms[|ms| - 1];
      assert DistinctIds(p);
      CountIsDistinctIds(p, e, t, f);
      forall i | 0 <= i < |p| ensures p[i].id != x.id {
        assert p[i] == ms[i];
      }
      SelectedIdsSnoc(ms, e, t, f);
    }
  }

  /** A narrower filter never counts more. */
  lemma {:induction false} CountNarrower(ms: seq<Match>, e: int, t: int, f: Filter, g: Filter)
    requires Narrower(f, g)
    ensures Count(ms, e, t, f) <= Count(ms, e, t, g)
  {
    if ms != [] {
      CountNarrower(ms[..|ms| - 1], e, t, f, g);
    }
  }

  /** The aggregate's figures are consistent with one another. */
  lemma FiguresConsistent(ms: seq<Match>, e: int, t: int)
    ensures var fig := FiguresOf(ms, e, t);
      && fig.playedMatches <= fig.totalMatches
      && fig.completedNotWithdrawn <= fig.notWithdrawnTotal <= fig.totalMatches
      && fig.completedNotWithdrawn <= fig.playedMatches
      && fig.wins <= fig.totalMatches
      && fig.beforeMidpoint <= fig.totalMatches
  {
    CountNarrower(ms, e, t, Played, AllMatches);
    CountNarrower(ms, e, t, NotWithdrawn, AllMatches);
    CountNarrower(ms, e, t, CompletedNotWithdrawn, NotWithdrawn);
    CountNarrower(ms, e, t, CompletedNotWithdrawn, Played);
    CountNarrower(ms, e, t, Won, AllMatches);
    CountNarrower(ms, e, t, BeforeMidpoint, AllMatches);
  }

  /** Two match lists of one length that agree, match by match, on whether
      a match is counted have the same count. */
  lemma {:induction false} CountSame(ms: seq<Match>, ms': seq<Match>, e: int, t: int, f: Filter)
    requires |ms'| == |ms|
    requires forall i :: 0 <= i < |ms| ==> Counted(f, ms'[i], e, t) == Counted(f, ms[i], e, t)
    ensures Count(ms', e, t, f) == Count(ms, e, t, f)
  {
    if ms != [] {
      CountSame(ms[..|ms| - 1], ms'[..|ms| - 1], e, t, f);
    }
  }

  /** If every match counted in ms' is counted at the same place in ms,
      then ms' counts no more. */
  lemma {:induction false} CountPointwise(ms: seq<Match>, ms': seq<Match>, e: int, t: int, f: Filter)
    requires |ms'| == |ms|
    requires forall i :: 0 <= i < |ms| ==> Counted(f, ms'[i], e, t) ==> Counted(f, ms[i], e, t)
    ensures Count(ms', e, t, f) <= Count(ms, e, t, f)
  {
    if ms != [] {
      CountPointwise(ms[..|ms| - 1], ms'[..|ms| - 1], e, t, f);
    }
  }

  /** A team none of whose matches passes the filter counts 0. */
  lemma {:induction false} CountNone(ms: seq<Match>, e: int, t: int, f: Filter)
    requires forall i :: 0 <= i < |ms| ==> !Counted(f, ms[i], e, t)
    ensures Count(ms, e, t, f) == 0
  {
    if ms != [] {
      CountNone(ms[..|ms| - 1], e, t, f);
    }
  }

  /** Two match lists that agree on every match's contribution win the same sets. */
  lemma {:induction false} SetsWonSame(ms: seq<Match>, ms': seq<Match>, e: int, t: int)
    requires |ms'| == |ms|
    requires forall i :: 0 <= i < |ms| ==> Contribution(ms'[i], e, t) == Contribution(ms[i], e, t)
    ensures SetsWon(ms', e, t) == SetsWon(ms, e, t)
  {
    if ms != [] {
      SetsWonSame(ms[..|ms| - 1], ms'[..|ms| - 1], e, t);
    }
  }

  /** A team whose every match in the event shows no sets of its own has won 0 sets;
      in particular a team with no matches at all. */
  lemma {:induction false} SetsWonNone(ms: seq<Match>, e: int, t: int)
    requires forall i :: 0 <= i < |ms| && ms[i].event == e && Involves(ms[i], t) ==> OwnSets(ms[i], t) == 0
    ensures SetsWon(ms, e, t) == 0
  {
    if ms != [] {
      SetsWonNone(ms[..|ms| - 1], e, t);
    }
  }
}
