# League server scoring engine, in Dafny

This project models the scoring engine of a league-management server. Leagues
hold events, teams enrol in events and play pairwise matches, and each
enrolment row (`event_teams`) keeps a team's standing in its event: set
points, a mid-tournament bonus, a completion bonus ("all bonus"), a challenger
bonus and the total. The engine is what the request handlers do to those
rows:

- recompute an event's standings whenever the standings are viewed;
- withdraw a team, which voids its matches;
- edit a match result, which may mark the match as played before the league's midpoint;
- create matches in bulk without repeating a pairing;
- enrol a team in an event, or remove it.

The tables live in one in-memory store, the class `LeagueServer.LeagueStore`:

- `leagues` and `events` are maps keyed by id;
- `eventTeams` is a map keyed by (event id, team id);
- `matches` is a sequence;
- `nextMatchId` is the serial counter that hands out match ids.

Each handler is a method that updates these fields in place. Each method is
specified by a function of the old tables, and lemmas state what those
functions guarantee.

Modules:
- `Tables`: the table rows. Dates are integer timestamps. A NULL column is `None`.
- `Aggregate`: the per-team figures of the standings query, as recursive
  count and sum functions over the match list.
- `Standings`: the snapshot and the four update passes, run in the order the
  handler runs them.
- `Withdrawal`, `MatchEdit`, `BulkCreate`: the other handlers.
- `Interplay`: a withdrawal followed by a recomputation.
- `LeagueServer`: the store class.

The model follows the code in these points:
- A withdrawal has no "already withdrawn" check. Withdrawing twice is
  harmless: the second call changes nothing (`Withdrawal.WithdrawTwiceIsOnce`).
- `total_points` does not include `challenger_bonus`.
- `total_points` uses the bonuses stored before the same recomputation
  updates them (see Findings).
- An event with no enrolment rows, or a missing event or league, is not an
  error. The recomputation then simply writes nothing.
- Editing a match marks it as played before the midpoint on its date alone,
  whether or not the request marks it finished. An unplayed match dated
  before the midpoint therefore counts toward the mid bonus.

Assumptions about the database schema (its definition is not part of this model):
- `match_id` is a serial key. Every match id is below `nextMatchId` and no two
  are equal (`LeagueStore.Valid`).
- (event, team) is the key of `event_teams`, so enrolling a team twice fails.
- A freshly enrolled row has every figure 0 and is not withdrawn.
- A freshly inserted match has NULL set counts, winner, score and date, and
  false flags.
- The inner joins to `teams` and `players` always find their rows.

## Model

| member | source | states |
|---|---|---|
| `Aggregate.SetsWon` | server.js:446-450 | `team_sets_won`: over the team's matches in the event, the sum of the team's own column, `team1_sets` when it is team 1 and `team2_sets` when it is team 2, a NULL adding nothing |
| `Aggregate.FiguresOf` | server.js:440-450 | the seven aggregate columns of one team in one event: the six CASE-filtered match counts and the sets won |
| `Aggregate.Count` | server.js:440-445 | a team's count of matches in an event never exceeds the number of matches |
| `Aggregate.CountIsDistinctIds` | server.js:440-444 | with distinct match ids, counting the team's matches in the list equals the number of distinct match ids selected, which is what `COUNT(DISTINCT m.match_id)` counts |
| `Aggregate.SelectedIdsSnoc` | server.js:440-444 | the selected ids of a list are those of its prefix plus the last match's id when that match is selected |
| `Aggregate.CountNarrower` | server.js:440-445 | a narrower CASE condition never counts more matches than a wider one |
| `Aggregate.FiguresConsistent` | server.js:440-445 | played <= total; completed-not-withdrawn <= not-withdrawn <= total; completed-not-withdrawn <= played; wins <= total; before-midpoint <= total |
| `Aggregate.CountAppend` | server.js:440-445 | appending a match adds one to a count exactly when that match is counted |
| `Aggregate.SetsWonAppend` | server.js:446-450 | appending a match adds its own set count in that event to the team's sets won |
| `Aggregate.CountConcat` | server.js:440-445 | the count over two lists is the sum of their counts |
| `Aggregate.SetsWonConcat` | server.js:446-450 | the sets won over two lists is the sum over each |
| `Aggregate.CountSame` | server.js:440-445 | two lists that agree, match by match, on what is counted give the same count |
| `Aggregate.CountPointwise` | server.js:440-445 | if every match counted in one list is counted at the same place in the other, the first counts no more |
| `Aggregate.CountNone` | server.js:440-445 | a team with no match passing the condition counts 0 |
| `Aggregate.SetsWonSame` | server.js:446-450 | two lists whose matches contribute the same sets give the same sets won |
| `Aggregate.SetsWonNone` | server.js:446-450 | a team none of whose matches in the event shows sets of its own, for instance a team with no match (the LEFT JOIN's NULL row falls to `ELSE 0`), has won 0 sets |
| `Standings.Snapshot` | server.js:427-471 | the snapshot has rows only for existing `event_teams` rows |
| `Standings.MidBonusEarned` | server.js:513 | the mid-bonus test: the team's matches before the midpoint reach the event's `midway_matches` |
| `Standings.AllBonusEligible` | server.js:524-528 | the all-bonus filter: the team has a match, and its completed non-withdrawn matches reach its non-withdrawn matches (integer order) |
| `Standings.PassRow` | server.js:474-545 | what each of the four loops writes into one row: set points 2 x sets won; total 2 x sets won plus the snapshot's two bonuses; mid bonus 2 when earned; all bonus 0 or 1 by the withdrawn flag when eligible; otherwise the row as it is |
| `Standings.StandingsAsWritten` | server.js:471-545 | the `event_teams` table after the four loops, in source order, over one snapshot of the event |
| `Standings.StandingsAt` | server.js:471-545 | each row of the event, when the event and its league exist, ends as the four passes make it, in the order set points, total, mid bonus, all bonus; every other row is untouched |
| `Standings.StandingsFrame` | server.js:474-545 | the recomputation keeps the set of rows; it never writes another event's rows, a challenger bonus or a withdrawn flag; with the event or its league missing it changes nothing |
| `Standings.SetPointsAfterStandings` | server.js:474-485 | set points become 2 x the team's own set counts summed over its matches in the event, NULL counting as nothing |
| `Standings.TotalPointsAfterStandings` | server.js:487-506 | total points become 2 x sets won plus the mid and all bonuses as stored before this recomputation; the challenger bonus is not added |
| `Standings.MidBonusAfterStandings` | server.js:508-521 | the mid bonus becomes 2 exactly when the matches before the midpoint reach `midway_matches`; otherwise it stays as stored, so a stored bonus of at most 2 is never lowered |
| `Standings.AllBonusAfterStandings` | server.js:523-545 | the all bonus is written only when the team has a match and has finished every match that is not withdrawn: 0 if the team withdrew, else 1; otherwise it is unchanged |
| `Standings.StandingsNoMatches` | server.js:459-460 | an enrolled team without matches gets 0 set points, a total equal to its previous bonuses and an unchanged all bonus; it gets the mid bonus only when the threshold is at most 0 |
| `Standings.StandingsKeepBonusesInRange` | server.js:508-545 | if every mid bonus is 0 or 2 and every all bonus 0 or 1, that stays so |
| `Standings.AsWrittenRowSettles` | server.js:487-521 | on one row, a second recomputation makes the total equal set points plus both bonuses, and a third changes nothing |
| `Standings.StandingsSettleAfterTwoPasses` | server.js:487-521 | after two recomputations with nothing in between, a third changes nothing, and every total equals set points plus both bonuses |
| `Standings.StandingsAsWrittenNotIdempotent` | server.js:487-521 | a concrete event where two successive recomputations write totals 4 and then 7 |
| `Standings.StandingsIntendedIdempotent` | server.js:487-506 | with the total taken from the bonuses this same pass writes, only the totals differ from the source; each total is set points plus both bonuses; running twice equals running once |
| `LeagueServer.LeagueStore.RecomputeStandings` | server.js:423-551 | the handler leaves `event_teams` as the four passes over one snapshot make it, and changes no other table |
| `LeagueServer.LeagueStore.RunPass` | server.js:474-545 | one loop over the snapshot's rows updates each row's `event_teams` entry with that pass's column, in any order |
| `LeagueServer.LeagueStore.EnrolTeam` | server.js:554-574 | inserts a fresh row for (event, team) unless one exists, in which case it fails and changes nothing |
| `LeagueServer.LeagueStore.RemoveTeam` | server.js:577-591 | deletes the (event, team) row if there is one |
| `Withdrawal.WithdrawnMatches` | server.js:599-607 | the `matches` table after the first UPDATE: each match the team plays in an event it is enrolled in is zeroed and flagged as withdrawn |
| `Withdrawal.MarkWithdrawn` | server.js:609-615 | the `event_teams` table after the second UPDATE: the (id, tid) row, if there is one, flagged as withdrawn |
| `Withdrawal.WithdrawnMatchesEffect` | server.js:599-607 | every match in an event where the team is enrolled, and which the team plays, gets set counts 0 and 0 and the withdrawal flag; matches without the team, and matches of events where the team has no `event_teams` row, are unchanged; no other column changes |
| `Withdrawal.MarkWithdrawnEffect` | server.js:609-615 | only the (id, tid) row of `event_teams` changes, and only its withdrawn flag |
| `Withdrawal.WithdrawTwiceIsOnce` | server.js:594-622 | withdrawing the same team twice gives the same tables as withdrawing it once |
| `Withdrawal.WithdrawnFigures` | server.js:599-607 | in every event the team is enrolled in, it afterwards has 0 sets won and no match still counting; its totals of matches, finished matches, wins and matches before the midpoint are unchanged |
| `Withdrawal.WithdrawKeepsSchedule` | server.js:599-607 | no team's number of matches or matches before the midpoint changes through a withdrawal |
| `Withdrawal.WithdrawReachesOtherEvents` | server.js:599-607 | a concrete case where withdrawing team 10 from event 1 zeroes its match in event 2 |
| `Withdrawal.WithdrawInEventStaysInEvent` | server.js:599-607 | the withdrawal restricted to event id zeroes exactly the team's matches of that event, and agrees with the source when id is the only event the team is enrolled in |
| `LeagueServer.LeagueStore.Withdraw` | server.js:594-622 | the handler applies the match update, then flags the (id, tid) row, and keeps match ids valid |
| `Interplay.WithdrawThenStandings` | server.js:594-622 | after a withdrawal, the next recomputation gives the team 0 set points, a total of its earlier bonuses, an all bonus of 0 once it has a match, and the same mid-bonus decision as before the withdrawal |
| `MatchEdit.IndexOf` | server.js:737-738 | finds a position holding the match id, or reports that none does |
| `MatchEdit.MidwayOf` | server.js:735-740 | the nested lookup from match to event to league, giving the league's midpoint, or nothing when a link is missing |
| `MatchEdit.EditedMatches` | server.js:742-779 | the `matches` table after the two UPDATEs: the result columns overwritten, then the midpoint flag set when the date is not after the midpoint |
| `MatchEdit.MidwayOfFindsLeague` | server.js:737-740 | the midpoint lookup succeeds exactly when the match, its event and the event's league exist, and yields that league's midpoint |
| `MatchEdit.EditedMatchEffect` | server.js:742-779 | the edited match takes the request's date, finished flag, winner, set counts and winner score; its midpoint flag becomes true when the date is not after the midpoint and otherwise stays; id, event, teams, withdrawal flag and other matches are unchanged |
| `MatchEdit.EditNeverLowersBeforeMidpoint` | server.js:773-779 | no team's count of matches before the midpoint goes down through an edit; its number of matches stays the same |
| `LeagueServer.LeagueStore.EditMatch` | server.js:724-788 | fails without any change when the lookup fails; otherwise the matches become the edited matches |
| `BulkCreate.PairExists` | server.js:693-698 | the existence check: some match of the event is on the same two teams, in either order |
| `BulkCreate.NewMatch` | server.js:703-706 | the inserted row: the next serial id, the request's event and teams, and the column defaults |
| `BulkCreate.Step` | server.js:689-708 | one request: skipped when its pair exists, otherwise a new match appended to the table and to the returned rows, using up one id |
| `BulkCreate.CreateAll` | server.js:688-712 | the requests applied one after another, giving the table, the counter and the returned rows with the skipped requests filtered out |
| `BulkCreate.CreateMatchesSpec` | server.js:684-721 | the table becomes the old table followed by exactly the returned rows; each is a fresh match for a request, with consecutive ids, inserted only when no match on its unordered pair existed in its event at that moment; at the end every requested pair has a match |
| `BulkCreate.CreateAllFrom` | server.js:689-709 | processing more requests keeps that invariant, keeps earlier inserted rows, and inserts at most one row per request |
| `BulkCreate.CreateAllExtends` | server.js:689-709 | requests only ever append to the table |
| `BulkCreate.CreateAllCovers` | server.js:693-707 | after the batch, every requested pair has a match in its event |
| `BulkCreate.CreateKeepsPairsUnique` | server.js:693-701 | a table without two matches on one unordered pair in one event keeps that property |
| `BulkCreate.CreateKeepsIds` | server.js:703-706 | match ids stay distinct and below the serial counter |
| `BulkCreate.CreateKeepsResults` | server.js:703-706 | new matches carry no result: sets won, played, completed, wins and before-midpoint counts are unchanged; total and not-withdrawn counts grow by the team's inserted matches |
| `BulkCreate.NotWithdrawnIsAll` | server.js:442 | over matches none of which is withdrawn, the not-withdrawn count is the total count |
| `LeagueServer.LeagueStore.CreateMatches` | server.js:684-721 | the handler, run request by request, leaves the table, counter and returned rows as the batch function gives them; the table is the old one plus the returned rows |

## Findings

| source | as written | input that shows it | evidently intended | confidence | as-written member | corrected member |
|---|---|---|---|---|---|---|
| server.js:599-607 | the match UPDATE joins `event_teams` on the team alone and never filters on the event in the URL, so a team loses its sets in every event it is enrolled in | team 10 enrolled in events 1 and 2 has won 2-1 in event 2; `PUT /events/1/teams/10` sets that event-2 match to 0-0 and flags it withdrawn | only the team's matches of event `:id` are voided | high; not executed | `Withdrawal.WithdrawReachesOtherEvents` | `Withdrawal.WithdrawInEventStaysInEvent` |
| server.js:487-521 | `total_points` is computed from the mid and all bonuses read before the same request updates them, so a view right after a bonus is earned shows a stale total and two successive views differ | event 1 (threshold 1, league midpoint 200) with team 10 alone, having won its only match 2-0 at time 100: the first view writes total 4 with mid bonus 2 and all bonus 1; the second writes total 7 | the total reflects the bonuses written in the same recomputation, so that recomputation is idempotent | medium; not executed | `Standings.StandingsAsWrittenNotIdempotent` | `Standings.StandingsIntendedIdempotent` |

Each `LeagueStore` handler models the source as written. It uses
`WithdrawnMatches` (all enrolled events) and `StandingsAsWritten` (stale total).
The corrected definitions are `WithdrawnMatchesInEvent` and
`StandingsIntended`. They sit beside those functions, and their properties are
proved.

## Left out

- HTTP routing, request parsing, JSON responses and logging are left out. Each handler reads and writes the store directly.
- The response bodies are not modelled. This covers the standings rows returned by the view, the inserted rows' JSON and status codes. The inserted rows are returned by `CreateMatches` as a value.
- Database failures are not modelled: a failed query and the partial writes of a loop interrupted by an error.
- Login, signup, and the plain create/read/update/delete handlers for leagues, events, players and teams are left out. So are the name-search endpoints. They hold no scoring logic. The store is built with its leagues and events and never changes them.
- The player name joins of the standings query are left out. They are display-only.
- Concurrency is not modelled. Bulk creation runs its requests concurrently in the source (`Promise.all`). Two equal pairs in one batch can then both pass the existence check and both be inserted. The model runs the requests one after another, so the second is skipped. The interleavings of concurrent requests on one event are not modelled either.
- `parseInt` and `new Date` are not modelled. Counts and sums are integers and dates are integer timestamps. A `NULL` midpoint or match date is not modelled.
- `Standings.AllBonusEligible`: the source compares two `COUNT` results as strings (lexicographic, so "10" >= "9" is false). The model uses integer `>=`.
- `Aggregate.SetsWon`: a NULL set count adds 0. In SQL, a team all of whose own set counts in the event are NULL gets `SUM = NULL`. The handler's `parseInt` then yields NaN and the first UPDATE fails. The model gives that team 0.
