/**
 The two rules for the current score when times may repeat: exactly which score tables
 they read alike in every query order, and a run of the score table that leads to one
 they do not.
 */
module ScoreTies {
  import opened Prelude
  import opened Store
  import opened Governance
  import opened ScoreLog

  ghost predicate UniqueIds(rows: seq<Score>) {
    forall i, j :: 0 <= i < j < |rows| ==> rows[i].id != rows[j].id
  }

  /** The domain has one strictly newest row, and no row overrides it. */
  ghost predicate ClearWinner(rows: seq<Score>, domain: string) {
    exists row: Score :: row.domain == domain && IsNewest(rows, row) && row.id !in Superseded(rows)
  }

  /** Whatever order a query returns the rows in, the two rules agree. */
  ghost predicate AgreeInEveryOrder(rows: seq<Score>) {
    forall q: seq<Score> :: multiset(q) == multiset(rows) ==> Latest(q) == Effective(q)
  }

  // ---------------------------------------------------- a clear winner decides

  /** Both rules pick a strictly newest row that no row overrides. */
  lemma WinnerIsPicked(rows: seq<Score>, row: Score)
    requires IsNewest(rows, row) && row.id !in Superseded(rows)
    ensures row.domain in Latest(rows) && Latest(rows)[row.domain] == row
    ensures row.domain in Effective(rows) && Effective(rows)[row.domain] == row
  {
    LatestMembers(rows);
    LatestAtLeast(rows, row);
    NewestKeptMembers(rows, Superseded(rows));
    NewestKeptAtLeast(rows, Superseded(rows), row);
  }

  lemma SameMultisetSameRows(a: seq<Score>, b: seq<Score>)
    requires multiset(a) == multiset(b)
    ensures SameRows(a, b) && Superseded(a) == Superseded(b)
  {
    forall row ensures row in a <==> row in b {
      assert row in multiset(a) <==> row in multiset(b);
    }
    SameRowsSuperseded(a, b);
    SameRowsSuperseded(b, a);
  }

  lemma WinnersMakeAgreement(rows: seq<Score>, q: seq<Score>)
    requires forall d :: HasDomain(rows, d) ==> ClearWinner(rows, d)
    requires multiset(q) == multiset(rows)
    ensures Latest(q) == Effective(q)
  {
    SameMultisetSameRows(q, rows);
    LatestMembers(q);
    NewestKeptMembers(q, Superseded(q));
    forall row | row in q ensures row.domain in Effective(q) && Latest(q)[row.domain] == Effective(q)[row.domain] {
      WinnerOfDomain(rows, q, row.domain);
    }
  }

  lemma WinnerOfDomain(rows: seq<Score>, q: seq<Score>, d: string)
    requires SameRows(q, rows) && Superseded(q) == Superseded(rows) && ClearWinner(rows, d)
    ensures d in Latest(q) && d in Effective(q) && Latest(q)[d] == Effective(q)[d]
  {
    var winner: Score :| winner.domain == d && IsNewest(rows, winner) && winner.id !in Superseded(rows);
    WinnerIsPicked(q, winner);
  }

  // --------------------------------------------- without one some order disagrees

  /** The rows with row `i` moved to the end. */
  function MovedLast(rows: seq<Score>, i: nat): seq<Score>
    requires i < |rows|
  {
    rows[..i] + rows[i + 1..] + [rows[i]]
  }

  lemma MovedLastPermutes(rows: seq<Score>, i: nat)
    requires i < |rows|
    ensures multiset(MovedLast(rows, i)) == multiset(rows)
  {
    assert rows == rows[..i] + [rows[i]] + rows[i + 1..];
  }

  /** No row of the domain is newer. */
  ghost predicate AtTop(rows: seq<Score>, i: nat)
    requires i < |rows|
  {
    forall row :: row in rows && row.domain == rows[i].domain ==> row.calculatedAt <= rows[i].calculatedAt
  }

  lemma {:induction false} SomeRowAtTop(rows: seq<Score>, d: string) returns (i: nat)
    requires HasDomain(rows, d)
    ensures i < |rows| && rows[i].domain == d && AtTop(rows, i)
  {
    var n := |rows| - 1;
    assert rows == rows[..n] + [rows[n]];
    if HasDomain(rows[..n], d) {
      i := SomeRowAtTop(rows[..n], d);
      if rows[n].domain == d && rows[n].calculatedAt > rows[i].calculatedAt {
        i := n;
      }
    } else {
      i := n;
    }
  }

  /** A top row that comes last is the one the newest-row rule picks. */
  lemma LastTopRowIsLatest(rows: seq<Score>, i: nat)
    requires i < |rows| && AtTop(rows, i)
    ensures rows[i].domain in Latest(MovedLast(rows, i)) && Latest(MovedLast(rows, i))[rows[i].domain] == rows[i]
  {
    var q := MovedLast(rows, i);
    var before := rows[..i] + rows[i + 1..];
    assert q[..|q| - 1] == before && q[|q| - 1] == rows[i];
    LatestMembers(before);
    assert forall row :: row in before ==> row in rows;
  }

  /** If a kept row stands at the same time, the other rule does not pick the last row. */
  lemma LastRowIsNotEffective(rows: seq<Score>, i: nat, j: nat)
    requires UniqueIds(rows) && i < |rows| && j < |rows| && i != j && AtTop(rows, i)
    requires rows[j].domain == rows[i].domain && rows[j].calculatedAt == rows[i].calculatedAt
    requires rows[j].id !in Superseded(rows)
    ensures Effective(MovedLast(rows, i)) != Latest(MovedLast(rows, i))
  {
    var q := MovedLast(rows, i);
    var before := rows[..i] + rows[i + 1..];
    MovedLastPermutes(rows, i);
    SameMultisetSameRows(q, rows);
    assert q[..|q| - 1] == before && q[|q| - 1] == rows[i];
    assert rows[j] in before by {
      assert rows[j] == if j < i then before[j] else before[j - 1];
    }
    NewestKeptAtLeast(before, Superseded(q), rows[j]);
    NewestKeptMembers(before, Superseded(q));
    assert rows[i] !in before;
    LastTopRowIsLatest(rows, i);
  }

  /** A superseded row at the top, put last, is read by one rule and dropped by the other. */
  lemma SupersededTopSplits(rows: seq<Score>, i: nat)
    requires i < |rows| && AtTop(rows, i) && rows[i].id in Superseded(rows)
    ensures Effective(MovedLast(rows, i)) != Latest(MovedLast(rows, i))
  {
    MovedLastPermutes(rows, i);
    SameMultisetSameRows(MovedLast(rows, i), rows);
    NewestKeptMembers(MovedLast(rows, i), Superseded(rows));
    LastTopRowIsLatest(rows, i);
  }

  /** A domain without a clear winner has an order in which the rules disagree. */
  lemma NoWinnerSplits(rows: seq<Score>, d: string) returns (q: seq<Score>)
    requires UniqueIds(rows) && HasDomain(rows, d) && !ClearWinner(rows, d)
    ensures multiset(q) == multiset(rows) && Latest(q) != Effective(q)
  {
    var i := SomeRowAtTop(rows, d);
    q := MovedLast(rows, i);
    MovedLastPermutes(rows, i);
    if rows[i].id in Superseded(rows) {
      SupersededTopSplits(rows, i);
    } else {
      var j := AnotherTopRow(rows, i);
      if rows[j].id in Superseded(rows) {
        q := MovedLast(rows, j);
        MovedLastPermutes(rows, j);
        SupersededTopSplits(rows, j);
      } else {
        LastRowIsNotEffective(rows, i, j);
      }
    }
  }

  lemma AnotherTopRow(rows: seq<Score>, i: nat) returns (j: nat)
    requires i < |rows| && AtTop(rows, i) && !IsNewest(rows, rows[i])
    ensures j < |rows| && j != i && AtTop(rows, j)
    ensures rows[j].domain == rows[i].domain && rows[j].calculatedAt == rows[i].calculatedAt
  {
    var other :| other in rows && other.domain == rows[i].domain && other != rows[i]
                 && other.calculatedAt >= rows[i].calculatedAt;
    j :| 0 <= j < |rows| && rows[j] == other;
  }

  /**
   The exact condition, with no assumption on times: the two rules agree in every order a
   query may return the rows in, if and only if every domain has one strictly newest row
   and no row overrides it.
   */
  lemma AgreeInEveryOrderIff(rows: seq<Score>)
    requires UniqueIds(rows)
    ensures AgreeInEveryOrder(rows) <==> forall d :: HasDomain(rows, d) ==> ClearWinner(rows, d)
  {
    if forall d :: HasDomain(rows, d) ==> ClearWinner(rows, d) {
      forall q: seq<Score> | multiset(q) == multiset(rows) ensures Latest(q) == Effective(q) {
        WinnersMakeAgreement(rows, q);
      }
    }
    if AgreeInEveryOrder(rows) {
      forall d | HasDomain(rows, d) ensures ClearWinner(rows, d) {
        if !ClearWinner(rows, d) {
          var q := NoWinnerSplits(rows, d);
          assert false;
        }
      }
    }
  }

  // ------------------------------------------------ runs on a clock that may stall

  /** As `Enabled`, but a new row may carry the time of an earlier one of its slot. */
  ghost predicate EnabledLoosely(scores: seq<Score>, step: ScoreStep) {
    match step
    case ScoreScan(rows) =>
      && (forall i, j :: 0 <= i < j < |rows| ==> rows[i].id != rows[j].id && !SameSlot(rows[i], rows[j]))
      && (forall row :: row in rows ==> row.overrideOf.None? && row.id !in IdsOf(scores) && NotEarlier(scores, row))
    case Override(decision, newId, now) =>
      && newId !in IdsOf(scores)
      && forall prior :: prior in scores && prior.scanId == decision.scanId && prior.domain == decision.domain
                         ==> prior.calculatedAt <= now
  }

  ghost predicate NotEarlier(scores: seq<Score>, row: Score) {
    forall prior :: prior in scores && SameSlot(prior, row) ==> prior.calculatedAt <= row.calculatedAt
  }

  ghost predicate LooseRun(steps: seq<ScoreStep>) {
    forall k :: 0 <= k < |steps| ==> EnabledLoosely(Exec(steps[..k]), steps[k])
  }

  lemma LoosePrefix(steps: seq<ScoreStep>, n: nat)
    requires LooseRun(steps) && n <= |steps|
    ensures LooseRun(steps[..n])
  {
    forall k | 0 <= k < n ensures EnabledLoosely(Exec(steps[..n][..k]), steps[..n][k]) {
      assert steps[..n][..k] == steps[..k];
    }
  }

  lemma StepKeepsIds(scores: seq<Score>, step: ScoreStep)
    requires UniqueIds(scores) && EnabledLoosely(scores, step)
    ensures UniqueIds(Apply(scores, step))
  {
    assert forall i :: 0 <= i < |scores| ==> scores[i].id in IdsOf(scores);
  }

  lemma {:induction false} LooseRunsKeepIds(steps: seq<ScoreStep>)
    requires LooseRun(steps)
    ensures UniqueIds(Exec(steps))
  {
    if steps != [] {
      var n := |steps| - 1;
      LoosePrefix(steps, n);
      LooseRunsKeepIds(steps[..n]);
      StepKeepsIds(Exec(steps[..n]), steps[n]);
    }
  }

  lemma {:induction false} FilterKeepsIds(keep: Score -> bool, rows: seq<Score>)
    requires UniqueIds(rows)
    ensures UniqueIds(Filter(keep, rows))
  {
    if rows != [] {
      FilterKeepsIds(keep, rows[1..]);
      FilterMembers(keep, rows[1..]);
      var rest := Filter(keep, rows[1..]);
      forall j | 0 <= j < |rest| ensures rest[j].id != rows[0].id {
        assert rest[j] in rows[1..];
      }
    }
  }

  /** In every run, on any nondecreasing clock: agreement in every order has this exact condition. */
  lemma LooseRunAgreesIff(steps: seq<ScoreStep>, scanId: string)
    requires LooseRun(steps)
    ensures var rows := RowsOf(Exec(steps), scanId);
            AgreeInEveryOrder(rows) <==> forall d :: HasDomain(rows, d) ==> ClearWinner(rows, d)
  {
    LooseRunsKeepIds(steps);
    FilterKeepsIds((row: Score) => row.scanId == scanId, Exec(steps));
    AgreeInEveryOrderIff(RowsOf(Exec(steps), scanId));
  }

  /** A category change of score `a` in its own slot, at the time `a` was calculated. */
  const HASTY := OverrideDecision("a", "scan", "payments", Acceptable, "m", "r", None)
  const HASTY_RUN := [ScoreScan([FIRST_SCORE]), Override(HASTY, "b", 1)]

  lemma HastyRunIsLoose()
    ensures LooseRun(HASTY_RUN)
    ensures Exec(HASTY_RUN) == [FIRST_SCORE, OverrideRow(FIRST_SCORE, HASTY, "b", 1)]
  {
    assert HASTY_RUN[..0] == [] && HASTY_RUN[..1] == [HASTY_RUN[0]];
    assert [HASTY_RUN[0]][..0] == [];
    assert Exec(HASTY_RUN[..1]) == [FIRST_SCORE];
    assert FindScore([FIRST_SCORE], "a") == Some(0);
    assert !Blank("m") && !Blank("r");
    assert EnabledLoosely([], HASTY_RUN[0]) && EnabledLoosely([FIRST_SCORE], HASTY_RUN[1]);
  }

  lemma TiedPairHasNoWinner(rows: seq<Score>, a: Score, b: Score)
    requires a in rows && b in rows && a != b
    requires a.domain == b.domain && a.calculatedAt == b.calculatedAt
    requires forall row :: row in rows ==> row == a || row == b
    ensures HasDomain(rows, a.domain) && !ClearWinner(rows, a.domain)
  {
    forall row | row in rows ensures !IsNewest(rows, row) {
      var other := if row == a then b else a;
      assert other in rows && other != row && other.domain == row.domain;
    }
  }

  /** Concrete run: a score and its override share a time, and one query order splits the rules. */
  lemma EqualTimesSplitTheRules() returns (q: seq<Score>)
    ensures LooseRun(HASTY_RUN)
    ensures multiset(q) == multiset(RowsOf(Exec(HASTY_RUN), "scan"))
    ensures Latest(q) != Effective(q)
  {
    var scores := Exec(HASTY_RUN);
    var rows := RowsOf(scores, "scan");
    HastyRunIsLoose();
    LooseRunsKeepIds(HASTY_RUN);
    FilterKeepsIds((row: Score) => row.scanId == "scan", scores);
    RowsOfMembers(scores, "scan");
    assert scores[0] in scores && scores[1] in scores;
    TiedPairHasNoWinner(rows, scores[0], scores[1]);
    q := NoWinnerSplits(rows, scores[0].domain);
  }
}
