/** The append-only store of questionnaire answers (src/apps/questionnaire/dao.py and the empty-batch
    guard of src/apps/questionnaire/service.py): every submission is a batch, readers see the latest. */
module AnswerStore {
  import opened Prelude
  import opened Structure
  import opened Validation

  /** `attempt` is the batch number; rows from before batches existed have none. */
  datatype Row = Row(voter: string, year: int, attempt: Option<int>, answer: AnswerRow)

  datatype Paper = Paper(voter: string, year: int)

  datatype SubmitError = EmptyPaperSubmit | InvalidAnswer(reason: Reason)

  /** The rows of one voter and year. */
  function Own(rows: seq<Row>, p: Paper): seq<Row> { Filter(rows, OfPaper(p)) }

  function OfPaper(p: Paper): Row -> bool { (r: Row) => Paper(r.voter, r.year) == p }

  function HasAttempt(n: int): Row -> bool { (r: Row) => r.attempt == Some(n) }

  function AnswerOf(): Row -> AnswerRow { (r: Row) => r.answer }

  /** The greatest batch number, if any row has one. */
  function TopAttempt(rows: seq<Row>): Option<int> {
    if |rows| == 0 then None else
      var top, r := TopAttempt(rows[..|rows|-1]), rows[|rows|-1];
      if r.attempt.None? then top else if top.None? then r.attempt else Some(Max(top.value, r.attempt.value))
  }

  /** `latest_batch`: the rows of the greatest batch, or all rows if none is numbered. */
  function LatestBatch(rows: seq<Row>): seq<Row> {
    match TopAttempt(rows)
    case None => rows
    case Some(top) => Filter(rows, HasAttempt(top))
  }

  function NextAttempt(rows: seq<Row>, p: Paper): int {
    match TopAttempt(Own(rows, p))
    case None => 1
    case Some(top) => top + 1
  }

  function Batch(p: Paper, n: int, answers: seq<AnswerRow>): (b: seq<Row>)
    ensures |b| == |answers| && forall i :: 0 <= i < |b| ==> b[i] == Row(p.voter, p.year, Some(n), answers[i])
  {
    seq(|answers|, i requires 0 <= i < |answers| => Row(p.voter, p.year, Some(n), answers[i]))
  }

  class Store {
    var rows: seq<Row>

    constructor ()
      ensures rows == []
    {
      rows := [];
    }

    /** `replace_answers`: one new batch behind everything stored so far. */
    method ReplaceAnswers(p: Paper, answers: seq<AnswerRow>)
      modifies this
      ensures rows == old(rows) + Batch(p, NextAttempt(old(rows), p), answers)
    {
      var attempt := NextAttempt(rows, p);
      ghost var before := rows;
      for i := 0 to |answers|
        invariant rows == before + Batch(p, attempt, answers[..i])
      {
        rows := rows + [Row(p.voter, p.year, Some(attempt), answers[i])];
        assert Batch(p, attempt, answers[..i+1]) ==
          Batch(p, attempt, answers[..i]) + [Row(p.voter, p.year, Some(attempt), answers[i])];
      }
      assert answers[..|answers|] == answers;
    }

    /** `submit_answers`: an empty or ill-formed submission is refused and stores nothing. */
    method Submit(structure: seq<Questionnaire>, p: Paper, answers: seq<AnswerRow>)
        returns (r: Result<nat, SubmitError>)
      modifies this
      ensures r.Ok? <==> |answers| != 0 && RowsOk(IndexOf(structure), answers)
      ensures r == Err(EmptyPaperSubmit) <==> |answers| == 0
      ensures r.Ok? ==> r.value == |answers| && Submitted(old(rows), p, answers, rows)
      ensures r.Err? ==> rows == old(rows)
    {
      if |answers| == 0 {
        return Err(EmptyPaperSubmit);
      }
      var valid := ValidateAnswerRows(structure, answers);
      if valid.Err? {
        return Err(InvalidAnswer(valid.error));
      }
      ReplaceAnswers(p, answers);
      r := Ok(|answers|);
    }

    /** `get_answers`: the answers of the batch with the greatest number, in table order; all of them if
        no row is numbered. */
    method GetAnswers(p: Paper) returns (answers: seq<AnswerRow>)
      ensures answers == Readable(rows, p)
      ensures forall top :: IsTop(Own(rows, p), top) ==> Holds(Own(rows, p), top, answers)
      ensures (forall r :: r in Own(rows, p) ==> r.attempt.None?) ==> answers == Map(Own(rows, p), AnswerOf())
    {
      answers := Map(LatestBatch(Own(rows, p)), AnswerOf());
      TopIsGreatest(Own(rows, p));
    }
  }

  /** `top` is the greatest batch number among the rows. */
  ghost predicate IsTop(rows: seq<Row>, top: int) {
    && (exists r :: r in rows && r.attempt == Some(top))
    && (forall r :: r in rows && r.attempt.Some? ==> r.attempt.value <= top)
  }

  lemma {:induction false} TopIsGreatest(rows: seq<Row>)
    ensures TopAttempt(rows).None? <==> forall r :: r in rows ==> r.attempt.None?
    ensures forall top :: IsTop(rows, top) <==> TopAttempt(rows) == Some(top)
  {
    TopOccurs(rows);
    forall r | r in rows && r.attempt.Some?
      ensures TopAttempt(rows).Some? && r.attempt.value <= TopAttempt(rows).value
    {
      TopBounds(rows, r);
    }
  }

  lemma {:induction false} TopOccurs(rows: seq<Row>)
    ensures TopAttempt(rows).Some? ==> exists r :: r in rows && r.attempt == TopAttempt(rows)
  {
    if |rows| != 0 {
      var front, last := rows[..|rows|-1], rows[|rows|-1];
      TopOccurs(front);
      assert rows == front + [last] && last in rows;
      if r :| r in front && r.attempt == TopAttempt(front) {
        assert r in rows;
      }
    }
  }

  function Readable(rows: seq<Row>, p: Paper): seq<AnswerRow> { Map(LatestBatch(Own(rows, p)), AnswerOf()) }

  ghost predicate Submitted(rows: seq<Row>, p: Paper, answers: seq<AnswerRow>, rows': seq<Row>) {
    |answers| != 0 && rows' == rows + Batch(p, NextAttempt(rows, p), answers)
  }

  // ---------- runs ----------

  datatype Submission = Submission(paper: Paper, answers: seq<AnswerRow>)

  /** A run of accepted submissions; refused ones change nothing. */
  ghost predicate Run(states: seq<seq<Row>>, calls: seq<Submission>) {
    && |states| == |calls| + 1
    && forall i :: 0 <= i < |calls| ==> Submitted(states[i], calls[i].paper, calls[i].answers, states[i+1])
  }

  function OnPaper(p: Paper): Submission -> bool { (c: Submission) => c.paper == p }

  /** `own` holds unnumbered legacy rows and one batch per submission, numbered 1..n. */
  ghost predicate Batched(own: seq<Row>, legacy: seq<Row>, mine: seq<Submission>) {
    && KeepsLegacy(own, legacy) && AllHeld(own, mine) && NumberedUpTo(own, |mine|)
    && TopAttempt(own) == if |mine| == 0 then None else Some(|mine|)
  }

  ghost predicate KeepsLegacy(own: seq<Row>, legacy: seq<Row>) { Filter(own, Unnumbered()) == legacy }

  ghost predicate AllHeld(own: seq<Row>, mine: seq<Submission>) {
    forall i :: 0 <= i < |mine| ==> Holds(own, i + 1, mine[i].answers)
  }

  ghost predicate Holds(own: seq<Row>, n: int, answers: seq<AnswerRow>) {
    Map(Filter(own, HasAttempt(n)), AnswerOf()) == answers
  }

  ghost predicate NumberedUpTo(own: seq<Row>, n: int) {
    forall r :: r in own && r.attempt.Some? ==> 1 <= r.attempt.value <= n
  }

  function Unnumbered(): Row -> bool { (r: Row) => r.attempt.None? }

  lemma {:induction false} TopOfBatch(rows: seq<Row>, p: Paper, n: int, answers: seq<AnswerRow>)
    requires |answers| != 0 && (TopAttempt(rows).Some? ==> TopAttempt(rows).value < n)
    ensures TopAttempt(rows + Batch(p, n, answers)) == Some(n)
  {
    var b, m := Batch(p, n, answers), |answers| - 1;
    assert (rows + b)[..|rows| + m] == rows + b[..m];
    assert b[..m] == Batch(p, n, answers[..m]);
    if m == 0 {
      assert rows + b[..m] == rows;
    } else {
      TopOfBatch(rows, p, n, answers[..m]);
    }
  }

  /** What a filter sees of a table to which a batch is appended. */
  lemma FilterBatch(rows: seq<Row>, p: Paper, n: int, answers: seq<AnswerRow>, q: Row -> bool, hit: bool)
    requires forall i :: 0 <= i < |answers| ==> q(Row(p.voter, p.year, Some(n), answers[i])) == hit
    ensures Filter(rows + Batch(p, n, answers), q) == Filter(rows, q) + if hit then Batch(p, n, answers) else []
  {
    FilterConcat(rows, Batch(p, n, answers), q);
    FilterUniform(Batch(p, n, answers), q, hit);
  }

  lemma {:induction false} BatchAnswers(p: Paper, n: int, answers: seq<AnswerRow>)
    ensures Map(Batch(p, n, answers), AnswerOf()) == answers
  {
  }

  /** The new batch holds the new answers, the earlier ones what they held. */
  lemma OwnHolds(own: seq<Row>, p: Paper, n: int, answers: seq<AnswerRow>, m: int, before: seq<AnswerRow>)
    requires NumberedUpTo(own, n - 1)
    requires m != n ==> Holds(own, m, before)
    ensures Holds(own + Batch(p, n, answers), m, if m == n then answers else before)
  {
    FilterBatch(own, p, n, answers, HasAttempt(m), m == n);
    if m == n {
      FilterUniform(own, HasAttempt(n), false);
      assert [] + Batch(p, n, answers) == Batch(p, n, answers);
      BatchAnswers(p, n, answers);
    }
  }

  lemma LegacyBatch(own: seq<Row>, legacy: seq<Row>, p: Paper, n: int, answers: seq<AnswerRow>)
    requires KeepsLegacy(own, legacy)
    ensures KeepsLegacy(own + Batch(p, n, answers), legacy)
  {
    FilterBatch(own, p, n, answers, Unnumbered(), false);
  }

  lemma HeldBatch(own: seq<Row>, p: Paper, mine: seq<Submission>, c: Submission)
    requires AllHeld(own, mine) && NumberedUpTo(own, |mine|)
    ensures AllHeld(own + Batch(p, |mine| + 1, c.answers), mine + [c])
  {
    var n, all := |mine| + 1, mine + [c];
    forall i | 0 <= i < n ensures Holds(own + Batch(p, n, c.answers), i + 1, all[i].answers) {
      OwnHolds(own, p, n, c.answers, i + 1, all[i].answers);
    }
  }

  lemma NumberedBatch(own: seq<Row>, p: Paper, n: nat, answers: seq<AnswerRow>)
    requires NumberedUpTo(own, n)
    ensures NumberedUpTo(own + Batch(p, n + 1, answers), n + 1)
  {
    var b := Batch(p, n + 1, answers);
    forall r | r in own + b && r.attempt.Some? ensures 1 <= r.attempt.value <= n + 1 {
      assert r in own || r in b;
    }
  }

  lemma OwnBatch(own: seq<Row>, legacy: seq<Row>, p: Paper, mine: seq<Submission>, c: Submission)
    requires Batched(own, legacy, mine) && |c.answers| != 0
    ensures Batched(own + Batch(p, |mine| + 1, c.answers), legacy, mine + [c])
  {
    LegacyBatch(own, legacy, p, |mine| + 1, c.answers);
    HeldBatch(own, p, mine, c);
    NumberedBatch(own, p, |mine|, c.answers);
    TopOfBatch(own, p, |mine| + 1, c.answers);
  }

  /** What a submission does to the rows of one paper. */
  lemma OwnSubmitted(rows: seq<Row>, p: Paper, c: Submission, rows': seq<Row>)
    requires Submitted(rows, c.paper, c.answers, rows')
    ensures Own(rows', p) == Own(rows, p) + if OnPaper(p)(c) then Batch(p, NextAttempt(rows, p), c.answers) else []
  {
    FilterBatch(rows, c.paper, NextAttempt(rows, c.paper), c.answers, OfPaper(p), c.paper == p);
  }

  lemma NextOfBatched(rows: seq<Row>, legacy: seq<Row>, p: Paper, mine: seq<Submission>)
    requires Batched(Own(rows, p), legacy, mine)
    ensures NextAttempt(rows, p) == |mine| + 1
  {
  }

  lemma SubmissionBatches(rows: seq<Row>, legacy: seq<Row>, p: Paper, mine: seq<Submission>, c: Submission,
                          rows': seq<Row>)
    requires Batched(Own(rows, p), legacy, mine) && Submitted(rows, c.paper, c.answers, rows')
    ensures Batched(Own(rows', p), legacy, if c.paper == p then mine + [c] else mine)
  {
    assert |c.answers| != 0;
    var own, own' := Own(rows, p), Own(rows', p);
    assert own' == own + if c.paper == p then Batch(p, |mine| + 1, c.answers) else [] by {
      OwnSubmitted(rows, p, c, rows');
      NextOfBatched(rows, legacy, p, mine);
    }
    if c.paper == p {
      OwnBatch(own, legacy, p, mine, c);
    } else {
      assert own' == own;
    }
  }

  /** Over any interleaving of submissions, of any voters and years: the batches of a paper are numbered
      1..n, each still holds exactly what was submitted, and legacy rows stay as they were. */
  lemma {:induction false} RunBatches(states: seq<seq<Row>>, calls: seq<Submission>, p: Paper)
    requires Run(states, calls)
    requires forall r :: r in Own(states[0], p) ==> r.attempt.None?
    ensures Batched(Own(states[|calls|], p), Own(states[0], p), Filter(calls, OnPaper(p)))
  {
    if |calls| == 0 {
      LegacyOnly(Own(states[0], p));
    } else {
      var n := |calls| - 1;
      RunBatches(states[..|calls|], calls[..n], p);
      assert Submitted(states[n], calls[n].paper, calls[n].answers, states[n+1]);
      SubmissionBatches(states[n], Own(states[0], p), p, Filter(calls[..n], OnPaper(p)), calls[n], states[n+1]);
    }
  }

  lemma {:induction false} NoTop(rows: seq<Row>)
    requires forall r :: r in rows ==> r.attempt.None?
    ensures TopAttempt(rows).None?
  {
    if |rows| != 0 {
      NoTop(rows[..|rows|-1]);
    }
  }

  lemma LegacyOnly(own: seq<Row>)
    requires forall r :: r in own ==> r.attempt.None?
    ensures Batched(own, own, [])
  {
    NoTop(own);
    FilterUniform(own, Unnumbered(), true);
  }

  lemma {:induction false} TopBounds(rows: seq<Row>, r: Row)
    requires r in rows && r.attempt.Some?
    ensures TopAttempt(rows).Some? && r.attempt.value <= TopAttempt(rows).value
  {
    var front := rows[..|rows|-1];
    if r in front {
      TopBounds(front, r);
    } else {
      assert r == rows[|rows|-1];
    }
  }

  /** Whatever the table held: a submission is read back by its own voter and year, and seen by no other. */
  lemma ReadBack(rows: seq<Row>, p: Paper, c: Submission, rows': seq<Row>)
    requires Submitted(rows, c.paper, c.answers, rows')
    ensures Readable(rows', p) == if c.paper == p then c.answers else Readable(rows, p)
  {
    OwnSubmitted(rows, p, c, rows');
    var own, n := Own(rows, p), NextAttempt(rows, p);
    if c.paper == p {
      TopOfBatch(own, p, n, c.answers);
      forall r | r in own && r.attempt.Some? ensures r.attempt.value < n {
        TopBounds(own, r);
      }
      NewestBatch(own, p, n, c.answers);
      BatchAnswers(p, n, c.answers);
    } else {
      assert own + [] == own;
    }
  }

  lemma NewestBatch(own: seq<Row>, p: Paper, n: int, answers: seq<AnswerRow>)
    requires forall r :: r in own && r.attempt.Some? ==> r.attempt.value < n
    ensures Filter(own + Batch(p, n, answers), HasAttempt(n)) == Batch(p, n, answers)
  {
    FilterConcat(own, Batch(p, n, answers), HasAttempt(n));
    FilterUniform(own, HasAttempt(n), false);
    FilterUniform(Batch(p, n, answers), HasAttempt(n), true);
  }

  /** What is read for a paper along a run. */
  ghost predicate Views(views: seq<seq<AnswerRow>>, calls: seq<Submission>, p: Paper) {
    && |views| == |calls| + 1
    && forall i :: 0 <= i < |calls| ==> views[i+1] == if calls[i].paper == p then calls[i].answers else views[i]
  }

  lemma RunViews(states: seq<seq<Row>>, calls: seq<Submission>, p: Paper, views: seq<seq<AnswerRow>>)
    requires Run(states, calls)
    requires |views| == |states| && forall i :: 0 <= i < |views| ==> views[i] == Readable(states[i], p)
    ensures Views(views, calls, p)
  {
    forall i | 0 <= i < |calls| ensures views[i+1] == if calls[i].paper == p then calls[i].answers else views[i] {
      assert Submitted(states[i], calls[i].paper, calls[i].answers, states[i+1]);
      ReadBack(states[i], p, calls[i], states[i+1]);
    }
  }

  lemma {:induction false} OthersUnseen(views: seq<seq<AnswerRow>>, calls: seq<Submission>, p: Paper, from: nat,
                                        to: nat)
    requires Views(views, calls, p) && from <= to <= |calls|
    requires forall m :: from <= m < to ==> calls[m].paper != p
    ensures views[to] == views[from]
  {
    if from < to {
      OthersUnseen(views, calls, p, from, to - 1);
      assert views[to-1+1] == views[to-1];
    }
  }

  ghost predicate IsLastOn(calls: seq<Submission>, p: Paper, k: int) {
    0 <= k < |calls| && calls[k].paper == p && forall m :: k < m < |calls| ==> calls[m].paper != p
  }

  /** What a voter reads back for a year is exactly his last accepted submission for it, and what he read
      before as long as there is none. */
  lemma ReadsLastSubmission(states: seq<seq<Row>>, calls: seq<Submission>, p: Paper)
    requires Run(states, calls)
    ensures (forall m :: 0 <= m < |calls| ==> calls[m].paper != p) ==>
            Readable(states[|calls|], p) == Readable(states[0], p)
    ensures forall k :: IsLastOn(calls, p, k) ==> Readable(states[|calls|], p) == calls[k].answers
  {
    var views := seq(|states|, i requires 0 <= i < |states| => Readable(states[i], p));
    RunViews(states, calls, p, views);
    if forall m :: 0 <= m < |calls| ==> calls[m].paper != p {
      OthersUnseen(views, calls, p, 0, |calls|);
    }
    forall k | IsLastOn(calls, p, k) ensures views[|calls|] == calls[k].answers {
      OthersUnseen(views, calls, p, k + 1, |calls|);
    }
  }
}
