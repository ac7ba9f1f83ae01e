/** The bound on the reveal rounds is real: a questionnaire whose answers reveal one group after the other,
    nine times, counts as completed although its last group, which every fixpoint contains, is unanswered. */
module LongChain {
  import opened Prelude
  import opened Reachability
  import opened Structure
  import opened Validation
  import opened Completion
  import opened CompletionFacts

  /** Group `i` holds question `i`, whose only option `i` points to question `i + 1`. */
  function ChainChoice(i: int): Choice { Choice(i, 1, "", [IntVal(i + 1)], [], 0, None) }

  function ChainQuestion(i: int): Question { Question(i, 1, "Single", "", "", None, None, [ChainChoice(i)]) }

  function ChainGroup(i: int): Group { Group(i, i + 1, i != 0, [ChainQuestion(i)]) }

  const GROUPS := 10

  function ChainPaper(): (qn: Questionnaire)
    ensures qn.id == 1 && |qn.groups| == GROUPS && forall i :: 0 <= i < GROUPS ==> qn.groups[i] == ChainGroup(i)
  {
    Questionnaire(1, "chain", "", "", "main", true, 1, seq(GROUPS, i => ChainGroup(i)))
  }

  function ChainRow(i: int): AnswerRow { AnswerRow(IntVal(1), IntVal(i), IntVal(i), ListOf([IntVal(i)]), NoText) }

  /** All groups but the last are answered. */
  function ChainRows(): (rows: seq<AnswerRow>)
    ensures |rows| == GROUPS - 1 && forall i :: 0 <= i < GROUPS - 1 ==> rows[i] == ChainRow(i)
  {
    seq(GROUPS - 1, i => ChainRow(i))
  }

  function ChainIndex(): Index { IndexOf([ChainPaper()]) }

  lemma ChainUnique()
    ensures UniqueStructure([ChainPaper()])
  {
    var qns := [ChainPaper()];
    forall s, s' | s in Seats(qns) && s' in Seats(qns) && s.g.id == s'.g.id ensures s == s' {
      InSeats(qns, s);
      InSeats(qns, s');
    }
    forall p, p' | p in Places(qns) && p' in Places(qns) && p.q.id == p'.q.id ensures p == p' {
      InPlaces(qns, p);
      InPlaces(qns, p');
      InSeats(qns, Seat(p.qn, p.g));
      InSeats(qns, Seat(p'.qn, p'.g));
    }
  }

  lemma ChainHome(i: int, t: int)
    ensures Home(ChainIndex(), 1, Some(i), t) <==> i == t && 0 <= t < GROUPS
    ensures 0 <= i < GROUPS ==> i in ChainIndex().questions && ChainIndex().questions[i] == ChainQuestion(i)
    ensures 0 <= i < GROUPS ==>
            i in ChainIndex().questionChoices && ChainIndex().questionChoices[i] == map[i := ChainChoice(i)]
  {
    ChainUnique();
    if Home(ChainIndex(), 1, Some(i), t) {
      var _ := HomeIsPlace([ChainPaper()], ChainPaper(), i, t);
    }
    if 0 <= i < GROUPS {
      var p := Place(ChainPaper(), ChainGroup(i), ChainQuestion(i));
      assert ChainPaper().groups[i] == ChainGroup(i) && ChainGroup(i).questions[0] == ChainQuestion(i);
      PlaceIsHome([ChainPaper()], ChainPaper(), p, i, i);
      CollectSnoc([], ChainChoice(i), (c: Choice) => c.id, (c: Choice) => c);
      assert [] + [ChainChoice(i)] == [ChainChoice(i)];
    }
  }

  lemma ChainRowPoints(i: int, t: int)
    requires 0 <= i < GROUPS
    ensures RowPoints(ChainIndex(), 1, i, ChainRow(i), t) <==> t == i + 1 && t < GROUPS
  {
    var ix, row := ChainIndex(), ChainRow(i);
    ChainHome(i, i);
    ChainHome(i + 1, t);
    var c := Lookup(ChoicesOf(ix, i), Some(i)).value;
    assert c == ChainChoice(i) && c.related[0] == IntVal(i + 1);
    assert ChoicePoints(ix, 1, i, c, t) <==> PointsTo(ix, 1, i, c.related[0], t);
    assert SelectedIds(row.selected)[0] == IntVal(i);
    assert OptionPoints(ix, 1, i, i, IntVal(i), t) <==> ChoicePoints(ix, 1, i, c, t);
  }

  lemma ChainReveals(g: int, t: int)
    ensures Reveals(ChainIndex(), 1, ChainRows(), g, t) <==> 0 <= g < GROUPS - 1 && t == g + 1
  {
    var rows := ChainRows();
    if Reveals(ChainIndex(), 1, rows, g, t) {
      var n :| 0 <= n < |rows| && KeyOf(rows[n]) == Some((1, g)) && RowPoints(ChainIndex(), 1, g, rows[n], t);
      ChainRowPoints(n, t);
    }
    if 0 <= g < GROUPS - 1 && t == g + 1 {
      assert rows[g] == ChainRow(g) && KeyOf(rows[g]) == Some((1, g));
      ChainRowPoints(g, t);
    }
  }

  function ChainStep(): Step { RevealStep(ChainIndex(), 1, ChainRows()) }

  /** One step leads from a group to the next one. */
  lemma StepIsNext(g: int, t: int)
    ensures ChainStep()(g, t) <==> 0 <= g < GROUPS - 1 && t == g + 1
  {
    ChainReveals(g, t);
  }

  lemma {:induction false} ReachedAtMost(k: nat, t: int)
    requires k < GROUPS && Reachable(ChainStep(), {0}, k, t)
    ensures 0 <= t <= k
  {
    if k == 0 {
      NoStep(ChainStep(), {0});
      assert t in {0};
    } else {
      var g := LastStep(ChainStep(), {0}, k - 1, t);
      if Reachable(ChainStep(), {0}, k - 1, t) {
        ReachedAtMost(k - 1, t);
      } else {
        ReachedAtMost(k - 1, g);
        StepIsNext(g, t);
      }
    }
  }

  lemma {:induction false} ReachedAll(t: nat)
    requires t < GROUPS
    ensures Reachable(ChainStep(), {0}, t, t)
  {
    if t == 0 {
      Starts(ChainStep(), {0}, 0, 0);
    } else {
      ReachedAll(t - 1);
      StepIsNext(t - 1, t);
      Extend(ChainStep(), {0}, t - 1, t - 1, t);
    }
  }

  lemma ChainReach(k: nat, t: int)
    requires k < GROUPS
    ensures Reachable(ChainStep(), {0}, k, t) <==> 0 <= t <= k
  {
    if Reachable(ChainStep(), {0}, k, t) {
      ReachedAtMost(k, t);
    }
    if 0 <= t <= k {
      ReachedAll(t);
      MoreSteps(ChainStep(), {0}, t, k, t);
    }
  }

  lemma ChainInitial()
    ensures Initial(ChainPaper()) == {0}
    ensures forall i :: 0 <= i < GROUPS ==> i in AnswerableGroups(ChainPaper())
  {
    var qn := ChainPaper();
    forall i | 0 <= i < GROUPS ensures i in AnswerableGroups(qn) && (i in Initial(qn) <==> i == 0) {
      assert qn.groups[i] == ChainGroup(i) && HasQuestions(qn.groups[i]);
    }
  }

  lemma ChainDone(i: int)
    requires 0 <= i < GROUPS - 1
    ensures Answered(ChainIndex(), ChainRows(), (1, i))
  {
    var row := ChainRows()[i];
    ChainHome(i, i);
    assert SelectedIds(row.selected)[0] == IntVal(i) && HasChoice(ChainIndex(), i, i);
    assert row in ChainRows() && KeyOf(row) == Some((1, i)) && IsDoneRow(ChainIndex(), row);
  }

  lemma ChainShown(t: int)
    ensures Shown(ChainIndex(), ChainPaper(), ChainRows(), t) <==> 0 <= t <= MAX_VISIBILITY_ROUNDS
  {
    ChainInitial();
    ChainReach(MAX_VISIBILITY_ROUNDS, t);
  }

  lemma ChainCompleted()
    ensures IsCompleted(ChainIndex(), ChainPaper(), ChainRows())
  {
    var qn := ChainPaper();
    assert Configured(qn) by {
      assert HasQuestions(qn.groups[0]);
    }
    ChainShown(0);
    forall t | Shown(ChainIndex(), qn, ChainRows(), t) ensures Answered(ChainIndex(), ChainRows(), (1, t)) {
      ChainShown(t);
      ChainDone(t);
    }
  }

  lemma LastUnanswered()
    ensures !Answered(ChainIndex(), ChainRows(), (1, GROUPS - 1))
  {
    forall row | row in ChainRows() ensures KeyOf(row) != Some((1, GROUPS - 1)) {
      var i :| 0 <= i < |ChainRows()| && ChainRows()[i] == row;
    }
  }

  lemma ChainRowOk(i: int)
    requires 0 <= i < GROUPS - 1
    ensures RowOk(ChainIndex(), ChainRow(i))
  {
    var qns, ix, row := [ChainPaper()], ChainIndex(), ChainRow(i);
    ChainUnique();
    ChainHome(i, i);
    assert ChainPaper().groups[i] == ChainGroup(i);
    InSeats(qns, Seat(ChainPaper(), ChainGroup(i)));
    GroupKnown(qns, Seat(ChainPaper(), ChainGroup(i)));
    assert OwnershipOk(ix, row) && QuestionOk(ix, row);
    var ids := SelectedIds(row.selected);
    assert ids == [IntVal(i)] && HasChoice(ix, i, i);
  }

  /** The submission is accepted. */
  lemma ChainRowsOk()
    ensures RowsOk(ChainIndex(), ChainRows())
  {
    var rows := ChainRows();
    forall i | 0 <= i < |rows| ensures RowOk(ChainIndex(), rows[i]) {
      ChainRowOk(i);
    }
    forall i, j | 0 <= i < j < |rows|
      ensures (rows[i].questionnaireId, rows[i].groupId) != (rows[j].questionnaireId, rows[j].groupId)
    {
      assert rows[i] == ChainRow(i) && rows[j] == ChainRow(j);
    }
  }

  lemma LastInEveryClosed()
    ensures forall c :: Closed(c, RevealStep(ChainIndex(), 1, ChainRows()), Initial(ChainPaper())) ==> GROUPS - 1 in c
  {
    var e := RevealStep(ChainIndex(), 1, ChainRows());
    ChainInitial();
    ChainReach(GROUPS - 1, GROUPS - 1);
    var path :| IsPath(e, {0}, GROUPS - 1, GROUPS - 1, path);
    forall c | Closed(c, e, {0}) ensures GROUPS - 1 in c {
      PathInClosed(e, {0}, c, path);
    }
  }

  lemma LastMissed()
    ensures MissedAt(ChainIndex(), ChainPaper(), ChainRows(), GROUPS - 1)
  {
    ChainInitial();
    ChainReach(GROUPS - 1, GROUPS - 1);
    ChainShown(GROUPS - 1);
    LastUnanswered();
  }

  /** The submission is accepted and passes the gate, although the last group, which every closed set
      contains, nine reveals away, has no answer. */
  lemma NinthRevealIsMissed()
    ensures RowsOk(ChainIndex(), ChainRows()) && IsCompleted(ChainIndex(), ChainPaper(), ChainRows())
    ensures !IsCompletedFully(ChainIndex(), ChainPaper(), ChainRows())
    ensures forall c :: Closed(c, RevealStep(ChainIndex(), 1, ChainRows()), Initial(ChainPaper())) ==> GROUPS - 1 in c
    ensures GROUPS - 1 in AnswerableGroups(ChainPaper()) && !Answered(ChainIndex(), ChainRows(), (1, GROUPS - 1))
  {
    ChainRowsOk();
    ChainCompleted();
    LastMissed();
    BoundAgreesIff(ChainIndex(), ChainPaper(), ChainRows());
    LastInEveryClosed();
  }
}
