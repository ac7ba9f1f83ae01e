/** What the completion gate promises: its bounded loop is a fixpoint while few groups start hidden, answers
    only ever reveal groups, and a questionnaire's completion depends on that questionnaire alone. */
module CompletionFacts {
  import opened Prelude
  import opened Reachability
  import opened Structure
  import opened Validation
  import opened Completion

  // ---------- the fixpoint ----------

  /** The groups of the questionnaire that hold an indexed question. */
  function Targets(ix: Index, qnId: int): set<int> {
    set q | q in ix.questionGroup && Home(ix, qnId, Some(q), ix.questionGroup[q]) :: ix.questionGroup[q]
  }

  lemma RevealsHome(ix: Index, qnId: int, answers: seq<AnswerRow>, g: int, t: int) returns (i: Option<int>)
    requires Reveals(ix, qnId, answers, g, t)
    ensures Home(ix, qnId, i, t) && t != g
  {
    var n :| 0 <= n < |answers| && KeyOf(answers[n]) == Some((qnId, g)) && RowPoints(ix, qnId, g, answers[n], t);
    var q, ids := IntOrNone(answers[n].activeQuestionId), SelectedIds(answers[n].selected);
    var m :| 0 <= m < |ids| && OptionPoints(ix, qnId, g, q.value, ids[m], t);
    var c := Lookup(ChoicesOf(ix, q.value), IntOrNone(ids[m])).value;
    var j :| 0 <= j < |c.related| && PointsTo(ix, qnId, g, c.related[j], t);
    i := IntOrNone(c.related[j]);
  }

  lemma RevealsTarget(ix: Index, qnId: int, answers: seq<AnswerRow>, g: int, t: int)
    requires RevealStep(ix, qnId, answers)(g, t)
    ensures t in Targets(ix, qnId)
  {
    var i := RevealsHome(ix, qnId, answers, g, t);
    var q := i.value;
    assert i == Some(q) && ix.questionGroup[q] == t;
    assert Home(ix, qnId, Some(q), ix.questionGroup[q]);
  }

  /** With at most eight groups to reveal, the eight rounds compute the least set of groups that contains
      the initial ones and is closed under revealing: the fixpoint the module announces. */
  lemma RevealsToFixpoint(ix: Index, qn: Questionnaire, answers: seq<AnswerRow>, visible: set<int>)
    requires IsReach(visible, RevealStep(ix, qn.id, answers), Initial(qn), MAX_VISIBILITY_ROUNDS)
    requires |Targets(ix, qn.id) - Initial(qn)| <= MAX_VISIBILITY_ROUNDS
    ensures Closed(visible, RevealStep(ix, qn.id, answers), Initial(qn))
    ensures forall c :: Closed(c, RevealStep(ix, qn.id, answers), Initial(qn)) ==> visible <= c
  {
    var e, init, all := RevealStep(ix, qn.id, answers), Initial(qn), Initial(qn) + Targets(ix, qn.id);
    forall g, t | e(g, t) ensures t in all {
      RevealsTarget(ix, qn.id, answers, g, t);
    }
    assert all - init == Targets(ix, qn.id) - init;
    LeastFixpoint(e, init, MAX_VISIBILITY_ROUNDS, visible, all);
  }

  /** More answer rows never hide a group. */
  lemma AnswersOnlyReveal(ix: Index, qn: Questionnaire, answers: seq<AnswerRow>, more: seq<AnswerRow>, t: int)
    requires (forall row :: row in answers ==> row in more) && Shown(ix, qn, answers, t)
    ensures Shown(ix, qn, more, t)
  {
    var e, e' := RevealStep(ix, qn.id, answers), RevealStep(ix, qn.id, more);
    forall g, u | e(g, u) ensures e'(g, u) {
      var n :| 0 <= n < |answers| && KeyOf(answers[n]) == Some((qn.id, g)) && RowPoints(ix, qn.id, g, answers[n], u);
      assert answers[n] in more;
      var m :| 0 <= m < |more| && more[m] == answers[n];
    }
    Monotone(e, e', Initial(qn), MAX_VISIBILITY_ROUNDS, t);
  }

  // ---------- locality ----------

  ghost predicate UniqueStructure(qns: seq<Questionnaire>) {
    UniqueIds(qns) && forall a, b :: a in qns && b in qns && a.id == b.id ==> a == b
  }

  /** The place of question `i` in group `t` of the questionnaire. */
  ghost predicate IsPlace(qn: Questionnaire, p: Place, i: int, t: int) {
    p.qn == qn && p.g in qn.groups && p.q in p.g.questions && p.q.id == i && p.g.id == t
  }

  lemma HomeIsPlace(qns: seq<Questionnaire>, qn: Questionnaire, i: int, t: int) returns (p: Place)
    requires UniqueStructure(qns) && qn in qns && Home(IndexOf(qns), qn.id, Some(i), t)
    ensures IsPlace(qn, p, i, t)
  {
    IndexKeys(qns);
    p := QuestionPlaced(qns, i);
    QuestionKnown(qns, p);
    InPlaces(qns, p);
    InSeats(qns, Seat(p.qn, p.g));
    GroupKnown(qns, Seat(p.qn, p.g));
  }

  lemma PlaceIsHome(qns: seq<Questionnaire>, qn: Questionnaire, p: Place, i: int, t: int)
    requires UniqueStructure(qns) && qn in qns && IsPlace(qn, p, i, t)
    ensures var ix := IndexOf(qns);
            && Home(ix, qn.id, Some(i), t) && i in ix.questions && i in ix.questionChoices
            && ix.questions[i] == p.q && ix.questionChoices[i] == ChoiceMap(p.q.choices)
  {
    InSeats(qns, Seat(p.qn, p.g));
    InPlaces(qns, p);
    QuestionKnown(qns, p);
    GroupKnown(qns, Seat(p.qn, p.g));
  }

  /** Two indexes know the questions of a questionnaire alike. */
  ghost predicate Alike(ix: Index, ix': Index, qnId: int) {
    forall i, t :: Home(ix, qnId, Some(i), t) ==> Home(ix', qnId, Some(i), t) && SameQuestion(ix, ix', i)
  }

  ghost predicate SameQuestion(ix: Index, ix': Index, i: int) {
    && i in ix.questions && i in ix'.questions && ix.questions[i] == ix'.questions[i]
    && i in ix.questionChoices && i in ix'.questionChoices && ix.questionChoices[i] == ix'.questionChoices[i]
  }

  lemma StructuresAlike(qns: seq<Questionnaire>, qns': seq<Questionnaire>, qn: Questionnaire)
    requires UniqueStructure(qns) && UniqueStructure(qns') && qn in qns && qn in qns'
    ensures Alike(IndexOf(qns), IndexOf(qns'), qn.id)
  {
    forall i, t | Home(IndexOf(qns), qn.id, Some(i), t)
      ensures Home(IndexOf(qns'), qn.id, Some(i), t) && SameQuestion(IndexOf(qns), IndexOf(qns'), i)
    {
      var p := HomeIsPlace(qns, qn, i, t);
      PlaceIsHome(qns, qn, p, i, t);
      PlaceIsHome(qns', qn, p, i, t);
    }
  }

  /** The ids of a questionnaire's groups. */
  function GroupIds(qn: Questionnaire): set<int> { set i | 0 <= i < |qn.groups| :: qn.groups[i].id }

  lemma HomeInside(qns: seq<Questionnaire>, qn: Questionnaire, i: Option<int>, t: int)
    requires UniqueStructure(qns) && qn in qns && Home(IndexOf(qns), qn.id, i, t)
    ensures t in GroupIds(qn)
  {
    var p := HomeIsPlace(qns, qn, i.value, t);
    var k :| 0 <= k < |qn.groups| && qn.groups[k] == p.g;
    assert qn.groups[k].id == t;
  }

  lemma InsideIsKnown(qns: seq<Questionnaire>, qn: Questionnaire, t: int)
    requires UniqueStructure(qns) && qn in qns && t in GroupIds(qn)
    ensures Lookup(IndexOf(qns).groupQuestionnaire, Some(t)) == Some(qn.id)
  {
    var k :| 0 <= k < |qn.groups| && qn.groups[k].id == t;
    InSeats(qns, Seat(qn, qn.groups[k]));
    GroupKnown(qns, Seat(qn, qn.groups[k]));
  }

  lemma ChoicePointsAlike(ix: Index, ix': Index, qnId: int, g: int, c: Choice, t: int)
    requires Alike(ix, ix', qnId) && ChoicePoints(ix, qnId, g, c, t)
    ensures ChoicePoints(ix', qnId, g, c, t)
  {
    var j :| 0 <= j < |c.related| && PointsTo(ix, qnId, g, c.related[j], t);
    var i := IntOrNone(c.related[j]);
    var n := i.value;
    assert i == Some(n) && Home(ix, qnId, Some(n), t);
    assert Home(ix', qnId, Some(n), t);
    assert PointsTo(ix', qnId, g, c.related[j], t);
  }

  lemma RowPointsAlike(ix: Index, ix': Index, qnId: int, g: int, row: AnswerRow, t: int)
    requires Alike(ix, ix', qnId) && RowPoints(ix, qnId, g, row, t)
    requires Lookup(ix.groupQuestionnaire, Some(g)) == Some(qnId)
    ensures RowPoints(ix', qnId, g, row, t)
  {
    var q, ids := IntOrNone(row.activeQuestionId), SelectedIds(row.selected);
    assert Home(ix, qnId, Some(q.value), g);
    assert SameQuestion(ix, ix', q.value);
    var m :| 0 <= m < |ids| && OptionPoints(ix, qnId, g, q.value, ids[m], t);
    ChoicePointsAlike(ix, ix', qnId, g, Lookup(ChoicesOf(ix, q.value), IntOrNone(ids[m])).value, t);
    assert OptionPoints(ix', qnId, g, q.value, ids[m], t);
  }

  function OfQuestionnaire(qnId: int): AnswerRow -> bool {
    (row: AnswerRow) => IntOrNone(row.questionnaireId) == Some(qnId)
  }

  /** Every row filed under the questionnaire is among the other rows too. */
  ghost predicate RowsWithin(answers: seq<AnswerRow>, answers': seq<AnswerRow>, qnId: int) {
    forall row :: row in answers && OfQuestionnaire(qnId)(row) ==> row in answers'
  }

  lemma RevealsCarry(ix: Index, ix': Index, qnId: int, answers: seq<AnswerRow>, answers': seq<AnswerRow>, g: int,
                     t: int)
    requires Alike(ix, ix', qnId) && RowsWithin(answers, answers', qnId)
    requires Lookup(ix.groupQuestionnaire, Some(g)) == Some(qnId)
    requires Reveals(ix, qnId, answers, g, t)
    ensures Reveals(ix', qnId, answers', g, t)
  {
    var n :| 0 <= n < |answers| && KeyOf(answers[n]) == Some((qnId, g)) && RowPoints(ix, qnId, g, answers[n], t);
    RowPointsAlike(ix, ix', qnId, g, answers[n], t);
    assert OfQuestionnaire(qnId)(answers[n]);
    var m :| 0 <= m < |answers'| && answers'[m] == answers[n];
  }

  lemma RevealsAlike(qns: seq<Questionnaire>, qns': seq<Questionnaire>, qn: Questionnaire, answers: seq<AnswerRow>,
                     answers': seq<AnswerRow>, g: int, t: int)
    requires UniqueStructure(qns) && UniqueStructure(qns') && qn in qns && qn in qns'
    requires RowsWithin(answers, answers', qn.id)
    requires g in GroupIds(qn) && RevealStep(IndexOf(qns), qn.id, answers)(g, t)
    ensures RevealStep(IndexOf(qns'), qn.id, answers')(g, t) && t in GroupIds(qn)
  {
    InsideIsKnown(qns, qn, g);
    StructuresAlike(qns, qns', qn);
    RevealsCarry(IndexOf(qns), IndexOf(qns'), qn.id, answers, answers', g, t);
    var i := RevealsHome(IndexOf(qns), qn.id, answers, g, t);
    HomeInside(qns, qn, i, t);
  }

  lemma ShownAlike(qns: seq<Questionnaire>, qns': seq<Questionnaire>, qn: Questionnaire, answers: seq<AnswerRow>,
                   answers': seq<AnswerRow>, t: int)
    requires UniqueStructure(qns) && UniqueStructure(qns') && qn in qns && qn in qns'
    requires RowsWithin(answers, answers', qn.id)
    requires Shown(IndexOf(qns), qn, answers, t)
    ensures Shown(IndexOf(qns'), qn, answers', t) && t in GroupIds(qn)
  {
    var e, e', inside :=
      RevealStep(IndexOf(qns), qn.id, answers), RevealStep(IndexOf(qns'), qn.id, answers'), GroupIds(qn);
    forall g, u | g in inside && e(g, u) ensures e'(g, u) && u in inside {
      RevealsAlike(qns, qns', qn, answers, answers', g, u);
    }
    SameInside(e, e', Initial(qn), MAX_VISIBILITY_ROUNDS, t, inside);
  }

  lemma DoneAlike(qns: seq<Questionnaire>, qns': seq<Questionnaire>, qn: Questionnaire, row: AnswerRow, g: int)
    requires UniqueStructure(qns) && UniqueStructure(qns') && qn in qns && qn in qns'
    requires KeyOf(row) == Some((qn.id, g)) && g in GroupIds(qn) && IsDoneRow(IndexOf(qns), row)
    ensures IsDoneRow(IndexOf(qns'), row)
  {
    InsideIsKnown(qns, qn, g);
    StructuresAlike(qns, qns', qn);
    assert Home(IndexOf(qns), qn.id, Some(row.activeQuestionId.n), g);
  }

  lemma AnsweredAlike(qns: seq<Questionnaire>, qns': seq<Questionnaire>, qn: Questionnaire, answers: seq<AnswerRow>,
                      answers': seq<AnswerRow>, g: int)
    requires UniqueStructure(qns) && UniqueStructure(qns') && qn in qns && qn in qns'
    requires RowsWithin(answers, answers', qn.id)
    requires g in GroupIds(qn) && Answered(IndexOf(qns), answers, (qn.id, g))
    ensures Answered(IndexOf(qns'), answers', (qn.id, g))
  {
    var row :| row in answers && KeyOf(row) == Some((qn.id, g)) && IsDoneRow(IndexOf(qns), row);
    DoneAlike(qns, qns', qn, row, g);
    assert row in answers';
  }

  lemma CompletedAlike(qns: seq<Questionnaire>, qns': seq<Questionnaire>, qn: Questionnaire, answers: seq<AnswerRow>,
                       answers': seq<AnswerRow>)
    requires UniqueStructure(qns) && UniqueStructure(qns') && qn in qns && qn in qns'
    requires RowsWithin(answers, answers', qn.id) && RowsWithin(answers', answers, qn.id)
    requires IsCompleted(IndexOf(qns), qn, answers)
    ensures IsCompleted(IndexOf(qns'), qn, answers')
  {
    if Configured(qn) {
      var s :| Shown(IndexOf(qns), qn, answers, s);
      ShownAlike(qns, qns', qn, answers, answers', s);
      forall t | Shown(IndexOf(qns'), qn, answers', t) ensures Answered(IndexOf(qns'), answers', (qn.id, t)) {
        ShownAlike(qns', qns, qn, answers', answers, t);
        AnsweredAlike(qns, qns', qn, answers, answers', t);
      }
    } else {
      forall i | 0 <= i < |qn.groups| ensures Covered(answers', (qn.id, qn.groups[i].id)) {
        assert Covered(answers, (qn.id, qn.groups[i].id));
        var row :| row in answers && KeyOf(row) == Some((qn.id, qn.groups[i].id));
        assert row in answers';
      }
    }
  }

  /** Completion is local: it is the same in any two structures that contain the questionnaire, whatever else
      they contain, and for any two submissions with the same rows for it. */
  lemma CompletionIsLocal(qns: seq<Questionnaire>, qns': seq<Questionnaire>, qn: Questionnaire,
                          answers: seq<AnswerRow>, answers': seq<AnswerRow>)
    requires UniqueStructure(qns) && UniqueStructure(qns') && qn in qns && qn in qns'
    requires forall row :: OfQuestionnaire(qn.id)(row) ==> (row in answers <==> row in answers')
    ensures IsCompleted(IndexOf(qns), qn, answers) <==> IsCompleted(IndexOf(qns'), qn, answers')
  {
    if IsCompleted(IndexOf(qns), qn, answers) {
      CompletedAlike(qns, qns', qn, answers, answers');
    }
    if IsCompleted(IndexOf(qns'), qn, answers') {
      CompletedAlike(qns', qns, qn, answers', answers);
    }
  }

  // ---------- the bound on the reveals ----------

  /** A group the voter is asked if reveals are followed without a bound. */
  ghost predicate ShownEver(ix: Index, qn: Questionnaire, answers: seq<AnswerRow>, t: int) {
    (exists n: nat :: Reachable(RevealStep(ix, qn.id, answers), Initial(qn), n, t)) && t in AnswerableGroups(qn)
  }

  /** Completion over the full fixpoint. */
  ghost predicate IsCompletedFully(ix: Index, qn: Questionnaire, answers: seq<AnswerRow>) {
    if Configured(qn) then
      && (exists t :: ShownEver(ix, qn, answers, t))
      && (forall t :: ShownEver(ix, qn, answers, t) ==> Answered(ix, answers, (qn.id, t)))
    else forall i :: 0 <= i < |qn.groups| ==> Covered(answers, (qn.id, qn.groups[i].id))
  }

  /** An unanswered group that only more than eight reveals lead to. */
  ghost predicate MissedAt(ix: Index, qn: Questionnaire, answers: seq<AnswerRow>, t: int) {
    ShownEver(ix, qn, answers, t) && !Shown(ix, qn, answers, t) && !Answered(ix, answers, (qn.id, t))
  }

  lemma StartShown(ix: Index, qn: Questionnaire, answers: seq<AnswerRow>, t: int) returns (start: int)
    requires ShownEver(ix, qn, answers, t)
    ensures Shown(ix, qn, answers, start)
  {
    var e := RevealStep(ix, qn.id, answers);
    var n: nat :| Reachable(e, Initial(qn), n, t);
    var path :| IsPath(e, Initial(qn), n, t, path);
    start := path[0];
    Starts(e, Initial(qn), MAX_VISIBILITY_ROUNDS, start);
  }

  /** A completed questionnaire is completed over the full fixpoint exactly when no unanswered group lies more
      than eight reveals away; one that is not completed never is. */
  lemma BoundAgreesIff(ix: Index, qn: Questionnaire, answers: seq<AnswerRow>)
    ensures IsCompletedFully(ix, qn, answers) <==>
            IsCompleted(ix, qn, answers) && forall t :: !MissedAt(ix, qn, answers, t)
  {
    forall t | Shown(ix, qn, answers, t) ensures ShownEver(ix, qn, answers, t) {
    }
    if Configured(qn) {
      if IsCompletedFully(ix, qn, answers) {
        var t :| ShownEver(ix, qn, answers, t);
        var _ := StartShown(ix, qn, answers, t);
      }
      if IsCompleted(ix, qn, answers) && forall t :: !MissedAt(ix, qn, answers, t) {
        forall t | ShownEver(ix, qn, answers, t) ensures Answered(ix, answers, (qn.id, t)) {
          assert !MissedAt(ix, qn, answers, t);
        }
        var t :| Shown(ix, qn, answers, t);
        assert ShownEver(ix, qn, answers, t);
      }
    } else {
      assert AnswerableGroups(qn) == {};
    }
  }

  /** The gate over the full fixpoint. */
  ghost predicate PassesFully(ix: Index, answers: seq<AnswerRow>) {
    forall k :: 0 <= k < |ix.questionnaires| && ix.questionnaires[k].required ==>
      IsCompletedFully(ix, ix.questionnaires[k], answers)
  }

  /** The gate passes a submission that the full fixpoint refuses exactly when a required questionnaire has an
      unanswered group more than eight reveals away. */
  lemma GateAgreesIff(ix: Index, answers: seq<AnswerRow>)
    requires forall k, k' :: 0 <= k < k' < |ix.questionnaires| ==> ix.questionnaires[k].id != ix.questionnaires[k'].id
    ensures PassesFully(ix, answers) <==>
            Passes(ix, answers) &&
              forall k, t :: 0 <= k < |ix.questionnaires| && ix.questionnaires[k].required ==>
                !MissedAt(ix, ix.questionnaires[k], answers, t)
  {
    var qns := ix.questionnaires;
    forall k | 0 <= k < |qns|
      ensures IsCompletedFully(ix, qns[k], answers) <==>
              IsCompleted(ix, qns[k], answers) && forall t :: !MissedAt(ix, qns[k], answers, t)
      ensures CompletedId(ix, answers, qns[k].id) <==> IsCompleted(ix, qns[k], answers)
    {
      BoundAgreesIff(ix, qns[k], answers);
    }
  }
}
