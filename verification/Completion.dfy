/** The completion gate (src/apps/questionnaire/completion.py): which groups a voter gets to see and which
    questionnaires he has completed. */
module Completion {
  import opened Prelude
  import opened Reachability
  import opened Structure
  import opened Validation

  const MAX_VISIBILITY_ROUNDS := 8

  function Lookup<V>(m: map<int, V>, i: Option<int>): Option<V> {
    if i.Some? && i.value in m then Some(m[i.value]) else None
  }

  // ---------- answer rows by group ----------

  /** The (questionnaire id, group id) a row is filed under, if both are integers. */
  function KeyOf(row: AnswerRow): Option<(int, int)> {
    match (IntOrNone(row.questionnaireId), IntOrNone(row.groupId))
    case (Some(qn), Some(g)) => Some((qn, g))
    case _ => None
  }

  function HasKey(key: (int, int)): AnswerRow -> bool { (row: AnswerRow) => KeyOf(row) == Some(key) }

  type Rows = map<(int, int), seq<AnswerRow>>

  function At(rows: Rows, key: (int, int)): seq<AnswerRow> { if key in rows then rows[key] else [] }

  ghost predicate Filed(rows: Rows, answers: seq<AnswerRow>) {
    && (forall key :: At(rows, key) == Filter(answers, HasKey(key)))
    && (forall key :: key in rows <==> Covered(answers, key))
  }

  ghost predicate Covered(answers: seq<AnswerRow>, key: (int, int)) {
    exists row :: row in answers && KeyOf(row) == Some(key)
  }

  lemma {:induction false} FileRow(rows: Rows, answers: seq<AnswerRow>, row: AnswerRow, rows': Rows)
    requires Filed(rows, answers)
    requires rows' == match KeyOf(row) case None => rows case Some(key) => rows[key := At(rows, key) + [row]]
    ensures Filed(rows', answers + [row])
  {
    forall key
      ensures At(rows', key) == Filter(answers + [row], HasKey(key)) &&
              (key in rows' <==> Covered(answers + [row], key))
    {
      FilterSnoc(answers, row, HasKey(key));
      assert At(rows, key) == Filter(answers, HasKey(key));
      assert key in rows <==> Covered(answers, key);
      assert Covered(answers + [row], key) <==> Covered(answers, key) || KeyOf(row) == Some(key);
    }
  }

  /** `_rows_by_group`. */
  method RowsByGroup(answers: seq<AnswerRow>) returns (rows: Rows)
    ensures Filed(rows, answers)
  {
    rows := map[];
    for n := 0 to |answers|
      invariant Filed(rows, answers[..n])
    {
      ghost var before := rows;
      var key := KeyOf(answers[n]);
      if key.Some? {
        rows := rows[key.value := At(rows, key.value) + [answers[n]]];
      }
      FileRow(before, answers[..n], answers[n], rows);
      assert answers[..n+1] == answers[..n] + [answers[n]];
    }
    assert answers[..|answers|] == answers;
  }

  // ---------- revealing ----------

  /** Question `i` lies in group `t` of the questionnaire. */
  predicate Home(ix: Index, qnId: int, i: Option<int>, t: int) {
    Lookup(ix.questionGroup, i) == Some(t) && Lookup(ix.groupQuestionnaire, Some(t)) == Some(qnId)
  }

  /** A related question lies in group `t`, another group of the same questionnaire. */
  predicate PointsTo(ix: Index, qnId: int, g: int, related: Val, t: int) {
    t != g && Home(ix, qnId, IntOrNone(related), t)
  }

  predicate ChoicePoints(ix: Index, qnId: int, g: int, c: Choice, t: int) {
    exists j :: 0 <= j < |c.related| && PointsTo(ix, qnId, g, c.related[j], t)
  }

  function ChoicesOf(ix: Index, q: int): map<int, Choice> {
    if q in ix.questionChoices then ix.questionChoices[q] else map[]
  }

  predicate OptionPoints(ix: Index, qnId: int, g: int, q: int, raw: Val, t: int) {
    var c := Lookup(ChoicesOf(ix, q), IntOrNone(raw));
    c.Some? && ChoicePoints(ix, qnId, g, c.value, t)
  }

  /** A row whose active question sits in group `g` selects an option that points to group `t`. */
  predicate RowPoints(ix: Index, qnId: int, g: int, row: AnswerRow, t: int) {
    var q := IntOrNone(row.activeQuestionId);
    && q.Some? && Lookup(ix.questionGroup, q) == Some(g)
    && exists i :: 0 <= i < |SelectedIds(row.selected)| &&
         OptionPoints(ix, qnId, g, q.value, SelectedIds(row.selected)[i], t)
  }

  /** Group `g`, once visible, reveals group `t`. */
  predicate Reveals(ix: Index, qnId: int, answers: seq<AnswerRow>, g: int, t: int) {
    exists n :: 0 <= n < |answers| && KeyOf(answers[n]) == Some((qnId, g)) && RowPoints(ix, qnId, g, answers[n], t)
  }

  function RevealStep(ix: Index, qnId: int, answers: seq<AnswerRow>): Step {
    (g: int, t: int) => Reveals(ix, qnId, answers, g, t)
  }

  function Initial(qn: Questionnaire): set<int> {
    set i | 0 <= i < |qn.groups| && HasQuestions(qn.groups[i]) &&
        (qn.groups[i].order == 1 || !qn.groups[i].hiddenByDefault) :: qn.groups[i].id
  }

  method AddedByChoice(ix: Index, qnId: int, g: int, c: Choice, visible: set<int>) returns (added: set<int>)
    ensures forall t :: t in added <==> t !in visible && ChoicePoints(ix, qnId, g, c, t)
  {
    added := {};
    for j := 0 to |c.related|
      invariant forall t :: t in added <==>
                  t !in visible && exists m :: 0 <= m < j && PointsTo(ix, qnId, g, c.related[m], t)
    {
      var target := Lookup(ix.questionGroup, IntOrNone(c.related[j]));
      if target.Some? && target.value != g && target.value !in visible &&
         Lookup(ix.groupQuestionnaire, target) == Some(qnId) {
        added := added + {target.value};
      }
    }
  }

  method AddedByRow(ix: Index, qnId: int, g: int, row: AnswerRow, visible: set<int>) returns (added: set<int>)
    ensures forall t :: t in added <==> t !in visible && RowPoints(ix, qnId, g, row, t)
  {
    added := {};
    var q := IntOrNone(row.activeQuestionId);
    if q.None? || Lookup(ix.questionGroup, q) != Some(g) {
      return;
    }
    var choices := ChoicesOf(ix, q.value);
    var ids := SelectedIds(row.selected);
    for i := 0 to |ids|
      invariant forall t :: t in added <==>
                  t !in visible && exists m :: 0 <= m < i && OptionPoints(ix, qnId, g, q.value, ids[m], t)
    {
      var choice := Lookup(choices, IntOrNone(ids[i]));
      if choice.Some? {
        var more := AddedByChoice(ix, qnId, g, choice.value, visible);
        added := added + more;
      }
    }
  }

  lemma {:induction false} RevealsFiled(ix: Index, qnId: int, answers: seq<AnswerRow>, g: int, t: int)
    ensures Reveals(ix, qnId, answers, g, t) <==>
            exists row :: row in Filter(answers, HasKey((qnId, g))) && RowPoints(ix, qnId, g, row, t)
  {
    if Reveals(ix, qnId, answers, g, t) {
      var n :| 0 <= n < |answers| && KeyOf(answers[n]) == Some((qnId, g)) && RowPoints(ix, qnId, g, answers[n], t);
      assert answers[n] in Filter(answers, HasKey((qnId, g)));
    }
    if row :| row in Filter(answers, HasKey((qnId, g))) && RowPoints(ix, qnId, g, row, t) {
      var n :| 0 <= n < |answers| && answers[n] == row;
      assert HasKey((qnId, g))(answers[n]);
    }
  }

  /** What the rows of one group add. */
  method AddedBy(ix: Index, qnId: int, rows: Rows, g: int, visible: set<int>, ghost answers: seq<AnswerRow>)
      returns (added: set<int>)
    requires At(rows, (qnId, g)) == Filter(answers, HasKey((qnId, g)))
    ensures forall t :: t in added <==> t !in visible && Reveals(ix, qnId, answers, g, t)
  {
    added := {};
    var mine := At(rows, (qnId, g));
    for n := 0 to |mine|
      invariant forall t :: t in added <==>
                  t !in visible && exists m :: 0 <= m < n && RowPoints(ix, qnId, g, mine[m], t)
    {
      var more := AddedByRow(ix, qnId, g, mine[n], visible);
      added := added + more;
    }
    forall t
      ensures Reveals(ix, qnId, answers, g, t) <==> exists m :: 0 <= m < |mine| && RowPoints(ix, qnId, g, mine[m], t)
    {
      RevealsFiled(ix, qnId, answers, g, t);
    }
  }

  /** One round over all visible groups. */
  method Round(ix: Index, qnId: int, rows: Rows, visible: set<int>, ghost answers: seq<AnswerRow>)
      returns (added: set<int>)
    requires forall key :: At(rows, key) == Filter(answers, HasKey(key))
    ensures forall t :: t in added <==> t !in visible && NextTo(RevealStep(ix, qnId, answers), visible, t)
  {
    added := {};
    var order := Elements(visible);
    for n := 0 to |order|
      invariant forall t :: t in added <==>
                  t !in visible && exists m :: 0 <= m < n && Reveals(ix, qnId, answers, order[m], t)
    {
      var more := AddedBy(ix, qnId, rows, order[n], visible, answers);
      added := added + more;
    }
    forall t
      ensures NextTo(RevealStep(ix, qnId, answers), visible, t) <==>
              exists m :: 0 <= m < |order| && Reveals(ix, qnId, answers, order[m], t)
    {
      if g :| g in visible && RevealStep(ix, qnId, answers)(g, t) {
        var m :| 0 <= m < |order| && order[m] == g;
        assert Reveals(ix, qnId, answers, order[m], t);
      }
      if m :| 0 <= m < |order| && Reveals(ix, qnId, answers, order[m], t) {
        var g := order[m];
        assert g in visible && RevealStep(ix, qnId, answers)(g, t);
      }
    }
  }

  /** `_visible_group_ids`: exactly the groups reached from the initially visible ones in at most eight
      reveals. */
  method VisibleGroupIds(ix: Index, qn: Questionnaire, rows: Rows, ghost answers: seq<AnswerRow>)
      returns (visible: set<int>)
    requires Filed(rows, answers)
    ensures IsReach(visible, RevealStep(ix, qn.id, answers), Initial(qn), MAX_VISIBILITY_ROUNDS)
  {
    visible := RoundsFrom(ix, qn.id, rows, Initial(qn), answers);
  }

  method RoundsFrom(ix: Index, qnId: int, rows: Rows, init: set<int>, ghost answers: seq<AnswerRow>)
      returns (visible: set<int>)
    requires Filed(rows, answers)
    ensures IsReach(visible, RevealStep(ix, qnId, answers), init, MAX_VISIBILITY_ROUNDS)
  {
    visible := init;
    ghost var e := RevealStep(ix, qnId, answers);
    NoStep(e, init);
    for n := 0 to MAX_VISIBILITY_ROUNDS
      invariant IsReach(visible, e, init, n)
    {
      var added := Round(ix, qnId, rows, visible, answers);
      if added == {} {
        Settled(e, init, n, MAX_VISIBILITY_ROUNDS, visible);
        return;
      }
      RoundReaches(e, init, n, visible, added);
      visible := visible + added;
    }
  }

  // ---------- completion ----------

  function AnswerableGroups(qn: Questionnaire): set<int> {
    set i | 0 <= i < |qn.groups| && HasQuestions(qn.groups[i]) :: qn.groups[i].id
  }

  predicate Configured(qn: Questionnaire) { exists i :: 0 <= i < |qn.groups| && HasQuestions(qn.groups[i]) }

  /** A group of the questionnaire that the voter is asked. */
  ghost predicate Shown(ix: Index, qn: Questionnaire, answers: seq<AnswerRow>, t: int) {
    Reachable(RevealStep(ix, qn.id, answers), Initial(qn), MAX_VISIBILITY_ROUNDS, t) && t in AnswerableGroups(qn)
  }

  /** A group with a row of real content. */
  ghost predicate Answered(ix: Index, answers: seq<AnswerRow>, key: (int, int)) {
    exists row :: row in answers && KeyOf(row) == Some(key) && IsDoneRow(ix, row)
  }

  /** Something is shown and everything shown is answered; without any question, every group has a row. */
  ghost predicate IsCompleted(ix: Index, qn: Questionnaire, answers: seq<AnswerRow>) {
    if Configured(qn) then
      && (exists t :: Shown(ix, qn, answers, t))
      && (forall t :: Shown(ix, qn, answers, t) ==> Answered(ix, answers, (qn.id, t)))
    else forall i :: 0 <= i < |qn.groups| ==> Covered(answers, (qn.id, qn.groups[i].id))
  }

  predicate AnyDone(ix: Index, rows: seq<AnswerRow>) { exists n :: 0 <= n < |rows| && IsDoneRow(ix, rows[n]) }

  lemma AnsweredKeys(ix: Index, rows: Rows, answers: seq<AnswerRow>, key: (int, int))
    requires Filed(rows, answers)
    ensures key in rows && AnyDone(ix, rows[key]) <==> Answered(ix, answers, key)
  {
    assert At(rows, key) == Filter(answers, HasKey(key)) && (key in rows <==> Covered(answers, key));
    if Answered(ix, answers, key) {
      var row :| row in answers && KeyOf(row) == Some(key) && IsDoneRow(ix, row);
      assert HasKey(key)(row) && row in rows[key];
    }
    if key in rows && AnyDone(ix, rows[key]) {
      var n :| 0 <= n < |rows[key]| && IsDoneRow(ix, rows[key][n]);
      assert rows[key][n] in Filter(answers, HasKey(key)) && HasKey(key)(rows[key][n]);
    }
  }

  /** One questionnaire of the completion loop. */
  method QuestionnaireCompleted(ix: Index, qn: Questionnaire, rows: Rows, answered: set<(int, int)>,
                                ghost answers: seq<AnswerRow>)
      returns (done: bool)
    requires Filed(rows, answers)
    requires forall key :: key in answered <==> Answered(ix, answers, key)
    ensures done <==> IsCompleted(ix, qn, answers)
  {
    if !Configured(qn) {
      return forall i :: 0 <= i < |qn.groups| ==> (qn.id, qn.groups[i].id) in rows;
    }
    var reached := VisibleGroupIds(ix, qn, rows, answers);
    var visible := reached * AnswerableGroups(qn);
    assert forall t :: t in visible <==> Shown(ix, qn, answers, t);
    done := visible != {} && forall t :: t in visible ==> (qn.id, t) in answered;
    if done {
      var t :| t in visible;
      assert Shown(ix, qn, answers, t);
    }
  }

  ghost predicate CompletedId(ix: Index, answers: seq<AnswerRow>, i: int) {
    exists k :: 0 <= k < |ix.questionnaires| && ix.questionnaires[k].id == i &&
      IsCompleted(ix, ix.questionnaires[k], answers)
  }

  /** `completed_questionnaire_ids`. */
  method CompletedQuestionnaireIds(ix: Index, answers: seq<AnswerRow>) returns (completed: set<int>)
    ensures forall i :: i in completed <==> CompletedId(ix, answers, i)
  {
    var rows := RowsByGroup(answers);
    var answered := set key | key in rows && AnyDone(ix, rows[key]);
    forall key ensures key in answered <==> Answered(ix, answers, key) {
      AnsweredKeys(ix, rows, answers, key);
    }
    completed := {};
    for n := 0 to |ix.questionnaires|
      invariant forall i :: i in completed <==>
                  exists k :: 0 <= k < n && ix.questionnaires[k].id == i &&
                    IsCompleted(ix, ix.questionnaires[k], answers)
    {
      var done := QuestionnaireCompleted(ix, ix.questionnaires[n], rows, answered, answers);
      if done {
        completed := completed + {ix.questionnaires[n].id};
      }
    }
  }

  /** The gate: every required questionnaire is completed. */
  ghost predicate Passes(ix: Index, answers: seq<AnswerRow>) {
    forall k :: 0 <= k < |ix.questionnaires| && ix.questionnaires[k].required ==>
      CompletedId(ix, answers, ix.questionnaires[k].id)
  }

  /** `is_complete`. */
  method IsComplete(structure: seq<Questionnaire>, answers: seq<AnswerRow>) returns (r: bool)
    ensures r <==> Passes(IndexOf(structure), answers)
  {
    var ix := BuildIndex(structure);
    var completed := CompletedQuestionnaireIds(ix, answers);
    r :=
      forall k :: 0 <= k < |ix.questionnaires| && ix.questionnaires[k].required ==>
        ix.questionnaires[k].id in completed;
  }
}
