/** What the answer validator accepts, read off the questionnaire tree alone
    (src/apps/questionnaire/validation.py). */
module ValidOnTree {
  import opened Structure
  import opened Validation
  import opened Completion
  import opened CompletionFacts
  import opened GateOnTree

  // ---------- the promise ----------

  /** The row's active question is a question of the group. */
  predicate Active(g: Group, row: AnswerRow, q: Question) {
    q in g.questions && row.activeQuestionId == IntVal(q.id)
  }

  /** No active question, or one of the group. */
  ghost predicate AsksInGroup(g: Group, row: AnswerRow) {
    row.activeQuestionId == Null || exists q :: Active(g, row, q)
  }

  ghost predicate IsOptionOf(g: Group, row: AnswerRow, id: Val) {
    exists q, c :: Active(g, row, q) && c in q.choices && id == IntVal(c.id)
  }

  /** A list of different options of the active question, or nothing. */
  ghost predicate OptionsInGroup(g: Group, row: AnswerRow) {
    match row.selected
    case NotAList(truthy) => !truthy
    case ListOf(ids) =>
      && (forall i :: 0 <= i < |ids| ==> IsOptionOf(g, row, ids[i]))
      && (forall i, j :: 0 <= i < j < |ids| ==> ids[i] != ids[j])
  }

  /** The question's limit, or 1000 characters. */
  function Limit(q: Question): int { match q.maxInputLen case Some(n) => n case None => 1000 }

  /** No text, or text for the active question within its limit. */
  ghost predicate TextInGroup(g: Group, row: AnswerRow) {
    match row.input
    case NoText => true
    case NotText(_) => false
    case TextVal(s) => s == "" || exists q :: Active(g, row, q) && |s| <= Limit(q)
  }

  ghost predicate FitsGroup(qn: Questionnaire, g: Group, row: AnswerRow) {
    && g in qn.groups && row.questionnaireId == IntVal(qn.id) && row.groupId == IntVal(g.id)
    && AsksInGroup(g, row) && OptionsInGroup(g, row) && TextInGroup(g, row)
  }

  ghost predicate ValidRow(qns: seq<Questionnaire>, row: AnswerRow) {
    exists qn, g :: qn in qns && FitsGroup(qn, g, row)
  }

  // ---------- the index knows the groups ----------

  lemma GroupPlaced(qns: seq<Questionnaire>, i: int) returns (qn: Questionnaire, g: Group)
    requires UniqueStructure(qns) && i in IndexOf(qns).groups
    ensures qn in qns && g in qn.groups && g.id == i
    ensures var ix := IndexOf(qns); i in ix.groupQuestionnaire && ix.groupQuestionnaire[i] == qn.id
  {
    CollectFrom(Seats(qns), SeatId(), SeatGroup(), i);
    var n :| 0 <= n < |Seats(qns)| && SeatId()(Seats(qns)[n]) == i;
    var s := Seats(qns)[n];
    assert s in Seats(qns);
    InSeats(qns, s);
    GroupKnown(qns, s);
    qn, g := s.qn, s.g;
  }

  lemma GroupListed(qns: seq<Questionnaire>, qn: Questionnaire, g: Group)
    requires UniqueStructure(qns) && qn in qns && g in qn.groups
    ensures var ix := IndexOf(qns);
            g.id in ix.groups && g.id in ix.groupQuestionnaire && ix.groupQuestionnaire[g.id] == qn.id
  {
    InSeats(qns, Seat(qn, g));
    GroupKnown(qns, Seat(qn, g));
  }

  /** The index files a question under the group exactly when the group has it. */
  lemma QuestionOfGroup(qns: seq<Questionnaire>, qn: Questionnaire, g: Group, i: int) returns (q: Question)
    requires UniqueStructure(qns) && qn in qns && g in qn.groups
    requires i in IndexOf(qns).questionGroup && IndexOf(qns).questionGroup[i] == g.id
    ensures q in g.questions && q.id == i
    ensures var ix := IndexOf(qns);
            i in ix.questions && ix.questions[i] == q && ChoicesOf(ix, i) == ChoiceMap(q.choices)
  {
    GroupListed(qns, qn, g);
    var p := HomeIsPlace(qns, qn, i, g.id);
    InSeats(qns, Seat(qn, g));
    InSeats(qns, Seat(p.qn, p.g));
    PlaceIsHome(qns, qn, p, i, g.id);
    q := p.q;
  }

  lemma QuestionInGroup(qns: seq<Questionnaire>, qn: Questionnaire, g: Group, q: Question)
    requires UniqueStructure(qns) && qn in qns && g in qn.groups && q in g.questions
    ensures var ix := IndexOf(qns);
            && q.id in ix.questions && ix.questions[q.id] == q && q.id in ix.questionGroup
            && ix.questionGroup[q.id] == g.id && ChoicesOf(ix, q.id) == ChoiceMap(q.choices)
  {
    PlaceIsHome(qns, qn, Place(qn, g, q), q.id, g.id);
  }

  lemma OptionKnown(ix: Index, q: Question, i: int)
    requires ChoicesOf(ix, q.id) == ChoiceMap(q.choices)
    ensures HasChoice(ix, q.id, i) <==> exists c :: c in q.choices && c.id == i
  {
    if HasChoice(ix, q.id, i) {
      var c := ChoiceMap(q.choices)[i];
      ChoiceIsLast(q, q.choices, i, c);
      assert c in q.choices;
    }
    if c :| c in q.choices && c.id == i {
      ListedInMap(q.choices, c);
    }
  }

  // ---------- row by row ----------

  lemma ValidIfOk(qns: seq<Questionnaire>, row: AnswerRow)
    requires UniqueStructure(qns) && RowOk(IndexOf(qns), row)
    ensures ValidRow(qns, row)
  {
    var ix := IndexOf(qns);
    var qn, g := GroupPlaced(qns, row.groupId.n);
    if row.activeQuestionId.IntVal? {
      var q := QuestionOfGroup(qns, qn, g, row.activeQuestionId.n);
      assert Active(g, row, q);
      OptionsFit(qns, qn, g, row, q);
    }
    assert row.selected.ListOf? ==> SelectedIds(row.selected) == row.selected.ids;
    assert FitsGroup(qn, g, row);
  }

  lemma OptionsFit(qns: seq<Questionnaire>, qn: Questionnaire, g: Group, row: AnswerRow, q: Question)
    requires UniqueStructure(qns) && qn in qns && g in qn.groups && Active(g, row, q) && OptionsOk(IndexOf(qns), row)
    ensures OptionsInGroup(g, row)
  {
    QuestionInGroup(qns, qn, g, q);
    if row.selected.ListOf? {
      var ids := row.selected.ids;
      forall i | 0 <= i < |ids| ensures IsOptionOf(g, row, ids[i]) {
        assert SelectedIds(row.selected)[i].IntVal? && HasChoice(IndexOf(qns), q.id, ids[i].n);
        OptionKnown(IndexOf(qns), q, ids[i].n);
        var c :| c in q.choices && c.id == ids[i].n;
      }
    }
  }

  lemma OkIfValid(qns: seq<Questionnaire>, qn: Questionnaire, g: Group, row: AnswerRow)
    requires UniqueStructure(qns) && qn in qns && FitsGroup(qn, g, row)
    ensures RowOk(IndexOf(qns), row)
  {
    GroupListed(qns, qn, g);
    if q :| Active(g, row, q) {
      QuestionInGroup(qns, qn, g, q);
    }
    OptionsOkIfFit(qns, qn, g, row);
    if row.input.TextVal? && row.input.s != "" {
      var q :| Active(g, row, q) && |row.input.s| <= Limit(q);
      QuestionInGroup(qns, qn, g, q);
    }
  }

  lemma OptionsOkIfFit(qns: seq<Questionnaire>, qn: Questionnaire, g: Group, row: AnswerRow)
    requires UniqueStructure(qns) && qn in qns && g in qn.groups && OptionsInGroup(g, row)
    ensures OptionsOk(IndexOf(qns), row)
  {
    var ids := SelectedIds(row.selected);
    forall i | 0 <= i < |ids|
      ensures ids[i].IntVal? && row.activeQuestionId.IntVal? &&
              HasChoice(IndexOf(qns), row.activeQuestionId.n, ids[i].n)
    {
      assert IsOptionOf(g, row, ids[i]);
      var q, c :| Active(g, row, q) && c in q.choices && ids[i] == IntVal(c.id);
      QuestionInGroup(qns, qn, g, q);
      OptionKnown(IndexOf(qns), q, c.id);
    }
    assert |ids| != 0 ==> ids[0].IntVal? && row.activeQuestionId.IntVal?;
    assert row.selected.ListOf? ==> ids == row.selected.ids;
  }

  /** The validator accepts exactly the submissions that fit the tree: every row in a group of its questionnaire,
      with a question of the group, options of the question and text within its limit, and no group twice. */
  lemma AcceptedIffFits(qns: seq<Questionnaire>, rows: seq<AnswerRow>)
    requires UniqueStructure(qns)
    ensures RowsOk(IndexOf(qns), rows) <==>
            && (forall i :: 0 <= i < |rows| ==> ValidRow(qns, rows[i]))
            && (forall i, j :: 0 <= i < j < |rows| ==>
                  !(rows[i].questionnaireId == rows[j].questionnaireId && rows[i].groupId == rows[j].groupId))
  {
    forall i | 0 <= i < |rows| ensures RowOk(IndexOf(qns), rows[i]) <==> ValidRow(qns, rows[i]) {
      if RowOk(IndexOf(qns), rows[i]) {
        ValidIfOk(qns, rows[i]);
      }
      if qn, g :| qn in qns && FitsGroup(qn, g, rows[i]) {
        OkIfValid(qns, qn, g, rows[i]);
      }
    }
  }
}
