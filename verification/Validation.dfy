/** Reference validation of submitted answer rows (src/apps/questionnaire/validation.py). */
module Validation {
  import opened Prelude
  import opened Structure

  datatype Reason = MissingIds | UnknownGroup | ForeignGroup | RepeatedGroup | BadQuestion | ForeignQuestion
                  | BadOptions | BadOption
                  | RepeatedOption | OptionsWithoutQuestion | ForeignOption | BadText | TextWithoutQuestion
                  | TextTooLong

  // ---------- the requirements, declaratively ----------

  /** The row names a group that belongs to the questionnaire it names. */
  predicate OwnershipOk(ix: Index, row: AnswerRow) {
    && row.questionnaireId.IntVal? && row.groupId.IntVal?
    && row.groupId.n in ix.groups && row.groupId.n in ix.groupQuestionnaire
    && ix.groupQuestionnaire[row.groupId.n] == row.questionnaireId.n
  }

  /** No active question, or one of the row's group. */
  predicate QuestionOk(ix: Index, row: AnswerRow) {
    row.activeQuestionId == Null ||
    (row.activeQuestionId.IntVal? && row.activeQuestionId.n in ix.questionGroup &&
       row.groupId == IntVal(ix.questionGroup[row.activeQuestionId.n]))
  }

  /** Integer option ids without repetition, all of the active question. */
  ghost predicate OptionsOk(ix: Index, row: AnswerRow) {
    && (row.selected.NotAList? ==> !row.selected.truthy)
    && var ids := SelectedIds(row.selected);
       && (forall i :: 0 <= i < |ids| ==> ids[i].IntVal?)
       && Distinct(ids)
       && (|ids| != 0 ==> row.activeQuestionId.IntVal?)
       && (forall i :: 0 <= i < |ids| ==>
             ids[i].IntVal? && row.activeQuestionId.IntVal? && HasChoice(ix, row.activeQuestionId.n, ids[i].n))
  }

  predicate HasChoice(ix: Index, question: int, choice: int) {
    question in ix.questionChoices && choice in ix.questionChoices[question]
  }

  /** No text, or text for an active question within its limit. */
  predicate TextOk(ix: Index, row: AnswerRow) {
    match row.input
    case NoText => true
    case NotText(_) => false
    case TextVal(s) => (s == "" || FitsQuestion(ix, row.activeQuestionId, s))
  }

  predicate FitsQuestion(ix: Index, question: Val, s: string) {
    question.IntVal? && question.n in ix.questions && |s| <= MaxInputLen(ix.questions[question.n])
  }

  ghost predicate RowOk(ix: Index, row: AnswerRow) {
    OwnershipOk(ix, row) && QuestionOk(ix, row) && OptionsOk(ix, row) && TextOk(ix, row)
  }

  /** Every row is well formed and no group is answered twice. */
  ghost predicate RowsOk(ix: Index, rows: seq<AnswerRow>) {
    && (forall i :: 0 <= i < |rows| ==> RowOk(ix, rows[i]))
    && (forall i, j :: 0 <= i < j < |rows| ==>
          (rows[i].questionnaireId, rows[i].groupId) != (rows[j].questionnaireId, rows[j].groupId))
  }

  // ---------- the loops ----------

  /** The option loops: collect the ids, then look each of them up. */
  method CheckOptions(ix: Index, row: AnswerRow) returns (r: Result<seq<int>, Reason>)
    ensures r.Ok? <==> OptionsOk(ix, row)
  {
    if row.selected.NotAList? && row.selected.truthy {
      return Err(BadOptions);
    }
    var raw := SelectedIds(row.selected);
    var optionIds: seq<int> := [];
    for n := 0 to |raw|
      invariant |optionIds| == n && forall i :: 0 <= i < n ==> raw[i] == IntVal(optionIds[i])
      invariant Distinct(optionIds)
    {
      var option := AsInt(raw[n]);
      if option.None? {
        return Err(BadOption);
      }
      if option.value in optionIds {
        return Err(RepeatedOption);
      }
      optionIds := optionIds + [option.value];
    }
    forall i, j | 0 <= i < j < |raw| ensures raw[i] != raw[j] {
      assert optionIds[i] != optionIds[j];
    }
    if |optionIds| != 0 {
      var question := AsInt(row.activeQuestionId);
      if question.None? {
        return Err(OptionsWithoutQuestion);
      }
      for n := 0 to |optionIds|
        invariant forall i :: 0 <= i < n ==> HasChoice(ix, question.value, optionIds[i])
      {
        if !HasChoice(ix, question.value, optionIds[n]) {
          return Err(ForeignOption);
        }
      }
    }
    r := Ok(optionIds);
  }

  /** The checks on one row; `seen` holds the groups answered so far. */
  method CheckRow(ix: Index, row: AnswerRow, seen: set<(int, int)>) returns (r: Result<(int, int), Reason>)
    requires ix.questionGroup.Keys == ix.questions.Keys && ix.groups.Keys == ix.groupQuestionnaire.Keys
    ensures r.Ok? <==> RowOk(ix, row) && (row.questionnaireId.n, row.groupId.n) !in seen
    ensures r.Ok? ==> r.value == (row.questionnaireId.n, row.groupId.n)
  {
    var qn, g := AsInt(row.questionnaireId), AsInt(row.groupId);
    if qn.None? || g.None? {
      return Err(MissingIds);
    }
    if g.value !in ix.groups {
      return Err(UnknownGroup);
    }
    if ix.groupQuestionnaire[g.value] != qn.value {
      return Err(ForeignGroup);
    }
    var key := (qn.value, g.value);
    if key in seen {
      return Err(RepeatedGroup);
    }
    var question := AsInt(row.activeQuestionId);
    if row.activeQuestionId != Null {
      if question.None? {
        return Err(BadQuestion);
      }
      if question.value !in ix.questionGroup || ix.questionGroup[question.value] != g.value {
        return Err(ForeignQuestion);
      }
    }
    var options := CheckOptions(ix, row);
    if options.Err? {
      return Err(options.error);
    }
    if row.input.NotText? {
      return Err(BadText);
    }
    if row.input.TextVal? && row.input.s != "" {
      if question.None? {
        return Err(TextWithoutQuestion);
      }
      if |row.input.s| > MaxInputLen(ix.questions[question.value]) {
        return Err(TextTooLong);
      }
    }
    r := Ok(key);
  }

  /** The validator accepts exactly the well-formed submissions. */
  method ValidateAnswerRows(structure: seq<Questionnaire>, rows: seq<AnswerRow>) returns (r: Result<(), Reason>)
    ensures r.Ok? <==> RowsOk(IndexOf(structure), rows)
  {
    var ix := BuildIndex(structure);
    IndexKeys(structure);
    var seen: set<(int, int)> := {};
    for n := 0 to |rows|
      invariant RowsOk(ix, rows[..n])
      invariant forall key :: key in seen <==> SomeRowAt(rows[..n], key)
    {
      assert rows[..n+1] == rows[..n] + [rows[n]];
      RowsSnoc(ix, rows[..n], rows[n], seen);
      var key := CheckRow(ix, rows[n], seen);
      if key.Err? {
        if RowsOk(ix, rows) {
          RowsPrefix(ix, rows, n + 1);
        }
        return Err(key.error);
      }
      forall k ensures SomeRowAt(rows[..n+1], k) <==> SomeRowAt(rows[..n], k) || k == key.value {
        RowAtSnoc(rows[..n], rows[n], k);
      }
      seen := seen + {key.value};
    }
    assert rows[..|rows|] == rows;
    r := Ok(());
  }

  predicate AtKey(row: AnswerRow, key: (int, int)) {
    row.questionnaireId == IntVal(key.0) && row.groupId == IntVal(key.1)
  }

  ghost predicate SomeRowAt(rows: seq<AnswerRow>, key: (int, int)) {
    exists i :: 0 <= i < |rows| && AtKey(rows[i], key)
  }

  lemma RowAtSnoc(rows: seq<AnswerRow>, row: AnswerRow, key: (int, int))
    ensures SomeRowAt(rows + [row], key) <==> SomeRowAt(rows, key) || AtKey(row, key)
  {
    var next := rows + [row];
    assert next[|rows|] == row && forall i :: 0 <= i < |rows| ==> next[i] == rows[i];
  }

  lemma RowsSnoc(ix: Index, rows: seq<AnswerRow>, row: AnswerRow, seen: set<(int, int)>)
    requires RowsOk(ix, rows)
    requires forall key :: key in seen <==> SomeRowAt(rows, key)
    ensures RowsOk(ix, rows + [row]) <==> RowOk(ix, row) && (row.questionnaireId.n, row.groupId.n) !in seen
  {
    var next := rows + [row];
    assert next[|rows|] == row && forall i :: 0 <= i < |rows| ==> next[i] == rows[i];
    if RowOk(ix, row) {
      var key := (row.questionnaireId.n, row.groupId.n);
      assert forall i :: 0 <= i < |rows| ==>
        (AtKey(rows[i], key) <==> (rows[i].questionnaireId, rows[i].groupId) == (row.questionnaireId, row.groupId));
    }
  }

  lemma RowsPrefix(ix: Index, rows: seq<AnswerRow>, n: nat)
    requires n <= |rows| && RowsOk(ix, rows)
    ensures RowsOk(ix, rows[..n])
  {
  }

  // ---------- what counts as an answer ----------

  predicate IsSpace(c: char) {
    var n := c as int;
    9 <= n <= 13 || 28 <= n <= 32 || n == 0x85 || n == 0xA0 || n == 0x1680 || 0x2000 <= n <= 0x200A
    || n == 0x2028 || n == 0x2029 || n == 0x202F || n == 0x205F || n == 0x3000
  }

  /** `bool(text.strip())`. */
  predicate HasInk(s: string) { exists i :: 0 <= i < |s| && !IsSpace(s[i]) }

  /** `is_done_row`. */
  predicate IsDoneRow(ix: Index, row: AnswerRow) {
    && row.activeQuestionId.IntVal?
    && var q := row.activeQuestionId.n;
       && q in ix.questions
       && q in ix.questionGroup && EqualsInt(ix.questionGroup[q], row.groupId)
       && if ix.questions[q].kind == "Input" then row.input.TextVal? && HasInk(row.input.s)
          else exists i :: 0 <= i < |SelectedIds(row.selected)| && SelectedIds(row.selected)[i].IntVal? &&
                           HasChoice(ix, q, SelectedIds(row.selected)[i].n)
  }

  /** An accepted row fails to count as an answer only for lack of content: no active question, no ink in
      a text question, no option in any other. */
  lemma AcceptedRowIsDone(structure: seq<Questionnaire>, row: AnswerRow)
    requires RowOk(IndexOf(structure), row)
    ensures var ix := IndexOf(structure);
            IsDoneRow(ix, row) <==>
              row.activeQuestionId.IntVal? && row.activeQuestionId.n in ix.questions &&
              if ix.questions[row.activeQuestionId.n].kind == "Input" then row.input.TextVal? && HasInk(row.input.s)
              else |SelectedIds(row.selected)| != 0
    ensures row.activeQuestionId == Null ||
            (row.activeQuestionId.IntVal? && row.activeQuestionId.n in IndexOf(structure).questions)
  {
    IndexKeys(structure);
    var ids := SelectedIds(row.selected);
    if |ids| != 0 {
      assert ids[0].IntVal? && HasChoice(IndexOf(structure), row.activeQuestionId.n, ids[0].n);
    }
  }
}
