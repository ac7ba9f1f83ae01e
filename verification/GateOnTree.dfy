/** The completion gate read off the questionnaire tree and the answer rows alone, without the index or any of
    the functions the gate is computed with (src/apps/questionnaire/completion.py). */
module GateOnTree {
  import opened Prelude
  import opened Reachability
  import opened Structure
  import opened Validation
  import opened Completion
  import opened CompletionFacts

  // ---------- the promise ----------

  /** The value is the integer, or something Python's `int()` makes it of. */
  predicate IsInt(v: Val, n: int) { v == IntVal(n) || v == OtherVal(Some(n)) }

  ghost predicate Asks(qn: Questionnaire, t: int, q: Question) {
    exists k :: 0 <= k < |qn.groups| && qn.groups[k].id == t && q in qn.groups[k].questions
  }

  /** The option as the question lists it last. */
  ghost predicate LastChoice(q: Question, c: Choice) {
    exists j :: 0 <= j < |q.choices| && q.choices[j] == c && forall m :: j < m < |q.choices| ==> q.choices[m].id != c.id
  }

  ghost predicate Chooses(row: AnswerRow, q: Question, c: Choice) {
    row.selected.ListOf? && LastChoice(q, c) &&
      exists i :: 0 <= i < |row.selected.ids| && IsInt(row.selected.ids[i], c.id)
  }

  predicate RowFor(row: AnswerRow, qnId: int, t: int) { IsInt(row.questionnaireId, qnId) && IsInt(row.groupId, t) }

  /** A row of group `g` selects, at a question of that group, an option related to a question of group `t`. */
  ghost predicate LeadsTo(qn: Questionnaire, answers: seq<AnswerRow>, g: int, t: int) {
    exists row, q, c :: row in answers && RowLeads(qn, row, g, q, c, t)
  }

  ghost predicate RowLeads(qn: Questionnaire, row: AnswerRow, g: int, q: Question, c: Choice, t: int) {
    && RowFor(row, qn.id, g) && Asks(qn, g, q) && IsInt(row.activeQuestionId, q.id) && Chooses(row, q, c)
    && t != g && Related(qn, c, t)
  }

  /** A group that is shown from the start: it has a question, and it is first in order or not hidden. */
  ghost predicate StartsShown(qn: Questionnaire, t: int) {
    exists k :: 0 <= k < |qn.groups| && qn.groups[k].id == t && qn.groups[k].questions != [] &&
      (qn.groups[k].order == 1 || !qn.groups[k].hiddenByDefault)
  }

  /** At most eight answers lead from a group shown at the start to group `t`. */
  ghost predicate IsTrail(qn: Questionnaire, answers: seq<AnswerRow>, t: int, trail: seq<int>) {
    && 1 <= |trail| <= 9 && StartsShown(qn, trail[0]) && trail[|trail|-1] == t
    && forall i :: 0 <= i < |trail| - 1 ==> LeadsTo(qn, answers, trail[i], trail[i+1])
  }

  ghost predicate ShownOnTree(qn: Questionnaire, answers: seq<AnswerRow>, t: int) {
    exists trail :: IsTrail(qn, answers, t, trail)
  }

  /** A row of the group answers one of its questions: with visible text if it is a text question, otherwise
      with one of its options. */
  ghost predicate AnsweredOnTree(qn: Questionnaire, answers: seq<AnswerRow>, t: int) {
    exists row, q :: row in answers && RowAnswers(qn, row, t, q)
  }

  ghost predicate RowAnswers(qn: Questionnaire, row: AnswerRow, t: int, q: Question) {
    && IsInt(row.questionnaireId, qn.id) && row.groupId == IntVal(t)
    && Asks(qn, t, q) && row.activeQuestionId == IntVal(q.id)
    && if q.kind == "Input" then row.input.TextVal? && Stripped(row.input.s) != ""
       else row.selected.ListOf? && exists c :: c in q.choices && IntVal(c.id) in row.selected.ids
  }

  ghost predicate CompletedOnTree(qn: Questionnaire, answers: seq<AnswerRow>) {
    if exists k :: 0 <= k < |qn.groups| && qn.groups[k].questions != [] then
      && (exists t :: ShownOnTree(qn, answers, t))
      && (forall t :: ShownOnTree(qn, answers, t) ==> AnsweredOnTree(qn, answers, t))
    else
      forall k :: 0 <= k < |qn.groups| ==> exists row :: row in answers && RowFor(row, qn.id, qn.groups[k].id)
  }

  // ---------- stripping ----------

  /** The 29 characters Python strips. */
  const SPACES: set<int> := {
    9, 10, 11, 12, 13, 28, 29, 30, 31, 32, 0x85, 0xA0, 0x1680, 0x2000, 0x2001, 0x2002, 0x2003, 0x2004, 0x2005,
    0x2006, 0x2007, 0x2008, 0x2009, 0x200A, 0x2028, 0x2029, 0x202F, 0x205F, 0x3000 }

  /** `text.strip()`. */
  function Stripped(s: string): string {
    if s != "" && s[0] as int in SPACES then Stripped(s[1..])
    else if s != "" && s[|s|-1] as int in SPACES then Stripped(s[..|s|-1])
    else s
  }

  lemma SpacesListed(c: char)
    ensures IsSpace(c) <==> c as int in SPACES
  {
  }

  /** Something is left after stripping exactly when the text has ink. */
  lemma {:induction false} InkIsLeft(s: string)
    ensures HasInk(s) <==> Stripped(s) != ""
    decreases |s|
  {
    if s != "" {
      var n := |s| - 1;
      SpacesListed(s[0]);
      SpacesListed(s[n]);
      if s[0] as int in SPACES {
        InkIsLeft(s[1..]);
        assert forall i :: 0 <= i < n ==> s[1..][i] == s[i+1];
        if i :| 0 <= i < |s| && !IsSpace(s[i]) {
          assert s[1..][i-1] == s[i];
        }
      } else {
        assert !IsSpace(s[0]);
        StripKeeps(s);
      }
    }
  }

  lemma {:induction false} StripKeeps(s: string)
    requires s != "" && s[0] as int !in SPACES
    ensures Stripped(s) != ""
    decreases |s|
  {
    if s[|s|-1] as int in SPACES {
      StripKeeps(s[..|s|-1]);
    }
  }

  // ---------- the index knows the tree ----------

  lemma IntIs(v: Val, n: int)
    ensures IntOrNone(v) == Some(n) <==> IsInt(v, n)
  {
  }

  lemma KeyIsRow(row: AnswerRow, qnId: int, t: int)
    ensures KeyOf(row) == Some((qnId, t)) <==> RowFor(row, qnId, t)
  {
  }

  /** `c` is the last option of the list with its id. */
  ghost predicate LastIn(choices: seq<Choice>, c: Choice) {
    exists j :: LastAt(choices, c, j)
  }

  ghost predicate LastAt(choices: seq<Choice>, c: Choice, j: int) {
    0 <= j < |choices| && choices[j] == c && forall m :: j < m < |choices| ==> choices[m].id != c.id
  }

  lemma LastSnoc(choices: seq<Choice>, last: Choice, c: Choice)
    ensures LastIn(choices + [last], c) <==> c == last || (last.id != c.id && LastIn(choices, c))
  {
    var all := choices + [last];
    assert all[|choices|] == last && forall j :: 0 <= j < |choices| ==> all[j] == choices[j];
    if c == last {
      assert LastAt(all, c, |choices|);
    } else {
      if j :| LastAt(choices, c, j) && last.id != c.id {
        assert LastAt(all, c, j);
      }
      if j :| LastAt(all, c, j) {
        assert LastAt(choices, c, j);
      }
    }
  }

  lemma {:induction false} MapIsLast(choices: seq<Choice>, i: int, c: Choice)
    ensures i in ChoiceMap(choices) && ChoiceMap(choices)[i] == c <==> c.id == i && LastIn(choices, c)
  {
    if |choices| != 0 {
      var front, last := choices[..|choices|-1], choices[|choices|-1];
      MapIsLast(front, i, c);
      LastSnoc(front, last, c);
      assert choices == front + [last];
    }
  }

  lemma ChoiceIsLast(q: Question, choices: seq<Choice>, i: int, c: Choice)
    requires choices == q.choices
    ensures i in ChoiceMap(choices) && ChoiceMap(choices)[i] == c <==> c.id == i && LastChoice(q, c)
  {
    MapIsLast(choices, i, c);
    if j :| LastAt(choices, c, j) {
      assert q.choices[j] == c;
    }
    if LastChoice(q, c) {
      var j :| 0 <= j < |q.choices| && q.choices[j] == c && forall m :: j < m < |q.choices| ==> q.choices[m].id != c.id;
      assert LastAt(choices, c, j);
    }
  }

  lemma HomeOnTree(qns: seq<Questionnaire>, qn: Questionnaire, i: int, t: int) returns (q: Question)
    requires UniqueStructure(qns) && qn in qns && Home(IndexOf(qns), qn.id, Some(i), t)
    ensures Asks(qn, t, q) && q.id == i
    ensures var ix := IndexOf(qns);
            i in ix.questions && ix.questions[i] == q && ChoicesOf(ix, i) == ChoiceMap(q.choices)
  {
    var p := HomeIsPlace(qns, qn, i, t);
    PlaceIsHome(qns, qn, p, i, t);
    q := p.q;
    var k :| 0 <= k < |qn.groups| && qn.groups[k] == p.g;
    assert qn.groups[k].id == t;
  }

  lemma AskedIsHome(qns: seq<Questionnaire>, qn: Questionnaire, t: int, q: Question)
    requires UniqueStructure(qns) && qn in qns && Asks(qn, t, q)
    ensures var ix := IndexOf(qns);
            && Home(ix, qn.id, Some(q.id), t) && q.id in ix.questions && ix.questions[q.id] == q
            && ChoicesOf(ix, q.id) == ChoiceMap(q.choices)
  {
    var k :| 0 <= k < |qn.groups| && qn.groups[k].id == t && q in qn.groups[k].questions;
    PlaceIsHome(qns, qn, Place(qn, qn.groups[k], q), q.id, t);
  }

  // ---------- revealing ----------

  /** A related question of the option lies in group `t`. */
  ghost predicate Related(qn: Questionnaire, c: Choice, t: int) {
    exists r, target :: r in c.related && Asks(qn, t, target) && IsInt(r, target.id)
  }

  /** The index files the questions of the questionnaire as the tree has them. */
  ghost predicate Knows(ix: Index, qn: Questionnaire) {
    && (forall i, t :: Home(ix, qn.id, Some(i), t) ==> exists q :: Asks(qn, t, q) && q.id == i)
    && (forall q, t :: Asks(qn, t, q) ==> Home(ix, qn.id, Some(q.id), t) && ChoicesOf(ix, q.id) == ChoiceMap(q.choices))
  }

  lemma IndexKnows(qns: seq<Questionnaire>, qn: Questionnaire)
    requires UniqueStructure(qns) && qn in qns
    ensures Knows(IndexOf(qns), qn)
  {
    forall i, t | Home(IndexOf(qns), qn.id, Some(i), t) ensures exists q :: Asks(qn, t, q) && q.id == i {
      var q := HomeOnTree(qns, qn, i, t);
    }
    forall q, t | Asks(qn, t, q)
      ensures Home(IndexOf(qns), qn.id, Some(q.id), t) && ChoicesOf(IndexOf(qns), q.id) == ChoiceMap(q.choices)
    {
      AskedIsHome(qns, qn, t, q);
    }
  }

  lemma RelatedOnTree(ix: Index, qn: Questionnaire, g: int, c: Choice, t: int)
    requires Knows(ix, qn)
    ensures ChoicePoints(ix, qn.id, g, c, t) <==> t != g && Related(qn, c, t)
  {
    if j :| 0 <= j < |c.related| && PointsTo(ix, qn.id, g, c.related[j], t) {
      var i := IntOrNone(c.related[j]).value;
      assert Home(ix, qn.id, Some(i), t);
      var target :| Asks(qn, t, target) && target.id == i;
      assert c.related[j] in c.related && IsInt(c.related[j], target.id);
    }
    if t != g && Related(qn, c, t) {
      var r, target :| r in c.related && Asks(qn, t, target) && IsInt(r, target.id);
      var j :| 0 <= j < |c.related| && c.related[j] == r;
      assert PointsTo(ix, qn.id, g, c.related[j], t);
    }
  }

  /** Some selected option of the question is related to group `t`. */
  ghost predicate SelectsTowards(qn: Questionnaire, row: AnswerRow, q: Question, t: int) {
    exists c :: Chooses(row, q, c) && Related(qn, c, t)
  }

  predicate SomeOptionPoints(ix: Index, qnId: int, g: int, q: int, ids: seq<Val>, t: int) {
    exists i :: 0 <= i < |ids| && OptionPoints(ix, qnId, g, q, ids[i], t)
  }

  lemma SelectsIfPoints(ix: Index, qn: Questionnaire, row: AnswerRow, g: int, q: Question, t: int)
    requires Knows(ix, qn) && ChoicesOf(ix, q.id) == ChoiceMap(q.choices)
    requires SomeOptionPoints(ix, qn.id, g, q.id, SelectedIds(row.selected), t)
    ensures t != g && SelectsTowards(qn, row, q, t)
  {
    var ids := SelectedIds(row.selected);
    var i :| 0 <= i < |ids| && OptionPoints(ix, qn.id, g, q.id, ids[i], t);
    var n := IntOrNone(ids[i]).value;
    var c := ChoiceMap(q.choices)[n];
    ChoiceIsLast(q, q.choices, n, c);
    RelatedOnTree(ix, qn, g, c, t);
    assert IsInt(row.selected.ids[i], c.id);
  }

  lemma PointsIfSelects(ix: Index, qn: Questionnaire, row: AnswerRow, g: int, q: Question, t: int)
    requires Knows(ix, qn) && ChoicesOf(ix, q.id) == ChoiceMap(q.choices)
    requires t != g && SelectsTowards(qn, row, q, t)
    ensures SomeOptionPoints(ix, qn.id, g, q.id, SelectedIds(row.selected), t)
  {
    var c :| Chooses(row, q, c) && Related(qn, c, t);
    var i :| 0 <= i < |row.selected.ids| && IsInt(row.selected.ids[i], c.id);
    ChoiceIsLast(q, q.choices, c.id, c);
    RelatedOnTree(ix, qn, g, c, t);
    assert OptionPoints(ix, qn.id, g, q.id, SelectedIds(row.selected)[i], t);
  }

  lemma PointsAt(ix: Index, qnId: int, row: AnswerRow, g: int, t: int) returns (i: int)
    requires RowPoints(ix, qnId, g, row, t)
    ensures IntOrNone(row.activeQuestionId) == Some(i) && Lookup(ix.questionGroup, Some(i)) == Some(g)
    ensures SomeOptionPoints(ix, qnId, g, i, SelectedIds(row.selected), t)
  {
    i := IntOrNone(row.activeQuestionId).value;
  }

  lemma AskedAt(ix: Index, qn: Questionnaire, i: int, g: int) returns (q: Question)
    requires Knows(ix, qn) && Home(ix, qn.id, Some(i), g)
    ensures Asks(qn, g, q) && q.id == i && ChoicesOf(ix, i) == ChoiceMap(q.choices)
  {
    q :| Asks(qn, g, q) && q.id == i;
  }

  lemma LeadsIfPoints(ix: Index, qn: Questionnaire, row: AnswerRow, g: int, t: int) returns (q: Question, c: Choice)
    requires Knows(ix, qn) && Lookup(ix.groupQuestionnaire, Some(g)) == Some(qn.id)
    requires KeyOf(row) == Some((qn.id, g)) && RowPoints(ix, qn.id, g, row, t)
    ensures RowLeads(qn, row, g, q, c, t)
  {
    var i := PointsAt(ix, qn.id, row, g, t);
    q := AskedAt(ix, qn, i, g);
    SelectsIfPoints(ix, qn, row, g, q, t);
    c :| Chooses(row, q, c) && Related(qn, c, t);
    KeyIsRow(row, qn.id, g);
    IntIs(row.activeQuestionId, q.id);
  }

  lemma PointsIfLeads(ix: Index, qn: Questionnaire, row: AnswerRow, g: int, q: Question, c: Choice, t: int)
    requires Knows(ix, qn) && RowLeads(qn, row, g, q, c, t)
    ensures KeyOf(row) == Some((qn.id, g)) && RowPoints(ix, qn.id, g, row, t)
  {
    assert SelectsTowards(qn, row, q, t);
    PointsIfSelects(ix, qn, row, g, q, t);
  }

  /** One group reveals another exactly when a row says so on the tree. */
  lemma RevealsOnTree(qns: seq<Questionnaire>, qn: Questionnaire, answers: seq<AnswerRow>, g: int, t: int)
    requires UniqueStructure(qns) && qn in qns && g in GroupIds(qn)
    ensures Reveals(IndexOf(qns), qn.id, answers, g, t) <==> LeadsTo(qn, answers, g, t)
  {
    IndexKnows(qns, qn);
    InsideIsKnown(qns, qn, g);
    if Reveals(IndexOf(qns), qn.id, answers, g, t) {
      var n :| 0 <= n < |answers| && KeyOf(answers[n]) == Some((qn.id, g)) &&
        RowPoints(IndexOf(qns), qn.id, g, answers[n], t);
      var q, c := LeadsIfPoints(IndexOf(qns), qn, answers[n], g, t);
      assert answers[n] in answers;
    }
    if LeadsTo(qn, answers, g, t) {
      var row, q, c :| row in answers && RowLeads(qn, row, g, q, c, t);
      PointsIfLeads(IndexOf(qns), qn, row, g, q, c, t);
      var n :| 0 <= n < |answers| && answers[n] == row;
    }
  }

  // ---------- what is shown ----------

  lemma InitialOnTree(qn: Questionnaire, t: int)
    ensures t in Initial(qn) <==> StartsShown(qn, t)
    ensures t in Initial(qn) ==> t in AnswerableGroups(qn)
    ensures t in AnswerableGroups(qn) ==> t in GroupIds(qn)
  {
  }

  lemma AskedIsAnswerable(qn: Questionnaire, t: int, q: Question)
    requires Asks(qn, t, q)
    ensures t in AnswerableGroups(qn) && t in GroupIds(qn)
  {
    var k :| 0 <= k < |qn.groups| && qn.groups[k].id == t && q in qn.groups[k].questions;
    assert HasQuestions(qn.groups[k]);
  }

  lemma LedIsAnswerable(qn: Questionnaire, answers: seq<AnswerRow>, g: int, t: int)
    requires LeadsTo(qn, answers, g, t)
    ensures t in AnswerableGroups(qn) && t in GroupIds(qn)
  {
    var row, q, c :| row in answers && RowLeads(qn, row, g, q, c, t);
    var r, target :| r in c.related && Asks(qn, t, target) && IsInt(r, target.id);
    AskedIsAnswerable(qn, t, target);
  }

  /** One reveal is one step on the tree. */
  lemma StepOnTree(qns: seq<Questionnaire>, qn: Questionnaire, answers: seq<AnswerRow>, g: int, t: int)
    requires UniqueStructure(qns) && qn in qns && g in GroupIds(qn)
    requires Reveals(IndexOf(qns), qn.id, answers, g, t) || LeadsTo(qn, answers, g, t)
    ensures Reveals(IndexOf(qns), qn.id, answers, g, t) && LeadsTo(qn, answers, g, t)
    ensures t in AnswerableGroups(qn) && t in GroupIds(qn)
  {
    RevealsOnTree(qns, qn, answers, g, t);
    LedIsAnswerable(qn, answers, g, t);
  }

  ghost function TreeStep(qn: Questionnaire, answers: seq<AnswerRow>): Step {
    (g: int, t: int) => LeadsTo(qn, answers, g, t)
  }

  /** From a group with questions, revealing and leading are the same, and end in such a group. */
  lemma StepsAgree(qns: seq<Questionnaire>, qn: Questionnaire, answers: seq<AnswerRow>)
    requires UniqueStructure(qns) && qn in qns
    ensures var e, e' := RevealStep(IndexOf(qns), qn.id, answers), TreeStep(qn, answers);
            forall g, t :: g in AnswerableGroups(qn) ==> e(g, t) == e'(g, t) && (e(g, t) ==> t in AnswerableGroups(qn))
  {
    forall g, t | g in AnswerableGroups(qn)
      ensures Reveals(IndexOf(qns), qn.id, answers, g, t) <==> LeadsTo(qn, answers, g, t)
      ensures LeadsTo(qn, answers, g, t) ==> t in AnswerableGroups(qn)
    {
      InitialOnTree(qn, g);
      if Reveals(IndexOf(qns), qn.id, answers, g, t) || LeadsTo(qn, answers, g, t) {
        StepOnTree(qns, qn, answers, g, t);
      }
    }
  }

  /** The groups the gate looks at are those at most eight answers away on the tree. */
  lemma ShownIffOnTree(qns: seq<Questionnaire>, qn: Questionnaire, answers: seq<AnswerRow>, t: int)
    requires UniqueStructure(qns) && qn in qns
    ensures Shown(IndexOf(qns), qn, answers, t) <==> ShownOnTree(qn, answers, t)
  {
    var e, e' := RevealStep(IndexOf(qns), qn.id, answers), TreeStep(qn, answers);
    StepsAgree(qns, qn, answers);
    if Shown(IndexOf(qns), qn, answers, t) {
      var path :| IsPath(e, Initial(qn), MAX_VISIBILITY_ROUNDS, t, path);
      InitialOnTree(qn, path[0]);
      PathInside(e, e', AnswerableGroups(qn), path, |path| - 1);
      TrailOfPath(qn, answers, t, path);
    }
    if trail :| IsTrail(qn, answers, t, trail) {
      InitialOnTree(qn, trail[0]);
      assert Chain(e', trail);
      PathInside(e', e, AnswerableGroups(qn), trail, |trail| - 1);
      assert IsPath(e, Initial(qn), MAX_VISIBILITY_ROUNDS, t, trail);
    }
  }

  lemma TrailOfPath(qn: Questionnaire, answers: seq<AnswerRow>, t: int, path: seq<int>)
    requires 1 <= |path| <= MAX_VISIBILITY_ROUNDS + 1 && path[0] in Initial(qn) && path[|path|-1] == t
    requires forall i :: 0 <= i < |path| - 1 ==> TreeStep(qn, answers)(path[i], path[i+1])
    ensures IsTrail(qn, answers, t, path)
  {
    InitialOnTree(qn, path[0]);
    forall i | 0 <= i < |path| - 1 ensures LeadsTo(qn, answers, path[i], path[i+1]) {
      assert TreeStep(qn, answers)(path[i], path[i+1]);
    }
  }

  // ---------- what is answered ----------

  lemma AnswersIfDone(qns: seq<Questionnaire>, qn: Questionnaire, row: AnswerRow, t: int) returns (q: Question)
    requires UniqueStructure(qns) && qn in qns && t in GroupIds(qn)
    requires KeyOf(row) == Some((qn.id, t)) && IsDoneRow(IndexOf(qns), row)
    ensures RowAnswers(qn, row, t, q)
  {
    var ix, i := IndexOf(qns), row.activeQuestionId.n;
    InsideIsKnown(qns, qn, t);
    q := HomeOnTree(qns, qn, i, t);
    if q.kind == "Input" {
      InkIsLeft(row.input.s);
    } else {
      var ids := SelectedIds(row.selected);
      var j :| 0 <= j < |ids| && ids[j].IntVal? && HasChoice(ix, i, ids[j].n);
      var c := ChoiceMap(q.choices)[ids[j].n];
      ChoiceIsLast(q, q.choices, ids[j].n, c);
      assert c in q.choices && ids[j] == IntVal(c.id);
    }
  }

  lemma {:induction false} ListedInMap(choices: seq<Choice>, c: Choice)
    requires c in choices
    ensures c.id in ChoiceMap(choices)
  {
    if c != choices[|choices|-1] {
      ListedInMap(choices[..|choices|-1], c);
    }
  }

  lemma DoneIfAnswers(qns: seq<Questionnaire>, qn: Questionnaire, row: AnswerRow, t: int, q: Question)
    requires UniqueStructure(qns) && qn in qns && RowAnswers(qn, row, t, q)
    ensures KeyOf(row) == Some((qn.id, t)) && IsDoneRow(IndexOf(qns), row)
  {
    AskedIsHome(qns, qn, t, q);
    if q.kind == "Input" {
      InkIsLeft(row.input.s);
    } else {
      var c :| c in q.choices && IntVal(c.id) in row.selected.ids;
      ListedInMap(q.choices, c);
      var j :| 0 <= j < |row.selected.ids| && row.selected.ids[j] == IntVal(c.id);
      assert SelectedIds(row.selected)[j] == IntVal(c.id) && HasChoice(IndexOf(qns), q.id, c.id);
    }
  }

  lemma AnsweredIffOnTree(qns: seq<Questionnaire>, qn: Questionnaire, answers: seq<AnswerRow>, t: int)
    requires UniqueStructure(qns) && qn in qns && t in GroupIds(qn)
    ensures Answered(IndexOf(qns), answers, (qn.id, t)) <==> AnsweredOnTree(qn, answers, t)
  {
    if row :| row in answers && KeyOf(row) == Some((qn.id, t)) && IsDoneRow(IndexOf(qns), row) {
      var q := AnswersIfDone(qns, qn, row, t);
    }
    if row, q :| row in answers && RowAnswers(qn, row, t, q) {
      DoneIfAnswers(qns, qn, row, t, q);
    }
  }

  // ---------- the gate ----------

  lemma ShownIsInside(qns: seq<Questionnaire>, qn: Questionnaire, answers: seq<AnswerRow>, t: int)
    requires UniqueStructure(qns) && qn in qns && Shown(IndexOf(qns), qn, answers, t)
    ensures t in GroupIds(qn)
  {
    InitialOnTree(qn, t);
  }

  /** A questionnaire is completed exactly when it is on the tree. */
  lemma CompletedIffOnTree(qns: seq<Questionnaire>, qn: Questionnaire, answers: seq<AnswerRow>)
    requires UniqueStructure(qns) && qn in qns
    ensures IsCompleted(IndexOf(qns), qn, answers) <==> CompletedOnTree(qn, answers)
  {
    forall t
      ensures Shown(IndexOf(qns), qn, answers, t) <==> ShownOnTree(qn, answers, t)
      ensures Shown(IndexOf(qns), qn, answers, t) ==>
              (Answered(IndexOf(qns), answers, (qn.id, t)) <==> AnsweredOnTree(qn, answers, t))
    {
      ShownIffOnTree(qns, qn, answers, t);
      if Shown(IndexOf(qns), qn, answers, t) {
        ShownIsInside(qns, qn, answers, t);
        AnsweredIffOnTree(qns, qn, answers, t);
      }
    }
    forall k | 0 <= k < |qn.groups|
      ensures Covered(answers, (qn.id, qn.groups[k].id)) <==>
              exists row :: row in answers && RowFor(row, qn.id, qn.groups[k].id)
    {
      forall row ensures KeyOf(row) == Some((qn.id, qn.groups[k].id)) <==> RowFor(row, qn.id, qn.groups[k].id) {
        KeyIsRow(row, qn.id, qn.groups[k].id);
      }
    }
    assert Configured(qn) <==> exists k :: 0 <= k < |qn.groups| && qn.groups[k].questions != [];
  }

  /** The gate passes exactly when every required questionnaire is completed on the tree. */
  lemma GateIffOnTree(qns: seq<Questionnaire>, answers: seq<AnswerRow>)
    requires UniqueStructure(qns)
    ensures Passes(IndexOf(qns), answers) <==> forall qn :: qn in qns && qn.required ==> CompletedOnTree(qn, answers)
  {
    var ix := IndexOf(qns);
    forall k | 0 <= k < |qns|
      ensures CompletedId(ix, answers, qns[k].id) <==> CompletedOnTree(qns[k], answers)
    {
      CompletedIffOnTree(qns, qns[k], answers);
      if j :| 0 <= j < |qns| && qns[j].id == qns[k].id && IsCompleted(ix, qns[j], answers) {
        assert qns[j] in qns && qns[k] in qns;
      }
    }
  }

  // ---------- from the start ----------

  /** Whoever passes has answered every group that is shown from the start, in every required questionnaire. */
  lemma StartIsAnswered(qns: seq<Questionnaire>, qn: Questionnaire, answers: seq<AnswerRow>, k: nat)
    requires UniqueStructure(qns) && qn in qns && qn.required && Passes(IndexOf(qns), answers)
    requires k < |qn.groups| && qn.groups[k].questions != []
    requires qn.groups[k].order == 1 || !qn.groups[k].hiddenByDefault
    ensures Shown(IndexOf(qns), qn, answers, qn.groups[k].id) && AnsweredOnTree(qn, answers, qn.groups[k].id)
  {
    var t := qn.groups[k].id;
    GateIffOnTree(qns, answers);
    assert StartsShown(qn, t) && IsTrail(qn, answers, t, [t]);
    ShownIffOnTree(qns, qn, answers, t);
  }

  /** A hidden group that is not first in order is shown only if a shown group reveals it. */
  lemma HiddenIsRevealed(qns: seq<Questionnaire>, qn: Questionnaire, answers: seq<AnswerRow>, k: nat) returns (g: int)
    requires UniqueStructure(qns) && qn in qns && k < |qn.groups|
    requires qn.groups[k].hiddenByDefault && qn.groups[k].order != 1
    requires Shown(IndexOf(qns), qn, answers, qn.groups[k].id)
    ensures Shown(IndexOf(qns), qn, answers, g) && LeadsTo(qn, answers, g, qn.groups[k].id)
  {
    var t := qn.groups[k].id;
    ShownIffOnTree(qns, qn, answers, t);
    var trail :| IsTrail(qn, answers, t, trail);
    var n := |trail| - 1;
    if n == 0 {
      var j :| 0 <= j < |qn.groups| && qn.groups[j].id == t && qn.groups[j].questions != [] &&
        (qn.groups[j].order == 1 || !qn.groups[j].hiddenByDefault);
      InSeats(qns, Seat(qn, qn.groups[j]));
      InSeats(qns, Seat(qn, qn.groups[k]));
      assert false;
    }
    g := trail[n-1];
    var front := trail[..n];
    assert forall i :: 0 <= i < n ==> front[i] == trail[i];
    assert IsTrail(qn, answers, g, front);
    ShownIffOnTree(qns, qn, answers, g);
  }
}
