/** The questionnaire tree, answer rows, and the index both the validator and the completion gate read
    (src/apps/questionnaire/structure_index.py). */
module Structure {
  import opened Prelude

  /** A payload value used as an id.  `OtherVal` is anything that is neither null, an integer nor a
      boolean, together with what Python's `int(value)` makes of it. */
  datatype Val = Null | IntVal(n: int) | BoolVal(b: bool) | OtherVal(asInt: Option<int>)

  datatype Choice = Choice(id: int, order: int, content: string, related: seq<Val>, mutex: seq<int>, choiceGroup: int,
                           code: Option<string>)

  datatype Question = Question(id: int, order: int, kind: string, content: string, introduction: string,
                               maxInputLen: Option<int>, code: Option<string>, choices: seq<Choice>)

  datatype Group = Group(id: int, order: int, hiddenByDefault: bool, questions: seq<Question>)

  datatype Questionnaire = Questionnaire(id: int, key: string, title: string, introduction: string, category: string,
                                         required: bool, order: int, groups: seq<Group>)

  datatype OptionIds = ListOf(ids: seq<Val>) | NotAList(truthy: bool)

  datatype Input = NoText | TextVal(s: string) | NotText(truthy: bool)

  datatype AnswerRow = AnswerRow(questionnaireId: Val, groupId: Val, activeQuestionId: Val, selected: OptionIds,
                                 input: Input)

  /** `validation._as_int`. */
  function AsInt(v: Val): Option<int> { if v.IntVal? then Some(v.n) else None }

  /** `completion._int_or_none`. */
  function IntOrNone(v: Val): Option<int> {
    match v
    case IntVal(n) => Some(n)
    case OtherVal(i) => i
    case _ => None
  }

  /** Python's `n == v` for an integer `n`; `True` equals 1 and `False` equals 0. */
  predicate EqualsInt(n: int, v: Val) {
    match v
    case IntVal(m) => n == m
    case BoolVal(b) => n == if b then 1 else 0
    case _ => false
  }

  function SelectedIds(o: OptionIds): seq<Val> { match o case ListOf(ids) => ids case NotAList(_) => [] }

  /** `group_has_questions`. */
  predicate HasQuestions(g: Group) { |g.questions| != 0 }

  const DEFAULT_INPUT_LEN := 1000

  function MaxInputLen(q: Question): int { if q.maxInputLen.Some? then q.maxInputLen.value else DEFAULT_INPUT_LEN }

  // ---------- the index ----------

  datatype Index = Index(questionnaires: seq<Questionnaire>, groups: map<int, Group>,
                         groupQuestionnaire: map<int, int>, questions: map<int, Question>,
                         questionGroup: map<int, int>, questionChoices: map<int, map<int, Choice>>)

  /** A dictionary filled entry by entry; a repeated key overwrites the earlier value. */
  function Collect<E, V>(entries: seq<E>, key: E -> int, value: E -> V): map<int, V> {
    if |entries| == 0 then map[] else
      var e := entries[|entries|-1];
      Collect(entries[..|entries|-1], key, value)[key(e) := value(e)]
  }

  lemma {:induction false} CollectSnoc<E, V>(entries: seq<E>, e: E, key: E -> int, value: E -> V)
    ensures Collect(entries + [e], key, value) == Collect(entries, key, value)[key(e) := value(e)]
  {
    assert (entries + [e])[..|entries|] == entries;
  }

  /** The value under a key comes from an entry with that key, and every entry's key is filled. */
  lemma {:induction false} CollectFrom<E, V>(entries: seq<E>, key: E -> int, value: E -> V, i: int)
    ensures i in Collect(entries, key, value) <==> Reaches(entries, key, i)
    ensures i in Collect(entries, key, value) ==>
              exists n :: 0 <= n < |entries| && key(entries[n]) == i &&
                Collect(entries, key, value)[i] == value(entries[n])
  {
    if |entries| != 0 {
      var front, e := entries[..|entries|-1], entries[|entries|-1];
      CollectFrom(front, key, value, i);
      assert entries == front + [e];
      ReachesSnoc(front, e, key, i);
      assert key(e) == i ==> entries[|entries|-1] == e;
    }
  }

  /** If only one entry can have the key, it is the one found. */
  lemma {:induction false} CollectUnique<E, V>(entries: seq<E>, key: E -> int, value: E -> V, e: E)
    requires e in entries && forall x :: x in entries && key(x) == key(e) ==> x == e
    ensures key(e) in Collect(entries, key, value) && Collect(entries, key, value)[key(e)] == value(e)
  {
    var n :| 0 <= n < |entries| && entries[n] == e;
    assert key(entries[n]) == key(e);
    CollectFrom(entries, key, value, key(e));
  }

  function ChoiceMap(choices: seq<Choice>): map<int, Choice> { Collect(choices, (c: Choice) => c.id, (c: Choice) => c) }

  /** A group and a question with the places they sit at. */
  datatype Seat = Seat(qn: Questionnaire, g: Group)
  datatype Place = Place(qn: Questionnaire, g: Group, q: Question)

  function SeatsOf(): Questionnaire -> seq<Seat> { (qn: Questionnaire) => Map(qn.groups, (g: Group) => Seat(qn, g)) }

  function PlacesOf(): Seat -> seq<Place> { (s: Seat) => Map(s.g.questions, (q: Question) => Place(s.qn, s.g, q)) }

  function Seats(qns: seq<Questionnaire>): seq<Seat> { Flat(qns, SeatsOf()) }

  function Places(qns: seq<Questionnaire>): seq<Place> { Flat(Seats(qns), PlacesOf()) }

  function SeatId(): Seat -> int { (s: Seat) => s.g.id }

  function PlaceId(): Place -> int { (p: Place) => p.q.id }

  function SeatGroup(): Seat -> Group { (s: Seat) => s.g }

  function SeatOwner(): Seat -> int { (s: Seat) => s.qn.id }

  function PlaceQuestion(): Place -> Question { (p: Place) => p.q }

  function PlaceGroup(): Place -> int { (p: Place) => p.g.id }

  function PlaceChoices(): Place -> map<int, Choice> { (p: Place) => ChoiceMap(p.q.choices) }

  function IndexFrom(qns: seq<Questionnaire>, seats: seq<Seat>, places: seq<Place>): Index {
    Index(qns,
          Collect(seats, SeatId(), SeatGroup()),
          Collect(seats, SeatId(), SeatOwner()),
          Collect(places, PlaceId(), PlaceQuestion()),
          Collect(places, PlaceId(), PlaceGroup()),
          Collect(places, PlaceId(), PlaceChoices()))
  }

  function IndexOf(qns: seq<Questionnaire>): Index { IndexFrom(qns, Seats(qns), Places(qns)) }

  lemma {:induction false} EnterGroup(qns: seq<Questionnaire>, seats: seq<Seat>, places: seq<Place>, s: Seat)
    ensures var ix := IndexFrom(qns, seats, places);
            IndexFrom(qns, seats + [s], places)
              == ix.(groups := ix.groups[s.g.id := s.g], groupQuestionnaire := ix.groupQuestionnaire[s.g.id := s.qn.id])
  {
    CollectSnoc(seats, s, SeatId(), SeatGroup());
    CollectSnoc(seats, s, SeatId(), SeatOwner());
  }

  lemma {:induction false} EnterQuestion(qns: seq<Questionnaire>, seats: seq<Seat>, places: seq<Place>, p: Place)
    ensures var ix := IndexFrom(qns, seats, places);
            IndexFrom(qns, seats, places + [p])
              == ix.(questions := ix.questions[p.q.id := p.q], questionGroup := ix.questionGroup[p.q.id := p.g.id],
                     questionChoices := ix.questionChoices[p.q.id := ChoiceMap(p.q.choices)])
  {
    CollectSnoc(places, p, PlaceId(), PlaceQuestion());
    CollectSnoc(places, p, PlaceId(), PlaceGroup());
    CollectSnoc(places, p, PlaceId(), PlaceChoices());
  }

  /** The questions of one group. */
  method IndexQuestions(ix0: Index, s: Seat, ghost qns: seq<Questionnaire>, ghost seats: seq<Seat>,
                        ghost places: seq<Place>)
      returns (ix: Index)
    requires ix0 == IndexFrom(qns, seats, places)
    ensures ix == IndexFrom(qns, seats, places + PlacesOf()(s))
  {
    ix := ix0;
    assert places + PlacesOf()(s)[..0] == places;
    for k := 0 to |s.g.questions|
      invariant ix == IndexFrom(qns, seats, places + PlacesOf()(s)[..k])
    {
      var q := s.g.questions[k];
      EnterQuestion(qns, seats, places + PlacesOf()(s)[..k], Place(s.qn, s.g, q));
      assert places + PlacesOf()(s)[..k+1] == places + PlacesOf()(s)[..k] + [Place(s.qn, s.g, q)];
      ix := ix.(questions := ix.questions[q.id := q], questionGroup := ix.questionGroup[q.id := s.g.id],
                questionChoices := ix.questionChoices[q.id := ChoiceMap(q.choices)]);
    }
    assert PlacesOf()(s)[..|s.g.questions|] == PlacesOf()(s);
  }

  /** One group and its questions. */
  method IndexGroup(ix0: Index, s: Seat, ghost qns: seq<Questionnaire>, ghost seats: seq<Seat>) returns (ix: Index)
    requires Entered(ix0, qns, seats)
    ensures Entered(ix, qns, seats + [s])
  {
    EnterGroup(qns, seats, Flat(seats, PlacesOf()), s);
    ix := ix0.(groups := ix0.groups[s.g.id := s.g], groupQuestionnaire := ix0.groupQuestionnaire[s.g.id := s.qn.id]);
    ix := IndexQuestions(ix, s, qns, seats + [s], Flat(seats, PlacesOf()));
    FlatSnoc(seats, s, PlacesOf());
  }

  /** `ix` is the index of the groups in `seats` with all their questions. */
  ghost predicate Entered(ix: Index, qns: seq<Questionnaire>, seats: seq<Seat>) {
    ix == IndexFrom(qns, seats, Flat(seats, PlacesOf()))
  }

  /** The groups of one questionnaire. */
  method IndexGroups(ix0: Index, qn: Questionnaire, ghost qns: seq<Questionnaire>, ghost seats: seq<Seat>,
                     ghost mine: seq<Seat>)
      returns (ix: Index)
    requires Entered(ix0, qns, seats)
    requires |mine| == |qn.groups| && forall j :: 0 <= j < |mine| ==> mine[j] == Seat(qn, qn.groups[j])
    ensures Entered(ix, qns, seats + mine)
  {
    ix := ix0;
    ghost var sofar := seats;
    assert seats + mine[..0] == seats;
    for j := 0 to |qn.groups|
      invariant sofar == seats + mine[..j] && Entered(ix, qns, sofar)
    {
      ix := IndexGroup(ix, Seat(qn, qn.groups[j]), qns, sofar);
      sofar := sofar + [mine[j]];
      assert mine[..j+1] == mine[..j] + [mine[j]];
    }
    assert mine[..|mine|] == mine;
  }

  /** The constructor of the index. */
  method BuildIndex(qns: seq<Questionnaire>) returns (ix: Index)
    ensures ix == IndexOf(qns)
  {
    ix := Index([], map[], map[], map[], map[], map[]);
    for i := 0 to |qns|
      invariant ix == IndexOf(qns[..i])
    {
      FlatSnoc(qns[..i], qns[i], SeatsOf());
      assert qns[..i+1] == qns[..i] + [qns[i]];
      ix := ix.(questionnaires := ix.questionnaires + [qns[i]]);
      ix := IndexGroups(ix, qns[i], qns[..i+1], Seats(qns[..i]), SeatsOf()(qns[i]));
    }
    assert qns[..|qns|] == qns;
  }

  // ---------- what the index says about a tree ----------

  /** No group id and no question id occurs at two places of the tree. */
  ghost predicate UniqueIds(qns: seq<Questionnaire>) {
    && (forall s, s' :: s in Seats(qns) && s' in Seats(qns) && s.g.id == s'.g.id ==> s == s')
    && (forall p, p' :: p in Places(qns) && p' in Places(qns) && p.q.id == p'.q.id ==> p == p')
  }

  lemma InSeats(qns: seq<Questionnaire>, s: Seat)
    ensures s in Seats(qns) <==> s.qn in qns && s.g in s.qn.groups
  {
    FlatIn(qns, SeatsOf(), s);
    if s.qn in qns && s.g in s.qn.groups {
      var i :| 0 <= i < |qns| && qns[i] == s.qn;
      var j :| 0 <= j < |s.qn.groups| && s.qn.groups[j] == s.g;
      assert SeatsOf()(qns[i])[j] == s;
    }
  }

  lemma InPlaces(qns: seq<Questionnaire>, p: Place)
    ensures p in Places(qns) <==> Seat(p.qn, p.g) in Seats(qns) && p.q in p.g.questions
  {
    var seats := Seats(qns);
    FlatIn(seats, PlacesOf(), p);
    if Seat(p.qn, p.g) in seats && p.q in p.g.questions {
      var i :| 0 <= i < |seats| && seats[i] == Seat(p.qn, p.g);
      var j :| 0 <= j < |p.g.questions| && p.g.questions[j] == p.q;
      assert PlacesOf()(seats[i])[j] == p;
    }
  }

  lemma CollectKeys<E, V>(entries: seq<E>, key: E -> int, value: E -> V, keys: set<int>)
    requires forall i :: i in keys <==> Reaches(entries, key, i)
    ensures Collect(entries, key, value).Keys == keys
  {
    forall i ensures i in Collect(entries, key, value) <==> i in keys {
      CollectFrom(entries, key, value, i);
    }
  }

  lemma IndexKeys(qns: seq<Questionnaire>)
    ensures var ix := IndexOf(qns);
            && ix.questions.Keys == ix.questionGroup.Keys == ix.questionChoices.Keys
            && ix.groups.Keys == ix.groupQuestionnaire.Keys
  {
    var qs := Collect(Places(qns), PlaceId(), PlaceQuestion()).Keys;
    var gs := Collect(Seats(qns), SeatId(), SeatGroup()).Keys;
    forall i ensures i in qs <==> Reaches(Places(qns), PlaceId(), i) {
      CollectFrom(Places(qns), PlaceId(), PlaceQuestion(), i);
    }
    forall i ensures i in gs <==> Reaches(Seats(qns), SeatId(), i) {
      CollectFrom(Seats(qns), SeatId(), SeatGroup(), i);
    }
    CollectKeys(Places(qns), PlaceId(), PlaceGroup(), qs);
    CollectKeys(Places(qns), PlaceId(), PlaceChoices(), qs);
    CollectKeys(Seats(qns), SeatId(), SeatOwner(), gs);
  }

  /** Without repeated ids the index returns a question of the tree with its own group and options. */
  lemma QuestionKnown(qns: seq<Questionnaire>, p: Place)
    requires UniqueIds(qns) && p in Places(qns)
    ensures var ix, i := IndexOf(qns), p.q.id;
            && i in ix.questions && i in ix.questionGroup && i in ix.questionChoices
            && ix.questions[i] == p.q && ix.questionGroup[i] == p.g.id &&
               ix.questionChoices[i] == ChoiceMap(p.q.choices)
  {
    CollectUnique(Places(qns), PlaceId(), PlaceQuestion(), p);
    CollectUnique(Places(qns), PlaceId(), PlaceGroup(), p);
    CollectUnique(Places(qns), PlaceId(), PlaceChoices(), p);
  }

  /** And it knows no other questions. */
  lemma QuestionPlaced(qns: seq<Questionnaire>, i: int) returns (p: Place)
    requires i in IndexOf(qns).questions
    ensures p in Places(qns) && p.q.id == i
  {
    CollectFrom(Places(qns), PlaceId(), PlaceQuestion(), i);
    var n :| 0 <= n < |Places(qns)| && PlaceId()(Places(qns)[n]) == i;
    p := Places(qns)[n];
  }

  lemma GroupKnown(qns: seq<Questionnaire>, s: Seat)
    requires UniqueIds(qns) && s in Seats(qns)
    ensures var ix, i := IndexOf(qns), s.g.id;
            && i in ix.groups && i in ix.groupQuestionnaire
            && ix.groups[i] == s.g && ix.groupQuestionnaire[i] == s.qn.id
  {
    CollectUnique(Seats(qns), SeatId(), SeatGroup(), s);
    CollectUnique(Seats(qns), SeatId(), SeatOwner(), s);
  }
}
