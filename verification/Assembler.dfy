/** Structure rows and structure trees: the assembler (src/apps/questionnaire/assembler.py), the importer
    (src/apps/questionnaire/importer.py), and the proof that they undo each other. */
module Assembler {
  import opened Prelude
  import opened Nesting
  import opened Structure

  datatype QnRow = QnRow(id: int, key: string, title: string, introduction: string, category: string, required: bool,
                         order: int)

  datatype GroupRow = GroupRow(id: int, parent: int, order: int, hidden: bool)

  datatype QuestionRow = QuestionRow(id: int, parent: int, kind: string, content: string, introduction: string,
                                     order: int, maxInputLen: Option<int>, code: Option<string>)

  datatype ChoiceRow = ChoiceRow(id: int, parent: int, content: string, related: seq<Val>, mutex: seq<int>,
                                 choiceGroup: int, order: int, code: Option<string>)

  datatype Rows = Rows(qns: seq<QnRow>, groups: seq<GroupRow>, questions: seq<QuestionRow>, choices: seq<ChoiceRow>)

  function GroupParent(): GroupRow -> int { (r: GroupRow) => r.parent }
  function QuestionParent(): QuestionRow -> int { (r: QuestionRow) => r.parent }
  function ChoiceParent(): ChoiceRow -> int { (r: ChoiceRow) => r.parent }

  function QnRowOrder(): QnRow -> seq<int> { (r: QnRow) => [r.order] }
  function GroupRowOrder(): GroupRow -> seq<int> { (r: GroupRow) => [r.order] }
  function QuestionRowOrder(): QuestionRow -> seq<int> { (r: QuestionRow) => [r.order] }
  function ChoiceRowOrder(): ChoiceRow -> seq<int> { (r: ChoiceRow) => [r.order] }

  // ---------- assembling ----------

  /** The rows of each parent, in table order. */
  function Children<R>(rows: seq<R>, parent: R -> int): map<int, seq<R>> {
    map i | i in GroupSet(rows, parent) :: Filter(rows, InGroup(parent, i))
  }

  lemma {:induction false} ChildrenAt<R>(rows: seq<R>, parent: R -> int, i: int)
    ensures Members(Children(rows, parent), i) == Filter(rows, InGroup(parent, i))
  {
    if i !in GroupSet(rows, parent) {
      forall r | r in rows ensures parent(r) != i {
        var n :| 0 <= n < |rows| && rows[n] == r;
        assert parent(rows[n]) in GroupSet(rows, parent);
      }
      FilterUniform(rows, InGroup(parent, i), false);
    }
  }

  lemma GroupedIsChildren<R>(order: seq<int>, groups: map<int, seq<R>>, rows: seq<R>, parent: R -> int)
    requires Grouped(order, groups, rows, parent)
    ensures groups == Children(rows, parent)
  {
    forall i | i in groups ensures groups[i] == Children(rows, parent)[i] {
      assert Members(groups, i) == Filter(rows, InGroup(parent, i));
    }
  }

  function ChoiceOut(): ChoiceRow -> Choice {
    (r: ChoiceRow) => Choice(r.id, r.order, r.content, r.related, r.mutex, r.choiceGroup, r.code)
  }

  function QuestionOut(choices: map<int, seq<ChoiceRow>>): QuestionRow -> Question {
    (r: QuestionRow) => Question(r.id, r.order, r.kind, r.content, r.introduction, r.maxInputLen, r.code,
                                 Map(SortBy(Members(choices, r.id), ChoiceRowOrder()), ChoiceOut()))
  }

  function GroupOut(questions: map<int, seq<QuestionRow>>, choices: map<int, seq<ChoiceRow>>): GroupRow -> Group {
    (r: GroupRow) => Group(r.id, r.order, r.hidden,
                           Map(SortBy(Members(questions, r.id), QuestionRowOrder()), QuestionOut(choices)))
  }

  function QnOut(groups: map<int, seq<GroupRow>>, questions: map<int, seq<QuestionRow>>,
                 choices: map<int, seq<ChoiceRow>>): QnRow -> Questionnaire {
    (r: QnRow) => Questionnaire(r.id, r.key, r.title, r.introduction, r.category, r.required, r.order,
                                Map(SortBy(Members(groups, r.id), GroupRowOrder()), GroupOut(questions, choices)))
  }

  function Assembled(rows: Rows): seq<Questionnaire> {
    Map(SortBy(rows.qns, QnRowOrder()),
        QnOut(Children(rows.groups, GroupParent()), Children(rows.questions, QuestionParent()),
              Children(rows.choices, ChoiceParent())))
  }

  /** `assemble_structure`. */
  method Assemble(rows: Rows) returns (tree: seq<Questionnaire>)
    ensures tree == Assembled(rows)
  {
    var gOrder, groups := GroupBy(rows.groups, GroupParent());
    var qOrder, questions := GroupBy(rows.questions, QuestionParent());
    var cOrder, choices := GroupBy(rows.choices, ChoiceParent());
    GroupedIsChildren(gOrder, groups, rows.groups, GroupParent());
    GroupedIsChildren(qOrder, questions, rows.questions, QuestionParent());
    GroupedIsChildren(cOrder, choices, rows.choices, ChoiceParent());
    tree := Map(SortBy(rows.qns, QnRowOrder()), QnOut(groups, questions, choices));
  }

  // ---------- parsing ----------

  function QnRowOf(): Questionnaire -> QnRow {
    (qn: Questionnaire) => QnRow(qn.id, qn.key, qn.title, qn.introduction, qn.category, qn.required, qn.order)
  }

  function GroupRowOf(): Seat -> GroupRow { (s: Seat) => GroupRow(s.g.id, s.qn.id, s.g.order, s.g.hiddenByDefault) }

  function QuestionRowOf(): Place -> QuestionRow {
    (p: Place) => QuestionRow(p.q.id, p.g.id, p.q.kind, p.q.content, p.q.introduction, p.q.order, p.q.maxInputLen,
                              p.q.code)
  }

  function ChoiceRowOf(parent: int): Choice -> ChoiceRow {
    (c: Choice) => ChoiceRow(c.id, parent, c.content, c.related, c.mutex, c.choiceGroup, c.order, c.code)
  }

  function ChoiceRowsOf(): Place -> seq<ChoiceRow> { (p: Place) => Map(p.q.choices, ChoiceRowOf(p.q.id)) }

  /** The rows of a tree: one per node, each with the id of its parent, in reading order. */
  function Parsed(tree: seq<Questionnaire>): Rows {
    Rows(Map(tree, QnRowOf()), Map(Seats(tree), GroupRowOf()), Map(Places(tree), QuestionRowOf()),
         Flat(Places(tree), ChoiceRowsOf()))
  }

  function ParsedFrom(qns: seq<Questionnaire>, seats: seq<Seat>, places: seq<Place>): Rows {
    Rows(Map(qns, QnRowOf()), Map(seats, GroupRowOf()), Map(places, QuestionRowOf()), Flat(places, ChoiceRowsOf()))
  }

  method ParseChoices(rows0: Rows, p: Place) returns (rows: Rows)
    ensures rows == rows0.(choices := rows0.choices + ChoiceRowsOf()(p))
  {
    rows := rows0;
    for m := 0 to |p.q.choices|
      invariant rows == rows0.(choices := rows0.choices + ChoiceRowsOf()(p)[..m])
    {
      var c := p.q.choices[m];
      rows :=
        rows.(choices := rows.choices + [ChoiceRow(c.id, p.q.id, c.content, c.related, c.mutex, c.choiceGroup, c.order,
                                                   c.code)]);
      assert ChoiceRowsOf()(p)[..m+1] == ChoiceRowsOf()(p)[..m] + [ChoiceRowOf(p.q.id)(c)];
    }
  }

  method ParseQuestions(rows0: Rows, s: Seat, ghost qns: seq<Questionnaire>, ghost seats: seq<Seat>,
                        ghost places: seq<Place>)
      returns (rows: Rows)
    requires rows0 == ParsedFrom(qns, seats, places)
    ensures rows == ParsedFrom(qns, seats, places + PlacesOf()(s))
  {
    rows := rows0;
    assert places + PlacesOf()(s)[..0] == places;
    for k := 0 to |s.g.questions|
      invariant rows == ParsedFrom(qns, seats, places + PlacesOf()(s)[..k])
    {
      var q := s.g.questions[k];
      var p := Place(s.qn, s.g, q);
      ghost var sofar := places + PlacesOf()(s)[..k];
      rows :=
        rows.(questions := rows.questions + [QuestionRow(q.id, s.g.id, q.kind, q.content, q.introduction, q.order,
                                                         q.maxInputLen, q.code)]);
      rows := ParseChoices(rows, p);
      MapSnoc(sofar, p, QuestionRowOf());
      FlatSnoc(sofar, p, ChoiceRowsOf());
      assert places + PlacesOf()(s)[..k+1] == sofar + [p];
    }
    assert PlacesOf()(s)[..|s.g.questions|] == PlacesOf()(s);
  }

  method ParseGroups(rows0: Rows, qn: Questionnaire, ghost qns: seq<Questionnaire>, ghost seats: seq<Seat>,
                     ghost mine: seq<Seat>)
      returns (rows: Rows)
    requires RowsThrough(rows0, qns, seats)
    requires |mine| == |qn.groups| && forall j :: 0 <= j < |mine| ==> mine[j] == Seat(qn, qn.groups[j])
    ensures RowsThrough(rows, qns, seats + mine)
  {
    rows := rows0;
    ghost var sofar := seats;
    assert seats + mine[..0] == seats;
    for j := 0 to |qn.groups|
      invariant sofar == seats + mine[..j] && RowsThrough(rows, qns, sofar)
    {
      rows := ParseGroup(rows, Seat(qn, qn.groups[j]), qns, sofar);
      sofar := sofar + [mine[j]];
      assert mine[..j+1] == mine[..j] + [mine[j]];
    }
    assert mine[..|mine|] == mine;
  }

  method ParseGroup(rows0: Rows, s: Seat, ghost qns: seq<Questionnaire>, ghost seats: seq<Seat>) returns (rows: Rows)
    requires RowsThrough(rows0, qns, seats)
    ensures RowsThrough(rows, qns, seats + [s])
  {
    rows := rows0.(groups := rows0.groups + [GroupRow(s.g.id, s.qn.id, s.g.order, s.g.hiddenByDefault)]);
    MapSnoc(seats, s, GroupRowOf());
    rows := ParseQuestions(rows, s, qns, seats + [s], Flat(seats, PlacesOf()));
    FlatSnoc(seats, s, PlacesOf());
  }

  /** `rows` holds the questionnaires `qns` and the groups in `seats` with all their questions. */
  ghost predicate RowsThrough(rows: Rows, qns: seq<Questionnaire>, seats: seq<Seat>) {
    rows == ParsedFrom(qns, seats, Flat(seats, PlacesOf()))
  }

  /** `parse_structure_tree`. */
  method Parse(tree: seq<Questionnaire>) returns (rows: Rows)
    ensures rows == Parsed(tree)
  {
    rows := Rows([], [], [], []);
    for i := 0 to |tree|
      invariant RowsThrough(rows, tree[..i], Seats(tree[..i]))
    {
      var qn := tree[i];
      MapSnoc(tree[..i], qn, QnRowOf());
      FlatSnoc(tree[..i], qn, SeatsOf());
      assert tree[..i+1] == tree[..i] + [qn];
      rows :=
        rows.(qns := rows.qns + [QnRow(qn.id, qn.key, qn.title, qn.introduction, qn.category, qn.required, qn.order)]);
      rows := ParseGroups(rows, qn, tree[..i+1], Seats(tree[..i]), SeatsOf()(qn));
    }
    assert tree[..|tree|] == tree;
  }

  // ---------- tree, rows, tree ----------

  function QnId(): Questionnaire -> int { (qn: Questionnaire) => qn.id }

  /** No questionnaire, group or question id is used twice. */
  ghost predicate DistinctIds(tree: seq<Questionnaire>) {
    Distinct(Map(tree, QnId())) && Distinct(Map(Seats(tree), SeatId())) && Distinct(Map(Places(tree), PlaceId()))
  }

  function QnOrder(): Questionnaire -> seq<int> { (qn: Questionnaire) => [qn.order] }
  function GroupOrder(): Group -> seq<int> { (g: Group) => [g.order] }
  function QuestionOrder(): Question -> seq<int> { (q: Question) => [q.order] }
  function ChoiceOrder(): Choice -> seq<int> { (c: Choice) => [c.order] }

  function SortedQuestion(): Question -> Question { (q: Question) => q.(choices := SortBy(q.choices, ChoiceOrder())) }

  function SortedGroup(): Group -> Group {
    (g: Group) => g.(questions := Map(SortBy(g.questions, QuestionOrder()), SortedQuestion()))
  }

  function SortedQn(): Questionnaire -> Questionnaire {
    (qn: Questionnaire) => qn.(groups := Map(SortBy(qn.groups, GroupOrder()), SortedGroup()))
  }

  /** The same tree with every level stably sorted by `order`. */
  function SortedTree(tree: seq<Questionnaire>): seq<Questionnaire> { Map(SortBy(tree, QnOrder()), SortedQn()) }

  lemma QuestionBack(tree: seq<Questionnaire>, p: Place)
    requires DistinctIds(tree) && p in Places(tree)
    ensures QuestionOut(Children(Parsed(tree).choices, ChoiceParent()))(QuestionRowOf()(p)) == SortedQuestion()(p.q)
  {
    var rows := Parsed(tree).choices;
    ChildrenAt(rows, ChoiceParent(), p.q.id);
    ChildrenOf(Places(tree), PlaceId(), ChoiceRowsOf(), ChoiceParent(), p);
    SortByMap(p.q.choices, ChoiceRowOf(p.q.id), ChoiceOrder(), ChoiceRowOrder());
    MapMap(SortBy(p.q.choices, ChoiceOrder()), ChoiceRowOf(p.q.id), ChoiceOut(), (c: Choice) => c);
    assert Map(SortBy(p.q.choices, ChoiceOrder()), (c: Choice) => c) == SortBy(p.q.choices, ChoiceOrder());
  }

  function QuestionRowIn(s: Seat): Question -> QuestionRow { (q: Question) => QuestionRowOf()(Place(s.qn, s.g, q)) }

  function QuestionRowsOf(): Seat -> seq<QuestionRow> { (s: Seat) => Map(s.g.questions, QuestionRowIn(s)) }

  lemma QuestionRowsFlat(tree: seq<Questionnaire>)
    ensures Parsed(tree).questions == Flat(Seats(tree), QuestionRowsOf())
  {
    forall s: Seat ensures Map(PlacesOf()(s), QuestionRowOf()) == QuestionRowsOf()(s) {
    }
    MapFlat(Seats(tree), PlacesOf(), QuestionRowOf(), QuestionRowsOf());
  }

  lemma GroupBack(tree: seq<Questionnaire>, s: Seat)
    requires DistinctIds(tree) && s in Seats(tree)
    ensures GroupOut(Children(Parsed(tree).questions, QuestionParent()),
                     Children(Parsed(tree).choices, ChoiceParent()))(GroupRowOf()(s))
              == SortedGroup()(s.g)
  {
    var rows, choices := Parsed(tree).questions, Children(Parsed(tree).choices, ChoiceParent());
    QuestionRowsFlat(tree);
    ChildrenAt(rows, QuestionParent(), s.g.id);
    ChildrenOf(Seats(tree), SeatId(), QuestionRowsOf(), QuestionParent(), s);
    SortByMap(s.g.questions, QuestionRowIn(s), QuestionOrder(), QuestionRowOrder());
    SortBySorted(s.g.questions, QuestionOrder());
    forall q | q in SortBy(s.g.questions, QuestionOrder())
      ensures QuestionOut(choices)(QuestionRowIn(s)(q)) == SortedQuestion()(q)
    {
      InPlaces(tree, Place(s.qn, s.g, q));
      QuestionBack(tree, Place(s.qn, s.g, q));
    }
    MapMap(SortBy(s.g.questions, QuestionOrder()), QuestionRowIn(s), QuestionOut(choices), SortedQuestion());
  }

  function GroupRowIn(qn: Questionnaire): Group -> GroupRow { (g: Group) => GroupRowOf()(Seat(qn, g)) }

  function GroupRowsOf(): Questionnaire -> seq<GroupRow> { (qn: Questionnaire) => Map(qn.groups, GroupRowIn(qn)) }

  lemma {:induction false} GroupRowsFlat(tree: seq<Questionnaire>)
    ensures Parsed(tree).groups == Flat(tree, GroupRowsOf())
  {
    forall qn: Questionnaire ensures Map(SeatsOf()(qn), GroupRowOf()) == GroupRowsOf()(qn) {
    }
    MapFlat(tree, SeatsOf(), GroupRowOf(), GroupRowsOf());
  }

  lemma QnBack(tree: seq<Questionnaire>, qn: Questionnaire)
    requires DistinctIds(tree) && qn in tree
    ensures var rows := Parsed(tree);
            QnOut(Children(rows.groups, GroupParent()), Children(rows.questions, QuestionParent()),
                  Children(rows.choices, ChoiceParent()))(QnRowOf()(qn))
              == SortedQn()(qn)
  {
    var rows := Parsed(tree);
    var out := GroupOut(Children(rows.questions, QuestionParent()), Children(rows.choices, ChoiceParent()));
    GroupRowsFlat(tree);
    ChildrenAt(rows.groups, GroupParent(), qn.id);
    ChildrenOf(tree, QnId(), GroupRowsOf(), GroupParent(), qn);
    SortByMap(qn.groups, GroupRowIn(qn), GroupOrder(), GroupRowOrder());
    SortBySorted(qn.groups, GroupOrder());
    forall g | g in SortBy(qn.groups, GroupOrder()) ensures out(GroupRowIn(qn)(g)) == SortedGroup()(g) {
      InSeats(tree, Seat(qn, g));
      GroupBack(tree, Seat(qn, g));
    }
    MapMap(SortBy(qn.groups, GroupOrder()), GroupRowIn(qn), out, SortedGroup());
  }

  /** Importing a tree and reading it back gives the tree with every level stably sorted by `order`. */
  lemma TreeRoundTrip(tree: seq<Questionnaire>)
    requires DistinctIds(tree)
    ensures Assembled(Parsed(tree)) == SortedTree(tree)
  {
    var rows := Parsed(tree);
    var out :=
      QnOut(Children(rows.groups, GroupParent()), Children(rows.questions, QuestionParent()),
            Children(rows.choices, ChoiceParent()));
    SortByMap(tree, QnRowOf(), QnOrder(), QnRowOrder());
    SortBySorted(tree, QnOrder());
    forall qn | qn in SortBy(tree, QnOrder()) ensures out(QnRowOf()(qn)) == SortedQn()(qn) {
      QnBack(tree, qn);
    }
    MapMap(SortBy(tree, QnOrder()), QnRowOf(), out, SortedQn());
  }

  // ---------- rows, tree, rows ----------

  function QnRowId(): QnRow -> int { (r: QnRow) => r.id }
  function GroupRowId(): GroupRow -> int { (r: GroupRow) => r.id }
  function QuestionRowId(): QuestionRow -> int { (r: QuestionRow) => r.id }

  ghost predicate DistinctRowIds(rows: Rows) {
    Distinct(Map(rows.qns, QnRowId())) && Distinct(Map(rows.groups, GroupRowId())) &&
      Distinct(Map(rows.questions, QuestionRowId()))
  }

  /** Every row's parent exists. */
  ghost predicate NoOrphans(rows: Rows) {
    && (forall r :: r in rows.groups ==> r.parent in Map(rows.qns, QnRowId()))
    && (forall r :: r in rows.questions ==> r.parent in Map(rows.groups, GroupRowId()))
    && (forall r :: r in rows.choices ==> r.parent in Map(rows.questions, QuestionRowId()))
  }

  /** Listing the rows of existing parents, parent by parent, lists them all. */
  lemma AllRegrouped<P, R>(ps: seq<P>, id: P -> int, kids: P -> seq<R>, rows: seq<R>, parent: R -> int)
    requires Distinct(Map(ps, id)) && forall r :: r in rows ==> parent(r) in Map(ps, id)
    requires forall p :: p in ps ==> multiset(kids(p)) == multiset(Filter(rows, InGroup(parent, id(p))))
    ensures multiset(Flat(ps, kids)) == multiset(rows)
  {
    Regrouped(ps, id, kids, rows, parent);
    FilterUniform(rows, HasParent(ps, id, parent), true);
  }

  /** The ids of a table survive a permutation. */
  lemma SameIds<P, R>(ps: seq<P>, id: P -> int, row: P -> R, rows: seq<R>, rowId: R -> int)
    requires multiset(Map(ps, row)) == multiset(rows) && Distinct(Map(rows, rowId))
    requires forall p :: p in ps ==> rowId(row(p)) == id(p)
    ensures Distinct(Map(ps, id)) && forall i :: i in Map(rows, rowId) <==> i in Map(ps, id)
  {
    MapMap(ps, row, rowId, id);
    MapPermuted(Map(ps, row), rows, rowId);
    PermutedDistinct(Map(rows, rowId), Map(ps, id));
    forall i ensures i in Map(rows, rowId) <==> i in Map(ps, id) {
      assert i in Map(rows, rowId) <==> i in multiset(Map(rows, rowId));
      assert i in Map(ps, id) <==> i in multiset(Map(ps, id));
    }
  }

  lemma BackToRows<R, O>(rows: seq<R>, out: R -> O, back: O -> R)
    requires forall r :: r in rows ==> back(out(r)) == r
    ensures Map(Map(rows, out), back) == rows
  {
  }

  lemma SortedBack<R, O>(mine: seq<R>, order: R -> seq<int>, out: R -> O, back: O -> R)
    requires forall r :: r in mine ==> back(out(r)) == r
    ensures multiset(Map(Map(SortBy(mine, order), out), back)) == multiset(mine)
  {
    SortBySorted(mine, order);
    forall r | r in SortBy(mine, order) ensures back(out(r)) == r {
      assert r in multiset(SortBy(mine, order)) && r in multiset(mine);
    }
    BackToRows(SortBy(mine, order), out, back);
  }

  /** The output of a level, turned back into rows. */
  lemma LevelBack<R, O>(rows: seq<R>, parent: R -> int, i: int, order: R -> seq<int>, out: R -> O, back: O -> R)
    requires forall r :: r in rows && parent(r) == i ==> back(out(r)) == r
    ensures multiset(Map(Map(SortBy(Members(Children(rows, parent), i), order), out), back)) ==
            multiset(Filter(rows, InGroup(parent, i)))
  {
    var mine := Filter(rows, InGroup(parent, i));
    assert Members(Children(rows, parent), i) == mine by {
      ChildrenAt(rows, parent, i);
    }
    SortedBack(mine, order, out, back);
  }

  lemma QnsBack(rows: Rows)
    ensures multiset(Map(Assembled(rows), QnRowOf())) == multiset(rows.qns)
  {
    var out :=
      QnOut(Children(rows.groups, GroupParent()), Children(rows.questions, QuestionParent()),
            Children(rows.choices, ChoiceParent()));
    MapMap(SortBy(rows.qns, QnRowOrder()), out, QnRowOf(), (r: QnRow) => r);
    assert Map(SortBy(rows.qns, QnRowOrder()), (r: QnRow) => r) == SortBy(rows.qns, QnRowOrder());
  }

  lemma QnFromRow(rows: Rows, qn: Questionnaire) returns (r: QnRow)
    requires qn in Assembled(rows)
    ensures qn ==
            QnOut(Children(rows.groups, GroupParent()), Children(rows.questions, QuestionParent()),
                  Children(rows.choices, ChoiceParent()))(r)
  {
    var i :| 0 <= i < |Assembled(rows)| && Assembled(rows)[i] == qn;
    r := SortBy(rows.qns, QnRowOrder())[i];
  }

  lemma GroupFromRow(rows: Rows, s: Seat) returns (r: GroupRow)
    requires s in Seats(Assembled(rows))
    ensures s.g == GroupOut(Children(rows.questions, QuestionParent()), Children(rows.choices, ChoiceParent()))(r)
  {
    InSeats(Assembled(rows), s);
    var qr := QnFromRow(rows, s.qn);
    var j :| 0 <= j < |s.qn.groups| && s.qn.groups[j] == s.g;
    r := SortBy(Members(Children(rows.groups, GroupParent()), qr.id), GroupRowOrder())[j];
  }

  lemma QuestionFromRow(rows: Rows, p: Place) returns (r: QuestionRow)
    requires p in Places(Assembled(rows))
    ensures p.q == QuestionOut(Children(rows.choices, ChoiceParent()))(r)
  {
    InPlaces(Assembled(rows), p);
    var gr := GroupFromRow(rows, Seat(p.qn, p.g));
    var k :| 0 <= k < |p.g.questions| && p.g.questions[k] == p.q;
    r := SortBy(Members(Children(rows.questions, QuestionParent()), gr.id), QuestionRowOrder())[k];
  }

  lemma GroupLevel(rows: seq<GroupRow>, questions: map<int, seq<QuestionRow>>, choices: map<int, seq<ChoiceRow>>,
                   qn: Questionnaire)
    requires qn.groups ==
             Map(SortBy(Members(Children(rows, GroupParent()), qn.id), GroupRowOrder()), GroupOut(questions, choices))
    ensures multiset(GroupRowsOf()(qn)) == multiset(Filter(rows, InGroup(GroupParent(), qn.id)))
  {
    forall r: GroupRow | r.parent == qn.id ensures GroupRowIn(qn)(GroupOut(questions, choices)(r)) == r {
      var g := GroupOut(questions, choices)(r);
      assert g.id == r.id && g.order == r.order && g.hiddenByDefault == r.hidden;
      var s := Seat(qn, g);
      assert GroupRowIn(qn)(g) == GroupRowOf()(s);
      assert GroupRowOf()(s) == GroupRow(s.g.id, s.qn.id, s.g.order, s.g.hiddenByDefault);
    }
    LevelBack(rows, GroupParent(), qn.id, GroupRowOrder(), GroupOut(questions, choices), GroupRowIn(qn));
  }

  lemma GroupsOfQn(rows: Rows, qn: Questionnaire)
    requires qn in Assembled(rows)
    ensures multiset(GroupRowsOf()(qn)) == multiset(Filter(rows.groups, InGroup(GroupParent(), qn.id)))
  {
    var r := QnFromRow(rows, qn);
    GroupLevel(rows.groups, Children(rows.questions, QuestionParent()), Children(rows.choices, ChoiceParent()), qn);
  }

  lemma GroupsBack(rows: Rows)
    requires DistinctRowIds(rows) && NoOrphans(rows)
    ensures multiset(Parsed(Assembled(rows)).groups) == multiset(rows.groups)
  {
    var tree := Assembled(rows);
    GroupRowsFlat(tree);
    QnsBack(rows);
    SameIds(tree, QnId(), QnRowOf(), rows.qns, QnRowId());
    forall qn | qn in tree
      ensures multiset(GroupRowsOf()(qn)) == multiset(Filter(rows.groups, InGroup(GroupParent(), QnId()(qn))))
    {
      GroupsOfQn(rows, qn);
    }
    AllRegrouped(tree, QnId(), GroupRowsOf(), rows.groups, GroupParent());
  }

  lemma QuestionsBack(rows: Rows)
    requires DistinctRowIds(rows) && NoOrphans(rows)
    ensures multiset(Parsed(Assembled(rows)).questions) == multiset(rows.questions)
  {
    var tree := Assembled(rows);
    QuestionRowsFlat(tree);
    GroupsBack(rows);
    SameIds(Seats(tree), SeatId(), GroupRowOf(), rows.groups, GroupRowId());
    forall s | s in Seats(tree)
      ensures multiset(QuestionRowsOf()(s)) == multiset(Filter(rows.questions, InGroup(QuestionParent(), SeatId()(s))))
    {
      var r := GroupFromRow(rows, s);
      LevelBack(rows.questions, QuestionParent(), s.g.id, QuestionRowOrder(),
                QuestionOut(Children(rows.choices, ChoiceParent())), QuestionRowIn(s));
    }
    AllRegrouped(Seats(tree), SeatId(), QuestionRowsOf(), rows.questions, QuestionParent());
  }

  lemma ChoicesBack(rows: Rows)
    requires DistinctRowIds(rows) && NoOrphans(rows)
    ensures multiset(Parsed(Assembled(rows)).choices) == multiset(rows.choices)
  {
    var tree := Assembled(rows);
    QuestionsBack(rows);
    SameIds(Places(tree), PlaceId(), QuestionRowOf(), rows.questions, QuestionRowId());
    forall p | p in Places(tree)
      ensures multiset(ChoiceRowsOf()(p)) == multiset(Filter(rows.choices, InGroup(ChoiceParent(), PlaceId()(p))))
    {
      var r := QuestionFromRow(rows, p);
      LevelBack(rows.choices, ChoiceParent(), p.q.id, ChoiceRowOrder(), ChoiceOut(), ChoiceRowOf(p.q.id));
    }
    AllRegrouped(Places(tree), PlaceId(), ChoiceRowsOf(), rows.choices, ChoiceParent());
  }

  /** Assembling rows without orphans and parsing the tree gives back the same rows, every row with the
      parent it had, in some order. */
  lemma RowsRoundTrip(rows: Rows)
    requires DistinctRowIds(rows) && NoOrphans(rows)
    ensures var back := Parsed(Assembled(rows));
            && multiset(back.qns) == multiset(rows.qns) && multiset(back.groups) == multiset(rows.groups)
            && multiset(back.questions) == multiset(rows.questions) && multiset(back.choices) == multiset(rows.choices)
  {
    QnsBack(rows);
    GroupsBack(rows);
    QuestionsBack(rows);
    ChoicesBack(rows);
  }

  // ---------- a second round ----------

  ghost predicate QuestionSorted(q: Question) { SortedBy(q.choices, ChoiceOrder()) }

  ghost predicate GroupSorted(g: Group) {
    SortedBy(g.questions, QuestionOrder()) && forall q :: q in g.questions ==> QuestionSorted(q)
  }

  ghost predicate QnSorted(qn: Questionnaire) {
    SortedBy(qn.groups, GroupOrder()) && forall g :: g in qn.groups ==> GroupSorted(g)
  }

  /** Every level of the tree is in order. */
  ghost predicate LevelSorted(tree: seq<Questionnaire>) {
    SortedBy(tree, QnOrder()) && forall qn :: qn in tree ==> QnSorted(qn)
  }

  lemma GroupStays(g: Group)
    requires GroupSorted(g)
    ensures SortedGroup()(g) == g
  {
    SortByIdentity(g.questions, QuestionOrder());
    forall q | q in g.questions ensures SortedQuestion()(q) == q {
      SortByIdentity(q.choices, ChoiceOrder());
    }
    MapSame(g.questions, SortedQuestion(), (q: Question) => q);
    assert Map(g.questions, (q: Question) => q) == g.questions;
  }

  lemma QnStays(qn: Questionnaire)
    requires QnSorted(qn)
    ensures SortedQn()(qn) == qn
  {
    SortByIdentity(qn.groups, GroupOrder());
    forall g | g in qn.groups ensures SortedGroup()(g) == g {
      GroupStays(g);
    }
    MapSame(qn.groups, SortedGroup(), (g: Group) => g);
    assert Map(qn.groups, (g: Group) => g) == qn.groups;
  }

  lemma TreeStays(tree: seq<Questionnaire>)
    requires LevelSorted(tree)
    ensures SortedTree(tree) == tree
  {
    SortByIdentity(tree, QnOrder());
    forall qn | qn in tree ensures SortedQn()(qn) == qn {
      QnStays(qn);
    }
    MapSame(tree, SortedQn(), (qn: Questionnaire) => qn);
    assert Map(tree, (qn: Questionnaire) => qn) == tree;
  }

  lemma QuestionOutSorted(choices: map<int, seq<ChoiceRow>>, r: QuestionRow)
    ensures QuestionSorted(QuestionOut(choices)(r))
  {
    var rows := SortBy(Members(choices, r.id), ChoiceRowOrder());
    SortBySorted(Members(choices, r.id), ChoiceRowOrder());
    SortedMap(rows, ChoiceOut(), ChoiceRowOrder(), ChoiceOrder());
  }

  lemma GroupOutSorted(questions: map<int, seq<QuestionRow>>, choices: map<int, seq<ChoiceRow>>, r: GroupRow)
    ensures GroupSorted(GroupOut(questions, choices)(r))
  {
    var rows := SortBy(Members(questions, r.id), QuestionRowOrder());
    SortBySorted(Members(questions, r.id), QuestionRowOrder());
    SortedMap(rows, QuestionOut(choices), QuestionRowOrder(), QuestionOrder());
    var out := GroupOut(questions, choices)(r);
    forall q | q in out.questions ensures QuestionSorted(q) {
      var k :| 0 <= k < |out.questions| && out.questions[k] == q;
      QuestionOutSorted(choices, rows[k]);
    }
  }

  lemma QnOutSorted(groups: map<int, seq<GroupRow>>, questions: map<int, seq<QuestionRow>>,
                    choices: map<int, seq<ChoiceRow>>, r: QnRow)
    ensures QnSorted(QnOut(groups, questions, choices)(r))
  {
    var rows := SortBy(Members(groups, r.id), GroupRowOrder());
    SortBySorted(Members(groups, r.id), GroupRowOrder());
    SortedMap(rows, GroupOut(questions, choices), GroupRowOrder(), GroupOrder());
    var out := QnOut(groups, questions, choices)(r);
    forall g | g in out.groups ensures GroupSorted(g) {
      var k :| 0 <= k < |out.groups| && out.groups[k] == g;
      GroupOutSorted(questions, choices, rows[k]);
    }
  }

  /** Whatever the rows, an assembled tree is in order on every level. */
  lemma AssembledSorted(rows: Rows)
    ensures LevelSorted(Assembled(rows))
  {
    var groups, questions, choices :=
      Children(rows.groups, GroupParent()), Children(rows.questions, QuestionParent()),
      Children(rows.choices, ChoiceParent());
    var qns := SortBy(rows.qns, QnRowOrder());
    SortBySorted(rows.qns, QnRowOrder());
    SortedMap(qns, QnOut(groups, questions, choices), QnRowOrder(), QnOrder());
    forall qn | qn in Assembled(rows) ensures QnSorted(qn) {
      var r := QnFromRow(rows, qn);
      QnOutSorted(groups, questions, choices, r);
    }
  }

  /** Exporting, importing and exporting again gives the first export, node by node. */
  lemma SecondExport(rows: Rows)
    requires DistinctRowIds(rows) && NoOrphans(rows)
    ensures Assembled(Parsed(Assembled(rows))) == Assembled(rows)
  {
    var tree := Assembled(rows);
    QnsBack(rows);
    GroupsBack(rows);
    QuestionsBack(rows);
    SameIds(tree, QnId(), QnRowOf(), rows.qns, QnRowId());
    SameIds(Seats(tree), SeatId(), GroupRowOf(), rows.groups, GroupRowId());
    SameIds(Places(tree), PlaceId(), QuestionRowOf(), rows.questions, QuestionRowId());
    TreeRoundTrip(tree);
    AssembledSorted(rows);
    TreeStays(tree);
  }
}
