/** The published completion figures (`load_questionnaire_completion` of src/apps/result/compute_dao.py)
    and their agreement with the voting gate. */
module CompletionRates {
  import opened Prelude
  import opened Structure
  import opened Completion
  import opened AnswerStore

  function InYear(year: int): Row -> bool { (r: Row) => r.year == year }

  function RowVoter(): Row -> string { (r: Row) => r.voter }

  /** Selecting a year and then a voter selects his paper of that year. */
  lemma {:induction false} YearThenVoter(rows: seq<Row>, year: int, v: string)
    ensures Filter(Filter(rows, InYear(year)), InGroup(RowVoter(), v)) == Own(rows, Paper(v, year))
  {
    FilterTwice(rows, InYear(year), InGroup(RowVoter(), v), OfPaper(Paper(v, year)));
  }

  /** The answers of a voter that count: his latest batch. */
  function Current(rows: seq<Row>, v: string, year: int): seq<AnswerRow> { Readable(rows, Paper(v, year)) }

  predicate Voted(rows: seq<Row>, v: string, year: int) { |Own(rows, Paper(v, year))| != 0 }

  predicate ConfiguredId(ix: Index, i: int) {
    exists k :: 0 <= k < |ix.questionnaires| && ix.questionnaires[k].id == i && Configured(ix.questionnaires[k])
  }

  /** Voter `v` is counted for the questionnaires with id `i`. */
  ghost predicate CountedFor(ix: Index, rows: seq<Row>, year: int, v: string, i: int) {
    Voted(rows, v, year) && ConfiguredId(ix, i) && CompletedId(ix, Current(rows, v, year), i)
  }

  ghost predicate CountsFor(byId: map<int, set<string>>, ix: Index, rows: seq<Row>, year: int, voters: seq<string>) {
    && (forall i :: i in byId <==> exists k :: 0 <= k < |ix.questionnaires| && ix.questionnaires[k].id == i)
    && (forall i, v :: i in byId ==> (v in byId[i] <==> v in voters && CountedFor(ix, rows, year, v, i)))
  }

  lemma {:induction false} CountVoter(byId: map<int, set<string>>, ix: Index, rows: seq<Row>, year: int,
                                      voters: seq<string>, v: string, completed: set<int>,
                                      byId': map<int, set<string>>)
    requires CountsFor(byId, ix, rows, year, voters)
    requires forall i :: i in completed <==> CountedFor(ix, rows, year, v, i)
    requires byId' == map i | i in byId :: if i in completed then byId[i] + {v} else byId[i]
    ensures CountsFor(byId', ix, rows, year, voters + [v])
  {
    forall i, w | i in byId' ensures w in byId'[i] <==> w in voters + [v] && CountedFor(ix, rows, year, w, i) {
      assert w in byId[i] <==> w in voters && CountedFor(ix, rows, year, w, i);
    }
  }

  /** The last of the questionnaires that carry a key. */
  ghost predicate LastWithKey(ix: Index, k: int) {
    0 <= k < |ix.questionnaires| &&
      forall m :: k < m < |ix.questionnaires| ==> ix.questionnaires[m].key != ix.questionnaires[k].key
  }

  /** For every key the voters whose current answers complete the questionnaire. */
  ghost predicate IsCompletion(r: map<string, set<string>>, ix: Index, rows: seq<Row>, year: int) {
    && (forall key :: key in r <==> exists k :: 0 <= k < |ix.questionnaires| && ix.questionnaires[k].key == key)
    && forall k, v {:trigger LastWithKey(ix, k), CountedFor(ix, rows, year, v, ix.questionnaires[k].id)} ::
         LastWithKey(ix, k) ==>
           ix.questionnaires[k].key in r &&
           (v in r[ix.questionnaires[k].key] <==> CountedFor(ix, rows, year, v, ix.questionnaires[k].id))
  }

  method ByKey(ix: Index, byId: map<int, set<string>>) returns (r: map<string, set<string>>)
    requires forall k :: 0 <= k < |ix.questionnaires| ==> ix.questionnaires[k].id in byId
    ensures forall key :: key in r <==> exists k :: 0 <= k < |ix.questionnaires| && ix.questionnaires[k].key == key
    ensures forall k :: LastWithKey(ix, k) ==>
              ix.questionnaires[k].key in r && r[ix.questionnaires[k].key] == byId[ix.questionnaires[k].id]
  {
    r := map[];
    for n := 0 to |ix.questionnaires|
      invariant forall key :: key in r <==> exists k :: 0 <= k < n && ix.questionnaires[k].key == key
      invariant forall k :: LastWithKey(ix, k) && k < n ==>
                  ix.questionnaires[k].key in r && r[ix.questionnaires[k].key] == byId[ix.questionnaires[k].id]
    {
      r := r[ix.questionnaires[n].key := byId[ix.questionnaires[n].id]];
    }
  }

  function Ids(ix: Index): set<int> { set k | 0 <= k < |ix.questionnaires| :: ix.questionnaires[k].id }

  function ConfiguredIds(ix: Index): set<int> {
    set k | 0 <= k < |ix.questionnaires| && Configured(ix.questionnaires[k]) :: ix.questionnaires[k].id
  }

  function Nobody(ids: set<int>): map<int, set<string>> { map i | i in ids :: {} }

  /** One voter of the loop. */
  method AddVoter(ix: Index, byId: map<int, set<string>>, v: string, mine: seq<Row>, ghost rows: seq<Row>, year: int,
                  ghost voters: seq<string>)
      returns (byId': map<int, set<string>>)
    requires CountsFor(byId, ix, rows, year, voters)
    requires mine == Own(rows, Paper(v, year)) && |mine| != 0
    ensures CountsFor(byId', ix, rows, year, voters + [v])
  {
    var done := CompletedQuestionnaireIds(ix, Map(LatestBatch(mine), AnswerOf()));
    var completed := done * ConfiguredIds(ix);
    byId' := map i | i in byId :: if i in completed then byId[i] + {v} else byId[i];
    assert forall i :: i in ConfiguredIds(ix) <==> ConfiguredId(ix, i);
    CountVoter(byId, ix, rows, year, voters, v, completed, byId');
  }

  /** `by_vote`: the rows of the year by voter. */
  method ByVote(rows: seq<Row>, year: int) returns (order: seq<string>, byVote: map<string, seq<Row>>)
    ensures forall v :: v in order <==> Voted(rows, v, year)
    ensures forall v :: v in order ==> Members(byVote, v) == Own(rows, Paper(v, year))
  {
    order, byVote := GroupBy(Filter(rows, InYear(year)), RowVoter());
    VotersListed(rows, year, order, byVote);
  }

  lemma NobodyCounted(ix: Index, rows: seq<Row>, year: int)
    ensures CountsFor(Nobody(Ids(ix)), ix, rows, year, [])
  {
  }

  /** The voters counted for each questionnaire id. */
  method ById(ix: Index, rows: seq<Row>, year: int) returns (byId: map<int, set<string>>, ghost voters: seq<string>)
    ensures CountsFor(byId, ix, rows, year, voters)
    ensures forall v :: v in voters <==> Voted(rows, v, year)
  {
    var order, byVote := ByVote(rows, year);
    byId := Nobody(Ids(ix));
    NobodyCounted(ix, rows, year);
    voters := [];
    for n := 0 to |order|
      invariant voters == order[..n] && CountsFor(byId, ix, rows, year, voters)
    {
      assert order[n] in order && Voted(rows, order[n], year);
      byId := AddVoter(ix, byId, order[n], Members(byVote, order[n]), rows, year, voters);
      voters := voters + [order[n]];
    }
    assert voters == order;
  }

  lemma VotersListed(rows: seq<Row>, year: int, order: seq<string>, byVote: map<string, seq<Row>>)
    requires Grouped(order, byVote, Filter(rows, InYear(year)), RowVoter())
    ensures forall v :: v in order <==> Voted(rows, v, year)
    ensures forall v :: v in order ==> Members(byVote, v) == Own(rows, Paper(v, year))
  {
    var mine := Filter(rows, InYear(year));
    forall v ensures (v in order <==> Voted(rows, v, year)) && Members(byVote, v) == Own(rows, Paper(v, year)) {
      YearThenVoter(rows, year, v);
      assert Members(byVote, v) == Filter(mine, InGroup(RowVoter(), v));
      if v in order {
        var i :| 0 <= i < |mine| && RowVoter()(mine[i]) == v;
        assert InGroup(RowVoter(), v)(mine[i]) && mine[i] in mine;
      }
    }
  }

  /** `load_questionnaire_completion`. */
  method LoadCompletion(structure: seq<Questionnaire>, rows: seq<Row>, year: int) returns (r: map<string, set<string>>)
    ensures IsCompletion(r, IndexOf(structure), rows, year)
  {
    var ix := BuildIndex(structure);
    var byId, voters := ById(ix, rows, year);
    r := ByKey(ix, byId);
    Published(ix, rows, year, byId, voters, r);
  }

  lemma {:induction false} Published(ix: Index, rows: seq<Row>, year: int, byId: map<int, set<string>>,
                                     voters: seq<string>, r: map<string, set<string>>)
    requires CountsFor(byId, ix, rows, year, voters) && forall v :: v in voters <==> Voted(rows, v, year)
    requires forall key :: key in r <==> exists k :: 0 <= k < |ix.questionnaires| && ix.questionnaires[k].key == key
    requires forall k :: LastWithKey(ix, k) ==>
               ix.questionnaires[k].key in r && ix.questionnaires[k].id in byId &&
               r[ix.questionnaires[k].key] == byId[ix.questionnaires[k].id]
    ensures IsCompletion(r, ix, rows, year)
  {
    forall k, v | LastWithKey(ix, k)
      ensures ix.questionnaires[k].key in r &&
              (v in r[ix.questionnaires[k].key] <==> CountedFor(ix, rows, year, v, ix.questionnaires[k].id))
    {
      CountedUnder(ix, rows, year, byId, voters, ix.questionnaires[k].id, v);
    }
  }

  lemma CountedUnder(ix: Index, rows: seq<Row>, year: int, byId: map<int, set<string>>, voters: seq<string>, i: int,
                     v: string)
    requires CountsFor(byId, ix, rows, year, voters) && (v in voters <==> Voted(rows, v, year)) && i in byId
    ensures v in byId[i] <==> CountedFor(ix, rows, year, v, i)
  {
  }

  // ---------- gate and statistics ----------

  lemma {:induction false} NothingCompleted(ix: Index, qn: Questionnaire)
    requires Configured(qn)
    ensures !IsCompleted(ix, qn, [])
  {
    assert forall key :: !Answered(ix, [], key);
  }

  /** With distinct ids and keys, a voter passes the gate exactly when he is counted for every required
      questionnaire that has questions and has a row for every group of the required others. */
  lemma GateAgrees(structure: seq<Questionnaire>, rows: seq<Row>, year: int, v: string, r: map<string, set<string>>)
    requires forall j, k :: 0 <= j < k < |structure| ==>
               structure[j].id != structure[k].id && structure[j].key != structure[k].key
    requires IsCompletion(r, IndexOf(structure), rows, year)
    ensures Passes(IndexOf(structure), Current(rows, v, year)) <==>
            forall k :: 0 <= k < |structure| && structure[k].required ==>
              if Configured(structure[k]) then structure[k].key in r && v in r[structure[k].key]
              else forall i :: 0 <= i < |structure[k].groups| ==>
                  Covered(Current(rows, v, year), (structure[k].id, structure[k].groups[i].id))
  {
    var ix, mine := IndexOf(structure), Current(rows, v, year);
    forall k | 0 <= k < |structure|
      ensures CompletedId(ix, mine, structure[k].id) <==>
              if Configured(structure[k]) then structure[k].key in r && v in r[structure[k].key]
              else forall i :: 0 <= i < |structure[k].groups| ==>
                  Covered(mine, (structure[k].id, structure[k].groups[i].id))
    {
      GateAgreesOn(structure, rows, year, v, r, k);
    }
  }

  lemma GateAgreesOn(structure: seq<Questionnaire>, rows: seq<Row>, year: int, v: string, r: map<string, set<string>>,
                     k: nat)
    requires forall i, j :: 0 <= i < j < |structure| ==>
               structure[i].id != structure[j].id && structure[i].key != structure[j].key
    requires IsCompletion(r, IndexOf(structure), rows, year) && k < |structure|
    ensures var qn, mine := structure[k], Current(rows, v, year);
            CompletedId(IndexOf(structure), mine, qn.id) <==>
              if Configured(qn) then qn.key in r && v in r[qn.key]
              else forall i :: 0 <= i < |qn.groups| ==> Covered(mine, (qn.id, qn.groups[i].id))
  {
    var ix, qn, mine := IndexOf(structure), structure[k], Current(rows, v, year);
    assert ix.questionnaires == structure && LastWithKey(ix, k);
    assert CompletedId(ix, mine, qn.id) <==> IsCompleted(ix, qn, mine);
    if Configured(qn) {
      assert ConfiguredId(ix, qn.id);
      assert v in r[qn.key] <==> CountedFor(ix, rows, year, v, qn.id);
      if !Voted(rows, v, year) {
        assert mine == [];
        NothingCompleted(ix, qn);
      }
    }
  }
}
