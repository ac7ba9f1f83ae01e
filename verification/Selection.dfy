/** Turning the append-only ballot table into "the ballot that counts" and "the history to replay"
    (src/apps/result/compute_dao.py), and what the two have to do with each other. */
module Selection {
  import opened Prelude
  import opened Trend

  /** A payload value: a string, or anything else together with its truth value. */
  datatype Json = Text(s: string) | Other(truthy: bool)

  /** One entry of a ballot; a missing field is `Other(false)`. */
  datatype Item = Item(id: Json, idA: Json, idB: Json, idC: Json, active: Json, first: bool)

  /** What a stored payload list may contain: a legacy bare id, an object, or junk. */
  datatype RawItem = Bare(id: string) | Full(item: Item) | Junk

  datatype StoredRow = StoredRow(voter: string, createdAt: int, attempt: Option<int>, fillMs: Option<int>,
                                 invalidated: bool, payload: seq<RawItem>)

  datatype Ballot = Ballot(voter: string, at: int, items: seq<Item>)

  const ABSENT := Other(false)

  function NormalizeItems(raw: seq<RawItem>): seq<Item> {
    if |raw| == 0 then [] else
      var front := NormalizeItems(raw[..|raw|-1]);
      match raw[|raw|-1]
      case Bare(id) => front + [Item(Text(id), ABSENT, ABSENT, ABSENT, ABSENT, false)]
      case Full(item) => front + [item]
      case Junk => front
  }

  function AttemptOrZero(r: StoredRow): int { if r.attempt.Some? then r.attempt.value else 0 }

  function RowKey(): StoredRow -> seq<int> { (r: StoredRow) => [r.createdAt, AttemptOrZero(r)] }

  /** Cast no later: at an earlier time, or at the same time with a smaller or equal attempt; no attempt counts
      as 0. */
  predicate NotLater(a: StoredRow, b: StoredRow) {
    a.createdAt < b.createdAt ||
      (a.createdAt == b.createdAt &&
         (if a.attempt.Some? then a.attempt.value else 0) <= if b.attempt.Some? then b.attempt.value else 0)
  }

  lemma RowOrder(a: StoredRow, b: StoredRow)
    ensures LexLe(RowKey()(a), RowKey()(b)) <==> NotLater(a, b)
  {
    LexSingle(AttemptOrZero(a), AttemptOrZero(b));
    assert RowKey()(a)[1..] == [AttemptOrZero(a)] && RowKey()(b)[1..] == [AttemptOrZero(b)];
  }

  /** Sorting by this key is sorting by `RowKey` with `reverse=True`. */
  function DescendingRowKey(): StoredRow -> seq<int> { (r: StoredRow) => [-r.createdAt, -AttemptOrZero(r)] }

  function VoteId(): StoredRow -> string { (r: StoredRow) => r.voter }

  function RowsOf(rows: seq<StoredRow>, v: string): seq<StoredRow> { Filter(rows, InGroup(VoteId(), v)) }

  function BallotOf(r: StoredRow): Ballot { Ballot(r.voter, r.createdAt, NormalizeItems(r.payload)) }

  function SnapshotOf(): StoredRow -> Snapshot<Item> {
    (r: StoredRow) => Snapshot(r.voter, r.createdAt, AttemptOrZero(r), NormalizeItems(r.payload))
  }

  /** The row that decides for a voter: the first of the newest. */
  function Newest(rows: seq<StoredRow>, v: string): Option<StoredRow> { FirstMax(RowsOf(rows, v), RowKey()) }

  /** A voter whose newest row was voided is dropped altogether. */
  predicate Kept(rows: seq<StoredRow>, v: string) {
    var newest := Newest(rows, v);
    newest.Some? && !newest.value.invalidated
  }

  // ---------- _latest_per_vote ----------

  ghost predicate IsLatest(latest: seq<Ballot>, rows: seq<StoredRow>) {
    && (forall i, j :: 0 <= i < j < |latest| ==> latest[i].voter != latest[j].voter)
    && (forall b :: b in latest <==> Kept(rows, b.voter) && b == BallotOf(Newest(rows, b.voter).value))
  }

  /** A selected ballot is that of a valid row which none of the voter's rows is later than, and a voter with a valid
      row that is later than all his others has a ballot. */
  lemma LatestMeans(latest: seq<Ballot>, rows: seq<StoredRow>, v: string)
    requires IsLatest(latest, rows)
    ensures forall b :: b in latest && b.voter == v ==> IsBallotOfLatest(b, rows)
    ensures forall r :: r in rows && r.voter == v && !r.invalidated && LaterThanOthers(r, rows) ==>
              exists b :: b in latest && b.voter == v && b.items == NormalizeItems(r.payload)
  {
    var newest := Newest(rows, v);
    if newest.Some? {
      MaxIsGreatest(RowsOf(rows, v), RowKey());
      assert InGroup(VoteId(), v)(newest.value);
    }
    forall q | q in rows && q.voter == v ensures newest.Some? && newest.value in rows && NotLater(q, newest.value) {
      assert InGroup(VoteId(), v)(q) && q in RowsOf(rows, v);
      RowOrder(q, newest.value);
    }
    forall r | r in rows && r.voter == v && !r.invalidated && LaterThanOthers(r, rows)
      ensures exists b :: b in latest && b.voter == v && b.items == NormalizeItems(r.payload)
    {
      assert newest == Some(r);
      assert BallotOf(r) in latest;
    }
  }

  /** None of his rows was cast later. */
  ghost predicate IsBallotOfLatest(b: Ballot, rows: seq<StoredRow>) {
    exists r :: r in rows && r.voter == b.voter && !r.invalidated && b.items == NormalizeItems(r.payload) &&
      b.at == r.createdAt && forall q :: q in rows && q.voter == b.voter ==> NotLater(q, r)
  }

  ghost predicate LaterThanOthers(r: StoredRow, rows: seq<StoredRow>) {
    forall q :: q in rows && q.voter == r.voter && q != r ==> !NotLater(r, q)
  }

  /** A row of the history keeps its voter, time, attempt and entries. */
  lemma SnapshotKeeps(r: StoredRow)
    ensures var s := SnapshotOf()(r);
            && s.voter == r.voter && s.at == r.createdAt && s.items == NormalizeItems(r.payload)
            && (r.attempt.Some? ==> s.attempt == r.attempt.value) && (r.attempt.None? ==> s.attempt == 0)
  {
  }

  /** The first row of voter `v` in a list. */
  function FirstRow(rows: seq<StoredRow>, v: string): Option<StoredRow> {
    if |rows| == 0 then None else
      var f := FirstRow(rows[..|rows|-1], v);
      if f.Some? then f else if rows[|rows|-1].voter == v then Some(rows[|rows|-1]) else None
  }

  lemma Descending(a: StoredRow, b: StoredRow)
    ensures LexLe(DescendingRowKey()(a), DescendingRowKey()(b)) <==> LexLe(RowKey()(b), RowKey()(a))
  {
    LexSingle(-AttemptOrZero(a), -AttemptOrZero(b));
    LexSingle(AttemptOrZero(b), AttemptOrZero(a));
    assert DescendingRowKey()(a)[1..] == [-AttemptOrZero(a)] && DescendingRowKey()(b)[1..] == [-AttemptOrZero(b)];
    assert RowKey()(a)[1..] == [AttemptOrZero(a)] && RowKey()(b)[1..] == [AttemptOrZero(b)];
  }

  lemma {:induction false} FirstRowIn(rows: seq<StoredRow>, v: string)
    ensures var f := FirstRow(rows, v); f.Some? ==> f.value in rows && f.value.voter == v
    ensures FirstRow(rows, v).None? <==> forall r :: r in rows ==> r.voter != v
  {
    if |rows| != 0 {
      FirstRowIn(rows[..|rows|-1], v);
      assert rows == rows[..|rows|-1] + [rows[|rows|-1]];
    }
  }

  /** Inserting a row into the descending list changes a voter's first row exactly when it is his and strictly newer. */
  lemma {:induction false} InsertFirstRow(sorted: seq<StoredRow>, x: StoredRow, v: string)
    requires SortedBy(sorted, DescendingRowKey())
    ensures FirstRow(Insert(sorted, x, DescendingRowKey()), v)
         == var f := FirstRow(sorted, v);
            if x.voter == v && (f.None? || !LexLe(RowKey()(x), RowKey()(f.value))) then Some(x) else f
  {
    if |sorted| == 0 {
      assert ([] + [x])[..0] == [];
    } else {
      var front, y := sorted[..|sorted|-1], sorted[|sorted|-1];
      var f := FirstRow(sorted, v);
      FirstRowIn(sorted, v);
      Descending(y, x);
      if LexLe(DescendingRowKey()(y), DescendingRowKey()(x)) {
        assert (sorted + [x])[..|sorted|] == sorted;
        if f.Some? {
          LexTotal(DescendingRowKey()(y), DescendingRowKey()(y));
          assert LexLe(DescendingRowKey()(f.value), DescendingRowKey()(y));
          LexTransitive(DescendingRowKey()(f.value), DescendingRowKey()(y), DescendingRowKey()(x));
          Descending(f.value, x);
        }
      } else {
        var r := Insert(front, x, DescendingRowKey());
        InsertFirstRow(front, x, v);
        assert (r + [y])[..|r|] == r;
      }
    }
  }

  /** Reading a voter's first row off the descending list is taking his newest row. */
  lemma {:induction false} SortFindsNewest(rows: seq<StoredRow>, v: string)
    ensures FirstRow(SortBy(rows, DescendingRowKey()), v) == Newest(rows, v)
  {
    if |rows| != 0 {
      var front, x := rows[..|rows|-1], rows[|rows|-1];
      SortFindsNewest(front, v);
      SortBySorted(front, DescendingRowKey());
      InsertFirstRow(SortBy(front, DescendingRowKey()), x, v);
      var mine := RowsOf(front, v);
      assert (mine + [x])[..|mine|] == mine;
    }
  }

  /** `order`/`latest`: the dictionary of first rows met so far, in insertion order. */
  ghost predicate FirstRows(order: seq<string>, latest: map<string, StoredRow>, rows: seq<StoredRow>) {
    && Distinct(order) && (forall v :: v in order <==> v in latest)
    && forall v :: FirstRow(rows, v) == if v in latest then Some(latest[v]) else None
  }

  lemma FirstRowStep(order: seq<string>, latest: map<string, StoredRow>, rows: seq<StoredRow>, n: nat)
    requires n < |rows| && FirstRows(order, latest, rows[..n])
    ensures var r := rows[n];
            if r.voter in latest then FirstRows(order, latest, rows[..n+1])
            else FirstRows(order + [r.voter], latest[r.voter := r], rows[..n+1])
  {
    var r := rows[n];
    assert rows[..n+1][..n] == rows[..n];
    if r.voter !in latest {
      DistinctSnoc(order, r.voter);
    }
    forall v
      ensures FirstRow(rows[..n+1], v) ==
              if FirstRow(rows[..n], v).Some? then FirstRow(rows[..n], v) else if r.voter == v then Some(r) else None
    {
    }
  }

  /** The ballots of the kept voters among `order`. */
  ghost predicate IsLatestOf(latest: seq<Ballot>, rows: seq<StoredRow>, order: seq<string>) {
    && (forall i, j :: 0 <= i < j < |latest| ==> latest[i].voter != latest[j].voter)
    && (forall b :: b in latest <==>
          b.voter in order && Kept(rows, b.voter) && b == BallotOf(Newest(rows, b.voter).value))
  }

  lemma {:induction false} LatestStep(latest: seq<Ballot>, rows: seq<StoredRow>, order: seq<string>, v: string)
    requires IsLatestOf(latest, rows, order) && v !in order
    requires Newest(rows, v).Some? && Newest(rows, v).value.voter == v
    ensures IsLatestOf(if Kept(rows, v) then latest + [BallotOf(Newest(rows, v).value)] else latest, rows, order + [v])
  {
    forall i | 0 <= i < |latest| ensures latest[i].voter != v {
      assert latest[i] in latest;
    }
  }

  lemma LatestComplete(latest: seq<Ballot>, rows: seq<StoredRow>, order: seq<string>)
    requires IsLatestOf(latest, rows, order)
    requires forall v :: v in order <==> Newest(rows, v).Some?
    ensures IsLatest(latest, rows)
  {
  }

  /** `if r.vote_id not in latest: latest[r.vote_id] = r` over the descending list. */
  method FirstOfEach(ordered: seq<StoredRow>) returns (order: seq<string>, latest: map<string, StoredRow>)
    ensures FirstRows(order, latest, ordered)
  {
    order, latest := [], map[];
    for n := 0 to |ordered|
      invariant FirstRows(order, latest, ordered[..n])
    {
      var r := ordered[n];
      FirstRowStep(order, latest, ordered, n);
      if r.voter !in latest {
        order := order + [r.voter];
        latest := latest[r.voter := r];
      }
    }
    assert ordered[..|ordered|] == ordered;
  }

  lemma FirstRowsAreNewest(order: seq<string>, latest: map<string, StoredRow>, rows: seq<StoredRow>)
    requires FirstRows(order, latest, SortBy(rows, DescendingRowKey()))
    ensures forall v :: v in order <==> Newest(rows, v).Some?
    ensures forall v :: v in order ==> v in latest && latest[v] == Newest(rows, v).value && latest[v].voter == v
    ensures Distinct(order)
  {
    forall v ensures v in order <==> Newest(rows, v).Some?
             ensures v in order ==> v in latest && latest[v] == Newest(rows, v).value && latest[v].voter == v {
      SortFindsNewest(rows, v);
      FirstRowIn(SortBy(rows, DescendingRowKey()), v);
    }
  }

  /** The voters' first rows, in order, each with the row the dictionary holds for it. */
  ghost predicate HoldsNewest(order: seq<string>, latest: map<string, StoredRow>, rows: seq<StoredRow>) {
    && Distinct(order)
    && (forall v :: v in order <==> Newest(rows, v).Some?)
    && (forall v :: v in order ==> v in latest && latest[v] == Newest(rows, v).value && latest[v].voter == v)
  }

  /** The list comprehension that leaves out the voided voters. */
  method KeptBallots(order: seq<string>, latest: map<string, StoredRow>, ghost rows: seq<StoredRow>)
      returns (result: seq<Ballot>)
    requires HoldsNewest(order, latest, rows)
    ensures IsLatest(result, rows)
  {
    result := [];
    for n := 0 to |order|
      invariant IsLatestOf(result, rows, order[..n])
    {
      var v := order[n];
      assert v in order && Newest(rows, v) == Some(latest[v]);
      assert Kept(rows, v) == !latest[v].invalidated;
      ghost var before := result;
      if !latest[v].invalidated {
        result := result + [BallotOf(latest[v])];
      }
      assert order[..n+1] == order[..n] + [v];
      assert IsLatestOf(result, rows, order[..n+1]) by {
        LatestStep(before, rows, order[..n], v);
      }
    }
    assert order[..|order|] == order;
    LatestComplete(result, rows, order);
  }

  method LatestPerVote(rows: seq<StoredRow>) returns (result: seq<Ballot>)
    ensures IsLatest(result, rows)
  {
    var order, latest := FirstOfEach(SortBy(rows, DescendingRowKey()));
    FirstRowsAreNewest(order, latest, rows);
    result := KeptBallots(order, latest, rows);
  }

  // ---------- _history_per_vote ----------

  ghost predicate IsHistory(history: seq<Snapshot<Item>>, rows: seq<StoredRow>) {
    forall v {:trigger Kept(rows, v)} ::
      Filter(history, OfVoter(v)) == if Kept(rows, v) then Map(RowsOf(rows, v), SnapshotOf()) else []
  }

  /** The history of the voters in `order`. */
  ghost predicate IsHistoryOf(history: seq<Snapshot<Item>>, rows: seq<StoredRow>, order: seq<string>) {
    forall v {:trigger Kept(rows, v)} ::
      Filter(history, OfVoter(v)) == if v in order && Kept(rows, v) then Map(RowsOf(rows, v), SnapshotOf()) else []
  }

  /** A voter's rows, as history, are invisible to every other voter. */
  lemma BlockOf(rows: seq<StoredRow>, v: string, u: string)
    ensures var block := Map(RowsOf(rows, v), SnapshotOf());
            Filter(block, OfVoter(u)) == if u == v then block else []
  {
    var block := Map(RowsOf(rows, v), SnapshotOf());
    forall s | s in block ensures OfVoter(u)(s) == (u == v) {
      var i :| 0 <= i < |block| && block[i] == s;
      assert InGroup(VoteId(), v)(RowsOf(rows, v)[i]);
    }
    FilterUniform(block, OfVoter(u), u == v);
  }

  lemma HistoryStep(history: seq<Snapshot<Item>>, rows: seq<StoredRow>, order: seq<string>, v: string)
    requires IsHistoryOf(history, rows, order) && v !in order
    ensures IsHistoryOf(if Kept(rows, v) then history + Map(RowsOf(rows, v), SnapshotOf()) else history, rows,
                        order + [v])
  {
    if Kept(rows, v) {
      var block := Map(RowsOf(rows, v), SnapshotOf());
      forall u ensures Filter(history + block, OfVoter(u))
                    == if u in order + [v] && Kept(rows, u) then Map(RowsOf(rows, u), SnapshotOf()) else [] {
        HistoryOfOne(history, rows, order, v, u);
      }
    }
  }

  lemma HistoryOfOne(history: seq<Snapshot<Item>>, rows: seq<StoredRow>, order: seq<string>, v: string, u: string)
    requires IsHistoryOf(history, rows, order) && v !in order && Kept(rows, v)
    ensures Filter(history + Map(RowsOf(rows, v), SnapshotOf()), OfVoter(u)) ==
            if u in order + [v] && Kept(rows, u) then Map(RowsOf(rows, u), SnapshotOf()) else []
  {
    var block := Map(RowsOf(rows, v), SnapshotOf());
    FilterConcat(history, block, OfVoter(u));
    BlockOf(rows, v, u);
    assert Kept(rows, u) || !Kept(rows, u);
  }

  method HistoryPerVote(rows: seq<StoredRow>) returns (result: seq<Snapshot<Item>>)
    ensures IsHistory(result, rows)
  {
    var order, byVote := GroupBy(rows, VoteId());
    result := [];
    for n := 0 to |order|
      invariant IsHistoryOf(result, rows, order[..n])
    {
      NextVoter(order, n);
      assert Members(byVote, order[n]) == RowsOf(rows, order[n]);
      result := AddHistory(result, Members(byVote, order[n]), rows, order[..n], order[n]);
    }
    assert order[..|order|] == order;
    HistoryComplete(result, rows, order);
  }

  lemma NextVoter(order: seq<string>, n: nat)
    requires Distinct(order) && n < |order|
    ensures order[..n+1] == order[..n] + [order[n]] && order[n] !in order[..n]
  {
  }

  /** One voter of the loop. */
  method AddHistory(history: seq<Snapshot<Item>>, voteRows: seq<StoredRow>, ghost rows: seq<StoredRow>,
                    ghost order: seq<string>, ghost v: string)
      returns (result: seq<Snapshot<Item>>)
    requires IsHistoryOf(history, rows, order) && v !in order && v in GroupSet(rows, VoteId())
    requires voteRows == RowsOf(rows, v)
    ensures IsHistoryOf(result, rows, order + [v])
  {
    result := history;
    InhabitedGroup(rows, VoteId(), v);
    var newest := FirstMax(voteRows, RowKey()).value;
    HistoryStep(history, rows, order, v);
    if !newest.invalidated {
      result := result + Map(voteRows, SnapshotOf());
    }
  }

  lemma HistoryComplete(history: seq<Snapshot<Item>>, rows: seq<StoredRow>, order: seq<string>)
    requires IsHistoryOf(history, rows, order) && forall v :: v in order <==> v in GroupSet(rows, VoteId())
    ensures IsHistory(history, rows)
  {
    forall v ensures Kept(rows, v) ==> v in order {
      if Kept(rows, v) {
        KeptVoterHasRow(rows, v);
      }
    }
  }

  lemma {:induction false} InhabitedGroup<T, G>(s: seq<T>, groupOf: T -> G, g: G)
    requires g in GroupSet(s, groupOf)
    ensures |Filter(s, InGroup(groupOf, g))| != 0
  {
    var i :| 0 <= i < |s| && groupOf(s[i]) == g;
    assert InGroup(groupOf, g)(s[i]) && s[i] in Filter(s, InGroup(groupOf, g));
  }

  lemma {:induction false} KeptVoterHasRow(rows: seq<StoredRow>, v: string)
    requires Newest(rows, v).Some?
    ensures v in GroupSet(rows, VoteId())
  {
    var r := RowsOf(rows, v)[0];
    assert r in rows && InGroup(VoteId(), v)(r);
  }
}
