/** The append-only ballot table (src/apps/submit/dao.py): attempt numbers, the preserved first fill
    duration, and which row the readers see. */
module SubmitTable {
  import opened Prelude
  import opened Selection
  import opened Conservation

  /** What one submission brings along. */
  datatype Call = Call(voter: string, createdAt: int, fillMs: Option<int>, payload: seq<RawItem>)

  function AttemptKey(): StoredRow -> seq<int> { (r: StoredRow) => [AttemptOrZero(r)] }

  /** A row the `ORDER BY coalesce(attempt, 0) DESC LIMIT 1` query may return. */
  ghost predicate IsPrevious(prev: Option<StoredRow>, rows: seq<StoredRow>, v: string) {
    match prev
    case None => RowsOf(rows, v) == []
    case Some(p) => Greatest(p, RowsOf(rows, v), AttemptKey())
  }

  function NextRow(prev: Option<StoredRow>, c: Call): StoredRow {
    if prev.None? || prev.value.attempt.None?
    then StoredRow(c.voter, c.createdAt, Some(1), c.fillMs, false, c.payload)
    else StoredRow(c.voter, c.createdAt, Some(prev.value.attempt.value + 1), prev.value.fillMs, false, c.payload)
  }

  /** One `_upsert`: nothing is deleted or changed, one row is added. */
  ghost predicate Upserted(rows: seq<StoredRow>, c: Call, rows': seq<StoredRow>) {
    exists prev :: IsPrevious(prev, rows, c.voter) && rows' == rows + [NextRow(prev, c)]
  }

  /** Nothing of the voter is numbered. */
  ghost predicate Unnumbered(rows: seq<StoredRow>, v: string) {
    forall r :: r in rows && r.voter == v ==> r.attempt.None?
  }

  /** His row with the greatest number. */
  ghost predicate LastNumbered(rows: seq<StoredRow>, v: string, p: StoredRow) {
    && p in rows && p.voter == v && p.attempt.Some?
    && forall q :: q in rows && q.voter == v && q.attempt.Some? ==> q.attempt.value <= p.attempt.value
  }

  /** The first numbered row brings its own fill duration; every later one is numbered on and keeps the fill
      duration of the row before. */
  ghost predicate Continues(rows: seq<StoredRow>, c: Call, r: StoredRow) {
    && (Unnumbered(rows, c.voter) ==> r.attempt == Some(1) && r.fillMs == c.fillMs)
    && (!Unnumbered(rows, c.voter) && NumbersStartAtOne(rows, c.voter) ==>
          exists p :: LastNumbered(rows, c.voter, p) && r.attempt == Some(p.attempt.value + 1) && r.fillMs == p.fillMs)
  }

  ghost predicate NumbersStartAtOne(rows: seq<StoredRow>, v: string) {
    forall r :: r in rows && r.voter == v && r.attempt.Some? ==> r.attempt.value >= 1
  }

  lemma NextContinues(rows: seq<StoredRow>, c: Call, prev: Option<StoredRow>)
    requires IsPrevious(prev, rows, c.voter)
    ensures Carries(NextRow(prev, c), c) && Continues(rows, c, NextRow(prev, c))
  {
    forall r | r in rows && r.voter == c.voter
      ensures prev.Some? && prev.value in rows && prev.value.voter == c.voter
      ensures AttemptOrZero(r) <= AttemptOrZero(prev.value)
    {
      assert InGroup(VoteId(), c.voter)(r) && r in RowsOf(rows, c.voter);
      LexSingle(AttemptOrZero(r), AttemptOrZero(prev.value));
    }
    if prev.Some? {
      assert prev.value in RowsOf(rows, c.voter);
      assert InGroup(VoteId(), c.voter)(prev.value);
    }
    if !Unnumbered(rows, c.voter) && NumbersStartAtOne(rows, c.voter) {
      assert LastNumbered(rows, c.voter, prev.value);
    }
  }

  class Table {
    var rows: seq<StoredRow>

    constructor ()
      ensures rows == []
    {
      rows := [];
    }

    method PreviousOf(v: string) returns (prev: Option<StoredRow>)
      ensures IsPrevious(prev, rows, v)
    {
      var mine := RowsOf(rows, v);
      prev := FirstMax(mine, AttemptKey());
      if |mine| != 0 {
        MaxIsGreatest(mine, AttemptKey());
      }
    }

    method Upsert(c: Call)
      modifies this
      ensures Upserted(old(rows), c, rows)
      ensures exists r :: rows == old(rows) + [r] && Carries(r, c) && Continues(old(rows), c, r)
    {
      var prev := PreviousOf(c.voter);
      ghost var before := rows;
      rows := rows + [NextRow(prev, c)];
      NextContinues(before, c, prev);
    }

    /** `ORDER BY created_at DESC, coalesce(attempt, 0) DESC LIMIT 1`. */
    method Latest(v: string) returns (r: Option<StoredRow>)
      ensures r.None? <==> RowsOf(rows, v) == []
      ensures r.Some? ==> Greatest(r.value, RowsOf(rows, v), RowKey())
      ensures r.Some? ==> r.value in rows && r.value.voter == v
      ensures r.Some? ==> forall q :: q in rows && q.voter == v ==> NotLater(q, r.value)
    {
      var mine := RowsOf(rows, v);
      r := FirstMax(mine, RowKey());
      if |mine| != 0 {
        MaxIsGreatest(mine, RowKey());
        forall q | q in rows && q.voter == v ensures NotLater(q, r.value) {
          assert InGroup(VoteId(), v)(q) && q in mine;
          RowOrder(q, r.value);
        }
      }
    }
  }

  // ---------- runs of submissions ----------

  /** `states[i+1]` is `states[i]` after the i-th submission, by whichever voter. */
  ghost predicate Run(states: seq<seq<StoredRow>>, calls: seq<Call>) {
    && |states| == |calls| + 1
    && forall i :: 0 <= i < |calls| ==> StepAt(states, calls, i)
  }

  ghost predicate StepAt(states: seq<seq<StoredRow>>, calls: seq<Call>, i: nat)
    requires |states| == |calls| + 1 && i < |calls|
  {
    Upserted(states[i], calls[i], states[i+1])
  }

  /** `rows` extends `base`, where voter `v` had unnumbered rows at most; his new rows are numbered
      1, 2, ... without gap or repetition and share the first one's fill duration. */
  ghost predicate Numbered(rows: seq<StoredRow>, base: seq<StoredRow>, v: string) {
    && base <= rows
    && (forall r :: r in RowsOf(base, v) ==> r.attempt.None?)
    && Sequence(Added(rows, base, v))
  }

  ghost function Added(rows: seq<StoredRow>, base: seq<StoredRow>, v: string): seq<StoredRow>
    requires base <= rows
  {
    RowsOf(rows[|base|..], v)
  }

  lemma RowsSplit(rows: seq<StoredRow>, base: seq<StoredRow>, v: string)
    requires base <= rows
    ensures RowsOf(rows, v) == RowsOf(base, v) + Added(rows, base, v)
  {
    assert rows == base + rows[|base|..];
    FilterConcat(base, rows[|base|..], InGroup(VoteId(), v));
  }

  lemma AddedSnoc(rows: seq<StoredRow>, base: seq<StoredRow>, v: string, r: StoredRow)
    requires base <= rows
    ensures Added(rows + [r], base, v) == if r.voter == v then Added(rows, base, v) + [r] else Added(rows, base, v)
  {
    assert (rows + [r])[|base|..] == rows[|base|..] + [r];
    FilterSnoc(rows[|base|..], r, InGroup(VoteId(), v));
  }

  /** The previous row of a numbered voter is his last numbered row, if he has one. */
  lemma PreviousIsLast(rows: seq<StoredRow>, base: seq<StoredRow>, v: string, prev: Option<StoredRow>)
    requires Numbered(rows, base, v) && IsPrevious(prev, rows, v)
    ensures var added := Added(rows, base, v);
            if |added| == 0 then prev.None? || prev.value.attempt.None?
            else prev == Some(added[|added|-1])
  {
    var added := Added(rows, base, v);
    RowsSplit(rows, base, v);
    if |added| != 0 {
      var last := added[|added|-1];
      assert last in RowsOf(rows, v);
      var p := prev.value;
      assert LexLe(AttemptKey()(last), AttemptKey()(p));
      LexSingle(AttemptOrZero(last), AttemptOrZero(p));
      assert p !in RowsOf(base, v);
      var i :| 0 <= i < |added| && added[i] == p;
      assert i + 1 >= |added|;
    }
  }

  ghost predicate Sequence(added: seq<StoredRow>) {
    forall i :: 0 <= i < |added| ==> added[i].attempt == Some(i + 1) && added[i].fillMs == added[0].fillMs
  }

  lemma SequenceSnoc(added: seq<StoredRow>, prev: Option<StoredRow>, c: Call)
    requires Sequence(added)
    requires if |added| == 0 then prev.None? || prev.value.attempt.None? else prev == Some(added[|added|-1])
    ensures Sequence(added + [NextRow(prev, c)])
  {
  }

  /** What the new row does to the rows added for voter `v`. */
  lemma NextNumbers(rows: seq<StoredRow>, c: Call, prev: Option<StoredRow>, base: seq<StoredRow>, v: string)
    requires Numbered(rows, base, v) && IsPrevious(prev, rows, c.voter)
    ensures Numbered(rows + [NextRow(prev, c)], base, v)
    ensures Added(rows + [NextRow(prev, c)], base, v) ==
            Added(rows, base, v) + if c.voter == v then [NextRow(prev, c)] else []
  {
    NextAdded(rows, c, prev, base, v);
    if c.voter == v {
      NextInSequence(rows, c, prev, base, v);
    }
    NumberedStep(rows, base, v, NextRow(prev, c));
  }

  lemma NextAdded(rows: seq<StoredRow>, c: Call, prev: Option<StoredRow>, base: seq<StoredRow>, v: string)
    requires base <= rows
    ensures Added(rows + [NextRow(prev, c)], base, v) ==
            Added(rows, base, v) + if c.voter == v then [NextRow(prev, c)] else []
  {
    AddedSnoc(rows, base, v, NextRow(prev, c));
  }

  lemma NextInSequence(rows: seq<StoredRow>, c: Call, prev: Option<StoredRow>, base: seq<StoredRow>, v: string)
    requires Numbered(rows, base, v) && IsPrevious(prev, rows, v)
    ensures Sequence(Added(rows, base, v) + [NextRow(prev, c)])
  {
    PreviousIsLast(rows, base, v, prev);
    SequenceSnoc(Added(rows, base, v), prev, c);
  }

  lemma NumberedStep(rows: seq<StoredRow>, base: seq<StoredRow>, v: string, r: StoredRow)
    requires Numbered(rows, base, v) &&
             Sequence(if r.voter == v then Added(rows, base, v) + [r] else Added(rows, base, v))
    ensures Numbered(rows + [r], base, v)
  {
    AddedSnoc(rows, base, v, r);
  }

  lemma UpsertNumbers(rows: seq<StoredRow>, c: Call, rows': seq<StoredRow>, base: seq<StoredRow>, v: string)
      returns (r: StoredRow)
    requires Numbered(rows, base, v) && Upserted(rows, c, rows')
    ensures Numbered(rows', base, v) && Carries(r, c)
    ensures Added(rows', base, v) == Added(rows, base, v) + if c.voter == v then [r] else []
    ensures c.voter == v && |Added(rows, base, v)| == 0 ==> r.fillMs == c.fillMs
  {
    var prev :| IsPrevious(prev, rows, c.voter) && rows' == rows + [NextRow(prev, c)];
    NextNumbers(rows, c, prev, base, v);
    if c.voter == v {
      PreviousIsLast(rows, base, v, prev);
    }
    r := NextRow(prev, c);
  }

  function CallOf(v: string): Call -> bool { (c: Call) => c.voter == v }

  /** `r` is the row a submission turned into. */
  ghost predicate Carries(r: StoredRow, c: Call) {
    r.voter == c.voter && r.createdAt == c.createdAt && r.payload == c.payload && !r.invalidated
  }

  /** All rows carry the fill duration of the first submission. */
  ghost predicate FirstFill(added: seq<StoredRow>, calls: seq<Call>) {
    |calls| != 0 ==> forall i :: 0 <= i < |added| ==> added[i].fillMs == calls[0].fillMs
  }

  ghost predicate CarryAll(added: seq<StoredRow>, calls: seq<Call>) {
    |added| == |calls| && forall i :: 0 <= i < |calls| ==> Carries(added[i], calls[i])
  }

  /** The voter's submissions are stored one by one behind the old rows. */
  ghost predicate Stored(rows: seq<StoredRow>, base: seq<StoredRow>, v: string, mine: seq<Call>) {
    Numbered(rows, base, v) && CarryAll(Added(rows, base, v), mine) && FirstFill(Added(rows, base, v), mine)
  }

  lemma NothingStored(base: seq<StoredRow>, v: string)
    requires forall r :: r in RowsOf(base, v) ==> r.attempt.None?
    ensures Stored(base, base, v, [])
  {
    assert base[|base|..] == [];
  }

  lemma RunPrefix(states: seq<seq<StoredRow>>, calls: seq<Call>)
    requires Run(states, calls) && |calls| != 0
    ensures Run(states[..|calls|], calls[..|calls|-1])
    ensures Upserted(states[|calls|-1], calls[|calls|-1], states[|calls|])
  {
    var n := |calls| - 1;
    assert StepAt(states, calls, n);
    var before, front := states[..n+1], calls[..n];
    forall i | 0 <= i < n ensures StepAt(before, front, i) {
      assert StepAt(states, calls, i);
      assert before[i] == states[i] && before[i+1] == states[i+1] && front[i] == calls[i];
    }
  }

  lemma {:induction false} RunStores(states: seq<seq<StoredRow>>, calls: seq<Call>, v: string)
    requires Run(states, calls)
    requires forall r :: r in RowsOf(states[0], v) ==> r.attempt.None?
    ensures Stored(states[|calls|], states[0], v, Filter(calls, CallOf(v)))
  {
    if |calls| == 0 {
      NothingStored(states[0], v);
    } else {
      var n := |calls| - 1;
      RunPrefix(states, calls);
      RunStores(states[..|calls|], calls[..n], v);
      CallNumbers(states[n], calls[n], states[n+1], states[0], v, Filter(calls[..n], CallOf(v)));
    }
  }

  /** Over any run, from any table in which `v` has unnumbered rows at most: old rows stay, and his
      submissions are stored one by one, numbered 1..n, all with the fill duration the first one brought. */
  lemma RunNumbers(states: seq<seq<StoredRow>>, calls: seq<Call>, v: string)
    requires Run(states, calls)
    requires forall r :: r in RowsOf(states[0], v) ==> r.attempt.None?
    ensures Numbered(states[|calls|], states[0], v)
    ensures CarryAll(Added(states[|calls|], states[0], v), Filter(calls, CallOf(v)))
    ensures FirstFill(Added(states[|calls|], states[0], v), Filter(calls, CallOf(v)))
  {
    RunStores(states, calls, v);
  }

  lemma CallNumbers(rows: seq<StoredRow>, c: Call, rows': seq<StoredRow>, base: seq<StoredRow>, v: string,
                    mine: seq<Call>)
    requires Stored(rows, base, v, mine) && Upserted(rows, c, rows')
    ensures Stored(rows', base, v, if c.voter == v then mine + [c] else mine)
  {
    var r := UpsertNumbers(rows, c, rows', base, v);
    if c.voter == v {
      CarrySnoc(Added(rows, base, v), mine, r, c);
    }
  }

  lemma CarrySnoc(added: seq<StoredRow>, mine: seq<Call>, r: StoredRow, c: Call)
    requires CarryAll(added, mine) && FirstFill(added, mine) && Carries(r, c) && Sequence(added + [r])
    requires |added| == 0 ==> r.fillMs == c.fillMs
    ensures CarryAll(added + [r], mine + [c]) && FirstFill(added + [r], mine + [c])
  {
    var all := added + [r];
    assert all[|added|] == r && forall i :: 0 <= i < |added| ==> all[i] == added[i];
    assert forall i :: 0 <= i < |all| ==> all[i].fillMs == all[0].fillMs;
  }

  // ---------- which row is read ----------

  /** The voter's rows are stored in the order of their timestamps. */
  ghost predicate InTimeOrder(rows: seq<StoredRow>) {
    forall i, j :: 0 <= i < j < |rows| ==> rows[i].createdAt <= rows[j].createdAt
  }

  lemma {:induction false} NewerAttempt(a: StoredRow, b: StoredRow)
    requires a.createdAt <= b.createdAt && AttemptOrZero(a) < AttemptOrZero(b)
    ensures !LexLe(RowKey()(b), RowKey()(a))
  {
    LexSingle(AttemptOrZero(b), AttemptOrZero(a));
    assert RowKey()(b)[1..] == [AttemptOrZero(b)] && RowKey()(a)[1..] == [AttemptOrZero(a)];
  }

  /** After at least one submission, with timestamps that never go back, the last submission is what the
      reader returns, what the tally selects, and the row on which the replay ends. */
  lemma LastSubmissionWins(rows: seq<StoredRow>, base: seq<StoredRow>, v: string)
    requires Numbered(rows, base, v) && |Added(rows, base, v)| != 0
    requires InTimeOrder(RowsOf(rows, v))
    ensures var added := Added(rows, base, v);
            var last := added[|added|-1];
            && (forall r :: Greatest(r, RowsOf(rows, v), RowKey()) <==> r == last)
            && Newest(rows, v) == ReplayEnd(rows, v) == Some(last)
            && (Kept(rows, v) <==> !last.invalidated)
  {
    var mine, added := RowsOf(rows, v), Added(rows, base, v);
    var last := added[|added|-1];
    RowsSplit(rows, base, v);
    var n := |mine| - 1;
    assert mine[n] == last;
    forall i | 0 <= i < n
      ensures !LexLe(RowKey()(last), RowKey()(mine[i])) && LexLe(RowKey()(mine[i]), RowKey()(last))
    {
      assert i < |RowsOf(base, v)| ==> mine[i] in RowsOf(base, v);
      assert i >= |RowsOf(base, v)| ==> mine[i] == added[i - |RowsOf(base, v)|];
      NewerAttempt(mine[i], last);
      LexTotal(RowKey()(mine[i]), RowKey()(last));
    }
    LexTotal(RowKey()(last), RowKey()(last));
    assert Greatest(last, mine, RowKey());
    MaxIsGreatest(mine, RowKey());
    forall r | Greatest(r, mine, RowKey()) ensures r == last {
      var i :| 0 <= i <= n && mine[i] == r;
      assert LexLe(RowKey()(last), RowKey()(r));
    }
  }

  ghost predicate CallsInTimeOrder(calls: seq<Call>) {
    forall i, j :: 0 <= i < j < |calls| ==> calls[i].createdAt <= calls[j].createdAt
  }

  lemma RunInTimeOrder(rows: seq<StoredRow>, base: seq<StoredRow>, v: string, mine: seq<Call>)
    requires base <= rows && CarryAll(Added(rows, base, v), mine)
    requires InTimeOrder(RowsOf(base, v)) && CallsInTimeOrder(mine)
    requires forall r, c :: r in RowsOf(base, v) && c in mine ==> r.createdAt <= c.createdAt
    ensures InTimeOrder(RowsOf(rows, v))
  {
    RowsSplit(rows, base, v);
    var older, added := RowsOf(base, v), Added(rows, base, v);
    var all := older + added;
    forall i, j | 0 <= i < j < |all| ensures all[i].createdAt <= all[j].createdAt {
      if i < |older| <= j {
        assert older[i] in older && mine[j - |older|] in mine;
      }
    }
  }

  /** What a voter submitted last is what he reads back and what is tallied, over any run in which his
      timestamps never go back. */
  lemma RunReadsLast(states: seq<seq<StoredRow>>, calls: seq<Call>, v: string)
    requires Run(states, calls)
    requires forall r :: r in RowsOf(states[0], v) ==> r.attempt.None?
    requires InTimeOrder(RowsOf(states[0], v)) && CallsInTimeOrder(Filter(calls, CallOf(v)))
    requires forall r, c :: r in RowsOf(states[0], v) && c in Filter(calls, CallOf(v)) ==> r.createdAt <= c.createdAt
    requires |Filter(calls, CallOf(v))| != 0
    ensures var final, mine := states[|calls|], Filter(calls, CallOf(v));
            && Kept(final, v) && Newest(final, v) == ReplayEnd(final, v)
            && Newest(final, v).value.payload == mine[|mine|-1].payload
            && forall r :: Greatest(r, RowsOf(final, v), RowKey()) <==> r == Newest(final, v).value
  {
    RunStores(states, calls, v);
    StoredReadsLast(states[|calls|], states[0], v, Filter(calls, CallOf(v)));
  }

  lemma StoredReadsLast(final: seq<StoredRow>, base: seq<StoredRow>, v: string, mine: seq<Call>)
    requires Stored(final, base, v, mine) && |mine| != 0
    requires InTimeOrder(RowsOf(base, v)) && CallsInTimeOrder(mine)
    requires forall r, c :: r in RowsOf(base, v) && c in mine ==> r.createdAt <= c.createdAt
    ensures && Kept(final, v) && Newest(final, v) == ReplayEnd(final, v)
            && Newest(final, v).value.payload == mine[|mine|-1].payload
            && forall r :: Greatest(r, RowsOf(final, v), RowKey()) <==> r == Newest(final, v).value
  {
    RunInTimeOrder(final, base, v, mine);
    LastSubmissionWins(final, base, v);
    assert Carries(Added(final, base, v)[|mine|-1], mine[|mine|-1]);
  }
}
