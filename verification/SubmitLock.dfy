/** Concurrent submissions under the per-user lock (src/apps/submit/router.py with
    src/apps/submit/dao.py), as interleaved steps of any number of requests. */
module SubmitLock {
  import opened Prelude
  import opened Selection
  import opened SubmitTable

  /** Where a request is.  `Leaving` and `Deleting` are the two halves of the release: the key is read
      and compared first, and deleted by a separate command. */
  datatype Phase =
    | Waiting
    | Holding
    | Read(prev: Option<StoredRow>)
    | Leaving
    | Deleting
    | Finished
    | Crashed

  /** `lock[u]` is the request whose random value is stored under user `u`'s key. */
  datatype State = State(lock: map<string, nat>, phases: map<nat, Phase>, rows: seq<StoredRow>)

  function PhaseOf(s: State, i: nat): Phase { if i in s.phases then s.phases[i] else Waiting }

  /** Between acquiring the lock and having released it. */
  predicate Inside(s: State, i: nat) {
    match PhaseOf(s, i)
    case Holding => true
    case Read(_) => true
    case Leaving => true
    case Deleting => true
    case _ => false
  }

  /** What request `i` wants to store; the requests are fixed, their schedule is not. */
  type Requests = nat -> Call

  function Moved(s: State, i: nat, p: Phase): State { s.(phases := s.phases[i := p]) }

  // ---------- steps ----------

  /** `SET key value NX`. */
  ghost predicate Acquire(req: Requests, s: State, s': State, i: nat) {
    && PhaseOf(s, i) == Waiting
    && if req(i).voter in s.lock then s' == Moved(s, i, Finished)
       else s' == Moved(s, i, Holding).(lock := s.lock[req(i).voter := i])
  }

  ghost predicate ReadPrevious(req: Requests, s: State, s': State, i: nat) {
    && PhaseOf(s, i) == Holding
    && exists prev :: IsPrevious(prev, s.rows, req(i).voter) && s' == Moved(s, i, Read(prev))
  }

  /** A validation error skips the insertion; the lock is released all the same. */
  ghost predicate Refuse(s: State, s': State, i: nat) {
    PhaseOf(s, i) == Holding && s' == Moved(s, i, Leaving)
  }

  ghost predicate Insert(req: Requests, s: State, s': State, i: nat) {
    && PhaseOf(s, i).Read?
    && s' == Moved(s, i, Leaving).(rows := s.rows + [NextRow(PhaseOf(s, i).prev, req(i))])
  }

  ghost predicate Compare(req: Requests, s: State, s': State, i: nat) {
    && PhaseOf(s, i) == Leaving
    && s' == Moved(s, i, if req(i).voter in s.lock && s.lock[req(i).voter] == i then Deleting else Finished)
  }

  ghost predicate Delete(req: Requests, s: State, s': State, i: nat) {
    && PhaseOf(s, i) == Deleting
    && s' == Moved(s, i, Finished).(lock := s.lock - {req(i).voter})
  }

  ghost predicate Crash(s: State, s': State, i: nat) {
    Inside(s, i) && s' == Moved(s, i, Crashed)
  }

  /** The key times out.  `timely` is the deployment's assumption that a live holder is done by then. */
  ghost predicate Expire(s: State, s': State, u: string, timely: bool) {
    && u in s.lock && (timely ==> !Inside(s, s.lock[u]))
    && s' == s.(lock := s.lock - {u})
  }

  ghost predicate StepOf(req: Requests, s: State, s': State, i: nat) {
    || Acquire(req, s, s', i) || ReadPrevious(req, s, s', i) || Refuse(s, s', i) || Insert(req, s, s', i)
    || Compare(req, s, s', i) || Delete(req, s, s', i) || Crash(s, s', i)
  }

  ghost predicate Step(req: Requests, s: State, s': State, timely: bool) {
    (exists i :: StepOf(req, s, s', i)) || (exists u :: Expire(s, s', u, timely))
  }

  ghost predicate Start(s: State) { s.lock == map[] && s.phases == map[] }

  ghost predicate Execution(req: Requests, run: seq<State>, timely: bool) {
    && |run| > 0 && Start(run[0])
    && forall n :: 0 <= n < |run| - 1 ==> Step(req, run[n], run[n+1], timely)
  }

  // ---------- safety ----------

  ghost predicate MutualExclusion(req: Requests, s: State) {
    forall i, j :: Inside(s, i) && Inside(s, j) && req(i).voter == req(j).voter ==> i == j
  }

  /** Whoever is inside owns the key, whoever owns the key is inside or has crashed, and nobody has
      written behind a reader's back. */
  ghost predicate Inv(req: Requests, s: State) {
    && (forall i :: Inside(s, i) ==> req(i).voter in s.lock && s.lock[req(i).voter] == i)
    && (forall u :: u in s.lock ==> Inside(s, s.lock[u]) || PhaseOf(s, s.lock[u]) == Crashed)
    && (forall u :: u in s.lock ==> req(s.lock[u]).voter == u)
    && (forall i :: PhaseOf(s, i).Read? ==> IsPrevious(PhaseOf(s, i).prev, s.rows, req(i).voter))
  }

  lemma {:induction false} OthersRow(rows: seq<StoredRow>, r: StoredRow, v: string)
    requires r.voter != v
    ensures RowsOf(rows + [r], v) == RowsOf(rows, v)
  {
    FilterSnoc(rows, r, InGroup(VoteId(), v));
  }

  lemma {:induction false} InsertKeepsInv(req: Requests, s: State, s': State, i: nat)
    requires Inv(req, s) && Insert(req, s, s', i)
    ensures Inv(req, s')
  {
    forall j | PhaseOf(s', j).Read? ensures IsPrevious(PhaseOf(s', j).prev, s'.rows, req(j).voter) {
      assert Inside(s, j) && Inside(s, i) && j != i;
      OthersRow(s.rows, NextRow(PhaseOf(s, i).prev, req(i)), req(j).voter);
    }
  }

  lemma {:induction false} EntryKeepsInv(req: Requests, s: State, s': State, i: nat)
    requires Inv(req, s) && (Acquire(req, s, s', i) || ReadPrevious(req, s, s', i))
    ensures Inv(req, s')
  {
    forall j | j != i ensures PhaseOf(s', j) == PhaseOf(s, j) {
    }
  }

  lemma {:induction false} ExitKeepsInv(req: Requests, s: State, s': State, i: nat)
    requires Inv(req, s) && (Refuse(s, s', i) || Compare(req, s, s', i) || Delete(req, s, s', i) || Crash(s, s', i))
    ensures Inv(req, s')
  {
    forall j | j != i ensures PhaseOf(s', j) == PhaseOf(s, j) {
    }
  }

  lemma StepKeepsInv(req: Requests, s: State, s': State)
    requires Inv(req, s) && Step(req, s, s', true)
    ensures Inv(req, s')
  {
    if i :| StepOf(req, s, s', i) {
      if Insert(req, s, s', i) {
        InsertKeepsInv(req, s, s', i);
      } else if Acquire(req, s, s', i) || ReadPrevious(req, s, s', i) {
        EntryKeepsInv(req, s, s', i);
      } else {
        ExitKeepsInv(req, s, s', i);
      }
    }
  }

  /** A step either leaves the table alone or is exactly one sequential upsert. */
  lemma {:induction false} StepIsUpsert(req: Requests, s: State, s': State)
    requires Inv(req, s) && Step(req, s, s', true)
    ensures s'.rows == s.rows || exists i :: Insert(req, s, s', i) && Upserted(s.rows, req(i), s'.rows)
  {
    if i :| StepOf(req, s, s', i) {
      if Insert(req, s, s', i) {
        assert Upserted(s.rows, req(i), s'.rows);
      }
    }
  }

  /** For every schedule of every set of requests: at most one request of a user is inside, and for a user
      without numbered rows at the start the stored attempts are 1..n, without gap or repetition. */
  lemma {:induction false} Safety(req: Requests, run: seq<State>, v: string)
    requires Execution(req, run, true)
    requires forall r :: r in RowsOf(run[0].rows, v) ==> r.attempt.None?
    ensures Inv(req, run[|run|-1]) && MutualExclusion(req, run[|run|-1])
    ensures Numbered(run[|run|-1].rows, run[0].rows, v)
  {
    var n := |run| - 1;
    if n == 0 {
      assert run[0].rows[|run[0].rows|..] == [];
    } else {
      var front := run[..n];
      Safety(req, front, v);
      assert front[|front|-1] == run[n-1];
      assert Step(req, run[n-1], run[n], true);
      StepKeepsInv(req, run[n-1], run[n]);
      StepIsUpsert(req, run[n-1], run[n]);
      if run[n].rows != run[n-1].rows {
        var i :| Insert(req, run[n-1], run[n], i) && Upserted(run[n-1].rows, req(i), run[n].rows);
        var _ := UpsertNumbers(run[n-1].rows, req(i), run[n].rows, run[0].rows, v);
      }
    }
  }

  /** No request leaves its key behind: once all requests of a user are over without a crash, his lock is free. */
  lemma LockIsFreed(req: Requests, run: seq<State>, u: string)
    requires Execution(req, run, true)
    requires forall i :: req(i).voter == u ==> !Inside(run[|run|-1], i) && PhaseOf(run[|run|-1], i) != Crashed
    ensures u !in run[|run|-1].lock
  {
    LockInv(req, run);
  }

  lemma {:induction false} LockInv(req: Requests, run: seq<State>)
    requires Execution(req, run, true)
    ensures Inv(req, run[|run|-1])
  {
    var n := |run| - 1;
    if n > 0 {
      LockInv(req, run[..n]);
      assert Step(req, run[n-1], run[n], true);
      StepKeepsInv(req, run[n-1], run[n]);
    }
  }

  // ---------- the assumption is needed ----------

  function TwoRequests(): Requests { (i: nat) => Call("u", 10 + i, Some(i), []) }

  function FirstRow(i: nat): StoredRow { NextRow(None, TwoRequests()(i)) }

  /** Request 0 gets in and reads, its key times out, request 1 gets in and reads too, both insert. */
  function LateState(n: nat): State {
    if n == 0 then State(map[], map[], [])
    else if n == 1 then State(map["u" := 0], map[0 := Holding], [])
    else if n == 2 then State(map["u" := 0], map[0 := Read(None)], [])
    else if n == 3 then State(map[], map[0 := Read(None)], [])
    else if n == 4 then State(map["u" := 1], map[0 := Read(None), 1 := Holding], [])
    else if n == 5 then State(map["u" := 1], map[0 := Read(None), 1 := Read(None)], [])
    else if n == 6 then State(map["u" := 1], map[0 := Leaving, 1 := Read(None)], [FirstRow(0)])
    else State(map["u" := 1], map[0 := Leaving, 1 := Leaving], [FirstRow(0), FirstRow(1)])
  }

  lemma LateEarlySteps()
    ensures forall n :: 0 <= n < 3 ==> Step(TwoRequests(), LateState(n), LateState(n + 1), false)
  {
    var req := TwoRequests();
    assert IsPrevious(None, [], "u");
    assert Acquire(req, LateState(0), LateState(1), 0) && StepOf(req, LateState(0), LateState(1), 0);
    assert LateState(2) == Moved(LateState(1), 0, Read(None));
    assert ReadPrevious(req, LateState(1), LateState(2), 0) && StepOf(req, LateState(1), LateState(2), 0);
    assert LateState(2).lock - {"u"} == map[];
    assert Expire(LateState(2), LateState(3), "u", false);
  }

  lemma LateMiddleSteps()
    ensures forall n :: 3 <= n < 5 ==> Step(TwoRequests(), LateState(n), LateState(n + 1), false)
  {
    var req := TwoRequests();
    assert IsPrevious(None, [], "u");
    assert Acquire(req, LateState(3), LateState(4), 1) && StepOf(req, LateState(3), LateState(4), 1);
    assert LateState(5) == Moved(LateState(4), 1, Read(None));
    assert ReadPrevious(req, LateState(4), LateState(5), 1) && StepOf(req, LateState(4), LateState(5), 1);
  }

  lemma LateLastSteps()
    ensures forall n :: 5 <= n < 7 ==> Step(TwoRequests(), LateState(n), LateState(n + 1), false)
  {
    var req := TwoRequests();
    assert Insert(req, LateState(5), LateState(6), 0) && StepOf(req, LateState(5), LateState(6), 0);
    assert Insert(req, LateState(6), LateState(7), 1) && StepOf(req, LateState(6), LateState(7), 1);
  }

  function LateRun(): (run: seq<State>)
    ensures |run| == 8 && forall n :: 0 <= n < 8 ==> run[n] == LateState(n)
  {
    seq(8, n requires 0 <= n => LateState(n))
  }

  lemma LateRunExecutes()
    ensures Execution(TwoRequests(), LateRun(), false)
  {
    forall n | 0 <= n < |LateRun()| - 1 ensures Step(TwoRequests(), LateRun()[n], LateRun()[n+1], false) {
      LateEarlySteps();
      LateMiddleSteps();
      LateLastSteps();
      assert Step(TwoRequests(), LateState(n), LateState(n + 1), false);
    }
  }

  /** If the key may time out under a live holder, two requests of one user can be inside together and
      store the same attempt number. */
  lemma LateHolderBreaks()
    ensures Execution(TwoRequests(), LateRun(), false) && LateRun()[0].rows == []
    ensures !MutualExclusion(TwoRequests(), LateRun()[4])
    ensures SameAttemptTwice(LateRun()[7].rows)
  {
    LateRunExecutes();
    assert Inside(LateState(4), 0) && Inside(LateState(4), 1) && TwoRequests()(0).voter == TwoRequests()(1).voter;
    var rows := LateState(7).rows;
    assert rows[0].voter == rows[1].voter && rows[0].attempt == rows[1].attempt == Some(1);
  }

  ghost predicate SameAttemptTwice(rows: seq<StoredRow>) {
    exists i, j :: 0 <= i < j < |rows| && rows[i].voter == rows[j].voter && rows[i].attempt.Some? &&
      rows[i].attempt == rows[j].attempt
  }

  // ---------- what the lock does for one request ----------

  /** A request that finds the key taken is over, and neither the key nor the table has changed. */
  lemma TakenKeyStoresNothing(req: Requests, s: State, s': State, i: nat)
    requires StepOf(req, s, s', i) && PhaseOf(s, i) == Waiting && req(i).voter in s.lock
    ensures PhaseOf(s', i) == Finished && s'.lock == s.lock && s'.rows == s.rows
  {
  }

  /** A request that sees another one's key when it leaves never deletes it, however late it is. */
  lemma ForeignKeyStays(req: Requests, s: State, s': State, i: nat)
    requires StepOf(req, s, s', i) && PhaseOf(s, i) == Leaving
    requires req(i).voter in s.lock ==> s.lock[req(i).voter] != i
    ensures s'.lock == s.lock && (PhaseOf(s', i) == Finished || PhaseOf(s', i) == Crashed)
  {
  }

  /** A request touches its own user's key only. */
  lemma OwnKeyOnly(req: Requests, s: State, s': State, i: nat, u: string)
    requires StepOf(req, s, s', i) && u != req(i).voter
    ensures (u in s.lock <==> u in s'.lock) && (u in s.lock ==> s'.lock[u] == s.lock[u])
  {
  }
}
