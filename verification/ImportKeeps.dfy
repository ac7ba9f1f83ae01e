/** What a voteable import leaves in the tables, row by row (src/apps/admin/voteable_import_service.py): who may
    change an old id, what a created entity and a created work look like, and which candidate rows exist. */
module ImportKeeps {
  import opened Prelude
  import opened ImportPlan
  import opened ImportRun
  import opened ImportFacts

  // ---------- old ids ----------

  lemma {:induction false} WorksFrame(db: Db, pending: seq<PendingWork>)
    ensures var mid := AddWorks(db, pending);
            mid.voteables == db.voteables && mid.candidates == db.candidates && mid.nextVoteable == db.nextVoteable
  {
    if |pending| != 0 {
      WorksFrame(db, pending[..|pending|-1]);
    }
  }

  /** The tables after a batch without conflicts, planned as the rows match. */
  ghost predicate Ran(rows: seq<ImportRow>, db: Db, ix: Index, r: Report, year: Option<int>) {
    IsIndex(ix, db) && Bounded(db) && Clean(rows, db, ix) && IsReport(r, rows, db, ix, year, |rows|)
  }

  lemma RanPlans(rows: seq<ImportRow>, db: Db, ix: Index, r: Report, year: Option<int>)
    requires Ran(rows, db, ix, r, year)
    ensures |r.plans| == |rows| && forall i :: 0 <= i < |rows| ==> r.plans[i] == PlanOf(db, ix, rows[i])
    ensures var mid := AddWorks(db, r.pending);
            Bounded(mid) && TargetsExist(mid, r.plans) && mid.voteables == db.voteables &&
              mid.nextVoteable == db.nextVoteable
  {
    ConflictFreeIffClean(r, rows, db, ix, year);
    WorksFrame(db, r.pending);
    forall i | 0 <= i < |rows| && r.plans[i].target.Some? ensures r.plans[i].target.value in db.voteables {
      assert r.plans[i] == PlanOf(db, ix, rows[i]);
    }
  }

  /** An old id becomes another one only if a row of the batch names the entity by its id and brings it. */
  lemma OldIdKept(rows: seq<ImportRow>, db: Db, ix: Index, r: Report, year: Option<int>, u: int, x: string, y: string)
      returns (i: nat)
    requires Ran(rows, db, ix, r, year)
    requires Owns(db, u, x) && Owns(Executed(db, r.plans, r.pending, year), u, y) && x != y
    ensures i < |rows| && rows[i].voteableId == Some(u) && Brings(rows[i], y)
  {
    var mid, plans := AddWorks(db, r.pending), r.plans;
    RanPlans(rows, db, ix, r, year);
    assert HoldsOldId(ExecPlans(mid, plans, year), u, y);
    i := OldIdOrigin(mid, plans, year, u, y);
    FreshSlots(mid, plans, year);
    var row := rows[i];
    assert plans[i] == PlanOf(db, ix, row) && plans[i].target == Some(u) && Brings(row, y);
    if row.voteableId.None? {
      MatchByKey(db, ix, row);
    }
  }

  // ---------- what is created ----------

  /** A created entity has what the row gives and the column defaults otherwise, and the preview announced
      exactly what was given. */
  lemma PreviewIsCreation(db: Db, p: Plan, year: Option<int>)
    requires p.target.None?
    ensures var v, f := ExecPlan(db, p, year).voteables[db.nextVoteable], Preview(p);
            && (p.row.name.Some? ==> f.name == Some(v.name))
            && v.nameJp == (if f.nameJp.Some? then f.nameJp.value else "")
            && v.kind == (if f.kind.Some? then f.kind.value else "")
            && v.firstAppearance == f.firstAppearance && v.aliases == (if f.aliases.Some? then f.aliases.value else [])
            && v.oldId == f.oldId
            && v.workId == (if f.work.Some? && f.work.value in db.works then Some(db.works[f.work.value].id) else None)
    ensures CreatesOf()(p) == [Preview(p)]
  {
  }

  /** The preview of an update lists exactly the fields that the run changes, with what they become; the work is
      missing from it only if nobody has it yet. */
  lemma PreviewIsChange(v: Voteable, p: Plan, works: map<string, Work>)
    ensures var f, after := Diff(v, p, works), Apply(v, p, works);
            && (if f.name.Some? then v.name != after.name == f.name.value else v.name == after.name)
            && (if f.nameJp.Some? then v.nameJp != after.nameJp == f.nameJp.value else v.nameJp == after.nameJp)
            && (if f.kind.Some? then v.kind != after.kind == f.kind.value else v.kind == after.kind)
            && (if f.firstAppearance.Some? then v.firstAppearance != after.firstAppearance == f.firstAppearance
                else v.firstAppearance == after.firstAppearance)
            && (if f.aliases.Some? then v.aliases != after.aliases == f.aliases.value else v.aliases == after.aliases)
            && (if f.oldId.Some? then v.oldId != after.oldId == f.oldId else v.oldId == after.oldId)
            && (f.work.Some? <==> v.workId != after.workId)
            && (f.work.Some? && f.work.value in works ==> after.workId == Some(works[f.work.value].id))
  {
  }

  /** The first plan that mentions the work. */
  ghost predicate FirstMention(plans: seq<Plan>, i: int, w: string) {
    0 <= i < |plans| && plans[i].work == Some(w) && forall j :: 0 <= j < i ==> plans[j].work != Some(w)
  }

  /** The kind a row gives its work; a missing or empty one is "others". */
  function GivenKind(row: ImportRow): string {
    match row.workKind
    case None => "others"
    case Some(k) => if k == "" then "others" else k
  }

  lemma {:induction false} PendingKind(works: map<string, Work>, plans: seq<Plan>, i: int, w: string)
    requires FirstMention(plans, i, w) && w !in works
    ensures exists k :: PendingAt(Pending(works, plans), k, PendingWork(w, GivenKind(plans[i].row)))
  {
    var n := |plans| - 1;
    var front, before, after := plans[..n], Pending(works, plans[..n]), Pending(works, plans);
    if i < n {
      assert FirstMention(front, i, w);
      PendingKind(works, front, i, w);
      var k :| PendingAt(before, k, PendingWork(w, GivenKind(plans[i].row)));
      assert after[k] == before[k];
    } else {
      NotPending(works, front, w);
      assert after == before + [PendingWork(w, GivenKind(plans[i].row))];
      assert PendingAt(after, |before|, PendingWork(w, GivenKind(plans[i].row)));
    }
    var k :| 0 <= k < |after| && after[k] == PendingWork(w, GivenKind(plans[i].row));
    OnePending(works, plans, w, k);
    assert PendingAt(after, k, PendingWork(w, GivenKind(plans[i].row)));
  }

  /** The only pending work of its name. */
  ghost predicate PendingAt(pending: seq<PendingWork>, k: int, p: PendingWork) {
    0 <= k < |pending| && pending[k] == p && forall j :: 0 <= j < |pending| && pending[j].name == p.name ==> j == k
  }

  lemma {:induction false} NotPending(works: map<string, Work>, plans: seq<Plan>, w: string)
    requires forall j :: 0 <= j < |plans| ==> plans[j].work != Some(w)
    ensures !IsPending(Pending(works, plans), w)
  {
    if |plans| != 0 {
      NotPending(works, plans[..|plans|-1], w);
    }
  }

  lemma {:induction false} OnePending(works: map<string, Work>, plans: seq<Plan>, w: string, k: nat)
    requires k < |Pending(works, plans)| && Pending(works, plans)[k].name == w
    ensures forall j :: 0 <= j < |Pending(works, plans)| && Pending(works, plans)[j].name == w ==> j == k
  {
    var before, after := Pending(works, plans[..|plans|-1]), Pending(works, plans);
    if k < |before| {
      OnePending(works, plans[..|plans|-1], w, k);
      assert before[k].name == w;
    }
  }

  lemma {:induction false} WorkAdded(db: Db, pending: seq<PendingWork>, k: int, p: PendingWork)
    requires PendingAt(pending, k, p)
    ensures p.name in AddWorks(db, pending).works && AddWorks(db, pending).works[p.name].kind == p.kind
  {
    var n := |pending| - 1;
    if k < n {
      assert PendingAt(pending[..n], k, p);
      WorkAdded(db, pending[..n], k, p);
      assert pending[n].name != p.name;
    }
  }

  lemma {:induction false} WorksStay(db: Db, plans: seq<Plan>, year: Option<int>)
    ensures ExecPlans(db, plans, year).works == db.works
  {
    if |plans| != 0 {
      WorksStay(db, plans[..|plans|-1], year);
    }
  }

  /** A work nobody had is stored with the kind given by the row that mentions it first. */
  lemma NewWorkKind(db: Db, plans: seq<Plan>, year: Option<int>, i: int, w: string)
    requires FirstMention(plans, i, w) && w !in db.works
    ensures var works := Executed(db, plans, Pending(db.works, plans), year).works;
            w in works && works[w].kind == GivenKind(plans[i].row)
  {
    var pending := Pending(db.works, plans);
    PendingKind(db.works, plans, i, w);
    var k :| PendingAt(pending, k, PendingWork(w, GivenKind(plans[i].row)));
    WorkAdded(db, pending, k, PendingWork(w, GivenKind(plans[i].row)));
    WorksStay(AddWorks(db, pending), plans, year);
  }

  // ---------- candidate rows ----------

  /** The last plan that gives entity `u` a sort order. */
  ghost predicate LastSort(slots: seq<int>, plans: seq<Plan>, u: int, i: int)
    requires |slots| == |plans|
  {
    && 0 <= i < |plans| && slots[i] == u && plans[i].row.sortOrder.Some?
    && forall j :: i < j < |plans| && slots[j] == u ==> plans[j].row.sortOrder.None?
  }

  ghost predicate Writes(slots: seq<int>, u: int) { exists i :: 0 <= i < |slots| && slots[i] == u }

  lemma {:induction false} LinkMeans(slots: seq<int>, plans: seq<Plan>, u: int, start: Option<Option<int>>)
    requires |slots| == |plans|
    ensures !Writes(slots, u) ==> Link(slots, plans, u, start) == start
    ensures forall i :: LastSort(slots, plans, u, i) ==> Link(slots, plans, u, start) == Some(plans[i].row.sortOrder)
    ensures Writes(slots, u) && (forall i :: !LastSort(slots, plans, u, i)) ==>
            Link(slots, plans, u, start) == if start.Some? then start else Some(None)
  {
    if |plans| != 0 {
      var n := |plans| - 1;
      var s, p := slots[..n], plans[..n];
      LinkMeans(s, p, u, start);
      assert forall i :: 0 <= i < n ==> s[i] == slots[i] && p[i] == plans[i];
      if slots[n] == u && plans[n].row.sortOrder.Some? {
        assert LastSort(slots, plans, u, n);
      } else {
        forall i ensures LastSort(s, p, u, i) <==> LastSort(slots, plans, u, i) {
        }
      }
      assert Writes(slots, u) <==> Writes(s, u) || slots[n] == u;
    }
  }

  /** After a run for a year, an entity has a candidate row in that year iff it had one or was written; its sort
      order is the last one given, or else the one it had; other years are untouched. */
  lemma CandidatesAfter(db: Db, plans: seq<Plan>, year: int, key: (int, int))
    ensures var after, slots := ExecPlans(db, plans, Some(year)).candidates, Slots(db, plans, Some(year));
            && (key in after <==> key in db.candidates || (key.0 == year && Writes(slots, key.1)))
            && (forall i :: key.0 == year && LastSort(slots, plans, key.1, i) ==>
                  key in after && after[key] == plans[i].row.sortOrder)
            && (key in after && (key.0 != year || forall i :: !LastSort(slots, plans, key.1, i)) ==>
                  after[key] == if key in db.candidates then db.candidates[key] else None)
  {
    var slots := Slots(db, plans, Some(year));
    CandidatesLinked(db, plans, year, key);
    LinkMeans(slots, plans, key.1, CandidateAt(db.candidates, key));
    if i :| LastSort(slots, plans, key.1, i) {
      assert Writes(slots, key.1);
    }
  }
}
