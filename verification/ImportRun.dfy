/** Executing a planned voteable import against the tables (src/apps/admin/voteable_import_service.py). */
module ImportRun {
  import opened Prelude
  import opened ImportPlan

  /** `_apply_fields`: given fields overwrite, missing ones keep what is stored. */
  function Apply(v: Voteable, p: Plan, works: map<string, Work>): Voteable {
    var row := p.row;
    Voteable(if row.name.Some? then row.name.value else v.name,
             if row.nameJp.Some? then row.nameJp.value else v.nameJp,
             if row.kind.Some? then row.kind.value else v.kind,
             if row.firstAppearance.Some? then row.firstAppearance else v.firstAppearance,
             if row.aliases.Some? then row.aliases.value else v.aliases,
             if row.oldId.Some? then row.oldId else v.oldId,
             if p.work.Some? then WorkId(works, p.work.value) else v.workId)
  }

  /** A new entity before its fields are applied; the columns have these defaults, only the name has none. */
  const BLANK := Voteable("", "", "", None, [], None, None)

  function AddWork(db: Db, w: PendingWork): Db {
    db.(works := db.works[w.name := Work(db.nextWork, w.kind)], nextWork := db.nextWork + 1)
  }

  function AddWorks(db: Db, pending: seq<PendingWork>): Db {
    if |pending| == 0 then db else AddWork(AddWorks(db, pending[..|pending|-1]), pending[|pending|-1])
  }

  /** `_upsert_candidate`. */
  function Upserted(candidates: map<(int, int), Option<int>>, key: (int, int),
                    sort: Option<int>): map<(int, int), Option<int>> {
    if key in candidates && sort.None? then candidates else candidates[key := sort]
  }

  /** The entity a plan writes. */
  function SlotOf(db: Db, p: Plan): int { if p.target.Some? then p.target.value else db.nextVoteable }

  function ExecPlan(db: Db, p: Plan, year: Option<int>): Db {
    var i := SlotOf(db, p);
    var v := if p.target.Some? && i in db.voteables then db.voteables[i] else BLANK;
    db.(voteables := db.voteables[i := Apply(v, p, db.works)],
        nextVoteable := if p.target.None? then db.nextVoteable + 1 else db.nextVoteable,
        candidates := if year.Some? then Upserted(db.candidates, (year.value, i), p.row.sortOrder) else db.candidates)
  }

  function ExecPlans(db: Db, plans: seq<Plan>, year: Option<int>): Db {
    if |plans| == 0 then db else ExecPlan(ExecPlans(db, plans[..|plans|-1], year), plans[|plans|-1], year)
  }

  /** The tables after a run. */
  function Executed(db: Db, plans: seq<Plan>, pending: seq<PendingWork>, year: Option<int>): Db {
    ExecPlans(AddWorks(db, pending), plans, year)
  }

  /** The name column is not nullable: whoever creates an entity must name it. */
  ghost predicate AllNamed(plans: seq<Plan>) {
    forall i :: 0 <= i < |plans| && plans[i].target.None? ==> plans[i].row.name.Some?
  }

  /** Every row that matches nothing brings a name. */
  ghost predicate CreatorsNamed(rows: seq<ImportRow>, db: Db, ix: Index)
    requires IsIndex(ix, db)
  {
    forall i :: 0 <= i < |rows| && MatchRow(db, ix, rows[i]).NoMatch? ==> rows[i].name.Some?
  }

  lemma {:induction false} NamedIffCreatorsNamed(plans: seq<Plan>, rows: seq<ImportRow>, db: Db, ix: Index)
    requires IsIndex(ix, db) && Clean(rows, db, ix)
    requires |plans| == |rows| && forall i :: 0 <= i < |rows| ==> plans[i] == PlanOf(db, ix, rows[i])
    ensures AllNamed(plans) <==> CreatorsNamed(rows, db, ix)
  {
    forall i | 0 <= i < |rows|
      ensures (plans[i].target.None? ==> plans[i].row.name.Some?) <==>
              (MatchRow(db, ix, rows[i]).NoMatch? ==> rows[i].name.Some?)
    {
      assert !MatchRow(db, ix, rows[i]).Clash? && plans[i] == PlanOf(db, ix, rows[i]);
    }
  }

  datatype RunError = ImportConflicts | NameIsNull

  class Database {
    var voteables: map<int, Voteable>
    var works: map<string, Work>
    var candidates: map<(int, int), Option<int>>
    var nextVoteable: int
    var nextWork: int

    constructor (db: Db)
      ensures Contents() == db
    {
      voteables, works, candidates, nextVoteable, nextWork :=
        db.voteables, db.works, db.candidates, db.nextVoteable, db.nextWork;
    }

    function Contents(): Db
      reads this
    {
      Db(voteables, works, candidates, nextVoteable, nextWork)
    }

    method Restore(db: Db)
      modifies this
      ensures Contents() == db
    {
      voteables, works, candidates, nextVoteable, nextWork :=
        db.voteables, db.works, db.candidates, db.nextVoteable, db.nextWork;
    }

    /** `_load_voteable_index`, over the rows in whatever order the query returns them. */
    method LoadIndex() returns (ix: Index)
      ensures IsIndex(ix, Contents())
    {
      var order := Elements(voteables.Keys);
      var db := Contents();
      ix := Index(map[], map[]);
      for n := 0 to |order|
        invariant forall x :: x in ix.byOldId ==> HoldsOldId(db, ix.byOldId[x], x)
        invariant forall x :: x in ix.byName ==> HoldsName(db, ix.byName[x], x)
        invariant forall j, x :: 0 <= j < n && HoldsOldId(db, order[j], x) ==> x in ix.byOldId
        invariant forall j, x :: 0 <= j < n && HoldsName(db, order[j], x) ==> x in ix.byName
      {
        var i := order[n];
        var oldId := Given(voteables[i].oldId);
        ix :=
          Index(if oldId.Some? then ix.byOldId[oldId.value := i] else ix.byOldId, ix.byName[voteables[i].name := i]);
      }
      assert forall i :: i in db.voteables ==> exists j :: 0 <= j < |order| && order[j] == i;
    }

    method CreateWorks(pending: seq<PendingWork>)
      modifies this
      ensures Contents() == AddWorks(old(Contents()), pending)
    {
      for n := 0 to |pending|
        invariant Contents() == AddWorks(old(Contents()), pending[..n])
      {
        works := works[pending[n].name := Work(nextWork, pending[n].kind)];
        nextWork := nextWork + 1;
        assert pending[..n+1][..n] == pending[..n];
      }
      assert pending[..|pending|] == pending;
    }

    /** One plan: fetch or add the entity, write the given fields, link it to the year. */
    method Write(p: Plan, year: Option<int>)
      modifies this
      ensures Contents() == ExecPlan(old(Contents()), p, year)
    {
      var i, v := nextVoteable, BLANK;
      if p.target.Some? {
        i := p.target.value;
        if i in voteables {
          v := voteables[i];
        }
      } else {
        nextVoteable := nextVoteable + 1;
      }
      voteables := voteables[i := Apply(v, p, works)];
      if year.Some? {
        var key := (year.value, i);
        if key !in candidates {
          candidates := candidates[key := None];
        }
        if p.row.sortOrder.Some? {
          candidates := candidates[key := p.row.sortOrder];
        }
      }
    }

    /** `_execute` in its transaction: it completes exactly when every new entity has a name, and leaves no
        trace otherwise. */
    method Execute(plans: seq<Plan>, pending: seq<PendingWork>, year: Option<int>) returns (ok: bool)
      modifies this
      ensures ok <==> AllNamed(plans)
      ensures Contents() == if ok then Executed(old(Contents()), plans, pending, year) else old(Contents())
    {
      var before := Contents();
      CreateWorks(pending);
      ghost var start := Contents();
      for n := 0 to |plans|
        invariant AllNamed(plans[..n])
        invariant Contents() == ExecPlans(start, plans[..n], year)
      {
        assert plans[..n+1][..n] == plans[..n];
        if plans[n].target.None? && plans[n].row.name.None? {
          Restore(before);
          return false;
        }
        Write(plans[n], year);
      }
      assert plans[..|plans|] == plans;
      ok := true;
    }

    /** `run` on parsed rows. */
    method Run(rows: seq<ImportRow>, year: Option<int>, dryRun: bool)
        returns (r: Result<Report, RunError>, ghost ix: Index)
      modifies this
      ensures IsIndex(ix, old(Contents()))
      ensures r == Err(ImportConflicts) <==> !dryRun && !Clean(rows, old(Contents()), ix)
      ensures !dryRun && !Importable(rows, old(Contents())) ==> r == Err(ImportConflicts)
      ensures UniqueKeys(old(Contents())) ==>
              (r == Err(ImportConflicts) <==> !dryRun && !Importable(rows, old(Contents())))
      ensures r == Err(NameIsNull) <==>
              !dryRun && Clean(rows, old(Contents()), ix) && !CreatorsNamed(rows, old(Contents()), ix)
      ensures r.Ok? ==> IsReport(r.value, rows, old(Contents()), ix, year, |rows|)
      ensures r.Ok? && !dryRun ==>
              AllNamed(r.value.plans) && Contents() == Executed(old(Contents()), r.value.plans, r.value.pending, year)
      ensures r.Err? || dryRun ==> Contents() == old(Contents())
    {
      var index := LoadIndex();
      ix := index;
      var report := BuildPlan(rows, Contents(), index, year);
      ConflictFreeIffClean(report, rows, Contents(), ix, year);
      CleanIffImportable(rows, Contents(), ix);
      if report.conflicts != [] && !dryRun {
        return Err(ImportConflicts), ix;
      }
      if !dryRun {
        NamedIffCreatorsNamed(report.plans, rows, Contents(), ix);
        var ok := Execute(report.plans, report.pending, year);
        if !ok {
          return Err(NameIsNull), ix;
        }
      }
      r := Ok(report);
    }
  }
}
