/** Importing the same batch twice: exactly when the second run has nothing to report, and why it then
    changes nothing (src/apps/admin/voteable_import_service.py). */
module ImportFacts {
  import opened Prelude
  import opened ImportPlan
  import opened ImportRun

  // ---------- tables ----------

  /** Ids are handed out in order, and no two works share one. */
  ghost predicate ValidDb(db: Db) {
    && (forall i :: i in db.voteables ==> i < db.nextVoteable)
    && (forall w :: w in db.works ==> db.works[w].id < db.nextWork)
    && UniqueWorks(db.works)
  }

  ghost predicate UniqueWorks(works: map<string, Work>) {
    forall w, w' :: w in works && w' in works && works[w].id == works[w'].id ==> w == w'
  }

  ghost predicate TargetsExist(db: Db, plans: seq<Plan>) {
    forall i :: 0 <= i < |plans| && plans[i].target.Some? ==> plans[i].target.value in db.voteables
  }

  /** The entity each plan writes. */
  function Slots(db: Db, plans: seq<Plan>, year: Option<int>): (slots: seq<int>)
    ensures |slots| == |plans|
  {
    if |plans| == 0 then [] else
      var front := plans[..|plans|-1];
      Slots(db, front, year) + [SlotOf(ExecPlans(db, front, year), plans[|plans|-1])]
  }

  ghost predicate Bounded(db: Db) { forall i :: i in db.voteables ==> i < db.nextVoteable }

  lemma {:induction false} ExecKeeps(db: Db, plans: seq<Plan>, year: Option<int>)
    requires Bounded(db) && TargetsExist(db, plans)
    ensures var s := ExecPlans(db, plans, year);
            && s.works == db.works && s.nextWork == db.nextWork && db.nextVoteable <= s.nextVoteable && Bounded(s)
            && db.voteables.Keys <= s.voteables.Keys
    ensures forall i :: 0 <= i < |plans| ==> Slots(db, plans, year)[i] in ExecPlans(db, plans, year).voteables
  {
    if |plans| != 0 {
      var front := plans[..|plans|-1];
      ExecKeeps(db, front, year);
      assert Slots(db, plans, year)[..|front|] == Slots(db, front, year);
      assert forall i :: 0 <= i < |front| ==> Slots(db, plans, year)[i] == Slots(db, front, year)[i];
    }
  }

  lemma SlotsFront(db: Db, plans: seq<Plan>, year: Option<int>, i: nat)
    requires i < |plans| - 1
    ensures Slots(db, plans, year)[i] == Slots(db, plans[..|plans|-1], year)[i]
  {
  }

  /** Where one plan writes. */
  lemma {:induction false} SlotPlace(db: Db, plans: seq<Plan>, year: Option<int>, i: nat)
    requires Bounded(db) && TargetsExist(db, plans) && i < |plans|
    ensures if plans[i].target.Some? then Slots(db, plans, year)[i] == plans[i].target.value
            else Slots(db, plans, year)[i] >= db.nextVoteable
  {
    var front := plans[..|plans|-1];
    if i < |front| {
      SlotPlace(db, front, year, i);
      SlotsFront(db, plans, year, i);
    } else {
      ExecKeeps(db, front, year);
    }
  }

  /** Two plans share an entity only if both update it. */
  lemma {:induction false} SlotsApart(db: Db, plans: seq<Plan>, year: Option<int>, i: nat, j: nat)
    requires Bounded(db) && TargetsExist(db, plans) && i < j < |plans| &&
             Slots(db, plans, year)[i] == Slots(db, plans, year)[j]
    ensures plans[i].target.Some? && plans[j].target.Some?
  {
    var front := plans[..|plans|-1];
    SlotsFront(db, plans, year, i);
    if j < |front| {
      SlotsFront(db, plans, year, j);
      SlotsApart(db, front, year, i, j);
    } else {
      ExecKeeps(db, front, year);
      SlotPlace(db, plans, year, i);
      assert Slots(db, front, year)[i] in ExecPlans(db, front, year).voteables;
    }
  }

  /** A plan that updates writes its target, a plan that creates writes an entity no other plan writes. */
  lemma FreshSlots(db: Db, plans: seq<Plan>, year: Option<int>)
    requires Bounded(db) && TargetsExist(db, plans)
    ensures var slots := Slots(db, plans, year);
            forall i :: 0 <= i < |plans| ==>
              if plans[i].target.Some? then slots[i] == plans[i].target.value else slots[i] >= db.nextVoteable
    ensures var slots := Slots(db, plans, year);
            forall i, j :: 0 <= i < j < |plans| && slots[i] == slots[j] ==>
              plans[i].target.Some? && plans[j].target.Some?
  {
    forall i | 0 <= i < |plans|
      ensures if plans[i].target.Some? then Slots(db, plans, year)[i] == plans[i].target.value
              else Slots(db, plans, year)[i] >= db.nextVoteable
    {
      SlotPlace(db, plans, year, i);
    }
    forall i, j | 0 <= i < j < |plans| && Slots(db, plans, year)[i] == Slots(db, plans, year)[j]
      ensures plans[i].target.Some? && plans[j].target.Some?
    {
      SlotsApart(db, plans, year, i, j);
    }
  }

  // ---------- what is stored after a run ----------

  /** Two plans do not give different values for the same field. */
  predicate Agree(a: Plan, b: Plan) {
    && Same(a.row.name, b.row.name) && Same(a.row.nameJp, b.row.nameJp) && Same(a.row.kind, b.row.kind)
    && Same(a.row.firstAppearance, b.row.firstAppearance) && Same(a.row.aliases, b.row.aliases) &&
       Same(a.row.oldId, b.row.oldId)
    && Same(a.work, b.work)
  }

  predicate Same<T(==)>(a: Option<T>, b: Option<T>) { a.Some? && b.Some? ==> a == b }

  /** The entity already holds everything the plan gives. */
  predicate Holds(v: Voteable, p: Plan, works: map<string, Work>) { Apply(v, p, works) == v }

  /** The preview is empty exactly when the entity holds what the plan gives. */
  lemma DiffIffHolds(v: Voteable, p: Plan, works: map<string, Work>)
    ensures Diff(v, p, works) == NOTHING <==> Holds(v, p, works)
  {
  }

  lemma ApplyHolds(v: Voteable, a: Plan, b: Plan, works: map<string, Work>)
    ensures Holds(Apply(v, b, works), b, works)
    ensures Holds(v, a, works) && Agree(a, b) ==> Holds(Apply(v, b, works), a, works)
  {
  }

  lemma HoldBothAgree(v: Voteable, a: Plan, b: Plan, works: map<string, Work>)
    requires Holds(v, a, works) && Holds(v, b, works) && UniqueWorks(works)
    requires (a.work.Some? ==> a.work.value in works) && (b.work.Some? ==> b.work.value in works)
    ensures Agree(a, b)
  {
  }

  ghost predicate SlotsAgree(slots: seq<int>, plans: seq<Plan>)
    requires |slots| == |plans|
  {
    forall i, j :: 0 <= i < j < |plans| && slots[i] == slots[j] ==> Agree(plans[i], plans[j])
  }

  /** Entity `u` of the tables holds what the plan gives. */
  ghost predicate HeldAt(db: Db, u: int, p: Plan) { u in db.voteables && Holds(db.voteables[u], p, db.works) }

  lemma {:induction false} WriteHolds(db: Db, p: Plan, year: Option<int>)
    ensures HeldAt(ExecPlan(db, p, year), SlotOf(db, p), p)
  {
    var i := SlotOf(db, p);
    ApplyHolds(if p.target.Some? && i in db.voteables then db.voteables[i] else BLANK, p, p, db.works);
  }

  lemma {:induction false} WriteKeeps(db: Db, p: Plan, year: Option<int>, u: int, a: Plan)
    requires HeldAt(db, u, a) && (u == SlotOf(db, p) ==> p.target.Some? && Agree(a, p))
    ensures HeldAt(ExecPlan(db, p, year), u, a)
  {
    if u == SlotOf(db, p) {
      ApplyHolds(db.voteables[u], a, p, db.works);
    }
  }

  /** If plans for the same entity agree, the tables hold what every plan gave. */
  lemma {:induction false} AllHeld(db: Db, plans: seq<Plan>, year: Option<int>, i: nat)
    requires Bounded(db) && TargetsExist(db, plans) && SlotsAgree(Slots(db, plans, year), plans) && i < |plans|
    ensures HeldAt(ExecPlans(db, plans, year), Slots(db, plans, year)[i], plans[i])
  {
    var n := |plans| - 1;
    var front, slots := plans[..n], Slots(db, plans, year);
    var before := ExecPlans(db, front, year);
    if i == n {
      WriteHolds(before, plans[n], year);
    } else {
      forall j, k | 0 <= j < k < n && Slots(db, front, year)[j] == Slots(db, front, year)[k]
        ensures Agree(front[j], front[k])
      {
        SlotsFront(db, plans, year, j);
        SlotsFront(db, plans, year, k);
      }
      AllHeld(db, front, year, i);
      SlotsFront(db, plans, year, i);
      FreshSlots(db, plans, year);
      WriteKeeps(before, plans[n], year, slots[i], plans[i]);
    }
  }

  /** Plan `i` put old id `x` on entity `u`. */
  predicate GaveOldId(slots: seq<int>, plans: seq<Plan>, i: int, u: int, x: string)
    requires |slots| == |plans|
  {
    0 <= i < |plans| && slots[i] == u && Given(plans[i].row.oldId) == Some(x)
  }

  predicate GaveName(slots: seq<int>, plans: seq<Plan>, i: int, u: int, x: string)
    requires |slots| == |plans|
  {
    0 <= i < |plans| && slots[i] == u && plans[i].row.name == Some(x)
  }

  lemma OldIdStep(db: Db, p: Plan, year: Option<int>, u: int, x: string)
    requires HoldsOldId(ExecPlan(db, p, year), u, x)
    ensures HoldsOldId(db, u, x) || (u == SlotOf(db, p) && Given(p.row.oldId) == Some(x))
  {
  }

  lemma NameStep(db: Db, p: Plan, year: Option<int>, u: int, x: string)
    requires HoldsName(ExecPlan(db, p, year), u, x) &&
             (p.row.name.Some? || (p.target.Some? && p.target.value in db.voteables))
    ensures HoldsName(db, u, x) || (u == SlotOf(db, p) && p.row.name == Some(x))
  {
  }

  /** An old id found after a run was there before or was given by a plan; likewise a name. */
  lemma {:induction false} OldIdOrigin(db: Db, plans: seq<Plan>, year: Option<int>, u: int, x: string) returns (i: int)
    requires HoldsOldId(ExecPlans(db, plans, year), u, x)
    ensures HoldsOldId(db, u, x) || GaveOldId(Slots(db, plans, year), plans, i, u, x)
  {
    i := |plans| - 1;
    if |plans| != 0 {
      var front := plans[..|plans|-1];
      OldIdStep(ExecPlans(db, front, year), plans[i], year, u, x);
      if HoldsOldId(ExecPlans(db, front, year), u, x) {
        i := OldIdOrigin(db, front, year, u, x);
        if GaveOldId(Slots(db, front, year), front, i, u, x) {
          SlotsFront(db, plans, year, i);
        }
      }
    }
  }

  lemma {:induction false} NameOrigin(db: Db, plans: seq<Plan>, year: Option<int>, u: int, x: string) returns (i: int)
    requires TargetsExist(db, plans) && Bounded(db) && AllNamed(plans)
    requires HoldsName(ExecPlans(db, plans, year), u, x)
    ensures HoldsName(db, u, x) || GaveName(Slots(db, plans, year), plans, i, u, x)
  {
    i := |plans| - 1;
    if |plans| != 0 {
      var front := plans[..|plans|-1];
      ExecKeeps(db, front, year);
      NameStep(ExecPlans(db, front, year), plans[i], year, u, x);
      if HoldsName(ExecPlans(db, front, year), u, x) {
        i := NameOrigin(db, front, year, u, x);
        if GaveName(Slots(db, front, year), front, i, u, x) {
          SlotsFront(db, plans, year, i);
        }
      }
    }
  }

  // ---------- new works ----------

  lemma {:induction false} WorksAdded(db: Db, pending: seq<PendingWork>)
    requires ValidDb(db)
    ensures var mid := AddWorks(db, pending);
            && mid.voteables == db.voteables && mid.candidates == db.candidates && mid.nextVoteable == db.nextVoteable
            && ValidDb(mid) && db.works.Keys <= mid.works.Keys
    ensures forall i :: 0 <= i < |pending| ==> pending[i].name in AddWorks(db, pending).works
  {
    if |pending| != 0 {
      WorksAdded(db, pending[..|pending|-1]);
    }
  }

  lemma {:induction false} PendingComplete(works: map<string, Work>, plans: seq<Plan>, i: nat)
    requires i < |plans| && plans[i].work.Some?
    ensures plans[i].work.value in works || IsPending(Pending(works, plans), plans[i].work.value)
  {
    var front := plans[..|plans|-1];
    var before, after := Pending(works, front), Pending(works, plans);
    if i < |front| {
      PendingComplete(works, front, i);
    }
    if IsPending(before, plans[i].work.value) {
      var k :| 0 <= k < |before| && before[k].name == plans[i].work.value;
      assert after[k] == before[k];
    } else if i == |front| && plans[i].work.value !in works {
      assert after[|before|].name == plans[i].work.value;
    }
  }

  /** No work is created that already exists. */
  lemma {:induction false} NothingPending(works: map<string, Work>, plans: seq<Plan>)
    requires forall i :: 0 <= i < |plans| && plans[i].work.Some? ==> plans[i].work.value in works
    ensures Pending(works, plans) == []
  {
    if |plans| != 0 {
      NothingPending(works, plans[..|plans|-1]);
    }
  }

  // ---------- the second run ----------

  /** A conflict-free batch that names what it creates, planned on valid tables without shared keys. */
  ghost predicate FirstRun(rows: seq<ImportRow>, db: Db, ix: Index, plans: seq<Plan>) {
    && IsIndex(ix, db) && ValidDb(db) && UniqueKeys(db) && Clean(rows, db, ix)
    && |plans| == |rows| && (forall i :: 0 <= i < |rows| ==> plans[i] == PlanOf(db, ix, rows[i]))
    && AllNamed(plans)
  }

  /** The tables with the missing works added. */
  function Mid(db: Db, plans: seq<Plan>): Db { AddWorks(db, Pending(db.works, plans)) }

  function After(db: Db, plans: seq<Plan>, year: Option<int>): Db { ExecPlans(Mid(db, plans), plans, year) }

  ghost predicate WorksKnown(works: map<string, Work>, plans: seq<Plan>) {
    forall i :: 0 <= i < |plans| && plans[i].work.Some? ==> plans[i].work.value in works
  }

  lemma MidIsReady(rows: seq<ImportRow>, db: Db, ix: Index, plans: seq<Plan>)
    requires FirstRun(rows, db, ix, plans)
    ensures var mid := Mid(db, plans);
            && Bounded(mid) && TargetsExist(mid, plans) && UniqueWorks(mid.works) && WorksKnown(mid.works, plans)
            && mid.voteables == db.voteables && mid.nextVoteable == db.nextVoteable && mid.candidates == db.candidates
  {
    var pending := Pending(db.works, plans);
    WorksAdded(db, pending);
    forall i | 0 <= i < |plans| && plans[i].work.Some? ensures plans[i].work.value in Mid(db, plans).works {
      PendingComplete(db.works, plans, i);
      if plans[i].work.value !in db.works {
        var k :| 0 <= k < |pending| && pending[k].name == plans[i].work.value;
        assert pending[k].name in AddWorks(db, pending).works;
      }
    }
    forall i | 0 <= i < |plans| && plans[i].target.Some? ensures plans[i].target.value in db.voteables {
      assert plans[i] == PlanOf(db, ix, rows[i]);
    }
  }

  /** After a run a row's old id belongs to the row's entity alone. */
  lemma OldIdHolder(rows: seq<ImportRow>, db: Db, ix: Index, plans: seq<Plan>, year: Option<int>, i: nat, u: int,
                    x: string)
    requires FirstRun(rows, db, ix, plans) && i < |rows| && Given(rows[i].oldId) == Some(x)
    requires HoldsOldId(After(db, plans, year), u, x)
    ensures u == Slots(Mid(db, plans), plans, year)[i]
  {
    var mid, slots := Mid(db, plans), Slots(Mid(db, plans), plans, year);
    MidIsReady(rows, db, ix, plans);
    assert plans[i] == PlanOf(db, ix, rows[i]);
    var j := OldIdOrigin(mid, plans, year, u, x);
    if GaveOldId(slots, plans, j, u, x) {
      assert plans[j] == PlanOf(db, ix, rows[j]);
      assert j == i;
    } else {
      assert HoldsOldId(db, u, x);
      assert Owns(db, u, x) && Owns(db, ix.byOldId[x], x);
      FreshSlots(mid, plans, year);
      assert !MatchRow(db, ix, rows[i]).Clash?;
      assert plans[i].target == Some(u);
    }
  }

  /** Likewise the name of a row that carries no id. */
  lemma NameHolder(rows: seq<ImportRow>, db: Db, ix: Index, plans: seq<Plan>, year: Option<int>, i: nat, u: int,
                   x: string)
    requires FirstRun(rows, db, ix, plans) && i < |rows|
    requires rows[i].voteableId.None? && Given(rows[i].oldId).None? && rows[i].name == Some(x)
    requires HoldsName(After(db, plans, year), u, x)
    ensures u == Slots(Mid(db, plans), plans, year)[i]
  {
    var mid, slots := Mid(db, plans), Slots(Mid(db, plans), plans, year);
    MidIsReady(rows, db, ix, plans);
    assert plans[i] == PlanOf(db, ix, rows[i]);
    var j := NameOrigin(mid, plans, year, u, x);
    if GaveName(slots, plans, j, u, x) {
      assert plans[j] == PlanOf(db, ix, rows[j]);
      assert j == i;
    } else {
      assert HoldsName(db, u, x);
      assert Named(db, u, x) && Named(db, ix.byName[x], x);
      FreshSlots(mid, plans, year);
      assert plans[i].target == Some(u);
    }
  }

  /** The row matches an entity that already holds everything it gives. */
  ghost predicate Quiet(db: Db, ix: Index, row: ImportRow)
    requires IsIndex(ix, db)
  {
    var m := MatchRow(db, ix, row);
    m.Matched? && m.id in db.voteables && Diff(db.voteables[m.id], PlanOf(db, ix, row), db.works) == NOTHING
  }

  ghost predicate Silent(rows: seq<ImportRow>, db: Db, ix: Index)
    requires IsIndex(ix, db)
  {
    forall i :: 0 <= i < |rows| ==> Quiet(db, ix, rows[i])
  }

  lemma {:induction false} QuietHolds(db: Db, ix: Index, p: Plan)
    requires IsIndex(ix, db) && p.work == Given(p.row.work)
    ensures Quiet(db, ix, p.row) <==> MatchRow(db, ix, p.row).Matched? && HeldAt(db, MatchRow(db, ix, p.row).id, p)
  {
    var m, q := MatchRow(db, ix, p.row), PlanOf(db, ix, p.row);
    if m.Matched? && m.id in db.voteables {
      DiffIffHolds(db.voteables[m.id], q, db.works);
      assert Apply(db.voteables[m.id], q, db.works) == Apply(db.voteables[m.id], p, db.works);
    }
  }

  /** A row whose entity holds what it gives finds that entity again. */
  lemma MatchesAgain(rows: seq<ImportRow>, db: Db, ix: Index, plans: seq<Plan>, year: Option<int>, i: nat, ix': Index)
    requires FirstRun(rows, db, ix, plans) && i < |rows| && IsIndex(ix', After(db, plans, year))
    requires HeldAt(After(db, plans, year), Slots(Mid(db, plans), plans, year)[i], plans[i])
    ensures var m := MatchRow(After(db, plans, year), ix', rows[i]);
            m.Matched? && m.id == Slots(Mid(db, plans), plans, year)[i]
  {
    var db', slot, row := After(db, plans, year), Slots(Mid(db, plans), plans, year)[i], rows[i];
    MidIsReady(rows, db, ix, plans);
    FreshSlots(Mid(db, plans), plans, year);
    assert plans[i] == PlanOf(db, ix, row) && !MatchRow(db, ix, row).Clash?;
    if x :| Given(row.oldId) == Some(x) {
      assert HoldsOldId(db', slot, x);
      OldIdHolder(rows, db, ix, plans, year, i, ix'.byOldId[x], x);
    } else if row.voteableId.None? && row.name.Some? {
      assert HoldsName(db', slot, row.name.value);
      NameHolder(rows, db, ix, plans, year, i, ix'.byName[row.name.value], row.name.value);
    }
  }

  /** A row that finds an entity holding what it gives finds its own. */
  lemma FindsItsOwn(rows: seq<ImportRow>, db: Db, ix: Index, plans: seq<Plan>, year: Option<int>, i: nat, ix': Index)
    requires FirstRun(rows, db, ix, plans) && i < |rows| && IsIndex(ix', After(db, plans, year))
    requires Quiet(After(db, plans, year), ix', rows[i])
    ensures HeldAt(After(db, plans, year), Slots(Mid(db, plans), plans, year)[i], plans[i])
    ensures MatchRow(After(db, plans, year), ix', rows[i]).id == Slots(Mid(db, plans), plans, year)[i]
  {
    var db', slot, row := After(db, plans, year), Slots(Mid(db, plans), plans, year)[i], rows[i];
    MidIsReady(rows, db, ix, plans);
    FreshSlots(Mid(db, plans), plans, year);
    assert plans[i] == PlanOf(db, ix, row) && !MatchRow(db, ix, row).Clash?;
    QuietHolds(db', ix', plans[i]);
    var u := MatchRow(db', ix', row).id;
    if x :| Given(row.oldId) == Some(x) {
      assert HoldsOldId(db', u, x);
      OldIdHolder(rows, db, ix, plans, year, i, u, x);
    } else if row.voteableId.None? && row.name.Some? {
      assert HoldsName(db', u, row.name.value);
      NameHolder(rows, db, ix, plans, year, i, u, row.name.value);
    }
  }

  /** Rows of the batch about the same existing entity do not disagree. */
  ghost predicate TargetsAgree(plans: seq<Plan>) {
    forall i, j :: 0 <= i < j < |plans| && plans[i].target.Some? && plans[i].target == plans[j].target ==>
      Agree(plans[i], plans[j])
  }

  lemma TargetsAgreeIsSlotsAgree(rows: seq<ImportRow>, db: Db, ix: Index, plans: seq<Plan>, year: Option<int>)
    requires FirstRun(rows, db, ix, plans)
    ensures TargetsAgree(plans) <==> SlotsAgree(Slots(Mid(db, plans), plans, year), plans)
  {
    MidIsReady(rows, db, ix, plans);
    FreshSlots(Mid(db, plans), plans, year);
  }

  /** Importing a batch again finds nothing to do, whatever order the index is read in, exactly when no two
      rows of the batch disagree about one existing entity. */
  lemma RerunSilentIffAgree(rows: seq<ImportRow>, db: Db, ix: Index, plans: seq<Plan>, year: Option<int>, ix': Index)
    requires FirstRun(rows, db, ix, plans) && IsIndex(ix', After(db, plans, year))
    ensures Silent(rows, After(db, plans, year), ix') <==> TargetsAgree(plans)
  {
    var mid, db', slots := Mid(db, plans), After(db, plans, year), Slots(Mid(db, plans), plans, year);
    MidIsReady(rows, db, ix, plans);
    ExecKeeps(mid, plans, year);
    TargetsAgreeIsSlotsAgree(rows, db, ix, plans, year);
    if SlotsAgree(slots, plans) {
      forall i | 0 <= i < |rows| ensures Quiet(db', ix', rows[i]) {
        AllHeld(mid, plans, year, i);
        MatchesAgain(rows, db, ix, plans, year, i, ix');
        assert plans[i] == PlanOf(db, ix, rows[i]);
        QuietHolds(db', ix', plans[i]);
      }
    }
    if Silent(rows, db', ix') {
      forall i, j | 0 <= i < j < |plans| && slots[i] == slots[j] ensures Agree(plans[i], plans[j]) {
        assert Quiet(db', ix', rows[i]) && Quiet(db', ix', rows[j]);
        FindsItsOwn(rows, db, ix, plans, year, i, ix');
        FindsItsOwn(rows, db, ix, plans, year, j, ix');
        HoldBothAgree(db'.voteables[slots[i]], plans[i], plans[j], db'.works);
      }
    }
  }

  // ---------- the second report ----------

  lemma {:induction false} FlatEmpty<T, U>(s: seq<T>, f: T -> seq<U>)
    ensures Flat(s, f) == [] <==> forall i :: 0 <= i < |s| ==> f(s[i]) == []
  {
    if |s| != 0 {
      FlatEmpty(s[..|s|-1], f);
      assert forall i :: 0 <= i < |s| - 1 ==> s[..|s|-1][i] == s[i];
    }
  }

  predicate EmptyReport(r: Report) { r.conflicts == [] && r.creates == [] && r.updates == [] && r.pending == [] }

  lemma PlanReported(db: Db, ix: Index, row: ImportRow)
    requires IsIndex(ix, db)
    ensures var p := PlanOf(db, ix, row);
            Quiet(db, ix, row) <==> CreatesOf()(p) == [] && UpdatesOf(db)(p) == []
  {
  }

  lemma {:induction false} SilentPlans(rows: seq<ImportRow>, db: Db, ix: Index, plans: seq<Plan>)
    requires IsIndex(ix, db) && |plans| == |rows| && forall i :: 0 <= i < |rows| ==> plans[i] == PlanOf(db, ix, rows[i])
    ensures Silent(rows, db, ix) <==>
            forall i :: 0 <= i < |plans| ==> CreatesOf()(plans[i]) == [] && UpdatesOf(db)(plans[i]) == []
  {
    forall i | 0 <= i < |rows|
      ensures Quiet(db, ix, rows[i]) <==> CreatesOf()(plans[i]) == [] && UpdatesOf(db)(plans[i]) == []
    {
      PlanReported(db, ix, rows[i]);
    }
  }

  /** Silence shows in the report: no conflict, nothing to create, nothing to update, no new work. */
  lemma SilentReport(rows: seq<ImportRow>, db: Db, ix: Index, year: Option<int>, r: Report)
    requires IsIndex(ix, db) && IsReport(r, rows, db, ix, year, |rows|) && Clean(rows, db, ix)
    ensures r.creates == [] && r.updates == [] <==> Silent(rows, db, ix)
  {
    ConflictFreeIffClean(r, rows, db, ix, year);
    SilentPlans(rows, db, ix, r.plans);
    FlatEmpty(r.plans, CreatesOf());
    FlatEmpty(r.plans, UpdatesOf(db));
  }

  lemma {:induction false} StillClean(rows: seq<ImportRow>, db: Db, ix: Index, db': Db, ix': Index)
    requires IsIndex(ix, db) && IsIndex(ix', db') && Clean(rows, db, ix) && Silent(rows, db', ix')
    ensures Clean(rows, db', ix')
  {
    forall i | 0 <= i < |rows| ensures !MatchRow(db', ix', rows[i]).Clash? {
      assert Quiet(db', ix', rows[i]);
    }
  }

  lemma QuietMeansMatched(rows: seq<ImportRow>, db: Db, ix: Index, r: Report, year: Option<int>)
    requires IsIndex(ix, db) && IsReport(r, rows, db, ix, year, |rows|) && EmptyReport(r)
    ensures Silent(rows, db, ix)
  {
    ConflictFreeIffClean(r, rows, db, ix, year);
    SilentReport(rows, db, ix, year, r);
  }

  /** The second report is empty exactly when no two rows disagree about one existing entity. */
  lemma SecondReport(rows: seq<ImportRow>, db: Db, ix: Index, plans: seq<Plan>, year: Option<int>, ix': Index,
                     year': Option<int>, r: Report)
    requires FirstRun(rows, db, ix, plans) && IsIndex(ix', After(db, plans, year))
    requires IsReport(r, rows, After(db, plans, year), ix', year', |rows|)
    ensures EmptyReport(r) <==> TargetsAgree(plans)
  {
    var db' := After(db, plans, year);
    RerunSilentIffAgree(rows, db, ix, plans, year, ix');
    if Silent(rows, db', ix') {
      StillClean(rows, db, ix, db', ix');
      SilentReport(rows, db', ix', year', r);
      ConflictFreeIffClean(r, rows, db', ix', year');
      MidIsReady(rows, db, ix, plans);
      ExecKeeps(Mid(db, plans), plans, year);
      forall i | 0 <= i < |rows| && r.plans[i].work.Some? ensures r.plans[i].work.value in db'.works {
        assert plans[i] == PlanOf(db, ix, rows[i]) && r.plans[i] == PlanOf(db', ix', rows[i]);
      }
      NothingPending(db'.works, r.plans);
    }
    if EmptyReport(r) {
      QuietMeansMatched(rows, db', ix', r, year');
    }
  }

  // ---------- the second execution ----------

  lemma {:induction false} QuietPlansKeepEntities(db: Db, plans: seq<Plan>, year: Option<int>)
    requires forall i :: 0 <= i < |plans| ==> plans[i].target.Some? && HeldAt(db, plans[i].target.value, plans[i])
    ensures ExecPlans(db, plans, year) == db.(candidates := ExecPlans(db, plans, year).candidates)
  {
    if |plans| != 0 {
      var n := |plans| - 1;
      QuietPlansKeepEntities(db, plans[..n], year);
      assert plans[n].target.Some? && HeldAt(db, plans[n].target.value, plans[n]);
    }
  }

  /** What a run does to the candidate row of one entity in the year. */
  function Link(slots: seq<int>, plans: seq<Plan>, id: int, start: Option<Option<int>>): Option<Option<int>>
    requires |slots| == |plans|
  {
    if |plans| == 0 then start else
      var n := |plans| - 1;
      var before := Link(slots[..n], plans[..n], id, start);
      if slots[n] != id || (before.Some? && plans[n].row.sortOrder.None?) then before else Some(plans[n].row.sortOrder)
  }

  function CandidateAt(candidates: map<(int, int), Option<int>>, key: (int, int)): Option<Option<int>> {
    if key in candidates then Some(candidates[key]) else None
  }

  lemma {:induction false} CandidatesLinked(db: Db, plans: seq<Plan>, year: int, key: (int, int))
    ensures CandidateAt(ExecPlans(db, plans, Some(year)).candidates, key) ==
            if key.0 == year then Link(Slots(db, plans, Some(year)), plans, key.1, CandidateAt(db.candidates, key))
            else CandidateAt(db.candidates, key)
  {
    if |plans| != 0 {
      var n := |plans| - 1;
      CandidatesLinked(db, plans[..n], year, key);
      assert Slots(db, plans, Some(year))[..n] == Slots(db, plans[..n], Some(year));
    }
  }

  ghost predicate KeepsAll(slots: seq<int>, plans: seq<Plan>, id: int)
    requires |slots| == |plans|
  {
    forall s :: Link(slots, plans, id, s) == s
  }

  ghost predicate AddsMissing(slots: seq<int>, plans: seq<Plan>, id: int)
    requires |slots| == |plans|
  {
    forall s :: Link(slots, plans, id, s) == if s.Some? then s else Some(None)
  }

  ghost predicate Overwrites(slots: seq<int>, plans: seq<Plan>, id: int)
    requires |slots| == |plans|
  {
    forall s :: Link(slots, plans, id, s) == Link(slots, plans, id, None)
  }

  /** Linking either keeps every candidate row, or only adds a missing one, or gives one fixed result. */
  lemma {:induction false} LinkKinds(slots: seq<int>, plans: seq<Plan>, id: int)
    requires |slots| == |plans|
    ensures KeepsAll(slots, plans, id) || AddsMissing(slots, plans, id) || Overwrites(slots, plans, id)
  {
    if |plans| != 0 {
      var n := |plans| - 1;
      LinkKinds(slots[..n], plans[..n], id);
      if slots[n] == id && plans[n].row.sortOrder.Some? {
        assert Overwrites(slots, plans, id);
      } else if KeepsAll(slots[..n], plans[..n], id) {
        assert slots[n] == id ==> AddsMissing(slots, plans, id);
        assert slots[n] != id ==> KeepsAll(slots, plans, id);
      } else if AddsMissing(slots[..n], plans[..n], id) {
        assert AddsMissing(slots, plans, id);
      } else {
        forall s ensures Link(slots, plans, id, s) == Link(slots, plans, id, None) {
          assert Link(slots[..n], plans[..n], id, s) == Link(slots[..n], plans[..n], id, None);
        }
      }
    }
  }

  lemma LinkTwice(slots: seq<int>, plans: seq<Plan>, id: int, start: Option<Option<int>>)
    requires |slots| == |plans|
    ensures Link(slots, plans, id, Link(slots, plans, id, start)) == Link(slots, plans, id, start)
  {
    LinkKinds(slots, plans, id);
  }

  lemma {:induction false} LinkSame(slots: seq<int>, plans: seq<Plan>, plans': seq<Plan>, id: int,
                                    start: Option<Option<int>>)
    requires |slots| == |plans| == |plans'| && forall i :: 0 <= i < |plans| ==> plans[i].row == plans'[i].row
    ensures Link(slots, plans, id, start) == Link(slots, plans', id, start)
  {
    if |plans| != 0 {
      var n := |plans| - 1;
      assert forall i :: 0 <= i < n ==> plans[..n][i].row == plans'[..n][i].row;
      LinkSame(slots[..n], plans[..n], plans'[..n], id, start);
    }
  }

  lemma {:induction false} SlotsOfTargets(db: Db, plans: seq<Plan>, year: Option<int>, slots: seq<int>)
    requires |slots| == |plans| && forall i :: 0 <= i < |plans| ==> plans[i].target == Some(slots[i])
    ensures Slots(db, plans, year) == slots
  {
    if |plans| != 0 {
      SlotsOfTargets(db, plans[..|plans|-1], year, slots[..|plans|-1]);
    }
  }

  lemma CandidatesUnchanged(mid: Db, plans: seq<Plan>, plans': seq<Plan>, year: int)
    requires |plans'| == |plans| && forall i :: 0 <= i < |plans| ==> plans[i].row == plans'[i].row
    requires Slots(ExecPlans(mid, plans, Some(year)), plans', Some(year)) == Slots(mid, plans, Some(year))
    ensures var s := ExecPlans(mid, plans, Some(year)); ExecPlans(s, plans', Some(year)).candidates == s.candidates
  {
    var s := ExecPlans(mid, plans, Some(year));
    var slots, c := Slots(mid, plans, Some(year)), ExecPlans(s, plans', Some(year)).candidates;
    forall key ensures CandidateAt(c, key) == CandidateAt(s.candidates, key) {
      CandidatesLinked(mid, plans, year, key);
      CandidatesLinked(s, plans', year, key);
      LinkSame(slots, plans, plans', key.1, CandidateAt(s.candidates, key));
      LinkTwice(slots, plans, key.1, CandidateAt(mid.candidates, key));
    }
    SameCandidates(c, s.candidates);
  }

  lemma SameCandidates(a: map<(int, int), Option<int>>, b: map<(int, int), Option<int>>)
    requires forall key :: CandidateAt(a, key) == CandidateAt(b, key)
    ensures a == b
  {
    forall key ensures key in a <==> key in b {
      assert CandidateAt(a, key) == CandidateAt(b, key);
    }
    forall key | key in a ensures a[key] == b[key] {
      assert CandidateAt(a, key) == CandidateAt(b, key);
    }
  }

  /** The second run's plans write the entities of the first, which hold what is given. */
  lemma SecondPlans(rows: seq<ImportRow>, db: Db, ix: Index, plans: seq<Plan>, year: Option<int>, ix': Index, i: nat)
    requires FirstRun(rows, db, ix, plans) && TargetsAgree(plans) && IsIndex(ix', After(db, plans, year)) && i < |rows|
    ensures var p := PlanOf(After(db, plans, year), ix', rows[i]);
            && p.row == plans[i].row && p.target == Some(Slots(Mid(db, plans), plans, year)[i])
            && HeldAt(After(db, plans, year), Slots(Mid(db, plans), plans, year)[i], p)
  {
    RerunSilentIffAgree(rows, db, ix, plans, year, ix');
    assert Quiet(After(db, plans, year), ix', rows[i]) && plans[i] == PlanOf(db, ix, rows[i]);
    FindsItsOwn(rows, db, ix, plans, year, i, ix');
  }

  lemma SameTables(db: Db, plans: seq<Plan>, plans': seq<Plan>, year: Option<int>)
    requires |plans'| == |plans|
    requires var s, slots := ExecPlans(db, plans, year), Slots(db, plans, year);
             forall i :: 0 <= i < |plans| ==>
               plans'[i].row == plans[i].row && plans'[i].target == Some(slots[i]) && HeldAt(s, slots[i], plans'[i])
    ensures ExecPlans(ExecPlans(db, plans, year), plans', year) == ExecPlans(db, plans, year)
  {
    var s := ExecPlans(db, plans, year);
    QuietPlansKeepEntities(s, plans', year);
    if year.Some? {
      SlotsOfTargets(s, plans', year, Slots(db, plans, year));
      CandidatesUnchanged(db, plans, plans', year.value);
    } else {
      NoYearNoCandidates(s, plans');
    }
  }

  /** Importing a batch whose rows agree a second time, for the same year, changes nothing: no entity, no
      work and no candidate row. */
  lemma RerunChangesNothing(rows: seq<ImportRow>, db: Db, ix: Index, plans: seq<Plan>, year: Option<int>, ix': Index,
                            r: Report)
    requires FirstRun(rows, db, ix, plans) && TargetsAgree(plans) && IsIndex(ix', After(db, plans, year))
    requires IsReport(r, rows, After(db, plans, year), ix', year, |rows|)
    ensures Executed(After(db, plans, year), r.plans, r.pending, year) == After(db, plans, year)
  {
    SecondReport(rows, db, ix, plans, year, ix', year, r);
    ConflictFreeIffClean(r, rows, After(db, plans, year), ix', year);
    forall i | 0 <= i < |rows|
      ensures var slot := Slots(Mid(db, plans), plans, year)[i];
              r.plans[i].row == plans[i].row && r.plans[i].target == Some(slot) &&
                HeldAt(After(db, plans, year), slot, r.plans[i])
    {
      SecondPlans(rows, db, ix, plans, year, ix', i);
    }
    SameTables(Mid(db, plans), plans, r.plans, year);
  }

  lemma {:induction false} NoYearNoCandidates(db: Db, plans: seq<Plan>)
    ensures ExecPlans(db, plans, None).candidates == db.candidates
  {
    if |plans| != 0 {
      NoYearNoCandidates(db, plans[..|plans|-1]);
    }
  }

  lemma ReportGivesFirstRun(rows: seq<ImportRow>, db: Db, ix: Index, year: Option<int>, r: Report)
    requires IsIndex(ix, db) && ValidDb(db) && UniqueKeys(db) && Clean(rows, db, ix)
    requires IsReport(r, rows, db, ix, year, |rows|) && AllNamed(r.plans)
    ensures FirstRun(rows, db, ix, r.plans) && Executed(db, r.plans, r.pending, year) == After(db, r.plans, year)
  {
    ConflictFreeIffClean(r, rows, db, ix, year);
  }

  lemma RerunAccepted(rows: seq<ImportRow>, db: Db, ix: Index, plans: seq<Plan>, year: Option<int>, ix': Index)
    requires FirstRun(rows, db, ix, plans) && TargetsAgree(plans) && IsIndex(ix', After(db, plans, year))
    ensures Clean(rows, After(db, plans, year), ix') && CreatorsNamed(rows, After(db, plans, year), ix')
  {
    RerunSilentIffAgree(rows, db, ix, plans, year, ix');
    StillClean(rows, db, ix, After(db, plans, year), ix');
    assert forall i :: 0 <= i < |rows| ==> Quiet(After(db, plans, year), ix', rows[i]);
  }

  lemma NoOtherError(r: Result<Report, RunError>)
    requires r != Err(ImportConflicts) && r != Err(NameIsNull)
    ensures r.Ok?
  {
    if r.Err? {
      TwoErrors(r.error);
    }
  }

  lemma TwoErrors(e: RunError)
    ensures e == ImportConflicts || e == NameIsNull
  {
  }

  /** A second import of the same batch for the same year: it succeeds, reports nothing to do, and leaves
      the tables as the first one left them. */
  method ImportTwice(d: Database, rows: seq<ImportRow>, year: Option<int>)
      returns (first: Result<Report, RunError>, second: Result<Report, RunError>, ghost middle: Db)
    requires ValidDb(d.Contents()) && UniqueKeys(d.Contents())
    modifies d
    ensures first.Ok? && TargetsAgree(first.value.plans) ==>
            second.Ok? && EmptyReport(second.value) && d.Contents() == middle
    ensures first.Ok? ==> middle == Executed(old(d.Contents()), first.value.plans, first.value.pending, year)
    ensures first.Err? ==> middle == old(d.Contents())
  {
    ghost var start := d.Contents();
    ghost var ix, ix';
    first, ix := d.Run(rows, year, false);
    middle := d.Contents();
    second, ix' := d.Run(rows, year, false);
    if first.Ok? && TargetsAgree(first.value.plans) {
      ghost var plans := first.value.plans;
      ReportGivesFirstRun(rows, start, ix, year, first.value);
      RerunAccepted(rows, start, ix, plans, year, ix');
      assert second != Err(ImportConflicts) && second != Err(NameIsNull);
      NoOtherError(second);
      SecondReport(rows, start, ix, plans, year, ix', year, second.value);
      RerunChangesNothing(rows, start, ix, plans, year, ix', second.value);
    }
  }

  // ---------- the preview ----------

  /** The preview of an update is empty although the run changes the entity exactly when the only change is
      to link an entity without work to a work that the run itself creates. */
  lemma PreviewMisses(v: Voteable, p: Plan, works: map<string, Work>, works': map<string, Work>)
    requires forall w :: w in works ==> w in works' && works'[w] == works[w]
    requires p.work.Some? ==> p.work.value in works'
    ensures Diff(v, p, works) == NOTHING && Apply(v, p, works') != v <==>
            Diff(v, p.(work := None), works) == NOTHING && p.work.Some? && p.work.value !in works && v.workId.None?
  {
  }

  /** Such a row exists: it names nothing but a new work. */
  lemma {:induction false} PreviewMissesNewWork()
    ensures var row := ImportRow(Some(1), None, None, None, None, None, None, Some("w"), None, None);
            var v := Voteable("a", "", "", None, [], None, None);
            var db := Db(map[1 := v], map[], map[], 2, 1);
            var ix := Index(map[], map["a" := 1]);
            && IsIndex(ix, db) && Clean([row], db, ix)
            && UpdatesOf(db)(PlanOf(db, ix, row)) == []
            && After(db, [PlanOf(db, ix, row)], None).voteables[1] == v.(workId := Some(1))
  {
    var row := ImportRow(Some(1), None, None, None, None, None, None, Some("w"), None, None);
    var v := Voteable("a", "", "", None, [], None, None);
    var db := Db(map[1 := v], map[], map[], 2, 1);
    var ix := Index(map[], map["a" := 1]);
    var p := Plan(row, Some(1), Some("w"));
    assert IsIndex(ix, db) && PlanOf(db, ix, row) == p;
    assert [p][..0] == [];
    assert Pending(db.works, [p]) == [PendingWork("w", "others")] by {
      assert Pending(db.works, []) == [];
    }
    assert [PendingWork("w", "others")][..0] == [] && AddWorks(db, []) == db;
    assert Mid(db, [p]) == AddWork(db, PendingWork("w", "others"));
    assert ExecPlans(Mid(db, [p]), [p], None) == ExecPlan(Mid(db, [p]), p, None);
  }

  /** Two rows that disagree about one entity are imported without complaint, and the next preview is not
      empty. */
  lemma DisagreeingRows()
    ensures var a := ImportRow(Some(1), Some("a"), None, None, None, None, None, None, None, None);
            var b := ImportRow(Some(1), Some("b"), None, None, None, None, None, None, None, None);
            var db := Db(map[1 := Voteable("a", "", "", None, [], None, None)], map[], map[], 2, 1);
            var ix := Index(map[], map["a" := 1]);
            && IsIndex(ix, db) && FirstRun([a, b], db, ix, [PlanOf(db, ix, a), PlanOf(db, ix, b)])
            && !TargetsAgree([PlanOf(db, ix, a), PlanOf(db, ix, b)])
  {
    var a := ImportRow(Some(1), Some("a"), None, None, None, None, None, None, None, None);
    var b := ImportRow(Some(1), Some("b"), None, None, None, None, None, None, None, None);
    var plans := [Plan(a, Some(1), None), Plan(b, Some(1), None)];
    assert !Agree(plans[0], plans[1]);
    assert plans[0].target == plans[1].target;
  }
}
