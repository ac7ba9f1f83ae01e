/** Planning a voteable import (src/apps/admin/voteable_import_service.py): matching rows to entities by id,
    old id or name, rejecting contradictory batches, and previewing what a run would change. */
module ImportPlan {
  import opened Prelude

  datatype Work = Work(id: int, kind: string)

  datatype Voteable = Voteable(name: string, nameJp: string, kind: string, firstAppearance: Option<string>,
                               aliases: seq<string>, oldId: Option<string>, workId: Option<int>)

  /** The tables an import touches; a candidate row is (vote year, voteable id) with its sort order. */
  datatype Db = Db(voteables: map<int, Voteable>, works: map<string, Work>, candidates: map<(int, int), Option<int>>,
                   nextVoteable: int, nextWork: int)

  /** One row of the batch; a missing field is `None`. */
  datatype ImportRow = ImportRow(voteableId: Option<int>, name: Option<string>, nameJp: Option<string>,
                                 kind: Option<string>, firstAppearance: Option<string>, aliases: Option<seq<string>>,
                                 oldId: Option<string>, work: Option<string>, workKind: Option<string>,
                                 sortOrder: Option<int>)

  /** `value or None`: the empty string counts as missing. */
  function Given(s: Option<string>): Option<string> { if s == Some("") then None else s }

  /** `by_old_id` and `by_name`; when a key is shared, whichever entity the query returned last. */
  datatype Index = Index(byOldId: map<string, int>, byName: map<string, int>)

  predicate HoldsOldId(db: Db, i: int, x: string) { i in db.voteables && Given(db.voteables[i].oldId) == Some(x) }

  predicate HoldsName(db: Db, i: int, x: string) { i in db.voteables && db.voteables[i].name == x }

  ghost predicate IsIndex(ix: Index, db: Db) {
    && (forall x :: x in ix.byOldId ==> HoldsOldId(db, ix.byOldId[x], x))
    && (forall x :: x in ix.byName ==> HoldsName(db, ix.byName[x], x))
    && (forall i, x :: HoldsOldId(db, i, x) ==> x in ix.byOldId)
    && (forall i, x :: HoldsName(db, i, x) ==> x in ix.byName)
  }

  datatype Reason = DuplicateNameInBatch | DuplicateOldIdInBatch | VoteableIdNotFound | OldIdVoteableIdMismatch
                  | OldIdMismatch

  datatype MatchedBy = ById | ByOldId | ByName

  datatype Match = NoMatch | Matched(id: int, how: MatchedBy) | Clash(reason: Reason)

  /** `_match_row`. */
  function MatchRow(db: Db, ix: Index, row: ImportRow): Match
    requires IsIndex(ix, db)
  {
    var oldId := Given(row.oldId);
    if row.voteableId.Some? then
      if row.voteableId.value !in db.voteables then Clash(VoteableIdNotFound)
      else if oldId.Some? && oldId.value in ix.byOldId &&
          ix.byOldId[oldId.value] != row.voteableId.value then Clash(OldIdVoteableIdMismatch)
      else Matched(row.voteableId.value, ById)
    else if oldId.Some? && oldId.value in ix.byOldId then Matched(ix.byOldId[oldId.value], ByOldId)
    else if row.name.Some? && row.name.value in ix.byName then
      var t := ix.byName[row.name.value];
      var held := Given(db.voteables[t].oldId);
      if held.Some? && oldId.Some? && held != oldId then Clash(OldIdMismatch) else Matched(t, ByName)
    else NoMatch
  }

  /** What to do with a row: update `target`, or create an entity. */
  datatype Plan = Plan(row: ImportRow, target: Option<int>, work: Option<string>)

  function PlanOf(db: Db, ix: Index, row: ImportRow): Plan
    requires IsIndex(ix, db)
  {
    var m := MatchRow(db, ix, row);
    Plan(row, if m.Matched? then Some(m.id) else None, Given(row.work))
  }

  // ---------- matching by what the tables hold ----------

  /** The entity's own old id; the empty string is none. */
  predicate Owns(db: Db, u: int, x: string) { x != "" && u in db.voteables && db.voteables[u].oldId == Some(x) }

  predicate Brings(row: ImportRow, x: string) { x != "" && row.oldId == Some(x) }

  predicate Named(db: Db, u: int, n: string) { u in db.voteables && db.voteables[u].name == n }

  /** No two entities share a name, none share an old id. */
  ghost predicate UniqueKeys(db: Db) {
    && (forall i, j, x :: Owns(db, i, x) && Owns(db, j, x) ==> i == j)
    && (forall i, j, x :: Named(db, i, x) && Named(db, j, x) ==> i == j)
  }

  /** The row names an entity that does not exist. */
  predicate NamesNobody(db: Db, row: ImportRow) { row.voteableId.Some? && row.voteableId.value !in db.voteables }

  /** The row names an entity, and brings an old id that only others own. */
  ghost predicate NamesTwo(db: Db, row: ImportRow) {
    && row.voteableId.Some? && row.voteableId.value in db.voteables
    && exists x :: Brings(row, x) && !Owns(db, row.voteableId.value, x) && exists w :: Owns(db, w, x)
  }

  /** The row names no entity, its old id is new, and whoever has its name has another old id already. */
  ghost predicate RenamesOldId(db: Db, row: ImportRow) {
    row.voteableId.None? && exists x, n ::
      && Brings(row, x) && row.name == Some(n) && (forall w :: !Owns(db, w, x)) && (exists u :: Named(db, u, n))
      && forall u :: Named(db, u, n) ==> exists y :: y != x && Owns(db, u, y)
  }

  /** The row cannot be reconciled with the tables. */
  ghost predicate Contradicts(db: Db, row: ImportRow) {
    NamesNobody(db, row) || NamesTwo(db, row) || RenamesOldId(db, row)
  }

  /** A row that cannot be reconciled is a clash whatever order the lookups were filled in; when no two
      entities share a key, only such a row is, and the reason tells which way. */
  lemma ClashIffContradicts(db: Db, ix: Index, row: ImportRow)
    requires IsIndex(ix, db)
    ensures Contradicts(db, row) ==> MatchRow(db, ix, row).Clash?
    ensures UniqueKeys(db) ==>
            && (MatchRow(db, ix, row) == Clash(VoteableIdNotFound) <==> NamesNobody(db, row))
            && (MatchRow(db, ix, row) == Clash(OldIdVoteableIdMismatch) <==> NamesTwo(db, row))
            && (MatchRow(db, ix, row) == Clash(OldIdMismatch) <==> RenamesOldId(db, row))
            && (MatchRow(db, ix, row).Clash? <==> Contradicts(db, row))
  {
    OwnersIndexed(db, ix);
    match row.voteableId
    case Some(u) => MatchById(db, ix, row, u);
    case None => MatchByKey(db, ix, row);
  }

  lemma OwnersIndexed(db: Db, ix: Index)
    requires IsIndex(ix, db)
    ensures forall u, x :: Owns(db, u, x) ==> x in ix.byOldId && Owns(db, ix.byOldId[x], x)
    ensures forall x :: x in ix.byOldId ==> Owns(db, ix.byOldId[x], x)
    ensures forall u, n :: Named(db, u, n) ==> n in ix.byName && Named(db, ix.byName[n], n)
    ensures forall n :: n in ix.byName ==> Named(db, ix.byName[n], n)
  {
    forall u, x ensures Owns(db, u, x) <==> HoldsOldId(db, u, x) {
    }
    forall u, n ensures Named(db, u, n) <==> HoldsName(db, u, n) {
    }
  }

  /** A row with an id finds that entity, unless it does not exist or the old id is someone else's. */
  lemma MatchById(db: Db, ix: Index, row: ImportRow, u: int)
    requires IsIndex(ix, db) && row.voteableId == Some(u)
    ensures NamesNobody(db, row) <==> MatchRow(db, ix, row) == Clash(VoteableIdNotFound)
    ensures NamesTwo(db, row) ==> MatchRow(db, ix, row) == Clash(OldIdVoteableIdMismatch)
    ensures UniqueKeys(db) && MatchRow(db, ix, row) == Clash(OldIdVoteableIdMismatch) ==> NamesTwo(db, row)
    ensures MatchRow(db, ix, row) in
            {Clash(VoteableIdNotFound), Clash(OldIdVoteableIdMismatch), Matched(u, ById)}
  {
    OwnersIndexed(db, ix);
    if NamesTwo(db, row) {
      var x :| Brings(row, x) && !Owns(db, u, x) && exists w :: Owns(db, w, x);
      var w :| Owns(db, w, x);
      assert Owns(db, ix.byOldId[x], x) && ix.byOldId[x] != u;
    }
    if MatchRow(db, ix, row) == Clash(OldIdVoteableIdMismatch) {
      var x := row.oldId.value;
      assert Brings(row, x) && Owns(db, ix.byOldId[x], x);
    }
  }

  /** A row without an id finds an owner of its old id, else a bearer of its name, unless the bearer has another
      old id; else nobody. */
  lemma MatchByKey(db: Db, ix: Index, row: ImportRow)
    requires IsIndex(ix, db) && row.voteableId.None?
    ensures var m := MatchRow(db, ix, row);
            && (forall x, u :: Brings(row, x) && Owns(db, u, x) ==> m.Matched? && m.how == ByOldId && Owns(db, m.id, x))
            && (m.Matched? && m.how == ByOldId ==> exists x :: Brings(row, x) && Owns(db, m.id, x))
            && (m.Matched? && m.how == ByName ==> row.name.Some? && Named(db, m.id, row.name.value))
            && (m.Matched? && m.how == ByName ==> forall x, y :: Brings(row, x) && Owns(db, m.id, y) ==> x == y)
            && (m.NoMatch? ==> forall n, u :: row.name == Some(n) ==> !Named(db, u, n))
            && (m.Matched? ==> m.how != ById)
    ensures RenamesOldId(db, row) ==> MatchRow(db, ix, row) == Clash(OldIdMismatch)
    ensures MatchRow(db, ix, row).Clash? ==> MatchRow(db, ix, row) == Clash(OldIdMismatch)
    ensures UniqueKeys(db) && MatchRow(db, ix, row).Clash? ==> RenamesOldId(db, row)
  {
    OwnersIndexed(db, ix);
    if RenamesOldId(db, row) {
      var x, n :|
        && Brings(row, x) && row.name == Some(n) && (forall w :: !Owns(db, w, x)) && (exists u :: Named(db, u, n))
        && forall u :: Named(db, u, n) ==> exists y :: y != x && Owns(db, u, y);
      var y :| y != x && Owns(db, ix.byName[n], y);
    }
    if MatchRow(db, ix, row).Clash? {
      var x, n := row.oldId.value, row.name.value;
      var y := db.voteables[ix.byName[n]].oldId.value;
      assert Brings(row, x) && y != x && Owns(db, ix.byName[n], y);
      assert forall w :: !Owns(db, w, x);
    }
  }

  // ---------- verdicts ----------

  /** Why row `i` is rejected, if it is; only accepted rows count as earlier occurrences. */
  ghost function Verdict(rows: seq<ImportRow>, db: Db, ix: Index, i: nat): Option<Reason>
    requires IsIndex(ix, db) && i < |rows|
    decreases i
  {
    if
      && rows[i].name.Some?
      && exists j :: 0 <= j < i && rows[j].name == rows[i].name && Verdict(rows, db, ix, j).None?
    then
      Some(DuplicateNameInBatch)
    else if
      && Given(rows[i].oldId).Some?
      && exists j :: 0 <= j < i && Given(rows[j].oldId) == Given(rows[i].oldId) && Verdict(rows, db, ix, j).None?
    then
      Some(DuplicateOldIdInBatch)
    else
      var m := MatchRow(db, ix, rows[i]);
      if m.Clash? then Some(m.reason) else None
  }

  /** The batch is free of conflicts: no name and no old id twice, and no row contradicts the tables. */
  ghost predicate Clean(rows: seq<ImportRow>, db: Db, ix: Index)
    requires IsIndex(ix, db)
  {
    && (forall i, j :: 0 <= i < j < |rows| && rows[i].name.Some? ==> rows[i].name != rows[j].name)
    && (forall i, j :: 0 <= i < j < |rows| && Given(rows[i].oldId).Some? ==>
          Given(rows[i].oldId) != Given(rows[j].oldId))
    && (forall i :: 0 <= i < |rows| ==> !MatchRow(db, ix, rows[i]).Clash?)
  }

  ghost predicate AllAccepted(rows: seq<ImportRow>, db: Db, ix: Index, n: nat)
    requires IsIndex(ix, db) && n <= |rows|
  {
    forall i :: 0 <= i < n ==> Verdict(rows, db, ix, i).None?
  }

  /** Every row is accepted exactly when the batch is free of conflicts. */
  lemma AcceptedIffClean(rows: seq<ImportRow>, db: Db, ix: Index)
    requires IsIndex(ix, db)
    ensures AllAccepted(rows, db, ix, |rows|) <==> Clean(rows, db, ix)
  {
    if Clean(rows, db, ix) {
      forall i | 0 <= i < |rows| ensures Verdict(rows, db, ix, i).None? {
      }
    }
    if AllAccepted(rows, db, ix, |rows|) {
      forall i, j | 0 <= i < j < |rows| && rows[i].name.Some? ensures rows[i].name != rows[j].name {
        assert Verdict(rows, db, ix, i).None? && Verdict(rows, db, ix, j).None?;
      }
      forall i, j | 0 <= i < j < |rows| && Given(rows[i].oldId).Some?
        ensures Given(rows[i].oldId) != Given(rows[j].oldId)
      {
        assert Verdict(rows, db, ix, i).None? && Verdict(rows, db, ix, j).None?;
      }
      forall i | 0 <= i < |rows| ensures !MatchRow(db, ix, rows[i]).Clash? {
        assert Verdict(rows, db, ix, i).None?;
      }
    }
  }

  // ---------- the report ----------

  /** Fields a row would write; `work` by name. */
  datatype Fields = Fields(name: Option<string>, nameJp: Option<string>, kind: Option<string>,
                           firstAppearance: Option<string>, aliases: Option<seq<string>>, oldId: Option<string>,
                           work: Option<string>)

  const NOTHING := Fields(None, None, None, None, None, None, None)

  function Changed<T(==)>(given: Option<T>, held: T): Option<T> {
    if given.Some? && given.value != held then given else None
  }

  function WorkId(works: map<string, Work>, name: string): Option<int> {
    if name in works then Some(works[name].id) else None
  }

  /** `_diff`: the given fields that differ from the entity's. */
  function Diff(v: Voteable, p: Plan, works: map<string, Work>): Fields {
    var row := p.row;
    Fields(Changed(row.name, v.name), Changed(row.nameJp, v.nameJp), Changed(row.kind, v.kind),
           if row.firstAppearance.Some? && v.firstAppearance != row.firstAppearance then row.firstAppearance else None,
           Changed(row.aliases, v.aliases),
           if row.oldId.Some? && v.oldId != row.oldId then row.oldId else None,
           if p.work.Some? && WorkId(works, p.work.value) != v.workId then p.work else None)
  }

  function Preview(p: Plan): Fields {
    Fields(p.row.name, p.row.nameJp, p.row.kind, p.row.firstAppearance, p.row.aliases, p.row.oldId, p.work)
  }

  datatype PendingWork = PendingWork(name: string, kind: string)

  function KindOf(row: ImportRow): string { if Given(row.workKind).Some? then row.workKind.value else "others" }

  predicate IsPending(pending: seq<PendingWork>, name: string) {
    exists i :: 0 <= i < |pending| && pending[i].name == name
  }

  /** The works to create, each once, in the order of their first mention. */
  function Pending(works: map<string, Work>, plans: seq<Plan>): seq<PendingWork> {
    if |plans| == 0 then [] else
      var pending, p := Pending(works, plans[..|plans|-1]), plans[|plans|-1];
      if p.work.Some? && p.work.value !in works && !IsPending(pending, p.work.value) then
          pending + [PendingWork(p.work.value, KindOf(p.row))]
      else pending
  }

  function CreatesOf(): Plan -> seq<Fields> { (p: Plan) => if p.target.None? then [Preview(p)] else [] }

  function UpdatesOf(db: Db): Plan -> seq<(int, Fields)> {
    (p: Plan) =>
      if p.target.None? || p.target.value !in db.voteables then [] else
        var diff := Diff(db.voteables[p.target.value], p, db.works);
        if diff == NOTHING then [] else [(p.target.value, diff)]
  }

  datatype Totals = Totals(rows: nat, byId: nat, byOldId: nat, byName: nat, created: nat)

  datatype Report = Report(creates: seq<Fields>, updates: seq<(int, Fields)>, conflicts: seq<(nat, Reason)>,
                           pending: seq<PendingWork>, plans: seq<Plan>, totals: Totals, candidateUpserts: nat)

  /** The plans of the accepted rows among the first `n`, in order. */
  ghost function Plans(rows: seq<ImportRow>, db: Db, ix: Index, n: nat): seq<Plan>
    requires IsIndex(ix, db) && n <= |rows|
  {
    if n == 0 then [] else
      Plans(rows, db, ix, n - 1) + if Verdict(rows, db, ix, n - 1).None? then [PlanOf(db, ix, rows[n-1])] else []
  }

  /** The rejected rows among the first `n`, with their reasons. */
  ghost function Conflicts(rows: seq<ImportRow>, db: Db, ix: Index, n: nat): seq<(nat, Reason)>
    requires IsIndex(ix, db) && n <= |rows|
  {
    if n == 0 then [] else
      var v := Verdict(rows, db, ix, n - 1);
      Conflicts(rows, db, ix, n - 1) + if v.Some? then [(n - 1, v.value)] else []
  }

  ghost function Through(rows: seq<ImportRow>, db: Db, ix: Index, n: nat, how: Option<MatchedBy>): nat
    requires IsIndex(ix, db) && n <= |rows|
  {
    if n == 0 then 0 else
      var m := MatchRow(db, ix, rows[n-1]);
      Through(rows, db, ix, n - 1, how)
        + if Verdict(rows, db, ix, n - 1).None? && (if how.Some? then m.Matched? && m.how == how.value else m.NoMatch?)
          then 1 else 0
  }

  ghost predicate IsTotals(t: Totals, rows: seq<ImportRow>, db: Db, ix: Index, n: nat)
    requires IsIndex(ix, db) && n <= |rows|
  {
    && t.rows == |rows|
    && t.byId == Through(rows, db, ix, n, Some(ById)) && t.byOldId == Through(rows, db, ix, n, Some(ByOldId))
    && t.byName == Through(rows, db, ix, n, Some(ByName)) && t.created == Through(rows, db, ix, n, None)
  }

  /** What planning must report about the first `n` rows. */
  ghost predicate IsReport(r: Report, rows: seq<ImportRow>, db: Db, ix: Index, year: Option<int>, n: nat)
    requires IsIndex(ix, db) && n <= |rows|
  {
    && r.plans == Plans(rows, db, ix, n) && r.conflicts == Conflicts(rows, db, ix, n)
    && r.pending == Pending(db.works, r.plans)
    && r.creates == Flat(r.plans, CreatesOf()) && r.updates == Flat(r.plans, UpdatesOf(db))
    && IsTotals(r.totals, rows, db, ix, n)
    && r.candidateUpserts == if year.Some? then |r.plans| else 0
  }

  /** The names and old ids of the accepted rows among the first `n`. */
  ghost predicate Seen(names: set<string>, oldIds: set<string>, rows: seq<ImportRow>, db: Db, ix: Index, n: nat)
    requires IsIndex(ix, db) && n <= |rows|
  {
    && (forall x :: x in names <==> exists j :: 0 <= j < n && rows[j].name == Some(x) && Verdict(rows, db, ix, j).None?)
    && (forall x :: x in oldIds <==>
          exists j :: 0 <= j < n && Given(rows[j].oldId) == Some(x) && Verdict(rows, db, ix, j).None?)
  }

  function AddSeen(seen: set<string>, x: Option<string>): set<string> { if x.Some? then seen + {x.value} else seen }

  lemma SeenStep(names: set<string>, oldIds: set<string>, rows: seq<ImportRow>, db: Db, ix: Index, n: nat)
    requires IsIndex(ix, db) && n < |rows| && Seen(names, oldIds, rows, db, ix, n)
    ensures Verdict(rows, db, ix, n).None? ==>
            Seen(AddSeen(names, rows[n].name), AddSeen(oldIds, Given(rows[n].oldId)), rows, db, ix, n + 1)
    ensures Verdict(rows, db, ix, n).Some? ==> Seen(names, oldIds, rows, db, ix, n + 1)
  {
  }

  /** The early rejections of the loop are the row's verdict. */
  lemma VerdictBySeen(names: set<string>, oldIds: set<string>, rows: seq<ImportRow>, db: Db, ix: Index, n: nat)
    requires IsIndex(ix, db) && n < |rows| && Seen(names, oldIds, rows, db, ix, n)
    ensures Verdict(rows, db, ix, n) ==
            if rows[n].name.Some? && rows[n].name.value in names then Some(DuplicateNameInBatch)
            else if Given(rows[n].oldId).Some? && Given(rows[n].oldId).value in oldIds then Some(DuplicateOldIdInBatch)
            else if MatchRow(db, ix, rows[n]).Clash? then Some(MatchRow(db, ix, rows[n]).reason) else None
  {
  }

  /** The report grown by an accepted row. */
  function Accept(r: Report, db: Db, p: Plan, m: Match, year: Option<int>): Report {
    var pending := if p.work.Some? && p.work.value !in db.works && !IsPending(r.pending, p.work.value)
                   then r.pending + [PendingWork(p.work.value, KindOf(p.row))] else r.pending;
    Report(r.creates + CreatesOf()(p), r.updates + UpdatesOf(db)(p), r.conflicts, pending, r.plans + [p],
           CountMatch(r.totals, m),
           if year.Some? then r.candidateUpserts + 1 else r.candidateUpserts)
  }

  function CountMatch(t: Totals, m: Match): Totals {
    match m
    case Matched(_, ById) => t.(byId := t.byId + 1)
    case Matched(_, ByOldId) => t.(byOldId := t.byOldId + 1)
    case Matched(_, ByName) => t.(byName := t.byName + 1)
    case _ => t.(created := t.created + 1)
  }

  lemma TotalsStep(t: Totals, rows: seq<ImportRow>, db: Db, ix: Index, n: nat)
    requires IsIndex(ix, db) && n < |rows| && IsTotals(t, rows, db, ix, n) && Verdict(rows, db, ix, n).None?
    ensures IsTotals(CountMatch(t, MatchRow(db, ix, rows[n])), rows, db, ix, n + 1)
  {
    assert !MatchRow(db, ix, rows[n]).Clash?;
  }

  lemma PendingStep(works: map<string, Work>, plans: seq<Plan>, p: Plan)
    ensures Pending(works, plans + [p]) ==
            if p.work.Some? && p.work.value !in works && !IsPending(Pending(works, plans), p.work.value)
            then Pending(works, plans) + [PendingWork(p.work.value, KindOf(p.row))] else Pending(works, plans)
  {
    assert (plans + [p])[..|plans|] == plans;
  }

  lemma AcceptStep(r: Report, rows: seq<ImportRow>, db: Db, ix: Index, year: Option<int>, n: nat)
    requires IsIndex(ix, db) && n < |rows| && IsReport(r, rows, db, ix, year, n) && Verdict(rows, db, ix, n).None?
    ensures IsReport(Accept(r, db, PlanOf(db, ix, rows[n]), MatchRow(db, ix, rows[n]), year), rows, db, ix, year, n + 1)
  {
    var p := PlanOf(db, ix, rows[n]);
    PendingStep(db.works, r.plans, p);
    FlatSnoc(r.plans, p, CreatesOf());
    FlatSnoc(r.plans, p, UpdatesOf(db));
    TotalsStep(r.totals, rows, db, ix, n);
  }

  lemma RejectStep(r: Report, rows: seq<ImportRow>, db: Db, ix: Index, year: Option<int>, n: nat, reason: Reason)
    requires IsIndex(ix, db) && n < |rows| && IsReport(r, rows, db, ix, year, n) &&
             Verdict(rows, db, ix, n) == Some(reason)
    ensures IsReport(r.(conflicts := r.conflicts + [(n, reason)]), rows, db, ix, year, n + 1)
  {
  }

  /** `_build_plan`. */
  method BuildPlan(rows: seq<ImportRow>, db: Db, ix: Index, year: Option<int>) returns (r: Report)
    requires IsIndex(ix, db)
    ensures IsReport(r, rows, db, ix, year, |rows|)
  {
    r := Report([], [], [], [], [], Totals(|rows|, 0, 0, 0, 0), 0);
    var seenNames: set<string>, seenOldIds: set<string> := {}, {};
    for n := 0 to |rows|
      invariant IsReport(r, rows, db, ix, year, n)
      invariant Seen(seenNames, seenOldIds, rows, db, ix, n)
    {
      var row := rows[n];
      var oldId := Given(row.oldId);
      VerdictBySeen(seenNames, seenOldIds, rows, db, ix, n);
      SeenStep(seenNames, seenOldIds, rows, db, ix, n);
      if row.name.Some? && row.name.value in seenNames {
        RejectStep(r, rows, db, ix, year, n, DuplicateNameInBatch);
        r := r.(conflicts := r.conflicts + [(n, DuplicateNameInBatch)]);
      } else if oldId.Some? && oldId.value in seenOldIds {
        RejectStep(r, rows, db, ix, year, n, DuplicateOldIdInBatch);
        r := r.(conflicts := r.conflicts + [(n, DuplicateOldIdInBatch)]);
      } else {
        var m := MatchRow(db, ix, row);
        if m.Clash? {
          RejectStep(r, rows, db, ix, year, n, m.reason);
          r := r.(conflicts := r.conflicts + [(n, m.reason)]);
        } else {
          seenNames, seenOldIds := AddSeen(seenNames, row.name), AddSeen(seenOldIds, oldId);
          AcceptStep(r, rows, db, ix, year, n);
          r := Accept(r, db, PlanOf(db, ix, row), m, year);
        }
      }
    }
  }

  /** No name twice, no old id twice, and nothing that contradicts the tables. */
  ghost predicate Importable(rows: seq<ImportRow>, db: Db) {
    && (forall i, j :: 0 <= i < j < |rows| && rows[i].name.Some? ==> rows[i].name != rows[j].name)
    && (forall i, j, x :: 0 <= i < j < |rows| && Brings(rows[i], x) ==> !Brings(rows[j], x))
    && (forall i :: 0 <= i < |rows| ==> !Contradicts(db, rows[i]))
  }

  /** Whether a batch is free of conflicts does not depend on the lookups. */
  lemma CleanIffImportable(rows: seq<ImportRow>, db: Db, ix: Index)
    requires IsIndex(ix, db)
    ensures Clean(rows, db, ix) ==> Importable(rows, db)
    ensures UniqueKeys(db) && Importable(rows, db) ==> Clean(rows, db, ix)
  {
    forall i | 0 <= i < |rows|
      ensures Contradicts(db, rows[i]) ==> MatchRow(db, ix, rows[i]).Clash?
      ensures UniqueKeys(db) && MatchRow(db, ix, rows[i]).Clash? ==> Contradicts(db, rows[i])
    {
      ClashIffContradicts(db, ix, rows[i]);
    }
    forall i, x | 0 <= i < |rows| ensures Brings(rows[i], x) <==> Given(rows[i].oldId) == Some(x) {
    }
    if UniqueKeys(db) && Importable(rows, db) {
      forall i, j | 0 <= i < j < |rows| && Given(rows[i].oldId).Some?
        ensures Given(rows[i].oldId) != Given(rows[j].oldId)
      {
        assert Brings(rows[i], rows[i].oldId.value);
      }
    }
  }

  // ---------- what a report says ----------

  /** Every row is counted once: matched by id, by old id, by name, created, or in conflict. */
  lemma {:induction false} TotalsAddUp(rows: seq<ImportRow>, db: Db, ix: Index, n: nat)
    requires IsIndex(ix, db) && n <= |rows|
    ensures Through(rows, db, ix, n, Some(ById)) + Through(rows, db, ix, n, Some(ByOldId))
              + Through(rows, db, ix, n, Some(ByName))
              + Through(rows, db, ix, n, None) + |Conflicts(rows, db, ix, n)| == n
    ensures |Plans(rows, db, ix, n)| + |Conflicts(rows, db, ix, n)| == n
  {
    if n != 0 {
      TotalsAddUp(rows, db, ix, n - 1);
    }
  }

  lemma {:induction false} PlansOfAccepted(rows: seq<ImportRow>, db: Db, ix: Index, n: nat)
    requires IsIndex(ix, db) && n <= |rows| && AllAccepted(rows, db, ix, n)
    ensures |Plans(rows, db, ix, n)| == n && Conflicts(rows, db, ix, n) == []
    ensures forall i :: 0 <= i < n ==> Plans(rows, db, ix, n)[i] == PlanOf(db, ix, rows[i])
  {
    if n != 0 {
      PlansOfAccepted(rows, db, ix, n - 1);
      assert Verdict(rows, db, ix, n - 1).None?;
    }
  }

  lemma {:induction false} ConflictFound(rows: seq<ImportRow>, db: Db, ix: Index, n: nat, i: nat)
    requires IsIndex(ix, db) && i < n <= |rows| && Verdict(rows, db, ix, i).Some?
    ensures Conflicts(rows, db, ix, n) != []
  {
    if i < n - 1 {
      ConflictFound(rows, db, ix, n - 1, i);
    }
  }

  /** A report is free of conflicts exactly when the batch is, and then plans every row. */
  lemma ConflictFreeIffClean(r: Report, rows: seq<ImportRow>, db: Db, ix: Index, year: Option<int>)
    requires IsIndex(ix, db) && IsReport(r, rows, db, ix, year, |rows|)
    ensures r.conflicts == [] <==> Clean(rows, db, ix)
    ensures r.conflicts == [] ==>
            |r.plans| == |rows| && forall i :: 0 <= i < |rows| ==> r.plans[i] == PlanOf(db, ix, rows[i])
  {
    AcceptedIffClean(rows, db, ix);
    if AllAccepted(rows, db, ix, |rows|) {
      PlansOfAccepted(rows, db, ix, |rows|);
    } else {
      var i :| 0 <= i < |rows| && Verdict(rows, db, ix, i).Some?;
      ConflictFound(rows, db, ix, |rows|, i);
    }
  }
}
