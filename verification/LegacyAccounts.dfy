/** What a legacy import does for each survivor (scripts/import_legacy_voters.py): the account he gets with its
    identities, or the account he is mapped to. */
module LegacyAccounts {
  import opened Prelude
  import opened LegacyPlan
  import opened LegacyImport
  import opened LegacyImportFacts

  // ---------- accounts ----------

  lemma CreateMaps(b: Batch, v: Voter, existing: map<Key, int>, losersOf: map<string, seq<string>>)
    requires v.legacyId !in b.mapped && Classify(v, existing) == Create
    ensures var b' := Process(b, v, existing, losersOf);
            Mapping(v.legacyId, b.nextUser, Primary) in b'.mappings && b'.nextUser == b.nextUser + 1
  {
    var user := b.nextUser;
    var created :=
      b.(users := b.users + [user], identities := b.identities + IdentityRows(v, user), nextUser := user + 1);
    var first, rest :=
      Mapping(v.legacyId, user, Primary), Map(LosersOf(losersOf, v.legacyId), MappingTo(user, Duplicate));
    FirstThenRest(created, first, rest);
    AddMappingsFrame(AddMapping(created, first), rest);
    MappingsKept(AddMapping(created, first), rest);
    assert first in AddMapping(created, first).mappings;
  }

  lemma ProcessKeeps(b: Batch, v: Voter, existing: map<Key, int>, losersOf: map<string, seq<string>>)
    ensures var b' := Process(b, v, existing, losersOf);
            b.nextUser <= b'.nextUser && forall m :: m in b.mappings ==> m in b'.mappings
  {
    if v.legacyId !in b.mapped && Classify(v, existing) == Create {
      var user := b.nextUser;
      var created :=
        b.(users := b.users + [user], identities := b.identities + IdentityRows(v, user), nextUser := user + 1);
      var ms := [Mapping(v.legacyId, user, Primary)] + Map(LosersOf(losersOf, v.legacyId), MappingTo(user, Duplicate));
      AddMappingsFrame(created, ms);
      MappingsKept(created, ms);
    } else {
      OtherwiseFrame(b, v, existing, losersOf);
    }
  }

  lemma {:induction false} CreatedIsMapped(b: Batch, vs: seq<Voter>, existing: map<Key, int>,
                                           losersOf: map<string, seq<string>>)
    ensures b.nextUser <= ProcessAll(b, vs, existing, losersOf).nextUser
    ensures forall v :: v in Created(b, vs, existing, losersOf) ==>
              exists u :: b.nextUser <= u &&
                Mapping(v.legacyId, u, Primary) in ProcessAll(b, vs, existing, losersOf).mappings
  {
    if |vs| != 0 {
      var front, last := vs[..|vs|-1], vs[|vs|-1];
      var before, after := ProcessAll(b, front, existing, losersOf), ProcessAll(b, vs, existing, losersOf);
      CreatedIsMapped(b, front, existing, losersOf);
      ProcessKeeps(before, last, existing, losersOf);
      forall v | v in Created(b, vs, existing, losersOf)
        ensures exists u :: b.nextUser <= u && Mapping(v.legacyId, u, Primary) in after.mappings
      {
        if v in Created(b, front, existing, losersOf) {
          var u :| b.nextUser <= u && Mapping(v.legacyId, u, Primary) in before.mappings;
          assert Mapping(v.legacyId, u, Primary) in after.mappings;
        } else {
          CreateMaps(before, last, existing, losersOf);
          assert Mapping(v.legacyId, before.nextUser, Primary) in after.mappings;
        }
      }
    }
  }

  /** A survivor for whom the inserted batch creates an account is its primary legacy id. */
  lemma CreatorIsPrimary(now: Tables, chunk: seq<Voter>, losersOf: map<string, seq<string>>, v: Voter) returns (u: int)
    requires Consistent(chunk, losersOf) && NoClash(now, BatchOf(now, chunk, losersOf).identities)
    requires v in chunk && Creates(now)(v)
    ensures u >= now.nextUser && PrimaryId(Inserted(now, BatchOf(now, chunk, losersOf)), u, v.legacyId)
  {
    var b := Batch([], [], [], now.mappings.Keys, now.nextUser);
    var ms := BatchOf(now, chunk, losersOf).mappings;
    CreatedInPlan(now, chunk, losersOf);
    CreatedIsMapped(b, chunk, ExistingFor(now, chunk), losersOf);
    u :| now.nextUser <= u && Mapping(v.legacyId, u, Primary) in ms;
    BatchWell(chunk, ExistingFor(now, chunk), losersOf, now.mappings.Keys, now.nextUser);
    PrimaryOrigin(now, BatchOf(now, chunk, losersOf), u, v.legacyId);
    var i :| 0 <= i < |ms| && ms[i] == Mapping(v.legacyId, u, Primary);
    assert IsPrimary(ms[i], u);
  }

  lemma {:induction false} RestIsPrimary(t: Tables, now: Tables, winners: seq<Voter>,
                                         losersOf: map<string, seq<string>>, batchSize: nat, s: nat, j: nat)
      returns (u: int)
    requires batchSize > 0 && Consistent(winners, losersOf) && Reached(t, now, winners, batchSize, s)
    requires IsStart(s, batchSize) && s <= j < |winners| && GetsAccount(t, winners, batchSize, j)
    requires Imported(now, winners[s..], losersOf, batchSize).ok
    ensures u >= now.nextUser
    ensures PrimaryId(Imported(now, winners[s..], losersOf, batchSize).tables, u, winners[j].legacyId)
    decreases |winners| - s
  {
    var e := if s + batchSize <= |winners| then s + batchSize else |winners|;
    var chunk := winners[s..e];
    var next := Inserted(now, BatchOf(now, chunk, losersOf));
    ImportedStep(now, winners, losersOf, batchSize, s, e);
    ConsistentPart(winners, losersOf, s, e);
    InsertedBatch(now, chunk, losersOf);
    if j < e {
      CreatesNow(t, now, winners, losersOf, batchSize, s, j);
      assert chunk[j - s] == winners[j];
      u := CreatorIsPrimary(now, chunk, losersOf, winners[j]);
      ImportedDone(next, winners[e..], losersOf, batchSize);
    } else {
      ReachedNext(t, now, winners, losersOf, batchSize, s, e);
      u := RestIsPrimary(t, next, winners, losersOf, batchSize, e, j);
    }
  }

  /** When the import gets through, every survivor who gets an account has one of his own: his id is its primary
      one, and its identities are exactly his. */
  lemma AccountForEach(t: Tables, winners: seq<Voter>, losersOf: map<string, seq<string>>, batchSize: nat, j: nat)
      returns (u: int)
    requires batchSize > 0 && Consistent(winners, losersOf) && IdentitiesBounded(t) && PrimaryBounded(t)
    requires Imported(t, winners, losersOf, batchSize).ok && GetsAccount(t, winners, batchSize, j)
    ensures var after := Imported(t, winners, losersOf, batchSize).tables;
            t.nextUser <= u < after.nextUser && AccountOf(after, u, winners[j])
  {
    var after := Imported(t, winners, losersOf, batchSize).tables;
    assert winners[0..] == winners;
    u := RestIsPrimary(t, t, winners, losersOf, batchSize, 0, j);
    ImportGuarantees(t, winners, losersOf, batchSize);
    assert IsSomeones(after, u, winners);
    var i :| 0 <= i < |winners| && AccountOf(after, u, winners[i]);
    assert OnePrimaryId(after, u);
    assert winners[i].legacyId == winners[j].legacyId;
    assert i == j;
  }

  /** The import stores no identities but those of the accounts it creates, and changes none. */
  lemma {:induction false} NewIdentities(t: Tables, winners: seq<Voter>, losersOf: map<string, seq<string>>,
                                         batchSize: nat, key: Key)
    requires batchSize > 0
    ensures var after := Imported(t, winners, losersOf, batchSize).tables;
            && (key in t.identities ==> key in after.identities && after.identities[key] == t.identities[key])
            && (key in after.identities && key !in t.identities ==>
                  t.nextUser <= after.identities[key].user < after.nextUser)
    decreases |winners|
  {
    if |winners| != 0 {
      var n := if batchSize <= |winners| then batchSize else |winners|;
      var chunk := winners[..n];
      var b := BatchOf(t, chunk, losersOf);
      if NoClash(t, b.identities) {
        BatchHandsOut(chunk, ExistingFor(t, chunk), losersOf, t.mappings.Keys, t.nextUser);
        InsertedBatch(t, chunk, losersOf);
        NewIdentities(Inserted(t, b), winners[n..], losersOf, batchSize, key);
        ImportedDone(Inserted(t, b), winners[n..], losersOf, batchSize);
        if key in Inserted(t, b).identities {
          IdentityFrom(t.identities, b.identities, key);
        }
      }
    }
  }

  // ---------- mappings ----------

  /** The account that holds a subject; a blank subject belongs to nobody. */
  function Holder(t: Tables, p: Provider, subject: Option<string>): Option<int> {
    if subject.Some? && subject.value != "" && (p, subject.value) in t.identities
    then Some(t.identities[(p, subject.value)].user) else None
  }

  /** The id is the survivor's or one of his duplicates'. */
  predicate About(v: Voter, losersOf: map<string, seq<string>>, id: string) {
    id == v.legacyId || (v.legacyId in losersOf && id in losersOf[v.legacyId])
  }

  /** The mapping of an id, and no other id is concerned. */
  ghost predicate SameMapping(b: Batch, b': Batch, id: string) {
    (id in b.mapped <==> id in b'.mapped) &&
      forall m: Mapping :: m.legacyId == id ==> (m in b.mappings <==> m in b'.mappings)
  }

  lemma {:induction false} OthersMapped(b: Batch, ms: seq<Mapping>, id: string)
    requires forall i :: 0 <= i < |ms| ==> ms[i].legacyId != id
    ensures SameMapping(b, AddMappings(b, ms), id)
  {
    if |ms| != 0 {
      OthersMapped(b, ms[..|ms|-1], id);
    }
  }

  lemma ProcessOthers(b: Batch, v: Voter, existing: map<Key, int>, losersOf: map<string, seq<string>>, id: string)
    requires !About(v, losersOf, id)
    ensures SameMapping(b, Process(b, v, existing, losersOf), id)
  {
    if v.legacyId !in b.mapped {
      var losers := LosersOf(losersOf, v.legacyId);
      match Classify(v, existing) {
        case Multi =>
        case Conflict(owner) =>
          OthersMapped(b, Map([v.legacyId] + losers, MappingTo(owner, ConflictExisting)), id);
        case Create =>
          var user := b.nextUser;
          var created :=
            b.(users := b.users + [user], identities := b.identities + IdentityRows(v, user), nextUser := user + 1);
          OthersMapped(created, [Mapping(v.legacyId, user, Primary)] + Map(losers, MappingTo(user, Duplicate)), id);
      }
    }
  }

  lemma {:induction false} AllOthers(b: Batch, vs: seq<Voter>, existing: map<Key, int>,
                                     losersOf: map<string, seq<string>>, id: string, n: nat)
    requires n <= |vs| && forall i :: n <= i < |vs| ==> !About(vs[i], losersOf, id)
    ensures SameMapping(ProcessAll(b, vs[..n], existing, losersOf), ProcessAll(b, vs, existing, losersOf), id)
    decreases |vs|
  {
    if n == |vs| {
      assert vs[..n] == vs;
    } else {
      var front := vs[..|vs|-1];
      assert front[..n] == vs[..n] && forall i :: 0 <= i < |front| ==> front[i] == vs[i];
      AllOthers(b, front, existing, losersOf, id, n);
      ProcessOthers(ProcessAll(b, front, existing, losersOf), vs[|vs|-1], existing, losersOf, id);
    }
  }

  /** Only the survivor at place `k` decides about the id. */
  lemma OnlyHe(b: Batch, vs: seq<Voter>, existing: map<Key, int>, losersOf: map<string, seq<string>>, id: string,
               k: nat)
    requires k < |vs| && forall i :: 0 <= i < |vs| && i != k ==> !About(vs[i], losersOf, id)
    ensures var before := ProcessAll(b, vs[..k], existing, losersOf);
            && SameMapping(b, before, id)
            && SameMapping(Process(before, vs[k], existing, losersOf), ProcessAll(b, vs, existing, losersOf), id)
  {
    var front := vs[..k];
    assert front[..0] == [] && forall i :: 0 <= i < k ==> front[i] == vs[i];
    AllOthers(b, front, existing, losersOf, id, 0);
    assert vs[..k+1][..k] == vs[..k];
    AllOthers(b, vs, existing, losersOf, id, k + 1);
  }

  lemma {:induction false} FirstOfIdMapped(b: Batch, ids: seq<string>, user: int, role: Role, id: string)
    requires id in ids && id !in b.mapped
    ensures Mapping(id, user, role) in AddMappings(b, Map(ids, MappingTo(user, role))).mappings
  {
    var n := |ids| - 1;
    var ms := Map(ids, MappingTo(user, role));
    assert ms[..n] == Map(ids[..n], MappingTo(user, role));
    if id in ids[..n] {
      FirstOfIdMapped(b, ids[..n], user, role, id);
    } else {
      OthersMapped(b, ms[..n], id);
    }
  }

  /** What processing a survivor does about his own id and his duplicates'. */
  lemma ProcessMaps(b: Batch, v: Voter, existing: map<Key, int>, losersOf: map<string, seq<string>>, id: string)
    requires v.legacyId !in b.mapped && About(v, losersOf, id) && id !in b.mapped
    ensures var b', kind := Process(b, v, existing, losersOf), Classify(v, existing);
            && (kind.Multi? ==> b' == b)
            && (kind.Conflict? ==> Mapping(id, kind.owner, ConflictExisting) in b'.mappings)
            && (kind.Create? ==>
                  Mapping(id, b.nextUser, if id == v.legacyId then Primary else Duplicate) in b'.mappings)
  {
    var losers := LosersOf(losersOf, v.legacyId);
    match Classify(v, existing) {
      case Multi =>
      case Conflict(owner) =>
        FirstOfIdMapped(b, [v.legacyId] + losers, owner, ConflictExisting, id);
      case Create =>
        if id == v.legacyId {
          CreateMaps(b, v, existing, losersOf);
        } else {
          var user := b.nextUser;
          var created :=
            b.(users := b.users + [user], identities := b.identities + IdentityRows(v, user), nextUser := user + 1);
          var first := Mapping(v.legacyId, user, Primary);
          FirstThenRest(created, first, Map(losers, MappingTo(user, Duplicate)));
          FirstOfIdMapped(AddMapping(created, first), losers, user, Duplicate, id);
        }
    }
  }

  lemma {:induction false} MappingStored(ms: map<string, Mapping>, rows: seq<Mapping>, m: Mapping)
    requires forall i, j :: 0 <= i < j < |rows| ==> rows[i].legacyId != rows[j].legacyId
    requires m in rows
    ensures m.legacyId in AddMappingRows(ms, rows) && AddMappingRows(ms, rows)[m.legacyId] == m
  {
    var n := |rows| - 1;
    if m != rows[n] {
      var i :| 0 <= i < n && rows[i] == m;
      assert rows[..n][i] == m;
      MappingStored(ms, rows[..n], m);
    }
  }

  lemma KindByHolders(now: Tables, chunk: seq<Voter>, k: nat)
    requires k < |chunk|
    ensures var v := chunk[k];
            var kind, m, p := Classify(v, ExistingFor(now, chunk)), Holder(now, EmailProvider, v.email),
                              Holder(now, PhoneProvider, v.phone);
            && (kind.Multi? <==> m.Some? && p.Some? && m != p)
            && (kind.Create? <==> m.None? && p.None?)
            && (kind.Conflict? ==> Some(kind.owner) == if m.Some? then m else p)
  {
    ClassifyFor(now, chunk, k);
  }

  /** What an inserted batch does about an id nobody has mapped yet, of a survivor or of one of his duplicates: if
      two accounts hold his address and phone, it stays unmapped; if one does, it is mapped to that one as a
      conflict; if none does, to the account created for him, as its primary id or as a duplicate. */
  lemma BatchMaps(now: Tables, chunk: seq<Voter>, losersOf: map<string, seq<string>>, k: nat, id: string)
    requires NoClash(now, BatchOf(now, chunk, losersOf).identities) && k < |chunk|
    requires About(chunk[k], losersOf, id) && id !in now.mappings && chunk[k].legacyId !in now.mappings
    requires forall i :: 0 <= i < |chunk| && i != k ==>
               !About(chunk[i], losersOf, id) && !About(chunk[i], losersOf, chunk[k].legacyId)
    ensures var v, next := chunk[k], Inserted(now, BatchOf(now, chunk, losersOf));
            var m, p := Holder(now, EmailProvider, v.email), Holder(now, PhoneProvider, v.phone);
            && (m.Some? && p.Some? && m != p ==> id !in next.mappings)
            && ((m.Some? || p.Some?) && (m == p || m.None? || p.None?) ==>
                  id in next.mappings &&
                    next.mappings[id] == Mapping(id, if m.Some? then m.value else p.value, ConflictExisting))
            && (m.None? && p.None? ==>
                  && id in next.mappings && now.nextUser <= next.mappings[id].user < next.nextUser
                  && next.mappings[id].role == (if id == v.legacyId then Primary else Duplicate))
  {
    var b, existing := Batch([], [], [], now.mappings.Keys, now.nextUser), ExistingFor(now, chunk);
    var before, after := ProcessAll(b, chunk[..k], existing, losersOf), BatchOf(now, chunk, losersOf);
    OnlyHe(b, chunk, existing, losersOf, id, k);
    OnlyHe(b, chunk, existing, losersOf, chunk[k].legacyId, k);
    ProcessMaps(before, chunk[k], existing, losersOf, id);
    KindByHolders(now, chunk, k);
    BatchWell(chunk, existing, losersOf, now.mappings.Keys, now.nextUser);
    InsertExtends(now, after);
    forall m | m in after.mappings && m.legacyId == id
      ensures id in Inserted(now, after).mappings && Inserted(now, after).mappings[id] == m
    {
      MappingStored(now.mappings, after.mappings, m);
    }
    CreatedNumber(b, chunk, existing, losersOf, k);
  }

  lemma {:induction false} NumbersGrow(b: Batch, vs: seq<Voter>, existing: map<Key, int>,
                                       losersOf: map<string, seq<string>>, n: nat)
    requires n <= |vs|
    ensures var k := ProcessAll(b, vs[..n], existing, losersOf).nextUser;
            b.nextUser <= k <= ProcessAll(b, vs, existing, losersOf).nextUser
    decreases |vs|
  {
    if n == |vs| {
      assert vs[..n] == vs;
      CreatedIsMapped(b, vs, existing, losersOf);
    } else {
      var front := vs[..|vs|-1];
      assert front[..n] == vs[..n];
      NumbersGrow(b, front, existing, losersOf, n);
      ProcessKeeps(ProcessAll(b, front, existing, losersOf), vs[|vs|-1], existing, losersOf);
    }
  }

  lemma CreatedNumber(b: Batch, vs: seq<Voter>, existing: map<Key, int>, losersOf: map<string, seq<string>>, k: nat)
    requires k < |vs|
    ensures var before := ProcessAll(b, vs[..k], existing, losersOf);
            && b.nextUser <= before.nextUser
            && (vs[k].legacyId !in before.mapped && Classify(vs[k], existing) == Create ==>
                  before.nextUser < ProcessAll(b, vs, existing, losersOf).nextUser)
  {
    NumbersGrow(b, vs, existing, losersOf, k);
    NumbersGrow(b, vs, existing, losersOf, k + 1);
    assert vs[..k+1][..k] == vs[..k];
    var before := ProcessAll(b, vs[..k], existing, losersOf);
    if vs[k].legacyId !in before.mapped && Classify(vs[k], existing) == Create {
      CreateMaps(before, vs[k], existing, losersOf);
    }
  }
}
