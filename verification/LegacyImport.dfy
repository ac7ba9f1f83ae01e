/** Importing planned legacy voters batch by batch (scripts/import_legacy_voters.py): every created account
    gets one primary mapping, and importing again adds nothing. */
module LegacyImport {
  import opened Prelude
  import opened LegacyPlan

  datatype Provider = EmailProvider | PhoneProvider | QqProvider | WikiProvider

  type Key = (Provider, string)

  datatype Role = Primary | Duplicate | ConflictExisting

  datatype Mapping = Mapping(legacyId: string, user: int, role: Role)

  datatype IdentityRow = IdentityRow(user: int, key: Key, verified: bool)

  /** Accounts, their identities by provider and subject, and the legacy ids already imported. */
  datatype Tables = Tables(users: set<int>, identities: map<Key, IdentityRow>, mappings: map<string, Mapping>,
                           nextUser: int)

  predicate Truthy(s: Option<string>) { s.Some? && s.value != "" }

  function OwnerOf(existing: map<Key, int>, provider: Provider, subject: Option<string>): Option<int> {
    if Truthy(subject) && (provider, subject.value) in existing then Some(existing[(provider, subject.value)]) else None
  }

  datatype Kind = Create | Conflict(owner: int) | Multi

  /** `_classify`: nobody, one account or two different ones hold the voter's address and phone. */
  function Classify(v: Voter, existing: map<Key, int>): Kind {
    match (OwnerOf(existing, EmailProvider, v.email), OwnerOf(existing, PhoneProvider, v.phone))
    case (None, None) => Create
    case (Some(a), None) => Conflict(a)
    case (None, Some(b)) => Conflict(b)
    case (Some(a), Some(b)) => if a == b then Conflict(a) else Multi
  }

  function IdentityOf(user: int, provider: Provider, subject: Option<string>, verified: bool): seq<IdentityRow> {
    if subject.Some? then [IdentityRow(user, (provider, subject.value), verified)] else []
  }

  /** `_identity_rows`. */
  function IdentityRows(v: Voter, user: int): seq<IdentityRow> {
    IdentityOf(user, EmailProvider, v.email, v.emailVerified)
        + IdentityOf(user, PhoneProvider, v.phone, v.phoneVerified)
      + IdentityOf(user, QqProvider, v.qq, true) + IdentityOf(user, WikiProvider, v.wiki, true)
  }

  // ---------- one batch ----------

  datatype Batch = Batch(users: seq<int>, identities: seq<IdentityRow>, mappings: seq<Mapping>, mapped: set<string>,
                         nextUser: int)

  function AddMapping(b: Batch, m: Mapping): Batch {
    if m.legacyId in b.mapped then b else b.(mappings := b.mappings + [m], mapped := b.mapped + {m.legacyId})
  }

  function AddMappings(b: Batch, ms: seq<Mapping>): Batch {
    if |ms| == 0 then b else AddMapping(AddMappings(b, ms[..|ms|-1]), ms[|ms|-1])
  }

  function LosersOf(losersOf: map<string, seq<string>>, id: string): seq<string> {
    if id in losersOf then losersOf[id] else []
  }

  function MappingTo(user: int, role: Role): string -> Mapping { (id: string) => Mapping(id, user, role) }

  /** One voter of the batch. */
  function Process(b: Batch, v: Voter, existing: map<Key, int>, losersOf: map<string, seq<string>>): Batch {
    if v.legacyId in b.mapped then b
    else match Classify(v, existing)
      case Multi => b
      case Conflict(owner) =>
        AddMappings(b, Map([v.legacyId] + LosersOf(losersOf, v.legacyId), MappingTo(owner, ConflictExisting)))
      case Create =>
        var created :=
          b.(users := b.users + [b.nextUser], identities := b.identities + IdentityRows(v, b.nextUser),
             nextUser := b.nextUser + 1);
        AddMappings(created,
            [Mapping(v.legacyId, b.nextUser, Primary)]
              + Map(LosersOf(losersOf, v.legacyId), MappingTo(b.nextUser, Duplicate)))
  }

  function ProcessAll(b: Batch, vs: seq<Voter>, existing: map<Key, int>, losersOf: map<string, seq<string>>): Batch {
    if |vs| == 0 then b else Process(ProcessAll(b, vs[..|vs|-1], existing, losersOf), vs[|vs|-1], existing, losersOf)
  }

  method MapIds(b0: Batch, ms: seq<Mapping>) returns (b: Batch)
    ensures b == AddMappings(b0, ms)
  {
    b := b0;
    for n := 0 to |ms|
      invariant b == AddMappings(b0, ms[..n])
    {
      assert ms[..n+1][..n] == ms[..n];
      if ms[n].legacyId !in b.mapped {
        b := b.(mappings := b.mappings + [ms[n]], mapped := b.mapped + {ms[n].legacyId});
      }
    }
    assert ms[..|ms|] == ms;
  }

  /** `_process_batch` up to the inserts. */
  method ProcessBatch(winners: seq<Voter>, losersOf: map<string, seq<string>>, existing: map<Key, int>,
                      mapped: set<string>, nextUser: int)
      returns (b: Batch)
    ensures b == ProcessAll(Batch([], [], [], mapped, nextUser), winners, existing, losersOf)
  {
    b := Batch([], [], [], mapped, nextUser);
    ghost var b0 := b;
    for n := 0 to |winners|
      invariant b == ProcessAll(b0, winners[..n], existing, losersOf)
    {
      assert winners[..n+1][..n] == winners[..n];
      var v := winners[n];
      if v.legacyId !in b.mapped {
        match Classify(v, existing) {
          case Multi =>
          case Conflict(owner) =>
            b := MapIds(b, Map([v.legacyId] + LosersOf(losersOf, v.legacyId), MappingTo(owner, ConflictExisting)));
          case Create =>
            var user := b.nextUser;
            b :=
              b.(users := b.users + [user], identities := b.identities + IdentityRows(v, user), nextUser := user + 1);
            b :=
              MapIds(b,
                  [Mapping(v.legacyId, user, Primary)]
                    + Map(LosersOf(losersOf, v.legacyId), MappingTo(user, Duplicate)));
        }
      }
    }
    assert winners[..|winners|] == winners;
  }

  // ---------- what a batch adds ----------

  predicate IsPrimary(m: Mapping, user: int) { m.user == user && m.role == Primary }

  /** Exactly one of the mappings is the user's primary one. */
  ghost predicate OnePrimary(ms: seq<Mapping>, user: int) {
    exists i :: OnlyPrimaryAt(ms, user, i)
  }

  ghost predicate OnlyPrimaryAt(ms: seq<Mapping>, user: int, i: int) {
    0 <= i < |ms| && IsPrimary(ms[i], user) && forall j :: 0 <= j < |ms| && j != i ==> !IsPrimary(ms[j], user)
  }

  ghost predicate NoPrimary(ms: seq<Mapping>, user: int) { forall j :: 0 <= j < |ms| ==> !IsPrimary(ms[j], user) }

  /** The ids mapped by the batch are new and distinct, and `mapped` grows by exactly them. */
  ghost predicate WellMapped(b: Batch, mapped0: set<string>) {
    && (forall id :: id in b.mapped <==> id in mapped0 || MappedIn(b.mappings, id))
    && (forall i :: 0 <= i < |b.mappings| ==> b.mappings[i].legacyId !in mapped0)
    && (forall i, j :: 0 <= i < j < |b.mappings| ==> b.mappings[i].legacyId != b.mappings[j].legacyId)
  }

  ghost predicate MappedIn(ms: seq<Mapping>, id: string) { exists i :: 0 <= i < |ms| && ms[i].legacyId == id }

  /** Accounts are numbered on from `next0`, each has exactly one primary mapping, and nobody else has one. */
  ghost predicate WellCreated(b: Batch, next0: int) {
    && b.nextUser == next0 + |b.users| && (forall i :: 0 <= i < |b.users| ==> b.users[i] == next0 + i)
    && (forall u :: next0 <= u < b.nextUser ==> OnePrimary(b.mappings, u))
    && (forall u :: u < next0 || u >= b.nextUser ==> NoPrimary(b.mappings, u))
  }

  lemma AddMappingWell(b: Batch, m: Mapping, mapped0: set<string>)
    requires WellMapped(b, mapped0)
    ensures WellMapped(AddMapping(b, m), mapped0)
  {
    if m.legacyId !in b.mapped {
      var ms := b.mappings + [m];
      assert ms[|b.mappings|] == m && forall i :: 0 <= i < |b.mappings| ==> ms[i] == b.mappings[i];
      forall id ensures MappedIn(ms, id) <==> MappedIn(b.mappings, id) || id == m.legacyId {
        if i :| 0 <= i < |b.mappings| && b.mappings[i].legacyId == id {
          assert ms[i].legacyId == id;
        }
      }
      assert forall i :: 0 <= i < |b.mappings| ==> MappedIn(b.mappings, b.mappings[i].legacyId);
    }
  }

  lemma {:induction false} AddMappingsWell(b: Batch, ms: seq<Mapping>, mapped0: set<string>)
    requires WellMapped(b, mapped0)
    ensures WellMapped(AddMappings(b, ms), mapped0)
  {
    if |ms| != 0 {
      AddMappingsWell(b, ms[..|ms|-1], mapped0);
      AddMappingWell(AddMappings(b, ms[..|ms|-1]), ms[|ms|-1], mapped0);
    }
  }

  /** Adding mappings leaves the rest of the batch alone and marks their ids. */
  lemma {:induction false} AddMappingsFrame(b: Batch, ms: seq<Mapping>)
    ensures var b' := AddMappings(b, ms);
            b'.users == b.users && b'.identities == b.identities && b'.nextUser == b.nextUser && b.mapped <= b'.mapped
    ensures forall i :: 0 <= i < |ms| ==> ms[i].legacyId in AddMappings(b, ms).mapped
  {
    if |ms| != 0 {
      AddMappingsFrame(b, ms[..|ms|-1]);
      assert forall i :: 0 <= i < |ms| - 1 ==> ms[..|ms|-1][i] == ms[i];
    }
  }

  lemma StillOnePrimary(ms: seq<Mapping>, m: Mapping, u: int)
    requires OnePrimary(ms, u) && !IsPrimary(m, u)
    ensures OnePrimary(ms + [m], u)
  {
    var i :| OnlyPrimaryAt(ms, u, i);
    assert OnlyPrimaryAt(ms + [m], u, i);
  }

  lemma FirstPrimary(ms: seq<Mapping>, m: Mapping, u: int)
    requires NoPrimary(ms, u) && IsPrimary(m, u)
    ensures OnePrimary(ms + [m], u)
  {
    assert OnlyPrimaryAt(ms + [m], u, |ms|);
  }

  lemma PrimarySnoc(ms: seq<Mapping>, m: Mapping, u: int)
    ensures NoPrimary(ms, u) && !IsPrimary(m, u) ==> NoPrimary(ms + [m], u)
    ensures OnePrimary(ms, u) && !IsPrimary(m, u) ==> OnePrimary(ms + [m], u)
    ensures NoPrimary(ms, u) && IsPrimary(m, u) ==> OnePrimary(ms + [m], u)
  {
    if IsPrimary(m, u) {
      if NoPrimary(ms, u) {
        FirstPrimary(ms, m, u);
      }
    } else if OnePrimary(ms, u) {
      StillOnePrimary(ms, m, u);
    }
  }

  /** Further mappings without a primary one keep everyone's count. */
  lemma {:induction false} OthersKeepPrimary(b: Batch, ms: seq<Mapping>, u: int)
    requires forall i :: 0 <= i < |ms| ==> !IsPrimary(ms[i], u)
    ensures OnePrimary(b.mappings, u) ==> OnePrimary(AddMappings(b, ms).mappings, u)
    ensures NoPrimary(b.mappings, u) ==> NoPrimary(AddMappings(b, ms).mappings, u)
  {
    if |ms| != 0 {
      var before := AddMappings(b, ms[..|ms|-1]);
      assert forall i :: 0 <= i < |ms| - 1 ==> ms[..|ms|-1][i] == ms[i];
      OthersKeepPrimary(b, ms[..|ms|-1], u);
      PrimarySnoc(before.mappings, ms[|ms|-1], u);
    }
  }

  lemma {:induction false} FirstThenRest(b: Batch, m: Mapping, ms: seq<Mapping>)
    ensures AddMappings(b, [m] + ms) == AddMappings(AddMapping(b, m), ms)
  {
    if |ms| == 0 {
      assert ([m] + ms)[..0] == [];
    } else {
      FirstThenRest(b, m, ms[..|ms|-1]);
      assert ([m] + ms)[..|ms|] == [m] + ms[..|ms|-1];
    }
  }

  /** The fresh account of a voter gets its one primary mapping, everyone else keeps his. */
  lemma CreateWell(b: Batch, v: Voter, losers: seq<string>, next0: int)
    requires WellCreated(b, next0) && v.legacyId !in b.mapped
    ensures var user := b.nextUser;
            var created :=
              b.(users := b.users + [user], identities := b.identities + IdentityRows(v, user), nextUser := user + 1);
            WellCreated(AddMappings(created,
                [Mapping(v.legacyId, user, Primary)] + Map(losers, MappingTo(user, Duplicate))), next0)
  {
    var user := b.nextUser;
    var created :=
      b.(users := b.users + [user], identities := b.identities + IdentityRows(v, user), nextUser := user + 1);
    var first, rest := Mapping(v.legacyId, user, Primary), Map(losers, MappingTo(user, Duplicate));
    var b1 := AddMapping(created, first);
    FirstThenRest(created, first, rest);
    AddMappingsFrame(b1, rest);
    forall u
      ensures next0 <= u < user + 1 ==> OnePrimary(AddMappings(b1, rest).mappings, u)
      ensures u < next0 || u >= user + 1 ==> NoPrimary(AddMappings(b1, rest).mappings, u)
    {
      PrimarySnoc(b.mappings, first, u);
      OthersKeepPrimary(b1, rest, u);
    }
  }

  lemma ConflictWell(b: Batch, ids: seq<string>, owner: int, next0: int)
    requires WellCreated(b, next0)
    ensures WellCreated(AddMappings(b, Map(ids, MappingTo(owner, ConflictExisting))), next0)
  {
    var ms := Map(ids, MappingTo(owner, ConflictExisting));
    AddMappingsFrame(b, ms);
    forall u
      ensures OnePrimary(b.mappings, u) ==> OnePrimary(AddMappings(b, ms).mappings, u)
      ensures NoPrimary(b.mappings, u) ==> NoPrimary(AddMappings(b, ms).mappings, u)
    {
      OthersKeepPrimary(b, ms, u);
    }
  }

  lemma ProcessWell(b: Batch, v: Voter, existing: map<Key, int>, losersOf: map<string, seq<string>>,
                    mapped0: set<string>, next0: int)
    requires WellMapped(b, mapped0) && WellCreated(b, next0)
    ensures WellMapped(Process(b, v, existing, losersOf), mapped0) &&
            WellCreated(Process(b, v, existing, losersOf), next0)
  {
    if v.legacyId !in b.mapped {
      var losers := LosersOf(losersOf, v.legacyId);
      match Classify(v, existing) {
        case Multi =>
        case Conflict(owner) =>
          AddMappingsWell(b, Map([v.legacyId] + losers, MappingTo(owner, ConflictExisting)), mapped0);
          ConflictWell(b, [v.legacyId] + losers, owner, next0);
        case Create =>
          var user := b.nextUser;
          var created :=
            b.(users := b.users + [user], identities := b.identities + IdentityRows(v, user), nextUser := user + 1);
          AddMappingsWell(created, [Mapping(v.legacyId, user, Primary)] + Map(losers, MappingTo(user, Duplicate)),
                          mapped0);
          CreateWell(b, v, losers, next0);
      }
    }
  }

  /** A whole batch maps new ids only, each once, and gives each account it creates exactly one primary
      mapping. */
  lemma {:induction false} BatchWell(vs: seq<Voter>, existing: map<Key, int>, losersOf: map<string, seq<string>>,
                                     mapped0: set<string>, next0: int)
    ensures var b := ProcessAll(Batch([], [], [], mapped0, next0), vs, existing, losersOf);
            WellMapped(b, mapped0) && WellCreated(b, next0)
  {
    if |vs| != 0 {
      var n := |vs| - 1;
      BatchWell(vs[..n], existing, losersOf, mapped0, next0);
      ProcessWell(ProcessAll(Batch([], [], [], mapped0, next0), vs[..n], existing, losersOf), vs[n], existing, losersOf,
                  mapped0, next0);
    }
  }

  /** A voter that needs nothing any more: mapped, or claimed by two accounts. */
  predicate Done(v: Voter, mapped: set<string>, existing: map<Key, int>) {
    v.legacyId in mapped || Classify(v, existing) == Multi
  }

  /** After a batch every voter in it is done. */
  lemma {:induction false} BatchFinishes(b: Batch, vs: seq<Voter>, existing: map<Key, int>,
                                         losersOf: map<string, seq<string>>, i: nat)
    requires i < |vs|
    ensures Done(vs[i], ProcessAll(b, vs, existing, losersOf).mapped, existing)
    ensures b.mapped <= ProcessAll(b, vs, existing, losersOf).mapped
  {
    var n := |vs| - 1;
    var before := ProcessAll(b, vs[..n], existing, losersOf);
    ProcessFinishes(before, vs[n], existing, losersOf);
    if i < n {
      BatchFinishes(b, vs[..n], existing, losersOf, i);
    } else if n > 0 {
      BatchFinishes(b, vs[..n], existing, losersOf, 0);
    }
  }

  lemma ProcessFinishes(b: Batch, v: Voter, existing: map<Key, int>, losersOf: map<string, seq<string>>)
    ensures Done(v, Process(b, v, existing, losersOf).mapped, existing) &&
            b.mapped <= Process(b, v, existing, losersOf).mapped
  {
    if v.legacyId !in b.mapped {
      var losers := LosersOf(losersOf, v.legacyId);
      match Classify(v, existing) {
        case Multi =>
        case Conflict(owner) =>
          var ms := Map([v.legacyId] + losers, MappingTo(owner, ConflictExisting));
          AddMappingsFrame(b, ms);
          assert ms[0].legacyId == v.legacyId;
        case Create =>
          var user := b.nextUser;
          var created :=
            b.(users := b.users + [user], identities := b.identities + IdentityRows(v, user), nextUser := user + 1);
          var ms := [Mapping(v.legacyId, user, Primary)] + Map(losers, MappingTo(user, Duplicate));
          AddMappingsFrame(created, ms);
          assert ms[0].legacyId == v.legacyId;
      }
    }
  }

  /** A batch of voters that are done emits nothing. */
  lemma {:induction false} DoneEmitsNothing(b: Batch, vs: seq<Voter>, existing: map<Key, int>,
                                            losersOf: map<string, seq<string>>)
    requires forall i :: 0 <= i < |vs| ==> Done(vs[i], b.mapped, existing)
    ensures ProcessAll(b, vs, existing, losersOf) == b
  {
    if |vs| != 0 {
      DoneEmitsNothing(b, vs[..|vs|-1], existing, losersOf);
      assert Done(vs[|vs|-1], b.mapped, existing);
    }
  }

  // ---------- the import ----------

  /** `_existing_identities`: the accounts that hold an address or phone of these voters. */
  function ExistingFor(t: Tables, vs: seq<Voter>): map<Key, int> {
    map key | key in t.identities && Asked(vs, key) :: t.identities[key].user
  }

  predicate Asked(vs: seq<Voter>, key: Key) {
    exists i :: 0 <= i < |vs| && ((key.0 == EmailProvider && Truthy(vs[i].email) && vs[i].email.value == key.1)
                                  || (key.0 == PhoneProvider && Truthy(vs[i].phone) && vs[i].phone.value == key.1))
  }

  function Owners(t: Tables): map<Key, int> { map key | key in t.identities :: t.identities[key].user }

  /** Asking for a batch's own voters is enough to classify them. */
  lemma {:induction false} ClassifyFor(t: Tables, vs: seq<Voter>, i: nat)
    requires i < |vs|
    ensures Classify(vs[i], ExistingFor(t, vs)) == Classify(vs[i], Owners(t))
  {
    if Truthy(vs[i].email) {
      assert Asked(vs, (EmailProvider, vs[i].email.value));
    }
    if Truthy(vs[i].phone) {
      assert Asked(vs, (PhoneProvider, vs[i].phone.value));
    }
  }

  /** The unique index on (provider, subject) admits the rows. */
  ghost predicate NoClash(t: Tables, rows: seq<IdentityRow>) {
    && (forall i :: 0 <= i < |rows| ==> rows[i].key !in t.identities)
    && (forall i, j :: 0 <= i < j < |rows| ==> rows[i].key != rows[j].key)
  }

  function AddIdentities(ids: map<Key, IdentityRow>, rows: seq<IdentityRow>): map<Key, IdentityRow> {
    if |rows| == 0 then ids else AddIdentities(ids, rows[..|rows|-1])[rows[|rows|-1].key := rows[|rows|-1]]
  }

  function AddMappingRows(ms: map<string, Mapping>, rows: seq<Mapping>): map<string, Mapping> {
    if |rows| == 0 then ms else AddMappingRows(ms, rows[..|rows|-1])[rows[|rows|-1].legacyId := rows[|rows|-1]]
  }

  function Inserted(t: Tables, b: Batch): Tables {
    Tables(t.users + (set u | u in b.users), AddIdentities(t.identities, b.identities),
           AddMappingRows(t.mappings, b.mappings), b.nextUser)
  }

  /** Nothing that was stored is lost or changed. */
  ghost predicate Extends(t: Tables, t': Tables) {
    && t.users <= t'.users && t.nextUser <= t'.nextUser
    && (forall key :: key in t.identities ==> key in t'.identities && t'.identities[key] == t.identities[key])
    && (forall id :: id in t.mappings ==> id in t'.mappings && t'.mappings[id] == t.mappings[id])
  }

  lemma {:induction false} IdentitiesAdded(ids: map<Key, IdentityRow>, rows: seq<IdentityRow>)
    requires forall i :: 0 <= i < |rows| ==> rows[i].key !in ids
    ensures forall key :: key in ids ==> key in AddIdentities(ids, rows) && AddIdentities(ids, rows)[key] == ids[key]
  {
    if |rows| != 0 {
      assert forall i :: 0 <= i < |rows| - 1 ==> rows[..|rows|-1][i] == rows[i];
      IdentitiesAdded(ids, rows[..|rows|-1]);
      assert rows[|rows|-1].key !in ids;
    }
  }

  lemma {:induction false} MappingsAdded(ms: map<string, Mapping>, rows: seq<Mapping>)
    requires forall i :: 0 <= i < |rows| ==> rows[i].legacyId !in ms
    ensures forall id :: id in ms ==> id in AddMappingRows(ms, rows) && AddMappingRows(ms, rows)[id] == ms[id]
    ensures forall id :: id in AddMappingRows(ms, rows) <==> id in ms || MappedIn(rows, id)
    ensures forall id :: id in AddMappingRows(ms, rows) ==>
              id in ms || (AddMappingRows(ms, rows)[id] in rows && AddMappingRows(ms, rows)[id].legacyId == id)
  {
    if |rows| != 0 {
      var front, r := rows[..|rows|-1], rows[|rows|-1];
      assert forall i :: 0 <= i < |front| ==> front[i] == rows[i];
      MappingsAdded(ms, front);
      assert r.legacyId !in ms;
      forall id ensures MappedIn(rows, id) <==> MappedIn(front, id) || r.legacyId == id {
        if i :| 0 <= i < |front| && front[i].legacyId == id {
          assert rows[i].legacyId == id;
        }
      }
    }
  }

  /** Inserting a processed batch only adds. */
  lemma InsertExtends(t: Tables, b: Batch)
    requires WellMapped(b, t.mappings.Keys) && WellCreated(b, t.nextUser) && NoClash(t, b.identities)
    ensures Extends(t, Inserted(t, b)) && Inserted(t, b).mappings.Keys == b.mapped
  {
    IdentitiesAdded(t.identities, b.identities);
    MappingsAdded(t.mappings, b.mappings);
  }

  predicate PrimaryId(t: Tables, u: int, id: string) { id in t.mappings && IsPrimary(t.mappings[id], u) }

  /** The account has exactly one primary legacy id. */
  ghost predicate OnePrimaryId(t: Tables, u: int) {
    exists id :: PrimaryId(t, u, id) && forall id' :: PrimaryId(t, u, id') ==> id' == id
  }

  /** Primary mappings belong to accounts that have been handed out. */
  ghost predicate PrimaryBounded(t: Tables) { forall u, id :: PrimaryId(t, u, id) ==> u < t.nextUser }

  /** Where a primary mapping of the extended table comes from. */
  lemma PrimaryOrigin(t: Tables, b: Batch, u: int, id: string)
    requires WellMapped(b, t.mappings.Keys)
    ensures PrimaryId(Inserted(t, b), u, id) <==>
            PrimaryId(t, u, id) ||
            exists i :: 0 <= i < |b.mappings| && b.mappings[i].legacyId == id && IsPrimary(b.mappings[i], u)
  {
    MappingsAdded(t.mappings, b.mappings);
    var t' := Inserted(t, b);
    if i :| 0 <= i < |b.mappings| && b.mappings[i].legacyId == id && IsPrimary(b.mappings[i], u) {
      assert MappedIn(b.mappings, id) && id !in t.mappings;
      var j :| 0 <= j < |b.mappings| && b.mappings[j] == t'.mappings[id];
      assert j == i;
    }
    if PrimaryId(t', u, id) && id !in t.mappings {
      var j :| 0 <= j < |b.mappings| && b.mappings[j] == t'.mappings[id];
    }
  }

  lemma InsertPrimary(t: Tables, b: Batch, u: int)
    requires WellMapped(b, t.mappings.Keys) && WellCreated(b, t.nextUser) && PrimaryBounded(t)
    ensures t.nextUser <= u < b.nextUser || (u < t.nextUser && OnePrimaryId(t, u)) ==> OnePrimaryId(Inserted(t, b), u)
  {
    var t' := Inserted(t, b);
    if t.nextUser <= u < b.nextUser {
      assert OnePrimary(b.mappings, u);
      var i :| OnlyPrimaryAt(b.mappings, u, i);
      assert IsPrimary(b.mappings[i], u);
      var id := b.mappings[i].legacyId;
      PrimaryOrigin(t, b, u, id);
      forall id' | PrimaryId(t', u, id') ensures id' == id {
        PrimaryOrigin(t, b, u, id');
      }
      assert PrimaryId(t', u, id);
    } else if u < t.nextUser && OnePrimaryId(t, u) {
      assert NoPrimary(b.mappings, u);
      var id :| PrimaryId(t, u, id) && forall id' :: PrimaryId(t, u, id') ==> id' == id;
      PrimaryOrigin(t, b, u, id);
      forall id' | PrimaryId(t', u, id') ensures id' == id {
        PrimaryOrigin(t, b, u, id');
      }
      assert PrimaryId(t', u, id);
    }
  }

  lemma InsertBounded(t: Tables, b: Batch)
    requires WellMapped(b, t.mappings.Keys) && WellCreated(b, t.nextUser) && PrimaryBounded(t)
    ensures PrimaryBounded(Inserted(t, b))
  {
    forall u, id | PrimaryId(Inserted(t, b), u, id) ensures u < b.nextUser {
      assert u < b.nextUser || NoPrimary(b.mappings, u);
      PrimaryOrigin(t, b, u, id);
    }
  }

  /** Every account handed out since `next0` has exactly one primary legacy id. */
  ghost predicate PrimariesSince(t: Tables, next0: int) {
    PrimaryBounded(t) && next0 <= t.nextUser && forall u :: next0 <= u < t.nextUser ==> OnePrimaryId(t, u)
  }

  lemma InsertPrimaries(t: Tables, b: Batch, next0: int)
    requires WellMapped(b, t.mappings.Keys) && WellCreated(b, t.nextUser) && PrimariesSince(t, next0)
    ensures PrimariesSince(Inserted(t, b), next0)
  {
    InsertBounded(t, b);
    forall u | next0 <= u < b.nextUser ensures OnePrimaryId(Inserted(t, b), u) {
      InsertPrimary(t, b, u);
    }
  }

  /** Done for good: more rows cannot undo it. */
  lemma DoneStays(t: Tables, t': Tables, v: Voter)
    requires Extends(t, t') && Done(v, t.mappings.Keys, Owners(t))
    ensures Done(v, t'.mappings.Keys, Owners(t'))
  {
  }

  // ---------- whose identities ----------

  /** The subject belongs to the account, verified or not. */
  predicate HasRow(t: Tables, p: Provider, subject: Option<string>, u: int, verified: bool) {
    subject.Some? ==>
      (p, subject.value) in t.identities &&
        t.identities[(p, subject.value)] == IdentityRow(u, (p, subject.value), verified)
  }

  /** The account has no other subject with the provider. */
  ghost predicate OnlySubject(t: Tables, p: Provider, u: int, subject: Option<string>) {
    forall x :: (p, x) in t.identities && t.identities[(p, x)].user == u ==> subject == Some(x)
  }

  /** Account `u` is the survivor's: his legacy id is its primary one, and its identities are his address and
      phone, verified as he has them, and his QQ and wiki accounts, always verified, and nothing else. */
  ghost predicate AccountOf(t: Tables, u: int, v: Voter) {
    && PrimaryId(t, u, v.legacyId)
    && HasRow(t, EmailProvider, v.email, u, v.emailVerified) && OnlySubject(t, EmailProvider, u, v.email)
    && HasRow(t, PhoneProvider, v.phone, u, v.phoneVerified) && OnlySubject(t, PhoneProvider, u, v.phone)
    && HasRow(t, QqProvider, v.qq, u, true) && OnlySubject(t, QqProvider, u, v.qq)
    && HasRow(t, WikiProvider, v.wiki, u, true) && OnlySubject(t, WikiProvider, u, v.wiki)
  }

  /** Every account handed out since `next0` is one survivor's. */
  ghost predicate AccountsSince(t: Tables, next0: int, winners: seq<Voter>) {
    IdentitiesBounded(t) && forall u :: next0 <= u < t.nextUser ==> IsSomeones(t, u, winners)
  }

  ghost predicate IsSomeones(t: Tables, u: int, winners: seq<Voter>) {
    exists i :: 0 <= i < |winners| && AccountOf(t, u, winners[i])
  }

  /** Identities belong to accounts that have been handed out. */
  ghost predicate IdentitiesBounded(t: Tables) {
    forall key :: key in t.identities ==> t.identities[key].user < t.nextUser
  }

  /** The batch gives account `u` the survivor's identities, and his legacy id as the primary one. */
  ghost predicate BatchAccount(b: Batch, u: int, v: Voter) {
    && Mapping(v.legacyId, u, Primary) in b.mappings
    && forall r :: r in b.identities && r.user == u <==> r in IdentityRows(v, u)
  }

  ghost predicate BatchAccounts(b: Batch, next0: int, vs: seq<Voter>) {
    && next0 <= b.nextUser && (forall r :: r in b.identities ==> next0 <= r.user < b.nextUser)
    && forall u :: next0 <= u < b.nextUser ==> IsForSome(b, u, vs)
  }

  ghost predicate IsForSome(b: Batch, u: int, vs: seq<Voter>) {
    exists i :: 0 <= i < |vs| && BatchAccount(b, u, vs[i])
  }

  lemma {:induction false} MappingsKept(b: Batch, ms: seq<Mapping>)
    ensures forall m :: m in b.mappings ==> m in AddMappings(b, ms).mappings
  {
    if |ms| != 0 {
      MappingsKept(b, ms[..|ms|-1]);
    }
  }

  lemma RowsAreHis(v: Voter, u: int)
    ensures forall r :: r in IdentityRows(v, u) ==> r.user == u
  {
  }

  lemma ProcessAccounts(b: Batch, v: Voter, existing: map<Key, int>, losersOf: map<string, seq<string>>, next0: int,
                        vs: seq<Voter>)
    requires BatchAccounts(b, next0, vs)
    ensures BatchAccounts(Process(b, v, existing, losersOf), next0, vs + [v])
  {
    var b' := Process(b, v, existing, losersOf);
    if v.legacyId !in b.mapped && Classify(v, existing) == Create {
      CreateAccount(b, v, LosersOf(losersOf, v.legacyId));
      CreateFrame(b, b', v);
    } else {
      OtherwiseFrame(b, v, existing, losersOf);
    }
    GrowAccounts(b, b', next0, vs, v);
  }

  lemma CreateFrame(b: Batch, b': Batch, v: Voter)
    requires forall r :: r in b'.identities <==> r in b.identities || r in IdentityRows(v, b.nextUser)
    requires forall r :: r in IdentityRows(v, b.nextUser) ==> r.user == b.nextUser
    ensures forall r: IdentityRow :: r.user < b.nextUser ==> (r in b'.identities <==> r in b.identities)
    ensures forall r :: r in b'.identities ==> r in b.identities || r.user == b.nextUser
  {
  }

  /** The accounts so far stay as they are, and the one created for `v`, if any, is his. */
  lemma GrowAccounts(b: Batch, b': Batch, next0: int, vs: seq<Voter>, v: Voter)
    requires BatchAccounts(b, next0, vs)
    requires b'.nextUser == b.nextUser || (b'.nextUser == b.nextUser + 1 && BatchAccount(b', b.nextUser, v))
    requires forall m :: m in b.mappings ==> m in b'.mappings
    requires forall r: IdentityRow :: r.user < b.nextUser ==> (r in b'.identities <==> r in b.identities)
    requires forall r :: r in b'.identities ==> r in b.identities || b.nextUser <= r.user < b'.nextUser
    ensures BatchAccounts(b', next0, vs + [v])
  {
    forall u | next0 <= u < b'.nextUser ensures IsForSome(b', u, vs + [v]) {
      if u < b.nextUser {
        StillForSome(b, b', u, vs, v);
      } else {
        assert (vs + [v])[|vs|] == v;
      }
    }
  }

  lemma StillForSome(b: Batch, b': Batch, u: int, vs: seq<Voter>, v: Voter)
    requires IsForSome(b, u, vs) && forall m :: m in b.mappings ==> m in b'.mappings
    requires forall r: IdentityRow :: r.user == u ==> (r in b'.identities <==> r in b.identities)
    ensures IsForSome(b', u, vs + [v])
  {
    var i :| 0 <= i < |vs| && BatchAccount(b, u, vs[i]);
    assert (vs + [v])[i] == vs[i];
    forall r: IdentityRow | r in IdentityRows(vs[i], u) ensures r.user == u {
      RowsAreHis(vs[i], u);
    }
    assert BatchAccount(b', u, (vs + [v])[i]);
  }

  lemma OtherwiseFrame(b: Batch, v: Voter, existing: map<Key, int>, losersOf: map<string, seq<string>>)
    requires v.legacyId in b.mapped || Classify(v, existing) != Create
    ensures var b' := Process(b, v, existing, losersOf);
            && b'.identities == b.identities && b'.nextUser == b.nextUser
            && forall m :: m in b.mappings ==> m in b'.mappings
  {
    if v.legacyId !in b.mapped && Classify(v, existing).Conflict? {
      var ms :=
        Map([v.legacyId] + LosersOf(losersOf, v.legacyId), MappingTo(Classify(v, existing).owner, ConflictExisting));
      AddMappingsFrame(b, ms);
      MappingsKept(b, ms);
    }
  }

  lemma CreateAccount(b: Batch, v: Voter, losers: seq<string>)
    requires v.legacyId !in b.mapped && forall r :: r in b.identities ==> r.user < b.nextUser
    ensures var user := b.nextUser;
            var created :=
              b.(users := b.users + [user], identities := b.identities + IdentityRows(v, user), nextUser := user + 1);
            var b' :=
              AddMappings(created, [Mapping(v.legacyId, user, Primary)] + Map(losers, MappingTo(user, Duplicate)));
            && b'.nextUser == user + 1 && BatchAccount(b', user, v)
            && (forall m :: m in b.mappings ==> m in b'.mappings)
            && (forall r :: r in b'.identities <==> r in b.identities || r in IdentityRows(v, user))
            && (forall r :: r in IdentityRows(v, user) ==> r.user == user)
  {
    var user := b.nextUser;
    var created :=
      b.(users := b.users + [user], identities := b.identities + IdentityRows(v, user), nextUser := user + 1);
    var first, rest := Mapping(v.legacyId, user, Primary), Map(losers, MappingTo(user, Duplicate));
    FirstThenRest(created, first, rest);
    AddMappingsFrame(AddMapping(created, first), rest);
    MappingsKept(AddMapping(created, first), rest);
    assert first in AddMapping(created, first).mappings;
    RowsAreHis(v, user);
  }

  /** A batch hands out accounts to survivors of its own, each with his identities. */
  lemma {:induction false} BatchHandsOut(vs: seq<Voter>, existing: map<Key, int>, losersOf: map<string, seq<string>>,
                                         mapped0: set<string>, next0: int)
    ensures BatchAccounts(ProcessAll(Batch([], [], [], mapped0, next0), vs, existing, losersOf), next0, vs)
  {
    if |vs| != 0 {
      var n := |vs| - 1;
      BatchHandsOut(vs[..n], existing, losersOf, mapped0, next0);
      var before := ProcessAll(Batch([], [], [], mapped0, next0), vs[..n], existing, losersOf);
      ProcessAccounts(before, vs[n], existing, losersOf, next0, vs[..n]);
      assert vs[..n] + [vs[n]] == vs;
    }
  }

  lemma {:induction false} IdentityStored(ids: map<Key, IdentityRow>, rows: seq<IdentityRow>, r: IdentityRow)
    requires forall i, j :: 0 <= i < j < |rows| ==> rows[i].key != rows[j].key
    requires r in rows
    ensures r.key in AddIdentities(ids, rows) && AddIdentities(ids, rows)[r.key] == r
  {
    var n := |rows| - 1;
    if r != rows[n] {
      var i :| 0 <= i < n && rows[i] == r;
      assert rows[..n][i] == r;
      IdentityStored(ids, rows[..n], r);
    }
  }

  lemma {:induction false} IdentityFrom(ids: map<Key, IdentityRow>, rows: seq<IdentityRow>, key: Key)
    requires key in AddIdentities(ids, rows)
    ensures (key in ids && AddIdentities(ids, rows)[key] == ids[key]) ||
            (AddIdentities(ids, rows)[key] in rows && AddIdentities(ids, rows)[key].key == key)
  {
    if |rows| != 0 && key != rows[|rows|-1].key {
      IdentityFrom(ids, rows[..|rows|-1], key);
    }
  }

  /** An account of the batch is the survivor's once the batch is inserted. */
  lemma InsertedAccount(t: Tables, b: Batch, u: int, v: Voter)
    requires WellMapped(b, t.mappings.Keys) && NoClash(t, b.identities) && BatchAccount(b, u, v)
    requires forall key :: key in t.identities ==> t.identities[key].user != u
    ensures AccountOf(Inserted(t, b), u, v)
  {
    var t' := Inserted(t, b);
    InsertedPrimary(t, b, u, v);
    InsertedRows(t, b, u, v);
    RowsMean(v, u);
    forall p, x | (p, x) in t'.identities && t'.identities[(p, x)].user == u
      ensures match p
              case EmailProvider => v.email == Some(x)
              case PhoneProvider => v.phone == Some(x)
              case QqProvider => v.qq == Some(x)
              case WikiProvider => v.wiki == Some(x)
    {
      assert t'.identities[(p, x)] in IdentityRows(v, u) && t'.identities[(p, x)].key == (p, x);
    }
  }

  lemma InsertedPrimary(t: Tables, b: Batch, u: int, v: Voter)
    requires WellMapped(b, t.mappings.Keys) && BatchAccount(b, u, v)
    ensures PrimaryId(Inserted(t, b), u, v.legacyId)
  {
    PrimaryOrigin(t, b, u, v.legacyId);
    var j :| 0 <= j < |b.mappings| && b.mappings[j] == Mapping(v.legacyId, u, Primary);
    assert IsPrimary(b.mappings[j], u);
  }

  lemma InsertedRows(t: Tables, b: Batch, u: int, v: Voter)
    requires NoClash(t, b.identities) && BatchAccount(b, u, v)
    requires forall key :: key in t.identities ==> t.identities[key].user != u
    ensures var ids := Inserted(t, b).identities;
            && (forall r :: r in IdentityRows(v, u) ==> r.key in ids && ids[r.key] == r)
            && (forall key :: key in ids && ids[key].user == u ==>
                  ids[key] in IdentityRows(v, u) && ids[key].key == key)
  {
    var ids := Inserted(t, b).identities;
    forall r | r in IdentityRows(v, u) ensures r.key in ids && ids[r.key] == r {
      IdentityStored(t.identities, b.identities, r);
    }
    forall key | key in ids && ids[key].user == u ensures ids[key] in IdentityRows(v, u) && ids[key].key == key {
      IdentityFrom(t.identities, b.identities, key);
    }
  }

  /** What the rows of a survivor are. */
  lemma RowsMean(v: Voter, u: int)
    ensures forall p, x, r :: r in IdentityRows(v, u) && r.key == (p, x) ==>
              match p
              case EmailProvider => v.email == Some(x)
              case PhoneProvider => v.phone == Some(x)
              case QqProvider => v.qq == Some(x)
              case WikiProvider => v.wiki == Some(x)
    ensures v.email.Some? ==> IdentityRow(u, (EmailProvider, v.email.value), v.emailVerified) in IdentityRows(v, u)
    ensures v.phone.Some? ==> IdentityRow(u, (PhoneProvider, v.phone.value), v.phoneVerified) in IdentityRows(v, u)
    ensures v.qq.Some? ==> IdentityRow(u, (QqProvider, v.qq.value), true) in IdentityRows(v, u)
    ensures v.wiki.Some? ==> IdentityRow(u, (WikiProvider, v.wiki.value), true) in IdentityRows(v, u)
  {
  }

  /** An account stays the survivor's when a batch is inserted. */
  lemma AccountStays(t: Tables, b: Batch, u: int, v: Voter)
    requires WellMapped(b, t.mappings.Keys) && NoClash(t, b.identities) && AccountOf(t, u, v)
    requires forall r :: r in b.identities ==> r.user != u
    ensures AccountOf(Inserted(t, b), u, v)
  {
    var t' := Inserted(t, b);
    PrimaryOrigin(t, b, u, v.legacyId);
    IdentitiesAdded(t.identities, b.identities);
    forall key | key in t'.identities && t'.identities[key].user == u
      ensures key in t.identities && t.identities[key].user == u
    {
      IdentityFrom(t.identities, b.identities, key);
    }
  }

  lemma InsertAccounts(t: Tables, b: Batch, next0: int, chunk: seq<Voter>, winners: seq<Voter>)
    requires WellMapped(b, t.mappings.Keys) && NoClash(t, b.identities) && BatchAccounts(b, t.nextUser, chunk)
    requires AccountsSince(t, next0, winners) && forall v :: v in chunk ==> v in winners
    ensures AccountsSince(Inserted(t, b), next0, winners)
  {
    var t' := Inserted(t, b);
    forall key | key in t'.identities ensures t'.identities[key].user < t'.nextUser {
      IdentityFrom(t.identities, b.identities, key);
    }
    forall u | next0 <= u < t'.nextUser ensures IsSomeones(t', u, winners) {
      if u < t.nextUser {
        assert IsSomeones(t, u, winners);
        var i :| 0 <= i < |winners| && AccountOf(t, u, winners[i]);
        AccountStays(t, b, u, winners[i]);
      } else {
        assert IsForSome(b, u, chunk);
        var i :| 0 <= i < |chunk| && BatchAccount(b, u, chunk[i]);
        InsertedAccount(t, b, u, chunk[i]);
        assert chunk[i] in winners;
      }
    }
  }

  datatype ImportError = DuplicateIdentity

  datatype Stats = Stats(users: nat, mappings: nat)

  class Accounts {
    var users: set<int>
    var identities: map<Key, IdentityRow>
    var mappings: map<string, Mapping>
    var nextUser: int

    constructor ()
      ensures Contents() == Tables({}, map[], map[], 0)
    {
      users, identities, mappings, nextUser := {}, map[], map[], 0;
    }

    function Contents(): Tables
      reads this
    {
      Tables(users, identities, mappings, nextUser)
    }

    /** The identity rows, stopping at the first clash. */
    method AddedIdentities(rows: seq<IdentityRow>) returns (ok: bool, added: map<Key, IdentityRow>)
      ensures ok <==> NoClash(Contents(), rows)
      ensures ok ==> added == AddIdentities(identities, rows)
    {
      added := identities;
      for n := 0 to |rows|
        invariant NoClash(Contents(), rows[..n])
        invariant added == AddIdentities(identities, rows[..n])
        invariant forall key :: key in added <==> key in identities || exists i :: 0 <= i < n && rows[i].key == key
      {
        assert rows[..n+1][..n] == rows[..n];
        if rows[n].key in added {
          return false, added;
        }
        added := added[rows[n].key := rows[n]];
      }
      assert rows[..|rows|] == rows;
      ok := true;
    }

    method AddedMappings(rows: seq<Mapping>) returns (mapped: map<string, Mapping>)
      ensures mapped == AddMappingRows(mappings, rows)
    {
      mapped := mappings;
      for n := 0 to |rows|
        invariant mapped == AddMappingRows(mappings, rows[..n])
      {
        assert rows[..n+1][..n] == rows[..n];
        mapped := mapped[rows[n].legacyId := rows[n]];
      }
      assert rows[..|rows|] == rows;
    }

    /** The inserts of one batch in one transaction. */
    method Insert(b: Batch) returns (ok: bool)
      modifies this
      ensures ok <==> NoClash(old(Contents()), b.identities)
      ensures Contents() == if ok then Inserted(old(Contents()), b) else old(Contents())
    {
      var admitted, added := AddedIdentities(b.identities);
      if !admitted {
        return false;
      }
      var mapped := AddedMappings(b.mappings);
      users, identities, mappings, nextUser := users + (set u | u in b.users), added, mapped, b.nextUser;
      ok := true;
    }

    /** The committing import: batch after batch, each in its own transaction, until one fails.  Earlier rows
        stay, every account created has exactly one primary legacy id; on success every survivor is done
        and the figures are what was added; if everyone was done before, nothing is added at all. */
    method Import(winners: seq<Voter>, losersOf: map<string, seq<string>>, batchSize: nat)
        returns (r: Result<Stats, ImportError>)
      requires batchSize > 0
      modifies this
      ensures Imported(old(Contents()), winners, losersOf, batchSize) == Outcome(Contents(), r.Ok?)
      ensures Extends(old(Contents()), Contents())
      ensures r.Ok? ==> AllDone(winners, Contents())
      ensures AllDone(winners, old(Contents())) ==> r == Ok(Stats(0, 0)) && Contents() == old(Contents())
      ensures PrimaryBounded(old(Contents())) ==> PrimariesSince(Contents(), old(nextUser))
      ensures IdentitiesBounded(old(Contents())) ==> AccountsSince(Contents(), old(nextUser), winners)
      ensures r.Ok? ==> r.value.users == nextUser - old(nextUser) && r.value.mappings == |mappings| - |old(mappings)|
    {
      ghost var before := Contents();
      ImportGuarantees(before, winners, losersOf, batchSize);
      var stats := Stats(0, 0);
      var start := 0;
      assert winners[0..] == winners;
      while start < |winners|
        invariant 0 <= start <= |winners|
        invariant Imported(before, winners, losersOf, batchSize) ==
                  Imported(Contents(), winners[start..], losersOf, batchSize)
        invariant stats.users == nextUser - before.nextUser && stats.mappings == |mappings| - |before.mappings|
      {
        var end := if start + batchSize <= |winners| then start + batchSize else |winners|;
        var chunk := winners[start..end];
        var t := Contents();
        var b := ProcessBatch(chunk, losersOf, ExistingFor(t, chunk), mappings.Keys, nextUser);
        ImportedStep(t, winners, losersOf, batchSize, start, end);
        BatchSize(t, chunk, losersOf);
        var ok := Insert(b);
        if !ok {
          return Err(DuplicateIdentity);
        }
        stats := Stats(stats.users + |b.users|, stats.mappings + |b.mappings|);
        start := end;
      }
      r := Ok(stats);
    }
  }

  // ---------- what an import does ----------

  /** The batch computed for some survivors against the tables. */
  function BatchOf(t: Tables, chunk: seq<Voter>, losersOf: map<string, seq<string>>): Batch {
    ProcessAll(Batch([], [], [], t.mappings.Keys, t.nextUser), chunk, ExistingFor(t, chunk), losersOf)
  }

  datatype Outcome = Outcome(tables: Tables, ok: bool)

  /** The tables an import leaves, and whether it got through. */
  ghost function Imported(t: Tables, winners: seq<Voter>, losersOf: map<string, seq<string>>, batchSize: nat): Outcome
    requires batchSize > 0
    decreases |winners|
  {
    if |winners| == 0 then Outcome(t, true) else
      var n := if batchSize <= |winners| then batchSize else |winners|;
      var b := BatchOf(t, winners[..n], losersOf);
      if NoClash(t, b.identities) then Imported(Inserted(t, b), winners[n..], losersOf, batchSize)
        else Outcome(t, false)
  }

  /** One pass of the loop. */
  lemma ImportedStep(t: Tables, winners: seq<Voter>, losersOf: map<string, seq<string>>, batchSize: nat, start: nat,
                     end: nat)
    requires batchSize > 0 && start < |winners|
    requires end == if start + batchSize <= |winners| then start + batchSize else |winners|
    ensures var b := BatchOf(t, winners[start..end], losersOf);
            Imported(t, winners[start..], losersOf, batchSize) ==
              if NoClash(t, b.identities) then Imported(Inserted(t, b), winners[end..], losersOf, batchSize)
                else Outcome(t, false)
  {
    var rest := winners[start..];
    assert rest[..end - start] == winners[start..end] && rest[end - start..] == winners[end..];
  }

  lemma {:induction false} MappingCount(ms: map<string, Mapping>, rows: seq<Mapping>)
    requires forall i :: 0 <= i < |rows| ==> rows[i].legacyId !in ms
    requires forall i, j :: 0 <= i < j < |rows| ==> rows[i].legacyId != rows[j].legacyId
    ensures |AddMappingRows(ms, rows)| == |ms| + |rows|
  {
    if |rows| != 0 {
      var front, r := rows[..|rows|-1], rows[|rows|-1];
      assert forall i :: 0 <= i < |front| ==> front[i] == rows[i];
      MappingCount(ms, front);
      MappingsAdded(ms, front);
      var before := AddMappingRows(ms, front);
      assert r.legacyId !in before;
      assert before[r.legacyId := r].Keys == before.Keys + {r.legacyId};
    }
  }

  /** What a batch adds to the tables is what it counts. */
  lemma BatchSize(t: Tables, chunk: seq<Voter>, losersOf: map<string, seq<string>>)
    ensures var b := BatchOf(t, chunk, losersOf);
            b.nextUser == t.nextUser + |b.users| && |Inserted(t, b).mappings| == |t.mappings| + |b.mappings|
  {
    BatchWell(chunk, ExistingFor(t, chunk), losersOf, t.mappings.Keys, t.nextUser);
    MappingCount(t.mappings, BatchOf(t, chunk, losersOf).mappings);
  }

  ghost predicate AllDone(vs: seq<Voter>, t: Tables) {
    forall i :: 0 <= i < |vs| ==> Done(vs[i], t.mappings.Keys, Owners(t))
  }

  /** A batch whose voters are all done emits nothing, and so leaves the tables alone. */
  lemma IdleBatch(t: Tables, chunk: seq<Voter>, losersOf: map<string, seq<string>>)
    requires AllDone(chunk, t)
    ensures NoClash(t, BatchOf(t, chunk, losersOf).identities) && Inserted(t, BatchOf(t, chunk, losersOf)) == t
  {
    var b := Batch([], [], [], t.mappings.Keys, t.nextUser);
    forall i | 0 <= i < |chunk| ensures Done(chunk[i], b.mapped, ExistingFor(t, chunk)) {
      ClassifyFor(t, chunk, i);
    }
    DoneEmitsNothing(b, chunk, ExistingFor(t, chunk), losersOf);
  }

  /** An inserted batch extends the tables and settles its voters. */
  lemma InsertedBatch(t: Tables, chunk: seq<Voter>, losersOf: map<string, seq<string>>)
    requires NoClash(t, BatchOf(t, chunk, losersOf).identities)
    ensures var t' := Inserted(t, BatchOf(t, chunk, losersOf));
            Extends(t, t') && AllDone(chunk, t')
  {
    var b := BatchOf(t, chunk, losersOf);
    BatchWell(chunk, ExistingFor(t, chunk), losersOf, t.mappings.Keys, t.nextUser);
    InsertExtends(t, b);
    var t' := Inserted(t, b);
    forall i | 0 <= i < |chunk| ensures Done(chunk[i], t'.mappings.Keys, Owners(t')) {
      BatchFinishes(Batch([], [], [], t.mappings.Keys, t.nextUser), chunk, ExistingFor(t, chunk), losersOf, i);
      ClassifyFor(t, chunk, i);
      if Classify(chunk[i], Owners(t)) == Multi {
        DoneStays(t, t', chunk[i]);
      }
    }
  }

  lemma StayDone(t: Tables, t': Tables, vs: seq<Voter>)
    requires Extends(t, t') && AllDone(vs, t)
    ensures AllDone(vs, t')
  {
    forall i | 0 <= i < |vs| ensures Done(vs[i], t'.mappings.Keys, Owners(t')) {
      DoneStays(t, t', vs[i]);
    }
  }

  lemma SplitDone(vs: seq<Voter>, n: nat, t: Tables)
    requires n <= |vs|
    ensures AllDone(vs, t) <==> AllDone(vs[..n], t) && AllDone(vs[n..], t)
  {
    forall i | 0 <= i < |vs| ensures vs[i] == if i < n then vs[..n][i] else vs[n..][i - n] {
    }
  }

  /** Whatever happens, an import only adds; when it gets through, every survivor is done. */
  lemma {:induction false} ImportedDone(t: Tables, winners: seq<Voter>, losersOf: map<string, seq<string>>,
                                        batchSize: nat)
    requires batchSize > 0
    ensures var o := Imported(t, winners, losersOf, batchSize);
            Extends(t, o.tables) && (o.ok ==> AllDone(winners, o.tables))
    decreases |winners|
  {
    if |winners| != 0 {
      var n := if batchSize <= |winners| then batchSize else |winners|;
      var b := BatchOf(t, winners[..n], losersOf);
      if NoClash(t, b.identities) {
        var o := Imported(t, winners, losersOf, batchSize);
        InsertedBatch(t, winners[..n], losersOf);
        ImportedDone(Inserted(t, b), winners[n..], losersOf, batchSize);
        StayDone(Inserted(t, b), o.tables, winners[..n]);
        SplitDone(winners, n, o.tables);
      }
    }
  }

  lemma {:induction false} ImportedIdle(t: Tables, winners: seq<Voter>, losersOf: map<string, seq<string>>,
                                        batchSize: nat)
    requires batchSize > 0 && AllDone(winners, t)
    ensures Imported(t, winners, losersOf, batchSize) == Outcome(t, true)
    decreases |winners|
  {
    if |winners| != 0 {
      var n := if batchSize <= |winners| then batchSize else |winners|;
      SplitDone(winners, n, t);
      IdleBatch(t, winners[..n], losersOf);
      ImportedIdle(t, winners[n..], losersOf, batchSize);
    }
  }

  lemma {:induction false} ImportedPrimaries(t: Tables, winners: seq<Voter>, losersOf: map<string, seq<string>>,
                                             batchSize: nat, next0: int)
    requires batchSize > 0 && PrimariesSince(t, next0)
    ensures PrimariesSince(Imported(t, winners, losersOf, batchSize).tables, next0)
    decreases |winners|
  {
    if |winners| != 0 {
      var n := if batchSize <= |winners| then batchSize else |winners|;
      var b := BatchOf(t, winners[..n], losersOf);
      if NoClash(t, b.identities) {
        BatchWell(winners[..n], ExistingFor(t, winners[..n]), losersOf, t.mappings.Keys, t.nextUser);
        InsertPrimaries(t, b, next0);
        ImportedPrimaries(Inserted(t, b), winners[n..], losersOf, batchSize, next0);
      }
    }
  }

  lemma {:induction false} ImportedAccounts(t: Tables, rest: seq<Voter>, losersOf: map<string, seq<string>>,
                                            batchSize: nat, next0: int, winners: seq<Voter>)
    requires batchSize > 0 && AccountsSince(t, next0, winners) && forall v :: v in rest ==> v in winners
    ensures AccountsSince(Imported(t, rest, losersOf, batchSize).tables, next0, winners)
    decreases |rest|
  {
    if |rest| != 0 {
      var n := if batchSize <= |rest| then batchSize else |rest|;
      var b := BatchOf(t, rest[..n], losersOf);
      if NoClash(t, b.identities) {
        BatchWell(rest[..n], ExistingFor(t, rest[..n]), losersOf, t.mappings.Keys, t.nextUser);
        BatchHandsOut(rest[..n], ExistingFor(t, rest[..n]), losersOf, t.mappings.Keys, t.nextUser);
        InsertAccounts(t, b, next0, rest[..n], winners);
        ImportedAccounts(Inserted(t, b), rest[n..], losersOf, batchSize, next0, winners);
      }
    }
  }

  lemma ImportGuarantees(t: Tables, winners: seq<Voter>, losersOf: map<string, seq<string>>, batchSize: nat)
    requires batchSize > 0
    ensures var o := Imported(t, winners, losersOf, batchSize);
            && Extends(t, o.tables) && (o.ok ==> AllDone(winners, o.tables))
            && (AllDone(winners, t) ==> o == Outcome(t, true))
            && (PrimaryBounded(t) ==> PrimariesSince(o.tables, t.nextUser))
            && (IdentitiesBounded(t) ==> AccountsSince(o.tables, t.nextUser, winners))
  {
    ImportedDone(t, winners, losersOf, batchSize);
    if AllDone(winners, t) {
      ImportedIdle(t, winners, losersOf, batchSize);
    }
    if PrimaryBounded(t) {
      ImportedPrimaries(t, winners, losersOf, batchSize, t.nextUser);
    }
    if IdentitiesBounded(t) {
      ImportedAccounts(t, winners, losersOf, batchSize, t.nextUser, winners);
    }
  }

  /** Importing again repeats the outcome: after a success it gets through and adds nothing, after a failure
      it adds nothing and fails again. */
  lemma {:induction false} ImportedAgain(t: Tables, winners: seq<Voter>, losersOf: map<string, seq<string>>,
                                         batchSize: nat)
    requires batchSize > 0
    ensures var o := Imported(t, winners, losersOf, batchSize);
            Imported(o.tables, winners, losersOf, batchSize) == o
    decreases |winners|
  {
    if |winners| != 0 {
      var n := if batchSize <= |winners| then batchSize else |winners|;
      var b := BatchOf(t, winners[..n], losersOf);
      if NoClash(t, b.identities) {
        var o := Imported(t, winners, losersOf, batchSize);
        InsertedBatch(t, winners[..n], losersOf);
        ImportedDone(Inserted(t, b), winners[n..], losersOf, batchSize);
        StayDone(Inserted(t, b), o.tables, winners[..n]);
        IdleBatch(o.tables, winners[..n], losersOf);
        ImportedAgain(Inserted(t, b), winners[n..], losersOf, batchSize);
      }
    }
  }

  /** A second import of the same plan: the same verdict, no account, no mapping, the same tables. */
  method ImportAgain(d: Accounts, winners: seq<Voter>, losersOf: map<string, seq<string>>, batchSize: nat)
      returns (first: Result<Stats, ImportError>, second: Result<Stats, ImportError>, ghost middle: Tables)
    requires batchSize > 0
    modifies d
    ensures Outcome(middle, first.Ok?) == Imported(old(d.Contents()), winners, losersOf, batchSize)
    ensures d.Contents() == middle
    ensures second == if first.Ok? then Ok(Stats(0, 0)) else Err(DuplicateIdentity)
  {
    ImportedAgain(d.Contents(), winners, losersOf, batchSize);
    first := d.Import(winners, losersOf, batchSize);
    middle := d.Contents();
    second := d.Import(winners, losersOf, batchSize);
    if second.Err? {
      OneError(second.error);
    }
  }

  lemma OneError(e: ImportError)
    ensures e == DuplicateIdentity
  {
  }
}
