/** When a legacy import gets through (scripts/import_legacy_voters.py): a batch fails exactly when two
    survivors that it creates share a subject or one brings a subject that is stored already. */
module LegacyImportFacts {
  import opened Prelude
  import opened LegacyPlan
  import opened LegacyImport

  // ---------- whom a batch creates ----------

  /** The identity keys of a voter, in the order of the providers. */
  function KeysOf(): Voter -> seq<Key> { (v: Voter) => Map(IdentityRows(v, 0), RowKey()) }

  function RowKey(): IdentityRow -> Key { (r: IdentityRow) => r.key }

  lemma KeysOfRows(v: Voter, user: int)
    ensures Map(IdentityRows(v, user), RowKey()) == KeysOf()(v)
  {
  }

  /** The survivors for which the batch creates an account. */
  function Created(b: Batch, vs: seq<Voter>, existing: map<Key, int>, losersOf: map<string, seq<string>>): seq<Voter> {
    if |vs| == 0 then [] else
      var front, v := vs[..|vs|-1], vs[|vs|-1];
      Created(b, front, existing, losersOf)
        + if v.legacyId !in ProcessAll(b, front, existing, losersOf).mapped && Classify(v, existing) == Create then [v]
          else []
  }

  lemma ProcessKeys(b: Batch, v: Voter, existing: map<Key, int>, losersOf: map<string, seq<string>>)
    ensures var b' := Process(b, v, existing, losersOf);
            Map(b'.identities, RowKey()) ==
              Map(b.identities, RowKey())
                  + if v.legacyId !in b.mapped && Classify(v, existing) == Create then KeysOf()(v) else []
  {
    if v.legacyId !in b.mapped {
      var losers := LosersOf(losersOf, v.legacyId);
      match Classify(v, existing) {
        case Multi =>
        case Conflict(owner) =>
          AddMappingsFrame(b, Map([v.legacyId] + losers, MappingTo(owner, ConflictExisting)));
        case Create =>
          var user := b.nextUser;
          var created :=
            b.(users := b.users + [user], identities := b.identities + IdentityRows(v, user), nextUser := user + 1);
          AddMappingsFrame(created, [Mapping(v.legacyId, user, Primary)] + Map(losers, MappingTo(user, Duplicate)));
          KeysOfRows(v, user);
          var rows := IdentityRows(v, user);
          assert Map(b.identities + rows, RowKey()) == Map(b.identities, RowKey()) + Map(rows, RowKey());
      }
    }
  }

  lemma KeysJoin(a: seq<Key>, b: seq<Key>, c: seq<Key>)
    ensures (a + b) + c == a + (b + c) && (a + b) + [] == a + b
  {
  }

  /** The identities of a batch are those of the survivors it creates. */
  lemma {:induction false} BatchKeys(b: Batch, vs: seq<Voter>, existing: map<Key, int>,
                                     losersOf: map<string, seq<string>>)
    ensures Map(ProcessAll(b, vs, existing, losersOf).identities, RowKey())
         == Map(b.identities, RowKey()) + Flat(Created(b, vs, existing, losersOf), KeysOf())
  {
    if |vs| != 0 {
      var front, v := vs[..|vs|-1], vs[|vs|-1];
      var before := ProcessAll(b, front, existing, losersOf);
      BatchKeys(b, front, existing, losersOf);
      ProcessKeys(before, v, existing, losersOf);
      var created := Created(b, front, existing, losersOf);
      FlatSnoc(created, v, KeysOf());
      KeysJoin(Map(b.identities, RowKey()), Flat(created, KeysOf()), KeysOf()(v));
      assert Created(b, vs, existing, losersOf) ==
        if v.legacyId !in before.mapped && Classify(v, existing) == Create then created + [v] else created;
    }
  }

  // ---------- clashes ----------

  /** Nothing is in both lists. */
  ghost predicate Disjoint(s: seq<Key>, t: seq<Key>) { forall i, j :: 0 <= i < |s| && 0 <= j < |t| ==> s[i] != t[j] }

  lemma DistinctJoin(s: seq<Key>, t: seq<Key>)
    ensures Distinct(s + t) <==> Distinct(s) && Distinct(t) && Disjoint(s, t)
  {
    var all := s + t;
    assert forall i :: 0 <= i < |s| ==> all[i] == s[i];
    assert forall i :: 0 <= i < |t| ==> all[|s| + i] == t[i];
    if Distinct(all) {
      forall i, j | 0 <= i < |s| && 0 <= j < |t| ensures s[i] != t[j] {
        assert all[i] != all[|s| + j];
      }
      forall i, j | 0 <= i < j < |t| ensures t[i] != t[j] {
        assert all[|s| + i] != all[|s| + j];
      }
    }
  }

  lemma OwnKeysDistinct(v: Voter)
    ensures Distinct(KeysOf()(v))
  {
  }

  /** Two voters have no identity key in common. */
  ghost predicate Apart(a: Voter, b: Voter) { Disjoint(KeysOf()(a), KeysOf()(b)) }

  ghost predicate AllApart(vs: seq<Voter>) { forall i, j :: 0 <= i < j < |vs| ==> Apart(vs[i], vs[j]) }

  lemma {:induction false} ApartFromAll(vs: seq<Voter>, v: Voter)
    ensures Disjoint(Flat(vs, KeysOf()), KeysOf()(v)) <==> forall i :: 0 <= i < |vs| ==> Apart(vs[i], v)
  {
    if |vs| != 0 {
      var front, last := vs[..|vs|-1], vs[|vs|-1];
      ApartFromAll(front, v);
      assert forall i :: 0 <= i < |front| ==> front[i] == vs[i];
      DisjointJoin(Flat(front, KeysOf()), KeysOf()(last), KeysOf()(v));
    }
  }

  lemma DisjointJoin(a: seq<Key>, b: seq<Key>, t: seq<Key>)
    ensures Disjoint(a + b, t) <==> Disjoint(a, t) && Disjoint(b, t)
  {
    assert forall i :: 0 <= i < |a| ==> (a + b)[i] == a[i];
    assert forall i :: 0 <= i < |b| ==> (a + b)[|a| + i] == b[i];
  }

  lemma {:induction false} DistinctKeys(vs: seq<Voter>)
    ensures Distinct(Flat(vs, KeysOf())) <==> AllApart(vs)
  {
    if |vs| != 0 {
      var front, v := vs[..|vs|-1], vs[|vs|-1];
      DistinctKeys(front);
      DistinctJoin(Flat(front, KeysOf()), KeysOf()(v));
      OwnKeysDistinct(v);
      ApartFromAll(front, v);
      assert forall i :: 0 <= i < |front| ==> front[i] == vs[i];
    }
  }

  /** None of the voters brings an identity key that is stored. */
  ghost predicate NoneStored(t: Tables, vs: seq<Voter>) {
    forall i, key :: 0 <= i < |vs| && key in KeysOf()(vs[i]) ==> key !in t.identities
  }

  lemma ClashIsKeys(t: Tables, rows: seq<IdentityRow>, vs: seq<Voter>)
    requires Map(rows, RowKey()) == Flat(vs, KeysOf())
    ensures NoClash(t, rows) <==> NoneStored(t, vs) && AllApart(vs)
  {
    var keys := Flat(vs, KeysOf());
    DistinctKeys(vs);
    forall i | 0 <= i < |rows| ensures rows[i].key == keys[i] {
      assert Map(rows, RowKey())[i] == keys[i];
    }
    assert Distinct(keys) <==> forall i, j :: 0 <= i < j < |rows| ==> rows[i].key != rows[j].key;
    forall key ensures key in keys <==> exists i :: 0 <= i < |vs| && key in KeysOf()(vs[i]) {
      FlatIn(vs, KeysOf(), key);
    }
    if NoClash(t, rows) {
      forall i, key | 0 <= i < |vs| && key in KeysOf()(vs[i]) ensures key !in t.identities {
        assert key in keys;
      }
    }
    if NoneStored(t, vs) {
      forall i | 0 <= i < |rows| ensures rows[i].key !in t.identities {
        assert keys[i] in keys;
      }
    }
  }

  function CreatedIn(t: Tables, chunk: seq<Voter>, losersOf: map<string, seq<string>>): seq<Voter> {
    Created(Batch([], [], [], t.mappings.Keys, t.nextUser), chunk, ExistingFor(t, chunk), losersOf)
  }

  lemma KeysOfBatch(t: Tables, chunk: seq<Voter>, losersOf: map<string, seq<string>>)
    ensures Map(BatchOf(t, chunk, losersOf).identities, RowKey()) == Flat(CreatedIn(t, chunk, losersOf), KeysOf())
  {
    var b := Batch([], [], [], t.mappings.Keys, t.nextUser);
    BatchKeys(b, chunk, ExistingFor(t, chunk), losersOf);
    var keys := Flat(CreatedIn(t, chunk, losersOf), KeysOf());
    assert Map(b.identities, RowKey()) + keys == keys;
  }

  /** A batch is inserted exactly when no survivor it creates brings a stored identity and no two of them
      share one. */
  lemma BatchFits(t: Tables, chunk: seq<Voter>, losersOf: map<string, seq<string>>)
    ensures NoClash(t, BatchOf(t, chunk, losersOf).identities) <==>
            NoneStored(t, CreatedIn(t, chunk, losersOf)) && AllApart(CreatedIn(t, chunk, losersOf))
  {
    KeysOfBatch(t, chunk, losersOf);
    ClashIsKeys(t, BatchOf(t, chunk, losersOf).identities, CreatedIn(t, chunk, losersOf));
  }

  // ---------- survivors of a plan ----------

  /** No subject is the empty string; `normalize_voter` turns blank fields into missing ones. */
  predicate Normalised(v: Voter) {
    v.email != Some("") && v.phone != Some("") && v.qq != Some("") && v.wiki != Some("")
  }

  /** What the survivors of one plan have in common: one record per id, one per e-mail address, and nobody
      is a survivor and a duplicate. */
  ghost predicate Consistent(winners: seq<Voter>, losersOf: map<string, seq<string>>) {
    && (forall i :: 0 <= i < |winners| ==> Normalised(winners[i]))
    && (forall i, j :: 0 <= i < j < |winners| ==> winners[i].legacyId != winners[j].legacyId)
    && (forall i, j :: 0 <= i < j < |winners| && winners[i].email.Some? ==> winners[i].email != winners[j].email)
    && (forall i, j :: 0 <= i < |winners| && 0 <= j < |winners| ==>
          winners[j].legacyId !in LosersOf(losersOf, winners[i].legacyId))
  }

  /** An account is created for the survivor: he is not mapped, and nobody owns his address or phone. */
  function Creates(t: Tables): Voter -> bool {
    (v: Voter) => v.legacyId !in t.mappings && Classify(v, Owners(t)) == Create
  }

  lemma {:induction false} AddMappingsMark(b: Batch, ms: seq<Mapping>, id: string)
    ensures id in AddMappings(b, ms).mapped <==> id in b.mapped || exists i :: 0 <= i < |ms| && ms[i].legacyId == id
  {
    if |ms| != 0 {
      var front := ms[..|ms|-1];
      AddMappingsMark(b, front, id);
      assert forall i :: 0 <= i < |front| ==> front[i] == ms[i];
    }
  }

  lemma ProcessMarks(b: Batch, v: Voter, existing: map<Key, int>, losersOf: map<string, seq<string>>, id: string)
    requires id != v.legacyId && id !in LosersOf(losersOf, v.legacyId)
    ensures id in Process(b, v, existing, losersOf).mapped <==> id in b.mapped
  {
    if v.legacyId !in b.mapped {
      var losers := LosersOf(losersOf, v.legacyId);
      match Classify(v, existing) {
        case Multi =>
        case Conflict(owner) =>
          AddMappingsMark(b, Map([v.legacyId] + losers, MappingTo(owner, ConflictExisting)), id);
        case Create =>
          var user := b.nextUser;
          var created :=
            b.(users := b.users + [user], identities := b.identities + IdentityRows(v, user), nextUser := user + 1);
          AddMappingsMark(created, [Mapping(v.legacyId, user, Primary)] + Map(losers, MappingTo(user, Duplicate)), id);
      }
    }
  }

  /** No survivor is mapped on behalf of another one. */
  lemma {:induction false} OthersUnmarked(b: Batch, vs: seq<Voter>, existing: map<Key, int>,
                                          losersOf: map<string, seq<string>>, id: string)
    requires forall i :: 0 <= i < |vs| ==> id != vs[i].legacyId && id !in LosersOf(losersOf, vs[i].legacyId)
    ensures id in ProcessAll(b, vs, existing, losersOf).mapped <==> id in b.mapped
  {
    if |vs| != 0 {
      var front := vs[..|vs|-1];
      assert forall i :: 0 <= i < |front| ==> front[i] == vs[i];
      OthersUnmarked(b, front, existing, losersOf, id);
      ProcessMarks(ProcessAll(b, front, existing, losersOf), vs[|vs|-1], existing, losersOf, id);
    }
  }

  lemma ConsistentPart(winners: seq<Voter>, losersOf: map<string, seq<string>>, lo: nat, hi: nat)
    requires Consistent(winners, losersOf) && lo <= hi <= |winners|
    ensures Consistent(winners[lo..hi], losersOf)
  {
    assert forall i :: 0 <= i < hi - lo ==> winners[lo..hi][i] == winners[lo + i];
  }

  /** The survivor at place `i` is mapped when his turn comes only if he was before the batch. */
  ghost predicate Unmarked(b: Batch, vs: seq<Voter>, existing: map<Key, int>, losersOf: map<string, seq<string>>,
                           i: nat)
    requires i < |vs|
  {
    vs[i].legacyId in ProcessAll(b, vs[..i], existing, losersOf).mapped <==> vs[i].legacyId in b.mapped
  }

  predicate SameKind(t: Tables, vs: seq<Voter>, existing: map<Key, int>, i: nat)
    requires i < |vs|
  {
    Classify(vs[i], existing) == Classify(vs[i], Owners(t))
  }

  lemma LaterUnmarked(b: Batch, vs: seq<Voter>, existing: map<Key, int>, losersOf: map<string, seq<string>>, n: nat)
    requires Consistent(vs, losersOf) && n < |vs|
    ensures Unmarked(b, vs, existing, losersOf, n)
  {
    OthersUnmarked(b, vs[..n], existing, losersOf, vs[n].legacyId);
  }

  lemma CreatedNext(t: Tables, b: Batch, vs: seq<Voter>, existing: map<Key, int>, losersOf: map<string, seq<string>>,
                    n: nat)
    requires n < |vs| && b.mapped == t.mappings.Keys
    requires SameKind(t, vs, existing, n) && Unmarked(b, vs, existing, losersOf, n)
    ensures Created(b, vs[..n+1], existing, losersOf) ==
            Created(b, vs[..n], existing, losersOf) + if Creates(t)(vs[n]) then [vs[n]] else []
  {
    assert vs[..n+1][..n] == vs[..n];
  }

  lemma FilterNext(vs: seq<Voter>, p: Voter -> bool, n: nat)
    requires n < |vs|
    ensures Filter(vs[..n+1], p) == Filter(vs[..n], p) + if p(vs[n]) then [vs[n]] else []
  {
    assert vs[..n+1] == vs[..n] + [vs[n]];
    FilterSnoc(vs[..n], vs[n], p);
  }

  lemma {:induction false} CreatedIsFiltered(t: Tables, b: Batch, vs: seq<Voter>, existing: map<Key, int>,
                                             losersOf: map<string, seq<string>>, n: nat)
    requires n <= |vs| && b.mapped == t.mappings.Keys
    requires forall i :: 0 <= i < |vs| ==> SameKind(t, vs, existing, i) && Unmarked(b, vs, existing, losersOf, i)
    ensures Created(b, vs[..n], existing, losersOf) == Filter(vs[..n], Creates(t))
  {
    if n != 0 {
      CreatedIsFiltered(t, b, vs, existing, losersOf, n - 1);
      FilteredNext(t, b, vs, existing, losersOf, n - 1);
    }
  }

  lemma FilteredNext(t: Tables, b: Batch, vs: seq<Voter>, existing: map<Key, int>, losersOf: map<string, seq<string>>,
                     n: nat)
    requires n < |vs| && b.mapped == t.mappings.Keys
    requires SameKind(t, vs, existing, n) && Unmarked(b, vs, existing, losersOf, n)
    requires Created(b, vs[..n], existing, losersOf) == Filter(vs[..n], Creates(t))
    ensures Created(b, vs[..n+1], existing, losersOf) == Filter(vs[..n+1], Creates(t))
  {
    CreatedNext(t, b, vs, existing, losersOf, n);
    FilterNext(vs, Creates(t), n);
  }

  /** Whom a batch creates can be read off the plan and the tables. */
  lemma CreatedInPlan(t: Tables, chunk: seq<Voter>, losersOf: map<string, seq<string>>)
    requires Consistent(chunk, losersOf)
    ensures CreatedIn(t, chunk, losersOf) == Filter(chunk, Creates(t))
  {
    var b, existing := Batch([], [], [], t.mappings.Keys, t.nextUser), ExistingFor(t, chunk);
    forall i | 0 <= i < |chunk| ensures SameKind(t, chunk, existing, i) && Unmarked(b, chunk, existing, losersOf, i) {
      ClassifyFor(t, chunk, i);
      LaterUnmarked(b, chunk, existing, losersOf, i);
    }
    CreatedIsFiltered(t, b, chunk, existing, losersOf, |chunk|);
    assert chunk[..|chunk|] == chunk;
  }

  predicate Shared(a: Option<string>, b: Option<string>) { a.Some? && a == b }

  /** Two survivors share a phone, a QQ or a wiki account. */
  predicate ShareSubject(a: Voter, b: Voter) {
    Shared(a.phone, b.phone) || Shared(a.qq, b.qq) || Shared(a.wiki, b.wiki)
  }

  predicate Stored(t: Tables, provider: Provider, subject: Option<string>) {
    subject.Some? && (provider, subject.value) in t.identities
  }

  /** The voter's subject with the provider. */
  function SubjectOf(v: Voter, provider: Provider): Option<string> {
    match provider
    case EmailProvider => v.email
    case PhoneProvider => v.phone
    case QqProvider => v.qq
    case WikiProvider => v.wiki
  }

  function OneKey(provider: Provider, subject: Option<string>): seq<Key> {
    if subject.Some? then [(provider, subject.value)] else []
  }

  lemma KeysByProvider(v: Voter)
    ensures KeysOf()(v) ==
      OneKey(EmailProvider, v.email) + OneKey(PhoneProvider, v.phone) + OneKey(QqProvider, v.qq)
          + OneKey(WikiProvider, v.wiki)
  {
    var mail, phone :=
      IdentityOf(0, EmailProvider, v.email, v.emailVerified), IdentityOf(0, PhoneProvider, v.phone, v.phoneVerified);
    var qq, wiki := IdentityOf(0, QqProvider, v.qq, true), IdentityOf(0, WikiProvider, v.wiki, true);
    assert Map(mail, RowKey()) == OneKey(EmailProvider, v.email) &&
      Map(phone, RowKey()) == OneKey(PhoneProvider, v.phone);
    assert Map(qq, RowKey()) == OneKey(QqProvider, v.qq) && Map(wiki, RowKey()) == OneKey(WikiProvider, v.wiki);
    MapJoin(mail, phone);
    MapJoin(mail + phone, qq);
    MapJoin(mail + phone + qq, wiki);
  }

  lemma MapJoin(a: seq<IdentityRow>, b: seq<IdentityRow>)
    ensures Map(a + b, RowKey()) == Map(a, RowKey()) + Map(b, RowKey())
  {
  }

  ghost predicate BringsNoneStored(t: Tables, v: Voter) {
    !Stored(t, QqProvider, v.qq) && !Stored(t, WikiProvider, v.wiki)
  }

  lemma KeyIn(v: Voter, key: Key)
    ensures key in KeysOf()(v) <==> SubjectOf(v, key.0) == Some(key.1)
  {
    KeysByProvider(v);
    match key.0
    case EmailProvider =>
    case PhoneProvider =>
    case QqProvider =>
    case WikiProvider =>
  }

  lemma ApartByProvider(a: Voter, b: Voter)
    ensures Apart(a, b) <==> forall p: Provider :: !Shared(SubjectOf(a, p), SubjectOf(b, p))
  {
    if Apart(a, b) {
      forall p: Provider ensures !Shared(SubjectOf(a, p), SubjectOf(b, p)) {
        if SubjectOf(a, p).Some? {
          KeyIn(a, (p, SubjectOf(a, p).value));
          KeyIn(b, (p, SubjectOf(a, p).value));
        }
      }
    }
    if forall p: Provider :: !Shared(SubjectOf(a, p), SubjectOf(b, p)) {
      var s, t := KeysOf()(a), KeysOf()(b);
      forall i, j | 0 <= i < |s| && 0 <= j < |t| ensures s[i] != t[j] {
        KeyIn(a, s[i]);
        KeyIn(b, t[j]);
        assert !Shared(SubjectOf(a, s[i].0), SubjectOf(b, s[i].0));
      }
    }
  }

  lemma ApartIsUnshared(a: Voter, b: Voter)
    ensures Apart(a, b) <==> !Shared(a.email, b.email) && !ShareSubject(a, b)
  {
    ApartByProvider(a, b);
    var p, q, r, w := EmailProvider, PhoneProvider, QqProvider, WikiProvider;
    assert SubjectOf(a, p) == a.email && SubjectOf(a, q) == a.phone && SubjectOf(a, r) == a.qq &&
      SubjectOf(a, w) == a.wiki;
    assert SubjectOf(b, p) == b.email && SubjectOf(b, q) == b.phone && SubjectOf(b, r) == b.qq &&
      SubjectOf(b, w) == b.wiki;
    forall o: Provider
      ensures Shared(SubjectOf(a, o), SubjectOf(b, o)) ==> Shared(a.email, b.email) || ShareSubject(a, b)
    {
      match o
      case EmailProvider =>
      case PhoneProvider =>
      case QqProvider =>
      case WikiProvider =>
    }
  }

  lemma CreatorStores(t: Tables, v: Voter)
    requires Creates(t)(v) && Normalised(v)
    ensures (forall key :: key in KeysOf()(v) ==> key !in t.identities) <==> BringsNoneStored(t, v)
  {
    assert !Stored(t, EmailProvider, v.email) && !Stored(t, PhoneProvider, v.phone);
    forall key ensures key in KeysOf()(v) <==> SubjectOf(v, key.0) == Some(key.1) {
      KeyIn(v, key);
    }
    if forall key :: key in KeysOf()(v) ==> key !in t.identities {
      assert v.qq.Some? ==> (QqProvider, v.qq.value) in KeysOf()(v);
      assert v.wiki.Some? ==> (WikiProvider, v.wiki.value) in KeysOf()(v);
    }
    if !Stored(t, QqProvider, v.qq) && !Stored(t, WikiProvider, v.wiki) {
      forall key | key in KeysOf()(v) ensures key !in t.identities {
        assert Stored(t, key.0, SubjectOf(v, key.0)) ==> key in t.identities;
        match key.0
        case EmailProvider =>
        case PhoneProvider =>
        case QqProvider =>
        case WikiProvider =>
      }
    }
  }

  /** The survivor at place `j` is not created, or he brings no stored QQ or wiki account and shares no phone,
      QQ or wiki account with one created before him. */
  ghost predicate FitsAt(t: Tables, chunk: seq<Voter>, j: nat)
    requires j < |chunk|
  {
    Creates(t)(chunk[j]) ==>
      && BringsNoneStored(t, chunk[j])
      && forall i :: 0 <= i < j && Creates(t)(chunk[i]) ==> !ShareSubject(chunk[i], chunk[j])
  }

  /** The survivors of a batch fit the tables. */
  ghost predicate Fits(t: Tables, chunk: seq<Voter>) { forall j :: 0 <= j < |chunk| ==> FitsAt(t, chunk, j) }

  ghost predicate ApartWhere(vs: seq<Voter>, p: Voter -> bool) {
    forall i, j :: 0 <= i < j < |vs| && p(vs[i]) && p(vs[j]) ==> Apart(vs[i], vs[j])
  }

  lemma AllApartSnoc(vs: seq<Voter>, v: Voter)
    ensures AllApart(vs + [v]) <==> AllApart(vs) && forall i :: 0 <= i < |vs| ==> Apart(vs[i], v)
  {
    var all := vs + [v];
    assert forall i :: 0 <= i < |vs| ==> all[i] == vs[i];
    assert all[|vs|] == v;
  }

  lemma ApartWhereSnoc(vs: seq<Voter>, p: Voter -> bool, v: Voter)
    ensures ApartWhere(vs + [v], p) <==>
            ApartWhere(vs, p) && (p(v) ==> forall i :: 0 <= i < |vs| && p(vs[i]) ==> Apart(vs[i], v))
  {
    var all := vs + [v];
    assert forall i :: 0 <= i < |vs| ==> all[i] == vs[i];
    assert all[|vs|] == v;
  }

  lemma {:induction false} FilterApart(vs: seq<Voter>, p: Voter -> bool)
    ensures AllApart(Filter(vs, p)) <==> ApartWhere(vs, p)
  {
    if |vs| != 0 {
      var front, v := vs[..|vs|-1], vs[|vs|-1];
      FilterApart(front, p);
      ApartWhereSnoc(front, p, v);
      assert vs == front + [v];
      LastApart(front, Filter(front, p), p, v);
      AllApartSnoc(Filter(front, p), v);
    }
  }

  lemma LastApart(front: seq<Voter>, kept: seq<Voter>, p: Voter -> bool, v: Voter)
    requires kept == Filter(front, p)
    ensures (forall i :: 0 <= i < |kept| ==> Apart(kept[i], v)) <==>
            forall i :: 0 <= i < |front| && p(front[i]) ==> Apart(front[i], v)
  {
    if forall i :: 0 <= i < |kept| ==> Apart(kept[i], v) {
      forall i | 0 <= i < |front| && p(front[i]) ensures Apart(front[i], v) {
        assert front[i] in kept;
      }
    }
    if forall i :: 0 <= i < |front| && p(front[i]) ==> Apart(front[i], v) {
      forall i | 0 <= i < |kept| ensures Apart(kept[i], v) {
        assert kept[i] in kept;
      }
    }
  }

  lemma FitsByPairs(t: Tables, chunk: seq<Voter>)
    requires forall i, j :: 0 <= i < j < |chunk| ==> (Apart(chunk[i], chunk[j]) <==> !ShareSubject(chunk[i], chunk[j]))
    ensures Fits(t, chunk) <==>
            (forall i :: 0 <= i < |chunk| && Creates(t)(chunk[i]) ==> BringsNoneStored(t, chunk[i])) &&
              ApartWhere(chunk, Creates(t))
  {
    if Fits(t, chunk) {
      forall i | 0 <= i < |chunk| && Creates(t)(chunk[i]) ensures BringsNoneStored(t, chunk[i]) {
        assert FitsAt(t, chunk, i);
      }
      forall i, j | 0 <= i < j < |chunk| && Creates(t)(chunk[i]) && Creates(t)(chunk[j])
        ensures Apart(chunk[i], chunk[j])
      {
        assert FitsAt(t, chunk, j);
      }
    }
  }

  /** A batch of a plan is inserted exactly when the survivors it creates fit. */
  lemma PlannedBatchFits(t: Tables, chunk: seq<Voter>, losersOf: map<string, seq<string>>)
    requires Consistent(chunk, losersOf)
    ensures NoClash(t, BatchOf(t, chunk, losersOf).identities) <==> Fits(t, chunk)
  {
    BatchFits(t, chunk, losersOf);
    CreatedInPlan(t, chunk, losersOf);
    FilterApart(chunk, Creates(t));
    FilterStored(t, chunk);
    forall i, j | 0 <= i < j < |chunk| ensures Apart(chunk[i], chunk[j]) <==> !ShareSubject(chunk[i], chunk[j]) {
      ApartIsUnshared(chunk[i], chunk[j]);
    }
    FitsByPairs(t, chunk);
  }

  lemma FilterStored(t: Tables, chunk: seq<Voter>)
    requires forall i :: 0 <= i < |chunk| ==> Normalised(chunk[i])
    ensures NoneStored(t, Filter(chunk, Creates(t))) <==>
            forall i :: 0 <= i < |chunk| && Creates(t)(chunk[i]) ==> BringsNoneStored(t, chunk[i])
  {
    var creators := Filter(chunk, Creates(t));
    forall v | v in creators
      ensures (forall key :: key in KeysOf()(v) ==> key !in t.identities) <==> BringsNoneStored(t, v)
    {
      CreatorStores(t, v);
    }
    assert forall i :: 0 <= i < |creators| ==> creators[i] in creators;
    assert forall i :: 0 <= i < |chunk| && Creates(t)(chunk[i]) ==> chunk[i] in creators;
  }

  // ---------- the survivors of a plan are consistent ----------

  lemma MergedNormalised(winner: Voter, losers: seq<Voter>)
    requires Normalised(winner) && forall i :: 0 <= i < |losers| ==> Normalised(losers[i])
    ensures Normalised(Merged(winner, losers))
  {
    FirstOfIsFirst(losers, PhoneField);
    FirstOfIsFirst(losers, QqField);
    FirstOfIsFirst(losers, WikiField);
  }

  lemma GroupNormalised(voters: seq<Voter>, last: Activity, rules: Rules, c: Contact)
    requires Distinct(Map(voters, IdOf())) && |Filter(voters, InContact(rules, c))| != 0
    requires forall i :: 0 <= i < |voters| ==> Normalised(voters[i])
    ensures var group := Ordered(voters, last, rules, c);
            |group| != 0 && ContactOf()(group[0]) == c && Normalised(Survivor(group))
  {
    var group := Ordered(voters, last, rules, c);
    OrderedDistinct(voters, last, rules, c);
    forall m | 0 <= m < |group| ensures group[m] in voters && ContactOf()(group[m]) == c {
      assert group[m] in group;
    }
    MergedNormalised(group[0], group[1..]);
  }

  lemma WinnersPlaced(plan: ImportPlan, contacts: seq<Contact>, voters: seq<Voter>, last: Activity, rules: Rules,
                      k: nat)
    requires Distinct(Map(voters, IdOf())) && IsPlan(plan, contacts, voters, last, rules) && k < |plan.winners|
    requires forall i :: 0 <= i < |voters| ==> Normalised(voters[i])
    ensures Normalised(plan.winners[k]) && ContactOf()(Groups(voters, last, rules, contacts)[k][0]) == contacts[k]
    ensures At(Groups(voters, last, rules, contacts), k, 0, plan.winners[k].legacyId)
  {
    assert contacts[k] in contacts;
    GroupNormalised(voters, last, rules, contacts[k]);
  }

  lemma NotAmongLosers(plan: ImportPlan, groups: seq<seq<Voter>>, i: nat, j: nat)
    requires WinnersOk(plan.winners, groups) && LosersOfOk(plan.losersOf, groups) && DistinctIds(groups)
    requires i < |plan.winners| && j < |plan.winners|
    ensures plan.winners[j].legacyId !in LosersOf(plan.losersOf, plan.winners[i].legacyId)
  {
    assert Wins(groups, i, plan.winners[i].legacyId) && At(groups, j, 0, plan.winners[j].legacyId);
    var ids := Map(groups[i][1..], IdOf());
    if m :| 0 <= m < |ids| && ids[m] == plan.winners[j].legacyId {
      assert At(groups, i, m + 1, plan.winners[j].legacyId);
    }
  }

  lemma OnePerAddress(plan: ImportPlan, contacts: seq<Contact>, voters: seq<Voter>, last: Activity, rules: Rules,
                      i: nat, j: nat)
    requires Distinct(Map(voters, IdOf())) && IsPlan(plan, contacts, voters, last, rules) && i < j < |plan.winners|
    requires forall i :: 0 <= i < |voters| ==> Normalised(voters[i])
    ensures plan.winners[i].legacyId != plan.winners[j].legacyId
    ensures plan.winners[i].email.Some? ==> plan.winners[i].email != plan.winners[j].email
  {
    GroupsDistinct(voters, last, rules, contacts);
    WinnersPlaced(plan, contacts, voters, last, rules, i);
    WinnersPlaced(plan, contacts, voters, last, rules, j);
    assert contacts[i] != contacts[j];
  }

  /** The survivors of every plan of a normalised dump are consistent. */
  lemma PlanConsistent(plan: ImportPlan, contacts: seq<Contact>, voters: seq<Voter>, last: Activity, rules: Rules)
    requires Distinct(Map(voters, IdOf())) && IsPlan(plan, contacts, voters, last, rules)
    requires forall i :: 0 <= i < |voters| ==> Normalised(voters[i])
    ensures Consistent(plan.winners, plan.losersOf)
  {
    GroupsDistinct(voters, last, rules, contacts);
    forall k | 0 <= k < |plan.winners| ensures Normalised(plan.winners[k]) {
      WinnersPlaced(plan, contacts, voters, last, rules, k);
    }
    forall i, j | 0 <= i < j < |plan.winners|
      ensures plan.winners[i].legacyId != plan.winners[j].legacyId
      ensures plan.winners[i].email.Some? ==> plan.winners[i].email != plan.winners[j].email
    {
      OnePerAddress(plan, contacts, voters, last, rules, i, j);
    }
    forall i, j | 0 <= i < |plan.winners| && 0 <= j < |plan.winners|
      ensures plan.winners[j].legacyId !in LosersOf(plan.losersOf, plan.winners[i].legacyId)
    {
      NotAmongLosers(plan, Groups(voters, last, rules, contacts), i, j);
    }
  }

  // ---------- the whole import ----------

  /** The number of the batch a place belongs to. */
  function BatchNo(i: nat, batchSize: nat): nat
    requires batchSize > 0
  {
    if i < batchSize then 0 else 1 + BatchNo(i - batchSize, batchSize)
  }

  /** A batch begins at place `s`. */
  predicate IsStart(s: nat, batchSize: nat)
    requires batchSize > 0
  {
    s == 0 || (s >= batchSize && IsStart(s - batchSize, batchSize))
  }

  /** The places of earlier batches are those before the start of the batch. */
  lemma {:induction false} EarlierBatch(s: nat, i: nat, j: nat, b: nat)
    requires b > 0 && IsStart(s, b) && s <= i < s + b
    ensures BatchNo(j, b) < BatchNo(i, b) <==> j < s
  {
    if s != 0 && j >= b {
      EarlierBatch(s - b, i - b, j - b, b);
    }
  }

  /** Two open survivors of different batches have the same phone. */
  ghost predicate Preempts(t: Tables, winners: seq<Voter>, batchSize: nat, j: nat, i: nat)
    requires batchSize > 0 && j < |winners| && i < |winners|
  {
    BatchNo(j, batchSize) < BatchNo(i, batchSize) && Creates(t)(winners[j]) &&
      Shared(winners[j].phone, winners[i].phone)
  }

  /** The survivor at place `i` gets an account: he is not mapped before the import, nobody owns his address
      or phone then, and no such survivor of an earlier batch has his phone. */
  ghost predicate GetsAccount(t: Tables, winners: seq<Voter>, batchSize: nat, i: int)
    requires batchSize > 0
  {
    0 <= i < |winners| && Creates(t)(winners[i]) && forall j :: 0 <= j < i ==> !Preempts(t, winners, batchSize, j, i)
  }

  /** The survivor at place `j` gets no account, or he brings no stored QQ or wiki account and shares no phone,
      QQ or wiki account with another one before him who gets one. */
  ghost predicate Suits(t: Tables, winners: seq<Voter>, batchSize: nat, j: int)
    requires batchSize > 0
  {
    GetsAccount(t, winners, batchSize, j) ==>
      && BringsNoneStored(t, winners[j])
      && forall i :: 0 <= i < j && GetsAccount(t, winners, batchSize, i) ==> !ShareSubject(winners[i], winners[j])
  }

  lemma CreatesIff(t: Tables, v: Voter)
    requires Normalised(v)
    ensures Creates(t)(v) <==>
            v.legacyId !in t.mappings && !Stored(t, EmailProvider, v.email) && !Stored(t, PhoneProvider, v.phone)
  {
  }

  /** The first batch with a phone creates an account for it. */
  lemma {:induction false} EarliestGets(t: Tables, winners: seq<Voter>, batchSize: nat, j: nat) returns (i: nat)
    requires batchSize > 0 && j < |winners| && Creates(t)(winners[j]) && winners[j].phone.Some?
    ensures i <= j && GetsAccount(t, winners, batchSize, i) && winners[i].phone == winners[j].phone
    decreases j
  {
    if GetsAccount(t, winners, batchSize, j) {
      i := j;
    } else {
      var k :| 0 <= k < j && Preempts(t, winners, batchSize, k, j);
      i := EarliestGets(t, winners, batchSize, k);
    }
  }

  /** A survivor before `s` who got an account has the subject with the provider. */
  ghost predicate Brought(t: Tables, winners: seq<Voter>, batchSize: nat, s: nat, p: Provider, subject: string)
    requires batchSize > 0
  {
    exists i :: 0 <= i < s && GetsAccount(t, winners, batchSize, i) && SubjectOf(winners[i], p) == Some(subject)
  }

  /** The tables when the batch at `s` is due: the keys of `t` and of the accounts created so far. */
  ghost predicate Reached(t: Tables, now: Tables, winners: seq<Voter>, batchSize: nat, s: nat)
    requires batchSize > 0
  {
    && (forall p, x :: (p, x) in now.identities <==> (p, x) in t.identities || Brought(t, winners, batchSize, s, p, x))
    && (forall j :: s <= j < |winners| ==> (winners[j].legacyId in now.mappings <==> winners[j].legacyId in t.mappings))
  }

  lemma ReachedStored(t: Tables, now: Tables, winners: seq<Voter>, batchSize: nat, s: nat, p: Provider,
                      subject: Option<string>)
    requires batchSize > 0 && Reached(t, now, winners, batchSize, s)
    ensures Stored(now, p, subject) <==>
            Stored(t, p, subject) || (subject.Some? && Brought(t, winners, batchSize, s, p, subject.value))
  {
  }

  /** The batch creates an account for exactly the survivors that get one. */
  lemma CreatesNow(t: Tables, now: Tables, winners: seq<Voter>, losersOf: map<string, seq<string>>, batchSize: nat,
                   s: nat, j: nat)
    requires batchSize > 0 && Consistent(winners, losersOf) && Reached(t, now, winners, batchSize, s)
    requires IsStart(s, batchSize) && s <= j < |winners| && j < s + batchSize
    ensures Creates(now)(winners[j]) <==> GetsAccount(t, winners, batchSize, j)
  {
    var v := winners[j];
    CreatesIff(t, v);
    CreatesIff(now, v);
    ReachedStored(t, now, winners, batchSize, s, EmailProvider, v.email);
    ReachedStored(t, now, winners, batchSize, s, PhoneProvider, v.phone);
    forall i: nat ensures BatchNo(i, batchSize) < BatchNo(j, batchSize) <==> i < s {
      EarlierBatch(s, j, i, batchSize);
    }
    if Creates(t)(v) && !GetsAccount(t, winners, batchSize, j) {
      var k :| 0 <= k < j && Preempts(t, winners, batchSize, k, j);
      var i := EarliestGets(t, winners, batchSize, k);
      assert SubjectOf(winners[i], PhoneProvider) == v.phone;
      assert Brought(t, winners, batchSize, s, PhoneProvider, v.phone.value);
    }
    if v.phone.Some? && Brought(t, winners, batchSize, s, PhoneProvider, v.phone.value) {
      var i :|
        0 <= i < s && GetsAccount(t, winners, batchSize, i) &&
        SubjectOf(winners[i], PhoneProvider) == Some(v.phone.value);
      assert Preempts(t, winners, batchSize, i, j);
    }
  }

  /** What the batch finds stored or created by itself is what the condition says. */
  lemma SuitsNow(t: Tables, now: Tables, winners: seq<Voter>, losersOf: map<string, seq<string>>, batchSize: nat,
                 s: nat, e: nat, j: nat)
    requires batchSize > 0 && Consistent(winners, losersOf) && Reached(t, now, winners, batchSize, s)
    requires IsStart(s, batchSize) && s <= j < e <= |winners| && e <= s + batchSize
    ensures FitsAt(now, winners[s..e], j - s) <==> Suits(t, winners, batchSize, j)
  {
    var v, chunk := winners[j], winners[s..e];
    forall i | s <= i <= j ensures Creates(now)(chunk[i - s]) <==> GetsAccount(t, winners, batchSize, i) {
      CreatesNow(t, now, winners, losersOf, batchSize, s, i);
    }
    assert chunk[j - s] == v;
    if GetsAccount(t, winners, batchSize, j) {
      BringsNow(t, now, winners, batchSize, s, j);
      LocalPairs(now, t, winners, batchSize, s, e, j);
    }
  }

  lemma BringsNow(t: Tables, now: Tables, winners: seq<Voter>, batchSize: nat, s: nat, j: nat)
    requires batchSize > 0 && Reached(t, now, winners, batchSize, s) && GetsAccount(t, winners, batchSize, j)
    requires IsStart(s, batchSize) && s <= j < s + batchSize
    ensures BringsNoneStored(now, winners[j]) <==>
            BringsNoneStored(t, winners[j]) &&
              forall i :: 0 <= i < s && GetsAccount(t, winners, batchSize, i) ==> !ShareSubject(winners[i], winners[j])
  {
    var v := winners[j];
    ReachedStored(t, now, winners, batchSize, s, QqProvider, v.qq);
    ReachedStored(t, now, winners, batchSize, s, WikiProvider, v.wiki);
    forall i | 0 <= i < s && GetsAccount(t, winners, batchSize, i) ensures !Shared(winners[i].phone, v.phone) {
      EarlierBatch(s, j, i, batchSize);
      assert !Preempts(t, winners, batchSize, i, j);
    }
    BroughtShared(t, winners, batchSize, s, v);
  }

  lemma BroughtShared(t: Tables, winners: seq<Voter>, batchSize: nat, s: nat, v: Voter)
    requires batchSize > 0
    ensures (v.qq.Some? && Brought(t, winners, batchSize, s, QqProvider, v.qq.value)) <==>
            exists i :: 0 <= i < s && GetsAccount(t, winners, batchSize, i) && Shared(winners[i].qq, v.qq)
    ensures (v.wiki.Some? && Brought(t, winners, batchSize, s, WikiProvider, v.wiki.value)) <==>
            exists i :: 0 <= i < s && GetsAccount(t, winners, batchSize, i) && Shared(winners[i].wiki, v.wiki)
  {
    forall i | GetsAccount(t, winners, batchSize, i)
      ensures SubjectOf(winners[i], QqProvider) == winners[i].qq &&
              SubjectOf(winners[i], WikiProvider) == winners[i].wiki
    {
    }
  }

  lemma LocalPairs(now: Tables, t: Tables, winners: seq<Voter>, batchSize: nat, s: nat, e: nat, j: nat)
    requires batchSize > 0 && s <= j < e <= |winners| && GetsAccount(t, winners, batchSize, j)
    requires forall i :: s <= i <= j ==> (Creates(now)(winners[s..e][i - s]) <==> GetsAccount(t, winners, batchSize, i))
    ensures FitsAt(now, winners[s..e], j - s) <==>
            BringsNoneStored(now, winners[j]) &&
              forall i :: s <= i < j && GetsAccount(t, winners, batchSize, i) ==> !ShareSubject(winners[i], winners[j])
  {
    var chunk := winners[s..e];
    assert forall i :: 0 <= i < e - s ==> chunk[i] == winners[s + i];
    assert forall i :: s <= i < e ==> chunk[i - s] == winners[i];
  }

  lemma {:induction false} IdentityKeys(ids: map<Key, IdentityRow>, rows: seq<IdentityRow>, key: Key)
    ensures key in AddIdentities(ids, rows) <==> key in ids || key in Map(rows, RowKey())
  {
    if |rows| != 0 {
      IdentityKeys(ids, rows[..|rows|-1], key);
      MapJoin(rows[..|rows|-1], [rows[|rows|-1]]);
      assert rows == rows[..|rows|-1] + [rows[|rows|-1]];
    }
  }

  /** A survivor the batch creates has the key. */
  ghost predicate BringsAt(t: Tables, chunk: seq<Voter>, key: Key, i: int) {
    0 <= i < |chunk| && Creates(t)(chunk[i]) && SubjectOf(chunk[i], key.0) == Some(key.1)
  }

  lemma CreatorsBring(t: Tables, chunk: seq<Voter>, key: Key)
    ensures key in Flat(Filter(chunk, Creates(t)), KeysOf()) <==> exists i :: BringsAt(t, chunk, key, i)
  {
    var creators := Filter(chunk, Creates(t));
    FlatIn(creators, KeysOf(), key);
    if key in Flat(creators, KeysOf()) {
      var i :| 0 <= i < |creators| && key in KeysOf()(creators[i]);
      KeyIn(creators[i], key);
      var k := PlaceIn(chunk, Creates(t), creators[i]);
      assert BringsAt(t, chunk, key, k);
    }
    if k :| BringsAt(t, chunk, key, k) {
      KeyIn(chunk[k], key);
      assert chunk[k] in creators;
    }
  }

  lemma PlaceIn(vs: seq<Voter>, p: Voter -> bool, v: Voter) returns (k: nat)
    requires v in Filter(vs, p)
    ensures k < |vs| && vs[k] == v && p(v)
  {
    k :| 0 <= k < |vs| && vs[k] == v;
  }

  /** A batch of a plan stores the keys of those it creates. */
  lemma StoredAfter(t: Tables, chunk: seq<Voter>, losersOf: map<string, seq<string>>, key: Key)
    requires Consistent(chunk, losersOf)
    ensures key in Inserted(t, BatchOf(t, chunk, losersOf)).identities <==>
            key in t.identities || exists i :: BringsAt(t, chunk, key, i)
  {
    var rows := BatchOf(t, chunk, losersOf).identities;
    KeysOfBatch(t, chunk, losersOf);
    CreatedInPlan(t, chunk, losersOf);
    IdentityKeys(t.identities, rows, key);
    CreatorsBring(t, chunk, key);
  }

  lemma BroughtSplit(t: Tables, winners: seq<Voter>, batchSize: nat, s: nat, e: nat, p: Provider, x: string)
    requires batchSize > 0 && s <= e
    ensures Brought(t, winners, batchSize, e, p, x) <==>
            Brought(t, winners, batchSize, s, p, x) ||
              exists i :: s <= i < e && GetsAccount(t, winners, batchSize, i) && SubjectOf(winners[i], p) == Some(x)
  {
  }

  lemma ReachedNext(t: Tables, now: Tables, winners: seq<Voter>, losersOf: map<string, seq<string>>, batchSize: nat,
                    s: nat, e: nat)
    requires batchSize > 0 && Consistent(winners, losersOf) && Reached(t, now, winners, batchSize, s)
    requires IsStart(s, batchSize) && s <= e <= |winners| && e <= s + batchSize
    requires NoClash(now, BatchOf(now, winners[s..e], losersOf).identities)
    ensures Reached(t, Inserted(now, BatchOf(now, winners[s..e], losersOf)), winners, batchSize, e)
  {
    var chunk := winners[s..e];
    var next := Inserted(now, BatchOf(now, chunk, losersOf));
    ConsistentPart(winners, losersOf, s, e);
    forall i | s <= i < e
      ensures chunk[i - s] == winners[i] && (Creates(now)(chunk[i - s]) <==> GetsAccount(t, winners, batchSize, i))
    {
      CreatesNow(t, now, winners, losersOf, batchSize, s, i);
    }
    forall p, x
      ensures (p, x) in next.identities <==> (p, x) in t.identities || Brought(t, winners, batchSize, e, p, x)
    {
      StoredAfter(now, chunk, losersOf, (p, x));
      BroughtSplit(t, winners, batchSize, s, e, p, x);
      CreatedNow(t, now, winners, batchSize, s, e, p, x);
    }
    forall j | e <= j < |winners| ensures winners[j].legacyId in next.mappings <==> winners[j].legacyId in t.mappings {
      UnmappedLater(now, winners, losersOf, s, e, j);
    }
  }

  lemma CreatedNow(t: Tables, now: Tables, winners: seq<Voter>, batchSize: nat, s: nat, e: nat, p: Provider, x: string)
    requires batchSize > 0 && s <= e <= |winners|
    requires forall i :: s <= i < e ==> (Creates(now)(winners[s..e][i - s]) <==> GetsAccount(t, winners, batchSize, i))
    ensures (exists i :: BringsAt(now, winners[s..e], (p, x), i)) <==>
            exists i :: s <= i < e && GetsAccount(t, winners, batchSize, i) && SubjectOf(winners[i], p) == Some(x)
  {
    var chunk := winners[s..e];
    if i :| BringsAt(now, chunk, (p, x), i) {
      assert chunk[i] == winners[s + i] && chunk[s + i - s] == chunk[i];
      assert GetsAccount(t, winners, batchSize, s + i);
    }
    if i :| s <= i < e && GetsAccount(t, winners, batchSize, i) && SubjectOf(winners[i], p) == Some(x) {
      assert chunk[i - s] == winners[i];
      assert BringsAt(now, chunk, (p, x), i - s);
    }
  }

  lemma UnmappedLater(t: Tables, winners: seq<Voter>, losersOf: map<string, seq<string>>, s: nat, e: nat, j: nat)
    requires Consistent(winners, losersOf) && s <= e <= j < |winners|
    requires NoClash(t, BatchOf(t, winners[s..e], losersOf).identities)
    ensures winners[j].legacyId in Inserted(t, BatchOf(t, winners[s..e], losersOf)).mappings <==>
            winners[j].legacyId in t.mappings
  {
    var chunk := winners[s..e];
    BatchWell(chunk, ExistingFor(t, chunk), losersOf, t.mappings.Keys, t.nextUser);
    InsertExtends(t, BatchOf(t, chunk, losersOf));
    assert forall i :: 0 <= i < e - s ==> chunk[i] == winners[s + i];
    OthersUnmarked(Batch([], [], [], t.mappings.Keys, t.nextUser), chunk, ExistingFor(t, chunk), losersOf,
                   winners[j].legacyId);
  }

  ghost predicate AllSuit(t: Tables, winners: seq<Voter>, batchSize: nat, lo: nat, hi: nat)
    requires batchSize > 0
  {
    forall j :: lo <= j < hi ==> Suits(t, winners, batchSize, j)
  }

  lemma BatchGetsThrough(t: Tables, now: Tables, winners: seq<Voter>, losersOf: map<string, seq<string>>,
                         batchSize: nat, s: nat, e: nat)
    requires batchSize > 0 && Consistent(winners, losersOf) && Reached(t, now, winners, batchSize, s)
    requires IsStart(s, batchSize) && s <= e <= |winners| && e <= s + batchSize
    ensures NoClash(now, BatchOf(now, winners[s..e], losersOf).identities) <==> AllSuit(t, winners, batchSize, s, e)
  {
    ConsistentPart(winners, losersOf, s, e);
    PlannedBatchFits(now, winners[s..e], losersOf);
    forall j | s <= j < e ensures FitsAt(now, winners[s..e], j - s) <==> Suits(t, winners, batchSize, j) {
      SuitsNow(t, now, winners, losersOf, batchSize, s, e, j);
    }
    FitsBySuits(t, now, winners, batchSize, s, e);
  }

  ghost predicate All(p: int -> bool, lo: nat, hi: nat) { forall j :: lo <= j < hi ==> p(j) }

  /** A name for `Suits`. */
  ghost predicate IsSuits(suits: int -> bool, t: Tables, winners: seq<Voter>, batchSize: nat)
    requires batchSize > 0
  {
    forall j {:trigger Suits(t, winners, batchSize, j)} :: suits(j) <==> Suits(t, winners, batchSize, j)
  }

  lemma NamedSuits(suits: int -> bool, t: Tables, winners: seq<Voter>, batchSize: nat, lo: nat, hi: nat)
    requires batchSize > 0 && IsSuits(suits, t, winners, batchSize)
    ensures All(suits, lo, hi) <==> AllSuit(t, winners, batchSize, lo, hi)
  {
    forall j ensures suits(j) <==> Suits(t, winners, batchSize, j) {
    }
  }

  lemma StepVerdict(t: Tables, now: Tables, winners: seq<Voter>, losersOf: map<string, seq<string>>, batchSize: nat,
                    s: nat, e: nat, suits: int -> bool)
    requires batchSize > 0 && Consistent(winners, losersOf) && Reached(t, now, winners, batchSize, s)
    requires IsStart(s, batchSize) && s < |winners| && IsSuits(suits, t, winners, batchSize)
    requires e == if s + batchSize <= |winners| then s + batchSize else |winners|
    ensures var next := Inserted(now, BatchOf(now, winners[s..e], losersOf));
            Imported(now, winners[s..], losersOf, batchSize).ok <==>
              All(suits, s, e) && Imported(next, winners[e..], losersOf, batchSize).ok
  {
    ImportedStep(now, winners, losersOf, batchSize, s, e);
    BatchGetsThrough(t, now, winners, losersOf, batchSize, s, e);
    NamedSuits(suits, t, winners, batchSize, s, e);
  }

  lemma StepReached(t: Tables, now: Tables, winners: seq<Voter>, losersOf: map<string, seq<string>>, batchSize: nat,
                    s: nat, e: nat, suits: int -> bool)
    requires batchSize > 0 && Consistent(winners, losersOf) && Reached(t, now, winners, batchSize, s)
    requires IsStart(s, batchSize) && s <= e <= |winners| && e <= s + batchSize
    requires IsSuits(suits, t, winners, batchSize) && All(suits, s, e)
    ensures Reached(t, Inserted(now, BatchOf(now, winners[s..e], losersOf)), winners, batchSize, e)
  {
    NamedSuits(suits, t, winners, batchSize, s, e);
    BatchGetsThrough(t, now, winners, losersOf, batchSize, s, e);
    ReachedNext(t, now, winners, losersOf, batchSize, s, e);
  }

  /** One batch: it is inserted exactly when its survivors suit, and then the next one is due. */
  lemma StepGetsThrough(t: Tables, now: Tables, winners: seq<Voter>, losersOf: map<string, seq<string>>,
                        batchSize: nat, s: nat, e: nat, suits: int -> bool)
      returns (next: Tables)
    requires batchSize > 0 && Consistent(winners, losersOf) && Reached(t, now, winners, batchSize, s)
    requires IsStart(s, batchSize) && s < |winners| && IsSuits(suits, t, winners, batchSize)
    requires e == if s + batchSize <= |winners| then s + batchSize else |winners|
    ensures Imported(now, winners[s..], losersOf, batchSize).ok <==>
            All(suits, s, e) && Imported(next, winners[e..], losersOf, batchSize).ok
    ensures All(suits, s, e) ==> Reached(t, next, winners, batchSize, e)
  {
    next := Inserted(now, BatchOf(now, winners[s..e], losersOf));
    StepVerdict(t, now, winners, losersOf, batchSize, s, e, suits);
    if All(suits, s, e) {
      StepReached(t, now, winners, losersOf, batchSize, s, e, suits);
    }
  }

  lemma {:induction false} RestGetsThrough(t: Tables, now: Tables, winners: seq<Voter>,
                                           losersOf: map<string, seq<string>>, batchSize: nat, s: nat,
                                           suits: int -> bool)
    requires batchSize > 0 && Consistent(winners, losersOf) && Reached(t, now, winners, batchSize, s)
    requires s == |winners| || (IsStart(s, batchSize) && s < |winners|)
    requires IsSuits(suits, t, winners, batchSize)
    ensures Imported(now, winners[s..], losersOf, batchSize).ok <==> All(suits, s, |winners|)
    decreases |winners| - s
  {
    if s < |winners| {
      var e := if s + batchSize <= |winners| then s + batchSize else |winners|;
      var next := StepGetsThrough(t, now, winners, losersOf, batchSize, s, e, suits);
      if All(suits, s, e) {
        RestGetsThrough(t, next, winners, losersOf, batchSize, e, suits);
      }
    }
  }

  lemma FitsBySuits(t: Tables, now: Tables, winners: seq<Voter>, batchSize: nat, s: nat, e: nat)
    requires batchSize > 0 && s <= e <= |winners|
    requires forall j :: s <= j < e ==> (FitsAt(now, winners[s..e], j - s) <==> Suits(t, winners, batchSize, j))
    ensures Fits(now, winners[s..e]) <==> AllSuit(t, winners, batchSize, s, e)
  {
    if AllSuit(t, winners, batchSize, s, e) {
      forall j | 0 <= j < e - s ensures FitsAt(now, winners[s..e], j) {
        assert Suits(t, winners, batchSize, s + j) && s + j - s == j;
      }
    }
  }

  /** The import of a plan gets through exactly when no survivor who gets an account brings a stored QQ or wiki
      account, and no two of them share a phone, QQ or wiki account. */
  lemma GetsThroughIff(t: Tables, winners: seq<Voter>, losersOf: map<string, seq<string>>, batchSize: nat)
    requires batchSize > 0 && Consistent(winners, losersOf)
    ensures Imported(t, winners, losersOf, batchSize).ok <==> AllSuit(t, winners, batchSize, 0, |winners|)
  {
    assert winners[0..] == winners;
    ghost var suits := (j: int) => Suits(t, winners, batchSize, j);
    RestGetsThrough(t, t, winners, losersOf, batchSize, 0, suits);
    NamedSuits(suits, t, winners, batchSize, 0, |winners|);
  }

  /** From the dump to the verdict: whatever plan is made of a normalised dump, it is known beforehand whether
      the import gets through. */
  lemma PlanGetsThroughIff(plan: ImportPlan, contacts: seq<Contact>, voters: seq<Voter>, last: Activity, rules: Rules,
                           t: Tables, batchSize: nat)
    requires Distinct(Map(voters, IdOf())) && IsPlan(plan, contacts, voters, last, rules)
    requires batchSize > 0 && forall i :: 0 <= i < |voters| ==> Normalised(voters[i])
    ensures Imported(t, plan.winners, plan.losersOf, batchSize).ok <==>
            AllSuit(t, plan.winners, batchSize, 0, |plan.winners|)
  {
    PlanConsistent(plan, contacts, voters, last, rules);
    GetsThroughIff(t, plan.winners, plan.losersOf, batchSize);
  }

  // ---------- a dump that depends on the batch size ----------

  function Person(id: string, mail: string): Voter {
    Voter(id, Some(mail), true, Some("phone"), false, None, None, None, None, 0)
  }

  const EMPTY := Tables({}, map[], map[], 0)

  function TwoPersons(): seq<Voter> { [Person("a", "a@x"), Person("b", "b@x")] }

  lemma TwoConsistent(losersOf: map<string, seq<string>>)
    requires losersOf == map["a" := [], "b" := []]
    ensures Consistent(TwoPersons(), losersOf)
  {
    var vs := TwoPersons();
    assert vs[0].legacyId == "a" && vs[1].legacyId == "b" && "a"[0] != "b"[0];
    assert vs[0].email == Some("a@x") && vs[1].email == Some("b@x") && "a@x"[0] != "b@x"[0];
    assert LosersOf(losersOf, "a") == [] && LosersOf(losersOf, "b") == [];
  }

  lemma BothCreated(i: nat)
    requires i < 2
    ensures Creates(EMPTY)(TwoPersons()[i]) && TwoPersons()[i].phone == Some("phone")
  {
  }

  lemma OneBatchFails()
    ensures !Suits(EMPTY, TwoPersons(), 2, 1)
  {
    BothCreated(0);
    BothCreated(1);
    assert BatchNo(0, 2) == 0 && BatchNo(1, 2) == 0;
    assert GetsAccount(EMPTY, TwoPersons(), 2, 0) && GetsAccount(EMPTY, TwoPersons(), 2, 1);
  }

  lemma TwoBatchesSuit()
    ensures AllSuit(EMPTY, TwoPersons(), 1, 0, 2)
  {
    BothCreated(0);
    BothCreated(1);
    assert BatchNo(0, 1) == 0 && BatchNo(1, 1) == 1;
    assert Preempts(EMPTY, TwoPersons(), 1, 0, 1);
    assert !GetsAccount(EMPTY, TwoPersons(), 1, 1);
  }

  /** Two survivors with one phone and different addresses fail in one batch, at every attempt; in batches of
      their own both get through. */
  lemma SamePhoneOneBatch(losersOf: map<string, seq<string>>)
    requires losersOf == map["a" := [], "b" := []]
    ensures Consistent(TwoPersons(), losersOf)
    ensures Imported(EMPTY, TwoPersons(), losersOf, 2) == Outcome(EMPTY, false)
    ensures Imported(EMPTY, TwoPersons(), losersOf, 1).ok
  {
    TwoConsistent(losersOf);
    GetsThroughIff(EMPTY, TwoPersons(), losersOf, 2);
    GetsThroughIff(EMPTY, TwoPersons(), losersOf, 1);
    OneBatchFails();
    TwoBatchesSuit();
    assert TwoPersons()[0..] == TwoPersons();
    ImportedStep(EMPTY, TwoPersons(), losersOf, 2, 0, 2);
  }
}
