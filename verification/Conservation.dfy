/** The promise of src/apps/result/trend.py line 9: the timeline of a key adds up to the key's count
    in the ranking.  It needs both selections of compute_dao.py to end on the same ballot. */
module Conservation {
  import opened Prelude
  import opened Trend
  import opened Selection
  import opened Tally
  import opened TallyFacts
  import opened Ranking

  function KeysOf<K>(keyOf: Keying<K>): Item -> seq<K> {
    (item: Item) => match keyOf(item) case Ok(k) => [k] case Err(_) => []
  }

  function FirstFlag(): Item -> bool { (item: Item) => item.first }

  /** Some entry for `k`, first or repeated, carries the favourite mark. */
  ghost predicate MarkedAnywhere<K>(items: seq<Item>, keyOf: Keying<K>, k: K) {
    exists i :: 0 <= i < |items| && keyOf(items[i]) == Ok(k) && items[i].first
  }

  lemma {:induction false} TimelineKeys<K>(items: seq<Item>, keyOf: Keying<K>, k: K)
    ensures Mentions(items, KeysOf(keyOf), k) <==> NamesKey(items, keyOf, k)
    ensures Mentions(items, FirstKeys(KeysOf(keyOf), FirstFlag()), k) <==> MarkedAnywhere(items, keyOf, k)
  {
    if NamesKey(items, keyOf, k) {
      var i :| 0 <= i < |items| && keyOf(items[i]) == Ok(k);
      assert k in KeysOf(keyOf)(items[i]);
    }
    if MarkedAnywhere(items, keyOf, k) {
      var i :| 0 <= i < |items| && keyOf(items[i]) == Ok(k) && items[i].first;
      assert k in FirstKeys(KeysOf(keyOf), FirstFlag())(items[i]);
    }
  }

  // ---------- where the replay ends ----------

  lemma {:induction false} InForceFinal(history: seq<Snapshot<Item>>, v: string, w: Window)
    ensures InForce(history, v, w, HoursCap(w) - 1) == LastMax(Filter(history, OfVoter(v)), SnapshotKey())
  {
    if |history| != 0 {
      var front, s := history[..|history|-1], history[|history|-1];
      InForceFinal(front, v, w);
      var mine := Filter(front, OfVoter(v));
      assert (mine + [s])[..|mine|] == mine;
    }
  }

  lemma {:induction false} LastMaxOfHistory(rows: seq<StoredRow>)
    requires |rows| != 0
    ensures LastMax(Map(rows, SnapshotOf()), SnapshotKey()) == Some(SnapshotOf()(LastMax(rows, RowKey()).value))
  {
    var front, r := rows[..|rows|-1], rows[|rows|-1];
    var mapped := Map(rows, SnapshotOf());
    assert mapped[..|rows|-1] == Map(front, SnapshotOf());
    if |front| != 0 {
      LastMaxOfHistory(front);
    }
  }

  /** The row on which the replay of a voter ends: the last of the newest. */
  function ReplayEnd(rows: seq<StoredRow>, v: string): Option<StoredRow> { LastMax(RowsOf(rows, v), RowKey()) }

  lemma ReplayEndsThere(history: seq<Snapshot<Item>>, rows: seq<StoredRow>, v: string, w: Window)
    requires IsHistory(history, rows)
    ensures InForce(history, v, w, HoursCap(w) - 1) ==
            if Kept(rows, v) then Some(SnapshotOf()(ReplayEnd(rows, v).value)) else None
    ensures v in VoterSet(history) <==> Kept(rows, v)
  {
    InForceFinal(history, v, w);
    assert Kept(rows, v) || !Kept(rows, v);
    if Kept(rows, v) {
      LastMaxOfHistory(RowsOf(rows, v));
      assert Filter(history, OfVoter(v))[0] in history;
      assert OfVoter<Item>(v)(Filter(history, OfVoter(v))[0]);
    } else if v in VoterSet(history) {
      InhabitedGroup(history, VoterOf(), v);
    }
  }

  // ---------- both counts as sets of voters ----------

  type Test = seq<Item> -> bool

  ghost function LatestSupporters(rows: seq<StoredRow>, p: Test): set<string> {
    set v | v in GroupSet(rows, VoteId()) && Kept(rows, v) && p(NormalizeItems(Newest(rows, v).value.payload))
  }

  ghost function ReplaySupporters(rows: seq<StoredRow>, p: Test): set<string> {
    set v | v in GroupSet(rows, VoteId()) && Kept(rows, v) && p(NormalizeItems(ReplayEnd(rows, v).value.payload))
  }

  ghost function NamesTest<K>(keyOf: Keying<K>, k: K): Test { (items: seq<Item>) => NamesKey(items, keyOf, k) }

  ghost function MarksTest<K>(keyOf: Keying<K>, k: K): Test { (items: seq<Item>) => MarkedAnywhere(items, keyOf, k) }

  ghost function OnItems(p: Test): Ballot -> bool { (b: Ballot) => p(b.items) }

  ghost function OfKeptVoter(rows: seq<StoredRow>, p: Test): string -> bool {
    (v: string) => Kept(rows, v) && p(NormalizeItems(Newest(rows, v).value.payload))
  }

  function VoterOfBallot(): Ballot -> string { (b: Ballot) => b.voter }

  /** Counting ballots of the latest list is counting kept voters. */
  lemma LatestCount(latest: seq<Ballot>, rows: seq<StoredRow>, p: Test)
    requires IsLatest(latest, rows)
    ensures CountIf(latest, OnItems(p)) == |LatestSupporters(rows, p)|
  {
    var voters := Map(latest, VoterOfBallot());
    forall i | 0 <= i < |latest| ensures OnItems(p)(latest[i]) == OfKeptVoter(rows, p)(voters[i]) {
      assert latest[i] in latest;
    }
    CountIfPairwise(latest, OnItems(p), voters, OfKeptVoter(rows, p));
    CountIfIsCardinality(voters, OfKeptVoter(rows, p));
    forall v ensures v in Selected(voters, OfKeptVoter(rows, p)) <==> v in LatestSupporters(rows, p) {
      if v in LatestSupporters(rows, p) {
        NewestIsHis(rows, v);
        var b := BallotOf(Newest(rows, v).value);
        assert b in latest;
        var i :| 0 <= i < |latest| && latest[i] == b;
        assert voters[i] == v;
      }
      if v in Selected(voters, OfKeptVoter(rows, p)) {
        KeptVoterHasRow(rows, v);
      }
    }
    assert Selected(voters, OfKeptVoter(rows, p)) == LatestSupporters(rows, p);
  }

  lemma {:induction false} NewestIsHis(rows: seq<StoredRow>, v: string)
    requires Newest(rows, v).Some?
    ensures Newest(rows, v).value in rows && Newest(rows, v).value.voter == v
  {
    assert Newest(rows, v).value in RowsOf(rows, v);
    assert InGroup(VoteId(), v)(Newest(rows, v).value);
  }

  /** The final standing of the timeline is a count of kept voters, by the ballot the replay ends on. */
  lemma FinalStanding<K(!new)>(history: seq<Snapshot<Item>>, rows: seq<StoredRow>, keysOf: Item -> seq<K>, k: K,
                               w: Window, p: Test)
    requires IsHistory(history, rows)
    requires forall items :: p(items) <==> Mentions(items, keysOf, k)
    ensures Standing(history, keysOf, k, w, HoursCap(w) - 1) == |ReplaySupporters(rows, p)|
  {
    forall v ensures v in Supporters(history, keysOf, k, w, HoursCap(w) - 1) <==> v in ReplaySupporters(rows, p) {
      ReplayEndsThere(history, rows, v, w);
      if Kept(rows, v) {
        KeptVoterHasRow(rows, v);
      }
    }
    assert Supporters(history, keysOf, k, w, HoursCap(w) - 1) == ReplaySupporters(rows, p);
  }

  // ---------- conservation ----------

  /** No two different rows of a voter are both his newest. */
  ghost predicate UniqueNewest(rows: seq<StoredRow>) {
    forall a, b :: a in rows && b in rows && a.voter == b.voter && RowKey()(a) == RowKey()(b) && a != b ==>
      Outdated(a, rows)
  }

  ghost predicate Outdated(a: StoredRow, rows: seq<StoredRow>) {
    exists c :: c in rows && c.voter == a.voter && !LexLe(RowKey()(c), RowKey()(a))
  }

  /** Without ties the two selections agree, however the two queries happened to order the rows. */
  lemma SelectionsAgree(rows: seq<StoredRow>, rows': seq<StoredRow>, v: string)
    requires multiset(rows) == multiset(rows') && UniqueNewest(rows)
    ensures Newest(rows, v) == Newest(rows', v) == ReplayEnd(rows', v)
  {
    forall r ensures r in rows <==> r in rows' {
      assert r in rows <==> r in multiset(rows);
      assert r in rows' <==> r in multiset(rows');
    }
    var s, s' := RowsOf(rows, v), RowsOf(rows', v);
    forall r ensures r in s <==> r in s' {
      assert r in s ==> InGroup(VoteId(), v)(r);
      assert r in s' ==> InGroup(VoteId(), v)(r);
    }
    if |s| == 0 {
      if |s'| != 0 {
        assert s'[0] in s;
      }
    } else {
      assert s[0] in s';
      MaxIsGreatest(s, RowKey());
      MaxIsGreatest(s', RowKey());
      GreatestUnique(rows, s, v, Newest(rows, v).value, Newest(rows', v).value);
      GreatestUnique(rows, s, v, Newest(rows, v).value, ReplayEnd(rows', v).value);
    }
  }

  lemma GreatestUnique(rows: seq<StoredRow>, s: seq<StoredRow>, v: string, a: StoredRow, b: StoredRow)
    requires UniqueNewest(rows) && s == RowsOf(rows, v)
    requires Greatest(a, s, RowKey()) && Greatest(b, s, RowKey())
    ensures a == b
  {
    LexTotal(RowKey()(a), RowKey()(b));
    assert InGroup(VoteId(), v)(a) && InGroup(VoteId(), v)(b);
    forall c | c in rows && c.voter == a.voter ensures LexLe(RowKey()(c), RowKey()(a)) {
      assert InGroup(VoteId(), v)(c);
      assert c in s;
    }
    assert !Outdated(a, rows);
  }

  /** The newest rows of every voter are one row, or all voided. */
  ghost predicate AgreeingNewest(rows: seq<StoredRow>) {
    forall v, a, b :: IsNewest(rows, v, a) && IsNewest(rows, v, b) ==> a == b || (a.invalidated && b.invalidated)
  }

  ghost predicate IsNewest(rows: seq<StoredRow>, v: string, r: StoredRow) { Greatest(r, RowsOf(rows, v), RowKey()) }

  lemma UniqueIsAgreeing(rows: seq<StoredRow>)
    requires UniqueNewest(rows)
    ensures AgreeingNewest(rows)
  {
    forall v, a, b | IsNewest(rows, v, a) && IsNewest(rows, v, b) ensures a == b {
      GreatestUnique(rows, RowsOf(rows, v), v, a, b);
    }
  }

  lemma SameRowsOf(rows: seq<StoredRow>, rows': seq<StoredRow>, v: string, r: StoredRow)
    requires multiset(rows) == multiset(rows')
    ensures r in RowsOf(rows, v) <==> r in RowsOf(rows', v)
    ensures |RowsOf(rows, v)| == 0 <==> |RowsOf(rows', v)| == 0
  {
    SameLength(rows, rows');
    var s, s' := RowsOf(rows, v), RowsOf(rows', v);
    forall x ensures x in s <==> x in s' {
      assert x in s ==> InGroup(VoteId(), v)(x);
      assert x in s' ==> InGroup(VoteId(), v)(x);
    }
    assert |s| != 0 ==> s[0] in s';
    assert |s'| != 0 ==> s'[0] in s;
  }

  lemma SameNewest(rows: seq<StoredRow>, rows': seq<StoredRow>, v: string, r: StoredRow)
    requires multiset(rows) == multiset(rows') && IsNewest(rows', v, r)
    ensures IsNewest(rows, v, r)
  {
    SameRowsOf(rows, rows', v, r);
    forall x | x in RowsOf(rows, v) ensures LexLe(RowKey()(x), RowKey()(r)) {
      SameRowsOf(rows, rows', v, x);
    }
  }

  /** If a voter's newest rows are one row, or all voided, the two queries agree on whether he counts and on
      the row that counts, in whatever orders they return the table. */
  lemma OrdersAgree(rows: seq<StoredRow>, rows': seq<StoredRow>, v: string)
    requires multiset(rows) == multiset(rows') && AgreeingNewest(rows)
    ensures Kept(rows, v) == Kept(rows', v)
    ensures Kept(rows, v) ==> Newest(rows, v) == Newest(rows', v) == ReplayEnd(rows', v)
  {
    var s, s' := RowsOf(rows, v), RowsOf(rows', v);
    if |s| != 0 {
      SameRowsOf(rows, rows', v, s[0]);
      MaxIsGreatest(s, RowKey());
      MaxIsGreatest(s', RowKey());
      assert IsNewest(rows, v, Newest(rows, v).value);
      SameNewest(rows, rows', v, Newest(rows', v).value);
      SameNewest(rows, rows', v, ReplayEnd(rows', v).value);
    } else if |s'| != 0 {
      SameRowsOf(rows, rows', v, s'[0]);
    }
  }

  lemma SameSupporters(rows: seq<StoredRow>, rows': seq<StoredRow>, p: Test)
    requires multiset(rows) == multiset(rows') && AgreeingNewest(rows)
    ensures LatestSupporters(rows, p) == ReplaySupporters(rows', p)
  {
    forall v ensures v in LatestSupporters(rows, p) <==> v in ReplaySupporters(rows', p) {
      OrdersAgree(rows, rows', v);
      if Kept(rows, v) {
        KeptVoterHasRow(rows, v);
        KeptVoterHasRow(rows', v);
      }
    }
  }

  /** The invariant of the module docstring: the net deltas of a key sum to its vote count, and those of
      its favourites to at least its favourite count - exactly iff no counted ballot marks the key only
      on a repeated entry. */
  lemma Conservation<K(!new)>(rows: seq<StoredRow>, rows': seq<StoredRow>, latest: seq<Ballot>,
                              history: seq<Snapshot<Item>>, keyOf: Keying<K>, k: K, w: Window)
    requires multiset(rows) == multiset(rows') && AgreeingNewest(rows)
    requires IsLatest(latest, rows) && IsHistory(history, rows')
    ensures Standing(history, KeysOf(keyOf), k, w, HoursCap(w) - 1) == CountIf(latest, Naming(keyOf, k))
    ensures Standing(history, FirstKeys(KeysOf(keyOf), FirstFlag()), k, w, HoursCap(w) - 1) >=
            CountIf(latest, Marking(keyOf, k))
    ensures Standing(history, FirstKeys(KeysOf(keyOf), FirstFlag()), k, w, HoursCap(w) - 1) ==
            CountIf(latest, Marking(keyOf, k))
       <==> forall b :: b in latest && MarkedAnywhere(b.items, keyOf, k) ==> FirstEntryMarked(b.items, keyOf, k)
  {
    forall items {
      TimelineKeys(items, keyOf, k);
    }
    FinalStanding(history, rows', KeysOf(keyOf), k, w, NamesTest(keyOf, k));
    FinalStanding(history, rows', FirstKeys(KeysOf(keyOf), FirstFlag()), k, w, MarksTest(keyOf, k));
    SameSupporters(rows, rows', NamesTest(keyOf, k));
    SameSupporters(rows, rows', MarksTest(keyOf, k));
    LatestCount(latest, rows, NamesTest(keyOf, k));
    LatestCount(latest, rows, MarksTest(keyOf, k));
    CountIfSame(latest, OnItems(NamesTest(keyOf, k)), Naming(keyOf, k));
    CountIfWeaker(latest, Marking(keyOf, k), OnItems(MarksTest(keyOf, k)));
  }

  // ---------- exactly when ----------

  /** Rows that differ in their payloads only. */
  ghost predicate SameSkeleton(a: seq<StoredRow>, b: seq<StoredRow>) {
    |a| == |b| && forall i :: 0 <= i < |a| ==> b[i] == a[i].(payload := b[i].payload)
  }

  /** The position of the first (`strict`) or last newest row of a voter. */
  function NewestAt(rows: seq<StoredRow>, v: string, strict: bool): (r: Option<nat>)
    ensures r.Some? ==> r.value < |rows| && rows[r.value].voter == v
  {
    if |rows| == 0 then None else
      var n := |rows| - 1;
      var best := NewestAt(rows[..n], v, strict);
      if rows[n].voter == v && (best.None? || Beats(rows[n], rows[best.value], strict)) then Some(n) else best
  }

  predicate Beats(r: StoredRow, best: StoredRow, strict: bool) {
    if strict then !LexLe(RowKey()(r), RowKey()(best)) else LexLe(RowKey()(best), RowKey()(r))
  }

  function RowAt(rows: seq<StoredRow>, i: Option<nat>): Option<StoredRow>
    requires i.Some? ==> i.value < |rows|
  {
    if i.Some? then Some(rows[i.value]) else None
  }

  lemma {:induction false} NewestAtIsFirst(rows: seq<StoredRow>, v: string)
    ensures Newest(rows, v) == RowAt(rows, NewestAt(rows, v, true))
  {
    if |rows| != 0 {
      var front, r := rows[..|rows|-1], rows[|rows|-1];
      NewestAtIsFirst(front, v);
      assert rows == front + [r];
      FilterSnoc(front, r, InGroup(VoteId(), v));
      var mine := RowsOf(front, v);
      assert (mine + [r])[..|mine|] == mine;
    }
  }

  lemma {:induction false} NewestAtIsLast(rows: seq<StoredRow>, v: string)
    ensures ReplayEnd(rows, v) == RowAt(rows, NewestAt(rows, v, false))
  {
    if |rows| != 0 {
      var front, r := rows[..|rows|-1], rows[|rows|-1];
      NewestAtIsLast(front, v);
      assert rows == front + [r];
      FilterSnoc(front, r, InGroup(VoteId(), v));
      var mine := RowsOf(front, v);
      assert (mine + [r])[..|mine|] == mine;
    }
  }

  lemma NewestAtIsNewest(rows: seq<StoredRow>, v: string)
    ensures Newest(rows, v) == RowAt(rows, NewestAt(rows, v, true))
    ensures ReplayEnd(rows, v) == RowAt(rows, NewestAt(rows, v, false))
  {
    NewestAtIsFirst(rows, v);
    NewestAtIsLast(rows, v);
  }

  lemma SkeletonFront(a: seq<StoredRow>, b: seq<StoredRow>)
    requires SameSkeleton(a, b) && |a| != 0
    ensures SameSkeleton(a[..|a|-1], b[..|b|-1])
    ensures b[|b|-1].voter == a[|a|-1].voter && RowKey()(b[|b|-1]) == RowKey()(a[|a|-1])
  {
    assert b[|a|-1] == a[|a|-1].(payload := b[|a|-1].payload);
  }

  lemma SkeletonBeats(a: seq<StoredRow>, b: seq<StoredRow>, i: nat, j: nat, strict: bool)
    requires SameSkeleton(a, b) && i < |a| && j < |a|
    ensures Beats(b[i], b[j], strict) == Beats(a[i], a[j], strict)
  {
    assert b[i] == a[i].(payload := b[i].payload) && b[j] == a[j].(payload := b[j].payload);
  }

  lemma {:induction false} NewestAtSkeleton(a: seq<StoredRow>, b: seq<StoredRow>, v: string, strict: bool)
    requires SameSkeleton(a, b)
    ensures NewestAt(a, v, strict) == NewestAt(b, v, strict)
  {
    if |a| != 0 {
      var n := |a| - 1;
      SkeletonFront(a, b);
      NewestAtSkeleton(a[..n], b[..n], v, strict);
      var best := NewestAt(a[..n], v, strict);
      if best.Some? {
        SkeletonBeats(a, b, n, best.value, strict);
      }
    }
  }

  /** No voter whose vote counts has two newest rows: this can be read off the table without looking
      at a payload. */
  ghost predicate NoLiveTie(rows: seq<StoredRow>) {
    forall v :: v in GroupSet(rows, VoteId()) && Kept(rows, v) ==> NewestAt(rows, v, true) == NewestAt(rows, v, false)
  }

  lemma KeptSkeleton(a: seq<StoredRow>, b: seq<StoredRow>, v: string)
    requires SameSkeleton(a, b)
    ensures Kept(a, v) == Kept(b, v)
    ensures v in GroupSet(a, VoteId()) <==> v in GroupSet(b, VoteId())
  {
    NewestAtIsNewest(a, v);
    NewestAtIsNewest(b, v);
    NewestAtSkeleton(a, b, v, true);
    assert forall i :: 0 <= i < |a| ==> VoteId()(a[i]) == VoteId()(b[i]);
  }

  /** Both selections count the same, for this key. */
  ghost predicate CountsAgree<K>(rows: seq<StoredRow>, keyOf: Keying<K>, k: K) {
    |LatestSupporters(rows, NamesTest(keyOf, k))| == |ReplaySupporters(rows, NamesTest(keyOf, k))|
  }

  lemma NoTieAgrees<K>(rows: seq<StoredRow>, other: seq<StoredRow>, keyOf: Keying<K>, k: K)
    requires NoLiveTie(rows) && SameSkeleton(rows, other)
    ensures CountsAgree(other, keyOf, k)
  {
    var p := NamesTest(keyOf, k);
    forall v ensures v in LatestSupporters(other, p) <==> v in ReplaySupporters(other, p) {
      KeptSkeleton(rows, other, v);
      NewestAtIsNewest(other, v);
      NewestAtSkeleton(rows, other, v, true);
      NewestAtSkeleton(rows, other, v, false);
    }
    assert LatestSupporters(other, p) == ReplaySupporters(other, p);
  }

  /** The same rows, voting for nothing except one item in the row at position `at`. */
  function OnlyAt(rows: seq<StoredRow>, at: nat, item: Item): seq<StoredRow>
    requires at < |rows|
  {
    seq(|rows|, i requires 0 <= i < |rows| => rows[i].(payload := if i == at then [Full(item)] else []))
  }

  /** A tie is enough to break the promise for some ballots: the newest row read first votes for `k`,
      the one read last does not. */
  lemma TieBreaks<K>(rows: seq<StoredRow>, v: string, keyOf: Keying<K>, k: K, item: Item)
    requires v in GroupSet(rows, VoteId()) && Kept(rows, v) && NewestAt(rows, v, true) != NewestAt(rows, v, false)
    requires keyOf(item) == Ok(k)
    ensures exists other :: SameSkeleton(rows, other) && !CountsAgree(other, keyOf, k)
  {
    NewestAtIsNewest(rows, v);
    var at := NewestAt(rows, v, true).value;
    var other := OnlyAt(rows, at, item);
    var p := NamesTest(keyOf, k);
    assert SameSkeleton(rows, other);
    forall u ensures u in LatestSupporters(other, p) <==> u == v
             ensures u !in ReplaySupporters(other, p) {
      OnlyFirst(rows, v, u, at, keyOf, k, item);
    }
    assert LatestSupporters(other, p) == {v} && ReplaySupporters(other, p) == {};
    assert !CountsAgree(other, keyOf, k);
  }

  lemma OnlyAtNames<K>(rows: seq<StoredRow>, at: nat, i: nat, keyOf: Keying<K>, k: K, item: Item)
    requires at < |rows| && i < |rows| && keyOf(item) == Ok(k)
    ensures NamesKey(NormalizeItems(OnlyAt(rows, at, item)[i].payload), keyOf, k) <==> i == at
  {
    assert [Full(item)][..0] == [];
    assert NormalizeItems([Full(item)]) == [item];
    assert keyOf([item][0]) == Ok(k);
  }

  lemma OnlyFirst<K>(rows: seq<StoredRow>, v: string, u: string, at: nat, keyOf: Keying<K>, k: K, item: Item)
    requires v in GroupSet(rows, VoteId()) && Kept(rows, v) && NewestAt(rows, v, true) != NewestAt(rows, v, false)
    requires NewestAt(rows, v, true) == Some(at) && keyOf(item) == Ok(k)
    ensures u in LatestSupporters(OnlyAt(rows, at, item), NamesTest(keyOf, k)) <==> u == v
    ensures u !in ReplaySupporters(OnlyAt(rows, at, item), NamesTest(keyOf, k))
  {
    var other := OnlyAt(rows, at, item);
    assert SameSkeleton(rows, other);
    KeptSkeleton(rows, other, u);
    NewestAtIsNewest(other, u);
    NewestAtSkeleton(rows, other, u, true);
    NewestAtSkeleton(rows, other, u, false);
    var f, l := NewestAt(rows, u, true), NewestAt(rows, u, false);
    if f.Some? {
      OnlyAtNames(rows, at, f.value, keyOf, k, item);
    }
    if l.Some? {
      OnlyAtNames(rows, at, l.value, keyOf, k, item);
    }
  }

  /** If both queries return the rows in one and the same order, and only the payloads are unknown, the
      timeline total of a key is its vote count whatever was voted iff no counted voter has two newest
      rows.  `QueryOrders` lifts the restriction to one order. */
  lemma ConservedIffNoLiveTie<K>(rows: seq<StoredRow>, keyOf: Keying<K>, k: K, item: Item)
    requires keyOf(item) == Ok(k)
    ensures NoLiveTie(rows) <==> forall other :: SameSkeleton(rows, other) ==> CountsAgree(other, keyOf, k)
  {
    if NoLiveTie(rows) {
      forall other | SameSkeleton(rows, other) ensures CountsAgree(other, keyOf, k) {
        NoTieAgrees(rows, other, keyOf, k);
      }
    } else {
      var v :| v in GroupSet(rows, VoteId()) && Kept(rows, v) && NewestAt(rows, v, true) != NewestAt(rows, v, false);
      TieBreaks(rows, v, keyOf, k, item);
    }
  }

  // ---------- the pipeline ----------

  /** From the stored rows (read by two queries, in whatever order) to a published ranking. */
  method Publish<K(==, !new)>(rows: seq<StoredRow>, rows': seq<StoredRow>, r: Rules<K>, minVotes: nat,
                              systemId: K -> int)
    returns (lines: seq<Ranked<K>>, t: Tally<K>, ghost votes: seq<Ballot>)
    requires multiset(rows) == multiset(rows')
    ensures IsLatest(votes, rows) && Tallied(t, AllEvents(votes, r), AllDropped(votes, r.keyOf))
    ensures IsRanking(lines, t, minVotes, systemId)
    ensures AgreeingNewest(rows) ==> forall e :: e in lines ==> Conserved(e, votes, r)
  {
    var latest := LatestPerVote(rows);
    var history := HistoryPerVote(rows');
    votes := latest;
    t := CountBallots(latest, r);
    var trends := NetDeltaTrends(history, KeysOf(r.keyOf), FirstFlag(), r.w);
    lines := Rank(t, minVotes, systemId, trends);
    if AgreeingNewest(rows) {
      forall e | e in lines ensures Conserved(e, votes, r) {
        LineCounts(lines, t, minVotes, systemId, e);
        LineConserved(rows, rows', latest, history, r, t, lines, e, trends);
      }
    }
  }

  lemma LineConserved<K(!new)>(rows: seq<StoredRow>, rows': seq<StoredRow>, latest: seq<Ballot>,
                               history: seq<Snapshot<Item>>, r: Rules<K>, t: Tally<K>, lines: seq<Ranked<K>>,
                               e: Ranked<K>, trends: map<K, Timeline>)
    requires multiset(rows) == multiset(rows') && AgreeingNewest(rows)
    requires IsLatest(latest, rows) && IsHistory(history, rows')
    requires Tallied(t, AllEvents(latest, r), AllDropped(latest, r.keyOf))
    requires e in lines && e.timeline == TrendsFor(trends, e.key)
    requires e.voteCount == At(t.voteCount, e.key) && e.firstCount == At(t.firstCount, e.key)
    requires IsTimeline(TrendsFor(trends, e.key).trend, history, KeysOf(r.keyOf), e.key, r.w)
    requires IsTimeline(TrendsFor(trends, e.key).trendFirst, history, FirstKeys(KeysOf(r.keyOf), FirstFlag()), e.key,
                        r.w)
    ensures Conserved(e, latest, r)
  {
    Conservation(rows, rows', latest, history, r.keyOf, e.key, r.w);
    TallyCountsBallots(t, latest, r, AllDropped(latest, r.keyOf), e.key, "");
  }

  /** A line's timeline adds up to its counts. */
  ghost predicate Conserved<K>(e: Ranked<K>, votes: seq<Ballot>, r: Rules<K>) {
    && PointSum(e.timeline.trend, HoursCap(r.w) - 1) == e.voteCount == CountIf(votes, Naming(r.keyOf, e.key))
    && PointSum(e.timeline.trendFirst, HoursCap(r.w) - 1) >= e.firstCount == CountIf(votes, Marking(r.keyOf, e.key))
    && (PointSum(e.timeline.trendFirst, HoursCap(r.w) - 1) == e.firstCount <==>
        forall b :: b in votes && MarkedAnywhere(b.items, r.keyOf, e.key) ==> FirstEntryMarked(b.items, r.keyOf, e.key))
  }
}
