/** The exact condition under which the promise of src/apps/result/trend.py line 9 holds.  The ballots and
    the history are read by two queries without an order, so the condition is one on the table that
    neither query may upset: every voter's newest rows are a single row, or all voided. */
module QueryOrders {
  import opened Prelude
  import opened Trend
  import opened Selection
  import opened Tally
  import opened TallyFacts
  import opened Conservation

  // ---------- the condition ----------

  /** Row `i` is one of the voter's newest. */
  ghost predicate IsNewestAt(rows: seq<StoredRow>, v: string, i: int) {
    && 0 <= i < |rows| && rows[i].voter == v
    && forall j :: 0 <= j < |rows| && rows[j].voter == v ==> LexLe(RowKey()(rows[j]), RowKey()(rows[i]))
  }

  /** One newest row, or none that is valid. */
  ghost predicate Decided(rows: seq<StoredRow>, v: string) {
    || (forall i, j :: IsNewestAt(rows, v, i) && IsNewestAt(rows, v, j) ==> i == j)
    || (forall i :: IsNewestAt(rows, v, i) ==> rows[i].invalidated)
  }

  ghost predicate AllDecided(rows: seq<StoredRow>) { forall v :: Decided(rows, v) }

  lemma NewestPlaced(rows: seq<StoredRow>, v: string, i: nat)
    requires i < |rows|
    ensures IsNewestAt(rows, v, i) <==> rows[i].voter == v && IsNewest(rows, v, rows[i])
  {
    forall j | 0 <= j < |rows| ensures rows[j] in RowsOf(rows, v) <==> rows[j].voter == v {
      assert InGroup(VoteId(), v)(rows[j]) <==> rows[j].voter == v;
    }
    if IsNewestAt(rows, v, i) {
      forall x | x in RowsOf(rows, v) ensures LexLe(RowKey()(x), RowKey()(rows[i])) {
        assert InGroup(VoteId(), v)(x);
        var j :| 0 <= j < |rows| && rows[j] == x;
      }
    }
  }

  lemma PlaceOfNewest(rows: seq<StoredRow>, v: string, r: StoredRow) returns (i: nat)
    requires IsNewest(rows, v, r)
    ensures i < |rows| && rows[i] == r && IsNewestAt(rows, v, i)
  {
    assert r in rows && InGroup(VoteId(), v)(r);
    i :| 0 <= i < |rows| && rows[i] == r;
    NewestPlaced(rows, v, i);
  }

  lemma DecidedIsAgreeing(rows: seq<StoredRow>)
    requires AllDecided(rows)
    ensures AgreeingNewest(rows)
  {
    forall v, a, b | IsNewest(rows, v, a) && IsNewest(rows, v, b) ensures a == b || (a.invalidated && b.invalidated) {
      var i := PlaceOfNewest(rows, v, a);
      var j := PlaceOfNewest(rows, v, b);
      assert Decided(rows, v);
    }
  }

  lemma SkeletonAt(rows: seq<StoredRow>, other: seq<StoredRow>, i: nat)
    requires SameSkeleton(rows, other) && i < |rows|
    ensures other[i].voter == rows[i].voter && RowKey()(other[i]) == RowKey()(rows[i]) &&
            other[i].invalidated == rows[i].invalidated
  {
    assert other[i] == rows[i].(payload := other[i].payload);
  }

  lemma NewestSkeleton(rows: seq<StoredRow>, other: seq<StoredRow>, v: string, i: int)
    requires SameSkeleton(rows, other)
    ensures IsNewestAt(rows, v, i) <==> IsNewestAt(other, v, i)
  {
    forall j | 0 <= j < |rows|
      ensures other[j].voter == rows[j].voter && RowKey()(other[j]) == RowKey()(rows[j])
    {
      SkeletonAt(rows, other, j);
    }
  }

  /** The condition does not look at payloads. */
  lemma DecidedSkeleton(rows: seq<StoredRow>, other: seq<StoredRow>)
    requires AllDecided(rows) && SameSkeleton(rows, other)
    ensures AllDecided(other)
  {
    forall v ensures Decided(other, v) {
      assert Decided(rows, v);
      forall i ensures IsNewestAt(rows, v, i) <==> IsNewestAt(other, v, i) {
        NewestSkeleton(rows, other, v, i);
      }
      forall i | IsNewestAt(other, v, i) ensures other[i].invalidated == rows[i].invalidated {
        SkeletonAt(rows, other, i);
      }
    }
  }

  // ---------- where maxima sit ----------

  lemma {:induction false} FirstMaxHead<T>(s: seq<T>, key: T -> seq<int>)
    requires |s| != 0 && forall y :: y in s ==> LexLe(key(y), key(s[0]))
    ensures FirstMax(s, key) == Some(s[0])
  {
    if |s| > 1 {
      FirstMaxHead(s[..|s|-1], key);
    }
  }

  lemma LastMaxTail<T>(s: seq<T>, x: T, key: T -> seq<int>)
    requires forall y :: y in s ==> LexLe(key(y), key(x))
    ensures LastMax(s + [x], key) == Some(x)
  {
    assert (s + [x])[..|s|] == s;
  }

  lemma {:induction false} LastMaxSkipsHead<T>(x: T, t: seq<T>, y: T, key: T -> seq<int>)
    requires y in t && LexLe(key(x), key(y)) && forall z :: z in t ==> LexLe(key(z), key(y))
    ensures LastMax([x] + t, key).value in t
  {
    var front, z := t[..|t|-1], t[|t|-1];
    assert t == front + [z];
    assert ([x] + t)[..|t|] == [x] + front && ([x] + t)[|t|] == z;
    var best := LastMax([x] + front, key).value;
    assert best in [x] + front;
    if !LexLe(key(best), key(z)) {
      assert y in front;
      LastMaxSkipsHead(x, front, y, key);
    }
  }

  // ---------- breaking the promise ----------

  /** The two queries return the rows of one table, with some payloads, in two orders. */
  ghost predicate TwoReads(rows: seq<StoredRow>, other: seq<StoredRow>, other': seq<StoredRow>) {
    SameSkeleton(rows, other) && multiset(other') == multiset(other)
  }

  /** The vote count of the one read is the final standing of the other. */
  ghost predicate AgreeAcross<K>(other: seq<StoredRow>, other': seq<StoredRow>, keyOf: Keying<K>, k: K) {
    |LatestSupporters(other, NamesTest(keyOf, k))| == |ReplaySupporters(other', NamesTest(keyOf, k))|
  }

  /** Only the row at `f` votes, and for `k`. */
  ghost predicate OnlyRow<K>(other: seq<StoredRow>, f: nat, keyOf: Keying<K>, k: K) {
    f < |other| && forall i :: 0 <= i < |other| ==> (NamesKey(NormalizeItems(other[i].payload), keyOf, k) <==> i == f)
  }

  lemma OnlyRowIs<K>(rows: seq<StoredRow>, f: nat, keyOf: Keying<K>, k: K, item: Item)
    requires f < |rows| && keyOf(item) == Ok(k)
    ensures SameSkeleton(rows, OnlyAt(rows, f, item)) && OnlyRow(OnlyAt(rows, f, item), f, keyOf, k)
  {
    forall i | 0 <= i < |rows|
      ensures NamesKey(NormalizeItems(OnlyAt(rows, f, item)[i].payload), keyOf, k) <==> i == f
    {
      OnlyAtNames(rows, f, i, keyOf, k, item);
    }
  }

  /** A row of the table that names `k` is the voting row. */
  lemma VotingRow<K>(other: seq<StoredRow>, f: nat, keyOf: Keying<K>, k: K, r: StoredRow)
    requires OnlyRow(other, f, keyOf, k) && r in other && NamesKey(NormalizeItems(r.payload), keyOf, k)
    ensures r == other[f]
  {
    var i :| 0 <= i < |other| && other[i] == r;
  }

  lemma FirstNewest(rows: seq<StoredRow>, v: string, i: int) returns (f: nat)
    requires IsNewestAt(rows, v, i)
    ensures f < |rows| && NewestAt(rows, v, true) == Some(f) && IsNewestAt(rows, v, f) &&
            Newest(rows, v) == Some(rows[f])
  {
    NewestPlaced(rows, v, i);
    MaxIsGreatest(RowsOf(rows, v), RowKey());
    NewestAtIsFirst(rows, v);
    f := NewestAt(rows, v, true).value;
    NewestPlaced(rows, v, f);
  }

  /** The voting row is the first newest of its voter: he alone supports `k`, if the row is valid. */
  lemma LatestOfOnly<K>(other: seq<StoredRow>, v: string, f: nat, keyOf: Keying<K>, k: K)
    requires OnlyRow(other, f, keyOf, k) && Newest(other, v) == Some(other[f]) && other[f].voter == v
    ensures LatestSupporters(other, NamesTest(keyOf, k)) == if other[f].invalidated then {} else {v}
  {
    var p := NamesTest(keyOf, k);
    forall u | u in LatestSupporters(other, p) ensures u == v && !other[f].invalidated {
      NewestIsHis(other, u);
      VotingRow(other, f, keyOf, k, Newest(other, u).value);
    }
    if !other[f].invalidated {
      KeptVoterHasRow(other, v);
    }
  }

  /** A read in which no voter's replay ends on the voting row supports nothing. */
  lemma ReplayOfNone<K>(other: seq<StoredRow>, other': seq<StoredRow>, v: string, f: nat, keyOf: Keying<K>, k: K)
    requires OnlyRow(other, f, keyOf, k) && multiset(other') == multiset(other) && other[f].voter == v
    requires ReplayEnd(other', v).Some? ==> !NamesKey(NormalizeItems(ReplayEnd(other', v).value.payload), keyOf, k)
    ensures ReplaySupporters(other', NamesTest(keyOf, k)) == {}
  {
    forall u ensures u !in ReplaySupporters(other', NamesTest(keyOf, k)) {
      if u in ReplaySupporters(other', NamesTest(keyOf, k)) {
        var r := ReplayEnd(other', u).value;
        assert r in RowsOf(other', u) && InGroup(VoteId(), u)(r);
        SameLength(other', other);
        VotingRow(other, f, keyOf, k, r);
      }
    }
  }

  lemma RowsOfConcat(a: seq<StoredRow>, b: seq<StoredRow>, v: string)
    ensures RowsOf(a + b, v) == RowsOf(a, v) + RowsOf(b, v)
  {
    FilterConcat(a, b, InGroup(VoteId(), v));
  }

  lemma RowsOfOne(r: StoredRow, v: string)
    ensures RowsOf([r], v) == if r.voter == v then [r] else []
  {
    assert [r][..0] == [];
  }

  lemma {:induction false} WithoutIn<T>(s: seq<T>, f: nat, g: nat)
    requires f < |s| && g < |s| && f != g
    ensures s[g] in Without(s, f)
  {
    if g < f {
      assert Without(s, f)[g] == s[g];
    } else {
      assert Without(s, f)[g-1] == s[g];
    }
  }

  /** Row `f` moved to the front: a replay that has another newest row to end on does not end there. */
  lemma ReplayAvoids(other: seq<StoredRow>, v: string, f: nat, g: nat) returns (r: StoredRow)
    requires IsNewestAt(other, v, f) && IsNewestAt(other, v, g) && f != g
    ensures ReplayEnd([other[f]] + Without(other, f), v) == Some(r) && r in Without(other, f)
  {
    var rest := Without(other, f);
    RowsOfConcat([other[f]], rest, v);
    RowsOfOne(other[f], v);
    WithoutIn(other, f, g);
    assert InGroup(VoteId(), v)(other[g]) && other[g] in RowsOf(rest, v);
    forall z | z in RowsOf(rest, v) ensures LexLe(RowKey()(z), RowKey()(other[g])) {
      assert z in rest && InGroup(VoteId(), v)(z);
      assert z in other[..f] || z in other[f+1..];
      var j :| 0 <= j < |other| && other[j] == z;
    }
    LastMaxSkipsHead(other[f], RowsOf(rest, v), other[g], RowKey());
    r := ReplayEnd([other[f]] + rest, v).value;
  }

  lemma OthersDoNotVote<K>(other: seq<StoredRow>, f: nat, keyOf: Keying<K>, k: K, r: StoredRow)
    requires OnlyRow(other, f, keyOf, k) && r in Without(other, f)
    ensures !NamesKey(NormalizeItems(r.payload), keyOf, k)
  {
    var m :| 0 <= m < |Without(other, f)| && Without(other, f)[m] == r;
    var i := if m < f then m else m + 1;
    assert other[i] == r;
  }

  lemma FrontPermutes<T>(s: seq<T>, f: nat)
    requires f < |s|
    ensures multiset([s[f]] + Without(s, f)) == multiset(s)
  {
    MultisetWithout(s, f);
    assert s[f] in multiset(s);
  }

  /** The first newest row is valid and there is another: one order counts it, another ends elsewhere. */
  lemma ValidTieBreaks<K>(rows: seq<StoredRow>, v: string, f: nat, g: nat, keyOf: Keying<K>, k: K, item: Item)
      returns (other': seq<StoredRow>)
    requires IsNewestAt(rows, v, f) && IsNewestAt(rows, v, g) && f != g && NewestAt(rows, v, true) == Some(f)
    requires !rows[f].invalidated && keyOf(item) == Ok(k)
    ensures TwoReads(rows, OnlyAt(rows, f, item), other') && !AgreeAcross(OnlyAt(rows, f, item), other', keyOf, k)
  {
    var other := OnlyAt(rows, f, item);
    OnlyRowIs(rows, f, keyOf, k, item);
    NewestAtSkeleton(rows, other, v, true);
    NewestAtIsFirst(other, v);
    LatestOfOnly(other, v, f, keyOf, k);
    NewestSkeleton(rows, other, v, f);
    NewestSkeleton(rows, other, v, g);
    other' := [other[f]] + Without(other, f);
    FrontPermutes(other, f);
    var r := ReplayAvoids(other, v, f, g);
    OthersDoNotVote(other, f, keyOf, k, r);
    ReplayOfNone(other, other', v, f, keyOf, k);
    assert LatestSupporters(other, NamesTest(keyOf, k)) == {v};
  }

  /** Row `a` first and row `f` last, both newest: the voter counts if `a` is valid, and his replay ends
      on `f`. */
  lemma EndsApart(other: seq<StoredRow>, v: string, f: nat, a: nat, mid: seq<StoredRow>)
    requires IsNewestAt(other, v, f) && IsNewestAt(other, v, a)
    requires forall r :: r in mid ==> r in other
    ensures var read := [other[a]] + mid + [other[f]];
            Newest(read, v) == Some(other[a]) && ReplayEnd(read, v) == Some(other[f])
  {
    var read := [other[a]] + mid + [other[f]];
    RowsOfConcat([other[a]] + mid, [other[f]], v);
    RowsOfConcat([other[a]], mid, v);
    RowsOfOne(other[a], v);
    RowsOfOne(other[f], v);
    forall z | z in RowsOf(read, v)
      ensures LexLe(RowKey()(z), RowKey()(other[a])) && LexLe(RowKey()(z), RowKey()(other[f]))
    {
      assert z in read && InGroup(VoteId(), v)(z);
      assert z in other;
      var j :| 0 <= j < |other| && other[j] == z;
    }
    FirstMaxHead(RowsOf(read, v), RowKey());
    LastMaxTail([other[a]] + RowsOf(mid, v), other[f], RowKey());
  }

  /** `s` with element `a` first and element `f` last. */
  lemma EndsPermute<T>(s: seq<T>, f: nat, a: nat) returns (mid: seq<T>)
    requires f < |s| && a < |s| && f != a
    ensures multiset([s[a]] + mid + [s[f]]) == multiset(s) && forall x :: x in mid ==> x in s
  {
    var rest := Without(s, f);
    WithoutIn(s, f, a);
    var i :| 0 <= i < |rest| && rest[i] == s[a];
    mid := Without(rest, i);
    MultisetWithout(s, f);
    MultisetWithout(rest, i);
    assert s[f] in multiset(s) && rest[i] in multiset(rest);
    forall x | x in mid ensures x in s {
      assert x in rest[..i] || x in rest[i+1..];
      assert x in rest;
      assert x in s[..f] || x in s[f+1..];
    }
  }

  /** The first newest row is voided and another is valid: one order drops the voter, another counts him. */
  lemma VoidedTieBreaks<K>(rows: seq<StoredRow>, v: string, f: nat, a: nat, keyOf: Keying<K>, k: K, item: Item)
      returns (other': seq<StoredRow>)
    requires IsNewestAt(rows, v, f) && IsNewestAt(rows, v, a) && NewestAt(rows, v, true) == Some(f)
    requires rows[f].invalidated && !rows[a].invalidated && keyOf(item) == Ok(k)
    ensures TwoReads(rows, OnlyAt(rows, f, item), other') && !AgreeAcross(OnlyAt(rows, f, item), other', keyOf, k)
  {
    var other := OnlyAt(rows, f, item);
    OnlyRowIs(rows, f, keyOf, k, item);
    NewestAtSkeleton(rows, other, v, true);
    NewestAtIsFirst(other, v);
    LatestOfOnly(other, v, f, keyOf, k);
    NewestSkeleton(rows, other, v, f);
    NewestSkeleton(rows, other, v, a);
    var mid := EndsPermute(other, f, a);
    other' := [other[a]] + mid + [other[f]];
    EndsApart(other, v, f, a, mid);
    KeptVoterHasRow(other', v);
    assert v in ReplaySupporters(other', NamesTest(keyOf, k));
    assert LatestSupporters(other, NamesTest(keyOf, k)) == {};
  }

  lemma UndecidedBreaks<K>(rows: seq<StoredRow>, v: string, keyOf: Keying<K>, k: K, item: Item)
      returns (other: seq<StoredRow>, other': seq<StoredRow>)
    requires !Decided(rows, v) && keyOf(item) == Ok(k)
    ensures TwoReads(rows, other, other') && !AgreeAcross(other, other', keyOf, k)
  {
    var i, j :| IsNewestAt(rows, v, i) && IsNewestAt(rows, v, j) && i != j;
    var f := FirstNewest(rows, v, i);
    other := OnlyAt(rows, f, item);
    if rows[f].invalidated {
      var a :| IsNewestAt(rows, v, a) && !rows[a].invalidated;
      other' := VoidedTieBreaks(rows, v, f, a, keyOf, k, item);
    } else {
      other' := ValidTieBreaks(rows, v, f, if i == f then j else i, keyOf, k, item);
    }
  }

  // ---------- exactly when ----------

  /** For a table of which the payloads and the order of the two reads are unknown, the final standing of a
      key is its vote count in every case iff the newest rows of every voter are one row or all voided. */
  lemma ConservedIffDecided<K>(rows: seq<StoredRow>, keyOf: Keying<K>, k: K, item: Item)
    requires keyOf(item) == Ok(k)
    ensures AllDecided(rows) <==>
            forall other, other' :: TwoReads(rows, other, other') ==> AgreeAcross(other, other', keyOf, k)
  {
    if AllDecided(rows) {
      forall other, other' | TwoReads(rows, other, other') ensures AgreeAcross(other, other', keyOf, k) {
        DecidedSkeleton(rows, other);
        DecidedIsAgreeing(other);
        SameSupporters(other, other', NamesTest(keyOf, k));
      }
    } else {
      var v :| !Decided(rows, v);
      var other, other' := UndecidedBreaks(rows, v, keyOf, k, item);
    }
  }

  /** What agreement across the two reads means for what they return: the timeline of `k` ends on its
      vote count. */
  lemma AcrossIsPublished<K(!new)>(rows: seq<StoredRow>, rows': seq<StoredRow>, latest: seq<Ballot>,
                                   history: seq<Snapshot<Item>>, keyOf: Keying<K>, k: K, w: Window)
    requires IsLatest(latest, rows) && IsHistory(history, rows')
    ensures AgreeAcross(rows, rows', keyOf, k)
       <==> Standing(history, KeysOf(keyOf), k, w, HoursCap(w) - 1) == CountIf(latest, Naming(keyOf, k))
  {
    forall items {
      TimelineKeys(items, keyOf, k);
    }
    FinalStanding(history, rows', KeysOf(keyOf), k, w, NamesTest(keyOf, k));
    LatestCount(latest, rows, NamesTest(keyOf, k));
    CountIfSame(latest, OnItems(NamesTest(keyOf, k)), Naming(keyOf, k));
  }

  function VoidedRow(item: Item): StoredRow { StoredRow("v", 0, None, None, true, [Full(item)]) }

  function EmptyRow(): StoredRow { StoredRow("v", 0, None, None, false, []) }

  /** Both orders of the two rows: the first row is kept, the last one ends the replay. */
  lemma TiedRead(a: StoredRow, b: StoredRow)
    requires a.voter == b.voter == "v" && RowKey()(a) == RowKey()(b)
    ensures Newest([a, b], "v") == Some(a) && ReplayEnd([a, b], "v") == Some(b)
  {
    LexTotal(RowKey()(a), RowKey()(a));
    assert IsNewestAt([b, a], "v", 0) && IsNewestAt([b, a], "v", 1);
    EndsApart([b, a], "v", 0, 1, []);
    assert [a] + [] + [b] == [a, b];
  }

  lemma VoidedRowVotes<K>(keyOf: Keying<K>, k: K, item: Item)
    requires keyOf(item) == Ok(k)
    ensures OnlyRow([VoidedRow(item), EmptyRow()], 0, keyOf, k)
  {
    assert NormalizeItems([]) == [] && [Full(item)][..0] == [] && NormalizeItems([Full(item)]) == [item];
    assert keyOf([item][0]) == Ok(k);
  }

  /** Two rows of one voter at one time, one voided: within one order nothing goes wrong, and yet one order
      drops the voter while the other counts him and ends his replay on the voided row. */
  lemma VoidedTieIsSeen<K>(keyOf: Keying<K>, k: K, item: Item)
    requires keyOf(item) == Ok(k)
    ensures var a, b := VoidedRow(item), EmptyRow();
            NoLiveTie([a, b]) && multiset([b, a]) == multiset([a, b]) && !AgreeAcross([a, b], [b, a], keyOf, k)
  {
    var a, b := VoidedRow(item), EmptyRow();
    TiedRead(a, b);
    TiedRead(b, a);
    VoidedRowVotes(keyOf, k, item);
    LatestOfOnly([a, b], "v", 0, keyOf, k);
    KeptVoterHasRow([b, a], "v");
    assert keyOf([item][0]) == Ok(k) && NormalizeItems(a.payload) == [item];
    assert "v" in ReplaySupporters([b, a], NamesTest(keyOf, k));
  }
}
