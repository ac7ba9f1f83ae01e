/** Counting the final ballots (the loops of `compute_ranking` and `compute_cp_ranking`,
    src/apps/result/compute.py).  The two loops differ only in how an item is keyed and in the
    "active" bucket, so one method stands for both. */
module Tally {
  import opened Prelude
  import opened Trend
  import opened Selection
  import opened Whitelist

  // ---------- keys ----------

  function AsToken(value: Json): string { if value.Text? then value.s else "" }

  predicate Truthy(value: Json) { match value case Text(s) => s != "" case Other(b) => b }

  /** An item either counts for a key or is dropped because of a token nobody knows. */
  type Keying<!K> = Item -> Result<K, string>

  function CharacterKey(wl: Registry): Keying<string> {
    (item: Item) =>
      var raw := AsToken(item.id);
      match wl.Canonical(raw) case Some(c) => Ok(c) case None => Err(raw)
  }

  function RawMembers(item: Item): seq<string> {
    [AsToken(item.idA), AsToken(item.idB)] + if Truthy(item.idC) then [AsToken(item.idC)] else []
  }

  /** The members' canonical tokens, or the first member that has none. */
  function CanonicalMembers(wl: Registry, raw: seq<string>): (r: Result<seq<string>, string>)
    ensures r.Ok? <==> forall i :: 0 <= i < |raw| ==> wl.Contains(raw[i])
    ensures r.Ok? ==> |r.value| == |raw| && forall i :: 0 <= i < |raw| ==> wl.Canonical(raw[i]) == Some(r.value[i])
    ensures r.Err? ==> exists i :: FirstUnknown(wl, raw, i) && raw[i] == r.error
  {
    if |raw| == 0 then Ok([]) else
      match wl.Canonical(raw[0])
      case None => assert FirstUnknown(wl, raw, 0); Err(raw[0])
      case Some(c) =>
        match CanonicalMembers(wl, raw[1..])
        case Ok(rest) => Ok([c] + rest)
        case Err(t) =>
          assert exists i :: FirstUnknown(wl, raw, i) && raw[i] == t by {
            var i :| FirstUnknown(wl, raw[1..], i) && raw[1..][i] == t;
            assert FirstUnknown(wl, raw, i + 1) && raw[i+1] == t;
          }
          Err(t)
  }

  predicate FirstUnknown(wl: Registry, raw: seq<string>, i: int) {
    0 <= i < |raw| && !wl.Contains(raw[i]) && forall j :: 0 <= j < i ==> wl.Contains(raw[j])
  }

  function CodePoints(): string -> seq<int> { (t: string) => Map(t, (c: char) => c as int) }

  /** Python's `tuple(sorted(members))`: the multiset of members in code point order. */
  function SortedTuple(members: seq<string>): seq<string> { SortBy(members, CodePoints()) }

  function CpKey(wl: Registry): Keying<seq<string>> {
    (item: Item) =>
      match CanonicalMembers(wl, RawMembers(item))
      case Ok(members) => Ok(SortedTuple(members))
      case Err(raw) => Err(raw)
  }

  function ActiveBucket(wl: Registry): Item -> string {
    (item: Item) =>
      var raw := AsToken(item.active);
      if raw != "" && wl.Contains(raw) then wl.Canonical(raw).value else "none"
  }

  function NoActive(): Item -> string { (item: Item) => "none" }

  lemma CodePointsInjective(s: string, t: string)
    requires CodePoints()(s) == CodePoints()(t)
    ensures s == t
  {
    assert |s| == |t|;
    forall i | 0 <= i < |s| ensures s[i] == t[i] {
      assert CodePoints()(s)[i] == CodePoints()(t)[i];
      assert (s[i] as int) == (t[i] as int);
    }
  }

  /** A combination is identified by its members with their multiplicities, in any order. */
  lemma SortedTupleIsMultiset(a: seq<string>, b: seq<string>)
    ensures SortedTuple(a) == SortedTuple(b) <==> multiset(a) == multiset(b)
  {
    if multiset(a) == multiset(b) {
      SortBySorted(a, CodePoints());
      SortBySorted(b, CodePoints());
      forall s, t | CodePoints()(s) == CodePoints()(t) ensures s == t {
        CodePointsInjective(s, t);
      }
      SortedUnique(SortedTuple(a), SortedTuple(b), CodePoints());
    }
  }

  datatype DropClass = Legacy8HexUnmatched | CandidateIdUnknown | Malformed

  function ClassifyDropped(raw: string): DropClass {
    if |raw| == 8 && forall i :: 0 <= i < 8 ==> '0' <= raw[i] <= '9' || 'a' <= raw[i] <= 'f' then Legacy8HexUnmatched
    else if raw != "" && forall i :: 0 <= i < |raw| ==> '0' <= raw[i] <= '9' then CandidateIdUnknown
    else Malformed
  }

  // ---------- what a ballot counts for ----------

  /** A counted vote: the first entry of one ballot for one key. */
  datatype Event<+K> = Event(key: K, first: bool, segment: string, active: string)

  function SegmentOf(segmentMap: map<string, string>, voter: string): string {
    if voter in segmentMap then segmentMap[voter] else "unknown"
  }

  predicate NamesKey<K(==)>(items: seq<Item>, keyOf: Keying<K>, k: K) {
    exists i :: 0 <= i < |items| && keyOf(items[i]) == Ok(k)
  }

  /** The entry that counts for `k` is the first one, and it decides whether `k` is a favourite. */
  ghost predicate FirstEntryMarked<K>(items: seq<Item>, keyOf: Keying<K>, k: K) {
    exists i :: 0 <= i < |items| && keyOf(items[i]) == Ok(k) && items[i].first && !NamesKey(items[..i], keyOf, k)
  }

  ghost function EventsOf<K>(items: seq<Item>, keyOf: Keying<K>, activeOf: Item -> string,
                             segment: string): seq<Event<K>> {
    if |items| == 0 then [] else
      var front, item := items[..|items|-1], items[|items|-1];
      var before := EventsOf(front, keyOf, activeOf, segment);
      match keyOf(item)
      case Ok(k) =>
        if NamesKey(front, keyOf, k) then before else before + [Event(k, item.first, segment, activeOf(item))]
      case Err(_) => before
  }

  ghost function DroppedOf<K>(items: seq<Item>, keyOf: Keying<K>): seq<string> {
    if |items| == 0 then [] else
      var before := DroppedOf(items[..|items|-1], keyOf);
      match keyOf(items[|items|-1]) case Ok(_) => before case Err(t) => before + [t]
  }

  /** Entries for a key the ballot has already named. */
  ghost function RepeatsOf<K>(items: seq<Item>, keyOf: Keying<K>): nat {
    if |items| == 0 then 0 else
      var front := items[..|items|-1];
      RepeatsOf(front, keyOf)
          + match keyOf(items[|items|-1]) case Ok(k) => (if NamesKey(front, keyOf, k) then 1 else 0) case Err(_) => 0
  }

  /** Everything the counting loop depends on besides the ballots. */
  datatype Rules<!K> = Rules(keyOf: Keying<K>, activeOf: Item -> string, segmentMap: map<string, string>, w: Window)

  ghost function AllEvents<K>(votes: seq<Ballot>, r: Rules<K>): seq<Event<K>> {
    if |votes| == 0 then [] else
      var b := votes[|votes|-1];
      AllEvents(votes[..|votes|-1], r) + EventsOf(b.items, r.keyOf, r.activeOf, SegmentOf(r.segmentMap, b.voter))
  }

  ghost function AllDropped<K>(votes: seq<Ballot>, keyOf: Keying<K>): seq<string> {
    if |votes| == 0 then [] else AllDropped(votes[..|votes|-1], keyOf) + DroppedOf(votes[|votes|-1].items, keyOf)
  }

  ghost function AllRepeats<K>(votes: seq<Ballot>, keyOf: Keying<K>): nat {
    if |votes| == 0 then 0 else AllRepeats(votes[..|votes|-1], keyOf) + RepeatsOf(votes[|votes|-1].items, keyOf)
  }

  function ItemsSeen(votes: seq<Ballot>): nat {
    if |votes| == 0 then 0 else ItemsSeen(votes[..|votes|-1]) + |votes[|votes|-1].items|
  }

  // ---------- counters ----------

  function At<A>(m: map<A, nat>, a: A): nat { if a in m then m[a] else 0 }

  function Inc<A>(m: map<A, nat>, a: A): map<A, nat> { m[a := At(m, a) + 1] }

  function Row<K, A>(m: map<K, map<A, nat>>, k: K): map<A, nat> { if k in m then m[k] else map[] }

  function Inc2<K, A>(m: map<K, map<A, nat>>, k: K, a: A): map<K, map<A, nat>> { m[k := Inc(Row(m, k), a)] }

  /** `m[a]` counts the elements `x` of `s` with `f(x) == Some(a)`, and nothing is listed at zero. */
  ghost predicate Counts<T, A(!new)>(m: map<A, nat>, s: seq<T>, f: T -> Option<A>) {
    forall a :: At(m, a) == CountIf(s, Hits(f, a)) && (a in m <==> At(m, a) > 0)
  }

  function Hits<T, A(==)>(f: T -> Option<A>, a: A): T -> bool { (x: T) => f(x) == Some(a) }

  lemma CountsSnoc<T, A(!new)>(m: map<A, nat>, s: seq<T>, f: T -> Option<A>, x: T)
    requires Counts(m, s, f)
    ensures Counts(if f(x).Some? then Inc(m, f(x).value) else m, s + [x], f)
  {
    forall a {
      CountIfSnoc(s, x, Hits(f, a));
    }
  }

  // attributes of an event that the tally counts by

  function ByKey<K>(): Event<K> -> Option<K> { (e: Event<K>) => Some(e.key) }

  function ByFirst<K>(): Event<K> -> Option<K> { (e: Event<K>) => if e.first then Some(e.key) else None }

  type Attribute<!K, A> = K -> (Event<K> -> Option<A>)

  function BySegment<K(==)>(): Attribute<K, string> {
    (k: K) => (e: Event<K>) => if e.key == k then Some(e.segment) else None
  }

  function ByActive<K(==)>(): Attribute<K, string> {
    (k: K) => (e: Event<K>) => if e.key == k then Some(e.active) else None
  }

  /** Every row of `m` counts the events of its key by the attribute `f`. */
  ghost predicate CountsRows<K(!new), A(!new)>(m: map<K, map<A, nat>>, events: seq<Event<K>>, f: Attribute<K, A>) {
    forall k {:trigger Row(m, k)} :: Counts(Row(m, k), events, f(k))
  }

  function ByClass(): string -> Option<DropClass> { (raw: string) => Some(ClassifyDropped(raw)) }

  datatype Tally<K> = Tally(voteCount: map<K, nat>, firstCount: map<K, nat>, activeCount: map<K, map<string, nat>>,
                            segmentCount: map<K, map<string, nat>>, dropped: map<DropClass, nat>)

  ghost predicate Tallied<K(!new)>(t: Tally<K>, events: seq<Event<K>>, dropped: seq<string>) {
    && Counts(t.voteCount, events, ByKey())
    && Counts(t.firstCount, events, ByFirst())
    && CountsRows(t.activeCount, events, ByActive())
    && CountsRows(t.segmentCount, events, BySegment())
    && Counts(t.dropped, dropped, ByClass())
  }

  function Counted<K>(t: Tally<K>, e: Event<K>): Tally<K> {
    Tally(Inc(t.voteCount, e.key),
          if e.first then Inc(t.firstCount, e.key) else t.firstCount,
          Inc2(t.activeCount, e.key, e.active),
          Inc2(t.segmentCount, e.key, e.segment),
          t.dropped)
  }

  lemma RowsHit<K(!new), A(!new)>(m: map<K, map<A, nat>>, events: seq<Event<K>>, e: Event<K>, f: Attribute<K, A>, a: A)
    requires CountsRows(m, events, f)
    requires forall k :: f(k)(e) == if k == e.key then Some(a) else None
    ensures CountsRows(Inc2(m, e.key, a), events + [e], f)
  {
    var r := Inc2(m, e.key, a);
    forall k ensures Counts(Row(r, k), events + [e], f(k)) {
      assert Counts(Row(m, k), events, f(k));
      CountsSnoc(Row(m, k), events, f(k), e);
    }
  }

  lemma TallySnoc<K(!new)>(t: Tally<K>, events: seq<Event<K>>, dropped: seq<string>, e: Event<K>)
    requires Tallied(t, events, dropped)
    ensures Tallied(Counted(t, e), events + [e], dropped)
  {
    CountsSnoc(t.voteCount, events, ByKey(), e);
    CountsSnoc(t.firstCount, events, ByFirst(), e);
    RowsHit(t.activeCount, events, e, ByActive(), e.active);
    RowsHit(t.segmentCount, events, e, BySegment(), e.segment);
  }

  /** The state of the counting loop inside one ballot. */
  ghost predicate InBallot<K(!new)>(t: Tally<K>, seen: set<K>, items: seq<Item>, r: Rules<K>, segment: string,
                                    events: seq<Event<K>>, dropped: seq<string>) {
    && (forall k :: k in seen <==> NamesKey(items, r.keyOf, k))
    && Tallied(t, events + EventsOf(items, r.keyOf, r.activeOf, segment), dropped + DroppedOf(items, r.keyOf))
  }

  lemma SeenSnoc<K(!new)>(items: seq<Item>, item: Item, keyOf: Keying<K>, k: K)
    ensures NamesKey(items + [item], keyOf, k) <==> NamesKey(items, keyOf, k) || keyOf(item) == Ok(k)
  {
    var next := items + [item];
    assert next[|items|] == item && forall i :: 0 <= i < |items| ==> next[i] == items[i];
  }

  lemma ItemDropped<K(!new)>(t: Tally<K>, seen: set<K>, items: seq<Item>, item: Item, r: Rules<K>, segment: string,
                             events: seq<Event<K>>, dropped: seq<string>)
    requires InBallot(t, seen, items, r, segment, events, dropped) && r.keyOf(item).Err?
    ensures InBallot(t.(dropped := Inc(t.dropped, ClassifyDropped(r.keyOf(item).error))), seen, items + [item], r,
                     segment, events, dropped)
  {
    assert (items + [item])[..|items|] == items;
    forall k {
      SeenSnoc(items, item, r.keyOf, k);
    }
    var gone := dropped + DroppedOf(items, r.keyOf);
    CountsSnoc(t.dropped, gone, ByClass(), r.keyOf(item).error);
    assert dropped + DroppedOf(items + [item], r.keyOf) == gone + [r.keyOf(item).error];
  }

  lemma ItemRepeated<K(!new)>(t: Tally<K>, seen: set<K>, items: seq<Item>, item: Item, r: Rules<K>, segment: string,
                              events: seq<Event<K>>, dropped: seq<string>)
    requires InBallot(t, seen, items, r, segment, events, dropped)
    requires r.keyOf(item).Ok? && r.keyOf(item).value in seen
    ensures InBallot(t, seen, items + [item], r, segment, events, dropped)
  {
    assert (items + [item])[..|items|] == items;
    forall k {
      SeenSnoc(items, item, r.keyOf, k);
    }
  }

  lemma ItemCounted<K(!new)>(t: Tally<K>, seen: set<K>, items: seq<Item>, item: Item, r: Rules<K>, segment: string,
                             events: seq<Event<K>>, dropped: seq<string>, e: Event<K>)
    requires InBallot(t, seen, items, r, segment, events, dropped)
    requires r.keyOf(item).Ok? && r.keyOf(item).value !in seen
    requires e == Event(r.keyOf(item).value, item.first, segment, r.activeOf(item))
    ensures InBallot(Counted(t, e), seen + {e.key}, items + [item], r, segment, events, dropped)
  {
    assert (items + [item])[..|items|] == items;
    forall k {
      SeenSnoc(items, item, r.keyOf, k);
    }
    var sofar := events + EventsOf(items, r.keyOf, r.activeOf, segment);
    TallySnoc(t, sofar, dropped + DroppedOf(items, r.keyOf), e);
    assert events + EventsOf(items + [item], r.keyOf, r.activeOf, segment) == sofar + [e];
  }

  /** One ballot. */
  method CountBallot<K(==, !new)>(t0: Tally<K>, b: Ballot, r: Rules<K>, ghost events: seq<Event<K>>,
                                  ghost dropped: seq<string>)
    returns (t: Tally<K>)
    requires Tallied(t0, events, dropped)
    ensures Tallied(t, events + EventsOf(b.items, r.keyOf, r.activeOf, SegmentOf(r.segmentMap, b.voter)),
                       dropped + DroppedOf(b.items, r.keyOf))
  {
    var segment := SegmentOf(r.segmentMap, b.voter);
    t := t0;
    var seen: set<K> := {};
    assert b.items[..0] == [] && events + [] == events && dropped + [] == dropped;
    for n := 0 to |b.items|
      invariant InBallot(t, seen, b.items[..n], r, segment, events, dropped)
    {
      var item := b.items[n];
      assert b.items[..n+1] == b.items[..n] + [item];
      var key := r.keyOf(item);
      if key.Err? {
        ItemDropped(t, seen, b.items[..n], item, r, segment, events, dropped);
        t := t.(dropped := Inc(t.dropped, ClassifyDropped(key.error)));
      } else if key.value in seen {
        ItemRepeated(t, seen, b.items[..n], item, r, segment, events, dropped);
      } else {
        var e := Event(key.value, item.first, segment, r.activeOf(item));
        ItemCounted(t, seen, b.items[..n], item, r, segment, events, dropped, e);
        seen := seen + {key.value};
        t := Counted(t, e);
      }
    }
    assert b.items[..|b.items|] == b.items;
  }

  /** The counting loop over the final ballots. */
  method CountBallots<K(==, !new)>(votes: seq<Ballot>, r: Rules<K>) returns (t: Tally<K>)
    ensures Tallied(t, AllEvents(votes, r), AllDropped(votes, r.keyOf))
  {
    t := Tally(map[], map[], map[], map[], map[]);
    for n := 0 to |votes|
      invariant Tallied(t, AllEvents(votes[..n], r), AllDropped(votes[..n], r.keyOf))
    {
      assert votes[..n+1][..n] == votes[..n];
      t := CountBallot(t, votes[n], r, AllEvents(votes[..n], r), AllDropped(votes[..n], r.keyOf));
    }
    assert votes[..|votes|] == votes;
  }
}
