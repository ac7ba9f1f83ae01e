/** What the tally means: its counters are numbers of ballots, nothing is lost on the way, and the
    way a vote was written down does not matter. */
module TallyFacts {
  import opened Prelude
  import opened Trend
  import opened Selection
  import opened Whitelist
  import opened Tally

  // ---------- counters are numbers of ballots ----------

  function Naming<K(==)>(keyOf: Keying<K>, k: K): Ballot -> bool {
    (b: Ballot) => NamesKey(b.items, keyOf, k)
  }

  ghost function Marking<K>(keyOf: Keying<K>, k: K): Ballot -> bool {
    (b: Ballot) => FirstEntryMarked(b.items, keyOf, k)
  }

  function NamingIn<K(==)>(r: Rules<K>, k: K, seg: string): Ballot -> bool {
    (b: Ballot) => NamesKey(b.items, r.keyOf, k) && SegmentOf(r.segmentMap, b.voter) == seg
  }

  function InSegment<K>(r: Rules<K>, seg: string): Ballot -> bool {
    (b: Ballot) => SegmentOf(r.segmentMap, b.voter) == seg
  }

  /** One ballot gives one event to each key it names, marked as the first entry for the key is. */
  lemma {:induction false} BallotEvents<K(!new)>(items: seq<Item>, keyOf: Keying<K>, activeOf: Item -> string,
                                                 segment: string, k: K)
    ensures var events := EventsOf(items, keyOf, activeOf, segment);
            && CountIf(events, Hits(ByKey(), k)) == Ind(NamesKey(items, keyOf, k))
            && CountIf(events, Hits(ByFirst(), k)) == Ind(FirstEntryMarked(items, keyOf, k))
  {
    if |items| != 0 {
      var front, item := items[..|items|-1], items[|items|-1];
      assert items == front + [item];
      BallotEvents(front, keyOf, activeOf, segment, k);
      SeenSnoc(front, item, keyOf, k);
      MarkSnoc(front, item, keyOf, k);
      var before := EventsOf(front, keyOf, activeOf, segment);
      if keyOf(item).Ok? && !NamesKey(front, keyOf, keyOf(item).value) {
        var e := Event(keyOf(item).value, item.first, segment, activeOf(item));
        CountIfSnoc(before, e, Hits(ByKey(), k));
        CountIfSnoc(before, e, Hits(ByFirst(), k));
      }
    }
  }

  lemma MarkSnoc<K(!new)>(items: seq<Item>, item: Item, keyOf: Keying<K>, k: K)
    ensures FirstEntryMarked(items + [item], keyOf, k)
       <==> FirstEntryMarked(items, keyOf, k) || (keyOf(item) == Ok(k) && item.first && !NamesKey(items, keyOf, k))
  {
    var next := items + [item];
    forall i | 0 <= i <= |items| ensures next[..i] == items[..i] {
    }
    assert items[..|items|] == items;
    if FirstEntryMarked(next, keyOf, k) {
      var i :| 0 <= i < |next| && keyOf(next[i]) == Ok(k) && next[i].first && !NamesKey(next[..i], keyOf, k);
      assert i < |items| ==> next[i] == items[i];
    }
    if FirstEntryMarked(items, keyOf, k) {
      var i :| 0 <= i < |items| && keyOf(items[i]) == Ok(k) && items[i].first && !NamesKey(items[..i], keyOf, k);
      assert next[i] == items[i] && next[..i] == items[..i];
    }
    if keyOf(item) == Ok(k) && item.first && !NamesKey(items, keyOf, k) {
      assert next[|items|] == item && next[..|items|] == items;
    }
  }

  lemma {:induction false} EventSegments<K(!new)>(items: seq<Item>, keyOf: Keying<K>, activeOf: Item -> string,
                                                  segment: string)
    ensures forall e :: e in EventsOf(items, keyOf, activeOf, segment) ==> e.segment == segment
  {
    if |items| != 0 {
      EventSegments(items[..|items|-1], keyOf, activeOf, segment);
    }
  }

  /** The vote, favourite and segment counters count ballots. */
  lemma {:induction false} EventsAreBallots<K(!new)>(votes: seq<Ballot>, r: Rules<K>, k: K)
    ensures CountIf(AllEvents(votes, r), Hits(ByKey(), k)) == CountIf(votes, Naming(r.keyOf, k))
    ensures CountIf(AllEvents(votes, r), Hits(ByFirst(), k)) == CountIf(votes, Marking(r.keyOf, k))
  {
    if |votes| != 0 {
      var front, b := votes[..|votes|-1], votes[|votes|-1];
      EventsAreBallots(front, r, k);
      var events := EventsOf(b.items, r.keyOf, r.activeOf, SegmentOf(r.segmentMap, b.voter));
      BallotEvents(b.items, r.keyOf, r.activeOf, SegmentOf(r.segmentMap, b.voter), k);
      CountIfConcat(AllEvents(front, r), events, Hits(ByKey(), k));
      CountIfConcat(AllEvents(front, r), events, Hits(ByFirst(), k));
    }
  }

  lemma {:induction false} SegmentsAreBallots<K(!new)>(votes: seq<Ballot>, r: Rules<K>, k: K, seg: string)
    ensures CountIf(AllEvents(votes, r), Hits(BySegment()(k), seg)) == CountIf(votes, NamingIn(r, k, seg))
  {
    if |votes| != 0 {
      var front, b := votes[..|votes|-1], votes[|votes|-1];
      SegmentsAreBallots(front, r, k, seg);
      var mine := SegmentOf(r.segmentMap, b.voter);
      var events := EventsOf(b.items, r.keyOf, r.activeOf, mine);
      BallotEvents(b.items, r.keyOf, r.activeOf, mine, k);
      EventSegments(b.items, r.keyOf, r.activeOf, mine);
      CountIfConcat(AllEvents(front, r), events, Hits(BySegment()(k), seg));
      if mine == seg {
        CountIfSame(events, Hits(BySegment()(k), seg), Hits(ByKey(), k));
      } else {
        CountIfSame(events, Hits(BySegment()(k), seg), Nothing());
        CountNothing(events);
      }
    }
  }

  function Nothing<T>(): T -> bool { (x: T) => false }

  lemma {:induction false} CountNothing<T>(s: seq<T>)
    ensures CountIf(s, Nothing()) == 0
  {
    if |s| != 0 {
      CountNothing(s[..|s|-1]);
    }
  }

  /** The three headline counters of a tally, for every key. */
  lemma TallyCountsBallots<K(!new)>(t: Tally<K>, votes: seq<Ballot>, r: Rules<K>, dropped: seq<string>, k: K,
                                    seg: string)
    requires Tallied(t, AllEvents(votes, r), dropped)
    ensures At(t.voteCount, k) == CountIf(votes, Naming(r.keyOf, k))
    ensures At(t.firstCount, k) == CountIf(votes, Marking(r.keyOf, k))
    ensures At(Row(t.segmentCount, k), seg) == CountIf(votes, NamingIn(r, k, seg))
    ensures k in t.voteCount <==> exists b :: b in votes && NamesKey(b.items, r.keyOf, k)
  {
    EventsAreBallots(votes, r, k);
    SegmentsAreBallots(votes, r, k, seg);
    assert Counts(Row(t.segmentCount, k), AllEvents(votes, r), BySegment()(k));
    CountIfWeaker(votes, Nothing(), Naming(r.keyOf, k));
    CountNothing(votes);
  }

  /** No segment of an entry outgrows the segment itself, and favourites never outgrow votes. */
  lemma {:induction false} SharesAreFractions<K(!new)>(t: Tally<K>, votes: seq<Ballot>, r: Rules<K>,
                                                       dropped: seq<string>, k: K, seg: string)
    requires Tallied(t, AllEvents(votes, r), dropped)
    ensures At(Row(t.segmentCount, k), seg) <= CountIf(votes, InSegment(r, seg)) <= |votes|
    ensures At(Row(t.segmentCount, k), seg) <= At(t.voteCount, k) <= |votes|
    ensures At(t.firstCount, k) <= At(t.voteCount, k)
  {
    TallyCountsBallots(t, votes, r, dropped, k, seg);
    CountIfWeaker(votes, NamingIn(r, k, seg), InSegment(r, seg));
    CountIfWeaker(votes, InSegment(r, seg), InSegment(r, seg));
    CountIfWeaker(votes, NamingIn(r, k, seg), Naming(r.keyOf, k));
    CountIfWeaker(votes, Marking(r.keyOf, k), Naming(r.keyOf, k));
  }

  // ---------- nothing is lost ----------

  ghost function MapSum<A(!new)>(m: map<A, nat>): nat
    decreases m.Keys
  {
    if m == map[] then 0 else
      var a :| a in m;
      m[a] + MapSum(m - {a})
  }

  lemma {:induction false} MapSumRemove<A(!new)>(m: map<A, nat>, a: A)
    requires a in m
    ensures MapSum(m) == m[a] + MapSum(m - {a})
    decreases m.Keys
  {
    var b :| b in m && MapSum(m) == m[b] + MapSum(m - {b});
    if a != b {
      MapSumRemove(m - {b}, a);
      MapSumRemove(m - {a}, b);
      assert m - {b} - {a} == m - {a} - {b};
    }
  }

  lemma MapSumInc<A(!new)>(m: map<A, nat>, a: A)
    ensures MapSum(Inc(m, a)) == MapSum(m) + 1
  {
    MapSumRemove(Inc(m, a), a);
    if a in m {
      MapSumRemove(m, a);
      assert Inc(m, a) - {a} == m - {a};
    } else {
      assert Inc(m, a) - {a} == m;
    }
  }

  lemma {:induction false} CountsUnique<T, A(!new)>(m: map<A, nat>, m': map<A, nat>, s: seq<T>, s': seq<T>,
                                                    f: T -> Option<A>)
    requires Counts(m, s, f) && Counts(m', s', f)
    requires forall a :: CountIf(s, Hits(f, a)) == CountIf(s', Hits(f, a))
    ensures m == m'
  {
    forall a ensures a in m <==> a in m' ensures a in m ==> m[a] == m'[a] {
      assert At(m, a) == At(m', a);
    }
  }

  function Selects<T, A>(f: T -> Option<A>): T -> bool { (x: T) => f(x).Some? }

  ghost function Histogram<T, A>(s: seq<T>, f: T -> Option<A>): map<A, nat> {
    if |s| == 0 then map[] else
      var m := Histogram(s[..|s|-1], f);
      var x := s[|s|-1];
      if f(x).Some? then Inc(m, f(x).value) else m
  }

  lemma {:induction false} HistogramCounts<T, A(!new)>(s: seq<T>, f: T -> Option<A>)
    ensures Counts(Histogram(s, f), s, f)
    ensures MapSum(Histogram(s, f)) == CountIf(s, Selects(f))
  {
    if |s| != 0 {
      var front, x := s[..|s|-1], s[|s|-1];
      assert s == front + [x];
      HistogramCounts(front, f);
      CountsSnoc(Histogram(front, f), front, f, x);
      if f(x).Some? {
        MapSumInc(Histogram(front, f), f(x).value);
      }
    }
  }

  /** The counts of a counter add up to everything it counted. */
  lemma CounterTotal<T, A(!new)>(m: map<A, nat>, s: seq<T>, f: T -> Option<A>)
    requires Counts(m, s, f)
    ensures MapSum(m) == CountIf(s, Selects(f))
  {
    HistogramCounts(s, f);
    CountsUnique(m, Histogram(s, f), s, s, f);
  }

  /** Per key: the segment counts, and the "active" counts, add up to the vote count. */
  lemma BreakdownsAddUp<K(!new)>(t: Tally<K>, events: seq<Event<K>>, dropped: seq<string>, k: K)
    requires Tallied(t, events, dropped)
    ensures MapSum(Row(t.segmentCount, k)) == At(t.voteCount, k)
    ensures MapSum(Row(t.activeCount, k)) == At(t.voteCount, k)
  {
    assert Counts(Row(t.segmentCount, k), events, BySegment()(k));
    assert Counts(Row(t.activeCount, k), events, ByActive()(k));
    CounterTotal(Row(t.segmentCount, k), events, BySegment()(k));
    CounterTotal(Row(t.activeCount, k), events, ByActive()(k));
    CountIfSame(events, Selects(BySegment()(k)), Hits(ByKey(), k));
    CountIfSame(events, Selects(ByActive()(k)), Hits(ByKey(), k));
  }

  lemma {:induction false} BallotConserves<K(!new)>(items: seq<Item>, keyOf: Keying<K>, activeOf: Item -> string,
                                                    segment: string)
    ensures |items| == |EventsOf(items, keyOf, activeOf, segment)| + |DroppedOf(items, keyOf)| + RepeatsOf(items, keyOf)
  {
    if |items| != 0 {
      BallotConserves(items[..|items|-1], keyOf, activeOf, segment);
    }
  }

  lemma {:induction false} BallotsConserve<K(!new)>(votes: seq<Ballot>, r: Rules<K>)
    ensures ItemsSeen(votes) == |AllEvents(votes, r)| + |AllDropped(votes, r.keyOf)| + AllRepeats(votes, r.keyOf)
  {
    if |votes| != 0 {
      var b := votes[|votes|-1];
      BallotsConserve(votes[..|votes|-1], r);
      BallotConserves(b.items, r.keyOf, r.activeOf, SegmentOf(r.segmentMap, b.voter));
    }
  }

  lemma {:induction false} CountEverything<T>(s: seq<T>, p: T -> bool)
    requires forall x :: x in s ==> p(x)
    ensures CountIf(s, p) == |s|
  {
    if |s| != 0 {
      CountEverything(s[..|s|-1], p);
    }
  }

  /** Every item seen was counted, dropped into one of the three classes, or repeated within its ballot. */
  lemma ItemsConserved<K(!new)>(t: Tally<K>, votes: seq<Ballot>, r: Rules<K>)
    requires Tallied(t, AllEvents(votes, r), AllDropped(votes, r.keyOf))
    ensures ItemsSeen(votes)
         == MapSum(t.voteCount)
          + At(t.dropped, Legacy8HexUnmatched) + At(t.dropped, CandidateIdUnknown) + At(t.dropped, Malformed)
          + AllRepeats(votes, r.keyOf)
  {
    BallotsConserve(votes, r);
    CounterTotal(t.voteCount, AllEvents(votes, r), ByKey());
    CountEverything(AllEvents(votes, r), Selects(ByKey()));
    ThreeClasses(AllDropped(votes, r.keyOf));
  }

  lemma {:induction false} ThreeClasses(dropped: seq<string>)
    ensures |dropped| == CountIf(dropped, Hits(ByClass(), Legacy8HexUnmatched))
                       + CountIf(dropped, Hits(ByClass(), CandidateIdUnknown))
                           + CountIf(dropped, Hits(ByClass(), Malformed))
  {
    if |dropped| != 0 {
      ThreeClasses(dropped[..|dropped|-1]);
    }
  }

  // ---------- the representation does not matter ----------

  /** Two entries the rules cannot tell apart. */
  ghost predicate SameVote<K>(a: Item, b: Item, r: Rules<K>) {
    a == b || (r.keyOf(a).Ok? && r.keyOf(a) == r.keyOf(b) && a.first == b.first && r.activeOf(a) == r.activeOf(b))
  }

  ghost predicate SameBallot<K>(a: Ballot, b: Ballot, r: Rules<K>) {
    && a.voter == b.voter && a.at == b.at && |a.items| == |b.items|
    && forall i :: 0 <= i < |a.items| ==> SameVote(a.items[i], b.items[i], r)
  }

  /** `b` is `a` rewritten ballot by ballot and then shuffled. */
  ghost predicate SameVotes<K>(a: seq<Ballot>, b: seq<Ballot>, r: Rules<K>) {
    exists rewritten: seq<Ballot> ::
      |rewritten| == |a| && multiset(rewritten) == multiset(b) &&
          forall i :: 0 <= i < |a| ==> SameBallot(a[i], rewritten[i], r)
  }

  lemma {:induction false} SameItemsSameEvents<K(!new)>(a: seq<Item>, b: seq<Item>, r: Rules<K>, segment: string)
    requires |a| == |b| && forall i :: 0 <= i < |a| ==> SameVote(a[i], b[i], r)
    ensures EventsOf(a, r.keyOf, r.activeOf, segment) == EventsOf(b, r.keyOf, r.activeOf, segment)
    ensures DroppedOf(a, r.keyOf) == DroppedOf(b, r.keyOf)
  {
    if |a| != 0 {
      var n := |a| - 1;
      SameItemsSameEvents(a[..n], b[..n], r, segment);
      assert SameVote(a[n], b[n], r);
      forall k ensures NamesKey(a[..n], r.keyOf, k) <==> NamesKey(b[..n], r.keyOf, k) {
        SameItemsSameKeys(a[..n], b[..n], r, k);
        SameItemsSameKeys(b[..n], a[..n], r, k);
      }
    }
  }

  lemma {:induction false} SameItemsSameKeys<K(!new)>(a: seq<Item>, b: seq<Item>, r: Rules<K>, k: K)
    requires |a| == |b| && forall i :: 0 <= i < |a| ==> SameVote(a[i], b[i], r) || SameVote(b[i], a[i], r)
    ensures NamesKey(a, r.keyOf, k) ==> NamesKey(b, r.keyOf, k)
  {
    if i :| 0 <= i < |a| && r.keyOf(a[i]) == Ok(k) {
      assert r.keyOf(b[i]) == Ok(k);
    }
  }

  lemma {:induction false} SameBallotsSameEvents<K(!new)>(a: seq<Ballot>, b: seq<Ballot>, r: Rules<K>)
    requires |a| == |b| && forall i :: 0 <= i < |a| ==> SameBallot(a[i], b[i], r)
    ensures AllEvents(a, r) == AllEvents(b, r)
    ensures AllDropped(a, r.keyOf) == AllDropped(b, r.keyOf)
  {
    if |a| != 0 {
      var n := |a| - 1;
      SameBallotsSameEvents(a[..n], b[..n], r);
      assert SameBallot(a[n], b[n], r);
      SameItemsSameEvents(a[n].items, b[n].items, r, SegmentOf(r.segmentMap, a[n].voter));
    }
  }

  ghost function BallotEventsOf<K>(b: Ballot, r: Rules<K>): seq<Event<K>> {
    EventsOf(b.items, r.keyOf, r.activeOf, SegmentOf(r.segmentMap, b.voter))
  }

  lemma EventsSnoc<K(!new)>(votes: seq<Ballot>, b: Ballot, r: Rules<K>, p: Event<K> -> bool)
    ensures CountIf(AllEvents(votes + [b], r), p) == CountIf(AllEvents(votes, r), p) + CountIf(BallotEventsOf(b, r), p)
  {
    assert (votes + [b])[..|votes|] == votes;
    CountIfConcat(AllEvents(votes, r), BallotEventsOf(b, r), p);
  }

  lemma {:induction false} EventsWithout<K(!new)>(votes: seq<Ballot>, i: nat, r: Rules<K>, p: Event<K> -> bool)
    requires i < |votes|
    ensures CountIf(AllEvents(votes, r), p) ==
            CountIf(AllEvents(Without(votes, i), r), p) + CountIf(BallotEventsOf(votes[i], r), p)
  {
    var n := |votes| - 1;
    assert votes == votes[..n] + [votes[n]];
    EventsSnoc(votes[..n], votes[n], r, p);
    if i == n {
      assert Without(votes, i) == votes[..n];
    } else {
      assert Without(votes, i) == Without(votes[..n], i) + [votes[n]];
      EventsWithout(votes[..n], i, r, p);
      EventsSnoc(Without(votes[..n], i), votes[n], r, p);
    }
  }

  lemma DroppedSnoc<K(!new)>(votes: seq<Ballot>, b: Ballot, keyOf: Keying<K>, p: string -> bool)
    ensures CountIf(AllDropped(votes + [b], keyOf), p) ==
            CountIf(AllDropped(votes, keyOf), p) + CountIf(DroppedOf(b.items, keyOf), p)
  {
    assert (votes + [b])[..|votes|] == votes;
    CountIfConcat(AllDropped(votes, keyOf), DroppedOf(b.items, keyOf), p);
  }

  lemma {:induction false} DroppedWithout<K(!new)>(votes: seq<Ballot>, i: nat, keyOf: Keying<K>, p: string -> bool)
    requires i < |votes|
    ensures CountIf(AllDropped(votes, keyOf), p)
         == CountIf(AllDropped(Without(votes, i), keyOf), p) + CountIf(DroppedOf(votes[i].items, keyOf), p)
  {
    var n := |votes| - 1;
    assert votes == votes[..n] + [votes[n]];
    DroppedSnoc(votes[..n], votes[n], keyOf, p);
    if i == n {
      assert Without(votes, i) == votes[..n];
    } else {
      assert Without(votes, i) == Without(votes[..n], i) + [votes[n]];
      DroppedWithout(votes[..n], i, keyOf, p);
      DroppedSnoc(Without(votes[..n], i), votes[n], keyOf, p);
    }
  }

  /** The order of the ballots does not show in any count. */
  lemma {:induction false} ShuffledEvents<K(!new)>(a: seq<Ballot>, b: seq<Ballot>, r: Rules<K>, p: Event<K> -> bool,
                                                   q: string -> bool)
    requires multiset(a) == multiset(b)
    ensures CountIf(AllEvents(a, r), p) == CountIf(AllEvents(b, r), p)
    ensures CountIf(AllDropped(a, r.keyOf), q) == CountIf(AllDropped(b, r.keyOf), q)
  {
    assert |a| == |multiset(a)| == |multiset(b)| == |b|;
    if |a| != 0 {
      var n := |a| - 1;
      assert a[n] in multiset(a);
      var i := IndexIn(b, a[n]);
      MultisetWithout(a, n);
      MultisetWithout(b, i);
      ShuffledEvents(Without(a, n), Without(b, i), r, p, q);
      EventsWithout(a, n, r, p);
      EventsWithout(b, i, r, p);
      DroppedWithout(a, n, r.keyOf, q);
      DroppedWithout(b, i, r.keyOf, q);
    }
  }

  lemma EventCounterIgnoresOrder<K(!new), A(!new)>(m: map<A, nat>, m': map<A, nat>, a: seq<Ballot>, b: seq<Ballot>,
                                                   r: Rules<K>, f: Event<K> -> Option<A>)
    requires Counts(m, AllEvents(a, r), f) && Counts(m', AllEvents(b, r), f) && multiset(a) == multiset(b)
    ensures m == m'
  {
    forall x ensures CountIf(AllEvents(a, r), Hits(f, x)) == CountIf(AllEvents(b, r), Hits(f, x)) {
      ShuffledEvents(a, b, r, Hits(f, x), Nothing());
    }
    CountsUnique(m, m', AllEvents(a, r), AllEvents(b, r), f);
  }

  /** Swapping a token for another token of the same entry, reordering the members of a combination,
      or shuffling the ballots changes no counter of the tally. */
  lemma TallyIgnoresRepresentation<K(!new)>(t: Tally<K>, t': Tally<K>, a: seq<Ballot>, b: seq<Ballot>, r: Rules<K>,
                                            k: K)
    requires Tallied(t, AllEvents(a, r), AllDropped(a, r.keyOf))
    requires Tallied(t', AllEvents(b, r), AllDropped(b, r.keyOf))
    requires SameVotes(a, b, r)
    ensures t.voteCount == t'.voteCount && t.firstCount == t'.firstCount && t.dropped == t'.dropped
    ensures Row(t.segmentCount, k) == Row(t'.segmentCount, k)
    ensures Row(t.activeCount, k) == Row(t'.activeCount, k)
  {
    var rewritten: seq<Ballot> :|
      |rewritten| == |a| && multiset(rewritten) == multiset(b) &&
          forall i :: 0 <= i < |a| ==> SameBallot(a[i], rewritten[i], r);
    SameBallotsSameEvents(a, rewritten, r);
    var events := AllEvents(a, r);
    EventCounterIgnoresOrder(t.voteCount, t'.voteCount, rewritten, b, r, ByKey());
    EventCounterIgnoresOrder(t.firstCount, t'.firstCount, rewritten, b, r, ByFirst());
    assert Counts(Row(t.segmentCount, k), events, BySegment()(k)) &&
      Counts(Row(t'.segmentCount, k), AllEvents(b, r), BySegment()(k));
    EventCounterIgnoresOrder(Row(t.segmentCount, k), Row(t'.segmentCount, k), rewritten, b, r, BySegment()(k));
    assert Counts(Row(t.activeCount, k), events, ByActive()(k)) &&
      Counts(Row(t'.activeCount, k), AllEvents(b, r), ByActive()(k));
    EventCounterIgnoresOrder(Row(t.activeCount, k), Row(t'.activeCount, k), rewritten, b, r, ByActive()(k));
    forall x
      ensures CountIf(AllDropped(a, r.keyOf), Hits(ByClass(), x)) == CountIf(AllDropped(b, r.keyOf), Hits(ByClass(), x))
    {
      ShuffledEvents(rewritten, b, r, Nothing(), Hits(ByClass(), x));
    }
    CountsUnique(t.dropped, t'.dropped, AllDropped(a, r.keyOf), AllDropped(b, r.keyOf), ByClass());
  }

  /** Another token of the same entry is the same character vote. */
  lemma TokenSwapSameVote(wl: Registry, a: Item, b: Item, segmentMap: map<string, string>, w: Window)
    requires wl.Valid()
    requires wl.Contains(AsToken(a.id)) && wl.Contains(AsToken(b.id))
    ensures SameVote(a, b, Rules(CharacterKey(wl), NoActive(), segmentMap, w))
       <==> a == b || (wl.byToken[AsToken(a.id)] == wl.byToken[AsToken(b.id)] && a.first == b.first)
  {
    wl.CanonicalIsIdentity(AsToken(a.id), AsToken(b.id));
  }

  /** The registry entry of a known token. */
  function EntryOf(wl: Registry): string -> Option<Entry> {
    (t: string) => if wl.Contains(t) then Some(wl.byToken[t]) else None
  }

  function CanonicalOf(): Option<Entry> -> string {
    (e: Option<Entry>) => if e.Some? then Str(e.value.candidateId) else ""
  }

  lemma EntriesOfMembers(wl: Registry, raw: seq<string>)
    requires wl.Valid() && CanonicalMembers(wl, raw).Ok?
    ensures Map(CanonicalMembers(wl, raw).value, EntryOf(wl)) == Map(raw, EntryOf(wl))
    ensures Map(Map(raw, EntryOf(wl)), CanonicalOf()) == CanonicalMembers(wl, raw).value
  {
    var members := CanonicalMembers(wl, raw).value;
    forall i | 0 <= i < |raw|
      ensures EntryOf(wl)(members[i]) == EntryOf(wl)(raw[i]) && CanonicalOf()(EntryOf(wl)(raw[i])) == members[i]
    {
      assert wl.Canonical(raw[i]) == Some(members[i]);
      wl.OwnToken(wl.byToken[raw[i]]);
    }
  }

  /** Two fully known combinations are the same key iff they consist of the same entries with the
      same multiplicities, however they are ordered and by whichever tokens they are named. */
  lemma CombinationKey(wl: Registry, a: Item, b: Item)
    requires wl.Valid() && CanonicalMembers(wl, RawMembers(a)).Ok? && CanonicalMembers(wl, RawMembers(b)).Ok?
    ensures CpKey(wl)(a) == CpKey(wl)(b)
       <==> multiset(Map(RawMembers(a), EntryOf(wl))) == multiset(Map(RawMembers(b), EntryOf(wl)))
  {
    var x, y := CanonicalMembers(wl, RawMembers(a)).value, CanonicalMembers(wl, RawMembers(b)).value;
    SortedTupleIsMultiset(x, y);
    EntriesOfMembers(wl, RawMembers(a));
    EntriesOfMembers(wl, RawMembers(b));
    if multiset(x) == multiset(y) {
      MapPermuted(x, y, EntryOf(wl));
    }
    if multiset(Map(RawMembers(a), EntryOf(wl))) == multiset(Map(RawMembers(b), EntryOf(wl))) {
      MapPermuted(Map(RawMembers(a), EntryOf(wl)), Map(RawMembers(b), EntryOf(wl)), CanonicalOf());
    }
  }
}
