/** The published rankings (the second half of `compute_ranking` and `compute_cp_ranking`,
    src/apps/result/compute.py). */
module Ranking {
  import opened Prelude
  import opened Trend
  import opened Selection
  import opened Whitelist
  import opened Tally
  import opened TallyFacts

  /** One line of a ranking: `rank` is its position, `displayRank` the shared place shown to readers. */
  datatype Ranked<+K> = Ranked(key: K, rank: nat, displayRank: nat, voteCount: nat, firstCount: nat,
                               segments: map<string, nat>, active: map<string, nat>, timeline: Timeline)

  /** Votes, then favourites, then the entry's system id. */
  function SortKey<K>(votes: map<K, nat>, firsts: map<K, nat>, systemId: K -> int): K -> seq<int> {
    (k: K) => [-(At(votes, k) as int), -(At(firsts, k) as int), systemId(k)]
  }

  function MoreVotes<K>(votes: map<K, nat>, n: int): K -> bool { (k: K) => At(votes, k) > n }

  function KeyOfLine<K>(): Ranked<K> -> K { (e: Ranked<K>) => e.key }

  ghost predicate IsOrder<K(!new)>(keys: seq<K>, t: Tally<K>, minVotes: nat, systemId: K -> int) {
    && Distinct(keys)
    && (forall k :: k in keys <==> k in t.voteCount && t.voteCount[k] >= minVotes)
    && SortedBy(keys, SortKey(t.voteCount, t.firstCount, systemId))
  }

  /** A competition ranking: the eligible keys in order, every display rank one more than the number
      of listed keys with strictly more votes. */
  ghost predicate IsRanking<K(!new)>(lines: seq<Ranked<K>>, t: Tally<K>, minVotes: nat, systemId: K -> int) {
    var keys := Map(lines, KeyOfLine());
    && IsOrder(keys, t, minVotes, systemId)
    && forall i :: 0 <= i < |lines| ==> IsLine(lines[i], keys, i, t)
  }

  ghost predicate IsLine<K>(e: Ranked<K>, keys: seq<K>, i: nat, t: Tally<K>) {
    && e.rank == i + 1
    && e.voteCount == At(t.voteCount, e.key) && e.firstCount == At(t.firstCount, e.key)
    && e.displayRank == 1 + CountIf(keys, MoreVotes(t.voteCount, e.voteCount))
    && e.segments == Row(t.segmentCount, e.key) && e.active == Row(t.activeCount, e.key)
  }

  lemma MoreVotesFirst<K>(t: Tally<K>, systemId: K -> int, a: K, b: K)
    requires LexLe(SortKey(t.voteCount, t.firstCount, systemId)(a), SortKey(t.voteCount, t.firstCount, systemId)(b))
    ensures At(t.voteCount, a) >= At(t.voteCount, b)
  {
  }

  /** If exactly the first `n` elements satisfy `p`, the count is `n`. */
  lemma {:induction false} CountPrefix<T>(s: seq<T>, n: nat, p: T -> bool)
    requires n <= |s|
    requires forall i :: 0 <= i < |s| ==> (p(s[i]) <==> i < n)
    ensures CountIf(s, p) == n
  {
    if |s| != 0 {
      CountPrefix(s[..|s|-1], Min(n, |s| - 1), p);
    }
  }

  /** The position at which the current vote count was first met decides the display rank. */
  lemma DisplayRank<K>(keys: seq<K>, t: Tally<K>, systemId: K -> int, first: nat, i: nat)
    requires SortedBy(keys, SortKey(t.voteCount, t.firstCount, systemId))
    requires first <= i < |keys| && At(t.voteCount, keys[first]) == At(t.voteCount, keys[i])
    requires first > 0 ==> At(t.voteCount, keys[first-1]) != At(t.voteCount, keys[first])
    ensures CountIf(keys, MoreVotes(t.voteCount, At(t.voteCount, keys[i]))) == first
  {
    var p := MoreVotes(t.voteCount, At(t.voteCount, keys[i]));
    forall j | 0 <= j < |keys| ensures p(keys[j]) <==> j < first {
      if j < first - 1 {
        MoreVotesFirst(t, systemId, keys[j], keys[first-1]);
      }
      if j <= first - 1 {
        MoreVotesFirst(t, systemId, keys[first-1], keys[first]);
      }
      if first < j {
        MoreVotesFirst(t, systemId, keys[first], keys[j]);
      }
    }
    CountPrefix(keys, first, p);
  }

  /** `sorted(eligible, key=...)` over a set of keys. */
  method Order<K(==, !new)>(t: Tally<K>, minVotes: nat, systemId: K -> int) returns (keys: seq<K>)
    ensures IsOrder(keys, t, minVotes, systemId)
  {
    var eligible := set k | k in t.voteCount && t.voteCount[k] >= minVotes;
    var listed := Elements(eligible);
    keys := SortBy(listed, SortKey(t.voteCount, t.firstCount, systemId));
    SortBySorted(listed, SortKey(t.voteCount, t.firstCount, systemId));
    SortByDistinct(listed, SortKey(t.voteCount, t.firstCount, systemId));
  }

  /** `prevVotes` is the vote count of the last line, `prevDisplay` the first place with that count. */
  ghost predicate TieState<K>(keys: seq<K>, t: Tally<K>, i: nat, prevVotes: Option<nat>, prevDisplay: nat)
    requires i <= |keys|
  {
    if i == 0 then prevVotes.None? else
      && prevVotes == Some(At(t.voteCount, keys[i-1])) && 1 <= prevDisplay <= i
      && At(t.voteCount, keys[prevDisplay-1]) == At(t.voteCount, keys[i-1])
      && (prevDisplay > 1 ==> At(t.voteCount, keys[prevDisplay-2]) != At(t.voteCount, keys[prevDisplay-1]))
  }

  /** A vote count met for the first time starts a tie at its own position. */
  lemma TieStarts<K>(keys: seq<K>, t: Tally<K>, systemId: K -> int, i: nat)
    requires SortedBy(keys, SortKey(t.voteCount, t.firstCount, systemId)) && i < |keys|
    requires i > 0 ==> At(t.voteCount, keys[i-1]) != At(t.voteCount, keys[i])
    ensures TieState(keys, t, i + 1, Some(At(t.voteCount, keys[i])), i + 1)
    ensures i + 1 == 1 + CountIf(keys, MoreVotes(t.voteCount, At(t.voteCount, keys[i])))
  {
    DisplayRank(keys, t, systemId, i, i);
  }

  /** The same vote count continues the tie of the line before. */
  lemma TieContinues<K>(keys: seq<K>, t: Tally<K>, systemId: K -> int, i: nat, display: nat)
    requires SortedBy(keys, SortKey(t.voteCount, t.firstCount, systemId)) && 0 < i < |keys|
    requires At(t.voteCount, keys[i-1]) == At(t.voteCount, keys[i]) &&
             TieState(keys, t, i, Some(At(t.voteCount, keys[i-1])), display)
    ensures TieState(keys, t, i + 1, Some(At(t.voteCount, keys[i])), display)
    ensures display == 1 + CountIf(keys, MoreVotes(t.voteCount, At(t.voteCount, keys[i])))
  {
    var first: nat := display - 1;
    assert first > 0 ==> At(t.voteCount, keys[first-1]) != At(t.voteCount, keys[first]);
    DisplayRank(keys, t, systemId, first, i);
  }

  /** Moving to the next line keeps or restarts the tie, and either way yields its display rank. */
  lemma TieStep<K>(keys: seq<K>, t: Tally<K>, systemId: K -> int, i: nat, prevVotes: Option<nat>, prevDisplay: nat)
    requires SortedBy(keys, SortKey(t.voteCount, t.firstCount, systemId)) && i < |keys|
    requires TieState(keys, t, i, prevVotes, prevDisplay)
    ensures var vc := At(t.voteCount, keys[i]);
            var display := if Some(vc) != prevVotes then i + 1 else prevDisplay;
            && TieState(keys, t, i + 1, Some(vc), display)
            && display == 1 + CountIf(keys, MoreVotes(t.voteCount, vc))
  {
    if Some(At(t.voteCount, keys[i])) != prevVotes {
      TieStarts(keys, t, systemId, i);
    } else {
      TieContinues(keys, t, systemId, i, prevDisplay);
    }
  }

  ghost predicate Listed<K>(lines: seq<Ranked<K>>, keys: seq<K>, t: Tally<K>, timelines: map<K, Timeline>) {
    && |lines| <= |keys|
    && forall j :: 0 <= j < |lines| ==> ListedAt(lines[j], keys, j, t, timelines)
  }

  ghost predicate ListedAt<K>(e: Ranked<K>, keys: seq<K>, j: nat, t: Tally<K>, timelines: map<K, Timeline>)
    requires j < |keys|
  {
    e.key == keys[j] && IsLine(e, keys, j, t) && e.timeline == TrendsFor(timelines, keys[j])
  }

  lemma {:induction false} LineCounts<K(!new)>(lines: seq<Ranked<K>>, t: Tally<K>, minVotes: nat, systemId: K -> int,
                                               e: Ranked<K>)
    requires IsRanking(lines, t, minVotes, systemId) && e in lines
    ensures e.voteCount == At(t.voteCount, e.key) && e.firstCount == At(t.firstCount, e.key)
  {
    var i :| 0 <= i < |lines| && lines[i] == e;
    assert IsLine(e, Map(lines, KeyOfLine()), i, t);
  }

  lemma ListedAll<K(!new)>(lines: seq<Ranked<K>>, keys: seq<K>, t: Tally<K>, timelines: map<K, Timeline>,
                           minVotes: nat, systemId: K -> int)
    requires Listed(lines, keys, t, timelines) && |lines| == |keys|
    requires IsOrder(keys, t, minVotes, systemId)
    ensures IsRanking(lines, t, minVotes, systemId)
    ensures forall e :: e in lines ==> e.timeline == TrendsFor(timelines, e.key)
  {
    assert Map(lines, KeyOfLine()) == keys;
  }

  method Rank<K(==, !new)>(t: Tally<K>, minVotes: nat, systemId: K -> int, timelines: map<K, Timeline>)
      returns (lines: seq<Ranked<K>>)
    ensures IsRanking(lines, t, minVotes, systemId)
    ensures forall i, j :: 0 <= i < j < |lines| ==> Before(lines[i], lines[j], systemId)
    ensures forall e :: e in lines ==> e.timeline == TrendsFor(timelines, e.key)
  {
    var keys := Order(t, minVotes, systemId);
    lines := ListLines(keys, t, systemId, timelines);
    ListedAll(lines, keys, t, timelines, minVotes, systemId);
    LinesInOrder(lines, t, minVotes, systemId);
  }

  /** The loop over the sorted keys. */
  method ListLines<K(==, !new)>(keys: seq<K>, t: Tally<K>, systemId: K -> int, timelines: map<K, Timeline>)
      returns (lines: seq<Ranked<K>>)
    requires SortedBy(keys, SortKey(t.voteCount, t.firstCount, systemId))
    ensures |lines| == |keys| && Listed(lines, keys, t, timelines)
  {
    lines := [];
    var prevVotes: Option<nat> := None;
    var prevDisplay: nat := 0;
    for i := 0 to |keys|
      invariant |lines| == i && Listed(lines, keys, t, timelines)
      invariant TieState(keys, t, i, prevVotes, prevDisplay)
    {
      var k := keys[i];
      var vc := At(t.voteCount, k);
      TieStep(keys, t, systemId, i, prevVotes, prevDisplay);
      if Some(vc) != prevVotes {
        prevDisplay := i + 1;
        prevVotes := Some(vc);
      }
      var line := Ranked(k, i + 1, prevDisplay, vc, At(t.firstCount, k),
                         Row(t.segmentCount, k), Row(t.activeCount, k), TrendsFor(timelines, k));
      assert ListedAt(line, keys, i, t, timelines);
      lines := lines + [line];
    }
  }

  /** More votes first, then more favourites, then the smaller system id. */
  predicate Before<K>(a: Ranked<K>, b: Ranked<K>, systemId: K -> int) {
    || a.voteCount > b.voteCount
    || (a.voteCount == b.voteCount && a.firstCount > b.firstCount)
    || (a.voteCount == b.voteCount && a.firstCount == b.firstCount && systemId(a.key) <= systemId(b.key))
  }

  lemma SortKeyMeans<K>(votes: map<K, nat>, firsts: map<K, nat>, systemId: K -> int, a: K, b: K)
    ensures LexLe(SortKey(votes, firsts, systemId)(a), SortKey(votes, firsts, systemId)(b)) <==>
            || At(votes, a) > At(votes, b)
            || (At(votes, a) == At(votes, b) && At(firsts, a) > At(firsts, b))
            || (At(votes, a) == At(votes, b) && At(firsts, a) == At(firsts, b) && systemId(a) <= systemId(b))
  {
    var s, t := SortKey(votes, firsts, systemId)(a), SortKey(votes, firsts, systemId)(b);
    LexSingle(systemId(a), systemId(b));
    assert s[1..][1..] == [systemId(a)] && t[1..][1..] == [systemId(b)];
    assert LexLe(s[1..], t[1..]) <==> s[1] < t[1] || (s[1] == t[1] && LexLe(s[1..][1..], t[1..][1..]));
  }

  lemma LinesInOrder<K(!new)>(lines: seq<Ranked<K>>, t: Tally<K>, minVotes: nat, systemId: K -> int)
    requires IsRanking(lines, t, minVotes, systemId)
    ensures forall i, j :: 0 <= i < j < |lines| ==> Before(lines[i], lines[j], systemId)
  {
    var keys := Map(lines, KeyOfLine());
    forall i, j | 0 <= i < j < |lines| ensures Before(lines[i], lines[j], systemId) {
      assert LexLe(SortKey(t.voteCount, t.firstCount, systemId)(keys[i]),
                   SortKey(t.voteCount, t.firstCount, systemId)(keys[j]));
      SortKeyMeans(t.voteCount, t.firstCount, systemId, keys[i], keys[j]);
      assert IsLine(lines[i], keys, i, t) && IsLine(lines[j], keys, j, t);
    }
  }

  ghost predicate SameLine<K>(a: Ranked<K>, b: Ranked<K>) {
    a.key == b.key && a.rank == b.rank && a.displayRank == b.displayRank && a.voteCount == b.voteCount &&
      a.firstCount == b.firstCount
  }

  /** With pairwise distinct system ids there is only one ranking of given counters. */
  lemma RankingUnique<K(!new)>(a: seq<Ranked<K>>, b: seq<Ranked<K>>, t: Tally<K>, t': Tally<K>, minVotes: nat,
                               systemId: K -> int)
    requires IsRanking(a, t, minVotes, systemId) && IsRanking(b, t', minVotes, systemId)
    requires t.voteCount == t'.voteCount && t.firstCount == t'.firstCount
    requires forall k, l :: k in t.voteCount && l in t.voteCount && systemId(k) == systemId(l) ==> k == l
    ensures |a| == |b| && forall i :: 0 <= i < |a| ==> SameLine(a[i], b[i])
  {
    var ka, kb := Map(a, KeyOfLine()), Map(b, KeyOfLine());
    SameElementsSameBag(ka, kb);
    forall k, l | k in ka && l in ka &&
          SortKey(t.voteCount, t.firstCount, systemId)(k) == SortKey(t.voteCount, t.firstCount, systemId)(l)
      ensures k == l
    {
      assert SortKey(t.voteCount, t.firstCount, systemId)(k)[2] == systemId(k) &&
        SortKey(t.voteCount, t.firstCount, systemId)(l)[2] == systemId(l);
    }
    SortedUnique(ka, kb, SortKey(t.voteCount, t.firstCount, systemId));
    forall i | 0 <= i < |a| ensures SameLine(a[i], b[i]) {
      assert ka[i] == kb[i];
      assert IsLine(a[i], ka, i, t) && IsLine(b[i], kb, i, t');
      CountIfSame(ka, MoreVotes(t.voteCount, a[i].voteCount), MoreVotes(t'.voteCount, b[i].voteCount));
    }
  }

  /** A key that received votes is the canonical token of an entry. */
  lemma VotedKeyIsCanonical(wl: Registry, votes: seq<Ballot>, r: Rules<string>, t: Tally<string>,
                            dropped: seq<string>, k: string)
      returns (e: Entry)
    requires wl.Valid() && r.keyOf == CharacterKey(wl) && Tallied(t, AllEvents(votes, r), dropped) && k in t.voteCount
    ensures e in wl.entries && k == Str(e.candidateId) && wl.SystemIdOf(k) == e.systemId
  {
    TallyCountsBallots(t, votes, r, dropped, k, "");
    var b :| b in votes && NamesKey(b.items, r.keyOf, k);
    var i :| 0 <= i < |b.items| && r.keyOf(b.items[i]) == Ok(k);
    var token := AsToken(b.items[i].id);
    e := wl.byToken[token];
    wl.CanonicalIdempotent(token);
  }

  /** With pairwise distinct system ids the published character and music rankings depend neither on the
      tokens voters used nor on the order of the ballots. */
  lemma RankingIgnoresRepresentation(wl: Registry, a: seq<Ballot>, b: seq<Ballot>, r: Rules<string>, t: Tally<string>,
                                     t': Tally<string>, lines: seq<Ranked<string>>, lines': seq<Ranked<string>>,
                                     systemId: string -> int)
    requires wl.Valid() && r.keyOf == CharacterKey(wl) && SameVotes(a, b, r)
    requires forall e, e' :: e in wl.entries && e' in wl.entries && e.systemId == e'.systemId ==> e == e'
    requires forall k :: systemId(k) == wl.SystemIdOf(k)
    requires Tallied(t, AllEvents(a, r), AllDropped(a, r.keyOf)) && Tallied(t', AllEvents(b, r), AllDropped(b, r.keyOf))
    requires IsRanking(lines, t, 1, systemId) && IsRanking(lines', t', 1, systemId)
    ensures |lines| == |lines'| && forall i :: 0 <= i < |lines| ==> SameLine(lines[i], lines'[i])
  {
    TallyIgnoresRepresentation(t, t', a, b, r, "");
    forall k, l | k in t.voteCount && l in t.voteCount && systemId(k) == systemId(l) ensures k == l {
      var e := VotedKeyIsCanonical(wl, a, r, t, AllDropped(a, r.keyOf), k);
      var e' := VotedKeyIsCanonical(wl, a, r, t, AllDropped(a, r.keyOf), l);
    }
    RankingUnique(lines, lines', t, t', 1, systemId);
  }

  lemma SameElementsSameBag<T(!new)>(s: seq<T>, t: seq<T>)
    requires Distinct(s) && Distinct(t) && forall x :: x in s <==> x in t
    ensures multiset(s) == multiset(t)
  {
    forall x ensures multiset(s)[x] == multiset(t)[x] {
      OccursOnce(s, x);
      OccursOnce(t, x);
      assert x in multiset(s) <==> x in s;
      assert x in multiset(t) <==> x in t;
    }
  }
}
