/** What the counters count, in plain terms (src/apps/result/compute.py): which key an entry of a ballot names,
    which bucket it lands in, and how an entry nobody knows is classified. */
module TallyMeaning {
  import opened Prelude
  import opened Trend
  import opened Selection
  import opened Whitelist
  import opened Tally
  import opened TallyFacts
  import opened RegistryFacts

  // ---------- stored payloads ----------

  /** Normalising goes entry by entry. */
  lemma {:induction false} NormalizeConcat(a: seq<RawItem>, b: seq<RawItem>)
    ensures NormalizeItems(a + b) == NormalizeItems(a) + NormalizeItems(b)
  {
    if |b| == 0 {
      assert a + b == a;
    } else {
      assert (a + b)[..|a|+|b|-1] == a + b[..|b|-1];
      NormalizeConcat(a, b[..|b|-1]);
    }
  }

  /** A bare id is an entry for that id that marks nothing, an object is itself, anything else is no entry. */
  lemma NormalizeOne(raw: RawItem)
    ensures match raw
            case Full(item) => NormalizeItems([raw]) == [item]
            case Junk => NormalizeItems([raw]) == []
            case Bare(id) =>
              && |NormalizeItems([raw])| == 1
              && var item := NormalizeItems([raw])[0];
                 AsToken(item.id) == id && !item.first && AsToken(item.active) == "" && !Truthy(item.idC)
  {
    assert [raw][..0] == [];
  }

  /** A ballot of bare ids votes for the entries of those ids, and has no favourite. */
  lemma BareBallotVotes(wl: Registry, ids: seq<string>, k: string)
    requires wl.Valid()
    ensures var items := NormalizeItems(Map(ids, (id: string) => Bare(id)));
            && (NamesKey(items, CharacterKey(wl), k) <==>
                exists i, e :: 0 <= i < |ids| && e in wl.entries && IsTokenOf(ids[i], e) && k == Str(e.candidateId))
            && !FirstEntryMarked(items, CharacterKey(wl), k)
  {
    var raw := Map(ids, (id: string) => Bare(id));
    BareItems(ids, raw);
    var items := NormalizeItems(raw);
    forall i | 0 <= i < |ids|
      ensures CharacterKey(wl)(items[i]) == Ok(k) <==>
              exists e :: e in wl.entries && IsTokenOf(ids[i], e) && k == Str(e.candidateId)
    {
      KnownTokens(wl, ids[i]);
    }
  }

  lemma {:induction false} BareItems(ids: seq<string>, raw: seq<RawItem>)
    requires |raw| == |ids| && forall i :: 0 <= i < |ids| ==> raw[i] == Bare(ids[i])
    ensures |NormalizeItems(raw)| == |ids|
    ensures forall i :: 0 <= i < |ids| ==> NormalizeItems(raw)[i].id == Text(ids[i]) && !NormalizeItems(raw)[i].first
  {
    if |ids| != 0 {
      BareItems(ids[..|ids|-1], raw[..|ids|-1]);
    }
  }

  // ---------- keys ----------

  /** A character or music entry names the entry of its token. */
  lemma CharacterKeyMeans(wl: Registry, item: Item, k: string)
    requires wl.Valid()
    ensures CharacterKey(wl)(item) == Ok(k) <==>
            exists t, e :: item.id == Text(t) && e in wl.entries && IsTokenOf(t, e) && k == Str(e.candidateId)
    ensures CharacterKey(wl)(item).Err? ==> CharacterKey(wl)(item).error == match item.id case Text(t) => t case _ => ""
  {
    KnownTokens(wl, AsToken(item.id));
    NoBlankToken(wl);
    forall t, e | item.id == Text(t) && e in wl.entries && IsTokenOf(t, e) ensures AsToken(item.id) == t {
    }
  }

  lemma NoBlankToken(wl: Registry)
    requires wl.Valid()
    ensures !wl.Contains("")
  {
    KnownTokens(wl, "");
  }

  /** A combination has its two members, and a third one if its field is set at all. */
  lemma MembersMean(item: Item)
    ensures var third := match item.idC case Text(t) => t != "" case Other(b) => b;
            && |RawMembers(item)| == (if third then 3 else 2)
            && RawMembers(item)[0] == AsToken(item.idA) && RawMembers(item)[1] == AsToken(item.idB)
            && (third ==> RawMembers(item)[2] == match item.idC case Text(t) => t case Other(_) => "")
  {
  }

  /** The active member's entry; "none" if no member is named or nobody knows the name. */
  lemma ActiveMeans(wl: Registry, item: Item)
    requires wl.Valid()
    ensures forall t, e :: item.active == Text(t) && e in wl.entries && IsTokenOf(t, e) ==>
              ActiveBucket(wl)(item) == Str(e.candidateId)
    ensures (forall t, e :: item.active == Text(t) && e in wl.entries ==> !IsTokenOf(t, e)) ==>
              ActiveBucket(wl)(item) == "none"
  {
    var t := AsToken(item.active);
    KnownTokens(wl, t);
    NoBlankToken(wl);
    if wl.Contains(t) {
      var e :| e in wl.entries && IsTokenOf(t, e);
      assert item.active == Text(t);
    }
  }

  // ---------- buckets ----------

  /** Eight lower-case hexadecimal digits are an old id, other digits an unknown candidate id, the rest is malformed. */
  lemma DropClasses(raw: string)
    ensures ClassifyDropped(raw) == Legacy8HexUnmatched <==>
            |raw| == 8 && forall c :: c in raw ==> c in "0123456789abcdef"
    ensures ClassifyDropped(raw) == CandidateIdUnknown <==>
            raw != "" && |raw| != 8 && forall c :: c in raw ==> c in "0123456789"
  {
    forall c: char
      ensures c in "0123456789" <==> '0' <= c <= '9'
      ensures c in "0123456789abcdef" <==> '0' <= c <= '9' || 'a' <= c <= 'f'
    {
      DigitChars(c);
    }
    assert forall i :: 0 <= i < |raw| ==> raw[i] in raw;
    if forall i :: 0 <= i < |raw| ==> '0' <= raw[i] <= '9' {
      assert forall c :: c in raw ==> c in "0123456789";
    }
  }

  lemma DigitChars(c: char)
    ensures c in "0123456789" <==> '0' <= c <= '9'
    ensures c in "0123456789abcdef" <==> '0' <= c <= '9' || 'a' <= c <= 'f'
  {
    var digits, letters := "0123456789", "abcdef";
    if '0' <= c <= '9' {
      assert digits[c as int - '0' as int] == c;
    }
    if 'a' <= c <= 'f' {
      assert letters[c as int - 'a' as int] == c;
    }
    assert "0123456789abcdef" == digits + letters;
  }

  /** A voter without a segment is counted as "unknown". */
  lemma SegmentMeans<K>(r: Rules<K>, k: K, seg: string, b: Ballot)
    ensures NamingIn(r, k, seg)(b) <==>
            && NamesKey(b.items, r.keyOf, k)
            && if b.voter in r.segmentMap then r.segmentMap[b.voter] == seg else seg == "unknown"
    ensures InSegment(r, seg)(b) <==>
            if b.voter in r.segmentMap then r.segmentMap[b.voter] == seg else seg == "unknown"
  {
  }

  /** The ballot's first entry for `k` puts `a` in the active place. */
  ghost predicate FirstEntryActive<K>(items: seq<Item>, keyOf: Keying<K>, activeOf: Item -> string, k: K, a: string) {
    exists i :: 0 <= i < |items| && keyOf(items[i]) == Ok(k) && activeOf(items[i]) == a &&
      !NamesKey(items[..i], keyOf, k)
  }

  ghost function Activating<K>(r: Rules<K>, k: K, a: string): Ballot -> bool {
    (b: Ballot) => FirstEntryActive(b.items, r.keyOf, r.activeOf, k, a)
  }

  lemma ActiveSnoc<K(!new)>(items: seq<Item>, item: Item, keyOf: Keying<K>, activeOf: Item -> string, k: K, a: string)
    ensures FirstEntryActive(items + [item], keyOf, activeOf, k, a) <==>
            || FirstEntryActive(items, keyOf, activeOf, k, a)
            || (keyOf(item) == Ok(k) && activeOf(item) == a && !NamesKey(items, keyOf, k))
  {
    var next := items + [item];
    forall i | 0 <= i <= |items| ensures next[..i] == items[..i] {
    }
    assert items[..|items|] == items && next[|items|] == item;
    if i :| 0 <= i < |next| && keyOf(next[i]) == Ok(k) && activeOf(next[i]) == a && !NamesKey(next[..i], keyOf, k) {
      assert i < |items| ==> next[i] == items[i];
    }
    if i :| 0 <= i < |items| && keyOf(items[i]) == Ok(k) && activeOf(items[i]) == a && !NamesKey(items[..i], keyOf, k) {
      assert next[i] == items[i] && next[..i] == items[..i];
    }
  }

  lemma ActiveNamed<K(!new)>(items: seq<Item>, keyOf: Keying<K>, activeOf: Item -> string, k: K, a: string)
    ensures FirstEntryActive(items, keyOf, activeOf, k, a) ==> NamesKey(items, keyOf, k)
  {
  }

  lemma {:induction false} ActiveEvents<K(!new)>(items: seq<Item>, keyOf: Keying<K>, activeOf: Item -> string,
                                                 segment: string, k: K, a: string)
    ensures CountIf(EventsOf(items, keyOf, activeOf, segment), Hits(ByActive()(k), a)) ==
            Ind(FirstEntryActive(items, keyOf, activeOf, k, a))
  {
    if |items| != 0 {
      var front, item := items[..|items|-1], items[|items|-1];
      assert items == front + [item];
      ActiveEvents(front, keyOf, activeOf, segment, k, a);
      ActiveSnoc(front, item, keyOf, activeOf, k, a);
      ActiveNamed(front, keyOf, activeOf, k, a);
      var before := EventsOf(front, keyOf, activeOf, segment);
      if keyOf(item).Ok? && !NamesKey(front, keyOf, keyOf(item).value) {
        var e := Event(keyOf(item).value, item.first, segment, activeOf(item));
        CountIfSnoc(before, e, Hits(ByActive()(k), a));
      }
    }
  }

  lemma {:induction false} ActiveBallots<K(!new)>(votes: seq<Ballot>, r: Rules<K>, k: K, a: string)
    ensures CountIf(AllEvents(votes, r), Hits(ByActive()(k), a)) == CountIf(votes, Activating(r, k, a))
  {
    if |votes| != 0 {
      var front, b := votes[..|votes|-1], votes[|votes|-1];
      ActiveBallots(front, r, k, a);
      var segment := SegmentOf(r.segmentMap, b.voter);
      ActiveEvents(b.items, r.keyOf, r.activeOf, segment, k, a);
      CountIfConcat(AllEvents(front, r), EventsOf(b.items, r.keyOf, r.activeOf, segment), Hits(ByActive()(k), a));
    }
  }

  /** An active counter is the number of ballots whose first entry for the combination names that member. */
  lemma ActiveCountsBallots<K(!new)>(t: Tally<K>, votes: seq<Ballot>, r: Rules<K>, dropped: seq<string>, k: K,
                                     a: string)
    requires Tallied(t, AllEvents(votes, r), dropped)
    ensures At(Row(t.activeCount, k), a) == CountIf(votes, Activating(r, k, a))
  {
    ActiveBallots(votes, r, k, a);
    assert Counts(Row(t.activeCount, k), AllEvents(votes, r), ByActive()(k));
  }

  // ---------- dropped entries ----------

  function DroppedAs<K>(keyOf: Keying<K>, c: DropClass): Item -> bool {
    (item: Item) => keyOf(item).Err? && ClassifyDropped(keyOf(item).error) == c
  }

  /** The entries of all ballots, one after the other. */
  function ItemsOf(): Ballot -> seq<Item> { (b: Ballot) => b.items }

  lemma {:induction false} DroppedInBallot<K(!new)>(items: seq<Item>, keyOf: Keying<K>, c: DropClass)
    ensures CountIf(DroppedOf(items, keyOf), Hits(ByClass(), c)) == CountIf(items, DroppedAs(keyOf, c))
  {
    if |items| != 0 {
      var front, item := items[..|items|-1], items[|items|-1];
      DroppedInBallot(front, keyOf, c);
      if keyOf(item).Err? {
        CountIfSnoc(DroppedOf(front, keyOf), keyOf(item).error, Hits(ByClass(), c));
      }
    }
  }

  lemma {:induction false} DroppedInAll<K(!new)>(votes: seq<Ballot>, keyOf: Keying<K>, c: DropClass)
    ensures CountIf(AllDropped(votes, keyOf), Hits(ByClass(), c)) ==
            CountIf(Flat(votes, ItemsOf()), DroppedAs(keyOf, c))
  {
    if |votes| != 0 {
      var front, b := votes[..|votes|-1], votes[|votes|-1];
      DroppedInAll(front, keyOf, c);
      DroppedInBallot(b.items, keyOf, c);
      CountIfConcat(AllDropped(front, keyOf), DroppedOf(b.items, keyOf), Hits(ByClass(), c));
      CountIfConcat(Flat(front, ItemsOf()), b.items, DroppedAs(keyOf, c));
    }
  }

  /** A drop counter is the number of entries, over all ballots, that nobody knows and that look like its class. */
  lemma DropCountsEntries<K(!new)>(t: Tally<K>, votes: seq<Ballot>, r: Rules<K>, events: seq<Event<K>>, c: DropClass)
    requires Tallied(t, events, AllDropped(votes, r.keyOf))
    ensures At(t.dropped, c) == CountIf(Flat(votes, ItemsOf()), DroppedAs(r.keyOf, c))
  {
    DroppedInAll(votes, r.keyOf, c);
  }
}
