/** The favourites of a timeline can exceed the favourite count on ballots that pass the gate: a ballot may
    name one candidate by both its tokens and mark the second (src/apps/submit/service.py,
    src/apps/result/compute.py, src/apps/result/trend.py). */
module FavouriteGap {
  import opened Prelude
  import opened Trend
  import opened Selection
  import opened Whitelist
  import opened Tally
  import opened TallyFacts
  import opened Conservation
  import opened BallotGate

  const CHARACTER_MAX := 8

  /** How an accepted pick is stored. */
  function StoredPick(): Pick -> Item { (p: Pick) => Item(Text(p.id), ABSENT, ABSENT, ABSENT, ABSENT, p.first) }

  function PickId(): Pick -> string { (p: Pick) => p.id }

  /** A character ballot that is stored. */
  ghost predicate AcceptedPicks(wl: Registry, picks: seq<Pick>) {
    1 <= |picks| <= CHARACTER_MAX && PicksOk(picks) && RequireCandidates(wl, Map(picks, PickId()))
  }

  /** One candidate, named by its id and again, as the favourite, by its old id. */
  function BothTokens(e: Entry): seq<Pick>
    requires e.oldId.Some?
  {
    [Pick(Str(e.candidateId), None, false), Pick(e.oldId.value, None, true)]
  }

  /** An entry that can be named in two ways. */
  predicate TwoNames(wl: Registry, e: Entry) {
    e in wl.entries && e.oldId.Some? && e.oldId.value != "" && e.oldId.value != Str(e.candidateId)
  }

  lemma BothTokensKnown(wl: Registry, e: Entry)
    requires wl.Valid() && TwoNames(wl, e)
    ensures wl.Canonical(Str(e.candidateId)) == wl.Canonical(e.oldId.value) == Some(Str(e.candidateId))
  {
    wl.OwnToken(e);
    assert Tokens(e)[1] == e.oldId.value && e.oldId.value in Tokens(e);
  }

  /** The gate accepts the ballot, the timeline sees its favourite, the count does not. */
  lemma AcceptedFavouriteLost(wl: Registry, e: Entry)
    requires wl.Valid() && TwoNames(wl, e)
    ensures AcceptedPicks(wl, BothTokens(e))
    ensures var items := Map(BothTokens(e), StoredPick());
            && MarkedAnywhere(items, CharacterKey(wl), Str(e.candidateId))
            && !FirstEntryMarked(items, CharacterKey(wl), Str(e.candidateId))
  {
    var items, k := Map(BothTokens(e), StoredPick()), Str(e.candidateId);
    BothTokensAccepted(wl, e);
    BothTokensKnown(wl, e);
    assert CharacterKey(wl)(items[0]) == Ok(k) && CharacterKey(wl)(items[1]) == Ok(k) && items[1].first;
    assert items[..1][0] == items[0] && NamesKey(items[..1], CharacterKey(wl), k);
  }

  lemma BothTokensAccepted(wl: Registry, e: Entry)
    requires wl.Valid() && TwoNames(wl, e)
    ensures AcceptedPicks(wl, BothTokens(e))
  {
    BothTokensKnown(wl, e);
    assert Map(BothTokens(e), PickId()) == [Str(e.candidateId), e.oldId.value];
  }

  /** An accepted ballot loses its favourite exactly when an earlier pick names the same candidate. */
  lemma LostIffRepeated(wl: Registry, picks: seq<Pick>, k: string)
    requires PicksOk(picks)
    ensures var items, key := Map(picks, StoredPick()), CharacterKey(wl);
            MarkedAnywhere(items, key, k) && !FirstEntryMarked(items, key, k) <==>
              exists i, j :: 0 <= i < j < |items| && key(items[i]) == Ok(k) && key(items[j]) == Ok(k) && items[j].first
  {
    var items, key := Map(picks, StoredPick()), CharacterKey(wl);
    if MarkedAnywhere(items, key, k) && !FirstEntryMarked(items, key, k) {
      var j :| 0 <= j < |items| && key(items[j]) == Ok(k) && items[j].first;
      var i :| 0 <= i < |items[..j]| && key(items[..j][i]) == Ok(k);
      assert key(items[i]) == Ok(k);
    }
    if i, j :| 0 <= i < j < |items| && key(items[i]) == Ok(k) && key(items[j]) == Ok(k) && items[j].first {
      assert items[..j][i] == items[i] && NamesKey(items[..j], key, k);
      forall m | 0 <= m < |items| && items[m].first ensures m == j {
        assert picks[m].first && picks[j].first;
      }
    }
  }

  /** Wherever such a ballot counts, the favourites of the timeline sum to strictly more than the favourite
      count of the ranking. */
  lemma FavouritesExceed(wl: Registry, e: Entry, rows: seq<StoredRow>, rows': seq<StoredRow>, latest: seq<Ballot>,
                         history: seq<Snapshot<Item>>, b: Ballot, w: Window)
    requires wl.Valid() && TwoNames(wl, e)
    requires multiset(rows) == multiset(rows') && AgreeingNewest(rows)
    requires IsLatest(latest, rows) && IsHistory(history, rows')
    requires b in latest && b.items == Map(BothTokens(e), StoredPick())
    ensures var key, k := CharacterKey(wl), Str(e.candidateId);
            Standing(history, FirstKeys(KeysOf(key), FirstFlag()), k, w, HoursCap(w) - 1) >
            CountIf(latest, Marking(key, k))
  {
    AcceptedFavouriteLost(wl, e);
    Conservation.Conservation(rows, rows', latest, history, CharacterKey(wl), Str(e.candidateId), w);
  }

  function StoredBallot(e: Entry): StoredRow
    requires e.oldId.Some?
  {
    StoredRow("v", 0, Some(1), None, false, Map(Map(BothTokens(e), StoredPick()), (i: Item) => Full(i)))
  }

  lemma StoredBallotItems(e: Entry)
    requires e.oldId.Some?
    ensures BallotOf(StoredBallot(e)).items == Map(BothTokens(e), StoredPick())
  {
    var r := StoredBallot(e);
    var items := Map(BothTokens(e), StoredPick());
    assert r.payload == [Full(items[0]), Full(items[1])];
    assert r.payload[..1] == [Full(items[0])] && r.payload[..1][..0] == [];
    assert NormalizeItems(r.payload[..1]) == [items[0]];
    assert NormalizeItems(r.payload) == [items[0], items[1]] == items;
  }

  lemma NewestIsStored(rows: seq<StoredRow>, v: string, a: StoredRow)
    requires IsNewest(rows, v, a)
    ensures a in rows
  {
  }

  lemma OneRowAgrees(r: StoredRow)
    ensures AgreeingNewest([r])
  {
    forall v, a, b | IsNewest([r], v, a) && IsNewest([r], v, b) ensures a == b {
      NewestIsStored([r], v, a);
      NewestIsStored([r], v, b);
    }
  }

  lemma OneRowNewest(r: StoredRow)
    ensures Newest([r], r.voter) == Some(r)
  {
    assert [r][..0] == [];
    assert RowsOf([r], r.voter) == [r];
  }

  /** Such a ballot counts in the table that holds nothing else. */
  lemma OneBallotCounts(wl: Registry, e: Entry, latest: seq<Ballot>)
    requires wl.Valid() && TwoNames(wl, e) && IsLatest(latest, [StoredBallot(e)])
    ensures AgreeingNewest([StoredBallot(e)])
    ensures exists b :: b in latest && b.items == Map(BothTokens(e), StoredPick())
  {
    var r := StoredBallot(e);
    OneRowNewest(r);
    OneRowAgrees(r);
    StoredBallotItems(e);
    assert Kept([r], r.voter) && BallotOf(r) in latest;
  }
}
