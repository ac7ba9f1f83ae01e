/** What a ballot must look like to be stored (src/apps/submit/service.py), and why a stored
    combination ballot is tallied in full. */
module BallotGate {
  import opened Prelude
  import opened Selection
  import opened Whitelist
  import opened Tally
  import opened TallyFacts
  import opened RegistryFacts

  const REASON_MAX := 4096
  const CP_MAX_ITEMS := 4

  /** One entry of a character (at most 8) or music (at most 12) ballot. */
  datatype Pick = Pick(id: string, reason: Option<string>, first: bool)

  datatype CpPick = CpPick(idA: string, idB: string, idC: Option<string>, active: Option<string>,
                           reason: Option<string>, first: bool)

  datatype Refusal = WrongNumber | BlankId | ReasonTooLong | TwoFavourites | RepeatedId | RepeatedMember
                   | RepeatedCombination | ForeignActive | UnknownCandidate

  predicate ReasonOk(reason: Option<string>) { reason.None? || |reason.value| <= REASON_MAX }

  /** A reason has at most 4096 characters. */
  predicate TooLong(reason: Option<string>) { reason.Some? && |reason.value| > 4096 }

  // ---------- characters and music ----------

  /** The first pick that breaks a rule is at `n`, and `why` is the first rule it breaks. */
  ghost predicate PickFault(picks: seq<Pick>, n: int, why: Refusal) {
    && 0 <= n < |picks| && PicksOk(picks[..n])
    && match why
       case BlankId => picks[n].id == ""
       case ReasonTooLong => picks[n].id != "" && TooLong(picks[n].reason)
       case TwoFavourites =>
         && picks[n].id != "" && !TooLong(picks[n].reason)
         && picks[n].first && exists i :: 0 <= i < n && picks[i].first
       case RepeatedId =>
         && picks[n].id != "" && !TooLong(picks[n].reason)
         && !(picks[n].first && exists i :: 0 <= i < n && picks[i].first)
         && exists i :: 0 <= i < n && picks[i].id == picks[n].id
       case _ => false
  }

  ghost predicate PicksOk(picks: seq<Pick>) {
    && (forall i :: 0 <= i < |picks| ==> picks[i].id != "" && !TooLong(picks[i].reason))
    && (forall i, j :: 0 <= i < j < |picks| ==> picks[i].id != picks[j].id && !(picks[i].first && picks[j].first))
  }

  method ValidatePicks(picks: seq<Pick>, maxItems: nat) returns (r: Result<(), Refusal>)
    ensures r.Ok? <==> 1 <= |picks| <= maxItems && PicksOk(picks)
    ensures r == Err(WrongNumber) <==> !(1 <= |picks| <= maxItems)
    ensures r.Err? && r.error != WrongNumber ==> exists n :: PickFault(picks, n, r.error)
  {
    if |picks| < 1 || |picks| > maxItems {
      return Err(WrongNumber);
    }
    var chset: set<string>, firstSet := {}, false;
    for n := 0 to |picks|
      invariant forall t :: t in chset <==> exists i :: 0 <= i < n && picks[i].id == t
      invariant firstSet <==> exists i :: 0 <= i < n && picks[i].first
      invariant PicksOk(picks[..n])
    {
      var c := picks[n];
      assert picks[..n+1] == picks[..n] + [c];
      if c.id == "" {
        assert PickFault(picks, n, BlankId);
        return Err(BlankId);
      }
      if !ReasonOk(c.reason) {
        assert PickFault(picks, n, ReasonTooLong);
        return Err(ReasonTooLong);
      }
      if c.first {
        if firstSet {
          assert PickFault(picks, n, TwoFavourites);
          return Err(TwoFavourites);
        }
        firstSet := true;
      }
      if c.id in chset {
        assert PickFault(picks, n, RepeatedId);
        return Err(RepeatedId);
      }
      chset := chset + {c.id};
    }
    assert picks[..|picks|] == picks;
    r := Ok(());
  }

  // ---------- combinations ----------

  function MembersOf(c: CpPick): seq<string> {
    [c.idA, c.idB] + if c.idC.Some? && c.idC.value != "" then [c.idC.value] else []
  }

  /** A pair may repeat a member, a triple may not. */
  ghost predicate CpPickOk(c: CpPick) {
    && ReasonOk(c.reason)
    && "" !in MembersOf(c)
    && (|MembersOf(c)| == 3 ==> Distinct(MembersOf(c)))
    && (c.active.Some? ==> c.active.value in MembersOf(c))
  }

  predicate HasThird(c: CpPick) { c.idC.Some? && c.idC.value != "" }

  /** The rules for one combination, member by member. */
  predicate CpAllowed(c: CpPick) {
    && c.idA != "" && c.idB != "" && !TooLong(c.reason)
    && (HasThird(c) ==> c.idA != c.idB && c.idA != c.idC.value && c.idB != c.idC.value)
    && (c.active.Some? ==> c.active == Some(c.idA) || c.active == Some(c.idB) || (HasThird(c) && c.active == c.idC))
  }

  /** Two combinations have the same members, in whatever order. */
  predicate SameMembers(a: CpPick, b: CpPick) {
    if HasThird(a) && HasThird(b) then multiset{a.idA, a.idB, a.idC.value} == multiset{b.idA, b.idB, b.idC.value}
    else !HasThird(a) && !HasThird(b) && multiset{a.idA, a.idB} == multiset{b.idA, b.idB}
  }

  lemma CpPickMeans(c: CpPick)
    ensures CpPickOk(c) <==> CpAllowed(c)
    ensures BagOf()(c) == if HasThird(c) then multiset{c.idA, c.idB, c.idC.value} else multiset{c.idA, c.idB}
  {
    var m := MembersOf(c);
    assert m[0] == c.idA && m[1] == c.idB && (HasThird(c) ==> m[2] == c.idC.value);
    if HasThird(c) {
      assert m == [c.idA, c.idB, c.idC.value];
    } else {
      assert m == [c.idA, c.idB];
    }
  }

  lemma CompatibleMeans(a: CpPick, b: CpPick)
    ensures Compatible(a, b) <==> !SameMembers(a, b) && !(a.first && b.first)
  {
    CpPickMeans(a);
    CpPickMeans(b);
    assert |BagOf()(a)| == (if HasThird(a) then 3 else 2) && |BagOf()(b)| == (if HasThird(b) then 3 else 2);
  }

  /** The rules for a whole ballot of combinations. */
  ghost predicate CpsAllowed(cps: seq<CpPick>) {
    && 1 <= |cps| <= 4
    && (forall i :: 0 <= i < |cps| ==> CpAllowed(cps[i]))
    && (forall i, j :: 0 <= i < j < |cps| ==> !SameMembers(cps[i], cps[j]) && !(cps[i].first && cps[j].first))
  }

  lemma CpBallotMeans(cps: seq<CpPick>)
    ensures 1 <= |cps| <= 4 && CpBallotOk(cps) <==> CpsAllowed(cps)
  {
    forall i | 0 <= i < |cps| ensures CpPickOk(cps[i]) <==> CpAllowed(cps[i]) {
      CpPickMeans(cps[i]);
    }
    forall i, j | 0 <= i < j < |cps|
      ensures Compatible(cps[i], cps[j]) <==> !SameMembers(cps[i], cps[j]) && !(cps[i].first && cps[j].first)
    {
      CompatibleMeans(cps[i], cps[j]);
    }
  }

  /** The first combination that breaks a rule is at `n`, and `why` is the first rule it breaks. */
  ghost predicate CpFault(cps: seq<CpPick>, n: int, why: Refusal) {
    && 0 <= n < |cps| && CpBallotOk(cps[..n])
    && var c := cps[n];
       var second := c.first && exists i :: 0 <= i < n && cps[i].first;
       var blank := c.idA == "" || c.idB == "";
       var triple := HasThird(c) && (c.idA == c.idB || c.idA == c.idC.value || c.idB == c.idC.value);
       var repeated := exists i :: 0 <= i < n && SameMembers(cps[i], c);
       match why
       case ReasonTooLong => TooLong(c.reason)
       case TwoFavourites => !TooLong(c.reason) && second
       case BlankId => !TooLong(c.reason) && !second && blank
       case RepeatedMember => !TooLong(c.reason) && !second && !blank && triple
       case RepeatedCombination => !TooLong(c.reason) && !second && !blank && !triple && repeated
       case ForeignActive => !TooLong(c.reason) && !second && !blank && !triple && !repeated && !CpAllowed(c)
       case _ => false
  }

  ghost predicate CpBallotOk(cps: seq<CpPick>) {
    && (forall i :: 0 <= i < |cps| ==> CpPickOk(cps[i]))
    && (forall i, j :: 0 <= i < j < |cps| ==> Compatible(cps[i], cps[j]))
  }

  /** A combination is its members with their multiplicities. */
  ghost function BagOf(): CpPick -> multiset<string> { (c: CpPick) => multiset(MembersOf(c)) }

  function IsFirst(): CpPick -> bool { (c: CpPick) => c.first }

  /** Not the same combination, and not both the favourite. */
  ghost predicate Compatible(a: CpPick, b: CpPick) { BagOf()(a) != BagOf()(b) && !(a.first && b.first) }

  /** `len(set(members)) != len(members)` on three members. */
  predicate TripleRepeats(m: seq<string>)
    ensures |m| == 3 ==> (TripleRepeats(m) <==> !Distinct(m))
  {
    |m| == 3 && (m[0] == m[1] || m[0] == m[2] || m[1] == m[2])
  }

  /** The checks on one combination, in the order they are made; `key` is its sorted tuple. */
  function CheckCp(c: CpPick, key: seq<string>, firstSet: bool, seenKeys: set<seq<string>>): Option<Refusal> {
    if !ReasonOk(c.reason) then Some(ReasonTooLong)
    else if c.first && firstSet then Some(TwoFavourites)
    else if "" in MembersOf(c) then Some(BlankId)
    else if TripleRepeats(MembersOf(c)) then Some(RepeatedMember)
    else if key in seenKeys then Some(RepeatedCombination)
    else if c.active.Some? && c.active.value !in MembersOf(c) then Some(ForeignActive)
    else None
  }

  lemma {:induction false} CheckCpMeaning(c: CpPick, key: seq<string>, firstSet: bool, seenKeys: set<seq<string>>)
    ensures CheckCp(c, key, firstSet, seenKeys).None? <==> CpPickOk(c) && !(c.first && firstSet) && key !in seenKeys
  {
    assert |MembersOf(c)| == 3 ==> (TripleRepeats(MembersOf(c)) <==> !Distinct(MembersOf(c)));
  }

  ghost predicate SortedKey(key: seq<string>) { SortedBy(key, CodePoints()) }

  /** `tuple(sorted(members))`. */
  method SortMembers(members: seq<string>) returns (key: seq<string>)
    ensures SortedKey(key) && multiset(key) == multiset(members)
  {
    key := SortedTuple(members);
    SortBySorted(members, CodePoints());
  }

  lemma SortedKeyUnique(a: seq<string>, b: seq<string>)
    requires SortedKey(a) && SortedKey(b) && multiset(a) == multiset(b)
    ensures a == b
  {
    forall s, t | CodePoints()(s) == CodePoints()(t) ensures s == t {
      CodePointsInjective(s, t);
    }
    SortedUnique(a, b, CodePoints());
  }

  ghost predicate Seen(seenKeys: set<seq<string>>, cps: seq<CpPick>) {
    && (forall key :: key in seenKeys ==> SortedKey(key))
    && (forall key {:trigger key in seenKeys} :: SortedKey(key) ==>
          (key in seenKeys <==> Reaches(cps, BagOf(), multiset(key))))
  }

  ghost predicate CpState(cps: seq<CpPick>, firstSet: bool, seenKeys: set<seq<string>>) {
    Seen(seenKeys, cps) && (firstSet <==> Reaches(cps, IsFirst(), true)) && CpBallotOk(cps)
  }

  lemma SeenSnoc(cps: seq<CpPick>, c: CpPick, key: seq<string>, seenKeys: set<seq<string>>)
    requires Seen(seenKeys, cps) && SortedKey(key) && multiset(key) == BagOf()(c)
    ensures Seen(seenKeys + {key}, cps + [c])
  {
    forall k | SortedKey(k) ensures k in seenKeys + {key} <==> Reaches(cps + [c], BagOf(), multiset(k)) {
      ReachesSnoc(cps, c, BagOf(), multiset(k));
      assert k in seenKeys <==> Reaches(cps, BagOf(), multiset(k));
      if multiset(k) == multiset(key) {
        SortedKeyUnique(k, key);
      }
    }
  }

  ghost predicate AllCompatible(cps: seq<CpPick>, c: CpPick) { forall i :: 0 <= i < |cps| ==> Compatible(cps[i], c) }

  /** The collected facts decide whether one more combination is compatible with all so far. */
  lemma {:induction false} CollectedDecides(cps: seq<CpPick>, c: CpPick)
    ensures AllCompatible(cps, c) <==> !(c.first && Reaches(cps, IsFirst(), true)) && !Reaches(cps, BagOf(), BagOf()(c))
  {
    if |cps| != 0 {
      var front, last := cps[..|cps|-1], cps[|cps|-1];
      assert cps == front + [last];
      CollectedDecides(front, c);
      ReachesSnoc(front, last, IsFirst(), true);
      ReachesSnoc(front, last, BagOf(), BagOf()(c));
      assert AllCompatible(cps, c) <==> AllCompatible(front, c) && Compatible(last, c);
    }
  }

  lemma CpBallotSnoc(cps: seq<CpPick>, c: CpPick)
    requires CpBallotOk(cps)
    ensures CpBallotOk(cps + [c]) <==> CpPickOk(c) && AllCompatible(cps, c)
  {
    var next := cps + [c];
    assert next[|cps|] == c && forall i :: 0 <= i < |cps| ==> next[i] == cps[i];
    if CpBallotOk(next) {
      forall i | 0 <= i < |cps| ensures Compatible(cps[i], c) {
        assert Compatible(next[i], next[|cps|]);
      }
    }
  }

  lemma {:induction false} CpBallotPrefix(cps: seq<CpPick>, n: nat)
    requires n <= |cps| && CpBallotOk(cps)
    ensures CpBallotOk(cps[..n])
  {
    forall i, j | 0 <= i < j < n ensures Compatible(cps[..n][i], cps[..n][j]) {
      assert Compatible(cps[i], cps[j]);
    }
  }

  lemma CpStep(cps: seq<CpPick>, c: CpPick, key: seq<string>, firstSet: bool, seenKeys: set<seq<string>>)
    requires CpState(cps, firstSet, seenKeys) && SortedKey(key) && multiset(key) == multiset(MembersOf(c))
    ensures CheckCp(c, key, firstSet, seenKeys).Some? ==> !CpBallotOk(cps + [c])
    ensures CheckCp(c, key, firstSet, seenKeys).None? ==> CpState(cps + [c], firstSet || c.first, seenKeys + {key})
  {
    CheckCpMeaning(c, key, firstSet, seenKeys);
    assert key in seenKeys <==> Reaches(cps, BagOf(), BagOf()(c));
    CollectedDecides(cps, c);
    CpBallotSnoc(cps, c);
    SeenSnoc(cps, c, key, seenKeys);
    ReachesSnoc(cps, c, IsFirst(), true);
  }

  lemma StateSays(cps: seq<CpPick>, key: seq<string>, firstSet: bool, seenKeys: set<seq<string>>)
    requires CpState(cps, firstSet, seenKeys) && SortedKey(key)
    ensures firstSet <==> Reaches(cps, IsFirst(), true)
    ensures key in seenKeys <==> Reaches(cps, BagOf(), multiset(key))
  {
  }

  lemma FavouriteBefore(cps: seq<CpPick>, n: nat)
    requires n <= |cps|
    ensures Reaches(cps[..n], IsFirst(), true) <==> exists i :: 0 <= i < n && cps[i].first
  {
    forall i | 0 <= i < n ensures IsFirst()(cps[..n][i]) == cps[i].first {
    }
  }

  lemma RepeatedBefore(cps: seq<CpPick>, n: nat, c: CpPick)
    requires n <= |cps|
    ensures Reaches(cps[..n], BagOf(), BagOf()(c)) <==> exists i :: 0 <= i < n && SameMembers(cps[i], c)
  {
    forall i | 0 <= i < n ensures SameMembers(cps[i], c) <==> BagOf()(cps[..n][i]) == BagOf()(c) {
      BagsEqual(cps[i], c);
    }
  }

  /** What the loop has collected, in terms of the combinations before. */
  lemma CollectedMean(cps: seq<CpPick>, n: nat, key: seq<string>, firstSet: bool, seenKeys: set<seq<string>>)
    requires n < |cps| && CpState(cps[..n], firstSet, seenKeys)
    requires SortedKey(key) && multiset(key) == multiset(MembersOf(cps[n]))
    ensures firstSet <==> exists i :: 0 <= i < n && cps[i].first
    ensures key in seenKeys <==> exists i :: 0 <= i < n && SameMembers(cps[i], cps[n])
  {
    StateSays(cps[..n], key, firstSet, seenKeys);
    FavouriteBefore(cps, n);
    RepeatedBefore(cps, n, cps[n]);
  }

  /** A refusal names the first rule broken. */
  lemma RefusalFits(cps: seq<CpPick>, n: nat, key: seq<string>, firstSet: bool, seenKeys: set<seq<string>>)
    requires n < |cps| && CpState(cps[..n], firstSet, seenKeys)
    requires SortedKey(key) && multiset(key) == multiset(MembersOf(cps[n]))
    requires CheckCp(cps[n], key, firstSet, seenKeys).Some?
    ensures CpFault(cps, n, CheckCp(cps[n], key, firstSet, seenKeys).value)
  {
    CollectedMean(cps, n, key, firstSet, seenKeys);
    MembersListed(cps[n]);
    if cps[n].active.Some? && cps[n].active.value !in MembersOf(cps[n]) {
      ActiveForeign(cps[n]);
    }
  }

  lemma ActiveForeign(c: CpPick)
    requires c.active.Some? && c.active.value !in MembersOf(c)
    ensures !CpAllowed(c)
  {
    MembersListed(c);
  }

  lemma BagsEqual(a: CpPick, b: CpPick)
    ensures SameMembers(a, b) <==> BagOf()(a) == BagOf()(b)
  {
    CpPickMeans(a);
    CpPickMeans(b);
    assert |BagOf()(a)| == (if HasThird(a) then 3 else 2) && |BagOf()(b)| == (if HasThird(b) then 3 else 2);
  }

  lemma MembersListed(c: CpPick)
    ensures "" in MembersOf(c) <==> c.idA == "" || c.idB == ""
    ensures TripleRepeats(MembersOf(c)) <==>
            HasThird(c) && (c.idA == c.idB || c.idA == c.idC.value || c.idB == c.idC.value)
    ensures forall x :: x in MembersOf(c) <==> x == c.idA || x == c.idB || (HasThird(c) && x == c.idC.value)
  {
    var m := MembersOf(c);
    assert m[0] == c.idA && m[1] == c.idB && (HasThird(c) ==> m[2] == c.idC.value);
  }

  /** The same inside the whole ballot. */
  lemma CpStepAt(cps: seq<CpPick>, n: nat, key: seq<string>, firstSet: bool, seenKeys: set<seq<string>>)
    requires n < |cps| && CpState(cps[..n], firstSet, seenKeys)
    requires SortedKey(key) && multiset(key) == multiset(MembersOf(cps[n]))
    ensures CheckCp(cps[n], key, firstSet, seenKeys).Some? ==> !CpBallotOk(cps)
    ensures CheckCp(cps[n], key, firstSet, seenKeys).None? ==>
            CpState(cps[..n+1], firstSet || cps[n].first, seenKeys + {key})
  {
    CpStep(cps[..n], cps[n], key, firstSet, seenKeys);
    assert cps[..n+1] == cps[..n] + [cps[n]];
    if CpBallotOk(cps) {
      CpBallotPrefix(cps, n + 1);
    }
  }

  /** The combination at position `n`. */
  method CheckCpAt(cps: seq<CpPick>, n: nat, firstSet: bool, seenKeys: set<seq<string>>)
      returns (refusal: Option<Refusal>, key: seq<string>)
    requires n < |cps| && CpState(cps[..n], firstSet, seenKeys)
    ensures refusal.Some? ==> !CpBallotOk(cps) && CpFault(cps, n, refusal.value)
    ensures refusal.None? ==> CpState(cps[..n+1], firstSet || cps[n].first, seenKeys + {key})
  {
    key := SortMembers(MembersOf(cps[n]));
    CpStepAt(cps, n, key, firstSet, seenKeys);
    refusal := CheckCp(cps[n], key, firstSet, seenKeys);
    if refusal.Some? {
      RefusalFits(cps, n, key, firstSet, seenKeys);
    }
  }

  lemma CpEnd(cps: seq<CpPick>, firstSet: bool, seenKeys: set<seq<string>>)
    requires CpState(cps[..|cps|], firstSet, seenKeys)
    ensures CpBallotOk(cps)
  {
    assert cps[..|cps|] == cps;
  }

  lemma CpStart()
    ensures CpState([], false, {})
  {
  }

  /** The loop over the combinations, up to the first refusal. */
  method CheckCps(cps: seq<CpPick>) returns (refusal: Option<Refusal>)
    ensures refusal.None? <==> CpBallotOk(cps)
    ensures refusal.Some? ==> exists n :: CpFault(cps, n, refusal.value)
  {
    refusal := None;
    var firstSet := false;
    var seenKeys: set<seq<string>> := {};
    CpStart();
    assert cps[..0] == [];
    var n := 0;
    while n < |cps| && refusal.None?
      invariant 0 <= n <= |cps|
      invariant refusal.Some? ==> !CpBallotOk(cps) && CpFault(cps, n - 1, refusal.value)
      invariant refusal.None? ==> CpState(cps[..n], firstSet, seenKeys)
      decreases |cps| - n
    {
      var key;
      refusal, key := CheckCpAt(cps, n, firstSet, seenKeys);
      firstSet := firstSet || cps[n].first;
      seenKeys := seenKeys + {key};
      n := n + 1;
    }
    if refusal.None? {
      CpEnd(cps, firstSet, seenKeys);
    }
  }

  method ValidateCp(cps: seq<CpPick>) returns (r: Result<(), Refusal>)
    ensures r.Ok? <==> 1 <= |cps| <= CP_MAX_ITEMS && CpBallotOk(cps)
    ensures r.Ok? <==> CpsAllowed(cps)
    ensures r == Err(WrongNumber) <==> !(1 <= |cps| <= 4)
    ensures r.Err? && r.error != WrongNumber ==> exists n :: CpFault(cps, n, r.error)
  {
    CpBallotMeans(cps);
    if |cps| < 1 || |cps| > CP_MAX_ITEMS {
      return Err(WrongNumber);
    }
    var refusal := CheckCps(cps);
    r := if refusal.Some? then Err(refusal.value) else Ok(());
  }

  /** Every submitted token must be known, unless the year has no candidates at all. */
  predicate RequireCandidates(wl: Registry, tokens: seq<string>) {
    |wl.entries| == 0 || forall i :: 0 <= i < |tokens| && tokens[i] != "" ==> wl.Contains(tokens[i])
  }

  function CpTokens(cps: seq<CpPick>): seq<string> {
    if |cps| == 0 then [] else CpTokens(cps[..|cps|-1]) + MembersOf(cps[|cps|-1])
  }

  ghost predicate AcceptedCp(wl: Registry, cps: seq<CpPick>) {
    1 <= |cps| <= CP_MAX_ITEMS && CpBallotOk(cps) && RequireCandidates(wl, CpTokens(cps))
  }

  // ---------- the recount of accepted ballots ----------

  function TextOrNone(t: Option<string>): Json { match t case Some(s) => Text(s) case None => ABSENT }

  /** The stored form of a combination. */
  function Stored(): CpPick -> Item {
    (c: CpPick) => Item(ABSENT, Text(c.idA), Text(c.idB), TextOrNone(c.idC), TextOrNone(c.active), c.first)
  }

  lemma StoredMembers(c: CpPick)
    ensures RawMembers(Stored()(c)) == MembersOf(c)
  {
  }

  /** Storing a combination keeps its members in order, the favourite mark, and who is active. */
  lemma StoredKeepsVote(wl: Registry, c: CpPick)
    requires wl.Valid()
    ensures Stored()(c).first == c.first
    ensures RawMembers(Stored()(c)) == if HasThird(c) then [c.idA, c.idB, c.idC.value] else [c.idA, c.idB]
    ensures c.active.None? ==> ActiveBucket(wl)(Stored()(c)) == "none"
    ensures forall e :: c.active.Some? && e in wl.entries && IsTokenOf(c.active.value, e) ==>
              ActiveBucket(wl)(Stored()(c)) == Str(e.candidateId)
  {
    if c.active.Some? {
      KnownTokens(wl, c.active.value);
      KnownTokens(wl, "");
    }
  }

  lemma {:induction false} TokensIn(cps: seq<CpPick>, i: nat, t: string)
    requires i < |cps| && t in MembersOf(cps[i])
    ensures t in CpTokens(cps)
  {
    if i < |cps| - 1 {
      TokensIn(cps[..|cps|-1], i, t);
    }
  }

  /** One of the members, canonically, is in the key. */
  lemma MemberInKey(wl: Registry, raw: seq<string>, t: string)
    requires CanonicalMembers(wl, raw).Ok? && t in raw
    ensures wl.Contains(t) && wl.Canonical(t).value in SortedTuple(CanonicalMembers(wl, raw).value)
  {
    var members := CanonicalMembers(wl, raw).value;
    SortBySorted(members, CodePoints());
    var m :| 0 <= m < |raw| && raw[m] == t;
    assert wl.Canonical(raw[m]) == Some(members[m]);
    assert members[m] in members;
  }

  lemma AcceptedMembersKnown(wl: Registry, cps: seq<CpPick>, i: nat)
    requires |wl.entries| != 0 && AcceptedCp(wl, cps) && i < |cps|
    ensures CanonicalMembers(wl, MembersOf(cps[i])).Ok?
  {
    var raw := MembersOf(cps[i]);
    assert CpPickOk(cps[i]);
    forall m | 0 <= m < |raw| ensures wl.Contains(raw[m]) {
      TokensIn(cps, i, raw[m]);
      assert raw[m] in raw;
    }
  }

  /** Every entry of an accepted ballot has a key, and its "active" bucket is one of the key's members or "none". */
  lemma AcceptedEntry(wl: Registry, cps: seq<CpPick>, i: nat)
    requires |wl.entries| != 0 && AcceptedCp(wl, cps) && i < |cps|
    ensures FitsKey(wl, Stored()(cps[i]))
  {
    var c := cps[i];
    StoredMembers(c);
    AcceptedMembersKnown(wl, cps, i);
    if c.active.Some? {
      assert CpPickOk(c);
      MemberInKey(wl, MembersOf(c), c.active.value);
    }
  }

  ghost predicate AcceptedBallot(wl: Registry, b: Ballot) {
    exists cps :: AcceptedCp(wl, cps) && b.items == Map(cps, Stored())
  }

  /** All entries of `items` are keyed, with a fitting "active" bucket. */
  ghost predicate FullyKeyed(wl: Registry, items: seq<Item>) {
    forall i :: 0 <= i < |items| ==> FitsKey(wl, items[i])
  }

  ghost predicate FitsKey(wl: Registry, item: Item) {
    && CpKey(wl)(item).Ok?
    && (ActiveBucket(wl)(item) == "none" || ActiveBucket(wl)(item) in CpKey(wl)(item).value)
  }

  lemma AcceptedIsKeyed(wl: Registry, b: Ballot)
    requires wl.Valid() && |wl.entries| != 0 && AcceptedBallot(wl, b)
    ensures FullyKeyed(wl, b.items)
  {
    var cps :| AcceptedCp(wl, cps) && b.items == Map(cps, Stored());
    forall i | 0 <= i < |b.items| ensures FitsKey(wl, b.items[i]) {
      AcceptedEntry(wl, cps, i);
    }
  }

  ghost predicate ActiveFits(e: Event<seq<string>>) { e.active == "none" || e.active in e.key }

  lemma {:induction false} KeyedItemsCount(wl: Registry, items: seq<Item>, segment: string)
    requires FullyKeyed(wl, items)
    ensures DroppedOf(items, CpKey(wl)) == []
    ensures forall e :: e in EventsOf(items, CpKey(wl), ActiveBucket(wl), segment) ==> ActiveFits(e)
  {
    if |items| != 0 {
      var front := items[..|items|-1];
      assert FitsKey(wl, items[|items|-1]);
      forall i | 0 <= i < |front| ensures FitsKey(wl, front[i]) {
        assert front[i] == items[i];
      }
      KeyedItemsCount(wl, front, segment);
    }
  }

  lemma {:induction false} KeyedVotesCount(wl: Registry, votes: seq<Ballot>, r: Rules<seq<string>>)
    requires r.keyOf == CpKey(wl) && r.activeOf == ActiveBucket(wl)
    requires forall b :: b in votes ==> FullyKeyed(wl, b.items)
    ensures AllDropped(votes, r.keyOf) == []
    ensures forall e :: e in AllEvents(votes, r) ==> ActiveFits(e)
  {
    if |votes| != 0 {
      KeyedVotesCount(wl, votes[..|votes|-1], r);
      KeyedItemsCount(wl, votes[|votes|-1].items, SegmentOf(r.segmentMap, votes[|votes|-1].voter));
    }
  }

  ghost function SumOver(m: map<string, nat>, keys: set<string>): nat
    decreases keys
  {
    if keys == {} then 0 else
      var a :| a in keys;
      At(m, a) + SumOver(m, keys - {a})
  }

  lemma {:induction false} SumOverCong(m: map<string, nat>, m': map<string, nat>, keys: set<string>)
    requires forall a :: a in keys ==> At(m, a) == At(m', a)
    ensures SumOver(m, keys) == SumOver(m', keys)
    decreases keys
  {
    if keys != {} {
      var a :| a in keys && SumOver(m, keys) == At(m, a) + SumOver(m, keys - {a});
      SumOverCong(m, m', keys - {a});
      SumOverPick(m', keys, a);
    }
  }

  lemma {:induction false} SumOverPick(m: map<string, nat>, keys: set<string>, a: string)
    requires a in keys
    ensures SumOver(m, keys) == At(m, a) + SumOver(m, keys - {a})
    decreases keys
  {
    var b :| b in keys && SumOver(m, keys) == At(m, b) + SumOver(m, keys - {b});
    if a != b {
      SumOverPick(m, keys - {b}, a);
      SumOverPick(m, keys - {a}, b);
      assert keys - {b} - {a} == keys - {a} - {b};
    }
  }

  lemma {:induction false} SumOverSupport(m: map<string, nat>, keys: set<string>)
    requires m.Keys <= keys
    ensures SumOver(m, keys) == MapSum(m)
    decreases keys
  {
    if keys == {} {
      assert m == map[];
    } else {
      var a :| a in keys;
      SumOverPick(m, keys, a);
      SumOverSupport(m - {a}, keys - {a});
      SumOverCong(m - {a}, m, keys - {a});
      if a in m {
        MapSumRemove(m, a);
      } else {
        assert m - {a} == m;
      }
    }
  }

  /** If every ballot passed the gate against a non-empty registry, the recount drops nothing, and the
      "active" counts of a combination over its distinct members and "none" add up to its votes. */
  lemma AcceptedFullyTallied(wl: Registry, votes: seq<Ballot>, r: Rules<seq<string>>, t: Tally<seq<string>>,
                             key: seq<string>)
    requires wl.Valid() && |wl.entries| != 0
    requires r.keyOf == CpKey(wl) && r.activeOf == ActiveBucket(wl)
    requires forall b :: b in votes ==> AcceptedBallot(wl, b)
    requires Tallied(t, AllEvents(votes, r), AllDropped(votes, r.keyOf))
    ensures t.dropped == map[]
    ensures ItemsSeen(votes) == MapSum(t.voteCount) + AllRepeats(votes, r.keyOf)
    ensures SumOver(Row(t.activeCount, key), (set m | m in key) + {"none"}) == At(t.voteCount, key)
  {
    forall b | b in votes {
      AcceptedIsKeyed(wl, b);
    }
    KeyedVotesCount(wl, votes, r);
    ItemsConserved(t, votes, r);
    var events, row := AllEvents(votes, r), Row(t.activeCount, key);
    assert Counts(row, events, ByActive()(key));
    forall a | a in row ensures a in key || a == "none" {
      ActiveOccurs(events, key, a);
    }
    SumOverSupport(row, (set m | m in key) + {"none"});
    BreakdownsAddUp(t, events, AllDropped(votes, r.keyOf), key);
  }

  lemma {:induction false} ActiveOccurs(events: seq<Event<seq<string>>>, key: seq<string>, a: string)
    requires CountIf(events, Hits(ByActive()(key), a)) > 0
    requires forall e :: e in events ==> ActiveFits(e)
    ensures a in key || a == "none"
  {
    var e := events[|events|-1];
    if !Hits(ByActive()(key), a)(e) {
      ActiveOccurs(events[..|events|-1], key, a);
    } else {
      assert ActiveFits(e);
    }
  }

  // ---------- known candidates ----------

  /** Every token submitted is blank or some entry's id or old id; a year without candidates knows no better. */
  lemma CandidatesKnown(wl: Registry, tokens: seq<string>)
    requires wl.Valid()
    ensures RequireCandidates(wl, tokens) <==>
            wl.entries == [] || forall i :: 0 <= i < |tokens| ==>
              tokens[i] == "" || exists e :: e in wl.entries && IsTokenOf(tokens[i], e)
  {
    forall i | 0 <= i < |tokens|
      ensures wl.Contains(tokens[i]) <==> exists e :: e in wl.entries && IsTokenOf(tokens[i], e)
    {
      KnownTokens(wl, tokens[i]);
    }
  }

  predicate HasMember(c: CpPick, t: string) { t == c.idA || t == c.idB || (HasThird(c) && t == c.idC.value) }

  /** The tokens of a ballot of combinations are the members of its combinations. */
  lemma {:induction false} CpTokensListed(cps: seq<CpPick>, t: string)
    ensures t in CpTokens(cps) <==> exists i :: 0 <= i < |cps| && HasMember(cps[i], t)
  {
    if |cps| != 0 {
      var front, c := cps[..|cps|-1], cps[|cps|-1];
      CpTokensListed(front, t);
      MembersListed(c);
      assert forall i :: 0 <= i < |front| ==> front[i] == cps[i];
      if i :| 0 <= i < |cps| && HasMember(cps[i], t) {
        assert i < |front| ==> front[i] == cps[i];
      }
    }
  }
}
