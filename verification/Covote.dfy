/** Pairwise co-vote tables of the most voted entities (`compute_covote`, src/apps/result/compute.py). */
module Covote {
  import opened Prelude
  import opened Selection
  import opened Whitelist
  import opened Tally
  import opened TallyFacts

  /** A 2x2 table for two entities; `cv` is the rounded ratio in ten-thousandths. */
  datatype Table = Table(a: string, b: string, m00: int, m01: int, m10: int, m11: int, cv: int)

  type Users = map<string, set<string>>

  /** The canonical ids a ballot names. */
  function IdsOf(items: seq<Item>, wl: Registry): set<string> {
    set i | 0 <= i < |items| && CharacterKey(wl)(items[i]).Ok? :: CharacterKey(wl)(items[i]).value
  }

  /** What each user voted for; a later ballot of the same user replaces an earlier one. */
  function UserVoted(votes: seq<Ballot>, wl: Registry): Users {
    if |votes| == 0 then map[] else
      var b := votes[|votes|-1];
      UserVoted(votes[..|votes|-1], wl)[b.voter := IdsOf(b.items, wl)]
  }

  function VotersOf(users: Users, id: string): set<string> { set u | u in users && id in users[u] }

  function Jaccard(m11: int, union: int): real { if union != 0 then m11 as real / union as real else 0.0 }

  function TableOf(users: Users, a: string, b: string, round4: real -> int): Table {
    var va, vb := VotersOf(users, a), VotersOf(users, b);
    var m11, m10, m01 := |va * vb|, |va - vb|, |vb - va|;
    Table(a, b, |users| - m11 - m10 - m01, m01, m10, m11, round4(Jaccard(m11, m11 + m10 + m01)))
  }

  function Pairs(ids: seq<string>): seq<(string, string)> {
    if |ids| == 0 then [] else PairsWith(ids[0], ids[1..]) + Pairs(ids[1..])
  }

  function PairsWith(a: string, others: seq<string>): seq<(string, string)> {
    if |others| == 0 then [] else [(a, others[0])] + PairsWith(a, others[1..])
  }

  function ForPair(p: (string, string)): Table -> bool { (t: Table) => (t.a, t.b) == p }

  function Same<T(==)>(x: T): T -> bool { (y: T) => y == x }

  function ByVotes(count: map<string, nat>): string -> seq<int> { (id: string) => [-(At(count, id) as int)] }

  function ByCv(): Table -> seq<int> { (t: Table) => [-t.cv] }

  /** The `topK` most voted ids, most voted first; ties may fall either way. */
  ghost predicate IsTop(top: seq<string>, count: map<string, nat>, topK: nat) {
    && Distinct(top) && (forall id :: id in top ==> id in count)
    && |top| == Min(topK, |count|)
    && (forall i, j :: 0 <= i < j < |top| ==> At(count, top[i]) >= At(count, top[j]))
    && (forall id, x :: id in top && x in count && x !in top ==> At(count, id) >= At(count, x))
  }

  // ---------- the tables ----------

  lemma {:induction false} SplitBy<T>(s: set<T>, t: set<T>)
    ensures |s| == |s * t| + |s - t|
    ensures |s + t| == |s * t| + |s - t| + |t - s|
  {
    assert s == (s * t) + (s - t);
    assert s + t == s + (t - s);
  }

  ghost function Neither(users: Users, a: string, b: string): set<string> {
    set u | u in users && a !in users[u] && b !in users[u]
  }

  lemma Bystanders(users: Users, a: string, b: string)
    ensures |users| == |VotersOf(users, a) + VotersOf(users, b)| + |Neither(users, a, b)|
  {
    assert users.Keys == (VotersOf(users, a) + VotersOf(users, b)) + Neither(users, a, b);
  }

  /** The four cells partition the users and the margins are the two vote counts. */
  lemma TableIsContingency(users: Users, a: string, b: string, round4: real -> int)
    ensures var t := TableOf(users, a, b, round4);
            && t.m00 == |Neither(users, a, b)|
            && t.m00 + t.m01 + t.m10 + t.m11 == |users|
            && t.m11 + t.m10 == |VotersOf(users, a)| && t.m11 + t.m01 == |VotersOf(users, b)|
    ensures var va, vb := VotersOf(users, a), VotersOf(users, b);
            && 0.0 <= Jaccard(|va * vb|, |va + vb|) <= 1.0
            && (if va + vb == {} then Jaccard(|va * vb|, |va + vb|) == 0.0
                else Jaccard(|va * vb|, |va + vb|) * |va + vb| as real == |va * vb| as real)
            && TableOf(users, a, b, round4).cv == round4(Jaccard(|va * vb|, |va + vb|))
  {
    var va, vb := VotersOf(users, a), VotersOf(users, b);
    SplitBy(va, vb);
    SplitBy(vb, va);
    assert vb * va == va * vb;
    Bystanders(users, a, b);
    RatioInUnit(|va * vb|, |va + vb|);
  }

  lemma {:induction false} RatioInUnit(m: nat, union: nat)
    requires m <= union
    ensures 0.0 <= Jaccard(m, union) <= 1.0
    ensures Jaccard(m, union) * union as real == m as real
    ensures union == 0 ==> Jaccard(m, union) == 0.0
  {
    if union != 0 {
      assert m as real <= union as real;
    }
  }

  lemma {:induction false} IdsAreNamed(items: seq<Item>, wl: Registry, id: string)
    ensures id in IdsOf(items, wl) <==> NamesKey(items, CharacterKey(wl), id)
  {
  }

  lemma VotersSnoc(users: Users, u: string, ids: set<string>, id: string)
    requires u !in users
    ensures |VotersOf(users[u := ids], id)| == |VotersOf(users, id)| + (if id in ids then 1 else 0)
  {
    var before, after := VotersOf(users, id), VotersOf(users[u := ids], id);
    if id in ids {
      assert after == before + {u};
    } else {
      assert after == before;
    }
  }

  lemma MarginStep(votes: seq<Ballot>, b: Ballot, wl: Registry, id: string)
    requires b.voter !in UserVoted(votes, wl)
    ensures var before, after := UserVoted(votes, wl), UserVoted(votes + [b], wl);
            && |VotersOf(after, id)| ==
               |VotersOf(before, id)| + (if NamesKey(b.items, CharacterKey(wl), id) then 1 else 0)
            && after.Keys == before.Keys + {b.voter} && |after| == |before| + 1
  {
    assert (votes + [b])[..|votes|] == votes;
    IdsAreNamed(b.items, wl, id);
    VotersSnoc(UserVoted(votes, wl), b.voter, IdsOf(b.items, wl), id);
  }

  /** With one ballot per user, a margin is the entity's vote count. */
  lemma {:induction false} MarginIsVoteCount(votes: seq<Ballot>, wl: Registry, id: string)
    requires forall i, j :: 0 <= i < j < |votes| ==> votes[i].voter != votes[j].voter
    ensures |VotersOf(UserVoted(votes, wl), id)| == CountIf(votes, Naming(CharacterKey(wl), id))
    ensures |UserVoted(votes, wl)| == |votes|
    ensures forall u :: u in UserVoted(votes, wl) ==> exists i :: 0 <= i < |votes| && votes[i].voter == u
  {
    if |votes| != 0 {
      var front, b := votes[..|votes|-1], votes[|votes|-1];
      MarginIsVoteCount(front, wl, id);
      assert votes == front + [b];
      MarginStep(front, b, wl, id);
      CountIfSnoc(front, b, Naming(CharacterKey(wl), id));
      assert forall u :: u in UserVoted(votes, wl) ==> u in UserVoted(front, wl) || u == b.voter;
    }
  }

  // ---------- every pair once ----------

  lemma {:induction false} PairsWithAt(a: string, others: seq<string>, p: (string, string))
    ensures p in PairsWith(a, others) <==> p.0 == a && p.1 in others
    ensures Distinct(others) ==> Distinct(PairsWith(a, others))
  {
    if |others| != 0 {
      PairsWithAt(a, others[1..], p);
      PairsWithAt(a, others[1..], (a, others[0]));
      assert others == [others[0]] + others[1..];
      if Distinct(others) {
        assert others[0] !in others[1..];
        DistinctCons((a, others[0]), PairsWith(a, others[1..]));
      }
    }
  }

  lemma DistinctCons<T>(x: T, s: seq<T>)
    requires Distinct(s) && x !in s
    ensures Distinct([x] + s)
  {
  }

  lemma DistinctConcat<T>(s: seq<T>, t: seq<T>)
    requires Distinct(s) && Distinct(t) && forall x :: x in s ==> x !in t
    ensures Distinct(s + t)
  {
    forall i, j | 0 <= i < j < |s + t| ensures (s + t)[i] != (s + t)[j] {
      if i < |s| <= j {
        assert s[i] in s && t[j - |s|] in t;
      }
    }
  }

  /** Of two distinct listed ids exactly one ordered pair is listed, and none is listed twice. */
  lemma {:induction false} EveryPairOnce(ids: seq<string>, x: string, y: string)
    requires Distinct(ids)
    ensures Distinct(Pairs(ids))
    ensures (x, y) in Pairs(ids) ==> x in ids && y in ids && x != y && (y, x) !in Pairs(ids)
    ensures x in ids && y in ids && x != y ==> (x, y) in Pairs(ids) || (y, x) in Pairs(ids)
  {
    if |ids| != 0 {
      var a, rest := ids[0], ids[1..];
      assert ids == [a] + rest && a !in rest;
      EveryPairOnce(rest, x, y);
      EveryPairOnce(rest, y, x);
      PairsWithAt(a, rest, (x, y));
      PairsWithAt(a, rest, (y, x));
      forall p | p in PairsWith(a, rest) ensures p !in Pairs(rest) {
        PairsWithAt(a, rest, p);
        EveryPairOnce(rest, p.0, p.1);
      }
      DistinctConcat(PairsWith(a, rest), Pairs(rest));
    }
  }

  // ---------- the computation ----------

  /** `vote_count[oid] += 1` for every id of a ballot. */
  method CountIds(count: map<string, nat>, ids: set<string>) returns (r: map<string, nat>)
    ensures forall id :: At(r, id) == At(count, id) + if id in ids then 1 else 0
    ensures r.Keys == count.Keys + ids
  {
    r := count;
    var todo := ids;
    while todo != {}
      invariant todo <= ids && r.Keys == count.Keys + (ids - todo)
      invariant forall id :: At(r, id) == At(count, id) + if id in ids - todo then 1 else 0
    {
      var id :| id in todo;
      r := Inc(r, id);
      todo := todo - {id};
    }
  }

  method CountUsers(votes: seq<Ballot>, wl: Registry) returns (count: map<string, nat>, users: Users)
    ensures users == UserVoted(votes, wl)
    ensures forall id :: At(count, id) == CountIf(votes, Naming(CharacterKey(wl), id))
    ensures forall id :: id in count <==> At(count, id) > 0
  {
    count, users := map[], map[];
    for n := 0 to |votes|
      invariant users == UserVoted(votes[..n], wl)
      invariant forall id :: At(count, id) == CountIf(votes[..n], Naming(CharacterKey(wl), id))
      invariant forall id :: id in count <==> At(count, id) > 0
    {
      var b := votes[n];
      assert votes[..n+1] == votes[..n] + [b];
      assert votes[..n+1][..n] == votes[..n];
      var ids := IdsOf(b.items, wl);
      forall id ensures CountIf(votes[..n+1], Naming(CharacterKey(wl), id))
                     == CountIf(votes[..n], Naming(CharacterKey(wl), id)) + if id in ids then 1 else 0 {
        CountIfSnoc(votes[..n], b, Naming(CharacterKey(wl), id));
        IdsAreNamed(b.items, wl, id);
      }
      users := users[b.voter := ids];
      count := CountIds(count, ids);
    }
    assert votes[..|votes|] == votes;
  }

  method TopIds(count: map<string, nat>, topK: nat) returns (top: seq<string>)
    ensures IsTop(top, count, topK)
  {
    var ids := Elements(count.Keys);
    var sorted := SortBy(ids, ByVotes(count));
    SortBySorted(ids, ByVotes(count));
    SortByDistinct(ids, ByVotes(count));
    ListedSize(sorted, count.Keys);
    top := sorted[..Min(topK, |sorted|)];
    forall i, j | 0 <= i < j < |sorted| ensures At(count, sorted[i]) >= At(count, sorted[j]) {
      LexSingle(-(At(count, sorted[i]) as int), -(At(count, sorted[j]) as int));
      assert LexLe(ByVotes(count)(sorted[i]), ByVotes(count)(sorted[j]));
    }
  }

  lemma {:induction false} ListedSize<T>(s: seq<T>, keys: set<T>)
    requires Distinct(s) && forall x :: x in s <==> x in keys
    ensures |s| == |keys|
  {
    if |s| == 0 {
      assert keys == {};
    } else {
      var x := s[|s|-1];
      assert s == s[..|s|-1] + [x];
      ListedSize(s[..|s|-1], keys - {x});
    }
  }

  /** The loop over the pairs. */
  method TablesOf(users: Users, pairs: seq<(string, string)>, round4: real -> int) returns (result: seq<Table>)
    ensures |result| == |pairs| && forall i :: 0 <= i < |result| ==> (result[i].a, result[i].b) == pairs[i]
    ensures forall t :: t in result ==> t == TableOf(users, t.a, t.b, round4)
  {
    result := [];
    for n := 0 to |pairs|
      invariant |result| == n && forall i :: 0 <= i < n ==> (result[i].a, result[i].b) == pairs[i]
      invariant forall t :: t in result ==> t == TableOf(users, t.a, t.b, round4)
    {
      result := result + [TableOf(users, pairs[n].0, pairs[n].1, round4)];
    }
  }

  method ComputeCovote(votes: seq<Ballot>, wl: Registry, topK: nat, round4: real -> int)
    returns (rows: seq<Table>, ghost count: map<string, nat>, ghost top: seq<string>)
    ensures forall id :: At(count, id) == CountIf(votes, Naming(CharacterKey(wl), id)) &&
              (id in count <==> At(count, id) > 0)
    ensures IsTop(top, count, topK)
    ensures forall p {:trigger ForPair(p)} :: CountIf(rows, ForPair(p)) == if p in Pairs(top) then 1 else 0
    ensures forall t :: t in rows ==> t == TableOf(UserVoted(votes, wl), t.a, t.b, round4)
    ensures forall i, j :: 0 <= i < j < |rows| ==> rows[i].cv >= rows[j].cv
  {
    var counted, users := CountUsers(votes, wl);
    count := counted;
    var ids := TopIds(counted, topK);
    top := ids;
    var result := TablesOf(users, Pairs(ids), round4);
    rows := SortBy(result, ByCv());
    SortBySorted(result, ByCv());
    forall i, j | 0 <= i < j < |rows| ensures rows[i].cv >= rows[j].cv {
      LexSingle(-rows[i].cv, -rows[j].cv);
      assert LexLe(ByCv()(rows[i]), ByCv()(rows[j]));
    }
    forall p ensures CountIf(rows, ForPair(p)) == if p in Pairs(top) then 1 else 0 {
      PairListed(ids, result, p);
      CountIfPermuted(rows, result, ForPair(p));
    }
  }

  lemma {:induction false} PairListed(ids: seq<string>, result: seq<Table>, p: (string, string))
    requires Distinct(ids) && |result| == |Pairs(ids)| &&
             forall i :: 0 <= i < |result| ==> (result[i].a, result[i].b) == Pairs(ids)[i]
    ensures CountIf(result, ForPair(p)) == if p in Pairs(ids) then 1 else 0
  {
    EveryPairOnce(ids, p.0, p.1);
    CountIfPairwise(result, ForPair(p), Pairs(ids), Same(p));
    ListedOnce(Pairs(ids), p);
  }

  lemma {:induction false} ListedOnce<T>(s: seq<T>, x: T)
    requires Distinct(s)
    ensures CountIf(s, Same(x)) == if x in s then 1 else 0
  {
    if |s| != 0 {
      var front, y := s[..|s|-1], s[|s|-1];
      assert s == front + [y];
      ListedOnce(front, x);
    }
  }
}
