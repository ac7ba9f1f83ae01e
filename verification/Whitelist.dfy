/** The two-token candidate registry (src/apps/result/whitelist.py). */
module Whitelist {
  import opened Prelude

  /** The display columns of an entry are not modelled. */
  datatype Entry = Entry(candidateId: int, oldId: Option<string>, name: string, systemId: int)

  const UNKNOWN_SYSTEM_ID := 1_000_000_000

  function Digit(n: int): char
    requires 0 <= n < 10
  {
    "0123456789"[n]
  }

  function StrNat(n: nat): (s: string)
    ensures |s| > 0 && '0' <= s[0] <= '9'
  {
    if n < 10 then [Digit(n)] else StrNat(n / 10) + [Digit(n % 10)]
  }

  /** Python's `str(n)`. */
  function Str(n: int): (s: string)
    ensures s != "" && s != "none"
  {
    var s := if n < 0 then "-" + StrNat(-n) else StrNat(n);
    assert "none"[0] == 'n' && s[0] != 'n';
    s
  }

  function Tokens(e: Entry): seq<string> {
    [Str(e.candidateId)] + if e.oldId.Some? && e.oldId.value != "" then [e.oldId.value] else []
  }

  lemma {:induction false} CanonicalIsToken(e: Entry)
    ensures Str(e.candidateId) in Tokens(e)
  {
    assert Tokens(e)[0] == Str(e.candidateId);
  }

  function AllTokens(entries: seq<Entry>): seq<string> {
    if |entries| == 0 then [] else AllTokens(entries[..|entries|-1]) + Tokens(entries[|entries|-1])
  }

  datatype Registry = Registry(entries: seq<Entry>, byToken: map<string, Entry>) {

    ghost predicate Valid() {
      && (forall e, t :: e in entries && t in Tokens(e) ==> t in byToken && byToken[t] == e)
      && (forall t :: t in byToken ==> byToken[t] in entries && t in Tokens(byToken[t]))
    }

    predicate Contains(token: string) { token in byToken }

    function Canonical(token: string): Option<string> {
      if token in byToken then Some(Str(byToken[token].candidateId)) else None
    }

    function SystemIdOf(token: string): int {
      if token in byToken then byToken[token].systemId else UNKNOWN_SYSTEM_ID
    }

    lemma {:induction false} OwnToken(e: Entry)
      requires Valid() && e in entries
      ensures Str(e.candidateId) in byToken && byToken[Str(e.candidateId)] == e
    {
      CanonicalIsToken(e);
    }

    /** A canonical token is its own canonical token, and none is empty or the literal "none". */
    lemma {:induction false} CanonicalIdempotent(token: string)
      requires Valid() && Contains(token)
      ensures Canonical(Canonical(token).value) == Canonical(token)
      ensures Canonical(token).value != "" && Canonical(token).value != "none"
      ensures SystemIdOf(Canonical(token).value) == SystemIdOf(token)
    {
      OwnToken(byToken[token]);
    }

    /** Two tokens are merged by the tally exactly when they belong to one entry. */
    lemma CanonicalIsIdentity(t: string, u: string)
      requires Valid() && Contains(t) && Contains(u)
      ensures Canonical(t) == Canonical(u) <==> byToken[t] == byToken[u]
    {
      OwnToken(byToken[t]);
      OwnToken(byToken[u]);
    }
  }

  lemma DistinctPrefix<T>(s: seq<T>, t: seq<T>)
    requires Distinct(s + t)
    ensures Distinct(s)
  {
    forall i, j | 0 <= i < j < |s| ensures s[i] != s[j] {
      assert (s + t)[i] == s[i] && (s + t)[j] == s[j];
    }
  }

  lemma {:induction false} TokensPrefix(entries: seq<Entry>, n: nat) returns (rest: seq<string>)
    requires n <= |entries|
    ensures AllTokens(entries) == AllTokens(entries[..n]) + rest
    decreases |entries| - n
  {
    if n == |entries| {
      assert entries[..n] == entries;
      rest := [];
    } else {
      var tail := TokensPrefix(entries, n + 1);
      assert entries[..n+1][..n] == entries[..n];
      rest := Tokens(entries[n]) + tail;
      assert AllTokens(entries) == AllTokens(entries[..n]) + rest;
    }
  }

  ghost predicate Keys(byToken: map<string, Entry>, tokens: seq<string>) { forall t :: t in byToken <==> t in tokens }

  /** The tokens `mine` lead to `e`. */
  ghost predicate Leads(byToken: map<string, Entry>, mine: seq<string>, e: Entry) {
    forall t :: t in mine ==> t in byToken && byToken[t] == e
  }

  ghost predicate AllLead(byToken: map<string, Entry>, entries: seq<Entry>) {
    forall x :: x in entries ==> Leads(byToken, Tokens(x), x)
  }

  ghost predicate Owned(byToken: map<string, Entry>, entries: seq<Entry>) {
    forall t :: t in byToken ==> byToken[t] in entries && t in Tokens(byToken[t])
  }

  /** `byToken` after the tokens of `entries` and the first `m` tokens of `e` have been filed. */
  ghost predicate Filed(byToken: map<string, Entry>, entries: seq<Entry>, e: Entry, m: nat)
    requires m <= |Tokens(e)|
  {
    var tokens := AllTokens(entries) + Tokens(e)[..m];
    Distinct(tokens) && Keys(byToken, tokens) && AllLead(byToken, entries) && Leads(byToken, Tokens(e)[..m], e) &&
      Owned(byToken, entries + [e])
  }

  lemma FileOne(byToken: map<string, Entry>, entries: seq<Entry>, e: Entry, m: nat)
    requires m < |Tokens(e)| && Filed(byToken, entries, e, m)
    requires Tokens(e)[m] !in byToken
    ensures Filed(byToken[Tokens(e)[m] := e], entries, e, m + 1)
  {
    var t := Tokens(e)[m];
    assert Tokens(e)[..m+1] == Tokens(e)[..m] + [t];
    assert AllTokens(entries) + Tokens(e)[..m+1] == (AllTokens(entries) + Tokens(e)[..m]) + [t];
    DistinctSnoc(AllTokens(entries) + Tokens(e)[..m], t);
  }

  /** `byToken` when exactly the tokens of `entries` have been filed. */
  ghost predicate FiledAll(byToken: map<string, Entry>, entries: seq<Entry>) {
    Distinct(AllTokens(entries)) && Keys(byToken, AllTokens(entries)) && AllLead(byToken, entries) &&
      Owned(byToken, entries)
  }

  lemma {:induction false} FileStart(byToken: map<string, Entry>, entries: seq<Entry>, e: Entry)
    requires FiledAll(byToken, entries)
    ensures Filed(byToken, entries, e, 0)
  {
    assert AllTokens(entries) + Tokens(e)[..0] == AllTokens(entries);
  }

  lemma {:induction false} NextTokens(entries: seq<Entry>, e: Entry)
    ensures AllTokens(entries + [e]) == AllTokens(entries) + Tokens(e)
  {
    assert (entries + [e])[..|entries|] == entries;
  }

  lemma FileEnd(byToken: map<string, Entry>, entries: seq<Entry>, e: Entry)
    requires Filed(byToken, entries, e, |Tokens(e)|)
    ensures FiledAll(byToken, entries + [e])
  {
    assert Tokens(e)[..|Tokens(e)|] == Tokens(e);
    NextTokens(entries, e);
  }

  lemma Collides(entries: seq<Entry>, n: nat, m: nat)
    requires n < |entries| && m < |Tokens(entries[n])|
    requires Tokens(entries[n])[m] in AllTokens(entries[..n]) + Tokens(entries[n])[..m]
    ensures !Distinct(AllTokens(entries)) && RepeatedToken(entries, Tokens(entries[n])[m])
  {
    var seen := AllTokens(entries[..n]) + Tokens(entries[n])[..m];
    var t := Tokens(entries[n])[m];
    var i :| 0 <= i < |seen| && seen[i] == t;
    var rest := TokensPrefix(entries, n + 1);
    assert entries[..n+1][..n] == entries[..n];
    var all := AllTokens(entries);
    assert all == (AllTokens(entries[..n]) + Tokens(entries[n])) + rest;
    assert all[|seen|] == t && all[i] == t;
  }

  ghost predicate RepeatedToken(entries: seq<Entry>, t: string) {
    exists i, j :: 0 <= i < j < |AllTokens(entries)| && AllTokens(entries)[i] == AllTokens(entries)[j] == t
  }

  /** The registry is built iff no token occurs twice among the ids and old ids of the entries; otherwise one
      that does is reported. */
  method Build(entries: seq<Entry>) returns (r: Result<Registry, string>)
    ensures r.Ok? <==> Distinct(AllTokens(entries))
    ensures r.Ok? ==> r.value.entries == entries && r.value.Valid()
    ensures r.Err? ==> RepeatedToken(entries, r.error)
  {
    var byToken: map<string, Entry> := map[];
    for n := 0 to |entries|
      invariant FiledAll(byToken, entries[..n])
    {
      var tokens := Tokens(entries[n]);
      FileStart(byToken, entries[..n], entries[n]);
      for m := 0 to |tokens|
        invariant Filed(byToken, entries[..n], entries[n], m)
      {
        if tokens[m] in byToken {
          Collides(entries, n, m);
          return Err(tokens[m]);
        }
        FileOne(byToken, entries[..n], entries[n], m);
        byToken := byToken[tokens[m] := entries[n]];
      }
      FileEnd(byToken, entries[..n], entries[n]);
      assert entries[..n+1] == entries[..n] + [entries[n]];
    }
    assert entries[..|entries|] == entries;
    r := Ok(Registry(entries, byToken));
  }
}
