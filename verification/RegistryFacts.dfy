/** The tokens of the candidate registry in plain terms (src/apps/result/whitelist.py): ids are decimal numerals,
    and a token leads to an entry exactly when it is the entry's id or its old id. */
module RegistryFacts {
  import opened Prelude
  import opened Whitelist

  // ---------- numerals ----------

  /** The number a string of digits stands for. */
  function ValueOf(s: string): int {
    if s == "" then 0 else 10 * ValueOf(s[..|s|-1]) + (s[|s|-1] as int - '0' as int)
  }

  ghost predicate IsNumeral(s: string, n: nat) {
    s != "" && (forall i :: 0 <= i < |s| ==> '0' <= s[i] <= '9') && (|s| > 1 ==> s[0] != '0') && ValueOf(s) == n
  }

  lemma {:induction false} NatIsNumeral(n: nat)
    ensures IsNumeral(StrNat(n), n) && (n != 0 ==> StrNat(n)[0] != '0')
  {
    DigitIsDigit(n % 10);
    if n >= 10 {
      NatIsNumeral(n / 10);
      var s := StrNat(n);
      assert s[..|s|-1] == StrNat(n / 10) && s[|s|-1] == Digit(n % 10);
      assert forall i :: 0 <= i < |s| - 1 ==> s[i] == StrNat(n / 10)[i];
    } else {
      DigitIsDigit(n);
      assert [Digit(n)][..0] == "" && ValueOf("") == 0;
    }
  }

  lemma DigitIsDigit(n: int)
    requires 0 <= n < 10
    ensures Digit(n) as int == '0' as int + n && '0' <= Digit(n) <= '9'
  {
  }

  /** `str(n)`: the decimal numeral, behind a minus sign if negative. */
  lemma StrIsNumeral(n: int)
    ensures n >= 0 ==> IsNumeral(Str(n), n)
    ensures n < 0 ==> Str(n)[0] == '-' && IsNumeral(Str(n)[1..], -n)
  {
    NatIsNumeral(if n < 0 then -n else n);
    if n < 0 {
      assert ("-" + StrNat(-n))[1..] == StrNat(-n);
    }
  }

  /** Different ids have different tokens. */
  lemma StrInjective(m: int, n: int)
    requires Str(m) == Str(n)
    ensures m == n
  {
    StrIsNumeral(m);
    StrIsNumeral(n);
  }

  // ---------- tokens ----------

  /** The token is the entry's id, or its old id if it has one. */
  predicate IsTokenOf(t: string, e: Entry) { t == Str(e.candidateId) || (t != "" && e.oldId == Some(t)) }

  /** A registry knows a token exactly when some entry has it, and leads to that entry; an unknown token ranks
      behind everything. */
  lemma KnownTokens(wl: Registry, t: string)
    requires wl.Valid()
    ensures wl.Contains(t) <==> exists e :: e in wl.entries && IsTokenOf(t, e)
    ensures forall e :: e in wl.entries && IsTokenOf(t, e) ==>
              wl.Canonical(t) == Some(Str(e.candidateId)) && wl.SystemIdOf(t) == e.systemId
    ensures !wl.Contains(t) ==> wl.Canonical(t).None? && wl.SystemIdOf(t) == 1_000_000_000
  {
    forall e ensures t in Tokens(e) <==> IsTokenOf(t, e) {
      TokenMeans(t, e);
    }
  }

  lemma TokenMeans(t: string, e: Entry)
    ensures t in Tokens(e) <==> IsTokenOf(t, e)
  {
    var s := Tokens(e);
    assert s[0] == Str(e.candidateId);
    if t != "" && e.oldId == Some(t) {
      assert s[1] == t;
    }
  }

  /** Two entries, or an entry with itself, have a token in common. */
  ghost predicate Collide(a: Entry, b: Entry) {
    || a.candidateId == b.candidateId
    || (a.oldId.Some? && a.oldId.value != "" && a.oldId == b.oldId)
    || a.oldId == Some(Str(b.candidateId)) || b.oldId == Some(Str(a.candidateId))
  }

  ghost predicate NoCollision(entries: seq<Entry>) {
    && (forall i :: 0 <= i < |entries| ==> entries[i].oldId != Some(Str(entries[i].candidateId)))
    && (forall i, j :: 0 <= i < j < |entries| ==> !Collide(entries[i], entries[j]))
  }

  lemma {:induction false} InAllTokens(entries: seq<Entry>, t: string)
    ensures t in AllTokens(entries) <==> exists i :: 0 <= i < |entries| && IsTokenOf(t, entries[i])
  {
    if |entries| != 0 {
      var front, e := entries[..|entries|-1], entries[|entries|-1];
      InAllTokens(front, t);
      TokenMeans(t, e);
      assert forall i :: 0 <= i < |front| ==> front[i] == entries[i];
      if i :| 0 <= i < |entries| && IsTokenOf(t, entries[i]) {
        assert i < |front| ==> front[i] == entries[i];
      }
    }
  }

  /** Nothing is in both lists. */
  ghost predicate Disjoint(s: seq<string>, t: seq<string>) { forall x :: x in s ==> x !in t }

  lemma DistinctJoin(s: seq<string>, t: seq<string>)
    ensures Distinct(s + t) <==> Distinct(s) && Distinct(t) && Disjoint(s, t)
  {
    var all := s + t;
    assert forall i :: 0 <= i < |s| ==> all[i] == s[i];
    assert forall i :: 0 <= i < |t| ==> all[|s| + i] == t[i];
    if Distinct(all) {
      forall x | x in s ensures x !in t {
        var i :| 0 <= i < |s| && s[i] == x;
        forall j | 0 <= j < |t| ensures t[j] != x {
          assert all[i] != all[|s| + j];
        }
      }
      forall i, j | 0 <= i < j < |t| ensures t[i] != t[j] {
        assert all[|s| + i] != all[|s| + j];
      }
    }
    if Distinct(s) && Distinct(t) && Disjoint(s, t) {
      forall i, j | 0 <= i < j < |all| ensures all[i] != all[j] {
        assert i < |s| ==> all[i] in s;
        assert j >= |s| ==> all[j] in t;
      }
    }
  }

  lemma OwnTokens(e: Entry)
    ensures Distinct(Tokens(e)) <==> e.oldId != Some(Str(e.candidateId))
  {
    var s := Tokens(e);
    assert |s| == 2 ==> s[0] == Str(e.candidateId) && s[1] == e.oldId.value;
  }

  lemma CollideByToken(a: Entry, b: Entry)
    ensures Collide(a, b) <==> exists t :: IsTokenOf(t, a) && IsTokenOf(t, b)
  {
    if Collide(a, b) {
      if a.candidateId == b.candidateId || b.oldId == Some(Str(a.candidateId)) {
        assert IsTokenOf(Str(a.candidateId), a) && IsTokenOf(Str(a.candidateId), b);
      } else if a.oldId == Some(Str(b.candidateId)) {
        assert IsTokenOf(Str(b.candidateId), a) && IsTokenOf(Str(b.candidateId), b);
      } else {
        assert IsTokenOf(a.oldId.value, a) && IsTokenOf(a.oldId.value, b);
      }
    }
    if t :| IsTokenOf(t, a) && IsTokenOf(t, b) {
      if t == Str(a.candidateId) && t == Str(b.candidateId) {
        StrInjective(a.candidateId, b.candidateId);
      }
    }
  }

  /** The registry can be built exactly when no two entries share an id or an old id, and no old id is an id. */
  lemma {:induction false} DistinctIffNoCollision(entries: seq<Entry>)
    ensures Distinct(AllTokens(entries)) <==> NoCollision(entries)
  {
    if |entries| != 0 {
      var front, e := entries[..|entries|-1], entries[|entries|-1];
      DistinctIffNoCollision(front);
      DistinctJoin(AllTokens(front), Tokens(e));
      OwnTokens(e);
      FrontDisjoint(front, e);
      assert entries == front + [e];
      NoCollisionSnoc(front, e);
    }
  }

  lemma NoCollisionSnoc(entries: seq<Entry>, e: Entry)
    ensures NoCollision(entries + [e]) <==>
            NoCollision(entries) && e.oldId != Some(Str(e.candidateId)) &&
              forall i :: 0 <= i < |entries| ==> !Collide(entries[i], e)
  {
    var all := entries + [e];
    assert all[|entries|] == e && forall i :: 0 <= i < |entries| ==> all[i] == entries[i];
  }

  lemma FrontDisjoint(entries: seq<Entry>, e: Entry)
    ensures Disjoint(AllTokens(entries), Tokens(e)) <==> forall i :: 0 <= i < |entries| ==> !Collide(entries[i], e)
  {
    forall t
      ensures t in AllTokens(entries) <==> exists i :: 0 <= i < |entries| && IsTokenOf(t, entries[i])
      ensures t in Tokens(e) <==> IsTokenOf(t, e)
    {
      InAllTokens(entries, t);
      TokenMeans(t, e);
    }
    forall i | 0 <= i < |entries|
      ensures Collide(entries[i], e) <==> exists t :: IsTokenOf(t, entries[i]) && IsTokenOf(t, e)
    {
      CollideByToken(entries[i], e);
    }
    forall i | 0 <= i < |entries| && Collide(entries[i], e) ensures !Disjoint(AllTokens(entries), Tokens(e)) {
      var t :| IsTokenOf(t, entries[i]) && IsTokenOf(t, e);
      assert t in AllTokens(entries) && t in Tokens(e);
    }
  }
}
