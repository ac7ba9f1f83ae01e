/** Planning the import of legacy voters: which of the records that share a contact survives, and what it
    takes over from the others (scripts/import_legacy_voters.py). */
module LegacyPlan {
  import opened Prelude

  datatype Voter = Voter(legacyId: string, email: Option<string>, emailVerified: bool, phone: Option<string>,
                         phoneVerified: bool, qq: Option<string>, wiki: Option<string>, pfp: Option<string>,
                         passwordHash: Option<string>, createdAt: int)

  /** Which addresses are valid, and what to do with the test accounts. */
  datatype Rules = Rules(valid: string -> bool, tests: set<string>, includeTests: bool)

  /** Last activity by legacy id, in microseconds; no activity counts as the least representable instant. */
  type Activity = map<string, int>

  const MIN_ACTIVITY := -62135596800000000

  function ActiveAt(last: Activity, id: string): int { if id in last then last[id] else MIN_ACTIVITY }

  function Codes(s: string): seq<int> { seq(|s|, i requires 0 <= i < |s| => s[i] as int) }

  /** `_sort_key`. */
  function VoterKey(last: Activity): Voter -> seq<int> {
    (v: Voter) => [-ActiveAt(last, v.legacyId), v.createdAt] + Codes(v.legacyId)
  }

  /** Later activity first, then the older registration, then the smaller id. */
  predicate Precedes(last: Activity, a: Voter, b: Voter) {
    var x, y := ActiveAt(last, a.legacyId), ActiveAt(last, b.legacyId);
    x > y ||
      (x == y &&
         (a.createdAt < b.createdAt || (a.createdAt == b.createdAt && LexLe(Codes(a.legacyId), Codes(b.legacyId)))))
  }

  lemma {:induction false} KeyIsPrecedence(last: Activity, a: Voter, b: Voter)
    ensures LexLe(VoterKey(last)(a), VoterKey(last)(b)) <==> Precedes(last, a, b)
  {
    var s, t := VoterKey(last)(a), VoterKey(last)(b);
    assert s[1..][1..] == Codes(a.legacyId) && t[1..][1..] == Codes(b.legacyId);
    assert LexLe(s[1..], t[1..]) <==> s[1] < t[1] || (s[1] == t[1] && LexLe(s[1..][1..], t[1..][1..]));
  }

  lemma KeyIsUnique(last: Activity, a: Voter, b: Voter)
    requires VoterKey(last)(a) == VoterKey(last)(b)
    ensures a.legacyId == b.legacyId
  {
    var s, t := VoterKey(last)(a), VoterKey(last)(b);
    assert s[2..] == Codes(a.legacyId) && t[2..] == Codes(b.legacyId);
    assert |a.legacyId| == |b.legacyId|;
    forall i | 0 <= i < |a.legacyId| ensures a.legacyId[i] == b.legacyId[i] {
      assert Codes(a.legacyId)[i] == Codes(b.legacyId)[i];
    }
  }

  // ---------- merging ----------

  datatype Field = PhoneField | QqField | WikiField | PfpField

  const FIELDS := [PhoneField, QqField, WikiField, PfpField]

  function Get(v: Voter, f: Field): Option<string> {
    match f
    case PhoneField => v.phone
    case QqField => v.qq
    case WikiField => v.wiki
    case PfpField => v.pfp
  }

  /** The field's value in the first of `vs` that has one. */
  function FirstOf(vs: seq<Voter>, f: Field): Option<string> {
    if |vs| == 0 then None else
      var before := FirstOf(vs[..|vs|-1], f);
      if before.Some? then before else Get(vs[|vs|-1], f)
  }

  predicate AnyEmailVerified(vs: seq<Voter>) { exists i :: 0 <= i < |vs| && vs[i].emailVerified }

  predicate AnyPhoneVerified(vs: seq<Voter>) { exists i :: 0 <= i < |vs| && vs[i].phoneVerified }

  function OrElse(a: Option<string>, b: Option<string>): Option<string> { if a.Some? then a else b }

  /** What the survivor is after taking over from the others, in their order. */
  function Merged(winner: Voter, losers: seq<Voter>): Voter {
    winner.(phone := OrElse(winner.phone, FirstOf(losers, PhoneField)),
            qq := OrElse(winner.qq, FirstOf(losers, QqField)),
            wiki := OrElse(winner.wiki, FirstOf(losers, WikiField)),
            pfp := OrElse(winner.pfp, FirstOf(losers, PfpField)),
            emailVerified := winner.emailVerified || AnyEmailVerified(losers),
            phoneVerified := winner.phoneVerified || AnyPhoneVerified(losers))
  }

  /** A field comes from the record that precedes all others having it; the survivor's own wins. */
  lemma {:induction false} FirstOfIsFirst(vs: seq<Voter>, f: Field)
    ensures FirstOf(vs, f).None? <==> forall i :: 0 <= i < |vs| ==> Get(vs[i], f).None?
    ensures FirstOf(vs, f).Some? ==>
              exists i :: 0 <= i < |vs| && Get(vs[i], f) == FirstOf(vs, f) &&
                forall j :: 0 <= j < i ==> Get(vs[j], f).None?
  {
    if |vs| != 0 {
      var front := vs[..|vs|-1];
      FirstOfIsFirst(front, f);
      assert forall i :: 0 <= i < |front| ==> front[i] == vs[i];
      if FirstOf(front, f).Some? {
        var i :|
          0 <= i < |front| && Get(front[i], f) == FirstOf(front, f) &&
          forall j :: 0 <= j < i ==> Get(front[j], f).None?;
        assert Get(vs[i], f) == FirstOf(vs, f);
      } else if Get(vs[|front|], f).Some? {
        assert Get(vs[|front|], f) == FirstOf(vs, f);
      }
    }
  }

  /** The fields among `fields` that `v` lacks and `l` has, with the id of `l`. */
  function Supplied(v: Voter, l: Voter, fields: seq<Field>): seq<(Field, string)> {
    if |fields| == 0 then [] else
      var f := fields[|fields|-1];
      Supplied(v, l, fields[..|fields|-1]) + if Get(v, f).None? && Get(l, f).Some? then [(f, l.legacyId)] else []
  }

  /** The origins of the fields the survivor takes over, in the order they are taken. */
  function Origins(winner: Voter, losers: seq<Voter>): seq<(Field, string)> {
    if |losers| == 0 then [] else
      Origins(winner, losers[..|losers|-1]) + Supplied(Merged(winner, losers[..|losers|-1]), losers[|losers|-1], FIELDS)
  }

  /** `_merge_missing`; `updates` becomes the changed record, `merged` lists the origins. */
  method MergeMissing(winner: Voter, losers: seq<Voter>) returns (v: Voter, merged: seq<(Field, string)>)
    ensures v == Merged(winner, losers) && merged == Origins(winner, losers)
    ensures forall f, id :: (f, id) in merged ==>
              Get(winner, f).None? && exists i :: TakenFrom(losers, f, i) && losers[i].legacyId == id
    ensures forall f, i :: Get(winner, f).None? && TakenFrom(losers, f, i) ==> (f, losers[i].legacyId) in merged
  {
    merged := [];
    v := winner;
    for n := 0 to |losers|
      invariant v == Merged(winner, losers[..n]) && merged == Origins(winner, losers[..n])
      invariant forall f, id :: (f, id) in merged ==>
                  Get(winner, f).None? && exists i :: 0 <= i < n && TakenFrom(losers, f, i) && losers[i].legacyId == id
      invariant forall f, i :: Get(winner, f).None? && TakenFrom(losers, f, i) && i < n ==>
                  (f, losers[i].legacyId) in merged
    {
      assert losers[..n+1] == losers[..n] + [losers[n]] && losers[..n+1][..n] == losers[..n];
      ghost var before := merged;
      var more := Missing(winner, losers, v, n);
      merged := merged + more;
      MergedSnoc(winner, losers[..n], losers[n]);
      v := Voter(v.legacyId, v.email, v.emailVerified || losers[n].emailVerified, OrElse(v.phone, losers[n].phone),
                 v.phoneVerified || losers[n].phoneVerified, OrElse(v.qq, losers[n].qq), OrElse(v.wiki, losers[n].wiki),
                 OrElse(v.pfp, losers[n].pfp), v.passwordHash, v.createdAt);
      forall f, id | (f, id) in merged
        ensures Get(winner, f).None? &&
                exists i :: 0 <= i < n + 1 && TakenFrom(losers, f, i) && losers[i].legacyId == id
      {
        assert (f, id) in before || (f, id) in more;
      }
    }
    assert losers[..|losers|] == losers;
  }

  /** Loser `i` is the first that has field `f`. */
  predicate TakenFrom(losers: seq<Voter>, f: Field, i: int) {
    0 <= i < |losers| && Get(losers[i], f).Some? && forall j :: 0 <= j < i ==> Get(losers[j], f).None?
  }

  lemma {:induction false} MergedSnoc(winner: Voter, losers: seq<Voter>, l: Voter)
    ensures var v := Merged(winner, losers);
            Merged(winner, losers + [l]) ==
              Voter(v.legacyId, v.email, v.emailVerified || l.emailVerified, OrElse(v.phone, l.phone),
                    v.phoneVerified || l.phoneVerified,
                    OrElse(v.qq, l.qq), OrElse(v.wiki, l.wiki), OrElse(v.pfp, l.pfp), v.passwordHash, v.createdAt)
  {
    var all := losers + [l];
    assert all[..|losers|] == losers && all[|losers|] == l && forall i :: 0 <= i < |losers| ==> all[i] == losers[i];
    if AnyEmailVerified(losers) {
      var i :| 0 <= i < |losers| && losers[i].emailVerified;
      assert all[i].emailVerified;
    }
    if AnyPhoneVerified(losers) {
      var i :| 0 <= i < |losers| && losers[i].phoneVerified;
      assert all[i].phoneVerified;
    }
  }

  lemma LacksStill(winner: Voter, losers: seq<Voter>, f: Field)
    ensures Get(Merged(winner, losers), f).None? <==>
            Get(winner, f).None? && forall j :: 0 <= j < |losers| ==> Get(losers[j], f).None?
  {
    FirstOfIsFirst(losers, f);
  }

  /** The fields loser `n` is the first to supply. */
  method Missing(winner: Voter, losers: seq<Voter>, v: Voter, n: nat) returns (more: seq<(Field, string)>)
    requires n < |losers| && v == Merged(winner, losers[..n])
    ensures more == Supplied(v, losers[n], FIELDS)
    ensures forall f, id :: (f, id) in more <==>
              Get(winner, f).None? && TakenFrom(losers, f, n) && id == losers[n].legacyId
  {
    more := [];
    for k := 0 to |FIELDS|
      invariant more == Supplied(v, losers[n], FIELDS[..k])
      invariant forall f, id :: (f, id) in more <==>
                  f in FIELDS[..k] && Get(winner, f).None? && TakenFrom(losers, f, n) && id == losers[n].legacyId
    {
      var f := FIELDS[k];
      LacksStill(winner, losers[..n], f);
      assert FIELDS[..k+1] == FIELDS[..k] + [f];
      if Get(winner, f).None? && Get(losers[n], f).Some? && Get(v, f).None? {
        more := more + [(f, losers[n].legacyId)];
      }
    }
    assert FIELDS[..|FIELDS|] == FIELDS;
    forall f: Field ensures f in FIELDS {
      assert f == FIELDS[0] || f == FIELDS[1] || f == FIELDS[2] || f == FIELDS[3];
    }
  }

  // ---------- grouping ----------

  /** Records are duplicates of each other if they share the e-mail address, or, without any address, the
      phone number; records with neither all fall together. */
  datatype Contact = Mail(s: string) | Phone(s: string)

  function ContactOf(): Voter -> Contact {
    (v: Voter) => if v.email.Some? then Mail(v.email.value) else Phone(if v.phone.Some? then v.phone.value else "")
  }

  function IsInvalid(rules: Rules): Voter -> bool { (v: Voter) => v.email.Some? && !rules.valid(v.email.value) }

  function IsTest(rules: Rules): Voter -> bool {
    (v: Voter) => !IsInvalid(rules)(v) && !rules.includeTests && v.email.Some? && v.email.value in rules.tests
  }

  function IsKept(rules: Rules): Voter -> bool { (v: Voter) => !IsInvalid(rules)(v) && !IsTest(rules)(v) }

  function IsMail(rules: Rules): Voter -> bool { (v: Voter) => IsKept(rules)(v) && v.email.Some? }

  function IsMailless(rules: Rules): Voter -> bool { (v: Voter) => IsKept(rules)(v) && v.email.None? }

  function InContact(rules: Rules, c: Contact): Voter -> bool { (v: Voter) => IsKept(rules)(v) && ContactOf()(v) == c }

  /** The records of one contact, the survivor first. */
  function Ordered(voters: seq<Voter>, last: Activity, rules: Rules, c: Contact): seq<Voter> {
    SortBy(Filter(voters, InContact(rules, c)), VoterKey(last))
  }

  function IdOf(): Voter -> string { (v: Voter) => v.legacyId }

  predicate NeedsReview(ordered: seq<Voter>, last: Activity) {
    && |ordered| > 1
    && (exists i :: 0 <= i < |ordered| && ordered[i].passwordHash != ordered[0].passwordHash)
    && (forall i :: 0 <= i < |ordered| ==> ordered[i].legacyId !in last)
  }

  datatype ImportPlan = ImportPlan(winners: seq<Voter>, losers: map<string, string>,
                                   losersOf: map<string, seq<string>>, invalid: seq<Voter>, skipped: seq<Voter>,
                                   review: seq<Voter>, merged: seq<(string, Field, string)>)

  function Survivor(ordered: seq<Voter>): Voter
    requires |ordered| != 0
  {
    Merged(ordered[0], ordered[1..])
  }

  /** The contacts of the kept records, each once. */
  ghost predicate AreContacts(contacts: seq<Contact>, voters: seq<Voter>, rules: Rules) {
    Distinct(contacts) && forall c :: c in contacts <==> |Filter(voters, InContact(rules, c))| != 0
  }

  ghost function Groups(voters: seq<Voter>, last: Activity, rules: Rules,
                        contacts: seq<Contact>): (groups: seq<seq<Voter>>)
    ensures |groups| == |contacts| &&
            forall k :: 0 <= k < |contacts| ==> groups[k] == Ordered(voters, last, rules, contacts[k])
  {
    seq(|contacts|, k requires 0 <= k < |contacts| => Ordered(voters, last, rules, contacts[k]))
  }

  ghost predicate NonEmpty(groups: seq<seq<Voter>>) { forall k :: 0 <= k < |groups| ==> |groups[k]| != 0 }

  ghost predicate WinnersOk(winners: seq<Voter>, groups: seq<seq<Voter>>) {
    NonEmpty(groups) && |winners| == |groups| && forall k :: 0 <= k < |groups| ==> winners[k] == Survivor(groups[k])
  }

  /** Every record but the first of a group points to the survivor. */
  ghost predicate LosersOk(losers: map<string, string>, groups: seq<seq<Voter>>) {
    && (forall id :: id in losers <==> exists k, m :: Loses(groups, k, m, id))
    && (forall k, m, id :: Loses(groups, k, m, id) ==> id in losers && losers[id] == groups[k][0].legacyId)
  }

  ghost predicate LosersOfOk(losersOf: map<string, seq<string>>, groups: seq<seq<Voter>>) {
    && (forall id :: id in losersOf <==> exists k :: Wins(groups, k, id))
    && (forall k, id :: Wins(groups, k, id) ==> id in losersOf && losersOf[id] == Map(groups[k][1..], IdOf()))
  }

  /** Survivors in group order, and every other record pointing to the survivor of its group. */
  ghost predicate IsOutcome(plan: ImportPlan, groups: seq<seq<Voter>>, last: Activity) {
    WinnersOk(plan.winners, groups) && LosersOk(plan.losers, groups) && LosersOfOk(plan.losersOf, groups)
    && plan.review == Flat(groups, ReviewOf(last)) && plan.merged == Flat(groups, OriginRows())
  }

  predicate Wins(groups: seq<seq<Voter>>, k: int, id: string) {
    0 <= k < |groups| && |groups[k]| != 0 && groups[k][0].legacyId == id
  }

  predicate Loses(groups: seq<seq<Voter>>, k: int, m: int, id: string) {
    0 <= k < |groups| && 1 <= m < |groups[k]| && groups[k][m].legacyId == id
  }

  function ReviewOf(last: Activity): seq<Voter> -> seq<Voter> {
    (ordered: seq<Voter>) => if |ordered| != 0 && NeedsReview(ordered, last) then [Survivor(ordered)] else []
  }

  function Named(id: string): ((Field, string)) -> (string, Field, string) { (o: (Field, string)) => (id, o.0, o.1) }

  /** The entries of `merged_fields` for one contact. */
  function OriginRows(): seq<Voter> -> seq<(string, Field, string)> {
    (ordered: seq<Voter>) =>
      if |ordered| == 0 then [] else Map(Origins(ordered[0], ordered[1..]), Named(ordered[0].legacyId))
  }

  ghost predicate IsPlan(plan: ImportPlan, contacts: seq<Contact>, voters: seq<Voter>, last: Activity, rules: Rules) {
    && plan.invalid == Filter(voters, IsInvalid(rules)) && plan.skipped == Filter(voters, IsTest(rules))
    && AreContacts(contacts, voters, rules) && IsOutcome(plan, Groups(voters, last, rules, contacts), last)
  }

  predicate At(groups: seq<seq<Voter>>, k: int, m: int, id: string) {
    0 <= k < |groups| && 0 <= m < |groups[k]| && groups[k][m].legacyId == id
  }

  /** No id occurs at two places of the groups. */
  ghost predicate DistinctIds(groups: seq<seq<Voter>>) {
    forall k, m, k', m', id :: At(groups, k, m, id) && At(groups, k', m', id) ==> k == k' && m == m'
  }

  lemma {:induction false} FilterDistinct<T>(s: seq<T>, p: T -> bool)
    requires Distinct(s)
    ensures Distinct(Filter(s, p))
  {
    if |s| != 0 {
      FilterDistinct(s[..|s|-1], p);
    }
  }

  lemma {:induction false} SameVoter(voters: seq<Voter>, v: Voter, w: Voter)
    requires Distinct(Map(voters, IdOf())) && v in voters && w in voters && v.legacyId == w.legacyId
    ensures v == w
  {
    var i :| 0 <= i < |voters| && voters[i] == v;
    var j :| 0 <= j < |voters| && voters[j] == w;
    assert Map(voters, IdOf())[i] == v.legacyId && Map(voters, IdOf())[j] == w.legacyId;
  }

  lemma OrderedDistinct(voters: seq<Voter>, last: Activity, rules: Rules, c: Contact)
    requires Distinct(Map(voters, IdOf()))
    ensures Distinct(Ordered(voters, last, rules, c))
    ensures forall v :: v in Ordered(voters, last, rules, c) <==> v in voters && InContact(rules, c)(v)
    ensures |Ordered(voters, last, rules, c)| == |Filter(voters, InContact(rules, c))|
  {
    assert Distinct(voters) by {
      forall i, j | 0 <= i < j < |voters| ensures voters[i] != voters[j] {
        assert Map(voters, IdOf())[i] != Map(voters, IdOf())[j];
      }
    }
    FilterDistinct(voters, InContact(rules, c));
    SortByDistinct(Filter(voters, InContact(rules, c)), VoterKey(last));
    SortBySorted(Filter(voters, InContact(rules, c)), VoterKey(last));
  }

  lemma GroupsDistinct(voters: seq<Voter>, last: Activity, rules: Rules, contacts: seq<Contact>)
    requires Distinct(Map(voters, IdOf())) && AreContacts(contacts, voters, rules)
    ensures DistinctIds(Groups(voters, last, rules, contacts)) && NonEmpty(Groups(voters, last, rules, contacts))
  {
    var groups := Groups(voters, last, rules, contacts);
    forall k, m, k', m', id | At(groups, k, m, id) && At(groups, k', m', id) ensures k == k' && m == m' {
      OrderedDistinct(voters, last, rules, contacts[k]);
      OrderedDistinct(voters, last, rules, contacts[k']);
      var v, w := groups[k][m], groups[k'][m'];
      assert v in groups[k] && w in groups[k'];
      SameVoter(voters, v, w);
      assert contacts[k] == ContactOf()(v) == contacts[k'];
    }
    forall k | 0 <= k < |groups| ensures |groups[k]| != 0 {
      OrderedDistinct(voters, last, rules, contacts[k]);
      assert contacts[k] in contacts;
    }
  }

  lemma WinnersStep(winners: seq<Voter>, groups: seq<seq<Voter>>, g: seq<Voter>)
    requires WinnersOk(winners, groups) && |g| != 0
    ensures WinnersOk(winners + [Survivor(g)], groups + [g])
  {
  }

  /** `id` belongs to a record of the group that did not survive. */
  predicate LosesIn(g: seq<Voter>, n: int, id: string) { exists m :: 1 <= m < n && m < |g| && g[m].legacyId == id }

  lemma LosersStep(losers: map<string, string>, groups: seq<seq<Voter>>, g: seq<Voter>, losers': map<string, string>)
    requires LosersOk(losers, groups) && |g| != 0 && DistinctIds(groups + [g])
    requires forall id :: id in losers' <==> id in losers || LosesIn(g, |g|, id)
    requires forall id :: id in losers' ==> losers'[id] == if LosesIn(g, |g|, id) then g[0].legacyId else losers[id]
    ensures LosersOk(losers', groups + [g])
  {
    var all, n := groups + [g], |groups|;
    assert all[n] == g && forall k :: 0 <= k < n ==> all[k] == groups[k];
    forall id ensures LosesIn(g, |g|, id) <==> exists m :: Loses(all, n, m, id) {
      if LosesIn(g, |g|, id) {
        var m :| 1 <= m < |g| && g[m].legacyId == id;
        assert Loses(all, n, m, id);
      }
    }
    forall k, m, id | k < n ensures Loses(all, k, m, id) <==> Loses(groups, k, m, id) {
    }
    forall k, m, id | Loses(all, k, m, id) ensures losers'[id] == all[k][0].legacyId {
      LosesOnce(all, k, m, id);
    }
  }

  lemma LosesOnce(groups: seq<seq<Voter>>, k: int, m: int, id: string)
    requires DistinctIds(groups) && Loses(groups, k, m, id)
    ensures forall k', m' :: Loses(groups, k', m', id) ==> k' == k && m' == m
  {
    assert At(groups, k, m, id);
    forall k', m' | Loses(groups, k', m', id) ensures k' == k && m' == m {
      assert At(groups, k', m', id);
    }
  }

  lemma LosersOfStep(losersOf: map<string, seq<string>>, groups: seq<seq<Voter>>, g: seq<Voter>)
    requires LosersOfOk(losersOf, groups) && |g| != 0 && DistinctIds(groups + [g])
    ensures LosersOfOk(losersOf[g[0].legacyId := Map(g[1..], IdOf())], groups + [g])
  {
    var all, n, losersOf' := groups + [g], |groups|, losersOf[g[0].legacyId := Map(g[1..], IdOf())];
    assert all[n] == g && forall k :: 0 <= k < n ==> all[k] == groups[k];
    assert Wins(all, n, g[0].legacyId);
    forall k, id | k < n ensures Wins(all, k, id) <==> Wins(groups, k, id) {
    }
    forall k, id | Wins(all, k, id) ensures id in losersOf' && losersOf'[id] == Map(all[k][1..], IdOf()) {
      assert At(all, k, 0, id);
      assert At(all, n, 0, g[0].legacyId);
    }
  }

  /** The losers of one group. */
  method AddLosers(losers0: map<string, string>, g: seq<Voter>, winner: string) returns (losers: map<string, string>)
    ensures forall id :: id in losers <==> id in losers0 || LosesIn(g, |g|, id)
    ensures forall id :: id in losers ==> losers[id] == if LosesIn(g, |g|, id) then winner else losers0[id]
  {
    losers := losers0;
    var m := 1;
    while m < |g|
      invariant m >= 1
      invariant forall id :: id in losers <==> id in losers0 || LosesIn(g, m, id)
      invariant forall id :: id in losers ==> losers[id] == if LosesIn(g, m, id) then winner else losers0[id]
    {
      losers := losers[g[m].legacyId := winner];
      forall id ensures LosesIn(g, m + 1, id) <==> LosesIn(g, m, id) || g[m].legacyId == id {
        if LosesIn(g, m, id) {
          var j :| 1 <= j < m && j < |g| && g[j].legacyId == id;
        }
      }
      m := m + 1;
    }
    forall id ensures LosesIn(g, m, id) <==> LosesIn(g, |g|, id) {
      if LosesIn(g, m, id) {
        var j :| 1 <= j < m && j < |g| && g[j].legacyId == id;
      }
    }
  }

  lemma NoGroups(plan: ImportPlan, last: Activity)
    requires plan.winners == [] &&
             plan.losers == map[] && plan.losersOf == map[] && plan.review == [] && plan.merged == []
    ensures IsOutcome(plan, [], last)
  {
  }

  /** The loop over the groups. */
  method Decide(groups: seq<seq<Voter>>, last: Activity, invalid: seq<Voter>, skipped: seq<Voter>)
      returns (plan: ImportPlan)
    requires NonEmpty(groups) && DistinctIds(groups)
    ensures IsOutcome(plan, groups, last) && plan.invalid == invalid && plan.skipped == skipped
  {
    plan := ImportPlan([], map[], map[], invalid, skipped, [], []);
    NoGroups(plan, last);
    for n := 0 to |groups|
      invariant IsOutcome(plan, groups[..n], last) && plan.invalid == invalid && plan.skipped == skipped
    {
      NextGroup(groups, n);
      plan := DecideGroup(plan, groups[n], last, groups[..n]);
    }
    assert groups[..|groups|] == groups;
  }

  lemma NextGroup(groups: seq<seq<Voter>>, n: nat)
    requires NonEmpty(groups) && DistinctIds(groups) && n < |groups|
    ensures groups[..n+1] == groups[..n] + [groups[n]] && |groups[n]| != 0 && DistinctIds(groups[..n] + [groups[n]])
  {
    DistinctPrefix(groups, n + 1);
    assert groups[..n+1] == groups[..n] + [groups[n]];
  }

  method DecideGroup(plan0: ImportPlan, ordered: seq<Voter>, last: Activity, ghost before: seq<seq<Voter>>)
      returns (plan: ImportPlan)
    requires IsOutcome(plan0, before, last) && |ordered| != 0 && DistinctIds(before + [ordered])
    ensures IsOutcome(plan, before + [ordered], last) && plan.invalid == plan0.invalid && plan.skipped == plan0.skipped
  {
    var winner, merged := MergeMissing(ordered[0], ordered[1..]);
    var losers := AddLosers(plan0.losers, ordered, winner.legacyId);
    plan := plan0.(winners := plan0.winners + [winner], losers := losers,
                   losersOf := plan0.losersOf[winner.legacyId := Map(ordered[1..], IdOf())],
                   review := if NeedsReview(ordered, last) then plan0.review + [winner] else plan0.review,
                   merged := plan0.merged + Map(merged, Named(winner.legacyId)));
    WinnersStep(plan0.winners, before, ordered);
    LosersStep(plan0.losers, before, ordered, losers);
    LosersOfStep(plan0.losersOf, before, ordered);
    FlatSnoc(before, ordered, ReviewOf(last));
    FlatSnoc(before, ordered, OriginRows());
  }

  lemma DistinctPrefix(groups: seq<seq<Voter>>, n: nat)
    requires DistinctIds(groups) && n <= |groups|
    ensures DistinctIds(groups[..n])
  {
    forall k, m, k', m', id | At(groups[..n], k, m, id) && At(groups[..n], k', m', id) ensures k == k' && m == m' {
      assert At(groups, k, m, id) && At(groups, k', m', id);
    }
  }

  lemma ContactSplit(voters: seq<Voter>, rules: Rules, c: Contact)
    ensures Filter(Filter(voters, IsMail(rules)) + Filter(voters, IsMailless(rules)), InGroup(ContactOf(), c)) ==
            Filter(voters, InContact(rules, c))
  {
    FilterConcat(Filter(voters, IsMail(rules)), Filter(voters, IsMailless(rules)), InGroup(ContactOf(), c));
    ContactWithin(voters, rules, c, IsMail(rules), c.Mail?);
    ContactWithin(voters, rules, c, IsMailless(rules), c.Phone?);
  }

  lemma {:induction false} ContactWithin(voters: seq<Voter>, rules: Rules, c: Contact, half: Voter -> bool, mine: bool)
    requires forall v :: half(v) && ContactOf()(v) == c ==> mine && IsKept(rules)(v)
    requires mine ==> forall v :: IsKept(rules)(v) && ContactOf()(v) == c ==> half(v)
    ensures Filter(Filter(voters, half), InGroup(ContactOf(), c)) ==
            if mine then Filter(voters, InContact(rules, c)) else []
  {
    if |voters| != 0 {
      var front, v := voters[..|voters|-1], voters[|voters|-1];
      ContactWithin(front, rules, c, half, mine);
      if half(v) {
        FilterSnoc(Filter(front, half), v, InGroup(ContactOf(), c));
      }
    }
  }

  datatype Bins = Bins(invalid: seq<Voter>, skipped: seq<Voter>, mail: seq<Voter>, mailless: seq<Voter>)

  function BinsOf(voters: seq<Voter>, rules: Rules): Bins {
    Bins(Filter(voters, IsInvalid(rules)), Filter(voters, IsTest(rules)), Filter(voters, IsMail(rules)),
         Filter(voters, IsMailless(rules)))
  }

  /** The branch a record takes. */
  datatype Branch = ToInvalid | ToSkipped | ToMail | ToMailless

  function BranchOf(v: Voter, rules: Rules): Branch {
    if v.email.Some? && !rules.valid(v.email.value) then ToInvalid
    else if !rules.includeTests && v.email.Some? && v.email.value in rules.tests then ToSkipped
    else if v.email.Some? then ToMail
    else ToMailless
  }

  function Put(bins: Bins, v: Voter, branch: Branch): Bins {
    match branch
    case ToInvalid => bins.(invalid := bins.invalid + [v])
    case ToSkipped => bins.(skipped := bins.skipped + [v])
    case ToMail => bins.(mail := bins.mail + [v])
    case ToMailless => bins.(mailless := bins.mailless + [v])
  }

  lemma SortStep(voters: seq<Voter>, v: Voter, rules: Rules)
    ensures BinsOf(voters + [v], rules) == Put(BinsOf(voters, rules), v, BranchOf(v, rules))
  {
    SortOut(voters, v, rules);
    assert IsInvalid(rules)(v) <==> BranchOf(v, rules) == ToInvalid;
    assert IsTest(rules)(v) <==> BranchOf(v, rules) == ToSkipped;
    assert IsKept(rules)(v) <==> BranchOf(v, rules) == ToMail || BranchOf(v, rules) == ToMailless;
  }

  /** The first loop of `plan_import`. */
  method SortVoters(voters: seq<Voter>, rules: Rules) returns (bins: Bins)
    ensures bins == BinsOf(voters, rules)
  {
    bins := Bins([], [], [], []);
    for n := 0 to |voters|
      invariant bins == BinsOf(voters[..n], rules)
    {
      SortStep(voters[..n], voters[n], rules);
      assert voters[..n+1] == voters[..n] + [voters[n]];
      bins := Put(bins, voters[n], BranchOf(voters[n], rules));
    }
    assert voters[..|voters|] == voters;
  }

  function SortGroup(groups: map<Contact, seq<Voter>>, last: Activity): Contact -> seq<Voter> {
    (c: Contact) => SortBy(Members(groups, c), VoterKey(last))
  }

  /** `plan_import`. */
  method PlanImport(voters: seq<Voter>, last: Activity, rules: Rules)
      returns (plan: ImportPlan, ghost contacts: seq<Contact>)
    requires Distinct(Map(voters, IdOf()))
    ensures IsPlan(plan, contacts, voters, last, rules)
    ensures contacts == FirstSeen(Filter(voters, IsMail(rules)) + Filter(voters, IsMailless(rules)), ContactOf())
  {
    var bins := SortVoters(voters, rules);
    var order, groups := GroupInOrder(bins.mail + bins.mailless, ContactOf());
    ContactsListed(voters, rules, order, groups);
    contacts := order;
    var sorted := Map(order, SortGroup(groups, last));
    SortedGroups(voters, last, rules, order, groups, sorted);
    GroupsDistinct(voters, last, rules, order);
    plan := Decide(sorted, last, bins.invalid, bins.skipped);
  }

  lemma SortedGroups(voters: seq<Voter>, last: Activity, rules: Rules, order: seq<Contact>,
                     groups: map<Contact, seq<Voter>>, sorted: seq<seq<Voter>>)
    requires forall c :: Members(groups, c) == Filter(voters, InContact(rules, c))
    requires sorted == Map(order, SortGroup(groups, last))
    ensures sorted == Groups(voters, last, rules, order)
  {
  }

  lemma {:induction false} SortOut(voters: seq<Voter>, v: Voter, rules: Rules)
    ensures Filter(voters + [v], IsInvalid(rules)) ==
            Filter(voters, IsInvalid(rules)) + if IsInvalid(rules)(v) then [v] else []
    ensures Filter(voters + [v], IsTest(rules)) == Filter(voters, IsTest(rules)) + if IsTest(rules)(v) then [v] else []
    ensures Filter(voters + [v], IsMail(rules)) == Filter(voters, IsMail(rules)) + if IsMail(rules)(v) then [v] else []
    ensures Filter(voters + [v], IsMailless(rules)) ==
            Filter(voters, IsMailless(rules)) + if IsMailless(rules)(v) then [v] else []
  {
    FilterSnoc(voters, v, IsInvalid(rules));
    FilterSnoc(voters, v, IsTest(rules));
    FilterSnoc(voters, v, IsMail(rules));
    FilterSnoc(voters, v, IsMailless(rules));
  }

  lemma ContactsListed(voters: seq<Voter>, rules: Rules, order: seq<Contact>, groups: map<Contact, seq<Voter>>)
    requires Grouped(order, groups, Filter(voters, IsMail(rules)) + Filter(voters, IsMailless(rules)), ContactOf())
    ensures AreContacts(order, voters, rules)
    ensures forall c :: Members(groups, c) == Filter(voters, InContact(rules, c))
  {
    var kept := Filter(voters, IsMail(rules)) + Filter(voters, IsMailless(rules));
    forall c
      ensures Members(groups, c) == Filter(voters, InContact(rules, c)) && (c in order <==> |Members(groups, c)| != 0)
    {
      ContactSplit(voters, rules, c);
      assert Members(groups, c) == Filter(kept, InGroup(ContactOf(), c));
      if c in order {
        var i :| 0 <= i < |kept| && ContactOf()(kept[i]) == c;
        assert InGroup(ContactOf(), c)(kept[i]) && kept[i] in kept;
      }
    }
  }
}
