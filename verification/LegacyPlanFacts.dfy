/** What a legacy import plan guarantees: every record has one fate, the survivor of a contact is the most
    recently active record, and the order of the dump does not matter. */
module LegacyPlanFacts {
  import opened Prelude
  import opened LegacyPlan

  ghost predicate IsWinner(plan: ImportPlan, id: string) {
    exists k :: 0 <= k < |plan.winners| && plan.winners[k].legacyId == id
  }

  /** The place of a kept record. */
  lemma PlaceOf(plan: ImportPlan, contacts: seq<Contact>, voters: seq<Voter>, last: Activity, rules: Rules, v: Voter)
      returns (k: nat, m: nat)
    requires Distinct(Map(voters, IdOf())) && IsPlan(plan, contacts, voters, last, rules)
    requires v in voters && IsKept(rules)(v)
    ensures var groups := Groups(voters, last, rules, contacts);
            At(groups, k, m, v.legacyId) && contacts[k] == ContactOf()(v) && groups[k][m] == v
  {
    var c := ContactOf()(v);
    assert InContact(rules, c)(v) && v in Filter(voters, InContact(rules, c));
    k :| 0 <= k < |contacts| && contacts[k] == c;
    OrderedDistinct(voters, last, rules, c);
    m :| 0 <= m < |Ordered(voters, last, rules, c)| && Ordered(voters, last, rules, c)[m] == v;
  }

  lemma WonOrLost(plan: ImportPlan, groups: seq<seq<Voter>>, last: Activity, k: nat, m: nat, id: string)
    requires IsOutcome(plan, groups, last) && DistinctIds(groups) && At(groups, k, m, id)
    ensures IsWinner(plan, id) <==> m == 0
    ensures id in plan.losers <==> m != 0
  {
    WonIfFirst(plan, groups, k, m, id);
    LostIfLater(plan, groups, k, m, id);
  }

  lemma WonIfFirst(plan: ImportPlan, groups: seq<seq<Voter>>, k: nat, m: nat, id: string)
    requires WinnersOk(plan.winners, groups) && DistinctIds(groups) && At(groups, k, m, id)
    ensures IsWinner(plan, id) <==> m == 0
  {
    if m == 0 {
      assert plan.winners[k].legacyId == id;
    }
    if j :| 0 <= j < |plan.winners| && plan.winners[j].legacyId == id {
      assert At(groups, j, 0, id);
    }
  }

  lemma LostIfLater(plan: ImportPlan, groups: seq<seq<Voter>>, k: nat, m: nat, id: string)
    requires LosersOk(plan.losers, groups) && DistinctIds(groups) && At(groups, k, m, id)
    ensures id in plan.losers <==> m != 0
  {
    if m != 0 {
      assert Loses(groups, k, m, id);
    }
    if id in plan.losers {
      var k', m' :| Loses(groups, k', m', id);
      assert At(groups, k', m', id);
    }
  }

  /** Every record is exactly one of: invalid, skipped, a survivor, a duplicate that points to one. */
  lemma Partition(plan: ImportPlan, contacts: seq<Contact>, voters: seq<Voter>, last: Activity, rules: Rules, v: Voter)
    requires Distinct(Map(voters, IdOf())) && IsPlan(plan, contacts, voters, last, rules) && v in voters
    ensures v in plan.invalid <==> IsInvalid(rules)(v)
    ensures v in plan.skipped <==> IsTest(rules)(v)
    ensures !(v in plan.invalid && v in plan.skipped)
    ensures v in plan.invalid || v in plan.skipped ==> !IsWinner(plan, v.legacyId) && v.legacyId !in plan.losers
    ensures v !in plan.invalid && v !in plan.skipped ==> (IsWinner(plan, v.legacyId) <==> v.legacyId !in plan.losers)
    ensures v.legacyId in plan.losers ==> IsWinner(plan, plan.losers[v.legacyId])
  {
    var groups := Groups(voters, last, rules, contacts);
    GroupsDistinct(voters, last, rules, contacts);
    if IsKept(rules)(v) {
      var k, m := PlaceOf(plan, contacts, voters, last, rules, v);
      WonOrLost(plan, groups, last, k, m, v.legacyId);
      if m != 0 {
        assert Loses(groups, k, m, v.legacyId) && At(groups, k, 0, groups[k][0].legacyId);
        WonOrLost(plan, groups, last, k, 0, groups[k][0].legacyId);
      }
    } else {
      if IsWinner(plan, v.legacyId) || v.legacyId in plan.losers {
        var k, m := FateIsPlace(plan, groups, last, v.legacyId);
        NotKeptNotPlaced(voters, last, rules, contacts, v, k, m);
      }
    }
  }

  lemma NotKeptNotPlaced(voters: seq<Voter>, last: Activity, rules: Rules, contacts: seq<Contact>, v: Voter, k: int,
                         m: int)
    requires Distinct(Map(voters, IdOf())) && v in voters && !IsKept(rules)(v)
    ensures !At(Groups(voters, last, rules, contacts), k, m, v.legacyId)
  {
    var groups := Groups(voters, last, rules, contacts);
    if At(groups, k, m, v.legacyId) {
      OrderedDistinct(voters, last, rules, contacts[k]);
      assert groups[k][m] in groups[k];
      SameVoter(voters, v, groups[k][m]);
    }
  }

  lemma FateIsPlace(plan: ImportPlan, groups: seq<seq<Voter>>, last: Activity, id: string) returns (k: int, m: int)
    requires IsOutcome(plan, groups, last) && (IsWinner(plan, id) || id in plan.losers)
    ensures At(groups, k, m, id)
  {
    if id in plan.losers {
      k, m :| Loses(groups, k, m, id);
    } else {
      k :| 0 <= k < |plan.winners| && plan.winners[k].legacyId == id;
      m := 0;
    }
  }

  /** The survivor precedes every kept record of its contact: later activity, then older registration, then
      smaller id; and it keeps its own identity. */
  lemma WinnerIsLeast(plan: ImportPlan, contacts: seq<Contact>, voters: seq<Voter>, last: Activity, rules: Rules,
                      k: nat)
    requires Distinct(Map(voters, IdOf())) && IsPlan(plan, contacts, voters, last, rules) && k < |contacts|
    ensures exists w :: IsBest(w, voters, last, rules, contacts[k]) && w.legacyId == plan.winners[k].legacyId
              && plan.winners[k] == Merged(w, Ordered(voters, last, rules, contacts[k])[1..])
  {
    assert contacts[k] in contacts;
    FirstIsBest(voters, last, rules, contacts[k]);
    assert Groups(voters, last, rules, contacts)[k] == Ordered(voters, last, rules, contacts[k]);
  }

  lemma FirstIsBest(voters: seq<Voter>, last: Activity, rules: Rules, c: Contact)
    requires Distinct(Map(voters, IdOf())) && |Filter(voters, InContact(rules, c))| != 0
    ensures var group := Ordered(voters, last, rules, c);
            |group| != 0 && IsBest(group[0], voters, last, rules, c)
  {
    var group := Ordered(voters, last, rules, c);
    OrderedDistinct(voters, last, rules, c);
    SortBySorted(Filter(voters, InContact(rules, c)), VoterKey(last));
    var w := group[0];
    forall v | v in voters && InContact(rules, c)(v) ensures Precedes(last, w, v) {
      var m :| 0 <= m < |group| && group[m] == v;
      LexTotal(VoterKey(last)(w), VoterKey(last)(v));
      KeyIsPrecedence(last, w, v);
    }
  }

  ghost predicate IsBest(w: Voter, voters: seq<Voter>, last: Activity, rules: Rules, c: Contact) {
    w in voters && InContact(rules, c)(w) && forall v :: v in voters && InContact(rules, c)(v) ==> Precedes(last, w, v)
  }

  // ---------- the order of the dump ----------

  lemma FilterPermuted(s: seq<Voter>, t: seq<Voter>, p: Voter -> bool)
    requires multiset(s) == multiset(t)
    ensures multiset(Filter(s, p)) == multiset(Filter(t, p))
  {
    var a, b := multiset(Filter(s, p)), multiset(Filter(t, p));
    forall x ensures a[x] == b[x] {
      FilterMultiplicity(s, p, x);
      FilterMultiplicity(t, p, x);
    }
    assert a == b;
  }

  lemma {:induction false} FilterMultiplicity<T>(s: seq<T>, p: T -> bool, x: T)
    ensures multiset(Filter(s, p))[x] == if p(x) then multiset(s)[x] else 0
  {
    if |s| != 0 {
      assert s == s[..|s|-1] + [s[|s|-1]];
      FilterMultiplicity(s[..|s|-1], p, x);
    }
  }

  lemma OrderedPermuted(voters: seq<Voter>, voters': seq<Voter>, last: Activity, rules: Rules, c: Contact)
    requires Distinct(Map(voters, IdOf())) && multiset(voters) == multiset(voters')
    ensures Ordered(voters, last, rules, c) == Ordered(voters', last, rules, c)
  {
    var s, t := Filter(voters, InContact(rules, c)), Filter(voters', InContact(rules, c));
    FilterPermuted(voters, voters', InContact(rules, c));
    SortBySorted(s, VoterKey(last));
    SortBySorted(t, VoterKey(last));
    forall v, w | v in SortBy(s, VoterKey(last)) && w in SortBy(s, VoterKey(last)) &&
          VoterKey(last)(v) == VoterKey(last)(w)
      ensures v == w
    {
      KeyIsUnique(last, v, w);
      SameVoter(voters, v, w);
    }
    SortedUnique(SortBy(s, VoterKey(last)), SortBy(t, VoterKey(last)), VoterKey(last));
  }

  lemma {:induction false} DistinctCount<T>(s: seq<T>, x: T)
    requires Distinct(s)
    ensures multiset(s)[x] == if x in s then 1 else 0
  {
    OccursOnce(s, x);
    assert x in s <==> x in multiset(s);
  }

  lemma SameContacts(contacts: seq<Contact>, contacts': seq<Contact>, voters: seq<Voter>, voters': seq<Voter>,
                     rules: Rules)
    requires AreContacts(contacts, voters, rules) && AreContacts(contacts', voters', rules) &&
             multiset(voters) == multiset(voters')
    ensures multiset(contacts) == multiset(contacts')
  {
    forall c ensures multiset(contacts)[c] == multiset(contacts')[c] {
      FilterPermuted(voters, voters', InContact(rules, c));
      assert |Filter(voters, InContact(rules, c))| == |multiset(Filter(voters, InContact(rules, c)))|;
      assert |Filter(voters', InContact(rules, c))| == |multiset(Filter(voters', InContact(rules, c)))|;
      DistinctCount(contacts, c);
      DistinctCount(contacts', c);
    }
  }

  /** Every group of the one list is a group of the other. */
  ghost predicate Covers(groups: seq<seq<Voter>>, groups': seq<seq<Voter>>) {
    forall k :: 0 <= k < |groups| ==> exists k' :: 0 <= k' < |groups'| && groups'[k'] == groups[k]
  }

  lemma GroupsCovered(contacts: seq<Contact>, contacts': seq<Contact>, voters: seq<Voter>, voters': seq<Voter>,
                      last: Activity, rules: Rules)
    requires Distinct(Map(voters, IdOf())) && multiset(voters) == multiset(voters')
    requires AreContacts(contacts, voters, rules) && AreContacts(contacts', voters', rules)
    ensures Covers(Groups(voters, last, rules, contacts), Groups(voters', last, rules, contacts'))
  {
    SameContacts(contacts, contacts', voters, voters', rules);
    var groups, groups' := Groups(voters, last, rules, contacts), Groups(voters', last, rules, contacts');
    forall k | 0 <= k < |groups| ensures exists k' :: 0 <= k' < |groups'| && groups'[k'] == groups[k] {
      OrderedPermuted(voters, voters', last, rules, contacts[k]);
      assert contacts[k] in multiset(contacts');
      var k' := IndexIn(contacts', contacts[k]);
      assert groups'[k'] == groups[k];
    }
  }

  function OrderedOf(voters: seq<Voter>, last: Activity, rules: Rules): Contact -> seq<Voter> {
    (c: Contact) => Ordered(voters, last, rules, c)
  }

  lemma GroupsPermuted(contacts: seq<Contact>, contacts': seq<Contact>, voters: seq<Voter>, voters': seq<Voter>,
                       last: Activity, rules: Rules)
    requires Distinct(Map(voters, IdOf())) && multiset(voters) == multiset(voters') &&
             multiset(contacts) == multiset(contacts')
    ensures multiset(Groups(voters, last, rules, contacts)) == multiset(Groups(voters', last, rules, contacts'))
  {
    MapPermuted(contacts, contacts', OrderedOf(voters, last, rules));
    assert Groups(voters, last, rules, contacts) == Map(contacts, OrderedOf(voters, last, rules));
    forall k | 0 <= k < |contacts'|
      ensures Groups(voters', last, rules, contacts')[k] == Map(contacts', OrderedOf(voters, last, rules))[k]
    {
      OrderedPermuted(voters, voters', last, rules, contacts'[k]);
    }
    assert Groups(voters', last, rules, contacts') == Map(contacts', OrderedOf(voters, last, rules));
  }

  ghost predicate Within<V>(a: map<string, V>, b: map<string, V>) { forall id :: id in a ==> id in b && a[id] == b[id] }

  lemma WithinBoth<V>(a: map<string, V>, b: map<string, V>)
    requires Within(a, b) && Within(b, a)
    ensures a == b
  {
  }

  lemma CarryLosers(losers: map<string, string>, groups: seq<seq<Voter>>, losers': map<string, string>,
                    groups': seq<seq<Voter>>)
    requires LosersOk(losers, groups) && LosersOk(losers', groups') && Covers(groups, groups')
    ensures Within(losers, losers')
  {
    forall id | id in losers ensures id in losers' && losers[id] == losers'[id] {
      var k, m :| Loses(groups, k, m, id);
      var k' :| 0 <= k' < |groups'| && groups'[k'] == groups[k];
      assert Loses(groups', k', m, id);
    }
  }

  lemma {:induction false} CarryLosersOf(losersOf: map<string, seq<string>>, groups: seq<seq<Voter>>,
                                         losersOf': map<string, seq<string>>, groups': seq<seq<Voter>>)
    requires LosersOfOk(losersOf, groups) && LosersOfOk(losersOf', groups') && Covers(groups, groups')
    ensures Within(losersOf, losersOf')
  {
    forall id | id in losersOf ensures id in losersOf' && losersOf[id] == losersOf'[id] {
      var k :| Wins(groups, k, id);
      var k' :| 0 <= k' < |groups'| && groups'[k'] == groups[k];
      assert Wins(groups', k', id);
    }
  }

  lemma {:induction false} CarryWinner(winners: seq<Voter>, groups: seq<seq<Voter>>, winners': seq<Voter>,
                                       groups': seq<seq<Voter>>, w: Voter)
    requires WinnersOk(winners, groups) && WinnersOk(winners', groups') && Covers(groups, groups')
    ensures w in winners ==> w in winners'
  {
    if w in winners {
      var k :| 0 <= k < |winners| && winners[k] == w;
      var k' :| 0 <= k' < |groups'| && groups'[k'] == groups[k];
      assert winners'[k'] == w;
    }
  }

  lemma SameWinners(winners: seq<Voter>, groups: seq<seq<Voter>>, winners': seq<Voter>, groups': seq<seq<Voter>>)
    requires WinnersOk(winners, groups) && WinnersOk(winners', groups') && Covers(groups, groups') &&
             Covers(groups', groups)
    ensures forall w :: w in winners <==> w in winners'
  {
    forall w ensures w in winners <==> w in winners' {
      CarryWinner(winners, groups, winners', groups', w);
      CarryWinner(winners', groups', winners, groups, w);
    }
  }

  /** The plan does not depend on the order of the dump: the same survivors with the same merged fields, the
      same duplicates pointing to the same survivors, in the same order under each, the same origins of merged
      fields and the same survivors to review. */
  lemma OrderIndependent(plan: ImportPlan, contacts: seq<Contact>, plan': ImportPlan, contacts': seq<Contact>,
                         voters: seq<Voter>, voters': seq<Voter>, last: Activity, rules: Rules)
    requires Distinct(Map(voters, IdOf())) && Distinct(Map(voters', IdOf())) && multiset(voters) == multiset(voters')
    requires IsPlan(plan, contacts, voters, last, rules) && IsPlan(plan', contacts', voters', last, rules)
    ensures |plan.winners| == |plan'.winners| && forall w :: w in plan.winners <==> w in plan'.winners
    ensures plan.losers == plan'.losers && plan.losersOf == plan'.losersOf
    ensures multiset(plan.invalid) == multiset(plan'.invalid) && multiset(plan.skipped) == multiset(plan'.skipped)
    ensures multiset(plan.review) == multiset(plan'.review) && multiset(plan.merged) == multiset(plan'.merged)
  {
    SameContacts(contacts, contacts', voters, voters', rules);
    assert |contacts| == |multiset(contacts)| == |multiset(contacts')| == |contacts'|;
    GroupsCovered(contacts, contacts', voters, voters', last, rules);
    GroupsCovered(contacts', contacts, voters', voters, last, rules);
    var groups, groups' := Groups(voters, last, rules, contacts), Groups(voters', last, rules, contacts');
    GroupsPermuted(contacts, contacts', voters, voters', last, rules);
    FlatPermuted(groups, groups', ReviewOf(last));
    FlatPermuted(groups, groups', OriginRows());
    SameWinners(plan.winners, groups, plan'.winners, groups');
    CarryLosers(plan.losers, groups, plan'.losers, groups');
    CarryLosers(plan'.losers, groups', plan.losers, groups);
    WithinBoth(plan.losers, plan'.losers);
    CarryLosersOf(plan.losersOf, groups, plan'.losersOf, groups');
    CarryLosersOf(plan'.losersOf, groups', plan.losersOf, groups);
    WithinBoth(plan.losersOf, plan'.losersOf);
    FilterPermuted(voters, voters', IsInvalid(rules));
    FilterPermuted(voters, voters', IsTest(rules));
  }

  // ---------- in plain terms ----------

  /** The first instant Python can represent, in microseconds before 1970: 719162 days. */
  lemma NoActivityIsEarliest(last: Activity, a: string, b: string)
    requires a !in last && b in last && last[b] >= -719_162 * 86_400 * 1_000_000
    ensures ActiveAt(last, a) == -719_162 * 86_400 * 1_000_000 <= ActiveAt(last, b) == last[b]
  {
  }

  /** Python's order of strings. */
  predicate StringLe(s: string, t: string) {
    s == "" || (t != "" && (s[0] < t[0] || (s[0] == t[0] && StringLe(s[1..], t[1..]))))
  }

  lemma {:induction false} CodesAreStrings(s: string, t: string)
    ensures LexLe(Codes(s), Codes(t)) <==> StringLe(s, t)
  {
    if s != "" && t != "" {
      assert Codes(s)[1..] == Codes(s[1..]) && Codes(t)[1..] == Codes(t[1..]);
      CodesAreStrings(s[1..], t[1..]);
    }
  }

  /** The order of the records of a contact: the later last activity first, then the earlier registration, then the
      smaller id. */
  lemma PrecedesMeans(last: Activity, a: Voter, b: Voter)
    ensures Precedes(last, a, b) <==>
            var x, y := ActiveAt(last, a.legacyId), ActiveAt(last, b.legacyId);
            || x > y || (x == y && a.createdAt < b.createdAt)
            || (x == y && a.createdAt == b.createdAt && StringLe(a.legacyId, b.legacyId))
  {
    CodesAreStrings(a.legacyId, b.legacyId);
  }

  /** Two records are of one contact if they have the same address, or no address and the same phone, if any. */
  lemma ContactMeans(a: Voter, b: Voter)
    requires a.phone != Some("") && b.phone != Some("")
    ensures ContactOf()(a) == ContactOf()(b) <==> a.email == b.email && (a.email.None? ==> a.phone == b.phone)
  {
  }

  /** A record is set aside as invalid, or as a test account, by its address only. */
  lemma FateMeans(v: Voter, rules: Rules)
    ensures v.email.None? ==> IsKept(rules)(v)
    ensures v.email.Some? ==>
            && (IsInvalid(rules)(v) <==> !rules.valid(v.email.value))
            && (IsTest(rules)(v) <==> rules.valid(v.email.value) && !rules.includeTests && v.email.value in rules.tests)
            && (IsKept(rules)(v) <==>
                  rules.valid(v.email.value) && (rules.includeTests || v.email.value !in rules.tests))
  {
    assert IsKept(rules)(v) <==> !IsInvalid(rules)(v) && !IsTest(rules)(v);
  }

  /** Records of one contact with different passwords, none of which was ever active. */
  ghost predicate Doubtful(group: seq<Voter>, last: Activity) {
    && (exists i, j :: 0 <= i < j < |group| && group[i].passwordHash != group[j].passwordHash)
    && (forall i :: 0 <= i < |group| ==> group[i].legacyId !in last)
  }

  lemma ReviewIfDoubtful(group: seq<Voter>, last: Activity)
    ensures NeedsReview(group, last) <==> Doubtful(group, last)
  {
    if i, j :| 0 <= i < j < |group| && group[i].passwordHash != group[j].passwordHash {
      assert group[i].passwordHash != group[0].passwordHash || group[j].passwordHash != group[0].passwordHash;
    }
  }

  /** The survivors to review are those of the doubtful contacts. */
  lemma ReviewMeans(plan: ImportPlan, groups: seq<seq<Voter>>, last: Activity, w: Voter)
    requires IsOutcome(plan, groups, last)
    ensures w in plan.review <==> exists k :: 0 <= k < |groups| && Doubtful(groups[k], last) && plan.winners[k] == w
  {
    FlatIn(groups, ReviewOf(last), w);
    forall k | 0 <= k < |groups|
      ensures w in ReviewOf(last)(groups[k]) <==> Doubtful(groups[k], last) && plan.winners[k] == w
    {
      ReviewIfDoubtful(groups[k], last);
    }
  }

  // ---------- the order of the survivors ----------

  /** The first record of contact `c` among the kept ones is at `p`. */
  ghost predicate FirstAt(voters: seq<Voter>, rules: Rules, c: Contact, p: int) {
    && 0 <= p < |voters| && InContact(rules, c)(voters[p])
    && forall q :: 0 <= q < p ==> !InContact(rules, c)(voters[q])
  }

  /** Contacts with an address come first, and within each kind they come as their first records do. */
  ghost predicate InOrder(voters: seq<Voter>, rules: Rules, a: Contact, b: Contact) {
    || (a.Mail? && b.Phone?)
    || ((a.Mail? <==> b.Mail?) && FirstBefore(voters, rules, a, b))
  }

  lemma {:induction false} FirstSeenIn<T>(s: seq<T>, groupOf: T -> Contact, c: Contact)
    ensures c in FirstSeen(s, groupOf) <==> exists i :: 0 <= i < |s| && groupOf(s[i]) == c
  {
    if |s| != 0 {
      FirstSeenIn(s[..|s|-1], groupOf, c);
    }
  }

  lemma {:induction false} FirstSeenConcat(s: seq<Voter>, t: seq<Voter>, groupOf: Voter -> Contact)
    requires forall x, y :: x in s && y in t ==> groupOf(x) != groupOf(y)
    ensures FirstSeen(s + t, groupOf) == FirstSeen(s, groupOf) + FirstSeen(t, groupOf)
  {
    if |t| == 0 {
      assert s + t == s;
    } else {
      var front, x := t[..|t|-1], t[|t|-1];
      assert (s + t)[..|s|+|t|-1] == s + front;
      FirstSeenConcat(s, front, groupOf);
      FirstSeenIn(s, groupOf, groupOf(x));
      assert x in t;
    }
  }

  /** The contacts of one kind, each with its first record. */
  ghost predicate KindListed(order: seq<Contact>, voters: seq<Voter>, rules: Rules, mail: bool) {
    && (forall i :: 0 <= i < |order| ==> order[i].Mail? == mail && Occurs(voters, rules, order[i]))
    && (forall i, j :: 0 <= i < j < |order| ==> FirstBefore(voters, rules, order[i], order[j]))
  }

  ghost predicate Occurs(voters: seq<Voter>, rules: Rules, c: Contact) { exists p :: FirstAt(voters, rules, c, p) }

  ghost predicate FirstBefore(voters: seq<Voter>, rules: Rules, a: Contact, b: Contact) {
    exists p, q :: FirstAt(voters, rules, a, p) && FirstAt(voters, rules, b, q) && p < q
  }

  lemma FirstStays(front: seq<Voter>, v: Voter, rules: Rules, c: Contact, p: int)
    requires FirstAt(front, rules, c, p)
    ensures FirstAt(front + [v], rules, c, p)
  {
    var all := front + [v];
    assert forall q :: 0 <= q < |front| ==> all[q] == front[q];
  }

  lemma ListedStays(order: seq<Contact>, front: seq<Voter>, v: Voter, rules: Rules, mail: bool)
    requires KindListed(order, front, rules, mail)
    ensures KindListed(order, front + [v], rules, mail)
  {
    forall i | 0 <= i < |order| ensures Occurs(front + [v], rules, order[i]) {
      assert Occurs(front, rules, order[i]);
      var p :| FirstAt(front, rules, order[i], p);
      FirstStays(front, v, rules, order[i], p);
    }
    forall i, j | 0 <= i < j < |order| ensures FirstBefore(front + [v], rules, order[i], order[j]) {
      assert FirstBefore(front, rules, order[i], order[j]);
      var p, q :| FirstAt(front, rules, order[i], p) && FirstAt(front, rules, order[j], q) && p < q;
      FirstStays(front, v, rules, order[i], p);
      FirstStays(front, v, rules, order[j], q);
    }
  }

  /** A record of a contact not seen before is its first. */
  lemma ListedGrows(order: seq<Contact>, front: seq<Voter>, v: Voter, rules: Rules, mail: bool)
    requires KindListed(order, front, rules, mail) && IsKept(rules)(v) && ContactOf()(v).Mail? == mail
    requires forall q :: 0 <= q < |front| ==> !InContact(rules, ContactOf()(v))(front[q])
    ensures KindListed(order + [ContactOf()(v)], front + [v], rules, mail)
  {
    var c, all, next := ContactOf()(v), front + [v], order + [ContactOf()(v)];
    assert all[|front|] == v && forall q :: 0 <= q < |front| ==> all[q] == front[q];
    assert FirstAt(all, rules, c, |front|);
    ListedStays(order, front, v, rules, mail);
    assert next[|order|] == c && forall i :: 0 <= i < |order| ==> next[i] == order[i];
    forall i | 0 <= i < |order| ensures FirstBefore(all, rules, order[i], c) {
      assert Occurs(front, rules, order[i]);
      var p :| FirstAt(front, rules, order[i], p);
      FirstStays(front, v, rules, order[i], p);
    }
  }

  lemma NewContact(front: seq<Voter>, rules: Rules, half: Voter -> bool, v: Voter, q: nat)
    requires q < |front| && half(front[q]) && InContact(rules, ContactOf()(v))(front[q])
    ensures ContactOf()(v) in FirstSeen(Filter(front, half), ContactOf())
  {
    FirstSeenIn(Filter(front, half), ContactOf(), ContactOf()(v));
    assert front[q] in Filter(front, half);
    var i :| 0 <= i < |Filter(front, half)| && Filter(front, half)[i] == front[q];
  }

  /** The contacts of the kept records of one kind are listed as they first appear. */
  lemma {:induction false} KindInOrder(voters: seq<Voter>, rules: Rules, half: Voter -> bool, mail: bool)
    requires forall v :: half(v) <==> IsKept(rules)(v) && ContactOf()(v).Mail? == mail
    ensures KindListed(FirstSeen(Filter(voters, half), ContactOf()), voters, rules, mail)
  {
    if |voters| != 0 {
      var n := |voters| - 1;
      var front, v := voters[..n], voters[n];
      var before := FirstSeen(Filter(front, half), ContactOf());
      assert voters == front + [v];
      KindInOrder(front, rules, half, mail);
      ListedStays(before, front, v, rules, mail);
      FilterSnoc(front, v, half);
      if half(v) {
        assert (Filter(front, half) + [v])[..|Filter(front, half)|] == Filter(front, half);
        if ContactOf()(v) !in before {
          forall q | 0 <= q < n && InContact(rules, ContactOf()(v))(front[q]) ensures ContactOf()(v) in before {
            NewContact(front, rules, half, v, q);
          }
          ListedGrows(before, front, v, rules, mail);
        }
      }
    }
  }

  /** The survivors are listed with their contacts: those with an address first, each kind in the order of the
      dump. */
  lemma ContactsInOrder(voters: seq<Voter>, rules: Rules, contacts: seq<Contact>, i: nat, j: nat)
    requires contacts == FirstSeen(Filter(voters, IsMail(rules)) + Filter(voters, IsMailless(rules)), ContactOf())
    requires i < j < |contacts|
    ensures InOrder(voters, rules, contacts[i], contacts[j])
  {
    var mails, phones := Filter(voters, IsMail(rules)), Filter(voters, IsMailless(rules));
    KindsApart(voters, rules);
    FirstSeenConcat(mails, phones, ContactOf());
    KindInOrder(voters, rules, IsMail(rules), true);
    KindInOrder(voters, rules, IsMailless(rules), false);
    JoinedInOrder(FirstSeen(mails, ContactOf()), FirstSeen(phones, ContactOf()), voters, rules, i, j);
  }

  lemma KindsApart(voters: seq<Voter>, rules: Rules)
    ensures forall x, y :: x in Filter(voters, IsMail(rules)) && y in Filter(voters, IsMailless(rules)) ==>
              ContactOf()(x) != ContactOf()(y)
  {
  }

  lemma JoinedInOrder(a: seq<Contact>, b: seq<Contact>, voters: seq<Voter>, rules: Rules, i: nat, j: nat)
    requires KindListed(a, voters, rules, true) && KindListed(b, voters, rules, false) && i < j < |a + b|
    ensures InOrder(voters, rules, (a + b)[i], (a + b)[j])
  {
    if j < |a| {
      assert FirstBefore(voters, rules, a[i], a[j]);
    } else if i >= |a| {
      assert FirstBefore(voters, rules, b[i - |a|], b[j - |a|]);
    } else {
      assert a[i].Mail? && !b[j - |a|].Mail?;
    }
  }

  // ---------- origins ----------

  /** A missing field that the other record has, with that record's id. */
  function Taken(f: Field, mine: Option<string>, his: Option<string>, id: string): seq<(Field, string)> {
    if mine.None? && his.Some? then [(f, id)] else []
  }

  /** What one record supplies is listed as phone, QQ, wiki, picture. */
  lemma SuppliedInOrder(v: Voter, l: Voter)
    ensures Supplied(v, l, FIELDS) ==
            Taken(PhoneField, v.phone, l.phone, l.legacyId) + Taken(QqField, v.qq, l.qq, l.legacyId)
              + Taken(WikiField, v.wiki, l.wiki, l.legacyId) + Taken(PfpField, v.pfp, l.pfp, l.legacyId)
  {
    var one, two, three := [PhoneField], [PhoneField, QqField], [PhoneField, QqField, WikiField];
    assert one[..0] == [] && two[..1] == one && three[..2] == two && FIELDS[..3] == three;
    assert Supplied(v, l, one) == Supplied(v, l, []) + Taken(PhoneField, v.phone, l.phone, l.legacyId);
    assert Supplied(v, l, two) == Supplied(v, l, one) + Taken(QqField, v.qq, l.qq, l.legacyId);
    assert Supplied(v, l, three) == Supplied(v, l, two) + Taken(WikiField, v.wiki, l.wiki, l.legacyId);
  }
}
