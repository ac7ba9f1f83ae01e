/** Shared vocabulary: options, counting over sequences, and the stable sort that stands
    for Python's `sorted`/`list.sort` with a tuple key. */
module Prelude {

  datatype Option<+T> = None | Some(value: T)

  datatype Result<+T, +E> = Ok(value: T) | Err(error: E)

  function Max(a: int, b: int): int { if a < b then b else a }

  function Min(a: int, b: int): int { if a < b then a else b }

  // ---------- sequences ----------

  ghost predicate Distinct<T>(s: seq<T>) {
    forall i, j :: 0 <= i < j < |s| ==> s[i] != s[j]
  }

  lemma DistinctSnoc<T>(s: seq<T>, x: T)
    requires Distinct(s) && x !in s
    ensures Distinct(s + [x])
  {
  }

  /** The elements of `s` that satisfy `p`, in order. */
  function Filter<T>(s: seq<T>, p: T -> bool): (r: seq<T>)
    ensures forall x :: x in r ==> x in s && p(x)
    ensures forall x :: x in s && p(x) ==> x in r
    ensures |r| <= |s|
  {
    if |s| == 0 then [] else
      var front := Filter(s[..|s|-1], p);
      if p(s[|s|-1]) then front + [s[|s|-1]] else front
  }

  lemma {:induction false} FilterSnoc<T>(s: seq<T>, x: T, p: T -> bool)
    ensures Filter(s + [x], p) == if p(x) then Filter(s, p) + [x] else Filter(s, p)
  {
    assert (s + [x])[..|s|] == s;
  }

  lemma {:induction false} FilterConcat<T>(s: seq<T>, t: seq<T>, p: T -> bool)
    ensures Filter(s + t, p) == Filter(s, p) + Filter(t, p)
  {
    if |t| == 0 {
      assert s + t == s;
    } else {
      var n := |t| - 1;
      assert s + t == (s + t[..n]) + [t[n]];
      FilterSnoc(s + t[..n], t[n], p);
      FilterConcat(s, t[..n], p);
    }
  }

  lemma {:induction false} FilterUniform<T>(s: seq<T>, p: T -> bool, all: bool)
    requires forall x :: x in s ==> p(x) == all
    ensures Filter(s, p) == if all then s else []
  {
    if |s| != 0 {
      FilterUniform(s[..|s|-1], p, all);
      assert s == s[..|s|-1] + [s[|s|-1]];
    }
  }

  lemma {:induction false} FilterTwice<T>(s: seq<T>, p: T -> bool, q: T -> bool, both: T -> bool)
    requires forall x :: x in s ==> both(x) == (p(x) && q(x))
    ensures Filter(Filter(s, p), q) == Filter(s, both)
  {
    if |s| != 0 {
      var front, x := s[..|s|-1], s[|s|-1];
      FilterTwice(front, p, q, both);
      if p(x) {
        FilterSnoc(Filter(front, p), x, q);
      }
    }
  }

  function Map<T, U>(s: seq<T>, f: T -> U): (r: seq<U>)
    ensures |r| == |s| && forall i :: 0 <= i < |s| ==> r[i] == f(s[i])
  {
    seq(|s|, i requires 0 <= i < |s| => f(s[i]))
  }

  /** The lists `f(s[0])`, `f(s[1])`, ... one after the other. */
  function Flat<T, U>(s: seq<T>, f: T -> seq<U>): seq<U> {
    if |s| == 0 then [] else Flat(s[..|s|-1], f) + f(s[|s|-1])
  }

  lemma {:induction false} FlatSnoc<T, U>(s: seq<T>, x: T, f: T -> seq<U>)
    ensures Flat(s + [x], f) == Flat(s, f) + f(x)
  {
    assert (s + [x])[..|s|] == s;
  }

  lemma {:induction false} FlatIn<T, U>(s: seq<T>, f: T -> seq<U>, u: U)
    ensures u in Flat(s, f) <==> exists i :: 0 <= i < |s| && u in f(s[i])
  {
    if |s| != 0 {
      FlatIn(s[..|s|-1], f, u);
    }
  }

  /** How many elements of `s` satisfy `p`. */
  function CountIf<T>(s: seq<T>, p: T -> bool): nat {
    if |s| == 0 then 0 else CountIf(s[..|s|-1], p) + if p(s[|s|-1]) then 1 else 0
  }

  lemma {:induction false} CountIfSnoc<T>(s: seq<T>, x: T, p: T -> bool)
    ensures CountIf(s + [x], p) == CountIf(s, p) + if p(x) then 1 else 0
  {
    assert (s + [x])[..|s|] == s;
  }

  lemma {:induction false} CountIfConcat<T>(s: seq<T>, t: seq<T>, p: T -> bool)
    ensures CountIf(s + t, p) == CountIf(s, p) + CountIf(t, p)
  {
    if |t| == 0 {
      assert s + t == s;
    } else {
      assert s + t == (s + t[..|t|-1]) + [t[|t|-1]];
      CountIfSnoc(s + t[..|t|-1], t[|t|-1], p);
      CountIfConcat(s, t[..|t|-1], p);
    }
  }

  /** `s` without its element at position `i`. */
  function Without<T>(s: seq<T>, i: nat): seq<T>
    requires i < |s|
  {
    s[..i] + s[i+1..]
  }

  lemma MultisetWithout<T>(s: seq<T>, i: nat)
    requires i < |s|
    ensures multiset(Without(s, i)) == multiset(s) - multiset{s[i]}
  {
    assert s == s[..i] + [s[i]] + s[i+1..];
  }

  lemma {:induction false} CountIfWithout<T>(s: seq<T>, i: nat, p: T -> bool)
    requires i < |s|
    ensures CountIf(s, p) == CountIf(Without(s, i), p) + if p(s[i]) then 1 else 0
  {
    var n := |s| - 1;
    if i == n {
      assert Without(s, i) == s[..n];
    } else {
      assert Without(s, i) == Without(s[..n], i) + [s[n]];
      CountIfWithout(s[..n], i, p);
      CountIfSnoc(Without(s[..n], i), s[n], p);
    }
  }

  lemma IndexIn<T>(s: seq<T>, x: T) returns (i: nat)
    requires x in multiset(s)
    ensures i < |s| && s[i] == x
  {
    i :| 0 <= i < |s| && s[i] == x;
  }

  /** Counting does not see the order of the list. */
  lemma {:induction false} CountIfPermuted<T>(s: seq<T>, t: seq<T>, p: T -> bool)
    requires multiset(s) == multiset(t)
    ensures CountIf(s, p) == CountIf(t, p)
  {
    assert |s| == |multiset(s)| == |multiset(t)| == |t|;
    if |s| != 0 {
      var n := |s| - 1;
      assert s[n] in multiset(s);
      var i := IndexIn(t, s[n]);
      MultisetWithout(s, n);
      MultisetWithout(t, i);
      CountIfWithout(t, i, p);
      assert Without(s, n) == s[..n];
      CountIfPermuted(s[..n], Without(t, i), p);
    }
  }

  lemma MapWithout<T, U>(s: seq<T>, i: nat, f: T -> U)
    requires i < |s|
    ensures multiset(Map(s, f)) == multiset(Map(Without(s, i), f)) + multiset{f(s[i])}
  {
    MultisetWithout(Map(s, f), i);
    assert Without(Map(s, f), i) == Map(Without(s, i), f);
    assert Map(s, f)[i] in multiset(Map(s, f));
  }

  lemma {:induction false} MapPermuted<T, U>(s: seq<T>, t: seq<T>, f: T -> U)
    requires multiset(s) == multiset(t)
    ensures multiset(Map(s, f)) == multiset(Map(t, f))
  {
    assert |s| == |multiset(s)| == |multiset(t)| == |t|;
    if |s| != 0 {
      var n := |s| - 1;
      assert s[n] in multiset(s);
      var i := IndexIn(t, s[n]);
      MultisetWithout(s, n);
      MultisetWithout(t, i);
      MapPermuted(Without(s, n), Without(t, i), f);
      MapWithout(s, n, f);
      MapWithout(t, i, f);
    }
  }

  lemma {:induction false} FlatWithout<T, U>(s: seq<T>, i: nat, f: T -> seq<U>)
    requires i < |s|
    ensures multiset(Flat(s, f)) == multiset(Flat(Without(s, i), f)) + multiset(f(s[i]))
  {
    var n := |s| - 1;
    if i == n {
      assert Without(s, i) == s[..n];
    } else {
      assert Without(s, i) == Without(s[..n], i) + [s[n]];
      FlatWithout(s[..n], i, f);
      FlatSnoc(Without(s[..n], i), s[n], f);
    }
  }

  lemma {:induction false} FlatPermuted<T, U>(s: seq<T>, t: seq<T>, f: T -> seq<U>)
    requires multiset(s) == multiset(t)
    ensures multiset(Flat(s, f)) == multiset(Flat(t, f))
  {
    assert |s| == |multiset(s)| == |multiset(t)| == |t|;
    if |s| != 0 {
      var n := |s| - 1;
      assert s[n] in multiset(s);
      var i := IndexIn(t, s[n]);
      MultisetWithout(s, n);
      MultisetWithout(t, i);
      FlatPermuted(Without(s, n), Without(t, i), f);
      FlatWithout(s, n, f);
      FlatWithout(t, i, f);
    }
  }

  lemma {:induction false} CountIfSame<T>(s: seq<T>, p: T -> bool, q: T -> bool)
    requires forall x :: x in s ==> p(x) == q(x)
    ensures CountIf(s, p) == CountIf(s, q)
  {
    if |s| != 0 {
      CountIfSame(s[..|s|-1], p, q);
    }
  }

  /** Pointwise comparison of two counts over equally long lists. */
  lemma {:induction false} CountIfPairwise<T, U>(s: seq<T>, p: T -> bool, t: seq<U>, q: U -> bool)
    requires |s| == |t|
    requires forall i :: 0 <= i < |s| ==> p(s[i]) == q(t[i])
    ensures CountIf(s, p) == CountIf(t, q)
  {
    if |s| != 0 {
      CountIfPairwise(s[..|s|-1], p, t[..|t|-1], q);
    }
  }

  /** A weaker test counts at least as much, and exactly as much iff it never adds an element. */
  lemma {:induction false} CountIfWeaker<T>(s: seq<T>, p: T -> bool, q: T -> bool)
    requires forall x :: x in s && p(x) ==> q(x)
    ensures CountIf(s, p) <= CountIf(s, q) <= |s|
    ensures CountIf(s, p) == CountIf(s, q) <==> forall x :: x in s && q(x) ==> p(x)
  {
    if |s| != 0 {
      var x := s[|s|-1];
      assert s == s[..|s|-1] + [x];
      CountIfWeaker(s[..|s|-1], p, q);
    }
  }

  ghost function Selected<T>(s: seq<T>, p: T -> bool): set<T> { set x | x in s && p(x) }

  /** On a list without repeats, counting is set cardinality. */
  lemma {:induction false} CountIfIsCardinality<T>(s: seq<T>, p: T -> bool)
    requires Distinct(s)
    ensures CountIf(s, p) == |Selected(s, p)|
  {
    if |s| == 0 {
      assert Selected(s, p) == {};
    } else {
      var x := s[|s|-1];
      var t := s[..|s|-1];
      CountIfIsCardinality(t, p);
      assert s == t + [x];
      if p(x) {
        assert Selected(s, p) == Selected(t, p) + {x};
      } else {
        assert Selected(s, p) == Selected(t, p);
      }
    }
  }

  /** Iterating a Python set: every element once, in no promised order. */
  method Elements<T(==)>(s: set<T>) returns (q: seq<T>)
    ensures Distinct(q)
    ensures forall x :: x in q <==> x in s
  {
    q := [];
    var todo := s;
    while todo != {}
      invariant Distinct(q)
      invariant todo <= s
      invariant forall x :: x in q <==> x in s && x !in todo
    {
      var x :| x in todo;
      q := q + [x];
      todo := todo - {x};
    }
  }

  ghost predicate Reaches<T, U>(s: seq<T>, f: T -> U, u: U) {
    exists i :: 0 <= i < |s| && f(s[i]) == u
  }

  lemma ReachesSnoc<T, U>(s: seq<T>, x: T, f: T -> U, u: U)
    ensures Reaches(s + [x], f, u) <==> Reaches(s, f, u) || f(x) == u
  {
    var next := s + [x];
    assert next[|s|] == x && forall i :: 0 <= i < |s| ==> next[i] == s[i];
    if Reaches(s, f, u) {
      var i :| 0 <= i < |s| && f(s[i]) == u;
      assert f(next[i]) == u;
    }
  }

  lemma {:induction false} SubsetSize<T>(a: set<T>, b: set<T>)
    requires a <= b
    ensures |a| <= |b|
  {
    if a != {} {
      var x :| x in a;
      SubsetSize(a - {x}, b - {x});
    }
  }

  lemma FullSubset<T>(a: set<T>, b: set<T>)
    requires a <= b && |a| >= |b|
    ensures a == b
  {
    if b - a != {} {
      var x :| x in b - a;
      SubsetSize(a, b - {x});
    }
  }

  // ---------- grouping ----------

  function InGroup<T, G(==)>(groupOf: T -> G, g: G): T -> bool { (x: T) => groupOf(x) == g }

  function GroupSet<T, G(==)>(s: seq<T>, groupOf: T -> G): set<G> {
    set i | 0 <= i < |s| :: groupOf(s[i])
  }

  function Members<T, G>(groups: map<G, seq<T>>, g: G): seq<T> { if g in groups then groups[g] else [] }

  /** The groups in the order in which they first appear. */
  function FirstSeen<T, G(==)>(s: seq<T>, groupOf: T -> G): seq<G> {
    if |s| == 0 then [] else
      var before, g := FirstSeen(s[..|s|-1], groupOf), groupOf(s[|s|-1]);
      if g in before then before else before + [g]
  }

  /** `groups` files the elements of `s` by group, `order` lists the groups, each once. */
  ghost predicate Grouped<T, G(!new)>(order: seq<G>, groups: map<G, seq<T>>, s: seq<T>, groupOf: T -> G) {
    && Distinct(order) && (forall g :: g in order <==> g in groups)
    && groups.Keys == GroupSet(s, groupOf)
    && forall g {:trigger Members(groups, g)} :: Members(groups, g) == Filter(s, InGroup(groupOf, g))
  }

  lemma GroupStep<T, G(!new)>(order: seq<G>, groups: map<G, seq<T>>, s: seq<T>, n: nat, groupOf: T -> G)
    requires n < |s| && Grouped(order, groups, s[..n], groupOf)
    ensures var g := groupOf(s[n]);
            Grouped(if g in groups then order else order + [g], groups[g := Members(groups, g) + [s[n]]], s[..n+1],
                    groupOf)
  {
    var g0 := groupOf(s[n]);
    assert s[..n+1] == s[..n] + [s[n]];
    assert GroupSet(s[..n+1], groupOf) == GroupSet(s[..n], groupOf) + {g0};
    if g0 !in groups {
      DistinctSnoc(order, g0);
    }
    var next := groups[g0 := Members(groups, g0) + [s[n]]];
    forall g ensures Members(next, g) == Filter(s[..n+1], InGroup(groupOf, g)) {
      FilterSnoc(s[..n], s[n], InGroup(groupOf, g));
      assert Members(groups, g) == Filter(s[..n], InGroup(groupOf, g));
    }
  }

  /** Grouping for callers whom the order of the groups does not concern. */
  method GroupBy<T, G(==, !new)>(s: seq<T>, groupOf: T -> G) returns (order: seq<G>, groups: map<G, seq<T>>)
    ensures Grouped(order, groups, s, groupOf)
  {
    order, groups := GroupInOrder(s, groupOf);
  }

  /** `groups.setdefault(groupOf(x), []).append(x)` over the whole list. */
  method GroupInOrder<T, G(==, !new)>(s: seq<T>, groupOf: T -> G) returns (order: seq<G>, groups: map<G, seq<T>>)
    ensures Grouped(order, groups, s, groupOf) && order == FirstSeen(s, groupOf)
  {
    order, groups := [], map[];
    for n := 0 to |s|
      invariant Grouped(order, groups, s[..n], groupOf) && order == FirstSeen(s[..n], groupOf)
    {
      assert s[..n+1][..n] == s[..n];
      var g := groupOf(s[n]);
      GroupStep(order, groups, s, n, groupOf);
      if g !in groups {
        order := order + [g];
      }
      groups := groups[g := Members(groups, g) + [s[n]]];
    }
    assert s[..|s|] == s;
  }

  // ---------- lexicographic sort keys ----------

  /** Python's tuple comparison `a <= b`, on tuples of integers. */
  predicate LexLe(a: seq<int>, b: seq<int>) {
    if |a| == 0 then true
    else if |b| == 0 then false
    else if a[0] != b[0] then a[0] < b[0]
    else LexLe(a[1..], b[1..])
  }

  lemma {:induction false} LexTotal(a: seq<int>, b: seq<int>)
    ensures LexLe(a, b) || LexLe(b, a)
    ensures LexLe(a, b) && LexLe(b, a) <==> a == b
  {
    if |a| != 0 && |b| != 0 && a[0] == b[0] {
      LexTotal(a[1..], b[1..]);
      assert a == [a[0]] + a[1..] && b == [b[0]] + b[1..];
    }
  }

  lemma {:induction false} LexTransitive(a: seq<int>, b: seq<int>, c: seq<int>)
    requires LexLe(a, b) && LexLe(b, c)
    ensures LexLe(a, c)
  {
    if |a| != 0 && |b| != 0 && |c| != 0 && a[0] == b[0] == c[0] {
      LexTransitive(a[1..], b[1..], c[1..]);
    }
  }

  lemma LexSingle(a: int, b: int)
    ensures LexLe([a], [b]) <==> a <= b
  {
  }

  // ---------- stable sort ----------

  ghost predicate SortedBy<T>(s: seq<T>, key: T -> seq<int>) {
    forall i, j :: 0 <= i < j < |s| ==> LexLe(key(s[i]), key(s[j]))
  }

  /** Puts `x` behind every element that is not strictly greater. */
  function Insert<T>(s: seq<T>, x: T, key: T -> seq<int>): (r: seq<T>)
    ensures multiset(r) == multiset(s) + multiset{x}
  {
    if |s| == 0 || LexLe(key(s[|s|-1]), key(x)) then s + [x]
    else
      assert s == s[..|s|-1] + [s[|s|-1]];
      Insert(s[..|s|-1], x, key) + [s[|s|-1]]
  }

  /** Python's `sorted(s, key=key)`. */
  function SortBy<T>(s: seq<T>, key: T -> seq<int>): (r: seq<T>)
    ensures multiset(r) == multiset(s)
  {
    if |s| == 0 then []
    else
      assert s == s[..|s|-1] + [s[|s|-1]];
      Insert(SortBy(s[..|s|-1], key), s[|s|-1], key)
  }

  lemma {:induction false} InsertSorted<T>(s: seq<T>, x: T, key: T -> seq<int>)
    requires SortedBy(s, key)
    ensures SortedBy(Insert(s, x, key), key)
  {
    if |s| != 0 {
      var y := s[|s|-1];
      if LexLe(key(y), key(x)) {
        forall i | 0 <= i < |s| ensures LexLe(key(s[i]), key(x)) {
          LexTotal(key(y), key(y));
          LexTransitive(key(s[i]), key(y), key(x));
        }
      } else {
        var r := Insert(s[..|s|-1], x, key);
        InsertSorted(s[..|s|-1], x, key);
        LexTotal(key(y), key(x));
        forall i | 0 <= i < |r| ensures LexLe(key(r[i]), key(y)) {
          assert r[i] in multiset(r);
          if r[i] != x {
            assert r[i] in multiset(s[..|s|-1]);
          }
        }
      }
    }
  }

  lemma {:induction false} SortByDistinct<T>(s: seq<T>, key: T -> seq<int>)
    requires Distinct(s)
    ensures Distinct(SortBy(s, key))
  {
    var r := SortBy(s, key);
    forall x ensures multiset(r)[x] <= 1 {
      OccursOnce(s, x);
    }
    OnceIsDistinct(r);
  }

  lemma {:induction false} OccursOnce<T>(s: seq<T>, x: T)
    requires Distinct(s)
    ensures multiset(s)[x] <= 1
  {
    if |s| != 0 {
      var y := s[|s|-1];
      assert s == s[..|s|-1] + [y];
      OccursOnce(s[..|s|-1], x);
      if multiset(s[..|s|-1])[x] == 1 {
        assert x in s[..|s|-1];
      }
    }
  }

  lemma OnceIsDistinct<T>(s: seq<T>)
    requires forall i :: 0 <= i < |s| ==> multiset(s)[s[i]] <= 1
    ensures Distinct(s)
  {
    forall i, j | 0 <= i < j < |s| ensures s[i] != s[j] {
      assert s == s[..j] + [s[j]] + s[j+1..];
      assert multiset(s)[s[j]] == multiset(s[..j])[s[j]] + 1 + multiset(s[j+1..])[s[j]];
      assert s[i] in s[..j];
      assert s[i] in multiset(s[..j]);
    }
  }

  lemma {:induction false} SortBySorted<T>(s: seq<T>, key: T -> seq<int>)
    ensures SortedBy(SortBy(s, key), key)
    ensures |SortBy(s, key)| == |s|
    ensures forall x :: x in SortBy(s, key) <==> x in s
  {
    if |s| != 0 {
      SortBySorted(s[..|s|-1], key);
      InsertSorted(SortBy(s[..|s|-1], key), s[|s|-1], key);
    }
    var r := SortBy(s, key);
    assert |multiset(r)| == |r| && |multiset(s)| == |s|;
    forall x ensures x in r <==> x in s {
      assert x in r <==> x in multiset(r);
    }
  }

  lemma SortedSameLast<T>(s: seq<T>, t: seq<T>, key: T -> seq<int>)
    requires SortedBy(s, key) && SortedBy(t, key) && |s| == |t| > 0
    requires multiset(s) == multiset(t)
    ensures key(s[|s|-1]) == key(t[|s|-1])
  {
    var n := |s| - 1;
    assert s[n] in multiset(s) && t[n] in multiset(t);
    var i := IndexIn(t, s[n]);
    var j := IndexIn(s, t[n]);
    LexTotal(key(s[n]), key(t[n]));
    LexTotal(key(s[n]), key(s[n]));
    assert LexLe(key(s[j]), key(s[n])) && LexLe(key(t[i]), key(t[n]));
  }

  lemma SamePop<T>(s: seq<T>, t: seq<T>)
    requires |s| == |t| > 0 && multiset(s) == multiset(t) && s[|s|-1] == t[|t|-1]
    ensures multiset(s[..|s|-1]) == multiset(t[..|t|-1])
  {
    var n := |s| - 1;
    MultisetWithout(s, n);
    MultisetWithout(t, n);
    assert Without(s, n) == s[..n] && Without(t, n) == t[..n];
  }

  lemma SameLength<T>(s: seq<T>, t: seq<T>)
    requires multiset(s) == multiset(t)
    ensures |s| == |t| && forall x :: x in s <==> x in t
  {
    assert |s| == |multiset(s)| == |multiset(t)| == |t|;
    forall x ensures x in s <==> x in t {
      assert x in s <==> x in multiset(s);
      assert x in t <==> x in multiset(t);
    }
  }

  /** Two sorted arrangements of the same elements agree when no two elements share a key. */
  lemma {:induction false} SortedUnique<T>(s: seq<T>, t: seq<T>, key: T -> seq<int>)
    requires SortedBy(s, key) && SortedBy(t, key)
    requires multiset(s) == multiset(t)
    requires forall x, y :: x in s && y in s && key(x) == key(y) ==> x == y
    ensures s == t
  {
    SameLength(s, t);
    if |s| != 0 {
      var n := |s| - 1;
      SortedSameLast(s, t, key);
      assert t[n] in t;
      SamePop(s, t);
      SortedUnique(s[..n], t[..n], key);
      assert s == s[..n] + [s[n]] && t == t[..n] + [t[n]];
    }
  }

  // ---------- maxima ----------

  /** Python's `max(s, key=key)`: the first of the greatest elements. */
  function FirstMax<T>(s: seq<T>, key: T -> seq<int>): (r: Option<T>)
    ensures r.Some? <==> |s| != 0
    ensures r.Some? ==> r.value in s
  {
    if |s| == 0 then None else
      var best := FirstMax(s[..|s|-1], key);
      var x := s[|s|-1];
      if best.None? || !LexLe(key(x), key(best.value)) then Some(x) else best
  }

  /** The last of the greatest elements. */
  function LastMax<T>(s: seq<T>, key: T -> seq<int>): (r: Option<T>)
    ensures r.Some? <==> |s| != 0
    ensures r.Some? ==> r.value in s
  {
    if |s| == 0 then None else
      var best := LastMax(s[..|s|-1], key);
      var x := s[|s|-1];
      if best.None? || LexLe(key(best.value), key(x)) then Some(x) else best
  }

  ghost predicate Greatest<T>(x: T, s: seq<T>, key: T -> seq<int>) {
    x in s && forall y :: y in s ==> LexLe(key(y), key(x))
  }

  lemma {:induction false} MaxIsGreatest<T>(s: seq<T>, key: T -> seq<int>)
    requires |s| != 0
    ensures Greatest(FirstMax(s, key).value, s, key)
    ensures Greatest(LastMax(s, key).value, s, key)
  {
    var front, x := s[..|s|-1], s[|s|-1];
    LexTotal(key(x), key(x));
    if |front| != 0 {
      MaxIsGreatest(front, key);
      BetterStaysGreatest(front, x, FirstMax(front, key).value, key);
      BetterStaysGreatest(front, x, LastMax(front, key).value, key);
    }
    assert s == front + [x];
  }

  lemma BetterStaysGreatest<T>(front: seq<T>, x: T, best: T, key: T -> seq<int>)
    requires Greatest(best, front, key)
    ensures LexLe(key(best), key(x)) ==> Greatest(x, front + [x], key)
    ensures LexLe(key(x), key(best)) ==> Greatest(best, front + [x], key)
    ensures LexLe(key(best), key(x)) || LexLe(key(x), key(best))
  {
    LexTotal(key(x), key(best));
    LexTotal(key(x), key(x));
    forall y | y in front && LexLe(key(best), key(x)) ensures LexLe(key(y), key(x)) {
      LexTransitive(key(y), key(best), key(x));
    }
  }
}
