/** Flattening a tree level into rows that name their parent, and collecting the rows of each parent again. */
module Nesting {
  import opened Prelude

  lemma MapSnoc<T, U>(s: seq<T>, x: T, f: T -> U)
    ensures Map(s + [x], f) == Map(s, f) + [f(x)]
  {
  }

  /** Two maps over the same list agree if they agree on its elements. */
  lemma MapSame<T, U>(s: seq<T>, f: T -> U, g: T -> U)
    requires forall x :: x in s ==> f(x) == g(x)
    ensures Map(s, f) == Map(s, g)
  {
  }

  lemma MapMap<T, U, V>(s: seq<T>, f: T -> U, g: U -> V, h: T -> V)
    requires forall x :: x in s ==> g(f(x)) == h(x)
    ensures Map(Map(s, f), g) == Map(s, h)
  {
  }

  lemma {:induction false} MapFlat<T, U, V>(s: seq<T>, f: T -> seq<U>, g: U -> V, h: T -> seq<V>)
    requires forall x :: x in s ==> Map(f(x), g) == h(x)
    ensures Map(Flat(s, f), g) == Flat(s, h)
  {
    if |s| != 0 {
      MapFlat(s[..|s|-1], f, g, h);
      var x := s[|s|-1];
      assert Map(Flat(s[..|s|-1], f) + f(x), g) == Map(Flat(s[..|s|-1], f), g) + Map(f(x), g);
    }
  }

  lemma {:induction false} FlatMap<T, U, V>(s: seq<T>, f: T -> U, g: U -> seq<V>, h: T -> seq<V>)
    requires forall x :: x in s ==> g(f(x)) == h(x)
    ensures Flat(Map(s, f), g) == Flat(s, h)
  {
    if |s| != 0 {
      FlatMap(s[..|s|-1], f, g, h);
      assert Map(s, f)[..|s|-1] == Map(s[..|s|-1], f);
    }
  }

  lemma InsertSnoc<T>(s: seq<T>, y: T, x: T, key: T -> seq<int>)
    ensures Insert(s + [y], x, key) == if LexLe(key(y), key(x)) then s + [y] + [x] else Insert(s, x, key) + [y]
  {
    assert (s + [y])[..|s|] == s;
  }

  lemma {:induction false} InsertMap<T, U>(s: seq<T>, x: T, f: T -> U, key: T -> seq<int>, key': U -> seq<int>)
    requires forall y :: y in s || y == x ==> key'(f(y)) == key(y)
    ensures Insert(Map(s, f), f(x), key') == Map(Insert(s, x, key), f)
  {
    if |s| != 0 {
      var front, y := s[..|s|-1], s[|s|-1];
      assert s == front + [y];
      MapSnoc(front, y, f);
      InsertSnoc(front, y, x, key);
      InsertSnoc(Map(front, f), f(y), f(x), key');
      if LexLe(key(y), key(x)) {
        MapSnoc(front + [y], x, f);
      } else {
        InsertMap(front, x, f, key, key');
        MapSnoc(Insert(front, x, key), y, f);
      }
    }
  }

  /** Sorting commutes with renaming the elements. */
  lemma {:induction false} SortByMap<T, U>(s: seq<T>, f: T -> U, key: T -> seq<int>, key': U -> seq<int>)
    requires forall x :: x in s ==> key'(f(x)) == key(x)
    ensures SortBy(Map(s, f), key') == Map(SortBy(s, key), f)
  {
    if |s| != 0 {
      var front, x := s[..|s|-1], s[|s|-1];
      SortByMap(front, f, key, key');
      assert Map(s, f)[..|s|-1] == Map(front, f);
      SortBySorted(front, key);
      InsertMap(SortBy(front, key), x, f, key, key');
    }
  }

  lemma LastIsGreatest<T>(s: seq<T>, x: T, key: T -> seq<int>)
    requires SortedBy(s + [x], key)
    ensures SortedBy(s, key) && Insert(s, x, key) == s + [x]
  {
    var all := s + [x];
    assert all[|s|] == x && forall i :: 0 <= i < |s| ==> all[i] == s[i];
    if |s| != 0 {
      assert LexLe(key(all[|s|-1]), key(all[|s|]));
    }
  }

  /** A sorted list stays as it is. */
  lemma {:induction false} SortByIdentity<T>(s: seq<T>, key: T -> seq<int>)
    requires SortedBy(s, key)
    ensures SortBy(s, key) == s
  {
    if |s| != 0 {
      var front, x := s[..|s|-1], s[|s|-1];
      assert s == front + [x];
      LastIsGreatest(front, x, key);
      SortByIdentity(front, key);
    }
  }

  lemma SortedMap<T, U>(s: seq<T>, f: T -> U, key: T -> seq<int>, key': U -> seq<int>)
    requires SortedBy(s, key) && forall x :: x in s ==> key'(f(x)) == key(x)
    ensures SortedBy(Map(s, f), key')
  {
  }

  /** Children named by parent: the rows of one parent are its children, in order. */
  lemma {:induction false} ChildrenOf<P, R>(ps: seq<P>, id: P -> int, kids: P -> seq<R>, parent: R -> int, p: P)
    requires Distinct(Map(ps, id)) && p in ps
    requires forall q, r :: q in ps && r in kids(q) ==> parent(r) == id(q)
    ensures Filter(Flat(ps, kids), InGroup(parent, id(p))) == kids(p)
  {
    var front, q := ps[..|ps|-1], ps[|ps|-1];
    assert ps == front + [q];
    FilterConcat(Flat(front, kids), kids(q), InGroup(parent, id(p)));
    assert Distinct(Map(front, id)) by {
      assert Map(ps, id)[..|front|] == Map(front, id);
    }
    if p == q {
      NoChildren(front, id, kids, parent, id(p));
      FilterUniform(kids(q), InGroup(parent, id(p)), true);
    } else {
      ChildrenOf(front, id, kids, parent, p);
      DifferentIds(ps, id, p, q);
      FilterUniform(kids(q), InGroup(parent, id(p)), false);
    }
  }

  lemma {:induction false} DifferentIds<P>(ps: seq<P>, id: P -> int, p: P, q: P)
    requires Distinct(Map(ps, id)) && p in ps && q in ps && p != q
    ensures id(p) != id(q)
  {
    var i :| 0 <= i < |ps| && ps[i] == p;
    var j :| 0 <= j < |ps| && ps[j] == q;
    assert Map(ps, id)[i] != Map(ps, id)[j];
  }

  lemma {:induction false} NoChildren<P, R>(ps: seq<P>, id: P -> int, kids: P -> seq<R>, parent: R -> int, i: int)
    requires forall q, r :: q in ps && r in kids(q) ==> parent(r) == id(q)
    requires forall n :: 0 <= n < |ps| ==> Map(ps, id)[n] != i
    ensures Filter(Flat(ps, kids), InGroup(parent, i)) == []
  {
    forall r | r in Flat(ps, kids) ensures parent(r) != i {
      FlatIn(ps, kids, r);
      var n :| 0 <= n < |ps| && r in kids(ps[n]);
      assert Map(ps, id)[n] == id(ps[n]);
    }
    FilterUniform(Flat(ps, kids), InGroup(parent, i), false);
  }

  /** The row names one of the parents. */
  function HasParent<P, R>(ps: seq<P>, id: P -> int, parent: R -> int): R -> bool { (r: R) => parent(r) in Map(ps, id) }

  lemma {:induction false} FilterSplit<R>(rows: seq<R>, p: R -> bool, q: R -> bool, either: R -> bool)
    requires forall r :: r in rows ==> either(r) == (p(r) || q(r)) && !(p(r) && q(r))
    ensures multiset(Filter(rows, either)) == multiset(Filter(rows, p)) + multiset(Filter(rows, q))
  {
    if |rows| != 0 {
      var r := rows[|rows|-1];
      assert rows == rows[..|rows|-1] + [r];
      FilterSplit(rows[..|rows|-1], p, q, either);
      FilterSnoc(rows[..|rows|-1], r, p);
      FilterSnoc(rows[..|rows|-1], r, q);
      FilterSnoc(rows[..|rows|-1], r, either);
    }
  }

  /** Listing the rows parent by parent, whatever the order of parents and of each one's rows, lists every
      row that has a parent exactly once. */
  lemma {:induction false} Regrouped<P, R>(ps: seq<P>, id: P -> int, kids: P -> seq<R>, rows: seq<R>, parent: R -> int)
    requires Distinct(Map(ps, id))
    requires forall p :: p in ps ==> multiset(kids(p)) == multiset(Filter(rows, InGroup(parent, id(p))))
    ensures multiset(Flat(ps, kids)) == multiset(Filter(rows, HasParent(ps, id, parent)))
  {
    if |ps| == 0 {
      FilterUniform(rows, HasParent(ps, id, parent), false);
    } else {
      var front, q := ps[..|ps|-1], ps[|ps|-1];
      assert ps == front + [q];
      MapSnoc(front, q, id);
      assert Map(ps, id)[..|front|] == Map(front, id);
      Regrouped(front, id, kids, rows, parent);
      assert id(q) !in Map(front, id) by {
        assert Map(ps, id)[|front|] == id(q);
      }
      FilterSplit(rows, HasParent(front, id, parent), InGroup(parent, id(q)), HasParent(ps, id, parent));
    }
  }

  lemma PermutedDistinct<T>(s: seq<T>, t: seq<T>)
    requires multiset(s) == multiset(t) && Distinct(s)
    ensures Distinct(t)
  {
    forall x ensures multiset(s)[x] <= 1 {
      OccursOnce(s, x);
    }
    OnceIsDistinct(t);
  }
}
