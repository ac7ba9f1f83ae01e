/** Reachability in a bounded number of steps, and its relation to the least closed set. */
module Reachability {
  import opened Prelude

  type Step = (int, int) -> bool

  ghost predicate Chain(e: Step, path: seq<int>) {
    forall i :: 0 <= i < |path| - 1 ==> e(path[i], path[i+1])
  }

  lemma LinkAt(e: Step, path: seq<int>, i: nat)
    requires Chain(e, path) && i < |path| - 1
    ensures var g, t := path[i], path[i+1]; e(g, t)
  {
  }

  /** A path of at most `n` steps from `init` to `t`. */
  ghost predicate IsPath(e: Step, init: set<int>, n: nat, t: int, path: seq<int>) {
    1 <= |path| <= n + 1 && path[0] in init && path[|path|-1] == t && Chain(e, path)
  }

  ghost predicate Reachable(e: Step, init: set<int>, n: nat, t: int) {
    exists path :: IsPath(e, init, n, t, path)
  }

  /** One step from `s`. */
  ghost predicate NextTo(e: Step, s: set<int>, t: int) { exists g :: g in s && e(g, t) }

  /** `s` holds exactly what is reached in at most `n` steps. */
  ghost predicate IsReach(s: set<int>, e: Step, init: set<int>, n: nat) {
    forall t :: t in s <==> Reachable(e, init, n, t)
  }

  ghost predicate Closed(s: set<int>, e: Step, init: set<int>) {
    init <= s && forall g, t :: g in s && e(g, t) ==> t in s
  }

  lemma Starts(e: Step, init: set<int>, n: nat, t: int)
    requires t in init
    ensures Reachable(e, init, n, t)
  {
    assert IsPath(e, init, n, t, [t]);
  }

  lemma NoStep(e: Step, init: set<int>)
    ensures IsReach(init, e, init, 0)
  {
    forall t ensures t in init <==> Reachable(e, init, 0, t) {
      if t in init {
        Starts(e, init, 0, t);
      }
    }
  }

  lemma Extend(e: Step, init: set<int>, n: nat, g: int, t: int)
    requires Reachable(e, init, n, g) && e(g, t)
    ensures Reachable(e, init, n + 1, t)
  {
    var path :| IsPath(e, init, n, g, path);
    var longer := path + [t];
    forall i | 0 <= i < |longer| - 1 ensures e(longer[i], longer[i+1]) {
      if i < |path| - 1 {
        assert e(path[i], path[i+1]);
      }
    }
    assert IsPath(e, init, n + 1, t, longer);
  }

  lemma MoreSteps(e: Step, init: set<int>, n: nat, m: nat, t: int)
    requires Reachable(e, init, n, t) && n <= m
    ensures Reachable(e, init, m, t)
  {
    var path :| IsPath(e, init, n, t, path);
    assert IsPath(e, init, m, t, path);
  }

  /** Whoever is reached in n+1 steps is reached in n, or one step from such a node. */
  lemma LastStep(e: Step, init: set<int>, n: nat, t: int) returns (g: int)
    requires Reachable(e, init, n + 1, t)
    ensures Reachable(e, init, n, t) || (Reachable(e, init, n, g) && e(g, t))
  {
    var path :| IsPath(e, init, n + 1, t, path);
    g := t;
    if |path| > n + 1 {
      var front := path[..|path|-1];
      g := front[|front|-1];
      assert IsPath(e, init, n, g, front);
      assert e(path[|path|-2], path[|path|-1]);
    } else {
      assert IsPath(e, init, n, t, path);
    }
  }

  /** A round adds everything one step away. */
  lemma RoundReaches(e: Step, init: set<int>, n: nat, s: set<int>, added: set<int>)
    requires IsReach(s, e, init, n)
    requires forall t :: t in added <==> t !in s && NextTo(e, s, t)
    ensures IsReach(s + added, e, init, n + 1)
  {
    forall t ensures t in s + added <==> Reachable(e, init, n + 1, t) {
      if t in s {
        MoreSteps(e, init, n, n + 1, t);
      } else if t in added {
        var g :| g in s && e(g, t);
        Extend(e, init, n, g, t);
      } else if Reachable(e, init, n + 1, t) {
        var _ := LastStep(e, init, n, t);
      }
    }
  }

  /** A round that adds nothing settles all later rounds. */
  lemma {:induction false} Settled(e: Step, init: set<int>, n: nat, m: nat, s: set<int>)
    requires IsReach(s, e, init, n) && n <= m
    requires forall g, t :: g in s && e(g, t) ==> t in s
    ensures IsReach(s, e, init, m)
    decreases m - n
  {
    if n < m {
      RoundReaches(e, init, n, s, {});
      assert s + {} == s;
      Settled(e, init, n + 1, m, s);
    }
  }

  lemma {:induction false} PathInClosed(e: Step, init: set<int>, c: set<int>, path: seq<int>)
    requires Closed(c, e, init) && |path| > 0 && path[0] in init && Chain(e, path)
    ensures path[|path|-1] in c
  {
    if |path| > 1 {
      var front := path[..|path|-1];
      forall i | 0 <= i < |front| - 1 ensures e(front[i], front[i+1]) {
        assert e(path[i], path[i+1]);
      }
      PathInClosed(e, init, c, front);
      LinkAt(e, path, |path| - 2);
    }
  }

  /** Nothing is reached outside a closed set. */
  lemma ReachInClosed(e: Step, init: set<int>, n: nat, s: set<int>, c: set<int>)
    requires IsReach(s, e, init, n) && Closed(c, e, init)
    ensures s <= c
  {
    forall t | t in s ensures t in c {
      var path :| IsPath(e, init, n, t, path);
      PathInClosed(e, init, c, path);
    }
  }

  /** The bounded result is closed, hence the least closed set, exactly when no node is farther away. */
  lemma ClosedIffShort(e: Step, init: set<int>, n: nat, s: set<int>)
    requires IsReach(s, e, init, n)
    ensures Closed(s, e, init) <==> forall m: nat, t :: Reachable(e, init, m, t) ==> Reachable(e, init, n, t)
  {
    forall t | t in init ensures t in s {
      Starts(e, init, n, t);
    }
    if Closed(s, e, init) {
      forall m: nat, t | Reachable(e, init, m, t) ensures Reachable(e, init, n, t) {
        var path :| IsPath(e, init, m, t, path);
        PathInClosed(e, init, s, path);
      }
    }
    if forall m: nat, t :: Reachable(e, init, m, t) ==> Reachable(e, init, n, t) {
      forall g, t | g in s && e(g, t) ensures t in s {
        Extend(e, init, n, g, t);
      }
    }
  }

  /** What was reached one step earlier. */
  lemma Earlier(e: Step, init: set<int>, n: nat, s: set<int>) returns (before: set<int>)
    requires IsReach(s, e, init, n + 1)
    ensures IsReach(before, e, init, n) && before <= s
    ensures forall t :: t in s && t !in before ==> exists g :: g in before && e(g, t)
    ensures forall g, t :: g in before && e(g, t) ==> t in s
  {
    before := set t | t in s && Reachable(e, init, n, t);
    forall t ensures t in before <==> Reachable(e, init, n, t) {
      if Reachable(e, init, n, t) {
        MoreSteps(e, init, n, n + 1, t);
      }
    }
    forall t | t in s && t !in before ensures exists g :: g in before && e(g, t) {
      var g := LastStep(e, init, n, t);
      assert g in before;
    }
    forall g, t | g in before && e(g, t) ensures t in s {
      Extend(e, init, n, g, t);
    }
  }

  /** Everything reached is initial or the target of a step. */
  lemma {:induction false} ReachWithin(e: Step, init: set<int>, n: nat, s: set<int>, all: set<int>)
    requires IsReach(s, e, init, n) && init <= all && forall g, t :: e(g, t) ==> t in all
    ensures init <= s <= all
  {
    forall t | t in init ensures t in s {
      Starts(e, init, n, t);
    }
    forall t | t in s ensures t in all {
      var path :| IsPath(e, init, n, t, path);
      if |path| > 1 {
        LinkAt(e, path, |path| - 2);
      }
    }
  }

  /** A set that is not closed yet grows. */
  lemma RoundGrows(e: Step, init: set<int>, n: nat, before: set<int>, s: set<int>)
    requires IsReach(before, e, init, n) && before <= s && !Closed(before, e, init)
    requires forall g, t :: g in before && e(g, t) ==> t in s
    ensures |s| >= |before| + 1
  {
    forall t | t in init ensures t in before {
      Starts(e, init, n, t);
    }
    var g, t :| g in before && e(g, t) && t !in before;
    SubsetSize(before + {t}, s);
  }

  /** As long as the rounds add something, n rounds add at least n nodes. */
  lemma {:induction false} RoundsGrow(e: Step, init: set<int>, n: nat, s: set<int>)
    requires IsReach(s, e, init, n)
    ensures Closed(s, e, init) || |s| >= |init| + n
  {
    if n == 0 {
      NoStep(e, init);
      forall t ensures t in s <==> t in init {
        assert t in s <==> Reachable(e, init, 0, t);
      }
      assert s == init;
    } else {
      var before := Earlier(e, init, n - 1, s);
      RoundsGrow(e, init, n - 1, before);
      if Closed(before, e, init) {
        forall t | t in s ensures t in before {
        }
        assert s == before;
      } else {
        RoundGrows(e, init, n - 1, before, s);
      }
    }
  }

  /** If at most `n` nodes can be added at all, n rounds give the least closed set. */
  lemma LeastFixpoint(e: Step, init: set<int>, n: nat, s: set<int>, all: set<int>)
    requires IsReach(s, e, init, n)
    requires init <= all && |all - init| <= n && forall g, t :: e(g, t) ==> t in all
    ensures Closed(s, e, init)
    ensures forall c :: Closed(c, e, init) ==> s <= c
  {
    RoundsGrow(e, init, n, s);
    ReachWithin(e, init, n, s, all);
    if |s| >= |init| + n {
      assert all == init + (all - init);
      FullSubset(s, all);
    }
    forall c | Closed(c, e, init) ensures s <= c {
      ReachInClosed(e, init, n, s, c);
    }
  }

  /** More steps reach more. */
  lemma Monotone(e: Step, e': Step, init: set<int>, n: nat, t: int)
    requires forall g, u :: e(g, u) ==> e'(g, u)
    requires Reachable(e, init, n, t)
    ensures Reachable(e', init, n, t)
  {
    var path :| IsPath(e, init, n, t, path);
    forall i | 0 <= i < |path| - 1 ensures e'(path[i], path[i+1]) {
      LinkAt(e, path, i);
    }
    assert IsPath(e', init, n, t, path);
  }

  /** Two step relations that agree inside a region which neither leaves reach the same. */
  lemma SameInside(e: Step, e': Step, init: set<int>, n: nat, t: int, inside: set<int>)
    requires init <= inside
    requires forall g, u :: g in inside && e(g, u) ==> e'(g, u) && u in inside
    requires Reachable(e, init, n, t)
    ensures Reachable(e', init, n, t) && t in inside
  {
    var path :| IsPath(e, init, n, t, path);
    PathInside(e, e', inside, path, |path| - 1);
    assert IsPath(e', init, n, t, path);
  }

  lemma {:induction false} PathInside(e: Step, e': Step, inside: set<int>, path: seq<int>, n: nat)
    requires n < |path| && path[0] in inside && Chain(e, path)
    requires forall g, u :: g in inside && e(g, u) ==> e'(g, u) && u in inside
    ensures forall i :: 0 <= i <= n ==> path[i] in inside
    ensures forall i :: 0 <= i < n ==> e'(path[i], path[i+1])
  {
    if n > 0 {
      PathInside(e, e', inside, path, n - 1);
      assert e(path[n-1], path[n]);
    }
  }
}
