/** The net-delta timeline of a result page (src/apps/result/trend.py).

    Every voter's ballots are replayed in order as set differences: +1 in the hour a key
    appears, -1 in the hour it disappears.  The contract of `NetDeltaTrends` says what that is
    for: summing a key's buckets up to hour h gives the number of voters whose ballot in force
    at the end of hour h names the key. */
module Trend {
  import opened Prelude

  /** One stored ballot of one voter; `at` is in microseconds. */
  datatype Snapshot<+I> = Snapshot(voter: string, at: int, attempt: int, items: seq<I>)

  datatype Window = Window(start: int, totalHours: int)

  datatype Point = Point(hrs: int, cnt: int)

  datatype Timeline = Timeline(trend: seq<Point>, trendFirst: seq<Point>)

  const HOUR := 3_600_000_000

  function HoursCap(w: Window): int { Max(w.totalHours, 1) }

  /** Python's `int(a / b)`: truncation toward zero. */
  function TruncDiv(a: int, b: int): int
    requires b > 0
  {
    if a >= 0 then a / b else -((-a) / b)
  }

  function Bucket(at: int, w: Window): int {
    Max(0, Min(TruncDiv(at - w.start, HOUR), HoursCap(w) - 1))
  }

  // ---------- what the timeline means ----------

  /** A ballot cast at `at` is on record at the end of hour `h`; the last hour of the window
      also takes everything that arrived too late. */
  predicate OnRecord(at: int, w: Window, h: int) {
    h >= 0 && (h >= HoursCap(w) - 1 || at < w.start + (h + 1) * HOUR)
  }

  function SnapshotKey<I>(): Snapshot<I> -> seq<int> {
    (s: Snapshot<I>) => [s.at, s.attempt]
  }

  /** The ballot of voter `v` in force at the end of hour `h`: the greatest by
      (created_at, attempt), the later one on record if two are equal. */
  ghost function InForce<I>(history: seq<Snapshot<I>>, v: string, w: Window, h: int): Option<Snapshot<I>> {
    if |history| == 0 then None else
      var s := history[|history|-1];
      var best := InForce(history[..|history|-1], v, w, h);
      if s.voter == v && OnRecord(s.at, w, h)
         && (best.None? || LexLe(SnapshotKey()(best.value), SnapshotKey()(s)))
      then Some(s) else best
  }

  predicate Mentions<I, K(==)>(items: seq<I>, keysOf: I -> seq<K>, k: K) {
    exists i :: 0 <= i < |items| && k in keysOf(items[i])
  }

  ghost predicate Names<I, K>(ballot: Option<Snapshot<I>>, keysOf: I -> seq<K>, k: K) {
    ballot.Some? && Mentions(ballot.value.items, keysOf, k)
  }

  function VoterOf<I>(): Snapshot<I> -> string { (s: Snapshot<I>) => s.voter }

  function VoterSet<I>(history: seq<Snapshot<I>>): set<string> { GroupSet(history, VoterOf()) }

  function OfVoter<I>(v: string): Snapshot<I> -> bool { InGroup(VoterOf(), v) }

  ghost function Supporters<I, K>(history: seq<Snapshot<I>>, keysOf: I -> seq<K>, k: K, w: Window,
                                  h: int): set<string> {
    set v | v in VoterSet(history) && Names(InForce(history, v, w, h), keysOf, k)
  }

  /** The real standing of `k` at the end of hour `h`. */
  ghost function Standing<I, K>(history: seq<Snapshot<I>>, keysOf: I -> seq<K>, k: K, w: Window, h: int): nat {
    |Supporters(history, keysOf, k, w, h)|
  }

  /** The keys an item contributes to the favourite ("first") timeline. */
  function FirstKeys<I, K>(itemKeys: I -> seq<K>, firstFlag: I -> bool): I -> seq<K> {
    (item: I) => if firstFlag(item) then itemKeys(item) else []
  }

  ghost predicate Sparse(points: seq<Point>, cap: int) {
    && (forall i :: 0 <= i < |points| ==> 0 <= points[i].hrs < cap && points[i].cnt != 0)
    && (forall i, j :: 0 <= i < j < |points| ==> points[i].hrs < points[j].hrs)
  }

  /** The sum of the buckets up to hour `h`, as the page accumulates them. */
  function PointSum(points: seq<Point>, h: int): int {
    if |points| == 0 then 0 else
      var p := points[|points|-1];
      PointSum(points[..|points|-1], h) + if p.hrs <= h then p.cnt else 0
  }

  ghost predicate IsTimeline<I(!new), K>(points: seq<Point>, history: seq<Snapshot<I>>, keysOf: I -> seq<K>, k: K,
                                         w: Window) {
    && Sparse(points, HoursCap(w))
    && forall h :: PointSum(points, h) == Standing(history, keysOf, k, w, h)
  }

  lemma BucketIsClock(at: int, w: Window, h: int)
    ensures 0 <= Bucket(at, w) < HoursCap(w)
    ensures Bucket(at, w) <= h <==> OnRecord(at, w, h)
  {
  }

  lemma BucketMonotone(a: int, b: int, w: Window)
    requires a <= b
    ensures Bucket(a, w) <= Bucket(b, w)
  {
  }

  /** Nobody is counted before hour 0, and never more than there are voters. */
  lemma StandingBounded<I, K>(history: seq<Snapshot<I>>, keysOf: I -> seq<K>, k: K, w: Window, h: int)
    ensures Standing(history, keysOf, k, w, h) <= |VoterSet(history)|
    ensures h < 0 ==> Standing(history, keysOf, k, w, h) == 0
  {
    SubsetSize(Supporters(history, keysOf, k, w, h), VoterSet(history));
    if h < 0 {
      forall v | v in VoterSet(history) ensures InForce(history, v, w, h).None? {
        NothingBeforeStart(history, v, w, h);
      }
      assert Supporters(history, keysOf, k, w, h) == {};
    }
  }

  lemma {:induction false} NothingBeforeStart<I>(history: seq<Snapshot<I>>, v: string, w: Window, h: int)
    requires h < 0
    ensures InForce(history, v, w, h).None?
  {
    if |history| != 0 {
      NothingBeforeStart(history[..|history|-1], v, w, h);
    }
  }

  /** The prefix sums leave no freedom: a sparse timeline is determined by them. */
  lemma {:induction false} TimelineUnique(p: seq<Point>, q: seq<Point>, cap: int)
    requires Sparse(p, cap) && Sparse(q, cap)
    requires forall h :: PointSum(p, h) == PointSum(q, h)
    ensures p == q
    decreases |p| + |q|
  {
    if |p| == 0 && |q| == 0 {
    } else {
      var hp := if |p| == 0 then -1 else p[|p|-1].hrs;
      var hq := if |q| == 0 then -1 else q[|q|-1].hrs;
      var top := Max(hp, hq);
      LastPoint(p, cap, top);
      LastPoint(q, cap, top);
      assert PointSum(p, top) == PointSum(q, top) && PointSum(p, top - 1) == PointSum(q, top - 1);
      assert hp == hq == top;
      assert p[|p|-1] == q[|q|-1];
      var fp, fq := p[..|p|-1], q[..|q|-1];
      forall h ensures PointSum(fp, h) == PointSum(fq, h) {
        assert PointSum(p, h) == PointSum(q, h);
      }
      TimelineUnique(fp, fq, cap);
      assert p == p[..|p|-1] + [p[|p|-1]] && q == q[..|q|-1] + [q[|q|-1]];
    }
  }

  /** The step of the prefix sum at or above the last bucket is that bucket's count. */
  lemma LastPoint(p: seq<Point>, cap: int, top: int)
    requires Sparse(p, cap)
    requires top >= 0 && (|p| != 0 ==> p[|p|-1].hrs <= top)
    ensures PointSum(p, top) - PointSum(p, top - 1)
         == if |p| != 0 && p[|p|-1].hrs == top then p[|p|-1].cnt else 0
  {
    if |p| != 0 {
      var front := p[..|p|-1];
      AllBelow(front, top);
      if p[|p|-1].hrs < top {
        AllBelow(p, top);
      }
    }
  }

  lemma {:induction false} AllBelow(p: seq<Point>, top: int)
    requires forall i :: 0 <= i < |p| ==> p[i].hrs < top
    ensures PointSum(p, top) == PointSum(p, top - 1)
  {
    if |p| != 0 {
      AllBelow(p[..|p|-1], top);
    }
  }

  // ---------- the counters ----------

  type Hours = map<int, int>

  function HoursOf<K>(cells: map<K, Hours>, k: K): Hours { if k in cells then cells[k] else map[] }

  function CountAt(m: Hours, b: int): int { if b in m then m[b] else 0 }

  function Bumped(m: Hours, b: int, d: int): Hours { m[b := CountAt(m, b) + d] }

  function Prefix(m: Hours, h: int): int
    decreases Max(h + 1, 0)
  {
    if h < 0 then 0 else Prefix(m, h - 1) + CountAt(m, h)
  }

  lemma {:induction false} PrefixBumped(m: Hours, b: int, d: int, h: int)
    requires b >= 0
    ensures Prefix(Bumped(m, b, d), h) == Prefix(m, h) + if b <= h then d else 0
    decreases Max(h + 1, 0)
  {
    if h >= 0 {
      PrefixBumped(m, b, d, h - 1);
    }
  }

  lemma {:induction false} PrefixGap(m: Hours, lo: int, hi: int)
    requires -1 <= lo <= hi
    requires forall b :: b in m ==> !(lo < b <= hi)
    ensures Prefix(m, hi) == Prefix(m, lo)
    decreases hi - lo
  {
    if lo < hi {
      PrefixGap(m, lo, hi - 1);
    }
  }

  function HourKey(): int -> seq<int> { (h: int) => [h] }

  /** `sorted(trend[k].items())` without the zero buckets. */
  method EmitPoints(m: Hours, cap: int) returns (points: seq<Point>)
    requires forall b :: b in m ==> 0 <= b < cap
    ensures Sparse(points, cap)
    ensures forall h :: PointSum(points, h) == Prefix(m, h)
  {
    var keys := Elements(m.Keys);
    var hours := SortBy(keys, HourKey());
    Ascending(keys);
    points := [];
    for n := 0 to |hours|
      invariant Emitted(points, m, hours[..n], cap)
    {
      ghost var before := points;
      if CountAt(m, hours[n]) != 0 {
        points := points + [Point(hours[n], CountAt(m, hours[n]))];
      }
      EmitStep(before, points, m, hours, n, cap);
    }
    assert hours[..|hours|] == hours;
    forall h ensures PointSum(points, h) == Prefix(m, h) {
      EmptyBetween(m, hours, |hours|, h);
    }
  }

  /** `points` lists the non-zero buckets among the hours `done`. */
  ghost predicate Emitted(points: seq<Point>, m: Hours, done: seq<int>, cap: int) {
    && Sparse(points, cap)
    && (forall i :: 0 <= i < |points| ==> points[i].hrs <= LastHour(done))
    && forall h :: PointSum(points, h) == Prefix(m, Min(h, LastHour(done)))
  }

  lemma EmitSum(before: seq<Point>, points: seq<Point>, m: Hours, hours: seq<int>, n: nat, h: int)
    requires n < |hours| && (forall b :: b in m ==> 0 <= b)
    requires forall x :: x in hours <==> x in m
    requires forall i, j :: 0 <= i < j < |hours| ==> hours[i] < hours[j]
    requires PointSum(before, h) == Prefix(m, Min(h, LastHour(hours[..n])))
    requires points == if CountAt(m, hours[n]) != 0 then before + [Point(hours[n], CountAt(m, hours[n]))] else before
    ensures PointSum(points, h) == Prefix(m, Min(h, hours[n]))
  {
    var b := hours[n];
    assert n > 0 ==> LastHour(hours[..n]) == hours[n-1] < b;
    EmptyBetween(m, hours, n, Min(h, b - 1));
    if CountAt(m, b) != 0 {
      assert points[..|points|-1] == before;
    }
  }

  lemma EmitStep(before: seq<Point>, points: seq<Point>, m: Hours, hours: seq<int>, n: nat, cap: int)
    requires n < |hours| && (forall b :: b in m ==> 0 <= b < cap)
    requires forall x :: x in hours <==> x in m
    requires forall i, j :: 0 <= i < j < |hours| ==> hours[i] < hours[j]
    requires Emitted(before, m, hours[..n], cap)
    requires points == if CountAt(m, hours[n]) != 0 then before + [Point(hours[n], CountAt(m, hours[n]))] else before
    ensures Emitted(points, m, hours[..n+1], cap)
  {
    assert LastHour(hours[..n+1]) == hours[n];
    assert hours[n] in hours;
    assert LastHour(hours[..n]) < hours[n];
    forall h ensures PointSum(points, h) == Prefix(m, Min(h, hours[n])) {
      EmitSum(before, points, m, hours, n, h);
    }
  }

  function LastHour(hours: seq<int>): int { if |hours| == 0 then -1 else hours[|hours|-1] }

  lemma Ascending(keys: seq<int>)
    requires Distinct(keys)
    ensures var hours := SortBy(keys, HourKey());
            && (forall x :: x in hours <==> x in keys)
            && forall i, j :: 0 <= i < j < |hours| ==> hours[i] < hours[j]
  {
    var hours := SortBy(keys, HourKey());
    SortBySorted(keys, HourKey());
    SortByDistinct(keys, HourKey());
    forall i, j | 0 <= i < j < |hours| ensures hours[i] < hours[j] {
      LexSingle(hours[i], hours[j]);
      assert LexLe(HourKey()(hours[i]), HourKey()(hours[j]));
    }
  }

  /** No bucket lies between one listed hour and the next. */
  lemma EmptyBetween(m: Hours, hours: seq<int>, n: nat, h: int)
    requires n <= |hours| && (forall b :: b in m ==> 0 <= b)
    requires forall x :: x in hours <==> x in m
    requires forall i, j :: 0 <= i < j < |hours| ==> hours[i] < hours[j]
    requires n < |hours| ==> h < hours[n]
    ensures Prefix(m, h) == Prefix(m, Min(h, LastHour(hours[..n])))
  {
    var lo := LastHour(hours[..n]);
    if lo < h {
      forall b | b in m ensures !(lo < b <= h) {
        var j :| 0 <= j < |hours| && hours[j] == b;
        if j < n {
          assert hours[..n][n-1] == hours[n-1];
        }
      }
      assert -1 <= lo by {
        if n > 0 {
          assert hours[..n][n-1] in m;
        }
      }
      PrefixGap(m, lo, h);
    }
  }

  /** `cells[k][bucket] += d` for every key of a set. */
  method BumpAll<K(==, !new)>(cells: map<K, Hours>, keys: set<K>, b: int, d: int) returns (r: map<K, Hours>)
    ensures r.Keys == cells.Keys + keys
    ensures forall k :: HoursOf(r, k) == if k in keys then Bumped(HoursOf(cells, k), b, d) else HoursOf(cells, k)
  {
    r := cells;
    var todo := keys;
    while todo != {}
      invariant todo <= keys
      invariant r.Keys == cells.Keys + (keys - todo)
      invariant forall k :: HoursOf(r, k) ==
                  if k in keys - todo then Bumped(HoursOf(cells, k), b, d) else HoursOf(cells, k)
    {
      var k :| k in todo;
      r := r[k := Bumped(HoursOf(r, k), b, d)];
      todo := todo - {k};
    }
  }

  // ---------- replaying one voter ----------

  /** The last ballot of an ordered list that is on record at the end of hour `h`. */
  ghost function LastOnRecord<I>(snaps: seq<Snapshot<I>>, w: Window, h: int): Option<Snapshot<I>> {
    if |snaps| == 0 then None
    else if OnRecord(snaps[|snaps|-1].at, w, h) then Some(snaps[|snaps|-1])
    else LastOnRecord(snaps[..|snaps|-1], w, h)
  }

  ghost predicate InOrder<I>(snaps: seq<Snapshot<I>>) {
    forall i, j :: 0 <= i < j < |snaps| ==> snaps[i].at <= snaps[j].at
  }

  function Ind(b: bool): int { if b then 1 else 0 }

  ghost predicate SomeNames<I, K>(snaps: seq<Snapshot<I>>, keysOf: I -> seq<K>, k: K) {
    exists i :: 0 <= i < |snaps| && Mentions(snaps[i].items, keysOf, k)
  }

  /** `cells` accounts for what `before` did plus the ballots `snaps` of one more voter. */
  ghost predicate Replayed<I(!new), K(!new)>(cells: map<K, Hours>, before: map<K, Hours>, snaps: seq<Snapshot<I>>,
                                             keysOf: I -> seq<K>, w: Window) {
    && (forall k :: k in cells <==> k in before || SomeNames(snaps, keysOf, k))
    && (forall k, h {:trigger Prefix(HoursOf(cells, k), h)} ::
          Prefix(HoursOf(cells, k), h) ==
            Prefix(HoursOf(before, k), h) + Ind(Names(LastOnRecord(snaps, w, h), keysOf, k)))
  }

  ghost predicate Bounded<K(!new)>(cells: map<K, Hours>, w: Window) {
    forall k, b :: k in cells && b in cells[k] ==> 0 <= b < HoursCap(w)
  }

  /** A key set holds exactly the keys of the last ballot of `snaps`. */
  ghost predicate KeysOfLast<I, K(!new)>(keys: set<K>, snaps: seq<Snapshot<I>>, keysOf: I -> seq<K>) {
    forall k :: k in keys <==> |snaps| != 0 && Mentions(snaps[|snaps|-1].items, keysOf, k)
  }

  /** The effect on `cells` of one set difference landing in bucket `b`. */
  ghost predicate Shifted<K(!new)>(r: map<K, Hours>, cells: map<K, Hours>, prev: set<K>, cur: set<K>, b: int) {
    && r.Keys == cells.Keys + (cur - prev) + (prev - cur)
    && forall k :: HoursOf(r, k) == if k in cur - prev then Bumped(HoursOf(cells, k), b, 1)
                                    else if k in prev - cur then Bumped(HoursOf(cells, k), b, -1)
                                    else HoursOf(cells, k)
  }

  method Diff<K(==, !new)>(cells: map<K, Hours>, prev: set<K>, cur: set<K>, b: int) returns (r: map<K, Hours>)
    ensures Shifted(r, cells, prev, cur, b)
  {
    r := BumpAll(cells, cur - prev, b, 1);
    r := BumpAll(r, prev - cur, b, -1);
  }

  /** One step of the replay: the difference between two ballots of a voter lands in the bucket of
      the newer one, and that is the change of the voter's ballot in force from that hour on. */
  lemma ReplayCount<I(!new), K(!new)>(r: map<K, Hours>, cells: map<K, Hours>, prev: set<K>, cur: set<K>,
                                      snaps: seq<Snapshot<I>>, s: Snapshot<I>, keysOf: I -> seq<K>, w: Window, k: K,
                                      h: int)
    requires Shifted(r, cells, prev, cur, Bucket(s.at, w))
    requires KeysOfLast(prev, snaps, keysOf) && KeysOfLast(cur, snaps + [s], keysOf)
    requires InOrder(snaps + [s])
    ensures Prefix(HoursOf(r, k), h) - Prefix(HoursOf(cells, k), h)
         == Ind(Names(LastOnRecord(snaps + [s], w, h), keysOf, k)) - Ind(Names(LastOnRecord(snaps, w, h), keysOf, k))
  {
    var b, next := Bucket(s.at, w), snaps + [s];
    assert next[..|snaps|] == snaps && next[|snaps|] == s;
    BucketIsClock(s.at, w, h);
    PrefixBumped(HoursOf(cells, k), b, 1, h);
    PrefixBumped(HoursOf(cells, k), b, -1, h);
    if b <= h && |snaps| != 0 {
      assert next[|snaps|-1] == snaps[|snaps|-1];
      BucketMonotone(snaps[|snaps|-1].at, s.at, w);
      BucketIsClock(snaps[|snaps|-1].at, w, h);
    }
  }

  lemma ReplayKeys<I(!new), K(!new)>(r: map<K, Hours>, cells: map<K, Hours>, before: map<K, Hours>, prev: set<K>,
                                     cur: set<K>, snaps: seq<Snapshot<I>>, s: Snapshot<I>, keysOf: I -> seq<K>, k: K)
    requires r.Keys == cells.Keys + (cur - prev) + (prev - cur)
    requires k in cells <==> k in before || SomeNames(snaps, keysOf, k)
    requires KeysOfLast(prev, snaps, keysOf) && KeysOfLast(cur, snaps + [s], keysOf)
    ensures k in r <==> k in before || SomeNames(snaps + [s], keysOf, k)
  {
    KeysSeen(snaps, s, keysOf, k);
    assert (snaps + [s])[|snaps|] == s;
    assert k in prev ==> SomeNames(snaps, keysOf, k);
  }

  lemma StaysBounded<K(!new)>(r: map<K, Hours>, cells: map<K, Hours>, prev: set<K>, cur: set<K>, at: int, w: Window)
    requires Shifted(r, cells, prev, cur, Bucket(at, w)) && Bounded(cells, w)
    ensures Bounded(r, w)
  {
    BucketIsClock(at, w, 0);
    forall k, c | k in r && c in r[k] ensures 0 <= c < HoursCap(w) {
      assert HoursOf(r, k) == r[k];
      assert c in HoursOf(cells, k) || c == Bucket(at, w);
    }
  }

  lemma ReplayStep<I(!new), K(!new)>(r: map<K, Hours>, cells: map<K, Hours>, before: map<K, Hours>, prev: set<K>,
                                     cur: set<K>, snaps: seq<Snapshot<I>>, s: Snapshot<I>, keysOf: I -> seq<K>,
                                     w: Window)
    requires Shifted(r, cells, prev, cur, Bucket(s.at, w))
    requires Replayed(cells, before, snaps, keysOf, w) && Bounded(cells, w)
    requires KeysOfLast(prev, snaps, keysOf) && KeysOfLast(cur, snaps + [s], keysOf)
    requires InOrder(snaps + [s])
    ensures Replayed(r, before, snaps + [s], keysOf, w) && Bounded(r, w)
  {
    var next := snaps + [s];
    forall k, h
      ensures Prefix(HoursOf(r, k), h) ==
              Prefix(HoursOf(before, k), h) + Ind(Names(LastOnRecord(next, w, h), keysOf, k))
    {
      ReplayCount(r, cells, prev, cur, snaps, s, keysOf, w, k, h);
    }
    forall k ensures k in r <==> k in before || SomeNames(next, keysOf, k) {
      ReplayKeys(r, cells, before, prev, cur, snaps, s, keysOf, k);
    }
    StaysBounded(r, cells, prev, cur, s.at, w);
  }

  lemma KeysSeen<I, K(!new)>(snaps: seq<Snapshot<I>>, s: Snapshot<I>, keysOf: I -> seq<K>, k: K)
    ensures SomeNames(snaps + [s], keysOf, k) <==> Mentions(s.items, keysOf, k) || SomeNames(snaps, keysOf, k)
  {
    var next := snaps + [s];
    assert next[|snaps|] == s && forall i :: 0 <= i < |snaps| ==> next[i] == snaps[i];
  }

  /** The keys of one ballot, and those of its items flagged first. */
  method BallotKeys<I(!new), K(==, !new)>(items: seq<I>, itemKeys: I -> seq<K>, firstFlag: I -> bool)
    returns (cur: set<K>, curFirst: set<K>)
    ensures forall k :: k in cur <==> Mentions(items, itemKeys, k)
    ensures forall k :: k in curFirst <==> Mentions(items, FirstKeys(itemKeys, firstFlag), k)
  {
    cur, curFirst := {}, {};
    for i := 0 to |items|
      invariant forall k :: k in cur <==> exists j :: 0 <= j < i && k in itemKeys(items[j])
      invariant forall k :: k in curFirst <==> exists j :: 0 <= j < i && k in FirstKeys(itemKeys, firstFlag)(items[j])
    {
      var keys := itemKeys(items[i]);
      cur := cur + set k | k in keys;
      if firstFlag(items[i]) {
        curFirst := curFirst + set k | k in keys;
      }
    }
  }

  lemma ReplayedNothing<I(!new), K(!new)>(cells: map<K, Hours>, keysOf: I -> seq<K>, w: Window)
    ensures Replayed(cells, cells, [], keysOf, w)
  {
    var none: seq<Snapshot<I>> := [];
    forall k, h ensures Ind(Names(LastOnRecord(none, w, h), keysOf, k)) == 0 {
      assert LastOnRecord(none, w, h).None?;
    }
    assert forall k :: !SomeNames(none, keysOf, k);
  }

  method ReplayVoter<I(!new), K(==, !new)>(snaps: seq<Snapshot<I>>, itemKeys: I -> seq<K>, firstFlag: I -> bool,
                                           w: Window, trend0: map<K, Hours>, first0: map<K, Hours>)
    returns (trend: map<K, Hours>, trendFirst: map<K, Hours>)
    requires InOrder(snaps) && Bounded(trend0, w) && Bounded(first0, w)
    ensures Replayed(trend, trend0, snaps, itemKeys, w) && Bounded(trend, w)
    ensures Replayed(trendFirst, first0, snaps, FirstKeys(itemKeys, firstFlag), w) && Bounded(trendFirst, w)
  {
    trend, trendFirst := trend0, first0;
    var prevKeys: set<K>, prevFirst: set<K> := {}, {};
    assert snaps[..0] == [];
    ReplayedNothing(trend0, itemKeys, w);
    ReplayedNothing(first0, FirstKeys(itemKeys, firstFlag), w);
    for n := 0 to |snaps|
      invariant Replayed(trend, trend0, snaps[..n], itemKeys, w) && Bounded(trend, w)
      invariant Replayed(trendFirst, first0, snaps[..n], FirstKeys(itemKeys, firstFlag), w) && Bounded(trendFirst, w)
      invariant KeysOfLast(prevKeys, snaps[..n], itemKeys)
      invariant KeysOfLast(prevFirst, snaps[..n], FirstKeys(itemKeys, firstFlag))
    {
      var bucket := Bucket(snaps[n].at, w);
      var curKeys, curFirst := BallotKeys(snaps[n].items, itemKeys, firstFlag);
      assert snaps[..n+1] == snaps[..n] + [snaps[n]];
      ghost var cells, cellsFirst := trend, trendFirst;
      trend := Diff(trend, prevKeys, curKeys, bucket);
      ReplayStep(trend, cells, trend0, prevKeys, curKeys, snaps[..n], snaps[n], itemKeys, w);
      trendFirst := Diff(trendFirst, prevFirst, curFirst, bucket);
      ReplayStep(trendFirst, cellsFirst, first0, prevFirst, curFirst, snaps[..n], snaps[n],
                 FirstKeys(itemKeys, firstFlag), w);
      prevKeys, prevFirst := curKeys, curFirst;
    }
    assert snaps[..|snaps|] == snaps;
  }

  // ---------- all voters ----------

  /** Inserting one ballot into the sorted list moves the last ballot on record exactly when the
      new one is on record and not older. */
  lemma {:induction false} InsertOnRecord<I>(snaps: seq<Snapshot<I>>, s: Snapshot<I>, w: Window, h: int)
    requires SortedBy(snaps, SnapshotKey())
    ensures LastOnRecord(Insert(snaps, s, SnapshotKey()), w, h)
         == var last := LastOnRecord(snaps, w, h);
            if OnRecord(s.at, w, h) && (last.None? || LexLe(SnapshotKey()(last.value), SnapshotKey()(s))) then Some(s)
              else last
  {
    if |snaps| != 0 {
      var y := snaps[|snaps|-1];
      if LexLe(SnapshotKey()(y), SnapshotKey()(s)) {
        assert (snaps + [s])[..|snaps|] == snaps;
        var last := LastOnRecord(snaps, w, h);
        if last.Some? {
          LastOnRecordIn(snaps, w, h);
          LexTotal(SnapshotKey()(y), SnapshotKey()(y));
          LexTransitive(SnapshotKey()(last.value), SnapshotKey()(y), SnapshotKey()(s));
        }
      } else {
        var r := Insert(snaps[..|snaps|-1], s, SnapshotKey());
        InsertOnRecord(snaps[..|snaps|-1], s, w, h);
        assert (r + [y])[..|r|] == r;
      }
    } else {
      assert ([] + [s])[..0] == [];
    }
  }

  lemma {:induction false} LastOnRecordIn<I>(snaps: seq<Snapshot<I>>, w: Window, h: int)
    ensures var last := LastOnRecord(snaps, w, h); last.Some? ==> last.value in snaps
  {
    if |snaps| != 0 {
      LastOnRecordIn(snaps[..|snaps|-1], w, h);
    }
  }

  /** Sorting a voter's ballots and looking for the last one on record finds the one in force. */
  lemma {:induction false} SortFindsInForce<I>(history: seq<Snapshot<I>>, v: string, w: Window, h: int)
    ensures LastOnRecord(SortBy(Filter(history, OfVoter(v)), SnapshotKey()), w, h) == InForce(history, v, w, h)
  {
    if |history| != 0 {
      var front, s := history[..|history|-1], history[|history|-1];
      var mine := Filter(front, OfVoter(v));
      SortFindsInForce(front, v, w, h);
      if s.voter == v {
        assert (mine + [s])[..|mine|] == mine;
        SortBySorted(mine, SnapshotKey());
        InsertOnRecord(SortBy(mine, SnapshotKey()), s, w, h);
      }
    }
  }

  /** The number of voters among `order` whose ballot in force at hour h names k. */
  ghost function VoterNames<I, K>(history: seq<Snapshot<I>>, keysOf: I -> seq<K>, k: K, w: Window,
                                  h: int): string -> bool {
    (v: string) => Names(InForce(history, v, w, h), keysOf, k)
  }

  /** The counters account for exactly the voters in `order`. */
  ghost predicate Accounts<I(!new), K(!new)>(cells: map<K, Hours>, history: seq<Snapshot<I>>, order: seq<string>,
                                             keysOf: I -> seq<K>, w: Window) {
    forall k, h {:trigger Prefix(HoursOf(cells, k), h)} ::
      Prefix(HoursOf(cells, k), h) == CountIf(order, VoterNames(history, keysOf, k, w, h))
  }

  /** Some ballot of one of the voters in `order` names `k`. */
  ghost predicate NamedBy<I, K>(history: seq<Snapshot<I>>, order: seq<string>, keysOf: I -> seq<K>, k: K) {
    exists i :: 0 <= i < |history| && history[i].voter in order && Mentions(history[i].items, keysOf, k)
  }

  lemma NamedOne<I(!new), K(!new)>(history: seq<Snapshot<I>>, order: seq<string>, v: string, keysOf: I -> seq<K>, k: K)
    ensures NamedBy(history, order + [v], keysOf, k) <==>
            NamedBy(history, order, keysOf, k) ||
              SomeNames(SortBy(Filter(history, OfVoter(v)), SnapshotKey()), keysOf, k)
  {
    var mine := Filter(history, OfVoter(v));
    var snaps := SortBy(mine, SnapshotKey());
    SortBySorted(mine, SnapshotKey());
    if i :| 0 <= i < |history| && history[i].voter == v && Mentions(history[i].items, keysOf, k) {
      assert OfVoter(v)(history[i]) && history[i] in mine;
      assert history[i] in snaps;
    }
    if i :| 0 <= i < |snaps| && Mentions(snaps[i].items, keysOf, k) {
      assert snaps[i] in mine;
      assert snaps[i] in history && OfVoter(v)(snaps[i]);
    }
  }

  lemma FirstKeysNamed<I, K>(items: seq<I>, itemKeys: I -> seq<K>, firstFlag: I -> bool, k: K)
    ensures Mentions(items, FirstKeys(itemKeys, firstFlag), k) ==> Mentions(items, itemKeys, k)
  {
  }

  lemma {:induction false} PrefixEmpty(h: int)
    ensures Prefix(map[], h) == 0
    decreases Max(h + 1, 0)
  {
    if h >= 0 {
      PrefixEmpty(h - 1);
    }
  }

  lemma AccountsNothing<I(!new), K(!new)>(history: seq<Snapshot<I>>, keysOf: I -> seq<K>, w: Window)
    ensures Accounts(map[], history, [], keysOf, w)
  {
    forall k: K, h ensures Prefix(HoursOf(map[], k), h) == CountIf([], VoterNames(history, keysOf, k, w, h)) {
      PrefixEmpty(h);
    }
  }

  lemma AccountOne<I(!new), K(!new)>(before: map<K, Hours>, cells: map<K, Hours>, history: seq<Snapshot<I>>,
                                     order: seq<string>, v: string, keysOf: I -> seq<K>, w: Window)
    requires Accounts(before, history, order, keysOf, w)
    requires Replayed(cells, before, SortBy(Filter(history, OfVoter(v)), SnapshotKey()), keysOf, w)
    ensures Accounts(cells, history, order + [v], keysOf, w)
  {
    var snaps := SortBy(Filter(history, OfVoter(v)), SnapshotKey());
    forall k, h ensures Prefix(HoursOf(cells, k), h) == CountIf(order + [v], VoterNames(history, keysOf, k, w, h)) {
      assert Prefix(HoursOf(before, k), h) == CountIf(order, VoterNames(history, keysOf, k, w, h));
      assert LastOnRecord(snaps, w, h) == InForce(history, v, w, h) by {
        SortFindsInForce(history, v, w, h);
      }
      CountIfSnoc(order, v, VoterNames(history, keysOf, k, w, h));
    }
  }

  lemma AccountsIsStanding<I(!new), K(!new)>(cells: map<K, Hours>, history: seq<Snapshot<I>>, order: seq<string>,
                                             keysOf: I -> seq<K>, w: Window)
    requires Accounts(cells, history, order, keysOf, w)
    requires Distinct(order) && (forall v :: v in order <==> v in VoterSet(history))
    ensures forall k, h :: Prefix(HoursOf(cells, k), h) == Standing(history, keysOf, k, w, h)
  {
    forall k, h ensures Prefix(HoursOf(cells, k), h) == Standing(history, keysOf, k, w, h) {
      var p := VoterNames(history, keysOf, k, w, h);
      CountIfIsCardinality(order, p);
      assert Selected(order, p) == Supporters(history, keysOf, k, w, h);
      assert Prefix(HoursOf(cells, k), h) == CountIf(order, p);
    }
  }

  /** Both counters account for the voters in `order`. */
  ghost predicate Tracked<I(!new), K(!new)>(trend: map<K, Hours>, trendFirst: map<K, Hours>,
                                            history: seq<Snapshot<I>>, order: seq<string>, itemKeys: I -> seq<K>,
                                            firstFlag: I -> bool, w: Window) {
    && Accounts(trend, history, order, itemKeys, w) && Bounded(trend, w) &&
    Accounts(trendFirst, history, order, FirstKeys(itemKeys, firstFlag), w) && Bounded(trendFirst, w) &&
    (forall k :: k in trend <==> NamedBy(history, order, itemKeys, k)) && (forall k :: k in trendFirst ==> k in trend)
  }

  lemma TrackOne<I(!new), K(!new)>(before: map<K, Hours>, beforeFirst: map<K, Hours>, trend: map<K, Hours>,
                                   trendFirst: map<K, Hours>, history: seq<Snapshot<I>>, order: seq<string>,
                                   v: string, itemKeys: I -> seq<K>, firstFlag: I -> bool, w: Window)
    requires Tracked(before, beforeFirst, history, order, itemKeys, firstFlag, w)
    requires Replayed(trend, before, SortBy(Filter(history, OfVoter(v)), SnapshotKey()), itemKeys, w) &&
             Bounded(trend, w)
    requires Replayed(trendFirst, beforeFirst, SortBy(Filter(history, OfVoter(v)), SnapshotKey()),
                      FirstKeys(itemKeys, firstFlag), w)
    requires Bounded(trendFirst, w)
    ensures Tracked(trend, trendFirst, history, order + [v], itemKeys, firstFlag, w)
  {
    var snaps := SortBy(Filter(history, OfVoter(v)), SnapshotKey());
    AccountOne(before, trend, history, order, v, itemKeys, w);
    AccountOne(beforeFirst, trendFirst, history, order, v, FirstKeys(itemKeys, firstFlag), w);
    forall k ensures k in trend <==> NamedBy(history, order + [v], itemKeys, k) {
      NamedOne(history, order, v, itemKeys, k);
    }
    forall k ensures SomeNames(snaps, FirstKeys(itemKeys, firstFlag), k) ==> SomeNames(snaps, itemKeys, k) {
      forall i | 0 <= i < |snaps| {
        FirstKeysNamed(snaps[i].items, itemKeys, firstFlag, k);
      }
    }
  }

  lemma TimelineOfCells<I(!new), K(!new)>(points: seq<Point>, cells: map<K, Hours>, history: seq<Snapshot<I>>,
                                          order: seq<string>, keysOf: I -> seq<K>, k: K, w: Window)
    requires Accounts(cells, history, order, keysOf, w)
    requires Distinct(order) && (forall v :: v in order <==> v in VoterSet(history))
    requires Sparse(points, HoursCap(w))
    requires forall h :: PointSum(points, h) == Prefix(HoursOf(cells, k), h)
    ensures IsTimeline(points, history, keysOf, k, w)
  {
    AccountsIsStanding(cells, history, order, keysOf, w);
    forall h ensures PointSum(points, h) == Standing(history, keysOf, k, w, h) {
      assert Prefix(HoursOf(cells, k), h) == Standing(history, keysOf, k, w, h);
    }
  }

  /** The replay of the whole history.  For every key the sparse list it returns is the timeline of
      that key's real standing; a key nobody ever named is absent. */
  method NetDeltaTrends<I(!new), K(==, !new)>(history: seq<Snapshot<I>>, itemKeys: I -> seq<K>, firstFlag: I -> bool,
                                              w: Window)
    returns (result: map<K, Timeline>)
    ensures forall k :: k in result <==> SomeNames(history, itemKeys, k)
    ensures forall k :: IsTimeline(TrendsFor(result, k).trend, history, itemKeys, k, w)
    ensures forall k :: IsTimeline(TrendsFor(result, k).trendFirst, history, FirstKeys(itemKeys, firstFlag), k, w)
  {
    var order, byVote := GroupBy(history, VoterOf());
    var trend: map<K, Hours>, trendFirst: map<K, Hours> := map[], map[];
    AccountsNothing(history, itemKeys, w);
    AccountsNothing(history, FirstKeys(itemKeys, firstFlag), w);
    assert order[..0] == [];
    for n := 0 to |order|
      invariant Tracked(trend, trendFirst, history, order[..n], itemKeys, firstFlag, w)
    {
      var v := order[n];
      assert Members(byVote, v) == Filter(history, OfVoter(v));
      var snapshots := SortBy(byVote[v], SnapshotKey());
      ghost var before, beforeFirst := trend, trendFirst;
      SortedInOrder(byVote[v]);
      trend, trendFirst := ReplayVoter(snapshots, itemKeys, firstFlag, w, trend, trendFirst);
      TrackOne(before, beforeFirst, trend, trendFirst, history, order[..n], v, itemKeys, firstFlag, w);
      assert order[..n+1] == order[..n] + [v];
    }
    assert order[..|order|] == order;
    result := EmitAll(trend, trendFirst, HoursCap(w));
    forall k ensures IsTimeline(TrendsFor(result, k).trend, history, itemKeys, k, w)
             ensures IsTimeline(TrendsFor(result, k).trendFirst, history, FirstKeys(itemKeys, firstFlag), k, w) {
      forall h {
        PrefixEmpty(h);
      }
      TimelineOfCells(TrendsFor(result, k).trend, trend, history, order, itemKeys, k, w);
      TimelineOfCells(TrendsFor(result, k).trendFirst, trendFirst, history, order, FirstKeys(itemKeys, firstFlag), k,
                      w);
    }
    forall k ensures k in result <==> SomeNames(history, itemKeys, k) {
      assert forall i :: 0 <= i < |history| ==> history[i].voter in order;
      assert k in trend <==> NamedBy(history, order, itemKeys, k);
    }
  }

  /** `result[k]` for every key either counter dictionary has seen. */
  method EmitAll<K(==, !new)>(trend: map<K, Hours>, trendFirst: map<K, Hours>, cap: int)
      returns (result: map<K, Timeline>)
    requires forall k, b :: k in trend && b in trend[k] ==> 0 <= b < cap
    requires forall k, b :: k in trendFirst && b in trendFirst[k] ==> 0 <= b < cap
    ensures result.Keys == trend.Keys + trendFirst.Keys
    ensures forall k :: k in result ==> Sparse(result[k].trend, cap) && Sparse(result[k].trendFirst, cap)
    ensures forall k, h :: k in result ==> PointSum(result[k].trend, h) == Prefix(HoursOf(trend, k), h)
    ensures forall k, h :: k in result ==> PointSum(result[k].trendFirst, h) == Prefix(HoursOf(trendFirst, k), h)
  {
    result := map[];
    var todo := trend.Keys + trendFirst.Keys;
    while todo != {}
      invariant todo <= trend.Keys + trendFirst.Keys
      invariant result.Keys == trend.Keys + trendFirst.Keys - todo
      invariant forall k :: k in result ==> Sparse(result[k].trend, cap) && Sparse(result[k].trendFirst, cap)
      invariant forall k, h :: k in result ==> PointSum(result[k].trend, h) == Prefix(HoursOf(trend, k), h)
      invariant forall k, h :: k in result ==> PointSum(result[k].trendFirst, h) == Prefix(HoursOf(trendFirst, k), h)
    {
      var k :| k in todo;
      var points := EmitPoints(HoursOf(trend, k), cap);
      var firsts := EmitPoints(HoursOf(trendFirst, k), cap);
      result := result[k := Timeline(points, firsts)];
      todo := todo - {k};
    }
  }

  lemma SortedInOrder<I>(snaps: seq<Snapshot<I>>)
    ensures InOrder(SortBy(snaps, SnapshotKey()))
  {
    SortBySorted(snaps, SnapshotKey());
    var s := SortBy(snaps, SnapshotKey());
    forall i, j | 0 <= i < j < |s| ensures s[i].at <= s[j].at {
      assert LexLe(SnapshotKey()(s[i]), SnapshotKey()(s[j]));
    }
  }

  /** A key that never occurs has the empty pair. */
  function TrendsFor<K>(trends: map<K, Timeline>, k: K): Timeline {
    if k in trends then trends[k] else Timeline([], [])
  }
}
