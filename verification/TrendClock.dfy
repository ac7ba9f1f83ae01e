/** The clock of the timeline in microseconds (src/apps/result/trend.py): which hour a ballot lands in, and
    which ballot is in force when. */
module TrendClock {
  import opened Prelude
  import opened Trend

  /** Inside the window a ballot lands in the hour it was cast in, counted from the start. */
  lemma BucketHour(at: int, w: Window, b: int)
    requires w.start <= at < w.start + Max(w.totalHours, 1) * 3_600_000_000
    ensures Bucket(at, w) == b <==> w.start + b * 3_600_000_000 <= at < w.start + (b + 1) * 3_600_000_000
  {
  }

  /** Outside it lands in the first or the last hour. */
  lemma BucketOutside(at: int, w: Window)
    ensures at < w.start ==> Bucket(at, w) == 0
    ensures at >= w.start + Max(w.totalHours, 1) * 3_600_000_000 ==> Bucket(at, w) == Max(w.totalHours, 1) - 1
  {
  }

  /** On record at the end of hour `h` is what was cast before the clock shows the next full hour, and in the
      last hour everything. */
  lemma OnRecordHour(at: int, w: Window, h: int)
    ensures OnRecord(at, w, h) <==>
            h >= 0 && (at < w.start + (h + 1) * 3_600_000_000 || h >= Max(w.totalHours, 1) - 1)
  {
  }

  /** Cast by the voter, and on record. */
  predicate Eligible<I>(s: Snapshot<I>, v: string, w: Window, h: int) { s.voter == v && OnRecord(s.at, w, h) }

  /** The ballot in force is the one with the latest time, among those with the greatest attempt. */
  lemma {:induction false} InForceIsLatest<I>(history: seq<Snapshot<I>>, v: string, w: Window, h: int)
    ensures InForce(history, v, w, h).None? <==> forall s :: s in history ==> !Eligible(s, v, w, h)
    ensures var best := InForce(history, v, w, h);
            best.Some? ==>
              && best.value in history && Eligible(best.value, v, w, h)
              && forall s :: s in history && Eligible(s, v, w, h) ==>
                   s.at < best.value.at || (s.at == best.value.at && s.attempt <= best.value.attempt)
  {
    if |history| != 0 {
      var front, last := history[..|history|-1], history[|history|-1];
      InForceIsLatest(front, v, w, h);
      assert history == front + [last];
      assert last in history && forall s :: s in front ==> s in history;
      var best := InForce(front, v, w, h);
      if best.Some? {
        KeyOrder(best.value, last);
        assert best.value in history;
      }
    }
  }

  lemma KeyOrder<I>(a: Snapshot<I>, b: Snapshot<I>)
    ensures LexLe(SnapshotKey()(a), SnapshotKey()(b)) <==> a.at < b.at || (a.at == b.at && a.attempt <= b.attempt)
  {
    LexSingle(a.attempt, b.attempt);
    assert SnapshotKey()(a)[1..] == [a.attempt] && SnapshotKey()(b)[1..] == [b.attempt];
  }

  /** A favourite counts for the keys of the flagged items only. */
  lemma FirstMentions<I, K>(items: seq<I>, itemKeys: I -> seq<K>, firstFlag: I -> bool, k: K)
    ensures Mentions(items, FirstKeys(itemKeys, firstFlag), k) <==>
            exists i :: 0 <= i < |items| && firstFlag(items[i]) && k in itemKeys(items[i])
  {
    if i :| 0 <= i < |items| && firstFlag(items[i]) && k in itemKeys(items[i]) {
      assert k in FirstKeys(itemKeys, firstFlag)(items[i]);
    }
  }

  /** Whatever satisfies the contract of the timeline: no point lies outside the window, and none is empty. */
  lemma PointsInWindow<I(!new), K>(points: seq<Point>, history: seq<Snapshot<I>>, keysOf: I -> seq<K>, k: K, w: Window,
                                   p: Point)
    requires IsTimeline(points, history, keysOf, k, w) && p in points
    ensures 0 <= p.hrs < Max(w.totalHours, 1) && p.cnt != 0
  {
  }

  lemma OneSnapshot<I>(s: Snapshot<I>, v: string, w: Window, h: int)
    ensures InForce([s], v, w, h) == if Eligible(s, v, w, h) then Some(s) else None
  {
    assert [s][..0] == [];
  }

  /** Whatever satisfies the contract of the timeline: a single ballot is a single point, one vote in the hour
      the clock shows. */
  lemma OneBallotOnePoint<I(!new), K>(points: seq<Point>, s: Snapshot<I>, keysOf: I -> seq<K>, k: K, w: Window, b: int)
    requires IsTimeline(points, [s], keysOf, k, w) && Mentions(s.items, keysOf, k)
    requires w.start <= s.at < w.start + Max(w.totalHours, 1) * 3_600_000_000
    requires w.start + b * 3_600_000_000 <= s.at < w.start + (b + 1) * 3_600_000_000
    ensures points == [Point(b, 1)]
  {
    var one := [Point(b, 1)];
    BucketHour(s.at, w, b);
    BucketIsClock(s.at, w, 0);
    assert VoterOf()([s][0]) in VoterSet([s]);
    forall h ensures PointSum(one, h) == PointSum(points, h) {
      assert one[..0] == [];
      BucketIsClock(s.at, w, h);
      OneSnapshot(s, s.voter, w, h);
      var supporters := Supporters([s], keysOf, k, w, h);
      assert supporters == if b <= h then {s.voter} else {};
      assert PointSum(points, h) == Standing([s], keysOf, k, w, h);
    }
    TimelineUnique(one, points, HoursCap(w));
  }
}
