/** Metric history: grouping signals into series, thinning each series, and ordering the answer. */
module Metrics {
  import opened Wrap
  import Recency
  import Text

  // ---- Thinning one series ----

  /** Where the k-th of m buckets over n points begins. */
  function Bound(k: nat, n: nat, m: nat): nat
    requires m > 0
  {
    k * n / m
  }

  function CeilDiv(n: nat, m: nat): nat
    requires m > 0
  {
    (n + m - 1) / m
  }

  lemma DivBounds(a: nat, m: nat)
    requires m > 0
    ensures a / m * m <= a < (a / m + 1) * m
  {
    assert a == a / m * m + a % m;
  }

  /** A quotient is determined by its two bounds. */
  lemma QuotientAtLeast(a: nat, m: nat, q: nat)
    requires m > 0
    ensures q * m <= a ==> q <= a / m
    ensures a < (q + 1) * m ==> a / m <= q
  {
    DivBounds(a, m);
    var d := a / m;
    if d < q {
      ScaleMono(d + 1, q, m);
    }
    if q < d {
      ScaleMono(q + 1, d, m);
    }
  }

  lemma ScaleMono(x: nat, y: nat, m: nat)
    requires x <= y
    ensures x * m <= y * m
  {
    assert y * m == x * m + (y - x) * m;
  }

  lemma BucketFloor(k: nat, n: nat, m: nat)
    requires m > 0
    ensures Bound(k, n, m) + n / m <= Bound(k + 1, n, m)
  {
    var lo, q := Bound(k, n, m), n / m;
    DivBounds(k * n, m);
    DivBounds(n, m);
    assert (k + 1) * n == k * n + n;
    assert (lo + q) * m == lo * m + q * m;
    QuotientAtLeast((k + 1) * n, m, lo + q);
  }

  lemma CeilCovers(n: nat, m: nat)
    requires m > 0
    ensures n <= CeilDiv(n, m) * m
  {
    DivBounds(n + m - 1, m);
    var c := CeilDiv(n, m);
    assert (c + 1) * m == c * m + m;
  }

  lemma BucketCeiling(k: nat, n: nat, m: nat)
    requires m > 0
    ensures Bound(k + 1, n, m) <= Bound(k, n, m) + CeilDiv(n, m)
  {
    var lo, c := Bound(k, n, m), CeilDiv(n, m);
    DivBounds(k * n, m);
    CeilCovers(n, m);
    assert (k + 1) * n == k * n + n;
    assert (lo + c + 1) * m == (lo + 1) * m + c * m;
    QuotientAtLeast((k + 1) * n, m, lo + c);
  }

  lemma BucketEnds(n: nat, m: nat)
    requires m > 0
    ensures Bound(0, n, m) == 0 && Bound(m, n, m) == n
  {
    assert m * n == n * m && (n + 1) * m == n * m + m;
    QuotientAtLeast(m * n, m, n);
  }

  /** Every bucket holds the floor or the ceiling of n / m points; the first starts at 0 and the last ends at n. */
  lemma BucketSize(k: nat, n: nat, m: nat)
    requires m > 0
    ensures n / m <= Bound(k + 1, n, m) - Bound(k, n, m) <= CeilDiv(n, m)
    ensures Bound(0, n, m) == 0 && Bound(m, n, m) == n
  {
    BucketFloor(k, n, m);
    BucketCeiling(k, n, m);
    BucketEnds(n, m);
  }

  lemma BoundWithin(k: nat, n: nat, m: nat)
    requires m > 0 && k <= m
    ensures Bound(k, n, m) <= n
  {
    ScaleMono(k, m, n);
    assert (n + 1) * m == m * n + m;
    QuotientAtLeast(k * n, m, n);
  }

  /** With more points than buckets none is empty, and each stays within the points. */
  lemma BucketHolds(k: nat, n: nat, m: nat)
    requires 0 < m < n && k < m
    ensures 0 <= Bound(k, n, m) < Bound(k + 1, n, m) <= n
    ensures Bound(k + 1, n, m) - Bound(k, n, m) <= CeilDiv(n, m)
    ensures Bound(0, n, m) == 0 && Bound(m, n, m) == n
  {
    BucketSize(k, n, m);
    BoundWithin(k + 1, n, m);
    QuotientAtLeast(n, m, 1);
  }

  /** Which points a thinning keeps: strictly increasing positions that leave no gap longer than
      the ceiling of n / m, start within the first gap, and end at the newest point. */
  ghost predicate Spread(positions: seq<nat>, n: nat, m: nat)
    requires m > 0
  {
    && |positions| == m
    && (forall k :: 0 <= k < m ==> positions[k] < n)
    && (forall k :: 0 < k < m ==> 0 < positions[k] - positions[k - 1] <= CeilDiv(n, m))
    && positions[0] < CeilDiv(n, m)
    && positions[m - 1] == n - 1
  }

  /** The positions picked by the first k buckets. */
  ghost predicate SpreadUpTo(positions: seq<nat>, n: nat, m: nat, k: nat)
    requires m > 0
  {
    && |positions| == k
    && (forall i :: 0 <= i < k ==> positions[i] < n)
    && (forall i :: 0 < i < k ==> 0 < positions[i] - positions[i - 1] <= CeilDiv(n, m))
    && (k > 0 ==> positions[0] < CeilDiv(n, m) && positions[k - 1] == Bound(k, n, m) - 1)
  }

  lemma SpreadStep(positions: seq<nat>, n: nat, m: nat, k: nat)
    requires k < m < n && SpreadUpTo(positions, n, m, k)
    ensures 0 <= Bound(k, n, m) < Bound(k + 1, n, m) <= n
    ensures SpreadUpTo(positions + [Bound(k + 1, n, m) - 1], n, m, k + 1)
  {
    BucketHolds(k, n, m);
  }

  lemma SpreadDone(positions: seq<nat>, n: nat, m: nat)
    requires 0 < m < n && SpreadUpTo(positions, n, m, m)
    ensures Spread(positions, n, m)
  {
    BucketHolds(0, n, m);
  }

  /** The points at the given positions. */
  function At<T>(points: seq<T>, positions: seq<nat>): (r: seq<T>)
    requires forall k :: 0 <= k < |positions| ==> positions[k] < |points|
    ensures |r| == |positions| && forall k :: 0 <= k < |r| ==> r[k] == points[positions[k]]
  {
    seq(|positions|, k requires 0 <= k < |positions| => points[positions[k]])
  }

  ghost predicate IsThinning<T(!new)>(points: seq<T>, m: nat, result: seq<T>)
    requires m > 0
  {
    exists positions :: Spread(positions, |points|, m) && result == At(points, positions)
  }

  /** The first k buckets have each given one point. */
  ghost predicate Picked<T>(points: seq<T>, m: nat, k: nat, positions: seq<nat>, result: seq<T>)
    requires m > 0
  {
    SpreadUpTo(positions, |points|, m, k) && result == At(points, positions)
  }

  lemma PickStep<T>(points: seq<T>, m: nat, k: nat, positions: seq<nat>, result: seq<T>)
    requires k < m < |points| && Picked(points, m, k, positions, result)
    ensures 0 <= Bound(k, |points|, m) < Bound(k + 1, |points|, m) <= |points|
    ensures var last := Bound(k + 1, |points|, m) - 1;
            Picked(points, m, k + 1, positions + [last], result + [points[last]])
  {
    SpreadStep(positions, |points|, m, k);
  }

  lemma PickDone<T(!new)>(points: seq<T>, m: nat, positions: seq<nat>, result: seq<T>)
    requires 0 < m < |points| && Picked(points, m, m, positions, result)
    ensures IsThinning(points, m, result)
  {
    SpreadDone(positions, |points|, m);
  }

  /** One point per bucket; the branch that skips an empty bucket is never taken. */
  method Downsample<T(!new)>(points: seq<T>, maxPoints: int) returns (result: seq<T>)
    ensures maxPoints <= 0 || |points| <= maxPoints ==> result == points
    ensures 0 < maxPoints < |points| ==> IsThinning(points, maxPoints, result)
  {
    var n := |points|;
    if maxPoints <= 0 || n <= maxPoints {
      return points;
    }
    result := [];
    ghost var positions: seq<nat> := [];
    for bucket := 0 to maxPoints
      invariant Picked(points, maxPoints, bucket, positions, result)
    {
      var start := Bound(bucket, n, maxPoints);
      var end := Bound(bucket + 1, n, maxPoints);
      PickStep(points, maxPoints, bucket, positions, result);
      if end <= start {
        assert false;
      }
      result := result + [points[end - 1]];
      positions := positions + [end - 1];
    }
    PickDone(points, maxPoints, positions, result);
  }

  lemma {:induction false} PositionsClimb(positions: seq<nat>, n: nat, m: nat, i: nat, j: nat)
    requires m > 0 && Spread(positions, n, m) && i < j < m
    ensures positions[i] < positions[j]
    decreases j
  {
    if i < j - 1 {
      PositionsClimb(positions, n, m, i, j - 1);
    }
  }

  /** Points at climbing positions are part of the whole. */
  lemma {:induction false} PartOf<T>(points: seq<T>, positions: seq<nat>)
    requires forall k :: 0 <= k < |positions| ==> positions[k] < |points|
    requires forall i, j :: 0 <= i < j < |positions| ==> positions[i] < positions[j]
    ensures multiset(At(points, positions)) <= multiset(points)
    decreases |positions|
  {
    if positions != [] {
      var last := |positions| - 1;
      var p := positions[last];
      var before := positions[..last];
      PartOf(points[..p], before);
      assert At(points, positions) == At(points[..p], before) + [points[p]];
      assert points == points[..p] + [points[p]] + points[p + 1..];
    }
  }

  // ---- Snapshots ----

  datatype Signal = Signal(
    name: string, serviceId: string, serviceType: string, streamId: string, status: string, value: Option<real>,
    attributes: string, timestamp: int, createdAt: int)

  datatype Point = Point(
    name: string, serviceId: string, serviceType: string, streamId: string, status: string, value: real,
    attributes: string, updatedAt: int)

  const DEFAULT_MAX_POINTS := 360

  function Cap(maxPoints: int): (cap: nat)
    ensures cap > 0
  {
    if maxPoints <= 0 then DEFAULT_MAX_POINTS else maxPoints
  }

  function SeriesKey(serviceId: string, serviceType: string, streamId: string, name: string): string {
    serviceId + "\0" + (serviceType + "\0" + (streamId + "\0" + name))
  }

  function KeyOf(p: Point): string {
    SeriesKey(p.serviceId, p.serviceType, p.streamId, p.name)
  }

  /** Points of two different series never share a key when their identifiers are free of NUL. */
  lemma SeriesKeyInjective(p: Point, q: Point)
    requires '\0' !in p.serviceId + p.serviceType + p.streamId && '\0' !in q.serviceId + q.serviceType + q.streamId
    requires KeyOf(p) == KeyOf(q)
    ensures p.serviceId == q.serviceId && p.serviceType == q.serviceType && p.streamId == q.streamId && p.name == q.name
  {
    var zero := '\0';
    forall x | x in [p, q]
      ensures zero !in x.serviceId && zero !in x.serviceType && zero !in x.streamId
    {
      var all := x.serviceId + x.serviceType + x.streamId;
      assert forall c :: c in x.serviceId || c in x.serviceType || c in x.streamId ==> c in all;
    }
    assert p in [p, q] && q in [p, q];
    var ps, qs := p.streamId + [zero] + p.name, q.streamId + [zero] + q.name;
    Text.SplitUnique(p.serviceId, p.serviceType + [zero] + ps, q.serviceId, q.serviceType + [zero] + qs, zero);
    Text.SplitUnique(p.serviceType, ps, q.serviceType, qs, zero);
    Text.SplitUnique(p.streamId, p.name, q.streamId, q.name, zero);
  }

  function When(s: Signal): int {
    if s.timestamp == Recency.ZERO_TIME then s.createdAt else s.timestamp
  }

  predicate IsEligible(s: Signal, since: int) {
    s.value.Some? && (since == Recency.ZERO_TIME || since <= When(s))
  }

  function PointOf(s: Signal): Point
    requires s.value.Some?
  {
    Point(s.name, s.serviceId, s.serviceType, s.streamId, s.status, s.value.value, s.attributes, When(s))
  }

  function Eligible(signals: seq<Signal>, since: int): seq<Point> {
    if signals == [] then []
    else
      var s := signals[|signals| - 1];
      Eligible(signals[..|signals| - 1], since) + if IsEligible(s, since) then [PointOf(s)] else []
  }

  function OfKey(points: seq<Point>, key: string): seq<Point> {
    if points == [] then []
    else
      var p := points[|points| - 1];
      OfKey(points[..|points| - 1], key) + if KeyOf(p) == key then [p] else []
  }

  lemma OfKeySnoc(points: seq<Point>, p: Point, key: string)
    ensures OfKey(points + [p], key) == OfKey(points, key) + if KeyOf(p) == key then [p] else []
  {
    assert (points + [p])[..|points|] == points;
  }

  lemma {:induction false} OfKeyConcat(a: seq<Point>, b: seq<Point>, key: string)
    ensures OfKey(a + b, key) == OfKey(a, key) + OfKey(b, key)
  {
    if b == [] {
      assert a + b == a;
    } else {
      var last := |b| - 1;
      OfKeyConcat(a, b[..last], key);
      assert a + b == a + b[..last] + [b[last]] && b == b[..last] + [b[last]];
      OfKeySnoc(a + b[..last], b[last], key);
      OfKeySnoc(b[..last], b[last], key);
    }
  }

  lemma {:induction false} OfKeyCount(points: seq<Point>, key: string, p: Point)
    ensures multiset(OfKey(points, key))[p] == if KeyOf(p) == key then multiset(points)[p] else 0
  {
    if points != [] {
      var last := |points| - 1;
      OfKeyCount(points[..last], key, p);
      assert points == points[..last] + [points[last]];
    }
  }

  /** All points of one series, or none of them. */
  lemma {:induction false} OfKeyPure(points: seq<Point>, key: string, other: string)
    requires forall p :: p in points ==> KeyOf(p) == key
    ensures OfKey(points, other) == if other == key then points else []
  {
    if points != [] {
      var last := |points| - 1;
      OfKeyPure(points[..last], key, other);
      assert points == points[..last] + [points[last]];
    }
  }

  predicate Earlier(p: Point, q: Point) {
    p.updatedAt < q.updatedAt
  }

  predicate Precedes(p: Point, q: Point) {
    p.updatedAt < q.updatedAt || (p.updatedAt == q.updatedAt && Text.Less(p.serviceId + p.name, q.serviceId + q.name))
  }

  /** A strict order in which being unordered is transitive: what a comparison sort needs. */
  ghost predicate WeakOrder(before: (Point, Point) -> bool) {
    && (forall p, q :: before(p, q) ==> !before(q, p))
    && (forall p, q, r :: before(p, r) ==> before(p, q) || before(q, r))
  }

  lemma OrdersAreWeak()
    ensures WeakOrder(Earlier) && WeakOrder(Precedes)
  {
    forall p: Point, q: Point
      ensures Precedes(p, q) ==> !Precedes(q, p)
    {
      Text.LessTotal(p.serviceId + p.name, q.serviceId + q.name);
    }
    forall p: Point, q: Point, r: Point | Precedes(p, r)
      ensures Precedes(p, q) || Precedes(q, r)
    {
      var a, b, c := p.serviceId + p.name, q.serviceId + q.name, r.serviceId + r.name;
      Text.LessTotal(a, b);
      if Text.Less(b, a) && Text.Less(a, c) {
        Text.LessTransitive(b, a, c);
      }
    }
  }

  ghost predicate Ordered(points: seq<Point>, before: (Point, Point) -> bool) {
    forall i, j :: 0 <= i < j < |points| ==> !before(points[j], points[i])
  }

  ghost predicate IsSortOf(sorted: seq<Point>, points: seq<Point>, before: (Point, Point) -> bool) {
    multiset(sorted) == multiset(points) && Ordered(sorted, before)
  }

  /** Some sorted arrangement; the order of unordered points is not part of the contract. */
  method Sort(points: seq<Point>, before: (Point, Point) -> bool) returns (sorted: seq<Point>)
    requires WeakOrder(before)
    ensures IsSortOf(sorted, points, before)
  {
    sorted := [];
    for n := 0 to |points|
      invariant IsSortOf(sorted, points[..n], before)
    {
      var p := points[n];
      var k := 0;
      while k < |sorted| && !before(p, sorted[k])
        invariant k <= |sorted|
        invariant forall i :: 0 <= i < k ==> !before(p, sorted[i])
      {
        k := k + 1;
      }
      assert points[..n + 1] == points[..n] + [p];
      InsertSorts(sorted, points[..n], p, k, before);
      sorted := sorted[..k] + [p] + sorted[k..];
    }
    assert points[..|points|] == points;
  }

  lemma InsertSorts(sorted: seq<Point>, points: seq<Point>, p: Point, k: nat, before: (Point, Point) -> bool)
    requires WeakOrder(before) && IsSortOf(sorted, points, before) && k <= |sorted|
    requires forall i :: 0 <= i < k ==> !before(p, sorted[i])
    requires k < |sorted| ==> before(p, sorted[k])
    ensures IsSortOf(sorted[..k] + [p] + sorted[k..], points + [p], before)
  {
    assert sorted == sorted[..k] + sorted[k..];
    forall i | k <= i < |sorted|
      ensures !before(sorted[i], p)
    {
      var here, first := sorted[i], sorted[k];
      assert before(here, p) ==> before(here, first) || before(first, p);
    }
    InsertOrdered(sorted, p, k, before);
  }

  lemma InsertOrdered(sorted: seq<Point>, p: Point, k: nat, before: (Point, Point) -> bool)
    requires Ordered(sorted, before) && k <= |sorted|
    requires forall i :: 0 <= i < k ==> !before(p, sorted[i])
    requires forall i :: k <= i < |sorted| ==> !before(sorted[i], p)
    ensures Ordered(sorted[..k] + [p] + sorted[k..], before)
  {
    var r := sorted[..k] + [p] + sorted[k..];
    forall i, j | 0 <= i < j < |r|
      ensures !before(r[j], r[i])
    {
      assert i != k ==> r[i] == sorted[if i < k then i else i - 1];
      assert j != k ==> r[j] == sorted[if j < k then j else j - 1];
    }
  }

  /** Some arrangement of a series by time, thinned when the series exceeds the cap. */
  ghost predicate IsThinSort(all: seq<Point>, sorted: seq<Point>, thin: seq<Point>, cap: nat)
    requires cap > 0
  {
    IsSortOf(sorted, all, Earlier) && if |all| <= cap then thin == sorted else IsThinning(sorted, cap, thin)
  }

  /** What becomes of the points of one series. */
  ghost predicate Thinned(all: seq<Point>, kept: multiset<Point>, cap: nat)
    requires cap > 0
  {
    exists sorted, thin :: IsThinSort(all, sorted, thin, cap) && kept == multiset(thin)
  }

  lemma ThinningLaws(sorted: seq<Point>, cap: nat, thin: seq<Point>)
    requires 0 < cap < |sorted| && IsThinning(sorted, cap, thin)
    ensures |thin| == cap && multiset(thin) <= multiset(sorted) && thin[cap - 1] == sorted[|sorted| - 1]
  {
    var positions :| Spread(positions, |sorted|, cap) && thin == At(sorted, positions);
    forall a, b | 0 <= a < b < cap
      ensures positions[a] < positions[b]
    {
      PositionsClimb(positions, |sorted|, cap, a, b);
    }
    PartOf(sorted, positions);
  }

  lemma SameSize(a: seq<Point>, b: seq<Point>)
    requires multiset(a) == multiset(b)
    ensures |a| == |b|
  {
    assert |multiset(a)| == |a| && |multiset(b)| == |b|;
  }

  lemma NewestLast(all: seq<Point>, sorted: seq<Point>, p: Point)
    requires IsSortOf(sorted, all, Earlier) && p in all
    ensures sorted != [] && p.updatedAt <= sorted[|sorted| - 1].updatedAt && sorted[|sorted| - 1] in all
  {
    assert p in multiset(sorted);
    var i :| 0 <= i < |sorted| && sorted[i] == p;
    assert i < |sorted| - 1 ==> !Earlier(sorted[|sorted| - 1], sorted[i]);
    assert sorted[|sorted| - 1] in multiset(sorted);
    assert sorted[|sorted| - 1] in multiset(all);
  }

  /** A series keeps the smaller of its size and the cap, only points of its own, and a newest one. */
  lemma ThinnedLaws(all: seq<Point>, kept: multiset<Point>, cap: nat)
    requires cap > 0 && Thinned(all, kept, cap)
    ensures |kept| == if |all| <= cap then |all| else cap
    ensures kept <= multiset(all)
    ensures |all| <= cap ==> kept == multiset(all)
    ensures all != [] ==> exists q :: q in kept && q in all && forall p :: p in all ==> p.updatedAt <= q.updatedAt
  {
    var sorted: seq<Point>, thin: seq<Point> :| IsThinSort(all, sorted, thin, cap) && kept == multiset(thin);
    SameSize(sorted, all);
    assert |multiset(thin)| == |thin|;
    if |all| > cap {
      ThinningLaws(sorted, cap, thin);
    }
    if all != [] {
      var q := sorted[|sorted| - 1];
      assert q == thin[|thin| - 1] && q in multiset(thin);
      NewestLast(all, sorted, all[0]);
      forall p | p in all
        ensures p.updatedAt <= q.updatedAt
      {
        NewestLast(all, sorted, p);
      }
    }
  }

  lemma NothingToThin(cap: nat)
    requires cap > 0
    ensures Thinned([], multiset{}, cap)
  {
    var none: seq<Point> := [];
    assert IsThinSort(none, none, none, cap) && multiset(none) == multiset{};
  }

  /** Each series holds its points in the order they came. */
  ghost predicate Grouped(series: map<string, seq<Point>>, points: seq<Point>) {
    forall key :: OfKey(points, key) == if key in series then series[key] else []
  }

  lemma GroupSnoc(series: map<string, seq<Point>>, points: seq<Point>, p: Point)
    requires Grouped(series, points)
    ensures var key := KeyOf(p);
            Grouped(series[key := (if key in series then series[key] else []) + [p]], points + [p])
  {
    forall other
      ensures OfKey(points + [p], other) == OfKey(points, other) + if KeyOf(p) == other then [p] else []
    {
      OfKeySnoc(points, p, other);
    }
  }

  lemma EligibleSnoc(signals: seq<Signal>, s: Signal, since: int)
    ensures Eligible(signals + [s], since) == if IsEligible(s, since) then Eligible(signals, since) + [PointOf(s)] else Eligible(signals, since)
  {
    assert (signals + [s])[..|signals|] == signals;
  }

  method GroupSeries(signals: seq<Signal>, since: int) returns (series: map<string, seq<Point>>)
    ensures Grouped(series, Eligible(signals, since))
  {
    series := map[];
    for n := 0 to |signals|
      invariant Grouped(series, Eligible(signals[..n], since))
    {
      var s := signals[n];
      assert signals[..n + 1] == signals[..n] + [s];
      EligibleSnoc(signals[..n], s, since);
      if s.value.None? {
        continue;
      }
      var updatedAt := s.timestamp;
      if updatedAt == Recency.ZERO_TIME {
        updatedAt := s.createdAt;
      }
      if since != Recency.ZERO_TIME && updatedAt < since {
        continue;
      }
      var point := Point(s.name, s.serviceId, s.serviceType, s.streamId, s.status, s.value.value, s.attributes, updatedAt);
      var key := SeriesKey(s.serviceId, s.serviceType, s.streamId, s.name);
      GroupSnoc(series, Eligible(signals[..n], since), point);
      series := series[key := (if key in series then series[key] else []) + [point]];
    }
    assert signals[..|signals|] == signals;
  }

  lemma KeysOfKey(points: seq<Point>, key: string, p: Point)
    requires p in OfKey(points, key)
    ensures KeyOf(p) == key && p in points
  {
    OfKeyCount(points, key, p);
    assert multiset(OfKey(points, key))[p] > 0;
    assert multiset(points)[p] > 0;
  }

  /** The kept points of a series all carry its key. */
  lemma ThinnedKeys(points: seq<Point>, key: string, kept: seq<Point>, cap: nat)
    requires cap > 0 && Thinned(OfKey(points, key), multiset(kept), cap)
    ensures forall p :: p in kept ==> KeyOf(p) == key
  {
    var all := OfKey(points, key);
    ThinnedLaws(all, multiset(kept), cap);
    forall p | p in kept
      ensures KeyOf(p) == key
    {
      assert p in multiset(kept) && p in multiset(all);
      KeysOfKey(points, key, p);
    }
  }

  lemma OfKeyPermuted(a: seq<Point>, b: seq<Point>, key: string)
    requires multiset(a) == multiset(b)
    ensures multiset(OfKey(a, key)) == multiset(OfKey(b, key))
  {
    forall p
      ensures multiset(OfKey(a, key))[p] == multiset(OfKey(b, key))[p]
    {
      OfKeyCount(a, key, p);
      OfKeyCount(b, key, p);
    }
  }

  /** The pending series have no point in the answer yet and every other series is thinned into it. */
  ghost predicate Gathered(all: seq<Point>, out: seq<Point>, pending: set<string>, cap: nat)
    requires cap > 0
  {
    forall key :: if key in pending then OfKey(out, key) == [] else SeriesThinned(all, out, cap, key)
  }

  ghost predicate SeriesThinned(all: seq<Point>, out: seq<Point>, cap: nat, key: string)
    requires cap > 0
  {
    Thinned(OfKey(all, key), multiset(OfKey(out, key)), cap)
  }

  lemma GatherNone(all: seq<Point>, keys: set<string>, cap: nat)
    requires cap > 0 && forall key :: key !in keys ==> OfKey(all, key) == []
    ensures Gathered(all, [], keys, cap)
  {
    NothingToThin(cap);
    var none: seq<Point> := [];
    assert multiset(none) == multiset{};
    forall key | key !in keys
      ensures SeriesThinned(all, none, cap, key)
    {
    }
  }

  lemma GatherOne(out: seq<Point>, key: string, thin: seq<Point>, other: string)
    requires OfKey(out, key) == [] && forall p :: p in thin ==> KeyOf(p) == key
    ensures OfKey(out + thin, other) == if other == key then thin else OfKey(out, other)
  {
    OfKeyConcat(out, thin, other);
    OfKeyPure(thin, key, other);
    if other == key {
      assert [] + thin == thin;
    } else {
      assert OfKey(out, other) + [] == OfKey(out, other);
    }
  }

  lemma GatherSeries(all: seq<Point>, out: seq<Point>, pending: set<string>, cap: nat, key: string, thin: seq<Point>)
    requires cap > 0 && Gathered(all, out, pending, cap) && key in pending
    requires Thinned(OfKey(all, key), multiset(thin), cap)
    ensures Gathered(all, out + thin, pending - {key}, cap)
  {
    ThinnedKeys(all, key, thin, cap);
    assert OfKey(out, key) == [];
    forall other
      ensures if other in pending - {key} then OfKey(out + thin, other) == [] else SeriesThinned(all, out + thin, cap, other)
    {
      GatherOne(out, key, thin, other);
      assert other !in pending ==> SeriesThinned(all, out, cap, other);
    }
  }

  lemma GatherPermuted(all: seq<Point>, out: seq<Point>, cap: nat, sorted: seq<Point>)
    requires cap > 0 && Gathered(all, out, {}, cap) && multiset(sorted) == multiset(out)
    ensures Gathered(all, sorted, {}, cap)
  {
    forall key
      ensures SeriesThinned(all, sorted, cap, key)
    {
      OfKeyPermuted(sorted, out, key);
      assert SeriesThinned(all, out, cap, key);
    }
  }

  method ThinSeries(points: seq<Point>, cap: nat) returns (thin: seq<Point>)
    requires cap > 0
    ensures Thinned(points, multiset(thin), cap)
  {
    OrdersAreWeak();
    thin := Sort(points, Earlier);
    SameSize(thin, points);
    ghost var sorted := thin;
    if |thin| > cap {
      thin := Downsample(thin, cap);
    }
    assert IsThinSort(points, sorted, thin, cap);
  }

  /** The answer is in time order, at one time by the service and name run together, and of every series it holds exactly a thinning, to 360 points
      unless the caller asks for a positive number of them. */
  method MetricSnapshots(signals: seq<Signal>, since: int, maxPoints: int) returns (out: seq<Point>)
    ensures forall i, j :: 0 <= i < j < |out| ==> out[i].updatedAt <= out[j].updatedAt
    ensures forall i, j :: 0 <= i < j < |out| && out[i].updatedAt == out[j].updatedAt ==>
                             !Text.Less(out[j].serviceId + out[j].name, out[i].serviceId + out[i].name)
    ensures Gathered(Eligible(signals, since), out, {}, if maxPoints > 0 then maxPoints else 360)
  {
    var cap := Cap(maxPoints);
    var series := GroupSeries(signals, since);
    ghost var all := Eligible(signals, since);
    var pending := series.Keys;
    GatherNone(all, pending, cap);
    out := [];
    while pending != {}
      invariant pending <= series.Keys
      invariant Gathered(all, out, pending, cap)
      decreases pending
    {
      var key :| key in pending;
      var thin := ThinSeries(series[key], cap);
      assert series[key] == OfKey(all, key);
      GatherSeries(all, out, pending, cap, key, thin);
      pending := pending - {key};
      out := out + thin;
    }
    OrdersAreWeak();
    ghost var gathered := out;
    out := Sort(out, Precedes);
    GatherPermuted(all, gathered, cap, out);
    InTimeOrder(out);
  }

  lemma InTimeOrder(out: seq<Point>)
    requires Ordered(out, Precedes)
    ensures forall i, j :: 0 <= i < j < |out| ==> out[i].updatedAt <= out[j].updatedAt
    ensures forall i, j :: 0 <= i < j < |out| && out[i].updatedAt == out[j].updatedAt ==>
                             !Text.Less(out[j].serviceId + out[j].name, out[i].serviceId + out[i].name)
  {
    forall i, j | 0 <= i < j < |out|
      ensures out[i].updatedAt <= out[j].updatedAt
      ensures out[i].updatedAt == out[j].updatedAt ==> !Text.Less(out[j].serviceId + out[j].name, out[i].serviceId + out[i].name)
    {
      assert !Precedes(out[j], out[i]);
    }
  }

  /** Of an answer: no point occurs more often than it was reported, every series holds the smaller of its
      size and the cap, and no eligible point is newer than all the kept points of its series. */
  lemma SnapshotLaws(all: seq<Point>, out: seq<Point>, cap: nat, p: Point)
    requires cap > 0 && Gathered(all, out, {}, cap)
    ensures multiset(out)[p] <= multiset(all)[p]
    ensures var key := KeyOf(p); |OfKey(out, key)| == if |OfKey(all, key)| <= cap then |OfKey(all, key)| else cap
    ensures p in all ==> exists q :: q in out && KeyOf(q) == KeyOf(p) && p.updatedAt <= q.updatedAt
  {
    var key := KeyOf(p);
    var mine, kept := OfKey(all, key), OfKey(out, key);
    OfKeyCount(all, key, p);
    OfKeyCount(out, key, p);
    assert SeriesThinned(all, out, cap, key);
    ThinnedLaws(mine, multiset(kept), cap);
    assert |multiset(kept)| == |kept|;
    if p in all {
      assert p in multiset(all);
      assert p in multiset(mine);
      assert p in mine;
      var q :| q in multiset(kept) && q in mine && forall r :: r in mine ==> r.updatedAt <= q.updatedAt;
      KeysOfKey(out, key, q);
    }
  }
}
