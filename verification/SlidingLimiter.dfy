/** The in-memory rate limiter: per key a log of recent grants, compacted in place on every call. */
module SlidingLimiter {
  import Sums

  // ---- The history it stands for ----

  datatype Grant = Grant(key: string, time: int)

  function Live(times: seq<int>, cutoff: int): seq<int> {
    if times == [] then []
    else
      var last := times[|times| - 1];
      Live(times[..|times| - 1], cutoff) + if last > cutoff then [last] else []
  }

  function Times(grants: seq<Grant>, key: string): seq<int> {
    if grants == [] then []
    else
      var last := grants[|grants| - 1];
      Times(grants[..|grants| - 1], key) + if last.key == key then [last.time] else []
  }

  function Recent(grants: seq<Grant>, key: string, cutoff: int): seq<int> {
    Live(Times(grants, key), cutoff)
  }

  function LiveKeys(grants: seq<Grant>, cutoff: int): set<string> {
    set i | 0 <= i < |grants| && grants[i].time > cutoff :: grants[i].key
  }

  /** The answer, told from the history alone. */
  predicate Allows(grants: seq<Grant>, key: string, now: int, burst: int, window: int, maxBuckets: int) {
    var recent := |Recent(grants, key, now - window)|;
    recent < burst && !(recent == 0 && maxBuckets > 0 && |LiveKeys(grants, now - window)| >= maxBuckets)
  }

  // ---- Facts about filtering ----

  lemma {:induction false} LiveSnoc(times: seq<int>, t: int, cutoff: int)
    ensures Live(times + [t], cutoff) == Live(times, cutoff) + if t > cutoff then [t] else []
  {
    assert (times + [t])[..|times|] == times;
  }

  lemma {:induction false} LiveLive(times: seq<int>, low: int, high: int)
    requires low <= high
    ensures Live(Live(times, low), high) == Live(times, high)
  {
    if times != [] {
      var init, last := times[..|times| - 1], times[|times| - 1];
      LiveLive(init, low, high);
      LiveSnoc(Live(init, low), last, high);
      assert Live(init, low) + [] == Live(init, low);
    }
  }

  lemma {:induction false} LiveShrinks(times: seq<int>, low: int, high: int)
    requires low <= high
    ensures |Live(times, high)| <= |Live(times, low)| <= |times|
  {
    if times != [] {
      LiveShrinks(times[..|times| - 1], low, high);
    }
  }

  lemma {:induction false} LiveMember(times: seq<int>, cutoff: int, t: int)
    ensures t in Live(times, cutoff) <==> t in times && t > cutoff
  {
    if times != [] {
      LiveMember(times[..|times| - 1], cutoff, t);
      assert times == times[..|times| - 1] + [times[|times| - 1]];
    }
  }

  lemma {:induction false} TimesMember(grants: seq<Grant>, key: string, t: int)
    ensures t in Times(grants, key) <==> Grant(key, t) in grants
  {
    if grants != [] {
      TimesMember(grants[..|grants| - 1], key, t);
      assert grants == grants[..|grants| - 1] + [grants[|grants| - 1]];
    }
  }

  lemma LiveKeysRecent(grants: seq<Grant>, cutoff: int, key: string)
    ensures key in LiveKeys(grants, cutoff) <==> Recent(grants, key, cutoff) != []
  {
    var recent := Recent(grants, key, cutoff);
    if recent != [] {
      LiveMember(Times(grants, key), cutoff, recent[0]);
      TimesMember(grants, key, recent[0]);
      var i :| 0 <= i < |grants| && grants[i] == Grant(key, recent[0]);
      assert grants[i].time > cutoff && grants[i].key == key;
    }
    if key in LiveKeys(grants, cutoff) {
      var i :| 0 <= i < |grants| && grants[i].time > cutoff && grants[i].key == key;
      assert grants[i] == Grant(key, grants[i].time) && grants[i] in grants;
      TimesMember(grants, key, grants[i].time);
      LiveMember(Times(grants, key), cutoff, grants[i].time);
    }
  }

  // ---- The bound, over every run with a non-decreasing clock ----

  datatype Call = Call(key: string, now: int)

  function GrantLog(calls: seq<Call>, burst: int, window: int, maxBuckets: int): seq<Grant> {
    if calls == [] then []
    else
      var log, c := GrantLog(calls[..|calls| - 1], burst, window, maxBuckets), calls[|calls| - 1];
      if Allows(log, c.key, c.now, burst, window, maxBuckets) then log + [Grant(c.key, c.now)] else log
  }

  /** How many of these times fall in the half-open interval after `low` up to and including `high`. */
  function CountIn(times: seq<int>, low: int, high: int): nat {
    if times == [] then 0
    else CountIn(times[..|times| - 1], low, high) + if low < times[|times| - 1] <= high then 1 else 0
  }

  lemma {:induction false} CountInLive(times: seq<int>, low: int, high: int)
    ensures CountIn(times, low, high) <= |Live(times, low)|
  {
    if times != [] {
      CountInLive(times[..|times| - 1], low, high);
    }
  }

  lemma {:induction false} CountInSnoc(times: seq<int>, t: int, low: int, high: int)
    ensures CountIn(times + [t], low, high) == CountIn(times, low, high) + if low < t <= high then 1 else 0
  {
    assert (times + [t])[..|times|] == times;
  }

  lemma TimesSnoc(grants: seq<Grant>, g: Grant, key: string)
    ensures Times(grants + [g], key) == Times(grants, key) + if g.key == key then [g.time] else []
  {
    assert (grants + [g])[..|grants|] == grants;
  }

  lemma GrantWithin(log: seq<Grant>, c: Call, burst: int, window: int, maxBuckets: int, key: string, at: int)
    requires Allows(log, c.key, c.now, burst, window, maxBuckets)
    requires CountIn(Times(log, key), at - window, at) <= if burst > 0 then burst else 0
    ensures CountIn(Times(log + [Grant(c.key, c.now)], key), at - window, at) <= if burst > 0 then burst else 0
  {
    var times := Times(log, key);
    TimesSnoc(log, Grant(c.key, c.now), key);
    if c.key == key {
      CountInSnoc(times, c.now, at - window, at);
      if at - window < c.now <= at {
        CountInLive(times, at - window, at);
        LiveShrinks(times, c.now - window, at - window);
      }
    } else {
      assert times + [] == times;
    }
  }

  /** Any interval one window long contains at most `burst` grants to one key. */
  lemma {:induction false} WindowBound(calls: seq<Call>, burst: int, window: int, maxBuckets: int, key: string, at: int)
    ensures CountIn(Times(GrantLog(calls, burst, window, maxBuckets), key), at - window, at) <= if burst > 0 then burst else 0
  {
    if calls != [] {
      var init, c := calls[..|calls| - 1], calls[|calls| - 1];
      WindowBound(init, burst, window, maxBuckets, key, at);
      var log := GrantLog(init, burst, window, maxBuckets);
      if Allows(log, c.key, c.now, burst, window, maxBuckets) {
        GrantWithin(log, c, burst, window, maxBuckets, key, at);
      }
    }
  }

  // ---- The limiter itself ----

  /** Keep the recent hits among the first `len` cells, writing over the front of the same array
      while reading it; returns how many are kept. */
  method CompactInPlace(data: array<int>, len: nat, cutoff: int) returns (n: nat)
    requires len <= data.Length
    modifies data
    ensures n <= len
    ensures data[..n] == Live(old(data[..len]), cutoff)
  {
    n := 0;
    ghost var was, kept: seq<int> := data[..], [];
    for i := 0 to len
      invariant n == |kept| <= i
      invariant forall j :: 0 <= j < n ==> data[j] == kept[j]
      invariant kept == Live(was[..i], cutoff)
      invariant forall j :: i <= j < data.Length ==> data[j] == was[j]
    {
      assert was[..i + 1] == was[..i] + [was[i]];
      LiveSnoc(was[..i], was[i], cutoff);
      if data[i] > cutoff {
        kept := kept + [data[i]];
        data[n] := data[i];
        n := n + 1;
      }
    }
    assert was[..len] == old(data[..len]);
    assert data[..n] == kept;
  }

  /** One bucket's hits, compacted through its backing array. */
  method Compact(hits: seq<int>, cutoff: int) returns (kept: seq<int>)
    ensures kept == Live(hits, cutoff)
  {
    var data := new int[|hits|](i requires 0 <= i < |hits| => hits[i]);
    assert data[..|hits|] == hits;
    var n := CompactInPlace(data, |hits|, cutoff);
    kept := data[..n];
  }

  lemma RecentSnoc(grants: seq<Grant>, g: Grant, k: string, cutoff: int)
    ensures Recent(grants + [g], k, cutoff) == Recent(grants, k, cutoff) + if g.key == k && g.time > cutoff then [g.time] else []
  {
    TimesSnoc(grants, g, k);
    if g.key == k {
      LiveSnoc(Times(grants, k), g.time, cutoff);
    } else {
      assert Times(grants, k) + [] == Times(grants, k);
    }
  }

  type Buckets = map<string, seq<int>>

  function Bucket(hits: Buckets, k: string): seq<int> {
    if k in hits then hits[k] else []
  }

  /** The buckets hold exactly the part of the history later than the cutoff. */
  ghost predicate Holds(hits: Buckets, history: seq<Grant>, cutoff: int) {
    forall k :: Bucket(hits, k) == Recent(history, k, cutoff)
  }

  lemma LaterHolds(before: Buckets, after: Buckets, history: seq<Grant>, from: int, limit: int)
    requires Holds(before, history, from) && from <= limit
    requires forall k :: Bucket(after, k) == Live(Bucket(before, k), limit)
    ensures Holds(after, history, limit)
  {
    forall k
      ensures Bucket(after, k) == Recent(history, k, limit)
    {
      LiveLive(Times(history, k), from, limit);
    }
  }

  lemma KeysAreLive(hits: Buckets, history: seq<Grant>, limit: int)
    requires Holds(hits, history, limit) && forall k :: k in hits ==> hits[k] != []
    ensures hits.Keys == LiveKeys(history, limit)
  {
    forall k
      ensures k in hits <==> k in LiveKeys(history, limit)
    {
      assert Bucket(hits, k) == Recent(history, k, limit);
      LiveKeysRecent(history, limit, k);
    }
  }

  lemma GrantHolds(hits: Buckets, history: seq<Grant>, limit: int, key: string, now: int)
    requires Holds(hits, history, limit) && limit < now
    ensures Holds(hits[key := Bucket(hits, key) + [now]], history + [Grant(key, now)], limit)
  {
    forall k
      ensures Bucket(hits[key := Bucket(hits, key) + [now]], k) == Recent(history + [Grant(key, now)], k, limit)
    {
      assert Bucket(hits, k) == Recent(history, k, limit);
      RecentSnoc(history, Grant(key, now), k, limit);
    }
  }

  /** The buckets still to do are as before, the others hold their recent hits and none of them is empty. */
  ghost predicate PartlyCompacted(before: Buckets, now: Buckets, todo: set<string>, limit: int) {
    && todo <= now.Keys <= before.Keys
    && (forall k :: k in todo ==> now[k] == before[k])
    && (forall k :: k !in todo ==> Bucket(now, k) == Live(Bucket(before, k), limit) && (k in now ==> now[k] != []))
  }

  lemma CompactOne(before: Buckets, now: Buckets, todo: set<string>, limit: int, k: string, kept: seq<int>)
    requires PartlyCompacted(before, now, todo, limit) && k in todo && kept == Live(now[k], limit)
    ensures PartlyCompacted(before, if kept == [] then now - {k} else now[k := kept], todo - {k}, limit)
  {
    var next := if kept == [] then now - {k} else now[k := kept];
    assert Bucket(next, k) == kept;
    forall j | j != k
      ensures Bucket(next, j) == Bucket(now, j)
    {
    }
  }

  /** What a limiter keeps between calls. */
  ghost predicate Keeps(hits: Buckets, grants: seq<Grant>, cutoff: int, burst: int, maxBuckets: int) {
    && Holds(hits, grants, cutoff)
    && (maxBuckets > 0 ==> |hits| <= maxBuckets)
    && (burst <= 0 ==> grants == [])
  }

  /** The buckets right after compaction: one per key with a recent grant. */
  ghost predicate Compacted(hits: Buckets, grants: seq<Grant>, limit: int, burst: int, maxBuckets: int) {
    Keeps(hits, grants, limit, burst, maxBuckets) && hits.Keys == LiveKeys(grants, limit)
  }

  lemma DenyKeeps(hits: Buckets, grants: seq<Grant>, limit: int, burst: int, maxBuckets: int, key: string)
    requires Compacted(hits, grants, limit, burst, maxBuckets) && |Bucket(hits, key)| >= burst
    ensures Keeps(hits[key := Bucket(hits, key)], grants, limit, burst, maxBuckets)
  {
    KeepHolds(hits, grants, limit, key);
    var next := hits[key := Bucket(hits, key)];
    if key in hits {
      assert next == hits;
    } else {
      assert |next| == |hits| + 1;
      assert hits == map[];
    }
  }

  lemma GrantKeeps(hits: Buckets, grants: seq<Grant>, limit: int, burst: int, maxBuckets: int, key: string, now: int)
    requires Compacted(hits, grants, limit, burst, maxBuckets) && |Bucket(hits, key)| < burst && limit < now
    requires maxBuckets > 0 && Bucket(hits, key) == [] ==> |hits| < maxBuckets
    ensures Keeps(hits[key := Bucket(hits, key) + [now]], grants + [Grant(key, now)], limit, burst, maxBuckets)
  {
    GrantHolds(hits, grants, limit, key, now);
    var next := hits[key := Bucket(hits, key) + [now]];
    assert next.Keys == hits.Keys + {key};
    assert |next.Keys| == |next| && |hits.Keys| == |hits|;
  }

  class RateLimiter {
    const burst: int
    const window: int
    const maxBuckets: int
    var hits: Buckets

    /** Every grant so far, and the cutoff of the last call. */
    ghost var grants: seq<Grant>
    ghost var cutoff: int

    ghost predicate Valid()
      reads this
    {
      window > 0 && Keeps(hits, grants, cutoff, burst, maxBuckets)
    }

    constructor (burst: int, window: int, maxBuckets: int, ghost start: int)
      requires window > 0
      ensures Valid() && grants == [] && cutoff == start
      ensures this.burst == burst && this.window == window && this.maxBuckets == maxBuckets
    {
      this.burst, this.window, this.maxBuckets := burst, window, maxBuckets;
      hits, grants, cutoff := map[], [], start;
    }

    /** The compaction loop over all buckets; a bucket that empties is dropped. */
    method CompactAll(limit: int)
      modifies this`hits
      ensures hits.Keys <= old(hits).Keys
      ensures forall k :: Bucket(hits, k) == Live(Bucket(old(hits), k), limit)
      ensures forall k :: k in hits ==> hits[k] != []
    {
      var todo := hits.Keys;
      while todo != {}
        invariant PartlyCompacted(old(hits), hits, todo, limit)
        decreases todo
      {
        var candidate :| candidate in todo;
        var kept := Compact(hits[candidate], limit);
        CompactOne(old(hits), hits, todo, limit, candidate, kept);
        todo := todo - {candidate};
        if |kept| == 0 {
          hits := hits - {candidate};
          continue;
        }
        hits := hits[candidate := kept];
      }
    }

    /** Both compactions: every bucket, then the caller's own once more. */
    method Refresh(key: string, limit: int) returns (kept: seq<int>)
      requires Holds(hits, grants, cutoff) && cutoff <= limit
      modifies this`hits
      ensures Holds(hits, grants, limit) && hits.Keys == LiveKeys(grants, limit) && |hits| <= |old(hits)|
      ensures kept == Recent(grants, key, limit) == Bucket(hits, key)
    {
      CompactAll(limit);
      LaterHolds(old(hits), hits, grants, cutoff, limit);
      KeysAreLive(hits, grants, limit);
      Sums.CardSubset(hits.Keys, old(hits).Keys);
      assert Bucket(hits, key) == Recent(grants, key, limit);
      LiveLive(Times(grants, key), limit, limit);
      kept := Compact(if key in hits then hits[key] else [], limit);
    }

    /** A request is granted exactly when the history says so, and the buckets keep telling it. */
    method AllowMemory(key: string, now: int) returns (ok: bool)
      requires Valid()
      requires cutoff <= now - window  // the clock does not run backwards
      modifies this
      ensures Valid() && cutoff == now - window
      ensures ok == Allows(old(grants), key, now, burst, window, maxBuckets)
      ensures grants == old(grants) + if ok then [Grant(key, now)] else []
    {
      var limit := now - window;
      var kept := Refresh(key, limit);
      cutoff := limit;
      assert Compacted(hits, grants, limit, burst, maxBuckets);
      if |kept| >= burst {
        DenyKeeps(hits, grants, limit, burst, maxBuckets, key);
        hits := hits[key := kept];
        return false;
      }
      if |kept| == 0 && maxBuckets > 0 && |hits| >= maxBuckets {
        return false;
      }
      GrantKeeps(hits, grants, limit, burst, maxBuckets, key, now);
      kept := kept + [now];
      hits := hits[key := kept];
      grants := grants + [Grant(key, now)];
      return true;
    }
  }

  lemma KeepHolds(hits: Buckets, history: seq<Grant>, limit: int, key: string)
    requires Holds(hits, history, limit)
    ensures Holds(hits[key := Bucket(hits, key)], history, limit)
  {
    forall k
      ensures Bucket(hits[key := Bucket(hits, key)], k) == Recent(history, k, limit)
    {
      assert Bucket(hits, k) == Recent(history, k, limit);
    }
  }

  // ---- The answer by counting grants ----

  /** The grants to a key later than a cutoff, by position. */
  function GrantedSince(grants: seq<Grant>, key: string, cutoff: int): set<nat> {
    set i: nat | i < |grants| && grants[i].key == key && grants[i].time > cutoff
  }

  lemma {:induction false} RecentCounts(grants: seq<Grant>, key: string, cutoff: int)
    ensures |Recent(grants, key, cutoff)| == |GrantedSince(grants, key, cutoff)|
  {
    if grants == [] {
      assert GrantedSince(grants, key, cutoff) == {};
    } else {
      var last := |grants| - 1;
      var init := grants[..last];
      RecentCounts(init, key, cutoff);
      RecentSnoc(init, grants[last], key, cutoff);
      assert grants == init + [grants[last]];
      var before := GrantedSince(init, key, cutoff);
      assert last !in before;
      assert GrantedSince(grants, key, cutoff)
          == before + if grants[last].key == key && grants[last].time > cutoff then {last} else {};
    }
  }

  /** A request is granted exactly when its key has fewer than `burst` grants in the last window, unless it has none and as many other
      keys as there may be buckets have one. */
  lemma GrantedIff(grants: seq<Grant>, key: string, now: int, burst: int, window: int, maxBuckets: int)
    ensures var mine := |GrantedSince(grants, key, now - window)|;
            var others := set i | 0 <= i < |grants| && grants[i].time > now - window && grants[i].key != key :: grants[i].key;
            Allows(grants, key, now, burst, window, maxBuckets)
            <==> mine < burst && (mine > 0 || maxBuckets <= 0 || |others| < maxBuckets)
  {
    RecentCounts(grants, key, now - window);
    LiveKeysRecent(grants, now - window, key);
    var others := set i | 0 <= i < |grants| && grants[i].time > now - window && grants[i].key != key :: grants[i].key;
    assert LiveKeys(grants, now - window) - {key} == others;
  }
}
