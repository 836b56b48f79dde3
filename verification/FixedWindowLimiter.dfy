/** The shared rate limiter: one counter row per key in a table, for aligned windows. Times are
    nanoseconds since the epoch; the table's time columns keep whole seconds. */
module FixedWindowLimiter {
  import opened Wrap

  const SECOND := 1_000_000_000

  /** Go's remainder: the sign of the dividend. */
  function GoRem(a: int, b: int): int
    requires b > 0
  {
    if a >= 0 then a % b else -((-a) % b)
  }

  function WindowStart(now: int, window: int): int {
    if window <= 0 then now else now - GoRem(now, window)
  }

  /** The greatest multiple of the window that does not exceed a time. */
  function Aligned(t: int, window: int): int
    requires window > 0
  {
    t / window * window
  }

  lemma AlignedFacts(t: int, window: int)
    requires window > 0
    ensures Aligned(t, window) % window == 0 && Aligned(t, window) <= t < Aligned(t, window) + window
    ensures Aligned(t, window) == t - t % window
  {
    MultipleMod(t / window, window);
  }

  lemma {:induction false} MultipleMod(k: int, w: int)
    requires w > 0
    ensures (k * w) % w == 0
  {
    DivUnique(k * w, w, k, 0);
  }

  lemma DivUnique(t: int, w: int, q: int, r: int)
    requires w > 0 && t == q * w + r && 0 <= r < w
    ensures t / w == q && t % w == r
  {
    var d := t / w - q;
    assert t == (t / w) * w + t % w;
    assert d * w == r - t % w;
    assert d > 0 ==> d * w >= w;
    assert d < 0 ==> d * w <= -w;
  }

  /** The computed start is the aligned one exactly for times that are not negative or fall on a boundary. */
  lemma WindowStartIsAligned(now: int, window: int)
    requires window > 0
    ensures WindowStart(now, window) == Aligned(now, window) <==> now >= 0 || now % window == 0
  {
    AlignedFacts(now, window);
    if now < 0 {
      AlignedFacts(-now, window);
      var q, r := (-now) / window, (-now) % window;
      if r == 0 {
        assert now == (-q) * window + 0;
        DivUnique(now, window, -q, 0);
      } else {
        assert now == (-q - 1) * window + (window - r);
        DivUnique(now, window, -q - 1, window - r);
      }
    }
  }

  lemma MultipleMonotone(a: int, b: int, w: int)
    requires w > 0 && a <= b
    ensures a * w <= b * w
  {
  }

  lemma MultipleNext(a: int, w: int)
    ensures (a + 1) * w == a * w + w
  {
  }

  lemma AlignedMonotone(s: int, t: int, window: int)
    requires window > 0 && s <= t
    ensures Aligned(s, window) <= Aligned(t, window)
  {
    AlignedFacts(s, window);
    AlignedFacts(t, window);
    var a, b := s / window, t / window;
    MultipleNext(b, window);
    if a > b {
      MultipleMonotone(b + 1, a, window);
    }
  }

  /** What a time column keeps of a time. */
  function Column(t: int): int {
    Aligned(t, SECOND)
  }

  datatype Row = Row(windowStart: int, hits: int, updatedAt: int)

  type Table = map<string, Row>

  function Cleaned(rows: Table, before: int): Table {
    map k | k in rows && rows[k].updatedAt >= before :: rows[k]
  }

  /** The refusal of a malformed request. */
  predicate Malformed(key: string, window: int, burst: int) {
    key == "" || window <= 0 || burst <= 0
  }

  /** The effect of one request on a row that may be missing. */
  function Counted(row: Option<Row>, start: int, burst: int, now: int): (Row, bool) {
    if row.None? || row.value.windowStart != start then (Row(Column(start), 1, Column(now)), true)
    else if row.value.hits >= burst then (row.value.(updatedAt := Column(now)), false)
    else (row.value.(hits := row.value.hits + 1, updatedAt := Column(now)), true)
  }

  function RowOf(rows: Table, key: string): Option<Row> {
    if key in rows then Some(rows[key]) else None
  }

  class MariaLimiter {
    var rows: Table

    constructor ()
      ensures rows == map[]
    {
      rows := map[];
    }

    /** One committed transaction. */
    method AllowRateLimit(key: string, window: int, burst: int, now: int) returns (ok: bool)
      modifies this
      ensures (rows, ok) == Answer(old(rows), key, window, burst, now)
    {
      if key == "" || window <= 0 || burst <= 0 {
        return false;
      }
      var start := WindowStart(now, window);
      rows := map k | k in rows && !(rows[k].updatedAt < start - 2 * window) :: rows[k];
      assert rows == Cleaned(old(rows), start - 2 * window);
      if key !in rows {
        rows := rows[key := Row(Column(start), 1, Column(now))];
        return true;
      }
      if rows[key].windowStart != start {
        rows := rows[key := Row(Column(start), 1, Column(now))];
        return true;
      }
      if rows[key].hits >= burst {
        rows := rows[key := rows[key].(updatedAt := Column(now))];
        return false;
      }
      rows := rows[key := rows[key].(hits := rows[key].hits + 1, updatedAt := Column(now))];
      return true;
    }
  }

  function Answer(rows: Table, key: string, window: int, burst: int, now: int): (Table, bool) {
    if Malformed(key, window, burst) then (rows, false)
    else
      var start := WindowStart(now, window);
      var cleaned := Cleaned(rows, start - 2 * window);
      var (row, ok) := Counted(RowOf(cleaned, key), start, burst, now);
      (cleaned[key := row], ok)
  }

  /** The same without the clean-up. */
  function AnswerKeepingAll(rows: Table, key: string, window: int, burst: int, now: int): (Table, bool) {
    if Malformed(key, window, burst) then (rows, false)
    else
      var (row, ok) := Counted(RowOf(rows, key), WindowStart(now, window), burst, now);
      (rows[key := row], ok)
  }

  // ---- Runs ----

  datatype Call = Call(key: string, now: int)

  /** The clock starts at or after the epoch and does not run backwards. */
  predicate Ordered(calls: seq<Call>) {
    && (forall i :: 0 <= i < |calls| ==> calls[i].now >= 0)
    && (forall i, j :: 0 <= i < j < |calls| ==> calls[i].now <= calls[j].now)
  }

  function Run(calls: seq<Call>, window: int, burst: int): Table {
    if calls == [] then map[]
    else
      var c := calls[|calls| - 1];
      Answer(Run(calls[..|calls| - 1], window, burst), c.key, window, burst, c.now).0
  }

  function RunKeepingAll(calls: seq<Call>, window: int, burst: int): Table {
    if calls == [] then map[]
    else
      var c := calls[|calls| - 1];
      AnswerKeepingAll(RunKeepingAll(calls[..|calls| - 1], window, burst), c.key, window, burst, c.now).0
  }

  /** The last answer of a run. */
  predicate Granted(calls: seq<Call>, window: int, burst: int)
    requires calls != []
  {
    var c := calls[|calls| - 1];
    Answer(Run(calls[..|calls| - 1], window, burst), c.key, window, burst, c.now).1
  }

  predicate GrantedKeepingAll(calls: seq<Call>, window: int, burst: int)
    requires calls != []
  {
    var c := calls[|calls| - 1];
    AnswerKeepingAll(RunKeepingAll(calls[..|calls| - 1], window, burst), c.key, window, burst, c.now).1
  }

  /** No kept row is later than the present, and every forgotten row is from a window long gone. */
  ghost predicate Shadows(rows: Table, all: Table, window: int, now: int) {
    && (forall k :: k in rows ==> k in all && all[k] == rows[k])
    && (forall k :: k in all ==> Column(all[k].windowStart) == all[k].windowStart <= all[k].updatedAt)
    && (forall k :: k in all && k !in rows ==> all[k].updatedAt < WindowStart(now, window) - 2 * window)
  }

  lemma ColumnFacts(start: int, now: int)
    requires start <= now
    ensures Column(start) <= Column(now) && Column(now) <= now && Column(start) <= start
    ensures Column(Column(start)) == Column(start)
  {
    DivUnique(Column(start), SECOND, start / SECOND, 0);
    AlignedMonotone(start, now, SECOND);
    AlignedFacts(now, SECOND);
    AlignedFacts(start, SECOND);
  }

  lemma StartFacts(s: int, t: int, window: int)
    requires window > 0 && 0 <= s <= t
    ensures WindowStart(s, window) <= WindowStart(t, window) <= t
    ensures WindowStart(t, window) == Aligned(t, window)
  {
    WindowStartIsAligned(s, window);
    WindowStartIsAligned(t, window);
    AlignedMonotone(s, t, window);
    AlignedFacts(t, window);
  }

  lemma StepShadows(rows: Table, all: Table, key: string, window: int, burst: int, before: int, now: int)
    requires !Malformed(key, window, burst) && 0 <= before <= now && Shadows(rows, all, window, before)
    ensures Answer(rows, key, window, burst, now).1 == AnswerKeepingAll(all, key, window, burst, now).1
    ensures Shadows(Answer(rows, key, window, burst, now).0, AnswerKeepingAll(all, key, window, burst, now).0, window, now)
  {
    StartFacts(before, now, window);
    ColumnFacts(WindowStart(now, window), now);
  }

  /** The clean-up cannot be observed: every answer is the one of a table that never forgets. */
  lemma {:induction false} CleanupUnobservable(calls: seq<Call>, window: int, burst: int)
    requires Ordered(calls) && calls != []
    ensures Granted(calls, window, burst) <==> GrantedKeepingAll(calls, window, burst)
    ensures window > 0 ==> Shadows(Run(calls, window, burst), RunKeepingAll(calls, window, burst), window, calls[|calls| - 1].now)
  {
    var init, c := calls[..|calls| - 1], calls[|calls| - 1];
    var before := if init == [] then c.now else init[|init| - 1].now;
    if init != [] {
      CleanupUnobservable(init, window, burst);
    }
    if !Malformed(c.key, window, burst) {
      StepShadows(Run(init, window, burst), RunKeepingAll(init, window, burst), c.key, window, burst, before, c.now);
    } else if window > 0 {
      StartFacts(before, c.now, window);
    }
  }

  // ---- Bounds ----

  function Grants(calls: seq<Call>, window: int, burst: int): seq<Call> {
    if calls == [] then []
    else
      Grants(calls[..|calls| - 1], window, burst) + if Granted(calls, window, burst) then [calls[|calls| - 1]] else []
  }

  /** Grants to a key in the aligned window that starts at a given time. */
  function CountAt(grants: seq<Call>, key: string, window: int, start: int): nat {
    if grants == [] then 0
    else
      var g := grants[|grants| - 1];
      CountAt(grants[..|grants| - 1], key, window, start)
      + if g.key == key && WindowStart(g.now, window) == start then 1 else 0
  }

  lemma CountAtSnoc(grants: seq<Call>, g: Call, key: string, window: int, start: int)
    ensures CountAt(grants + [g], key, window, start)
            == CountAt(grants, key, window, start) + if g.key == key && WindowStart(g.now, window) == start then 1 else 0
  {
    assert (grants + [g])[..|grants|] == grants;
  }

  /** What a key's row, or its absence, says about the grants to that key. */
  ghost predicate RowTells(row: Option<Row>, grants: seq<Call>, key: string, window: int, burst: int, now: int) {
    match row
    case None => forall start :: start >= WindowStart(now, window) ==> CountAt(grants, key, window, start) == 0
    case Some(r) =>
      && r.windowStart <= WindowStart(now, window) && r.windowStart <= r.updatedAt
      && 1 <= r.hits <= burst && r.hits == CountAt(grants, key, window, r.windowStart)
      && forall start :: start > r.windowStart ==> CountAt(grants, key, window, start) == 0
  }

  lemma WholeStart(now: int, window: int)
    requires window > 0 && window % SECOND == 0 && now >= 0
    ensures Column(WindowStart(now, window)) == WindowStart(now, window) <= Column(now)
  {
    StartFacts(now, now, window);
    var q, k := now / window, window / SECOND;
    assert window == k * SECOND;
    assert q * window == (q * k) * SECOND + 0;
    DivUnique(q * window, SECOND, q * k, 0);
    ColumnFacts(WindowStart(now, window), now);
  }

  /** One request, seen from one key. */
  lemma StepTells(rows: Table, grants: seq<Call>, c: Call, window: int, burst: int, before: int, key: string)
    requires window > 0 && window % SECOND == 0 && burst > 0 && c.key != "" && 0 <= before <= c.now
    requires RowTells(RowOf(rows, key), grants, key, window, burst, before)
    ensures var (next, ok) := Answer(rows, c.key, window, burst, c.now);
            var more := if ok then grants + [c] else grants;
            && RowTells(RowOf(next, key), more, key, window, burst, c.now)
            && forall start :: CountAt(more, key, window, start) <= CountAt(grants, key, window, start) || CountAt(more, key, window, start) <= burst
  {
    StartFacts(before, c.now, window);
    WholeStart(c.now, window);
    forall start
      ensures CountAt(grants + [c], key, window, start)
              == CountAt(grants, key, window, start) + if c.key == key && WindowStart(c.now, window) == start then 1 else 0
    {
      CountAtSnoc(grants, c, key, window, start);
    }
  }

  lemma {:induction false} RunTells(calls: seq<Call>, window: int, burst: int, key: string)
    requires Ordered(calls) && calls != [] && window > 0 && window % SECOND == 0 && burst > 0
    ensures RowTells(RowOf(Run(calls, window, burst), key), Grants(calls, window, burst), key, window, burst, calls[|calls| - 1].now)
    ensures forall start :: CountAt(Grants(calls, window, burst), key, window, start) <= burst
  {
    var init, c := calls[..|calls| - 1], calls[|calls| - 1];
    var before := if init == [] then c.now else init[|init| - 1].now;
    if init != [] {
      RunTells(init, window, burst, key);
    }
    var rows, grants := Run(init, window, burst), Grants(init, window, burst);
    assert grants + [] == grants;
    if c.key != "" {
      StepTells(rows, grants, c, window, burst, before, key);
    } else {
      StartFacts(before, c.now, window);
    }
  }

  lemma StepGranted(rows: Table, grants: seq<Call>, c: Call, window: int, burst: int, before: int)
    requires window > 0 && window % SECOND == 0 && burst > 0 && c.key != "" && 0 <= before <= c.now
    requires RowTells(RowOf(rows, c.key), grants, c.key, window, burst, before)
    ensures Answer(rows, c.key, window, burst, c.now).1 <==> CountAt(grants, c.key, window, WindowStart(c.now, window)) < burst
  {
    StartFacts(before, c.now, window);
  }

  /** A request with a key is granted exactly if the window it falls in has had fewer than `burst` grants to the key. */
  lemma GrantedIff(calls: seq<Call>, window: int, burst: int)
    requires Ordered(calls) && calls != [] && window > 0 && window % SECOND == 0 && burst > 0
    ensures var c, earlier := calls[|calls| - 1], Grants(calls[..|calls| - 1], window, burst);
            Granted(calls, window, burst) <==> c.key != "" && CountAt(earlier, c.key, window, Aligned(c.now, window)) < burst
  {
    var init, c := calls[..|calls| - 1], calls[|calls| - 1];
    var before := if init == [] then c.now else init[|init| - 1].now;
    if init != [] {
      RunTells(init, window, burst, c.key);
    }
    StartFacts(c.now, c.now, window);
    if c.key != "" {
      StepGranted(Run(init, window, burst), Grants(init, window, burst), c, window, burst, before);
    }
  }

  ghost predicate BoundedPerWindow(window: int, burst: int) {
    forall calls, key, start :: Ordered(calls) ==> CountAt(Grants(calls, window, burst), key, window, start) <= burst
  }

  function Repeat(n: nat, c: Call): seq<Call> {
    if n == 0 then [] else Repeat(n - 1, c) + [c]
  }

  lemma {:induction false} RepeatIs(n: nat, c: Call)
    ensures |Repeat(n, c)| == n && forall i :: 0 <= i < n ==> Repeat(n, c)[i] == c
  {
    if n > 0 {
      RepeatIs(n - 1, c);
    }
  }

  lemma RunSnoc(calls: seq<Call>, c: Call, window: int, burst: int)
    ensures var (next, ok) := Answer(Run(calls, window, burst), c.key, window, burst, c.now);
            && Run(calls + [c], window, burst) == next
            && Grants(calls + [c], window, burst) == Grants(calls, window, burst) + if ok then [c] else []
  {
    assert (calls + [c])[..|calls|] == calls;
  }

  lemma OneMore(grants: seq<Call>, c: Call, window: int, start: int)
    requires WindowStart(c.now, window) == start
    ensures CountAt(grants + [c], c.key, window, start) == CountAt(grants, c.key, window, start) + 1
  {
    CountAtSnoc(grants, c, c.key, window, start);
  }

  lemma FractionalStep(rows: Table, key: string, window: int, burst: int)
    requires key != "" && burst > 0 && window > 0 && window % SECOND != 0
    requires key in rows ==> rows[key].windowStart == Column(window)
    ensures WindowStart(window, window) == window
    ensures var (next, ok) := Answer(rows, key, window, burst, window);
            ok && key in next && next[key].windowStart == Column(window)
  {
    DivUnique(window, window, 1, 0);
    AlignedFacts(window, SECOND);
  }

  lemma FractionalSnoc(calls: seq<Call>, key: string, window: int, burst: int)
    requires key != "" && burst > 0 && window > 0 && window % SECOND != 0
    requires key in Run(calls, window, burst) ==> Run(calls, window, burst)[key].windowStart == Column(window)
    ensures var more := calls + [Call(key, window)];
            && key in Run(more, window, burst) && Run(more, window, burst)[key].windowStart == Column(window)
            && Grants(more, window, burst) == Grants(calls, window, burst) + [Call(key, window)]
  {
    FractionalStep(Run(calls, window, burst), key, window, burst);
    RunSnoc(calls, Call(key, window), window, burst);
  }

  /** With a fractional window the stored start never equals the computed one, so every request is granted. */
  lemma {:induction false} FractionalWindowForgets(n: nat, key: string, window: int, burst: int)
    requires key != "" && burst > 0 && window > 0 && window % SECOND != 0
    ensures var calls := Repeat(n, Call(key, window));
            && (key in Run(calls, window, burst) ==> Run(calls, window, burst)[key].windowStart == Column(window))
            && Grants(calls, window, burst) == calls
  {
    if n > 0 {
      var c := Call(key, window);
      var init := Repeat(n - 1, c);
      FractionalWindowForgets(n - 1, key, window, burst);
      FractionalSnoc(init, key, window, burst);
      assert Repeat(n, c) == init + [c];
      assert Grants(init + [c], window, burst) == init + [c];
    }
  }

  lemma {:induction false} RepeatCount(n: nat, c: Call, window: int, start: int)
    requires WindowStart(c.now, window) == start
    ensures CountAt(Repeat(n, c), c.key, window, start) == n
  {
    if n > 0 {
      RepeatCount(n - 1, c, window, start);
      OneMore(Repeat(n - 1, c), c, window, start);
    }
  }

  /** At most `burst` grants per aligned window, in every run, if and only if the window is whole seconds. */
  lemma BoundedIffWholeSeconds(window: int, burst: int)
    requires window > 0 && burst > 0
    ensures BoundedPerWindow(window, burst) <==> window % SECOND == 0
  {
    if window % SECOND == 0 {
      forall calls, key, start | Ordered(calls)
        ensures CountAt(Grants(calls, window, burst), key, window, start) <= burst
      {
        if calls != [] {
          RunTells(calls, window, burst, key);
        }
      }
    } else {
      var calls := Repeat(burst + 1, Call("k", window));
      RepeatIs(burst + 1, Call("k", window));
      FractionalWindowForgets(burst + 1, "k", window, burst);
      FractionalStep(map[], "k", window, burst);
      RepeatCount(burst + 1, Call("k", window), window, window);
      assert Ordered(calls);
    }
  }

  /** Grants to a key after `low` up to and including `high`. */
  function CountIn(grants: seq<Call>, key: string, low: int, high: int): nat {
    if grants == [] then 0
    else
      var g := grants[|grants| - 1];
      CountIn(grants[..|grants| - 1], key, low, high) + if g.key == key && low < g.now <= high then 1 else 0
  }

  lemma TwoWindows(t: int, at: int, window: int)
    requires window > 0 && at - window < t <= at
    ensures Aligned(t, window) == Aligned(at, window) || Aligned(t, window) == Aligned(at, window) - window
  {
    AlignedFacts(t, window);
    AlignedFacts(at, window);
    var a, b := t / window, at / window;
    MultipleNext(b, window);
    MultipleNext(b - 1, window);
    MultipleNext(b - 2, window);
    if a > b {
      MultipleMonotone(b + 1, a, window);
    } else if a < b - 1 {
      MultipleMonotone(a, b - 2, window);
    }
  }

  lemma {:induction false} IntervalSplits(grants: seq<Call>, key: string, window: int, at: int)
    requires window > 0 && forall i :: 0 <= i < |grants| ==> grants[i].now >= 0
    ensures CountIn(grants, key, at - window, at)
            <= CountAt(grants, key, window, Aligned(at, window)) + CountAt(grants, key, window, Aligned(at, window) - window)
  {
    if grants != [] {
      var g := grants[|grants| - 1];
      IntervalSplits(grants[..|grants| - 1], key, window, at);
      StartFacts(g.now, g.now, window);
      if at - window < g.now <= at {
        TwoWindows(g.now, at, window);
      }
    }
  }

  lemma {:induction false} GrantsFromCalls(calls: seq<Call>, window: int, burst: int)
    requires Ordered(calls)
    ensures forall i :: 0 <= i < |Grants(calls, window, burst)| ==> Grants(calls, window, burst)[i].now >= 0
  {
    if calls != [] {
      GrantsFromCalls(calls[..|calls| - 1], window, burst);
    }
  }

  /** Any interval one window long contains at most twice `burst` grants to one key. */
  lemma IntervalBound(calls: seq<Call>, window: int, burst: int, key: string, at: int)
    requires Ordered(calls) && window > 0 && window % SECOND == 0 && burst > 0
    ensures CountIn(Grants(calls, window, burst), key, at - window, at) <= 2 * burst
  {
    GrantsFromCalls(calls, window, burst);
    IntervalSplits(Grants(calls, window, burst), key, window, at);
    if calls != [] {
      RunTells(calls, window, burst, key);
    }
  }
}
