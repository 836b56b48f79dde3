/** Cumulative counters: the delta each ingested signal is marked with, and what the deltas add up to. */
module CounterDeltas {
  import opened Wrap

  /** The two attributes the server writes, and all the others. */
  datatype Attribute = CounterDelta | CounterReset | Other(name: string)

  datatype Value = Number(number: real) | Flag(flag: bool) | Text(text: string)

  datatype Signal = Signal(name: string, serviceId: string, streamId: string, value: Option<real>, attributes: map<Attribute, Value>)

  datatype Series = Series(name: string, serviceId: string, streamId: string)

  const CUMULATIVE := {
    "encoder.dropped_frames_total", "encoder.audio_clipping_total", "worker.event_send_failures_total",
    "discord.worker_event_publish_failures_total", "discord.audio_forward_errors_total", "rtmp.reconnect_count",
    "encoder.rtmp_reconnect_count", "discord.reconnect_count", "discord.voice_disconnect_count"
  }

  function Of(s: Signal): Series {
    Series(s.name, s.serviceId, s.streamId)
  }

  predicate Counts(s: Signal, x: Series) {
    Of(s) == x && s.value.Some?
  }

  /** The value of the last stored signal of a series. */
  function Latest(log: seq<Signal>, x: Series): Option<real> {
    if log == [] then None
    else if Counts(log[|log| - 1], x) then log[|log| - 1].value
    else Latest(log[..|log| - 1], x)
  }

  lemma LatestSnoc(log: seq<Signal>, s: Signal, x: Series)
    ensures Latest(log + [s], x) == if Counts(s, x) then s.value else Latest(log, x)
  {
    assert (log + [s])[..|log|] == log;
  }

  function Climb(previous: Option<real>, v: real): real {
    if previous.Some? && v >= previous.value then v - previous.value else 0.0
  }

  function Drop(previous: Option<real>, v: real): real {
    if previous.Some? && v < previous.value then previous.value - v else 0.0
  }

  /** The signal as it is stored, given what the lookup found. */
  function Marked(s: Signal, previous: Option<real>): Signal {
    if s.value.None? || s.name !in CUMULATIVE then s
    else
      var marked := s.attributes[CounterDelta := Number(Climb(previous, s.value.value))];
      s.(attributes := if Drop(previous, s.value.value) > 0.0 then marked[CounterReset := Flag(true)] else marked)
  }

  class SignalStore {
    var signals: seq<Signal>

    constructor ()
      ensures signals == []
    {
      signals := [];
    }

    method SaveSignal(s: Signal)
      modifies this
      ensures signals == old(signals) + [s]
    {
      signals := signals + [s];
    }

    /** The backward scan: what it finds is the value of the last matching signal. */
    method LatestMetricValue(x: Series) returns (found: Option<real>)
      ensures found == Latest(signals, x)
      ensures found.None? <==> forall i :: 0 <= i < |signals| ==> !Counts(signals[i], x)
      ensures found.Some? ==> exists i :: 0 <= i < |signals| && Counts(signals[i], x) && signals[i].value == found
                                          && forall j :: i < j < |signals| ==> !Counts(signals[j], x)
    {
      var index := |signals|;
      assert signals[..index] == signals;
      while index > 0
        invariant 0 <= index <= |signals|
        invariant forall j :: index <= j < |signals| ==> !Counts(signals[j], x)
        invariant Latest(signals[..index], x) == Latest(signals, x)
      {
        var s := signals[index - 1];
        assert signals[..index][..index - 1] == signals[..index - 1];
        if s.name == x.name && s.serviceId == x.serviceId && s.streamId == x.streamId && s.value.Some? {
          return s.value;
        }
        index := index - 1;
      }
      return None;
    }

    method WithCumulativeCounterDelta(s: Signal) returns (r: Signal)
      ensures r == Marked(s, Latest(signals, Of(s)))
    {
      if s.value.None? || s.name !in CUMULATIVE {
        return s;
      }
      var v := s.value.value;
      var previous := LatestMetricValue(Of(s));
      var delta, reset := 0.0, false;
      if previous.Some? {
        if v >= previous.value {
          delta := v - previous.value;
        } else {
          reset := true;
        }
      }
      var attributes := s.attributes[CounterDelta := Number(delta)];
      if reset {
        attributes := attributes[CounterReset := Flag(true)];
      }
      r := s.(attributes := attributes);
    }

    /** One request handled alone: looked up, marked and stored. */
    method IngestSignal(s: Signal)
      modifies this
      ensures signals == old(signals) + [Marked(s, Latest(old(signals), Of(s)))]
    {
      var marked := WithCumulativeCounterDelta(s);
      SaveSignal(marked);
    }
  }

  // ---- What a stored log accounts for ----

  function DeltaOf(s: Signal): real {
    if CounterDelta in s.attributes && s.attributes[CounterDelta].Number? then s.attributes[CounterDelta].number else 0.0
  }

  function First(log: seq<Signal>, x: Series): Option<real> {
    if log == [] then None
    else
      var before := First(log[..|log| - 1], x);
      if before.None? && Counts(log[|log| - 1], x) then log[|log| - 1].value else before
  }

  /** The sum of the stored deltas of a series. */
  function Deltas(log: seq<Signal>, x: Series): real {
    if log == [] then 0.0
    else
      var s := log[|log| - 1];
      Deltas(log[..|log| - 1], x) + if Counts(s, x) then DeltaOf(s) else 0.0
  }

  /** The sum of the falls from one stored value of a series to the next. */
  function Drops(log: seq<Signal>, x: Series): real {
    if log == [] then 0.0
    else
      var before, s := log[..|log| - 1], log[|log| - 1];
      Drops(before, x) + if Counts(s, x) then Drop(Latest(before, x), s.value.value) else 0.0
  }

  /** How much of the climbs between consecutive stored values the stored deltas miss. */
  function Missed(log: seq<Signal>, x: Series): real {
    if log == [] then 0.0
    else
      var before, s := log[..|log| - 1], log[|log| - 1];
      Missed(before, x) + if Counts(s, x) then Climb(Latest(before, x), s.value.value) - DeltaOf(s) else 0.0
  }

  /** The last value is the first plus the deltas minus the drops. */
  predicate Balanced(log: seq<Signal>, x: Series) {
    Latest(log, x).Some? ==> First(log, x).Some? && Latest(log, x).value == First(log, x).value + Deltas(log, x) - Drops(log, x)
  }

  /** Whatever is stored, the account is off by exactly the climbs that the deltas miss. */
  lemma {:induction false} AccountOffByMissed(log: seq<Signal>, x: Series)
    ensures Latest(log, x).Some? <==> First(log, x).Some?
    ensures Latest(log, x).None? ==> Missed(log, x) == 0.0 && Deltas(log, x) == 0.0 && Drops(log, x) == 0.0
    ensures Latest(log, x).Some? ==>
              Latest(log, x).value == First(log, x).value + Deltas(log, x) - Drops(log, x) + Missed(log, x)
  {
    if log != [] {
      AccountOffByMissed(log[..|log| - 1], x);
    }
  }

  /** After every signal stored so far the account balanced. */
  predicate AlwaysBalanced(log: seq<Signal>, x: Series) {
    Balanced(log, x) && (log != [] ==> AlwaysBalanced(log[..|log| - 1], x))
  }

  /** Every delta is the climb over the value stored just before it. */
  predicate Exact(log: seq<Signal>, x: Series) {
    log != [] ==>
      var before, s := log[..|log| - 1], log[|log| - 1];
      Exact(before, x) && (Counts(s, x) ==> DeltaOf(s) == Climb(Latest(before, x), s.value.value))
  }

  /** The account balances throughout exactly when no delta was measured against an outdated value to any effect. */
  lemma {:induction false} BalancedIffExact(log: seq<Signal>, x: Series)
    ensures AlwaysBalanced(log, x) <==> Exact(log, x)
    ensures Exact(log, x) ==> Missed(log, x) == 0.0
  {
    AccountOffByMissed(log, x);
    if log != [] {
      BalancedIffExact(log[..|log| - 1], x);
      AccountOffByMissed(log[..|log| - 1], x);
    }
  }

  // ---- Concurrent ingests ----

  /** A request looks up and marks its signal in one step and stores it in another. */
  datatype Event = Look(request: nat, signal: Signal) | Save(request: nat)

  /** A marked signal on its way, with the position of its lookup and that of the signal the lookup found. */
  datatype Held = Held(signal: Signal, look: nat, found: Option<nat>)

  /** The log with the lookup of each stored signal, the signals on their way, and those overtaken by another of their series. */
  datatype State = State(log: seq<Signal>, order: seq<nat>, waiting: map<nat, Held>, overtaken: set<nat>)

  /** The lookup of the last stored signal of a series. */
  function LatestLook(log: seq<Signal>, order: seq<nat>, x: Series): Option<nat>
    requires |log| == |order|
  {
    if log == [] then None
    else if Counts(log[|log| - 1], x) then Some(order[|log| - 1])
    else LatestLook(log[..|log| - 1], order[..|log| - 1], x)
  }

  predicate Enabled(st: State, e: Event) {
    e.Look? <==> e.request !in st.waiting
  }

  function Overtakes(st: State, s: Signal): set<nat> {
    set q | q in st.waiting && Counts(s, Of(st.waiting[q].signal))
  }

  function Next(st: State, e: Event, n: nat): State
    requires Enabled(st, e) && |st.log| == |st.order|
  {
    match e
    case Look(r, s) =>
      var held := Held(Marked(s, Latest(st.log, Of(s))), n, LatestLook(st.log, st.order, Of(s)));
      st.(waiting := st.waiting[r := held], overtaken := st.overtaken - {r})
    case Save(r) =>
      var held := st.waiting[r];
      State(st.log + [held.signal], st.order + [held.look], st.waiting - {r}, st.overtaken + Overtakes(st, held.signal))
  }

  /** A run; an event that is not enabled does not happen. */
  function Run(events: seq<Event>): (st: State)
    ensures |st.log| == |st.order|
  {
    if events == [] then State([], [], map[], {})
    else
      var st, e := Run(events[..|events| - 1]), events[|events| - 1];
      if Enabled(st, e) then Next(st, e, |events| - 1) else st
  }

  /** A signal of the series is about to be stored although another signal of the series overtook it. */
  predicate StoresLate(st: State, e: Event, x: Series) {
    e.Save? && e.request in st.waiting && Counts(st.waiting[e.request].signal, x) && e.request in st.overtaken
  }

  predicate Undisturbed(events: seq<Event>, x: Series) {
    events != [] ==>
      Undisturbed(events[..|events| - 1], x) && !StoresLate(Run(events[..|events| - 1]), events[|events| - 1], x)
  }

  /** Stored or waiting, a counter carries a delta that is not negative. */
  predicate HasDelta(s: Signal) {
    s.value.Some? && s.name in CUMULATIVE ==>
      CounterDelta in s.attributes && s.attributes[CounterDelta].Number? && s.attributes[CounterDelta].number >= 0.0
  }

  /** Measured against what the log now holds. */
  predicate UpToDate(log: seq<Signal>, s: Signal) {
    s.value.Some? && s.name in CUMULATIVE ==> DeltaOf(s) == Climb(Latest(log, Of(s)), s.value.value)
  }

  ghost predicate Kept(st: State) {
    && (forall s :: s in st.log ==> HasDelta(s))
    && (forall r :: r in st.waiting ==> HasDelta(st.waiting[r].signal))
    && (forall r :: r in st.waiting && r !in st.overtaken ==> UpToDate(st.log, st.waiting[r].signal))
    && (forall r :: r in st.waiting && Latest(st.log, Of(st.waiting[r].signal)).None? ==> r !in st.overtaken)
  }

  lemma MarkedLaws(log: seq<Signal>, s: Signal)
    ensures var m := Marked(s, Latest(log, Of(s)));
            Of(m) == Of(s) && m.value == s.value && HasDelta(m) && UpToDate(log, m)
  {
  }

  lemma StepKept(st: State, e: Event, n: nat)
    requires |st.log| == |st.order| && Kept(st) && Enabled(st, e)
    ensures Kept(Next(st, e, n))
  {
    var after := Next(st, e, n);
    match e
    case Look(r, s) =>
      MarkedLaws(st.log, s);
    case Save(r) =>
      var s := st.waiting[r].signal;
      forall q | q in after.waiting
        ensures var x := Of(st.waiting[q].signal); Latest(after.log, x) == if Counts(s, x) then s.value else Latest(st.log, x)
      {
        LatestSnoc(st.log, s, Of(st.waiting[q].signal));
      }
  }

  lemma {:induction false} RunKept(events: seq<Event>)
    ensures Kept(Run(events))
  {
    if events != [] {
      RunKept(events[..|events| - 1]);
      var st, e := Run(events[..|events| - 1]), events[|events| - 1];
      if Enabled(st, e) {
        StepKept(st, e, |events| - 1);
      }
    }
  }

  /** The first stored delta of a series is zero. */
  predicate FirstIsZero(log: seq<Signal>, x: Series) {
    log != [] ==>
      var before, s := log[..|log| - 1], log[|log| - 1];
      if Latest(before, x).None? then Counts(s, x) ==> DeltaOf(s) == 0.0 else FirstIsZero(before, x)
  }

  lemma FirstZeroSnoc(log: seq<Signal>, s: Signal, x: Series)
    requires FirstIsZero(log, x)
    requires Counts(s, x) && Latest(log, x).None? ==> DeltaOf(s) == 0.0
    ensures FirstIsZero(log + [s], x)
  {
    assert (log + [s])[..|log|] == log;
  }

  /** In every interleaving every stored delta of a counter is there and not negative, and the first one is zero. */
  lemma {:induction false} EveryInterleaving(events: seq<Event>, x: Series)
    requires x.name in CUMULATIVE
    ensures var log := Run(events).log;
            (forall s :: s in log ==> HasDelta(s)) && FirstIsZero(log, x)
  {
    RunKept(events);
    if events != [] {
      var st, e := Run(events[..|events| - 1]), events[|events| - 1];
      EveryInterleaving(events[..|events| - 1], x);
      RunKept(events[..|events| - 1]);
      if Enabled(st, e) && e.Save? {
        var s := st.waiting[e.request].signal;
        assert Counts(s, x) && Latest(st.log, x).None? ==> UpToDate(st.log, s);
        FirstZeroSnoc(st.log, s, x);
      }
    }
  }

  lemma ExactSnoc(log: seq<Signal>, s: Signal, x: Series)
    requires Exact(log, x) && (Counts(s, x) ==> DeltaOf(s) == Climb(Latest(log, x), s.value.value))
    ensures Exact(log + [s], x)
  {
    assert (log + [s])[..|log|] == log;
  }

  /** Where no signal of a counter is overtaken between its lookup and its store, the counter's account
      balances after every stored signal. Signals of other series may interleave freely. */
  lemma {:induction false} UndisturbedBalances(events: seq<Event>, x: Series)
    requires x.name in CUMULATIVE && Undisturbed(events, x)
    ensures Exact(Run(events).log, x) && AlwaysBalanced(Run(events).log, x)
  {
    if events != [] {
      var st, e := Run(events[..|events| - 1]), events[|events| - 1];
      UndisturbedBalances(events[..|events| - 1], x);
      RunKept(events[..|events| - 1]);
      if Enabled(st, e) && e.Save? {
        var s := st.waiting[e.request].signal;
        assert Counts(s, x) ==> UpToDate(st.log, s);
        ExactSnoc(st.log, s, x);
      }
    }
    BalancedIffExact(Run(events).log, x);
  }

  // ---- The same schedule with other values ----

  function ValuedAt(e: Event, x: Series, v: real): Event {
    if e.Look? && Counts(e.signal, x) then Look(e.request, e.signal.(value := Some(v))) else e
  }

  /** The schedule, with the counter's value at each lookup chosen freely. */
  function Valued(events: seq<Event>, x: Series, values: nat -> real): seq<Event> {
    if events == [] then []
    else Valued(events[..|events| - 1], x, values) + [ValuedAt(events[|events| - 1], x, values(|events| - 1))]
  }

  lemma {:induction false} ValuedSize(events: seq<Event>, x: Series, values: nat -> real)
    ensures |Valued(events, x, values)| == |events|
  {
    if events != [] {
      ValuedSize(events[..|events| - 1], x, values);
    }
  }

  lemma ValuedInit(events: seq<Event>, x: Series, values: nat -> real)
    requires events != []
    ensures var last := |events| - 1;
            var all := Valued(events, x, values);
            |all| == |events| && all[..last] == Valued(events[..last], x, values) && all[last] == ValuedAt(events[last], x, values(last))
  {
    ValuedSize(events[..|events| - 1], x, values);
  }

  predicate SameShape(a: Signal, b: Signal) {
    Of(a) == Of(b) && (a.value.Some? <==> b.value.Some?)
  }

  /** Two logs that agree in everything but values and marks. */
  predicate LogShape(a: seq<Signal>, b: seq<Signal>) {
    |a| == |b| && forall k :: 0 <= k < |a| ==> SameShape(a[k], b[k])
  }

  ghost predicate StateShape(a: State, b: State) {
    && LogShape(a.log, b.log) && a.order == b.order && a.overtaken == b.overtaken && a.waiting.Keys == b.waiting.Keys
    && (forall r :: r in a.waiting ==> SameShape(a.waiting[r].signal, b.waiting[r].signal)
                                       && a.waiting[r].look == b.waiting[r].look && a.waiting[r].found == b.waiting[r].found)
  }

  lemma {:induction false} LookShape(a: seq<Signal>, b: seq<Signal>, order: seq<nat>, x: Series)
    requires LogShape(a, b) && |order| == |a|
    ensures LatestLook(a, order, x) == LatestLook(b, order, x)
  {
    if a != [] {
      LookShape(a[..|a| - 1], b[..|b| - 1], order[..|a| - 1], x);
    }
  }

  lemma StepShape(a: State, b: State, e: Event, x: Series, v: real, n: nat)
    requires |a.log| == |a.order| && StateShape(a, b)
    ensures var f := ValuedAt(e, x, v);
            && Enabled(a, e) == Enabled(b, f) && StoresLate(a, e, x) == StoresLate(b, f, x)
            && (Enabled(a, e) ==> StateShape(Next(a, e, n), Next(b, f, n)))
  {
    if e.Look? {
      LookShape(a.log, b.log, a.order, Of(e.signal));
    } else if Enabled(a, e) {
      assert Overtakes(a, a.waiting[e.request].signal) == Overtakes(b, b.waiting[e.request].signal);
    }
  }

  lemma {:induction false} RunShape(events: seq<Event>, x: Series, values: nat -> real)
    ensures StateShape(Run(events), Run(Valued(events, x, values)))
    ensures Undisturbed(events, x) <==> Undisturbed(Valued(events, x, values), x)
  {
    if events != [] {
      var init := events[..|events| - 1];
      RunShape(init, x, values);
      ValuedInit(events, x, values);
      StepShape(Run(init), Run(Valued(init, x, values)), events[|events| - 1], x, values(|events| - 1), |events| - 1);
    }
  }

  // ---- Where each value comes from ----

  function ValueOf(look: Option<nat>, values: nat -> real): Option<real> {
    if look.Some? then Some(values(look.value)) else None
  }

  /** Stored signals of the counter have the value of their lookup. */
  predicate LogValued(log: seq<Signal>, order: seq<nat>, x: Series, values: nat -> real) {
    |log| == |order| && forall k :: 0 <= k < |log| && Counts(log[k], x) ==> log[k].value == Some(values(order[k]))
  }

  predicate HeldValued(h: Held, x: Series, values: nat -> real) {
    Counts(h.signal, x) ==>
      h.signal.value == Some(values(h.look)) && DeltaOf(h.signal) == Climb(ValueOf(h.found, values), values(h.look))
  }

  ghost predicate StateValued(st: State, x: Series, values: nat -> real) {
    LogValued(st.log, st.order, x, values) && forall r :: r in st.waiting ==> HeldValued(st.waiting[r], x, values)
  }

  lemma {:induction false} LatestValued(log: seq<Signal>, order: seq<nat>, x: Series, values: nat -> real)
    requires LogValued(log, order, x, values)
    ensures Latest(log, x) == ValueOf(LatestLook(log, order, x), values)
  {
    if log != [] {
      LatestValued(log[..|log| - 1], order[..|log| - 1], x, values);
    }
  }

  lemma StepValued(st: State, e: Event, x: Series, values: nat -> real, n: nat)
    requires x.name in CUMULATIVE && StateValued(st, x, values)
    requires Enabled(st, ValuedAt(e, x, values(n)))
    ensures StateValued(Next(st, ValuedAt(e, x, values(n)), n), x, values)
  {
    LatestValued(st.log, st.order, x, values);
  }

  lemma {:induction false} RunValued(events: seq<Event>, x: Series, values: nat -> real)
    requires x.name in CUMULATIVE
    ensures StateValued(Run(Valued(events, x, values)), x, values)
  {
    if events != [] {
      var init := events[..|events| - 1];
      RunValued(init, x, values);
      ValuedInit(events, x, values);
      var st := Run(Valued(init, x, values));
      if Enabled(st, ValuedAt(events[|events| - 1], x, values(|events| - 1))) {
        StepValued(st, events[|events| - 1], x, values, |events| - 1);
      }
    }
  }

  /** Lookups are told apart by their positions, and an overtaken signal did not find what is now the latest. */
  ghost predicate LooksApart(st: State, n: nat) {
    && |st.log| == |st.order|
    && (forall k :: k in st.order ==> k < n)
    && (forall r :: r in st.waiting ==> st.waiting[r].look < n && st.waiting[r].look !in st.order)
    && (forall r, q :: r in st.waiting && q in st.waiting && r != q ==> st.waiting[r].look != st.waiting[q].look)
    && (forall r :: r in st.waiting && st.waiting[r].found.Some? ==> st.waiting[r].found.value in st.order)
    && (forall r :: r in st.waiting && r in st.overtaken ==>
          var latest := LatestLook(st.log, st.order, Of(st.waiting[r].signal));
          latest.Some? && latest != st.waiting[r].found)
  }

  lemma {:induction false} LatestLookIn(log: seq<Signal>, order: seq<nat>, x: Series)
    requires |log| == |order|
    ensures LatestLook(log, order, x).Some? ==> LatestLook(log, order, x).value in order
  {
    if log != [] {
      LatestLookIn(log[..|log| - 1], order[..|log| - 1], x);
    }
  }

  lemma LatestLookSnoc(log: seq<Signal>, order: seq<nat>, s: Signal, look: nat, x: Series)
    requires |log| == |order|
    ensures LatestLook(log + [s], order + [look], x) == if Counts(s, x) then Some(look) else LatestLook(log, order, x)
  {
    assert (log + [s])[..|log|] == log && (order + [look])[..|log|] == order;
  }

  lemma SaveApart(st: State, e: Event, n: nat)
    requires LooksApart(st, n) && Enabled(st, e) && e.Save?
    ensures LooksApart(Next(st, e, n), n + 1)
  {
    var after, held := Next(st, e, n), st.waiting[e.request];
    forall r | r in after.waiting && r in after.overtaken
      ensures var latest := LatestLook(after.log, after.order, Of(after.waiting[r].signal));
              latest.Some? && latest != after.waiting[r].found
    {
      LatestLookSnoc(st.log, st.order, held.signal, held.look, Of(st.waiting[r].signal));
    }
  }

  lemma LookApart(st: State, e: Event, n: nat)
    requires LooksApart(st, n) && Enabled(st, e) && e.Look?
    ensures LooksApart(Next(st, e, n), n + 1)
  {
    LatestLookIn(st.log, st.order, Of(e.signal));
  }

  lemma {:induction false} RunApart(events: seq<Event>)
    ensures LooksApart(Run(events), |events|)
  {
    if events != [] {
      var st, e := Run(events[..|events| - 1]), events[|events| - 1];
      RunApart(events[..|events| - 1]);
      if Enabled(st, e) {
        if e.Save? {
          SaveApart(st, e, |events| - 1);
        } else {
          LookApart(st, e, |events| - 1);
        }
      }
    }
  }

  /** Values that give a late store away: ten for the late signal, five for the one before it, nothing for the others. */
  function Telling(late: nat, latest: nat): nat -> real {
    k => if k == late then 10.0 else if k == latest then 5.0 else 0.0
  }

  lemma TellingTells(h: Held, x: Series, latest: nat)
    requires Counts(h.signal, x) && HeldValued(h, x, Telling(h.look, latest))
    requires latest != h.look && h.found != Some(latest) && h.found != Some(h.look)
    ensures DeltaOf(h.signal) != Climb(Some(Telling(h.look, latest)(latest)), h.signal.value.value)
  {
  }

  lemma {:induction false} LateStoreTells(events: seq<Event>, x: Series) returns (values: nat -> real)
    requires x.name in CUMULATIVE && events != []
    requires StoresLate(Run(events[..|events| - 1]), events[|events| - 1], x)
    ensures !Exact(Run(Valued(events, x, values)).log, x)
  {
    var init, e := events[..|events| - 1], events[|events| - 1];
    var st := Run(init);
    RunApart(init);
    LatestLookIn(st.log, st.order, x);
    var latest := LatestLook(st.log, st.order, x).value;
    values := Telling(st.waiting[e.request].look, latest);
    RunShape(init, x, values);
    RunValued(init, x, values);
    ValuedInit(events, x, values);
    var other := Run(Valued(init, x, values));
    LookShape(st.log, other.log, st.order, x);
    LatestValued(other.log, other.order, x, values);
    TellingTells(other.waiting[e.request], x, latest);
    assert Run(Valued(events, x, values)).log == other.log + [other.waiting[e.request].signal];
    LastInexact(other.log, other.waiting[e.request].signal, x);
  }

  lemma LastInexact(log: seq<Signal>, s: Signal, x: Series)
    requires Counts(s, x) && DeltaOf(s) != Climb(Latest(log, x), s.value.value)
    ensures !Exact(log + [s], x)
  {
    assert (log + [s])[..|log|] == log;
  }

  lemma InexactStays(log: seq<Signal>, s: Signal, x: Series)
    requires !Exact(log, x)
    ensures !Exact(log + [s], x)
  {
    assert (log + [s])[..|log|] == log;
  }

  lemma {:induction false} DisturbedTells(events: seq<Event>, x: Series) returns (values: nat -> real)
    requires x.name in CUMULATIVE && !Undisturbed(events, x)
    ensures !Exact(Run(Valued(events, x, values)).log, x)
  {
    var init, e := events[..|events| - 1], events[|events| - 1];
    if !Undisturbed(init, x) {
      values := DisturbedTells(init, x);
      ValuedInit(events, x, values);
      var st, f := Run(Valued(init, x, values)), ValuedAt(e, x, values(|init|));
      if Enabled(st, f) && f.Save? {
        InexactStays(st.log, st.waiting[f.request].signal, x);
      }
    } else {
      values := LateStoreTells(events, x);
    }
  }

  /** A schedule keeps the account of a counter balanced whatever the values, exactly when none of its signals is stored
      after another one overtook it. */
  lemma BalancedForAllValuesIff(events: seq<Event>, x: Series)
    requires x.name in CUMULATIVE
    ensures (forall values: nat -> real :: AlwaysBalanced(Run(Valued(events, x, values)).log, x)) <==> Undisturbed(events, x)
  {
    if Undisturbed(events, x) {
      forall values: nat -> real
        ensures AlwaysBalanced(Run(Valued(events, x, values)).log, x)
      {
        RunShape(events, x, values);
        UndisturbedBalances(Valued(events, x, values), x);
      }
    } else {
      var values := DisturbedTells(events, x);
      BalancedIffExact(Run(Valued(events, x, values)).log, x);
    }
  }

  /** One request after another, each looking up and storing before the next begins. */
  function OneByOne(signals: seq<Signal>): seq<Event> {
    if signals == [] then [] else OneByOne(signals[..|signals| - 1]) + [Look(0, signals[|signals| - 1]), Save(0)]
  }

  /** A request that looks up and stores while nothing else is on its way. */
  lemma AloneUndisturbed(events: seq<Event>, s: Signal, x: Series)
    requires Undisturbed(events, x) && Run(events).waiting == map[]
    ensures var more := events + [Look(0, s)] + [Save(0)];
            Undisturbed(more, x) && Run(more).waiting == map[]
  {
    var looked := events + [Look(0, s)];
    assert looked[..|events|] == events && (looked + [Save(0)])[..|looked|] == looked;
    RunSnoc(events, Look(0, s));
    assert Run(looked).waiting.Keys == {0} && 0 !in Run(looked).overtaken;
    RunSnoc(looked, Save(0));
  }

  /** Handled one at a time, any mixture of signals keeps every counter's account balanced. */
  lemma {:induction false} OneByOneBalances(signals: seq<Signal>, x: Series)
    requires x.name in CUMULATIVE
    ensures Undisturbed(OneByOne(signals), x) && Run(OneByOne(signals)).waiting == map[]
    ensures AlwaysBalanced(Run(OneByOne(signals)).log, x)
  {
    if signals != [] {
      var s := signals[|signals| - 1];
      var before := OneByOne(signals[..|signals| - 1]);
      OneByOneBalances(signals[..|signals| - 1], x);
      AloneUndisturbed(before, s, x);
      assert OneByOne(signals) == before + [Look(0, s)] + [Save(0)];
    }
    UndisturbedBalances(OneByOne(signals), x);
  }

  lemma RunSnoc(events: seq<Event>, e: Event)
    ensures Run(events + [e]) == if Enabled(Run(events), e) then Next(Run(events), e, |events|) else Run(events)
  {
    assert (events + [e])[..|events|] == events;
  }

  lemma MissedSnoc(log: seq<Signal>, s: Signal, x: Series)
    requires Counts(s, x)
    ensures Missed(log + [s], x) == Missed(log, x) + Climb(Latest(log, x), s.value.value) - DeltaOf(s)
  {
    assert (log + [s])[..|log|] == log;
  }

  /** Three stored signals, the last two both measured against the first. */
  lemma CountedTwice(zero: Signal, late: Signal, x: Series)
    requires Counts(zero, x) && Counts(late, x) && zero.value == Some(0.0) && late.value == Some(5.0)
    requires DeltaOf(zero) == 0.0 && DeltaOf(late) == 5.0
    ensures Missed([] + [zero] + [late] + [late], x) == -5.0
  {
    var one := [] + [zero];
    var two := one + [late];
    LatestSnoc([], zero, x);
    MissedSnoc([], zero, x);
    assert Missed(one, x) == 0.0;
    LatestSnoc(one, late, x);
    MissedSnoc(one, late, x);
    assert Missed(two, x) == 0.0;
    MissedSnoc(two, late, x);
  }

  lemma Unbalanced(log: seq<Signal>, x: Series)
    requires Missed(log, x) != 0.0
    ensures !Balanced(log, x)
  {
    AccountOffByMissed(log, x);
  }

  lemma OneStored(s: Signal)
    requires s.name in CUMULATIVE && s.value == Some(0.0)
    ensures var st := Run([] + [Look(0, s)] + [Save(0)]);
            st.log == [] + [Marked(s, None)] && st.waiting == map[] && Latest(st.log, Of(s)) == Some(0.0)
  {
    var zero, looked := Marked(s, None), [] + [Look(0, s)];
    RunSnoc([], Look(0, s));
    assert Run(looked).log == [] && Run(looked).waiting.Keys == {0} && Run(looked).waiting[0].signal == zero;
    RunSnoc(looked, Save(0));
    LatestSnoc([], zero, Of(s));
  }

  /** A request looks up while nothing else is stored. */
  lemma LooksUp(events: seq<Event>, r: nat, s: Signal, found: Option<real>)
    requires r !in Run(events).waiting && Latest(Run(events).log, Of(s)) == found
    ensures var before, after := Run(events), Run(events + [Look(r, s)]);
            && after.log == before.log && after.waiting.Keys == before.waiting.Keys + {r}
            && after.waiting[r].signal == Marked(s, found)
            && (forall q :: q in before.waiting ==> after.waiting[q] == before.waiting[q])
  {
    RunSnoc(events, Look(r, s));
  }

  /** A request stores what it holds. */
  lemma Stores(events: seq<Event>, r: nat)
    requires r in Run(events).waiting
    ensures var before, after := Run(events), Run(events + [Save(r)]);
            && after.log == before.log + [before.waiting[r].signal] && after.waiting == before.waiting - {r}
  {
    RunSnoc(events, Save(r));
  }

  lemma BothLook(events: seq<Event>, s: Signal, found: Option<real>)
    requires Run(events).waiting == map[] && Latest(Run(events).log, Of(s)) == found
    ensures var st := Run(events + [Look(1, s)] + [Look(2, s)]);
            st.log == Run(events).log && st.waiting.Keys == {1, 2}
            && st.waiting[1].signal == Marked(s, found) && st.waiting[2].signal == Marked(s, found)
  {
    LooksUp(events, 1, s, found);
    LooksUp(events + [Look(1, s)], 2, s, found);
  }

  lemma BothStore(events: seq<Event>, s: Signal)
    requires var st := Run(events); st.waiting.Keys == {1, 2} && st.waiting[1].signal == s && st.waiting[2].signal == s
    ensures Run(events + [Save(1)] + [Save(2)]).log == Run(events).log + [s] + [s]
  {
    Stores(events, 1);
    Stores(events + [Save(1)], 2);
  }

  function Overtaken(s: Signal, five: Signal): seq<Event> {
    [] + [Look(0, s)] + [Save(0)] + [Look(1, five)] + [Look(2, five)] + [Save(1)] + [Save(2)]
  }

  /** Two requests that both look up before either stores: the climb is counted twice. */
  lemma OvertakenExample(s: Signal)
    requires s.name in CUMULATIVE && s.value == Some(0.0)
    ensures var log := Run(Overtaken(s, s.(value := Some(5.0)))).log;
            Missed(log, Of(s)) == -5.0 && !Balanced(log, Of(s))
  {
    var five := s.(value := Some(5.0));
    var zero, late := Marked(s, None), Marked(five, Some(0.0));
    var start := [] + [Look(0, s)] + [Save(0)];
    OneStored(s);
    BothLook(start, five, Some(0.0));
    BothStore(start + [Look(1, five)] + [Look(2, five)], late);
    CountedTwice(zero, late, Of(s));
    Unbalanced([] + [zero] + [late] + [late], Of(s));
  }
}
