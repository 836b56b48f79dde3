/** What the rules make of the deltas that ingesting writes: an incident is about how far a counter climbed since it was last stored. */
module CounterRules {
  import opened Wrap
  import CounterDeltas
  import opened Detection

  /** The rules see the stored signal: its name, its value, and the delta it was marked with. */
  predicate SeenAs(stored: CounterDeltas.Signal, seen: Signal) {
    && seen.name == stored.name && stored.value == Some(seen.value)
    && seen.counterDelta == if CounterDeltas.CounterDelta in stored.attributes && stored.attributes[CounterDeltas.CounterDelta].Number?
                            then Some(stored.attributes[CounterDeltas.CounterDelta].number) else None
  }

  predicate PositiveThresholds(cfg: Thresholds) {
    && cfg.rtmpsReconnectCount > 0.0 && cfg.droppedFramesTotal > 0.0 && cfg.audioClippingTotal > 0.0
    && cfg.discordReconnectCount > 0.0 && cfg.voiceDisconnectCount > 0.0
  }

  lemma CumulativeFound(name: string)
    requires name in CounterDeltas.CUMULATIVE
    ensures CounterOf(name) != OtherMetric
  {
    CounterFound();
  }

  /** The counters that ingesting marks are exactly the counters that the rules read. */
  lemma CumulativeIff(name: string)
    ensures name in CounterDeltas.CUMULATIVE <==> IsCounter(CounterOf(name))
  {
    CounterNamed(name);
    if name in CounterDeltas.CUMULATIVE {
      CumulativeFound(name);
    }
  }

  lemma CumulativeIsCounter(name: string)
    requires name in CounterDeltas.CUMULATIVE
    ensures MetricOf(name) == CounterOf(name) && IsCounter(MetricOf(name))
  {
    CumulativeFound(name);
    ReadAsCounter(name);
  }

  /** How far a counter climbed over the value found for it; the first value, and a reset, climb nothing. */
  function Climbed(previous: Option<real>, v: real): real {
    if previous.Some? && v > previous.value then v - previous.value else 0.0
  }

  /** What the rules read of a stored counter is that climb. */
  lemma ReadsClimb(s: CounterDeltas.Signal, previous: Option<real>, seen: Signal)
    requires s.name in CounterDeltas.CUMULATIVE && s.value.Some? && SeenAs(CounterDeltas.Marked(s, previous), seen)
    ensures ClimbIs(Read(seen), Climbed(previous, s.value.value)) && Read(seen).metric == CounterOf(s.name)
  {
    CumulativeIsCounter(s.name);
  }

  /** A counter that did not climb since it was last stored, or that is stored for the first time, detects nothing. */
  lemma NoClimbNoIncident(s: CounterDeltas.Signal, previous: Option<real>, seen: Signal, cfg: Thresholds)
    requires s.name in CounterDeltas.CUMULATIVE && s.value.Some? && SeenAs(CounterDeltas.Marked(s, previous), seen)
    requires PositiveThresholds(cfg) && (previous == None || s.value.value <= previous.value)
    ensures Meaning(Read(seen), cfg) == None
  {
    var r := Read(seen);
    ReadsClimb(s, previous, seen);
    CumulativeIsCounter(s.name);
    if r.metric.WorkerSendFailures? || r.metric.DiscordWorkerPublishFailures? {
      DeliveryCounterDecides(r, cfg, 0.0);
    } else if r.metric.DiscordForwardErrors? {
      ForwardCounterDecides(r, cfg, 0.0);
    } else {
      CounterDecides(r, cfg, 0.0);
    }
  }

  /** A counter with a threshold detects its rule exactly when, on a live stream, it climbed that far since it was last stored. */
  lemma ClimbDecides(s: CounterDeltas.Signal, previous: Option<real>, seen: Signal, cfg: Thresholds)
    requires s.name in CounterDeltas.CUMULATIVE && s.value.Some? && SeenAs(CounterDeltas.Marked(s, previous), seen)
    requires PositiveThresholds(cfg) && CounterRule(CounterOf(s.name), cfg).Some?
    ensures var (rule, limit) := CounterRule(CounterOf(s.name), cfg).value;
            && (Meaning(Read(seen), cfg).Some? <==> seen.streamLive && previous.Some? && s.value.value - previous.value >= limit)
            && (Meaning(Read(seen), cfg).Some? ==> Meaning(Read(seen), cfg).value.rule == rule)
            && (Healed(Read(seen), cfg, rule).Some? <==> !seen.streamLive || previous == None || s.value.value - previous.value < limit)
  {
    ReadsClimb(s, previous, seen);
    CounterDecides(Read(seen), cfg, Climbed(previous, s.value.value));
    LimitPositive(CounterOf(s.name), cfg);
  }

  lemma LimitPositive(m: Metric, cfg: Thresholds)
    requires PositiveThresholds(cfg) && CounterRule(m, cfg).Some?
    ensures CounterRule(m, cfg).value.1 > 0.0
  {
  }
}
