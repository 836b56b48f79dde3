/** Delivery attempts over a run of the deduper: when at most one attempt of an event is under way. */
module Attempts {
  import opened Dedupe

  /** The attempts of a key that were admitted and have not ended, each named by the position of its reservation. */
  function Open(events: seq<Event>, window: int, key: EventKey): set<nat> {
    if events == [] then {}
    else
      var init, e := events[..|events| - 1], events[|events| - 1];
      var before := Open(init, window, key);
      if e.key != key then before
      else if e.Finish? then before - {e.attempt}
      else if Allowed(Run(init, window), key, e.now) then before + {|init|}
      else before
  }

  /** Every completion ends an attempt that is under way. */
  predicate Proper(events: seq<Event>, window: int) {
    events != [] ==>
      var init, e := events[..|events| - 1], events[|events| - 1];
      Proper(init, window) && (e.Finish? ==> e.attempt in Open(init, window, e.key))
  }

  predicate OneAtATime(events: seq<Event>, window: int, key: EventKey) {
    |Open(events, window, key)| <= 1 && (events != [] ==> OneAtATime(events[..|events| - 1], window, key))
  }

  /** The entry of a key is never created anew while an attempt admitted under an earlier entry is still under way:
      whether the earlier entry expired, was evicted or was purged by a resolution, its attempt ended first. */
  predicate NoneOutlives(events: seq<Event>, window: int, key: EventKey) {
    events != [] ==>
      var init, e := events[..|events| - 1], events[|events| - 1];
      && NoneOutlives(init, window, key)
      && (e.Reserve? && e.key == key && Creates(Run(init, window), key, e.now) ==> Open(init, window, key) == {})
  }

  lemma {:induction false} OpenBefore(events: seq<Event>, window: int, key: EventKey)
    ensures forall a :: a in Open(events, window, key) ==> a < |events|
  {
    if events != [] {
      OpenBefore(events[..|events| - 1], window, key);
    }
  }

  /** The in-flight mark of the entry tells whether an attempt is under way, and there is no second one. */
  ghost predicate MarkTells(events: seq<Event>, window: int, key: EventKey) {
    var t, open := Run(events, window), Open(events, window, key);
    && (forall a, b :: a in open && b in open ==> a == b)
    && (key in t ==> (t[key].inFlight <==> open != {}))
  }

  lemma MarkStep(events: seq<Event>, window: int, key: EventKey)
    requires events != [] && Proper(events, window) && NoneOutlives(events, window, key)
    requires MarkTells(events[..|events| - 1], window, key)
    ensures MarkTells(events, window, key)
  {
    var init, e := events[..|events| - 1], events[|events| - 1];
    var t := Run(init, window);
    if e.Reserve? && e.key == key {
      OwnReserve(t, key, e.now, window, e.victims);
    } else if key in Run(events, window) {
      KeptEntry(t, e, window, key);
    }
  }

  /** What becomes of an entry that no reservation of its own touches. */
  lemma KeptEntry(t: Table, e: Event, window: int, key: EventKey)
    requires !(e.Reserve? && e.key == key) && key in Apply(t, e, window)
    ensures key in t && Apply(t, e, window)[key] == if e.key == key then Completed(t[key], e.results) else t[key]
  {
    TallyKept(t, e, window, key);
    EntryMoves(t, e, window, key);
  }

  lemma {:induction false} MarksTell(events: seq<Event>, window: int, key: EventKey)
    requires Proper(events, window) && NoneOutlives(events, window, key)
    ensures MarkTells(events, window, key)
  {
    if events != [] {
      MarksTell(events[..|events| - 1], window, key);
      MarkStep(events, window, key);
    }
  }

  lemma SizeOne(open: set<nat>)
    requires forall a, b :: a in open && b in open ==> a == b
    ensures |open| <= 1
  {
    if a :| a in open {
      assert open == {a};
    }
  }

  lemma SizeTwo(open: set<nat>, n: nat)
    requires open != {} && n !in open
    ensures |open + {n}| > 1
  {
  }

  /** At every moment of a run at most one attempt of an event is under way, exactly when no attempt outlives its entry
      into the next one. */
  lemma {:induction false} OneAtATimeIff(events: seq<Event>, window: int, key: EventKey)
    requires Proper(events, window)
    ensures OneAtATime(events, window, key) <==> NoneOutlives(events, window, key)
  {
    if events != [] {
      var init, e := events[..|events| - 1], events[|events| - 1];
      OneAtATimeIff(init, window, key);
      if NoneOutlives(events, window, key) {
        MarksTell(events, window, key);
        SizeOne(Open(events, window, key));
      } else if NoneOutlives(init, window, key) {
        OpenBefore(init, window, key);
        SizeTwo(Open(init, window, key), |init|);
      }
    }
  }

  // ---- A completion that outlives its entry ----

  /** The entry expires while its attempt is under way, a second attempt starts, the first one ends without success, and a
      third one asks. */
  function StaleRun(key: EventKey, window: int, results: seq<Delivery>): seq<Event> {
    [Reserve(key, 0, [])] + [Reserve(key, window, [])] + [Finish(key, 0, results)] + [Reserve(key, window, [])]
  }

  lemma RunSnoc(events: seq<Event>, e: Event, window: int, key: EventKey)
    ensures Run(events + [e], window) == Apply(Run(events, window), e, window)
    ensures Open(events + [e], window, key)
            == if e.key != key then Open(events, window, key)
               else if e.Finish? then Open(events, window, key) - {e.attempt}
               else if Allowed(Run(events, window), key, e.now) then Open(events, window, key) + {|events|}
               else Open(events, window, key)
    ensures Proper(events + [e], window) <==> Proper(events, window) && (e.Finish? ==> e.attempt in Open(events, window, e.key))
  {
    assert (events + [e])[..|events|] == events;
  }

  lemma SecondStarts(key: EventKey, window: int)
    requires window > 0
    ensures var events := [Reserve(key, 0, [])] + [Reserve(key, window, [])];
            && Proper(events, window) && Open(events, window, key) == {0, 1}
            && key in Run(events, window) && Run(events, window)[key] == FreshEntry(key.base, window, window)
  {
    var first := [Reserve(key, 0, [])];
    assert [] + first == first && Run([], window) == map[] && Open([], window, key) == {};
    RunSnoc([], Reserve(key, 0, []), window, key);
    OwnReserve(map[], key, 0, window, []);
    RunSnoc(first, Reserve(key, window, []), window, key);
    assert key !in Swept(Run(first, window), key, window);
    OwnReserve(Run(first, window), key, window, window, []);
  }

  /** The third attempt is admitted while the second is under way: the first one's completion, matched by the key alone,
      cleared the mark of an entry it did not belong to. */
  lemma StaleCompletionAdmits(key: EventKey, window: int, results: seq<Delivery>)
    requires window > 0 && !DeliverySucceeded(results)
    ensures var events := StaleRun(key, window, results);
            && Proper(events, window)
            && Open(events[..3], window, key) == {1} && Allowed(Run(events[..3], window), key, window)
            && Open(events, window, key) == {1, 3}
            && !OneAtATime(events, window, key) && !NoneOutlives(events, window, key)
  {
    var second := [Reserve(key, 0, [])] + [Reserve(key, window, [])];
    var third := second + [Finish(key, 0, results)];
    var events := StaleRun(key, window, results);
    SecondStarts(key, window);
    RunSnoc(second, Finish(key, 0, results), window, key);
    assert Open(third, window, key) == {1};
    assert Run(third, window)[key] == Completed(FreshEntry(key.base, window, window), results);
    assert Allowed(Run(third, window), key, window);
    RunSnoc(third, Reserve(key, window, []), window, key);
    assert events[..3] == third;
    assert Open(events, window, key) == {1, 3};
    OneAtATimeIff(events, window, key);
  }
}
