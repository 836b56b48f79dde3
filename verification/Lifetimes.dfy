/** The lifetime of one dedupe entry: the attempts it admits, what their fan-outs accept, and when no destination
    accepts an event twice. */
module Lifetimes {
  import opened Dedupe
  import opened Fanout
  import opened Attempts

  /** What an attempt reports when the channels could not be listed. */
  const NOT_LISTED := [Delivery("", false)]

  /** The entry, the attempts it admitted that are under way with the receipts each was handed, and what they have accepted. */
  datatype Life = Life(entry: Entry, flights: map<nat, set<string>>, accepted: seq<string>)

  /** What may happen while the entry lives: another reservation of the same event, the end of one of its own attempts,
      or the end of an attempt that an earlier entry of the same event admitted. */
  datatype Happening = Again(attempt: nat) | Ends(attempt: nat, results: seq<Delivery>) | Late(results: seq<Delivery>)

  /** What an attempt that was handed these receipts may report. */
  ghost predicate IsAttempt(ds: seq<Destination>, receipts: set<string>, results: seq<Delivery>) {
    results == NOT_LISTED || exists outcomes :: |outcomes| == |ds| && results == Deliver(ds, receipts, outcomes)
  }

  function Born(base: Base, now: int, window: int, attempt: nat): Life {
    Life(FreshEntry(base, now, window), map[attempt := {}], [])
  }

  ghost predicate Possible(ds: seq<Destination>, s: Life, h: Happening) {
    match h
    case Again(attempt) => attempt !in s.flights
    case Ends(attempt, results) => attempt in s.flights && IsAttempt(ds, s.flights[attempt], results)
    case Late(results) => exists receipts :: IsAttempt(ds, receipts, results)
  }

  function Live(s: Life, h: Happening): Life {
    match h
    case Again(attempt) =>
      if Busy(s.entry) then s.(entry := Deny(s.entry))
      else s.(entry := Admit(s.entry), flights := s.flights[attempt := s.entry.receipts])
    case Ends(attempt, results) => Life(Completed(s.entry, results), s.flights - {attempt}, s.accepted + Ids(results))
    case Late(results) => s.(entry := Completed(s.entry, results))
  }

  /** A run of happenings from the creation of the entry; impossible ones are skipped. */
  ghost function Lived(ds: seq<Destination>, born: Life, hs: seq<Happening>): Life {
    if hs == [] then born
    else
      var s, h := Lived(ds, born, hs[..|hs| - 1]), hs[|hs| - 1];
      if Possible(ds, s, h) then Live(s, h) else s
  }

  predicate LateFree(hs: seq<Happening>) {
    forall i :: 0 <= i < |hs| ==> !hs[i].Late?
  }

  // ---- What the receipts guarantee while no completion comes late ----

  /** The receipts are exactly the acceptances, each counted once; at most one attempt is under way, with all the receipts
      in hand; and an idle entry is fully delivered exactly when every destination has a receipt. */
  ghost predicate Balanced(ds: seq<Destination>, s: Life) {
    && (forall id :: multiset(s.accepted)[id] == if id in s.entry.receipts then 1 else 0)
    && (forall id :: id in s.entry.receipts ==> HasId(ds, id))
    && (s.flights != map[] <==> s.entry.inFlight)
    && (forall a, b :: a in s.flights && b in s.flights ==> a == b)
    && (forall a :: a in s.flights ==> s.flights[a] == s.entry.receipts)
    && (s.entry.inFlight ==> !s.entry.fullyDelivered && !AllReceived(ds, s.entry.receipts))
    && (!s.entry.inFlight ==> (s.entry.fullyDelivered <==> AllReceived(ds, s.entry.receipts)))
  }

  /** One more attempt's acceptances keep the receipts exact. */
  lemma AcceptedCounts(ds: seq<Destination>, receipts: set<string>, accepted: seq<string>, outcomes: seq<bool>, id: string)
    requires DistinctIds(ds) && AllExcludable(ds) && |outcomes| == |ds|
    requires multiset(accepted)[id] == if id in receipts then 1 else 0
    requires id in receipts ==> HasId(ds, id)
    ensures var results := Deliver(ds, receipts, outcomes);
            && multiset(accepted + Ids(results))[id] == (if id in receipts + Receipts(results) then 1 else 0)
            && (id in receipts + Receipts(results) ==> HasId(ds, id))
  {
    DeliverIds(ds, receipts, outcomes, id);
    DeliverReceipts(ds, receipts, outcomes, id);
    assert Reached(ds, receipts, outcomes, id) ==> id !in receipts && HasId(ds, id);
  }

  lemma NotListed()
    ensures Receipts(NOT_LISTED) == {} && Ids(NOT_LISTED) == [] && !DeliverySucceeded(NOT_LISTED)
  {
    assert NOT_LISTED[..0] == [] && !NOT_LISTED[0].success;
    assert Ids(NOT_LISTED[..0]) == [];
  }

  lemma NoFlightLeft(s: Life, attempt: nat)
    requires attempt in s.flights && forall a, b :: a in s.flights && b in s.flights ==> a == b
    ensures s.flights - {attempt} == map[]
  {
  }

  lemma {:induction false} EndsBalanced(ds: seq<Destination>, s: Life, attempt: nat, results: seq<Delivery>)
    requires DistinctIds(ds) && AllExcludable(ds) && Balanced(ds, s) && Possible(ds, s, Ends(attempt, results))
    ensures Balanced(ds, Live(s, Ends(attempt, results)))
  {
    var next, receipts := Live(s, Ends(attempt, results)), s.entry.receipts;
    NoFlightLeft(s, attempt);
    if results == NOT_LISTED {
      NotListed();
      assert next.entry.receipts == receipts && next.accepted == s.accepted;
    } else {
      var outcomes :| |outcomes| == |ds| && results == Deliver(ds, receipts, outcomes);
      forall id
        ensures multiset(next.accepted)[id] == if id in next.entry.receipts then 1 else 0
        ensures id in next.entry.receipts ==> HasId(ds, id)
      {
        AcceptedCounts(ds, receipts, s.accepted, outcomes, id);
      }
      EndsDelivered(ds, receipts, outcomes);
    }
  }

  lemma {:induction false} StepBalanced(ds: seq<Destination>, s: Life, h: Happening)
    requires DistinctIds(ds) && AllExcludable(ds) && Balanced(ds, s) && Possible(ds, s, h) && !h.Late?
    ensures Balanced(ds, Live(s, h))
    ensures s.entry.receipts <= Live(s, h).entry.receipts
    ensures s.entry.fullyDelivered ==> Live(s, h).accepted == s.accepted && Live(s, h).flights == map[]
  {
    if h.Ends? {
      EndsBalanced(ds, s, h.attempt, h.results);
    }
  }

  /** With distinct, excludable destinations and no late completion: over any happenings in the lifetime of an entry
      each destination accepts the event at most once, an idle entry is fully delivered exactly when every destination has
      a receipt, and then nothing is sent again. */
  lemma {:induction false} LifetimeBalanced(ds: seq<Destination>, born: Life, hs: seq<Happening>)
    requires DistinctIds(ds) && AllExcludable(ds) && Balanced(ds, born) && LateFree(hs)
    ensures Balanced(ds, Lived(ds, born, hs))
  {
    if hs != [] {
      var init, h := hs[..|hs| - 1], hs[|hs| - 1];
      assert forall i :: 0 <= i < |init| ==> init[i] == hs[i];
      LifetimeBalanced(ds, born, init);
      if Possible(ds, Lived(ds, born, init), h) {
        StepBalanced(ds, Lived(ds, born, init), h);
      }
    }
  }

  lemma BornBalanced(ds: seq<Destination>, base: Base, now: int, window: int, attempt: nat)
    ensures ds != [] ==> Balanced(ds, Born(base, now, window, attempt))
    ensures LoneBalanced(Born(base, now, window, attempt))
  {
    assert attempt in Born(base, now, window, attempt).flights;
    if ds == [] {
      return;
    }
    assert ds[0].id !in Born(base, now, window, attempt).entry.receipts;
  }

  // ---- A single destination needs no receipt ----

  ghost predicate LoneBalanced(s: Life) {
    && |s.accepted| <= 1 && (s.accepted != [] ==> s.entry.fullyDelivered)
    && (s.flights != map[] <==> s.entry.inFlight)
    && (forall a, b :: a in s.flights && b in s.flights ==> a == b)
    && (s.entry.inFlight ==> s.accepted == [] && !s.entry.fullyDelivered)
  }

  /** One destination's attempt accepts at most once, and is a success if it does. */
  lemma LoneAttempt(d: Destination, receipts: set<string>, results: seq<Delivery>)
    requires IsAttempt([d], receipts, results)
    ensures |Ids(results)| <= 1 && (Ids(results) != [] ==> DeliverySucceeded(results))
  {
    NotListed();
    if results != NOT_LISTED {
      var outcomes :| |outcomes| == 1 && results == Deliver([d], receipts, outcomes);
      assert outcomes == [outcomes[0]];
      DeliverOne(d, receipts, outcomes[0]);
    }
  }

  lemma {:induction false} LoneStep(d: Destination, s: Life, h: Happening)
    requires LoneBalanced(s) && Possible([d], s, h) && !h.Late?
    ensures LoneBalanced(Live(s, h))
  {
    if h.Ends? {
      NoFlightLeft(s, h.attempt);
      LoneAttempt(d, s.flights[h.attempt], h.results);
    }
  }

  lemma {:induction false} LoneLifetime(d: Destination, born: Life, hs: seq<Happening>)
    requires LoneBalanced(born) && LateFree(hs)
    ensures LoneBalanced(Lived([d], born, hs))
  {
    if hs != [] {
      var init, h := hs[..|hs| - 1], hs[|hs| - 1];
      assert forall i :: 0 <= i < |init| ==> init[i] == hs[i];
      LoneLifetime(d, born, init);
      if Possible([d], Lived([d], born, init), h) {
        LoneStep(d, Lived([d], born, init), h);
      }
    }
  }

  lemma {:induction false} NoDestinations(born: Life, hs: seq<Happening>)
    requires born.accepted == []
    ensures Lived([], born, hs).accepted == []
  {
    if hs != [] {
      var s, h := Lived([], born, hs[..|hs| - 1]), hs[|hs| - 1];
      NoDestinations(born, hs[..|hs| - 1]);
      NotListed();
      if h.Ends? && Possible([], s, h) && h.results != NOT_LISTED {
        assert h.results == [];
      }
    }
  }

  // ---- Exactly when at most one acceptance per destination is guaranteed ----

  /** What a caller can check about the channel list beforehand. */
  predicate Sound(ds: seq<Destination>) {
    DistinctIds(ds) && (|ds| <= 1 || AllExcludable(ds))
  }

  /** No destination accepts twice, whatever happens; late completions are among the happenings or not. */
  ghost predicate AtMostOnce(ds: seq<Destination>, born: Life, late: bool) {
    forall hs, id :: late || LateFree(hs) ==> multiset(Lived(ds, born, hs).accepted)[id] <= 1
  }

  /** A channel list as the server keeps it is sound. */
  lemma TidyChannelsSound(channels: seq<Channel>, severity: string, eventType: string, digest: string -> string)
    requires TidyChannels(channels) && GoodDigest(digest)
    ensures Sound(Destinations(channels, severity, eventType, digest))
  {
    TidyDestinations(channels, severity, eventType, digest);
  }

  lemma {:induction false} SoundLifetime(ds: seq<Destination>, base: Base, now: int, window: int, attempt: nat, hs: seq<Happening>, id: string)
    requires Sound(ds) && LateFree(hs)
    ensures multiset(Lived(ds, Born(base, now, window, attempt), hs).accepted)[id] <= 1
  {
    var born := Born(base, now, window, attempt);
    if ds == [] {
      NoDestinations(born, hs);
    } else if |ds| == 1 {
      assert ds == [ds[0]];
      BornBalanced(ds, base, now, window, attempt);
      LoneLifetime(ds[0], born, hs);
      assert |multiset(Lived(ds, born, hs).accepted)| <= 1;
    } else {
      BornBalanced(ds, base, now, window, attempt);
      LifetimeBalanced(ds, born, hs);
    }
  }

  lemma LivedThen(ds: seq<Destination>, born: Life, hs: seq<Happening>, s: Life, h: Happening, more: seq<Happening>)
    requires Lived(ds, born, hs) == s && Possible(ds, s, h) && more == hs + [h]
    ensures Lived(ds, born, more) == Live(s, h)
  {
    assert more[..|hs|] == hs;
  }

  /** What an attempt reports that was handed no receipt and is accepted everywhere. */
  function Everywhere(ds: seq<Destination>): seq<Delivery> {
    Deliver(ds, {}, All(|ds|))
  }

  /** Two destinations under one identifier: a single attempt reaches it twice. */
  lemma {:induction false} DuplicateAcceptedTwice(ds: seq<Destination>, base: Base, now: int, window: int, attempt: nat, i: nat, j: nat)
    requires i < j < |ds| && ds[i].id == ds[j].id
    ensures multiset(Lived(ds, Born(base, now, window, attempt), [Ends(attempt, Everywhere(ds))]).accepted)[ds[i].id] >= 2
  {
    var born := Born(base, now, window, attempt);
    LivedThen(ds, born, [], born, Ends(attempt, Everywhere(ds)), [Ends(attempt, Everywhere(ds))]);
    AllAccepted(ds);
    EachIdAt(ds, i);
    EachIdAt(ds, j);
    assert [] + EachId(ds) == EachId(ds);
    TwiceCounts(EachId(ds), i, j);
  }

  /** What an attempt reports in which only the k-th destination accepts. */
  function OnlyAt(ds: seq<Destination>, receipts: set<string>, k: nat): seq<Delivery> {
    Deliver(ds, receipts, Only(|ds|, k))
  }

  lemma OnlyOneAccepts(ds: seq<Destination>, accepted: seq<string>, receipts: set<string>, k: nat)
    requires DistinctIds(ds) && k < |ds| && ds[k].id !in receipts
    ensures multiset(accepted + Ids(OnlyAt(ds, receipts, k)))[ds[k].id] == multiset(accepted)[ds[k].id] + 1
  {
    DeliverIds(ds, receipts, Only(|ds|, k), ds[k].id);
    assert !Excluded(ds[k], receipts) && Only(|ds|, k)[k];
  }

  lemma FirstAttemptPartial(ds: seq<Destination>, k: nat)
    requires |ds| >= 2 && k < |ds| && !Excludable(ds[k])
    ensures !DeliverySucceeded(OnlyAt(ds, {}, k)) && ds[k].id !in Receipts(OnlyAt(ds, {}, k))
  {
    var outcomes := Only(|ds|, k);
    DeliverSucceeds(ds, {}, outcomes);
    var other := if k == 0 then 1 else 0;
    assert !Excluded(ds[other], {}) && !outcomes[other];
    if ds[k].id in Receipts(OnlyAt(ds, {}, k)) {
      ReceiptsTidy(OnlyAt(ds, {}, k), ds[k].id);
    }
  }

  /** The state after an attempt without success and another reservation. */
  lemma {:induction false} TriedAgain(base: Base, now: int, window: int, attempt: nat, results: seq<Delivery>)
    requires !DeliverySucceeded(results)
    ensures var one := Live(Born(base, now, window, attempt), Ends(attempt, results));
            var two := Live(one, Again(attempt));
            && one.flights == map[] && two.flights == map[attempt := Receipts(results)] && two.accepted == Ids(results)
  {
    var born := Born(base, now, window, attempt);
    var none: set<string> := {};
    assert born.flights - {attempt} == map[] && none + Receipts(results) == Receipts(results) && [] + Ids(results) == Ids(results);
  }

  function TriedTwice(attempt: nat, first: seq<Delivery>, second: seq<Delivery>): seq<Happening> {
    [Ends(attempt, first), Again(attempt), Ends(attempt, second)]
  }

  /** Two attempts, the first without success. */
  lemma {:induction false} TwoAttempts(ds: seq<Destination>, base: Base, now: int, window: int, attempt: nat,
                                       first: seq<Delivery>, second: seq<Delivery>)
    requires IsAttempt(ds, {}, first) && !DeliverySucceeded(first) && IsAttempt(ds, Receipts(first), second)
    ensures LateFree(TriedTwice(attempt, first, second))
    ensures Lived(ds, Born(base, now, window, attempt), TriedTwice(attempt, first, second)).accepted == Ids(first) + Ids(second)
  {
    var born := Born(base, now, window, attempt);
    var a, b, c := Ends(attempt, first), Again(attempt), Ends(attempt, second);
    TriedAgain(base, now, window, attempt, first);
    LivedThen(ds, born, [], born, a, [a]);
    LivedThen(ds, born, [a], Live(born, a), b, [a, b]);
    LivedThen(ds, born, [a, b], Live(Live(born, a), b), c, [a, b, c]);
  }

  lemma OnlyIsAttempt(ds: seq<Destination>, receipts: set<string>, k: nat)
    ensures IsAttempt(ds, receipts, OnlyAt(ds, receipts, k))
  {
  }

  /** A destination whose receipt is never found again accepts once per attempt while another one fails. */
  lemma {:induction false} ForgottenAcceptedTwice(ds: seq<Destination>, base: Base, now: int, window: int, attempt: nat, k: nat)
    requires DistinctIds(ds) && |ds| >= 2 && k < |ds| && !Excludable(ds[k])
    ensures var first := OnlyAt(ds, {}, k);
            var hs := TriedTwice(attempt, first, OnlyAt(ds, Receipts(first), k));
            LateFree(hs) && multiset(Lived(ds, Born(base, now, window, attempt), hs).accepted)[ds[k].id] >= 2
  {
    var first := OnlyAt(ds, {}, k);
    var second := OnlyAt(ds, Receipts(first), k);
    ForgottenAttempts(ds, k, first, second);
    TwoAttempts(ds, base, now, window, attempt, first, second);
  }

  /** The two attempts: possible one after the other, and together accepted twice. */
  lemma {:induction false} ForgottenAttempts(ds: seq<Destination>, k: nat, first: seq<Delivery>, second: seq<Delivery>)
    requires DistinctIds(ds) && |ds| >= 2 && k < |ds| && !Excludable(ds[k])
    requires first == OnlyAt(ds, {}, k) && second == OnlyAt(ds, Receipts(first), k)
    ensures IsAttempt(ds, {}, first) && !DeliverySucceeded(first) && IsAttempt(ds, Receipts(first), second)
    ensures multiset(Ids(first) + Ids(second))[ds[k].id] >= 2
  {
    FirstAttemptPartial(ds, k);
    OnlyIsAttempt(ds, {}, k);
    OnlyIsAttempt(ds, Receipts(first), k);
    BothCounted(ds, k, first, second);
  }

  lemma BothCounted(ds: seq<Destination>, k: nat, first: seq<Delivery>, second: seq<Delivery>)
    requires DistinctIds(ds) && k < |ds| && ds[k].id !in Receipts(first)
    requires first == OnlyAt(ds, {}, k) && second == OnlyAt(ds, Receipts(first), k)
    ensures multiset(Ids(first) + Ids(second))[ds[k].id] >= 2
  {
    OnlyOneAccepts(ds, [], {}, k);
    assert [] + Ids(first) == Ids(first);
    OnlyOneAccepts(ds, Ids(first), Receipts(first), k);
  }

  /** The state of an entry whose attempt is under way after a late completion without success and another reservation. */
  lemma {:induction false} FreedInBetween(base: Base, now: int, window: int, attempt: nat)
    ensures var two := Live(Live(Born(base, now, window, attempt), Late(NOT_LISTED)), Again(attempt + 1));
            two.flights == map[attempt := {}, attempt + 1 := {}] && two.accepted == []
  {
    NotListed();
    var none: set<string> := {};
    assert none + none == none;
  }

  /** Two attempts under way at once, because a late completion without success freed the entry in between. */
  lemma {:induction false} BothUnderWay(ds: seq<Destination>, base: Base, now: int, window: int, attempt: nat, results: seq<Delivery>)
    requires IsAttempt(ds, {}, results)
    ensures var hs := [Late(NOT_LISTED), Again(attempt + 1), Ends(attempt, results), Ends(attempt + 1, results)];
            Lived(ds, Born(base, now, window, attempt), hs).accepted == Ids(results) + Ids(results)
  {
    var born := Born(base, now, window, attempt);
    var a, b, c, d := Late(NOT_LISTED), Again(attempt + 1), Ends(attempt, results), Ends(attempt + 1, results);
    var two := Live(Live(born, a), b);
    FreedInBetween(base, now, window, attempt);
    assert IsAttempt(ds, {}, NOT_LISTED);
    LivedThen(ds, born, [], born, a, [a]);
    LivedThen(ds, born, [a], Live(born, a), b, [a, b]);
    BothEnd(ds, born, [a, b], two, attempt, results);
    assert [a, b] + [c] + [d] == [a, b, c, d];
  }

  lemma {:induction false} BothEnd(ds: seq<Destination>, born: Life, hs: seq<Happening>, s: Life, attempt: nat, results: seq<Delivery>)
    requires Lived(ds, born, hs) == s && s.flights == map[attempt := {}, attempt + 1 := {}] && s.accepted == []
    requires IsAttempt(ds, {}, results)
    ensures Lived(ds, born, hs + [Ends(attempt, results)] + [Ends(attempt + 1, results)]).accepted == Ids(results) + Ids(results)
  {
    var c, d := Ends(attempt, results), Ends(attempt + 1, results);
    var mid := Live(s, c);
    assert mid.flights == map[attempt + 1 := {}] && mid.accepted == Ids(results);
    LivedThen(ds, born, hs, s, c, hs + [c]);
    LivedThen(ds, born, hs + [c], mid, d, hs + [c] + [d]);
  }

  /** A late completion without success frees the entry while its attempt is under way: a second attempt starts with
      nothing to exclude, and both are accepted. One sound destination is enough. */
  lemma {:induction false} LateAcceptedTwice(ds: seq<Destination>, base: Base, now: int, window: int, attempt: nat)
    requires ds != []
    ensures var hs := [Late(NOT_LISTED), Again(attempt + 1), Ends(attempt, Everywhere(ds)), Ends(attempt + 1, Everywhere(ds))];
            multiset(Lived(ds, Born(base, now, window, attempt), hs).accepted)[ds[0].id] >= 2
  {
    BothUnderWay(ds, base, now, window, attempt, Everywhere(ds));
    AllAccepted(ds);
    EachIdAt(ds, 0);
    FirstTwice(EachId(ds));
  }

  /** At most one acceptance per destination in the lifetime of an entry: without late completions exactly when the identifiers
      are distinct and, with two destinations or more, all excludable; with late completions only when nothing is sent. */
  lemma {:induction false} AtMostOnceIff(ds: seq<Destination>, base: Base, now: int, window: int, attempt: nat, late: bool)
    ensures AtMostOnce(ds, Born(base, now, window, attempt), late) <==> if late then ds == [] else Sound(ds)
  {
    var born := Born(base, now, window, attempt);
    if late {
      if ds != [] {
        LateAcceptedTwice(ds, base, now, window, attempt);
      } else {
        forall hs, id
          ensures multiset(Lived(ds, born, hs).accepted)[id] <= 1
        {
          NoDestinations(born, hs);
        }
      }
    } else if Sound(ds) {
      forall hs, id | LateFree(hs)
        ensures multiset(Lived(ds, born, hs).accepted)[id] <= 1
      {
        SoundLifetime(ds, base, now, window, attempt, hs, id);
      }
    } else {
      UnsoundFails(ds, base, now, window, attempt);
    }
  }

  lemma {:induction false} UnsoundFails(ds: seq<Destination>, base: Base, now: int, window: int, attempt: nat)
    requires !Sound(ds)
    ensures !AtMostOnce(ds, Born(base, now, window, attempt), false)
  {
    if !DistinctIds(ds) {
      var i, j :| 0 <= i < j < |ds| && ds[i].id == ds[j].id;
      DuplicateAcceptedTwice(ds, base, now, window, attempt, i, j);
      assert LateFree([Ends(attempt, Everywhere(ds))]);
    } else {
      var k :| 0 <= k < |ds| && !Excludable(ds[k]);
      ForgottenAcceptedTwice(ds, base, now, window, attempt, k);
    }
  }

  // ---- The lifetime within a run of the deduper ----

  predicate CreatesAt(events: seq<Event>, e: Event, window: int, key: EventKey) {
    e.Reserve? && e.key == key && Creates(Run(events, window), key, e.now)
  }

  /** The position of the reservation that created the key's latest entry, and its time. */
  function Creation(events: seq<Event>, window: int, key: EventKey): (nat, int) {
    if events == [] then (0, 0)
    else
      var init, e := events[..|events| - 1], events[|events| - 1];
      if CreatesAt(init, e, window, key) then (|init|, e.now) else Creation(init, window, key)
  }

  /** What happened to the key's entry since then. */
  function Happenings(events: seq<Event>, window: int, key: EventKey): seq<Happening> {
    if events == [] then []
    else
      var init, e := events[..|events| - 1], events[|events| - 1];
      var before := Happenings(init, window, key);
      if e.key != key then before
      else if CreatesAt(init, e, window, key) then []
      else if e.Reserve? then before + [Again(|init|)]
      else before + [if e.attempt >= Creation(init, window, key).0 then Ends(e.attempt, e.results) else Late(e.results)]
  }

  /** What the attempts admitted since then have accepted. */
  function AcceptedSince(events: seq<Event>, window: int, key: EventKey): seq<string> {
    if events == [] then []
    else
      var init, e := events[..|events| - 1], events[|events| - 1];
      if CreatesAt(init, e, window, key) then []
      else
        AcceptedSince(init, window, key)
        + if e.key == key && e.Finish? && e.attempt >= Creation(init, window, key).0 then Ids(e.results) else []
  }

  /** The receipts an attempt was handed when it was admitted. */
  function Handed(events: seq<Event>, window: int, attempt: nat): set<string>
    requires attempt < |events|
  {
    var t, key := Run(events[..attempt + 1], window), events[attempt].key;
    if key in t then t[key].receipts else {}
  }

  /** Every attempt of the event fans out to these destinations. */
  ghost predicate FansOut(events: seq<Event>, window: int, key: EventKey, ds: seq<Destination>) {
    events != [] ==>
      var init, e := events[..|events| - 1], events[|events| - 1];
      && FansOut(init, window, key, ds)
      && (e.Finish? && e.key == key ==> e.attempt < |init| && IsAttempt(ds, Handed(init, window, e.attempt), e.results))
  }

  ghost function LifeOf(events: seq<Event>, window: int, key: EventKey, ds: seq<Destination>): Life {
    var (attempt, now) := Creation(events, window, key);
    Lived(ds, Born(key.base, now, window, attempt), Happenings(events, window, key))
  }

  /** The deduper's entry is the one of the lifetime, and so are its attempts and their acceptances. */
  ghost predicate Follows(events: seq<Event>, window: int, key: EventKey, s: Life) {
    var t := Run(events, window);
    && key in t && t[key] == s.entry && s.accepted == AcceptedSince(events, window, key)
    && (forall a :: a in s.flights <==> a in Open(events, window, key) && a >= Creation(events, window, key).0)
    && (forall a :: a in s.flights ==> a < |events| && s.flights[a] == Handed(events, window, a))
  }

  lemma HandedEarlier(events: seq<Event>, window: int, attempt: nat)
    requires events != [] && attempt < |events| - 1
    ensures Handed(events, window, attempt) == Handed(events[..|events| - 1], window, attempt)
  {
    assert events[..|events| - 1][..attempt + 1] == events[..attempt + 1];
  }

  lemma AllHandedEarlier(events: seq<Event>, window: int)
    requires events != []
    ensures forall a :: 0 <= a < |events| - 1 ==> Handed(events, window, a) == Handed(events[..|events| - 1], window, a)
  {
    forall a | 0 <= a < |events| - 1
      ensures Handed(events, window, a) == Handed(events[..|events| - 1], window, a)
    {
      HandedEarlier(events, window, a);
    }
  }

  lemma {:induction false} CreationFollows(events: seq<Event>, window: int, key: EventKey, ds: seq<Destination>)
    requires events != [] && CreatesAt(events[..|events| - 1], events[|events| - 1], window, key)
    ensures Follows(events, window, key, LifeOf(events, window, key, ds))
  {
    var init, e := events[..|events| - 1], events[|events| - 1];
    OpenBefore(init, window, key);
    OwnReserve(Run(init, window), key, e.now, window, e.victims);
    assert events[..|init| + 1] == events;
  }

  lemma {:induction false} OtherFollows(events: seq<Event>, window: int, key: EventKey, ds: seq<Destination>)
    requires events != [] && events[|events| - 1].key != key && key in Run(events, window)
    requires key in Run(events[..|events| - 1], window) ==>
               Follows(events[..|events| - 1], window, key, LifeOf(events[..|events| - 1], window, key, ds))
    ensures Follows(events, window, key, LifeOf(events, window, key, ds))
  {
    var init, e := events[..|events| - 1], events[|events| - 1];
    KeptEntry(Run(init, window), e, window, key);
    AllHandedEarlier(events, window);
    assert AcceptedSince(init, window, key) + [] == AcceptedSince(init, window, key);
  }

  lemma HappenedThen(ds: seq<Destination>, born: Life, hs: seq<Happening>, h: Happening)
    requires Possible(ds, Lived(ds, born, hs), h)
    ensures Lived(ds, born, hs + [h]) == Live(Lived(ds, born, hs), h)
  {
    LivedThen(ds, born, hs, Lived(ds, born, hs), h, hs + [h]);
  }

  lemma AllowedIfIdle(t: Table, key: EventKey, now: int)
    requires !Creates(t, key, now)
    ensures key in t && Allowed(t, key, now) == !Busy(t[key])
  {
    SweptKeeps(t, key, now, key);
  }

  lemma {:induction false} AgainFollows(events: seq<Event>, window: int, key: EventKey, ds: seq<Destination>)
    requires events != [] && var e := events[|events| - 1]; e.Reserve? && e.key == key && !CreatesAt(events[..|events| - 1], e, window, key)
    requires Follows(events[..|events| - 1], window, key, LifeOf(events[..|events| - 1], window, key, ds))
    ensures Follows(events, window, key, LifeOf(events, window, key, ds))
  {
    var init, e := events[..|events| - 1], events[|events| - 1];
    var s := LifeOf(init, window, key, ds);
    OpenBefore(init, window, key);
    AgainLives(events, window, key, ds);
    AllHandedEarlier(events, window);
    OwnReserve(Run(init, window), key, e.now, window, e.victims);
    AllowedIfIdle(Run(init, window), key, e.now);
    HandedLast(events, window);
    assert AcceptedSince(init, window, key) + [] == AcceptedSince(init, window, key);
    CreationBefore(init, window, key);
  }

  lemma HandedLast(events: seq<Event>, window: int)
    requires events != [] && events[|events| - 1].key in Run(events, window)
    ensures Handed(events, window, |events| - 1) == Run(events, window)[events[|events| - 1].key].receipts
  {
    assert events[..|events| - 1 + 1] == events;
  }

  lemma {:induction false} AgainLives(events: seq<Event>, window: int, key: EventKey, ds: seq<Destination>)
    requires events != [] && var e := events[|events| - 1]; e.Reserve? && e.key == key && !CreatesAt(events[..|events| - 1], e, window, key)
    requires |events| - 1 !in LifeOf(events[..|events| - 1], window, key, ds).flights
    ensures LifeOf(events, window, key, ds) == Live(LifeOf(events[..|events| - 1], window, key, ds), Again(|events| - 1))
  {
    var init := events[..|events| - 1];
    var (attempt, now) := Creation(init, window, key);
    HappenedThen(ds, Born(key.base, now, window, attempt), Happenings(init, window, key), Again(|init|));
  }

  lemma {:induction false} CreationBefore(events: seq<Event>, window: int, key: EventKey)
    ensures Creation(events, window, key).0 <= |events|
  {
    if events != [] {
      CreationBefore(events[..|events| - 1], window, key);
    }
  }

  lemma {:induction false} FinishFollows(events: seq<Event>, window: int, key: EventKey, ds: seq<Destination>)
    requires events != [] && var e := events[|events| - 1]; e.Finish? && e.key == key && key in Run(events, window)
    requires Proper(events, window) && FansOut(events, window, key, ds)
    requires key in Run(events[..|events| - 1], window) ==>
               Follows(events[..|events| - 1], window, key, LifeOf(events[..|events| - 1], window, key, ds))
    ensures Follows(events, window, key, LifeOf(events, window, key, ds))
  {
    var init, e := events[..|events| - 1], events[|events| - 1];
    KeptEntry(Run(init, window), e, window, key);
    var s := LifeOf(init, window, key, ds);
    var c := Creation(init, window, key);
    AllHandedEarlier(events, window);
    var h := if e.attempt >= c.0 then Ends(e.attempt, e.results) else Late(e.results);
    assert IsAttempt(ds, Handed(init, window, e.attempt), e.results);
    assert Possible(ds, s, h);
    HappenedThen(ds, Born(key.base, c.1, window, c.0), Happenings(init, window, key), h);
    assert LifeOf(events, window, key, ds) == Live(s, h);
    assert AcceptedSince(init, window, key) + [] == AcceptedSince(init, window, key);
  }

  /** Along any run of the deduper whose attempts fan out to the same destinations, the entry of a key, from its creation to
      its removal, is the one of the lifetime told by the events since. */
  lemma {:induction false} EntryLives(events: seq<Event>, window: int, key: EventKey, ds: seq<Destination>)
    requires Proper(events, window) && FansOut(events, window, key, ds) && key in Run(events, window)
    ensures Follows(events, window, key, LifeOf(events, window, key, ds))
  {
    if events != [] {
      var init, e := events[..|events| - 1], events[|events| - 1];
      if key in Run(init, window) {
        EntryLives(init, window, key, ds);
      }
      if e.key != key {
        OtherFollows(events, window, key, ds);
      } else if CreatesAt(init, e, window, key) {
        CreationFollows(events, window, key, ds);
      } else if e.Reserve? {
        SweptKeeps(Run(init, window), key, e.now, key);
        AgainFollows(events, window, key, ds);
      } else {
        FinishFollows(events, window, key, ds);
      }
    }
  }

  /** No attempt outlives its entry into the next: then every attempt under way belongs to the latest entry. */
  lemma {:induction false} OwnAttempts(events: seq<Event>, window: int, key: EventKey)
    requires Proper(events, window) && NoneOutlives(events, window, key)
    ensures forall a :: a in Open(events, window, key) ==> a >= Creation(events, window, key).0
    ensures LateFree(Happenings(events, window, key))
  {
    if events != [] {
      OwnAttempts(events[..|events| - 1], window, key);
      CreationBefore(events[..|events| - 1], window, key);
    }
  }

  /** Over any run of the deduper in which no attempt outlives its entry into the next: in the lifetime of an entry no
      destination of a sound list accepts the event twice, and a list that is excludable throughout has all its receipts
      exactly when the idle entry says so. */
  lemma {:induction false} RunAcceptsOnce(events: seq<Event>, window: int, key: EventKey, ds: seq<Destination>, id: string)
    requires Proper(events, window) && FansOut(events, window, key, ds) && key in Run(events, window)
    requires Sound(ds) && NoneOutlives(events, window, key)
    ensures multiset(AcceptedSince(events, window, key))[id] <= 1
    ensures ds != [] && AllExcludable(ds) && !Run(events, window)[key].inFlight ==>
              (Run(events, window)[key].fullyDelivered <==> AllReceived(ds, Run(events, window)[key].receipts))
  {
    var c, hs := Creation(events, window, key), Happenings(events, window, key);
    EntryLives(events, window, key, ds);
    OwnAttempts(events, window, key);
    SoundLifetime(ds, key.base, c.1, window, c.0, hs, id);
    if ds != [] && AllExcludable(ds) {
      BornBalanced(ds, key.base, c.1, window, c.0);
      LifetimeBalanced(ds, Born(key.base, c.1, window, c.0), hs);
    }
  }

  lemma SinceSnoc(events: seq<Event>, e: Event, window: int, key: EventKey)
    ensures Creation(events + [e], window, key) == if CreatesAt(events, e, window, key) then (|events|, e.now) else Creation(events, window, key)
    ensures AcceptedSince(events + [e], window, key)
            == if CreatesAt(events, e, window, key) then []
               else AcceptedSince(events, window, key)
                    + if e.key == key && e.Finish? && e.attempt >= Creation(events, window, key).0 then Ids(e.results) else []
  {
    assert (events + [e])[..|events|] == events;
  }

  /** The run in which the first attempt outlives its entry, the second and the third then being accepted everywhere. */
  function StaleAccepted(key: EventKey, window: int, ds: seq<Destination>): seq<Event> {
    StaleRun(key, window, NOT_LISTED) + [Finish(key, 1, Everywhere(ds))] + [Finish(key, 3, Everywhere(ds))]
  }

  lemma {:induction false} StaleSince(key: EventKey, window: int)
    requires window > 0
    ensures var events := StaleRun(key, window, NOT_LISTED);
            Creation(events, window, key) == (1, window) && AcceptedSince(events, window, key) == []
  {
    var first := [Reserve(key, 0, [])];
    var second := first + [Reserve(key, window, [])];
    var third := second + [Finish(key, 0, NOT_LISTED)];
    assert first[..0] == [] && Run(first[..0], window) == map[];
    RunSnoc([], Reserve(key, 0, []), window, key);
    assert [] + first == first;
    OwnReserve(map[], key, 0, window, []);
    assert key !in Swept(Run(first, window), key, window);
    SinceSnoc(first, Reserve(key, window, []), window, key);
    SinceSnoc(second, Finish(key, 0, NOT_LISTED), window, key);
    SecondStarts(key, window);
    RunSnoc(second, Finish(key, 0, NOT_LISTED), window, key);
    assert key in Swept(Run(third, window), key, window);
    SinceSnoc(third, Reserve(key, window, []), window, key);
  }

  /** An attempt of the present entry ends. */
  lemma {:induction false} OneEnds(events: seq<Event>, window: int, key: EventKey, a: nat, results: seq<Delivery>)
    requires Proper(events, window) && a in Open(events, window, key) && a >= Creation(events, window, key).0
    ensures var more := events + [Finish(key, a, results)];
            && Proper(more, window) && Open(more, window, key) == Open(events, window, key) - {a}
            && Creation(more, window, key) == Creation(events, window, key)
            && AcceptedSince(more, window, key) == AcceptedSince(events, window, key) + Ids(results)
  {
    RunSnoc(events, Finish(key, a, results), window, key);
    SinceSnoc(events, Finish(key, a, results), window, key);
  }

  lemma {:induction false} TwoEnd(events: seq<Event>, window: int, key: EventKey, a: nat, b: nat, results: seq<Delivery>)
    requires Proper(events, window) && Open(events, window, key) == {a, b} && a != b
    requires a >= Creation(events, window, key).0 && b >= Creation(events, window, key).0 && AcceptedSince(events, window, key) == []
    ensures var more := events + [Finish(key, a, results)] + [Finish(key, b, results)];
            Proper(more, window) && AcceptedSince(more, window, key) == Ids(results) + Ids(results)
  {
    OneEnds(events, window, key, a, results);
    OneEnds(events + [Finish(key, a, results)], window, key, b, results);
  }

  /** With any destination at all, its list sound or not, that run of the deduper has it accept the event twice. */
  lemma {:induction false} StaleAcceptsTwice(key: EventKey, window: int, ds: seq<Destination>)
    requires window > 0 && ds != []
    ensures var events := StaleAccepted(key, window, ds);
            Proper(events, window) && multiset(AcceptedSince(events, window, key))[ds[0].id] >= 2
  {
    var results := Everywhere(ds);
    NotListed();
    StaleCompletionAdmits(key, window, NOT_LISTED);
    StaleSince(key, window);
    TwoEnd(StaleRun(key, window, NOT_LISTED), window, key, 1, 3, results);
    AllAccepted(ds);
    EachIdAt(ds, 0);
    FirstTwice(EachId(ds));
  }

  lemma FirstTwice(ids: seq<string>)
    requires ids != []
    ensures multiset(ids + ids)[ids[0]] >= 2
  {
    assert ids[0] in multiset(ids);
  }
}
