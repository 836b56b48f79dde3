/** The notification deduper: a bounded table of recent semantic events with an expiry. */
module Dedupe {
  import opened Wrap
  import Sums
  import Text

  datatype EventType =
    | IncidentOpened | IncidentUpdated | IncidentResolved | DiagnosticCreated
    | RemediationPending | RemediationExecuted
    | Ineligible(text: string)

  /** What identifies the lifecycle an event belongs to. */
  datatype Base = Base(incidentId: string, rule: string, serviceId: string, streamId: string,
                       resourceType: string, resourceId: string)

  /** The semantic event: its type, its lifecycle, and the rest of the hashed fields. The digest is
      represented by the record it is computed from. */
  datatype EventKey = EventKey(event: EventType, base: Base, details: string)

  predicate Eligible(event: EventType) {
    !event.Ineligible?
  }

  datatype Entry = Entry(
    base: Base, expiresAt: int, suppressionCount: nat, suppressionRecorded: bool,
    inFlight: bool, fullyDelivered: bool, receipts: set<string>)

  datatype Reservation = Reservation(
    key: Option<EventKey>, allowed: bool, suppressionCount: nat, recordSuppression: bool, receipts: set<string>)

  datatype Delivery = Delivery(channelId: string, success: bool)

  type Table = map<EventKey, Entry>

  const DEFAULT_WINDOW := 120_000_000_000
  const DEFAULT_MAX_ENTRIES := 512

  // ---- One entry ----

  function FreshEntry(base: Base, now: int, window: int): Entry {
    Entry(base, now + window, 0, false, true, false, {})
  }

  /** Another attempt is under way, or nothing is left to deliver. */
  predicate Busy(e: Entry) {
    e.inFlight || e.fullyDelivered
  }

  function Admit(e: Entry): Entry {
    e.(inFlight := true)
  }

  function Deny(e: Entry): Entry {
    e.(suppressionCount := e.suppressionCount + 1, suppressionRecorded := true)
  }

  /** Every selected destination accepted the event; nothing selected does not count. */
  predicate DeliverySucceeded(results: seq<Delivery>) {
    results != [] && forall i :: 0 <= i < |results| ==> results[i].success
  }

  function Receipts(results: seq<Delivery>): set<string> {
    set i | 0 <= i < |results| && results[i].success && Text.TrimSpace(results[i].channelId) != "" ::
      Text.TrimSpace(results[i].channelId)
  }

  function Completed(e: Entry, results: seq<Delivery>): Entry {
    e.(inFlight := false, fullyDelivered := DeliverySucceeded(results), receipts := e.receipts + Receipts(results))
  }

  // ---- The table ----

  function Prune(t: Table, now: int): Table {
    map k | k in t && t[k].expiresAt > now :: t[k]
  }

  /** A resolution drops the other entries of its lifecycle. */
  function Purge(t: Table, key: EventKey): Table {
    if key.event.IncidentResolved? then map k | k in t && !(k != key && t[k].base == key.base) :: t[k] else t
  }

  function Swept(t: Table, key: EventKey, now: int): Table {
    Purge(Prune(t, now), key)
  }

  /** Victims of an insertion: while the table is full, an entry with the least expiry goes. */
  ghost predicate LegalVictims(t: Table, victims: seq<EventKey>, max: int) {
    if |t| >= max then
      && victims != [] && victims[0] in t
      && (forall k :: k in t ==> t[victims[0]].expiresAt <= t[k].expiresAt)
      && LegalVictims(t - {victims[0]}, victims[1..], max)
    else victims == []
  }

  function Without(t: Table, victims: seq<EventKey>): Table {
    if victims == [] then t else Without(t - {victims[0]}, victims[1..])
  }

  predicate Creates(t: Table, key: EventKey, now: int) {
    key !in Swept(t, key, now)
  }

  predicate Allowed(t: Table, key: EventKey, now: int) {
    var swept := Swept(t, key, now);
    key !in swept || !Busy(swept[key])
  }

  function Reserved(t: Table, key: EventKey, now: int, window: int, victims: seq<EventKey>): Table {
    var swept := Swept(t, key, now);
    if key !in swept then Without(swept, victims)[key := FreshEntry(key.base, now, window)]
    else if Busy(swept[key]) then swept[key := Deny(swept[key])]
    else swept[key := Admit(swept[key])]
  }

  function Finished(t: Table, key: EventKey, results: seq<Delivery>): Table {
    if key in t then t[key := Completed(t[key], results)] else t
  }

  lemma {:induction false} WithoutKeeps(t: Table, victims: seq<EventKey>, max: int)
    requires max > 0 && LegalVictims(t, victims, max)
    ensures |Without(t, victims)| < max
    ensures forall k :: k in Without(t, victims) ==> k in t && Without(t, victims)[k] == t[k]
    ensures forall k, v :: k in Without(t, victims) && v in t && v !in Without(t, victims) ==> t[v].expiresAt <= t[k].expiresAt
    ensures |Without(t, victims)| == if |t| < max then |t| else max - 1
    decreases |victims|
  {
    if |t| >= max {
      var next := t - {victims[0]};
      assert next.Keys == t.Keys - {victims[0]};
      WithoutKeeps(next, victims[1..], max);
    }
  }

  /** These victims, taken one after another from a full table, lead from one table to another. */
  ghost predicate EvictedTo(t: Table, victims: seq<EventKey>, now: Table, max: int) {
    if victims == [] then now == t
    else
      && |t| >= max && victims[0] in t && (forall k :: k in t ==> t[victims[0]].expiresAt <= t[k].expiresAt)
      && EvictedTo(t - {victims[0]}, victims[1..], now, max)
  }

  lemma {:induction false} EvictSnoc(t: Table, victims: seq<EventKey>, now: Table, max: int, oldest: EventKey)
    requires EvictedTo(t, victims, now, max) && |now| >= max
    requires oldest in now && forall k :: k in now ==> now[oldest].expiresAt <= now[k].expiresAt
    ensures EvictedTo(t, victims + [oldest], now - {oldest}, max)
    decreases |victims|
  {
    if victims != [] {
      EvictSnoc(t - {victims[0]}, victims[1..], now, max, oldest);
      assert (victims + [oldest])[1..] == victims[1..] + [oldest];
    }
  }

  lemma {:induction false} EvictDone(t: Table, victims: seq<EventKey>, now: Table, max: int)
    requires EvictedTo(t, victims, now, max) && |now| < max
    ensures LegalVictims(t, victims, max) && now == Without(t, victims)
    decreases |victims|
  {
    if victims != [] {
      EvictDone(t - {victims[0]}, victims[1..], now, max);
    }
  }

  // ---- Runs ----

  /** A completion names the attempt it ends by the position of the reservation that admitted it; the table does not. */
  datatype Event =
    | Reserve(key: EventKey, now: int, victims: seq<EventKey>)
    | Finish(key: EventKey, attempt: nat, results: seq<Delivery>)

  function Apply(t: Table, e: Event, window: int): Table {
    match e
    case Reserve(key, now, victims) => Reserved(t, key, now, window, victims)
    case Finish(key, _, results) => Finished(t, key, results)
  }

  ghost predicate Legal(t: Table, e: Event, max: int) {
    e.Reserve? && Creates(t, e.key, e.now) ==> LegalVictims(Swept(t, e.key, e.now), e.victims, max)
  }

  function Run(events: seq<Event>, window: int): Table {
    if events == [] then map[] else Apply(Run(events[..|events| - 1], window), events[|events| - 1], window)
  }

  ghost predicate LegalRun(events: seq<Event>, window: int, max: int) {
    events == [] || (LegalRun(events[..|events| - 1], window, max)
                     && Legal(Run(events[..|events| - 1], window), events[|events| - 1], max))
  }

  /** What the calls for one key have answered since its entry was last created. */
  datatype Lifetime = Lifetime(createdAt: int, denials: nat, recorded: nat, deniedInTime: bool)

  function History(events: seq<Event>, window: int, key: EventKey): Lifetime {
    if events == [] then Lifetime(0, 0, 0, true)
    else
      var init, e := events[..|events| - 1], events[|events| - 1];
      var before, t := History(init, window, key), Run(init, window);
      if !e.Reserve? || e.key != key then before
      else if Creates(t, key, e.now) then Lifetime(e.now, 0, 0, true)
      else if Allowed(t, key, e.now) then before
      else Lifetime(before.createdAt, before.denials + 1,
                    before.recorded + (if t[key].suppressionRecorded then 0 else 1),
                    before.deniedInTime && e.now < before.createdAt + window)
  }

  ghost predicate EntryTells(events: seq<Event>, window: int, key: EventKey, entry: Entry) {
    var h := History(events, window, key);
    && entry.base == key.base
    && entry.expiresAt == h.createdAt + window
    && entry.suppressionCount == h.denials
    && (entry.suppressionRecorded <==> h.denials > 0)
    && h.recorded == (if h.denials > 0 then 1 else 0)
    && h.deniedInTime
  }

  lemma SweptKeeps(t: Table, key: EventKey, now: int, k: EventKey)
    requires k in Swept(t, key, now)
    ensures k in t && Swept(t, key, now)[k] == t[k] && t[k].expiresAt > now
  {
  }

  lemma {:induction false} WithoutSubset(t: Table, victims: seq<EventKey>)
    ensures forall k :: k in Without(t, victims) ==> k in t && Without(t, victims)[k] == t[k]
    ensures |Without(t, victims)| <= |t|
    decreases |victims|
  {
    if victims != [] {
      WithoutSubset(t - {victims[0]}, victims[1..]);
      assert (t - {victims[0]}).Keys <= t.Keys;
      Sums.CardSubset((t - {victims[0]}).Keys, t.Keys);
    }
  }

  /** Agreement on everything but the delivery state. */
  predicate SameTally(a: Entry, b: Entry) {
    && a.base == b.base && a.expiresAt == b.expiresAt
    && a.suppressionCount == b.suppressionCount && a.suppressionRecorded == b.suppressionRecorded
  }

  lemma TallyKept(t: Table, e: Event, window: int, key: EventKey)
    requires !(e.Reserve? && e.key == key) && key in Apply(t, e, window)
    ensures key in t && SameTally(Apply(t, e, window)[key], t[key])
  {
    if e.Reserve? {
      WithoutSubset(Swept(t, e.key, e.now), e.victims);
      SweptKeeps(t, e.key, e.now, key);
    }
  }

  lemma OwnReserve(t: Table, key: EventKey, now: int, window: int, victims: seq<EventKey>)
    ensures var next := Reserved(t, key, now, window, victims);
            && key in next
            && (Creates(t, key, now) ==> next[key] == FreshEntry(key.base, now, window))
            && (!Creates(t, key, now) ==> key in t && t[key].expiresAt > now
                                          && next[key] == if Allowed(t, key, now) then Admit(t[key]) else Deny(t[key]))
  {
  }

  /** In every run, each live entry tells its own history: its expiry is its creation time plus one
      window and is never extended, its counter is the number of denials since then, exactly one of
      those denials asked for a record, and each came before the expiry. */
  lemma {:induction false} RunTells(events: seq<Event>, window: int, key: EventKey)
    ensures key in Run(events, window) ==> EntryTells(events, window, key, Run(events, window)[key])
  {
    if events != [] {
      var init, e := events[..|events| - 1], events[|events| - 1];
      RunTells(init, window, key);
      if e.Reserve? && e.key == key {
        OwnReserve(Run(init, window), key, e.now, window, e.victims);
      } else if key in Run(events, window) {
        TallyKept(Run(init, window), e, window, key);
      }
    }
  }

  /** As long as an entry is not dropped and created anew, each event moves it as follows; every
      other key's events leave it alone. */
  lemma EntryMoves(t: Table, e: Event, window: int, key: EventKey)
    requires key in t && key in Apply(t, e, window)
    requires e.Reserve? && e.key == key ==> !Creates(t, key, e.now)
    ensures Apply(t, e, window)[key] ==
            if e.key != key then t[key]
            else if e.Finish? then Completed(t[key], e.results)
            else if Busy(t[key]) then Deny(t[key])
            else Admit(t[key])
  {
    if e.Reserve? {
      WithoutSubset(Swept(t, e.key, e.now), e.victims);
    }
  }

  /** No run leaves more entries than the cap. */
  lemma {:induction false} RunBounded(events: seq<Event>, window: int, max: int)
    requires max > 0 && LegalRun(events, window, max)
    ensures |Run(events, window)| <= max
  {
    if events != [] {
      var init, e := events[..|events| - 1], events[|events| - 1];
      RunBounded(init, window, max);
      var t := Run(init, window);
      if e.Reserve? {
        var swept := Swept(t, e.key, e.now);
        Sums.CardSubset(swept.Keys, t.Keys);
        if e.key !in swept {
          WithoutKeeps(swept, e.victims, max);
        }
      }
    }
  }

  lemma ClearedStays(t: Table, e: Event, window: int, key: EventKey)
    requires key !in t && !(e.Reserve? && e.key == key)
    ensures key !in Apply(t, e, window)
  {
    if e.Reserve? {
      WithoutSubset(Swept(t, e.key, e.now), e.victims);
    }
  }

  lemma ResolutionClears(t: Table, e: Event, window: int, opening: EventKey)
    requires e.Reserve? && e.key.event.IncidentResolved? && e.key != opening
    requires opening in t ==> t[opening].base == e.key.base
    ensures opening !in Apply(t, e, window)
  {
    assert opening !in Swept(t, e.key, e.now);
    WithoutSubset(Swept(t, e.key, e.now), e.victims);
  }

  /** After a resolution, an opening of the same lifecycle finds no entry until it is itself reserved. */
  lemma {:induction false} ResolvedClears(events: seq<Event>, window: int, n: nat, opening: EventKey)
    requires n < |events| && events[n].Reserve? && events[n].key.event.IncidentResolved?
    requires opening.event.IncidentOpened? && opening.base == events[n].key.base
    requires forall i :: n < i < |events| ==> !(events[i].Reserve? && events[i].key == opening)
    ensures opening !in Run(events, window)
  {
    var init, e := events[..|events| - 1], events[|events| - 1];
    if n < |events| - 1 {
      ResolvedClears(init, window, n, opening);
      ClearedStays(Run(init, window), e, window, opening);
    } else {
      RunTells(init, window, opening);
      ResolutionClears(Run(init, window), e, window, opening);
    }
  }

  /** So the next opening of that lifecycle is always allowed. */
  lemma OpeningAfterResolution(events: seq<Event>, window: int, n: nat, opening: EventKey, now: int)
    requires n < |events| && events[n].Reserve? && events[n].key.event.IncidentResolved?
    requires opening.event.IncidentOpened? && opening.base == events[n].key.base
    requires forall i :: n < i < |events| ==> !(events[i].Reserve? && events[i].key == opening)
    ensures Allowed(Run(events, window), opening, now)
  {
    ResolvedClears(events, window, n, opening);
  }

  // ---- The object ----

  class NotificationDeduper {
    var entries: Table
    const window: int
    const maxEntries: int

    constructor (window: int, maxEntries: int)
      ensures entries == map[] && this.window == window && this.maxEntries == maxEntries
    {
      entries := map[];
      this.window, this.maxEntries := window, maxEntries;
    }

    /** The configured window, or two minutes; never empty. */
    function DedupeWindow(): (w: int)
      ensures w > 0 && (w == window || (window <= 0 && w == 120_000_000_000))
    {
      if window > 0 then window else DEFAULT_WINDOW
    }

    /** The configured cap, or 512; never empty. */
    function DedupeMaxEntries(): (n: int)
      ensures n > 0 && (n == maxEntries || (maxEntries <= 0 && n == 512))
    {
      if maxEntries > 0 then maxEntries else DEFAULT_MAX_ENTRIES
    }

    method PruneLocked(now: int)
      modifies this
      ensures entries == Prune(old(entries), now)
    {
      var todo := entries.Keys;
      while todo != {}
        invariant todo <= entries.Keys <= old(entries).Keys
        invariant forall k :: k in entries ==> entries[k] == old(entries)[k]
        invariant forall k :: k in old(entries) && k !in todo ==> (k in entries <==> old(entries)[k].expiresAt > now)
        decreases todo
      {
        var k :| k in todo;
        todo := todo - {k};
        if entries[k].expiresAt <= now {
          entries := entries - {k};
        }
      }
    }

    method PurgeLocked(key: EventKey)
      requires key.event.IncidentResolved?
      modifies this
      ensures entries == Purge(old(entries), key)
    {
      var todo := entries.Keys;
      while todo != {}
        invariant todo <= entries.Keys <= old(entries).Keys
        invariant forall k :: k in entries ==> entries[k] == old(entries)[k]
        invariant forall k :: k in old(entries) && k !in todo ==>
                                (k in entries <==> !(k != key && old(entries)[k].base == key.base))
        decreases todo
      {
        var k :| k in todo;
        todo := todo - {k};
        if k != key && entries[k].base == key.base {
          entries := entries - {k};
        }
      }
    }

    /** The inner scan of the eviction loop. */
    method Oldest() returns (oldest: EventKey)
      requires entries != map[]
      ensures oldest in entries && forall k :: k in entries ==> entries[oldest].expiresAt <= entries[k].expiresAt
    {
      var found: Option<EventKey> := None;
      var todo := entries.Keys;
      while todo != {}
        invariant todo <= entries.Keys
        invariant found.None? ==> todo == entries.Keys
        invariant found.Some? ==> found.value in entries
                                  && forall k :: k in entries && k !in todo ==> entries[found.value].expiresAt <= entries[k].expiresAt
        decreases todo
      {
        var k :| k in todo;
        todo := todo - {k};
        if found.None? || entries[k].expiresAt < entries[found.value].expiresAt {
          found := Some(k);
        }
      }
      oldest := found.value;
    }

    method EvictForInsertLocked() returns (ghost victims: seq<EventKey>)
      modifies this
      ensures LegalVictims(old(entries), victims, DedupeMaxEntries())
      ensures entries == Without(old(entries), victims)
    {
      victims := [];
      while |entries| >= DedupeMaxEntries()
        invariant EvictedTo(old(entries), victims, entries, DedupeMaxEntries())
        decreases |entries|
      {
        var oldest := Oldest();
        EvictSnoc(old(entries), victims, entries, DedupeMaxEntries(), oldest);
        assert (entries - {oldest}).Keys == entries.Keys - {oldest};
        entries := entries - {oldest};
        victims := victims + [oldest];
      }
      EvictDone(old(entries), victims, entries, DedupeMaxEntries());
    }

    method Reserve(key: EventKey, now: int) returns (r: Reservation, ghost victims: seq<EventKey>)
      modifies this
      ensures !Eligible(key.event) ==> entries == old(entries) && r == Reservation(None, true, 0, false, {})
      ensures Eligible(key.event) ==>
                && r.key == Some(key)
                && Legal(old(entries), Event.Reserve(key, now, victims), DedupeMaxEntries())
                && entries == Reserved(old(entries), key, now, DedupeWindow(), victims)
                && r.allowed == Allowed(old(entries), key, now)
                && r.receipts == (if r.allowed then entries[key].receipts else {})
                && r.suppressionCount == (if r.allowed then 0 else entries[key].suppressionCount)
                && (r.recordSuppression <==> !r.allowed && !old(entries)[key].suppressionRecorded)
    {
      victims := [];
      if !Eligible(key.event) {
        return Reservation(None, true, 0, false, {}), [];
      }
      PruneLocked(now);
      if key.event.IncidentResolved? {
        PurgeLocked(key);
      }
      assert entries == Swept(old(entries), key, now);
      if key in entries && entries[key].expiresAt > now {
        var entry := entries[key];
        if !entry.inFlight && !entry.fullyDelivered {
          entry := entry.(inFlight := true);
          entries := entries[key := entry];
          return Reservation(Some(key), true, 0, false, entry.receipts), [];
        }
        entry := entry.(suppressionCount := entry.suppressionCount + 1);
        var record := !entry.suppressionRecorded;
        entry := entry.(suppressionRecorded := true);
        entries := entries[key := entry];
        return Reservation(Some(key), false, entry.suppressionCount, record, {}), [];
      }
      victims := EvictForInsertLocked();
      entries := entries[key := FreshEntry(key.base, now, DedupeWindow())];
      r := Reservation(Some(key), true, 0, false, {});
    }

    method Complete(reservation: Reservation, results: seq<Delivery>)
      modifies this
      ensures entries == if reservation.key.Some? && reservation.allowed then Finished(old(entries), reservation.key.value, results)
                         else old(entries)
    {
      if reservation.key.None? || !reservation.allowed {
        return;
      }
      var key := reservation.key.value;
      if key !in entries {
        return;
      }
      var entry := entries[key];
      entry := entry.(inFlight := false, fullyDelivered := DeliverySucceeded(results));
      for i := 0 to |results|
        invariant entries == old(entries) && key in entries
        invariant entry == entries[key].(inFlight := false, fullyDelivered := DeliverySucceeded(results),
                  receipts := entries[key].receipts + Receipts(results[..i]))
      {
        assert results[..i + 1] == results[..i] + [results[i]];
        ReceiptsSnoc(results[..i], results[i]);
        if !results[i].success {
          continue;
        }
        var channelId := Text.TrimSpace(results[i].channelId);
        if channelId != "" {
          entry := entry.(receipts := entry.receipts + {channelId});
        }
      }
      assert results[..|results|] == results;
      entries := entries[key := entry];
    }
  }

  lemma ReceiptsSnoc(results: seq<Delivery>, r: Delivery)
    ensures Receipts(results + [r])
            == Receipts(results) + (if r.success && Text.TrimSpace(r.channelId) != "" then {Text.TrimSpace(r.channelId)} else {})
  {
    var all := results + [r];
    assert forall i :: 0 <= i < |results| ==> all[i] == results[i];
    assert all[|results|] == r;
    forall id | id in Receipts(results)
      ensures id in Receipts(all)
    {
      var i :| 0 <= i < |results| && results[i].success && Text.TrimSpace(results[i].channelId) != ""
               && Text.TrimSpace(results[i].channelId) == id;
      assert all[i] == results[i];
    }
  }
}
