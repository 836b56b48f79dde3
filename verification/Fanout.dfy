/** Fanning one semantic event out to the notification channels: which destinations an attempt reaches, and which of them
    its receipts name. */
module Fanout {
  import opened Wrap
  import opened Dedupe
  import Text

  datatype Channel = Channel(
    id: string, email: bool, enabled: bool, recipients: seq<string>,
    severityFilter: seq<string>, eventTypeFilter: seq<string>)

  /** One place a message goes to, under the identifier that its receipt uses. */
  datatype Destination = Destination(id: string)

  const ADMIN_AUDIT := "admin.audit"

  predicate ContainsFold(values: seq<string>, want: string) {
    exists i :: 0 <= i < |values| && Text.ToLower(Text.TrimSpace(values[i])) == Text.ToLower(want)
  }

  predicate MatchesFilters(c: Channel, severity: string, eventType: string) {
    && (c.severityFilter != [] ==> ContainsFold(c.severityFilter, severity))
    && (c.eventTypeFilter != [] ==> ContainsFold(c.eventTypeFilter, eventType))
  }

  predicate Selected(c: Channel, severity: string, eventType: string) {
    c.enabled && (eventType == ADMIN_AUDIT || MatchesFilters(c, severity, eventType))
  }

  /** The digest is the hash prefix of the normalised address. */
  function EmailDestinationId(channelId: string, recipient: string, digest: string -> string): string {
    Text.TrimSpace(channelId) + "/recipient/" + digest(Text.ToLower(Text.TrimSpace(recipient)))
  }

  function RecipientsOf(channelId: string, recipients: seq<string>, digest: string -> string): seq<Destination> {
    seq(|recipients|, i requires 0 <= i < |recipients| => Destination(EmailDestinationId(channelId, recipients[i], digest)))
  }

  function DestinationsOf(c: Channel, digest: string -> string): seq<Destination> {
    if c.email then RecipientsOf(c.id, c.recipients, digest) else [Destination(c.id)]
  }

  /** All destinations of the selected channels, in sending order. */
  function Destinations(channels: seq<Channel>, severity: string, eventType: string, digest: string -> string): seq<Destination> {
    if channels == [] then []
    else
      var init, c := channels[..|channels| - 1], channels[|channels| - 1];
      Destinations(init, severity, eventType, digest)
      + if Selected(c, severity, eventType) then DestinationsOf(c, digest) else []
  }

  predicate Excluded(d: Destination, receipts: set<string>) {
    d.id != "" && d.id in receipts
  }

  /** One result per destination that is not excluded; the n-th outcome is the n-th destination's. */
  function Deliver(ds: seq<Destination>, receipts: set<string>, outcomes: seq<bool>): seq<Delivery>
    requires |outcomes| == |ds|
  {
    if ds == [] then []
    else
      var last := |ds| - 1;
      Deliver(ds[..last], receipts, outcomes[..last])
      + if Excluded(ds[last], receipts) then [] else [Delivery(ds[last].id, outcomes[last])]
  }

  lemma {:induction false} DeliverAppend(a: seq<Destination>, b: seq<Destination>, receipts: set<string>, x: seq<bool>, y: seq<bool>)
    requires |a| == |x| && |b| == |y|
    ensures Deliver(a + b, receipts, x + y) == Deliver(a, receipts, x) + Deliver(b, receipts, y)
  {
    if b == [] {
      assert a + b == a && x + y == x;
    } else {
      var m := |b| - 1;
      assert (a + b)[..|a + b| - 1] == a + b[..m] && (x + y)[..|x + y| - 1] == x + y[..m];
      DeliverAppend(a, b[..m], receipts, x, y[..m]);
    }
  }

  lemma DeliverSnoc(ds: seq<Destination>, n: nat, receipts: set<string>, outcomes: seq<bool>)
    requires n < |ds| && |outcomes| == n + 1
    ensures Deliver(ds[..n + 1], receipts, outcomes)
            == Deliver(ds[..n], receipts, outcomes[..n]) + if Excluded(ds[n], receipts) then [] else [Delivery(ds[n].id, outcomes[n])]
  {
    assert ds[..n + 1][..n] == ds[..n];
  }

  /** Whether each of `n` destinations accepts, counting from position `first`. */
  function Outcomes(accepts: nat -> bool, first: nat, n: nat): seq<bool> {
    seq(n, i requires 0 <= i => accepts(first + i))
  }

  lemma OutcomesAppend(accepts: nat -> bool, first: nat, n: nat, more: nat)
    ensures Outcomes(accepts, first, n + more) == Outcomes(accepts, first, n) + Outcomes(accepts, first + n, more)
  {
  }

  lemma SentAppend(ds: seq<Destination>, more: seq<Destination>, excluded: set<string>, accepts: nat -> bool)
    ensures Deliver(ds + more, excluded, Outcomes(accepts, 0, |ds + more|))
            == Deliver(ds, excluded, Outcomes(accepts, 0, |ds|)) + Deliver(more, excluded, Outcomes(accepts, |ds|, |more|))
  {
    var x, y := Outcomes(accepts, 0, |ds|), Outcomes(accepts, |ds|, |more|);
    assert Outcomes(accepts, 0, |ds + more|) == x + y by {
      OutcomesAppend(accepts, 0, |ds|, |more|);
    }
    DeliverAppend(ds, more, excluded, x, y);
  }

  lemma DestinationsSnoc(channels: seq<Channel>, n: nat, severity: string, eventType: string, digest: string -> string)
    requires n < |channels|
    ensures Destinations(channels[..n + 1], severity, eventType, digest)
            == Destinations(channels[..n], severity, eventType, digest)
               + if Selected(channels[n], severity, eventType) then DestinationsOf(channels[n], digest) else []
  {
    assert channels[..n + 1][..n] == channels[..n];
  }

  // ---- Who gets a result ----

  predicate HasResult(results: seq<Delivery>, id: string) {
    exists k :: 0 <= k < |results| && results[k].channelId == id
  }

  /** One of the entries is the wanted text, up to white space around it and case. */
  predicate Lists(entries: seq<string>, want: string) {
    exists i :: 0 <= i < |entries| && Text.ToLower(Text.TrimSpace(entries[i])) == Text.ToLower(want)
  }

  /** The channel asks for the event: an audit event reaches all, any other has to be on both lists, an empty list naming everything. */
  predicate AsksFor(c: Channel, severity: string, eventType: string) {
    || eventType == "admin.audit"
    || ((c.severityFilter == [] || Lists(c.severityFilter, severity)) && (c.eventTypeFilter == [] || Lists(c.eventTypeFilter, eventType)))
  }

  /** The identifier of a webhook channel, or of one of the recipients of an email channel: the trimmed channel identifier and the digest of the
      address, trimmed and in lower case. */
  predicate Names(c: Channel, digest: string -> string, id: string) {
    if c.email then exists r :: 0 <= r < |c.recipients| && id == Text.TrimSpace(c.id) + "/recipient/" + digest(Text.ToLower(Text.TrimSpace(c.recipients[r])))
    else id == c.id
  }

  predicate Addressed(channels: seq<Channel>, severity: string, eventType: string, digest: string -> string, id: string) {
    exists n :: 0 <= n < |channels| && channels[n].enabled && AsksFor(channels[n], severity, eventType) && Names(channels[n], digest, id)
  }

  predicate HasId(ds: seq<Destination>, id: string) {
    exists i :: 0 <= i < |ds| && ds[i].id == id
  }

  lemma HasIdAppend(a: seq<Destination>, b: seq<Destination>, id: string)
    ensures HasId(a + b, id) <==> HasId(a, id) || HasId(b, id)
  {
    var all := a + b;
    if HasId(a, id) {
      var i :| 0 <= i < |a| && a[i].id == id;
      assert all[i].id == id;
    }
    if HasId(b, id) {
      var i :| 0 <= i < |b| && b[i].id == id;
      assert all[|a| + i].id == id;
    }
    if HasId(all, id) {
      var i :| 0 <= i < |all| && all[i].id == id;
      assert if i < |a| then a[i].id == id else b[i - |a|].id == id;
    }
  }

  lemma HasResultSnoc(results: seq<Delivery>, r: Delivery, id: string)
    ensures HasResult(results + [r], id) <==> HasResult(results, id) || r.channelId == id
  {
    var more := results + [r];
    if HasResult(results, id) {
      var k :| 0 <= k < |results| && results[k].channelId == id;
      assert more[k].channelId == id;
    }
    assert more[|results|] == r;
    if HasResult(more, id) && r.channelId != id {
      var k :| 0 <= k < |more| && more[k].channelId == id;
      assert results[k].channelId == id;
    }
  }

  lemma {:induction false} ResultIffSent(ds: seq<Destination>, receipts: set<string>, outcomes: seq<bool>, id: string)
    requires |outcomes| == |ds| && "" !in receipts
    ensures HasResult(Deliver(ds, receipts, outcomes), id) <==> HasId(ds, id) && id !in receipts
  {
    if ds != [] {
      var last := |ds| - 1;
      var rest := Deliver(ds[..last], receipts, outcomes[..last]);
      ResultIffSent(ds[..last], receipts, outcomes[..last], id);
      assert ds == ds[..last] + [ds[last]];
      HasIdAppend(ds[..last], [ds[last]], id);
      assert HasId([ds[last]], id) <==> ds[last].id == id by {
        assert [ds[last]][0] == ds[last];
      }
      HasResultSnoc(rest, Delivery(ds[last].id, outcomes[last]), id);
      assert rest + [] == rest;
    }
  }

  lemma ChannelNames(c: Channel, digest: string -> string, id: string)
    ensures HasId(DestinationsOf(c, digest), id) <==> Names(c, digest, id)
  {
    var ds := DestinationsOf(c, digest);
    if c.email {
      if HasId(ds, id) {
        var r :| 0 <= r < |ds| && ds[r].id == id;
        assert id == EmailDestinationId(c.id, c.recipients[r], digest);
      }
      if Names(c, digest, id) {
        var r :| 0 <= r < |c.recipients| && id == EmailDestinationId(c.id, c.recipients[r], digest);
        assert ds[r].id == id;
      }
    } else {
      assert ds[0].id == c.id;
    }
  }

  lemma SelectedAsks(c: Channel, severity: string, eventType: string)
    ensures Selected(c, severity, eventType) <==> c.enabled && AsksFor(c, severity, eventType)
  {
    assert ContainsFold(c.severityFilter, severity) == Lists(c.severityFilter, severity);
    assert ContainsFold(c.eventTypeFilter, eventType) == Lists(c.eventTypeFilter, eventType);
  }

  lemma AddressedSnoc(channels: seq<Channel>, severity: string, eventType: string, digest: string -> string, id: string)
    requires channels != []
    ensures var last := |channels| - 1;
            Addressed(channels, severity, eventType, digest, id)
            <==> Addressed(channels[..last], severity, eventType, digest, id)
                 || (channels[last].enabled && AsksFor(channels[last], severity, eventType) && Names(channels[last], digest, id))
  {
    var last := |channels| - 1;
    var init := channels[..last];
    if Addressed(init, severity, eventType, digest, id) {
      var n :| 0 <= n < last && init[n].enabled && AsksFor(init[n], severity, eventType) && Names(init[n], digest, id);
      assert channels[n] == init[n];
    }
    if Addressed(channels, severity, eventType, digest, id) {
      var n :| 0 <= n <= last && channels[n].enabled && AsksFor(channels[n], severity, eventType) && Names(channels[n], digest, id);
      assert n < last ==> init[n] == channels[n];
    }
  }

  /** The destinations are exactly those of the enabled channels that ask for the event. */
  lemma {:induction false} DestinationIff(channels: seq<Channel>, severity: string, eventType: string, digest: string -> string, id: string)
    ensures HasId(Destinations(channels, severity, eventType, digest), id) <==> Addressed(channels, severity, eventType, digest, id)
  {
    if channels != [] {
      var init, c := channels[..|channels| - 1], channels[|channels| - 1];
      DestinationIff(init, severity, eventType, digest, id);
      AddressedSnoc(channels, severity, eventType, digest, id);
      SelectedAsks(c, severity, eventType);
      ChannelNames(c, digest, id);
      HasIdAppend(Destinations(init, severity, eventType, digest), DestinationsOf(c, digest), id);
      assert Destinations(init, severity, eventType, digest) + [] == Destinations(init, severity, eventType, digest);
    }
  }

  lemma ResultsAddressed(channels: seq<Channel>, severity: string, eventType: string, excluded: set<string>, digest: string -> string,
                         outcomes: seq<bool>)
    requires "" !in excluded && |outcomes| == |Destinations(channels, severity, eventType, digest)|
    ensures var results := Deliver(Destinations(channels, severity, eventType, digest), excluded, outcomes);
            forall id :: HasResult(results, id) <==> id !in excluded && Addressed(channels, severity, eventType, digest, id)
  {
    forall id
      ensures HasResult(Deliver(Destinations(channels, severity, eventType, digest), excluded, outcomes), id)
              <==> id !in excluded && Addressed(channels, severity, eventType, digest, id)
    {
      ResultIffSent(Destinations(channels, severity, eventType, digest), excluded, outcomes, id);
      DestinationIff(channels, severity, eventType, digest, id);
    }
  }

  /** The channel loop. Whether a send is accepted depends on the position of its destination alone; the fallback
      notifier is used only when no channel was selected. */
  method NotifyIncidentEvent(channels: seq<Channel>, severity: string, eventType: string, excluded: set<string>,
                             digest: string -> string, accepts: nat -> bool, hasFallback: bool)
    returns (results: seq<Delivery>, useFallback: bool)
    requires "" !in excluded
    ensures var ds := Destinations(channels, severity, eventType, digest);
            results == Deliver(ds, excluded, Outcomes(accepts, 0, |ds|))
    ensures forall id :: HasResult(results, id) <==> id !in excluded && Addressed(channels, severity, eventType, digest, id)
    ensures useFallback <==> hasFallback && forall i :: 0 <= i < |channels| ==> !(channels[i].enabled && AsksFor(channels[i], severity, eventType))
  {
    results := [];
    var matchedChannel := false;
    ghost var ds: seq<Destination> := [];
    var position := 0;
    for n := 0 to |channels|
      invariant ds == Destinations(channels[..n], severity, eventType, digest)
      invariant position == |ds| && results == Deliver(ds, excluded, Outcomes(accepts, 0, |ds|))
      invariant matchedChannel <==> exists i :: 0 <= i < n && Selected(channels[i], severity, eventType)
    {
      var channel := channels[n];
      DestinationsSnoc(channels, n, severity, eventType, digest);
      assert ds + [] == ds;
      if !channel.enabled {
        continue;
      }
      if eventType != ADMIN_AUDIT && !MatchesFilters(channel, severity, eventType) {
        continue;
      }
      matchedChannel := true;
      assert Selected(channels[n], severity, eventType);
      var sent := SendChannel(channel, excluded, digest, accepts, position);
      var more := DestinationsOf(channel, digest);
      SentAppend(ds, more, excluded, accepts);
      results := results + sent;
      ds, position := ds + more, position + |more|;
    }
    assert channels[..|channels|] == channels;
    ResultsAddressed(channels, severity, eventType, excluded, digest, Outcomes(accepts, 0, |ds|));
    useFallback := |results| == 0 && !matchedChannel && hasFallback;
    forall i | 0 <= i < |channels|
      ensures Selected(channels[i], severity, eventType) <==> channels[i].enabled && AsksFor(channels[i], severity, eventType)
    {
      SelectedAsks(channels[i], severity, eventType);
    }
    if !matchedChannel {
      NoneSelected(channels, severity, eventType, digest);
    }
  }

  lemma {:induction false} NoneSelected(channels: seq<Channel>, severity: string, eventType: string, digest: string -> string)
    requires forall i :: 0 <= i < |channels| ==> !Selected(channels[i], severity, eventType)
    ensures Destinations(channels, severity, eventType, digest) == []
  {
    if channels != [] {
      NoneSelected(channels[..|channels| - 1], severity, eventType, digest);
    }
  }

  /** The destinations of one selected channel, the first of them at the given position. */
  method SendChannel(channel: Channel, excluded: set<string>, digest: string -> string, accepts: nat -> bool, first: nat)
    returns (results: seq<Delivery>)
    requires "" !in excluded
    ensures var ds := DestinationsOf(channel, digest);
            results == Deliver(ds, excluded, Outcomes(accepts, first, |ds|))
  {
    results := [];
    if !channel.email {
      assert DestinationsOf(channel, digest)[..0] == [];
      if channel.id != "" && channel.id in excluded {
        return;
      }
      return [Delivery(channel.id, accepts(first))];
    }
    ghost var ds := RecipientsOf(channel.id, channel.recipients, digest);
    for i := 0 to |channel.recipients|
      invariant results == Deliver(ds[..i], excluded, Outcomes(accepts, first, i))
    {
      var destinationId := EmailDestinationId(channel.id, channel.recipients[i], digest);
      DeliverSnoc(ds, i, excluded, Outcomes(accepts, first, i + 1));
      assert Outcomes(accepts, first, i + 1)[..i] == Outcomes(accepts, first, i);
      assert results + [] == results && destinationId != "";
      if destinationId in excluded {
        continue;
      }
      results := results + [Delivery(destinationId, accepts(first + i))];
    }
    assert ds[..|channel.recipients|] == ds;
  }

  // ---- Accepted and received ----

  /** The identifiers of the successful results, in order. */
  function Ids(results: seq<Delivery>): seq<string> {
    if results == [] then []
    else Ids(results[..|results| - 1]) + if results[|results| - 1].success then [results[|results| - 1].channelId] else []
  }

  predicate DistinctIds(ds: seq<Destination>) {
    forall i, j :: 0 <= i < j < |ds| ==> ds[i].id != ds[j].id
  }

  /** Its receipt is found again: not empty, and recorded as it is looked up. */
  predicate Excludable(d: Destination) {
    d.id != "" && Text.Trimmed(d.id)
  }

  predicate AllExcludable(ds: seq<Destination>) {
    forall i :: 0 <= i < |ds| ==> Excludable(ds[i])
  }

  /** Destinations reached by one attempt. */
  predicate Reached(ds: seq<Destination>, receipts: set<string>, outcomes: seq<bool>, id: string)
    requires |outcomes| == |ds|
  {
    exists i :: 0 <= i < |ds| && ds[i].id == id && !Excluded(ds[i], receipts) && outcomes[i]
  }

  lemma ReachedSnoc(ds: seq<Destination>, receipts: set<string>, outcomes: seq<bool>, id: string)
    requires |outcomes| == |ds| && ds != []
    ensures var last := |ds| - 1;
            Reached(ds, receipts, outcomes, id) <==>
            Reached(ds[..last], receipts, outcomes[..last], id)
            || (ds[last].id == id && !Excluded(ds[last], receipts) && outcomes[last])
  {
    var last := |ds| - 1;
    if Reached(ds[..last], receipts, outcomes[..last], id) {
      var i :| 0 <= i < last && ds[..last][i].id == id && !Excluded(ds[..last][i], receipts) && outcomes[..last][i];
      assert ds[i].id == id && !Excluded(ds[i], receipts) && outcomes[i];
    }
    if Reached(ds, receipts, outcomes, id) {
      var i :| 0 <= i < |ds| && ds[i].id == id && !Excluded(ds[i], receipts) && outcomes[i];
      if i < last {
        assert ds[..last][i].id == id && !Excluded(ds[..last][i], receipts) && outcomes[..last][i];
      }
    }
  }

  lemma IdsSnoc(results: seq<Delivery>, r: Delivery)
    ensures Ids(results + [r]) == Ids(results) + if r.success then [r.channelId] else []
  {
    assert (results + [r])[..|results|] == results;
  }

  lemma {:induction false} DeliverIds(ds: seq<Destination>, receipts: set<string>, outcomes: seq<bool>, id: string)
    requires |outcomes| == |ds| && DistinctIds(ds)
    ensures multiset(Ids(Deliver(ds, receipts, outcomes)))[id] == if Reached(ds, receipts, outcomes, id) then 1 else 0
  {
    if ds != [] {
      var last := |ds| - 1;
      DeliverIds(ds[..last], receipts, outcomes[..last], id);
      ReachedSnoc(ds, receipts, outcomes, id);
      var rest := Deliver(ds[..last], receipts, outcomes[..last]);
      IdsSnoc(rest, Delivery(ds[last].id, outcomes[last]));
      assert rest + [] == rest;
      assert ds[last].id == id ==> !Reached(ds[..last], receipts, outcomes[..last], id);
    }
  }

  lemma {:induction false} DeliverReceipts(ds: seq<Destination>, receipts: set<string>, outcomes: seq<bool>, id: string)
    requires |outcomes| == |ds| && AllExcludable(ds)
    ensures id in Receipts(Deliver(ds, receipts, outcomes)) <==> Reached(ds, receipts, outcomes, id)
  {
    if ds != [] {
      var last := |ds| - 1;
      DeliverReceipts(ds[..last], receipts, outcomes[..last], id);
      ReachedSnoc(ds, receipts, outcomes, id);
      var rest := Deliver(ds[..last], receipts, outcomes[..last]);
      Text.TrimSpaceLaws(ds[last].id);
      ReceiptsSnoc(rest, Delivery(ds[last].id, outcomes[last]));
      assert rest + [] == rest;
    }
  }

  predicate NothingToSend(ds: seq<Destination>, receipts: set<string>) {
    forall i :: 0 <= i < |ds| ==> Excluded(ds[i], receipts)
  }

  predicate EachAccepts(ds: seq<Destination>, receipts: set<string>, outcomes: seq<bool>)
    requires |outcomes| == |ds|
  {
    forall i :: 0 <= i < |ds| && !Excluded(ds[i], receipts) ==> outcomes[i]
  }

  predicate AllSucceed(results: seq<Delivery>) {
    forall i :: 0 <= i < |results| ==> results[i].success
  }

  lemma SendSnoc(ds: seq<Destination>, receipts: set<string>, outcomes: seq<bool>)
    requires |outcomes| == |ds| && ds != []
    ensures var last := |ds| - 1;
            && NothingToSend(ds, receipts) == (NothingToSend(ds[..last], receipts) && Excluded(ds[last], receipts))
            && EachAccepts(ds, receipts, outcomes)
               == (EachAccepts(ds[..last], receipts, outcomes[..last]) && (Excluded(ds[last], receipts) || outcomes[last]))
  {
    var last := |ds| - 1;
    assert forall i :: 0 <= i < last ==> ds[..last][i] == ds[i] && outcomes[..last][i] == outcomes[i];
  }

  lemma SucceedSnoc(results: seq<Delivery>, r: Delivery)
    ensures AllSucceed(results + [r]) == (AllSucceed(results) && r.success)
  {
    var more := results + [r];
    assert more[|results|] == r && forall i :: 0 <= i < |results| ==> more[i] == results[i];
  }

  /** An attempt succeeds exactly when it sends something and every destination it sends to accepts. */
  lemma {:induction false} DeliverSucceeds(ds: seq<Destination>, receipts: set<string>, outcomes: seq<bool>)
    requires |outcomes| == |ds|
    ensures var results := Deliver(ds, receipts, outcomes);
            && (results == [] <==> NothingToSend(ds, receipts)) && AllSucceed(results) == EachAccepts(ds, receipts, outcomes)
            && (DeliverySucceeded(results) <==> !NothingToSend(ds, receipts) && EachAccepts(ds, receipts, outcomes))
  {
    if ds != [] {
      var last := |ds| - 1;
      DeliverSucceeds(ds[..last], receipts, outcomes[..last]);
      SendSnoc(ds, receipts, outcomes);
      var rest := Deliver(ds[..last], receipts, outcomes[..last]);
      SucceedSnoc(rest, Delivery(ds[last].id, outcomes[last]));
      assert rest + [] == rest;
    }
  }

  predicate AllReceived(ds: seq<Destination>, receipts: set<string>) {
    forall i :: 0 <= i < |ds| ==> ds[i].id in receipts
  }

  lemma ReachedAt(ds: seq<Destination>, receipts: set<string>, outcomes: seq<bool>, i: nat)
    requires |outcomes| == |ds| && DistinctIds(ds) && AllExcludable(ds) && i < |ds|
    ensures Reached(ds, receipts, outcomes, ds[i].id) <==> !Excluded(ds[i], receipts) && outcomes[i]
  {
  }

  /** Some destination is still missing, so the attempt succeeds exactly when it supplies every missing receipt. */
  lemma EndsDelivered(ds: seq<Destination>, receipts: set<string>, outcomes: seq<bool>)
    requires |outcomes| == |ds| && DistinctIds(ds) && AllExcludable(ds) && !AllReceived(ds, receipts)
    ensures var results := Deliver(ds, receipts, outcomes);
            DeliverySucceeded(results) <==> AllReceived(ds, receipts + Receipts(results))
  {
    DeliverSucceeds(ds, receipts, outcomes);
    var all := receipts + Receipts(Deliver(ds, receipts, outcomes));
    forall i | 0 <= i < |ds|
      ensures ds[i].id in all <==> Excluded(ds[i], receipts) || outcomes[i]
    {
      DeliverReceipts(ds, receipts, outcomes, ds[i].id);
      ReachedAt(ds, receipts, outcomes, i);
    }
    assert AllReceived(ds, all) <==> EachAccepts(ds, receipts, outcomes);
    assert !NothingToSend(ds, receipts);
  }

  lemma DeliverOne(d: Destination, receipts: set<string>, outcome: bool)
    ensures var results := Deliver([d], receipts, [outcome]);
            results == (if Excluded(d, receipts) then [] else [Delivery(d.id, outcome)])
            && Ids(results) == if !Excluded(d, receipts) && outcome then [d.id] else []
  {
    assert [d][..0] == [] && [outcome][..0] == [];
    assert Deliver([d][..0], receipts, [outcome][..0]) == [];
    IdsSnoc([], Delivery(d.id, outcome));
    assert [] + [Delivery(d.id, outcome)] == [Delivery(d.id, outcome)];
    assert Ids([]) == [];
  }

  function All(n: nat): seq<bool> {
    seq(n, _ => true)
  }

  function Only(n: nat, k: nat): seq<bool> {
    seq(n, i => i == k)
  }

  /** What an attempt that is accepted everywhere accepts. */
  function EachId(ds: seq<Destination>): (ids: seq<string>)
    ensures |ids| == |ds|
  {
    if ds == [] then [] else EachId(ds[..|ds| - 1]) + [ds[|ds| - 1].id]
  }

  lemma {:induction false} EachIdAt(ds: seq<Destination>, i: nat)
    requires i < |ds|
    ensures EachId(ds)[i] == ds[i].id
  {
    if i < |ds| - 1 {
      EachIdAt(ds[..|ds| - 1], i);
    }
  }

  lemma AllSnoc(ds: seq<Destination>, last: nat)
    requires |ds| == last + 1
    ensures Ids(Deliver(ds, {}, All(|ds|))) == Ids(Deliver(ds[..last], {}, All(last))) + [ds[last].id]
  {
    assert All(|ds|)[..last] == All(last) && ds[..last + 1] == ds;
    DeliverSnoc(ds, last, {}, All(|ds|));
    IdsSnoc(Deliver(ds[..last], {}, All(last)), Delivery(ds[last].id, true));
  }

  lemma {:induction false} AllAccepted(ds: seq<Destination>)
    ensures Ids(Deliver(ds, {}, All(|ds|))) == EachId(ds)
  {
    if ds != [] {
      var last := |ds| - 1;
      AllAccepted(ds[..last]);
      AllSnoc(ds, last);
    }
  }

  lemma TwiceCounts(s: seq<string>, i: nat, j: nat)
    requires i < j < |s| && s[i] == s[j]
    ensures multiset(s)[s[i]] >= 2
  {
    assert s == s[..j] + s[j..];
    assert s[..j][i] == s[i] && s[j..][0] == s[i];
    assert s[i] in multiset(s[..j]) && s[i] in multiset(s[j..]);
  }

  lemma ReceiptsTidy(results: seq<Delivery>, id: string)
    requires id in Receipts(results)
    ensures id != "" && Text.Trimmed(id)
  {
    var i :| 0 <= i < |results| && Text.TrimSpace(results[i].channelId) == id && id != "";
    Text.TrimSpaceLaws(results[i].channelId);
  }

  /** Email identifiers are always excludable, given a digest that is not empty and has no white space. */
  lemma EmailExcludable(channelId: string, recipient: string, digest: string -> string)
    requires forall x :: digest(x) != "" && Text.Trimmed(digest(x))
    ensures Excludable(Destination(EmailDestinationId(channelId, recipient, digest)))
  {
    Text.TrimSpaceLaws(channelId);
    var id := EmailDestinationId(channelId, recipient, digest);
    var d := digest(Text.ToLower(Text.TrimSpace(recipient)));
    assert id[|id| - 1] == d[|d| - 1];
    assert id[0] == if Text.TrimSpace(channelId) == "" then '/' else Text.TrimSpace(channelId)[0];
  }

  // ---- Channel lists as the server keeps them ----

  function Normal(recipient: string): string {
    Text.ToLower(Text.TrimSpace(recipient))
  }

  /** Different texts have different digests, none empty or with white space around it. */
  ghost predicate GoodDigest(digest: string -> string) {
    && (forall x :: digest(x) != "" && Text.Trimmed(digest(x)))
    && (forall x, y :: digest(x) == digest(y) ==> x == y)
  }

  /** A generated identifier, and no recipient listed twice. */
  predicate TidyChannel(c: Channel) {
    && c.id != "" && Text.Trimmed(c.id) && '/' !in c.id
    && forall i, j :: 0 <= i < j < |c.recipients| ==> Normal(c.recipients[i]) != Normal(c.recipients[j])
  }

  predicate TidyChannels(channels: seq<Channel>) {
    && (forall i :: 0 <= i < |channels| ==> TidyChannel(channels[i]))
    && (forall i, j :: 0 <= i < j < |channels| ==> channels[i].id != channels[j].id)
  }

  /** What follows the channel in the identifier of an email destination. */
  function Suffix(recipient: string, digest: string -> string): string {
    "recipient/" + digest(Normal(recipient))
  }

  lemma EmailIdSplits(c: Channel, recipient: string, digest: string -> string)
    requires TidyChannel(c)
    ensures EmailDestinationId(c.id, recipient, digest) == c.id + ['/'] + Suffix(recipient, digest)
  {
    Text.TrimSpaceLaws(c.id);
    assert "/recipient/" == ['/'] + "recipient/";
  }

  lemma SuffixTells(a: string, b: string, digest: string -> string)
    requires GoodDigest(digest) && Suffix(a, digest) == Suffix(b, digest)
    ensures Normal(a) == Normal(b)
  {
    var head := "recipient/";
    assert Suffix(a, digest)[|head|..] == digest(Normal(a)) && Suffix(b, digest)[|head|..] == digest(Normal(b));
  }

  /** One of a channel's destinations: the channel itself, or one of its recipients. */
  lemma DestinationOf(c: Channel, digest: string -> string, k: nat)
    requires TidyChannel(c) && k < |DestinationsOf(c, digest)|
    ensures var id := DestinationsOf(c, digest)[k].id;
            && (if c.email then k < |c.recipients| && id == c.id + ['/'] + Suffix(c.recipients[k], digest) else id == c.id)
            && ('/' in id <==> c.email)
  {
    if c.email {
      EmailIdSplits(c, c.recipients[k], digest);
      assert DestinationsOf(c, digest)[k].id[|c.id|] == '/';
    }
  }

  lemma SameChannel(a: Channel, b: Channel, digest: string -> string, i: nat, j: nat)
    requires TidyChannel(a) && TidyChannel(b) && i < |DestinationsOf(a, digest)| && j < |DestinationsOf(b, digest)|
    requires DestinationsOf(a, digest)[i].id == DestinationsOf(b, digest)[j].id
    ensures a.id == b.id
  {
    DestinationOf(a, digest, i);
    DestinationOf(b, digest, j);
    if a.email && b.email {
      Text.SplitUnique(a.id, Suffix(a.recipients[i], digest), b.id, Suffix(b.recipients[j], digest), '/');
    }
  }

  lemma ChannelDistinct(c: Channel, digest: string -> string)
    requires TidyChannel(c) && GoodDigest(digest)
    ensures DistinctIds(DestinationsOf(c, digest)) && AllExcludable(DestinationsOf(c, digest))
  {
    var ds := DestinationsOf(c, digest);
    forall i, j | 0 <= i < j < |ds|
      ensures ds[i].id != ds[j].id
    {
      DestinationOf(c, digest, i);
      DestinationOf(c, digest, j);
      if ds[i].id == ds[j].id {
        Text.SplitUnique(c.id, Suffix(c.recipients[i], digest), c.id, Suffix(c.recipients[j], digest), '/');
        SuffixTells(c.recipients[i], c.recipients[j], digest);
      }
    }
    forall i | 0 <= i < |ds|
      ensures Excludable(ds[i])
    {
      if c.email {
        EmailExcludable(c.id, c.recipients[i], digest);
      }
    }
  }

  lemma DistinctAppend(a: seq<Destination>, b: seq<Destination>)
    requires DistinctIds(a) && DistinctIds(b) && AllExcludable(a) && AllExcludable(b)
    requires forall i, j :: 0 <= i < |a| && 0 <= j < |b| ==> a[i].id != b[j].id
    ensures DistinctIds(a + b) && AllExcludable(a + b)
  {
    var all := a + b;
    forall i, j | 0 <= i < j < |all|
      ensures all[i].id != all[j].id
    {
      assert all[i] == if i < |a| then a[i] else b[i - |a|];
      assert all[j] == if j < |a| then a[j] else b[j - |a|];
    }
  }

  /** Every destination of the list belongs to one of its channels. */
  lemma {:induction false} FromChannel(channels: seq<Channel>, severity: string, eventType: string, digest: string -> string, k: nat)
    returns (n: nat, i: nat)
    requires k < |Destinations(channels, severity, eventType, digest)|
    ensures n < |channels| && i < |DestinationsOf(channels[n], digest)|
    ensures Destinations(channels, severity, eventType, digest)[k] == DestinationsOf(channels[n], digest)[i]
  {
    var init := channels[..|channels| - 1];
    var before := Destinations(init, severity, eventType, digest);
    if k < |before| {
      n, i := FromChannel(init, severity, eventType, digest, k);
    } else {
      n, i := |channels| - 1, k - |before|;
    }
  }

  /** A list as the server keeps it reaches distinct destinations whose receipts are all found again. */
  lemma {:induction false} TidyDestinations(channels: seq<Channel>, severity: string, eventType: string, digest: string -> string)
    requires TidyChannels(channels) && GoodDigest(digest)
    ensures var ds := Destinations(channels, severity, eventType, digest); DistinctIds(ds) && AllExcludable(ds)
  {
    if channels != [] {
      var init, c := channels[..|channels| - 1], channels[|channels| - 1];
      assert forall i :: 0 <= i < |init| ==> init[i] == channels[i];
      TidyDestinations(init, severity, eventType, digest);
      ChannelDistinct(c, digest);
      var before, more := Destinations(init, severity, eventType, digest), DestinationsOf(c, digest);
      forall i, j | 0 <= i < |before| && 0 <= j < |more|
        ensures before[i].id != more[j].id
      {
        var n, k := FromChannel(init, severity, eventType, digest, i);
        if before[i].id == more[j].id {
          SameChannel(init[n], c, digest, k, j);
        }
      }
      DistinctAppend(before, more);
      assert before + [] == before;
    }
  }
}
