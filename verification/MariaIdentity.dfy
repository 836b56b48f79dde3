/** Which row a MariaDB upsert lands on. The lookup compares identities as given, the unique key compares them
    trimmed, and an upsert that the key refuses converges on the row that has it. */
module MariaIdentity {
  import opened Wrap
  import opened Incidents
  import opened MariaIncidents
  import opened MariaProofs
  import Text

  function Reported(d: Detected): Identity {
    Identity(d.rule, d.serviceId, d.streamId)
  }

  function DedupeOf(i: Identity): string {
    DedupeKey(i.rule, i.serviceId, i.streamId)
  }

  /** No two of these identities share a unique key. */
  ghost predicate Told(identities: iset<Identity>) {
    forall a, b :: a in identities && b in identities && DedupeOf(a) == DedupeOf(b) ==> a == b
  }

  // ---- Runs whose upserts report identities from a given set ----

  ghost predicate RowsFrom(rows: Table, identities: iset<Identity>) {
    forall id :: id in rows ==> IdentityOf(rows[id].incident) in identities
  }

  ghost predicate CallFrom(call: Call, identities: iset<Identity>) {
    call.UpsertCall? ==> Reported(call.d) in identities
  }

  ghost predicate CallsFrom(txs: map<nat, Tx>, identities: iset<Identity>) {
    forall t :: t in txs ==> CallFrom(txs[t].call, identities)
  }

  ghost predicate EventsFrom(events: seq<Event>, identities: iset<Identity>) {
    forall n :: 0 <= n < |events| && events[n].Begin? ==> CallFrom(events[n].call, identities)
  }

  /** No step changes the call of a transaction. */
  lemma CallsKept(db: Db, e: Event)
    ensures forall t :: t in Step(db, e).txs ==>
              if t in db.txs then Step(db, e).txs[t].call == db.txs[t].call
              else e.Begin? && Step(db, e).txs[t].call == Prepared(e.call)
  {
  }

  lemma WritesFrom(rows: Table, tx: Tx, identities: iset<Identity>)
    requires TxOk(rows, tx) && RowsFrom(rows, identities) && CallFrom(tx.call, identities)
    requires tx.pc.Done? || tx.call.ResolveCall?
    ensures RowsFrom(rows + tx.writes, identities)
  {
    forall id | id in tx.writes
      ensures IdentityOf(tx.writes[id].incident) in identities
    {
      assert PendingOk(rows, id, tx.writes[id]);
      assert tx.call.ResolveCall? ==> ClosedBy(rows, tx.call, tx.pc.next, id, tx.writes[id]);
    }
  }

  lemma StepFrom(db: Db, e: Event, identities: iset<Identity>)
    requires Core(db) && RowsFrom(db.rows, identities) && CallsFrom(db.txs, identities)
    requires e.Begin? ==> CallFrom(e.call, identities)
    ensures RowsFrom(Step(db, e).rows, identities) && CallsFrom(Step(db, e).txs, identities)
  {
    CallsKept(db, e);
    if e.Commit? && Enabled(db, e) {
      WritesFrom(db.rows, db.txs[e.t], identities);
    } else if !e.Commit? && !e.Diagnose? {
      OtherStepsKeepRows(db, e);
    }
  }

  lemma {:induction false} ExecFrom(start: Table, events: seq<Event>, identities: iset<Identity>)
    requires RowsSound(start) && RowsFrom(start, identities) && EventsFrom(events, identities)
    ensures RowsFrom(Exec(start, events).rows, identities) && CallsFrom(Exec(start, events).txs, identities)
  {
    if events != [] {
      var init := events[..|events| - 1];
      assert forall n :: 0 <= n < |init| ==> init[n] == events[n];
      ExecFrom(start, init, identities);
      ExecKeeps(start, init);
      StepFrom(Exec(start, init), events[|events| - 1], identities);
    }
  }

  // ---- Landing ----

  predicate CommitsUpsert(db: Db, e: Event) {
    e.Commit? && Enabled(db, e) && db.txs[e.t].call.UpsertCall? && db.txs[e.t].pc.Done?
  }

  /** The row an upsert commits has the identity the upsert reported. */
  predicate LandsOnOwn(db: Db, e: Event) {
    CommitsUpsert(db, e) ==>
      var tx, next := db.txs[e.t], Step(db, e);
      tx.pc.id in next.rows && IdentityOf(next.rows[tx.pc.id].incident) == Reported(tx.call.d)
  }

  predicate AllLandOnOwn(start: Table, events: seq<Event>) {
    events != [] ==>
      var init := events[..|events| - 1];
      AllLandOnOwn(start, init) && LandsOnOwn(Exec(start, init), events[|events| - 1])
  }

  lemma ToldLands(db: Db, e: Event, identities: iset<Identity>)
    requires Core(db) && Told(identities) && RowsFrom(db.rows, identities) && CallsFrom(db.txs, identities)
    ensures LandsOnOwn(db, e)
  {
    if CommitsUpsert(db, e) {
      var tx := db.txs[e.t];
      var id := tx.pc.id;
      assert TxOk(db.rows, tx);
      assert PendingOk(db.rows, id, tx.writes[id]);
      assert tx.writes[id].dedupeKey == Some(RowKey(tx.writes[id].incident));
      if id in db.rows {
        assert DedupeOf(IdentityOf(db.rows[id].incident)) == DedupeOf(Reported(tx.call.d));
      }
    }
  }

  lemma {:induction false} ToldAllLand(start: Table, events: seq<Event>, identities: iset<Identity>)
    requires RowsSound(start) && RowsFrom(start, identities) && EventsFrom(events, identities) && Told(identities)
    ensures AllLandOnOwn(start, events)
  {
    if events != [] {
      var init := events[..|events| - 1];
      assert forall n :: 0 <= n < |init| ==> init[n] == events[n];
      ToldAllLand(start, init, identities);
      ExecKeeps(start, init);
      ExecFrom(start, init, identities);
      ToldLands(Exec(start, init), events[|events| - 1], identities);
    }
  }

  // ---- Two identities under one key ----

  function FirstHalf(a: Detected, now: int): seq<Event> {
    [Begin(0, UpsertCall(a, now))] + [FindOpen(0, None)] + [Insert(0, "i")] + [Commit(0)]
  }

  /** One upsert commits; then a second one finds no row, is refused by the key, and takes the row that has it. */
  function MergeRun(a: Detected, b: Detected, now: int): seq<Event> {
    FirstHalf(a, now) + [Begin(1, UpsertCall(b, now))] + [FindOpen(1, None)] + [Insert(1, "j")]
    + [FindByKey(1, Some("i"))] + [Update(1)] + [Commit(1)]
  }

  function FirstRow(a: Detected, now: int): Row {
    Row(NewRow(a, "i", now), Some(DedupeOf(Reported(a))))
  }

  lemma FirstInserts(a: Detected, now: int)
    ensures var call := UpsertCall(a, now);
            Step(Fresh(map[]).(txs := map[0 := Tx(call, Missing, {}, map[])]), Insert(0, "i"))
            == Fresh(map[]).(txs := map[0 := Tx(call, Done("i", true), {"i"}, map["i" := FirstRow(a, now)])])
  {
    var call := UpsertCall(a, now);
    var missing := Fresh(map[]).(txs := map[0 := Tx(call, Missing, {}, map[])]);
    var none: set<string> := {};
    assert Text.Trimmed("i") && none + {"i"} == {"i"} && CanInsert(missing, 0, "i");
    assert DoInsert(missing, 0, "i").txs == map[0 := Tx(call, Done("i", true), {"i"}, map["i" := FirstRow(a, now)])];
  }

  lemma FirstCommits(a: Detected, now: int)
    ensures Exec(map[], FirstHalf(a, now)) == Db(map["i" := FirstRow(a, now)], map[], 1, ["i"], map[])
  {
    var call := UpsertCall(a, now);
    var begun := Fresh(map[]).(txs := map[0 := Tx(call, Reading(0), {}, map[])]);
    var missing := begun.(txs := map[0 := Tx(call, Missing, {}, map[])]);
    var inserted := begun.(txs := map[0 := Tx(call, Done("i", true), {"i"}, map["i" := FirstRow(a, now)])]);
    var events := [Begin(0, call)];
    assert [] + events == events;
    ExecSnoc(map[], [], Begin(0, call));
    ExecSnoc(map[], events, FindOpen(0, None));
    assert Exec(map[], events) == begun && Step(begun, FindOpen(0, None)) == missing;
    FirstInserts(a, now);
    ExecSnoc(map[], events + [FindOpen(0, None)], Insert(0, "i"));
    assert View(inserted, inserted.txs[0]) == map["i" := FirstRow(a, now)];
    ExecSnoc(map[], events + [FindOpen(0, None)] + [Insert(0, "i")], Commit(0));
  }

  function Merged(a: Detected, b: Detected, now: int): Row {
    Row(Bump(NewRow(a, "i", now), b, now), Some(DedupeOf(Reported(a))))
  }

  /** The state after the first commit with one transaction of the second upsert. */
  function Second(a: Detected, b: Detected, now: int, pc: Pc, locks: set<string>, writes: Table): Db {
    Db(map["i" := FirstRow(a, now)], map[1 := Tx(UpsertCall(b, now), pc, locks, writes)], 1, ["i"], map[])
  }

  lemma SecondMisses(a: Detected, b: Detected, now: int)
    requires Reported(a) != Reported(b)
    ensures Step(Second(a, b, now, Reading(0), {}, map[]), FindOpen(1, None)) == Second(a, b, now, Missing, {}, map[])
  {
    var reading := Second(a, b, now, Reading(0), {}, map[]);
    assert View(reading, reading.txs[1]) == reading.rows;
    assert !Wanted(reading.txs[1], reading.rows["i"].incident) && CanFindOpen(reading, 1, None);
    assert DoFindOpen(reading, 1, None).txs == Second(a, b, now, Missing, {}, map[]).txs;
  }

  lemma SecondIsRefused(a: Detected, b: Detected, now: int)
    requires DedupeOf(Reported(a)) == DedupeOf(Reported(b))
    ensures Step(Second(a, b, now, Missing, {}, map[]), Insert(1, "j")) == Second(a, b, now, LostRace, {}, map[])
  {
    var missing := Second(a, b, now, Missing, {}, map[]);
    assert Text.Trimmed("j") && "j" != "i" && CanInsert(missing, 1, "j");
    assert HasKey(missing.rows["i"], CallKey(missing.txs[1].call));
    assert DoInsert(missing, 1, "j").txs == Second(a, b, now, LostRace, {}, map[]).txs;
  }

  lemma SecondRefused(a: Detected, b: Detected, now: int)
    requires Reported(a) != Reported(b) && DedupeOf(Reported(a)) == DedupeOf(Reported(b))
    ensures Exec(map[], FirstHalf(a, now) + [Begin(1, UpsertCall(b, now))] + [FindOpen(1, None)] + [Insert(1, "j")])
            == Second(a, b, now, LostRace, {}, map[])
  {
    var begun := FirstHalf(a, now) + [Begin(1, UpsertCall(b, now))];
    FirstCommits(a, now);
    ExecSnoc(map[], FirstHalf(a, now), Begin(1, UpsertCall(b, now)));
    assert Exec(map[], begun) == Second(a, b, now, Reading(0), {}, map[]);
    SecondMisses(a, b, now);
    ExecSnoc(map[], begun, FindOpen(1, None));
    SecondIsRefused(a, b, now);
    ExecSnoc(map[], begun + [FindOpen(1, None)], Insert(1, "j"));
  }

  lemma SecondTakes(a: Detected, b: Detected, now: int)
    requires Reported(a) != Reported(b) && DedupeOf(Reported(a)) == DedupeOf(Reported(b))
    ensures Step(Second(a, b, now, LostRace, {}, map[]), FindByKey(1, Some("i")))
            == Second(a, b, now, Holding(NewRow(a, "i", now), 0), {"i"}, map[])
  {
    var lost := Second(a, b, now, LostRace, {}, map[]);
    var none: set<string> := {};
    assert none + {"i"} == {"i"};
    assert HasKey(lost.rows["i"], CallKey(lost.txs[1].call)) && CanFindByKey(lost, 1, Some("i"));
    assert DoFindByKey(lost, 1, Some("i")).txs == Second(a, b, now, Holding(NewRow(a, "i", now), 0), {"i"}, map[]).txs;
  }

  lemma SecondUpdates(a: Detected, b: Detected, now: int)
    ensures Step(Second(a, b, now, Holding(NewRow(a, "i", now), 0), {"i"}, map[]), Update(1))
            == Second(a, b, now, Done("i", false), {"i"}, map["i" := Merged(a, b, now)])
  {
    var holding := Second(a, b, now, Holding(NewRow(a, "i", now), 0), {"i"}, map[]);
    assert View(holding, holding.txs[1]) == holding.rows;
    assert {"i"} + {"i"} == {"i"} && CanUpdate(holding, 1);
    assert DoUpdate(holding, 1).txs == Second(a, b, now, Done("i", false), {"i"}, map["i" := Merged(a, b, now)]).txs;
  }

  lemma SecondCommits(a: Detected, b: Detected, now: int)
    requires Reported(a) != Reported(b)
    ensures var updated := Second(a, b, now, Done("i", false), {"i"}, map["i" := Merged(a, b, now)]);
            Step(updated, Commit(1)) == Db(map["i" := Merged(a, b, now)], map[], 2, ["i"], map[]) && !LandsOnOwn(updated, Commit(1))
  {
    var updated := Second(a, b, now, Done("i", false), {"i"}, map["i" := Merged(a, b, now)]);
    assert View(updated, updated.txs[1]) == map["i" := Merged(a, b, now)];
    assert Step(updated, Commit(1)) == Db(map["i" := Merged(a, b, now)], map[], 2, ["i"], map[]);
  }

  /** The second upsert leaves no row of its own: the first row counts both and keeps its own identity. */
  lemma MergesTwo(a: Detected, b: Detected, now: int)
    requires Reported(a) != Reported(b) && DedupeOf(Reported(a)) == DedupeOf(Reported(b))
    ensures Exec(map[], MergeRun(a, b, now)).rows == map["i" := Merged(a, b, now)]
    ensures !AllLandOnOwn(map[], MergeRun(a, b, now))
  {
    var refused := FirstHalf(a, now) + [Begin(1, UpsertCall(b, now))] + [FindOpen(1, None)] + [Insert(1, "j")];
    SecondRefused(a, b, now);
    SecondTakes(a, b, now);
    SecondUpdates(a, b, now);
    SecondCommits(a, b, now);
    ExecSnoc(map[], refused, FindByKey(1, Some("i")));
    ExecSnoc(map[], refused + [FindByKey(1, Some("i"))], Update(1));
    var init := refused + [FindByKey(1, Some("i"))] + [Update(1)];
    ExecSnoc(map[], init, Commit(1));
    assert MergeRun(a, b, now) == init + [Commit(1)] && (init + [Commit(1)])[..|init|] == init;
  }

  /** A stream with a blank before its name and one without: the latter has no incident of its own, and since no row
      matches it as given, no recovery reported for it closes the row that counts it. */
  lemma BlankStreamMerges(d: Detected, now: int)
    ensures var a, b := d.(streamId := " t"), d.(streamId := "t");
            var rows := Exec(map[], MergeRun(a, b, now)).rows;
            && rows == map["i" := Merged(a, b, now)] && rows["i"].incident.streamId == " t" && rows["i"].incident.occurrenceCount == 2
            && forall id :: id in rows ==> !OpenMatch(rows[id].incident, b.rule, b.serviceId, b.streamId)
  {
    var a, b := d.(streamId := " t"), d.(streamId := "t");
    assert " t"[1..] == "t" && Text.TrimLeft("t") == "t" && Text.TrimLeft(" t") == "t";
    assert Text.TrimSpace(" t") == Text.TrimSpace("t");
    assert " t" != "t" by { assert |" t"| != |"t"|; }
    MergesTwo(a, b, now);
  }

  lemma MergeRunFrom(a: Detected, b: Detected, now: int, identities: iset<Identity>)
    requires Reported(a) in identities && Reported(b) in identities
    ensures EventsFrom(MergeRun(a, b, now), identities)
  {
    forall n | 0 <= n < 10 && MergeRun(a, b, now)[n].Begin?
      ensures CallFrom(MergeRun(a, b, now)[n].call, identities)
    {
      assert n == 0 || n == 4;
    }
  }

  /** Every upsert of every run lands on a row of its own identity. */
  ghost predicate AlwaysOwn(identities: iset<Identity>) {
    forall start, events :: RowsSound(start) && RowsFrom(start, identities) && EventsFrom(events, identities)
                            ==> AllLandOnOwn(start, events)
  }

  lemma UntoldFails(x: Identity, y: Identity, identities: iset<Identity>)
    requires x in identities && y in identities && DedupeOf(x) == DedupeOf(y) && x != y
    ensures !AlwaysOwn(identities)
  {
    var a := Detected(x.rule, x.serviceId, x.streamId, Info, "", "", "");
    var b := Detected(y.rule, y.serviceId, y.streamId, Info, "", "", "");
    assert Reported(a) == x && Reported(b) == y;
    MergesTwo(a, b, 0);
    MergeRunFrom(a, b, 0, identities);
    assert RowsSound(map[]) && RowsFrom(map[], identities);
  }

  /** That is so exactly when trimming tells the identities apart. */
  lemma AlwaysOwnIffTold(identities: iset<Identity>)
    ensures AlwaysOwn(identities) <==> Told(identities)
  {
    if Told(identities) {
      forall start, events | RowsSound(start) && RowsFrom(start, identities) && EventsFrom(events, identities)
        ensures AllLandOnOwn(start, events)
      {
        ToldAllLand(start, events, identities);
      }
    } else {
      var x, y :| x in identities && y in identities && DedupeOf(x) == DedupeOf(y) && x != y;
      UntoldFails(x, y, identities);
    }
  }
}
