/** Moving channel-level SMTP settings to the global relay: three tables, a forward transformation
    with count checks inside one transaction, a verification, and an inverse. */
module SmtpMigration {
  import opened Wrap
  import Sums

  /** The SMTP columns of a channel. */
  datatype Smtp = Smtp(
    host: Option<string>, port: Option<int>, tls: bool, from: Option<string>, username: Option<string>,
    ciphertext: Option<string>, nonce: Option<string>, configured: bool)

  const CLEARED := Smtp(None, None, true, None, None, None, None, false)

  datatype Channel = Channel(email: bool, smtp: Smtp, rest: string)

  /** The coalesced columns that the stored fingerprint digests. */
  datatype Fingerprint = Fingerprint(
    id: string, host: string, port: int, tls: bool, from: string, username: string,
    ciphertext: string, nonce: string, configured: bool)

  datatype Backup = Backup(smtp: Smtp, fingerprint: Fingerprint)

  datatype Reference = Reference(owner: string, key: string)

  const GLOBAL_SMTP := Reference("control_panel", "global_smtp")

  datatype Db = Db(channels: map<string, Channel>, backups: map<string, Backup>, references: map<string, Reference>)

  datatype Options = Options(replacementReady: bool, expectedNonEmpty: bool)

  datatype Outcome =
    | Passed(pre: nat, backup: nat, post: nat, orphans: nat)
    | ReplacementNotReady
    | EmptyDenominator
    | BackupCountMismatch
    | CallbackFailed
    | CountMismatch

  function Coalesce(o: Option<string>): string {
    if o.Some? then o.value else ""
  }

  function FingerprintOf(id: string, s: Smtp): Fingerprint {
    Fingerprint(id, Coalesce(s.host), if s.port.Some? then s.port.value else 0, s.tls, Coalesce(s.from), Coalesce(s.username),
                Coalesce(s.ciphertext), Coalesce(s.nonce), s.configured)
  }

  /** Any direct SMTP setting is present; the TLS flag alone does not count. */
  predicate Legacy(s: Smtp) {
    s.host.Some? || s.port.Some? || s.from.Some? || s.username.Some? || s.ciphertext.Some? || s.nonce.Some? || s.configured
  }

  /** What the foreign keys and the CHECK clause enforce. */
  ghost predicate Constraints(db: Db) {
    && db.backups.Keys <= db.channels.Keys
    && db.references.Keys <= db.channels.Keys
    && forall k :: k in db.references ==> db.references[k] == GLOBAL_SMTP
  }

  /** Fingerprints are written by the backup statement only. */
  ghost predicate FingerprintsTrue(db: Db) {
    forall k :: k in db.backups ==> db.backups[k].fingerprint == FingerprintOf(k, db.backups[k].smtp)
  }

  // ---- The statements ----

  function Direct(db: Db): set<string> {
    set k | k in db.channels && db.channels[k].email && Legacy(db.channels[k].smtp)
  }

  function Cohort(db: Db): set<string> {
    Direct(db) + db.backups.Keys
  }

  /** INSERT IGNORE: existing backups win. */
  function BackedUp(db: Db): Db {
    db.(backups := (map k | k in Direct(db) :: Backup(db.channels[k].smtp, FingerprintOf(k, db.channels[k].smtp))) + db.backups)
  }

  function Referenced(db: Db): Db {
    db.(references := (map k | k in db.backups :: GLOBAL_SMTP) + db.references)
  }

  predicate Replaced(db: Db, k: string) {
    k in db.backups && k in db.references && db.references[k] == GLOBAL_SMTP
  }

  function Transformed(db: Db): Db {
    db.(channels := map k | k in db.channels ::
          if Replaced(db, k) then db.channels[k].(smtp := CLEARED) else db.channels[k])
  }

  function PostSet(db: Db): set<string> {
    set k | k in db.backups && k in db.channels && Replaced(db, k) && !Legacy(db.channels[k].smtp)
  }

  function OrphanSet(db: Db): set<string> {
    set k | k in db.backups && (k !in db.channels || !Replaced(db, k) || Legacy(db.channels[k].smtp))
  }

  function RestoredChannels(db: Db): Db {
    db.(channels := map k | k in db.channels ::
          if k in db.backups then db.channels[k].(smtp := db.backups[k].smtp) else db.channels[k])
  }

  function Unreferenced(db: Db): Db {
    db.(references := map k | k in db.references && db.references[k] != GLOBAL_SMTP :: db.references[k])
  }

  function RestoredSet(db: Db): set<string> {
    set k | k in db.backups && k in db.channels && FingerprintOf(k, db.channels[k].smtp) == db.backups[k].fingerprint
  }

  // ---- The three commands ----

  function Migrated(db: Db): Db {
    Transformed(Referenced(BackedUp(db)))
  }

  function Run(db: Db, options: Options, callbackFails: bool): (Db, Outcome) {
    if !options.replacementReady then (db, ReplacementNotReady)
    else if options.expectedNonEmpty && |Cohort(db)| == 0 then (db, EmptyDenominator)
    else if |BackedUp(db).backups| != |Cohort(db)| then (db, BackupCountMismatch)
    else if callbackFails then (db, CallbackFailed)
    else if |PostSet(Migrated(db))| != |Cohort(db)| || |OrphanSet(Migrated(db))| != 0 then (db, CountMismatch)
    else (Migrated(db), Passed(|Cohort(db)|, |BackedUp(db).backups|, |PostSet(Migrated(db))|, 0))
  }

  function Verify(db: Db, options: Options): Outcome {
    if !options.replacementReady then ReplacementNotReady
    else if options.expectedNonEmpty && |Cohort(db)| == 0 then EmptyDenominator
    else if |Cohort(db)| != |db.backups| || |Cohort(db)| != |PostSet(db)| || |OrphanSet(db)| != 0 then CountMismatch
    else Passed(|Cohort(db)|, |db.backups|, |PostSet(db)|, 0)
  }

  function Restore(db: Db, options: Options): (Db, Outcome) {
    if !options.replacementReady then (db, ReplacementNotReady)
    else if options.expectedNonEmpty && |db.backups| == 0 then (db, EmptyDenominator)
    else
      var next := Unreferenced(RestoredChannels(db));
      if |RestoredSet(next)| != |db.backups| then (db, CountMismatch)
      else (next, Passed(|db.backups|, |db.backups|, |db.backups|, 0))
  }

  class Migrator {
    var channels: map<string, Channel>
    var backups: map<string, Backup>
    var references: map<string, Reference>

    function State(): Db
      reads this
    {
      Db(channels, backups, references)
    }

    constructor (db: Db)
      ensures State() == db
    {
      channels, backups, references := db.channels, db.backups, db.references;
    }

    method Rollback(saved: Db)
      modifies this
      ensures State() == saved
    {
      channels, backups, references := saved.channels, saved.backups, saved.references;
    }

    /** The forward command, statement by statement; every early exit rolls back. */
    method RunMigration(options: Options, callbackFails: bool) returns (outcome: Outcome)
      modifies this
      ensures (State(), outcome) == Run(old(State()), options, callbackFails)
    {
      if !options.replacementReady {
        return ReplacementNotReady;
      }
      var saved := State();
      var preCount := |Cohort(saved)|;
      if options.expectedNonEmpty && preCount == 0 {
        return EmptyDenominator;
      }
      backups := BackedUp(State()).backups;
      var backupCount := |backups|;
      if backupCount != preCount {
        Rollback(saved);
        return BackupCountMismatch;
      }
      references := Referenced(State()).references;
      channels := Transformed(State()).channels;
      assert State() == Migrated(saved);
      if callbackFails {
        Rollback(saved);
        return CallbackFailed;
      }
      var postCount, orphanCount := |PostSet(State())|, |OrphanSet(State())|;
      if postCount != preCount || orphanCount != 0 {
        Rollback(saved);
        return CountMismatch;
      }
      return Passed(preCount, backupCount, postCount, orphanCount);
    }

    /** The inverse command. */
    method RestoreMigration(options: Options) returns (outcome: Outcome)
      modifies this
      ensures (State(), outcome) == Restore(old(State()), options)
    {
      if !options.replacementReady {
        return ReplacementNotReady;
      }
      var saved := State();
      var backupCount := |backups|;
      if options.expectedNonEmpty && backupCount == 0 {
        return EmptyDenominator;
      }
      channels := RestoredChannels(State()).channels;
      references := Unreferenced(State()).references;
      var restoredCount := |RestoredSet(State())|;
      if restoredCount != backupCount {
        Rollback(saved);
        return CountMismatch;
      }
      return Passed(backupCount, backupCount, backupCount, 0);
    }
  }

  // ---- What holds of them ----

  predicate Proceeds(db: Db, options: Options) {
    options.replacementReady && (options.expectedNonEmpty ==> Cohort(db) != {})
  }

  /** The forward transformation row by row: the cohort is backed up, referenced and cleared. */
  ghost predicate Moved(db: Db, next: Db) {
    && next.channels.Keys == db.channels.Keys
    && next.backups.Keys == Cohort(db)
    && Cohort(db) <= next.references.Keys <= db.channels.Keys
    && (forall k :: k in next.references ==> next.references[k] == GLOBAL_SMTP)
    && (forall k :: k in db.backups ==> next.backups[k] == db.backups[k])
    && (forall k :: k in Cohort(db) && k !in db.backups ==>
                      next.backups[k] == Backup(db.channels[k].smtp, FingerprintOf(k, db.channels[k].smtp)))
    && (forall k :: k in db.channels ==>
                      next.channels[k] == if k in Cohort(db) then db.channels[k].(smtp := CLEARED) else db.channels[k])
  }

  lemma BackedUpRows(db: Db)
    requires Constraints(db)
    ensures var next := BackedUp(db);
            && Constraints(next) && next.backups.Keys == Cohort(db)
            && (forall k :: k in db.backups ==> next.backups[k] == db.backups[k])
            && (forall k :: k in Cohort(db) && k !in db.backups ==>
                              next.backups[k] == Backup(db.channels[k].smtp, FingerprintOf(k, db.channels[k].smtp)))
  {
  }

  lemma ClearedRows(db: Db)
    requires Constraints(db)
    ensures var next := Transformed(Referenced(db));
            && next.channels.Keys == db.channels.Keys && next.backups == db.backups
            && db.backups.Keys <= next.references.Keys <= db.channels.Keys
            && (forall k :: k in next.references ==> next.references[k] == GLOBAL_SMTP)
            && (forall k :: k in db.channels ==>
                              next.channels[k] == if k in db.backups then db.channels[k].(smtp := CLEARED) else db.channels[k])
  {
    assert forall k :: k in db.backups ==> Replaced(Referenced(db), k);
  }

  lemma MigratedMoves(db: Db)
    requires Constraints(db)
    ensures Moved(db, Migrated(db)) && Constraints(Migrated(db))
  {
    BackedUpRows(db);
    ClearedRows(BackedUp(db));
  }

  lemma MovedCounts(db: Db, next: Db)
    requires Constraints(db) && Moved(db, next)
    ensures Cohort(next) == Cohort(db) && PostSet(next) == Cohort(db) && OrphanSet(next) == {}
  {
    assert !Legacy(CLEARED);
    assert forall k :: k in Cohort(db) ==> k in db.channels && Replaced(next, k) && !Legacy(next.channels[k].smtp);
    assert forall k :: k in Direct(next) ==> k in Cohort(db);
  }

  /** From any state the constraints allow, the forward command passes its count checks, keeps the
      constraints, and is then confirmed by the verification. */
  lemma RunPasses(db: Db, options: Options)
    requires Constraints(db) && Proceeds(db, options)
    ensures var (next, outcome) := Run(db, options, false);
            && next == Migrated(db) && Constraints(next)
            && outcome == Passed(|Cohort(db)|, |Cohort(db)|, |Cohort(db)|, 0)
            && Verify(next, options) == outcome
  {
    MigratedMoves(db);
    MovedCounts(db, Migrated(db));
    BackedUpRows(db);
  }

  /** Anything but success leaves the tables as they were. */
  lemma FailureChangesNothing(db: Db, options: Options, callbackFails: bool)
    ensures !Run(db, options, callbackFails).1.Passed? ==> Run(db, options, callbackFails).0 == db
    ensures callbackFails ==> Run(db, options, callbackFails).0 == db
    ensures !Restore(db, options).1.Passed? ==> Restore(db, options).0 == db
  {
  }

  /** A second run changes nothing. */
  lemma MigratedIdempotent(db: Db)
    requires Constraints(db)
    ensures Migrated(Migrated(db)) == Migrated(db)
  {
    var next := Migrated(db);
    MigratedMoves(db);
    MovedCounts(db, next);
    MigratedMoves(next);
    assert Migrated(next).references == (map k | k in next.backups :: GLOBAL_SMTP) + next.references by {
      assert BackedUp(next).backups.Keys == next.backups.Keys by {
        BackedUpRows(next);
      }
    }
    SecondMoveIsNothing(db, next, Migrated(next));
  }

  lemma SecondMoveKeepsChannels(db: Db, next: Db, again: Db)
    requires Constraints(db) && Constraints(next) && Moved(db, next) && Cohort(next) == Cohort(db) && Moved(next, again)
    ensures again.channels == next.channels
  {
  }

  lemma SecondMoveKeepsBackups(next: Db, again: Db)
    requires next.backups.Keys == Cohort(next) && Moved(next, again)
    ensures again.backups == next.backups
  {
    assert again.backups.Keys == next.backups.Keys;
  }

  lemma SecondMoveIsNothing(db: Db, next: Db, again: Db)
    requires Constraints(db) && Constraints(next) && Moved(db, next) && Cohort(next) == Cohort(db) && Moved(next, again)
    requires again.references == (map k | k in next.backups :: GLOBAL_SMTP) + next.references
    ensures again == next
  {
    SecondMoveKeepsChannels(db, next, again);
    SecondMoveKeepsBackups(next, again);
    assert again.references == next.references;
  }

  function RunTimes(db: Db, n: nat): Db {
    if n == 0 then db else Migrated(RunTimes(db, n - 1))
  }

  lemma {:induction false} ManyRunsAreOne(db: Db, n: nat)
    requires Constraints(db) && n >= 1
    ensures RunTimes(db, n) == Migrated(db)
  {
    if n == 1 {
      assert RunTimes(db, 0) == db;
    } else {
      ManyRunsAreOne(db, n - 1);
      MigratedIdempotent(db);
    }
  }

  lemma FingerprintsKept(db: Db)
    requires Constraints(db) && FingerprintsTrue(db)
    ensures FingerprintsTrue(Migrated(db))
  {
  }

  lemma RestorePasses(db: Db, options: Options)
    requires Constraints(db) && FingerprintsTrue(db) && options.replacementReady && (options.expectedNonEmpty ==> db.backups != map[])
    ensures Restore(db, options).1.Passed? && Restore(db, options).0 == Unreferenced(RestoredChannels(db))
    ensures Restore(db, options).0.channels == RestoredChannels(db).channels
    ensures Constraints(Restore(db, options).0)
  {
    var next := Unreferenced(RestoredChannels(db));
    assert RestoredSet(next) == db.backups.Keys;
    assert options.expectedNonEmpty ==> |db.backups| != 0 by {
      assert db.backups == map[] <==> |db.backups| == 0;
    }
  }

  /** Restoring after one run gives every channel back exactly as it was if and only if each backup
      that existed before the run still agreed with its channel. */
  lemma RestoreInvertsIff(db: Db, options: Options)
    requires Constraints(db) && FingerprintsTrue(db) && Proceeds(db, options)
    ensures Restore(Migrated(db), options).1.Passed?
    ensures Restore(Migrated(db), options).0.channels == db.channels
            <==> forall k :: k in db.backups ==> db.backups[k].smtp == db.channels[k].smtp
  {
    MigratedMoves(db);
    FingerprintsKept(db);
    var next := Migrated(db);
    assert options.expectedNonEmpty ==> next.backups != map[] by {
      if options.expectedNonEmpty {
        var k :| k in Cohort(db);
        assert k in next.backups;
      }
    }
    RestorePasses(next, options);
    RestoredMatches(db, next);
  }

  lemma RestoredMatches(db: Db, next: Db)
    requires Constraints(db) && Moved(db, next)
    ensures RestoredChannels(next).channels == db.channels
            <==> forall k :: k in db.backups ==> db.backups[k].smtp == db.channels[k].smtp
  {
    var back := RestoredChannels(next).channels;
    forall k | k in db.channels
      ensures back[k] == db.channels[k] <==> k !in db.backups || db.backups[k].smtp == db.channels[k].smtp
    {
      assert k in db.backups ==> back[k] == db.channels[k].(smtp := db.backups[k].smtp);
    }
  }

  /** From an empty backup table, restoring after any number of runs returns every channel to its
      original value. */
  lemma RestoreAfterRuns(db: Db, n: nat, options: Options)
    requires Constraints(db) && db.backups == map[] && Proceeds(db, options) && n >= 1
    ensures Restore(RunTimes(db, n), options).1.Passed?
    ensures Restore(RunTimes(db, n), options).0.channels == db.channels
  {
    ManyRunsAreOne(db, n);
    RestoreInvertsIff(db, options);
  }

  /** A channel edited between a restore and the next run loses the edit at the next restore: the
      backup statement never refreshes an existing backup. */
  lemma EditLostExample()
    ensures var was := Smtp(Some("old"), Some(587), true, None, None, None, None, false);
            var edited := was.(host := Some("new"));
            var db := Db(map["c" := Channel(true, edited, "")], map["c" := Backup(was, FingerprintOf("c", was))], map[]);
            && Constraints(db) && FingerprintsTrue(db)
            && Restore(Migrated(db), Options(true, true)).0.channels != db.channels
  {
    var was := Smtp(Some("old"), Some(587), true, None, None, None, None, false);
    var edited := was.(host := Some("new"));
    var db := Db(map["c" := Channel(true, edited, "")], map["c" := Backup(was, FingerprintOf("c", was))], map[]);
    assert "c" in Cohort(db);
    RestoreInvertsIff(db, Options(true, true));
    assert db.backups["c"].smtp.host != db.channels["c"].smtp.host;
  }

  /** No host, no port, no sender, no user name, and no password in any of its three columns. */
  predicate Bare(s: Smtp) {
    && s.host == None && s.port == None && s.from == None && s.username == None
    && s.ciphertext == None && s.nonce == None && !s.configured
  }

  /** After a run no email channel has any of the seven settings. */
  lemma NoSettingLeft(db: Db, options: Options, k: string)
    requires Constraints(db) && Proceeds(db, options) && k in db.channels && db.channels[k].email
    ensures var next := Run(db, options, false).0; k in next.channels && Bare(next.channels[k].smtp)
  {
    RunPasses(db, options);
    MigratedMoves(db);
  }

  /** The verification passes exactly if no email channel has a setting left, every channel with a backup is bare and refers to the global relay,
      the replacement is ready, and there is a backup if one is expected. */
  lemma VerifyIff(db: Db, options: Options)
    requires Constraints(db)
    ensures Verify(db, options).Passed? <==>
            && options.replacementReady && (options.expectedNonEmpty ==> db.backups != map[])
            && (forall k :: k in db.channels && db.channels[k].email ==> Bare(db.channels[k].smtp))
            && (forall k :: k in db.backups ==> k in db.references && Bare(db.channels[k].smtp))
  {
    var clean := (forall k :: k in db.channels && db.channels[k].email ==> Bare(db.channels[k].smtp))
                 && (forall k :: k in db.backups ==> k in db.references && Bare(db.channels[k].smtp));
    if clean {
      CleanCounts(db);
    } else if OrphanSet(db) == {} {
      DirtyCounts(db);
    }
    if |OrphanSet(db)| == 0 {
      assert OrphanSet(db) == {};
    }
    assert db.backups == map[] <==> |db.backups| == 0;
  }

  lemma CleanCounts(db: Db)
    requires Constraints(db)
    requires forall k :: k in db.channels && db.channels[k].email ==> Bare(db.channels[k].smtp)
    requires forall k :: k in db.backups ==> k in db.references && Bare(db.channels[k].smtp)
    ensures Cohort(db) == PostSet(db) == db.backups.Keys && OrphanSet(db) == {}
  {
    assert Direct(db) == {};
  }

  /** Where no backup is an orphan, what is wrong is a setting without a backup, and the cohort is the larger. */
  lemma DirtyCounts(db: Db)
    requires Constraints(db) && OrphanSet(db) == {}
    requires !((forall k :: k in db.channels && db.channels[k].email ==> Bare(db.channels[k].smtp))
               && (forall k :: k in db.backups ==> k in db.references && Bare(db.channels[k].smtp)))
    ensures |Cohort(db)| > |db.backups|
  {
    forall k | k in db.backups
      ensures k in db.references && Bare(db.channels[k].smtp)
    {
      assert k !in OrphanSet(db);
    }
    var k :| k in db.channels && db.channels[k].email && !Bare(db.channels[k].smtp);
    assert k in Cohort(db) && k !in db.backups;
    Sums.CardSubset(db.backups.Keys, Cohort(db) - {k});
  }

  /** Restoring passes exactly if the replacement is ready, there is a backup if one is expected, and no backup was altered since its fingerprint
      was taken. */
  lemma RestorePassesIff(db: Db, options: Options)
    requires Constraints(db)
    ensures Restore(db, options).1.Passed? <==>
            && options.replacementReady && (options.expectedNonEmpty ==> db.backups != map[]) && FingerprintsTrue(db)
  {
    var next := Unreferenced(RestoredChannels(db));
    assert RestoredSet(next) <= db.backups.Keys;
    if FingerprintsTrue(db) {
      assert RestoredSet(next) == db.backups.Keys;
    } else {
      var k :| k in db.backups && db.backups[k].fingerprint != FingerprintOf(k, db.backups[k].smtp);
      Sums.CardSubset(RestoredSet(next), db.backups.Keys - {k});
    }
    assert db.backups == map[] <==> |db.backups| == 0;
  }
}
