/**
 What the synchronisation protocol promises, over whole runs.
 */
module SyncTheorems {
  import opened Wrappers
  import opened Tables
  import opened Catalog
  import opened ListingSync

  // ---------- safety

  predicate CleanWare(r: WareRow) {
    !r.dirty && !r.updating && r.problem.None?
  }

  predicate CleanScheme(r: SchemeRow) {
    !r.dirty && !r.updating && r.problem.None?
  }

  /**
   In every state of every run: a live row without dirty, updating or problem has an equal
   remote entry, and no deleted row is without all three.
   */
  lemma Safety(run: Run)
    requires IsRun(run)
    ensures forall w :: w in run.s.db.wares && CleanWare(run.s.db.wares[w]) ==>
              && !run.s.db.wares[w].deleted
              && w in run.s.db.files
              && (run.s.remote.Server? ==>
                    && w in run.s.remote.listings
                    && run.s.remote.listings[w] == Listing(run.s.db.files[w], run.s.db.wares[w].scheme))
    ensures forall r :: r in run.s.db.schemes && CleanScheme(run.s.db.schemes[r]) ==>
              && !run.s.db.schemes[r].deleted
              && (run.s.remote.Server? ==>
                    r in run.s.remote.schemes && run.s.remote.schemes[r] == run.s.db.schemes[r].body)
  {
    RunKeepsInv(run);
    SafetyOfInv(run.s);
  }

  lemma SafetyOfInv(s: System)
    requires Inv(s)
    ensures forall w :: w in s.db.wares && CleanWare(s.db.wares[w]) ==>
              && !s.db.wares[w].deleted
              && w in s.db.files
              && (s.remote.Server? ==>
                    w in s.remote.listings && s.remote.listings[w] == Listing(s.db.files[w], s.db.wares[w].scheme))
    ensures forall r :: r in s.db.schemes && CleanScheme(s.db.schemes[r]) ==>
              && !s.db.schemes[r].deleted
              && (s.remote.Server? ==> r in s.remote.schemes && s.remote.schemes[r] == s.db.schemes[r].body)
  {
    forall w | w in s.db.wares && CleanWare(s.db.wares[w])
      ensures Clean(WareView(s.db)[w])
    {
    }
    forall r | r in s.db.schemes && CleanScheme(s.db.schemes[r])
      ensures Clean(SchemeView(s.db)[r])
    {
    }
  }

  /** In every state of every run no ware row dangles, and none names a scheme that may be purged. */
  lemma ReferentialIntegrity(run: Run)
    requires IsRun(run)
    ensures ReferencesOk(run.s.db) && RemovalsUnnamed(run.s.db)
  {
    RunKeepsInv(run);
  }

  // ---------- crash recovery

  /**
   The remote update ID is the local one or its successor, and an update request never finds
   the remote listings corrupt: it always sends something.
   */
  lemma NeverCorrupt(run: Run, c: Choice)
    requires IsRun(run) && run.s.db.registered && run.s.phase.Idle? && ValidChoice(run.s.db, c)
    ensures run.s.remote.Server? ==> Near(run.s.remote.id, run.s.db.updateId)
    ensures RequestNext(run.s, c).phase.Sent? && RequestNext(run.s, c).db.registered
  {
    RunKeepsInv(run);
    RequestKeepsInv(run.s, c, RequestNext(run.s, c));
  }

  /** A new session's heartbeat learns the remote update ID, whether it is accepted or rejected. */
  lemma HeartbeatLearnsId(run: Run, c: Choice)
    requires IsRun(run) && run.s.db.registered && run.s.phase.Idle? && run.s.known.None? && run.s.remote.Server?
    ensures var s' := HandleNext(DeliverNext(RequestNext(run.s, c), map[], map[]));
            s'.phase.Idle? && s'.known == Some(run.s.remote.id) && s'.db == run.s.db
            && s'.remote == run.s.remote
  {
    HeartbeatChangesNothing<WareId, Listing>(run.s.remote.listings, map[]);
    HeartbeatChangesNothing<SchemeId, string>(run.s.remote.schemes, map[]);
  }

  /**
   When the remote end is one ahead, the update sent is the last one again, without the rows
   edited since, and its acknowledgement makes the two update IDs equal.
   */
  lemma ReplayIsLastUpdate(run: Run, c: Choice, failW: map<WareId, string>, failS: map<SchemeId, string>)
    requires IsRun(run) && run.s.db.registered && run.s.phase.Idle? && run.s.remote.Server?
    requires run.s.remote.id == Successor(run.s.db.updateId) && run.s.known == Some(run.s.remote.id)
    ensures var s1 := RequestNext(run.s, c);
            && s1.phase.Sent?
            && s1.phase.m.wares == Without(run.s.sentW, run.s.touchedW)
            && s1.phase.m.schemes == Without(run.s.sentS, run.s.touchedS)
            && s1.phase.m.id == s1.phase.m.newId == run.s.remote.id
            && var s3 := HandleNext(DeliverNext(s1, failW, failS));
               s3.remote.Server? && s3.db.updateId == s3.remote.id == run.s.remote.id && s3.known == Some(s3.remote.id)
  {
    RunKeepsInv(run);
  }

  // ---------- purge safety

  lemma OnlyHandlePurges(s: System, ev: Event, s': System)
    requires Step(s, ev, s') && !ev.Handle?
    ensures s.db.wares.Keys <= s'.db.wares.Keys && s.db.schemes.Keys <= s'.db.schemes.Keys
  {
    match ev
    case Request(c) => RequestKeepsRows(s, c, s');
    case _ =>
  }

  /**
   A ware row disappears only when an update is acknowledged that carried its removal, and only
   if no edit or trigger touched the row since that update was put together.
   */
  lemma WarePurgeSafety(run: Run, ev: Event, s': System, w: WareId)
    requires IsRun(run) && Step(run.s, ev, s') && w in run.s.db.wares && w !in s'.db.wares
    ensures ev.Handle? && run.s.phase.Accepted?
    ensures w in run.s.phase.m.wares.removals && w !in run.s.touchedW
  {
    RunKeepsInv(run);
    if !ev.Handle? {
      OnlyHandlePurges(run.s, ev, s');
    }
    PurgedOnHandle(run.s, w);
  }

  lemma PurgedOnHandle(s: System, w: WareId)
    requires Inv(s) && !s.phase.Idle? && !s.phase.Sent? && w in s.db.wares && w !in HandleNext(s).db.wares
    ensures s.phase.Accepted? && w in s.phase.m.wares.removals && w !in s.touchedW
  {
    var failW, failS, m := s.phase.failW, s.phase.failS, s.phase.m;
    AcknowledgedWares(s.db, failW, failS, m.newId);
    assert w !in WareView(HandleNext(s).db);
    PurgedWasSent(WareView(s.db), m.wares, s.touchedW, failW, s.db.files.Keys, w);
  }

  lemma SchemePurgeSafety(run: Run, ev: Event, s': System, r: SchemeId)
    requires IsRun(run) && Step(run.s, ev, s') && r in run.s.db.schemes && r !in s'.db.schemes
    ensures ev.Handle? && run.s.phase.Accepted?
    ensures r in run.s.phase.m.schemes.removals && r !in run.s.touchedS
    ensures forall w :: w in run.s.db.wares ==> run.s.db.wares[w].scheme != r
  {
    RunKeepsInv(run);
    if !ev.Handle? {
      OnlyHandlePurges(run.s, ev, s');
    }
    SchemePurgedOnHandle(run.s, r);
  }

  lemma SchemePurgedOnHandle(s: System, r: SchemeId)
    requires Inv(s) && !s.phase.Idle? && !s.phase.Sent? && r in s.db.schemes && r !in HandleNext(s).db.schemes
    ensures s.phase.Accepted? && r in s.phase.m.schemes.removals && r !in s.touchedS
    ensures forall w :: w in s.db.wares ==> s.db.wares[w].scheme != r
  {
    var failW, failS, m := s.phase.failW, s.phase.failS, s.phase.m;
    AcknowledgedSchemes(s.db, failW, failS, m.newId);
    assert r !in SchemeView(HandleNext(s).db);
    PurgedWasSent(SchemeView(s.db), m.schemes, s.touchedS, failS, s.db.schemes.Keys, r);
    assert RemovalPending(s.db.schemes[r]);
  }
}
