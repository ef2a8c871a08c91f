/**
 Where the synchronisation protocol stops being safe, and exactly when.
 */
module SyncLimits {
  import opened Wrappers
  import opened Tables
  import opened Catalog
  import opened ListingSync

  // ---------- Case C

  /** Whatever happened to the remote end, a reset followed by a registration restores the invariant. */
  lemma ResetRecovers(s: System, s': System)
    requires ReferencesOk(s.db)
    requires Step(Settled(s, Reset(s.db)).(known := None, remote := NoServer), Register, s')
    ensures Inv(s')
  {
    var r := Settled(s, Reset(s.db)).(known := None, remote := NoServer);
    ResetEstablishes(s.db);
    ResetIsUnwired(r.db);
    assert Inv(r);
    StepKeepsInv(r, Register, s');
  }

  // ---------- problems and files

  /** A ware with a recorded problem has its file. */
  ghost predicate ProblemsHaveFiles(db: Db) {
    forall w :: w in db.wares && db.wares[w].problem.Some? ==> w in db.files
  }

  lemma EditKeepsProblemFiles(db: Db, e: Edit)
    requires ProblemsHaveFiles(db) && Apply(db, e).Some?
    ensures ProblemsHaveFiles(Apply(db, e).value)
  {
  }

  lemma MarkKeepsProblemFiles(db: Db, db': Db)
    requires ProblemsHaveFiles(db) && FlagsMoved(db, db')
    ensures ProblemsHaveFiles(db')
  {
  }

  lemma AckKeepsProblemFiles(db: Db, failW: map<WareId, string>, failS: map<SchemeId, string>, id: UpdateId)
    requires ProblemsHaveFiles(db)
    ensures ProblemsHaveFiles(Acknowledged(db, failW, failS, id))
  {
  }

  lemma ResetKeepsProblemFiles(db: Db)
    requires ProblemsHaveFiles(db)
    ensures ProblemsHaveFiles(Reset(db))
  {
  }

  lemma HandleKeepsProblemFiles(s: System)
    requires ProblemsHaveFiles(s.db)
    ensures ProblemsHaveFiles(HandleNext(s).db)
  {
    match s.phase
    case Accepted(m, failW, failS) => AckKeepsProblemFiles(s.db, failW, failS, m.newId);
    case Rejected(_, _) => AckKeepsProblemFiles(s.db, map[], map[], 0);
    case Refused => ResetKeepsProblemFiles(s.db);
    case _ =>
  }

  lemma RequestDb(s: System, c: Choice)
    ensures RequestNext(s, c).db in {s.db, MarkNext(s.db, c), Reset(s.db)}
  {
  }

  lemma RequestKeepsProblemFiles(s: System, c: Choice)
    requires ProblemsHaveFiles(s.db) && ValidChoice(s.db, c)
    ensures ProblemsHaveFiles(RequestNext(s, c).db)
  {
    RequestDb(s, c);
    MarkMovesFlags(s.db, c);
    MarkKeepsProblemFiles(s.db, MarkNext(s.db, c));
    ResetKeepsProblemFiles(s.db);
  }

  lemma StepKeepsProblemFiles(s: System, ev: Event, s': System)
    requires ProblemsHaveFiles(s.db) && Step(s, ev, s')
    ensures ProblemsHaveFiles(s'.db)
  {
    match ev
    case LocalEdit(e) => EditKeepsProblemFiles(s.db, e);
    case Request(c) => RequestKeepsProblemFiles(s, c);
    case Handle => HandleKeepsProblemFiles(s);
    case _ =>
  }

  lemma {:induction false} RunProblemsHaveFiles(run: Run)
    requires IsRun(run)
    ensures ProblemsHaveFiles(run.s.db)
  {
    match run
    case Start(_) =>
    case Then(before, ev, s) =>
      RunProblemsHaveFiles(before);
      StepKeepsProblemFiles(before.s, ev, s);
  }

  // ---------- rejected removals

  lemma GoesIff(db: Db, failW: map<WareId, string>, failS: map<SchemeId, string>, id: UpdateId, w: WareId)
    requires w in db.wares
    ensures w !in Acknowledged(db, failW, failS, id).wares <==> WareGoes(WareNoted(db, w, failW))
  {
  }

  lemma UntouchedRemoval(s: System, w: WareId)
    requires WiredSys(s) && w in s.sentW.removals && w !in s.touchedW && w in s.db.wares
    ensures s.db.wares[w].updating && !s.db.wares[w].dirty && s.db.wares[w].deleted
  {
    assert w in PendingBatch(WareView(s.db)).removals;
    assert Pending(WareView(s.db)[w]);
  }

  /** The row of a rejected and untouched removal is dropped exactly when its file is gone. */
  lemma RejectedRemovalDroppedIff(run: Run, w: WareId)
    requires IsRun(run) && run.s.phase.Accepted? && run.s.known.Some?
    requires w in run.s.phase.failW && w in run.s.phase.m.wares.removals && w !in run.s.touchedW
    ensures w in run.s.db.wares
    ensures w !in HandleNext(run.s).db.wares <==> w !in run.s.db.files
  {
    RunKeepsInv(run);
    RunProblemsHaveFiles(run);
    assert w in WareView(run.s.db);
    UntouchedRemoval(run.s, w);
    GoesIff(run.s.db, run.s.phase.failW, run.s.phase.failS, run.s.phase.m.newId, w);
  }

  // ---------- orphans

  ghost predicate OrphanFree(s: System) {
    s.remote.Server? ==>
      NoOrphan(WareView(s.db), s.remote.listings) && NoOrphan(SchemeView(s.db), s.remote.schemes)
  }

  predicate LeavesBehind(s: System, w: WareId)
    requires s.phase.Accepted? && s.remote.Server?
  {
    LeftBehind(w, s.remote.listings, s.phase.m.wares, s.touchedW, s.phase.failW.Keys, s.db.files.Keys)
  }

  /** The response drops the row of a rejected removal, untouched and with its file gone, that is still listed. */
  ghost predicate DropsRejected(s: System) {
    s.phase.Accepted? && s.known.Some? && s.remote.Server? && exists w :: LeavesBehind(s, w)
  }

  lemma EditKeepsOrphanFree(s: System, e: Edit, s': System)
    requires Step(s, LocalEdit(e), s') && OrphanFree(s)
    ensures OrphanFree(s')
  {
    EditsOnlyDirtyWares(s.db, e);
    EditsOnlyDirtySchemes(s.db, e);
  }

  lemma RequestKeepsOrphanFree(s: System, c: Choice, s': System)
    requires Step(s, Request(c), s') && OrphanFree(s)
    ensures OrphanFree(s')
  {
    RequestKeepsRows(s, c, s');
  }

  lemma DeliverKeepsOrphanFree(s: System, failW: map<WareId, string>, failS: map<SchemeId, string>, s': System)
    requires Inv(s) && Step(s, Deliver(failW, failS), s') && OrphanFree(s) && s.remote.Server?
    ensures OrphanFree(s')
  {
    var m := s.phase.m;
    if s.remote.id == m.id && s.known.Some? {
      AppliedKeepsSafe(WareView(s.db), s.remote.listings, m.wares, s.touchedW, failW.Keys);
      AppliedKeepsSafe(SchemeView(s.db), s.remote.schemes, m.schemes, s.touchedS, failS.Keys);
    }
  }

  lemma SchemeFailuresRecordable(s: System)
    requires Inv(s) && s.phase.Accepted? && s.known.Some?
    ensures s.phase.failS.Keys <= s.db.schemes.Keys
  {
  }

  lemma HandleKeepsOrphanFree(s: System, s': System)
    requires Inv(s) && Step(s, Handle, s') && OrphanFree(s) && s.remote.Server? && !DropsRejected(s)
    ensures OrphanFree(s')
  {
    if s.phase.Accepted? && s.known.Some? {
      var m, failW, failS := s.phase.m, s.phase.failW, s.phase.failS;
      AcknowledgedViews(s.db, failW, failS, m.newId);
      assert forall w :: w in s.remote.listings ==> !LeavesBehind(s, w);
      AckedKeepsNoOrphan(WareView(s.db), s.remote.listings, m.wares, s.touchedW, failW, s.db.files.Keys);
      SchemeFailuresRecordable(s);
      AckedKeepsNoOrphan(SchemeView(s.db), s.remote.schemes, m.schemes, s.touchedS, failS, s.db.schemes.Keys);
    }
  }

  lemma DropOrphans(s: System)
    requires Inv(s) && ProblemsHaveFiles(s.db) && DropsRejected(s)
    ensures !OrphanFree(HandleNext(s))
  {
    var m, failW, failS := s.phase.m, s.phase.failW, s.phase.failS;
    var w :| LeavesBehind(s, w);
    AcknowledgedViews(s.db, failW, failS, m.newId);
    LeftBehindIsOrphan(WareView(s.db), s.remote.listings, m.wares, s.touchedW, failW, s.db.files.Keys, w);
  }

  /** No step but such a response leaves a remote entry without a local row. */
  lemma StepKeepsOrphanFree(s: System, ev: Event, s': System)
    requires Inv(s) && Step(s, ev, s') && OrphanFree(s)
    requires ev.Handle? ==> !DropsRejected(s)
    ensures OrphanFree(s')
  {
    if s.remote.Server? {
      match ev
      case LocalEdit(e) => EditKeepsOrphanFree(s, e, s');
      case Request(c) => RequestKeepsOrphanFree(s, c, s');
      case Deliver(failW, failS) => DeliverKeepsOrphanFree(s, failW, failS, s');
      case Handle => HandleKeepsOrphanFree(s, s');
      case _ =>
    }
  }

  /** In every run: a step creates an orphan if and only if it is a response that drops a rejected removal. */
  lemma OrphansAppearIff(run: Run, ev: Event, s': System)
    requires IsRun(run) && Step(run.s, ev, s') && OrphanFree(run.s)
    ensures !OrphanFree(s') <==> ev.Handle? && DropsRejected(run.s)
  {
    RunKeepsInv(run);
    if ev.Handle? && DropsRejected(run.s) {
      RunProblemsHaveFiles(run);
      DropOrphans(run.s);
    } else {
      StepKeepsOrphanFree(run.s, ev, s');
    }
  }

  ghost predicate NeverDropsRejected(run: Run) {
    run.Then? ==> NeverDropsRejected(run.before) && (run.ev.Handle? ==> !DropsRejected(run.before.s))
  }

  /** Over whole runs without such a response, the remote end holds nothing without a local row. */
  lemma {:induction false} RunOrphanFree(run: Run)
    requires IsRun(run) && NeverDropsRejected(run)
    ensures OrphanFree(run.s)
  {
    match run
    case Start(_) =>
    case Then(before, ev, s) =>
      RunOrphanFree(before);
      RunKeepsInv(before);
      StepKeepsOrphanFree(before.s, ev, s);
  }
}
