/**
 A reply lost inside a session. The session goes on with the remote update ID it knew before, so
 its next update is rejected, and the rejection is processed as a success. What follows says
 exactly when every continuation is safe all the same.
 */
module LostReplies {
  import opened Wrappers
  import opened Tables
  import opened Catalog
  import opened ListingSync
  import SchemeIds

  function LoseReplyInSession(s: System): System {
    s.(phase := Idle)
  }

  /** A continuation: steps that lead from one state to another. */
  ghost predicate IsPath(from: System, path: Run) {
    match path
    case Start(s) => s == from
    case Then(before, ev, s) => IsPath(from, before) && Step(before.s, ev, s)
  }

  ghost predicate StaysSafe(s: System) {
    forall path :: IsPath(s, path) ==> InStep(path.s)
  }

  /** A reply that a session waits for, of an update that was accepted. */
  ghost predicate AwaitsReply(s: System) {
    s.phase.Accepted? && s.known.Some? && s.remote.Server?
  }

  /** Every failed row that an acknowledgement without failures would make clean equals its remote entry. */
  ghost predicate FailuresHold(s: System)
    requires AwaitsReply(s)
  {
    && FailuresHeld(WareView(s.db), s.remote.listings, s.phase.failW.Keys)
    && FailuresHeld(SchemeView(s.db), s.remote.schemes, s.phase.failS.Keys)
  }

  // ---------- a rejected round

  /** In a session, the remote end has moved on. */
  ghost predicate Outdated(s: System) {
    && s.db.registered && s.phase.Idle? && s.known == Some(s.db.updateId)
    && s.remote.Server? && s.remote.id != s.db.updateId
  }

  /** Request, rejected delivery and response: the rejection passes for a success without failures. */
  function RejectedNext(s: System, c: Choice): System {
    Settled(s, Acknowledged(MarkNext(s.db, c), map[], map[], 0)).(known := Some(0))
  }

  lemma SuccessorMoves(u: UpdateId)
    ensures Successor(u) != u
  {
  }

  lemma RequestInSession(s: System, c: Choice)
    requires s.db.registered && s.known == Some(s.db.updateId)
    ensures RequestNext(s, c) == SendBatch(s, MarkNext(s.db, c), NextUpdate(MarkNext(s.db, c)))
  {
    SuccessorMoves(s.db.updateId);
    var db := MarkNext(s.db, c);
    assert RequestNext(s, c) == SendBatch(s, db, NextUpdate(db));
  }

  lemma RequestSteps(s: System, c: Choice)
    requires s.phase.Idle? && ValidChoice(s.db, c)
    ensures Step(s, Request(c), RequestNext(s, c))
  {
  }

  lemma DeliverOutdated(s: System)
    requires s.phase.Sent? && s.remote.Server? && s.remote.id != s.phase.m.id
    ensures Step(s, Deliver(map[], map[]), s.(phase := Rejected(s.phase.m, s.remote.id)))
  {
  }

  lemma HandleRejected(s: System)
    requires s.phase.Rejected? && s.known.Some?
    ensures Step(s, Handle, Settled(s, Acknowledged(s.db, map[], map[], 0)).(known := Some(0)))
  {
  }

  lemma MarkKeepsNumbers(db: Db, c: Choice)
    ensures MarkNext(db, c).updateId == db.updateId && MarkNext(db, c).registered == db.registered
  {
  }

  lemma RejectedRound(from: System, path: Run, c: Choice) returns (path': Run)
    requires IsPath(from, path) && Outdated(path.s) && ValidChoice(path.s.db, c)
    ensures IsPath(from, path') && path'.s == RejectedNext(path.s, c)
  {
    var s, db := path.s, MarkNext(path.s.db, c);
    var m := NextUpdate(db);
    MarkKeepsNumbers(s.db, c);
    RequestInSession(s, c);
    RequestSteps(s, c);
    var s1 := SendBatch(s, db, m);
    DeliverOutdated(s1);
    var s2 := s1.(phase := Rejected(m, s.remote.id));
    HandleRejected(s2);
    var s3 := RejectedNext(s, c);
    assert s3 == Settled(s2, Acknowledged(db, map[], map[], 0)).(known := Some(0));
    path' := Then(Then(Then(path, Request(c), s1), Deliver(map[], map[]), s2), Handle, s3);
  }

  /** The state after a lost reply, if the update advanced the update ID. */
  lemma LostAdvance(s: System, c: Choice)
    requires Inv(s) && AwaitsReply(s) && s.phase.m.newId != s.phase.m.id
    ensures Outdated(LoseReplyInSession(s)) && AnyUpdating(s.db)
    ensures s.remote.id == s.phase.m.newId == Successor(s.db.updateId)
    ensures RejectedNext(LoseReplyInSession(s), c).db == Acknowledged(s.db, map[], map[], 0)
  {
  }

  // ---------- right after the rejection

  lemma BlindAckInStepIff(s: System, db: Db)
    requires Inv(s) && AwaitsReply(s)
    requires WareView(db) == Acked(WareView(s.db), map[], s.db.files.Keys)
    requires SchemeView(db) == Acked(SchemeView(s.db), map[], s.db.schemes.Keys)
    ensures InStep(Settled(s, db).(known := Some(0))) <==> FailuresHold(s)
  {
    var t, u := WareView(s.db), SchemeView(s.db);
    var m, failW, failS := s.phase.m, s.phase.failW, s.phase.failS;
    AckedKeepsNoCleanDeleted(t, map[], s.db.files.Keys);
    AckedKeepsNoCleanDeleted(u, map[], s.db.schemes.Keys);
    BlindAckSafeIff(t, s.remote.listings, s.db.files.Keys);
    BlindAckSafeIff(u, s.remote.schemes, s.db.schemes.Keys);
    HeldIffFailuresHeld(t, s.remote.listings, m.wares, s.touchedW, failW.Keys);
    HeldIffFailuresHeld(u, s.remote.schemes, m.schemes, s.touchedS, failS.Keys);
  }

  /** When the rejection has been processed, what claims to be in step is, exactly if the failures hold. */
  lemma RejectionInStepIff(run: Run, c: Choice)
    requires IsRun(run) && AwaitsReply(run.s) && run.s.phase.m.newId != run.s.phase.m.id
    ensures InStep(RejectedNext(LoseReplyInSession(run.s), c)) <==> FailuresHold(run.s)
  {
    RunKeepsInv(run);
    RejectedInStepIff(run.s, c);
  }

  lemma RejectedInStepIff(s: System, c: Choice)
    requires Inv(s) && AwaitsReply(s) && s.phase.m.newId != s.phase.m.id
    ensures InStep(RejectedNext(LoseReplyInSession(s), c)) <==> FailuresHold(s)
  {
    LostAdvance(s, c);
    AcknowledgedViews(s.db, map[], map[], 0);
    BlindAckInStepIff(s, Acknowledged(s.db, map[], map[], 0));
    var s' := RejectedNext(LoseReplyInSession(s), c);
    assert s'.db == Acknowledged(s.db, map[], map[], 0) && s'.remote == s.remote;
  }

  // ---------- later: the next new scheme is lost

  lemma {:induction false} SelectionWith<K>(eligible: set<K>, n: nat, k: K) returns (selected: set<K>)
    requires k in eligible && n > 0
    ensures Limited(selected, eligible, n) && k in selected
  {
    var rest := SomeSelection(eligible - {k}, n - 1);
    selected := rest + {k};
  }

  lemma ChoiceWith(db: Db, r: SchemeId) returns (c: Choice)
    requires r in SchemeCandidates(db)
    ensures ValidChoice(db, c) && r in c.schemes
  {
    var any := SomeChoice(db);
    var schemes := SelectionWith(SchemeCandidates(db), MAX_PAYEE_UPDATES, r);
    c := any.(schemes := schemes);
  }

  /** A text that the remote end does not hold for a scheme. */
  function OtherBody(schemes: map<SchemeId, string>, r: SchemeId): string {
    if r in schemes then schemes[r] + "." else ""
  }

  /** A new scheme, marked and acknowledged although it was rejected, is clean. */
  lemma RejectedSchemeIsClean(s: System, c: Choice, r: SchemeId)
    requires !AnyUpdating(s.db) && ValidChoice(s.db, c) && r in c.schemes && s.remote.Server?
    requires r in s.db.schemes && s.db.schemes[r] == SchemeRow(OtherBody(s.remote.schemes, r), true, false, false, None)
    ensures !InStep(RejectedNext(s, c))
  {
    var s' := RejectedNext(s, c);
    assert Marked(s.db, c).schemes[r] == s.db.schemes[r].(dirty := false, updating := true);
    assert s'.db.schemes[r] == s.db.schemes[r].(dirty := false);
    assert r in s.remote.schemes ==> |s.db.schemes[r].body| > |s.remote.schemes[r]|;
    assert SchemeView(s'.db)[r] == Row(Some(s.db.schemes[r].body), false, false, None);
    assert !Safe(SchemeView(s'.db), s.remote.schemes);
  }

  lemma NewSchemeStands(s: System, body: string) returns (r: SchemeId)
    requires ReferencesOk(s.db) && !AnyUpdating(s.db)
    ensures var db' := WithNewScheme(s.db, body);
      && r in db'.schemes && db'.schemes[r] == SchemeRow(body, true, false, false, None)
      && r == SchemeIds.LeastFree(s.db.schemes.Keys) && r in SchemeCandidates(db') && !AnyUpdating(db')
  {
    r := SchemeIds.LeastFree(s.db.schemes.Keys);
    var db' := WithNewScheme(s.db, body);
    assert !NamedByDeletedWare(db'.wares, r);
  }

  /** From an outdated session without marked rows, a new scheme and a round break safety. */
  lemma NewSchemeBreaks(from: System, path: Run) returns (path': Run)
    requires IsPath(from, path) && Outdated(path.s) && ReferencesOk(path.s.db) && !AnyUpdating(path.s.db)
    ensures IsPath(from, path') && !InStep(path'.s)
  {
    var s := path.s;
    var body := OtherBody(s.remote.schemes, SchemeIds.LeastFree(s.db.schemes.Keys));
    var r := NewSchemeStands(s, body);
    var e := AddScheme(body);
    var s1 := s.(db := WithNewScheme(s.db, body), touchedS := s.touchedS + SchemesTouched(s.db, e),
                 touchedW := s.touchedW + WaresTouched(s.db, e));
    assert Step(s, LocalEdit(e), s1);
    var c := ChoiceWith(s1.db, r);
    path' := RejectedRound(from, Then(path, LocalEdit(e), s1), c);
    RejectedSchemeIsClean(s1, c, r);
  }

  lemma AckedNotUpdating(db: Db)
    requires DbInv(db)
    ensures var db' := Acknowledged(db, map[], map[], 0); DbInv(db') && !AnyUpdating(db')
  {
    AcknowledgedKeepsDbInv(db, map[], map[], 0);
  }

  /** If the new update ID is not 0, the rejection leaves the session outdated for good. */
  lemma LostReplyBreaks(s: System) returns (path: Run)
    requires Inv(s) && AwaitsReply(s) && s.phase.m.newId != s.phase.m.id
    requires s.phase.m.newId != 0 || !FailuresHold(s)
    ensures IsPath(LoseReplyInSession(s), path) && !InStep(path.s)
  {
    var lost := LoseReplyInSession(s);
    var c := SomeChoice(s.db);
    LostAdvance(s, c);
    path := RejectedRound(lost, Start(lost), c);
    if s.phase.m.newId != 0 {
      AckedNotUpdating(s.db);
      path := NewSchemeBreaks(lost, path);
    } else {
      RejectedInStepIff(s, c);
    }
  }

  // ---------- the update ID that wraps around to 0

  /** The reply to the update after which the update ID is 0 was lost, and the failures hold. */
  ghost predicate Limbo(s: System) {
    && DbInv(s.db) && WiredSys(s) && InStep(s)
    && s.db.registered && AnyUpdating(s.db)
    && Successor(s.db.updateId) == 0 && s.known == Some(s.db.updateId)
    && (s.remote.Server? ==>
          && s.remote.id == 0
          && Held(WareView(s.db), s.remote.listings) && Held(SchemeView(s.db), s.remote.schemes))
    && match s.phase
       case Idle => true
       case Sent(m) => InFlight(s, m)
       case Rejected(_, _) => true
       case _ => false
  }

  lemma LimboStart(s: System)
    requires Inv(s) && AwaitsReply(s) && s.phase.m.newId != s.phase.m.id && s.phase.m.newId == 0 && FailuresHold(s)
    ensures Limbo(LoseReplyInSession(s))
  {
    LostAdvance(s, Choice({}, {}, {}));
    HeldIffFailuresHeld(WareView(s.db), s.remote.listings, s.phase.m.wares, s.touchedW, s.phase.failW.Keys);
    HeldIffFailuresHeld(SchemeView(s.db), s.remote.schemes, s.phase.m.schemes, s.touchedS, s.phase.failS.Keys);
  }

  lemma EditedKeepsHeld<K, C>(t: Table<K, C>, t': Table<K, C>, touched: set<K>, remote: map<K, C>)
    requires Edited(t, t', touched) && Held(t, remote)
    ensures Held(t', remote)
  {
  }

  lemma LimboEdit(s: System, e: Edit, s': System)
    requires Limbo(s) && Step(s, LocalEdit(e), s')
    ensures Limbo(s')
  {
    var tw, ts := WaresTouched(s.db, e), SchemesTouched(s.db, e);
    EditKeepsDbInv(s.db, e);
    EditsOnlyDirtyWares(s.db, e);
    EditsOnlyDirtySchemes(s.db, e);
    EditKeepsNumbers(s.db, e);
    EditedKeepsUpdating(s.db, s'.db, tw, ts);
    EditedKeepsWired(WareView(s.db), WareView(s'.db), s.sentW, s.touchedW, tw);
    EditedKeepsWired(SchemeView(s.db), SchemeView(s'.db), s.sentS, s.touchedS, ts);
    if s.remote.Server? {
      EditedKeeps(WareView(s.db), WareView(s'.db), tw, s.remote.listings);
      EditedKeeps(SchemeView(s.db), SchemeView(s'.db), ts, s.remote.schemes);
      EditedKeepsHeld(WareView(s.db), WareView(s'.db), tw, s.remote.listings);
      EditedKeepsHeld(SchemeView(s.db), SchemeView(s'.db), ts, s.remote.schemes);
    }
  }

  lemma LimboHandle(s: System, db: Db)
    requires Limbo(s) && DbInv(db) && db.updateId == 0 && db.registered
    requires WareView(db) == Acked(WareView(s.db), map[], s.db.files.Keys)
    requires SchemeView(db) == Acked(SchemeView(s.db), map[], s.db.schemes.Keys)
    ensures Inv(Settled(s, db).(known := Some(0)))
  {
    AckedIsIdle(WareView(s.db), map[], s.db.files.Keys);
    AckedIsIdle(SchemeView(s.db), map[], s.db.schemes.Keys);
    if s.remote.Server? {
      BlindAckSafeIff(WareView(s.db), s.remote.listings, s.db.files.Keys);
      BlindAckSafeIff(SchemeView(s.db), s.remote.schemes, s.db.schemes.Keys);
    }
  }

  lemma LimboRequest(s: System, c: Choice, s': System)
    requires Limbo(s) && Step(s, Request(c), s')
    ensures Limbo(s')
  {
    PendingWired(WareView(s.db));
    PendingWired(SchemeView(s.db));
    assert s' == SendBatch(s, s.db, NextUpdate(s.db));
  }

  lemma LimboDeliver(s: System, failW: map<WareId, string>, failS: map<SchemeId, string>, s': System)
    requires Limbo(s) && Step(s, Deliver(failW, failS), s')
    ensures Limbo(s') || Inv(s')
  {
  }

  lemma LimboCrash(s: System)
    requires Limbo(s)
    ensures Inv(s.(phase := Idle, known := None)) && Inv(s.(phase := Idle, known := Some(0)))
  {
  }

  /** Every step stays in limbo or restores the invariant. */
  lemma LimboStep(s: System, ev: Event, s': System)
    requires Limbo(s) && Step(s, ev, s')
    ensures Limbo(s') || Inv(s')
  {
    match ev
    case LocalEdit(e) => LimboEdit(s, e, s');
    case Request(c) => LimboRequest(s, c, s');
    case Deliver(failW, failS) => LimboDeliver(s, failW, failS, s');
    case Handle =>
      AcknowledgedKeepsDbInv(s.db, map[], map[], 0);
      AcknowledgedViews(s.db, map[], map[], 0);
      LimboHandle(s, Acknowledged(s.db, map[], map[], 0));
    case Rollback => LimboCrash(s);
    case Crash => LimboCrash(s);
    case _ =>
  }

  lemma {:induction false} PathKeeps(from: System, path: Run)
    requires IsPath(from, path) && (Limbo(from) || Inv(from))
    ensures Limbo(path.s) || Inv(path.s)
  {
    match path
    case Start(_) =>
    case Then(before, ev, s) =>
      PathKeeps(from, before);
      if Limbo(before.s) {
        LimboStep(before.s, ev, s);
      } else {
        StepKeepsInv(before.s, ev, s);
      }
  }

  // ---------- exactly when

  /**
   In every run: after a reply lost inside a session every continuation is safe if and only if
   the update did not advance the update ID, or advanced it to 0 with failures that hold.
   */
  lemma LostReplyIff(run: Run)
    requires IsRun(run) && AwaitsReply(run.s)
    ensures StaysSafe(LoseReplyInSession(run.s)) <==>
            || run.s.phase.m.newId == run.s.phase.m.id
            || (run.s.phase.m.newId == 0 && FailuresHold(run.s))
  {
    RunKeepsInv(run);
    var s, lost, m := run.s, LoseReplyInSession(run.s), run.s.phase.m;
    if m.newId == m.id || (m.newId == 0 && FailuresHold(s)) {
      if m.newId == m.id {
        StepKeepsInv(s, LoseReply, lost);
      } else {
        LimboStart(s);
      }
      forall path | IsPath(lost, path)
        ensures InStep(path.s)
      {
        PathKeeps(lost, path);
      }
    } else {
      var path := LostReplyBreaks(s);
    }
  }
}
