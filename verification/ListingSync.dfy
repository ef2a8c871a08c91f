/**
 The seller-listing synchronisation protocol as a transition system: the local catalogue, the
 remote end, the updater's session and whatever is on the wire between them.

 Hypotheses built into the steps: one message is outstanding at a time; the remote end accepts
 an update exactly when its update ID is current, applies it as a whole except for the items it
 reports as failed, and then holds the new update ID.
 */
module ListingSync {
  import opened Wrappers
  import opened Tables
  import opened Catalog

  datatype Update = Update(id: UpdateId, newId: UpdateId,
                           wares: Batch<WareId, Listing>, schemes: Batch<SchemeId, string>)

  datatype Remote =
    | NoServer
    | Server(listings: map<WareId, Listing>, schemes: map<SchemeId, string>, id: UpdateId)

  /** Where the one outstanding message is. */
  datatype Phase =
    | Idle
    | Sent(m: Update)
    | Accepted(m: Update, failW: map<WareId, string>, failS: map<SchemeId, string>)
    | Rejected(m: Update, current: UpdateId)
    | Refused

  /**
   `known` is the updater's remote update ID (None for -1). The last four fields are history:
   the batches of the last update put together, and the rows edited since.
   */
  datatype System = System(db: Db, remote: Remote, known: Option<UpdateId>, phase: Phase,
                           sentW: Batch<WareId, Listing>, sentS: Batch<SchemeId, string>,
                           touchedW: set<WareId>, touchedS: set<SchemeId>)

  function NoBatch<K, C>(): Batch<K, C> {
    Batch(map[], {})
  }

  predicate Carries(m: Update) {
    !IsEmpty(m.wares) || !IsEmpty(m.schemes)
  }

  // ---------- the messages

  function Heartbeat(db: Db): Update {
    Update(db.updateId, db.updateId, NoBatch(), NoBatch())
  }

  /** The marked rows; the update ID advances only if there are any. */
  function NextUpdate(db: Db): Update {
    var w, s := PendingBatch(WareView(db)), PendingBatch(SchemeView(db));
    Update(db.updateId, if IsEmpty(w) && IsEmpty(s) then db.updateId else Successor(db.updateId), w, s)
  }

  /** The last update again, for a remote end that already holds its ID. */
  function PendingUpdate(db: Db): Update {
    Update(Successor(db.updateId), Successor(db.updateId), PendingBatch(WareView(db)), PendingBatch(SchemeView(db)))
  }

  // ---------- the steps

  datatype Event =
    | LocalEdit(e: Edit)
    | Register
    | Request(c: Choice)
    | Deliver(failW: map<WareId, string>, failS: map<SchemeId, string>)
    | Drop
    | Handle
    | Rollback
    | LoseReply
    | Crash
    | Expire

  function SendBatch(s: System, db: Db, m: Update): System {
    s.(db := db, phase := Sent(m), sentW := m.wares, sentS := m.schemes, touchedW := {}, touchedS := {})
  }

  /** A database in which no row is updating any more. */
  function Settled(s: System, db: Db): System {
    s.(db := db, phase := Idle, sentW := NoBatch(), sentS := NoBatch(), touchedW := {}, touchedS := {})
  }

  /** The updater's answer to an update request: register, heartbeat, Case B, Case A or Case C. */
  function RequestNext(s: System, c: Choice): System {
    if !s.db.registered then s.(known := None)
    else if s.known.None? then s.(phase := Sent(Heartbeat(s.db)))
    else if Successor(s.db.updateId) == s.known.value then SendBatch(s, s.db, PendingUpdate(s.db))
    else if s.db.updateId == s.known.value then
      var db := MarkNext(s.db, c);
      SendBatch(s, db, NextUpdate(db))
    else Settled(s, Reset(s.db)).(remote := NoServer)
  }

  function DeliverNext(s: System, failW: map<WareId, string>, failS: map<SchemeId, string>): System
    requires s.phase.Sent?
  {
    var m := s.phase.m;
    if s.remote.NoServer? then s.(phase := Refused)
    else if s.remote.id != m.id then s.(phase := Rejected(m, s.remote.id))
    else s.(remote := Server(Applied(s.remote.listings, m.wares, failW.Keys),
                             Applied(s.remote.schemes, m.schemes, failS.Keys), m.newId),
            phase := Accepted(m, failW, failS))
  }

  /**
   The updater's answer to a response. A rejection inside a session carries no result, so the
   updater processes an empty one: no failures, and an update ID that reads as 0.
   */
  function HandleNext(s: System): System {
    match s.phase
    case Accepted(m, failW, failS) =>
      if s.known.None? then s.(phase := Idle, known := Some(m.newId))
      else Settled(s, Acknowledged(s.db, failW, failS, m.newId)).(known := Some(m.newId))
    case Rejected(m, current) =>
      if s.known.None? then s.(phase := Idle, known := Some(current))
      else Settled(s, Acknowledged(s.db, map[], map[], 0)).(known := Some(0))
    case Refused => Settled(s, Reset(s.db)).(known := None, remote := NoServer)
    case _ => s
  }

  /** A response whose transaction is rolled back: of it all only the remote update ID has been stored. */
  function RolledBack(s: System): System {
    s.(phase := Idle, known := HandleNext(s).known)
  }

  /** A lost reply that cannot leave the session with an outdated remote update ID. */
  predicate LossHarmless(s: System) {
    s.phase.Accepted? && s.known.Some? ==> s.phase.m.newId == s.phase.m.id
  }

  ghost predicate Step(s: System, ev: Event, s': System) {
    match ev
    case LocalEdit(e) =>
      && Apply(s.db, e).Some?
      && s' == s.(db := Apply(s.db, e).value,
                  touchedW := s.touchedW + WaresTouched(s.db, e), touchedS := s.touchedS + SchemesTouched(s.db, e))
    case Register =>
      && s.phase.Idle? && !s.db.registered
      && s' == s.(db := s.db.(registered := true), remote := Server(map[], map[], 0), known := None)
    case Request(c) => s.phase.Idle? && ValidChoice(s.db, c) && s' == RequestNext(s, c)
    case Deliver(failW, failS) =>
      && s.phase.Sent?
      && failW.Keys <= BatchKeys(s.phase.m.wares) && failS.Keys <= BatchKeys(s.phase.m.schemes)
      && s' == DeliverNext(s, failW, failS)
    case Drop => s.phase.Sent? && s' == s.(phase := Idle)
    case Handle => !s.phase.Idle? && !s.phase.Sent? && s' == HandleNext(s)
    case Rollback => !s.phase.Idle? && !s.phase.Sent? && s' == RolledBack(s)
    case LoseReply => !s.phase.Idle? && !s.phase.Sent? && LossHarmless(s) && s' == s.(phase := Idle)
    case Crash => s' == s.(phase := Idle, known := None)
    case Expire => s.remote.Server? && s' == s.(remote := NoServer)
  }

  ghost predicate Init(s: System) {
    && s.db.wares == map[] && s.db.schemes == map[] && s.db.updateId == 0 && !s.db.registered
    && s == System(s.db, NoServer, None, Idle, NoBatch(), NoBatch(), {}, {})
  }

  /** A run, from an initial state to `s`. */
  datatype Run = Start(s: System) | Then(before: Run, ev: Event, s: System)

  ghost predicate IsRun(run: Run) {
    match run
    case Start(s) => Init(s)
    case Then(before, ev, s) => IsRun(before) && Step(before.s, ev, s)
  }

  // ---------- the invariant

  /** The safety property: what claims to be in step with the remote end is. */
  ghost predicate InStep(s: System) {
    && NoCleanDeleted(WareView(s.db))
    && NoCleanDeleted(SchemeView(s.db))
    && (s.remote.Server? ==>
          Safe(WareView(s.db), s.remote.listings) && Safe(SchemeView(s.db), s.remote.schemes))
  }

  predicate Near(id: UpdateId, local: UpdateId) {
    id == local || id == Successor(local)
  }

  ghost predicate IdsOk(s: System) {
    s.remote.Server? ==>
      && Near(s.remote.id, s.db.updateId)
      && (s.remote.id == Successor(s.db.updateId) ==> AnyUpdating(s.db))
  }

  /** A numbered update: the regular next one, or the replay of one the remote end already has. */
  predicate NumberedFor(m: Update, local: UpdateId) {
    || (m.id == local && m.newId == if Carries(m) then Successor(local) else local)
    || (m.id == m.newId == Successor(local))
  }

  predicate InFlight(s: System, m: Update) {
    if s.known.None? then m == Heartbeat(s.db)
    else m.id == s.known.value && m.wares == s.sentW && m.schemes == s.sentS && NumberedFor(m, s.db.updateId)
  }

  ghost predicate PhaseOk(s: System) {
    match s.phase
    case Idle =>
      s.known.Some? ==>
        Near(s.known.value, s.db.updateId) && (s.remote.Server? ==> s.known.value == s.remote.id)
    case Sent(m) =>
      InFlight(s, m) && (s.remote.Server? && s.known.Some? ==> s.remote.id == m.id)
    case Accepted(m, failW, failS) =>
      && InFlight(s, m)
      && failW.Keys <= BatchKeys(m.wares) && failS.Keys <= BatchKeys(m.schemes)
      && (s.remote.Server? ==>
            && s.remote.id == m.newId
            && Landed(s.remote.listings, m.wares, failW.Keys)
            && Landed(s.remote.schemes, m.schemes, failS.Keys))
    case Rejected(m, current) =>
      && s.known.None? && InFlight(s, m)
      && Near(current, s.db.updateId)
      && (s.remote.Server? ==> current == s.remote.id)
    case Refused => s.remote.NoServer? && (s.known.Some? ==> Near(s.known.value, s.db.updateId))
  }

  ghost predicate UnregisteredOk(s: System) {
    !s.db.registered ==>
      AllDirty(s.db) && s.db.updateId == 0 && s.known.None? && s.phase.Idle? && s.remote.NoServer?
  }

  ghost predicate WiredSys(s: System) {
    && Wired(WareView(s.db), s.sentW, s.touchedW)
    && Wired(SchemeView(s.db), s.sentS, s.touchedS)
  }

  ghost predicate Inv(s: System) {
    && DbInv(s.db)
    && WiredSys(s)
    && InStep(s)
    && IdsOk(s)
    && PhaseOk(s)
    && UnregisteredOk(s)
  }

  // ---------- every step keeps it

  lemma InitInv(s: System)
    requires Init(s)
    ensures Inv(s)
  {
    assert PendingBatch(WareView(s.db)).updates == map[];
    assert PendingBatch(SchemeView(s.db)).updates == map[];
  }

  lemma EditKeepsInv(s: System, e: Edit, s': System)
    requires Inv(s) && Step(s, LocalEdit(e), s')
    ensures Inv(s')
  {
    EditKeepsDbInv(s.db, e);
    EditsOnlyDirtyWares(s.db, e);
    EditsOnlyDirtySchemes(s.db, e);
    EditedKeepsWired(WareView(s.db), WareView(s'.db), s.sentW, s.touchedW, WaresTouched(s.db, e));
    EditedKeepsWired(SchemeView(s.db), SchemeView(s'.db), s.sentS, s.touchedS, SchemesTouched(s.db, e));
    if s.remote.Server? {
      EditedKeeps(WareView(s.db), WareView(s'.db), WaresTouched(s.db, e), s.remote.listings);
      EditedKeeps(SchemeView(s.db), SchemeView(s'.db), SchemesTouched(s.db, e), s.remote.schemes);
    }
    EditKeepsNumbers(s.db, e);
    EditedKeepsUpdating(s.db, s'.db, WaresTouched(s.db, e), SchemesTouched(s.db, e));
  }

  lemma EditKeepsNumbers(db: Db, e: Edit)
    requires Apply(db, e).Some?
    ensures Apply(db, e).value.updateId == db.updateId && Apply(db, e).value.registered == db.registered
    ensures AllDirty(db) ==> AllDirty(Apply(db, e).value)
  {
  }

  lemma EditedKeepsUpdating(db: Db, db': Db, tw: set<WareId>, ts: set<SchemeId>)
    requires Edited(WareView(db), WareView(db'), tw) && Edited(SchemeView(db), SchemeView(db'), ts)
    ensures AnyUpdating(db) ==> AnyUpdating(db')
  {
    if w :| w in db.wares && db.wares[w].updating {
      assert WareView(db)[w].updating && WareView(db')[w].updating;
    } else if r :| r in db.schemes && db.schemes[r].updating {
      assert SchemeView(db)[r].updating && SchemeView(db')[r].updating;
    }
  }

  /** Putting an update together from the pending rows. */
  lemma BatchKeepsInv(s: System, db: Db, m: Update)
    requires Inv(s) && s.phase.Idle? && s.db.registered && s.known.Some?
    requires FlagsMoved(s.db, db) && DbInv(db)
    requires m.wares == PendingBatch(WareView(db)) && m.schemes == PendingBatch(SchemeView(db))
    requires m.id == s.known.value && NumberedFor(m, db.updateId)
    requires AnyUpdating(s.db) ==> AnyUpdating(db)
    ensures Inv(SendBatch(s, db, m))
  {
    MarkIsRemarked(s.db, db);
    PendingWired(WareView(db));
    PendingWired(SchemeView(db));
    if s.remote.Server? {
      RemarkedKeeps(WareView(s.db), WareView(db), s.remote.listings);
      RemarkedKeeps(SchemeView(s.db), SchemeView(db), s.remote.schemes);
    }
  }

  lemma RequestKeepsInv(s: System, c: Choice, s': System)
    requires Inv(s) && Step(s, Request(c), s')
    ensures Inv(s')
    ensures s.db.registered ==> s'.phase.Sent? && s'.db.registered
  {
    if s.db.registered && s.known.Some? {
      if Successor(s.db.updateId) == s.known.value {
        BatchKeepsInv(s, s.db, PendingUpdate(s.db));
      } else {
        var db := MarkNext(s.db, c);
        MarkMovesFlags(s.db, c);
        MarkKeepsDbInv(s.db, c);
        BatchKeepsInv(s, db, NextUpdate(db));
      }
    }
  }

  lemma RequestKeepsRows(s: System, c: Choice, s': System)
    requires Step(s, Request(c), s')
    ensures s'.db.wares.Keys == s.db.wares.Keys && s'.db.schemes.Keys == s.db.schemes.Keys
    ensures s'.remote == s.remote || s'.remote.NoServer?
  {
    if s.db.registered && s.known.Some? && Successor(s.db.updateId) != s.known.value
       && s.db.updateId == s.known.value {
      var db := MarkNext(s.db, c);
      MarkMovesFlags(s.db, c);
      assert s'.db == db;
    }
  }

  lemma CarriedIsUpdating(s: System, m: Update)
    requires WiredSys(s) && m.wares == s.sentW && m.schemes == s.sentS && Carries(m)
    ensures AnyUpdating(s.db)
  {
    if k :| k in BatchKeys(m.wares) {
      assert WareView(s.db)[k].updating;
    } else {
      assert BatchKeys(m.wares) == {};
      var k :| k in BatchKeys(m.schemes);
      assert SchemeView(s.db)[k].updating;
    }
  }

  lemma DeliverKeepsInv(s: System, failW: map<WareId, string>, failS: map<SchemeId, string>, s': System)
    requires Inv(s) && Step(s, Deliver(failW, failS), s')
    ensures Inv(s')
    ensures s'.phase.Rejected? ==> s.known.None?
  {
    var m := s.phase.m;
    if s.remote.Server? && s.remote.id == m.id {
      if s.known.None? {
        HeartbeatChangesNothing(s.remote.listings, failW);
        HeartbeatChangesNothing(s.remote.schemes, failS);
      } else {
        AppliedKeepsSafe(WareView(s.db), s.remote.listings, m.wares, s.touchedW, failW.Keys);
        AppliedKeepsSafe(SchemeView(s.db), s.remote.schemes, m.schemes, s.touchedS, failS.Keys);
        AppliedLands(s.remote.listings, m.wares, failW.Keys);
        AppliedLands(s.remote.schemes, m.schemes, failS.Keys);
        if Carries(m) {
          CarriedIsUpdating(s, m);
        }
      }
    }
  }

  lemma HeartbeatChangesNothing<K, C>(remote: map<K, C>, fail: map<K, string>)
    ensures Applied(remote, NoBatch<K, C>(), fail.Keys) == remote
  {
  }

  lemma AckKeepsInv(s: System, db: Db)
    requires Inv(s) && s.phase.Accepted? && s.known.Some?
    requires DbInv(db) && db.updateId == s.phase.m.newId && db.registered == s.db.registered
    requires WareView(db) == Acked(WareView(s.db), s.phase.failW, s.db.files.Keys)
    requires SchemeView(db) == Acked(SchemeView(s.db), s.phase.failS, s.db.schemes.Keys)
    ensures Inv(Settled(s, db).(known := Some(s.phase.m.newId)))
  {
    var m, failW, failS := s.phase.m, s.phase.failW, s.phase.failS;
    var t, u := WareView(s.db), SchemeView(s.db);
    AckedIsIdle(t, failW, s.db.files.Keys);
    AckedIsIdle(u, failS, s.db.schemes.Keys);
    if s.remote.Server? {
      AckedKeepsSafe(t, s.remote.listings, m.wares, s.touchedW, failW, s.db.files.Keys);
      AckedKeepsSafe(u, s.remote.schemes, m.schemes, s.touchedS, failS, s.db.schemes.Keys);
    }
  }

  lemma ResetIsUnwired(db: Db)
    requires AllDirty(db)
    ensures Wired(WareView(db), NoBatch(), {}) && Wired(SchemeView(db), NoBatch(), {})
  {
    assert PendingBatch(WareView(db)).updates == map[];
    assert PendingBatch(SchemeView(db)).updates == map[];
  }

  lemma HandleKeepsInv(s: System, s': System)
    requires Inv(s) && Step(s, Handle, s')
    ensures Inv(s')
  {
    match s.phase
    case Accepted(m, failW, failS) =>
      if s.known.Some? {
        var db := Acknowledged(s.db, failW, failS, m.newId);
        AcknowledgedKeepsDbInv(s.db, failW, failS, m.newId);
        AcknowledgedViews(s.db, failW, failS, m.newId);
        AckKeepsInv(s, db);
      }
    case Refused =>
      ResetEstablishes(s.db);
      ResetIsUnwired(Reset(s.db));
    case _ =>
  }

  lemma StepKeepsInv(s: System, ev: Event, s': System)
    requires Inv(s) && Step(s, ev, s')
    ensures Inv(s')
  {
    match ev
    case LocalEdit(e) => EditKeepsInv(s, e, s');
    case Request(c) => RequestKeepsInv(s, c, s');
    case Deliver(failW, failS) => DeliverKeepsInv(s, failW, failS, s');
    case Handle => HandleKeepsInv(s, s');
    case Register =>
      assert WareView(s'.db) == WareView(s.db) && SchemeView(s'.db) == SchemeView(s.db);
    case _ =>
  }

  /** In every state of every run the invariant holds. */
  lemma {:induction false} RunKeepsInv(run: Run)
    requires IsRun(run)
    ensures Inv(run.s)
  {
    match run
    case Start(s) => InitInv(s);
    case Then(before, ev, s) =>
      RunKeepsInv(before);
      StepKeepsInv(before.s, ev, s);
  }
}
