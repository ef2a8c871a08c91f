/**
 Runs that reach what the protocol does not prevent: a lost reply that breaks safety, a removal
 that is never completed, and a remote listing without a local row.
 */
module SyncWitnesses {
  import opened Wrappers
  import opened Tables
  import opened Catalog
  import opened ListingSync
  import opened LostReplies
  import opened SyncLimits
  import opened Convergence
  import opened Agreement
  import SchemeIds

  // ---------- one scheme

  const SCHEME_A := SchemeRow("A", true, false, false, None)

  /** A registered catalogue with one scheme that has not been sent yet, in an open session. */
  function OneScheme(registered: bool, remote: Remote, known: Option<UpdateId>, phase: Phase): System {
    System(Db(map[], map[1 := SCHEME_A], map[], 0, registered), remote, known, phase, NoBatch(), NoBatch(), {}, {1})
  }

  lemma RunToRegistered() returns (run: Run)
    ensures IsRun(run) && run.s == OneScheme(true, Server(map[], map[], 0), None, Idle)
  {
    var s0 := System(Db(map[], map[], map[], 0, false), NoServer, None, Idle, NoBatch(), NoBatch(), {}, {});
    assert s0.db.schemes.Keys == {};
    SchemeIds.LeastFreeUnique({}, 1, SchemeIds.LeastFree({}));
    var s1 := OneScheme(false, NoServer, None, Idle);
    assert Step(s0, LocalEdit(AddScheme("A")), s1);
    var s2 := OneScheme(true, Server(map[], map[], 0), None, Idle);
    assert Step(s1, Register, s2);
    run := Then(Then(Start(s0), LocalEdit(AddScheme("A")), s1), Register, s2);
  }

  lemma RunToSession() returns (run: Run)
    ensures IsRun(run) && run.s == OneScheme(true, Server(map[], map[], 0), Some(0), Idle)
  {
    run := RunToRegistered();
    var s := run.s;
    var c := Choice({1}, {}, {});
    OneSchemeChoice(s.db, c);
    var s3 := s.(phase := Sent(Heartbeat(s.db)));
    assert Step(s, Request(c), s3);
    HeartbeatChangesNothing<WareId, Listing>(map[], map[]);
    HeartbeatChangesNothing<SchemeId, string>(map[], map[]);
    var s4 := s3.(phase := Accepted(Heartbeat(s.db), map[], map[]));
    assert Step(s3, Deliver(map[], map[]), s4);
    var s5 := OneScheme(true, Server(map[], map[], 0), Some(0), Idle);
    assert Step(s4, Handle, s5);
    run := Then(Then(Then(run, Request(c), s3), Deliver(map[], map[]), s4), Handle, s5);
  }

  const SENT_A: Batch<SchemeId, string> := Batch(map[1 := "A"], {})

  /** The scheme is marked and its update is somewhere on the way. */
  function OneSchemeMarkedSystem(remote: Remote, phase: Phase): System {
    System(Db(map[], map[1 := SchemeRow("A", false, true, false, None)], map[], 0, true),
           remote, Some(0), phase, NoBatch(), SENT_A, {}, {})
  }

  lemma RunToSent() returns (run: Run)
    ensures IsRun(run)
    ensures run.s == OneSchemeMarkedSystem(Server(map[], map[], 0), Sent(Update(0, 1, NoBatch(), SENT_A)))
  {
    run := RunToSession();
    var s := run.s;
    var c := Choice({1}, {}, {});
    OneSchemeChoice(s.db, c);
    OneSchemeSent(s, c);
    run := Then(run, Request(c), RequestNext(s, c));
  }

  lemma OneSchemeSent(s: System, c: Choice)
    requires s == OneScheme(true, Server(map[], map[], 0), Some(0), Idle) && c == Choice({1}, {}, {})
    ensures RequestNext(s, c) ==
            OneSchemeMarkedSystem(Server(map[], map[], 0), Sent(Update(0, 1, NoBatch(), SENT_A)))
  {
    OneSchemeMarked(s.db, c);
    RequestInSession(s, c);
    assert NextUpdate(MarkNext(s.db, c)) == Update(0, 1, NoBatch(), SENT_A);
  }

  lemma OneSchemeChoice(db: Db, c: Choice)
    requires db.wares == map[] && db.schemes == map[1 := SCHEME_A]
    requires c == Choice({1}, {}, {})
    ensures ValidChoice(db, c)
  {
  }

  lemma OneSchemeMarked(db: Db, c: Choice)
    requires db.wares == map[] && db.schemes == map[1 := SCHEME_A]
    requires c == Choice({1}, {}, {})
    ensures MarkNext(db, c) == db.(schemes := map[1 := SchemeRow("A", false, true, false, None)])
    ensures PendingBatch(WareView(MarkNext(db, c))) == NoBatch()
    ensures PendingBatch(SchemeView(MarkNext(db, c))) == Batch(map[1 := "A"], {})
  {
    var db' := MarkNext(db, c);
    assert db'.schemes == map[1 := SchemeRow("A", false, true, false, None)];
    assert db'.wares == map[];
    assert WareView(db') == map[];
    assert PendingBatch(SchemeView(db')).updates == map[1 := "A"];
  }

  /** One scheme, one session, one refused item, one lost reply: not every continuation is safe. */
  lemma LostReplyRun() returns (run: Run)
    ensures IsRun(run) && AwaitsReply(run.s) && !FailuresHold(run.s)
    ensures forall c :: !InStep(RejectedNext(LoseReplyInSession(run.s), c))
  {
    run := RunToSent();
    var failS: map<SchemeId, string> := map[1 := "refused"];
    var s := DeliverNext(run.s, map[], failS);
    HeartbeatChangesNothing<WareId, Listing>(map[], map[]);
    assert Applied(map[], SENT_A, failS.Keys) == map[];
    run := Then(run, Deliver(map[], failS), s);
    assert s.phase == Accepted(Update(0, 1, NoBatch(), SENT_A), map[], failS);
    assert 1 in failS.Keys && Pending(SchemeView(s.db)[1]);
    forall c
      ensures !InStep(RejectedNext(LoseReplyInSession(s), c))
    {
      RejectionInStepIff(run, c);
    }
  }

  /** The scheme as the server refused it: with its problem, and nothing more to send. */
  lemma SchemeRefused(db: Db)
    requires db.wares == map[] && db.schemes == map[1 := SchemeRow("A", false, true, false, None)]
    ensures Acknowledged(db, map[], map[1 := "refused"], 1) ==
            db.(schemes := map[1 := SchemeRow("A", false, false, false, Some("refused"))], updateId := 1)
  {
    var fail: map<SchemeId, string> := map[1 := "refused"];
    assert PurgeWares(NoteWares(db, map[])) == map[];
    assert PurgeSchemes(NoteSchemes(db, fail)) == map[1 := SchemeRow("A", false, false, false, Some("refused"))];
  }

  lemma RefusedDelivery(s: System, s': System)
    requires s == OneSchemeMarkedSystem(Server(map[], map[], 0), Sent(Update(0, 1, NoBatch(), SENT_A)))
    requires s' == OneSchemeMarkedSystem(Server(map[], map[], 1), Accepted(s.phase.m, map[], map[1 := "refused"]))
    ensures Step(s, Deliver(map[], map[1 := "refused"]), s')
  {
    var fail: map<SchemeId, string> := map[1 := "refused"];
    HeartbeatChangesNothing<WareId, Listing>(map[], map[]);
    assert Applied(map[], SENT_A, fail.Keys) == map[];
  }

  /** A refused scheme: there is nothing to send and no stuck removal, yet no rounds bring agreement. */
  lemma RefusedRun() returns (run: Run)
    ensures IsRun(run) && run.s.phase.Idle? && run.s.db.registered && run.s.remote.Server?
    ensures Done(run.s.db) && !Stuck(run.s.db) && !Agreeable(run.s)
    ensures forall cs :: ValidChoices(run.s, cs) && |cs| >= Rank(run.s) ==> !InAgreement(Rounds(run.s, cs))
  {
    run := RunToSent();
    var s1 := OneSchemeMarkedSystem(Server(map[], map[], 1), Accepted(run.s.phase.m, map[], map[1 := "refused"]));
    RefusedDelivery(run.s, s1);
    SchemeRefused(s1.db);
    var s2 := HandleNext(s1);
    run := Then(Then(run, Deliver(map[], map[1 := "refused"]), s1), Handle, s2);
    RefusedDisagrees(s2);
    forall cs | ValidChoices(s2, cs) && |cs| >= Rank(s2)
      ensures !InAgreement(Rounds(s2, cs))
    {
      AgreementIff(run, cs);
    }
  }

  lemma RefusedDisagrees(s: System)
    requires s.db.wares == map[] && s.db.schemes == map[1 := SchemeRow("A", false, false, false, Some("refused"))]
    requires s.remote == Server(map[], map[], 1)
    ensures Done(s.db) && !Stuck(s.db) && !Agreeable(s)
  {
    assert Quiet(SchemeView(s.db)[1]);
  }

  // ---------- one ware under that scheme

  const SCHEME_SETTLED := SchemeRow("A", false, false, false, None)

  /** A session in step with its server, which knows the scheme. */
  function Shop(wares: map<WareId, WareRow>, files: map<WareId, string>, listings: map<WareId, Listing>,
                id: UpdateId, touched: set<WareId>): System
  {
    System(Db(wares, map[1 := SCHEME_SETTLED], files, id, true), Server(listings, map[1 := "A"], id),
           Some(id), Idle, NoBatch(), NoBatch(), touched, {})
  }

  lemma RunToShop() returns (run: Run)
    ensures IsRun(run) && run.s == Shop(map[], map[], map[], 1, {})
  {
    run := RunToSent();
    var m := run.s.phase.m;
    var s1 := OneSchemeMarkedSystem(Server(map[], map[1 := "A"], 1), Accepted(m, map[], map[]));
    SchemeDelivered(run.s, s1);
    SchemeSettles(s1.db);
    var s2 := Shop(map[], map[], map[], 1, {});
    assert Step(s1, Handle, s2);
    run := Then(Then(run, Deliver(map[], map[]), s1), Handle, s2);
  }

  lemma SchemeDelivered(s: System, s': System)
    requires s == OneSchemeMarkedSystem(Server(map[], map[], 0), Sent(Update(0, 1, NoBatch(), SENT_A)))
    requires s' == OneSchemeMarkedSystem(Server(map[], map[1 := "A"], 1), Accepted(s.phase.m, map[], map[]))
    ensures Step(s, Deliver(map[], map[]), s')
  {
    var none: map<SchemeId, string> := map[];
    HeartbeatChangesNothing<WareId, Listing>(map[], map[]);
    assert none.Keys == {} && Applied(map[], SENT_A, none.Keys) == map[1 := "A"];
  }

  lemma SchemeSettles(db: Db)
    requires db.wares == map[] && db.schemes == map[1 := SchemeRow("A", false, true, false, None)]
    ensures Acknowledged(db, map[], map[], 1) == db.(schemes := map[1 := SCHEME_SETTLED], updateId := 1)
  {
    assert PurgeWares(NoteWares(db, map[])) == map[];
    assert PurgeSchemes(NoteSchemes(db, map[])) == map[1 := SCHEME_SETTLED];
  }

  /** A ware that has been edited and waits to be marked. */
  function Waiting(deleted: bool): WareRow {
    WareRow(1, true, false, deleted, None)
  }

  function OnlyChoice(deleted: bool): Choice {
    if deleted then Choice({}, {7}, {}) else Choice({}, {}, {7})
  }

  lemma OneWareChoice(db: Db, deleted: bool)
    requires db.wares == map[7 := Waiting(deleted)] && db.schemes == map[1 := SCHEME_SETTLED]
    ensures ValidChoice(db, OnlyChoice(deleted))
  {
    assert SchemeCandidates(db) == {};
    if deleted {
      assert DeletedWares(db.wares) == {7};
      assert DirtyWares(MarkWares(db.wares, {7})) == {};
    } else {
      assert DeletedWares(db.wares) == {};
      assert MarkWares(db.wares, {}) == db.wares;
      assert DirtyWares(db.wares) == {7};
    }
  }

  function OnItsWay(deleted: bool): WareRow {
    WareRow(1, false, true, deleted, None)
  }

  lemma OneWareMarked(db: Db, deleted: bool)
    requires db.wares == map[7 := Waiting(deleted)] && db.schemes == map[1 := SCHEME_SETTLED]
    ensures MarkNext(db, OnlyChoice(deleted)) == db.(wares := map[7 := OnItsWay(deleted)])
  {
    var db' := MarkNext(db, OnlyChoice(deleted));
    assert db'.schemes == db.schemes;
    assert db'.wares.Keys == {7} && db'.wares[7] == OnItsWay(deleted);
  }

  function OneWareBatch(files: map<WareId, string>, deleted: bool): Batch<WareId, Listing> {
    if deleted then Batch(map[], {7}) else Batch(map[7 := Listing(FileOf(files, 7), 1)], {})
  }

  lemma OneWarePending(db: Db, deleted: bool)
    requires db.wares == map[7 := OnItsWay(deleted)] && db.schemes == map[1 := SCHEME_SETTLED]
    ensures PendingBatch(WareView(db)) == OneWareBatch(db.files, deleted)
    ensures PendingBatch(SchemeView(db)) == NoBatch()
  {
    assert PendingBatch(WareView(db)).updates == OneWareBatch(db.files, deleted).updates;
    assert PendingBatch(WareView(db)).removals == OneWareBatch(db.files, deleted).removals;
    assert PendingBatch(SchemeView(db)).updates == map[];
  }

  /** The ware table after the response. */
  function OneWareAfter(files: map<WareId, string>, deleted: bool, fail: map<WareId, string>): map<WareId, WareRow> {
    if 7 in fail && 7 in files then map[7 := WareRow(1, false, false, deleted, Some(fail[7]))]
    else if deleted then map[] else map[7 := WareRow(1, false, false, false, None)]
  }

  lemma OneWareAcked(db: Db, deleted: bool, fail: map<WareId, string>, id: UpdateId)
    requires db.wares == map[7 := OnItsWay(deleted)] && db.schemes == map[1 := SCHEME_SETTLED]
    ensures Acknowledged(db, fail, map[], id) == db.(wares := OneWareAfter(db.files, deleted, fail), updateId := id)
  {
    assert PurgeWares(NoteWares(db, fail)) == OneWareAfter(db.files, deleted, fail);
    assert PurgeSchemes(NoteSchemes(db, map[])) == map[1 := SCHEME_SETTLED];
  }

  lemma OneWareSent(s: System, files: map<WareId, string>, listings: map<WareId, Listing>, id: UpdateId, deleted: bool)
    requires s == Shop(map[7 := Waiting(deleted)], files, listings, id, {7}) && id < 10
    ensures RequestNext(s, OnlyChoice(deleted)) == OneWareSystem(files, listings, id, deleted)
    ensures Step(s, Request(OnlyChoice(deleted)), OneWareSystem(files, listings, id, deleted))
  {
    var c, db := OnlyChoice(deleted), s.db.(wares := map[7 := OnItsWay(deleted)]);
    OneWareChoice(s.db, deleted);
    OneWareMarked(s.db, deleted);
    OneWareUpdate(db, deleted);
    RequestInSession(s, c);
    RequestSteps(s, c);
  }

  lemma OneWareUpdate(db: Db, deleted: bool)
    requires db.wares == map[7 := OnItsWay(deleted)] && db.schemes == map[1 := SCHEME_SETTLED] && db.updateId < 10
    ensures NextUpdate(db) == Update(db.updateId, db.updateId + 1, OneWareBatch(db.files, deleted), NoBatch())
  {
    OneWarePending(db, deleted);
    var b := OneWareBatch(db.files, deleted);
    assert 7 in b.updates.Keys || 7 in b.removals;
  }

  /** The ware is on its way. */
  function OneWareSystem(files: map<WareId, string>, listings: map<WareId, Listing>, id: UpdateId,
                         deleted: bool): System
    requires id < 10
  {
    var b := OneWareBatch(files, deleted);
    Shop(map[7 := OnItsWay(deleted)], files, listings, id, {}).(
      sentW := b, phase := Sent(Update(id, id + 1, b, NoBatch())))
  }

  /** The server has accepted the update, except for the given failures. */
  function OneWareDelivered(files: map<WareId, string>, listings: map<WareId, Listing>, id: UpdateId, deleted: bool,
                            fail: map<WareId, string>): System
    requires id < 10
  {
    var s, b := OneWareSystem(files, listings, id, deleted), OneWareBatch(files, deleted);
    s.(remote := Server(Applied(listings, b, fail.Keys), map[1 := "A"], id + 1),
       phase := Accepted(s.phase.m, fail, map[]))
  }

  lemma OneWareDelivers(files: map<WareId, string>, listings: map<WareId, Listing>, id: UpdateId, deleted: bool,
                        fail: map<WareId, string>)
    requires id < 10 && fail.Keys <= {7}
    ensures Step(OneWareSystem(files, listings, id, deleted), Deliver(fail, map[]),
                 OneWareDelivered(files, listings, id, deleted, fail))
  {
    HeartbeatChangesNothing<SchemeId, string>(map[1 := "A"], map[]);
  }

  lemma OneWareHandles(s: System, files: map<WareId, string>, remote: map<WareId, Listing>, id: UpdateId, deleted: bool,
                       fail: map<WareId, string>) returns (s': System)
    requires id < 10 && s.db == Db(map[7 := OnItsWay(deleted)], map[1 := SCHEME_SETTLED], files, id, true)
    requires s.remote == Server(remote, map[1 := "A"], id + 1) && s.known == Some(id)
    requires s.phase.Accepted? && s.phase.m.newId == id + 1 && s.phase.failW == fail && s.phase.failS == map[]
    ensures Step(s, Handle, s') && s' == Shop(OneWareAfter(files, deleted, fail), files, remote, id + 1, {})
  {
    OneWareAcked(s.db, deleted, fail, id + 1);
    s' := HandleNext(s);
  }

  /** Request, delivery with the given failures, and response. */
  lemma OneWareRound(run: Run, files: map<WareId, string>, listings: map<WareId, Listing>, id: UpdateId,
                     deleted: bool, fail: map<WareId, string>) returns (run': Run)
    requires IsRun(run) && run.s == Shop(map[7 := Waiting(deleted)], files, listings, id, {7}) && id < 10
    requires fail.Keys <= {7}
    ensures IsRun(run') && run'.Then? && run'.ev == Handle
    ensures var b := OneWareBatch(files, deleted);
      var remote := Applied(listings, b, fail.Keys);
      && run'.s == Shop(OneWareAfter(files, deleted, fail), files, remote, id + 1, {})
      && run'.before.s == OneWareDelivered(files, listings, id, deleted, fail)
  {
    var s1 := OneWareSystem(files, listings, id, deleted);
    OneWareSent(run.s, files, listings, id, deleted);
    var s2 := OneWareDelivered(files, listings, id, deleted, fail);
    OneWareDelivers(files, listings, id, deleted, fail);
    var s3 := OneWareHandles(s2, files, Applied(listings, OneWareBatch(files, deleted), fail.Keys), id, deleted, fail);
    run' := Then(Then(Then(run, Request(OnlyChoice(deleted)), s1), Deliver(fail, map[]), s2), Handle, s3);
  }

  const SONGS: map<WareId, string> := map[7 := "song"]
  const SONG_LISTED: map<WareId, Listing> := map[7 := Listing("song", 1)]

  /** The ware is for sale, and the server lists it. */
  lemma RunToListed() returns (run: Run)
    ensures IsRun(run) && run.s == Shop(map[7 := WareRow(1, false, false, false, None)], SONGS, SONG_LISTED, 2, {})
  {
    run := RunToShop();
    var s1, s2 := Shop(map[], SONGS, map[], 1, {}), Shop(map[7 := Waiting(false)], SONGS, map[], 1, {7});
    SongAdded();
    SongOffered();
    run := Then(Then(run, LocalEdit(FileAdded(7, "song")), s1), LocalEdit(UpdateWare(7, 1)), s2);
    var none: map<WareId, string> := map[];
    run := OneWareRound(run, SONGS, map[], 1, false, none);
    SongLanded(none);
  }

  lemma SongLanded(none: map<WareId, string>)
    requires none == map[]
    ensures Applied(map[], OneWareBatch(SONGS, false), none.Keys) == SONG_LISTED
  {
    assert none.Keys == {};
  }

  lemma SongAdded()
    ensures Step(Shop(map[], map[], map[], 1, {}), LocalEdit(FileAdded(7, "song")), Shop(map[], SONGS, map[], 1, {}))
  {
  }

  lemma SongOffered()
    ensures Step(Shop(map[], SONGS, map[], 1, {}), LocalEdit(UpdateWare(7, 1)),
                 Shop(map[7 := Waiting(false)], SONGS, map[], 1, {7}))
  {
    var s := Shop(map[], SONGS, map[], 1, {});
    assert Apply(s.db, UpdateWare(7, 1)) == Some(WithWare(s.db, 7, 1));
  }

  const REFUSED: map<WareId, string> := map[7 := "refused"]

  /** A removal that the server refuses while the file stays: the catalogue is stuck. */
  lemma StuckRun() returns (run: Run)
    ensures IsRun(run) && run.s.phase.Idle? && run.s.db.registered && run.s.remote.Server?
    ensures Stuck(run.s.db)
    ensures run.s == Shop(map[7 := WareRow(1, false, false, true, Some("refused"))], SONGS, SONG_LISTED, 3, {})
  {
    run := RunToListed();
    var s1 := Shop(map[7 := Waiting(true)], SONGS, SONG_LISTED, 2, {7});
    assert Step(run.s, LocalEdit(RemoveWare(7)), s1);
    run := Then(run, LocalEdit(RemoveWare(7)), s1);
    run := OneWareRound(run, SONGS, SONG_LISTED, 2, true, REFUSED);
    assert Applied(SONG_LISTED, OneWareBatch(SONGS, true), REFUSED.Keys) == SONG_LISTED;
    assert run.s.db.wares[7].deleted;
  }

  /** The scheme of that ware is edited: the edit is never sent. */
  lemma BlockedRun() returns (run: Run)
    ensures IsRun(run) && run.s.phase.Idle? && run.s.db.registered && run.s.remote.Server?
    ensures Blocked(run.s.db, 7, 1) && run.s.remote.schemes == map[1 := "A"] && run.s.db.schemes[1].body == "B"
    ensures forall cs :: ValidChoices(run.s, cs) ==>
              Rounds(run.s, cs).remote.Server? && HeldFor(Rounds(run.s, cs).remote.schemes, 1) == Some("A")
  {
    run := StuckRun();
    var s := run.s;
    var row := SchemeRow("B", true, false, false, None);
    var s' := s.(db := s.db.(schemes := map[1 := row]), touchedS := {1});
    SchemeEdited(s, s');
    run := Then(run, LocalEdit(UpdateScheme(1, "B")), s');
    RunKeepsInv(run);
    forall cs | ValidChoices(s', cs)
      ensures Rounds(s', cs).remote.Server? && HeldFor(Rounds(s', cs).remote.schemes, 1) == Some("A")
    {
      StuckHoldsUp(s', cs, 7, 1);
    }
  }

  lemma SchemeEdited(s: System, s': System)
    requires s.db.schemes == map[1 := SCHEME_SETTLED] && s.touchedS == {}
    requires s' == s.(db := s.db.(schemes := map[1 := SchemeRow("B", true, false, false, None)]), touchedS := {1})
    ensures Step(s, LocalEdit(UpdateScheme(1, "B")), s')
  {
    assert s.db.schemes[1 := SchemeRow("B", true, false, false, None)] == s'.db.schemes;
  }

  /** A removal that the server refuses after the file is gone: its row is dropped and the listing stays. */
  lemma OrphanRun() returns (run: Run)
    ensures IsRun(run) && run.Then? && run.ev.Handle? && DropsRejected(run.before.s)
    ensures OrphanFree(run.before.s) && !OrphanFree(run.s)
  {
    run := RunToListed();
    var s1 := Shop(map[7 := Waiting(true)], map[], SONG_LISTED, 2, {7});
    SongDeleted(run.s, s1);
    run := Then(run, LocalEdit(FileDeleted(7)), s1);
    run := OneWareRound(run, map[], SONG_LISTED, 2, true, REFUSED);
    assert Applied(SONG_LISTED, OneWareBatch(map[], true), REFUSED.Keys) == SONG_LISTED;
    SongLeftBehind(run.before.s);
    SongOrphaned(run.s);
  }

  lemma SongLeftBehind(s: System)
    requires s == OneWareDelivered(map[], SONG_LISTED, 2, true, REFUSED) && s.remote.listings == SONG_LISTED
    ensures DropsRejected(s) && OrphanFree(s)
  {
    assert 7 in REFUSED.Keys && LeavesBehind(s, 7);
  }

  lemma SongOrphaned(s: System)
    requires s.db.wares == map[] && s.remote.Server? && s.remote.listings == SONG_LISTED
    ensures !OrphanFree(s)
  {
    assert 7 in s.remote.listings.Keys && 7 !in WareView(s.db);
  }

  lemma SongDeleted(s: System, s': System)
    requires s == Shop(map[7 := WareRow(1, false, false, false, None)], SONGS, SONG_LISTED, 2, {})
    requires s' == Shop(map[7 := Waiting(true)], map[], SONG_LISTED, 2, {7})
    ensures Step(s, LocalEdit(FileDeleted(7)), s')
  {
  }
}
