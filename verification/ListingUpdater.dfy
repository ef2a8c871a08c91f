/**
 The updater fiber: the two message handlers that drive a session, proved against the
 transition system. One message is outstanding at a time.
 */
module Updater {
  import opened Wrappers
  import opened Tables
  import opened Catalog
  import opened ListingSync
  import opened CatalogStore

  /** What comes back from a posted update. */
  datatype Response =
    | Result(m: Update, failedListings: seq<(WareId, string)>, failedSchemes: seq<(SchemeId, string)>)
    | UpdateIdNotCurrent(m: Update, current: UpdateId)
    | SellerNotFound
    | OtherError

  /**
   The phase of the protocol in which a response arrives. Any other error may stand for an update
   that was not delivered and for a reply of any kind that was lost.
   */
  predicate Answers(r: Response, phase: Phase) {
    match r
    case Result(m, fl, fs) => phase == Accepted(m, FailureMap(fl), FailureMap(fs))
    case UpdateIdNotCurrent(m, current) => phase == Rejected(m, current)
    case SellerNotFound => phase == Refused
    case OtherError => !phase.Idle?
  }

  /** Exactly the rows that are updating and not dirty: live ones as they are, deleted ones as removals. */
  ghost predicate CarriesPending(b: Batch<WareId, Listing>, p: Batch<SchemeId, string>, wares: map<WareId, WareRec>,
                                 files: map<WareId, string>, schemes: map<SchemeId, SchemeRec>)
  {
    && b.updates.Keys == (set w | w in wares && wares[w].updating && !wares[w].dirty && !wares[w].deleted)
    && (forall w :: w in b.updates ==>
          w in files && b.updates[w].file == files[w] && b.updates[w].scheme == wares[w].scheme)
    && b.removals == (set w | w in wares && wares[w].updating && !wares[w].dirty && wares[w].deleted)
    && p.updates ==
       (map s | s in schemes && schemes[s].updating && !schemes[s].dirty && !schemes[s].deleted :: schemes[s].body)
    && p.removals == (set s | s in schemes && schemes[s].updating && !schemes[s].dirty && schemes[s].deleted)
  }

  /** The regular next update: the ID advances only if it carries anything. */
  predicate IsNextUpdate(m: Update, id: UpdateId) {
    m.id == id && m.newId == if Empty(m) then id else (id + 1) % 0x1_0000_0000
  }

  /** Neither table has anything in the update. */
  predicate Empty(m: Update) {
    m.wares.updates == map[] && m.wares.removals == {} && m.schemes.updates == map[] && m.schemes.removals == {}
  }

  /** Everything has to be sent again, and nothing else of a row has changed. */
  predicate SentAgain(wares: map<WareId, WareRec>, schemes: map<SchemeId, SchemeRec>,
                      wares': map<WareId, WareRec>, schemes': map<SchemeId, SchemeRec>)
  {
    && wares' == (map w | w in wares :: wares[w].(dirty := true, updating := false))
    && schemes' == (map s | s in schemes :: schemes[s].(dirty := true, updating := false))
  }

  /** The updater and its catalogue as they are. */
  datatype Snapshot = Snapshot(wares: map<WareId, WareRec>, schemes: map<SchemeId, SchemeRec>,
                               problems: map<nat, string>,
                               files: map<WareId, string>, updateId: UpdateId, registered: bool,
                               remoteUpdateId: int, outstanding: Option<Update>)

  /** An empty update under the local ID. */
  predicate NewSession(a: Snapshot, a': Snapshot) {
    && a' == a.(outstanding := a'.outstanding) && a'.outstanding.Some?
    && a'.outstanding.value.id == a'.outstanding.value.newId == a.updateId && Empty(a'.outstanding.value)
  }

  /** What is pending, under the ID that the remote end already has. */
  ghost predicate CaseB(a: Snapshot, a': Snapshot) {
    && a' == a.(outstanding := a'.outstanding) && a'.outstanding.Some?
    && a'.outstanding.value.id == a'.outstanding.value.newId == a.remoteUpdateId
    && CarriesPending(a'.outstanding.value.wares, a'.outstanding.value.schemes, a.wares, a.files, a.schemes)
  }

  /** What is marked, and the next ID only if there is anything. */
  ghost predicate CaseA(a: Snapshot, c: Choice, a': Snapshot) {
    && a' == a.(wares := a'.wares, schemes := a'.schemes, outstanding := a'.outstanding) && a'.outstanding.Some?
    && RowsMarked(a.wares, a.schemes, c, a'.wares, a'.schemes)
    && IsNextUpdate(a'.outstanding.value, a.updateId)
    && CarriesPending(a'.outstanding.value.wares, a'.outstanding.value.schemes, a'.wares, a.files, a'.schemes)
  }

  /** Start over: no server ID, and everything has to be sent again. */
  predicate StartedOver(a: Snapshot, a': Snapshot) {
    && a' == a.(wares := a'.wares, schemes := a'.schemes, updateId := 0, registered := false,
                outstanding := a'.outstanding, remoteUpdateId := a'.remoteUpdateId)
    && SentAgain(a.wares, a.schemes, a'.wares, a'.schemes)
  }

  /** What an update request does, case by case. */
  ghost predicate Requested(a: Snapshot, c: Choice, a': Snapshot) {
    if !a.registered then a' == a.(remoteUpdateId := -1)
    else if a.remoteUpdateId == -1 then NewSession(a, a')
    else if a.remoteUpdateId == (a.updateId + 1) % 0x1_0000_0000 then CaseB(a, a')
    else if a.remoteUpdateId == a.updateId then CaseA(a, c, a')
    else StartedOver(a, a') && a'.outstanding == a.outstanding && a'.remoteUpdateId == a.remoteUpdateId
  }

  /** The tables after a result with these failures, and its update ID. */
  ghost predicate Answered(a: Snapshot, fl: seq<(WareId, string)>, fs: seq<(SchemeId, string)>, id: UpdateId,
                           a': Snapshot)
  {
    && a' == a.(wares := a'.wares, schemes := a'.schemes, problems := a'.problems, updateId := id,
                remoteUpdateId := id, outstanding := None)
    && WaresAnswered(a.wares, a.problems, a.files, fl, a'.wares, a'.problems)
    && SchemesAnswered(a.schemes, a.problems, fs, a'.schemes, a'.problems)
  }

  /** What a response does, case by case. */
  ghost predicate Responded(a: Snapshot, r: Response, commits: bool, a': Snapshot) {
    match r
    case Result(m, fl, fs) =>
      if a.remoteUpdateId != -1 && commits then Answered(a, fl, fs, m.newId, a')
      else a' == a.(remoteUpdateId := m.newId, outstanding := None)
    case UpdateIdNotCurrent(m, current) =>
      if a.remoteUpdateId == -1 then a' == a.(remoteUpdateId := current, outstanding := None)
      else if commits then Answered(a, [], [], 0, a')
      else a' == a.(remoteUpdateId := 0, outstanding := None)
    case SellerNotFound =>
      if commits then StartedOver(a, a') && a'.remoteUpdateId == -1 && a'.outstanding.None?
      else a' == a.(remoteUpdateId := -1, outstanding := None)
    case OtherError => a' == a.(outstanding := None)
  }

  class ListingUpdater {
    const catalog: CatalogDatabase
    var remoteUpdateId: int
    var outstanding: Option<Update>

    constructor (catalog: CatalogDatabase)
      ensures this.catalog == catalog && remoteUpdateId == -1 && outstanding.None?
    {
      this.catalog, remoteUpdateId, outstanding := catalog, -1, None;
    }

    /** The fiber and its catalogue are in the local part of system state `s`. */
    ghost predicate Shows(s: System)
      reads this, catalog
    {
      && catalog.Valid() && catalog.State() == s.db
      && remoteUpdateId == (if s.known.None? then -1 else s.known.value)
      && (outstanding.None? <==> s.phase.Idle?)
      && (s.phase.Sent? ==> outstanding == Some(s.phase.m))
    }

    ghost function Seen(): Snapshot
      reads this, catalog
    {
      Snapshot(catalog.wares, catalog.schemes, catalog.problems, catalog.files, catalog.updateId, catalog.registered,
               remoteUpdateId, outstanding)
    }

    method PopulateListings() returns (ok: bool, w: Batch<WareId, Listing>, s: Batch<SchemeId, string>)
      requires catalog.Valid() && ReferencesOk(catalog.State())
      ensures ok
      ensures w == PendingBatch(WareView(catalog.State())) && s == PendingBatch(SchemeView(catalog.State()))
      ensures CarriesPending(w, s, catalog.wares, catalog.files, catalog.schemes)
    {
      s := catalog.PopulateUpdatingPayeeSchemes();
      ok, w := catalog.PopulateUpdatingWares();
      assert forall v :: v in catalog.wares && !catalog.wares[v].deleted ==> !catalog.State().wares[v].deleted;
    }

    /** An update request while idle: what is sent, if anything, is what a step of the protocol sends. */
    method HandleUpdateRequest(ghost s: System) returns (ghost c: Choice)
      requires Shows(s) && DbInv(s.db) && s.phase.Idle?
      modifies this, catalog
      ensures Shows(RequestNext(s, c)) && Step(s, Request(c), RequestNext(s, c))
      ensures Requested(old(Seen()), c, Seen())
    {
      c := Dispatch(s);
      RequestIsStep(s, c);
    }

    method Dispatch(ghost s: System) returns (ghost c: Choice)
      requires Shows(s) && DbInv(s.db) && s.phase.Idle?
      modifies this, catalog
      ensures ValidChoice(s.db, c) && Shows(RequestNext(s, c))
      ensures Requested(old(Seen()), c, Seen())
    {
      c := SomeChoice(s.db);
      if !catalog.registered {
        ForgetRemote(s, c);
      } else if remoteUpdateId == -1 {
        SendHeartbeat(s, c);
      } else if Successor(catalog.updateId) == remoteUpdateId {
        SendPending(s, c);
      } else if catalog.updateId == remoteUpdateId {
        c := SendNext(s);
      } else {
        StartOver(s, c);
      }
    }

    method ForgetRemote(ghost s: System, ghost c: Choice)
      requires Shows(s) && s.phase.Idle? && !catalog.registered
      modifies this`remoteUpdateId
      ensures Shows(RequestNext(s, c)) && Requested(old(Seen()), c, Seen())
    {
      remoteUpdateId := -1;
    }

    method SendHeartbeat(ghost s: System, ghost c: Choice)
      requires Shows(s) && s.phase.Idle? && catalog.registered && remoteUpdateId == -1
      modifies this`outstanding
      ensures Shows(RequestNext(s, c)) && Requested(old(Seen()), c, Seen())
    {
      outstanding := Some(Update(catalog.updateId, catalog.updateId, NoBatch(), NoBatch()));
    }

    /** Case B. */
    method SendPending(ghost s: System, ghost c: Choice)
      requires Shows(s) && DbInv(s.db) && s.phase.Idle? && catalog.registered
      requires Successor(catalog.updateId) == remoteUpdateId
      modifies this`outstanding
      ensures Shows(RequestNext(s, c)) && Requested(old(Seen()), c, Seen())
    {
      var next := Successor(catalog.updateId);
      var ok, w, p := PopulateListings();
      outstanding := Some(Update(next, next, w, p));
    }

    /** Case C. */
    method StartOver(ghost s: System, ghost c: Choice)
      requires Shows(s) && s.phase.Idle? && catalog.registered && remoteUpdateId != -1
      requires remoteUpdateId != Successor(catalog.updateId) && remoteUpdateId != catalog.updateId
      modifies catalog
      ensures Shows(RequestNext(s, c)) && Requested(old(Seen()), c, Seen())
    {
      catalog.ResetListingUpdateCounter();
    }

    method SendNext(ghost s: System) returns (ghost c: Choice)
      requires Shows(s) && DbInv(s.db) && s.phase.Idle? && catalog.registered && remoteUpdateId == catalog.updateId
      modifies this`outstanding, catalog
      ensures ValidChoice(s.db, c) && Shows(RequestNext(s, c)) && Requested(old(Seen()), c, Seen())
    {
      ghost var a := Seen();
      ghost var wares, schemes, files := catalog.wares, catalog.schemes, catalog.files;
      assert a.wares == wares && a.schemes == schemes && a.files == files;
      c := MarkAndPack(s);
      ghost var a' := a.(wares := catalog.wares, schemes := catalog.schemes, outstanding := outstanding);
      assert Seen() == a';
      CaseAIsRequested(a, c, catalog.wares, catalog.schemes, outstanding.value);
      NextIsSent(s, c);
    }

    /** Case A: the rows marked before, or newly marked ones; without any it is a heartbeat. */
    method MarkAndPack(ghost s: System) returns (ghost c: Choice)
      requires Shows(s) && DbInv(s.db) && s.phase.Idle?
      modifies this`outstanding, catalog`wares, catalog`schemes
      ensures ValidChoice(s.db, c)
      ensures catalog.Valid() && catalog.State() == MarkNext(s.db, c)
      ensures outstanding == Some(NextUpdate(catalog.State()))
      ensures RowsMarked(old(catalog.wares), old(catalog.schemes), c, catalog.wares, catalog.schemes)
      ensures IsNextUpdate(outstanding.value, catalog.updateId)
      ensures CarriesPending(outstanding.value.wares, outstanding.value.schemes,
                             catalog.wares, catalog.files, catalog.schemes)
    {
      c := MarkRows(s);
      var m := PackNext();
      outstanding := Some(m);
    }

    method MarkRows(ghost s: System) returns (ghost c: Choice)
      requires catalog.Valid() && catalog.State() == s.db && DbInv(s.db)
      modifies catalog`wares, catalog`schemes
      ensures ValidChoice(s.db, c)
      ensures catalog.Valid() && catalog.State() == MarkNext(s.db, c) && ReferencesOk(catalog.State())
      ensures RowsMarked(old(catalog.wares), old(catalog.schemes), c, catalog.wares, catalog.schemes)
    {
      c := catalog.MarkNextListingUpdate();
      MarkedStillRefers(s.db, c);
    }

    method PackNext() returns (m: Update)
      requires catalog.Valid() && ReferencesOk(catalog.State())
      ensures m == NextUpdate(catalog.State())
      ensures IsNextUpdate(m, catalog.updateId)
      ensures CarriesPending(m.wares, m.schemes, catalog.wares, catalog.files, catalog.schemes)
    {
      var id := catalog.updateId;
      var ok, w, p := PopulateListings();
      var changed := !IsEmpty(w) || !IsEmpty(p);
      EmptyBatches(w, p);
      m := Update(id, if changed then Successor(id) else id, w, p);
    }

    /**
     A response, whose transaction may or may not commit. In a session a rejection is handled like
     a result, although it carries none: the missing result has no failures and its update ID
     reads as 0.
     */
    method HandleUpdateResponse(r: Response, commits: bool, ghost s: System)
      requires Shows(s) && outstanding.Some? && Answers(r, s.phase)
      modifies this, catalog
      ensures Shows(if r.OtherError? then s.(phase := Idle) else if commits then HandleNext(s) else RolledBack(s))
      ensures Responded(old(Seen()), r, commits, Seen())
    {
      match r {
        case Result(m, fl, fs) =>
          var session := remoteUpdateId != -1;
          remoteUpdateId := m.newId;
          if session && commits {
            catalog.ProcessListingUpdateResponse(fl, fs, m.newId);
          }
        case UpdateIdNotCurrent(m, current) =>
          if remoteUpdateId == -1 {
            remoteUpdateId := current;
          } else {
            remoteUpdateId := 0;
            if commits {
              catalog.ProcessListingUpdateResponse([], [], 0);
            }
          }
        case SellerNotFound =>
          remoteUpdateId := -1;
          if commits {
            catalog.ResetListingUpdateCounter();
          }
        case OtherError =>
      }
      outstanding := None;
    }

    /** A response to the registration of a server ID, which a fresh and empty server goes with. */
    method HandleRegisterResponse(error: bool, ghost s: System)
      requires Shows(s) && s.phase.Idle? && !s.db.registered && s.known.None?
      modifies this, catalog
      ensures error ==> Shows(s)
      ensures !error ==> exists s' :: Step(s, Register, s') && Shows(s')
      ensures Seen() == old(Seen()).(registered := !error || old(catalog.registered), outstanding := None)
    {
      if !error {
        catalog.registered := true;
        ghost var s' := s.(db := s.db.(registered := true), remote := Server(map[], map[], 0), known := None);
        assert Step(s, Register, s') && Shows(s');
      }
      outstanding := None;
    }
  }

  lemma EmptyBatches<K, C, L, D>(b: Batch<K, C>, p: Batch<L, D>)
    ensures IsEmpty(b) <==> b.updates == map[] && b.removals == {}
    ensures IsEmpty(p) <==> p.updates == map[] && p.removals == {}
  {
  }

  lemma CaseAIsRequested(a: Snapshot, c: Choice, wares: map<WareId, WareRec>, schemes: map<SchemeId, SchemeRec>,
                         m: Update)
    requires a.registered && a.remoteUpdateId == a.updateId
    requires RowsMarked(a.wares, a.schemes, c, wares, schemes) && IsNextUpdate(m, a.updateId)
    requires CarriesPending(m.wares, m.schemes, wares, a.files, schemes)
    ensures Requested(a, c, a.(wares := wares, schemes := schemes, outstanding := Some(m)))
  {
    assert a.updateId != (a.updateId + 1) % 0x1_0000_0000;
  }

  lemma NextIsSent(s: System, c: Choice)
    requires s.db.registered && s.known == Some(s.db.updateId)
    ensures var db := MarkNext(s.db, c);
      RequestNext(s, c) == SendBatch(s, db, NextUpdate(db))
  {
    assert Successor(s.db.updateId) != s.db.updateId;
  }

  lemma RequestIsStep(s: System, c: Choice)
    requires s.phase.Idle? && ValidChoice(s.db, c)
    ensures Step(s, Request(c), RequestNext(s, c))
  {
  }

  lemma MarkedStillRefers(db: Db, c: Choice)
    requires DbInv(db) && (!AnyUpdating(db) ==> ValidChoice(db, c))
    ensures ReferencesOk(MarkNext(db, c))
  {
    if !AnyUpdating(db) {
      MarkKeepsDbInv(db, c);
    }
  }
}
