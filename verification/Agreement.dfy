/**
 Agreement: when undisturbed rounds end with the remote listings and schemes equal to the live
 local rows.
 */
module Agreement {
  import opened Wrappers
  import opened Tables
  import opened Catalog
  import opened ListingSync
  import opened SyncLimits
  import opened Convergence

  // ---------- one table

  /** Neither dirty nor updating: no update will carry the row, whatever its problem. */
  predicate Quiet<C>(r: Row<C>) {
    !r.dirty && !r.updating
  }

  /** The remote end has exactly what a row says. */
  ghost predicate Matches<K, C>(k: K, r: Row<C>, remote: map<K, C>) {
    if r.entry.Some? then k in remote && remote[k] == r.entry.value else k !in remote
  }

  ghost predicate Agree<K, C>(t: Table<K, C>, remote: map<K, C>) {
    forall k :: k in t && Quiet(t[k]) ==> Matches(k, t[k], remote)
  }

  /** A table without anything to send agrees with the remote end exactly if that holds the live rows. */
  lemma QuietAgreesIff<K, C>(t: Table<K, C>, remote: map<K, C>, live: map<K, C>)
    requires (forall k :: k in t ==> Quiet(t[k]))
    requires live.Keys == (set k | k in t && t[k].entry.Some?) && forall k :: k in live ==> t[k].entry == Some(live[k])
    ensures remote == live <==> Agree(t, remote) && NoOrphan(t, remote)
  {
    if Agree(t, remote) && NoOrphan(t, remote) {
      assert forall k :: k in remote ==> k in t && Matches(k, t[k], remote);
      assert forall k :: k in live ==> Matches(k, t[k], remote);
      assert remote.Keys == live.Keys;
    }
  }

  /** Sending what is pending and acknowledging it neither makes nor mends a disagreement. */
  lemma SentAgreesIff<K, C>(t: Table<K, C>, remote: map<K, C>, recordable: set<K>)
    ensures var t', remote' := Acked(t, map[], recordable), Applied(remote, PendingBatch(t), {});
      && (Agree(t', remote') <==> Agree(t, remote))
      && (NoOrphan(t', remote') <==> NoOrphan(t, remote))
  {
    var t', remote' := Acked(t, map[], recordable), Applied(remote, PendingBatch(t), {});
    forall k | k in t
      ensures Pending(t[k]) ==> Matches(k, t[k], remote')
      ensures !Pending(t[k]) ==> k in t' && t'[k] == t[k].(updating := false)
      ensures !Pending(t[k]) ==> (Matches(k, t[k], remote') <==> Matches(k, t[k], remote))
    {
    }
    forall k
      ensures k !in t ==> k !in t' && (k in remote' <==> k in remote)
      ensures k in t && k !in t' ==> k !in remote'
    {
    }
  }

  /** Marking that leaves quiet rows alone and makes none does not either. */
  ghost predicate QuietKept<K, C>(t: Table<K, C>, t': Table<K, C>) {
    && t'.Keys == t.Keys
    && forall k :: k in t && (Quiet(t[k]) || Quiet(t'[k])) ==> t'[k] == t[k]
  }

  lemma MarkedAgreesIff<K, C>(t: Table<K, C>, t': Table<K, C>, remote: map<K, C>)
    requires QuietKept(t, t')
    ensures Agree(t', remote) <==> Agree(t, remote)
    ensures NoOrphan(t', remote) <==> NoOrphan(t, remote)
  {
  }

  // ---------- one round

  /** Every row that no update will carry matches the remote end, and every remote entry has a row. */
  ghost predicate Agreeable(s: System) {
    && s.remote.Server? && OrphanFree(s)
    && Agree(WareView(s.db), s.remote.listings) && Agree(SchemeView(s.db), s.remote.schemes)
  }

  lemma QuietWareKept(db: Db, c: Choice, w: WareId)
    requires !AnyUpdating(db) && ValidChoice(db, c) && DbInv(db) && !Stuck(db) && w in db.wares
    ensures w in Marked(db, c).wares
    ensures !db.wares[w].dirty ==> Marked(db, c).wares[w] == db.wares[w]
    ensures !Marked(db, c).wares[w].dirty && !Marked(db, c).wares[w].updating ==> Marked(db, c).wares[w] == db.wares[w]
  {
    MarkedWare(db, c, w);
    if db.wares[w].deleted {
      DeletedIsDirty(db, w);
    }
    assert !db.wares[w].updating;
    assert w in c.deletedWares ==> w in DeletedWares(db.wares);
    assert w in c.dirtyWares ==> w in DirtyWares(MarkWares(db.wares, c.deletedWares));
  }

  lemma QuietSchemeKept(db: Db, c: Choice, r: SchemeId)
    requires !AnyUpdating(db) && ValidChoice(db, c) && r in db.schemes
    ensures r in Marked(db, c).schemes
    ensures !db.schemes[r].dirty ==> Marked(db, c).schemes[r] == db.schemes[r]
    ensures !Marked(db, c).schemes[r].dirty && !Marked(db, c).schemes[r].updating ==>
              Marked(db, c).schemes[r] == db.schemes[r]
  {
    MarkedScheme(db, c, r);
    assert r in c.schemes ==> r in SchemeCandidates(db);
  }

  lemma MarkKeepsQuiet(db: Db, c: Choice)
    requires !AnyUpdating(db) && ValidChoice(db, c) && DbInv(db) && !Stuck(db)
    ensures QuietKept(WareView(db), WareView(Marked(db, c))) && QuietKept(SchemeView(db), SchemeView(Marked(db, c)))
  {
    var db' := Marked(db, c);
    MarkMovesFlags(db, c);
    forall w | w in db.wares
      ensures Quiet(WareView(db)[w]) || Quiet(WareView(db')[w]) ==> WareView(db')[w] == WareView(db)[w]
    {
      QuietWareKept(db, c, w);
    }
    forall r | r in db.schemes
      ensures Quiet(SchemeView(db)[r]) || Quiet(SchemeView(db')[r]) ==> SchemeView(db')[r] == SchemeView(db)[r]
    {
      QuietSchemeKept(db, c, r);
    }
  }

  lemma PreparedAgreesIff(s: System, c: Choice)
    requires Ready(s) && s.known.Some? && ValidChoice(s.db, c) && !Stuck(s.db)
    ensures var db := Prepared(s, c);
      && (Agree(WareView(db), s.remote.listings) <==> Agree(WareView(s.db), s.remote.listings))
      && (Agree(SchemeView(db), s.remote.schemes) <==> Agree(SchemeView(s.db), s.remote.schemes))
      && (NoOrphan(WareView(db), s.remote.listings) <==> NoOrphan(WareView(s.db), s.remote.listings))
      && (NoOrphan(SchemeView(db), s.remote.schemes) <==> NoOrphan(SchemeView(s.db), s.remote.schemes))
  {
    var db := Prepared(s, c);
    if db != s.db {
      MarkKeepsQuiet(s.db, c);
      MarkedAgreesIff(WareView(s.db), WareView(db), s.remote.listings);
      MarkedAgreesIff(SchemeView(s.db), SchemeView(db), s.remote.schemes);
    }
  }

  /** A round neither makes nor mends a disagreement. */
  lemma RoundAgreeableIff(s: System, c: Choice)
    requires Ready(s) && ValidChoice(s.db, c) && !Stuck(s.db)
    ensures Agreeable(RoundNext(s, c)) <==> Agreeable(s)
  {
    RoundDb(s, c);
    RoundRemote(s, c);
    if s.known.Some? {
      var db := Prepared(s, c);
      PreparedAgreesIff(s, c);
      AcknowledgedViews(db, map[], map[], RoundNext(s, c).db.updateId);
      SentAgreesIff(WareView(db), s.remote.listings, db.files.Keys);
      SentAgreesIff(SchemeView(db), s.remote.schemes, db.schemes.Keys);
    }
  }

  lemma {:induction false} RoundsAgreeableIff(s: System, cs: seq<Choice>)
    requires Ready(s) && ValidChoices(s, cs) && !Stuck(s.db)
    ensures Agreeable(Rounds(s, cs)) <==> Agreeable(s)
    decreases |cs|
  {
    if cs != [] {
      RoundSteps(s, cs[0]);
      RoundKeepsStuck(s, cs[0]);
      RoundAgreeableIff(s, cs[0]);
      RoundsAgreeableIff(RoundNext(s, cs[0]), cs[1..]);
    }
  }

  // ---------- the end

  function LiveListings(db: Db): map<WareId, Listing> {
    map w | w in db.wares && !db.wares[w].deleted :: Listing(FileOf(db.files, w), db.wares[w].scheme)
  }

  function LiveSchemes(db: Db): map<SchemeId, string> {
    map r | r in db.schemes && !db.schemes[r].deleted :: db.schemes[r].body
  }

  /** The remote end holds exactly the live rows. */
  ghost predicate InAgreement(s: System) {
    s.remote.Server? && s.remote.listings == LiveListings(s.db) && s.remote.schemes == LiveSchemes(s.db)
  }

  lemma DoneAgreesIff(s: System)
    requires Done(s.db) && s.remote.Server?
    ensures InAgreement(s) <==> Agreeable(s)
  {
    assert forall w :: w in WareView(s.db) ==> Quiet(WareView(s.db)[w]);
    assert forall r :: r in SchemeView(s.db) ==> Quiet(SchemeView(s.db)[r]);
    QuietAgreesIff(WareView(s.db), s.remote.listings, LiveListings(s.db));
    QuietAgreesIff(SchemeView(s.db), s.remote.schemes, LiveSchemes(s.db));
  }

  /**
   From any idle state of any run with a live server and no stuck removal: after as many
   undisturbed rounds as the rank says, the remote listings and schemes are the live local rows, if
   and only if at the start every row that was neither dirty nor updating matched the remote end,
   and every remote entry had a row.
   */
  lemma AgreementIff(run: Run, cs: seq<Choice>)
    requires IsRun(run) && run.s.phase.Idle? && run.s.db.registered && run.s.remote.Server? && !Stuck(run.s.db)
    requires ValidChoices(run.s, cs) && |cs| >= Rank(run.s)
    ensures InAgreement(Rounds(run.s, cs)) <==> Agreeable(run.s)
  {
    RunKeepsInv(run);
    RoundsKeep(run.s, cs);
    RoundsFinish(run.s, cs);
    RoundsAgreeableIff(run.s, cs);
    DoneAgreesIff(Rounds(run.s, cs));
  }

  // ---------- when that is so

  ghost predicate ProblemFree(db: Db) {
    && (forall w :: w in db.wares ==> db.wares[w].problem.None?)
    && (forall r :: r in db.schemes ==> db.schemes[r].problem.None?)
  }

  lemma CleanAgrees<K, C>(t: Table<K, C>, remote: map<K, C>)
    requires Safe(t, remote) && NoCleanDeleted(t) && forall k :: k in t ==> t[k].problem.None?
    ensures Agree(t, remote)
  {
  }

  /** Without recorded problems and orphans, agreement is assured. */
  lemma ProblemFreeAgrees(s: System)
    requires Inv(s) && s.remote.Server? && ProblemFree(s.db) && OrphanFree(s)
    ensures Agreeable(s) && !Stuck(s.db)
  {
    CleanAgrees(WareView(s.db), s.remote.listings);
    CleanAgrees(SchemeView(s.db), s.remote.schemes);
  }

  /** After a registration it is assured as well, whatever problems are on record. */
  lemma RegistrationAgrees(s: System, s': System)
    requires Inv(s) && Step(s, Register, s')
    ensures Agreeable(s') && Ready(s')
  {
    StepKeepsInv(s, Register, s');
    assert AllDirty(s'.db);
  }

  /**
   Without recorded problems and dropped removals, finitely many undisturbed rounds end with the
   remote listings and schemes equal to the live local rows.
   */
  lemma EndsInAgreement(run: Run, cs: seq<Choice>)
    requires IsRun(run) && run.s.phase.Idle? && run.s.db.registered && run.s.remote.Server?
    requires NeverDropsRejected(run) && ProblemFree(run.s.db)
    requires ValidChoices(run.s, cs) && |cs| >= Rank(run.s)
    ensures InAgreement(Rounds(run.s, cs))
  {
    RunKeepsInv(run);
    RunOrphanFree(run);
    ProblemFreeAgrees(run.s);
    AgreementIff(run, cs);
  }

  // ---------- live rows over runs, and recovery from a lost server

  ghost predicate SameLive(db: Db, db': Db) {
    LiveListings(db') == LiveListings(db) && LiveSchemes(db') == LiveSchemes(db)
  }

  lemma ResetKeepsLive(db: Db)
    ensures SameLive(db, Reset(db))
  {
  }

  lemma MarkKeepsLive(db: Db, c: Choice)
    requires ValidChoice(db, c)
    ensures SameLive(db, MarkNext(db, c))
  {
    MarkMovesFlags(db, c);
    var db' := MarkNext(db, c);
    assert forall w :: w in db.wares ==> WareFlagsMoved(db.wares[w], db'.wares[w]);
    assert forall r :: r in db.schemes ==> SchemeFlagsMoved(db.schemes[r], db'.schemes[r]);
  }

  lemma AckKeepsLiveWares(db: Db, fail: map<WareId, string>)
    ensures LiveListings(db.(wares := PurgeWares(NoteWares(db, fail)))) == LiveListings(db)
  {
    var t := PurgeWares(NoteWares(db, fail));
    forall w
      ensures w in t && !t[w].deleted <==> w in db.wares && !db.wares[w].deleted
      ensures w in t ==> t[w].scheme == db.wares[w].scheme
    {
    }
  }

  lemma AckKeepsLiveSchemes(db: Db, fail: map<SchemeId, string>)
    ensures LiveSchemes(db.(schemes := PurgeSchemes(NoteSchemes(db, fail)))) == LiveSchemes(db)
  {
    var t := PurgeSchemes(NoteSchemes(db, fail));
    forall r
      ensures r in t && !t[r].deleted <==> r in db.schemes && !db.schemes[r].deleted
      ensures r in t ==> t[r].body == db.schemes[r].body
    {
    }
  }

  lemma AckKeepsLive(db: Db, failW: map<WareId, string>, failS: map<SchemeId, string>, id: UpdateId)
    ensures SameLive(db, Acknowledged(db, failW, failS, id))
  {
    AckKeepsLiveWares(db, failW);
    AckKeepsLiveSchemes(db, failS);
  }

  lemma RequestKeepsLive(s: System, c: Choice)
    requires ValidChoice(s.db, c)
    ensures SameLive(s.db, RequestNext(s, c).db)
  {
    var db' := RequestNext(s, c).db;
    if db' != s.db {
      if db' == MarkNext(s.db, c) {
        MarkKeepsLive(s.db, c);
      } else {
        ResetKeepsLive(s.db);
      }
    }
  }

  lemma HandleKeepsLive(s: System)
    ensures SameLive(s.db, HandleNext(s).db)
  {
    match s.phase
    case Accepted(m, failW, failS) => AckKeepsLive(s.db, failW, failS, m.newId);
    case Rejected(_, _) => AckKeepsLive(s.db, map[], map[], 0);
    case Refused => ResetKeepsLive(s.db);
    case _ =>
  }

  /** Nothing but a local edit changes what the live rows say. */
  lemma StepKeepsLive(s: System, ev: Event, s': System)
    requires Step(s, ev, s') && !ev.LocalEdit?
    ensures SameLive(s.db, s'.db)
  {
    match ev
    case Request(c) => RequestKeepsLive(s, c);
    case Handle => HandleKeepsLive(s);
    case _ =>
  }

  lemma RoundKeepsLive(s: System, c: Choice)
    requires Ready(s) && ValidChoice(s.db, c)
    ensures SameLive(s.db, RoundNext(s, c).db)
  {
    RoundDb(s, c);
    if s.known.Some? {
      MarkKeepsLive(s.db, c);
      AckKeepsLive(Prepared(s, c), map[], map[], RoundNext(s, c).db.updateId);
    }
  }

  lemma {:induction false} RoundsKeepLive(s: System, cs: seq<Choice>)
    requires Ready(s) && ValidChoices(s, cs)
    ensures SameLive(s.db, Rounds(s, cs).db)
    decreases |cs|
  {
    if cs != [] {
      RoundSteps(s, cs[0]);
      RoundKeepsLive(s, cs[0]);
      RoundsKeepLive(RoundNext(s, cs[0]), cs[1..]);
    }
  }

  /**
   A server that is gone costs nothing: in any run, once a refusal has been handled and a new server
   registered, finitely many undisturbed rounds bring every listing and scheme that was live at the
   refusal to the new server, and nothing else.
   */
  lemma RefusalRecovers(run: Run, s1: System, s2: System, cs: seq<Choice>)
    requires IsRun(run) && run.s.phase.Refused? && !Stuck(run.s.db)
    requires Step(run.s, Handle, s1) && Step(s1, Register, s2)
    requires ValidChoices(s2, cs) && |cs| >= Rank(s2)
    ensures Rounds(s2, cs).remote.Server?
    ensures Rounds(s2, cs).remote.listings == LiveListings(run.s.db)
    ensures Rounds(s2, cs).remote.schemes == LiveSchemes(run.s.db)
  {
    var run' := Then(Then(run, Handle, s1), Register, s2);
    RunKeepsInv(run);
    RunKeepsInv(run');
    StepKeepsInv(run.s, Handle, s1);
    RegistrationAgrees(s1, s2);
    StepKeepsLive(run.s, Handle, s1);
    StepKeepsLive(s1, Register, s2);
    RoundsKeepLive(s2, cs);
    AgreementIff(run', cs);
  }
}
