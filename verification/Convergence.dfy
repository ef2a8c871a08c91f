/**
 Convergence: once local edits stop and the remote end accepts everything, how the catalogue
 and the remote end come to agree, and when they never do.
 */
module Convergence {
  import opened Wrappers
  import opened Tables
  import opened Catalog
  import opened ListingSync
  import opened SyncLimits

  /** One undisturbed round: request, delivery without failures, response. */
  function RoundNext(s: System, c: Choice): System {
    var s1 := RequestNext(s, c);
    if s1.phase.Sent? then HandleNext(DeliverNext(s1, map[], map[])) else s1
  }

  ghost predicate Ready(s: System) {
    Inv(s) && s.phase.Idle? && s.db.registered && s.remote.Server?
  }

  function DirtySchemes(db: Db): set<SchemeId> {
    set r | r in db.schemes && db.schemes[r].dirty
  }

  /** The measure: the sum over all rows of 2 for dirty and 1 for updating. */
  function Work(db: Db): nat {
    2 * |DirtyWares(db.wares)| + |UpdatingWares(db)| + 2 * |DirtySchemes(db)| + |UpdatingSchemes(db)|
  }

  function Rank(s: System): nat {
    Work(s.db) + if s.known.None? then 1 else 0
  }

  /** A deleted ware with a recorded problem: it may be marked again and again, and no response purges it. */
  ghost predicate Stuck(db: Db) {
    exists w :: w in db.wares && db.wares[w].deleted && db.wares[w].problem.Some?
  }

  /** There is nothing to send: the next update is a heartbeat. */
  ghost predicate Done(db: Db) {
    NothingToSend(db) && !AnyUpdating(db)
  }

  /** The database whose pending rows a round sends. */
  function Prepared(s: System, c: Choice): Db
    requires s.known.Some?
  {
    if Successor(s.db.updateId) == s.known.value then s.db else MarkNext(s.db, c)
  }

  lemma RoundSteps(s: System, c: Choice)
    requires Ready(s) && ValidChoice(s.db, c)
    ensures Ready(RoundNext(s, c)) && RoundNext(s, c).known.Some?
    ensures OrphanFree(s) ==> OrphanFree(RoundNext(s, c))
  {
    var s1 := RequestNext(s, c);
    RequestKeepsInv(s, c, s1);
    RequestKeepsOrphanFree'(s, c, s1);
    var s2 := DeliverNext(s1, map[], map[]);
    DeliverKeepsInv(s1, map[], map[], s2);
    assert Step(s1, Deliver(map[], map[]), s2);
    assert s1.remote.Server? && !s2.phase.Refused?;
    var s3 := HandleNext(s2);
    HandleKeepsInv(s2, s3);
    if OrphanFree(s) {
      DeliverKeepsOrphanFree(s1, map[], map[], s2);
      HandleKeepsOrphanFree(s2, s3);
    }
  }

  lemma RequestKeepsOrphanFree'(s: System, c: Choice, s1: System)
    requires Ready(s) && Step(s, Request(c), s1)
    ensures s1.remote == s.remote
    ensures OrphanFree(s) ==> OrphanFree(s1)
  {
    RequestKeepsRows(s, c, s1);
  }

  /** What a round does to the database. */
  lemma RoundDb(s: System, c: Choice)
    requires Ready(s) && ValidChoice(s.db, c)
    ensures s.known.None? ==> RoundNext(s, c).db == s.db
    ensures s.known.Some? ==>
              RoundNext(s, c).db == Acknowledged(Prepared(s, c), map[], map[], RoundNext(s, c).db.updateId)
  {
    var s1 := RequestNext(s, c);
    RequestKeepsInv(s, c, s1);
    if s.known.Some? {
      assert s1.db == Prepared(s, c);
      SentRoundDb(s1);
    }
  }

  lemma SentRoundDb(s1: System)
    requires Inv(s1) && s1.phase.Sent? && s1.known.Some? && s1.remote.Server?
    ensures HandleNext(DeliverNext(s1, map[], map[])).db == Acknowledged(s1.db, map[], map[], s1.phase.m.newId)
  {
  }

  // ---------- the measure

  lemma AckWork(db: Db, id: UpdateId)
    ensures DirtyWares(Acknowledged(db, map[], map[], id).wares) == DirtyWares(db.wares)
    ensures DirtySchemes(Acknowledged(db, map[], map[], id)) == DirtySchemes(db)
    ensures UpdatingWares(Acknowledged(db, map[], map[], id)) == {}
    ensures UpdatingSchemes(Acknowledged(db, map[], map[], id)) == {}
  {
  }

  lemma AckKeepsStuck(db: Db, id: UpdateId)
    ensures Stuck(Acknowledged(db, map[], map[], id)) <==> Stuck(db)
  {
    var db' := Acknowledged(db, map[], map[], id);
    if w :| w in db.wares && db.wares[w].deleted && db.wares[w].problem.Some? {
      assert w in db'.wares && db'.wares[w].deleted && db'.wares[w].problem.Some?;
    }
  }

  lemma MarkKeepsStuck(db: Db, db': Db)
    requires FlagsMoved(db, db')
    ensures Stuck(db') <==> Stuck(db)
  {
  }

  lemma ProperSubsetSize<K>(a: set<K>, b: set<K>, x: K)
    requires a <= b && x in b && x !in a
    ensures |a| < |b|
  {
    SubsetSize(a, b - {x});
  }

  /** Marking takes the dirty flag off what it marks and puts it on nothing. */
  lemma MarkedDirt(db: Db, c: Choice)
    requires !AnyUpdating(db) && ValidChoice(db, c)
    ensures DirtyWares(Marked(db, c).wares) <= DirtyWares(db.wares)
    ensures DirtySchemes(Marked(db, c)) <= DirtySchemes(db)
  {
  }

  lemma DeletedIsDirty(db: Db, w: WareId)
    requires !AnyUpdating(db) && DbInv(db) && !Stuck(db) && w in db.wares && db.wares[w].deleted
    ensures db.wares[w].dirty
  {
    assert !Clean(WareView(db)[w]);
  }

  lemma MarkedWasDirty(db: Db, c: Choice)
    requires !AnyUpdating(db) && ValidChoice(db, c) && DbInv(db) && !Stuck(db)
    ensures forall w :: w in UpdatingWares(Marked(db, c)) ==>
              w in DirtyWares(db.wares) && w !in DirtyWares(Marked(db, c).wares)
    ensures forall r :: r in UpdatingSchemes(Marked(db, c)) ==>
              r in DirtySchemes(db) && r !in DirtySchemes(Marked(db, c))
  {
    forall w | w in UpdatingWares(Marked(db, c))
      ensures w in DirtyWares(db.wares) && w !in DirtyWares(Marked(db, c).wares)
    {
      MarkedWareIsChosen(db, c, w);
      if w in c.deletedWares {
        DeletedIsDirty(db, w);
      } else {
        assert w in DirtyWares(MarkWares(db.wares, c.deletedWares));
      }
    }
    forall r | r in UpdatingSchemes(Marked(db, c))
      ensures r in DirtySchemes(db) && r !in DirtySchemes(Marked(db, c))
    {
      MarkedSchemeIsChosen(db, c, r);
      assert r in SchemeCandidates(db);
    }
  }

  /** A fresh round lowers the measure whenever there is anything to send. */
  lemma FreshWork(db: Db, c: Choice)
    requires !AnyUpdating(db) && ValidChoice(db, c) && DbInv(db) && !Stuck(db) && !NothingToSend(db)
    ensures 2 * |DirtyWares(Marked(db, c).wares)| + 2 * |DirtySchemes(Marked(db, c))| < Work(db)
  {
    var db' := Marked(db, c);
    MarkedDirt(db, c);
    MarkedWasDirty(db, c);
    FreshBatchNonEmpty(db, c);
    SubsetSize(DirtyWares(db'.wares), DirtyWares(db.wares));
    SubsetSize(DirtySchemes(db'), DirtySchemes(db));
    if w :| w in db'.wares && db'.wares[w].updating {
      assert w in UpdatingWares(db');
      ProperSubsetSize(DirtyWares(db'.wares), DirtyWares(db.wares), w);
    } else {
      var r :| r in db'.schemes && db'.schemes[r].updating;
      assert r in UpdatingSchemes(db');
      ProperSubsetSize(DirtySchemes(db'), DirtySchemes(db), r);
    }
  }

  /** Each round strictly lowers the rank until everything is done. */
  lemma RoundLowersRank(s: System, c: Choice)
    requires Ready(s) && ValidChoice(s.db, c) && !Stuck(s.db)
    requires s.known.None? || !Done(s.db)
    ensures Rank(RoundNext(s, c)) < Rank(s)
  {
    RoundDb(s, c);
    RoundSteps(s, c);
    if s.known.Some? {
      var db := Prepared(s, c);
      var id := RoundNext(s, c).db.updateId;
      AckWork(db, id);
      if AnyUpdating(s.db) {
        UpdatingCounts(s.db);
      } else {
        FreshWork(s.db, c);
      }
    }
  }

  lemma UpdatingCounts(db: Db)
    requires AnyUpdating(db)
    ensures |UpdatingWares(db)| + |UpdatingSchemes(db)| > 0
  {
    if w :| w in db.wares && db.wares[w].updating {
      assert w in UpdatingWares(db);
    } else {
      var r :| r in db.schemes && db.schemes[r].updating;
      assert r in UpdatingSchemes(db);
    }
  }

  // ---------- what a round leaves alone

  lemma PreparedMoves(s: System, c: Choice)
    requires s.known.Some? && ValidChoice(s.db, c)
    ensures FlagsMoved(s.db, Prepared(s, c))
  {
    MarkMovesFlags(s.db, c);
  }

  lemma RoundKeepsStuck(s: System, c: Choice)
    requires Ready(s) && ValidChoice(s.db, c)
    ensures Stuck(RoundNext(s, c).db) <==> Stuck(s.db)
  {
    RoundDb(s, c);
    if s.known.Some? {
      var db := Prepared(s, c);
      var id := RoundNext(s, c).db.updateId;
      PreparedMoves(s, c);
      MarkKeepsStuck(s.db, db);
      AckKeepsStuck(db, id);
    }
  }

  lemma NoDirtIsDone(db: Db)
    requires DbInv(db) && !Stuck(db)
    requires DirtyWares(db.wares) == {} && DirtySchemes(db) == {}
    requires UpdatingWares(db) == {} && UpdatingSchemes(db) == {}
    ensures Done(db)
  {
    forall w | w in db.wares
      ensures !db.wares[w].dirty && !db.wares[w].updating && !db.wares[w].deleted
    {
      assert w !in DirtyWares(db.wares) && w !in UpdatingWares(db);
      assert Clean(WareView(db)[w]) ==> WareView(db)[w].entry.Some?;
    }
    forall r | r in db.schemes
      ensures !db.schemes[r].dirty && !db.schemes[r].updating
    {
      assert r !in DirtySchemes(db) && r !in UpdatingSchemes(db);
    }
  }

  lemma DoneHasNoWork(db: Db)
    requires Done(db)
    ensures Work(db) == 0
  {
  }

  lemma DoneStays(s: System, c: Choice)
    requires Ready(s) && ValidChoice(s.db, c) && s.known.Some? && Done(s.db) && !Stuck(s.db)
    ensures Done(RoundNext(s, c).db)
  {
    DoneHasNoWork(s.db);
    RoundDb(s, c);
    RoundSteps(s, c);
    RoundKeepsStuck(s, c);
    var db := Prepared(s, c);
    var id := RoundNext(s, c).db.updateId;
    AckWork(db, id);
    if db != s.db {
      MarkedDirt(s.db, c);
    }
    assert DirtyWares(db.wares) == {} && DirtySchemes(db) == {};
    NoDirtIsDone(RoundNext(s, c).db);
  }

  // ---------- any number of rounds

  function Rounds(s: System, cs: seq<Choice>): System
    decreases |cs|
  {
    if cs == [] then s else Rounds(RoundNext(s, cs[0]), cs[1..])
  }

  ghost predicate ValidChoices(s: System, cs: seq<Choice>)
    decreases |cs|
  {
    cs == [] || (ValidChoice(s.db, cs[0]) && ValidChoices(RoundNext(s, cs[0]), cs[1..]))
  }

  /** However many rounds there are to be, the queries have answers for all of them. */
  lemma {:induction false} SomeChoices(s: System, n: nat) returns (cs: seq<Choice>)
    ensures |cs| == n && ValidChoices(s, cs)
    decreases n
  {
    cs := [];
    if n > 0 {
      var c := SomeChoice(s.db);
      var more := SomeChoices(RoundNext(s, c), n - 1);
      cs := [c] + more;
    }
  }

  lemma {:induction false} RoundsKeep(s: System, cs: seq<Choice>)
    requires Ready(s) && ValidChoices(s, cs)
    ensures Ready(Rounds(s, cs))
    ensures Stuck(Rounds(s, cs).db) <==> Stuck(s.db)
    ensures OrphanFree(s) ==> OrphanFree(Rounds(s, cs))
    decreases |cs|
  {
    if cs != [] {
      RoundSteps(s, cs[0]);
      RoundKeepsStuck(s, cs[0]);
      RoundsKeep(RoundNext(s, cs[0]), cs[1..]);
    }
  }

  lemma {:induction false} RoundsFinish(s: System, cs: seq<Choice>)
    requires Ready(s) && ValidChoices(s, cs) && !Stuck(s.db) && |cs| >= Rank(s)
    ensures Done(Rounds(s, cs).db) && Rounds(s, cs).known.Some?
    decreases |cs|
  {
    if cs == [] {
      NoWorkIsDone(s.db);
    } else {
      var s' := RoundNext(s, cs[0]);
      RoundSteps(s, cs[0]);
      RoundKeepsStuck(s, cs[0]);
      if s.known.Some? && Done(s.db) {
        DoneStays(s, cs[0]);
        DoneHasNoWork(s'.db);
      } else {
        RoundLowersRank(s, cs[0]);
      }
      RoundsFinish(s', cs[1..]);
    }
  }

  lemma NoWorkIsDone(db: Db)
    requires DbInv(db) && !Stuck(db) && Work(db) == 0
    ensures Done(db)
  {
    NoDirtIsDone(db);
  }

  /**
   From any state of any run in which the updater is idle and the server alive: after as many
   undisturbed rounds as the rank says, whatever rows the LIMIT queries choose, the next update is
   a heartbeat, if and only if no deleted ware had a recorded problem.
   */
  lemma ConvergesIff(run: Run, cs: seq<Choice>)
    requires IsRun(run) && run.s.phase.Idle? && run.s.db.registered && run.s.remote.Server?
    requires ValidChoices(run.s, cs) && |cs| >= Rank(run.s)
    ensures Done(Rounds(run.s, cs).db) <==> !Stuck(run.s.db)
  {
    RunKeepsInv(run);
    RoundsKeep(run.s, cs);
    if !Stuck(run.s.db) {
      RoundsFinish(run.s, cs);
    }
  }

  // ---------- what a stuck removal holds up

  /** A deleted ware with a recorded problem, and an edit of its scheme that waits to be sent. */
  ghost predicate Blocked(db: Db, w: WareId, r: SchemeId) {
    && w in db.wares && db.wares[w].deleted && db.wares[w].problem.Some? && db.wares[w].scheme == r
    && r in db.schemes && db.schemes[r].dirty && !db.schemes[r].updating
  }

  /** A live ware under that scheme, which waits for it. */
  predicate WaitsFor(db: Db, v: WareId, r: SchemeId) {
    v in db.wares && !db.wares[v].deleted && db.wares[v].scheme == r && db.wares[v].dirty && !db.wares[v].updating
  }

  lemma MarkKeepsBlocked(db: Db, c: Choice, w: WareId, r: SchemeId)
    requires Blocked(db, w, r) && ValidChoice(db, c)
    ensures Blocked(MarkNext(db, c), w, r) && MarkNext(db, c).schemes[r] == db.schemes[r]
  {
    if !AnyUpdating(db) {
      assert NamedByDeletedWare(db.wares, r);
      assert r !in SchemeCandidates(db);
      MarkedWare(db, c, w);
    }
  }

  lemma MarkKeepsWaiting(db: Db, c: Choice, w: WareId, r: SchemeId, v: WareId)
    requires Blocked(db, w, r) && ValidChoice(db, c) && WaitsFor(db, v, r)
    ensures WaitsFor(MarkNext(db, c), v, r) && MarkNext(db, c).wares[v] == db.wares[v]
  {
    MarkKeepsBlocked(db, c, w, r);
    assert v !in DeletedWares(db.wares);
  }

  lemma AckKeepsBlocked(db: Db, id: UpdateId, w: WareId, r: SchemeId)
    requires Blocked(db, w, r)
    ensures Blocked(Acknowledged(db, map[], map[], id), w, r)
    ensures Acknowledged(db, map[], map[], id).schemes[r] == db.schemes[r]
    ensures forall v :: WaitsFor(db, v, r) ==> WaitsFor(Acknowledged(db, map[], map[], id), v, r)
  {
  }

  /** What a round does to the remote end. */
  lemma RoundRemote(s: System, c: Choice)
    requires Ready(s) && ValidChoice(s.db, c)
    ensures RoundNext(s, c).remote.Server?
    ensures s.known.None? ==> RoundNext(s, c).remote == s.remote
    ensures s.known.Some? ==>
              var db := Prepared(s, c);
              && RoundNext(s, c).remote.listings == Applied(s.remote.listings, PendingBatch(WareView(db)), {})
              && RoundNext(s, c).remote.schemes == Applied(s.remote.schemes, PendingBatch(SchemeView(db)), {})
  {
    var s1 := RequestNext(s, c);
    RequestKeepsInv(s, c, s1);
    if s.known.Some? {
      SentRoundRemote(s1);
      assert s1.phase.m.wares == PendingBatch(WareView(Prepared(s, c)));
    } else {
      HeartbeatChangesNothing<WareId, Listing>(s.remote.listings, map[]);
      HeartbeatChangesNothing<SchemeId, string>(s.remote.schemes, map[]);
    }
  }

  lemma SentRoundRemote(s1: System)
    requires Inv(s1) && s1.phase.Sent? && s1.known.Some? && s1.remote.Server?
    ensures var remote := HandleNext(DeliverNext(s1, map[], map[])).remote;
      && remote.Server?
      && remote.listings == Applied(s1.remote.listings, s1.phase.m.wares, {})
      && remote.schemes == Applied(s1.remote.schemes, s1.phase.m.schemes, {})
  {
    var none: map<nat, string> := map[];
    assert none.Keys == {};
  }

  /** What the remote end holds for an item. */
  function HeldFor<K, C>(remote: map<K, C>, k: K): Option<C> {
    if k in remote then Some(remote[k]) else None
  }

  lemma UnsentStays<K, C>(t: Table<K, C>, remote: map<K, C>, k: K)
    requires k in t && t[k].dirty
    ensures HeldFor(Applied(remote, PendingBatch(t), {}), k) == HeldFor(remote, k)
  {
  }

  /** Nothing of this moves in a round, and the remote end keeps what it had. */
  ghost predicate HeldUp(s: System, s': System, w: WareId, r: SchemeId)
    requires s.remote.Server? && s'.remote.Server? && Blocked(s.db, w, r)
  {
    && Blocked(s'.db, w, r) && s'.db.schemes[r] == s.db.schemes[r]
    && HeldFor(s'.remote.schemes, r) == HeldFor(s.remote.schemes, r)
    && forall v :: WaitsFor(s.db, v, r) ==>
         WaitsFor(s'.db, v, r) && HeldFor(s'.remote.listings, v) == HeldFor(s.remote.listings, v)
  }

  lemma PreparedHeldUp(s: System, c: Choice, w: WareId, r: SchemeId)
    requires s.known.Some? && ValidChoice(s.db, c) && Blocked(s.db, w, r)
    ensures var db := Prepared(s, c);
      && Blocked(db, w, r) && db.schemes[r] == s.db.schemes[r]
      && forall v :: WaitsFor(s.db, v, r) ==> WaitsFor(db, v, r)
  {
    MarkKeepsBlocked(s.db, c, w, r);
    forall v | WaitsFor(s.db, v, r)
      ensures WaitsFor(Prepared(s, c), v, r)
    {
      MarkKeepsWaiting(s.db, c, w, r, v);
    }
  }

  lemma RoundHeldUp(s: System, c: Choice, w: WareId, r: SchemeId)
    requires Ready(s) && ValidChoice(s.db, c) && Blocked(s.db, w, r)
    ensures RoundNext(s, c).remote.Server? && HeldUp(s, RoundNext(s, c), w, r)
  {
    RoundDb(s, c);
    RoundRemote(s, c);
    if s.known.Some? {
      var db := Prepared(s, c);
      PreparedHeldUp(s, c, w, r);
      AckKeepsBlocked(db, RoundNext(s, c).db.updateId, w, r);
      UnsentStays(SchemeView(db), s.remote.schemes, r);
      forall v | WaitsFor(s.db, v, r)
        ensures HeldFor(RoundNext(s, c).remote.listings, v) == HeldFor(s.remote.listings, v)
      {
        UnsentStays(WareView(db), s.remote.listings, v);
      }
    }
  }

  /**
   A deleted ware with a recorded problem holds up every later edit of its scheme and every live
   ware that waits for that scheme: no number of undisturbed rounds sends them.
   */
  lemma {:induction false} StuckHoldsUp(s: System, cs: seq<Choice>, w: WareId, r: SchemeId)
    requires Ready(s) && ValidChoices(s, cs) && Blocked(s.db, w, r)
    ensures Rounds(s, cs).remote.Server? && HeldUp(s, Rounds(s, cs), w, r)
    decreases |cs|
  {
    if cs != [] {
      RoundSteps(s, cs[0]);
      RoundHeldUp(s, cs[0], w, r);
      StuckHoldsUp(RoundNext(s, cs[0]), cs[1..], w, r);
    }
  }
}
