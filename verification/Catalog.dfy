/**
 The catalogue database as a value: ware rows, payee-scheme rows, the media library's files,
 the stored update ID and whether a server ID is held. Each function below is one committed
 transaction of the catalogue.

 A ware row is keyed by its ware ID, which names the file it sells; ware IDs are unique per
 row and media library IDs are never reused.
 */
module Catalog {
  import opened Wrappers
  import opened Tables
  import SchemeIds

  type WareId = nat
  type SchemeId = nat

  const MAX_WARE_UPDATES: nat := 100
  const MAX_PAYEE_UPDATES: nat := 100

  /** Update IDs are 32-bit unsigned integers. */
  type UpdateId = n: nat | n < 0x1_0000_0000

  function Successor(u: UpdateId): UpdateId {
    (u + 1) % 0x1_0000_0000
  }

  datatype WareRow = WareRow(scheme: SchemeId, dirty: bool, updating: bool, deleted: bool, problem: Option<string>)

  datatype SchemeRow = SchemeRow(body: string, dirty: bool, updating: bool, deleted: bool, problem: Option<string>)

  datatype Db = Db(wares: map<WareId, WareRow>, schemes: map<SchemeId, SchemeRow>,
                   files: map<WareId, string>, updateId: UpdateId, registered: bool)

  // ---------- what the remote end should hold

  /** A seller listing: the file information and the payee scheme to use with it. */
  datatype Listing = Listing(file: string, scheme: SchemeId)

  function FileOf(files: map<WareId, string>, w: WareId): string {
    if w in files then files[w] else ""
  }

  function WareAsRow(r: WareRow, file: string): Row<Listing> {
    Row(if r.deleted then None else Some(Listing(file, r.scheme)), r.dirty, r.updating, r.problem)
  }

  function SchemeAsRow(r: SchemeRow): Row<string> {
    Row(if r.deleted then None else Some(r.body), r.dirty, r.updating, r.problem)
  }

  function WareView(db: Db): Table<WareId, Listing> {
    map w | w in db.wares :: WareAsRow(db.wares[w], FileOf(db.files, w))
  }

  function SchemeView(db: Db): Table<SchemeId, string> {
    map s | s in db.schemes :: SchemeAsRow(db.schemes[s])
  }

  // ---------- what every reachable database satisfies

  /** Every ware row names a scheme row; a live ware names a live scheme and has its file. */
  ghost predicate ReferencesOk(db: Db) {
    forall w :: w in db.wares ==>
      && db.wares[w].scheme in db.schemes
      && (!db.wares[w].deleted ==> !db.schemes[db.wares[w].scheme].deleted && w in db.files)
  }

  predicate RemovalPending(r: SchemeRow) {
    r.deleted && r.updating && !r.dirty
  }

  /** A scheme that the next acknowledgement may purge is named by no ware row, live or deleted. */
  ghost predicate RemovalsUnnamed(db: Db) {
    forall w :: w in db.wares && db.wares[w].scheme in db.schemes ==> !RemovalPending(db.schemes[db.wares[w].scheme])
  }

  ghost predicate DbInv(db: Db) {
    && ReferencesOk(db)
    && RemovalsUnnamed(db)
    && NoCleanDeleted(WareView(db))
    && NoCleanDeleted(SchemeView(db))
  }

  // ---------- local edits and triggers

  datatype Edit =
    | UpdateWare(w: WareId, scheme: SchemeId)
    | UpdateWareNewScheme(w: WareId, body: string)
    | RemoveWare(w: WareId)
    | AddScheme(body: string)
    | UpdateScheme(s: SchemeId, body: string)
    | RemoveScheme(s: SchemeId)
    | FileAdded(w: WareId, info: string)
    | FileUpdated(w: WareId, info: string)
    | FileDeleted(w: WareId)

  predicate SchemeValid(db: Db, s: SchemeId) {
    s in db.schemes && !db.schemes[s].deleted
  }

  predicate SchemeInUse(db: Db, s: SchemeId) {
    exists w :: w in db.wares && db.wares[w].scheme == s && !db.wares[w].deleted
  }

  function WithWare(db: Db, w: WareId, s: SchemeId): Db {
    var row := if w in db.wares then db.wares[w].(scheme := s, problem := None, dirty := true, deleted := false)
               else WareRow(s, true, false, false, None);
    db.(wares := db.wares[w := row])
  }

  ghost function WithNewScheme(db: Db, body: string): Db {
    db.(schemes := db.schemes[SchemeIds.LeastFree(db.schemes.Keys) := SchemeRow(body, true, false, false, None)])
  }

  /** The database after an edit, or None when its transaction is rolled back. */
  ghost function Apply(db: Db, e: Edit): Option<Db> {
    match e
    case UpdateWare(w, s) =>
      if SchemeValid(db, s) && w in db.files then Some(WithWare(db, w, s)) else None
    case UpdateWareNewScheme(w, body) =>
      if w in db.files
      then Some(WithWare(WithNewScheme(db, body), w, SchemeIds.LeastFree(db.schemes.Keys)))
      else None
    case RemoveWare(w) =>
      if w in db.wares && !db.wares[w].deleted
      then Some(db.(wares := db.wares[w := db.wares[w].(problem := None, dirty := true, deleted := true)]))
      else None
    case AddScheme(body) =>
      Some(WithNewScheme(db, body))
    case UpdateScheme(s, body) =>
      if SchemeValid(db, s)
      then Some(db.(schemes := db.schemes[s := db.schemes[s].(body := body, problem := None, dirty := true)]))
      else None
    case RemoveScheme(s) =>
      if SchemeInUse(db, s) then None
      else if s in db.schemes
      then Some(db.(schemes := db.schemes[s := db.schemes[s].(problem := None, dirty := true, deleted := true)]))
      else Some(db)
    case FileAdded(w, info) =>
      if w !in db.files && w !in db.wares then Some(db.(files := db.files[w := info])) else None
    case FileUpdated(w, info) =>
      if w !in db.files then None
      else if w in db.wares && !db.wares[w].deleted
      then Some(db.(files := db.files[w := info],
                    wares := db.wares[w := db.wares[w].(problem := None, dirty := true)]))
      else Some(db.(files := db.files[w := info]))
    case FileDeleted(w) =>
      if w !in db.files then None
      else if w in db.wares
      then Some(db.(files := db.files - {w},
                    wares := db.wares[w := db.wares[w].(problem := None, dirty := true, deleted := true)]))
      else Some(db.(files := db.files - {w}))
  }

  ghost function WaresTouched(db: Db, e: Edit): set<WareId> {
    match e
    case UpdateWare(w, _) => {w}
    case UpdateWareNewScheme(w, _) => {w}
    case RemoveWare(w) => {w}
    case FileUpdated(w, _) => if w in db.wares && !db.wares[w].deleted then {w} else {}
    case FileDeleted(w) => if w in db.wares then {w} else {}
    case _ => {}
  }

  ghost function SchemesTouched(db: Db, e: Edit): set<SchemeId> {
    match e
    case UpdateWareNewScheme(_, _) => {SchemeIds.LeastFree(db.schemes.Keys)}
    case AddScheme(_) => {SchemeIds.LeastFree(db.schemes.Keys)}
    case UpdateScheme(s, _) => {s}
    case RemoveScheme(s) => if s in db.schemes then {s} else {}
    case _ => {}
  }

  lemma WareWritten(db: Db, db': Db, w: WareId, r: WareRow)
    requires db'.wares == db.wares[w := r] && r.dirty
    requires r.updating <==> w in db.wares && db.wares[w].updating
    requires forall v :: v != w ==> FileOf(db'.files, v) == FileOf(db.files, v)
    ensures Edited(WareView(db), WareView(db'), {w})
  {
  }

  lemma WaresAsBefore(db: Db, db': Db)
    requires db'.wares == db.wares
    requires forall w :: w in db.wares && !db.wares[w].deleted ==> FileOf(db'.files, w) == FileOf(db.files, w)
    ensures Edited(WareView(db), WareView(db'), {})
  {
  }

  lemma SchemeWritten(db: Db, db': Db, s: SchemeId, r: SchemeRow)
    requires db'.schemes == db.schemes[s := r] && r.dirty
    requires r.updating <==> s in db.schemes && db.schemes[s].updating
    ensures Edited(SchemeView(db), SchemeView(db'), {s})
  {
  }

  lemma SchemesAsBefore(db: Db, db': Db)
    requires db'.schemes == db.schemes
    ensures Edited(SchemeView(db), SchemeView(db'), {})
  {
  }

  /** Every edit sets dirty on the wares it touches and leaves every updating flag as it is. */
  lemma EditsOnlyDirtyWares(db: Db, e: Edit)
    requires Apply(db, e).Some?
    ensures Edited(WareView(db), WareView(Apply(db, e).value), WaresTouched(db, e))
  {
    var db' := Apply(db, e).value;
    var touched := WaresTouched(db, e);
    if touched == {} {
      WaresAsBefore(db, db');
    } else {
      var w := e.w;
      WareWritten(db, db', w, db'.wares[w]);
    }
  }

  /** The same for the schemes. */
  lemma EditsOnlyDirtySchemes(db: Db, e: Edit)
    requires Apply(db, e).Some?
    ensures Edited(SchemeView(db), SchemeView(Apply(db, e).value), SchemesTouched(db, e))
  {
    var db' := Apply(db, e).value;
    var touched := SchemesTouched(db, e);
    if touched == {} {
      SchemesAsBefore(db, db');
    } else {
      var s :| s in touched;
      assert touched == {s};
      SchemeWritten(db, db', s, db'.schemes[s]);
    }
  }

  lemma WareUnderValidScheme(db: Db, w: WareId, s: SchemeId)
    requires ReferencesOk(db) && RemovalsUnnamed(db) && SchemeValid(db, s) && w in db.files
    ensures ReferencesOk(WithWare(db, w, s)) && RemovalsUnnamed(WithWare(db, w, s))
  {
  }

  lemma NewSchemeIsUnnamed(db: Db, body: string)
    requires ReferencesOk(db) && RemovalsUnnamed(db)
    ensures ReferencesOk(WithNewScheme(db, body)) && RemovalsUnnamed(WithNewScheme(db, body))
    ensures SchemeValid(WithNewScheme(db, body), SchemeIds.LeastFree(db.schemes.Keys))
  {
  }

  lemma EditKeepsReferences(db: Db, e: Edit)
    requires ReferencesOk(db) && RemovalsUnnamed(db) && Apply(db, e).Some?
    ensures ReferencesOk(Apply(db, e).value) && RemovalsUnnamed(Apply(db, e).value)
  {
    match e
    case UpdateWare(w, s) => WareUnderValidScheme(db, w, s);
    case UpdateWareNewScheme(w, body) =>
      NewSchemeIsUnnamed(db, body);
      WareUnderValidScheme(WithNewScheme(db, body), w, SchemeIds.LeastFree(db.schemes.Keys));
    case AddScheme(body) => NewSchemeIsUnnamed(db, body);
    case RemoveScheme(s) => assert forall w :: w in db.wares && db.wares[w].scheme == s ==> db.wares[w].deleted;
    case _ =>
  }

  /** Every edit keeps the references, also when it removes a scheme or a file. */
  lemma EditKeepsDbInv(db: Db, e: Edit)
    requires DbInv(db) && Apply(db, e).Some?
    ensures DbInv(Apply(db, e).value)
  {
    EditsOnlyDirtyWares(db, e);
    EditsOnlyDirtySchemes(db, e);
    EditKeepsReferences(db, e);
    var db' := Apply(db, e).value;
    EditedKeeps(WareView(db), WareView(db'), WaresTouched(db, e), map[]);
    EditedKeeps(SchemeView(db), SchemeView(db'), SchemesTouched(db, e), map[]);
  }

  // ---------- marking the next update

  /** What SELECT ... LIMIT n may return: up to n of the eligible rows, and fewer only if there are fewer. */
  ghost predicate Limited<K>(selected: set<K>, eligible: set<K>, n: nat) {
    selected <= eligible && |selected| <= n && (|selected| == n || selected == eligible)
  }

  predicate NamedByDeletedWare(wares: map<WareId, WareRow>, s: SchemeId) {
    exists w :: w in wares && wares[w].scheme == s && wares[w].deleted
  }

  function SchemeCandidates(db: Db): set<SchemeId> {
    set s | s in db.schemes && db.schemes[s].dirty && !NamedByDeletedWare(db.wares, s)
  }

  function DeletedWares(wares: map<WareId, WareRow>): set<WareId> {
    set w | w in wares && wares[w].deleted
  }

  function DirtyWares(wares: map<WareId, WareRow>): set<WareId> {
    set w | w in wares && wares[w].dirty
  }

  function MarkSchemes(schemes: map<SchemeId, SchemeRow>, sel: set<SchemeId>): map<SchemeId, SchemeRow> {
    map s | s in schemes :: if s in sel then schemes[s].(dirty := false, updating := true) else schemes[s]
  }

  function MarkWares(wares: map<WareId, WareRow>, sel: set<WareId>): map<WareId, WareRow> {
    map w | w in wares :: if w in sel then wares[w].(dirty := false, updating := true) else wares[w]
  }

  predicate Unsettled(schemes: map<SchemeId, SchemeRow>, s: SchemeId) {
    s in schemes && (schemes[s].updating || schemes[s].dirty)
  }

  /** Live wares whose scheme is still on its way wait for a later update. */
  function UnmarkWaiting(wares: map<WareId, WareRow>, schemes: map<SchemeId, SchemeRow>): map<WareId, WareRow> {
    map w | w in wares ::
      if !wares[w].deleted && wares[w].updating && Unsettled(schemes, wares[w].scheme)
      then wares[w].(dirty := true, updating := false) else wares[w]
  }

  predicate AnyUpdating(db: Db) {
    || (exists w :: w in db.wares && db.wares[w].updating)
    || (exists s :: s in db.schemes && db.schemes[s].updating)
  }

  /** The rows the three LIMIT queries return. */
  datatype Choice = Choice(schemes: set<SchemeId>, deletedWares: set<WareId>, dirtyWares: set<WareId>)

  ghost predicate ValidChoice(db: Db, c: Choice) {
    && Limited(c.schemes, SchemeCandidates(db), MAX_PAYEE_UPDATES)
    && Limited(c.deletedWares, DeletedWares(db.wares), MAX_WARE_UPDATES)
    && Limited(c.dirtyWares, DirtyWares(MarkWares(db.wares, c.deletedWares)), MAX_WARE_UPDATES - |c.deletedWares|)
  }

  lemma {:induction false} SomeSelection<K>(eligible: set<K>, n: nat) returns (selected: set<K>)
    ensures Limited(selected, eligible, n)
  {
    if n == 0 || eligible == {} {
      selected := {};
    } else {
      var k :| k in eligible;
      var rest := SomeSelection(eligible - {k}, n - 1);
      selected := rest + {k};
    }
  }

  /** The queries always have an answer. */
  lemma SomeChoice(db: Db) returns (c: Choice)
    ensures ValidChoice(db, c)
  {
    var schemes := SomeSelection(SchemeCandidates(db), MAX_PAYEE_UPDATES);
    var deleted := SomeSelection(DeletedWares(db.wares), MAX_WARE_UPDATES);
    var dirty := SomeSelection(DirtyWares(MarkWares(db.wares, deleted)), MAX_WARE_UPDATES - |deleted|);
    c := Choice(schemes, deleted, dirty);
  }

  function Marked(db: Db, c: Choice): Db {
    var schemes := MarkSchemes(db.schemes, c.schemes);
    var wares := MarkWares(db.wares, c.deletedWares);
    db.(schemes := schemes,
        wares := if |c.deletedWares| < MAX_WARE_UPDATES
                 then UnmarkWaiting(MarkWares(wares, c.dirtyWares), schemes) else wares)
  }

  /** An update that is already marked is used first; only otherwise are new rows marked. */
  function MarkNext(db: Db, c: Choice): Db {
    if AnyUpdating(db) then db else Marked(db, c)
  }

  /** What marking may do to a row: move its flags, and never from unclean to clean. */
  predicate WareFlagsMoved(r: WareRow, r': WareRow) {
    && r' == r.(dirty := r'.dirty, updating := r'.updating)
    && (r' == r || r'.dirty || r'.updating)
  }

  predicate SchemeFlagsMoved(r: SchemeRow, r': SchemeRow) {
    && r' == r.(dirty := r'.dirty, updating := r'.updating)
    && (r' == r || r'.dirty || r'.updating)
  }

  ghost predicate FlagsMoved(db: Db, db': Db) {
    && db' == db.(wares := db'.wares, schemes := db'.schemes)
    && db'.wares.Keys == db.wares.Keys
    && db'.schemes.Keys == db.schemes.Keys
    && (forall w :: w in db.wares ==> WareFlagsMoved(db.wares[w], db'.wares[w]))
    && (forall s :: s in db.schemes ==> SchemeFlagsMoved(db.schemes[s], db'.schemes[s]))
    && (forall s :: s in db.schemes && RemovalPending(db'.schemes[s]) ==>
          RemovalPending(db.schemes[s]) || !NamedByDeletedWare(db.wares, s))
  }

  lemma MarkedWare(db: Db, c: Choice, w: WareId)
    requires ValidChoice(db, c) && w in db.wares
    ensures w in Marked(db, c).wares
    ensures WareFlagsMoved(db.wares[w], Marked(db, c).wares[w])
  {
  }

  lemma MarkedScheme(db: Db, c: Choice, s: SchemeId)
    requires ValidChoice(db, c) && s in db.schemes
    ensures s in Marked(db, c).schemes
    ensures SchemeFlagsMoved(db.schemes[s], Marked(db, c).schemes[s])
    ensures Marked(db, c).schemes[s] == db.schemes[s] || !NamedByDeletedWare(db.wares, s)
  {
  }

  lemma MarkMovesFlags(db: Db, c: Choice)
    requires ValidChoice(db, c)
    ensures FlagsMoved(db, MarkNext(db, c))
  {
    if !AnyUpdating(db) {
      var db' := Marked(db, c);
      assert db'.wares.Keys == db.wares.Keys && db'.schemes.Keys == db.schemes.Keys;
      forall w | w in db.wares
        ensures WareFlagsMoved(db.wares[w], db'.wares[w])
      {
        MarkedWare(db, c, w);
      }
      forall s | s in db.schemes
        ensures SchemeFlagsMoved(db.schemes[s], db'.schemes[s])
        ensures RemovalPending(db'.schemes[s]) ==> RemovalPending(db.schemes[s]) || !NamedByDeletedWare(db.wares, s)
      {
        MarkedScheme(db, c, s);
      }
    }
  }

  lemma MarkIsRemarked(db: Db, db': Db)
    requires FlagsMoved(db, db')
    ensures Remarked(WareView(db), WareView(db'))
    ensures Remarked(SchemeView(db), SchemeView(db'))
  {
  }

  lemma MarkKeepsReferences(db: Db, db': Db)
    requires ReferencesOk(db) && RemovalsUnnamed(db) && FlagsMoved(db, db')
    ensures ReferencesOk(db') && RemovalsUnnamed(db')
  {
  }

  lemma MarkKeepsDbInv(db: Db, c: Choice)
    requires DbInv(db) && ValidChoice(db, c)
    ensures DbInv(MarkNext(db, c))
  {
    var db' := MarkNext(db, c);
    MarkMovesFlags(db, c);
    MarkIsRemarked(db, db');
    MarkKeepsReferences(db, db');
    RemarkedKeeps(WareView(db), WareView(db'), map[]);
    RemarkedKeeps(SchemeView(db), SchemeView(db'), map[]);
  }

  function UpdatingWares(db: Db): set<WareId> {
    set w | w in db.wares && db.wares[w].updating
  }

  function UpdatingSchemes(db: Db): set<SchemeId> {
    set s | s in db.schemes && db.schemes[s].updating
  }

  predicate NothingToSend(db: Db) {
    && (forall w :: w in db.wares ==> !db.wares[w].dirty && !db.wares[w].deleted)
    && (forall s :: s in db.schemes ==> !db.schemes[s].dirty)
  }

  lemma SubsetSize<K>(a: set<K>, b: set<K>)
    requires a <= b
    ensures |a| <= |b|
  {
    assert b == a + (b - a);
  }

  lemma MarkedWareIsChosen(db: Db, c: Choice, w: WareId)
    requires !AnyUpdating(db) && ValidChoice(db, c) && w in UpdatingWares(Marked(db, c))
    ensures w in c.deletedWares + c.dirtyWares && !Marked(db, c).wares[w].dirty
    ensures !db.wares[w].deleted ==> !Unsettled(Marked(db, c).schemes, db.wares[w].scheme)
  {
  }

  lemma MarkedSchemeIsChosen(db: Db, c: Choice, s: SchemeId)
    requires !AnyUpdating(db) && ValidChoice(db, c) && s in UpdatingSchemes(Marked(db, c))
    ensures s in c.schemes && !Marked(db, c).schemes[s].dirty
  {
  }

  lemma ChosenWaresBounded(db: Db, c: Choice)
    requires ValidChoice(db, c)
    ensures |c.deletedWares + c.dirtyWares| <= MAX_WARE_UPDATES
  {
  }

  /** A fresh batch is bounded, and a live ware travels only after its scheme has settled. */
  lemma FreshBatchBounded(db: Db, c: Choice)
    requires !AnyUpdating(db) && ValidChoice(db, c)
    ensures |UpdatingSchemes(Marked(db, c))| <= MAX_PAYEE_UPDATES
    ensures |UpdatingWares(Marked(db, c))| <= MAX_WARE_UPDATES
    ensures forall w :: w in UpdatingWares(Marked(db, c)) ==> !Marked(db, c).wares[w].dirty
    ensures forall w :: w in UpdatingWares(Marked(db, c)) && !db.wares[w].deleted ==>
              !Unsettled(Marked(db, c).schemes, db.wares[w].scheme)
    ensures forall s :: s in UpdatingSchemes(Marked(db, c)) ==> !Marked(db, c).schemes[s].dirty
  {
    var ws, ss := UpdatingWares(Marked(db, c)), UpdatingSchemes(Marked(db, c));
    forall w | w in ws
      ensures w in c.deletedWares + c.dirtyWares && !Marked(db, c).wares[w].dirty
      ensures !db.wares[w].deleted ==> !Unsettled(Marked(db, c).schemes, db.wares[w].scheme)
    {
      MarkedWareIsChosen(db, c, w);
    }
    forall s | s in ss
      ensures s in c.schemes && !Marked(db, c).schemes[s].dirty
    {
      MarkedSchemeIsChosen(db, c, s);
    }
    SubsetSize(ss, c.schemes);
    ChosenWaresBounded(db, c);
    SubsetSize(ws, c.deletedWares + c.dirtyWares);
  }

  /** What the three queries may return, in the words of the statements. */
  lemma ChoiceIs(db: Db, c: Choice)
    ensures ValidChoice(db, c) <==>
            && Limited(c.schemes, set s | s in db.schemes && db.schemes[s].dirty &&
                         forall w :: w in db.wares && db.wares[w].scheme == s ==> !db.wares[w].deleted, 100)
            && Limited(c.deletedWares, set w | w in db.wares && db.wares[w].deleted, 100)
            && Limited(c.dirtyWares, set w | w in db.wares && db.wares[w].dirty && w !in c.deletedWares,
                       100 - |c.deletedWares|)
  {
    assert SchemeCandidates(db) == set s | s in db.schemes && db.schemes[s].dirty &&
                                     forall w :: w in db.wares && db.wares[w].scheme == s ==> !db.wares[w].deleted;
    assert DirtyWares(MarkWares(db.wares, c.deletedWares)) ==
           set w | w in db.wares && db.wares[w].dirty && w !in c.deletedWares;
  }

  /** A scheme that keeps a live ware waiting. */
  predicate OnTheMove(schemes: map<SchemeId, SchemeRow>, r: SchemeId) {
    r in schemes && (schemes[r].dirty || schemes[r].updating)
  }

  /** A ware of a fresh batch: a chosen removal, or a chosen dirty ware with room for it that need not wait. */
  predicate InBatch(db: Db, c: Choice, w: WareId) {
    && w in db.wares
    && (|| w in c.deletedWares
        || (&& w in c.dirtyWares && |c.deletedWares| < 100
            && (db.wares[w].deleted || !OnTheMove(Marked(db, c).schemes, db.wares[w].scheme))))
  }

  lemma FreshSchemeIs(db: Db, c: Choice, r: SchemeId)
    requires ValidChoice(db, c) && r in db.schemes
    ensures r in Marked(db, c).schemes
    ensures Marked(db, c).schemes[r] ==
            if r in c.schemes then db.schemes[r].(dirty := false, updating := true) else db.schemes[r]
  {
  }

  lemma FreshWareIs(db: Db, c: Choice, w: WareId)
    requires !AnyUpdating(db) && ValidChoice(db, c) && w in db.wares
    ensures w in Marked(db, c).wares
    ensures Marked(db, c).wares[w] ==
            if InBatch(db, c, w) then db.wares[w].(dirty := false, updating := true) else db.wares[w]
  {
    assert !db.wares[w].updating;
    assert w in c.deletedWares ==> w in DeletedWares(db.wares);
    assert w in c.dirtyWares ==> w in DirtyWares(MarkWares(db.wares, c.deletedWares));
  }

  /** A fresh batch is exactly what was chosen, without the live wares that have to wait; no other row changes. */
  lemma FreshBatchIs(db: Db, c: Choice)
    requires !AnyUpdating(db) && ValidChoice(db, c)
    ensures var db' := Marked(db, c);
      && db'.wares.Keys == db.wares.Keys && db'.schemes.Keys == db.schemes.Keys
      && db'.files == db.files && db'.updateId == db.updateId && db'.registered == db.registered
      && UpdatingSchemes(db') == c.schemes
      && (forall w :: w in UpdatingWares(db') <==> InBatch(db, c, w))
      && (forall r :: r in db.schemes ==>
            db'.schemes[r] == if r in c.schemes then db.schemes[r].(dirty := false, updating := true)
                              else db.schemes[r])
      && (forall w :: w in db.wares ==>
            db'.wares[w] == if InBatch(db, c, w) then db.wares[w].(dirty := false, updating := true) else db.wares[w])
  {
    var db' := Marked(db, c);
    MarkMovesFlags(db, c);
    forall r | r in db.schemes
      ensures db'.schemes[r] == if r in c.schemes then db.schemes[r].(dirty := false, updating := true)
                                else db.schemes[r]
      ensures !db.schemes[r].updating
    {
      FreshSchemeIs(db, c, r);
    }
    forall w | w in db.wares
      ensures db'.wares[w] == if InBatch(db, c, w) then db.wares[w].(dirty := false, updating := true) else db.wares[w]
      ensures !db.wares[w].updating
    {
      FreshWareIs(db, c, w);
    }
    assert forall r :: r in c.schemes ==> r in SchemeCandidates(db);
    assert UpdatingSchemes(db') == c.schemes;
  }

  lemma DeletedIsMarked(db: Db, c: Choice, w: WareId)
    requires ValidChoice(db, c) && w in c.deletedWares
    ensures w in Marked(db, c).wares && Marked(db, c).wares[w].updating
  {
    assert w in DeletedWares(db.wares);
  }

  lemma SchemeIsMarked(db: Db, c: Choice, s: SchemeId)
    requires ValidChoice(db, c) && s in c.schemes
    ensures s in Marked(db, c).schemes && Marked(db, c).schemes[s].updating
  {
    assert s in SchemeCandidates(db);
  }

  /** With every scheme settled, no marked ware has to wait. */
  lemma DirtyIsMarked(db: Db, c: Choice, w: WareId)
    requires c.schemes == {} && |c.deletedWares| < MAX_WARE_UPDATES && w in c.dirtyWares && w in db.wares
    requires db.wares[w].scheme in db.schemes ==>
               !db.schemes[db.wares[w].scheme].dirty && !db.schemes[db.wares[w].scheme].updating
    ensures w in Marked(db, c).wares && Marked(db, c).wares[w].updating
  {
  }

  lemma NothingIsMarked(db: Db)
    requires !AnyUpdating(db)
    ensures !AnyUpdating(Marked(db, Choice({}, {}, {})))
  {
  }

  /** With no deleted ware, the schemes that may be marked are the dirty ones. */
  lemma DirtyIsCandidate(db: Db, s: SchemeId)
    requires DeletedWares(db.wares) == {} && s in db.schemes
    ensures s in SchemeCandidates(db) <==> db.schemes[s].dirty
  {
    assert forall w :: w in db.wares && db.wares[w].deleted ==> w in DeletedWares(db.wares);
  }

  /** The unmarking step never empties a batch: it is empty exactly when there is nothing to send. */
  lemma FreshBatchNonEmpty(db: Db, c: Choice)
    requires !AnyUpdating(db) && ValidChoice(db, c) && ReferencesOk(db)
    ensures AnyUpdating(Marked(db, c)) <==> !NothingToSend(db)
  {
    if DeletedWares(db.wares) != {} {
      var w :| w in c.deletedWares;
      DeletedIsMarked(db, c, w);
      assert db.wares[w].deleted;
    } else if SchemeCandidates(db) != {} {
      var s :| s in c.schemes;
      SchemeIsMarked(db, c, s);
      assert db.schemes[s].dirty;
    } else {
      NoCandidates(db, c);
    }
  }

  /** With no deleted ware and no markable scheme, every scheme is settled and no ware has to wait. */
  lemma NoCandidates(db: Db, c: Choice)
    requires !AnyUpdating(db) && ValidChoice(db, c) && ReferencesOk(db)
    requires DeletedWares(db.wares) == {} && SchemeCandidates(db) == {}
    ensures AnyUpdating(Marked(db, c)) <==> !NothingToSend(db)
  {
    assert MarkWares(db.wares, {}) == db.wares;
    forall s | s in db.schemes
      ensures !db.schemes[s].dirty
    {
      DirtyIsCandidate(db, s);
    }
    assert forall w :: w in db.wares && db.wares[w].deleted ==> w in DeletedWares(db.wares);
    if c.dirtyWares == {} {
      assert forall w :: w in db.wares && db.wares[w].dirty ==> w in DirtyWares(db.wares);
      assert c == Choice({}, {}, {});
      NothingIsMarked(db);
    } else {
      var w :| w in c.dirtyWares;
      assert w in DirtyWares(db.wares);
      DirtyIsMarked(db, c, w);
    }
  }

  // ---------- the acknowledgement and the reset

  function WareNoted(db: Db, w: WareId, fail: map<WareId, string>): WareRow
    requires w in db.wares
  {
    if w in fail && w in db.files && !db.wares[w].dirty
    then db.wares[w].(problem := Some(fail[w])) else db.wares[w]
  }

  function SchemeNoted(db: Db, s: SchemeId, fail: map<SchemeId, string>): SchemeRow
    requires s in db.schemes
  {
    if s in fail && !db.schemes[s].dirty
    then db.schemes[s].(problem := Some(fail[s])) else db.schemes[s]
  }

  predicate WareGoes(r: WareRow) {
    r.updating && r.deleted && !r.dirty && r.problem.None?
  }

  predicate SchemeGoes(r: SchemeRow) {
    r.updating && r.deleted && !r.dirty && r.problem.None?
  }

  function NoteWares(db: Db, fail: map<WareId, string>): map<WareId, WareRow> {
    map w | w in db.wares :: WareNoted(db, w, fail)
  }

  function NoteSchemes(db: Db, fail: map<SchemeId, string>): map<SchemeId, SchemeRow> {
    map s | s in db.schemes :: SchemeNoted(db, s, fail)
  }

  function PurgeWares(t: map<WareId, WareRow>): map<WareId, WareRow> {
    map w | w in t && !WareGoes(t[w]) :: t[w].(updating := false)
  }

  function PurgeSchemes(t: map<SchemeId, SchemeRow>): map<SchemeId, SchemeRow> {
    map s | s in t && !SchemeGoes(t[s]) :: t[s].(updating := false)
  }

  /** A processed response: failures recorded, removed rows purged, updating flags cleared, ID stored. */
  function Acknowledged(db: Db, failW: map<WareId, string>, failS: map<SchemeId, string>, id: UpdateId): Db {
    Db(PurgeWares(NoteWares(db, failW)), PurgeSchemes(NoteSchemes(db, failS)), db.files, id, db.registered)
  }

  lemma AcknowledgedViews(db: Db, failW: map<WareId, string>, failS: map<SchemeId, string>, id: UpdateId)
    ensures WareView(Acknowledged(db, failW, failS, id)) == Acked(WareView(db), failW, db.files.Keys)
    ensures SchemeView(Acknowledged(db, failW, failS, id)) == Acked(SchemeView(db), failS, db.schemes.Keys)
  {
    AcknowledgedWares(db, failW, failS, id);
    AcknowledgedSchemes(db, failW, failS, id);
  }

  lemma WareNotedAsRow(db: Db, w: WareId, fail: map<WareId, string>)
    requires w in db.wares
    ensures Noted(WareView(db), w, fail, db.files.Keys) == WareAsRow(WareNoted(db, w, fail), FileOf(db.files, w))
    ensures Purged(WareView(db), w, fail, db.files.Keys) <==> WareGoes(WareNoted(db, w, fail))
  {
  }

  lemma AcknowledgedWares(db: Db, failW: map<WareId, string>, failS: map<SchemeId, string>, id: UpdateId)
    ensures WareView(Acknowledged(db, failW, failS, id)) == Acked(WareView(db), failW, db.files.Keys)
  {
    var t1, t2 := WareView(Acknowledged(db, failW, failS, id)), Acked(WareView(db), failW, db.files.Keys);
    forall w
      ensures w in t1 <==> w in t2
      ensures w in t1 ==> t1[w] == t2[w]
    {
      if w in db.wares {
        WareNotedAsRow(db, w, failW);
      }
    }
  }

  lemma SchemeNotedAsRow(db: Db, s: SchemeId, fail: map<SchemeId, string>)
    requires s in db.schemes
    ensures Noted(SchemeView(db), s, fail, db.schemes.Keys) == SchemeAsRow(SchemeNoted(db, s, fail))
    ensures Purged(SchemeView(db), s, fail, db.schemes.Keys) <==> SchemeGoes(SchemeNoted(db, s, fail))
  {
  }

  lemma AcknowledgedSchemes(db: Db, failW: map<WareId, string>, failS: map<SchemeId, string>, id: UpdateId)
    ensures SchemeView(Acknowledged(db, failW, failS, id)) == Acked(SchemeView(db), failS, db.schemes.Keys)
  {
    var t1, t2 := SchemeView(Acknowledged(db, failW, failS, id)), Acked(SchemeView(db), failS, db.schemes.Keys);
    forall s
      ensures s in t1 <==> s in t2
      ensures s in t1 ==> t1[s] == t2[s]
    {
      if s in db.schemes {
        SchemeNotedAsRow(db, s, failS);
      }
    }
  }

  /** Purging schemes never leaves a ware without its scheme. */
  lemma AcknowledgedKeepsReferences(db: Db, failW: map<WareId, string>, failS: map<SchemeId, string>, id: UpdateId)
    requires ReferencesOk(db) && RemovalsUnnamed(db)
    ensures ReferencesOk(Acknowledged(db, failW, failS, id)) && RemovalsUnnamed(Acknowledged(db, failW, failS, id))
  {
    var db' := Acknowledged(db, failW, failS, id);
    forall w | w in db'.wares
      ensures db'.wares[w].scheme in db'.schemes && !RemovalPending(db'.schemes[db'.wares[w].scheme])
      ensures !db'.wares[w].deleted ==> !db'.schemes[db'.wares[w].scheme].deleted && w in db'.files
    {
      var s := db.wares[w].scheme;
      assert !SchemeGoes(SchemeNoted(db, s, failS));
    }
  }

  lemma AcknowledgedKeepsDbInv(db: Db, failW: map<WareId, string>, failS: map<SchemeId, string>, id: UpdateId)
    requires DbInv(db)
    ensures DbInv(Acknowledged(db, failW, failS, id))
  {
    AcknowledgedViews(db, failW, failS, id);
    AcknowledgedKeepsReferences(db, failW, failS, id);
    AckedKeepsNoCleanDeleted(WareView(db), failW, db.files.Keys);
    AckedKeepsNoCleanDeleted(SchemeView(db), failS, db.schemes.Keys);
  }

  function FlagWares(t: map<WareId, WareRow>, dirty: bool, updating: bool): map<WareId, WareRow> {
    map w | w in t :: t[w].(dirty := dirty, updating := updating)
  }

  function FlagSchemes(t: map<SchemeId, SchemeRow>, dirty: bool, updating: bool): map<SchemeId, SchemeRow> {
    map s | s in t :: t[s].(dirty := dirty, updating := updating)
  }

  /** Everything has to be sent again, to a server that is yet to be registered. */
  function Reset(db: Db): Db {
    Db(FlagWares(db.wares, true, false), FlagSchemes(db.schemes, true, false), db.files, 0, false)
  }

  ghost predicate AllDirty(db: Db) {
    && (forall w :: w in db.wares ==> db.wares[w].dirty && !db.wares[w].updating)
    && (forall s :: s in db.schemes ==> db.schemes[s].dirty && !db.schemes[s].updating)
  }

  lemma ResetEstablishes(db: Db)
    requires ReferencesOk(db)
    ensures DbInv(Reset(db)) && AllDirty(Reset(db))
  {
  }
}
