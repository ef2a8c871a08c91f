/**
 The catalogue database as the program keeps it: tables that SQL statements change in place,
 with problem texts in a table of their own. Every method is proved against the value model
 of module Catalog.
 */
module CatalogStore {
  import opened Wrappers
  import opened Tables
  import opened Catalog
  import SchemeIds

  datatype WareRec = WareRec(scheme: SchemeId, problemId: nat, dirty: bool, updating: bool, deleted: bool)

  datatype SchemeRec = SchemeRec(body: string, problemId: nat, dirty: bool, updating: bool, deleted: bool)

  // ---------- from records to rows

  /** What a problem_id column says: nothing for 0, otherwise the text it refers to. */
  function ProblemText(problems: map<nat, string>, id: nat): Option<string> {
    if id in problems then Some(problems[id]) else None
  }

  function WareOf(problems: map<nat, string>, r: WareRec): WareRow {
    WareRow(r.scheme, r.dirty, r.updating, r.deleted, ProblemText(problems, r.problemId))
  }

  function SchemeOf(problems: map<nat, string>, r: SchemeRec): SchemeRow {
    SchemeRow(r.body, r.dirty, r.updating, r.deleted, ProblemText(problems, r.problemId))
  }

  function WareRows(problems: map<nat, string>, t: map<WareId, WareRec>): map<WareId, WareRow> {
    map w | w in t :: WareOf(problems, t[w])
  }

  function SchemeRows(problems: map<nat, string>, t: map<SchemeId, SchemeRec>): map<SchemeId, SchemeRow> {
    map s | s in t :: SchemeOf(problems, t[s])
  }

  /** Every recorded problem exists, and no two problems have the same text. */
  ghost predicate ProblemsOk(problems: map<nat, string>, wares: map<WareId, WareRec>,
                             schemes: map<SchemeId, SchemeRec>)
  {
    && 0 !in problems
    && (forall w :: w in wares ==> wares[w].problemId == 0 || wares[w].problemId in problems)
    && (forall s :: s in schemes ==> schemes[s].problemId == 0 || schemes[s].problemId in problems)
    && (forall p, q :: p in problems && q in problems && problems[p] == problems[q] ==> p == q)
  }

  /** Failures in the order the response lists them; a later entry for the same item wins. */
  function FailureMap(failed: seq<(nat, string)>): map<nat, string> {
    if failed == [] then map[]
    else FailureMap(failed[..|failed| - 1])[failed[|failed| - 1].0 := failed[|failed| - 1].1]
  }

  /** The response lists the item. */
  predicate Listed(failed: seq<(nat, string)>, k: nat) {
    exists i :: 0 <= i < |failed| && failed[i].0 == k
  }

  /** The last entry for the item has this text. */
  predicate LastText(failed: seq<(nat, string)>, k: nat, text: string) {
    exists i :: 0 <= i < |failed| && failed[i] == (k, text) && forall j :: i < j < |failed| ==> failed[j].0 != k
  }

  /** The failures are all the items that are listed, each with the text of its last entry. */
  lemma {:induction false} FailuresAreListed(failed: seq<(nat, string)>, k: nat)
    ensures k in FailureMap(failed) <==> Listed(failed, k)
    ensures k in FailureMap(failed) ==> LastText(failed, k, FailureMap(failed)[k])
  {
    if failed != [] {
      var n := |failed| - 1;
      var before := failed[..n];
      FailuresAreListed(before, k);
      if failed[n].0 == k {
        assert failed[n] == (k, failed[n].1);
      } else if Listed(before, k) {
        var i :| 0 <= i < |before| && before[i] == (k, FailureMap(before)[k])
                 && forall j :: i < j < |before| ==> before[j].0 != k;
        assert failed[i] == before[i];
        forall j | i < j < |failed|
          ensures failed[j].0 != k
        {
          assert j < n ==> before[j].0 != k;
        }
      }
    }
  }

  /** SELECT ... LIMIT n: some of the eligible rows. */
  method SelectLimit<K(==)>(eligible: set<K>, n: nat) returns (selected: set<K>)
    ensures Limited(selected, eligible, n)
    ensures selected <= eligible && |selected| <= n && (|selected| == n || selected == eligible)
  {
    selected := {};
    var rest := eligible;
    while rest != {} && |selected| < n
      invariant selected + rest == eligible && selected !! rest
      invariant |selected| <= n
      decreases |rest|
    {
      var k :| k in rest;
      selected, rest := selected + {k}, rest - {k};
    }
  }

  /** The row ID an insert into the problems table gets: one above the highest. */
  method NextRowId(used: set<nat>) returns (id: nat)
    ensures id > 0 && forall u :: u in used ==> u < id
  {
    id := 1;
    var rest := used;
    while rest != {}
      invariant id > 0 && rest <= used
      invariant forall u :: u in used ==> u in rest || u < id
      decreases |rest|
    {
      var u :| u in rest;
      id := if u < id then id else u + 1;
      rest := rest - {u};
    }
  }

  lemma UnmarkMatches(problems: map<nat, string>, wares: map<WareId, WareRec>, schemes: map<SchemeId, SchemeRec>,
                      waiting: set<WareId>)
    requires waiting == set w | w in wares && !wares[w].deleted && wares[w].updating && wares[w].scheme in schemes
                          && (schemes[wares[w].scheme].updating || schemes[wares[w].scheme].dirty)
    ensures WareRows(problems, map w | w in wares ::
                       if w in waiting then wares[w].(dirty := true, updating := false) else wares[w])
            == UnmarkWaiting(WareRows(problems, wares), SchemeRows(problems, schemes))
  {
    var rows := SchemeRows(problems, schemes);
    forall w | w in wares
      ensures w in waiting <==> !wares[w].deleted && wares[w].updating && Unsettled(rows, wares[w].scheme)
    {
    }
  }

  /** Ware w is for sale under scheme s, to be sent and without problem; nothing else has changed. */
  predicate Offered(wares: map<WareId, WareRec>, w: WareId, s: SchemeId, wares': map<WareId, WareRec>) {
    && wares' - {w} == wares - {w}
    && w in wares' && wares'[w].scheme == s && wares'[w].problemId == 0 && wares'[w].dirty && !wares'[w].deleted
    && (wares'[w].updating <==> w in wares && wares[w].updating)
  }

  /** The rows before and after marking: nothing moves if a row is updating, and otherwise exactly the batch does. */
  ghost predicate RowsMarked(wares: map<WareId, WareRec>, schemes: map<SchemeId, SchemeRec>, c: Choice,
                             wares': map<WareId, WareRec>, schemes': map<SchemeId, SchemeRec>)
  {
    if (exists w :: w in wares && wares[w].updating) || (exists r :: r in schemes && schemes[r].updating)
    then wares' == wares && schemes' == schemes
    else
      && wares'.Keys == wares.Keys && schemes'.Keys == schemes.Keys
      && (forall r :: r in schemes ==>
            schemes'[r] == if r in c.schemes then schemes[r].(dirty := false, updating := true) else schemes[r])
      && (forall w :: w in wares ==>
            wares'[w] == if Marks(wares, c, schemes', w) then MarkedRec(wares[w]) else wares[w])
  }

  predicate Marks(wares: map<WareId, WareRec>, c: Choice, schemes': map<SchemeId, SchemeRec>, w: WareId)
    requires w in wares
  {
    var r := wares[w].scheme;
    || w in c.deletedWares
    || (&& w in c.dirtyWares && |c.deletedWares| < 100
        && (wares[w].deleted || !(r in schemes' && (schemes'[r].dirty || schemes'[r].updating))))
  }

  function MarkedRec(r: WareRec): WareRec {
    r.(dirty := false, updating := true)
  }

  function MarkRecs(wares: map<WareId, WareRec>, sel: set<WareId>): map<WareId, WareRec> {
    map w | w in wares :: if w in sel then MarkedRec(wares[w]) else wares[w]
  }

  predicate WaitsOn(r: WareRec, schemes: map<SchemeId, SchemeRec>) {
    !r.deleted && r.updating && r.scheme in schemes && (schemes[r.scheme].updating || schemes[r.scheme].dirty)
  }

  function UnmarkRecs(wares: map<WareId, WareRec>, schemes: map<SchemeId, SchemeRec>): map<WareId, WareRec> {
    map w | w in wares :: if WaitsOn(wares[w], schemes) then wares[w].(dirty := true, updating := false) else wares[w]
  }

  /** The three statements on ware rows together, row by row. */
  lemma StatementsMark(wares: map<WareId, WareRec>, schemes': map<SchemeId, SchemeRec>, c: Choice,
                       wares': map<WareId, WareRec>)
    requires forall w :: w in wares ==> !wares[w].updating
    requires forall w :: w in c.deletedWares ==> w in wares && wares[w].deleted
    requires forall w :: w in c.dirtyWares ==> w in wares && wares[w].dirty && w !in c.deletedWares
    requires wares' == if |c.deletedWares| < 100
                       then UnmarkRecs(MarkRecs(MarkRecs(wares, c.deletedWares), c.dirtyWares), schemes')
                       else MarkRecs(wares, c.deletedWares)
    ensures wares'.Keys == wares.Keys
    ensures forall w :: w in wares ==>
              wares'[w] == if Marks(wares, c, schemes', w) then MarkedRec(wares[w]) else wares[w]
  {
  }

  /** A ware whose failure the response may record: listed, with its file, and not edited since it was sent. */
  predicate TakesProblem(wares: map<WareId, WareRec>, files: map<WareId, string>, failed: seq<(WareId, string)>,
                         w: WareId)
  {
    w in wares && Listed(failed, w) && w in files && !wares[w].dirty
  }

  /** Every such ware has the text of its last entry; every other ware row says what it said before. */
  ghost predicate WaresRecorded(wares: map<WareId, WareRec>, problems: map<nat, string>, files: map<WareId, string>,
                                failed: seq<(WareId, string)>,
                                wares': map<WareId, WareRec>, problems': map<nat, string>)
  {
    && wares'.Keys == wares.Keys
    && forall w :: w in wares ==>
         && wares'[w] == wares[w].(problemId := wares'[w].problemId)
         && var text := ProblemText(problems', wares'[w].problemId);
            if TakesProblem(wares, files, failed, w) then text.Some? && LastText(failed, w, text.value)
            else text == ProblemText(problems, wares[w].problemId)
  }

  predicate SchemeTakesProblem(schemes: map<SchemeId, SchemeRec>, failed: seq<(SchemeId, string)>, s: SchemeId) {
    s in schemes && Listed(failed, s) && !schemes[s].dirty
  }

  ghost predicate SchemesRecorded(schemes: map<SchemeId, SchemeRec>, problems: map<nat, string>,
                                  failed: seq<(SchemeId, string)>,
                                  schemes': map<SchemeId, SchemeRec>, problems': map<nat, string>)
  {
    && schemes'.Keys == schemes.Keys
    && forall s :: s in schemes ==>
         && schemes'[s] == schemes[s].(problemId := schemes'[s].problemId)
         && var text := ProblemText(problems', schemes'[s].problemId);
            if SchemeTakesProblem(schemes, failed, s) then text.Some? && LastText(failed, s, text.value)
            else text == ProblemText(problems, schemes[s].problemId)
  }

  lemma WaresRecordedAs(wares: map<WareId, WareRec>, problems: map<nat, string>, files: map<WareId, string>,
                        failed: seq<(WareId, string)>,
                        wares': map<WareId, WareRec>, problems': map<nat, string>, db: Db)
    requires db.wares == WareRows(problems, wares) && db.files == files
    requires WareRows(problems', wares') == NoteWares(db, FailureMap(failed))
    ensures WaresRecorded(wares, problems, files, failed, wares', problems')
  {
    var rows := WareRows(problems', wares');
    assert wares'.Keys == rows.Keys == wares.Keys;
    forall w | w in wares
      ensures wares'[w] == wares[w].(problemId := wares'[w].problemId)
      ensures var text := ProblemText(problems', wares'[w].problemId);
              if TakesProblem(wares, files, failed, w) then text.Some? && LastText(failed, w, text.value)
              else text == ProblemText(problems, wares[w].problemId)
    {
      FailuresAreListed(failed, w);
      assert WareOf(problems', wares'[w]) == rows[w] == WareNoted(db, w, FailureMap(failed));
    }
  }

  lemma SchemesRecordedAs(schemes: map<SchemeId, SchemeRec>, problems: map<nat, string>,
                          failed: seq<(SchemeId, string)>,
                          schemes': map<SchemeId, SchemeRec>, problems': map<nat, string>, db: Db)
    requires db.schemes == SchemeRows(problems, schemes)
    requires SchemeRows(problems', schemes') == NoteSchemes(db, FailureMap(failed))
    ensures SchemesRecorded(schemes, problems, failed, schemes', problems')
  {
    var rows := SchemeRows(problems', schemes');
    assert schemes'.Keys == rows.Keys == schemes.Keys;
    forall s | s in schemes
      ensures schemes'[s] == schemes[s].(problemId := schemes'[s].problemId)
      ensures var text := ProblemText(problems', schemes'[s].problemId);
              if SchemeTakesProblem(schemes, failed, s) then text.Some? && LastText(failed, s, text.value)
              else text == ProblemText(problems, schemes[s].problemId)
    {
      FailuresAreListed(failed, s);
      assert SchemeOf(problems', schemes'[s]) == rows[s] == SchemeNoted(db, s, FailureMap(failed));
    }
  }

  /** What a response leaves of the ware table. */
  ghost predicate WaresAnswered(wares: map<WareId, WareRec>, problems: map<nat, string>, files: map<WareId, string>,
                                failed: seq<(WareId, string)>,
                                wares': map<WareId, WareRec>, problems': map<nat, string>)
  {
    && wares'.Keys <= wares.Keys
    && forall w :: w in wares ==>
         && (w !in wares' <==> wares[w].updating && wares[w].deleted && !wares[w].dirty
                               && ProblemText(problems, wares[w].problemId).None?
                               && !TakesProblem(wares, files, failed, w))
         && (w in wares' ==>
               && wares'[w] == wares[w].(updating := false, problemId := wares'[w].problemId)
               && var text := ProblemText(problems', wares'[w].problemId);
                  if TakesProblem(wares, files, failed, w) then text.Some? && LastText(failed, w, text.value)
                  else text == ProblemText(problems, wares[w].problemId))
  }

  ghost predicate SchemesAnswered(schemes: map<SchemeId, SchemeRec>, problems: map<nat, string>,
                                  failed: seq<(SchemeId, string)>,
                                  schemes': map<SchemeId, SchemeRec>, problems': map<nat, string>)
  {
    && schemes'.Keys <= schemes.Keys
    && forall s :: s in schemes ==>
         && (s !in schemes' <==> schemes[s].updating && schemes[s].deleted && !schemes[s].dirty
                                 && ProblemText(problems, schemes[s].problemId).None?
                                 && !SchemeTakesProblem(schemes, failed, s))
         && (s in schemes' ==>
               && schemes'[s] == schemes[s].(updating := false, problemId := schemes'[s].problemId)
               && var text := ProblemText(problems', schemes'[s].problemId);
                  if SchemeTakesProblem(schemes, failed, s) then text.Some? && LastText(failed, s, text.value)
                  else text == ProblemText(problems, schemes[s].problemId))
  }

  lemma WaresAnsweredAs(wares: map<WareId, WareRec>, problems: map<nat, string>, files: map<WareId, string>,
                        failed: seq<(WareId, string)>,
                        wares': map<WareId, WareRec>, problems': map<nat, string>, db: Db)
    requires db.wares == WareRows(problems, wares) && db.files == files
    requires WareRows(problems', wares') == PurgeWares(NoteWares(db, FailureMap(failed)))
    ensures WaresAnswered(wares, problems, files, failed, wares', problems')
  {
    var noted, rows := NoteWares(db, FailureMap(failed)), WareRows(problems', wares');
    assert wares'.Keys == rows.Keys;
    forall w | w in wares
      ensures w !in wares' <==> WareGoes(WareNoted(db, w, FailureMap(failed)))
      ensures w in wares' ==> WareOf(problems', wares'[w]) == WareNoted(db, w, FailureMap(failed)).(updating := false)
      ensures TakesProblem(wares, files, failed, w) ==>
                w in FailureMap(failed) && LastText(failed, w, FailureMap(failed)[w])
      ensures WareNoted(db, w, FailureMap(failed)) ==
              if TakesProblem(wares, files, failed, w)
              then WareOf(problems, wares[w]).(problem := Some(FailureMap(failed)[w])) else WareOf(problems, wares[w])
    {
      FailuresAreListed(failed, w);
      assert noted[w] == WareNoted(db, w, FailureMap(failed));
      assert w in wares' ==> rows[w] == WareOf(problems', wares'[w]);
    }
  }

  lemma SchemesAnsweredAs(schemes: map<SchemeId, SchemeRec>, problems: map<nat, string>,
                          failed: seq<(SchemeId, string)>,
                          schemes': map<SchemeId, SchemeRec>, problems': map<nat, string>, db: Db)
    requires db.schemes == SchemeRows(problems, schemes)
    requires SchemeRows(problems', schemes') == PurgeSchemes(NoteSchemes(db, FailureMap(failed)))
    ensures SchemesAnswered(schemes, problems, failed, schemes', problems')
  {
    var noted, rows := NoteSchemes(db, FailureMap(failed)), SchemeRows(problems', schemes');
    assert schemes'.Keys == rows.Keys;
    forall s | s in schemes
      ensures s !in schemes' <==> SchemeGoes(SchemeNoted(db, s, FailureMap(failed)))
      ensures s in schemes' ==>
                SchemeOf(problems', schemes'[s]) == SchemeNoted(db, s, FailureMap(failed)).(updating := false)
      ensures SchemeTakesProblem(schemes, failed, s) ==>
                s in FailureMap(failed) && LastText(failed, s, FailureMap(failed)[s])
      ensures SchemeNoted(db, s, FailureMap(failed)) ==
              if SchemeTakesProblem(schemes, failed, s)
              then SchemeOf(problems, schemes[s]).(problem := Some(FailureMap(failed)[s]))
              else SchemeOf(problems, schemes[s])
    {
      FailuresAreListed(failed, s);
      assert noted[s] == SchemeNoted(db, s, FailureMap(failed));
      assert s in schemes' ==> rows[s] == SchemeOf(problems', schemes'[s]);
    }
  }

  class CatalogDatabase {
    var wares: map<WareId, WareRec>
    var schemes: map<SchemeId, SchemeRec>
    var problems: map<nat, string>
    var files: map<WareId, string>
    var updateId: UpdateId
    var registered: bool

    ghost predicate Valid()
      reads this
    {
      ProblemsOk(problems, wares, schemes)
    }

    ghost function State(): Db
      reads this
    {
      Db(WareRows(problems, wares), SchemeRows(problems, schemes), files, updateId, registered)
    }

    constructor (files: map<WareId, string>)
      ensures Valid()
      ensures State() == Db(map[], map[], files, 0, false)
    {
      wares, schemes, problems := map[], map[], map[];
      this.files, updateId, registered := files, 0, false;
    }

    // ---------- local edits

    method IsPayeeSchemeIdValid(s: SchemeId) returns (ok: bool)
      ensures ok <==> SchemeValid(State(), s)
      ensures ok <==> s in schemes && !schemes[s].deleted
    {
      ok := s in schemes && !schemes[s].deleted;
    }

    /** Adds a scheme under the least free ID. */
    method AddPayeeScheme(body: string) returns (s: SchemeId)
      requires Valid()
      modifies this`schemes
      ensures Valid() && SchemeIds.IsLeastFree(old(schemes.Keys), s)
      ensures State() == WithNewScheme(old(State()), body)
      ensures schemes == old(schemes)[s := SchemeRec(body, 0, true, false, false)]
    {
      s := SchemeIds.SelectLowestAvailable(schemes.Keys);
      SchemeIds.LeastFreeUnique(schemes.Keys, s, SchemeIds.LeastFree(schemes.Keys));
      assert State().schemes.Keys == schemes.Keys;
      schemes := schemes[s := SchemeRec(body, 0, true, false, false)];
      assert SchemeRows(problems, schemes) ==
             old(SchemeRows(problems, schemes))[s := SchemeRow(body, true, false, false, None)];
    }

    method WriteWare(w: WareId, s: SchemeId)
      requires Valid()
      modifies this`wares
      ensures Valid() && State() == WithWare(old(State()), w, s)
      ensures Offered(old(wares), w, s, wares)
    {
      var rec := if w in wares then wares[w].(scheme := s, problemId := 0, dirty := true, deleted := false)
                 else WareRec(s, 0, true, false, false);
      wares := wares[w := rec];
      assert WareRows(problems, wares) == old(WareRows(problems, wares))[w := WareOf(problems, rec)];
    }

    /**
     Adds or updates a ware under an existing scheme, or under a new one made for it. Without
     its file the insert aborts and the transaction is rolled back, so the file is looked at first.
     */
    method UpdateWare(w: WareId, scheme: Option<SchemeId>, body: string) returns (ok: bool)
      requires Valid()
      modifies this`wares, this`schemes
      ensures Valid()
      ensures var e := if scheme.Some? then Edit.UpdateWare(w, scheme.value) else Edit.UpdateWareNewScheme(w, body);
              Apply(old(State()), e) == if ok then Some(State()) else None
      ensures ok <==>
              w in files && (scheme.Some? ==> scheme.value in old(schemes) && !old(schemes)[scheme.value].deleted)
      ensures !ok ==> wares == old(wares) && schemes == old(schemes)
      ensures ok && scheme.Some? ==> Offered(old(wares), w, scheme.value, wares) && schemes == old(schemes)
      ensures ok && scheme.None? ==>
                exists s :: SchemeIds.IsLeastFree(old(schemes).Keys, s) && Offered(old(wares), w, s, wares)
                            && schemes == old(schemes)[s := SchemeRec(body, 0, true, false, false)]
    {
      ok := w in files;
      if ok {
        var s;
        if scheme.Some? {
          s := scheme.value;
          ok := IsPayeeSchemeIdValid(s);
        } else {
          s := AddPayeeScheme(body);
          assert old(State()).schemes.Keys == old(schemes.Keys);
          SchemeIds.LeastFreeUnique(old(schemes.Keys), s, SchemeIds.LeastFree(old(schemes.Keys)));
        }
        if ok {
          WriteWare(w, s);
        }
      }
    }

    method RemoveWare(w: WareId) returns (ok: bool)
      requires Valid()
      modifies this`wares
      ensures Valid()
      ensures Apply(old(State()), Edit.RemoveWare(w)) == if ok then Some(State()) else None
      ensures ok <==> w in old(wares) && !old(wares)[w].deleted
      ensures wares == if ok then old(wares)[w := old(wares)[w].(problemId := 0, dirty := true, deleted := true)]
                       else old(wares)
    {
      ok := w in wares && !wares[w].deleted;
      if ok {
        wares := wares[w := wares[w].(problemId := 0, dirty := true, deleted := true)];
        assert WareRows(problems, wares) == old(WareRows(problems, wares))[w := WareOf(problems, wares[w])];
      }
    }

    method UpdatePayeeScheme(s: SchemeId, body: string) returns (ok: bool)
      requires Valid()
      modifies this`schemes
      ensures Valid()
      ensures Apply(old(State()), if s == 0 then AddScheme(body) else UpdateScheme(s, body)) ==
              if ok then Some(State()) else None
      ensures ok <==> s == 0 || (s in old(schemes) && !old(schemes)[s].deleted)
      ensures !ok ==> schemes == old(schemes)
      ensures s == 0 ==> exists id :: SchemeIds.IsLeastFree(old(schemes).Keys, id)
                                      && schemes == old(schemes)[id := SchemeRec(body, 0, true, false, false)]
      ensures ok && s != 0 ==>
                schemes == old(schemes)[s := old(schemes)[s].(body := body, problemId := 0, dirty := true)]
    {
      if s == 0 {
        var id := AddPayeeScheme(body);
        ok := true;
      } else {
        ok := IsPayeeSchemeIdValid(s);
        if ok {
          schemes := schemes[s := schemes[s].(body := body, problemId := 0, dirty := true)];
          assert SchemeRows(problems, schemes) ==
                 old(SchemeRows(problems, schemes))[s := SchemeOf(problems, schemes[s])];
        }
      }
    }

    method RemovePayeeScheme(s: SchemeId) returns (ok: bool)
      requires Valid()
      modifies this`schemes
      ensures Valid()
      ensures Apply(old(State()), RemoveScheme(s)) == if ok then Some(State()) else None
      ensures ok <==> forall w :: w in wares && wares[w].scheme == s ==> wares[w].deleted
      ensures schemes == if ok && s in old(schemes)
                         then old(schemes)[s := old(schemes)[s].(problemId := 0, dirty := true, deleted := true)]
                         else old(schemes)
    {
      ok := !(exists w :: w in wares && wares[w].scheme == s && !wares[w].deleted);
      assert ok <==> !SchemeInUse(State(), s) by {
        forall w
          ensures w in wares && wares[w].scheme == s && !wares[w].deleted <==>
                  w in State().wares && State().wares[w].scheme == s && !State().wares[w].deleted
        {
        }
      }
      if ok && s in schemes {
        schemes := schemes[s := schemes[s].(problemId := 0, dirty := true, deleted := true)];
        assert SchemeRows(problems, schemes) == old(SchemeRows(problems, schemes))[s := SchemeOf(problems, schemes[s])];
      }
    }

    /** A new file in the media library, under an ID that was never used before. */
    method FileAdded(w: WareId, info: string)
      requires Valid() && w !in files && w !in wares
      modifies this`files
      ensures Valid() && Apply(old(State()), Edit.FileAdded(w, info)) == Some(State())
      ensures files == old(files)[w := info]
    {
      files := files[w := info];
    }

    /** The trigger on an updated media library file. */
    method FileUpdated(w: WareId, info: string)
      requires Valid() && w in files
      modifies this`files, this`wares
      ensures Valid() && Apply(old(State()), Edit.FileUpdated(w, info)) == Some(State())
      ensures files == old(files)[w := info]
      ensures wares == if w in old(wares) && !old(wares)[w].deleted
                       then old(wares)[w := old(wares)[w].(problemId := 0, dirty := true)] else old(wares)
    {
      files := files[w := info];
      if w in wares && !wares[w].deleted {
        wares := wares[w := wares[w].(problemId := 0, dirty := true)];
        assert WareRows(problems, wares) == old(WareRows(problems, wares))[w := WareOf(problems, wares[w])];
      }
    }

    /** The trigger on a deleted media library file. */
    method FileDeleted(w: WareId)
      requires Valid() && w in files
      modifies this`files, this`wares
      ensures Valid() && Apply(old(State()), Edit.FileDeleted(w)) == Some(State())
      ensures files == old(files) - {w}
      ensures wares == if w in old(wares)
                       then old(wares)[w := old(wares)[w].(problemId := 0, dirty := true, deleted := true)]
                       else old(wares)
    {
      if w in wares {
        wares := wares[w := wares[w].(problemId := 0, dirty := true, deleted := true)];
        assert WareRows(problems, wares) == old(WareRows(problems, wares))[w := WareOf(problems, wares[w])];
      }
      files := files - {w};
    }

    // ---------- marking and reading the next update

    method FindUpdating() returns (found: bool)
      ensures found <==> AnyUpdating(State())
      ensures found <==>
              (exists w :: w in wares && wares[w].updating) || (exists s :: s in schemes && schemes[s].updating)
    {
      found := exists w :: w in wares && wares[w].updating;
      if found {
        var w :| w in wares && wares[w].updating;
        assert State().wares[w].updating;
      } else {
        found := exists s :: s in schemes && schemes[s].updating;
        if found {
          var s :| s in schemes && schemes[s].updating;
          assert State().schemes[s].updating;
        }
      }
    }

    /** The four UPDATE statements that mark the next update, unless one is marked already. */
    method MarkNextListingUpdate() returns (ghost c: Choice)
      requires Valid()
      modifies this`wares, this`schemes
      ensures Valid()
      ensures State() == MarkNext(old(State()), c)
      ensures ValidChoice(old(State()), c)
      ensures RowsMarked(old(wares), old(schemes), c, wares, schemes)
    {
      c := SomeChoice(State());
      var pending := FindUpdating();
      if !pending {
        ghost var before := State();
        var ps := MarkSchemeRows();
        var ws1 := MarkDeletedRows();
        assert State().wares == MarkWares(before.wares, ws1);
        var rows := MAX_WARE_UPDATES - |ws1|;
        var ws2 := {};
        if rows > 0 {
          ws2 := MarkDirtyRows(rows);
          UnmarkWaitingRows();
        }
        c := Choice(ps, ws1, ws2);
        assert State() == Marked(before, c);
        StatementsMark(old(wares), schemes, c, wares);
      }
    }

    method MarkSchemeRows() returns (ps: set<SchemeId>)
      requires Valid()
      modifies this`schemes
      ensures Valid() && State() == old(State()).(schemes := MarkSchemes(old(State()).schemes, ps))
      ensures Limited(ps, SchemeCandidates(old(State())), MAX_PAYEE_UPDATES)
      ensures schemes == map s | s in old(schemes) :: if s in ps then old(schemes)[s].(dirty := false, updating := true)
                                                      else old(schemes)[s]
    {
      var candidates := set s | s in schemes && schemes[s].dirty &&
                          !exists w :: w in wares && wares[w].scheme == s && wares[w].deleted;
      CandidatesMatch(candidates);
      ps := SelectLimit(candidates, MAX_PAYEE_UPDATES);
      SchemeMarksMatch(problems, schemes, ps);
      schemes := map s | s in schemes :: if s in ps then schemes[s].(dirty := false, updating := true) else schemes[s];
    }

    method MarkDeletedRows() returns (ws: set<WareId>)
      requires Valid()
      modifies this`wares
      ensures Valid() && State() == old(State()).(wares := MarkWares(old(State()).wares, ws))
      ensures Limited(ws, DeletedWares(old(State()).wares), MAX_WARE_UPDATES)
      ensures wares == MarkRecs(old(wares), ws) && forall w :: w in ws ==> w in old(wares) && old(wares)[w].deleted
    {
      var eligible := set w | w in wares && wares[w].deleted;
      assert eligible == DeletedWares(State().wares);
      ws := SelectLimit(eligible, MAX_WARE_UPDATES);
      MarkWareRows(ws);
    }

    method MarkDirtyRows(n: nat) returns (ws: set<WareId>)
      requires Valid()
      modifies this`wares
      ensures Valid() && State() == old(State()).(wares := MarkWares(old(State()).wares, ws))
      ensures Limited(ws, DirtyWares(old(State()).wares), n)
      ensures wares == MarkRecs(old(wares), ws) && forall w :: w in ws ==> w in old(wares) && old(wares)[w].dirty
    {
      var eligible := set w | w in wares && wares[w].dirty;
      assert eligible == DirtyWares(State().wares);
      ws := SelectLimit(eligible, n);
      MarkWareRows(ws);
    }

    lemma CandidatesMatch(candidates: set<SchemeId>)
      requires candidates == set s | s in schemes && schemes[s].dirty &&
                               !exists w :: w in wares && wares[w].scheme == s && wares[w].deleted
      ensures candidates == SchemeCandidates(State())
    {
      forall s
        ensures NamedByDeletedWare(State().wares, s) <==>
                exists w :: w in wares && wares[w].scheme == s && wares[w].deleted
      {
        if w :| w in wares && wares[w].scheme == s && wares[w].deleted {
          assert State().wares[w].scheme == s && State().wares[w].deleted;
        }
      }
    }

    method MarkWareRows(sel: set<WareId>)
      requires Valid()
      modifies this`wares
      ensures Valid() && State() == old(State()).(wares := MarkWares(old(State()).wares, sel))
      ensures wares == MarkRecs(old(wares), sel)
    {
      wares := map w | w in wares :: if w in sel then wares[w].(dirty := false, updating := true) else wares[w];
      assert WareRows(problems, wares) == MarkWares(old(State()).wares, sel);
    }

    method UnmarkWaitingRows()
      requires Valid()
      modifies this`wares
      ensures Valid() && State() == old(State()).(wares := UnmarkWaiting(old(State()).wares, old(State()).schemes))
      ensures wares == UnmarkRecs(old(wares), schemes)
    {
      var waiting := set w | w in wares && !wares[w].deleted && wares[w].updating && wares[w].scheme in schemes
                       && (schemes[wares[w].scheme].updating || schemes[wares[w].scheme].dirty);
      UnmarkMatches(problems, wares, schemes, waiting);
      wares := map w | w in wares :: if w in waiting then wares[w].(dirty := true, updating := false) else wares[w];
    }

    predicate PendingRec(w: WareId)
      reads this
    {
      w in wares && wares[w].updating && !wares[w].dirty
    }

    lemma PendingWares(w: WareId)
      ensures w in PendingBatch(WareView(State())).updates <==> PendingRec(w) && !wares[w].deleted
      ensures PendingRec(w) && !wares[w].deleted ==>
                PendingBatch(WareView(State())).updates[w] == Listing(FileOf(files, w), wares[w].scheme)
      ensures w in PendingBatch(WareView(State())).removals <==> PendingRec(w) && wares[w].deleted
    {
    }

    /** The listings of the pending wares, row by row; it fails when a live ware has lost its file. */
    method PopulateUpdatingWares() returns (ok: bool, batch: Batch<WareId, Listing>)
      ensures ok <==> forall w :: PendingRec(w) && !wares[w].deleted ==> w in files
      ensures ok ==> batch == PendingBatch(WareView(State()))
      ensures ok ==>
                batch.updates.Keys == set w | w in wares && wares[w].updating && !wares[w].dirty && !wares[w].deleted
      ensures ok ==> forall w :: w in batch.updates ==>
                w in files && batch.updates[w].file == files[w] && batch.updates[w].scheme == wares[w].scheme
      ensures ok ==> batch.removals == (set w | w in wares && wares[w].updating && !wares[w].dirty && wares[w].deleted)
    {
      var rest := set w | w in wares && wares[w].updating && !wares[w].dirty;
      ok := true;
      var updates, removals := map[], {};
      while rest != {} && ok
        invariant forall w :: w in rest ==> PendingRec(w)
        invariant forall w :: w in updates ==>
                    PendingRec(w) && !wares[w].deleted && w in files && updates[w] == Listing(files[w], wares[w].scheme)
        invariant forall w :: w in removals ==> PendingRec(w) && wares[w].deleted
        invariant ok ==> forall w :: PendingRec(w) ==> w in rest || w in updates || w in removals
        invariant !ok ==> exists w :: PendingRec(w) && !wares[w].deleted && w !in files
        decreases |rest|, ok
      {
        var w :| w in rest;
        if wares[w].deleted {
          removals := removals + {w};
        } else if w in files {
          updates := updates[w := Listing(files[w], wares[w].scheme)];
        } else {
          ok := false;
        }
        rest := rest - {w};
      }
      batch := Batch(updates, removals);
      if ok {
        WareBatchIs(batch);
      }
    }

    lemma WareBatchIs(batch: Batch<WareId, Listing>)
      requires forall w :: w in batch.updates <==> PendingRec(w) && !wares[w].deleted
      requires forall w :: w in batch.updates ==>
                 w in wares && batch.updates[w] == Listing(FileOf(files, w), wares[w].scheme)
      requires forall w :: w in batch.removals <==> PendingRec(w) && wares[w].deleted
      ensures batch == PendingBatch(WareView(State()))
      ensures batch.updates.Keys == (set w | w in wares && wares[w].updating && !wares[w].dirty && !wares[w].deleted)
      ensures batch.removals == (set w | w in wares && wares[w].updating && !wares[w].dirty && wares[w].deleted)
    {
      var p := PendingBatch(WareView(State()));
      forall w
        ensures w in batch.updates <==> w in p.updates
        ensures w in batch.updates ==> batch.updates[w] == p.updates[w]
        ensures w in batch.removals <==> w in p.removals
      {
        PendingWares(w);
      }
      assert batch.updates == p.updates && batch.removals == p.removals;
    }

    predicate PendingSchemeRec(s: SchemeId)
      reads this
    {
      s in schemes && schemes[s].updating && !schemes[s].dirty
    }

    lemma PendingSchemes(s: SchemeId)
      ensures s in PendingBatch(SchemeView(State())).updates <==> PendingSchemeRec(s) && !schemes[s].deleted
      ensures PendingSchemeRec(s) && !schemes[s].deleted ==>
                PendingBatch(SchemeView(State())).updates[s] == schemes[s].body
      ensures s in PendingBatch(SchemeView(State())).removals <==> PendingSchemeRec(s) && schemes[s].deleted
    {
    }

    method PopulateUpdatingPayeeSchemes() returns (batch: Batch<SchemeId, string>)
      ensures batch == PendingBatch(SchemeView(State()))
      ensures batch.updates ==
              map s | s in schemes && schemes[s].updating && !schemes[s].dirty && !schemes[s].deleted :: schemes[s].body
      ensures batch.removals == (set s | s in schemes && schemes[s].updating && !schemes[s].dirty && schemes[s].deleted)
    {
      var rest := set s | s in schemes && schemes[s].updating && !schemes[s].dirty;
      var updates, removals := map[], {};
      while rest != {}
        invariant forall s :: s in rest ==> PendingSchemeRec(s)
        invariant forall s :: s in updates ==>
                    PendingSchemeRec(s) && !schemes[s].deleted && updates[s] == schemes[s].body
        invariant forall s :: s in removals ==> PendingSchemeRec(s) && schemes[s].deleted
        invariant forall s :: PendingSchemeRec(s) ==> s in rest || s in updates || s in removals
        decreases |rest|
      {
        var s :| s in rest;
        if schemes[s].deleted {
          removals := removals + {s};
        } else {
          updates := updates[s := schemes[s].body];
        }
        rest := rest - {s};
      }
      batch := Batch(updates, removals);
      SchemeBatchIs(batch);
    }

    lemma SchemeBatchIs(batch: Batch<SchemeId, string>)
      requires forall s :: s in batch.updates <==> PendingSchemeRec(s) && !schemes[s].deleted
      requires forall s :: s in batch.updates ==> s in schemes && batch.updates[s] == schemes[s].body
      requires forall s :: s in batch.removals <==> PendingSchemeRec(s) && schemes[s].deleted
      ensures batch == PendingBatch(SchemeView(State()))
      ensures batch.updates ==
              map s | s in schemes && schemes[s].updating && !schemes[s].dirty && !schemes[s].deleted :: schemes[s].body
      ensures batch.removals == (set s | s in schemes && schemes[s].updating && !schemes[s].dirty && schemes[s].deleted)
    {
      var p := PendingBatch(SchemeView(State()));
      forall s
        ensures s in batch.updates <==> s in p.updates
        ensures s in batch.updates ==> batch.updates[s] == p.updates[s]
        ensures s in batch.removals <==> s in p.removals
      {
        PendingSchemes(s);
      }
      assert batch.updates == p.updates && batch.removals == p.removals;
    }

    // ---------- processing a response

    /** The ID of a problem text, taken from the table or newly inserted; no recorded problem changes. */
    method GetProblemId(text: string) returns (id: nat)
      requires Valid()
      modifies this`problems
      ensures Valid() && State() == old(State())
      ensures id in problems && problems[id] == text
    {
      if p :| p in problems && problems[p] == text {
        id := p;
      } else {
        id := NextRowId(problems.Keys);
        problems := problems[id := text];
        RowsKept(old(problems), problems, wares, schemes);
      }
    }

    method UpdateWareProblemId(id: nat, w: WareId)
      requires Valid() && id in problems
      modifies this`wares
      ensures Valid()
      ensures State() == old(State()).(wares := NoteWares(old(State()), map[w := problems[id]]))
      ensures wares == if w in old(wares) && w in files && !old(wares)[w].dirty
                       then old(wares)[w := old(wares)[w].(problemId := id)] else old(wares)
    {
      if w in wares && w in files && !wares[w].dirty {
        wares := wares[w := wares[w].(problemId := id)];
      }
      assert State().wares == NoteWares(old(State()), map[w := problems[id]]);
    }

    method UpdatePayeeSchemeProblemId(id: nat, s: SchemeId)
      requires Valid() && id in problems
      modifies this`schemes
      ensures Valid()
      ensures State() == old(State()).(schemes := NoteSchemes(old(State()), map[s := problems[id]]))
      ensures schemes == if s in old(schemes) && !old(schemes)[s].dirty
                         then old(schemes)[s := old(schemes)[s].(problemId := id)] else old(schemes)
    {
      if s in schemes && !schemes[s].dirty {
        schemes := schemes[s := schemes[s].(problemId := id)];
      }
      assert State().schemes == NoteSchemes(old(State()), map[s := problems[id]]);
    }

    method RecordWareProblems(failed: seq<(WareId, string)>)
      requires Valid()
      modifies this`wares, this`problems
      ensures Valid()
      ensures State() == old(State()).(wares := NoteWares(old(State()), FailureMap(failed)))
      ensures WaresRecorded(old(wares), old(problems), files, failed, wares, problems)
    {
      ghost var before := State();
      NoFailures(before);
      for i := 0 to |failed|
        invariant Valid()
        invariant State() == before.(wares := NoteWares(before, FailureMap(failed[..i])))
      {
        var id := GetProblemId(failed[i].1);
        UpdateWareProblemId(id, failed[i].0);
        assert failed[..i + 1][..i] == failed[..i];
        NoteWareAfter(before, FailureMap(failed[..i]), failed[i].0, failed[i].1);
      }
      assert failed[..|failed|] == failed;
      WaresRecordedAs(old(wares), old(problems), files, failed, wares, problems, before);
    }

    method RecordSchemeProblems(failed: seq<(SchemeId, string)>)
      requires Valid()
      modifies this`schemes, this`problems
      ensures Valid()
      ensures State() == old(State()).(schemes := NoteSchemes(old(State()), FailureMap(failed)))
      ensures SchemesRecorded(old(schemes), old(problems), failed, schemes, problems)
    {
      ghost var before := State();
      NoFailures(before);
      for i := 0 to |failed|
        invariant Valid()
        invariant State() == before.(schemes := NoteSchemes(before, FailureMap(failed[..i])))
      {
        var id := GetProblemId(failed[i].1);
        UpdatePayeeSchemeProblemId(id, failed[i].0);
        assert failed[..i + 1][..i] == failed[..i];
        NoteSchemeAfter(before, FailureMap(failed[..i]), failed[i].0, failed[i].1);
      }
      assert failed[..|failed|] == failed;
      SchemesRecordedAs(old(schemes), old(problems), failed, schemes, problems, before);
    }

    /** Deletes the problems no row refers to; what the rows say stays the same. */
    method RemoveUnreferencedProblems()
      requires Valid()
      modifies this`problems
      ensures Valid() && State() == old(State())
      ensures forall p :: p in problems ==>
                || (exists w :: w in wares && wares[w].problemId == p)
                || (exists s :: s in schemes && schemes[s].problemId == p)
    {
      var used := (set w | w in wares :: wares[w].problemId) + (set s | s in schemes :: schemes[s].problemId);
      problems := map p | p in problems && p in used :: problems[p];
      RowsKept(old(problems), problems, wares, schemes);
    }

    /** The whole response transaction: record failures, purge, clear the flags, store the new update ID. */
    method ProcessListingUpdateResponse(failedListings: seq<(WareId, string)>, failedSchemes: seq<(SchemeId, string)>,
                                        newId: UpdateId)
      requires Valid()
      modifies this
      ensures Valid()
      ensures State() == Acknowledged(old(State()), FailureMap(failedListings), FailureMap(failedSchemes), newId)
      ensures WaresAnswered(old(wares), old(problems), files, failedListings, wares, problems)
      ensures SchemesAnswered(old(schemes), old(problems), failedSchemes, schemes, problems)
      ensures updateId == newId && files == old(files) && registered == old(registered)
    {
      ghost var db := State();
      RecordAndPurge(failedListings, failedSchemes, newId);
      WaresAnsweredAs(old(wares), old(problems), files, failedListings, wares, problems, db);
      SchemesAnsweredAs(old(schemes), old(problems), failedSchemes, schemes, problems, db);
    }

    method RecordAndPurge(failedListings: seq<(WareId, string)>, failedSchemes: seq<(SchemeId, string)>,
                          newId: UpdateId)
      requires Valid()
      modifies this
      ensures Valid()
      ensures State() == Acknowledged(old(State()), FailureMap(failedListings), FailureMap(failedSchemes), newId)
      ensures updateId == newId && files == old(files) && registered == old(registered)
    {
      AckInSteps(State(), FailureMap(failedListings), FailureMap(failedSchemes), newId);
      RecordProblems(failedListings, failedSchemes);
      PurgeDeleted(newId);
    }

    method RecordProblems(failedListings: seq<(WareId, string)>, failedSchemes: seq<(SchemeId, string)>)
      requires Valid()
      modifies this`wares, this`schemes, this`problems
      ensures Valid()
      ensures var db := old(State()).(wares := NoteWares(old(State()), FailureMap(failedListings)));
        State() == db.(schemes := NoteSchemes(db, FailureMap(failedSchemes)))
    {
      RecordWareProblems(failedListings);
      RecordSchemeProblems(failedSchemes);
    }

    method PurgeDeleted(newId: UpdateId)
      requires Valid()
      modifies this`wares, this`schemes, this`problems, this`updateId
      ensures Valid() && updateId == newId
      ensures var db := old(State()).(wares := PurgeWares(old(State()).wares));
        State() == db.(schemes := PurgeSchemes(db.schemes), updateId := newId)
    {
      PurgeDeletedWares();
      PurgeDeletedSchemes();
      RemoveUnreferencedProblems();
      updateId := newId;
    }

    method PurgeDeletedWares()
      requires Valid()
      modifies this`wares
      ensures Valid()
      ensures State() == old(State()).(wares := PurgeWares(old(State()).wares))
      ensures wares == map w | w in old(wares) && !(old(wares)[w].updating && old(wares)[w].deleted
                                                    && !old(wares)[w].dirty && old(wares)[w].problemId == 0)
                           :: old(wares)[w].(updating := false)
    {
      WarePurgeMatches(problems, wares, schemes);
      wares := map w | w in wares && !(wares[w].updating && wares[w].deleted && !wares[w].dirty
                                       && wares[w].problemId == 0)
               :: wares[w].(updating := false);
    }

    method PurgeDeletedSchemes()
      requires Valid()
      modifies this`schemes
      ensures Valid()
      ensures State() == old(State()).(schemes := PurgeSchemes(old(State()).schemes))
      ensures schemes == map s | s in old(schemes) && !(old(schemes)[s].updating && old(schemes)[s].deleted
                                                        && !old(schemes)[s].dirty && old(schemes)[s].problemId == 0)
                             :: old(schemes)[s].(updating := false)
    {
      SchemePurgeMatches(problems, wares, schemes);
      schemes := map s | s in schemes && !(schemes[s].updating && schemes[s].deleted && !schemes[s].dirty
                                           && schemes[s].problemId == 0)
                 :: schemes[s].(updating := false);
    }

    method SetWareFlags(dirty: bool, updating: bool)
      requires Valid()
      modifies this`wares
      ensures Valid() && State() == old(State()).(wares := FlagWares(old(State()).wares, dirty, updating))
      ensures wares == map w | w in old(wares) :: old(wares)[w].(dirty := dirty, updating := updating)
    {
      WareFlagsMatch(problems, wares, dirty, updating);
      wares := map w | w in wares :: wares[w].(dirty := dirty, updating := updating);
    }

    method SetSchemeFlags(dirty: bool, updating: bool)
      requires Valid()
      modifies this`schemes
      ensures Valid() && State() == old(State()).(schemes := FlagSchemes(old(State()).schemes, dirty, updating))
      ensures schemes == map s | s in old(schemes) :: old(schemes)[s].(dirty := dirty, updating := updating)
    {
      SchemeFlagsMatch(problems, schemes, dirty, updating);
      schemes := map s | s in schemes :: schemes[s].(dirty := dirty, updating := updating);
    }

    method ResetListingUpdateCounter()
      requires Valid()
      modifies this
      ensures Valid() && State() == Reset(old(State()))
      ensures updateId == 0 && !registered && files == old(files) && problems == old(problems)
      ensures wares == map w | w in old(wares) :: old(wares)[w].(dirty := true, updating := false)
      ensures schemes == map s | s in old(schemes) :: old(schemes)[s].(dirty := true, updating := false)
    {
      updateId, registered := 0, false;
      SetWareFlags(true, false);
      SetSchemeFlags(true, false);
    }
  }

  /** Rows read the same through two problem tables that agree on every problem recorded. */
  lemma RowsKept(p: map<nat, string>, p': map<nat, string>,
                 wares: map<WareId, WareRec>, schemes: map<SchemeId, SchemeRec>)
    requires forall w :: w in wares ==> ProblemText(p', wares[w].problemId) == ProblemText(p, wares[w].problemId)
    requires forall s :: s in schemes ==> ProblemText(p', schemes[s].problemId) == ProblemText(p, schemes[s].problemId)
    ensures WareRows(p', wares) == WareRows(p, wares)
    ensures SchemeRows(p', schemes) == SchemeRows(p, schemes)
  {
  }

  lemma WareFlagsMatch(p: map<nat, string>, wares: map<WareId, WareRec>, dirty: bool, updating: bool)
    ensures WareRows(p, map w | w in wares :: wares[w].(dirty := dirty, updating := updating))
            == FlagWares(WareRows(p, wares), dirty, updating)
  {
  }

  lemma SchemeFlagsMatch(p: map<nat, string>, schemes: map<SchemeId, SchemeRec>, dirty: bool, updating: bool)
    ensures SchemeRows(p, map s | s in schemes :: schemes[s].(dirty := dirty, updating := updating))
            == FlagSchemes(SchemeRows(p, schemes), dirty, updating)
  {
  }

  lemma SchemeMarksMatch(p: map<nat, string>, schemes: map<SchemeId, SchemeRec>, ps: set<SchemeId>)
    ensures SchemeRows(p, map s | s in schemes :: if s in ps then schemes[s].(dirty := false, updating := true)
                                                  else schemes[s])
            == MarkSchemes(SchemeRows(p, schemes), ps)
  {
  }

  /** A problem ID of 0 and the absence of a problem are the same thing. */
  lemma WarePurgeMatches(p: map<nat, string>, wares: map<WareId, WareRec>, schemes: map<SchemeId, SchemeRec>)
    requires ProblemsOk(p, wares, schemes)
    ensures WareRows(p, map w | w in wares && !(wares[w].updating && wares[w].deleted && !wares[w].dirty
                                                && wares[w].problemId == 0)
                        :: wares[w].(updating := false))
            == PurgeWares(WareRows(p, wares))
  {
  }

  lemma SchemePurgeMatches(p: map<nat, string>, wares: map<WareId, WareRec>, schemes: map<SchemeId, SchemeRec>)
    requires ProblemsOk(p, wares, schemes)
    ensures SchemeRows(p, map s | s in schemes && !(schemes[s].updating && schemes[s].deleted && !schemes[s].dirty
                                                    && schemes[s].problemId == 0)
                          :: schemes[s].(updating := false))
            == PurgeSchemes(SchemeRows(p, schemes))
  {
  }

  lemma AckInSteps(db: Db, failW: map<WareId, string>, failS: map<SchemeId, string>, id: UpdateId)
    ensures var s1 := db.(wares := NoteWares(db, failW));
            var s2 := s1.(schemes := NoteSchemes(s1, failS));
            var s3 := s2.(wares := PurgeWares(s2.wares));
            var s4 := s3.(schemes := PurgeSchemes(s3.schemes));
            s4.(updateId := id) == Acknowledged(db, failW, failS, id)
  {
    var s1 := db.(wares := NoteWares(db, failW));
    assert NoteSchemes(s1, failS) == NoteSchemes(db, failS);
  }

  lemma NoFailures(db: Db)
    ensures NoteWares(db, map[]) == db.wares && NoteSchemes(db, map[]) == db.schemes
  {
  }

  lemma NoteWareAfter(db: Db, fail: map<WareId, string>, w: WareId, text: string)
    ensures NoteWares(db.(wares := NoteWares(db, fail)), map[w := text]) == NoteWares(db, fail[w := text])
  {
  }

  lemma NoteSchemeAfter(db: Db, fail: map<SchemeId, string>, s: SchemeId, text: string)
    ensures NoteSchemes(db.(schemes := NoteSchemes(db, fail)), map[s := text]) == NoteSchemes(db, fail[s := text])
  {
  }
}
