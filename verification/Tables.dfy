/**
 The synchronised view of one catalogue table.

 The ware table and the payee-scheme table carry the same four columns (dirty, updating,
 deleted, problem) and are synchronised by the same rules. What follows is stated once for
 a table of any key and any payload. A row's `entry` is what the remote end must hold for
 it: `Some(content)` for a live row, `None` for a row marked deleted.
 */
module Tables {
  import opened Wrappers

  datatype Row<+C> = Row(entry: Option<C>, dirty: bool, updating: bool, problem: Option<string>)

  type Table<!K, C> = map<K, Row<C>>

  /** The part of an update message that concerns one table. */
  datatype Batch<!K, +C> = Batch(updates: map<K, C>, removals: set<K>)

  function BatchKeys<K, C>(b: Batch<K, C>): set<K> {
    b.updates.Keys + b.removals
  }

  predicate IsEmpty<K, C>(b: Batch<K, C>) {
    b.updates.Keys == {} && b.removals == {}
  }

  function Without<K, C>(b: Batch<K, C>, ks: set<K>): Batch<K, C> {
    Batch(b.updates - ks, b.removals - ks)
  }

  /** Marked for the running update and not edited since. */
  predicate Pending<C>(r: Row<C>) {
    r.updating && !r.dirty
  }

  /** The rows an update message carries: updating and not dirty. */
  function PendingBatch<K, C>(t: Table<K, C>): Batch<K, C> {
    Batch(
      map k | k in t && Pending(t[k]) && t[k].entry.Some? :: t[k].entry.value,
      set k | k in t && Pending(t[k]) && t[k].entry.None?)
  }

  /** A row that claims to be in step with the remote end. */
  predicate Clean<C>(r: Row<C>) {
    !r.dirty && !r.updating && r.problem.None?
  }

  /** Every clean live row has an equal remote entry. */
  ghost predicate Safe<K, C>(t: Table<K, C>, remote: map<K, C>) {
    forall k :: k in t && Clean(t[k]) && t[k].entry.Some? ==> k in remote && remote[k] == t[k].entry.value
  }

  /** No deleted row has dirty, updating and problem all clear. */
  ghost predicate NoCleanDeleted<K, C>(t: Table<K, C>) {
    forall k :: k in t && Clean(t[k]) ==> t[k].entry.Some?
  }

  /** No remote entry without a local row that accounts for it. */
  ghost predicate NoOrphan<K, C>(t: Table<K, C>, remote: map<K, C>) {
    remote.Keys <= t.Keys
  }

  /**
   `sent` is the batch of the last update message and `touched` the rows edited since it was
   put together: all rows of the batch still carry the updating flag, and what is still
   pending is exactly the batch without the touched rows.
   */
  ghost predicate Wired<K, C>(t: Table<K, C>, sent: Batch<K, C>, touched: set<K>) {
    && (forall k :: k in BatchKeys(sent) ==> k in t && t[k].updating)
    && PendingBatch(t) == Without(sent, touched)
    && sent.updates.Keys !! sent.removals
  }

  /** A local edit or trigger: it dirties what it touches, never the updating flag, and removes nothing. */
  ghost predicate Edited<K, C>(t: Table<K, C>, t': Table<K, C>, touched: set<K>) {
    && t.Keys <= t'.Keys
    && touched <= t'.Keys
    && (forall k :: k in t' && k !in touched ==> k in t && t'[k] == t[k])
    && (forall k :: k in touched ==> t'[k].dirty && (t'[k].updating <==> (k in t && t[k].updating)))
  }

  /** A marking step: it moves flags only, and no row becomes clean by it. */
  ghost predicate Remarked<K, C>(t: Table<K, C>, t': Table<K, C>) {
    && t'.Keys == t.Keys
    && forall k :: k in t ==>
        t'[k].entry == t[k].entry && t'[k].problem == t[k].problem && (Clean(t'[k]) ==> Clean(t[k]))
  }

  /** What an accepting remote end holds afterwards; the failed items keep their old entry. */
  function Applied<K, C>(remote: map<K, C>, b: Batch<K, C>, fail: set<K>): map<K, C> {
    (remote + (b.updates - fail)) - (b.removals - fail)
  }

  ghost predicate Landed<K, C>(remote: map<K, C>, b: Batch<K, C>, fail: set<K>) {
    && (forall k :: k in b.updates && k !in fail ==> k in remote && remote[k] == b.updates[k])
    && (forall k :: k in b.removals && k !in fail ==> k !in remote)
  }

  /** The row after failures have been recorded; a dirty row and a row outside `recordable` take none. */
  function Noted<K, C>(t: Table<K, C>, k: K, fail: map<K, string>, recordable: set<K>): Row<C>
    requires k in t
  {
    if k in fail && k in recordable && !t[k].dirty then t[k].(problem := Some(fail[k])) else t[k]
  }

  predicate Purged<K, C>(t: Table<K, C>, k: K, fail: map<K, string>, recordable: set<K>)
    requires k in t
  {
    var r := Noted(t, k, fail, recordable);
    r.updating && r.entry.None? && !r.dirty && r.problem.None?
  }

  /** An acknowledgement: record failures, purge removed rows, clear every updating flag. */
  function Acked<K, C>(t: Table<K, C>, fail: map<K, string>, recordable: set<K>): Table<K, C> {
    map k | k in t && !Purged(t, k, fail, recordable) :: Noted(t, k, fail, recordable).(updating := false)
  }

  // ---------- the edits

  lemma EditedKeeps<K, C>(t: Table<K, C>, t': Table<K, C>, touched: set<K>, remote: map<K, C>)
    requires Edited(t, t', touched)
    ensures Safe(t, remote) ==> Safe(t', remote)
    ensures NoCleanDeleted(t) ==> NoCleanDeleted(t')
    ensures NoOrphan(t, remote) ==> NoOrphan(t', remote)
  {
  }

  lemma EditedKeepsWired<K, C>(t: Table<K, C>, t': Table<K, C>, sent: Batch<K, C>, before: set<K>, now: set<K>)
    requires Wired(t, sent, before) && Edited(t, t', now)
    ensures Wired(t', sent, before + now)
  {
    var p, p' := PendingBatch(t), PendingBatch(t');
    forall k
      ensures k in p'.updates <==> k in p.updates && k !in now
      ensures k in p'.updates ==> p'.updates[k] == p.updates[k]
      ensures k in p'.removals <==> k in p.removals && k !in now
    {
    }
    assert p'.updates == sent.updates - (before + now);
    assert p'.removals == sent.removals - (before + now);
  }

  // ---------- marking

  lemma RemarkedKeeps<K, C>(t: Table<K, C>, t': Table<K, C>, remote: map<K, C>)
    requires Remarked(t, t')
    ensures Safe(t, remote) ==> Safe(t', remote)
    ensures NoCleanDeleted(t) ==> NoCleanDeleted(t')
    ensures NoOrphan(t, remote) ==> NoOrphan(t', remote)
  {
  }

  lemma PendingWired<K, C>(t: Table<K, C>)
    ensures Wired(t, PendingBatch(t), {})
  {
  }

  // ---------- the remote end

  lemma AppliedKeepsSafe<K, C>(t: Table<K, C>, remote: map<K, C>, b: Batch<K, C>, touched: set<K>, fail: set<K>)
    requires Wired(t, b, touched)
    ensures Safe(t, remote) ==> Safe(t, Applied(remote, b, fail))
    ensures NoOrphan(t, remote) ==> NoOrphan(t, Applied(remote, b, fail))
  {
  }

  lemma AppliedLands<K, C>(remote: map<K, C>, b: Batch<K, C>, fail: set<K>)
    requires b.updates.Keys !! b.removals
    ensures Landed(Applied(remote, b, fail), b, fail)
  {
  }

  // ---------- the acknowledgement

  lemma PendingIsCarried<K, C>(t: Table<K, C>, b: Batch<K, C>, touched: set<K>, k: K)
    requires Wired(t, b, touched) && k in t && Pending(t[k])
    ensures k !in touched
    ensures t[k].entry.Some? ==> k in b.updates && b.updates[k] == t[k].entry.value
    ensures t[k].entry.None? ==> k in b.removals
  {
    var p := PendingBatch(t);
    assert t[k].entry.Some? ==> k in p.updates && p.updates[k] == t[k].entry.value;
    assert t[k].entry.None? ==> k in p.removals;
  }

  /** Acknowledging a landed batch keeps the table safe, provided a failed live row can take its problem. */
  lemma AckedKeepsSafe<K, C>(t: Table<K, C>, remote: map<K, C>, b: Batch<K, C>, touched: set<K>,
                             fail: map<K, string>, recordable: set<K>)
    requires Wired(t, b, touched) && Landed(remote, b, fail.Keys)
    requires forall k :: k in t && t[k].entry.Some? ==> k in recordable
    ensures Safe(t, remote) ==> Safe(Acked(t, fail, recordable), remote)
  {
    var t' := Acked(t, fail, recordable);
    if Safe(t, remote) {
      forall k | k in t' && Clean(t'[k]) && t'[k].entry.Some?
        ensures k in remote && remote[k] == t'[k].entry.value
      {
        if Pending(t[k]) {
          PendingIsCarried(t, b, touched, k);
        }
      }
    }
  }

  lemma AckedKeepsNoCleanDeleted<K, C>(t: Table<K, C>, fail: map<K, string>, recordable: set<K>)
    requires NoCleanDeleted(t)
    ensures NoCleanDeleted(Acked(t, fail, recordable))
  {
  }

  /** A purged row was in the removals of the acknowledged batch and nobody touched it since. */
  lemma PurgedWasSent<K, C>(t: Table<K, C>, b: Batch<K, C>, touched: set<K>, fail: map<K, string>,
                            recordable: set<K>, k: K)
    requires Wired(t, b, touched) && k in t && Purged(t, k, fail, recordable)
    ensures k in b.removals && k !in touched
    ensures k !in fail || k !in recordable
  {
    PendingIsCarried(t, b, touched, k);
  }

  /** A removal that failed, of a row that nobody touched and that takes no problem, while the remote entry stays. */
  predicate LeftBehind<K, C>(k: K, remote: map<K, C>, b: Batch<K, C>, touched: set<K>,
                             fail: set<K>, recordable: set<K>)
  {
    k in fail && k in b.removals && k !in touched && k !in recordable && k in remote
  }

  /** Only such removals orphan a remote entry. */
  lemma AckedKeepsNoOrphan<K, C>(t: Table<K, C>, remote: map<K, C>, b: Batch<K, C>, touched: set<K>,
                                 fail: map<K, string>, recordable: set<K>)
    requires Wired(t, b, touched) && Landed(remote, b, fail.Keys) && NoOrphan(t, remote)
    requires forall k :: k in remote ==> !LeftBehind(k, remote, b, touched, fail.Keys, recordable)
    ensures NoOrphan(Acked(t, fail, recordable), remote)
  {
    forall k | k in remote
      ensures k in Acked(t, fail, recordable)
    {
      if Purged(t, k, fail, recordable) {
        PurgedWasSent(t, b, touched, fail, recordable, k);
        assert LeftBehind(k, remote, b, touched, fail.Keys, recordable);
      }
    }
  }

  /** And each of them does, if only recordable rows have a problem from before. */
  lemma LeftBehindIsOrphan<K, C>(t: Table<K, C>, remote: map<K, C>, b: Batch<K, C>, touched: set<K>,
                                 fail: map<K, string>, recordable: set<K>, k: K)
    requires Wired(t, b, touched) && LeftBehind(k, remote, b, touched, fail.Keys, recordable)
    requires k in t && t[k].problem.Some? ==> k in recordable
    ensures !NoOrphan(Acked(t, fail, recordable), remote)
  {
    assert k in PendingBatch(t).removals;
    assert Purged(t, k, fail, recordable);
  }

  lemma AckedIsIdle<K, C>(t: Table<K, C>, fail: map<K, string>, recordable: set<K>)
    ensures forall k :: k in Acked(t, fail, recordable) ==> !Acked(t, fail, recordable)[k].updating
    ensures Wired(Acked(t, fail, recordable), Batch(map[], {}), {})
  {
  }

  // ---------- an acknowledgement that knows of no failures

  /** What is pending is at the remote end already. */
  ghost predicate Held<K, C>(t: Table<K, C>, remote: map<K, C>) {
    forall k :: k in t && Pending(t[k]) && t[k].entry.Some? && t[k].problem.None? ==>
      k in remote && remote[k] == t[k].entry.value
  }

  /** No failed, pending, live row without a problem differs from its remote entry. */
  ghost predicate FailuresHeld<K, C>(t: Table<K, C>, remote: map<K, C>, fail: set<K>) {
    forall k :: k in fail && k in t && Pending(t[k]) && t[k].entry.Some? && t[k].problem.None? ==>
      k in remote && remote[k] == t[k].entry.value
  }

  lemma HeldIffFailuresHeld<K, C>(t: Table<K, C>, remote: map<K, C>, b: Batch<K, C>, touched: set<K>, fail: set<K>)
    requires Wired(t, b, touched) && Landed(remote, b, fail)
    ensures Held(t, remote) <==> FailuresHeld(t, remote, fail)
  {
    if FailuresHeld(t, remote, fail) {
      forall k | k in t && Pending(t[k]) && t[k].entry.Some? && t[k].problem.None?
        ensures k in remote && remote[k] == t[k].entry.value
      {
        PendingIsCarried(t, b, touched, k);
      }
    }
  }

  /** Acknowledging without failures keeps a table safe exactly if what is pending is there already. */
  lemma BlindAckSafeIff<K, C>(t: Table<K, C>, remote: map<K, C>, recordable: set<K>)
    requires Safe(t, remote)
    ensures Safe(Acked(t, map[], recordable), remote) <==> Held(t, remote)
  {
    var t' := Acked(t, map[], recordable);
    if Safe(t', remote) {
      forall k | k in t && Pending(t[k]) && t[k].entry.Some? && t[k].problem.None?
        ensures k in remote && remote[k] == t[k].entry.value
      {
        assert k in t' && Clean(t'[k]);
      }
    }
  }
}
