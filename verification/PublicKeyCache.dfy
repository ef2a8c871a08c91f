/**
 The public-key cache: a bounded map with a recency list beside it, against a simple function
 of the history of its operations.
 */
module PublicKeyCaches {
  import opened Wrappers

  /** A user ID and a profile ID. */
  type IdPair = (nat, nat)

  /** A public key and whether it belongs to a delegate. */
  type KeyPair = (string, bool)

  datatype Op = Add(id: IdPair, key: KeyPair) | Clear

  // ---------- the specification: functions of the history, latest operation last

  function Remove(ids: seq<IdPair>, id: IdPair): seq<IdPair> {
    if ids == [] then [] else (if ids[0] == id then [] else [ids[0]]) + Remove(ids[1..], id)
  }

  /** Every ID ever added, most recently added first, each once. */
  function Recent(h: seq<Op>): seq<IdPair> {
    if h == [] then []
    else
      var op := h[|h| - 1];
      var before := Recent(h[..|h| - 1]);
      if op.Add? then [op.id] + Remove(before, op.id) else before
  }

  /** The last key added for each ID since the last clear. */
  function LastKeys(h: seq<Op>): map<IdPair, KeyPair> {
    if h == [] then map[]
    else
      var op := h[|h| - 1];
      if op.Add? then LastKeys(h[..|h| - 1])[op.id := op.key] else map[]
  }

  function Take(ids: seq<IdPair>, n: nat): seq<IdPair> {
    if |ids| <= n then ids else ids[..n]
  }

  /** What a cache of the given capacity holds after a history. */
  function CachedKeys(h: seq<Op>, capacity: nat): map<IdPair, KeyPair> {
    map id | id in LastKeys(h) && id in Take(Recent(h), capacity) :: LastKeys(h)[id]
  }

  // ---------- recency lists

  lemma {:induction false} RemoveMembers(ids: seq<IdPair>, id: IdPair)
    ensures forall x :: x in Remove(ids, id) <==> x in ids && x != id
    ensures |Remove(ids, id)| <= |ids|
  {
    if ids != [] {
      RemoveMembers(ids[1..], id);
    }
  }

  ghost predicate Distinct(ids: seq<IdPair>) {
    forall i, j :: 0 <= i < j < |ids| ==> ids[i] != ids[j]
  }

  lemma {:induction false} RemoveDistinct(ids: seq<IdPair>, id: IdPair)
    requires Distinct(ids)
    ensures Distinct(Remove(ids, id))
    ensures |Remove(ids, id)| == if id in ids then |ids| - 1 else |ids|
  {
    if ids != [] {
      RemoveDistinct(ids[1..], id);
      RemoveMembers(ids[1..], id);
      assert ids[0] !in ids[1..];
      var r := Remove(ids[1..], id);
      assert ids[0] !in r;
      assert Distinct([ids[0]] + r);
    }
  }

  lemma {:induction false} RecentDistinct(h: seq<Op>)
    ensures Distinct(Recent(h))
    ensures forall id :: id in LastKeys(h) ==> id in Recent(h)
  {
    if h != [] {
      var op, before := h[|h| - 1], h[..|h| - 1];
      RecentDistinct(before);
      if op.Add? {
        RemoveDistinct(Recent(before), op.id);
        RemoveMembers(Recent(before), op.id);
      }
    }
  }

  lemma TakeOfCons(x: IdPair, ids: seq<IdPair>, n: nat)
    requires n > 0
    ensures Take([x] + ids, n) == [x] + Take(ids, n - 1)
  {
  }

  lemma RemoveOfCons(x: IdPair, ids: seq<IdPair>, id: IdPair)
    ensures Remove([x] + ids, id) == (if x == id then [] else [x]) + Remove(ids, id)
  {
    assert ([x] + ids)[1..] == ids;
  }

  /** What is not in a list is not removed from it. */
  lemma {:induction false} RemoveAbsent(ids: seq<IdPair>, id: IdPair)
    requires id !in ids
    ensures Remove(ids, id) == ids
  {
    if ids != [] {
      RemoveAbsent(ids[1..], id);
    }
  }

  lemma RemoveFirst(head: IdPair, tail: seq<IdPair>)
    requires head !in tail
    ensures Remove([head] + tail, head) == tail
  {
    RemoveOfCons(head, tail, head);
    RemoveAbsent(tail, head);
  }

  lemma {:induction false} RemoveOfTake(ids: seq<IdPair>, n: nat, id: IdPair)
    requires Distinct(ids)
    ensures Remove(Take(ids, n), id) == Take(Remove(ids, id), if id in Take(ids, n) then n - 1 else n)
    decreases |ids|
  {
    if ids != [] && n > 0 {
      var head, tail := ids[0], ids[1..];
      var few := Take(tail, n - 1);
      assert ids == [head] + tail && head !in tail;
      TakeOfCons(head, tail, n);
      if head == id {
        RemoveFirst(id, tail);
        RemoveFirst(id, few);
        assert id == Take(ids, n)[0];
      } else {
        RemoveOfCons(head, few, id);
        RemoveOfCons(head, tail, id);
        RemoveOfTake(tail, n - 1, id);
        assert id in Take(ids, n) <==> id in few;
        var k := if id in few then n - 1 else n;
        assert k > 0;
        TakeOfCons(head, Remove(tail, id), k);
      }
    }
  }

  /** Adding to the capped list and capping again is adding to the full list and capping. */
  lemma AddThenCap(ids: seq<IdPair>, n: nat, id: IdPair)
    requires Distinct(ids)
    ensures Take([id] + Remove(ids, id), n) == Take([id] + Remove(Take(ids, n), id), n)
    ensures |[id] + Remove(Take(ids, n), id)| <= n + 1 && Distinct([id] + Remove(Take(ids, n), id))
  {
    RemoveOfTake(ids, n, id);
    RemoveDistinct(ids, id);
    RemoveDistinct(Take(ids, n), id);
    RemoveMembers(Take(ids, n), id);
    var r := Remove(Take(ids, n), id);
    assert id !in r;
  }

  // ---------- what the two functions of a history say

  ghost predicate AddedAt(h: seq<Op>, i: int, id: IdPair) {
    0 <= i < |h| && h[i].Add? && h[i].id == id
  }

  /** The last time an ID was added. */
  ghost predicate LastAddedAt(h: seq<Op>, i: int, id: IdPair) {
    AddedAt(h, i, id) && forall j :: i < j < |h| ==> !AddedAt(h, j, id)
  }

  lemma LastAddedMoves(h: seq<Op>, op: Op, i: int, id: IdPair)
    ensures op.Add? && op.id == id ==> (LastAddedAt(h + [op], i, id) <==> i == |h|)
    ensures !(op.Add? && op.id == id) ==> (LastAddedAt(h + [op], i, id) <==> LastAddedAt(h, i, id))
  {
    var h' := h + [op];
    assert h'[|h|] == op;
    assert forall j :: AddedAt(h', j, id) <==> AddedAt(h, j, id) || (j == |h| && op.Add? && op.id == id);
    if LastAddedAt(h', i, id) && op.Add? && op.id == id && i != |h| {
      assert AddedAt(h', |h|, id);
    }
    if LastAddedAt(h, i, id) && !(op.Add? && op.id == id) {
      forall j | i < j < |h'|
        ensures !AddedAt(h', j, id)
      {
        assert !AddedAt(h, j, id);
      }
    }
    if LastAddedAt(h', i, id) && !(op.Add? && op.id == id) {
      forall j | i < j < |h|
        ensures !AddedAt(h, j, id)
      {
        assert !AddedAt(h', j, id);
      }
    }
  }

  /** The IDs of the recency list are those ever added. */
  lemma {:induction false} RecentMembers(h: seq<Op>, id: IdPair)
    ensures id in Recent(h) <==> exists i :: LastAddedAt(h, i, id)
  {
    if h != [] {
      var op, before := h[|h| - 1], h[..|h| - 1];
      assert h == before + [op];
      RecentMembers(before, id);
      RemoveMembers(Recent(before), if op.Add? then op.id else id);
      if op.Add? && op.id == id {
        LastAddedMoves(before, op, |before|, id);
      } else {
        forall i
          ensures LastAddedAt(h, i, id) <==> LastAddedAt(before, i, id)
        {
          LastAddedMoves(before, op, i, id);
        }
      }
    }
  }

  /** In the recency list an ID comes before another if it was added for the last time later. */
  lemma {:induction false} RecentOrder(h: seq<Op>, a: nat, b: nat, i: int, j: int)
    requires a < b < |Recent(h)| && LastAddedAt(h, i, Recent(h)[a]) && LastAddedAt(h, j, Recent(h)[b])
    ensures i > j
  {
    var op, before := h[|h| - 1], h[..|h| - 1];
    assert h == before + [op];
    LastAddedMoves(before, op, i, Recent(h)[a]);
    LastAddedMoves(before, op, j, Recent(h)[b]);
    RecentDistinct(h);
    if op.Add? {
      if a > 0 {
        assert Recent(h)[0] == op.id;
        var a', b' := RemoveOrder(Recent(before), op.id, a - 1, b - 1);
        RecentOrder(before, a', b', i, j);
      }
    } else {
      RecentOrder(before, a, b, i, j);
    }
  }

  /** Removal keeps the order of the others. */
  lemma {:induction false} RemoveOrder(ids: seq<IdPair>, id: IdPair, a: nat, b: nat) returns (a': nat, b': nat)
    requires a < b < |Remove(ids, id)|
    ensures a' < b' < |ids| && ids[a'] == Remove(ids, id)[a] && ids[b'] == Remove(ids, id)[b]
  {
    if ids[0] == id {
      a', b' := RemoveOrder(ids[1..], id, a, b);
      a', b' := a' + 1, b' + 1;
    } else if a > 0 {
      a', b' := RemoveOrder(ids[1..], id, a - 1, b - 1);
      a', b' := a' + 1, b' + 1;
    } else {
      var k := RemoveIndex(ids[1..], id, b - 1);
      a', b' := 0, k + 1;
    }
  }

  lemma {:induction false} RemoveIndex(ids: seq<IdPair>, id: IdPair, b: nat) returns (b': nat)
    requires b < |Remove(ids, id)|
    ensures b' < |ids| && ids[b'] == Remove(ids, id)[b]
  {
    RemoveMembers(ids, id);
    assert Remove(ids, id)[b] in ids;
    b' :| 0 <= b' < |ids| && ids[b'] == Remove(ids, id)[b];
  }

  /** An ID has the key that was last added for it, unless a clear came later. */
  lemma {:induction false} LastKeysAre(h: seq<Op>, id: IdPair, key: KeyPair)
    ensures id in LastKeys(h) && LastKeys(h)[id] == key
       <==> exists i :: LastAddedAt(h, i, id) && h[i].key == key && Clear !in h[i..]
  {
    if h != [] {
      var op, before := h[|h| - 1], h[..|h| - 1];
      assert h == before + [op];
      LastKeysAre(before, id, key);
      if op.Clear? {
        assert forall i :: 0 <= i < |h| ==> Clear in h[i..] by {
          assert forall i :: 0 <= i < |h| ==> h[i..][|h| - 1 - i] == Clear;
        }
      } else if op.id == id {
        LastAddedMoves(before, op, |before|, id);
        assert h[|before|..] == [op];
        forall i
          ensures LastAddedAt(h, i, id) <==> i == |before|
        {
          LastAddedMoves(before, op, i, id);
        }
      } else {
        forall i
          ensures LastAddedAt(h, i, id) <==> LastAddedAt(before, i, id)
          ensures LastAddedAt(before, i, id) ==> h[i] == before[i] && (Clear in h[i..] <==> Clear in before[i..])
        {
          LastAddedMoves(before, op, i, id);
          if LastAddedAt(before, i, id) {
            assert h[i..] == before[i..] + [op];
          }
        }
      }
    }
  }

  /** The IDs added after a point in a history. */
  ghost function AddedAfter(h: seq<Op>, i: int): set<IdPair> {
    set j | i < j < |h| && 0 <= j && h[j].Add? :: h[j].id
  }

  /** What was added at some time was added for the last time then or later. */
  lemma LastAddition(h: seq<Op>, j: int, id: IdPair) returns (k: int)
    requires AddedAt(h, j, id)
    ensures k >= j && LastAddedAt(h, k, id)
    decreases |h| - j
  {
    k := j;
    if !LastAddedAt(h, j, id) {
      var l :| j < l < |h| && AddedAt(h, l, id);
      k := LastAddition(h, l, id);
    }
  }

  /** The IDs in front of an ID in the recency list are those added since. */
  lemma InFrontAre(h: seq<Op>, k: nat, i: int, x: IdPair)
    requires k < |Recent(h)| && LastAddedAt(h, i, Recent(h)[k])
    ensures x in Recent(h)[..k] <==> x in AddedAfter(h, i)
  {
    var ids := Recent(h);
    if x in ids[..k] {
      var a :| 0 <= a < k && ids[a] == x;
      RecentMembers(h, x);
      var j :| LastAddedAt(h, j, x);
      RecentOrder(h, a, k, j, i);
      assert h[j].id == x;
    }
    if x in AddedAfter(h, i) {
      var j :| i < j < |h| && h[j].Add? && h[j].id == x;
      var l := LastAddition(h, j, x);
      RecentMembers(h, x);
      var a :| 0 <= a < |ids| && ids[a] == x;
      if a > k {
        RecentOrder(h, k, a, i, l);
      }
      assert a != k;
    }
  }

  lemma {:induction false} DistinctCount(ids: seq<IdPair>)
    requires Distinct(ids)
    ensures |set x | x in ids| == |ids|
  {
    if ids != [] {
      var n := |ids| - 1;
      DistinctCount(ids[..n]);
      assert ids == ids[..n] + [ids[n]];
      assert (set x | x in ids) == (set x | x in ids[..n]) + {ids[n]};
    }
  }

  /** The place of an ID in the recency list is the number of IDs added since. */
  lemma PlaceIs(h: seq<Op>, k: nat, i: int)
    requires k < |Recent(h)| && LastAddedAt(h, i, Recent(h)[k])
    ensures |AddedAfter(h, i)| == k
  {
    var before := Recent(h)[..k];
    RecentDistinct(h);
    DistinctCount(before);
    forall x
      ensures x in before <==> x in AddedAfter(h, i)
    {
      InFrontAre(h, k, i, x);
    }
    assert AddedAfter(h, i) == set x | x in before;
  }

  lemma TakenIff(ids: seq<IdPair>, n: nat, id: IdPair)
    ensures id in Take(ids, n) <==> exists k :: 0 <= k < n && k < |ids| && ids[k] == id
  {
  }

  /** A key stays until a clear, or until as many other IDs have been added since as the cache has room for. */
  ghost predicate Stays(h: seq<Op>, capacity: nat, i: int, id: IdPair, key: KeyPair) {
    LastAddedAt(h, i, id) && h[i].key == key && Clear !in h[i..] && |AddedAfter(h, i)| < capacity
  }

  /** After any history the cache holds a key for an ID if and only if it was added last for it and stays. */
  lemma CachedIff(h: seq<Op>, capacity: nat, id: IdPair, key: KeyPair)
    ensures id in CachedKeys(h, capacity) && CachedKeys(h, capacity)[id] == key
       <==> exists i :: Stays(h, capacity, i, id, key)
  {
    LastKeysAre(h, id, key);
    RecentMembers(h, id);
    TakenIff(Recent(h), capacity, id);
    if id in CachedKeys(h, capacity) && CachedKeys(h, capacity)[id] == key {
      var i :| LastAddedAt(h, i, id) && h[i].key == key && Clear !in h[i..];
      var k :| 0 <= k < capacity && k < |Recent(h)| && Recent(h)[k] == id;
      PlaceIs(h, k, i);
      assert Stays(h, capacity, i, id, key);
    }
    if i :| Stays(h, capacity, i, id, key) {
      var k :| 0 <= k < |Recent(h)| && Recent(h)[k] == id;
      PlaceIs(h, k, i);
    }
  }

  // ---------- what a history leaves in the cache

  /** The cache never holds more keys than its capacity. */
  lemma CapacityRespected(h: seq<Op>, capacity: nat)
    ensures |CachedKeys(h, capacity)| <= capacity
  {
    var ids := Take(Recent(h), capacity);
    MembersBounded(ids, CachedKeys(h, capacity).Keys);
  }

  lemma {:induction false} MembersBounded(ids: seq<IdPair>, s: set<IdPair>)
    requires forall x :: x in s ==> x in ids
    ensures |s| <= |ids|
  {
    if ids != [] {
      MembersBounded(ids[1..], s - {ids[0]});
    }
  }

  lemma {:induction false} RecentPrefix(a: seq<Op>, b: seq<Op>)
    ensures Recent(b) <= Recent(a + b)
  {
    if b == [] {
      assert a + b == a;
    } else {
      var op, before := b[|b| - 1], b[..|b| - 1];
      assert (a + b)[..|a + b| - 1] == a + before;
      RecentPrefix(a, before);
      if op.Add? {
        RemovePrefix(Recent(before), Recent(a + before), op.id);
      }
    }
  }

  lemma {:induction false} RemovePrefix(p: seq<IdPair>, q: seq<IdPair>, id: IdPair)
    requires p <= q
    ensures Remove(p, id) <= Remove(q, id)
  {
    if p != [] {
      assert p[0] == q[0] && p[1..] <= q[1..];
      RemovePrefix(p[1..], q[1..], id);
    }
  }

  lemma {:induction false} KeysSinceClear(a: seq<Op>, b: seq<Op>)
    ensures LastKeys(a + [Clear] + b) == LastKeys(b)
  {
    var h := a + [Clear] + b;
    if b == [] {
      assert h[|h| - 1] == Clear;
    } else {
      assert h[..|h| - 1] == a + [Clear] + b[..|b| - 1];
      KeysSinceClear(a, b[..|b| - 1]);
    }
  }

  /** IDs that a clear leaves behind in the recency list never cost a later key its place. */
  lemma ClearIsForgotten(a: seq<Op>, b: seq<Op>, capacity: nat)
    ensures CachedKeys(a + [Clear] + b, capacity) == CachedKeys(b, capacity)
  {
    KeysSinceClear(a, b);
    RecentPrefix(a + [Clear], b);
    RecentDistinct(b);
    RecentDistinct(a + [Clear] + b);
    var all, own := Recent(a + [Clear] + b), Recent(b);
    forall id | id in own
      ensures id in Take(all, capacity) <==> id in Take(own, capacity)
    {
      var k :| 0 <= k < |own| && own[k] == id;
      assert all[k] == id;
      if k < capacity {
        assert Take(all, capacity)[k] == id && Take(own, capacity)[k] == id;
      }
    }
  }

  // ---------- what adding does to a list and a map

  /** The list with an ID put in front, before it is capped. */
  function InFront(ids: seq<IdPair>, id: IdPair): seq<IdPair> {
    [id] + Remove(ids, id)
  }

  function AddedList(ids: seq<IdPair>, capacity: nat, id: IdPair): seq<IdPair> {
    var full := InFront(ids, id);
    if |full| > capacity then full[..|full| - 1] else full
  }

  function AddedMap(ids: seq<IdPair>, keys: map<IdPair, KeyPair>, capacity: nat, id: IdPair, key: KeyPair)
    : map<IdPair, KeyPair>
  {
    var full, m := InFront(ids, id), (keys - {id})[id := key];
    if |full| > capacity then m - {full[|full| - 1]} else m
  }

  lemma HistoryAfterAdd(h: seq<Op>, id: IdPair, key: KeyPair)
    ensures Recent(h + [Add(id, key)]) == InFront(Recent(h), id)
    ensures LastKeys(h + [Add(id, key)]) == LastKeys(h)[id := key]
  {
    var h' := h + [Add(id, key)];
    assert h'[..|h'| - 1] == h;
  }

  lemma ListAfterAdd(h: seq<Op>, capacity: nat, id: IdPair, key: KeyPair)
    ensures AddedList(Take(Recent(h), capacity), capacity, id) == Take(Recent(h + [Add(id, key)]), capacity)
    ensures |InFront(Take(Recent(h), capacity), id)| <= capacity + 1 && Distinct(InFront(Take(Recent(h), capacity), id))
  {
    HistoryAfterAdd(h, id, key);
    RecentDistinct(h);
    AddThenCap(Recent(h), capacity, id);
  }

  /** Which keys stay when the capped list gets one more ID. */
  lemma StaysIff(ids: seq<IdPair>, capacity: nat, id: IdPair, x: IdPair)
    requires Distinct(InFront(ids, id)) && |InFront(ids, id)| <= capacity + 1
    ensures var full := InFront(ids, id);
      x in AddedList(ids, capacity, id) <==>
      (x == id || x in ids) && !(|full| > capacity && x == full[|full| - 1])
  {
    var full := InFront(ids, id);
    RemoveMembers(ids, id);
    assert x in full <==> x == id || x in ids;
    if |full| > capacity {
      var last := |full| - 1;
      assert full == full[..last] + [full[last]];
      assert full[last] !in full[..last];
    }
  }

  lemma MapAfterAdd(h: seq<Op>, capacity: nat, id: IdPair, key: KeyPair)
    ensures AddedMap(Take(Recent(h), capacity), CachedKeys(h, capacity), capacity, id, key)
            == CachedKeys(h + [Add(id, key)], capacity)
  {
    var ids, h' := Take(Recent(h), capacity), h + [Add(id, key)];
    var m, m' := AddedMap(ids, CachedKeys(h, capacity), capacity, id, key), CachedKeys(h', capacity);
    HistoryAfterAdd(h, id, key);
    ListAfterAdd(h, capacity, id, key);
    forall x
      ensures x in m <==> x in m'
      ensures x in m ==> m[x] == m'[x]
    {
      StaysIff(ids, capacity, id, x);
    }
  }

  /** Adding to the cache of a history gives the cache of the longer history. */
  lemma AddRefines(h: seq<Op>, capacity: nat, id: IdPair, key: KeyPair)
    ensures AddedList(Take(Recent(h), capacity), capacity, id) == Take(Recent(h + [Add(id, key)]), capacity)
    ensures AddedMap(Take(Recent(h), capacity), CachedKeys(h, capacity), capacity, id, key)
            == CachedKeys(h + [Add(id, key)], capacity)
  {
    ListAfterAdd(h, capacity, id, key);
    MapAfterAdd(h, capacity, id, key);
  }

  // ---------- the cache itself

  class PublicKeyCache {
    var keyMap: map<IdPair, KeyPair>
    var idList: seq<IdPair>
    const capacity: nat
    ghost var history: seq<Op>

    /** The list is the most recent IDs, the map the keys of those added since the last clear. */
    ghost predicate Valid()
      reads this
    {
      idList == Take(Recent(history), capacity) && keyMap == CachedKeys(history, capacity)
    }

    constructor (capacity: nat)
      ensures Valid() && this.capacity == capacity && history == []
    {
      this.capacity, keyMap, idList, history := capacity, map[], [], [];
    }

    method AddPublicKey(id: IdPair, key: KeyPair)
      requires Valid()
      modifies this
      ensures Valid() && history == old(history) + [Add(id, key)]
    {
      AddRefines(history, capacity, id, key);
      keyMap := keyMap - {id};
      idList := Remove(idList, id);
      keyMap := keyMap[id := key];
      idList := [id] + idList;
      if |idList| > capacity {
        var last := idList[|idList| - 1];
        idList := idList[..|idList| - 1];
        keyMap := keyMap - {last};
      }
      history := history + [Add(id, key)];
    }

    /** A hit returns the cached key; a miss asks the source and keeps what it delivers. */
    method GetPublicKey(id: IdPair, fetched: Option<KeyPair>) returns (key: Option<KeyPair>)
      requires Valid()
      modifies this
      ensures Valid()
      ensures key == if id in CachedKeys(old(history), capacity) then Some(CachedKeys(old(history), capacity)[id])
                     else fetched
      ensures history == if id in CachedKeys(old(history), capacity) || fetched.None? then old(history)
                         else old(history) + [Add(id, fetched.value)]
      ensures id in old(keyMap) ==>
                key == Some(old(keyMap)[id]) && keyMap == old(keyMap) && idList == old(idList)
      ensures id !in old(keyMap) ==> key == fetched
      ensures id !in old(keyMap) && fetched.None? ==> keyMap == old(keyMap) && idList == old(idList)
    {
      if id in keyMap {
        key := Some(keyMap[id]);
      } else {
        key := fetched;
        if fetched.Some? {
          AddPublicKey(id, fetched.value);
        }
      }
    }

    /** Empties the map; the list keeps its IDs. */
    method ClearKeys()
      requires Valid()
      modifies this`keyMap, this`history
      ensures Valid() && history == old(history) + [Clear]
    {
      keyMap := map[];
      history := history + [Clear];
      assert history[..|history| - 1] == old(history);
    }
  }
}
