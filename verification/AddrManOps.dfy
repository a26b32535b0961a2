/**
 The address manager's public operations as functions on its tables, and what every run of
 them keeps. Random draws are arguments: a draw from [0, k) is any number modulo k.
 */
module AddrManOps {
  import opened AddrManTables

  // ----- moving an entry to the tried table -----

  /** The first `n` new buckets have been searched for `id` and cleared of it. */
  function ClearBuckets(t: Tables, id: int, n: nat): (u: Tables)
    requires id in t.mapInfo && GridsOk(t) && n <= NEW_BUCKET_COUNT
    ensures id in u.mapInfo && GridsOk(u) && SameHashing(t, u) && u.mapInfo[id].svc == t.mapInfo[id].svc
  {
    if n == 0 then t else
    var u := ClearBuckets(t, id, n - 1);
    var s := NewSlot(u, n - 1, u.mapInfo[id].svc);
    if u.vvNew[s] == id then DropSlot(u, id, s) else u
  }

  /** `u` is `t` with `id` gone from the first `n` new buckets, reference count apart. */
  ghost predicate Cleared(t: Tables, u: Tables, id: int, n: nat)
    requires id in t.mapInfo && id in u.mapInfo
  {
    && u == t.(mapInfo := u.mapInfo, vvNew := u.vvNew)
    && u.mapInfo == t.mapInfo[id := t.mapInfo[id].(nRefCount := u.mapInfo[id].nRefCount)]
    && u.vvNew.Keys == t.vvNew.Keys
    && (forall s :: s in t.vvNew ==> u.vvNew[s] == if t.vvNew[s] == id && s.0 < n then -1 else t.vvNew[s])
  }

  lemma ClearedStep(t: Tables, u: Tables, id: int, n: nat, s0: (int, int))
    requires id in t.mapInfo && id in u.mapInfo && Cleared(t, u, id, n) && id != -1
    requires s0 in t.vvNew && s0.0 == n
    requires forall s :: s in t.vvNew && t.vvNew[s] == id && s.0 == n ==> s == s0
    ensures Cleared(t, if u.vvNew[s0] == id then DropSlot(u, id, s0) else u, id, n + 1)
  {
    var v := if u.vvNew[s0] == id then DropSlot(u, id, s0) else u;
    assert v.mapInfo == t.mapInfo[id := t.mapInfo[id].(nRefCount := v.mapInfo[id].nRefCount)];
    forall s | s in t.vvNew ensures v.vvNew[s] == if t.vvNew[s] == id && s.0 < n + 1 then -1 else t.vvNew[s] {
      assert s != s0 ==> v.vvNew[s] == u.vvNew[s];
    }
  }

  lemma {:induction false} ClearBucketsClears(t: Tables, id: int, n: nat)
    requires GridsOk(t) && NewOk(t) && id in t.mapInfo && id != -1 && n <= NEW_BUCKET_COUNT
    ensures Cleared(t, ClearBuckets(t, id, n), id, n)
  {
    if n > 0 {
      ClearBucketsClears(t, id, n - 1);
      var s0 := NewSlot(t, n - 1, t.mapInfo[id].svc);
      assert s0 in t.vvNew;
      forall s | s in t.vvNew && t.vvNew[s] == id && s.0 == n - 1 ensures s == s0 {}
      hide Buckets, NewOk, Cleared;
      ClearedStep(t, ClearBuckets(t, id, n - 1), id, n - 1, s0);
    } else {
      assert t.mapInfo[id := t.mapInfo[id].(nRefCount := t.mapInfo[id].nRefCount)] == t.mapInfo;
    }
  }

  /** The limbo of a partly cleared table: `id` joins it with its last slot. */
  ghost function LimboWith(u: Tables, id: int, limbo: set<int>): set<int>
    requires id in u.mapInfo
  {
    if u.mapInfo[id].nRefCount == 0 then limbo + {id} else limbo
  }

  lemma {:induction false} ClearBucketsPartial(t: Tables, id: int, n: nat, limbo: set<int>, uncounted: nat)
    requires Partial(t, limbo, uncounted) && id in t.mapInfo && id !in limbo
    requires !t.mapInfo[id].fInTried && n <= NEW_BUCKET_COUNT
    ensures Partial(ClearBuckets(t, id, n), LimboWith(ClearBuckets(t, id, n), id, limbo), uncounted)
  {
    hide AddrsOk, RandomOk, TriedOk, NewOk, CountsOk;
    if n > 0 {
      ClearBucketsPartial(t, id, n - 1, limbo, uncounted);
      var u := ClearBuckets(t, id, n - 1);
      var s := NewSlot(u, n - 1, u.mapInfo[id].svc);
      if u.vvNew[s] == id {
        var l := LimboWith(u, id, limbo);
        DropSlotKeeps(u, id, s, l, uncounted);
        assert l == limbo;
      }
    }
  }

  /** Clearing all buckets leaves `id` in limbo, with no reference left. */
  lemma ClearAllBuckets(t: Tables, id: int, limbo: set<int>, uncounted: nat)
    requires Partial(t, limbo, uncounted) && id in t.mapInfo && id !in limbo && !t.mapInfo[id].fInTried
    ensures var u := ClearBuckets(t, id, NEW_BUCKET_COUNT);
            && u.mapInfo[id].nRefCount == 0
            && Partial(u, limbo + {id}, uncounted)
            && Cleared(t, u, id, NEW_BUCKET_COUNT)
  {
    hide AddrsOk, RandomOk, TriedOk, CountsOk, ClearBuckets;
    var u := ClearBuckets(t, id, NEW_BUCKET_COUNT);
    ClearBucketsClears(t, id, NEW_BUCKET_COUNT);
    ClearBucketsPartial(t, id, NEW_BUCKET_COUNT, limbo, uncounted);
    assert Buckets(u, id) == {};
  }

  /** The new-table slot an entry evicted from tried goes back to, by its first source. */
  function HomeSlot(t: Tables, id: int): (int, int)
    requires id in t.mapInfo
  {
    NewSlot(t, NewBucket(t, t.mapInfo[id].svc, t.mapInfo[id].source), t.mapInfo[id].svc)
  }

  /** `id`, just out of the tried table, takes the free slot `s` as its only new-table slot. */
  function ReturnToNew(t: Tables, id: int, s: (int, int)): Tables
    requires id in t.mapInfo
  {
    SetInfo(t, id, t.mapInfo[id].(nRefCount := 1)).(vvNew := t.vvNew[s := id], nNew := t.nNew + 1)
  }

  /** Empties the occupied tried slot `s`, moving its entry back to the new table. */
  function Evict(t: Tables, s: (int, int), ghost limbo: set<int>, ghost uncounted: nat): Tables
    requires Partial(t, limbo, uncounted) && s in t.vvTried && t.vvTried[s] != -1
  {
    var id := t.vvTried[s];
    var t1 := LeaveTried(t, id, s);
    var home := HomeSlot(t1, id);
    LeaveTriedKeeps(t, id, s, limbo, uncounted);
    ClearNewKeeps(t1, home, limbo + {id}, uncounted + 1);
    ReturnToNew(ClearNew(t1, home), id, home)
  }

  lemma ReturnToNewKeeps(t: Tables, id: int, s: (int, int), limbo: set<int>, uncounted: nat)
    requires Partial(t, limbo, uncounted + 1) && id in limbo && s in t.vvNew && t.vvNew[s] == -1
    requires s == NewSlot(t, s.0, t.mapInfo[id].svc)
    ensures Partial(ReturnToNew(t, id, s), limbo - {id}, uncounted)
  {
    hide AddrsOk, RandomOk, TriedOk, NewOk, IsGrid, IdsOk;
    TakeSlotKeeps(t, id, s, limbo, uncounted + 1);
    RecountKeeps(TakeSlot(t, id, s), limbo - {id}, uncounted + 1, 1);
  }

  /** Only the bookkeeping of `nNew` changes. */
  lemma RecountKeeps(t: Tables, limbo: set<int>, uncounted: nat, delta: int)
    requires Partial(t, limbo, uncounted) && uncounted >= delta
    ensures Partial(t.(nNew := t.nNew + delta), limbo, uncounted - delta)
  {
    hide AddrsOk, RandomOk, EntriesOk, IsGrid, IdsOk;
    var u := t.(nNew := t.nNew + delta);
    assert AddrsOk(u) && RandomOk(u) && EntriesOk(u, limbo) && IdsOk(u) by {
      SameTablesRecount(t, u, limbo);
    }
    assert TriedIds(u) == TriedIds(t) && NewIds(u) == NewIds(t);
    forall x | x in t.mapInfo ensures Buckets(u, x) == Buckets(t, x) {}
  }

  lemma SameTablesRecount(t: Tables, u: Tables, limbo: set<int>)
    requires u == t.(nNew := u.nNew) && AddrsOk(t) && RandomOk(t) && EntriesOk(t, limbo) && IdsOk(t)
    ensures AddrsOk(u) && RandomOk(u) && EntriesOk(u, limbo) && IdsOk(u)
  {
  }

  /** What an eviction from tried slot `s` does: the evicted entry survives in the new table. */
  ghost predicate Evicted(t: Tables, u: Tables, s: (int, int))
    requires s in t.vvTried && t.vvTried[s] in t.mapInfo
  {
    var id := t.vvTried[s];
    var home := HomeSlot(t, id);
    && SameHashing(t, u) && u.vvTried == t.vvTried[s := -1] && u.vvNew == t.vvNew[home := id]
    && u.mapInfo.Keys == t.mapInfo.Keys - SoleOccupant(t, home)
    && id in u.mapInfo && SameInfo(t.mapInfo[id].(fInTried := false, nRefCount := 1), u.mapInfo[id])
    && home in t.vvNew
    && SameEntries(t, u, {id, t.vvNew[home]})
    && (t.vvNew[home] in u.mapInfo ==> t.vvNew[home] in t.mapInfo && LostOneSlot(t, u, t.vvNew[home]))
  }

  ghost predicate LostOneSlot(t: Tables, u: Tables, id: int)
    requires id in t.mapInfo && id in u.mapInfo
  {
    SameInfo(t.mapInfo[id].(nRefCount := t.mapInfo[id].nRefCount - 1), u.mapInfo[id])
  }

  lemma TriedOccupant(t: Tables, s: (int, int), limbo: set<int>, uncounted: nat)
    requires Partial(t, limbo, uncounted) && s in t.vvTried && t.vvTried[s] != -1
    ensures t.vvTried[s] in t.mapInfo && t.mapInfo[t.vvTried[s]].fInTried && t.vvTried[s] !in limbo
  {
  }

  lemma PartialGrids(t: Tables, limbo: set<int>, uncounted: nat)
    requires Partial(t, limbo, uncounted)
    ensures GridsOk(t) && RandomOk(t)
    ensures forall s :: s in t.vvNew && t.vvNew[s] != -1 ==> t.vvNew[s] in t.mapInfo
  {
  }

  /** Leaving the tried table, clearing the home slot and taking it, seen together. */
  lemma EvictEffect(t: Tables, t2: Tables, s: (int, int), id: int, home: (int, int))
    requires s in t.vvTried && id == t.vvTried[s] && id in t.mapInfo && home == HomeSlot(t, id) && home in t.vvNew
    requires t.vvNew[home] != id && id in t2.mapInfo
    requires var t1 := LeaveTried(t, id, s);
             && SameHashing(t1, t2) && t2.vvTried == t1.vvTried && t2.vvNew == t1.vvNew[home := -1]
             && SameEntries(t1, t2, {t1.vvNew[home]})
             && t2.mapInfo.Keys == t1.mapInfo.Keys - SoleOccupant(t1, home)
             && (t1.vvNew[home] in t2.mapInfo ==> t1.vvNew[home] in t1.mapInfo && LostOneSlot(t1, t2, t1.vvNew[home]))
    ensures Evicted(t, ReturnToNew(t2, id, home), s)
  {
  }

  lemma EvictKeeps(t: Tables, s: (int, int), limbo: set<int>, uncounted: nat)
    requires Partial(t, limbo, uncounted) && s in t.vvTried && t.vvTried[s] != -1
    ensures t.vvTried[s] in t.mapInfo && t.mapInfo[t.vvTried[s]].fInTried
    ensures Partial(Evict(t, s, limbo, uncounted), limbo, uncounted)
    ensures Evicted(t, Evict(t, s, limbo, uncounted), s)
  {
    hide Partial, GridsOk, RandomOk, ClearNew, Evicted;
    TriedOccupant(t, s, limbo, uncounted);
    var id := t.vvTried[s];
    var t1 := LeaveTried(t, id, s);
    var home := HomeSlot(t1, id);
    LeaveTriedKeeps(t, id, s, limbo, uncounted);
    PartialGrids(t1, limbo + {id}, uncounted + 1);
    HomeInGrid(t1, id);
    ClearNewKeeps(t1, home, limbo + {id}, uncounted + 1);
    var t2 := ClearNew(t1, home);
    EvictEffect(t, t2, s, id, home);
    ReturnToNewKeeps(t2, id, home, limbo + {id}, uncounted);
    assert limbo + {id} - {id} == limbo;
  }

  lemma HomeInGrid(t: Tables, id: int)
    requires GridsOk(t) && id in t.mapInfo
    ensures HomeSlot(t, id) in t.vvNew
  {
  }

  /** `id` out of every new bucket and out of `nNew`: in limbo, on its way to the tried table. */
  function Detach(t: Tables, id: int): (u: Tables)
    requires GridsOk(t) && id in t.mapInfo
    ensures id in u.mapInfo && GridsOk(u) && SameHashing(t, u) && u.mapInfo[id].svc == t.mapInfo[id].svc
  {
    var u := ClearBuckets(t, id, NEW_BUCKET_COUNT);
    u.(nNew := u.nNew - 1)
  }

  lemma DetachKeeps(t: Tables, id: int)
    requires Structured(t) && id in t.mapInfo && !t.mapInfo[id].fInTried
    ensures var u := Detach(t, id);
            && Partial(u, {id}, 1)
            && u.vvTried == t.vvTried && u.vvNew == Without(t.vvNew, id)
            && u.mapInfo == t.mapInfo[id := t.mapInfo[id].(nRefCount := 0)]
  {
    hide AddrsOk, RandomOk, TriedOk, CountsOk, ClearBuckets, NewOk, Buckets;
    ClearAllBuckets(t, id, {}, 0);
    assert {} + {id} == {id};
    var u := ClearBuckets(t, id, NEW_BUCKET_COUNT);
    RecountKeeps(u, {id}, 0, -1);
    assert u.vvNew == Without(t.vvNew, id);
  }

  ghost function Without(g: Grid, id: int): Grid {
    map s | s in g :: if g[s] == id then -1 else g[s]
  }

  function MakeTried(t: Tables, id: int): Tables
    requires Structured(t) && id in t.mapInfo && !t.mapInfo[id].fInTried
  {
    var t1 := Detach(t, id);
    var s := TriedSlot(t1, t1.mapInfo[id].svc);
    DetachKeeps(t, id);
    if t1.vvTried[s] == -1 then
      EnterTried(t1, id, s)
    else
      EvictKeeps(t1, s, {id}, 1);
      EnterTried(Evict(t1, s, {id}, 1), id, s)
  }

  /**
   Moving an entry to tried keeps the invariant and puts the entry into its own tried slot.
   When that slot was free nothing else changes. When it was taken, the evicted entry survives
   in its home slot of the new table, and the only entry that can disappear is the occupant of
   that slot, when it had no other.
   */
  lemma MakeTriedKeeps(t: Tables, id: int)
    requires Structured(t) && id in t.mapInfo && !t.mapInfo[id].fInTried
    ensures Structured(MakeTried(t, id))
    ensures Moved(t, MakeTried(t, id), id)
  {
    hide AddrsOk, RandomOk, TriedOk, NewOk, CountsOk, Detach, Evict, Moved, Evicted, Without;
    var t1 := Detach(t, id);
    var s := TriedSlot(t1, t1.mapInfo[id].svc);
    DetachKeeps(t, id);
    if t1.vvTried[s] == -1 {
      EnterTriedKeeps(t1, id, s, {id}, 1);
      MovedFree(t, t1, id);
    } else {
      EvictKeeps(t1, s, {id}, 1);
      var t2 := Evict(t1, s, {id}, 1);
      MovedEvict(t, t1, t2, id);
      EnterTriedKeeps(t2, id, s, {id}, 1);
    }
    assert {id} - {id} == {};
  }

  lemma MovedFree(t: Tables, t1: Tables, id: int)
    requires GridsOk(t) && IdsOk(t) && id in t.mapInfo && SameHashing(t, t1)
    requires t1.vvTried == t.vvTried && t1.vvNew == Without(t.vvNew, id)
    requires t1.mapInfo == t.mapInfo[id := t.mapInfo[id].(nRefCount := 0)]
    requires t.vvTried[TriedSlot(t, t.mapInfo[id].svc)] == -1
    ensures Moved(t, EnterTried(t1, id, TriedSlot(t, t.mapInfo[id].svc)), id)
  {
  }

  lemma MovedEvictSlots(t: Tables, t1: Tables, t2: Tables, id: int)
    requires GridsOk(t) && IdsOk(t) && id in t.mapInfo && SameHashing(t, t1)
    requires t1.vvTried == t.vvTried && t1.vvNew == Without(t.vvNew, id)
    requires t1.mapInfo == t.mapInfo[id := t.mapInfo[id].(nRefCount := 0)]
    requires var s := TriedSlot(t, t.mapInfo[id].svc);
             t.vvTried[s] in t.mapInfo && t.vvTried[s] != id && Evicted(t1, t2, s)
    ensures var s := TriedSlot(t, t.mapInfo[id].svc);
            var home := HomeSlot(t, t.vvTried[s]);
            && HomeSlot(t1, t.vvTried[s]) == home && home in t.vvNew
            && SameHashing(t, t2) && t2.vvTried == t.vvTried[s := -1]
            && t2.vvNew == Without(t.vvNew, id)[home := t.vvTried[s]]
            && t1.vvNew[home] != id
            && SoleOccupant(t1, home) ==
               if t1.vvNew[home] in t.mapInfo && t.mapInfo[t1.vvNew[home]].nRefCount == 1 then {t1.vvNew[home]} else {}
    ensures id in t2.mapInfo && SameInfo(t1.mapInfo[id], t2.mapInfo[id])
  {
  }

  lemma MovedEvictEntries(t: Tables, t1: Tables, t2: Tables, u: Tables, id: int, prior: int, occupant: int)
    requires id in t.mapInfo && prior in t.mapInfo && prior != id && occupant != id
    requires t1.mapInfo == t.mapInfo[id := t.mapInfo[id].(nRefCount := 0)]
    requires prior in t2.mapInfo && SameInfo(t1.mapInfo[prior].(fInTried := false, nRefCount := 1), t2.mapInfo[prior])
    requires SameEntries(t1, t2, {prior, occupant})
    requires occupant in t2.mapInfo ==> occupant in t1.mapInfo && LostOneSlot(t1, t2, occupant)
    requires id in t2.mapInfo && u.mapInfo == t2.mapInfo[id := t2.mapInfo[id].(fInTried := true)]
    ensures EvictedFor(t, u, id, prior, occupant)
  {
    forall x | x in t.mapInfo && x !in {id, prior, occupant}
      ensures x in u.mapInfo && SameInfo(t.mapInfo[x], u.mapInfo[x])
    {
      assert SameInfo(t1.mapInfo[x], t2.mapInfo[x]);
    }
  }

  lemma MovedEvict(t: Tables, t1: Tables, t2: Tables, id: int)
    requires GridsOk(t) && IdsOk(t) && id in t.mapInfo && SameHashing(t, t1)
    requires t1.vvTried == t.vvTried && t1.vvNew == Without(t.vvNew, id)
    requires t1.mapInfo == t.mapInfo[id := t.mapInfo[id].(nRefCount := 0)]
    requires var s := TriedSlot(t, t.mapInfo[id].svc);
             t.vvTried[s] in t.mapInfo && t.vvTried[s] != id && Evicted(t1, t2, s)
    ensures id in t2.mapInfo && SameInfo(t1.mapInfo[id], t2.mapInfo[id]) && SameHashing(t, t2)
    ensures t2.vvTried == t.vvTried[TriedSlot(t, t.mapInfo[id].svc) := -1]
    ensures Moved(t, EnterTried(t2, id, TriedSlot(t, t.mapInfo[id].svc)), id)
  {
    MovedEvictSlots(t, t1, t2, id);
    hide SoleOccupant, Without, HomeSlot, IsGrid, IdsOk, EvictedFor, SameEntries, LostOneSlot;
    var s := TriedSlot(t, t.mapInfo[id].svc);
    var prior := t.vvTried[s];
    var occupant := t1.vvNew[HomeSlot(t, prior)];
    MovedEvictEntries(t, t1, t2, EnterTried(t2, id, s), id, prior, occupant);
  }

  /** The entries of `u` after `prior` was evicted to make room for `id`. */
  ghost predicate EvictedFor(t: Tables, u: Tables, id: int, prior: int, occupant: int)
    requires id in t.mapInfo && prior in t.mapInfo
  {
    && prior in u.mapInfo && SameInfo(t.mapInfo[prior].(fInTried := false, nRefCount := 1), u.mapInfo[prior])
    && SameEntries(t, u, {id, prior, occupant})
    && (occupant in u.mapInfo ==> occupant in t.mapInfo && LostOneSlot(t, u, occupant))
  }

  /** What moving `id` to tried does to all tables. */
  ghost predicate Moved(t: Tables, u: Tables, id: int)
    requires GridsOk(t) && id in t.mapInfo
  {
    var s := TriedSlot(t, t.mapInfo[id].svc);
    var prior := t.vvTried[s];
    && u.vvTried == t.vvTried[s := id]
    && id in u.mapInfo && SameInfo(t.mapInfo[id].(fInTried := true, nRefCount := 0), u.mapInfo[id])
    && if prior !in t.mapInfo then
         && u.vvNew == Without(t.vvNew, id)
         && u.mapInfo.Keys == t.mapInfo.Keys
         && SameEntries(t, u, {id})
       else
         var home := HomeSlot(t, prior);
         var occupant := Without(t.vvNew, id)[home];
         && u.vvNew == Without(t.vvNew, id)[home := prior]
         && EvictedFor(t, u, id, prior, occupant)
         && u.mapInfo.Keys ==
            t.mapInfo.Keys - (if occupant in t.mapInfo && t.mapInfo[occupant].nRefCount == 1 then {occupant} else {})
  }

  // ----- the operations -----

  const UINT32 := 0x1_0000_0000
  const DAY := 24 * 60 * 60

  function Max(a: int, b: int): int {
    if a < b then b else a
  }

  predicate IsTerrible(info: AddrInfo, now: int) {
    if info.nLastTry != 0 && info.nLastTry >= now - 60 then false
    else
      || info.nTime > now + 10 * 60
      || info.nTime == 0 || now - info.nTime > HORIZON_DAYS * DAY
      || (info.nLastSuccess == 0 && info.nAttempts >= RETRIES)
      || (now - info.nLastSuccess > MIN_FAIL_DAYS * DAY && info.nAttempts >= MAX_FAILURES)
  }

  /** The manager knows exactly this end point, port included. */
  predicate Knows(t: Tables, svc: Service) {
    && svc.net in t.mapAddr && t.mapAddr[svc.net] in t.mapInfo
    && t.mapInfo[t.mapAddr[svc.net]].svc == svc
  }

  /** Some new bucket holds `id`. */
  predicate InSomeBucket(t: Tables, id: int)
    requires GridsOk(t) && id in t.mapInfo
  {
    exists b :: 0 <= b < NEW_BUCKET_COUNT && t.vvNew[NewSlot(t, b, t.mapInfo[id].svc)] == id
  }

  function MarkGood(t: Tables, svc: Service, nTime: int): Tables
    requires Knows(t, svc)
  {
    var id := t.mapAddr[svc.net];
    SetInfo(t, id, t.mapInfo[id].(nLastSuccess := nTime, nLastTry := nTime, nAttempts := 0)).(nLastGood := nTime)
  }

  function Good(t: Tables, svc: Service, nTime: int): Tables
    requires Structured(t)
  {
    if !Knows(t, svc) then t.(nLastGood := nTime) else
    var id := t.mapAddr[svc.net];
    var t1 := MarkGood(t, svc, nTime);
    MarkGoodKeeps(t, svc, nTime);
    if t1.mapInfo[id].fInTried || !InSomeBucket(t1, id) then t1
    else MakeTried(t1, id)
  }

  lemma LastGoodKeeps(t: Tables, nTime: int, limbo: set<int>, uncounted: nat)
    requires Partial(t, limbo, uncounted)
    ensures Partial(t.(nLastGood := nTime), limbo, uncounted)
  {
    hide AddrsOk, RandomOk, EntriesOk, IsGrid, IdsOk, CountsOk;
    var u := t.(nLastGood := nTime);
    assert AddrsOk(u) && RandomOk(u) && EntriesOk(u, limbo) && IdsOk(u) by {
      LastGoodIndexes(t, u, limbo);
    }
    assert CountsOk(u, uncounted) by {
      LastGoodCounts(t, u, uncounted);
    }
    forall x | x in t.mapInfo ensures Buckets(u, x) == Buckets(t, x) {}
  }

  lemma LastGoodIndexes(t: Tables, u: Tables, limbo: set<int>)
    requires u == t.(nLastGood := u.nLastGood) && AddrsOk(t) && RandomOk(t) && EntriesOk(t, limbo) && IdsOk(t)
    ensures AddrsOk(u) && RandomOk(u) && EntriesOk(u, limbo) && IdsOk(u)
  {
  }

  lemma LastGoodCounts(t: Tables, u: Tables, uncounted: nat)
    requires u == t.(nLastGood := u.nLastGood) && CountsOk(t, uncounted)
    ensures CountsOk(u, uncounted)
  {
    assert TriedIds(u) == TriedIds(t) && NewIds(u) == NewIds(t);
  }

  lemma MarkGoodKeeps(t: Tables, svc: Service, nTime: int)
    requires Structured(t) && Knows(t, svc)
    ensures Structured(MarkGood(t, svc, nTime))
  {
    hide AddrsOk, RandomOk, TriedOk, NewOk, CountsOk, IsGrid, IdsOk;
    var id := t.mapAddr[svc.net];
    var t1 := MarkGood(t, svc, nTime);
    TouchedKeeps(t, t1, id, {}, 0);
  }

  /** The search for a bucket holding an untried entry cannot fail. */
  lemma SearchFinds(t: Tables, id: int)
    requires Structured(t) && id in t.mapInfo && !t.mapInfo[id].fInTried
    ensures InSomeBucket(t, id)
  {
    hide AddrsOk, RandomOk, TriedOk, CountsOk, IdsOk;
    assert |Buckets(t, id)| > 0;
    var b :| b in Buckets(t, id);
    assert t.vvNew[NewSlot(t, b, t.mapInfo[id].svc)] == id;
  }

  lemma GoodKeeps(t: Tables, svc: Service, nTime: int)
    requires Structured(t)
    ensures Structured(Good(t, svc, nTime))
    ensures Knows(t, svc) ==>
              var id := t.mapAddr[svc.net];
              var t1 := MarkGood(t, svc, nTime);
              && Structured(t1)
              && Good(t, svc, nTime) == (if t.mapInfo[id].fInTried then t1 else MakeTried(t1, id))
              && (!t.mapInfo[id].fInTried ==> Moved(t1, MakeTried(t1, id), id))
  {
    hide Partial, MakeTried, Moved, InSomeBucket;
    if Knows(t, svc) {
      var id := t.mapAddr[svc.net];
      MarkGoodKeeps(t, svc, nTime);
      var t1 := MarkGood(t, svc, nTime);
      if !t1.mapInfo[id].fInTried {
        SearchFinds(t1, id);
        MakeTriedKeeps(t1, id);
      }
    } else {
      LastGoodKeeps(t, nTime, {}, 0);
    }
  }

  /** Every entry of `u` was in `t` with the same times, and is newly tried only after a success. */
  ghost predicate TimesFrom(t: Tables, u: Tables) {
    forall x :: x in u.mapInfo ==>
      && x in t.mapInfo
      && u.mapInfo[x].nLastTry == t.mapInfo[x].nLastTry
      && u.mapInfo[x].nLastSuccess == t.mapInfo[x].nLastSuccess
      && (u.mapInfo[x].fInTried ==> t.mapInfo[x].fInTried || t.mapInfo[x].nLastSuccess != 0)
  }

  lemma MovedTimes(t: Tables, u: Tables, id: int)
    requires GridsOk(t) && id in t.mapInfo && Moved(t, u, id) && t.mapInfo[id].nLastSuccess != 0
    ensures TimesFrom(t, u)
  {
    var prior := t.vvTried[TriedSlot(t, t.mapInfo[id].svc)];
    forall x | x in u.mapInfo
      ensures x in t.mapInfo && u.mapInfo[x].nLastTry == t.mapInfo[x].nLastTry
      ensures u.mapInfo[x].nLastSuccess == t.mapInfo[x].nLastSuccess
      ensures u.mapInfo[x].fInTried ==> t.mapInfo[x].fInTried || x == id
    {
      if prior in t.mapInfo {
        var occupant := Without(t.vvNew, id)[HomeSlot(t, prior)];
        assert x !in {id, prior, occupant} ==> SameInfo(t.mapInfo[x], u.mapInfo[x]);
      } else {
        assert x != id ==> SameInfo(t.mapInfo[x], u.mapInfo[x]);
      }
    }
  }

  /** Marking an entry writes its times. */
  lemma MarkedTimes(t: Tables, svc: Service, nTime: int)
    requires TimesOk(t) && Knows(t, svc)
    ensures var id := t.mapAddr[svc.net];
            var t1 := MarkGood(t, svc, nTime);
            && id in t.mapInfo && id in t1.mapInfo && t1.mapInfo[id].nLastSuccess == nTime
            && t1.mapInfo[id].fInTried == t.mapInfo[id].fInTried
            && (TimesOk(t1) <==> nTime >= 0 && (t.mapInfo[id].fInTried ==> nTime != 0))
  {
    var id := t.mapAddr[svc.net];
    var t1 := MarkGood(t, svc, nTime);
    assert forall x :: x in t1.mapInfo && x != id ==> t1.mapInfo[x] == t.mapInfo[x];
  }

  /** An entry moved to the tried table needs the time of a success. */
  lemma TimesAfterMove(t1: Tables, u: Tables, id: int)
    requires id in t1.mapInfo && id in u.mapInfo && u.mapInfo[id].fInTried
    requires u.mapInfo[id].nLastSuccess == t1.mapInfo[id].nLastSuccess
    requires t1.mapInfo[id].nLastSuccess != 0 ==> TimesFrom(t1, u)
    requires t1.mapInfo[id].nLastSuccess >= 0 ==> TimesOk(t1)
    ensures TimesOk(u) <==> t1.mapInfo[id].nLastSuccess > 0
  {
  }

  /** Marking an address good keeps the whole invariant exactly when the clock is past its epoch. */
  lemma GoodTimes(t: Tables, svc: Service, nTime: int)
    requires Structured(t) && TimesOk(t)
    ensures TimesOk(Good(t, svc, nTime)) <==> nTime > 0 || !Knows(t, svc)
  {
    hide Partial, MakeTried;
    GoodKeeps(t, svc, nTime);
    if Knows(t, svc) {
      MarkedTimes(t, svc, nTime);
      var id := t.mapAddr[svc.net];
      var t1 := MarkGood(t, svc, nTime);
      hide MarkGood, Good, Knows, TimesOk, TimesFrom, Moved;
      if !t.mapInfo[id].fInTried {
        StructuredGrids(t1);
        MovedLastSuccess(t1, MakeTried(t1, id), id);
        TimesAfterMove(t1, MakeTried(t1, id), id);
      }
    }
  }

  lemma StructuredGrids(t: Tables)
    requires Structured(t)
    ensures GridsOk(t) && IdsOk(t) && RandomOk(t) && AddrsOk(t)
  {
  }

  lemma MovedLastSuccess(t1: Tables, u: Tables, id: int)
    requires GridsOk(t1) && id in t1.mapInfo && Moved(t1, u, id)
    ensures id in u.mapInfo && u.mapInfo[id].fInTried && u.mapInfo[id].nLastSuccess == t1.mapInfo[id].nLastSuccess
    ensures t1.mapInfo[id].nLastSuccess != 0 ==> TimesFrom(t1, u)
  {
    if t1.mapInfo[id].nLastSuccess != 0 {
      MovedTimes(t1, u, id);
    }
  }

  // ----- adding an address -----

  /** What an announcement does to the entry it is about: a later time, more service bits. */
  function Refreshed(info: AddrInfo, addr: Address, penalty: int, now: int): AddrInfo {
    var interval := if now - addr.nTime < DAY then 60 * 60 else DAY;
    var nTime :=
      if addr.nTime != 0 && (info.nTime == 0 || info.nTime < addr.nTime - interval - penalty)
      then Max(0, addr.nTime - penalty) % UINT32
      else info.nTime;
    info.(nTime := nTime, nServices := info.nServices + addr.nServices)
  }

  /** The announcement of a known address is worth another slot in the new table. */
  predicate WorthAnotherSlot(info: AddrInfo, addr: Address, draw: nat) {
    && addr.nTime != 0 && (info.nTime == 0 || addr.nTime > info.nTime)
    && !info.fInTried
    && info.nRefCount != NEW_BUCKETS_PER_ADDRESS
    && (info.nRefCount > 0 ==> draw % Pow2(info.nRefCount) == 0)
  }

  function Pow2(n: nat): (p: nat)
    ensures p >= 1 && (n > 0 ==> p >= 2)
  {
    if n == 0 then 1 else 2 * Pow2(n - 1)
  }

  /** The occupant `existing` of a wanted slot yields to entry `info`. */
  predicate Yields(existing: AddrInfo, info: AddrInfo, now: int) {
    IsTerrible(existing, now) || (existing.nRefCount > 1 && info.nRefCount == 0)
  }

  /** The slot a source's announcement of entry `id` is for. */
  function AnnouncedSlot(t: Tables, id: int, source: NetAddr): (int, int)
    requires id in t.mapInfo
  {
    NewSlot(t, NewBucket(t, t.mapInfo[id].svc, source), t.mapInfo[id].svc)
  }

  /** Gives `id` the slot for `source` if it is free or its occupant yields; deletes `id` if it has no slot at all. */
  function Place(t: Tables, id: int, source: NetAddr, now: int, ghost limbo: set<int>): Tables
    requires Partial(t, limbo, 0) && id in t.mapInfo
  {
    var s := AnnouncedSlot(t, id, source);
    if t.vvNew[s] == id then t
    else if t.vvNew[s] == -1 || Yields(t.mapInfo[t.vvNew[s]], t.mapInfo[id], now) then
      ClearNewKeeps(t, s, limbo, 0);
      TakeSlot(ClearNew(t, s), id, s)
    else if t.mapInfo[id].nRefCount == 0 then Delete(t, id)
    else t
  }

  /** `u` is `t` after its slot `s` passed to `id`. */
  ghost predicate Seized(t: Tables, u: Tables, id: int, s: (int, int))
    requires s in t.vvNew && id in t.mapInfo && (t.vvNew[s] != -1 ==> t.vvNew[s] in t.mapInfo)
  {
    && u.vvNew == t.vvNew[s := id]
    && id in u.mapInfo && SameInfo(t.mapInfo[id].(nRefCount := t.mapInfo[id].nRefCount + 1), u.mapInfo[id])
    && u.mapInfo.Keys == t.mapInfo.Keys - SoleOccupant(t, s)
    && SameEntries(t, u, {id, t.vvNew[s]})
    && (t.vvNew[s] in u.mapInfo ==> t.vvNew[s] in t.mapInfo && LostOneSlot(t, u, t.vvNew[s]))
  }

  lemma SeizeKeeps(t: Tables, id: int, s: (int, int), limbo: set<int>)
    requires Partial(t, limbo, 0) && limbo <= {id} && id in t.mapInfo
    requires !t.mapInfo[id].fInTried && t.mapInfo[id].nRefCount < NEW_BUCKETS_PER_ADDRESS
    requires s in t.vvNew && t.vvNew[s] != id && s == NewSlot(t, s.0, t.mapInfo[id].svc)
    ensures t.vvNew[s] != -1 ==> t.vvNew[s] in t.mapInfo
    ensures id in ClearNew(t, s).mapInfo
    ensures var u := TakeSlot(ClearNew(t, s), id, s);
            && Structured(u) && Seized(t, u, id, s) && SameHashing(t, u) && u.vvTried == t.vvTried
  {
    hide AddrsOk, TriedOk, CountsOk, ClearNew, Delete, NewOk, IsGrid, EntriesOk, SoleOccupant;
    ClearNewKeeps(t, s, limbo, 0);
    TakeSlotKeeps(ClearNew(t, s), id, s, limbo, 0);
    assert limbo - {id} == {};
  }

  lemma PlaceKeeps(t: Tables, id: int, source: NetAddr, now: int, limbo: set<int>)
    requires Partial(t, limbo, 0) && limbo <= {id} && id in t.mapInfo
    requires !t.mapInfo[id].fInTried && t.mapInfo[id].nRefCount < NEW_BUCKETS_PER_ADDRESS
    ensures Structured(Place(t, id, source, now, limbo))
    ensures Placed(t, Place(t, id, source, now, limbo), id, source, now)
  {
    hide AddrsOk, TriedOk, CountsOk, ClearNew, Delete, Buckets, TakeSlot, IdsOk, Seized;
    var s := AnnouncedSlot(t, id, source);
    if t.vvNew[s] == id {
      UnheldNotLimbo(t, id, s, limbo);
    } else if t.vvNew[s] == -1 || Yields(t.mapInfo[t.vvNew[s]], t.mapInfo[id], now) {
      SeizeKeeps(t, id, s, limbo);
    } else if t.mapInfo[id].nRefCount == 0 {
      DeleteKeeps(t, id, limbo, 0);
      assert limbo - {id} == {};
    } else {
      assert limbo == {};
    }
  }

  lemma UnheldNotLimbo(t: Tables, id: int, s: (int, int), limbo: set<int>)
    requires Partial(t, limbo, 0) && limbo <= {id} && s in t.vvNew && t.vvNew[s] == id && id in t.mapInfo
    ensures limbo == {}
  {
    DropSlotKeeps(t, id, s, limbo, 0);
  }

  /**
   What placing entry `id` does: it gets the slot its announcer selects and at most the slot's
   previous sole occupant is lost, or nothing but `id` itself changes.
   */
  ghost predicate Placed(t: Tables, u: Tables, id: int, source: NetAddr, now: int)
    requires GridsOk(t) && NewOk(t) && id in t.mapInfo
  {
    var s := AnnouncedSlot(t, id, source);
    var occupant := t.vvNew[s];
    && SameHashing(t, u) && u.vvTried == t.vvTried
    && if occupant == id then u == t
       else if occupant == -1 || Yields(t.mapInfo[occupant], t.mapInfo[id], now) then Seized(t, u, id, s)
       else
         var dropped := if t.mapInfo[id].nRefCount == 0 then {id} else {};
         && u.vvNew == t.vvNew
         && u.mapInfo.Keys == t.mapInfo.Keys - dropped
         && SameEntries(t, u, dropped)
  }

  /** A self-announcement carries no penalty. */
  function Penalty(addr: Address, source: NetAddr, penalty: int): int {
    if addr.svc.net == source then 0 else penalty
  }

  function Introduce(t: Tables, addr: Address, source: NetAddr, penalty: int): Tables {
    var t1 := Create(t, addr, source);
    var info := t1.mapInfo[t.nIdCount];
    SetInfo(t1, t.nIdCount, info.(nTime := Max(0, addr.nTime - penalty) % UINT32)).(nNew := t1.nNew + 1)
  }

  lemma IntroduceKeeps(t: Tables, addr: Address, source: NetAddr, penalty: int)
    requires Structured(t) && addr.svc.net !in t.mapAddr
    ensures Partial(Introduce(t, addr, source, penalty), {t.nIdCount}, 0)
  {
    hide AddrsOk, RandomOk, EntriesOk, TriedOk, NewOk, CountsOk, IsGrid, IdsOk;
    CreateKeeps(t, addr, source);
    var t1 := Create(t, addr, source);
    var t2 := SetInfo(t1, t.nIdCount, t1.mapInfo[t.nIdCount].(nTime := Max(0, addr.nTime - penalty) % UINT32));
    TouchedKeeps(t1, t2, t.nIdCount, {t.nIdCount}, 1);
    RecountKeeps(t2, {t.nIdCount}, 1, 1);
  }

  function Refresh(t: Tables, id: int, addr: Address, penalty: int, now: int): Tables
    requires id in t.mapInfo
  {
    SetInfo(t, id, Refreshed(t.mapInfo[id], addr, penalty, now))
  }

  lemma RefreshKeeps(t: Tables, id: int, addr: Address, penalty: int, now: int)
    requires Structured(t) && id in t.mapInfo
    ensures Structured(Refresh(t, id, addr, penalty, now))
  {
    hide AddrsOk, RandomOk, EntriesOk, TriedOk, NewOk, CountsOk, IsGrid, IdsOk;
    TouchedKeeps(t, Refresh(t, id, addr, penalty, now), id, {}, 0);
  }

  function Add(t: Tables, addr: Address, source: NetAddr, nTimePenalty: int, now: int, draw: nat): Tables
    requires Structured(t)
  {
    var penalty := Penalty(addr, source, nTimePenalty);
    if !t.env.routable(addr.svc) then t
    else if addr.svc.net in t.mapAddr then
      var id := t.mapAddr[addr.svc.net];
      var t1 := Refresh(t, id, addr, penalty, now);
      RefreshKeeps(t, id, addr, penalty, now);
      if WorthAnotherSlot(t1.mapInfo[id], addr, draw) then Place(t1, id, source, now, {}) else t1
    else
      IntroduceKeeps(t, addr, source, penalty);
      Place(Introduce(t, addr, source, penalty), t.nIdCount, source, now, {t.nIdCount})
  }

  lemma PlacedTimes(t: Tables, u: Tables, id: int, source: NetAddr, now: int)
    requires GridsOk(t) && NewOk(t) && id in t.mapInfo && Placed(t, u, id, source, now)
    ensures TimesFrom(t, u)
  {
    hide Buckets;
    var occupant := t.vvNew[AnnouncedSlot(t, id, source)];
    forall x | x in u.mapInfo
      ensures x in t.mapInfo && u.mapInfo[x].nLastTry == t.mapInfo[x].nLastTry
      ensures u.mapInfo[x].nLastSuccess == t.mapInfo[x].nLastSuccess
      ensures u.mapInfo[x].fInTried == t.mapInfo[x].fInTried
    {
      assert x !in {id, occupant} ==> SameInfo(t.mapInfo[x], u.mapInfo[x]);
    }
  }

  lemma PlaceTimes(t: Tables, id: int, source: NetAddr, now: int, limbo: set<int>)
    requires Partial(t, limbo, 0) && limbo <= {id} && id in t.mapInfo
    requires !t.mapInfo[id].fInTried && t.mapInfo[id].nRefCount < NEW_BUCKETS_PER_ADDRESS
    ensures Structured(Place(t, id, source, now, limbo))
    ensures TimesOk(t) ==> TimesOk(Place(t, id, source, now, limbo))
  {
    hide AddrsOk, RandomOk, EntriesOk, TriedOk, CountsOk, IdsOk, Place, Placed, IsGrid;
    PlaceKeeps(t, id, source, now, limbo);
    PlacedTimes(t, Place(t, id, source, now, limbo), id, source, now);
  }

  lemma AddKeeps(t: Tables, addr: Address, source: NetAddr, nTimePenalty: int, now: int, draw: nat)
    requires Structured(t)
    ensures Structured(Add(t, addr, source, nTimePenalty, now, draw))
    ensures TimesOk(t) ==> TimesOk(Add(t, addr, source, nTimePenalty, now, draw))
  {
    hide AddrsOk, RandomOk, TriedOk, CountsOk, NewOk, Place, IsGrid;
    var penalty := Penalty(addr, source, nTimePenalty);
    if t.env.routable(addr.svc) {
      if addr.svc.net in t.mapAddr {
        AddrKnown(t, addr.svc.net);
        var id := t.mapAddr[addr.svc.net];
        var t1 := Refresh(t, id, addr, penalty, now);
        RefreshKeeps(t, id, addr, penalty, now);
        assert TimesOk(t) ==> TimesOk(t1);
        if WorthAnotherSlot(t1.mapInfo[id], addr, draw) {
          PlaceTimes(t1, id, source, now, {});
        }
      } else {
        IntroduceKeeps(t, addr, source, penalty);
        var t1 := Introduce(t, addr, source, penalty);
        assert TimesOk(t) ==> TimesOk(t1);
        PlaceTimes(t1, t.nIdCount, source, now, {t.nIdCount});
      }
    }
  }

  lemma AddrKnown(t: Tables, a: NetAddr)
    requires AddrsOk(t) && a in t.mapAddr
    ensures t.mapAddr[a] in t.mapInfo && t.mapInfo[t.mapAddr[a]].svc.net == a
  {
  }

  /** A newcomer ends in exactly one new-table slot, or the tables are as if it had never come. */
  lemma NewcomerOutcome(t: Tables, addr: Address, source: NetAddr, nTimePenalty: int, now: int, draw: nat)
    requires Structured(t) && t.env.routable(addr.svc) && addr.svc.net !in t.mapAddr
    ensures var u := Add(t, addr, source, nTimePenalty, now, draw);
            var id := t.nIdCount;
            if id in u.mapInfo then
              && u.mapInfo[id].svc == addr.svc && u.mapInfo[id].nRefCount == 1 && !u.mapInfo[id].fInTried
              && u.vvNew == t.vvNew[AnnouncedSlot(u, id, source) := id]
            else
              && u.mapInfo.Keys == t.mapInfo.Keys && SameEntries(t, u, {}) && SameSlots(t, u)
  {
    hide AddrsOk, RandomOk, EntriesOk, TriedOk, CountsOk, Place, Buckets, IsTerrible;
    var penalty := Penalty(addr, source, nTimePenalty);
    var id := t.nIdCount;
    IntroduceKeeps(t, addr, source, penalty);
    var t1 := Introduce(t, addr, source, penalty);
    PlaceKeeps(t1, id, source, now, {id});
    var u := Place(t1, id, source, now, {id});
    IdNotHeld(t, AnnouncedSlot(t1, id, source));
    forall x | x in t.mapInfo && id !in u.mapInfo ensures x in u.mapInfo && SameInfo(t.mapInfo[x], u.mapInfo[x]) {
      assert x != id && t1.mapInfo[x] == t.mapInfo[x];
    }
  }

  lemma IdNotHeld(t: Tables, s: (int, int))
    requires Structured(t)
    ensures s in t.vvNew ==> t.vvNew[s] != t.nIdCount
  {
  }

  // ----- statistics -----

  function Attempt(t: Tables, svc: Service, countFailure: bool, nTime: int): Tables {
    if !Knows(t, svc) then t else
    var id := t.mapAddr[svc.net];
    var info := t.mapInfo[id].(nLastTry := nTime);
    SetInfo(t, id,
      if countFailure && info.nLastCountAttempt < t.nLastGood
      then info.(nLastCountAttempt := nTime, nAttempts := info.nAttempts + 1)
      else info)
  }

  function Connected(t: Tables, svc: Service, nTime: int): Tables {
    if !Knows(t, svc) then t else
    var id := t.mapAddr[svc.net];
    if nTime - t.mapInfo[id].nTime > 20 * 60
    then SetInfo(t, id, t.mapInfo[id].(nTime := nTime % UINT32))
    else t
  }

  function SetServices(t: Tables, svc: Service, nServices: ServiceFlags): Tables {
    if !Knows(t, svc) then t else
    var id := t.mapAddr[svc.net];
    SetInfo(t, id, t.mapInfo[id].(nServices := nServices))
  }

  /** Recording an attempt keeps the whole invariant exactly when its time is not negative. */
  lemma AttemptKeeps(t: Tables, svc: Service, countFailure: bool, nTime: int)
    requires Structured(t)
    ensures Structured(Attempt(t, svc, countFailure, nTime))
    ensures TimesOk(t) ==> (TimesOk(Attempt(t, svc, countFailure, nTime)) <==> nTime >= 0 || !Knows(t, svc))
  {
    hide AddrsOk, RandomOk, EntriesOk, TriedOk, NewOk, CountsOk, IsGrid, IdsOk;
    if Knows(t, svc) {
      var id := t.mapAddr[svc.net];
      var u := Attempt(t, svc, countFailure, nTime);
      TouchedKeeps(t, u, id, {}, 0);
      assert u.mapInfo[id].nLastTry == nTime;
    }
  }

  lemma ConnectedKeeps(t: Tables, svc: Service, nTime: int)
    requires Structured(t)
    ensures Structured(Connected(t, svc, nTime))
    ensures TimesOk(t) ==> TimesOk(Connected(t, svc, nTime))
  {
    hide AddrsOk, RandomOk, EntriesOk, TriedOk, NewOk, CountsOk, IsGrid, IdsOk;
    if Knows(t, svc) {
      TouchedKeeps(t, Connected(t, svc, nTime), t.mapAddr[svc.net], {}, 0);
    }
  }

  lemma SetServicesKeeps(t: Tables, svc: Service, nServices: ServiceFlags)
    requires Structured(t)
    ensures Structured(SetServices(t, svc, nServices))
    ensures TimesOk(t) ==> TimesOk(SetServices(t, svc, nServices))
  {
    hide AddrsOk, RandomOk, EntriesOk, TriedOk, NewOk, CountsOk, IsGrid, IdsOk;
    if Knows(t, svc) {
      TouchedKeeps(t, SetServices(t, svc, nServices), t.mapAddr[svc.net], {}, 0);
    }
  }

  // ----- a random sample of good addresses -----

  function SampleLimit(size: nat): nat {
    var nodes := GETADDR_MAX_PCT * size / 100;
    if nodes > GETADDR_MAX then GETADDR_MAX else nodes
  }

  function Draw(picks: seq<nat>, n: nat): nat {
    if n < |picks| then picks[n] else 0
  }

  /** The position a draw selects among those from `n` on. */
  function SamplePos(n: nat, size: nat, draw: nat): (pos: nat)
    requires n < size
    ensures n <= pos < size
  {
    n + draw % (size - n)
  }

  /** Shuffles position `n` onwards, one swap a step, and collects the ids worth returning. */
  function Sample(t: Tables, n: nat, picks: seq<nat>, found: seq<int>, now: int): (Tables, seq<int>)
    requires RandomOk(t) && n <= |t.vRandom|
    decreases |t.vRandom| - n
  {
    if n == |t.vRandom| || |found| >= SampleLimit(|t.vRandom|) then (t, found) else
    var pos := SamplePos(n, |t.vRandom|, Draw(picks, n));
    var t1 := SwapRandom(t, n, pos);
    var id := t1.vRandom[n];
    SwapRandomOk(t, n, pos);
    Sample(t1, n + 1, picks, if IsTerrible(t1.mapInfo[id], now) then found else found + [id], now)
  }

  /** The ids of `ids`, in order, whose entries are not terrible. */
  ghost function Worthy(t: Tables, ids: seq<int>, now: int): seq<int>
    requires forall id :: id in ids ==> id in t.mapInfo
  {
    if ids == [] then [] else
    var last := ids[|ids| - 1];
    Worthy(t, ids[..|ids| - 1], now) + if IsTerrible(t.mapInfo[last], now) then [] else [last]
  }

  lemma {:induction false} WorthyMembers(t: Tables, ids: seq<int>, now: int)
    requires forall id :: id in ids ==> id in t.mapInfo
    ensures forall id :: id in Worthy(t, ids, now) <==> id in ids && !IsTerrible(t.mapInfo[id], now)
  {
    hide IsTerrible;
    if ids != [] {
      var front, last := ids[..|ids| - 1], ids[|ids| - 1];
      WorthyMembers(t, front, now);
      assert forall id :: id in ids <==> id in front || id == last by {
        assert ids == front + [last];
      }
    }
  }

  ghost predicate Distinct(ids: seq<int>) {
    forall i, j :: 0 <= i < j < |ids| ==> ids[i] != ids[j]
  }

  lemma {:induction false} WorthyDistinct(t: Tables, ids: seq<int>, now: int)
    requires (forall id :: id in ids ==> id in t.mapInfo) && Distinct(ids)
    ensures Distinct(Worthy(t, ids, now))
  {
    hide IsTerrible;
    if ids != [] {
      var front, last := ids[..|ids| - 1], ids[|ids| - 1];
      WorthyDistinct(t, front, now);
      WorthyMembers(t, front, now);
      var w := Worthy(t, front, now);
      assert last !in w;
    }
  }

  lemma {:induction false} WorthySame(t: Tables, u: Tables, ids: seq<int>, now: int)
    requires SameTables(t, u) && forall id :: id in ids ==> id in t.mapInfo
    ensures forall id :: id in ids ==> id in u.mapInfo
    ensures Worthy(u, ids, now) == Worthy(t, ids, now)
  {
    if ids != [] {
      WorthySame(t, u, ids[..|ids| - 1], now);
      SameEntry(t, u, ids[|ids| - 1]);
    }
  }

  /** Sampling only permutes the random order, and returns the worthy part of a prefix of it. */
  ghost predicate Sampled(t: Tables, u: Tables, r: seq<int>, now: int) {
    && RandomOk(u) && SameTables(t, u)
    && |r| <= SampleLimit(|t.vRandom|)
    && (exists k :: 0 <= k <= |u.vRandom| && SampledPrefix(u, r, k, now)
                    && (k == |u.vRandom| || |r| == SampleLimit(|t.vRandom|)))
  }

  lemma {:induction false} SampleResult(t: Tables, n: nat, picks: seq<nat>, found: seq<int>, now: int)
    requires RandomOk(t) && n <= |t.vRandom|
    requires found == Worthy(t, t.vRandom[..n], now) && |found| <= SampleLimit(|t.vRandom|)
    ensures Sampled(t, Sample(t, n, picks, found, now).0, Sample(t, n, picks, found, now).1, now)
    decreases |t.vRandom| - n
  {
    hide SampleLimit, Worthy, IsTerrible, Sampled;
    if n == |t.vRandom| || |found| >= SampleLimit(|t.vRandom|) {
      SampledNow(t, n, found, now);
    } else {
      var pos := SamplePos(n, |t.vRandom|, Draw(picks, n));
      var t1 := SwapRandom(t, n, pos);
      SampleStep(t, n, pos, found, now);
      var found1 := if IsTerrible(t1.mapInfo[t1.vRandom[n]], now) then found else found + [t1.vRandom[n]];
      SampleResult(t1, n + 1, picks, found1, now);
      SampledTransitive(t, t1, Sample(t1, n + 1, picks, found1, now).0, Sample(t1, n + 1, picks, found1, now).1, now);
    }
  }

  lemma SampledNow(t: Tables, n: nat, found: seq<int>, now: int)
    requires RandomOk(t) && n <= |t.vRandom| && found == Worthy(t, t.vRandom[..n], now)
    requires |found| <= SampleLimit(|t.vRandom|) && (n == |t.vRandom| || |found| == SampleLimit(|t.vRandom|))
    ensures Sampled(t, t, found, now)
  {
    assert SampledPrefix(t, found, n, now);
  }

  lemma SampledTransitive(t: Tables, t1: Tables, u: Tables, r: seq<int>, now: int)
    requires SameTables(t, t1) && Sampled(t1, u, r, now)
    ensures Sampled(t, u, r, now)
  {
    hide SampledPrefix, SampleLimit, RandomOk;
    SameTablesTransitive(t, t1, u);
  }

  ghost predicate SampledPrefix(u: Tables, r: seq<int>, k: nat, now: int) {
    && k <= |u.vRandom| && (forall id :: id in u.vRandom[..k] ==> id in u.mapInfo)
    && r == Worthy(u, u.vRandom[..k], now)
  }

  lemma SampleStep(t: Tables, n: nat, pos: nat, found: seq<int>, now: int)
    requires RandomOk(t) && n <= pos < |t.vRandom| && found == Worthy(t, t.vRandom[..n], now)
    ensures var t1 := SwapRandom(t, n, pos);
            && RandomOk(t1) && SameTables(t, t1)
            && Worthy(t1, t1.vRandom[..n + 1], now) ==
               (if IsTerrible(t1.mapInfo[t1.vRandom[n]], now) then found else found + [t1.vRandom[n]])
  {
    var t1 := SwapRandom(t, n, pos);
    SwapRandomOk(t, n, pos);
    SwapSameTables(t, n, pos);
    assert t1.vRandom[..n + 1][..n] == t1.vRandom[..n] == t.vRandom[..n];
    hide SameTables, SwapRandom;
    WorthySame(t, t1, t.vRandom[..n], now);
  }

  lemma SameTablesTransitive(t: Tables, u: Tables, v: Tables)
    requires SameTables(t, u) && SameTables(u, v)
    ensures SameTables(t, v)
  {
    forall id | id in t.mapInfo ensures id in v.mapInfo && SameInfo(t.mapInfo[id], v.mapInfo[id]) {
      SameEntry(t, u, id);
      SameEntry(u, v, id);
    }
  }

  /**
   The sample: at most 23% and at most 2500 entries, all known, none terrible, none twice; and
   when it stays below the limit it holds every entry that is not terrible.
   */
  lemma SampleSound(t: Tables, picks: seq<nat>, now: int)
    requires Structured(t)
    ensures var (u, r) := Sample(t, 0, picks, [], now);
            && Structured(u) && SameTables(t, u) && (TimesOk(t) ==> TimesOk(u))
            && |r| <= SampleLimit(|t.vRandom|)
            && (forall id :: id in r ==> id in t.mapInfo && !IsTerrible(t.mapInfo[id], now))
            && Distinct(r)
            && (|r| < SampleLimit(|t.vRandom|) ==>
                  forall id :: id in t.mapInfo && !IsTerrible(t.mapInfo[id], now) ==> id in r)
  {
    hide GridsOk, IdsOk, AddrsOk, EntriesOk, TriedOk, NewOk, CountsOk, Sample, IsTerrible, Sampled;
    assert t.vRandom[..0] == [];
    SampleResult(t, 0, picks, [], now);
    var (u, r) := Sample(t, 0, picks, [], now);
    SampledSame(t, u, r, now);
    SameTablesKeep(t, u, {}, 0);
    if TimesOk(t) {
      SameTablesTimes(t, u);
    }
    SampledSound(t, u, r, now);
  }

  lemma SampledSame(t: Tables, u: Tables, r: seq<int>, now: int)
    requires Sampled(t, u, r, now)
    ensures RandomOk(u) && SameTables(t, u) && |r| <= SampleLimit(|t.vRandom|)
  {
  }

  lemma SameTablesTimes(t: Tables, u: Tables)
    requires SameTables(t, u) && TimesOk(t)
    ensures TimesOk(u)
  {
    forall id | id in u.mapInfo ensures id in t.mapInfo && SameInfo(t.mapInfo[id], u.mapInfo[id]) {
      SameEntry(t, u, id);
    }
  }

  lemma SampledSound(t: Tables, u: Tables, r: seq<int>, now: int)
    requires RandomOk(t) && Sampled(t, u, r, now)
    ensures forall id :: id in r ==> id in t.mapInfo && !IsTerrible(t.mapInfo[id], now)
    ensures Distinct(r)
    ensures |r| < SampleLimit(|t.vRandom|) ==>
              forall id :: id in t.mapInfo && !IsTerrible(t.mapInfo[id], now) ==> id in r
  {
    hide IsTerrible, SampleLimit, Worthy;
    var k :| 0 <= k <= |u.vRandom| && SampledPrefix(u, r, k, now)
             && (k == |u.vRandom| || |r| == SampleLimit(|t.vRandom|));
    RandomDistinct(u);
    WorthyMembers(u, u.vRandom[..k], now);
    WorthyDistinct(u, u.vRandom[..k], now);
    forall id | id in u.mapInfo || id in t.mapInfo
      ensures id in t.mapInfo && id in u.mapInfo && id in u.vRandom
      ensures IsTerrible(u.mapInfo[id], now) == IsTerrible(t.mapInfo[id], now)
    {
      SameEntry(t, u, id);
      TerribleSame(t.mapInfo[id], u.mapInfo[id], now);
    }
    if |r| < SampleLimit(|t.vRandom|) {
      assert u.vRandom[..k] == u.vRandom;
      forall id | id in t.mapInfo && !IsTerrible(t.mapInfo[id], now) ensures id in r {
        assert id in u.vRandom;
      }
    }
  }

  lemma TerribleSame(a: AddrInfo, b: AddrInfo, now: int)
    requires SameInfo(a, b)
    ensures IsTerrible(a, now) == IsTerrible(b, now)
  {
  }

  lemma RandomDistinct(t: Tables)
    requires RandomOk(t)
    ensures Distinct(t.vRandom)
  {
  }

  // ----- whole runs -----

  function EmptyGrid(buckets: nat): Grid {
    map b, p | 0 <= b < buckets && 0 <= p < BUCKET_SIZE :: (b, p) := -1
  }

  /** A freshly constructed manager. */
  function Fresh(env: Env, nKey: nat): Tables {
    Tables(env, 0, map[], map[], [], 0, EmptyGrid(TRIED_BUCKET_COUNT), 0, EmptyGrid(NEW_BUCKET_COUNT), 1, nKey)
  }

  lemma FreshConsistent(env: Env, nKey: nat)
    requires nKey != 0
    ensures Consistent(Fresh(env, nKey))
  {
    hide IsGrid, EmptyGrid;
    EmptyGridOk(TRIED_BUCKET_COUNT);
    EmptyGridOk(NEW_BUCKET_COUNT);
    EmptyConsistent(Fresh(env, nKey));
  }

  /** What clearing makes of a manager: everything is reset but the two maps. */
  function Reset(t: Tables, nKey: nat): Tables {
    Fresh(t.env, nKey).(mapInfo := t.mapInfo, mapAddr := t.mapAddr)
  }

  /** Clearing leaves the indexes in agreement exactly if the two maps were empty. */
  lemma ResetStructured(t: Tables, nKey: nat)
    requires nKey != 0
    ensures Structured(Reset(t, nKey)) <==> t.mapInfo == map[] && t.mapAddr == map[]
  {
    var u := Reset(t, nKey);
    if t.mapInfo == map[] && t.mapAddr == map[] {
      assert u == Fresh(t.env, nKey);
      FreshConsistent(t.env, nKey);
    } else {
      hide IsGrid, EmptyGrid;
      assert (forall id :: id !in t.mapInfo.Keys) ==> t.mapInfo == map[];
      assert (forall a :: a !in t.mapAddr.Keys) ==> t.mapAddr == map[];
    }
  }

  /** Clearing a manager in use leaves the indexes in agreement exactly if it knew no address. */
  lemma ResetUsed(t: Tables, nKey: nat)
    requires Structured(t) && nKey != 0
    ensures Structured(Reset(t, nKey)) <==> t.vRandom == []
  {
    hide Reset, GridsOk, TriedOk, NewOk, CountsOk, EntriesOk;
    ResetStructured(t, nKey);
    assert t.vRandom != [] ==> t.vRandom[0] in t.mapInfo;
    assert t.vRandom == [] ==> forall id :: id !in t.mapInfo.Keys;
    assert (forall id :: id !in t.mapInfo.Keys) ==> t.mapInfo == map[];
    assert t.mapInfo == map[] ==> forall a :: a !in t.mapAddr.Keys;
    assert (forall a :: a !in t.mapAddr.Keys) ==> t.mapAddr == map[];
  }

  /** For instance: one address added to a fresh manager, and clearing it breaks the agreement. */
  lemma ResetAfterAdd(env: Env, nKey: nat, addr: Address, source: NetAddr, nTimePenalty: int, now: int, draw: nat)
    requires nKey != 0 && env.routable(addr.svc)
    ensures Consistent(Fresh(env, nKey))
    ensures !Structured(Reset(Add(Fresh(env, nKey), addr, source, nTimePenalty, now, draw), nKey))
  {
    hide Reset, Structured, TimesOk;
    FreshConsistent(env, nKey);
    var t := Fresh(env, nKey);
    FirstIsKept(t, addr, source, nTimePenalty, now, draw);
    ResetStructured(Add(t, addr, source, nTimePenalty, now, draw), nKey);
  }

  lemma FirstIsKept(t: Tables, addr: Address, source: NetAddr, nTimePenalty: int, now: int, draw: nat)
    requires Structured(t) && t.env.routable(addr.svc) && addr.svc.net !in t.mapAddr
    requires forall s :: s in t.vvNew ==> t.vvNew[s] == -1
    ensures t.nIdCount in Add(t, addr, source, nTimePenalty, now, draw).mapInfo
  {
    hide AddrsOk, RandomOk, EntriesOk, TriedOk, NewOk, CountsOk, IdsOk, Penalty;
    var penalty := Penalty(addr, source, nTimePenalty);
    IntroduceKeeps(t, addr, source, penalty);
    var t1 := Introduce(t, addr, source, penalty);
    assert t1.vvNew == t.vvNew;
    PlaceKeeps(t1, t.nIdCount, source, now, {t.nIdCount});
  }

  lemma EmptyConsistent(t: Tables)
    requires t.nKey != 0 && GridsOk(t) && t.nIdCount == t.nTried == t.nNew == 0
    requires t.mapInfo == map[] && t.mapAddr == map[] && t.vRandom == []
    requires forall s :: s in t.vvNew ==> t.vvNew[s] == -1
    requires forall s :: s in t.vvTried ==> t.vvTried[s] == -1
    ensures Consistent(t)
  {
    hide IsGrid;
    assert TriedIds(t) == {} && NewIds(t) == {};
  }

  lemma EmptyGridOk(buckets: nat)
    ensures IsGrid(EmptyGrid(buckets), buckets)
    ensures forall s :: s in EmptyGrid(buckets) ==> EmptyGrid(buckets)[s] == -1
  {
  }

  datatype Op =
    | AddOp(addr: Address, source: NetAddr, nTimePenalty: int, now: int, draw: nat)
    | GoodOp(svc: Service, nTime: int)
    | AttemptOp(svc: Service, countFailure: bool, nTime: int)
    | ConnectedOp(svc: Service, nTime: int)
    | SetServicesOp(svc: Service, nServices: ServiceFlags)
    | GetAddrOp(picks: seq<nat>, now: int)

  /** The clock readings the program's consistency check expects. */
  predicate Timely(op: Op) {
    && (op.GoodOp? ==> op.nTime > 0)
    && (op.AttemptOp? ==> op.nTime >= 0)
  }

  function Step(t: Tables, op: Op): Tables
    requires Structured(t)
  {
    match op
    case AddOp(addr, source, penalty, now, draw) => Add(t, addr, source, penalty, now, draw)
    case GoodOp(svc, nTime) => Good(t, svc, nTime)
    case AttemptOp(svc, countFailure, nTime) => Attempt(t, svc, countFailure, nTime)
    case ConnectedOp(svc, nTime) => Connected(t, svc, nTime)
    case SetServicesOp(svc, nServices) => SetServices(t, svc, nServices)
    case GetAddrOp(picks, now) => Sample(t, 0, picks, [], now).0
  }

  /** No operation, whatever its clock readings and draws, breaks the agreement of the indexes. */
  lemma StepKeeps(t: Tables, op: Op)
    requires Structured(t)
    ensures Structured(Step(t, op))
    ensures TimesOk(t) && Timely(op) ==> TimesOk(Step(t, op))
  {
    hide Structured, TimesOk, Add, Good, Attempt, Connected, SetServices, Sample, RandomOk;
    match op
    case AddOp(addr, source, penalty, now, draw) => AddKeeps(t, addr, source, penalty, now, draw);
    case GoodOp(svc, nTime) =>
      GoodKeeps(t, svc, nTime);
      if TimesOk(t) { GoodTimes(t, svc, nTime); }
    case AttemptOp(svc, countFailure, nTime) => AttemptKeeps(t, svc, countFailure, nTime);
    case ConnectedOp(svc, nTime) => ConnectedKeeps(t, svc, nTime);
    case SetServicesOp(svc, nServices) => SetServicesKeeps(t, svc, nServices);
    case GetAddrOp(picks, now) => StructuredGrids(t); SampleSound(t, picks, now);
  }

  /** The tables after all of `ops`, in order. */
  function Run(t: Tables, ops: seq<Op>): (u: Tables)
    requires Structured(t)
    ensures Structured(u)
  {
    if ops == [] then t else
    var t1 := Run(t, ops[..|ops| - 1]);
    StepKeeps(t1, ops[|ops| - 1]);
    Step(t1, ops[|ops| - 1])
  }

  /** Every run of timely operations from a fresh manager passes the consistency check. */
  lemma {:induction false} RunsConsistent(env: Env, nKey: nat, ops: seq<Op>)
    requires nKey != 0 && forall op :: op in ops ==> Timely(op)
    ensures Consistent(Fresh(env, nKey)) && Consistent(Run(Fresh(env, nKey), ops))
  {
    hide Structured, TimesOk, Step, Timely, Fresh;
    FreshConsistent(env, nKey);
    if ops != [] {
      var t1 := Run(Fresh(env, nKey), ops[..|ops| - 1]);
      RunsConsistent(env, nKey, ops[..|ops| - 1]);
      StepKeeps(t1, ops[|ops| - 1]);
    }
  }

  // ----- what bucket selection bounds -----

  /** All announcements by one source group, of any addresses, land in the same 64 new buckets. */
  lemma SourceGroupSpread(t: Tables, sourceGroup: nat) returns (buckets: set<int>)
    ensures |buckets| <= NEW_BUCKETS_PER_SOURCE_GROUP
    ensures forall svc: Service, src: NetAddr ::
              t.env.group(src) == sourceGroup ==> NewBucket(t, svc, src) in buckets
  {
    var f := (r: nat) => t.env.cheapHash(NewSourceHash(t.nKey, sourceGroup, r)) % NEW_BUCKET_COUNT;
    buckets := set r: nat | r < NEW_BUCKETS_PER_SOURCE_GROUP :: f(r);
    ImageSize(f, NEW_BUCKETS_PER_SOURCE_GROUP);
    forall svc: Service, src: NetAddr | t.env.group(src) == sourceGroup ensures NewBucket(t, svc, src) in buckets {
      var r := t.env.cheapHash(NewAddrHash(t.nKey, t.env.group(svc.net), sourceGroup)) % NEW_BUCKETS_PER_SOURCE_GROUP;
      assert f(r) == NewBucket(t, svc, src);
    }
  }

  /** All addresses of one group share the same 8 tried buckets. */
  lemma GroupSpread(t: Tables, group: nat) returns (buckets: set<int>)
    ensures |buckets| <= TRIED_BUCKETS_PER_GROUP
    ensures forall svc: Service :: t.env.group(svc.net) == group ==> TriedBucket(t, svc) in buckets
  {
    var f := (r: nat) => t.env.cheapHash(TriedGroupHash(t.nKey, group, r)) % TRIED_BUCKET_COUNT;
    buckets := set r: nat | r < TRIED_BUCKETS_PER_GROUP :: f(r);
    ImageSize(f, TRIED_BUCKETS_PER_GROUP);
    forall svc: Service | t.env.group(svc.net) == group ensures TriedBucket(t, svc) in buckets {
      var r := t.env.cheapHash(TriedAddrHash(t.nKey, svc)) % TRIED_BUCKETS_PER_GROUP;
      assert f(r) == TriedBucket(t, svc);
    }
  }

  lemma {:induction false} ImageSize(f: nat -> int, n: nat)
    ensures |set r: nat | r < n :: f(r)| <= n
  {
    if n > 0 {
      ImageSize(f, n - 1);
      assert (set r: nat | r < n :: f(r)) == (set r: nat | r < n - 1 :: f(r)) + {f(n - 1)};
    }
  }
}
