/**
 The program's own consistency check, run over the object: it passes exactly the tables whose
 entries, counters and slots agree, so it passes in every state the operations reach.
 */
module AddrManCheck {
  import opened AddrManTables
  import opened AddrMan
  import Ops = AddrManOps
  import opened RoundTrips = AddrManRoundTrip

  // ----- what the check demands -----

  /** The demands on one entry. A missing address reads as id zero, as the map's index operator gives it. */
  predicate EntryChecked(t: Tables, id: int)
    requires id in t.mapInfo
  {
    var info := t.mapInfo[id];
    && (info.fInTried ==> info.nLastSuccess != 0 && info.nRefCount == 0)
    && (!info.fInTried ==> 0 < info.nRefCount <= NEW_BUCKETS_PER_ADDRESS)
    && (if info.svc.net in t.mapAddr then t.mapAddr[info.svc.net] else 0) == id
    && 0 <= info.nRandomPos < |t.vRandom| && t.vRandom[info.nRandomPos] == id
    && info.nLastTry >= 0 && info.nLastSuccess >= 0
  }

  predicate EntriesChecked(t: Tables) {
    forall id :: id in t.mapInfo ==> EntryChecked(t, id)
  }

  ghost predicate Checked(t: Tables)
    requires GridsOk(t)
  {
    && |t.vRandom| == t.nTried + t.nNew
    && EntriesChecked(t)
    && |TriedIds(t)| == t.nTried && |NewIds(t)| == t.nNew
    && TriedOk(t) && NewOk(t)
    && t.nKey != 0
  }

  /** The invariant between operations passes the check. */
  lemma ConsistentPasses(t: Tables)
    requires Consistent(t)
    ensures GridsOk(t) && Checked(t)
  {
    hide TriedOk, NewOk, GridsOk, TriedIds, NewIds;
  }

  /** What passes the check, with ids and addresses in order, satisfies the invariant. */
  lemma PassingConsistent(t: Tables)
    requires GridsOk(t) && Checked(t) && IdsOk(t) && AddrsOk(t)
    ensures Consistent(t)
  {
    hide TriedOk, NewOk, GridsOk, AddrsOk, IdsOk;
    assert TriedIds(t) + NewIds(t) == t.mapInfo.Keys && TriedIds(t) !! NewIds(t);
    assert |t.mapInfo.Keys| == |t.vRandom|;
    RandomBack(t);
  }

  /** Every run of timely operations from a fresh manager ends in tables that pass the check. */
  lemma RunsPass(env: Env, nKey: nat, ops: seq<Ops.Op>)
    requires nKey != 0 && forall op :: op in ops ==> Ops.Timely(op)
    ensures Consistent(Ops.Fresh(env, nKey))
    ensures var t := Ops.Run(Ops.Fresh(env, nKey), ops); GridsOk(t) && Checked(t)
  {
    hide Checked, GridsOk, Ops.Run, Ops.Fresh;
    Ops.RunsConsistent(env, nKey, ops);
    ConsistentPasses(Ops.Run(Ops.Fresh(env, nKey), ops));
  }

  /** As many entries as positions, each at its own position: every position is taken. */
  lemma RandomBack(t: Tables)
    requires EntriesChecked(t) && |t.mapInfo.Keys| == |t.vRandom|
    ensures RandomOk(t)
  {
    hide GridsOk;
    var taken := set id | id in t.mapInfo :: t.mapInfo[id].nRandomPos;
    forall id | id in t.mapInfo
      ensures 0 <= t.mapInfo[id].nRandomPos < |t.vRandom| && t.vRandom[t.mapInfo[id].nRandomPos] == id
    {
      assert EntryChecked(t, id);
    }
    PositionsSize(t, t.mapInfo.Keys);
    forall i | 0 <= i < |t.vRandom| ensures t.vRandom[i] in t.mapInfo && t.mapInfo[t.vRandom[i]].nRandomPos == i {
      AllTaken(taken, |t.vRandom|, i);
    }
  }

  lemma {:induction false} PositionsSize(t: Tables, ids: set<int>)
    requires ids <= t.mapInfo.Keys
    requires forall id :: id in t.mapInfo ==> 0 <= t.mapInfo[id].nRandomPos < |t.vRandom| && t.vRandom[t.mapInfo[id].nRandomPos] == id
    ensures |set id | id in ids :: t.mapInfo[id].nRandomPos| == |ids|
    decreases ids
  {
    if ids != {} {
      assert (forall x :: x !in ids) ==> ids == {};
      var id :| id in ids;
      PositionsSize(t, ids - {id});
      var rest := set x | x in ids - {id} :: t.mapInfo[x].nRandomPos;
      assert (set x | x in ids :: t.mapInfo[x].nRandomPos) == rest + {t.mapInfo[id].nRandomPos};
    }
  }

  lemma {:induction false} AtMost(s: set<int>, n: nat)
    requires forall i :: i in s ==> 0 <= i < n
    ensures |s| <= n
  {
    if n == 0 {
      assert forall i :: i !in s;
      assert s == {};
    } else {
      AtMost(s - {n - 1}, n - 1);
    }
  }

  /** As many numbers below `n` as there are: all of them. */
  lemma AllTaken(s: set<int>, n: nat, i: int)
    requires (forall x :: x in s ==> 0 <= x < n) && |s| == n && 0 <= i < n
    ensures i in s
  {
    if i !in s {
      AtMost(s + {i}, n);
    }
  }

  // ----- the check itself -----

  lemma StateGrids(m: CAddrMan)
    requires m.Valid()
    ensures GridsOk(m.State())
  {
  }

  method Check(m: CAddrMan) returns (code: int)
    requires m.Valid() && IdsOk(m.State())
    ensures GridsOk(m.State()) && (code == 0 <==> Checked(m.State()))
  {
    hide TriedOk, NewOk, GridsOk, EntriesChecked, IdsOk, TriedIds, NewIds, GridOf;
    StateGrids(m);
    if |m.vRandom| != m.nTried + m.nNew {
      return -7;
    }
    var setTried, mapNew;
    code, setTried, mapNew := CheckEntries(m);
    if code != 0 {
      return;
    }
    if |setTried| != m.nTried {
      return -9;
    }
    if |mapNew| != m.nNew {
      return -10;
    }
    code, setTried := CheckTried(m, setTried);
    if code != 0 {
      return;
    }
    code, mapNew := CheckNew(m, mapNew);
    if code != 0 {
      return;
    }
    if |setTried| != 0 {
      return -13;
    }
    if |mapNew| != 0 {
      return -15;
    }
    if m.nKey == 0 {
      return -16;
    }
    return 0;
  }

  /** The reference counts of the entries outside the tried table. */
  ghost function RefCounts(t: Tables): map<int, int> { map id | id in NewIds(t) :: t.mapInfo[id].nRefCount }

  method CheckEntries(m: CAddrMan) returns (code: int, setTried: set<int>, mapNew: map<int, int>)
    ensures code == 0 <==> EntriesChecked(m.State())
    ensures code == 0 ==> setTried == TriedIds(m.State()) && mapNew == RefCounts(m.State()) && |mapNew| == |NewIds(m.State())|
  {
    hide GridOf, EntryChecked;
    ghost var t := m.State();
    setTried, mapNew := {}, map[];
    var rest := m.mapInfo.Keys;
    while rest != {}
      invariant rest <= m.mapInfo.Keys && forall id :: id in m.mapInfo.Keys - rest ==> EntryChecked(t, id)
      invariant setTried == TriedIds(t) - rest && mapNew == map id | id in NewIds(t) - rest :: t.mapInfo[id].nRefCount
    {
      assert (forall x :: x !in rest) ==> rest == {};
      var n :| n in rest;
      code := CheckEntry(m, n);
      if code != 0 {
        return;
      }
      if m.mapInfo[n].fInTried {
        setTried := setTried + {n};
      } else {
        mapNew := mapNew[n := m.mapInfo[n].nRefCount];
      }
      rest := rest - {n};
    }
    code := 0;
    assert mapNew.Keys == NewIds(t);
  }

  method CheckEntry(m: CAddrMan, n: int) returns (code: int)
    requires n in m.mapInfo
    ensures code == 0 <==> EntryChecked(m.State(), n)
  {
    hide GridOf;
    var info := m.mapInfo[n];
    if info.fInTried {
      if info.nLastSuccess == 0 {
        return -1;
      }
      if info.nRefCount != 0 {
        return -2;
      }
    } else {
      if info.nRefCount < 0 || info.nRefCount > NEW_BUCKETS_PER_ADDRESS {
        return -3;
      }
      if info.nRefCount == 0 {
        return -4;
      }
    }
    if (if info.svc.net in m.mapAddr then m.mapAddr[info.svc.net] else 0) != n {
      return -5;
    }
    if info.nRandomPos < 0 || info.nRandomPos >= |m.vRandom| || m.vRandom[info.nRandomPos] != n {
      return -14;
    }
    if info.nLastTry < 0 {
      return -6;
    }
    if info.nLastSuccess < 0 {
      return -8;
    }
    return 0;
  }

  // ----- the tried table -----

  ghost predicate TriedSlotOk(t: Tables, s: (int, int))
    requires s in t.vvTried
  {
    t.vvTried[s] != -1 ==>
      && t.vvTried[s] in t.mapInfo && t.mapInfo[t.vvTried[s]].fInTried
      && s == TriedSlot(t, t.mapInfo[t.vvTried[s]].svc)
  }

  /** The tried entries not met in a slot before position `p` of bucket `b`. */
  ghost function Unmet(t: Tables, b: int, p: int): set<int>
    requires GridsOk(t)
  {
    set id | id in TriedIds(t) && !(Before(TriedSlot(t, t.mapInfo[id].svc), b, p)
                                    && t.vvTried[TriedSlot(t, t.mapInfo[id].svc)] == id)
  }

  /** Every slot before position `p` of bucket `b` is in order, and `left` is what has not been met. */
  ghost predicate TriedMet(t: Tables, b: int, p: int, left: set<int>)
    requires GridsOk(t)
  {
    left == Unmet(t, b, p) && forall s :: s in t.vvTried && Before(s, b, p) ==> TriedSlotOk(t, s)
  }

  lemma TriedStarts(t: Tables)
    requires GridsOk(t)
    ensures TriedMet(t, 0, 0, TriedIds(t))
  {
  }

  lemma TriedNextBucket(t: Tables, b: int, left: set<int>)
    requires GridsOk(t) && TriedMet(t, b, BUCKET_SIZE, left)
    ensures TriedMet(t, b + 1, 0, left)
  {
  }

  /** Passing a slot whose occupant is still to be met, and belongs there. */
  lemma TriedStep(t: Tables, b: int, p: int, left: set<int>)
    requires GridsOk(t) && IdsOk(t) && (b, p) in t.vvTried && TriedMet(t, b, p, left)
    ensures t.vvTried[(b, p)] == -1 ==> TriedMet(t, b, p + 1, left)
    ensures t.vvTried[(b, p)] != -1 ==>
              (TriedSlotOk(t, (b, p)) <==>
                 t.vvTried[(b, p)] in left && (b, p) == TriedSlot(t, t.mapInfo[t.vvTried[(b, p)]].svc))
    ensures t.vvTried[(b, p)] != -1 && TriedSlotOk(t, (b, p)) ==> TriedMet(t, b, p + 1, left - {t.vvTried[(b, p)]})
  {
    var id := t.vvTried[(b, p)];
    forall s | s in t.vvTried && Before(s, b, p + 1) && s != (b, p) ensures Before(s, b, p) {
    }
  }

  /** At the end: every tried entry was met exactly if the table is in order. */
  lemma TriedEnds(t: Tables, left: set<int>)
    requires GridsOk(t) && TriedMet(t, TRIED_BUCKET_COUNT, 0, left)
    ensures left == {} <==> TriedOk(t)
  {
    forall id | id in left ensures t.vvTried[TriedSlot(t, t.mapInfo[id].svc)] != id {
      assert id in Unmet(t, TRIED_BUCKET_COUNT, 0);
    }
    if left == {} {
      forall id | id in t.mapInfo && t.mapInfo[id].fInTried ensures t.vvTried[TriedSlot(t, t.mapInfo[id].svc)] == id {
        assert id !in Unmet(t, TRIED_BUCKET_COUNT, 0);
      }
      forall s | s in t.vvTried ensures TriedSlotOk(t, s) {
      }
    }
  }

  lemma TriedFails(t: Tables, s: (int, int))
    requires GridsOk(t) && s in t.vvTried && !TriedSlotOk(t, s)
    ensures !TriedOk(t)
  {
  }

  method CheckTried(m: CAddrMan, setTried: set<int>) returns (code: int, left: set<int>)
    requires m.Valid() && GridsOk(m.State()) && IdsOk(m.State()) && setTried == TriedIds(m.State())
    ensures code != 0 ==> !TriedOk(m.State())
    ensures code == 0 ==> (left == {} <==> TriedOk(m.State()))
  {
    hide GridsOk, TriedOk, IdsOk, TriedIds, TriedMet, TriedSlot, GridOf, TriedSlotOk;
    ghost var t := m.State();
    left := setTried;
    TriedStarts(t);
    for n := 0 to TRIED_BUCKET_COUNT
      invariant TriedMet(t, n, 0, left)
    {
      code, left := CheckTriedBucket(m, n, left);
      if code != 0 {
        return;
      }
      TriedNextBucket(t, n, left);
    }
    code := 0;
    TriedEnds(t, left);
  }

  method CheckTriedBucket(m: CAddrMan, n: nat, setTried: set<int>) returns (code: int, left: set<int>)
    requires m.Valid() && n < TRIED_BUCKET_COUNT && GridsOk(m.State()) && IdsOk(m.State())
    requires TriedMet(m.State(), n, 0, setTried)
    ensures code != 0 ==> !TriedOk(m.State())
    ensures code == 0 ==> TriedMet(m.State(), n, BUCKET_SIZE, left)
  {
    hide GridsOk, TriedOk, IdsOk, TriedMet, GridOf, TriedSlotOk;
    ghost var t := m.State();
    left := setTried;
    for i := 0 to BUCKET_SIZE
      invariant TriedMet(t, n, i, left)
    {
      GridAt(m.vvTried, n, i);
      TriedStep(t, n, i, left);
      var id := m.vvTried[n, i];
      if id != -1 {
        if !TriedSlotOk(t, (n, i)) {
          TriedFails(t, (n, i));
        }
        if id !in left {
          return -11, left;
        }
        KnownTried(t, n, i, left, id);
        if m.TriedBucketOf(m.mapInfo[id].svc) != n {
          return -17, left;
        }
        if m.BucketPosition(false, n, m.mapInfo[id].svc) != i {
          return -18, left;
        }
        left := left - {id};
      }
    }
    code := 0;
  }

  lemma KnownTried(t: Tables, b: int, p: int, left: set<int>, id: int)
    requires GridsOk(t) && TriedMet(t, b, p, left) && id in left
    ensures id in t.mapInfo
  {
  }

  // ----- the new table -----

  ghost predicate NewSlotOk(t: Tables, s: (int, int))
    requires s in t.vvNew
  {
    t.vvNew[s] != -1 ==>
      && t.vvNew[s] in t.mapInfo && !t.mapInfo[t.vvNew[s]].fInTried
      && s == NewSlot(t, s.0, t.mapInfo[t.vvNew[s]].svc)
  }

  /** What is left of an entry's reference count, once its slots before position `p` of bucket `b` are taken off. */
  ghost function Owed(t: Tables, id: int, b: int, p: int): int
    requires GridsOk(t) && id in t.mapInfo
  {
    t.mapInfo[id].nRefCount - |BucketsBefore(t, id, b, p)|
  }

  /** Every slot before position `p` of bucket `b` is in order, and `left` is what the entries are still owed. */
  ghost predicate NewMet(t: Tables, b: int, p: int, left: map<int, int>)
    requires GridsOk(t)
  {
    && (forall id :: id in NewIds(t) ==> if id in left then left[id] == Owed(t, id, b, p) > 0 else Owed(t, id, b, p) == 0)
    && (forall id :: id in left ==> id in NewIds(t))
    && (forall s :: s in t.vvNew && Before(s, b, p) ==> NewSlotOk(t, s))
  }

  lemma NewStarts(t: Tables)
    requires GridsOk(t) && EntriesChecked(t)
    ensures NewMet(t, 0, 0, RefCounts(t))
  {
    forall id | id in NewIds(t) ensures BucketsBefore(t, id, 0, 0) == {} && t.mapInfo[id].nRefCount > 0 {
      assert EntryChecked(t, id);
    }
  }

  lemma NewNextBucket(t: Tables, b: int, left: map<int, int>)
    requires GridsOk(t) && NewMet(t, b, BUCKET_SIZE, left)
    ensures NewMet(t, b + 1, 0, left)
  {
    forall id | id in NewIds(t) ensures Owed(t, id, b + 1, 0) == Owed(t, id, b, BUCKET_SIZE) {
      assert BucketsBefore(t, id, b + 1, 0) == BucketsBefore(t, id, b, BUCKET_SIZE);
    }
    forall s | s in t.vvNew && Before(s, b + 1, 0) ensures NewSlotOk(t, s) {
      assert Before(s, b, BUCKET_SIZE);
    }
  }

  /** Passing a slot: its occupant is owed one less, the others as much as before. */
  lemma OwedStep(t: Tables, id: int, b: int, p: int)
    requires GridsOk(t) && (b, p) in t.vvNew && NewSlotOk(t, (b, p)) && id in t.mapInfo && id != -1
    ensures Owed(t, id, b, p + 1) == Owed(t, id, b, p) - if t.vvNew[(b, p)] == id then 1 else 0
  {
    hide GridsOk, NewSlot, BucketsBefore;
    BucketsBeforeStep(t, id, b, p);
  }

  lemma NewStep(t: Tables, b: int, p: int, left: map<int, int>, after: map<int, int>)
    requires GridsOk(t) && IdsOk(t) && (b, p) in t.vvNew && NewMet(t, b, p, left) && NewSlotOk(t, (b, p))
    requires var id := t.vvNew[(b, p)];
             if id == -1 then after == left
             else id in left && after == if left[id] == 1 then left - {id} else left[id := left[id] - 1]
    ensures NewMet(t, b, p + 1, after)
  {
    hide GridsOk, NewSlotOk, Owed, NewSlot;
    forall id | id in NewIds(t)
      ensures if id in after then after[id] == Owed(t, id, b, p + 1) > 0 else Owed(t, id, b, p + 1) == 0
    {
      OwedStep(t, id, b, p);
    }
    forall s | s in t.vvNew && Before(s, b, p + 1) ensures NewSlotOk(t, s) {
      assert s == (b, p) || Before(s, b, p);
    }
  }

  lemma NewFails(t: Tables, s: (int, int))
    requires GridsOk(t) && s in t.vvNew && !NewSlotOk(t, s)
    ensures !NewOk(t)
  {
  }

  /** An occupant that is owed nothing has a slot too many. */
  lemma NewSurplus(t: Tables, b: int, p: int, left: map<int, int>)
    requires GridsOk(t) && IdsOk(t) && (b, p) in t.vvNew && NewMet(t, b, p, left)
    requires t.vvNew[(b, p)] != -1 && t.vvNew[(b, p)] !in left
    ensures !NewOk(t)
  {
    var id := t.vvNew[(b, p)];
    if NewSlotOk(t, (b, p)) {
      OwedStep(t, id, b, p);
      assert BucketsBefore(t, id, b, p + 1) <= Buckets(t, id);
      SubsetSize(BucketsBefore(t, id, b, p + 1), Buckets(t, id));
    } else {
      NewFails(t, (b, p));
    }
  }

  lemma KnownNew(t: Tables, b: int, p: int, left: map<int, int>, id: int)
    requires GridsOk(t) && NewMet(t, b, p, left) && id in left
    ensures id in t.mapInfo && !t.mapInfo[id].fInTried
  {
  }

  lemma NewEnds(t: Tables, left: map<int, int>)
    requires GridsOk(t) && NewMet(t, NEW_BUCKET_COUNT, 0, left)
    ensures left == map[] <==> NewOk(t)
  {
    forall id | id in NewIds(t) ensures Owed(t, id, NEW_BUCKET_COUNT, 0) == t.mapInfo[id].nRefCount - |Buckets(t, id)| {
      assert BucketsBefore(t, id, NEW_BUCKET_COUNT, 0) == Buckets(t, id);
    }
    forall s | s in t.vvNew ensures NewSlotOk(t, s) {
    }
    if left != map[] {
      assert (forall x :: x !in left.Keys) ==> left == map[];
    }
  }

  method CheckNew(m: CAddrMan, mapNew: map<int, int>) returns (code: int, left: map<int, int>)
    requires m.Valid() && GridsOk(m.State()) && IdsOk(m.State()) && EntriesChecked(m.State())
    requires mapNew == RefCounts(m.State())
    ensures code != 0 ==> !NewOk(m.State())
    ensures code == 0 ==> (|left| == 0 <==> NewOk(m.State()))
  {
    hide GridsOk, NewOk, IdsOk, NewMet, EntriesChecked, GridOf, RefCounts;
    ghost var t := m.State();
    left := mapNew;
    NewStarts(t);
    for n := 0 to NEW_BUCKET_COUNT
      invariant NewMet(t, n, 0, left)
    {
      code, left := CheckNewBucket(m, n, left);
      if code != 0 {
        return;
      }
      NewNextBucket(t, n, left);
    }
    code := 0;
    NewEnds(t, left);
  }

  method CheckNewBucket(m: CAddrMan, n: nat, mapNew: map<int, int>) returns (code: int, left: map<int, int>)
    requires m.Valid() && n < NEW_BUCKET_COUNT && GridsOk(m.State()) && IdsOk(m.State())
    requires NewMet(m.State(), n, 0, mapNew)
    ensures code != 0 ==> !NewOk(m.State())
    ensures code == 0 ==> NewMet(m.State(), n, BUCKET_SIZE, left)
  {
    hide GridsOk, NewOk, IdsOk, NewMet, GridOf;
    ghost var t := m.State();
    left := mapNew;
    for i := 0 to BUCKET_SIZE
      invariant NewMet(t, n, i, left)
    {
      GridAt(m.vvNew, n, i);
      ghost var before := left;
      var id := m.vvNew[n, i];
      if id != -1 {
        if id !in left {
          NewSurplus(t, n, i, left);
          return -12, left;
        }
        KnownNew(t, n, i, left, id);
        if m.BucketPosition(true, n, m.mapInfo[id].svc) != i {
          NewFails(t, (n, i));
          return -19, left;
        }
        left := if left[id] - 1 == 0 then left - {id} else left[id := left[id] - 1];
      }
      NewStep(t, n, i, before, left);
    }
    code := 0;
  }
}
