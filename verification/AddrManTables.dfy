/**
 The address manager's indexes as one value: the five indexes (entries by id, ids by
 network address, the random-order vector, the "new" and the "tried" tables), the two
 counters, and every internal operation as a function from tables to tables.

 Hashing is uninterpreted: `Env.cheapHash` is any function of what the program feeds to its
 hash writer, so every result below holds for every hash function and every secret key.
 */
module AddrManTables {

  const TRIED_BUCKET_COUNT := 256
  const NEW_BUCKET_COUNT := 1024
  const BUCKET_SIZE := 64
  const TRIED_BUCKETS_PER_GROUP := 8
  const NEW_BUCKETS_PER_SOURCE_GROUP := 64
  const NEW_BUCKETS_PER_ADDRESS := 8
  const HORIZON_DAYS := 30
  const RETRIES := 3
  const MAX_FAILURES := 10
  const MIN_FAIL_DAYS := 7
  const GETADDR_MAX_PCT := 23
  const GETADDR_MAX := 2500

  /** An IP address; `mapAddr` is keyed by it, without the port. */
  datatype NetAddr = NetAddr(ip: nat)

  datatype Service = Service(net: NetAddr, port: nat)

  /** The service bits that are set. */
  type ServiceFlags = set<nat>

  /** An announced address: end point, service bits, and the (32-bit) time it was last seen. */
  datatype Address = Address(svc: Service, nServices: ServiceFlags, nTime: nat)

  datatype AddrInfo = AddrInfo(
    svc: Service, nServices: ServiceFlags, nTime: nat, source: NetAddr,
    nLastTry: int, nLastCountAttempt: int, nLastSuccess: int, nAttempts: int,
    nRefCount: int, fInTried: bool, nRandomPos: int)

  /** What the program feeds to its hash writer, by call site. */
  datatype HashInput =
    | TriedAddrHash(key: nat, svc: Service)
    | TriedGroupHash(key: nat, group: nat, choice: nat)
    | NewAddrHash(key: nat, group: nat, sourceGroup: nat)
    | NewSourceHash(key: nat, sourceGroup: nat, choice: nat)
    | PositionHash(key: nat, isNew: bool, bucket: int, svc: Service)

  datatype Env = Env(cheapHash: HashInput -> nat, group: NetAddr -> nat, routable: Service -> bool)

  /** A bucket table: (bucket, position) to an entry id, or -1 for a free slot. */
  type Grid = map<(int, int), int>

  datatype Tables = Tables(
    env: Env, nIdCount: int,
    mapInfo: map<int, AddrInfo>, mapAddr: map<NetAddr, int>, vRandom: seq<int>,
    nTried: int, vvTried: Grid, nNew: int, vvNew: Grid,
    nLastGood: int, nKey: nat)

  // ----- bucket choice -----

  function TriedBucket(t: Tables, svc: Service): (b: int)
    ensures 0 <= b < TRIED_BUCKET_COUNT
  {
    var hash1 := t.env.cheapHash(TriedAddrHash(t.nKey, svc));
    t.env.cheapHash(TriedGroupHash(t.nKey, t.env.group(svc.net), hash1 % TRIED_BUCKETS_PER_GROUP)) % TRIED_BUCKET_COUNT
  }

  function NewBucket(t: Tables, svc: Service, src: NetAddr): (b: int)
    ensures 0 <= b < NEW_BUCKET_COUNT
  {
    var sourceGroup := t.env.group(src);
    var hash1 := t.env.cheapHash(NewAddrHash(t.nKey, t.env.group(svc.net), sourceGroup));
    t.env.cheapHash(NewSourceHash(t.nKey, sourceGroup, hash1 % NEW_BUCKETS_PER_SOURCE_GROUP)) % NEW_BUCKET_COUNT
  }

  function Position(t: Tables, isNew: bool, bucket: int, svc: Service): (p: int)
    ensures 0 <= p < BUCKET_SIZE
  {
    t.env.cheapHash(PositionHash(t.nKey, isNew, bucket, svc)) % BUCKET_SIZE
  }

  function TriedSlot(t: Tables, svc: Service): (int, int) {
    var b := TriedBucket(t, svc);
    (b, Position(t, false, b, svc))
  }

  function NewSlot(t: Tables, bucket: int, svc: Service): (int, int) {
    (bucket, Position(t, true, bucket, svc))
  }

  // ----- the invariant -----

  ghost predicate IsGrid(g: Grid, buckets: int) {
    forall s :: s in g <==> 0 <= s.0 < buckets && 0 <= s.1 < BUCKET_SIZE
  }

  ghost predicate GridsOk(t: Tables) {
    IsGrid(t.vvTried, TRIED_BUCKET_COUNT) && IsGrid(t.vvNew, NEW_BUCKET_COUNT)
  }

  /** The new buckets that hold `id`. */
  ghost function Buckets(t: Tables, id: int): set<int>
    requires GridsOk(t) && id in t.mapInfo
  {
    set b | 0 <= b < NEW_BUCKET_COUNT && t.vvNew[NewSlot(t, b, t.mapInfo[id].svc)] == id
  }

  ghost function TriedIds(t: Tables): set<int> {
    set id | id in t.mapInfo && t.mapInfo[id].fInTried
  }

  ghost function NewIds(t: Tables): set<int> {
    set id | id in t.mapInfo && !t.mapInfo[id].fInTried
  }

  ghost predicate IdsOk(t: Tables) {
    && t.nIdCount >= 0
    && (forall id :: id in t.mapInfo ==> 0 <= id < t.nIdCount)
  }

  ghost predicate AddrsOk(t: Tables) {
    && (forall id :: id in t.mapInfo ==>
          t.mapInfo[id].svc.net in t.mapAddr && t.mapAddr[t.mapInfo[id].svc.net] == id)
    && (forall a :: a in t.mapAddr ==>
          t.mapAddr[a] in t.mapInfo && t.mapInfo[t.mapAddr[a]].svc.net == a)
  }

  ghost predicate RandomOk(t: Tables) {
    && (forall id :: id in t.mapInfo ==>
          0 <= t.mapInfo[id].nRandomPos < |t.vRandom| && t.vRandom[t.mapInfo[id].nRandomPos] == id)
    && (forall i :: 0 <= i < |t.vRandom| ==>
          t.vRandom[i] in t.mapInfo && t.mapInfo[t.vRandom[i]].nRandomPos == i)
  }

  /** `limbo` are the entries that are, for the moment, in neither table. */
  ghost predicate EntriesOk(t: Tables, limbo: set<int>) {
    && (forall id :: id in t.mapInfo ==>
          var info := t.mapInfo[id];
          && (info.fInTried ==> info.nRefCount == 0 && id !in limbo)
          && (!info.fInTried ==> 0 <= info.nRefCount <= NEW_BUCKETS_PER_ADDRESS)
          && (!info.fInTried ==> (info.nRefCount == 0 <==> id in limbo)))
    && (forall id :: id in limbo ==> id in t.mapInfo)
  }

  ghost predicate TriedOk(t: Tables)
    requires GridsOk(t)
  {
    && (forall s :: s in t.vvTried && t.vvTried[s] != -1 ==>
          && t.vvTried[s] in t.mapInfo
          && t.mapInfo[t.vvTried[s]].fInTried
          && s == TriedSlot(t, t.mapInfo[t.vvTried[s]].svc))
    && (forall id :: id in t.mapInfo && t.mapInfo[id].fInTried ==>
          t.vvTried[TriedSlot(t, t.mapInfo[id].svc)] == id)
  }

  ghost predicate NewOk(t: Tables)
    requires GridsOk(t)
  {
    && (forall s :: s in t.vvNew && t.vvNew[s] != -1 ==>
          && t.vvNew[s] in t.mapInfo
          && !t.mapInfo[t.vvNew[s]].fInTried
          && s == NewSlot(t, s.0, t.mapInfo[t.vvNew[s]].svc))
    && (forall id :: id in t.mapInfo && !t.mapInfo[id].fInTried ==>
          t.mapInfo[id].nRefCount == |Buckets(t, id)|)
  }

  ghost predicate CountsOk(t: Tables, uncounted: nat) {
    && t.nTried == |TriedIds(t)|
    && t.nNew + uncounted == |NewIds(t)|
    && |t.vRandom| == t.nTried + t.nNew + uncounted
  }

  /**
   The invariant in the middle of an operation: the entries of `limbo` are in no table, and
   `uncounted` of the entries outside the tried table are not yet (or no longer) in `nNew`.
   */
  ghost predicate Partial(t: Tables, limbo: set<int>, uncounted: nat) {
    && t.nKey != 0
    && GridsOk(t)
    && IdsOk(t) && AddrsOk(t) && RandomOk(t) && EntriesOk(t, limbo)
    && TriedOk(t) && NewOk(t) && CountsOk(t, uncounted)
  }

  /** The indexes agree: the invariant between operations, the clock-dependent part aside. */
  ghost predicate Structured(t: Tables) {
    Partial(t, {}, 0)
  }

  ghost predicate TimesOk(t: Tables) {
    forall id :: id in t.mapInfo ==>
      && t.mapInfo[id].nLastTry >= 0 && t.mapInfo[id].nLastSuccess >= 0
      && (t.mapInfo[id].fInTried ==> t.mapInfo[id].nLastSuccess != 0)
  }

  /** Everything the program's own consistency check demands. */
  ghost predicate Consistent(t: Tables) {
    Structured(t) && TimesOk(t)
  }

  // ----- internal operations -----

  function FreshInfo(addr: Address, source: NetAddr, pos: int): AddrInfo {
    AddrInfo(addr.svc, addr.nServices, addr.nTime, source, 0, 0, 0, 0, 0, false, pos)
  }

  function Create(t: Tables, addr: Address, source: NetAddr): Tables {
    t.(nIdCount := t.nIdCount + 1,
       mapInfo := t.mapInfo[t.nIdCount := FreshInfo(addr, source, |t.vRandom|)],
       mapAddr := t.mapAddr[addr.svc.net := t.nIdCount],
       vRandom := t.vRandom + [t.nIdCount])
  }

  function SetInfo(t: Tables, id: int, info: AddrInfo): Tables {
    t.(mapInfo := t.mapInfo[id := info])
  }

  function SwapRandom(t: Tables, p1: int, p2: int): Tables
    requires 0 <= p1 < |t.vRandom| && 0 <= p2 < |t.vRandom|
    requires t.vRandom[p1] in t.mapInfo && t.vRandom[p2] in t.mapInfo
  {
    if p1 == p2 then t else
    var id1, id2 := t.vRandom[p1], t.vRandom[p2];
    var m1 := t.mapInfo[id1 := t.mapInfo[id1].(nRandomPos := p2)];
    t.(mapInfo := m1[id2 := m1[id2].(nRandomPos := p1)],
       vRandom := t.vRandom[p1 := id2][p2 := id1])
  }

  function Delete(t: Tables, id: int): Tables
    requires RandomOk(t) && id in t.mapInfo
  {
    var pos := t.mapInfo[id].nRandomPos;
    var t1 := SwapRandom(t, pos, |t.vRandom| - 1);
    t1.(vRandom := t1.vRandom[..|t1.vRandom| - 1],
        mapAddr := t1.mapAddr - {t.mapInfo[id].svc.net},
        mapInfo := t1.mapInfo - {id},
        nNew := t1.nNew - 1)
  }

  function ClearNew(t: Tables, s: (int, int)): Tables
    requires RandomOk(t) && s in t.vvNew
    requires t.vvNew[s] != -1 ==> t.vvNew[s] in t.mapInfo
  {
    if t.vvNew[s] == -1 then t else
    var id := t.vvNew[s];
    var info := t.mapInfo[id].(nRefCount := t.mapInfo[id].nRefCount - 1);
    var t1 := SetInfo(t, id, info).(vvNew := t.vvNew[s := -1]);
    if info.nRefCount == 0 then Delete(t1, id) else t1
  }

  // ----- what the internal operations keep -----

  /** The same entry up to its position in the random-order vector. */
  ghost predicate SameInfo(a: AddrInfo, b: AddrInfo) {
    b == a.(nRandomPos := b.nRandomPos)
  }

  /** `u` still has every entry of `t` outside `except`. */
  ghost predicate SameEntries(t: Tables, u: Tables, except: set<int>) {
    forall id :: id in t.mapInfo && id !in except ==> id in u.mapInfo && SameInfo(t.mapInfo[id], u.mapInfo[id])
  }

  /** `u` has the entries of `t`, in the same tables, up to random positions. */
  ghost predicate SameTables(t: Tables, u: Tables) {
    && u.env == t.env && u.nKey == t.nKey && u.nIdCount == t.nIdCount
    && u.vvNew == t.vvNew && u.vvTried == t.vvTried
    && u.nNew == t.nNew && u.nTried == t.nTried && u.nLastGood == t.nLastGood
    && u.mapAddr == t.mapAddr && |u.vRandom| == |t.vRandom|
    && u.mapInfo.Keys == t.mapInfo.Keys
    && SameEntries(t, u, {})
  }

  lemma SameEntry(t: Tables, u: Tables, id: int)
    requires SameTables(t, u) && (id in t.mapInfo || id in u.mapInfo)
    ensures id in t.mapInfo && id in u.mapInfo && SameInfo(t.mapInfo[id], u.mapInfo[id])
  {
  }

  lemma SameBuckets(t: Tables, u: Tables, id: int)
    requires GridsOk(t) && SameTables(t, u) && id in t.mapInfo
    ensures id in u.mapInfo && Buckets(u, id) == Buckets(t, id)
  {
    SameEntry(t, u, id);
  }

  lemma SameTablesEntries(t: Tables, u: Tables, limbo: set<int>)
    requires SameTables(t, u) && IdsOk(t) && AddrsOk(t) && EntriesOk(t, limbo)
    ensures IdsOk(u) && AddrsOk(u) && EntriesOk(u, limbo)
  {
    forall id | id in u.mapInfo ensures id in t.mapInfo && SameInfo(t.mapInfo[id], u.mapInfo[id]) {
      SameEntry(t, u, id);
    }
  }

  lemma SameTablesTried(t: Tables, u: Tables)
    requires SameTables(t, u) && GridsOk(t) && TriedOk(t)
    ensures GridsOk(u) && TriedOk(u)
  {
    forall id | id in u.mapInfo ensures id in t.mapInfo && SameInfo(t.mapInfo[id], u.mapInfo[id]) {
      SameEntry(t, u, id);
    }
  }

  lemma SameTablesNew(t: Tables, u: Tables)
    requires SameTables(t, u) && GridsOk(t) && NewOk(t)
    ensures GridsOk(u) && NewOk(u)
  {
    forall id | id in u.mapInfo
      ensures id in t.mapInfo && SameInfo(t.mapInfo[id], u.mapInfo[id]) && Buckets(u, id) == Buckets(t, id)
    {
      SameEntry(t, u, id);
      SameBuckets(t, u, id);
    }
  }

  lemma SameTablesCounts(t: Tables, u: Tables, uncounted: nat)
    requires SameTables(t, u) && CountsOk(t, uncounted)
    ensures CountsOk(u, uncounted)
  {
    forall id | id in u.mapInfo ensures id in t.mapInfo && SameInfo(t.mapInfo[id], u.mapInfo[id]) {
      SameEntry(t, u, id);
    }
    assert TriedIds(u) == TriedIds(t);
    assert NewIds(u) == NewIds(t);
  }

  lemma SameTablesKeep(t: Tables, u: Tables, limbo: set<int>, uncounted: nat)
    requires Partial(t, limbo, uncounted) && SameTables(t, u) && RandomOk(u)
    ensures Partial(u, limbo, uncounted)
  {
    hide GridsOk, IdsOk, AddrsOk, RandomOk, EntriesOk, TriedOk, NewOk, CountsOk;
    SameTablesEntries(t, u, limbo);
    SameTablesTried(t, u);
    SameTablesNew(t, u);
    SameTablesCounts(t, u, uncounted);
  }

  lemma SwapRandomOk(t: Tables, p1: int, p2: int)
    requires RandomOk(t) && 0 <= p1 < |t.vRandom| && 0 <= p2 < |t.vRandom|
    ensures RandomOk(SwapRandom(t, p1, p2))
  {
    var u := SwapRandom(t, p1, p2);
    if p1 != p2 {
      assert t.vRandom[p1] != t.vRandom[p2];
      forall i | 0 <= i < |u.vRandom|
        ensures u.vRandom[i] in u.mapInfo && u.mapInfo[u.vRandom[i]].nRandomPos == i
      {
      }
      forall id | id in u.mapInfo
        ensures 0 <= u.mapInfo[id].nRandomPos < |u.vRandom| && u.vRandom[u.mapInfo[id].nRandomPos] == id
      {
      }
    }
  }

  lemma SwapSameTables(t: Tables, p1: int, p2: int)
    requires RandomOk(t) && 0 <= p1 < |t.vRandom| && 0 <= p2 < |t.vRandom|
    ensures SameTables(t, SwapRandom(t, p1, p2))
  {
    var u := SwapRandom(t, p1, p2);
    assert u.mapInfo.Keys == t.mapInfo.Keys;
    if p1 != p2 {
      var id1, id2 := t.vRandom[p1], t.vRandom[p2];
      assert id1 != id2;
      assert SameInfo(t.mapInfo[id1], u.mapInfo[id1]) && SameInfo(t.mapInfo[id2], u.mapInfo[id2]);
      forall id | id in t.mapInfo && id != id1 && id != id2 ensures u.mapInfo[id] == t.mapInfo[id] {}
    }
  }

  lemma SwapKeeps(t: Tables, p1: int, p2: int, limbo: set<int>, uncounted: nat)
    requires Partial(t, limbo, uncounted)
    requires 0 <= p1 < |t.vRandom| && 0 <= p2 < |t.vRandom|
    ensures Partial(SwapRandom(t, p1, p2), limbo, uncounted)
    ensures SameTables(t, SwapRandom(t, p1, p2))
  {
    hide GridsOk, IdsOk, AddrsOk, EntriesOk, TriedOk, NewOk, CountsOk, SwapRandom, SameTables;
    SwapRandomOk(t, p1, p2);
    SwapSameTables(t, p1, p2);
    SameTablesKeep(t, SwapRandom(t, p1, p2), limbo, uncounted);
  }

  // ----- changing one entry -----

  /** `u` is `t` with the one entry `id` changed, but not its address or its random position. */
  ghost predicate Edited(t: Tables, u: Tables, id: int) {
    && u.env == t.env && u.nKey == t.nKey && u.nIdCount == t.nIdCount
    && u.mapAddr == t.mapAddr && u.vRandom == t.vRandom
    && u.mapInfo.Keys == t.mapInfo.Keys && id in t.mapInfo
    && u.mapInfo[id].svc == t.mapInfo[id].svc
    && u.mapInfo[id].nRandomPos == t.mapInfo[id].nRandomPos
    && (forall x :: x in t.mapInfo && x != id ==> u.mapInfo[x] == t.mapInfo[x])
  }

  lemma EditedIndexes(t: Tables, u: Tables, id: int)
    requires Edited(t, u, id) && IdsOk(t) && AddrsOk(t) && RandomOk(t)
    ensures IdsOk(u) && AddrsOk(u) && RandomOk(u)
  {
    forall x | x in u.mapInfo
      ensures u.mapInfo[x].svc == t.mapInfo[x].svc && u.mapInfo[x].nRandomPos == t.mapInfo[x].nRandomPos
    {
    }
  }

  lemma EditedTried(t: Tables, u: Tables, id: int)
    requires Edited(t, u, id) && GridsOk(t) && TriedOk(t) && u.vvTried == t.vvTried && GridsOk(u)
    requires u.mapInfo[id].fInTried == t.mapInfo[id].fInTried
    ensures TriedOk(u)
  {
    forall x | x in u.mapInfo
      ensures u.mapInfo[x].svc == t.mapInfo[x].svc && u.mapInfo[x].fInTried == t.mapInfo[x].fInTried
    {
    }
  }

  lemma EditedCounts(t: Tables, u: Tables, id: int, uncounted: nat)
    requires Edited(t, u, id) && CountsOk(t, uncounted) && u.nNew == t.nNew && u.nTried == t.nTried
    requires u.mapInfo[id].fInTried == t.mapInfo[id].fInTried
    ensures CountsOk(u, uncounted)
  {
    forall x | x in u.mapInfo ensures u.mapInfo[x].fInTried == t.mapInfo[x].fInTried {
      assert x in t.mapInfo;
    }
    assert TriedIds(u) == TriedIds(t);
    assert NewIds(u) == NewIds(t);
  }

  /** Only the statistics of entry `id` change. */
  ghost predicate Touched(t: Tables, u: Tables, id: int) {
    && Edited(t, u, id) && u.vvNew == t.vvNew && u.vvTried == t.vvTried
    && u.nNew == t.nNew && u.nTried == t.nTried
    && u.mapInfo[id].fInTried == t.mapInfo[id].fInTried
    && u.mapInfo[id].nRefCount == t.mapInfo[id].nRefCount
    && u.mapInfo[id].source == t.mapInfo[id].source
  }

  lemma TouchedNew(t: Tables, u: Tables, id: int)
    requires Touched(t, u, id) && GridsOk(t) && NewOk(t)
    ensures GridsOk(u) && NewOk(u)
  {
    forall x | x in u.mapInfo
      ensures u.mapInfo[x].svc == t.mapInfo[x].svc && u.mapInfo[x].fInTried == t.mapInfo[x].fInTried
      ensures u.mapInfo[x].nRefCount == t.mapInfo[x].nRefCount && Buckets(u, x) == Buckets(t, x)
    {
    }
  }

  lemma TouchedKeeps(t: Tables, u: Tables, id: int, limbo: set<int>, uncounted: nat)
    requires Partial(t, limbo, uncounted) && Touched(t, u, id)
    ensures Partial(u, limbo, uncounted)
  {
    hide IdsOk, AddrsOk, RandomOk, TriedOk, NewOk, CountsOk, IsGrid;
    EditedIndexes(t, u, id);
    EditedTried(t, u, id);
    TouchedNew(t, u, id);
    EditedCounts(t, u, id, uncounted);
  }

  // ----- slots of the new table -----

  /** `id` gives up slot `s`. */
  function DropSlot(t: Tables, id: int, s: (int, int)): Tables
    requires id in t.mapInfo
  {
    SetInfo(t, id, t.mapInfo[id].(nRefCount := t.mapInfo[id].nRefCount - 1)).(vvNew := t.vvNew[s := -1])
  }

  /** `id` takes slot `s`. */
  function TakeSlot(t: Tables, id: int, s: (int, int)): Tables
    requires id in t.mapInfo
  {
    SetInfo(t, id, t.mapInfo[id].(nRefCount := t.mapInfo[id].nRefCount + 1)).(vvNew := t.vvNew[s := id])
  }

  lemma SlotEdited(t: Tables, id: int, s: (int, int))
    requires id in t.mapInfo
    ensures Edited(t, DropSlot(t, id, s), id) && Edited(t, TakeSlot(t, id, s), id)
  {
  }

  lemma DropSlotBuckets(t: Tables, id: int, s: (int, int))
    requires GridsOk(t) && NewOk(t) && id in t.mapInfo && s in t.vvNew && t.vvNew[s] == id && id != -1
    ensures GridsOk(DropSlot(t, id, s))
    ensures s.0 in Buckets(t, id) && Buckets(DropSlot(t, id, s), id) == Buckets(t, id) - {s.0}
    ensures forall x :: x in t.mapInfo && x != id && x != -1 ==> Buckets(DropSlot(t, id, s), x) == Buckets(t, x)
  {
    var u := DropSlot(t, id, s);
    forall b | 0 <= b < NEW_BUCKET_COUNT && b != s.0
      ensures u.vvNew[NewSlot(t, b, t.mapInfo[id].svc)] == t.vvNew[NewSlot(t, b, t.mapInfo[id].svc)]
    {
    }
  }

  lemma DropSlotNew(t: Tables, id: int, s: (int, int))
    requires IdsOk(t) && GridsOk(t) && NewOk(t) && id in t.mapInfo && s in t.vvNew && t.vvNew[s] == id
    ensures GridsOk(DropSlot(t, id, s)) && NewOk(DropSlot(t, id, s))
    ensures t.mapInfo[id].nRefCount >= 1 && !t.mapInfo[id].fInTried
  {
    DropSlotBuckets(t, id, s);
  }

  lemma DropSlotEntries(t: Tables, id: int, s: (int, int), limbo: set<int>)
    requires EntriesOk(t, limbo) && id in t.mapInfo && t.mapInfo[id].nRefCount >= 1 && !t.mapInfo[id].fInTried
    ensures id !in limbo
    ensures EntriesOk(DropSlot(t, id, s), if t.mapInfo[id].nRefCount == 1 then limbo + {id} else limbo)
  {
  }

  lemma DropSlotKeeps(t: Tables, id: int, s: (int, int), limbo: set<int>, uncounted: nat)
    requires Partial(t, limbo, uncounted) && id in t.mapInfo && s in t.vvNew && t.vvNew[s] == id
    ensures id !in limbo && t.mapInfo[id].nRefCount >= 1
    ensures Partial(DropSlot(t, id, s), if t.mapInfo[id].nRefCount == 1 then limbo + {id} else limbo, uncounted)
  {
    hide AddrsOk, RandomOk, TriedOk, NewOk, CountsOk, IsGrid, IdsOk, EntriesOk;
    SlotEdited(t, id, s);
    DropSlotNew(t, id, s);
    DropSlotEntries(t, id, s, limbo);
    EditedIndexes(t, DropSlot(t, id, s), id);
    EditedTried(t, DropSlot(t, id, s), id);
    EditedCounts(t, DropSlot(t, id, s), id, uncounted);
  }

  lemma TakeSlotBuckets(t: Tables, id: int, s: (int, int))
    requires GridsOk(t) && NewOk(t) && id in t.mapInfo && s in t.vvNew && t.vvNew[s] == -1
    requires s == NewSlot(t, s.0, t.mapInfo[id].svc) && id != -1
    ensures GridsOk(TakeSlot(t, id, s))
    ensures s.0 !in Buckets(t, id) && Buckets(TakeSlot(t, id, s), id) == Buckets(t, id) + {s.0}
    ensures forall x :: x in t.mapInfo && x != id && x != -1 ==> Buckets(TakeSlot(t, id, s), x) == Buckets(t, x)
  {
    var u := TakeSlot(t, id, s);
    forall b | 0 <= b < NEW_BUCKET_COUNT && b != s.0
      ensures u.vvNew[NewSlot(t, b, t.mapInfo[id].svc)] == t.vvNew[NewSlot(t, b, t.mapInfo[id].svc)]
    {
    }
  }

  lemma TakeSlotNew(t: Tables, id: int, s: (int, int))
    requires IdsOk(t) && GridsOk(t) && NewOk(t) && id in t.mapInfo && s in t.vvNew && t.vvNew[s] == -1
    requires s == NewSlot(t, s.0, t.mapInfo[id].svc) && !t.mapInfo[id].fInTried
    ensures GridsOk(TakeSlot(t, id, s)) && NewOk(TakeSlot(t, id, s))
  {
    hide Buckets, IsGrid;
    TakeSlotBuckets(t, id, s);
    var u := TakeSlot(t, id, s);
    forall x | x in u.mapInfo && !u.mapInfo[x].fInTried ensures u.mapInfo[x].nRefCount == |Buckets(u, x)| {
      assert x != -1;
    }
  }

  lemma TakeSlotEntries(t: Tables, id: int, s: (int, int), limbo: set<int>)
    requires EntriesOk(t, limbo) && id in t.mapInfo && !t.mapInfo[id].fInTried
    requires t.mapInfo[id].nRefCount < NEW_BUCKETS_PER_ADDRESS
    ensures EntriesOk(TakeSlot(t, id, s), limbo - {id})
  {
  }

  lemma TakeSlotKeeps(t: Tables, id: int, s: (int, int), limbo: set<int>, uncounted: nat)
    requires Partial(t, limbo, uncounted) && id in t.mapInfo && s in t.vvNew && t.vvNew[s] == -1
    requires s == NewSlot(t, s.0, t.mapInfo[id].svc) && !t.mapInfo[id].fInTried
    requires t.mapInfo[id].nRefCount < NEW_BUCKETS_PER_ADDRESS
    ensures Partial(TakeSlot(t, id, s), limbo - {id}, uncounted)
  {
    hide AddrsOk, RandomOk, TriedOk, NewOk, CountsOk, IsGrid, IdsOk, EntriesOk;
    SlotEdited(t, id, s);
    TakeSlotNew(t, id, s);
    TakeSlotEntries(t, id, s, limbo);
    EditedIndexes(t, TakeSlot(t, id, s), id);
    EditedTried(t, TakeSlot(t, id, s), id);
    EditedCounts(t, TakeSlot(t, id, s), id, uncounted);
  }

  // ----- the tried table -----

  /** `id` moves from limbo into the tried slot `s`. */
  function EnterTried(t: Tables, id: int, s: (int, int)): Tables
    requires id in t.mapInfo
  {
    SetInfo(t, id, t.mapInfo[id].(fInTried := true)).(vvTried := t.vvTried[s := id], nTried := t.nTried + 1)
  }

  /** `id` moves from its tried slot `s` into limbo. */
  function LeaveTried(t: Tables, id: int, s: (int, int)): Tables
    requires id in t.mapInfo
  {
    SetInfo(t, id, t.mapInfo[id].(fInTried := false)).(vvTried := t.vvTried[s := -1], nTried := t.nTried - 1)
  }

  lemma TriedEdited(t: Tables, id: int, s: (int, int))
    requires id in t.mapInfo
    ensures Edited(t, EnterTried(t, id, s), id) && Edited(t, LeaveTried(t, id, s), id)
  {
  }

  /** An entry in no new bucket may switch tables without touching the new table. */
  lemma SwitchNew(t: Tables, u: Tables, id: int)
    requires Edited(t, u, id) && GridsOk(t) && GridsOk(u) && IdsOk(t) && NewOk(t) && u.vvNew == t.vvNew
    requires u.mapInfo[id].nRefCount == 0
    requires t.mapInfo[id].fInTried || t.mapInfo[id].nRefCount == 0
    ensures NewOk(u)
  {
    assert Buckets(t, id) == {} by {
      if b :| b in Buckets(t, id) {
        assert t.vvNew[NewSlot(t, b, t.mapInfo[id].svc)] == id;
      }
    }
    forall x | x in u.mapInfo ensures u.mapInfo[x].svc == t.mapInfo[x].svc && Buckets(u, x) == Buckets(t, x) {
    }
    forall s | s in t.vvNew && t.vvNew[s] != -1 ensures s.0 in Buckets(t, t.vvNew[s]) {}
  }

  lemma EnterTriedOk(t: Tables, id: int, s: (int, int))
    requires GridsOk(t) && IdsOk(t) && TriedOk(t) && id in t.mapInfo
    requires s == TriedSlot(t, t.mapInfo[id].svc) && t.vvTried[s] == -1
    ensures GridsOk(EnterTried(t, id, s)) && TriedOk(EnterTried(t, id, s))
  {
    var u := EnterTried(t, id, s);
    TriedEdited(t, id, s);
    forall x | x in u.mapInfo ensures u.mapInfo[x].svc == t.mapInfo[x].svc {}
  }

  lemma LeaveTriedOk(t: Tables, id: int, s: (int, int))
    requires GridsOk(t) && IdsOk(t) && TriedOk(t) && id in t.mapInfo && t.mapInfo[id].fInTried
    requires s in t.vvTried && t.vvTried[s] == id
    ensures GridsOk(LeaveTried(t, id, s)) && TriedOk(LeaveTried(t, id, s))
  {
    var u := LeaveTried(t, id, s);
    TriedEdited(t, id, s);
    forall x | x in u.mapInfo ensures u.mapInfo[x].svc == t.mapInfo[x].svc {}
  }

  lemma EnterTriedCounts(t: Tables, id: int, s: (int, int), uncounted: nat)
    requires CountsOk(t, uncounted) && id in t.mapInfo && !t.mapInfo[id].fInTried && uncounted >= 1
    ensures CountsOk(EnterTried(t, id, s), uncounted - 1)
  {
    var u := EnterTried(t, id, s);
    assert TriedIds(u) == TriedIds(t) + {id};
    assert NewIds(u) == NewIds(t) - {id};
  }

  lemma LeaveTriedCounts(t: Tables, id: int, s: (int, int), uncounted: nat)
    requires CountsOk(t, uncounted) && id in t.mapInfo && t.mapInfo[id].fInTried
    ensures CountsOk(LeaveTried(t, id, s), uncounted + 1)
  {
    var u := LeaveTried(t, id, s);
    assert TriedIds(u) == TriedIds(t) - {id};
    assert NewIds(u) == NewIds(t) + {id};
  }

  lemma EnterTriedKeeps(t: Tables, id: int, s: (int, int), limbo: set<int>, uncounted: nat)
    requires Partial(t, limbo, uncounted) && id in limbo && uncounted >= 1
    requires s == TriedSlot(t, t.mapInfo[id].svc) && t.vvTried[s] == -1
    ensures Partial(EnterTried(t, id, s), limbo - {id}, uncounted - 1)
  {
    hide AddrsOk, RandomOk, TriedOk, NewOk, CountsOk, IsGrid;
    TriedEdited(t, id, s);
    EnterTriedOk(t, id, s);
    SwitchNew(t, EnterTried(t, id, s), id);
    EditedIndexes(t, EnterTried(t, id, s), id);
    EnterTriedCounts(t, id, s, uncounted);
  }

  lemma LeaveTriedKeeps(t: Tables, id: int, s: (int, int), limbo: set<int>, uncounted: nat)
    requires Partial(t, limbo, uncounted) && id in t.mapInfo && t.mapInfo[id].fInTried
    requires s in t.vvTried && t.vvTried[s] == id
    ensures Partial(LeaveTried(t, id, s), limbo + {id}, uncounted + 1)
  {
    hide AddrsOk, RandomOk, TriedOk, NewOk, CountsOk, IsGrid;
    TriedEdited(t, id, s);
    LeaveTriedOk(t, id, s);
    SwitchNew(t, LeaveTried(t, id, s), id);
    EditedIndexes(t, LeaveTried(t, id, s), id);
    LeaveTriedCounts(t, id, s, uncounted);
  }

  // ----- entries come and go -----

  lemma CreateAddrs(t: Tables, addr: Address, source: NetAddr)
    requires IdsOk(t) && AddrsOk(t) && addr.svc.net !in t.mapAddr
    ensures IdsOk(Create(t, addr, source)) && AddrsOk(Create(t, addr, source))
  {
    var u := Create(t, addr, source);
    forall a | a in t.mapAddr ensures u.mapAddr[a] == t.mapAddr[a] && a != addr.svc.net {}
    forall x | x in t.mapInfo ensures u.mapInfo[x] == t.mapInfo[x] && x != t.nIdCount {}
  }

  lemma CreateRandom(t: Tables, addr: Address, source: NetAddr)
    requires IdsOk(t) && RandomOk(t)
    ensures RandomOk(Create(t, addr, source))
  {
    var u := Create(t, addr, source);
    forall x | x in t.mapInfo ensures u.mapInfo[x] == t.mapInfo[x] && x != t.nIdCount {}
    forall i | 0 <= i < |t.vRandom| ensures u.vRandom[i] == t.vRandom[i] {}
  }

  lemma CreateTables(t: Tables, addr: Address, source: NetAddr)
    requires GridsOk(t) && IdsOk(t) && TriedOk(t) && NewOk(t)
    ensures TriedOk(Create(t, addr, source)) && NewOk(Create(t, addr, source))
  {
    var u := Create(t, addr, source);
    assert Buckets(u, t.nIdCount) == {};
    forall x | x in t.mapInfo ensures u.mapInfo[x] == t.mapInfo[x] && Buckets(u, x) == Buckets(t, x) {}
  }

  lemma CreateCounts(t: Tables, addr: Address, source: NetAddr)
    requires IdsOk(t) && CountsOk(t, 0)
    ensures CountsOk(Create(t, addr, source), 1)
  {
    var u := Create(t, addr, source);
    forall x | x in t.mapInfo ensures u.mapInfo[x] == t.mapInfo[x] && x != t.nIdCount {}
    assert !u.mapInfo[t.nIdCount].fInTried;
    assert TriedIds(u) == TriedIds(t);
    assert NewIds(u) == NewIds(t) + {t.nIdCount};
  }

  lemma CreateKeeps(t: Tables, addr: Address, source: NetAddr)
    requires Structured(t) && addr.svc.net !in t.mapAddr
    ensures Partial(Create(t, addr, source), {t.nIdCount}, 1)
  {
    hide AddrsOk, RandomOk, TriedOk, NewOk, CountsOk, IsGrid;
    CreateAddrs(t, addr, source);
    CreateRandom(t, addr, source);
    CreateTables(t, addr, source);
    CreateCounts(t, addr, source);
  }

  /** Dropping the entry at the end of the random-order vector. */
  function DropLast(t: Tables, id: int): Tables
    requires |t.vRandom| > 0 && id in t.mapInfo
  {
    t.(vRandom := t.vRandom[..|t.vRandom| - 1],
       mapAddr := t.mapAddr - {t.mapInfo[id].svc.net},
       mapInfo := t.mapInfo - {id},
       nNew := t.nNew - 1)
  }

  lemma DropLastIndexes(t: Tables, id: int)
    requires IdsOk(t) && AddrsOk(t) && RandomOk(t) && |t.vRandom| > 0 && t.vRandom[|t.vRandom| - 1] == id
    ensures IdsOk(DropLast(t, id)) && AddrsOk(DropLast(t, id)) && RandomOk(DropLast(t, id))
  {
  }

  lemma DropLastRandom(t: Tables, id: int)
    requires RandomOk(t) && |t.vRandom| > 0 && t.vRandom[|t.vRandom| - 1] == id
    ensures RandomOk(DropLast(t, id))
  {
  }

  lemma DropLastTables(t: Tables, id: int)
    requires GridsOk(t) && IdsOk(t) && TriedOk(t) && NewOk(t) && |t.vRandom| > 0 && id in t.mapInfo
    requires !t.mapInfo[id].fInTried && t.mapInfo[id].nRefCount == 0
    ensures TriedOk(DropLast(t, id)) && NewOk(DropLast(t, id))
  {
    var u := DropLast(t, id);
    assert Buckets(t, id) == {};
    forall s | s in t.vvNew && t.vvNew[s] != -1 ensures s.0 in Buckets(t, t.vvNew[s]) {}
    forall x | x in u.mapInfo ensures u.mapInfo[x] == t.mapInfo[x] && Buckets(u, x) == Buckets(t, x) {}
  }

  lemma DropLastCounts(t: Tables, id: int, uncounted: nat)
    requires CountsOk(t, uncounted) && |t.vRandom| > 0 && id in t.mapInfo && !t.mapInfo[id].fInTried
    ensures CountsOk(DropLast(t, id), uncounted)
  {
    var u := DropLast(t, id);
    assert TriedIds(u) == TriedIds(t);
    assert NewIds(u) == NewIds(t) - {id};
  }

  lemma DropLastKeeps(t: Tables, id: int, limbo: set<int>, uncounted: nat)
    requires Partial(t, limbo, uncounted) && |t.vRandom| > 0 && t.vRandom[|t.vRandom| - 1] == id && id in limbo
    ensures Partial(DropLast(t, id), limbo - {id}, uncounted)
  {
    hide AddrsOk, RandomOk, TriedOk, NewOk, CountsOk, IsGrid;
    DropLastIndexes(t, id);
    DropLastTables(t, id);
    DropLastCounts(t, id, uncounted);
  }

  /** The entry to be deleted is swapped to the end of the random-order vector. */
  lemma SwapToEnd(t: Tables, id: int)
    requires RandomOk(t) && id in t.mapInfo
    ensures var pos, last := t.mapInfo[id].nRandomPos, |t.vRandom| - 1;
            && 0 <= pos <= last && t.vRandom[pos] in t.mapInfo && t.vRandom[last] in t.mapInfo
            && var t1 := SwapRandom(t, pos, last);
               t1.vRandom[last] == id && |t1.vRandom| == last + 1 && t1.mapAddr == t.mapAddr
  {
  }

  /** Deleting an entry in no table removes it from all indexes and disturbs no other entry. */
  lemma DeleteKeeps(t: Tables, id: int, limbo: set<int>, uncounted: nat)
    requires Partial(t, limbo, uncounted) && id in limbo
    ensures Partial(Delete(t, id), limbo - {id}, uncounted)
    ensures SameEntries(t, Delete(t, id), {id})
    ensures Delete(t, id).mapInfo.Keys == t.mapInfo.Keys - {id}
    ensures SameSlots(t, Delete(t, id))
  {
    hide GridsOk, IdsOk, AddrsOk, TriedOk, NewOk, CountsOk, SwapRandom, RandomOk;
    var last := |t.vRandom| - 1;
    var pos := t.mapInfo[id].nRandomPos;
    SwapToEnd(t, id);
    SwapKeeps(t, pos, last, limbo, uncounted);
    var t1 := SwapRandom(t, pos, last);
    SameEntry(t, t1, id);
    DropLastKeeps(t1, id, limbo, uncounted);
    assert Delete(t, id) == DropLast(t1, id);
  }

  /** Same hash inputs, same occupancy of both tables. */
  ghost predicate SameSlots(t: Tables, u: Tables) {
    && SameHashing(t, u) && u.vvNew == t.vvNew && u.vvTried == t.vvTried
  }

  ghost predicate SameHashing(t: Tables, u: Tables) {
    u.env == t.env && u.nKey == t.nKey
  }

  /** The occupant of slot `s` gives it up, and is deleted when that was its only slot. */
  lemma ClearNewKeeps(t: Tables, s: (int, int), limbo: set<int>, uncounted: nat)
    requires Partial(t, limbo, uncounted) && s in t.vvNew
    ensures t.vvNew[s] != -1 ==>
              && t.vvNew[s] in t.mapInfo && t.vvNew[s] !in limbo
              && !t.mapInfo[t.vvNew[s]].fInTried && t.mapInfo[t.vvNew[s]].nRefCount >= 1
    ensures var u := ClearNew(t, s);
            && Partial(u, limbo, uncounted)
            && SameHashing(t, u) && u.vvTried == t.vvTried && u.vvNew == t.vvNew[s := -1]
            && SameEntries(t, u, {t.vvNew[s]})
            && u.mapInfo.Keys == t.mapInfo.Keys - SoleOccupant(t, s)
            && (t.vvNew[s] in u.mapInfo ==>
                  SameInfo(t.mapInfo[t.vvNew[s]].(nRefCount := t.mapInfo[t.vvNew[s]].nRefCount - 1),
                           u.mapInfo[t.vvNew[s]]))
  {
    hide GridsOk, AddrsOk, TriedOk, CountsOk, Delete, Buckets;
    if t.vvNew[s] != -1 {
      var id := t.vvNew[s];
      DropSlotKeeps(t, id, s, limbo, uncounted);
      var t1 := DropSlot(t, id, s);
      if t1.mapInfo[id].nRefCount == 0 {
        DeleteKeeps(t1, id, limbo + {id}, uncounted);
        assert limbo + {id} - {id} == limbo;
      }
    } else {
      assert t.vvNew[s := -1] == t.vvNew;
      assert -1 !in t.mapInfo;
    }
  }

  /** The entry that clearing slot `s` deletes, if any: the occupant, when `s` is its only slot. */
  ghost function SoleOccupant(t: Tables, s: (int, int)): set<int> {
    if s in t.vvNew && t.vvNew[s] in t.mapInfo && t.mapInfo[t.vvNew[s]].nRefCount == 1 then {t.vvNew[s]} else {}
  }
}
