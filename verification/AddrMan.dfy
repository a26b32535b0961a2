/**
 The address manager as the program writes it: one object whose fields are updated in place.
 Every method is proved to do to `State()` what the corresponding function of the tables does;
 what those functions keep is proved in AddrManOps.
 */
module AddrMan {
  import opened AddrManTables
  import opened AddrManStream
  import Ops = AddrManOps
  import Accepted = AddrManAccepted
  import RoundTrips = AddrManRoundTrip

  ghost function GridOf(a: array2<int>): Grid
    reads a
  {
    map b, p | 0 <= b < a.Length0 && 0 <= p < a.Length1 :: (b, p) := a[b, p]
  }

  lemma GridAt(a: array2<int>, b: int, p: int)
    requires 0 <= b < a.Length0 && 0 <= p < a.Length1
    ensures (b, p) in GridOf(a) && GridOf(a)[(b, p)] == a[b, p]
  {
  }

  ghost predicate AllFree(g: Grid) {
    forall s :: s in g ==> g[s] == -1
  }

  lemma BlankFree(env: Env, nKey: nat, nNew: int, nTried: int)
    ensures AllFree(Blank(env, nKey, nNew, nTried).vvTried)
  {
  }

  lemma SmallRemainder(r: nat, p: nat)
    requires r < p
    ensures r % p == r
  {
  }

  lemma OccupantsEnd(t: Tables, b: int)
    requires GridsOk(t) && 0 <= b < NEW_BUCKET_COUNT
    ensures Occupants(t, b, BUCKET_SIZE) == []
  {
  }

  /** One more slot of a bucket. */
  lemma OccupantsNext(t: Tables, b: int, p: nat)
    requires GridsOk(t) && 0 <= b < NEW_BUCKET_COUNT && p < BUCKET_SIZE
    ensures (b, p) in t.vvNew
    ensures |Occupants(t, b, p)| == |Occupants(t, b, p + 1)| + if t.vvNew[(b, p)] != -1 then 1 else 0
  {
  }

  method SetSlot(a: array2<int>, b: int, p: int, id: int)
    requires 0 <= b < a.Length0 && 0 <= p < a.Length1
    modifies a
    ensures GridOf(a) == old(GridOf(a))[(b, p) := id]
  {
    a[b, p] := id;
  }

  /** A bucket table with every slot free. */
  method NewGrid(buckets: nat) returns (a: array2<int>)
    ensures fresh(a) && a.Length0 == buckets && a.Length1 == BUCKET_SIZE
    ensures GridOf(a) == Ops.EmptyGrid(buckets)
  {
    a := new int[buckets, BUCKET_SIZE]((_, _) => -1);
  }

  lemma ClearNone(t: Tables, id: int)
    requires id in t.mapInfo && GridsOk(t)
    ensures Ops.ClearBuckets(t, id, 0) == t
  {
  }

  lemma ClearOneMore(t0: Tables, t: Tables, u: Tables, id: int, n: nat)
    requires id in t0.mapInfo && GridsOk(t0) && n < NEW_BUCKET_COUNT
    requires t == Ops.ClearBuckets(t0, id, n)
    requires var s := NewSlot(t, n, t.mapInfo[id].svc);
             u == if t.vvNew[s] == id then AddrManTables.DropSlot(t, id, s) else t
    ensures u == Ops.ClearBuckets(t0, id, n + 1)
  {
  }

  /** How many buckets past bucket `r`, cyclically, bucket `b` is. */
  ghost function Ahead(b: int, r: int): (k: int)
    ensures 0 <= k < NEW_BUCKET_COUNT
  {
    (b - r) % NEW_BUCKET_COUNT
  }

  lemma AheadOf(b: int, r: int, n: int)
    requires 0 <= b < NEW_BUCKET_COUNT
    ensures Ahead(b, r) == n ==> b == (n + r) % NEW_BUCKET_COUNT
  {
  }

  /** None of the first `n` buckets from `r` on holds the entry. */
  ghost predicate Passed(t: Tables, id: int, r: int, n: int)
    requires GridsOk(t) && id in t.mapInfo
  {
    forall b :: 0 <= b < NEW_BUCKET_COUNT && Ahead(b, r) < n ==> t.vvNew[NewSlot(t, b, t.mapInfo[id].svc)] != id
  }

  lemma PassOne(t: Tables, id: int, r: int, n: nat)
    requires GridsOk(t) && id in t.mapInfo && Passed(t, id, r, n)
    requires t.vvNew[NewSlot(t, (n + r) % NEW_BUCKET_COUNT, t.mapInfo[id].svc)] != id
    ensures Passed(t, id, r, n + 1)
  {
    hide Ahead;
    forall b | 0 <= b < NEW_BUCKET_COUNT && Ahead(b, r) < n + 1 ensures t.vvNew[NewSlot(t, b, t.mapInfo[id].svc)] != id {
      AheadOf(b, r, n);
    }
  }

  lemma PassAll(t: Tables, id: int, r: int)
    requires GridsOk(t) && id in t.mapInfo
    ensures Passed(t, id, r, 0)
    ensures Passed(t, id, r, NEW_BUCKET_COUNT) ==> !Ops.InSomeBucket(t, id)
  {
    hide Ahead, NewSlot;
  }

  lemma RefCountsBounded(t: Tables, id: int)
    requires Structured(t) && id in t.mapInfo && !t.mapInfo[id].fInTried
    ensures 1 <= t.mapInfo[id].nRefCount <= NEW_BUCKETS_PER_ADDRESS
  {
  }

  lemma IntroducedBounded(t: Tables, id: int)
    requires Partial(t, {id}, 0)
    ensures id in t.mapInfo && !t.mapInfo[id].fInTried && t.mapInfo[id].nRefCount == 0
  {
  }

  /** What placing an entry amounts to, case by case, and what each case may rely on. */
  lemma PlaceCases(t: Tables, id: int, source: NetAddr, now: int, limbo: set<int>)
    requires Partial(t, limbo, 0) && limbo <= {id} && id in t.mapInfo
    requires !t.mapInfo[id].fInTried && t.mapInfo[id].nRefCount < NEW_BUCKETS_PER_ADDRESS
    ensures RandomOk(t)
    ensures var s := Ops.AnnouncedSlot(t, id, source);
            var u := Ops.Place(t, id, source, now, limbo);
            && s in t.vvNew
            && (t.vvNew[s] != -1 ==>
                  && t.vvNew[s] in t.mapInfo
                  && t.mapInfo[t.vvNew[s]].nRefCount > 0 && !t.mapInfo[t.vvNew[s]].fInTried)
            && if t.vvNew[s] == id then u == t
               else if t.vvNew[s] == -1 || Ops.Yields(t.mapInfo[t.vvNew[s]], t.mapInfo[id], now) then
                 id in ClearNew(t, s).mapInfo && u == TakeSlot(ClearNew(t, s), id, s)
               else if t.mapInfo[id].nRefCount == 0 then u == Delete(t, id)
               else u == t
  {
    hide AddrsOk, TriedOk, CountsOk, NewOk, EntriesOk, IdsOk, Ops.Yields, Ops.Seized, SoleOccupant, SameInfo;
    hide ClearNew, Delete, TakeSlot;
    var s := Ops.AnnouncedSlot(t, id, source);
    ClearNewKeeps(t, s, limbo, 0);
    if t.vvNew[s] != id {
      Ops.SeizeKeeps(t, id, s, limbo);
    }
  }

  function AddressOf(info: AddrInfo): Address {
    Address(info.svc, info.nServices, info.nTime)
  }

  /** `vAddr` are the addresses of the entries `ids`. */
  ghost predicate Listed(t: Tables, ids: seq<int>, vAddr: seq<Address>) {
    && |vAddr| == |ids|
    && (forall i :: 0 <= i < |ids| ==> ids[i] in t.mapInfo && vAddr[i] == AddressOf(t.mapInfo[ids[i]]))
  }

  lemma ListedNone(t: Tables)
    ensures Listed(t, [], [])
  {
  }

  lemma ListedOneMore(t: Tables, ids: seq<int>, vAddr: seq<Address>, id: int)
    requires Listed(t, ids, vAddr) && id in t.mapInfo
    ensures |ids| == |vAddr| && Listed(t, ids + [id], vAddr + [AddressOf(t.mapInfo[id])])
  {
  }

  lemma ListedLength(t: Tables, ids: seq<int>, vAddr: seq<Address>)
    requires Listed(t, ids, vAddr)
    ensures |vAddr| == |ids| && forall i :: 0 <= i < |ids| ==> ids[i] in t.mapInfo && vAddr[i] == AddressOf(t.mapInfo[ids[i]])
  {
  }

  lemma PruneNext(t: Tables, ids: seq<int>, i: nat, n: nat)
    requires RandomOk(t) && i < |ids|
    ensures Prune(t, ids[i..], n) ==
              if ids[i] in t.mapInfo && !t.mapInfo[ids[i]].fInTried && t.mapInfo[ids[i]].nRefCount == 0 then
                (DeleteRandomOk(t, ids[i]); Prune(Delete(t, ids[i]), ids[i + 1..], n + 1))
              else Prune(t, ids[i + 1..], n)
  {
    assert ids[i..][1..] == ids[i + 1..];
  }

  lemma PruneEnds(t: Tables, n: nat)
    requires RandomOk(t)
    ensures Prune(t, [], n) == (t, n)
  {
  }

  lemma RandomListed(t: Tables, i: nat)
    requires RandomOk(t) && i < |t.vRandom|
    ensures t.vRandom[i] in t.mapInfo
  {
  }

  lemma SwapKeepsLength(t: Tables, i: nat, j: nat)
    requires i < |t.vRandom| && j < |t.vRandom| && t.vRandom[i] in t.mapInfo && t.vRandom[j] in t.mapInfo
    ensures |SwapRandom(t, i, j).vRandom| == |t.vRandom|
  {
  }

  lemma ListedSame(t: Tables, u: Tables, ids: seq<int>, vAddr: seq<Address>)
    requires SameTables(t, u) && Listed(t, ids, vAddr)
    ensures Listed(u, ids, vAddr)
  {
    forall i | 0 <= i < |ids| ensures ids[i] in u.mapInfo && vAddr[i] == AddressOf(u.mapInfo[ids[i]]) {
      SameEntry(t, u, ids[i]);
    }
  }

  /** After `n` steps with draws `picks` the sample is at `t`, `ids`, whatever is drawn next. */
  ghost predicate SampleSoFar(t0: Tables, t: Tables, n: nat, picks: seq<nat>, ids: seq<int>, now: int)
    requires RandomOk(t0) && RandomOk(t) && n <= |t.vRandom|
  {
    forall more: seq<nat> ::
      Ops.Sample(t0, 0, picks + more, [], now) == Ops.Sample(t, n, picks + more, ids, now)
  }

  lemma SampleNone(t: Tables, now: int)
    requires RandomOk(t)
    ensures SampleSoFar(t, t, 0, [], [], now)
  {
  }

  lemma SampleUnfold(t: Tables, n: nat, picks: seq<nat>, ids: seq<int>, now: int, r: nat, u: Tables)
    requires RandomOk(t) && n < |t.vRandom| && |ids| < Ops.SampleLimit(|t.vRandom|)
    requires Ops.Draw(picks, n) == r && r < |t.vRandom| - n && u == SwapRandom(t, n, n + r)
    ensures RandomOk(u) && |u.vRandom| == |t.vRandom| && u.vRandom[n] in u.mapInfo
    ensures Ops.Sample(t, n, picks, ids, now) == Ops.Sample(u, n + 1, picks, SampleStepIds(u, n, ids, now), now)
  {
    SwapRandomOk(t, n, n + r);
    hide Ops.SampleLimit, Ops.IsTerrible, SwapRandom, RandomOk, Ops.SamplePos;
    SmallDraw(n, |t.vRandom|, r);
    SwapLength(t, n, n + r);
  }

  lemma SwapLength(t: Tables, p1: nat, p2: nat)
    requires RandomOk(t) && p1 < |t.vRandom| && p2 < |t.vRandom|
    ensures var u := SwapRandom(t, p1, p2);
            |u.vRandom| == |t.vRandom| && forall i :: 0 <= i < |u.vRandom| ==> u.vRandom[i] in u.mapInfo
  {
  }

  lemma SmallDraw(n: nat, size: nat, r: nat)
    requires n < size && r < size - n
    ensures Ops.SamplePos(n, size, r) == n + r
  {
  }

  /** The ids collected once position `n` has been looked at. */
  function SampleStepIds(u: Tables, n: nat, ids: seq<int>, now: int): seq<int>
    requires n < |u.vRandom| && u.vRandom[n] in u.mapInfo
  {
    if Ops.IsTerrible(u.mapInfo[u.vRandom[n]], now) then ids else ids + [u.vRandom[n]]
  }

  lemma SampleOneMoreWith(t0: Tables, t: Tables, n: nat, picks: seq<nat>, ids: seq<int>, now: int, r: nat, more: seq<nat>)
    requires RandomOk(t0) && RandomOk(t) && n < |t.vRandom| && |picks| == n && r < |t.vRandom| - n
    requires SampleSoFar(t0, t, n, picks, ids, now) && |ids| < Ops.SampleLimit(|t.vRandom|)
    ensures var u := SwapRandom(t, n, n + r);
            && RandomOk(u) && |u.vRandom| == |t.vRandom| && u.vRandom[n] in u.mapInfo
            && Ops.Sample(t0, 0, picks + [r] + more, [], now) ==
               Ops.Sample(u, n + 1, picks + [r] + more, SampleStepIds(u, n, ids, now), now)
  {
    var all := picks + ([r] + more);
    assert picks + [r] + more == all;
    assert Ops.Sample(t0, 0, all, [], now) == Ops.Sample(t, n, all, ids, now);
    hide Ops.SampleLimit, Ops.Sample, SampleStepIds, SampleSoFar;
    SampleUnfold(t, n, all, ids, now, r, SwapRandom(t, n, n + r));
  }

  lemma SampleOneMore(t0: Tables, t: Tables, n: nat, picks: seq<nat>, ids: seq<int>, now: int, r: nat)
    requires RandomOk(t0) && RandomOk(t) && n < |t.vRandom| && |picks| == n && r < |t.vRandom| - n
    requires SampleSoFar(t0, t, n, picks, ids, now) && |ids| < Ops.SampleLimit(|t.vRandom|)
    ensures var u := SwapRandom(t, n, n + r);
            && RandomOk(u) && |u.vRandom| == |t.vRandom| && u.vRandom[n] in u.mapInfo
            && SampleSoFar(t0, u, n + 1, picks + [r], SampleStepIds(u, n, ids, now), now)
  {
    SampleOneMoreWith(t0, t, n, picks, ids, now, r, []);
    var u := SwapRandom(t, n, n + r);
    var ids1 := SampleStepIds(u, n, ids, now);
    assert SampleSoFar(t0, u, n + 1, picks + [r], ids1, now) by {
      hide Ops.SampleLimit, Ops.Sample, RandomOk, SwapRandom, Ops.IsTerrible;
      forall more: seq<nat>
        ensures Ops.Sample(t0, 0, picks + [r] + more, [], now) == Ops.Sample(u, n + 1, picks + [r] + more, ids1, now)
      {
        SampleOneMoreWith(t0, t, n, picks, ids, now, r, more);
      }
    }
  }

  lemma SampleDone(t0: Tables, t: Tables, n: nat, picks: seq<nat>, ids: seq<int>, now: int)
    requires RandomOk(t0) && RandomOk(t) && n <= |t.vRandom| && SampleSoFar(t0, t, n, picks, ids, now)
    requires n == |t.vRandom| || |ids| >= Ops.SampleLimit(|t.vRandom|)
    ensures Ops.Sample(t0, 0, picks, [], now) == (t, ids)
  {
    assert picks + [] == picks;
  }

  lemma PrefixStep(t: Tables, ids: seq<int>, i: nat)
    requires Known(t, ids) && i < |ids|
    ensures Known(t, ids[..i]) && Known(t, ids[..i + 1])
    ensures Ranks(t, ids[..i + 1]) == Ranks(t, ids[..i])[ids[i] := |NewOf(t, ids[..i])|]
    ensures var info := [Info(ToDisk(t.mapInfo[ids[i]]))];
            && NewOf(t, ids[..i + 1]) == NewOf(t, ids[..i]) + (if t.mapInfo[ids[i]].nRefCount != 0 then [ids[i]] else [])
            && Infos(t, NewOf(t, ids[..i + 1])) ==
               Infos(t, NewOf(t, ids[..i])) + (if t.mapInfo[ids[i]].nRefCount != 0 then info else [])
            && TriedOf(t, ids[..i + 1]) == TriedOf(t, ids[..i]) + (if t.mapInfo[ids[i]].fInTried then [ids[i]] else [])
            && Infos(t, TriedOf(t, ids[..i + 1])) ==
               Infos(t, TriedOf(t, ids[..i])) + (if t.mapInfo[ids[i]].fInTried then info else [])
  {
    assert ids[..i + 1][..i] == ids[..i] && ids[..i + 1][i] == ids[i];
  }

  /** The walk never finds more entries of either kind than the counters say. */
  lemma {:induction false} WalkCounts(t: Tables, ids: seq<int>, i: nat)
    requires Known(t, ids) && i <= |ids|
    ensures Known(t, ids[..i])
    ensures |NewOf(t, ids[..i])| <= |NewOf(t, ids)| && |TriedOf(t, ids[..i])| <= |TriedOf(t, ids)|
    decreases |ids| - i
  {
    if i == |ids| {
      assert ids[..i] == ids;
    } else {
      WalkCounts(t, ids, i + 1);
      assert ids[..i + 1][..i] == ids[..i];
    }
  }

  /** `done` followed by `rest` is `all`. */
  ghost predicate Completes(done: seq<Token>, rest: seq<Token>, all: seq<Token>) {
    done + rest == all
  }

  lemma BucketTokensStep(t: Tables, ranks: map<int, int>, b: nat, done: seq<Token>)
    requires GridsOk(t) && b < NEW_BUCKET_COUNT
    requires Completes(done, BucketTokens(t, ranks, b), BucketTokens(t, ranks, 0))
    ensures var occupants := Occupants(t, b, 0);
            Completes(done + ([Int(|occupants|)] + Indexes(ranks, occupants)),
                      BucketTokens(t, ranks, b + 1), BucketTokens(t, ranks, 0))
  {
    hide IsGrid, Occupants, Indexes;
    var occupants := Occupants(t, b, 0);
    var now, rest := [Int(|occupants|)] + Indexes(ranks, occupants), BucketTokens(t, ranks, b + 1);
    assert BucketTokens(t, ranks, b) == now + rest;
    assert done + (now + rest) == (done + now) + rest;
  }

  lemma BucketTokensEnd(t: Tables, ranks: map<int, int>)
    requires GridsOk(t)
    ensures forall done, all :: Completes(done, BucketTokens(t, ranks, NEW_BUCKET_COUNT), all) ==> done == all
  {
  }

  lemma OccupantsStep(t: Tables, b: nat, p: nat)
    requires GridsOk(t) && b < NEW_BUCKET_COUNT && p < BUCKET_SIZE
    ensures (b, p) in t.vvNew
    ensures t.vvNew[(b, p)] == -1 ==> Occupants(t, b, p) == Occupants(t, b, p + 1)
    ensures t.vvNew[(b, p)] != -1 ==> Occupants(t, b, p) == [t.vvNew[(b, p)]] + Occupants(t, b, p + 1)
  {
  }

  lemma IndexesStep(t: Tables, ranks: map<int, int>, b: nat, p: nat, done: seq<Token>)
    requires GridsOk(t) && b < NEW_BUCKET_COUNT && p < BUCKET_SIZE
    requires Completes(done, Indexes(ranks, Occupants(t, b, p)), Indexes(ranks, Occupants(t, b, 0)))
    ensures (b, p) in t.vvNew
    ensures var id := t.vvNew[(b, p)];
            Completes(if id == -1 then done else done + [Int(if id in ranks then ranks[id] else 0)],
                      Indexes(ranks, Occupants(t, b, p + 1)), Indexes(ranks, Occupants(t, b, 0)))
  {
    hide IsGrid, Occupants;
    OccupantsStep(t, b, p);
    var id, more := t.vvNew[(b, p)], Occupants(t, b, p + 1);
    if id != -1 {
      assert ([id] + more)[1..] == more;
      var now, rest := [Int(if id in ranks then ranks[id] else 0)], Indexes(ranks, more);
      assert Indexes(ranks, [id] + more) == now + rest;
      assert done + (now + rest) == (done + now) + rest;
    }
  }

  lemma IndexesEnd(t: Tables, ranks: map<int, int>, b: nat)
    requires GridsOk(t) && b < NEW_BUCKET_COUNT
    ensures forall done, all :: Completes(done, Indexes(ranks, Occupants(t, b, BUCKET_SIZE)), all) ==> done == all
  {
  }

  method FreeAll(a: array2<int>)
    requires a.Length1 == BUCKET_SIZE
    modifies a
    ensures GridOf(a) == Ops.EmptyGrid(a.Length0)
  {
    for bucket := 0 to a.Length0
      invariant forall b, p :: 0 <= b < bucket && 0 <= p < BUCKET_SIZE ==> a[b, p] == -1
    {
      for entry := 0 to BUCKET_SIZE
        invariant forall b, p :: 0 <= b < bucket && 0 <= p < BUCKET_SIZE ==> a[b, p] == -1
        invariant forall p :: 0 <= p < entry ==> a[bucket, p] == -1
      {
        a[bucket, entry] := -1;
      }
    }
  }

  datatype Found = Missing | Entry(id: int)

  class CAddrMan {
    const env: Env
    var nIdCount: int
    var mapInfo: map<int, AddrInfo>
    var mapAddr: map<NetAddr, int>
    var vRandom: seq<int>
    var nTried: int
    const vvTried: array2<int>
    var nNew: int
    const vvNew: array2<int>
    var nLastGood: int
    var nKey: nat

    ghost predicate Valid() {
      && vvTried.Length0 == TRIED_BUCKET_COUNT && vvTried.Length1 == BUCKET_SIZE
      && vvNew.Length0 == NEW_BUCKET_COUNT && vvNew.Length1 == BUCKET_SIZE
      && vvTried != vvNew
    }

    ghost function State(): Tables
      reads this, vvTried, vvNew
    {
      Tables(env, nIdCount, mapInfo, mapAddr, vRandom, nTried, GridOf(vvTried), nNew, GridOf(vvNew), nLastGood, nKey)
    }

    constructor (env: Env, nKey: nat)
      ensures Valid() && State() == Ops.Fresh(env, nKey)
      ensures fresh(vvTried) && fresh(vvNew)
    {
      this.env := env;
      this.nKey := nKey;
      mapInfo, mapAddr, vRandom := map[], map[], [];
      nIdCount, nTried, nNew, nLastGood := 0, 0, 0, 1;
      var tried := NewGrid(TRIED_BUCKET_COUNT);
      var unknown := NewGrid(NEW_BUCKET_COUNT);
      vvTried, vvNew := tried, unknown;
    }

    function BucketPosition(isNew: bool, bucket: int, svc: Service): (p: int)
      reads this
      ensures 0 <= p < BUCKET_SIZE
    {
      env.cheapHash(PositionHash(nKey, isNew, bucket, svc)) % BUCKET_SIZE
    }

    /** Any value below `nMax`: the program's random source is not modelled further. */
    method RandomInt(nMax: int) returns (r: nat)
      requires nMax > 0
      ensures 0 <= r < nMax
    {
      r :| 0 <= r < nMax;
    }

    method Find(addr: NetAddr) returns (r: Found)
      ensures r == if addr in mapAddr && mapAddr[addr] in mapInfo then Entry(mapAddr[addr]) else Missing
    {
      if addr !in mapAddr {
        return Missing;
      }
      var nId := mapAddr[addr];
      r := if nId in mapInfo then Entry(nId) else Missing;
    }

    method Create(addr: Address, source: NetAddr) returns (nId: int)
      modifies this
      ensures State() == AddrManTables.Create(old(State()), addr, source) && nId == old(nIdCount)
    {
      nId := nIdCount;
      nIdCount := nIdCount + 1;
      mapInfo := mapInfo[nId := FreshInfo(addr, source, -1)];
      mapAddr := mapAddr[addr.svc.net := nId];
      mapInfo := mapInfo[nId := mapInfo[nId].(nRandomPos := |vRandom|)];
      vRandom := vRandom + [nId];
    }

    method SwapRandom(p1: int, p2: int)
      requires 0 <= p1 < |vRandom| && 0 <= p2 < |vRandom|
      requires vRandom[p1] in mapInfo && vRandom[p2] in mapInfo
      modifies this`mapInfo, this`vRandom
      ensures State() == AddrManTables.SwapRandom(old(State()), p1, p2)
    {
      if p1 == p2 {
        return;
      }
      var nId1, nId2 := vRandom[p1], vRandom[p2];
      mapInfo := mapInfo[nId1 := mapInfo[nId1].(nRandomPos := p2)];
      mapInfo := mapInfo[nId2 := mapInfo[nId2].(nRandomPos := p1)];
      vRandom := vRandom[p1 := nId2];
      vRandom := vRandom[p2 := nId1];
    }

    method Delete(nId: int)
      requires RandomOk(State()) && nId in mapInfo
      requires !mapInfo[nId].fInTried && mapInfo[nId].nRefCount == 0
      modifies this
      ensures State() == AddrManTables.Delete(old(State()), nId)
    {
      hide GridOf, RandomOk, AddrManTables.SwapRandom;
      SwapToEnd(State(), nId);
      var net := mapInfo[nId].svc.net;
      SwapRandom(mapInfo[nId].nRandomPos, |vRandom| - 1);
      vRandom := vRandom[..|vRandom| - 1];
      mapAddr := mapAddr - {net};
      mapInfo := mapInfo - {nId};
      nNew := nNew - 1;
    }

    method ClearNew(nUBucket: int, nUBucketPos: int)
      requires Valid() && 0 <= nUBucket < NEW_BUCKET_COUNT && 0 <= nUBucketPos < BUCKET_SIZE
      requires RandomOk(State())
      requires var id := vvNew[nUBucket, nUBucketPos];
               id != -1 ==> id in mapInfo && mapInfo[id].nRefCount > 0 && !mapInfo[id].fInTried
      modifies this, vvNew
      ensures State() == AddrManTables.ClearNew(old(State()), (nUBucket, nUBucketPos))
    {
      if vvNew[nUBucket, nUBucketPos] != -1 {
        var nIdDelete := vvNew[nUBucket, nUBucketPos];
        mapInfo := mapInfo[nIdDelete := mapInfo[nIdDelete].(nRefCount := mapInfo[nIdDelete].nRefCount - 1)];
        SetSlot(vvNew, nUBucket, nUBucketPos, -1);
        if mapInfo[nIdDelete].nRefCount == 0 {
          Delete(nIdDelete);
        }
      }
    }

    method MakeTried(nId: int)
      requires Valid() && Structured(State()) && nId in mapInfo && !mapInfo[nId].fInTried
      modifies this, vvNew, vvTried
      ensures State() == Ops.MakeTried(old(State()), nId)
    {
      ghost var t := State();
      Detach(nId);
      Ops.DetachKeeps(t, nId);
      assert mapInfo[nId].nRefCount == 0;
      hide AddrsOk, RandomOk, EntriesOk, TriedOk, NewOk, CountsOk, IdsOk, Ops.Detach, Ops.Evict, GridOf, Ops.HomeSlot;

      // the entry's own tried slot
      var nKBucket := TriedBucketOf(mapInfo[nId].svc);
      var nKBucketPos := BucketPosition(false, nKBucket, mapInfo[nId].svc);
      MakeRoom(nKBucket, nKBucketPos, {nId}, 1);
      EnterTried(nId, nKBucket, nKBucketPos);
    }

    /** Makes the tried slot free: the entry there, if any, goes back to new. */
    method MakeRoom(nKBucket: int, nKBucketPos: int, ghost limbo: set<int>, ghost uncounted: nat)
      requires Valid() && Partial(State(), limbo, uncounted)
      requires 0 <= nKBucket < TRIED_BUCKET_COUNT && 0 <= nKBucketPos < BUCKET_SIZE
      modifies this, vvNew, vvTried
      ensures (nKBucket, nKBucketPos) in old(State()).vvTried
      ensures State() == if old(State()).vvTried[(nKBucket, nKBucketPos)] == -1 then old(State())
                         else Ops.Evict(old(State()), (nKBucket, nKBucketPos), limbo, uncounted)
      ensures vvTried[nKBucket, nKBucketPos] == -1
      ensures limbo <= mapInfo.Keys
    {
      ghost var t1 := State();
      hide AddrsOk, RandomOk, TriedOk, NewOk, CountsOk, IdsOk, IsGrid, Ops.Evict;
      assert t1.vvTried[(nKBucket, nKBucketPos)] == vvTried[nKBucket, nKBucketPos];
      if vvTried[nKBucket, nKBucketPos] != -1 {
        Ops.EvictKeeps(t1, (nKBucket, nKBucketPos), limbo, uncounted);
        EvictTried(nKBucket, nKBucketPos, limbo, uncounted);
        assert State().vvTried[(nKBucket, nKBucketPos)] == vvTried[nKBucket, nKBucketPos];
      }
      assert EntriesOk(State(), limbo);
      assert forall id :: id in limbo ==> id in State().mapInfo;
    }

    /** Takes the entry out of all new buckets and out of the count of new entries. */
    method Detach(nId: int)
      requires Valid() && nId in mapInfo && GridsOk(State())
      modifies this, vvNew
      ensures nId in mapInfo && State() == Ops.Detach(old(State()), nId)
    {
      hide GridsOk, Ops.ClearBuckets, GridOf;
      RemoveFromNew(nId);
      nNew := nNew - 1;
    }

    function TriedBucketOf(svc: Service): (b: int)
      reads this
      ensures 0 <= b < TRIED_BUCKET_COUNT
    {
      var hash1 := env.cheapHash(TriedAddrHash(nKey, svc));
      env.cheapHash(TriedGroupHash(nKey, env.group(svc.net), hash1 % TRIED_BUCKETS_PER_GROUP)) % TRIED_BUCKET_COUNT
    }

    function NewBucketOf(svc: Service, src: NetAddr): (b: int)
      reads this
      ensures 0 <= b < NEW_BUCKET_COUNT
    {
      var hash1 := env.cheapHash(NewAddrHash(nKey, env.group(svc.net), env.group(src)));
      env.cheapHash(NewSourceHash(nKey, env.group(src), hash1 % NEW_BUCKETS_PER_SOURCE_GROUP)) % NEW_BUCKET_COUNT
    }

    method RemoveFromNew(nId: int)
      requires Valid() && nId in mapInfo && GridsOk(State())
      modifies this`mapInfo, vvNew
      ensures State() == Ops.ClearBuckets(old(State()), nId, NEW_BUCKET_COUNT)
    {
      hide GridsOk, Ops.ClearBuckets, GridOf;
      ghost var t0 := State();
      assert t0 == Ops.ClearBuckets(t0, nId, 0) by { ClearNone(t0, nId); }
      for bucket := 0 to NEW_BUCKET_COUNT
        invariant nId in mapInfo && State() == Ops.ClearBuckets(t0, nId, bucket)
      {
        RemoveFromBucket(nId, bucket, t0);
      }
    }

    method RemoveFromBucket(nId: int, bucket: nat, ghost t0: Tables)
      requires Valid() && bucket < NEW_BUCKET_COUNT && nId in mapInfo && nId in t0.mapInfo && GridsOk(t0)
      requires State() == Ops.ClearBuckets(t0, nId, bucket)
      modifies this`mapInfo, vvNew
      ensures nId in mapInfo && State() == Ops.ClearBuckets(t0, nId, bucket + 1)
    {
      hide GridsOk, IsGrid, Ops.ClearBuckets;
      ghost var t := State();
      var pos := BucketPosition(true, bucket, mapInfo[nId].svc);
      assert t.vvNew[(bucket, pos)] == vvNew[bucket, pos];
      if vvNew[bucket, pos] == nId {
        DropSlot(nId, bucket, pos);
      }
      ClearOneMore(t0, t, State(), nId, bucket);
    }

    method DropSlot(nId: int, b: int, p: int)
      requires Valid() && nId in mapInfo && 0 <= b < NEW_BUCKET_COUNT && 0 <= p < BUCKET_SIZE
      modifies this`mapInfo, vvNew
      ensures State() == AddrManTables.DropSlot(old(State()), nId, (b, p))
    {
      SetSlot(vvNew, b, p, -1);
      mapInfo := mapInfo[nId := mapInfo[nId].(nRefCount := mapInfo[nId].nRefCount - 1)];
    }

    method EvictTried(nKBucket: int, nKBucketPos: int, ghost limbo: set<int>, ghost uncounted: nat)
      requires Valid() && Partial(State(), limbo, uncounted)
      requires 0 <= nKBucket < TRIED_BUCKET_COUNT && 0 <= nKBucketPos < BUCKET_SIZE
      requires vvTried[nKBucket, nKBucketPos] != -1
      modifies this, vvNew, vvTried
      ensures State() == Ops.Evict(old(State()), (nKBucket, nKBucketPos), limbo, uncounted)
    {
      ghost var t0 := State();
      var nIdEvict := vvTried[nKBucket, nKBucketPos];
      Ops.EvictKeeps(t0, (nKBucket, nKBucketPos), limbo, uncounted);
      LeaveTried(nIdEvict, nKBucket, nKBucketPos);
      ghost var t1 := State();
      LeaveTriedKeeps(t0, nIdEvict, (nKBucket, nKBucketPos), limbo, uncounted);

      // its home slot in the new table
      var nUBucket := NewBucketOf(mapInfo[nIdEvict].svc, mapInfo[nIdEvict].source);
      var nUBucketPos := BucketPosition(true, nUBucket, mapInfo[nIdEvict].svc);
      ClearNewKeeps(t1, (nUBucket, nUBucketPos), limbo + {nIdEvict}, uncounted + 1);
      ClearNew(nUBucket, nUBucketPos);
      assert vvNew[nUBucket, nUBucketPos] == -1;
      ReturnToNew(nIdEvict, nUBucket, nUBucketPos);
    }

    method LeaveTried(nId: int, b: int, p: int)
      requires Valid() && nId in mapInfo && 0 <= b < TRIED_BUCKET_COUNT && 0 <= p < BUCKET_SIZE
      modifies this, vvTried
      ensures State() == AddrManTables.LeaveTried(old(State()), nId, (b, p))
    {
      mapInfo := mapInfo[nId := mapInfo[nId].(fInTried := false)];
      SetSlot(vvTried, b, p, -1);
      nTried := nTried - 1;
    }

    method EnterTried(nId: int, b: int, p: int)
      requires Valid() && nId in mapInfo && 0 <= b < TRIED_BUCKET_COUNT && 0 <= p < BUCKET_SIZE
      modifies this, vvTried
      ensures State() == AddrManTables.EnterTried(old(State()), nId, (b, p))
    {
      SetSlot(vvTried, b, p, nId);
      nTried := nTried + 1;
      mapInfo := mapInfo[nId := mapInfo[nId].(fInTried := true)];
    }

    method ReturnToNew(nId: int, b: int, p: int)
      requires Valid() && nId in mapInfo && 0 <= b < NEW_BUCKET_COUNT && 0 <= p < BUCKET_SIZE
      modifies this, vvNew
      ensures State() == Ops.ReturnToNew(old(State()), nId, (b, p))
    {
      mapInfo := mapInfo[nId := mapInfo[nId].(nRefCount := 1)];
      SetSlot(vvNew, b, p, nId);
      nNew := nNew + 1;
    }

    /** Whether some new bucket holds the entry, searched from a random bucket on. */
    method SearchNew(nId: int) returns (nUBucket: int)
      requires Valid() && nId in mapInfo && GridsOk(State())
      ensures nUBucket != -1 <==> Ops.InSomeBucket(State(), nId)
    {
      hide Passed, GridOf;
      var nRnd := RandomInt(NEW_BUCKET_COUNT);
      var svc := mapInfo[nId].svc;
      ghost var t := State();
      PassAll(t, nId, nRnd);
      nUBucket := -1;
      var n := 0;
      while n < NEW_BUCKET_COUNT
        invariant 0 <= n <= NEW_BUCKET_COUNT && nUBucket == -1
        invariant Passed(t, nId, nRnd, n)
      {
        var nB := (n + nRnd) % NEW_BUCKET_COUNT;
        var nBpos := BucketPosition(true, nB, svc);
        GridAt(vvNew, nB, nBpos);
        if vvNew[nB, nBpos] == nId {
          assert t.vvNew[NewSlot(t, nB, svc)] == nId;
          nUBucket := nB;
          return;
        }
        PassOne(t, nId, nRnd, n);
        n := n + 1;
      }
    }

    method Good_(addr: Service, nTime: int)
      requires Valid() && Structured(State())
      modifies this, vvNew, vvTried
      ensures State() == Ops.Good(old(State()), addr, nTime)
      ensures Structured(State())
    {
      hide Partial, Ops.InSomeBucket, Ops.MakeTried, GridOf;
      ghost var t := State();
      Ops.StructuredGrids(t);
      Ops.GoodKeeps(t, addr, nTime);
      nLastGood := nTime;
      var found := Find(addr.net);
      if found.Missing? || mapInfo[found.id].svc != addr {
        return;
      }
      var nId := found.id;
      mapInfo := mapInfo[nId := mapInfo[nId].(nLastSuccess := nTime, nLastTry := nTime, nAttempts := 0)];
      assert State() == Ops.MarkGood(t, addr, nTime);
      Ops.MarkGoodKeeps(t, addr, nTime);
      if mapInfo[nId].fInTried {
        return;
      }
      Ops.StructuredGrids(State());
      var nUBucket := SearchNew(nId);
      if nUBucket == -1 {
        return;
      }
      MakeTried(nId);
    }

    method Attempt_(addr: Service, fCountFailure: bool, nTime: int)
      requires Valid() && Structured(State())
      modifies this`mapInfo
      ensures State() == Ops.Attempt(old(State()), addr, fCountFailure, nTime)
      ensures Structured(State())
    {
      hide Partial;
      Ops.AttemptKeeps(State(), addr, fCountFailure, nTime);
      var found := Find(addr.net);
      if found.Missing? || mapInfo[found.id].svc != addr {
        return;
      }
      var nId := found.id;
      mapInfo := mapInfo[nId := mapInfo[nId].(nLastTry := nTime)];
      if fCountFailure && mapInfo[nId].nLastCountAttempt < nLastGood {
        mapInfo := mapInfo[nId := mapInfo[nId].(nLastCountAttempt := nTime, nAttempts := mapInfo[nId].nAttempts + 1)];
      }
    }

    method Connected_(addr: Service, nTime: int)
      requires Valid() && Structured(State())
      modifies this`mapInfo
      ensures State() == Ops.Connected(old(State()), addr, nTime)
      ensures Structured(State())
    {
      hide Partial;
      Ops.ConnectedKeeps(State(), addr, nTime);
      var found := Find(addr.net);
      if found.Missing? || mapInfo[found.id].svc != addr {
        return;
      }
      if nTime - mapInfo[found.id].nTime > 20 * 60 {
        mapInfo := mapInfo[found.id := mapInfo[found.id].(nTime := nTime % Ops.UINT32)];
      }
    }

    method SetServices_(addr: Service, nServices: ServiceFlags)
      requires Valid() && Structured(State())
      modifies this`mapInfo
      ensures State() == Ops.SetServices(old(State()), addr, nServices)
      ensures Structured(State())
    {
      hide Partial;
      Ops.SetServicesKeeps(State(), addr, nServices);
      var found := Find(addr.net);
      if found.Missing? || mapInfo[found.id].svc != addr {
        return;
      }
      mapInfo := mapInfo[found.id := mapInfo[found.id].(nServices := nServices)];
    }

    /** The stochastic test for one more slot: passed once in 2^n times for an entry with n slots. */
    method PassesStochasticTest(nRefCount: nat) returns (pass: bool, draw: nat)
      ensures draw < Ops.Pow2(nRefCount) && (pass <==> draw == 0)
      ensures pass <==> (nRefCount > 0 ==> draw % Ops.Pow2(nRefCount) == 0)
    {
      var nFactor := 1;
      for n := 0 to nRefCount
        invariant nFactor == Ops.Pow2(n)
      {
        nFactor := nFactor * 2;
      }
      hide Ops.Pow2;
      draw := 0;
      pass := true;
      if nFactor > 1 {
        var r := RandomInt(nFactor);
        draw := r;
        pass := r == 0;
      }
      SmallRemainder(draw, nFactor);
    }

    method Add_(addr: Address, source: NetAddr, nTimePenalty: int, now: int) returns (fNew: bool, ghost draw: nat)
      requires Valid() && Structured(State())
      modifies this, vvNew
      ensures State() == Ops.Add(old(State()), addr, source, nTimePenalty, now, draw)
      ensures fNew <==> env.routable(addr.svc) && addr.svc.net !in old(mapAddr)
      ensures Structured(State())
    {
      hide Partial, Ops.Place, Ops.Refreshed, Ops.Introduce, GridOf;
      ghost var t := State();
      draw := 0;
      Ops.AddKeeps(t, addr, source, nTimePenalty, now, draw);
      if !env.routable(addr.svc) {
        return false, draw;
      }
      Ops.StructuredGrids(t);
      fNew := false;
      var found := Find(addr.svc.net);
      var penalty := if addr.svc.net == source then 0 else nTimePenalty;
      var nId: int;
      if found.Entry? {
        nId := found.id;
        RefreshEntry(nId, addr, penalty, now);
        Ops.RefreshKeeps(t, nId, addr, penalty, now);
        if addr.nTime == 0 || (mapInfo[nId].nTime != 0 && addr.nTime <= mapInfo[nId].nTime) {
          return;
        }
        if mapInfo[nId].fInTried {
          return;
        }
        if mapInfo[nId].nRefCount == NEW_BUCKETS_PER_ADDRESS {
          return;
        }
        RefCountsBounded(State(), nId);
        var pass;
        pass, draw := PassesStochasticTest(mapInfo[nId].nRefCount);
        Ops.AddKeeps(t, addr, source, nTimePenalty, now, draw);
        if !pass {
          return;
        }
        Place(nId, source, now, {});
      } else {
        nId := IntroduceEntry(addr, source, penalty);
        Ops.IntroduceKeeps(t, addr, source, penalty);
        IntroducedBounded(State(), nId);
        fNew := true;
        Place(nId, source, now, {nId});
      }
    }

    method RefreshEntry(nId: int, addr: Address, penalty: int, now: int)
      requires nId in mapInfo
      modifies this`mapInfo
      ensures State() == Ops.Refresh(old(State()), nId, addr, penalty, now)
    {
      hide GridOf;
      var fCurrentlyOnline := now - addr.nTime < Ops.DAY;
      var nUpdateInterval := if fCurrentlyOnline then 60 * 60 else Ops.DAY;
      if addr.nTime != 0 && (mapInfo[nId].nTime == 0 || mapInfo[nId].nTime < addr.nTime - nUpdateInterval - penalty) {
        mapInfo := mapInfo[nId := mapInfo[nId].(nTime := Ops.Max(0, addr.nTime - penalty) % Ops.UINT32)];
      }
      mapInfo := mapInfo[nId := mapInfo[nId].(nServices := mapInfo[nId].nServices + addr.nServices)];
    }

    method IntroduceEntry(addr: Address, source: NetAddr, penalty: int) returns (nId: int)
      modifies this
      ensures State() == Ops.Introduce(old(State()), addr, source, penalty) && nId == old(nIdCount)
    {
      hide GridOf;
      nId := Create(addr, source);
      mapInfo := mapInfo[nId := mapInfo[nId].(nTime := Ops.Max(0, mapInfo[nId].nTime - penalty) % Ops.UINT32)];
      nNew := nNew + 1;
    }

    /** Whether the slot is free, or its occupant yields to the entry. */
    method MayInsert(nId: int, nUBucket: int, nUBucketPos: int, now: int) returns (fInsert: bool)
      requires Valid() && 0 <= nUBucket < NEW_BUCKET_COUNT && 0 <= nUBucketPos < BUCKET_SIZE
      requires nId in mapInfo
      requires vvNew[nUBucket, nUBucketPos] != -1 ==> vvNew[nUBucket, nUBucketPos] in mapInfo
      ensures var existing := vvNew[nUBucket, nUBucketPos];
              fInsert <==> existing == -1 || Ops.Yields(mapInfo[existing], mapInfo[nId], now)
    {
      fInsert := vvNew[nUBucket, nUBucketPos] == -1;
      if !fInsert {
        var infoExisting := mapInfo[vvNew[nUBucket, nUBucketPos]];
        if Ops.IsTerrible(infoExisting, now) || (infoExisting.nRefCount > 1 && mapInfo[nId].nRefCount == 0) {
          fInsert := true;
        }
      }
    }

    method Place(nId: int, source: NetAddr, now: int, ghost limbo: set<int>)
      requires Valid() && Partial(State(), limbo, 0) && limbo <= {nId} && nId in mapInfo
      requires !mapInfo[nId].fInTried && mapInfo[nId].nRefCount < NEW_BUCKETS_PER_ADDRESS
      modifies this, vvNew
      ensures State() == Ops.Place(old(State()), nId, source, now, limbo)
    {
      hide Partial, Ops.Place, GridOf;
      var nUBucket := NewBucketOf(mapInfo[nId].svc, source);
      var nUBucketPos := BucketPosition(true, nUBucket, mapInfo[nId].svc);
      ghost var t := State();
      PlaceCases(t, nId, source, now, limbo);
      GridAt(vvNew, nUBucket, nUBucketPos);
      if vvNew[nUBucket, nUBucketPos] != nId {
        var fInsert := MayInsert(nId, nUBucket, nUBucketPos, now);
        if fInsert {
          ClearNew(nUBucket, nUBucketPos);
          TakeSlot(nId, nUBucket, nUBucketPos);
        } else if mapInfo[nId].nRefCount == 0 {
          Delete(nId);
        }
      }
    }

    method TakeSlot(nId: int, b: int, p: int)
      requires Valid() && nId in mapInfo && 0 <= b < NEW_BUCKET_COUNT && 0 <= p < BUCKET_SIZE
      modifies this`mapInfo, vvNew
      ensures State() == AddrManTables.TakeSlot(old(State()), nId, (b, p))
    {
      mapInfo := mapInfo[nId := mapInfo[nId].(nRefCount := mapInfo[nId].nRefCount + 1)];
      SetSlot(vvNew, b, p, nId);
    }

    /** Collects a random sample of addresses; `picks` are the random draws, `ids` the entries returned. */
    method GetAddr_(now: int) returns (vAddr: seq<Address>, ghost picks: seq<nat>, ghost ids: seq<int>)
      requires Valid() && Structured(State())
      modifies this`mapInfo, this`vRandom
      ensures (State(), ids) == Ops.Sample(old(State()), 0, picks, [], now)
      ensures Structured(State())
      ensures |vAddr| == |ids| && forall i :: 0 <= i < |ids| ==> ids[i] in mapInfo && vAddr[i] == AddressOf(mapInfo[ids[i]])
    {
      hide Partial, GridOf, Ops.Sample, Ops.SampleLimit, Ops.IsTerrible;
      hide RandomOk, AddrManTables.SwapRandom, SameTables, SampleSoFar, Listed;
      ghost var t0 := State();
      Ops.StructuredGrids(t0);
      var nNodes := Ops.SampleLimit(|vRandom|);
      vAddr, picks, ids := [], [], [];
      var n := 0;
      SampleNone(t0, now);
      ListedNone(t0);
      while n < |vRandom| && |vAddr| < nNodes
        invariant 0 <= n <= |vRandom| == |t0.vRandom| && |picks| == n
        invariant RandomOk(State())
        invariant SampleSoFar(t0, State(), n, picks, ids, now)
        invariant Listed(State(), ids, vAddr)
      {
        ghost var t := State();
        var r := ShuffleStep(n);
        ListedLength(t, ids, vAddr);
        ListedSame(t, State(), ids, vAddr);
        SampleOneMore(t0, t, n, picks, ids, now, r);
        picks := picks + [r];
        var id := vRandom[n];
        if !Ops.IsTerrible(mapInfo[id], now) {
          ListedOneMore(State(), ids, vAddr, id);
          vAddr := vAddr + [AddressOf(mapInfo[id])];
          ids := ids + [id];
        }
        n := n + 1;
      }
      ListedLength(State(), ids, vAddr);
      SampleDone(t0, State(), n, picks, ids, now);
      Ops.SampleSound(t0, picks, now);
    }

    method ShuffleStep(n: nat) returns (r: nat)
      requires RandomOk(State()) && n < |vRandom|
      modifies this`mapInfo, this`vRandom
      ensures r < |vRandom| - n && |vRandom| == old(|vRandom|)
      ensures State() == AddrManTables.SwapRandom(old(State()), n, n + r)
      ensures RandomOk(State()) && SameTables(old(State()), State()) && vRandom[n] in mapInfo
    {
      hide SameTables, GridOf, RandomOk, AddrManTables.SwapRandom;
      ghost var t := State();
      r := RandomInt(|vRandom| - n);
      RandomListed(t, n);
      RandomListed(t, n + r);
      SwapRandomOk(t, n, n + r);
      SwapSameTables(t, n, n + r);
      SwapKeepsLength(t, n, n + r);
      SwapRandom(n, n + r);
      RandomListed(State(), n);
    }

    // ----- the on-disk form -----

    method Serialize() returns (s: seq<Token>)
      requires Valid() && Structured(State())
      ensures GridsOk(State()) && s == Serialized(State())
    {
      hide Partial, Header, Infos, NewOf, TriedOf, Ranks, BucketTokens;
      Ops.StructuredGrids(State());
      var ids := WalkOrder();
      RoundTrips.OrderMembers(State());
      var header := WriteHeader();
      var news, mapUnkIds := WriteNew(ids);
      var trieds := WriteTried(ids);
      var buckets := WriteBuckets(mapUnkIds);
      s := header + news + trieds + buckets;
    }

    method WalkOrder() returns (ids: seq<int>)
      ensures ids == Ascending(mapInfo.Keys) && Known(State(), ids)
    {
      ids := Ascending(mapInfo.Keys);
      assert forall i :: 0 <= i < |ids| ==> ids[i] in mapInfo.Keys;
    }

    method WriteHeader() returns (s: seq<Token>)
      ensures s == Header(State())
    {
      s := [Byte(1), Byte(32), Key(nKey), Int(nNew), Int(nTried), Int(FlipBit30(NEW_BUCKET_COUNT))];
    }

    method WriteNew(ids: seq<int>) returns (s: seq<Token>, mapUnkIds: map<int, int>)
      requires Known(State(), ids) && |NewOf(State(), ids)| == nNew
      ensures s == Infos(State(), NewOf(State(), ids)) && mapUnkIds == Ranks(State(), ids)
    {
      hide GridOf;
      ghost var t := State();
      s, mapUnkIds := [], map[];
      var nIds := 0;
      for i := 0 to |ids|
        invariant s == Infos(t, NewOf(t, ids[..i])) && mapUnkIds == Ranks(t, ids[..i]) && nIds == |NewOf(t, ids[..i])|
      {
        PrefixStep(t, ids, i);
        mapUnkIds := mapUnkIds[ids[i] := nIds];
        if mapInfo[ids[i]].nRefCount != 0 {
          WalkCounts(t, ids, i + 1);
          assert nIds != nNew;
          s := s + [Info(ToDisk(mapInfo[ids[i]]))];
          nIds := nIds + 1;
        }
      }
      assert ids[..|ids|] == ids;
    }

    method WriteTried(ids: seq<int>) returns (s: seq<Token>)
      requires Known(State(), ids) && |TriedOf(State(), ids)| == nTried
      ensures s == Infos(State(), TriedOf(State(), ids))
    {
      hide GridOf;
      ghost var t := State();
      s := [];
      var nIds := 0;
      for i := 0 to |ids|
        invariant s == Infos(t, TriedOf(t, ids[..i])) && nIds == |TriedOf(t, ids[..i])|
      {
        PrefixStep(t, ids, i);
        if mapInfo[ids[i]].fInTried {
          WalkCounts(t, ids, i + 1);
          assert nIds != nTried;
          s := s + [Info(ToDisk(mapInfo[ids[i]]))];
          nIds := nIds + 1;
        }
      }
      assert ids[..|ids|] == ids;
    }

    method WriteBuckets(mapUnkIds: map<int, int>) returns (s: seq<Token>)
      requires Valid() && GridsOk(State())
      ensures s == BucketTokens(State(), mapUnkIds, 0)
    {
      hide GridOf, IsGrid, BucketTokens, Occupants, Indexes;
      ghost var t := State();
      s := [];
      for bucket := 0 to NEW_BUCKET_COUNT
        invariant Completes(s, BucketTokens(t, mapUnkIds, bucket), BucketTokens(t, mapUnkIds, 0))
      {
        var nSize := BucketCount(bucket);
        var indexes := BucketIndexes(bucket, mapUnkIds);
        BucketTokensStep(t, mapUnkIds, bucket, s);
        s := s + ([Int(nSize)] + indexes);
      }
      BucketTokensEnd(t, mapUnkIds);
    }

    method BucketCount(bucket: nat) returns (nSize: nat)
      requires Valid() && GridsOk(State()) && bucket < NEW_BUCKET_COUNT
      ensures nSize == |Occupants(State(), bucket, 0)|
    {
      hide Occupants, GridOf, GridsOk;
      ghost var t := State();
      OccupantsEnd(t, bucket);
      nSize := 0;
      for i := 0 to BUCKET_SIZE
        invariant nSize + |Occupants(t, bucket, i)| == |Occupants(t, bucket, 0)|
      {
        OccupantsNext(t, bucket, i);
        GridAt(vvNew, bucket, i);
        if vvNew[bucket, i] != -1 {
          nSize := nSize + 1;
        }
      }
    }

    method BucketIndexes(bucket: nat, mapUnkIds: map<int, int>) returns (indexes: seq<Token>)
      requires Valid() && GridsOk(State()) && bucket < NEW_BUCKET_COUNT
      ensures indexes == Indexes(mapUnkIds, Occupants(State(), bucket, 0))
    {
      hide IsGrid, Occupants, GridOf, Indexes;
      ghost var t := State();
      indexes := [];
      for i := 0 to BUCKET_SIZE
        invariant Completes(indexes, Indexes(mapUnkIds, Occupants(t, bucket, i)), Indexes(mapUnkIds, Occupants(t, bucket, 0)))
      {
        GridAt(vvNew, bucket, i);
        IndexesStep(t, mapUnkIds, bucket, i, indexes);
        if vvNew[bucket, i] != -1 {
          var nIndex := if vvNew[bucket, i] in mapUnkIds then mapUnkIds[vvNew[bucket, i]] else 0;
          indexes := indexes + [Int(nIndex)];
        }
      }
      IndexesEnd(t, mapUnkIds, bucket);
    }

    /** Empties everything but the two maps. */
    method Clear(key: nat)
      requires Valid()
      modifies this, vvNew, vvTried
      ensures State() == Ops.Reset(old(State()), key)
      ensures key != 0 ==> (Structured(State()) <==> old(mapInfo) == map[] && old(mapAddr) == map[])
    {
      hide GridOf, Ops.EmptyGrid;
      vRandom := [];
      nKey := key;
      FreeAll(vvNew);
      FreeAll(vvTried);
      nIdCount, nTried, nNew, nLastGood := 0, 0, 0, 1;
      hide Structured;
      if key != 0 {
        Ops.ResetStructured(old(State()), key);
      }
    }

    /** Reads any stream into this freshly constructed manager. */
    method Unserialize(s: seq<Token>) returns (ok: bool, nLost: nat, nLostUnk: nat)
      requires Valid() && mapInfo == map[] && mapAddr == map[]
      modifies this, vvNew, vvTried
      ensures var r := AddrManStream.Unserialize(env, s);
              ok == r.Loaded? && (ok ==> State() == r.t && nLost == r.nLost && nLostUnk == r.nLostUnk)
      ensures ok ==> (Structured(State()) <==> Accepted.Coherent(env, s))
      ensures !ok ==> (mapInfo == map[] && mapAddr == map[] <==> TouchesNothing(s))
    {
      hide GridOf, ReadNews, ReadTrieds, ReadBuckets, Prune, Loadable, Ops.EmptyGrid, AllFree, ReadBody, FlipBit30;
      hide Structured, Accepted.Coherent;
      ok, nLost, nLostUnk := false, 0, 0;
      Clear(nKey);
      if !(|s| >= 6 && s[0].Byte? && s[1].Byte? && s[2].Key? && s[3].Int? && s[4].Int? && s[5].Int?) {
        return;
      }
      var nVersion := s[0].b;
      if s[1].b != 32 {
        return;
      }
      nKey, nNew, nTried := s[2].k, s[3].n, s[4].n;
      var nUBuckets := s[5].n;
      if nVersion != 0 {
        nUBuckets := FlipBit30(nUBuckets);
      }
      if nNew > NEW_BUCKET_COUNT * BUCKET_SIZE || nTried > TRIED_BUCKET_COUNT * BUCKET_SIZE {
        return;
      }
      var usable := nVersion == 1 && nUBuckets == NEW_BUCKET_COUNT;
      assert State() == Blank(env, s[2].k, nNew, nTried);
      BlankFree(env, s[2].k, nNew, nTried);
      ok, nLost := LoadBody(nUBuckets, usable, s[6..]);
      if ok {
        nLostUnk := PruneUnreferenced();
        AcceptedAgree(s);
      }
    }

    lemma AcceptedAgree(s: seq<Token>)
      requires AddrManStream.Unserialize(env, s).Loaded? && State() == AddrManStream.Unserialize(env, s).t
      ensures Structured(State()) <==> Accepted.Coherent(env, s)
    {
      hide Structured, Accepted.Coherent, AddrManStream.Unserialize, GridOf;
      Accepted.AcceptedStructured(env, s);
    }

    /**
     Reads the stored addresses, and clears the manager if that fails. After a failure the indexes
     agree exactly if the stream failed before any entry was touched; after a success, exactly if
     the stream is coherent.
     */
    method ReadOrClear(s: seq<Token>, key: nat) returns (ok: bool)
      requires Valid() && mapInfo == map[] && mapAddr == map[] && key != 0
      modifies this, vvNew, vvTried
      ensures var r := AddrManStream.Unserialize(env, s); ok == r.Loaded? && (ok ==> State() == r.t)
      ensures Structured(State()) <==> if ok then Accepted.Coherent(env, s) else TouchesNothing(s)
    {
      hide GridOf, Structured, AddrManStream.Unserialize, TouchesNothing, Accepted.Coherent;
      var nLost, nLostUnk;
      ok, nLost, nLostUnk := Unserialize(s);
      if !ok {
        Clear(key);
      }
    }

    method LoadBody(nUBuckets: int, usable: bool, s: seq<Token>) returns (ok: bool, nLost: nat)
      requires Valid() && forall next :: Loadable(State(), next)
      modifies this, vvNew, vvTried
      ensures var r := ReadBody(old(State()), old(nNew), old(nTried), nUBuckets, usable, s);
              ok == r.Got? && (ok ==> State() == r.value.0 && nLost == r.value.1 && RandomOk(State()))
      ensures !ok && old(mapInfo) == map[] && old(mapAddr) == map[] && old(AllFree(GridOf(vvTried))) ==>
        (mapInfo == map[] && mapAddr == map[] <==> old(nNew) <= 0 && (old(nTried) <= 0 || !StartsWithInfo(s)))
    {
      hide GridOf, ReadNews, ReadTrieds, ReadBuckets, GridsOk, RandomOk;
      nLost := 0;
      ghost var n0, k0 := nNew, nTried;
      var rest;
      ok, rest := ReadNewEntries(usable, s);
      if !ok {
        return;
      }
      ghost var t1 := State();
      nIdCount := nNew;
      LoadableRecount(t1, State(), nNew);
      ok, nLost, rest := ReadTriedEntries(rest);
      if !ok {
        return;
      }
      ghost var t2 := State();
      nTried := nTried - nLost;
      LoadableRecount(t2, State(), nIdCount);
      ok := ReadBucketTable(nUBuckets, usable, rest);
    }

    method ReadNewEntries(usable: bool, s: seq<Token>) returns (ok: bool, rest: seq<Token>)
      requires Valid() && Loadable(State(), 0)
      modifies this, vvNew
      ensures Loadable(old(State()), 0)
      ensures var r := ReadNews(old(State()), 0, old(nNew), usable, s);
              ok == r.Got? && (ok ==> State() == r.value && rest == r.rest)
      ensures nNew == old(nNew) && nTried == old(nTried)
      ensures nNew <= 0 ==> ok && State() == old(State()) && rest == s
      ensures nNew > 0 ==> mapInfo != map[]
    {
      hide GridOf, Loadable, LoadNew;
      ghost var t0 := State();
      rest := s;
      var n := 0;
      while n < nNew
        invariant 0 <= n <= Ops.Max(0, nNew) && nNew == t0.nNew && nTried == t0.nTried && Loadable(State(), n)
        invariant ReadNews(t0, 0, t0.nNew, usable, s) == ReadNews(State(), n, t0.nNew, usable, rest)
        invariant n == 0 ==> State() == t0 && rest == s
        invariant n > 0 ==> mapInfo != map[]
      {
        if rest == [] || !rest[0].Info? {
          // the entry is made before it is read
          mapInfo := mapInfo[n := FreshInfo(Address(Service(NetAddr(0), 0), {}, 0), NetAddr(0), -1)];
          assert n in mapInfo;
          ok := false;
          return;
        }
        LoadNewEntry(n, rest[0].info, usable);
        n := n + 1;
        rest := rest[1..];
      }
      ok := true;
    }

    method LoadNewEntry(n: int, d: DiskInfo, usable: bool)
      requires Valid() && Loadable(State(), n)
      modifies this, vvNew
      ensures State() == LoadNew(old(State()), n, d, usable) && n in mapInfo
      ensures nNew == old(nNew) && nTried == old(nTried)
    {
      hide GridOf, Loadable;
      AppendEntry(n, d, false);
      if !usable {
        var nUBucket := NewBucketOf(d.svc, d.source);
        var nUBucketPos := BucketPosition(true, nUBucket, d.svc);
        GridAt(vvNew, nUBucket, nUBucketPos);
        if vvNew[nUBucket, nUBucketPos] == -1 {
          TakeSlot(n, nUBucket, nUBucketPos);
        }
      }
    }

    method AppendEntry(n: int, d: DiskInfo, inTried: bool)
      modifies this
      ensures n in mapInfo && State() == Append(old(State()), n, d, inTried)
    {
      hide GridOf;
      mapInfo := mapInfo[n := FromDisk(d, inTried, |vRandom|)];
      mapAddr := mapAddr[d.svc.net := n];
      vRandom := vRandom + [n];
    }

    method ReadTriedEntries(s: seq<Token>) returns (ok: bool, nLost: nat, rest: seq<Token>)
      requires Valid() && Loadable(State(), nIdCount)
      modifies this, vvTried
      ensures var r := ReadTrieds(old(State()), 0, old(nTried), 0, s);
              ok == r.Got? && (ok ==> State() == r.value.0 && nLost == r.value.1 && rest == r.rest && nTried == old(nTried))
      ensures old(mapInfo) != map[] ==> mapInfo != map[]
      ensures old(nTried) <= 0 || !StartsWithInfo(s) ==> mapInfo == old(mapInfo) && mapAddr == old(mapAddr)
      ensures old(nTried) > 0 && StartsWithInfo(s) && old(AllFree(GridOf(vvTried))) ==> mapInfo != map[]
    {
      hide GridOf, Loadable, LoadTried, TriedSlot;
      ghost var t0 := State();
      rest, nLost := s, 0;
      var n := 0;
      while n < nTried
        invariant 0 <= n && nTried == t0.nTried && Loadable(State(), nIdCount)
        invariant ReadTrieds(t0, 0, t0.nTried, 0, s) == ReadTrieds(State(), n, t0.nTried, nLost, rest)
        invariant n == 0 ==> State() == t0 && rest == s
        invariant n > 0 ==> StartsWithInfo(s) && (t0.mapInfo != map[] || AllFree(t0.vvTried) ==> mapInfo != map[])
      {
        if rest == [] || !rest[0].Info? {
          ok := false;
          return;
        }
        var placed := LoadTriedEntry(rest[0].info);
        if !placed {
          nLost := nLost + 1;
        }
        n := n + 1;
        rest := rest[1..];
      }
      ok := true;
    }

    method LoadTriedEntry(d: DiskInfo) returns (placed: bool)
      requires Valid() && Loadable(State(), nIdCount)
      modifies this, vvTried
      ensures TriedSlot(old(State()), d.svc) in old(State()).vvTried
      ensures placed == (old(State()).vvTried[TriedSlot(old(State()), d.svc)] == -1)
      ensures State() == (if placed then LoadTried(old(State()), d) else old(State()))
      ensures nTried == old(nTried) && (placed ==> old(nIdCount) in mapInfo)
    {
      hide GridOf, Loadable;
      var nKBucket := TriedBucketOf(d.svc);
      var nKBucketPos := BucketPosition(false, nKBucket, d.svc);
      GridAt(vvTried, nKBucket, nKBucketPos);
      placed := vvTried[nKBucket, nKBucketPos] == -1;
      if placed {
        AppendEntry(nIdCount, d, true);
        SetSlot(vvTried, nKBucket, nKBucketPos, nIdCount);
        nIdCount := nIdCount + 1;
      }
    }

    method ReadBucketTable(nUBuckets: int, usable: bool, s: seq<Token>) returns (ok: bool)
      requires Valid() && Loadable(State(), nIdCount)
      modifies this`mapInfo, vvNew
      ensures var r := ReadBuckets(old(State()), 0, nUBuckets, usable, s);
              ok == r.Got? && (ok ==> State() == r.value)
      ensures mapInfo.Keys == old(mapInfo.Keys)
    {
      hide GridOf, Loadable, ReadIndexes;
      ghost var t0 := State();
      var rest := s;
      var bucket := 0;
      while bucket < nUBuckets
        invariant 0 <= bucket && Loadable(State(), nIdCount)
        invariant ReadBuckets(t0, 0, nUBuckets, usable, s) == ReadBuckets(State(), bucket, nUBuckets, usable, rest)
        invariant mapInfo.Keys == t0.mapInfo.Keys
      {
        if rest == [] || !rest[0].Int? {
          ok := false;
          return;
        }
        ok, rest := ReadBucket(bucket, rest[0].n, usable, rest[1..]);
        if !ok {
          return;
        }
        bucket := bucket + 1;
      }
      ok := true;
    }

    method ReadBucket(bucket: nat, nSize: int, usable: bool, s: seq<Token>) returns (ok: bool, rest: seq<Token>)
      requires Valid() && Loadable(State(), nIdCount)
      modifies this`mapInfo, vvNew
      ensures var r := ReadIndexes(old(State()), bucket, nSize, usable, s);
              ok == r.Got? && (ok ==> State() == r.value && rest == r.rest)
      ensures mapInfo.Keys == old(mapInfo.Keys)
    {
      hide GridOf, Loadable, LoadIndex;
      ghost var t0 := State();
      rest := s;
      var n := 0;
      while n < nSize
        invariant 0 <= n && (n <= nSize || nSize < 0) && Loadable(State(), nIdCount)
        invariant ReadIndexes(t0, bucket, nSize, usable, s) == ReadIndexes(State(), bucket, nSize - n, usable, rest)
        invariant mapInfo.Keys == t0.mapInfo.Keys
      {
        if rest == [] || !rest[0].Int? {
          ok := false;
          return;
        }
        LoadBucketIndex(bucket, rest[0].n, usable);
        n := n + 1;
        rest := rest[1..];
      }
      ok := true;
    }

    method LoadBucketIndex(bucket: nat, nIndex: int, usable: bool)
      requires Valid() && Loadable(State(), nIdCount)
      modifies this`mapInfo, vvNew
      ensures State() == LoadIndex(old(State()), bucket, nIndex, usable) && mapInfo.Keys == old(mapInfo.Keys)
    {
      hide GridOf, Loadable;
      if 0 <= nIndex < nNew && nIndex in mapInfo && usable && bucket < NEW_BUCKET_COUNT {
        var nUBucketPos := BucketPosition(true, bucket, mapInfo[nIndex].svc);
        GridAt(vvNew, bucket, nUBucketPos);
        if vvNew[bucket, nUBucketPos] == -1 && mapInfo[nIndex].nRefCount < NEW_BUCKETS_PER_ADDRESS {
          TakeSlot(nIndex, bucket, nUBucketPos);
        }
      }
    }

    method PruneUnreferenced() returns (nLostUnk: nat)
      requires Valid() && RandomOk(State())
      modifies this
      ensures (State(), nLostUnk) == Prune(old(State()), Ascending(old(mapInfo).Keys), 0)
    {
      hide GridOf, RandomOk, Prune, AddrManTables.Delete;
      ghost var t0 := State();
      var ids := Ascending(mapInfo.Keys);
      nLostUnk := 0;
      var i := 0;
      assert ids[0..] == ids;
      while i < |ids|
        invariant 0 <= i <= |ids| && RandomOk(State())
        invariant Prune(t0, ids, 0) == Prune(State(), ids[i..], nLostUnk)
      {
        PruneNext(State(), ids, i, nLostUnk);
        if ids[i] in mapInfo && !mapInfo[ids[i]].fInTried && mapInfo[ids[i]].nRefCount == 0 {
          DeleteRandomOk(State(), ids[i]);
          Delete(ids[i]);
          nLostUnk := nLostUnk + 1;
        }
        i := i + 1;
      }
      assert ids[i..] == [];
      PruneEnds(State(), nLostUnk);
    }
  }
}
