/**
 What reading an arbitrary stream leaves: everything but the index by address always agrees,
 and that one exactly if no address is shared.
 */
module AddrManAccepted {
  import opened AddrManTables
  import opened AddrManStream
  import Ops = AddrManOps
  import RoundTrips = AddrManRoundTrip

  /** The entries that got no slot and are about to be pruned. */
  ghost function Unplaced(t: Tables): set<int> {
    set id | id in t.mapInfo && !t.mapInfo[id].fInTried && t.mapInfo[id].nRefCount == 0
  }

  /** The invariant without the index by address and the counters. */
  ghost predicate Sound(t: Tables) {
    GridsOk(t) && IdsOk(t) && RandomOk(t) && EntriesOk(t, Unplaced(t)) && TriedOk(t) && NewOk(t)
  }

  /** Ids count from zero, the `nNew` entries of the new table first. */
  ghost predicate Numbered(t: Tables, nNew: int) {
    && (forall id :: id in t.mapInfo <==> 0 <= id < t.nIdCount)
    && (forall id :: id in t.mapInfo ==> (t.mapInfo[id].fInTried <==> id >= nNew))
    && |t.vRandom| == t.nIdCount
  }

  /** An address leads to the last entry that was read with it. */
  ghost predicate LastAddrs(t: Tables) {
    && (forall a :: a in t.mapAddr ==> t.mapAddr[a] in t.mapInfo && t.mapInfo[t.mapAddr[a]].svc.net == a)
    && (forall id :: id in t.mapInfo ==>
          t.mapInfo[id].svc.net in t.mapAddr && id <= t.mapAddr[t.mapInfo[id].svc.net])
  }

  ghost predicate Loading(t: Tables, nNew: int) {
    Sound(t) && Numbered(t, nNew) && LastAddrs(t)
  }

  /** Entries share an address only if none of them got a slot. */
  ghost predicate SharedOnlyUnplaced(t: Tables) {
    forall i, j :: i in t.mapInfo && j in t.mapInfo && i != j && t.mapInfo[i].svc.net == t.mapInfo[j].svc.net ==>
      i in Unplaced(t)
  }

  // ----- reading entries -----

  /** The tables with the next entry in all indexes of entries. */
  ghost function Grown(t: Tables, d: DiskInfo, inTried: bool): Tables {
    Append(t, t.nIdCount, d, inTried).(nIdCount := t.nIdCount + 1)
  }

  lemma GrownEntries(t: Tables, d: DiskInfo, inTried: bool)
    requires IdsOk(t) && RandomOk(t) && EntriesOk(t, Unplaced(t))
    ensures var u := Grown(t, d, inTried); IdsOk(u) && RandomOk(u) && EntriesOk(u, Unplaced(u))
  {
    var u := Grown(t, d, inTried);
    forall x | x in t.mapInfo ensures u.mapInfo[x] == t.mapInfo[x] && x != t.nIdCount {}
    forall i | 0 <= i < |t.vRandom| ensures u.vRandom[i] == t.vRandom[i] {}
  }

  lemma GrownNumbers(t: Tables, d: DiskInfo, inTried: bool, nNew: int)
    requires IdsOk(t) && Numbered(t, nNew) && LastAddrs(t) && (inTried <==> t.nIdCount >= nNew)
    ensures Numbered(Grown(t, d, inTried), nNew) && LastAddrs(Grown(t, d, inTried))
  {
    var u := Grown(t, d, inTried);
    forall x | x in t.mapInfo ensures u.mapInfo[x] == t.mapInfo[x] && x != t.nIdCount {}
  }

  lemma GrownNew(t: Tables, d: DiskInfo, inTried: bool)
    requires GridsOk(t) && IdsOk(t) && NewOk(t)
    ensures GridsOk(Grown(t, d, inTried)) && NewOk(Grown(t, d, inTried))
  {
    var u := Grown(t, d, inTried);
    assert Buckets(u, t.nIdCount) == {};
    forall x | x in t.mapInfo ensures u.mapInfo[x] == t.mapInfo[x] && x != t.nIdCount && Buckets(u, x) == Buckets(t, x) {}
  }

  lemma GrownTried(t: Tables, d: DiskInfo)
    requires GridsOk(t) && IdsOk(t) && TriedOk(t)
    ensures GridsOk(Grown(t, d, false)) && TriedOk(Grown(t, d, false))
  {
    var u := Grown(t, d, false);
    forall x | x in t.mapInfo ensures u.mapInfo[x] == t.mapInfo[x] && x != t.nIdCount {}
  }

  lemma AppendNewLoading(t: Tables, d: DiskInfo, nNew: int)
    requires Loading(t, nNew) && t.nIdCount < nNew
    ensures Loading(Grown(t, d, false), nNew)
  {
    hide GridsOk, IdsOk, RandomOk, EntriesOk, TriedOk, NewOk, Numbered, LastAddrs, Append;
    GrownEntries(t, d, false);
    GrownNumbers(t, d, false, nNew);
    GrownNew(t, d, false);
    GrownTried(t, d);
  }

  ghost function WithTried(t: Tables, s: (int, int), id: int): Tables {
    t.(vvTried := t.vvTried[s := id])
  }

  lemma EnterTried(t: Tables, d: DiskInfo)
    requires GridsOk(t) && IdsOk(t) && TriedOk(t)
    requires var s := TriedSlot(t, d.svc); s in t.vvTried && t.vvTried[s] == -1
    ensures var u := WithTried(Grown(t, d, true), TriedSlot(t, d.svc), t.nIdCount); GridsOk(u) && TriedOk(u)
  {
    hide Position, TriedBucket;
    var u := WithTried(Grown(t, d, true), TriedSlot(t, d.svc), t.nIdCount);
    SameTriedSlots(t, u);
    forall x | x in t.mapInfo ensures u.mapInfo[x] == t.mapInfo[x] && x != t.nIdCount {}
  }

  lemma SameTriedSlots(t: Tables, u: Tables)
    requires SameHashing(t, u)
    ensures forall svc :: TriedSlot(u, svc) == TriedSlot(t, svc)
  {
  }

  lemma WithTriedNew(t: Tables, s: (int, int), id: int)
    requires GridsOk(t) && NewOk(t) && s in t.vvTried
    ensures var u := WithTried(t, s, id); GridsOk(u) && NewOk(u)
  {
    var u := WithTried(t, s, id);
    forall x | x in u.mapInfo ensures Buckets(u, x) == Buckets(t, x) {}
  }

  lemma WithTriedSame(t: Tables, s: (int, int), id: int, nNew: int)
    requires IdsOk(t) && RandomOk(t) && EntriesOk(t, Unplaced(t)) && Numbered(t, nNew) && LastAddrs(t)
    ensures var u := WithTried(t, s, id);
            IdsOk(u) && RandomOk(u) && EntriesOk(u, Unplaced(u)) && Numbered(u, nNew) && LastAddrs(u)
  {
    assert Unplaced(WithTried(t, s, id)) == Unplaced(t);
  }

  lemma TriedSlotInGrid(t: Tables, svc: Service)
    requires GridsOk(t)
    ensures TriedSlot(t, svc) in t.vvTried
  {
  }

  lemma LoadTriedLoading(t: Tables, d: DiskInfo, nNew: int)
    requires Loading(t, nNew) && t.nIdCount >= nNew && Loadable(t, t.nIdCount)
    requires TriedSlot(t, d.svc) in t.vvTried && t.vvTried[TriedSlot(t, d.svc)] == -1
    ensures Loading(LoadTried(t, d), nNew) && LoadTried(t, d).nIdCount == t.nIdCount + 1
  {
    hide GridsOk, IdsOk, RandomOk, EntriesOk, TriedOk, NewOk, Numbered, LastAddrs, Loadable, TriedSlot;
    GrownEntries(t, d, true);
    GrownNumbers(t, d, true, nNew);
    GrownNew(t, d, true);
    EnterTried(t, d);
    WithTriedNew(Grown(t, d, true), TriedSlot(t, d.svc), t.nIdCount);
    WithTriedSame(Grown(t, d, true), TriedSlot(t, d.svc), t.nIdCount, nNew);
    assert LoadTried(t, d) == WithTried(Grown(t, d, true), TriedSlot(t, d.svc), t.nIdCount);
  }

  // ----- taking slots -----

  lemma TakeSlotNumbers(t: Tables, id: int, s: (int, int), nNew: int)
    requires id in t.mapInfo && IdsOk(t) && RandomOk(t) && Numbered(t, nNew) && LastAddrs(t)
    ensures var u := TakeSlot(t, id, s); IdsOk(u) && RandomOk(u) && Numbered(u, nNew) && LastAddrs(u)
  {
    var u := TakeSlot(t, id, s);
    assert u.mapInfo.Keys == t.mapInfo.Keys && u.mapAddr == t.mapAddr && u.vRandom == t.vRandom;
    forall x | x in t.mapInfo
      ensures u.mapInfo[x].svc == t.mapInfo[x].svc && u.mapInfo[x].nRandomPos == t.mapInfo[x].nRandomPos
      ensures u.mapInfo[x].fInTried == t.mapInfo[x].fInTried
    {
    }
    hide TakeSlot;
  }

  lemma TakeSlotPlaces(t: Tables, id: int, s: (int, int))
    requires id in t.mapInfo && !t.mapInfo[id].fInTried && t.mapInfo[id].nRefCount < NEW_BUCKETS_PER_ADDRESS
    requires EntriesOk(t, Unplaced(t))
    ensures EntriesOk(TakeSlot(t, id, s), Unplaced(TakeSlot(t, id, s)))
  {
    TakeSlotEntries(t, id, s, Unplaced(t));
    var u := TakeSlot(t, id, s);
    forall x | x in t.mapInfo && x != id ensures u.mapInfo[x] == t.mapInfo[x] {}
    assert Unplaced(u) == Unplaced(t) - {id};
  }

  lemma TakeSlotLoading(t: Tables, id: int, s: (int, int), nNew: int)
    requires Loading(t, nNew) && id in t.mapInfo && !t.mapInfo[id].fInTried && t.mapInfo[id].nRefCount < NEW_BUCKETS_PER_ADDRESS
    requires s in t.vvNew && t.vvNew[s] == -1 && s == NewSlot(t, s.0, t.mapInfo[id].svc)
    ensures Loading(TakeSlot(t, id, s), nNew)
  {
    hide IsGrid, IdsOk, RandomOk, EntriesOk, TriedOk, NewOk, Numbered, LastAddrs;
    TakeSlotNumbers(t, id, s, nNew);
    TakeSlotPlaces(t, id, s);
    TakeSlotNew(t, id, s);
    SlotEdited(t, id, s);
    EditedTried(t, TakeSlot(t, id, s), id);
  }

  lemma NewSlotInGrid(t: Tables, b: int, svc: Service)
    requires GridsOk(t) && 0 <= b < NEW_BUCKET_COUNT
    ensures NewSlot(t, b, svc) in t.vvNew
  {
  }

  lemma LoadNewLoading(t: Tables, n: nat, d: DiskInfo, usable: bool, nNew: int)
    requires Loadable(t, n) && n < nNew && Loading(t.(nIdCount := n), nNew)
    ensures Loading(LoadNew(t, n, d, usable).(nIdCount := n + 1), nNew)
  {
    hide Loading, Loadable, GridsOk;
    var t0 := t.(nIdCount := n);
    AppendNewLoading(t0, d, nNew);
    var g := Grown(t0, d, false);
    var home := NewSlot(t, NewBucket(t, d.svc, d.source), d.svc);
    LoadableGrids(t, n);
    NewSlotInGrid(t, NewBucket(t, d.svc, d.source), d.svc);
    if !usable && t.vvNew[home] == -1 {
      TakeSlotLoading(g, n, home, nNew);
      assert LoadNew(t, n, d, usable).(nIdCount := n + 1) == TakeSlot(g, n, home);
    } else {
      assert LoadNew(t, n, d, usable).(nIdCount := n + 1) == g;
    }
  }

  lemma LoadableGrids(t: Tables, next: int)
    requires Loadable(t, next)
    ensures GridsOk(t)
  {
  }

  lemma LoadIndexLoading(t: Tables, b: nat, nIndex: int, usable: bool, nNew: int)
    requires Loading(t, nNew) && t.nNew == nNew && Loadable(t, t.nIdCount)
    ensures Loading(LoadIndex(t, b, nIndex, usable), nNew) && LoadIndex(t, b, nIndex, usable).nNew == nNew
  {
    hide Sound, LastAddrs, Loadable, GridsOk;
    if 0 <= nIndex < t.nNew && nIndex in t.mapInfo && usable && b < NEW_BUCKET_COUNT {
      LoadableGrids(t, t.nIdCount);
      NewSlotInGrid(t, b, t.mapInfo[nIndex].svc);
      var s := NewSlot(t, b, t.mapInfo[nIndex].svc);
      if t.vvNew[s] == -1 && t.mapInfo[nIndex].nRefCount < NEW_BUCKETS_PER_ADDRESS {
        TakeSlotLoading(t, nIndex, s, nNew);
      }
    }
  }

  // ----- reading the parts of a stream -----

  lemma {:induction false} ReadNewsLoading(t: Tables, n: nat, nNew: int, usable: bool, s: seq<Token>)
    requires Loadable(t, n) && n <= nNew && Loading(t.(nIdCount := n), nNew)
    ensures var r := ReadNews(t, n, nNew, usable, s); r.Got? ==> Loading(r.value.(nIdCount := nNew), nNew)
    decreases nNew - n
  {
    hide Loading, Loadable, LoadNew;
    if n < nNew && ReadInfo(s).Got? {
      var d := ReadInfo(s).value;
      LoadNewLoading(t, n, d, usable, nNew);
      ReadNewsLoading(LoadNew(t, n, d, usable), n + 1, nNew, usable, ReadInfo(s).rest);
    }
  }

  lemma {:induction false} ReadTriedsLoading(t: Tables, n: nat, nTried: int, nLost: nat, s: seq<Token>, nNew: int)
    requires Loadable(t, t.nIdCount) && Loading(t, nNew) && nNew <= t.nIdCount && t.nIdCount - nNew + nLost == n <= nTried
    ensures var r := ReadTrieds(t, n, nTried, nLost, s);
            r.Got? ==> Loading(r.value.0, nNew) && nNew <= r.value.0.nIdCount && r.value.0.nIdCount - nNew + r.value.1 == nTried
    decreases nTried - n
  {
    hide Loading, Loadable, LoadTried, TriedSlot, GridsOk;
    LoadableGrids(t, t.nIdCount);
    if n < nTried && ReadInfo(s).Got? {
      var d, rest := ReadInfo(s).value, ReadInfo(s).rest;
      TriedSlotInGrid(t, d.svc);
      if t.vvTried[TriedSlot(t, d.svc)] == -1 {
        LoadTriedLoading(t, d, nNew);
        ReadTriedsLoading(LoadTried(t, d), n + 1, nTried, nLost, rest, nNew);
      } else {
        ReadTriedsLoading(t, n + 1, nTried, nLost + 1, rest, nNew);
      }
    }
  }

  lemma {:induction false} ReadIndexesLoading(t: Tables, b: nat, count: int, usable: bool, s: seq<Token>, nNew: int)
    requires Loadable(t, t.nIdCount) && Loading(t, nNew) && t.nNew == nNew
    ensures var r := ReadIndexes(t, b, count, usable, s); r.Got? ==> Loading(r.value, nNew) && r.value.nNew == nNew
    decreases count
  {
    hide Loading, Loadable, LoadIndex;
    if count > 0 && ReadInt(s).Got? {
      var nIndex := ReadInt(s).value;
      LoadIndexLoading(t, b, nIndex, usable, nNew);
      ReadIndexesLoading(LoadIndex(t, b, nIndex, usable), b, count - 1, usable, ReadInt(s).rest, nNew);
    }
  }

  lemma {:induction false} ReadBucketsLoading(t: Tables, b: nat, nUBuckets: int, usable: bool, s: seq<Token>, nNew: int)
    requires Loadable(t, t.nIdCount) && Loading(t, nNew) && t.nNew == nNew
    ensures var r := ReadBuckets(t, b, nUBuckets, usable, s); r.Got? ==> Loading(r.value, nNew)
    decreases nUBuckets - b
  {
    hide Loading, Loadable, ReadIndexes;
    if b < nUBuckets && ReadInt(s).Got? {
      var nSize, rest := ReadInt(s).value, ReadInt(s).rest;
      ReadIndexesLoading(t, b, nSize, usable, rest, nNew);
      var r := ReadIndexes(t, b, nSize, usable, rest);
      if r.Got? {
        ReadBucketsLoading(r.value, b + 1, nUBuckets, usable, r.rest, nNew);
      }
    }
  }

  // ----- the counters -----

  /** Nothing but entries and slots is changed; what is read was in the stream. */
  ghost predicate SameCounters(t: Tables, u: Tables) {
    u.nKey == t.nKey && u.nNew == t.nNew && u.nTried == t.nTried
  }

  lemma {:induction false} ReadNewsCounters(t: Tables, n: nat, nNew: int, usable: bool, s: seq<Token>)
    requires Loadable(t, n) && n <= Ops.Max(0, nNew)
    ensures var r := ReadNews(t, n, nNew, usable, s); r.Got? ==> SameCounters(t, r.value)
    decreases nNew - n
  {
    hide Loadable;
    if n < nNew && ReadInfo(s).Got? {
      var d := ReadInfo(s).value;
      assert SameCounters(t, LoadNew(t, n, d, usable));
      ReadNewsCounters(LoadNew(t, n, d, usable), n + 1, nNew, usable, ReadInfo(s).rest);
    }
  }

  lemma {:induction false} ReadTriedsCounters(t: Tables, n: nat, nTried: int, nLost: nat, s: seq<Token>)
    requires Loadable(t, t.nIdCount)
    ensures var r := ReadTrieds(t, n, nTried, nLost, s); r.Got? ==> SameCounters(t, r.value.0)
    decreases nTried - n
  {
    hide Loadable, TriedSlot, GridsOk;
    LoadableGrids(t, t.nIdCount);
    if n < nTried && ReadInfo(s).Got? {
      var d, rest := ReadInfo(s).value, ReadInfo(s).rest;
      TriedSlotInGrid(t, d.svc);
      if t.vvTried[TriedSlot(t, d.svc)] == -1 {
        assert SameCounters(t, LoadTried(t, d));
        ReadTriedsCounters(LoadTried(t, d), n + 1, nTried, nLost, rest);
      } else {
        ReadTriedsCounters(t, n + 1, nTried, nLost + 1, rest);
      }
    }
  }

  lemma {:induction false} ReadIndexesCounters(t: Tables, b: nat, count: int, usable: bool, s: seq<Token>)
    requires Loadable(t, t.nIdCount)
    ensures var r := ReadIndexes(t, b, count, usable, s); r.Got? ==> SameCounters(t, r.value) && r.value.nIdCount == t.nIdCount
    decreases count
  {
    hide Loadable;
    if count > 0 && ReadInt(s).Got? {
      var u := LoadIndex(t, b, ReadInt(s).value, usable);
      assert SameCounters(t, u) && u.nIdCount == t.nIdCount;
      ReadIndexesCounters(u, b, count - 1, usable, ReadInt(s).rest);
    }
  }

  lemma {:induction false} ReadBucketsCounters(t: Tables, b: nat, nUBuckets: int, usable: bool, s: seq<Token>)
    requires Loadable(t, t.nIdCount)
    ensures var r := ReadBuckets(t, b, nUBuckets, usable, s); r.Got? ==> SameCounters(t, r.value) && r.value.nIdCount == t.nIdCount
    decreases nUBuckets - b
  {
    hide Loadable, ReadIndexes;
    if b < nUBuckets && ReadInt(s).Got? {
      var nSize, rest := ReadInt(s).value, ReadInt(s).rest;
      ReadIndexesCounters(t, b, nSize, usable, rest);
      var r := ReadIndexes(t, b, nSize, usable, rest);
      if r.Got? {
        ReadBucketsCounters(r.value, b + 1, nUBuckets, usable, r.rest);
      }
    }
  }

  // ----- the body -----

  lemma BlankLoading(env: Env, nKey: nat, nNew: int, nTried: int)
    requires nNew >= 0
    ensures Loading(Blank(env, nKey, nNew, nTried).(nIdCount := 0), nNew)
  {
    hide Ops.EmptyGrid, IsGrid;
    Ops.EmptyGridOk(TRIED_BUCKET_COUNT);
    Ops.EmptyGridOk(NEW_BUCKET_COUNT);
  }

  lemma BlankCounters(env: Env, nKey: nat, nNew: int, nTried: int)
    ensures var t := Blank(env, nKey, nNew, nTried); t.nKey == nKey && t.nNew == nNew && t.nTried == nTried
  {
  }

  lemma RecountLoading(t: Tables, u: Tables, nNew: int)
    requires Loading(t, nNew) && u == t.(nTried := u.nTried)
    ensures Loading(u, nNew)
  {
    hide RandomOk, EntriesOk, TriedOk, NewOk, IsGrid;
    assert Unplaced(u) == Unplaced(t);
    RecountSlots(t, u);
    RecountEntries(t, u);
  }

  lemma RecountSlots(t: Tables, u: Tables)
    requires GridsOk(t) && TriedOk(t) && NewOk(t) && u == t.(nTried := u.nTried)
    ensures GridsOk(u) && TriedOk(u) && NewOk(u)
  {
    hide IsGrid;
    forall x | x in t.mapInfo ensures Buckets(u, x) == Buckets(t, x) {}
  }

  lemma RecountEntries(t: Tables, u: Tables)
    requires RandomOk(t) && EntriesOk(t, Unplaced(t)) && u == t.(nTried := u.nTried)
    ensures RandomOk(u) && EntriesOk(u, Unplaced(t))
  {
  }

  /** The counters after the body: those of the header, less the tried entries that were lost. */
  lemma ReadBodyCounters(t0: Tables, nNew: int, nTried: int, nUBuckets: int, usable: bool, s: seq<Token>)
    requires (forall next :: Loadable(t0, next)) && t0.nNew == nNew
    ensures var r := ReadBody(t0, nNew, nTried, nUBuckets, usable, s);
            r.Got? ==> r.value.0.nKey == t0.nKey && r.value.0.nNew == nNew && r.value.0.nTried == nTried - r.value.1
  {
    hide Loadable, ReadNews, ReadTrieds, ReadBuckets;
    ReadNewsCounters(t0, 0, nNew, usable, s);
    var r1 := ReadNews(t0, 0, nNew, usable, s);
    if r1.Got? {
      var t1 := r1.value.(nIdCount := nNew);
      IdCountFits(t0, nNew, usable, s);
      LoadableRecount(r1.value, t1, nNew);
      ReadTriedsCounters(t1, 0, nTried, 0, r1.rest);
      var r2 := ReadTrieds(t1, 0, nTried, 0, r1.rest);
      if r2.Got? {
        var t2 := r2.value.0.(nTried := nTried - r2.value.1);
        LoadableRecount(r2.value.0, t2, t2.nIdCount);
        ReadBucketsCounters(t2, 0, nUBuckets, usable, r2.rest);
      }
    }
  }

  lemma IdCountFits(t0: Tables, nNew: int, usable: bool, s: seq<Token>)
    requires forall next :: Loadable(t0, next)
    ensures var r := ReadNews(t0, 0, nNew, usable, s); r.Got? ==> Loadable(r.value, nNew)
  {
    hide ReadNews, GridsOk, RandomOk;
  }

  /** What the body of a stream leaves, before entries without a slot are pruned. */
  lemma ReadBodyLoading(t0: Tables, nNew: int, nTried: int, nUBuckets: int, usable: bool, s: seq<Token>)
    requires (forall next :: Loadable(t0, next)) && t0.nNew == nNew >= 0 && nTried >= 0 && Loading(t0.(nIdCount := 0), nNew)
    ensures var r := ReadBody(t0, nNew, nTried, nUBuckets, usable, s);
            r.Got? ==> Loading(r.value.0, nNew) && r.value.0.nIdCount == nNew + r.value.0.nTried && r.value.0.nTried >= 0
  {
    hide Loading, Loadable, ReadNews, ReadTrieds, ReadBuckets;
    ReadNewsLoading(t0, 0, nNew, usable, s);
    ReadNewsCounters(t0, 0, nNew, usable, s);
    var r1 := ReadNews(t0, 0, nNew, usable, s);
    if r1.Got? {
      var t1 := r1.value.(nIdCount := nNew);
      LoadableRecount(r1.value, t1, nNew);
      ReadTriedsLoading(t1, 0, nTried, 0, r1.rest, nNew);
      ReadTriedsCounters(t1, 0, nTried, 0, r1.rest);
      var r2 := ReadTrieds(t1, 0, nTried, 0, r1.rest);
      if r2.Got? {
        var t2 := r2.value.0.(nTried := nTried - r2.value.1);
        LoadableRecount(r2.value.0, t2, t2.nIdCount);
        RecountLoading(r2.value.0, t2, nNew);
        ReadBucketsLoading(t2, 0, nUBuckets, usable, r2.rest, nNew);
        ReadBucketsCounters(t2, 0, nUBuckets, usable, r2.rest);
      }
    }
  }

  // ----- pruning -----

  /** `u` is `t` with the entries of `gone` deleted. */
  ghost predicate Trimmed(t: Tables, u: Tables, gone: set<int>) {
    && SameSlots(t, u) && u.nIdCount == t.nIdCount && u.nTried == t.nTried
    && u.nNew == t.nNew - |gone| && |u.vRandom| == |t.vRandom| - |gone|
    && gone <= t.mapInfo.Keys && u.mapInfo.Keys == t.mapInfo.Keys - gone && SameEntries(t, u, gone)
    && AddrsTrimmed(t, u, gone)
  }

  /** The addresses of the deleted entries are forgotten, whoever else has them. */
  ghost predicate AddrsTrimmed(t: Tables, u: Tables, gone: set<int>)
    requires gone <= t.mapInfo.Keys
  {
    && (forall a :: a in u.mapAddr ==> a in t.mapAddr && u.mapAddr[a] == t.mapAddr[a])
    && (forall a :: a in t.mapAddr ==> (a in u.mapAddr <==> forall id :: id in gone ==> t.mapInfo[id].svc.net != a))
  }

  lemma DeleteEffect(t: Tables, id: int)
    requires RandomOk(t) && id in t.mapInfo
    ensures var u := Delete(t, id);
            && RandomOk(u) && SameSlots(t, u) && u.nIdCount == t.nIdCount && u.nTried == t.nTried && u.nNew == t.nNew - 1
            && |u.vRandom| == |t.vRandom| - 1 && u.mapInfo.Keys == t.mapInfo.Keys - {id} && SameEntries(t, u, {id})
            && u.mapAddr == t.mapAddr - {t.mapInfo[id].svc.net}
  {
    hide SwapRandom, RandomOk;
    DeleteRandomOk(t, id);
    SwapToEnd(t, id);
    SwapSameTables(t, t.mapInfo[id].nRandomPos, |t.vRandom| - 1);
  }

  lemma DeleteTrims(t: Tables, u: Tables, gone: set<int>, id: int)
    requires Trimmed(t, u, gone) && RandomOk(u) && id in u.mapInfo
    ensures RandomOk(Delete(u, id)) && Trimmed(t, Delete(u, id), gone + {id})
  {
    hide RandomOk, Delete;
    DeleteEffect(u, id);
    var v := Delete(u, id);
    assert u.mapInfo[id].svc == t.mapInfo[id].svc;
    assert t.mapInfo.Keys - (gone + {id}) == t.mapInfo.Keys - gone - {id};
  }

  /** Pruning deletes exactly the entries of the list that got no slot. */
  lemma {:induction false} PruneTrims(t: Tables, u: Tables, gone: set<int>, ids: seq<int>, n: nat)
    requires Trimmed(t, u, gone) && RandomOk(u)
    ensures var v := Prune(u, ids, n).0;
            RandomOk(v) && Trimmed(t, v, gone + set id | id in ids && id in u.mapInfo && id in Unplaced(t))
    decreases |ids|
  {
    hide RandomOk, Delete, Trimmed;
    var more := set id | id in ids && id in u.mapInfo && id in Unplaced(t);
    if ids == [] {
      assert gone + more == gone;
    } else {
      var id := ids[0];
      var rest := ids[1..];
      TrimmedEntry(t, u, gone, id);
      if id in u.mapInfo && id in Unplaced(t) {
        DeleteTrims(t, u, gone, id);
        PruneTrims(t, Delete(u, id), gone + {id}, rest, n + 1);
        TrimmedKeys(t, u, gone);
        TrimmedKeys(t, Delete(u, id), gone + {id});
        var later := set x | x in rest && x in Delete(u, id).mapInfo && x in Unplaced(t);
        assert gone + more == gone + {id} + later;
      } else {
        PruneTrims(t, u, gone, rest, n);
        var later := set x | x in rest && x in u.mapInfo && x in Unplaced(t);
        assert gone + more == gone + later;
      }
    }
  }

  lemma TrimmedKeys(t: Tables, u: Tables, gone: set<int>)
    requires Trimmed(t, u, gone)
    ensures u.mapInfo.Keys == t.mapInfo.Keys - gone
  {
  }

  lemma TrimmedEntry(t: Tables, u: Tables, gone: set<int>, id: int)
    requires Trimmed(t, u, gone)
    ensures id in u.mapInfo ==> id in t.mapInfo && SameInfo(t.mapInfo[id], u.mapInfo[id])
  {
  }

  lemma NothingTrimmed(t: Tables)
    ensures Trimmed(t, t, {})
  {
  }

  lemma PruneAll(t: Tables)
    requires RandomOk(t)
    ensures var v := Prune(t, Ascending(t.mapInfo.Keys), 0).0; RandomOk(v) && Trimmed(t, v, Unplaced(t))
  {
    hide RandomOk, Trimmed, Prune;
    NothingTrimmed(t);
    var ids := Ascending(t.mapInfo.Keys);
    PruneTrims(t, t, {}, ids, 0);
    assert {} + (set id | id in ids && id in t.mapInfo && id in Unplaced(t)) == Unplaced(t);
  }

  // ----- the invariant afterwards -----

  lemma TrimmedEntries(t: Tables, u: Tables)
    requires Trimmed(t, u, Unplaced(t)) && IdsOk(t) && EntriesOk(t, Unplaced(t))
    ensures IdsOk(u) && EntriesOk(u, {})
  {
    forall id | id in u.mapInfo ensures id in t.mapInfo && id !in Unplaced(t) && SameInfo(t.mapInfo[id], u.mapInfo[id]) {}
  }

  lemma TrimmedTried(t: Tables, u: Tables)
    requires Trimmed(t, u, Unplaced(t)) && GridsOk(t) && TriedOk(t)
    ensures GridsOk(u) && TriedOk(u)
  {
    forall id | id in u.mapInfo ensures id in t.mapInfo && id !in Unplaced(t) && SameInfo(t.mapInfo[id], u.mapInfo[id]) {}
  }

  lemma TrimmedNew(t: Tables, u: Tables)
    requires Trimmed(t, u, Unplaced(t)) && GridsOk(t) && IdsOk(t) && NewOk(t)
    ensures GridsOk(u) && NewOk(u)
  {
    hide AddrsTrimmed;
    forall id | id in u.mapInfo ensures id in t.mapInfo && SameInfo(t.mapInfo[id], u.mapInfo[id]) && Buckets(u, id) == Buckets(t, id) {}
    forall s | s in t.vvNew && t.vvNew[s] != -1 ensures t.vvNew[s] !in Unplaced(t) {
      assert s.0 in Buckets(t, t.vvNew[s]);
    }
  }

  lemma TrimmedCounts(t: Tables, u: Tables, nNew: nat)
    requires Trimmed(t, u, Unplaced(t)) && Numbered(t, nNew) && t.nNew == nNew && t.nIdCount == nNew + t.nTried && t.nTried >= 0
    ensures CountsOk(u, 0)
  {
    hide AddrsTrimmed;
    RoundTrips.SplitCounts(t, nNew, t.nIdCount);
    forall id | id in u.mapInfo ensures id in t.mapInfo && SameInfo(t.mapInfo[id], u.mapInfo[id]) {}
    assert TriedIds(u) == TriedIds(t);
    assert NewIds(u) == NewIds(t) - Unplaced(t) && Unplaced(t) <= NewIds(t);
  }

  /** The index by address agrees exactly if no address is shared by an entry that was placed. */
  lemma TrimmedAddrs(t: Tables, u: Tables)
    requires Trimmed(t, u, Unplaced(t)) && LastAddrs(t)
    ensures AddrsOk(u) <==> SharedOnlyUnplaced(t)
  {
    if SharedOnlyUnplaced(t) {
      SharedGivesAddrs(t, u);
    } else {
      var i, j :| i in t.mapInfo && j in t.mapInfo && i != j && t.mapInfo[i].svc.net == t.mapInfo[j].svc.net && i !in Unplaced(t);
      TrimmedEntry(t, u, Unplaced(t), i);
      TrimmedEntry(t, u, Unplaced(t), j);
      assert AddrsOk(u) ==> j !in Unplaced(t);
    }
  }

  lemma SharedGivesAddrs(t: Tables, u: Tables)
    requires Trimmed(t, u, Unplaced(t)) && LastAddrs(t) && SharedOnlyUnplaced(t)
    ensures AddrsOk(u)
  {
    forall id | id in u.mapInfo ensures u.mapInfo[id].svc.net in u.mapAddr && u.mapAddr[u.mapInfo[id].svc.net] == id {
      TrimmedEntry(t, u, Unplaced(t), id);
      var a := t.mapInfo[id].svc.net;
      assert t.mapAddr[a] == id;
    }
    forall a | a in u.mapAddr ensures u.mapAddr[a] in u.mapInfo && u.mapInfo[u.mapAddr[a]].svc.net == a {
      var id := t.mapAddr[a];
      assert id !in Unplaced(t);
    }
  }

  /** The tables a stream leaves before pruning. */
  ghost function BodyTables(env: Env, s: seq<Token>): Tables
    requires Unserialize(env, s).Loaded?
  {
    var nUBuckets := if s[0].b != 0 then FlipBit30(s[5].n) else s[5].n;
    ReadBody(Blank(env, s[2].k, s[3].n, s[4].n), s[3].n, s[4].n, nUBuckets,
             s[0].b == 1 && nUBuckets == NEW_BUCKET_COUNT, s[6..]).value.0
  }

  /**
   A key and counters that can be right, and no address shared by an entry that got a slot. The
   buckets and positions in the stream do not matter otherwise: whatever they are, the rest agrees.
   */
  ghost predicate Coherent(env: Env, s: seq<Token>)
    requires Unserialize(env, s).Loaded?
  {
    s[2].k != 0 && s[3].n >= 0 && s[4].n >= 0 && SharedOnlyUnplaced(BodyTables(env, s))
  }

  lemma PrunedStructured(t: Tables, u: Tables, nNew: nat)
    requires Loading(t, nNew) && t.nNew == nNew && t.nIdCount == nNew + t.nTried && t.nTried >= 0
    requires RandomOk(u) && Trimmed(t, u, Unplaced(t))
    ensures Structured(u) <==> t.nKey != 0 && SharedOnlyUnplaced(t)
  {
    hide Numbered, LastAddrs, GridsOk, IdsOk, RandomOk, EntriesOk, TriedOk, NewOk, CountsOk, AddrsOk, SharedOnlyUnplaced, Unplaced;
    TrimmedEntries(t, u);
    TrimmedTried(t, u);
    TrimmedNew(t, u);
    TrimmedCounts(t, u, nNew);
    TrimmedAddrs(t, u);
    assert u.nKey == t.nKey;
  }

  /** Counters that are negative stay so, and a key that is zero too. */
  lemma PrunedBroken(t: Tables, u: Tables)
    requires Trimmed(t, u, Unplaced(t)) && (t.nKey == 0 || t.nNew < 0 || t.nTried < 0)
    ensures !Structured(u)
  {
  }

  /** The tables read from an accepted stream agree exactly if the stream is coherent. */
  lemma AcceptedStructured(env: Env, s: seq<Token>)
    requires Unserialize(env, s).Loaded?
    ensures Structured(Unserialize(env, s).t) <==> Coherent(env, s)
  {
    hide ReadBody, Prune, Blank, Structured, Loading, Loadable, Trimmed, SharedOnlyUnplaced, RandomOk, Ascending, FlipBit30;
    var nUBuckets := if s[0].b != 0 then FlipBit30(s[5].n) else s[5].n;
    var usable := s[0].b == 1 && nUBuckets == NEW_BUCKET_COUNT;
    var t0, t := Blank(env, s[2].k, s[3].n, s[4].n), BodyTables(env, s);
    BlankCounters(env, s[2].k, s[3].n, s[4].n);
    ReadBodyCounters(t0, s[3].n, s[4].n, nUBuckets, usable, s[6..]);
    PruneAll(t);
    var u := Prune(t, Ascending(t.mapInfo.Keys), 0).0;
    if s[3].n >= 0 && s[4].n >= 0 {
      BlankLoading(env, s[2].k, s[3].n, s[4].n);
      ReadBodyLoading(t0, s[3].n, s[4].n, nUBuckets, usable, s[6..]);
      PrunedStructured(t, u, s[3].n);
    } else {
      PrunedBroken(t, u);
    }
  }

  // ----- a stream that is accepted and not coherent -----

  /** One address announced and, once more, connected to: a stream in the oldest format. */
  function SharedStream(key: nat, d: DiskInfo): seq<Token> {
    [Byte(0), Byte(32), Key(key), Int(1), Int(1), Int(0), Info(d), Info(d)]
  }

  /** It is accepted, both entries get a slot, and the index by address leads to one of them only. */
  lemma SharedBreaks(env: Env, key: nat, d: DiskInfo)
    requires key != 0
    ensures Unserialize(env, SharedStream(key, d)).Loaded? && !Structured(Unserialize(env, SharedStream(key, d)).t)
  {
    hide Structured, Prune, RandomOk, GridsOk, Ascending;
    var s := SharedStream(key, d);
    SharedRead(env, key, d);
    var t := BodyTables(env, s);
    AcceptedStructured(env, s);
    assert 0 in t.mapInfo && 1 in t.mapInfo && 0 !in Unplaced(t);
  }

  lemma OneNew(t: Tables, d: DiskInfo, rest: seq<Token>)
    requires Loadable(t, 0)
    ensures ReadNews(t, 0, 1, false, [Info(d)] + rest) == Got(LoadNew(t, 0, d, false), rest)
  {
    hide Loadable, LoadNew;
    assert ([Info(d)] + rest)[1..] == rest;
    assert ReadNews(LoadNew(t, 0, d, false), 1, 1, false, rest) == Got(LoadNew(t, 0, d, false), rest);
  }

  lemma OneTried(t: Tables, d: DiskInfo, rest: seq<Token>)
    requires Loadable(t, t.nIdCount) && TriedSlot(t, d.svc) in t.vvTried && t.vvTried[TriedSlot(t, d.svc)] == -1
    ensures ReadTrieds(t, 0, 1, 0, [Info(d)] + rest) == Got((LoadTried(t, d), 0), rest)
  {
    hide Loadable, LoadTried, TriedSlot;
    assert ([Info(d)] + rest)[1..] == rest;
    assert ReadTrieds(LoadTried(t, d), 1, 1, 0, rest) == Got((LoadTried(t, d), 0), rest);
  }

  lemma SharedRead(env: Env, key: nat, d: DiskInfo)
    ensures Unserialize(env, SharedStream(key, d)).Loaded?
    ensures var t := BodyTables(env, SharedStream(key, d));
            && 0 in t.mapInfo && t.mapInfo[0].svc == d.svc && t.mapInfo[0].nRefCount == 1
            && 1 in t.mapInfo && t.mapInfo[1].svc == d.svc
  {
    hide Prune, RandomOk, IsGrid, Ascending, NewSlot, TriedSlot, Ops.EmptyGrid, ReadNews, ReadTrieds;
    var t0 := Blank(env, key, 1, 1);
    BlankGridsFree(env, key, d);
    var t1 := LoadNew(t0, 0, d, false);
    OneNew(t0, d, [Info(d)]);
    var t2 := t1.(nIdCount := 1);
    LoadableRecount(t1, t2, 1);
    SameTriedSlots(t0, t2);
    OneTried(t2, d, []);
    assert [Info(d)] + [] == [Info(d)];
    assert SharedStream(key, d)[6..] == [Info(d)] + [Info(d)];
  }

  lemma BlankGridsFree(env: Env, key: nat, d: DiskInfo)
    ensures var t := Blank(env, key, 1, 1);
            && TriedSlot(t, d.svc) in t.vvTried && t.vvTried[TriedSlot(t, d.svc)] == -1
            && forall b :: 0 <= b < NEW_BUCKET_COUNT ==> NewSlot(t, b, d.svc) in t.vvNew && t.vvNew[NewSlot(t, b, d.svc)] == -1
  {
    hide Ops.EmptyGrid;
    Ops.EmptyGridOk(TRIED_BUCKET_COUNT);
    Ops.EmptyGridOk(NEW_BUCKET_COUNT);
  }

  // ----- a condition on the entries of the stream alone -----

  /** The first `count` tokens, as far as they are entries, have addresses not in `used`, and no two the same. */
  predicate FreshInfos(s: seq<Token>, count: int, used: set<NetAddr>) {
    && (forall i :: 0 <= i < count && i < |s| && s[i].Info? ==> s[i].info.svc.net !in used)
    && (forall i, j :: 0 <= i < j < count && j < |s| && s[i].Info? && s[j].Info? ==> s[i].info.svc.net != s[j].info.svc.net)
  }

  /** No two entries of a stream have the same address. */
  predicate DistinctAddresses(s: seq<Token>)
    requires |s| >= 6 && s[3].Int? && s[4].Int?
  {
    FreshInfos(s[6..], s[3].n + s[4].n, {})
  }

  /** No two entries have the same address, and all addresses are among `used`. */
  ghost predicate Apart(m: map<int, AddrInfo>, used: set<NetAddr>) {
    && (forall i, j :: i in m && j in m && i != j ==> m[i].svc.net != m[j].svc.net)
    && (forall i :: i in m ==> m[i].svc.net in used)
  }

  lemma FreshNext(s: seq<Token>, count: int, used: set<NetAddr>)
    requires FreshInfos(s, count, used) && s != [] && s[0].Info? && count > 0
    ensures s[0].info.svc.net !in used && FreshInfos(s[1..], count - 1, used + {s[0].info.svc.net})
  {
    var rest, more := s[1..], used + {s[0].info.svc.net};
    forall i | 0 <= i < count - 1 && i < |rest| && rest[i].Info? ensures rest[i].info.svc.net !in more {
      assert rest[i] == s[i + 1] && s[0].info.svc.net != s[i + 1].info.svc.net;
    }
    forall i, j | 0 <= i < j < count - 1 && j < |rest| && rest[i].Info? && rest[j].Info?
      ensures rest[i].info.svc.net != rest[j].info.svc.net
    {
      assert rest[i] == s[i + 1] && rest[j] == s[j + 1];
    }
  }

  lemma ApartNext(m: map<int, AddrInfo>, used: set<NetAddr>, id: int, info: AddrInfo)
    requires Apart(m, used) && id !in m && info.svc.net !in used
    ensures Apart(m[id := info], used + {info.svc.net})
  {
  }

  /** The same entries with the same addresses. */
  ghost predicate SameNets(t: Tables, u: Tables) {
    u.mapInfo.Keys == t.mapInfo.Keys && forall id :: id in t.mapInfo ==> u.mapInfo[id].svc == t.mapInfo[id].svc
  }

  lemma SameNetsApart(t: Tables, u: Tables, used: set<NetAddr>)
    requires SameNets(t, u) && Apart(t.mapInfo, used)
    ensures Apart(u.mapInfo, used)
  {
  }

  lemma LoadNewApart(t: Tables, n: int, d: DiskInfo, usable: bool, used: set<NetAddr>)
    requires Loadable(t, n) && Apart(t.mapInfo, used) && d.svc.net !in used
    ensures Apart(LoadNew(t, n, d, usable).mapInfo, used + {d.svc.net})
  {
    hide Apart, NewSlot, NewBucket, IsGrid;
    var t1 := Append(t, n, d, false);
    ApartNext(t.mapInfo, used, n, FromDisk(d, false, |t.vRandom|));
    assert SameNets(t1, LoadNew(t, n, d, usable));
    SameNetsApart(t1, LoadNew(t, n, d, usable), used + {d.svc.net});
  }

  lemma {:induction false} ReadNewsApart(t: Tables, n: nat, nNew: int, usable: bool, s: seq<Token>, more: nat, used: set<NetAddr>)
    returns (after: set<NetAddr>)
    requires Loadable(t, n) && n <= nNew && Apart(t.mapInfo, used) && FreshInfos(s, nNew - n + more, used)
    ensures var r := ReadNews(t, n, nNew, usable, s); r.Got? ==> Apart(r.value.mapInfo, after) && FreshInfos(r.rest, more, after)
    decreases nNew - n
  {
    hide Loadable, LoadNew, Apart, FreshInfos;
    after := used;
    if n < nNew && ReadInfo(s).Got? {
      var d := ReadInfo(s).value;
      FreshNext(s, nNew - n + more, used);
      LoadNewApart(t, n, d, usable, used);
      after := ReadNewsApart(LoadNew(t, n, d, usable), n + 1, nNew, usable, s[1..], more, used + {d.svc.net});
    }
  }

  lemma LoadTriedApart(t: Tables, d: DiskInfo, used: set<NetAddr>)
    requires Loadable(t, t.nIdCount) && Apart(t.mapInfo, used) && d.svc.net !in used
    ensures Apart(LoadTried(t, d).mapInfo, used + {d.svc.net})
  {
    hide Apart, IsGrid;
    ApartNext(t.mapInfo, used, t.nIdCount, FromDisk(d, true, |t.vRandom|));
  }

  lemma ApartMore(m: map<int, AddrInfo>, used: set<NetAddr>, a: NetAddr)
    requires Apart(m, used)
    ensures Apart(m, used + {a})
  {
  }

  lemma {:induction false} ReadTriedsApart(t: Tables, n: nat, nTried: int, nLost: nat, s: seq<Token>, used: set<NetAddr>)
    returns (after: set<NetAddr>)
    requires Loadable(t, t.nIdCount) && Apart(t.mapInfo, used) && FreshInfos(s, nTried - n, used)
    ensures var r := ReadTrieds(t, n, nTried, nLost, s); r.Got? ==> Apart(r.value.0.mapInfo, after)
    decreases nTried - n
  {
    hide Loadable, LoadTried, Apart, FreshInfos, TriedSlot, GridsOk;
    after := used;
    LoadableGrids(t, t.nIdCount);
    if n < nTried && ReadInfo(s).Got? {
      var d := ReadInfo(s).value;
      FreshNext(s, nTried - n, used);
      TriedSlotInGrid(t, d.svc);
      if t.vvTried[TriedSlot(t, d.svc)] == -1 {
        LoadTriedApart(t, d, used);
        after := ReadTriedsApart(LoadTried(t, d), n + 1, nTried, nLost, s[1..], used + {d.svc.net});
      } else {
        ApartMore(t.mapInfo, used, d.svc.net);
        after := ReadTriedsApart(t, n + 1, nTried, nLost + 1, s[1..], used + {d.svc.net});
      }
    }
  }

  lemma {:induction false} ReadIndexesNets(t: Tables, b: nat, count: int, usable: bool, s: seq<Token>)
    requires Loadable(t, t.nIdCount)
    ensures var r := ReadIndexes(t, b, count, usable, s); r.Got? ==> SameNets(t, r.value)
    decreases count
  {
    hide Loadable, NewSlot;
    if count > 0 && ReadInt(s).Got? {
      var u := LoadIndex(t, b, ReadInt(s).value, usable);
      assert SameNets(t, u);
      ReadIndexesNets(u, b, count - 1, usable, ReadInt(s).rest);
    }
  }

  lemma {:induction false} ReadBucketsNets(t: Tables, b: nat, nUBuckets: int, usable: bool, s: seq<Token>)
    requires Loadable(t, t.nIdCount)
    ensures var r := ReadBuckets(t, b, nUBuckets, usable, s); r.Got? ==> SameNets(t, r.value)
    decreases nUBuckets - b
  {
    hide Loadable, ReadIndexes;
    if b < nUBuckets && ReadInt(s).Got? {
      var nSize, rest := ReadInt(s).value, ReadInt(s).rest;
      ReadIndexesNets(t, b, nSize, usable, rest);
      var r := ReadIndexes(t, b, nSize, usable, rest);
      if r.Got? {
        ReadBucketsNets(r.value, b + 1, nUBuckets, usable, r.rest);
      }
    }
  }

  lemma ReadBodyApart(t0: Tables, nNew: int, nTried: int, nUBuckets: int, usable: bool, s: seq<Token>) returns (used: set<NetAddr>)
    requires (forall next :: Loadable(t0, next)) && t0.mapInfo == map[] && nNew >= 0 && nTried >= 0
    requires FreshInfos(s, nNew + nTried, {})
    ensures var r := ReadBody(t0, nNew, nTried, nUBuckets, usable, s); r.Got? ==> Apart(r.value.0.mapInfo, used)
  {
    hide Loadable, ReadNews, ReadTrieds, ReadBuckets, FreshInfos;
    used := ReadNewsApart(t0, 0, nNew, usable, s, nTried, {});
    hide Apart;
    var r1 := ReadNews(t0, 0, nNew, usable, s);
    if r1.Got? {
      var t1 := r1.value.(nIdCount := nNew);
      LoadableRecount(r1.value, t1, nNew);
      used := ReadTriedsApart(t1, 0, nTried, 0, r1.rest, used);
      var r2 := ReadTrieds(t1, 0, nTried, 0, r1.rest);
      if r2.Got? {
        var t2 := r2.value.0.(nTried := nTried - r2.value.1);
        LoadableRecount(r2.value.0, t2, t2.nIdCount);
        ReadBucketsNets(t2, 0, nUBuckets, usable, r2.rest);
        var r3 := ReadBuckets(t2, 0, nUBuckets, usable, r2.rest);
        if r3.Got? {
          SameNetsApart(t2, r3.value, used);
        }
      }
    }
  }

  /**
   An accepted stream whose entries all have different addresses gives tables that agree, whatever
   its bucket data: it may name any entries, any number of times, in any buckets.
   */
  lemma DistinctStructured(env: Env, s: seq<Token>)
    requires Unserialize(env, s).Loaded? && s[2].k != 0 && s[3].n >= 0 && s[4].n >= 0 && DistinctAddresses(s)
    ensures Structured(Unserialize(env, s).t)
  {
    hide ReadBody, Prune, Blank, Structured, FreshInfos, Unplaced, Ascending, RandomOk, FlipBit30, Loadable;
    var nUBuckets := if s[0].b != 0 then FlipBit30(s[5].n) else s[5].n;
    var usable := s[0].b == 1 && nUBuckets == NEW_BUCKET_COUNT;
    var used := ReadBodyApart(Blank(env, s[2].k, s[3].n, s[4].n), s[3].n, s[4].n, nUBuckets, usable, s[6..]);
    AcceptedStructured(env, s);
  }
}
