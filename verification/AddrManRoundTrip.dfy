/**
 Writing consistent tables and reading them back restores them: the same entries, in the same
 slots of both tables, with the same reference counts, under new ids.
 */
module AddrManRoundTrip {
  import opened AddrManTables
  import opened AddrManStream
  import Ops = AddrManOps

  // ----- the order in which entries are written -----

  ghost function Ids(t: Tables): (r: seq<int>)
    ensures Known(t, r) && Ops.Distinct(r) && (forall x :: x in r <==> x in t.mapInfo)
  {
    var r := Ascending(t.mapInfo.Keys);
    assert forall i :: 0 <= i < |r| ==> r[i] in t.mapInfo.Keys;
    r
  }

  lemma {:induction false} NewOfMembers(t: Tables, ids: seq<int>)
    requires Known(t, ids) && Ops.Distinct(ids)
    ensures forall x :: x in NewOf(t, ids) <==> x in ids && x in t.mapInfo && t.mapInfo[x].nRefCount != 0
    ensures Ops.Distinct(NewOf(t, ids))
  {
    if ids != [] {
      var front, last := ids[..|ids| - 1], ids[|ids| - 1];
      assert ids == front + [last] && last !in front;
      NewOfMembers(t, front);
      assert forall x :: x in ids <==> x in front || x == last;
    }
  }

  lemma {:induction false} TriedOfMembers(t: Tables, ids: seq<int>)
    requires Known(t, ids) && Ops.Distinct(ids)
    ensures forall x :: x in TriedOf(t, ids) <==> x in ids && x in t.mapInfo && t.mapInfo[x].fInTried
    ensures Ops.Distinct(TriedOf(t, ids))
  {
    if ids != [] {
      var front, last := ids[..|ids| - 1], ids[|ids| - 1];
      assert ids == front + [last] && last !in front;
      TriedOfMembers(t, front);
      assert forall x :: x in ids <==> x in front || x == last;
    }
  }

  /** A new entry's rank is its place among the new entries. */
  lemma {:induction false} RanksOfNew(t: Tables, ids: seq<int>)
    requires Known(t, ids) && Ops.Distinct(ids)
    ensures forall x :: x in ids ==>
              x in Ranks(t, ids) && x in t.mapInfo
              && (t.mapInfo[x].nRefCount != 0 ==>
                    0 <= Ranks(t, ids)[x] < |NewOf(t, ids)| && NewOf(t, ids)[Ranks(t, ids)[x]] == x)
  {
    if ids != [] {
      var front, last := ids[..|ids| - 1], ids[|ids| - 1];
      assert ids == front + [last] && last !in front;
      RanksOfNew(t, front);
      assert forall x :: x in ids <==> x in front || x == last;
    }
  }

  lemma {:induction false} DistinctSize(ids: seq<int>, s: set<int>)
    requires Ops.Distinct(ids) && (forall x :: x in ids <==> x in s)
    ensures |ids| == |s|
  {
    if ids == [] {
      assert forall x :: x in s ==> x in ids;
      assert s == {};
    } else {
      var front, last := ids[..|ids| - 1], ids[|ids| - 1];
      assert ids == front + [last] && last !in front;
      assert forall x :: x in ids <==> x in front || x == last;
      DistinctSize(front, s - {last});
    }
  }

  /** All ids in the order their entries are written: new entries first, then tried ones. */
  ghost function Order(t: Tables): seq<int> {
    NewOf(t, Ids(t)) + TriedOf(t, Ids(t))
  }

  /** The position of an entry in the written order, which is its id once read back. */
  ghost function Rank(t: Tables, id: int): (i: nat)
    requires Structured(t) && id in t.mapInfo
    ensures i < |Order(t)| && Order(t)[i] == id
  {
    OrderMembers(t);
    var i :| 0 <= i < |Order(t)| && Order(t)[i] == id;
    i
  }

  lemma OrderMembers(t: Tables)
    requires Structured(t)
    ensures forall x :: x in Order(t) <==> x in t.mapInfo
    ensures Ops.Distinct(Order(t))
    ensures |NewOf(t, Ids(t))| == t.nNew && |TriedOf(t, Ids(t))| == t.nTried
    ensures forall i :: 0 <= i < |Order(t)| ==>
              Order(t)[i] in t.mapInfo && (t.mapInfo[Order(t)[i]].fInTried <==> i >= t.nNew)
  {
    hide AddrsOk, RandomOk, TriedOk, NewOk, IdsOk, IsGrid, NewOf, TriedOf, Ids;
    var ids := Ids(t);
    NewOfMembers(t, ids);
    TriedOfMembers(t, ids);
    var news, trieds := NewOf(t, ids), TriedOf(t, ids);
    assert forall x :: x in news <==> x in NewIds(t);
    assert forall x :: x in trieds <==> x in TriedIds(t);
    DistinctSize(news, NewIds(t));
    DistinctSize(trieds, TriedIds(t));
    assert forall i :: 0 <= i < |news| ==> news[i] in news;
    assert forall i :: 0 <= i < |trieds| ==> trieds[i] in trieds;
  }

  lemma RankOfOrder(t: Tables, i: nat)
    requires Structured(t) && i < |Order(t)|
    ensures Order(t)[i] in t.mapInfo && Rank(t, Order(t)[i]) == i
  {
    hide Order, Structured;
    OrderMembers(t);
  }

  /** Two entries have the same rank only if they are the same. */
  lemma RankInjective(t: Tables, x: int, y: int)
    requires Structured(t) && x in t.mapInfo && y in t.mapInfo && Rank(t, x) == Rank(t, y)
    ensures x == y
  {
    hide Order, Structured;
  }

  lemma RanksAreRanks(t: Tables, id: int)
    requires Structured(t) && id in t.mapInfo && !t.mapInfo[id].fInTried
    ensures id in Ranks(t, Ids(t)) && Ranks(t, Ids(t))[id] == Rank(t, id) && Rank(t, id) < t.nNew
  {
    hide AddrsOk, RandomOk, TriedOk, NewOk, IdsOk, IsGrid, NewOf, TriedOf, Ids, Rank, CountsOk;
    RanksOfNew(t, Ids(t));
    OrderMembers(t);
    var i := Ranks(t, Ids(t))[id];
    assert Order(t)[i] == id;
    RankOfOrder(t, i);
  }

  // ----- reading the entries -----

  /** Entry `id` as first read: its written fields, its table, no slots yet. */
  ghost function Reread(t: Tables, id: int, i: int): AddrInfo
    requires id in t.mapInfo
  {
    FromDisk(ToDisk(t.mapInfo[id]), t.mapInfo[id].fInTried, i)
  }

  /** `u` holds the first `n` entries in writing order, under ids 0 to n - 1. */
  ghost predicate HasEntries(t: Tables, u: Tables, n: nat)
    requires Structured(t)
  {
    && n <= |Order(t)| && Known(t, Order(t))
    && u.env == t.env && u.nKey == t.nKey && u.nNew == t.nNew && u.nTried == t.nTried
    && |u.vRandom| == n && (forall i :: 0 <= i < n ==> u.vRandom[i] == i)
    && (forall i :: i in u.mapInfo <==> 0 <= i < n)
    && (forall i :: 0 <= i < n ==> u.mapInfo[i] == Reread(t, Order(t)[i], i))
  }

  ghost predicate HasAddrs(t: Tables, u: Tables, n: nat)
    requires Structured(t)
  {
    && (forall a :: a in t.mapAddr ==> t.mapAddr[a] in t.mapInfo)
    && (forall a :: a in u.mapAddr <==> a in t.mapAddr && Rank(t, t.mapAddr[a]) < n)
    && (forall a :: a in u.mapAddr ==> u.mapAddr[a] == Rank(t, t.mapAddr[a]))
  }

  ghost predicate HasTried(t: Tables, u: Tables, n: nat)
    requires Structured(t)
  {
    && u.vvTried.Keys == t.vvTried.Keys
    && (forall s :: s in t.vvTried && t.vvTried[s] != -1 ==> t.vvTried[s] in t.mapInfo)
    && (forall s :: s in t.vvTried ==>
          u.vvTried[s] == if t.vvTried[s] != -1 && Rank(t, t.vvTried[s]) < n then Rank(t, t.vvTried[s]) else -1)
  }

  ghost predicate NoNewSlots(t: Tables, u: Tables) {
    && u.vvNew.Keys == t.vvNew.Keys
    && (forall s :: s in u.vvNew ==> u.vvNew[s] == -1)
  }

  lemma StructuredFacts(t: Tables)
    requires Structured(t)
    ensures GridsOk(t) && RandomOk(t) && IdsOk(t)
    ensures forall a :: a in t.mapAddr ==> t.mapAddr[a] in t.mapInfo && t.mapInfo[t.mapAddr[a]].svc.net == a
    ensures forall id :: id in t.mapInfo ==> t.mapInfo[id].svc.net in t.mapAddr && t.mapAddr[t.mapInfo[id].svc.net] == id
    ensures forall s :: s in t.vvTried && t.vvTried[s] != -1 ==>
              t.vvTried[s] in t.mapInfo && t.mapInfo[t.vvTried[s]].fInTried
              && s == TriedSlot(t, t.mapInfo[t.vvTried[s]].svc)
    ensures forall id :: id in t.mapInfo && t.mapInfo[id].fInTried ==>
              TriedSlot(t, t.mapInfo[id].svc) in t.vvTried && t.vvTried[TriedSlot(t, t.mapInfo[id].svc)] == id
  {
  }

  lemma BlankHas(t: Tables, u: Tables)
    requires Structured(t)
    requires u.env == t.env && u.nKey == t.nKey && u.nNew == t.nNew && u.nTried == t.nTried
    requires u.mapInfo == map[] && u.mapAddr == map[] && u.vRandom == []
    ensures HasEntries(t, u, 0) && HasAddrs(t, u, 0)
  {
    hide Structured, Order, Rank;
    StructuredFacts(t);
    OrderMembers(t);
  }

  lemma BlankGrids(t: Tables, u: Tables)
    requires Structured(t) && GridsOk(u)
    requires (forall s :: s in u.vvNew ==> u.vvNew[s] == -1) && (forall s :: s in u.vvTried ==> u.vvTried[s] == -1)
    ensures HasTried(t, u, 0) && NoNewSlots(t, u)
  {
    hide Structured, Order, Rank;
    StructuredFacts(t);
    assert u.vvTried.Keys == t.vvTried.Keys;
    assert u.vvNew.Keys == t.vvNew.Keys;
  }

  lemma AppendEntries(t: Tables, u: Tables, n: nat)
    requires Structured(t) && HasEntries(t, u, n) && n < |Order(t)|
    ensures Known(t, Order(t))
    ensures var id := Order(t)[n];
            HasEntries(t, Append(u, n, ToDisk(t.mapInfo[id]), t.mapInfo[id].fInTried), n + 1)
  {
    hide Structured, Order;
    var id := Order(t)[n];
    var v := Append(u, n, ToDisk(t.mapInfo[id]), t.mapInfo[id].fInTried);
    forall i | 0 <= i < n ensures v.vRandom[i] == u.vRandom[i] && v.mapInfo[i] == u.mapInfo[i] {}
  }

  lemma AppendAddrs(t: Tables, u: Tables, n: nat)
    requires Structured(t) && HasAddrs(t, u, n) && n < |Order(t)| && Order(t)[n] in t.mapInfo
    ensures var id := Order(t)[n];
            HasAddrs(t, Append(u, n, ToDisk(t.mapInfo[id]), t.mapInfo[id].fInTried), n + 1)
  {
    hide Structured, Order, Rank, TriedSlot, RandomOk, IsGrid, IdsOk;
    StructuredFacts(t);
    var id := Order(t)[n];
    var v := Append(u, n, ToDisk(t.mapInfo[id]), t.mapInfo[id].fInTried);
    var net := t.mapInfo[id].svc.net;
    RankOfOrder(t, n);
    forall a | a in t.mapAddr ensures Rank(t, t.mapAddr[a]) == n <==> a == net {
      if Rank(t, t.mapAddr[a]) == n {
        RankInjective(t, t.mapAddr[a], id);
      }
    }
  }

  lemma TriedFacts(t: Tables, s: (int, int))
    requires Structured(t) && s in t.vvTried && t.vvTried[s] != -1
    ensures t.vvTried[s] in t.mapInfo && t.mapInfo[t.vvTried[s]].fInTried
    ensures s == TriedSlot(t, t.mapInfo[t.vvTried[s]].svc)
  {
  }

  lemma TriedHome(t: Tables, id: int)
    requires Structured(t) && id in t.mapInfo && t.mapInfo[id].fInTried
    ensures TriedSlot(t, t.mapInfo[id].svc) in t.vvTried && t.vvTried[TriedSlot(t, t.mapInfo[id].svc)] == id && id != -1
  {
  }

  /** The tried slot of rank `n` is the slot of the `n`th entry. */
  lemma TriedRank(t: Tables, s: (int, int), n: nat)
    requires Structured(t) && s in t.vvTried && t.vvTried[s] != -1 && n < |Order(t)|
    ensures t.vvTried[s] in t.mapInfo && Rank(t, t.vvTried[s]) >= t.nNew && Order(t)[n] in t.mapInfo
    ensures Rank(t, t.vvTried[s]) == n ==> s == TriedSlot(t, t.mapInfo[Order(t)[n]].svc)
  {
    hide Structured, Order, Rank, TriedSlot;
    TriedFacts(t, s);
    OrderMembers(t);
    RankOfOrder(t, n);
    assert t.mapInfo[Order(t)[Rank(t, t.vvTried[s])]].fInTried;
  }

  /** A new entry leaves the tried table as it was. */
  lemma NewLeavesTried(t: Tables, u: Tables, n: nat)
    requires Structured(t) && HasTried(t, u, n) && n < t.nNew && n < |Order(t)|
    ensures HasTried(t, u, n + 1)
  {
    hide Structured, Order, Rank;
    forall s | s in t.vvTried && t.vvTried[s] != -1 ensures Rank(t, t.vvTried[s]) != n {
      TriedRank(t, s, n);
    }
  }

  /** A tried entry finds its slot free, and takes it. */
  lemma TriedTakesSlot(t: Tables, u: Tables, n: nat, v: Tables)
    requires Structured(t) && HasTried(t, u, n) && t.nNew <= n < |Order(t)| && Order(t)[n] in t.mapInfo
    requires v.vvTried == u.vvTried[TriedSlot(t, t.mapInfo[Order(t)[n]].svc) := n]
    ensures var s := TriedSlot(t, t.mapInfo[Order(t)[n]].svc); s in u.vvTried && u.vvTried[s] == -1
    ensures HasTried(t, v, n + 1)
  {
    hide Structured, Order, Rank, TriedSlot;
    var id := Order(t)[n];
    var s0 := TriedSlot(t, t.mapInfo[id].svc);
    OrderMembers(t);
    TriedHome(t, id);
    RankOfOrder(t, n);
    forall s | s in t.vvTried && t.vvTried[s] != -1 ensures Rank(t, t.vvTried[s]) == n ==> s == s0 {
      TriedRank(t, s, n);
    }
  }

  /** Everything read so far, after `n` entries. */
  ghost predicate Reading(t: Tables, u: Tables, n: nat)
    requires Structured(t)
  {
    HasEntries(t, u, n) && HasAddrs(t, u, n) && HasTried(t, u, n) && NoNewSlots(t, u)
  }

  lemma ReadingLoadable(t: Tables, u: Tables, n: nat)
    requires Structured(t) && Reading(t, u, n)
    ensures Loadable(u, n)
  {
    hide Structured, Order, Rank, RandomOk, HasAddrs;
    StructuredFacts(t);
    assert RandomOk(u) by { ReadingRandom(t, u, n); }
  }

  lemma ReadingRandom(t: Tables, u: Tables, n: nat)
    requires Structured(t) && HasEntries(t, u, n)
    ensures RandomOk(u)
  {
    hide Structured, Order;
  }

  lemma LoadNewReading(t: Tables, u: Tables, n: nat)
    requires Structured(t) && Reading(t, u, n) && n < t.nNew && n < |Order(t)|
    ensures Loadable(u, n) && Order(t)[n] in t.mapInfo
    ensures Reading(t, LoadNew(u, n, ToDisk(t.mapInfo[Order(t)[n]]), true), n + 1)
  {
    hide Structured, Order, HasTried, HasEntries, HasAddrs, Loadable, Append, ToDisk;
    OrderMembers(t);
    ReadingLoadable(t, u, n);
    AppendEntries(t, u, n);
    AppendAddrs(t, u, n);
    var v := Append(u, n, ToDisk(t.mapInfo[Order(t)[n]]), false);
    SameGrids(t, u, v, n, ToDisk(t.mapInfo[Order(t)[n]]));
    NewLeavesTried(t, v, n);
  }

  lemma SameGrids(t: Tables, u: Tables, v: Tables, n: nat, d: DiskInfo)
    requires Structured(t) && HasTried(t, u, n) && NoNewSlots(t, u) && v == Append(u, n, d, false)
    ensures HasTried(t, v, n) && NoNewSlots(t, v)
  {
    hide Structured, Rank;
  }

  lemma LoadTriedReading(t: Tables, u: Tables, n: nat)
    requires Structured(t) && Reading(t, u, n) && t.nNew <= n < |Order(t)| && u.nIdCount == n
    ensures Loadable(u, n) && Order(t)[n] in t.mapInfo
    ensures var d := ToDisk(t.mapInfo[Order(t)[n]]);
            && u.vvTried[TriedSlot(u, d.svc)] == -1
            && Reading(t, LoadTried(u, d), n + 1) && LoadTried(u, d).nIdCount == n + 1
  {
    hide Structured, Order, HasTried, HasAddrs, HasEntries, Loadable, Rank;
    OrderMembers(t);
    ReadingLoadable(t, u, n);
    AppendEntries(t, u, n);
    AppendAddrs(t, u, n);
    SameHashes(t, u, n);
    var d := ToDisk(t.mapInfo[Order(t)[n]]);
    var v := Append(u, n, d, true);
    var w := LoadTried(u, d);
    TriedTakesSlot(t, u, n, w);
    assert w == v.(vvTried := w.vvTried, nIdCount := n + 1);
    HasEntriesSame(t, v, w, n + 1);
    HasAddrsSame(t, v, w, n + 1);
  }

  lemma SameHashes(t: Tables, u: Tables, n: nat)
    requires Structured(t) && HasEntries(t, u, n)
    ensures forall svc :: TriedSlot(u, svc) == TriedSlot(t, svc)
  {
    hide Structured, Order;
  }

  lemma HasEntriesSame(t: Tables, v: Tables, w: Tables, n: nat)
    requires Structured(t) && HasEntries(t, v, n) && w == v.(vvTried := w.vvTried, nIdCount := w.nIdCount)
    ensures HasEntries(t, w, n)
  {
    hide Structured, Order, Reread;
  }

  lemma HasAddrsSame(t: Tables, v: Tables, w: Tables, n: nat)
    requires Structured(t) && HasAddrs(t, v, n) && w.mapAddr == v.mapAddr
    ensures HasAddrs(t, w, n)
  {
    hide Structured, Rank;
  }

  /** The token at the head of what is left of a written list of entries. */
  lemma NextInfo(t: Tables, ids: seq<int>, n: nat, rest: seq<Token>)
    requires Known(t, ids) && n < |ids|
    ensures ReadInfo(Infos(t, ids)[n..] + rest) == Got(ToDisk(t.mapInfo[ids[n]]), Infos(t, ids)[n + 1..] + rest)
  {
    var s := Infos(t, ids)[n..] + rest;
    assert s[0] == Info(ToDisk(t.mapInfo[ids[n]]));
    assert s[1..] == Infos(t, ids)[n + 1..] + rest;
  }

  lemma {:induction false} ReadNewsAll(t: Tables, u: Tables, n: nat, rest: seq<Token>) returns (v: Tables)
    requires Structured(t) && Reading(t, u, n) && n <= t.nNew
    ensures Loadable(u, n) && t.nNew == |NewOf(t, Ids(t))| && Reading(t, v, t.nNew)
    ensures ReadNews(u, n, t.nNew, true, Infos(t, NewOf(t, Ids(t)))[n..] + rest) == Got(v, rest)
    decreases t.nNew - n
  {
    hide Structured, Reading, Loadable, Ids, NewOf, TriedOf, LoadNew, Infos, ToDisk;
    OrderMembers(t);
    ReadingLoadable(t, u, n);
    var news := NewOf(t, Ids(t));
    if n == t.nNew {
      assert Infos(t, news)[n..] + rest == rest by { InfosLength(t, news); }
      v := u;
    } else {
      assert Order(t)[n] == news[n];
      LoadNewReading(t, u, n);
      InfosLength(t, news);
      NextInfo(t, news, n, rest);
      v := ReadNewsAll(t, LoadNew(u, n, ToDisk(t.mapInfo[news[n]]), true), n + 1, rest);
    }
  }

  lemma InfosLength(t: Tables, ids: seq<int>)
    requires Known(t, ids)
    ensures |Infos(t, ids)| == |ids|
  {
  }

  lemma {:induction false} ReadTriedsAll(t: Tables, u: Tables, n: nat, rest: seq<Token>) returns (v: Tables)
    requires Structured(t) && t.nNew >= 0 && n <= t.nTried && Reading(t, u, t.nNew + n) && u.nIdCount == t.nNew + n
    ensures Loadable(u, u.nIdCount) && |TriedOf(t, Ids(t))| == t.nTried && |Order(t)| == t.nNew + t.nTried
    ensures Reading(t, v, |Order(t)|) && v.nIdCount == |Order(t)|
    ensures ReadTrieds(u, n, t.nTried, 0, Infos(t, TriedOf(t, Ids(t)))[n..] + rest) == Got((v, 0), rest)
    decreases t.nTried - n
  {
    hide Structured, Reading, Loadable, Ids, NewOf, TriedOf, LoadTried, Infos, ToDisk, TriedSlot;
    OrderMembers(t);
    ReadingLoadable(t, u, t.nNew + n);
    var trieds := TriedOf(t, Ids(t));
    if n == t.nTried {
      assert Infos(t, trieds)[n..] + rest == rest by { InfosLength(t, trieds); }
      v := u;
    } else {
      assert Order(t)[t.nNew + n] == trieds[n];
      LoadTriedReading(t, u, t.nNew + n);
      InfosLength(t, trieds);
      NextInfo(t, trieds, n, rest);
      v := ReadTriedsAll(t, LoadTried(u, ToDisk(t.mapInfo[trieds[n]])), n + 1, rest);
    }
  }

  // ----- reading the bucket table -----

  /** Slot `s` comes before position `p` of bucket `b`. */
  ghost predicate Before(s: (int, int), b: int, p: int) {
    s.0 < b || (s.0 == b && s.1 < p)
  }

  /** The buckets of `id` whose slot comes before position `p` of bucket `b`. */
  ghost function BucketsBefore(t: Tables, id: int, b: int, p: int): set<int>
    requires GridsOk(t) && id in t.mapInfo
  {
    set b' | b' in Buckets(t, id) && Before(NewSlot(t, b', t.mapInfo[id].svc), b, p)
  }

  /** How many of its slots the entry of rank `j` has before position `p` of bucket `b`. */
  ghost function CountBefore(t: Tables, j: nat, b: int, p: int): nat
    requires GridsOk(t) && Known(t, Order(t)) && j < |Order(t)|
  {
    |BucketsBefore(t, Order(t)[j], b, p)|
  }

  /** The entry of rank `j` with the slots before position `p` of bucket `b` counted. */
  ghost function Counted(t: Tables, j: nat, b: int, p: int): AddrInfo
    requires GridsOk(t) && Known(t, Order(t)) && j < |Order(t)|
  {
    Reread(t, Order(t)[j], j).(nRefCount := CountBefore(t, j, b, p))
  }

  /** Each entry's reference count covers its slots before position `p` of bucket `b`. */
  ghost predicate CountsBefore(t: Tables, u: Tables, b: int, p: int)
    requires GridsOk(t) && Known(t, Order(t))
  {
    && (forall i :: i in u.mapInfo <==> 0 <= i < |Order(t)|)
    && (forall i :: 0 <= i < |Order(t)| ==> u.mapInfo[i] == Counted(t, i, b, p))
  }

  /** The slots before position `p` of bucket `b` are filled, the others still free. */
  ghost predicate SlotsBefore(t: Tables, u: Tables, b: int, p: int)
    requires Structured(t)
  {
    && u.vvNew.Keys == t.vvNew.Keys
    && (forall s :: s in t.vvNew && t.vvNew[s] != -1 ==> t.vvNew[s] in t.mapInfo)
    && (forall s :: s in t.vvNew ==>
          u.vvNew[s] == if t.vvNew[s] != -1 && Before(s, b, p) then Rank(t, t.vvNew[s]) else -1)
  }

  /** What reading the bucket table does not touch. */
  ghost predicate Indexed(t: Tables, u: Tables)
    requires Structured(t)
  {
    && u.env == t.env && u.nKey == t.nKey && u.nNew == t.nNew && u.nTried == t.nTried
    && u.nIdCount == |Order(t)|
    && |u.vRandom| == |Order(t)| && (forall i :: 0 <= i < |Order(t)| ==> u.vRandom[i] == i)
    && HasAddrs(t, u, |Order(t)|) && HasTried(t, u, |Order(t)|)
  }

  ghost predicate Filling(t: Tables, u: Tables, b: int, p: int)
    requires Structured(t)
  {
    Known(t, Order(t)) && GridsOk(t) && CountsBefore(t, u, b, p) && SlotsBefore(t, u, b, p) && Indexed(t, u)
  }

  lemma NewFacts(t: Tables, s: (int, int))
    requires Structured(t) && s in t.vvNew && t.vvNew[s] != -1
    ensures t.vvNew[s] in t.mapInfo && !t.mapInfo[t.vvNew[s]].fInTried
    ensures s == NewSlot(t, s.0, t.mapInfo[t.vvNew[s]].svc) && GridsOk(t) && s.0 in Buckets(t, t.vvNew[s])
    ensures |Buckets(t, t.vvNew[s])| == t.mapInfo[t.vvNew[s]].nRefCount <= NEW_BUCKETS_PER_ADDRESS
  {
  }

  /** Passing slot (b, p): its occupant gains bucket `b`, no other entry gains any. */
  lemma BucketsBeforeStep(t: Tables, id: int, b: int, p: int)
    requires GridsOk(t) && (b, p) in t.vvNew && id in t.mapInfo
    requires t.vvNew[(b, p)] == id ==> (b, p) == NewSlot(t, b, t.mapInfo[id].svc)
    ensures t.vvNew[(b, p)] != id ==> BucketsBefore(t, id, b, p + 1) == BucketsBefore(t, id, b, p)
    ensures t.vvNew[(b, p)] == id ==>
              && b !in BucketsBefore(t, id, b, p)
              && BucketsBefore(t, id, b, p + 1) == BucketsBefore(t, id, b, p) + {b}
  {
    forall b' | b' in Buckets(t, id) && NewSlot(t, b', t.mapInfo[id].svc) == (b, p) ensures t.vvNew[(b, p)] == id {}
  }

  lemma CountBeforeStep(t: Tables, j: nat, b: int, p: int)
    requires Structured(t) && GridsOk(t) && Known(t, Order(t)) && j < |Order(t)| && (b, p) in t.vvNew
    ensures CountBefore(t, j, b, p + 1) == CountBefore(t, j, b, p) + (if t.vvNew[(b, p)] == Order(t)[j] then 1 else 0)
    ensures t.vvNew[(b, p)] == Order(t)[j] ==> CountBefore(t, j, b, p) < NEW_BUCKETS_PER_ADDRESS
  {
    hide Structured, Order, BucketsBefore, Buckets, IsGrid;
    var id := Order(t)[j];
    IdNotFree(t, id);
    if t.vvNew[(b, p)] == id {
      NewFacts(t, (b, p));
    }
    BucketsBeforeStep(t, id, b, p);
    if t.vvNew[(b, p)] == id {
      BucketsBeforeSize(t, id, b, p + 1);
    }
  }

  lemma IdNotFree(t: Tables, id: int)
    requires Structured(t) && id in t.mapInfo
    ensures id != -1
  {
  }

  /** Passing a free slot. */
  lemma CountsSkip(t: Tables, u: Tables, b: int, p: int)
    requires Structured(t) && GridsOk(t) && Known(t, Order(t)) && CountsBefore(t, u, b, p)
    requires (b, p) in t.vvNew && t.vvNew[(b, p)] == -1
    ensures CountsBefore(t, u, b, p + 1)
  {
    hide Structured, Order, CountBefore, Reread, IsGrid;
    forall j | 0 <= j < |Order(t)| ensures Counted(t, j, b, p + 1) == Counted(t, j, b, p) {
      CountBeforeStep(t, j, b, p);
      IdNotFree(t, Order(t)[j]);
    }
  }

  /** Passing a taken slot: its occupant's count has room, and grows by one. */
  lemma CountsTake(t: Tables, u: Tables, b: int, p: int, id: int, v: Tables)
    requires Structured(t) && GridsOk(t) && Known(t, Order(t)) && CountsBefore(t, u, b, p)
    requires (b, p) in t.vvNew && t.vvNew[(b, p)] == id && id != -1 && id in t.mapInfo
    ensures var i := Rank(t, id);
            && i in u.mapInfo && u.mapInfo[i].nRefCount < NEW_BUCKETS_PER_ADDRESS
            && (v.mapInfo == u.mapInfo[i := u.mapInfo[i].(nRefCount := u.mapInfo[i].nRefCount + 1)] ==>
                  CountsBefore(t, v, b, p + 1))
  {
    hide Structured, Order, CountBefore, Reread, IsGrid, Rank;
    var i := Rank(t, id);
    OrderMembers(t);
    CountBeforeStep(t, i, b, p);
    assert Counted(t, i, b, p + 1) == Counted(t, i, b, p).(nRefCount := CountBefore(t, i, b, p) + 1);
    forall j | 0 <= j < |Order(t)| && j != i ensures Counted(t, j, b, p + 1) == Counted(t, j, b, p) {
      CountBeforeStep(t, j, b, p);
      assert Order(t)[j] != id;
    }
  }

  lemma BucketsBeforeSize(t: Tables, id: int, b: int, p: int)
    requires GridsOk(t) && id in t.mapInfo
    ensures |BucketsBefore(t, id, b, p)| <= |Buckets(t, id)|
  {
    SubsetSize(BucketsBefore(t, id, b, p), Buckets(t, id));
  }

  lemma SubsetSize(a: set<int>, b: set<int>)
    requires a <= b
    ensures |a| <= |b|
  {
    assert b == a + (b - a);
  }

  lemma SlotsStep(t: Tables, u: Tables, b: int, p: int, v: Tables)
    requires Structured(t) && SlotsBefore(t, u, b, p) && (b, p) in t.vvNew
    requires v.vvNew == if t.vvNew[(b, p)] == -1 then u.vvNew else u.vvNew[(b, p) := Rank(t, t.vvNew[(b, p)])]
    ensures u.vvNew[(b, p)] == -1 && SlotsBefore(t, v, b, p + 1)
  {
    hide Structured, Rank;
    forall s | s in t.vvNew && s != (b, p) ensures Before(s, b, p + 1) <==> Before(s, b, p) {}
  }

  lemma FillingLoadable(t: Tables, u: Tables, b: int, p: int)
    requires Structured(t) && Filling(t, u, b, p)
    ensures Loadable(u, u.nIdCount)
  {
    hide Structured, Order, Rank, BucketsBefore, HasAddrs;
    StructuredFacts(t);
  }

  /** Reading the rank of the occupant of slot (b, p) fills that slot. */
  lemma LoadIndexFills(t: Tables, u: Tables, b: nat, p: nat)
    requires Structured(t) && Filling(t, u, b, p) && (b, p) in t.vvNew && t.vvNew[(b, p)] != -1 && b < NEW_BUCKET_COUNT
    ensures t.vvNew[(b, p)] in t.mapInfo && Loadable(u, u.nIdCount)
    ensures Filling(t, LoadIndex(u, b, Rank(t, t.vvNew[(b, p)]), true), b, p + 1)
  {
    hide Structured, Order, Rank, BucketsBefore, HasAddrs, HasTried, IsGrid, Loadable;
    var id := t.vvNew[(b, p)];
    NewFacts(t, (b, p));
    FillingLoadable(t, u, b, p);
    var i := Rank(t, id);
    RanksAreRanks(t, id);
    var v := TakeSlot(u, i, (b, p));
    CountsTake(t, u, b, p, id, v);
    SlotsStep(t, u, b, p, v);
    HasAddrsSame(t, u, v, |Order(t)|);
    HasTriedSame(t, u, v, |Order(t)|);
    assert NewSlot(u, b, u.mapInfo[i].svc) == (b, p);
    assert LoadIndex(u, b, i, true) == v;
  }

  lemma HasTriedSame(t: Tables, v: Tables, w: Tables, n: nat)
    requires Structured(t) && HasTried(t, v, n) && w.vvTried == v.vvTried
    ensures HasTried(t, w, n)
  {
    hide Structured, Rank;
  }

  lemma SkipFills(t: Tables, u: Tables, b: nat, p: nat)
    requires Structured(t) && Filling(t, u, b, p) && (b, p) in t.vvNew && t.vvNew[(b, p)] == -1
    ensures Filling(t, u, b, p + 1)
  {
    hide Structured, Order, Rank, CountsBefore, SlotsBefore, Indexed;
    CountsSkip(t, u, b, p);
    SlotsStep(t, u, b, p, u);
  }

  lemma NextBucket(t: Tables, u: Tables, b: nat)
    requires Structured(t) && Filling(t, u, b, BUCKET_SIZE)
    ensures Filling(t, u, b + 1, 0)
  {
    hide Structured, Order, Rank, Indexed;
    StructuredFacts(t);
    forall s | s in t.vvNew ensures Before(s, b, BUCKET_SIZE) <==> Before(s, b + 1, 0) {}
    forall id | id in t.mapInfo ensures BucketsBefore(t, id, b, BUCKET_SIZE) == BucketsBefore(t, id, b + 1, 0) {}
  }

  lemma {:induction false} ReadIndexesAll(t: Tables, u: Tables, b: nat, p: nat, rest: seq<Token>) returns (v: Tables)
    requires Structured(t) && GridsOk(t) && b < NEW_BUCKET_COUNT && p <= BUCKET_SIZE && Filling(t, u, b, p)
    ensures Loadable(u, u.nIdCount) && Filling(t, v, b, BUCKET_SIZE)
    ensures var occupants := Occupants(t, b, p);
            ReadIndexes(u, b, |occupants|, true, Indexes(Ranks(t, Ids(t)), occupants) + rest) == Got(v, rest)
    decreases BUCKET_SIZE - p
  {
    hide Structured, Filling, Loadable, Ranks, Ids, LoadIndex;
    FillingLoadable(t, u, b, p);
    var ranks := Ranks(t, Ids(t));
    if p == BUCKET_SIZE {
      v := u;
      assert Indexes(ranks, []) + rest == rest;
    } else if t.vvNew[(b, p)] == -1 {
      SkipFills(t, u, b, p);
      v := ReadIndexesAll(t, u, b, p + 1, rest);
      assert Occupants(t, b, p) == Occupants(t, b, p + 1);
    } else {
      var id := t.vvNew[(b, p)];
      LoadIndexFills(t, u, b, p);
      NewFacts(t, (b, p));
      RanksAreRanks(t, id);
      var more := Occupants(t, b, p + 1);
      assert Occupants(t, b, p) == [id] + more;
      NextIndex(ranks, id, more, rest);
      v := ReadIndexesAll(t, LoadIndex(u, b, Rank(t, id), true), b, p + 1, rest);
    }
  }

  lemma NextIndex(ranks: map<int, int>, id: int, more: seq<int>, rest: seq<Token>)
    requires id in ranks
    ensures ReadInt(Indexes(ranks, [id] + more) + rest) == Got(ranks[id], Indexes(ranks, more) + rest)
  {
    assert ([id] + more)[1..] == more;
    var s := Indexes(ranks, [id] + more) + rest;
    assert s == [Int(ranks[id])] + (Indexes(ranks, more) + rest);
  }

  lemma {:induction false} ReadBucketsAll(t: Tables, u: Tables, b: nat) returns (v: Tables)
    requires Structured(t) && GridsOk(t) && b <= NEW_BUCKET_COUNT && Filling(t, u, b, 0)
    ensures Loadable(u, u.nIdCount) && Filling(t, v, NEW_BUCKET_COUNT, 0)
    ensures ReadBuckets(u, b, NEW_BUCKET_COUNT, true, BucketTokens(t, Ranks(t, Ids(t)), b)) == Got(v, [])
    decreases NEW_BUCKET_COUNT - b
  {
    hide Structured, Filling, Loadable, Ranks, Ids, Occupants, Indexes;
    FillingLoadable(t, u, b, 0);
    var ranks := Ranks(t, Ids(t));
    if b == NEW_BUCKET_COUNT {
      v := u;
    } else {
      var occupants := Occupants(t, b, 0);
      var rest := BucketTokens(t, ranks, b + 1);
      var u1 := ReadIndexesAll(t, u, b, 0, rest);
      NextBucket(t, u1, b);
      NextSize(|occupants|, Indexes(ranks, occupants), rest);
      v := ReadBucketsAll(t, u1, b + 1);
    }
  }

  lemma NextSize(n: nat, a: seq<Token>, rest: seq<Token>)
    ensures ReadInt([Int(n)] + a + rest) == Got(n, a + rest)
  {
    assert ([Int(n)] + a + rest)[1..] == a + rest;
  }

  // ----- the round trip -----

  lemma ReadingFills(t: Tables, u: Tables)
    requires Structured(t) && Reading(t, u, |Order(t)|) && u.nIdCount == |Order(t)|
    ensures Filling(t, u, 0, 0)
  {
    hide Structured, Order, Rank, HasAddrs, HasTried;
    StructuredFacts(t);
    forall j | 0 <= j < |Order(t)| ensures Counted(t, j, 0, 0) == Reread(t, Order(t)[j], j) {
      assert BucketsBefore(t, Order(t)[j], 0, 0) == {};
    }
    assert SlotsBefore(t, u, 0, 0) by {
      forall s | s in t.vvNew && t.vvNew[s] != -1 ensures t.vvNew[s] in t.mapInfo { NewFacts(t, s); }
    }
  }

  /** `id` after a round trip: everything but the memory-only statistics and the random position. */
  ghost function Restored(t: Tables, id: int): AddrInfo
    requires Structured(t) && id in t.mapInfo
  {
    t.mapInfo[id].(nLastTry := 0, nLastCountAttempt := 0, nRandomPos := Rank(t, id))
  }

  /** The slots of `g`, with each occupant renamed to its rank. */
  ghost predicate RenamedGrid(t: Tables, g: Grid, h: Grid)
    requires Structured(t)
  {
    && h.Keys == g.Keys
    && (forall s :: s in g && g[s] != -1 ==> g[s] in t.mapInfo)
    && (forall s :: s in g ==> h[s] == if g[s] == -1 then -1 else Rank(t, g[s]))
  }

  /** `u` is `t` with every entry renamed to its rank in writing order. */
  ghost predicate Renamed(t: Tables, u: Tables)
    requires Structured(t)
  {
    && u.env == t.env && u.nKey == t.nKey && u.nNew == t.nNew && u.nTried == t.nTried
    && |u.mapInfo| == |t.mapInfo| == |Order(t)| == u.nIdCount == |u.vRandom|
    && (forall i :: i in u.mapInfo <==> 0 <= i < |Order(t)|)
    && (forall i :: 0 <= i < |u.vRandom| ==> u.vRandom[i] == i)
    && (forall id :: id in t.mapInfo ==> Rank(t, id) in u.mapInfo && u.mapInfo[Rank(t, id)] == Restored(t, id))
    && HasAddrs(t, u, |Order(t)|)
    && RenamedGrid(t, t.vvNew, u.vvNew)
    && RenamedGrid(t, t.vvTried, u.vvTried)
  }

  lemma FilledEntries(t: Tables, u: Tables, id: int)
    requires Structured(t) && GridsOk(t) && Known(t, Order(t)) && CountsBefore(t, u, NEW_BUCKET_COUNT, 0)
    requires id in t.mapInfo
    ensures Rank(t, id) in u.mapInfo && u.mapInfo[Rank(t, id)] == Restored(t, id)
  {
    hide Structured, Order, Rank, CountBefore;
    FullCount(t, id);
  }

  lemma FilledSlots(t: Tables, u: Tables)
    requires Structured(t) && SlotsBefore(t, u, NEW_BUCKET_COUNT, 0)
    ensures RenamedGrid(t, t.vvNew, u.vvNew)
  {
    hide Structured, Rank;
    StructuredFacts(t);
  }

  lemma FilledTried(t: Tables, u: Tables)
    requires Structured(t) && HasTried(t, u, |Order(t)|)
    ensures RenamedGrid(t, t.vvTried, u.vvTried)
  {
    hide Structured, Order, Rank;
  }

  lemma FilledRenames(t: Tables, u: Tables)
    requires Structured(t) && Filling(t, u, NEW_BUCKET_COUNT, 0)
    ensures Renamed(t, u)
  {
    hide Structured, Order, Rank, HasAddrs, HasTried, RenamedGrid, Restored, SlotsBefore, GridsOk;
    FilledSlots(t, u);
    FilledTried(t, u);
    RankedSizes(t, u);
    forall id | id in t.mapInfo
      ensures Rank(t, id) in u.mapInfo && u.mapInfo[Rank(t, id)] == Restored(t, id)
    {
      FilledEntries(t, u, id);
    }
  }

  lemma FullCount(t: Tables, id: int)
    requires Structured(t) && id in t.mapInfo && GridsOk(t) && Known(t, Order(t))
    ensures CountBefore(t, Rank(t, id), NEW_BUCKET_COUNT, 0) == t.mapInfo[id].nRefCount
  {
    hide Structured, Rank, Order;
    assert Order(t)[Rank(t, id)] == id;
    assert BucketsBefore(t, id, NEW_BUCKET_COUNT, 0) == Buckets(t, id);
    BucketsAreCounted(t, id);
  }

  lemma BucketsAreCounted(t: Tables, id: int)
    requires Structured(t) && GridsOk(t) && id in t.mapInfo
    ensures |Buckets(t, id)| == t.mapInfo[id].nRefCount
  {
    hide AddrsOk, RandomOk, CountsOk;
    if t.mapInfo[id].fInTried {
      forall b | 0 <= b < NEW_BUCKET_COUNT ensures t.vvNew[NewSlot(t, b, t.mapInfo[id].svc)] != id {}
      assert Buckets(t, id) == {};
    }
  }

  lemma RankedSizes(t: Tables, u: Tables)
    requires Structured(t) && (forall i :: i in u.mapInfo <==> 0 <= i < |Order(t)|)
    ensures |u.mapInfo| == |t.mapInfo| == |Order(t)|
  {
    hide Structured, Order;
    OrderMembers(t);
    DistinctSize(Order(t), t.mapInfo.Keys);
    IntervalSize(u.mapInfo.Keys, |Order(t)|);
  }

  lemma {:induction false} IntervalSize(s: set<int>, n: nat)
    requires forall i :: i in s <==> 0 <= i < n
    ensures |s| == n
  {
    if n == 0 {
      assert forall i :: i !in s;
      assert s == {};
    } else {
      IntervalSize(s - {n - 1}, n - 1);
    }
  }

  // ----- the limits checked on reading always hold of written tables -----

  lemma {:induction false} GridSize(slots: set<(int, int)>, buckets: nat)
    requires forall s :: s in slots <==> 0 <= s.0 < buckets && 0 <= s.1 < BUCKET_SIZE
    ensures |slots| == buckets * BUCKET_SIZE
  {
    if buckets == 0 {
      assert forall s :: s !in slots;
      assert slots == {};
    } else {
      var row := set s | s in slots && s.0 == buckets - 1;
      RowSize(row, buckets - 1, BUCKET_SIZE);
      GridSize(slots - row, buckets - 1);
      assert slots == (slots - row) + row;
    }
  }

  lemma {:induction false} RowSize(row: set<(int, int)>, b: int, n: nat)
    requires forall s :: s in row <==> s.0 == b && 0 <= s.1 < n
    ensures |row| == n
  {
    if n > 0 {
      assert (b, n - 1) in row;
      RowSize(row - {(b, n - 1)}, b, n - 1);
    } else {
      assert forall s :: s !in row;
      assert row == {};
    }
  }

  /** A table whose slots hold all of `ids` has at least as many slots. */
  lemma {:induction false} HeldSize(g: Grid, slots: set<(int, int)>, ids: set<int>)
    requires slots <= g.Keys
    requires forall id :: id in ids ==> exists s :: s in slots && g[s] == id
    ensures |ids| <= |slots|
    decreases |ids|
  {
    if |ids| > 0 {
      assert (forall id :: id !in ids) ==> ids == {};
      var id :| id in ids;
      var s :| s in slots && g[s] == id;
      var rest := ids - {id};
      forall x | x in rest ensures exists s' :: s' in slots - {s} && g[s'] == x {
        var s' :| s' in slots && g[s'] == x;
        assert s' in slots - {s};
      }
      HeldSize(g, slots - {s}, rest);
    }
  }

  lemma WithinLimits(t: Tables)
    requires Structured(t)
    ensures 0 <= t.nNew <= NEW_BUCKET_COUNT * BUCKET_SIZE && 0 <= t.nTried <= TRIED_BUCKET_COUNT * BUCKET_SIZE
  {
    hide AddrsOk, RandomOk, IdsOk;
    forall id | id in NewIds(t) ensures exists s :: s in t.vvNew.Keys && t.vvNew[s] == id {
      Ops.SearchFinds(t, id);
    }
    forall id | id in TriedIds(t) ensures exists s :: s in t.vvTried.Keys && t.vvTried[s] == id {
      TriedHome(t, id);
    }
    HeldSize(t.vvNew, t.vvNew.Keys, NewIds(t));
    HeldSize(t.vvTried, t.vvTried.Keys, TriedIds(t));
    GridSize(t.vvNew.Keys, NEW_BUCKET_COUNT);
    GridSize(t.vvTried.Keys, TRIED_BUCKET_COUNT);
  }

  lemma {:induction false} PruneNothing(u: Tables, ids: seq<int>)
    requires RandomOk(u)
    requires forall id :: id in u.mapInfo ==> u.mapInfo[id].fInTried || u.mapInfo[id].nRefCount != 0
    ensures Prune(u, ids, 0) == (u, 0)
    decreases |ids|
  {
    hide RandomOk;
    if ids != [] {
      PruneNothing(u, ids[1..]);
    }
  }

  lemma RenamedHeld(t: Tables, u: Tables)
    requires Structured(t) && Renamed(t, u)
    ensures forall i :: i in u.mapInfo ==> u.mapInfo[i].fInTried || u.mapInfo[i].nRefCount != 0
  {
    hide Structured, Order, Rank, HasAddrs, RenamedGrid;
    forall i | i in u.mapInfo ensures u.mapInfo[i].fInTried || u.mapInfo[i].nRefCount != 0 {
      RankOfOrder(t, i);
      HeldEntry(t, Order(t)[i]);
    }
  }

  lemma HeldEntry(t: Tables, id: int)
    requires Structured(t) && id in t.mapInfo
    ensures t.mapInfo[id].fInTried || t.mapInfo[id].nRefCount != 0
  {
  }

  /** The body of a written stream, read into a blank manager. */
  lemma ReadBodyBack(t: Tables, t0: Tables) returns (u: Tables)
    requires Structured(t) && Reading(t, t0, 0) && (forall next :: Loadable(t0, next))
    ensures GridsOk(t)
    ensures var ids := Ids(t);
            ReadBody(t0, t.nNew, t.nTried, NEW_BUCKET_COUNT, true,
              Infos(t, NewOf(t, ids)) + Infos(t, TriedOf(t, ids)) + BucketTokens(t, Ranks(t, ids), 0)) == Got((u, 0), [])
    ensures Renamed(t, u) && RandomOk(u)
  {
    hide Structured, Reading, Loadable, Filling, Renamed, Infos, BucketTokens, Ranks, Ids, NewOf, TriedOf;
    hide ReadBody, ReadNews, ReadTrieds, ReadBuckets;
    StructuredGridsOk(t);
    WithinLimits(t);
    var ids := Ids(t);
    var news, trieds, buckets := Infos(t, NewOf(t, ids)), Infos(t, TriedOf(t, ids)), BucketTokens(t, Ranks(t, ids), 0);
    assert news + trieds + buckets == news[0..] + (trieds + buckets);
    var t1 := ReadNewsAll(t, t0, 0, trieds + buckets);
    var t1' := t1.(nIdCount := t.nNew);
    ReadingRecount(t, t1, t1', t.nNew);
    assert trieds + buckets == trieds[0..] + buckets;
    var t2 := ReadTriedsAll(t, t1', 0, buckets);
    assert t2.nTried == t.nTried by { ReadingCounts(t, t2); }
    ReadingFills(t, t2);
    u := ReadBucketsAll(t, t2, 0);
    ReadBodyIs(t0, t.nNew, t.nTried, news + trieds + buckets, t1, trieds + buckets, t2, buckets, u, []);
    FilledRenames(t, u);
    FillingLoadable(t, u, NEW_BUCKET_COUNT, 0);
    assert RandomOk(u) by { LoadableRandom(u, u.nIdCount); }
  }

  lemma ReadBodyIs(t0: Tables, nNew: int, nTried: int, s: seq<Token>,
                   t1: Tables, rest1: seq<Token>, t2: Tables, rest2: seq<Token>, t3: Tables, rest3: seq<Token>)
    requires forall next :: Loadable(t0, next)
    requires ReadNews(t0, 0, nNew, true, s) == Got(t1, rest1)
    requires Loadable(t1.(nIdCount := nNew), nNew)
    requires ReadTrieds(t1.(nIdCount := nNew), 0, nTried, 0, rest1) == Got((t2, 0), rest2)
    requires t2.nTried == nTried && Loadable(t2, t2.nIdCount)
    requires ReadBuckets(t2, 0, NEW_BUCKET_COUNT, true, rest2) == Got(t3, rest3)
    ensures ReadBody(t0, nNew, nTried, NEW_BUCKET_COUNT, true, s) == Got((t3, 0), rest3)
  {
    hide GridsOk, RandomOk, ReadNews, ReadTrieds, ReadBuckets;
    assert t2.(nTried := nTried - 0) == t2;
  }

  lemma LoadableRandom(u: Tables, next: int)
    requires Loadable(u, next)
    ensures RandomOk(u)
  {
  }

  lemma StructuredGridsOk(t: Tables)
    requires Structured(t)
    ensures GridsOk(t)
  {
  }

  lemma ReadingCounts(t: Tables, u: Tables)
    requires Structured(t) && Reading(t, u, |Order(t)|)
    ensures u.nTried == t.nTried
  {
    hide Structured, Order, HasAddrs, HasTried;
  }

  lemma ReadingRecount(t: Tables, u: Tables, v: Tables, n: nat)
    requires Structured(t) && Reading(t, u, n) && v == u.(nIdCount := v.nIdCount)
    ensures Reading(t, v, n)
  {
    hide Structured, Order, Rank;
    HasAddrsSame(t, u, v, n);
    HasTriedSame(t, u, v, n);
    hide HasAddrs, HasTried;
  }

  /**
   Reading back what was written succeeds and loses nothing: the same entries, the same slots
   of both tables, the same reference counts, under ids renumbered in writing order.
   */
  lemma RoundTrip(t: Tables)
    requires Structured(t)
    ensures GridsOk(t)
    ensures var r := Unserialize(t.env, Serialized(t));
            r.Loaded? && r.nLost == 0 && r.nLostUnk == 0 && Renamed(t, r.t)
  {
    hide Structured, Reading, Loadable, Renamed, Infos, BucketTokens, Ranks, NewOf, TriedOf, ReadBody, Prune, Ops.EmptyGrid;
    hide Unserialize, Header, RandomOk;
    StructuredGridsOk(t);
    WithinLimits(t);
    var t0 := Blank(t.env, t.nKey, t.nNew, t.nTried);
    BlankReading(t, t0);
    var u := ReadBodyBack(t, t0);
    var ids := Ids(t);
    var body := Infos(t, NewOf(t, ids)) + Infos(t, TriedOf(t, ids)) + BucketTokens(t, Ranks(t, ids), 0);
    assert Serialized(t) == Header(t) + body;
    RenamedHeld(t, u);
    PruneNothing(u, Ascending(u.mapInfo.Keys));
    UnserializeIs(t, body, u);
  }

  lemma UnserializeIs(t: Tables, body: seq<Token>, u: Tables)
    requires 0 <= t.nNew <= NEW_BUCKET_COUNT * BUCKET_SIZE && 0 <= t.nTried <= TRIED_BUCKET_COUNT * BUCKET_SIZE
    requires ReadBody(Blank(t.env, t.nKey, t.nNew, t.nTried), t.nNew, t.nTried, NEW_BUCKET_COUNT, true, body) ==
             Got((u, 0), [])
    requires RandomOk(u) && Prune(u, Ascending(u.mapInfo.Keys), 0) == (u, 0)
    ensures Unserialize(t.env, Header(t) + body) == Loaded(u, 0, 0)
  {
    hide ReadBody, Prune, Blank, RandomOk, Ascending;
    var s := Header(t) + body;
    assert s[6..] == body;
    assert FlipBit30(FlipBit30(NEW_BUCKET_COUNT)) == NEW_BUCKET_COUNT;
  }

  lemma BlankReading(t: Tables, u: Tables)
    requires Structured(t) && t.nNew >= 0 && t.nTried >= 0 && u == Blank(t.env, t.nKey, t.nNew, t.nTried)
    ensures Reading(t, u, 0)
  {
    hide Structured, HasEntries, HasAddrs, HasTried, NoNewSlots, Ops.EmptyGrid, Loadable;
    Ops.EmptyGridOk(TRIED_BUCKET_COUNT);
    Ops.EmptyGridOk(NEW_BUCKET_COUNT);
    BlankHas(t, u);
    BlankGrids(t, u);
  }

  // ----- the manager read back is consistent -----

  /** Entry `i` of the tables read back, seen as the entry of `t` it came from. */
  lemma RenamedEntry(t: Tables, u: Tables, i: int)
    requires Structured(t) && Renamed(t, u) && i in u.mapInfo
    ensures 0 <= i < |Order(t)| && Order(t)[i] in t.mapInfo && Rank(t, Order(t)[i]) == i
    ensures u.mapInfo[i] == Restored(t, Order(t)[i])
  {
    hide Structured, Order, Rank, HasAddrs, RenamedGrid, Restored;
    RankOfOrder(t, i);
  }

  lemma RenamedRandom(t: Tables, u: Tables)
    requires Structured(t) && Renamed(t, u)
    ensures IdsOk(u) && RandomOk(u)
  {
    hide Structured, Order, Rank, RenamedGrid, HasAddrs;
    forall i | i in u.mapInfo ensures u.mapInfo[i].nRandomPos == i {
      RenamedEntry(t, u, i);
    }
  }

  lemma RenamedAddrs(t: Tables, u: Tables)
    requires Structured(t) && Renamed(t, u)
    ensures AddrsOk(u)
  {
    hide Structured, Order, Rank, RenamedGrid;
    forall i | i in u.mapInfo
      ensures u.mapInfo[i].svc.net in u.mapAddr && u.mapAddr[u.mapInfo[i].svc.net] == i
    {
      RenamedEntry(t, u, i);
      EntryAddr(t, Order(t)[i]);
    }
    forall a | a in u.mapAddr ensures u.mapAddr[a] in u.mapInfo && u.mapInfo[u.mapAddr[a]].svc.net == a {
      EntryOfAddr(t, a);
      assert u.mapInfo[Rank(t, t.mapAddr[a])] == Restored(t, t.mapAddr[a]);
    }
  }

  lemma EntryAddr(t: Tables, id: int)
    requires Structured(t) && id in t.mapInfo
    ensures t.mapInfo[id].svc.net in t.mapAddr && t.mapAddr[t.mapInfo[id].svc.net] == id
  {
  }

  lemma EntryOfAddr(t: Tables, a: NetAddr)
    requires Structured(t) && a in t.mapAddr
    ensures t.mapAddr[a] in t.mapInfo && t.mapInfo[t.mapAddr[a]].svc.net == a
  {
  }

  lemma RenamedEntries(t: Tables, u: Tables)
    requires Structured(t) && Renamed(t, u)
    ensures EntriesOk(u, {})
    ensures TimesOk(t) ==> TimesOk(u)
  {
    hide Structured, Order, Rank, RenamedGrid, HasAddrs;
    forall i | i in u.mapInfo
      ensures u.mapInfo[i].fInTried ==> u.mapInfo[i].nRefCount == 0
      ensures !u.mapInfo[i].fInTried ==> 1 <= u.mapInfo[i].nRefCount <= NEW_BUCKETS_PER_ADDRESS
      ensures u.mapInfo[i].nLastTry == 0
      ensures TimesOk(t) ==> u.mapInfo[i].nLastSuccess >= 0 && (u.mapInfo[i].fInTried ==> u.mapInfo[i].nLastSuccess != 0)
    {
      RenamedEntry(t, u, i);
      EntryBounds(t, Order(t)[i]);
    }
  }

  lemma EntryBounds(t: Tables, id: int)
    requires Structured(t) && id in t.mapInfo
    ensures t.mapInfo[id].fInTried ==> t.mapInfo[id].nRefCount == 0
    ensures !t.mapInfo[id].fInTried ==> 1 <= t.mapInfo[id].nRefCount <= NEW_BUCKETS_PER_ADDRESS
  {
  }

  lemma RenamedGrids(t: Tables, u: Tables)
    requires Structured(t) && Renamed(t, u)
    ensures GridsOk(t) && GridsOk(u)
  {
    hide Structured, Order, Rank, HasAddrs;
    StructuredGridsOk(t);
  }

  lemma RenamedTried(t: Tables, u: Tables)
    requires Structured(t) && Renamed(t, u) && GridsOk(u)
    ensures TriedOk(u)
  {
    hide Structured, Order, Rank, HasAddrs;
    forall s | s in u.vvTried && u.vvTried[s] != -1
      ensures u.vvTried[s] in u.mapInfo && u.mapInfo[u.vvTried[s]].fInTried
      ensures s == TriedSlot(u, u.mapInfo[u.vvTried[s]].svc)
    {
      TriedFacts(t, s);
      assert u.mapInfo[Rank(t, t.vvTried[s])] == Restored(t, t.vvTried[s]);
    }
    forall i | i in u.mapInfo && u.mapInfo[i].fInTried ensures u.vvTried[TriedSlot(u, u.mapInfo[i].svc)] == i {
      RenamedEntry(t, u, i);
      TriedHome(t, Order(t)[i]);
    }
  }

  lemma RenamedBuckets(t: Tables, u: Tables, i: int)
    requires Structured(t) && Renamed(t, u) && i in u.mapInfo && GridsOk(t) && GridsOk(u)
    ensures 0 <= i < |Order(t)| && Order(t)[i] in t.mapInfo && Buckets(u, i) == Buckets(t, Order(t)[i])
  {
    hide Structured, Order, Rank, HasAddrs;
    RenamedEntry(t, u, i);
    var id := Order(t)[i];
    IdNotFree(t, id);
    forall b | 0 <= b < NEW_BUCKET_COUNT
      ensures u.vvNew[NewSlot(u, b, u.mapInfo[i].svc)] == i <==> t.vvNew[NewSlot(t, b, t.mapInfo[id].svc)] == id
    {
      var s := NewSlot(t, b, t.mapInfo[id].svc);
      if t.vvNew[s] != -1 && Rank(t, t.vvNew[s]) == i {
        RankInjective(t, t.vvNew[s], id);
      }
    }
  }

  lemma RenamedNew(t: Tables, u: Tables)
    requires Structured(t) && Renamed(t, u) && GridsOk(t) && GridsOk(u)
    ensures NewOk(u)
  {
    hide Structured, Order, Rank, HasAddrs, IsGrid, Buckets;
    forall s | s in u.vvNew && u.vvNew[s] != -1
      ensures u.vvNew[s] in u.mapInfo && !u.mapInfo[u.vvNew[s]].fInTried
      ensures s == NewSlot(u, s.0, u.mapInfo[u.vvNew[s]].svc)
    {
      NewFacts(t, s);
      assert u.mapInfo[Rank(t, t.vvNew[s])] == Restored(t, t.vvNew[s]);
    }
    forall i | i in u.mapInfo && !u.mapInfo[i].fInTried ensures u.mapInfo[i].nRefCount == |Buckets(u, i)| {
      RenamedBuckets(t, u, i);
      RenamedEntry(t, u, i);
      BucketsAreCounted(t, Order(t)[i]);
    }
  }

  /** Where entries are numbered from zero, new ones first. */
  lemma SplitCounts(u: Tables, n: nat, m: nat)
    requires n <= m && forall i :: i in u.mapInfo <==> 0 <= i < m
    requires forall i :: i in u.mapInfo ==> (u.mapInfo[i].fInTried <==> i >= n)
    ensures |NewIds(u)| == n && |TriedIds(u)| == m - n
  {
    IntervalSize(NewIds(u), n);
    IntervalSize(u.mapInfo.Keys, m);
    assert TriedIds(u) == u.mapInfo.Keys - NewIds(u);
  }

  lemma RenamedCounts(t: Tables, u: Tables)
    requires Structured(t) && Renamed(t, u)
    ensures CountsOk(u, 0)
  {
    hide Structured, Order, Rank, HasAddrs, RenamedGrid;
    OrderMembers(t);
    OrderLength(t);
    forall i | i in u.mapInfo ensures u.mapInfo[i].fInTried <==> i >= t.nNew {
      RenamedEntry(t, u, i);
    }
    SplitCounts(u, t.nNew, |Order(t)|);
  }

  lemma OrderLength(t: Tables)
    requires Structured(t)
    ensures |Order(t)| == t.nNew + t.nTried && t.nNew >= 0 && t.nTried >= 0
  {
    hide Structured;
    OrderMembers(t);
  }

  /** A manager read back from a written one is consistent, if the written one was. */
  lemma RenamedConsistent(t: Tables, u: Tables)
    requires Structured(t) && Renamed(t, u)
    ensures Structured(u) && (TimesOk(t) ==> TimesOk(u))
  {
    hide Order, Rank, HasAddrs, RenamedGrid, AddrsOk, RandomOk, EntriesOk, TriedOk, NewOk, CountsOk, IdsOk, IsGrid;
    RenamedRandom(t, u);
    RenamedAddrs(t, u);
    RenamedEntries(t, u);
    RenamedGrids(t, u);
    RenamedTried(t, u);
    RenamedNew(t, u);
    RenamedCounts(t, u);
  }
}
