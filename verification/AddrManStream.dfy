/**
 The address manager's on-disk form: a stream of typed tokens, written from the tables and read
 back into a freshly constructed manager.
 */
module AddrManStream {
  import opened AddrManTables
  import Ops = AddrManOps

  /** What a written entry keeps; the rest of an entry is memory only. */
  datatype DiskInfo = DiskInfo(
    svc: Service, nServices: ServiceFlags, nTime: nat, source: NetAddr, nLastSuccess: int, nAttempts: int)

  datatype Token = Byte(b: nat) | Key(k: nat) | Int(n: int) | Info(info: DiskInfo)

  function ToDisk(info: AddrInfo): DiskInfo {
    DiskInfo(info.svc, info.nServices, info.nTime, info.source, info.nLastSuccess, info.nAttempts)
  }

  function FromDisk(d: DiskInfo, inTried: bool, pos: int): AddrInfo {
    AddrInfo(d.svc, d.nServices, d.nTime, d.source, 0, 0, d.nLastSuccess, d.nAttempts, 0, inTried, pos)
  }

  const BIT30 := 0x4000_0000

  /** `n ^ (1 << 30)` on a two's complement integer. */
  function FlipBit30(n: int): int {
    if (n / BIT30) % 2 == 1 then n - BIT30 else n + BIT30
  }

  // ----- writing -----

  predicate IsLeast(s: set<int>, m: int) {
    m in s && forall x :: x in s ==> m <= x
  }

  function MinOf(s: set<int>): (m: int)
    requires s != {}
    ensures IsLeast(s, m)
  {
    MinExists(s);
    var m :| IsLeast(s, m);
    m
  }

  lemma {:induction false} MinExists(s: set<int>)
    requires s != {}
    ensures exists m :: IsLeast(s, m)
    decreases |s|
  {
    assert (forall x :: x !in s) ==> s == {};
    var y :| y in s;
    var others := s - {y};
    assert forall x :: x in s ==> x == y || x in others;
    if others == {} {
      assert IsLeast(s, y);
    } else {
      MinExists(others);
      var m :| IsLeast(others, m);
      assert IsLeast(s, if y < m then y else m);
    }
  }

  /** The elements in ascending order: the order in which the program walks its map. */
  function Ascending(s: set<int>): (r: seq<int>)
    ensures |r| == |s| && (forall x :: x in r <==> x in s)
    ensures Ops.Distinct(r)
    decreases |s|
  {
    if s == {} then [] else
    var m := MinOf(s);
    var rest := Ascending(s - {m});
    [m] + rest
  }

  ghost predicate Known(t: Tables, ids: seq<int>) {
    forall i :: 0 <= i < |ids| ==> ids[i] in t.mapInfo
  }

  /** The ids of `ids` that are in the new table. */
  function NewOf(t: Tables, ids: seq<int>): (r: seq<int>)
    requires Known(t, ids)
    ensures Known(t, r)
  {
    if ids == [] then [] else
    var last := ids[|ids| - 1];
    NewOf(t, ids[..|ids| - 1]) + if t.mapInfo[last].nRefCount != 0 then [last] else []
  }

  function TriedOf(t: Tables, ids: seq<int>): (r: seq<int>)
    requires Known(t, ids)
    ensures Known(t, r)
  {
    if ids == [] then [] else
    var last := ids[|ids| - 1];
    TriedOf(t, ids[..|ids| - 1]) + if t.mapInfo[last].fInTried then [last] else []
  }

  /** Each id's position among the new entries written so far when the walk reaches it. */
  function Ranks(t: Tables, ids: seq<int>): map<int, int>
    requires Known(t, ids)
  {
    if ids == [] then map[] else
    Ranks(t, ids[..|ids| - 1])[ids[|ids| - 1] := |NewOf(t, ids[..|ids| - 1])|]
  }

  function Infos(t: Tables, ids: seq<int>): seq<Token>
    requires Known(t, ids)
  {
    seq(|ids|, i requires 0 <= i < |ids| => Info(ToDisk(t.mapInfo[ids[i]])))
  }

  /** The occupants of a new bucket from position `p` on. */
  function Occupants(t: Tables, b: int, p: nat): seq<int>
    requires GridsOk(t) && 0 <= b < NEW_BUCKET_COUNT && p <= BUCKET_SIZE
    decreases BUCKET_SIZE - p
  {
    if p == BUCKET_SIZE then [] else
    (if t.vvNew[(b, p)] != -1 then [t.vvNew[(b, p)]] else []) + Occupants(t, b, p + 1)
  }

  function Indexes(ranks: map<int, int>, ids: seq<int>): seq<Token> {
    if ids == [] then [] else [Int(if ids[0] in ranks then ranks[ids[0]] else 0)] + Indexes(ranks, ids[1..])
  }

  /** The buckets from `b` on, each as its size and its entries' ranks. */
  function BucketTokens(t: Tables, ranks: map<int, int>, b: nat): seq<Token>
    requires GridsOk(t) && b <= NEW_BUCKET_COUNT
    decreases NEW_BUCKET_COUNT - b
  {
    if b == NEW_BUCKET_COUNT then [] else
    var occupants := Occupants(t, b, 0);
    [Int(|occupants|)] + Indexes(ranks, occupants) + BucketTokens(t, ranks, b + 1)
  }

  function Header(t: Tables): seq<Token> {
    [Byte(1), Byte(32), Key(t.nKey), Int(t.nNew), Int(t.nTried), Int(FlipBit30(NEW_BUCKET_COUNT))]
  }

  function Serialized(t: Tables): seq<Token>
    requires GridsOk(t)
  {
    var ids := Ascending(t.mapInfo.Keys);
    assert forall i :: 0 <= i < |ids| ==> ids[i] in t.mapInfo.Keys;
    Header(t) + Infos(t, NewOf(t, ids)) + Infos(t, TriedOf(t, ids)) +
    BucketTokens(t, Ranks(t, ids), 0)
  }

  // ----- reading -----

  datatype Read<+T> = Corrupt | Got(value: T, rest: seq<Token>)

  function ReadInt(s: seq<Token>): Read<int> {
    if s != [] && s[0].Int? then Got(s[0].n, s[1..]) else Corrupt
  }

  function ReadInfo(s: seq<Token>): Read<DiskInfo> {
    if s != [] && s[0].Info? then Got(s[0].info, s[1..]) else Corrupt
  }

  /** While reading: the tables are whole, and ids from `next` on are unused. */
  ghost predicate Loadable(t: Tables, next: int) {
    GridsOk(t) && RandomOk(t) && forall id :: id in t.mapInfo ==> id < next
  }

  /** Entry `id` appended to all indexes of entries. */
  function Append(t: Tables, id: int, d: DiskInfo, inTried: bool): Tables {
    t.(mapInfo := t.mapInfo[id := FromDisk(d, inTried, |t.vRandom|)], mapAddr := t.mapAddr[d.svc.net := id],
       vRandom := t.vRandom + [id])
  }

  lemma AppendLoadable(t: Tables, id: int, d: DiskInfo, inTried: bool)
    requires Loadable(t, id)
    ensures Loadable(Append(t, id, d, inTried), id + 1)
  {
    hide IsGrid;
    var u := Append(t, id, d, inTried);
    forall x | x in t.mapInfo ensures u.mapInfo[x] == t.mapInfo[x] && x != id {}
    forall i | 0 <= i < |t.vRandom| ensures u.vRandom[i] == t.vRandom[i] {}
  }

  lemma TakeSlotLoadable(t: Tables, id: int, s: (int, int), next: int)
    requires Loadable(t, next) && id in t.mapInfo && s in t.vvNew
    ensures Loadable(TakeSlot(t, id, s), next)
  {
    var u := TakeSlot(t, id, s);
    forall x | x in u.mapInfo ensures x in t.mapInfo && u.mapInfo[x].nRandomPos == t.mapInfo[x].nRandomPos {}
  }

  /** An entry of the new table; without usable bucket data it gets its home slot if that is free. */
  function LoadNew(t: Tables, n: int, d: DiskInfo, usable: bool): (u: Tables)
    requires Loadable(t, n)
    ensures Loadable(u, n + 1)
  {
    var t1 := Append(t, n, d, false);
    var home := NewSlot(t, NewBucket(t, d.svc, d.source), d.svc);
    AppendLoadable(t, n, d, false);
    if !usable && t1.vvNew[home] == -1 then
      TakeSlotLoadable(t1, n, home, n + 1);
      TakeSlot(t1, n, home)
    else t1
  }

  function LoadTried(t: Tables, d: DiskInfo): (u: Tables)
    requires Loadable(t, t.nIdCount)
    ensures Loadable(u, u.nIdCount)
  {
    var id := t.nIdCount;
    AppendLoadable(t, id, d, true);
    var t1 := Append(t, id, d, true);
    t1.(vvTried := t1.vvTried[TriedSlot(t, d.svc) := id], nIdCount := id + 1)
  }

  function ReadNews(t: Tables, n: nat, nNew: int, usable: bool, s: seq<Token>): (r: Read<Tables>)
    requires Loadable(t, n) && n <= Ops.Max(0, nNew)
    ensures r.Got? ==> Loadable(r.value, Ops.Max(0, nNew)) && (nNew <= 0 ==> r.value == t)
    decreases nNew - n
  {
    if n >= nNew then Got(t, s) else
    match ReadInfo(s)
    case Corrupt => Corrupt
    case Got(d, rest) => ReadNews(LoadNew(t, n, d, usable), n + 1, nNew, usable, rest)
  }

  /** Reads the tried entries; one whose slot is taken is dropped and counted as lost. */
  function ReadTrieds(t: Tables, n: nat, nTried: int, nLost: nat, s: seq<Token>): (r: Read<(Tables, nat)>)
    requires Loadable(t, t.nIdCount)
    ensures r.Got? ==> Loadable(r.value.0, r.value.0.nIdCount)
    decreases nTried - n
  {
    if n >= nTried then Got((t, nLost), s) else
    match ReadInfo(s)
    case Corrupt => Corrupt
    case Got(d, rest) =>
      if t.vvTried[TriedSlot(t, d.svc)] == -1
      then ReadTrieds(LoadTried(t, d), n + 1, nTried, nLost, rest)
      else ReadTrieds(t, n + 1, nTried, nLost + 1, rest)
  }

  /** The entry written as number `nIndex` is in bucket `b`. */
  function LoadIndex(t: Tables, b: nat, nIndex: int, usable: bool): (u: Tables)
    requires Loadable(t, t.nIdCount)
    ensures Loadable(u, u.nIdCount)
  {
    if 0 <= nIndex < t.nNew && nIndex in t.mapInfo && usable && b < NEW_BUCKET_COUNT then
      var s := NewSlot(t, b, t.mapInfo[nIndex].svc);
      if t.vvNew[s] == -1 && t.mapInfo[nIndex].nRefCount < NEW_BUCKETS_PER_ADDRESS then
        TakeSlotLoadable(t, nIndex, s, t.nIdCount);
        TakeSlot(t, nIndex, s)
      else t
    else t
  }

  function ReadIndexes(t: Tables, b: nat, count: int, usable: bool, s: seq<Token>): (r: Read<Tables>)
    requires Loadable(t, t.nIdCount)
    ensures r.Got? ==> Loadable(r.value, r.value.nIdCount)
    decreases count
  {
    if count <= 0 then Got(t, s) else
    match ReadInt(s)
    case Corrupt => Corrupt
    case Got(nIndex, rest) => ReadIndexes(LoadIndex(t, b, nIndex, usable), b, count - 1, usable, rest)
  }

  function ReadBuckets(t: Tables, b: nat, nUBuckets: int, usable: bool, s: seq<Token>): (r: Read<Tables>)
    requires Loadable(t, t.nIdCount)
    ensures r.Got? ==> Loadable(r.value, r.value.nIdCount)
    decreases nUBuckets - b
  {
    if b >= nUBuckets then Got(t, s) else
    match ReadInt(s)
    case Corrupt => Corrupt
    case Got(nSize, rest) =>
      match ReadIndexes(t, b, nSize, usable, rest)
      case Corrupt => Corrupt
      case Got(t1, rest1) => ReadBuckets(t1, b + 1, nUBuckets, usable, rest1)
  }

  lemma DeleteRandomOk(t: Tables, id: int)
    requires RandomOk(t) && id in t.mapInfo
    ensures RandomOk(Delete(t, id))
  {
    hide SwapRandom, RandomOk, SameTables;
    var pos, last := t.mapInfo[id].nRandomPos, |t.vRandom| - 1;
    SwapToEnd(t, id);
    SwapRandomOk(t, pos, last);
    var t1 := SwapRandom(t, pos, last);
    SwapSameTables(t, pos, last);
    SameEntry(t, t1, id);
    DropLastRandom(t1, id);
    assert Delete(t, id) == DropLast(t1, id);
  }

  /** Deletes the entries among `ids` that ended in no table, counting them. */
  function Prune(t: Tables, ids: seq<int>, nLostUnk: nat): (Tables, nat)
    requires RandomOk(t)
    decreases |ids|
  {
    if ids == [] then (t, nLostUnk)
    else if ids[0] in t.mapInfo && !t.mapInfo[ids[0]].fInTried && t.mapInfo[ids[0]].nRefCount == 0 then
      DeleteRandomOk(t, ids[0]);
      Prune(Delete(t, ids[0]), ids[1..], nLostUnk + 1)
    else Prune(t, ids[1..], nLostUnk)
  }

  /** A fresh manager with the counts from a stream's header. */
  function Blank(env: Env, nKey: nat, nNew: int, nTried: int): (t: Tables)
    ensures t.mapInfo == map[] && (forall next :: Loadable(t, next))
  {
    Ops.EmptyGridOk(TRIED_BUCKET_COUNT);
    Ops.EmptyGridOk(NEW_BUCKET_COUNT);
    Ops.Fresh(env, nKey).(nNew := nNew, nTried := nTried)
  }

  lemma LoadableRecount(t: Tables, u: Tables, next: int)
    requires Loadable(t, next) && u == t.(nIdCount := u.nIdCount, nNew := u.nNew, nTried := u.nTried)
    ensures Loadable(u, next)
  {
  }

  datatype Loaded = Failed | Loaded(t: Tables, nLost: nat, nLostUnk: nat)

  /** The entries and the bucket table, after the header. */
  function ReadBody(t0: Tables, nNew: int, nTried: int, nUBuckets: int, usable: bool, s: seq<Token>): Read<(Tables, nat)>
    requires forall next :: Loadable(t0, next)
    ensures var r := ReadBody(t0, nNew, nTried, nUBuckets, usable, s); r.Got? ==> RandomOk(r.value.0)
  {
    hide GridsOk, RandomOk;
    match ReadNews(t0, 0, nNew, usable, s)
    case Corrupt => Corrupt
    case Got(t1, rest1) =>
      LoadableRecount(t1, t1.(nIdCount := nNew), nNew);
      match ReadTrieds(t1.(nIdCount := nNew), 0, nTried, 0, rest1)
      case Corrupt => Corrupt
      case Got((t2, nLost), rest2) =>
        LoadableRecount(t2, t2.(nTried := nTried - nLost), t2.nIdCount);
        match ReadBuckets(t2.(nTried := nTried - nLost), 0, nUBuckets, usable, rest2)
        case Corrupt => Corrupt
        case Got(t3, rest3) => Got((t3, nLost), rest3)
  }

  /** Reads a stream into a freshly constructed manager. */
  function Unserialize(env: Env, s: seq<Token>): Loaded {
    if !(|s| >= 6 && s[0].Byte? && s[1].Byte? && s[2].Key? && s[3].Int? && s[4].Int? && s[5].Int?) then Failed
    else
      var nVersion, nNew, nTried := s[0].b, s[3].n, s[4].n;
      var nUBuckets := if nVersion != 0 then FlipBit30(s[5].n) else s[5].n;
      var usable := nVersion == 1 && nUBuckets == NEW_BUCKET_COUNT;
      if s[1].b != 32 then Failed
      else if nNew > NEW_BUCKET_COUNT * BUCKET_SIZE || nTried > TRIED_BUCKET_COUNT * BUCKET_SIZE then Failed
      else
        match ReadBody(Blank(env, s[2].k, nNew, nTried), nNew, nTried, nUBuckets, usable, s[6..])
        case Corrupt => Failed
        case Got((t1, nLost), _) =>
          var (t2, nLostUnk) := Prune(t1, Ascending(t1.mapInfo.Keys), 0);
          Loaded(t2, nLost, nLostUnk)
  }

  /** The first token of a stream is an entry. */
  predicate StartsWithInfo(s: seq<Token>) { s != [] && s[0].Info? }

  /**
   A stream that fails to be read before any entry is touched: its header is cut short, has a
   wrong key size or exceeds a limit, or it announces no new entry and gives no tried one.
   */
  predicate TouchesNothing(s: seq<Token>) {
    || !(|s| >= 6 && s[0].Byte? && s[1].Byte? && s[2].Key? && s[3].Int? && s[4].Int? && s[5].Int?)
    || s[1].b != 32
    || s[3].n > NEW_BUCKET_COUNT * BUCKET_SIZE || s[4].n > TRIED_BUCKET_COUNT * BUCKET_SIZE
    || (s[3].n <= 0 && (s[4].n <= 0 || !StartsWithInfo(s[6..])))
  }
}
