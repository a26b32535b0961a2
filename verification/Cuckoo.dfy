/**
 The cuckoo cache of verified signatures: eight hash positions per element, garbage that is
 overwritten lazily, and two epochs of live entries that bound the load.
 */
module Cuckoo {

  /** A cache entry, a 256-bit digest. The table starts out filled with the default entry. */
  type Element = nat
  const DEFAULT: Element := 0
  const WAYS: nat := 8

  /** The eight keyed hash functions: a selector and an element give a 32-bit hash. */
  type Hash = (nat, Element) -> nat

  datatype Cache = Cache(
    table: seq<Element>,
    garbage: seq<bool>,   // the collection flag of each slot
    recent: seq<bool>,    // the epoch flag of each slot
    counter: nat,         // inserts left before the next scan
    epochSize: nat,
    depthLimit: nat)

  predicate Shaped(c: Cache) {
    |c.table| > 0 && |c.garbage| == |c.table| && |c.recent| == |c.table| && c.epochSize >= 1 && c.depthLimit >= 1
  }

  /** A cache just set up: every slot is garbage. */
  function Fresh(size: nat, epochSize: nat, depthLimit: nat): Cache {
    Cache(seq(size, _ => DEFAULT), seq(size, _ => true), seq(size, _ => false), epochSize, epochSize, depthLimit)
  }

  /** The table's size is a power of two, so masking a hash is taking it modulo the size. */
  function Loc(h: Hash, size: nat, e: Element, k: nat): (loc: nat)
    requires size > 0
    ensures loc < size
  {
    h(k, e) % size
  }

  function Locs(h: Hash, size: nat, e: Element): (locs: seq<nat>)
    requires size > 0
    ensures |locs| == WAYS && forall k :: 0 <= k < WAYS ==> locs[k] == Loc(h, size, e, k) && locs[k] < size
  {
    seq(WAYS, k requires 0 <= k < WAYS => Loc(h, size, e, k))
  }

  /** Slot `i` is one of the eight positions of `e`. */
  ghost predicate Home(h: Hash, size: nat, e: Element, i: nat)
    requires size > 0
  {
    exists k :: 0 <= k < WAYS && Loc(h, size, e, k) == i
  }

  // ----- operations -----

  /** The first position that holds `e`, or eight. */
  function FirstMatch(c: Cache, locs: seq<nat>, e: Element, k: nat): (j: nat)
    requires Shaped(c) && k <= |locs| && forall i :: 0 <= i < |locs| ==> locs[i] < |c.table|
    ensures k <= j <= |locs| && (j < |locs| ==> c.table[locs[j]] == e)
    ensures forall i :: k <= i < j ==> c.table[locs[i]] != e
    decreases |locs| - k
  {
    if k == |locs| || c.table[locs[k]] == e then k else FirstMatch(c, locs, e, k + 1)
  }

  /** The first position that may be overwritten, or eight. */
  function FirstGarbage(c: Cache, locs: seq<nat>, k: nat): (j: nat)
    requires Shaped(c) && k <= |locs| && forall i :: 0 <= i < |locs| ==> locs[i] < |c.table|
    ensures k <= j <= |locs| && (j < |locs| ==> c.garbage[locs[j]])
    ensures forall i :: k <= i < j ==> !c.garbage[locs[i]]
    decreases |locs| - k
  {
    if k == |locs| || c.garbage[locs[k]] then k else FirstGarbage(c, locs, k + 1)
  }

  function Find(locs: seq<nat>, loc: int, k: nat): (j: nat)
    requires k <= |locs|
    ensures k <= j <= |locs| && (j < |locs| ==> locs[j] == loc) && forall i :: k <= i < j ==> locs[i] != loc
    decreases |locs| - k
  {
    if k == |locs| || locs[k] == loc then k else Find(locs, loc, k + 1)
  }

  /** The slot after the last one touched, among the positions in hand; the second position when there is none. */
  function NextLoc(locs: seq<nat>, lastLoc: int): (loc: nat)
    requires |locs| == WAYS
    ensures loc in locs
  {
    locs[(1 + Find(locs, lastLoc, 0)) % WAYS]
  }

  /** What an insertion pushes out of the table. */
  datatype Loss = Overwritten(e: Element) | Evicted(e: Element)

  /** Puts `e`, of the given epoch, into the table, displacing live entries as long as `depth` allows. */
  function Displace(h: Hash, c: Cache, e: Element, lastLoc: int, epoch: bool, depth: nat): (r: (Cache, Loss))
    requires Shaped(c)
    ensures Shaped(r.0) && |r.0.table| == |c.table|
    decreases depth
  {
    if depth == 0 then (c, Evicted(e)) else
    var locs := Locs(h, |c.table|, e);
    var j := FirstGarbage(c, locs, 0);
    if j < WAYS then
      (c.(table := c.table[locs[j] := e], garbage := c.garbage[locs[j] := false],
          recent := c.recent[locs[j] := epoch]), Overwritten(c.table[locs[j]]))
    else
      var loc := NextLoc(locs, lastLoc);
      Displace(h, Swapped(c, e, loc, epoch), c.table[loc], loc, c.recent[loc], depth - 1)
  }

  /** The entry and its epoch go into a slot; what was there goes on in their place. */
  function Swapped(c: Cache, e: Element, loc: nat, epoch: bool): (d: Cache)
    requires Shaped(c) && loc < |c.table|
    ensures Shaped(d)
  {
    c.(table := c.table[loc := e], recent := c.recent[loc := epoch])
  }

  /** How many of the first `n` slots are live and of the given epoch. */
  function Live(garbage: seq<bool>, recent: seq<bool>, epoch: bool, n: nat): nat
    requires n <= |garbage| == |recent|
  {
    if n == 0 then 0
    else Live(garbage, recent, epoch, n - 1) + if !garbage[n - 1] && recent[n - 1] == epoch then 1 else 0
  }

  function LiveIn(c: Cache, epoch: bool): nat
    requires Shaped(c)
  {
    Live(c.garbage, c.recent, epoch, |c.table|)
  }

  function Max(a: int, b: int): int { if a < b then b else a }

  /** A new epoch: the old entries become garbage, the recent ones become old. */
  function Aged(c: Cache): (d: Cache)
    requires Shaped(c)
    ensures Shaped(d)
  {
    c.(garbage := seq(|c.table|, i requires 0 <= i < |c.table| => c.garbage[i] || !c.recent[i]),
       recent := seq(|c.table|, _ => false), counter := c.epochSize)
  }

  function EpochCheck(c: Cache): (d: Cache)
    requires Shaped(c)
    ensures Shaped(d)
  {
    if c.counter != 0 then c.(counter := c.counter - 1)
    else if LiveIn(c, true) >= c.epochSize then Aged(c)
    else c.(counter := Max(1, Max(c.epochSize / 16, c.epochSize - LiveIn(c, true))))
  }

  /** Slot `loc` is to be kept, as part of the current epoch. */
  function Kept(c: Cache, loc: nat): Cache
    requires Shaped(c) && loc < |c.table|
  {
    c.(garbage := c.garbage[loc := false], recent := c.recent[loc := true])
  }

  function Insert(h: Hash, c: Cache, e: Element): (r: (Cache, Loss))
    requires Shaped(c)
    ensures Shaped(r.0) && |r.0.table| == |c.table|
  {
    var d := EpochCheck(c);
    var locs := Locs(h, |d.table|, e);
    var j := FirstMatch(d, locs, e, 0);
    if j < WAYS then (Kept(d, locs[j]), Evicted(e))
    else Displace(h, d, e, -1, true, d.depthLimit)
  }

  function Contains(h: Hash, c: Cache, e: Element): bool
    requires Shaped(c)
  {
    FirstMatch(c, Locs(h, |c.table|, e), e, 0) < WAYS
  }

  /** A lookup that gives the entry up for collection. */
  function Erase(h: Hash, c: Cache, e: Element): Cache
    requires Shaped(c)
  {
    var locs := Locs(h, |c.table|, e);
    var j := FirstMatch(c, locs, e, 0);
    if j < WAYS then c.(garbage := c.garbage[locs[j] := true]) else c
  }

  // ----- the positions invariant -----

  /** An entry that is live, or is not the default one, sits at one of its own positions. */
  ghost predicate Homed(h: Hash, c: Cache)
    requires Shaped(c)
  {
    forall i :: 0 <= i < |c.table| && (!c.garbage[i] || c.table[i] != DEFAULT) ==> Home(h, |c.table|, c.table[i], i)
  }

  /** No entry but the default one occupies two slots. */
  predicate Unique(c: Cache) {
    forall i, j :: 0 <= i < j < |c.table| && c.table[i] == c.table[j] ==> c.table[i] == DEFAULT
  }

  /** The most entries an epoch can have live. */
  function Limit(epochSize: nat): nat { epochSize + Max(1, epochSize / 16) }

  predicate Bounded(c: Cache)
    requires Shaped(c)
  {
    LiveIn(c, true) + c.counter <= Limit(c.epochSize) && LiveIn(c, false) <= Limit(c.epochSize)
  }

  ghost predicate Inv(h: Hash, c: Cache) {
    Shaped(c) && Homed(h, c) && Unique(c) && Bounded(c)
  }

  /** Under the invariant, a lookup finds exactly the entries of the table. */
  lemma ContainsExact(h: Hash, c: Cache, e: Element)
    requires Shaped(c) && Homed(h, c)
    ensures Contains(h, c, e) ==> e in c.table
    ensures e != DEFAULT && e in c.table ==> Contains(h, c, e)
    ensures (exists i :: 0 <= i < |c.table| && !c.garbage[i] && c.table[i] == e) ==> Contains(h, c, e)
  {
    var locs := Locs(h, |c.table|, e);
    forall i | 0 <= i < |c.table| && c.table[i] == e && (!c.garbage[i] || e != DEFAULT) ensures Contains(h, c, e) {
      assert Home(h, |c.table|, e, i);
      var k :| 0 <= k < WAYS && Loc(h, |c.table|, e, k) == i;
      assert c.table[locs[k]] == e;
    }
  }

  // ----- one insertion -----

  lemma LocIsHome(h: Hash, size: nat, e: Element, k: nat)
    requires size > 0 && k < WAYS
    ensures Home(h, size, e, Locs(h, size, e)[k])
  {
  }

  lemma MultisetUpdate(s: seq<Element>, i: nat, e: Element)
    requires i < |s|
    ensures multiset(s[i := e]) + multiset{s[i]} == multiset(s) + multiset{e}
  {
    assert s == s[..i] + [s[i]] + s[i + 1..];
    assert s[i := e] == s[..i] + [e] + s[i + 1..];
  }

  /** An insertion loses exactly one item of the table and the new entry together. */
  lemma {:induction false} DisplaceConserves(h: Hash, c: Cache, e: Element, lastLoc: int, epoch: bool, depth: nat)
    requires Shaped(c)
    ensures var (d, loss) := Displace(h, c, e, lastLoc, epoch, depth);
            multiset(d.table) + multiset{loss.e} == multiset(c.table) + multiset{e}
    decreases depth
  {
    hide Loc, Find;
    if depth > 0 {
      var locs := Locs(h, |c.table|, e);
      var j := FirstGarbage(c, locs, 0);
      if j < WAYS {
        MultisetUpdate(c.table, locs[j], e);
      } else {
        var loc := NextLoc(locs, lastLoc);
        MultisetUpdate(c.table, loc, e);
        var c1 := Swapped(c, e, loc, epoch);
        assert c1.table == c.table[loc := e];
        DisplaceConserves(h, c1, c.table[loc], loc, c.recent[loc], depth - 1);
        assert Displace(h, c, e, lastLoc, epoch, depth) == Displace(h, c1, c.table[loc], loc, c.recent[loc], depth - 1);
      }
    }
  }

  /** Writing an entry that is not in the table to one of its own positions. */
  lemma PutKeeps(h: Hash, c: Cache, e: Element, loc: nat, d: Cache)
    requires Shaped(c) && Homed(h, c) && Unique(c) && (e == DEFAULT || e !in c.table)
    requires loc < |c.table| && Home(h, |c.table|, e, loc)
    requires d.table == c.table[loc := e] && d.garbage == c.garbage[loc := false] && Shaped(d)
    ensures Homed(h, d) && Unique(d) && (c.table[loc] == DEFAULT || c.table[loc] !in d.table)
  {
    hide Home, Loc;
    forall i | 0 <= i < |d.table| && (!d.garbage[i] || d.table[i] != DEFAULT) ensures Home(h, |d.table|, d.table[i], i) {
    }
    forall i, j | 0 <= i < j < |d.table| && d.table[i] == d.table[j] ensures d.table[i] == DEFAULT {
      assert i != loc && j != loc ==> c.table[i] == c.table[j];
    }
    forall i | 0 <= i < |d.table| && d.table[i] == c.table[loc] ensures c.table[loc] == DEFAULT {
      assert i != loc ==> c.table[i] == c.table[loc];
    }
  }

  /** Entries stay at their own positions, and stay unique. */
  lemma {:induction false} DisplaceKeeps(h: Hash, c: Cache, e: Element, lastLoc: int, epoch: bool, depth: nat)
    requires Shaped(c) && Homed(h, c) && Unique(c) && (e == DEFAULT || e !in c.table)
    ensures var (d, loss) := Displace(h, c, e, lastLoc, epoch, depth);
            && Shaped(d) && |d.table| == |c.table| && d.counter == c.counter && d.epochSize == c.epochSize
            && Homed(h, d) && Unique(d) && (loss.e == DEFAULT || loss.e !in d.table)
    decreases depth
  {
    hide Homed, Unique, Home, Loc, Find;
    if depth > 0 {
      var locs := Locs(h, |c.table|, e);
      var j := FirstGarbage(c, locs, 0);
      if j < WAYS {
        LocIsHome(h, |c.table|, e, j);
        PutKeeps(h, c, e, locs[j], Displace(h, c, e, lastLoc, epoch, depth).0);
      } else {
        var loc := NextLoc(locs, lastLoc);
        LocIsHome(h, |c.table|, e, (1 + Find(locs, lastLoc, 0)) % WAYS);
        var s := Swapped(c, e, loc, epoch);
        PutKeeps(h, c, e, loc, s);
        DisplaceKeeps(h, s, c.table[loc], loc, c.recent[loc], depth - 1);
      }
    }
  }

  /**
   What is lost, and how the flags change: either one garbage slot is filled and its entry is
   lost, or every slot keeps its state and a live entry, or the new one, is lost.
   */
  lemma {:induction false} DisplaceFlags(h: Hash, c: Cache, e: Element, lastLoc: int, epoch: bool, depth: nat)
    requires Shaped(c)
    ensures var (d, loss) := Displace(h, c, e, lastLoc, epoch, depth);
            match loss
            case Overwritten(x) =>
              (exists i :: 0 <= i < |c.table| && c.garbage[i] && c.table[i] == x && d.garbage == c.garbage[i := false])
            case Evicted(x) =>
              d.garbage == c.garbage && (x == e || (exists i :: 0 <= i < |c.table| && !c.garbage[i] && c.table[i] == x))
    decreases depth
  {
    if depth > 0 {
      var locs := Locs(h, |c.table|, e);
      if FirstGarbage(c, locs, 0) == WAYS {
        var loc := NextLoc(locs, lastLoc);
        var s := Swapped(c, e, loc, epoch);
        DisplaceFlags(h, s, c.table[loc], loc, c.recent[loc], depth - 1);
        FlagsThroughSwap(c, e, loc, epoch, Displace(h, s, c.table[loc], loc, c.recent[loc], depth - 1));
      }
    }
  }

  lemma FlagsThroughSwap(c: Cache, e: Element, loc: nat, epoch: bool, result: (Cache, Loss))
    requires Shaped(c) && loc < |c.table| && !c.garbage[loc]
    requires var s := Swapped(c, e, loc, epoch);
             match result.1
             case Overwritten(x) =>
               (exists i :: 0 <= i < |c.table| && s.garbage[i] && s.table[i] == x && result.0.garbage == s.garbage[i := false])
             case Evicted(x) =>
               result.0.garbage == s.garbage
               && (x == c.table[loc] || (exists i :: 0 <= i < |c.table| && !s.garbage[i] && s.table[i] == x))
    ensures match result.1
            case Overwritten(x) =>
              (exists i :: 0 <= i < |c.table| && c.garbage[i] && c.table[i] == x && result.0.garbage == c.garbage[i := false])
            case Evicted(x) =>
              result.0.garbage == c.garbage
              && (x == e || (exists i :: 0 <= i < |c.table| && !c.garbage[i] && c.table[i] == x))
  {
    var s := Swapped(c, e, loc, epoch);
    match result.1
    case Overwritten(x) =>
      var i :| 0 <= i < |c.table| && s.garbage[i] && s.table[i] == x && result.0.garbage == s.garbage[i := false];
      assert i != loc && c.garbage[i] && c.table[i] == x;
    case Evicted(x) =>
      if x != c.table[loc] && x != e {
        var i :| 0 <= i < |c.table| && !s.garbage[i] && s.table[i] == x;
        assert i != loc && !c.garbage[i] && c.table[i] == x;
      }
  }

  // ----- the load -----

  /** One if a slot with these flags is live and of the epoch. */
  function Mark(garbage: bool, recent: bool, epoch: bool): nat {
    if !garbage && recent == epoch then 1 else 0
  }

  lemma {:induction false} LiveUpdate(garbage: seq<bool>, recent: seq<bool>, epoch: bool, n: nat, i: nat, g: bool, r: bool)
    requires n <= |garbage| == |recent| && i < |garbage|
    ensures Live(garbage[i := g], recent[i := r], epoch, n)
         == Live(garbage, recent, epoch, n)
            + if i < n then Mark(g, r, epoch) - Mark(garbage[i], recent[i], epoch) else 0
  {
    if n > 0 {
      LiveUpdate(garbage, recent, epoch, n - 1, i, g, r);
    }
  }

  /** An insertion adds at most one live entry, to the epoch it inserts into. */
  lemma {:induction false} DisplaceLive(h: Hash, c: Cache, e: Element, lastLoc: int, epoch: bool, depth: nat, ep: bool)
    requires Shaped(c)
    ensures var d := Displace(h, c, e, lastLoc, epoch, depth).0;
            Shaped(d) && LiveIn(d, ep) <= LiveIn(c, ep) + if epoch == ep then 1 else 0
    decreases depth
  {
    hide Live, Loc, Find;
    if depth > 0 {
      var locs := Locs(h, |c.table|, e);
      var j := FirstGarbage(c, locs, 0);
      if j < WAYS {
        LiveUpdate(c.garbage, c.recent, ep, |c.table|, locs[j], false, epoch);
      } else {
        var loc := NextLoc(locs, lastLoc);
        LiveUpdate(c.garbage, c.recent, ep, |c.table|, loc, false, epoch);
        assert c.garbage[loc := false] == c.garbage;
        DisplaceLive(h, Swapped(c, e, loc, epoch), c.table[loc], loc, c.recent[loc], depth - 1, ep);
      }
    }
  }

  lemma {:induction false} LiveAged(c: Cache, n: nat)
    requires Shaped(c) && n <= |c.table|
    ensures Live(Aged(c).garbage, Aged(c).recent, true, n) == 0
    ensures Live(Aged(c).garbage, Aged(c).recent, false, n) == Live(c.garbage, c.recent, true, n)
  {
    if n > 0 {
      LiveAged(c, n - 1);
    }
  }

  /** Every insertion starts with room for one more live entry in the current epoch. */
  lemma EpochCheckBounds(c: Cache)
    requires Shaped(c) && Bounded(c)
    ensures var d := EpochCheck(c);
            LiveIn(d, true) + d.counter + 1 <= Limit(d.epochSize) && LiveIn(d, false) <= Limit(d.epochSize)
  {
    hide Live;
    if c.counter == 0 && LiveIn(c, true) >= c.epochSize {
      LiveAged(c, |c.table|);
    }
  }

  /** The scan moves nothing, and collects only entries of the old epoch, and only when the current one is full. */
  lemma EpochCheckCollects(h: Hash, c: Cache)
    requires Shaped(c)
    ensures var d := EpochCheck(c);
            && d.table == c.table && d.epochSize == c.epochSize && d.depthLimit == c.depthLimit
            && (forall i :: 0 <= i < |c.table| && d.garbage[i] ==>
                  c.garbage[i] || (!c.recent[i] && c.counter == 0 && LiveIn(c, true) >= c.epochSize))
            && (forall i :: 0 <= i < |c.table| && c.garbage[i] ==> d.garbage[i])
            && (Homed(h, c) ==> Homed(h, d)) && (Unique(c) ==> Unique(d))
  {
    hide Live, Home;
  }

  /** Erasing marks one slot and moves nothing, so the load only drops and lookups still find the entry. */
  lemma EraseKeeps(h: Hash, c: Cache, e: Element, x: Element)
    requires Inv(h, c)
    ensures Inv(h, Erase(h, c, e))
    ensures Contains(h, Erase(h, c, e), x) == Contains(h, c, x)
    ensures Contains(h, c, e) ==> exists i :: 0 <= i < |c.table| && c.table[i] == e && Erase(h, c, e).garbage == c.garbage[i := true]
  {
    hide Live, Home, Loc;
    var locs := Locs(h, |c.table|, e);
    var j := FirstMatch(c, locs, e, 0);
    var d := Erase(h, c, e);
    if j < WAYS {
      assert c.recent[locs[j] := c.recent[locs[j]]] == c.recent;
      LiveUpdate(c.garbage, c.recent, true, |c.table|, locs[j], true, c.recent[locs[j]]);
      LiveUpdate(c.garbage, c.recent, false, |c.table|, locs[j], true, c.recent[locs[j]]);
    }
    SameMatch(c, d, Locs(h, |c.table|, x), x, 0);
  }

  lemma {:induction false} SameMatch(c: Cache, d: Cache, locs: seq<nat>, e: Element, k: nat)
    requires Shaped(c) && Shaped(d) && c.table == d.table
    requires k <= |locs| && forall i :: 0 <= i < |locs| ==> locs[i] < |c.table|
    ensures FirstMatch(c, locs, e, k) == FirstMatch(d, locs, e, k)
    decreases |locs| - k
  {
    if k < |locs| {
      SameMatch(c, d, locs, e, k + 1);
    }
  }

  /** Keeping an entry that is already there. */
  lemma KeptKeeps(h: Hash, c: Cache, e: Element, k: nat)
    requires Shaped(c) && Homed(h, c) && Unique(c) && k < WAYS && c.table[Locs(h, |c.table|, e)[k]] == e
    requires LiveIn(c, true) + c.counter + 1 <= Limit(c.epochSize) && LiveIn(c, false) <= Limit(c.epochSize)
    ensures Inv(h, Kept(c, Locs(h, |c.table|, e)[k]))
  {
    hide Live, Loc;
    var loc := Locs(h, |c.table|, e)[k];
    LocIsHome(h, |c.table|, e, k);
    LiveUpdate(c.garbage, c.recent, true, |c.table|, loc, false, true);
    LiveUpdate(c.garbage, c.recent, false, |c.table|, loc, false, true);
  }

  /** Insertion keeps every entry at its own positions, unique, and within the load bound. */
  lemma InsertKeeps(h: Hash, c: Cache, e: Element)
    requires Inv(h, c)
    ensures var d := Insert(h, c, e).0; Inv(h, d) && |d.table| == |c.table| && d.epochSize == c.epochSize
  {
    hide LiveIn, Homed, Unique, Displace, EpochCheck, Limit;
    EpochCheckBounds(c);
    EpochCheckCollects(h, c);
    var d := EpochCheck(c);
    var j := FirstMatch(d, Locs(h, |d.table|, e), e, 0);
    if j < WAYS {
      KeptKeeps(h, d, e, j);
    } else {
      AbsentIfUnfound(h, d, e);
      DisplaceKeeps(h, d, e, -1, true, d.depthLimit);
      DisplaceLive(h, d, e, -1, true, d.depthLimit, true);
      DisplaceLive(h, d, e, -1, true, d.depthLimit, false);
    }
  }

  lemma AbsentIfUnfound(h: Hash, c: Cache, e: Element)
    requires Shaped(c) && Homed(h, c) && !Contains(h, c, e)
    ensures e == DEFAULT || e !in c.table
  {
    ContainsExact(h, c, e);
  }

  /** Insertion conserves contents: nothing changes if the entry is there, and otherwise one item is lost. */
  lemma InsertConserves(h: Hash, c: Cache, e: Element)
    requires Shaped(c)
    ensures var (d, loss) := Insert(h, c, e);
            if Contains(h, c, e) then d.table == c.table && Contains(h, d, e)
            else multiset(d.table) + multiset{loss.e} == multiset(c.table) + multiset{e}
  {
    hide Displace, Live, Loc;
    EpochCheckCollects(h, c);
    var d := EpochCheck(c);
    var locs := Locs(h, |c.table|, e);
    SameMatch(c, d, locs, e, 0);
    if Contains(h, c, e) {
      SameMatch(c, Insert(h, c, e).0, locs, e, 0);
    } else {
      DisplaceConserves(h, d, e, -1, true, d.depthLimit);
    }
  }

  /** What the one lost item was: the contents of a slot that could be collected, a live entry, or the new entry. */
  lemma InsertLoses(h: Hash, c: Cache, e: Element)
    requires Shaped(c) && !Contains(h, c, e)
    ensures var (d, loss) := Insert(h, c, e);
            var checked := EpochCheck(c);
            match loss
            case Overwritten(x) =>
              (exists i :: 0 <= i < |c.table| && checked.garbage[i] && c.table[i] == x && d.garbage == checked.garbage[i := false])
            case Evicted(x) =>
              d.garbage == checked.garbage
              && (x == e || (exists i :: 0 <= i < |c.table| && !checked.garbage[i] && c.table[i] == x))
  {
    hide Displace, Live, Loc;
    EpochCheckCollects(h, c);
    var d := EpochCheck(c);
    SameMatch(c, d, Locs(h, |c.table|, e), e, 0);
    DisplaceFlags(h, d, e, -1, true, d.depthLimit);
  }

  /** The promise to callers: at most one entry stops being found, and the new one is found unless it is that one. */
  lemma InsertFinds(h: Hash, c: Cache, e: Element, x: Element)
    requires Inv(h, c) && x != DEFAULT
    ensures var (d, loss) := Insert(h, c, e);
            Contains(h, d, x) <==> (Contains(h, c, x) || x == e) && (x == loss.e ==> Contains(h, c, e))
  {
    hide Insert, Displace, Homed, Unique, Bounded, Contains;
    InsertKeeps(h, c, e);
    InsertConserves(h, c, e);
    var (d, loss) := Insert(h, c, e);
    ContainsExact(h, c, x);
    ContainsExact(h, d, x);
    if !Contains(h, c, e) {
      UniqueOnce(c, x);
      UniqueOnce(d, x);
      ContainsExact(h, c, e);
      Counts(multiset(c.table), multiset(d.table), e, loss.e, x);
    }
  }

  lemma Counts(before: multiset<Element>, after: multiset<Element>, e: Element, lost: Element, x: Element)
    requires after + multiset{lost} == before + multiset{e}
    ensures after[x] + (if lost == x then 1 else 0) == before[x] + (if e == x then 1 else 0)
  {
    assert (after + multiset{lost})[x] == (before + multiset{e})[x];
  }

  lemma UniqueOnce(c: Cache, x: Element)
    requires Unique(c) && x != DEFAULT
    ensures multiset(c.table)[x] == if x in c.table then 1 else 0
  {
    if x in c.table {
      var i :| 0 <= i < |c.table| && c.table[i] == x;
      assert c.table == c.table[..i] + [x] + c.table[i + 1..];
      assert x !in c.table[..i] && x !in c.table[i + 1..];
    }
  }

  // ----- whole runs -----

  datatype Op = Put(e: Element) | Lookup(e: Element, erase: bool)

  function Step(h: Hash, c: Cache, op: Op): Cache
    requires Shaped(c)
  {
    match op
    case Put(e) => Insert(h, c, e).0
    case Lookup(e, erase) => if erase then Erase(h, c, e) else c
  }

  lemma StepKeeps(h: Hash, c: Cache, op: Op)
    requires Inv(h, c)
    ensures Inv(h, Step(h, c, op)) && Step(h, c, op).epochSize == c.epochSize
    ensures forall e :: e in Step(h, c, op).table ==> e in c.table || op == Put(e)
  {
    hide Insert, Homed, Unique, Bounded, Contains, FirstMatch;
    match op
    case Put(e) =>
      InsertKeeps(h, c, e);
      InsertConserves(h, c, e);
      var (d, loss) := Insert(h, c, e);
      forall x | x in d.table ensures x in c.table || x == e {
        assert x in multiset(d.table);
        if !Contains(h, c, e) {
          Counts(multiset(c.table), multiset(d.table), e, loss.e, x);
        }
      }
    case Lookup(e, erase) =>
      EraseKeeps(h, c, e, e);
  }

  ghost function Run(h: Hash, c: Cache, ops: seq<Op>): (d: Cache)
    requires Inv(h, c)
    ensures Inv(h, d) && d.epochSize == c.epochSize
  {
    if ops == [] then c else
    var d := Run(h, c, ops[..|ops| - 1]);
    StepKeeps(h, d, ops[|ops| - 1]);
    Step(h, d, ops[|ops| - 1])
  }

  lemma {:induction false} NothingLive(c: Cache, epoch: bool, n: nat)
    requires Shaped(c) && n <= |c.table| && forall i :: 0 <= i < |c.table| ==> c.garbage[i]
    ensures Live(c.garbage, c.recent, epoch, n) == 0
  {
    if n > 0 {
      NothingLive(c, epoch, n - 1);
    }
  }

  lemma FreshInv(h: Hash, size: nat, epochSize: nat, depthLimit: nat)
    requires size > 0 && epochSize >= 1 && depthLimit >= 1
    ensures Inv(h, Fresh(size, epochSize, depthLimit))
  {
    hide Live, Home;
    var c := Fresh(size, epochSize, depthLimit);
    NothingLive(c, true, size);
    NothingLive(c, false, size);
  }

  /** The number of live slots. */
  function Occupied(garbage: seq<bool>, n: nat): nat
    requires n <= |garbage|
  {
    if n == 0 then 0 else Occupied(garbage, n - 1) + if garbage[n - 1] then 0 else 1
  }

  lemma {:induction false} OccupiedSplits(c: Cache, n: nat)
    requires Shaped(c) && n <= |c.table|
    ensures Occupied(c.garbage, n) == Live(c.garbage, c.recent, true, n) + Live(c.garbage, c.recent, false, n)
  {
    if n > 0 {
      OccupiedSplits(c, n - 1);
    }
  }

  /** In every reachable state the load is bounded, whatever the mix of inserts, lookups and erasures. */
  lemma LoadBounded(h: Hash, size: nat, epochSize: nat, depthLimit: nat, ops: seq<Op>)
    requires size > 0 && epochSize >= 1 && depthLimit >= 1
    ensures Inv(h, Fresh(size, epochSize, depthLimit))
    ensures var c := Run(h, Fresh(size, epochSize, depthLimit), ops);
            && LiveIn(c, true) <= Limit(epochSize)
            && Occupied(c.garbage, |c.table|) <= 2 * Limit(epochSize)
  {
    hide Live, Homed, Unique, Run;
    FreshInv(h, size, epochSize, depthLimit);
    var c := Run(h, Fresh(size, epochSize, depthLimit), ops);
    OccupiedSplits(c, |c.table|);
  }

  /** A lookup never finds an entry that was never inserted, the default entry aside. */
  lemma {:induction false} NothingInvented(h: Hash, c: Cache, ops: seq<Op>, e: Element)
    requires Inv(h, c) && e !in c.table && Contains(h, Run(h, c, ops), e)
    ensures Put(e) in ops
  {
    hide Step, Inv, Contains, Homed;
    var d := Run(h, c, ops);
    assert Shaped(d) && Homed(h, d) by { InvParts(h, d); }
    ContainsExact(h, d, e);
    InTableWasPut(h, c, ops, e);
  }

  lemma InvParts(h: Hash, c: Cache)
    requires Inv(h, c)
    ensures Shaped(c) && Homed(h, c)
  {
  }

  lemma {:induction false} InTableWasPut(h: Hash, c: Cache, ops: seq<Op>, e: Element)
    requires Inv(h, c) && e !in c.table && e in Run(h, c, ops).table
    ensures Put(e) in ops
  {
    hide Step, Homed, Unique, Bounded;
    if ops != [] {
      var front, last := ops[..|ops| - 1], ops[|ops| - 1];
      var d := Run(h, c, front);
      StepKeeps(h, d, last);
      if last != Put(e) {
        InTableWasPut(h, c, front, e);
      }
    }
  }

  /** The default entry is found in a table that nothing was ever put into. */
  lemma DefaultFoundInFresh(h: Hash, size: nat, epochSize: nat, depthLimit: nat)
    requires size > 0 && epochSize >= 1 && depthLimit >= 1
    ensures Contains(h, Fresh(size, epochSize, depthLimit), DEFAULT)
  {
    var c := Fresh(size, epochSize, depthLimit);
    assert c.table[Locs(h, size, DEFAULT)[0]] == DEFAULT;
  }
}
