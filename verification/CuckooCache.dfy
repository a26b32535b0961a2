/** The cuckoo cache as the program keeps it: a table and two flag arrays, updated in place. */
module CuckooCache {
  import opened Cuckoo
  import opened Powers

  // ----- bit-packed collection flags -----

  /** Whether bit `k` of a byte is set. */
  predicate BitAt(m: bv8, k: bv8)
    requires k < 8
  {
    (1 << k) & m != 0
  }

  lemma OrBit(m: bv8, j: bv8, k: bv8)
    requires j < 8 && k < 8
    ensures BitAt(m | (1 << j), k) == (k == j || BitAt(m, k))
  {
  }

  lemma AndNotBit(m: bv8, j: bv8, k: bv8)
    requires j < 8 && k < 8
    ensures BitAt(m & !(1 << j), k) == (k != j && BitAt(m, k))
  {
  }

  lemma AllBits(k: bv8)
    requires k < 8
    ensures BitAt(0xFF, k)
  {
  }

  lemma SmallIndices(j: nat, k: nat)
    requires j < 8 && k < 8
    ensures j as bv8 < 8 && (j as bv8 == k as bv8 <==> j == k)
  {
    assert j == 0 || j == 1 || j == 2 || j == 3 || j == 4 || j == 5 || j == 6 || j == 7;
    assert k == 0 || k == 1 || k == 2 || k == 3 || k == 4 || k == 5 || k == 6 || k == 7;
  }

  function Low3(s: nat): (k: bv8)
    ensures k < 8
  {
    SmallIndices(s % 8, 0);
    (s % 8) as bv8
  }

  lemma Low3Differs(s: nat, i: nat)
    requires s / 8 == i / 8
    ensures Low3(s) == Low3(i) <==> s == i
  {
    SmallIndices(s % 8, i % 8);
    assert s == 8 * (s / 8) + s % 8 && i == 8 * (i / 8) + i % 8;
  }

  function WithBit(m: bv8, s: nat): bv8 { m | (1 << Low3(s)) }
  function WithoutBit(m: bv8, s: nat): bv8 { m & !(1 << Low3(s)) }
  predicate HasBit(m: bv8, s: nat) { BitAt(m, Low3(s)) }

  /** Changing the bit of index `s` in its byte changes the bit of no other index in that byte. */
  lemma OneBitChanges(m: bv8, s: nat, i: nat)
    requires s / 8 == i / 8
    ensures HasBit(WithBit(m, s), i) == (i == s || HasBit(m, i))
    ensures HasBit(WithoutBit(m, s), i) == (i != s && HasBit(m, i))
  {
    hide BitAt, Low3;
    Low3Differs(s, i);
    OrBit(m, Low3(s), Low3(i));
    AndNotBit(m, Low3(s), Low3(i));
  }

  /** Eight flags to a byte. */
  class BitPackedFlags {
    var mem: array<bv8>

    /** Every flag starts out set. */
    constructor (size: nat)
      ensures fresh(mem) && 8 * mem.Length >= size
      ensures forall i :: 0 <= i < size ==> BitIsSet(i)
    {
      var bytes := (size + 7) / 8;
      var m := new bv8[bytes];
      for i := 0 to bytes
        invariant forall k :: 0 <= k < i ==> m[k] == 0xFF
      {
        m[i] := 0xFF;
      }
      mem := m;
      new;
      forall i | 0 <= i < size ensures BitIsSet(i) {
        AllBits(Low3(i));
      }
    }

    function BitIsSet(s: nat): bool
      requires s < 8 * mem.Length
      reads this, mem
    {
      HasBit(mem[s / 8], s)
    }

    method BitSet(s: nat)
      requires s < 8 * mem.Length
      modifies mem
      ensures forall i :: 0 <= i < 8 * mem.Length ==> BitIsSet(i) == (i == s || old(BitIsSet(i)))
    {
      hide HasBit, WithBit, WithoutBit;
      mem[s / 8] := WithBit(mem[s / 8], s);
      forall i | 0 <= i < 8 * mem.Length ensures BitIsSet(i) == (i == s || old(BitIsSet(i))) {
        if s / 8 == i / 8 {
          OneBitChanges(old(mem[s / 8]), s, i);
        }
      }
    }

    method BitUnset(s: nat)
      requires s < 8 * mem.Length
      modifies mem
      ensures forall i :: 0 <= i < 8 * mem.Length ==> BitIsSet(i) == (i != s && old(BitIsSet(i)))
    {
      hide HasBit, WithBit, WithoutBit;
      mem[s / 8] := WithoutBit(mem[s / 8], s);
      forall i | 0 <= i < 8 * mem.Length ensures BitIsSet(i) == (i != s && old(BitIsSet(i))) {
        if s / 8 == i / 8 {
          OneBitChanges(old(mem[s / 8]), s, i);
        }
      }
    }
  }

  // ----- the cache -----

  /** The first `n` flags. */
  function Unpacked(mem: seq<bv8>, n: nat): seq<bool>
    requires n <= 8 * |mem|
  {
    seq(n, i requires 0 <= i < n => HasBit(mem[i / 8], i))
  }

  lemma DisplaceStops(h: Hash, c: Cache, e: Element, lastLoc: int, epoch: bool)
    requires Shaped(c)
    ensures Displace(h, c, e, lastLoc, epoch, 0) == (c, Evicted(e))
  {
  }

  lemma DisplaceUnfolds(h: Hash, c: Cache, e: Element, lastLoc: int, epoch: bool, depth: nat)
    requires Shaped(c) && depth > 0
    ensures var locs := Locs(h, |c.table|, e);
            var j := FirstGarbage(c, locs, 0);
            var d := Displace(h, c, e, lastLoc, epoch, depth).0;
            if j < WAYS then
              d == c.(table := c.table[locs[j] := e], garbage := c.garbage[locs[j] := false],
                      recent := c.recent[locs[j] := epoch])
            else
              var loc := NextLoc(locs, lastLoc);
              d == Displace(h, Swapped(c, e, loc, epoch), c.table[loc], loc, c.recent[loc], depth - 1).0
  {
  }

  /** At most the size asked for, unless that is below two, and more than half of it. */
  predicate SizedFor(size: nat, newSize: nat) {
    var wanted := if newSize < 2 then 2 else newSize;
    size <= wanted < 2 * size
  }

  /** Forty-five in a hundred, computed in 32 bits, and at least one. */
  function EpochFor(size: nat): (n: nat)
    ensures n >= 1
  {
    var n := (45 * size) % 0x1_0000_0000 / 100;
    if n < 1 then 1 else n
  }

  /** The logarithm to the base two, rounded down, and its power. */
  method Sizes(newSize: nat) returns (depthLimit: nat, size: nat)
    ensures depthLimit >= 1 && size == Pow(2, depthLimit) && SizedFor(size, newSize)
  {
    var wanted := if newSize < 2 then 2 else newSize;
    depthLimit, size := 1, 2;
    while 2 * size <= wanted
      invariant depthLimit >= 1 && size == Pow(2, depthLimit) && 2 <= size <= wanted
      decreases wanted - size
    {
      depthLimit, size := depthLimit + 1, 2 * size;
    }
  }

  class CCache {
    const table: array<Element>
    const collectionFlags: BitPackedFlags
    const epochFlags: array<bool>
    var epochHeuristicCounter: nat
    const epochSize: nat
    const depthLimit: nat
    const hash: Hash

    ghost predicate Valid()
      reads this, collectionFlags
    {
      && table.Length > 0 && epochFlags.Length == table.Length
      && 8 * collectionFlags.mem.Length >= table.Length
      && epochSize >= 1 && depthLimit >= 1
      && table as object != epochFlags && table as object != collectionFlags.mem
      && epochFlags as object != collectionFlags.mem
    }

    ghost function Garbage(): (g: seq<bool>)
      requires Valid()
      reads this, collectionFlags, collectionFlags.mem
      ensures |g| == table.Length && forall i :: 0 <= i < |g| ==> g[i] == collectionFlags.BitIsSet(i)
    {
      Unpacked(collectionFlags.mem[..], table.Length)
    }

    /** The cache as a value. */
    ghost function Value(): (c: Cache)
      requires Valid()
      reads this, table, collectionFlags, collectionFlags.mem, epochFlags
      ensures Shaped(c)
    {
      Cache(table[..], Garbage(), epochFlags[..], epochHeuristicCounter, epochSize, depthLimit)
    }

    /** Sets up for at most `newSize` elements, rounded down to a power of two. */
    constructor (newSize: nat, hash: Hash)
      ensures Valid() && fresh(table) && fresh(collectionFlags) && fresh(collectionFlags.mem) && fresh(epochFlags)
      ensures table.Length == Pow(2, depthLimit) && SizedFor(table.Length, newSize) && epochSize == EpochFor(table.Length)
      ensures Value() == Fresh(table.Length, epochSize, depthLimit) && this.hash == hash
    {
      var depthLimit, size := Sizes(newSize);
      var epochSize := EpochFor(size);
      table := new Element[size](_ => DEFAULT);
      collectionFlags := new BitPackedFlags(size);
      epochFlags := new bool[size](_ => false);
      epochHeuristicCounter := epochSize;
      this.epochSize, this.depthLimit, this.hash := epochSize, depthLimit, hash;
    }

    method AllowErase(n: nat)
      requires Valid() && n < table.Length
      modifies collectionFlags.mem
      ensures Valid() && Value() == old(Value()).(garbage := old(Garbage())[n := true])
    {
      collectionFlags.BitSet(n);
      assert Garbage() == old(Garbage())[n := true];
    }

    method PleaseKeep(n: nat)
      requires Valid() && n < table.Length
      modifies collectionFlags.mem
      ensures Valid() && Value() == old(Value()).(garbage := old(Garbage())[n := false])
    {
      collectionFlags.BitUnset(n);
      assert Garbage() == old(Garbage())[n := false];
    }

    method CountUnused() returns (n: nat)
      requires Valid()
      ensures n == LiveIn(Value(), true)
    {
      n := 0;
      for i := 0 to table.Length
        invariant n == Live(Garbage(), epochFlags[..], true, i)
      {
        if epochFlags[i] && !collectionFlags.BitIsSet(i) {
          n := n + 1;
        }
      }
    }

    method Age()
      requires Valid()
      modifies this`epochHeuristicCounter, epochFlags, collectionFlags.mem
      ensures Valid() && Value() == Aged(old(Value()))
    {
      for i := 0 to table.Length
        invariant Valid()
        invariant epochHeuristicCounter == old(epochHeuristicCounter)
        invariant forall k :: 0 <= k < table.Length ==>
          epochFlags[k] == if k < i then false else old(epochFlags[k])
        invariant forall k :: 0 <= k < table.Length ==>
          Garbage()[k] == (old(Garbage())[k] || (k < i && !old(epochFlags[k])))
      {
        if epochFlags[i] {
          epochFlags[i] := false;
        } else {
          AllowErase(i);
        }
      }
      epochHeuristicCounter := epochSize;
      assert Garbage() == Aged(old(Value())).garbage && epochFlags[..] == Aged(old(Value())).recent;
    }

    method EpochCheck()
      requires Valid()
      modifies this`epochHeuristicCounter, epochFlags, collectionFlags.mem
      ensures Valid() && Value() == Cuckoo.EpochCheck(old(Value()))
    {
      if epochHeuristicCounter != 0 {
        epochHeuristicCounter := epochHeuristicCounter - 1;
        return;
      }
      var epochUnusedCount := CountUnused();
      if epochUnusedCount >= epochSize {
        Age();
      } else {
        epochHeuristicCounter := Max(1, Max(epochSize / 16, epochSize - epochUnusedCount));
      }
    }

    /** The position that already holds `e`, or eight. */
    method FindElement(locs: seq<nat>, e: Element) returns (j: nat)
      requires Valid() && forall i :: 0 <= i < |locs| ==> locs[i] < table.Length
      ensures j == FirstMatch(Value(), locs, e, 0)
    {
      j := 0;
      while j < |locs| && table[locs[j]] != e
        invariant j <= |locs| && FirstMatch(Value(), locs, e, 0) == FirstMatch(Value(), locs, e, j)
      {
        j := j + 1;
      }
    }

    /** The first position that may be overwritten, or eight. */
    method FindGarbage(locs: seq<nat>) returns (j: nat)
      requires Valid() && forall i :: 0 <= i < |locs| ==> locs[i] < table.Length
      ensures j == FirstGarbage(Value(), locs, 0)
    {
      j := 0;
      while j < |locs| && !collectionFlags.BitIsSet(locs[j])
        invariant j <= |locs| && FirstGarbage(Value(), locs, 0) == FirstGarbage(Value(), locs, j)
      {
        j := j + 1;
      }
    }

    method Insert(e: Element)
      requires Valid()
      modifies this`epochHeuristicCounter, table, epochFlags, collectionFlags.mem
      ensures Valid() && Value() == Cuckoo.Insert(hash, old(Value()), e).0
    {
      hide Displace, FirstMatch, FirstGarbage, Live;
      EpochCheck();
      var locs := Locs(hash, table.Length, e);
      var j := FindElement(locs, e);
      if j < WAYS {
        PleaseKeep(locs[j]);
        epochFlags[locs[j]] := true;
        return;
      }
      Evict(e);
    }

    method Fill(loc: nat, x: Element, epoch: bool)
      requires Valid() && loc < table.Length
      modifies table, epochFlags, collectionFlags.mem
      ensures Valid()
      ensures Value() == old(Value()).(table := old(table[..])[loc := x], garbage := old(Garbage())[loc := false],
                                       recent := old(epochFlags[..])[loc := epoch])
    {
      table[loc] := x;
      PleaseKeep(loc);
      epochFlags[loc] := epoch;
    }

    method Swap(loc: nat, x: Element, epoch: bool) returns (y: Element, yEpoch: bool)
      requires Valid() && loc < table.Length
      modifies table, epochFlags
      ensures Valid() && Value() == Swapped(old(Value()), x, loc, epoch)
      ensures y == old(table[loc]) && yEpoch == old(epochFlags[loc])
    {
      table[loc], y := x, table[loc];
      epochFlags[loc], yEpoch := epoch, epochFlags[loc];
    }

    method Evict(e: Element)
      requires Valid()
      modifies table, epochFlags, collectionFlags.mem
      ensures Valid() && Value() == Displace(hash, old(Value()), e, -1, true, depthLimit).0
    {
      hide Displace, FirstMatch, FirstGarbage, Live, NextLoc, Locs, Swapped;
      var x, lastEpoch := e, true;
      var lastLoc: int := -1;
      ghost var result := Displace(hash, Value(), e, -1, true, depthLimit).0;
      for depth := 0 to depthLimit
        invariant Valid()
        invariant Displace(hash, Value(), x, lastLoc, lastEpoch, depthLimit - depth).0 == result
      {
        var locs := Locs(hash, table.Length, x);
        var j := FindGarbage(locs);
        DisplaceUnfolds(hash, Value(), x, lastLoc, lastEpoch, depthLimit - depth);
        if j < WAYS {
          Fill(locs[j], x, lastEpoch);
          return;
        }
        lastLoc := NextLoc(locs, lastLoc);
        x, lastEpoch := Swap(lastLoc, x, lastEpoch);
      }
      DisplaceStops(hash, Value(), x, lastLoc, lastEpoch);
    }

    method Contains(e: Element, erase: bool) returns (found: bool)
      requires Valid()
      modifies collectionFlags.mem
      ensures Valid() && found == Cuckoo.Contains(hash, old(Value()), e)
      ensures Value() == if erase then Erase(hash, old(Value()), e) else old(Value())
    {
      hide FirstMatch;
      var locs := Locs(hash, table.Length, e);
      var j := FindElement(locs, e);
      if j < WAYS {
        if erase {
          AllowErase(locs[j]);
        }
        return true;
      }
      return false;
    }
  }
}
