/** The rolling bloom filter as it is stored: the two bits of a cell in two 64-bit words side by side. */
module RollingBloomFilter {
  import opened Powers
  import opened RollingBloom

  // ----- 64-bit words -----

  const WORD_BITS: nat := 64
  type uint64 = x: nat | x < 0x1_0000_0000_0000_0000

  /** Bit `k` of a number. */
  predicate Bit(x: nat, k: nat) {
    if k == 0 then x % 2 == 1 else Bit(x / 2, k - 1)
  }

  /** A bitwise operation on the low `n` bits. */
  function Bitwise(f: (bool, bool) -> bool, a: nat, b: nat, n: nat): (r: nat)
    ensures r < Pow(2, n)
  {
    if n == 0 then 0
    else (if f(a % 2 == 1, b % 2 == 1) then 1 else 0) + 2 * Bitwise(f, a / 2, b / 2, n - 1)
  }

  lemma {:induction false} BitwiseBit(f: (bool, bool) -> bool, a: nat, b: nat, n: nat, k: nat)
    requires k < n
    ensures Bit(Bitwise(f, a, b, n), k) == f(Bit(a, k), Bit(b, k))
  {
    if k > 0 {
      BitwiseBit(f, a / 2, b / 2, n - 1, k - 1);
    }
  }

  lemma WordPower()
    ensures Pow(2, WORD_BITS) == 0x1_0000_0000_0000_0000
  {
    PowWord();
    PowAdd(2, 32, 32);
  }

  function And(a: uint64, b: uint64): uint64 {
    WordPower();
    Bitwise((x, y) => x && y, a, b, WORD_BITS)
  }

  function Or(a: uint64, b: uint64): uint64 {
    WordPower();
    Bitwise((x, y) => x || y, a, b, WORD_BITS)
  }

  function Xor(a: uint64, b: uint64): uint64 {
    WordPower();
    Bitwise((x, y) => x != y, a, b, WORD_BITS)
  }

  function Not(a: uint64): uint64 {
    WordPower();
    Bitwise((x, _) => !x, a, 0, WORD_BITS)
  }

  lemma WordOps(a: uint64, b: uint64, k: nat)
    requires k < WORD_BITS
    ensures Bit(And(a, b), k) == (Bit(a, k) && Bit(b, k))
    ensures Bit(Or(a, b), k) == (Bit(a, k) || Bit(b, k))
    ensures Bit(Xor(a, b), k) == (Bit(a, k) != Bit(b, k))
    ensures Bit(Not(a), k) == !Bit(a, k)
  {
    BitwiseBit((x, y) => x && y, a, b, WORD_BITS, k);
    BitwiseBit((x, y) => x || y, a, b, WORD_BITS, k);
    BitwiseBit((x, y) => x != y, a, b, WORD_BITS, k);
    BitwiseBit((x, _) => !x, a, 0, WORD_BITS, k);
  }

  /** Zero or one, moved to bit `k`. */
  function Moved(v: nat, k: nat): (r: uint64)
    requires v <= 1 && k < WORD_BITS
  {
    WordPower();
    PowMonotone(2, k, 63);
    assert Pow(2, 64) == 2 * Pow(2, 63);
    v * Pow(2, k)
  }

  lemma {:induction false} MovedBit(v: nat, j: nat, k: nat)
    requires v <= 1
    ensures Bit(v * Pow(2, j), k) == (v == 1 && k == j)
  {
    if v == 0 {
      ZeroBit(k);
    } else if k == 0 || j == 0 {
      if k > 0 {
        ZeroBit(k - 1);
      }
    } else {
      MovedBit(v, j - 1, k - 1);
    }
  }

  lemma {:induction false} ZeroBit(k: nat)
    ensures !Bit(0, k)
  {
    if k > 0 {
      ZeroBit(k - 1);
    }
  }

  /** The negation of zero or one: no bits, or all bits. */
  function Negated(v: nat): uint64
    requires v <= 1
  {
    if v == 0 then 0 else 0xFFFF_FFFF_FFFF_FFFF
  }

  lemma NegatedBit(v: nat, k: nat)
    requires v <= 1 && k < WORD_BITS
    ensures Bit(Negated(v), k) == (v == 1)
  {
    WordPower();
    OnesBit(WORD_BITS, k);
    ZeroBit(k);
  }

  lemma {:induction false} OnesBit(n: nat, k: nat)
    requires k < n
    ensures Bit(Pow(2, n) - 1, k)
  {
    assert Pow(2, n) - 1 == 1 + 2 * (Pow(2, n - 1) - 1);
    if k > 0 {
      OnesBit(n - 1, k - 1);
    }
  }

  /** Writing one bit of a word. */
  function Written(m: uint64, k: nat, v: nat): uint64
    requires k < WORD_BITS && v <= 1
  {
    Or(And(m, Not(Moved(1, k))), Moved(v, k))
  }

  lemma WrittenBit(m: uint64, j: nat, v: nat, k: nat)
    requires j < WORD_BITS && k < WORD_BITS && v <= 1
    ensures Bit(Written(m, j, v), k) == if k == j then v == 1 else Bit(m, k)
  {
    hide Bit, And, Or, Not;
    WordOps(And(m, Not(Moved(1, j))), Moved(v, j), k);
    WordOps(m, Not(Moved(1, j)), k);
    WordOps(Moved(1, j), 0, k);
    MovedBit(1, j, k);
    MovedBit(v, j, k);
  }

  // ----- cells -----

  function Pair(lo: bool, hi: bool): nat {
    (if lo then 1 else 0) + if hi then 2 else 0
  }

  lemma PairInRange(p: nat, size: nat)
    requires size % 2 == 0 && p < 32 * size
    ensures 0 <= p / 64 * 2 < p / 64 * 2 + 1 < size
  {
  }

  function CellOf(d: seq<uint64>, p: nat): nat
    requires |d| % 2 == 0 && p < 32 * |d|
  {
    Pair(Bit(d[p / 64 * 2], p % 64), Bit(d[p / 64 * 2 + 1], p % 64))
  }

  function Cells(d: seq<uint64>): (cells: seq<nat>)
    requires |d| % 2 == 0
    ensures |cells| == 32 * |d| && forall p :: 0 <= p < |cells| ==> cells[p] == CellOf(d, p)
  {
    seq(32 * |d|, p requires 0 <= p < 32 * |d| => CellOf(d, p))
  }

  /** The pair of words with one cell set to a generation. */
  function WithCell(d: seq<uint64>, p: nat, g: nat): (r: seq<uint64>)
    requires |d| % 2 == 0 && p < 32 * |d| && 1 <= g <= 3
    ensures |r| == |d|
  {
    PairInRange(p, |d|);
    var lo, hi := p / 64 * 2, p / 64 * 2 + 1;
    d[lo := Written(d[lo], p % 64, g % 2)][hi := Written(d[hi], p % 64, g / 2)]
  }

  lemma WithCellAt(d: seq<uint64>, p: nat, g: nat, q: nat)
    requires |d| % 2 == 0 && p < 32 * |d| && q < 32 * |d| && 1 <= g <= 3
    ensures CellOf(WithCell(d, p, g), q) == if q == p then g else CellOf(d, q)
  {
    hide Bit, Written;
    if p / 64 == q / 64 {
      WrittenBit(d[p / 64 * 2], p % 64, g % 2, q % 64);
      WrittenBit(d[p / 64 * 2 + 1], p % 64, g / 2, q % 64);
    }
  }

  lemma WithCellCells(d: seq<uint64>, p: nat, g: nat)
    requires |d| % 2 == 0 && p < 32 * |d| && 1 <= g <= 3
    ensures Cells(WithCell(d, p, g)) == Cells(d)[p := g]
  {
    hide CellOf, WithCell;
    forall q: nat | q < 32 * |d| ensures CellOf(WithCell(d, p, g), q) == if q == p then g else CellOf(d, q) {
      WithCellAt(d, p, g, q);
    }
  }

  /** The bits of a pair of words whose cells are not of the generation. */
  function Mask(p1: uint64, p2: uint64, g: nat): uint64
    requires 1 <= g <= 3
  {
    Or(Xor(p1, Negated(g % 2)), Xor(p2, Negated(g / 2)))
  }

  lemma MaskedPair(p1: uint64, p2: uint64, g: nat, k: nat)
    requires 1 <= g <= 3 && k < WORD_BITS
    ensures var m := Mask(p1, p2, g);
            var was := Pair(Bit(p1, k), Bit(p2, k));
            Pair(Bit(And(p1, m), k), Bit(And(p2, m), k)) == if was == g then 0 else was
  {
    hide Bit, And, Or, Xor, Negated;
    var m := Mask(p1, p2, g);
    NegatedBit(g % 2, k);
    NegatedBit(g / 2, k);
    WordOps(p1, Negated(g % 2), k);
    WordOps(p2, Negated(g / 2), k);
    WordOps(Xor(p1, Negated(g % 2)), Xor(p2, Negated(g / 2)), k);
    WordOps(p1, m, k);
    WordOps(p2, m, k);
  }

  /** Every pair of words with the cells of a generation cleared. */
  function WipedWord(d: seq<uint64>, i: nat, g: nat): uint64
    requires |d| % 2 == 0 && i < |d| && 1 <= g <= 3
  {
    And(d[i], Mask(d[i / 2 * 2], d[i / 2 * 2 + 1], g))
  }

  lemma WipedCells(d: seq<uint64>, r: seq<uint64>, g: nat)
    requires |d| % 2 == 0 && |r| == |d| && 1 <= g <= 3
    requires forall i :: 0 <= i < |d| ==> r[i] == WipedWord(d, i, g)
    ensures Cells(r) == Wiped(Cells(d), g)
  {
    hide Bit, And, Mask, Pair;
    forall p: nat | p < 32 * |d| ensures CellOf(r, p) == if CellOf(d, p) == g then 0 else CellOf(d, p) {
      var w := p / 64 * 2;
      assert w / 2 * 2 == w && (w + 1) / 2 * 2 == w;
      MaskedPair(d[w], d[w + 1], g, p % 64);
    }
  }

  // ----- placement -----

  /** The word a hash selects, and the cell: bit and word pair. */
  function WordOf(h: nat, size: nat): (pos: nat)
    requires size > 0
    ensures pos < size
  {
    (h / 64) % size
  }

  function CellAt(h: nat, size: nat): (p: nat)
    requires size > 0 && size % 2 == 0
    ensures p < 32 * size && p / 64 * 2 == WordOf(h, size) - WordOf(h, size) % 2 && p % 64 == h % 64
  {
    WordOf(h, size) / 2 * 64 + h % 64
  }

  /** The hash of a key under a hash number and a tweak. */
  type KeyHash = (nat, nat, Key) -> nat

  function PlacedBy(hash: KeyHash, tweak: nat, size: nat): Placement
    requires size > 0 && size % 2 == 0
  {
    (n, key) => CellAt(hash(n, tweak, key), size)
  }

  lemma PlacedInRange(hash: KeyHash, tweak: nat, size: nat, key: Key, nHash: nat)
    requires size > 0 && size % 2 == 0
    ensures InRange(PlacedBy(hash, tweak, size), key, nHash, 32 * size)
  {
    forall n: nat | n < nHash ensures PlacedBy(hash, tweak, size)(n, key) < 32 * size {
      assert PlacedBy(hash, tweak, size)(n, key) == CellAt(hash(n, tweak, key), size);
    }
  }

  /** The last `n` keys, or all of them. */
  function Latest(keys: seq<Key>, n: nat): seq<Key> {
    if |keys| <= n then keys else keys[|keys| - n..]
  }

  // ----- the filter -----

  class CRollingBloomFilter {
    const nEntriesPerGeneration: nat
    var nEntriesThisGeneration: nat
    var nGeneration: nat
    const data: array<uint64>
    var nTweak: nat
    const nHashFuncs: nat
    const hash: KeyHash
    /** The keys inserted since the last reset. */
    ghost var keys: seq<Key>

    ghost predicate Shaped()
      reads this
    {
      data.Length > 0 && data.Length % 2 == 0 && 1 <= nGeneration <= 3
    }

    ghost function At(): Placement
      requires Shaped()
      reads this
    {
      PlacedBy(hash, nTweak, data.Length)
    }

    ghost function Value(): (f: Filter)
      requires Shaped()
      reads this, data
      ensures |f.cells| == 32 * data.Length
    {
      Filter(Cells(data[..]), nGeneration, nEntriesThisGeneration)
    }

    ghost predicate Valid()
      reads this, data
    {
      Shaped() && Reflects(Value(), At(), keys, nHashFuncs, nEntriesPerGeneration)
    }

    constructor (nElements: nat, nHashFuncs: nat, nWordPairs: nat, tweak: nat, hash: KeyHash)
      requires nWordPairs > 0
      ensures Valid() && fresh(data) && keys == [] && nEntriesPerGeneration == (nElements + 1) / 2
    {
      nEntriesPerGeneration := (nElements + 1) / 2;
      this.nHashFuncs := nHashFuncs;
      data := new uint64[2 * nWordPairs];
      this.hash := hash;
      nGeneration := 1;
      new;
      Reset(tweak);
    }

    method Reset(tweak: nat)
      requires Shaped()
      modifies this, data
      ensures Valid() && keys == [] && nTweak == tweak
    {
      nTweak := tweak;
      nEntriesThisGeneration := 0;
      nGeneration := 1;
      for i := 0 to data.Length
        invariant nTweak == tweak && nEntriesThisGeneration == 0 && nGeneration == 1
        invariant forall k :: 0 <= k < i ==> data[k] == 0
      {
        data[i] := 0;
      }
      keys := [];
      NoCells(data[..]);
      EmptyReflects(At(), 32 * data.Length, nHashFuncs, nEntriesPerGeneration);
    }

    /** Wipes the cells that carry the generation number that comes into use. */
    method Wipe()
      requires Shaped()
      modifies data
      ensures Cells(data[..]) == Wiped(old(Cells(data[..])), nGeneration)
    {
      hide Mask, And, Cells;
      ghost var d := data[..];
      var p := 0;
      while p < data.Length
        invariant p <= data.Length && p % 2 == 0
        invariant forall i :: 0 <= i < data.Length ==> data[i] == if i < p then WipedWord(d, i, nGeneration) else d[i]
      {
        var p1, p2 := data[p], data[p + 1];
        var mask := Mask(p1, p2, nGeneration);
        assert p / 2 * 2 == p && (p + 1) / 2 * 2 == p;
        data[p] := And(p1, mask);
        data[p + 1] := And(p2, mask);
        p := p + 2;
      }
      WipedCells(d, data[..], nGeneration);
    }

    method Insert(key: Key)
      requires Valid()
      modifies this, data
      ensures Valid() && keys == old(keys) + [key] && nTweak == old(nTweak)
      ensures Value() == RollingBloom.Insert(old(Value()), At(), key, nHashFuncs, nEntriesPerGeneration)
    {
      hide Cells, Reflects, Stamped, Wiped, PlacedBy;
      PlacedInRange(hash, nTweak, data.Length, key, nHashFuncs);
      InsertReflects(Value(), At(), keys, key, nHashFuncs, nEntriesPerGeneration);
      if nEntriesThisGeneration == nEntriesPerGeneration {
        nEntriesThisGeneration := 0;
        nGeneration := nGeneration + 1;
        if nGeneration == 4 {
          nGeneration := 1;
        }
        Wipe();
      }
      nEntriesThisGeneration := nEntriesThisGeneration + 1;
      StampCells(key);
      keys := keys + [key];
    }

    method StampCells(key: Key)
      requires Shaped() && InRange(At(), key, nHashFuncs, 32 * data.Length)
      modifies data
      ensures Cells(data[..]) == Stamped(old(Cells(data[..])), At(), key, nHashFuncs, nGeneration)
    {
      hide Cells, WithCell;
      ghost var cells := Cells(data[..]);
      for n := 0 to nHashFuncs
        invariant Cells(data[..]) == Stamped(cells, At(), key, n, nGeneration)
      {
        var h := hash(n, nTweak, key);
        WithCellCells(data[..], CellAt(h, data.Length), nGeneration);
        SetCell(h);
      }
    }

    /** Both bits of a cell, the low bit of the word's number ignored. */
    method SetCell(h: nat)
      requires Shaped()
      modifies data
      ensures data[..] == WithCell(old(data[..]), CellAt(h, data.Length), nGeneration)
    {
      hide Written;
      var bit, pos := h % 64, WordOf(h, data.Length);
      data[pos - pos % 2] := Written(data[pos - pos % 2], bit, nGeneration % 2);
      data[pos - pos % 2 + 1] := Written(data[pos - pos % 2 + 1], bit, nGeneration / 2);
    }

    /** Finds every key of the window, and otherwise only keys all of whose cells the window touches. */
    method Contains(key: Key) returns (found: bool)
      requires Valid()
      ensures found <==> forall n: nat :: n < nHashFuncs ==>
        TouchedWithin(At(), keys, nHashFuncs, Window(Value(), nEntriesPerGeneration), At()(n, key))
      ensures key in Latest(keys, Window(Value(), nEntriesPerGeneration)) ==> found
    {
      hide Cells, Reflects, TouchedWithin, PlacedBy;
      PlacedInRange(hash, nTweak, data.Length, key, nHashFuncs);
      ContainsExact(Value(), At(), keys, key, nHashFuncs, nEntriesPerGeneration);
      WindowFound(Value(), At(), keys, key, nHashFuncs, nEntriesPerGeneration);
      found := true;
      for n := 0 to nHashFuncs
        invariant forall m: nat :: m < n ==> Value().cells[At()(m, key)] != 0
      {
        var set_ := CellSet(n, key);
        if !set_ {
          return false;
        }
      }
    }

    method CellSet(n: nat, key: Key) returns (isSet: bool)
      requires Shaped()
      ensures At()(n, key) < 32 * data.Length && isSet == (Value().cells[At()(n, key)] != 0)
    {
      hide Bit, Or;
      var h := hash(n, nTweak, key);
      var bit, pos := h % 64, WordOf(h, data.Length);
      WordOps(data[pos - pos % 2], data[pos - pos % 2 + 1], bit);
      isSet := Bit(Or(data[pos - pos % 2], data[pos - pos % 2 + 1]), bit);
      assert CellOf(data[..], CellAt(h, data.Length)) != 0 <==> isSet;
    }
  }

  lemma NoCells(d: seq<uint64>)
    requires |d| % 2 == 0 && forall i :: 0 <= i < |d| ==> d[i] == 0
    ensures Cells(d) == Empty(32 * |d|).cells
  {
    forall p: nat | p < 32 * |d| ensures CellOf(d, p) == 0 {
      ZeroBit(p % 64);
    }
  }

  lemma WindowFound(f: Filter, at: Placement, keys: seq<Key>, key: Key, nHash: nat, perGeneration: nat)
    requires Reflects(f, at, keys, nHash, perGeneration) && InRange(at, key, nHash, |f.cells|)
    ensures key in Latest(keys, Window(f, perGeneration)) ==> RollingBloom.Contains(f, at, key, nHash)
  {
    hide Reflects, RollingBloom.Contains;
    var latest := Latest(keys, Window(f, perGeneration));
    if key in latest {
      var i :| 0 <= i < |latest| && latest[i] == key;
      NoFalseNegatives(f, at, keys, nHash, perGeneration, |keys| - |latest| + i);
    }
  }
}
