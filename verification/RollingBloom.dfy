/**
 The rolling bloom filter on cells: each cell is unset or carries one of three generation
 numbers, and starting a generation wipes the cells that carry its number from its last use.
 */
module RollingBloom {
  import opened Powers

  type Key = seq<bv8>

  /** `At(n, key)` is the cell that hash function `n` assigns to a key, with the tweak in force. */
  type Placement = (nat, Key) -> nat

  datatype Filter = Filter(cells: seq<nat>, generation: nat, entries: nat)

  function Empty(nCells: nat): Filter {
    Filter(seq(nCells, _ => 0), 1, 0)
  }

  // ----- operations -----

  function NextGeneration(g: nat): nat { if g + 1 == 4 then 1 else g + 1 }

  function Wiped(cells: seq<nat>, g: nat): (r: seq<nat>)
    ensures |r| == |cells| && forall p :: 0 <= p < |r| ==> r[p] == if cells[p] == g then 0 else cells[p]
  {
    seq(|cells|, p requires 0 <= p < |cells| => if cells[p] == g then 0 else cells[p])
  }

  /** A new generation, when the current one is full. */
  function Turn(f: Filter, perGeneration: nat): Filter {
    if f.entries == perGeneration then
      var g := NextGeneration(f.generation);
      Filter(Wiped(f.cells, g), g, 0)
    else f
  }

  predicate InRange(at: Placement, key: Key, nHash: nat, nCells: nat) {
    forall n: nat :: n < nHash ==> at(n, key) < nCells
  }

  /** The first `n` cells of a key, stamped. */
  function Stamped(cells: seq<nat>, at: Placement, key: Key, n: nat, g: nat): (r: seq<nat>)
    requires InRange(at, key, n, |cells|)
    ensures |r| == |cells|
  {
    if n == 0 then cells else Stamped(cells, at, key, n - 1, g)[at(n - 1, key) := g]
  }

  function Insert(f: Filter, at: Placement, key: Key, nHash: nat, perGeneration: nat): Filter
    requires InRange(at, key, nHash, |f.cells|)
  {
    var t := Turn(f, perGeneration);
    t.(entries := t.entries + 1, cells := Stamped(t.cells, at, key, nHash, t.generation))
  }

  predicate Contains(f: Filter, at: Placement, key: Key, nHash: nat)
    requires InRange(at, key, nHash, |f.cells|)
  {
    forall n: nat :: n < nHash ==> f.cells[at(n, key)] != 0
  }

  // ----- what the cells mean -----

  predicate Hits(at: Placement, key: Key, nHash: nat, p: nat) {
    exists n: nat :: n < nHash && at(n, key) == p
  }

  lemma {:induction false} StampedAt(cells: seq<nat>, at: Placement, key: Key, n: nat, g: nat, p: nat)
    requires InRange(at, key, n, |cells|) && p < |cells|
    ensures Stamped(cells, at, key, n, g)[p] == if Hits(at, key, n, p) then g else cells[p]
  {
    if n > 0 {
      StampedAt(cells, at, key, n - 1, g, p);
      if at(n - 1, key) != p && Hits(at, key, n, p) {
        var m: nat :| m < n && at(m, key) == p;
        assert m < n - 1;
        assert Hits(at, key, n - 1, p);
      }
    }
  }

  /**
   The generation in which insert number `i` since the last reset falls, counting from zero
   without wrapping around. With room for no entries, the first insert turns the generation and
   the counter never meets its limit again.
   */
  function GenerationOf(perGeneration: nat, i: nat): nat {
    if perGeneration == 0 then 1 else i / perGeneration
  }

  /** The current generation after `n` inserts. */
  function Current(perGeneration: nat, n: nat): nat {
    if n == 0 then 0 else GenerationOf(perGeneration, n - 1)
  }

  /** The generation of the last insert that touched a cell, or one long gone. */
  ghost function LastTouch(at: Placement, keys: seq<Key>, nHash: nat, perGeneration: nat, p: nat): int {
    if keys == [] then -3
    else if Hits(at, keys[|keys| - 1], nHash, p) then GenerationOf(perGeneration, |keys| - 1)
    else LastTouch(at, keys[..|keys| - 1], nHash, perGeneration, p)
  }

  /** A cell shows the generation of its last touch for as long as that is one of the last three. */
  function Shown(touch: int, current: nat): nat {
    if touch >= current - 2 then touch % 3 + 1 else 0
  }

  /** The state of the filter is a function of the keys inserted since the last reset. */
  ghost predicate Reflects(f: Filter, at: Placement, keys: seq<Key>, nHash: nat, perGeneration: nat) {
    var g := Current(perGeneration, |keys|);
    && f.generation == g % 3 + 1
    && f.entries == (if perGeneration == 0 then |keys| else |keys| - g * perGeneration)
    && (forall key :: key in keys ==> InRange(at, key, nHash, |f.cells|))
    && (forall p: nat :: p < |f.cells| ==> f.cells[p] == Shown(LastTouch(at, keys, nHash, perGeneration, p), g))
  }

  lemma EmptyReflects(at: Placement, nCells: nat, nHash: nat, perGeneration: nat)
    ensures Reflects(Empty(nCells), at, [], nHash, perGeneration)
  {
  }

  lemma {:induction false} TouchBounded(at: Placement, keys: seq<Key>, nHash: nat, perGeneration: nat, p: nat)
    ensures -3 <= LastTouch(at, keys, nHash, perGeneration, p) <= Current(perGeneration, |keys|)
  {
    hide Hits;
    if keys != [] {
      TouchBounded(at, keys[..|keys| - 1], nHash, perGeneration, p);
      CurrentGrows(perGeneration, |keys| - 1);
    }
  }

  lemma CurrentGrows(perGeneration: nat, n: nat)
    ensures Current(perGeneration, n) <= Current(perGeneration, n + 1) <= Current(perGeneration, n) + 1
    ensures perGeneration > 0 && n > 0 ==>
              (Current(perGeneration, n + 1) > Current(perGeneration, n)
               <==> n - Current(perGeneration, n) * perGeneration == perGeneration)
  {
    if perGeneration > 0 && n > 0 {
      QuotientNext(n - 1, perGeneration);
    }
  }

  lemma QuotientNext(i: nat, e: nat)
    requires e > 0
    ensures (i + 1) / e == i / e + if i % e == e - 1 then 1 else 0
    ensures i % e == e - 1 <==> i + 1 - (i / e) * e == e
  {
    var q, r := i / e, i % e;
    assert i == q * e + r;
    if r == e - 1 {
      assert i + 1 == (q + 1) * e;
      DivUnique(i + 1, e, q + 1, 0);
    } else {
      DivUnique(i + 1, e, q, r + 1);
    }
  }

  /** Wiping on a turn takes away exactly the touches that fall out of the last three generations. */
  lemma WipeShifts(touch: int, g: nat)
    requires -3 <= touch <= g
    ensures Shown(touch, g + 1) == if Shown(touch, g) == (g + 1) % 3 + 1 then 0 else Shown(touch, g)
  {
  }

  lemma TurnedCell(f: Filter, at: Placement, keys: seq<Key>, nHash: nat, perGeneration: nat, p: nat)
    requires Reflects(f, at, keys, nHash, perGeneration) && f.entries == perGeneration && p < |f.cells|
    ensures var t := Turn(f, perGeneration);
            && |t.cells| == |f.cells|
            && t.cells[p] == Shown(LastTouch(at, keys, nHash, perGeneration, p), Current(perGeneration, |keys|) + 1)
  {
    hide LastTouch, Hits, Shown, Current;
    TouchBounded(at, keys, nHash, perGeneration, p);
    WipeShifts(LastTouch(at, keys, nHash, perGeneration, p), Current(perGeneration, |keys|));
  }

  lemma TurnReflects(f: Filter, at: Placement, keys: seq<Key>, nHash: nat, perGeneration: nat)
    requires Reflects(f, at, keys, nHash, perGeneration)
    ensures var t := Turn(f, perGeneration);
            var g := Current(perGeneration, |keys| + 1);
            && |t.cells| == |f.cells| && t.generation == g % 3 + 1
            && t.entries + 1 == (if perGeneration == 0 then |keys| + 1 else |keys| + 1 - g * perGeneration)
            && forall p: nat :: p < |t.cells| ==> t.cells[p] == Shown(LastTouch(at, keys, nHash, perGeneration, p), g)
  {
    hide LastTouch, Hits, Shown, Current;
    var g := Current(perGeneration, |keys|);
    CurrentGrows(perGeneration, |keys|);
    var t := Turn(f, perGeneration);
    if f.entries == perGeneration {
      TurnCounts(|keys|, perGeneration);
      forall p: nat | p < |t.cells| ensures t.cells[p] == Shown(LastTouch(at, keys, nHash, perGeneration, p), g + 1) {
        TurnedCell(f, at, keys, nHash, perGeneration, p);
      }
    } else {
      NoTurnCounts(|keys|, perGeneration);
    }
  }

  lemma TurnCounts(n: nat, e: nat)
    requires (if e == 0 then n else n - Current(e, n) * e) == e
    ensures Current(e, n + 1) == Current(e, n) + 1
    ensures e > 0 ==> n - (Current(e, n) + 1) * e == 0
  {
    CurrentGrows(e, n);
    if e > 0 {
      assert (Current(e, n) + 1) * e == Current(e, n) * e + e;
    }
  }

  lemma NoTurnCounts(n: nat, e: nat)
    requires (if e == 0 then n else n - Current(e, n) * e) != e
    ensures Current(e, n + 1) == Current(e, n)
  {
    CurrentGrows(e, n);
    if e > 0 && n == 0 {
      DivUnique(0, e, 0, 0);
    }
  }

  /** The main step: an insert keeps the filter in step with the history. */
  lemma InsertReflects(f: Filter, at: Placement, keys: seq<Key>, key: Key, nHash: nat, perGeneration: nat)
    requires Reflects(f, at, keys, nHash, perGeneration) && InRange(at, key, nHash, |f.cells|)
    ensures Reflects(Insert(f, at, key, nHash, perGeneration), at, keys + [key], nHash, perGeneration)
  {
    hide Turn, Stamped, Hits;
    TurnReflects(f, at, keys, nHash, perGeneration);
    var t := Turn(f, perGeneration);
    var g := Current(perGeneration, |keys| + 1);
    var after := keys + [key];
    assert after[..|keys|] == keys;
    forall p: nat | p < |t.cells|
      ensures Stamped(t.cells, at, key, nHash, t.generation)[p] == Shown(LastTouch(at, after, nHash, perGeneration, p), g)
    {
      StampedAt(t.cells, at, key, nHash, t.generation, p);
    }
  }

  // ----- the window -----

  /** How many of the latest inserts the filter is sure to remember: two full generations and the current one. */
  function Window(f: Filter, perGeneration: nat): nat { 2 * perGeneration + f.entries }

  /** Some key among the last `window` ones touches the cell. */
  ghost predicate TouchedWithin(at: Placement, keys: seq<Key>, nHash: nat, window: nat, p: nat) {
    exists i :: 0 <= i < |keys| && i >= |keys| - window && Hits(at, keys[i], nHash, p)
  }

  lemma {:induction false} TouchFinds(at: Placement, keys: seq<Key>, nHash: nat, perGeneration: nat, p: nat, g: int)
    ensures LastTouch(at, keys, nHash, perGeneration, p) >= g && g > -3 <==>
            g > -3 && exists i :: 0 <= i < |keys| && GenerationOf(perGeneration, i) >= g && Hits(at, keys[i], nHash, p)
  {
    hide Hits;
    if keys != [] {
      var front, last := keys[..|keys| - 1], |keys| - 1;
      TouchFinds(at, front, nHash, perGeneration, p, g);
      if Hits(at, keys[last], nHash, p) {
        forall i | 0 <= i < |keys| ensures GenerationOf(perGeneration, i) <= GenerationOf(perGeneration, last) {
          GenerationsGrow(perGeneration, i, last);
        }
      } else {
        assert forall i :: 0 <= i < last ==> front[i] == keys[i];
      }
    }
  }

  lemma {:induction false} GenerationsGrow(e: nat, i: nat, j: nat)
    requires i <= j
    ensures GenerationOf(e, i) <= GenerationOf(e, j)
    decreases j - i
  {
    if i < j && e > 0 {
      GenerationsGrow(e, i, j - 1);
      QuotientNext(j - 1, e);
    }
  }

  /** Being in the last three generations is being in the window. */
  lemma WindowIs(n: nat, e: nat, i: nat)
    requires i < n
    ensures var g := Current(e, n);
            GenerationOf(e, i) >= g - 2 <==> i >= n - (2 * e + if e == 0 then n else n - g * e)
  {
    if e > 0 {
      var g := Current(e, n);
      if g >= 2 {
        DivBound(i, e, g - 2);
        Distributes(g - 2, 2, e);
      } else {
        MulMonotone(g, 2, e);
      }
    }
  }

  /** A lookup succeeds exactly when each of its cells was touched within the window. */
  lemma ContainsExact(f: Filter, at: Placement, keys: seq<Key>, key: Key, nHash: nat, perGeneration: nat)
    requires Reflects(f, at, keys, nHash, perGeneration) && InRange(at, key, nHash, |f.cells|)
    ensures Contains(f, at, key, nHash) <==>
            forall n: nat :: n < nHash ==> TouchedWithin(at, keys, nHash, Window(f, perGeneration), at(n, key))
  {
    hide LastTouch, Hits;
    forall n: nat | n < nHash
      ensures f.cells[at(n, key)] != 0 <==> TouchedWithin(at, keys, nHash, Window(f, perGeneration), at(n, key))
    {
      CellExact(f, at, keys, nHash, perGeneration, at(n, key));
    }
  }

  lemma CellExact(f: Filter, at: Placement, keys: seq<Key>, nHash: nat, perGeneration: nat, p: nat)
    requires Reflects(f, at, keys, nHash, perGeneration) && p < |f.cells|
    ensures f.cells[p] != 0 <==> TouchedWithin(at, keys, nHash, Window(f, perGeneration), p)
  {
    hide LastTouch, Hits;
    var g: int := Current(perGeneration, |keys|);
    TouchFinds(at, keys, nHash, perGeneration, p, g - 2);
    forall i | 0 <= i < |keys|
      ensures GenerationOf(perGeneration, i) >= g - 2 <==> i >= |keys| - Window(f, perGeneration)
    {
      WindowIs(|keys|, perGeneration, i);
    }
  }

  /** No false negatives: every key among the latest inserts is found, whatever the hash functions are. */
  lemma NoFalseNegatives(f: Filter, at: Placement, keys: seq<Key>, nHash: nat, perGeneration: nat, i: nat)
    requires Reflects(f, at, keys, nHash, perGeneration)
    requires |keys| - Window(f, perGeneration) <= i < |keys|
    ensures InRange(at, keys[i], nHash, |f.cells|) && Contains(f, at, keys[i], nHash)
  {
    hide LastTouch, Reflects;
    assert keys[i] in keys && InRange(at, keys[i], nHash, |f.cells|) by { KeysInRange(f, at, keys, nHash, perGeneration, i); }
    ContainsExact(f, at, keys, keys[i], nHash, perGeneration);
  }

  lemma KeysInRange(f: Filter, at: Placement, keys: seq<Key>, nHash: nat, perGeneration: nat, i: nat)
    requires Reflects(f, at, keys, nHash, perGeneration) && i < |keys|
    ensures InRange(at, keys[i], nHash, |f.cells|)
  {
  }
}
