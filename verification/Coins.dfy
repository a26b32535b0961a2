/**
 The cache of unspent transaction outputs. A cache entry carries two flags: DIRTY, it may differ
 from the view below; FRESH, the view below has no unspent coin there. The flags let a cache
 skip writes and erase entries; this module proves that no reader can tell.
 */
module Coins {

  const OP_RETURN := 0x6a
  const MAX_SCRIPT_SIZE := 10000

  datatype OutPoint = OutPoint(hash: nat, n: nat)

  /** A transaction output; the null output has value -1. */
  datatype TxOut = TxOut(nValue: int, script: seq<nat>) {
    predicate IsNull() { nValue == -1 }

    predicate IsUnspendable() {
      (|script| > 0 && script[0] == OP_RETURN) || |script| > MAX_SCRIPT_SIZE
    }
  }

  datatype Coin = Coin(out: TxOut, fCoinBase: bool, nHeight: nat) {
    predicate IsSpent() { out.IsNull() }
  }

  const COIN_EMPTY := Coin(TxOut(-1, []), false, 0)

  datatype Entry = Entry(coin: Coin, isDirty: bool, isFresh: bool)

  type Cache = map<OutPoint, Entry>

  /** A set of coins as its readers see it: the unspent ones. */
  type Utxo = map<OutPoint, Coin>

  /** What a reader of a cache over `base` sees. */
  ghost function Overlay(base: Utxo, cache: Cache): (view: Utxo)
    ensures forall o :: o in cache ==>
              (o in view <==> !cache[o].coin.IsSpent()) && (o in view ==> view[o] == cache[o].coin)
    ensures forall o :: o !in cache ==> (o in view <==> o in base) && (o in view ==> view[o] == base[o])
  {
    map o | o in base.Keys + cache.Keys && !(o in cache && cache[o].coin.IsSpent()) ::
      if o in cache then cache[o].coin else base[o]
  }

  /** The flags of entry `e` at `o` tell the truth about the view below. */
  ghost predicate Truthful(base: Utxo, o: OutPoint, e: Entry) {
    && (e.isFresh ==> o !in base)
    && (!e.isDirty ==> (o in base <==> !e.coin.IsSpent()) && (o in base ==> base[o] == e.coin))
  }

  ghost predicate CacheOk(base: Utxo, cache: Cache) {
    forall o :: o in cache ==> Truthful(base, o, cache[o])
  }

  // ----- one cache -----

  /** What a successful read of `coin` from below puts into the cache. */
  function Fetched(coin: Coin): Entry {
    Entry(coin, false, coin.IsSpent())
  }

  lemma FetchKeeps(base: Utxo, cache: Cache, o: OutPoint, coin: Coin)
    requires CacheOk(base, cache) && o !in cache
    requires (o in base <==> !coin.IsSpent()) && (o in base ==> base[o] == coin)
    ensures CacheOk(base, cache[o := Fetched(coin)])
    ensures Overlay(base, cache[o := Fetched(coin)]) == Overlay(base, cache)
  {
  }

  /** The entry after adding `coin` at `o`, where the cache had `prior` (a blank entry if none). */
  function Added(prior: Entry, coin: Coin, overwrite: bool): Entry {
    Entry(coin, true, prior.isFresh || (!overwrite && !prior.isDirty))
  }

  const BLANK := Entry(COIN_EMPTY, false, false)

  function EntryAt(cache: Cache, o: OutPoint): Entry {
    if o in cache then cache[o] else BLANK
  }

  /** Adding shows the coin, and nothing else changes for a reader. */
  lemma AddShows(base: Utxo, cache: Cache, o: OutPoint, coin: Coin, overwrite: bool)
    requires !coin.IsSpent()
    ensures Overlay(base, cache[o := Added(EntryAt(cache, o), coin, overwrite)]) == Overlay(base, cache)[o := coin]
  {
  }

  /**
   Adding without permission to overwrite keeps the flags truthful exactly when the cache
   knows the outpoint, or the view below has no coin there.
   */
  lemma AddKeeps(base: Utxo, cache: Cache, o: OutPoint, coin: Coin, overwrite: bool)
    requires CacheOk(base, cache) && !coin.IsSpent()
    requires !overwrite ==> EntryAt(cache, o).coin.IsSpent()
    ensures CacheOk(base, cache[o := Added(EntryAt(cache, o), coin, overwrite)]) <==>
            overwrite || o in cache || o !in base
  {
    var after := cache[o := Added(EntryAt(cache, o), coin, overwrite)];
    AddTruthful(base, cache, o, coin, overwrite);
    assert o in after;
  }

  /** The same for the one entry, whatever the others are like. */
  lemma AddTruthful(base: Utxo, cache: Cache, o: OutPoint, coin: Coin, overwrite: bool)
    requires (o in cache ==> Truthful(base, o, cache[o])) && !coin.IsSpent()
    requires !overwrite ==> EntryAt(cache, o).coin.IsSpent()
    ensures Truthful(base, o, Added(EntryAt(cache, o), coin, overwrite)) <==> overwrite || o in cache || o !in base
  {
  }

  /**
   The price of a broken promise: adding over a coin the cache does not know of, then spending
   the addition, brings the old coin back.
   */
  lemma BrokenPromiseResurrects(base: Utxo, cache: Cache, o: OutPoint, coin: Coin)
    requires CacheOk(base, cache) && !coin.IsSpent() && o !in cache && o in base
    ensures var added := cache[o := Added(EntryAt(cache, o), coin, false)];
            var view := Overlay(base, Spent(added, o));
            !CacheOk(base, added) && o in view && view[o] == base[o]
  {
    hide Overlay;
    var added := cache[o := Added(EntryAt(cache, o), coin, false)];
    assert !Truthful(base, o, added[o]);
    assert o !in Spent(added, o);
  }

  /** The cache after spending a coin it holds: a fresh entry just goes. */
  function Spent(cache: Cache, o: OutPoint): Cache
    requires o in cache
  {
    if cache[o].isFresh then cache - {o} else cache[o := cache[o].(isDirty := true, coin := COIN_EMPTY)]
  }

  lemma SpendKeeps(base: Utxo, cache: Cache, o: OutPoint)
    requires CacheOk(base, cache) && o in cache
    ensures CacheOk(base, Spent(cache, o))
    ensures Overlay(base, Spent(cache, o)) == Overlay(base, cache) - {o}
  {
    assert Truthful(base, o, cache[o]);
  }

  lemma UncacheKeeps(base: Utxo, cache: Cache, o: OutPoint)
    requires CacheOk(base, cache) && o in cache && !cache[o].isDirty && !cache[o].isFresh
    ensures CacheOk(base, cache - {o})
    ensures Overlay(base, cache - {o}) == Overlay(base, cache)
  {
    assert Truthful(base, o, cache[o]);
  }

  /**
   A change of the view below at `o`: the flags stay truthful exactly if the entry there, if any,
   does, and a reader notices nothing exactly if the cache has an entry there or nothing changed.
   */
  lemma BelowChanges(base: Utxo, after: Utxo, cache: Cache, o: OutPoint)
    requires CacheOk(base, cache)
    requires forall x :: x != o ==> (x in after <==> x in base) && (x in after ==> after[x] == base[x])
    ensures CacheOk(after, cache) <==> (o in cache ==> Truthful(after, o, cache[o]))
    ensures Overlay(after, cache) == Overlay(base, cache) <==> o in cache || after == base
  {
    hide Overlay;
    forall x | x in cache && x != o ensures Truthful(after, x, cache[x]) {
      assert Truthful(base, x, cache[x]);
    }
    BelowShows(base, after, cache, o);
  }

  lemma BelowShows(base: Utxo, after: Utxo, cache: Cache, o: OutPoint)
    requires forall x :: x != o ==> (x in after <==> x in base) && (x in after ==> after[x] == base[x])
    ensures Overlay(after, cache) == Overlay(base, cache) <==> o in cache || after == base
  {
    hide Overlay;
    var was, now := Overlay(base, cache), Overlay(after, cache);
    if o in cache {
      assert now == was;
    } else if now == was {
      assert o in after <==> o in base;
      assert o in after ==> after[o] == base[o];
      assert after == base;
    }
  }

  // ----- writing a child cache into its parent -----

  datatype Written = Misapplied | Written(cache: Cache)

  /** The parent cache after taking over entry `e` of a child. */
  function WriteEntry(cache: Cache, o: OutPoint, e: Entry): Written {
    if !e.isDirty then Written(cache)
    else if o !in cache then
      if e.isFresh && e.coin.IsSpent() then Written(cache) else Written(cache[o := Entry(e.coin, true, e.isFresh)])
    else if e.isFresh && !cache[o].coin.IsSpent() then Misapplied
    else if cache[o].isFresh && e.coin.IsSpent() then Written(cache - {o})
    else Written(cache[o := cache[o].(coin := e.coin, isDirty := true)])
  }

  /** The view after taking over one entry. */
  ghost function Applied(view: Utxo, o: OutPoint, e: Entry): Utxo {
    if !e.isDirty then view else if e.coin.IsSpent() then view - {o} else view[o := e.coin]
  }

  /**
   Taking over an entry that is truthful about the parent's view never finds a misapplied flag,
   keeps the parent truthful about the view below it, and changes the parent's view at `o` only.
   */
  lemma WriteEntryKeeps(base: Utxo, cache: Cache, o: OutPoint, e: Entry)
    requires CacheOk(base, cache) && Truthful(Overlay(base, cache), o, e)
    ensures WriteEntry(cache, o, e).Written?
    ensures var after := WriteEntry(cache, o, e).cache;
            CacheOk(base, after) && Overlay(base, after) == Applied(Overlay(base, cache), o, e)
  {
    hide Overlay;
    if o in cache {
      assert Truthful(base, o, cache[o]);
    }
    var after := WriteEntry(cache, o, e).cache;
    forall x | x in after ensures Truthful(base, x, after[x]) {
      assert x != o ==> x in cache && after[x] == cache[x];
    }
    WriteEntryShows(base, cache, o, e);
  }

  lemma WriteEntryShows(base: Utxo, cache: Cache, o: OutPoint, e: Entry)
    requires o in cache ==> Truthful(base, o, cache[o])
    requires Truthful(Overlay(base, cache), o, e) && WriteEntry(cache, o, e).Written?
    ensures Overlay(base, WriteEntry(cache, o, e).cache) == Applied(Overlay(base, cache), o, e)
  {
    hide Overlay;
    var view := Overlay(base, cache);
    var after, want := Overlay(base, WriteEntry(cache, o, e).cache), Applied(view, o, e);
    if e.isDirty {
      assert o in after <==> !e.coin.IsSpent();
      assert o in after ==> after[o] == e.coin;
      hide WriteEntry, Truthful;
      forall x | x != o ensures (x in after <==> x in want) && (x in after ==> after[x] == want[x]) {
        WriteEntryLeaves(base, cache, o, e, x);
      }
      assert after == want;
    }
  }

  lemma WriteEntryLeaves(base: Utxo, cache: Cache, o: OutPoint, e: Entry, x: OutPoint)
    requires WriteEntry(cache, o, e).Written? && x != o
    ensures var view, after := Overlay(base, cache), Overlay(base, WriteEntry(cache, o, e).cache);
            (x in after <==> x in view) && (x in after ==> after[x] == view[x])
  {
    hide Overlay;
  }

  /** Once entry `o` is written, the rest of the child is still truthful, and the whole view is the same. */
  lemma WriteRest(view: Utxo, child: Cache, o: OutPoint)
    requires CacheOk(view, child) && o in child
    ensures var after := Applied(view, o, child[o]);
            CacheOk(after, child - {o}) && Overlay(after, child - {o}) == Overlay(view, child)
  {
    assert Truthful(view, o, child[o]);
    var after, rest := Applied(view, o, child[o]), child - {o};
    forall x | x in rest ensures Truthful(after, x, rest[x]) {
      assert Truthful(view, x, child[x]);
    }
  }
}
