/**
 Stacked coin caches as the program builds them: each cache object reads through to the view
 below it, another cache or the database. `View()` is what a reader sees; every operation is
 proved to act on it as on a plain map.
 */
module CoinsView {
  import opened Coins

  class CoinsViewDB {
    var coins: map<OutPoint, Coin>

    constructor (coins: map<OutPoint, Coin>)
      ensures this.coins == coins
    {
      this.coins := coins;
    }

    ghost function View(): Utxo
      reads this
    {
      map o | o in coins && !coins[o].IsSpent() :: coins[o]
    }

    method GetCoin(outpoint: OutPoint) returns (found: bool, coin: Coin)
      ensures found ==> (outpoint in View() <==> !coin.IsSpent()) && (outpoint in View() ==> View()[outpoint] == coin)
      ensures !found ==> outpoint !in View()
    {
      found := outpoint in coins;
      coin := if found then coins[outpoint] else COIN_EMPTY;
    }

    /** Applies a cache's changed entries: a spent one erases the stored coin. */
    method BatchWrite(mapCoins: Cache)
      requires CacheOk(View(), mapCoins)
      modifies this
      ensures View() == Overlay(old(View()), mapCoins)
    {
      hide Overlay;
      var rest := mapCoins;
      OverlayNothing(View());
      while rest.Keys != {}
        invariant CacheOk(View(), rest) && Overlay(View(), rest) == Overlay(old(View()), mapCoins)
        decreases |rest|
      {
        assert (forall x :: x !in rest.Keys) ==> rest.Keys == {};
        var o :| o in rest.Keys;
        ghost var before := View();
        WriteRest(before, rest, o);
        Put(o, rest[o]);
        assert |rest - {o}| < |rest| by { Shrinks(rest, o); }
        rest := rest - {o};
      }
      assert rest == map[];
      OverlayNothing(View());
    }

    method Put(o: OutPoint, e: Entry)
      modifies this
      ensures View() == Applied(old(View()), o, e)
    {
      if e.isDirty {
        if e.coin.IsSpent() {
          coins := coins - {o};
        } else {
          coins := coins[o := e.coin];
        }
      }
    }
  }

  lemma OverlayNothing(view: Utxo)
    ensures Overlay(view, map[]) == view
  {
  }

  lemma Shrinks<K, V>(m: map<K, V>, k: K)
    requires k in m
    ensures |m - {k}| == |m| - 1
  {
    assert (m - {k}).Keys == m.Keys - {k};
  }

  datatype Outcome = Done | LogicError

  class CoinsViewCache {
    const parent: CoinsViewCache?
    const db: CoinsViewDB?
    ghost const Repr: set<object>
    ghost const depth: nat
    var cacheCoins: Cache

    /** The objects form a stack: a cache over a cache over ... over a database. */
    ghost predicate Wired()
      decreases depth
    {
      && (parent == null <==> db != null)
      && (db != null ==> Repr == {this, db})
      && (parent != null ==>
            && Repr == {this} + parent.Repr && this !in parent.Repr
            && parent.depth < depth && parent.Wired())
    }

    ghost function BaseView(): Utxo
      requires Wired()
      reads Repr
      decreases depth, 0
    {
      if parent != null then parent.View() else db.View()
    }

    /** The coins a reader of this cache sees. */
    ghost function View(): Utxo
      requires Wired()
      reads Repr
      decreases depth, 1
    {
      Overlay(BaseView(), cacheCoins)
    }

    /** In this cache and all below it, every flag is truthful. */
    ghost predicate Valid()
      requires Wired()
      reads Repr
      decreases depth
    {
      CacheOk(BaseView(), cacheCoins) && (parent != null ==> parent.Valid())
    }

    constructor OverCache(base: CoinsViewCache)
      requires base.Wired() && base.Valid()
      ensures Wired() && Valid() && View() == base.View() && parent == base && cacheCoins == map[]
      ensures fresh(Repr - base.Repr)
    {
      parent, db, cacheCoins := base, null, map[];
      Repr, depth := {this} + base.Repr, base.depth + 1;
      new;
      OverlayNothing(base.View());
    }

    constructor OverDB(base: CoinsViewDB)
      ensures Wired() && Valid() && View() == base.View() && db == base && cacheCoins == map[]
      ensures fresh(Repr - {base})
    {
      parent, db, cacheCoins := null, base, map[];
      Repr, depth := {this, base}, 0;
      new;
      OverlayNothing(base.View());
    }

    /** Brings the coin, if the views below know of one, into this cache. */
    method FetchCoin(outpoint: OutPoint) returns (found: bool)
      requires Wired() && Valid()
      modifies Repr
      ensures Valid() && View() == old(View()) && BaseView() == old(BaseView())
      ensures found == (outpoint in cacheCoins)
      ensures !found ==> outpoint !in View()
      decreases depth, 0
    {
      hide Overlay;
      if outpoint in cacheCoins {
        return true;
      }
      var tmp;
      if parent != null {
        found, tmp := parent.GetCoin(outpoint);
      } else {
        found, tmp := db.GetCoin(outpoint);
      }
      if !found {
        return;
      }
      FetchKeeps(BaseView(), cacheCoins, outpoint, tmp);
      cacheCoins := cacheCoins[outpoint := Fetched(tmp)];
    }

    method GetCoin(outpoint: OutPoint) returns (found: bool, coin: Coin)
      requires Wired() && Valid()
      modifies Repr
      ensures Valid() && View() == old(View()) && BaseView() == old(BaseView())
      ensures found ==> (outpoint in View() <==> !coin.IsSpent()) && (outpoint in View() ==> View()[outpoint] == coin)
      ensures !found ==> outpoint !in View()
      decreases depth, 1
    {
      hide Overlay;
      found := FetchCoin(outpoint);
      coin := if found then cacheCoins[outpoint].coin else COIN_EMPTY;
    }

    method HaveCoin(outpoint: OutPoint) returns (have: bool)
      requires Wired() && Valid()
      modifies Repr
      ensures Valid() && View() == old(View()) && BaseView() == old(BaseView())
      ensures have <==> outpoint in View()
    {
      hide Overlay;
      var found := FetchCoin(outpoint);
      have := found && !cacheCoins[outpoint].coin.IsSpent();
    }

    method AccessCoin(outpoint: OutPoint) returns (coin: Coin)
      requires Wired() && Valid()
      modifies Repr
      ensures Valid() && View() == old(View()) && BaseView() == old(BaseView())
      ensures coin.IsSpent() <==> outpoint !in View()
      ensures outpoint in View() ==> coin == View()[outpoint]
    {
      hide Overlay;
      var found := FetchCoin(outpoint);
      coin := if found then cacheCoins[outpoint].coin else COIN_EMPTY;
    }

    /**
     Adds a coin. The cache notices an overwrite without permission only where it holds an entry;
     elsewhere the addition shows, but the flags stay truthful exactly if the view below has no
     coin there.
     */
    method AddCoin(outpoint: OutPoint, coin: Coin, overwrite: bool) returns (r: Outcome)
      requires Wired() && !coin.IsSpent()
      modifies this
      ensures BaseView() == old(BaseView())
      ensures r == LogicError <==>
                !coin.out.IsUnspendable() && !overwrite && outpoint in old(cacheCoins) && outpoint in old(View())
      ensures r == LogicError || coin.out.IsUnspendable() ==> View() == old(View()) && cacheCoins == old(cacheCoins)
      ensures r == Done && !coin.out.IsUnspendable() ==>
        && View() == old(View())[outpoint := coin]
        && cacheCoins == old(cacheCoins)[outpoint := Added(EntryAt(old(cacheCoins), outpoint), coin, overwrite)]
      ensures old(Valid()) ==>
        (Valid() <==> r == LogicError || coin.out.IsUnspendable()
                      || overwrite || outpoint in old(cacheCoins) || outpoint !in old(BaseView()))
    {
      hide Overlay;
      if coin.out.IsUnspendable() {
        return Done;
      }
      var entry := EntryAt(cacheCoins, outpoint);
      if !overwrite && !entry.coin.IsSpent() {
        return LogicError;
      }
      if CacheOk(BaseView(), cacheCoins) {
        AddKeeps(BaseView(), cacheCoins, outpoint, coin, overwrite);
      }
      AddShows(BaseView(), cacheCoins, outpoint, coin, overwrite);
      var isFresh := !overwrite && !entry.isDirty;
      cacheCoins := cacheCoins[outpoint := Entry(coin, true, entry.isFresh || isFresh)];
      r := Done;
    }

    /** Spends the coin, if there is one; returns what was there. */
    method SpendCoin(outpoint: OutPoint) returns (moveout: Coin)
      requires Wired() && Valid()
      modifies Repr
      ensures Valid() && View() == old(View()) - {outpoint} && BaseView() == old(BaseView())
      ensures outpoint in old(View()) ==> moveout == old(View())[outpoint]
      ensures moveout.IsSpent() <==> outpoint !in old(View())
    {
      hide Overlay;
      var found := FetchCoin(outpoint);
      if !found {
        assert View() - {outpoint} == View();
        return COIN_EMPTY;
      }
      moveout := cacheCoins[outpoint].coin;
      SpendKeeps(BaseView(), cacheCoins, outpoint);
      if cacheCoins[outpoint].isFresh {
        cacheCoins := cacheCoins - {outpoint};
      } else {
        cacheCoins := cacheCoins[outpoint := cacheCoins[outpoint].(isDirty := true, coin := COIN_EMPTY)];
      }
    }

    method Uncache(outpoint: OutPoint)
      requires Wired() && Valid()
      modifies this
      ensures Valid() && View() == old(View()) && BaseView() == old(BaseView())
    {
      hide Overlay;
      if outpoint in cacheCoins && !cacheCoins[outpoint].isDirty && !cacheCoins[outpoint].isFresh {
        UncacheKeeps(BaseView(), cacheCoins, outpoint);
        cacheCoins := cacheCoins - {outpoint};
      }
    }

    /** Takes over a child cache whose flags are truthful about this view; no flag is ever found misapplied. */
    method BatchWrite(mapCoins: Cache) returns (r: Outcome)
      requires Wired() && Valid() && CacheOk(View(), mapCoins)
      modifies this
      ensures r == Done && Valid() && BaseView() == old(BaseView())
      ensures View() == Overlay(old(View()), mapCoins)
    {
      hide Overlay;
      var rest := mapCoins;
      OverlayNothing(View());
      while rest.Keys != {}
        invariant Valid() && BaseView() == old(BaseView())
        invariant CacheOk(View(), rest) && Overlay(View(), rest) == Overlay(old(View()), mapCoins)
        decreases |rest|
      {
        assert (forall x :: x !in rest.Keys) ==> rest.Keys == {};
        var o :| o in rest.Keys;
        WriteRest(View(), rest, o);
        r := TakeOver(o, rest[o]);
        if r == LogicError {
          return;
        }
        assert |rest - {o}| < |rest| by { Shrinks(rest, o); }
        rest := rest - {o};
      }
      assert rest == map[];
      OverlayNothing(View());
      r := Done;
    }

    method TakeOver(o: OutPoint, e: Entry) returns (r: Outcome)
      requires Wired() && Valid() && Truthful(View(), o, e)
      modifies this
      ensures r == Done && Valid() && BaseView() == old(BaseView())
      ensures View() == Applied(old(View()), o, e)
    {
      hide Overlay;
      WriteEntryKeeps(BaseView(), cacheCoins, o, e);
      if e.isDirty {
        if o !in cacheCoins {
          if !(e.isFresh && e.coin.IsSpent()) {
            cacheCoins := cacheCoins[o := Entry(e.coin, true, e.isFresh)];
          }
        } else {
          if e.isFresh && !cacheCoins[o].coin.IsSpent() {
            return LogicError;
          }
          if cacheCoins[o].isFresh && e.coin.IsSpent() {
            cacheCoins := cacheCoins - {o};
          } else {
            cacheCoins := cacheCoins[o := cacheCoins[o].(coin := e.coin, isDirty := true)];
          }
        }
      }
      r := Done;
    }

    /** Pushes all changes into the view below, which then shows what this cache showed. */
    method Flush()
      requires Wired() && Valid()
      modifies Repr
      ensures Valid() && View() == old(View()) && BaseView() == old(View()) && cacheCoins == map[]
    {
      hide Overlay;
      if parent != null {
        var r := parent.BatchWrite(cacheCoins);
      } else {
        db.BatchWrite(cacheCoins);
      }
      cacheCoins := map[];
      OverlayNothing(BaseView());
    }
  }

  // ----- adding all outputs of a transaction -----

  /** The coins of the first `n` outputs of a transaction; unspendable outputs make none. */
  ghost function OutputCoins(txid: nat, vout: seq<TxOut>, nHeight: nat, fCoinbase: bool, n: nat): Utxo
    requires n <= |vout|
  {
    if n == 0 then map[] else
    var before := OutputCoins(txid, vout, nHeight, fCoinbase, n - 1);
    if vout[n - 1].IsUnspendable() then before
    else before[OutPoint(txid, n - 1) := Coin(vout[n - 1], fCoinbase, nHeight)]
  }

  lemma {:induction false} OutputKeys(txid: nat, vout: seq<TxOut>, nHeight: nat, fCoinbase: bool, n: nat)
    requires n <= |vout|
    ensures forall o :: o in OutputCoins(txid, vout, nHeight, fCoinbase, n) ==> o.hash == txid && o.n < n
  {
    if n > 0 {
      OutputKeys(txid, vout, nHeight, fCoinbase, n - 1);
    }
  }

  /** Output `i` would overwrite a coin that the cache can see, without leave to. */
  predicate Clashes(cache: Cache, txid: nat, vout: seq<TxOut>, i: nat)
    requires i < |vout|
  {
    var o := OutPoint(txid, i);
    !vout[i].IsUnspendable() && o in cache && !cache[o].coin.IsSpent()
  }

  /** Output `i` would overwrite a coin that only the view below has. */
  ghost predicate Hides(cache: Cache, base: Utxo, txid: nat, vout: seq<TxOut>, i: nat)
    requires i < |vout|
  {
    var o := OutPoint(txid, i);
    !vout[i].IsUnspendable() && o !in cache && o in base
  }

  /**
   Adds every output. Only a coinbase may replace unspent coins, unless the caller asks for a
   check of each output first. Otherwise the first output to replace a coin that the cache can
   see stops with an error, after `n` outputs, and the flags stay truthful exactly if no output
   hides a coin of the view below.
   */
  method AddCoins(cache: CoinsViewCache, txid: nat, vout: seq<TxOut>, fCoinbase: bool, nHeight: nat, check: bool)
    returns (r: Outcome, n: nat)
    requires cache.Wired() && cache.Valid() && forall i :: 0 <= i < |vout| ==> !vout[i].IsNull()
    modifies cache.Repr
    ensures cache.BaseView() == old(cache.BaseView())
    ensures n <= |vout| && (r == Done <==> n == |vout|)
    ensures cache.View() == old(cache.View()) + OutputCoins(txid, vout, nHeight, fCoinbase, n)
    ensures check || fCoinbase ==> r == Done && cache.Valid()
    ensures !check && !fCoinbase ==>
      && (r == LogicError ==> Clashes(old(cache.cacheCoins), txid, vout, n))
      && (forall i :: 0 <= i < n ==> !Clashes(old(cache.cacheCoins), txid, vout, i))
      && (cache.Valid() <==> forall i :: 0 <= i < n ==> !Hides(old(cache.cacheCoins), old(cache.BaseView()), txid, vout, i))
  {
    hide Overlay, Truthful, Clashes, Hides, Untouched, Untrue, OutputCoins;
    ghost var before, base, entries := cache.View(), cache.BaseView(), cache.cacheCoins;
    NothingAdded(before, entries, txid, vout, nHeight, fCoinbase);
    n := 0;
    while n < |vout|
      invariant n <= |vout| && cache.BaseView() == base
      invariant cache.View() == before + OutputCoins(txid, vout, nHeight, fCoinbase, n)
      invariant check || fCoinbase ==> cache.Valid()
      invariant !check && !fCoinbase ==>
        && Untouched(entries, cache.cacheCoins, txid, n)
        && (forall i :: 0 <= i < n ==> !Clashes(entries, txid, vout, i))
        && (cache.Valid() <==> forall i :: 0 <= i < n ==> !Hides(entries, base, txid, vout, i))
        && (!cache.Valid() ==> exists i :: 0 <= i < n && Untrue(base, cache.cacheCoins, txid, i))
    {
      OutputStep(before, txid, vout, nHeight, fCoinbase, n);
      if check || fCoinbase {
        AddOutput(cache, OutPoint(txid, n), Coin(vout[n], fCoinbase, nHeight), check);
      } else {
        r := AddPlain(cache, txid, vout, n, Coin(vout[n], fCoinbase, nHeight), entries);
        if r == LogicError {
          return;
        }
      }
      n := n + 1;
    }
    r := Done;
  }

  lemma NothingAdded(before: Utxo, entries: Cache, txid: nat, vout: seq<TxOut>, nHeight: nat, fCoinbase: bool)
    ensures before + OutputCoins(txid, vout, nHeight, fCoinbase, 0) == before
    ensures Untouched(entries, entries, txid, 0)
  {
  }

  /** The entries beyond the first `n` outputs are as they were. */
  ghost predicate Untouched(was: Cache, now: Cache, txid: nat, n: nat) {
    forall o: OutPoint :: o.hash != txid || o.n >= n ==> (o in now <==> o in was) && (o in now ==> now[o] == was[o])
  }

  /** The flags of output `i`'s entry are not truthful. */
  ghost predicate Untrue(base: Utxo, cache: Cache, txid: nat, i: nat) {
    var o := OutPoint(txid, i);
    o in cache && !Truthful(base, o, cache[o])
  }

  lemma OutputStep(before: Utxo, txid: nat, vout: seq<TxOut>, nHeight: nat, fCoinbase: bool, i: nat)
    requires i < |vout|
    ensures var view := before + OutputCoins(txid, vout, nHeight, fCoinbase, i);
            var o := OutPoint(txid, i);
            && (o in view <==> o in before)
            && before + OutputCoins(txid, vout, nHeight, fCoinbase, i + 1) ==
               if vout[i].IsUnspendable() then view else view[o := Coin(vout[i], fCoinbase, nHeight)]
  {
    OutputKeys(txid, vout, nHeight, fCoinbase, i);
  }

  /** Adds one output that may overwrite: a coinbase's, or one that was looked up first. */
  method AddOutput(cache: CoinsViewCache, o: OutPoint, coin: Coin, check: bool)
    requires cache.Wired() && cache.Valid() && !coin.IsSpent() && (check || coin.fCoinBase)
    modifies cache.Repr
    ensures cache.Valid() && cache.BaseView() == old(cache.BaseView())
    ensures cache.View() == if coin.out.IsUnspendable() then old(cache.View()) else old(cache.View())[o := coin]
  {
    hide Overlay;
    var overwrite := coin.fCoinBase;
    if check {
      overwrite := cache.HaveCoin(o);
    }
    var r := cache.AddCoin(o, coin, overwrite);
  }

  /** Adds one output that may not overwrite, without looking it up. */
  method AddPlain(cache: CoinsViewCache, txid: nat, vout: seq<TxOut>, n: nat, coin: Coin, ghost entries: Cache)
    returns (r: Outcome)
    requires cache.Wired() && n < |vout| && coin.out == vout[n] && !coin.IsSpent()
    requires Untouched(entries, cache.cacheCoins, txid, n)
    requires !cache.Valid() ==> exists i :: 0 <= i < n && Untrue(cache.BaseView(), cache.cacheCoins, txid, i)
    modifies cache
    ensures cache.BaseView() == old(cache.BaseView())
    ensures r == LogicError <==> Clashes(entries, txid, vout, n)
    ensures r == LogicError ==> cache.cacheCoins == old(cache.cacheCoins)
    ensures cache.View() == if r == LogicError || vout[n].IsUnspendable() then old(cache.View())
                            else old(cache.View())[OutPoint(txid, n) := coin]
    ensures r == Done ==> Untouched(entries, cache.cacheCoins, txid, n + 1)
    ensures r == Done ==> (cache.Valid() <==> old(cache.Valid()) && !Hides(entries, cache.BaseView(), txid, vout, n))
    ensures r == Done && !cache.Valid() ==> exists i :: 0 <= i <= n && Untrue(cache.BaseView(), cache.cacheCoins, txid, i)
  {
    hide Overlay, Truthful, Untouched;
    var o := OutPoint(txid, n);
    ghost var base, was := cache.BaseView(), cache.cacheCoins;
    UntouchedAt(entries, was, txid, n);
    r := cache.AddCoin(o, coin, false);
    UntouchedNext(entries, was, cache.cacheCoins, txid, n);
    if r == Done && !vout[n].IsUnspendable() {
      EntryAdded(base, was, o, coin);
      if old(cache.Valid()) {
        assert Hides(entries, base, txid, vout, n) ==> Untrue(base, cache.cacheCoins, txid, n);
      } else {
        StillUntrue(base, was, cache.cacheCoins, txid, n);
      }
    }
  }

  lemma UntouchedAt(entries: Cache, cache: Cache, txid: nat, n: nat)
    requires Untouched(entries, cache, txid, n)
    ensures var o := OutPoint(txid, n); (o in cache <==> o in entries) && (o in cache ==> cache[o] == entries[o])
  {
  }

  lemma UntouchedNext(entries: Cache, cache: Cache, after: Cache, txid: nat, n: nat)
    requires Untouched(entries, cache, txid, n)
    requires var o := OutPoint(txid, n); after == cache || (o in after && after == cache[o := after[o]])
    ensures Untouched(entries, after, txid, n + 1)
  {
  }

  lemma EntryAdded(base: Utxo, cache: Cache, o: OutPoint, coin: Coin)
    requires !coin.IsSpent() && EntryAt(cache, o).coin.IsSpent()
    ensures o !in cache && o in base ==> !Truthful(base, o, Added(EntryAt(cache, o), coin, false))
  {
  }

  /** An untruthful entry stays so when another is written. */
  lemma StillUntrue(base: Utxo, cache: Cache, after: Cache, txid: nat, n: nat)
    requires exists i :: 0 <= i < n && Untrue(base, cache, txid, i)
    requires OutPoint(txid, n) in after && after == cache[OutPoint(txid, n) := after[OutPoint(txid, n)]]
    ensures exists i :: 0 <= i < n && Untrue(base, after, txid, i)
    ensures !CacheOk(base, after)
  {
    hide Truthful;
    var i :| 0 <= i < n && Untrue(base, cache, txid, i);
    assert Untrue(base, after, txid, i);
    assert OutPoint(txid, i) in after;
  }

  // ----- whole runs -----

  datatype Op =
    | Get(o: OutPoint)
    | Have(o: OutPoint)
    | Add(o: OutPoint, coin: Coin, overwrite: bool)
    | Spend(o: OutPoint)
    | Uncache(o: OutPoint)
    | Flush
    | Lower(layers: nat, quiet: Quiet)  // on a cache so many layers below

  /** What may be done to a lower cache while others stand on it. */
  datatype Quiet = ReadAt(o: OutPoint) | UncacheAt(o: OutPoint) | FlushDown

  /** The answer to a read: the unspent coin, if any. */
  datatype Answer = Nothing | Found(coin: Coin)

  ghost function Lookup(m: Utxo, o: OutPoint): Answer {
    if o in m then Found(m[o]) else Nothing
  }

  /** The same operation on a plain map of unspent coins. */
  ghost function PlainStep(m: Utxo, op: Op): Utxo {
    match op
    case Add(o, coin, _) => if coin.out.IsUnspendable() then m else m[o := coin]
    case Spend(o) => m - {o}
    case _ => m
  }

  ghost function PlainAnswer(m: Utxo, op: Op): Answer {
    match op
    case Get(o) => Lookup(m, o)
    case Have(o) => if o in m then Found(COIN_EMPTY) else Nothing
    case Spend(o) => Lookup(m, o)
    case _ => Nothing
  }

  /** An addition is of an unspent coin, and keeps the promise not to overwrite. */
  ghost predicate Allowed(m: Utxo, op: Op) {
    op.Add? ==> !op.coin.IsSpent() && (!op.overwrite && !op.coin.out.IsUnspendable() ==> op.o !in m)
  }

  /** All answers of a run on a plain map. */
  ghost function PlainAnswers(m: Utxo, ops: seq<Op>): seq<Answer>
    decreases |ops|
  {
    if ops == [] then [] else [PlainAnswer(m, ops[0])] + PlainAnswers(PlainStep(m, ops[0]), ops[1..])
  }

  ghost function PlainRun(m: Utxo, ops: seq<Op>): Utxo
    decreases |ops|
  {
    if ops == [] then m else PlainRun(PlainStep(m, ops[0]), ops[1..])
  }

  ghost predicate AllAllowed(m: Utxo, ops: seq<Op>)
    decreases |ops|
  {
    ops == [] || (Allowed(m, ops[0]) && AllAllowed(PlainStep(m, ops[0]), ops[1..]))
  }

  /** Reading, dropping and flushing on a lower cache change no view above it. */
  method PerformBelow(cache: CoinsViewCache, layers: nat, quiet: Quiet)
    requires cache.Wired() && cache.Valid()
    modifies cache.Repr
    ensures cache.Valid() && cache.View() == old(cache.View())
    decreases layers
  {
    hide Overlay;
    if layers > 0 {
      if cache.parent != null {
        PerformBelow(cache.parent, layers - 1, quiet);
      }
    } else {
      match quiet
      case ReadAt(o) => var _ := cache.AccessCoin(o);
      case UncacheAt(o) => cache.Uncache(o);
      case FlushDown => cache.Flush();
    }
  }

  method Perform(cache: CoinsViewCache, op: Op) returns (answer: Answer)
    requires cache.Wired() && cache.Valid() && Allowed(cache.View(), op)
    modifies cache.Repr
    ensures cache.Valid() && cache.View() == PlainStep(old(cache.View()), op)
    ensures answer == PlainAnswer(old(cache.View()), op)
  {
    hide Overlay;
    answer := Nothing;
    match op
    case Get(o) =>
      var found, coin := cache.GetCoin(o);
      answer := if found && !coin.IsSpent() then Found(coin) else Nothing;
    case Have(o) =>
      var have := cache.HaveCoin(o);
      answer := if have then Found(COIN_EMPTY) else Nothing;
    case Add(o, coin, overwrite) =>
      var r := cache.AddCoin(o, coin, overwrite);
    case Spend(o) =>
      var moveout := cache.SpendCoin(o);
      answer := if moveout.IsSpent() then Nothing else Found(moveout);
    case Uncache(o) => cache.Uncache(o);
    case Flush => cache.Flush();
    case Lower(layers, quiet) => PerformBelow(cache, layers, quiet);
  }

  /**
   Every run on a stack of caches of any height answers exactly as the same run on one plain map,
   with reads, drops and flushes on lower caches in between.
   */
  method Replay(cache: CoinsViewCache, ops: seq<Op>) returns (answers: seq<Answer>)
    requires cache.Wired() && cache.Valid() && AllAllowed(cache.View(), ops)
    modifies cache.Repr
    ensures cache.Valid() && cache.View() == PlainRun(old(cache.View()), ops)
    ensures answers == PlainAnswers(old(cache.View()), ops)
  {
    hide Overlay, PlainStep, PlainAnswer, Allowed;
    ghost var m := cache.View();
    answers := [];
    for i := 0 to |ops|
      invariant cache.Valid() && AllAllowed(cache.View(), ops[i..])
      invariant PlainRun(m, ops) == PlainRun(cache.View(), ops[i..])
      invariant PlainAnswers(m, ops) == answers + PlainAnswers(cache.View(), ops[i..])
    {
      assert ops[i..][1..] == ops[i + 1..];
      var answer := Perform(cache, ops[i]);
      answers := answers + [answer];
    }
  }
}
