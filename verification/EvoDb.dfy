/** The deterministic masternode database: a current transaction over a root one over the database. */
module EvoDb {
  import opened DbOverlay
  import opened DbTransaction

  /** What is on disk, what was committed since, and what readers see. */
  datatype Layers = Layers(disk: Disk, root: Table, cur: Table)

  class CEvoDB {
    const db: CDBWrapper
    const rootBatch: CDBBatch
    const rootDBTransaction: CDBTransaction
    const curDBTransaction: CDBTransaction

    ghost predicate Wired() {
      && curDBTransaction.Wired() && rootDBTransaction.Wired()
      && curDBTransaction.parent == rootDBTransaction && rootDBTransaction.parent == null
      && rootDBTransaction.db == db && rootDBTransaction.batch == rootBatch
    }

    ghost function Repr(): set<object> { {db, rootBatch, rootDBTransaction, curDBTransaction} }

    ghost predicate Valid()
      requires Wired()
      reads Repr()
    {
      curDBTransaction.Valid() && rootDBTransaction.Valid() && rootBatch.ops == []
    }

    ghost function State(): Layers
      requires Wired()
      reads Repr()
    {
      Layers(db.table, rootDBTransaction.View(), curDBTransaction.View())
    }

    constructor (disk: Disk)
      ensures Wired() && Valid() && fresh(Repr()) && State() == Layers(disk, Loaded(disk), Loaded(disk))
    {
      hide Overlay, Usage, Loaded, CDBTransaction.View, CDBTransaction.Valid;
      var base := new CDBWrapper(disk);
      var batch := new CDBBatch();
      var root := new CDBTransaction.OverDatabase(base, batch);
      var cur := new CDBTransaction.OverTransaction(root);
      db, rootBatch, rootDBTransaction, curDBTransaction := base, batch, root, cur;
    }

    method Read(key: Bytes, id: nat) returns (r: ReadResult)
      requires Wired() && Valid()
      ensures r == LookUp(State().cur, key, id)
    {
      r := curDBTransaction.Read(key, id);
    }

    method Write(key: Bytes, value: Value)
      requires Wired() && Valid()
      modifies Repr()
      ensures Valid() && State() == old(State()).(cur := old(State()).cur[key := value])
    {
      curDBTransaction.Write(key, value);
    }

    method Erase(key: Bytes)
      requires Wired() && Valid()
      modifies Repr()
      ensures Valid() && State() == old(State()).(cur := old(State()).cur - {key})
    {
      curDBTransaction.Erase(key);
    }

    method CommitTransaction()
      requires Wired() && Valid()
      modifies Repr()
      ensures Valid() && curDBTransaction.IsClean() && State() == old(State()).(root := old(State()).cur)
    {
      curDBTransaction.Commit();
    }

    method ClearTransaction()
      requires Wired() && Valid()
      modifies Repr()
      ensures Valid() && curDBTransaction.IsClean() && State() == old(State()).(cur := old(State()).root)
    {
      curDBTransaction.Clear();
    }

    /**
     Brings what was committed to disk; the current transaction is to be empty. If the disk fails,
     readers see the disk as it was, and what was committed waits in the batch.
     */
    method CommitRootTransaction(fails: bool) returns (ok: bool)
      requires Wired() && Valid() && curDBTransaction.IsClean()
      modifies Repr()
      ensures ok == !fails && curDBTransaction.IsClean() && (Valid() <==> rootBatch.ops == [])
      ensures var disk := if ok then Bare(old(State()).root) else old(State()).disk;
              State() == Layers(disk, Loaded(disk), Loaded(disk))
      ensures ok ==> Valid()
      ensures Apply(db.table, rootBatch.ops) == Bare(old(State()).root)
    {
      hide Overlay, Usage, Loaded, Bare;
      ok := rootDBTransaction.CommitRoot(fails);
      CleanShows(curDBTransaction);
      CleanShows(rootDBTransaction);
      CleanDue(rootDBTransaction);
    }
  }

  lemma CleanDue(t: CDBTransaction)
    requires t.Wired() && t.IsClean()
    ensures t.Due() == Apply(t.db.table, t.batch.ops)
  {
    assert t.writes == map[];
    OverlayNothing(Loaded(Apply(t.db.table, t.batch.ops)));
    BareLoaded(Apply(t.db.table, t.batch.ops));
  }

  lemma CleanShows(t: CDBTransaction)
    requires t.Wired() && t.IsClean()
    ensures t.View() == t.ParentView()
  {
    assert t.writes == map[];
    OverlayNothing(t.ParentView());
  }
}
