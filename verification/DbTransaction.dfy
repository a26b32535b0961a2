/** Transactions over a database or over one another, and the iterator that merges what they hold. */
module DbTransaction {
  import opened DbOverlay

  // ----- the database -----

  type Disk = map<Bytes, Bytes>

  datatype BatchOp = Put(key: Bytes, value: Bytes) | Delete(key: Bytes)

  function Done(t: Disk, op: BatchOp): Disk {
    if op.Put? then t[op.key := op.value] else t - {op.key}
  }

  /** What a database holds after the operations, in order. */
  function Apply(t: Disk, ops: seq<BatchOp>): Disk {
    if ops == [] then t else Done(Apply(t, ops[..|ops| - 1]), ops[|ops| - 1])
  }

  /** The stored values as a reader gets them: they fit any type. */
  ghost function Loaded(t: Disk): (r: Table)
    ensures r.Keys == t.Keys
  {
    map k | k in t :: Value(t[k], Stored)
  }

  /** The bytes alone. */
  ghost function Bare(t: Table): Disk {
    map k | k in t :: t[k].bytes
  }

  lemma ApplyOne(t: Disk, ops: seq<BatchOp>, op: BatchOp)
    ensures Apply(t, ops + [op]) == Done(Apply(t, ops), op)
  {
    assert (ops + [op])[..|ops|] == ops;
  }

  /** Operations collected to be written together. */
  class CDBBatch {
    var ops: seq<BatchOp>

    constructor ()
      ensures ops == []
    {
      ops := [];
    }

    method Write(key: Bytes, value: Bytes)
      modifies this
      ensures forall t :: Apply(t, ops) == Apply(t, old(ops))[key := value]
    {
      forall t ensures Apply(t, ops + [Put(key, value)]) == Apply(t, ops)[key := value] {
        ApplyOne(t, ops, Put(key, value));
      }
      ops := ops + [Put(key, value)];
    }

    method Erase(key: Bytes)
      modifies this
      ensures forall t :: Apply(t, ops) == Apply(t, old(ops)) - {key}
    {
      forall t ensures Apply(t, ops + [Delete(key)]) == Apply(t, ops) - {key} {
        ApplyOne(t, ops, Delete(key));
      }
      ops := ops + [Delete(key)];
    }

    method Clear()
      modifies this
      ensures ops == []
    {
      ops := [];
    }
  }

  /** The database: a map, read key by key and written by batches. */
  class CDBWrapper {
    var table: Disk

    constructor (table: Disk)
      ensures this.table == table
    {
      this.table := table;
    }

    /** Writes all operations or, if the disk fails, none; false is the error that is thrown then. */
    method WriteBatch(batch: CDBBatch, fails: bool) returns (ok: bool)
      modifies this
      ensures ok == !fails && table == if ok then Apply(old(table), batch.ops) else old(table)
    {
      if fails {
        return false;
      }
      for i := 0 to |batch.ops|
        invariant table == Apply(old(table), batch.ops[..i])
      {
        ApplyOne(old(table), batch.ops[..i], batch.ops[i]);
        assert batch.ops[..i + 1] == batch.ops[..i] + [batch.ops[i]];
        match batch.ops[i]
        case Put(k, v) => table := table[k := v];
        case Delete(k) => table := table - {k};
      }
      assert batch.ops[..|batch.ops|] == batch.ops;
      ok := true;
    }
  }

  /** A pending value read as another type than it was written as is an error. */
  datatype ReadResult = Missing | Found(value: Bytes) | WrongType

  function LookUp(t: Table, k: Bytes, id: nat): ReadResult {
    if k !in t then Missing
    else if t[k].kind == Stored || t[k].kind == Typed(id) then Found(t[k].bytes)
    else WrongType
  }

  class CDBTransaction {
    /** What is below: another transaction, or the database when there is none. */
    const parent: CDBTransaction?
    const db: CDBWrapper
    /** Where changes over the database are passed on to. */
    const batch: CDBBatch
    ghost const Repr: set<object>
    ghost const depth: nat
    var writes: Writes
    var deletes: set<Bytes>
    var memoryUsage: int

    ghost predicate Wired()
      decreases depth
    {
      && (parent == null ==> Repr == {this, db, batch})
      && (parent != null ==>
            && Repr == {this} + parent.Repr && this !in parent.Repr
            && parent.db == db && parent.batch == batch && parent.depth < depth && parent.Wired())
    }

    /** The object that pending changes are passed on to. */
    ghost function Below(): set<object> {
      if parent != null then {parent} else {batch}
    }

    /** What the object below shows, once a batch is written. */
    ghost function Target(): Table
      requires Wired()
      reads Repr
    {
      if parent != null then parent.View() else Loaded(Apply(db.table, batch.ops))
    }

    /** Pending writes as they arrive below: a batch takes bytes. */
    ghost function Landed(writes: Writes): (w: Writes)
      ensures w.Keys == writes.Keys
      ensures forall k :: k in writes ==> w[k].value.bytes == writes[k].value.bytes
    {
      if parent != null then writes
      else map k | k in writes :: Holder(Value(writes[k].value.bytes, Stored), writes[k].memoryUsage)
    }

    ghost function ParentView(): Table
      requires Wired()
      reads Repr
      decreases depth, 0
    {
      if parent != null then parent.View() else Loaded(db.table)
    }

    /** The map a reader of the transaction sees. */
    ghost function View(): Table
      requires Wired()
      reads Repr
      decreases depth, 1
    {
      Overlay(ParentView(), writes, deletes)
    }

    /** No key is both written and deleted, and the accounting is exact. */
    ghost predicate Accounted()
      reads this
    {
      writes.Keys !! deletes && memoryUsage == Usage(writes, deletes)
    }

    ghost predicate Valid()
      requires Wired()
      reads Repr
      decreases depth
    {
      Accounted() && (parent != null ==> parent.Valid())
    }

    constructor OverDatabase(base: CDBWrapper, target: CDBBatch)
      ensures Wired() && Valid() && parent == null && db == base && batch == target && View() == Loaded(base.table)
      ensures fresh(Repr - {base, target})
    {
      parent, db, batch, writes, deletes, memoryUsage := null, base, target, map[], {}, 0;
      Repr, depth := {this, base, target}, 0;
    }

    constructor OverTransaction(base: CDBTransaction)
      requires base.Wired() && base.Valid()
      ensures Wired() && Valid() && parent == base && View() == base.View()
      ensures fresh(Repr - base.Repr)
    {
      parent, db, batch, writes, deletes, memoryUsage := base, base.db, base.batch, map[], {}, 0;
      Repr, depth := {this} + base.Repr, base.depth + 1;
      new;
      OverlayNothing(base.View());
    }

    /** `value.kind` tells the type it is written as. */
    method Write(key: Bytes, value: Value)
      requires Wired() && Valid()
      modifies this
      ensures Valid() && View() == old(View())[key := value]
      ensures ParentView() == old(ParentView())
    {
      hide Overlay, WritesUsage, DeletesUsage;
      var valueMemoryUsage := |value.bytes|;
      OverlayWrite(ParentView(), writes, deletes, key, Holder(value, valueMemoryUsage));
      UsageWithout(writes, deletes, key);
      UsageOfWrite(writes, key, Holder(value, valueMemoryUsage));
      if key in deletes {
        deletes := deletes - {key};
        memoryUsage := memoryUsage - |key|;
      }
      if key in writes {
        memoryUsage := memoryUsage - (|key| + writes[key].memoryUsage);
      }
      writes := writes[key := Holder(value, valueMemoryUsage)];
      memoryUsage := memoryUsage + |key| + valueMemoryUsage;
    }

    method Read(key: Bytes, id: nat) returns (r: ReadResult)
      requires Wired() && Valid()
      ensures r == LookUp(View(), key, id)
      decreases depth
    {
      if key in deletes {
        return Missing;
      }
      if key in writes {
        var held := writes[key].value;
        if held.kind != Stored && held.kind != Typed(id) {
          return WrongType;
        }
        return Found(held.bytes);
      }
      if parent != null {
        r := parent.Read(key, id);
      } else {
        r := if key in db.table then Found(db.table[key]) else Missing;
      }
    }

    method Exists(key: Bytes) returns (r: bool)
      requires Wired() && Valid()
      ensures r <==> key in View()
      decreases depth
    {
      if key in deletes {
        return false;
      }
      if key in writes {
        return true;
      }
      if parent != null {
        r := parent.Exists(key);
      } else {
        r := key in db.table;
      }
    }

    method Erase(key: Bytes)
      requires Wired() && Valid()
      modifies this
      ensures Valid() && View() == old(View()) - {key}
      ensures ParentView() == old(ParentView())
    {
      hide Overlay, WritesUsage, DeletesUsage;
      OverlayErase(ParentView(), writes, deletes, key);
      UsageWithout(writes, deletes, key);
      if key in writes {
        memoryUsage := memoryUsage - (|key| + writes[key].memoryUsage);
        writes := writes - {key};
      }
      if key !in deletes {
        deletes := deletes + {key};
        memoryUsage := memoryUsage + |key|;
      }
    }

    method Clear()
      requires Wired() && (parent != null ==> parent.Valid())
      modifies this
      ensures Valid() && IsClean() && View() == ParentView() == old(ParentView())
    {
      writes, deletes, memoryUsage := map[], {}, 0;
      OverlayNothing(ParentView());
    }

    predicate IsClean()
      reads this
    {
      writes.Keys == {} && deletes == {}
    }

    function GetMemoryUsage(): (n: nat)
      reads this
      ensures Accounted() ==> n == Usage(writes, deletes)
    {
      if memoryUsage < 0 then 0 else memoryUsage
    }

    /** Passes one pending change on to whatever is below. */
    method PassErase(key: Bytes)
      requires Wired() && (parent != null ==> parent.Valid())
      modifies Below()
      ensures Target() == old(Target()) - {key} && (parent != null ==> parent.Valid())
    {
      if parent != null {
        parent.Erase(key);
      } else {
        batch.Erase(key);
      }
    }

    method PassWrite(key: Bytes, value: Value)
      requires Wired() && (parent != null ==> parent.Valid())
      modifies Below()
      ensures Target() == old(Target())[key := if parent != null then value else Value(value.bytes, Stored)]
      ensures parent != null ==> parent.Valid()
    {
      if parent != null {
        parent.Write(key, value);
      } else {
        batch.Write(key, value.bytes);
      }
    }

    /**
     Passes every pending change down. Over another transaction the readers of this one notice
     nothing; over the database the changes wait in the batch.
     */
    method Commit()
      requires Wired() && Valid()
      modifies this, Below()
      ensures Valid() && IsClean()
      ensures Target() == Overlay(old(Target()), Landed(old(writes)), old(deletes))
      ensures parent != null ==> View() == old(View()) && ParentView() == old(View())
      ensures parent == null ==> db.table == old(db.table) && View() == Loaded(db.table)
    {
      hide Overlay, Usage;
      OverlayCommit(Target(), Landed(writes), deletes);
      PassErases();
      PassWrites();
      Clear();
    }

    method PassErases()
      requires Wired() && Valid()
      modifies Below()
      ensures Valid() && Target() == old(Target()) - deletes
    {
      hide Overlay, Usage;
      var rest := deletes;
      ghost var done: set<Bytes> := {};
      while rest != {}
        invariant Valid() && done + rest == deletes
        invariant Target() == old(Target()) - done
      {
        assert (forall x :: x !in rest) ==> rest == {};
        var k :| k in rest;
        PassErase(k);
        rest, done := rest - {k}, done + {k};
      }
    }

    method PassWrites()
      requires Wired() && Valid()
      modifies Below()
      ensures Valid() && Target() == Overlay(old(Target()), Landed(writes), {})
    {
      hide Overlay, OverlayOf, Usage;
      var rest := writes.Keys;
      ghost var base, landed := Target(), Landed(writes);
      OverlayNone(base, landed);
      while rest != {}
        invariant Valid() && rest <= writes.Keys
        invariant Target() == OverlayOf(base, landed, writes.Keys - rest)
      {
        assert (forall x :: x !in rest) ==> rest == {};
        var k :| k in rest;
        PassWrite(k, writes[k].value);
        OverlayNext(base, landed, writes.Keys - rest, k);
        assert writes.Keys - (rest - {k}) == (writes.Keys - rest) + {k};
        rest := rest - {k};
      }
      assert writes.Keys - rest == landed.Keys;
      OverlayAll(base, landed);
    }

    /** What the database is due to hold: with the batch written, and the pending changes over it. */
    ghost function Due(): Disk
      reads this, db, batch
    {
      Bare(Overlay(Loaded(Apply(db.table, batch.ops)), writes, deletes))
    }

    /**
     Commits over the database and writes the batch: the database holds what it was due to hold.
     If the disk fails nothing due is lost, but it is no longer seen until a later write succeeds.
     */
    method CommitRoot(fails: bool) returns (ok: bool)
      requires Wired() && Valid() && parent == null
      modifies this, db, batch
      ensures ok == !fails && Valid() && IsClean() && View() == Loaded(db.table)
      ensures db.table == (if ok then old(Due()) else old(db.table)) && Due() == old(Due())
      ensures ok ==> batch.ops == []
      ensures old(batch.ops) == [] ==> old(Due()) == Bare(old(View()))
    {
      hide Overlay, Usage, Loaded, Bare;
      ghost var due := Due();
      LandedOverlay(Apply(db.table, batch.ops), writes, deletes, Landed(writes));
      Commit();
      LoadedOnce(Apply(db.table, batch.ops), due);
      ok := db.WriteBatch(batch, fails);
      if ok {
        batch.Clear();
      }
      OverlayNothing(Loaded(db.table));
      OverlayNothing(Loaded(Apply(db.table, batch.ops)));
      BareLoaded(Apply(db.table, batch.ops));
    }
  }

  /** Dropping the types of pending writes drops them from what is seen. */
  lemma LandedOverlay(t: Disk, writes: Writes, deletes: set<Bytes>, landed: Writes)
    requires landed.Keys == writes.Keys
    requires forall k :: k in writes ==> landed[k].value == Value(writes[k].value.bytes, Stored)
    ensures Overlay(Loaded(t), landed, deletes) == Loaded(Bare(Overlay(Loaded(t), writes, deletes)))
  {
  }

  lemma BareLoaded(t: Disk)
    ensures Bare(Loaded(t)) == t
  {
  }

  lemma LoadedOnce(a: Disk, b: Disk)
    requires Loaded(a) == Loaded(b)
    ensures a == b
  {
    forall k | k in a ensures k in b && a[k] == b[k] {
      assert k in Loaded(a) && Loaded(a)[k] == Loaded(b)[k];
    }
    assert Loaded(a).Keys == Loaded(b).Keys;
  }

  lemma OverlayNothing(t: Table)
    ensures Overlay(t, map[], {}) == t
  {
  }

  /** The parent with some of the writes applied. */
  ghost function OverlayOf(t: Table, writes: Writes, done: set<Bytes>): Table {
    map k | k in t.Keys + (writes.Keys * done) :: if k in writes && k in done then writes[k].value else t[k]
  }

  lemma OverlayNone(t: Table, writes: Writes)
    ensures OverlayOf(t, writes, writes.Keys - writes.Keys) == t
  {
  }

  lemma OverlayWrite(t: Table, writes: Writes, deletes: set<Bytes>, k: Bytes, h: Holder)
    ensures Overlay(t, writes[k := h], deletes - {k}) == Overlay(t, writes, deletes)[k := h.value]
    ensures k !in deletes ==> deletes - {k} == deletes
  {
  }

  lemma OverlayErase(t: Table, writes: Writes, deletes: set<Bytes>, k: Bytes)
    ensures Overlay(t, writes - {k}, deletes + {k}) == Overlay(t, writes, deletes) - {k}
    ensures k !in writes ==> writes - {k} == writes
    ensures k in deletes ==> deletes + {k} == deletes
  {
  }

  /** Deleting and then writing in the parent gives what the overlay shows. */
  lemma OverlayCommit(t: Table, writes: Writes, deletes: set<Bytes>)
    ensures Overlay(t - deletes, writes, {}) == Overlay(t, writes, deletes)
  {
  }

  lemma OverlayNext(t: Table, writes: Writes, done: set<Bytes>, k: Bytes)
    requires k in writes
    ensures OverlayOf(t, writes, done + {k}) == OverlayOf(t, writes, done)[k := writes[k].value]
  {
  }

  lemma OverlayAll(t: Table, writes: Writes)
    ensures OverlayOf(t, writes, writes.Keys) == Overlay(t, writes, {})
  {
  }
}
