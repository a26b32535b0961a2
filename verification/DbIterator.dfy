/** Iterators: over the sorted keys of the database, and over a transaction merged with what is below it. */
module DbIterator {
  import opened DbOverlay
  import opened DbTransaction

  /** The least key ahead of a cut: how an ordered container places a cursor, or moves it on. */
  method FirstAhead(s: set<Bytes>, c: Cut) returns (p: Position)
    ensures StandsOn(s, c, p)
  {
    p := End;
    var rest := s;
    while rest != {}
      invariant rest <= s && StandsOn(s - rest, c, p)
    {
      assert (forall x :: x !in rest) ==> rest == {};
      var k :| k in rest;
      Considered(s - rest, c, p, k);
      assert s - (rest - {k}) == (s - rest) + {k};
      rest := rest - {k};
      if Ahead(c, k) && (p.End? || Less(k, p.key)) {
        p := On(k);
      }
    }
    assert s - rest == s;
  }

  lemma Considered(s: set<Bytes>, c: Cut, p: Position, k: Bytes)
    requires StandsOn(s, c, p)
    ensures StandsOn(s + {k}, c, if Ahead(c, k) && (p.End? || Less(k, p.key)) then On(k) else p)
  {
    if p.On? {
      LessTotal(k, p.key);
      forall x | x in s && Less(k, p.key) && Less(p.key, x) ensures Less(k, x) {
        LessTransitive(k, p.key, x);
      }
    }
  }

  class CDBIterator {
    const db: CDBWrapper
    var pos: Position
    ghost var cut: Cut

    ghost predicate Positioned()
      reads this, db
    {
      StandsOn(db.table.Keys, cut, pos)
    }

    constructor (db: CDBWrapper)
      ensures this.db == db
    {
      this.db := db;
      pos, cut := End, All;
    }

    method Place(c: Cut)
      modifies this
      ensures Positioned() && cut == c
    {
      pos := FirstAhead(db.table.Keys, c);
      cut := c;
    }

    method Next()
      requires Positioned() && pos.On?
      modifies this
      ensures Positioned() && cut == After(old(pos.key))
    {
      Place(After(pos.key));
    }
  }

  class CDBTransactionIterator {
    const transaction: CDBTransaction
    /** An iterator over what is below: a transaction, or the database. */
    const parentIt: CDBTransactionIterator?
    const dbIt: CDBIterator
    ghost const Repr: set<object>
    var transactionIt: Position
    var parentKey: Bytes
    var curIsParent: bool
    ghost var cut: Cut

    ghost predicate Wired()
      decreases transaction.depth
    {
      && transaction.Wired() && dbIt.db == transaction.db
      && (parentIt == null <==> transaction.parent == null)
      && (parentIt == null ==> Repr == {this, dbIt})
      && (parentIt != null ==>
            && parentIt.transaction == transaction.parent && parentIt.dbIt == dbIt
            && Repr == {this} + parentIt.Repr && parentIt in parentIt.Repr && this !in parentIt.Repr && parentIt.Wired())
      && Repr !! transaction.Repr
    }

    /** Where the iterator below stands. */
    ghost function ParentPos(): Position
      requires Wired()
      reads Repr - {this}
      decreases transaction.depth, 0
    {
      if parentIt != null then parentIt.Pos() else dbIt.pos
    }

    /** Where the iterator stands: on the smaller of its two cursors. */
    ghost function Pos(): Position
      requires Wired()
      reads Repr
      decreases transaction.depth, 1
    {
      if transactionIt.End? && ParentPos().End? then End
      else if curIsParent then On(parentKey) else transactionIt
    }

    ghost function ParentCut(): Cut
      requires Wired()
      reads Repr - {this}
    {
      if parentIt != null then parentIt.cut else dbIt.cut
    }

    ghost predicate ParentPositioned()
      requires Wired()
      reads Repr - {this}, transaction.Repr
      decreases transaction.depth, 0
    {
      if parentIt != null then parentIt.Positioned() else dbIt.Positioned()
    }

    ghost function Showing(): set<Bytes>
      requires Wired()
      reads transaction.Repr
    {
      DbOverlay.Showing(transaction.ParentView().Keys, transaction.writes.Keys, transaction.deletes)
    }

    /** One cursor on the next pending write, the other on the next key that shows through. */
    ghost predicate Positioned()
      requires Wired()
      reads Repr, transaction.Repr
      decreases transaction.depth, 1
    {
      && ParentPositioned()
      && StandsOn(transaction.writes.Keys, cut, transactionIt)
      && StandsOn(Showing(), cut, ParentPos())
      && (ParentPos().On? ==> parentKey == ParentPos().key)
      && (transactionIt.On? || ParentPos().On? ==> curIsParent == RightFirst(transactionIt, ParentPos()))
    }

    constructor Over(transaction: CDBTransaction, parentIt: CDBTransactionIterator?, dbIt: CDBIterator)
      requires transaction.Wired() && dbIt.db == transaction.db
      requires parentIt == null <==> transaction.parent == null
      requires parentIt != null ==> parentIt.Wired() && parentIt.transaction == transaction.parent && parentIt.dbIt == dbIt
      requires parentIt == null ==> dbIt !in transaction.Repr
      requires parentIt != null ==> transaction !in parentIt.Repr
      ensures Wired() && this.transaction == transaction && this.parentIt == parentIt && this.dbIt == dbIt
    {
      this.transaction, this.parentIt, this.dbIt := transaction, parentIt, dbIt;
      transactionIt, parentKey, curIsParent, cut := End, [], false, All;
      Repr := {this} + if parentIt != null then parentIt.Repr else {dbIt};
    }

    lemma Apart()
      requires Wired()
      ensures Repr !! transaction.Repr && transaction.Wired() && transaction in transaction.Repr && this in Repr
    {
    }

    /** Moving an iterator changes nothing in what it iterates over. */
    twostate predicate Steady()
      requires Wired()
      reads transaction.Repr
    {
      transaction.ParentView() == old(transaction.ParentView()) && Showing() == old(Showing())
    }

    // ----- the iterator below -----

    method ParentValid() returns (v: bool)
      requires Wired() && ParentPositioned()
      ensures v == ParentPos().On?
      decreases transaction.depth, 0
    {
      if parentIt != null {
        v := parentIt.IsValid();
      } else {
        v := dbIt.pos.On?;
      }
    }

    method ParentGetKey() returns (k: Bytes)
      requires Wired() && ParentPositioned() && ParentPos().On?
      ensures k == ParentPos().key
      decreases transaction.depth, 0
    {
      if parentIt != null {
        k := parentIt.GetKey();
      } else {
        k := dbIt.pos.key;
      }
    }

    method ParentPlace(c: Cut)
      requires Wired() && !c.After?
      modifies Repr - {this}
      ensures ParentPositioned() && ParentCut() == c && Steady()
      decreases transaction.depth, 0
    {
      if parentIt != null {
        parentIt.Place(c);
      } else {
        dbIt.Place(c);
      }
    }

    method ParentNext()
      requires Wired() && ParentPositioned() && ParentPos().On?
      modifies Repr - {this}
      ensures ParentPositioned() && ParentCut() == After(old(ParentPos().key)) && Steady()
      decreases transaction.depth, 0
    {
      if parentIt != null {
        parentIt.Next();
      } else {
        dbIt.Next();
      }
    }

    // ----- moving -----

    method SeekToFirst()
      requires Wired()
      modifies Repr
      ensures Positioned() && cut == All
    {
      Place(All);
    }

    method Seek(key: Bytes)
      requires Wired()
      modifies Repr
      ensures Positioned() && cut == From(key)
    {
      Place(From(key));
    }

    /** Both cursors on the first key of a range, then the one below past what this transaction hides. */
    method Place(c: Cut)
      requires Wired() && !c.After?
      modifies Repr
      ensures Positioned() && cut == c
      decreases transaction.depth, 3
    {
      hide StandsOn, Overlay;
      hide Wired, ParentPos, ParentCut, ParentPositioned, CDBTransaction.Wired, CDBTransaction.ParentView;
      Apart();
      transactionIt := FirstAhead(transaction.writes.Keys, c);
      cut := c;
      ParentPlace(c);
      SkipDeletedAndOverwritten(c);
      DecideCur();
    }

    method SkipDeletedAndOverwritten(ghost c: Cut)
      requires Wired() && ParentPositioned()
      requires Skipping(transaction.ParentView().Keys, Showing(), c, ParentCut())
      modifies Repr - {this}, this`parentKey
      ensures ParentPositioned() && StandsOn(Showing(), c, ParentPos()) && Steady()
      ensures ParentPos().On? ==> parentKey == ParentPos().key
      decreases transaction.depth, 2
    {
      hide StandsOn, Skipping, Overlay;
      hide Wired, ParentPos, ParentCut, ParentPositioned, CDBTransaction.Wired, CDBTransaction.ParentView;
      Apart();
      ghost var below, showing := transaction.ParentView().Keys, Showing();
      var valid := ParentValid();
      ParentStands(this);
      while valid
        invariant transaction.ParentView().Keys == below && Showing() == showing
        invariant ParentPositioned() && valid == ParentPos().On?
        invariant Skipping(below, showing, c, ParentCut()) && StandsOn(below, ParentCut(), ParentPos())
        decreases Left(below, ParentCut())
      {
        parentKey := ParentGetKey();
        if parentKey !in transaction.deletes && parentKey !in transaction.writes {
          break;
        }
        SkipOne(below, showing, c, ParentCut(), parentKey);
        LeftDrops(below, ParentCut(), parentKey);
        label before:
        ParentNext();
        assert Steady@before();
        valid := ParentValid();
        ParentStands(this);
      }
      StandsIn(below, ParentCut(), ParentPos());
      SkipEnds(below, showing, c, ParentCut(), ParentPos());
    }

    method DecideCur()
      requires Wired() && ParentPositioned()
      requires ParentPos().On? ==> parentKey == ParentPos().key
      modifies this`curIsParent
      ensures transactionIt.On? || ParentPos().On? ==> curIsParent == RightFirst(transactionIt, ParentPos())
      ensures ParentPositioned()
      decreases transaction.depth, 2
    {
      var parentValid := ParentValid();
      if transactionIt.On? && !parentValid {
        curIsParent := false;
      } else if transactionIt.End? && parentValid {
        curIsParent := true;
      } else if transactionIt.On? && parentValid {
        if Less(transactionIt.key, parentKey) {
          curIsParent := false;
        } else {
          curIsParent := true;
        }
      }
    }

    method IsValid() returns (v: bool)
      requires Wired() && Positioned()
      ensures v == Pos().On?
      decreases transaction.depth, 1
    {
      var parentValid := ParentValid();
      return transactionIt.On? || parentValid;
    }

    method GetKey() returns (k: Bytes)
      requires Wired() && Positioned()
      ensures k == if Pos().On? then Pos().key else []
      decreases transaction.depth, 2
    {
      var valid := IsValid();
      if !valid {
        return [];
      }
      return if curIsParent then parentKey else transactionIt.key;
    }

    method GetValue(id: nat) returns (r: ReadResult)
      requires Wired() && Positioned() && transaction.Valid()
      ensures r == if Pos().On? then LookUp(transaction.View(), Pos().key, id) else Missing
    {
      var valid := IsValid();
      if !valid {
        return Missing;
      }
      r := transaction.Read(if curIsParent then parentKey else transactionIt.key, id);
    }

    /** Past the current key; at the end, nothing happens. */
    method Next()
      requires Wired() && Positioned()
      modifies Repr
      ensures Positioned()
      ensures if old(Pos()).End? then cut == old(cut) && Pos() == End else cut == After(old(Pos()).key)
      decreases transaction.depth, 3
    {
      hide StandsOn, Skipping, Overlay;
      hide Wired, ParentPos, ParentCut, ParentPositioned, CDBTransaction.Wired, CDBTransaction.ParentView;
      Apart();
      var parentValid := ParentValid();
      if transactionIt.End? && !parentValid {
        return;
      }
      NextPlaces(this);
      cut := After(if curIsParent then parentKey else transactionIt.key);
      if curIsParent {
        ParentNext();
        SkipDeletedAndOverwritten(cut);
      } else {
        transactionIt := FirstAhead(transaction.writes.Keys, After(transactionIt.key));
      }
      DecideCur();
    }
  }

  /** A positioned iterator stands on the least key of the overlay that is ahead. */
  lemma PositionedStands(it: CDBTransactionIterator)
    requires it.Wired() && it.Positioned()
    ensures StandsOn(it.transaction.View().Keys, it.cut, it.Pos())
  {
    hide StandsOn, Overlay;
    var t := it.transaction;
    OverlayKeys(t.ParentView(), t.writes, t.deletes);
    MergeStands(t.writes.Keys, it.Showing(), it.cut, it.transactionIt, it.ParentPos());
  }

  lemma ParentStands(it: CDBTransactionIterator)
    requires it.Wired() && it.ParentPositioned()
    ensures StandsOn(it.transaction.ParentView().Keys, it.ParentCut(), it.ParentPos())
  {
    hide StandsOn;
    if it.parentIt != null {
      PositionedStands(it.parentIt);
    }
  }

  lemma StandsIn(s: set<Bytes>, c: Cut, p: Position)
    requires StandsOn(s, c, p)
    ensures p.On? ==> p.key in s
  {
  }

  /** Moving on: one cursor is advanced, and the other already stands where it should. */
  lemma NextPlaces(it: CDBTransactionIterator)
    requires it.Wired() && it.Positioned() && it.Pos().On?
    ensures var k := it.Pos().key;
            if it.curIsParent then
              && it.ParentPos() == On(k)
              && StandsOn(it.transaction.writes.Keys, After(k), it.transactionIt)
              && Skipping(it.transaction.ParentView().Keys, it.Showing(), After(k), After(k))
            else
              it.transactionIt == On(k) && StandsOn(it.Showing(), After(k), it.ParentPos())
  {
    var k := it.Pos().key;
    if it.curIsParent {
      if it.transactionIt.On? {
        LessTotal(k, it.transactionIt.key);
      }
      OtherStays(it.transaction.writes.Keys, it.cut, it.transactionIt, k);
    } else {
      OtherStays(it.Showing(), it.cut, it.ParentPos(), k);
    }
  }

  // ----- enumeration -----

  ghost predicate StrictlyIncreasing(keys: seq<Bytes>) {
    forall i, j :: 0 <= i < j < |keys| ==> Less(keys[i], keys[j])
  }

  /** From the first key to the end: every key of the overlay, once, in order. */
  method Enumerate(it: CDBTransactionIterator) returns (keys: seq<Bytes>)
    requires it.Wired()
    modifies it.Repr
    ensures StrictlyIncreasing(keys)
    ensures forall k :: k in keys <==> k in it.transaction.View()
  {
    hide StandsOn, Overlay;
    it.SeekToFirst();
    keys := [];
    var valid := it.IsValid();
    PositionedStands(it);
    while valid
      invariant it.Positioned() && valid == it.Pos().On?
      invariant StandsOn(it.transaction.View().Keys, it.cut, it.Pos())
      invariant Visited(keys, it.transaction.View().Keys, it.cut)
      decreases Left(it.transaction.View().Keys, it.cut)
    {
      var k := it.GetKey();
      VisitNext(keys, it.transaction.View().Keys, it.cut, k);
      LeftDrops(it.transaction.View().Keys, it.cut, k);
      keys := keys + [k];
      it.Next();
      valid := it.IsValid();
      PositionedStands(it);
    }
    VisitedAll(keys, it.transaction.View().Keys, it.cut);
  }

  /** The keys listed are those of the set that are no longer ahead. */
  ghost predicate Visited(keys: seq<Bytes>, s: set<Bytes>, c: Cut) {
    StrictlyIncreasing(keys) && forall k :: k in keys <==> k in s && !Ahead(c, k)
  }

  lemma VisitNext(keys: seq<Bytes>, s: set<Bytes>, c: Cut, k: Bytes)
    requires Visited(keys, s, c) && StandsOn(s, c, On(k))
    ensures Visited(keys + [k], s, After(k))
  {
    LessIrreflexive(k);
    forall x | x in s ensures x in keys + [k] <==> !Less(k, x) {
      LessTotal(x, k);
      if Less(k, x) {
        AheadUp(c, k, x);
        LessAsymmetric(k, x);
      }
    }
    forall x | x in keys ensures Less(x, k) {
      LessTotal(x, k);
      if Less(k, x) {
        AheadUp(c, k, x);
      }
    }
  }

  lemma VisitedAll(keys: seq<Bytes>, s: set<Bytes>, c: Cut)
    requires Visited(keys, s, c) && StandsOn(s, c, End)
    ensures StrictlyIncreasing(keys) && forall k :: k in keys <==> k in s
  {
  }
}
