/** The receiver of a compact block: slots filled in place, from the message and from its own pools. */
module PartialBlock {
  import opened BlockRequest
  import opened CompactBlocks

  datatype ReadStatus = Ok | Invalid | Failed | CheckBlockFailed

  /** A transaction at hand, under the hash it is matched by. */
  datatype PoolTx = PoolTx(hash: nat, tx: Tx)

  datatype CheckResult = Passes | CorruptionPossible | Fails

  predicate Distinct(ids: seq<nat>) {
    forall i, j :: 0 <= i < j < |ids| ==> ids[i] != ids[j]
  }

  // ----- what the slots hold -----

  /** What a slot holds came from the pool, under the slot's short identifier. */
  predicate FromPool(slot: Slot, id: nat, short: ShortID, entries: seq<PoolTx>) {
    slot.Filled? ==> exists k :: 0 <= k < |entries| && short(entries[k].hash) == id && entries[k].tx == slot.tx
  }

  /** Prefilled slots as they were, the others vacant or filled from the pool. */
  predicate Received(ids: seq<nat>, start: seq<Slot>, slots: seq<Slot>, short: ShortID, entries: seq<PoolTx>)
    requires |ids| == |Missing(start)|
  {
    && |slots| == |start|
    && (forall p :: 0 <= p < |start| && start[p].Filled? ==> slots[p] == start[p])
    && (forall i :: 0 <= i < |ids| ==> FromPool(slots[Missing(start)[i]], ids[i], short, entries))
  }

  /** Every pool transaction whose short identifier occurs in the message is the transaction meant. */
  predicate Genuine(ids: seq<nat>, start: seq<Slot>, block: seq<Tx>, short: ShortID, entries: seq<PoolTx>)
    requires |ids| == |Missing(start)| && |block| == |start|
  {
    forall k, i :: 0 <= k < |entries| && 0 <= i < |ids| && short(entries[k].hash) == ids[i] ==>
      entries[k].tx == block[Missing(start)[i]]
  }

  /** If the message describes a block and the pool is genuine, every filled slot is right. */
  lemma ReceivedAgrees(ids: seq<nat>, start: seq<Slot>, slots: seq<Slot>, block: seq<Tx>, short: ShortID, entries: seq<PoolTx>)
    requires |ids| == |Missing(start)| && Agrees(start, block)
    requires Received(ids, start, slots, short, entries) && Genuine(ids, start, block, short, entries)
    ensures Agrees(slots, block)
  {
    hide Vacancies;
    forall p | 0 <= p < |slots| && slots[p].Filled? ensures slots[p].tx == block[p] {
      if start[p].Vacant? {
        VacancyListed(start, |start|, p);
        var i :| 0 <= i < |Missing(start)| && Missing(start)[i] == p;
        assert FromPool(slots[Missing(start)[i]], ids[i], short, entries);
      }
    }
  }

  // ----- where the identifiers point -----

  /** The slot an identifier is looked up at: the position of its vacancy, kept as a 16-bit number. */
  function Target(start: seq<Slot>, i: nat): (p: nat)
    requires i < |Missing(start)|
    ensures p < UINT16 && p < |start|
  {
    Missing(start)[i] % UINT16
  }

  /** The targets of the short identifiers. */
  predicate Positions(ids: seq<nat>, start: seq<Slot>, table: map<nat, nat>) {
    && |ids| == |Missing(start)|
    && (forall i :: 0 <= i < |ids| ==> ids[i] in table && table[ids[i]] == Target(start, i))
    && (forall id :: id in table ==> exists i :: 0 <= i < |ids| && ids[i] == id)
  }

  /** Every identifier is looked up at its own vacancy exactly if the block has at most 65536 transactions. */
  lemma TargetsExact(c: CompactBlock)
    requires AllPlaceable(c)
    ensures var start := Placed(c, |c.prefilledtxn|);
            (forall i :: 0 <= i < |Missing(start)| ==> Target(start, i) == Missing(start)[i]) <==> BlockTxCount(c) <= UINT16
  {
    hide Vacancies, Placed;
    var start := Placed(c, |c.prefilledtxn|);
    if BlockTxCount(c) > UINT16 {
      PlacedBeyond(c, UINT16);
      VacancyListed(start, |start|, UINT16);
      var i :| 0 <= i < |Missing(start)| && Missing(start)[i] == UINT16;
      assert Target(start, i) < UINT16;
    }
  }

  // ----- matching transactions at hand -----

  /** What the scan knows of a slot: whether it was claimed before, and what it holds. */
  datatype Claim = Claim(have: bool, slot: Slot)

  /** A matching transaction takes a slot; a second, different one vacates it for good. */
  function Next(c: Claim, tx: Tx, isExtra: bool): Claim {
    if !c.have then Claim(true, Filled(tx))
    else if c.slot.Filled? && (isExtra ==> c.slot.tx.wtxid != tx.wtxid) then Claim(true, Vacant)
    else c
  }

  predicate Hits(e: PoolTx, short: ShortID, table: map<nat, nat>, p: nat) {
    short(e.hash) in table && table[short(e.hash)] == p
  }

  predicate InRange(table: map<nat, nat>, n: nat) {
    forall id :: id in table ==> table[id] < n
  }

  function Considered(claims: seq<Claim>, e: PoolTx, short: ShortID, table: map<nat, nat>, isExtra: bool): (r: seq<Claim>)
    requires InRange(table, |claims|)
    ensures |r| == |claims|
    ensures forall p :: 0 <= p < |r| ==> r[p] == if Hits(e, short, table, p) then Next(claims[p], e.tx, isExtra) else claims[p]
  {
    if short(e.hash) in table then
      var p := table[short(e.hash)];
      claims[p := Next(claims[p], e.tx, isExtra)]
    else claims
  }

  /** The claims after the first `n` transactions of a list. */
  function Swept(claims: seq<Claim>, list: seq<PoolTx>, n: nat, short: ShortID, table: map<nat, nat>, isExtra: bool): (r: seq<Claim>)
    requires n <= |list| && InRange(table, |claims|)
    ensures |r| == |claims|
  {
    if n == 0 then claims else Considered(Swept(claims, list, n - 1, short, table, isExtra), list[n - 1], short, table, isExtra)
  }

  function Zip(slots: seq<Slot>, have: seq<bool>): (claims: seq<Claim>)
    requires |slots| == |have|
    ensures |claims| == |slots|
  {
    seq(|slots|, p requires 0 <= p < |slots| => Claim(have[p], slots[p]))
  }

  function Unclaimed(slots: seq<Slot>): seq<Claim> {
    seq(|slots|, p requires 0 <= p < |slots| => Claim(false, slots[p]))
  }

  function SlotsOf(claims: seq<Claim>): seq<Slot> {
    seq(|claims|, p requires 0 <= p < |claims| => claims[p].slot)
  }

  /** How many of the first `n` slots hold a transaction that was at hand. */
  function Held(claims: seq<Claim>, n: nat): nat
    requires n <= |claims|
  {
    if n == 0 then 0 else Held(claims, n - 1) + if claims[n - 1].have && claims[n - 1].slot.Filled? then 1 else 0
  }

  lemma {:induction false} HeldUpdate(claims: seq<Claim>, n: nat, p: nat, c: Claim)
    requires n <= |claims| && p < |claims|
    ensures Held(claims[p := c], n) == Held(claims, n)
              + (if p < n && c.have && c.slot.Filled? then 1 else 0)
              - (if p < n && claims[p].have && claims[p].slot.Filled? then 1 else 0)
  {
    if n > 0 {
      HeldUpdate(claims, n - 1, p, c);
    }
  }

  lemma {:induction false} HeldNone(slots: seq<Slot>, n: nat)
    requires n <= |slots|
    ensures Held(Unclaimed(slots), n) == 0
  {
    if n > 0 {
      HeldNone(slots, n - 1);
    }
  }

  function HitCount(list: seq<PoolTx>, n: nat, short: ShortID, table: map<nat, nat>, p: nat): nat
    requires n <= |list|
  {
    if n == 0 then 0 else HitCount(list, n - 1, short, table, p) + if Hits(list[n - 1], short, table, p) then 1 else 0
  }

  /** A slot that one transaction of the pool matches gets it; one that more match is left to be requested. */
  lemma {:induction false} PoolOutcome(claims: seq<Claim>, list: seq<PoolTx>, n: nat, short: ShortID, table: map<nat, nat>, p: nat)
    requires n <= |list| && InRange(table, |claims|) && p < |claims| && !claims[p].have
    ensures var r := Swept(claims, list, n, short, table, false)[p];
            match HitCount(list, n, short, table, p)
            case 0 => r == claims[p]
            case 1 => r.have && exists k :: 0 <= k < n && Hits(list[k], short, table, p) && r.slot == Filled(list[k].tx)
            case _ => r == Claim(true, Vacant)
  {
    if n > 0 {
      hide Considered;
      PoolOutcome(claims, list, n - 1, short, table, p);
    }
  }

  /** A later list fills what no transaction matched yet, and vacates a slot only for a different witness hash. */
  lemma {:induction false} ExtraOutcome(claims: seq<Claim>, list: seq<PoolTx>, n: nat, short: ShortID, table: map<nat, nat>, p: nat)
    requires n <= |list| && InRange(table, |claims|) && p < |claims| && claims[p].have
    ensures Swept(claims, list, n, short, table, true)[p] ==
              if claims[p].slot.Filled?
                 && exists k :: 0 <= k < n && Hits(list[k], short, table, p) && list[k].tx.wtxid != claims[p].slot.tx.wtxid
              then Claim(true, Vacant) else claims[p]
  {
    if n > 0 {
      hide Considered;
      ExtraOutcome(claims, list, n - 1, short, table, p);
    }
  }

  /** What a list leaves in a slot was there before, or is one of its matching transactions. */
  lemma {:induction false} SweptOrigin(claims: seq<Claim>, list: seq<PoolTx>, n: nat, short: ShortID, table: map<nat, nat>,
                                       isExtra: bool, p: nat)
    requires n <= |list| && InRange(table, |claims|) && p < |claims|
    ensures var r := Swept(claims, list, n, short, table, isExtra)[p];
            || r == claims[p]
            || (r.have && (exists k :: 0 <= k < n && Hits(list[k], short, table, p))
                && (r.slot.Vacant? || exists k :: 0 <= k < n && Hits(list[k], short, table, p) && r.slot == Filled(list[k].tx)))
  {
    if n > 0 {
      hide Considered;
      SweptOrigin(claims, list, n - 1, short, table, isExtra, p);
    }
  }

  /**
   What reading a message leaves: the slots after the pool and then the other transactions at hand
   were gone through, each until its end or until every identifier was found.
   */
  predicate Initialized(c: CompactBlock, short: ShortID, pool: seq<PoolTx>, extra: seq<PoolTx>,
                        slots: seq<Slot>, count: nat, table: map<nat, nat>, n: nat, m: nat)
  {
    && AllPlaceable(c) && n <= |pool| && m <= |extra|
    && var start := Placed(c, |c.prefilledtxn|);
    && Positions(c.shorttxids, start, table) && InRange(table, |start|)
    && var first := Swept(Unclaimed(start), pool, n, short, table, false);
    && var last := Swept(first, extra, m, short, table, true);
    && slots == SlotsOf(last) && count == Held(last, |last|)
    && (n == |pool| || Held(first, |first|) == |c.shorttxids|)
    && (m == |extra| || count == |c.shorttxids|)
  }

  class PartiallyDownloadedBlock {
    var headerIsNull: bool
    var txnAvailable: seq<Slot>
    var prefilledCount: nat
    var mempoolCount: nat

    constructor ()
      ensures headerIsNull && txnAvailable == [] && mempoolCount == 0
    {
      headerIsNull, txnAvailable, prefilledCount, mempoolCount := true, [], 0, 0;
    }

    /** Puts the transactions given in full in their places. */
    method PlacePrefilled(c: CompactBlock) returns (ok: bool)
      modifies this`txnAvailable
      ensures ok <==> AllPlaceable(c)
      ensures ok ==> txnAvailable == Placed(c, |c.prefilledtxn|)
    {
      txnAvailable := seq(BlockTxCount(c), _ => Vacant);
      var lastPrefilledIndex := -1;
      for i := 0 to |c.prefilledtxn|
        invariant forall k :: 0 <= k < i ==> PrefilledOk(c, k)
        invariant txnAvailable == Placed(c, i)
        invariant lastPrefilledIndex == if i == 0 then -1 else Position(c.prefilledtxn, i - 1)
      {
        if c.prefilledtxn[i].tx.isNull {
          assert !PrefilledOk(c, i);
          return false;
        }
        lastPrefilledIndex := lastPrefilledIndex + c.prefilledtxn[i].index + 1;
        if lastPrefilledIndex > UINT16 - 1 {
          assert !PrefilledOk(c, i);
          return false;
        }
        if lastPrefilledIndex > |c.shorttxids| + i {
          assert !PrefilledOk(c, i);
          return false;
        }
        assert PrefilledOk(c, i);
        txnAvailable := txnAvailable[lastPrefilledIndex := Filled(c.prefilledtxn[i].tx)];
      }
      ok := true;
    }

    /**
     Moves a 16-bit offset on to the next vacant slot. Where the offset would wrap around, every slot
     it can reach is filled and the search goes on for ever: `ends` is then false.
     */
    method SkipFilled(i: nat, offset: uint16) returns (indexOffset: uint16, ends: bool)
      requires i + offset <= |txnAvailable| && |Vacancies(txnAvailable, i + offset)| == i < |Missing(txnAvailable)|
      requires Within16(txnAvailable)
      ensures |txnAvailable| - |Missing(txnAvailable)| < UINT16 ==> ends
      ensures ends ==> i + indexOffset < |txnAvailable| && txnAvailable[i + indexOffset].Vacant?
      ensures ends ==> |Vacancies(txnAvailable, i + indexOffset)| == i
      ensures !ends ==> i == 0 && UINT16 < |txnAvailable| && forall o: uint16 :: txnAvailable[o].Filled?
    {
      hide Vacancies;
      indexOffset := offset;
      NextVacancy(txnAvailable, i + indexOffset);
      while txnAvailable[i + indexOffset].Filled?
        invariant i + indexOffset < |txnAvailable| && |Vacancies(txnAvailable, i + indexOffset)| == i
        decreases |txnAvailable| - indexOffset
      {
        FilledPassed(txnAvailable, i + indexOffset);
        NextVacancy(txnAvailable, i + indexOffset + 1);
        if indexOffset == UINT16 - 1 {
          AllPassed(txnAvailable, i);
          return 0, false;
        }
        indexOffset := indexOffset + 1;
      }
      ends := true;
    }

    /**
     Finds the vacant slot of each short identifier; fails on collisions and on crowded buckets. The
     search ends unless 65536 slots are filled and there are identifiers besides.
     */
    method MapShortIDs(ids: seq<nat>, crowded: nat -> bool) returns (ok: bool, table: map<nat, nat>, ends: bool)
      requires |ids| == |Missing(txnAvailable)| && Within16(txnAvailable)
      ensures ends <==> ids == [] || |txnAvailable| - |ids| < UINT16
      ensures ends ==> (ok <==> Distinct(ids) && forall i :: 0 <= i < |ids| ==> !crowded(i))
      ensures ends && ok ==> Positions(ids, txnAvailable, table) && |table| == |ids|
    {
      hide Vacancies, Mapped, Distinct, Positions, Within16;
      table, ok := map[], false;
      MappedNone(ids, txnAvailable);
      var indexOffset: uint16 := 0;
      NoVacancies(txnAvailable);
      for i := 0 to |ids|
        invariant i + indexOffset <= |txnAvailable| && |Vacancies(txnAvailable, i + indexOffset)| == i
        invariant i > 0 ==> |txnAvailable| - |ids| < UINT16
        invariant forall k :: 0 <= k < i ==> !crowded(k)
        invariant Mapped(ids, txnAvailable, table, i)
      {
        indexOffset, ends := SkipFilled(i, indexOffset);
        if !ends {
          return;
        }
        if i == 0 {
          FewerFilled(txnAvailable, indexOffset);
        }
        VacancyFound(txnAvailable, i + indexOffset);
        MappedNext(ids, txnAvailable, table, i);
        table := table[ids[i] := (i + indexOffset) % UINT16];
        if crowded(i) {
          return;
        }
      }
      MappedAll(ids, txnAvailable, table);
      ok, ends := |table| == |ids|, true;
    }

    /** Takes a transaction at hand into its slot, or vacates the slot when two different ones claim it. */
    method Consider(e: PoolTx, short: ShortID, table: map<nat, nat>, have: seq<bool>, isExtra: bool)
      returns (marked: seq<bool>)
      requires |have| == |txnAvailable| && InRange(table, |have|) && mempoolCount == Held(Zip(txnAvailable, have), |have|)
      modifies this`txnAvailable, this`mempoolCount
      ensures |marked| == |txnAvailable| == |have|
      ensures Zip(txnAvailable, marked) == Considered(old(Zip(txnAvailable, have)), e, short, table, isExtra)
      ensures mempoolCount == Held(Zip(txnAvailable, marked), |marked|)
    {
      hide Held;
      marked := have;
      var id := short(e.hash);
      if id !in table {
        return;
      }
      var p := table[id];
      ghost var claims := Zip(txnAvailable, have);
      HeldUpdate(claims, |claims|, p, Next(claims[p], e.tx, isExtra));
      if !have[p] {
        txnAvailable := txnAvailable[p := Filled(e.tx)];
        marked := have[p := true];
        mempoolCount := mempoolCount + 1;
      } else if txnAvailable[p].Filled? && (isExtra ==> txnAvailable[p].tx.wtxid != e.tx.wtxid) {
        txnAvailable := txnAvailable[p := Vacant];
        mempoolCount := mempoolCount - 1;
      }
      assert Zip(txnAvailable, marked) == claims[p := Next(claims[p], e.tx, isExtra)];
    }

    /** Goes through transactions at hand until every identifier is found. */
    method Scan(list: seq<PoolTx>, short: ShortID, table: map<nat, nat>, have: seq<bool>, isExtra: bool)
      returns (marked: seq<bool>, ghost n: nat)
      requires |have| == |txnAvailable| && InRange(table, |have|) && mempoolCount == Held(Zip(txnAvailable, have), |have|)
      modifies this`txnAvailable, this`mempoolCount
      ensures |marked| == |txnAvailable| == |have| && n <= |list|
      ensures Zip(txnAvailable, marked) == Swept(old(Zip(txnAvailable, have)), list, n, short, table, isExtra)
      ensures mempoolCount == Held(Zip(txnAvailable, marked), |marked|)
      ensures n == |list| || mempoolCount == |table|
    {
      hide Held, Considered, Zip, InRange;
      marked, n := have, 0;
      for i := 0 to |list|
        invariant n == i && |marked| == |txnAvailable| == |have|
        invariant Zip(txnAvailable, marked) == Swept(old(Zip(txnAvailable, have)), list, i, short, table, isExtra)
        invariant mempoolCount == Held(Zip(txnAvailable, marked), |marked|)
      {
        marked := Consider(list[i], short, table, marked, isExtra);
        n := i + 1;
        if mempoolCount == |table| {
          break;
        }
      }
    }

    /**
     Reads a compact block. `crowded` says for which identifier the hash table's bucket is too full.
     With 65536 prefilled transactions and identifiers besides, and only then, the search for vacant
     slots does not end.
     */
    method InitData(c: CompactBlock, short: ShortID, pool: seq<PoolTx>, extra: seq<PoolTx>, maxTxCount: nat,
                    crowded: nat -> bool)
      returns (status: ReadStatus, ends: bool, ghost table: map<nat, nat>, ghost n: nat, ghost m: nat)
      requires headerIsNull && txnAvailable == [] && mempoolCount == 0
      modifies this
      ensures status == Invalid <==>
              c.headerIsNull || BlockTxCount(c) == 0 || BlockTxCount(c) > maxTxCount || !AllPlaceable(c)
      ensures !ends <==> status != Invalid && |c.prefilledtxn| == UINT16 && c.shorttxids != []
      ensures status != Invalid && ends ==>
        (status == Ok <==> Distinct(c.shorttxids) && forall i :: 0 <= i < |c.shorttxids| ==> !crowded(i))
      ensures status == Ok || status == Failed || status == Invalid
      ensures status == Ok && ends ==>
        !headerIsNull && Initialized(c, short, pool, extra, txnAvailable, mempoolCount, table, n, m)
    {
      hide Vacancies, Swept, Positions, Placed, Distinct, Held, Unclaimed, Zip, SlotsOf, InRange, Within16;
      status, ends, table, n, m := Invalid, true, map[], 0, 0;
      if c.headerIsNull || (c.shorttxids == [] && c.prefilledtxn == []) {
        return;
      }
      if |c.shorttxids| + |c.prefilledtxn| > maxTxCount {
        return;
      }
      headerIsNull := c.headerIsNull;
      var ok := PlacePrefilled(c);
      if !ok {
        return;
      }
      prefilledCount := |c.prefilledtxn|;
      ghost var start := txnAvailable;
      PlacedVacancies(c, |c.prefilledtxn|);
      FewPrefilled(c);
      PlacedWithin16(c);
      status := Failed;
      var shorttxids;
      ok, shorttxids, ends := MapShortIDs(c.shorttxids, crowded);
      table := shorttxids;
      if !ends || !ok {
        return;
      }
      var have := seq(|txnAvailable|, _ => false);
      NothingTaken(c.shorttxids, start, table, have);
      have, n := Scan(pool, short, shorttxids, have, false);
      have, m := Scan(extra, short, shorttxids, have, true);
      Unzipped(txnAvailable, have);
      status := Ok;
    }

    predicate IsTxAvailable(index: nat)
      requires !headerIsNull && index < |txnAvailable|
      reads this
    {
      txnAvailable[index].Filled?
    }

    /** The positions still vacant, pushed as 16-bit numbers. */
    method RequestMissing() returns (request: seq<uint16>)
      requires !headerIsNull
      ensures request == Low16(Missing(txnAvailable))
    {
      hide Vacancies;
      request := [];
      NoVacancies(txnAvailable);
      for i := 0 to |txnAvailable|
        invariant request == Low16(Vacancies(txnAvailable, i))
      {
        if !IsTxAvailable(i) {
          VacancyAdded(txnAvailable, i);
          request := request + [i % UINT16];
        } else {
          FilledPassed(txnAvailable, i);
        }
      }
    }

    /** Fills the gaps with the transactions that were requested; `check` stands for the block's validation. */
    method FillBlock(missing: seq<Tx>, check: seq<Tx> -> CheckResult) returns (status: ReadStatus, block: seq<Tx>)
      requires !headerIsNull
      modifies this
      ensures |missing| < |Missing(old(txnAvailable))| ==> status == Invalid && headerIsNull == old(headerIsNull)
      ensures |missing| >= |Missing(old(txnAvailable))| ==>
        && headerIsNull && txnAvailable == []
        && block == Filling(old(txnAvailable), missing, |old(txnAvailable)|)
        && status == (if |missing| > |Missing(old(txnAvailable))| then Invalid else Verdict(check(block)))
    {
      hide Vacancies, Filling;
      ghost var slots := txnAvailable;
      block := [];
      var txMissingOffset := 0;
      FillingStarts(slots, missing);
      for i := 0 to |txnAvailable|
        invariant |txnAvailable| == |slots| && headerIsNull == old(headerIsNull)
        invariant forall p :: i <= p < |slots| ==> txnAvailable[p] == slots[p]
        invariant txMissingOffset == |Vacancies(slots, i)| <= |missing|
        invariant block == Filling(slots, missing, i)
      {
        FillingNext(slots, missing, i);
        if txnAvailable[i].Vacant? {
          if |missing| <= txMissingOffset {
            return Invalid, block;
          }
          block := block + [missing[txMissingOffset]];
          txMissingOffset := txMissingOffset + 1;
        } else {
          block := block + [txnAvailable[i].tx];
          txnAvailable := txnAvailable[i := Vacant];
        }
      }
      headerIsNull, txnAvailable := true, [];
      if |missing| != txMissingOffset {
        return Invalid, block;
      }
      status := Verdict(check(block));
    }
  }

  lemma FillingStarts(slots: seq<Slot>, missing: seq<Tx>)
    ensures Vacancies(slots, 0) == [] && Filling(slots, missing, 0) == []
  {
  }

  lemma FillingNext(slots: seq<Slot>, missing: seq<Tx>, i: nat)
    requires i < |slots| && |Vacancies(slots, i)| <= |missing|
    ensures |Vacancies(slots, i + 1)| == |Vacancies(slots, i)| + if slots[i].Vacant? then 1 else 0
    ensures |Vacancies(slots, i + 1)| <= |Missing(slots)|
    ensures |Vacancies(slots, i + 1)| <= |missing| ==>
              Filling(slots, missing, i + 1) == Filling(slots, missing, i)
                + [if slots[i].Vacant? then missing[|Vacancies(slots, i)|] else slots[i].tx]
  {
    VacanciesPrefix(slots, i + 1, |slots|);
  }

  // ----- what reading leaves -----

  lemma NothingTaken(ids: seq<nat>, start: seq<Slot>, table: map<nat, nat>, have: seq<bool>)
    requires Positions(ids, start, table) && |have| == |start| && forall p :: 0 <= p < |have| ==> !have[p]
    ensures Zip(start, have) == Unclaimed(start) && Held(Unclaimed(start), |start|) == 0 && InRange(table, |start|)
  {
    hide Vacancies;
    HeldNone(start, |start|);
    forall id | id in table ensures table[id] < |start| {
      var i :| 0 <= i < |ids| && ids[i] == id;
    }
  }

  lemma Unzipped(slots: seq<Slot>, have: seq<bool>)
    requires |slots| == |have|
    ensures SlotsOf(Zip(slots, have)) == slots && |Zip(slots, have)| == |slots|
  {
  }

  /** Which identifier a matching transaction has. */
  lemma HitIndex(ids: seq<nat>, start: seq<Slot>, table: map<nat, nat>, e: PoolTx, short: ShortID, p: nat) returns (i: nat)
    requires Positions(ids, start, table) && Hits(e, short, table, p)
    ensures i < |ids| && short(e.hash) == ids[i] && p == Target(start, i)
  {
    hide Vacancies;
    i :| 0 <= i < |ids| && ids[i] == short(e.hash);
  }

  /** The two lists together: untouched, or claimed by a match and vacant or filled from a match. */
  lemma ClaimKnown(short: ShortID, pool: seq<PoolTx>, extra: seq<PoolTx>, slots: seq<Slot>,
                   table: map<nat, nat>, n: nat, m: nat, claim: Claim, p: nat)
    requires n <= |pool| && m <= |extra| && InRange(table, |slots|) && p < |slots|
    requires claim == Swept(Swept(Unclaimed(slots), pool, n, short, table, false), extra, m, short, table, true)[p]
    ensures || claim == Claim(false, slots[p])
            || (claim.have && (exists e :: e in pool + extra && Hits(e, short, table, p))
                && (claim.slot.Vacant? || exists e :: e in pool + extra && Hits(e, short, table, p) && claim.slot == Filled(e.tx)))
  {
    hide Swept, Hits;
    var first := Swept(Unclaimed(slots), pool, n, short, table, false);
    SweptOrigin(Unclaimed(slots), pool, n, short, table, false, p);
    SweptOrigin(first, extra, m, short, table, true, p);
    assert forall k :: 0 <= k < n ==> pool[k] in pool + extra;
    assert forall k :: 0 <= k < m ==> extra[k] in pool + extra;
  }

  /** In a block of at most 65536 transactions a slot that was prefilled is left alone. */
  lemma PrefilledKept(ids: seq<nat>, short: ShortID, pool: seq<PoolTx>, extra: seq<PoolTx>, start: seq<Slot>,
                      table: map<nat, nat>, n: nat, m: nat, claim: Claim, p: nat)
    requires n <= |pool| && m <= |extra| && Positions(ids, start, table) && InRange(table, |start|)
    requires p < |start| <= UINT16 && start[p].Filled?
    requires claim == Swept(Swept(Unclaimed(start), pool, n, short, table, false), extra, m, short, table, true)[p]
    ensures claim == Claim(false, start[p])
  {
    hide Swept, Hits, Positions, Vacancies, InRange;
    SameLength(ids, start, table);
    ClaimKnown(short, pool, extra, start, table, n, m, claim, p);
    if e :| e in pool + extra && Hits(e, short, table, p) {
      var i := HitIndex(ids, start, table, e, short, p);
      assert start[Missing(start)[i]].Vacant?;
    }
  }

  /** What a slot that was vacant holds came from the transactions at hand, under its own identifier. */
  lemma VacancyServed(ids: seq<nat>, short: ShortID, pool: seq<PoolTx>, extra: seq<PoolTx>, start: seq<Slot>,
                      table: map<nat, nat>, n: nat, m: nat, claim: Claim, i: nat)
    requires n <= |pool| && m <= |extra| && Positions(ids, start, table) && InRange(table, |start|)
    requires i < |ids| && |start| <= UINT16
    requires claim == Swept(Swept(Unclaimed(start), pool, n, short, table, false), extra, m, short, table, true)[Missing(start)[i]]
    ensures FromPool(claim.slot, ids[i], short, pool + extra)
  {
    hide Swept, Hits, Positions, Vacancies, InRange;
    SameLength(ids, start, table);
    var p := Missing(start)[i];
    assert start[p].Vacant?;
    ClaimKnown(short, pool, extra, start, table, n, m, claim, p);
    if claim.slot.Filled? {
      var e :| e in pool + extra && Hits(e, short, table, p) && claim.slot == Filled(e.tx);
      var j := HitIndex(ids, start, table, e, short, p);
      VacanciesAscend(start, |start|);
      var k :| 0 <= k < |pool + extra| && (pool + extra)[k] == e;
    }
  }

  lemma SameLength(ids: seq<nat>, start: seq<Slot>, table: map<nat, nat>)
    requires Positions(ids, start, table)
    ensures |ids| == |Missing(start)|
  {
  }

  lemma {:induction false} HeldVacancies(start: seq<Slot>, claims: seq<Claim>, n: nat)
    requires n <= |start| == |claims|
    requires forall p :: 0 <= p < |start| && start[p].Filled? ==> claims[p] == Claim(false, start[p])
    requires forall p :: 0 <= p < |start| && !claims[p].have ==> claims[p].slot == start[p]
    ensures Held(claims, n) + |Vacancies(SlotsOf(claims), n)| == |Vacancies(start, n)|
  {
    if n > 0 {
      HeldVacancies(start, claims, n - 1);
    }
  }

  /**
   Reading a block of at most 65536 transactions leaves prefilled slots as they were and the
   others vacant or filled from the transactions at hand, and counts these exactly.
   */
  lemma InitializedReceived(c: CompactBlock, short: ShortID, pool: seq<PoolTx>, extra: seq<PoolTx>,
                            slots: seq<Slot>, count: nat, table: map<nat, nat>, n: nat, m: nat)
    requires Initialized(c, short, pool, extra, slots, count, table, n, m) && BlockTxCount(c) <= UINT16
    ensures var start := Placed(c, |c.prefilledtxn|);
            && |c.shorttxids| == |Missing(start)|
            && Received(c.shorttxids, start, slots, short, pool + extra)
            && count + |Missing(slots)| == |c.shorttxids|
  {
    hide Swept, Hits, Positions, Vacancies, InRange, Placed, Held, FromPool;
    var start := Placed(c, |c.prefilledtxn|);
    SameLength(c.shorttxids, start, table);
    var last := Swept(Swept(Unclaimed(start), pool, n, short, table, false), extra, m, short, table, true);
    forall p | 0 <= p < |start| && start[p].Filled? ensures last[p] == Claim(false, start[p]) {
      PrefilledKept(c.shorttxids, short, pool, extra, start, table, n, m, last[p], p);
    }
    forall p | 0 <= p < |start| && !last[p].have ensures last[p].slot == start[p] {
      ClaimKnown(short, pool, extra, start, table, n, m, last[p], p);
    }
    forall i | 0 <= i < |c.shorttxids| ensures FromPool(slots[Missing(start)[i]], c.shorttxids[i], short, pool + extra) {
      VacancyServed(c.shorttxids, short, pool, extra, start, table, n, m, last[Missing(start)[i]], i);
    }
    HeldVacancies(start, last, |start|);
  }

  /** A slot beyond 16 bits is never found, so the request names the missing positions only up to there. */
  lemma RequestExact(c: CompactBlock, short: ShortID, pool: seq<PoolTx>, extra: seq<PoolTx>,
                     slots: seq<Slot>, count: nat, table: map<nat, nat>, n: nat, m: nat)
    requires Initialized(c, short, pool, extra, slots, count, table, n, m)
    ensures |slots| == BlockTxCount(c)
    ensures Low16(Missing(slots)) == Missing(slots) <==> BlockTxCount(c) <= UINT16
    ensures BlockTxCount(c) > UINT16 ==> slots[UINT16].Vacant?
  {
    hide Swept, Hits, Positions, Vacancies, InRange, Placed, Held;
    var start := Placed(c, |c.prefilledtxn|);
    if BlockTxCount(c) > UINT16 {
      PlacedBeyond(c, UINT16);
      var last := Swept(Swept(Unclaimed(start), pool, n, short, table, false), extra, m, short, table, true);
      ClaimKnown(short, pool, extra, start, table, n, m, last[UINT16], UINT16);
      if e :| e in pool + extra && Hits(e, short, table, UINT16) {
        var i := HitIndex(c.shorttxids, start, table, e, short, UINT16);
      }
      VacancyListed(slots, |slots|, UINT16);
      var i :| 0 <= i < |Missing(slots)| && Missing(slots)[i] == UINT16;
      assert Low16(Missing(slots))[i] < UINT16;
    }
  }

  // ----- finding the vacant slots -----

  lemma NoVacancies(slots: seq<Slot>)
    ensures Vacancies(slots, 0) == []
  {
  }

  lemma FilledPassed(slots: seq<Slot>, p: nat)
    requires p < |slots| && slots[p].Filled?
    ensures Vacancies(slots, p + 1) == Vacancies(slots, p)
  {
  }

  /** While vacancies remain, the search has not run off the end. */
  lemma NextVacancy(slots: seq<Slot>, p: nat)
    requires p <= |slots| && |Vacancies(slots, p)| < |Missing(slots)|
    ensures p < |slots|
  {
  }

  lemma VacancyFound(slots: seq<Slot>, p: nat)
    requires p < |slots| && slots[p].Vacant?
    ensures |Vacancies(slots, p + 1)| == |Vacancies(slots, p)| + 1
    ensures |Vacancies(slots, p)| < |Missing(slots)| && Missing(slots)[|Vacancies(slots, p)|] == p
  {
    VacanciesPrefix(slots, p + 1, |slots|);
  }

  function Low16(v: seq<nat>): seq<uint16> {
    seq(|v|, i requires 0 <= i < |v| => v[i] % UINT16)
  }

  lemma VacancyAdded(slots: seq<Slot>, p: nat)
    requires p < |slots| && slots[p].Vacant?
    ensures Low16(Vacancies(slots, p + 1)) == Low16(Vacancies(slots, p)) + [p % UINT16]
  {
  }

  function IdSet(ids: seq<nat>, n: nat): set<nat>
    requires n <= |ids|
  {
    set i | 0 <= i < n :: ids[i]
  }

  lemma IdSetNext(ids: seq<nat>, n: nat)
    requires n < |ids|
    ensures IdSet(ids, n + 1) == IdSet(ids, n) + {ids[n]}
    ensures forall i :: 0 <= i < n ==> ids[i] in IdSet(ids, n)
  {
  }

  /** The table after the first `n` identifiers: a later one overwrites an earlier one that is equal. */
  predicate Mapped(ids: seq<nat>, slots: seq<Slot>, table: map<nat, nat>, n: nat)
    requires n <= |ids| == |Missing(slots)|
  {
    && table.Keys == IdSet(ids, n)
    && (Distinct(ids[..n]) ==> |table| == n && forall i :: 0 <= i < n ==> ids[i] in table && table[ids[i]] == Target(slots, i))
    && (!Distinct(ids[..n]) ==> |table| < n)
  }

  lemma MappedNext(ids: seq<nat>, slots: seq<Slot>, table: map<nat, nat>, n: nat)
    requires n < |ids| == |Missing(slots)| && Mapped(ids, slots, table, n)
    ensures Mapped(ids, slots, table[ids[n] := Target(slots, n)], n + 1)
  {
    hide Vacancies, Distinct, IdSet;
    DistinctNext(ids, n);
    IdSetNext(ids, n);
    KeysCount(table, ids[n], Target(slots, n));
  }

  lemma KeysCount(table: map<nat, nat>, k: nat, v: nat)
    ensures |table[k := v]| == |table| + if k in table then 0 else 1
    ensures table[k := v].Keys == table.Keys + {k}
  {
    if k in table {
      assert table[k := v].Keys == table.Keys;
    } else {
      assert table[k := v].Keys == table.Keys + {k};
    }
  }

  lemma MappedNone(ids: seq<nat>, slots: seq<Slot>)
    requires |ids| == |Missing(slots)|
    ensures Mapped(ids, slots, map[], 0)
  {
  }

  lemma DistinctNext(ids: seq<nat>, n: nat)
    requires n < |ids|
    ensures Distinct(ids[..n + 1]) <==> Distinct(ids[..n]) && ids[n] !in IdSet(ids, n)
  {
    var a, b := ids[..n], ids[..n + 1];
    assert forall i :: 0 <= i < n ==> a[i] == b[i] == ids[i];
    assert b[n] == ids[n];
    if Distinct(b) {
      forall i | 0 <= i < n ensures ids[i] != ids[n] {
        assert b[i] != b[n];
      }
    }
  }

  lemma MappedAll(ids: seq<nat>, slots: seq<Slot>, table: map<nat, nat>)
    requires |ids| == |Missing(slots)| && Mapped(ids, slots, table, |ids|)
    ensures |table| == |ids| <==> Distinct(ids)
    ensures Distinct(ids) ==> Positions(ids, slots, table)
  {
    assert ids[..|ids|] == ids;
  }

  // ----- the whole exchange -----

  /** The transactions at hand match the block's identifiers only where they are the block's own. */
  predicate NoMix(block: seq<Tx>, short: ShortID, useWtxid: bool, entries: seq<PoolTx>) {
    forall e :: e in entries ==>
      forall p :: 0 < p < |block| && short(e.hash) == IdOf(block[p], short, useWtxid) ==> e.tx == block[p]
  }

  function Verdict(r: CheckResult): ReadStatus {
    match r case Passes => Ok case CorruptionPossible => Failed case Fails => CheckBlockFailed
  }

  /** Answers a request from the block; false is a position outside it. */
  method SendBlockTransactions(block: seq<Tx>, indexes: seq<uint16>) returns (ok: bool, txn: seq<Tx>)
    ensures ok <==> forall i :: 0 <= i < |indexes| ==> indexes[i] < |block|
    ensures ok ==> txn == Answer(block, indexes)
  {
    txn := [];
    for i := 0 to |indexes|
      invariant |txn| == i && forall k :: 0 <= k < i ==> indexes[k] < |block| && txn[k] == block[indexes[k]]
    {
      if indexes[i] >= |block| {
        return false, txn;
      }
      txn := txn + [block[indexes[i]]];
    }
    ok := true;
  }

  /** A request over the wire: written as differences, read by the other side, and answered. */
  method Ask(block: seq<Tx>, request: seq<uint16>) returns (ok: bool, txn: seq<Tx>)
    ensures ok <==> StrictlyIncreasing(request) && forall i :: 0 <= i < |request| ==> request[i] < |block|
    ensures ok ==> txn == Answer(block, request)
  {
    hide EncodeIndexes, DecodeIndexes, StrictlyIncreasing, Sum;
    IndexesRoundTrip(request);
    var sent := new BlockTransactionsRequest(request);
    var d := sent.Write();
    var received := new BlockTransactionsRequest([]);
    ok := received.Read(d);
    txn := [];
    if ok {
      ok, txn := SendBlockTransactions(block, received.indexes[..]);
    }
  }

  /** The missing positions of a block of at most 65536 transactions can be asked for. */
  lemma AskMissing(slots: seq<Slot>)
    requires |slots| <= UINT16
    ensures Low16(Missing(slots)) == Missing(slots) && StrictlyIncreasing(Low16(Missing(slots)))
  {
    hide Vacancies;
    VacanciesAscend(slots, |slots|);
  }

  /** Position 65536 is asked for as position 0, so what comes for it is the block's first transaction. */
  lemma WrongAnswer(slots: seq<Slot>, block: seq<Tx>, txn: seq<Tx>)
    requires |slots| == |block| > UINT16 && slots[UINT16].Vacant? && |txn| == |Missing(slots)|
    requires forall i :: 0 <= i < |txn| ==> txn[i] == block[Missing(slots)[i] % UINT16]
    ensures |Filling(slots, txn, |slots|)| == |block| && Filling(slots, txn, |slots|)[UINT16] == block[0]
  {
    hide Vacancies, Filling;
    FillingAt(slots, txn, |slots|, UINT16);
    VacancyFound(slots, UINT16);
  }

  /** The first transaction is not repeated at position 65536; in a block without duplicates it is not. */
  predicate FirstNotRepeated(block: seq<Tx>) {
    |block| > UINT16 ==> block[UINT16] != block[0]
  }

  /**
   A block is sent in compact form, read, its missing transactions requested over the wire and
   answered, and the gaps filled. Up to 65536 transactions every gap is filled, and unless a
   transaction at hand passes for another, the receiver ends with the block; beyond, it never does,
   unless the first transaction is repeated at position 65536.
   */
  method Relay(block: seq<Tx>, short: ShortID, useWtxid: bool, pool: seq<PoolTx>, extra: seq<PoolTx>, maxTxCount: nat,
               crowded: nat -> bool, check: seq<Tx> -> CheckResult)
    returns (read: ReadStatus, answered: bool, status: ReadStatus, rebuilt: seq<Tx>)
    requires 1 <= |block| && !block[0].isNull
    ensures read == Ok <==> && |block| <= maxTxCount && Distinct(Compress(block, short, useWtxid).shorttxids)
                            && forall i :: 0 <= i < |block| - 1 ==> !crowded(i)
    ensures read == Ok && |block| <= UINT16 ==> answered && |rebuilt| == |block| && status == Verdict(check(rebuilt))
    ensures read == Ok && |block| <= UINT16 && NoMix(block, short, useWtxid, pool + extra) ==> rebuilt == block
    ensures |block| > UINT16 && answered ==> |rebuilt| == |block| && rebuilt[UINT16] == block[0]
    ensures read == Ok && NoMix(block, short, useWtxid, pool + extra) && FirstNotRepeated(block) ==>
              (rebuilt == block <==> |block| <= UINT16)
  {
    hide Received, Filling, Describes, Placed, Genuine, Vacancies, Initialized, AllPlaceable, Distinct, StrictlyIncreasing, NoMix;
    var c := Compress(block, short, useWtxid);
    CompressDescribes(block, short, useWtxid);
    var receiver := new PartiallyDownloadedBlock();
    var ends;
    ghost var table, n, m;
    read, ends, table, n, m := receiver.InitData(c, short, pool, extra, maxTxCount, crowded);
    answered, status, rebuilt := false, read, [];
    if read == Ok {
      ghost var slots, count := receiver.txnAvailable, receiver.mempoolCount;
      RequestExact(c, short, pool, extra, slots, count, table, n, m);
      var request := receiver.RequestMissing();
      var txn;
      answered, txn := Ask(block, request);
      if answered {
        status, rebuilt := receiver.FillBlock(txn, check);
      }
      if |block| > UINT16 {
        if answered {
          WrongAnswer(slots, block, txn);
        }
      } else {
        AskMissing(slots);
        FillingLength(slots, txn, |slots|);
        InitializedReceived(c, short, pool, extra, slots, count, table, n, m);
        if NoMix(block, short, useWtxid, pool + extra) {
          DescribesParts(c, block, short, useWtxid);
          SenderGenuine(block, short, useWtxid, pool + extra);
          ReceivedAgrees(c.shorttxids, Placed(c, 1), slots, block, short, pool + extra);
          FillingRebuilds(slots, block, |block|);
          assert block[..|block|] == block;
        }
      }
    }
  }

  lemma DescribesParts(c: CompactBlock, block: seq<Tx>, short: ShortID, useWtxid: bool)
    requires AllPlaceable(c) && Describes(c, block, short, useWtxid)
    ensures Agrees(Placed(c, |c.prefilledtxn|), block) && |c.shorttxids| == |Missing(Placed(c, |c.prefilledtxn|))|
  {
  }

  lemma SenderGenuine(block: seq<Tx>, short: ShortID, useWtxid: bool, entries: seq<PoolTx>)
    requires 1 <= |block| && !block[0].isNull && NoMix(block, short, useWtxid, entries)
    ensures var c := Compress(block, short, useWtxid);
            && AllPlaceable(c) && |Placed(c, 1)| == |block| && |c.shorttxids| == |Missing(Placed(c, 1))|
            && Genuine(c.shorttxids, Placed(c, 1), block, short, entries)
  {
    var c := Compress(block, short, useWtxid);
    CompressDescribes(block, short, useWtxid);
    var slots := Placed(c, 1);
    assert slots == Placed(c, 0)[0 := Filled(block[0])];
    TailVacancies(slots, |slots|);
    forall k, i | 0 <= k < |entries| && 0 <= i < |c.shorttxids| && short(entries[k].hash) == c.shorttxids[i]
      ensures entries[k].tx == block[Missing(slots)[i]]
    {
      assert entries[k] in entries && Missing(slots)[i] == i + 1;
    }
  }
}
