/**
 Compact blocks: the sender gives some transactions in full and short identifiers for the rest;
 the receiver places what it has, asks for what is missing by position, and fills the gaps.
 */
module CompactBlocks {

  datatype Tx = Tx(txid: nat, wtxid: nat, isNull: bool)
  datatype Slot = Vacant | Filled(tx: Tx)

  const UINT16: nat := 0x1_0000
  type uint16 = x: nat | x < 0x1_0000

  /** A transaction given in full; the index counts from after the previous one. */
  datatype Prefilled = Prefilled(index: uint16, tx: Tx)

  datatype CompactBlock = CompactBlock(headerIsNull: bool, shorttxids: seq<nat>, prefilledtxn: seq<Prefilled>)

  function BlockTxCount(c: CompactBlock): nat { |c.shorttxids| + |c.prefilledtxn| }

  // ----- vacant slots -----

  /** The vacant positions among the first `n`, in order. */
  function Vacancies(slots: seq<Slot>, n: nat): (v: seq<nat>)
    requires n <= |slots|
    ensures |v| <= n && forall i :: 0 <= i < |v| ==> v[i] < n && slots[v[i]].Vacant?
  {
    if n == 0 then []
    else if slots[n - 1].Vacant? then Vacancies(slots, n - 1) + [n - 1]
    else Vacancies(slots, n - 1)
  }

  function Missing(slots: seq<Slot>): seq<nat> { Vacancies(slots, |slots|) }

  /** The vacancies of a prefix are a prefix of the vacancies. */
  lemma {:induction false} VacanciesPrefix(slots: seq<Slot>, m: nat, n: nat)
    requires m <= n <= |slots|
    ensures Vacancies(slots, m) <= Vacancies(slots, n)
    decreases n
  {
    if m < n {
      VacanciesPrefix(slots, m, n - 1);
    }
  }

  lemma {:induction false} VacanciesAscend(slots: seq<Slot>, n: nat)
    requires n <= |slots|
    ensures forall i, j :: 0 <= i < j < |Vacancies(slots, n)| ==> Vacancies(slots, n)[i] < Vacancies(slots, n)[j]
  {
    if n > 0 {
      VacanciesAscend(slots, n - 1);
    }
  }

  lemma {:induction false} VacancyListed(slots: seq<Slot>, n: nat, p: nat)
    requires p < n <= |slots| && slots[p].Vacant?
    ensures p in Vacancies(slots, n)
  {
    if p < n - 1 {
      VacancyListed(slots, n - 1, p);
    }
  }

  /** Filling a vacant slot takes one vacancy away; emptying a filled one gives it back. */
  lemma {:induction false} VacanciesCount(slots: seq<Slot>, n: nat, p: nat, s: Slot)
    requires n <= |slots| && p < |slots|
    ensures |Vacancies(slots[p := s], n)| == |Vacancies(slots, n)|
              + (if p < n && s.Vacant? then 1 else 0) - (if p < n && slots[p].Vacant? then 1 else 0)
  {
    if n > 0 {
      VacanciesCount(slots, n - 1, p, s);
    }
  }

  /** The filled slots of a prefix are not more than those of a longer one. */
  lemma {:induction false} FilledGrows(slots: seq<Slot>, m: nat, n: nat)
    requires m <= n <= |slots|
    ensures m - |Vacancies(slots, m)| <= n - |Vacancies(slots, n)|
    decreases n
  {
    if m < n {
      FilledGrows(slots, m, n - 1);
    }
  }

  /** No slot from position 65536 on is filled. */
  predicate Within16(slots: seq<Slot>) {
    forall p :: UINT16 <= p < |slots| ==> slots[p].Vacant?
  }

  lemma {:induction false} FilledWithin16(slots: seq<Slot>, n: nat)
    requires Within16(slots) && UINT16 <= n <= |slots|
    ensures n - |Vacancies(slots, n)| == UINT16 - |Vacancies(slots, UINT16)|
  {
    if n > UINT16 {
      FilledWithin16(slots, n - 1);
    }
  }

  /** With a vacancy below 65536, fewer than 65536 slots are filled. */
  lemma FewerFilled(slots: seq<Slot>, q: nat)
    requires Within16(slots) && q < UINT16 && q < |slots| && slots[q].Vacant?
    ensures |slots| - |Missing(slots)| < UINT16
  {
    hide Vacancies;
    if |slots| <= UINT16 {
      VacancyListed(slots, |slots|, q);
    } else {
      FilledWithin16(slots, |slots|);
      VacancyListed(slots, UINT16, q);
    }
  }

  /** When 65536 filled slots were passed, they are all there are, and the first ones. */
  lemma AllPassed(slots: seq<Slot>, i: nat)
    requires Within16(slots) && i + UINT16 <= |slots| && |Vacancies(slots, i + UINT16)| == i && slots[i + UINT16 - 1].Filled?
    ensures i == 0 && |slots| - |Missing(slots)| == UINT16 && forall offset: uint16 :: slots[offset].Filled?
  {
    hide Vacancies;
    FilledWithin16(slots, |slots|);
    forall offset: uint16 ensures slots[offset].Filled? {
      if slots[offset].Vacant? {
        VacancyListed(slots, UINT16, offset);
      }
    }
  }

  lemma {:induction false} AllVacant(slots: seq<Slot>, n: nat)
    requires n <= |slots| && forall p :: 0 <= p < |slots| ==> slots[p].Vacant?
    ensures |Vacancies(slots, n)| == n
  {
    if n > 0 {
      AllVacant(slots, n - 1);
    }
  }

  // ----- placing the transactions given in full -----

  /** The position of prefilled transaction `i`. */
  function Position(pre: seq<Prefilled>, i: nat): (p: nat)
    requires i < |pre|
  {
    if i == 0 then pre[0].index else Position(pre, i - 1) + pre[i].index + 1
  }

  /** The checks a receiver makes on prefilled transaction `i`. */
  predicate PrefilledOk(c: CompactBlock, i: nat)
    requires i < |c.prefilledtxn|
  {
    && !c.prefilledtxn[i].tx.isNull
    && Position(c.prefilledtxn, i) < UINT16
    && Position(c.prefilledtxn, i) <= |c.shorttxids| + i
  }

  /** The slots with the first `n` prefilled transactions in place. */
  function Placed(c: CompactBlock, n: nat): (slots: seq<Slot>)
    requires n <= |c.prefilledtxn| && forall i :: 0 <= i < n ==> PrefilledOk(c, i)
    ensures |slots| == BlockTxCount(c)
  {
    if n == 0 then seq(BlockTxCount(c), _ => Vacant)
    else
      assert PrefilledOk(c, n - 1);
      Placed(c, n - 1)[Position(c.prefilledtxn, n - 1) := Filled(c.prefilledtxn[n - 1].tx)]
  }

  lemma {:induction false} PlacedAbove(c: CompactBlock, n: nat, p: nat)
    requires n <= |c.prefilledtxn| && forall i :: 0 <= i < n ==> PrefilledOk(c, i)
    requires p < BlockTxCount(c) && (n > 0 ==> p > Position(c.prefilledtxn, n - 1))
    ensures Placed(c, n)[p].Vacant?
  {
    if n > 1 {
      assert Position(c.prefilledtxn, n - 1) > Position(c.prefilledtxn, n - 2);
    }
    if n > 0 {
      assert PrefilledOk(c, n - 1);
      PlacedAbove(c, n - 1, p);
    }
  }

  /** As many slots stay vacant as there are short identifiers. */
  lemma {:induction false} PlacedVacancies(c: CompactBlock, n: nat)
    requires n <= |c.prefilledtxn| && forall i :: 0 <= i < n ==> PrefilledOk(c, i)
    ensures |Missing(Placed(c, n))| == BlockTxCount(c) - n
  {
    if n == 0 {
      AllVacant(Placed(c, 0), BlockTxCount(c));
    } else {
      hide Vacancies;
      assert PrefilledOk(c, n - 1);
      var p := Position(c.prefilledtxn, n - 1);
      PlacedVacancies(c, n - 1);
      assert n > 1 ==> p > Position(c.prefilledtxn, n - 2);
      PlacedAbove(c, n - 1, p);
      VacanciesCount(Placed(c, n - 1), BlockTxCount(c), p, Filled(c.prefilledtxn[n - 1].tx));
    }
  }

  /** Positions go up by at least one. */
  lemma {:induction false} PositionsAscend(pre: seq<Prefilled>, i: nat, j: nat)
    requires i <= j < |pre|
    ensures Position(pre, i) + (j - i) <= Position(pre, j) && i <= Position(pre, i)
    decreases j
  {
    if i < j {
      PositionsAscend(pre, i, j - 1);
    } else if i > 0 {
      PositionsAscend(pre, i - 1, i - 1);
    }
  }

  /** Every prefilled transaction is in its place. */
  lemma {:induction false} PlacedAt(c: CompactBlock, n: nat, i: nat)
    requires i < n <= |c.prefilledtxn| && forall k :: 0 <= k < n ==> PrefilledOk(c, k)
    ensures Position(c.prefilledtxn, i) < BlockTxCount(c)
    ensures Placed(c, n)[Position(c.prefilledtxn, i)] == Filled(c.prefilledtxn[i].tx)
  {
    assert PrefilledOk(c, n - 1);
    if i < n - 1 {
      PlacedAt(c, n - 1, i);
      PositionsAscend(c.prefilledtxn, i, n - 1);
    }
  }

  /** A message that is accepted has at most 65536 prefilled transactions. */
  lemma FewPrefilled(c: CompactBlock)
    requires AllPlaceable(c)
    ensures |c.prefilledtxn| <= UINT16
  {
    if |c.prefilledtxn| > UINT16 {
      assert PrefilledOk(c, UINT16);
      PositionsAscend(c.prefilledtxn, UINT16, UINT16);
    }
  }

  /**
   With as many as 65536 of them, the slot at every 16-bit offset is taken: a search for a vacant
   slot by a 16-bit offset that starts from the first identifier does not end.
   */
  lemma EveryOffsetTaken(c: CompactBlock, offset: uint16)
    requires AllPlaceable(c) && |c.prefilledtxn| == UINT16
    ensures Placed(c, UINT16)[offset].Filled?
  {
    assert PrefilledOk(c, UINT16 - 1);
    PositionsAscend(c.prefilledtxn, offset, UINT16 - 1);
    PlacedAt(c, UINT16, offset);
  }

  lemma {:induction false} PositionsOfZeros(pre: seq<Prefilled>, i: nat)
    requires i < |pre| && forall k :: 0 <= k < |pre| ==> pre[k].index == 0
    ensures Position(pre, i) == i
  {
    if i > 0 {
      PositionsOfZeros(pre, i - 1);
    }
  }

  /** 65536 transactions given in full, one after another, and one identifier. */
  function Endless(tx: Tx, id: nat): CompactBlock {
    CompactBlock(false, [id], seq(UINT16, _ => Prefilled(0, tx)))
  }

  /** Such a message passes the receiver's checks, and no 16-bit offset finds the vacant slot. */
  lemma EndlessAccepted(tx: Tx, id: nat)
    requires !tx.isNull
    ensures AllPlaceable(Endless(tx, id))
    ensures forall offset: uint16 :: Placed(Endless(tx, id), UINT16)[offset].Filled?
  {
    var c := Endless(tx, id);
    forall i | 0 <= i < |c.prefilledtxn| ensures PrefilledOk(c, i) {
      PositionsOfZeros(c.prefilledtxn, i);
    }
    forall offset: uint16 ensures Placed(c, UINT16)[offset].Filled? {
      EveryOffsetTaken(c, offset);
    }
  }

  /** A message with identifiers that passes the checks has a vacant slot at a 16-bit offset exactly if it prefills fewer than 65536. */
  lemma SearchEnds(c: CompactBlock)
    requires AllPlaceable(c) && c.shorttxids != []
    ensures (exists offset: uint16 :: offset < BlockTxCount(c) && Placed(c, |c.prefilledtxn|)[offset].Vacant?)
            <==> |c.prefilledtxn| < UINT16
  {
    var slots := Placed(c, |c.prefilledtxn|);
    FewPrefilled(c);
    if |c.prefilledtxn| == UINT16 {
      forall offset: uint16 | offset < BlockTxCount(c) ensures slots[offset].Filled? {
        EveryOffsetTaken(c, offset);
      }
    } else {
      PlacedVacancies(c, |c.prefilledtxn|);
      FilledGrows(slots, |c.prefilledtxn| + 1, |slots|);
      var v := Vacancies(slots, |c.prefilledtxn| + 1);
      assert v != [];
      assert slots[v[0]].Vacant? && v[0] < UINT16;
    }
  }

  /** No slot beyond 16 bits is prefilled. */
  lemma PlacedBeyond(c: CompactBlock, p: nat)
    requires AllPlaceable(c) && UINT16 <= p < BlockTxCount(c)
    ensures Placed(c, |c.prefilledtxn|)[p].Vacant?
  {
    if c.prefilledtxn != [] {
      assert PrefilledOk(c, |c.prefilledtxn| - 1);
    }
    PlacedAbove(c, |c.prefilledtxn|, p);
  }

  lemma PlacedWithin16(c: CompactBlock)
    requires AllPlaceable(c)
    ensures Within16(Placed(c, |c.prefilledtxn|))
  {
    hide Placed;
    forall p | UINT16 <= p < BlockTxCount(c) ensures Placed(c, |c.prefilledtxn|)[p].Vacant? {
      PlacedBeyond(c, p);
    }
  }

  // ----- what a compact block says about a block -----

  /** The short identifier of a transaction hash, under the keys drawn for this block. */
  type ShortID = nat -> nat

  predicate AllPlaceable(c: CompactBlock) {
    forall i :: 0 <= i < |c.prefilledtxn| ==> PrefilledOk(c, i)
  }

  /** Every slot that is filled holds the transaction of that position. */
  predicate Agrees(slots: seq<Slot>, block: seq<Tx>) {
    |slots| == |block| && forall p :: 0 <= p < |slots| && slots[p].Filled? ==> slots[p].tx == block[p]
  }

  /** Prefilled transactions are in their places, and the identifiers are those of the others, in order. */
  predicate Describes(c: CompactBlock, block: seq<Tx>, short: ShortID, useWtxid: bool)
    requires AllPlaceable(c)
  {
    var slots := Placed(c, |c.prefilledtxn|);
    && Agrees(slots, block)
    && |c.shorttxids| == |Missing(slots)|
    && forall i :: 0 <= i < |c.shorttxids| ==> c.shorttxids[i] == IdOf(block[Missing(slots)[i]], short, useWtxid)
  }

  function IdOf(tx: Tx, short: ShortID, useWtxid: bool): nat {
    short(if useWtxid then tx.wtxid else tx.txid)
  }

  /** The sender's form of a block: the first transaction in full, identifiers for the rest. */
  function Compress(block: seq<Tx>, short: ShortID, useWtxid: bool): CompactBlock
    requires |block| >= 1
  {
    CompactBlock(false,
                 seq(|block| - 1, i requires 0 <= i < |block| - 1 => IdOf(block[i + 1], short, useWtxid)),
                 [Prefilled(0, block[0])])
  }

  lemma {:induction false} TailVacancies(slots: seq<Slot>, n: nat)
    requires 1 <= n <= |slots| && slots[0].Filled? && forall p :: 0 < p < |slots| ==> slots[p].Vacant?
    ensures |Vacancies(slots, n)| == n - 1 && forall i :: 0 <= i < n - 1 ==> Vacancies(slots, n)[i] == i + 1
  {
    if n > 1 {
      TailVacancies(slots, n - 1);
    }
  }

  /** The sender's form describes the block. */
  lemma CompressDescribes(block: seq<Tx>, short: ShortID, useWtxid: bool)
    requires |block| >= 1 && !block[0].isNull
    ensures AllPlaceable(Compress(block, short, useWtxid))
    ensures Describes(Compress(block, short, useWtxid), block, short, useWtxid)
  {
    var c := Compress(block, short, useWtxid);
    var slots := Placed(c, 1);
    assert slots == Placed(c, 0)[0 := Filled(block[0])];
    TailVacancies(slots, |slots|);
  }

  // ----- filling the gaps -----

  /** The first `n` transactions: those in place, and the missing ones in order. */
  function Filling(slots: seq<Slot>, missing: seq<Tx>, n: nat): seq<Tx>
    requires n <= |slots| && |Vacancies(slots, n)| <= |missing|
  {
    if n == 0 then []
    else if slots[n - 1].Vacant? then Filling(slots, missing, n - 1) + [missing[|Vacancies(slots, n - 1)|]]
    else Filling(slots, missing, n - 1) + [slots[n - 1].tx]
  }

  /** What the sender answers to a request for the missing positions. */
  function Answer(block: seq<Tx>, request: seq<nat>): (txs: seq<Tx>)
    requires forall i :: 0 <= i < |request| ==> request[i] < |block|
    ensures |txs| == |request| && forall i :: 0 <= i < |txs| ==> txs[i] == block[request[i]]
  {
    seq(|request|, i requires 0 <= i < |request| => block[request[i]])
  }

  /** Slots that agree with the block, and the missing transactions in order, make the block. */
  lemma {:induction false} FillingRebuilds(slots: seq<Slot>, block: seq<Tx>, n: nat)
    requires Agrees(slots, block) && n <= |slots|
    ensures |Vacancies(slots, n)| <= |Missing(slots)|
    ensures Filling(slots, Answer(block, Missing(slots)), n) == block[..n]
  {
    VacanciesPrefix(slots, n, |slots|);
    if n > 0 {
      FillingRebuilds(slots, block, n - 1);
      assert block[..n] == block[..n - 1] + [block[n - 1]];
      if slots[n - 1].Vacant? {
        assert Missing(slots)[|Vacancies(slots, n - 1)|] == n - 1;
      }
    }
  }

  /** What a gap is filled with: the missing transaction of its rank. */
  lemma {:induction false} FillingAt(slots: seq<Slot>, missing: seq<Tx>, n: nat, p: nat)
    requires p < n <= |slots| && slots[p].Vacant? && |Vacancies(slots, n)| <= |missing|
    ensures |Filling(slots, missing, n)| == n
    ensures |Vacancies(slots, p)| < |missing| && Filling(slots, missing, n)[p] == missing[|Vacancies(slots, p)|]
  {
    FillingLength(slots, missing, n - 1);
    if p < n - 1 {
      FillingAt(slots, missing, n - 1, p);
    }
  }

  lemma {:induction false} FillingLength(slots: seq<Slot>, missing: seq<Tx>, n: nat)
    requires n <= |slots| && |Vacancies(slots, n)| <= |missing|
    ensures |Filling(slots, missing, n)| == n
  {
    if n > 0 {
      FillingLength(slots, missing, n - 1);
    }
  }

  // ----- requests for missing transactions -----

  const UINT64: nat := 0x1_0000_0000_0000_0000

  datatype Indexes = Overflow | Indexes(list: seq<uint16>)

  /** The difference written for entry `i`, as an unsigned 64-bit number. */
  function Difference(list: seq<uint16>, i: nat): nat
    requires i < |list|
  {
    (list[i] - if i == 0 then 0 else list[i - 1] + 1) % UINT64
  }

  function EncodeIndexes(list: seq<uint16>): (d: seq<nat>)
    ensures |d| == |list| && forall i :: 0 <= i < |d| ==> d[i] == Difference(list, i)
  {
    seq(|list|, i requires 0 <= i < |list| => Difference(list, i))
  }

  /** The offset that the next difference counts from: a 16-bit number. */
  function Offset(list: seq<uint16>): uint16 {
    if list == [] then 0 else (list[|list| - 1] + 1) % UINT16
  }

  /** Adding the differences up, with the checks for 16 bits. */
  function DecodeIndexes(d: seq<nat>): Indexes {
    if d == [] then Indexes([]) else
    match DecodeIndexes(d[..|d| - 1])
    case Overflow => Overflow
    case Indexes(list) =>
      if d[|d| - 1] >= UINT16 || d[|d| - 1] + Offset(list) >= UINT16 then Overflow
      else Indexes(list + [d[|d| - 1] + Offset(list)])
  }

  predicate StrictlyIncreasing(list: seq<uint16>) {
    forall i :: 0 < i < |list| ==> list[i - 1] < list[i]
  }

  /** The encoding round-trips on exactly the strictly increasing lists. */
  lemma {:induction false} IndexesRoundTrip(list: seq<uint16>)
    ensures DecodeIndexes(EncodeIndexes(list)) == Indexes(list) <==> StrictlyIncreasing(list)
    ensures !StrictlyIncreasing(list) ==> DecodeIndexes(EncodeIndexes(list)) == Overflow
  {
    if list != [] {
      var front, last := list[..|list| - 1], list[|list| - 1];
      IndexesRoundTrip(front);
      EncodedFront(list);
      IncreasingFront(list);
      LastDifference(list);
    }
  }

  lemma EncodedFront(list: seq<uint16>)
    requires list != []
    ensures EncodeIndexes(list)[..|list| - 1] == EncodeIndexes(list[..|list| - 1])
  {
  }

  lemma IncreasingFront(list: seq<uint16>)
    requires list != []
    ensures var front, n := list[..|list| - 1], |list| - 1;
            StrictlyIncreasing(list) <==> StrictlyIncreasing(front) && (n > 0 ==> list[n - 1] < list[n])
  {
    var front := list[..|list| - 1];
    assert forall i :: 0 <= i < |front| ==> front[i] == list[i];
  }

  /** A step up is written as a small number that reads back; a step down is written as a huge one. */
  lemma LastDifference(list: seq<uint16>)
    requires list != []
    ensures var front, n := list[..|list| - 1], |list| - 1;
            if n == 0 || list[n - 1] < list[n] then
              Difference(list, n) < UINT16 && Difference(list, n) + Offset(front) == list[n]
            else Difference(list, n) >= UINT16
  {
  }

  function Sum(d: seq<nat>): nat {
    if d == [] then 0 else Sum(d[..|d| - 1]) + d[|d| - 1]
  }

  /**
   Differences are read, and read as a strictly increasing list, exactly if they and the steps
   of one between them stay within 16 bits; the last position is then their sum with these steps.
   */
  lemma {:induction false} DecodedIncreasing(d: seq<nat>)
    ensures DecodeIndexes(d).Indexes? && StrictlyIncreasing(DecodeIndexes(d).list) <==> Sum(d) + |d| <= UINT16
    ensures d != [] && Sum(d) + |d| <= UINT16 ==>
              |DecodeIndexes(d).list| == |d| && DecodeIndexes(d).list[|d| - 1] == Sum(d) + |d| - 1
  {
    if d != [] {
      var before := d[..|d| - 1];
      DecodedIncreasing(before);
      DecodedLength(before);
      if DecodeIndexes(d).Indexes? {
        var list := DecodeIndexes(d).list;
        assert list[..|list| - 1] == DecodeIndexes(before).list;
        IncreasingFront(list);
      }
    }
  }

  lemma {:induction false} DecodedLength(d: seq<nat>)
    ensures DecodeIndexes(d).Indexes? ==> |DecodeIndexes(d).list| == |d|
  {
    if d != [] {
      DecodedLength(d[..|d| - 1]);
    }
  }

  /** After the largest 16-bit number the offset wraps around, and a list out of order is accepted. */
  lemma DecodedWraps()
    ensures DecodeIndexes([UINT16 - 1, 5]) == Indexes([UINT16 - 1, 5]) && !StrictlyIncreasing([UINT16 - 1, 5])
  {
    var d := [UINT16 - 1, 5];
    assert d[..1] == [UINT16 - 1] && [UINT16 - 1][..0] == [];
    assert DecodeIndexes([]) == Indexes([]);
    assert DecodeIndexes([UINT16 - 1]) == Indexes([UINT16 - 1]);
    var list: seq<uint16> := [UINT16 - 1, 5];
    assert list[1 - 1] >= list[1];
  }
}
