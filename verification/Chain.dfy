/** The block tree with its skip pointers, and the active chain as an array of block entries. */
module Chain {
  import opened Powers
  import Compact
  import Limbs

  // ----- skip heights -----

  function InvertLowestOne(n: nat): nat {
    if n == 0 then 0 else BitAnd(n, n - 1)
  }

  lemma {:induction false} AndSelf(n: nat)
    ensures BitAnd(n, n) == n
  {
    if n > 0 {
      AndSelf(n / 2);
    }
  }

  /** Inverting the lowest one takes away the largest power of two that divides the number. */
  lemma {:induction false} LowestOne(n: nat) returns (k: nat)
    requires n > 0
    ensures n % Pow(2, k) == 0 && n % Pow(2, k + 1) != 0 && InvertLowestOne(n) == n - Pow(2, k)
  {
    if n % 2 == 1 {
      AndSelf(n / 2);
      assert (n - 1) / 2 == n / 2;
      k := 0;
      assert Pow(2, 1) == 2;
    } else {
      k := LowestOne(n / 2);
      assert (n - 1) / 2 == n / 2 - 1;
      EvenMultiple(n / 2, Pow(2, k));
      EvenMultiple(n / 2, Pow(2, k + 1));
      k := k + 1;
    }
  }

  lemma EvenMultiple(m: nat, p: nat)
    requires p > 0
    ensures (2 * m) % (2 * p) == 2 * (m % p)
  {
    assert 2 * m == (m / p) * (2 * p) + 2 * (m % p);
    DivUnique(2 * m, 2 * p, m / p, 2 * (m % p));
  }

  function GetSkipHeight(height: nat): nat {
    if height < 2 then 0
    else if height % 2 == 1 then InvertLowestOne(InvertLowestOne(height - 1)) + 1
    else InvertLowestOne(height)
  }

  /** A skip always goes back. */
  lemma SkipGoesBack(height: nat)
    requires height >= 1
    ensures GetSkipHeight(height) < height
  {
    if height >= 2 {
      var _ := LowestOne(if height % 2 == 1 then height - 1 else height);
    }
  }

  // ----- the tree -----

  class CBlockIndex {
    const hash: nat
    const pprev: CBlockIndex?
    const nHeight: int
    const nTime: nat
    const nTimeMax: nat
    const nBits: Limbs.uint32
    const nChainWork: nat
    var pskip: CBlockIndex?

    constructor (hash: nat, prev: CBlockIndex?, nTime: nat, nBits: Limbs.uint32)
      requires prev != null ==> Grounded(prev)
      ensures this.hash == hash && pprev == prev && this.nTime == nTime && this.nBits == nBits
      ensures pskip == null && Grounded(this) && WorkRight(this)
    {
      this.hash, pprev, this.nTime, this.nBits := hash, prev, nTime, nBits;
      nHeight := if prev == null then 0 else prev.nHeight + 1;
      nTimeMax := if prev == null || prev.nTimeMax < nTime then nTime else prev.nTimeMax;
      nChainWork := WorkAfter(if prev == null then 0 else prev.nChainWork, nBits);
      pskip := null;
    }

    /**
     A header that names itself as its predecessor: it is looked up after it was put into the map,
     so it is found, at height zero, and the walk for its skip pointer ends at it.
     */
    constructor OwnPredecessor(hash: nat, nTime: nat, nBits: Limbs.uint32)
      ensures this.hash == hash && pprev == this && nHeight == 1 && this.nTime == nTime && this.nBits == nBits && pskip == this
      ensures nChainWork == WorkAfter(0, nBits)
    {
      this.hash, this.nTime, this.nBits := hash, nTime, nBits;
      pprev := this;
      nHeight, nTimeMax := 1, nTime;
      nChainWork := WorkAfter(0, nBits);
      pskip := this;
    }

    method BuildSkip(ghost tree: set<CBlockIndex>)
      requires Tree(tree) && Grounded(this) && this !in tree && (pprev != null ==> pprev in tree)
      modifies this`pskip
      ensures Tree(tree) && (pskip == old(pskip) || pprev != null)
      ensures pprev != null ==> GetSkipHeight(nHeight) < nHeight && pskip == AncestorAt(this, GetSkipHeight(nHeight))
    {
      hide Back, AncestorAt, Tree, GetSkipHeight;
      if pprev != null {
        TreeGrounds(tree, pprev);
        SkipGoesBack(nHeight);
        AncestorOfPrev(this, GetSkipHeight(nHeight));
        pskip := pprev.GetAncestor(GetSkipHeight(nHeight), tree);
      }
    }

    /** The fast walk: skip pointers where they do not overshoot and are not worse than the next one. */
    method GetAncestor(height: int, ghost tree: set<CBlockIndex>) returns (r: CBlockIndex?)
      requires Tree(tree) && this in tree
      ensures r == if height > nHeight || height < 0 then null else AncestorAt(this, height)
      ensures r != null ==> r in tree
    {
      hide GetSkipHeight, Back;
      if height > nHeight || height < 0 {
        return null;
      }
      var walk: CBlockIndex := this;
      var heightWalk := nHeight;
      while heightWalk > height
        invariant walk in tree && heightWalk == walk.nHeight && height <= heightWalk
        invariant AncestorAt(walk, height) == AncestorAt(this, height)
        decreases heightWalk
      {
        SkipGoesBack(heightWalk);
        var heightSkip := GetSkipHeight(heightWalk);
        var heightSkipPrev := GetSkipHeight(heightWalk - 1);
        if walk.pskip != null && (heightSkip == height || (heightSkip > height
            && !(heightSkipPrev < heightSkip - 2 && heightSkipPrev >= height))) {
          AncestorOfAncestor(walk, heightSkip, height);
          walk := walk.pskip;
          heightWalk := heightSkip;
        } else {
          AncestorOfPrev(walk, height);
          walk := walk.pprev;
          heightWalk := heightWalk - 1;
        }
      }
      AncestorSelf(walk);
      r := walk;
    }
  }

  /** Heights count the steps back to a block without predecessor, and times are gathered along them. */
  ghost predicate Grounded(b: CBlockIndex)
    decreases b.nHeight
  {
    && b.nHeight >= 0
    && (if b.pprev == null then b.nHeight == 0 && b.nTimeMax == b.nTime
        else
          && b.pprev.nHeight == b.nHeight - 1 && Grounded(b.pprev)
          && b.nTimeMax == if b.pprev.nTimeMax < b.nTime then b.nTime else b.pprev.nTimeMax)
  }

  /** The naive walk: so many steps along `pprev`. */
  ghost function Back(b: CBlockIndex, steps: nat): (r: CBlockIndex)
    requires Grounded(b) && steps <= b.nHeight
    ensures Grounded(r) && r.nHeight == b.nHeight - steps
  {
    if steps == 0 then b else Back(b.pprev, steps - 1)
  }

  ghost function AncestorAt(b: CBlockIndex, height: int): (r: CBlockIndex)
    requires Grounded(b) && 0 <= height <= b.nHeight
    ensures Grounded(r) && r.nHeight == height
  {
    Back(b, b.nHeight - height)
  }

  lemma {:induction false} BackAdds(b: CBlockIndex, m: nat, n: nat)
    requires Grounded(b) && m + n <= b.nHeight
    ensures Back(Back(b, m), n) == Back(b, m + n)
  {
    if m > 0 {
      BackAdds(b.pprev, m - 1, n);
    }
  }

  lemma AncestorOfAncestor(b: CBlockIndex, mid: int, height: int)
    requires Grounded(b) && 0 <= height <= mid <= b.nHeight
    ensures AncestorAt(AncestorAt(b, mid), height) == AncestorAt(b, height)
  {
    BackAdds(b, b.nHeight - mid, mid - height);
  }

  lemma AncestorOfPrev(b: CBlockIndex, height: int)
    requires Grounded(b) && 0 <= height < b.nHeight
    ensures b.pprev != null && Grounded(b.pprev) && AncestorAt(b.pprev, height) == AncestorAt(b, height)
  {
  }

  lemma AncestorSelf(b: CBlockIndex)
    requires Grounded(b)
    ensures AncestorAt(b, b.nHeight) == b
  {
  }

  /** Every skip pointer that is set leads to the ancestor at the skip height. */
  ghost predicate SkipRight(b: CBlockIndex)
    requires Grounded(b)
    reads b
  {
    b.pskip != null ==> b.nHeight >= 1 && GetSkipHeight(b.nHeight) < b.nHeight && b.pskip == AncestorAt(b, GetSkipHeight(b.nHeight))
  }

  /** A set of blocks closed under `pprev`, with right skip pointers. */
  ghost predicate Tree(tree: set<CBlockIndex>)
    reads tree
  {
    forall b :: b in tree ==>
      Grounded(b) && (b.pprev != null ==> b.pprev in tree) && (b.pskip != null ==> b.pskip in tree) && SkipRight(b)
  }

  lemma {:induction false} TreeHasAncestors(tree: set<CBlockIndex>, b: CBlockIndex, steps: nat)
    requires Tree(tree) && b in tree && steps <= b.nHeight
    ensures Back(b, steps) in tree
  {
    if steps > 0 {
      TreeHasAncestors(tree, b.pprev, steps - 1);
    }
  }

  /** The tree the program keeps: grown one block at a time, so that every pointer is set. */
  class BlockTree {
    var mapBlockIndex: map<nat, CBlockIndex>
    var pindexBestHeader: CBlockIndex?

    ghost function Nodes(): set<CBlockIndex>
      reads this
    {
      mapBlockIndex.Values
    }

    /** Every block is under its own hash, with its pointers set and its work added up, and none has more work than the best one. */
    ghost predicate Valid()
      reads this, Nodes()
    {
      Tree(Nodes()) && Skips(Nodes()) && (forall h :: h in mapBlockIndex ==> mapBlockIndex[h].hash == h)
      && Best(pindexBestHeader, Nodes()) && forall b :: b in Nodes() ==> WorkRight(b)
    }

    constructor ()
      ensures Valid() && mapBlockIndex == map[]
    {
      mapBlockIndex, pindexBestHeader := map[], null;
    }

    /**
     Adds a header under its hash, below the header it names; one that is known is found again.
     The index stays right unless a new header names itself.
     */
    method AddToBlockIndex(hash: nat, hashPrevBlock: nat, nTime: nat, nBits: Limbs.uint32) returns (b: CBlockIndex)
      requires Valid()
      modifies this
      ensures Valid() <==> hash in old(mapBlockIndex) || hashPrevBlock != hash
      ensures hash in old(mapBlockIndex) ==>
                mapBlockIndex == old(mapBlockIndex) && b == mapBlockIndex[hash] && pindexBestHeader == old(pindexBestHeader)
      ensures hash !in old(mapBlockIndex) ==>
        && fresh(b) && mapBlockIndex == old(mapBlockIndex)[hash := b] && b.hash == hash && b.nTime == nTime && b.nBits == nBits
        && b.pprev == (if hashPrevBlock in mapBlockIndex then mapBlockIndex[hashPrevBlock] else null)
        && b.nChainWork == WorkAfter(if b.pprev == null || b.pprev == b then 0 else b.pprev.nChainWork, nBits)
    {
      hide Back, GetSkipHeight, AncestorAt, Grounded, Tree, Skips, Best, WorkAfter;
      if hash in mapBlockIndex {
        return mapBlockIndex[hash];
      }
      if hashPrevBlock == hash {
        b := new CBlockIndex.OwnPredecessor(hash, nTime, nBits);
        ValuesAdd(mapBlockIndex, hash, b);
        mapBlockIndex := mapBlockIndex[hash := b];
        OwnIsNoTree(Nodes(), b);
        if pindexBestHeader == null || pindexBestHeader.nChainWork < b.nChainWork {
          pindexBestHeader := b;
        }
        return;
      }
      var prev: CBlockIndex? := if hashPrevBlock in mapBlockIndex then mapBlockIndex[hashPrevBlock] else null;
      ghost var tree := Nodes();
      if prev != null {
        TreeGrounds(tree, prev);
      }
      b := new CBlockIndex(hash, prev, nTime, nBits);
      b.BuildSkip(tree);
      TreeGrows(tree, b);
      BestGrows(pindexBestHeader, tree, b);
      ValuesAdd(mapBlockIndex, hash, b);
      mapBlockIndex := mapBlockIndex[hash := b];
      if pindexBestHeader == null || pindexBestHeader.nChainWork < b.nChainWork {
        pindexBestHeader := b;
      }
    }
  }

  lemma OwnIsNoTree(tree: set<CBlockIndex>, b: CBlockIndex)
    requires b in tree && b.pprev == b
    ensures !Tree(tree)
  {
  }

  // ----- work -----

  /** The work up to a block: that before it and its own, in 256 bits. */
  function WorkAfter(before: nat, nBits: Limbs.uint32): nat {
    (before + Compact.BlockProof(nBits)) % Compact.Range()
  }

  ghost predicate WorkRight(b: CBlockIndex) {
    b.nChainWork == WorkAfter(if b.pprev == null then 0 else b.pprev.nChainWork, b.nBits)
  }

  /** The work of a block and all its ancestors, in unbounded numbers. */
  ghost function TotalWork(b: CBlockIndex): nat
    requires Grounded(b)
    decreases b.nHeight
  {
    (if b.pprev == null then 0 else TotalWork(b.pprev)) + Compact.BlockProof(b.nBits)
  }

  lemma WorkStep(total: nat, proof: nat, range: nat)
    requires range > 0
    ensures (total % range + proof) % range == (total + proof) % range
  {
    assert total + proof == total % range + proof + (total / range) * range;
    DivAddMultiple(total % range + proof, range, total / range);
  }

  /** The recorded work is the work of the whole path, in 256 bits. */
  lemma {:induction false} WorkSums(tree: set<CBlockIndex>, b: CBlockIndex)
    requires Tree(tree) && (forall x :: x in tree ==> WorkRight(x)) && b in tree
    ensures Grounded(b) && b.nChainWork == TotalWork(b) % Compact.Range()
    decreases b.nHeight
  {
    hide Compact.BlockProof, Compact.Range, Back, AncestorAt;
    RangePositive();
    assert WorkRight(b);
    if b.pprev != null {
      WorkSums(tree, b.pprev);
      WorkStep(TotalWork(b.pprev), Compact.BlockProof(b.nBits), Compact.Range());
    }
  }

  lemma RangePositive()
    ensures Compact.Range() > 0
  {
  }

  /** As long as no path's work exceeds 256 bits, the best header is one with the most work behind it. */
  lemma BestIsHeaviest(tree: set<CBlockIndex>, best: CBlockIndex, b: CBlockIndex)
    requires Tree(tree) && (forall x :: x in tree ==> WorkRight(x)) && Best(best, tree) && b in tree
    ensures Grounded(best) && Grounded(b)
    ensures TotalWork(best) < Compact.Range() && TotalWork(b) < Compact.Range() ==> TotalWork(b) <= TotalWork(best)
  {
    hide Compact.BlockProof, Compact.Range, TotalWork, WorkAfter, Tree;
    WorkSums(tree, b);
    WorkSums(tree, best);
    if TotalWork(best) < Compact.Range() && TotalWork(b) < Compact.Range() {
      SmallModulo(TotalWork(best), Compact.Range());
      SmallModulo(TotalWork(b), Compact.Range());
    }
  }

  /** Every block that has a predecessor has a skip pointer. */
  ghost predicate Skips(tree: set<CBlockIndex>)
    reads tree
  {
    forall b :: b in tree && b.pprev != null ==> b.pskip != null
  }

  /** A block of the tree that none has more work than; there is one unless the tree is empty. */
  ghost predicate Best(best: CBlockIndex?, tree: set<CBlockIndex>) {
    if best == null then tree == {} else best in tree && forall b :: b in tree ==> b.nChainWork <= best.nChainWork
  }

  lemma TreeGrows(tree: set<CBlockIndex>, b: CBlockIndex)
    requires Tree(tree) && Skips(tree) && Grounded(b) && b !in tree
    requires if b.pprev == null then b.pskip == null
             else b.pprev in tree && GetSkipHeight(b.nHeight) <= b.nHeight && b.pskip == AncestorAt(b, GetSkipHeight(b.nHeight))
    ensures Tree(tree + {b}) && Skips(tree + {b})
  {
    hide Back, GetSkipHeight, AncestorAt, Grounded;
    if b.pprev != null {
      NewSkip(tree, b);
    }
  }

  lemma BestGrows(best: CBlockIndex?, tree: set<CBlockIndex>, b: CBlockIndex)
    requires Best(best, tree)
    ensures Best(if best == null || best.nChainWork < b.nChainWork then b else best, tree + {b})
  {
  }

  lemma ValuesAdd(m: map<nat, CBlockIndex>, h: nat, b: CBlockIndex)
    requires h !in m
    ensures m[h := b].Values == m.Values + {b}
  {
    assert forall k :: k in m ==> m[h := b][k] == m[k];
    assert m[h := b][h] == b;
  }

  lemma NewSkip(tree: set<CBlockIndex>, b: CBlockIndex)
    requires Tree(tree) && Grounded(b) && b.pprev != null && b.pprev in tree
    ensures b.nHeight >= 1 && GetSkipHeight(b.nHeight) < b.nHeight
    ensures AncestorAt(b, GetSkipHeight(b.nHeight)) in tree
  {
    SkipGoesBack(b.nHeight);
    AncestorOfPrev(b, GetSkipHeight(b.nHeight));
    TreeHasAncestors(tree, b.pprev, b.pprev.nHeight - GetSkipHeight(b.nHeight));
  }

  // ----- the active chain -----

  /** The path from the block without predecessor to `tip`. */
  ghost predicate PathTo(v: seq<CBlockIndex?>, tip: CBlockIndex)
    requires Grounded(tip)
  {
    |v| == tip.nHeight + 1 && forall i :: 0 <= i < |v| ==> v[i] == AncestorAt(tip, i)
  }

  /** An array of block entries that is empty or the full path of its last. */
  ghost predicate FullPath(v: seq<CBlockIndex?>) {
    v == [] || (v[|v| - 1] != null && Grounded(v[|v| - 1]) && PathTo(v, v[|v| - 1]))
  }

  ghost predicate OnPath(v: seq<CBlockIndex?>, b: CBlockIndex) {
    0 <= b.nHeight < |v| && v[b.nHeight] == b
  }

  /** `b` is `of` or one of its ancestors. */
  ghost predicate IsAncestor(b: CBlockIndex, of: CBlockIndex)
    requires Grounded(of)
  {
    0 <= b.nHeight <= of.nHeight && AncestorAt(of, b.nHeight) == b
  }

  class CChain {
    var vChain: seq<CBlockIndex?>

    ghost predicate Valid(tree: set<CBlockIndex>)
      reads this, tree
    {
      Tree(tree) && FullPath(vChain) && forall i :: 0 <= i < |vChain| ==> vChain[i] in tree
    }

    constructor ()
      ensures vChain == []
    {
      vChain := [];
    }

    function At(height: int): CBlockIndex?
      reads this
    {
      if height < 0 || height >= |vChain| then null else vChain[height]
    }

    function Height(): int
      reads this
    {
      |vChain| - 1
    }

    function Tip(): CBlockIndex?
      reads this
    {
      if |vChain| > 0 then vChain[|vChain| - 1] else null
    }

    predicate Contains(b: CBlockIndex)
      reads this
    {
      At(b.nHeight) == b
    }

    function Next(b: CBlockIndex): CBlockIndex?
      reads this
    {
      if Contains(b) then At(b.nHeight + 1) else null
    }

    /** Walks back only until it meets the old chain, and still leaves the whole path. */
    method SetTip(tip: CBlockIndex?, ghost tree: set<CBlockIndex>)
      requires Valid(tree) && (tip != null ==> tip in tree)
      modifies this
      ensures Valid(tree) && Tip() == tip
      ensures if tip == null then vChain == [] else PathTo(vChain, tip)
    {
      hide Back, AncestorAt, Tree, Grounded, FullPath;
      if tip == null {
        vChain := [];
        NoPath();
        return;
      }
      TreeGrounds(tree, tip);
      vChain := if |vChain| > tip.nHeight then vChain[..tip.nHeight + 1]
                else vChain + seq(tip.nHeight + 1 - |vChain|, _ => null);
      ghost var start := vChain;
      OldPath(old(vChain), start);
      var pindex: CBlockIndex? := tip;
      AncestorSelf(tip);
      while pindex != null && vChain[pindex.nHeight] != pindex
        invariant |vChain| == tip.nHeight + 1
        invariant pindex != null ==> pindex in tree && IsAncestor(pindex, tip)
        invariant forall i :: 0 <= i < |vChain| ==>
          vChain[i] == if pindex == null || i > pindex.nHeight then AncestorAt(tip, i) else start[i]
        decreases if pindex == null then -1 else pindex.nHeight
      {
        vChain := vChain[pindex.nHeight := pindex];
        PrevIsAncestor(pindex, tip, tree);
        pindex := pindex.pprev;
      }
      if pindex != null {
        Meets(old(vChain), start, pindex, tip);
      }
      PathInTree(vChain, tip, tree);
    }

    /** Binary search for the first block of the chain that is not earlier than a time, and all before it are. */
    method FindEarliestAtLeast(nTime: int, ghost tree: set<CBlockIndex>) returns (lower: CBlockIndex?)
      requires Valid(tree)
      ensures lower == null ==> forall i :: 0 <= i < |vChain| ==> vChain[i] != null && vChain[i].nTime < nTime
      ensures lower != null ==> OnPath(vChain, lower) && lower.nTime >= nTime
      ensures lower != null ==> forall i :: 0 <= i < lower.nHeight ==> vChain[i] != null && vChain[i].nTime < nTime
    {
      hide Back, AncestorAt, Tree, Grounded, FullPath;
      var first, count := 0, |vChain|;
      while count > 0
        invariant 0 <= first <= first + count <= |vChain|
        invariant first > 0 ==> vChain[first - 1] != null && vChain[first - 1].nTimeMax < nTime
        invariant first + count < |vChain| ==> vChain[first + count] != null && vChain[first + count].nTimeMax >= nTime
        decreases count
      {
        var step := count / 2;
        PathTimes(vChain, first + step, first + step);
        if vChain[first + step].nTimeMax < nTime {
          first, count := first + step + 1, count - (step + 1);
        } else {
          count := step;
        }
      }
      forall i | 0 <= i < first ensures vChain[i] != null && vChain[i].nTime < nTime {
        PathTimes(vChain, i, first - 1);
      }
      if first == |vChain| {
        return null;
      }
      OwnTime(vChain, first, nTime);
      PathHeights(vChain, first);
      lower := vChain[first];
    }

    /** The last common block of the chain and a block's own path. */
    method FindFork(b: CBlockIndex?, ghost tree: set<CBlockIndex>) returns (fork: CBlockIndex?)
      requires Valid(tree) && (b != null ==> b in tree)
      ensures b == null ==> fork == null
      ensures b != null && fork != null ==> Grounded(b) && IsAncestor(fork, b) && OnPath(vChain, fork)
      ensures b != null ==> Grounded(b) && forall c: CBlockIndex :: c in tree && IsAncestor(c, b) && OnPath(vChain, c) ==>
                fork != null && c.nHeight <= fork.nHeight
    {
      hide Back, AncestorAt, Tree, Grounded, FullPath;
      if b == null {
        return null;
      }
      TreeGrounds(tree, b);
      AncestorSelf(b);
      fork := b;
      if b.nHeight > Height() {
        fork := b.GetAncestor(Height(), tree);
        AncestorKnown(b, Height(), fork);
      }
      while fork != null && !Contains(fork)
        invariant fork != null ==> fork in tree && IsAncestor(fork, b)
        invariant forall c: CBlockIndex :: c in tree && IsAncestor(c, b) && OnPath(vChain, c) ==>
                    fork != null && c.nHeight <= fork.nHeight
        decreases if fork == null then -1 else fork.nHeight
      {
        PrevIsAncestor(fork, b, tree);
        fork := fork.pprev;
      }
    }

    /** The hashes of blocks further and further back, down to the first. */
    method GetLocator(b: CBlockIndex?, ghost tree: set<CBlockIndex>) returns (vHave: seq<nat>)
      requires Valid(tree) && (b != null ==> b in tree)
      ensures var from := if b == null then Tip() else b;
              if from == null then vHave == [] else Grounded(from) && LocatorFor(vHave, from)
    {
      hide Back, AncestorAt, Tree, Grounded, FullPath, Pow, Listed, Reach;
      var nStep := 1;
      vHave := [];
      var pindex: CBlockIndex? := if b == null then Tip() else b;
      if pindex == null {
        return;
      }
      ghost var from: CBlockIndex := pindex;
      TreeGrounds(tree, from);
      AncestorSelf(from);
      LocatorStart(from);
      while true
        invariant pindex != null && pindex in tree && IsAncestor(pindex, from)
        invariant nStep == StepAfter(|vHave|)
        invariant Listed(vHave, from) && pindex.nHeight == LocatorHeight(from.nHeight, |vHave|)
        invariant vHave != [] ==> LocatorHeight(from.nHeight, |vHave| - 1) > 0
        decreases pindex.nHeight
      {
        ListOne(vHave, from, pindex);
        vHave := vHave + [pindex.hash];
        if pindex.nHeight == 0 {
          break;
        }
        LocatorStep(|vHave| - 1);
        var nHeight := if pindex.nHeight - nStep > 0 then pindex.nHeight - nStep else 0;
        ghost var was: CBlockIndex := pindex;
        if Contains(pindex) {
          OnChainAncestor(vChain, pindex, nHeight, tree);
          pindex := At(nHeight);
        } else {
          pindex := pindex.GetAncestor(nHeight, tree);
        }
        AncestorKnown(was, nHeight, pindex);
        AncestorOfAncestor(from, was.nHeight, nHeight);
        if |vHave| > 10 {
          nStep := nStep * 2;
        }
      }
      LocatorLength(from.nHeight, |vHave|);
    }
  }

  // ----- times -----

  /** The greatest time so far never falls along a path, and is not below a block's own. */
  lemma {:induction false} TimesGather(b: CBlockIndex, steps: nat)
    requires Grounded(b) && steps <= b.nHeight
    ensures Back(b, steps).nTimeMax <= b.nTimeMax && Back(b, steps).nTime <= Back(b, steps).nTimeMax
  {
    if steps > 0 {
      TimesGather(b.pprev, steps - 1);
    }
  }

  lemma PathTimes(v: seq<CBlockIndex?>, i: int, j: int)
    requires FullPath(v) && 0 <= i <= j < |v|
    ensures v[i] != null && v[j] != null && v[i].nTimeMax <= v[j].nTimeMax && v[i].nTime <= v[i].nTimeMax
  {
    hide Back, Grounded;
    var tip := v[|v| - 1];
    AncestorOfAncestor(tip, j, i);
    TimesGather(AncestorAt(tip, j), j - i);
  }

  /** Where the greatest time so far first reaches a bound, the block's own time does. */
  lemma OwnTime(v: seq<CBlockIndex?>, i: int, t: int)
    requires FullPath(v) && 0 <= i < |v| && v[i] != null && v[i].nTimeMax >= t
    requires i > 0 ==> v[i - 1] != null && v[i - 1].nTimeMax < t
    ensures v[i].nTime >= t
  {
    var tip := v[|v| - 1];
    assert Grounded(v[i]) && v[i].nHeight == i;
    assert v[i].pprev != null ==> Grounded(v[i].pprev);
    if i > 0 {
      AncestorOfAncestor(tip, i, i - 1);
      AncestorOfPrev(v[i], i - 1);
      AncestorSelf(v[i].pprev);
    }
  }

  // ----- locators -----

  /** How far back the entry after `n` entries lies: by single steps up to the tenth, then by doubling ones. */
  function Reach(n: nat): nat { if n <= 10 then n else 9 + Pow(2, n - 10) }

  function StepAfter(n: nat): nat { if n <= 10 then 1 else Pow(2, n - 10) }

  /** The height of entry `n` of a locator. */
  function LocatorHeight(height: nat, n: nat): (h: nat)
    ensures h <= height
  {
    if height > Reach(n) then height - Reach(n) else 0
  }

  /** Entry `n` of a locator: the hash of the ancestor at that height. */
  ghost function LocatorHash(from: CBlockIndex, n: nat): nat
    requires Grounded(from)
  {
    AncestorAt(from, LocatorHeight(from.nHeight, n)).hash
  }

  /** The hashes of the first entries of a locator. */
  ghost predicate Listed(vHave: seq<nat>, from: CBlockIndex)
    requires Grounded(from)
  {
    forall i :: 0 <= i < |vHave| ==> vHave[i] == LocatorHash(from, i)
  }

  function Log2(n: nat): nat { if n <= 1 then 0 else 1 + Log2(n / 2) }

  /**
   The hashes at the heights of a locator, ending with the first that is zero, in a number of
   entries logarithmic in the height.
   */
  ghost predicate LocatorFor(vHave: seq<nat>, from: CBlockIndex)
    requires Grounded(from)
  {
    && Listed(vHave, from)
    && vHave != [] && LocatorHeight(from.nHeight, |vHave| - 1) == 0
    && (|vHave| > 1 ==> LocatorHeight(from.nHeight, |vHave| - 2) > 0)
    && |vHave| <= 12 + Log2(from.nHeight + 1)
  }

  /** Until they reach zero the heights strictly descend, from the block's own. */
  lemma {:induction false} LocatorDescends(height: nat, i: nat, j: nat)
    requires i < j
    ensures LocatorHeight(height, 0) == height
    ensures LocatorHeight(height, j) < LocatorHeight(height, i) || LocatorHeight(height, i) == 0 == LocatorHeight(height, j)
    decreases j
  {
    hide Pow, Reach;
    LocatorStep(j - 1);
    LocatorStep(0);
    if i < j - 1 {
      LocatorDescends(height, i, j - 1);
    }
  }

  lemma LocatorStart(from: CBlockIndex)
    requires Grounded(from)
    ensures StepAfter(0) == 1 && LocatorHeight(from.nHeight, 0) == from.nHeight && Listed([], from)
  {
  }

  lemma {:induction false} ListOne(vHave: seq<nat>, from: CBlockIndex, b: CBlockIndex)
    requires Grounded(from) && Listed(vHave, from) && IsAncestor(b, from)
    requires b.nHeight == LocatorHeight(from.nHeight, |vHave|)
    ensures Listed(vHave + [b.hash], from)
  {
    assert LocatorHash(from, |vHave|) == b.hash;
    hide LocatorHash;
  }

  lemma LocatorLength(height: nat, n: nat)
    requires n > 1 ==> LocatorHeight(height, n - 2) > 0
    ensures n <= 12 + Log2(height + 1)
  {
    if n > 12 {
      Log2AtLeast(n - 12, height + 1);
    }
  }

  lemma LocatorStep(n: nat)
    ensures StepAfter(n + 1) == if n + 1 > 10 then StepAfter(n) * 2 else StepAfter(n)
    ensures Reach(n + 1) == Reach(n) + StepAfter(n) && Reach(0) == 0
    ensures StepAfter(n) >= 1
  {
  }

  /** What the resized array still holds of the old path. */
  lemma OldPath(old_: seq<CBlockIndex?>, start: seq<CBlockIndex?>)
    requires FullPath(old_)
    requires start == if |old_| >= |start| then old_[..|start|] else old_ + seq(|start| - |old_|, _ => null)
    ensures forall i :: 0 <= i < |start| && start[i] != null ==> i < |old_| && start[i] == old_[i]
    ensures forall i :: 0 <= i < |start| && i < |old_| ==> start[i] == old_[i]
  {
  }

  /** Where the walk meets the old path, the old entries below are the tip's ancestors. */
  lemma Meets(old_: seq<CBlockIndex?>, start: seq<CBlockIndex?>, b: CBlockIndex, tip: CBlockIndex)
    requires FullPath(old_) && Grounded(tip) && IsAncestor(b, tip) && |start| == tip.nHeight + 1
    requires b.nHeight < |old_| && old_[b.nHeight] == b
    requires forall i :: 0 <= i < |start| && i < |old_| ==> start[i] == old_[i]
    ensures forall i :: 0 <= i <= b.nHeight ==> start[i] == AncestorAt(tip, i)
  {
    var last := old_[|old_| - 1];
    forall i | 0 <= i <= b.nHeight ensures start[i] == AncestorAt(tip, i) {
      AncestorOfAncestor(tip, b.nHeight, i);
      AncestorOfAncestor(last, b.nHeight, i);
    }
  }

  lemma PathHeights(v: seq<CBlockIndex?>, i: nat)
    requires FullPath(v) && i < |v|
    ensures v[i] != null && v[i].nHeight == i
  {
  }

  lemma NoPath()
    ensures FullPath([])
  {
  }

  lemma TreeGrounds(tree: set<CBlockIndex>, b: CBlockIndex)
    requires Tree(tree) && b in tree
    ensures Grounded(b) && b.nHeight >= 0
  {
  }

  lemma PrevIsAncestor(b: CBlockIndex, of: CBlockIndex, tree: set<CBlockIndex>)
    requires Tree(tree) && b in tree && Grounded(of) && IsAncestor(b, of)
    ensures b.pprev != null ==> b.pprev in tree && IsAncestor(b.pprev, of) && b.pprev.nHeight == b.nHeight - 1
    ensures b.pprev == null ==> b.nHeight == 0
  {
    assert Grounded(b);
    if b.pprev != null {
      AncestorOfAncestor(of, b.nHeight, b.nHeight - 1);
      AncestorOfPrev(b, b.nHeight - 1);
      AncestorSelf(b.pprev);
    }
  }

  lemma PathInTree(v: seq<CBlockIndex?>, tip: CBlockIndex, tree: set<CBlockIndex>)
    requires Tree(tree) && tip in tree && PathTo(v, tip)
    ensures FullPath(v) && v[|v| - 1] == tip && forall i :: 0 <= i < |v| ==> v[i] in tree
  {
    AncestorSelf(tip);
    forall i | 0 <= i < |v| ensures v[i] in tree {
      TreeHasAncestors(tree, tip, tip.nHeight - i);
    }
  }

  lemma AncestorKnown(b: CBlockIndex, height: int, r: CBlockIndex?)
    requires Grounded(b) && r == if height > b.nHeight || height < 0 then null else AncestorAt(b, height)
    ensures r != null ==> r.nHeight == height && IsAncestor(r, b)
  {
  }

  lemma OnChainAncestor(v: seq<CBlockIndex?>, b: CBlockIndex, height: int, tree: set<CBlockIndex>)
    requires FullPath(v) && Grounded(b) && OnPath(v, b) && 0 <= height <= b.nHeight
    ensures v[height] == AncestorAt(b, height)
  {
    AncestorOfAncestor(v[|v| - 1], b.nHeight, height);
  }

  lemma {:induction false} Log2AtLeast(j: nat, n: nat)
    requires Pow(2, j) <= n
    ensures j <= Log2(n)
  {
    if j > 0 {
      Log2AtLeast(j - 1, n / 2);
    }
  }
}
