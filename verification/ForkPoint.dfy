/** Reorg detection: the search for the fork point between the stored blocks and the node's chain. */
module ForkPoint {
  import opened Machine
  import opened Wrappers

  datatype Block = Block(number: uint64, hash: string, parent: string)

  /** Blocks by height; a height that is missing makes the read fail. */
  type Chain = map<nat, Block>

  datatype Event = Event(oldNumber: uint64, oldHash: string, newNumber: uint64, newHash: string, depth: nat)

  datatype Failure = ChainRead(height: nat) | LocalRead(height: nat) | GenesisMismatch | TooDeep

  datatype Detection = NoReorg | Detected(event: Event) | Failed(reason: Failure)

  const MAX_DEPTH: nat := 100

  function EventOf(oldBlock: Block, newBlock: Block, depth: nat): Event {
    Event(oldBlock.number, oldBlock.hash, newBlock.number, newBlock.hash, depth)
  }

  /** Every block is filed under its own number. */
  predicate Filed(c: Chain) {
    forall h | h in c :: c[h].number == h
  }

  /** Both sides have a block at height h, and it is the same one. */
  predicate Agree(local: Chain, chain: Chain, h: nat) {
    h in local && h in chain && local[h].hash == chain[h].hash
  }

  predicate Disagree(local: Chain, chain: Chain, h: nat) {
    h in local && h in chain && local[h].hash != chain[h].hash
  }

  /** What the search says once it has come down to height h, disagreeing on every height above. */
  function Search(local: Chain, chain: Chain, h: nat, depth: nat, threshold: nat): Detection
    requires h in local
    decreases h
  {
    if depth >= MAX_DEPTH then Failed(TooDeep)
    else if h !in chain then Failed(ChainRead(h))
    else if chain[h].hash == local[h].hash then
      if depth < threshold then NoReorg
      else if h + 1 !in chain then Failed(ChainRead(h + 1))
      else Detected(EventOf(local[h], chain[h + 1], depth))
    else if h == 0 then Failed(GenesisMismatch)
    else if h - 1 !in local then Failed(LocalRead(h - 1))
    else Search(local, chain, h - 1, depth + 1, threshold)
  }

  /** What DetectReorg says for the node's height `latest` and the highest stored block. */
  function Detect(local: Chain, chain: Chain, tip: nat, latest: nat, threshold: nat): Detection
    requires tip in local
  {
    if latest < tip then NoReorg
    else if latest == tip then
      if latest !in chain then Failed(ChainRead(latest))
      else if chain[latest].hash == local[tip].hash then NoReorg
      else Detected(EventOf(local[tip], chain[latest], 1))
    else Search(local, chain, tip, 0, threshold)
  }

  class ReorgDetector {
    const threshold: nat

    constructor (threshold: nat)
      ensures this.threshold == threshold
    {
      this.threshold := threshold;
    }

    /** `asked` lists the heights requested from the node. */
    method FindForkPoint(local: Chain, chain: Chain, localBlock: Block) returns (r: Detection, asked: seq<nat>)
      requires Filed(local) && localBlock.number in local && local[localBlock.number] == localBlock
      ensures r == Search(local, chain, localBlock.number, 0, threshold)
      ensures forall h | h in asked :: h <= localBlock.number + 1
    {
      asked := [];
      var currentLocal := localBlock;
      var depth := 0;
      while depth < MAX_DEPTH
        invariant depth <= MAX_DEPTH && currentLocal.number + depth == localBlock.number
        invariant currentLocal.number in local && local[currentLocal.number] == currentLocal
        invariant Continues(local, chain, localBlock.number, currentLocal.number, depth)
        invariant forall h | h in asked :: h <= localBlock.number + 1
      {
        asked := asked + [currentLocal.number];
        if currentLocal.number !in chain {
          return Failed(ChainRead(currentLocal.number)), asked;
        }
        var chainBlock := chain[currentLocal.number];
        if chainBlock.hash == currentLocal.hash {
          if depth >= threshold {
            asked := asked + [currentLocal.number + 1];
            if currentLocal.number + 1 !in chain {
              return Failed(ChainRead(currentLocal.number + 1)), asked;
            }
            return Detected(EventOf(currentLocal, chain[currentLocal.number + 1], depth)), asked;
          }
          return NoReorg, asked;
        }
        if currentLocal.number == 0 {
          return Failed(GenesisMismatch), asked;
        }
        if currentLocal.number - 1 !in local {
          return Failed(LocalRead(currentLocal.number - 1)), asked;
        }
        currentLocal := local[currentLocal.number - 1];
        depth := depth + 1;
      }
      return Failed(TooDeep), asked;
    }

    /** The search from the tip has come down to height h. */
    ghost predicate Continues(local: Chain, chain: Chain, tip: nat, h: nat, depth: nat)
      requires h in local && tip in local
    {
      Search(local, chain, tip, 0, threshold) == Search(local, chain, h, depth, threshold)
    }

    /** `latest` is the node's height, `tip` the highest stored block, if there is one. */
    method DetectReorg(local: Chain, chain: Chain, latest: nat, tip: Option<Block>)
      returns (r: Detection, asked: seq<nat>)
      requires Filed(local) && (tip.Some? ==> tip.value.number in local && local[tip.value.number] == tip.value)
      ensures r == if tip.None? then NoReorg else Detect(local, chain, tip.value.number, latest, threshold)
      ensures tip.None? || latest < tip.value.number ==> r == NoReorg && asked == []
      ensures tip.Some? && latest == tip.value.number ==>
        r == if latest !in chain then Failed(ChainRead(latest))
             else if chain[latest].hash == tip.value.hash then NoReorg
             else Detected(Event(latest, tip.value.hash, chain[latest].number, chain[latest].hash, 1))
      ensures forall h | h in asked :: h <= latest
    {
      if tip.None? {
        return NoReorg, [];
      }
      var localBlock := tip.value;
      if latest < localBlock.number {
        return NoReorg, [];
      }
      if latest == localBlock.number {
        if latest !in chain {
          return Failed(ChainRead(latest)), [latest];
        }
        if chain[latest].hash == localBlock.hash {
          return NoReorg, [latest];
        }
        return Detected(EventOf(localBlock, chain[latest], 1)), [latest];
      }
      r, asked := FindForkPoint(local, chain, localBlock);
    }
  }

  // ----- what the search finds -----

  /** A snapshot: the node's blocks up to its height, the stored ones from some base to the tip, without a gap. */
  ghost predicate Snapshot(local: Chain, chain: Chain, base: nat, tip: nat, latest: nat) {
    && base <= tip <= latest && Filed(local) && Filed(chain)
    && (forall h :: h in local <==> base <= h <= tip)
    && (forall h: nat :: h in chain <==> h <= latest)
  }

  /** The greatest height from base to h on which both sides agree. */
  function Fork(local: Chain, chain: Chain, base: nat, h: nat): (g: Option<nat>)
    ensures g.Some? ==> base <= g.value <= h && Agree(local, chain, g.value)
    ensures forall x | base <= x <= h && (g.None? || x > g.value) :: !Agree(local, chain, x)
    decreases h
  {
    if h < base then None
    else if Agree(local, chain, h) then Some(h)
    else if h == 0 then None
    else Fork(local, chain, base, h - 1)
  }

  /** Going on from height h finds the greatest agreeing height at or below h, if it is within reach. */
  lemma {:induction false} SearchFindsFork(local: Chain, chain: Chain, base: nat, tip: nat, latest: nat, threshold: nat,
                                           h: nat, depth: nat)
    requires Snapshot(local, chain, base, tip, latest) && tip < latest && base <= h && h + depth == tip
    ensures Search(local, chain, h, depth, threshold) ==
      match Fork(local, chain, base, h)
      case Some(g) =>
        if tip - g >= MAX_DEPTH then Failed(TooDeep)
        else if tip - g < threshold then NoReorg
        else Detected(EventOf(local[g], chain[g + 1], tip - g))
      case None =>
        if tip - base + 1 > MAX_DEPTH || depth >= MAX_DEPTH then Failed(TooDeep)
        else if base == 0 then Failed(GenesisMismatch)
        else Failed(LocalRead(base - 1))
    decreases h
  {
    if depth < MAX_DEPTH && !Agree(local, chain, h) && h > base {
      SearchFindsFork(local, chain, base, tip, latest, threshold, h - 1, depth + 1);
    }
  }

  /** g is the greatest agreeing height from base to tip. */
  predicate IsFork(local: Chain, chain: Chain, base: nat, tip: nat, g: nat) {
    base <= g <= tip && Agree(local, chain, g) && forall x | g < x <= tip :: Disagree(local, chain, x)
  }

  lemma ForkIsFork(local: Chain, chain: Chain, base: nat, tip: nat, latest: nat)
    requires Snapshot(local, chain, base, tip, latest)
    ensures var fork := Fork(local, chain, base, tip); fork.Some? ==> IsFork(local, chain, base, tip, fork.value)
  {
    var fork := Fork(local, chain, base, tip);
    if fork.Some? {
      forall x | fork.value < x <= tip
        ensures Disagree(local, chain, x)
      {
        assert x in local && x in chain && !Agree(local, chain, x);
      }
    }
  }

  lemma EventNamesFork(local: Chain, chain: Chain, base: nat, tip: nat, latest: nat, threshold: nat, e: Event)
    returns (g: nat)
    requires Snapshot(local, chain, base, tip, latest) && tip < latest
    requires Detect(local, chain, tip, latest, threshold) == Detected(e)
    ensures IsFork(local, chain, base, tip, g)
    ensures e.oldNumber == g && e.newNumber == g + 1 && e.depth == tip - g
  {
    SearchFindsFork(local, chain, base, tip, latest, threshold, tip, 0);
    ForkIsFork(local, chain, base, tip, latest);
    g := Fork(local, chain, base, tip).value;
  }

  /**
   On a snapshot with a node ahead of the store, an event is found exactly when the greatest agreeing height is fewer
   than 100 and at least `threshold` heights below the tip, and it names that height.
   */
  lemma ForkPointFoundIff(local: Chain, chain: Chain, base: nat, tip: nat, latest: nat, threshold: nat, e: Event)
    requires Snapshot(local, chain, base, tip, latest) && tip < latest
    ensures Detect(local, chain, tip, latest, threshold) == Detected(e) <==>
      exists g: nat :: IsFork(local, chain, base, tip, g) && threshold <= tip - g < 100
                  && chain[g + 1].number == g + 1
                  && e == Event(g, local[g].hash, chain[g + 1].number, chain[g + 1].hash, tip - g)
  {
    SearchFindsFork(local, chain, base, tip, latest, threshold, tip, 0);
    var fork := Fork(local, chain, base, tip);
    ForkIsFork(local, chain, base, tip, latest);
    forall g: nat | IsFork(local, chain, base, tip, g)
      ensures fork == Some(g)
    {
      assert fork.Some? && g <= fork.value;
      assert !Disagree(local, chain, fork.value);
    }
  }

  /** On a snapshot with a node ahead, nothing is reported, without an error, exactly for a fork above the threshold. */
  lemma NoReorgIff(local: Chain, chain: Chain, base: nat, tip: nat, latest: nat, threshold: nat)
    requires Snapshot(local, chain, base, tip, latest) && tip < latest
    ensures Detect(local, chain, tip, latest, threshold) == NoReorg <==>
      exists g: nat :: IsFork(local, chain, base, tip, g) && tip - g < 100 && tip - g < threshold
  {
    SearchFindsFork(local, chain, base, tip, latest, threshold, tip, 0);
    var fork := Fork(local, chain, base, tip);
    ForkIsFork(local, chain, base, tip, latest);
    forall g: nat | IsFork(local, chain, base, tip, g)
      ensures fork == Some(g)
    {
      assert fork.Some? && g <= fork.value;
      assert !Disagree(local, chain, fork.value);
    }
  }

  /**
   At equal heights the tip's two blocks are reported, with depth 1, exactly if their hashes differ; nothing is reported
   exactly if they are the same.
   */
  lemma EqualHeightsIff(local: Chain, chain: Chain, tip: nat, threshold: nat, e: Event)
    requires tip in local && tip in chain && Filed(local) && Filed(chain)
    ensures Detect(local, chain, tip, tip, threshold) == Detected(e) <==>
      local[tip].hash != chain[tip].hash && e == Event(tip, local[tip].hash, tip, chain[tip].hash, 1)
    ensures Detect(local, chain, tip, tip, threshold) == NoReorg <==> local[tip].hash == chain[tip].hash
  {
  }

  /** A node that is behind the store is never taken for a reorg. */
  lemma LowerNodeIsNoReorg(local: Chain, chain: Chain, tip: nat, latest: nat, threshold: nat)
    requires tip in local && latest < tip
    ensures Detect(local, chain, tip, latest, threshold) == NoReorg
  {
  }

  /** Each block names the block below it. */
  predicate Linked(c: Chain) {
    forall h | h in c && h > 0 && h - 1 in c :: c[h].parent == c[h - 1].hash
  }

  /** Equal hashes mean equal blocks. */
  ghost predicate CollisionFree(local: Chain, chain: Chain) {
    forall h | Agree(local, chain, h) :: local[h] == chain[h]
  }

  /** Such snapshots exist: here the store's tip was replaced and the node is one block further. */
  lemma OneBlockFork()
    ensures var a, b, b', c :=
        Block(0, "a", ""), Block(1, "b", "a"), Block(1, "b'", "a"), Block(2, "c", "b'");
      var local: Chain, chain: Chain := map[0 := a, 1 := b], map[0 := a, 1 := b', 2 := c];
      && Snapshot(local, chain, 0, 1, 2) && Linked(local) && Linked(chain) && CollisionFree(local, chain)
      && Detect(local, chain, 1, 2, 1) == Detected(Event(0, "a", 1, "b'", 1))
  {
    var a, b, b', c := Block(0, "a", ""), Block(1, "b", "a"), Block(1, "b'", "a"), Block(2, "c", "b'");
    var local: Chain, chain: Chain := map[0 := a, 1 := b], map[0 := a, 1 := b', 2 := c];
    assert Search(local, chain, 0, 1, 1) == Detected(EventOf(a, b', 1));
  }

  /** Below an agreement all is agreed. */
  lemma {:induction false} AgreementGoesDown(local: Chain, chain: Chain, base: nat, tip: nat, latest: nat, g: nat,
                                             h: nat)
    requires Snapshot(local, chain, base, tip, latest)
    requires Linked(local) && Linked(chain) && CollisionFree(local, chain)
    requires base <= h <= g <= tip && Agree(local, chain, g)
    ensures Agree(local, chain, h)
    decreases g - h
  {
    if h < g {
      AgreementGoesDown(local, chain, base, tip, latest, g, h + 1);
    }
  }

  /**
   On hash-linked chains the event splits the stored blocks: all heights up to its old number agree with the node, all
   above it disagree, and its depth counts the latter.
   */
  lemma ForkPointSplitsStore(local: Chain, chain: Chain, base: nat, tip: nat, latest: nat, threshold: nat, e: Event)
    requires Snapshot(local, chain, base, tip, latest) && tip < latest
    requires Linked(local) && Linked(chain) && CollisionFree(local, chain)
    requires Detect(local, chain, tip, latest, threshold) == Detected(e)
    ensures forall h | base <= h <= tip :: Agree(local, chain, h) <==> h <= e.oldNumber
    ensures e.depth == tip - e.oldNumber && e.newNumber == e.oldNumber + 1
  {
    var g := EventNamesFork(local, chain, base, tip, latest, threshold, e);
    ForkSplits(local, chain, base, tip, latest, g);
  }

  lemma ForkSplits(local: Chain, chain: Chain, base: nat, tip: nat, latest: nat, g: nat)
    requires Snapshot(local, chain, base, tip, latest)
    requires Linked(local) && Linked(chain) && CollisionFree(local, chain)
    requires IsFork(local, chain, base, tip, g)
    ensures forall h | base <= h <= tip :: Agree(local, chain, h) <==> h <= g
  {
    forall h | base <= h <= tip
      ensures Agree(local, chain, h) <==> h <= g
    {
      if h <= g {
        AgreementGoesDown(local, chain, base, tip, latest, g, h);
      } else {
        assert Disagree(local, chain, h);
      }
    }
  }

  /** What any event of the search says, without assumptions on the chains. */
  lemma {:induction false} SearchEvent(local: Chain, chain: Chain, h: nat, depth: nat, threshold: nat)
    requires h in local && Filed(local) && Filed(chain)
    ensures var r := Search(local, chain, h, depth, threshold);
      r.Detected? ==>
        var e := r.event;
        && e.oldNumber <= h && e.newNumber == e.oldNumber + 1 && e.depth == depth + h - e.oldNumber
        && e.newNumber in chain && chain[e.newNumber].hash == e.newHash
        && (e.oldNumber < h ==> Disagree(local, chain, e.newNumber))
    decreases h
  {
    if h > 0 && h - 1 in local {
      SearchEvent(local, chain, h - 1, depth + 1, threshold);
    }
  }

  /**
   Every event of positive depth that the detector reports names a new block whose height is occupied, in the store, by
   a block with another hash.
   */
  lemma DetectedBlockIsNotStored(local: Chain, chain: Chain, tip: nat, latest: nat, threshold: nat)
    requires tip in local && Filed(local) && Filed(chain)
    ensures var r := Detect(local, chain, tip, latest, threshold);
      r.Detected? && r.event.depth > 0 ==>
        var e := r.event;
        && Disagree(local, chain, e.newNumber) && chain[e.newNumber].hash == e.newHash
        && (e.newNumber == e.oldNumber || e.newNumber == e.oldNumber + 1)
        && (e.newNumber == e.oldNumber <==> latest == tip)
  {
    SearchEvent(local, chain, tip, 0, threshold);
  }

  /** The heights that a rollback of the event removes. */
  predicate RolledBack(e: Event, h: nat) {
    e.newNumber <= h <= e.oldNumber
  }

  /**
   A rollback of a reported event removes every stored block that disagrees with the node exactly when the node is at
   the tip and disagrees on nothing below it: an event of the search names an empty range, and at equal heights the
   event covers the tip only.
   */
  lemma RollbackCoversForkIff(local: Chain, chain: Chain, base: nat, tip: nat, latest: nat, threshold: nat, e: Event)
    requires Snapshot(local, chain, base, tip, latest)
    requires Linked(local) && Linked(chain) && CollisionFree(local, chain)
    requires Detect(local, chain, tip, latest, threshold) == Detected(e) && e.depth > 0
    ensures (forall h | base <= h <= tip && Disagree(local, chain, h) :: RolledBack(e, h)) <==>
      latest == tip && (tip == base || Agree(local, chain, tip - 1))
  {
    if latest > tip {
      DetectedBlockIsNotStored(local, chain, tip, latest, threshold);
      assert Disagree(local, chain, e.newNumber) && !RolledBack(e, e.newNumber);
    } else if tip > base && Agree(local, chain, tip - 1) {
      forall h | base <= h < tip
        ensures !Disagree(local, chain, h)
      {
        AgreementGoesDown(local, chain, base, tip, latest, tip - 1, h);
      }
    } else if tip > base {
      assert Disagree(local, chain, tip - 1) && !RolledBack(e, tip - 1);
    }
  }
}
