/** How a block range is split among shards, and the shard that a single block is assigned to. */
module Sharding {
  import opened Machine
  import opened Wrappers

  datatype Range = Range(start: uint64, end: uint64)

  datatype ShardRange = ShardRange(shard: int, blocks: Range)

  predicate Holds(r: Range, block: uint64) {
    r.start <= block <= r.end
  }

  /** The range of a shard before it is cut at the last block, with the wrap-around of uint64. */
  function Uncut(count: int64, shard: int, start: uint64, end: uint64): Range
    requires 0 <= shard < count
  {
    var total := Wrap(end - start + 1);
    var (perShard, remainder) := DivMod(total, count);
    Placed(shard, Wrap(start + Wrap(shard * perShard)), perShard, remainder)
  }

  /** The first shards have one block more, and push those behind them up. */
  function Placed(shard: nat, base: uint64, perShard: uint64, remainder: uint64): Range {
    var shardStart := Wrap(base + if shard < remainder then shard else remainder);
    var shardEnd := Wrap(Wrap(shardStart + perShard) - 1);
    Range(shardStart, if shard < remainder then Wrap(shardEnd + 1) else shardEnd)
  }

  /** The range of a shard; an unknown shard gets block 0. */
  function ShardBlocks(count: int64, shard: int, start: uint64, end: uint64): Range
    requires count > 0
  {
    if shard < 0 || shard >= count then Range(0, 0)
    else
      var r := Uncut(count, shard, start, end);
      Range(r.start, if r.end > end then end else r.end)
  }

  /** The shard of a single block by its number. */
  function ShardByBlock(block: uint64, count: int64): int64
    requires count > 0
  {
    DivMod(block, count).1
  }

  /** The shard of a single block; to shard by address takes more than the block, and gives shard 0. */
  function CalculateShard(strategy: string, block: uint64, count: int64): int64
    requires count > 0
  {
    if strategy == "address" then 0 else ShardByBlock(block, count)
  }

  // ----- the partition that is meant -----

  /** How many blocks a shard should have: the average rounded down, and one more for the first shards. */
  function ShardSize(count: int, shard: nat, start: int, end: int): nat
    requires count > 0 && start <= end
  {
    var (perShard, remainder) := DivMod(end - start + 1, count);
    perShard + if shard < remainder then 1 else 0
  }

  /** The first block of a shard, without wrap-around; shard `count` begins where the range ends. */
  function Boundary(count: int, shard: nat, start: int, end: int): int
    requires count > 0 && start <= end
  {
    if shard == 0 then start else Boundary(count, shard - 1, start, end) + ShardSize(count, shard - 1, start, end)
  }

  lemma {:induction false} BoundaryIs(count: int, shard: nat, start: int, end: int)
    requires count > 0 && start <= end
    ensures var (perShard, remainder) := DivMod(end - start + 1, count);
      Boundary(count, shard, start, end) == start + shard * perShard + Min(shard, remainder)
  {
    if shard > 0 {
      var perShard := DivMod(end - start + 1, count).0;
      BoundaryIs(count, shard - 1, start, end);
      assert shard * perShard == (shard - 1) * perShard + perShard;
    }
  }

  lemma BoundaryEnds(count: int, start: int, end: int)
    requires 0 < count && start <= end
    ensures Boundary(count, 0, start, end) == start
    ensures Boundary(count, count, start, end) == end + 1
  {
    BoundaryIs(count, count, start, end);
    DivModSums(end - start + 1, count);
  }

  lemma {:induction false} BoundariesAscend(count: int, i: int, j: int, start: int, end: int)
    requires 0 <= i <= j <= count && 0 < count && start <= end
    ensures Boundary(count, i, start, end) <= Boundary(count, j, start, end)
    decreases j
  {
    if i < j {
      BoundariesAscend(count, i, j - 1, start, end);
    }
  }

  lemma BoundariesInside(count: int, i: int, start: int, end: int)
    requires 0 <= i <= count && 0 < count && start <= end
    ensures start <= Boundary(count, i, start, end) <= end + 1
  {
    BoundaryEnds(count, start, end);
    BoundariesAscend(count, 0, i, start, end);
    BoundariesAscend(count, i, count, start, end);
  }

  lemma {:induction false} BlockHasShard(count: int, n: int, block: int, start: int, end: int) returns (i: int)
    requires 0 <= n <= count && 0 < count && start <= block && start <= end
    requires block < Boundary(count, n, start, end)
    ensures 0 <= i < n && Boundary(count, i, start, end) <= block < Boundary(count, i + 1, start, end)
  {
    BoundaryEnds(count, start, end);
    if block < Boundary(count, n - 1, start, end) {
      i := BlockHasShard(count, n - 1, block, start, end);
    } else {
      i := n - 1;
    }
  }

  // ----- what the arithmetic computes -----

  /** The cases in which uint64 is too narrow: all blocks at once, or surplus shards behind the last number. */
  predicate TooNarrow(count: int64, start: uint64, end: uint64) {
    end == U64 - 1 && (if start == 0 then count >= 2 else end - start + 1 < count)
  }

  /** Without wrap-around the shards are the ranges between the boundaries. */
  lemma ShardIsBetweenBoundaries(count: int64, shard: int, start: uint64, end: uint64)
    requires 0 <= shard < count && start <= end && Boundary(count, shard, start, end) < U64
    requires start > 0 || end < U64 - 1
    ensures var r := Uncut(count, shard, start, end);
      && r.start == Boundary(count, shard, start, end)
      && r.end == Boundary(count, shard + 1, start, end) - 1
      && r.end <= end
  {
    var perShard := DivMod(end - start + 1, count).0;
    BoundaryFacts(count, shard, start, end);
    UncutIsPlaced(count, shard, start, end, shard * perShard);
    PlacedFits(shard, start + shard * perShard, perShard, DivMod(end - start + 1, count).1);
  }

  lemma BoundaryFacts(count: int, shard: int, start: int, end: int)
    requires 0 <= shard < count && 0 <= start <= end
    ensures var (perShard, remainder) := DivMod(end - start + 1, count);
      var low, high := Boundary(count, shard, start, end), Boundary(count, shard + 1, start, end);
      && 0 < high <= end + 1
      && low == start + shard * perShard + Min(shard, remainder) && shard * perShard >= 0
  {
    BoundaryIs(count, shard, start, end);
    BoundariesInside(count, shard + 1, start, end);
    ProductFits(count, shard, end - start + 1);
    SurplusIsAboveZero(count, shard, start, end);
  }

  lemma UncutIsPlaced(count: int64, shard: int, start: uint64, end: uint64, offset: nat)
    requires 0 <= shard < count && start <= end && (start > 0 || end < U64 - 1)
    requires offset == shard * DivMod(end - start + 1, count).0 && start + offset < U64
    ensures var (perShard, remainder) := DivMod(end - start + 1, count);
      && perShard < U64 && remainder < U64
      && Uncut(count, shard, start, end) == Placed(shard, start + offset, perShard, remainder)
  {
    assert Wrap(start + Wrap(offset)) == start + offset;
  }

  lemma PlacedFits(shard: nat, base: uint64, perShard: uint64, remainder: uint64)
    requires var next := base + perShard + Min(shard, remainder) + if shard < remainder then 1 else 0; 0 < next <= U64
    requires base + Min(shard, remainder) < U64
    ensures var r := Placed(shard, base, perShard, remainder);
      && r.start == base + Min(shard, remainder)
      && r.end == r.start + perShard - 1 + if shard < remainder then 1 else 0
  {
  }

  lemma ProductFits(count: int, shard: int, total: int)
    requires 0 <= shard < count && 0 <= total
    ensures 0 <= shard * DivMod(total, count).0 <= total
  {
    DivModSums(total, count);
    assert shard * DivMod(total, count).0 <= count * DivMod(total, count).0;
  }

  lemma SurplusIsAboveZero(count: int, shard: int, start: int, end: int)
    requires 0 <= shard < count && 0 <= start <= end
    ensures 0 < Boundary(count, shard + 1, start, end)
  {
    BoundaryEnds(count, start, end);
    BoundariesAscend(count, 1, shard + 1, start, end);
    FirstShardIsNotEmpty(count, end - start + 1);
  }

  lemma FirstShardIsNotEmpty(count: int, total: int)
    requires 0 < count && 0 < total
    ensures DivMod(total, count).0 > 0 || DivMod(total, count).1 > 0
  {
    DivModSums(total, count);
  }

  /** Cutting at the last block never changes a shard, even where uint64 is too narrow. */
  lemma CutNeverFires(count: int64, shard: int, start: uint64, end: uint64)
    requires 0 <= shard < count && start <= end
    ensures Uncut(count, shard, start, end).end <= end
  {
    if end < U64 - 1 {
      BoundariesInside(count, shard, start, end);
      ShardIsBetweenBoundaries(count, shard, start, end);
    }
  }

  ghost predicate HeldBy(count: int64, start: uint64, end: uint64, block: uint64, shard: int)
    requires count > 0
  {
    0 <= shard < count && Holds(ShardBlocks(count, shard, start, end), block)
  }

  ghost predicate HasShard(count: int64, start: uint64, end: uint64, block: uint64)
    requires count > 0
  {
    exists shard :: HeldBy(count, start, end, block, shard)
  }

  /** Every block of the range is in exactly one shard, and no other block is in any. */
  ghost predicate Partition(count: int64, start: uint64, end: uint64)
    requires count > 0
  {
    && (forall block: uint64 :: HasShard(count, start, end, block) <==> start <= block <= end)
    && (forall block: uint64, i, j |
          HeldBy(count, start, end, block, i) && HeldBy(count, start, end, block, j) :: i == j)
  }

  lemma WideEnough(count: int64, shard: int, start: uint64, end: uint64)
    requires 0 <= shard < count && start <= end && !TooNarrow(count, start, end) && (start > 0 || end < U64 - 1)
    ensures Boundary(count, shard, start, end) < U64
  {
    BoundariesInside(count, shard, start, end);
    if end == U64 - 1 {
      var total := end - start + 1;
      BoundariesAscend(count, shard, count - 1, start, end);
      BoundaryEnds(count, start, end);
      QuotientIsPositive(count, total);
    }
  }

  lemma QuotientIsPositive(count: int, total: int)
    requires 0 < count <= total
    ensures DivMod(total, count).0 > 0
  {
    DivModSums(total, count);
  }

  /**
   The shards in order: the first starts at the start, each next one right behind, the last ends at the end; and the
   sizes are as intended, so that they differ by at most one.  A surplus shard ends just below its start.
   */
  lemma ShardsAreConsecutive(count: int64, shard: int, start: uint64, end: uint64)
    requires 0 <= shard < count && start <= end && !TooNarrow(count, start, end)
    ensures var r := ShardBlocks(count, shard, start, end);
      && (shard == 0 ==> r.start == start)
      && (shard == count - 1 ==> r.end == end)
      && (shard > 0 ==> r.start == ShardBlocks(count, shard - 1, start, end).end + 1)
      && r.end - r.start + 1 == ShardSize(count, shard, start, end)
  {
    if start == 0 && end == U64 - 1 {
      AllNumbers(count, 0);
      DivModIs(U64, 1, U64, 0);
    } else {
      ShardIs(count, shard, start, end);
      BoundaryEnds(count, start, end);
      if shard > 0 {
        ShardFollows(count, shard, start, end);
      }
    }
  }

  lemma ShardFollows(count: int64, shard: int, start: uint64, end: uint64)
    requires 0 < shard < count && start <= end && !TooNarrow(count, start, end) && (start > 0 || end < U64 - 1)
    ensures ShardBlocks(count, shard, start, end).start == ShardBlocks(count, shard - 1, start, end).end + 1
  {
    ShardIs(count, shard, start, end);
    ShardIs(count, shard - 1, start, end);
  }

  lemma ShardIs(count: int64, shard: int, start: uint64, end: uint64)
    requires 0 <= shard < count && start <= end && !TooNarrow(count, start, end) && (start > 0 || end < U64 - 1)
    ensures var r := ShardBlocks(count, shard, start, end);
      r.start == Boundary(count, shard, start, end) && r.end == Boundary(count, shard + 1, start, end) - 1
  {
    WideEnough(count, shard, start, end);
    ShardIsBetweenBoundaries(count, shard, start, end);
  }

  lemma HeldIffBetween(count: int64, start: uint64, end: uint64, block: uint64, shard: int)
    requires 0 < count && start <= end && !TooNarrow(count, start, end) && (start > 0 || end < U64 - 1)
    ensures HeldBy(count, start, end, block, shard) <==>
      0 <= shard < count && Boundary(count, shard, start, end) <= block < Boundary(count, shard + 1, start, end)
  {
    if 0 <= shard < count {
      ShardIs(count, shard, start, end);
    }
  }

  lemma WideEnoughIsPartition(count: int64, start: uint64, end: uint64)
    requires 0 < count && start <= end && !TooNarrow(count, start, end) && (start > 0 || end < U64 - 1)
    ensures Partition(count, start, end)
  {
    forall block: uint64
      ensures HasShard(count, start, end, block) <==> start <= block <= end
    {
      HasShardIffInside(count, start, end, block);
    }
    forall block: uint64, i, j | HeldBy(count, start, end, block, i) && HeldBy(count, start, end, block, j)
      ensures i == j
    {
      HeldIffBetween(count, start, end, block, i);
      HeldIffBetween(count, start, end, block, j);
      BetweenOnce(count, start, end, block, i, j);
    }
  }

  lemma HasShardIffInside(count: int64, start: uint64, end: uint64, block: uint64)
    requires 0 < count && start <= end && !TooNarrow(count, start, end) && (start > 0 || end < U64 - 1)
    ensures HasShard(count, start, end, block) <==> start <= block <= end
  {
    if start <= block <= end {
      BoundaryEnds(count, start, end);
      var shard := BlockHasShard(count, count, block, start, end);
      HeldIffBetween(count, start, end, block, shard);
    } else if shard :| HeldBy(count, start, end, block, shard) {
      HeldIffBetween(count, start, end, block, shard);
      BoundariesInside(count, shard, start, end);
      BoundariesInside(count, shard + 1, start, end);
    }
  }

  predicate Between(count: int, shard: int, start: int, end: int, block: int)
    requires count > 0 && start <= end
  {
    0 <= shard < count && Boundary(count, shard, start, end) <= block < Boundary(count, shard + 1, start, end)
  }

  lemma BetweenOnce(count: int, start: int, end: int, block: int, i: int, j: int)
    requires count > 0 && start <= end && Between(count, i, start, end, block) && Between(count, j, start, end, block)
    ensures i == j
  {
    if i < j {
      BoundariesAscend(count, i + 1, j, start, end);
    } else if j < i {
      BoundariesAscend(count, j + 1, i, start, end);
    }
  }

  /** With too few blocks below the end of uint64, the shard right behind them holds every block. */
  lemma TooNarrowIsNoPartition(count: int64, start: uint64, end: uint64)
    requires 0 < count && start <= end && TooNarrow(count, start, end)
    ensures !Partition(count, start, end)
  {
    var surplus := if start == 0 then 1 else end - start + 1;
    FirstShardStarts(count, start, end);
    SurplusShardHoldsAll(count, start, end);
    assert HeldBy(count, start, end, start, 0);
    assert HeldBy(count, start, end, start, surplus);
  }

  lemma FirstShardStarts(count: int64, start: uint64, end: uint64)
    requires 0 < count && start <= end && TooNarrow(count, start, end)
    ensures Holds(ShardBlocks(count, 0, start, end), start)
  {
    if start > 0 {
      FewBlocks(count, end - start + 1);
    }
  }

  lemma SurplusShardHoldsAll(count: int64, start: uint64, end: uint64)
    requires 0 < count && start <= end && TooNarrow(count, start, end)
    ensures ShardBlocks(count, if start == 0 then 1 else end - start + 1, start, end) == Range(0, U64 - 1)
  {
    if start == 0 {
      AllNumbers(count, 1);
    } else {
      BehindTheLast(count, start);
    }
  }

  lemma AllNumbers(count: int64, shard: int)
    requires 0 <= shard < count
    ensures ShardBlocks(count, shard, 0, U64 - 1) == Range(0, U64 - 1)
  {
    FewBlocks(count, 0);
    assert Placed(shard, 0, 0, 0) == Range(0, U64 - 1);
  }

  lemma BehindTheLast(count: int64, start: uint64)
    requires start > 0 && U64 - start < count
    ensures ShardBlocks(count, U64 - start, start, U64 - 1) == Range(0, U64 - 1)
  {
    FewBlocks(count, U64 - start);
    assert (U64 - start) * 0 == 0;
  }

  lemma FewBlocks(count: int, total: int)
    requires 0 <= total < count
    ensures DivMod(total, count).0 == 0 && DivMod(total, count).1 == total
  {
  }

  /** The shards partition the range exactly when uint64 is wide enough. */
  lemma PartitionIff(count: int64, start: uint64, end: uint64)
    requires 0 < count && start <= end
    ensures Partition(count, start, end) <==> !TooNarrow(count, start, end)
  {
    if TooNarrow(count, start, end) {
      TooNarrowIsNoPartition(count, start, end);
    } else if start > 0 || end < U64 - 1 {
      WideEnoughIsPartition(count, start, end);
    } else {
      forall block: uint64
        ensures HasShard(count, start, end, block)
      {
        assert HeldBy(count, start, end, block, 0);
      }
    }
  }

  /** Each block of the range is in the shard that CalculateShard names. */
  ghost predicate AssignmentsAgree(strategy: string, count: int64, start: uint64, end: uint64)
    requires count > 0
  {
    forall block: uint64, shard | HeldBy(count, start, end, block, shard) ::
      shard == CalculateShard(strategy, block, count)
  }

  /**
   A block's own shard and the ranges agree, uint64 being wide enough, exactly on one shard and otherwise: by address,
   on a single block; by number, on at most `count` blocks from a multiple of `count` on, since one deals out blocks in
   turn and the other in runs.
   */
  lemma AssignmentsAgreeIff(strategy: string, count: int64, start: uint64, end: uint64)
    requires 0 < count && start <= end
    ensures AssignmentsAgree(strategy, count, start, end) <==>
      && !TooNarrow(count, start, end)
      && (count == 1
          || if strategy == "address" then start == end else DivMod(start, count).1 == 0 && end - start < count)
  {
    if TooNarrow(count, start, end) {
      FirstShardStarts(count, start, end);
      SurplusShardHoldsAll(count, start, end);
      assert HeldBy(count, start, end, start, 0);
      assert HeldBy(count, start, end, start, if start == 0 then 1 else end - start + 1);
    } else if start == 0 && end == U64 - 1 {
      OneShardAgrees(strategy, start, end);
    } else if strategy == "address" {
      ByAddressAgreesIff(strategy, count, start, end);
    } else if count == 1 || (DivMod(start, count).1 == 0 && end - start < count) {
      forall block: uint64, shard | HeldBy(count, start, end, block, shard)
        ensures shard == CalculateShard(strategy, block, count)
      {
        DealtInTurn(count, start, end, block, shard);
      }
    } else {
      NotDealtInTurn(strategy, count, start, end);
    }
  }

  lemma ByAddressAgreesIff(strategy: string, count: int64, start: uint64, end: uint64)
    requires 0 < count && start <= end && !TooNarrow(count, start, end) && (start > 0 || end < U64 - 1)
    requires strategy == "address"
    ensures AssignmentsAgree(strategy, count, start, end) <==> count == 1 || start == end
  {
    if start == end {
      forall block: uint64, shard | HeldBy(count, start, end, block, shard)
        ensures shard == 0
      {
        FirstBlocks(count, start, end);
        HasShardIffInside(count, start, end, block);
        HeldIffBetween(count, start, end, block, shard);
        HeldIffBetween(count, start, end, block, 0);
        BetweenOnce(count, start, end, block, shard, 0);
      }
    } else if count > 1 {
      HasShardIffInside(count, start, end, end);
      var shard :| HeldBy(count, start, end, end, shard);
      HeldIffBetween(count, start, end, end, shard);
      FirstIsNotAll(count, start, end);
      assert shard != CalculateShard(strategy, end, count);
    }
  }

  lemma FirstIsNotAll(count: int, start: int, end: int)
    requires count > 1 && start < end
    ensures Boundary(count, 1, start, end) <= end
  {
    var total := end - start + 1;
    var (perShard, remainder) := DivMod(total, count);
    DivModSums(total, count);
    assert perShard * count == 2 * perShard + perShard * (count - 2) && perShard * (count - 2) >= 0;
    assert Boundary(count, 0, start, end) == start;
  }

  lemma OneShardAgrees(strategy: string, start: uint64, end: uint64)
    ensures AssignmentsAgree(strategy, 1, start, end)
  {
  }

  lemma NotDealtInTurn(strategy: string, count: int64, start: uint64, end: uint64)
    requires 0 < count && start <= end && !TooNarrow(count, start, end) && (start > 0 || end < U64 - 1)
    requires strategy != "address" && count > 1 && (DivMod(start, count).1 != 0 || end - start >= count)
    ensures !AssignmentsAgree(strategy, count, start, end)
  {
    FirstBlocks(count, start, end);
    if DivMod(start, count).1 != 0 {
      assert CalculateShard(strategy, start, count) != 0;
    } else {
      Multiple(start, count, 1);
      assert CalculateShard(strategy, start + 1, count) != 0;
    }
  }

  lemma DealtInTurn(count: int64, start: uint64, end: uint64, block: uint64, shard: int)
    requires 0 < count && start <= end && !TooNarrow(count, start, end) && (start > 0 || end < U64 - 1)
    requires count == 1 || (DivMod(start, count).1 == 0 && end - start < count)
    requires HeldBy(count, start, end, block, shard)
    ensures shard == ShardByBlock(block, count)
  {
    HeldIffBetween(count, start, end, block, shard);
    if count > 1 {
      FewBlocksOneEach(count, shard, start, end);
      Multiple(start, count, shard);
    }
  }

  lemma FirstBlocks(count: int64, start: uint64, end: uint64)
    requires 0 < count && start <= end && !TooNarrow(count, start, end) && (start > 0 || end < U64 - 1)
    ensures HeldBy(count, start, end, start, 0)
    ensures end - start >= count ==> HeldBy(count, start, end, start + 1, 0)
  {
    FirstSize(count, start, end);
    HeldIffBetween(count, start, end, start, 0);
    if end - start >= count {
      HeldIffBetween(count, start, end, start + 1, 0);
    }
  }

  lemma FirstSize(count: int, start: int, end: int)
    requires 0 < count && start <= end
    ensures Boundary(count, 0, start, end) == start
    ensures Boundary(count, 1, start, end) >= start + if end - start >= count then 2 else 1
  {
    BoundaryEnds(count, start, end);
    FirstShardIsNotEmpty(count, end - start + 1);
    if end - start >= count {
      FirstShardHasTwo(count, end - start + 1);
    }
  }

  lemma FewBlocksOneEach(count: int, shard: int, start: int, end: int)
    requires 0 <= shard < count && start <= end && end - start < count
    ensures Boundary(count, shard, start, end) == start + Min(shard, end - start + 1)
    ensures Boundary(count, shard + 1, start, end) == start + Min(shard + 1, end - start + 1)
  {
    var total := end - start + 1;
    BoundaryIs(count, shard, start, end);
    BoundaryIs(count, shard + 1, start, end);
    if total == count {
      DivModIs(total, count, 1, 0);
    } else {
      DivModIs(total, count, 0, total);
    }
  }

  lemma FirstShardHasTwo(count: int, total: int)
    requires 0 < count < total
    ensures DivMod(total, count).0 + (if DivMod(total, count).1 > 0 then 1 else 0) >= 2
  {
    DivModSums(total, count);
    if DivMod(total, count).0 == 1 {
      assert DivMod(total, count).1 == total - count;
    }
    QuotientIsPositive(count, total);
  }

  lemma Multiple(a: nat, count: int, b: int)
    requires 0 <= b < count && DivMod(a, count).1 == 0
    ensures DivMod(a + b, count).1 == b
  {
    DivModSums(a, count);
    DivModIs(a + b, count, DivMod(a, count).0, b);
  }

  // ----- the object -----

  class ShardingManager {
    const shardCount: int64
    const strategy: string

    constructor (shardCount: int64, strategy: string)
      ensures this.shardCount == shardCount && this.strategy == strategy
    {
      this.shardCount, this.strategy := shardCount, strategy;
    }

    static method NewShardingManager(enabled: bool, shardCount: int64, strategy: string)
      returns (manager: Option<ShardingManager>)
      ensures manager.Some? <==> enabled && shardCount > 0
      ensures manager.Some? ==>
        fresh(manager.value) && manager.value.shardCount == shardCount && manager.value.strategy == strategy
    {
      if !enabled || shardCount <= 0 {
        return None;
      }
      var m := new ShardingManager(shardCount, strategy);
      return Some(m);
    }

    method GetShardRange(shard: int, start: uint64, end: uint64) returns (r: Range)
      requires shardCount > 0
      ensures r == ShardBlocks(shardCount, shard, start, end)
    {
      if shard < 0 || shard >= shardCount {
        return Range(0, 0);
      }
      var total := Wrap(end - start + 1);
      var (perShard, remainder) := DivMod(total, shardCount);
      var shardStart := Wrap(start + Wrap(shard * perShard));
      r := Place(shard, shardStart, end, perShard, remainder);
    }

    /** The second half of GetShardRange: the ends of the shard, given the sizes. */
    method Place(shard: nat, base: uint64, end: uint64, perShard: uint64, remainder: uint64) returns (r: Range)
      ensures var placed := Placed(shard, base, perShard, remainder);
        r == Range(placed.start, if placed.end > end then end else placed.end)
    {
      var shardStart := base;
      if shard < remainder {
        shardStart := Wrap(shardStart + shard);
      } else {
        shardStart := Wrap(shardStart + remainder);
      }
      assert shardStart == Placed(shard, base, perShard, remainder).start;
      var shardEnd := Wrap(Wrap(shardStart + perShard) - 1);
      if shard < remainder {
        shardEnd := Wrap(shardEnd + 1);
      }
      if shardEnd > end {
        shardEnd := end;
      }
      return Range(shardStart, shardEnd);
    }

    /** All shards; for a range that uint64 is wide enough for they are a partition, in order. */
    method GetAllShardRanges(start: uint64, end: uint64) returns (ranges: seq<ShardRange>)
      requires shardCount > 0
      ensures |ranges| == shardCount
      ensures forall i | 0 <= i < shardCount :: ranges[i] == ShardRange(i, ShardBlocks(shardCount, i, start, end))
      ensures start <= end && !TooNarrow(shardCount, start, end) ==> Partition(shardCount, start, end)
    {
      ranges := [];
      for i := 0 to shardCount
        invariant |ranges| == i
        invariant forall j | 0 <= j < i :: ranges[j] == ShardRange(j, ShardBlocks(shardCount, j, start, end))
      {
        var blocks := GetShardRange(i, start, end);
        ranges := ranges + [ShardRange(i, blocks)];
      }
      if start <= end {
        PartitionIff(shardCount, start, end);
      }
    }
  }
}
