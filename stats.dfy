/** Build statistics (src/commands/stats.rs): a running count of the blocks
    built, the bytes they were allocated and the bytes they used, and the
    space efficiency derived from the totals. The totals are `usize` in the
    source and unbounded here; the elapsed time is not modelled. */
module Stats {
  import opened Common
  import opened Primitives

  /** One block's figures. */
  datatype BlockStat = BlockStat(name: string, startAddress: u32, allocatedSize: u32, usedSize: u32, crcValue: u32)

  /** The bytes allocated to a run of blocks. */
  function SumAllocated(stats: seq<BlockStat>): nat
    decreases |stats|
  {
    if stats == [] then 0 else SumAllocated(stats[..|stats| - 1]) + stats[|stats| - 1].allocatedSize
  }

  /** The bytes used by a run of blocks. */
  function SumUsed(stats: seq<BlockStat>): nat
    decreases |stats|
  {
    if stats == [] then 0 else SumUsed(stats[..|stats| - 1]) + stats[|stats| - 1].usedSize
  }

  /** The efficiency in percent of `used` bytes out of `alloc`, as a
      real number: 0 for nothing allocated. */
  function Efficiency(used: nat, alloc: nat): (r: real)
    ensures alloc == 0 ==> r == 0.0
    ensures alloc > 0 ==> r * alloc as real == 100.0 * used as real
  {
    if alloc == 0 then 0.0 else (used as real / alloc as real) * 100.0
  }

  /** No block uses more than it was allocated. */
  predicate WithinAllocation(stats: seq<BlockStat>)
  {
    forall i :: 0 <= i < |stats| ==> stats[i].usedSize <= stats[i].allocatedSize
  }

  /** When no block uses more than it was allocated, neither do the totals. */
  lemma {:induction false} TotalsWithinAllocation(stats: seq<BlockStat>)
    requires WithinAllocation(stats)
    decreases |stats|
    ensures SumUsed(stats) <= SumAllocated(stats)
  {
    if stats != [] {
      TotalsWithinAllocation(stats[..|stats| - 1]);
    }
  }

  /** An efficiency is at most 100 when the used bytes are within the
      allocation, and exactly 100 when every allocated byte is used. */
  lemma EfficiencyBounds(used: nat, alloc: nat)
    ensures used <= alloc ==> 0.0 <= Efficiency(used, alloc) <= 100.0
    ensures used == alloc > 0 ==> Efficiency(used, alloc) == 100.0
  {
    if alloc > 0 {
      var r := Efficiency(used, alloc);
      assert r * alloc as real == 100.0 * used as real;
      if used <= alloc {
        assert r * alloc as real <= 100.0 * alloc as real;
      }
    }
  }

  /** The statistics of a build. */
  class BuildStats {
    var blocksProcessed: nat
    var totalAllocated: nat
    var totalUsed: nat
    var blockStats: seq<BlockStat>

    /** The counters and totals agree with the list of blocks. */
    ghost predicate Valid()
      reads this
    {
      && blocksProcessed == |blockStats|
      && totalAllocated == SumAllocated(blockStats)
      && totalUsed == SumUsed(blockStats)
    }

    /** `new`: no blocks, zero counters and totals. */
    constructor ()
      ensures Valid()
      ensures blocksProcessed == 0 && totalAllocated == 0 && totalUsed == 0 && blockStats == []
    {
      blocksProcessed := 0;
      totalAllocated := 0;
      totalUsed := 0;
      blockStats := [];
    }

    /** `add_block`: one more block, its sizes added to the totals, and the
        block appended at the end of the list. */
    method AddBlock(stat: BlockStat)
      requires Valid()
      modifies this
      ensures Valid()
      ensures blockStats == old(blockStats) + [stat]
      ensures blocksProcessed == old(blocksProcessed) + 1
      ensures totalAllocated == old(totalAllocated) + stat.allocatedSize
      ensures totalUsed == old(totalUsed) + stat.usedSize
    {
      blocksProcessed := blocksProcessed + 1;
      totalAllocated := totalAllocated + stat.allocatedSize;
      totalUsed := totalUsed + stat.usedSize;
      assert (blockStats + [stat])[..|blockStats|] == blockStats;
      blockStats := blockStats + [stat];
    }

    /** `space_efficiency`: the totals' efficiency, 0 when nothing is
        allocated. */
    function SpaceEfficiency(): (r: real)
      reads this
      ensures totalAllocated == 0 ==> r == 0.0
      ensures totalAllocated > 0 ==> r * totalAllocated as real == 100.0 * totalUsed as real
    {
      Efficiency(totalUsed, totalAllocated)
    }
  }

  /** The statistics tests: an empty build is 0 % efficient; a full block
      alone is 100 %; blocks of 100 and 200 bytes using 80 and 120 give
      totals of 300 and 200, so 200/300 of 100 %. */
  method StatisticsExamples()
  {
    var stats := new BuildStats();
    assert stats.SpaceEfficiency() == 0.0;
    stats.AddBlock(BlockStat("full", 0x1000, 100, 100, 0x1234_5678));
    EfficiencyBounds(100, 100);
    assert stats.SpaceEfficiency() == 100.0;

    var two := new BuildStats();
    two.AddBlock(BlockStat("test1", 0x1000, 100, 80, 0x1234_5678));
    two.AddBlock(BlockStat("test2", 0x2000, 200, 120, 0x9ABC_DEF0));
    assert two.blocksProcessed == 2 && two.totalAllocated == 300 && two.totalUsed == 200;
    assert two.SpaceEfficiency() == (200.0 / 300.0) * 100.0;
  }
}
