/** The integer part of the statistics report: one pass over the block list
    accumulating allocated and free memory, the number of processes and of
    free blocks, and the largest free block. */
module Statistics {
  import opened Blocks
  import opened Coalescing

  datatype Stats = Stats(allocatedMem: int, freeMem: int, numProcesses: nat, numFreeBlocks: nat, largestFree: int)

  const Zero := Stats(0, 0, 0, 0, 0)

  function Max(a: int, b: int): (m: int)
    ensures m >= a && m >= b
    ensures m == a || m == b
  {
    if a >= b then a else b
  }

  /** What the statistics loop adds for one block. */
  function Count(acc: Stats, b: Block): (r: Stats)
    ensures r.allocatedMem + r.freeMem == acc.allocatedMem + acc.freeMem + b.size
    ensures r.numProcesses + r.numFreeBlocks == acc.numProcesses + acc.numFreeBlocks + 1
    ensures r.largestFree >= acc.largestFree
    ensures b.IsFree() ==> r.largestFree >= b.size && r.allocatedMem == acc.allocatedMem
    ensures !b.IsFree() ==> r.largestFree == acc.largestFree && r.freeMem == acc.freeMem
  {
    if b.IsFree() then
      acc.(freeMem := acc.freeMem + b.size, numFreeBlocks := acc.numFreeBlocks + 1,
           largestFree := Max(acc.largestFree, b.size))
    else
      acc.(allocatedMem := acc.allocatedMem + b.size, numProcesses := acc.numProcesses + 1)
  }

  /** The totals after the loop has visited every block of `s`, in order. */
  function Tally(s: seq<Block>): (r: Stats)
    ensures r.numProcesses + r.numFreeBlocks == |s|
    ensures r.largestFree >= 0
  {
    if s == [] then Zero else Count(Tally(s[..|s| - 1]), s[|s| - 1])
  }

  /** Every block is counted once, as allocated or as free. */
  lemma {:induction false} TallyTotals(s: seq<Block>)
    ensures Tally(s).allocatedMem + Tally(s).freeMem == SumSizes(s)
    ensures Tally(s).numProcesses + Tally(s).numFreeBlocks == |s|
  {
    if s != [] {
      TallyTotals(s[..|s| - 1]);
    }
  }

  /** For a list of positive blocks the largest free block is the size of
      some free block, no free block is larger, it is at most the free
      memory, and it is 0 exactly when there is no free block. */
  lemma {:induction false} TallyLargest(s: seq<Block>)
    requires PositiveSizes(s)
    ensures 0 <= Tally(s).largestFree <= Tally(s).freeMem
    ensures Tally(s).largestFree == 0 <==> Tally(s).numFreeBlocks == 0
    ensures Tally(s).numFreeBlocks == 0 <==> forall j :: 0 <= j < |s| ==> !s[j].IsFree()
    ensures forall j :: 0 <= j < |s| && s[j].IsFree() ==> s[j].size <= Tally(s).largestFree
    ensures Tally(s).numFreeBlocks > 0 ==>
              exists j :: 0 <= j < |s| && s[j].IsFree() && s[j].size == Tally(s).largestFree
  {
    if s != [] {
      var p := s[..|s| - 1];
      assert PositiveSizes(p) by {
        forall j | 0 <= j < |p| ensures p[j].size > 0 {
          assert p[j] == s[j];
        }
      }
      TallyLargest(p);
      forall j | 0 <= j < |s| - 1 ensures s[j] == p[j] { }
      if Tally(p).numFreeBlocks > 0 {
        var w :| 0 <= w < |p| && p[w].IsFree() && p[w].size == Tally(p).largestFree;
        assert s[w] == p[w];
      }
    }
  }

  /** A list covering [0, total) reports allocated + free == total. */
  lemma CoveredTotals(s: seq<Block>, total: int)
    requires Covers(s, total)
    ensures Tally(s).allocatedMem + Tally(s).freeMem == total
    ensures Tally(s).numProcesses + Tally(s).numFreeBlocks == |s|
  {
    CoveredSum(s, total);
    TallyTotals(s);
  }

  /** The counts of two consecutive parts of the list add up. */
  lemma {:induction false} TallyAppend(a: seq<Block>, b: seq<Block>)
    ensures Tally(a + b).allocatedMem == Tally(a).allocatedMem + Tally(b).allocatedMem
    ensures Tally(a + b).freeMem == Tally(a).freeMem + Tally(b).freeMem
    ensures Tally(a + b).numProcesses == Tally(a).numProcesses + Tally(b).numProcesses
    ensures Tally(a + b).numFreeBlocks == Tally(a).numFreeBlocks + Tally(b).numFreeBlocks
    decreases |b|
  {
    if b == [] {
      assert a + b == a;
    } else {
      var c := a + b;
      assert c[..|c| - 1] == a + b[..|b| - 1];
      assert c[|c| - 1] == b[|b| - 1];
      TallyAppend(a, b[..|b| - 1]);
    }
  }

  lemma TallySingle(x: Block)
    ensures Tally([x]) == Count(Zero, x)
  {
    assert [x][..0] == [];
  }

  /** The additive counts of a list cut in three are the sums of the parts. */
  lemma TallyThree(a: seq<Block>, m: seq<Block>, c: seq<Block>)
    ensures Tally(a + m + c).allocatedMem == Tally(a).allocatedMem + Tally(m).allocatedMem + Tally(c).allocatedMem
    ensures Tally(a + m + c).freeMem == Tally(a).freeMem + Tally(m).freeMem + Tally(c).freeMem
    ensures Tally(a + m + c).numProcesses == Tally(a).numProcesses + Tally(m).numProcesses + Tally(c).numProcesses
  {
    TallyAppend(a + m, c);
    TallyAppend(a, m);
  }

  /** A successful allocation of `size` units moves exactly `size` units from
      free to allocated memory and adds one process. */
  lemma PlaceAccounting(s: seq<Block>, i: nat, name: string, size: int)
    requires i < |s| && Fits(s[i], size)
    ensures Tally(Place(s, i, name, size)).allocatedMem == Tally(s).allocatedMem + size
    ensures Tally(Place(s, i, name, size)).freeMem == Tally(s).freeMem - size
    ensures Tally(Place(s, i, name, size)).numProcesses == Tally(s).numProcesses + 1
  {
    var before, after := s[..i], s[i + 1..];
    var taken := Block(s[i].start, size, Some(name));
    PlaceUnfold(s, i, name, size);
    SplitAt(s, i, taken);
    TallySingle(s[i]);
    if s[i].size > size {
      var remainder := Block(s[i].start + size, s[i].size - size, None);
      ReplaceCounts(before, [s[i]], [taken, remainder], after);
      PairOfBlocks(taken, remainder);
    } else {
      ReplaceCounts(before, [s[i]], [taken], after);
      TallySingle(taken);
    }
  }

  /** Replacing the middle part m of a list by m2 changes each additive count
      by the difference between the counts of m2 and m. */
  lemma ReplaceCounts(before: seq<Block>, m: seq<Block>, m2: seq<Block>, after: seq<Block>)
    ensures Tally(before + m2 + after).allocatedMem + Tally(m).allocatedMem == Tally(before + m + after).allocatedMem + Tally(m2).allocatedMem
    ensures Tally(before + m2 + after).freeMem + Tally(m).freeMem == Tally(before + m + after).freeMem + Tally(m2).freeMem
    ensures Tally(before + m2 + after).numProcesses + Tally(m).numProcesses == Tally(before + m + after).numProcesses + Tally(m2).numProcesses
  {
    TallyThree(before, m, after);
    TallyThree(before, m2, after);
  }

  /** The additive counts of a two-block list. */
  lemma PairOfBlocks(x: Block, y: Block)
    ensures Tally([x, y]).allocatedMem == Count(Zero, x).allocatedMem + Count(Zero, y).allocatedMem
    ensures Tally([x, y]).freeMem == Count(Zero, x).freeMem + Count(Zero, y).freeMem
    ensures Tally([x, y]).numProcesses == Count(Zero, x).numProcesses + Count(Zero, y).numProcesses
  {
    assert [x, y][..1] == [x];
    TallySingle(x);
  }

  /** The additive counts of a list are those of its head plus its tail's. */
  lemma TallyCons(x: Block, r: seq<Block>)
    ensures Tally([x] + r).allocatedMem == Count(Zero, x).allocatedMem + Tally(r).allocatedMem
    ensures Tally([x] + r).freeMem == Count(Zero, x).freeMem + Tally(r).freeMem
    ensures Tally([x] + r).numProcesses == Count(Zero, x).numProcesses + Tally(r).numProcesses
  {
    TallyAppend([x], r);
    TallySingle(x);
  }

  /** Merging two free neighbours, at any index, keeps the totals and the
      process count. */
  lemma MergeKeepsTotals(s: seq<Block>, i: nat)
    requires i + 1 < |s| && s[i].IsFree() && s[i + 1].IsFree()
    ensures Tally(MergeAt(s, i)).allocatedMem == Tally(s).allocatedMem
    ensures Tally(MergeAt(s, i)).freeMem == Tally(s).freeMem
    ensures Tally(MergeAt(s, i)).numProcesses == Tally(s).numProcesses
  {
    MergeAtAround(s, i);
    PairTotals(s[..i], s[i], s[i + 1], s[i + 2..], s, MergeAt(s, i));
  }

  /** The list around a merge at i: the part before, the merged pair and
      the part after. */
  lemma MergeAtAround(s: seq<Block>, i: nat)
    requires i + 1 < |s|
    ensures s == s[..i] + [s[i], s[i + 1]] + s[i + 2..]
    ensures MergeAt(s, i) == s[..i] + [s[i].(size := s[i].size + s[i + 1].size)] + s[i + 2..]
  {
    var r, m := MergeAt(s, i), s[..i] + [s[i].(size := s[i].size + s[i + 1].size)] + s[i + 2..];
    assert |r| == |m|;
    forall j | 0 <= j < |r| ensures r[j] == m[j] {
      if j > i {
        assert r[j] == s[j + 1];
      }
    }
  }

  /** Replacing two free blocks by one free block of their combined size
      keeps the additive counts. */
  lemma PairTotals(before: seq<Block>, x: Block, y: Block, after: seq<Block>, s: seq<Block>, merged: seq<Block>)
    requires x.IsFree() && y.IsFree()
    requires s == before + [x, y] + after
    requires merged == before + [x.(size := x.size + y.size)] + after
    ensures Tally(merged).allocatedMem == Tally(s).allocatedMem
    ensures Tally(merged).freeMem == Tally(s).freeMem
    ensures Tally(merged).numProcesses == Tally(s).numProcesses
  {
    ReplaceCounts(before, [x, y], [x.(size := x.size + y.size)], after);
    PairCounts(x, y);
  }

  lemma PairCounts(x: Block, y: Block)
    requires x.IsFree() && y.IsFree()
    ensures Tally([x.(size := x.size + y.size)]).allocatedMem == Tally([x, y]).allocatedMem
    ensures Tally([x.(size := x.size + y.size)]).freeMem == Tally([x, y]).freeMem
    ensures Tally([x.(size := x.size + y.size)]).numProcesses == Tally([x, y]).numProcesses
  {
    assert [x, y][..1] == [x];
    TallySingle(x);
    TallySingle(x.(size := x.size + y.size));
  }

  /** Coalescing changes neither the memory totals nor the process count. */
  lemma {:induction false} CoalesceKeepsTotals(s: seq<Block>)
    ensures Tally(Coalesce(s)).allocatedMem == Tally(s).allocatedMem
    ensures Tally(Coalesce(s)).freeMem == Tally(s).freeMem
    ensures Tally(Coalesce(s)).numProcesses == Tally(s).numProcesses
    decreases |s|
  {
    if |s| > 1 {
      if s[0].IsFree() && s[1].IsFree() {
        assert Coalesce(s) == Coalesce(MergeAt(s, 0));
        CoalesceKeepsTotals(MergeAt(s, 0));
        MergeKeepsTotals(s, 0);
      } else {
        var tail := s[1..];
        assert Coalesce(s) == [s[0]] + Coalesce(tail);
        CoalesceKeepsTotals(tail);
        HeadTail(s);
        TallyCons(s[0], tail);
        TallyCons(s[0], Coalesce(tail));
      }
    }
  }

  /** Releasing a known name moves the size of its first block from
      allocated to free memory and removes one process; an unknown name
      changes no total. */
  lemma ReleaseAccounting(s: seq<Block>, name: string)
    ensures OwnerIndex(s, name).Some? ==>
              var k := OwnerIndex(s, name).value;
              Tally(Release(s, name)).allocatedMem == Tally(s).allocatedMem - s[k].size &&
              Tally(Release(s, name)).freeMem == Tally(s).freeMem + s[k].size &&
              Tally(Release(s, name)).numProcesses + 1 == Tally(s).numProcesses
    ensures OwnerIndex(s, name).None? ==> Tally(Release(s, name)) == Tally(s)
  {
    if OwnerIndex(s, name).Some? {
      var k := OwnerIndex(s, name).value;
      var freed := s[k].(processName := None);
      var t := s[k := freed];
      assert Release(s, name) == Coalesce(t);
      CoalesceKeepsTotals(t);
      SplitAt(s, k, freed);
      ReplaceCounts(s[..k], [s[k]], [freed], s[k + 1..]);
      TallySingle(s[k]);
      TallySingle(freed);
    }
  }
}
