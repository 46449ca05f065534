/** Release of a process's block and the coalescing pass that follows it,
    as functions on the block list. `Coalesce` is the reference definition of
    what `mergeAdjacentBlocks` computes; the lemmas below say what it
    guarantees. */
module Coalescing {
  import opened Blocks

  /** The scan of `deallocate` from index `i` on: the first index at or
      after `i` whose block is owned by `name`. */
  function ScanOwner(s: seq<Block>, name: string, i: nat): (r: Option<nat>)
    requires i <= |s|
    decreases |s| - i
    ensures r.Some? ==> i <= r.value < |s| && s[r.value].processName == Some(name)
    ensures r.Some? ==> forall j :: i <= j < r.value ==> s[j].processName != Some(name)
    ensures r.None? ==> forall j :: i <= j < |s| ==> s[j].processName != Some(name)
  {
    if i == |s| then None
    else if !s[i].IsFree() && s[i].processName.value == name then Some(i)
    else ScanOwner(s, name, i + 1)
  }

  /** The lowest index of a block owned by `name`; `None` exactly when no
      block is (an unknown or already released name). */
  function OwnerIndex(s: seq<Block>, name: string): (r: Option<nat>)
    ensures r.Some? <==> exists j :: 0 <= j < |s| && s[j].processName == Some(name)
    ensures r.Some? ==> r.value < |s| && s[r.value].processName == Some(name)
    ensures r.Some? ==> forall j :: 0 <= j < r.value ==> s[j].processName != Some(name)
  {
    ScanOwner(s, name, 0)
  }

  /** Folds block i + 1 into block i: block i keeps its start and owner and
      grows by the size of its successor, which leaves the list. */
  function MergeAt(s: seq<Block>, i: nat): (r: seq<Block>)
    requires i + 1 < |s|
    ensures |r| == |s| - 1
    ensures r[i] == s[i].(size := s[i].size + s[i + 1].size)
    ensures forall j {:trigger r[j]} :: 0 <= j < i ==> r[j] == s[j]
    ensures forall j :: i < j < |r| ==> r[j] == s[j + 1]
  {
    s[..i] + [s[i].(size := s[i].size + s[i + 1].size)] + s[i + 2..]
  }

  /** MergeAt as the list edits `mergeAdjacentBlocks` performs: grow
      element i, then remove element i + 1. */
  lemma MergeAtAsListEdits(s: seq<Block>, i: nat)
    requires i + 1 < |s|
    ensures var grown := s[i].(size := s[i].size + s[i + 1].size);
            MergeAt(s, i) == s[i := grown][..i + 1] + s[i := grown][i + 2..]
  {
    var grown := s[i].(size := s[i].size + s[i + 1].size);
    assert s[i := grown][..i + 1] == s[..i] + [grown];
    assert s[i := grown][i + 2..] == s[i + 2..];
  }

  /** Merging at i keeps free space coalesced below i: block i stays free,
      so its left neighbour, already not free, still is not. */
  lemma MergeAtKeepsCoalescedPrefix(s: seq<Block>, i: nat)
    requires i + 1 < |s| && s[i].IsFree()
    requires forall j :: 0 <= j < i ==> !(s[j].IsFree() && s[j + 1].IsFree())
    ensures forall j :: 0 <= j < i ==> !(MergeAt(s, i)[j].IsFree() && MergeAt(s, i)[j + 1].IsFree())
  {
    var r := MergeAt(s, i);
    forall j | 0 <= j < i ensures !(r[j].IsFree() && r[j + 1].IsFree()) {
      assert r[j] == s[j];
      if j + 1 < i {
        assert r[j + 1] == s[j + 1];
      }
    }
  }

  /** Merging two neighbours of a contiguous list of positive blocks keeps
      it so, over the same address range. */
  lemma MergeAtKeepsSpan(s: seq<Block>, i: nat)
    requires Contiguous(s) && PositiveSizes(s) && i + 1 < |s|
    ensures Contiguous(MergeAt(s, i)) && PositiveSizes(MergeAt(s, i))
    ensures MergeAt(s, i)[0].start == s[0].start
    ensures MergeAt(s, i)[|s| - 2].End() == s[|s| - 1].End()
  {
    var r := MergeAt(s, i);
    forall j | 0 <= j < |r| - 1 ensures r[j + 1].start == r[j].End() + 1 {
      if j < i - 1 {
        assert r[j] == s[j] && r[j + 1] == s[j + 1];
      } else if j == i - 1 {
        assert r[j] == s[j];
      } else if j == i {
        assert r[j + 1] == s[j + 2];
      } else {
        assert r[j] == s[j + 1] && r[j + 1] == s[j + 2];
      }
    }
    forall j | 0 <= j < |r| ensures r[j].size > 0 {
      if j > i { assert r[j] == s[j + 1]; }
    }
    if i + 1 < |r| {
      assert r[|r| - 1] == s[|s| - 1];
    }
  }

  /** Merging two neighbours keeps the tiling of [0, total). */
  lemma MergeAtKeepsLayout(s: seq<Block>, i: nat, total: int)
    requires Covers(s, total) && i + 1 < |s|
    ensures Covers(MergeAt(s, i), total)
  {
    MergeAtKeepsSpan(s, i);
  }

  /** The list with every run of adjacent free blocks folded into its first
      block, scanning from the front. */
  function Coalesce(s: seq<Block>): (r: seq<Block>)
    decreases |s|
    ensures |r| <= |s|
    ensures |s| > 0 ==> |r| > 0 && r[0].start == s[0].start && r[0].IsFree() == s[0].IsFree()
    ensures |s| > 0 && !s[0].IsFree() ==> r[0] == s[0]
  {
    if |s| <= 1 then s
    else if s[0].IsFree() && s[1].IsFree() then Coalesce(MergeAt(s, 0))
    else [s[0]] + Coalesce(s[1..])
  }

  /** One merge of two free neighbours, anywhere in the list, does not change
      what coalescing yields. */
  lemma {:induction false} CoalesceMergeStep(s: seq<Block>, i: nat)
    requires i + 1 < |s| && s[i].IsFree() && s[i + 1].IsFree()
    ensures Coalesce(MergeAt(s, i)) == Coalesce(s)
    decreases |s|
  {
    if i == 0 {
    } else if s[0].IsFree() && s[1].IsFree() {
      assert Coalesce(s) == Coalesce(MergeAt(s, 0));
      MergesCommute(s, i);
      if i > 1 {
        CoalesceMergeStep(MergeAt(s, 0), i - 1);
      }
    } else {
      MergeAtTail(s, i);
      CoalesceMergeStep(s[1..], i - 1);
    }
  }

  /** Merging at the front and merging at i > 0 lead to the same list once
      the other merge is done as well. */
  lemma MergesCommute(s: seq<Block>, i: nat)
    requires 0 < i && i + 1 < |s|
    ensures MergeAt(MergeAt(s, 0), i - 1) == MergeAt(MergeAt(s, i), 0)
  {
  }

  /** A merge past the head leaves the head and merges in the tail. */
  lemma MergeAtTail(s: seq<Block>, i: nat)
    requires 0 < i && i + 1 < |s|
    ensures MergeAt(s, i)[0] == s[0]
    ensures MergeAt(s, i)[1..] == MergeAt(s[1..], i - 1)
  {
  }

  /** A list without adjacent free blocks is left as it is. */
  lemma {:induction false} CoalesceFixpoint(s: seq<Block>)
    requires NoAdjacentFree(s)
    ensures Coalesce(s) == s
    decreases |s|
  {
    if |s| > 1 {
      CoalesceFixpoint(s[1..]);
      assert [s[0]] + s[1..] == s;
    }
  }

  /** After coalescing no two consecutive blocks are both free. */
  lemma {:induction false} CoalesceNoAdjacentFree(s: seq<Block>)
    ensures NoAdjacentFree(Coalesce(s))
    decreases |s|
  {
    if |s| > 1 {
      if s[0].IsFree() && s[1].IsFree() {
        CoalesceNoAdjacentFree(MergeAt(s, 0));
      } else {
        var rest := Coalesce(s[1..]);
        CoalesceNoAdjacentFree(s[1..]);
        var r := [s[0]] + rest;
        forall j | 0 <= j < |r| - 1 ensures !(r[j].IsFree() && r[j + 1].IsFree()) {
          if j > 0 { assert r[j] == rest[j - 1] && r[j + 1] == rest[j]; }
        }
      }
    }
  }

  /** Coalescing keeps a contiguous list of positive blocks contiguous and
      positive over the same address range. */
  lemma {:induction false} CoalesceKeepsSpan(s: seq<Block>)
    requires |s| > 0 && Contiguous(s) && PositiveSizes(s)
    ensures Contiguous(Coalesce(s)) && PositiveSizes(Coalesce(s))
    ensures Coalesce(s)[|Coalesce(s)| - 1].End() == s[|s| - 1].End()
    decreases |s|
  {
    if |s| > 1 {
      if s[0].IsFree() && s[1].IsFree() {
        assert Coalesce(s) == Coalesce(MergeAt(s, 0));
        MergeAtKeepsSpan(s, 0);
        CoalesceKeepsSpan(MergeAt(s, 0));
      } else {
        var tail := s[1..];
        assert Coalesce(s) == [s[0]] + Coalesce(tail);
        SpanTail(s);
        CoalesceKeepsSpan(tail);
        SpanCons(s[0], Coalesce(tail));
      }
    }
  }

  /** Dropping the first block keeps a list contiguous and positive. */
  lemma SpanTail(s: seq<Block>)
    requires |s| > 0 && Contiguous(s) && PositiveSizes(s)
    ensures Contiguous(s[1..]) && PositiveSizes(s[1..])
  {
    var u := s[1..];
    forall j | 0 <= j < |u| - 1 ensures u[j + 1].start == u[j].End() + 1 {
      assert u[j] == s[j + 1] && u[j + 1] == s[j + 2];
    }
    forall j | 0 <= j < |u| ensures u[j].size > 0 {
      assert u[j] == s[j + 1];
    }
  }

  /** A positive block directly before a contiguous list of positive blocks. */
  lemma SpanCons(x: Block, r: seq<Block>)
    requires Contiguous(r) && PositiveSizes(r) && x.size > 0
    requires r != [] ==> r[0].start == x.End() + 1
    ensures Contiguous([x] + r) && PositiveSizes([x] + r)
  {
    var u := [x] + r;
    forall j | 0 <= j < |u| - 1 ensures u[j + 1].start == u[j].End() + 1 {
      if j > 0 { assert u[j] == r[j - 1] && u[j + 1] == r[j]; }
    }
    forall j | 0 <= j < |u| ensures u[j].size > 0 {
      if j > 0 { assert u[j] == r[j - 1]; }
    }
  }

  /** The allocated blocks, in list order. */
  function Allocated(s: seq<Block>): seq<Block> {
    if s == [] then [] else (if s[0].IsFree() then [] else [s[0]]) + Allocated(s[1..])
  }

  /** Coalescing only touches free blocks: the allocated blocks keep their
      order, start, size and owner. */
  lemma {:induction false} CoalesceKeepsAllocated(s: seq<Block>)
    ensures Allocated(Coalesce(s)) == Allocated(s)
    decreases |s|
  {
    if |s| > 1 {
      if s[0].IsFree() && s[1].IsFree() {
        var t := MergeAt(s, 0);
        CoalesceKeepsAllocated(t);
        assert t[1..] == s[2..];
        assert s[1..][1..] == s[2..];
      } else {
        CoalesceKeepsAllocated(s[1..]);
        assert ([s[0]] + Coalesce(s[1..]))[1..] == Coalesce(s[1..]);
      }
    }
  }

  /** The list after `deallocate(name)`: the first block owned by `name`
      becomes free and the list is coalesced; an unknown name changes
      nothing. */
  function Release(s: seq<Block>, name: string): (r: seq<Block>)
    ensures OwnerIndex(s, name).None? ==> r == s
  {
    match OwnerIndex(s, name)
    case None => s
    case Some(k) => Coalesce(s[k := s[k].(processName := None)])
  }

  /** Releasing keeps the list a coalesced tiling of [0, total). */
  lemma ReleaseKeepsLayout(s: seq<Block>, name: string, total: int)
    requires Covers(s, total) && NoAdjacentFree(s)
    ensures Covers(Release(s, name), total) && NoAdjacentFree(Release(s, name))
  {
    if OwnerIndex(s, name).Some? {
      var k := OwnerIndex(s, name).value;
      var t := s[k := s[k].(processName := None)];
      assert Release(s, name) == Coalesce(t);
      FreeingKeepsCover(s, k, total);
      CoalesceKeepsSpan(t);
      CoalesceNoAdjacentFree(t);
    }
  }

  /** Coalescing a coalesced prefix whose last block is not merged with what
      follows leaves the prefix alone. */
  lemma {:induction false} CoalesceSkip(a: seq<Block>, b: seq<Block>)
    requires NoAdjacentFree(a)
    requires a != [] && b != [] ==> !(a[|a| - 1].IsFree() && b[0].IsFree())
    ensures Coalesce(a + b) == a + Coalesce(b)
    decreases |a|
  {
    if a == [] {
      assert a + b == b;
    } else {
      var tail := a[1..];
      NoAdjacentFreeTail(a);
      CoalesceSkip(tail, b);
      HeadAppend(a, b);
      HeadAppend(a, Coalesce(b));
      if |a + b| > 1 {
        assert (a + b)[1] == if |a| > 1 then a[1] else b[0];
        assert !(a[0].IsFree() && (a + b)[1].IsFree());
        assert Coalesce(a + b) == [a[0]] + Coalesce(tail + b);
      } else {
        assert b == [] && tail == [];
      }
    }
  }

  lemma {:induction false} SumSizesCons(x: Block, t: seq<Block>)
    ensures SumSizes([x] + t) == x.size + SumSizes(t)
    decreases |t|
  {
    if t != [] {
      assert ([x] + t)[..|t|] == [x] + t[..|t| - 1];
      SumSizesCons(x, t[..|t| - 1]);
    }
  }

  /** A run of free blocks followed by a coalesced list that does not start
      free coalesces into one free block as large as the whole run. */
  lemma {:induction false} CoalesceFreeRun(run: seq<Block>, rest: seq<Block>)
    requires |run| > 0 && forall j :: 0 <= j < |run| ==> run[j].IsFree()
    requires NoAdjacentFree(rest) && (rest != [] ==> !rest[0].IsFree())
    ensures Coalesce(run + rest) == [run[0].(size := SumSizes(run))] + rest
    decreases |run|
  {
    if |run| == 1 {
      CoalesceFixpoint(rest);
      assert run + rest == [run[0]] + rest;
      assert (run + rest)[1..] == rest;
      assert SumSizes(run) == SumSizes(run[..0]) + run[0].size;
    } else {
      var merged := run[0].(size := run[0].size + run[1].size);
      var run' := [merged] + run[2..];
      assert MergeAt(run + rest, 0) == run' + rest;
      CoalesceFreeRun(run', rest);
      assert run == [run[0]] + run[1..] && run[1..] == [run[1]] + run[2..];
      SumSizesCons(run[0], run[1..]);
      SumSizesCons(run[1], run[2..]);
      SumSizesCons(merged, run[2..]);
    }
  }

  /** A contiguous free run before a coalesced rest that does not start
      free becomes one free block spanning the run. */
  lemma RunCoalesces(run: seq<Block>, rest: seq<Block>, merged: Block)
    requires |run| > 0 && Contiguous(run) && forall j :: 0 <= j < |run| ==> run[j].IsFree()
    requires NoAdjacentFree(rest) && (rest != [] ==> !rest[0].IsFree())
    requires merged == Block(run[0].start, run[|run| - 1].End() + 1 - run[0].start, None)
    ensures Coalesce(run + rest) == [merged] + rest
  {
    SpanSum(run);
    CoalesceFreeRun(run, rest);
    assert run[0].(size := SumSizes(run)) == merged;
  }

  /** A run of free blocks between a coalesced prefix that does not end free
      and a coalesced rest that does not start free coalesces into one free
      block spanning the run's addresses; prefix and rest stay as they are. */
  lemma CoalesceSingleRun(prefix: seq<Block>, run: seq<Block>, rest: seq<Block>, merged: Block)
    requires NoAdjacentFree(prefix) && (prefix != [] ==> !prefix[|prefix| - 1].IsFree())
    requires |run| > 0 && Contiguous(run) && forall j :: 0 <= j < |run| ==> run[j].IsFree()
    requires NoAdjacentFree(rest) && (rest != [] ==> !rest[0].IsFree())
    requires merged == Block(run[0].start, run[|run| - 1].End() + 1 - run[0].start, None)
    ensures Coalesce(prefix + run + rest) == prefix + [merged] + rest
  {
    calc {
      Coalesce(prefix + run + rest);
      { AppendAssoc(prefix, run, rest); }
      Coalesce(prefix + (run + rest));
      { CoalesceSkip(prefix, run + rest); }
      prefix + Coalesce(run + rest);
      { RunCoalesces(run, rest, merged); }
      prefix + ([merged] + rest);
      { AppendAssoc(prefix, [merged], rest); }
      prefix + [merged] + rest;
    }
  }

  lemma NoAdjacentFreeTail(s: seq<Block>)
    requires NoAdjacentFree(s) && |s| > 0
    ensures NoAdjacentFree(s[1..])
  {
    var u := s[1..];
    forall j | 0 <= j < |u| - 1 ensures !(u[j].IsFree() && u[j + 1].IsFree()) {
      assert u[j] == s[j + 1] && u[j + 1] == s[j + 2];
    }
  }

  lemma NoAdjacentFreeSlice(s: seq<Block>, a: nat, b: nat)
    requires NoAdjacentFree(s) && a <= b <= |s|
    ensures NoAdjacentFree(s[a..b])
  {
    var u := s[a..b];
    forall j | 0 <= j < |u| - 1 ensures !(u[j].IsFree() && u[j + 1].IsFree()) {
      assert u[j] == s[a + j] && u[j + 1] == s[a + j + 1];
    }
  }

  lemma ContiguousSlice(s: seq<Block>, a: nat, b: nat)
    requires Contiguous(s) && a <= b <= |s|
    ensures Contiguous(s[a..b])
  {
    var u := s[a..b];
    forall j | 0 <= j < |u| - 1 ensures u[j + 1].start == u[j].End() + 1 {
      assert u[j] == s[a + j] && u[j + 1] == s[a + j + 1];
    }
  }

  /** Freeing a block does not move any block. */
  lemma FreeingKeepsContiguous(s: seq<Block>, k: nat)
    requires Contiguous(s) && k < |s|
    ensures Contiguous(s[k := s[k].(processName := None)])
  {
    var t := s[k := s[k].(processName := None)];
    forall j | 0 <= j < |t| - 1 ensures t[j + 1].start == t[j].End() + 1 {
      assert t[j].End() == s[j].End() && t[j + 1].start == s[j + 1].start;
    }
  }

  /** Freeing a block keeps a tiling of [0, total) a tiling. */
  lemma FreeingKeepsCover(s: seq<Block>, k: nat, total: int)
    requires Covers(s, total) && k < |s|
    ensures Covers(s[k := s[k].(processName := None)], total)
  {
    var t := s[k := s[k].(processName := None)];
    FreeingKeepsContiguous(s, k);
    forall j | 0 <= j < |t| ensures t[j].size > 0 {
      assert t[j].size == s[j].size;
    }
  }

  lemma SplitAround(s: seq<Block>, k: nat, x: Block, lo: nat, hi: nat)
    requires lo <= k <= hi < |s|
    ensures s[k := x] == s[..lo] + s[k := x][lo..hi + 1] + s[hi + 1..]
  {
  }

  /** The first index of the free run that block k joins when it is freed
      in a coalesced list: its left neighbour when that one is free. */
  function RunStart(s: seq<Block>, k: nat): (lo: nat)
    requires k < |s|
    ensures lo <= k && k - lo <= 1
    ensures lo < k <==> k > 0 && s[k - 1].IsFree()
  {
    if k > 0 && s[k - 1].IsFree() then k - 1 else k
  }

  /** The last index of that run: its right neighbour when that one is free. */
  function RunEnd(s: seq<Block>, k: nat): (hi: nat)
    requires k < |s|
    ensures k <= hi < |s| && hi - k <= 1
    ensures hi > k <==> k + 1 < |s| && s[k + 1].IsFree()
  {
    if k + 1 < |s| && s[k + 1].IsFree() then k + 1 else k
  }

  /** Freeing block k of a coalesced tiling leaves a run lo..hi of free
      blocks (k and its free neighbours) between a coalesced prefix that does
      not end free and a coalesced rest that does not start free. */
  lemma FreedRun(s: seq<Block>, k: nat, lo: nat, hi: nat, prefix: seq<Block>, run: seq<Block>, rest: seq<Block>)
    requires Contiguous(s) && NoAdjacentFree(s) && k < |s|
    requires lo == RunStart(s, k) && hi == RunEnd(s, k)
    requires prefix == s[..lo] && run == s[k := s[k].(processName := None)][lo..hi + 1] && rest == s[hi + 1..]
    ensures NoAdjacentFree(prefix) && (prefix != [] ==> !prefix[|prefix| - 1].IsFree())
    ensures |run| > 0 && Contiguous(run) && forall j :: 0 <= j < |run| ==> run[j].IsFree()
    ensures run[0].start == s[lo].start && run[|run| - 1].End() == s[hi].End()
    ensures NoAdjacentFree(rest) && (rest != [] ==> !rest[0].IsFree())
  {
    var t := s[k := s[k].(processName := None)];
    NoAdjacentFreeSlice(s, 0, lo);
    assert s[..lo] == s[0..lo];
    NoAdjacentFreeSlice(s, hi + 1, |s|);
    assert s[hi + 1..] == s[hi + 1..|s|];
    if k >= 2 && s[k - 1].IsFree() {
      assert !s[k - 2].IsFree();
    }
    if hi == k + 1 && hi + 1 < |s| {
      assert !s[k + 2].IsFree();
    }
    FreeingKeepsContiguous(s, k);
    ContiguousSlice(t, lo, hi + 1);
  }

  /** Freeing block k of a coalesced list and coalescing merges block k
      with exactly its free neighbours lo..hi into one free block. */
  lemma CoalesceFreed(s: seq<Block>, k: nat, lo: nat, hi: nat)
    requires Contiguous(s) && NoAdjacentFree(s) && k < |s|
    requires lo == RunStart(s, k) && hi == RunEnd(s, k)
    ensures Coalesce(s[k := s[k].(processName := None)])
         == s[..lo] + [Block(s[lo].start, s[hi].End() + 1 - s[lo].start, None)] + s[hi + 1..]
  {
    var t := s[k := s[k].(processName := None)];
    SplitAround(s, k, s[k].(processName := None), lo, hi);
    CoalesceFreedPieces(s, k, lo, hi, s[..lo], t[lo..hi + 1], s[hi + 1..]);
  }

  lemma CoalesceFreedPieces(s: seq<Block>, k: nat, lo: nat, hi: nat, prefix: seq<Block>, run: seq<Block>, rest: seq<Block>)
    requires Contiguous(s) && NoAdjacentFree(s) && k < |s|
    requires lo == RunStart(s, k) && hi == RunEnd(s, k)
    requires prefix == s[..lo] && run == s[k := s[k].(processName := None)][lo..hi + 1] && rest == s[hi + 1..]
    ensures Coalesce(prefix + run + rest)
         == prefix + [Block(s[lo].start, s[hi].End() + 1 - s[lo].start, None)] + rest
  {
    FreedRun(s, k, lo, hi, prefix, run, rest);
    CoalesceSingleRun(prefix, run, rest, Block(s[lo].start, s[hi].End() + 1 - s[lo].start, None));
  }

  /** Releasing merges the freed block with exactly its free neighbours: the
      result is the old list with the blocks lo..hi replaced by one free block
      spanning their addresses, where lo and hi take in the left and right
      neighbour when it is free. So a release removes at most two blocks. */
  lemma ReleaseMergesNeighbours(s: seq<Block>, name: string, total: int)
    requires Covers(s, total) && NoAdjacentFree(s) && OwnerIndex(s, name).Some?
    ensures var k := OwnerIndex(s, name).value;
            var lo, hi := RunStart(s, k), RunEnd(s, k);
            Release(s, name) == s[..lo] + [Block(s[lo].start, s[hi].End() + 1 - s[lo].start, None)] + s[hi + 1..]
    ensures |Release(s, name)| >= |s| - 2
  {
    var k := OwnerIndex(s, name).value;
    var lo, hi := RunStart(s, k), RunEnd(s, k);
    var merged := Block(s[lo].start, s[hi].End() + 1 - s[lo].start, None);
    assert Release(s, name) == Coalesce(s[k := s[k].(processName := None)]);
    CoalesceFreed(s, k, lo, hi);
    assert |s[..lo] + [merged] + s[hi + 1..]| == lo + 1 + (|s| - hi - 1);
  }
}
