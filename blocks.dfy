/** The block list as values: one block per contiguous run of address space,
    the layout invariants of the list, and the first-fit placement that
    `allocate` performs on it. */
module Blocks {

  datatype Option<+T> = None | Some(value: T)

  /** A run of `size` address units beginning at `start`; a block whose
      `processName` is `None` is free (the source's `null`). */
  datatype Block = Block(start: int, size: int, processName: Option<string>)
  {
    /** Free means owned by no process (the source's `null` owner). */
    predicate IsFree() {
      processName.None?
    }

    /** Last address of the block: the block holds exactly the `size`
        addresses from `start` to it. */
    function End(): (last: int)
      ensures last - start + 1 == size
      ensures size > 0 ==> start <= last
    {
      start + size - 1
    }
  }

  /** A block is free exactly when no process, whatever its name, owns it. */
  lemma FreeIsUnowned(b: Block)
    ensures b.IsFree() <==> forall name :: b.processName != Some(name)
  {
    if !b.IsFree() {
      assert b.processName == Some(b.processName.value);
    }
  }

  /** A free block large enough for a request of `size` units: the request,
      placed at the block's start, ends inside the block. */
  predicate Fits(b: Block, size: int)
    ensures Fits(b, size) <==> b.IsFree() && b.start + size - 1 <= b.End()
  {
    b.IsFree() && b.size >= size
  }

  /** Each block begins one past the last address of its predecessor. */
  predicate Contiguous(s: seq<Block>) {
    forall j :: 0 <= j < |s| - 1 ==> s[j + 1].start == s[j].End() + 1
  }

  predicate PositiveSizes(s: seq<Block>) {
    forall j :: 0 <= j < |s| ==> s[j].size > 0
  }

  /** The list tiles [0, total) exactly: no gap, no overlap, no empty block. */
  predicate Covers(s: seq<Block>, total: int) {
    |s| > 0 && s[0].start == 0 && Contiguous(s) && PositiveSizes(s) && s[|s| - 1].End() == total - 1
  }

  /** Free space is fully coalesced. */
  predicate NoAdjacentFree(s: seq<Block>) {
    forall j :: 0 <= j < |s| - 1 ==> !(s[j].IsFree() && s[j + 1].IsFree())
  }

  function SumSizes(s: seq<Block>): int {
    if s == [] then 0 else SumSizes(s[..|s| - 1]) + s[|s| - 1].size
  }

  /** A contiguous list spans exactly the sum of its sizes. */
  lemma {:induction false} SpanSum(s: seq<Block>)
    requires |s| > 0 && Contiguous(s)
    ensures SumSizes(s) == s[|s| - 1].End() + 1 - s[0].start
  {
    if |s| > 1 {
      var p := s[..|s| - 1];
      assert Contiguous(p) by {
        forall j | 0 <= j < |p| - 1 ensures p[j + 1].start == p[j].End() + 1 {
          assert p[j] == s[j] && p[j + 1] == s[j + 1];
        }
      }
      SpanSum(p);
      assert p[|p| - 1] == s[|s| - 2];
    }
  }

  /** The sizes of a list that covers [0, total) add up to total. */
  lemma CoveredSum(s: seq<Block>, total: int)
    requires Covers(s, total)
    ensures SumSizes(s) == total
  {
    SpanSum(s);
  }

  /** The scan of `allocate` from index `i` on: the first index at or after
      `i` holding a free block of at least `size` units. */
  function ScanFit(s: seq<Block>, size: int, i: nat): (r: Option<nat>)
    requires i <= |s|
    decreases |s| - i
    ensures r.Some? ==> i <= r.value < |s| && Fits(s[r.value], size)
    ensures r.Some? ==> forall j :: i <= j < r.value ==> !Fits(s[j], size)
    ensures r.None? ==> forall j :: i <= j < |s| ==> !Fits(s[j], size)
  {
    if i == |s| then None
    else if Fits(s[i], size) then Some(i)
    else ScanFit(s, size, i + 1)
  }

  /** First fit: the lowest index whose block is free and large enough;
      no earlier block is both. `None` exactly when no block qualifies. */
  function FirstFit(s: seq<Block>, size: int): (r: Option<nat>)
    ensures r.Some? <==> exists j :: 0 <= j < |s| && Fits(s[j], size)
    ensures r.Some? ==> r.value < |s| && Fits(s[r.value], size)
    ensures r.Some? ==> forall j :: 0 <= j < r.value ==> !Fits(s[j], size)
  {
    ScanFit(s, size, 0)
  }

  /** The first fit is the fitting index below which nothing fits. */
  lemma FirstFitAt(s: seq<Block>, size: int, i: nat)
    requires i < |s| && Fits(s[i], size)
    requires forall j :: 0 <= j < i ==> !Fits(s[j], size)
    ensures FirstFit(s, size) == Some(i)
  {
  }

  /** The list after `allocate` has given `size` units of the fitting block
      at index `i` to `name`: an exact fit only changes the owner, a larger
      block is split into the allocated part and a free remainder. */
  function Place(s: seq<Block>, i: nat, name: string, size: int): (r: seq<Block>)
    requires i < |s| && Fits(s[i], size)
    ensures |r| == if s[i].size > size then |s| + 1 else |s|
    ensures r[i] == Block(s[i].start, size, Some(name))
    ensures forall j {:trigger r[j]} :: 0 <= j < i ==> r[j] == s[j]
    ensures s[i].size > size ==>
              r[i + 1] == Block(s[i].start + size, s[i].size - size, None) &&
              forall j :: i + 1 < j < |r| ==> r[j] == s[j - 1]
    ensures s[i].size == size ==> forall j {:trigger r[j]} :: i < j < |r| ==> r[j] == s[j]
  {
    var block := s[i];
    if block.size > size then
      (var taken := Block(block.start, size, Some(name));
       var remainder := Block(taken.End() + 1, block.size - size, None);
       s[..i] + [taken, remainder] + s[i + 1..])
    else
      s[i := block.(processName := Some(name))]
  }

  /** Placing a positive request keeps the list a coalesced tiling of [0, total). */
  lemma PlaceKeepsLayout(s: seq<Block>, i: nat, name: string, size: int, total: int)
    requires Covers(s, total) && NoAdjacentFree(s)
    requires i < |s| && Fits(s[i], size) && size > 0
    ensures Covers(Place(s, i, name, size), total)
    ensures NoAdjacentFree(Place(s, i, name, size))
  {
    if s[i].size > size {
      SplitKeepsLayout(s, i, name, size, total);
    } else {
      ExactFitKeepsLayout(s, i, name, size, total);
    }
  }

  lemma SplitKeepsLayout(s: seq<Block>, i: nat, name: string, size: int, total: int)
    requires Covers(s, total) && NoAdjacentFree(s)
    requires i < |s| && Fits(s[i], size) && 0 < size < s[i].size
    ensures Covers(Place(s, i, name, size), total)
    ensures NoAdjacentFree(Place(s, i, name, size))
  {
    var r := Place(s, i, name, size);
    SplitKeepsContiguous(s, i, name, size);
    SplitKeepsCoalesced(s, i, name, size);
    SplitKeepsPositive(s, i, name, size);
    if i < |s| - 1 {
      assert r[|r| - 1] == s[|s| - 1];
    }
  }

  lemma SplitKeepsPositive(s: seq<Block>, i: nat, name: string, size: int)
    requires PositiveSizes(s) && i < |s| && Fits(s[i], size) && 0 < size < s[i].size
    ensures PositiveSizes(Place(s, i, name, size))
  {
    var r := Place(s, i, name, size);
    forall j | 0 <= j < |r| ensures r[j].size > 0 {
      if j > i + 1 { assert r[j] == s[j - 1]; }
    }
  }

  lemma SplitKeepsContiguous(s: seq<Block>, i: nat, name: string, size: int)
    requires Contiguous(s) && i < |s| && Fits(s[i], size) && size < s[i].size
    ensures Contiguous(Place(s, i, name, size))
  {
    var r := Place(s, i, name, size);
    forall j | 0 <= j < |r| - 1 ensures r[j + 1].start == r[j].End() + 1 {
      if j < i - 1 {
        assert r[j] == s[j] && r[j + 1] == s[j + 1];
      } else if j == i - 1 {
        assert r[j] == s[j];
      } else if j == i + 1 {
        assert r[j + 1] == s[i + 1];
      } else if j > i + 1 {
        assert r[j] == s[j - 1] && r[j + 1] == s[j];
      }
    }
  }

  lemma SplitKeepsCoalesced(s: seq<Block>, i: nat, name: string, size: int)
    requires NoAdjacentFree(s) && i < |s| && Fits(s[i], size) && size < s[i].size
    ensures NoAdjacentFree(Place(s, i, name, size))
  {
    var r := Place(s, i, name, size);
    forall j | 0 <= j < |r| - 1 ensures !(r[j].IsFree() && r[j + 1].IsFree()) {
      if j < i - 1 {
        assert r[j] == s[j] && r[j + 1] == s[j + 1];
      } else if j == i + 1 {
        assert r[j + 1] == s[i + 1];
      } else if j > i + 1 {
        assert r[j] == s[j - 1] && r[j + 1] == s[j];
      }
    }
  }

  lemma ExactFitKeepsLayout(s: seq<Block>, i: nat, name: string, size: int, total: int)
    requires Covers(s, total) && NoAdjacentFree(s)
    requires i < |s| && Fits(s[i], size) && s[i].size == size
    ensures Covers(Place(s, i, name, size), total)
    ensures NoAdjacentFree(Place(s, i, name, size))
  {
    var r := Place(s, i, name, size);
    forall j | 0 <= j < |r| - 1
      ensures r[j + 1].start == r[j].End() + 1
      ensures !(r[j].IsFree() && r[j + 1].IsFree())
    {
      if j != i && j + 1 != i {
        assert r[j] == s[j] && r[j + 1] == s[j + 1];
      }
    }
  }

  /** Place spelled out as the two list edits of `allocate`. */
  lemma PlaceUnfold(s: seq<Block>, i: nat, name: string, size: int)
    requires i < |s| && Fits(s[i], size)
    ensures s[i].size > size ==>
              Place(s, i, name, size)
                == s[..i] + [Block(s[i].start, size, Some(name)), Block(s[i].start + size, s[i].size - size, None)] + s[i + 1..]
    ensures s[i].size == size ==> Place(s, i, name, size) == s[i := s[i].(processName := Some(name))]
  {
  }

  /** The list around index i: its prefix, one element and its suffix. */
  lemma SplitAt(s: seq<Block>, i: nat, x: Block)
    requires i < |s|
    ensures s == s[..i] + [s[i]] + s[i + 1..]
    ensures s[i := x] == s[..i] + [x] + s[i + 1..]
  {
  }

  lemma HeadTail(s: seq<Block>)
    requires |s| > 0
    ensures s == [s[0]] + s[1..]
  {
  }

  lemma HeadAppend(a: seq<Block>, b: seq<Block>)
    requires |a| > 0
    ensures a + b == [a[0]] + (a[1..] + b)
    ensures (a + b)[1..] == a[1..] + b
  {
  }

  lemma AppendAssoc(a: seq<Block>, b: seq<Block>, c: seq<Block>)
    ensures a + b + c == a + (b + c)
  {
  }

  /** Place as the list edits `allocate` performs: set element i to the
      allocated part and insert the free remainder after it, or, for an
      exact fit, only set the owner. */
  lemma PlaceAsListEdits(s: seq<Block>, i: nat, name: string, size: int)
    requires i < |s| && Fits(s[i], size)
    ensures var taken := Block(s[i].start, size, Some(name));
            var remainder := Block(taken.End() + 1, s[i].size - size, None);
            s[i].size > size ==>
              Place(s, i, name, size) == s[i := taken][..i + 1] + [remainder] + s[i := taken][i + 1..]
    ensures s[i].size == size ==> Place(s, i, name, size) == s[i := s[i].(processName := Some(name))]
  {
    var taken := Block(s[i].start, size, Some(name));
    var remainder := Block(taken.End() + 1, s[i].size - size, None);
    assert s[i := taken][..i + 1] + [remainder] + s[i := taken][i + 1..] == s[..i] + [taken, remainder] + s[i + 1..];
  }
}
