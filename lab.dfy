/** The simulator's state and the code that changes it in place: the block
    list, the configured total and the two allocation counters, with
    `allocate`, `deallocate`, `mergeAdjacentBlocks`, the statistics loop and
    the driver that feeds them a sequence of commands. */
module Lab {
  import opened Blocks
  import Coalescing
  import opened Statistics

  class MemoryAllocationLab {
    const totalMemory: int
    var memory: seq<Block>
    var successfulAllocations: nat
    var failedAllocations: nat

    /** The list and the counters as one value. */
    function State(): Sim
      reads this
    {
      Sim(memory, successfulAllocations, failedAllocations)
    }

    /** The block list tiles [0, totalMemory) and its free space is coalesced. */
    predicate Valid()
      reads this
    {
      Covers(memory, totalMemory) && NoAdjacentFree(memory)
    }

    /** All of memory starts as one free block; the counters start at zero. */
    constructor (totalMemory: int)
      requires totalMemory > 0
      ensures Valid() && this.totalMemory == totalMemory
      ensures memory == [Block(0, totalMemory, None)]
      ensures successfulAllocations == 0 && failedAllocations == 0
    {
      this.totalMemory := totalMemory;
      memory := [Block(0, totalMemory, None)];
      successfulAllocations, failedAllocations := 0, 0;
    }

    /** The scan of `allocate`: the index of the first block that is free
        and holds at least `size` units, if any. */
    method FindFit(size: int) returns (r: Option<nat>)
      ensures r == FirstFit(memory, size)
    {
      for i := 0 to |memory|
        invariant forall j :: 0 <= j < i ==> !Fits(memory[j], size)
      {
        var block := memory[i];
        if block.IsFree() && block.size >= size {
          FirstFitAt(memory, size, i);
          return Some(i);
        }
      }
      return None;
    }

    /** First-fit allocation of `size` units to `processName`. On success the
        first fitting block is taken (split when larger than the request) and
        the success counter grows; otherwise nothing but the failure counter
        changes. */
    method Allocate(processName: string, size: int) returns (success: bool)
      requires Valid() && size > 0
      modifies this
      ensures Valid()
      ensures success <==> exists j :: 0 <= j < |old(memory)| && Fits(old(memory)[j], size)
      ensures success ==>
                memory == Place(old(memory), FirstFit(old(memory), size).value, processName, size) &&
                successfulAllocations == old(successfulAllocations) + 1 &&
                failedAllocations == old(failedAllocations)
      ensures !success ==>
                memory == old(memory) &&
                successfulAllocations == old(successfulAllocations) &&
                failedAllocations == old(failedAllocations) + 1
    {
      var fit := FindFit(size);
      if fit.Some? {
        var i := fit.value;
        var block := memory[i];
        var list := memory;
        if block.size > size {
          var taken := Block(block.start, size, Some(processName));
          var remainder := Block(taken.End() + 1, block.size - size, None);
          list := list[i := taken];
          list := list[..i + 1] + [remainder] + list[i + 1..];
        } else {
          list := list[i := block.(processName := Some(processName))];
        }
        PlaceStep(memory, list, i, processName, size, totalMemory);
        memory := list;
        successfulAllocations := successfulAllocations + 1;
        return true;
      }
      failedAllocations := failedAllocations + 1;
      return false;
    }

    /** Frees the first block owned by `processName` and coalesces; reports
        whether there was one. An unknown name changes nothing. The counters
        are never touched. */
    method Deallocate(processName: string) returns (found: bool)
      requires Valid()
      modifies this
      ensures Valid()
      ensures found <==> exists j :: 0 <= j < |old(memory)| && old(memory)[j].processName == Some(processName)
      ensures memory == Coalescing.Release(old(memory), processName)
      ensures !found ==> memory == old(memory)
      ensures successfulAllocations == old(successfulAllocations)
      ensures failedAllocations == old(failedAllocations)
    {
      for i := 0 to |memory|
        invariant memory == old(memory)
        invariant successfulAllocations == old(successfulAllocations)
        invariant failedAllocations == old(failedAllocations)
        invariant forall j :: 0 <= j < i ==> memory[j].processName != Some(processName)
      {
        var block := memory[i];
        if !block.IsFree() && block.processName.value == processName {
          assert Coalescing.OwnerIndex(memory, processName) == Some(i);
          Coalescing.FreeingKeepsCover(memory, i, totalMemory);
          memory := memory[i := block.(processName := None)];
          MergeAdjacentBlocks();
          return true;
        }
      }
      return false;
    }

    /** Folds every free block into a free predecessor, re-examining the same
        index after each merge, until no two neighbours are both free. */
    method MergeAdjacentBlocks()
      requires Covers(memory, totalMemory)
      modifies this`memory
      ensures Valid()
      ensures memory == Coalescing.Coalesce(old(memory))
    {
      ghost var target := Coalescing.Coalesce(memory);
      var i: int := 0;
      while i < |memory| - 1
        invariant 0 <= i < |memory|
        invariant Covers(memory, totalMemory)
        invariant forall j :: 0 <= j < i ==> !(memory[j].IsFree() && memory[j + 1].IsFree())
        invariant Coalescing.Coalesce(memory) == target
        decreases |memory| - i
      {
        var current := memory[i];
        var next := memory[i + 1];
        if current.IsFree() && next.IsFree() {
          ghost var before := memory;
          var list := memory;
          list := list[i := current.(size := current.size + next.size)];
          list := list[..i + 1] + list[i + 2..];
          MergeStep(before, list, i, totalMemory);
          memory := list;
          i := i - 1;
        }
        i := i + 1;
      }
      Coalescing.CoalesceFixpoint(memory);
    }

    /** The integer totals of the statistics report, accumulated in one pass;
        on a valid list they account for all of memory and every block. */
    method CollectStatistics() returns (stats: Stats)
      ensures stats == Tally(memory)
      ensures Valid() ==>
                stats.allocatedMem + stats.freeMem == totalMemory &&
                stats.numProcesses + stats.numFreeBlocks == |memory| &&
                0 <= stats.largestFree <= stats.freeMem
    {
      var allocatedMem, freeMem, numProcesses, numFreeBlocks, largestFree := 0, 0, 0, 0, 0;
      for i := 0 to |memory|
        invariant Stats(allocatedMem, freeMem, numProcesses, numFreeBlocks, largestFree) == Tally(memory[..i])
      {
        var block := memory[i];
        assert memory[..i + 1][..i] == memory[..i];
        if block.IsFree() {
          freeMem := freeMem + block.size;
          numFreeBlocks := numFreeBlocks + 1;
          largestFree := Max(largestFree, block.size);
        } else {
          allocatedMem := allocatedMem + block.size;
          numProcesses := numProcesses + 1;
        }
      }
      assert memory[..|memory|] == memory;
      stats := Stats(allocatedMem, freeMem, numProcesses, numFreeBlocks, largestFree);
      if Valid() {
        CoveredTotals(memory, totalMemory);
        TallyLargest(memory);
      }
    }
  }

  /** What the list edits of a successful `allocate` at index i amount to:
      the placement `Place` describes, which keeps the layout. */
  lemma PlaceStep(s: seq<Block>, list: seq<Block>, i: nat, name: string, size: int, total: int)
    requires Covers(s, total) && NoAdjacentFree(s)
    requires i < |s| && Fits(s[i], size) && size > 0
    requires var taken := Block(s[i].start, size, Some(name));
             var remainder := Block(taken.End() + 1, s[i].size - size, None);
             if s[i].size > size then list == s[i := taken][..i + 1] + [remainder] + s[i := taken][i + 1..]
             else list == s[i := s[i].(processName := Some(name))]
    ensures list == Place(s, i, name, size)
    ensures Covers(list, total) && NoAdjacentFree(list)
  {
    PlaceAsListEdits(s, i, name, size);
    PlaceKeepsLayout(s, i, name, size, total);
  }

  /** What one merge of `mergeAdjacentBlocks` keeps: the tiling, the coalesced
      prefix below i and the coalesced result. */
  lemma MergeStep(before: seq<Block>, list: seq<Block>, i: int, total: int)
    requires Covers(before, total) && 0 <= i && i + 1 < |before|
    requires before[i].IsFree() && before[i + 1].IsFree()
    requires forall j :: 0 <= j < i ==> !(before[j].IsFree() && before[j + 1].IsFree())
    requires var grown := before[i].(size := before[i].size + before[i + 1].size);
             list == before[i := grown][..i + 1] + before[i := grown][i + 2..]
    ensures |list| == |before| - 1 && Covers(list, total)
    ensures forall j :: 0 <= j < i ==> !(list[j].IsFree() && list[j + 1].IsFree())
    ensures Coalescing.Coalesce(list) == Coalescing.Coalesce(before)
  {
    Coalescing.MergeAtAsListEdits(before, i);
    Coalescing.CoalesceMergeStep(before, i);
    Coalescing.MergeAtKeepsLayout(before, i, total);
    Coalescing.MergeAtKeepsCoalescedPrefix(before, i);
  }

  /** One parsed line of the request file. A REQUEST or RELEASE line whose
      arguments cannot be read is `Malformed`: reading it raises an exception
      that ends the whole run, so no later line is processed. Any other
      instruction is `Unknown` and only reports an error. */
  datatype Command = RequestCmd(name: string, size: int) | ReleaseCmd(name: string) | Unknown | Malformed

  /** The simulator's state as a value: the block list and the two counters. */
  datatype Sim = Sim(memory: seq<Block>, successes: nat, failures: nat)

  /** The state before the first command: one free block and zero counts. */
  function Initial(totalMemory: int): Sim {
    Sim([Block(0, totalMemory, None)], 0, 0)
  }

  /** The effect of one command: a request is placed at the first fit or
      counted as a failure, a release frees and coalesces, anything else
      changes nothing. */
  function Step(st: Sim, c: Command): (r: Sim)
    ensures r.successes + r.failures == st.successes + st.failures + (if c.RequestCmd? then 1 else 0)
    ensures c.RequestCmd? ==> (r.successes == st.successes + 1 <==> FirstFit(st.memory, c.size).Some?)
    ensures !c.RequestCmd? ==> r.successes == st.successes && r.failures == st.failures
  {
    match c
    case RequestCmd(name, size) =>
      (match FirstFit(st.memory, size)
       case Some(i) => Sim(Place(st.memory, i, name, size), st.successes + 1, st.failures)
       case None => st.(failures := st.failures + 1))
    case ReleaseCmd(name) => st.(memory := Coalescing.Release(st.memory, name))
    case _ => st
  }

  /** The number of REQUEST lines before the first malformed line. */
  function RequestCount(commands: seq<Command>): (n: nat)
    ensures n <= |commands|
    ensures (forall j :: 0 <= j < |commands| ==> commands[j].RequestCmd?) ==> n == |commands|
  {
    if commands == [] || commands[0].Malformed? then 0
    else (if commands[0].RequestCmd? then 1 else 0) + RequestCount(commands[1..])
  }

  /** The state after running `commands` in order from `st`, stopping at the
      first malformed line. Every request that is run counts once, as a
      success or as a failure. */
  function Run(st: Sim, commands: seq<Command>): (r: Sim)
    decreases |commands|
    ensures r.successes + r.failures == st.successes + st.failures + RequestCount(commands)
    ensures r.successes >= st.successes && r.failures >= st.failures
  {
    if commands == [] || commands[0].Malformed? then st
    else Run(Step(st, commands[0]), commands[1..])
  }

  /** Running from index i is one step and then running from i + 1. */
  lemma RunCons(st: Sim, commands: seq<Command>, i: nat)
    requires i < |commands| && !commands[i].Malformed?
    ensures Run(st, commands[i..]) == Run(Step(st, commands[i]), commands[i + 1..])
  {
    assert commands[i..][1..] == commands[i + 1..];
  }

  /** Running positive requests and releases keeps the list a coalesced
      tiling of [0, total). */
  lemma {:induction false} RunKeepsLayout(st: Sim, commands: seq<Command>, total: int)
    requires Covers(st.memory, total) && NoAdjacentFree(st.memory)
    requires forall c :: c in commands && c.RequestCmd? ==> c.size > 0
    ensures Covers(Run(st, commands).memory, total) && NoAdjacentFree(Run(st, commands).memory)
    decreases |commands|
  {
    if commands != [] && !commands[0].Malformed? {
      match commands[0] {
        case RequestCmd(name, size) =>
          if FirstFit(st.memory, size).Some? {
            PlaceKeepsLayout(st.memory, FirstFit(st.memory, size).value, name, size, total);
          }
        case ReleaseCmd(name) =>
          Coalescing.ReleaseKeepsLayout(st.memory, name, total);
        case Unknown =>
      }
      RunKeepsLayout(Step(st, commands[0]), commands[1..], total);
    }
  }

  /** Runs the commands in order on a fresh simulator of `totalMemory` units,
      stopping at the first malformed line: the final list and counters are
      those of `Run`, and the block list stays a coalesced tiling. */
  method ProcessRequests(totalMemory: int, commands: seq<Command>) returns (lab: MemoryAllocationLab)
    requires totalMemory > 0
    requires forall c :: c in commands && c.RequestCmd? ==> c.size > 0
    ensures fresh(lab) && lab.Valid() && lab.totalMemory == totalMemory
    ensures lab.State() == Run(Initial(totalMemory), commands)
    ensures lab.successfulAllocations + lab.failedAllocations == RequestCount(commands)
  {
    lab := new MemoryAllocationLab(totalMemory);
    for i := 0 to |commands|
      invariant fresh(lab) && lab.Valid() && lab.totalMemory == totalMemory
      invariant Run(lab.State(), commands[i..]) == Run(Initial(totalMemory), commands)
    {
      ghost var before := lab.State();
      match commands[i] {
        case RequestCmd(name, size) =>
          var _ := lab.Allocate(name, size);
        case ReleaseCmd(name) =>
          var _ := lab.Deallocate(name);
        case Unknown =>
        case Malformed =>
          return;
      }
      assert lab.State() == Step(before, commands[i]);
      RunCons(before, commands, i);
    }
    assert commands[|commands|..] == [];
  }
}
