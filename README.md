# First-fit memory allocation simulator, modelled in Dafny

The simulator keeps memory as a list of blocks. Each block has a start
address, a size and an optional owning process; a block without an owner is
free. The list starts as one free block that covers `[0, totalMemory)`.

The simulator reads REQUEST and RELEASE commands:

- `allocate` scans for the first free block large enough for the request.
  - On an exact fit it only sets the owner.
  - On a larger fit it splits the block into an allocated part and a free remainder.
  - It counts successes and failures.
- `deallocate` frees the first block owned by the given name.
  - It then runs `mergeAdjacentBlocks`, which folds every free block into a free predecessor.
- A final pass totals allocated and free memory, counts processes and free blocks, and finds the largest free block.

The project has four modules:

- `Blocks` (`blocks.dfy`) holds the block datatype and the layout invariants.
  - `Covers` says the list tiles `[0, total)`: no gap, no overlap, positive sizes.
  - `NoAdjacentFree` says free space is coalesced.
  - It also holds first-fit selection (`FirstFit`) and the placement performed by a successful allocation (`Place`).
- `Coalescing` (`coalescing.dfy`) holds the owner scan of `deallocate` (`OwnerIndex`) and one merge step (`MergeAt`).
  - It defines the reference coalescing function `Coalesce` and its properties.
  - It defines `Release`, the list that `deallocate` leaves behind.
- `Statistics` (`statistics.dfy`) holds the statistics loop as a fold, `Tally`, with its accounting lemmas.
  - The lemmas show what allocation, merging and release do to the totals.
- `Lab` (`lab.dfy`) holds the class `MemoryAllocationLab`.
  - It has the block list as a `seq<Block>` field, the configured total and the two counters.
  - Its methods mirror `allocate`, `deallocate` and `mergeAdjacentBlocks` with the same loops, list edits and early returns.
  - It also holds the statistics loop and a driver that runs a sequence of parsed commands.
  - The driver is proved to end in exactly the state that the fold `Run` gives. `Run` applies `Step` (first-fit placement or failure, release) line by line and stops at the first malformed line.
  - Each method is proved against the specification functions above.
  - `Valid()` (tiling plus coalesced free space) is kept by every operation.

## Model

| member | source | states |
|---|---|---|
| `Blocks.SpanSum` | src/main/java/MemoryAllocationLab.java:21-23 | In a contiguous list, where each block starts one past the previous block's end, the sizes add up to the distance from the first start to one past the last end. |
| `Blocks.Block.End` | src/main/java/MemoryAllocationLab.java:21-23 | The last address of a block: the block holds exactly `size` addresses from its start to it, and a positive block ends at or after its start. |
| `Blocks.FreeIsUnowned` | src/main/java/MemoryAllocationLab.java:17-19 | `Block.IsFree` holds exactly when no process, whatever its name, owns the block. |
| `Blocks.Fits` | src/main/java/MemoryAllocationLab.java:87 | A block fits a request exactly when it is free and the request, placed at the block's start, ends inside the block. |
| `Blocks.CoveredSum` | src/main/java/MemoryAllocationLab.java:42 | The sizes of a list that tiles `[0, total)` add up to `total`. This holds from the single initial block onwards. |
| `Blocks.ScanFit` | src/main/java/MemoryAllocationLab.java:83-87 | The scan from index i finds the first index at or after i whose block is free and at least `size` large. It returns none only when no such block exists from i onward. |
| `Blocks.FirstFit` | src/main/java/MemoryAllocationLab.java:83-87 | There is a result exactly when some block is free and large enough. The result is such a block, and no earlier block is both free and large enough. |
| `Blocks.FirstFitAt` | src/main/java/MemoryAllocationLab.java:87 | A fitting index with no fitting block before it is the first fit. |
| `Blocks.Place` | src/main/java/MemoryAllocationLab.java:89-102 | Blocks before i are unchanged, and block i becomes `{start, size, name}`. A larger block is followed by the free remainder `{start+size, block.size-size}`, the list grows by one and later blocks shift by one. An exact fit keeps the length and every other block. |
| `Blocks.PlaceAsListEdits` | src/main/java/MemoryAllocationLab.java:94-101 | The `set` of the allocated part followed by the `add` of the remainder at i+1 gives exactly `Place`. For an exact fit, renaming the block gives `Place`. |
| `Blocks.PlaceKeepsLayout` | src/main/java/MemoryAllocationLab.java:89-102 | Placing a positive request into a coalesced tiling of `[0, total)` leaves a coalesced tiling of `[0, total)`. |
| `Blocks.SplitKeepsLayout` | src/main/java/MemoryAllocationLab.java:89-97 | The split case keeps coverage, positive sizes and coalesced free space. |
| `Blocks.ExactFitKeepsLayout` | src/main/java/MemoryAllocationLab.java:99-102 | The exact-fit case keeps coverage, positive sizes and coalesced free space. |
| `Coalescing.ScanOwner` | src/main/java/MemoryAllocationLab.java:115-120 | The scan from index i finds the first block at or after i owned by the name. It returns none only when no block from i onward has that owner. |
| `Coalescing.OwnerIndex` | src/main/java/MemoryAllocationLab.java:115-120 | There is a result exactly when some block is owned by the name. The result is the lowest such index. |
| `Coalescing.MergeAt` | src/main/java/MemoryAllocationLab.java:138-141 | Block i absorbs the size of block i+1 and keeps its start and owner. The list shrinks by one, blocks before i are unchanged and later blocks shift down by one. |
| `Coalescing.MergeAtAsListEdits` | src/main/java/MemoryAllocationLab.java:139-140 | Growing block i and removing index i+1 gives exactly `MergeAt`. |
| `Coalescing.MergeAtKeepsLayout` | src/main/java/MemoryAllocationLab.java:138-141 | Merging two neighbours keeps the tiling of `[0, total)`. |
| `Coalescing.MergeAtKeepsCoalescedPrefix` | src/main/java/MemoryAllocationLab.java:133-142 | A merge at a free block i keeps the pairs below i free of two adjacent free blocks. Re-checking index i after the merge is enough. |
| `Coalescing.Coalesce` | src/main/java/MemoryAllocationLab.java:132-144 | The reference result of the merge pass. It is never longer than the input and keeps the first block's start and free status; an allocated first block stays unchanged. |
| `Coalescing.CoalesceMergeStep` | src/main/java/MemoryAllocationLab.java:138-141 | Merging any two free neighbours, anywhere in the list, does not change the coalesced result. This is why the loop's merge order does not matter. |
| `Coalescing.MergesCommute` | src/main/java/MemoryAllocationLab.java:138-141 | A merge at the front and a merge further on commute. |
| `Coalescing.CoalesceFixpoint` | src/main/java/MemoryAllocationLab.java:133-143 | A list without two adjacent free blocks is left unchanged by coalescing. |
| `Coalescing.CoalesceNoAdjacentFree` | src/main/java/MemoryAllocationLab.java:132-144 | After coalescing, no two consecutive blocks are both free. |
| `Coalescing.CoalesceKeepsSpan` | src/main/java/MemoryAllocationLab.java:132-144 | Coalescing a contiguous list of positive blocks keeps it contiguous and positive, with the same first start and last end. |
| `Coalescing.CoalesceKeepsAllocated` | src/main/java/MemoryAllocationLab.java:132-144 | The allocated blocks, in order, with their start, size and owner, are the same before and after coalescing. |
| `Coalescing.FreeingKeepsCover` | src/main/java/MemoryAllocationLab.java:122 | Clearing the owner of one block keeps a tiling of `[0, total)` a tiling. |
| `Coalescing.Release` | src/main/java/MemoryAllocationLab.java:113-130 | The list `deallocate` leaves: an unknown or already-freed name changes nothing. Otherwise the first owned block is freed and the list is coalesced. |
| `Coalescing.ReleaseKeepsLayout` | src/main/java/MemoryAllocationLab.java:113-130 | A release keeps the list a coalesced tiling of `[0, total)`. |
| `Coalescing.ReleaseMergesNeighbours` | src/main/java/MemoryAllocationLab.java:120-123 | A release replaces the freed block and its free neighbours by one free block spanning their addresses, and nothing else changes. A neighbour is included exactly when it is free, so at most two blocks disappear. |
| `Coalescing.CoalesceSingleRun` | src/main/java/MemoryAllocationLab.java:132-144 | A single run of free blocks between coalesced parts that do not touch it becomes one free block covering the run. Prefix and suffix stay as they are. |
| `Statistics.TallyTotals` | src/main/java/MemoryAllocationLab.java:169-184 | Allocated plus free memory is the sum of all sizes, and processes plus free blocks is the number of blocks. |
| `Statistics.Max` | src/main/java/MemoryAllocationLab.java:179 | The result is at least both arguments and is one of them. |
| `Statistics.Count` | src/main/java/MemoryAllocationLab.java:176-183 | One block adds its size to allocated plus free memory and one to processes plus free blocks. A free block adds nothing to allocated memory and raises `largestFree` to at least its size. An allocated block leaves free memory and `largestFree` alone. |
| `Statistics.Tally` | src/main/java/MemoryAllocationLab.java:175-184 | After the whole loop, processes plus free blocks equals the number of blocks and `largestFree` is not negative. |
| `Statistics.TallyLargest` | src/main/java/MemoryAllocationLab.java:173-179 | For positive blocks the largest free block satisfies `0 <= largestFree <= freeMem`. It is 0 exactly when there is no free block, it bounds every free block and some free block has that size. |
| `Statistics.CoveredTotals` | src/main/java/MemoryAllocationLab.java:169-184 | On a list that tiles `[0, total)`, allocated plus free memory equals `total`. |
| `Statistics.TallyAppend` | src/main/java/MemoryAllocationLab.java:175-184 | The additive totals of two consecutive parts of the list add up. |
| `Statistics.PlaceAccounting` | src/main/java/MemoryAllocationLab.java:89-102 | A successful allocation moves exactly `size` units from free to allocated memory and adds one process. |
| `Statistics.MergeKeepsTotals` | src/main/java/MemoryAllocationLab.java:139-140 | Merging two free neighbours at any index keeps allocated memory, free memory and the process count. |
| `Statistics.CoalesceKeepsTotals` | src/main/java/MemoryAllocationLab.java:132-144 | The merge pass keeps allocated memory, free memory and the process count. |
| `Statistics.ReleaseAccounting` | src/main/java/MemoryAllocationLab.java:113-130 | Releasing a known name moves its block's size from allocated to free memory and removes one process. An unknown name changes no total. |
| `Lab.MemoryAllocationLab.constructor` | src/main/java/MemoryAllocationLab.java:42 | Memory starts as the single free block `{0, totalMemory}`, which is a valid layout, and both counters start at zero. |
| `Lab.MemoryAllocationLab.FindFit` | src/main/java/MemoryAllocationLab.java:83-87 | The scan loop returns exactly the first fit. |
| `Lab.MemoryAllocationLab.Allocate` | src/main/java/MemoryAllocationLab.java:82-111 | Succeeds exactly when some block is free and large enough. On success the list becomes `Place` at the first fit and only the success counter grows by one. On failure the list is unchanged and only the failure counter grows by one. Validity is kept. |
| `Lab.MemoryAllocationLab.Deallocate` | src/main/java/MemoryAllocationLab.java:113-130 | Reports found exactly when some block is owned by the name. The list becomes `Release`, so an unknown name leaves it unchanged. Neither counter changes, and validity is kept. |
| `Lab.MemoryAllocationLab.MergeAdjacentBlocks` | src/main/java/MemoryAllocationLab.java:132-144 | The loop, with its re-check of the same index, leaves exactly `Coalesce` of the old list. That result is a valid tiling, and only the list changes. |
| `Lab.MemoryAllocationLab.CollectStatistics` | src/main/java/MemoryAllocationLab.java:169-184 | The loop computes `Tally` of the list. On a valid list, allocated plus free equals `totalMemory`, processes plus free blocks equals the block count, and `0 <= largestFree <= freeMem`. |
| `Lab.PlaceStep` | src/main/java/MemoryAllocationLab.java:89-102 | The list edits of a successful allocation at index i equal `Place` and leave a valid layout. |
| `Lab.MergeStep` | src/main/java/MemoryAllocationLab.java:138-141 | One merge of the loop shortens the list by one and keeps the tiling. It keeps the prefix below i coalesced and leaves the coalesced result unchanged. |
| `Lab.RequestCount` | src/main/java/MemoryAllocationLab.java:45-72 | The number of REQUEST lines read before the first malformed line; never more than the number of lines, and all of them when every line is a request. |
| `Lab.Step` | src/main/java/MemoryAllocationLab.java:54-72 | One line: a REQUEST adds one to exactly one counter, the success counter exactly when a first fit exists. A RELEASE or an unknown instruction leaves both counters alone. |
| `Lab.Run` | src/main/java/MemoryAllocationLab.java:45-78 | Running the lines in order, stopping at the first malformed one, adds exactly the number of REQUEST lines run to successes plus failures. Neither counter ever decreases. |
| `Lab.RunCons` | src/main/java/MemoryAllocationLab.java:45-72 | Running from a well-formed line is one step followed by running the rest. |
| `Lab.RunKeepsLayout` | src/main/java/MemoryAllocationLab.java:45-78 | Running positive requests, releases and unknown lines keeps the block list a coalesced tiling of `[0, total)`. |
| `Lab.ProcessRequests` | src/main/java/MemoryAllocationLab.java:31-80 | Starting from one free block and zero counts, the final block list and counters are exactly those of `Run` over the commands: each request is placed at the first fit or counted as a failure, each release frees and coalesces, and the run stops at the first malformed line. Every REQUEST run counts once and the layout stays valid. |

## Left out

- Reading the request file, splitting lines and `Integer.parseInt` are left out, and so are all console output and `main`. The driver takes already-parsed commands.
  - A REQUEST line without a numeric size, or a RELEASE line without a name, throws inside the read loop. The `catch` sits outside the loop, so every later line is skipped. The model represents such a line as `Malformed`, which ends the run; it does not model which inputs parse.
  - The total-memory line is taken as an already-parsed parameter; a missing or non-numeric first line is not modelled.
- The `double` percentages and the fragmentation ratio are floating point and are not modelled. Their integer numerator `freeMem - largestFree` is non-negative by `Statistics.TallyLargest`.
- Java `int` arithmetic is modelled with unbounded integers. Sizes or totals near 2^31 would overflow in the source, and that overflow is not modelled.
- The source does no input validation, and the model does not invent an error path for it.
  - The constructor requires `totalMemory > 0`.
  - `Allocate` requires `size > 0`: a zero-size request would create an empty allocated block.
  - Duplicate process names are allowed, exactly as in the source: `Deallocate` frees the first block owned by the name.
- Blocks are values inside the list. The source mutates `MemoryBlock` objects in place; each object is referenced only from the list, so replacing list element i has the same effect. Aliasing of block objects is not modelled.
- The source's counters and block list are static fields. The model makes them the fields of one object. `ProcessRequests` creates a fresh object with both counters at zero, which matches a single run of the program.
- `Lab.MemoryAllocationLab.MergeAdjacentBlocks` requires the list to tile `[0, totalMemory)`. The source runs the loop on any list, but it only ever calls it from `deallocate` on a valid list.
- `Lab.MemoryAllocationLab.Allocate` and `Lab.MemoryAllocationLab.Deallocate` require `Valid()`, which every reachable state satisfies (the constructor, `Allocate` and `Deallocate` all keep it). Their behaviour on a list that is not a coalesced tiling is not modelled.
- `Lab.ProcessRequests` requires every REQUEST in the sequence to have a positive size, including any after the first malformed line, which the run never reaches.
