# Buffer list and linked list

A verified model of the pool-backed byte FIFO in `BufList/BufList.c` and of the
intrusive doubly linked list under it, `BufList/LinkList.c`.

A buffer list stores a byte stream in a chain of fixed-size blocks taken from a
memory pool. Writers append at the tail block and allocate when it is full;
readers consume at the head block and return it to the pool only when they come
back and find it both drained and full. The operations are modelled in place:
objects with `next`, `prev`, `wri`, `rdi` and a data array, a list with `head`
and `tail`, a pool with a set of free blocks, and the loops of the program.
Their meaning is one byte sequence, the content.

| file | what it holds |
|---|---|
| `Basics.dfy` | bytes and options |
| `LinkList.dfy` | links and the linked list in memory |
| `MemoryPool.dfy` | the pool, by its contract |
| `Layout.dfy` | the value of a chain of blocks, its content, its invariants, its block arithmetic |
| `FifoSpec.dfy` | writing and reading one byte, bulk transfers as repetition, and what follows |
| `Search.dfy` | the multi-byte search as a matcher, and the string comparison |
| `BufList.dfy` | the buffer list in memory, every operation proved against the above |
| `Placement.dfy` | which blocks a move between two lists leaves in which list |
| `Transfer.dfy` | what a move between two lists means |
| `BufCopy.dfy` | the copy between two lists in memory |
| `SelfCopy.dfy` | the copy of a list onto itself |
| `Determinacy.dfy` | that what is said about the blocks leaves no choice |
| `Runs.dfy` | runs of operations on any number of lists that share a pool |
| `Sharing.dfy` | the same in memory: who owns which block, and that the code takes the steps of a run |

Three invariants of a chain are distinguished. `Base`: the indices are in
range and only the head has been read from. `Weak`: moreover every block but
the tail is full. `Strong`: moreover every block but the head holds a byte.
Each operation in memory asks for `Base` only, and those on whole blocks for
none of them; the theorems say which results need more. The ghost parameter
`region` of an operation is the set of blocks it may touch: those of the list
and the free ones.

A reader does not move on from a block that is not full. `Reach` is the part of
the content that it gets to by itself; it is the whole content if and only if
the chain is `Open`, that is, no block that is not full stands in front of data.
Every `Weak` chain is.

A run is any sequence of operations on any number of lists that share a pool,
including `BufAlloc`, `BufFree`, `BufGetTail`, `BufUninit` and copies between
the lists. It keeps one of the three invariants, its grade; `Legal` says which
operation keeps which, and `Allowed` that each action of a sequence is legal when
its turn comes. Steps are compared with the code in state and reply.

What an operation leaves behind is stated apart from how it is done. `WriteLayout`,
`ReadLayout` and `CopyLayout` say which blocks a list keeps, gains and returns, and
when; `Means` says for every operation what it does and what it tells its caller.
`Determinacy` shows that these statements fix the result. In numbers, a block of
`blockSize` bytes holds `blockSize - 12` bytes of data: all but two 32-bit pointers
and two 16-bit indices.

Where the code does not do what its comments promise, the code is modelled and
the exact condition is proved:

- `BufReadByte` does not look again after it has returned a block. It consumes
  the oldest byte, or reports that there is none, if and only if the list is
  neither in the `Pitfall` (the head is about to be returned and the block behind
  it is empty, which an empty `BufWrite` or a `BufGetTail` behind a full tail can
  prepare: `FifoSpec.PitfallReachable`) nor `Stranded` (the head is drained but
  not full and data lies behind it, as after `BufWriteByte`, `BufAlloc`,
  `BufWriteByte`, `BufReadByte`: `FifoSpec.StrandedReachable`). A `Weak` list is
  never stranded (`FifoSpec.WeakNotStranded`), a `Strong` one also never in the
  pitfall (`FifoSpec.StrongHasNoPitfall`).
- `BufPeekByte` and `BufFlushByte` look again. They report the end of the data
  correctly if and only if the list is not stranded once a drained full head is
  gone. `BufRead` and `BufFlush` stop at the end of the reach; they miss data if
  and only if more is asked for than is within reach and the chain is not open.
- `BufFind` finds a pattern in every text that contains it if and only if the
  rest of the pattern is a prefix of it wherever its first byte recurs
  ("aab" in "aaab" is missed, `Search.FindExamples`). The offset is the documented one for every text
  if and only if the pattern is a single byte ("ab" in "acab" gives 1, not 2).
  For a count of 0, which the code only looks at after it has matched a byte, the
  offset of the empty pattern, 0, is never returned (`Search.EmptyNeverDocumented`).
- `BufFindByte` is documented to return something other than 0 if it finds the
  byte. It does if and only if the content does not start with that byte; the
  offset of a hit at the front is 0.
- What is written behind a manual `BufAlloc` is within reach of the readers if
  and only if all blocks before it are full.
- `BufInit` of a list that owns blocks loses them: they are neither free nor in a
  list. The blocks stay accounted for if and only if it owned none.
- `BufCopy` of a list onto itself rotates its content (`SelfCopying.RotatedOnce`
  says what that is) if and only if it does not come to a point where the data
  lies in one block with as many cells left behind it as there are bytes
  (`SelfCopying.Loses`); then all data is lost. Half a block copied onto itself is
  an example (`SelfCopying.HalfBlockLoses`); less than that is copied once
  (`SelfCopying.OneBlockTurnsOnce`), and more than a block as often as requested
  (`SelfCopying.LongListTurnsOn`).
- `BufCompareString` keeps what is documented, -1 at the end of the buffer
  included, if and only if the list owns a block or the string is empty: a list
  without a block gives 0.
- For a list that is alone on its pool, the free space, the data, and the read
  part of the head block add up to all blocks if and only if all blocks of the
  list but the tail are full.

## Model

| member | source | states |
|---|---|---|
| `LinkList.List.Init` | BufList/LinkList.c:54-58 | the list is empty afterwards |
| `LinkList.List.Put` | BufList/LinkList.c:68-91 | the abstract sequence grows by the link at its end, and all pointers encode it |
| `LinkList.List.PutHead` | BufList/LinkList.c:101-124 | the sequence grows by the link at its front |
| `LinkList.List.Get` | BufList/LinkList.c:132-159 | yields the first link or null and removes it from the sequence |
| `LinkList.List.Insert` | BufList/LinkList.c:222-245 | in front of position k: `s[..k] + [new] + s[k..]`, at the head as well |
| `LinkList.List.Remove` | BufList/LinkList.c:253-279 | at position k: `s[..k] + s[k+1..]`, for head, tail and singleton too |
| `LinkList.List.InsertThenRemove` | BufList/LinkList.c:222-279 | removing what was just inserted restores head, tail and both pointers of every link |
| `LinkList.Traversal` | BufList/LinkList.c:176-213 | following `next` from `head` yields the sequence, `prev` from `tail` its reverse; head and tail are null exactly when it is empty |
| `MemoryPool.Pool.Alloc` | driver_lib/cmsis_os2.h:642-646 | hands out a free block or null when there is none |
| `MemoryPool.Pool.Free` | driver_lib/cmsis_os2.h:648-652 | succeeds exactly for a block that is handed out; null or a free block change nothing |
| `BufLists.BufList.Alloc` | BufList/BufList.c:55-72 | a free block becomes an empty tail block; without one nothing changes |
| `BufLists.BufList.Free` | BufList/BufList.c:75-86 | the head block, which was not free, becomes free; yields the next head; nothing happens to an empty list |
| `BufLists.BufList.BufInit` | BufList/BufList.c:105-132 | fails, without effect, for no list, no pool or a block size beyond 16 bits; else the structure, whatever it chained before, is an empty list on the pool, whatever the block size |
| `BufLists.BufList.BufUninit` | BufList/BufList.c:137-156 | -1 for no list; else terminates, returns every block of the list to the pool, leaves it empty; changes nothing on an empty list |
| `BufLists.BufList.BufAlloc` | BufList/BufList.c:159-178 | appends an empty block if the pool has one, whatever the tail |
| `BufLists.BufList.BufFree` | BufList/BufList.c:181-200 | drops the head block and yields the next one |
| `BufLists.BufList.BufGetTail` | BufList/BufList.c:208-232 | yields a tail with space if and only if there is room, allocating one exactly if needed and possible |
| `MemoryPool.SizeInNumbers` | BufList/BufList.c:88-100 | a block holds its size less two 32-bit pointers and two 16-bit indices |
| `BufLists.BufList.BufGetSize` | BufList/BufList.c:235-245 | the data bytes per block, in numbers, including the wrap-around of a block size below the header; for a sound pool, the length of every block's data |
| `BufLists.BufList.BufGetFree` | BufList/BufList.c:247-269 | the number of bytes that can still be accepted: block size less 12 for every free block, and the rest of the tail block |
| `BufLists.BufList.BufGetCount` | BufList/BufList.c:274-295 | the length of the content |
| `BufLists.BufList.BufReadByte` | BufList/BufList.c:298-329 | consumes the oldest byte, or gives -1 for no data, if and only if the list is neither in the pitfall nor stranded; in the pitfall it gives what the next block happens to hold, and the indices cross |
| `BufLists.BufList.BufPeekByte` | BufList/BufList.c:331-367 | the oldest byte or -1, correctly if and only if not stranded behind a returned head; the content is unchanged even if a drained block is returned |
| `BufLists.BufList.BufPeekOffs` | BufList/BufList.c:369-413 | `content[offs]`, or -1 behind the end |
| `BufLists.BufList.BufFlushByte` | BufList/BufList.c:415-452 | consumes the oldest byte; -1 exactly if nothing is within reach, which means no data if and only if not stranded behind a returned head |
| `BufLists.BufList.BufWriteByte` | BufList/BufList.c:454-482 | accepts the byte exactly if there is room, at the end of the content |
| `BufLists.BufList.BufRead` | BufList/BufList.c:487-525 | delivers exactly the first `min(num, reach)` bytes and touches no more of the buffer; that is `min(num, count)` if and only if that much is within reach or the chain is open; same bytes, layout and pool as reading byte by byte; the blocks left are those of `ReadLayout` |
| `BufLists.BufList.BufWrite` | BufList/BufList.c:531-570 | accepts exactly `min(num, room)` bytes, a prefix of the input; same layout and pool as writing byte by byte; the blocks left are those of `WriteLayout` |
| `BufLists.BufList.BufFlush` | BufList/BufList.c:646-682 | removes as many bytes as a read of the same size, and the list and the pool are then those after that read; 0 removes what is within reach, which is everything if and only if the chain is open; the blocks left are those of `ReadLayout` |
| `BufLists.BufList.BufFindByte` | BufList/BufList.c:688-736 | the least index of the byte, or -1 if it does not occur; as documented in the header if and only if the byte is not the first one |
| `BufLists.BufList.BufFind` | BufList/BufList.c:744-807 | the result depends on the content only, not on block boundaries, and is that of the matcher; for a count of 0, that of the first byte that does not match the memory behind the pattern |
| `BufLists.BufList.BufCompareString` | BufList/BufList.c:815-875 | the length of a non-empty string that the data behind the offset starts with, -1 if the data ends undecided, else 0; 0 for a list without a block; as documented if and only if the list owns a block or the string is empty |
| `BufCopying.BufCopy` | BufList/BufList.c:576-640 | between two lists: moves the first bytes of the source to the end of the destination; the exact count, for separate pools and for a shared one, on any layout, and why it is not more; which blocks the source has returned and which the destination has gained, exactly; the invariants survive; blocks are conserved; it terminates |
| `SelfCopying.BufCopySelf` | BufList/BufList.c:576-640 | from a list to itself: the exact count; the content is rotated by it if and only if the request does not lose data, and otherwise the list ends up empty; blocks are conserved; it terminates; the blocks left are stated as well |
| `Layout.CellsOfChain` | BufList/BufList.c:247-295 | every cell of a chain is already read, readable, or still writable if and only if all blocks but the tail are full |
| `Layout.BlockCount` | BufList/BufList.c:454-482 | the number of blocks is `max(1, ceil((head.rdi + count) / maxi))` |
| `Layout.BlockBound` | BufList/BufList.c:531-570 | a list never owns more than `count / maxi + 2` blocks |
| `FifoSpec.GrowStrength` | BufList/BufList.c:159-178 | a manual allocation keeps the weak invariant exactly behind no tail or a full one, and leaves the strong one exactly on an empty list |
| `FifoSpec.PutByteFacts` | BufList/BufList.c:454-482 | acceptance exactly if there is room, content, room, and all three invariants after one byte |
| `FifoSpec.PutAllFacts` | BufList/BufList.c:531-570 | the same for a bulk write: exact count, exact prefix, invariants kept when the pool runs out in between |
| `FifoSpec.TakeByteFacts` | BufList/BufList.c:415-452 | one byte off the front; none means no data under the weak invariant |
| `FifoSpec.TakeAllFacts` | BufList/BufList.c:487-525 | a bulk read takes bytes off the front, all `min(num, count)` on a weakly sound layout, and keeps the invariants and the blocks |
| `FifoSpec.TakeAllReach` | BufList/BufList.c:487-525 | on any layout a bulk read delivers exactly the first `min(num, reach)` bytes within reach |
| `Layout.ReachOfContent` | BufList/BufList.c:497-505 | what is within reach is a front part of the content, and all of it if and only if no block that is not full stands in front of data |
| `FifoSpec.PutAllReach` | BufList/BufList.c:531-570 | what a write accepts comes within reach if and only if the layout is weakly sound |
| `FifoSpec.CapacityEquation` | BufList/BufList.c:247-295 | for the sole owner of a pool, on any layout: free + count + head.rdi is at most maxi * capacity, and equal to it if and only if the layout is weakly sound |
| `FifoSpec.FlushAll` | BufList/BufList.c:646-682 | a complete flush takes what is within reach, all data if and only if the chain is open, and stops at a head that is drained but not full, the only block of a weakly sound list |
| `FifoSpec.PitfallIsEmpty` | BufList/BufList.c:304-319 | under the weak invariant the pitfall only exists on a list of two blocks without data |
| `FifoSpec.PitfallReachable` | BufList/BufList.c:544-566 | for any block size, a block-sized write, an empty write and a block-sized read lead into it |
| `FifoSpec.ReadByteExact` | BufList/BufList.c:298-329 | outside the pitfall, one byte is consumed correctly if and only if the list is not stranded |
| `FifoSpec.StrandedReachable` | BufList/BufList.c:159-178 | two writes around a manual allocation, and one read, leave data that no reader gets to |
| `FifoSpec.AllocHidesData` | BufList/BufList.c:159-178 | bytes written behind a manual allocation, on any layout, are within reach if and only if all blocks before were full |
| `FifoSpec.WriteLeaves` | BufList/BufList.c:531-570 | a write fills the tail, then appends blocks behind full ones, none of them empty; with nothing to write it appends one empty block if there is no space in the tail |
| `FifoSpec.ReadLeaves` | BufList/BufList.c:487-525 | a read returns full blocks only, not the one of its last byte, and nothing else changes but the read index of the head; with nothing to read it returns a head that is drained and full |
| `FifoSpec.FlushLeaves` | BufList/BufList.c:646-682 | a flush of some bytes leaves what a read of them leaves |
| `FifoSpec.RoundTrip` | BufList/BufList.c:487-570 | what is written to a list without data, in any pieces, is read back exactly, in any pieces |
| `Determinacy.WriteDetermined` | BufList/BufList.c:531-570 | there is only one such list after a write |
| `Determinacy.ReadDetermined` | BufList/BufList.c:487-525 | there is only one such list after a read |
| `Determinacy.CopyDetermined` | BufList/BufList.c:576-640 | there is only one such pair of lists after a copy |
| `Search.FindSound` | BufList/BufList.c:763-802 | a result means an occurrence, and is its position minus the number of dropped partial matches |
| `Search.FindComplete` | BufList/BufList.c:774-796 | for self-aligned patterns: found exactly if it occurs, and the scan stops at the end of the first occurrence |
| `Search.FindExact` | BufList/BufList.h:161-172 | for self-aligned patterns the documented result is returned exactly if no partial match was dropped |
| `Search.FoundIffSelfAligned` | BufList/BufList.c:774-796 | a pattern is found in every text that contains it if and only if it is self-aligned |
| `Search.DocumentedIffSingleByte` | BufList/BufList.h:161-172 | the documented result is returned for every text if and only if the pattern is one byte long |
| `Search.FindByteAgrees` | BufList/BufList.c:705-731 | the search for a byte equals the search for a pattern of that byte |
| `Search.EmptyNeverDocumented` | BufList/BufList.c:774-796 | the search for no bytes never returns the offset of the empty pattern |
| `Search.CompareDocumented` | BufList/BufList.h:174-186 | the comparison is as documented if and only if the list owns a block or the string is empty |
| `Transfer.CopyConserves` | BufList/BufList.c:576-640 | destination content followed by source content is unchanged, and the boundary moves by the count |
| `Transfer.CopyRoom` | BufList/BufList.c:601-631 | room at the destination shrinks by the count and grows by the blocks the source returned |
| `Transfer.CopyExact` | BufList/BufList.c:590-632 | with a pool of its own the destination receives exactly `min(num, reach, room)` bytes |
| `Transfer.CopySharedExact` | BufList/BufList.c:590-632 | on a shared pool the room limits the count only if the destination is full before the source returns its head block |
| `Runs.EffectMeans` | BufList/BufList.c:137-682 | what each operation leaves behind and tells its caller, in terms of the bytes within reach, the room and the free blocks |
| `Runs.StepIsFifo` | BufList/BufList.c:137-570 | every operation, except a byte-wise read in the pitfall, takes bytes off the front and puts bytes at the end, and keeps the blocks, on any layout |
| `Runs.SoundIffLegal` | BufList/BufList.c:137-570 | an operation keeps one of the three invariants if and only if it is legal for it, including a byte-wise read in the pitfall |
| `Runs.AlwaysExact` | BufList/BufList.c:137-570 | the operations that keep an invariant on every list that satisfies it |
| `Runs.RunIsSafe` | BufList/BufList.c:137-682 | after every step of every run over any number of lists: bytes accepted = bytes gone + content for each list, the invariant holds, and free blocks plus list lengths = capacity |
| `Runs.PossibleIsAllowed` | BufList/BufList.c:137-682 | actions that keep the invariant on every list may be taken in any sequence |
| `Runs.RunMeans` | BufList/BufList.c:137-682 | in every run, every action does and replies what it means, and leaves the other lists alone |
| `Runs.UsersSeeFifo` | BufList/BufList.c:298-570 | in terms of the replies alone: bytes that the callers of a list were told are written = bytes they were handed + content |
| `Sharing.Perform` | BufList/BufList.c:55-86 | in memory, an operation on one of several lists does and replies what it means, leaves the others alone, and every block stays free or in exactly one list |
| `Sharing.PerformCopy` | BufList/BufList.c:576-640 | the same for a copy between two of several lists, with the exact count and the exact blocks |
| `Sharing.PerformCopySelf` | BufList/BufList.c:576-640 | the same for a copy of one of several lists onto itself, with its exact count and loss |
| `Sharing.PerformInit` | BufList/BufList.c:105-132 | initialising one of several lists leaves the others alone, and every block accounted for if and only if the list owned none |
| `Sharing.RunOn` | BufList/BufList.c:137-682 | an operation in memory is a step of a run, with the same reply |
| `Sharing.RunCopy` | BufList/BufList.c:576-640 | a copy in memory is a step of a run, and reports the exact count |
| `Sharing.Execute` | BufList/BufList.c:137-682 | any sequence of calls in memory, each legal when its turn comes, is a run with the same replies, each of which is what its call means; at the end every block is free or in exactly one list, and each list holds what its callers wrote and have not been handed |
| `Sharing.FromScratch` | BufList/BufList.c:105-682 | the same from the creation of the pool and of any number of lists on it |
| `Sharing.StartsEmpty` | BufList/BufList.c:105-132 | lists fresh from initialisation on an unused pool are where a run starts |

## Left out

- Mutexes and interrupt masking: each public operation is atomic here; that `BufGetTail` locks again inside `BufAlloc` is not modelled.
- The memory pool: its body is not part of this model; only its contract is, with an arbitrary choice of the block handed out.
- Machine widths: the results are unbounded numbers; the casts to `int32_t` and the product in `BufGetFree` are exact below 2^31 and 2^32. The 16-bit indices need no such bound, since a block size fits into 16 bits.
- `BufLists.BufList.BufInit`: does not model the mutex argument, and starts from a structure that names some pool, since the model has no uninitialised memory.
- `BufLists.BufList.BufFind`: requires, for a count of 0, that the memory which the code then looks at behind the pattern is there (`Search.StaysInside`; as many bytes as the content has are enough, `Search.EnoughMemory`).
- Pools whose blocks are not larger than the header: `BufInit` accepts them, but the list has no use for a block without data bytes, and nothing else is modelled on them.
- `BufLists.BufList.BufCompareString`: takes `char` as unsigned, as on the target; with a signed `char`, bytes from 128 on would never match.
- `BufCopying.BufCopy`: requires two different lists; the same list as destination and source is `SelfCopying.BufCopySelf`.
- Caller writes through the handles of `BufAlloc` and `BufGetTail`: as long as they stay inside the block, they do what `BufWrite` does with the same bytes (`FifoSpec.FillTail`).
- Runs do not include `BufInit` and the copy of a list onto itself, which may lose data; nor the queries, which change nothing.
- `BufWrite`, `BufFind` and `BufCompareString` take their input as a sequence of bytes instead of a pointer and a count; `BufRead` fills a caller's array.
- The link is merged with the block it is embedded in, since the code casts freely between the two.
- The vendor headers, the boot loader and the build script: declarations and plumbing.
