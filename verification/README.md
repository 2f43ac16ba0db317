# Verified models of the data structures, codecs and protocols

This project models, in Dafny 4.11, the parts of a collection of small C++ programs whose
correctness no finite set of tests settles, and proves what each is for. There is one module family
for each program; they share only small helper modules (`Options.dfy`, `Texts.dfy`,
`Arithmetic.dfy`). `dafny verify dfyconfig.toml` checks the whole project.

**Concurrent protocols** (`LockFreeStack.dfy`, `RecursiveMutex.dfy` with `Sums.dfy`,
`TwoLockQueue.dfy`, `EventLoop.dfy`, `RcString.dfy`). Each is a machine with one program counter per
thread (per string object for the reference-counted string) and one atomic action a step. `Step` is
the code, action by action; a *trace* follows a *schedule*, any sequence of thread and choice, so the
theorems hold in every interleaving of any number of threads. Runs record a history, and the theorems
relate the memory to a sequential reference object that replays it, and the history to the calls
made in the schedule. A step that touches freed memory,
or breaks one of the source's assertions, raises a fault flag, and no run ever raises it. Steps are
sequentially consistent.

**Codecs and compilers** (`Hashids.dfy`, `HashidsCodec.dfy`, `HashidsLaws.dfy`,
`HashidsDefaults.dfy`, `HashidsRounds.dfy`, `HashidsDefaultCode.dfy`, `HashidsSaltedCode.dfy`,
`Murmur.dfy`, `MurmurInverse.dfy`, `ExpressionTree.dfy`, `TreeCodec.dfy`, `MultipartText.dfy`,
`MultipartSpec.dfy`, `MultipartScan.dfy`, `MultipartRoundTrip.dfy`, `MultipartForms.dfy`,
`MultipartReaders.dfy`). The meaning of each
operation is a function, the loops, arrays and objects of the code are methods proved to compute it,
and the laws (round trips, meaning preservation, agreement of several implementations) are lemmas
about the functions for all inputs. Where many functions would satisfy the laws, closed forms say
which one is meant (the shuffle's exchanges, the undoing of the hash), and lemmas at literal texts
fix the constants and the order.

**Structures updated in place** (`BuddyUtil.dfy`, `BuddyTree.dfy`, `BuddyBlocks.dfy`,
`BinManagement.dfy`, `BuddyRuns.dfy`, `BuddyFacade.dfy`, `Permutations.dfy`, `Alphabet.dfy`,
`WordLists.dfy`, `TernaryShape.dfy`, `TernaryVisit.dfy`, `TernaryTrees.dfy`, `TrieShape.dfy`,
`TrieVisit.dfy`, `Tries.dfy`, `NetworkOrder.dfy`, `NetworkBuffer.dfy`). Classes and arrays with an
abstract value (the live blocks, the arrangement, the set of words, the byte queue) that every
method's contract updates exactly.

## What the code does not do

Some promises hold only under a condition. The condition is part of the theorems.

- *Event loop, quits.* `Run` sets the running flag without looking at it, so a quit issued before
  `Run` is entered is overwritten (`QuitOverwritten`), and `EarlyQuitSleeps` is a concrete run whose
  poll then sleeps. A quit is in force, with the flag down and every poll going to return until
  `Run` returns, exactly when it was issued inside `Run` or `Run` is not entered again
  (`QuitInForceIff`).
- *Event loop, tasks.* A task queued by the loop's own thread outside `ProcessPendingTasks` writes
  no wakeup. `FirstPollCoveredIff` says when the first poll is covered all the same: when some
  thread has sent a wakeup since the counter was last at zero, or nothing is queued;
  `EarlyTaskSleeps` is a concrete run where neither holds, and the task waits for the poll's
  timeout. When the owner queues only inside `Run` no wakeup is lost.
- *Rounding to a power of two.* The loop stops before the shift by 32. The result is exact if and
  only if it fits in 64 bits and the number before it has no 32 zero bits in a row below its leading
  one (`RoundedExactIff`); that includes 1..2^32, and 2^32 + 1 is the first number it gets wrong.
  Where it is not exact it is no power of two at all (`RoundedBetween`, `NotPow2`). The bin manager
  then looks for a node of a size that no node has: an allocation reads past its array exactly when
  the rounding is not exact and the root's value is at least the rounded number
  (`BinManager.Allocate`, where it is the result `overrun`).
- *Hashids.* With a salt, an alphabet without any base separator makes the shuffle of the empty
  separator string index out of range. It is an error value here: `BuildFails` says exactly when
  construction ends in which error, and `UnderflowExample` is an alphabet of eighteen letters with
  the salt `x`.
- *Multipart.* Not every part comes back. One read gives a part back exactly when its data is not
  empty and is delimited (`PartBackIff`): the search, which goes on behind each boundary it meets,
  looks at the one in the data's own delimiter and meets no earlier one at which it stops. For a
  boundary no proper start of which is also its end, data is delimited exactly when the boundary
  does not occur in the first four characters and the delimiter does not occur before its place
  (`DelimitedUnbordered`). The data `B` with the boundary `B` is malformed (`DataIsBoundary`), and
  with the boundary `---` the search skips over the delimiter of any data without dashes
  (`DashesSkipped`). The comment at http-multipart/multipart/multipart.h:93 says that a malformed
  data part leaves the body unchanged; with empty data before the delimiter the body is consumed,
  and the model follows the code.
- *Infix conversion.* A text makes the operator stack underflow exactly when some closing
  parenthesis has no partner before it (`UnderflowIff`), `)` for one (`LoneParenthesis`). It compiles
  exactly when that does not happen and every beginning of its postfix has more digits than
  operators (`CompileIff`); an operator on its own does not (`LoneOperator`).
- *Letters.* The lookup of a letter finds the alphabet's terminating NUL too, at the index behind
  the letters. The ternary tree takes it for one more letter. The trie has no link there:
  its methods say exactly when they would read past a node's links.

## Model

| member | source | states |
|---|---|---|
| LockFreeStack.BuildFreeList | LockfreeStack/lstack.h:22-35 | The constructor's loop threads every node to the following one and the last to null |
| LockFreeStack.SwapInstallsCurrentNext | LockfreeStack/lstack.h:79-94 | A successful PopHead swap installs the node's current `next`: the tag rules out ABA |
| LockFreeStack.StepInv | LockfreeStack/lstack.h:42-106 | Every atomic action of every thread keeps nodes partitioned, both lists threaded, the history legal and the counter accounted for |
| LockFreeStack.EveryRunIsLinearizable | LockfreeStack/lstack.h:42-106 | In every interleaving each node is in exactly one of the two lists or one thread's hands, and the history of swaps on `head_` replays on a sequential LIFO stack to exactly the values now in the list |
| LockFreeStack.CallReturned | LockfreeStack/lstack.h:42-71 | A returned Push(v) has recorded exactly that it pushed v, or has seen the free list empty and recorded nothing; a returned Pop has recorded exactly one pop or that it found the stack empty. The calls are read off the schedule |
| LockFreeStack.EventWasCalled | LockfreeStack/lstack.h:42-71 | Every recorded event belongs to the call its thread was serving: a push carries the argument of that very call, a pop or an empty answer was asked for by Pop |
| LockFreeStack.EveryCallServed | LockfreeStack/lstack.h:42-71 | At every moment of a call, what the thread has recorded since the call is what its program counter says, the argument included |
| LockFreeStack.PopReturnsRecordedValue | LockfreeStack/lstack.h:57-71 | From the read of the value on, the thread's latest event in the history is a pop of the very value that Pop will return |
| LockFreeStack.QuiescentSize | LockfreeStack/lstack.h:73-76 | With no operation in progress `size_` is the number of elements |
| LockFreeStack.PushFailsOnlyWhenExhausted | LockfreeStack/lstack.h:42-47 | Push returns false only when every node is on the stack or in a thread's hands |
| LockFreeStack.NoNodeIsExhausted | LockfreeStack/lstack.h:42-47 | Whenever the free list is empty, every node is on the stack or in a thread's hands |
| RecursiveMutex.StepInv | LightweightMutex/light_mutex/recursive_light_mutex.h:37-88 | Every atomic step of lock, try_lock and unlock keeps the token and use-count accounts |
| RecursiveMutex.EveryRunKeepsInv | LightweightMutex/light_mutex/recursive_light_mutex.h:37-88 | The accounts hold at every moment of every interleaving |
| RecursiveMutex.MutualExclusion | LightweightMutex/light_mutex/recursive_light_mutex.h:37-88 | At most one thread is inside; owner and recursion count are that thread's identity and nesting |
| RecursiveMutex.OwnerFieldsUnraced | LightweightMutex/light_mutex/recursive_light_mutex.h:48-49 | The plain fields change only in a step of the one token holder |
| RecursiveMutex.UseCountAndToken | LightweightMutex/light_mutex/recursive_light_mutex.h:40-88 | `use_count_` is outstanding holds plus waiters and passers, and exactly one token exists while it is positive |
| RecursiveMutex.NeverOverReleased | LightweightMutex/light_mutex/recursive_light_mutex.h:83-87 | A release always finds the semaphore down, so none is swallowed by the cap |
| RecursiveMutex.NoWaiterLost | LightweightMutex/light_mutex/recursive_light_mutex.h:40-44 | With a thread waiting, the semaphore is up or another thread holds the token |
| RecursiveMutex.TryLockFails | LightweightMutex/light_mutex/recursive_light_mutex.h:52-69 | try_lock by a non-owner fails exactly when the token is out or on offer |
| RecursiveMutex.CallReturned | LightweightMutex/light_mutex/recursive_light_mutex.h:37-88 | A returned lock has made the nesting one deeper, unlock one less deep; try_lock by the holder always one deeper, by another thread to one or not at all, and then it has seen the mutex in use |
| TwoLockQueue.StepInv | ConcurrentQueue/two_lock.h:48-79 | Every step keeps the list, the locks, the placement of every node and the FIFO history |
| TwoLockQueue.EveryRunIsFifo | ConcurrentQueue/two_lock.h:48-79 | In every interleaving the history, enqueues at the `next` write and dequeues at the `head_` write, replays on a FIFO sequence to the list's contents |
| TwoLockQueue.CallReturned | ConcurrentQueue/two_lock.h:48-79 | A returned Enqueue(v) has recorded exactly that it enqueued v; a returned Dequeue exactly one dequeue or that it found the queue empty |
| TwoLockQueue.EventWasCalled | ConcurrentQueue/two_lock.h:48-79 | Every recorded event belongs to the call its thread was serving: the value enqueued is the argument of that call |
| TwoLockQueue.NeverTouchesDeletedNode | ConcurrentQueue/two_lock.h:48-79 | No step dereferences or deletes a deleted node; `tail_` dangles only between an enqueuer's two writes |
| TwoLockQueue.QuiescentHeapIsTheList | ConcurrentQueue/two_lock.h:57-79 | With nobody inside, the allocated nodes are exactly the list: nothing leaks |
| EventLoop.StepInv | NetworkInfra/src/event_loop.cpp:61-80 | Every step of the loop and of other threads keeps the wakeup accounts |
| EventLoop.NoLostWakeup | NetworkInfra/src/event_loop.cpp:142-177 | When the owner queues only inside Run: a poll with pending tasks or a requested quit has a positive counter or a thread about to write it |
| EventLoop.NoLostQuit | NetworkInfra/src/event_loop.cpp:111-117 | A poll with the flag down has a positive counter or a thread about to write it, in every run |
| EventLoop.QuitInForceIff | NetworkInfra/src/event_loop.cpp:61-117 | From a quit until Run next returns the flag stays down and no poll sleeps, exactly when the quit was issued inside Run or Run is not entered again |
| EventLoop.QuitOverwritten | NetworkInfra/src/event_loop.cpp:61-66 | A quit issued outside Run is overwritten by the next entry to Run |
| EventLoop.EarlyQuitSleeps | NetworkInfra/src/event_loop.cpp:61-80 | A concrete run in which another thread quits before Run and the poll sleeps |
| EventLoop.ExecutedIsPrefixOfQueued | NetworkInfra/src/event_loop.cpp:154-170 | The tasks of all effective QueueTask calls among the moves, in order, are those executed, then those taken out, then those pending: none lost, run twice or reordered; OnWakeup's read never finds a zero counter |
| EventLoop.QueuedIsCalled | NetworkInfra/src/event_loop.cpp:142-152 | The history of queued tasks is the sequence of the calls' tasks, defined from moves and states alone |
| EventLoop.ReturnsIff | NetworkInfra/src/event_loop.cpp:61-80 | Run returns exactly when the owner, owing no wakeup, tests the flag and finds it down |
| EventLoop.FirstPollCoveredIff | NetworkInfra/src/event_loop.cpp:142-152 | From any moment outside Run with the counter at zero and nobody owing, other threads moving freely: the first poll is covered exactly when a thread has sent a wakeup since or nothing is pending |
| EventLoop.QuietStartCoveredIff | NetworkInfra/src/event_loop.cpp:142-152 | With nobody else moving and nothing pending at first: exactly when the owner queued nothing before Run |
| EventLoop.EarlyTaskSleeps | NetworkInfra/src/event_loop.cpp:149-151 | A concrete run in which a poll sleeps on a pending task |
| RcString.StepInv | RCString/src/thread_safe_rc_string.cpp:60-224 | Every atomic action of every string keeps counts, marks, ownership and values right |
| RcString.CountsAreOwners | RCString/src/thread_safe_rc_string.cpp:60-99 | With all strings at rest a block's count is its number of owners, or it is marked with one owner |
| RcString.NeverFaults | RCString/src/thread_safe_rc_string.cpp:29-99 | No interleaving touches a freed block, frees one twice or breaks an assertion, the destructor's included |
| RcString.DeletedIsUnowned | RCString/src/thread_safe_rc_string.cpp:29-34 | A block about to be deleted has count zero or the mark, and is no other string's block and nobody's clone |
| RcString.ValueSemantics | RCString/src/thread_safe_rc_string.cpp:155-224 | A string at rest shows what it would hold if nothing were ever shared |
| RcString.CallsDecideText | RCString/src/thread_safe_rc_string.cpp:132-224 | A string exists from its creation to its destruction, and at rest its block holds what the calls mean on a sequential object: the text created, the copied source's text, the text before an Append with the new text behind it, one character changed by a write through a reference; a reference is out exactly after `operator[]` |
| RcString.EveryRunIsTied | RCString/src/thread_safe_rc_string.cpp:132-224 | In every run, also in the middle of operations, each string's value and the work still to do make up what the calls mean |
| RcString.OthersUntouched | RCString/src/thread_safe_rc_string.cpp:187-224 | An action on one string, also a write through an `operator[]` reference, changes no other string |
| RcString.Reserved | RCString/src/thread_safe_rc_string.cpp:109-121 | The new capacity covers what is required and never shrinks; when it grows it is the least multiple of four from 3/2 of the old one or what is required on |
| Hashids.ReorderPermutes | hashids/hashids/hashids.cpp:34-48 | The keyed shuffle is a permutation of the string |
| HashidsLaws.ReorderIs | hashids/hashids/hashids.cpp:34-48 | The shuffle is the composition of the exchanges of each place n-1-r with the place (r mod salt length + code + sum of the cycled salt's codes up to here) mod (n-1-r), stated place by place without the shuffle's own recursion |
| HashidsLaws.AlphabetSaltIs | hashids/hashids/hashids.cpp:50-56 | The salt of a shuffle is the front, as long as the alphabet, of lottery character, salt and alphabet written one after the other |
| HashidsLaws.ValueHashIs | hashids/hashids/hashids.cpp:174-177 | The value hash is the sum of the remainders by 100, 101, .. taken modulo 2^64 once |
| HashidsLaws.CoreIs | hashids/hashids/hashids.cpp:179-195 | The code is the lottery character picked by the hash, then each number in the alphabet of its place with the separator picked by its value, leading digit and place between; the alphabets are any chain in which each follows from the one before by those exchanges |
| HashidsLaws.ChainExists | hashids/hashids/hashids.cpp:183-187 | There is such a chain for every number of values |
| HashidsLaws.PadIs | hashids/hashids/hashids.cpp:99-110 | Padding is the middle window of the wanted length in the code with the shuffled alphabets' halves around it, the least number of rounds deep |
| HashidsLaws.EncodeIs | hashids/hashids/hashids.cpp:167-202 | The text is the code, the code behind the guard picked by hash and first character, or the padded code between that and the guard picked by the second, whichever first is long enough |
| HashidsLaws.BalanceIs | hashids/hashids/hashids.cpp:145-152 | Separators take the least front of the alphabet that makes them two to seven of its characters |
| HashidsLaws.GuardShare | hashids/hashids/hashids.cpp:156-164 | Guards are one to twelve characters of the alphabet, rounded up, cut off its front, or off the separators' when it has fewer than three |
| HashidsLaws.FilterInOrder | hashids/hashids/hashids.cpp:127-129 | The separators stand in the order of the base separators |
| HashidsLaws.PruneInOrder | hashids/hashids/hashids.cpp:131-137 | The alphabet stands in the order of first occurrence in the given one |
| HashidsDefaultCode.CodeOfThree | hashids/tests/hashids_test.cpp:42 | Under the default options 1, 2, 3 encode to `o2fXhV` |
| HashidsSaltedCode.CodeOfThree | hashids/tests/hashids_test.cpp:92 | With the salt `Arbitrary string` they encode to `neHrCa` |
| Hashids.UnhashInvertsHash | hashids/hashids/hashids.cpp:58-78 | Reading undoes writing for every 64-bit number in every duplicate-free alphabet, in wrapping arithmetic |
| Hashids.BuildSound | hashids/hashids/hashids.cpp:123-165 | The constructor succeeds exactly on alphabets of sixteen distinct characters with a base separator or no salt; then alphabet, separators and guards share the given characters out, each once |
| Hashids.BuildFails | hashids/hashids/hashids.cpp:123-165 | Too few characters exactly below sixteen distinct ones; out of range exactly with sixteen, a salt and no base separator |
| Hashids.UnderflowExample | hashids/hashids/hashids.cpp:34-48 | Eighteen letters with the salt `x` for which the constructor reads out of range |
| Hashids.SplitSegments | hashids/hashids/hashids.cpp:186-195 | Cutting the body at separators gives each number's digits back |
| Hashids.ReadCore | hashids/hashids/hashids.cpp:244-259 | The unguarded code reads back as the numbers, each in its own shuffled alphabet |
| Hashids.PadSurrounds | hashids/hashids/hashids.cpp:99-110 | Padding adds only alphabet characters outside the guarded code, and centred trimming reaches exactly the wanted length without cutting into it |
| Hashids.UnguardEncoded | hashids/hashids/hashids.cpp:80-111 | Unguarding an encoded text gives its core, and the text has at least the minimum length |
| Hashids.DecodeIffEncode | hashids/hashids/hashids.cpp:226-267 | decode returns a sequence of 64-bit numbers exactly for the text that encode makes of it |
| Hashids.RoundTrip | hashids/hashids/hashids.cpp:167-267 | decode(encode(v)) is v, without an error, for every sequence, salt, minimum length and accepted alphabet |
| Hashids.EncodeInjective | hashids/hashids/hashids.cpp:167-202 | Different number sequences have different texts |
| HashidsCodec.ReorderInPlace | hashids/hashids/hashids.cpp:34-48 | The swaps in place compute the shuffle, that of ReorderIs |
| HashidsCodec.HashNumberLoop | hashids/hashids/hashids.cpp:58-68 | The digit loop and the reversal compute the positional notation |
| HashidsCodec.UnhashLoop | hashids/hashids/hashids.cpp:70-78 | The Horner loop computes the wrapped value |
| HashidsCodec.SegmentsLoop | hashids/hashids/hashids.cpp:183-195 | The loop over the numbers, with its evolving alphabet, writes the segments |
| HashidsCodec.EncodeLoop | hashids/hashids/hashids.cpp:167-202 | encode computes the specified text |
| HashidsCodec.EnsureMinimumLengthLoop | hashids/hashids/hashids.cpp:80-111 | Guarding and padding in place compute the specified text |
| HashidsCodec.DecodeLoop | hashids/hashids/hashids.cpp:226-267 | decode computes the specified result or error |
| HashidsCodec.BuildLoop | hashids/hashids/hashids.cpp:123-165 | The constructor's steps compute the specified configuration or error |
| HashidsCodec.HexRoundTrip | hashids/hashids/hashids.cpp:204-282 | encode_hex accepts exactly hexadecimal digits, and decode_hex gives them back in lower case, leading zeros included |
| HashidsLaws.HexNumbersAre | hashids/hashids/hashids.cpp:204-224 | encode_hex cuts the text into groups of twelve digits, the last one shorter, each read as its hexadecimal value with a one before it |
| BuddyUtil.IsPowerOf2Iff | BuddyAllocator/src/buddy_util.h:14-17 | The mask test accepts exactly the powers of two |
| BuddyUtil.NearestUpperPowerOf2 | BuddyAllocator/src/buddy_util.h:21-30 | The smearing loop computes the smeared number plus one, wrapped |
| BuddyUtil.SmearedBit | BuddyAllocator/src/buddy_util.h:25-27 | A bit is set after the loop exactly when one of the 32 bits from it upwards was |
| BuddyUtil.UpperPow2IsLeast | BuddyAllocator/src/buddy_util.h:19-30 | The reference: the least power of two not below the number |
| BuddyUtil.RoundedExactIff | BuddyAllocator/src/buddy_util.h:21-30 | Exactly when rounding gives that power of two |
| BuddyUtil.RoundedExact | BuddyAllocator/src/buddy_util.h:21-30 | It does for 1..2^32 |
| BuddyUtil.RoundedInexact | BuddyAllocator/src/buddy_util.h:24-27 | It does not for 2^32 + 1 |
| BuddyUtil.RoundedBetween | BuddyAllocator/src/buddy_util.h:21-30 | Where it does not, the result lies strictly between two neighbouring powers of two or is zero |
| BuddyTree.CanonFull | BuddyAllocator/src/bin_manager.cpp:110-123 | A node's canonical value is its whole size exactly when nothing below it is live |
| BuddyTree.PickLeast | BuddyAllocator/src/bin_manager.cpp:59-68 | The descent reaches the leftmost free node of its height |
| BuddyBlocks.RoomIff | BuddyAllocator/src/bin_manager.cpp:54-57 | The root's value admits a request exactly when a free aligned run of that size exists |
| BuddyBlocks.PickRun | BuddyAllocator/src/bin_manager.cpp:59-72 | The descent ends at the free aligned run with the least offset |
| BuddyBlocks.AddBlock | BuddyAllocator/src/bin_manager.cpp:74-80 | Taking a free block adds exactly its slots to those in use |
| BuddyBlocks.RemoveBlock | BuddyAllocator/src/bin_manager.cpp:109-123 | Releasing a block removes exactly its slots from those in use |
| BinManagement.BinManager.constructor | BuddyAllocator/src/bin_manager.cpp:15-30 | The array starts as the image of no live block |
| BinManagement.Create | BuddyAllocator/src/bin_manager.cpp:15-18 | Construction raises exactly for slot counts that are no power of two |
| BinManagement.BinManager.Allocate | BuddyAllocator/src/bin_manager.cpp:47-83 | Reads past the array exactly when the rounding is not exact and the root's value admits the rounded number; otherwise fails exactly when no aligned run of the rounded size is free, or takes the first one, and the array is again the image of the live blocks |
| BinManagement.BinManager.Descend | BuddyAllocator/src/bin_manager.cpp:59-68 | Ends at the leftmost node with room for a power of two, and past the leaves exactly for a number that is none |
| BinManagement.BinManager.Free | BuddyAllocator/src/bin_manager.cpp:85-124 | Releases exactly the live block holding the offset, or nothing; the array is again the image of the live blocks |
| BinManagement.BinManager.SlotCountFor | BuddyAllocator/src/bin_manager.cpp:126-140 | The size of the live block holding the offset |
| BuddyRuns.EveryRunDisjoint | BuddyAllocator/src/bin_manager.cpp:47-124 | At any moment of any run of allocations and frees no slot is in two live blocks |
| BuddyRuns.Perform | BuddyAllocator/src/bin_manager.cpp:47-124 | Any list of calls on the object makes a run of the live blocks, up to the first call that reads past the array |
| BuddyRuns.FreeingRestores | BuddyAllocator/src/bin_manager.cpp:85-124 | Frees in any order, through any offsets inside the blocks, give back the very array from before the allocations |
| BuddyRuns.EveryRunCoalesces | BuddyAllocator/src/bin_manager.cpp:47-124 | The same for the blocks of any run of allocations |
| BuddyRuns.EmptyHasEveryRun | BuddyAllocator/src/bin_manager.cpp:113-122 | With nothing live every size up to the whole chunk is available again |
| BuddyFacade.BytesToSlots | BuddyAllocator/src/buddy_allocator.cpp:17-25 | Strict mode raises exactly off multiples; otherwise the count is the quotient rounded up, wrapping to zero for the last 4095 sizes |
| BuddyFacade.BytesDisjoint | BuddyAllocator/src/buddy_allocator.cpp:42-61 | Two live allocations share no byte |
| BuddyFacade.BuddyAllocator.Allocate | BuddyAllocator/src/buddy_allocator.cpp:42-61 | Null exactly when no run is free; else the first fit's address, inside the chunk, with at least the bytes asked for, recorded in the table; reads out of range exactly when the bin manager does |
| BuddyFacade.BuddyAllocator.Deallocate | BuddyAllocator/src/buddy_allocator.cpp:63-75 | A known address releases its block and record alone; an unknown one changes nothing |
| BuddyFacade.BuddyAllocator.QueryAllocatedSize | BuddyAllocator/src/buddy_allocator.cpp:77-88 | The byte size of the live block at the address, zero elsewhere |
| BuddyFacade.Create | BuddyAllocator/src/buddy_allocator.cpp:36-40 | Construction succeeds exactly for capacities of a power of two of slots |
| Murmur.MurmurHash2 | bloom-filter/bloom-filter/MurmurHash2.cpp:37-86 | Computes Hash2 of the bytes |
| Murmur.MurmurHashNeutral2 | bloom-filter/bloom-filter/MurmurHash2.cpp:339-381 | Computes the same hash from single bytes |
| Murmur.MurmurHashAligned2 | bloom-filter/bloom-filter/MurmurHash2.cpp:394-520 | Computes the same hash for every alignment, loading only from multiples of four |
| Murmur.AlignedStep | bloom-filter/bloom-filter/MurmurHash2.cpp:423-441 | The shifted two-word register holds the next four unread bytes |
| Murmur.MurmurHash2A | bloom-filter/bloom-filter/MurmurHash2.cpp:206-243 | Computes Hash2A of the bytes |
| Murmur.AddByte | bloom-filter/bloom-filter/MurmurHash2.cpp:309-324 | One byte more keeps the incremental state that of all bytes added |
| Murmur.CMurmurHash2A.MixTail | bloom-filter/bloom-filter/MurmurHash2.cpp:309-324 | Consumes single bytes until the tail is empty or the data ends |
| Murmur.CMurmurHash2A.Add | bloom-filter/bloom-filter/MurmurHash2.cpp:273-290 | The state after a chunk is that of all bytes added so far |
| Murmur.CMurmurHash2A.End | bloom-filter/bloom-filter/MurmurHash2.cpp:292-302 | Returns Hash2A of all bytes added |
| Murmur.HashChunks | bloom-filter/bloom-filter/MurmurHash2.cpp:247-331 | However the bytes are cut into chunks, the incremental hash is the one-shot hash |
| MurmurInverse.MixUndone | bloom-filter/bloom-filter/MurmurHash2.cpp:57-62 | The result of mixing and either argument give the other, with the inverse written out |
| MurmurInverse.FinishUndone | bloom-filter/bloom-filter/MurmurHash2.cpp:81-83 | The final mixes are undone by the inverse written out |
| MurmurInverse.EveryWordCounts | bloom-filter/bloom-filter/MurmurHash2.cpp:37-86 | Texts of one length with one hash that agree on the tail and on all words but one agree on that one |
| MurmurInverse.WordHashed | bloom-filter/bloom-filter/MurmurHash2.cpp:37-86 | The hash of `abcd` is 0x26873021 |
| MurmurInverse.TwoWordsHashed | bloom-filter/bloom-filter/MurmurHash2.cpp:37-86 | The hash of `abcdefgh` with seed 7 |
| MurmurInverse.TailOfOneHashed | bloom-filter/bloom-filter/MurmurHash2.cpp:70-76 | The hash of `abcde` |
| MurmurInverse.TailOfTwoHashed | bloom-filter/bloom-filter/MurmurHash2.cpp:70-76 | The hash of `abcdef` |
| MurmurInverse.TailOfThreeHashed | bloom-filter/bloom-filter/MurmurHash2.cpp:70-76 | The hash of `abcdefg` |
| MurmurInverse.TailThenLengthHashed | bloom-filter/bloom-filter/MurmurHash2.cpp:206-243 | The Merkle-Damgard hash of `abcde`: tail first, then length |
| ExpressionTree.InfixToPostfix | Expression Tree/exptree.cpp:123-185 | The loop over the text with its operator stack computes Shunt, with a result for an empty-stack pop |
| ExpressionTree.ConstructExpTree | Expression Tree/exptree.cpp:24-50 | The loop over the postfix text with its node stack computes Build |
| ExpressionTree.ShuntExpr | Expression Tree/exptree.cpp:137-174 | After an expression's text the output and at most one pending operator per priority hold its postfix |
| ExpressionTree.PostfixOfText | Expression Tree/exptree.cpp:123-185 | Well-formed text converts to the postfix of its grammar tree, without underflow |
| ExpressionTree.TreeOfPostfix | Expression Tree/exptree.cpp:24-50 | That postfix builds the tree of the expression, without underflow |
| ExpressionTree.EvalExpr | Expression Tree/exptree.cpp:53-67 | Evaluating that tree gives the value of the grammar |
| ExpressionTree.MeaningPreserved | Expression Tree/exptree.cpp:24-67 | Converting, building and evaluating preserves the value of every well-formed expression |
| ExpressionTree.TextDeterminesValue | Expression Tree/exptree.cpp:123-185 | No text has two meanings |
| ExpressionTree.UnderflowIff | Expression Tree/exptree.cpp:143-163 | Any text at all underflows exactly when a closing parenthesis has no partner |
| ExpressionTree.BuildIff | Expression Tree/exptree.cpp:24-50 | Any postfix builds a tree exactly when every beginning of it has more digits than operators, counting the trees it starts with |
| ExpressionTree.CompileIff | Expression Tree/exptree.cpp:24-185 | Any text compiles exactly when its closing parentheses are matched and its postfix is not empty and never runs out of operands |
| ExpressionTree.LoneParenthesis | Expression Tree/exptree.cpp:143-163 | The text `)` underflows the operator stack |
| ExpressionTree.LoneOperator | Expression Tree/exptree.cpp:39-41 | An operator on its own converts and underflows the node stack |
| ExpressionTree.CalculateSum | Expression Tree/exptree.cpp:218-243 | `+` and `-` give the grammar's sum and difference |
| ExpressionTree.CalculateProduct | Expression Tree/exptree.cpp:218-243 | `*` and `/` give the grammar's product and truncated quotient, with no result for a zero divisor |
| TreeCodec.StoiOfToString | crack-data-structures-and-algorithms/leetcode/serialize_and_deserialize_binary_tree_q297.cpp:30-58 | stoi undoes to_string for every 32-bit integer |
| TreeCodec.SplitText | crack-data-structures-and-algorithms/leetcode/serialize_and_deserialize_binary_tree_q297.cpp:46-51 | Splitting at spaces gives the tokens back |
| TreeCodec.EncodeInjective | crack-data-structures-and-algorithms/leetcode/serialize_and_deserialize_binary_tree_q297.cpp:23-41 | Queues of equally many trees with the same tokens are the same |
| TreeCodec.SerializeInjective | crack-data-structures-and-algorithms/leetcode/serialize_and_deserialize_binary_tree_q297.cpp:23-41 | A text is the serialisation of at most one tree |
| TreeCodec.TextIsLevels | crack-data-structures-and-algorithms/leetcode/serialize_and_deserialize_binary_tree_q297.cpp:23-41 | The text is the tree's levels from the root down, each from left to right, missing children included |
| TreeCodec.TextExample | crack-data-structures-and-algorithms/leetcode/serialize_and_deserialize_binary_tree_q297.cpp:23-41 | The text of a tree of two nodes |
| TreeCodec.DecodeStep | crack-data-structures-and-algorithms/leetcode/serialize_and_deserialize_binary_tree_q297.cpp:61-77 | The decoder's queue stays in step with the encoder's: the next two tokens are the first node's children, the rest belong to what is then pending |
| TreeCodec.Serialize | crack-data-structures-and-algorithms/leetcode/serialize_and_deserialize_binary_tree_q297.cpp:23-41 | The loop over heap nodes writes the text of the tree they represent |
| TreeCodec.DecodeQueue | crack-data-structures-and-algorithms/leetcode/serialize_and_deserialize_binary_tree_q297.cpp:59-77 | The loop links fresh nodes into the encoded tree and reads no token out of range |
| TreeCodec.Deserialize | crack-data-structures-and-algorithms/leetcode/serialize_and_deserialize_binary_tree_q297.cpp:44-80 | For every tree of 32-bit integers, its serialisation decodes to a heap tree representing it |
| Permutations.StepSuccessor | crack-data-structures-and-algorithms/leetcode/permutations_q46.cpp:27-49 | Swap and reverse at the last ascent give the least arrangement strictly above |
| Permutations.NextPermu | crack-data-structures-and-algorithms/leetcode/permutations_q46.cpp:27-49 | In place: the successor arrangement, or false with nothing changed exactly at the greatest one |
| Permutations.Permute | crack-data-structures-and-algorithms/leetcode/permutations_q46.cpp:17-25 | Lists every arrangement exactly once, in strictly rising order, and terminates |
| Permutations.AboveShrinks | crack-data-structures-and-algorithms/leetcode/permutations_q46.cpp:20-22 | Each step leaves strictly fewer arrangements above |
| Permutations.AllCounted | crack-data-structures-and-algorithms/leetcode/permutations_q46.cpp:17-25 | The list has as many entries as there are distinct arrangements |
| Permutations.ArrangementsAre | crack-data-structures-and-algorithms/leetcode/permutations_q46.cpp:17-25 | The reference set holds exactly the rearrangements |
| Alphabet.IndexOfLetter | TernarySearchTree/src/alphabet.cpp:20-31 | Exactly the letters and the NUL behind them have an index, and it gives the character back |
| TernaryShape.FindPasses | TernarySearchTree/src/ternary_search_tree.cpp:108-114 | A search among siblings for any letter of a node's interval passes through that node |
| TernaryShape.LookupComplete | TernarySearchTree/src/ternary_search_tree.cpp:119-149 | Every node is the one found for its text, so no two nodes stand for one text |
| TernaryShape.ContainsIff | TernarySearchTree/src/ternary_search_tree.cpp:119-149 | The node walk answers membership in the set of words |
| TernaryShape.AddNode | TernarySearchTree/src/ternary_search_tree.cpp:44-53 | Hanging a new node on a free link keeps the shape and the words |
| TernaryVisit.VisitIff | TernarySearchTree/src/ternary_search_tree.cpp:55-78 | The recursive search reaches exactly what hangs below a node |
| TernaryVisit.VisitDistinct | TernarySearchTree/src/ternary_search_tree.cpp:55-78 | It reaches no node twice |
| TernaryVisit.BelowMiddle | TernarySearchTree/src/ternary_search_tree.cpp:187-190 | Below a node's middle link are exactly the texts that go on from its own |
| TernaryTrees.TernaryTree.Insert | TernarySearchTree/src/ternary_search_tree.cpp:95-117 | Accepts exactly words of letters and NULs and adds them; a rejected word leaves the set unchanged |
| TernaryTrees.InsertAll | TernarySearchTree/src/ternary_search_tree.cpp:95-117 | After any sequence of insertions the words are those inserted that are accepted |
| TernaryTrees.TernaryTree.Contains | TernarySearchTree/src/ternary_search_tree.cpp:119-149 | Membership in the set of inserted words |
| TernaryTrees.TernaryTree.SearchWord | TernarySearchTree/src/ternary_search_tree.cpp:55-78 | Appends the words at and below a node and its siblings, in visiting order |
| TernaryTrees.TernaryTree.Search | TernarySearchTree/src/ternary_search_tree.cpp:151-193 | Each inserted word with the prefix, exactly once |
| TrieShape.LookupComplete | TrieFoDict/src/trie.cpp:51-90 | Every node is the one found for its text |
| TrieVisit.PostIff | TrieFoDict/src/trie.cpp:112-144 | The traversal passes exactly the nodes whose text goes on from the start's |
| TrieVisit.PostDistinct | TrieFoDict/src/trie.cpp:112-144 | It passes no node twice |
| Tries.Trie.Insert | TrieFoDict/src/trie.cpp:51-70 | Adds exactly words of letters; rejects a word whose first other character is not NUL, leaving the set unchanged, and reads past the links exactly when it is NUL |
| Tries.InsertAll | TrieFoDict/src/trie.cpp:51-70 | After any sequence of insertions, up to the first that reads past the links, the words are those inserted that are made of letters |
| Tries.Trie.Contains | TrieFoDict/src/trie.cpp:72-90 | Membership in the set of inserted words; reads past the links exactly when the walk reaches a NUL |
| Tries.Trie.NextChild | TrieFoDict/src/trie.cpp:121-130 | The cursor loop finds the next child, or leaves only the node itself to visit |
| Tries.Trie.Search | TrieFoDict/src/trie.cpp:92-147 | The explicit-stack loop terminates and returns each inserted word with the prefix exactly once, unless the walk along the prefix reaches a NUL |
| MultipartSpec.ReadNextProgress | http-multipart/multipart/multipart.cpp:94-146 | A read that stays ready strictly shortens the body, returns a named part with data and stops before the next delimiter; done is reached only on the end mark |
| MultipartScan.DashedLonger | http-multipart/multipart/multipart.cpp:22-39 | What follows a delimiter does not matter for whether the search finds it |
| MultipartScan.SearchEndsAt | http-multipart/multipart/multipart.cpp:22-39 | The search ends at a delimiter exactly when its boundary is one that no earlier visited occurrence overlaps and no visited one before it ends the search |
| MultipartScan.DelimitedIffFound | http-multipart/multipart/multipart.cpp:22-39 | The search behind a part's data finds the part's own delimiter exactly when the data is delimited, a condition on where the boundary occurs |
| MultipartScan.DelimitedUnbordered | http-multipart/multipart/multipart.cpp:22-39 | For a boundary without a border: exactly when it does not occur in the first four characters and the delimiter not before its place |
| MultipartScan.DataStartsWithBoundary | http-multipart/multipart/multipart.cpp:29-31 | Data that starts with its boundary is not delimited |
| MultipartScan.DashesSkipped | http-multipart/multipart/multipart.cpp:25-38 | With a boundary of three dashes no data without dashes is delimited |
| MultipartRoundTrip.ParamsSplit | http-multipart/multipart/multipart.cpp:60-70 | The disposition parameters split and trim into what they were put together from |
| MultipartRoundTrip.HeadersRead | http-multipart/multipart/multipart.cpp:117-127 | The headers of a canonical part are read back, with or without a content type and a filename |
| MultipartRoundTrip.PartBackIff | http-multipart/multipart/multipart.cpp:94-146 | One read gives a canonical part back exactly when its data is not empty and is delimited |
| MultipartRoundTrip.DataIsBoundary | http-multipart/multipart/multipart.cpp:94-146 | A part whose data is `B` with the boundary `B` is malformed, whatever its header |
| MultipartScan.FirstOccurrenceDelimits | http-multipart/multipart/multipart.cpp:25-38 | Data is delimited when the boundary does not occur before its place in the delimiter |
| MultipartRoundTrip.RoundTrip | http-multipart/multipart/multipart.cpp:94-146 | The canonical text of any list of writable parts reads back as exactly those parts and ends done |
| MultipartForms.FirstWins | http-multipart/multipart/multipart.h:50-56 | The tables hold the first value and the first file of each name |
| MultipartForms.OnlyNames | http-multipart/multipart/multipart.h:50-56 | And nothing else |
| MultipartForms.ParseRendered | http-multipart/multipart/multipart.cpp:196-209 | The canonical text parses into the tables of its parts |
| MultipartReaders.FindDashedBoundary | http-multipart/multipart/multipart.cpp:22-39 | The search loop computes FindDashed and terminates |
| MultipartReaders.MultipartReader.ConsumeContentHeader | http-multipart/multipart/multipart.cpp:158-180 | One header line is consumed, or the body is left unchanged |
| MultipartReaders.MultipartReader.ConsumeDataPart | http-multipart/multipart/multipart.cpp:182-194 | The data before the delimiter, and the body from the delimiter on |
| MultipartReaders.MultipartReader.ReadNextPart | http-multipart/multipart/multipart.cpp:94-146 | Computes ReadNext when ready; done and malformed are absorbing |
| MultipartReaders.ParseMultipartForm | http-multipart/multipart/multipart.cpp:196-209 | The form of a text that ends done, an error for any other and for an empty body or boundary |
| NetworkOrder.BigEndianAt | NetworkInfra/src/buffer.cpp:41-57 | The i-th byte written is the i-th most significant one |
| NetworkOrder.DecodeEncode | NetworkInfra/src/buffer.cpp:36-88 | Every signed integer comes back from its big-endian bytes |
| NetworkOrder.EncodeDecode | NetworkInfra/src/buffer.cpp:59-88 | Any bytes are the encoding of the integer they decode to |
| NetworkOrder.DecodeAllInverts | NetworkInfra/src/buffer.cpp:36-124 | Any sequence of typed values comes back when read with the same types, whatever follows it |
| NetworkBuffer.Buffer.ReserveWritable | NetworkInfra/src/buffer.cpp:164-179 | Both branches keep the readable bytes and make enough room |
| NetworkBuffer.Buffer.Write | NetworkInfra/src/buffer.cpp:27-34 | Appends exactly the bytes given |
| NetworkBuffer.Buffer.Consume | NetworkInfra/src/buffer.cpp:90-98 | Drops bytes off the front; an emptied buffer starts over at the prepend offset |
| NetworkBuffer.Buffer.ReadAsInt | NetworkInfra/src/buffer.cpp:100-126 | Decodes and drops the first bytes |
| NetworkBuffer.Buffer.ReadAsString | NetworkInfra/src/buffer.cpp:128-135 | Returns and drops the first bytes |
| NetworkBuffer.Buffer.ReadAllAsString | NetworkInfra/src/buffer.cpp:137-142 | Returns everything and leaves the buffer empty |
| NetworkBuffer.Buffer.Prepend | NetworkInfra/src/buffer.cpp:144-150 | Puts bytes in front of the queue and uses up that much prependable space |
| NetworkBuffer.Buffer.PrependInt | NetworkInfra/src/buffer.cpp:152-162 | Puts the big-endian bytes of a 32- or 64-bit integer in front of the queue |
| NetworkBuffer.PrependThenRead | NetworkInfra/src/buffer.cpp:100-162 | An integer put in front is the next one read, and the queue behind it is as it was |
| NetworkBuffer.ReadFD | NetworkInfra/src/buffer.cpp:192-218 | Appends exactly the bytes received, in order, through the extra buffer where needed; a failed read changes nothing |
| NetworkBuffer.WriteThenRead | NetworkInfra/src/buffer.cpp:36-124 | Typed writes read back with the same types give the same integers |

## Left out

- Weak memory and allocation failure: every shared access is one sequentially consistent step, and allocation succeeds.
- LockFreeStack.EveryRunIsLinearizable: takes tags as unbounded numbers, so a tag that wraps around between a load and a swap is not modelled; a buffer of at least one node is assumed, as the constructor writes the last one.
- RecursiveMutex.MutualExclusion: thread identifiers are distinct and nonzero, and unlock by a thread that holds nothing (an assertion in the source) is not a step.
- EventLoop.NoLostWakeup: assumes that the loop's own thread queues no task outside Run, without which it is false (EventLoop.EarlyTaskSleeps); the poller is reduced to returning some ready channels, its ten-second timeout to returning with none.
- RcString.ValueSemantics: each string object is used by one thread at a time; `capacity_` starts at zero, which the code never writes; appending a string to itself and the implicit copy assignment are not modelled; a reference from `operator[]` is used only before that string's next mutation.
- Hashids.RoundTrip: the ratios 3.5 and 12 are applied as exact quotients rounded up; the alphabet holds no NUL, whose byte value would be a zero divisor; the shuffle's running sum does not overflow an `int`.
- BinManagement.BinManager.Allocate: says nothing of what a read past the array gives, and stops there; the assertion against a request for no slots is taken as disabled.
- BinManagement.BinManager.SlotCountFor: asks for an offset inside a live block, or one past the end; elsewhere the walk would leave the tree at its root.
- BuddyFacade.BuddyAllocator.Allocate: the chunk's bytes are not modelled, only the addresses of its slots.
- Murmur.MurmurHash2: loads are little-endian; the 64-bit variants are not modelled; lengths are below 2^31, as the source's `int` is.
- ExpressionTree.MeaningPreserved: integers are unbounded, and the assertions on unknown operators are taken as disabled; the tree is a value, not linked heap nodes.
- TreeCodec.Deserialize: says nothing of texts that are no serialisation, for which the source reads out of range or throws.
- Permutations.Permute: `std::sort` is taken by its result, sorting the same elements.
- TernaryTrees.TernaryTree.Insert: nodes live in an arena and links are indexes into it instead of heap pointers, here and in Tries.Trie.Insert.
- TernaryTrees.TernaryTree.Search: the assertion on a letter's index is taken as disabled, so a word that goes on from the prefix with a NUL is found.
- Tries.Trie.Insert: says nothing of what a read past a node's links gives, and stops there; so do Tries.Trie.Contains and Tries.Trie.Search.
- TernaryTrees.TernaryTree.SearchWord: the two shared vectors are passed and returned as values.
- MultipartReaders.MultipartReader.ReadNextPart: text positions are unbounded, and views into the body are copies.
- NetworkBuffer.Buffer.Write: data that lies in the buffer's own array is not modelled; the host's byte order conversion is taken by its result.
- NetworkBuffer.ReadFD: `readv` is a parameter, the bytes that the kernel delivers within the space offered.
- The buffer's iterators; `operator-(Iterator, n)` returns its argument unmoved, at NetworkInfra/src/buffer.h:235-240.
- Move operations, destructors that only free memory, and stream output.
- The bloom filter, connection pool, pollers, sockets, timers and the remaining exercises.
