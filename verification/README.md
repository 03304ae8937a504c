# Verified models of five runtime data structures and protocols

This project models five independent parts of the Objective-C runtime sources and proves what they
are meant to guarantee.

1. **The selector and class tables of the shared cache** (`objc4-532.2/runtime/objc-shared-cache.h`).
   Strings are hashed to pairs (a, b); keys are grouped by b; groups are mapped, largest first, to the
   first scramble index that avoids all keys mapped so far; the result is serialised and read back with
   a different formula. `Words`, `Lookup8`, `Permute`, `PerfectHash`, `PerfectSearch`, `Mappings`,
   `PerfectTables`, `StringTable` and `ClassTable` follow that pipeline. The end results are that the
   builder fails exactly when every try of its schedule has no mapping, that lookup agrees with the
   string map on every non-empty string, and that a class name yields exactly its (class, header) pairs.
2. **DenseMap** (`objc4-532.2/runtime/llvm-DenseMap.h`): `Probing`, `LeadingZeros`, `DenseMaps`. A class
   over an array of buckets whose methods are proved against the finite map it stands for, including the
   mode in which an insertion may drop entries of value zero. The hash is an arbitrary function.
3. **The block runtime** (`libclosure-59/runtime.c`). `LatchingCount` is the reference count under
   compare-and-swap by any number of threads, as a transition system. `BlockHeap`, `BlockMeaning`,
   `BlockOps`, `BlockRuntime` and `BlockRuns` are copying, releasing and scope exit over a heap of blocks
   and `__block` cells: what each operation does is a function from memory to memory, the methods of a
   class are proved to compute it, and runs are sequences of such operations. With a ghost account of
   who owns which reference it is proved over all runs that every count equals the number of owners,
   that copies mean what the originals mean, that variables keep value and identity when they move, and
   that nothing remains at the end unless a count has latched.
4. **The inline reference count** (`objc4-532.2/runtime/objc-internal.h`): `InlineRefcount`, a transition
   system with a program counter for every call, including traps and resurrection.
5. **Trampoline pages** (`objc/objc-block-trampolines.m`): `Trampolines`, a bump allocator over byte
   memory whose page list is threaded through the pages it hands out.

Machine words are natural numbers with the wrap-around written out. Code that updates state in place is
a method over arrays or a class; its contract refers to a specification function or predicate, and the
lemmas prove what the source promises of that. The concurrent parts are stated over all finite runs,
with one shared-memory access per step. In several methods `hide` keeps definitions out of a proof that
does not need them.

Where code and comments disagree the code was followed: the comment on `scrambleinit` promises distinct
values, which holds from smax 256 on; that on `perfect` promises hashes in 0..nkeys-1, where the code
gives 0..smax-1; and that on `augment` describes a search for an augmenting path, which is cut off after
the root, so that it is first fit.

## Model

| member | source | states |
|---|---|---|
| Lookup8.Lookup8 | objc4-532.2/runtime/objc-shared-cache.h:650-709 | the loop over whole blocks and the fall-through switch compute the recursively defined hash, on which the lemmas rest; a 64-bit word |
| Lookup8.MixBijective | objc4-532.2/runtime/objc-shared-cache.h:605-619 | mix64 is a bijection on triples of 64-bit words, with its inverse given |
| Lookup8.Mix64IsSteps | objc4-532.2/runtime/objc-shared-cache.h:605-619 | the twelve lines are one step, with twelve shifts, taken in turn by the three accumulators |
| Lookup8.TailIsWords | objc4-532.2/runtime/objc-shared-cache.h:674-705 | the 23 fall-through cases add three little-endian words, with the low byte of the third left to the length |
| Lookup8.ShortKeysDiffer | objc4-532.2/runtime/objc-shared-cache.h:650-709 | two different keys of at most 23 bytes, whatever their lengths, end in different states (a, b, c) |
| Lookup8.LocalChangeDiffers | objc4-532.2/runtime/objc-shared-cache.h:650-709 | two different keys of one length that differ only in one 24-byte block, or only in the tail, end in different states |
| Permute.Permute | objc4-532.2/runtime/objc-shared-cache.h:835-853 | twenty rounds in 32-bit arithmetic compute the permutation of which PermuteBijective speaks |
| Permute.RoundIs | objc4-532.2/runtime/objc-shared-cache.h:844-851 | in every width up to 32 a round is multiplication by one odd number, a fold, multiplication by another and a fold, in which the 32-bit wrap-around does not show |
| Permute.TwentyRounds | objc4-532.2/runtime/objc-shared-cache.h:835-853 | on four bits, where the orbit of 1 has eleven values, the permutation takes 1 to 12, the value after nine rounds and so after twenty |
| Permute.PermuteBijective | objc4-532.2/runtime/objc-shared-cache.h:833-853 | for every nbits up to 31, a bijection of 0..2^nbits-1 that fixes 0 |
| Permute.ComputeLog2u | objc4-532.2/runtime/objc-shared-cache.h:824-831 | the loop finds the value that Log2uIsCeiling characterises |
| Permute.Log2uIsCeiling | objc4-532.2/runtime/objc-shared-cache.h:824-831 | log2u is the ceiling of the binary logarithm |
| Permute.ScrambleInit | objc4-532.2/runtime/objc-shared-cache.h:855-867 | fills the array with the table of ScrambleSpreads |
| Permute.ScrambleSpreads | objc4-532.2/runtime/objc-shared-cache.h:855-867 | scramble values lie below smax, are distinct when smax >= 256, and cover 0..smax-1 when smax <= 256 |
| PerfectHash.InitTab | objc4-532.2/runtime/objc-shared-cache.h:874-908 | returns true iff all (a, b) pairs differ; then, or in complete mode, the lists partition the keys by b with the right lengths |
| PerfectHash.DistinctOneMore | objc4-532.2/runtime/objc-shared-cache.h:886-897 | looking for equal a in the list of the key's b decides whether the first i+1 pairs are distinct |
| PerfectHash.ListOneMore | objc4-532.2/runtime/objc-shared-cache.h:899-904 | pushing a key on the front of its list keeps the lists a partition of the keys seen |
| PerfectSearch.Apply | objc4-532.2/runtime/objc-shared-cache.h:932-987 | on the path used: succeeds iff the new index is free for the group; on failure the recursive rollback restores tabh and the old index |
| PerfectSearch.RolledBack | objc4-532.2/runtime/objc-shared-cache.h:945-983 | a partly applied group that is rolled back leaves the hash table as it was before |
| PerfectSearch.Probe | objc4-532.2/runtime/objc-shared-cache.h:1039-1067 | the walk over one index reports no obstacle iff every key of the group goes to a free slot |
| PerfectSearch.ExploredSize | objc4-532.2/runtime/objc-shared-cache.h:1069-1075 | the queue never holds more entries than there are groups, so no tabq index exceeds blen |
| PerfectSearch.Augment | objc4-532.2/runtime/objc-shared-cache.h:1009-1088 | cut off at the root it is first fit: succeeds iff some index in 0..255 is free, takes the least, places exactly the group's keys; on failure tabh and all indices are unchanged |
| PerfectSearch.FreeIffNoClash | objc4-532.2/runtime/objc-shared-cache.h:1092-1121 | with tabh holding exactly the mapped keys, an index is free iff it clashes with no earlier group |
| PerfectSearch.Perfect | objc4-532.2/runtime/objc-shared-cache.h:1092-1121 | true: every group, in descending size, has the least index that avoids all earlier groups, and tabh[h] is k iff k hashes to h; false: some group clashes under all 256 indices |
| PerfectSearch.AllFitInjective | objc4-532.2/runtime/objc-shared-cache.h:1092-1121 | when every group has its least fitting index, key -> a ^ scramble[tab[b]] is injective on all keys, with values below smax |
| Mappings.AllFitIsFirstFits | objc4-532.2/runtime/objc-shared-cache.h:1092-1121 | that every group has its least fitting index says, of the pairs (a, b) alone, that in descending order of size every group has the least index with no collision with an earlier group |
| Mappings.MappingUnique | objc4-532.2/runtime/objc-shared-cache.h:1092-1121 | there is at most one such mapping |
| Mappings.StuckUnmappable | objc4-532.2/runtime/objc-shared-cache.h:1092-1121 | when perfect fails there is none |
| PerfectTables.InitNorm | objc4-532.2/runtime/objc-shared-cache.h:912-928 | gives each key the pair of its string under the salt, and changes no string |
| PerfectTables.InitialBlenFits | objc4-532.2/runtime/objc-shared-cache.h:1126-1170 | the first guess at blen is a power of two from 1 to smax: a sixteenth, an eighth or a quarter of smax as the table is up to 60%, up to 80% or more than 80% full |
| PerfectTables.DoublingKeepsDistinct | objc4-532.2/runtime/objc-shared-cache.h:1248-1260 | pairs that are distinct stay so when blen doubles, so the retry with the same salt passes inittab |
| PerfectTables.Attempt | objc4-532.2/runtime/objc-shared-cache.h:1216-1268 | one salt: reports separation iff the pairs of the strings differ, and succeeds iff moreover they have a mapping; then with a complete solution |
| PerfectTables.FindHash | objc4-532.2/runtime/objc-shared-cache.h:1182-1278 | gives the tries it made, which follow the schedule; it finds a solution with the parameters of the last try if that works and no earlier one does, gives up if none works and the schedule ends, and is unfinished if none of the whole allowance works; with one key the first try works |
| PerfectTables.ScheduleDetermined | objc4-532.2/runtime/objc-shared-cache.h:1212-1268 | the schedule leaves no choice: two searches for the same strings make the same tries |
| PerfectTables.AlenStays | objc4-532.2/runtime/objc-shared-cache.h:1205-1232 | alen stays at smax, so the branch that would double it is never taken |
| PerfectTables.RetrySeparates | objc4-532.2/runtime/objc-shared-cache.h:1250-1260 | after RETRY_PERFECT salts separated the keys at one blen, the next try is the same salt with blen doubled, and it separates them again |
| PerfectTables.FruitfulOrNot | objc4-532.2/runtime/objc-shared-cache.h:1182-1278 | no search both succeeds and fails |
| PerfectTables.SaltsDiffer | objc4-532.2/runtime/objc-shared-cache.h:1220 | the multiplier is invertible, so that different si give different salts |
| PerfectTables.OneGroupWorks | objc4-532.2/runtime/objc-shared-cache.h:1092-1121 | with one group a try works iff the pairs differ |
| PerfectTables.ReadHashIsBuilt | objc4-532.2/runtime/objc-shared-cache.h:172-177 | the reader's shift/mask/scramble formula gives every key the hash the builder gave it |
| PerfectTables.ReadHashBound | objc4-532.2/runtime/objc-shared-cache.h:172-177 | any string at all hashes to a slot of the table |
| PerfectTables.SolutionIsPerfect | objc4-532.2/runtime/objc-shared-cache.h:1302-1352 | a solution yields tables whose reader sends different strings to different slots |
| PerfectTables.GetKeys | objc4-532.2/runtime/objc-shared-cache.h:1287-1299 | one key for each string, in order |
| PerfectTables.MakePerfect | objc4-532.2/runtime/objc-shared-cache.h:1302-1352 | a table with a capacity is perfect for its strings and stands for the first try that works at its size, which is the least power of two that holds the strings unless the search there fails, and then its double; there is no capacity iff both searches fail; the shift is below the word size iff there are at least two strings |
| StringTable.LowWordFits | objc4-532.2/runtime/objc-shared-cache.h:293-301 | the shift-and-compare test accepts exactly the offsets of 32 bits |
| StringTable.OffsetIsDifference | objc4-532.2/runtime/objc-shared-cache.h:293-296 | the offset is the string's address less the table's, above it or below |
| StringTable.OffsetReverses | objc4-532.2/runtime/objc-shared-cache.h:293-305 | adding the stored offset to the table's address, wherever it is mapped, gives the string's address |
| StringTable.CheckByteFields | objc4-532.2/runtime/objc-shared-cache.h:183-188 | a check byte is three bits of the first character and five of the length |
| StringTable.SizeIsLayout | objc4-532.2/runtime/objc-shared-cache.h:217-223 | the size is that of the header and the three arrays of a readable image |
| StringTable.StringHash.Write | objc4-532.2/runtime/objc-shared-cache.h:244-307 | on success the image is readable, every string is in its own slot, every other slot empty, and the table fits; a section too small or an offset too big is reported only when it is so, and a failed hash iff no search succeeds |
| StringTable.GetFindsStored | objc4-532.2/runtime/objc-shared-cache.h:193-213 | every string of the map is found in its slot, at its address |
| StringTable.GetOutside | objc4-532.2/runtime/objc-shared-cache.h:193-213 | a string outside the map is rejected iff it is non-empty or its slot is taken |
| StringTable.GetAgrees | objc4-532.2/runtime/objc-shared-cache.h:317-323 | get returns the stored address for every non-empty string of the map and NULL for every other non-empty string |
| ClassTable.GetClassesAndHeaders | objc4-532.2/runtime/objc-shared-cache.h:384-405 | the loop writes exactly the pairs read for the key and leaves the rest of the caller's arrays alone |
| ClassTable.EmptyMeansNew | objc4-532.2/runtime/objc-shared-cache.h:467-470 | while writing, the class offset of a name is the empty one iff the name has not been met |
| ClassTable.NewName | objc4-532.2/runtime/objc-shared-cache.h:461-522 | storing one header, or a range of duplicates, describes the new name in full and disturbs no other |
| ClassTable.RangesAfter | objc4-532.2/runtime/objc-shared-cache.h:489-520 | the duplicate ranges of different names stay disjoint and tile duplicateOffsets |
| ClassTable.DuplicatesFit | objc4-532.2/runtime/objc-shared-cache.h:489-520 | there are never more duplicates than classes |
| ClassTable.ClassHash.WriteDuplicates | objc4-532.2/runtime/objc-shared-cache.h:504-520 | appends the headers of the pairs in order, or reports an offset that does not fit |
| ClassTable.ClassHash.WriteClass | objc4-532.2/runtime/objc-shared-cache.h:461-522 | one class keeps the invariant of the table; it fails with "class list busted" only for a name that is no string |
| ClassTable.ClassSizeIsLayout | objc4-532.2/runtime/objc-shared-cache.h:409-416 | the size is that of the string table, the headers, the count of duplicates and the duplicates |
| ClassTable.ClassHash.Write | objc4-532.2/runtime/objc-shared-cache.h:439-526 | on success every name is described in full, the ranges tile the duplicates, every class name is a string and the table fits the section; each failure has its cause: a search without success, a table too large, a class that is no string, or a pair that does not fit 32 bits |
| ClassTable.LookupExact | objc4-532.2/runtime/objc-shared-cache.h:360-382 | the count is the multiplicity, and the pair right, iff the key is no string, or names several classes, or one class at an even distance |
| ClassTable.PairsListed | objc4-532.2/runtime/objc-shared-cache.h:384-405 | under that condition the pairs listed are exactly those of the name, in order |
| ClassTable.NotAClass | objc4-532.2/runtime/objc-shared-cache.h:360-382 | a string that names no class is answered once, with the address of the header's zero field |
| Probing.TriDistinct | objc4-532.2/runtime/llvm-DenseMap.h:692-697 | the first n triangular offsets are distinct modulo n, a power of two |
| Probing.ProbeCovers | objc4-532.2/runtime/llvm-DenseMap.h:667-698 | every bucket is among the first NumBuckets probed |
| Probing.ProbeFatal | objc4-532.2/runtime/llvm-DenseMap.h:667-710 | the fatal exit is reached iff no bucket is empty and none holds the key |
| Probing.ProbeExact | objc4-532.2/runtime/llvm-DenseMap.h:653-710 | a probe finds precisely the keys of the table, each in its bucket with its value, and otherwise a bucket that can take the key |
| Probing.ProbeTakesFirst | objc4-532.2/runtime/llvm-DenseMap.h:671-690 | an unsuccessful probe gives the first bucket on its way that is empty, a tombstone or a purgeable zero |
| Probing.PutKeepsTable | objc4-532.2/runtime/llvm-DenseMap.h:602-637 | putting a key into such a bucket, also over another key's zero, breaks no third key's chain and changes just those two keys |
| Probing.TakeKeepsTable | objc4-532.2/runtime/llvm-DenseMap.h:510-520 | a tombstone keeps all chains whole |
| Probing.SetKeepsTable | objc4-532.2/runtime/llvm-DenseMap.h:536-546 | writing through the reference changes that key's value and nothing else |
| LeadingZeros.CountLeadingZeros32 | objc4-532.2/runtime/llvm-DenseMap.h:37-59 | the bisection finds the top bit: 2^(31-count) <= word < 2^(32-count) |
| LeadingZeros.Log2Ceil32 | objc4-532.2/runtime/llvm-DenseMap.h:203-205 | the least power of two that is at least n, for n >= 1; 32 for 0 |
| DenseMaps.DenseMap.constructor | objc4-532.2/runtime/llvm-DenseMap.h:712-723 | an empty table, with room if it has at least 8 buckets |
| DenseMaps.DenseMap.LookupBucketFor | objc4-532.2/runtime/llvm-DenseMap.h:653-710 | the loop in 32-bit arithmetic is the probe of which ProbeExact, ProbeFatal and ProbeTakesFirst speak |
| DenseMaps.DenseMap.Grow | objc4-532.2/runtime/llvm-DenseMap.h:725-770 | doubles or keeps the size, drops tombstones and purgeable zeros, and keeps every other entry |
| DenseMaps.DenseMap.MoveEntries | objc4-532.2/runtime/llvm-DenseMap.h:742-760 | moves exactly the kept entries, and lowers the entry count by the zeros dropped |
| DenseMaps.MoveReady | objc4-532.2/runtime/llvm-DenseMap.h:747-755 | growing never meets a key already in the new table |
| DenseMaps.DenseMap.InsertIntoBucket | objc4-532.2/runtime/llvm-DenseMap.h:602-637 | sets the new key, may drop only purgeable zeros, keeps both counters right, doubles or rehashes iff the rules say so and else writes in place, and leaves an eighth of the buckets empty |
| DenseMaps.LoadRules | objc4-532.2/runtime/llvm-DenseMap.h:613-621 | the rules in plain numbers: doubled iff three quarters full with the new entry, else rehashed iff less than an eighth would be empty |
| DenseMaps.RoomAfter | objc4-532.2/runtime/llvm-DenseMap.h:613-621 | the 3/4 and 1/8 rules always leave at least an eighth of the buckets empty, from 8 buckets up |
| DenseMaps.DenseMap.FindAndConstruct | objc4-532.2/runtime/llvm-DenseMap.h:536-546 | operator[] changes the value of no key, and aborts iff the table is full without the key |
| DenseMaps.DenseMap.SetValue | objc4-532.2/runtime/llvm-DenseMap.h:544-546 | writing through the reference that operator[] returned sets that key's value and nothing else |
| DenseMaps.DenseMap.Resize | objc4-532.2/runtime/llvm-DenseMap.h:433 | the table never shrinks, gets the size asked for and less than twice that if it grows, and drops only purgeable zeros |
| DenseMaps.DenseMap.Insert | objc4-532.2/runtime/llvm-DenseMap.h:490-500 | inserts iff the key is new; otherwise changes nothing |
| DenseMaps.DenseMap.Erase | objc4-532.2/runtime/llvm-DenseMap.h:510-520 | removes exactly the key, leaving one tombstone |
| DenseMaps.DenseMap.Lookup | objc4-532.2/runtime/llvm-DenseMap.h:480-485 | the key's value or 0; never aborts in a table with room |
| DenseMaps.InsertedValue | objc4-532.2/runtime/llvm-DenseMap.h:602-637 | seen as a total function with default 0, an insertion changes one key; no non-zero entry is lost; without purging it is a plain map update |
| DenseMaps.KeptValue | objc4-532.2/runtime/llvm-DenseMap.h:725-770 | rehashing changes no key's value |
| DenseMaps.SizeIsLiveCount | objc4-532.2/runtime/llvm-DenseMap.h:430-431 | the number of live buckets, which NumEntries is, is the size of the map |
| DenseMaps.DenseMap.Clear | objc4-532.2/runtime/llvm-DenseMap.h:435-457 | empties the map; more than 64 buckets less than a quarter full become 64 for up to 32 entries and else from twice to less than four times the entries, and other tables keep their size |
| DenseMaps.DenseMap.ShrinkAndClear | objc4-532.2/runtime/llvm-DenseMap.h:772-805 | the new size is below the old, 64 iff there were at most 32 entries, and else from twice to less than four times the entries |
| DenseMaps.ShrunkSize | objc4-532.2/runtime/llvm-DenseMap.h:772-785 | given the exact ceiling logarithm, the size chosen is such a power of two |
| DenseMaps.DenseMap.Iterate | objc4-532.2/runtime/llvm-DenseMap.h:826-869 | iteration meets the live buckets in order, in NumEntries steps |
| DenseMaps.LiveBucketsSound | objc4-532.2/runtime/llvm-DenseMap.h:826-869 | what iteration meets are entries of the map, no key twice |
| DenseMaps.LiveBucketsComplete | objc4-532.2/runtime/llvm-DenseMap.h:826-869 | iteration meets every key of the map, with its value |
| DenseMaps.SmallTableFails | objc4-532.2/runtime/llvm-DenseMap.h:613-621 | a table made with 1, 2 or 4 buckets can be driven into the fatal exit, for an eighth of its size is 0 |
| LatchingCount.IncrementWord | libclosure-59/runtime.c:63-73 | adding 2 to an unlatched word adds one to the count and disturbs neither the flags nor the deallocating bit |
| LatchingCount.DecrementWord | libclosure-59/runtime.c:95-114 | a decrement takes one off the count, and marks the word iff it was the last of an unmarked one |
| LatchingCount.NextKeepsInv | libclosure-59/runtime.c:63-114 | every step of every thread keeps the invariant of the reachable states |
| LatchingCount.DeallocateOnce | libclosure-59/runtime.c:75-114 | in no run is anybody told to deallocate twice, nor does a try-retain succeed after the first time |
| LatchingCount.DeallocateAtFirstZero | libclosure-59/runtime.c:95-114 | should_deallocate returns true exactly at the step in which the count first falls to zero |
| LatchingCount.LatchedForever | libclosure-59/runtime.c:63-114 | a latched word never changes again |
| LatchingCount.Conservation | libclosure-59/runtime.c:63-114 | until the word has latched, its count is the initial one plus the retains that have ended, plain or conditional and not refused, less the releases that have ended on a count other than zero |
| LatchingCount.ActEnds | libclosure-59/runtime.c:63-114 | a thread returns iff the word is still what it loaded, or that was latched, or was deallocating in a conditional retain, or had count zero in a release; else it loads again and the word is as it was |
| LatchingCount.FlagsKept | libclosure-59/runtime.c:63-114 | in every reachable state the flags above the count are the initial ones and at most one order to deallocate has been given |
| BlockHeap.DecodedCounters | libclosure-59/runtime.c:63-114 | the counters on the flags word are the counters on the decoded flags that the heap model uses |
| BlockHeap.RetainedKeeps | libclosure-59/runtime.c:332-336 | taking a reference keeps every count equal to its number of owners |
| BlockHeap.TryRetainedKeeps | libclosure-59/runtime.c:504-507 | so does a try-retain of any block, on the heap, on the stack or global |
| BlockHeap.TryRetainedRaises | libclosure-59/runtime.c:504-507 | a try-retain succeeds unless the block is being disposed of, and then raises that block's count by one unless latched, wherever the block is |
| BlockHeap.BlockCopiedKeeps | libclosure-59/runtime.c:348-359 | making a heap block with count 1, its slots still to be fixed up, keeps every count equal to its number of owners |
| BlockHeap.ByrefCopiedKeeps | libclosure-59/runtime.c:405-429 | moving a variable to a heap cell with count 2, one for the block being copied and one for the stack cell, keeps every count equal to its number of owners |
| BlockHeap.DisposingKeeps | libclosure-59/runtime.c:495-500 | marking a block whose last reference is given up, its captures now to be released, keeps every other count equal to its number of owners, and nothing referenced dies |
| BlockHeap.ByrefFreedKeeps | libclosure-59/runtime.c:455-460 | freeing a variable's heap cell whose last reference is given up keeps every count equal to its number of owners, and nothing referenced dies |
| BlockMeaning.ForwardingSettles | libclosure-59/runtime.c:398-438 | under the invariant forwarding leads to the cell itself or to a live heap cell, and forwarding.forwarding is forwarding |
| BlockMeaning.VariablesKept | libclosure-59/runtime.c:398-438 | copying keeps the value of every variable and which variables share a cell; forwarding changes only from the cell itself to a heap cell |
| BlockMeaning.CopyableKept | libclosure-59/runtime.c:398-438 | what can be copied still can after something else was |
| BlockMeaning.SameClosureKept | libclosure-59/runtime.c:324-360 | a copy stays a copy while other blocks are copied |
| BlockMeaning.NothingLeft | libclosure-59/runtime.c:441-502 | when nobody holds anything, all heap cells are freed iff no count has latched, and then every object was released as often as retained |
| BlockOps.CopyByrefKeeps | libclosure-59/runtime.c:398-438 | assigning a variable's cell gives the live cell it forwards to, with one reference more, and keeps the ownership invariant |
| BlockOps.CopyBlockKeeps | libclosure-59/runtime.c:324-360 | the recursive copy keeps the ownership invariant; its result is a copy with one reference more; counts only rise, latched cells stay as they are, variables only move, and copying anything but a block on the stack makes no cell |
| BlockOps.ReleaseByrefKeeps | libclosure-59/runtime.c:441-461 | releasing a variable's cell gives up one reference, keeps the ownership invariant, and touches no latched and no stack cell |
| BlockOps.ReleaseBlockKeeps | libclosure-59/runtime.c:481-502 | the same for the recursive release of a block, with all that it frees |
| BlockOps.LeaveVariableKeeps | libclosure-59/runtime.c:441-461 | leaving a scope gives up the stack's reference and no other, and keeps the ownership invariant |
| BlockRuntime.Runtime.ByrefAssignCopy | libclosure-59/runtime.c:398-438 | updates memory to exactly what the specification function gives, of which CopyByrefKeeps speaks |
| BlockRuntime.Runtime.CopyInternal | libclosure-59/runtime.c:324-360 | terminates; memory and result are exactly those of the specification function, and so a copy in the sense of CopyBlockKeeps |
| BlockRuntime.Runtime.CopyStackBlock | libclosure-59/runtime.c:348-360 | the last case of it: allocation, bit copy and copy helper, with exactly that effect |
| BlockRuntime.Runtime.CallCopyHelper | libclosure-59/runtime.c:299-305 | every slot ends up holding a copy of what was captured, and the loop has exactly the effect of the recursive function |
| BlockRuntime.Runtime.ObjectAssign | libclosure-59/runtime.c:614-673 | an object is retained, a block copied, a variable moved to the heap; the slot gets the result, and nothing else changes |
| BlockRuntime.Runtime.Copy | libclosure-59/runtime.c:475-477 | besides what CopyInternal promises, no variable changes its value, and which variables share a cell stays the same |
| BlockRuntime.Runtime.ByrefRelease | libclosure-59/runtime.c:441-461 | gives up one reference to the shared cell, with exactly the effect of the specification function; the assertion that its count is not zero holds |
| BlockRuntime.Runtime.Release | libclosure-59/runtime.c:481-502 | terminates; frees the block iff the reference was its last; otherwise changes just its count; does nothing for NULL, global and stack blocks |
| BlockRuntime.Runtime.TryRetain | libclosure-59/runtime.c:504-507 | succeeds for every block that is not being disposed of; the count rises by one unless it has latched |
| BlockRuntime.Runtime.CallDisposeHelper | libclosure-59/runtime.c:307-313 | gives up exactly the references the block held |
| BlockRuntime.Runtime.ObjectDispose | libclosure-59/runtime.c:680-701 | gives up the one reference of a slot; the runtime never releases an object it does not retain |
| BlockRuntime.Runtime.ReadVariable | libclosure-59/runtime.c:395-397 | reads through the forwarding pointer |
| BlockRuntime.Runtime.WriteVariable | libclosure-59/runtime.c:395-397 | a write is seen through every reference to the variable and through none to another |
| BlockRuntime.Runtime.ExitVariable | libclosure-59/runtime.c:441-461 | leaving a scope has exactly the effect of which LeaveVariableKeeps speaks |
| BlockRuns.StepKeeps | libclosure-59/runtime.c:324-507 | every operation of compiled code, computed by its specification function, keeps the ownership invariant |
| BlockRuns.RunKeeps | libclosure-59/runtime.c:324-507 | the ownership invariant holds in every world of every run, though a run is only a sequence of operations each allowed where it is done |
| BlockRuns.CountsByName | libclosure-59/runtime.c:324-507 | in every run an unlatched block's count is the copies and retains answered with it, less its releases, plus the slots of heap blocks that hold it; a variable cell's count is the slots that hold it plus one while its scope is open; an object's retains are the slots that hold it |
| BlockRuns.ClientReferences | libclosure-59/runtime.c:475-507 | what clients hold of a heap block is what they were given of it less what they gave up |
| BlockRuns.OnlyBlocksHeld | libclosure-59/runtime.c:475-507 | between operations nothing but references to blocks is held outside memory |
| BlockRuns.CellsOverTime | libclosure-59/runtime.c:398-502 | in every run a freed cell stays freed, a heap cell goes only by being freed and never once latched, captures never change, and a variable's forwarding changes at most once while its scope is open |
| BlockRuns.SharingOverTime | libclosure-59/runtime.c:395-438 | in every run two variables share a cell at one time iff they do at any other while both exist |
| BlockRuns.ValueOverTime | libclosure-59/runtime.c:395-438 | a variable keeps its value through every operation that is not a write through a reference to it |
| BlockRuns.LastWriteIsRead | libclosure-59/runtime.c:395-438 | what is read of a variable is what was last written through any reference that shares its cell |
| BlockRuns.CopySharesVariable | libclosure-59/runtime.c:395-438 | from a copy on, the copy's slot for a captured variable names the very cell the variable resolves to, until one of them is gone |
| BlockRuns.EverythingFreed | libclosure-59/runtime.c:441-502 | a run that ends with all references given up and all scopes left has freed every cell ever on the heap iff no heap count latched on the way, and then released every object as often as it retained it |
| InlineRefcount.NextKeepsInv | objc4-532.2/runtime/objc-internal.h:397-454 | every step keeps: only a marked object is deallocated, by the one call that marked it; the variable turns odd exactly when marked |
| InlineRefcount.DeallocStartsOnce | objc4-532.2/runtime/objc-internal.h:406-429 | over every interleaving dealloc is started at most once |
| InlineRefcount.OddForever | objc4-532.2/runtime/objc-internal.h:397-446 | once marked the variable stays odd |
| InlineRefcount.NothingAfterMark | objc4-532.2/runtime/objc-internal.h:418-446 | after marking nobody marks again and no _tryRetain succeeds |
| InlineRefcount.TrapsWhen | objc4-532.2/runtime/objc-internal.h:397-446 | exactly which steps trap |
| InlineRefcount.TryEnds | objc4-532.2/runtime/objc-internal.h:433-446 | _tryRetain returns iff it loaded an odd value or -2 or the variable is still what it loaded; else it loads again |
| InlineRefcount.VariableIsHistory | objc4-532.2/runtime/objc-internal.h:397-446 | in every run the variable is twice the retains and successful try-retains less the releases, plus three for a mark |
| InlineRefcount.NextKeepsCount | objc4-532.2/runtime/objc-internal.h:397-454 | a step by callers that keep to the rules does not trap and keeps the count of owned references; with none left exactly one call is on its way to mark or resurrect, so no dealloc is lost |
| InlineRefcount.CountIsOwners | objc4-532.2/runtime/objc-internal.h:397-454 | in a disciplined run no trap is reachable, the variable is 2*(owned-1) before marking and 1 after, -retainCount is the number of owned references, and -_isDeallocating says there are none |
| InlineRefcount.OwnersAreHistory | objc4-532.2/runtime/objc-internal.h:397-446 | in a disciplined run every caller owns what it owned at first, plus what it retained and was passed, less what it released and passed on |
| InlineRefcount.OwnersCounted | objc4-532.2/runtime/objc-internal.h:397-446 | so the owned references are one, plus the retains and successful try-retains, less the releases |
| InlineRefcount.TryRetainNeedsOwner | objc4-532.2/runtime/objc-internal.h:433-446 | in a disciplined run _tryRetain succeeds only while somebody owns a reference |
| InlineRefcount.QuietMeansDeallocated | objc4-532.2/runtime/objc-internal.h:406-429 | when all calls have returned, the object has been deallocated, once, iff all references were given up |
| Trampolines.AllocationsApart | objc/objc-block-trampolines.m:26-49 | any two allocations that stay in their pages share no byte |
| Trampolines.LinksApart | objc/objc-block-trampolines.m:36-47 | no allocation that stays in its page touches the link word of any page |
| Trampolines.PageLinked | objc/objc-block-trampolines.m:38-43 | a new page is put in front of a list that stays complete and without cycles |
| Trampolines.Allocator.AllocBuffer | objc/objc-block-trampolines.m:26-49 | if there is a page and the allocation ends below its end, it follows the last one and nothing is mapped; otherwise it follows the link word of a new page, or fails and changes nothing if the mapping failed; it lies in its page iff 8 + size <= PAGE_SIZE |
| Trampolines.StretIsBit29 | objc/objc-block-trampolines.m:68-77 | the template is chosen by bit 29 of the flags, whatever the others are |
| Trampolines.EntryInstalled | objc/objc-block-trampolines.m:84-97 | storing invoke, copy and code in the latest allocation keeps the page list and every earlier entry |
| Trampolines.Allocator.ImplementationWithBlock | objc/objc-block-trampolines.m:62-98 | a code pointer never returned before, with the copy stored before it and the template for the block's flags behind it; 0 without a template, the logging function iff the current page has no room and no page can be mapped |
| Trampolines.Allocator.IsBlockIMP | objc/objc-block-trampolines.m:100-116 | the walk over the link words ends and accepts exactly the addresses strictly inside an allocated page |
| Trampolines.ImpInside | objc/objc-block-trampolines.m:118-122 | the word before any code pointer handed out is readable and holds the block's copy |
| Trampolines.Allocator.GetBlock | objc/objc-block-trampolines.m:118-122 | for every code pointer ever returned, the copy stored for it; null outside the pages |

## Left out

- PerfectTables.FindHash: the loop need not end, for no salt may ever separate the keys, so it is given an allowance of tries and may answer `Unfinished`; what becomes of every allowance is proved, but not that some allowance is enough.
- PerfectSearch.Apply: its exact effect is stated for paths of length one, which is what the cut-off at the root leaves reachable; for longer paths only that the lists and sizes stay intact, that rollback succeeds and that it ends.
- StringTable.StringHash.Write: for at least two strings; with one string the shift is the word size, which is undefined behaviour in the source (PerfectTables.MakePerfect says exactly when), and an empty map is not modelled.
- PerfectTables.MakePerfect: for 1 to 2^30 strings, so that the sizes tried fit 32 bits.
- ClassTable.ClassHash.Write: for fewer than 2^30 classes with non-empty names, so that twice a count fits 32 bits, and for a section that is zero-filled, as the source assumes of its duplicate count.
- ClassTable.LookupExact: class addresses that slide to the null address are excluded.
- DenseMaps.DenseMap.Grow: for tables and sizes of up to 2^30 buckets, so that doubling stays within 32 bits.
- DenseMaps.DenseMap.Resize: for tables and sizes of up to 2^30 buckets, as Grow.
- DenseMaps.DenseMap.FindAndConstruct: for up to 2^29 buckets, as InsertIntoBucket.
- DenseMaps.DenseMap.Insert: for up to 2^29 buckets, as InsertIntoBucket.
- DenseMaps.DenseMap.InsertIntoBucket: for up to 2^29 buckets, beyond which the 32-bit products in the growth rules wrap round.
- Trampolines.Allocator.ImplementationWithBlock: for templates that fit a page with their two words, which is what the assembled templates are; the source does not check.
- Trampolines.Allocator.GetBlock: for an address in a page that is not a code pointer, the word before it must be readable; the source reads it unchecked.
- InlineRefcount.CountIsOwners: the variable is unbounded; its integer overflow is not modelled.
- BlockRuntime.Runtime.CopyInternal: only blocks from which nothing dangling is reachable, as the source demands without checking; captures refer to what existed before, so there are no cycles.
- Strings longer than 2^32 bytes: the builder's length field is 32 bits wide, so only shorter ones are claimed to be found.
- The text of the two sections as raw bytes: tables are modelled as the arrays the accessors see, and a string in memory as a function from addresses.
- `byteswap`, the debugging variant of `getIndex`, verbose printing, and the quality of the hash.
- The floating-point thresholds of the first guess at blen are written as integer comparisons.
- DenseMap destructors, the copy constructor, assignment, and the memory fills of debugging builds.
- The garbage-collected mode of blocks, with `latching_decr_int_now_zero`; C++ captures; weak `__block` storage beyond plain assignment, which is what it is in this mode.
- Interleaving of block copies: the heap model is sequential; only the counters are concurrent.
- Memory ordering: steps are sequentially consistent.
- Locking, `mmap` itself and `malloc` failure: a mapping is a parameter that is fresh memory or a failure.
- `imp_removeBlock`: it releases the address of the slot rather than the block stored there, so nothing is claimed of it.
- The assembly of the trampolines, and what `Block_copy` returns to `imp_implementationWithBlock`, which is a parameter.
