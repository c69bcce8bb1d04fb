# The back end of dex2oat, modelled and verified in Dafny

dex2oat writes two files: an oat file with compiled code (wrapped in ELF) and a boot image with a
copy of the heap. Both writers compute a layout in one pass and must reproduce it exactly in
another, and both emit indexes that the runtime later searches. This project models that back end
and proves, for all inputs, that the passes agree, that what was written can be read back, and that
every emitted index finds what was put into it.

Run `dafny verify dfyconfig.toml` in this directory to check everything.

## How the project is organised

| files | what they model |
|---|---|
| `CompiledMethod`, `SafeMap`, `OatTypes` | compiled methods, the order that decides what is a duplicate, lower-bound maps, method headers |
| `OatMaps`, `OatCode`, `OatFile`, `Flatten`, `OatWriter` | planning and writing of tables and code, first as functions over the flat list of visited methods, then as the writer's nested in-place walks proved against those functions |
| `RelativeCalls`, `RelativeReach`, `RelativeRule`, `RelativeLost`, `Branches`, `RelativeLinks` | the ARM relative patcher: which calls wait for their target, when a thunk is reserved, where calls go when they are patched, the branch instructions of arm64 and Thumb-2, and the calls and thunks in the finished file |
| `OatBuild` | the whole oat file with its class records, and the way from a class record to a method's code |
| `OatClass` | per-class records and the runtime reader of the same bytes |
| `OatPatches` | LEB128 patch lists and the loader's walk over them |
| `GcMap`, `SrcMap` | the open-addressing GC map and the compressed address map |
| `OutputStreams` | the vector stream and the buffer in front of it |
| `ImageHeap`, `BinSlots`, `ImageAlloc`, `ImageWalk`, `ImageCopy`, `ImageWriter`, `ImageExample`, `Totals` | the heap, slots kept in lock words, the bin allocator, the walk over a cyclic heap, copying with relocation, and the image writer as a class |
| `ElfHash`, `ElfLayout` | string, symbol and hash tables; section and segment layout |
| `Unwind`, `UnwindLookup`, `OatElf`, `OatUnwind`, `OatExample` | writing `.eh_frame` and its search table; the unwinder's reader of both; an oat file's code and unwinding inside its ELF file; the run from the oat writer to the unwinder's answer; files in which it goes wrong |
| `Barrier` | the thread barrier as a step system over all interleavings |
| `Arith`, `Words` | rounding, division facts, little-endian words |

Pointers to shared vectors and native records are natural numbers with 0 as null. Offsets are
unbounded naturals in the specifications; where the code stores 32-bit words the conversion is
written out with `U32`. Code that a model member calls but that is not part of the model (the
words that patches become, code and table contents by address) is a function-valued field of
`OatTypes.Linker`, so every theorem holds for every choice of it. The decision whether a thunk is due
is such a field too: layout theorems hold for every rule. `RelativeCalls.Follows` says that this field
is the ARM patcher's own rule, and `RelativeLinks.EncodesCalls` that call words are the patcher's own
instructions; such a linker always exists (`RelativeLinks.PatcherExists`).

## Results that are not plain confirmations

- The deduplication key of compiled code leaves out frame size, spill masks and call frame
  information. Reading a method's frame description back from the file gives its own values for
  every method if and only if methods with one key also agree on their frames, or code is debuggable
  (`OatFile.FrameInfoReadsBackIff`; `OatExample.SharedFrameIsWrong` is a file in which it fails).
- Unwinding through the search table finds a method's own call frame information, at every address
  of every method, if and only if methods with one key also agree on it (or code is debuggable), and,
  on 64-bit targets, the table lies at most 2^31 bytes above the first method that has an entry
  (`OatElf.UnwindsIff`): table entries are signed 32-bit words, so on 64 bits a table further away is
  written without complaint and nothing is found (`UnwindLookup.OutOfReachIsLost`). Each condition
  has an arm64 file in which it alone fails: two methods that differ in nothing but their call frame
  information (`OatExample.SharedCfiIsWrong`), and 2 GiB of `.bss` between code and table
  (`OatExample.FarTableIsLost`).
- The ARM relative patcher compares with `>` when it decides that a thunk can wait, and with `<` when
  it uses the thunk. A call whose next thunk is exactly as far away as a call reaches is therefore
  sent to the thunk before it, if there is one. When all callees have code, all relative calls reach
  their target or a thunk if and only if each such call is near its target or the thunk before it
  (`RelativeReach.AllCallsReachIff`; with the constants of Thumb2,
  `RelativeRule.JustMissedCounterexample` is an input on which a call reaches nothing).
- The patcher also stops at the first waiting call whose callee has no code. Of the calls that no thunk
  follows in the end, only those whose callee's code lies ahead are therefore sure to reach; the others,
  and those with a thunk exactly at the limit, reach if and only if the callee (or its trampoline) or the
  thunk before the call is near (`RelativeReach.CallReachesIff`). In `RelativeLost`
  a call of a method without code and a call of a method far behind both reach nothing
  (`RelativeLost.UncheckedCallsCounterexample`).
- `SrcMap` compression keeps a lookup if and only if the address was not pushed with several values
  of which the first repeated the value before it (`SrcMaps.CompressionKeepsLookupIff`; the failing
  family has a concrete member in `SrcMaps.RepeatedAddressCounterexample`). Strictly increasing
  input never fails.
- A barrier lets a blocking caller through early in some run if and only if some incomplete group of
  callers that includes a blocking one sums to zero (`Barrier.SafeInEveryRunIffClosed`). The two
  documented uses are proved to exclude that, and a count that is too small does not
  (`Barrier.TooSmallACountIsOpen`). Setting the count again too early can leave a woken
  waiter asleep for ever (`Barrier.ReinitialisingTooEarlyDeadlocks`).
- The collected absolute patch locations are sorted over the whole file if and only if they are
  sorted inside each placed method (`OatPatches.CollectedPatchesSortedIff`).
- `.text` directly follows `.rodata` if and only if the executable offset is a multiple of the page
  size (`ElfLayout.TextFollowsRodataIff`), the check that `.eh_frame_hdr` follows `.eh_frame`
  without a gap passes if and only if the frames end on a word (`ElfLayout.FramesContiguousIff`),
  and the oat file directly follows the image if and only if the image begins on a page
  (`ImageWriters.OatFollowsImageIff`).

## Model

| member | source | states |
|---|---|---|
| `CompiledMethods.PatchLessIsTotalOrder` | art/compiler/compiled_method.h:291-305 | `<` on linker patches is a strict total order: irreflexive, transitive, and neither of two patches is less exactly when all fields are equal |
| `CompiledMethods.PatchesLessTrichotomy` | art/compiler/oat_writer.cc:517-529 | for patch lists of any equal length exactly one of less, greater and equal holds |
| `CompiledMethods.PatchesLessTransitive` | art/compiler/oat_writer.cc:517-529 | the first-difference comparison of patch lists is transitive |
| `CompiledMethods.CodeLessOrdersByKey` | art/compiler/oat_writer.cc:502-531 | the comparator is a strict weak order whose equivalence is exactly equality of code, the three tables and the patches |
| `SafeMap.FindIsLookup` | art/compiler/oat_writer.cc:387-395 | a lower-bound search with a comparator finds a value exactly when an equivalent key was put, and finds that key's value |
| `SafeMap.PutIsUpdate` | art/compiler/oat_writer.cc:387-395 | inserting an absent key at its lower bound keeps the entries sorted and adds exactly one binding |
| `OatTypes.HeaderRoundTrip` | art/compiler/oat_writer.cc:433-435 | the seven words of a method header read back as the header |
| `OatMaps.OffsetBeforeCode` | art/compiler/oat_writer.cc:159-223 | before code is planned, getting a table offset returns the one that was set, in wrapping 32-bit arithmetic, for all three tables |
| `OatMaps.OffsetAfterCode` | art/compiler/oat_writer.cc:412-436 | after the code pass rebased the field, with or without the Thumb bit, getting returns the same offset again |
| `OatMaps.MapPassAgreement` | art/compiler/oat_writer.cc:904-933 | the table-writing pass ends where planning did, writes each distinct non-empty table exactly at its first use, and leaves every method's table in the output at its planned offset |
| `OatMaps.TableOffsetIsFinal` | art/compiler/oat_writer.cc:570-579 | a table offset given to a method, shared or new, is never changed by later methods |
| `OatMaps.DedupeIsFirstUse` | art/compiler/oat_writer.cc:571-578 | a table is newly placed at a method exactly when no earlier method has it |
| `OatCode.CodeIsEven` | art/compiler/oat_writer.cc:533-542 | the code of every method starts at an even offset inside the code region, so clearing the mode bit recovers it |
| `OatCode.PlanGrows` | art/compiler/oat_writer.cc:367-450 | planning only adds: offsets, thunks, deduplication entries and call targets stay for all later methods |
| `OatCode.DuplicateBelowCursor` | art/compiler/oat_writer.cc:387-395 | a duplicate's offset is that of an earlier placed method with the same key, strictly below the cursor |
| `OatCode.PlacedRangesAscend` | art/compiler/oat_writer.cc:437-466 | methods that were placed have disjoint code ranges that increase in visiting order, with room for the header between them |
| `OatCode.LaterThunks` | art/compiler/linker/arm/relative_patcher_arm_base.cc:26-70 | thunks reserved after a method lie at or above the cursor there, so the writer cannot take one for another |
| `OatCode.TwoPassAgreement` | art/compiler/oat_writer.cc:682-772 | at every method the writing pass has the planning pass's cursor; it writes exactly the methods that are not duplicates, leaves header and patched code of each at its code offset, and ends at the planned size, for every class and method list, deduplication pattern and thunk rule |
| `OatCode.EveryMethodHasItsCode` | art/compiler/oat_writer.cc:698-768 | at the recorded offset of every method, duplicate or not, the output holds that method's patched code behind a header |
| `OatCode.UnpatchedByteStays` | art/compiler/oat_writer.cc:732-759 | bytes under no patch are the compiler's |
| `OatCode.PatchLands` | art/compiler/oat_writer.cc:732-759 | a patch that no later patch overlaps leaves its word in the code |
| `OatCode.TargetsAreDefinitions` | art/compiler/oat_writer.cc:397-407 | the call target recorded for a method reference is the offset of its first visited definition |
| `OatCode.CallReachesTarget` | art/compiler/oat_writer.cc:735-750 | in the finished output, at the place of a call in the code of every method that makes it, is the run-time address of the planned offset of the callee's first definition |
| `RelativeCalls.RelativePatcher.ProcessPatches` | art/compiler/linker/arm/relative_patcher_arm_base.cc:139-179 | the loop over waiting calls leaves the specified queue and decision |
| `RelativeCalls.RelativePatcher.ReserveSpace` | art/compiler/linker/arm/relative_patcher_arm_base.cc:83-114 | offset, thunk locations and waiting calls after room is made before a method are those of plan and queue specification, when the plan decides as the patcher does |
| `RelativeCalls.RelativePatcher.ReserveSpaceEnd` | art/compiler/linker/arm/relative_patcher_arm_base.cc:32-45 | the same after the last method |
| `RelativeCalls.SettledRelies` | art/compiler/linker/arm/relative_patcher_arm_base.cc:150-175 | a call that is taken off the queue reaches its target or the last thunk |
| `RelativeCalls.QueuePending` | art/compiler/linker/arm/relative_patcher_arm_base.cc:83-114 | at every method all waiting calls have no thunk after them yet, are in order, and a thunk reserved now would be within their reach |
| `RelativeCalls.CallLives` | art/compiler/linker/arm/relative_patcher_arm_base.cc:83-179 | in every walk, each relative call that was placed is waiting or has its target, the thunk before it or the thunk after it within reach (or the latter exactly at the limit), from its method on |
| `RelativeCalls.EveryCallEnds` | art/compiler/linker/arm/relative_patcher_arm_base.cc:32-45 | after the last method a call is left over without a thunk behind it, or has one of these within reach |
| `RelativeReach.ReachesIff` | art/compiler/linker/arm/relative_patcher_arm_base.cc:116-137 | the displacement, in wrapping 32-bit arithmetic, leads to target or thunk within the encodable range exactly when the target, the next thunk (by the strict comparison) or the previous thunk is near |
| `RelativeReach.CallReachesIff` | art/compiler/linker/arm/relative_patcher_arm_base.cc:116-137 | with thunks reserved by the patcher's rule, a relative call reaches its target or a thunk, unless no thunk follows it and its callee has no code or lies behind, or its next thunk is exactly at the limit; such a call reaches exactly when its target or the thunk before it is near |
| `RelativeReach.AllCallsReachIff` | art/compiler/linker/arm/relative_patcher_arm_base.cc:83-179 | when all callees have code, all relative calls reach exactly when those whose next thunk is at the limit are near their target or the thunk before them |
| `RelativeReach.NothingLeftOver` | art/compiler/linker/arm/relative_patcher_arm_base.cc:139-179 | when all callees have code, no call is left over |
| `RelativeReach.CallIsPatchedThere` | art/compiler/oat_writer.cc:703-741 | when a method is written, its calls stand where planning put them, with the same number of thunks written |
| `RelativeRule.RuleExists` | art/compiler/linker/arm/relative_patcher_arm_base.cc:83-114 | for every list of methods there is a thunk rule that decides everywhere as the patcher does |
| `RelativeRule.JustMissedCounterexample` | art/compiler/linker/arm/relative_patcher_thumb2.h:46-50 | with the displacements of Thumb2, an input that meets all assumptions and in which a call reaches neither its target nor a thunk |
| `RelativeLost.UncheckedCallsCounterexample` | art/compiler/linker/arm/relative_patcher_arm_base.cc:156-162 | an input for Thumb2 in which a call of a method without code and a later call of a method far behind reach neither target nor thunk |
| `Branches.Arm64RoundTrip` | art/compiler/linker/arm64/relative_patcher_arm64.cc:133-149 | every displacement that fits is read back from the BL instruction |
| `Branches.Thumb2RoundTrip` | art/compiler/linker/arm/relative_patcher_thumb2.cc:32-58 | every displacement that fits is read back from the BL instruction, with its inverted sign bits and swapped halfwords |
| `RelativeLinks.CallRoundTrip` | art/compiler/linker/arm/relative_patcher_thumb2.h:46-50 | every aligned displacement within the patcher's limits survives the instruction |
| `RelativeLinks.ThunksInFile` | art/compiler/linker/arm/relative_patcher_arm_base.cc:47-70 | the code of every reserved thunk is in the finished file at its place |
| `RelativeLinks.CallInFileLeads` | art/compiler/oat_writer.cc:732-759 | in the finished file the instruction word of every relative call, in placed methods and duplicates alike, branches to its callee's first byte or to a thunk, if the call is checked or near something |
| `RelativeLinks.CodeGoalFits` | art/compiler/linker/arm64/relative_patcher_arm64.cc:133-138 | a callee with code is aligned and in range as patching checks |
| `RelativeLinks.PatcherExists` | art/compiler/linker/arm/relative_patcher_arm_base.cc:83-137 | for every list of methods there is a linker that reserves thunks and encodes calls as the patcher does |
| `OatFile.PlannedOffsetsSurvive` | art/compiler/oat_writer.cc:409-436 | after all planning passes every table offset reads back as planned, and the header field is the distance from code down to table |
| `OatFile.FileReadsBack` | art/compiler/oat_writer.cc:1127-1245 | from nothing but a method's code offset the finished file yields its patched code, its code size and its three tables, and the file is exactly as long as planned |
| `OatFile.SharedTables` | art/compiler/oat_writer.cc:502-531 | methods that share code have the same tables at the same offsets |
| `OatFile.SameKeySameOffset` | art/compiler/oat_writer.cc:382-395 | without debuggable code, equal keys get one code offset |
| `OatFile.FrameInfoReadsBackIff` | art/compiler/oat_writer.cc:430-435 | frame size and spill masks read back for everybody exactly when equal keys have equal frames or code is debuggable |
| `Flatten.SlotOfSeen` | art/compiler/oat_writer.cc:269-292 | the running class and method indexes of the visitors address the element of the flat list that the visit is about |
| `OatWriters.OatWriter.InitMaps` | art/compiler/oat_writer.cc:1049-1065 | the nested walk plans every table where the flat specification does and stores the offsets in the headers |
| `OatWriters.OatWriter.InitMapVisit` | art/compiler/oat_writer.cc:559-585 | one visit finds or assigns a table offset and stores it in the header, in 32-bit words |
| `OatWriters.OatWriter.ReserveSpace` | art/compiler/linker/arm/relative_patcher_arm_base.cc:26-45 | the patcher's next offset and thunk location are the plan's, in 32-bit words |
| `OatWriters.OatWriter.NewQuickCodeOffset` | art/compiler/oat_writer.cc:533-542 | the new cursor and code offset are the plan's |
| `OatWriters.OatWriter.RecordAbsolutePatches` | art/compiler/oat_writer.cc:441-449 | exactly the patches that are not pc-relative are recorded, in order |
| `OatWriters.OatWriter.UpdateHeader` | art/compiler/oat_writer.cc:409-435 | the header is rebased in wrapping arithmetic and describes frame and code size; no other header changes |
| `OatWriters.OatWriter.AssignCode` | art/compiler/oat_writer.cc:382-450 | finds or assigns one method's code offset, reserves thunks, records absolute patches, as the plan says |
| `OatWriters.OatWriter.InitCodeVisit` | art/compiler/oat_writer.cc:367-499 | one visit takes the plan one step further in all fields the visitor updates |
| `OatWriters.OatWriter.InitCode` | art/compiler/oat_writer.cc:1108-1125 | the whole code-planning walk: offsets, headers, thunk locations, call targets, patch locations and debug records equal the specification's |
| `OatWriters.OatWriter.WriteMaps` | art/compiler/oat_writer.cc:1299-1324 | the table-writing walk emits the specified bytes |
| `OatWriters.OatWriter.WriteReservedThunks` | art/compiler/linker/arm/relative_patcher_arm_base.cc:47-70 | a thunk is written exactly when the next reserved location is the aligned cursor |
| `OatWriters.OatWriter.PatchCode` | art/compiler/oat_writer.cc:732-759 | the private copy of the code ends up as the specified patched code |
| `OatWriters.OatWriter.WriteCodeVisit` | art/compiler/oat_writer.cc:682-775 | one visit writes thunk, padding, header and patched code, or nothing, as the specification says |
| `OatWriters.OatWriter.WriteCode` | art/compiler/oat_writer.cc:1357-1378 | the code-writing walk, deciding from stored offsets only, emits the specified bytes |
| `OatWriters.OatWriter.InitTrampolines` | art/compiler/oat_writer.cc:1075-1106 | trampolines get aligned offsets one after the other |
| `OatWriters.OatWriter.WriteTrampolines` | art/compiler/oat_writer.cc:1326-1355 | the same trampolines are written at those offsets |
| `OatWriters.OatWriter.InitLayout` | art/compiler/oat_writer.cc:1049-1125 | all planning passes together leave exactly what the writing passes need |
| `OatWriters.OatWriter.WriteRodata` | art/compiler/oat_writer.cc:1127-1175 | the read-only part is the specified bytes and ends at the executable offset |
| `OatWriters.OatWriter.WriteText` | art/compiler/oat_writer.cc:1177-1245 | the executable part is the specified bytes and ends at the planned size |
| `OatWriters.OatWriter.Build` | art/compiler/oat_writer.cc:1049-1245 | plan and write: the bytes are the specified file, and every compiled method can be read back from them |
| `OatWriters.ClassRecordFindsCode` | art/compiler/oat_writer.cc:269-292 | what the runtime reads in a class record for a method is the offset planned for that method's place in the whole visiting order |
| `OatBuild.RecordAtPlace` | art/compiler/oat_writer.cc:1290-1295 | each class record is in the block of records at the offset that the sizes of earlier records give |
| `OatBuild.WriteClasses` | art/compiler/oat_writer.cc:1554-1588 | the records are written one after the other, each with the offsets planned for its methods |
| `OatBuild.BuildFile` | art/compiler/oat_writer.cc:1027-1297 | plan and write, class records included: in the finished file every class record yields for each method an offset exactly if it has code, and at that offset the method is read back |
| `OatClasses.StorageKeepsBits` | art/compiler/oat_writer.cc:1492-1513 | a bit vector's raw storage answers bit tests with the bits that were set |
| `OatClasses.SetBitsAreRank` | art/runtime/oat_file.cc:713-733 | counting set bits before a method gives the number of compiled methods before it |
| `OatClasses.OatClass.constructor` | art/compiler/oat_writer.cc:1462-1514 | each compiled method's entry lies after the prefix by its rank, bitmap bits match, and the running offset ends at the record's size |
| `OatClasses.OatClass.Write` | art/compiler/oat_writer.cc:1554-1588 | the bytes written are the record's and as many as its size says |
| `OatClasses.RecordReadsBack` | art/runtime/oat_file.cc:713-733 | for every pattern of methods with and without code, the runtime finds a method's own offset exactly when it has code |
| `OatPatches.EncodeUnsignedLeb128` | art/runtime/leb128.h:131-140 | the push-back loop appends the LEB128 form of the value |
| `OatPatches.UlebRoundTrip` | art/runtime/leb128.h:31-58 | decoding reads back every 32-bit value and stops right behind it |
| `OatPatches.EncodeOatPatches` | art/compiler/elf_writer_quick.cc:74-83 | the loop appends the deltas between consecutive locations |
| `OatPatches.PatchListRoundTrip` | art/compiler/elf_writer_quick.cc:74-83 | walking the decoded deltas visits exactly the encoded locations in order |
| `OatPatches.CollectedPatchesSortedIff` | art/compiler/oat_writer.cc:437-450 | the locations collected over the file ascend exactly when they do within each placed method |
| `OatPatches.AbsolutePatchesRoundTrip` | art/compiler/oat_writer.cc:441-449 | the loader's walk over the encoded list visits exactly the absolute patch locations recorded during planning |
| `GcMap.WidthIsLeast` | art/compiler/gc_map_builder.h:33-35 | the computed byte width holds every offset up to the maximum and no smaller width would |
| `GcMap.HeaderRoundTrip` | art/compiler/gc_map_builder.h:40-47 | the four header bytes read back as the widths and entry count |
| `GcMap.FillKeepsMap` | art/compiler/gc_map_builder.h:50-59 | filling the slot that probing stopped at adds one binding and disturbs no other |
| `GcMap.GcMapBuilder.constructor` | art/compiler/gc_map_builder.h:30-48 | an empty table of the right size with its header |
| `GcMap.GcMapBuilder.AddEntry` | art/compiler/gc_map_builder.h:50-59 | while a slot is free, probing ends and the table represents the old map with the new binding |
| `GcMap.GcMapBuilder.Probe` | art/compiler/gc_map_builder.h:51-54 | probing ends at the first free slot at or after the home slot, cyclically |
| `GcMap.GcMapBuilder.StoreEntry` | art/compiler/gc_map_builder.h:75-85 | offset and bitmap bytes go to their entry and nowhere else |
| `GcMap.ReadOffset` | art/runtime/gc_map.h:46-53 | the byte loop computes the little-endian value of an entry's offset field |
| `GcMap.FindBitMap` | art/runtime/gc_map.h:66-76 | from the header alone, linear probing ends and returns the bitmap every added offset was first added with |
| `GcMap.BuildAndFind` | art/compiler/gc_map_builder.h:30-85 | end to end: entries added one by one and looked up from the bytes alone give the bitmap of the first entry with the same offset |
| `SrcMaps.SrcMap.PushBack` | art/compiler/compiled_method.h:124-135 | the stored vector is the compression of everything pushed |
| `SrcMaps.CompressedIsMinimal` | art/compiler/compiled_method.h:128-132 | no two neighbours of the stored vector map to one value |
| `SrcMaps.CompressionKeepsLookupIff` | art/compiler/compiled_method.h:139-152 | lookup agrees with lookup in the full input except exactly at an address pushed with several values of which the first was dropped |
| `SrcMaps.StrictInputKeepsStepFunction` | art/compiler/compiled_method.h:124-152 | for strictly increasing input, lookup is the step function of the input at every address |
| `SrcMaps.RepeatedAddressCounterexample` | art/compiler/compiled_method.h:124-152 | a concrete input on which compression changes an answer |
| `OutputStreams.VectorOutputStream.WriteFully` | art/compiler/vector_output_stream.h:34-46 | overwrites from the cursor and grows as needed |
| `OutputStreams.VectorOutputStream.Seek` | art/compiler/vector_output_stream.cc:26-46 | moves the cursor and fills a gap with zeros |
| `OutputStreams.BufferedOutputStream.WriteFully` | art/compiler/buffered_output_stream.cc:26-41 | the stream seen through its pending bytes has the write applied; the buffer never overflows |
| `OutputStreams.BufferedOutputStream.Flush` | art/compiler/buffered_output_stream.cc:43-50 | the vector becomes what the buffered view was, and nothing is pending |
| `OutputStreams.BufferedOutputStream.Seek` | art/compiler/buffered_output_stream.cc:52-57 | flushes, then seeks |
| `OutputStreams.WriteWrite` | art/compiler/vector_output_stream.h:34-46 | two writes in a row are one write of both |
| `OutputStreams.RunBuffered` | art/compiler/buffered_output_stream.cc:26-57 | any sequence of writes and seeks through the buffer leaves, after a flush, vector and cursor as without it |
| `Barrier.NobodyEverSleepsAtZero` | art/runtime/barrier.cc:45-87 | in every run, when the count is zero no thread is asleep |
| `Barrier.CountAccounts` | art/runtime/barrier.cc:31-87 | in every run without re-initialisation the count is the initial one plus the deltas of exactly those who arrived |
| `Barrier.ReleasedAtZero` | art/runtime/barrier.cc:45-80 | a blocking call that returns other than by timing out does so at count zero |
| `Barrier.SafeInEveryRunIffClosed` | art/runtime/barrier.cc:31-87 | no blocking call returns early in any run exactly when no incomplete group with a blocking caller brings the count to zero |
| `Barrier.OpenIsUnsafe` | art/runtime/barrier.cc:31-87 | for every incomplete group with a blocking caller that sums to zero there is a run in which that caller gets through early |
| `Barrier.TooSmallACountIsOpen` | art/runtime/barrier.cc:31-47 | with a count of one, a waiter and a passer are not a safe group |
| `Barrier.LatchCountsMissing` | art/runtime/barrier.cc:31-47 | used as a latch, the count is always the number of parties still missing |
| `Barrier.LatchIsClosed` | art/runtime/barrier.cc:31-59 | the single-use latch meets the safety condition |
| `Barrier.CountDownIsClosed` | art/runtime/barrier.cc:31-59 | n passes with one increment of n meet the safety condition |
| `Barrier.ReleasedThreadsDrain` | art/runtime/barrier.cc:56-58 | once all have arrived at zero, every event lets one more thread return |
| `Barrier.ReleasedThreadsMayReturn` | art/runtime/barrier.cc:56-58 | as long as a thread is inside then, such an event is possible |
| `Barrier.StuckForever` | art/runtime/barrier.cc:56-58 | once only a stranded waiter is left, it stays in every continuation of the run |
| `Barrier.ReinitialisingTooEarlyDeadlocks` | art/runtime/barrier.cc:40-43 | a run in which setting the count again strands a waiter for ever |
| `BinSlots.ForwardingRoundTripIff` | art/runtime/lock_word.h:120-123 | a forwarding address survives the lock word exactly when its two low bits are clear |
| `BinSlots.SlotRoundTrip` | art/compiler/image_writer.cc:1489-1500 | bin and index read back from the packed word |
| `BinSlots.PackedIsSum` | art/compiler/image_writer.cc:1489-1492 | the bitwise or of shifted bin and index is their sum, as their bits do not overlap |
| `BinSlots.BitFieldsIff` | art/compiler/image_writer.cc:1489-1500 | in bit-field form, bin and index read back exactly when the index leaves the bin's bits clear |
| `BinSlots.StoreSlot` | art/compiler/image_writer.cc:270-301 | overwriting one lock word changes the slot of that object and no other |
| `ImageHeap.PrepareTiles` | art/compiler/image_writer.cc:303-338 | dex cache arrays get aligned, disjoint ranges inside their bin |
| `ImageHeap.PrepareSums` | art/compiler/image_writer.cc:303-338 | the bin is exactly as large as its arrays together |
| `ImageHeap.ArraySize` | art/compiler/utils/dex_cache_arrays_layout-inl.h:76-80 | array sizes are positive multiples of the object alignment |
| `ImageHeap.ArraysOfCache` | art/compiler/utils/dex_cache_arrays_layout-inl.h:30-38 | the arrays of a dex cache follow each other, types, methods, strings, fields, from the start registered for its dex file |
| `ImageAlloc.OwnSlotApart` | art/compiler/image_writer.cc:357-478 | a newly assigned slot does not touch the slot of any other object |
| `ImageAlloc.AssignKeepsInv` | art/compiler/image_writer.cc:463-477 | assigning a slot keeps all slots aligned, disjoint and inside their bins, and grows bins and image by the object's size once |
| `ImageAlloc.ShareKeepsInv` | art/compiler/image_writer.cc:718-728 | pointing a duplicate string to its twin's slot keeps the invariant and allocates nothing |
| `ImageAlloc.AddNativeKeepsPlaced` | art/compiler/image_writer.cc:870-876 | placing a record keeps records disjoint, and their bins exactly filled by them |
| `ImageAlloc.EndIsSumOfBins` | art/compiler/image_writer.cc:935-947 | with all objects visited the image ends at the start plus the sum of the mirror bins, which is the sum of all distinct slots |
| `ImageAlloc.OffsetsInImage` | art/compiler/image_writer.cc:243-253 | final offsets are aligned, after the header and inside the image; a string has its twin's offset |
| `ImageAlloc.OffsetsApart` | art/compiler/image_writer.cc:243-253 | two objects share an offset when they are duplicates of one string and lie apart otherwise |
| `ImageAlloc.RecordsFollowObjects` | art/compiler/image_writer.cc:951-956 | field and method records follow all objects and are pairwise disjoint |
| `ImageAlloc.DexCacheArraysAtFixedOffsets` | art/compiler/image_writer.h:79-85 | in the finished layout the arrays of each dex cache lie at fixed distances from the start registered for its dex file, as compiled code assumes |
| `ImageWalk.NewSlotFits` | art/compiler/image_writer.cc:466-472 | if each mirror bin fits the index bits, every slot handed out can be stored in a lock word |
| `ImageWalk.PlaceKeeps` | art/compiler/image_writer.cc:709-733 | placing an object gives slots to it and its interned twin only, moves none, and keeps the invariant |
| `ImageWalk.AddAllKeeps` | art/compiler/image_writer.cc:824-855 | placing fresh records adds exactly those and keeps the invariant |
| `ImageWalk.VisitKeeps` | art/compiler/image_writer.cc:801-868 | one visit with its children keeps the invariant, moves nothing, and places all records of newly visited classes exactly once |
| `ImageWriters.ImageWriter.AssignRecords` | art/compiler/image_writer.cc:870-876 | records get consecutive places, none twice |
| `ImageWriters.ImageWriter.AnyDirty` | art/compiler/image_writer.cc:844-850 | an array of methods is dirty exactly when one of its methods will be |
| `ImageWriters.ImageWriter.WalkChildren` | art/compiler/image_writer.cc:779-798 | walking the references of an object keeps the invariant and moves nothing |
| `ImageWriters.ImageWriter.SetImageBinSlot` | art/compiler/image_writer.cc:270-301 | the hash code is saved before the lock word is overwritten; exactly one slot is added |
| `ImageWriters.ImageWriter.ChooseBin` | art/compiler/image_writer.cc:370-461 | the branches and the scan of static fields choose the specified bin |
| `ImageWriters.ImageWriter.AssignImageBinSlot` | art/compiler/image_writer.cc:357-478 | assigns as the allocator specification says and keeps the invariant |
| `ImageWriters.ImageWriter.CalculateObjectBinSlots` | art/compiler/image_writer.cc:709-733 | interned strings reached through a duplicate are assigned early; the duplicate gets the same slot |
| `ImageWriters.ImageWriter.AssignClassRecords` | art/compiler/image_writer.cc:824-855 | fields, then direct and virtual methods, dirty as a whole if one of them is, get consecutive places |
| `ImageWriters.ImageWriter.WalkFieldsInOrder` | art/compiler/image_writer.cc:801-868 | ends on every cyclic heap (the number of objects without a slot decreases), gives no object two slots, and keeps the invariant |
| `ImageWriters.ImageWriter.PrepareDexCacheArraySlots` | art/compiler/image_writer.cc:303-338 | the loop registers every array at its layout offset, the start of every dex cache, and the bin's size |
| `ImageWriters.ImageWriter.AssignAllSlots` | art/compiler/image_writer.cc:918-933 | after visiting the heap every object has a slot and every record a place |
| `ImageWriters.ImageWriter.SumBins` | art/compiler/image_writer.cc:935-940 | the running sums are the bytes in the bins before each bin |
| `ImageWriters.ImageWriter.UnbinObjectsIntoOffset` | art/compiler/image_writer.cc:890-900 | one lock word changes from slot to offset |
| `ImageWriters.ImageWriter.UnbinAll` | art/compiler/image_writer.cc:890-900 | every lock word then holds the object's final offset |
| `ImageWriters.ImageWriter.RelocateRecords` | art/compiler/image_writer.cc:951-956 | every record's entry then holds its final offset |
| `ImageWriters.ImageWriter.CalculateNewObjectOffsets` | art/compiler/image_writer.cc:902-964 | from the untouched heap to a complete layout with all offsets and hash codes stored |
| `ImageWriters.ImageWriter.CreateSections` | art/compiler/image_writer.cc:966-1011 | sections tile up to the interned strings, fields and methods begin where their bins do, and the oat file begins on the page after them |
| `ImageWriters.OatFollowsImageIff` | art/compiler/image_writer.cc:1009-1011 | the check that the oat file is right after the image passes exactly when the image begins on a page |
| `ImageWriters.ImageWriter.CopyAndFixupObject` | art/compiler/image_writer.cc:1162-1180 | the object's place in the image becomes its fixed-up copy and nothing else changes |
| `ImageWriters.ImageWriter.FixupNativePointers` | art/compiler/image_writer.cc:1129-1160 | rewrites exactly the native pointers of the copy, in place |
| `ImageWriters.ImageWriter.FixupReferences` | art/compiler/image_writer.cc:1182-1195 | rewrites exactly the references of the copy, in place |
| `ImageWriters.ImageWriter.CopyAndFixupObjects` | art/compiler/image_writer.cc:1111-1121 | the result is an image of the heap; hashed objects get their lock words back |
| `ImageWriters.LayoutIsWellPlaced` | art/compiler/image_writer.cc:902-964 | the calculated layout leaves every copy its own room inside the image |
| `ImageWriters.ImageWriter.WriteImage` | art/compiler/image_writer.cc:520-529 | with everything laid out, the allocated memory ends up as an image of the heap |
| `ImageWriters.WriteHeapImage` | art/compiler/image_writer.cc:902-1127 | end to end: from any heap to an image of it, with its lock words, unless the image would not end in the low 4 GiB |
| `ImageExample.SmallHeapIsWellFormed` | art/compiler/image_writer.cc:709-733 | a heap with a cycle, shared strings and records meets every assumption made about heaps |
| `ImageCopy.ReferencePreserved` | art/compiler/image_writer.cc:1182-1195 | for every object and reference field the image word is null or the image address of the target |
| `ImageCopy.NativePointerPreserved` | art/compiler/image_writer.cc:1129-1160 | every native pointer is null or the image address of its record |
| `ImageCopy.LockWordPreserved` | art/compiler/image_writer.cc:1174-1178 | an object without duplicates keeps its hash code or default lock word |
| `ImageCopy.PlainBytePreserved` | art/compiler/image_writer.cc:1162-1172 | all other bytes are the object's own |
| `ImageCopy.AllCopied` | art/compiler/image_writer.cc:1111-1127 | no copy disturbs another one, in whatever order objects are visited |
| `ImageCopy.ImageIsComplete` | art/compiler/image_writer.cc:1111-1127 | when every object was visited the result is an image of the heap |
| `ImageCopy.PathsPreserved` | art/compiler/image_writer.cc:1111-1195 | every path of reference fields reaches in the image the copy of what it reaches in the heap |
| `ImageCopy.SameAddressIff` | art/compiler/image_writer.cc:709-733 | two objects have one image address exactly when they are duplicates of one interned string |
| `ElfHash.StringTable.AddName` | art/compiler/elf_builder.h:276-281 | appends the name and its terminator and returns where it starts |
| `ElfHash.NamedAfterAppend` | art/compiler/elf_builder.h:276-281 | names read through the table stay the same when more names are added |
| `ElfHash.SymbolTable.AddSymbol` | art/compiler/elf_builder.h:302-309 | every symbol's name stays readable at its index as long as offsets fit a word |
| `ElfHash.SymbolTable.WriteNames` | art/compiler/elf_builder.h:325-344 | the name fields of the entries, after the null symbol |
| `ElfHash.BranchFreeFold` | art/compiler/elf_builder.h:475-486 | the branch-free hash step is the gABI's step |
| `ElfHash.HashStep` | art/compiler/elf_builder.h:480-483 | one round of the loop is one gABI step |
| `ElfHash.HashOf` | art/compiler/elf_builder.h:475-486 | the loop computes the gABI hash of the name up to its first NUL |
| `ElfHash.NumBuckets` | art/compiler/elf_builder.h:460-472 | at least two buckets, an even number, about 32 symbols each in large tables |
| `ElfHash.FirstOfBucket` | art/compiler/elf_builder.h:440-441 | a symbol that starts its bucket changes exactly the bucket's head |
| `ElfHash.LastOfBucket` | art/compiler/elf_builder.h:442-453 | any other symbol changes exactly the link of the bucket's last symbol |
| `ElfHash.Insert` | art/compiler/elf_builder.h:435-455 | the chain walk ends, stays inside the chain, and extends the table by one symbol |
| `ElfHash.WriteHash` | art/compiler/elf_builder.h:418-456 | the array is the specified table of heads and links |
| `ElfHash.GetSym` | art/compiler/elf_builder.h:405-414 | for every symbol list the documented lookup ends, finds the first symbol with the name read through the string table, and reports absence exactly when there is none |
| `ElfHash.WriteAndFind` | art/compiler/elf_builder.h:302-456 | end to end: adding any list of symbols, writing the three tables and looking a name up in them gives the first symbol of that name, or none exactly when there is none |
| `ElfHash.EveryIndexOnce` | art/compiler/elf_builder.h:416-417 | over buckets and chains each index 1..n occurs exactly once and the undefined index once more than there are buckets |
| `ElfLayout.LayOut` | art/compiler/elf_builder.h:651-679 | the loop computes the specified headers and file end |
| `ElfLayout.FileRange` | art/compiler/elf_builder.h:661-665 | for every section list, file ranges are aligned, after the reserved headers, ascending and disjoint |
| `ElfLayout.LoadRange` | art/compiler/elf_builder.h:666-670 | the same for memory ranges |
| `ElfLayout.AddressesAreOffsets` | art/compiler/elf_builder.h:656-670 | while every section takes file and memory, address and file offset agree |
| `ElfLayout.WriteSections` | art/compiler/elf_builder.h:730-757 | all seeks go forward, the last one to the section header table behind everything else; headers are not overwritten, and every section and the section header table read back at their offsets |
| `ElfLayout.SameOffsetsThroughText` | art/compiler/elf_builder.h:606-670 | through `.text` each section's address is its file offset |
| `ElfLayout.TextFollowsRodataIff` | art/compiler/elf_builder.h:651-679 | `.text` starts at `.rodata`'s end exactly when the executable offset is a page multiple |
| `ElfLayout.OneOffsetSpace` | art/compiler/elf_writer_quick.cc:148-155 | an offset past the executable offset denotes the same place counted from `.rodata` or from `.text` |
| `ElfLayout.FindSection` | art/compiler/elf_builder.h:763-770 | the first registered section of a name; none exactly when no registered section has it |
| `ElfLayout.AtMostEightHeaders` | art/compiler/elf_builder.h:687-717 | whatever is registered, there are at most eight program headers and they fit the space reserved |
| `ElfLayout.FramesContiguousIff` | art/compiler/elf_builder.h:703-707 | the no-gap check passes exactly for frames of whole words |
| `ElfLayout.LoadsAre` | art/compiler/elf_builder.h:687-713 | the loadable segments are those for read-only data, text, bss if any, dynamic data, and frames if any, in that order |
| `ElfLayout.LoadsAligned` | art/compiler/elf_builder.h:691-713 | each starts on a page with its file offset congruent to its address |
| `ElfLayout.LoadsApart` | art/compiler/elf_builder.h:691-713 | they ascend and never share a page |
| `ElfLayout.LoadsCover` | art/compiler/elf_builder.h:691-713 | every section that takes memory is mapped by one of them, content at the right address |
| `Unwind.Patch` | art/compiler/elf_writer_quick.cc:119-137 | the loop patches the listed words in place, in the arithmetic of the word size |
| `Unwind.PatchWordInPlace` | art/compiler/elf_writer_quick.cc:122-136 | one word is rewritten byte by byte, all other bytes stay |
| `Unwind.PatchSetsWords` | art/compiler/elf_writer_quick.cc:119-137 | each listed word gets its patched value, computed from what it held before |
| `Unwind.PatchKeepsRange` | art/compiler/elf_writer_quick.cc:119-137 | bytes outside the listed words stay |
| `Unwind.CfiWriter.WriteFde` | art/compiler/dwarf/headers.h:76-107 | appends one padded entry whose length is filled in last |
| `Unwind.FramesLaidOut` | art/compiler/elf_writer_debug.cc:181-193 | entries follow each other without overlap, and each patch location is its entry's address field |
| `Unwind.CfiWriter.WriteCfiSection` | art/compiler/elf_writer_debug.cc:168-224 | frames, search table and both patch lists are the specified ones |
| `Unwind.TableIsOrdered` | art/compiler/elf_writer_debug.cc:183-193 | the table lists every kept method in order of address with the offset of its entry |
| `Unwind.MethodsAscend` | art/compiler/oat_writer.cc:452-465 | methods that are not duplicates have disjoint, strictly increasing code ranges |
| `Unwind.OatMethodsUnwind` | art/compiler/oat_writer.cc:452-466 | the methods of every oat file meet the conditions under which the table is ordered |
| `UnwindLookup.TableDecodesIff` | art/compiler/elf_writer_debug.cc:212-222 | a reader that sign-extends the table's words in pointer-wide arithmetic gets every method's address and entry if and only if the table is 32-bit or lies at most 2^31 bytes above the first method |
| `UnwindLookup.HdrPointsToFramesIff` | art/compiler/elf_writer_debug.cc:197-211 | after patching, version and encodings are still the ones a reader expects, the count is the number of entries, and the sign-extended pointer leads to the frames exactly when they are within 2^31 bytes |
| `UnwindLookup.FdeReads` | art/compiler/dwarf/headers.h:76-107 | after patching, the entry of a method answers for exactly the addresses of the method's code, with its padded opcodes |
| `UnwindLookup.LookupFinds` | art/compiler/elf_writer_debug.cc:168-224 | within reach, a lookup from the table's first byte on, by the greatest entry not above the address, gives the opcodes of the method the address lies in |
| `UnwindLookup.LookupFindsNothing` | art/compiler/elf_writer_debug.cc:168-224 | within reach, a lookup at an address in no method that has an entry gives nothing |
| `UnwindLookup.OutOfReachIsLost` | art/compiler/elf_writer_debug.cc:204-222 | out of reach, a lookup at the first method's own first address finds nothing |
| `OatElf.CodeLoadsAtItsOffset` | art/compiler/elf_writer_quick.cc:148-155 | a method's offset in the oat data is its distance from `.rodata` in memory |
| `OatElf.TableBehindFrames` | art/compiler/elf_builder.h:703-707 | frames as written end on a word, so the no-gap check passes |
| `OatElf.UnwindingIsValid` | art/compiler/elf_builder.h:651-713 | the unwinding sections of an ELF file whose table ends below 2^32, or below 2^63 on 64-bit targets, meet the assumptions about what was written |
| `OatElf.LookupFindsServer` | art/compiler/elf_writer_debug.cc:183-193 | in the ELF file of an oat file within reach, at every address in the code of any method, placed or duplicate, a lookup gives the call frame information of the method that was placed there, or nothing if that one has none |
| `OatElf.UnwindsIff` | art/compiler/elf_writer_debug.cc:168-224 | in a file with debug information every method, placed or duplicate, unwinds by its own call frame information at all of its addresses if and only if the table is within reach and methods with equal keys have equal call frame information (or code is debuggable) |
| `OatExample.SharedFrameIsWrong` | art/compiler/oat_writer.cc:430-435 | a finished file, with all assumptions about files met, in which the second of two methods with one key reads back the frame of the first |
| `OatExample.SharedCfiIsWrong` | art/compiler/elf_writer_debug.cc:183-193 | an arm64 file, within reach, with two methods that differ in nothing but their call frame information, of which one does not unwind by its own |
| `OatElf.LargeBssIsOutOfReach` | art/compiler/elf_builder.h:613-621 | 2 GiB of `.bss`, which lies between code and frames, put the search table of a 64-bit file out of reach |
| `OatExample.FarTableIsLost` | art/compiler/elf_writer_debug.cc:204-222 | an arm64 file whose methods agree on everything and in which a lookup at the first method's first address finds nothing |
| `Unwind.RecordedInfos` | art/compiler/oat_writer.cc:452-466 | the debug information recorded while planning, converted entry by entry, is the list of methods that the unwinding sections are specified for |
| `OatUnwind.MapSections` | art/compiler/elf_writer_quick.cc:119-137 | frames and table are patched in place for the addresses the layout gives them |
| `OatUnwind.WriteAndUnwind` | art/compiler/elf_writer_quick.cc:140-213 | end to end, from an unplanned oat writer through planning, writing, layout and patching to a reader: if sizes and addresses are in range, every method unwinds by its own call frame information exactly when the table is within reach and methods with equal keys agree |

## Left out

- Erratum 843419 thunks of the arm64 patcher: the ADRP thunks placed after methods are not modelled.
- RelativeReach.CallReachesIff: a call must be able to reach the end of its own method and a thunk right before it, call patches must be in the order of their places (art/compiler/dex/quick/codegen_util.cc:1156 sorts them), no method may be visited twice, and offsets must be below 2^31; the patcher does not check any of these.
- RelativeLinks.CallInFileLeads: patches after a call must not overlap it, and its literal offset and a trampoline it may go to must be aligned, as patching checks.
- Oat files of 4 GiB or more: specifications are unbounded, but the in-place passes require that the planned size fits 32 bits.
- Code no longer than the Thumb bit: the writing pass cannot tell such a duplicate from a new method, so code sizes must exceed the bit.
- Instruction encodings: `PatchDexCacheReference` and the calls of x86 are function-valued fields that give the patched word.
- Checksums, size statistics, logging and timing: they do not affect layout.
- Failing output streams: the write paths are modelled for streams that do not fail.
- Headers, dex files and lookup tables at the front of the oat file, the offsets of class records among them: they are one block of bytes of given size.
- `method_offset_map_`: a finite map rather than a sorted one; only lookup and first insertion are used.
- Heap-walk order of static fields: which reference fields a walk follows, and in which order, is a parameter of each object; every choice is covered because the whole heap is visited.
- Interning itself: the interned twin of a string is given, idempotent, and equal to the string except in the lock word.
- Lock words of duplicate strings: whichever duplicate is copied last decides, so nothing is claimed about them.
- Contents of copied field and method records, class pruning, image header bytes, the image bitmap and the serialized intern table: only their place in the image is modelled.
- A mirror bin of more than 128 MiB: bin indexes must fit their bits, as the source asserts.
- Unwinding tables of 64-bit files beyond 2^63: addresses are assumed to be below that, and below 2^32 in 32-bit files.
- SrcMaps.CompressionKeepsLookupIff: inputs that do not ascend are left out. The insertion check compares with the last stored element only, so it lets an address below an ignored one pass; a binary search in such an input has no meaning that compression could keep.
- Images beyond 4 GiB: image addresses must fit 32 bits.
- ImageWriters.ImageWriter.AssignClassRecords: the numbers of clean and dirty methods kept for logging are not modelled.
- ElfHash.WriteHash: for fewer than 2^32 - 1 symbols, so that indexes fit their words.
- Symbol values, sizes and bindings, `.dynamic` tags, section names and the ELF header's fields: easy members that add no law.
- Debug sections other than `.eh_frame` and `.eh_frame_hdr`: they take file space in the layout and are not described.
- The `.debug_frame` format: frames are modelled in the `.eh_frame` format, which is the one with a search table.
- The CIE: a non-empty block of bytes of whole words at the start of `.eh_frame`; only the one for arm64 is written out.
- ELF files of 4 GiB or more for 32-bit targets: file cursors are unbounded, while such a file has 32-bit offsets.
- Little-endian targets only, as the source writes host words.
- Barrier: each critical section is one atomic step; fairness is not assumed, so what is proved about leaving is that steps exist and make progress.
- Command line, disassemblers, oatdump and imgdiag: not part of this model.
