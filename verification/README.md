# A log-structured persistent heap, and the trees it is measured with

The repository keeps objects in persistent memory as a log. The memory is cut into segments of 4 KiB, threaded through singly
linked lists (free, used, cleaner, emergency) and one head segment. Storing or changing an object appends a versioned entry at
the head; a table in ordinary memory maps each id to the offset of its newest entry. A cleaner thread copies live entries out of
sparse segments and recycles those. After a crash the table is rebuilt by scanning; after an orderly shutdown it is read back
from a file. The benchmark beside it holds a B+ tree and a B-tree that split full nodes on the way down.

This project models the heap and the two in-memory trees, and proves that they do what they are for:

* **The heap is a map.** `LogState` has every operation as a function on states, with a cleaner that takes one step at a time;
  `LogInvariant`, `LiveBytes`, `ClientSteps` and `CleanerSteps` show what each step keeps, and exactly when; `LogRuns` puts steps
  in any order and arrives at a plain map from ids to bytes. `EqualSizes` does so for objects of one length with nothing asked of
  the cleaner, and `Versions` says by the calls alone when an object may be freed. `OutOfSpace` says how long a failure lasts, and
  `GeneratedIds` that no generated id comes twice. `Targets`, `CleaningPass`, `ClearPass` and `Selection` show that the cleaner
  gets its segments, takes the right ones and gets done, `Addresses` that offsets mean what they should, and `Structs` where the
  sizes of the headers come from.
* **The memory does what the functions say.** `HeapMemory` has the log with its links, tails, counters and offsets, the bytes of
  every data area, and the cleaner's local variables, changed in place by methods that follow the code: entries are written, copied
  and marked as bytes, and read back from them. Each method is proved against its function. `HeapRuns` makes any sequence of calls
  and cleaner steps on that memory, from a mapping with any bytes in it, and arrives at the same map, with every byte as the state
  says. `Links`, `Chains` and `Offsets` carry the linked lists and the offset table, `SegmentBytes`, `SegmentReads`,
  `SegmentWrites` and `StoredSegments` the bytes, `Numbering` the numbers in the headers, `LogSize` the arithmetic of `init_log`,
  `IdGen` that of `gen_id`.
* **What a crash loses.** `Recovery` and `Crashes` say exactly when rebuilding the table restores it, for given bytes and for all
  bytes there may be; `TableFile` is about writing and reading the table.
* **No deadlock, and nothing shared without its mutex.** `LockOrder` has the ways through each operation, what they do with the
  mutexes and what they do under them, and finds on them whatever a step of the heap changes.
* **The trees are maps.** `BPlusShape`, `BPlusStore` and `BPlusSteps` have the B+ tree as a value, its nodes and leaf chain, and what
  a step of an insertion changes; `BPlusTree` has the nodes with their arrays, split and shifted in place. `BTreeShape`, `BTreeSteps`
  and `BTree` do the same for the B-tree; `TreesAgree` compares the two. `Pairs` and `Arrays` are shared.

A segment is recycled without a change to its bytes, and written to again from its beginning. So a scan, which goes on to a zero
length or to where no header fits, may come to entries from an earlier use. The head is given up with a zero length behind its
entries, but the cleaner gives up its target without one. The state therefore has, behind the entries of a segment, what a scan
finds there (`LogState.Behind`), and `SegmentBytes` proves of the bytes that this is what writing, giving up and recycling leave.

`HeapIsAMap`, `RunRefines`, `StepRefines`, `CleanKeeps` and `OneNewTarget` are about runs in which no scan is at such an old entry
while it is unmarked and not older than the newest version of its object, nor at bytes of which nothing is known
(`CleanerSteps.ScanSafe`). `PassEnds` stops a pass that comes to one; `ClearPassEnds` and `CleanPass` are about passes that come to
none, by a condition on the state they start from (`ClearPass.Clear`). The code does not see to that: `StaleRun` has a run from a new log on, all of whose calls are in order, in which the cleaner goes through a null pointer.
A segment whose scan ends with its own entries is safe (`TerminatedIsSafe`), and with objects of one length all are (`EqualSizes`).

Three uses of the heap are outside the conditions on calls (`LogRuns.Allowed`), and `Misuse` shows what becomes of them: on runs from
a new log on, freeing an object that still has an older unmarked version, and updating an object when there is no room; with an exact
condition, storing an object that does not fit a segment. In all these runs the cleaner starts when as many segments are used as
`wait_to_start_cleaning` asks for. `LogRuns.StepExact` says for all states in order that a step keeps the heap in order if and only
if it is allowed. A step that is not allowed need not be noticed at once: `CleanerSteps.CleanUnnoticed` says exactly when a scan
that goes on changes no object.

A segment that the cleaner gave up as target may end in bytes of which nothing is known, and recovery, which scans every used
segment, would take them for entries. `Crashes.RecoveryOfAnyBytes` says when that cannot happen: the table comes back from any bytes
that there may be, if and only if the state is safe by what is known of it and every scan of a used segment is known to end.
That is so until the cleaner has taken a segment (`PristineIsSafe`), and need not be so later (`FreedObjectReturns`). These results
are about the two passes of recovery over the used segments and the head. The third pass, over the cleaner's segments, is not
modelled: where there is such a segment, the code reads the first one over and over and never comes to an end
(project/hash_table.c:92).

The sizes are those on a 64-bit machine: log header 128, segment header 24, entry header 32 bytes. The minimum degree of the trees is
any `d >= 2`.

`dafny verify dfyconfig.toml` checks everything.

## Model

| member | source | states |
|---|---|---|
| `LogRuns.HeapIsAMap` | project/log_pmem.c:165-320 | From a new log on, any interleaving of palloc, palloc_with_id, update_data, pfree and single cleaner steps, each of them allowed when it is made, completes, keeps the invariant, and leaves exactly the objects that the same calls leave in a plain map; a cleaner step is allowed unless the scan is at an entry from an earlier use of the segment that it would take for a live one, or at bytes of which nothing is known |
| `LogRuns.RunRefines` | project/log_pmem.c:165-320 | The same from any state that satisfies the invariant, under the same condition on what each scan comes to |
| `LogRuns.StepRefines` | project/log_pmem.c:165-320 | Each allowed client call is insert, overwrite or remove on the map and succeeds exactly when it has data and room; each allowed cleaner step changes nothing a client can see |
| `LogRuns.StepExact` | project/log_pmem.c:165-320 | In a state that satisfies the invariant a step completes and keeps it if and only if it is allowed: none of the conditions on calls and scans can be weakened without giving up the invariant |
| `EqualSizes.HeapIsAMap` | project/cleaner.c:94-158 | When all objects have one length, the heap is a map with no condition on the cleaner at all: runs are restricted by what each call must observe only |
| `EqualSizes.EvenIsSafe` | project/cleaner.c:104-128 | With objects of one length, every segment that is scanned is full, and a scan of it ends with its own entries |
| `Versions.NotUpdatedMayBeFreed` | project/log_pmem.c:238-260 | By the history of the calls alone: an object that was stored and not updated since may be freed |
| `Versions.StepVersions` | project/log_pmem.c:210-310 | What a call does to the versions: storing starts one at 1, every change raises it by 1, freeing ends it, cleaning changes none |
| `LogRuns.ReachableLists` | project/cleaner.c:187-410 | In every reachable state head, free, used, cleaner and emergency list hold every segment exactly once, and the emergency counter is the length of its list and within its cap |
| `LogRuns.ReachableCounts` | project/log.c:107-114 | In every reachable state used_space is the exact size of the entries the table points to in that segment; only the segment being cleaned may count more |
| `LogRuns.FormattedInv` | project/log.c:16-80 | A newly initialised log satisfies the invariant and holds no object, whatever bytes the mapping holds |
| `ClientSteps.NewKeeps` | project/log_pmem.c:165-198 | palloc adds exactly its object if it has data and there is room, and otherwise changes no object; the invariant is kept either way, unless the entry runs over the end of a segment |
| `ClientSteps.UpdateKeeps` | project/log_pmem.c:271-320 | update_data overwrites exactly its object if there is room; if not, no object changes, and the invariant survives if and only if the old version lies in the segment being cleaned and that segment overcounts by at least its size |
| `ClientSteps.PutKeeps` | project/log_pmem.c:200-236 | palloc_with_id stores or overwrites exactly its object, and fails exactly without data or room; the invariant survives a failure unless the object was stored and its old version was counted once |
| `ClientSteps.FreeKeeps` | project/log_pmem.c:238-260 | pfree removes exactly its object; the heap stays in order if and only if no older version of it is unmarked where the cleaner may still come across it |
| `ClientSteps.FirstVersionIsOnly` | project/log_pmem.c:238-260 | An object at its first version has no older one that is unmarked |
| `ClientSteps.DiscountNoUnderflow` | project/log_pmem.c:298-303 | The subtraction from used_space never underflows |
| `ClientSteps.PublishKeeps` | project/log.c:82-117 | Appending an entry newer than any of its object, and pointing the table to it, keeps the invariant and sets that object |
| `ClientSteps.PublishFails` | project/log.c:82-117 | Appending fails only when there is no room, and then nothing but head, free and used list, and a zero length behind the old head, has changed |
| `LogInvariant.NextHeadShape` | project/log.c:119-162 | Changing the head keeps every segment in exactly one place: the old head goes to the end of the used list in any case, the first free segment becomes the head, and if there is none there is no head any more |
| `LogInvariant.MakeRoomShape` | project/log.c:86-105 | Before an entry is written the head has room for it, exactly when it fits the head or a segment is free, unless it is too long for any segment; the zero length behind a head that is given up changes no entry |
| `OutOfSpace.FailureLeavesNoSpace` | project/log.c:86-143 | A call that has something to store and finds no room leaves no head and no free segment, so that no entry whatever has room any more; the old head is on the used list, where the cleaner can reach it |
| `OutOfSpace.FailsUntilRecycled` | project/log.c:86-143 | From there on every storing call of any admissible run fails, however short, as long as the cleaner recycles no segment |
| `OutOfSpace.RecyclingMakesRoom` | project/cleaner.c:361-376 | A segment recycled while the reserve is full makes room for any entry that fits a segment |
| `LogInvariant.InvIsSane` | project/cleaner.c:94-158 | In a state that satisfies the invariant no operation follows a wild pointer |
| `LiveBytes.LiveForget` | project/log_pmem.c:252-258 | Forgetting an object takes its share, and nothing else, out of the live bytes of a segment |
| `CleanerSteps.CleanKeeps` | project/cleaner.c:94-158 | A cleaner step neither dereferences a missing entry nor waits for a segment, and keeps the invariant, if and only if the scan is not at an old entry that it would take for a live one, nor at bytes of which nothing is known; then no object changes |
| `CleanerSteps.CleanUnnoticed` | project/cleaner.c:104-140 | From a state that satisfies the invariant, a cleaner step goes through without changing an object if and only if no unknown bytes are read, and an old entry that is scanned is harmless, or has the bytes its object has anyway and room to be copied |
| `CleanerSteps.StaleIs` | project/cleaner.c:107-128 | An entry from an earlier use of the segment is passed over without harm if and only if it is marked, or its object is stored in a newer version |
| `CleanerSteps.TerminatedIsSafe` | project/cleaner.c:110-113 | Where nothing old lies behind the entries of the scanned segment and the scan is known to end there, every step of it is safe |
| `CleanerSteps.SkipScan` | project/cleaner.c:103-103 | A segment that counts no bytes holds nothing the table points to, so its scan may be skipped |
| `CleanerSteps.CopiedIsCurrent` | project/cleaner.c:115-119 | An unmarked entry that is scanned is in the table, and the version test holds exactly for the entry the table points to |
| `CleanerSteps.TargetRoomKeeps` | project/cleaner.c:120-128 | When the target has no room, a new one is there, and it has room for all that is left to move out of the segment |
| `CleanerSteps.CopyEntry` | project/cleaner.c:115-140 | Copying a live entry keeps the invariant and all objects |
| `CleanerSteps.RetireKeeps` | project/cleaner.c:145-152 | Recycling the scanned segment takes nothing from the table |
| `CleanerSteps.RecycleShape` | project/cleaner.c:361-376 | After a segment is recycled the reserve is full |
| `CleanerSteps.NewTargetKeeps` | project/cleaner.c:187-264 | A target is there unless free list and reserve are both empty; taking one keeps every segment in one place and the counter right |
| `Targets.OneNewTarget` | project/cleaner.c:103-143 | While one segment is scanned, whatever allowed calls clients make meanwhile, the target changes at most once, and not at all if it has room for the rest |
| `CleaningPass.PassEnds` | project/cleaner.c:96-158 | Without client calls, and with no entry longer than a data area less half of a segment's size, a pass over the growing used list ends after finitely many steps; every used segment then holds live bytes for at least half of its size, and counts no others; unless a scan comes to a harmful old entry or unknown bytes, where it stops with all objects as they were |
| `ClearPass.ClearPassEnds` | project/cleaner.c:96-158 | It does end so, twice the live bytes of every used segment being at least a segment's size, when every used segment worth cleaning is safe to scan at the outset and the target has no dead bytes: targets that are given up on the way are never scanned |
| `ClearPass.StepClear` | project/cleaner.c:104-128 | That condition is kept by every step of the pass, and makes the step safe |
| `CleaningPass.StepWalks` | project/cleaner.c:98-158 | Each step of the pass makes the remaining work smaller |
| `Selection.WalkSelects` | project/cleaner.c:98-103 | At a used segment the cleaner passes by if and only if twice its count is at least the segment's size, recycles it at once if and only if the count is 0, and otherwise scans it from its first entry |
| `Selection.DenseStays` | project/cleaner.c:153-158 | However long the cleaner goes on without clients, a used segment that counts at least half of its size is neither scanned nor recycled, and keeps its entries and its place on the used list |
| `Selection.DenseOrder` | project/cleaner.c:153-158 | Two such segments keep their order on the used list |
| `Selection.EmptyIsRecycled` | project/cleaner.c:103-152 | A segment that counts nothing is recycled in two steps, whatever a scan of it would come to |
| `Addresses.AddrDivides` | project/log_pmem.c:253-254 | The division recovers the segment of an offset, and the remainder its position |
| `Addresses.EntryInSegment` | project/log.c:107-114 | Every entry lies wholly in the data area of its segment, at an offset that is not null and from which the segment is recovered |
| `Addresses.EntriesDisjoint` | project/log.c:107-114 | The bytes of two entries never overlap |
| `Structs.EntryLayout` | project/log_pmem_types.h:26-32 | Laid out by the alignment rules of a 64-bit machine, the entry structure has the size of the entry header and its fields, and the bytes behind them, the offsets that are used |
| `Structs.HeaderSizes` | project/log_pmem_types.h:34-57 | The same for the segment header and the log header |
| `Misuse.FreeAfterUpdateCrashes` | project/cleaner.c:116-119 | A concrete run: freeing an object that was updated before leads the cleaner through a null pointer |
| `Misuse.StoringAgainRevives` | project/log_pmem.c:220-222 | A concrete run: storing a freed object again at version 1 lets the cleaner bring back its first bytes |
| `Misuse.FailedUpdateLosesObject` | project/cleaner.c:103-146 | A concrete run, allowed up to an update that fails for lack of room: the cleaner recycles the segment the object still lies in, and the table points nowhere |
| `Misuse.OversizeOverflows` | project/log.c:93-109 | A successful palloc keeps the invariant if and only if its entry fits an empty segment |
| `StaleRun.StaleEntryCrashes` | project/cleaner.c:111-128 | A concrete run in which every call and every step but the last is allowed: the cleaner, which writes no zero length behind a target it gives up, later reads there an entry of a freed object from an earlier use, and goes through a null pointer |
| `IdGen.UsableIdExists` | project/log.c:164-176 | There is a usable id as long as fewer objects are stored than there are nonzero ids |
| `HeapMemory.Heap.GenId` | project/log.c:164-176 | Terminates whenever a usable id exists, wrapping at 64 bits, returns the first nonzero id from the counter on that is not in the table, and leaves the counter behind it |
| `LogSize.CarvedInBounds` | project/log.c:36-61 | Every carved segment lies within the mapping |
| `LogSize.CarvedAsExpected` | project/log.c:36-61 | As many segments are carved as the check expects, if and only if the log exceeds whole segments by nothing or by at least a header |
| `LogSize.PagesAreConsistent` | project/log_pmem.c:77-82 | For a mapping of whole pages that passes the size test the two counts agree |
| `HeapMemory.Heap.constructor` | project/log.c:16-80 | From a mapping with any bytes in its data areas, init_log leaves these bytes, and linked lists, counts and positions that stand for a new log with those ends that the bytes make known; the counter for ids is 0 |
| `HeapMemory.ZerosFresh` | project/log.c:16-80 | From a mapping that is all zero, as that of a new file is, it is the log in which every scan is known to end at once |
| `HeapMemory.Heap.CarveSegments` | project/log.c:36-45 | The loop chains all segments but the reserve, each with a count of 0 |
| `HeapMemory.Heap.CheckConsistency` | project/log.c:178-208 | In every valid state the five list lengths add up to the number of carved segments, so the flag is set exactly if that number is the expected one |
| `HeapMemory.Heap.NextHeadSegment` | project/log.c:119-162 | The links, ends and head become what the specification of changing the head says; it fails exactly if nothing is free, and then the head is gone all the same and stands at the end of the used list |
| `HeapMemory.Heap.RoomAtHead` | project/log.c:82-105 | The branches of append_to_log before the entry is written, the zero length behind the old head included, against their specification |
| `HeapMemory.Heap.WriteAtHead` | project/log.c:107-116 | The bytes of the entry are copied behind those in the head, what they leave of old entries is what LogState.Past says, and count, position and offset follow |
| `HeapMemory.Heap.EndHeadSegment` | project/log.c:95-100 | A zero length is written into the bytes behind the entries of the head exactly if a header fits there |
| `HeapMemory.Heap.AppendToLog` | project/log.c:82-117 | The offset returned is that of the new last entry of the head, or 0 when no segment is to be had |
| `HeapMemory.Heap.Palloc` | project/log_pmem.c:165-198 | The id is the first usable one from the counter on, which moves behind it, also if storing then fails, and does not move otherwise; with that id it follows its specification; the invariant is kept if and only if the entry does not run over a segment, and then it succeeds exactly when there is room, and adds exactly its object |
| `HeapMemory.Heap.PallocWithId` | project/log_pmem.c:200-236 | Follows its specification; the invariant is kept if and only if the call is allowed, and then it fails exactly without data or room, and changes its object only |
| `HeapMemory.Heap.UpdateData` | project/log_pmem.c:271-320 | Follows its specification, on failure too; the invariant is kept if and only if the call is allowed, and then it fails exactly when the object is missing or there is no data or room, and changes its object only |
| `HeapMemory.Heap.Pfree` | project/log_pmem.c:238-260 | Follows its specification: removes exactly its object, and keeps the invariant if and only if no older version of it is unmarked |
| `HeapMemory.Heap.GetAddress` | project/log_pmem.c:262-269 | The bytes found by way of table, division and header are those of the object; nothing if there is none |
| `HeapMemory.Heap.GetNewCleanerSegment` | project/cleaner.c:187-223 | The first free segment, or failing that the first of the reserve, is linked behind the cleaner list, and tails that become empty are 0 |
| `HeapMemory.Heap.GetEmergencyCleanerSegment` | project/cleaner.c:225-264 | The first reserve segment is linked behind the cleaner list and the counter lowered |
| `HeapMemory.Heap.AppendCleanerSegmentToUsed` | project/cleaner.c:290-339 | A segment anywhere in the cleaner list is moved to the end of the used list, with both tails right |
| `HeapMemory.Heap.UsedToReserve` | project/cleaner.c:266-288 | A segment anywhere in the used list is moved to the end of the reserve |
| `HeapMemory.Heap.UsedToFree` | project/cleaner.c:364-392 | A segment anywhere in the used list is moved to the end of the free list |
| `HeapMemory.Heap.AppendCleanedSegmentToFree` | project/cleaner.c:341-410 | The segment is moved to the reserve if that is not full, to the free list otherwise; it counts and holds nothing, and its bytes stay |
| `HeapMemory.Heap.Unlink` | project/cleaner.c:378-392 | The four cases of taking a segment out of a list leave first and last right |
| `HeapMemory.Heap.StartCleaner` | project/cleaner.c:89-92 | The cleaner begins with a segment of its own |
| `HeapMemory.Heap.CleanEntry` | project/cleaner.c:107-141 | The cleaner step on one entry, an old one too if it is safe, on arrays and offsets, does what its specification says |
| `HeapMemory.Heap.CopyBytes` | project/cleaner.c:130-137 | The bytes of the entry that is scanned, copied behind those of the target, are read as that entry there, and the target counts them |
| `HeapMemory.Heap.ScanSegment` | project/cleaner.c:104-143 | The loop over a segment is a run of such steps, and stops at the zero length, or lack of space, behind all that a scan reads |
| `HeapMemory.Heap.CleanSegment` | project/cleaner.c:100-152 | Cleaning a segment that is safe to scan is a run of cleaner steps after which fewer segments are left to clean |
| `HeapMemory.Heap.CleanPass` | project/cleaner.c:96-158 | When the way is clear in the sense of ClearPass, the pass terminates, changes no object, and ends with twice the live bytes of every used segment at least a segment's size |
| `HeapRuns.Run` | project/log_pmem.c:165-320 | On the memory, any sequence of calls and single cleaner steps, allowed whatever ids are generated and short enough for versions to stay words, is a run of the heap; the objects it leaves are those of a plain map, and the bytes of every segment are those of its entries |
| `HeapRuns.RunNew` | project/log.c:16-80 | The same from a newly initialised log on that passes the consistency check, whatever bytes the mapping held; every id that palloc generates is higher than all it generated before |
| `GeneratedIds.NeverAgain` | project/log.c:164-176 | From a new log on, with fewer calls than ids, and whatever ids clients choose themselves and free, the counter does not wrap around and generated ids strictly increase: the id of a freed object is not generated again |
| `HeapRuns.Crash` | project/hash_table.c:27-88 | The table rebuilt from the bytes after a crash at any point of such a run is the lost one, offset for offset, if and only if heap and bytes are safe |
| `Numbering.StepNumbered` | project/log_pmem.c:305-306 | No version grows by more than one with a step, and ids stay words |
| `HeapRuns.Do` | project/log_pmem.c:165-320 | One call, or one step of the cleaner thread at its place in the code, turns the state that the memory stands for into the next one |
| `HeapRuns.StepCleaner` | project/cleaner.c:94-158 | Each turn of the loops of the cleaner is the step of the specification |
| `Chains.MoveLinks` | project/cleaner.c:303-333 | Relinking a segment from one list to the end of another keeps both lists properly linked |
| `Links.LinkedRemove` | project/cleaner.c:314-328 | Linking the predecessor to the successor takes exactly one segment out of a list |
| `Recovery.RecoverFinds` | project/hash_table.c:27-88 | Whatever the order of the used list, an object is recovered if and only if an unmarked entry of it is met, and then at the first met of its newest entries |
| `Recovery.MetInOrder` | project/hash_table.c:27-88 | The order in which entries are met, which decides between equally new ones: the used list in its order, then the head, each segment from its beginning |
| `Recovery.RecoveryIsExact` | project/hash_table.c:27-88 | At any time, and whatever the scans of used segments read behind the entries that are known: the used and head passes rebuild exactly the table that was lost if and only if no object lives in the segment of the cleaner, and every unmarked entry that is met though it was scanned already, is from an earlier use or was read out of unknown bytes, is older than the newest version of its object or met after it |
| `Crashes.RecoveryOfAnyBytes` | project/hash_table.c:27-88 | The table is rebuilt as it was from all bytes that agree with what is known of the segments, if and only if it would be by what is known alone and scans of all used segments are known to end; an unknown end leaves room for one more entry |
| `Recovery.FreedStaysFreed` | project/hash_table.c:27-88 | At any time, and whatever the scans read behind the known entries: a freed object stays freed over a crash if and only if no other unmarked entry of it is met |
| `Crashes.FreedWithAnyBytes` | project/hash_table.c:27-88 | With the mark set in the bytes, it stays freed whatever bytes there may be, if and only if no other unmarked entry of it is known where recovery scans and scans of all used segments are known to end |
| `Crashes.RunSurvivesCrash` | project/hash_table.c:27-88 | After any admissible run from any mapping the objects are those of the map, and the used and head passes over any bytes that may then be there restore the table if and only if state and bytes are safe in that sense, as they are until the cleaner has taken a segment |
| `Crashes.FreedObjectReturns` | project/hash_table.c:36-60 | A concrete admissible run, after which a crash brings back an object that was freed |
| `Crashes.PristineIsSafe` | project/hash_table.c:27-88 | Until the cleaner has taken a segment, every used segment is known to end a scan where its entries end, and recovery is exact whatever bytes the mapping held |
| `HeapMemory.Heap.ReconstructHashTable` | project/hash_table.c:27-88 | Walking the links and scanning the bytes of the used segments, unknown ones included, and of the head, computes the recovered table, as offsets |
| `HeapMemory.Heap.MeetSegment` | project/hash_table.c:36-60 | Scanning the bytes of a used segment up to a zero length or lack of space, or beyond the end by a length that leads there, enters one after the other the entries that SegmentReads.ReadOut has |
| `HeapMemory.Heap.MeetHead` | project/hash_table.c:63-87 | Scanning the bytes of the head up to the write position enters its entries one after the other |
| `HeapMemory.RebuiltTableIsOld` | project/hash_table.c:27-88 | The table rebuilt from given bytes equals the lost one offset for offset if and only if state and bytes were safe |
| `SegmentBytes.ScanIsExact` | project/hash_table.c:36-60 | Over arbitrary old bytes a scan parses back exactly the appended entries if and only if it stops where they end |
| `SegmentBytes.ScanIsSeen` | project/cleaner.c:104-142 | Where a scan is known to end, it yields the entries of the segment and then the old ones that the model has behind them, and nothing else |
| `SegmentReads.ReadOutSeen` | project/hash_table.c:36-60 | Recovery reads out of a segment all the entries that are known there, and then what the bytes behind them are taken for: nothing, where a scan is known to end |
| `SegmentReads.ReadOutSized` | project/hash_table.c:36-60 | Whatever the bytes, the entries that are read out lie one behind the other within the data area, the last one perhaps cut off, and none is without bytes |
| `SegmentBytes.AppendDescribed` | project/log.c:107-109 | What writing an entry leaves of the old ones behind: those whose beginning survives where the new entry ends, the zeros, or nothing that is known |
| `SegmentWrites.CopyDescribed` | project/cleaner.c:131-132 | An entry's bytes copied from one segment to another, without looking into them, are that entry there |
| `SegmentWrites.DescribedWith` | project/hash_table.c:36-60 | Where it is not known that a scan ends, there are bytes, as good as any by what is known, in which it reads one more entry of choice |
| `SegmentBytes.ZerosDescribed` | project/log.c:36-61 | Of an all-zero mapping, whose data areas init_log leaves alone, a scan of any segment finds nothing |
| `SegmentBytes.EmptiedDescribed` | project/cleaner.c:395-399 | A recycled segment has the same bytes, and its entries are old ones from then on |
| `SegmentBytes.Area.Reuse` | project/cleaner.c:187-223 | A recycled segment is written to from its beginning over the bytes it has |
| `SegmentBytes.EncodedHolds` | project/log.c:107-109 | The bytes that are copied are read back as the entry |
| `SegmentBytes.ByteOfWord` | project/log.c:107-109 | Words lie in memory with the lowest byte first |
| `SegmentBytes.Area.Append` | project/log.c:107-114 | The area then holds one entry more, what is known of the bytes behind it is what LogState.Past says, and nothing else was written |
| `SegmentBytes.Area.Retire` | project/log.c:95-100 | A head given up by append_to_log is such that a scan stops where its entries end, whether a header still fits or not, unless what is known says otherwise already |
| `SegmentBytes.Area.MarkDead` | project/log_pmem.c:248-249 | Setting the mark changes that entry and no other, nor what lies behind |
| `SegmentBytes.Area.Scan` | project/cleaner.c:106-142 | The scan loop terminates and computes the parse |
| `SegmentBytes.StaleEntryIsScanned` | project/cleaner.c:121-127 | On one buffer: two entries are appended and the head given up, then the segment is used as a target for one entry as long as the first: a scan yields the new entry and the old second one |
| `TableFile.OrderIsImmaterial` | project/hash_table.c:148-152 | Whatever the order of iteration, the pairs that are written make the same table when they are entered again |
| `TableFile.File.Persist` | project/hash_table.c:162-198 | The file is then there, complete, and holds the pairs of the table, unless the table is empty: then it holds what it held before |
| `TableFile.File.PersistSteps` | project/hash_table.c:162-212 | After any number of the writes of persist_hash_table: the flag is off from the second write until the last, and the pairs so far are there |
| `TableFile.File.Load` | project/hash_table.c:119-160 | Finds a table if and only if the file is there and complete, and then the one that its pairs make |
| `TableFile.ShutDownAndStart` | project/hash_table.c:119-198 | The table survives a shutdown if and only if it is not empty or the file held no other one |
| `TableFile.BrokenShutDownAndStart` | project/hash_table.c:142-198 | After a shutdown that broke off once the flag was off, nothing is found unless all was written, whatever pairs were |
| `LockOrder.StepHeld` | project/cleaner.c:115-150 | In every state that satisfies the invariant each operation takes its mutexes in rank order, does what it does under the mutexes for it, and gives all of them back; what is recycled is found |
| `LockOrder.PathHeld` | project/cleaner.c:187-410 | Whatever the tests on the way come to, every path through every operation takes its mutexes in rank order, moves segments from list to list under the mutexes of both, changes objects under the update/move mutex, and gives all mutexes back |
| `LockOrder.StepCovered` | project/log_pmem.c:238-320 | Whatever a step changes is done on its path: a change of used, free, cleaner or emergency list or of the reserve's counter is a move of a segment there, following the used list and claiming a segment are there, and so is, unless an object is added or a segment recycled, any change of entries, marks, counts or table; adding an object leaves the places of all others |
| `LockOrder.DoneUnderGuard` | project/cleaner.c:187-410 | At the point of a path where something is done, its mutexes are held |
| `LockOrder.ReturnHeld` | project/cleaner.c:341-410 | Recycling gives back the used-list mutex if and only if the segment is found on the used list |
| `LockOrder.NoDeadlock` | project/cleaner.c:115-150 | Any number of threads that keep to the order never deadlock, every run of them ends, and then every mutex is free |
| `LockOrder.HeapNeverDeadlocks` | project/log_pmem.c:238-320 | Threads that do nothing but heap operations never deadlock, however they interleave and whatever they find where they test what other threads change |
| `LockOrder.HeapExcludes` | project/log_pmem.c:238-320 | However they interleave, no two such threads hold a mutex at once, and no two are ever about to do things that one mutex guards |
| `LockOrder.SomeoneMoves` | project/cleaner.c:187-410 | Among sound threads that are not done there is one that does not have to wait |
| `BPlusTree.BPlusTree.Insert` | benchmark/ycsb-storedsbench-master/storeds/bplustree/bplustree_dram.cc:368-406 | The contents become the old ones with the pair put in or its value replaced; the height grows by one exactly when a full root takes in a new key |
| `BPlusTree.BPlusTree.InsertNotFull` | benchmark/ycsb-storedsbench-master/storeds/bplustree/bplustree_dram.cc:330-363 | The subtree takes in exactly the new pair, keeps its shape, and the chain of all leaves stays in order |
| `BPlusTree.BPlusTree.SplitNode` | benchmark/ycsb-storedsbench-master/storeds/bplustree/bplustree_dram.cc:246-324 | Splitting changes the three nodes, and for a leaf the chain, as specified, and no other node |
| `BPlusTree.BPlusTree.UpdateIfFound` | benchmark/ycsb-storedsbench-master/storeds/bplustree/bplustree_dram.cc:212-235 | Finds the key exactly if it is in the subtree, and then replaces its value and nothing else |
| `BPlusTree.BPlusTree.Search` | benchmark/ycsb-storedsbench-master/storeds/bplustree/bplustree_dram.cc:154-176 | Yields the value of the key in the subtree, or nothing |
| `BPlusTree.BPlusTree.Read` | benchmark/ycsb-storedsbench-master/storeds/bplustree/bplustree_dram.cc:181-185 | Yields the value of the key in the tree, or nothing |
| `BPlusTree.BPlusTree.Update` | benchmark/ycsb-storedsbench-master/storeds/bplustree/bplustree_dram.cc:190-194 | Puts the pair in or replaces its value |
| `BPlusTree.BPlusTree.Scan` | benchmark/ycsb-storedsbench-master/storeds/bplustree/bplustree_dram.cc:107-149 | Appends exactly the first len pairs with keys from the argument on, in order, or all of them if there are fewer or len is less than 1 |
| `BPlusTree.BPlusTree.ScanStart` | benchmark/ycsb-storedsbench-master/storeds/bplustree/bplustree_dram.cc:113-128 | Going down to the left of an equal separator and then along the chain misses nothing |
| `BPlusTree.BPlusTree.ScanOn` | benchmark/ycsb-storedsbench-master/storeds/bplustree/bplustree_dram.cc:130-145 | The loop along the chain yields what is ahead, up to len pairs |
| `BPlusTree.BPlusTree.Shape` | benchmark/ycsb-storedsbench-master/storeds/bplustree/bplustree_dram.cc:246-406 | Every valid tree has increasing keys, leaves at one depth, nodes at least half full but for the root, separators that are the smallest keys to their right, and a chain that is its leaves from left to right |
| `BPlusTree.BPlusTree.HeightBound` | benchmark/ycsb-storedsbench-master/storeds/bplustree/bplustree_dram.cc:385-399 | A tree with h >= 1 internal levels holds at least 2*(t-1)*t^(h-1) pairs |
| `BPlusTree.BPlusTree.constructor` | benchmark/ycsb-storedsbench-master/storeds/bplustree/bplustree_dram.cc:99-102 | A new tree is empty |
| `BPlusTree.BPlusTree.GrowRoot` | benchmark/ycsb-storedsbench-master/storeds/bplustree/bplustree_dram.cc:385-399 | A full root gets a new parent, is split, and the right half takes the pair |
| `BPlusSteps.HalfForKey` | benchmark/ycsb-storedsbench-master/storeds/bplustree/bplustree_dram.cc:356-360 | The strict comparison after a split leads to the half where a new key belongs, because the separator is a key that is present |
| `BPlusSteps.SplitTree` | benchmark/ycsb-storedsbench-master/storeds/bplustree/bplustree_dram.cc:246-324 | A split keeps contents, shape and occupancy, and leaves two nodes with room |
| `BPlusSteps.SplitChain` | benchmark/ycsb-storedsbench-master/storeds/bplustree/bplustree_dram.cc:280-286 | After a split the chain is again the leaves from left to right, the new one behind the one that was split |
| `BPlusSteps.KidGrown` | benchmark/ycsb-storedsbench-master/storeds/bplustree/bplustree_dram.cc:345-362 | When a child has taken in a pair, so has the tree, in good shape |
| `BPlusSteps.FromDown` | benchmark/ycsb-storedsbench-master/storeds/bplustree/bplustree_dram.cc:113-120 | All pairs from a key on lie in the child left of the first separator that is not smaller, and to its right |
| `BPlusStore.ForwardInserted` | benchmark/ycsb-storedsbench-master/storeds/bplustree/bplustree_dram.cc:280-286 | The next links after a new leaf was chained in |
| `BPlusShape.Descend` | benchmark/ycsb-storedsbench-master/storeds/bplustree/bplustree_dram.cc:163-175 | Lookup and insertion of a key are decided in the child to which the separators lead |
| `BPlusShape.HeightIsLogarithmic` | benchmark/ycsb-storedsbench-master/storeds/bplustree/bplustree_dram.cc:385-399 | The same bound for trees as values |
| `BPlusShape.HalvesWellFormed` | benchmark/ycsb-storedsbench-master/storeds/bplustree/bplustree_dram.cc:246-324 | Both halves of a full node are well formed and of the sizes t - 1 and t, for an internal node t - 1 and t - 1, and the separator is the smallest key of the right one |
| `Pairs.UpsertLookup` | benchmark/ycsb-storedsbench-master/storeds/bplustree/bplustree_dram.cc:365-367 | Inserting into the sorted contents changes the lookup of that key only |
| `Arrays.Enter` | benchmark/ycsb-storedsbench-master/storeds/bplustree/bplustree_dram.cc:335-342 | The shifting loop puts a new entry where it belongs |
| `Arrays.Shift` | benchmark/ycsb-storedsbench-master/storeds/bplustree/bplustree_dram.cc:262-272 | The loop moves the elements of a range one place up and no others |
| `BTree.BTree.Insert` | benchmark/ycsb-storedsbench-master/storeds/btree/btree_dram.cc:258-298 | The contents become the old ones with the pair put in or its value replaced; the height grows exactly when a full root takes in a new key |
| `BTree.BTree.InsertNotFull` | benchmark/ycsb-storedsbench-master/storeds/btree/btree_dram.cc:195-229 | The subtree takes in exactly the new pair and keeps its shape |
| `BTree.BTree.SplitNode` | benchmark/ycsb-storedsbench-master/storeds/btree/btree_dram.cc:153-189 | Splitting changes the three nodes as specified, and no other |
| `BTree.BTree.UpdateIfFound` | benchmark/ycsb-storedsbench-master/storeds/btree/btree_dram.cc:234-253 | Finds the key exactly if it is in the subtree, in whatever node, and then replaces its value and nothing else |
| `BTree.BTree.Search` | benchmark/ycsb-storedsbench-master/storeds/btree/btree_dram.cc:101-119 | Yields the value of the key in the subtree, from whatever node holds it, or nothing |
| `BTree.BTree.Read` | benchmark/ycsb-storedsbench-master/storeds/btree/btree_dram.cc:124-133 | Yields the value of the key in the tree, or nothing |
| `BTree.BTree.Update` | benchmark/ycsb-storedsbench-master/storeds/btree/btree_dram.cc:138-142 | Puts the pair in or replaces its value |
| `BTree.BTree.Shape` | benchmark/ycsb-storedsbench-master/storeds/btree/btree_dram.cc:153-298 | Every valid tree has increasing keys, leaves at one depth, and nodes at least half full but for the root |
| `BTreeSteps.SplitStep` | benchmark/ycsb-storedsbench-master/storeds/btree/btree_dram.cc:217-228 | Moving the median up keeps contents and shape, and the strict comparison then leads to a half with room for a new key |
| `BTreeSteps.PairReplaced` | benchmark/ycsb-storedsbench-master/storeds/btree/btree_dram.cc:242-247 | Replacing the value of a pair in an internal node is replacing it in the contents |
| `BTreeShape.HalvesFlat` | benchmark/ycsb-storedsbench-master/storeds/btree/btree_dram.cc:153-189 | The halves with the median between them are what was split |
| `BTreeShape.Descend` | benchmark/ycsb-storedsbench-master/storeds/btree/btree_dram.cc:103-118 | A key that is not in a node is decided in the child between the pairs on either side of it |
| `TreesAgree.SameAnswers` | benchmark/ycsb-storedsbench-master/storeds/btree/btree_dram.cc:258-298 | After the same nonempty sequence of insertions both trees answer every read alike, as the map does |
| `TreesAgree.InsertAll` | benchmark/ycsb-storedsbench-master/storeds/bplustree/bplustree_dram.cc:368-406 | After the same insertions both trees represent the same map |
| `TreesAgree.RepresentsOne` | benchmark/ycsb-storedsbench-master/storeds/btree/btree_dram.cc:258-298 | Trees that represent the same map hold the same pairs in the same order |

## Left out

- Several cleaner threads: the code starts two (project/log_pmem_types.h:20), this model has one; with two, the segment a cleaner holds may already have been recycled by the other.
- Concurrency of clients: calls are serialised; a palloc is one step, although the code does not hold the update/move mutex during it.
- `wait_to_start_cleaning` and `used_segments_count`, which is lowered at project/cleaner.c:393 but not raised when a cleaner segment joins the used list.
- `append_cleaner_segment_to_free_segments` and both `append_all_cleaner_segments_to_*`: called by tests only, and the same relinking as above.
- The cleaner pass of recovery (project/hash_table.c:90-116), whose loop never advances, and the cleaner's position at a restart (project/cleaner.c:66-87).
- Files, mappings, `pmem2` and thread start and stop; `persist` and `memcpy_fn` are plain writes, so flush order and torn writes are not modelled. GHashTable is a map.
- Allocation failure of `malloc`.
- CleanerSteps.CleanKeeps: bytes behind the entries that are neither old entries nor known to end a scan are not looked into: a scan that comes to them counts as one that fails, whatever they happen to be. CleaningPass.PassEnds stops there.
- HeapMemory.Heap.ScanSegment: asks that the segment is safe to scan; that a step from one that is not goes wrong is CleanerSteps.CleanKeeps.
- HeapMemory.Heap.ReconstructHashTable: a length among unknown bytes that leads out of the segment ends the scan there; in the code the position is an `int` (project/hash_table.c:30), which wraps around at a length of 2^31 or so. Crashes.RecoveryOfAnyBytes does not depend on that.
- HeapMemory.Heap.Palloc: asks, as all methods that read or write entries do, that so far entries fit their segments and ids and versions their words (`StoredSegments.Whole`), and says nothing about the bytes once one does not; an entry that runs over its segment overwrites the next one's header.
- HeapMemory.Heap.TargetWithRoom: asks that a segment is available, where the code waits; that one always is, is CleanerSteps.TargetRoomKeeps.
- LogRuns.HeapIsAMap: asks that each step is allowed (`LogRuns.Allowed`): the entry fits a segment, an update or overwrite has room, an object that is freed has no older unmarked version, and a scan does not come to a harmful old entry; outside of that the code fails, see Misuse and StaleRun.
- ClientSteps.UpdateKeeps: asks, as NewKeeps and PutKeeps do, that no entry longer than a data area is written: it would run over the end of its segment (LogRuns.StepExact, Misuse.OversizeOverflows).
- CleaningPass.PassEnds: asks that no entry exceeds the data area less half a segment, since a target that is given up earlier need not be half live.
- Recovery.RecoveryIsExact: is about the used pass and the head pass, as are FreedStaysFreed and the results in Crashes: the third pass does not end if the cleaner has a segment, and what is lost with that segment is in the condition.
- The version of an entry is unbounded: its wrap-around at 64 bits is not modelled; HeapRuns.Run is about runs too short for it. The `int` loop counters of `init_log` and `pos` are unbounded too.
- A segment's `id` field is its number.
- TableFile.BrokenShutDownAndStart: begins with the flag off; a shutdown that breaks off before that leaves the old flag and counter beside pairs that were cut or extended already (`PersistSteps`).
- TableFile.File.Persist: an empty table leaves an older file in place, as the code does; ShutDownAndStart says when that matters.
- LockOrder: says that threads do not wait for each other in a circle and change what is shared under its mutexes, not that what they find is consistent: a client and the cleaner that both saw the last free segment before they took its mutex may both take it. What the code does under no mutex is not among the things done: adding an object, the head and its position, forgetting the claim of a segment, and the links and the count of a recycled segment after its move.
- The persistent, volatile-library, transactional and locking variants of the trees, `recursive_free`, `destroy`, and the 128-byte value buffers; values are strings of any length.
- `BTreeDram::scan`, which only throws.
- The drivers, generators, array stores and wrappers of the benchmark.
