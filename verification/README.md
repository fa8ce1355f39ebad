# Verified model of the water-valve controller firmware

The firmware runs on RT-Thread. This project models its hardest parts in Dafny and proves what they
promise. Nothing here is executed; every statement is checked by the verifier:

    dafny verify dfyconfig.toml

Each component has a specification on values, theorems about whole runs of it, and a form that updates its
state in place as the C or Python code does. An object of the second kind ties its `View()` to the
specification and keeps the invariants that the theorems are about: `SmallMem` and `MemPool` in `Valid()`,
`ValveUnit` the lock and exercise invariants, `Registry` the mirror in flash, `Controller` all of them, and
`Controller.Serve` carries the run theorems over to a running object. The files named `...Laws` state what each
operation does to fields, characters and digits, independently of how the specification computes it; `StepLaw` puts
them together for every event of the controller.

| files | component |
|---|---|
| `HeapModel`, `HeapOps`, `HeapRuns`, `SmallMem` | the first-fit heap with in-band headers |
| `CallGraph`, `StackCycles`, `StackAnalyser` | the worst-case-stack analyser |
| `WaitList`, `MemPool` | the fixed-block pool with blocking waiters |
| `RegistryModel`, `RegistryInv`, `RegistryLaws`, `Registry` | the device table mirrored to flash |
| `ValveModel`, `ValveInv`, `ValveLaws`, `ValveUnit` | the valve, its lock, alarms and exercise |
| `ControllerModel`, `ControllerInv`, `ControllerLaws`, `StatusInv`, `OfflineWindow`, `Controller` | the whole controller, what it shows, and the 25-hour liveness protocol |
| `FormatModel`, `FormatLaws`, `DirectiveLaws`, `Format` | rt_vsnprintf |
| `ScanModel`, `ScanLaws`, `PrintScan` | rt_sscanf, strtol, and how they undo printing |
| `RadioFrame`, `RadioTrip`, `Radio` | the type-0 radio frame from sender to receiver |
| `Memory` | rt_memset, rt_memcpy, rt_memmove |
| `Bits`, `AlignedAlloc` | alignment masks and aligned allocation |

Heap offsets and sizes are counted in 4-byte words (the code keeps all of them multiples of 4). Flash is a map from keys to
numbers, a missing key reading as 0; timers are pending flags; pin levels, voltages and incoming messages are
parameters of events. `strtol` follows section 7.22.1.4 of ISO/IEC 9899:2011, the memory primitives sections 7.24.2.1,
7.24.2.2 and 7.24.6.1. rt_thread_suspend and rt_thread_resume follow the comments of mempool.c: a resumed thread
is off the wait list and its timeout is cancelled.

Where the code does not do what its comments or a caller may expect, the model follows the code and a theorem
says exactly when the expectation is met:

- rt_vsnprintf returns the length of the whole text, not "the number of characters actually written" (`CountExact`).
- rt_sscanf returns 0, never EOF, when the input ends before anything was read (`ResultExact`, `EmptyInputFails`); a lone
  `%` at the end of a format makes it read past the terminator (`Overruns` for one input, `ClosedExact` for all).
- `%o` prints hexadecimal digits (`OctalExact`), and an explicit precision of 0 suppresses every digit (`NumberReadsBack`).
- RT_ALIGN wraps near 2^32, so the heap serves such a request with 12 to 32 bytes (`AllocServes`, `WrappedRequestIsServed`)
  and realloc to such a size frees the block (`NullKeepsHeap`); rt_mp_init wraps as well (`StrideExact`).
- Deleting the gateway leaves its role number behind (`DeleteInv`), and a later gateway overwrites whatever stands in
  that slot (`DeletedGatewayLosesDevice`, `GatewayOverwrites`).
- Deleting a device leaves its alarm column behind, so the alarm of the next device in that slot may not be stored
  (`StaleColumnLosesAlarm`, `AlarmReloads`, `AlarmSurvivesRestart`).
- The analyser calls every reachable cycle unbounded; a worst case fails to exist only if the cycle uses stack
  (`WorstExists`, `ZeroCycle`).
- rt_mp_detach tests the wait list before it disables interrupts (`DetachExact`).
- rt_memcpy is no rt_memmove (`ForwardExact`).
- rt_malloc_align meets its rounded alignment, up to 2^31, for every block iff that is a power of two (`AlignmentExact`);
  the result stays inside the block for all others too, except 0 (`ContainmentExact`, `ZeroPlace`), and so do the bytes
  unless the request wraps (`BytesFitExact`).
- The ON key can show Open over a shut valve (`StepShows`, `StatusHolds`).
- A radio text that is too long is cut by its own checksum or ignored (`FrameFits`, `RadioDelivery`).

In WCS.py `fxn_dict in parents` compares dictionaries; the model compares identities, which is the same here because a
dictionary holds its function's name and translation unit.

## Model

| member | source | states |
|---|---|---|
| `SmallMem.SmallMem.constructor` | rt-thread/src/mem.c:206-239 | the headers written into an arbitrary area encode one free block, `lfree` is it, nothing is used |
| `SmallMem.SmallMem.PlugHoles` | rt-thread/src/mem.c:125-163 | in-band merging of a free block with its free neighbours equals `Plug` on the block list; `lfree` follows; no live payload word changes |
| `SmallMem.SmallMem.AllocWords` | rt-thread/src/mem.c:304-404 | the search from `lfree` with its early stop, the split and the `lfree` advance equal first fit over the whole list; null changes nothing; every live payload is kept |
| `SmallMem.SmallMem.Alloc` | rt-thread/src/mem.c:279-405 | the same for a byte size, with the 32-bit rounding of RT_ALIGN |
| `SmallMem.SmallMem.Search` | rt-thread/src/mem.c:317-321 | starting at `lfree` and stopping at `mem_size_aligned - size` never skips a block that fits |
| `SmallMem.SmallMem.AdvanceLowest` | rt-thread/src/mem.c:385-391 | walking over used headers stops at the lowest free block or at `heap_end` |
| `SmallMem.SmallMem.FreeBlock` | rt-thread/src/mem.c:516-559 | header in memory and block list are released together, `lfree` is again the lowest free block, other payloads are kept |
| `SmallMem.SmallMem.Free` | rt-thread/src/mem.c:516-559 | a null pointer is ignored |
| `SmallMem.SmallMem.ShrinkBlock` | rt-thread/src/mem.c:468-495 | the in-place shrink re-establishes tiling, coalescing and `lfree` and keeps the first words |
| `SmallMem.SmallMem.MoveBlock` | rt-thread/src/mem.c:498-506 | allocate, copy, free: the copied words arrive, every other live block is untouched, failure changes nothing |
| `SmallMem.SmallMem.Realloc` | rt-thread/src/mem.c:422-507 | all branches: size 0 frees, null pointer allocates, too large is refused, otherwise the first min(old capacity, new size) words survive; `ReallocAnswers` says when there is an answer |
| `SmallMem.Rewrite` | rt-thread/src/mem.c:141-161 | the one argument behind every in-band write: replacing neighbouring headers keeps all headers a correct encoding of the new list |
| `SmallMem.RewriteKeeps` | rt-thread/src/mem.c:341-358 | such writes leave the payload of every other live block alone |
| `HeapOps.AllocSound` | rt-thread/src/mem.c:317-404 | first fit is complete: null iff no free block is large enough; otherwise the lowest fitting block, live, large enough, new; the invariant holds again |
| `HeapOps.FreeSound` | rt-thread/src/mem.c:516-559 | exactly one live block disappears, `max` stays, the invariant (tiling, coalescing, exact `used`) holds again |
| `HeapRuns.LiveBlocksDisjoint` | rt-thread/src/mem.c:317-404 | live blocks never overlap and lie inside the heap |
| `HeapRuns.Conservation` | rt-thread/src/mem.c:211-239 | `used` plus the free extents is always `mem_size_aligned` plus one header |
| `HeapRuns.AlignCovers` | rt-thread/include/rtdef.h:354 | a rounded request covers the size iff the size is at most 2^32 - 4 |
| `HeapRuns.WrappedRequestIsServed` | rt-thread/src/mem.c:304-321 | every size that wraps is served, from any free block that holds 12 bytes, with 12 to 32 bytes |
| `HeapRuns.AllocServes` | rt-thread/src/mem.c:279-405 | for every heap and nonzero size: served iff some free block holds the rounded size; the block holds the bytes asked for iff the rounding did not wrap |
| `HeapRuns.ReallocSound` | rt-thread/src/mem.c:422-507 | over every heap and size: size 0 is free; null leaves the heap as it was; otherwise exactly one block is exchanged for one of the new capacity (when it succeeds: `ReallocAnswers`) |
| `HeapRuns.NullKeepsHeap` | rt-thread/src/mem.c:436-447 | null for a nonzero size leaves blocks and `used` unchanged iff the rounding did not wrap to 0 (or there was no block): a wrapped size frees the block |
| `HeapRuns.ShrinkSound` | rt-thread/src/mem.c:468-495 | the shrunk block is exactly [start, start + header + new size), all others stay |
| `HeapRuns.RunInv` | rt-thread/src/mem.c:178-559 | the heap invariant over every sequence of alloc, free and realloc; `max` is the largest `used` ever seen |
| `HeapRuns.FreeAllRestores` | rt-thread/src/mem.c:516-559 | freeing all live blocks in any order restores the single initial free block with `used` 0 |
| `CallGraph.FindFxn` | rt-thread/tools/WCS.py:84-99 | globals hide locals; the answer is a known function or none exists under that name |
| `CallGraph.TroubleStep` | rt-thread/tools/WCS.py:257-282 | a function can reach a pointer call or a cycle iff it has a pointer call or calls such a function |
| `CallGraph.WorstStep` | rt-thread/tools/WCS.py:267-291 | the local stack plus the largest callee value is the maximum over all call chains |
| `CallGraph.MissesStep` | rt-thread/tools/WCS.py:287-289 | reachable unresolved names are the own ones and those of callees |
| `CallGraph.ShortChains` | rt-thread/tools/WCS.py:245-299 | without trouble no chain repeats a function, so chains are bounded by the number of functions |
| `CallGraph.LongChains` | rt-thread/tools/WCS.py:262-265 | a cycle yields chains of every length |
| `CallGraph.WorstUnique` | rt-thread/tools/WCS.py:291-291 | there is only one worst case value |
| `StackAnalyser.Analyser.ResolveCalls` | rt-thread/tools/WCS.py:224-234 | calls are split into resolved functions and unresolved names, none lost |
| `StackAnalyser.Analyser.CalcWcs` | rt-thread/tools/WCS.py:246-291 | the memoised search from any sound memo and any call stack ends with a right answer for the function and keeps all others right |
| `StackAnalyser.Analyser.CalcAll` | rt-thread/tools/WCS.py:293-299 | every function gets a right answer |
| `StackAnalyser.ManualRight` | rt-thread/tools/WCS.py:182-200 | entries read from a manual file are right answers |
| `StackAnalyser.Analyse` | rt-thread/tools/WCS.py:391-429 | for every finite call graph and every visiting order: terminates; unbounded iff a pointer call or cycle is reachable; otherwise the maximum over all chains, with exactly the unresolved names reachable |
| `WaitList.InsertRing` | rt-thread/include/rtservice.h:58-65 | relinking four pointers inserts into a doubly linked ring |
| `WaitList.RemoveRing` | rt-thread/include/rtservice.h:86-92 | relinking two pointers removes from the ring and leaves the node alone in its own |
| `WaitList.WaitList.InsertAfterHead` | rt-thread/include/rtservice.h:58-65 | the wait list grows at its head |
| `WaitList.WaitList.Remove` | rt-thread/include/rtservice.h:86-92 | exactly that thread leaves the wait list |
| `WaitList.WaitList.IsEmpty` | rt-thread/include/rtservice.h:98-101 | a ring is empty iff the head points to itself |
| `PoolModel.EnterInv` | rt-thread/src/mempool.c:335-398 | a thread that enters takes a free block nobody holds, sleeps or is refused; the pool invariant holds again |
| `PoolModel.GiveBackInv` | rt-thread/src/mempool.c:426-461 | freeing wakes a sleeper if there is one; the invariant holds again |
| `PoolModel.StepInv` | rt-thread/src/mempool.c:319-461 | every critical section, timeout and eviction keeps conservation and "no lost wake-up" |
| `PoolModel.RunInv` | rt-thread/src/mempool.c:319-461 | the same over every interleaving |
| `PoolModel.Accounting` | rt-thread/src/mempool.c:116-133 | free plus held blocks is the total; when no woken thread is outstanding nobody sleeps next to a free block |
| `MemPool.BlocksFit` | rt-thread/src/mempool.c:111-116 | every block computed by rt_mp_init lies inside the area |
| `MemPool.MemPool.constructor` | rt-thread/src/mempool.c:107-133 | all blocks that fit the area, in 32-bit arithmetic, and no others, are on the intrusive list once |
| `MemPool.MemPool.Pop` | rt-thread/src/mempool.c:388-396 | taking the head of the free list is the model step |
| `MemPool.MemPool.Section` | rt-thread/src/mempool.c:335-398 | one critical section of rt_mp_alloc on list, count and wait list equals the model step; got iff a block was free, refused iff none was and it does not wait, asleep otherwise |
| `MemPool.MemPool.Alloc` | rt-thread/src/mempool.c:319-398 | the first entry of rt_mp_alloc; got iff a block was free, refused iff none was and it does not wait, asleep otherwise |
| `MemPool.MemPool.Retry` | rt-thread/src/mempool.c:335-385 | a woken thread checks the count again; got iff a block was free, refused iff none was and it does not wait, asleep otherwise |
| `MemPool.MemPool.Expire` | rt-thread/src/mempool.c:354-385 | a timed-out thread leaves the wait list and nothing else changes |
| `MemPool.MemPool.Free` | rt-thread/src/mempool.c:415-461 | null is ignored; otherwise the block is linked in, the first sleeper leaves the list, the count matches the chain; exactly the head of the wait list is woken |
| `Registry.Registry.NewSlot` | storage/flashwork.c:44-61 | keeps the mirror; the slot is empty and used, or every slot below 13 is taken |
| `Registry.Registry.AddDevice` | storage/flashwork.c:365-376 | always keeps the mirror, and uniqueness and roles for an unknown ordinary id; on success the id is found |
| `Registry.Registry.AddDoor` | storage/flashwork.c:377-405 | always keeps the mirror, and uniqueness and roles for an unknown door; on success it is the door |
| `Registry.Registry.AddGateway` | storage/flashwork.c:406-433 | always keeps the mirror, and uniqueness and roles for an unknown gateway; on success it is the gateway |
| `Registry.Registry.Delete` | storage/flashwork.c:482-502 | exactly that id is gone, every other one is still registered; the roles hold iff it was not the gateway |
| `Registry.Registry.SetAlive` | storage/flashwork.c:249-271 | ids, slots, roles and mirror are untouched |
| `Registry.Registry.Tick` | storage/flashwork.c:575-588 | the loop counts one hour up to 25 in every used slot; ids, slots, roles and mirror are untouched |
| `Registry.Registry.ClearAll` | storage/flashwork.c:589-605 | the loop clears exactly the slots that were heard or have not reached 25 |
| `Registry.Registry.Sweep` | storage/flashwork.c:606-637 | the downward loop reports the devices, in order, and sets the warning flag as the model does |
| `Registry.Registry.Load` | storage/flashwork.c:704-724 | the table rebuilt from flash alone is the table before the reset |
| `RegistryInv.ReloadReproduces` | storage/flashwork.c:704-724 | a mirrored table is reproduced by a reload: Num, all of ID, both role numbers |
| `RegistryInv.LearnInv` | radio/Radio_Decoder.c:104-146 | learning an unknown id keeps the mirror, uniqueness and the role slots |
| `RegistryInv.DeleteInv` | storage/flashwork.c:482-502 | deletion keeps mirror and uniqueness, and the role slots iff it was not the gateway that was deleted |
| `RegistryInv.DeletedGatewayLosesDevice` | storage/flashwork.c:482-502 | deleting the gateway, learning a device and learning a new gateway overwrites that device |
| `RegistryInv.SweepInv` | storage/flashwork.c:606-637 | a pass changes neither ids nor role numbers and keeps the mirror |
| `ValveUnit.ValveUnit.MotoDetect` | applications/Moto.c:236-261 | keeps the lock and the exercise invariant; an exercise never moves the valve |
| `ValveUnit.ValveUnit.Turn1Timer` | applications/Moto.c:148-174 | keeps the lock and the exercise invariant; both masks are off afterwards |
| `ValveUnit.ValveUnit.Turn2Timer` | applications/Moto.c:175-195 | keeps the lock and the exercise invariant; both masks are off afterwards |
| `ValveUnit.ValveUnit.Boot` | applications/Moto.c:224-233 | keeps the lock and the exercise invariant: a start never opens a locked valve |
| `ValveUnit.ValveUnit.KeyOn` | applications/key.c:76-126 | keeps the lock and the exercise invariant: the ON key never opens a locked valve |
| `ValveUnit.ValveUnit.KeyOff` | applications/key.c:127-195 | keeps the lock and the exercise invariant; outside factory mode a valve shown Open is shut afterwards |
| `ValveUnit.ValveUnit.KeyOffLong` | applications/key.c:206-222 | keeps the lock and the exercise invariant; the valve does not move |
| `ValveUnit.ValveUnit.WaterTick` | applications/Work.c:95-171 | keeps the lock and the exercise invariant; water newly seen shuts the valve with warning 4 unless learning or outranked, a lost probe, drying and plugging in again only change what is shown |
| `ValveUnit.ValveUnit.NtcTick` | applications/ADCwork.c:121-141 | keeps the lock and the exercise invariant, alarm and recovery included |
| `ValveInv.OkMeans` | applications/Moto.c:65-129 | the inductive invariant is exactly the lock invariant and the exercise invariant |
| `ValveInv.DetectKeeps` | applications/Moto.c:236-261 | an exercise keeps the invariant |
| `ValveInv.BootKeeps` | applications/Moto.c:211-234 | a restart from the stored flag keeps the lock |
| `ValveInv.OtherOpenUnlocks` | applications/Moto.c:65-89 | OtherOpen always opens and unlocks |
| `ValveInv.FreezeRoundTrip` | applications/ADCwork.c:121-141 | accepted alarm, any scans below recovery, recovery: the valve is where it was and the status says so |
| `Controller.Controller.OfflineReact` | storage/flashwork.c:668-703 | the offline warning survives iff no device is stored or an ordinary slot is not alive; the lock is kept |
| `Controller.Controller.Dispatch` | applications/key.c:65-225 | after every event all invariants hold again, a locked valve is still locked iff the event was no accepted OtherOpen and no wipe, the role slots are right iff the gateway was not deleted, and the status starts to mislead iff it was the ON key on a locked valve with the probe unplugged |
| `ControllerInv.StepValve` | applications/Moto.c:41-129 | every event keeps lock and exercise invariants; a locked valve stays locked iff the event is no accepted OtherOpen command and no wipe |
| `ControllerInv.StepTable` | storage/flashwork.c:365-502 | every event keeps mirror and uniqueness, and the role slots iff it does not delete the gateway |
| `ControllerInv.FactorySafe` | storage/flashwork.c:704-732 | the state of a new device satisfies all invariants |
| `ControllerInv.RunSafe` | applications/Moto.c:41-261 | in every reachable state, resets included: flash equals LastFlag, a locked valve is closed, the exercise invariant holds, a reload reproduces the table |
| `ControllerInv.LockHolds` | radio/Radio_Decoder.c:264-313 | over whole runs no key, alarm, recovery, timer or restart opens a locked valve |
| `ControllerInv.RolesHold` | storage/flashwork.c:377-433 | over runs that never delete the gateway individually each role slot holds the only id of its range |
| `OfflineWindow.SweepReports` | storage/flashwork.c:606-637 | a pass reports exactly the silent devices outside the gateway slot |
| `OfflineWindow.PassStarts` | storage/flashwork.c:589-642 | a pass starts a fresh window for every registered device |
| `OfflineWindow.ResetStarts` | storage/flashwork.c:704-724 | so does a reset |
| `OfflineWindow.TrackRun` | radio/Radio_Decoder.c:427-431 | between passes the message flag of a slot says exactly whether its device was heard |
| `OfflineWindow.OfflineExact` | applications/RTCWork.c:27-41 | the pass at the end of 25 hours reports a device iff no message from it was processed since the previous pass |
| `OfflineWindow.RunTidy` | storage/flashwork.c:575-605 | hour counts stay within 25 and flags are 0 or 1 in every run |
| `Format.Extract` | rt-thread/src/kservice.c:773-779 | digits least significant first; a 32-bit number never overruns the 16-byte buffer |
| `Format.Writer.PrintNumber` | rt-thread/src/kservice.c:713-871 | sign, padding, precision zeros and digits in closed form, however many loops write them |
| `Format.Writer.PrintString` | rt-thread/src/kservice.c:1019-1049 | width and precision cut, padding on either side |
| `Format.Writer.PrintChar` | rt-thread/src/kservice.c:996-1017 | one byte in its field |
| `Format.ReadSpec` | rt-thread/src/kservice.c:926-981 | flags, width, precision and qualifier as parsed, reading no character beyond the terminator |
| `Format.Writer.Convert` | rt-thread/src/kservice.c:994-1131 | the switch on the conversion character |
| `Format.VsnPrintf` | rt-thread/src/kservice.c:886-1146 | for every format, arguments and size: terminates, returns the length of the unbounded text whatever the size, leaves its terminated prefix and changes nothing else; the count is the number of characters left in the buffer iff the text was not cut; `TextPrints`, `DirectivePrints` and the laws of `FormatLaws` say what the output is |
| `PrintScan.DigitsDenote` | rt-thread/src/kservice.c:672-691 | printed digits denote the number, without a leading zero |
| `PrintScan.NumberReadsBack` | rt-thread/src/kservice.c:713-871 | strtol reads a printed %d back, for every width and flags, iff its precision is not 0 or the number is 0 |
| `ScanModel.Strtol` | radio/Radio_Decoder_Utils.c:56-62 | the end pointer never passes the terminator |
| `Scanner.Sscanf` | radio/Radio_Decoder_Utils.c:13-73 | for every input and format that do not overrun: count and stored values equal the specification, unreached destinations keep their values |
| `FramePrint.FrameTextIs` | radio/Radio_Encoder.c:106-106 | for all field values the printed frame is the five padded numbers between braces |
| `FramePrint.FrameScansBack` | radio/Radio_Decoder.c:411-411 | scanning the printed frame returns all five fields, for all 32-bit values and whatever follows |
| `RadioTrip.FrameShort` | radio/Radio_Encoder.c:106-106 | the text never exceeds 61 of the 255 bytes |
| `RadioTrip.FrameFits` | radio/Radio_Encoder.c:106-114 | the text fills exactly the 28 bytes before the checksum iff every field is in range |
| `RadioTrip.PreparedIs` | radio/Radio_Encoder.c:97-115 | whatever is sent: the text with bytes 28 to 31 replaced by two upper-case hex digits that denote the sum of the first 28 characters modulo 256 and CR LF, then zeros |
| `RadioTrip.OnAirIs` | radio/Radio_Common.c:437-442 | whatever is sent: the packet is the length byte and the frame |
| `RadioTrip.RadioRoundTrip` | radio/Radio_Decoder.c:454-460 | in range the 32-byte frame passes dispatch and terminator checks and all fields arrive, the counter plus 1 modulo 256 |
| `RadioTrip.PlainIdsFit` | radio/Radio_Encoder.c:106-106 | ids below 10^8 are in range |
| `Radio.SendPrepare` | radio/Radio_Encoder.c:97-115 | the buffer holds exactly that, from any previous content |
| `Radio.RfSend` | radio/Radio_Common.c:437-442 | length byte and text in the transmit buffer |
| `Radio.RxCallback` | radio/Radio_Decoder.c:406-464 | a packet is scanned iff it starts with a brace and ends in CR LF, goes to the gateway iff it starts with G; the scanned fields are stored, nothing else is |
| `Memory.Memset` | rt-thread/src/kservice.c:175-246 | the word-at-a-time fill equals the bytewise one for every length, alignment and fill value |
| `Memory.Memcpy` | rt-thread/src/kservice.c:260-330 | for every length, alignment and overlap the word loops do what the byte loop does; a copy whenever the destination does not overlap the source from above |
| `Memory.Memmove` | rt-thread/src/kservice.c:346-365 | the original source bytes arrive for every overlap |
| `Memory.WordBytes` | rt-thread/src/kservice.c:300-313 | a word read and stored again keeps its bytes |
| `Memory.PatternBytes` | rt-thread/src/kservice.c:206-207 | every byte of the fill pattern is the fill value |
| `Bits.LowMask` | rt-thread/include/rtdef.h:354 | and-ing with 2^k - 1 keeps exactly the low k bits |
| `Bits.AlignDownIs` | rt-thread/include/rtdef.h:363 | RT_ALIGN_DOWN clears the remainder for every word and power of two |
| `Bits.AlignUpIs` | rt-thread/include/rtdef.h:354 | RT_ALIGN is the next multiple |
| `Bits.AlignUpReaches` | rt-thread/include/rtdef.h:354 | RT_ALIGN is at least its argument iff the sum does not wrap |
| `AlignedAlloc.RoundingIsMask` | rt-thread/src/mem.c:304-304 | the rounding of the heap is the mask, wrap-around included |
| `AlignedAlloc.PlaceIs` | rt-thread/src/kservice.c:1682-1689 | for every rounded alignment but 0 the address is on a word boundary, at least one word and at most `align` bytes above the block |
| `AlignedAlloc.MallocAlign` | rt-thread/src/kservice.c:1661-1699 | for every alignment that does not round to 0: the bytes inside one live block, the saved word just before the result, no other payload changed; a power of two is met |
| `AlignedAlloc.FreeAlign` | rt-thread/src/kservice.c:1707-1715 | the saved word leads back to exactly that block, which is freed |
| `SmallMem.SmallMem.PlugNext` | rt-thread/src/mem.c:141-152 | forward merging, with the `prev` of the header after next and `lfree` |
| `SmallMem.SmallMem.PlugPrev` | rt-thread/src/mem.c:154-163 | backward merging likewise |
| `SmallMem.SmallMem.MarkFree` | rt-thread/src/mem.c:535-557 | the used mark goes, `used` shrinks by the extent, `lfree` is lowered |
| `SmallMem.SmallMem.TakeBlock` | rt-thread/src/mem.c:323-383 | split when the rest holds a header and 12 bytes, account, mark used; payloads of all live blocks stay |
| `SmallMem.SmallMem.Split` | rt-thread/src/mem.c:341-358 | a header written into free payload splits the block and nothing else |
| `SmallMem.SmallMem.CutBlock` | rt-thread/src/mem.c:470-491 | the tail of a live block becomes a free block; its head keeps its words |
| `SmallMem.SmallMem.CopyPayload` | rt-thread/src/mem.c:502-502 | the smaller of capacity and size is carried over, no header is hit |
| `SmallMem.SmallMem.ResizeBlock` | rt-thread/src/mem.c:457-507 | same size, shrink or move |
| `HeapRuns.RelocateSound` | rt-thread/src/mem.c:498-506 | moving exchanges exactly one live block, or changes nothing |
| `StackAnalyser.Analyser.Explore` | rt-thread/tools/WCS.py:267-291 | the loop over callees leaves a right answer for the function, whichever memo it met |
| `StackAnalyser.Analyser.Visit` | rt-thread/tools/WCS.py:270-289 | one callee: push, recurse, pop, propagate |
| `StackAnalyser.Analyser.ResolveAll` | rt-thread/tools/WCS.py:236-242 | every known function has its calls resolved |
| `Registry.Registry.Find` | storage/flashwork.c:643-653 | the highest slot with that id, or 0 |
| `Registry.Registry.KeyValid` | storage/flashwork.c:643-653 | true iff some used slot holds the id |
| `Registry.Registry.Learn` | radio/Radio_Decoder.c:104-146 | whatever id range is learned, mirror, uniqueness and roles survive |
| `Registry.Registry.SetSlaveAlarm` | storage/flashwork.c:750-771 | ids, slots, roles and mirror are untouched |
| `Registry.Registry.AnyAlarm` | storage/flashwork.c:733-749 | true iff some used slot has its alarm flag set |
| `Registry.Registry.ClearTime` | storage/flashwork.c:557-574 | ids, slots, roles and mirror are untouched |
| `Registry.Registry.Wipe` | storage/flashwork.c:725-732 | blank, and mirror, uniqueness and roles hold |
| `RegistryInv.AddDoorInv` | storage/flashwork.c:377-405 | adding a door keeps mirror, uniqueness and both role slots |
| `RegistryInv.AddGatewayInv` | storage/flashwork.c:406-433 | adding a gateway does, too |
| `RegistryInv.AddDeviceInv` | storage/flashwork.c:365-376 | adding an ordinary device does, too |
| `ValveUnit.ValveUnit.Act1` | applications/Moto.c:196-200 | keeps the lock and the exercise invariant; the detect timer is pending |
| `ValveUnit.ValveUnit.Act2` | applications/Moto.c:201-205 | keeps the lock and the exercise invariant; the detect timer is pending |
| `ValveUnit.ValveUnit.DetectExpires` | applications/Moto.c:206-210 | keeps the lock and the exercise invariant |
| `ValveUnit.ValveUnit.DelayExpires` | applications/Status.c:131-136 | keeps the lock and the exercise invariant; the valve is at rest and locked afterwards |
| `ValveUnit.ValveUnit.OpenCommand` | radio/Radio_Decoder.c:264-276 | keeps the invariants; outside warnings the valve is open and unlocked, otherwise nothing changes |
| `ValveUnit.ValveUnit.CloseCommand` | radio/Radio_Decoder.c:287-304 | keeps the lock and the exercise invariant |
| `ValveUnit.ValveUnit.GatewayCommand` | radio/Radio_Decoder.c:364-383 | keeps the invariants; an accepted open leaves the valve open and unlocked, anything else keeps the lock |
| `ValveInv.OpenKeeps` | applications/Moto.c:41-89 | NormalOpen never breaks the lock |
| `ValveInv.EnableKeeps` | applications/Status.c:43-60 | no warning breaks the lock or the exercise invariant |
| `ValveInv.WaterKeeps` | applications/Work.c:95-171 | nor does a probe scan |
| `ValveInv.NtcKeeps` | applications/ADCwork.c:121-141 | nor a freeze scan, recovery included |
| `ValveInv.Turn1Keeps` | applications/Moto.c:148-174 | nor the end of an exercise of motor 1 |
| `ValveInv.Turn2Keeps` | applications/Moto.c:175-195 | nor of motor 2 |
| `ValveInv.DelayExpiresKeeps` | applications/Status.c:131-136 | nor the delayed close |
| `ValveInv.KeyOnKeeps` | applications/key.c:76-126 | nor the ON key |
| `ValveInv.KeyOffKeeps` | applications/key.c:127-195 | nor the OFF key |
| `ValveInv.CloseCommandKeeps` | radio/Radio_Decoder.c:287-304 | nor a remote close |
| `ValveInv.AlarmPersists` | applications/ADCwork.c:121-141 | an alarm survives any number of scans below recovery unchanged |
| `Controller.Controller.DetectAll` | storage/flashwork.c:606-642 | the report lists exactly the silent devices outside the gateway slot |
| `Controller.Controller.FindDead` | storage/flashwork.c:674-696 | some ordinary slot is not alive |
| `Controller.Controller.CloseValve` | radio/Radio_Decoder.c:287-304 | keeps the lock and the invariants |
| `ControllerInv.NormalStep` | radio/Radio_Decoder.c:406-453 | a message keeps the invariants, and the lock iff it is no accepted open command |
| `ControllerInv.GatewayStep` | radio/Radio_Decoder.c:346-405 | the same for gateway messages |
| `ControllerInv.RebootStep` | applications/Moto.c:211-234 | a restart keeps the lock |
| `ControllerInv.WipeStep` | storage/flashwork.c:725-732 | a wipe lifts it |
| `OfflineWindow.TrackStep` | storage/flashwork.c:249-271 | one event between passes |
| `OfflineWindow.PassReports` | storage/flashwork.c:606-642 | the pass against the message flag, across the saturating count |
| `Format.Writer.PrintPointer` | rt-thread/src/kservice.c:1051-1066 | eight zero-padded hex digits unless a width is given |
| `Format.Writer.PrintInteger` | rt-thread/src/kservice.c:1074-1130 | base, sign and qualifier |
| `Format.Writer.PrintAll` | rt-thread/src/kservice.c:916-1131 | the whole format loop |
| `Format.Writer.Finish` | rt-thread/src/kservice.c:1133-1140 | the terminator at the cursor or in the last byte |
| `Format.SkipAtoi` | rt-thread/src/kservice.c:693-700 | the number and where its digits end |
| `Scanner.Round` | radio/Radio_Decoder_Utils.c:29-69 | one round of the scan loop; values, overrun and end of the whole scan follow from the next position |
| `Radio.Sum` | radio/Radio_Encoder.c:107-110 | the 8-bit sum of the first n characters: their unreduced sum modulo 256 |
| `Radio.Seal` | radio/Radio_Encoder.c:111-114 | bytes 28 and 29 are upper-case hex digits that denote the sum of the 28 before modulo 256; nothing but bytes 28 to 31 changes |
| `AlignedAlloc.SaveBefore` | rt-thread/src/kservice.c:1682-1694 | for every rounded alignment but 0 the pointer is saved inside the block, in the word before the result |
| `ValveInv.OpensOk` | applications/Moto.c:41-89 | opening by either action keeps the invariants, NormalOpen also the lock |
| `ValveInv.ClosesOk` | applications/Moto.c:90-129 | closing leaves the valve at rest in all three branches, the refused one included |
| `ValveInv.EnableMeans` | applications/Status.c:43-60 | after warning 1 to 9 the priority is the larger of its own, 6 8 1 7 5 3 4 2 3, and the one before; an accepted closing warning has shut the valve |
| `ValveInv.DisableSame` | applications/Status.c:76-81 | lifting a warning touches neither lock, pins, timers nor masks |
| `ValveInv.MasksOff1` | applications/Moto.c:148-174 | the end of an exercise lifts both masks |
| `ValveInv.BootOk` | applications/Moto.c:224-233 | the opening logic keeps lock and exercise from every sound state |
| `RegistryInv.DeleteKeeps` | storage/flashwork.c:482-502 | what a deletion keeps, loses and leaves alone |
| `RegistryInv.GatewayOverwrites` | storage/flashwork.c:406-433 | a new gateway pushes out a registered device iff its id stands in the gateway slot |
| `Controller.Controller.constructor` | storage/flashwork.c:704-732 | a new device satisfies all invariants |
| `Controller.Controller.Serve` | applications/key.c:65-225 | a whole run in place is a run of the model: invariants hold, a reload reproduces the table, nothing harmless opens a locked valve, roles hold while the gateway stays |
| `Controller.Controller.Silence` | radio/Radio_Decoder.c:287-296 | true iff this message took back the last pending alarm |
| `ControllerInv.ExerciseEnds` | applications/Moto.c:148-205 | from every masked state of every run a schedule of at most two timers lifts both masks and leaves the valve open |
| `OfflineWindow.PassIsExact` | storage/flashwork.c:606-637 | the whole report against the table |
| `StackCycles.Pumped` | rt-thread/tools/WCS.py:262-265 | a reachable cycle that uses stack yields chains of every stack size |
| `StackCycles.WorstExists` | rt-thread/tools/WCS.py:257-291 | a worst case exists iff no reachable cycle uses stack |
| `StackCycles.ZeroCycle` | rt-thread/tools/WCS.py:262-265 | a cycle of functions without stack is called unbounded although its worst case is 0 |
| `MemPool.MemPool.DetachTest` | rt-thread/src/mempool.c:157-157 | the test made with interrupts enabled |
| `MemPool.MemPool.DetachWake` | rt-thread/src/mempool.c:159-175 | the section resumes the head of the list and keeps the invariant |
| `PoolModel.DetachExact` | rt-thread/src/mempool.c:157-176 | after the test, every run of at most n departures leaves a thread for the section iff more than n were waiting |
| `FormatModel.CountExact` | rt-thread/src/kservice.c:1133-1145 | returned count against stored characters, exactly |
| `FormatModel.StoredIs` | rt-thread/src/kservice.c:1133-1140 | what the buffer holds before and after the terminator |
| `FormatModel.CutText` | rt-thread/src/kservice.c:1133-1145 | "ab" into two bytes returns 2 and leaves one character |
| `FormatModel.AtoiExact` | rt-thread/src/kservice.c:693-700 | C defines skip_atoi exactly for numbers up to INT_MAX - 48 |
| `PrintScan.OctalExact` | rt-thread/src/kservice.c:672-691 | %o prints the octal digits iff the number is below 8 |
| `PrintScan.OctalDenotes` | rt-thread/src/kservice.c:1074-1076 | what octal digits are |
| `PrintScan.OctalOfEight` | rt-thread/src/kservice.c:672-691 | %o of 8 prints "8" |
| `ScanModel.ClosedExact` | radio/Radio_Decoder_Utils.c:26-69 | a format is safe for every input iff no % stands alone at its end |
| `Memory.ForwardExact` | rt-thread/src/kservice.c:260-330 | copying upwards hands over the original bytes for all contents iff the destination does not overlap the source from above |
| `AlignedAlloc.AlignmentExact` | rt-thread/src/kservice.c:1682-1689 | the address is a multiple of the rounded alignment for every block iff that is a power of two |
| `AlignedAlloc.FittingExact` | rt-thread/src/kservice.c:1671-1678 | the request covers size and alignment iff nothing wraps, for every alignment |
| `AlignedAlloc.OthersSurvive` | rt-thread/src/mem.c:279-559 | a block that an operation does not name is still live afterwards |
| `AlignedAlloc.PerformAll` | rt-thread/src/kservice.c:1661-1715 | an aligned block and its saved word survive any run of allocations, releases and resizes of other blocks |
| `HeapRuns.TakenCapacity` | rt-thread/src/mem.c:328-383 | what is handed out exceeds the request by less than a header and 12 bytes |
| `HeapRuns.WrappedRequestExample` | rt-thread/src/mem.c:304-321 | 2^32 - 1 bytes on a fresh heap: a 12-byte block |
| `AlignedAlloc.ContainmentExact` | rt-thread/src/kservice.c:1682-1692 | the address lies inside every block that is large enough iff the rounded alignment is not 0 |
| `AlignedAlloc.ZeroPlace` | rt-thread/src/kservice.c:1682-1689 | a rounded alignment of 0 gives address 0 |
| `AlignedAlloc.PowerIsMet` | rt-thread/src/kservice.c:1682-1689 | every power of two is met, also below a word |
| `AlignedAlloc.BytesFitExact` | rt-thread/src/kservice.c:1671-1697 | for every heap the bytes of a served request lie inside its block iff nothing wraps |
| `Bits.DownIsAnd` | rt-thread/include/rtdef.h:363 | RT_ALIGN_DOWN takes away the masked bits, for every alignment |
| `Bits.AndSumFull` | rt-thread/src/kservice.c:1688-1688 | if adding a mask sets all its bits the number had none of them: why the result is never the block itself |
| `ScanModel.ResultExact` | radio/Radio_Decoder_Utils.c:10-73 | the result is what the comment promises iff the input does not end before anything was read; then it is 0 instead of EOF |
| `ScanModel.EmptyInputFails` | radio/Radio_Decoder_Utils.c:29-73 | the empty input, under every format that asks for something |
| `StatusInv.KeyOnShows` | applications/key.c:76-106 | the ON key starts to show Open over a shut valve iff the probe is unplugged and the valve locked |
| `StatusRuns.StepShows` | applications/key.c:65-225 | no event shows Close over an open valve, and only that key press starts to show Open over a shut one |
| `StatusRuns.StatusHolds` | applications/Status.c:239-252 | over every run Close is true; Open is true without such a press; without a wipe a valve shown open is open or locked |
| `StatusRuns.WipeMisleads` | storage/flashwork.c:725-732 | after such a press a wipe leaves Open shown over a shut valve that is not locked |
| `RadioTrip.RadioDelivery` | radio/Radio_Decoder.c:406-411 | for everything that can be sent: a text of more than 32 characters is ignored, any other is scanned with its seal |
| `ControllerInv.EveryOrderEnds` | applications/Moto.c:148-205 | in whatever order they fire, three motor timers end an exercise, and until then one is pending |
| `MemPool.StrideExact` | rt-thread/src/mempool.c:111-116 | a block has its bytes and header iff nothing wraps; just above that the stride is 0 |
| `HeapRuns.ReallocAnswers` | rt-thread/src/mem.c:436-507 | for every heap, pointer and admissible size: an answer iff the capacity is the size asked for, or exceeds it by more than a header and 12 bytes, or some free block is large enough; an equal size returns the block with the heap unchanged |
| `HeapRuns.ShrinkChanges` | rt-thread/src/mem.c:468-495 | a shrink in place keeps the address |
| `HeapRuns.ReallocRefuses` | rt-thread/src/mem.c:436-447 | sizes above the heap are refused with nothing changed |
| `PoolModel.EnterExact` | rt-thread/src/mempool.c:335-411 | a caller gets the head of the free list iff there is one; without one it is refused with nothing changed iff it will not wait, else it alone joins the end of the wait list |
| `PoolModel.GiveBackExact` | rt-thread/src/mempool.c:430-461 | a block given back becomes the head of the free list and wakes exactly the thread at the head of the wait list |
| `DirectiveLaws.ParsesBack` | rt-thread/src/kservice.c:926-981 | every specification, written with any flags, width, precision, stars, qualifier and conversion, is understood as exactly that |
| `DirectiveLaws.TextPrints` | rt-thread/src/kservice.c:915-924 | text before a percent sign is printed as it is |
| `DirectiveLaws.DirectivePrints` | rt-thread/src/kservice.c:926-1138 | a specification prints the argument after those of its stars, and the output goes on behind it with the next argument |
| `FormatLaws.CharLaw` | rt-thread/src/kservice.c:996-1017 | %c: the low byte of the argument in a field of blanks, on the side that the flag says |
| `FormatLaws.StringLaw` | rt-thread/src/kservice.c:1019-1049 | %s: the first n characters behind the pointer, n the least of length, width and a positive precision, in a field of blanks; only a null pointer prints "(NULL)" |
| `FormatLaws.PointerLaw` | rt-thread/src/kservice.c:1051-1066 | %p: all 32 bits in base 16, eight digits with zeros unless a width is given |
| `FormatLaws.OtherLaw` | rt-thread/src/kservice.c:1068-1109 | %% and an unfinished specification print one percent sign, an unknown one itself |
| `FormatLaws.DecimalLaw` | rt-thread/src/kservice.c:1084-1135 | %d and %i: sign, digits that denote the value of the argument (a short under h) in base 10, and the padding by flags, width and precision |
| `FormatLaws.UnsignedLaw` | rt-thread/src/kservice.c:1074-1135 | %u, %x and %X: digits that denote the argument (an unsigned short under h) in base 10 or 16, %X alone with capitals |
| `FormatLaws.HiddenLaw` | rt-thread/src/kservice.c:713-871 | a precision of 0 prints no digit, but the digits count for the padding |
| `FormatLaws.RoomLaw` | rt-thread/src/kservice.c:904-912 | the usable part of a buffer is all of it or ends at the last address |
| `ScanLaws.ItemTaken` | radio/Radio_Decoder_Utils.c:29-69 | each directive takes exactly its part of the input: blanks before a literal; blanks, sign, 0x and digits of a number, stored with saturation; nothing for white space and unknown conversions |
| `ScanLaws.RefusedStops` | radio/Radio_Decoder_Utils.c:36-63 | input that a literal or a number cannot take stops the scan with nothing more stored |
| `ScanLaws.MismatchStops` | radio/Radio_Decoder_Utils.c:29-73 | for every input and format: up to the first mismatch, or the end of either, exactly the values of the items before it are stored, in order |
| `FrameModel.CheckIsSum` | radio/Radio_Encoder.c:107-110 | the running 8-bit check is the sum of all character codes modulo 256 |
| `FrameModel.SealedIs` | radio/Radio_Encoder.c:107-115 | the sealed bytes are that sum in hex and the line end; the rest is kept |
| `ValveLaws.CloseLaw` | applications/Moto.c:90-129 | shut and at rest in every case; a lock stays; the status is kept only when a locked valve is not asked to lock |
| `ValveLaws.OpenLaw` | applications/Moto.c:65-89 | only OtherOpen opens a locked valve; everything else about an opened valve |
| `ValveLaws.DetectLaw` | applications/Moto.c:236-261 | an exercise turns back exactly the motors whose end switch reads high, counts their edges from 0 and masks keys and probe |
| `ValveLaws.WarningLaw` | applications/Status.c:43-229 | warnings 1 to 9: refused under a higher priority; 1 and 2 shut and lock, 4, 5 and 8 shut, 3, 6 and 9 only show, 7 does neither; the status each one shows |
| `ValveLaws.Turn1Law` | applications/Moto.c:148-174 | the first motor has failed iff fewer than two edges came; warning 6 unless the other one failed |
| `ValveLaws.Turn2Law` | applications/Moto.c:175-195 | the second motor has failed iff fewer than two edges came; alarm and warning 9 follow it |
| `ValveLaws.EdgeLaw` | applications/Moto.c:130-139 | the edge counters count to 255 and start again |
| `ValveLaws.BootLaw` | applications/Moto.c:211-235 | after a reset a pending slave alarm or a lock keeps the valve shut and locked, anything else opens it |
| `ValveLaws.KeyOnLaw` | applications/key.c:76-106 | the ON key opens a shut valve that is not locked, unless a slave closed it; from MasterLostPeak it shows Open |
| `ValveLaws.KeyOffLaw` | applications/key.c:127-195 | the OFF key shuts under Open and MasterLostPeak, acknowledges water that is gone; in factory mode it disables warnings and exercises |
| `ValveLaws.LearnLaw` | applications/key.c:196-230 | held, it starts the learning mode from Open or Close; held again, or after its time, the mode ends |
| `ValveLaws.WaterLaw` | applications/Work.c:37-171 | the scan of the probe in terms of pin levels and its last reading: new water shuts and shows, a lost probe, drying and plugging in only show, nothing else moves the valve |
| `ValveLaws.NtcLaw` | applications/ADCwork.c:121-141 | below 1.153 V the valve is remembered and shut, from 1.168 V on it is put back |
| `ValveLaws.BatteryLaw` | radio/Radio_Decoder.c:188-223 | battery level 1 raises warning 7, level 2 warning 1, none for the door |
| `ValveLaws.DelayLaw` | radio/Radio_Decoder.c:308-330 | data 0 starts the delayed closing of a valve shown Open, anything else calls it off |
| `ValveLaws.GatewayLaw` | radio/Radio_Decoder.c:346-405 | the gateway opens or shuts and locks, under Open and Close only |
| `RegistryLaws.AddDeviceLaw` | storage/flashwork.c:365-376 | refused iff slots 1 to 12 are taken; else the lowest empty slot holds the device in RAM and flash and nothing else changes |
| `RegistryLaws.AddDoorLaw` | storage/flashwork.c:377-405 | the known door is replaced in its slot; without one the lowest empty slot is taken; refused iff there is neither |
| `RegistryLaws.AddGatewayLaw` | storage/flashwork.c:406-435 | the same for the gateway |
| `RegistryLaws.LearnLaw` | radio/Radio_Decoder.c:97-145 | a learning request goes to device, door or gateway by the range of its id, and is refused iff the table is full and no known role is replaced |
| `RegistryLaws.AlarmLaw` | storage/flashwork.c:750-771 | a slave alarm sets its column; the flash key is written iff the column differed |
| `RegistryLaws.AlarmReloads` | storage/flashwork.c:750-771 | the alarm survives a reload iff its column was not set before, or its key was |
| `RegistryLaws.StaleColumnLosesAlarm` | storage/flashwork.c:482-502 | a deleted device leaves its alarm column behind: the alarm of the next device in that slot is lost by a reload |
| `RegistryLaws.PendingLaw` | storage/flashwork.c:704-749 | after a reload an alarm is pending iff one is stored for an id of the table |
| `RegistryLaws.LoadLaw` | storage/flashwork.c:704-724 | a reload restores ids, alive and alarm columns from their keys and clears hours and messages |
| `RegistryLaws.AliveLaw` | storage/flashwork.c:249-271 | the alive column and message mark of exactly one slot; the key is written iff one of them differed |
| `OfflineWindow.SweepWarns` | storage/flashwork.c:606-642 | the pass raises the offline warning iff an ordinary device, neither door nor gateway, was silent for 25 hours |
| `OfflineWindow.SweepMarks` | storage/flashwork.c:606-642 | it marks exactly the reported slots as dead |
| `ControllerLaws.HourLaw` | applications/RTCWork.c:19-45 | the valve is exercised at every 120th hour; each 25th pass raises warning 5 iff an ordinary device is lost |
| `ControllerLaws.RestartLaw` | applications/Moto.c:211-235 | a restart reproduces the table; with an alarm stored for it, or the lock, the valve stays shut and locked, else it opens |
| `ControllerLaws.CommandLaw` | radio/Radio_Decoder.c:176-345 | each command of a registered device: battery, learning, water, opening, closing, delay; a closing by the holder of the last alarm also takes the warnings back |
| `ControllerLaws.MessageTable` | radio/Radio_Decoder.c:176-345 | a message marks its sender alive, heard and not late, and sets or takes back its alarm; nothing else in the table changes |
| `ControllerLaws.StrangerIgnored` | radio/Radio_Decoder.c:406-452 | outside the learning mode an unknown sender changes nothing |
| `ControllerLaws.LearningStranger` | radio/Radio_Decoder.c:97-175 | in the learning mode an unknown sender is learned by a request with data 1 and does nothing otherwise |
| `ControllerLaws.RecoveryLaw` | storage/flashwork.c:668-703 | a message ends the offline display iff no ordinary device is marked dead any more |
| `ControllerLaws.StepLaw` | applications/key.c:65-225 | every event does to valve, table and clock what these laws say |
| `ControllerLaws.AlarmSurvivesRestart` | radio/Radio_Decoder.c:235-262 | over the step from a report to the next restart: shut, locked and showing the slave alarm iff the alarm column of the slot was not set before, or an alarm was stored |

## Left out

- rt_smem_init: rounding the area's bounds to words; the model starts from the rounded size. The header's thread name and the memory trace options are not modelled either.
- Heap words: payloads are words, so byte contents inside a word are covered only by `Memory`.
- SmallMem.SmallMem.Realloc: the kept prefix is stated in words, the unit of the code's copy after rounding; the source's `prev` word of the end marker is not described because splitting does not maintain it.
- Pool objects: rt_mp_create and rt_mp_delete would add only object bookkeeping.
- WCS.py: reading object, RTL and stack-usage files, validation and printing.
- Format.SkipAtoi: computes with mathematical integers; `AtoiExact` says for which numbers C defines the result.
- Format.VsnPrintf: widths and precisions beyond an int, the negation of the smallest int, and arguments wider than one 32-bit slot.
- RadioTrip.RadioRoundTrip: from 29 to 32 characters the checksum digits decide what the receiver reads, so no fields are promised there; `RadioDelivery` says what is scanned. Frames of types 1 to 3 print longer lists the same way.
- Radio channel: AX5043 registers, SPI, retries and acknowledgements; the channel delivers the bytes sent.
- AlignedAlloc.MallocAlign: an alignment that rounds to 0 makes the code store the pointer in the last word of the address space, and a served request that wraps may be written outside its block; neither write is described (`ContainmentExact`, `BytesFitExact` give the conditions).
- ControllerLaws.StepLaw: a frame whose sender id is 0 passes for an empty slot; what it does is not described.
- Controller events: handlers are atomic, semaphores and key debouncing reduce to events, keys are allowed even while masked.
- Controller outputs: LED, beeper, radio replies and gateway uploads; the Bat and Rssi columns; factory signal tests; the gateway's heartbeat.
- ADC averaging: the voltage is a parameter of the scan, a real number instead of a double.
- Flash contents: keys and values as text, wear levelling and write failures of EasyFlash; the key "Moto" is a field of the valve.
- Drivers, start-up, scheduler, timers, IPC, SMP and idle code: hardware or outside the firmware's own logic.
