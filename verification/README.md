# A verified model of the QM35 Linux driver

The QM35 driver talks to an ultra-wideband chip over SPI. This project models its stateful parts in Dafny and
proves what they keep. It covers six components, each in the form the C code has: functions for pure expressions,
classes whose methods update fields and byte arrays in place, and a transition system where threads interleave.

* **Trace ring** (`TraceRing`, `TraceRuns`, `TraceLayout`, `RingBuffer`, `LogLayer`). The overwriting ring buffer of
  `qm35_rb.c`. `RingBuffer` is a byte array with three indices; each method is proved equal to one operation on lists
  of entries (`TraceRing`), and the guarantees over any sequence of operations are proved there (`TraceRuns`).
* **HSSPI engine** (`HsspiCore`, `HsspiEngine`, `HsspiSafety`, `HsspiBarrier`, `HsspiRuns`, `HsspiProgress`, `HsspiWire`,
  `HsspiErrors`). Callers, the SS_IRQ handler and the worker thread as a labelled transition system, one label for each
  locked region, bit operation, test of the stop request, call back or SPI exchange. A label whose actor is elsewhere
  leaves the state alone, so *every* label sequence is an interleaving and the theorems quantify over all of them.
  `HsspiCore` holds the locked regions, as functions and as a class; `HsspiProgress` proves what gets done, `HsspiWire`
  what the headers on the wire say, `HsspiErrors` when failures reset the device.
* **HSSPI transfers** (`HsspiTransfer`, `HsspiTransferRuns`). The functions the worker calls, over the shared headers,
  with the interrupt handlers acting meanwhile. What they do is proved to be a run of the transition system.
* **UCI layer** (`UciSplit`, `UciLifetime`, `UciLayer`). One block is cut into packets that alias its memory.
* **Core dumps** (`CoredumpSpec`, `CoredumpLayer`). A dump is rebuilt from chunks and acknowledged by a 16-bit sum.
* **Firmware** (`Stitching`, `Unstitching`, `FlashSpec`, `RomHandle`, `FlashPlan`, `FlashB0`, `FlashC0`). A stitched file
  is taken apart and sent chunk by chunk. The wire log records every SPI frame with the device's last answer, so
  the end-to-end theorems say which writes were made, with which command, on which response, in which order.

Run `dafny verify dfyconfig.toml` to check everything.

## Assumptions

* The host is little-endian, `size_t` has 64 bits and `uint32_t` sums wrap (written out with `% MODULUS`).
* Ring: `size > 3 * (len + 2) + 2` for every pushed length (`TraceRing.Fits`). The shipped size meets it for every
  block the log layer lets through (`LogLayer.GuardAdmitsPush`).
* Ring: the first size word of the memory from `kmalloc` reads as zero. `rb_init` does not make it so.
  `RingBuffer.FirstPushHoldsIffZero` proves that the first push ends with exactly its entry held if and only if it is
  zero, and `RingBuffer.GarbageFirstWord` gives bytes on which that push never ends.
* Ring: the `kmalloc` inside `__rb_pop` succeeds (its result is not checked).
* Core dump: the allocator refuses 2 GiB and more, so a write index plus a 16-bit body size fits 32 bits.
* Flashing: files are below 2 GiB (`int sent` is compared with a `size_t`), `comms_retries` is not negative, and the
  allocator refuses 2 GiB and more (`Unstitching.Bounded`).
* Inputs: what the device, the SPI bus, GPIO lines, timers and the allocator answer is arbitrary (nondeterministic
  choices, label arguments, or parameters such as `granted`, `grants` and `alloc`). Only header bytes that a returned
  `spi_xfer` has checked are restricted (`HsspiEngine.Plausible`).
* Instrumentation that no modelled code reads: the serial and registration number of a block, the logs `accepted`,
  `sent`, `xfers`, `irqs`, `gens`, `calls`, `wire`, `tries`, `effects` and the ghost fields `ring`, `live` and `pending`.

## Behaviour kept although it may surprise

* When the eviction index must leave the wrap marker, `__rb_skip` also drops the first entry of the new lap
  (`TraceRing.Evict`). No minimal eviction is claimed; the retention bound accounts for it.
* A push that wraps while the reader has caught up can send the reader back to entries already read.
  `TraceRing.Rewinds` is the exact condition: `PushReaderView` proves the reader's view a lossy queue if and only if
  it does not hold, and `TraceRuns.RewindHappens` is a run in which an entry is delivered twice.
* A reader still at index 0 when the writer wraps with the tail one entry on skips all it had not read. That is the only
  case: `TraceRing.PushKeepsReader` proves it with the exact condition `TraceRing.LosesReader`.
* The comment in `hsspi_unregister` says that afterwards nothing refers to the layer. That holds for the registration
  that was ended; if the layer is registered again before the call returns, new references may exist
  (`HsspiRuns.NewReferenceRemains`). `HsspiRuns.UnregisterBarrier` states what holds in both cases.
* `qmrom_unstitch_fw` adds offset and length in 32 bits, so a crafted file that is not a stitched file can pass every
  check (`WrappedFileIsAccepted`). `AcceptedIffNoWrap` gives the exact condition and `SmallAcceptedIff` shows that the
  kernel allocator's limit rules it out for files below 2 GiB.
* The same function reads length words without checking that they lie in the file. What lies behind it is a parameter
  (`beyond`). With the allocator's limit and files below 2 GiB it decides neither acceptance nor the segments
  (`Unstitching.SmallResultIsTheFilesOwn`), only which error a refused file gets (`Unstitching.ErrorDependsOnBeyond`).
  Without that limit it can decide acceptance (`Stitching.SecondLengthOutside`).
* Clearing the UCI list frees memory whether or not a reader still copies from it: `UciLifetime.ClearingUnderTheReader`
  is a run in which it does. `UciLifetime.ClearKeepsHeldIff` is the exact condition before the call.
* `qmrom_c0_flash_fw` returns 0 when the device's first response is not the one that asks for the first key, although
  no data was sent (`FlashC0.Flashed`). The input is any other response byte; the device's answers are unconstrained.
* With a first key certificate of 12 bytes or less, the certificate kind is read past its end; any value is allowed for
  it (`RomHandle.CheckKind`).

## Model

| member | source | states |
|---|---|---|
| TraceRing.MarkerPassed | qm35_rb.c:121-143 | when the eviction index must pass the wrap marker the new lap already has two entries, so no size word is read from stale bytes |
| TraceRing.EvictKeepsMid | qm35_rb.c:178-189 | one eviction drops exactly the oldest held entry; the reader loses exactly its own oldest if it stood at the tail, and nothing otherwise |
| TraceRing.EvictForKeepsMid | qm35_rb.c:178-189 | the whole loop ends with room for the entry and only shortens the held and unread entries from their old end |
| TraceRing.PlacedIsMid | qm35_rb.c:162-173 | after the end-of-buffer check the loop invariant holds, wrapped or not |
| TraceRing.PlacedLog | qm35_rb.c:162-173 | wrapping forgets exactly the rest of the lap before, and only when entries have to be evicted anyway |
| TraceRing.PlacedUnread | qm35_rb.c:162-173 | what wrapping does to the reader, with and without the rewind |
| TraceRing.WrapUnread | qm35_rb.c:167-173 | the same for a reader in the lap that is being closed |
| TraceRing.MakeRoomReachesMid | qm35_rb.c:162-189 | making room leaves suffixes of the held and unread entries, the latter unless the reader is rewound |
| TraceRing.AppendKeepsInv | qm35_rb.c:191-199 | once there is room, writing the entry restores the layout invariant and adds it to both views |
| TraceRing.PushKeepsInv | qm35_rb.c:145-203 | every push keeps the layout invariant |
| TraceRing.PushKeepsNewestLog | qm35_rb.c:145-203 | for every push, wrapping or not, the held entries become a suffix of the old ones plus the new entry |
| TraceRing.FreshLapSurvives | qm35_rb.c:178-189 | a lap just closed is never evicted whole by the push that closed it |
| TraceRing.RewindRereads | qm35_rb.c:167-185 | a rewound reader meets at least one old entry before the new one |
| TraceRing.PushReaderView | qm35_rb.c:145-203 | the unread entries become a suffix of the old ones plus the new entry if and only if the push does not rewind a caught-up reader; a rewound reader sees the whole held log |
| TraceRing.PlacedKeepsReader | qm35_rb.c:162-173 | the end-of-buffer check alone drops nothing the reader has still to read, or leaves it at the tail, but for a reader left at 0 that is wrapped over |
| TraceRing.EvictForKeepsReader | qm35_rb.c:178-189 | nor does the eviction loop: the reader keeps everything or ends at the tail |
| TraceRing.PushKeepsReader | qm35_rb.c:145-203 | over a push the reader keeps all it has not read and gains the new entry, or stands at the tail, if and only if it is not a reader left at 0 that the writer wraps over with the tail one entry on |
| TraceRing.OneEvictionRetains | qm35_rb.c:178-189 | whenever one entry is evicted, what is left plus two largest entries, the new one and a marker fill the buffer |
| TraceRing.EvictionRetains | qm35_rb.c:178-189 | the same for the whole loop, which then drops at least one entry |
| TraceRing.MakeRoomRetains | qm35_rb.c:162-189 | the same for wrapping and evicting together |
| TraceRing.PushRetention | qm35_rb.c:145-203 | a push either drops nothing or leaves at least `size - 2 * largest - 2` bytes held, and keeps that bound once reached |
| TraceRing.MakeRoomKeepsAllIff | qm35_rb.c:162-189 | making room drops nothing exactly when the entry does not reach the tail after the end-of-buffer check |
| TraceRing.PlacedOverrunsIff | qm35_rb.c:162-178 | that condition in bytes: where the entry goes, and whether it ends before the oldest one |
| TraceRing.PushKeepsAllIff | qm35_rb.c:145-203 | exactly when a push starts a new lap (fewer than the entry, its size word and a marker are left), and exactly when it drops nothing |
| TraceRing.NextSizeKeepsView | qm35_rb.c:52-86 | asking for the next size changes neither the held nor the unread entries |
| TraceRing.PopTakesFirst | qm35_rb.c:88-119 | a pop removes exactly the first unread entry and nothing the writer holds |
| TraceRing.ResetShowsLog | qm35_rb.c:205-210 | after a reset the unread entries are exactly the held ones |
| TraceRuns.Run | qm35_rb.c:52-210 | after any sequence of pushes, pops, size queries and resets the layout invariant holds |
| TraceRuns.DoKeepsInv | qm35_rb.c:52-210 | each operation keeps the layout invariant |
| TraceRuns.InitIsEmpty | qm35_rb.c:212-225 | a new ring satisfies the invariant and holds nothing |
| TraceRuns.PushKeepsNewest | qm35_rb.c:145-203 | one push keeps: held entries are the newest of all, and if any was dropped the retention bound holds |
| TraceRuns.DoKeepsNewest | qm35_rb.c:52-210 | the same for every operation |
| TraceRuns.DoReads | qm35_rb.c:52-210 | what each operation pops, and what it leaves unread |
| TraceRuns.LargestIsTracked | qm35_rb.c:145-203 | the bound's `largest` is the largest entry pushed so far, over any run |
| TraceRuns.LargestIsMaximum | qm35_rb.c:145-203 | it bounds every pushed entry with its size word, and is one of them or the start value |
| TraceRuns.HeldEntries | qm35_rb.c:52-210 | over any run the held entries are the newest ones, and once one was dropped the bound holds |
| TraceRuns.RetentionBound | qm35_rb.c:162-189 | from empty, over any run: a suffix of all pushed entries is held, of at least `size - 2E - 2` bytes once anything was dropped, E the largest entry pushed |
| TraceRuns.PushKeepsReads | qm35_rb.c:145-203 | a push without rewind keeps the reading history in order |
| TraceRuns.PopKeepsReads | qm35_rb.c:88-119 | a pop extends it by the next position |
| TraceRuns.ReaderIsLossyQueue | qm35_rb.c:88-203 | over any run without reset or rewind, what is popped is picked in order and without repetition from what was pushed, and what is unread comes after it |
| TraceRuns.RewindingPush | qm35_rb.c:167-185 | a push that wraps under a caught-up reader and leaves it at an entry already read |
| TraceRuns.RewindHappens | qm35_rb.c:145-203 | a run from empty reaches that push, and the pop after it delivers an entry a second time: the exception is real |
| TraceRuns.Drain | qm35_rb.c:88-119 | popping n times delivers the first n unread entries |
| TraceRuns.ResetThenDrain | qm35_rb.c:205-210 | after any run a reset and as many pops as entries are held deliver exactly the newest pushed entries still held |
| TraceLayout.HoldsAppend | qm35_rb.c:191-199 | two chains of entries stand one behind the other exactly when their concatenation stands there |
| TraceLayout.EntryAt | qm35_rb.c:52-119 | each entry of a chain is found at its offset: size word, then payload, in bounds |
| TraceLayout.SameOffset | qm35_rb.c:179-185 | the two tails are equal as byte offsets exactly when they stand at the same entry boundary |
| RingBuffer.TailStaysIffZero | qm35_rb.c:121-143 | for any fresh memory and any number of turns, the skips of the first push leave the tail at 0 if and only if the first size word is zero |
| RingBuffer.FirstPushHoldsIffZero | qm35_rb.c:145-225 | the first push into fresh memory ends with exactly the pushed entry held if and only if the first size word is zero |
| RingBuffer.GarbageFirstWord | qm35_rb.c:121-189 | with a first size word of 1 and a zero word behind that entry, the eviction loop of the first push never ends |
| RingBuffer.AtHead | qm35_rb.c:35-50 | an index equals `head` exactly when nothing follows it |
| RingBuffer.SizesUnder | qm35_rb.c:52-75 | what the one or two size reads find: the next entry's length and where it starts, in bounds |
| RingBuffer.PopOffset | qm35_rb.c:88-108 | the index past the next entry is the next entry boundary |
| RingBuffer.PlacedAgrees | qm35_rb.c:167-173 | writing the marker and resetting the indices is the wrap of the ring |
| RingBuffer.GuardMeansOverrun | qm35_rb.c:178 | the loop guard on indices holds exactly when the entry would reach the tail, or the ring is empty |
| RingBuffer.EvictTurn | qm35_rb.c:178-189 | one turn of the loop on indices is one eviction of the ring, and the loop makes progress |
| RingBuffer.SkipReads | qm35_rb.c:121-143 | every size word the skip reads is in bounds and is that of a whole entry or the marker |
| RingBuffer.AppendAgrees | qm35_rb.c:191-199 | writing the entry's bytes at `head` appends the entry and damages no other |
| RingBuffer.RingBuffer.constructor | qm35_rb.c:212-225 | takes any memory; the result is a valid empty ring if and only if it has more than two bytes and the first size word is zero |
| RingBuffer.RingBuffer.CanPop | qm35_rb.c:35-50 | true exactly when something is unread |
| RingBuffer.RingBuffer.NextSizeAt | qm35_rb.c:52-75 | finds the next entry's length and start from any index at an entry boundary |
| RingBuffer.RingBuffer.PopAt | qm35_rb.c:88-108 | copies out exactly the next entry and moves past it |
| RingBuffer.RingBuffer.Place | qm35_rb.c:162-173 | in place: the end-of-buffer check with its marker is `TraceRing.Placed` |
| RingBuffer.RingBuffer.Skip | qm35_rb.c:121-143 | in place: moves the tail past one entry, or reports that there is none |
| RingBuffer.RingBuffer.EvictOldest | qm35_rb.c:175-189 | the loop terminates, is `TraceRing.EvictFor`, and leaves room |
| RingBuffer.RingBuffer.Write | qm35_rb.c:191-199 | in place: size word and payload at `head` |
| RingBuffer.RingBuffer.Append | qm35_rb.c:145-203 | `rb_push` in place: 1 and no change for an empty payload; otherwise 0, the ring becomes `TraceRing.Push`, and both views are as above |
| RingBuffer.RingBuffer.ReaderNextSize | qm35_rb.c:77-86 | returns the length of the first unread entry, 0 if none, and changes no view |
| RingBuffer.RingBuffer.ReaderPop | qm35_rb.c:88-119 | returns the first unread entry byte for byte and removes it; the held entries stay |
| RingBuffer.RingBuffer.ReaderReset | qm35_rb.c:205-210 | the reader is back at the oldest held entry |
| LogLayer.ParseTracePacket | hsspi_log.c:208-245 | a trace notification is parsed back to its body, whatever padding follows |
| LogLayer.TraceIff | hsspi_log.c:217-245 | byte by byte, exactly which blocks carry a trace: status 0, command word 0, and a length word that the block is long enough for; the body is the bytes it counts |
| LogLayer.GuardAdmitsPush | hsspi_log.c:225-245 | every body that passes the length guard is at most 65531 bytes and meets the ring's size demand |
| LogLayer.LogLayer.Received | hsspi_log.c:208-260 | for any bytes and status: exactly well-formed, non-empty trace notifications are pushed; anything else leaves the ring, its indices and its bytes as they were |
| HsspiCore.RegisterOutcome | hsspi.c:548-573 | 0 exactly for a number below six whose slot is empty; -22 exactly for one beyond; refused calls change nothing and an accepted one only its slot |
| HsspiCore.UnregisterOutcome | hsspi.c:575-598 | 0 exactly for the layer in its slot, else -22 and no change; then the slot is free, the completion last in the queue, and registering again restores the table |
| HsspiCore.SendOutcome | hsspi.c:666-697 | 0 exactly for a layer registered in its slot of a running engine, -11 exactly when not running, else -22; the block is last in the queue or nothing changes |
| HsspiCore.Hsspi.RegisterLayer | hsspi.c:548-573 | the locked region in place: EINVAL, EBUSY or the slot taken |
| HsspiCore.Hsspi.UnregisterLayer | hsspi.c:575-598 | the locked region in place: the slot cleared and a completion queued last, or EINVAL |
| HsspiCore.Hsspi.SendBlock | hsspi.c:666-697 | error order EINVAL, ENOMEM, EAGAIN, EINVAL; otherwise the block is queued last |
| HsspiCore.Hsspi.StartEngine | hsspi.c:711-717 | the run state becomes running |
| HsspiCore.Hsspi.StopEngine | hsspi.c:724-738 | the run state becomes stopped and a completion is queued last, in one locked region |
| HsspiCore.Hsspi.TakeWork | hsspi.c:84-99 | removes and returns the first job |
| HsspiCore.Hsspi.CheckDeinit | hsspi.c:515-537 | 0 exactly when not running and every slot is empty, else EBUSY |
| HsspiSafety.CallerFrame | hsspi.c:515-743 | an API call never moves the worker, the interrupt line, its pending bit, or the log of exchanges |
| HsspiSafety.HandlerFrame | qm35-spi.c:316-328 | the handler changes only the bit, the disable depth and its own position |
| HsspiSafety.TakeFrame | hsspi.c:84-99 | taking work removes exactly the first job and goes to what it asks for, or to a pre-read if there is none |
| HsspiSafety.LoopFrame | hsspi.c:418-456 | the dispatching loop only takes jobs and serves completions; it changes no layer and not the run state (what it gets done: `HsspiProgress`) |
| HsspiSafety.TransmitFrame | hsspi.c:358-411 | transmitting and pre-reading touch neither the queue, the layers nor the interrupt line |
| HsspiSafety.ReceiveFrame | hsspi.c:300-345 | receiving touches only the pending bit and the disable depth |
| HsspiSafety.HandlerKeepsIrq | qm35-spi.c:316-328 | the handler keeps the disable depth balanced at each micro-step |
| HsspiSafety.ReceiveKeepsIrq | hsspi.c:341-343 | so does the worker when it clears the bit and re-enables the line |
| HsspiSafety.StepKeepsIrq | qm35-spi.c:316-336 | disable depth = bit + handler between disable and set + worker between clear and enable, always 0 or 1, kept by every step |
| HsspiSafety.TakeKeepsConserved | hsspi.c:84-99 | taking a block moves it from queued to in flight |
| HsspiSafety.StepKeepsConserved | hsspi.c:358-384 | accepted blocks = given back, then in flight, then queued, in order; kept by every step |
| HsspiSafety.ExchangeKeepsReads | hsspi.c:210-275 | an exchange is logged with the header the worker prepared |
| HsspiSafety.StepKeepsReads | hsspi.c:300-411 | every read in the log directly follows a successful pre-read that announced it; kept by every step |
| HsspiSafety.StepKeepsWaiting | hsspi.c:437-442 | each queued completion belongs to one call still waiting, none twice; kept by every step |
| HsspiSafety.StopBegins | hsspi.c:724-738 | the stop invariant holds from the locked region on, even if the worker had already seen SS_IRQ set |
| HsspiSafety.StepKeepsStop | hsspi.c:724-743 | it is kept by every step but a start |
| HsspiBarrier.BarrierBegins | hsspi.c:575-598 | the unregister invariant holds from the locked region on |
| HsspiBarrier.TakeKeepsBarrier | hsspi.c:84-99 | the worker taking a job keeps it |
| HsspiBarrier.StepKeepsBarrier | hsspi.c:575-614 | every step keeps it: behind the completion, and everywhere once it is served, only later registrations are named |
| HsspiBarrier.StepKeepsDated | hsspi.c:666-709 | every reference names a registration that has happened |
| HsspiBarrier.UnregisterKeepsCovered | hsspi.c:575-598 | unregistering leaves each queued block of the layer with a completion waiting behind it |
| HsspiBarrier.StepKeepsCovered | hsspi.c:575-709 | each queued block belongs to a live registration or has its unregister waiting behind it; kept by every step |
| HsspiRuns.StepKeepsSafe | hsspi.c:418-743 | all invariants together are inductive |
| HsspiRuns.ReachableIsSafe | hsspi.c:418-743 | they hold after every interleaving |
| HsspiRuns.StopPersists | hsspi.c:724-743 | from a stop on, in every interleaving without a start, the stop invariant holds |
| HsspiRuns.QuiescentAfterStop | hsspi.c:724-743 | once `hsspi_stop` has returned and nobody has started the engine since the call, the worker is in no transfer and no block is queued for one |
| HsspiRuns.BarrierPersists | hsspi.c:575-614 | from an unregister on, in every interleaving, its invariant holds |
| HsspiRuns.UnregisterBarrier | hsspi.c:575-614 | once `hsspi_unregister` has returned, no block accepted for the layer before is queued or in flight, whatever still names it, queued or held, belongs to a later registration, and without one nothing names it |
| HsspiRuns.NewReferenceRemains | hsspi.c:601-606 | a run after which the call has returned and a queued block names the layer, because it was registered again meanwhile |
| HsspiRuns.TxConservation | hsspi.c:358-384 | in every reachable state the accepted blocks are those given to `sent`, each once and in order, then the one in flight, then those queued |
| HsspiRuns.DeinitLeavesNoBlock | hsspi.c:515-546 | when the deinit checks pass and no unregister waits, no block is queued: all were given back or one is in flight |
| HsspiRuns.IrqLine | qm35-spi.c:316-336 | in every reachable state the line is disabled at most once, and is disabled and the bit clear when the worker is about to enable it |
| HsspiRuns.BitClearedAfterRead | hsspi.c:338-345 | only the worker clears the bit, and only after a successful read whose header shows no more data waiting |
| HsspiRuns.ReadFollowsPreRead | hsspi.c:358-411 | in every run each read directly follows a successful pre-read that announced its layer and length |
| HsspiProgress.OthersKeep | hsspi.c:515-743 | whatever callers and handler do, the worker stays, the bit does not go, and jobs only join the queue behind |
| HsspiProgress.NoLostWakeup | hsspi.c:110-129 | no wake-up is lost: with a job queued, or a pending interrupt of a running engine, whatever callers and handler do between the worker's steps, an idle worker takes the first job, or makes a pre-read if there is none |
| HsspiProgress.PendingInterruptIsServed | hsspi.c:127-128 | with an empty queue and a running engine a pending interrupt leads, in four steps, to a pre-read and to nothing else |
| HsspiProgress.NothingIsServed | hsspi.c:127-128 | with an empty queue, and a stopped engine or no interrupt, they do not: the worker goes back to its wait |
| HsspiProgress.StoppedThreadEnds | hsspi.c:428-435 | a thread told to stop ends without taking a job, whatever waits |
| HsspiProgress.InterruptIsSeen | qm35-spi.c:316-328 | an interrupt that finds the line enabled disables it and sets the bit |
| HsspiProgress.ReadEnds | hsspi.c:318-345 | a good read without more data waiting clears a set bit and enables the line; after any other both stay |
| HsspiProgress.TeardownNeedsQuiet | hsspi.c:515-546 | the deinit checks pass exactly for a stopped engine with six empty slots, and the thread can only be stopped after them |
| HsspiProgress.TakeKeepsAwaited | hsspi.c:84-99 | a completion taken from the queue is in the worker's hands |
| HsspiProgress.StepKeepsAwaited | hsspi.c:418-743 | every call still waiting has its completion queued or in the worker's hands; kept by every step |
| HsspiProgress.ReachableIsAwaited | hsspi.c:418-743 | so it is in every reachable state: no completion is lost |
| HsspiProgress.LoopDrains | hsspi.c:418-456 | every step of the thread function brings the worker nearer to an empty queue |
| HsspiProgress.TransmitDrains | hsspi.c:358-411 | so does every step of transmitting and pre-reading, whatever the device answers |
| HsspiProgress.ReceiveDrains | hsspi.c:300-345 | and of receiving |
| HsspiProgress.NextDrains | hsspi.c:418-456 | from any state satisfying the invariants the worker's next step exists and decreases the work left |
| HsspiProgress.WorkerDrains | hsspi.c:418-456 | left to itself the worker reaches an empty queue in a bounded number of steps, whatever the device answers |
| HsspiProgress.EverythingIsServed | hsspi.c:418-743 | after any run that leaves the thread alive, in at most 20 steps for each queued job and 26 more, the worker has given back every accepted block and completed every waiting call, whatever the device answers |
| HsspiWire.ExchangeKeepsWrites | hsspi.c:358-411 | an exchange logs a write with the layer and length of the block taken, or a pre-read with neither |
| HsspiWire.StepKeepsWrites | hsspi.c:300-411 | the layers and lengths of the writes on the wire are, in order, those of the blocks given back and the one just exchanged; every other exchange is an empty pre-read or a read; kept by every step |
| HsspiWire.ReachableWritesCarry | hsspi.c:300-411 | so it is in every reachable state |
| HsspiWire.WireIsAccepted | hsspi.c:358-384 | in every interleaving the write headers on the wire are those of the accepted blocks, in order and each once, and of all of them once the queue is empty and the worker idle |
| HsspiWire.HeaderOnWire | hsspi.c:363-401 | in every reachable state the header just sent is write with the block's layer and length, and the pre-read flag as decided; or the pre-read flag alone with layer and length 0 |
| HsspiWire.GoodExchangesAreReady | hsspi.c:250-262 | in every run an exchange that returned 0 brought back a ready header with the low flags clear |
| HsspiErrors.StreakIsLongest | hsspi.c:458-477 | the streak counts the failures since the last success |
| HsspiErrors.CountNext | hsspi.c:458-477 | how one more result moves the count: the sixth failure in a row resets the device and starts the count again |
| HsspiErrors.Errors.Count | hsspi.c:458-477 | in place: the device is reset exactly on every sixth failure in a row |
| HsspiErrors.ResetsAreRare | hsspi.c:458-477 | over any history every reset takes six failed transfers of its own |
| HsspiTransfer.AppendKeepsAnnounced | hsspi.c:300-345 | logging one more exchange keeps that property if the exchange is announced |
| HsspiTransfer.Transfer.WaitSsReady | hsspi.c:138-186 | 0 only if the ready line was last read high, and at once only with the busy bit found clear, else only after the ready bit was found set; the handlers may move both bits at any time |
| HsspiTransfer.Transfer.SpiXfer | hsspi.c:210-275 | at most five attempts, retried only after EAGAIN, giving up only after five of them; 0 only on a header with RDY set and low nibble clear; without a transfer an error and an empty header; SS_IRQ may come up meanwhile but does not go |
| HsspiTransfer.Transfer.Rx | hsspi.c:300-345 | one read exchange with the announced header, then the layer called back with its status if it is registered and gave a block; 0 exactly when it succeeded with OA set, no error and the announced layer and length; SS_IRQ cleared and the line enabled exactly when the read succeeded without ODW |
| HsspiTransfer.Transfer.Tx | hsspi.c:358-384 | one write exchange with the block's layer and length, with PRD exactly when SS_IRQ was set (`HsspiWire.TxWrites`), then the layer called back with its status, then the read it announced exactly when the write succeeded with PRD |
| HsspiTransfer.Transfer.PreRead | hsspi.c:395-411 | one empty pre-read; then the read it announced exactly when it succeeded |
| HsspiWire.ReadReads | hsspi.c:300-345 | what a read means: the header has the read flag alone and what was announced; 0 exactly on a good exchange with OA set, no error and the same layer and length; the bit is taken and the line enabled only without more data waiting; the layer is called back exactly if found and giving |
| HsspiWire.TxWrites | hsspi.c:363-384 | what a transmit means: the header has the write flag, the pre-read flag exactly when SS_IRQ was set, the layer and the length of the block; the call back comes at once with its result; a read follows exactly after success with the flag |
| HsspiWire.PreReadAsks | hsspi.c:399-411 | what a pre-read means: the header has the pre-read flag alone and layer and length 0; a read follows exactly on success |
| HsspiTransferRuns.ReadIsARun | hsspi.c:300-345 | what `hsspi_rx` does is a run of the transition system: same exchange, same bit, same call back to the layer found in the table, same enabling of the line, worker idle after it |
| HsspiTransferRuns.TxIsARun | hsspi.c:358-384 | so is what `hsspi_tx` does, with the block given to `sent` once; exchanges, call backs and enablings agree in order (their headers: `HsspiWire`) |
| HsspiTransferRuns.PreReadIsARun | hsspi.c:395-411 | and what `hsspi_pre_read` does |
| UciSplit.PiecesPartition | hsspi_uci.c:131-163 | for any bytes and any allocation failure the queued pieces concatenate to the block |
| UciSplit.PiecesDeclared | hsspi_uci.c:136-153 | every piece but the last is as long as its own header declares |
| UciSplit.LastPieceIsUncut | hsspi_uci.c:136-150 | if allocations did not run out, the last piece cannot be cut further |
| UciSplit.PacketIsCut | hsspi_uci.c:131-160 | a well-formed packet is cut off whatever follows it |
| UciSplit.DataPacketIsCut | hsspi_uci.c:109-120 | in bytes: a packet with first byte below 0x20 and its payload length in bytes 2 and 3, low byte first, is cut off whatever follows |
| UciSplit.ControlPacketIsCut | hsspi_uci.c:109-120 | one with first byte from 0x20 to 0x7F, and its payload length in byte 3 alone |
| UciSplit.OtherPacketIsCut | hsspi_uci.c:109-120 | one with first byte from 0x80, as a data packet |
| UciSplit.TruncatedStaysWhole | hsspi_uci.c:136-146 | a block of less than four bytes, or with no more bytes than its header announces, stays whole |
| UciSplit.SplitRoundTrip | hsspi_uci.c:109-163 | receiving well-formed packets back to back queues exactly those packets (what is well-formed, in bytes: the three rows above) |
| UciSplit.SplitIsInjective | hsspi_uci.c:109-163 | two well-formed packet lists with the same bytes are equal |
| UciLifetime.AppendAlias | hsspi_uci.c:148-160 | queuing an alias of the block being cut keeps every packet inside live memory with its owner behind it |
| UciLifetime.AppendOwner | hsspi_uci.c:162-167 | queuing the owner last hands the memory over to the list |
| UciLifetime.RemoveHead | hsspi_uci.c:61-78 | removing the head keeps this, also when the head's memory is freed |
| UciLifetime.BeginCut | hsspi_uci.c:122-133 | new memory is pointed into by nothing |
| UciLifetime.FreeUnused | hsspi_uci.c:50-54 | freeing memory nothing points into keeps the list sound |
| UciLifetime.StepKeepsSound | hsspi_uci.c:61-233 | every step of the receiver, the reader and the clearing keeps the list sound |
| UciLifetime.AlwaysSound | hsspi_uci.c:61-233 | in every interleaving of receiving, reading and clearing no queued packet dangles |
| UciLifetime.StepKeepsNoLeak | hsspi_uci.c:61-233 | after every step all live memory is owned by a queued packet or the reader's, or is being cut |
| UciLifetime.NothingLeaks | hsspi_uci.c:61-233 | in every interleaving: once nothing is queued, held or being cut, no memory is live |
| UciLifetime.DiscardKeepsHeldIff | hsspi_uci.c:67-73 | clearing the head leaves the packet the reader holds alive if and only if the head does not own its memory |
| UciLifetime.StepKeepsBacked | qm35-spi.c:235-255 | a held alias keeps its owner in the list or still being cut |
| UciLifetime.HeldStaysLive | qm35-spi.c:235-255 | with one reader, the memory of the packet it has taken and not yet freed is live in every interleaving in which clearing never takes the owner from under it |
| UciLifetime.LiveIffCalm | qm35-spi.c:235-255 | that condition is exact: the memory is live all along a run if and only if clearing never takes the owner from under the reader |
| UciLifetime.DiscardsFree | hsspi_uci.c:61-78 | clearing any number of packets frees exactly the memory they own |
| UciLifetime.ClearKeepsHeldIff | hsspi_uci.c:61-78 | for the whole of `clear_rx_list`: the packet the reader holds stays alive if and only if no queued packet owns its memory |
| UciLifetime.ClearingUnderTheReader | hsspi_uci.c:61-78 | a run from the empty list after which clearing frees the memory of the packet the reader holds |
| UciLayer.QueueCut | hsspi_uci.c:148-160 | one turn of the cutting loop queues the next piece |
| UciLayer.UciLayer.Free | hsspi_uci.c:50-54 | only an owner gives memory back |
| UciLayer.UciLayer.CutAliases | hsspi_uci.c:131-160 | the cutting loop terminates having queued the pieces so far as aliases, and stops only at the last piece or without memory; it is a run of cuts |
| UciLayer.UciLayer.Received | hsspi_uci.c:122-171 | appends exactly the pieces of the block (`DataPacketIsCut` and its neighbours say where it is cut), the last owning it; on a transfer error the block is freed and the list untouched; in the life of packets it is a block begun, cut and finished, whatever the reader holds |
| UciLayer.UciLayer.ReadPacket | hsspi_uci.c:208-233 | EAGAIN, EMSGSIZE leaving the packet queued, or the head; the head's memory is live and may be freed if it owns it, also while a block is being cut |
| UciLayer.UciLayer.DiscardHead | hsspi_uci.c:67-73 | removes and frees the head; no remaining packet points into freed memory |
| UciLayer.UciLayer.ClearRxList | hsspi_uci.c:61-78 | empties the list and frees exactly the memory its packets own; it is a run of discards, whatever the reader holds |
| CoredumpSpec.SumIsReduced | hsspi_coredump.c:102-115 | the 16-bit sum is the unbounded sum of the bytes modulo 65536 |
| CoredumpSpec.SumInParts | hsspi_coredump.c:102-115 | it is 0 of nothing, the byte of one byte, and of two parts the sum of theirs modulo 65536 |
| CoredumpSpec.AcceptsIffFits | hsspi_coredump.c:172-187 | the 32-bit guard accepts a body exactly when there is memory and it fits behind what is stored |
| CoredumpSpec.OtherOutcome | hsspi_coredump.c:206-268 | a failed transfer or an empty block changes nothing; a short header, a body that does not fit and an unknown block only stop the timer |
| CoredumpSpec.HeaderOutcome | hsspi_coredump.c:148-170 | block 0, in bytes: size and sum are little-endian behind the command; what was stored is dropped, the status is 0, the timer stops |
| CoredumpSpec.BodyOutcome | hsspi_coredump.c:240-262 | block 1, in bytes: a body that fits is stored; one that completes the dump is answered, with 1 exactly if the byte sum modulo 65536 is that of the header; any other starts the timer and sends nothing |
| CoredumpSpec.TimerOutcome | hsspi_coredump.c:117-125 | the timer sends the status once, if it runs |
| CoredumpSpec.BlockKeepsInv | hsspi_coredump.c:195-268 | any block keeps the write index within the size, and an ACK status only over complete data with a matching sum |
| CoredumpSpec.AckIsHonest | hsspi_coredump.c:117-125 | a reply is the status at that moment, so an ACK is sent, on completion or by the timer, only over complete data with a matching sum |
| CoredumpSpec.ApplyStores | hsspi_coredump.c:172-193 | a header empties the stored bytes, an accepted body is appended, anything else leaves them |
| CoredumpSpec.StoredIsBodies | hsspi_coredump.c:148-268 | in every reachable state the stored prefix is the concatenation of the bodies accepted since the last header |
| CoredumpSpec.HeaderIsRead | hsspi_coredump.c:228-238 | size and sum are read back from a header block |
| CoredumpSpec.OneEvent | hsspi_coredump.c:195-268 | a body that fits is stored, and judged if it completes the dump; any other event but a header leaves stored bytes and verdict |
| CoredumpSpec.BodiesAdd | hsspi_coredump.c:195-268 | the same for any events without a header |
| CoredumpSpec.Reassembly | hsspi_coredump.c:117-268 | after any history, a header and any events whose bodies add up to a non-empty dump, timer expiries, failed transfers and unknown blocks among them, store the dump; it is acknowledged, as the last reply, if and only if the header carried the sum of its bytes modulo 65536 |
| CoredumpLayer.CoredumpLayer.GetChecksum | hsspi_coredump.c:102-115 | the 16-bit sum of the stored bytes (`CoredumpSpec.SumIsReduced`) |
| CoredumpLayer.CoredumpLayer.HeaderReceived | hsspi_coredump.c:148-170 | in place: `CoredumpSpec.OnHeader` |
| CoredumpLayer.CoredumpLayer.BodyReceived | hsspi_coredump.c:172-193 | in place: stores the body, or rejects it exactly without memory or room and changes nothing |
| CoredumpLayer.CoredumpLayer.Received | hsspi_coredump.c:195-268 | in place, for any bytes and status: `CoredumpSpec.OnBlock` |
| CoredumpLayer.CoredumpLayer.TimerExpired | hsspi_coredump.c:117-125 | in place: `CoredumpSpec.OnTimer` |
| Words.LittleEndian | libqmrom/src/qmrom_common.c:293-295 | 16- and 32-bit words have the low byte first; taking them apart and reading them are inverse both ways |
| Stitching.ParseStitched | libqmrom/src/qmrom_common.c:293-342 | parsing a stitched file finds each part in place |
| Stitching.AcceptedIsStitched | libqmrom/src/qmrom_common.c:293-342 | a file that is accepted without a 32-bit sum wrapping is a stitched file |
| Stitching.StitchedDoesNotWrap | libqmrom/src/qmrom_common.c:293-342 | in a stitched file below 4 GiB no sum wraps |
| Stitching.ShortSpansDoNotWrap | libqmrom/src/qmrom_common.c:293-342 | segments below 2 GiB in a file below 2 GiB leave no room for a wrap |
| Stitching.InsideIsIndependent | libqmrom/src/qmrom_common.c:293-342 | if every length word read lies in the file, verdict and spans do not depend on what follows the file |
| Stitching.AcceptedReadsInside | libqmrom/src/qmrom_common.c:293-342 | in an accepted file without a wrap every length word read lies in the file |
| Stitching.AcceptedTextsInside | libqmrom/src/qmrom_common.c:383-386 | and so do all bytes copied out |
| Stitching.SecondLengthOutside | libqmrom/src/qmrom_common.c:306-315 | for an eight-byte file whose first length is 4 the second length word is read behind the file and decides whether it is accepted |
| Unstitching.NextSegment | libqmrom/src/qmrom_common.c:293-304 | one length word checked and stepped over is one step of parsing |
| Unstitching.UnstitchFile | libqmrom/src/qmrom_common.c:267-401 | with a running 32-bit total: the revision and size errors, the four segments, the order of the allocations |
| Unstitching.StitchedOutcome | libqmrom/src/qmrom_common.c:267-401 | every outcome on a stitched file below 4 GiB: -22 for the A0 revision, the four segments if all are allocated, else -12 |
| Unstitching.UnstitchOfStitched | libqmrom/src/qmrom_common.c:267-401 | for any four segments with a stitched size below 4 GiB, unstitching returns exactly those |
| Unstitching.AcceptedIffNoWrap | libqmrom/src/qmrom_common.c:295-338 | what is accepted is the stitching of the result if and only if no 32-bit sum wrapped |
| Unstitching.InvalidIffNotStitched | libqmrom/src/qmrom_common.c:267-401 | where no sum wraps, a file is refused with -22 if and only if it is not stitched from four segments; the only other error is -12 |
| Unstitching.AcceptedIsTheFilesOwn | libqmrom/src/qmrom_common.c:267-401 | the result on an accepted file without a wrap depends on the file alone |
| Unstitching.WrappedFileIsAccepted | libqmrom/src/qmrom_common.c:319-338 | a sixteen-byte file that is accepted although it is not the stitching of the result |
| Unstitching.SmallAcceptedIsStitched | libqmrom/src/qmrom_common.c:293-387 | if the allocator refuses 2 GiB, files below 2 GiB are accepted only if stitched |
| Unstitching.SmallAcceptedIff | libqmrom/src/qmrom_common.c:267-401 | such a file is accepted if and only if it is stitched from four segments that can be allocated |
| Unstitching.SmallResultIsTheFilesOwn | libqmrom/src/qmrom_common.c:267-401 | for files below 2 GiB and such an allocator, what follows the file decides neither acceptance nor the segments |
| Unstitching.ErrorDependsOnBeyond | libqmrom/src/qmrom_common.c:306-348 | but it can decide the error number: an eight-byte file is refused with EINVAL or with ENOMEM |
| FlashSpec.ChunksMakeUpData | libqmrom/src/qmrom_b0.c:221-247 | the chunks concatenate to the data |
| FlashSpec.ChunkSizes | libqmrom/src/qmrom_b0.c:221-224 | there are ceil(size / chunk) of them, all but the last full, none empty or too long |
| RomHandle.RomHandle.SpiTransfer | libqmrom/src/qmrom_common.c:75-85 | one transfer within both buffers of a frame the device can parse, logged with the flags, announced length and response held before it |
| RomHandle.RomHandle.PreRead | libqmrom/src/qmrom_common.c:75-85 | one frame [0x40, 1, 0, 0], which leaves the response byte alone |
| RomHandle.RomHandle.Read | libqmrom/src/qmrom_common.c:87-101 | with at most 2048 bytes announced, one frame with flag 0x20, that length in the header and that many bytes behind it; with more, -8010 and nothing is sent |
| RomHandle.RomHandle.WriteCommand | libqmrom/src/qmrom_common.c:103-127 | one write frame with exactly the command, whose header counts its bytes |
| RomHandle.RomHandle.WriteData | libqmrom/src/qmrom_common.c:129-157 | one write frame with exactly the command and the data, whose header counts both; at most 2048 bytes |
| RomHandle.RomHandle.CheckKind | libqmrom/src/qmrom_b0.c:278-292 | 0 or -22; with a key long enough, 0 exactly when the certificate kind (0 needs state 0, 1 needs state 5) suits the life-cycle state |
| FlashPlan.PlanMakesUpParts | libqmrom/src/qmrom_b0.c:214-251 | the data of all planned writes concatenate to the segments |
| FlashPlan.LoadWriteAt | libqmrom/src/qmrom_b0.c:221-247 | the k-th write of a segment: the command, the k-th chunk, and the response it waits for |
| FlashPlan.NextWrite | libqmrom/src/qmrom_b0.c:221-247 | after any writes of a segment, the next one carries the next bytes, a full chunk or what is left |
| FlashPlan.FourLoads | libqmrom/src/qmrom_b0.c:307-334 | the plan of four segments is their writes in order |
| FlashPlan.PlanBegins | libqmrom/src/qmrom_b0.c:307-334 | whole segments and some chunks of the next are an initial part of the plan |
| FlashPlan.WireCarries | libqmrom/src/qmrom_b0.c:253-342 | if an initial part of the program was written, the wire carried an initial part of the segments; if all, all |
| FlashB0.PollSoc | libqmrom/src/qmrom_b0.c:79-89 | between 1 and R + 1 empty frames, another only while no flag shows, all R + 1 if none showed; the response byte is kept |
| FlashB0.React | libqmrom/src/qmrom_b0.c:100-110 | one turn of waiting: a pre-read for data waiting, a read for active output, else polling |
| FlashB0.WaitReady | libqmrom/src/qmrom_b0.c:91-116 | at most (R + 1)^2 transfers whatever the device answers, each frame the one the flags before it ask for; 0 only on flags 0x20; unless a read failed, the error is -8011, after more than R transfers and without those flags |
| FlashB0.Exchange | libqmrom/src/qmrom_b0.c:228-230 | polls, then asks for the response: a pre-read, and the read of what was announced if it fits |
| FlashB0.ProgramInNumbers | libqmrom/src/qmrom_b0.c:253-334 | the program in numbers: load command 1 for life-cycle state 5 and 0 else, then the segments in chunks of 1008 with command 0x10 on responses 0x11, 0x12, 0x13 and 0x0F on 0x06 |
| FlashB0.SendChunk | libqmrom/src/qmrom_b0.c:226-243 | the chunk is written, on the expected response and right after asking for it, or not at all, and then the error is -9005 for response 0x15 and -10001 for any other |
| FlashB0.FlashData | libqmrom/src/qmrom_b0.c:214-251 | writes an initial part of the chunks, each with the command, on the expected response and right after asking for it; all of them on success; a wrong response gives -9005 or -10001 |
| FlashB0.FlashSegment | libqmrom/src/qmrom_b0.c:307-334 | one segment continues the plan |
| FlashB0.FlashSegments | libqmrom/src/qmrom_b0.c:307-334 | the four segments with their commands and responses, or an initial part on an error |
| FlashB0.FlashUnstitched | libqmrom/src/qmrom_b0.c:269-342 | the writes are the load command for the life-cycle state and the four segments, or an initial part on an error; -22 and nothing sent for a certificate of the wrong kind |
| FlashB0.FlashFirmware | libqmrom/src/qmrom_b0.c:253-342 | end to end: every frame on the wire is one the device can parse, its header counting the bytes behind it, and data goes only right after asking for the response; on 0 the file was stitched, the writes are exactly its program, and the data on the wire is the file without its four length words; on an error an initial part of that |
| FlashC0.PollSoc | libqmrom/src/qmrom_c0.c:135-152 | at most R + 1 empty frames, each with the flags cleared before it, at least one if a flag shows; the response byte is kept |
| FlashC0.ReadAnnounced | libqmrom/src/qmrom_c0.c:86-101 | asks for the response: a pre-read, and the read of what was announced, left out with -8010 if it does not fit |
| FlashC0.React | libqmrom/src/qmrom_c0.c:163-169 | one turn of waiting: pre-read and read for data waiting, a read that ends the wait for active output, else polling |
| FlashC0.WaitReady | libqmrom/src/qmrom_c0.c:154-175 | at most (R + 1) * (R + 2) transfers whatever the device answers, each frame the one the flags ask for; unless active output was read, 0 exactly on flags 0x22 and else -8011 |
| FlashC0.PollCommandResponse | libqmrom/src/qmrom_c0.c:177-194 | polls until data is waiting and then asks for it; without any, -1 after polling alone |
| FlashC0.Exchange | libqmrom/src/qmrom_c0.c:325-331 | polls, then asks for the response |
| FlashC0.SendChunk | libqmrom/src/qmrom_c0.c:315-317 | one write with the 32-bit command and the chunk, on whatever was announced before |
| FlashC0.SendAndCheck | libqmrom/src/qmrom_c0.c:315-341 | one turn of the flashing loop: the chunk, and unless it is the last of all the response to it, where any but the expected one gives -9005 for 0x15 and -10001 else |
| FlashC0.FlashData | libqmrom/src/qmrom_c0.c:297-345 | writes an initial part of the chunks, each but the first on the expected response to the one before and right after asking for it; all on success, with the last response checked unless told to skip it; a wrong response gives -9005 or -10001 |
| FlashC0.FlashSegment | libqmrom/src/qmrom_c0.c:412-429 | one segment continues the plan |
| FlashC0.FlashSegments | libqmrom/src/qmrom_c0.c:412-429 | the four segments in order, each chunk sent on the response to the one before, and but for the very first right after asking for it |
| FlashC0.BeginFlash | libqmrom/src/qmrom_c0.c:364-402 | the write mode, then the load command for the life-cycle state; -22 and nothing sent for a certificate of the wrong kind |
| FlashC0.ProgramInNumbers | libqmrom/src/qmrom_c0.c:347-429 | the program in numbers when no certificate is empty: commands 6 and 1 (life-cycle state 5) or 0, then chunks of 2040 with command 0x13, on responses 0x11, 0x12 and 0x13 first and 0x12, 0x13 and 0x06 later, and 0x12 on 0x06 |
| FlashC0.CommandsOnly | libqmrom/src/qmrom_c0.c:388-400 | commands put no data on the wire |
| FlashC0.FlashParts | libqmrom/src/qmrom_c0.c:364-441 | what a run on given segments achieves (`Flashed`) |
| FlashC0.FlashFirmware | libqmrom/src/qmrom_c0.c:347-441 | end to end: every frame on the wire is one the device can parse, its header counting the bytes behind it, and data after the first frame of it goes only right after asking for the response; the writes are an initial part of the program; with the expected first response 0 means all of it; with any other first response 0 is returned and no data was sent |

## Left out

- HsspiProgress.EverythingIsServed: the upper layers' `get` gives a block at every read of the run it shows; a read without one takes the same steps.
- RomHandle.RomHandle.Read: says nothing of the bytes received, which are the device's.
- FlashC0.PollSoc: how often the ready line was found low is not counted; such a turn transfers nothing.
- HSSPI: the balance of the ss_ready interrupt line, which probing starts on another path, and any claim that each transfer uses a fresh ss_ready edge.
- HSSPI: the device wake-up in `hsspi_wait_ss_ready` and in `spi_xfer`, which changes nothing modelled.
- HSSPI: use of the driver's memory after `hsspi_deinit` has freed it.
- HSSPI: identifiers of waiting calls are fresh, since the completions live on the callers' stacks.
- UCI: several readers holding taken packets at once; only queued packets and the packet of one reader are covered.
- UCI: the character device and the sending side of the layer.
- Core dump: the transport of the status replies and the debugfs interface; `krealloc` is a new buffer, since the write index is reset with it.
- Log layer: the parsing of log-level and log-source responses, which trusts the body length, and printing traces to the kernel log.
- RingBuffer.RingBuffer.Append: payloads of 65534 and 65535 bytes, whose 16-bit entry size wraps, and entries of about a third of the buffer and more; the only caller passes neither (`LogLayer.GuardAdmitsPush`).
- LogLayer.LogLayer.Received: the notification of debugfs readers after a push.
- UciLayer.UciLayer.ReadPacket: the blocking wait that may come before it.
- RingBuffer.RingBuffer.constructor: the ENOMEM return of `rb_init`.
- Ring: `rb_deinit` and the mutex; each operation runs under it from start to end.
- HsspiCore.Hsspi.SendBlock: null arguments, which are refused with EINVAL before anything else, cannot be expressed.
- Unstitching: the four allocations are answers of a function and the copies are values; freeing them is not modelled.
- ROM code: probing, chip revisions other than B0 and C0 (`qmrom_a0.c` is a weaker copy of the chunk loop), debug certificates, delays and statistics.
- Kernel plumbing: debugfs, probe and remove, regulators, power management, tracepoints.
