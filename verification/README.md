# Optronic: a verified model of the payload software's core

Optronic is a small C++ service for a camera payload: it moves frames through a
pipeline, finds objects in them, corrects a thermal sensor, and reports over a
log and a message bus. This project models the parts of it whose correctness
depends on interleavings, wrap-around, timing or exact lengths, and proves what
those parts promise. Everything is stated for all inputs, all runs and all
interleavings of the model; the one result that holds only up to a bound, because
the code's counter wraps there, is named under "Left out".

`dafny verify dfyconfig.toml` verifies the whole project.

## What is modelled

**Logging ring** (`Words`, `BoundedFifo`, `SpscRing`, `RingProtocol`). The ring
appears twice. `SpscRing.Ring` is the object as one thread sees it: two 64-bit
indices that wrap, a slot array of any power-of-two size, masks instead of
modulo; each method is proved against the bounded queue of `BoundedFifo`.
`RingProtocol` is the same ring as a protocol between two threads: every load,
check, word of the record copy and publishing store is a step, steps interleave
arbitrarily, and an acquire load may return any value between the last one seen
and the current one. Every run refines the bounded queue.

**Logger** (`Sums`, `LoggerProtocol`, `LoggerStructure`, `LoggerOrder`,
`LoggerCounts`, `LoggerStop`, `LoggerRuns`, `Logging`). `LoggerProtocol` composes
any number of ring protocols with threads that register, stamp, push, count drops
and move between loggers, with callers of `drain_now()`, `stats()` readers, and the
sink thread through repeated start and stop, all around one mutex. Its invariant
comes in parts: who may touch what, per-thread order, counts, and what a quiet stop
leaves. `LoggerRuns` says that calls, drains and the sink's own steps do go through.
`Logging` is the logger object as its methods change it, calls running one at a
time.

**Register device and correction sequence** (`Bits`, `IspDevice`, `Mmio`,
`PowerOn`, `Nuc`). `IspDevice` says what each software access does to the block,
side effects included, and what no access sequence can break. `Mmio.FakeMmio` is
the window as an object, its methods proved against `IspDevice`. The clock is an
arbitrary non-decreasing sequence of readings that passes every deadline in the
end. `Nuc.RunNuc` is the shutter, accumulate, read-back, reopen sequence.

**Detector** (`Mailbox`, `Drawing`, `Decoding`, `Pacing`). The one-slot handoff between
the streaming thread and the inference worker as a step system; the row copy, the
outline drawing and the decode loop as methods; the synchronous detector paced frame
by frame by its own measurements.

**Detections payload** (`Text`, `Json`, `Detections`, `DetectionsReader`). The
greedy printer into a 2048-byte buffer, and an independent reader: `Json` reads
objects, arrays, strings and bare tokens and knows no key, `DetectionsReader` looks
the members up by name. The strings it takes unescaped are those section 7 of RFC
8259 allows: no quote, backslash or control character.

**Lifecycle** (`Lifecycle`). Start with rollback, stop, destruction, over
arbitrary outcomes; the discipline is a replay of the call trace.

**Pipeline text** (`LaunchText`, `LaunchReader`). The launch string as words joined
by spaces; exactly which specs share one; and an independent reader of elements,
properties and caps that finds every field under its own key.

## Where the code and its intent part

The model follows the code. Each difference has its exact condition and a
concrete input.

- `modules/telemetry/src/publisher.cpp:245` says room for the closing brackets is
  left whatever happens. The 16 characters kept back are fewer than the 19 or 20
  the tail takes, so the payload reads back exactly when the body leaves room
  (`DetectionsReader.ReadsBackIff`); 20 is the least reserve that always works
  (`DetectionsReader.ReserveOfTwentyIsLeast`, with a message that breaks any
  smaller one). The length handed over at lines 265-267 can pass the end of the
  2048-character buffer, by at most three; exactly when it does not is
  `Detections.HandOverStaysInsideIff`, and `DetectionsReader.HandOverCanPassTheEnd`
  is a message for which it does.
- `modules/detect/src/yolo.cpp:33-43` draws a two-pixel line on every side, so a box
  with one side shorter than two pixels is drawn outside itself
  (`Drawing.OutlineStaysInBoxIff`).
- `modules/detect/src/yolo.cpp:160-162` skips rows by objectness alone. For scores in
  0..1 and a threshold that is not negative this loses nothing exactly when the
  threshold is positive or no row has negative objectness with all scores zero
  (`Decoding.SkipIsLosslessIff`, `Decoding.ZeroThresholdLosesRow`).
- `modules/detect/src/yolo.cpp:329` divides by the configured frame period, which may
  be zero, and narrows the result to 32 bits. For every measured cost and every
  period, the stride exists exactly when the period is not zero, and is the least
  covering one exactly when the period is positive and that number fits
  (`Pacing.StrideIsLeastIff`). The first cost that does not fit is 2^31 periods,
  over two years at 30 frames a second (`Pacing.HugeCostOverflows`).
- `modules/detect/src/yolo.cpp:272-284` checks for a stop before it takes a frame. A
  request comes in time, so that no later frame is ever taken, exactly when the
  worker is not past that check with a frame pending (`Mailbox.StopInTimeIff`);
  otherwise that one frame can still be taken (`Mailbox.StopCanMissOneFrame`) and
  never a second (`Mailbox.StopTakesNoMore`).
- `modules/detect/src/yolo.cpp:315-317` says the detector runs once every N frames,
  N being what the last inference cost. It runs on multiples of N, so after frame f
  it waits N - f % N frames: the frames short of N all pass exactly when N divides f
  (`Pacing.FullStridePassesIff`, `Pacing.NextCanBeAtOnce`). While N stays the same the
  cost bound holds all the same (`Pacing.PacingBound`).
- `modules/sensor/include/optronic/sensor/nuc.hpp:33-36` says every failure leaves the
  shutter open. The refusal at line 69 does not touch it, so it is left closed exactly
  when it was found closed and in FAULT (`Nuc.RunNuc`, `Nuc.RefusedWhileClosed`).
- `framework/app/src/app.cpp:28-47` started on a system that is already up
  initialises components twice and forgets them. The discipline holds exactly for
  runs that start from the down state (`Lifecycle.DisciplineIffStartedFromDown`).
- `framework/hal/src/isp_model.cpp:38-51`: RUNNING follows ENABLE, but a write to
  IRQ_CLR with bit 0 set clears RUNNING alone (`IspDevice.IrqClrCanStopRunningAlone`).
  After any accesses the two agree exactly when no such write has met an enabled
  block since the last CTRL write, and they agreed before or CTRL has been written
  (`IspDevice.RunTogetherIff`).
- `modules/video/src/factory.cpp:63` multiplies the bit rate by 1000 in 32 bits,
  which keeps exactly its low 29 bits (`LaunchText.ThousandKeeps29Bits`).

## Model

| member | source | states |
|---|---|---|
| SpscRing.Ring.TryPush | framework/log/include/optronic/log/ring.hpp:35-45 | for every pair of wrapped indices: the record is taken exactly when fewer than capacity are unread, it then is the newest unread record, and a refusal changes nothing |
| SpscRing.Ring.TryPop | framework/log/include/optronic/log/ring.hpp:50-58 | takes the oldest unread record and leaves the rest in order; false exactly when none is unread |
| SpscRing.Ring.SizeApprox | framework/log/include/optronic/log/ring.hpp:62-64 | with nothing moving, the wrapped difference is the number of unread records |
| SpscRing.WriteSlot | framework/log/include/optronic/log/ring.hpp:67-73 | the masked write index is the slot just after the last unread one, across the 2^64 wrap |
| SpscRing.PushWindow | framework/log/include/optronic/log/ring.hpp:36-44 | writing that slot touches no unread record and extends the unread window by exactly the new record |
| SpscRing.PopWindow | framework/log/include/optronic/log/ring.hpp:51-57 | the masked read index reaches the oldest unread record and advancing it drops exactly that one |
| Words.MaskIsModulo | framework/log/include/optronic/log/ring.hpp:22-24 | masking with a power of two less one is the remainder modulo that power |
| Words.WrapKeepsSlot | framework/log/include/optronic/log/ring.hpp:70-72 | reducing an index modulo 2^64 does not change the slot it selects |
| RingProtocol.RefusalIsFull | framework/log/include/optronic/log/ring.hpp:36-42 | in every reachable state the wrapped difference is the occupancy against the loaded index plus one, and the push is refused exactly when the ring was full at that index |
| RingProtocol.EmptyIsEmpty | framework/log/include/optronic/log/ring.hpp:51-53 | index equality means exactly that nothing newer had been seen |
| RingProtocol.WritingSlotIsFree | framework/log/include/optronic/log/ring.hpp:43-44 | the slot a push is writing is none of the slots that hold unread records |
| RingProtocol.StepKeepsInv | framework/log/include/optronic/log/ring.hpp:35-58 | every step of either side, on any stale view, keeps indices, views, slots, half-copied records and history consistent |
| RingProtocol.RunIsFifo | framework/log/include/optronic/log/ring.hpp:35-58 | over every interleaving popped records are exactly a prefix of pushed ones, in order and whole, with at most a capacity unread and the machine indices their counts modulo 2^64 |
| RingProtocol.StepRefinesFifo | framework/log/include/optronic/log/ring.hpp:29-58 | publishing is the bounded queue's push, releasing is its pop, and no other step is visible |
| RingProtocol.RefusedPushSawFullRing | framework/log/include/optronic/log/ring.hpp:39-42 | load and check together refuse exactly when the ring was full at the view loaded; on the current index, exactly when the bounded queue refuses |
| RingProtocol.EmptyPopSawEmptyRing | framework/log/include/optronic/log/ring.hpp:51-54 | load and check together report empty exactly when everything seen had been popped |
| RingProtocol.PushRuns | framework/log/include/optronic/log/ring.hpp:35-45 | from any reachable state, wherever the other side stands, a push let run on the current read index is exactly the bounded queue's push |
| RingProtocol.PopRuns | framework/log/include/optronic/log/ring.hpp:50-58 | likewise a pop let run on the current write index is exactly the bounded queue's pop |
| LoggerStructure.StepKeepsStruct | framework/log/src/logger.cpp:76-149 | a ring is only pushed by its owner's current call and only popped by the mutex holder draining at it; a thread's pointer is always its newest ring |
| LoggerOrder.StepKeepsOrder | framework/log/src/logger.cpp:78-149 | abandoned rings are frozen and visible, drains finish a thread's older rings before its newer ones, stamps grow along each thread's rings |
| LoggerOrder.ThreadRecordsWrittenInOrder | framework/log/src/logger.cpp:78-117 | for every run and any two records of one thread, the one written first was stamped first, even when the thread has owned several rings here |
| LoggerOrder.ThreadSeqIncreases | framework/log/src/logger.cpp:101 | hence the 64-bit `seq` of one thread's records strictly increases in the output |
| LoggerCounts.StepKeepsCounts | framework/log/src/logger.cpp:92-168 | every step keeps the call balance, the snapshot bounds and the report sums |
| LoggerCounts.CallsAreConserved | framework/log/src/logger.cpp:92-149 | in every reachable state accepted calls equal written plus dropped plus unread plus popped-unwritten (at most one) plus calls still in hand |
| LoggerCounts.SnapshotNeverOverCounts | framework/log/src/logger.cpp:193-201 | a snapshot taken in the middle of everything never exceeds the true totals nor the accepted calls |
| LoggerCounts.ReportsTelescope | framework/log/src/logger.cpp:154-168 | over any run with any restarts, printed drop counts are positive, sum to what is recorded as reported, and never exceed the drops |
| LoggerStop.StepKeepsQuiet | framework/log/src/logger.cpp:170-191 | what the final drain and the final report have established so far is kept by every step |
| LoggerStop.QuietStopLosesNothing | framework/log/src/logger.cpp:69-74 | if calls had finished before the stop request, every ring ends empty, written plus dropped is every accepted call, and every drop has been reported |
| LoggerRuns.CallGoesThrough | framework/log/src/logger.cpp:92-117 | from any reachable state, a call let run stamps its record with the next stamp and offers it to its thread's ring as to a bounded queue; exactly a refusal counts one drop, and no other ring changes |
| LoggerRuns.RegisterGoesThrough | framework/log/src/logger.cpp:85-89 | a thread without a ring here gets a new empty one of its own, at the end |
| LoggerRuns.DrainGoesOn | framework/log/src/logger.cpp:142-147 | from any reachable state a drain let run writes out the oldest record of the ring it stands at, or passes on when the ring is empty |
| LoggerRuns.SinkReachesLastDrain | framework/log/src/logger.cpp:170-188 | started and stopped at once, the sink gets to its last drain |
| LoggerRuns.SinkGoesRound | framework/log/src/logger.cpp:172-173 | a turn of the loop begins with a drain of every ring |
| LoggerRuns.SinkComesRound | framework/log/src/logger.cpp:172-187 | and ends, between reports, back at the top |
| LoggerRuns.SinkReports | framework/log/src/logger.cpp:188-189 | after the last drain comes the last report |
| LoggerRuns.ReadingGoesOn | framework/log/src/logger.cpp:158-159 | a reading of a drop counter may be as fresh as it gets |
| LoggerRuns.SinkEnds | framework/log/src/logger.cpp:161-167 | the last report prints exactly an increase, records the total, and the thread ends |
| Logging.Logger.ProducerFor | framework/log/src/logger.cpp:78-90 | a known thread keeps its ring; an unknown one gets a new empty ring at the end, and no waiting record or count changes |
| Logging.Logger.UseOtherLogger | framework/log/src/logger.cpp:78-83 | moving to another logger forgets the pointer and loses nothing that waits |
| Logging.Logger.Offer | framework/log/src/logger.cpp:112-116 | exactly one of: the record waits as the ring's newest, or the ring is full and its drop count grows by one |
| Logging.Logger.Log | framework/log/src/logger.cpp:92-117 | below the level nothing changes; otherwise one stamp is taken and exactly one ring or one drop counter changes, that of the calling thread |
| Logging.Truncated | framework/log/src/logger.cpp:31-35 | the longest prefix that leaves room for the terminator, the whole text when it fits |
| Logging.MakeRecord | framework/log/src/logger.cpp:99-110 | the record carries its time, stamp and level, at most 15 and 95 characters of its texts, as many as fit, and the first four pairs |
| Logging.Logger.WriteRecord | framework/log/src/logger.cpp:119-136 | the output gains exactly one line, this record's, at its end, and one record is counted |
| Logging.Logger.DrainRing | framework/log/src/logger.cpp:143-146 | the ring ends empty and its records are appended to the output oldest first, each counted once |
| Logging.Logger.DrainRings | framework/log/src/logger.cpp:141-147 | all rings end empty; the output grows by their contents in registration order |
| Logging.Logger.DrainNow | framework/log/src/logger.cpp:138-149 | the output keeps what it had and gains one line for each waiting record, rings in registration order and each ring in its own; all rings end empty, the number of lines is returned, and drop counts and the call balance are unchanged |
| Logging.FlattenAt | framework/log/src/logger.cpp:142-147 | record j of ring k comes after all records of earlier rings and the j before it in its own |
| Logging.PrintedLines | framework/log/src/logger.cpp:142-147 | what printing all rings adds to the output, line by line |
| Logging.ReportedLines | framework/log/src/logger.cpp:161-167 | and with a drop report after it, whose number is the increase |
| Logging.Logger.TotalDrops | framework/log/src/logger.cpp:155-160 | the sum of all drop counters in 64-bit arithmetic |
| Logging.Logger.ReportDrops | framework/log/src/logger.cpp:154-168 | nothing is printed when the total is what had been reported; otherwise exactly one line is added, with the positive number that takes the reported count to the total |
| Logging.Logger.SinkTurn | framework/log/src/logger.cpp:172-187 | one loop turn adds every waiting record to the output line by line in order, reports only when a second has passed, the increase and nothing else,, and is idle exactly when nothing waited |
| Logging.Logger.Start | framework/log/src/logger.cpp:62-67 | starts once; a second start changes nothing |
| Logging.Logger.Stop | framework/log/src/logger.cpp:69-74 | on a started logger every ring ends empty into the output, every drop is reported, and written plus reported is every accepted call (modulo 2^64); on any other nothing changes |
| Logging.Logger.Close | framework/log/src/logger.cpp:56-60 | destruction leaves nothing waiting, started or not; everything that waited is in the output, and only a started logger reports its drops |
| Logging.Logger.Stats | framework/log/src/logger.cpp:193-201 | the written count, the sum of drops and the number of rings as they stand |
| Logging.LoggedBalance | framework/log/src/logger.cpp:112-116 | taking a record and counting a drop each add exactly one to written plus dropped plus waiting, wrap-around included |
| Logging.DrainedBalance | framework/log/src/logger.cpp:138-149 | draining only moves calls from waiting to written |
| Mmio.FakeMmio.constructor | framework/hal/src/isp_model.cpp:14-22 | the reset values over a zeroed window |
| Mmio.FakeMmio.OnCtrlWrite | framework/hal/src/isp_model.cpp:30-43 | the CTRL hook leaves exactly the state its rule gives |
| Mmio.FakeMmio.OnIrqClrWrite | framework/hal/src/isp_model.cpp:47-51 | the IRQ_CLR hook, likewise |
| Mmio.FakeMmio.OnShutterWrite | framework/hal/src/isp_model.cpp:57-60 | the SHUTTER hook, likewise, reading the clock once |
| Mmio.FakeMmio.OnAccWrite | framework/hal/src/isp_model.cpp:70-75 | the NUC_ACC_CTRL hook, likewise, reading the clock only on START |
| Mmio.FakeMmio.OnDataWrite | framework/hal/src/isp_model.cpp:88-93 | the NUC_TABLE_DATA hook, likewise |
| Mmio.FakeMmio.Write32 | framework/hal/include/optronic/hal/mmio.hpp:52-66 | every write at every 32-bit offset leaves exactly the state the block's write rules give, and says when it reads the clock |
| Mmio.FakeMmio.Read32 | framework/hal/include/optronic/hal/mmio.hpp:36-50 | every read applies its side effect first, returns the word after it, and says when it reads the clock |
| IspDevice.CtrlWriteKeepsInv | framework/hal/src/isp_model.cpp:30-43 | after any CTRL write RUNNING equals ENABLE and SW_RESET does not show |
| IspDevice.CtrlWriteEnables | framework/hal/src/isp_model.cpp:30-43 | after a CTRL write ENABLE is what was asked for, unless SW_RESET was asked for too |
| IspDevice.IrqClrWriteStops | framework/hal/src/isp_model.cpp:47-51 | an IRQ_CLR write clears RUNNING exactly when its bit 0 is set, and leaves CTRL alone |
| IspDevice.RejectedIff | framework/hal/src/isp_model.cpp:23-26 | by address, exactly which writes are refused |
| IspDevice.ResetWrite | framework/hal/src/isp_model.cpp:30-37 | by address, SW_RESET zeroes CTRL, STATUS and FRAME_CNT, sets GAIN to 0x100 and touches nothing else |
| IspDevice.PlainCtrlWrite | framework/hal/src/isp_model.cpp:38-43 | any other CTRL write is stored, bit 0 of STATUS follows it and no other bit changes |
| IspDevice.IrqClrWrite | framework/hal/src/isp_model.cpp:47-51 | exactly the written ones of STATUS and IRQ_STAT go, IRQ_CLR reads 0, and nothing else changes |
| IspDevice.PlainWrite | framework/hal/include/optronic/hal/mmio.hpp:52-66 | every other writable register holds what was written and nothing else changes |
| IspDevice.PlainRead | framework/hal/include/optronic/hal/mmio.hpp:36-50 | reading a register without a side effect returns it and changes nothing |
| IspDevice.InstalledValues | framework/hal/src/isp_model.cpp:14-22 | every word's reset value, by address |
| IspDevice.StepKeepsInv | framework/hal/src/isp_model.cpp:24-98 | no single access breaks the identity registers, self-clearing bits or "running only if enabled"; only an IRQ_CLR write of bit 0 can part RUNNING from ENABLE |
| IspDevice.RunKeepsInv | framework/hal/src/isp_model.cpp:24-98 | nor does any sequence of accesses |
| IspDevice.RunTogetherIff | framework/hal/src/isp_model.cpp:30-51 | after any accesses from any reachable state ENABLE is what the last CTRL write asked for, and RUNNING equals it exactly when no IRQ_CLR write of bit 0 has met an enabled block since, and the two agreed before or CTRL was written |
| IspDevice.InstalledRunKeepsInv | framework/hal/src/isp_model.cpp:14-51 | from installation: ID, VERSION and TEMP_MC never change, CTRL never shows SW_RESET, IRQ_CLR reads 0, RUNNING implies ENABLE, and equals it exactly when no IRQ_CLR write of bit 0 has met an enabled block since the last CTRL write |
| IspDevice.IrqClrCanStopRunningAlone | framework/hal/src/isp_model.cpp:47-51 | from any state two writes leave ENABLE set and RUNNING clear |
| IspDevice.FaultsCountRejections | framework/hal/include/optronic/hal/mmio.hpp:36-61 | the fault count grows by exactly the rejected accesses, which change nothing else |
| IspDevice.DataWriteStep | framework/hal/src/isp_model.cpp:88-93 | a DATA write stores the low 16 bits at the addressed entry if there is one, and moves on |
| IspDevice.DataReadStep | framework/hal/src/isp_model.cpp:94-98 | a DATA read shows the addressed entry, zero past the table, and moves on |
| IspDevice.WriteAllFills | framework/hal/src/isp_model.cpp:84-93 | consecutive writes fill consecutive entries and no other |
| IspDevice.ReadAllShows | framework/hal/src/isp_model.cpp:94-98 | consecutive reads show consecutive entries, the index wrapping at 65536, for any number of reads |
| IspDevice.TableRoundTrip | framework/hal/src/isp_model.cpp:84-98 | a table of at most 1024 values written from address zero and read back after a rewind comes back as its low 16 bits |
| PowerOn.AnyBitSet | framework/hal/include/optronic/hal/register.hpp:88-92 | tests the word the read itself produced, side effect included |
| PowerOn.SetBits | framework/hal/include/optronic/hal/register.hpp:76-80 | at every offset: one read with its side effect, then one write of what it returned with the bits added |
| PowerOn.ClearBits | framework/hal/include/optronic/hal/register.hpp:82-86 | at every offset: one read with its side effect, then one write of what it returned without the bits |
| PowerOn.SettingCtrlBits | framework/hal/include/optronic/hal/register.hpp:76-80 | on CTRL, from every reachable state and for a mask without SW_RESET: exactly the asked-for bits are added, nothing is reset, and RUNNING equals ENABLE |
| PowerOn.ClearingCtrlBits | framework/hal/include/optronic/hal/register.hpp:82-86 | on CTRL, from every reachable state: exactly the asked-for bits go, and RUNNING equals ENABLE |
| PowerOn.PowerOnBit | framework/hal/include/optronic/hal/isp_ctrl.hpp:102-119 | reports the first failing check and no other, never fails on SW_RESET, touches nothing on an identity mismatch, and passes from every state software can reach |
| Nuc.ReadStep | framework/hal/src/isp_model.cpp:61-82 | one poll changes at most the awaited flag, and brings the condition about only when its time has come |
| Nuc.ShutterCommandBits | framework/hal/src/isp_model.cpp:57-60 | a shutter command raises BUSY, keeps CLOSE as commanded, arms the move time and nothing else |
| Nuc.AccCommandBits | modules/sensor/include/optronic/sensor/nuc.hpp:83-85 | the command starts, does not claim DONE, and carries the low four bits of the frame count |
| Nuc.AccCommandWritten | framework/hal/src/isp_model.cpp:70-75 | written to the block it arms the accumulation time and clears any earlier DONE |
| Nuc.PollUntil | modules/sensor/include/optronic/sensor/nuc.hpp:46-56 | terminates for every such clock; true exactly when the condition holds, and then its time has really passed; false only past the deadline, one poll after a reading that was too early |
| Nuc.CommandShutter | modules/sensor/include/optronic/sensor/nuc.hpp:58-60 | commanding leaves the shutter busy until the move time, in the commanded position |
| Nuc.StartAccumulation | modules/sensor/include/optronic/sensor/nuc.hpp:83-86 | starting leaves DONE clear until the accumulation time |
| Nuc.ReadFault | modules/sensor/include/optronic/sensor/nuc.hpp:69-71 | FAULT is reported as found and looking changes at most BUSY |
| Nuc.TooSoon | modules/sensor/include/optronic/sensor/nuc.hpp:50-55 | giving up before the delay is over means the clock was read too rarely for the slack |
| Nuc.MoveShutter | modules/sensor/include/optronic/sensor/nuc.hpp:73-79 | a move that succeeds took the move time and cannot happen with a jam; one that fails without a jam had too little slack |
| Nuc.Accumulate | modules/sensor/include/optronic/sensor/nuc.hpp:82-93 | an accumulation that succeeds took its time, whatever DONE said before |
| Nuc.SumTable | modules/sensor/include/optronic/sensor/nuc.hpp:97-101 | for every 32-bit count the sum is the coefficient sum of the table as found |
| Nuc.CoefficientSumIs | modules/sensor/include/optronic/sensor/nuc.hpp:97-101 | and that is the sum over i of T(i mod 65536), zero past the table |
| Nuc.AccumulateAndReopen | modules/sensor/include/optronic/sensor/nuc.hpp:82-110 | the second half: each exit is told from DONE and BUSY as they are left, the shutter is commanded open at all of them |
| Nuc.MeanBounds | modules/sensor/include/optronic/sensor/nuc.hpp:112-116 | the sum fits 64 signed bits and the mean lies in 0..65535 |
| Nuc.RunNuc | modules/sensor/include/optronic/sensor/nuc.hpp:64-117 | for every clock, delay, jam and timeout: refusal exactly on FAULT with CLOSE as found; CLOSE clear on every other path, so it is left set exactly when it was set together with FAULT; a jam always fails at closing; each failure is told from the state it leaves (NUC_ACC_CTRL as found, DONE clear, or DONE and BUSY set) and only the accumulation answers a timeout; success leaves DONE set and BUSY clear, reports exactly the milliseconds between its first and last clock reading, lasted at least both moves and the accumulation, and returns the mean; delays inside the timeouts by one clock gap always succeed |
| Nuc.RefusedWhileClosed | modules/sensor/include/optronic/sensor/nuc.hpp:69-71 | a closed shutter in FAULT is refused and stays closed |
| Mailbox.StepKeepsInv | modules/detect/src/yolo.cpp:245-298 | lock ownership, the half-copied frame, the pending frame and the worker's frame stay consistent through every step |
| Mailbox.PendingContentsFrozen | modules/detect/src/yolo.cpp:249-265 | no step changes the slot while a frame stays pending |
| Mailbox.HandoffIsFaithful | modules/detect/src/yolo.cpp:245-298 | over every interleaving the i-th inference is of the i-th accepted frame packed row by row, and accepted minus inferred is 0 or 1 |
| Mailbox.OfferGoesThrough | modules/detect/src/yolo.cpp:249-265 | wherever a run has got to, with the lock free and nothing pending, a frame that fits is accepted when offered and is then exactly what is pending |
| Mailbox.OfferRefused | modules/detect/src/yolo.cpp:250-252 | with a frame pending or the lock not to be had, offering changes nothing |
| Mailbox.PendingIsInferred | modules/detect/src/yolo.cpp:272-297 | a worker at the top of its loop, let run without a stop, infers the pending frame and frees the slot |
| Mailbox.PackedLine | modules/detect/src/yolo.cpp:257-261 | every row of the frame is found whole in the packed buffer |
| Mailbox.ReadsInsideIff | modules/detect/src/yolo.cpp:256-261 | the copy loop reads no byte outside the frame's data exactly when there is no row, no column, or (h - 1) * stride + w is at most its size |
| Mailbox.PackedAt | modules/detect/src/yolo.cpp:256-261 | packed pixel (r, c) is byte r * stride + c of the frame, a stride of zero standing for the width |
| Mailbox.CopyBytes | modules/detect/src/yolo.cpp:259-260 | the bytes arrive after what was copied before, and nothing beyond them changes |
| Mailbox.CopyLuma | modules/detect/src/yolo.cpp:256-261 | the copy loop produces exactly that packed buffer |
| Mailbox.StopTakesNoMore | modules/detect/src/yolo.cpp:272-307 | after a stop request at most one more frame is taken, and none unless the worker is past its check with a frame pending |
| Mailbox.StopCanMissOneFrame | modules/detect/src/yolo.cpp:277-284 | and that one can be taken |
| Mailbox.StopInTimeIff | modules/detect/src/yolo.cpp:272-307 | wherever a run has got to, nothing after a stop request takes a frame, exactly when the worker is not past its stop check with a frame pending |
| Drawing.Put | modules/detect/src/yolo.cpp:25-32 | paints the byte of a point inside stride, height and plane, and nothing otherwise |
| Drawing.DrawRect | modules/detect/src/yolo.cpp:23-44 | a byte becomes 235 exactly when its point is on the two-pixel outline and visible; every other byte is unchanged |
| Drawing.InkedAt | modules/detect/src/yolo.cpp:25-43 | pixel (px, py) is painted exactly when it is visible and on one of the two first or last lines or columns of the box |
| Drawing.DrawAll | modules/detect/src/yolo.cpp:134-138 | a list of boxes paints the union of their outlines, so order does not matter |
| Drawing.OutlineIsFrame | modules/detect/src/yolo.cpp:33-43 | for sides of at least two the outline is the box less the box shrunk by two each way |
| Drawing.OutlineStaysInBoxIff | modules/detect/src/yolo.cpp:33-43 | the paint stays in the box exactly for sides of at least two, or when nothing is drawn |
| Drawing.OnePixelBoxSpills | modules/detect/src/yolo.cpp:33-43 | a one-pixel box that is drawn outside itself |
| Decoding.BestIndex | modules/detect/src/yolo.cpp:164-167 | the first of the greatest class scores |
| Decoding.KeptIsAllIff | modules/detect/src/yolo.cpp:159-172 | skipping early gives the full list exactly when no skipped row was confident, and a shorter one otherwise |
| Decoding.DecodeV5 | modules/detect/src/yolo.cpp:147-180 | three lists of equal length, in row order, of exactly the rows that pass both tests: the index of the first greatest score, that score times the objectness, and the box whose corner is the scaled centre less half the scaled size, each number cut towards zero; they are all the confident rows exactly when the early skip loses none |
| Decoding.KeptRows | modules/detect/src/yolo.cpp:159-171 | the emitted rows: increasing, and exactly those with objectness and confidence at the threshold or above |
| Decoding.Truncated | modules/detect/src/yolo.cpp:177-178 | the integer within one of the number, towards zero |
| Decoding.ScaledExactly | modules/detect/src/yolo.cpp:156-157 | scaling multiplies by the image side and divides by the input size |
| Decoding.BoxIs | modules/detect/src/yolo.cpp:173-178 | the four numbers of a row's box |
| Decoding.BoxIsCentred | modules/detect/src/yolo.cpp:173-178 | the box's centre is the scaled centre to within the rounding |
| Decoding.SkipLosesRowIff | modules/detect/src/yolo.cpp:160-171 | for scores in 0..1 and a threshold not negative, a confident row is skipped exactly at threshold zero with negative objectness and all-zero scores |
| Decoding.SkipIsLosslessIff | modules/detect/src/yolo.cpp:159-171 | for any rows with scores in 0..1 and a threshold not negative, skipping early loses nothing exactly when the threshold is positive or no row has negative objectness with all-zero scores |
| Decoding.PositiveThresholdSkipsSafely | modules/detect/src/yolo.cpp:160-171 | with a positive threshold no confident row is ever skipped |
| Decoding.ZeroThresholdLosesRow | modules/detect/src/yolo.cpp:160-171 | a row that is lost at threshold zero |
| Pacing.StrideIsLeastIff | modules/detect/src/yolo.cpp:318-330 | for every measured cost and every frame period: the automatic stride exists exactly when the period is not zero, and is the least number of frames that covers the cost exactly when the period is positive and that number fits an int |
| Pacing.HugeCostOverflows | modules/detect/src/yolo.cpp:329 | the first cost at which it does not, and the negative stride it gives |
| Pacing.InferencesExactly | modules/detect/src/yolo.cpp:125-131 | how many of n consecutive frames run an inference, for any starting frame |
| Pacing.InferenceCountBounds | modules/detect/src/yolo.cpp:125-131 | between n/stride rounded down and n/stride rounded up |
| Pacing.RunCounts | modules/detect/src/yolo.cpp:119-131 | over any frames through which the automatic stride reads s, whatever each inference measures, exactly the frames divisible by s run one, and each costs at most s frame periods |
| Pacing.PacingBound | modules/detect/src/yolo.cpp:315-330 | over any n frames through which the automatic stride reads s, with every inference measured anew (at no more than 2^31 - 1 periods, past which the stride overflows): n/s inferences, rounded down or up, together costing less than n + s frame periods |
| Pacing.ConfiguredRuns | modules/detect/src/yolo.cpp:322-324 | a configured stride runs inferences on exactly its multiples |
| Pacing.UnmeasuredRunsNext | modules/detect/src/yolo.cpp:318-327 | before anything is measured the next frame runs one |
| Pacing.UnequalCostsPaced | modules/detect/src/yolo.cpp:119-131 | a run that this bound covers, with two different measurements |
| Pacing.NextInferenceIff | modules/detect/src/yolo.cpp:125-131 | after frame f with stride s the next inference runs exactly s - f % s frames later, whatever the costs |
| Pacing.FullStridePassesIff | modules/detect/src/yolo.cpp:315-317 | the s - 1 frames after frame f all pass without an inference exactly when s divides f |
| Pacing.NextCanBeAtOnce | modules/detect/src/yolo.cpp:315-317 | an inference that took twelve periods and is followed by another on the very next frame |
| Detections.Snprintf | modules/telemetry/src/publisher.cpp:249-253 | formatted output into what is left of the buffer: the fitting prefix, a NUL, no other character changed, and the full length as the answer |
| Detections.BodySnoc | modules/telemetry/src/publisher.cpp:244-257 | printing one more object appends exactly its text, after a comma unless it is the first |
| Detections.HeaderLength | modules/telemetry/src/publisher.cpp:238-239 | the header of any message has at most 74 characters, so the loop always starts with room |
| Detections.KeptFromSpec | modules/telemetry/src/publisher.cpp:244-258 | every listed prefix fits the limit and the first object left out does not |
| Detections.KeptIsLongest | modules/telemetry/src/publisher.cpp:244-258 | greedy is best: no longer prefix fits |
| Detections.FullTextLength | modules/telemetry/src/publisher.cpp:244-265 | no message is longer than 2051 characters |
| Detections.HandOverStaysInsideIff | modules/telemetry/src/publisher.cpp:260-267 | what is handed over lies in the buffer exactly when the body leaves the 19 or 20 characters of its tail |
| Detections.PublishDetections | modules/telemetry/src/publisher.cpp:235-268 | the buffer holds header, comma-joined longest fitting prefix and tail; when that is longer than the buffer, its first 2047 characters and a NUL; the length handed over is the message's own, at most three past the buffer |
| DetectionsReader.ObjectReadBack | modules/telemetry/src/publisher.cpp:249-253 | a printed object reads back, whatever follows it, as a value with the label, confidence, x, y, width and height under the names `label`, `conf`, `x`, `y`, `w` and `h` |
| DetectionsReader.BodyReads | modules/telemetry/src/publisher.cpp:235-262 | header and objects always read back as the members `v`, `seq`, `count` and `objects`, whatever follows |
| DetectionsReader.BodyReadBack | modules/telemetry/src/publisher.cpp:235-262 | with a whole tail the message reads back as everything that was printed |
| DetectionsReader.DamagedReadsNothing | modules/telemetry/src/publisher.cpp:260-265 | with a NUL before the end of the verdict the reader rejects it |
| DetectionsReader.ReadsBackIff | modules/telemetry/src/publisher.cpp:235-268 | for readable objects, sequence number, count, listed prefix and truncated flag come back exactly when the message with its tail has at most 2047 characters; otherwise the reader rejects it |
| DetectionsReader.ReserveOfTwentyIsLeast | modules/telemetry/src/publisher.cpp:245-246 | keeping back 20 is exactly what makes room for the closing brackets whatever happens |
| DetectionsReader.FillerMessage | modules/telemetry/src/publisher.cpp:245-263 | for every smaller reserve, a message whose tail is cut |
| DetectionsReader.HandOverCanPassTheEnd | modules/telemetry/src/publisher.cpp:260-267 | a readable message of 2051 characters |
| Lifecycle.App.AddComponent | framework/app/src/app.cpp:24-26 | one more component, nothing started or stopped |
| Lifecycle.App.StartAll | framework/app/src/app.cpp:28-47 | calls, answer and state are those of the start specification for every combination of outcomes, rollback included |
| Lifecycle.App.StopAll | framework/app/src/app.cpp:49-52 | stops what is up, last first |
| Lifecycle.App.StopThrough | framework/app/src/app.cpp:54-62 | stops components count - 1 down to 0 and nothing else |
| Lifecycle.StopsUnwind | framework/app/src/app.cpp:54-62 | stopping everything that is up follows the discipline down to nothing |
| Lifecycle.StartFollows | framework/app/src/app.cpp:28-47 | a start, with or without rollback, follows the discipline and counts exactly what it leaves up |
| Lifecycle.DoKeepsDiscipline | framework/app/src/app.cpp:20-62 | every operation keeps the discipline, but a start of a system that is up breaks it |
| Lifecycle.DisciplineIffStartedFromDown | framework/app/src/app.cpp:20-62 | over any run the discipline holds, with `started_` the number of components up, exactly when no start found the system up |
| Lifecycle.SecondStartBreaksDiscipline | framework/app/src/app.cpp:28-47 | two starts of one healthy component initialise it twice before any stop |
| Lifecycle.InitsMatchStops | framework/app/src/app.cpp:28-62 | under the discipline each component's successful inits equal its stops, plus one while it is up |
| Lifecycle.DestructionBalances | framework/app/src/app.cpp:20-22 | after destruction every successful init has had exactly one stop, and nothing else was stopped |
| Lifecycle.StartCallsAll | framework/app/src/app.cpp:29-47 | a start that succeeds calls init and start of every component in order and nothing else |
| Lifecycle.StartCallsUntil | framework/app/src/app.cpp:29-47 | one that fails does so up to the first failure and then stops exactly what had been initialised, last first |
| Lifecycle.StopEventsAre | framework/app/src/app.cpp:54-62 | the stops, one by one |
| Lifecycle.RunningIff | framework/app/src/app.cpp:46-52 | after any operations the application is running exactly when a start has succeeded since the last stop |
| Lifecycle.StartReportsFirstFailure | framework/app/src/app.cpp:30-44 | the answer is the first failure's own error, and success exactly when nothing failed |
| LaunchText.JoinedInjective | modules/video/src/factory.cpp:88-116 | words without spaces can be told from their joined text |
| LaunchText.CapsDetermine | modules/video/src/factory.cpp:89-91 | the caps text determines width, height, rate and format, the unknown format being NV12 |
| LaunchText.FrontDetermines | modules/video/src/factory.cpp:97-102 | the source words determine every field their kind uses |
| LaunchText.QueueDetermines | modules/video/src/factory.cpp:13-16 | the queue words determine the queue |
| LaunchText.EncoderHeadDetermines | modules/video/src/factory.cpp:50-65 | the encoder words agree exactly for the same kind, group length and rate, a hardware rate modulo 2^29 |
| LaunchText.LatencyDetermines | modules/video/src/factory.cpp:57-65 | optional encoder words and what follows them can be told apart |
| LaunchText.OutputDetermines | modules/video/src/factory.cpp:72-84 | the output words determine every field their kind uses |
| LaunchText.WordsDetermine | modules/video/src/factory.cpp:88-116 | equal word lists come only from specs that agree on everything relevant |
| LaunchText.SameSpecSameWords | modules/video/src/factory.cpp:88-116 | and all such specs give equal word lists |
| LaunchText.ThousandKeeps29Bits | modules/video/src/factory.cpp:61-64 | the 32-bit thousandfold rate determines exactly the low 29 bits |
| LaunchText.SameTextIffSameSpec | modules/video/src/factory.cpp:88-116 | two specs without spaces in their free text have the same launch string exactly when they agree on every field their kinds use, a hardware rate counting modulo 2^29 and the unknown format as NV12 |
| LaunchText.SmallBitrateIsKept | modules/video/src/factory.cpp:61-64 | where the thousandfold rate fits 32 bits the text determines the whole encoder |
| LaunchText.LargeBitrateIsLost | modules/video/src/factory.cpp:61-64 | a hardware rate and the same rate plus 2^29 give one text |
| LaunchReader.ReadsElements | modules/video/src/factory.cpp:104-116 | a reader of words, links and properties finds exactly these elements in the text of any spec without spaces |
| LaunchReader.TextSaysSource | modules/video/src/factory.cpp:97-102 | the source element, its device or pattern, and the geometry a camera is asked for |
| LaunchReader.TextSaysCaps | modules/video/src/factory.cpp:89-102 | format, width, height and rate under their names in the caps of both chains |
| LaunchReader.TextSaysBridge | modules/video/src/factory.cpp:106-113 | the two ends of the bridge: their names, one buffer, drop, and the same caps on the far side |
| LaunchReader.TextSaysQueues | modules/video/src/factory.cpp:13-16 | both queues say downstream exactly for a leaky spec, and their number of buffers |
| LaunchReader.TextSaysEncoder | modules/video/src/factory.cpp:50-67 | the encoder element, kilobits under `bitrate` or a thousandfold in 32 bits under `target-bitrate`, the group length under its own key, and the low-latency words exactly when asked for |
| LaunchReader.TextSaysOutput | modules/video/src/factory.cpp:72-84 | the output elements with host, port or location under their keys, and `async=false` on every sink |

## Left out

- LoggerOrder.ThreadSeqIncreases: stated while the logger has taken at most 2^64 stamps, because `seq` is a 64-bit counter and repeats after that; the order itself is unbounded.
- Logging.Logger.WriteRecord: says which record is written and counted, not how its line is formatted; timestamps, key-value rendering and file output are text layout.
- DetectionsReader.ReadsBackIff: takes a rendered confidence as a token: not empty, no comma or closing brace in it, not beginning with a quote or an opening bracket, because decimal rounding of `%.2f` is not modelled.
- Logging.Logger.Start: the sink thread is a flag here; what it does once started is `Logging.Logger.SinkTurn` and, interleaved with everything else, `LoggerProtocol`.
- Detections.Snprintf: the negative answer of an output error is not modelled; no format here can give one.
- Pacing.StrideIsLeastIff: 64-bit overflow of cost plus period is not modelled.
- Decoding.DecodeV5: uses real numbers, so float rounding, NaN and out-of-range casts are not modelled; every row has at least one class score, since with none the library throws and the frame's detection is dropped; an input size of zero, which the float code turns into infinities, is excluded.
- Pacing.PacingBound: the frame counter and times in microseconds are unbounded integers; an inference on which the library throws measures nothing and is not counted.
- Nuc.RunNuc: milliseconds, nanoseconds and clock arithmetic are unbounded integers, so overflow of the time types is not modelled.
- Mailbox.HandoffIsFaithful: frames offered are as large as their geometry says, because the copy of a shorter one reads memory the model cannot describe; the worker runs from the start instead of from the first offer, which only adds behaviours.
- Drawing.DrawRect: coordinates are unbounded integers, so overflow of `x + w` is not modelled.
- IspDevice.FaultsCountRejections: the fault count is unbounded, and offsets are 32-bit as in the register types.
- LoggerCounts.CallsAreConserved: counts are unbounded in the step system; the 64-bit counters wrap in `Logging` only.
- Full C++ weak memory: an acquire load returns any value between the last seen and the current one, and the words of a record are separate accesses; nothing weaker is modelled.
- Relaxed loads by `stats()` and the drop report may lag but not go back; the mutex is modelled as the ordering it gives.
- Log level changes while calls are in progress, and `KeyValue` construction.
- Generic hooks of the fake window other than the ones the block installs, `read_timestamp_ns`, and the memory-mapped backend.
- GStreamer pipelines, buffer mapping and reference counts, which live in a library.
- Network loading, inference itself, non-maximum suppression, and the `DetectionModel` path: inference is any function of the frame it is given.
- MQTT connection handling, topics, the other payloads, and publishing counters.
- Signals, `wait_for_stop`, option parsing and service wiring.
- The control protocol, health states, mode management and frame pairing that `docs/` specifies and no code implements.
