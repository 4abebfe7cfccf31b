# Verified models of the audiofs, inputfs and drawfs cores

Three FreeBSD kernel modules, each with a stateful or concurrent core under its driver
plumbing, are modelled here in Dafny and proved correct:

- **audiofs** plays audio. `write(2)` fills a 32 KiB byte ring, an interrupt thread moves
  4096-byte fragments from it to a DMA ring of four, a DAC drains the DMA ring; the link
  position drives a sample clock; underruns are folded, deferred and published; stream
  events go to a lock-free ring of 256 slots.
- **inputfs** turns HID reports into events. Touch, keyboard and pointer reports are folded
  into state and events; events go to a lock-free ring of 1024 slots that a worker mirrors
  to a file.
- **drawfs** serves drawing clients. A byte stream is buffered and cut into frames and
  messages while locks are dropped around every allocation; replies go to a bounded event
  queue with coalescing; surfaces get their VM object lazily, by a pin, allocate, re-find
  protocol.

## How it is organised

A protocol is a state machine: a `State`, a `Step` per lock hold (or per single store, or
per byte of an unlocked copy), `Enabled`, `Apply`, an invariant, and theorems over every
`Legal` run. The environment (hardware outcomes, file errors, scheduling, what the codec
answers) is in the steps. Code that updates state in place is a class or a method on arrays,
proved equal to the same specification functions the state machines use.

| module | what it holds |
|---|---|
| Bytes, AudioGeometry, EventSlots | shared vocabulary: bytes, ring sizes, slots |
| UserRing, UserRingBuffer | the byte ring: writer/refill protocol, and the buffer in place |
| DmaRing, Pipeline, OutputStream | the DMA ring, the whole playback path, the interrupt thread in place |
| FrameClock, StreamEvents, Underruns, Lifecycle | frame accounting, stream events, what refills charge to them, who keeps a stream running |
| HdaConns | expansion of codec connection lists |
| EventRing, SharedRing, FileMirror, InputEvents | the lock-free ring with one publisher and with several, the file mirror, the inputfs buffer in place |
| Touch, Keyboard, Pointer, TouchCursor | the three report interpreters, each against an observer of its events, and touch and pointer together |
| Wire, Ingest, IngestParse, Chunking, SessionBuffer, ClientStream | frames and messages, concurrent ingestion and how it agrees with parsing, chunking, the buffer in place, and the way from requests to their dispatch |
| EventQueue | the outbound event queue |
| SurfaceTable, MmapProtocol | the surface table in place, and the full mmap interleaving |

`dafny verify dfyconfig.toml` checks everything.

## Where the code does less than one would hope

Each of these is a theorem about the code as it is, with the exact condition:

- A refill that is serviced a whole ring late does nothing, and the DAC replays
  (`DmaRing.LateServiceReplays`); the loop catches up exactly when fewer than four fragments
  are owed (`DmaRing.CatchesUpIffFewerThanFourOwed`).
- SET_FORMAT's flush moves the head under a writer that is copying with the lock dropped.
  The commit then makes the flushed bytes readable again, ahead of the chunk; FIFO survives
  exactly when the chunk equals that (`UserRing.FlushInWindowKeepsFifoIff`,
  `UserRing.FlushInWindowBreaksFifo`).
- An interrupt thread that passed its guard can record an underrun after stream_end drained
  the record. The loss misses its own stream and is published in the next one
  (`StreamEvents.StragglerMissesItsStream`,
  `StreamEvents.StragglerIsPublishedInTheNextStream`); every stream reports exactly its own
  losses if and only if that never happens (`StreamEvents.EachStreamReportsItsOwnIff`).
- `audiofs_events_publish` is meant to run under the state lock, but the deferred XRUN task
  and the XRUN of stream_end call it without, and both can be ready at once
  (`StreamEvents.TaskAndEndPublishTogether`). Overlapping publishes draw the same number, one
  event is overwritten, and a reader can accept a mixture of both bodies; readers are safe
  exactly when publishes are serialised (`SharedRing.ReadersSafeIffSerial`).
- A frame shorter than its header can be extracted while parsing would still wait, because
  the re-check compares bytes past the buffered ones
  (`IngestParse.ExtractionAgreesIffHeaderBuffered`, `IngestParse.TinyFrameExtractedEarly`).
- `stride * height` wraps at 64 bits (`SurfaceTable.StoredSizeExactIff`,
  `SurfaceTable.WrappedSizeIsAccepted`).
- A keyboard that puts modifier usages in its key array can lose a key
  (`Keyboard.DiffReplaysIff`, `Keyboard.ModifierInArrayBreaksReplay`).
- The connection-list loop reads whole responses, past the announced length
  (`HdaConns.PaddingIsHarmlessIff`, `HdaConns.UnpaddedResponseIsTakenWhole`).

Where code and documentation disagree the model follows the code: shared/INPUT_EVENTS.md
describes publication without the store of 0 that first invalidates the slot; the code does
that store, and the reader theorem needs it. inputfs advances earliest_seq from the 1025th
event on and audiofs from the 256th; the values written agree.

## Model

| member | source | states |
|---|---|---|
| `Pipeline.DacPlaysCommittedBytes` | audiofs/sys/dev/audiofs/audiofs.c:4930-5020 | end to end, over every interleaving of writer, interrupt thread and hardware in which the DAC has not reached a fragment whose refill is owed: the DAC plays the initial fill and then, fragment by fragment, exactly the committed bytes in order with silence after each short chunk; a chunk is short only if the ring held less than a fragment, and then it emptied the ring; undrained bytes are still in the ring; the silence is counted to the frame |
| `Pipeline.DacPlaysCommittedBytesOnSchedule` | audiofs/sys/dev/audiofs/audiofs.c:4930-5020 | the same from the interrupt schedule alone: if at most three of the four fragments elapse between serviced interrupts |
| `Pipeline.StepKeepsInv` | audiofs/sys/dev/audiofs/audiofs.c:5004-5020 | the glue between the two rings survives every step: refill outputs are the drained chunks padded with silence |
| `DmaRing.PlaysIntendedStream` | audiofs/sys/dev/audiofs/audiofs.c:4930-5020 | over every on-time run the played bytes are the initial fill followed by the refill outputs in order: no fragment skipped, replayed, or overwritten early |
| `DmaRing.PlaysIntendedStreamOnSchedule` | audiofs/sys/dev/audiofs/audiofs.c:4930-5020 | if at most three of the four fragments elapse between serviced interrupts, the played bytes are the initial fill followed by the refill outputs in order |
| `DmaRing.RefillOverwritesPlayedFragment` | audiofs/sys/dev/audiofs/audiofs.c:5007-5015 | a refill only overwrites a fragment whose last byte has been played |
| `DmaRing.StepKeepsInv` | audiofs/sys/dev/audiofs/audiofs.c:5004-5020 | every play, sample and refill keeps the buffer equal to the next four fragments of the intended stream |
| `DmaRing.TurnsAreOwedModFour` | audiofs/sys/dev/audiofs/audiofs.c:5007-5015 | the refill loop turns as often as fragments are owed, modulo four |
| `DmaRing.CatchesUpIffFewerThanFourOwed` | audiofs/sys/dev/audiofs/audiofs.c:4995-5020 | one serviced interrupt performs exactly the owed refills if and only if fewer than four are owed |
| `DmaRing.LateServiceReplays` | audiofs/sys/dev/audiofs/audiofs.c:4995-5020 | serviced one whole ring late the loop refills nothing and the DAC replays the byte of one ring ago |
| `UserRing.FifoOverEveryRun` | audiofs/sys/dev/audiofs/audiofs.c:5704-5786 | drained ++ ring contents == committed, 0 <= head - tail <= 32768 and both cursors multiples of 4, over every interleaving of reserve, byte-wise unlocked copy, abort, commit, refill and resets |
| `UserRing.CopyNeverOverlapsReadable` | audiofs/sys/dev/audiofs/audiofs.c:5753-5775 | no cell the unlocked copy may store to is a cell a refill may read |
| `UserRing.StepKeepsInv` | audiofs/sys/dev/audiofs/audiofs.c:5704-5786 | each lock hold and each byte of the unlocked copy keeps the FIFO law and the bytes copied so far |
| `UserRing.DrainTakesFromTheFront` | audiofs/sys/dev/audiofs/audiofs.c:4738-4767 | a refill removes a prefix of the contents |
| `UserRing.RefillDrainsAllItCan` | audiofs/sys/dev/audiofs/audiofs.c:4737-4768 | a refill that leaves anything in the ring has drained a full fragment |
| `UserRing.AppendAddsAtTheBack` | audiofs/sys/dev/audiofs/audiofs.c:5743-5782 | a committed chunk is appended to the contents, across the ring end |
| `UserRing.FlushInWindowKeepsFifoIff` | audiofs/sys/dev/audiofs/audiofs.c:5844-5854 | a flush at any point of the unlocked copy, then the rest of the copy and any refills, then the commit: the ring holds (flushed ++ chunk) cut to the length of the chunk, so drained ++ contents == committed if and only if the chunk equals that |
| `UserRing.FlushInWindowBreaksFifo` | audiofs/sys/dev/audiofs/audiofs.c:5844-5854 | a reachable state with concrete bytes: 1 2 3 4 is flushed, 5 6 7 8 is committed, and the ring holds 1 2 3 4 |
| `AudioGeometry.CellIsMask` | audiofs/sys/dev/audiofs/audiofs.c:4753-4754 | the cell of a cursor is the mask the driver uses |
| `UserRingBuffer.ReadableSpans` | audiofs/sys/dev/audiofs/audiofs.c:4752-4767 | the readable bytes are one span of the buffer, or two across its end |
| `UserRingBuffer.WritableSpans` | audiofs/sys/dev/audiofs/audiofs.c:5753-5775 | the cells of a chunk are one span of the buffer, or two across its end |
| `UserRingBuffer.RingBuffer.CopyOut` | audiofs/sys/dev/audiofs/audiofs.c:4737-4770 | moves the first bytes of the contents and advances the tail by as many: a full fragment, or all there is |
| `UserRingBuffer.RingBuffer.RefillFragment` | audiofs/sys/dev/audiofs/audiofs.c:4724-4819 | the fragment becomes the drained bytes followed by zeros; the reported gap is the zeros in frames, and there is one only if the ring is empty afterwards |
| `UserRingBuffer.RingBuffer.CopyIn` | audiofs/sys/dev/audiofs/audiofs.c:5753-5775 | stores the chunk at the head, in one span or two |
| `UserRingBuffer.RingBuffer.WriteChunk` | audiofs/sys/dev/audiofs/audiofs.c:5743-5782 | one round appends the longest prefix of whole frames that fits |
| `UserRingBuffer.RingBuffer.Write` | audiofs/sys/dev/audiofs/audiofs.c:5704-5786 | a non-blocking write appends exactly the whole frames that fit, reports their length, and ends in EAGAIN iff a whole frame is left over |
| `FrameClock.DeltaExactIffUnderOneRing` | audiofs/sys/dev/audiofs/audiofs.c:4975-4982 | the computed advance is the true one modulo the ring, exact if and only if less than a ring elapsed |
| `FrameClock.ClockNeverFalls` | audiofs/sys/dev/audiofs/audiofs.c:1369-1381 | across every sequence of starts, stops and interrupts the published clock never decreases and equals the sum over all streams |
| `FrameClock.EndTotalIsTruePosition` | audiofs/sys/dev/audiofs/audiofs.c:5485-5506 | the total in END is the true position in frames for aligned samples, and short by less than one frame per sample otherwise |
| `FrameClock.StepKeepsClockInv` | audiofs/sys/dev/audiofs/audiofs.c:4975-4993 | each step keeps the clock law, whatever the hardware does |
| `FrameClock.StepKeepsFrameInv` | audiofs/sys/dev/audiofs/audiofs.c:4975-4993 | each step with samples less than a ring apart keeps the frame law |
| `StreamEvents.LogIsWellFormed` | audiofs/sys/dev/audiofs/audiofs.c:5159-5350 | in every interleaving of begin/end, interrupt thread and deferred task the event log is (BEGIN (XRUN or FORMAT_CHANGE)* END)*, possibly cut short, and open while a stream is active |
| `StreamEvents.UnderrunsConserved` | audiofs/sys/dev/audiofs/audiofs.c:5095-5138 | every underrun is in exactly one of: published, pending, held by the task, held by stream_end, about to be folded; their frames add up to the silence written into user fragments plus 1024 per FIFO error; each XRUN carries the sum of its losses, the first position, and COALESCED iff more than one |
| `StreamEvents.AllPublishedAtRestIff` | audiofs/sys/dev/audiofs/audiofs.c:5412-5450 | once everyone is at rest every underrun has been published if and only if none was folded after the last drain |
| `StreamEvents.EachStreamReportsItsOwnIff` | audiofs/sys/dev/audiofs/audiofs.c:5412-5450 | once everyone is at rest every underrun has been published between the BEGIN and END of its own stream if and only if no interrupt ever folded one after its stream was drained |
| `StreamEvents.StragglerMissesItsStream` | audiofs/sys/dev/audiofs/audiofs.c:4949-4956 | a reachable state: an interrupt past its guard folds after the drain, the stream has ended, and its loss is unpublished |
| `StreamEvents.StragglerIsPublishedInTheNextStream` | audiofs/sys/dev/audiofs/audiofs.c:4949-4956 | the next stream publishes that loss, with a position of the old one |
| `StreamEvents.StepKeepsFiling` | audiofs/sys/dev/audiofs/audiofs.c:5095-5138 | each step keeps losses filed under their stream, or remembers that one was misfiled |
| `StreamEvents.BeginAndEndPublishAlone` | audiofs/sys/dev/audiofs/audiofs.c:5255-5259 | BEGIN and END are never ready together with another publish; only the deferred task can be, with the XRUN of stream_end or FORMAT_CHANGE |
| `StreamEvents.TaskAndEndPublishTogether` | audiofs/sys/dev/audiofs/audiofs.c:5426-5447 | a reachable state in which the task and stream_end both have an XRUN to publish, neither under the lock |
| `StreamEvents.StepKeepsGrammar` | audiofs/sys/dev/audiofs/audiofs.c:5377-5529 | each lock hold and each publish keeps the log grammar |
| `StreamEvents.StepPublishes` | audiofs/sys/dev/audiofs/audiofs.c:5255-5259 | each publish adds its own event and no other step adds any |
| `StreamEvents.StepConserves` | audiofs/sys/dev/audiofs/audiofs.c:4801-4816 | each lock hold and each publish conserves losses and frames |
| `StreamEvents.FoldSummarises` | audiofs/sys/dev/audiofs/audiofs.c:5045-5054 | the three pending fields summarise the folded losses exactly while the total is below 2^32 |
| `OutputStream.LoopIsPipelineCatchUp` | audiofs/sys/dev/audiofs/audiofs.c:5004-5020 | the refill loop ends with ring and DMA buffer where the pipeline steps end, the whole pending record charged with what the refills drained, and the silence counted |
| `OutputStream.ServiceIsPipelineService` | audiofs/sys/dev/audiofs/audiofs.c:4930-5058 | on a state of the pipeline in which the thread waits and the hardware is on time: ring, DMA buffer and cursor end as after its sample, refills and finish; the record is charged with what those refills drained; misses and multiple refills are counted by how many there were |
| `OutputStream.ServiceIsLossSteps` | audiofs/sys/dev/audiofs/audiofs.c:4930-5058 | a run of the interrupt thread is exactly the loss, fold and enqueue steps of the stream-event machine for what is drained on the way from the cursor to the sampled fragment and for what was latched: pending fields agree, silence and FIFO errors grow by what was written and seen |
| `OutputStream.ManyCharges` | audiofs/sys/dev/audiofs/audiofs.c:4775-4812 | the loop charges exactly the gaps of what it drained |
| `Underruns.StepsRun` | audiofs/sys/dev/audiofs/audiofs.c:4775-4812 | those steps are possible in every state with an idle thread and room in the counter, and do exactly that |
| `OutputStream.ServiceIsClockStep` | audiofs/sys/dev/audiofs/audiofs.c:4975-4993 | the interrupt thread advances frame count and clock exactly as the clock model |
| `OutputStream.Stream.Filter` | audiofs/sys/dev/audiofs/audiofs.c:4860-4906 | the latched bits are at all times the union over the calls that no run of the thread has taken up; a stray interrupt changes nothing |
| `OutputStream.Stream.RecordLoss` | audiofs/sys/dev/audiofs/audiofs.c:5045-5054 | folds one loss into the pending fields |
| `OutputStream.Stream.RefillNext` | audiofs/sys/dev/audiofs/audiofs.c:5009-5013 | one refill at the cursor, its shortfall folded, the cursor moved on |
| `OutputStream.Stream.RefillUpTo` | audiofs/sys/dev/audiofs/audiofs.c:5004-5020 | the BCIS loop leaves the cursor at the current fragment, the buffers as the loop specification says, and counts a miss or a multiple refill |
| `OutputStream.Stream.Accumulate` | audiofs/sys/dev/audiofs/audiofs.c:4975-4993 | frames, clock and published clock advance by the link-position delta |
| `OutputStream.Stream.IntrThread` | audiofs/sys/dev/audiofs/audiofs.c:4930-5070 | one run of the interrupt thread is one Service step (guard, accumulate, refill, FIFOE) for the status bits of every filter call since its last run |
| `Lifecycle.StreamRunsOnlyOnDemand` | audiofs/sys/dev/audiofs/audiofs.c:5620-5691 | over every sequence of open, close, SET_FORMAT and tone toggles and every hardware outcome: active implies open or tone on, open implies source USER, and the log is well formed |
| `Lifecycle.OpKeepsInv` | audiofs/sys/dev/audiofs/audiofs.c:5805-5895 | each entry point keeps that law |
| `Lifecycle.QuietAfterClose` | audiofs/sys/dev/audiofs/audiofs.c:5670-5691 | closing with the tone off leaves no active stream and no BEGIN without END |
| `Lifecycle.OpenStartsAStream` | audiofs/sys/dev/audiofs/audiofs.c:5620-5657 | a successful open leaves a stream active for the user, with BEGIN on the log if none ran; a refused or failed one changes no stream, and a failed one falls back to SINE |
| `Lifecycle.CloseStopsUnlessTone` | audiofs/sys/dev/audiofs/audiofs.c:5670-5691 | closing keeps the stream for the tone, or ends it with END |
| `Lifecycle.ReformatRestarts` | audiofs/sys/dev/audiofs/audiofs.c:5822-5889 | refusal, nothing, END BEGIN FORMAT_CHANGE at the new rate, or END and a fallback at the old rate |
| `Lifecycle.ToneToggles` | audiofs/sys/dev/audiofs/audiofs.c:5953-6021 | only a toggle acts, only on a closed device, and with BEGIN or END accordingly |
| `Lifecycle.Softc.Begin` | audiofs/sys/dev/audiofs/audiofs.c:5159-5350 | refuses a running stream; publishes BEGIN and activates exactly when the hardware comes up |
| `Lifecycle.Softc.End` | audiofs/sys/dev/audiofs/audiofs.c:5377-5529 | refuses a stopped stream; otherwise deactivates and publishes END |
| `Lifecycle.Softc.OpenDevice` | audiofs/sys/dev/audiofs/audiofs.c:5620-5657 | succeeds iff it was closed and a stream was running or came up; a failed open restores closed and SINE |
| `Lifecycle.Softc.CloseDevice` | audiofs/sys/dev/audiofs/audiofs.c:5670-5691 | the stream survives exactly when the tone is on |
| `Lifecycle.Softc.SetFormat` | audiofs/sys/dev/audiofs/audiofs.c:5822-5889 | empties the ring iff the rate really changes; stop, restart at the new rate, fall back to the old one; FORMAT_CHANGE only after a successful restart |
| `Lifecycle.Softc.SetTone` | audiofs/sys/dev/audiofs/audiofs.c:5953-6021 | a toggle starts or stops the stream only of a closed device |
| `HdaConns.ExpansionMembers` | audiofs/sys/dev/audiofs/audiofs.c:2480-2517 | a node is in the expansion iff some entry before the first zero names it, alone or inside its range |
| `HdaConns.PaddingIsHarmlessIff` | audiofs/sys/dev/audiofs/audiofs.c:2454-2478 | reading whole responses past the announced length changes nothing if and only if a zero entry stops the walk by then |
| `HdaConns.UnpaddedResponseIsTakenWhole` | audiofs/sys/dev/audiofs/audiofs.c:2454-2478 | a list of announced length one with response 0x04030201 is taken as four nodes |
| `HdaConns.LengthResponseDecodes` | audiofs/sys/dev/audiofs/audiofs.c:2442-2446 | the count is the low seven bits of the length response and the long form its eighth |
| `HdaConns.LongSlotsRoundTrip` | audiofs/sys/dev/audiofs/audiofs.c:2459-2464 | the shifts and masks recover two packed 16-bit entries |
| `HdaConns.ShortSlotsRoundTrip` | audiofs/sys/dev/audiofs/audiofs.c:2459-2464 | the shifts and masks recover four packed 8-bit entries |
| `HdaConns.Widget.AddSpan` | audiofs/sys/dev/audiofs/audiofs.c:2497-2516 | appends a run of nodes up to sixteen in all and sets the overflow flag iff something was left over |
| `HdaConns.Widget.AddResponse` | audiofs/sys/dev/audiofs/audiofs.c:2459-2518 | the entries of one response extend the table along the expansion, or complete it |
| `HdaConns.Widget.ReadConns` | audiofs/sys/dev/audiofs/audiofs.c:2417-2522 | conns is the first sixteen nodes of the expansion of all entries fetched, and conn_overflow is set iff the expansion is longer |
| `EventRing.ReadersOnlyAcceptGenuineEvents` | inputfs/sys/dev/inputfs/inputfs.c:1683-1751 | with every store of the producer and every load of any number of readers a step of its own: what a reader accepts as event s is event s |
| `EventRing.CheckAcceptsGenuine` | inputfs/sys/dev/inputfs/inputfs.c:1698-1735 | an unchanged sequence number on both sides of the copy certifies the copied body |
| `EventRing.QuiescentRingHoldsTheLastEvents` | inputfs/sys/dev/inputfs/inputfs.c:1683-1751 | between publishes earliest == max(1, writer_seq - n + 1) and each event from earliest to writer_seq sits intact in its slot |
| `EventRing.RetainedEventInPlace` | inputfs/sys/dev/inputfs/inputfs.c:1737-1751 | each retained event is in the slot its number maps to |
| `EventRing.StepKeepsInv` | inputfs/sys/dev/inputfs/inputfs.c:1683-1751 | each single store or load keeps slots, counters, readers and accepted events consistent |
| `EventRing.UndisturbedPublish` | inputfs/sys/dev/inputfs/inputfs.c:1683-1751 | the single stores of one publish put the event in its slot under the next number and leave all else alone |
| `SharedRing.ReadersSafeIffSerial` | audiofs/sys/dev/audiofs/audiofs.c:1663-1723 | with any number of publishers: readers only ever accept genuine events if and only if publishes are serialised |
| `SharedRing.NumbersDistinctIffNoOverlap` | audiofs/sys/dev/audiofs/audiofs.c:1676-1712 | over every run, all events carry different numbers if and only if no number was drawn before another publisher had stored its own |
| `SharedRing.CounterCountsEventsIffNoOverlap` | audiofs/sys/dev/audiofs/audiofs.c:1710-1712 | once all publishes are complete, writer_seq counts the events under the same condition; otherwise some were overwritten |
| `SharedRing.OverlapMixesBodies` | audiofs/sys/dev/audiofs/audiofs.c:1684-1708 | for any two bodies and any cut: a reachable run in which a reader accepts the one up to the cut and the other behind it |
| `SharedRing.MixtureIsNotGenuine` | audiofs/sys/dev/audiofs/audiofs.c:1684-1708 | bodies that differ on both sides of the cut: what the reader accepted is neither event |
| `SharedRing.SerialReadersAreSafe` | audiofs/sys/dev/audiofs/audiofs.c:1663-1723 | with serialised publishes what a reader accepts as event s is event s |
| `SharedRing.SerialRingHoldsTheLastEvents` | audiofs/sys/dev/audiofs/audiofs.c:1714-1723 | between serialised publishes the header is right and the last n events are in place |
| `SharedRing.StepIsRingStep` | audiofs/sys/dev/audiofs/audiofs.c:1663-1723 | each store or load of a serialised publish is one of the single-producer ring |
| `EventSlots.SlotIsMask` | inputfs/sys/dev/inputfs/inputfs.c:1693-1696 | the slot of a number is the mask the drivers use, for both ring sizes |
| `EventSlots.SameSlotSameEvent` | inputfs/sys/dev/inputfs/inputfs.c:1693-1696 | numbers less than one lap apart share a slot only if equal |
| `FileMirror.SyncedSlotsAreOnFile` | inputfs/sys/dev/inputfs/inputfs.c:1857-1929 | with publishes between slot copies, failing writes and any backlog: a slot whose live number is at most synced is on file exactly |
| `FileMirror.SleepingWorkerHasMirroredEverything` | inputfs/sys/dev/inputfs/inputfs.c:2585-2645 | no lost wakeup: when the worker sleeps with the dirty flag clear and its last pass did not fail, the file equals the ring |
| `FileMirror.StepKeepsInv` | inputfs/sys/dev/inputfs/inputfs.c:1857-1929 | each publish, wake, capture, slot write and header write, failed or not, keeps those laws |
| `FileMirror.CaptureCovers` | inputfs/sys/dev/inputfs/inputfs.c:1867-1880 | every slot that differs on file lies ahead of the pass that starts, also when the backlog exceeds the ring |
| `FileMirror.FullLapVisits` | inputfs/sys/dev/inputfs/inputfs.c:1867-1880 | any n consecutive numbers visit every slot |
| `InputEvents.MakeBody` | inputfs/sys/dev/inputfs/inputfs.c:1706-1729 | the body holds the fields and the payload cut or zero-padded to 32 bytes |
| `InputEvents.UnbrokenPassMirrors` | inputfs/sys/dev/inputfs/inputfs.c:1857-1929 | an undisturbed pass without failures leaves the file equal to the ring |
| `InputEvents.UnbrokenPassAdvances` | inputfs/sys/dev/inputfs/inputfs.c:1867-1928 | a pass without failures moves synced on by the backlog, and never by more than the ring |
| `InputEvents.EventIsRingPublish` | inputfs/sys/dev/inputfs/inputfs.c:1683-1751 | the atomic event of the mirror is what the single stores of one publish amount to |
| `InputEvents.Buffer.Publish` | inputfs/sys/dev/inputfs/inputfs.c:1683-1751 | the next number and the body are in its slot, every other slot is untouched, earliest is maintained, and the mirror sees one event |
| `InputEvents.Buffer.WriteSlotsToFile` | inputfs/sys/dev/inputfs/inputfs.c:1885-1908 | the slot loop is the slot steps of the mirror, stopping at the first failure |
| `InputEvents.Buffer.SyncToFile` | inputfs/sys/dev/inputfs/inputfs.c:1857-1929 | one pass of the worker is the capture, slot and header steps of the mirror |
| `InputEvents.Buffer.WorkerTurn` | inputfs/sys/dev/inputfs/inputfs.c:2610-2619 | takes the dirty flag; if it was set and nothing fails, the file equals the ring afterwards, and if not the file is untouched |
| `Touch.ObserverAgrees` | inputfs/sys/dev/inputfs/inputfs.c:3085-3263 | over every report sequence an observer of touch events and synthesised motions reconstructs the contacts: (DOWN MOVE* UP)* per contact with one session and the last position on UP, a motion exactly after moves of a sole contact with its displacement; the count is the active slots and primary is the unique contact iff the count is 1 |
| `Touch.ContactsAreWhatWasReported` | inputfs/sys/dev/inputfs/inputfs.c:3085-3263 | over every report sequence the machine holds exactly the contacts that the reports say are down, at their positions and in their sessions |
| `Touch.WhereTellsTheStory` | inputfs/sys/dev/inputfs/inputfs.c:3102-3116 | what the reports say: a contact is down iff the last report about it (ids past 7 share slot 7) is a confident press, at that place, in the session of the press that began the unbroken run |
| `Touch.EmitsWhatIsExpected` | inputfs/sys/dev/inputfs/inputfs.c:3140-3263 | DOWN, MOVE, UP, a motion or nothing is decided by the reports before, with exactly those coordinates and sessions |
| `TouchCursor.PublishedEventsTellAll` | inputfs/sys/dev/inputfs/inputfs.c:3085-3364 | the observer for the published events alone, touch and pointer; its contacts are the ones reported; after each move of a sole contact, and never otherwise, come the crossings and one motion that lands where the displacement leads, clamped to the screen |
| `TouchCursor.HandleKeepsInv` | inputfs/sys/dev/inputfs/inputfs.c:3278-3364 | one report keeps contacts, pointer and the observer in step |
| `Touch.DispatchKeepsInv` | inputfs/sys/dev/inputfs/inputfs.c:3085-3263 | one report keeps the counter, primary and baseline laws and the observer in step |
| `Touch.DragTelescopes` | inputfs/sys/dev/inputfs/inputfs.c:3178-3209 | while one contact is down alone the synthesised deltas sum to its displacement |
| `Touch.Digitizer.FindActive` | inputfs/sys/dev/inputfs/inputfs.c:3247-3259 | finds the first active slot |
| `Touch.Digitizer.TouchDown` | inputfs/sys/dev/inputfs/inputfs.c:3143-3177 | a new contact takes its slot; the first becomes primary, the second clears primary |
| `Touch.Digitizer.TouchUp` | inputfs/sys/dev/inputfs/inputfs.c:3226-3260 | a lifted contact frees its slot; a remaining sole contact becomes primary with its position as baseline |
| `Touch.Digitizer.HandleReport` | inputfs/sys/dev/inputfs/inputfs.c:3085-3263 | the in-place dispatcher does what the specification says, events included |
| `Keyboard.ReplayGivesHeldKeys` | inputfs/sys/dev/inputfs/inputfs.c:2831-2932 | over every boot-layout report sequence replaying the events from nothing held gives exactly the modifiers plus usages above 0x03, and the events strictly alternate iff no report repeats a key across a change |
| `Keyboard.DiffReplaysIff` | inputfs/sys/dev/inputfs/inputfs.c:2831-2932 | for arbitrary reports one diff replays correctly if and only if no usage is at once a changing modifier and a staying array key or the reverse |
| `Keyboard.DiffReplays` | inputfs/sys/dev/inputfs/inputfs.c:2831-2932 | with array usages below 0xE0 one diff always replays correctly |
| `Keyboard.DiffAlternatesIff` | inputfs/sys/dev/inputfs/inputfs.c:2831-2932 | the events of one diff alternate iff neither report repeats a key that the other lacks |
| `Keyboard.UpsPrecedeDowns` | inputfs/sys/dev/inputfs/inputfs.c:2831-2932 | within one report every release precedes every press |
| `Keyboard.EventsCarryCurrentModifiers` | inputfs/sys/dev/inputfs/inputfs.c:2860-2863 | every event carries the modifier byte of the current report |
| `Keyboard.ModifierInArrayBreaksReplay` | inputfs/sys/dev/inputfs/inputfs.c:2831-2932 | a concrete report pair with left control in the array on which the replay law fails |
| `Keyboard.Emitter.InSet` | inputfs/sys/dev/inputfs/inputfs.c:2753-2766 | true for empty and rollover codes and for members of the six slots |
| `Keyboard.Emitter.EmitModifiers` | inputfs/sys/dev/inputfs/inputfs.c:2853-2869 | one event per modifier bit that changed in the given direction, in bit order |
| `Keyboard.Emitter.EmitKeys` | inputfs/sys/dev/inputfs/inputfs.c:2871-2889 | one event per slot whose key the other report lacks, in slot order |
| `Keyboard.Emitter.DiffEmit` | inputfs/sys/dev/inputfs/inputfs.c:2831-2932 | appends the diff to the log and remembers the report |
| `Pointer.ObserverAgrees` | inputfs/sys/dev/inputfs/inputfs.c:3540-3641 | over every mix of mouse and touch reports without 32-bit overflow: known geometry keeps the pointer on screen, enters and leaves pair up and fold to the current session, every motion carries the session last entered |
| `Pointer.PositionIsSumOfDeltas` | inputfs/sys/dev/inputfs/inputfs.c:1226-1261 | the position is the seed plus the sum of the published motion deltas |
| `Pointer.HandleKeepsView` | inputfs/sys/dev/inputfs/inputfs.c:3278-3364 | one report keeps position and session in step with an observer of the events |
| `Pointer.HandleGoesThere` | inputfs/sys/dev/inputfs/inputfs.c:3540-3641 | a report takes the pointer to the confined sum of position and delta and to the session there; exactly the last event is a motion, if the report moves, and every event names the new position |
| `Pointer.ConfineIsNearest` | inputfs/sys/dev/inputfs/inputfs.c:1236-1246 | confining takes the nearest point of the screen |
| `Pointer.ResolveDecides` | inputfs/sys/dev/inputfs/inputfs.c:2246-2304 | no usable focus file: nobody; a grab: its session; otherwise the first covering surface among the first 256 |
| `Pointer.CoversItsArea` | inputfs/sys/dev/inputfs/inputfs.c:2293-2300 | a surface covers the points at offsets below its width and height from its origin |
| `Pointer.TopmostIsFirstCover` | inputfs/sys/dev/inputfs/inputfs.c:2279-2304 | the surface walk returns the first surface that covers the point, or none |
| `Pointer.State.ResolvePointer` | inputfs/sys/dev/inputfs/inputfs.c:2235-2307 | no usable focus gives 0, a grab wins, otherwise the topmost covering surface of at most 256 |
| `Pointer.State.UpdatePointer` | inputfs/sys/dev/inputfs/inputfs.c:1226-1261 | clamps to known geometry and reports the delta that took effect |
| `Pointer.State.HandleReport` | inputfs/sys/dev/inputfs/inputfs.c:3540-3641 | leave, enter and motion are appended in that order and the shared session is updated |
| `Wire.BuildRoundTrips` | drawfs/sys/dev/drawfs/drawfs_frame.c:192-233 | every built frame validates with its own length and frame id; the walk recovers exactly the one message with type, id and payload if it is within 512 KiB, and otherwise refuses it at its header |
| `Wire.BuildLayout` | drawfs/sys/dev/drawfs/drawfs_frame.c:192-233 | a built frame byte by byte: the letters DRW1 and each field at its offset |
| `Wire.WalkIsExhaustive` | drawfs/sys/dev/drawfs/drawfs.c:1449-1536 | every message is what the bytes at its place say, and the walk stops only short of a header or at a malformed message |
| `Wire.ValidFrameWalkStaysInside` | drawfs/sys/dev/drawfs/drawfs.c:1449-1536 | for every validated frame the messages tile the frame from its header on: each at least 16 bytes, aligned, none past the end |
| `Wire.WalkTiles` | drawfs/sys/dev/drawfs/drawfs.c:1449-1536 | the same from any position |
| `Wire.FrameHdrRoundTrip` | drawfs/sys/dev/drawfs/drawfs_proto.h:12-18 | the little-endian frame header reads back |
| `Wire.MsgHdrRoundTrip` | drawfs/sys/dev/drawfs/drawfs_proto.h:20-26 | the little-endian message header reads back at any offset |
| `Wire.Validate` | drawfs/sys/dev/drawfs/drawfs_frame.c:21-67 | accepts exactly the frames with the right magic, version and header size and an aligned length between 16 and the bytes at hand |
| `Wire.ValidateReports` | drawfs/sys/dev/drawfs/drawfs_frame.c:26-62 | the first fault in field order is reported, at the offset of its field |
| `Wire.FrameBuild` | drawfs/sys/dev/drawfs/drawfs_frame.c:192-233 | the buffer filled in place is the specified frame, padding zero |
| `Wire.WalkFrame` | drawfs/sys/dev/drawfs/drawfs.c:1449-1536 | the dispatch loop visits exactly the messages of the walk, or those up to a refused reply |
| `Wire.ProcessFrame` | drawfs/sys/dev/drawfs/drawfs.c:1437-1539 | an invalid frame dispatches nothing and reports its error; a valid one dispatches the messages of the walk in order, up to a refused reply |
| `Ingest.IngestConservesBytes` | drawfs/sys/dev/drawfs/drawfs.c:1163-1264 | in every interleaving of any number of writers at lock boundaries: appended == extracted frames and discarded bytes in order ++ buffer; each frame is as long as its own header says; in_len <= in_cap <= 1 MiB; at most 8 grow allocations per call |
| `Ingest.StepKeepsInv` | drawfs/sys/dev/drawfs/drawfs.c:1293-1400 | each lock hold of ingest and of extraction keeps those laws |
| `Ingest.CapNeverShrinks` | drawfs/sys/dev/drawfs/drawfs.c:1218-1253 | no step shrinks the capacity |
| `Ingest.RunKeepsInv` | drawfs/sys/dev/drawfs/drawfs.c:1163-1264 | over every run the capacity only grows and the laws hold |
| `Ingest.ExtractionShrinks` | drawfs/sys/dev/drawfs/drawfs.c:1392-1398 | each extraction shortens the buffer by at least four bytes |
| `Ingest.NewCapClimbs` | drawfs/sys/dev/drawfs/drawfs.c:1249-1253 | the doubling loop reaches the least sufficient size on the ladder 4096 .. 1 MiB |
| `Ingest.HeadAtBytes` | drawfs/sys/dev/drawfs/drawfs.c:1310-1347 | what is at the head, at the byte fields: bad iff magic, header size, zero length, limit or alignment is wrong; incomplete iff short of a header or of the announced length |
| `Ingest.DiscardsIffOverLimit` | drawfs/sys/dev/drawfs/drawfs.c:1203-1211 | a write is discarded with the buffer iff the two exceed 1 MiB |
| `Ingest.UndisturbedWriteIsAppended` | drawfs/sys/dev/drawfs/drawfs.c:1203-1262 | any other write is appended at the first or second lock hold |
| `Ingest.UndisturbedFrameIsExtracted` | drawfs/sys/dev/drawfs/drawfs.c:1303-1398 | the frame at the head is extracted by one scan and one extraction |
| `IngestParse.RacesAgreeWithParser` | drawfs/sys/dev/drawfs/drawfs.c:1293-1400 | in every such interleaving in which nothing is discarded and frames are at least a header long: the extracted frames, and then what parsing the buffer gives, are what parsing everything appended gives |
| `IngestParse.ExtractionAgreesIffHeaderBuffered` | drawfs/sys/dev/drawfs/drawfs.c:1375-1398 | a successful extraction takes the frame parsing sees at the head if and only if a whole header is still buffered |
| `IngestParse.TinyFrameExtractedEarly` | drawfs/sys/dev/drawfs/drawfs.c:1375-1398 | a reachable state in which four stale-matched bytes are extracted as a frame while parsing would wait |
| `Chunking.ChunkingDoesNotMatter` | drawfs/sys/dev/drawfs/drawfs.c:1163-1264 | every way of cutting a stream that parses without a reset gives the frames and leftover of one-shot parsing |
| `Chunking.FramesSurviveAnyChunking` | drawfs/sys/dev/drawfs/drawfs.c:1293-1435 | whole frames followed by a proper prefix of one: however cut, exactly those frames come out and the prefix is left |
| `Chunking.ParseSplits` | drawfs/sys/dev/drawfs/drawfs.c:1293-1400 | parsing a then b on top of the leftover is parsing a + b |
| `Chunking.WholeFramesParse` | drawfs/sys/dev/drawfs/drawfs.c:1293-1400 | one-shot parsing recovers the frames and the proper prefix |
| `SessionBuffer.InBuf.Grow` | drawfs/sys/dev/drawfs/drawfs.c:1233-1261 | a larger buffer with the same contents, of the doubled and clamped size |
| `SessionBuffer.InBuf.Store` | drawfs/sys/dev/drawfs/drawfs.c:1218-1226 | appends the write |
| `SessionBuffer.InBuf.Shift` | drawfs/sys/dev/drawfs/drawfs.c:1395-1398 | drops the first n bytes in place |
| `SessionBuffer.InBuf.TryProcess` | drawfs/sys/dev/drawfs/drawfs.c:1293-1435 | extracts the frames of one-shot parsing and leaves its leftover; on backpressure it stops behind the refused frame and loses nothing |
| `SessionBuffer.InBuf.IngestBytes` | drawfs/sys/dev/drawfs/drawfs.c:1163-1264 | an empty write does nothing, an oversized one is refused, an overflowing one discards the buffer, any other parses buffer ++ data, as far as backpressure lets it |
| `SessionBuffer.SendAll` | drawfs/sys/dev/drawfs/drawfs.c:1163-1264 | a client that writes a clean stream in pieces gets the frames of one-shot parsing |
| `ClientStream.RequestsSurviveAnyChunking` | drawfs/sys/dev/drawfs/drawfs.c:1163-1264 | however the frames of a client's requests are cut into writes, each comes out whole, validates with its frame id, and dispatches as exactly its type, id and payload |
| `ClientStream.BuiltIsWhole` | drawfs/sys/dev/drawfs/drawfs.c:1315-1347 | every built frame of at most 1 MiB is recognised as exactly itself |
| `ClientStream.SendRequests` | drawfs/sys/dev/drawfs/drawfs.c:1163-1264 | the same through the session buffer in place |
| `EventQueue.QueueLaws` | drawfs/sys/dev/drawfs/drawfs.c:1080-1130 | over every sequence of replies, presents, reads and close: dequeued ++ queued are the accepted events in order up to cookies; evq_bytes is their sum and within the limit; bytes_out adds up; at most one PRESENTED per surface, with the cookie last acknowledged |
| `EventQueue.RefusedExactlyWhatDidNotFit` | drawfs/sys/dev/drawfs/drawfs.c:1085-1116 | over every sequence of operations the refused events are exactly those over 64 KiB, those that did not fit on top of the bytes then queued, and those after the close |
| `EventQueue.OutcomeIff` | drawfs/sys/dev/drawfs/drawfs.c:1085-1130 | an event is accepted iff it is at most 64 KiB, fits the limit on top of what is queued, and the session is not closing; which refusal otherwise |
| `EventQueue.PresentAnnounces` | drawfs/sys/dev/drawfs/drawfs.c:524-550 | a present whose reply was accepted ends with exactly one queued PRESENTED of its surface with its cookie, or with the announcement refused because it did not fit |
| `EventQueue.EveryDropIsCounted` | drawfs/sys/dev/drawfs/drawfs.c:1080-1130 | over every sequence of operations whose replies are frames the driver builds, events_dropped counts every refused event |
| `EventQueue.DropsCountedIffNoneOversized` | drawfs/sys/dev/drawfs/drawfs.c:1085-1116 | for arbitrary events, events_dropped counts every refused one if and only if none was over the single-event limit |
| `EventQueue.OversizedIsNotCounted` | drawfs/sys/dev/drawfs/drawfs.c:1088-1089 | of the function alone: an event over 64 KiB, which no caller sends, is refused and not counted |
| `EventQueue.OpKeepsInv` | drawfs/sys/dev/drawfs/drawfs.c:429-551 | each operation keeps the queue laws |
| `EventQueue.NotifyKeepsInv` | drawfs/sys/dev/drawfs/drawfs.c:533-548 | coalescing or queueing restores one event per surface with the newest cookie |
| `EventQueue.SetCookieIsLocal` | drawfs/sys/dev/drawfs/drawfs.c:1068-1070 | rewriting the cookie bytes changes neither type, surface nor length |
| `EventQueue.CookieReadsBack` | drawfs/sys/dev/drawfs/drawfs.c:1068-1070 | the rewritten cookie is the one read back |
| `EventQueue.AnnounceIsRecognised` | drawfs/sys/dev/drawfs/drawfs.c:1045-1066 | the offsets the coalescer reads are where the frame builder put type, surface and cookie |
| `EventQueue.Session.EnqueueEvent` | drawfs/sys/dev/drawfs/drawfs.c:1080-1130 | which of the four answers is given, the queue afterwards, and the counters |
| `EventQueue.Session.TryCoalesce` | drawfs/sys/dev/drawfs/drawfs.c:1033-1074 | rewrites the cookie of the first queued PRESENTED of the surface, if any |
| `EventQueue.Session.ReplyPresent` | drawfs/sys/dev/drawfs/drawfs.c:524-550 | reply, then coalesce or announce; after an accepted reply the surface is announced with this cookie unless the event does not fit |
| `EventQueue.Session.ReadEvent` | drawfs/sys/dev/drawfs/drawfs.c:695-743 | takes the first event, or reports closing or empty |
| `MmapProtocol.TableLaws` | drawfs/sys/dev/drawfs/drawfs_surface.c:79-196 | in every reachable state of the full interleaving: ids unique and below the next one, count and byte totals equal the list's and within quota, the selection 0 or live |
| `MmapProtocol.InstalledObjectNeverReplaced` | drawfs/sys/dev/drawfs/drawfs_surface.c:264-362 | a surface that lives on keeps the object installed on it, and its size |
| `MmapProtocol.FinishHandsThePinnedSurface` | drawfs/sys/dev/drawfs/drawfs_surface.c:322-362 | after the unlocked allocation mmap succeeds iff the pinned surface still lives, and is handed that surface's object |
| `MmapProtocol.UndisturbedMmapSucceeds` | drawfs/sys/dev/drawfs/drawfs_surface.c:264-362 | mmap of the selected surface within its size succeeds: with the object it has, or with a new one that it then has |
| `MmapProtocol.MappingsShareIffSameSurface` | drawfs/sys/dev/drawfs/drawfs_surface.c:264-362 | two mappings have the same object iff they pinned the same surface, and no mapping is longer than its object |
| `MmapProtocol.CountersConserved` | drawfs/sys/dev/drawfs/drawfs_surface.c:331-358 | allocs + races lost == deallocs + installed objects, once no destroyed surface's object waits for its release |
| `MmapProtocol.NothingLeaks` | drawfs/sys/dev/drawfs/drawfs_surface.c:384-435 | with the table empty and nothing under way every object ever allocated was released exactly once |
| `MmapProtocol.RunKeepsAll` | drawfs/sys/dev/drawfs/drawfs_surface.c:264-362 | over every run: the invariant, and that ids are never reused, installed objects stay, released ones stay released |
| `MmapProtocol.StepKeepsInv` | drawfs/sys/dev/drawfs/drawfs_surface.c:264-362 | each lock hold, allocation and release keeps the invariant |
| `MmapProtocol.FinishStepKeepsInv` | drawfs/sys/dev/drawfs/drawfs_surface.c:322-362 | the three outcomes of the re-find: gone, lost race, installed |
| `SurfaceTable.StoredSizeExactIff` | drawfs/sys/dev/drawfs/drawfs_surface.c:107-131 | an accepted surface is stored with its true stride and size if and only if 4 * width * height fits 64 bits |
| `SurfaceTable.StoredSizeExactBelow31Bits` | drawfs/sys/dev/drawfs/drawfs_surface.c:107-131 | sizes are exact for every width and height below 2^31 |
| `SurfaceTable.WrappedSizeIsAccepted` | drawfs/sys/dev/drawfs/drawfs_surface.c:107-111 | a concrete request whose 64-bit product wraps to 166832 bytes and is accepted |
| `SurfaceTable.CreateAnswers` | drawfs/sys/dev/drawfs/drawfs_surface.c:92-124 | when a create request is accepted and why it is refused, over the surfaces that live |
| `SurfaceTable.CreateAppends` | drawfs/sys/dev/drawfs/drawfs_surface.c:126-141 | an accepted request appends one surface: a new id, the dimensions asked for, and the true stride and size iff they fit 64 bits |
| `SurfaceTable.BeginAnswers` | drawfs/sys/dev/drawfs/drawfs_surface.c:277-313 | mmap of the selected surface: too long, the installed object, or a pin |
| `SurfaceTable.FinishAnswers` | drawfs/sys/dev/drawfs/drawfs_surface.c:322-361 | the first to arrive installs its object, the others get that one |
| `SurfaceTable.NothingToMap` | drawfs/sys/dev/drawfs/drawfs_surface.c:286-290 | without a selection, or for an id that does not live, there is nothing to map |
| `SurfaceTable.CreateKeepsInv` | drawfs/sys/dev/drawfs/drawfs_surface.c:116-143 | creation keeps ids ascending and the accounts exact |
| `SurfaceTable.DetachKeepsInv` | drawfs/sys/dev/drawfs/drawfs_surface.c:163-181 | unlinking keeps them too, and clears the selection of the surface it removes |
| `SurfaceTable.DetachRemovesOnly` | drawfs/sys/dev/drawfs/drawfs_surface.c:163-181 | exactly the unlinked surface stops being live |
| `SurfaceTable.Session.Lookup` | drawfs/sys/dev/drawfs/drawfs_surface.c:46-57 | the list walk finds the first surface with the id |
| `SurfaceTable.Session.CreateSurface` | drawfs/sys/dev/drawfs/drawfs_surface.c:79-146 | each refusal leaves the table alone; success appends one surface under a new id |
| `SurfaceTable.Session.DestroySurface` | drawfs/sys/dev/drawfs/drawfs_surface.c:153-196 | succeeds iff the id is live; releases the object iff there is one |
| `SurfaceTable.Session.SelectForMmap` | drawfs/sys/dev/drawfs/drawfs_surface.c:202-231 | selects a live surface and reports its stride and size |
| `SurfaceTable.Session.BeginMmap` | drawfs/sys/dev/drawfs/drawfs_surface.c:277-313 | fails, takes the installed object, or pins id and size |
| `SurfaceTable.Session.FinishMmap` | drawfs/sys/dev/drawfs/drawfs_surface.c:322-361 | re-finds by id; installs, yields, or gives up, with the counters of each |
| `SurfaceTable.Session.FreeAll` | drawfs/sys/dev/drawfs/drawfs_surface.c:384-435 | empties the table and releases every installed object once |

## Left out

- PCI, MSI, BAR and busdma set-up, controller reset, codec power, pin, amplifier and GPIO verbs, CORB/RIRB timing: register traffic whose outcome the hardware decides; success or failure is a step parameter where it matters.
- VFS, vm_object, devfs, sysctl, kqueue and poll internals: only their success or failure appears.
- inputfs_parser.c: report fields are arbitrary inputs.
- inputfs_digitizer_to_pixel: touch reports arrive in pixel coordinates; the scaling is one clamped division.
- Buttons, scroll, and the clickpad button of inputfs: one event per changed bit or field, no state across reports beyond the previous mask; the keyboard focus session in key payloads is not modelled either.
- drawfs_drm.c, drawfs_efifb.c and the blit ioctl: the flip-completion half is a stub, the rest is copying.
- State-region publication, endpoint inventory, attach and detach order.
- The sine source: refills are those of the user source; the sine fill keeps no ring and records no loss.
- The 64-bit wrap of ring cursors, sequence numbers and sample counts, and the 32-bit wrap of surface ids: counters are unbounded numbers.
- Weak memory: each store or load of the event-ring protocol is one atomic step in program order, as the release stores and the sequence re-check intend.
- The closing flag inside ingestion: it is set only after all calls on the session have returned.
- Blocking: a sleeping writer or reader is a step that is not enabled; timeouts and signals are not modelled.
- UserRing.FifoOverEveryRun: speaks of one writer, and of resets taken with no reservation outstanding or on an empty ring; what a flush inside a reservation does is UserRing.FlushInWindowKeepsFifoIff.
- OutputStream.Stream.IntrThread: refills come from the user source; descriptor errors, which are only logged, and the saturating underflow counter are not kept.
- StreamEvents.LogIsWellFormed: each publish takes effect at once; which ones may overlap is StreamEvents.BeginAndEndPublishAlone, and what overlapping does to the ring is SharedRing.
- FrameClock.ClockNeverFalls: speaks of the one controller that owns the clock page.
- Touch.ObserverAgrees: its motions are the synthesised deltas, before clamping; the published ones are in TouchCursor.PublishedEventsTellAll.
- FrameClock.EndTotalIsTruePosition: takes one run of the interrupt thread as a step, because a thread already past its guard can overlap the final accounting of stream_end.
- StreamEvents.UnderrunsConserved: assumes that the pending total stays below 2^32, the width of its field.
- Lifecycle.StreamRunsOnlyOnDemand: takes each entry point as one step; calls into stream_begin and stream_end are serialised.
- FileMirror.SleepingWorkerHasMirroredEverything: speaks of slots; the header on file is the live header at the time of its write and may be ahead of the captured number.
- EventQueue.QueueLaws: assumes coalescing on, a fixed limit and one dispatching thread per session, because the coalesce check and the enqueue are two lock holds.
- Pointer.ObserverAgrees: assumes that the sum of position and delta stays within 32 bits.
- Wire.FrameBuild: payload lengths at which the 32-bit frame length would wrap are excluded.
- MmapProtocol.CountersConserved: the two counter updates of one release are one step; the source has no counter for a surface that vanished during allocation, so the model counts those races itself.
- UserRingBuffer.RingBuffer.Write: a fault during the copy and sleeping on a full ring are modelled in the protocol (Abort, and Reserve not being enabled), not in the class.
- SessionBuffer.InBuf.TryProcess: runs without competing writers; competing ones are the subject of Ingest. Replies sent while processing are those of EventQueue.
