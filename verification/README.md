# PipeWire compatibility layers: a Dafny model

A model, with proofs, of the stateful cores of PipeWire's JACK and ALSA
compatibility layers: the JACK lock-free ring buffer, the ALSA PCM plugin's
data path, the JACK singly linked list, the JACK metadata store, the ALSA
control plugin's event logic, the volume fades of the audioadapter example and
the JACK uuids. `dafny verify dfyconfig.toml` checks everything.

## How it is organised

Each core has up to three layers.

- *Functions on values* that do what the C function does, branch by branch and
  with its arithmetic (`RingBuffer`, `Pcm`, `PcmLayout`, `JSList`, `Metadata`,
  `Ctl`, `Fades`, `Uuid`).
- *Classes and loops* for the code that updates fields, arrays and linked nodes
  in place, each method proved to do to the object what the function does to
  the value (`RingBufferObject`, `PcmObject`, `JSListOps`, `MetadataObject`,
  `CtlObject`, `Fades.Fader`).
- *State machines* whose steps interleave freely, and theorems about every run
  (`RingProtocol`, `PcmRuns`, `PcmDrain`, `PcmDrainLimits`, `PcmSeqlock`,
  `MetadataRuns`, `CtlResync`).

`Bits` holds powers of two, `&`, `|` and the cell of a running counter in a ring
(`Cell`, the remainder by repeated subtraction); `Common` what several modules
share.

## What is assumed

- Memory is sequentially consistent and one byte or one field is read or written
  at once. The ring buffer has one reader and one writer.
- `hw_avail` is the number of frames committed and not yet consumed (playback)
  or of free frames (capture); the boundary is a positive multiple of the buffer
  size; the mmap areas exist; prepare runs while no process callback does; hardware
  and software parameters stay as they are during a run. A transfer step as a
  whole is one step of `PcmRuns`, with `io->state` read afresh before its xrun
  report.
- Of `pw_stream` the PCM runs use what `src/pipewire/stream.c` does: a flush sets
  its draining flag (2715-2722); with either drain flag set no process callback
  starts, and a later cycle that finds no buffer queued posts a drained event, at
  most one at a time, again in every cycle until the stream is re-activated
  (1174-1194, 1528-1536, 491-500); pw_stream_set_active clears both flags between
  callbacks and cancels no event (2427-2455). The main loop lock keeps the drained
  event, the entry of drain, start, stop and prepare apart; the process callback
  runs beside all of them. start and stop may come while a drain waits.
- The server of the control plugin answers requests in order, and numbers syncs
  with fresh nonzero numbers. `long` has 8 bytes, least significant first.
- Comparison functions of the list are pure. Which allocations of the metadata
  store fail is an input. Volumes of the fades are real numbers.

## Where the code falls short of its promise

Each of these comes with a concrete instance and with the condition under which
it happens, an if and only if where the name ends in Iff.

- `remove_property` moves the tail to the start of the array, so deleting a
  middle slot loses the first property (`Metadata.DeleteLawIff`,
  `MetadataRuns.StepRefinesIff`, `Metadata.MiddleDeleteExample`).
- `change_property` can store a new value, fail on the type, and notify nobody
  (`MetadataRuns.SilentChangeIff`, `MetadataRuns.SilentChange`).
- Only the client whose update changed the store is notified, so another client
  cannot follow the keys (`MetadataRuns.ClientViewIff`,
  `MetadataRuns.SecondClientUntold`).
- A drain can complete with frames left exactly if, when it begins, the ring holds
  frames and either an answer is due, or a process callback is at work that loaded
  hw_avail before the last commit and can use up what it loaded (at most min_avail
  frames a cycle)
  (`PcmDrainLimits.DrainCompleteIff`, `PcmDrainLimits.LateCommitIsMissed`).
- A drain can lose its answer and wait for ever: exactly if the stream is
  re-activated between the flush and its answer, by a stop and start while it
  waits or by its own start of a stopped stream, which comes after its two stores
  (`PcmDrain.AnswerLostIff`, `PcmDrain.LostStays`,
  `PcmDrainLimits.RestartLosesAnswer`, `PcmDrainLimits.OwnStartLosesAnswer`). A
  stop and start can also lead to a second flush (`PcmDrain.FlushIff`,
  `PcmDrainLimits.RestartFlushesTwice`).
- A drained event still on the way at the next prepare marks the prepared stream
  as drained (`PcmDrainLimits.PrepareCleanIff`,
  `PcmDrainLimits.OldAnswerAfterPrepare`).
- `drained` and `draining` are both set for a moment (`PcmDrain.FlagsBothSet`,
  `PcmDrainLimits.BothSetWhileAnswering`, `PcmDrainLimits.BothSetWhileMarking`).
- `volume_equal` compares half of the bytes (`Ctl.VolumeEqualIff`,
  `Ctl.UpdateRefreshesCache`, `Ctl.RightChannelMissed`, `Ctl.HighWordMissed`).
- Without a default source, `read_event` reports source changes under the sink's
  element names (`Ctl.NameRightIff`, `Ctl.WrongName`).
- `jack_uuid_to_index` undoes port generation below 2^24 - 1, and for 2^32 - 1
  (`Uuid.ToIndexInvertsIff`, `Uuid.ToIndexConfuses`).

## Model

| member | source | states |
|---|---|---|
| RingBufferObject.RingSize | pipewire-jack/src/ringbuffer.c:26-28 | the shift loop yields the least power of two that is at least 2 and at least the request, for requests up to 2^30 |
| RingBufferObject.JackRingBuffer.Create | pipewire-jack/src/ringbuffer.c:17-37 | a new ring holds the empty stream, its size that least power of two |
| RingBuffer.SpaceBounds | pipewire-jack/src/ringbuffer.c:187-282 | for every pair of pointers read space and write space add up to size - 1 |
| RingBuffer.SpacesAreCounterDifferences | pipewire-jack/src/ringbuffer.c:187-282 | the two masked space formulas are the difference of the unbounded write and read counters, and what is missing to size - 1 |
| RingBuffer.WriteExtendsStream | pipewire-jack/src/ringbuffer.c:229-259 | write appends exactly the accepted prefix of the source to the stream, across the wrap, and disturbs no unread byte |
| RingBuffer.PeekIsNextOfStream | pipewire-jack/src/ringbuffer.c:145-177 | peek returns the next bytes of the stream, as many as asked for and available |
| RingBuffer.ReadAdvancesStream | pipewire-jack/src/ringbuffer.c:113-142 | read consumes exactly the bytes peek would return |
| RingBuffer.FillThenAdvanceIsWrite | pipewire-jack/src/ringbuffer.c:81-110 | filling the write vectors and advancing leaves the same buffer and pointers as write |
| RingBuffer.CopyThenAdvanceIsRead | pipewire-jack/src/ringbuffer.c:51-78 | copying out of the read vectors and advancing returns and leaves what read does |
| RingBuffer.AdvancePublishes | pipewire-jack/src/ringbuffer.c:262-266 | write_advance appends exactly the bytes in the next cells, across the wrap |
| RingBuffer.StepRefines | pipewire-jack/src/ringbuffer.c:113-266 | every operation of the interface refines the one on the unbounded stream, with equal outputs |
| RingBuffer.RunRefinesStream | pipewire-jack/src/ringbuffer.c:113-282 | so does every run: pointers are the counters modulo the size, 0 <= W - R <= size - 1, and every unread byte is in its cell |
| RingBuffer.RunOutputsAgree | pipewire-jack/src/ringbuffer.c:113-282 | every operation of every run reports what the unbounded stream would |
| RingBufferObject.JackRingBuffer.GetReadSpace | pipewire-jack/src/ringbuffer.c:187-198 | returns the number of written bytes not yet read |
| RingBufferObject.JackRingBuffer.GetWriteSpace | pipewire-jack/src/ringbuffer.c:269-282 | returns what that number is short of size - 1 |
| RingBufferObject.JackRingBuffer.WriteBytes | pipewire-jack/src/ringbuffer.c:229-259 | appends the source to the stream, all of it or as much as fits, and changes the bytes and the write pointer as the write on the value does |
| RingBufferObject.JackRingBuffer.ReadBytes | pipewire-jack/src/ringbuffer.c:113-142 | delivers the next bytes of the stream, as many as asked for and available, leaves the rest of the destination alone, and marks them read |
| RingBufferObject.JackRingBuffer.PeekBytes | pipewire-jack/src/ringbuffer.c:145-177 | delivers the same bytes and changes nothing in the ring |
| RingBufferObject.JackRingBuffer.AdvanceRead | pipewire-jack/src/ringbuffer.c:180-184 | within the read space, marks that many bytes read |
| RingBufferObject.JackRingBuffer.AdvanceWrite | pipewire-jack/src/ringbuffer.c:262-266 | within the write space, appends to the stream what lies in the next cells |
| RingBufferObject.JackRingBuffer.Clear | pipewire-jack/src/ringbuffer.c:212-217 | the empty stream again, with zeroed bytes |
| RingProtocol.ReadIsPrefixOfWritten | pipewire-jack/jack/ringbuffer.h:36-42 | in every interleaving of one reader and one writer, byte by byte, with read, write, peek, both vectors and both advances, the bytes read are a prefix of those published, those a prefix of those accepted, and the cells the two threads may touch are disjoint and in bounds |
| RingProtocol.LookSeesNext | pipewire-jack/src/ringbuffer.c:51-78 | in every interleaving each byte that peek or the read vector shows is the byte of the stream at its place after those read, for as long as the reader looks |
| RingProtocol.SegmentsDisjoint | pipewire-jack/src/ringbuffer.c:81-110 | no cell of the writer's segment or vectors is in the reader's |
| RingProtocol.StepInv | pipewire-jack/src/ringbuffer.c:51-266 | every load, byte access, publication and advance of either thread keeps the protocol invariant |
| RingProtocol.QuiescentAccountsForAll | pipewire-jack/src/ringbuffer.c:113-142 | between writes the read space is exactly accepted minus read, and an empty ring means everything accepted was read |
| RingProtocol.WriteCallIsWrite | pipewire-jack/src/ringbuffer.c:229-259 | the writer's steps without interruption leave the ring exactly as the sequential write |
| RingProtocol.ReadCallIsRead | pipewire-jack/src/ringbuffer.c:113-142 | the reader's steps without interruption hand out and leave what the sequential read does |
| Pcm.ClipWant | pipewire-alsa/alsa-plugins/pcm_pipewire.c:253-262 | the loop over the blocks computes the clipped request |
| Pcm.ClipIsGreatest | pipewire-alsa/alsa-plugins/pcm_pipewire.c:253-262 | which is the largest number of frames within the request that fits every block |
| Pcm.UsableIsGreatest | pipewire-alsa/alsa-plugins/pcm_pipewire.c:254-260 | what a block may take: in playback up to its size and min_avail frames, in capture up to what the chunk holds and what lies after its offset |
| Pcm.AdvanceHwCounts | pipewire-alsa/alsa-plugins/pcm_pipewire.c:313-316 | one conditional subtraction keeps the hardware pointer equal to the frame count modulo the boundary |
| Pcm.SurplusBelow | pipewire-alsa/alsa-plugins/pcm_pipewire.c:452-453 | the carried surplus is less than the request, the rest is whole requests, and it is 0 before the first |
| PcmRuns.FramesKeepOrder | pipewire-alsa/alsa-plugins/pcm_pipewire.c:292-336 | in every run, deleting the silence from what was handed on leaves exactly a prefix of what was put in, in order, nothing lost or repeated; playback and capture |
| PcmRuns.HwPtrCounts | pipewire-alsa/alsa-plugins/pcm_pipewire.c:294-317 | in every run the hardware pointer is below the boundary and equals the transferred total modulo the boundary and modulo the buffer size |
| PcmRuns.CycleMoves | pipewire-alsa/alsa-plugins/pcm_pipewire.c:253-337 | every cycle of every run: with io->state RUNNING or DRAINING it moves as many frames as are asked for, fit and are there, otherwise none; playback appends exactly the next frames and then silence, capture exactly the first frames of the input; delay, clock and surplus are the cycle's |
| PcmRuns.PokedIsCommitted | pipewire-alsa/alsa-plugins/pcm_pipewire.c:299-305 | a frame the application writes ahead of its pointer is the one it commits |
| PcmRuns.SilenceReportsXrun | pipewire-alsa/alsa-plugins/pcm_pipewire.c:320-335 | one playback cycle: if it adds silence it sets the xrun flag exactly if io->state, read again after the copy, is active; if it adds none the flag stays as it was |
| PcmRuns.XrunIffShort | pipewire-alsa/alsa-plugins/pcm_pipewire.c:292-334 | in every run, playback and capture, from a state without xrun until the next prepare the flag is set exactly if some cycle came up short and found io->state active after its copy |
| PcmRuns.XrunMeansSilence | pipewire-alsa/alsa-plugins/pcm_pipewire.c:320-334 | in every playback run a set xrun flag has silence in the output since prepare |
| PcmRuns.XrunIffSilence | pipewire-alsa/alsa-plugins/pcm_pipewire.c:320-334 | and while every cycle finds io->state active after its copy, the flag is set exactly if there is silence in the output |
| PcmRuns.XrunSticks | pipewire-alsa/alsa-plugins/pcm_pipewire.c:581-586 | once set the flag stays set until prepare |
| PcmRuns.CarryAccounts | pipewire-alsa/alsa-plugins/pcm_pipewire.c:440-453 | in playback `transferred` is always what was carried into the clock cycle plus everything moved since; in capture both counters stay 0 |
| PcmRuns.TransferredBounded | pipewire-alsa/alsa-plugins/pcm_pipewire.c:440-453 | with requests of at most q frames and m calls in the clock cycle, `transferred` is below (m + 1) * q |
| PcmRuns.CallbackIsSequential | pipewire-alsa/alsa-plugins/pcm_pipewire.c:427-470 | a callback whose steps nothing separates does to the fields what the callback does as sequential code |
| PcmRuns.FlushesAgree | pipewire-alsa/alsa-plugins/pcm_pipewire.c:463-469 | the sequential callback flushes exactly when the step of a run does |
| PcmDrain.FlagsBothSet | pipewire-alsa/alsa-plugins/pcm_pipewire.c:403-408 | in every run, down to single stores, draining and drained are both set only between the two stores of a drained event, never in capture; or between the two stores of a flush if an event was already posted when that callback began |
| PcmDrain.FlushesPerDrain | pipewire-alsa/alsa-plugins/pcm_pipewire.c:463-470 | from one drain or prepare to the next there is at most one flush, plus one for each re-activation that cut a drain of the stream short |
| PcmDrain.FlushIff | pipewire-alsa/alsa-plugins/pcm_pipewire.c:427-470 | a callback flushes exactly when it ends draining with nothing left and draining was clear when it began or was cleared while it ran; it is the first flush of its session unless a re-activation cut one short |
| PcmDrain.CaptureDrainedIff | pipewire-alsa/alsa-plugins/pcm_pipewire.c:463-465 | a capture callback sets drained exactly if it ends draining with no room left, and never flushes |
| PcmDrain.AnswerLostIff | pipewire-alsa/alsa-plugins/pcm_pipewire.c:463-505 | in every run the step after which callbacks wait for an answer nothing will give is exactly a re-activation between a flush and the cycle that answers it: a stop, a start, or the start inside drain |
| PcmDrain.NoAnswerLost | pipewire-alsa/alsa-plugins/pcm_pipewire.c:403-505 | without such a re-activation no answer is ever lost |
| PcmDrain.LostStays | pipewire-alsa/alsa-plugins/pcm_pipewire.c:463-505 | a lost answer stays lost until the next prepare or drain, and meanwhile drain returns only on an error or from a stopped stream |
| PcmDrain.DrainedMeansConsumed | pipewire-alsa/alsa-plugins/pcm_pipewire.c:403-410 | drained playback means a flush since prepare, unless the prepare found an answer due; what was consumed by the last flush is in the output in order, and what was committed by then and not consumed is exactly what was committed after its cycle loaded hw_avail |
| PcmDrain.DrainConsumesAll | pipewire-alsa/alsa-plugins/pcm_pipewire.c:427-509 | a drain that begins in a state that is not vulnerable and during which nothing is committed: whenever it is drained, exactly the frames committed before it were consumed, all in the output in order |
| PcmDrain.DrainReturnMeansConsumed | pipewire-alsa/alsa-plugins/pcm_pipewire.c:493-509 | so it is when drain returns without an error from an active stream |
| PcmDrainLimits.DrainCompleteIff | pipewire-alsa/alsa-plugins/pcm_pipewire.c:253-509 | for every reachable state in which drain is called: it is bound to have consumed every frame by the time it is drained if and only if the state is not vulnerable, that is the ring is empty, or no answer is due and no callback at work loaded hw_avail before the last commit and can use up what it loaded, which is at most min_avail frames |
| PcmDrainLimits.VulnerableLoses | pipewire-alsa/alsa-plugins/pcm_pipewire.c:253-509 | from every vulnerable state a continuation in which the drain completes with frames left |
| PcmDrainLimits.LateCommitIsMissed | pipewire-alsa/alsa-plugins/pcm_pipewire.c:427-471 | a run in which a drain completes although a committed frame was never consumed |
| PcmDrainLimits.PrepareCleanIff | pipewire-alsa/alsa-plugins/pcm_pipewire.c:551-586 | for every reachable state in which prepare is called: afterwards playback is drained only by a flush made since if and only if no drained event was posted and the stream was not draining or drained, or was re-activated |
| PcmDrainLimits.RestartFlushesTwice | src/pipewire/stream.c:2427-2455 | a run with two flushes in one drain, because the stream was stopped and started while its event was on the way |
| PcmDrainLimits.RestartLosesAnswer | src/pipewire/stream.c:2427-2455 | a run into a lost answer: the stream was stopped and started between the flush and its answer |
| PcmDrainLimits.OwnStartLosesAnswer | pipewire-alsa/alsa-plugins/pcm_pipewire.c:484-505 | a run into a lost answer without any stop or start: a callback flushes between line 501 and the start that drain makes at line 502 |
| PcmDrainLimits.OldAnswerAfterPrepare | src/pipewire/stream.c:1174-1181 | a run in which a drain returns, the stream posts once more before it is stopped, and the event marks the prepared stream as drained |
| PcmDrainLimits.BothSetWhileAnswering | pipewire-alsa/alsa-plugins/pcm_pipewire.c:406-407 | a run with both flags set between the stores of a drained event |
| PcmDrainLimits.BothSetWhileMarking | pipewire-alsa/alsa-plugins/pcm_pipewire.c:468-469 | a run with both flags set between the stores of the flush after such a stop and start |
| PcmSeqlock.ReadIsOneInstant | pipewire-alsa/alsa-plugins/pcm_pipewire.c:205-216 | in every interleaving, prepares included, the delay, transferred, now and hw_ptr that leave the retry loop are the memory at one instant of that read, and no writer section overlapped it |
| PcmSeqlock.ReadLeavesIff | pipewire-alsa/alsa-plugins/pcm_pipewire.c:205-219 | a read attempt leaves the loop exactly if it began outside a section and ends at the same sequence number; one no section touches always does |
| PcmSeqlock.SectionAlone | pipewire-alsa/alsa-plugins/pcm_pipewire.c:438-456 | outside sections a section can run and leaves its store and two increments |
| PcmSeqlock.ReadAlone | pipewire-alsa/alsa-plugins/pcm_pipewire.c:205-216 | and a read that nothing interrupts then returns what is in memory |
| PcmSeqlock.StoresMakeSection | pipewire-alsa/alsa-plugins/pcm_pipewire.c:438-456 | the stores of the writer section, in program order, leave the fields as the section function says |
| PcmLayout.SampleInsideBlock | pipewire-alsa/alsa-plugins/pcm_pipewire.c:264-290 | for every format and block layout, each sample of the frames moved lies in the usable bytes of its block and those in the block's memory |
| PcmLayout.SamplesInOrder | pipewire-alsa/alsa-plugins/pcm_pipewire.c:268-290 | channel c of a planar format is in block c, frame after frame; interleaved channels follow one another in order, and the next frame follows the last channel |
| PcmLayout.SamplesDisjoint | pipewire-alsa/alsa-plugins/pcm_pipewire.c:272-289 | samples of different channels or frames never overlap |
| PcmLayout.ChunkFits | pipewire-alsa/alsa-plugins/pcm_pipewire.c:264-281 | the chunk size stored for playback never exceeds the block's maxsize |
| PcmLayout.StrideBits | pipewire-alsa/alsa-plugins/pcm_pipewire.c:798-805 | the stride is one sample per planar block and one frame per interleaved block, in whole bytes |
| PcmObject.PcmPlugin.Process | pipewire-alsa/alsa-plugins/pcm_pipewire.c:237-337 | the transfer in place: frames copied from or to the ring at the hardware pointer, silence after them, pointer and remaining frames as specified, and the xrun flag by a second read of io->state |
| PcmObject.PcmPlugin.RunSection | pipewire-alsa/alsa-plugins/pcm_pipewire.c:438-456 | the seqlock section leaves exactly the fields of the section function and two increments |
| PcmObject.PcmPlugin.OnStreamProcess | pipewire-alsa/alsa-plugins/pcm_pipewire.c:412-474 | the whole callback with its three reads of io->state: nothing if drained or without a buffer, otherwise section and drain test; it flushes exactly if it turns draining on in playback |
| PcmObject.PcmPlugin.Drain | pipewire-alsa/alsa-plugins/pcm_pipewire.c:493-509 | drain with its wait loop, whatever other threads store during the waits: it returns at the first wakeup that finds drained, an error or a stopped stream, and without an error on an active stream only drained |
| PcmObject.ReturnAgrees | pipewire-alsa/alsa-plugins/pcm_pipewire.c:503-505 | the wait loop ends at a wakeup exactly when drain may return in a run |
| JSListOps.SortMerge | pipewire-jack/jack/jslist.h:240-262 | relinks two disjoint lists into their merge, ties taking the second list first |
| JSListOps.Sort | pipewire-jack/jack/jslist.h:264-290 | terminates on every finite acyclic list and relinks its own nodes into the sorted sequence |
| JSListOps.Middle | pipewire-jack/jack/jslist.h:276-284 | the fast and slow pointers find the node before the middle |
| JSList.SortPermutes | pipewire-jack/jack/jslist.h:264-290 | the sorted sequence has exactly the original nodes, for any comparison |
| JSList.SortOrders | pipewire-jack/jack/jslist.h:251-257 | for any total preorder it is ordered, equal elements in exactly the reverse of their input order |
| JSList.SortUnique | pipewire-jack/jack/jslist.h:264-290 | and it is the only such arrangement of the nodes |
| JSListOps.RemoveLink | pipewire-jack/jack/jslist.h:87-114 | exactly the given node leaves the list and is detached, or the list is unchanged if it is not in it |
| JSListOps.Remove | pipewire-jack/jack/jslist.h:136-165 | exactly the first node with the datum leaves the list, or the list is unchanged |
| JSListOps.Append | pipewire-jack/jack/jslist.h:220-238 | the old nodes in order followed by one new node |
| JSListOps.Copy | pipewire-jack/jack/jslist.h:196-218 | new nodes with the same data in order; the original is untouched |
| Metadata.FindDescription | pipewire-jack/src/metadata.c:19-27 | the first description of the subject, or none |
| Metadata.FindSlot | pipewire-jack/src/metadata.c:101-110 | the first slot with the key, or none |
| Metadata.DeleteLawIff | pipewire-jack/src/metadata.c:134-144 | deleting a slot removes its key and nothing else if and only if the slot is the first or the last |
| Metadata.MiddleLosesFirst | pipewire-jack/src/metadata.c:138-140 | deleting any middle slot loses the first key |
| Metadata.MiddleDeleteExample | pipewire-jack/src/metadata.c:138-140 | deleting the second of three properties leaves the third and a freed slot |
| MetadataRuns.StepRefinesIff | pipewire-jack/src/metadata.c:168-223 | an update keeps the store equal to a map from (subject, key) to (value, type) if and only if it does not delete a middle slot, whatever allocations fail |
| MetadataRuns.RunRefinesMap | pipewire-jack/src/metadata.c:168-223 | over every run without middle deletions subjects and keys stay unique, counts stay within sizes, and all lookups agree with the map |
| MetadataRuns.NotesReconstructKeys | pipewire-jack/src/metadata.c:181-221 | replaying the notifications given to all clients of such a run gives exactly the keys a lookup finds, even when allocations fail |
| MetadataRuns.ClientViewIff | pipewire-jack/src/metadata.c:216-221 | the notifications of one client alone give it the key set at all times if and only if every update that changed the set was its own |
| MetadataRuns.SecondClientUntold | pipewire-jack/src/metadata.c:216-221 | two clients that both hear of a new property: the second finds it in the store and is told nothing |
| MetadataRuns.ChangeStep | pipewire-jack/src/metadata.c:146-166 | a change is reported exactly if something differed and nothing failed, and fails exactly if the new pair is not stored |
| MetadataRuns.ChangeFailsIff | pipewire-jack/src/metadata.c:146-166 | a change fails exactly if a string that differs could not be allocated |
| MetadataRuns.LookupAfter | pipewire-jack/src/metadata.c:168-223 | what a lookup of any key finds after an update, on the store alone: other keys as before, nothing after a deletion, the new pair unless it failed, and exactly the old or half-changed pair if it did |
| MetadataRuns.SilentChangeIff | pipewire-jack/src/metadata.c:149-164 | the stored data changes without a notification exactly when the value was stored and then the type could not be |
| MetadataRuns.SilentChange | pipewire-jack/src/metadata.c:149-164 | an update that replaces the value, fails on the type and notifies nobody |
| MetadataRuns.StepKeepsSizes | pipewire-jack/src/metadata.c:119-130 | every update, even a middle deletion or a failed allocation, keeps counts within sizes and sizes 0 or 8 times a power of two |
| MetadataRuns.RunKeepsSizes | pipewire-jack/src/metadata.c:119-130 | so it is over every run |
| MetadataObject.MetadataStore.UpdateProperty | pipewire-jack/src/metadata.c:168-223 | the update with its search loops does to the global store what the function does, on every store whose search meets no freed slot |
| MetadataRuns.CreateStep | pipewire-jack/src/metadata.c:198-210 | an update of a new key adds exactly that key to the map if it is notified and leaves the map alone if an allocation failed, whichever it was |
| MetadataRuns.CreatedIff | pipewire-jack/src/metadata.c:112-131 | a creation takes place and is notified exactly if the description exists or could be allocated, the array has room or could grow, and the property could be allocated; otherwise it fails |
| MetadataObject.MetadataStore.CopyProperties | pipewire-jack/src/metadata.c:51-71 | copies every property in order if and only if the array and every property could be allocated, and otherwise nothing |
| MetadataObject.MetadataStore.GetAllProperties | pipewire-jack/src/metadata.c:340-373 | a snapshot of all descriptions that answers every lookup as the store does, if and only if the array and every copy could be allocated, and otherwise nothing |
| MetadataObject.SnapshotAgrees | pipewire-jack/src/metadata.c:73-82 | copies of all descriptions answer every lookup as the store does |
| Ctl.VolumeEqualIff | pipewire-alsa/alsa-plugins/ctl_pipewire.c:223-230 | for all volumes the comparison sees the channel count, the values of the first half of the channels and, of an odd number, the low word of the middle value |
| Ctl.UpdateRefreshesCache | pipewire-alsa/alsa-plugins/ctl_pipewire.c:232-279 | for all caches and nodes: without a node its cache stays; with it the cached mute is the node's and the cached volume is too unless it differs only in what the comparison does not see; a bit is set exactly if it was or its cached value changed, and the eventfd is written exactly if one did |
| Ctl.RightChannelMissed | pipewire-alsa/alsa-plugins/ctl_pipewire.c:229-229 | a stereo change of the right channel only is not noticed |
| Ctl.HighWordMissed | pipewire-alsa/alsa-plugins/ctl_pipewire.c:622-631 | a mono value written with a high word is not told from its low word |
| Ctl.PendingMeansReadable | pipewire-alsa/alsa-plugins/ctl_pipewire.c:210-221 | in every reachable state a pending update bit or a pending error means the eventfd is readable |
| Ctl.ReadsServeEachOnce | pipewire-alsa/alsa-plugins/ctl_pipewire.c:695-725 | a subscribed reader gets each pending bit exactly once, and after as many reads as bits none is pending and the eventfd is quiet |
| Ctl.ReadEventCases | pipewire-alsa/alsa-plugins/ctl_pipewire.c:688-726 | a read returns and clears a pending error first, then EAGAIN if nothing is pending or nobody subscribed, otherwise the first pending bit in the order source volume, source mute, sink volume, sink mute; no other bit is lost |
| Ctl.ErrorReported | pipewire-alsa/alsa-plugins/ctl_pipewire.c:1191-1209 | an error of the core other than ENOENT is returned by the next read and makes the eventfd readable; ENOENT changes nothing |
| Ctl.NameRightIff | pipewire-alsa/alsa-plugins/ctl_pipewire.c:700-717 | an event names the changed element if and only if there is a default source or no change of the source is pending |
| Ctl.WrongName | pipewire-alsa/alsa-plugins/ctl_pipewire.c:700-707 | without a default source a capture volume change is reported as one of the playback volume |
| CtlObject.SameVolume | pipewire-alsa/alsa-plugins/ctl_pipewire.c:223-230 | the comparison word by word says equal exactly for volumes that agree in that half |
| CtlObject.CtlPlugin.RefreshVolume | pipewire-alsa/alsa-plugins/ctl_pipewire.c:232-279 | on the fields and the C bit mask: keeps that a set bit means a readable eventfd, loses no pending bit, and refreshes both caches in that sense |
| CtlObject.CtlPlugin.NextEvent | pipewire-alsa/alsa-plugins/ctl_pipewire.c:675-730 | on the C bit mask: an event takes exactly its own bit, an error or EAGAIN takes none, the eventfd is quiet exactly when no bit is left, and a set bit still means it is readable |
| CtlObject.OrAdds | pipewire-alsa/alsa-plugins/ctl_pipewire.c:245-246 | or-ing an update bit into the mask adds that bit to the pending set and no other |
| CtlObject.AndRemoves | pipewire-alsa/alsa-plugins/ctl_pipewire.c:705-716 | and-ing with the complement of a bit removes that bit and no other |
| CtlObject.AndTests | pipewire-alsa/alsa-plugins/ctl_pipewire.c:705-716 | and-ing with a bit is nonzero exactly if it is pending |
| CtlResync.ReturnsZeroIff | pipewire-alsa/alsa-plugins/ctl_pipewire.c:154-177 | at a wakeup wait_resync returns 0 exactly when there is no error and every request sent so far was answered, syncs issued by handlers meanwhile included |
| CtlResync.WakeReports | pipewire-alsa/alsa-plugins/ctl_pipewire.c:165-175 | a wakeup with an error returns and clears it; without one, while requests are unanswered, it waits on |
| CtlResync.ErrorReachesCaller | pipewire-alsa/alsa-plugins/ctl_pipewire.c:1191-1209 | an error of the core reaches the waiting caller at its next wakeup, ENOENT excepted |
| CtlResync.ResyncIsAwaited | pipewire-alsa/alsa-plugins/ctl_pipewire.c:154-177 | what a handler sends while a caller waits is waited for |
| CtlResync.StepInv | pipewire-alsa/alsa-plugins/ctl_pipewire.c:1211-1225 | every answer, event, error, wait and wakeup keeps the newest request a sync with the pending number and the last number one of an answered sync |
| Fades.RampPositiveIff | spa/examples/adapter-control.c:313-340 | exactly which settings give a positive ramp and step |
| Fades.RampCounts | spa/examples/adapter-control.c:313-340 | the sample counts the settings stand for, their sign wrap, and -1 in place of 0 |
| Fades.ScaleKeepsRange | spa/examples/adapter-control.c:342-350 | the linear scale is the level, the cubic one lies between 0 and it and meets it only at 0 and 1 |
| Fades.RiseEndsIff | spa/examples/adapter-control.c:368-376 | the fade-in loop ends, from any level, if and only if the step size is positive or its first pass reaches full volume |
| Fades.FallEndsIff | spa/examples/adapter-control.c:420-428 | the fade-out loop ends, from any level, if and only if the step size is positive or its first pass reaches silence |
| Fades.PositiveStep | spa/examples/adapter-control.c:360-361 | the step size is positive if and only if ramp and step have the same sign, as they have when neither is set |
| Fades.StepsReachOne | spa/examples/adapter-control.c:361-376 | k steps reach full volume if and only if k is at least ramp / step rounded up |
| Fades.PointAt | spa/examples/adapter-control.c:367-428 | entry k of a rise is at k steps and k step sizes up, of a fall one step later and k step sizes down |
| Fades.Fader.FadeIn | spa/examples/adapter-control.c:352-377 | whenever the loop ends, it leaves at the first level that reaches 1, with the levels and offsets it wrote |
| Fades.Fader.FadeOut | spa/examples/adapter-control.c:402-429 | whenever the loop ends, it leaves at the first level at or below 0, with the levels and offsets it wrote |
| Fades.Fader.DoFade | spa/examples/adapter-control.c:454-481 | skips while the control buffer is not taken, otherwise fades and alternates; in native mode it only alternates |
| Fades.FallCount | spa/examples/adapter-control.c:420-428 | fading out from a sum of m steps takes m passes and ends at exactly 0 |
| Fades.NoDrift | spa/examples/adapter-control.c:469-480 | before every fade of any alternating run the level is exactly 0 or exactly the sum of the steps, and every fade takes ramp / step passes, rounded up |
| Fades.FadesRepeat | spa/examples/adapter-control.c:469-480 | every fade repeats the one two before it, entry by entry |
| Fades.OffsetsIncreaseIff | spa/examples/adapter-control.c:367-375 | offsets strictly increase within a fade if and only if the step is positive |
| Uuid.ParseUnparse | pipewire-jack/src/uuid.c:64-85 | printing never truncates, and parsing a printed uuid gives it back from 2^32 on and refuses it below |
| Uuid.ScanDecimal | pipewire-jack/src/uuid.c:70-70 | a printed number followed by anything but a digit is read back |
| Uuid.ScanSigned | pipewire-jack/src/uuid.c:70-70 | a sign before the number is taken, minus negating modulo 2^64 |
| Uuid.ScanLimits | pipewire-jack/src/uuid.c:70-76 | a number beyond 64 bits saturates, and a string without one is refused |
| Uuid.ToIndexInvertsIff | pipewire-jack/src/uuid.c:25-38 | to_index undoes port generation exactly for ids below 2^24 - 1 and for 2^32 - 1 |
| Uuid.ToIndexConfuses | pipewire-jack/src/uuid.c:35-38 | port 2^24 - 1 comes back as 2^32 - 1, and port 2^24 as port 0 |
| Uuid.KindsDisjoint | pipewire-jack/src/uuid.c:15-32 | no port uuid ever equals a client uuid |
| Uuid.GeneratedParse | pipewire-jack/src/uuid.c:15-85 | every generated uuid, printed and parsed, comes back |
| Uuid.ClientsDistinct | pipewire-jack/src/uuid.c:18-20 | client uuids do not repeat within 2^32 calls |
| Uuid.ClientUuids.Generate | pipewire-jack/src/uuid.c:15-23 | the uuid is none of those the last 2^32 - 1 calls gave out, none of a port, and survives printing and parsing |

## Left out

- RingBufferObject.RingSize: requests above 2^30 are a precondition, because `1 << power_of_two` then overflows an `int`.
- jack_ringbuffer_reset_size, mlock and free: a size that is not a power of two is outside the masking scheme; the others only call the system.
- PcmSeqlock.ReadIsOneInstant: holds for read attempts that span fewer than 2^64 increments, because the sequence number wraps; weak memory ordering is below the model.
- PcmRuns.TransferredBounded: counters are unbounded integers, so the 64-bit wrap of `transferred` is not modelled.
- The arithmetic of snd_pcm_pipewire_delay after its retry loop, update_active and poll_revents: short expressions over the values proved consistent.
- The wait loops of prepare and wait_resync and the retry loop of delay as loops: what they wait for comes from other threads, so they are the steps Prepare, Wake, and RBegin to REnd of the run models.
- Freed list nodes: jack_slist_remove's free is modelled as detaching the node; length, find, prepend and last only add easy members.
- Which node is the default sink or source (find_global, find_best_node), write_integer's parameter building and cbrtf/lroundf conversions: inputs of the control model.
- Fades: double rounding, the pod encoding and the buffer counter of on_sink_node_ready.
- MetadataObject.MetadataStore.UpdateProperty: requires that its search meets no freed slot, because after a middle deletion it may read freed strings.
- Fades.Fader.FadeIn: requires that the loop ends, which RiseEndsIff decides.
- Fades.Fader.FadeOut: requires that the loop ends, which FallEndsIff decides.
- jack_set_property and the other client entry points of the metadata store: they only lock, look up a proxy and send.
- Plugin construction, configuration, format and channel-map tables, registry binding and logging.
