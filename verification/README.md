# FEED driver: a verified model

The FEED driver keeps register caches in step with a device over UDP. Records ask for reads and
writes of registers; a worker packs their words into messages of up to 180 operations, sends them
over 1 to 255 slots, matches replies by slot and sequence number, and walks a connection through
Error, Idle, Searching, Inspecting and Running. This project models that engine, its peer, and the
smaller programs around it, and proves what they promise.

## How it is organised

The engine appears twice. `EngineState` has it as values: the state of a device with its registers
and messages, and every operation as a function. `DriverObjects`, `DriverShapes` and `Driver` have
it as the source does: register, message and device objects whose fields the methods update in
place, in loops, each method ending in exactly the state the function says (`st` is the abstract
value and `Valid` ties it to the fields). The source's own asserts and `.at()` accesses are proved
there.

| files | what they are about |
|---|---|
| `EngineState`, `Worker` | the operations, and the machine of atomic steps: a worker step runs from one release of the lock to the next, a record step is one locked call |
| `Partition`, `Conservation`, `Safety` | the global invariant, the accounting of actions, and both over all runs |
| `Messages`, `Packing`, `Progress`, `Connection`, `Access`, `Stale` | shape and order of messages, termination measure, connection states and failures, refused operations, stale replies |
| `Sending`, `SendQueue`, `Waits`, `Handshake`, `RegisterMap` | what is handed to the network, in which order registers are served, which operation an action waits for, the way to Running, the registers of the map |
| `Peer`, `Simulator` | the device as a function on its memory, and as objects with an address index |
| `EndToEnd`, `EndToEndSteps`, `EndToEndSends`, `EndToEndQueue`, `EndToEndDevice`, `Restarts`, `NetRuns`, `NetTheorems`, `NetWaits` | driver, network and device together |
| `DriverObjects`, `DriverShapes`, `Driver`, `Barrier`, `Records` | objects: the driver, the sync record, register records |
| `Numbers`, `Strides`, `Ranks`, `Demux` | powers of two, strided copies, channel masks, interleaving |
| `Rom`, `RomLayout`, `Tgen`, `TgenProgram`, `Exchange`, `Chain` | ROM codec, sequencer compiler, the client's list operation, record chains |

What the model assumes:

- A register lies within the 24-bit address space: base + size <= 2^24, as `ValidInfo` says.
- Words are 32-bit values; the byte order of the wire and of the caches is not visible, except in
  `Rom`, which works on bytes. The send counter wraps at 2^32 in `Driver`; `attempt` and `latest`
  are history fields.
- The environment chooses the packets received, the time, the register map in the ROM, the outcome
  of every `sendto()`, and whether `poll()` or the callbacks fail. Packets are arbitrary in all
  theorems but those of the end-to-end runs.
- An end-to-end run is a stretch without a reset, from a clean state with no request under way; the
  next stretch begins where a reset leaves it, with old replies still under way
  (`NetRuns.ResetStarts`). The device executes a request at most once and before its reply; a reply
  is younger than 2^24 send attempts when it is received. A lost packet is one that is never
  executed or never received. Replies may be repeated and reordered without bound.
- The registers of a map may overlap, each other and the bootstrap registers
  (`NetRuns.AnyMapConnects`). What is proved about the written words of a register asks only that
  no other writable register shares an address with it, and that cannot be dropped
  (`NetTheorems.SharedWord`); `NetTheorems.ReadsAreFresh` asks nothing of the map.
- zlib is a pair of functions of which the ROM round trip requires that one undoes the other.

Where code and documentation, or code and intent, disagree, the model follows the code:

- `documentation/devsup.rst:152-154` says that a sync record waits for every register operation in
  progress. `read_sync` registers only with the registers in the send queue, so an operation whose
  words have all been sent, but not answered, is not waited for (`Barrier.SyncWaitsFor`,
  `Barrier.SyncCovers`; `Barrier.SentNotWaitedFor` has such a state).
- The complaint "too many completes" of a sync record is reachable if and only if its link has a
  `reg=` (`Barrier.ComplainsExactly`). At most once after a reset, and only in Error, the worker
  calls `complete()` on every record with a register name; a sync record is then owed nothing. The
  documented link (`documentation/devsup.rst:156-159`) and the one in
  `common/wf/Db/feed_wf_acquire_base.template:42` have no register name, so those records never
  complain. The complaint does no harm (`Barrier.ErrorsAreSweeps`).
- A readback record (`rbv`) checks `writable` but queues a read. On an idle register that cannot be
  read the request is refused; on a busy one it is accepted and throws in the worker when the
  operation before it completes (`Access.CompleteThrows`). The theorem about runs without
  exceptions therefore asks callers to check the operation they queue.
- With an array, the `size` of a record's link is an absolute bound on the register offset, not a
  count of elements (`Records.Bound`).
- An output of `asub_split_bits` of another type is not counted either, which shifts the places of
  the channels behind it (`Ranks.SplitAgrees`).
- A program that writes to address zero is accepted by the sequencer compiler but ends there
  (`Tgen.PreservedExactly`, `Tgen.ZeroTargetStops`).
- `prepare` checks for room for an end descriptor but does not write one (`Rom.RomRoundTrip`).

`Access` states when `queue()` throws for callers that do not check; all other theorems about the
engine hold for such callers as well.

## Model

| member | source | states |
|---|---|---|
| `Safety.RunInv` | `src/driver/device.cpp:136-655` | In every run, whenever the lock is free: each word of an operation in progress is received, or in exactly one address slot of one message with the right address and read bit, or still unsent with its register in the send queue exactly once; nremaining counts the unreceived words (Partition.Inv) |
| `Partition.QueueInv` | `src/driver/device.cpp:136-194` | A request, accepted or refused, on any register in any state keeps the partition |
| `Partition.LoadInv` | `src/driver/device.cpp:387-419` | Moving the next word of the front register into a free address slot keeps the partition |
| `Partition.FrontReady` | `src/driver/device.cpp:390-394` | The register at the front of the send queue is in progress and has a word left: the two asserts of the first pass of handle_send |
| `Partition.AttemptInv` | `src/driver/device.cpp:428-470` | One send attempt, whatever sendto() does, keeps the partition |
| `Partition.HandleSendInv` | `src/driver/device.cpp:375-474` | Both passes of handle_send keep the partition, also when they stop early or throw |
| `Partition.MatchedWord` | `src/driver/device.cpp:523-536` | A reply word that passes the masked comparison names the address and the direction that were asked for |
| `Partition.AcceptedWord` | `src/driver/device.cpp:512-588` | An accepted word belongs to an outstanding offset of its register, so both .at() accesses are in range; its effect on the state is exactly Accept and keeps the partition |
| `Partition.CompleteInv` | `src/driver/device.cpp:551-584` | Completion, with the restart of a queued write before a queued read, re-establishes the partition |
| `Partition.TimeoutAsserts` | `src/driver/device.cpp:610-643` | Any register a message refers to is in progress and is either the front of the queue or completely sent: the two asserts of do_timeout |
| `Partition.TimeoutGivesUp` | `src/driver/device.cpp:610-655` | do_timeout gives up the first register of the message, hands over all its actions, takes it from the front of the queue, drops every reference to any register, frees the message, asks for a reset, and changes nothing else |
| `Partition.TimeoutLost` | `src/driver/device.cpp:610-655` | do_timeout leaves no message referring to any register, and a requested reset |
| `Partition.HandleProcessInv` | `src/driver/device.cpp:476-594` | Any packet at all leaves the partition or the state do_timeout leaves |
| `Partition.ProcessAllInv` | `src/driver/device.cpp:1010-1016` | So does any batch of packets |
| `Safety.HandleTimeoutInv` | `src/driver/device.cpp:596-608` | So does a pass over the deadlines |
| `NetRuns.NoneDue` | `src/driver/device.cpp:596-608` | Messages not in flight or not yet due are not timed out: without one that is due the pass changes nothing |
| `Safety.HandleStateInv` | `src/driver/device.cpp:807-856` | After handle_state the partition holds, in every connection state and after every reset |
| `Safety.ResetClean` | `src/driver/device.cpp:291-373` | Device::reset leaves the three bootstrap registers Invalid and zeroed, all slots free, the queue empty and no request pending, in state Error, Idle or Searching |
| `Safety.StateResets` | `src/driver/device.cpp:807-817` | A requested reset is carried out by the next pass in every state: into Error if an error was requested, else into Searching with an address and into Idle without |
| `Safety.NextInv` | `src/driver/device.cpp:858-1031` | One step of the worker between two releases of the lock, or of a record, keeps the partition |
| `Safety.RunConserved` | `src/driver/device.cpp:107-194` | In every run each accepted action has been completed or is still owned by the engine, counted as often as it was accepted: none is lost or completed twice, through timeouts, resets, deleted registers and exceptions |
| `Conservation.QueueOwned` | `src/driver/device.cpp:158-192` | queue() adds its action once, and nothing else, exactly if it does not throw |
| `Conservation.ProcessOwned` | `src/driver/device.cpp:107-122` | process() only moves actions to the device, with and without cancel |
| `Conservation.CompleteOwned` | `src/driver/device.cpp:551-584` | Completion moves actions between lists and loses none |
| `Conservation.DoTimeoutOwned` | `src/driver/device.cpp:610-655` | do_timeout moves actions and loses none |
| `Conservation.ResetOwned` | `src/driver/device.cpp:320-344` | A reset hands the actions of every register to the device, also those of deleted registers |
| `Safety.OwnedWaits` | `src/driver/device.cpp:100-105` | Nothing is stranded: an action that waits on registers waits on one that is in progress |
| `Connection.RunDatagrams` | `src/driver/device.cpp:379-457` | Every datagram of every run has 8 to 362 words (32 to 1448 bytes), the magic word, its slot and attempt, whole commands, and padding reads only below 32 bytes |
| `Messages.FramedPacked` | `src/driver/device.cpp:435-448` | Padding and framing leave the commands alone, also for a message that was blocked and framed before |
| `Messages.LoadedPacked` | `src/driver/device.cpp:396-416` | Extending a message replaces earlier padding: its words stay the packed prefix |
| `Messages.FirstPassExhausts` | `src/driver/device.cpp:379-426` | The first pass stops only with an empty queue or with every message sent or full |
| `SendQueue.QueueIsFifo` | `src/driver/device.cpp:136-194` | As long as nothing fails registers enter the send queue at its end and leave it at its front: none overtakes another |
| `Packing.FirstPassRefinesQueue` | `src/driver/device.cpp:379-426` | What the first pass adds to the messages, read in slot order, is what it takes from the queue: addresses ascending within a register, registers first in first out |
| `Progress.AcceptProgress` | `src/driver/device.cpp:547-584` | An accepted word lowers the work still to do by exactly one, also when its register restarts |
| `Progress.ReplyProgress` | `src/driver/device.cpp:476-594` | A matching, complete reply lowers the work still to do by the number of words it answers, at least one, and frees its message and no other |
| `Progress.UnmatchedIgnored` | `src/driver/device.cpp:488-508` | A packet that answers no message in flight changes nothing |
| `Progress.HandleSendBusy` | `src/driver/device.cpp:375-474` | handle_send leaves that measure alone, and leaves a message Ready or Sent whenever it is not zero |
| `Progress.AtRest` | `src/driver/device.cpp:165-194` | When the measure is zero every register is idle with nothing queued and no message refers to any |
| `Sending.SendsAll` | `src/driver/device.cpp:428-470` | For every outcome of every sendto(): a message that becomes Sent has the new deadline, and if it was delivered exactly one datagram carries it, with its words and its attempt; there are no other datagrams and they go out in slot order; a message not sent is left waiting exactly if an attempt at it or before it was blocked or failed, and the pass throws exactly if the first of these failed |
| `Sending.RunHanded` | `src/driver/device.cpp:428-470` | In every run a message in flight was made Sent by a step of the worker, with its deadline, and if the network took it then its datagram has been sent |
| `Waits.ActionServed` | `src/driver/device.cpp:107-194` | As long as nothing fails, and with arbitrary packets: the action of an accepted write is completed when and only when a write of its register has ended that began with the request or later; that of an accepted read when and only when a read has ended that began with the request or later, or that it joined |
| `Waits.CachesKept` | `src/driver/device.cpp:532-584` | As long as nothing fails the send cache changes only when a record stores into it, the receive cache only while the register is read and packets are handled |
| `NetWaits.ReadSees` | `src/driver/device.cpp:170-192` | A record that waits for a read, asked for before any of it was sent, goes on only after a read that ended later, and the words it then finds have been on the device since it asked |
| `NetWaits.WriteReached` | `src/driver/device.cpp:170-192` | A record that waits for its write goes on only when the device has the words, unless another write of the register is under way by then |
| `NetWaits.StoredReaches` | `src/driver/devreg.cpp:96-123` | Stored words nobody has replaced are on the device once a write was requested after the store and none is under way any more |
| `Connection.RunningGate` | `src/driver/device.cpp:840-846` | Running is entered only when the callbacks of handle_inspect return in Inspecting, and these are started only in Inspecting with both ROM registers InSync |
| `Handshake.RunRoms` | `src/driver/device.cpp:819-838` | In every run, while the worker is in Inspecting, both ROM registers are being read or have been |
| `Handshake.ConnectionAdvances` | `src/driver/device.cpp:807-856` | A pass that finds nothing being read on the bootstrap registers, a register map and no failure takes the connection nearer to Running: Idle, Searching, ID read, Inspecting, callbacks |
| `Handshake.CallbacksReturn` | `src/driver/device.cpp:840-846` | When the callbacks return the worker is Running |
| `RegisterMap.MapAdded` | `src/driver/device.cpp:715-743` | Connecting keeps the registers there are and adds, in the order of the map, one register for every entry whose name neither they nor an earlier entry have |
| `RegisterMap.MapNamed` | `src/driver/device.cpp:715-743` | So every name of the map is the name of a register |
| `RegisterMap.FreshIs` | `src/driver/device.cpp:72-90` | A new register has its entry's properties, is idle with nothing queued, and has zeroed caches of its size |
| `Connection.ErrorGate` | `src/driver/device.cpp:807-817` | Error is left only by a requested reset while no error is requested |
| `Connection.DeafWhenSilent` | `src/driver/device.cpp:493-508` | In Error and Idle no packet and no deadline changes anything |
| `Connection.FailureReceive` | `src/driver/device.cpp:518-530` | A bad or truncated reply or a missed deadline ends in a clean reset before the lock is released |
| `Connection.FailureEndsClean` | `src/driver/device.cpp:999-1028` | In every run a step with a bad reply, a missed deadline, a failing poll() or an exception, be it while handling packets or states, in the callbacks or while sending, ends in the clean state, not Running, with every accepted action completed |
| `Access.CompleteThrows` | `src/driver/device.cpp:570-583` | A completion throws exactly if the operation it starts is not allowed; a refused request on a busy register surfaces here, in the worker |
| `Access.PacketsAllowed` | `src/driver/device.cpp:476-594` | If everything queued is allowed, processing packets of any contents never throws |
| `Access.OnlyMissingMapThrows` | `src/driver/device.cpp:858-1031` | In runs whose callers check readable and writable, no request is refused and packets, deadlines and states throw only for a ROM without a register map |
| `DriverObjects.DevReg.Process` | `src/driver/device.cpp:107-122` | Hands over the actions of the operation, or of all three lists, and empties them |
| `DriverObjects.DevReg.Start` | `src/driver/device.cpp:148-166` | The idle branch of queue on the register object, equal to Started |
| `DriverObjects.DevReg.Merge` | `src/driver/device.cpp:171-192` | The busy branches of queue on the register object, equal to Merged |
| `DriverObjects.DevReg.Fill` | `src/driver/device.cpp:538-549` | Stores a read word and marks the offset received once, equal to Filled |
| `DriverObjects.DevReg.Reset` | `src/driver/device.cpp:96-105` | Zeroes both caches, hands over all actions and goes Invalid |
| `DriverObjects.DevMsg.Clear` | `src/driver/device.h:139-144` | Frees the message object |
| `DriverObjects.DevMsg.Frame` | `src/driver/device.cpp:435-448` | Pads in a loop and writes the header from the 32-bit counter, equal to Framed with the unbounded attempt |
| `Driver.Device.constructor` | `src/driver/device.cpp:222-272` | A new device is a valid initial state with 1 to 255 message slots |
| `Driver.Device.Queue` | `src/driver/device.cpp:136-194` | The method on the objects does what Queue says, and throws exactly when it does |
| `Driver.Device.LoadSlot` | `src/driver/device.cpp:387-419` | The inner loop of the first pass, with the source asserts proved, equals LoadSlot and keeps the partition |
| `Driver.Device.LoadPass` | `src/driver/device.cpp:379-426` | The first pass as nested loops equals LoadPass |
| `Driver.Device.SendPass` | `src/driver/device.cpp:428-474` | The second pass as a loop equals SendPass, datagrams in order included |
| `Driver.Device.HandleSend` | `src/driver/device.cpp:375-474` | Both passes on the objects equal HandleSend |
| `Driver.Device.Complete` | `src/driver/device.cpp:551-584` | Completion on the objects equals Complete |
| `Driver.Device.ProcessWord` | `src/driver/device.cpp:512-588` | The loop body of handle_process, accesses in range and all-received assert proved, equals ProcessWord |
| `Driver.Device.HandleProcess` | `src/driver/device.cpp:476-594` | The method equals HandleProcess for any packet |
| `Driver.Device.DoTimeout` | `src/driver/device.cpp:610-655` | The triple loop of do_timeout, asserts proved, equals DoTimeout |
| `Driver.Device.HandleTimeout` | `src/driver/device.cpp:596-608` | The loop equals HandleTimeout |
| `Driver.Device.Reset` | `src/driver/device.cpp:291-373` | The method equals Reset |
| `Driver.Device.AddAll` | `src/driver/device.cpp:715-743` | The loop adds the registers of the map whose names are free, as new objects, equal to AddRegs |
| `Driver.Device.HandleState` | `src/driver/device.cpp:807-856` | The method equals HandleState |
| `Driver.Device.Pass` | `src/driver/device.cpp:997-1028` | One pass of run from the return of poll() to the next release of the lock is the step Received of the worker machine, and keeps the partition |
| `Driver.Device.Connected` | `src/driver/device.cpp:793-846` | The return of the callbacks, or their exception, is the step Connected |
| `Driver.Device.Sync` | `src/driver/devmain.cpp:360-384` | The loop of read_sync equals SyncOn |
| `EndToEnd.SlotSurvives` | `src/driver/device.cpp:443-446` | The slot number survives the header for every number of slots from 1 to 255 |
| `EndToEnd.StaleOnlyAfterWrap` | `src/driver/device.cpp:488-508` | One packet against one message: a reply is accepted for a message other than the one it answers only if both used the same slot and a multiple of 2^24 send attempts lies between them |
| `EndToEnd.StaleAfterWrap` | `src/driver/device.cpp:488-508` | The bound is exact: after such a multiple the stale reply is accepted |
| `Stale.RunIds` | `src/driver/device.cpp:428-457` | In every run, with any packets, blocked attempts, timeouts and resets, the sequence number of a message in flight and of every datagram sent is that of its slot and attempt |
| `Stale.StaleReplies` | `src/driver/device.cpp:488-508` | In every such run a packet with the header of a datagram sent earlier is accepted for the message in slot i if and only if the datagram was sent from slot i, a message is in flight there, and their attempts differ by a multiple of 2^24 |
| `EndToEnd.YoungIsCurrent` | `src/driver/device.cpp:488-508` | A reply younger than 2^24 attempts is accepted only for its own message |
| `EndToEndSteps.PacketsStep` | `src/driver/device.cpp:1010-1016` | Processing young replies of the device keeps the end-to-end invariant |
| `EndToEndSends.HandleSendStep` | `src/driver/device.cpp:375-474` | Sending keeps it, each datagram becoming a request |
| `EndToEndQueue.QueueStep` | `src/driver/device.cpp:136-194` | Requests keep it, also those that merge into a half-sent operation |
| `EndToEndQueue.StoreStep` | `src/driver/devreg.cpp:96-123` | So does a change of the send cache at any time |
| `EndToEndDevice.ExecuteStep` | `src/sim/simulator.cpp:218-275` | So does the device executing a request once, any time before its reply |
| `EndToEndDevice.DriftStep` | `src/sim/simulator.cpp:226-275` | So does a word changing by itself that no record can write |
| `NetRuns.FirstStarts` | `src/driver/device.cpp:222-272` | A constructed driver with any device satisfies the start of an end-to-end run |
| `NetRuns.ResetStarts` | `src/driver/device.cpp:291-373` | So does every clean reset that a step of the driver leads to, with the replies of the stretch before it still under way: stretches without a reset compose |
| `NetRuns.AnyMapConnects` | `src/driver/device.cpp:715-743` | Connecting is a step of such a run for every register map, also one whose registers overlap each other or the bootstrap registers |
| `NetRuns.NetRunInv` | `src/driver/device.cpp:858-1031` | The end-to-end invariant holds throughout every run without a reset, replies lost, delayed, repeated and reordered at will |
| `NetTheorems.SyncedMeans` | `src/driver/devreg.cpp:113-123` | What counts as committed: the contents of the send cache have gone to an accepted write request since they last changed |
| `NetTheorems.LastWriteWins` | `src/driver/device.cpp:168-192` | Once committed, and with no write queued or in progress, the device words equal the send cache cut to the storage width, however requests interleave with writes half sent; for a register that shares no address with another writable one |
| `NetTheorems.SharedWord` | `src/driver/device.cpp:168-192` | For registers that share a word both cannot hold, so that condition cannot be dropped |
| `NetTheorems.ReadBack` | `src/driver/device.cpp:570-583` | A read that completes after that, on such a register, returns exactly those contents |
| `NetTheorems.ReadsAreFresh` | `src/driver/device.cpp:532-549` | When a read completes, every word of the receive cache was held by the device at some time since before its first request, on every register map |
| `NetTheorems.QueuedReadWaits` | `src/driver/device.cpp:570-583` | An action waiting for a read behind a write goes on only in a step where no write waits, with a read whose first request is sent at or after that step, when the device holds what was committed to such a register |
| `Peer.ExecStores` | `src/sim/simulator.cpp:243-272` | A word one pair of the request writes holds its data afterwards, cut to the width |
| `Peer.ExecReads` | `src/sim/simulator.cpp:246-257` | A read of a word the request does not write returns the stored word |
| `Peer.ExecReadsThen` | `src/sim/simulator.cpp:218-275` | Whatever else the request writes, a read returns the word the device holds when its turn comes |
| `Peer.ExecKeeps` | `src/sim/simulator.cpp:218-275` | A word no pair writes is kept |
| `Peer.ExecEchoes` | `src/sim/simulator.cpp:218-275` | Commands and header are echoed |
| `Simulator.SimReg.Write` | `src/sim/simulator.cpp:292-295` | Stores the masked value and nothing else |
| `Simulator.Simulator.Add` | `src/sim/simulator.cpp:104-121` | Indexes every address of a new register, taking over overlapped ones; a duplicate name changes nothing |
| `Simulator.Simulator.Exec` | `src/sim/simulator.cpp:198-281` | The request loop over the packet buffer in place equals Exec, memory and words; it replies exactly if the request has 32 bytes or more and none of its operations addresses the register named ghost, and a shorter one changes nothing |
| `Barrier.SyncInfo.ReadSync` | `src/driver/devmain.cpp:360-395` | The record method equals Processed and registers with the queued registers exactly then |
| `Barrier.SyncInfo.Complete` | `src/driver/devmain.cpp:327-352` | The record method equals Counted |
| `Barrier.BarrierRegisters` | `src/driver/devmain.cpp:362-384` | A record that registers with n queued registers is owed n completions and suspends if n is positive |
| `Barrier.BarrierResumes` | `src/driver/devmain.cpp:327-352` | An owed completion never reaches the complaint; the last one and only that one resumes the record, when no register and no list holds it any more |
| `Barrier.BarrierPasses` | `src/driver/devmain.cpp:386-395` | Outside a connection the record passes at once and waits for nothing |
| `Barrier.ErrorsAreSweeps` | `src/driver/device.cpp:900-913` | The complaint "too many completes" is made once by each sweep of the worker if the link of the record has a register name, and never otherwise; at most one sweep for every reset |
| `Barrier.TooManyCompletes` | `src/driver/device.cpp:900-913` | A three-step run that reaches it, for every record with a register name |
| `Barrier.ComplainsExactly` | `src/driver/device.cpp:900-913` | A sync record can reach the complaint if and only if its link has a register name |
| `Barrier.SyncWaitsFor` | `src/driver/devmain.cpp:366-380` | The record waits for a register exactly if words of its operation are still unsent |
| `Barrier.SyncCovers` | `src/driver/devmain.cpp:366-380` | It waits for every operation in progress if and only if none of them has been sent completely |
| `Barrier.SentNotWaitedFor` | `src/driver/devmain.cpp:366-380` | A connected driver with an operation sent and unanswered, which the record does not wait for |
| `Records.Scatter` | `src/driver/devreg.cpp:100-118` | The strided loop into the send cache equals Scattered |
| `Records.WriteRegister` | `src/driver/devreg.cpp:68-145` | Refuses without association, write access or room; otherwise copies, requests a write with commit, and suspends exactly if it waits in an active connection; the second call only resumes |
| `Records.WriteIsSteps` | `src/driver/devreg.cpp:96-133` | A committed record write is a Store followed by a write Request of the worker machine |
| `Records.CopyOut` | `src/driver/devreg.cpp:232-257` | The strided loop into the record buffer returns exactly the elements in reach and leaves the rest of the buffer alone |
| `Records.ReadRegister` | `src/driver/devreg.cpp:178-292` | Copies from the cache or requests a read, under exactly the conditions of the source, refusals included |
| `Records.ExtendedValue` | `src/driver/devreg.cpp:224-236` | Sign extension yields the two's complement value of a word of the register width |
| `Records.WritesAt` | `src/driver/devreg.cpp:100-118` | Element j goes to the word at offset + j * step as far as there is one; every other word of the send cache stays |
| `Records.ReadsNumbers` | `src/driver/devreg.cpp:203-257` | Element j comes from offset + j * step of the receive cache, with rbv of the send cache, and is the value of the record's width congruent to the two's complement or unsigned number in that word |
| `Records.ReadsAll` | `src/driver/devreg.cpp:203-257` | As many elements are read as were asked for, or as there are |
| `Records.ElementValue` | `src/driver/devreg.cpp:224-248` | A record at least as wide as the register reads exactly the number in it, negative ones included |
| `Records.ElementRoundTrip` | `src/driver/devreg.cpp:103-257` | An element written reads back unchanged if and only if the register is unsigned or all its bits from the sign bit up agree |
| `Records.ReadsBackWritten` | `src/driver/devreg.cpp:100-262` | A readback record with the same link returns what was written, element by element |
| `Strides.ScatteredAt` | `src/driver/devreg.cpp:100-118` | Every position gets the element that lands on it and keeps its own word otherwise |
| `Strides.GatheredAt` | `src/driver/devreg.cpp:232-257` | How many elements are copied, and from where |
| `Strides.Siblings` | `src/driver/devreg.cpp:100-118` | Copies with the same step and offsets that differ modulo it do not disturb each other |
| `Rom.RomRoundTrip` | `src/util/rom.cpp:39-208` | The words prepare writes parse to the same types in order with normalised values; with the rest of the buffer they do so if and only if the word behind them stops the parser, because no end word is written |
| `RomLayout.ImageLayout` | `src/util/rom.cpp:135-208` | Every descriptor stands at its place in the image: type in the two high bits of the header, length in words in the other fourteen, then its bytes two a word, the first one high |
| `RomLayout.HighBytesFirst` | `src/util/rom.cpp:135-208` | In the byte form every word has its highest byte first |
| `RomLayout.DigitsHigh` | `src/util/rom.cpp:155-166` | Two digits make a byte, the first one high |
| `Rom.HexRoundTrip` | `src/util/rom.cpp:94-166` | BigInt digits come back lower-cased and padded with zeros on the right to a multiple of four |
| `Rom.TextUnchanged` | `src/util/rom.cpp:90-154` | Text comes back unchanged exactly if it has no NUL |
| `Rom.Reprinted` | `src/util/rom.cpp:39-208` | A parsed image of Text and BigInt descriptors is printed again in no more words than they occupied, and parses to the same list |
| `Rom.SameImage` | `src/util/rom.cpp:126-133` | The word form for a little-endian host and the byte form hold the same image |
| `Rom.ROM.Parse` | `src/util/rom.cpp:39-124` | The parser over bytes in either order yields Parsed; on an error the descriptors are unchanged |
| `Rom.ROM.Prepare` | `src/util/rom.cpp:135-208` | The printer fills the buffer with exactly the image, leaves the rest, and fails for exactly the reasons of Image |
| `Rom.ROM.PrepareWords` | `src/util/rom.cpp:126-133` | The word form: the image in host order, and every word behind it byte-swapped |
| `Rom.ROM.FromHex` | `src/util/rom.cpp:155-166` | The loop over digits equals HexBytes |
| `Tgen.Assemble` | `src/python/leep/base.py:256-337` | The compiler with its loops equals Assembled, errors included |
| `Tgen.AssemblerPreserves` | `src/python/leep/base.py:249-337` | The meaning of a program is given by base + offset and 2^scale of the register map. Running the output takes as long as the program up to its first write to address zero, and leaves the same memory at every moment; that is the whole program exactly if no target address is zero |
| `Tgen.PreservedExactly` | `src/python/leep/base.py:249-337` | The output means what the program means if and only if no instruction writes to address zero |
| `Tgen.ZeroTargetStops` | `src/python/leep/base.py:249-334` | A program with a write to address zero whose meaning is not preserved |
| `TgenProgram.AcceptedExactly` | `src/python/leep/base.py:256-337` | A program is accepted if and only if every set names a register and an offset within it, every sleep is not negative by a tick or more and follows a set with only sleeps of no tick between, there is no other instruction, and the words leave room for a stop |
| `TgenProgram.SetEmits` | `src/python/leep/base.py:262-290` | Every set of an accepted program, dead ones too, is an instruction of the output with address base + offset and the two halves of the value; the delays in front of it add up to what the program sleeps before it |
| `TgenProgram.CodeSleeps` | `src/python/leep/base.py:292-320` | The delays of the whole code add up to what the program sleeps, in ticks of 2^scale |
| `Tgen.SplitMeaning` | `src/python/leep/base.py:307-320` | A delay of any length takes exactly that long and repeats the same write |
| `Tgen.SplitCount` | `src/python/leep/base.py:307-320` | It takes ceil(delay / 0xffff) instructions, each delaying 1 to 0xffff |
| `Tgen.AssembledSize` | `src/python/leep/base.py:328-337` | The output fills the memory of the sequencer exactly and ends in a stop |
| `Ranks.CountBits` | `src/rf/asub.c:82-93` | Counts the set bits |
| `Ranks.NsetBits` | `src/rf/asub.c:183-204` | The number of set bits below a set bit, or -1 |
| `Ranks.Reverse` | `src/rf/asub.c:223-234` | The loop is a true reversal of n bits for every mask of n bits |
| `Ranks.NsetBitsRev` | `src/rf/asub.c:214-249` | The place of the channel among the kept ones, highest bit first, or -1 |
| `Ranks.SplitBits` | `src/rf/asub.c:120-163` | Every typed output gets the place of its channel or -1, the count is theirs, other outputs are untouched |
| `Ranks.SplitAgrees` | `src/rf/asub.c:146-158` | It is the same place as sub_feed_nset_bits_rev gives if and only if no kept channel before it has an output of another type |
| `Ranks.KeptAt` | `src/rf/asub.c:183-204` | The rank of a kept channel is its place in the list of kept channels |
| `Demux.FillHires` | `src/sim/simulator_hires.cpp:79-115` | The loops leave the buffer interleaved, lowest bit first, or untouched for an empty selection |
| `Demux.FillRfs` | `src/sim/simulator_rfs.cpp:64-100` | The loops leave the buffer interleaved, highest bit first, or untouched for an empty mask |
| `Demux.DemuxInverts` | `src/driver/devreg.cpp:203-262` | Copying with offset rank and step count returns exactly the samples of the channel |
| `Demux.SlicesPartition` | `src/sim/simulator_hires.cpp:90-111` | Every position of the buffer belongs to one sample of exactly one kept channel |
| `Demux.GetChannels` | `src/python/leep/raw.py:367-397` | Refuses channels not kept; otherwise returns the slice of every channel asked for, in the order asked |
| `Demux.ChannelsAreSamples` | `src/python/leep/raw.py:375-397` | For a mask of nch bits these are the samples of the channel, as many as there are complete rounds |
| `Exchange.ExchangeOne` | `src/python/leep/raw.py:439-488` | Pads to three operations, builds the message, and takes the first reply with its length, nonce and commands |
| `Exchange.ExchangeAll` | `src/python/leep/raw.py:490-508` | The chunk loop equals ListOutcome |
| `Exchange.OneMessage` | `src/python/leep/raw.py:439-488` | An answered message returns what its operations mean one at a time, and changes the device as they do, padding left out |
| `Exchange.ReplyAccepted` | `src/python/leep/raw.py:463-484` | The reply of the device is accepted and fits the 1024 bytes of the receive call |
| `Exchange.ReplyReturns` | `src/python/leep/raw.py:463-488` | A message of at most 127 operations whose reply arrives, behind whatever else, returns what its operations mean |
| `Exchange.ExchangeReturns` | `src/python/leep/raw.py:490-508` | When the reply to every message arrives the list operation returns what its operations mean |
| `Exchange.ExchangeMeans` | `src/python/leep/raw.py:490-508` | However the list is cut and padded, a result is that of the operations done one at a time in order |
| `Chain.BatchBy` | `src/python/leep/logic.py:58-66` | The generator equals Batches |
| `Chain.BatchesJoin` | `src/python/leep/logic.py:58-66` | Batches are not empty, not longer than asked, and joined give the list back |
| `Chain.Main.SignalGroup` | `src/python/leep/logic.py:135-256` | The records emitted and the NEXT of the trigger are those of Output |
| `Chain.ChainVisitsAll` | `src/python/leep/logic.py:145-256` | With distinct names, processing from NEXT visits every readback in reverse order, every signal and pair once in order of declaration through fanouts of at most six, and then re-arms |
| `Chain.ChainVisitsEach` | `src/python/leep/logic.py:145-256` | Place by place: the readbacks from the last one back, then for every readback in order its signals and then its pairs, and at the end the record that arms again |

## Left out

- Sockets, polling, pipes, threads, clocks and the lock itself: they are steps and choices of the environment.
- Counters, round-trip times, debug output, alarm status and severity, receive time stamps, scan requests and the `interested` lists: no decision of the modelled code depends on them.
- `connected()`, the driver's own JSON blob and the record database: only that the callbacks return or throw is modelled.
- Partial failure inside `handle_inspect` before its callbacks: the catch block resets what it has built.
- `want_to_send` is set but not cleared by POLLOUT: it only affects the flags given to `poll()`.
- A reset hands over actions in table order, not in the order of register names; actions are counted, not ordered.
- Vectors of a register or message are sequence-valued fields replaced as a whole, and pointers to registers are indices into the register table: aliasing between registers and messages is not modelled.
- Bytes behind the last whole word of a packet: packets are sequences of words.
- The sweep of `run` over the records with a register name is modelled for sync records only (`Barrier`); other records ignore it unless they are suspended.
- Unlocked access in `read_sync`: it is one atomic step.
- `devwatch.cpp`, `devsignal.cpp`, `devutil.cpp` and `devhack.cpp`: retries of watched registers, signal strings, and glue over the record database.
- EndToEnd: does not cover requests of an earlier connection that the device executes after a reset, because the code has no means to prevent it.
- Tgen.Assemble: takes register names already split into name and offset and expanded, and a delay exact where Python divides in floating point.
- Rom.ROM.PrepareWords: does not say what a failing call leaves in the buffer.
- Rom.ROM.Prepare: does not say what a failing call leaves in the buffer.
- Records.WriteRegister: does not model floating-point element types and the scale; elements are 8, 16 or 32 bits wide.
- Records.ReadRegister: does not model floating-point element types, the scale, and the copy of the alarm state.
- Demux.FillHires: takes the samples as given, because the waveforms are floating point, and leaves out the reset and status bits.
- Demux.FillRfs: takes the samples as given, and leaves out the slow data.
- Demux.GetChannels: does not scale the samples, and takes the register contents as read.
- Exchange.ExchangeOne: gives up when its inbox is exhausted, as the source does on a timeout; the random nonce is a parameter.
- Chain.Main.SignalGroup: covers names and links; the other fields of the templates are given data.
- The functions on floating-point numbers, the FFT code, the command line clients and the display files.
