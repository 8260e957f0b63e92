# PiDaemon, verified

PiDaemon supervises the payload processes of a small satellite. One daemon runs a message
bus over local sockets, keeps the satellite state on disk, and starts, restarts and stops
the payload processes; a network process carries their traffic over a serial link. This
project models the parts that have to be right on every run, and proves that they are.

## How it is built

Each stateful part comes in two layers.

* A *plain definition* over values: a byte queue instead of a compacting, growing buffer; a
  one-shot parse instead of an incremental one; a set of chunk numbers instead of counters
  and flag arrays; a list of directory states instead of system calls. The theorems about
  whole runs are proved here, by induction over the run.
* The *code in its own form*: classes with the C structures' fields and buffers, updated in
  place by methods with the C functions' branches and loops. Every method is proved to do
  exactly what the plain definition says, so the theorems hold of it.

The outside world is never assumed to be kind. What a system call is going to answer
(how many bytes `send` takes, whether `fork` works, when the power fails) is a list fixed in
advance, and every statement is for all such lists. When a list runs out the call has a
default answer (`recv` and `send` would block, `fork` fails, `realloc` succeeds, `read` and
`write` do the rest), so every finite run is covered. The assumptions left are: `fork` returns a pid no unreaped
child has, a blocking `waitpid` after SIGKILL succeeds, `rename` is one directory change, and
a file that was synced survives a power failure.

| files | part of the system |
|---|---|
| `Bytes`, `Counting` | integers and their byte images; counting finite sets |
| `Framing`, `Names`, `Ipc`, `Client` | the bus wire format and the client library |
| `Transmit`, `TransmitExact`, `Receive`, `ReceiveExact`, `Bus`, `BusProofs` | the bus server as values, and its invariant |
| `BusTurns` | what a connection's turn does: read, end, send, close |
| `BusLog`, `BusRoutes`, `BusRuns`, `BusGap` | what its records say after any run: state, routing, gaps |
| `Connection`, `BusServer` | the bus server's connection table and buffers |
| `BulkFormat`, `BulkSend`, `BulkEntries`, `BulkReceive`, `BulkRx` | splitting and reassembling bulk transfers |
| `Supervision`, `SupervisionProofs`, `SupervisionPace`, `SupervisionStop`, `SupervisionLife`, `Supervisor` | process supervision |
| `Fnv`, `Record`, `Disk`, `StateStore` | the persistent state store |
| `Persistence` | the bus server and the store together |
| `Crc`, `CrcDivision`, `Bridge` | the link checksum and the way of a message to the link |

Structures are laid out as on the target: little-endian, `daemon_hdr_t` 8 bytes (2 of
padding, sent as zeros and never read), `satellite_state_t` 16, `sat_state_record_t` 32 (4 of
padding, arbitrary). The satellite state is its 16-byte memory image.

## Where the code does not do what one would expect

Each of these is stated as a theorem, named here; most give the exact condition.

* A client marked for closing, with an empty buffer, is still sent to until its turn comes: the
  next message goes straight out, past the one it owes. An `EINTR` from the direct `send`,
  which the code treats as fatal, is enough. Two turns of a new server lead there, for any
  names and messages (`BusGap.GapHappens`), and so do two requests in any state with such a
  socket (`BusGap.TwoRequestsGap`). Without `EINTR` and errors from `send` it never happens,
  on no run and to no connection (`BusRuns.GentleNeverGaps`), nor after a backlog overflow
  (`BusProofs.StuckWireIsFinal`). Which transmit sides are safe under arbitrary use is
  `Transmit.GapExactly`.
* `daemon_client_send` takes 4096 bytes, the server's bound leaves room for 4064; the
  server finds a longer one oversized and closes the connection (`Client.ServerTakes`).
  `proto.h` has the right figure.
* The 32-bit chunk count wraps for transfers within one chunk of 4 GiB. The application and
  the uploader then send just the first chunk, the network side sends nothing, and none of them
  reports an error (`BulkSend.SplitExact`, `BulkSend.Upload`, `BulkSend.SendVideo`).
* A reassembly counts chunks from outside the transfer and can complete without its own
  (`BulkReceive.CompletionExact`, `BulkReceive.StrayCompletes`).
* `sat_state_init` replaces a good record by the defaults when reading it fails for a moment
  (`StateStore.Store.Init`, `StateStore.Reboot`); `state.h` mentions only missing and invalid files.
* `pm_shutdown_all` leaves `shutting_down` set, so a process started afterwards is killed at
  the next tick past the old deadline, unless that shutdown had already come to its SIGKILL
  (`SupervisionStop.StopAllExact`, `SupervisionStop.LeftoverMarkKills`,
  `SupervisionStop.LeftoverRun`).
* `ipc.h` calls a connection desynchronized after a message too long for the buffer; the code
  drains exactly that message, and the next one is read correctly (`Ipc.ReadBack`).

## Model

| member | source | states |
|---|---|---|
| `BusProofs.OutputIsFifo` | Daemon/src/ipc_server.c:168-261 | in every reachable server state, on every connection not marked for closing: bytes on the wire followed by the pending bytes are exactly the frames queued since accept, in order; the backlog is bounded; the peer reads a prefix of the queued messages |
| `BusProofs.InputIsParsed` | Daemon/src/ipc_server.c:413-454 | in every reachable state what was received and what is still to come are all the peer sends; the messages dispatched are a prefix of the one-shot parse of all bytes received, however `recv` cut them up; on an unmarked connection they are all of it, the buffer is the unparsed tail, and a full buffer is never taken for end of file |
| `BusProofs.NamesAreUnique` | Daemon/src/ipc_server.c:280-294 | in every reachable state registered names are non-empty and pairwise distinct |
| `BusProofs.ReachableOk` | Daemon/src/main.c:243-275 | any number of collect, poll, service turns keeps the whole server invariant, and a connection that stays keeps its slot, its descriptor and, once registered, its name |
| `BusProofs.PassServes` | Daemon/src/ipc_server.c:393-464 | in one turn the connections that get a turn are exactly those present at the start, each once and in order, although others are accepted in between; the recycled-slot guard never fires |
| `BusProofs.PassClosesDoomed` | Daemon/src/ipc_server.c:456-462 | no connection marked for closing at the start of a pass survives it; if bytes were waiting, it is closed with exactly what was on its wire, whoever sends to it in between |
| `BusProofs.StuckWireIsFinal` | Daemon/src/ipc_server.c:258-260 | over all runs: a connection marked for closing with bytes waiting, as after a backlog overflow, ends with exactly what was on its wire, whatever turns follow |
| `BusTurns.PassAttends` | Daemon/src/ipc_server.c:393-464 | a whole pass, for every connection present and unmarked: a hangup closes it, and so does an end of file or error behind what there is to read; if it stays, everything there was to read has been read, as far as there was room |
| `BusTurns.TurnReads` | Daemon/src/ipc_server.c:413-434 | a readable turn reads all that is available up to the 4104-byte buffer, and closes the connection on an end or error found on the way |
| `BusTurns.TurnSends` | Daemon/src/ipc_server.c:456-462 | a turn with nothing to read sends exactly as many waiting bytes as the socket takes before it blocks, and closes exactly if the socket fails while some wait |
| `BusTurns.TurnHangsUp` | Daemon/src/ipc_server.c:409-411 | a turn with a hangup closes, and reads and sends nothing |
| `BusTurns.FinishExact` | Daemon/src/ipc_server.c:456-462 | the end of every turn: what waits goes out as far as the socket takes it; closed exactly if marked or failing |
| `BusTurns.HandleKeepsOpen` | Daemon/src/ipc_server.c:263-359 | no message dispatched for anyone closes a connection whose socket does not fail and whose backlog has room, except its own failing to register |
| `BusTurns.TurnKeepsOpen` | Daemon/src/ipc_server.c:456-462 | nor does its own turn with nothing to read |
| `BusTurns.AllAreAdmitted` | Daemon/src/ipc_server.c:361-391 | everyone who connects is let in, in order, as long as there are slots |
| `BusRuns.StateIsLastWrite` | Daemon/src/ipc_server.c:300-316 | in every reachable state the satellite state is that of the last well-formed STATE_SET dispatched for a registered client, or the initial one; the store was called with exactly these writes in order; the messages dispatched are, for each connection open or closed, exactly those it handed in |
| `BusRuns.EveryMessageIsAnswered` | Daemon/src/ipc_server.c:263-359 | in every reachable state every message dispatched has had exactly one answer, the n-th message the n-th: a SEND relayed under the sender's true name with its bytes unchanged, the state as of then for a read or write, a pong, a confirmation or an error to the sender |
| `BusRuns.OutputIsRouted` | Daemon/src/ipc_server.c:318-347 | in every reachable state what was queued for a connection, open or closed, is exactly the answers meant for it, in order; each DELIVER comes from one SEND to its own name |
| `BusRuns.GentleNeverGaps` | Daemon/src/ipc_server.c:212-261 | in every reachable state every connection, open or closed, whose `send` never answers EINTR or an error and whose memory suffices, has sent its peer a prefix of what was queued |
| `BusRuns.ClosedForGood` | Daemon/src/ipc_server.c:151-156 | in every reachable state no connection has been closed twice or is in use after being closed; nothing its peer sent was lost, and its messages are a prefix of the one-shot parse |
| `BusGap.GapHappens` | Daemon/src/ipc_server.c:240-257 | a run of the server from its start, for any names and any two messages of one length, that leaves a gap: the first is lost to EINTR, the second sent |
| `BusGap.TwoRequestsGap` | Daemon/src/ipc_server.c:318-347 | in any state of the server two requests to a client with such a socket leave a gap |
| `BusProofs.ServiceAllServes` | Daemon/src/ipc_server.c:398-463 | the client loop over any collected entries: invariant kept, unlisted connections where they were, the connections that get a turn are those listed, once each and in order |
| `BusProofs.SendRoutes` | Daemon/src/ipc_server.c:318-347 | a SEND reaches exactly the one holder of the destination name, with the true sender's name and unchanged bytes; without a holder only the sender hears, an error |
| `BusProofs.UnregisteredIsIsolated` | Daemon/src/ipc_server.c:265-298 | before registration nothing else changes; a connection becomes registered, under the name asked for, if and only if that name is non-empty and free, and is closed otherwise |
| `BusProofs.StateIsRegister` | Daemon/src/ipc_server.c:300-316 | the shared state is a register: reads return it, well-formed writes replace it, are confirmed and go to the store, nothing else changes it |
| `BusProofs.HandleLeaves` | Daemon/src/ipc_server.c:263-359 | every message of every type keeps the server invariant |
| `Transmit.RunKeepsFifo` | Daemon/src/ipc_server.c:212-261 | any run of queueing and flushing against any socket keeps the FIFO of exactly the queued messages |
| `TransmitExact.QueueBehind` | Daemon/src/ipc_server.c:258-260 | a message queued while bytes wait joins them unless 256 KiB would be exceeded or memory is missing; only then is the connection given up |
| `TransmitExact.QueueDirect` | Daemon/src/ipc_server.c:240-257 | with nothing waiting the socket gets what it takes and the rest waits; a failing socket gives the connection up with nothing sent |
| `TransmitExact.FlushExact` | Daemon/src/ipc_server.c:212-229 | exactly as many waiting bytes go out as the socket takes, in order; given up exactly if it fails while some wait |
| `TransmitExact.RunStaysOpen` | Daemon/src/ipc_server.c:168-261 | a connection whose socket does not fail and whose backlog stays within 256 KiB is never given up by any queueing and flushing, and loses nothing |
| `TransmitExact.CapacityFits` | Daemon/src/ipc_server.c:194-205 | memory is given back: the buffer is at most four times what waits in it, or 4 KiB |
| `Transmit.OverflowFreezesWire` | Daemon/src/ipc_server.c:258-260 | after an append refused while bytes wait, the wire never grows again and stays a prefix of the queued stream |
| `Transmit.GapExactly` | Daemon/src/ipc_server.c:168-261 | of one transmit side under arbitrary use: whatever the socket answers and is queued from here on, the wire stays a prefix of the queued stream if and only if it is one now and the connection is marked for closing with bytes waiting |
| `Transmit.WireParses` | Daemon/src/ipc_server.c:231-261 | wherever the wire stops, its peer parses whole messages in queue order |
| `Transmit.FitFromCap` | Daemon/src/ipc_server.c:182-205 | growing from any legal capacity and shrinking from scratch reach the same capacity, a power-of-two number of 4 KiB pages and at most 256 KiB; shrinking never grows the buffer |
| `Connection.Conn.AppendTx` | Daemon/src/ipc_server.c:168-210 | compaction, growth and shrinking refine a byte queue: on success pending bytes plus data, on failure pending bytes unchanged, capacity as specified |
| `Connection.Conn.FlushTx` | Daemon/src/ipc_server.c:212-229 | sends from the front of the queue until the socket would block or fails |
| `Connection.Conn.QueueSend` | Daemon/src/ipc_server.c:231-261 | queues one frame: direct send of a prefix when nothing waits, the rest appended |
| `Connection.Conn.ReadSocket` | Daemon/src/ipc_server.c:414-434 | the `recv` loop into the fixed buffer does what the specification of receiving says |
| `Connection.Conn.DropFirst` | Daemon/src/ipc_server.c:451-452 | moving the buffer down removes exactly the dispatched frame |
| `Receive.ReceiveInStep` | Daemon/src/ipc_server.c:414-434 | receiving keeps buffer plus dispatched messages equal to the one-shot parse |
| `Receive.ReceiveConserves` | Daemon/src/ipc_server.c:414-434 | receiving neither loses nor invents nor reorders a byte |
| `ReceiveExact.ReceivesUp` | Daemon/src/ipc_server.c:414-434 | the loop reads exactly the bytes available before a block, an end or an error, up to the buffer's room; it ends the connection exactly if an end or error comes before the buffer is full |
| `Receive.NoFalseEnd` | Daemon/src/ipc_server.c:415-429 | with room in the buffer, the connection is ended only if the socket reported an end or an error |
| `BusServer.IpcServer.HandleMessage` | Daemon/src/ipc_server.c:263-359 | dispatch on the table in place equals the specified server transition, the call of the store on STATE_SET included |
| `BusServer.IpcServer.DrainSlot` | Daemon/src/ipc_server.c:436-453 | the parse loop equals the specified one |
| `BusServer.IpcServer.AcceptNew` | Daemon/src/ipc_server.c:361-391 | accepted connections take the first free slots, and are turned away when there is none |
| `BusServer.IpcServer.CollectPollfds` | Daemon/src/ipc_server.c:122-149 | listener first, then one entry per live connection in slot order as far as there is room, its slot noted, polled for output exactly when some waits |
| `BusServer.IpcServer.ServicePass` | Daemon/src/ipc_server.c:393-464 | a whole service pass equals the specified one |
| `BusServer.IpcServer.Turn` | Daemon/src/main.c:243-275 | collect, poll and service together equal one specified turn |
| `BusServer.IpcServer.constructor` | Daemon/src/ipc_server.c:92-104 | the new server is the empty one |
| `Framing.ParseResumes` | Daemon/src/ipc_server.c:436-453 | parsing a stream in two parts gives the parse of the whole |
| `Framing.ParseStream` | Daemon/src/ipc_server.c:231-238 | framed messages are parsed back, followed by the parse of whatever comes next |
| `Framing.FrameLayout` | Daemon/src/ipc_server.c:231-238 | a frame byte for byte: length and type in host order, padding, payload |
| `Names.NameRoundTrip` | Daemon/src/ipc_server.c:274-294 | a name field carries any name across, whatever follows it |
| `Names.NameInExact` | Daemon/src/ipc_server.c:274-279 | the name is what stands before the first NUL, at most 31 bytes |
| `Ipc.ReadBack` | Daemon/src/ipc.c:54-83 | a stream of frames is read back message by message; one too long for the buffer costs exactly itself |
| `Ipc.TornEnds` | Daemon/src/ipc.c:54-83 | a frame cut off anywhere is the end of the stream, or refused if its length alone is too much |
| `Ipc.Converse` | Daemon/src/ipc.c:9-83 | any messages sent are received as themselves, or reported too long for the buffer, under any short reads, short writes and EINTR |
| `Ipc.Writer.WriteAll` | Daemon/src/ipc.c:9-24 | all bytes and 0, or a proper prefix and an error; 0 whenever the socket does not fail |
| `Ipc.Writer.Send` | Daemon/src/ipc.c:42-52 | the whole frame and 0, or a torn one and -1 |
| `Ipc.Reader.ReadAll` | Daemon/src/ipc.c:26-40 | exactly the next bytes of the stream, or -2 at its end, or -1 on error |
| `Ipc.Reader.Drain` | Daemon/src/ipc.c:61-72 | exactly the announced number of bytes is dropped |
| `Ipc.Reader.Recv` | Daemon/src/ipc.c:54-83 | the outcome and the rest of the stream are the specified ones |
| `Client.ServerTakes` | Daemon/src/client.c:106-121 | the server takes the relayed message exactly if it has at most 4064 bytes, and otherwise finds it oversized |
| `Client.InterpretExact` | Daemon/src/client.c:132-162 | which messages are deliveries, which fit the caller's buffer and which do not |
| `Client.TruncatedExact` | Daemon/src/client.c:106-121 | of a destination at most 31 bytes go out, and all if there are no more |
| `Client.ClientSend` | Daemon/src/client.c:106-121 | refuses more than 4096 bytes, otherwise writes the relay request's frame |
| `Client.ClientRecv` | Daemon/src/client.c:123-162 | the next frame, interpreted: the sender field as it came and the bytes of a delivery, the payload and a zeroed sender for anything else, -1 for an end or a malformed delivery, -2 if it does not fit |
| `BulkFormat.ChunksMakeUp` | Daemon/src/payload_app.c:256-275 | the chunks make up the data, all but the last are full, none is too long |
| `BulkFormat.ChunkAt` | Daemon/src/payload_app.c:267-272 | where in the data each chunk lies |
| `BulkFormat.ChunkCount` | Daemon/src/payload_app.c:261-264 | the number of chunks is the rounded-up quotient, one for an empty transfer |
| `BulkFormat.WrapperRoundTrip` | Daemon/src/payload_app.c:244-254 | a wrapper is read back as its packet, whatever lies behind it in memory |
| `BulkFormat.WrapperLayout` | Daemon/src/payload_app.c:244-254 | the wrapper byte for byte, in network order |
| `BulkSend.CountExact` | Daemon/src/payload_app.c:261-264 | the 32-bit count is right if and only if its sum does not wrap, and zero otherwise |
| `BulkSend.SplitExact` | Daemon/src/payload_app.c:259-275 | what is sent makes up the data if and only if the count does not wrap |
| `BulkSend.SendBulk` | Daemon/src/payload_app.c:259-275 | emits exactly the specified packets |
| `BulkSend.Upload` | Daemon/src/video_uploader.c:107-157 | the streaming loop emits the same packets as the buffer splitter, a prefix of them on failure, and reports success exactly if no chunk fails |
| `BulkSend.SendVideo` | Network/src/main.c:372-389 | for every nonempty input whose count does not wrap, the same packets again, a prefix on failure, and success exactly if no packet fails; nothing otherwise |
| `BulkEntries.SplitCommutes` | Network/src/main.c:320-369 | packing record by record gives the very chunks of packing everything and splitting by bytes: no record straddles two chunks |
| `BulkEntries.SendersAgree` | Network/src/main.c:320-369 | record sender and byte sender put the same packets on the wire if the byte count does not wrap |
| `BulkEntries.SendEntries` | Network/src/main.c:320-369 | the nested loops emit the packed groups, a prefix of them if the link fails, and report success exactly if it does not |
| `BulkEntries.SendCalc` | Network/src/main.c:320-343 | calculation records: the packed groups, success exactly if no packet fails, and the same packets as `send_bulk` of their flattened bytes if the byte count does not wrap |
| `BulkEntries.SendFt` | Network/src/main.c:346-369 | force and torque records: the packed groups, success exactly if no packet fails, and the same packets as `send_bulk` of their flattened bytes if the byte count does not wrap |
| `BulkEntries.CalcFields` | Daemon/src/payload_app.c:226-232 | where each field of a packed calculation record is found |
| `BulkEntries.FtFields` | Daemon/src/payload_app.c:234-240 | where each field of a packed force and torque record is found |
| `BulkEntries.RecordsPerChunk` | Network/src/main.c:320-369 | a chunk holds as many records as fit: 13 and 15 |
| `BulkReceive.TransferArrives` | Daemon/src/payload_app.c:378-434 | the chunks of any data that fits in 64, in any order with any repetitions, at a receiver idle or on another transfer: replies exactly as expected, with exactly the original bytes |
| `BulkReceive.AnyOrder` | Daemon/src/payload_app.c:388-434 | the same from any point of a session on |
| `BulkReceive.AnnouncedOnce` | Daemon/src/payload_app.c:410-412 | the expected replies: one completion, at the first moment every chunk has been seen, none before |
| `BulkReceive.SessionGoesOn` | Daemon/src/payload_app.c:388-408 | a chunk of the transfer at hand: the session goes on as first announced, and what a chunk number brought first stays |
| `BulkReceive.RejectDrops` | Daemon/src/payload_app.c:396-401 | a chunk number, count or length out of range ends the session without a reply; the next chunk begins a new one |
| `BulkReceive.RuntIgnored` | Daemon/src/payload_app.c:379-401 | fewer than 14 bytes change nothing |
| `BulkReceive.CountMeansAll` | Daemon/src/payload_app.c:403-412 | counting distinct chunks tells that all have arrived if and only if none lies outside the transfer |
| `BulkReceive.CompletionExact` | Daemon/src/payload_app.c:396-412 | a session completes with all its chunks if and only if neither the chunk that completes it nor any counted before lies outside the transfer, or it was announced with none |
| `BulkReceive.StrayCompletes` | Daemon/src/payload_app.c:396-418 | a stray chunk does complete a one-chunk transfer, with stale bytes |
| `BulkReceive.FeedWrapper` | Daemon/src/payload_app.c:379-386 | a sender's wrapper is taken for its packet |
| `BulkRx.Receiver.HandleBulkChunk` | Daemon/src/payload_app.c:378-434 | flag array, lengths, data buffer and assembly loop do what the session specification says |
| `SupervisionProofs.SupervisorKeeps` | Daemon/src/process.c:32-178 | on every run: the unreaped children launched for a slot are exactly the one it has, if any, so none is lost or shared; since its last explicit start a process is launched once and then only for restarts scheduled; a shutdown under way has a child; a RESTART_NEVER process is launched at most once per explicit start plus once for registration; every SIGKILL was due to that very child, the launch and not just the pid that got SIGTERM |
| `SupervisionProofs.RunOk` | Daemon/src/process.c:11-178 | every run of add, start, tick, reap and stop keeps the invariant, SIGKILL only to the child, the very launch of it, that got SIGTERM, at or after its deadline, once per request |
| `SupervisionProofs.ReapOneOk` | Daemon/src/process.c:123-175 | a reaped child that was launched for a slot changes exactly that slot, any other child none |
| `SupervisionLife.ExitDecides` | Daemon/src/process.c:120-178 | what becomes of a process whose child ended: rescheduled, with half a second of backoff per attempt rounded up, exactly if its policy wants it and fewer than 5 restarts are in its 60-second window; otherwise given up; after a shutdown neither |
| `SupervisionLife.TickExact` | Daemon/src/process.c:90-109 | a tick for which `fork` works launches exactly the processes without child, wanted and due, and sends SIGKILL to exactly the overdue ones |
| `SupervisionLife.ExitIsFollowed` | Daemon/src/process.c:90-178 | after every run: an exit due for a restart is followed by a new child at the first tick 3 seconds later, any other by none |
| `SupervisionLife.AllAreReaped` | Daemon/src/process.c:120-178 | one call reaps all children that have ended and no other |
| `SupervisionLife.StartOneStarts` | Daemon/src/process.c:69-88 | an explicit start of a stopped process runs it, wanted and with all its restarts before it |
| `SupervisionLife.StartAllStarts` | Daemon/src/process.c:51-67 | starting all runs every process that did not |
| `SupervisionLife.AddedWaits` | Daemon/src/process.c:15-30 | a registered process waits for its first launch; there is room for 16 |
| `SupervisionLife.StopOneStops` | Daemon/src/process.c:237-263 | stopping a running process: SIGTERM at once, SIGKILL at the first tick past the time asked for in whole seconds, no launch before an explicit start |
| `SupervisionLife.StopOneIdle` | Daemon/src/process.c:237-263 | stopping one that does not run: no signal, and no launch before an explicit start |
| `SupervisionLife.NamedFirst` | Daemon/src/process.c:69-88 | names are looked up from the first slot on |
| `SupervisionPace.RestartsAreThrottled` | Daemon/src/process.c:105-175 | with a clock that does not go back, since the last explicit start: at most 5 scheduled restarts per window, at most 10 in any 60 seconds |
| `SupervisionPace.RestartsWait` | Daemon/src/process.c:90-109 | after every such run, whatever comes next: what launches a process without an explicit start is a tick, at a time when the backoff of the last exit has passed |
| `SupervisionPace.RunPaced` | Daemon/src/process.c:159-174 | the window bookkeeping behind it, on every run |
| `SupervisionStop.GivenUpIsFinal` | Daemon/src/process.c:105-107 | once given up on or stopped, no launch before an explicit start; with the child gone the slot does not change at all |
| `SupervisionStop.StopAllStops` | Daemon/src/process.c:180-235 | stopping everything ends with every slot at pid 0 and given up, and no child ever launched for a slot unreaped |
| `SupervisionStop.StopAllExact` | Daemon/src/process.c:180-235 | it keeps the invariant of all runs if and only if no single shutdown was under way |
| `SupervisionStop.StopAllSignals` | Daemon/src/process.c:180-235 | it sends SIGTERM to every child there is, then SIGKILL to exactly those not reported dead in time, and nothing to anyone else |
| `SupervisionStop.LeftoverMarkKills` | Daemon/src/process.c:95-103 | a process started after it gets no signal from a tick unless a single shutdown of its predecessor was under way without its SIGKILL and the old deadline has passed; then exactly a SIGKILL |
| `SupervisionStop.LeftoverRun` | Daemon/src/process.c:180-263 | the run to it: stop one, stop all, start again, tick; the SIGKILL goes to a child never asked to stop |
| `Supervisor.ProcessManager.Register` | Daemon/src/process.c:15-30 | adds a zeroed slot, refuses when the table is full |
| `Supervisor.ProcessManager.StartEvery` | Daemon/src/process.c:51-67 | the specified start of everything; returns the number of children gained |
| `Supervisor.ProcessManager.Start` | Daemon/src/process.c:69-88 | the specified start of one; 0 exactly if registered, not running and forked |
| `Supervisor.ProcessManager.TickAll` | Daemon/src/process.c:90-109 | the specified tick |
| `Supervisor.ProcessManager.FindByPid` | Daemon/src/process.c:111-118 | the first slot with the pid |
| `Supervisor.ProcessManager.ReapAll` | Daemon/src/process.c:120-178 | the specified reaping; returns the number of children lost |
| `Supervisor.ProcessManager.Stop` | Daemon/src/process.c:237-263 | the specified stop request |
| `Supervisor.ProcessManager.StopEvery` | Daemon/src/process.c:180-235 | the specified stop of everything, every call of `kill` included |
| `Fnv.Fnv1a` | Daemon/src/state.c:31-39 | the loop computes FNV-1a |
| `Fnv.HashIsFnv1a` | Daemon/src/state.c:31-39 | the hash is FNV-1a as published: basis 0x811C9DC5, then for each byte exclusive or first and multiplication by 0x01000193 modulo 2^32 second |
| `Fnv.PublishedValue` | Daemon/src/state.c:31-39 | its published value for the byte 0x61, 0xE40C292C |
| `Fnv.XorBit` | Daemon/src/state.c:35 | the exclusive or used, bit for bit |
| `Fnv.OneByteShows` | Daemon/src/state.c:31-39 | a change to exactly one byte always changes the hash |
| `Fnv.ScaleUndone` | Daemon/src/state.c:36 | multiplying by the FNV prime modulo 2^32 can be undone |
| `Record.ImageDecodes` | Daemon/src/state.c:219-223 | a stored record is read as the state stored |
| `Record.RecordLayout` | Daemon/src/state.c:15-25 | the record byte for byte: magic 0x53415453, version 1, state, FNV-1a hash, in host order |
| `Record.DecodeLength` | Daemon/src/state.c:56-72 | a file shorter than 32 bytes is no record; what lies behind a record does not matter |
| `Record.OneByteDetected` | Daemon/src/state.c:69-82 | a change to exactly one byte of a valid file is detected if and only if it is in the magic, version, data or checksum |
| `Disk.RunSafe` | Daemon/src/state.c:87-130 | every run of writes, failed writes and power failures, step by step, keeps every directory state that might be found after a power failure on a whole, synced record or on the file of the beginning, and forgets nothing made durable |
| `Disk.Recovery` | Daemon/src/state.c:87-130 | after any run cut off anywhere: a record written in full is found, none older than the last one whose directory sync took effect, or, if none did, possibly the file of the beginning, unchanged |
| `Disk.OnlyReplaceShows` | Daemon/src/state.c:112-115 | nothing but the rename changes what is at the state path |
| `StateStore.RebootFindsState` | Daemon/src/state.c:132-188 | the same for states: a reboot finds a valid state, stored whole and none older than the last durable one, or, with none durable yet, possibly what was there in the beginning |
| `StateStore.StoreInterrupted` | Daemon/src/state.c:87-233 | the same for a store at work: the power may fail between any two steps its operations have taken |
| `StateStore.Reboot` | Daemon/src/state.c:132-188 | power failure and boot together: `sat_state_init` returns that state if it could be read and is valid, and otherwise, if it succeeds, the defaults, which are then in the file |
| `StateStore.FirstBoot` | Daemon/src/state.c:132-188 | the same on a medium new to the system |
| `Persistence.ServeTurn` | Daemon/src/main.c:243-275 | one turn of bus server and store: the server's turn, and nothing written but the states it set |
| `Persistence.Serve` | Daemon/src/main.c:233-275 | the event loop: any turns of the server, and a store that has written only the defaults and states the server set |
| `Persistence.Start` | Daemon/src/main.c:212-241 | it can start after a boot, on the state returned |
| `Persistence.CrashFindsWritten` | Daemon/src/ipc_server.c:300-316 | after any run of the server and a power failure between any two steps of the store, the state found is one a registered client set, the defaults, or one held before the boot |
| `StateStore.Store.constructor` | Daemon/src/state.c:27-29 | a store starts on whatever writes and power failures have left, or on a medium as found |
| `StateStore.Store.WriteRecord` | Daemon/src/state.c:87-130 | 0 exactly if no step but the directory sync fails; then the record is in place, and durable if that sync works; otherwise the state file is unchanged; no temporary file is left behind if `unlink` works; its steps are steps of that machine |
| `StateStore.Store.ReadRecord` | Daemon/src/state.c:50-83 | the stored state exactly if the file can be read and is valid |
| `StateStore.ReadsThroughIf` | Daemon/src/state.c:56-66 | reading succeeds whenever no `read` fails, through short reads and EINTR |
| `StateStore.ReadsNotIf` | Daemon/src/state.c:56-66 | reading fails if the first `read` that is not interrupted does |
| `StateStore.WritesThroughIf` | Daemon/src/state.c:93-103 | writing succeeds whenever no `write` fails, through short writes and EINTR |
| `StateStore.WritesNotIf` | Daemon/src/state.c:93-103 | writing fails if a `write` does before any byte was taken |
| `StateStore.DefaultsAreZero` | Daemon/src/state.c:41-47 | the defaults are all zero |
| `StateStore.Store.Save` | Daemon/src/state.c:213-233 | 0 exactly if open, locked and written; then the stored state is the new one, durable if the directory sync works; otherwise the file is as it was |
| `StateStore.Store.Load` | Daemon/src/state.c:190-211 | 0 exactly if open, locked, readable and valid, with the stored state |
| `StateStore.Store.Init` | Daemon/src/state.c:132-188 | 0 exactly if locked and either a valid state was read or the defaults could be written; returns what the file then holds; a valid state other than the defaults is recovered if and only if it could be read |
| `Crc.BurstDetected` | Network/tools/obc_test.py:36-45 | different bodies of one length whose difference lies within 16 consecutive bits have different checksums |
| `Crc.SeventeenBitsMissed` | Network/tools/obc_test.py:36-45 | 16 is the limit: a 17-bit change by the polynomial is never noticed |
| `Crc.Crc16CcittFalse` | Network/tools/obc_test.py:36-45 | the nested loops compute the checksum |
| `CrcDivision.CrcIsRemainder` | Network/tools/obc_test.py:36-45 | the checksum is the remainder of the data bits, most significant first, behind sixteen ones, divided by x^16 + x^12 + x^5 + 1 |
| `CrcDivision.BitsWeigh` | Network/tools/obc_test.py:39 | the bits of a byte, most significant first |
| `Bridge.PayloadReachesLink` | Network/src/main.c:211-233 | a payload message is relayed to the bridge and nobody else, recognised as the sender's, handed to the link exactly if its id may go there, and read from the link body unchanged |
| `Bridge.NetFrameRoundTrip` | Daemon/src/payload_app.c:216-222 | the frame between application and bridge is read back as built |
| `Bridge.BodyRoundTrip` | Network/src/main.c:538-551 | the padded link body is read back as its id and data, never with padding |
| `Bridge.BodyLayout` | Network/src/main.c:181-206 | the body byte for byte in network order, padded to 7 bytes; one is read exactly if it has the data it announces |
| `Bridge.NetFrameLayout` | Daemon/src/payload_app.c:216-222 | the frame byte for byte in host order; one is read exactly if it has the data it announces |
| `Bridge.PackBody` | Network/src/main.c:181-196 | packs exactly that body within the link's bounds, or refuses |

## Left out

- PayloadLink and PayloadApids are not part of this model: the link is modelled up to the frame body, and the check of ids is an arbitrary predicate.
- Socket creation, signal handlers, the pidfile lock, paths and environment, directory creation, the serial port, logging and the process main loops around the modelled calls.
- The result of `sat_state_store` in the bus server: it only reaches the log.
- `daemon_client_connect`, `daemon_client_get_state` and `daemon_client_set_state`: a single request and reply each.
- The command, telemetry and response handlers of the payload application, its dummy data and its pacing: one branch each.
- `forward_to_app`, the bridge's other direction: it uses the same frame as the modelled one.
- Floating point: floats are 32-bit patterns, since packing only moves bits.
- SupervisionProofs.RunOk: for runs without `pm_shutdown_all`, which keeps the invariant exactly as `SupervisionStop.StopAllExact` says; the daemon calls it last.
- BulkRx.Receiver.HandleBulkChunk: the code takes the data length from the header without comparing it to the bytes received, so the readable memory must be as long as a largest packet, as its caller's buffer is.
- Persistence.ServeTurn: the store is called after the turn's dispatches instead of between them, in the same order; neither side sees the difference.
- BusServer.IpcServer.CollectPollfds: the slot map is a sequence that is reassigned, not an array.
- Connection.Conn.QueueSend: the frame is a value, not a stack buffer.
