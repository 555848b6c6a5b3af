# ps2link: a verified model

ps2link gives programs on a PlayStation 2 the file system `host:`, which lives on a PC.
The IOP processor sends fixed-layout request packets over TCP and takes exactly one typed
reply for each. On a second path the IOP takes commands by UDP and hands them, by DMA into
a one-slot mailbox, to the EE processor, which runs them. This project models both paths in
Dafny and proves what they keep over all inputs and all runs.

| module | what it models |
|---|---|
| `Bytes`, `ByteOrder` | memory words, network words, C strings, and `htonl`/`htons` |
| `HostLink` | the request packets, and an independent big-endian decoder for them |
| `Lwip` | what is relied on of the TCP calls: any partial transfer, any failure, any peer |
| `Replies`, `NetFio` | the client (`iop/net_fio.c`), a class over its socket and its two buffers |
| `HostReplies` | the replies as a host lays them out, and that these are the replies the client takes |
| `Runs` | every run of operations, reconnections and shutdowns: where the byte streams stand |
| `HostFiles` | the client against a host that keeps the protocol: a refinement of byte files |
| `FsysThreads` | any number of threads under the one semaphore (`iop/net_fsys.c`), and the server thread outside it, statement by statement |
| `FsysProgress` | that operations end, can succeed, and that the server goes on |
| `ThreadedRuns` | those interleavings as runs of the sequential client |
| `SifPath`, `CommandPath` | the DMA of a command, and runs of the mailbox, its interrupt, the command thread and the threads it starts and stops |
| `ExceptionPath` | an IOP exception from the module list to the arguments of the EE's handler |
| `ExecArgs` | argument vectors, on the EE and on the IOP |
| `MemIo` | memory dumped to a file and restored, in 16 KB pieces |
| `UserThread` | the one user thread of the EE |
| `IpConfig` | the parser of IPCONFIG.DAT |

Seven results carry the rest.

* `Runs.StreamsAtBoundary`: whatever the kernel and the peer do, after every run either
  there is no socket, or both streams end where a whole exchange ends. With
  `HostLink.StreamDecodes` this gives `Runs.ServerReadsSession`: the other side reads the
  requests that were made and nothing else.
* `HostReplies.RepliesAreTheHosts`: the client takes exactly the replies a host may lay out
  from `include/hostlink.h`, and each means to it what the host meant. An operation loses
  its connection only if a transfer failed or something else came in (`Replies.Lost`,
  which every operation of `NetFio.FileClient` guarantees).
* `HostFiles.ClientRefinesFiles`: if the host keeps the protocol, then however TCP cuts the
  streams, the values and the data the callers got are those of one run of the host's files.
* `FsysThreads.EveryInterleaving`: in every interleaving one operation is inside at a time,
  what it sent and decoded is its own, and every accepted socket is in exactly one place.
  `FsysProgress.OperationsEnd` bounds the steps of every operation, and
  `FsysProgress.OperationSucceeds` gives a run for every answer the protocol allows.
* `ThreadedRuns.QuietIsRun`: if the server moves the current socket only while no operation
  is inside, every interleaving of any number of threads is a run of the sequential client,
  so its streams stand at packet boundaries too (`ThreadedRuns.ThreadsAtBoundary`).
* `CommandPath.ExactlyOnceWhenUndisturbed`: a run that ends with nothing pending has executed
  every packet once and in order if and only if no packet came in over a pending one, no
  interrupt found the command thread's id cleared, and no wakeup found it asleep in the
  exception handler. `CommandPath.EveryPacketAccountedFor` counts what is lost in any run.
* `ExceptionPath.ReportSurvives`: what the EE takes out of the mailbox by word index is what
  the IOP put into its packet by field, for every frame and name.

The imperative parts of the source are classes and methods with loops, each proved against
functions on sequences; the lemmas are about those functions. Threads, interrupts and DMA
are state machines whose steps are the statements that touch something shared.

## Where the code and its promises part

The code is followed, and the difference is stated exactly.

* `pko_mkdir` stores the mode without conversion (`iop/net_fio.c:450`). The host recovers
  it exactly when its bytes read the same in both directions (`HostLink.MkdirModeRecovered`),
  which the fallback mode of `iop/net_fsys.c:221` does not (`HostLink.MkdirModeLost`).
* The comment at `iop/cmdHandler.c:141-143` takes the bytes behind a command to be zeros,
  and the rounded length to be enough. `rpc_data` keeps what it held, and the length leaves
  out the command word, so a payload arrives exactly when its length modulo 16 is 1 to 12
  (`SifPath.CarriedExactlyWhen`). The memory packet is the one that does not, and its path
  arrives if its NUL is at index 253 or lower (`SifPath.MemPathArrives`).
* A packet that arrives while another is pending replaces it, and is run twice
  (`CommandPath.OverwrittenPacketRunsTwice`).
* A thread that could not be started stays on record, and the command thread is forgotten
  (`ee/cmdHandler.c:176-180`): `UserThread.StuckUntilReset`, `UserThread.CommandThreadForgotten`.
  Every packet that comes in after that is lost (`CommandPath.FailedStartLosesNext`,
  `CommandPath.ForgottenExecutesNoMore`).
* The command thread shows an IOP exception and then sleeps once more
  (`ee/excepHandler.c:128`), so the packet after a report is lost
  (`CommandPath.ReportSwallowsNext`).
* A setting of more than 15 characters is cut, and the next one starts where the cut was
  made, so the settings are the fields of the file exactly when the first three are short
  enough (`IpConfig.SettingsAreFields`).

## Assumptions

* TCP: `send` and `recv` move at most what was asked, or fail; `accept` returns a descriptor
  that is not in use. Nothing is assumed of the peer, except in `HostFiles`.
* The host of `HostFiles` decodes the requests in order and answers each with one whole
  reply that its files account for (`HostFiles.Conforms`, `HostFiles.HostDoes`). Reads and
  writes may be short. Writes follow the contract at `iop/net_fio.c:268-272`.
* Taking the socket out of `pko_fileio_sock` is one step, and so is each DMA, each interrupt
  and each command of the EE.
* Thread ids are positive, and a program clears `userThreadID` only as its thread ends.
* The IOP module list ends, and its names are C strings.

## Model

| member | source | states |
|---|---|---|
| `ByteOrder.HtonlOnBits` | include/byteorder.h:18-24 | on every word, the shift-and-mask expression is the number with the four bytes reversed that the other results speak of |
| `ByteOrder.HtonsOnBits` | include/byteorder.h:26-29 | the same for half words |
| `ByteOrder.HtonlTwice` | include/byteorder.h:32-32 | converting twice is the identity, which is why `ntohl` may be `htonl` |
| `ByteOrder.StoredIsWire` | include/byteorder.h:18-24 | a converted word stored by a little-endian processor is the word most significant byte first |
| `ByteOrder.LoadedIsBe` | include/byteorder.h:32-32 | four bytes of the wire, loaded and converted, are the number they spell in network order |
| `ByteOrder.Loaded16IsBe` | include/byteorder.h:33-33 | the same for two bytes |
| `Bytes.WordSpelled` | include/byteorder.h:18-24 | what the two orders of a word's bytes mean, as numbers |
| `Bytes.HalfSpelled` | include/byteorder.h:26-29 | and of a half word's |
| `Bytes.StrncpyAt` | iop/net_fio.c:169-169 | strncpy byte by byte: the characters up to the first NUL, and zeros |
| `HostLink.PathFieldDecodes` | iop/net_fio.c:169-170 | a path field read as a C string gives the path cut to 255 characters |
| `HostLink.PathFieldAt` | iop/net_fio.c:169-170 | byte by byte: the path up to 255 characters, and zeros |
| `HostLink.FieldsOfPacket` | include/hostlink.h:94-192 | read at the offsets of the packed structures, every integer and path of every request packet is the one asked for, the mode of mkdir with its bytes reversed |
| `HostLink.RequestDecodes` | iop/net_fio.c:163-170 | an independent decoder recovers any request at the head of any stream, and leaves exactly what follows it |
| `HostLink.StreamDecodes` | iop/net_fio.c:292-302 | the byte stream of any list of requests, write data included, determines the list |
| `HostLink.MkdirModeRecovered` | iop/net_fio.c:450-450 | the host recovers a mode if and only if its bytes are a palindrome |
| `HostLink.MkdirModeLost` | iop/net_fsys.c:220-223 | the fallback mode, octal 755, is not recovered |
| `HostReplies.RepliesAreTheHosts` | include/hostlink.h:87-207 | for every request, value and bytes: the client takes the bytes as a reply with that value if and only if they are the packed structure a host fills in with it, data and bounds included |
| `HostReplies.ValuesAreTheHosts` | include/hostlink.h:117-207 | the data, the stat fields and the name that were laid out are what the client reads |
| `Replies.RefusedIsNoReply` | iop/fileio_reply.h:16-35 | what makes the client drop a connection is never part of a reply: another header, a count below 0 or above what was asked, a write progress of 0 or above what was sent |
| `NetFio.FileClient.constructor` | iop/net_fio.c:28-32 | no socket at first, and two buffers of its own |
| `NetFio.FileClient.CloseSocket` | iop/net_fio.c:36-47 | the current socket is given up and that one disconnected, and no other |
| `NetFio.FileClient.CloseFsys` | iop/net_fio.c:51-55 | the server is told to stop, and no socket is left |
| `NetFio.FileClient.SendAll` | iop/net_fio.c:59-73 | over any partial sends, exactly the bytes of the buffer are appended to the stream; or -1, with the current socket disconnected, and only if a transfer failed after some of them |
| `NetFio.FileClient.RecvBytes` | iop/net_fio.c:79-96 | over any partial receives, exactly that many bytes of the stream are consumed, and they are what the buffer then holds, the rest of it untouched; or -1, with the current socket disconnected, and only if a transfer failed before they were all there |
| `NetFio.FileClient.AcceptPkt` | iop/net_fio.c:101-148 | success only with one whole packet of the expected command and length consumed and in the buffer; failure only with the current socket disconnected, and only if a transfer failed or the six bytes that came in are not that header |
| `NetFio.FileClient.PutPath` | iop/net_fio.c:169-170 | the field is a function of the path alone, whatever the buffer held |
| `NetFio.FileClient.OpenFile` | iop/net_fio.c:152-187 | -1 and nothing done without a socket; else the whole request was sent and one whole reply consumed, whose value is returned; or the socket is lost with -1, only for a failed transfer or another header |
| `NetFio.FileClient.CloseFile` | iop/net_fio.c:192-225 | the same for close |
| `NetFio.FileClient.LseekFile` | iop/net_fio.c:229-264 | the same for lseek |
| `NetFio.FileClient.WriteFile` | iop/net_fio.c:273-330 | nothing is sent for a negative or empty write; else the data follow the request whole, and what the reply accepts is 1 to all of them or a negative error; the socket is lost only for a failed transfer, another header or another count |
| `NetFio.FileClient.ReadFile` | iop/net_fio.c:334-394 | the data of the reply, no more than asked for, start the caller's buffer and the rest of it is untouched; the reply with its data is consumed whole, or the socket is lost, only for a failed transfer, another header or a count outside 0 to the length asked for |
| `NetFio.FileClient.RemoveFile` | iop/net_fio.c:398-430 | as for open |
| `NetFio.FileClient.MakeDir` | iop/net_fio.c:434-467 | as for open, with the mode in native order |
| `NetFio.FileClient.RemoveDir` | iop/net_fio.c:471-503 | as for open |
| `NetFio.FileClient.OpenDirectory` | iop/net_fio.c:507-542 | as for open |
| `NetFio.FileClient.ReadDirectory` | iop/net_fio.c:546-589 | as for close, and the caller's entry is the one of the reply, its name ended only if the reply ends it |
| `NetFio.FileClient.CloseDirectory` | iop/net_fio.c:594-627 | as for close |
| `NetFio.FileClient.GetStatus` | iop/net_fio.c:631-673 | as for open, and the caller's structure is filled from the reply only when the host reports 0 |
| `NetFio.FileClient.AcceptClient` | iop/net_fio.c:724-747 | a new client starts on an empty stream and the old one is disconnected; a failed accept changes nothing, and no accepted client is dropped |
| `Runs.StreamsAtBoundary` | iop/net_fio.c:59-148 | after every run with reconnections between operations: no socket, or bytes sent are the whole requests and bytes consumed the whole replies of the current connection |
| `Runs.ServerReadsSession` | iop/net_fio.c:152-673 | a reader of the connection decodes exactly the requests made on it, in order |
| `Runs.RepliesPrefixFree` | iop/net_fio.c:127-143 | two streams that start with whole replies to one request split at the same place and give the same value |
| `Runs.MinusOneIsReported` | iop/net_fio.c:145-147 | a -1 that leaves the socket open was reported by the host, and never comes from a read |
| `Runs.DownUntilAccept` | iop/net_fio.c:724-747 | once lost, the socket comes back only with a new client, and every operation before that fails |
| `HostFiles.ClientRefinesFiles` | iop/net_fio.c:152-394 | against a conforming host the exchanges the client saw are the ones the host served, so they form a run of the host's files |
| `HostFiles.FileRunConforms` | iop/net_fio.c:152-394 | conversely, every session that is a run of a host's files is one a conforming host can have served |
| `HostFiles.ReadsAreContiguous` | iop/net_fio.c:334-394 | any reads in a row deliver consecutive bytes of the file from its position, and change no file |
| `HostFiles.WritesAreContiguous` | iop/net_fio.c:268-272 | any accepted writes in a row, short ones too, leave the file as one write of all accepted bytes |
| `HostFiles.WrittenIsReadBack` | iop/net_fio.c:229-394 | what was written from the start of a file in any pieces is read back, after a seek to the start, in any other pieces |
| `FsysThreads.ExclusiveStep` | iop/net_fsys.c:97-113 | every step keeps at most one thread between WaitSema and SignalSema, and none while the semaphore is free |
| `FsysThreads.SerialStep` | iop/net_fio.c:28-29 | every step keeps the shared buffers those of the operation inside, and every finished operation's traffic what it may be when run alone |
| `FsysThreads.ServerLeavesOperations` | iop/net_fio.c:718-750 | the server thread, which takes no semaphore, spoils nothing an operation has built or received |
| `FsysThreads.ClientOwned` | iop/net_fio.c:36-47 | every step of an operation keeps each open socket in exactly one place |
| `FsysThreads.ServerOwned` | iop/net_fio.c:718-752 | so does every step of the server thread |
| `FsysThreads.EveryInterleaving` | iop/net_fsys.c:85-317 | all of this holds after every interleaving of any number of threads, reconnections and destroys |
| `FsysThreads.FinishedAsIfAlone` | iop/net_fsys.c:97-317 | an operation finished among others sent, received and returned what the sequential client may on a connection of its own; or it returned -1 having sent a part of its request and received nothing, or sent it whole and received a part of one reply, with nothing behind a wrong header |
| `ThreadedRuns.QuietIsRun` | iop/net_fsys.c:97-317 | when the server moves the current socket only while the semaphore is free, every interleaving of any number of threads is a run of the sequential client: each operation is one step of it, taken when it gives the semaphore back |
| `ThreadedRuns.ThreadsAtBoundary` | iop/net_fio.c:152-673 | then, whenever no operation is inside, every byte ever sent and received on the current socket belongs to whole requests and whole replies, in the order the operations finished |
| `FsysProgress.StepShrinks` | iop/net_fio.c:59-148 | whatever the environment does, each step of an operation brings it nearer its end |
| `FsysProgress.OperationsEnd` | iop/net_fsys.c:97-317 | in every interleaving an operation that holds the semaphore has taken at most a bounded number of steps of its own, so it is given back |
| `FsysProgress.OperationSucceeds` | iop/net_fio.c:152-673 | for every request and every reply the protocol allows, a thread that finds the semaphore free and a connection can send it whole, take the reply and return its value |
| `FsysProgress.DestroySucceeds` | iop/net_fsys.c:85-93 | destroying the file system stops the server and leaves no current socket |
| `FsysProgress.ServerTakesClient` | iop/net_fio.c:718-748 | while it is active the server takes a client that connects, in at most six steps, and disconnects only the one before it |
| `FsysProgress.ServerTriesAgain` | iop/net_fio.c:715-729 | the server starts active, and tries again after a failed accept |
| `FsysProgress.ServerEnds` | iop/net_fio.c:718-754 | once it is not active the server lets go of the current socket and ends |
| `FsysThreads.NoSocketLost` | iop/net_fio.c:736-747 | line 747 always overwrites -1, and only sockets that are still open are disconnected |
| `FsysThreads.AllClosedAtEnd` | iop/net_fio.c:750-754 | when the server has ended and no close is under way, every socket ever accepted has been disconnected, once |
| `SifPath.Sif.SetSifDma` | iop/cmdHandler.c:109-125 | the mailbox gets the whole length or is left alone, as the id tells |
| `SifPath.Sif.SendSifCmd` | iop/cmdHandler.c:129-153 | the buffer holds the command word, the payload and its old tail; 0 means that the rounded length of it is in the mailbox, -1 that the transfer was refused and the mailbox is as it was |
| `SifPath.MailedAt` | iop/cmdHandler.c:134-146 | every byte of the mailbox after a command: word, payload, what the buffer held behind it up to the rounded length, and the rest as it was |
| `SifPath.CarriedExactlyWhen` | iop/cmdHandler.c:136-146 | command word and payload arrive whole for every payload of a length, 1 to 1020, if and only if the length modulo 16 is 1 to 12 |
| `SifPath.PacketsCarried` | include/hostlink.h:211-276 | that covers every packet for the EE but the memory packet |
| `SifPath.MemPathArrives` | include/hostlink.h:261-268 | the path of a memory packet arrives whatever the mailbox held if and only if its NUL is at index 253 or lower |
| `CommandPath.ListenerPasses` | iop/cmdHandler.c:258-307 | a packet goes to the EE if and only if it has a header and one of ten command words, a reset only in its exact size; these are the commands the EE has a handler for, its report apart |
| `CommandPath.Dispatch` | ee/cmdHandler.c:719-765 | each handler with its command word and its command number |
| `CommandPath.PassedIsDelivered` | iop/cmdHandler.c:264-303 | each such packet of at most 1020 bytes is delivered if the DMA is |
| `CommandPath.PassedIsExecuted` | ee/cmdHandler.c:679-765 | and executed once its interrupt is taken and the command thread woken, if that is known and not in the exception handler |
| `CommandPath.HandledThreads` | ee/cmdHandler.c:719-765 | what each command leaves of the user thread, its record and the command thread's id |
| `CommandPath.ProgramEnds` | ee/excepHandler.c:95-98 | a user program that ends makes room for another, one that faults leaves its id on record, and neither touches the mailbox |
| `CommandPath.SameMeaning` | iop/cmdHandler.c:264-307 | the EE selects the handler that stands for the command number the IOP passed on, reports of exceptions included |
| `CommandPath.ReportPasses` | iop/excepHandler.c:88-92 | every report the IOP's exception handler makes is sent on as one |
| `CommandPath.AlwaysConsistent` | ee/cmdHandler.c:679-765 | in every run executions and pending packets never outnumber delivered ones, and each execution read the latest delivered packet as far as it was carried |
| `CommandPath.EveryCommandWasDelivered` | ee/cmdHandler.c:711-765 | in every run each executed command is the one the IOP sent, with its whole packet when that is carried |
| `CommandPath.EveryPacketAccountedFor` | ee/cmdHandler.c:683-714 | conservation: in every run each delivered packet is executed, pending or lost, and one is lost exactly when another is written over it before its interrupt, its interrupt finds the command thread's id cleared, or its wakeup ends the sleep of the exception handler |
| `CommandPath.UndisturbedInOrder` | ee/cmdHandler.c:687-692 | if nothing comes in over a pending packet and none is lost in those ways, the n-th execution is of the n-th packet and at most one is outstanding |
| `CommandPath.ExactlyOnceWhenUndisturbed` | ee/cmdHandler.c:679-714 | a run with nothing pending at its end has executed every packet once, in order, if and only if it was so |
| `CommandPath.OverwrittenPacketRunsTwice` | ee/cmdHandler.c:687-714 | two packets before the thread runs: the first is lost and the second is executed twice |
| `CommandPath.FailedStartLosesNext` | ee/cmdHandler.c:176-180 | after a start that failed the next packet is lost, though nothing was pending when it came |
| `CommandPath.ForgottenOnlyBy` | ee/cmdHandler.c:176-180 | the command thread's id changes only by a reset or by an exec whose program is loaded with no thread on record and does not start |
| `CommandPath.ForgottenExecutesNoMore` | ee/cmdHandler.c:687-692 | with its id cleared the command thread executes at most what it had been woken for |
| `CommandPath.ReportSwallowsNext` | ee/excepHandler.c:128-128 | the packet after an exception report is lost, though nothing was pending when it came |
| `ExceptionPath.GetModuleName` | iop/excepHandler.c:38-66 | on every list that ends, the walk ends with the first module whose closed text range holds the address, and relative plus start is the address; nothing is set if there is none |
| `ExceptionPath.FoundIs` | iop/excepHandler.c:56-63 | the module reported is the first in range, and none only if no module is |
| `ExceptionPath.Reporter.CopyName` | iop/exception_packet.h:16-31 | the field holds the name cut to the limit and to 127 characters, ended by a NUL inside the field, and nothing before the field changes |
| `ExceptionPath.Reporter.FillName` | iop/excepHandler.c:73-86 | the module's name and relative address, or "unknown" and the address itself |
| `ExceptionPath.Reporter.Report` | iop/excepHandler.c:68-93 | the packet is the report of the frame and the module found, whatever the buffer held, and unless the transfer is refused it is what goes to the mailbox |
| `ExceptionPath.ReportLayout` | tests/exception_packet.c:40-49 | command, frame, relative address, length and name lie at the offsets of the packed structure |
| `ExceptionPath.ShownInModule` | iop/excepHandler.c:56-90 | for every list, the EE gets the address relative to the first module that covers it and that module's name cut to 127 characters |
| `ExceptionPath.ShownUnknown` | iop/excepHandler.c:75-81 | and the address itself and "unknown" if no module covers it, or the first that does has no name |
| `ExceptionPath.ReportSurvives` | ee/cmdHandler.c:716-761 | for every frame and name the EE's handler gets the same cause, bad address, status, epc, 32 registers, relative epc and name |
| `ExceptionPath.NameSurvives` | ee/cmdHandler.c:760-760 | the string at word 43 of the mailbox is the name, whatever follows its NUL |
| `ExecArgs.WalkStrings` | ee/cmdHandler.c:76-87 | the loop stores the offsets of the strings one behind the other, up to the count or the payload's end |
| `ExecArgs.MakeArgs` | ee/cmdHandler.c:63-90 | for any 256 bytes and any count, both copies end in a NUL and argv holds at least one and at most MAX_ARGS offsets of their strings |
| `ExecArgs.OffsetsInside` | ee/cmdHandler.c:76-87 | the offsets grow, every string ends inside the payload, and the walk stops short of the count only at the payload's end |
| `ExecArgs.ArgsRoundTrip` | ee/cmdHandler.c:63-90 | strings packed into the payload are found again exactly, whatever lies behind them |
| `ExecArgs.MeasureArgs` | iop/cmdHandler.c:71-75 | the summed lengths end at the NUL of the last argument counted |
| `ExecArgs.ArgSpan` | iop/cmdHandler.c:58-75 | the span handed to the loader starts behind the path and ends with the last argument, at the offsets makeArgs computes on the same bytes |
| `ExecArgs.SpanIsArguments` | iop/cmdHandler.c:58-77 | for packed strings that span is exactly the strings behind the path |
| `MemIo.ChunksPartition` | ee/cmdHandler.c:246-264 | the lengths asked for add up to the size, all full buffers but the last |
| `Bytes.PatchAt` | ee/cmdHandler.c:302-302 | a copy into memory puts its bytes in their place and changes no other |
| `MemIo.Ee.DumpMem` | ee/cmdHandler.c:245-269 | the lengths asked for are those chunks in order, memory is untouched, and if every write is whole the file holds the region |
| `MemIo.Ee.WriteMem` | ee/cmdHandler.c:285-308 | nothing outside the region changes, what was copied lies from the start of the region on, and if every read is whole it is the file's first bytes, as many as the region has |
| `MemIo.DumpThenRestore` | ee/cmdHandler.c:232-309 | a dump, and a restore from its file opened again: if all transfers were whole, the other memory has the region as it was and is otherwise untouched |
| `UserThread.Ee.LoadElf` | ee/cmdHandler.c:96-138 | a new thread and its id; or -1 and no thread, only if the loading or the making of the thread failed |
| `UserThread.Ee.Exec` | ee/cmdHandler.c:143-183 | one exec step of the thread state machine; it succeeds if and only if no thread is on record and nothing fails |
| `UserThread.Ee.Reset` | ee/cmdHandler.c:818-847 | no thread is left on record, and the program starts afresh |
| `UserThread.Ee.InitCmdRpc` | ee/cmdHandler.c:774-799 | 0 with the id of the new command thread, or -1 with the id cleared or as it was |
| `UserThread.Ee.StopUserThread` | ee/excepHandler.c:95-98 | the thread on record is gone, its id stays |
| `UserThread.AtMostOneThread` | ee/cmdHandler.c:150-168 | in every run at most one user thread exists, and it is the one on record |
| `UserThread.RetryAfterFailedLoad` | ee/cmdHandler.c:160-180 | after an exec that left no thread, another may be tried if and only if it was the load that failed |
| `UserThread.StuckUntilReset` | ee/cmdHandler.c:150-152 | with a record of a thread that is gone, no program runs before a reset |
| `UserThread.CommandThreadForgotten` | ee/cmdHandler.c:176-180 | after a failed start the command thread's id is 0 until a reset |
| `UserThread.CommandThreadKept` | ee/cmdHandler.c:143-183 | nothing else changes that id: only a reset, or a failed start of a loaded program with no thread on record |
| `UserThread.ProgramRuns` | ee/cmdHandler.c:159-182 | with no thread on record a program that loads and starts becomes the one thread and nothing else changes; and so again after it ends, or after a reset |
| `IpConfig.ClearSeparators` | ee/ps2link.c:110-116 | every separator before the first NUL becomes a NUL, nothing else changes, and the loop stays in the buffer |
| `IpConfig.ReadDefault` | ee/ps2link.c:84-95 | the built-in settings, one behind the other, and zeros |
| `IpConfig.Config.SaveTokens` | ee/ps2link.c:119-125 | three strings are packed one behind the other, and the index, moved by the lengths in one buffer, picks them up from the other |
| `IpConfig.Config.GetIpConfig` | ee/ps2link.c:97-126 | for every content of at most 63 bytes, or none, the settings are stored within the buffer with a length from 3 to 48 |
| `IpConfig.Config.Boot` | ee/ps2link.c:222-226 | after the first boot the length is not 0, so no later boot parses again or changes the settings |
| `IpConfig.Config.PrintIpConfig` | ee/ps2link.c:45-56 | the three strings printed are the three stored |
| `IpConfig.SettingsAreFields` | ee/ps2link.c:110-123 | the settings of a text are its first three separated fields if and only if none of these is longer than 15 characters |
| `IpConfig.WordsKept` | README.md:55-57 | three words of at most 15 characters with single separators are stored exactly, whatever follows |
| `IpConfig.ThreeWordsKept` | README.md:55-57 | the same in the text's own bytes: words of 1 to 15 characters, each two with one blank, carriage return or line feed between them, in at most 63 bytes |
| `IpConfig.DefaultsSpelled` | include/globals.h:28-30 | the built-in settings, character by character |
| `IpConfig.DefaultSettings` | ee/ps2link.c:107-108 | without a file the settings are the built-in ones |

## Left out

- Reconnections in the middle of an operation, for the stream property: the client reads the current socket again between sending and receiving (`iop/net_fio.c:299-305`), so a request may go to one client and its reply be awaited from the next. `FsysThreads` covers such interleavings for buffers and sockets.
- SifPath.Sif.SendSifCmd: payloads of more than 1020 bytes, which the copy would take past the end of `rpc_data`; `CommandPath` ignores such packets.
- ExecArgs.ArgSpan: argc 0 and strings that run past the payload, where the walk of `iop/cmdHandler.c:72-75` has no bound. MAX_ARGS is not defined in the repository and is a parameter.
- ExecArgs.MeasureArgs: the same.
- MemIo.Ee.DumpMem: sizes of 2^31 and more, regions that wrap around the address space or overlap the buffer, the file's opening and the descriptor left open on an error.
- MemIo.Ee.WriteMem: the same; after a short read the model, like the code, copies the whole chunk, and nothing is stated of the bytes not read.
- HostFiles.ClientRefinesFiles: directory operations of the host are not constrained, and the value field of a read reply, which the client ignores, means nothing.
- FsysThreads.EveryInterleaving: the steps after `DeleteSema`, as what `WaitSema` then returns is ignored; what `own_fd` keeps; the fallback mode of `fsysMkdir`; negative lengths and empty writes, which send nothing; how the server's own socket is made.
- ExceptionPath.Reporter.Report: an exception while the listener is filling `rpc_data`.
- CommandPath.EveryCommandWasDelivered: a packet overwritten while an EE handler still reads it.
- CommandPath.ExactlyOnceWhenUndisturbed: what follows a reset, with which a run ends, and an EE exception of the command thread itself.
- IpConfig.SettingsAreFields: contents with a NUL in them, which `IpConfig.Config.GetIpConfig` covers.
- Start and stop of the vector units, GS programs, register dumps, cache flushes, screen and debug output, module loading, power off.
- `setsockopt`, `remote_pc_addr`, and printed messages.
