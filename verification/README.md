# Verified models of the Android system/core and vold protocols

This project models the parts of the repository that move bytes and keep books about them, and
proves what those parts are for. Statements quantify over what the operating system may do: each
`read` and `write` may be short, interrupted or failing, `select` may report any subset of what was
asked for, threads interleave in any order. Such choices are arguments, plans or steps of a run, so
a proof for all of them is a proof for every behaviour of the kernel. Where something must hold for
a result, such as a connection that does not fail, the result says so, and says what is left when
it does not hold.

| file | what it models |
|---|---|
| `Sockets`, `Streams`, `Multiplex` | adb streams: local sockets, stop-and-wait flow control, deferred closing, many streams between two processes over one transport |
| `Faults`, `LosingRun`, `Progress` | which answers of the kernel end a socket, over whole runs; runs that lose bytes; that ready descriptors move bytes and any text goes through |
| `Lists`, `PacketQueue`, `SocketRing`, `SocketList` | the chain of packets of a socket, the rings of sockets, `close_all_sockets` |
| `LocalSocket`, `Endpoint` | the callbacks of a socket and a whole adb process on these structures, in place |
| `Processes` | two processes that each know only their own state: together they make a run of `Multiplex` |
| `Reactor` | the `select` event loop: fd table, select sets, intrusive pending list |
| `BipBuffer` | the two-region circular buffer behind Windows socket pairs |
| `Transport`, `TransportTrace` | the SYNC start/stop protocol of three threads, and reference-counted teardown; what a run of them does, told from its actions |
| `Io`, `Bits`, `Wire` | loops over short transfers; packet framing with magic and checksum |
| `FileSync`, `SyncSession` | the file transfer service: frames, requests, whole sessions |
| `SyncClient`, `SyncPush`, `SyncPull`, `SyncList` | its client, end to end: pipelined STATs, a push, a pull, a listing |
| `Hex`, `SmartSocket` | hexadecimal fields; reassembly of length-prefixed requests |
| `Cpio`, `BootTree`, `Bootfs` | the newc archive writer of mkbootfs and its tree walk |
| `BootLookup` | what that archive holds, told by looking names up in the source trees |
| `LogSplitter` | the line splitter of logwrapper |
| `BootImage`, `Asec` | layout of boot images and of ASEC containers |

How the pieces fit. `Sockets` gives the effect of every callback on one local socket as a function
of what the kernel answers. `Streams` shows that every callback obeys one law of bytes, credits and
endings, and that whatever obeys it keeps the invariant of a stream. `Multiplex` lifts this to two
processes with any number of streams, over runs of any length. `LocalSocket` runs the same callbacks
on linked packets, flags and peer pointers, and `Endpoint` on the two rings of sockets of a process;
each step of a process is proved to be a step of `Multiplex`, and `Processes` shows that two such
processes together make a run of it. The other modules follow the same
pattern: a specification function or state machine, the code proved against it, and laws about it.

## What the code does not do

These are places where a property that one would expect fails, or where code and comments disagree.
Each has a lemma or a run at a failing case, and the exact condition.

- A closing socket can be destroyed with its backlog. `fdevent_set` (core/adb/fdevent.c:467) clears
  from the pending events those of the *new* mask instead of those outside it, so a READ that was
  pending when CLSE arrived survives; if it then finds end of file, the queue is dropped.
  `LosingRun.ClosingCanLose` is such a run, `Streams.ClosingLosesIff` the exact condition.
- `enqueue` treats an interrupted write as a failure (core/adb/sockets.c:144-158), while the event
  handler retries it (core/adb/sockets.c:264-270). `LosingRun.InterruptedWriteLoses` is a run that
  loses a byte although no descriptor failed; `Faults.WrteEndsIff` says exactly when data ends a live
  receiver, and `Faults.FaultedIff` which answers in a run ended a socket.
- Socket ids repeat once 2^32 of them were handed out: `Multiplex.IdsFreshIff`. The newer socket is
  last in the list (`Endpoints.Endpoint.ConnectToRemote`), and the search finds the first
  (`SocketRings.SocketRing.Find`).
- `fdevent_install` on a descriptor that still has an fdevent leaves the books in disagreement, and
  only then: `Reactor.EventLoop.Install`.
- A reader of a socket pair that waits fails when it is woken by bytes and a close, and the bytes
  stay behind: `BipBuffer.WaitingReaderFails`; the contracts of `Bip.Read` and `Bip.Write` say
  exactly when a call fails.
- A second request in the same packet as a "transport" request is dropped:
  `SmartSocket.SharedPacketIff`.
- The thread that sends packets does not look at whether a write failed (core/adb/transport.c:317), so
  the next packet follows a cut one. `Wire.CutPacketIsTaken` is a packet that arrives with other data
  and passes both checks; `Wire.CutTakenIff` says exactly when a cut packet is taken.
- A push of which a part of the local file could not be read is reported as a success
  (`SyncPush.CutFileIsSuccess`), and so is one onto a file that could not be unlinked and keeps
  its old tail (`SyncPush.OldTailIsKept`), and one of which any frame did not go out because the
  connection failed under it and then recovered (`SyncPush.LostDataIsSuccess`): the service takes a
  cut stream for complete exactly if the cut is between two frames (`SyncPush.CutUploadIff`).
  `SyncPush.Push` says what is stored, `SyncPush.PushedIff` when that is the local file.
- An upload that ends in FAIL leaves a partly overwritten file when it cannot be unlinked:
  `FileSync.HalfFileRemains`; `FileSync.HandleSendFile` says what is left in every case.
- A pull that fails leaves what came in the local file: `FileSync.CutPullLeavesPart`;
  `SyncPull.PartialIff` says exactly when.
- A failure reported by the remote side of a pull ends with the return code of success and without a
  file, and a file that was there before is removed: `FileSync.RemoteErrorLooksLikeSuccess`;
  `SyncPull.PulledWholeIff` says exactly when the file is there.
- The client of a pull compares a signed size, so it refuses exactly the sizes from 65537 to
  2^31 - 1, where the service refuses all above 65536; a larger one is followed by a read of that
  many bytes: `FileSync.HugeFrameRunsAway`. So does the client of a listing with the length of a
  name: `SyncList.LongNameEnds`.
- The client lets a path of up to 1024 bytes through and adds the mode, the service refuses names
  over 1024 bytes: `SyncPush.SendRefusedIff`. It does not check the paths of STAT requests at all;
  one that is too long costs all results: `SyncClient.PipelinedStats`.
- An archive entry called `TRAILER!!!` ends the archive early: `Cpio.RoundTripIff`.
- Targets of symbolic links are cut after 1024 bytes: `BootTree.LinkSurvivesIff`.
- A path that several arguments of mkbootfs have is archived once for each: `BootLookup.CalledIs`.
- A line whose length is a multiple of 4095 is followed by an empty log line:
  `LogSplitter.EmptyPieceIff`, `LogSplitter.FullLineIsDoubled`.
- Boot images with a page size that is no power of two, or does not hold the header, cannot be read
  back: `BootImage.OddPageFails`, `BootImage.SmallPageFails`, `BootImage.LayoutIff`,
  `BootImage.MaskRoundsIff`.
- Paths in an archive are not checked against the 8192 bytes of their buffer: `Bootfs.MakeBootfs`.
- A negative container size is accepted and gives an image that cannot hold it: `Asec.SizedIff`;
  with a 32-bit `off_t` sizes above 2016 megabytes fail: `Asec.OffsetFitsIff`, `Asec.Image.Mount`.

## Model

| member | source | states |
|---|---|---|
| Sockets.Drain | core/adb/sockets.c:256-280 | For every sequence of short, blocked, interrupted and failed writes, the bytes written followed by the packets left are the bytes queued; the loop finishes exactly when nothing is left. |
| Sockets.DrainBreaksIff | core/adb/sockets.c:144-158 | Writing a packet ends in failure if and only if, before it is out, a write gives zero or an error other than EAGAIN, or is interrupted where the loop does not retry. |
| Sockets.TakeHears | core/adb/sockets.c:306-321 | The packet filled holds the first MAX_PAYLOAD bytes delivered, in order, and end of file is seen exactly if it comes before the packet is full. |
| Streams.ReadableLaw | core/adb/sockets.c:299-354 | The FDE_READ half sends exactly the bytes it read, spends the one read credit on them, and on end of file closes with CLSE. |
| Streams.WritableLaw | core/adb/sockets.c:253-296 | The FDE_WRITE half moves bytes from queue to descriptor without loss or reordering, gives the credit back with one OKAY exactly when the queue is empty, and ends a closing socket. |
| Streams.FirstLaw | core/adb/sockets.c:127-178 | enqueue on an empty queue writes what it can, keeps the rest, and answers ready exactly when all is written. |
| Streams.EventLaw | core/adb/sockets.c:246-364 | The whole event handler obeys the law of bytes, credits and endings for every set of pending events, including stale ones. |
| Streams.PacketLaw | core/adb/adb.c:348-381 | Every packet dispatched to a live socket is handled within that law. |
| Streams.StepKeepsLink | core/adb/sockets.c:127-364 | Whatever obeys the law keeps the invariant of a stream: CLSE last, one credit a direction, bytes sent equal bytes received then bytes under way. |
| Streams.EventKeepsLink | core/adb/sockets.c:246-364 | An event on one end keeps the stream invariant. |
| Streams.DeliverKeepsLink | core/adb/adb.c:348-381 | Delivering the next packet keeps it, to a live or an ended socket. |
| Streams.AcceptedLink | core/adb/adb.c:332-345 | OPEN creates a stream that satisfies it. |
| Streams.ClosingLosesIff | core/adb/sockets.c:216-244 | A closing socket is destroyed with bytes unwritten if and only if its descriptor breaks under a write, or a left-over READ alone finds end of file. |
| Multiplex.StepAKeepsInv | core/adb/adb.c:301-388 | Every step of one process, with any number of streams, keeps the invariant of the two processes and the two FIFOs. |
| Multiplex.RunKeepsInv | core/adb/sockets.c:62-107 | So does every run, of any length and interleaving, within the id space. |
| Multiplex.CreditConservation | core/adb/sockets.c:127-447 | In every reachable state, while both ends live, each direction has exactly one credit (sender reading, WRTE under way, receiver's backlog, or OKAY under way); never two unacknowledged WRTEs, never two queued packets. |
| Multiplex.OpenerCredit | core/adb/sockets.c:499-515 | Before it has a partner, a live opener holds no credit, has read and written nothing, and exactly one of two is under way: its OPEN, or the CLSE that refuses it. |
| Multiplex.NeverStalls | core/adb/sockets.c:180-186 | In every reachable state with both ends live and nothing under way, each direction has an end that waits for its descriptor, so neither direction is deadlocked. |
| Multiplex.StreamFidelity | core/adb/sockets.c:246-364 | In every reachable state, while the receiver is live, the bytes read at the sender, ended or not, are the bytes written, then those queued, then those under way; nothing else is ever written. |
| Multiplex.GracefulClose | core/adb/sockets.c:216-244 | When the sender's descriptor ends the stream and the receiver's own descriptor does not end it, the receiver is destroyed only after writing every byte the sender read. |
| Multiplex.PeerIsKnown | core/adb/sockets.c:285-295 | The handler never follows a null peer of a live socket. |
| Multiplex.PeersArePaired | core/adb/adb.c:332-358 | A socket that knows its peer has exactly one partner, and it is that peer, so no byte reaches another stream. |
| Progress.WriteProgress | core/adb/fdevent.c:297-307 | In every reachable state, a socket with a backlog that select reports writable writes, in the callback that follows, exactly the next bytes of the backlog that the descriptor takes; when all is written a live one sends its peer OKAY and a closing one is destroyed; no other socket changes. |
| Progress.ReadProgress | core/adb/fdevent.c:297-307 | A live socket that waits for input and is reported readable takes what the descriptor gives, at most 4096 bytes, sends exactly these in one WRTE to its peer, and then waits for its OKAY; no other socket changes. |
| Progress.EofProgress | core/adb/sockets.c:318-353 | At end of file it sends CLSE to its peer; without a backlog it is destroyed, with one it is closing and keeps it. |
| Progress.ReceiveConsumes | core/adb/adb.c:301-388 | The first packet under way is consumed whatever it is for; one for an ended or unknown socket changes nothing else. |
| Progress.OpenGoesThrough | core/adb/adb.c:332-358 | From any reachable state with nothing under way, OPEN and its OKAY make a new stream on fresh ids, both ends live and the opener ready to read. |
| Progress.ChunkGoesThrough | core/adb/sockets.c:127-364 | From any reachable state of a live stream with nothing under way, a chunk that is read is sent, written by the partner and acknowledged, and the stream is ready for the next one. |
| Progress.TextGoesThrough | core/adb/sockets.c:127-364 | So any text goes through, whatever chunks of at most 4096 bytes it is read in, and the partner has written exactly that text. |
| Multiplex.IdsFreshIff | core/adb/sockets.c:86-94 | The ids handed out are distinct and nonzero if and only if fewer than 2^32 were. |
| LosingRun.ClosingCanLose | core/adb/fdevent.c:449-473 | A reachable run in which a receiver closed by its peer is destroyed with a byte unwritten although no write failed. |
| LosingRun.InterruptedWriteLoses | core/adb/sockets.c:144-158 | A reachable run in which a live receiver is destroyed with a byte unwritten because one write was interrupted. |
| Faults.WrteEndsIff | core/adb/sockets.c:127-178 | Data ends a live receiver if and only if nothing is queued and the write of it fails or is interrupted. |
| Faults.EventFaultIff | core/adb/sockets.c:246-364 | The event handler marks a socket as ended by its descriptor exactly for the kernel's answers that say so: a write that breaks, or a read that meets end of file or an error, in a half that runs. |
| Faults.DeliverFaultIff | core/adb/adb.c:368-381 | A packet does so exactly if it carries data and its first write breaks. |
| Faults.StepFaultIff | core/adb/adb.c:301-388 | Over one step of a process with any number of sockets, a socket is newly marked exactly if the step gave it such answers. |
| Faults.FaultedIff | core/adb/sockets.c:127-364 | At the end of any run a socket counts as ended by its descriptor if and only if some step of the run gave it such answers. |
| Faults.GracefulCloseByAnswers | core/adb/sockets.c:216-244 | Over every run: if no answer of the kernel in it ended the receiver, and the sender's descriptor ended the stream, the destroyed receiver has written every byte the sender read. |
| Faults.RunFlips | core/adb/adb.c:301-388 | Every run, seen from the other process, is a run, so all of this holds for the sockets of both. |
| PacketQueues.WritePacket | core/adb/sockets.c:144-158 | The loop that moves ptr and len of one packet writes what Drain writes of it, with and without the retry of interrupted writes. |
| PacketQueues.PacketQueue.Append | core/adb/sockets.c:165-172 | The chain from pkt_first to pkt_last stays a chain, with the packet at its end. |
| PacketQueues.PacketQueue.Pop | core/adb/sockets.c:275-279 | It loses exactly its first packet. |
| PacketQueues.PacketQueue.Discard | core/adb/sockets.c:205-210 | It is empty afterwards. |
| PacketQueues.PacketQueue.WriteOut | core/adb/sockets.c:256-280 | The nested loops over the chain compute Drain, and the chain is left holding what Drain leaves. |
| SocketRings.SocketRing.Insert | core/adb/sockets.c:76-83 | The ring of sockets stays a doubly linked ring without duplicates, with the socket at its end. |
| SocketRings.SocketRing.Remove | core/adb/sockets.c:96-107 | The ring loses exactly that socket, the others in order, and its pointers and id are cleared. |
| SocketRings.SocketRing.Find | core/adb/sockets.c:62-74 | The scan finds the first socket of the ring with this id, or none exactly if none has it. |
| SocketList.SocketLists.Retire | core/adb/sockets.c:227-243 | A socket without peer leaves the ring; with a backlog it goes to the end of the closing ring. |
| SocketList.SocketLists.CloseLocked | core/adb/sockets.c:216-244 | On the two rings, a close unlinks exactly the socket and its local peer; those with a backlog go to the closing ring, a remote peer is told, and no other peer pointer changes. |
| SocketList.SocketLists.CloseFound | core/adb/sockets.c:114-121 | Each close before a restart shrinks the ring and takes only sockets bound to the transport. |
| SocketList.SocketLists.CloseAll | core/adb/sockets.c:109-125 | The restarting scan along the next pointers terminates; the ring is left without exactly the sockets bound to the transport, directly or through a peer, in unchanged order, and each of those was dealt with. |
| LocalSockets.ReadPacket | core/adb/sockets.c:306-321 | The read loop computes Take. |
| LocalSockets.CloseSocket | core/adb/sockets.c:216-244 | Closing a socket with linked packets, flags and peer pointer is the closing of the model: CLSE to a known peer, whose back pointer is cleared, then destroyed with its packets, or left draining. |
| LocalSockets.EnqueuePacket | core/adb/sockets.c:127-178 | Enqueueing in place, with the write loop and the chaining, is that of the model, and the result tells whether an OKAY is due. |
| LocalSockets.WriteEvent | core/adb/sockets.c:253-296 | The in-place write half is that of the model, and says whether the read half goes on. |
| LocalSockets.ReadEvent | core/adb/sockets.c:299-354 | The in-place read half is that of the model. |
| LocalSockets.EventFunc | core/adb/sockets.c:246-364 | The in-place handler is that of the model for every set of pending events, packets in order. |
| LocalSockets.ReadySocket | core/adb/adb.c:348-356 | READY makes the remote peer at the first time only, and asks for reads. |
| Endpoints.Endpoint.FindLocal | core/adb/sockets.c:62-74 | The search of the ring finds exactly the live socket with this id; closing and freed sockets, whose id was cleared, are never found. |
| Endpoints.Endpoint.Admit | core/adb/sockets.c:86-94 | A new socket joins the ring under the next id, and memory and the two-process model still agree socket by socket, sharing nothing. |
| Endpoints.Endpoint.MarkReady | core/adb/fdevent.c:293-313 | What select reports is the Select step of the two-process model, for which Progress.WriteProgress and Progress.ReadProgress say what it leads to. |
| Endpoints.Endpoint.HandleEvent | core/adb/sockets.c:246-364 | An event on a socket in memory, with the move between the rings or off them that it causes, is the Fire step of the two-process model, and no other socket changes. |
| Endpoints.Endpoint.ConnectToRemote | core/adb/sockets.c:499-515 | Creating a socket and opening a stream is the Connect step; once ids are used up, the socket is last in the list under an id that may be in use. |
| Endpoints.Endpoint.HandlePacket | core/adb/adb.c:332-388 | Dispatching a packet, with the search, the service socket it may create and the closing it may cause, is the Receive step, but for a service socket created when ids are used up. |
| Endpoints.Endpoint.CloseAll | core/adb/sockets.c:109-125 | On the list of a whole process, with connected streams: exactly the live sockets bound to the transport are closed, each as the model closes it, one after the other in list order, and memory and model still agree, though the scan starts over after each. |
| Endpoints.BoundIdsIff | core/adb/sockets.c:114-121 | Those are exactly the sockets of the list whose transport, or whose peer's transport, is the one that goes. |
| Endpoints.CloseEachIs | core/adb/sockets.c:109-125 | Closing them one after the other closes each once, leaves every other socket as it is, and sends one CLSE for each that has a peer, in that order. |
| Endpoints.Endpoint.ListsAreValid | core/adb/sockets.c:109-125 | The lists of every process, connected or not, meet what SocketLists asks for. |
| Endpoints.MemoryFidelity | core/adb/sockets.c:246-364 | For two processes in memory that came about together by any such steps: while the receiver is live, the bytes read at one end of a stream are those written at the other, then those in its packets, then those under way. |
| Processes.StepIsLocal | core/adb/adb.c:301-388 | What a step does to a process depends on its own state and the packet it takes only, and only adds to what it has sent. |
| Processes.HistoryIsRun | core/adb/adb.c:301-388 | Any steps of two processes in any order, each taking the other's packets in the order sent, are a run of the two-process model, so that all its theorems hold of them. |
| Reactor.PendingList.Enqueue | core/adb/fdevent.c:364-372 | The ring stays a doubly linked ring without duplicates, with the node at its end. |
| Reactor.PendingList.Remove | core/adb/fdevent.c:374-380 | The ring loses exactly that node. |
| Reactor.PendingList.Dequeue | core/adb/fdevent.c:382-395 | The ring gives its first node, or none exactly when it is empty. |
| Reactor.EventLoop.Set | core/adb/fdevent.c:449-473 | The descriptor is in each select set exactly if the new mask has its flag; mask, select sets, table, bound and pending list agree; undelivered events lose those of the new mask, and the node leaves the list, the others in order, exactly when none is left. |
| Reactor.EventLoop.Add | core/adb/fdevent.c:475-479 | The same for added events. |
| Reactor.EventLoop.Del | core/adb/fdevent.c:481-485 | The same for removed events. |
| Reactor.EventLoop.Grow | core/adb/fdevent.c:325-341 | The table grows past the descriptor, keeps its entries, and is empty beyond them. |
| Reactor.EventLoop.Register | core/adb/fdevent.c:318-344 | The fdevent is entered, and the table agrees with the fdevents installed exactly if the descriptor had none. |
| Reactor.EventLoop.Install | core/adb/fdevent.c:415-430 | Installing succeeds exactly on descriptors that are not negative and not too large, and keeps all invariants if and only if the descriptor has no fdevent yet. |
| Reactor.EventLoop.Disconnect | core/adb/fdevent.c:241-253 | The descriptor leaves all three select sets, and the select bound is the least that still covers the table. |
| Reactor.EventLoop.Unregister | core/adb/fdevent.c:346-362 | The entry is cleared and the books agree again. |
| Reactor.EventLoop.Remove | core/adb/fdevent.c:432-446 | Removing an fdevent, pending or not, keeps all invariants; the descriptor is closed exactly if it was not marked otherwise. |
| Reactor.EventLoop.NextCallback | core/adb/fdevent.c:497-503 | The first pending fdevent is called with all its undelivered events, which are then gone. |
| Reactor.EventLoop.ProcessOne | core/adb/fdevent.c:295-313 | A ready descriptor always has its fdevent; that gains READ, WRITE and ERROR exactly as the descriptor is in the first, second and third set, keeps what it had, and is queued once. |
| Reactor.EventLoop.Process | core/adb/fdevent.c:276-314 | After one pass every fdevent has, flag by flag, what it had and what the three sets of select say of its descriptor; appended, in descriptor order, are exactly the ready fdevents not yet queued, although the scan stops counting early. |
| BipBuffer.Bip.constructor | core/adb/sysdeps_win32.c:877-891 | An empty buffer, writable and not readable. |
| BipBuffer.Bip.Write | core/adb/sysdeps_win32.c:916-1002 | Appends exactly the lesser of the request and the free room of a FIFO of 4096 bytes; waits exactly when full and open; fails exactly when closed and either full or woken from a wait; over every run, bytes in are bytes out then contents, and the flags say non-empty and non-full. |
| BipBuffer.Bip.Read | core/adb/sysdeps_win32.c:1005-1095 | Removes exactly the lesser of the request and the contents, in order, from one or both regions; waits and fails as Write does, with empty for full. |
| BipBuffer.WaitingReaderFails | core/adb/sysdeps_win32.c:1030-1038 | A reader that waits, and is woken after bytes were written and the buffer closed, fails although the bytes are there, and a later read still gets all of them. |
| BipBuffer.Bip.Fill | core/adb/sysdeps_win32.c:951-995 | The writing branches keep the regions well formed, use region B only behind a full region A, and never trip the two asserts. |
| BipBuffer.Bip.Empty | core/adb/sysdeps_win32.c:1045-1087 | The reading branches keep them well formed and never trip theirs. |
| BipBuffer.Bip.Close | core/adb/sysdeps_win32.c:894-904 | Wakes both sides and keeps the contents. |
| Transport.SyncProtocol | core/adb/transport.c:229-334 | Over every interleaving of the three threads, with any packets from the remote, SYNCs included, the remote gets in order exactly what the main loop sent between its first echo of the connection's SYNC(1, token) and its first SYNC(0) after that, and nothing from before or after. |
| Transport.Teardown | core/adb/transport.c:674-696 | Over every interleaving, one kick at most, one close and one removal message, exactly when both threads are gone, and nothing touches the transport afterwards. |
| Transport.StepKeepsFlow | core/adb/transport.c:229-334 | Every step of a thread keeps the invariant behind SyncProtocol. |
| Transport.StepKeepsLife | core/adb/transport.c:59-75 | Every step of a thread keeps the invariant behind Teardown. |
| TransportTrace.ReachableIff | core/adb/transport.c:229-334 | The reachable states are those that some sequence of actions leads to, so what follows holds of all of them. |
| TransportTrace.UpCarriesAll | core/adb/transport.c:236-276 | Over every run, what the main loop has read, followed by what is under way to it, is SYNC(1, token) if it was posted, then in order exactly the packets from the remote that the output thread copied while it was copying, then SYNC(0, 0) if it was posted. |
| TransportTrace.DownCarriesAll | core/adb/adb.c:310-319 | Over every run, what the input thread has read, followed by what is under way to it, is in order exactly every SYNC the main loop read and every packet it sent. |
| TransportTrace.RemoteGets | core/adb/transport.c:294-323 | Over every run, the remote got exactly the packets other than SYNC that the input thread read behind the first SYNC with the token; it reads nothing behind the first SYNC(0, ..). |
| TransportTrace.InputWorksIff | core/adb/transport.c:294-304 | Over every run, the input thread is at work if and only if it has not read SYNC(0, ..) and no read failed. |
| TransportTrace.MainKicks | core/adb/transport.c:59-75 | A kick by the main loop and those of the threads are one kick together. |
| TransportTrace.ThreadGetsAway | core/adb/transport.c:279-282 | A thread that stopped working is gone after four steps of its own, whatever the others do in between, and never works again. |
| TransportTrace.TakenDown | core/adb/transport.c:674-696 | Once neither thread works, four steps of each have it kicked once and closed once, and the main loop can free it. |
| Io.Readx | core/adb/transport.c:957-982 | All bytes asked for, in order, or failure; which of the two, how many bytes are consumed, and which calls are used follows exactly from how the calls go. |
| Io.Writex | core/adb/transport.c:984-1007 | All bytes, in order, or failure after a proper prefix; which of the two, how many bytes, and which calls are used follows exactly from how the calls go. |
| Io.ReadsWholeIff | core/adb/file_sync_client.c:221-241 | The pieces read from a file are a prefix of it, cut anywhere, and make up the whole file if and only if no read fails before the last byte is in. |
| Wire.CheckSum | core/adb/transport.c:196-203 | The loop computes the byte sum modulo 2^32. |
| Wire.SumBound | core/adb/transport.c:1024-1041 | For a payload of at most 4096 bytes that sum does not wrap. |
| Wire.RoundTrip | core/adb/transport.c:188-214 | Every packet that is sent passes both checks and decodes to itself, whatever follows it. |
| Wire.PacketLayout | core/adb/adb.h:47-54 | Command, arguments, length, byte sum and complemented command lie at bytes 0, 4, 8, 12, 16 and 20, low byte first, and the data at byte 24. |
| Wire.WordSays | core/adb/file_sync_service.h:32-34 | A word is its four bytes, low byte first. |
| Wire.OnlyEncodingsDecode | core/adb/transport.c:1009-1041 | Whatever passes the checks is the encoding of what it decodes to. |
| Wire.ChangedByteIsRefused | core/adb/transport.c:1024-1041 | A payload with any one byte changed is refused. |
| Wire.StreamRoundTrip | core/adb/transport.c:188-214 | Packets one after the other are received as they were, then whatever follows them. |
| Wire.PartDecodes | core/adb/transport.c:1009-1041 | A part of a packet's bytes with nothing behind it decodes to that packet or to nothing. |
| Wire.RemoteWrite | core/adb/transport_local.c:86-102 | Writes exactly the encoding, over any short writes, or fails after a part of it that follows from how the calls go. |
| Wire.RemoteRead | core/adb/transport_local.c:55-84 | Reads exactly one packet as the decoder specifies, over any short reads, or fails. |
| Wire.SendPackets | core/adb/transport.c:315-318 | What goes out when packets are sent one after the other and failures are not looked at: of each as much as its write took. |
| Wire.ReceivePackets | core/adb/transport.c:249-262 | What is received is what the decoder makes of the bytes, up to the first packet refused or a read that fails. |
| Wire.Transfer | core/adb/transport.c:249-318 | Both together, whatever the descriptors do; if no write fails for good the packets received are the first of those sent, and all if no read does. |
| Wire.SentUpToFailure | core/adb/transport.c:315-318 | The packets before the first failing write arrive as they were; then the receiver sees a proper part of the next one with what is sent later right behind it. |
| Wire.CutTakenIff | core/adb/transport.c:1009-1041 | A packet cut in its data is taken, with the bytes behind it in place of the missing ones, if and only if there are enough of them and they have the same byte sum. |
| Wire.CutTakenAs | core/adb/transport.c:1009-1041 | A packet cut anywhere, in its header or its data, is taken as q if and only if the bytes behind the cut are those with which the encoding of q goes on. |
| Wire.CutPacketIsTaken | core/adb/transport.c:315-318 | A packet cut behind its header, with any WRTE packet sent next, arrives with its two bytes of data exchanged. |
| FileSync.FramesParse | core/adb/file_sync_service.c:171-201 | However a file is cut into frames, either receiver puts the same pieces together and stops after DONE. |
| FileSync.ParseMore | core/adb/file_sync_service.c:171-201 | A stream that is complete stays so, with the same pieces and time, whatever follows it. |
| FileSync.WriteDataFile | core/adb/file_sync_client.c:210-245 | Exactly the pieces read, up to the first read that fails, are framed; of these frames goes out what the writes take, up to the first that fails; the result tells whether that was all, and not whether the file was read. |
| FileSync.WriteDataBuffer | core/adb/file_sync_client.c:247-270 | The same for a file in memory, cut into full frames and a last one that make it up. |
| FileSync.ParseFirst | core/adb/file_sync_service.c:171-201 | The pieces found in a part of a stream are the first of those found in all of it. |
| FileSync.HandleSendFile | core/adb/file_sync_service.c:151-222 | A complete upload is consumed to its end even after a local error, and answered once: OKAY with its bytes laid over what the file still held, or FAIL. Any other upload is given up; a file that is given up is gone, or, if it cannot be unlinked, holds what was written over what it held. If the connection fails, the file is left as if the stream had ended there, and the client has a part of the answer, never a whole OKAY. |
| FileSync.HalfFileRemains | core/adb/file_sync_service.c:195-199 | A write that fails after n bytes, and an unlink that fails then: FAIL, and a file with these bytes over what it held. |
| FileSync.DoRecv | core/adb/file_sync_service.c:317-355 | The file goes out in frames followed by DONE, or by FAIL when reading it fails; if the connection fails, a part of that. |
| FileSync.RecvData | core/adb/file_sync_client.c:459-527 | The receiving loop of a pull ends, with a return code and something at the local path, as the stream, the local file, its writes and the two unlinks determine; if the connection fails, as it does on the bytes that came. |
| FileSync.CutPullLeavesPart | core/adb/file_sync_client.c:477-503 | A stream that ends after whole frames: -1, and their bytes are left in the local file. |
| FileSync.RemoteErrorLooksLikeSuccess | core/adb/file_sync_client.c:510-527 | A FAIL instead of the file, or after any frames of it, gives the return code of success; what was made of the file, or was there before, is removed. |
| FileSync.HugeFrameRunsAway | core/adb/file_sync_client.c:484-493 | A frame above 65536 bytes is refused by the service; by the client only below 2^31, and beyond that it goes on to read it; an empty local file is left. |
| FileSync.IdsAreLetters | core/adb/file_sync_service.h:34-47 | Each message id, as it goes out, is the four letters of its name. |
| SyncSession.StatRoundTrip | core/adb/file_sync_service.c:56-74 | A STAT reply reads as what lstat reported. |
| SyncSession.StatLayout | core/adb/file_sync_service.h:55-60 | "STAT", mode, size and time lie at bytes 0, 4, 8 and 12. |
| SyncSession.SendPathOfName | core/adb/file_sync_service.c:280-282 | The service takes the path and mode of a SEND apart where the client joined them, commas in the path included. |
| SyncSession.NameAcceptedIff | core/adb/file_sync_service.c:373-377 | A request goes through if and only if its name has at most 1024 bytes; otherwise "invalid namelen" ends the session. |
| SyncSession.ReadRequest | core/adb/file_sync_service.c:366-382 | The next id and name are read exactly; names over 1024 bytes and short input end the session with their own FAIL. |
| SyncSession.DoList | core/adb/file_sync_service.c:76-127 | The entries that lstat knows and whose name fits go out in order, then DONE, or a part of that if the connection fails. |
| SyncSession.ServeOne | core/adb/file_sync_service.c:387-405 | Each kind of request consumes its own bytes and gets the answer of the path it names; if the connection fails, a part of that answer, and no OKAY. A SEND without a complete upload is answered and stored as its bytes say. |
| SyncSession.Serve | core/adb/file_sync_service.c:357-412 | Over a whole pipelined session the output is one answer per request, the k-th being that to the k-th request for the path it names, and nothing behind QUIT or a cut upload is read. Whatever the connection does, some first requests are served like that, and of the next answer the client gets a part, or of a FAIL in its place. |
| SyncClient.StartReadtimes | core/adb/file_sync_client.c:700-705 | All STAT requests go out in order, of any length. |
| SyncClient.FinishReadtimes | core/adb/file_sync_client.c:706-709 | All replies are read in order, or there is no result. |
| SyncClient.PipelinedStats | core/adb/file_sync_client.c:699-717 | With all requests sent before any reply is read, and whatever the connection does, any result gives for the k-th path what lstat says of it; over a connection that holds there is one exactly if no path exceeds 1024 bytes. |
| SyncPush.SendRequest | core/adb/file_sync_client.c:297-394 | What goes out of a push, byte for byte, given how each write goes: request, frames up to the first failure, and DONE behind it, the outcome of the frames not being looked at. |
| SyncPush.ReadReply | core/adb/file_sync_client.c:396-412 | The status decides the result: OKAY is success, all else is not. |
| SyncPush.CutUploadIff | core/adb/file_sync_service.c:171-201 | The service takes frames cut after any n bytes, with DONE behind the cut, for a complete upload if and only if the cut is between two frames; then it finds exactly the frames before it. |
| SyncPush.Push | core/adb/file_sync_client.c:297-420 | End to end, whatever the local file, the remote file, their descriptors and the connection do: success is reported, and a file kept, only if the service takes the name, request and DONE go out, the frames fail between two of them if at all, and the service keeps those that went out, laid over what the file still held; a file that stays though given up holds a part of what the service found; and success is reported exactly then over a connection that holds for service and reply. |
| SyncPush.HoldingIsClean | core/adb/file_sync_client.c:373-394 | Over a connection that holds all that was read locally goes out, and arrives exactly if the name is short enough. |
| SyncPush.WiredIff | core/adb/file_sync_client.c:210-245 | What went out is a first part of the local file, and all of it if and only if it was read whole and the connection took every frame. |
| SyncPush.PushedIff | core/adb/file_sync_client.c:297-420 | The remote file is the local one if and only if what went out is kept and either that is the whole local file and nothing longer was left behind, or what did not go out happens to be there already. |
| SyncPush.CutFileIsSuccess | core/adb/file_sync_client.c:228-233 | A read error after the first n bytes of the local file: OKAY, and the remote file has only those. |
| SyncPush.OldTailIsKept | core/adb/file_sync_service.c:162-164 | A longer file that could not be unlinked: OKAY, and its old tail is still there. |
| SyncPush.LostDataIsSuccess | core/adb/file_sync_client.c:379-394 | A connection that fails under any frame, outright, and recovers: the service keeps the upload, and the remote file ends before that frame. |
| SyncPush.SendRefusedIff | core/adb/file_sync_client.c:307-311 | The service refuses a path that the client let through if and only if path, comma and mode exceed 1024 bytes. |
| SyncPush.DecimalDenotes | core/adb/file_sync_client.c:310 | The mode behind the comma is in decimal digits that denote it, without a leading zero, which the service would read as octal. |
| SyncList.DentLayout | core/adb/file_sync_service.h:61-67 | "DENT", mode, size, time and length of the name lie at bytes 0, 4, 8, 12 and 16, and the name at byte 20. |
| SyncList.AnswerRead | core/adb/file_sync_service.c:76-127 | The loop of the client, run on an answer to LIST, gives in order the names of at most 256 bytes that lstat knows, each with its own mode, size and time, and then the end. |
| SyncList.PartRead | core/adb/file_sync_client.c:95-113 | Of a part of an answer it gives some first lines, and the end only if it is there. |
| SyncList.LongNameEnds | core/adb/file_sync_client.c:99-102 | A line with a name of more than 256 bytes ends the call with an error, below 2^31 bytes; from there on the client goes on to read it. |
| SyncList.ReadLines | core/adb/file_sync_client.c:95-117 | That loop over any short reads, or up to a read that fails. |
| SyncList.Ls | core/adb/file_sync_client.c:78-118 | End to end, whatever the connection does: the caller is told of some first names of the directory, of all of them if the call succeeds; over a connection that holds it succeeds if and only if the path has at most 1024 bytes. |
| SyncPull.RecvResult | core/adb/file_sync_service.c:317-355 | What the client makes of the whole answer to RECV, whatever follows it: return code and local file. |
| SyncPull.PullPart | core/adb/file_sync_client.c:477-508 | Any part of the answer, or of a FAIL in its place, leaves a file only with first bytes of the remote one, and is taken for done only with all of them. |
| SyncPull.PartialIff | core/adb/file_sync_client.c:459-503 | A pull that fails leaves a file of its own if and only if the head of the first answer came, the service had something to send, and the file could be made, but for a FAIL that is itself cut and an unlink that works. |
| SyncPull.Pull | core/adb/file_sync_client.c:441-528 | End to end with request and name: whatever the connection does, a file made at the local path has first bytes of the remote one, and all of them if the pull is done; over a connection that holds, return code and local file are exactly as the two file systems determine. |
| SyncPull.PulledWholeIff | core/adb/file_sync_client.c:441-508 | Service and client together leave the remote file in place, with the code of success, if and only if both files could be opened, read and written to the end. |
| Hex.PrintValue | core/cpio/mkbootfs.c:60-78 | A number printed in enough hexadecimal digits reads as itself. |
| Hex.Unhex | core/adb/sockets.c:539-567 | The accumulator loop computes the value modulo 2^32, or all ones exactly if some character is no digit. |
| Hex.DigitsAre | core/adb/sockets.c:546-562 | The sixteen digits are printed in lower case and read in either case; no other character is a digit. |
| SmartSocket.SmartSocket.Enqueue | core/adb/sockets.c:580-614 | Packets are gathered and judged as a whole; too many bytes fail. |
| SmartSocket.JudgePrefix | core/adb/sockets.c:598-612 | Every proper prefix of a request is waited on. |
| SmartSocket.JudgeWhole | core/adb/sockets.c:609-616 | A whole request is dispatched under exactly its name. |
| SmartSocket.FailsIff | core/adb/sockets.c:598-612 | A request fails if and only if its first four bytes are not a number from 1 to 1024 in hexadecimal; otherwise it is waited on exactly until it is complete. |
| SmartSocket.Feed | core/adb/sockets.c:569-616 | For every way to cut a request into packets, all but the last are waited on and the last dispatches exactly the name. |
| SmartSocket.FeedTwo | core/adb/sockets.c:657-661 | After a "transport" request a second request is decoded from the reused packet in the same way. |
| SmartSocket.SharedPacketIff | core/adb/sockets.c:657-661 | The second request survives if and only if none of it came in the packet of the first. |
| Cpio.FieldReads | core/cpio/mkbootfs.c:60-78 | Each of the thirteen header fields reads as the number it was printed from. |
| Cpio.HeaderLayout | core/cpio/mkbootfs.c:60-78 | A header is "070701" and thirteen numbers of eight hexadecimal digits: inode, mode, 0, 0, 1, 0, size, 0, 0, 0, 0, length of the name with its NUL, 0. |
| Cpio.RecordPads | core/cpio/mkbootfs.c:52-87 | What is not header, name or data of a record is zero. |
| Cpio.ArchiveEnds | core/cpio/mkbootfs.c:95-105 | Behind the trailer come fewer than 256 zeros, up to a multiple of 256. |
| Cpio.Int32Is | core/cpio/mkbootfs.c:38 | total_size is a 32-bit int congruent to the number of bytes emitted. |
| Cpio.ReadBack | core/cpio/mkbootfs.c:45-93 | A reader placed at any record returns its inode, mode, name and data, and its end. |
| Cpio.ArchiveReads | core/cpio/mkbootfs.c:95-105 | A newc reader run on the whole archive returns the entries before the first one called like the trailer, with consecutive inodes, headers and data on 4-byte boundaries, and the archive is a multiple of 256 bytes. |
| Cpio.RoundTripIff | core/cpio/mkbootfs.c:45-105 | The reader returns exactly the entries written if and only if none of them is called TRAILER!!!. |
| Cpio.Int32LowBits | core/cpio/mkbootfs.c:52-55 | The low bits of the wrapped int total_size are those of the true size, so the padding is right beyond 2^31 bytes too. |
| Cpio.Writer.Pad4 | core/cpio/mkbootfs.c:52-55 | The padding loop aligns to four bytes with the least number of zeros, whether or not total_size has wrapped. |
| Cpio.Writer.PadBlock | core/cpio/mkbootfs.c:101-104 | The same to 256 bytes. |
| Cpio.Writer.Eject | core/cpio/mkbootfs.c:45-93 | Emits the record of the entry; total_size stays the number of bytes emitted as a 32-bit int. |
| Cpio.Writer.EjectTrailer | core/cpio/mkbootfs.c:95-105 | The output is then the archive of the entries. |
| BootTree.SortIsUnique | core/cpio/mkbootfs.c:109-111 | Two sorted listings of the same distinct names are the same list, so any qsort gives the same order. |
| BootTree.SortSorts | core/cpio/mkbootfs.c:160 | The listing is sorted by strcmp. |
| BootTree.CanonSort | core/cpio/mkbootfs.c:136-160 | Dropping dot files and "root" and sorting gives the canonical listing. |
| BootTree.ListingOrderIsInvisible | core/cpio/mkbootfs.c:136-160 | The order in which readdir lists one directory cannot be seen in the archive. |
| BootTree.ShufflingIsInvisible | core/cpio/mkbootfs.c:113-182 | Nor can the orders of all directories of a tree at once, at every depth. |
| BootTree.LinkSurvivesIff | core/cpio/mkbootfs.c:217-221 | A reader of the archive gets the target of a link whole if and only if it has at most 1024 bytes; otherwise a prefix of it. |
| Bootfs.Collect | core/cpio/mkbootfs.c:136-158 | The readdir loop keeps exactly the names that are not dropped. |
| Bootfs.Descend | core/cpio/mkbootfs.c:162-174 | The path buffer holds the joined path as a C string of the new length, unless that goes beyond the buffer. |
| Bootfs.Restore | core/cpio/mkbootfs.c:176-177 | The path buffer holds the old path again. |
| Bootfs.ArchiveNode | core/cpio/mkbootfs.c:184-225 | Emits the entries at and below a node and leaves the path buffer as it was; fails exactly if some path below does not fit. BootLookup.ListedIsFound says what these entries are. |
| Bootfs.ArchiveDir | core/cpio/mkbootfs.c:113-182 | Emits what a directory holds, in canonical order whatever order it was listed in; fails exactly if some path below does not fit. |
| Bootfs.MakeBootfs | core/cpio/mkbootfs.c:227-261 | There is an output exactly if every path fits the buffer. A reader of it finds, for each argument, exactly one entry for every list of names, none of them a dot file or "root", that leads to a node of its tree, with the path of these names, the node's mode and its contents, in the order of the names, and no other entry; this if and only if no argument has something at the path TRAILER!!!. |
| Bootfs.BootfsReads | core/cpio/mkbootfs.c:227-261 | With modes and files of 32-bit sizes, a reader gets exactly the entries of the trees if and only if none is called like the trailer. |
| Bootfs.SourceFitsIff | core/cpio/mkbootfs.c:162-174 | An argument can be archived if and only if the path of everything that looking names up finds in it has fewer than 8192 bytes. |
| BootLookup.LeLess | core/cpio/mkbootfs.c:109-111 | The comparison that sorts is strcmp: at the first difference the smaller byte, or the end, comes first. |
| BootLookup.PathTellsNames | core/cpio/mkbootfs.c:162-174 | Names without '/' can be told from the path they are joined to. |
| BootLookup.ListedIsFound | core/cpio/mkbootfs.c:113-225 | For any tree with file names, what the walk emits is exactly what looking names up finds: for each list of names one entry, with its path, mode and contents (a link's first 1024 bytes), and every entry is such a one; a directory comes before what it holds, and names of one directory come in the order of strcmp. |
| BootLookup.EntriesAreFound | core/cpio/mkbootfs.c:242-257 | The same for all arguments, one after the other. |
| BootLookup.CalledIs | core/cpio/mkbootfs.c:242-257 | A path is in the archive as often as there are arguments that have something there. |
| BootLookup.ReadIsFoundIff | core/cpio/mkbootfs.c:227-261 | A reader finds all of that if and only if no argument has something at the path TRAILER!!!. |
| LogSplitter.ScanLines | vold/logwrapper.c:38-49 | The scan of the buffer logs and blanks as a byte-by-byte reading does. |
| LogSplitter.Chunk | vold/logwrapper.c:38-64 | One turn leaves the open line at the front of the buffer, always with room to read more. |
| LogSplitter.Parent | vold/logwrapper.c:29-71 | For every way the reads cut the stream up, what is logged is one function of the bytes consumed, and all are consumed unless a read fails. |
| LogSplitter.ScanSettles | vold/logwrapper.c:51-55 | Flushing a full buffer after the scan is the same as cutting the line at 4095 bytes while reading. |
| LogSplitter.LoggedByLine | vold/logwrapper.c:29-71 | That function is: each line, cut after every 4095 bytes, shown up to its first carriage return or NUL; and a last line if it is not empty. |
| LogSplitter.TextStops | vold/logwrapper.c:40-46 | What is shown of a piece are its bytes before the first carriage return or NUL. |
| LogSplitter.EveryStreamIsLines | vold/logwrapper.c:29-71 | Every byte stream is covered by that description. |
| LogSplitter.EmptyPieceIff | vold/logwrapper.c:51-55 | A line gives one piece for every 4095 bytes and one for the rest; for a plain line that last piece is empty if and only if the length is a multiple of 4095. |
| LogSplitter.FullLineIsDoubled | vold/logwrapper.c:51-55 | A line of exactly 4095 plain bytes is logged as itself and an empty line. |
| BootImage.MaskRounds | core/fastboot/bootimg.c:52-56 | For a power of two, adding and clearing the mask rounds up to whole pages. |
| BootImage.MaskRoundsIff | core/fastboot/bootimg.c:52-56 | It does so for every size if and only if the page size is a power of two. |
| BootImage.PiecesApart | core/fastboot/bootimg.c:58-82 | Header fields and sections do not overlap and lie inside the image, for pages that hold the header and are powers of two. |
| BootImage.MkBootimg | core/fastboot/bootimg.c:40-84 | For any sizes and page size, the image is the twelve writes into a zeroed buffer of the 32-bit size computed; there is none exactly if memory is refused, and a write goes beyond the buffer exactly if a piece ends behind it. |
| BootImage.SaneImage | core/fastboot/bootimg.c:58-82 | For pages that hold the header and are powers of two, and 32-bit totals, nothing goes beyond the buffer, every field and section is in its place, and all else is zero. |
| BootImage.ImageReadsBack | core/mkbootimg/bootimg.h:28-70 | A reader that knows only the header finds exactly the three sections. |
| BootImage.HeaderReads | core/fastboot/bootimg.c:60-75 | The header starts with ANDROID! and has the three sizes at bytes 8, 16 and 24, the base plus 0x8000, 0x01000000, 0x00f00000 and 0x100, less 2^32 if that wraps, at bytes 12, 20, 28 and 32, and the page size at byte 36. |
| BootImage.SectionsAligned | core/mkbootimg/bootimg.h:52-67 | Sections start on pages and are padded with zeros. |
| BootImage.OddPageFails | core/fastboot/bootimg.c:52-82 | For every page size that holds the header, leaves room for a section and is no power of two, an image with a kernel of one byte cannot be read back. |
| BootImage.SmallPageFails | core/fastboot/bootimg.c:58-75 | For every page size that does not hold the header fields, even an image without sections is written beyond its buffer. |
| BootImage.LayoutIff | core/fastboot/bootimg.c:40-84 | For every page size: all images of a 32-bit size can be read back if and only if the page holds the header fields and is a power of two, or is so large that no such image has sections. |
| Asec.SizedRight | vold/VolumeManager.cpp:327-332 | From 1 to 2047 megabytes nothing wraps in 32 bits and the image is the least multiple of 63 sectors that holds the data, both tables and two sectors. |
| Asec.SizedIff | vold/CommandListener.cpp:327 | Exactly zero is refused, and what is accepted gets enough room if and only if the size is positive. |
| Asec.OffsetFitsIff | vold/Loop.cpp:239 | With a signed 32-bit off_t the file can be made if and only if the size is at most 2016 megabytes. |
| Asec.Image.Create | vold/VolumeManager.cpp:294-398 | The superblock is written right behind the mapped sectors, at the end of the file; with a 32-bit off_t, creation succeeds exactly up to 2016 megabytes. |
| Asec.SuperblockLayout | vold/Asec.h:20-40 | A superblock is the magic 0xc0def00d, the version 1, the cipher and three zeros. |
| Asec.Image.MappedWrite | vold/VolumeManager.cpp:360 | Whatever is written through the mapping leaves the superblock as it is. |
| Asec.Image.Mount | vold/VolumeManager.cpp:731-759 | Mounting accepts exactly a recognised superblock in the last sector, below 2^31 bytes if off_t has 32 bits, and maps exactly what was mapped on creation. |

## Left out

- connection_state, CNXN and the banner: the streams are those of a transport that is online.
- Device and JDWP trackers, which enqueue without waiting for OKAY.
- Pairs of two local sockets, except in the socket lists: the stream theorems are about a local socket and its remote partner.
- Multiplex.StreamFidelity: the bytes written are those of the stream; an opener made by a smart socket also writes "OKAY" to its own descriptor on the first READY (core/adb/sockets.c:520-526), which is not part of them.
- The peer field of a closing socket: the code leaves it set (core/adb/sockets.c:218-243) although the comment at core/adb/sockets.c:53-56 says it has none; the model clears it.
- Endpoints.Endpoint.HandlePacket: like Endpoints.Endpoint.ConnectToRemote, is not tied to the two-process model for a socket created once the 2^32 ids are used up; what is on the list then is stated.
- Multiplex.RunKeepsInv: the packets between two processes are neither lost nor changed; Wire.CutTakenIff is about a transport whose writes fail.
- Memory that was freed is marked and not reused.
- "adb disconnect" (core/adb/transport.c:891-923), which drops a reference beyond those of the two threads.
- epoll, the Windows event loop, USB back ends, subprocesses and ptys.
- Pointer-size effects when the fd table grows (core/adb/fdevent.c:340): the new entries are empty, as on a 32-bit machine.
- Event flags are sets, not bit words; FDE_TIMEOUT is not used by the code.
- Bip waits are outcomes of a call and an argument of the next one, not suspended threads, so fairness between the two sides is not stated.
- Symbolic links in file sync, and what the service does with a mode: they would add members of the same kind as those proved. What a service finds in the file system is an argument, one answer for each request and path.
- A push leaves the connection open for later requests, which are not sent before the reply; the service sees the end of its input there.
- fix_stat and owner fields in mkbootfs: the mode of an entry is taken as fix_stat leaves it, the other fields are constants in the source.
- Bootfs.MakeBootfs: the path of the file being read (the `in` buffer) is not modelled, only the path that goes into the archive; a write beyond that buffer ends the model.
- bootimg_set_cmdline, the name and the id of a boot image: left zero by mkbootimg.
- Loop devices, device mapper, formatting and the rollback of failed steps of ASEC containers are system calls.
- The waiting for the child and its exit status in logwrapper.
- Everything else in vold, netd, dispd, bluetooth and debuggerd: system calls without a state of their own to reason about.
