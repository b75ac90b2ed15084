# A verified model of adb's stream layer and of the algorithms around it

This project models, in Dafny, the parts of Android's `system/core` whose correctness is hard to see
from any one function, and proves what they promise on all inputs and in all runs.

**The stream layer of adb** (`adb/sockets.cpp`, `adb/adb.cpp`). Two daemons multiplex byte streams
over one transport. Each end of a stream is a local socket with a file descriptor and a queue, and a
remote socket that turns calls into OPEN, OKAY, WRTE and CLSE packets.

- `Stream` has one end on values: every callback, with the event mask, the queue, the lists and the
  packets it sends.
- `TwoEnds`, `StreamCredit` and `StreamClosing` join two ends by first-in first-out channels. Descriptors
  block, hang up, fail and end whenever they like. The invariants hold in every run: no byte that went
  into a packet is lost or reordered, neither direction loses its right to send, and what closing does
  to bytes under way. `StreamReading` says which bytes that were read went into a packet, and
  `StreamEnding` that an end gets to know when the other is closed.
- `LocalPairs` has two local sockets that are each other's peers, in runs and on the objects.
- `Multiplex`, `MultiplexIds` and `MultiplexStreams` let any number of streams, opened from both ends,
  share the two channels, with the ids in the packets. `MultiplexRuns` takes the run of one stream out of
  a run of the whole: each stream runs as it would with the transport for itself, and what is proved of
  two ends holds of each.
- `Sockets` has the objects: peer links, the two socket lists, deletion. Its methods are proved to do
  what the functions of `Stream` say, and to keep the graph of links sound, for sockets without a peer
  and for peers of every kind: remote, local and smart.
- `Daemon` closes the gap between the two: a table of socket objects represents one side of the
  multiplexed network, and every handler takes exactly the step of that side. `DaemonRuns` drives two
  tables and two channels through any run of the network: they end where it ends, so what is proved of
  the network holds of the objects.

**Buffers and framing** (`adb/types.cpp`, `adb/types.h`, `adb/transport_fd.cpp`). `IoVector` is the chain
of blocks with lazy trimming, block stealing and four ways of flattening in place, proved to be a byte
sequence; `DropCount` is the 32-bit counter of `drop_front`, and `IoVectorRuns` takes the vector over
whole runs. `Packets`, `Framing` and `Connection` build the
nonblocking connection on it: partial writes and reads of any size, composed into a round trip.

**State machines of the same daemon.** `Reconnect` (the reconnect thread under every interleaving),
`Listeners` (listeners and disconnect callbacks), `WeakPtrs` (back-references), `Negotiation` (version and
payload limit), `Shell` (packets in fragments).

**Sequential algorithms.** `Utf8` (the console's streaming splitter, against section 4 of RFC 3629),
`BitErrors` (bootstat's tolerant matcher and corrector), `NetAddress` and `HostService` (parse and print),
and `FileTree`, `Newc`, `MkBootFs` and `BootArchive` (the cpio writer, against a reader of the format).

`Bytes`, `Text`, `Lists` and `Options` hold what the others share. Code that changes state step by step is a class
or a method with loops, proved against a function; the laws are lemmas about that function.

## Where the code does less than one would expect

Each of these is stated as an equivalence: it holds if and only if a condition holds that can be
checked beforehand. Beside each but the last there is a concrete run or input.

- `IOVector::drop_front` counts dropped bytes in 32 bits: right exactly if the whole blocks to be
  dropped add up to less than 2^32 bytes (`DropCount.DropFrontExact`, `IoVector.IOVector.DropFront`);
  otherwise it can drop too many (`DropCount.DropTooMuch`), but never too few.
- After a destructive `coalesce` of the last of several blocks, `trim_front` would index past the end
  (`IoVector.IOVector.CoalesceDestructive`, `IoVectorRuns.CoalesceThenTrim`).
- `NonblockingFdConnection::Run` hands over one packet per read: it keeps up exactly if each read
  completes at most one (`Framing.KeepsUpExactly`, `Framing.TwoInOneChunk`).
- `handle_packet` compares ids and, but for a CLSE from 0, no transports: a packet is taken by a stream of
  another transport if and only if the ids that its kind compares are those of the stream: both, or, for
  an OKAY or a CLSE from 0, only the socket's own while it has no peer (`Sockets.SocketTable.HandlePacket`, `Sockets.OtherTransport`).
- The `CHECK` in `DispatchWrites` after a poll fails if and only if some `Write` came in between and
  the last of them wrote everything (`Connection.PolledCheckExact`, `Connection.PolledCheckCanFail`).
- Bytes wait in the write buffer and no poll asks for POLLOUT, if and only if the last attempt to write
  them failed while the connection was writable (`Connection.BytesAreAskedFor`,
  `Connection.FailedWriteIsNotAskedFor`).
- fdevent delivers FDE_READ on a hang-up whether it was asked for or not. A stream then sends a second
  WRTE before the OKAY (`StreamCredit.CreditConservation`, `StreamCredit.OverdraftHappens`), and a socket
  that is closing is destroyed with bytes it never wrote (`StreamClosing.GracefulClose`,
  `StreamClosing.LossHappens`).
- A hang-up can also silence a pair of local sockets: one of them is not read any more although nothing
  waits at the other. Exactly which events do that is in `LocalPairs.PairTakesTurns`; a run is in
  `LocalPairs.PairFallsSilent`.
- What is read while a socket has no peer, before the first OKAY or on the closing list, goes into no
  packet: an end sends what it reads if and only if that never happens (`StreamReading.SentIsRead`,
  `StreamReading.DropHappens`).
- `ReconnectHandler::TrackTransport` forgets a transport that arrives after `Stop` began
  (`Reconnect.HandedOver`, `Reconnect.ForgottenTransport`).
- `install_listener` follows a null pointer when a listener is to be moved from or to no transport
  (`Listeners.Registry.Install`, `Listeners.NullTransport`).
- A transport's payload limit never rises again (`Negotiation.LimitNeverRises`,
  `Negotiation.LimitStaysLow`).
- `correctForBitError` can destroy an exact match: it stays if and only if the needle fits over itself
  at every shift at which a window overlaps it (`BitErrors.ExactSurvives`, `BitErrors.ExactCanBeLost`).
- `ParseNetAddress` does not read back what it printed if the port is out of range or the host has a
  NUL or, in brackets, "]:" (`NetAddress.CanonicalRoundTrip`, `NetAddress.HostWithClose`);
  `parse_host_service` does not split off a command behind a host in brackets that holds "]", or behind
  `tcp`, `udp` or `vsock` if the command begins like a port (`HostService.CanonicalThenCommand`,
  `HostService.TcpHostMisread`, `HostService.BracketHostRefused`).
- `parse_host_service` looks at the first character of an empty string exactly for "vsock:", "tcp:vsock:"
  and "udp:vsock:" (`HostService.ParseHostService`).
- An archive with an entry called `TRAILER!!!` at the top reads as if it ended there
  (`BootArchive.ArchiveRoundTrip`, `BootArchive.TrailerFileIsLost`); link targets are cut at 1024 bytes
  (`BootArchive.Listing`, `BootArchive.LongLinkIsCut`); inode numbers repeat after 2^32 entries (`BootArchive.InodesDistinct`).

Where code and documentation disagree, the model follows the code. `adb/protocol.txt` says that a READY
for an unknown stream is ignored; the code answers it with a CLOSE. It says that the recipient of a CLOSE
should not respond; the code sends a CLOSE of its own. The notes in `cpio/mkbootfs.c` say that directories
called "root" are ignored; the code ignores anything of that name. The comment on
`parse_host_service` lists four prefixes; the code has five.

## Model

| member | source | states |
|---|---|---|
| `IoVector.IOVector.constructor` | adb/types.h:143-143 | A new vector is valid and empty. |
| `IoVector.IOVector.View` | adb/types.h:257-263 | The bytes of a vector: the live blocks joined, without the first `begin_offset_` bytes; as many as `chain_length_` minus the offset. |
| `IoVector.IOVector.Size` | adb/types.h:169-169 | size() is the number of bytes of the view. |
| `IoVector.IOVector.Append` | adb/types.h:182-189 | Appending a block appends its bytes to the view; an empty block leaves the chain alone. |
| `IoVector.IOVector.Clear` | adb/types.cpp:29-39 | The view is empty afterwards, and the last block of the chain is handed back. |
| `IoVector.IOVector.MoveFrom` | adb/types.cpp:19-27 | The view moves over; the other vector is left valid and empty. |
| `IoVector.IOVector.TrimChainFront` | adb/types.cpp:131-136 | Dead blocks go, the view stays. |
| `IoVector.IOVector.PopFrontBlock` | adb/types.cpp:138-146 | The view loses exactly what was left of the front block. |
| `IoVector.IOVector.DropFront` | adb/types.cpp:41-63 | The view loses exactly its first len bytes, across any number of blocks and trims, if and only if the 32-bit count of whole blocks does not wrap; it never loses fewer. |
| `IoVector.IOVector.SmallDrop` | adb/types.cpp:41-63 | For up to 2^32 bytes the count does not wrap, whatever the blocks are. |
| `IoVector.IOVector.SplitFront` | adb/types.cpp:90-110 | The two ways of splitting the front block, copying its beginning or stealing it, both take exactly the first len bytes. |
| `IoVector.IOVector.MoveWholeBlocks` | adb/types.cpp:75-88 | Moving whole blocks transfers a prefix of the view and leaves less than one block to take. |
| `IoVector.IOVector.TakeFront` | adb/types.cpp:65-112 | The result holds the first len bytes and the vector the rest; both are valid. |
| `IoVector.IOVector.TrimFront` | adb/types.cpp:114-129 | The view stays while offset and start index become 0. |
| `IoVector.IOVector.IterateBlocks` | adb/types.h:200-218 | The pieces the callback sees, joined, are the view. |
| `IoVector.IOVector.Coalesce` | adb/types.h:222-238 | The const form copies exactly the view into one block. |
| `IoVector.IOVector.Coalesced` | adb/types.h:242-252 | The callback sees exactly the view, with and without a copy. |
| `IoVector.IOVector.Iovecs` | adb/types.cpp:193-204 | The iovecs, joined, are the view. |
| `IoVector.IOVector.CoalesceDestructive` | adb/types.cpp:148-191 | All four paths return exactly the old view and leave a valid vector; trim_front may be called on it afterwards if and only if it was not the lone last block behind dead ones. |
| `IoVector.IOVector.TakeFilledFirst` | adb/types.cpp:173-189 | Gathering into the spare capacity of the first block gives the view and stays inside that block's buffer. |
| `IoVector.IOVector.TakeLoneBlock` | adb/types.cpp:162-172 | The path for a single block gives the view, moved to the front of its own buffer. |
| `IoVectorRuns.Conservation` | adb/types.cpp:19-146 | Over any sequence of append, drop, take, trim, clear and move: the bytes that left, followed by the bytes that are there, are the bytes that were there followed by those appended. |
| `IoVectorRuns.Run` | adb/types.cpp:19-146 | The vector after any sequence of operations has the bytes that the same operations give on a plain sequence. |
| `DropCount.DropFrontExact` | adb/types.cpp:51-62 | drop_front with its 32-bit counter stops at the right byte if and only if the whole blocks before it add up to less than 2^32 bytes. |
| `DropCount.NeverTooFew` | adb/types.cpp:51-62 | Whatever the counter does, drop_front never drops too little. |
| `DropCount.DropTooMuch` | adb/types.cpp:51-62 | Three blocks and a length for which it drops 2^32 bytes too many. |
| `IoVectorRuns.CoalesceThenTrim` | adb/types.cpp:162-172 | There is a run after which a destructive coalesce leaves a vector on which trim_front must not be called. |
| `Packets.HeaderRoundTrip` | adb/types.h:123-130 | A header of six words reads back from its 24 bytes. |
| `Packets.ParseRoundTrip` | adb/types.h:123-130 | Any 24 bytes are the header they parse to. |
| `Packets.HeaderLayout` | adb/types.h:123-130 | Byte by byte: the six words in the order of the protocol, each with its least byte first. |
| `Packets.FirstPacketUnique` | adb/protocol.txt:27-38 | A byte stream begins with at most one packet: the encoding is prefix-free. |
| `Packets.PrefixOfPackets` | adb/protocol.txt:27-38 | If received packets and pending bytes make up an encoding, the packets are a prefix of those sent and the bytes encode the rest. |
| `Framing.OnReadExact` | adb/transport_fd.cpp:94-126 | One readable event: the packet handed over, encoded, and what stays pending are what was pending and the bytes read; a packet comes exactly if one is complete. |
| `Framing.ReceivedBytes` | adb/transport_fd.cpp:94-126 | After any reads, the packets handed over, the parsed header and the read buffer account for every byte received, in order. |
| `Framing.FramingRoundTrip` | adb/transport_fd.cpp:94-126 | However the bytes sent are cut into reads, the packets handed over are a prefix of the packets sent, header and payload intact. |
| `Framing.OnePerRead` | adb/transport_fd.cpp:108-125 | A read raises the number of packets handed over by one, up to the number complete: at most one per read. |
| `Framing.KeepsUpExactly` | adb/transport_fd.cpp:108-125 | No complete packet is ever left waiting, if and only if every read completes at most one. |
| `Framing.TwoInOneChunk` | adb/transport_fd.cpp:108-125 | Any two packets that arrive in one read: one is handed over, the other stays. |
| `Connection.NonblockingConnection.constructor` | adb/transport_fd.cpp:47-50 | A new connection has nothing read, nothing to write, and is writable. |
| `Connection.NonblockingConnection.DispatchWrites` | adb/transport_fd.cpp:176-200 | One writev of any length takes exactly that much off the write buffer; the connection is writable exactly if it could all be written, and the result says so. |
| `Connection.NonblockingConnection.Write` | adb/transport_fd.cpp:202-217 | The packet's encoding joins the buffer behind what is there, and one writev is tried. |
| `Connection.NonblockingConnection.OnReadable` | adb/transport_fd.cpp:94-126 | What the event loop does with the bytes of one read is the framing step above, on real IOVectors. |
| `Connection.DispatchConserves` | adb/transport_fd.cpp:176-200 | What writev took and what stays are what was there. |
| `Connection.RunKeepsInv` | adb/transport_fd.cpp:71-217 | Over every run of writes, partial dispatches and reads: received, on the wire and unwritten bytes are the encoding of the packets sent. |
| `Connection.LinkRoundTrip` | adb/transport_fd.cpp:71-217 | Sender and receiver composed: the packets received are a prefix of those sent, and all of them once nothing is under way or pending. |
| `Connection.PolledCheckExact` | adb/transport_fd.cpp:71-92 | After every run, failed writes and idle polls included: a poll asks for POLLOUT if and only if the connection is not writable; and from there to the dispatch, the buffer that the CHECK looks at is empty if and only if a Write came in between and the last one wrote everything. |
| `Connection.PolledCheckCanFail` | adb/transport_fd.cpp:176-178 | A run, without any failure, that dispatches an empty buffer: poll, then Write empties it, then the dispatch. |
| `Connection.DispatchResult` | adb/transport_fd.cpp:176-200 | A call is completed exactly if nothing is left, an error exactly if writev failed, and otherwise the connection is writable exactly if nothing is left. |
| `Connection.BytesAreAskedFor` | adb/transport_fd.cpp:71-74 | In every run: bytes wait and the next poll does not ask for POLLOUT, if and only if the last attempt to write since the connection was writable failed. |
| `Connection.PollsExactly` | adb/transport_fd.cpp:71-74 | In every run without a failed write, a poll asks for POLLOUT if and only if there are bytes to write. |
| `Connection.OneDispatchPerPoll` | adb/transport_fd.cpp:71-92 | In every run the loop dispatches at most once for each poll. |
| `Connection.FailedWriteIsNotAskedFor` | adb/transport_fd.cpp:202-217 | Any packet whose write fails at once: its bytes stay, and no poll asks for them. |
| `Stream.OnEventOk` | adb/sockets.cpp:351-386 | Every event keeps the mask in step with the queue: bytes wait without a write error exactly if FDE_WRITE is set; a socket on the closing list has it set, and a completed flush has a peer to acknowledge to. |
| `Stream.OnPacketOk` | adb/adb.cpp:407-488 | So does every packet, and a WRTE never destroys the socket it is for. |
| `Stream.DestroyedUnwritten` | adb/sockets.cpp:313-349 | An event destroys a socket with unwritten bytes and no write error, if and only if it is on the closing list and meets the end of the file before its queue is out. |
| `Stream.PacketDestroys` | adb/sockets.cpp:313-349 | A packet destroys a socket only if its queue is empty or a write failed. |
| `Stream.EventAccount` | adb/sockets.cpp:121-237 | An event writes and keeps exactly the queue, sends exactly what it read, and trades the right to send and the pending bytes for WRTE and OKAY one for one. |
| `Stream.PacketData` | adb/adb.cpp:407-488 | A packet adds its data to an open stream's queue and to nothing else; no packet is answered with data. |
| `Stream.PacketCredit` | adb/adb.cpp:428-488 | An OKAY gives the right to send, and a WRTE is acknowledged now or when its bytes are written. |
| `Stream.PairAccount` | adb/sockets.cpp:121-386 | Two local sockets that are peers: what each wrote and keeps is what waited there and what the other read; both masks stay right, and both close together. |
| `Stream.EventPuts` | adb/sockets.cpp:121-149 | As many bytes leave the queue as the descriptor took. |
| `LocalPairs.PairIsLossless` | adb/sockets.cpp:121-386 | In every run of a local pair, open, closing or gone: what was written at one and waits there is exactly what was read at the other. |
| `LocalPairs.PairTakesTurns` | adb/sockets.cpp:202-243 | In every run of a local pair, each socket is read exactly if nothing waits at the other, all along, if and only if no event reads with FDE_READ off what the other then writes whole or fails to write, and no stale FDE_WRITE finds what it cannot write. |
| `LocalPairs.PairFallsSilent` | adb/fdevent/fdevent_epoll.cpp:149-153 | A hang-up gives a run after which a socket is not read and nothing waits at its peer. |
| `LocalPairs.Drive` | adb/sockets.cpp:351-386 | The socket objects of a pair go through any run of it and end where it ends. |
| `TwoEnds.CreditStep` | adb/sockets.cpp:202-243 | A right to send appears only when an end reads without having one, and disappears only where there were two. |
| `TwoEnds.RunInv` | adb/sockets.cpp:121-457 | Handshake, order of the packets, byte flow, closing and rights to send fit together in every reachable state. |
| `TwoEnds.LosslessDelivery` | adb/sockets.cpp:121-237 | In every run, whoever closes when: what an end wrote is a prefix of what the other sent in packets, and until it leaves the list, written, queued and under way are exactly what was sent. |
| `TwoEnds.NeverStuck` | adb/sockets.cpp:239-243 | In every run, while the stream is up, neither direction is without its right to send, so the ends never wait for each other. |
| `StreamCredit.ConservedStep` | adb/sockets.cpp:202-243 | A step keeps exactly one right per direction if and only if it is not a read without one. |
| `StreamCredit.CreditConservation` | adb/sockets.cpp:446-457 | In every run, each direction has exactly one of FDE_READ on, a WRTE under way, unacknowledged bytes, an OKAY under way, at every moment, if and only if no read event comes to an end with FDE_READ off and bytes to read. |
| `StreamCredit.OverdraftHappens` | adb/fdevent/fdevent_epoll.cpp:149-153 | For every payload limit, a hang-up behind a full payload gives a run with two WRTE under way at once. |
| `StreamClosing.GracefulRun` | adb/sockets.cpp:313-349 | Once the receiver is closed, what it wrote and still holds is all that was sent, in every run in which it does not close first. |
| `StreamClosing.GracefulClose` | adb/sockets.cpp:313-349 | The sender closes at any time: when the receiver's socket is destroyed every byte sent has been written, if and only if it got no read event at the end of the file while bytes waited on the closing list. |
| `StreamClosing.LossHappens` | adb/fdevent/fdevent_epoll.cpp:149-153 | A hang-up gives a run that loses a byte although nothing failed. |
| `StreamReading.SentIsRead` | adb/sockets.cpp:181-187 | In every run, an end has sent exactly the bytes it read, if and only if it never read any without a peer: before the OKAY to its OPEN, or on the closing list. |
| `StreamReading.ReadIsDelivered` | adb/sockets.cpp:121-237 | Then, from descriptor to descriptor: what the other end wrote is a prefix of what this one read, and written, queued and under way are exactly that. |
| `StreamReading.DropHappens` | adb/sockets.cpp:181-187 | A run in which a byte read before the OKAY goes into no packet. |
| `StreamEnding.ClosesTogether` | adb/sockets.cpp:313-349 | In every run, whoever closes when: once nothing is under way, the stream is closed at both ends or open at both. |
| `MultiplexIds.RightSocket` | adb/sockets.cpp:63-78 | A packet finds the socket of its own stream, at either end: ids and peers match. |
| `MultiplexIds.TakenIds` | adb/adb.cpp:428-488 | Handling a packet keeps all ids of sockets, peers and packets under way consistent. |
| `MultiplexIds.OpenIds` | adb/adb.cpp:407-426 | So does accepting or refusing a stream. |
| `MultiplexIds.FdIds` | adb/sockets.cpp:430-481 | So does whatever a socket sends of its own. |
| `MultiplexStreams.OpenerFollows` | adb/adb.cpp:407-488 | A step of an end is, for each stream it opened, one step of that stream alone or none. |
| `MultiplexStreams.AcceptorFollows` | adb/adb.cpp:407-488 | The same for each stream that the other end opened. |
| `MultiplexStreams.StreamsAreIndependent` | adb/sockets.cpp:63-91 | In every run with any number of streams opened from both ends, each stream is in a state it could reach with the transport for itself. |
| `MultiplexRuns.EachStreamRuns` | adb/sockets.cpp:63-91 | The steps that a stream takes in a run of the whole, whichever end opened it, are a run of that stream alone, to the state that the whole shows of it. |
| `MultiplexRuns.EachStreamIsLossless` | adb/sockets.cpp:121-237 | So each stream delivers what it sent to its own other end, in order and without loss, and is never stuck. |
| `MultiplexRuns.EachStreamSendsWhatItReads` | adb/sockets.cpp:181-187 | So each end of each stream has sent exactly what it read, if and only if it read nothing without a peer. |
| `MultiplexRuns.EachStreamConservesCredit` | adb/sockets.cpp:202-243 | So each stream has one right per direction at every moment, if and only if none of its steps overdraws. |
| `MultiplexRuns.EachStreamClosesGracefully` | adb/sockets.cpp:313-349 | So a stream whose receiver is gone has written every byte sent to it, in either direction, if and only if none of its steps lost any. |
| `MultiplexRuns.EachStreamClosesTogether` | adb/adb.cpp:428-475 | So each stream with none of its packets under way is closed at both ends or open at both. |
| `Sockets.SocketTable.constructor` | adb/sockets.cpp:49-58 | An empty table is valid. |
| `Sockets.SocketTable.FindLocalSocket` | adb/sockets.cpp:63-78 | Finds the socket with both ids, or with the one if no peer id is given; null only if there is none. |
| `Sockets.SocketTable.CreateLocalSocket` | adb/sockets.cpp:80-91 | A new socket gets an id that no other has, and joins the list. |
| `Sockets.SocketTable.LocalSocketDestroy` | adb/sockets.cpp:297-311 | Only the socket itself is freed, and no list or link still has it. |
| `Sockets.SocketTable.FinishClose` | adb/sockets.cpp:330-349 | Destroys the socket, or moves it to the closing list if bytes wait; the CHECK for FDE_WRITE there holds. |
| `Sockets.SocketTable.ClosePeer` | adb/sockets.cpp:325-327 | The peer is closed, and the socket is left without a link to it and without anyone whose peer it is. |
| `Sockets.SocketTable.ShutDownPeer` | adb/sockets.cpp:316-328 | The same for a local socket, with the shutdown before it: one CLSE with the ids of both ends to a remote peer, and none to another. |
| `Sockets.SocketTable.LocalSocketClose` | adb/sockets.cpp:313-349 | Closing frees at most the socket and its peer, each once; links stay mutual, none leads to a freed socket, and the socket leaves the list. |
| `Sockets.SocketTable.OtherSocketClose` | adb/sockets.cpp:471-481 | Closing a remote or smart socket closes its peer as well, once, and frees it. |
| `Sockets.SocketTable.CloseAllSockets` | adb/sockets.cpp:101-113 | Terminates although each close changes the list, leaves no socket that is bound to the transport, and touches no other. |
| `Sockets.SocketTable.FlushIncoming` | adb/sockets.cpp:121-149 | Whatever the peer is, the object does what the function on values says, and keeps the table valid. |
| `Sockets.SocketTable.Enqueue` | adb/sockets.cpp:221-237 | Data joins the queue behind what waits, and the result tells destroyed, to be acknowledged later, or now. |
| `Sockets.SocketTable.FlushOutgoing` | adb/sockets.cpp:181-219 | With a remote peer or none: sends what was read as one WRTE with the ids of both ends, turns reading off, and closes at the end of the file. |
| `Sockets.ReadLoop` | adb/sockets.cpp:152-179 | The loop reads all there is, in order, until the descriptor blocks or ends or the payload is full; the end is met only with room left. |
| `Sockets.AvailableMeans` | adb/sockets.cpp:152-179 | Without the loop: the bytes of the reads in front of the first that brings none, or until the payload is full; an end exactly if there is room left and that read met one. |
| `Sockets.SocketTable.StreamEvent` | adb/sockets.cpp:351-386 | A whole event on a socket with a remote peer or none is the event on values: same socket, same packets with the right ids, valid table. |
| `Sockets.SocketTable.PairRead` | adb/sockets.cpp:181-219 | With a local peer, what was read goes to its queue; the peer blocks the reader or not, and at the end of the file both close. |
| `Sockets.SocketTable.PairWrite` | adb/sockets.cpp:359-370 | A completed flush turns the local peer's reading on again. |
| `Sockets.SocketTable.PairEvent` | adb/sockets.cpp:351-386 | A whole event on a local pair is the event on two values, also if the mask changed since the event was collected; nothing is sent, no third socket is touched. |
| `Sockets.SocketTable.SmartRead` | adb/sockets.cpp:181-219 | With a smart peer, each answer of its enqueue leaves a valid table: wait, stuck, both closed, or the smart socket cut out and replaced; an OPEN is sent exactly if the answer is a remote service. |
| `Sockets.SocketTable.EventFunc` | adb/sockets.cpp:351-386 | The event function for any local socket, without a peer or with a remote, local or smart one: the table stays valid, only the socket, its peer and the service it is joined to may go, and socket, peer and packets are as the functions on values say. |
| `Sockets.SocketTable.HandleOpen` | adb/adb.cpp:407-426 | An OPEN makes a linked pair and one OKAY, or one CLSE with id 0, or nothing if it is malformed. |
| `Sockets.SocketTable.HandleOkay` | adb/adb.cpp:428-451 | An OKAY completes or continues the stream it names, is ignored if it comes from another peer, and is answered with a CLSE if the socket is gone. |
| `Sockets.SocketTable.HandleClose` | adb/adb.cpp:453-475 | Closes exactly the socket whose ids match, or, if the sender is 0, whose id does and which has no peer or one on the same transport; frees and touches nothing else, and sends one CLSE to a remote peer. |
| `Sockets.SocketTable.HandleWrite` | adb/adb.cpp:477-488 | The data reaches exactly the socket whose two ids match, one OKAY goes back if it was written, and no other socket changes. |
| `Sockets.SocketTable.HandlePacket` | adb/adb.cpp:407-488 | In a table with any number of transports: a packet reaches a socket of another one if and only if such a socket is listed with the ids that the packet's kind compares; otherwise all of them are as before. |
| `Sockets.OtherTransport` | adb/adb.cpp:477-488 | A stream of one transport takes a WRTE with its ids that comes on another. |
| `Sockets.SocketTable.ConnectToRemote` | adb/sockets.cpp:503-521 | The socket gets its transport, and one OPEN with its id goes out on it. |
| `Sockets.SocketTable.ConnectToSmart` | adb/sockets.cpp:918-924 | The pair with the smart socket is linked both ways. |
| `Sockets.SocketTable.DetachSmart` | adb/sockets.cpp:866-881 | The smart socket is freed, and its local socket is left without a peer and without anyone whose peer it is. |
| `Sockets.SocketTable.SmartToRemote` | adb/sockets.cpp:866-881 | The smart socket is cut out and freed; its local socket has the transport, has sent one OPEN there, and waits for the OKAY of the remote end. |
| `Sockets.SocketTable.SmartToService` | adb/sockets.cpp:829-843 | The smart socket is cut out and freed; its two neighbours are linked to each other. |
| `Daemon.Start` | adb/sockets.cpp:49-58 | A new table represents a side without streams. |
| `Daemon.Finds` | adb/sockets.cpp:63-78 | The search over the list finds a socket exactly if the side has an open one with these two ids. |
| `Daemon.FindsListed` | adb/sockets.cpp:63-78 | The list has a socket of that id exactly if the side has one that is connecting or open. |
| `Daemon.Connect` | adb/adb_listeners.cpp:92-108 | A new socket, its transport and its OPEN are the step of the side that opens a stream. |
| `Daemon.OnEventOf` | adb/sockets.cpp:351-386 | An event on the objects is the step of the side: same records, same packets with the same ids. |
| `Daemon.AcceptOrRefuse` | adb/adb.cpp:407-426 | Handling an OPEN is the step of the side. |
| `Daemon.Okay` | adb/adb.cpp:428-451 | Handling an OKAY is the step of the side, in each of its four cases. |
| `Daemon.Close` | adb/adb.cpp:453-475 | Handling a CLSE is the step of the side. |
| `Daemon.Write` | adb/adb.cpp:477-488 | Handling a WRTE is the step of the side. |
| `Daemon.HandlePacket` | adb/adb.cpp:342-492 | Whatever packet arrives, the table of objects takes the step of the side it represents and sends its packets: the objects refine the network. |
| `DaemonRuns.TakeStep` | adb/sockets.cpp:351-521 | Whatever a daemon does next, it takes off its channel, puts on the other and becomes what the network says, and allocates only what is new. |
| `DaemonRuns.Drive` | adb/adb.cpp:342-492 | Two daemons on the objects, from empty tables through any run of the network: both tables and both channels end as the network does. |
| `DaemonRuns.ObjectsDeliver` | adb/sockets.cpp:121-243 | After any run, for any two sockets that are the ends of one open stream: written, in the queue of the object and under way are exactly what the other sent, and each direction has its right to send. |
| `Utf8.CodepointLenTable` | adb/sysdeps_win32.cpp:2433-2435 | The bit expression gives 1, 2, 3 or 4 by the range of the lead byte. |
| `Utf8.ParseCompleteUTF8` | adb/sysdeps_win32.cpp:2442-2478 | The backward loop cuts where the specification does, and appends the rest to the carry. |
| `Utf8.SplitExact` | adb/sysdeps_win32.cpp:2442-2478 | It cuts exactly at the lead byte whose sequence the buffer does not complete, if there is one. |
| `Utf8.CarryAtMostThree` | adb/sysdeps_win32.cpp:2442-2478 | At most three bytes are carried over. |
| `Utf8.CarryOfCarry` | adb/sysdeps_win32.cpp:2487-2517 | Cutting piece by piece carries the same bytes as cutting the whole at once. |
| `Utf8.Console.Write` | adb/sysdeps_win32.cpp:2487-2517 | One write emits the complete part of carry and buffer together, and keeps the rest. |
| `Utf8.WriteAll` | adb/sysdeps_win32.cpp:2487-2517 | Any number of writes on the object is the run on values. |
| `Utf8.StreamingSplit` | adb/sysdeps_win32.cpp:2487-2517 | After any writes, chunks and carry are the input; the carry has at most three bytes and depends only on the whole input. |
| `Utf8.StreamingWellFormed` | adb/sysdeps_win32.cpp:2487-2517 | If the input is a prefix of well-formed UTF-8, cut anywhere, every chunk emitted is well-formed and the carry is a proper prefix of one sequence. |
| `BitErrors.NoErrorIffEqual` | bootstat/bootstat.cpp:556-556 | Two bytes have no error exactly if they are equal. |
| `BitErrors.CountsBits` | bootstat/bootstat.cpp:556-556 | Zero has no bits, and each further bit that is set counts one. |
| `BitErrors.FlippedBit` | bootstat/bootstat.cpp:556-556 | Each further bit in which two bytes differ is one more error. |
| `BitErrors.BoundTable` | bootstat/bootstat.cpp:578-585 | The threshold expression in closed form for every length. |
| `BitErrors.WithinMeans` | bootstat/bootstat.cpp:568-588 | The early exits of the backward loop mean: no byte differs in more than two bits, and no suffix in more bits than its bound. |
| `BitErrors.CountErrors` | bootstat/bootstat.cpp:568-588 | Answers exactly for tolerated windows, with the number of differing bits. |
| `BitErrors.Find` | bootstat/bootstat.cpp:615-624 | The first tolerated window from the start on, and none only if there is none. |
| `BitErrors.RFind` | bootstat/bootstat.cpp:597-612 | The last exact window if there is any, else the last tolerated one. |
| `BitErrors.CorrectForBitError` | bootstat/bootstat.cpp:631-647 | Terminates, gives the overlay of the greedy windows of the original, and returns true exactly if the string changed. |
| `BitErrors.CorrectionMeans` | bootstat/bootstat.cpp:631-647 | Length is kept; the string changes only in disjoint windows, each tolerated before and equal to the needle afterwards. |
| `BitErrors.ExactSurvives` | bootstat/bootstat.cpp:640-644 | An exact match stays exact if and only if the needle agrees with itself, shifted by the distance, for every window that overlaps the match. |
| `BitErrors.FirstExactSurvives` | bootstat/bootstat.cpp:640-644 | So it stays if no tolerated match begins before it and overlaps it. |
| `BitErrors.ExactCanBeLost` | bootstat/bootstat.cpp:640-644 | An input whose exact match the correction destroys. |
| `NetAddress.HostShape` | base/parsenetaddress.cpp:36-57 | A host outside brackets has no colon and does not begin with a bracket. |
| `NetAddress.NoPortGiven` | base/parsenetaddress.cpp:36-57 | Without a port, all of a plain address is the host and the caller's port stays, unless it has eight colons or more, or dots beside several colons, which is refused. |
| `NetAddress.PortGiven` | base/parsenetaddress.cpp:49-76 | With one colon, the host is in front of it and the port is the number behind; refused without a host or without a valid port. |
| `NetAddress.CanonicalRoundTrip` | base/parsenetaddress.cpp:27-79 | Parsing the canonical form again gives the same host, kind and port, if and only if the port is 1 to 65535, the host has no NUL, and in brackets no "]:". |
| `NetAddress.HostWithClose` | base/parsenetaddress.cpp:36-57 | An address that parses, and whose canonical form does not parse back. |
| `HostService.ParseHostService` | adb/sockets.cpp:595-713 | Every success splits the input into serial, colon and nonempty command, at the place that the rules for prefix, protocol, address and port give; the first character of an empty rest is looked at for exactly three inputs. |
| `HostService.ProtocolIsSkipped` | adb/sockets.cpp:643-657 | A protocol in front of any serial without one, in brackets or not, moves the command by its length and changes nothing else. |
| `HostService.PrefixedSerial` | adb/sockets.cpp:623-641 | Behind each of the five prefixes the serial ends at its first colon. |
| `HostService.SerialAlone` | adb/sockets.cpp:683-712 | A plain serial without a port ends at its colon, if and only if the command does not begin like a port. |
| `HostService.UnclosedSerial` | adb/sockets.cpp:659-690 | A serial whose bracket is never closed is a plain one. |
| `HostService.CanonicalThenCommand` | adb/sockets.cpp:595-713 | A canonical address, a colon and any command are split exactly there, if and only if a host in brackets has no "]", and otherwise the host is not tcp, udp or vsock with a command that begins like a port. |
| `HostService.TcpHostMisread` | adb/sockets.cpp:642-656 | The host tcp with a port, and a command that begins with a digit, are not split at the command. |
| `HostService.BracketHostRefused` | adb/sockets.cpp:660-670 | A host in brackets with "]" in it is not split at the command. |
| `Text.ScanPrint` | base/parsenetaddress.cpp:64-76 | A printed number scans back to itself. |
| `Text.ScanMeans` | base/parsenetaddress.cpp:64-76 | White space, a sign and digits are read as the number, whatever is behind. |
| `Reconnect.Conservation` | adb/transport.cpp:113-257 | Under every interleaving each transport's log obeys the rules (250 ms, then 10 s, at most seven tries, one report), and a transport is in the queue or in hand exactly if it was tracked and not yet reported, and in one place only. |
| `Reconnect.NothingLeft` | adb/transport.cpp:146-162 | After Stop has drained the queue, every accepted transport has been reported. |
| `Reconnect.StopsThenDrains` | adb/transport.cpp:146-196 | Once Stop has begun, the thread returns when it next wakes up and touches nothing, and the drain that follows reports all that is left. |
| `Reconnect.AtMostSeven` | adb/transport.cpp:228-244 | At most seven calls of Reconnect per tracking, over any run. |
| `Reconnect.HandedOver` | adb/transport.cpp:164-175 | A transport is accepted if and only if Stop has not begun. |
| `Reconnect.OutcomeDecides` | adb/transport.cpp:228-255 | In every reachable state with a transport in hand: Success registers it, Abort removes it, Retry removes it after seven tries and before that puts it back, once and due in 10 s; nothing else changes. |
| `Reconnect.ReportsMatchOutcomes` | adb/transport.cpp:146-255 | In every run a transport is registered as often as a call for it succeeds, and removed as often as it is given up, kicked or drained. |
| `Reconnect.TakesIfDue` | adb/transport.cpp:198-225 | An attempt is taken if and only if the handler runs and one is due that was not kicked. |
| `Reconnect.ForgottenTransport` | adb/transport.cpp:164-175 | Tracked after Stop began: the transport is in no place and is never reported. |
| `Reconnect.TakesEarliest` | adb/transport.cpp:198-225 | The attempt taken is due, was not kicked, and is before all that remain. |
| `Reconnect.ReconnectHandler.constructor` | adb/transport.cpp:131-136 | The handler starts in the first state of the runs. |
| `Reconnect.ReconnectHandler.TrackTransport` | adb/transport.cpp:164-175 | The object takes the step that the runs take. |
| `Reconnect.ReconnectHandler.WakeUp` | adb/transport.cpp:181-225 | The scan that erases while it iterates, and taking the first attempt, are the step that the runs take. |
| `Reconnect.ReconnectHandler.Finish` | adb/transport.cpp:228-255 | Retry, give up, register: the step that the runs take. |
| `Reconnect.ReconnectHandler.DrainQueue` | adb/transport.cpp:155-161 | Every transport left is removed, in order. |
| `Listeners.Registry.constructor` | adb/adb_listeners.cpp:70-74 | No listeners, no callbacks: valid. |
| `Listeners.Registry.Erase` | adb/adb_listeners.cpp:61-68 | Destroying a listener takes exactly its own callback off its transport. |
| `Listeners.Registry.Install` | adb/adb_listeners.cpp:175-237 | New, rebound, refused or not bound: which of these, exactly; every listener with a transport is on that transport's list, once, and on no other; others are untouched; a null pointer is followed if and only if the listener would move from or to no transport. |
| `Listeners.NullTransport` | adb/adb_listeners.cpp:175-237 | A registry and an install that follows a null pointer. |
| `Listeners.Registry.RemoveListener` | adb/adb_listeners.cpp:142-152 | The first listener of that name goes, if there is one, and nothing else. |
| `Listeners.Registry.RemoveAllListeners` | adb/adb_listeners.cpp:154-165 | Exactly the smart sockets stay, in their order. |
| `Listeners.Registry.ListenerDisconnect` | adb/adb_listeners.cpp:112-121 | The listener goes without touching any list of callbacks. |
| `Listeners.Registry.RunDisconnects` | adb/transport.cpp:1229-1234 | Exactly that transport's listeners go, the rest keep their order, other callbacks run once each, and the list being run is not changed meanwhile. |
| `WeakPtrs.StdRemove` | adb/types.h:321-324 | The loop of std::remove brings exactly the other pointers to the front, in order. |
| `WeakPtrs.EraseRemove` | adb/types.h:321-324 | The single-iterator erase of std::remove takes out exactly the pointer, as it occurs once. |
| `WeakPtrs.Memory.Reset` | adb/types.h:314-330 | Keeps: a weak pointer refers to an object exactly if it is on the object's list, once, and to no dead object. |
| `WeakPtrs.Memory.Make` | adb/types.h:279-281 | So does construction. |
| `WeakPtrs.Memory.Copy` | adb/types.h:281-281 | So does copying; both refer to the same object. |
| `WeakPtrs.Memory.MoveFrom` | adb/types.h:283-286 | So does moving: the new pointer refers to the object, the old one to none. |
| `WeakPtrs.Memory.CopyAssign` | adb/types.h:290-297 | So does copy assignment, also to itself. |
| `WeakPtrs.Memory.MoveAssign` | adb/types.h:299-307 | So does move assignment; the source becomes null unless it is the target. |
| `WeakPtrs.Memory.Destroy` | adb/types.h:288-288 | So does the end of a weak pointer. |
| `WeakPtrs.Memory.Create` | adb/types.h:355-357 | A new object has no weak pointers yet. |
| `WeakPtrs.Memory.Delete` | adb/types.h:338-347 | When an object goes, exactly the pointers to it become null. |
| `Shell.PiecesExact` | adb/shell_protocol.h:74-81 | The pieces of a packet, joined, are its data, and there are max(1, ceil(length / capacity)) of them. |
| `Shell.WireLayout` | adb/shell_protocol.h:74-81 | Byte by byte: id, length with the least byte first, data. |
| `Shell.ShellRoundTrip` | adb/shell_service_protocol.cpp:32-62 | For any packets written and any capacity of at least one byte, successive reads return exactly the pieces, each with its packet's id, and stop at the right byte. |
| `Shell.NoCapacity` | adb/shell_service_protocol.cpp:45-51 | Without capacity a packet is never finished: any number of reads succeed, each with nothing, and leave all of it to read. |
| `Shell.ShellProtocol.constructor` | adb/shell_service_protocol.cpp:25-27 | The buffer starts with the invalid id and no packet is under way. |
| `Shell.ShellProtocol.ReadFragment` | adb/shell_service_protocol.cpp:32-54 | Read on the buffer is the read above: the fragment is in the buffer behind the id, which stays. |
| `Shell.ShellProtocol.WritePacket` | adb/shell_service_protocol.cpp:56-62 | Exactly the packet goes out, and the data in the buffer stays. |
| `Negotiation.Agreement` | adb/adb.cpp:232-340 | After the exchange both ends hold the same limits, the version the lesser of the two; the payload is the lesser if and only if the transport's own limit was not below it already. |
| `Negotiation.LimitNeverRises` | adb/transport.cpp:1155-1158 | After any series of connections a transport's payload limit is the least it ever met. |
| `Negotiation.LimitStaysLow` | adb/transport.cpp:1155-1158 | A peer with a limit of 4096 and then one with a megabyte: the limit stays 4096. |
| `Negotiation.WritesPass` | adb/transport.cpp:1490-1504 | After any series of connections, a WRTE passes the other end's check if and only if a socket may make one of that size. |
| `Negotiation.PassesExactly` | adb/transport.cpp:1490-1504 | A header passes if and only if each bit of its magic is the opposite of that of its command, and its length is within the limit. |
| `Negotiation.UpdatedMeans` | adb/transport.cpp:1155-1158 | The lesser of both limits and of both versions is kept; a version of 2^31 or more counts as negative. |
| `Negotiation.Transport.constructor` | adb/transport.h:253-264 | A new transport has the lowest version and its build's payload limit. |
| `Negotiation.Transport.SendConnect` | adb/adb.cpp:232-254 | The CNXN carries the build's version but the transport's limit. |
| `Negotiation.Transport.UpdateVersion` | adb/transport.cpp:1155-1158 | The version is taken as a signed number, the limit stays within the build's. |
| `Negotiation.Transport.CheckHeader` | adb/transport.cpp:1490-1504 | Passes exactly if the magic fits and the length is within the limit. |
| `FileTree.SortIncreasing` | cpio/mkbootfs.c:155-157 | Names without duplicates come out strictly increasing under strcmp. |
| `FileTree.BeforeMeans` | cpio/mkbootfs.c:155-157 | The order is that of the first byte in which two names differ, where the end of a name is least. |
| `FileTree.WalkOrdered` | cpio/mkbootfs.c:206-230 | The walk is strictly increasing: a directory before what is in it, siblings by name, nothing twice. |
| `FileTree.WalkVisits` | cpio/mkbootfs.c:181-230 | The walk visits exactly what can be reached. |
| `FileTree.ResolveMeans` | cpio/mkbootfs.c:181-204 | What can be reached is what names lead to, entry by entry, of which none begins with a dot or is "root". |
| `Newc.HexRoundTrip` | cpio/mkbootfs.c:106-124 | A number reads back from its fixed number of hexadecimal digits. |
| `Newc.HeaderSays` | cpio/mkbootfs.c:106-124 | Each of the 13 fields of a header, by its place: ino, mode, filesize and namesize of the entry, nlink 1, the others 0. |
| `Newc.EmitLayout` | cpio/mkbootfs.c:91-139 | Header and data begin at multiples of 4, and only zeros are between the parts. |
| `Newc.ReadEmitted` | cpio/mkbootfs.c:91-139 | An entry is read back from wherever it was written, whatever follows. |
| `Newc.ReadWritten` | cpio/mkbootfs.c:91-151 | Reading a written archive gives the entries up to the first that is called like the trailer. |
| `MkBootFs.Archiver.constructor` | cpio/mkbootfs.c:56-57 | Nothing is written, and inodes start at 300000. |
| `MkBootFs.Archiver.Pad` | cpio/mkbootfs.c:98-101 | The loop writes exactly the zeros up to the next multiple. |
| `MkBootFs.Archiver.PathLength` | cpio/mkbootfs.c:128-128 | strlen of the path buffer is the length announced, so the check for it never stops the program. |
| `MkBootFs.Archiver.Eject` | cpio/mkbootfs.c:91-139 | Writes exactly one entry of the format, with the path in the buffer and the next inode. |
| `MkBootFs.Archiver.EjectTrailer` | cpio/mkbootfs.c:141-151 | Writes the trailer, and the total length becomes a multiple of 256. |
| `MkBootFs.Archiver.EnterName` | cpio/mkbootfs.c:209-220 | The path buffer holds the entry's path and a NUL, and still begins with the directory's. |
| `MkBootFs.CollectNames` | cpio/mkbootfs.c:181-204 | The readdir loop collects the names to be kept. |
| `MkBootFs.Archiver.ArchiveNode` | cpio/mkbootfs.c:232-273 | Writes the node and all below it, succeeds exactly if everything there can be stored, and leaves the path buffer as it was. |
| `MkBootFs.Archiver.ArchiveDir` | cpio/mkbootfs.c:159-230 | The same for the entries of a directory, in order. |
| `BootArchive.MakeBootFs` | cpio/mkbootfs.c:351-366 | The whole program writes the image of its sources, or fails exactly if a source is no directory or holds what cannot be stored. |
| `BootArchive.Listing` | cpio/mkbootfs.c:159-273 | The records of a directory are its visible entries, each once and in the order of the walk, with exact path, mode and data, but for link targets over 1024 bytes, of which a prefix is stored. |
| `BootArchive.LongLinkIsCut` | cpio/mkbootfs.c:264-269 | One link with a target of 1025 bytes: the record has 1024 of them. |
| `BootArchive.InodesDistinct` | cpio/mkbootfs.c:96-109 | The inode numbers that a reader gets are distinct, if and only if the trees have at most 2^32 nodes to archive. |
| `BootArchive.Image` | cpio/mkbootfs.c:141-151 | The length of the image is a multiple of 256. |
| `BootArchive.ReadBack` | cpio/mkbootfs.c:91-151 | A reader gets, for each record up to the first with the trailer's name, its path and data, its mode as fixed, and inode 300000 plus its number. |
| `BootArchive.ArchiveRoundTrip` | cpio/mkbootfs.c:91-273 | Reading the image gives back path, mode and data of every record of every source, and no more, if and only if no source without prefix has an entry TRAILER!!! at its top. |
| `BootArchive.TreesRoundTrip` | cpio/mkbootfs.c:159-273 | Down to the trees: one entry for each node that can be reached, at the place of its source and in the order of the walk, with the names joined by slashes as its path and the node's own mode and data. |
| `BootArchive.SupportedMeans` | cpio/mkbootfs.c:232-273 | What the program can store: trees in which nothing that can be reached is a special file, or a file longer than one read. |
| `BootArchive.TrailerFileIsLost` | cpio/mkbootfs.c:54-54 | One file of that name: the archive reads as empty. |

## Left out

- IoVector.IOVector.DropFront: is stated where the loop stops at some byte; with a count that wraps it may run off the chain, where the source indexes past the end.
- IoVectorRuns.Run: drops of a run are of at most 2^32 bytes each; longer ones are in `DropCount.DropFrontExact`.
- IoVector.IOVector.TrimFront: is stated where the start index is inside the chain, which every operation but a destructive coalesce keeps.
- IoVector.IOVector.Append: a block is a value with capacity and size; sharing of one allocation between blocks, which the move-only type rules out, is not modelled.
- IOVector::front_data and front_size: they read the first block of the chain, dead or not.
- Uninitialised bytes: what the spare capacity of a block holds is arbitrary but fixed.
- StreamClosing.GracefulClose: is stated for a receiver that meets no write error; after one the source drops what is queued.
- Sockets.SocketTable.HandleOpen: whether a service is found is a parameter; services.cpp and the host requests are not modelled.
- Sockets.SocketTable.SmartRead: what smart_socket_enqueue makes of the bytes (wait for more, stuck, refused, to a remote end on some transport, to a service) is a parameter.
- Sockets.SocketTable.FlushOutgoing: is stated for a remote peer or none; `Sockets.SocketTable.PairRead` and `Sockets.SocketTable.SmartRead` have the others, and `Sockets.SocketTable.EventFunc` joins them.
- Sockets.SocketTable.StreamEvent: the same; with a local or smart peer the event is in `Sockets.SocketTable.EventFunc`.
- Sockets.SocketTable.PairEvent: an event collected for a socket that an earlier event of the same batch destroyed is left out.
- Sockets.SocketTable.Enqueue: is stated for the two kinds of peer that call it, remote and local; a smart socket never does.
- Sockets.SocketTable.SmartToRemote: only the relinking at the end of smart_socket_enqueue is modelled, not the reading of the request; device trackers, which ignore the result of enqueue, are left out.
- Daemon.HandlePacket: is stated for a transport that is online, and an OPEN that is accepted while ids last; that packets of a transport that is offline are ignored is stated by the handlers of Sockets. One transport per table; local pairs and smart sockets are in Sockets only.
- The status lines OKAY and FAIL that smart sockets write straight to the descriptor of a client, outside its queue.
- The force_eof flag of a socket whose subprocess exited, and the shutdown callback.
- DaemonRuns.Drive: is stated for runs that do not use up the ids.
- Socket ids are unbounded numbers: the source stops the program when the 32-bit counter overflows.
- Reconnect.Conservation: a transport is handed over only while it is not tracked, which is for the callers to see to; nothing is said about progress, as the waits of the source have no predicate.
- Listeners.Registry.Install: opening the listening socket is a parameter, and events on it are left out.
- Shell.ShellRoundTrip: both ends have the same byte order, as the length is copied as it is in memory.
- Negotiation.Agreement: the banner, authentication and TLS steps between the two CNXN packets are left out.
- Utf8.Console.Write: the conversion to UTF-16 and the write to the console are left out.
- BitErrors.CorrectForBitError: needs a nonempty needle; with an empty one the source reads in front of both strings before it compares anything.
- NetAddress.CanonicalRoundTrip: a port that sscanf cannot represent gives some number, which is a parameter.
- MkBootFs.Archiver.ArchiveNode: paths are required to fit the buffers of 8192 bytes, which the source does not check; lstat, open and read of a path are replaced by the tree; total_size does not overflow.
- MkBootFs.Archiver.ArchiveDir: the same, for the paths below the directory.
- BootArchive.MakeBootFs: the same, for the paths below every source.
- MkBootFs.Archiver.Eject: fix_stat, with fs_config or the canned configuration, is a parameter that maps path and mode to a mode.
- fdevent itself, poll, threads and mutexes: events and interleavings are arbitrary instead.
- TLS, RSA authentication, USB, mDNS, Brotli, fastboot, init, the metrics of bootstat, base/strings.cpp: not modelled.
