# A model of cosnet and what is proved about it

cosnet is a library of message sockets over TCP, WebSocket and UDP. This project models four parts of
it that work together and proves what they keep, over every input, every run and every interleaving.

**The codec** (`Words`, `Flags`, `Environment`, `Codec`, `CodecLaws`, `Outcomes`, `Messages`). `Messages.Message`
is the message object with its backing array, offset, length and capacity, written in place as the
original writes it, so that `m.bytes[0:4]` may reach past the length and a recycled array may show old
bytes. Each method is proved equal to a function on values in `Codec`; the laws of those functions are
in `CodecLaws`: header round trips both ways, the path, code and body views after Marshal,
independence of what a pooled array held before, and the datagram round trip with compression. `Outcomes`
tells from the bytes and the arguments alone which call fails, and how.

**The streams and the datagrams** (`Framing`, `Stream`, `Subsequences`, `Demux`, `DemuxLaws`, `Udp`). `Framing` treats
any reader that recognises its frames; `Stream` shows that the TCP connection is one for messages that
are not compressed. `Demux` is the UDP listener as a transition system, `DemuxLaws` what holds over its
runs, and `Udp` the listener and its Conns as objects over one shared read buffer, tied to it.

**The socket protocol** (`Lifecycle`, `Protocol`, `SocketLaws`, `SystemLaws`, `Ownership`, `Counting`,
`Teardown`, `Delivery`, `Paths`, `Sends`, `Workers`, `Releases`, `Closing`, `Limits`, `Endings`, `Unsent`,
`LateSends`, `Clock`, `Replies`, `Retry`).
`Protocol` is one transition system for any number of sockets, senders, readers, writers, creators, closers,
redialing goroutines and heartbeat timeouts, one step for each compare-and-swap, atomic add, map, channel and
pool operation. A socket is dialled or accepted, and an accepted one is on a stream or on a UDP Conn, whose
Close leaves the transport open; writes may fail on either. From one inductive invariant follow single
ownership of messages, single teardown, the life cycle, conservation of the connection count, the limit on
connections and the order of delivery; `Delivery.EndToEnd` joins this to the stream framing and
`Delivery.EndToEndMessages` to the datagrams. `Sends`, `Workers`, `Releases` and `Closing` follow one send, one
worker, one release and one Close from start to end: who can be kept waiting, why a message was accepted or
given back, what can still be delivered, what is left behind. `Teardown`, `Limits`, `Endings`, `Unsent` and `LateSends` say
exactly when some run breaks a promise. `Clock`, `Replies` and `Retry` are the timer, the automatic replies
and the retry arithmetic.

**The text packets** (`Decimal`, `SocketIO`). The printer and the parser of the Socket.IO transformer,
with an exact account of when a packet without an ack id is read as something else.

Gzip and the path/code transform are unknown functions; a law that needs them to be inverse says so in
its premises. So are settings (`Environment.Options`) and the results of dials and writes.

## Where the code differs from what it says of itself

- `socket.go:171` says that a closed socket does not reconnect. This holds for accepted sockets
  (`SystemLaws.AcceptedNeverReturns`, `Closing.CloseFinal`); a closing socket can be connected again if and only if it was
  dialled (`Endings.ComesBack`).
- `socket.go:46` and `README.md:284` say that queued messages are still sent while a socket is closing.
  The writer goes on, but nothing waits for it: without any write failing, some accepted message can be lost
  if and only if one is on the queue or with the writer; on a UDP Conn, with a writer that has yet to take
  the connection (`Unsent.QueuedLost`). After Close nothing more gets onto the wire of a stream; on a UDP
  Conn, whose Close leaves the transport open (udp/conn.go:39-47, 112), a writer that took the connection
  before still puts out the one packet it has (`Unsent.WireIsFinal`, `Unsent.LastPacket`).
- `disconnect` recovers from a panic by giving up (socket.go:85-89). Close of a UDP Conn panics when its user,
  who gets it from `Socket.Conn` (socket.go:157), has closed it before. The socket then stays in the middle
  of its teardown, in the map and in the count, for good (`Teardown.CanStick`, `Teardown.StuckForever`); only
  so is a teardown ever abandoned (`Teardown.NotAbandoned`).
- `socket.go:171` also says that Close forces the socket shut. A Close that comes between the two halves of a
  disconnect under way, the load of the status and its compare-and-swap (socket.go:78-84), makes that disconnect
  give up: a worker is gone, and the socket keeps its connection until the heartbeat times it out
  (`Workers.CloseStopsDisconnect`). Only by Close can a worker of an accepted socket end while the socket is up
  (`Workers.WorkerEnds`).
- `sockets.go:316` and `README.md:223` speak of exponential backoff; the delay is linear up to a cap,
  and only as long as the product fits 32 bits (`Retry.DelaysExact`).
- The header of a compressed message announces the plain size, so that a reader of a stream stays in
  step only by chance (`Stream.CompressedFraming`), and a sender's own compression mark makes the reader
  decompress what is not compressed (`Stream.FrameReadsBack`). On datagrams only the mark does harm
  (`CodecLaws.DatagramRoundTrip`).
- A negative size passes the size limit and makes the reader of a stream panic; the code guards against a
  negative path length only (`Stream.ReceivePanics`).
- The readers of ACK and BINARY_EVENT packets reject everything that the builders of those packets
  print (`SocketIO.AckRejected`, `SocketIO.BinaryEventRejected`).
- `ConnectMaxSize` can be exceeded if and only if two or more goroutines call Create
  (`Limits.LimitExact`), by one less than their number and no more (`Limits.LimitReached`,
  `Counting.LimitKept`).
- `README.md:291` makes the library responsible for a message once it is sent. A sender that is past its
  readiness check while the socket is released can leave its message on the dead queue
  (`LateSends.LateSend`), and only such a sender can (`LateSends.RefillExact`).
- Two calls on a UDP Conn can unregister an address and leave an open Conn behind, and no other step does
  (`DemuxLaws.StepRegistered`, `DemuxLaws.OneOpenConn`). `Write` (udp/conn.go:30-36), when called directly
  and failing, does so; the next datagram then opens a second Conn, and closing the first unregisters the
  second (`DemuxLaws.SecondConn`). And `Close` (udp/conn.go:39-47), when called again after the address got
  a newer Conn, unregisters that one before it panics (`DemuxLaws.ClosedAgain`). `WriteMessage`
  (udp/conn.go:101-114) goes through neither and never unregisters.
- A datagram that `readLoop` has in hand when its Conn is closed makes the loop panic; the datagram is lost and
  nothing is read any more (`DemuxLaws.DispatchPanics`, `DemuxLaws.PanicIsFinal`).
- A negative delay of Close that does not fit the 32-bit counter wraps to a delay of more than sixty years at
  the default tick (`Clock.CloseDeadline`).
- A message without four cells in its array, as a new one that got an empty body, makes Code and Path panic
  (`Outcomes.ViewPanics`, `Outcomes.WirePanics`). Nothing else in a peer's bytes does: a length in front that is
  negative, zero or too large makes Path fail and leaves the body whole (`Outcomes.PathModeContents`).
- A body shorter than four bytes lets Code see bytes of the message that used the array before
  (`CodecLaws.PoolDependence`) or of what lies behind a datagram in its array (`CodecLaws.ResetDependence`),
  and a second Marshal without Release keeps the old code (`CodecLaws.StaleCode`, `CodecLaws.StalePath`,
  `CodecLaws.StaleCodeMode`).

## Model

| member | source | states |
|---|---|---|
| `Words.GetPut` | message/head.go:46-47 | a 32-bit word read back after PutUint32 is the word that was put, in both byte orders |
| `Words.PutGet` | message/head.go:69-70 | putting a word that was read from four bytes gives the same four bytes, in both byte orders |
| `Flags.SetHas` | message/flag.go:16-23 | after Set exactly the bits of the flag and of the argument are there, asked with any mask |
| `Flags.DeleteHas` | message/flag.go:16-28 | Delete removes the bits of its argument and no other, asked with any mask |
| `Flags.DeleteSet` | message/flag.go:21-28 | Delete undoes Set exactly when none of the bits was there before |
| `Flags.MarksApart` | message/flag.go:6-14 | the marks are seven different bits, each at its place |
| `Environment.Registry.constructor` | message/magic.go:25-29 | the three predefined magics with their modes, byte order and binders |
| `Environment.Registry.Register` | message/magic.go:48-59 | a new key is added; a registered key is never changed by any later call |
| `CodecLaws.HeadRoundTrip` | message/head.go:36-72 | Parse of an encoded header gives the header back if and only if the size is allowed and compression is not triggered, for every 32-bit size and index and both byte orders |
| `CodecLaws.ParseEncoded` | message/head.go:36-72 | what Parse makes of every encoded header, the compressed and the oversized ones included |
| `CodecLaws.EncodeParsed` | message/head.go:36-72 | re-encoding a parsed ten-byte header gives the bytes back if and only if it does not ask for compression |
| `Messages.Message.Parse` | message/head.go:36-52 | the header fields and the error equal the parse function; fields are set even when the size is refused |
| `Messages.Message.HeadBytes` | message/head.go:55-72 | the ten bytes filled in place equal the encoding, and the compression decision is returned |
| `Messages.Message.Bytes` | message/message.go:65-90 | the writer receives the frame, or with no header the body; the message itself is unchanged |
| `Messages.Message.Write` | message/message.go:93-114 | state, error, bytes consumed and the rest of the reader after reading the body into the old or a new array |
| `Messages.Message.MakeRoom` | message/message.go:98-104 | which of the three buffers is used, with old cells kept when the array is reused |
| `Messages.Message.Reset` | message/message.go:117-127 | the message adopts the datagram's array behind the header, decompressed if it is marked so |
| `Messages.Message.DecompressBytes` | message/message.go:225-242 | plain bytes, new size and cleared mark, or the old state and an error |
| `Messages.Message.Marshal` | message/message.go:129-213 | header, array and error in every branch, the failed encoder and the failed transform included |
| `Messages.Message.AppendAt` | message/message.go:132-133 | bytes.Buffer over the message's own array: in place while it fits, else in a larger copy with the old array untouched |
| `Messages.Message.Code` | message/message.go:18-24 | the cached code, else the word in front, which is then cached; the panic of a message without four cells |
| `Messages.Message.Path` | message/message.go:25-46 | path and query, or the error, in both modes |
| `Messages.Message.Body` | message/message.go:49-62 | the contents after the word and, in path mode, after the path if its length is possible |
| `Messages.Message.Release` | message/message.go:267-278 | a blank message that keeps its array if the capacity is allowed |
| `CodecLaws.ReleasedIsPooled` | message/message.go:267-278 | after Release nothing but the cells remains, and never more of them than the configured capacity |
| `Codec.MarshalledOk` | message/message.go:162-213 | after a successful Marshal the header holds the arguments and the size of the contents, which are word, path and body, for whatever the message held before |
| `CodecLaws.PathModeViews` | message/message.go:25-62 | after Marshal with a path, Path gives it back cut at the first question mark, Body gives the body, and size, length and contents agree and are at least 4 |
| `CodecLaws.PathModeNumber` | message/message.go:145-158 | in path mode an integer path comes back as the path that the transform has for its low 32 bits, with the body |
| `CodecLaws.CutJoins` | message/message.go:36-41 | joining route and query with a question mark gives the path back, and the route has no question mark |
| `CodecLaws.CodeModeViews` | message/message.go:134-143 | in code mode, when the transform is inverse on the path, Path and Body give path and body back |
| `CodecLaws.CodeModeNumber` | message/message.go:145-158 | in code mode an integer path comes back as its low 32 bits |
| `CodecLaws.StaleCode` | message/message.go:18-24 | in path mode, Marshal into a message that was not released gives the right body if and only if the old code was 0 or equals the length of the new path |
| `CodecLaws.StalePath` | message/message.go:25-46 | and the right path and query if and only if the old code was 0 or delimits the path, or the path with or without a question mark at its end |
| `CodecLaws.StaleAfterLooking` | message/message.go:18-24 | looking caches the code: Marshal after it, without a release, gives the right body if and only if the code was 0 or is the length of the new path |
| `CodecLaws.StaleCodeMode` | message/message.go:134-158 | in code mode, the right code if and only if the old one was 0 or is the new one, and always the right body |
| `CodecLaws.RefillContents` | message/message.go:93-114 | what Parse and Write leave in a pooled message depends on the wire bytes only, in every branch |
| `CodecLaws.PoolIndependence` | message/message.go:93-114 | flag, size, index, Code, Path and Body of a refilled message are the same for any two recycled arrays, when the body has at least four bytes or is compressed |
| `CodecLaws.PoolDependence` | message/message.go:18-24 | for every shorter body there are two recycled arrays that give different codes: the bound is sharp |
| `CodecLaws.ResetIndependence` | message/message.go:117-127 | for a refill by Reset, no observation depends on the pooled array or on what lies behind the datagram in its own, when the datagram is compressed or its body has at least four bytes |
| `CodecLaws.ResetDependence` | message/message.go:117-127 | for every shorter plain datagram two arrays that differ only behind it give different codes |
| `CodecLaws.CodeStaysFresh` | message/message.go:18-24 | through release, refill by Write or by Reset and looking, the cached code is 0 or the word in front, and looking changes no observation |
| `CodecLaws.MarshalKeepsCode` | message/message.go:162-213 | Marshal keeps the cached code in every branch, so that after a release it is fresh |
| `CodecLaws.DatagramRoundTrip` | message/message.go:65-127 | Reset on what Bytes wrote restores header and contents, compressed on the way or not, if and only if the size is allowed and the sender's flag does not itself claim compression |
| `Outcomes.ViewPanics` | message/message.go:18-62 | Code, Path and Body panic if and only if the magic is unknown or, with no code cached, the array has less than four cells; Body in code mode only for the magic |
| `Outcomes.PathModeContents` | message/message.go:25-62 | in path mode, whatever the contents of a fresh message: a length in front that is not positive or exceeds the rest makes Path an illegal-header error, never a panic, and leaves the body whole; any other cuts path and body where it says |
| `Outcomes.CodeModeContents` | message/message.go:18-62 | in code mode the code is the number in front, the body all that follows, and Path what the transform has for the code |
| `Outcomes.ShortContents` | message/message.go:25-62 | a message of less than four bytes has an empty body and no path, whatever lies behind it in its array, or the view panics |
| `Outcomes.WirePath` | message/message.go:30-34 | from the bytes of a peer: in path mode Path is an illegal-header error if and only if the four bytes in front, as an int32, are not positive or exceed the rest |
| `Outcomes.WirePanics` | message/message.go:18-24 | bytes of a peer make Code panic if and only if they are a body that fits into a recycled array of less than four cells |
| `Outcomes.MarshalOutcome` | message/message.go:162-213 | Marshal fails with each of its errors if and only if the magic is unknown, the path argument has no supported type, the transform does not know it, or the encoder fails; size, code and, before the encoder, contents are then the old ones |
| `Outcomes.MarshalInPlace` | message/message.go:129-160 | new contents that fit into the array are written over the old ones, and the cells behind them stay |
| `Outcomes.AppendGrows` | message/message.go:132-133 | what does not fit goes with what is in front of it into an array at least twice as large, zero behind it |
| `Outcomes.ResetOutcome` | message/message.go:117-127 | each error of Reset if and only if the datagram is shorter than a header, has an unknown magic, announces too much, or is marked and does not decompress; else the contents |
| `Outcomes.FillOutcome` | message/message.go:93-114 | each outcome of Write if and only if the size is negative, more than the reader has, or the body is marked and does not decompress |
| `Outcomes.FillArray` | message/message.go:98-104 | a body is read into the own array while it fits, else into a new one of the configured capacity or, if that is too small, of its size; the cells behind it stay, or are zero |
| `Outcomes.DecompressedViews` | message/message.go:225-242 | no view of a decompressed message panics, however short its body |
| `Outcomes.HeadLayout` | message/head.go:55-72 | magic, flag, size and index at their places, the numbers in two's complement with the most or the least significant byte first |
| `Outcomes.FrameMark` | message/head.go:61-67 | a frame is marked if and only if its sender marked it or the size is above a threshold that is set, is compressed only for the second reason, and keeps every other bit of the flag |
| `Framing.Truncated` | tcp/conn.go:23-47 | for any reader that recognises its frames, a stream cut anywhere yields exactly the packets whose frames are complete, then an error; a clean end means a cut between frames |
| `Framing.Whole` | tcp/conn.go:23-47 | and the whole stream yields the whole list and a clean end |
| `Stream.Conn.ReadHead` | tcp/conn.go:24-30 | ten bytes are consumed into the reused head slice, or the right end-of-stream error is returned |
| `Stream.Conn.ReadMessage` | tcp/conn.go:23-47 | message, rest of the stream and error equal the receive function |
| `Stream.Conn.WriteMessage` | tcp/conn.go:49-62 | the frame is appended to the wire, or as much of it as the connection still takes, with an error; the reused buffer is empty afterwards and the message unchanged |
| `Stream.Conn.WriteEach` | socket.go:380-404 | messages taken off the queue one after the other: all their frames in order, cut where the connection fails, with nothing after that |
| `Stream.UnknownSkipped` | socket.go:394-404 | a message whose magic nobody has registered leaves nothing on the wire and the others as without it |
| `Stream.ReceiveAnyBuffer` | tcp/conn.go:23-47 | packet, rest and error do not depend on the recycled buffer |
| `Stream.ReceiveFrame` | tcp/conn.go:23-62 | reading a frame followed by anything gives the packet back and leaves exactly what followed |
| `Stream.ReceivePart` | tcp/conn.go:28-47 | which error a proper part of a frame gives, by where it is cut |
| `Stream.StreamRoundTrip` | tcp/conn.go:23-62 | the concatenated frames of any list of uncompressed messages read back as that list with every byte consumed |
| `Stream.StreamTruncated` | tcp/conn.go:23-62 | a truncated stream reads back as a prefix of the list and then an error |
| `Stream.WriterIsRead` | socket.go:380-404 | however many bytes the connection takes before it fails, the peer reads the first packets written and then an error, and all of them if it does not fail |
| `Stream.CompressedFraming` | message/head.go:63-69 | after an auto-compressed message the reader leaves as much as followed it if and only if compression kept the length, or shortened a message that nothing follows |
| `Stream.FrameReadsBack` | tcp/conn.go:23-62 | a frame on a stream reads back as its packet, leaving what follows, if and only if the size is allowed and the body is empty, or is not marked compressed and not compressed to another length |
| `Stream.ReceivePanics` | message/message.go:93-104 | bytes from a peer make the reader panic if and only if they are a whole header with a registered magic and a negative size within the limit |
| `Stream.ReceiveOutcome` | tcp/conn.go:23-47 | for any bytes of a peer: each error of the reader if and only if they fall short of a header or a body, have an unknown magic, announce too much, or do not decompress; else the packet, with what follows left alone |
| `SystemLaws.StepInv` | socket.go:60-138 | every step of every thread keeps the invariant of the whole system |
| `SystemLaws.Reachable` | sockets.go:81-88 | the invariant holds in every state of every run |
| `SystemLaws.OneOwner` | message/pool.go:14-33 | in every reachable state a message is in at most one of pool, queues and threads, and at most once |
| `Ownership.StepExclusive` | socket.go:251-340 | each step keeps single ownership, so that no message is put into the pool twice without being taken out between |
| `Ownership.RunCopies` | socket.go:291-404 | a step of a thread moves the one message it names and leaves every other message where it was |
| `Ownership.ContentsStay` | socket.go:380-404 | a message in a queue or in another thread's hand keeps its contents through every step |
| `Ownership.NoneLost` | socket.go:326-340 | an owned message stays owned through every step but a panic of its reader or the pool's own clearing |
| `Delivery.SendFate` | socket.go:251-318 | a send ends with its message on the queue and accepted, or back in the pool; never both and never neither |
| `Sends.NoneBlocked` | socket.go:291-318 | in every reachable state each thread that is not at its end has a step, if and only if it is not a sender in safe mode whose queue is full and whose stop channel is open |
| `Sends.WhyAccepted` | socket.go:251-318 | a message is accepted only while there is room, by a sender that found the socket connected before, and what is accepted is what that sender marshalled |
| `Sends.WhyReturned` | socket.go:251-318 | a sender gives its message back only after its encoder failed, or the socket was not connected; or, past that check, after the stop channel it read then was closed or, in the mode that does not wait, because the queue was full |
| `Sends.CanSend` | socket.go:291-318 | wherever a socket is connected and its queue has room, any packet can be sent, in either mode |
| `Sends.CanRefuse` | socket.go:251-262 | and a send to any socket can fail with its message back in the pool and nothing accepted |
| `Workers.QueuedKept` | socket.go:326-340 | a message on a queue, or in the hand of a sender, a writer or a release, has an owner after every step: only a reader that panics loses one |
| `SystemLaws.TornDownOnce` | socket.go:77-123 | in every reachable state no stop channel has been closed twice, Connected and Disconnect events alternate, release has run at most once, and the queue is within WriteChanSize |
| `Teardown.NotAbandoned` | socket.go:77-138 | in every reachable state a socket that waits for its first connection, or whose disconnect has begun and not ended, has one thread to do the next step and no second one, if and only if Close of its connection has not panicked |
| `Teardown.StuckForever` | socket.go:85-94 | and if it has, the socket is never released, and stays in the map and the count |
| `Teardown.CanStick` | udp/conn.go:39-47 | from every state with a connected or closing UDP socket some run leads there |
| `Workers.ConnectedIsServed` | socket.go:60-68 | in every reachable state a connected socket has a reader, or one is about to start, or a thread is about to disconnect it; and the same of its writer |
| `Workers.WorkerEnds` | socket.go:326-392 | a worker of an accepted socket does not end while the socket is connected, in any run |
| `Workers.CloseStopsDisconnect` | socket.go:77-84 | from every state in which a thread is about to disconnect a connected socket, a call of Close in between makes it give up, with connection and stop channel still open |
| `Releases.QueueReturned` | socket.go:106-123 | a release that ends leaves the queue empty, and every message that was on it when the release began has been put back into the pool since, or is in the hand of the writer |
| `Releases.TakenBlank` | message/pool.go:14-33 | a message taken from the pool is blank, whatever it was used for before, in every run |
| `Releases.ClientGivesUp` | socket.go:126-138 | from every state with a connected or closing client, some run in which the redial fails releases it and empties its queue |
| `SystemLaws.StatusFollowsGraph` | socket.go:42-68 | every change of status is an edge of the documented graph |
| `SystemLaws.ReleasedForever` | socket.go:55-107 | Released is never left |
| `SystemLaws.AcceptedNeverReturns` | socket.go:77-103 | an accepted socket only moves forward, so a closed one is never connected again |
| `Closing.CloseEffect` | socket.go:173-181 | Close sets a connected socket closing, leaving its queue, its log and all else as they are, and does nothing to any other |
| `Closing.CloseFinal` | socket.go:173-181 | in every reachable state, after a call of Close an accepted socket can be connected, at once or later, if and only if it was not connected yet, when the call does nothing |
| `Endings.ClosedClientReturns` | socket.go:96-98 | from every reachable state in which a client socket is closing there is a run that connects it again |
| `Endings.ComesBack` | socket.go:77-103 | in every reachable state, a closing socket can be connected again if and only if it was dialled, whether or not its address is set yet |
| `Unsent.LastPacket` | socket.go:90-94 | after the connection of an accepted socket is closed, and on a UDP Conn let go of, nothing more gets onto its wire in any continuation but the packet in the hand of a writer that took a UDP Conn before |
| `Unsent.WireIsFinal` | socket.go:394-404 | its wire is final if and only if there is no such writer |
| `Unsent.QueuedLost` | socket.go:106-123 | in every reachable state with a closing accepted socket whose writes have succeeded, some continuation without a failing write loses an accepted message for good if and only if one is on the queue, or with the writer on a stream, or with a writer that has yet to take the connection on a UDP Conn |
| `Counting.CountConserved` | sockets.go:81-88 | in every reachable state: entries of the map = count + stored but not yet counted + counted down but not yet deleted |
| `Counting.LimitKept` | sockets.go:73-86 | with n callers of Create, count and callers past the check never exceed the limit by more than n - 1; one caller keeps it exactly |
| `Limits.LimitReached` | sockets.go:73-86 | for every n >= 1 and every limit, some run of n callers reaches the bound limit + n - 1 |
| `Limits.LimitExact` | sockets.go:73-86 | some run exceeds the limit if and only if two or more threads call Create |
| `Limits.CountExact` | sockets.go:73-86 | some run has n connections counted if and only if n is 0, or there is a caller of Create and no limit, or n is at most the limit and one less than the number of callers |
| `Delivery.QueueInOrder` | socket.go:291-318 | for every socket, what Write accepted = what was taken off the queue followed by what is on it, in order and with unchanged contents |
| `Delivery.WrittenInOrder` | socket.go:380-404 | whatever fails, what an accepted socket writes and its writer holds is taken off the queue in order, nothing twice |
| `Delivery.InOrder` | socket.go:380-404 | on an accepted socket, what is on the wire is a subsequence of what was accepted, and a prefix unless a datagram has failed; the packet that failed on a stream is the next one; and while the connection is open and nothing has failed the rest is the packet in the writer's hand and the queue |
| `Workers.CanDeliver` | socket.go:380-404 | while an accepted socket is connected or closing, no write has failed and its writer has not left its loop, all that Write has accepted can still get onto the wire, in that order |
| `Workers.CanFail` | socket.go:394-404 | and any write can fail, on a stream with any part of the frame out |
| `Workers.CanRead` | socket.go:326-340 | a reader whose socket has a connection can read any packet into a message, give it back and go on or leave |
| `Delivery.EndToEnd` | socket.go:291-404 | on a stream, whatever the interleaving and wherever a write fails, the peer reads packets that Write accepted, from the first on, all that were written among them, and then an error; without a failed write exactly those, every byte consumed |
| `Delivery.EndToEndMessages` | wss/options.go:48-53 | on a transport that keeps message boundaries, compression allowed, each message on the wire restores the packet it was made of, in the order accepted and from the first on unless a datagram has failed |
| `Delivery.EndToEndViews` | socket.go:291-404 | whatever the interleaving, whatever the peer asks the i-th message it reads has the answer of the i-th message given to Write |
| `Delivery.ReceivedFresh` | message/message.go:18-24 | a message read into a pooled one has no code cached |
| `Delivery.ReceivedAsMarshalled` | message/message.go:25-62 | in path mode, magic, flag, index, path and body of a message with the packet that Marshal made are those given to Marshal |
| `Delivery.ReceivedAsCoded` | message/message.go:134-143 | in code mode the same, through a transform that knows the path |
| `LateSends.DrainedForever` | socket.go:106-123 | once release has emptied the queue it stays empty for good, if no sender is past its readiness check |
| `LateSends.RefillExact` | socket.go:291-318 | the emptied queue of a released socket can fill again if and only if a sender is past its readiness check |
| `LateSends.LateSend` | socket.go:291-318 | such states come about: from every state with a connected accepted socket and a sender anywhere past its check, a whole release can run before the message is put on the queue |
| `Clock.Socket.Close` | socket.go:173-181 | status and counter after Close; nothing changes unless the socket is connected |
| `Clock.Socket.KeepAlive` | socket.go:213-216 | only a connected socket's counter is reset |
| `Clock.Socket.Heartbeat` | socket.go:409-421 | counter, 32-bit wrap included, and timeout |
| `Clock.CloseDeadline` | socket.go:173-181 | a socket closed with delay d is disconnected at tick d/v + 1 exactly, with a negative delay at the next tick, or, where the counter wraps, at that of d + 2^32, whatever KeepAlive and Close calls come between |
| `Clock.CloseNow` | socket.go:173-181 | without a delay it is the next tick |
| `Clock.IdleTimeout` | socket.go:409-421 | a connected socket times out at tick limit/v + 1 after its last KeepAlive exactly |
| `Clock.HeartbeatBound` | socket.go:409-421 | the counter never exceeds the limit, or what a Close with a negative delay asks for, by more than one increment in any run |
| `Clock.IdleRun` | socket.go:409-421 | n ticks on any socket that is not down time it out if and only if they exceed what is left to the limit, and are counted until then |
| `Clock.OnlyTicksCount` | socket.go:173-216 | on a socket that is not connected Close and KeepAlive do nothing: a run of calls is a run of its ticks |
| `Clock.NoTimeout` | socket.go:415-416 | without a limit nothing is timed out, and only Close on a connected socket changes the status |
| `Replies.Reply` | handler.go:122-152 | when a confirm is sent, and with which magic, flag, index, path and body |
| `Replies.ReplyShape` | handler.go:122-152 | exactly requests are answered; a confirm has the magic, index and heartbeat mark of its request, asks for nothing and has no other mark |
| `Replies.HandleConserves` | handler.go:122-152 | handling a message takes it out of flight, puts the confirm of a request on its way to the other endpoint if the send succeeds, and touches nothing else |
| `Replies.HandleLightens` | handler.go:122-152 | handling any message in flight makes 2 * requests + others strictly smaller |
| `Replies.RunsEnd` | handler.go:122-152 | so a run of automatic replies is no longer than the weight it starts with |
| `Replies.OneConfirmEach` | handler.go:122-152 | over a whole run the confirms made, by endpoint, magic and index, are a part of the requests at the start: none gets two |
| `Retry.DelaysExact` | sockets.go:344-348 | for any number of tries, with or without a limit and a cap, the delays are the intended ones if and only if the largest product fits 32 bits |
| `Retry.RetryBound` | sockets.go:325-360 | whatever the network does there are at most ClientReconnectMax dials, one delay for each refusal waited out, and the end of retrying only after the last dial |
| `Retry.RetryUnlimited` | sockets.go:325-360 | without a limit every refusal that is not cancelled is followed by another dial |
| `Retry.DelaysGrow` | sockets.go:344-348 | delays are positive, never decrease, and never exceed a cap if there is one |
| `Retry.WaitsClosedForm` | sockets.go:344-348 | the waits before any try sum to T*m(m+1)/2 + (t-m)*D with m = min(t, D/T) |
| `Retry.AllRefused` | sockets.go:325-360 | when every dial is refused there are exactly that many dials, and the total wait is that sum |
| `Retry.EndsExactly` | sockets.go:325-360 | how dialing ends, for every configuration and whatever the network does: at the limit if and only if the refusals reach it, else with the first accepted dial or the first cancelled wait; with the number of dials and delays |
| `Retry.DelayNumbers` | sockets.go:344-348 | the i-th delay is that of the i-th try, with or without a limit |
| `Decimal.ScanExact` | wss/socket.io.go:223 | the scan gives the value, a syntax error or a range error exactly by whether the text is all digits and whether some run of leading digits exceeds 64 bits |
| `Decimal.ParseExact` | wss/socket.io.go:223 | every text, with or without a sign, is a number, a range error with the nearest int64, or a syntax error with 0, by its digits |
| `Decimal.ParsePrint` | wss/socket.io.go:223 | parsing a printed number gives it back, for every int64 |
| `Decimal.PrintCanonical` | wss/socket.io.go:410 | a number is printed without a leading zero |
| `SocketIO.HandleEvent` | wss/socket.io.go:198-245 | the message, filled in place, is what the parse function says; on an error it is untouched |
| `SocketIO.ReadMessage` | wss/socket.io.go:50-76 | which packets fill the message, with what, and which leave it alone; the error of a CONNECT packet that cannot be answered |
| `SocketIO.EventWithAck` | wss/socket.io.go:408-413 | an event with a positive ack id comes back whole for every int64 id; the index is exact if and only if the id fits 32 bits |
| `SocketIO.EventWithoutAck` | wss/socket.io.go:198-245 | what every event without an ack id is read as: part of the body taken as an id, or only the no-reply mark lost, or everything recovered |
| `SocketIO.EventExact` | wss/socket.io.go:198-245 | such an event is recovered if and only if its data does not open with a number and a comma, nor with a number too large |
| `SocketIO.NameExact` | wss/socket.io.go:203-210 | the name comes back if and only if it has no comma |
| `SocketIO.EventViews` | wss/socket.io.go:244 | end to end through Marshal: path, body, index and flag of a received event |
| `SocketIO.PlainEventViews` | wss/socket.io.go:244 | the same for an event without an ack id whose data reads as none, which arrives marked as wanting no reply |
| `SocketIO.PushGainsSlash` | wss/socket.io.go:88-120 | a pushed message arrives under a path with one more slash |
| `SocketIO.AckRejected` | wss/socket.io.go:257-277 | every ACK packet the library prints is refused by its own reader |
| `SocketIO.BinaryEventRejected` | wss/socket.io.go:294-308 | and so is every BINARY_EVENT packet |
| `SocketIO.AckAccepted` | wss/socket.io.go:257-277 | the ACK reader accepts a text if and only if a decimal int64 stands before its first slash |
| `SocketIO.BinaryEventRead` | wss/socket.io.go:294-308 | the BINARY_EVENT reader accepts a text if and only if a decimal int64 stands before its first dash and an event after it, and reads that event |
| `SocketIO.KindsRead` | wss/socket.io.go:50-76 | what comes of each kind of packet: which end the reader, which are passed over, and that an EVENT fills the message if and only if it has a comma |
| `SocketIO.ConfirmText` | wss/socket.io.go:101-109 | the text of a confirm is the kind, the index, which reads back, and the body, and no path |
| `SocketIO.BinaryText` | wss/socket.io.go:439-450 | the text of a binary event is the kind, the number of attachments, which reads back, and what an event has |
| `DemuxLaws.Reachable` | udp/listener.go:94-130 | in every reachable state each address has at most one Conn in the table, the newest made for it and open; every Conn made was put on the accept channel once, in order; both channels keep their bounds |
| `DemuxLaws.StepGot` | udp/listener.go:94-130 | each step adds the arriving datagram to the history of its address, drops it, or drops the one in hand |
| `DemuxLaws.AddressInOrder` | udp/listener.go:94-130 | in every run what reached the Conns of an address is a subsequence of what arrived from it, shorter by exactly the number of drops |
| `DemuxLaws.NothingLost` | udp/listener.go:82-127 | nothing is missing if and only if no channel was full; and everything has reached a channel if and only if, besides, none is in the loop's hand |
| `DemuxLaws.PanicIsFinal` | udp/listener.go:120-127 | a datagram in the hand of a loop whose Conn was closed stays there, lost, and nothing arrives any more |
| `DemuxLaws.ConnHistory` | udp/conn.go:82-85 | each Conn sees, in order and unchanged, only datagrams from its own address |
| `DemuxLaws.AllReadOut` | udp/conn.go:75-98 | what is in the channel of a Conn can be read out, in order and to the last, whatever has become of the Conn |
| `DemuxLaws.StepRegistered` | udp/conn.go:30-47 | of all steps exactly a direct write that fails, or a further Close of a closed Conn, on a registered address leaves an open Conn outside the table |
| `DemuxLaws.OneOpenConn` | udp/conn.go:30-47 | up to any point of a run every open Conn has been the one in the table if and only if neither has happened before |
| `DemuxLaws.RegisteredIsOne` | udp/listener.go:105-114 | while that holds, an address has at most one open Conn |
| `DemuxLaws.SecondConn` | udp/conn.go:30-47 | wherever an accepted Conn is open outside the table and there is room, the next datagram from its address opens a second Conn, and closing the first takes the second out of the table |
| `DemuxLaws.ForgottenConn` | udp/conn.go:30-47 | there is a run that does both, from the empty table |
| `DemuxLaws.ClosedAgain` | udp/conn.go:39-47 | wherever a closed Conn is closed again while its address has a newer Conn, the newer one leaves the table and stays open |
| `DemuxLaws.ShutConnUnregisters` | udp/conn.go:39-47 | there is a run that does so, from the empty table and without a failed write |
| `DemuxLaws.DispatchPanics` | udp/listener.go:105-127 | putting a datagram on the channel of the Conn looked up panics if and only if that Conn was closed in between |
| `DemuxLaws.DatagramsDelivered` | udp/conn.go:75-114 | when the datagrams that arrive from an address are those of messages, compressed or not, what each of its Conns reads are these messages in that order, header and contents intact, less some |
| `DemuxLaws.AddressDelivered` | udp/listener.go:94-130 | and over all Conns of the address, less exactly as many as were dropped |
| `Udp.Conn.Offer` | udp/listener.go:121-127 | the datagram is put on the channel, or dropped when it is full |
| `Udp.Conn.ReadMessage` | udp/conn.go:75-98 | the first datagram in the channel goes into the message; a closed and empty channel is the end |
| `Udp.Conn.Close` | udp/conn.go:39-47 | leaving the table and closing the channel are the two steps of the transition system; a further call is its step that unregisters the address, and panics |
| `Udp.Listener.Accept` | udp/listener.go:45-51 | the oldest pending Conn, once |
| `Udp.Listener.NewConn` | udp/listener.go:73-91 | a fresh Conn in the table and on the accept channel, or no change when that is full |
| `Udp.Listener.Handle` | udp/listener.go:101-128 | one datagram in the shared buffer: lookup and dispatch of a copy, as the transition system has it |
| `Udp.Listener.ReadLoop` | udp/listener.go:94-130 | any input through the one buffer leaves the table that the transition system says, so that later overwrites reach no earlier datagram |
| `Udp.Listener.RemoveConn` | udp/listener.go:133-138 | the address is unregistered and nothing else changes |
| `Udp.LoopIsRun` | udp/listener.go:94-130 | what the loop does is a run of the transition system with exactly the input's datagrams, so that its laws apply |

## Left out

- Sockets, dialing, TLS, HTTP upgrade and address parsing: a connection is a sequence of bytes or of datagrams, a dial is an outcome.
- Gzip, JSON and Protobuf: gzip is a pair of functions, an encoder's output is the body or a failure. What an encoder wrote before it failed is not modelled.
- The cosgo registry, goroutine management, session data, loggers and the reflection in `handler.go`: libraries that are not part of this model.
- The Socket object of `socket.go` as a class with all its fields: its goroutines run concurrently, so that connect, disconnect, release, readMsg, writeMsg and Write are steps of a transition system on values, their loops repeated steps. Only the counter methods are an object (`Clock.Socket`).
- The loops of `sockets.go` over all sockets (Range, Heartbeat, the daemon): each sends its call to every socket.
- Handlers and event callbacks: they are assumed not to keep a message after the call and not to call into the socket; their sends are those of independent threads.
- `Async`, and a direct `Write` of a caller's own message: on failure that message is the caller's.
- Broadcast, `default.go`, `context.go`, `options.go` structures: wrappers and constants.
- The configuration is one fixed record; `sockets.go:45` copies it, and the copies are taken to agree.
- The message pool is taken to be enabled.
- Memory is sequentially consistent: the data races on status, connection and stop channel are interleavings of single reads and writes, and torn or reordered accesses are not modelled.
- The field writes and the event of `connect` (socket.go:60-65) are one step, and no heartbeat timeout fires while the status is None, as the default 10 s tick against a 30 s limit makes sure of.
- A write channel of size 0 hands over only to a waiting receiver, which is not modelled; with that size this model accepts nothing. The same holds for the two channels of the UDP listener.
- Delivery.InOrder: claimed for accepted sockets only, because on a client a worker left over from an earlier connection may write to the new one.
- Delivery.EndToEnd: claimed for messages that are not compressed, because the header of a compressed message announces the wrong size on a stream. With message boundaries `Delivery.EndToEndMessages` has no such limit.
- Stream.Conn.WriteMessage: a connection that has failed is taken to take no further bytes.
- In the socket protocol a write is one step, with any part of the frame out when it fails; a Close that comes while a write is under way is taken as coming before or after it. A stream that has failed takes nothing more; a datagram is sent whole or not at all.
- On a dialled socket the marks of failed writes do not say on which of its connections; no law uses them there.
- Dialling is taken to give streams, so that UDP Conns are accepted ones only, and Close of a stream not to panic.
- Unsent.QueuedLost: the heartbeat may time a closing socket out at any moment; that it waits for the delay given to Close is `Clock.CloseDeadline`.
- Messages.Message.Bytes: the writer is a bytes.Buffer, as in every call of the library, and so never returns an error.
- Messages.Message.Marshal: the body argument is a value, so a body that aliases the message's own array is not covered; a nil body and an empty one are the same.
- Messages.Message.AppendAt: the new capacity of a grown buffer is twice the old or what is needed; the rounding of Go's allocator is not modelled. Nor are the capacities that `io.ReadAll` may choose above 512.
- Clock.CloseDeadline: needs the limit plus one increment to fit 32 bits, as every configured limit does; the calls are taken as single steps.
- Retry.AllRefused: needs ClientReconnectMax and ClientReconnectTime to be positive and the largest product to fit 32 bits.
- Replies.Reply: whether the send succeeds is a parameter.
- Udp.Listener.Accept: the error of a closed listener is not modelled, as the listener is not closed.
- Udp.Listener.ReadLoop: the object runs without interruption; interleavings with the Conns are those of the transition system.
- The UDP listener's Close: it calls Conn.Close under the mutex that Conn.Close takes again.
- The text of the reply to a CONNECT packet and the event that a DISCONNECT packet may raise. That these packets leave the message alone is part of `SocketIO.ReadMessage`.
- UTF-8: text is bytes throughout.
