# Verified models of five networking programs

This project models, in Dafny 4.11, the parts of the repository in which bytes, timers and retries
interact, and proves what they do over whole runs.

- **The TFTP server** (`chapter6/server.go`, `chapter6/tftp.go`). `Tftp.dfy` has the packet layouts as
  functions on byte strings and the packet objects that marshal and unmarshal them; `Codec.dfy` has what a
  reader of the packets can rely on. `Sender.dfy` is the transfer loop as an automaton, one turn being one
  write and what the network answers; `Server.dfy` is `handle` and `Serve` with their objects, buffer and
  loops, proved against it; `Handlers.dfy` has the handler as an object that can be interrupted between
  turns, and any number of them sharing one server under an arbitrary schedule.
- **A whole transfer.** `Transfer.dfy` puts the sender beside the receiver that `chapter6/README.md`
  describes (it takes the block it expects, acknowledges every DATA packet it is sent, and is done at the
  first block shorter than 512 bytes) and two datagram channels. A run is any sequence of events. Three
  modules prove what holds over every run: `InOrder.dfy` when datagrams may be lost and repeated but keep
  their order, `AnyOrder.dfy` when they may also be reordered, `Lossless.dfy` when only the sender's reads
  may time out. All datagrams are byte strings: the sender decodes its whole reused buffer, the receiver
  decodes DATA packets, and block numbers on the wire are 16 bits wide.
- **TLV frames** (`chapter4/tlv.go`). `Tlv.dfy` has the payload objects, the reader that `decode` builds by
  pushing the type byte back, and streams that hand out their bytes in pieces of any size and report their
  end, or a failure, with the last piece or after it; `Frames.dfy` has what becomes of frames and of
  sequences of frames.
- **The pinger** (`chapter3/ping.go`). `Pinger.dfy` lets time pass, and the timer expire, between any two
  operations of the loop. The results hold for both behaviours a Go timer has had: up to Go 1.22 a tick
  stays in the timer's channel until it is received, since Go 1.23 (the version in `chapter3/go.mod`) `Stop`
  and `Reset` take back a tick that has not been received.
- **The multi-writer** (`chapter13/multi.go`). `MultiWriter.dfy` builds it from any nesting of calls over
  leaf writers whose behaviour may depend on everything written so far.

How to read it: a function such as `Sender.Run`, `Transfer.Exec`, `Tlv.PushedBack` or `Pinger.Run` says what
the program does; each method that updates objects is proved equal to such a function; the theorems are
lemmas about the functions, for all inputs. Strings are byte strings, as Go's are. Lower-casing a mode is
done on ASCII letters: no other character is lower-cased by Go into a letter of "octet".

Results one may not expect:

- A premature time-out in a transfer costs every later block one more write, so the retries of one block
  are a budget for the whole transfer: over lossless channels a transfer completes if and only if its reads
  time out less often than `Retries` (`LosslessTransfer.Verdict`).
- `chapter6/README.md:61` puts the overflow at 65,535 blocks. The wrap to 0 does no harm: up to 65536 blocks
  every run is faithful, whatever the network does to the order, and beyond that some run is not
  (`AnyOrderTransfer.SafeExactlyUpToNumbers`); while the order is kept there is no limit
  (`InOrderTransfer.Safety`).
- Because the whole buffer is decoded, the transfer can be moved on by datagrams none of which is an ACK
  (`Sender.StaleBytesAdvance`). `Sender.MisledExactly` says for every datagram whether it can do that, and
  `Sender.FreshAckBefore` that nothing else can; `Codec.AckStaleFree` and `Codec.ErrStaleFree` say which
  datagrams are decoded independently of the buffer.
- A NUL inside the filename of a request ends it, and what follows is read as the mode, so that a request
  that cannot be served can start a handler for another one (`Server.NulInFilename`); `Codec.RequestSeen` and
  `Server.RequestServed` say what becomes of every request.
- The comment on `decode` calls pushing the type byte back merely not optimal. From a reader that delivers
  its last byte together with end-of-file it can also lose an empty frame that the proposed decoder reads;
  everything else it decodes the same (`Tlv.PushBackExactly`).
- A `Pinger` whose write fails never returns: its deferred function waits for a tick that the loop has
  already received (`Pinger.StuckExactlyOnWriteError`).
- An empty payload at the end of a `bytes.Reader` is written without an error and cannot be read back
  (`Frames.EmptyAtEnd`); the exact condition for a list to come back is `Frames.SequenceRoundTrip`.

## Model

| member | source | states |
|---|---|---|
| Tftp.Data.MarshalBinary | chapter6/tftp.go:168-195 | the counter goes up by one modulo 65536, at most 512 bytes leave the reader, and the packet is operation code, new number and just those bytes; there is none exactly when the reader fails, other than by end-of-file, within the block |
| Tftp.Data.UnmarshalBinary | chapter6/tftp.go:197-219 | succeeds exactly on DATA packets of 4 to 516 bytes, then holds their number and body; otherwise nothing changes |
| Tftp.Ack.MarshalBinary | chapter6/tftp.go:226-242 | the four bytes of an ACK of the block |
| Tftp.Ack.UnmarshalBinary | chapter6/tftp.go:244-259 | succeeds exactly when an ACK header is there, then holds its number; otherwise the old one |
| Tftp.Err.MarshalBinary | chapter6/tftp.go:268-293 | operation code, error code, message and terminator |
| Tftp.Err.UnmarshalBinary | chapter6/tftp.go:295-319 | succeeds exactly on a terminated ERROR packet and then holds code and message; states what a missing terminator leaves behind |
| Tftp.ReadReq.MarshalBinary | chapter6/tftp.go:51-96 | the request on the wire, an empty mode sent as "octet" |
| Tftp.ReadReq.UnmarshalBinary | chapter6/tftp.go:99-143 | succeeds exactly on acceptable requests and then both fields are those of the packet; states both fields after every kind of failure |
| Tftp.OverlayAt | chapter6/server.go:111 | byte by byte, a datagram read into the buffer replaces the front as far as it reaches and leaves everything behind it |
| Codec.Layouts | chapter6/README.md:31-82 | each packet byte by byte, with the operation codes 1, 3, 4 and 5 and the high byte of a number first |
| Codec.DataExactly | chapter6/tftp.go:158-219 | a byte string is accepted as DATA, with this number and body, if and only if it is what marshalling them gives and the body has at most 512 bytes |
| Codec.AckExactly | chapter6/tftp.go:226-259 | it is accepted as an ACK of n if and only if it begins with the ACK of n |
| Codec.ErrExactly | chapter6/tftp.go:268-319 | it is accepted as an ERROR with this code and message if and only if the message has no NUL and it begins with that ERROR marshalled |
| Codec.RequestExactly | chapter6/tftp.go:51-143 | it is accepted as a read request if and only if the filename is not empty and NUL-free, the mode "octet" in any case, and it begins with that request marshalled |
| Codec.AckOverStale | chapter6/server.go:111-122 | an ACK read into the buffer decodes to its own number and not as an ERROR, whatever the buffer held |
| Codec.ErrOverStale | chapter6/server.go:111-129 | an ERROR with a NUL-free message decodes to its own code and message if it fits the buffer and not at all if it does not, and never as an ACK, whatever the buffer held |
| Codec.AckStaleFree | chapter6/tftp.go:244-259 | decoding an ACK is independent of what the buffer held if and only if the datagram has at least 4 bytes or already differs from an ACK in its first two |
| Codec.ErrStaleFree | chapter6/tftp.go:295-319 | the same for ERROR: if and only if the datagram brings its own terminator, fills the buffer, or already differs in its first two bytes |
| Codec.AcceptedRequest | chapter6/tftp.go:99-143 | every accepted buffer starts with the accepted request marshalled again; its filename is not empty and NUL-free, its mode "octet" in any case |
| Codec.RequestRoundTrip | chapter6/tftp.go:51-143 | sent, read into the zeroed buffer of Serve and unmarshalled, a request comes back the same if and only if its filename is not empty and NUL-free, its mode empty or "octet" in any case, and its packet at most 516 bytes |
| Codec.RequestSeen | chapter6/tftp.go:51-143 | whatever the two strings hold, what the server makes of the request sent to it: each string ends at its first NUL, what follows a NUL in the filename is taken for the mode, and it is accepted if and only if these are acceptable and end within 516 bytes |
| Codec.Packetisation | chapter6/tftp.go:158-219 | marshalling until a packet is short gives len/512 + 1 packets, numbered from 1 modulo 65536, full but for the last, whose bodies joined are the payload |
| Sender.Terminates | chapter6/server.go:91-137 | against every sequence of replies the transfer is over after Retries * (len/512 + 1) turns, with at most that many writes |
| Sender.BoundReached | chapter6/server.go:91-137 | for every payload and Retries some replies cause exactly that many writes, and the transfer still completes |
| Sender.EndIsFinal | chapter6/server.go:91-137 | a transfer that has ended keeps its outcome and writes nothing more |
| Sender.RetriesSpent | chapter6/server.go:100-135 | the retries gone are exactly the last turns in a row, all on the current block |
| Sender.ExhaustedByR | chapter6/server.go:100-135 | a transfer is exhausted only by Retries turns in a row on one block, none of which brought its ACK or an ERROR |
| Sender.EndsExactly | chapter6/server.go:91-137 | a transfer has ended with an outcome if and only if some turn that found it going on gave this reason: write failed, read failed, an ERROR, the ACK of block len/512 + 1, or the last retry gone without help |
| Sender.InOrderRetransmission | chapter6/server.go:91-133 | with consecutive repeats merged, what is written is a prefix of the packets of the payload, and all of them when the transfer completes |
| Sender.SentBodies | chapter6/server.go:86-133 | the bodies of what is written, repeats merged, are a front part of the payload, and all of it when the transfer completes |
| Sender.AckedBefore | chapter6/server.go:91-125 | the sender is past block k only after a turn that had just written block k and was answered with an ACK of k modulo 65536 |
| Sender.MisledExactly | chapter6/server.go:111-125 | a datagram that is itself no ACK leaves a block behind in some run if and only if Retries is at least 2, the datagram has 1 to 3 bytes that begin an ACK, and, when it has 3, the payload reaches the first block whose number has that high byte |
| Sender.FreshAckBefore | chapter6/server.go:111-125 | if no datagram of that kind arrives, the turn that takes the sender past block k brought the ACK of k itself |
| Sender.StaleBytesAdvance | chapter6/server.go:111-125 | such a run: two datagrams neither of which is an ACK take every payload of two blocks or more to block 2 |
| Server.Server.Pass | chapter6/server.go:100-133 | one pass of the retry loop is one turn of the automaton: what is written, how the buffer changes, and the state in which it goes on, tries again or returns |
| Server.Server.Transmit | chapter6/server.go:99-135 | the retry loop for block k ends acknowledged, exhausted or stopped, in the state and with the writes of the automaton after as many turns |
| Server.Server.Handle | chapter6/server.go:73-138 | nothing happens when the dial fails; otherwise, for every script of the network, the loops write what the automaton writes and end as it ends, within Retries * (len/512 + 1) turns; the bodies written, repeats merged, are a front part of the payload of the server, all of it on completion, and none when it is nil |
| Server.Server.Serve | chapter6/server.go:31-71 | nil connection and missing payload are refused with nothing changed; otherwise zero Retries and Timeout become 10 and 6 seconds, and the handlers started are those that the packets arriving before the socket fails lead to, in order |
| Server.JudgedExactly | chapter6/server.go:51-69 | a packet leads to a handler if and only if its bytes, padded with zeros or cut to 516, begin with an acceptable request marshalled; the handler gets this request and the address of the packet, and there is never a second one |
| Server.RequestServed | chapter6/server.go:51-69 | a request that is sent starts exactly one handler, for itself, if its strings are acceptable and it fits a datagram; none if not and there is no NUL in them; otherwise the request up to its NULs decides |
| Server.NulInFilename | chapter6/server.go:58-69 | a request that cannot be served starts a handler for another one if its filename is a servable filename and mode with a NUL between |
| Server.StartedFrom | chapter6/server.go:53-69 | every handler started comes from a packet received before any failure, with its address and a request its bytes begin with |
| Handlers.Handler.constructor | chapter6/server.go:73-100 | a new handler owns its socket, packets, reader and buffer, has written nothing and is ready with the first packet and as many retries as the server says |
| Handlers.Handler.Turn | chapter6/server.go:91-137 | each turn of the goroutine, with the retry count read anew from the shared server for each packet, keeps it where the automaton is after the same turns, and touches nothing it does not own |
| Handlers.Interleave | chapter6/server.go:41-70 | under every schedule of arriving packets, read failures, further calls of Serve and turns of the handlers: the handlers started are those of Serve on the same packets, none after the first failed read; no two share an object; each has the state and has written the datagrams of a run alone on its own turns, so that the bodies it wrote are a front part of the payload, and all of it if it completed; Retries and Timeout stay what the first Serve made them |
| Handlers.NothingAfterFailure | chapter6/server.go:53-56 | whatever would arrive after a failed read, the handlers started are those accepted before it |
| Handlers.EndsAsHandle | chapter6/server.go:69-138 | under every schedule a handler is over after Retries * (len/512 + 1) turns, ending and having written just as handle does by itself on the same network |
| Transfer.SenderRuns | chapter6/server.go:91-137 | in every run of the whole system the sender has done what the loop does on the turns the run amounts to |
| Transfer.RecordsTrue | chapter6/server.go:100-119 | the counts kept of each run are those of the turns of the loop: how many reads timed out, and how often each block was written |
| Transfer.StampsTrue | chapter6/server.go:120-125 | the time-outs noted for a block are those there had been at the event with which the sender left it behind |
| Transfer.Channels | chapter6/README.md:46-59 | a lost datagram is gone, a repeated one is there once more, and nothing else changes |
| Transfer.Arrivals | chapter6/README.md:46-59 | any datagram under way may arrive next; it is then used up, and the receiver, or the loop, has dealt with just it |
| Transfer.GivenUp | chapter6/server.go:101-136 | a receiver that has answered with an ERROR takes no block and sends nothing more, and a sender that has ended changes and writes nothing more, whatever happens afterwards |
| InOrderTransfer.StepKeeps | chapter6/server.go:91-137 | every in-order event keeps the invariant: receiver at most one block behind, only packets and ACKs of blocks k-1 and k under way, none of k-1 behind one of k, none of k-1 left among the packets once an ACK of k is under way |
| InOrderTransfer.Safety | chapter6/README.md:46-59 | order kept, anything lost or repeated, either side giving up, any length: the receiver always holds a prefix of the payload, and all of it once it has seen a short block or the sender has ended normally |
| InOrderTransfer.NumbersUnambiguous | chapter6/server.go:122 | in these runs the 16-bit comparisons are right however often the numbers wrap: a matching ACK is of a block the receiver holds, a packet with the expected number is the block it lacks |
| AnyOrderTransfer.StepKeeps | chapter6/server.go:91-137 | with at most 65536 blocks every event, reordering included, keeps the invariant that only written blocks and acknowledged held blocks are under way and the receiver is at most one block behind |
| AnyOrderTransfer.Overrun | chapter6/README.md:61-63 | with 65537 blocks or more some run makes the sender end normally while the receiver has only the first 65536 and is still waiting |
| AnyOrderTransfer.SafeExactlyUpToNumbers | chapter6/README.md:61-63 | all runs are faithful, reordering included, if and only if the payload is shorter than 65536 * 512 bytes |
| LosslessTransfer.Pipeline | chapter6/server.go:91-133 | in every lossless run copies of block k-1 are followed by copies of block k and by nothing else, one for each time-out so far and one for the read that waits |
| LosslessTransfer.WritesPerBlock | chapter6/server.go:100-133 | in every lossless run a block that is done was written exactly 1 + (time-outs so far in the transfer) times |
| LosslessTransfer.Verdict | chapter6/server.go:91-136 | a lossless run that is over completed if and only if there were fewer time-outs than Retries, else it is exhausted; if completed, the receiver has the payload |
| LosslessTransfer.EveryBudget | chapter6/server.go:91-136 | for every payload, some lossless run completes with any given number of time-outs below Retries, and one with Retries of them is exhausted |
| LosslessTransfer.MustComplete | chapter6/server.go:91-136 | however a lossless run with fewer time-outs than Retries goes on without another, fewer than 2 * (len/512 + 1) * (Retries + 1)^2 events can still change anything, and when none can, the transfer has completed and the receiver has the payload |
| Tlv.BinaryPayload.WriteTo | chapter4/tlv.go:43-68 | the sink gets the frame, or as much as it takes; 5 + length is returned exactly when it took all |
| Tlv.BinaryPayload.ReadFrom | chapter4/tlv.go:71-108 | value, count, error and stream position for every stream and way of cutting it up, whether it ends or fails, before or together with its last bytes; what a failing payload read leaves in the value |
| Tlv.StringPayload.WriteTo | chapter4/tlv.go:120-143 | as for the binary payload, with type 2 |
| Tlv.StringPayload.ReadFrom | chapter4/tlv.go:145-182 | as for the binary payload, but every failure leaves the value as it was |
| Tlv.Decode | chapter4/tlv.go:186-235 | payload, error and position for every stream, with the type byte pushed back through a MultiReader and read again |
| Tlv.RefusedExactly | chapter4/tlv.go:186-207 | for every stream and position, the error and what is consumed when the stream is at its end, the type is neither 1 nor 2, the header is cut off, or the length is above 10 * 2^20; in all other cases decode succeeds or meets the end of the stream |
| Tlv.AcceptedIs | chapter4/tlv.go:186-235 | for every stream and position, a decoded value has the type read, the length in the four bytes behind it, and consists of the bytes consumed behind these, at least one if it is not empty, and zeros |
| Tlv.PushBackExactly | chapter4/tlv.go:209-235 | pushing the type byte back makes no difference to the decoder that the comment proposes instead, for payload, error and position, if and only if the frame is not an empty one whose last byte a quiet stream delivers together with end-of-file |
| Frames.FrameLayout | chapter4/tlv.go:43-68 | type, four length bytes with the highest first, payload; the length field is the length modulo 2^32 |
| Frames.DecodeFrame | chapter4/tlv.go:186-235 | what decode comes to where a frame stands in a stream, for payloads of any length and reads of any size |
| Frames.LengthChecked | chapter4/tlv.go:92-94 | below 2^32 a frame is refused, after exactly 5 bytes, if and only if its payload is longer than 10 * 2^20 bytes, and is otherwise decoded if and only if its payload read brings no error |
| Frames.LengthWraps | chapter4/tlv.go:53 | from 2^32 on the length modulo 2^32 is checked instead, and a frame that passes yields a payload of that wrong length |
| Frames.ShortRead | chapter4/tlv.go:96-107 | a read that brings o bytes gives the sender's first o bytes and zeros, with 5 + o consumed, and the stream is at the end of the frame if and only if the read brought all; it fails exactly when the stream reports its end with those bytes |
| Frames.SequenceRoundTrip | chapter4/tlv.go:186-235 | frames written in turn, of any sizes, are decoded to the same list with exactly the bytes written consumed, if and only if every payload is at most 10 MiB, every payload read is filled, and the stream does not end in a frame whose payload read reports the end |
| Frames.FilledReads | chapter4/tlv.go:186-235 | over a connection that fills every read a list comes back if and only if no payload is longer than 10 MiB |
| Frames.EmptyAtEnd | chapter4/tlv.go:96-103 | an empty payload at the very end of a bytes.Reader is not decoded |
| Pinger.Once | chapter3/ping.go:42-62 | one pass of the loop, for every case the select can take and every passage of time between its operations |
| Pinger.Deferred | chapter3/ping.go:35-40 | the deferred function stops the timer or receives its tick, and is stuck when there is neither |
| Pinger.Pinger | chapter3/ping.go:17-63 | clock, timer, interval, pings and the way out are those of the loop's function, for every first value and every sequence of rounds |
| Pinger.OneTickOrArmed | chapter3/ping.go:42-62 | at every select the timer is armed with no tick waiting, or expired with exactly its own tick waiting |
| Pinger.StuckExactlyOnWriteError | chapter3/ping.go:35-60 | Pinger blocks for ever if and only if a ping could not be written |
| Pinger.CancelEnds | chapter3/ping.go:35-46 | once a select has found the context cancelled, Pinger has returned, with no timer running, no tick waiting and no further ping, whatever follows |
| Pinger.ReturnsExactly | chapter3/ping.go:20-46 | Pinger returns if and only if the first select or a later one found the context cancelled; if the first did, no timer was ever armed and nothing pinged |
| Pinger.EachRound | chapter3/ping.go:42-62 | a reset never blocks, takes its value if positive and arms the timer afresh; a tick is received if and only if the timer is due, and then exactly one ping is written, by that tick and under the interval in force, and the timer armed afresh |
| Pinger.BothHappen | chapter3/ping.go:35-60 | from every start a run exists that pings on time and goes on, and one whose first ping fails and that is blocked for ever |
| Pinger.NoStaleTick | chapter3/ping.go:47-61 | each ping comes from a timer armed after the latest of start, reset and ping, at least the interval after it, and the interval after the ping before |
| Pinger.IntervalInForce | chapter3/ping.go:18-31 | the interval is positive and equals the latest positive value received, else 30 seconds; each ping uses the one then in force |
| MultiWriter.SustainedMultiWriter.constructor | chapter13/multi.go:26-36 | given writers that are leaves or hold only leaves, the new one holds all these leaves in order, with repeats |
| MultiWriter.SustainedMultiWriter.Write | chapter13/multi.go:17-24 | every leaf is called once in order, the count is the sum of what all of them returned, and the errors are all of theirs in order |
| MultiWriter.Build | chapter13/multi.go:26-36 | any nesting of calls yields a writer that holds exactly the leaves of the tree, left to right |
| MultiWriter.FlatIsNested | chapter13/multi.go:17-36 | writing to the flattened leaves has the effect of writing to the nested tree: same calls in the same order, same count, same errors, whatever the leaves do |
| MultiWriter.EveryLeafWritten | chapter13/multi.go:18-22 | every leaf is called once, in order, whatever failed before it |
| MultiWriter.EverythingCollected | chapter13/multi.go:18-23 | count and errors of writing to leaves are the sum and the collection of what each returned when called after those before it |
| MultiWriter.BuildAndWrite | chapter13/multi.go:17-36 | built by nested calls and written to, the writer does what recursive writing over the tree does: one call for each leaf, the sum of all counts, all errors in order |

## Left out

- Sockets, deadlines as wall-clock time and logging: a write succeeds or fails, a read times out, fails for good or brings a datagram, in any order.
- `ListenAndServe`. A turn of a handler, its write and the read after it, is one step of a schedule.
- In TLV decoding, a reader that returns no bytes and no error, on which `io.ReadFull` would not end, or whose failure does not last.
- Overflow of the `int` count in `sustainedMultiWriter.Write`, and of `time.Duration` in `Pinger`.
- The receiver is the one the README describes: TFTP clients that time out and resend an ACK on their own are covered only as far as such an ACK is a repeated datagram.
- The `Bytes` and `String` conversions of TLV payloads, and the text of error values and of a ping.
- `proxy.go`, `monitor.go` and `port.go` of chapter 4, the HTTP, TLS, Caddy, gRPC, logging and metrics chapters: their behaviour is that of libraries.
