# A verified model of the sponge TCP stack

The stack in `all-lab/libsponge` turns an unreliable datagram network into a pair of reliable byte
streams. This project models it down to the bytes of its headers and proves what it is for: what the
reader at one end sees is what the writer at the other end wrote.

Each C++ class is a Dafny class with the same fields, whose methods run the same loops and branches.
Beside it stands a value: a datatype for the object's state and a function for each operation. Every
method is proved to take the object from a state to exactly the function's result; what the stack
promises is proved about the functions, over all inputs and over whole runs of calls.

| files | what they hold |
|---|---|
| Words, WrappingIntegers, ByteStreams | machine words, 32-bit sequence numbers, the byte stream |
| Reassembly, StreamReassembler | the reassembler as a value and as an object |
| ReassemblyLaws, ReassemblyTheorems, ReassemblyMemory, ReassemblyBalance, ReassemblyRuns | its invariant, its meaning as a set of received bytes, its memory and its byte counter, whole runs |
| Segments, Receiving, Sending, TCPReceiver, TCPSender | the two halves of a connection |
| SenderLaws, ReceiverLaws | what every operation of a half keeps |
| EndToEnd, Progress, Boundaries, InOrder, OutOfOrder, Completion | a sender and a receiver joined by a network that loses, repeats and reorders: safety, progress, and that every run can be finished |
| Connections, TCPConnection, ConnectionLaws, Closing, Finality, Timing, Resets, Replies | the connection: invariant, closing, that closing is final, timer, resets, replies |
| Pair, PairBoundaries, PairReplies, PairCompletion | two whole connections joined by such a network, data flowing both ways: safety, no endless acknowledging, and that every run can be closed |
| Parsing, Checksums, Ipv4, TcpWire, TcpOverIp, Layouts, PseudoHeaders | the wire formats and their round trips, byte by byte, and what the checksums cover |
| Arp, ArpLaws, ArpFrames, NetworkInterface | address resolution, the queues behind it, and the frames it puts on the link |
| Routing, Router | longest-prefix match and forwarding |

The main results, in the order in which they build on each other:

- **Reassembly.** Any push keeps the chunks disjoint and in order. A push inside the window leaves the
  reassembler knowing exactly the bytes it was ever given, with the next index the least one missing.
  Memory stays within the capacity plus one substring.
- **End to end.** Over every run over a bad network the output is a prefix of the input and ends only
  when it is all of it; nothing sent is ever lost for good; and from wherever a run has got it can be
  continued until everything written has arrived and is acknowledged (`CanAlwaysFinish`).
- **Both ways.** Two whole connections over such a network keep both of their streams safe, whatever
  their applications do; a clean close of either means that both streams have arrived in full; and once
  both writers have ended, two live connections can always be run to a clean close (`CanAlwaysClose`).
- **Connections.** They close only cleanly or by a reset, stay closed and keep the timer rules of section 5
  of RFC 6298 unless they are connected again, never move backwards, tell the peer when they give up, and
  do not answer acknowledgments with acknowledgments.
- **Wire formats.** A segment survives being wrapped, printed, parsed and unwrapped; every field lies where
  the standards put it, the checksum covers what it should, and exactly the right datagrams are handed up.
- **ARP.** No stale address is used and no address is asked for too often; no datagram is lost, repeated or
  overtaken as long as those submitted can be printed; and exactly the requests for an interface are answered.
- **Routing.** The longest prefix wins, the first-added one among equals, its gateway is the next hop, and
  loops end.

Where the code does less than it or its comments promise, the model follows the code, and the condition
under which the promise holds is proved exactly:

- `unwrap` is documented to find the closest number. It does except at the very top of the 64-bit range
  (`UnwrapIsNearestIff`, with `UnwrapCanMiss` as an instance).
- `unassembled_bytes` is documented to count each stored byte once. After an overrun of a full output the
  leftover is erased but stays counted (`CountExactIff` for one push and `RunCountExactIff` for runs, with
  `CountCanDrift` as an instance).
- The reassembler is documented to stay within its capacity. A run stores nothing past its windows if and
  only if no substring overhangs one (`RunWindowedIff`). Whether a push ends within the capacity is decided
  from any state by the bytes it adds (`PushWithinCapacityIff`), and from a state inside the window by the
  overhang against what is missing before it (`OverhangWithinCapacityIff`). A run stays within it if and only
  if every push fits (`RunWithinCapacityIff`), and `OverhangExceedsCapacity` is one that does not. One
  substring is the most it can be off by (`RunWithinMemory`).
- A substring past the window is to be discarded. One that also covers the chunk waiting at the next index
  has erased that chunk by then (`PastWindowErases`, with the run `EarlyReturnErases` as an instance).
- The datagram and segment parsers are documented to check the header. They ignore the header parser's
  verdict (`Ipv4.AcceptedIff`, `TcpWire.AcceptedIff`, with `BadChecksumAccepted` and `ShortHeaderAccepted` as
  instances).
- The interface is to send every datagram once and in order. A datagram that is accepted from the wire may
  not be printable, and the program then throws in the middle of what it is doing: each step keeps the
  promise if and only if `SendConservesIff` and `LearnConservesIff` say so, a run does if and only if all its
  steps do (`NoneLostIff`), and runs whose submitted datagrams print always do (`NoneLost`);
  `UnprintableRepeats` shows what happens otherwise.
- A connection is to end after its retransmissions are used up, with its timeout doubled for each.
  `connect` does not check that the connection is over; each call on a dead one allows one more timeout,
  without end, until the register overflows (`RunTimed`, with `TimeoutsWithoutEnd` and `TimeoutVanishes`).
- An inactive connection is to stay inactive. Unless a dead connection is connected again, it does, whatever
  happens (`ClosedForGood`). `connect` does not check that either. It brings a connection back at once if and
  only if it had been reset before its streams had closed (`ConnectRevivesIff`); one that had lingered it
  leaves inactive but alive, so that the next segment makes it active, unless a tick comes first. That is
  the only way to such a state (`WakeableIff`), runs that get there are the only ones whose end is not final
  (`ClosedForGoodIff`), and there are such runs (`CanWake`).

Assumptions of the run theorems. Streams are short enough for their sequence space to fit 64 bits. In
the end-to-end models a segment or acknowledgment is delivered only while its absolute number is within
2^31 of the position it is read against, which is what `unwrap` needs and what holds by itself for shorter
streams (`AlwaysNear`); nothing else restricts when, how often or in which order it is delivered. All SYNs of
one direction carry one initial number. `NoOverrun` takes acknowledgments heard in the order they were
emitted (`AcksInOrder`), repetitions and losses allowed; `StaleAckOverruns` is a run that shows why.
`CanAlwaysFinish` and `CanAlwaysClose` take receivers with a capacity of at least one byte, and
`CanAlwaysClose` streams shorter than 2^31 bytes. The application may make any call at any time, `connect`
included; only `IdleIsQuietTime` and `ClosedForGood` take runs in which no call of `connect` meets a dead
connection (`NeverRevived`), the first because the clock does not run while it is dead, the second with the
exact condition in `ClosedForGoodIff`.

## Model

| member | source | states |
|---|---|---|
| WrappingIntegers.UnwrapWrapsBack | all-lab/libsponge/wrapping_integers.cc:33-46 | whatever the checkpoint, the absolute number found wraps back to the 32-bit number it came from |
| WrappingIntegers.UnwrapIsNearestIff | all-lab/libsponge/wrapping_integers.cc:23-46 | the result is nearest to the checkpoint among all 64-bit numbers with the same low bits, if and only if the checkpoint is not more than half an era past the last candidate of the last era |
| WrappingIntegers.UnwrapCanMiss | all-lab/libsponge/wrapping_integers.cc:33-46 | a concrete checkpoint at the top of the 64-bit range for which the result is 0 although the last candidate of the last era is far nearer |
| WrappingIntegers.UnwrapInvertsWrap | all-lab/libsponge/wrapping_integers.cc:16-46 | unwrapping a wrapped number gives it back for every initial number and every checkpoint less than 2^31 away, 64-bit overflow included |
| ByteStreams.ReadsInOrder | all-lab/libsponge/byte_stream.cc:22-53 | popping what a peek showed moves over exactly those bytes of the history, writes only extend the history and never past the capacity, and a peek is empty only when nothing is buffered |
| ByteStreams.ByteStream.Write | all-lab/libsponge/byte_stream.cc:22-33 | the history grows by the accepted prefix of the data and nothing else changes; the returned count is its length, zero once ended or failed |
| ByteStreams.ByteStream.PeekOutput | all-lab/libsponge/byte_stream.cc:36-42 | the bytes from the read position on, as many as asked for and buffered, none after an error |
| ByteStreams.ByteStream.PopOutput | all-lab/libsponge/byte_stream.cc:45-53 | the read position moves by what a peek of that length shows |
| ByteStreams.ByteStream.Read | all-lab/libsponge/byte_stream.hh:60-64 | returns the peek and pops it |
| ByteStreams.ByteStream.IsEof | all-lab/libsponge/byte_stream.cc:71-74 | true exactly when the input ended and everything was read |
| StreamReassemblers.StreamReassembler.PushSubstring | all-lab/libsponge/stream_reassembler.cc:28-193 | runs the search, the trim loop, the store, the drain loop and the end record in place on the object, ends in the specified state, and keeps the invariant; the check inside the drain loop cannot fail |
| StreamReassemblers.StreamReassembler.CutAgainstStored | all-lab/libsponge/stream_reassembler.cc:71-134 | finds where the new bytes start, erases the chunks they swallow and cuts them at the next chunk |
| StreamReassemblers.StreamReassembler.TrimFrom | all-lab/libsponge/stream_reassembler.cc:115-134 | the trim loop, with the chunk list, the byte counter and the remaining size it leaves |
| StreamReassemblers.StreamReassembler.StoreNew | all-lab/libsponge/stream_reassembler.cc:146-162 | writes bytes that come next and keeps the rest, or stores bytes that do not |
| StreamReassemblers.StreamReassembler.DrainStored | all-lab/libsponge/stream_reassembler.cc:166-188 | the drain loop, including the lost leftover when nothing could be written |
| StreamReassemblers.StreamReassembler.DrainFirst | all-lab/libsponge/stream_reassembler.cc:169-184 | one round of that loop: the chunk at the next index is written as far as there is room, and its leftover kept under its new index, or dropped if nothing could be written |
| StreamReassemblers.StreamReassembler.UnassembledBytes | all-lab/libsponge/stream_reassembler.cc:195 | returns the counter, which is never below the bytes stored |
| StreamReassemblers.StreamReassembler.IsEmpty | all-lab/libsponge/stream_reassembler.cc:197 | if it says empty nothing is stored; the converse holds whenever the counter is exact |
| ReassemblyLaws.CutSplits | all-lab/libsponge/stream_reassembler.cc:84-134 | cutting splits the stored chunks into those before the new bytes, those swallowed by them and those after; only the middle part goes, and the counter drops by exactly its bytes |
| ReassemblyLaws.PushKeeps | all-lab/libsponge/stream_reassembler.cc:109-193 | after any push, in or out of the window, to an open, ended or failed output, chunks are non-empty, disjoint and in order, start inside the window or right at the next index, the next index equals the bytes written, and no stored byte is uncounted |
| ReassemblyTheorems.CutHave | all-lab/libsponge/stream_reassembler.cc:84-134 | bytes known before and bytes arriving are exactly the bytes still stored and the piece left to store |
| ReassemblyTheorems.NextIsLeastMissing | all-lab/libsponge/stream_reassembler.cc:166-188 | in a reassembler nobody has overrun the next index is the least byte not received |
| ReassemblyTheorems.PushRefines | all-lab/libsponge/stream_reassembler.cc:71-188 | after a push inside the window exactly the old bytes and the pushed bytes are known, whatever overlaps, and the counter is again their exact number beyond the next index |
| ReassemblyTheorems.CountExactIff | all-lab/libsponge/stream_reassembler.cc:140-188 | from an exact counter, a push keeps it exact if and only if it does not overrun an open output (new bytes at the next index that reach past the window and past everything stored) and does not, inside the window, meet an ended or failed output with bytes that come next |
| ReassemblyTheorems.CountCanDrift | all-lab/libsponge/stream_reassembler.cc:152-180 | a concrete overrun after which the counter is one and nothing is stored |
| ReassemblyTheorems.PushSlices | all-lab/libsponge/stream_reassembler.cc:145-188 | pushing parts of one stream in any order, overlapping or past the window, leaves the output a prefix of that stream and every stored chunk a part of it |
| ReassemblyTheorems.PushEnds | all-lab/libsponge/stream_reassembler.cc:189-192 | the recorded end is the end of the stream, and the output ends only when it is the whole stream |
| ReassemblyTheorems.PushEof | all-lab/libsponge/stream_reassembler.cc:141-142 | a push that starts past the window records no end; any other records its end and ends the output once the recorded end is reached |
| ReassemblyTheorems.PrefixGrows | all-lab/libsponge/stream_reassembler.cc:145-192 | what has been written stays written, and an ended output stays ended |
| ReassemblyRuns.RunWithinMemory | all-lab/libsponge/stream_reassembler.cc:135-162 | over any run, buffered plus stored bytes never exceed the capacity plus the longest substring pushed |
| ReassemblyMemory.PushWindowedIff | all-lab/libsponge/stream_reassembler.cc:135-162 | from a state whose chunks lie in the window, a push keeps every stored byte in the window if and only if its new bytes do not start past the next index and inside the window and end past it |
| ReassemblyMemory.OverhangWithinCapacityIff | all-lab/libsponge/stream_reassembler.hh:24-32 | from such a state, a push keeps buffered and stored bytes within the capacity if and only if it does not overhang the window by more than the bytes missing before it |
| ReassemblyBalance.NewBytesAre | all-lab/libsponge/stream_reassembler.cc:84-134 | what is left of a push after the search and the trims is as long as the number of its bytes not known before, less the stored bytes it swallowed |
| ReassemblyBalance.PastWindowErases | all-lab/libsponge/stream_reassembler.cc:109-142 | a push whose new bytes start past the window returns early, and by then has erased the chunk waiting at the next index if and only if it starts before that index and covers it; otherwise it changes nothing in the number of bytes held |
| ReassemblyRuns.EarlyReturnErases | all-lab/libsponge/stream_reassembler.cc:109-142 | a run of three pushes from the start in which the third erases a byte that the first brought in |
| ReassemblyBalance.PushBalance | all-lab/libsponge/stream_reassembler.cc:71-188 | from any state, buffered bytes plus the counter grow by exactly the number of bytes not known before, or shrink by what an early return erased |
| ReassemblyBalance.PushLoses | all-lab/libsponge/stream_reassembler.cc:166-188 | how much a push makes the counter drift from the bytes stored: the leftover of an overrun of an open output, or the chunk that meets a closed one; never less than nothing, so no push repairs a drift |
| ReassemblyBalance.PushMemory | all-lab/libsponge/stream_reassembler.cc:71-188 | buffered plus stored bytes after any push, from any state, as bytes gained less bytes lost |
| ReassemblyBalance.PushWithinCapacityIff | all-lab/libsponge/stream_reassembler.hh:24-32 | from any state with an open output, overhanging chunks or not, a push ends within the capacity if and only if it overruns the output, after which nothing is stored, or the bytes held and the unknown bytes it brings fit together |
| ReassemblyRuns.RunWindowedIff | all-lab/libsponge/stream_reassembler.hh:24-32 | a run keeps every stored byte in the window in every state it goes through if and only if no push of it overhangs the window it meets, and it is then within the capacity, as documented |
| ReassemblyRuns.RunMemory | all-lab/libsponge/stream_reassembler.cc:71-188 | over any run, with an open, ended or failed output, the bytes held are those held before, with the unknown bytes each push brought in, less what each lost and what was read |
| ReassemblyRuns.RunWithinCapacityIff | all-lab/libsponge/stream_reassembler.hh:24-32 | a run stays within the capacity in every state it goes through if and only if every push of it fits the state it meets: it overruns an open output, or the bytes held and brought in, less those a closed output loses, are within the capacity |
| ReassemblyRuns.RunCountExactIff | all-lab/libsponge/stream_reassembler.cc:140-195 | from an exact counter, a run ends with an exact one if and only if none of its pushes overran an open output or brought the next bytes to a closed one: a drift once made is never repaired |
| ReassemblyRuns.OverhangExceedsCapacity | all-lab/libsponge/stream_reassembler.cc:135-142 | a concrete push that overhangs the window and stores three bytes with a capacity of two |
| ReassemblyRuns.RunRefines | all-lab/libsponge/stream_reassembler.cc:71-188 | over any in-window run with reads in between, the bytes known are exactly those known before and those received |
| ReassemblyRuns.OrderIrrelevant | all-lab/libsponge/stream_reassembler.cc:71-188 | two in-window runs that received the same bytes, in whatever order and overlap, have the same next index, the least byte not received, and the same counter |
| ReassemblyRuns.RunWritesStream | all-lab/libsponge/stream_reassembler.cc:71-188 | over any run of parts of one stream the output is that stream up to the next index |
| TCPReceivers.TCPReceiver.SegmentReceived | all-lab/libsponge/tcp_receiver.cc:5-34 | records the initial number at every SYN, drops everything before the first, and pushes the payload at its stream index; ends in the specified state |
| TCPReceivers.TCPReceiver.Ackno | all-lab/libsponge/tcp_receiver.cc:36-48 | none before a SYN, then the wrapped count of SYN, bytes written and ended input |
| TCPReceivers.TCPReceiver.WindowSize | all-lab/libsponge/tcp_receiver.cc:50-52 | the capacity less the buffered bytes |
| ReceiverLaws.WindowNeverShrinks | all-lab/libsponge/tcp_receiver.cc:36-52 | whatever segment arrives, the acknowledgment number and both the full and the clamped right edge do not go back |
| ReceiverLaws.LatestSynCounts | all-lab/libsponge/tcp_receiver.cc:5-48 | every SYN, a repeated or contradicting one included, sets the number acknowledgments are counted from; nothing else does |
| ReceiverLaws.ReadingOpensWindow | all-lab/libsponge/tcp_receiver.cc:50-52 | reading moves the right edge by exactly the bytes read |
| ReceiverLaws.RightEdgeIsLimit | all-lab/libsponge/tcp_receiver.cc:36-52 | until the stream ends the right edge is the first index the reassembler does not accept |
| ReceiverLaws.EdgeHeard | all-lab/libsponge/tcp_connection.cc:128-132 | until the stream ends, acknowledgment number and header window together name that index, or lie 65535 past the acknowledgment number if it is further off |
| ReceiverLaws.IndexIs | all-lab/libsponge/tcp_receiver.cc:19-23 | a segment within 2^31 of the receiver's position is placed at the stream index its absolute number names |
| ReceiverLaws.ReceiveFeeds | all-lab/libsponge/tcp_receiver.cc:5-34 | a segment of the sender's sequence space, new, repeated or out of order, leaves the receiver holding only parts of that space, ended only if the space is ended and complete |
| TCPSenders.TCPSender.FillWindow | all-lab/libsponge/tcp_sender.cc:22-68 | the filling loop terminates in the state of the specified loop |
| TCPSenders.TCPSender.SendNext | all-lab/libsponge/tcp_sender.cc:30-62 | one round of that loop: SYN, payload, FIN if it still fits, queues and timer |
| TCPSenders.TCPSender.Enqueue | all-lab/libsponge/tcp_sender.cc:54-62 | queues a segment, keeps it for retransmission, moves the next number past it and sees that the timer runs |
| TCPSenders.TCPSender.AckReceived | all-lab/libsponge/tcp_sender.cc:72-114 | acceptability, window, new-data reset, popping, refilling and the timer, in place |
| TCPSenders.TCPSender.TakeAcknowledgment | all-lab/libsponge/tcp_sender.cc:80-104 | the window, the acknowledged number, the reset on new data and the popping, and whether the data was new |
| TCPSenders.TCPSender.SetTimer | all-lab/libsponge/tcp_sender.cc:108-113 | the timer stops when nothing is outstanding and restarts on new data |
| TCPSenders.TCPSender.PopAcknowledged | all-lab/libsponge/tcp_sender.cc:94-104 | drops outstanding segments from the front for as long as they are acknowledged in full |
| TCPSenders.TCPSender.Tick | all-lab/libsponge/tcp_sender.cc:117-134 | resends the first outstanding segment when the time runs out, doubling the timeout only with an open window |
| TCPSenders.TCPSender.SendEmptySegment | all-lab/libsponge/tcp_sender.cc:140-144 | queues a segment of length zero at the next number, not kept for retransmission |
| SenderLaws.QuietIff | all-lab/libsponge/tcp_sender.cc:52-62 | nothing in flight, nothing outstanding and the timer off are one and the same |
| SenderLaws.StreamGrows | all-lab/libsponge/tcp_sender.cc:22-68 | writing to or ending the outbound stream keeps the whole structure |
| SenderLaws.FillKeeps | all-lab/libsponge/tcp_sender.cc:22-68 | new segments continue the tiling without a gap, each is the slice of the stream its number names, and in-flight stays within the window unless it already was above |
| SenderLaws.FillIsGreedy | all-lab/libsponge/tcp_sender.cc:29-67 | filling stops only when the window is full or every byte, and the FIN if there is one, has been sent |
| SenderLaws.FillsFull | all-lab/libsponge/tcp_sender.cc:29-67 | every segment a fill sends but its last carries a thousand bytes |
| SenderLaws.PopTiles | all-lab/libsponge/tcp_sender.cc:94-104 | the absolute number of every outstanding segment is read back exactly, and popping removes exactly those that end at or before the acknowledged number |
| SenderLaws.AckKeeps | all-lab/libsponge/tcp_sender.cc:72-114 | any acknowledgment, unacceptable, stale or new, keeps the tiling; an acceptable one moves the acknowledged number to the larger of the two and a bad one changes nothing |
| SenderLaws.WholeTimeout | all-lab/libsponge/tcp_sender.cc:52-62 | what is sent when nothing was outstanding has the whole timeout before it is sent again |
| SenderLaws.TickKeeps | all-lab/libsponge/tcp_sender.cc:117-134 | time changes nothing in the structure, and what is resent is the first outstanding segment |
| EndToEnd.StepKeeps | all-lab/libsponge/tcp_sender.cc:18-144 | every step of writer, sender, lossy network, receiver and reader keeps the invariant of the whole system |
| EndToEnd.RunIsSafe | all-lab/libsponge/stream_reassembler.cc:28-193 | over every run over a network that loses, repeats and reorders, the receiver's output is a prefix of the bytes written, and it is ended only when it is all of them and the writer ended |
| EndToEnd.NothingLost | all-lab/libsponge/tcp_sender.cc:94-104 | every sequence number sent but not yet assembled lies in an outstanding segment that holds what the space holds there |
| EndToEnd.AlwaysNear | all-lab/libsponge/wrapping_integers.cc:33-46 | while less than 2^31 numbers have been written, every segment and acknowledgment ever emitted may be delivered: the distance assumption of the runs excludes nothing |
| Progress.PushAdvances | all-lab/libsponge/stream_reassembler.cc:140-188 | with an open window, bytes that come next advance the next index and an end that comes next ends the output, whatever is stored if they start before that index, and if no chunk waits there otherwise |
| Progress.PushAdvancesIff | all-lab/libsponge/stream_reassembler.cc:140-188 | with room in an open output, a push advances the next index if and only if it starts inside the window and a chunk waits at the next index or its own bytes cover it |
| Progress.FrontAdvances | all-lab/libsponge/tcp_sender.cc:124-125 | when both ends agree, the window is open and nothing stored keeps it out, delivering the front outstanding segment advances the receiver |
| Progress.AckCatchesUp | all-lab/libsponge/tcp_sender.cc:84-91 | a fresh acknowledgment brings the sender to where the receiver is |
| Progress.RoundAdvances | all-lab/libsponge/tcp_sender.cc:117-134 | timeout, resend, delivery and acknowledgment together are possible and advance the sender |
| InOrder.NoOverrun | all-lab/libsponge/tcp_sender.cc:27-57 | with acknowledgments heard in order the sender never passes the right edge by more than the zero-window probe, no chunk waits at the next index, and the byte counter is exact |
| OutOfOrder.StaleAckOverruns | all-lab/libsponge/tcp_sender.cc:72-92 | a run in which an acknowledgment arrives once more after a later one, and the sender passes the right edge by two numbers |
| Boundaries.DrainClean | all-lab/libsponge/stream_reassembler.cc:166-188 | draining leaves a chunk at the next index only after writing a part of it, so never at a place where a segment starts |
| Boundaries.PushClean | all-lab/libsponge/stream_reassembler.cc:71-188 | pushing bytes that no segment start cuts keeps every chunk uncut, and keeps a chunk from waiting where a segment starts |
| Boundaries.RunClean | all-lab/libsponge/tcp_sender.cc:22-134 | over every run segments with content never overlap, everything outstanding is in the network, and no chunk waits where a segment starts |
| Boundaries.NeverStuck | all-lab/libsponge/tcp_sender.cc:117-134 | on every run, acknowledgments in any order, with an open window and the ends in agreement, one timeout with its segment and acknowledgment delivered always makes progress |
| Completion.CanAlwaysFinish | all-lab/libsponge/tcp_sender.cc:22-134 | from every state any run can reach once the writer has ended, with a receiver of non-zero capacity, there is a continuation after which the receiver has ended with exactly what was written and the sender has nothing outstanding; it hears acknowledgments in order if the run so far did |
| Pairs.StartReadBack | all-lab/libsponge/tcp_sender.cc:52-55 | the number every segment was emitted at, retransmissions included, is read back exactly from its header at emission |
| Pairs.MoveKeeps | all-lab/libsponge/tcp_connection.cc:11-147 | every call on, and every arrival at, either of two connections joined by a lossy network keeps the invariant of the pair, resets and calls after them, connect included, notwithstanding |
| Pairs.BothWaysSafe | all-lab/libsponge/tcp_connection.cc:11-147 | over every run of such a pair, with data both ways and acknowledgments carried in the segments' headers, each end's output is a prefix of what the other wrote, and it is ended only when it is all of it and that writer ended |
| Pairs.CleanCloseIsComplete | all-lab/libsponge/tcp_connection.cc:61-91 | on such a run, once an end is inactive without a reset, everything it wrote has arrived at the other end and everything written there has arrived here |
| Pairs.AlwaysNear | all-lab/libsponge/wrapping_integers.cc:33-46 | while less than 2^31 numbers have been written at each end, every segment ever sent may be delivered, whatever it acknowledges: the conditions on distances exclude nothing |
| PairBoundaries.HandedPackets | all-lab/libsponge/tcp_connection.cc:123-135 | what a connection hands over in a step, apart from segments without content, is what it newly sent and what it had outstanding, each at the number it was first sent at |
| PairBoundaries.RunAligned | all-lab/libsponge/tcp_connection.cc:11-147 | over every run of the pair, at either end that has not failed: segments with content never overlap, everything outstanding is in the network, nothing stored at the other end waits where a segment starts, and there were at most eight timeouts in a row |
| PairCompletion.Exchange | all-lab/libsponge/tcp_connection.cc:11-59 | in a live pair, when an end has not heard everything acknowledged, a read, one delivered segment and its delivered answer take it further |
| PairCompletion.CanAlwaysClose | all-lab/libsponge/tcp_connection.cc:11-104 | from every state a run of the pair can reach once both writers have ended, with both connections alive and not failed and capacities of at least one byte, there is a continuation to the clean close of both, with both streams delivered in full |
| TCPConnections.TCPConnection.SegmentReceived | all-lab/libsponge/tcp_connection.cc:11-59 | reset, receiver, sender, connect on SYN, lingering, replies and sending, with the resulting state of both halves and the queue |
| TCPConnections.TCPConnection.Absorb | all-lab/libsponge/tcp_connection.cc:22-27 | the receiver and then, for an acknowledgment, the sender take the segment in |
| TCPConnections.TCPConnection.Respond | all-lab/libsponge/tcp_connection.cc:29-58 | connect on a first SYN, otherwise the end of lingering, the reply and the sending |
| TCPConnections.TCPConnection.Reply | all-lab/libsponge/tcp_connection.cc:45-56 | fills the window or else queues a bare acknowledgment for content, and answers a keep-alive; which segment that is, `Replies.BareAnswerIff` says |
| TCPConnections.TCPConnection.IsActive | all-lab/libsponge/tcp_connection.cc:61-75 | alive, and not both streams closed with the lingering over |
| TCPConnections.TCPConnection.Tick | all-lab/libsponge/tcp_connection.cc:77-91 | time for the sender, a reset after too many timeouts in a row, sending, and the final check of activity |
| TCPConnections.TCPConnection.Connect | all-lab/libsponge/tcp_connection.cc:93-97 | fills the window, makes the connection alive and sends |
| TCPConnections.TCPConnection.Write | all-lab/libsponge/tcp_connection.cc:99-104 | writes to the stream, refills, sends, and returns what was accepted |
| TCPConnections.TCPConnection.EndInput | all-lab/libsponge/tcp_connection.cc:106-110 | ends the stream, refills and sends |
| TCPConnections.TCPConnection.Destroy | all-lab/libsponge/tcp_connection.cc:112-120 | an active connection is reset and sends what `Resets.StepSends` says |
| TCPConnections.TCPConnection.SendSegments | all-lab/libsponge/tcp_connection.cc:123-135 | moves the sender's queue over in order, each segment stamped with acknowledgment number and clamped window |
| TCPConnections.TCPConnection.SetRstState | all-lab/libsponge/tcp_connection.cc:137-147 | queues a reset if asked, fails both streams and makes the connection inactive; that the reset carries the flag, `Resets.StepSends` says |
| TCPConnections.TCPConnection.ReceiverState | all-lab/libsponge/tcp_helpers/tcp_state.cc:82-92 | the receiver's summary |
| TCPConnections.TCPConnection.SenderState | all-lab/libsponge/tcp_helpers/tcp_state.cc:94-110 | the sender's summary |
| ConnectionLaws.StepKeeps | all-lab/libsponge/tcp_connection.cc:11-147 | every call, in any state, keeps the connection's invariant and moves both halves only forward |
| Closing.CloseIsClean | all-lab/libsponge/tcp_connection.cc:61-91 | over every run, a connection inactive without a reset has its inbound stream ended, every written byte and the FIN sent and acknowledged, and has lingered if it had to |
| Closing.FirstToCloseWaits | all-lab/libsponge/tcp_connection.cc:36-41 | when a side that sent its FIN before the inbound stream ended is inactive without a reset, its idle clock reads at least ten timeouts |
| Closing.QuietAtTheEnd | all-lab/libsponge/tcp_connection.cc:70-90 | at the very call that makes such a side inactive, at least ten timeouts have been ticked since the last segment arrived |
| Closing.ActiveIsQuietTime | all-lab/libsponge/tcp_connection.cc:12-13 | over every run, while a connection that has not failed is active its idle clock is the time ticked since the last arrival |
| Closing.IdleIsQuietTime | all-lab/libsponge/tcp_connection.cc:12-13 | failed or not, the same holds while the connection is alive, as long as connect was not called on a dead one |
| Finality.ClosedForGood | all-lab/libsponge/tcp_connection.cc:11-147 | on every run in which connect was not called on a dead connection, a connection that has become inactive stays inactive under every sequence of calls without connect |
| Finality.ClosedForGoodIff | all-lab/libsponge/tcp_connection.cc:11-147 | over every run, whatever was called, the inactive connection it ends in stays so under everything but connect if and only if the run did not leave it dozing: since a dead connection that had lingered was last connected again, there has been a tick or an arrival |
| Finality.WakeableIff | all-lab/libsponge/tcp_connection.cc:61-97 | over every run, a segment can wake the inactive connection it ends in exactly when the run left it dozing |
| Finality.NeverRevivedNeverDozes | all-lab/libsponge/tcp_connection.cc:93-97 | a run in which connect was not called on a dead connection never leaves it dozing |
| Finality.CanWake | all-lab/libsponge/tcp_connection.cc:11-97 | a run from the start, for every configuration with a positive timeout and any receiving capacity, that closes cleanly, is connected again and stays inactive, and is made active by the next segment |
| Finality.InactiveForGoodIff | all-lab/libsponge/tcp_connection.cc:11-91 | in terms of one state: an inactive connection stays inactive under every sequence of calls without connect if and only if it is dead, or does not linger, or has a timeout of zero to linger for |
| Finality.SegmentWakes | all-lab/libsponge/tcp_connection.cc:12-75 | any other inactive connection, which only connecting a dead one leads to, is active again after the next segment that is no reset |
| Finality.ConnectLetsWake | all-lab/libsponge/tcp_connection.cc:93-97 | connect puts a dead connection that closed cleanly after lingering into that state: inactive still, and active after the next segment that is no reset |
| Finality.NeedsNoLinger | all-lab/libsponge/tcp_connection.cc:36-41 | after a segment that leaves the inbound stream ended, the SYN acknowledged and the FIN not yet sent, the connection no longer lingers |
| Finality.LastToCloseDoesNotWait | all-lab/libsponge/tcp_connection.cc:36-75 | on every run such a side is inactive as soon as everything it sends, the FIN included, is acknowledged, without waiting |
| Closing.ConnectRevivesIff | all-lab/libsponge/tcp_connection.cc:93-97 | connect makes an inactive connection active at once if and only if it was reset and its streams had not closed first |
| Closing.ConnectRevives | all-lab/libsponge/tcp_connection.cc:93-97 | a concrete reset connection that connect revives |
| Closing.RunMovesForward | all-lab/libsponge/tcp_helpers/tcp_state.cc:82-110 | over every run neither state summary moves backwards, and neither the acknowledgment number nor the offered right edge is taken back |
| Closing.SummariesMean | all-lab/libsponge/tcp_helpers/tcp_state.cc:82-110 | the summaries say a failure first, and else in numbers whether the SYN is out, whether it is acknowledged, whether the FIN is out and whether all is acknowledged |
| Timing.NoOverflow | all-lab/libsponge/tcp_sender.cc:127-129 | nine doublings of any 16-bit timeout fit the 32-bit register |
| Timing.RunTimed | all-lab/libsponge/tcp_connection.cc:77-91 | over every run, whatever is called, the timeout is the initial one times two to the number of open-window timeouts since the last new acknowledgment, in 32 bits; there are at most eight timeouts in a row while alive, nine at the reset, and one more for every call of connect on a dead connection since; without such a call nothing overflows and the elapsed time stays below the timeout |
| Timing.TimeoutsWithoutEnd | all-lab/libsponge/tcp_connection.cc:77-97 | for every number there is a run with that many timeouts in a row, by connecting again after each reset, with exactly as many revivals as the bound above asks for, and the timeout is then doubled that often in its 32-bit register |
| Timing.TimeoutVanishes | all-lab/libsponge/tcp_sender.cc:127-129 | a run after which the timeout of a connection configured with 2^15 milliseconds is zero |
| Replies.OccupyingIsAnswered | all-lab/libsponge/tcp_connection.cc:43-58 | in an alive connection that has seen a SYN, a segment with content is answered, every answer carries the updated acknowledgment number and window, and one without content is sent only if there is nothing else to send |
| Replies.ContentBeforeSynIsAnswered | all-lab/libsponge/tcp_connection.cc:45-50 | content that arrives before any SYN is not taken in, yet something is sent |
| Replies.AckIsNotAnswered | all-lab/libsponge/tcp_connection.cc:43-58 | a segment without content provokes only segments that occupy sequence space, unless its number is the acknowledgment number less one |
| Replies.KeepAliveIsAnswered | all-lab/libsponge/tcp_connection.cc:52-56 | if it is, the segment is answered, at the end with one without content, and everything sent reports acknowledgment number and window |
| Replies.BareAnswerIff | all-lab/libsponge/tcp_connection.cc:43-58 | over every run, a segment without content is answered by one if and only if its number is the acknowledgment number less one |
| PairReplies.OldBareAnswerIff | all-lab/libsponge/tcp_connection.cc:43-58 | between two connections, a segment without content is answered by one if and only if it was sent at the number before the one acknowledged now |
| PairReplies.AcknowledgmentsEnd | all-lab/libsponge/tcp_connection.cc:43-58 | on every run of two connections, once one has taken in everything the other sent, no acknowledgment the other sends from there provokes another |
| Resets.StepSends | all-lab/libsponge/tcp_connection.cc:77-147 | a call that takes an alive connection past eight timeouts in a row, or destroys an active one, sends exactly one segment, with the RST flag and the next number; no other call sends one with that flag |
| Resets.ResetsAreSent | all-lab/libsponge/tcp_connection.cc:77-147 | over every run as many segments with the RST flag are sent as there are such calls; each such call kills the connection and fails both its streams, and what it sends does the same to any alive connection it arrives at, which sends nothing |
| Resets.PeerIsTold | all-lab/libsponge/tcp_connection.cc:12-19 | between two connections, what the one that gives up sends can be delivered to the other, and then both are dead |
| Parsing.NetParser.ParseInt | all-lab/libsponge/util/parser.cc:20-43 | reads a big-endian integer, or sets the error and gives zero |
| Parsing.NetParser.RemovePrefix | all-lab/libsponge/util/parser.cc:45-51 | skips bytes, or sets the error |
| Parsing.UnparseInt | all-lab/libsponge/util/parser.cc:53-60 | appends an integer, most significant byte first |
| Parsing.AllReadBack | all-lab/libsponge/util/parser.cc:26-60 | reading a sequence of integers of given widths just written gives them back and leaves what follows |
| Parsing.AfterAllShort | all-lab/libsponge/util/parser.cc:11-51 | reading integers past the end of the buffer reads those that still lie in it, gives zero for the others and leaves the error that says it was too short |
| Checksums.InternetChecksum.AddBytes | all-lab/libsponge/util/util.cc:89-98 | the byte loop with its parity, in 32-bit arithmetic |
| Checksums.InternetChecksum.GetValue | all-lab/libsponge/util/util.cc:100-108 | the folding loop and the complement |
| Checksums.AddIsSum | all-lab/libsponge/util/util.cc:89-98 | as long as the sum fits 32 bits, adding bytes adds the 16-bit words they form, odd lengths included |
| Checksums.FoldLaw | all-lab/libsponge/util/util.cc:100-108 | folding keeps the residue modulo 65535 and gives zero only for zero |
| Checksums.FilledInPasses | all-lab/libsponge/util/util.cc:79-83 | data with the checksum of everything else filled in at an even offset passes |
| Checksums.WordErrorCaughtIff | all-lab/libsponge/util/util.cc:89-108 | after replacing one aligned word, data that passed still passes if and only if the two words agree modulo 65535 and not everything added up, the initial sum included, is zero |
| Ipv4.SerializeHeader | all-lab/libsponge/tcp_helpers/ipv4_header.cc:78-110 | prints the header fields and padding, refusing a wrong version or a short header |
| Ipv4.ParseHeaderFrom | all-lab/libsponge/tcp_helpers/ipv4_header.cc:23-75 | all verdicts in the order they are taken, and where each leaves the parser and the fields |
| Ipv4.Serialize | all-lab/libsponge/tcp_helpers/ipv4_datagram.cc:23-41 | prints a datagram with its header checksum, refusing a payload of the wrong size |
| Ipv4.Parse | all-lab/libsponge/tcp_helpers/ipv4_datagram.cc:11-21 | parses a datagram, ignoring the header's verdict as the code does |
| Ipv4.DatagramRoundTrip | all-lab/libsponge/tcp_helpers/ipv4_datagram.cc:11-41 | what is printed parses back to the same datagram with its checksum filled in, and its header is judged sound |
| Ipv4.PrintsIff | all-lab/libsponge/tcp_helpers/ipv4_datagram.cc:23-41 | a datagram prints if and only if its version, header length and payload length are right |
| Ipv4.AcceptedIff | all-lab/libsponge/tcp_helpers/ipv4_datagram.cc:11-21 | exactly which byte strings are accepted: well-formed headers with any checksum, and malformed ones whose lengths happen to match |
| Ipv4.SoundIff | all-lab/libsponge/tcp_helpers/ipv4_header.cc:23-75 | a header is judged sound if and only if its version, lengths and checksum are right |
| Layouts.IpLayout | all-lab/libsponge/tcp_helpers/ipv4_header.cc:78-110 | where every field lies in the printed bytes, in numbers, and that the rest is zero |
| Ipv4.BadChecksumAccepted | all-lab/libsponge/tcp_helpers/ipv4_datagram.cc:13 | a concrete datagram with a bad header checksum that is accepted |
| Ipv4.AcceptedUnprintable | all-lab/libsponge/tcp_helpers/ipv4_datagram.cc:11-30 | a concrete datagram that is accepted and cannot be printed |
| TcpWire.SerializeHeader | all-lab/libsponge/tcp_helpers/tcp_header.cc:51-78 | prints fields, flags and padding, refusing a short header |
| TcpWire.ParseHeaderFrom | all-lab/libsponge/tcp_helpers/tcp_header.cc:17-48 | reads fields and flags and skips options |
| TcpWire.Serialize | all-lab/libsponge/tcp_helpers/tcp_segment.cc:30-45 | prints a segment with the checksum over pseudo-header, header and payload |
| TcpWire.Parse | all-lab/libsponge/tcp_helpers/tcp_segment.cc:12-23 | checks the checksum and parses, ignoring the header's verdict as the code does |
| TcpWire.SegmentRoundTrip | all-lab/libsponge/tcp_helpers/tcp_segment.cc:12-45 | a printed segment, of odd or even length, passes its checksum and parses back with the checksum filled in |
| TcpWire.AcceptedIff | all-lab/libsponge/tcp_helpers/tcp_segment.cc:12-23 | exactly which byte strings are accepted: the checksum passes and the header fits, or claims to be too short |
| Layouts.TcpLayout | all-lab/libsponge/tcp_helpers/tcp_header.cc:51-78 | where every field and every flag lies in the printed bytes, in numbers, and that the rest is zero |
| TcpWire.ShortHeaderAccepted | all-lab/libsponge/tcp_helpers/tcp_segment.cc:20 | a concrete segment whose header is judged too short and that is accepted |
| TcpOverIp.TCPOverIPv4Adapter.WrapTcpInIp | all-lab/libsponge/tcp_helpers/tcp_over_ip.cc:75-90 | sets the ports in the caller's segment, which is returned, sets addresses and length, and prints that segment into the datagram, with the checksum `PseudoHeaders.WrappedPasses` describes |
| TcpOverIp.TCPOverIPv4Adapter.UnwrapTcpInIp | all-lab/libsponge/tcp_helpers/tcp_over_ip.cc:26-71 | all filters in order, and how a listening adapter takes its addresses from a SYN; what comes of it, `PseudoHeaders.HandedUpIff` says |
| TcpOverIp.AccumulatorFits | all-lab/libsponge/tcp_helpers/tcp_over_ip.cc:80-87 | for every segment that fits a datagram the checksum accumulator stays within 32 bits |
| PseudoHeaders.PseudoIsSum | all-lab/libsponge/tcp_helpers/ipv4_header.cc:113-131 | the number the TCP checksum starts from is the sum of the words of source and destination address, zero and protocol, and length |
| PseudoHeaders.CoversPseudoHeader | all-lab/libsponge/tcp_helpers/tcp_segment.cc:12-45 | checking from that number is checking those bytes and the TCP part from zero |
| PseudoHeaders.WrappedPasses | all-lab/libsponge/tcp_helpers/tcp_over_ip.cc:75-90 | what is printed passes a checksum from zero together with those bytes, in a plain unfragmented header with a time to live of 128 |
| PseudoHeaders.AddressErrorCaughtIff | all-lab/libsponge/tcp_helpers/ipv4_header.cc:125-131 | a TCP part that passes between two addresses passes between two others if and only if the words of the addresses add up to the same modulo 65535 and not everything is zero |
| PseudoHeaders.HandedUpIff | all-lab/libsponge/tcp_helpers/tcp_over_ip.cc:26-71 | exactly which datagrams are handed up: TCP that passes its checksum, with lengths that fit, from the peer to this end if connected, or a SYN and no RST to the port if listening, after which the adapter is connected to where it came from; otherwise it is unchanged |
| TcpOverIp.RoundTrip | all-lab/libsponge/tcp_helpers/tcp_over_ip.cc:26-90 | every segment with 5 to 15 header words that fits a datagram survives wrapping, printing, parsing and unwrapping at the matching peer, connected or listening, with its fields, the configured ports and its payload |
| NetworkInterfaces.NetworkInterface.SendDatagram | all-lab/libsponge/network_interface.cc:29-65 | sends to a known address, failing without a frame if the datagram does not print, or queues the datagram and asks unless asked lately |
| NetworkInterfaces.NetworkInterface.PushDatagram | all-lab/libsponge/network_interface.cc:35-40 | prints a datagram into a frame and queues it, or queues nothing if it does not print |
| NetworkInterfaces.NetworkInterface.RecvFrame | all-lab/libsponge/network_interface.cc:68-118 | hands up datagrams, learns from ARP messages, ignores the rest, and fails where flushing fails; the queue goes on with exactly one reply if the frame is a request for this interface's address, and no reply otherwise |
| NetworkInterfaces.NetworkInterface.LearnFrom | all-lab/libsponge/network_interface.cc:84-113 | records the sender, answers a request for this interface (`ArpFrames.RequestsAreAnswered`), flushes what waited, and clears queue and timer only if the flush completed |
| NetworkInterfaces.NetworkInterface.FlushTo | all-lab/libsponge/network_interface.cc:103-110 | sends what waited in the order it was submitted, up to the first datagram that does not print, and fails there |
| NetworkInterfaces.NetworkInterface.Tick | all-lab/libsponge/network_interface.cc:121-164 | ages table and timers and asks again for what is due, in no particular order |
| NetworkInterfaces.NetworkInterface.AgeTable | all-lab/libsponge/network_interface.cc:123-131 | drops entries that expire and shortens the others |
| NetworkInterfaces.NetworkInterface.AskDue | all-lab/libsponge/network_interface.cc:141-162 | one request for every waited-for address whose timer ran out, and its timer set again |
| ArpLaws.SendKeeps | all-lab/libsponge/network_interface.cc:29-65 | sending, also when it throws, keeps queue and timers consistent, the clocks right, requests spaced and datagrams freshly addressed |
| ArpLaws.LearnKeeps | all-lab/libsponge/network_interface.cc:84-113 | so does learning, also when the flush throws |
| ArpLaws.TickKeeps | all-lab/libsponge/network_interface.cc:121-164 | so does time, in whatever order the requests go out |
| ArpLaws.SendConservesIff | all-lab/libsponge/network_interface.cc:33-43 | submitting a datagram keeps what was submitted equal to what was sent followed by what waits, if and only if it is queued, or it prints and overtakes nothing |
| ArpLaws.LearnEffect | all-lab/libsponge/network_interface.cc:100-113 | a message sends what waits up to the first datagram that does not print, and empties the queue if and only if all of it prints |
| ArpLaws.LearnConservesIff | all-lab/libsponge/network_interface.cc:100-113 | a message keeps that equality if and only if its flush completes or fails at once |
| ArpLaws.NoneLost | all-lab/libsponge/network_interface.cc:29-164 | over every run whose submitted datagrams print, the datagrams submitted for a next hop are those sent to it followed by those waiting, in order, none lost or repeated |
| ArpLaws.NoneLostIff | all-lab/libsponge/network_interface.cc:29-164 | over every run, no datagram is lost, repeated or overtaken in any state it goes through if and only if every datagram submitted is queued, or prints and overtakes nothing, and every flush completes or fails at once |
| ArpLaws.UnprintableRepeats | all-lab/libsponge/network_interface.cc:100-113 | after a datagram that prints and one that does not, each message from their next hop sends the first again and the second never leaves |
| ArpLaws.UnprintableArrives | all-lab/libsponge/network_interface.cc:74-79 | a concrete datagram that reception accepts and that does not print |
| ArpLaws.RateLimited | all-lab/libsponge/network_interface.cc:44-60 | over every run, throws included, two requests for one address are at least 5000 milliseconds apart, across replies, learning and expiry |
| ArpLaws.FreshlyAddressed | all-lab/libsponge/network_interface.cc:33-40 | over every run, throws included, each datagram goes to the address of the latest message naming its next hop, received less than 30000 milliseconds before |
| ArpFrames.RequestsAreAnswered | all-lab/libsponge/network_interface.cc:86-99 | over every run, throws included, the replies that go out are exactly those to the requests for this interface's address that came in for it, one each, in order, with all their fields |
| ArpFrames.FramesAreRight | all-lab/libsponge/network_interface.cc:29-164 | over every run, every frame comes from this interface; one with a datagram goes to the latest and recent address of its next hop, a request to everybody and a reply to its asker, both with this interface's addresses |
| ArpFrames.KnowsExactly | all-lab/libsponge/network_interface.cc:29-131 | over every run, an address is known exactly for 30000 milliseconds after the latest message that gave it, and whoever is waited for has been asked for within the last 5000 |
| ArpFrames.HandsUpIff | all-lab/libsponge/network_interface.cc:68-82 | a datagram is handed up exactly if a frame for this interface or for everybody carries it; that, and any frame for others or without ARP, changes nothing |
| ArpFrames.MessagesAreLearned | all-lab/libsponge/network_interface.cc:83-86 | over every run the addresses learned are exactly those in the messages that came in for this interface, in order |
| Routing.MatchesIff | all-lab/libsponge/router.cc:49-54 | a route matches exactly when destination and prefix agree on the high bits, as integer quotients, for lengths 0 to 32 |
| Routing.BestIsLongest | all-lab/libsponge/router.cc:48-61 | the loop chooses the first-added of the longest matching routes, and none only if none matches |
| Routing.BestIff | all-lab/libsponge/router.cc:43-61 | the loop yields a route if and only if that is the first-added of the longest whose leading bits agree with the destination |
| Routing.ChainsAreShort | all-lab/libsponge/router.cc:70-77 | through any chain of routers, loops included, each forward lowers the time to live by one and leaves at least one, so there are fewer forwards than the first time to live |
| Routers.Router.FindRoute | all-lab/libsponge/router.cc:43-61 | the search loop yields that route |
| Routers.CarriesRight | all-lab/libsponge/router.cc:39-84 | with a time to live above one, the interface of the first-added longest match, and no other, goes on with the datagram, one less to live, submitted for that route's gateway or else for the destination; with no match or nothing left to live no interface changes |
| Routers.Router.RouteOneDatagram | all-lab/libsponge/router.cc:39-84 | the datagram is dropped, forwarded as just said, or fails on an interface number there is not or because it does not print; its time to live has then been lowered |
| Routers.Router.RouteQueue | all-lab/libsponge/router.cc:90-94 | one queue is worked through in order, up to a failure, which leaves the changed datagram and those behind it queued |
| Routers.QueueStopsAt | all-lab/libsponge/router.cc:87-96 | a queue is worked through up to a datagram that fails, which stays in front of the rest with one less to live |
| Routers.Router.RouteAll | all-lab/libsponge/router.cc:87-96 | all queues are worked through, interface by interface, up to a failure; interfaces and queues are stated for success and failure |
| Routers.QueuesConcat | all-lab/libsponge/router.cc:87-96 | that leaves the interfaces, the verdict and the remaining datagrams of routing the concatenation of the queues one by one, and empties all queues on success |
| Routers.AsyncNetworkInterface.RecvFrame | all-lab/libsponge/router.hh:30-35 | a received datagram is appended to the queue, anything else leaves it alone, and a throw passes through |

## Left out

- Sockets, threads, the event loop, tunnel devices, the applications and the network simulator: system calls and drivers.
- The exercises under lab2 and lab4: a chat program, and stubs or copies of the files modelled here.
- Debug output, `to_string`, `summary` and `hexdump`: printing only.
- Random initial sequence numbers and real clocks: the number and the milliseconds passed are parameters.
- `Buffer` and `BufferList`: byte sequences here; sharing and views are not modelled.
- `std::map` in the reassembler: a sequence of chunks with ascending keys, searched and updated as the map is; node allocation and iterators are not modelled.
- Iteration order of the hash maps in `NetworkInterface::tick`: unspecified; the proofs hold for every order.
- 64-bit counters of bytes, indices, idle time and map times to live: unbounded, except in `wrap`, `unwrap` and the stream index, where the 64-bit wrap-around is written out; the run theorems assume streams whose sequence space fits 64 bits.
- Encoding of Ethernet frames and ARP messages: modelled as messages; a payload that does not parse is a case of its own.
- Ethernet addresses: byte sequences whose length is not restricted to six.
- What a caller does after an exception: the state it finds is modelled, its handling is not.
- Routes with a prefix longer than 32 bits: shifting by a negative amount is undefined in C++, so the model has none.
- Bitwise operations in parsers and headers: written as division and remainder; the router's mask is a bitwise conjunction.
- Inheritance of the asynchronous interface: it contains the plain interface instead.
- ReceiverLaws.ReceiveFeeds: takes segments of one sequence space, so a second SYN with another initial number, which the code accepts and which makes it read later segments against that number, is covered only by `LatestSynCounts`, `WindowNeverShrinks` and `PushKeeps`.
- InOrder.NoOverrun: takes acknowledgments in the order of emission, because a stale acknowledgment overwrites the window in the code (`OutOfOrder.StaleAckOverruns`).
- Progress.FrontAdvances: takes it that nothing stored keeps the segment out; `Boundaries.FrontUnblocked` shows that nothing ever does.
- PairCompletion.CanAlwaysClose: takes two live connections, because when the last acknowledgment to one side is lost and the other side is already gone, the code ends the first by a reset; and fewer than 2^31 numbers written at each, because the copy of a segment that is still in the network may carry an acknowledgment too old to be told apart.
