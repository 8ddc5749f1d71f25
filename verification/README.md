# lwIP core and SLIP bridge: a verified model

This project models, in Dafny, the parts of the bundled lwIP 2.0.1 stack that are
hard to get right, and the SLIP codec of the serial bridge, and proves what they
promise. `dafny verify dfyconfig.toml` checks it.

Each part has a specification on values and, where the source changes state in
place, classes and loops that are proved to compute it.

| files | part |
|---|---|
| `Common.dfy`, `SeqNum.dfy` | optional values, 32-bit sequence numbers |
| `Reassembly.dfy`, `Receiver.dfy`, `Arrivals.dfy`, `Windows.dfy`, `Closing.dfy`, `TcpIn.dfy` | TCP receiver: reassembly, runs, what arrives is kept, the window, the close handshake, the control block |
| `SendSpec.dfy`, `Sender.dfy`, `SendAccept.dfy`, `SendWire.dfy`, `SendFits.dfy`, `SendNear.dfy`, `TcpOut.dfy` | TCP sender: queues, runs, accepting data, what is transmitted, segment sizes, ranges of numbers, the control block |
| `Select.dfy`, `SelectRuns.dfy` | `lwip_select` and `event_callback` as an interleaving of protected regions; what schedules do for the threads in them |
| `HeapSpec.dfy`, `Heap.dfy` | the heap of `mem.c` |
| `PbufRefs.dfy`, `Pbufs.dfy`, `PbufData.dfy` | packet buffers: ownership, chains, bytes |
| `Checksum.dfy` | the Internet checksum |
| `Timers.dfy` | the timer list |
| `Backlog.dfy`, `Rtt.dfy` | listen backlog, round trip estimator |
| `Slip.dfy` | the SLIP codec of the bridge |

Sequence numbers are kept as unbounded stream positions, but every branch of
`TcpIn.dfy` and `TcpOut.dfy` is taken on their 32-bit residues, and it is proved that
the residues decide right. For the sender nothing is assumed for that except an
acknowledgement number within about 2^31 of lastack; for the receiver, segments whose
numbers lie within about 2^31 of rcv_nxt.

Allocation, transmission, callbacks that refuse data, and schedules are inputs: a
theorem about all runs is about all of their outcomes.

## Where the code does not keep its promise

Each line names a concrete example and the lemma that says exactly when it happens.

- Queueing an out-of-sequence segment cuts a queued one at its start and drops the bytes
  of that one beyond it; and a FIN on a segment that is already queued is ignored
  (`RepeatedByteCutsQueue`, `RepeatedByteDropsFin`, exactly when: `QueueLosesIff`).
- A segment is cut to the window only when it is put at the end of `ooseq`. A FIN one
  past the edge, which lwIP's own sender may produce, later wraps `rcv_wnd`
  (`FinPastEdgeReached`, exactly when: `ReceiveEdgeIff`, `EdgeKeptIff`).
- The ACK of our FIN in CLOSING or LAST_ACK purges the connection, with data that was
  acknowledged to the peer and that the application had refused for the moment
  (`LastAckDiscards`, exactly when: `StepKeepsIff`, `StreamTheorem`).
- `tcp_recved` with more than was delivered can wrap `rcv_wnd`
  (`OverfullRecvedShrinks`, exactly when: `GrowWindowIff`).
- The local segment size of `tcp_write` is half the largest window, but the full size as
  long as that is below two. The first real window can make it smaller than a queued
  segment; an assertion then fails, the room left wraps around, and segments outgrow the
  MSS (`LateWindowOvertakes`, `LateWindowOutgrows`, exactly when: `FitsTheorem`).
- After a fast retransmit that could not be sent, the last segment of `unsent` is an old
  one. `tcp_write` still fills it up, so that bytes get the wrong sequence numbers
  (`StuckRetransmitReached`, `RetransmitThenWrite`, exactly when: `WriteTheorem`), and
  `tcp_send_fin` puts the FIN there (exactly when: `FinPlaceIff`).
- `select_waiting` is 8 bits: 256 selectors on one socket are none, and sleep through its
  events (`CounterWrapsAt256`, exactly when the counter is wrong: `CountsExactIff`).
- `mem_malloc` rounds sizes near the top of `mem_size_t` down (`WrappedRequest`, exactly
  when: `RoundedCovers`).
- `pbuf_cat` and `pbuf_realloc` leave a wrong `tot_len` in chains that share a tail
  (`SharedCatBreaks`, `SharedReallocBreaks`, exactly when: `JoinTotIff`, `ShrunkTotIff`).
- `pbuf_copy` refuses most packets that end in empty pbufs (`TrailingEmptySource`,
  exactly which: `CopyIff`).
- `sys_timeout` at the end of an overdue list may make the new timer early
  (`ClampedEarly`, exactly when: `OnTimeIff`).
- `slipRecvWorker` loses packets made of special bytes only (`SpecialIsLost`, exactly
  which: `WorkerRoundTrip`).

## Model

| member | source | states |
|---|---|---|
| `SeqNum.NearOrder` | lwip_2.0.1/src/include/lwip/priv/tcp_priv.h:106-114 | For positions less than 2^31 apart, every comparison macro on the 32-bit residues decides the order of the positions. |
| `SeqNum.SignedDistance` | lwip_2.0.1/src/include/lwip/priv/tcp_priv.h:106-114 | The signed 32-bit difference is the difference of the positions if and only if they are near. |
| `SeqNum.OriginIrrelevant` | lwip_2.0.1/src/include/lwip/priv/tcp_priv.h:106-114 | Shifting all numbers by the same initial sequence number changes no comparison. |
| `SeqNum.OrderLostAtHalf` | lwip_2.0.1/src/include/lwip/priv/tcp_priv.h:106-114 | At a distance of exactly 2^31 both numbers count as lower than the other: the bound cannot be relaxed. |
| `Reassembly.SwallowKeeps` | lwip_2.0.1/src/core/tcp_in.c:956-987 | Merging a segment with the queue behind it keeps the queue sorted, disjoint, cut from the stream, inside the window, with a FIN only at its end. |
| `Reassembly.SwallowHolds` | lwip_2.0.1/src/core/tcp_in.c:956-987 | Merging loses no position (byte or FIN) that the segment or the queue held, and makes up none. |
| `Reassembly.QueueKeeps` | lwip_2.0.1/src/core/tcp_in.c:1536-1654 | Queueing an out-of-sequence segment keeps that order whatever it overlaps, and the first position of the segment is held afterwards. |
| `Reassembly.QueueLosesIff` | lwip_2.0.1/src/core/tcp_in.c:1536-1654 | Every position inside the window that was held before or arrived is held afterwards, if and only if no queued segment starts before the new one and holds the position beyond its data, and it is not a FIN that a segment with the same start, at least as long and without FIN, keeps out. |
| `Reassembly.RepeatedByteCutsQueue` | lwip_2.0.1/src/core/tcp_in.c:1601-1637 | One of four queued bytes arrives again: the bytes behind it are gone. |
| `Reassembly.RepeatedByteDropsFin` | lwip_2.0.1/src/core/tcp_in.c:1553-1577 | The queued last byte arrives again with the FIN: the FIN is not kept. |
| `Reassembly.OrderedSpelledOut` | lwip_2.0.1/src/core/tcp_in.c:1536-1654 | The queue invariant index by index: pairwise disjoint and ascending, FIN on the last segment only. |
| `Reassembly.DrainKeeps` | lwip_2.0.1/src/core/tcp_in.c:1481-1517 | Handing up queued segments appends exactly the bytes of the stream between the old and the new rcv_nxt. |
| `Reassembly.ReceiveKeeps` | lwip_2.0.1/src/core/tcp_in.c:1273-1685 | One arriving segment keeps the receive invariant and hands up exactly the next bytes of the stream, and the FIN only at its end. |
| `Reassembly.QueueEdgeIff` | lwip_2.0.1/src/core/tcp_in.c:1536-1654 | The queue stays inside the window if and only if the segment ends there or is put at the end, where it is cut. |
| `Reassembly.ReceiveEdgeIff` | lwip_2.0.1/src/core/tcp_in.c:1273-1685 | For every arriving segment, also from a peer that overruns the window: rcv_nxt + rcv_wnd does not move, rcv_wnd does not wrap and the queue stays inside the window, if and only if the segment is not one that is queued uncut beyond the edge. |
| `Reassembly.ReceiveProgress` | lwip_2.0.1/src/core/tcp_in.c:1304-1455 | An in-order segment is never wasted: rcv_nxt reaches its end or the window edge. |
| `Arrivals.ReceiveHasIff` | lwip_2.0.1/src/core/tcp_in.c:1273-1685 | After every arrival the receiver has (handed up or queued), inside the window, exactly the positions it had before and those that arrived, but for what queueing loses by QueueLosesIff. |
| `Arrivals.FirstMissing` | lwip_2.0.1/src/core/tcp_in.c:1481-1517 | rcv_nxt is always the first position the receiver does not have. |
| `Arrivals.GapFilled` | lwip_2.0.1/src/core/tcp_in.c:1481-1654 | A segment that came too early and was queued whole: once the gap before it is filled, rcv_nxt passes its end or the window edge. |
| `Reassembly.EdgeKeptIff` | lwip_2.0.1/src/core/tcp_in.c:1487-1492 | rcv_wnd is right after handing up the queue if and only if the queued segments that are in sequence before the call end left of the window edge. |
| `Reassembly.FinPastEdgeWrapsWindow` | lwip_2.0.1/src/core/tcp_in.c:1536-1537 | The first queued segment is not cut to the window, and a FIN one past the edge wraps rcv_wnd to 65535. |
| `Receiver.StreamTheorem` | lwip_2.0.1/src/core/tcp_in.c:355-490 | For every stream and every run of segments cut from it (lost, doubled, reordered, overlapping, copies failing, data refused), up to the end of the connection: delivered plus refused data is the stream up to rcv_nxt, if and only if the last ACK never came while data was refused. In every run what is delivered is a prefix of the stream, and the end is signalled at most once, exactly when every byte was accepted. |
| `Receiver.StepKeepsIff` | lwip_2.0.1/src/core/tcp_in.c:885-946 | One step keeps delivered plus refused data equal to the stream up to rcv_nxt if and only if it is not the last ACK with data refused; that one leaves a proper prefix and no end of stream. |
| `Receiver.LastAckDiscards` | lwip_2.0.1/src/core/tcp_in.c:926-934 | A run in which an acknowledged byte, refused for the moment, is freed by the purge and the end is never signalled. |
| `Receiver.ClosedMeansAll` | lwip_2.0.1/src/core/tcp_in.c:473-490 | End of stream was signalled if and only if the FIN was reached and the whole stream delivered. |
| `Receiver.TakenMeansDelivered` | lwip_2.0.1/src/core/tcp.c:1280-1337 | Once the application accepts what it is offered nothing is left refused: it has the stream up to rcv_nxt, and the end if that was reached. |
| `Arrivals.StepHasIff` | lwip_2.0.1/src/core/tcp_in.c:355-490 | Every step of a run keeps the positions the receiver has, adds those that arrive, and drops exactly those that queueing loses or that a queue limit or timer throws away. |
| `Arrivals.ArrivedMeansReached` | lwip_2.0.1/src/core/tcp_in.c:355-490 | In every run, in whatever order, cut and repetition: if each of the first n positions arrived inside the window and was not thrown away since, rcv_nxt has passed them all. |
| `Arrivals.AllArrivedMeansDelivered` | lwip_2.0.1/src/core/tcp_in.c:355-490 | If the whole stream and the FIN arrived so and nothing is refused, the application got all of it and the end. |
| `Closing.StateTheorem` | lwip_2.0.1/src/core/tcp_in.c:885-946 | In every run the state is the one of a table: whether and when (before or after the FIN of the peer) we shut down, whether our FIN was acknowledged, whether the FIN of the peer came (the diagram in section 3.2 of RFC 793). |
| `Receiver.AnnWindowSafe` | lwip_2.0.1/src/core/tcp.c:736-759 | The announced window lies inside rcv_wnd, never moves the announced edge left, and fits 16 bits. |
| `Receiver.AnnWindowOpens` | lwip_2.0.1/src/core/tcp.c:736-759 | The announced window is the whole of rcv_wnd, or less than a step (the smaller of half TCP_WND and the MSS) of it is held back. |
| `Windows.OpenTheorem` | lwip_2.0.1/src/core/tcp.c:736-804 | In every state of every run less than a step of rcv_wnd is held back (one more after the FIN), so after each send the announced edge is that near to rcv_nxt + rcv_wnd: the window opens again. |
| `Windows.EdgeTheorem` | lwip_2.0.1/src/core/tcp.c:771-804 | Conservation: rcv_nxt + rcv_wnd is TCP_WND plus the bytes the application reported with tcp_recved (plus one for a signalled FIN), in every run of an application that reports no byte twice; no such report wraps rcv_wnd. |
| `Receiver.WindowTheorem` | lwip_2.0.1/src/core/tcp.c:736-804 | Over every run of receives, tcp_recved and sends, also with a peer that sends beyond the announced edge or the window, the announced right edge never moves left and never passes rcv_nxt + rcv_wnd (section 4.2.2.16 of RFC 1122). |
| `Receiver.StepKeepsWindow` | lwip_2.0.1/src/core/tcp.c:736-804 | Every single step keeps the window invariant and does not move the announced edge left. |
| `Receiver.FinPastEdgeReached` | lwip_2.0.1/src/core/tcp_in.c:1536-1537 | The wrap of rcv_wnd by a FIN past the edge as a run from the start of a connection; the announced window wraps with it. |
| `Receiver.GrowWindowIff` | lwip_2.0.1/src/core/tcp.c:780-793 | tcp_recved never shrinks rcv_wnd if and only if its 16-bit addition does not wrap (or wraps to 0 in a passive close), and then adds the length, up to TCP_WND. |
| `Receiver.OverfullRecvedShrinks` | lwip_2.0.1/src/core/tcp.c:780-793 | The other half by example: acknowledging more than was delivered shrinks a 64 KiB window. |
| `TcpIn.InsertSegment` | lwip_2.0.1/src/core/tcp_in.c:956-987 | The loop on 32-bit numbers computes the merge of the specification. |
| `TcpIn.MergeQueue` | lwip_2.0.1/src/core/tcp_in.c:1396-1447 | The in-order segment takes over or is cut at what is queued, as specified. |
| `TcpIn.QueueSegment` | lwip_2.0.1/src/core/tcp_in.c:1536-1654 | The walk along ooseq, with a copy that may fail, computes the specified queue. |
| `TcpIn.TrimLeft` | lwip_2.0.1/src/core/tcp_in.c:1298-1353 | What lies before rcv_nxt is dropped, exactly. |
| `TcpIn.TrimRight` | lwip_2.0.1/src/core/tcp_in.c:1373-1395 | Data and FIN beyond the window are dropped, exactly. |
| `TcpIn.RxPcb.UpdateAnnWnd` | lwip_2.0.1/src/core/tcp.c:736-759 | The 32-bit computation of the announced window; it stays inside rcv_wnd, does not move the announced edge left, and holds back less than a step. |
| `TcpIn.RxPcb.DrainQueue` | lwip_2.0.1/src/core/tcp_in.c:1481-1517 | The hand-up loop, with the announced window kept up to date, refines the specification. |
| `TcpIn.RxPcb.AcceptInOrder` | lwip_2.0.1/src/core/tcp_in.c:1373-1517 | The in-order branch refines the specification. |
| `TcpIn.RxPcb.TcpReceive` | lwip_2.0.1/src/core/tcp_in.c:1273-1685 | The data half of tcp_receive on 32-bit numbers refines the specification of one arriving segment. |
| `TcpIn.RxPcb.ProcessRefused` | lwip_2.0.1/src/core/tcp.c:1280-1337 | Offering refused data again: data, then the FIN, then nothing left, or all is kept. |
| `TcpIn.RxPcb.Transition` | lwip_2.0.1/src/core/tcp_in.c:885-946 | The state changes of the close handshake to TIME_WAIT and CLOSED; the queue and refused data are purged there, and the new state takes data exactly if the old one did and no FIN came. |
| `TcpIn.RxPcb.TcpProcess` | lwip_2.0.1/src/core/tcp_in.c:885-946 | Receive and state change together refine the specification. |
| `TcpIn.RxPcb.HandUpData` | lwip_2.0.1/src/core/tcp_in.c:422-490 | Data, then FIN, are delivered or both kept as refused; delivered and refused bytes together grow by exactly what came up. |
| `TcpIn.RxPcb.TcpInput` | lwip_2.0.1/src/core/tcp_in.c:355-490 | A whole segment, from refused data to hand-up, is the step of the run theorem. |
| `TcpIn.RxPcb.TcpRecved` | lwip_2.0.1/src/core/tcp.c:771-804 | The 16-bit window growth and the announcement are the step of the window theorem. |
| `TcpIn.InputStaysNear` | lwip_2.0.1/src/core/tcp_in.c:355-490 | After every step all queued sequence numbers are again near rcv_nxt, so the methods can be called for ever. |
| `SendSpec.WriteTheorem` | lwip_2.0.1/src/core/tcp_out.c:367-766 | tcp_write is all or nothing: on an error nothing changes but TF_NAGLEMEMERR, which ERR_MEM sets; on success the bytes are queued behind the earlier ones, each once, with right counters and oversize, if and only if the last unsent segment ended at snd_lbb or was full (or nothing was written). |
| `SendAccept.WriteAcceptsIff` | lwip_2.0.1/src/core/tcp_out.c:367-766 | tcp_write accepts data if and only if the sending side is open, the data fits snd_buf, the queue is below its limits, and the allocations it needs (counted from segment size, spare room and copying) succeed; it then adds the fewest segments. |
| `SendAccept.PiecesFewest` | lwip_2.0.1/src/core/tcp_out.c:550-580 | The number of new segments is the data left over divided by the local MSS, rounded up. |
| `SendSpec.AllocLenFacts` | lwip_2.0.1/src/core/tcp_out.c:232-277 | The preallocated size covers the data and never exceeds the room in the segment. |
| `SendSpec.AllocSpareIff` | lwip_2.0.1/src/core/tcp_out.c:232-277 | Spare room is asked for if and only if more data is announced or Nagle will delay the segment, and it fits: TCP_OVERSIZE bytes at least, or all the room. |
| `SendSpec.SentKeeps` | lwip_2.0.1/src/core/tcp_out.c:1119-1159 | Sending one segment keeps the invariant; unacked stays sorted even for an old segment. |
| `SendSpec.SegmentBounds` | lwip_2.0.1/src/core/tcp_out.c:1128-1158 | In every state of the invariant no queued segment is empty or ends past snd_lbb (plus a riding FIN): the free-empty-segment branch is unreachable. |
| `SendSpec.OutputKeeps` | lwip_2.0.1/src/core/tcp_out.c:984-1171 | tcp_output, with transmissions that may fail at any segment, keeps the invariant. |
| `SendSpec.RexmitKeeps` | lwip_2.0.1/src/core/tcp_out.c:1431-1469 | Fast retransmit keeps the invariant. |
| `SendSpec.RtoKeeps` | lwip_2.0.1/src/core/tcp_out.c:1390-1422 | RTO retransmit keeps the invariant. |
| `SendSpec.AckKeeps` | lwip_2.0.1/src/core/tcp_in.c:1022-1235 | Every acknowledgement number, old, new or absurd, keeps the invariant. |
| `SendSpec.SendFinKeeps` | lwip_2.0.1/src/core/tcp_out.c:776-873 | Queueing the FIN, alone or on a data segment, keeps the invariant. |
| `SendSpec.ProbeKeeps` | lwip_2.0.1/src/core/tcp_out.c:1577-1635 | A zero window probe keeps the invariant. |
| `Sender.RunKeeps` | lwip_2.0.1/src/core/tcp_out.c:367-1469 | Every state of every run satisfies the sender invariant. |
| `Sender.HeldTheorem` | lwip_2.0.1/src/core/tcp_in.c:1111-1235 | In every run each byte from lastack to snd_lbb is held by exactly one segment, at its number and with the value written; snd_buf plus queued lengths is TCP_SND_BUF; snd_queuelen is the number of pbufs. |
| `Sender.NumbersTheorem` | lwip_2.0.1/src/core/tcp_out.c:1083-1160 | In every run lastack <= snd_nxt <= snd_lbb (plus one for a riding FIN), unacked is sorted and below snd_nxt, segments are non-empty and end by snd_lbb, and room is recorded only behind a tail that ends there. |
| `SendFits.FitsTheorem` | lwip_2.0.1/src/core/tcp_out.c:388-456 | In every state of a run segments fit the local MSS and the recorded oversize fits behind the tail, if and only if no acknowledgement brought the first window of two or more while it left a segment (with its oversize) longer than half that window. |
| `SendFits.StepFitsIff` | lwip_2.0.1/src/core/tcp_out.c:388-456 | No step but such an acknowledgement breaks the sizes, and that one always does. |
| `SendFits.LargeWindowFits` | lwip_2.0.1/src/core/tcp_out.c:388-456 | With a window of two or more in the SYN the sizes are right in every state of every run. |
| `SendFits.WriteFits` | lwip_2.0.1/src/core/tcp_out.c:441-655 | tcp_write makes only segments that fit the local MSS, and records only room that fits. |
| `SendFits.OkWritable` | lwip_2.0.1/src/core/tcp_out.c:441-456 | The assertions in tcp_write hold in every state of the invariant in which the sizes are right. |
| `SendFits.LateWindowOvertakes` | lwip_2.0.1/src/core/tcp_out.c:388-456 | Ten bytes written before any window, then a window of four: the local MSS is two, and the assertion on it fails. |
| `SendFits.LateWindowOutgrows` | lwip_2.0.1/src/core/tcp_out.c:452-543 | The next byte is added to that segment, which becomes longer than the MSS. |
| `Sender.OutputSendsAll` | lwip_2.0.1/src/core/tcp_out.c:1083-1171 | When no transmission fails, tcp_output leaves nothing behind that the window and the Nagle rule would let go. |
| `Sender.FailureIff` | lwip_2.0.1/src/core/tcp_out.c:1083-1171 | tcp_output sets TF_NAGLEMEMERR if and only if a transmission failed, so that a segment that could go is left; otherwise it clears the flag. |
| `SendWire.OutputSends` | lwip_2.0.1/src/core/tcp_out.c:984-1171 | tcp_output transmits a prefix of unsent, in order, each inside the window, and moves exactly these segments to unacked; at least the head, unless a window, Nagle, or a failure holds it back. |
| `SendWire.NagleIff` | lwip_2.0.1/src/core/tcp_out.c:1083-1102 | Where the window lets the head go it is transmitted if and only if it is not a single short segment behind data in flight, with room for more and none of the reasons to hurry. |
| `SendWire.RtoSends` | lwip_2.0.1/src/core/tcp_out.c:1390-1422 | After an RTO every segment that was unacknowledged was transmitted again by this call or waits first in unsent, in order; unacked holds only what this call transmitted; the first one is transmitted whenever nothing holds output back, it fits the window and a transmission succeeds. |
| `SendWire.RexmitMoves` | lwip_2.0.1/src/core/tcp_out.c:1431-1469 | Fast retransmit moves the first unacknowledged segment, and nothing else, to its place in unsent. |
| `SendWire.FastRetransmitSends` | lwip_2.0.1/src/core/tcp_in.c:1078-1110 | After the third duplicate ACK the next tcp_output transmits the first unacknowledged segment before anything newer. |
| `SendWire.ProbeSends` | lwip_2.0.1/src/core/tcp_out.c:1577-1660 | A zero window probe transmits exactly one position, the first one queued, with its byte or as the FIN, and changes nothing but snd_nxt. |
| `SendWire.WireTheorem` | lwip_2.0.1/src/core/tcp_out.c:984-1660 | In every state of every run each packet ever transmitted, first time or again, carries the written bytes at their positions and lies below snd_nxt; no FIN is transmitted before it is queued; what is on unacked was transmitted as it is. |
| `Sender.AckReleases` | lwip_2.0.1/src/core/tcp_in.c:1111-1235 | A new acknowledgement leaves no unacked segment that it covers, and none at the head of unsent, and ends fast recovery. |
| `Sender.StuckRetransmitReached` | lwip_2.0.1/src/core/tcp_out.c:1431-1469 | A run of writes, outputs, three duplicate ACKs and one failed output leaves an old segment at the end of unsent. |
| `Sender.RetransmitThenWrite` | lwip_2.0.1/src/core/tcp_out.c:441-545 | tcp_write then appends new data to that old segment: a sequence number is used twice and one is held by nobody. |
| `Sender.FinPlaceIff` | lwip_2.0.1/src/core/tcp_out.c:138-158 | tcp_send_fin succeeds if and only if unsent has a segment or two allocations succeed; the FIN ends up behind all written bytes if and only if unsent was empty or its last segment ended at snd_lbb. |
| `SendNear.InFlight` | lwip_2.0.1/src/core/tcp_out.c:306-345 | At most TCP_SND_BUF bytes lie between lastack and the end of what was written. |
| `SendNear.CloseTheorem` | lwip_2.0.1/src/core/tcp_out.c:367-1635 | In every run all queued sequence numbers stay within a short range of lastack, with nothing assumed about the peer. |
| `TcpOut.ReachedIsGood` | lwip_2.0.1/src/core/tcp_out.c:367-1635 | The conditions under which the methods below refine the specification hold in every reachable state. |
| `TcpOut.Prealloc` | lwip_2.0.1/src/core/tcp_out.c:232-277 | The branches of the preallocation compute the specified size, which covers the data and stays inside the segment. |
| `TcpOut.BuildQueue` | lwip_2.0.1/src/core/tcp_out.c:550-655 | Phase 3: the loop builds the specified segments or fails at the same allocation. |
| `TcpOut.PlanTail` | lwip_2.0.1/src/core/tcp_out.c:441-543 | Phases 1 and 2: what is added to the last segment, recorded in locals; the room is a 16-bit difference and may wrap. |
| `TcpOut.TxPcb.TcpWrite` | lwip_2.0.1/src/core/tcp_out.c:367-766 | The three phases with commit at the end compute the specified write, error cases included. |
| `TcpOut.OkInRange` | lwip_2.0.1/src/core/tcp_out.c:441-480 | In every state of the invariant lengths and oversize are 16-bit numbers, which is all that tcp_write needs to refine the specification. |
| `TcpOut.TxPcb.TcpSendFin` | lwip_2.0.1/src/core/tcp_out.c:138-158 | The FIN on the last segment, or in one of its own if two allocations succeed. |
| `TcpOut.InsertSorted` | lwip_2.0.1/src/core/tcp_out.c:1446-1453 | The insertion loop on 32-bit numbers is sorted insertion, and tells whether the segment came last. |
| `TcpOut.PutUnacked` | lwip_2.0.1/src/core/tcp_out.c:1128-1154 | Appending, or inserting an old segment, is sorted insertion. |
| `TcpOut.StartsDiffer` | lwip_2.0.1/src/core/tcp_out.c:1137-1153 | Two queued segments never start at the same number, so both branches agree. |
| `TcpOut.TxPcb.HeadFits` | lwip_2.0.1/src/core/tcp_out.c:1083-1084 | The unsigned window test means that the segment ends inside the window and not before lastack. |
| `TcpOut.TxPcb.SendSegments` | lwip_2.0.1/src/core/tcp_out.c:1083-1160 | The send loop refines the specification, failures included. |
| `TcpOut.TxPcb.TcpOutput` | lwip_2.0.1/src/core/tcp_out.c:984-1171 | tcp_output with its early exits, the persist branch and the flags refines the specification. |
| `TcpOut.TxPcb.TcpRexmit` | lwip_2.0.1/src/core/tcp_out.c:1431-1469 | Fast retransmit in place. |
| `TcpOut.TxPcb.TcpRexmitRto` | lwip_2.0.1/src/core/tcp_out.c:1390-1422 | RTO retransmit in place. |
| `TcpOut.TxPcb.ZeroWindowProbe` | lwip_2.0.1/src/core/tcp_out.c:1577-1660 | The probe moves snd_nxt past at most one byte, and only if there was memory; it is transmitted if there is a way to the peer. |
| `TcpOut.TxPcb.RemoveUnacked` | lwip_2.0.1/src/core/tcp_in.c:1155-1184 | The first removal loop frees exactly the acknowledged prefix and counts bytes and pbufs. |
| `TcpOut.TxPcb.RemoveUnsent` | lwip_2.0.1/src/core/tcp_in.c:1203-1235 | The second removal loop, on unsent. |
| `TcpOut.TxPcb.DuplicateAck` | lwip_2.0.1/src/core/tcp_in.c:1078-1110 | The duplicate ACK clauses, the saturating counter and fast retransmit on the third. |
| `TcpOut.ThirdDuplicate` | lwip_2.0.1/src/core/tcp_in.c:1078-1110 | Of duplicate ACKs in a row exactly the third meets the clause for fast retransmit; the 8-bit counter stops at 255. |
| `TcpOut.TxPcb.AckReceived` | lwip_2.0.1/src/core/tcp_in.c:1022-1235 | The ACK half of tcp_receive refines the specification. |
| `TcpOut.FarAckIff` | lwip_2.0.1/src/core/tcp_in.c:1203-1212 | For every acknowledgement number, the exact set that the 32-bit test of the second removal loop takes as covering a segment: the right ones, and those about 2^31 below lastack. |
| `Select.NoLostWakeup` | lwip_2.0.1/src/api/sockets.c:1393-1684 | For every schedule of any number of selectors and callbacks in which no single socket is counted by 256 selectors: a selector asleep without a signal has no pending event in its sets unless a callback will still visit it. |
| `Select.QuietMeansNothingMissed` | lwip_2.0.1/src/api/sockets.c:1609-1684 | When all callbacks have returned no sleeper has a pending event. |
| `Select.SignalledCanWake` | lwip_2.0.1/src/api/sockets.c:1667-1672 | In every schedule, a signal sent before or during the wait is not lost. |
| `SelectRuns.EventsTheorem` | lwip_2.0.1/src/api/sockets.c:1611-1630 | In every schedule rcvevent of a socket is the balance of arrivals and reads in 16 bits, sendevent what the last send event said, and errevent whether an error was ever posted. |
| `SelectRuns.PostReaches` | lwip_2.0.1/src/api/sockets.c:1609-1684 | When data, room or an error is posted, every selector asleep with the socket in that set is signalled or a callback is on its way to it. |
| `SelectRuns.CallbackEnds` | lwip_2.0.1/src/api/sockets.c:1644-1683 | From every safe state a callback that is let run ends within one step per entry of the list and one more. |
| `SelectRuns.WakeTheorem` | lwip_2.0.1/src/api/sockets.c:1609-1684 | From every reachable state the callbacks alone, in a bounded number of steps, get to a state in which every sleeper with a pending event can wake up. |
| `SelectRuns.GoesOnForCause` | lwip_2.0.1/src/api/sockets.c:1455-1484 | A scan reports only events that are there, and a selector goes on only after such a report, a signal or a timeout. |
| `SelectRuns.SetsStay` | lwip_2.0.1/src/api/sockets.c:1413-1422 | The sets a thread waits for change only with its next call. |
| `Select.CountsExactIff` | lwip_2.0.1/src/api/sockets.c:1437-1506 | At every point of a schedule select_waiting of each socket is the number of selectors between their increment and their decrement, if and only if no socket ever has 256 of them. |
| `Select.FewMeansNoneLost` | lwip_2.0.1/src/api/sockets.c:1393-1684 | By induction over such schedules: counters are right and no wake-up is lost. |
| `Select.WalkStaysOnList` | lwip_2.0.1/src/api/sockets.c:1644-1683 | The walk, which releases the lock at every entry, goes on only at entries that are on the list. |
| `Select.SignalsHaveCause` | lwip_2.0.1/src/api/sockets.c:1648-1673 | A selector is signalled only at a moment when the socket has an event it asked for. |
| `Select.RunKeeps` | lwip_2.0.1/src/api/sockets.c:1393-1684 | List, semaphores and walkers keep their invariants in every schedule, whatever the counters do. |
| `Select.LinkKeeps` | lwip_2.0.1/src/api/sockets.c:1425-1432 | Linking at the top keeps the doubly linked list right. |
| `Select.UnlinkKeeps` | lwip_2.0.1/src/api/sockets.c:1507-1521 | Unlinking anywhere keeps the doubly linked list right. |
| `Select.CounterWrapsAt256` | lwip_2.0.1/src/api/sockets.c:1632-1636 | A schedule in which 256 selectors fall asleep on one socket and data arrives: each of them misses its event, and no callback will visit it. |
| `HeapSpec.RunWellFormed` | lwip_2.0.1/src/core/mem.c:343-742 | Every sequence of mem_malloc, mem_free and mem_trim on live blocks keeps the heap well formed: blocks tile the region, each of at least the minimum size, no two free blocks adjacent. |
| `HeapSpec.LiveTheorem` | lwip_2.0.1/src/core/mem.c:343-742 | In every run of calls the used blocks are exactly those that callers hold, and each has room for the rounded size asked for last, also after mem_trim: nothing leaks, and no two callers share a byte. |
| `HeapSpec.BlocksDisjoint` | lwip_2.0.1/src/core/mem.c:343-742 | Blocks never overlap. |
| `HeapSpec.LiveBlocksStay` | lwip_2.0.1/src/core/mem.c:419-742 | A call leaves every other live block where it was. |
| `HeapSpec.FreeIsCoalesce` | lwip_2.0.1/src/core/mem.c:343-375 | Joining only with the two neighbours joins everything that can be joined. |
| `HeapSpec.FreeKeeps` | lwip_2.0.1/src/core/mem.c:419-465 | Freeing keeps the heap well formed and lowers `used` by the span of the block. |
| `HeapSpec.TrimKeeps` | lwip_2.0.1/src/core/mem.c:478-592 | Trimming keeps the heap well formed. |
| `HeapSpec.TrimGives` | lwip_2.0.1/src/core/mem.c:517-590 | The trimmed block stays where it is and has room for the new size: exactly that if nothing is given back, the next block is free or a block can be split off; otherwise the heap is unchanged. |
| `HeapSpec.MallocKeeps` | lwip_2.0.1/src/core/mem.c:603-720 | Allocating keeps the heap well formed. |
| `HeapSpec.MallocGives` | lwip_2.0.1/src/core/mem.c:640-720 | The block that is given has room for the request: exactly that where it fits exactly or can be split, otherwise it is taken whole. |
| `HeapSpec.RoundedCovers` | lwip_2.0.1/src/core/mem.c:612-627 | The rounded size covers the request if and only if the rounding does not wrap. |
| `HeapSpec.WrappedRequest` | lwip_2.0.1/src/core/mem.c:612-627 | The other half by example: a 16-bit build rounds a request of 65533 bytes to the minimum block. |
| `Heap.Heap.constructor` | lwip_2.0.1/src/core/mem.c:381-410 | The initial heap is one free block and the end marker. |
| `Heap.Heap.PlugHoles` | lwip_2.0.1/src/core/mem.c:343-375 | Rewriting the headers of the neighbours joins the blocks; back links and lfree stay right. |
| `Heap.Heap.MemFree` | lwip_2.0.1/src/core/mem.c:418-465 | Freeing in place is the specified step; lfree is the lowest free block and `used` the summed spans. |
| `Heap.Heap.Search` | lwip_2.0.1/src/core/mem.c:638-732 | Searching from lfree finds the lowest block that fits in the whole heap, or none exactly if none fits. |
| `Heap.Heap.MemMalloc` | lwip_2.0.1/src/core/mem.c:602-742 | Allocating in place is the specified first fit; it fails exactly when nothing fits or the size is out of range; what it returns has room for the rounded size. |
| `Heap.Heap.AdjustLfree` | lwip_2.0.1/src/core/mem.c:701-720 | lfree moves to the next free block or the end. |
| `Heap.Heap.MemTrim` | lwip_2.0.1/src/core/mem.c:477-592 | Shrinking in place, with its refusals, is the specified step, `used` included; what it returns still has room for the rounded new size. |
| `PbufRefs.ReleasedWhenClosed` | lwip_2.0.1/src/core/pbuf.c:704-779 | What is closed under links with exact counts is exactly what outside references can reach: nothing leaks and nothing reachable is freed. |
| `PbufRefs.LiveIsReachable` | lwip_2.0.1/src/core/pbuf.c:704-779 | Exact counts without cycles imply that every live pbuf can be reached. |
| `PbufRefs.ReleasedUnique` | lwip_2.0.1/src/core/pbuf.c:704-779 | The outcome of a release is determined by links and references. |
| `PbufRefs.FreeStep` | lwip_2.0.1/src/core/pbuf.c:728-764 | The last reference to a pbuf takes one reference from its successor with it. |
| `PbufRefs.LinkStep` | lwip_2.0.1/src/core/pbuf.c:828-853 | Linking the end of a chain to a tail turns an outside reference into a link. |
| `PbufRefs.CutStep` | lwip_2.0.1/src/core/pbuf.c:887-916 | Cutting a link leaves the successor with one reference too many. |
| `Pbufs.Pool.Release` | lwip_2.0.1/src/core/pbuf.c:704-779 | The loop frees exactly the pbufs that become unreachable and counts them modulo 256. |
| `Pbufs.Pool.Free` | lwip_2.0.1/src/core/pbuf.c:704-779 | pbuf_free gives up one reference; every ref stays outside references plus predecessors. |
| `Pbufs.Pool.Ref` | lwip_2.0.1/src/core/pbuf.c:809-816 | pbuf_ref adds one outside reference; the counts stay exact if and only if the 16-bit counter does not wrap. |
| `Pbufs.Pool.Clen` | lwip_2.0.1/src/core/pbuf.c:789-800 | The number of pbufs in a chain. |
| `Pbufs.Pool.Cat` | lwip_2.0.1/src/core/pbuf.c:828-853 | pbuf_cat links, adds up the totals of the head chain, and takes over the reference to the tail. |
| `Pbufs.JoinContent` | lwip_2.0.1/src/core/pbuf.c:828-853 | The head packet is continued by the tail packet, so is every packet that shares its end, and no other changes. |
| `Pbufs.JoinTotIff` | lwip_2.0.1/src/core/pbuf.c:833-846 | pbuf_cat keeps the tot_len relation if and only if no other chain runs into the head chain (or the tail is empty). |
| `Pbufs.SharedCatBreaks` | lwip_2.0.1/src/core/pbuf.c:833-846 | Two packets that share their last pbuf: after pbuf_cat on one the total of the other is wrong. |
| `Pbufs.Pool.Chain` | lwip_2.0.1/src/core/pbuf.c:870-877 | pbuf_chain, which keeps the reference to the tail. |
| `Pbufs.Pool.Dechain` | lwip_2.0.1/src/core/pbuf.c:887-916 | pbuf_dechain frees what only this link held; below 256 freed pbufs it returns the tail exactly if that is still alive. |
| `Pbufs.Pool.Realloc` | lwip_2.0.1/src/core/pbuf.c:482-545 | pbuf_realloc truncates in the right pbuf and frees exactly the unreachable rest; it does nothing for larger sizes. |
| `Pbufs.ShrunkContent` | lwip_2.0.1/src/core/pbuf.c:482-545 | The packet keeps exactly its first new_len bytes. |
| `Pbufs.ShrunkTotIff` | lwip_2.0.1/src/core/pbuf.c:508-535 | pbuf_realloc keeps the tot_len relation if and only if, before the call, no chain from outside runs into the part that is kept. |
| `Pbufs.SharedReallocBreaks` | lwip_2.0.1/src/core/pbuf.c:508-535 | Two packets that share their last pbuf: after pbuf_realloc on one the total of the other is wrong. |
| `Pbufs.Pool.AllocPool` | lwip_2.0.1/src/core/pbuf.c:283-351 | A pool chain of exactly the needed number of pbufs, none longer than its room, with right totals; or, exactly if the pool is too small, nothing at all changes. |
| `Pbufs.Pool.AllocOne` | lwip_2.0.1/src/core/pbuf.c:352-394 | A single pbuf with one reference, or nothing. |
| `Pbufs.TotIsLength` | lwip_2.0.1/src/core/pbuf.c:833-846 | Where the relation holds, tot_len is the length of the packet. |
| `PbufData.CopyPartial` | lwip_2.0.1/src/core/pbuf.c:1003-1041 | For every cut, the bytes from the offset on, as many as there are. |
| `PbufData.Skip` | lwip_2.0.1/src/core/pbuf.c:1093-1108 | The pbuf that holds a given byte, if and only if there is one. |
| `PbufData.Take` | lwip_2.0.1/src/core/pbuf.c:1137-1169 | Overwrites exactly a prefix, keeps the cuts; its two errors change nothing. |
| `PbufData.TakeAt` | lwip_2.0.1/src/core/pbuf.c:1181-1203 | Overwrites exactly the given range; succeeds if and only if the range fits and starts inside the packet. |
| `PbufData.ReadBack` | lwip_2.0.1/src/core/pbuf.c:1003-1203 | What pbuf_take_at wrote is read back by pbuf_copy_partial, and every disjoint range reads as before. |
| `PbufData.Copy` | lwip_2.0.1/src/core/pbuf.c:936-989 | pbuf_copy ends, and on success overwrites exactly a prefix with the source; on an error a part of it. |
| `PbufData.CopySucceeds` | lwip_2.0.1/src/core/pbuf.c:936-989 | Between packets that do not end in an empty pbuf and fit, the copy succeeds, however both are cut. |
| `PbufData.CopyIff` | lwip_2.0.1/src/core/pbuf.c:970-981 | For every source and every target that is large enough, the exact condition for success: neither ends in an empty pbuf; or only the target does and the copy stops short of its last full pbuf or fits its first exactly; or the source is a full pbuf and an empty one and the first fits the head of the target. |
| `PbufData.TrailingEmptySource` | lwip_2.0.1/src/core/pbuf.c:970-981 | A trailing empty pbuf in the source is accepted behind one full pbuf that fits, and refused behind two. |
| `Checksum.OnesSumIs` | lwip_2.0.1/src/core/inet_chksum.c:79-114 | Repeated folding of the plain sum is the one's complement sum of RFC 1071, bit for bit. |
| `Checksum.Chksum1` | lwip_2.0.1/src/core/inet_chksum.c:79-114 | Version 1 returns that sum for up to 64k bytes; the accumulator does not overflow. |
| `Checksum.Chksum2` | lwip_2.0.1/src/core/inet_chksum.c:132-173 | Version 2 returns it for even and odd start addresses and up to 0x20000 bytes; no overflow. |
| `Checksum.Chksum3` | lwip_2.0.1/src/core/inet_chksum.c:188-255 | Version 3 returns it for every start address and every length. |
| `Checksum.ChainSum` | lwip_2.0.1/src/core/inet_chksum.c:264-280 | For every cut into pbufs, odd ones included, the swap-and-fold loop yields the sum of the joined bytes. |
| `Checksum.PartialSum` | lwip_2.0.1/src/core/inet_chksum.c:405-430 | The same for the first chksum_len bytes, although it swaps on the parity of whole pbufs. |
| `Checksum.ChksumPbuf` | lwip_2.0.1/src/core/inet_chksum.c:567-593 | The inverted sum of a chain. |
| `Checksum.ChksumPseudo` | lwip_2.0.1/src/core/inet_chksum.c:309-328 | The RFC 1071 checksum of pseudo header and data, for every cut. |
| `Checksum.ChksumPseudoPartial` | lwip_2.0.1/src/core/inet_chksum.c:398-440 | That of pseudo header and the first chksum_len bytes. |
| `Checksum.StoredVerifies` | lwip_2.0.1/src/core/udp.c:817-825 | A checksum stored in its field makes the receiver's checksum zero, also after 0 was replaced by 0xffff. |
| `Checksum.OnlyTheChecksumVerifies` | lwip_2.0.1/src/core/udp.c:817-825 | No other value in the field verifies, up to the two forms of zero. |
| `Timers.List.Timeout` | lwip_2.0.1/src/core/timeouts.c:203-262 | In absolute due times: sorted insertion; others move only on head insertion, by now - last; the new one is due at now + msecs except in the clamp. |
| `Timers.Place` | lwip_2.0.1/src/core/timeouts.c:243-260 | The walk over differences is insertion behind all timers not due later. |
| `Timers.OnTimeIff` | lwip_2.0.1/src/core/timeouts.c:248-256 | The new timer is on time, or early, exactly under the stated conditions on the list. |
| `Timers.ClampedEarly` | lwip_2.0.1/src/core/timeouts.c:248-256 | A timer that the clamp makes due before it should. |
| `Timers.InsertKeeps` | lwip_2.0.1/src/core/timeouts.c:243-260 | No timer is lost or doubled, and the order of due times is kept. |
| `Timers.PushKeeps` | lwip_2.0.1/src/core/timeouts.c:239-242 | Every queued timer is pushed back by the same time. |
| `Timers.List.Untimeout` | lwip_2.0.1/src/core/timeouts.c:272-299 | The first matching timer goes; no other moves. |
| `Timers.RemoveKeeps` | lwip_2.0.1/src/core/timeouts.c:272-299 | Which timer that is, and that the rest is unchanged. |
| `Timers.List.CheckTimeouts` | lwip_2.0.1/src/core/timeouts.c:312-361 | Calls exactly the timers that are due, in due order, and keeps exactly the others at their times. |
| `Timers.ExpiredExactly` | lwip_2.0.1/src/core/timeouts.c:312-361 | Called and pending timers together are the old ones, divided by due time. |
| `Timers.ExpiredInOrder` | lwip_2.0.1/src/core/timeouts.c:312-361 | They are called in the order of due times. |
| `Timers.DuesInOrder` | lwip_2.0.1/src/core/timeouts.c:203-262 | A list of differences is always in due order. |
| `Backlog.FlagKeeps` | lwip_2.0.1/src/core/tcp.c:206-239 | Setting or clearing TF_BACKLOGPEND with its counter keeps every counter equal to the number of waiting connections. |
| `Backlog.Stack.Accepted` | lwip_2.0.1/src/core/tcp.c:228-239 | tcp_backlog_accepted lowers exactly the counter of the listener of a waiting connection. |
| `Backlog.Stack.Delayed` | lwip_2.0.1/src/core/tcp.c:206-217 | tcp_backlog_delayed counts a connection once and touches no other; the counter stays within the backlog if and only if there was room or the connection was counted already. |
| `Backlog.Stack.ListenInput` | lwip_2.0.1/src/core/tcp_in.c:568-632 | A SYN is dropped at the backlog limit; otherwise exactly one connection is added and counts, and the counter never passes the backlog, also when other connections are killed for memory or the SYN|ACK fails. |
| `Backlog.Stack.Establish` | lwip_2.0.1/src/core/tcp_in.c:824-852 | The handshake completes: the connection stops counting, unless the callback delays it; refused ones are freed. |
| `Backlog.Stack.Free` | lwip_2.0.1/src/core/tcp.c:1772-1826 | Whichever way a connection is freed, its listener's counter stays right. |
| `Backlog.Stack.EnterTimeWait` | lwip_2.0.1/src/core/tcp_in.c:894-934 | Purging before TIME_WAIT, where purging no longer counts, keeps the counters right. |
| `Backlog.Stack.CloseHalfOpen` | lwip_2.0.1/src/core/tcp.c:323-330 | Closing a half-open connection. |
| `Backlog.Stack.CloseListener` | lwip_2.0.1/src/core/tcp.c:166-193 | A closed listener is forgotten by all its connections. |
| `Backlog.Stack.Listen` | lwip_2.0.1/src/core/tcp.c:692-722 | A new listener starts with no waiting connection. |
| `Rtt.RunBounded` | lwip_2.0.1/src/core/tcp_in.c:1244-1266 | If all samples are within 0..R, then always 0 <= sa <= 8R and 0 <= sv <= max(4R, 6). |
| `Rtt.TimeoutFits` | lwip_2.0.1/src/core/tcp.c:1037-1039 | For R <= 51 every backed-off timeout of every run is non-negative and fits 16 bits. |
| `Rtt.BackoffDoubles` | lwip_2.0.1/src/core/tcp.c:1037-1039 | The first retransmission waits twice the estimate, each later one twice as long as the one before, up to 128 times. |
| `Rtt.SampleNearer` | lwip_2.0.1/src/core/tcp_in.c:1244-1266 | Each sample brings the smoothed time nearer to it without passing it; once it is right the deviation falls by a quarter. |
| `Rtt.SteadyLearned` | lwip_2.0.1/src/core/tcp_in.c:1244-1266 | From whatever estimate, enough equal samples make the smoothed time equal to them, and the timeout at most 3 ticks more, for good. |
| `Rtt.Pcb.Sample` | lwip_2.0.1/src/core/tcp_in.c:1244-1266 | The 16-bit update computes the estimate without overflow. |
| `Rtt.Pcb.Timeout` | lwip_2.0.1/src/core/tcp.c:1037-1039 | The shifted timeout of the backoff table. |
| `Rtt.Pcb.constructor` | lwip_2.0.1/src/core/tcp.c:1586-1588 | The initial estimate. |
| `Slip.BulkRoundTrip` | external_files/bridge.py:64-122 | One decode of any list of encoded packets never raises and yields the non-empty packets in order. |
| `Slip.WorkerRoundTrip` | external_files/bridge.py:176-189 | Decoding at every END yields exactly the packets that hold a byte other than END, ESC, ESC_END and ESC_ESC. |
| `Slip.Ipv4IsDelivered` | external_files/bridge.py:176-189 | Every list of IPv4 packets is delivered, whole and in order. |
| `Slip.SpecialIsLost` | external_files/bridge.py:176-189 | A packet of special bytes only is lost. |
| `Slip.ReadEscape` | external_files/bridge.py:68-101 | Escaped bytes come back unchanged and never raise. |
| `Slip.RaisesIff` | external_files/bridge.py:68-101 | The decoder raises exactly for a plain byte behind an ESC with nothing but END in between. |
| `Slip.Rfc1055Octets` | external_files/bridge.py:107-122 | The octets on the line are those of RFC 1055: 192 is sent as 219 220 and 219 as 219 221. |
| `Slip.EscapeIsTransparent` | external_files/bridge.py:107-122 | Inside a frame there is no END, and ESC only in front of its two codes. |
| `Slip.Codec.Decode` | external_files/bridge.py:67-105 | The decoder state machine, with the exception and what it leaves behind. |
| `Slip.Codec.Encode` | external_files/bridge.py:107-122 | END, the escaped bytes, END. |
| `Slip.Codec.Receive` | external_files/bridge.py:176-189 | The receiving loop passes on what the specification says. |

## Left out

- IP, netif drivers, ARP, DHCP, DNS, netconn: plumbing around the modelled core; output is a step that succeeds or fails.
- Board, UART and TI-RTOS code, and the sniffing half of the bridge: input and output.
- The TCP handshake, RST generation and congestion control: runs start when a connection is established, and windows are inputs of tcp_output.
- Timers of the closing handshake, and which segment acknowledges our FIN: the latter is an input.
- Application callbacks that abort, close or re-enter the stack: they only accept or refuse data here.
- IPv6, window scaling, timestamps, SO_REUSE, checksum on copy, custom pbufs, debug-only fields.
- Limits on ooseq (TCP_OOSEQ_MAX_BYTES, TCP_OOSEQ_MAX_PBUFS) and the timeout of ooseq: a step that drops any tail of the queue.
- Moving payload pointers inside tcp_receive: trimming a segment is dropping bytes.
- Decisions when to send an ACK, and the return value of tcp_update_rcv_ann_wnd.
- lastdata of a socket, sockets closed or reallocated during select, and the value that lwip_select returns.
- Select.NoLostWakeup: select_cb_ctr does not wrap.
- Receiver.WindowTheorem: for arrivals that are not queued uncut beyond the window and tcp_recved calls that do not wrap rcv_wnd, which are exactly the steps that break rcv_wnd (ReceiveEdgeIff, GrowWindowIff); and an announcement goes out before rcv_nxt is 2^31 past the last one.
- Windows.EdgeTheorem: for reports of at least one byte; tcp_recved of 0 bytes on a zero window in a passive close opens it whole.
- Empty ACKs and RSTs are not recorded as transmitted, and what happens to a packet behind IP is the network's.
- Sender.RunKeeps: for runs in which tcp_write is called as WriteTheorem demands.
- TcpOut.TxPcb.AckReceived: for acknowledgement numbers within 2^31 - 2^20 of lastack; FarAckIff says what the test does beyond.
- LWIP_ALLOW_MEM_FREE_FROM_OTHER_CONTEXT: calls on the heap exclude each other.
- MEM_LIBC_MALLOC, pool-based mem_malloc and memp: easy members.
- Pbufs.Pool.Cat: does not model tot_len beyond 65535, and demands two chains with different ends.
- Pbufs.Pool.Realloc: does not model mem_trim on the shortened pbuf, and demands a right tot_len of the packet.
- PbufData.Copy: takes source and target as separate packets, without aliasing.
- Timers.List.Timeout: does not model 32-bit overflow of time differences.
- Timers.List.CheckTimeouts: for handlers that leave the list alone.
- Backlog.Stack.Delayed: demands what the source asserts, that the 8-bit counter is not at its maximum.
- pbuf_header, pbuf_coalesce, pbuf_memcmp and the other pbuf helpers: easy members.
