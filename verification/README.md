# Verified model of the memory-dump server and its TCP/IP stack

The repository is a memory-dump client, server and kernel module on top of
lwIP 2.0.  This project models the parts of the stack in which most can go
wrong, and the server's own request path, and proves what they promise.

- **TCP reception** (`Words`, `TcpReassembly`, `TcpReceive`, `TcpPcb`).
  `TcpReassembly` describes the receiver over unbounded stream positions, with
  the out-of-sequence queue as tcp_in.c edits it.  `TcpReceive` and the class
  `TcpPcb.Pcb` do the same on 32-bit sequence numbers and 16-bit lengths, and
  are proved to refine it.  Arrivals are arbitrary slices of one stream, of
  fewer than 0x7fff bytes, in any order and multiplicity; allocations may fail.
- **Receive window** (`TcpWindow`): the announced window, tcp_recved and the
  credit for FIN, on top of reception.
- **Sending** (`TcpAck`, `TcpWrite`, `TcpSender`): what an acknowledgement
  frees, what tcp_write queues, what tcp_output and tcp_rexmit_rto move, and how
  the send buffer is accounted for, over positions and over 32 bits.
- **Closing** (`TcpStates`, `TcpClose`, `TcpConnection`): the states of
  tcp_process and tcp_close with the send queues that their tests look at, and
  both halves of a connection together.
- **Round-trip estimator** (`RttEstimator`) and **TCP timers** (`TcpTimers`).
- **Mailbox** (`Mailbox`, `MailboxSchedules`): the bounded buffer of the Unix
  port as interleaved steps of any number of producers and one consumer.
- **Heap** (`HeapBlocks`, `HeapHeaders`, `Heap`): mem.c as a list of blocks,
  as linked headers, and as the class with `lfree` that runs on the headers.
- **Internet checksum** (`ChecksumSpec`, `Checksum`, `ChecksumChain`).
- **Packet buffers**: `PbufGraph` has the reference counts, `PbufPaths` chains
  as paths through that graph, `PbufPool` the operations that change chains,
  `PbufBytes` and `PbufWrites` those that read and overwrite bytes, and
  `CopyOutcome` when pbuf_copy succeeds.
- **Timer list** (`TimerList`, `TimerPass`, `Timeouts`).
- **The server's own code** (`RawServer`, `MemDump`); `Words` and `Common` hold
  shared definitions.

`dafny verify dfyconfig.toml` checks everything.

## How the model reads the code

- The macros TCP_SEQ_LT and its relatives are the sign of the 32-bit
  difference; FOLD_U32T adds the two halves of a word, SWAP_BYTES_IN_WORD
  exchanges two bytes.
- Objects that the code updates in place are classes.  A linked list that only
  its owner walks is a sequence, or a list datatype for heap blocks; pbufs and
  heap headers, which are shared or reached by address, live in a map from
  identities to records.  Where a theorem is about positions, deadlines or
  handles that the code does not store, a ghost field holds them.
- memp_malloc, mem_malloc outcomes, callbacks, what timer handlers do to the
  list, the clock, tcp_write, tcp_sndbuf, strtol and atoi are parameters.
- Sequence numbers that the code compares lie within 2^31 of each other, less a
  few window sizes: the announced right edge and arriving segments near
  `rcv_nxt`, acknowledgement numbers near what is outstanding.  The closeness of
  the queues themselves to `rcv_nxt` and to `lastack` is proved, not assumed.
- The host is little-endian.  Heap size, header size, alignment and minimum
  block size are parameters; the alignment divides 65536 and the sizes, as the
  macros of mem.c arrange; the build uses alignment 1 and 16000 bytes.

## Where the code does less than it might seem

Each of these is a lemma or a contract below, with the exact condition and
where it helps a concrete case.

- The out-of-sequence queue can forget bytes it held (`ForgetsIff`), and does
  not clip every segment to the window (`WalkEdge`, `OverrunWrapsWindow`); the
  window stays sound exactly for arrivals that fit (`ArriveSoundIff`).
- tcp_recved mistakes a window that stays at zero for an overflow
  (`ConsumeSoundIff`).
- tcp_slowtmr does not move `prev` over PCBs it skips, so a removal after a
  restart drops them from the list (`TickLosesIff`, `SkippedPcbsAreLost`).
- A producer can sleep although the mailbox has room as soon as two threads
  post (`OversleepsIff`, `NeverOversleepsIff`).
- mem_malloc's rounding wraps for sizes near 65536 when the alignment exceeds
  one (`AlignSizeEnough`).
- sys_timeout delays existing timers when it inserts in front
  (`ExactIff`, `FrontInsertDelays`), sys_untimeout moves them when two deltas
  overflow (`RemovedEntriesIff`), and sys_check_timeouts calls a timer too early
  that a handler sets on an emptied list (`EarlyIff`).
- pbuf_dechain counts deallocations in eight bits (`Dechain`, `DeadTail`),
  pbuf_copy fails on some chains with empty pbufs (`CopiesIff`),
  pbuf_take_at refuses an empty write at the end (`TakeAt`), and a backed-off
  retransmission time-out overflows for long samples (`AlwaysFitsIff`).
- The client's parser uses a missing token for some lines, the empty one among
  them (`ParseCommand`).

## Model

| member | source | states |
|---|---|---|
| `Words.SignedDifference` | server_dir/lwip/src/include/lwip/priv/tcp_priv.h:106-111 | the signed 32-bit difference of two wrapped positions is their true difference if and only if that fits 32 signed bits |
| `Words.ComparisonsRefine` | server_dir/lwip/src/include/lwip/priv/tcp_priv.h:106-114 | less than 2^31 apart, every TCP_SEQ comparison decides the order of the positions |
| `TcpReassembly.AbsorbKeepsChain` | server_dir/lwip/src/core/tcp_in.c:968-984 | deleting what the newcomer covers and trimming it at the first survivor leaves an ordered, disjoint queue of stream slices |
| `TcpReassembly.MergeKeepsChain` | server_dir/lwip/src/core/tcp_in.c:1400-1446 | merging a segment in front of the queue keeps the queue a chain and the segment a stream slice that ends before it |
| `TcpReassembly.InsertKeepsChain` | server_dir/lwip/src/core/tcp_in.c:957-987 | inserting a segment, with or without FIN, keeps the queue a chain |
| `TcpReassembly.WalkKeepsChain` | server_dir/lwip/src/core/tcp_in.c:1536-1653 | the out-of-sequence walk keeps the queue sorted, pairwise disjoint, above `rcv_nxt`, FIN only last, every segment a slice of the stream |
| `TcpReassembly.DrainDelivers` | server_dir/lwip/src/core/tcp_in.c:1481-1517 | draining delivers the next stream bytes in order and stops with a queue strictly above the new `rcv_nxt` |
| `TcpReassembly.InSequenceDelivers` | server_dir/lwip/src/core/tcp_in.c:1369-1517 | an in-sequence arrival keeps the reassembly invariant |
| `TcpReassembly.ReceiveKeepsInv` | server_dir/lwip/src/core/tcp_in.c:1273-1653 | every arrival, lost, duplicated, reordered or overlapping, with any allocation outcome, keeps the reassembly invariant |
| `TcpReassembly.RunKeepsInv` | server_dir/lwip/src/core/tcp_in.c:1273-1653 | over every run of arrivals, window changes and queue drops the invariant holds, `rcv_nxt` never goes back, and it never moves again once the FIN is delivered |
| `TcpReassembly.RunDeliversPrefix` | server_dir/lwip/src/core/tcp_in.c:1273-1517 | from an opened connection, over every run, the delivered bytes are a prefix of the stream, and all of it once the FIN was delivered |
| `TcpReassembly.ChainOrdered` | server_dir/lwip/src/core/tcp_in.c:1536-1653 | the queue invariant in plain terms: order, disjointness, FIN only at the end, contents |
| `TcpReassembly.WalkCoverage` | server_dir/lwip/src/core/tcp_in.c:1536-1653 | exactly which positions the queue holds after an out-of-sequence segment, also one that overruns the window: all held before and all that is used of the newcomer, which is cut at the window only behind the last queued segment, except what a trimmed predecessor overhangs and a dropped FIN |
| `TcpReassembly.ReceiveCoverage` | server_dir/lwip/src/core/tcp_in.c:1304-1654 | exactly what is delivered or queued after any segment: one that reaches `rcv_nxt` from either side adds all it holds below the window edge, also when its front is old; one ahead is queued as WalkCoverage says, or whole when the queue is empty; without memory, or outside the window, nothing changes |
| `TcpReassembly.ReceiveProgress` | server_dir/lwip/src/core/tcp_in.c:1361-1535 | `rcv_nxt` advances if and only if the segment starts at or before it, reaches beyond it and the window is open, and then to the end of the segment or of the window at least |
| `TcpReassembly.ForgetsIff` | server_dir/lwip/src/core/tcp_in.c:1595-1649 | queueing a segment forgets bytes it held if and only if a queued segment without FIN starts before it and ends after what is used of it |
| `TcpReassembly.ForgetsExample` | server_dir/lwip/src/core/tcp_in.c:1595-1611 | a concrete newcomer inside a queued segment that makes the queue forget bytes |
| `TcpReassembly.InSequenceCoverage` | server_dir/lwip/src/core/tcp_in.c:1369-1517 | an in-sequence arrival loses nothing: afterwards the receiver has what it had plus the part of the segment inside the window |
| `TcpReassembly.NextIsLeastMissing` | server_dir/lwip/src/core/tcp_in.c:1449-1517 | `rcv_nxt` is the least position the receiver lacks, and having every position is the same as having delivered the stream and its FIN |
| `TcpReassembly.WalkEdge` | server_dir/lwip/src/core/tcp_in.c:1617-1649 | queueing keeps the queue inside the window if and only if the segment lies inside it, is appended, or is discarded |
| `TcpReassembly.ReceiveKeepsWindow` | server_dir/lwip/src/core/tcp_in.c:1273-1653 | the right window edge stays and the queue stays inside it if and only if the arrival fits the window or is placed where the code clips it |
| `TcpReassembly.OverrunWrapsWindow` | server_dir/lwip/src/core/tcp_in.c:1536-1548 | a concrete segment that overruns an empty queue is kept whole, and delivering it wraps the 16-bit window |
| `TcpReassembly.InSequenceHasRoom` | server_dir/lwip/src/core/tcp_in.c:1450-1490 | while the queue lies inside the window, no delivery of an in-sequence arrival or of the draining loop exceeds `rcv_wnd` |
| `TcpReassembly.ReceiveKeepsSettled` | server_dir/lwip/src/core/tcp_in.c:1273-1653 | reception keeps every queued sequence number close enough to `rcv_nxt` for 32-bit comparison, whether or not senders respect the window |
| `TcpReceive.AbsorbCovered` | server_dir/lwip/src/core/tcp_in.c:968-984 | the 32-bit loop refines the deletion and trimming on positions |
| `TcpReceive.OosInsertSegment` | server_dir/lwip/src/core/tcp_in.c:957-987 | tcp_oos_insert_segment refines insertion on positions |
| `TcpReceive.ClipToWindow` | server_dir/lwip/src/core/tcp_in.c:1631-1647 | the 16-bit clipping of an appended segment refines clipping at the right edge |
| `TcpReceive.PlaceAtEqual` | server_dir/lwip/src/core/tcp_in.c:1553-1577 | the branch for equal sequence numbers keeps the longer segment, as on positions |
| `TcpReceive.PlaceBetween` | server_dir/lwip/src/core/tcp_in.c:1595-1611 | the branch between two queued segments trims the predecessor and inserts, as on positions |
| `TcpReceive.PlaceAtEnd` | server_dir/lwip/src/core/tcp_in.c:1617-1649 | the branch behind the last segment trims both as needed and appends, as on positions |
| `TcpReceive.PlaceOutOfSequence` | server_dir/lwip/src/core/tcp_in.c:1552-1653 | the whole walk on sequence numbers refines the walk on unbounded positions, across the 2^32 wrap |
| `TcpWindow.AnnounceKeepsEdge` | server_dir/lwip/src/core/tcp.c:736-760 | announcing never takes back the announced edge, never promises more than the window, and loses nothing to its 16-bit cast |
| `TcpWindow.AnnounceThrifty` | server_dir/lwip/src/core/tcp.c:736-760 | no silly window: the announced edge stays, or moves by half of the full window or one segment at least, or follows `rcv_nxt` (section 4.2.3.3 of RFC 1122); once such a step is possible the whole window is announced |
| `TcpWindow.CreditedExact` | server_dir/lwip/src/core/tcp.c:772-793 | tcp_recved never exceeds the full window, and adds what it is given if and only if the sum fits and is not a zero window in passive close, which it takes for an overflow |
| `TcpWindow.CreditedIs` | server_dir/lwip/src/core/tcp.c:780-793 | short of a 16-bit overflow the window grows by what is credited up to the full window, and a window of zero after the peer's FIN reopens fully |
| `TcpWindow.CreditReopens` | server_dir/lwip/src/core/tcp.c:772-808 | once the application has taken everything the window is full, and the next segment announces it in full unless the step is too small |
| `TcpWindow.StepKeepsSound` | server_dir/lwip/src/core/tcp.c:736-808 | arrivals that fit, tcp_recved, the credit for FIN, sending and dropping the queue keep the queue inside the window, window plus uncredited bytes constant and the announced window within it, and move neither the window edge nor the announced edge left |
| `TcpWindow.ArriveSoundIff` | server_dir/lwip/src/core/tcp_in.c:1273-1653 | an arrival leaves the window sound if and only if it fits the window or the peer has already closed; it moves neither edge |
| `TcpWindow.RunNeverShrinks` | server_dir/lwip/src/core/tcp.c:736-808 | over every such run neither right edge moves left, as section 4.2.2.16 of RFC 1122 asks |
| `TcpWindow.RunAnnouncesThriftily` | server_dir/lwip/src/core/tcp.c:736-808 | over every legal run the next announcement avoids the silly window |
| `TcpWindow.AnnouncedFits` | server_dir/lwip/src/core/tcp_in.c:1273-1653 | a segment that ends within what was announced fits |
| `TcpWindow.ObeyedRunIsLegal` | server_dir/lwip/src/core/tcp_in.c:1273-1653 | against a peer that stays within what was announced, every run keeps the window sound |
| `TcpWindow.ObeyedRunAnnounces` | server_dir/lwip/src/core/tcp.c:736-808 | and against a peer that stays within what was announced, it leaves the edge or moves it by half of the full window or one segment at least |
| `TcpWindow.OpenedSound` | server_dir/lwip/src/core/tcp.c:1575-1591 | a new connection starts with a sound window |
| `TcpWindow.OpenedThrifty` | server_dir/lwip/src/core/tcp.c:1575-1591 | a new connection meets what these two start from |
| `TcpWindow.ConsumeSoundIff` | server_dir/lwip/src/core/tcp.c:780-793 | crediting bytes that were received is sound if and only if the window does not stay at zero in passive close |
| `TcpWindow.FullWindowReopens` | server_dir/lwip/src/core/tcp.c:780-793 | three bytes and a FIN fill a window of four, and tcp_recved of nothing opens it fully |
| `TcpPcb.Pcb.constructor` | server_dir/lwip/src/core/tcp.c:1575-1591 | a new connection satisfies the invariant |
| `TcpPcb.Pcb.UpdateRcvAnnWnd` | server_dir/lwip/src/core/tcp.c:736-760 | the announced window lies between what was announced and the window, avoids the silly window, and is the whole window once a worthwhile step is possible; returns how far the edge could move |
| `TcpPcb.Pcb.DrainOoseq` | server_dir/lwip/src/core/tcp_in.c:1481-1517 | the delivery loop refines draining on positions and collects exactly the delivered bytes |
| `TcpPcb.Pcb.ReceiveInSequence` | server_dir/lwip/src/core/tcp_in.c:1369-1517 | the in-sequence branch refines in-sequence reception on positions |
| `TcpPcb.Pcb.TrimFirstEdge` | server_dir/lwip/src/core/tcp_in.c:1304-1353 | trimming below `rcv_nxt` refines trimming on positions |
| `TcpPcb.Pcb.InWindow` | server_dir/lwip/src/core/tcp_in.c:1367 | the 32-bit window check decides membership of the position in the window |
| `TcpPcb.Pcb.QueueOutOfSequence` | server_dir/lwip/src/core/tcp_in.c:1531-1654 | the out-of-sequence branch refines queueing on positions; a failed allocation changes nothing |
| `TcpPcb.Pcb.ReceiveText` | server_dir/lwip/src/core/tcp_in.c:1273-1654 | the data half of tcp_receive refines reception on positions; `rcv_nxt` advances if and only if the segment reaches it from at or before it in an open window, and then over all of the segment that the window admits |
| `TcpPcb.Pcb.Process` | server_dir/lwip/src/core/tcp_in.c:871-948 | one segment in a synchronized state: fields refine one reassembly and window step, the bytes handed up extend the delivered prefix and grow exactly under the condition of ReceiveProgress, a sound window stays sound if and only if the arrival fits, and neither edge moves |
| `TcpPcb.Pcb.Recved` | server_dir/lwip/src/core/tcp.c:772-808 | tcp_recved refines the window step and sets the window that CreditedIs gives; for bytes that were received it keeps the window sound except in the zero-window case, moves the edge right only and never takes back what was announced; an update is sent at once if and only if the edge moved far enough |
| `TcpPcb.Pcb.CountFin` | server_dir/lwip/src/core/tcp_in.c:475-484 | the credit for a FIN adds exactly one and keeps the window sound |
| `TcpPcb.Pcb.Announce` | server_dir/lwip/src/core/tcp_out.c:127 | sending a segment records `rcv_nxt` plus the announced window as the announced right edge, which never moves left |
| `TcpPcb.Pcb.DropOoseq` | server_dir/lwip/src/core/tcp.c:1102-1108 | dropping the queue after inactivity empties it and changes nothing else: the invariant, everything delivered and a sound window stay |
| `TcpAck.DropExact` | server_dir/lwip/src/core/tcp_in.c:1157-1180 | in an ascending queue exactly the segments that end at or below the acknowledgement are freed |
| `TcpAck.AcknowledgeExact` | server_dir/lwip/src/core/tcp_in.c:1079-1235 | for ascending queues that end above `lastack`, an acknowledgement frees a segment if and only if it is new, not beyond `snd_nxt`, and covers it; `snd_buf` plus queued bytes and `snd_queuelen` against queued pbufs are conserved |
| `TcpAck.OldAck` | server_dir/lwip/src/core/tcp_in.c:1079-1112 | an old acknowledgement, or one beyond `snd_nxt`, changes nothing |
| `TcpAck.AcknowledgeInOrder` | server_dir/lwip/src/core/tcp_in.c:1157-1235 | acknowledgement keeps the unacked queue before the unsent one |
| `TcpAck.StepKeepsInv` | server_dir/lwip/src/core/tcp_in.c:1079-1235 | queueing, sending, moving back for retransmission and acknowledgement keep the accounting; `lastack` and `snd_nxt` never go back |
| `TcpAck.RunKeepsInv` | server_dir/lwip/src/core/tcp_in.c:1079-1235 | over every run the buffer accounting holds and `lastack` only moves forward, never past `snd_nxt` |
| `TcpSender.FreeAcked` | server_dir/lwip/src/core/tcp_in.c:1157-1180 | the freeing loop on 32-bit numbers frees what the specification on positions frees, with the same byte and pbuf counts |
| `TcpSender.Sender.constructor` | server_dir/lwip/src/core/tcp.c:1575-1591 | empty queues and a stopped retransmission timer satisfy the invariant |
| `TcpSender.Sender.ProcessAck` | server_dir/lwip/src/core/tcp_in.c:1079-1235 | acknowledgement on the PCB fields refines Acknowledge, returns what it frees to `snd_buf`, and stops or restarts the retransmission timer |
| `TcpSender.Sender.SendFin` | server_dir/lwip/src/core/tcp_out.c:139-156 | queueing FIN on the fields, on the last unsent segment or on one of its own, refines it on positions; it fails if and only if a segment of its own is needed and there is no memory |
| `TcpSender.Sender.Write` | server_dir/lwip/src/core/tcp_out.c:368-765 | tcp_write on the fields queues exactly what it does on positions and takes its length from the send buffer, or changes nothing; success if and only if the data fits the send buffer, memory is found for every piece, and the pbufs stay within the queue limit when a segment is made |
| `TcpSender.MakeSegments` | server_dir/lwip/src/core/tcp_out.c:556-655 | the loop of phase 3 makes the segments that the data is cut into, if there is memory and room in the queue for all of them |
| `TcpSender.Sender.Fits` | server_dir/lwip/src/core/tcp_out.c:1083-1084 | the 32-bit window test of tcp_output decides whether the segment ends inside the window, also for one that is partly acknowledged |
| `TcpSender.Sender.Transmit` | server_dir/lwip/src/core/tcp_out.c:1120-1158 | sending the first unsent segment: it moves from the front of the unsent queue to the end of the unacknowledged ones, where it always belongs, and `snd_nxt` advances by 32-bit comparison as on positions |
| `TcpSender.Sender.Requeue` | server_dir/lwip/src/core/tcp_out.c:1391-1412 | tcp_rexmit_rto leaves nothing unacknowledged and puts those segments, in order, in front of what is unsent; buffers, acknowledged and next position stay |
| `TcpWrite.WriteRun` | server_dir/lwip/src/core/tcp_out.c:368-765 | tcp_write is a run of moves that queue all of the data behind what was queued before, first on the last unsent segment and then in new ones |
| `TcpWrite.WrittenQueues` | server_dir/lwip/src/core/tcp_out.c:368-765 | so the accounting holds and the queued segments touch without gaps up to the new `snd_lbb` |
| `TcpWrite.WrittenFits` | server_dir/lwip/src/core/tcp_out.c:450-453 | no segment grows beyond the segment size, so the assertion on the last unsent segment holds at the next call |
| `TcpWrite.FillsLast` | server_dir/lwip/src/core/tcp_out.c:455-553 | a new segment is made only once a last unsent segment with data is full |
| `TcpWrite.SpareFirst` | server_dir/lwip/src/core/tcp_out.c:456-485 | spare room at the end of the last segment is used before anything is allocated; data that fits it needs no memory and adds nothing to the queue |
| `TcpWrite.PiecesFull` | server_dir/lwip/src/core/tcp_out.c:556-655 | every new segment but the last is full, and each starts where the one before it ends |
| `TcpWrite.PbufsCounted` | server_dir/lwip/src/core/tcp_out.c:556-655 | the queue length grows by every pbuf that is allocated |
| `TcpWrite.AcceptedWithinLimits` | server_dir/lwip/src/core/tcp_out.c:307-655 | accepted data fits the send buffer, and new segments stay within the queue limit |
| `TcpWrite.PlentyIsEnough` | server_dir/lwip/src/core/tcp_out.c:307-655 | with memory for everything, data is refused if and only if it exceeds the send buffer or the queue limit |
| `TcpClose.FinAckedIff` | server_dir/lwip/src/core/tcp_in.c:898-946 | the test for our FIN, `ackno == snd_nxt` with nothing unsent, holds if and only if the acknowledgement reaches the end of everything queued |
| `TcpClose.SendFinKeepsQueues` | server_dir/lwip/src/core/tcp_out.c:139-156 | our FIN becomes the last thing queued and the accounting holds |
| `TcpClose.StepKeepsInv` | server_dir/lwip/src/core/tcp_in.c:885-946 | segments, writes, closes, sending and retransmission keep the accounting, the queued segments touching up to `snd_lbb` with no flag but our FIN at the end, and the state in step with which FINs were queued, acknowledged and received |
| `TcpClose.NothingOutstanding` | server_dir/lwip/src/core/tcp_in.c:898-946 | in FIN_WAIT_2 and TIME_WAIT, and when LAST_ACK ends, nothing is outstanding and our FIN was acknowledged |
| `TcpClose.BothClosed` | server_dir/lwip/src/core/tcp_in.c:898-946 | TIME_WAIT, or the end of LAST_ACK, if and only if the peer's FIN was received and ours was acknowledged |
| `TcpClose.NeverBack` | server_dir/lwip/src/core/tcp_in.c:885-946 | no move takes the state back |
| `TcpClose.RunKeepsInv` | server_dir/lwip/src/core/tcp_in.c:885-946 | over every run the state says what has happened and is never left backwards |
| `TcpClose.OutstandingFits` | server_dir/lwip/src/core/tcp_out.c:307-330 | what lies between `lastack` and `snd_lbb` fits the send buffer, but for a FIN |
| `TcpClose.CloseCompletes` | server_dir/lwip/src/core/tcp.c:331-344 | from every state in which tcp_close queues our FIN, sending what is queued and an acknowledgement of it all lead to FIN_WAIT_2, or to the end of LAST_ACK when the peer has closed |
| `TcpClose.ResendSendsAgain` | server_dir/lwip/src/core/tcp_out.c:1391-1412 | after a retransmission timeout the next n segments sent are the first n that were queued, the unacknowledged ones first, in order; `snd_nxt` does not move until all of these went out again |
| `TcpConnection.Connection.constructor` | server_dir/lwip/src/core/tcp.c:1575-1591 | both halves of an established connection agree |
| `TcpConnection.Connection.Process` | server_dir/lwip/src/core/tcp_in.c:871-948 | a segment on the fields of both halves, with the FIN test made on them, is one step on positions and one window step; FIN_WAIT_2, TIME_WAIT and the end of LAST_ACK mean empty queues, the last two also a received FIN |
| `TcpConnection.Connection.TakeAck` | server_dir/lwip/src/core/tcp_in.c:898-946 | the 32-bit test for our FIN decides the one on positions |
| `TcpConnection.Connection.Close` | server_dir/lwip/src/core/tcp.c:331-344 | tcp_close on the fields is the step on positions; the state moves on only if our FIN was queued |
| `TcpConnection.Connection.Write` | server_dir/lwip/src/core/tcp_out.c:307-765 | tcp_write on the fields is its run of moves; it refuses other states with ERR_CONN and a lack of room or memory with ERR_MEM, and then nothing changes |
| `TcpConnection.Connection.Output` | server_dir/lwip/src/core/tcp_out.c:1083-1160 | the loop of tcp_output sends exactly the leading segments that fit the window and are allowed to go, one move each, and nothing beyond the window but a FIN |
| `TcpConnection.Connection.Resend` | server_dir/lwip/src/core/tcp_out.c:1391-1412 | tcp_rexmit_rto on the fields: the unacknowledged segments stand in front of the unsent ones, in order, and state, buffers and sequence numbers are as before |
| `RttEstimator.UpdateKeepsBounds` | server_dir/lwip/src/core/tcp_in.c:1250-1261 | one sample of at most r ticks keeps 0 <= sa <= 8r+7 and 3 <= sv <= 4r+3 |
| `RttEstimator.RunBounded` | server_dir/lwip/src/core/tcp_in.c:1244-1266 | over every run of samples of at most r ticks, 3 <= rto <= 5r+3, which is above the one second of section 2 of RFC 6298 |
| `RttEstimator.Converges` | server_dir/lwip/src/core/tcp_in.c:1250-1261 | from any state, equal samples of m ticks bring rto to exactly m + 3 after finitely many of them |
| `RttEstimator.SteadyStays` | server_dir/lwip/src/core/tcp_in.c:1250-1261 | and further equal samples leave the estimator unchanged |
| `RttEstimator.InitialBounded` | server_dir/lwip/src/core/tcp.c:1586-1587 | the initial values satisfy the bounds |
| `RttEstimator.UpdateStaysInside` | server_dir/lwip/src/core/tcp_in.c:1250-1261 | samples of at most 92 ticks do not leave a polygon of sixteen sides around the reachable estimates |
| `RttEstimator.BackoffFits` | server_dir/lwip/src/core/tcp.c:1037-1039 | inside it rto is at most 255 and every backed-off rto fits 16 signed bits |
| `RttEstimator.BackoffDoubles` | server_dir/lwip/src/core/tcp.c:1037-1039 | the first retransmission waits twice rto, each of the next six twice as long as the one before, and later ones no longer |
| `RttEstimator.SixLongSamples` | server_dir/lwip/src/core/tcp_in.c:1250-1261 | six samples of 93 ticks bring rto to 256 |
| `RttEstimator.AlwaysFitsIff` | server_dir/lwip/src/core/tcp.c:1037-1039 | over all runs of samples of at most r ticks every back-off fits 16 signed bits if and only if r <= 92 |
| `RttEstimator.FirstSampleFitsIff` | server_dir/lwip/src/core/tcp.c:1037-1039 | after a first sample of m ticks the largest back-off fits 16 signed bits if and only if m <= 223 |
| `RttEstimator.Rtt.constructor` | server_dir/lwip/src/core/tcp.c:1586-1587 | the estimator starts inside its bounds |
| `RttEstimator.Rtt.Sample` | server_dir/lwip/src/core/tcp_in.c:1244-1266 | with samples of at most 92 ticks the 16-bit update equals the unbounded one: nothing overflows |
| `RttEstimator.Rtt.BackOff` | server_dir/lwip/src/core/tcp.c:1037-1039 | the 16-bit shift equals the product: nothing overflows |
| `TcpTimers.CallingKeepsInv` | server_dir/lwip/src/core/tcp.c:990-1160 | processing a PCB marks it, removes it from the pending ones, and keeps the walk invariant |
| `TcpTimers.CallbackKeepsInv` | server_dir/lwip/src/core/tcp.c:1156-1176 | whatever a callback adds, removes or reorders, the walk invariant holds and no PCB becomes pending |
| `TcpTimers.StepKeepsInv` | server_dir/lwip/src/core/tcp.c:983-1182 | every round of the walk keeps the invariant |
| `TcpTimers.StepDescends` | server_dir/lwip/src/core/tcp.c:983-1182 | every round processes a pending PCB or moves on, restarts included, so the walk ends |
| `TcpTimers.WalkedKeepsInv` | server_dir/lwip/src/core/tcp.c:975-1182 | in every state of a tick no PCB was processed twice and only PCBs pending at its start were |
| `TcpTimers.RoundLosesIff` | server_dir/lwip/src/core/tcp.c:990-993 | whatever callbacks did before, a round drops a PCB that is neither removed nor taken out by a callback if and only if it removes a pending PCB whose predecessor in the list was skipped since the last restart |
| `TcpTimers.TickLosesIff` | server_dir/lwip/src/core/tcp.c:975-1182 | so over every prefix of a tick: the exact condition for the integrity of the active list |
| `TcpTimers.SkippedWhy` | server_dir/lwip/src/core/tcp.c:983-1182 | such a predecessor was processed before the last restart, allocated by a callback, or marked when the tick began |
| `TcpTimers.MarkedWhy` | server_dir/lwip/src/core/tcp.c:983-1182 | a PCB is marked only because it was when the tick began, was processed, or was allocated by a callback |
| `TcpTimers.SkippedPcbsAreLost` | server_dir/lwip/src/core/tcp.c:990-993 | a concrete tick in which a callback opens a PCB, the walk restarts, and a removal drops two skipped PCBs from the active list |
| `TcpTimers.StraightStep` | server_dir/lwip/src/core/tcp.c:983-1182 | while callbacks leave the list alone no PCB is skipped and the list loses exactly what is removed |
| `TcpTimers.StraightWalk` | server_dir/lwip/src/core/tcp.c:975-1182 | a tick without list changes takes no PCB out of the list but those it removes |
| `TcpTimers.Tcp.Round` | server_dir/lwip/src/core/tcp.c:983-1182 | the loop body, with its restart, is one step of the walk |
| `TcpTimers.Tcp.SlowTimer` | server_dir/lwip/src/core/tcp.c:965-1182 | the walk ends, processes no PCB twice, and every active PCB is marked afterwards; one that was active before was processed, unless it was already marked or a callback allocated it again, and the next tick starts among unmarked PCBs |
| `TcpTimers.Tcp.FastTimer` | server_dir/lwip/src/core/tcp.c:1226-1264 | the same for the fast timer |
| `TcpTimers.FastTimerLosesNone` | server_dir/lwip/src/core/tcp.c:1226-1264 | the fast timer never drops a PCB from the list |
| `Mailbox.StepKeepsInv` | server_dir/port/sys_arch.c:222-376 | every step of every thread keeps exclusion, wait counts, buffer contents and both wake-up conditions |
| `Mailbox.RunKeepsInv` | server_dir/port/sys_arch.c:222-376 | every interleaving keeps the invariant |
| `Mailbox.ReachableSafe` | server_dir/port/sys_arch.c:222-376 | in every reachable state the mutex excludes, at most 127 messages are queued, messages are fetched in posting order without loss or duplication, and a waiting consumer with a queued message has a signal pending |
| `Mailbox.OnlyOwnersWrite` | server_dir/port/sys_arch.c:222-376 | only the thread that holds the mutex changes the buffer |
| `Mailbox.StuckIsQuiet` | server_dir/port/sys_arch.c:222-376 | if no thread can move, the consumer is idle or waits on an empty mailbox nobody posts to: consumer and blocked producers never wait for each other |
| `MailboxSchedules.PostCompletes` | server_dir/port/sys_arch.c:259-293 | an undisturbed post or trypost to a mailbox with room appends its message |
| `MailboxSchedules.PostBlocks` | server_dir/port/sys_arch.c:259-293 | an undisturbed post to a full mailbox waits |
| `MailboxSchedules.TryPostFails` | server_dir/port/sys_arch.c:222-256 | an undisturbed trypost to a full mailbox changes nothing |
| `MailboxSchedules.FetchCompletes` | server_dir/port/sys_arch.c:329-376 | an undisturbed fetch or tryfetch of a mailbox with a message takes the first one and signals a waiting producer |
| `MailboxSchedules.WokenFetches` | server_dir/port/sys_arch.c:329-376 | a fetch that is woken takes the signal and the first message, or waits again when there is none |
| `MailboxSchedules.FetchFindsNothing` | server_dir/port/sys_arch.c:296-376 | an undisturbed tryfetch of an empty mailbox changes nothing and ends; a fetch waits |
| `MailboxSchedules.TryNeverWaits` | server_dir/port/sys_arch.c:222-326 | under every schedule, trypost gives up exactly when it finds the mailbox full and tryfetch exactly when it finds it empty; neither waits |
| `MailboxSchedules.OneProducerPrompt` | server_dir/port/sys_arch.c:259-293 | with one posting thread no step makes it wait while there is room and no signal |
| `MailboxSchedules.OneProducerNeverOversleeps` | server_dir/port/sys_arch.c:259-293 | the same over every run |
| `MailboxSchedules.OversleepsIff` | server_dir/port/sys_arch.c:259-376 | a step makes a producer wait while there is room and no signal if and only if another waiting producer takes the signal while there is room |
| `MailboxSchedules.TwoProducersOversleep` | server_dir/port/sys_arch.c:259-376 | any two producers can reach a state in which nothing moves and one of them waits, until the next fetch, although there is room |
| `MailboxSchedules.NeverOversleepsIff` | server_dir/port/sys_arch.c:259-376 | no state that a set of posting threads can reach has a producer wait while there is room and no signal if and only if the set has at most one member |
| `HeapBlocks.AllocateWellFormed` | server_dir/lwip/src/core/mem.c:641-697 | allocation keeps the blocks tiling the heap, roomy and coalesced |
| `HeapBlocks.AllocateLive` | server_dir/lwip/src/core/mem.c:641-697 | allocation adds exactly one live region and moves no other |
| `HeapBlocks.AllocateInUse` | server_dir/lwip/src/core/mem.c:641-697 | the used statistic grows by exactly the block taken |
| `HeapBlocks.FirstFitFacts` | server_dir/lwip/src/core/mem.c:641-697 | first fit fails if and only if no free block is large enough, and otherwise finds the lowest one |
| `HeapBlocks.FreeWellFormed` | server_dir/lwip/src/core/mem.c:343-465 | freeing keeps the heap well formed and coalesced |
| `HeapBlocks.FreeLive` | server_dir/lwip/src/core/mem.c:418-465 | freeing removes exactly the block's region |
| `HeapBlocks.FreeInUse` | server_dir/lwip/src/core/mem.c:457 | freeing gives back exactly the block's bytes |
| `HeapBlocks.NothingInUse` | server_dir/lwip/src/core/mem.c:343-465 | a heap with nothing in use is one free block |
| `HeapBlocks.FreeAllInAnyOrder` | server_dir/lwip/src/core/mem.c:343-465 | freeing all live regions in any order leaves one free block that covers the heap |
| `HeapBlocks.TrimWellFormed` | server_dir/lwip/src/core/mem.c:477-592 | trimming keeps the heap well formed and coalesced |
| `HeapBlocks.TrimLive` | server_dir/lwip/src/core/mem.c:477-592 | trimming keeps the region in place with at least the bytes asked for and moves no other |
| `HeapBlocks.TrimInUse` | server_dir/lwip/src/core/mem.c:556-578 | trimming gives back exactly the bytes cut off |
| `HeapBlocks.LiveDisjoint` | server_dir/lwip/src/core/mem.c:602-742 | live regions with their headers do not overlap |
| `HeapBlocks.BoundaryAligned` | server_dir/lwip/src/core/mem.c:602-742 | in an aligned heap every block starts at a multiple of the alignment |
| `HeapBlocks.AllocateAligned` | server_dir/lwip/src/core/mem.c:641-697 | allocation keeps every block size a multiple of the alignment |
| `HeapBlocks.FreeAligned` | server_dir/lwip/src/core/mem.c:343-465 | freeing keeps every block size a multiple of the alignment |
| `HeapBlocks.TrimAligned` | server_dir/lwip/src/core/mem.c:477-592 | trimming keeps every block size a multiple of the alignment |
| `Heap.RoundedAligned` | server_dir/lwip/src/core/mem.c:618-626 | a rounded request is a multiple of the alignment, also when it wraps |
| `Heap.RoundedIs` | server_dir/lwip/src/core/mem.c:618-626 | a rounded request is the least multiple of the alignment that is no less than the size asked for and the minimum, or the minimum if rounding wraps around 16 bits |
| `Heap.AllocatedRegion` | server_dir/lwip/src/core/mem.c:655-697 | allocation adds exactly one live region; it holds the size needed and less than a header and a minimal block more |
| `HeapHeaders.JoinHeaders` | server_dir/lwip/src/core/mem.c:343-376 | swallowing the next block leaves headers whose next and prev agree |
| `HeapHeaders.CutHeaders` | server_dir/lwip/src/core/mem.c:641-697 | splitting a block leaves headers whose next and prev agree |
| `HeapHeaders.FreeIsPlug` | server_dir/lwip/src/core/mem.c:343-376 | freeing on the block list is marking the block and plugging the holes on both sides |
| `HeapHeaders.FirstFitFromLowest` | server_dir/lwip/src/core/mem.c:641-642 | starting the search at `lfree` misses no block |
| `HeapHeaders.AllocateLowest` | server_dir/lwip/src/core/mem.c:701-720 | where the lowest free block is after an allocation |
| `HeapHeaders.FreeLowest` | server_dir/lwip/src/core/mem.c:450-456 | where the lowest free block is after a free |
| `HeapHeaders.TrimLowest` | server_dir/lwip/src/core/mem.c:530-580 | where the lowest free block is after a trim |
| `Heap.AlignSizeEnough` | server_dir/lwip/src/core/mem.c:618 | rounding a size up in 16 bits covers it if and only if it is at most 65536 less the alignment |
| `Heap.AlignSizeExample` | server_dir/lwip/src/core/mem.c:618 | a concrete request that wraps to the minimum |
| `Heap.Heap.constructor` | server_dir/lwip/src/core/mem.c:382-410 | mem_init gives one free block |
| `Heap.Heap.NextFree` | server_dir/lwip/src/core/mem.c:701-720 | the scan for the next free block finds the lowest one |
| `Heap.Heap.Search` | server_dir/lwip/src/core/mem.c:641-697 | the search from `lfree` on finds the lowest free block that is large enough, if there is one |
| `Heap.Heap.MemMalloc` | server_dir/lwip/src/core/mem.c:602-742 | returns NULL for a nonzero size if and only if no free block can hold the clamped size, although it starts at `lfree` and stops early; otherwise takes the lowest block that fits: exactly one live region is added, aligned, apart from all others, and no shorter than the size asked for unless that wraps around 16 bits; the headers, `lfree` and `used` follow |
| `Heap.Heap.PlugHoles` | server_dir/lwip/src/core/mem.c:343-376 | coalescing on headers refines freeing on the block list, and `lfree` follows a block that is joined to the one in front |
| `Heap.Heap.MemFree` | server_dir/lwip/src/core/mem.c:418-465 | frees exactly the block of a live region; NULL and addresses outside the heap change nothing |
| `Heap.Heap.MemTrim` | server_dir/lwip/src/core/mem.c:477-592 | shrinks exactly one live region in place, which keeps its start and stays no shorter than the size asked for unless that wraps around 16 bits, or refuses to grow it |
| `ChecksumSpec.FoldTwice` | server_dir/lwip/src/core/inet_chksum.c:106-113 | two folds bring every 32-bit sum to its canonical form, 0 and 0xFFFF kept apart |
| `ChecksumSpec.ByteOrder` | server_dir/lwip/src/core/inet_chksum.c:79-114 | exchanging the byte order of the data exchanges the bytes of the sum (section 2 of RFC 1071) |
| `ChecksumSpec.AfterOneByte` | server_dir/lwip/src/core/inet_chksum.c:132-173 | the sum of data that follows one odd byte |
| `ChecksumSpec.WordSumCat` | server_dir/lwip/src/core/inet_chksum.c:567-589 | data at an odd offset adds its byte-exchanged sum |
| `ChecksumSpec.ExampleOfRfc1071` | server_dir/lwip/src/core/inet_chksum.c:79-114 | the example of section 3 of RFC 1071 sums to 0xDDF2, 0xF2DD on this host |
| `Checksum.Chksum1` | server_dir/lwip/src/core/inet_chksum.c:79-114 | version 1 returns the canonical word sum of the bytes; no carry is lost |
| `Checksum.Chksum2` | server_dir/lwip/src/core/inet_chksum.c:132-173 | version 2 returns the same value for every start alignment |
| `Checksum.Chksum3` | server_dir/lwip/src/core/inet_chksum.c:188-255 | version 3 returns the same value for every start alignment and length |
| `Checksum.SumLongs` | server_dir/lwip/src/core/inet_chksum.c:211-232 | the unrolled loop with carries added back preserves the sum modulo 0xFFFF and keeps zero apart |
| `ChecksumChain.SumChain` | server_dir/lwip/src/core/inet_chksum.c:259-290 | the chain loop with its byte exchanges sums the flattened bytes, for every cut into pbufs, odd lengths included |
| `ChecksumChain.InetChksumPbuf` | server_dir/lwip/src/core/inet_chksum.c:567-589 | the chain checksum is the complemented canonical sum of the flattened bytes |
| `ChecksumChain.FlatCat` | server_dir/lwip/src/core/inet_chksum.c:567-589 | the flattened bytes of a chain are those of its parts, in order |
| `ChecksumChain.InetChksumPseudo` | server_dir/lwip/src/core/inet_chksum.c:259-327 | the checksum of the pseudo header followed by the flattened bytes |
| `ChecksumChain.InetChksumPseudoPartial` | server_dir/lwip/src/core/inet_chksum.c:398-473 | the same for the first `chksum_len` bytes |
| `ChecksumChain.StoredVerifies` | server_dir/lwip/src/core/tcp_in.c:146-148 | a message whose zeroed checksum field at an even offset was filled with its checksum sums to zero |
| `ChecksumChain.SegmentVerifies` | server_dir/lwip/src/core/tcp_in.c:146-148 | the same through the pseudo header and any cut into pbufs: the receiver's check accepts what the sender stored |
| `PbufGraph.ReleaseKeepsInv` | server_dir/lwip/src/core/pbuf.c:704-781 | after pbuf_free every count again equals handles plus live pbufs that link here, and no live pbuf links to a freed one |
| `PbufGraph.NoGarbage` | server_dir/lwip/src/core/pbuf.c:704-781 | every live pbuf is reachable from a handle |
| `PbufGraph.ReleaseExact` | server_dir/lwip/src/core/pbuf.c:704-781 | pbuf_free deallocates a pbuf if and only if no remaining handle reaches it |
| `PbufGraph.ReleaseHead` | server_dir/lwip/src/core/pbuf.c:736-776 | the head survives if and only if its count was above one, and then nothing is deallocated |
| `PbufGraph.AllocKeepsInv` | server_dir/lwip/src/core/pbuf.c:352-388 | a new pbuf keeps the counts right |
| `PbufGraph.RefKeepsInv` | server_dir/lwip/src/core/pbuf.c:809-816 | taking a reference keeps the counts right |
| `PbufGraph.CutKeepsInv` | server_dir/lwip/src/core/pbuf.c:887-916 | unlinking a tail leaves exactly one reference for pbuf_free to drop |
| `PbufGraph.AttachKeepsInv` | server_dir/lwip/src/core/pbuf.c:828-851 | attaching a disjoint tail moves the caller's reference to the link, keeps the counts right and makes no cycle |
| `PbufPaths.JoinedTotals` | server_dir/lwip/src/core/pbuf.c:828-851 | after pbuf_cat every tot_len is right if and only if the joined length fits 16 bits |
| `PbufPaths.ShortenedAll` | server_dir/lwip/src/core/pbuf.c:482-545 | the shortened chain carries the prefix asked for with right totals, and its tail is ready to be freed |
| `PbufPaths.ReleaseUnshared` | server_dir/lwip/src/core/pbuf.c:736-776 | pbuf_free deallocates exactly the pbufs before the first one with a second reference |
| `PbufPool.Pool.Free` | server_dir/lwip/src/core/pbuf.c:704-781 | pbuf_free drops the handle, refines Release, and returns the number of deallocated pbufs in 8 bits |
| `PbufPool.Pool.Ref` | server_dir/lwip/src/core/pbuf.c:809-816 | pbuf_ref adds a handle |
| `PbufPool.Pool.Cat` | server_dir/lwip/src/core/pbuf.c:828-851 | pbuf_cat is concatenation of the bytes; totals right if and only if they fit; counts right; only totals and links of the head change; NULL arguments change nothing |
| `PbufPool.Pool.Chain` | server_dir/lwip/src/core/pbuf.c:870-877 | pbuf_chain is concatenation and the caller keeps its reference: the count of the tail grows by one, and outside the head nothing else changes |
| `PbufPool.Pool.Dechain` | server_dir/lwip/src/core/pbuf.c:887-916 | the first pbuf is left alone with its bytes and total, and no other pbuf that is left changes but for its count; with none deallocated the tail is a chain with its bytes and totals; a returned tail is deallocated if and only if the number of leading pbufs of the tail with one reference is a positive multiple of 256 |
| `PbufPool.DeadTail` | server_dir/lwip/src/core/pbuf.c:887-916 | chains on which pbuf_dechain returns a tail that it has deallocated |
| `PbufPool.Pool.Realloc` | server_dir/lwip/src/core/pbuf.c:482-545 | pbuf_realloc is truncation: the shortest front of the chain that holds the new length is kept, growing is ignored, totals and counts stay right, and outside the part that is kept no pbuf changes but for its count |
| `PbufPool.Pool.Alloc` | server_dir/lwip/src/core/pbuf.c:352-388 | one new pbuf of the length asked for, or no change |
| `PbufPool.Pool.AllocPool` | server_dir/lwip/src/core/pbuf.c:284-351 | a new chain of exactly the length asked for if and only if the pool has enough pbufs, and no change otherwise: a chain half allocated is freed again |
| `PbufPool.PbufsForExact` | server_dir/lwip/src/core/pbuf.c:302-345 | the pbufs that the pool must have beyond the first are the fewest that hold the rest |
| `PbufBytes.CopyPartial` | server_dir/lwip/src/core/pbuf.c:1003-1040 | copies exactly the clipped slice and changes nothing else of the buffer |
| `PbufBytes.Skip` | server_dir/lwip/src/core/pbuf.c:1093-1108 | finds the pbuf and offset of a byte, or none if and only if the offset is past the end |
| `PbufBytes.TryGetAt` | server_dir/lwip/src/core/pbuf.c:1305-1318 | the byte of the flat sequence, or -1 past its end |
| `PbufBytes.MemCmp` | server_dir/lwip/src/core/pbuf.c:1350-1378 | 0 if and only if the bytes match; otherwise too short or the first difference |
| `PbufBytes.SliceIs` | server_dir/lwip/src/core/pbuf.c:1004-1047 | what a partial copy takes: the bytes from the offset on, as many as are asked for and there |
| `PbufBytes.MemFind` | server_dir/lwip/src/core/pbuf.c:1392-1406 | the first match from the start offset, or 0xFFFF; the two can be confused only for an empty pattern at the end of 0xFFFF bytes |
| `PbufWrites.WriteInto` | server_dir/lwip/src/core/pbuf.c:1137-1168 | a write inside one pbuf is a write at the corresponding offset of the flat sequence |
| `PbufWrites.Take` | server_dir/lwip/src/core/pbuf.c:1137-1168 | overwrites the prefix with the data and leaves every byte behind it, or reports the exact error and changes nothing; links, totals and counts stay |
| `PbufWrites.TakeAt` | server_dir/lwip/src/core/pbuf.c:1181-1202 | overwrites the bytes from the offset on with the data and leaves all others if and only if the slice lies inside and starts before the end; otherwise an error and no change |
| `PbufWrites.PutIs` | server_dir/lwip/src/core/pbuf.c:1137-1202 | the overwritten bytes stand between the untouched ones |
| `PbufWrites.Copy` | server_dir/lwip/src/core/pbuf.c:936-989 | overwrites a prefix of the target with the source, all of it on success; the error is determined by the lengths of the pbufs, and success, for all chains, by the closed form of CopiesIff |
| `CopyOutcome.IntoFullIff` | server_dir/lwip/src/core/pbuf.c:936-989 | into a target without empty pbufs: success if and only if the source ends in a pbuf with data, is one pbuf, or is one pbuf and an empty one of which the first ends before the first target pbuf, or with it and another follows |
| `CopyOutcome.FromDataIff` | server_dir/lwip/src/core/pbuf.c:936-989 | from a source that ends in a pbuf with data: success if and only if the target ends in a pbuf with data, or the copy ends before the last pbuf with data is reached, or the target is one pbuf and an empty one and the first source pbuf fills the first |
| `CopyOutcome.FromEmptyIff` | server_dir/lwip/src/core/pbuf.c:936-989 | from a source that ends in an empty pbuf: success if and only if there are at most two pbufs, the first fits the first target pbuf, and what is left of the target does not look like a packet queue before and after an empty pbuf is passed over |
| `CopyOutcome.CopiesIff` | server_dir/lwip/src/core/pbuf.c:936-989 | together: for all chains with room for the source, success if and only if a condition on the lengths before the call |
| `CopyOutcome.EmptyPbufsFail` | server_dir/lwip/src/core/pbuf.c:972-984 | three copies of one byte that fail although there is room |
| `PbufWrites.EmptyTailLooksLikeQueue` | server_dir/lwip/src/core/pbuf.c:972-984 | a chain that ends in an empty pbuf fails the packet-queue check of pbuf_copy at the pbuf before it |
| `RawServer.Chop` | server_dir/minimal/tcp_raw.c:175-183 | moving the reference to the next pbuf and freeing the first keeps the counts right and the rest of the chain intact |
| `RawServer.Send` | server_dir/minimal/tcp_raw.c:160-192 | for all outcomes of tcp_write and tcp_sndbuf the loop ends, writes exactly the longest accepted prefix of the chain, credits as many bytes, releases exactly its references on that prefix and owns the rest |
| `TimerList.EntriesSorted` | server_dir/lwip/src/core/timeouts.c:239-259 | the delta list is always sorted by deadline |
| `TimerList.InsertedEntries` | server_dir/lwip/src/core/timeouts.c:239-259 | what an insertion does to every deadline |
| `TimerList.RemovedEntriesIff` | server_dir/lwip/src/core/timeouts.c:282-295 | removing a timer and giving its delta to the next changes no other deadline if and only if the two deltas add up to less than 2^32 |
| `TimerList.RemovalHastens` | server_dir/lwip/src/core/timeouts.c:282-295 | two timers 2^31 ms apart: without the first, the second is due at once |
| `TimerList.ExactIff` | server_dir/lwip/src/core/timeouts.c:239-259 | sys_timeout is a stable insertion of the deadline asked for if and only if the list is empty, no time has passed since the base, or the first timer is not later and the list is not wholly overdue or its end plus the substitute delta happens to be that deadline, and no 32-bit sum loses 2^32 |
| `TimerList.EarlierIff` | server_dir/lwip/src/core/timeouts.c:239-242 | a timer becomes due earlier if and only if a new first delta does not fit 32 bits; none becomes due later by more than the time since the base |
| `TimerList.FrontInsertDelays` | server_dir/lwip/src/core/timeouts.c:239-242 | a concrete front insertion that delays the timer behind it |
| `Timeouts.FindPlace` | server_dir/lwip/src/core/timeouts.c:244-258 | the 32-bit scan finds the place of the deadline, a value below the first delta counting as 2^32 more |
| `Timeouts.Timeouts.Timeout` | server_dir/lwip/src/core/timeouts.c:204-262 | the new list of deadlines for every request and every time since the base, 32-bit overflow included, and exactly when it is the stable insertion asked for; without memory nothing changes |
| `Timeouts.Timeouts.Untimeout` | server_dir/lwip/src/core/timeouts.c:272-299 | removes exactly the first matching timer, and keeps the other deadlines if and only if its delta and the next one add up to less than 2^32 |
| `TimerPass.NoneLeftDue` | server_dir/lwip/src/core/timeouts.c:312-361 | whatever the handlers do to the list, no timer that is due is left |
| `TimerPass.EarlyIff` | server_dir/lwip/src/core/timeouts.c:312-361 | the exact condition over every pass: some timer is called before it is due if and only if one with a delta is called after a handler has restarted the list in the same pass |
| `TimerPass.PromptOnTime` | server_dir/lwip/src/core/timeouts.c:312-361 | which needs a restart that left time over |
| `TimerPass.QuietPass` | server_dir/lwip/src/core/timeouts.c:312-361 | handlers that leave the list alone: the pass removes exactly the due front of the list |
| `TimerPass.RestartedEarlyIff` | server_dir/lwip/src/core/timeouts.c:312-361 | after a restart with any list and time left over, some timer is called early if and only if one of the list is due later, but by no more than the time left; the base then lies in the future |
| `TimerPass.CyclicTimerFiresTwice` | server_dir/lwip/src/core/timeouts.c:312-361 | a concrete periodic timer that is called twice in one pass |
| `Timeouts.Timeouts.CheckTimeouts` | server_dir/lwip/src/core/timeouts.c:312-361 | the loop on wrapped clock readings is the pass on deadlines, for any handlers; the handlers called are those of the timers that ran out, each once and in order; no due timer is left; a timer is called early exactly under the condition of EarlyIff; with handlers that leave the list alone it calls exactly the timers that are due, in order, and keeps the other deadlines |
| `Timeouts.CallsExact` | server_dir/lwip/src/core/timeouts.c:346-352 | among the timers that ran out, each with a handler is called once, with its own argument, in turn, and one without a handler is not |
| `Timeouts.Timeouts.SleepTime` | server_dir/lwip/src/core/timeouts.c:380-393 | the time to the next deadline; 0 if and only if one is due |
| `MemDump.TokensFit` | client_dir/utilities.h:44-77 | the array that split allocates has room for the tokens |
| `MemDump.TokensExact` | client_dir/utilities.h:44-77 | every character that is no space and follows a space or the start of the line begins the token of its rank, which extends to the next space |
| `MemDump.TokensCounted` | client_dir/utilities.h:44-77 | and there are no other tokens |
| `MemDump.Split` | client_dir/utilities.h:44-77 | the tokens between spaces, and one more than the number of spaces |
| `MemDump.ParseCommand` | client_dir/client.c:25-82 | for every line: a dump request is accepted if and only if it has five parts of the right form and asks for 1 to 256 bytes, and a missing token is used if and only if the line has the form of a command up to it; the bytes asked for end at the second address, or are as many as the length |
| `MemDump.RequestRoundTrip` | server_dir/minimal/tcp_raw.c:74 | the request text parses back to the two words, read as signed |
| `MemDump.DumpRoundTrip` | kernel_dir/kernel_module.c:108-110 | an accepted request reaches the kernel module unchanged if and only if its address is below 2^31 |
| `MemDump.DumpCopied` | kernel_dir/kernel_module.c:75-78 | the module's buffer holds every accepted request: the copy is whole if and only if it ends no later than the last readable address, taking the address as signed |
| `MemDump.CopyFromMemory` | kernel_dir/kernel_module.c:112-133 | copies exactly the slice of memory, clipped by the buffer and the last readable address, and changes nothing else of the buffer |

## Left out

- IP, ARP, the drivers and the rest of tcp_out.c: headers and options, empty acknowledgements, probes, Nagle's test and the persist timer; which segments may go is a parameter of tcp_output.
- The connection set-up and reset states of tcp_process (SYN_SENT, SYN_RCVD, RST): the model starts with an established connection.
- Window scaling, SACK, urgent data, and the send window, duplicate-acknowledgement and congestion-window updates of tcp_receive.
- Fast retransmission: the runs of `TcpAck` do not include the reordering of the unsent queue by tcp_rexmit; `AcknowledgeExact` itself does not need the queues to be in order with each other.
- The TIME-WAIT list of tcp_slowtmr, and what the timers do to a PCB besides marking, polling and removing it.
- Mailbox: counter overflow after 2^31 posts, several consumers, and fairness of the scheduler.
- Heap: statistics other than `used`, the pool-backed and libc variants, freeing from other contexts, and the `prev` field of the end marker, which the code does not maintain.
- Checksums while copying, IPv6 pseudo headers, and the length assertion of the partial checksum.
- Pbufs: custom pbufs, header adjustment, 16-bit overflow of reference counts, and packet queues; payload that pbuf_alloc leaves unset is modelled as zeros.
- Timeouts.Timeouts.CheckTimeouts: the clock does not advance while the handlers of one pass run, and the next clock reading is not before the base of the list.
- TcpConnection.Connection.Write: the bytes themselves, of which only positions and lengths are kept, and the upkeep of `unsent_oversize`, which is a parameter; that the last unsent segment is no longer than the segment size is assumed, as the code asserts it.
- TcpConnection.Connection.Close: data that the application has not yet consumed, upon which tcp_close resets the connection instead.
- Sockets, netlink set-up, module loading, printing, and the layers that lwipopts.h switches off.
