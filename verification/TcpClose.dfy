/** How a connection closes: the states of `tcp_process` with the send queues that its tests look at.

    `tcp_process` takes our FIN for acknowledged when the acknowledgement number is `snd_nxt` and nothing is unsent.
    The lemmas say that this is exactly when it is, what each state means, and that states are never left backwards.
 */
module TcpClose {
  import opened Words
  import opened TcpAck
  import opened TcpStates

  /** `lbb` is the position after everything queued so far; `passive` says that the peer's FIN came before our close;
      `closed` is TF_CLOSED, upon which the caller frees the PCB. */
  datatype Conn = Conn(state: TcpState, flight: Flight, lbb: int, finQueued: bool, gotFin: bool, passive: bool,
                       closed: bool)

  datatype Move =
    | Segment(gotFin: bool, ack: Option<int>)  // a segment that completes the peer's data or not, with its ACK
    | Write(s: Sent)                           // tcp_write makes a new segment
    | Extend(n: nat, pbufs: nat)               // tcp_write puts bytes at the end of the last unsent segment
    | Close(alloc: bool)                       // tcp_close
    | Output                                   // the first unsent segment is sent
    | Resend                                   // everything unacknowledged goes back to the unsent queue

  /** tcp_send_fin: mark the last unsent segment, or queue a segment of its own. */
  function SendFin(f: Flight, lbb: int): Flight {
    if f.unsent != [] && !f.unsent[|f.unsent| - 1].flag then
      f.(unsent := f.unsent[|f.unsent| - 1 := f.unsent[|f.unsent| - 1].(flag := true)])
    else f.(unsent := f.unsent + [Sent(lbb, 0, true, 1)], queueLen := f.queueLen + 1)
  }

  /** `n` more bytes on the last unsent segment. */
  function ExtendLast(f: Flight, n: nat, pbufs: nat): Flight
    requires f.unsent != [] && n <= f.sndBuf
  {
    var last := f.unsent[|f.unsent| - 1];
    f.(unsent := f.unsent[|f.unsent| - 1 := last.(len := last.len + n, pbufs := last.pbufs + pbufs)],
       sndBuf := f.sndBuf - n, queueLen := f.queueLen + pbufs)
  }

  /** A segment of its own needs memory. */
  predicate FinFails(f: Flight, alloc: bool) { !alloc && (f.unsent == [] || f.unsent[|f.unsent| - 1].flag) }

  /** The test for an acknowledged FIN, after the acknowledgement was processed. */
  predicate FinAcked(f: Flight, ack: Option<int>) { ack.Some? && ack.value == f.nxt && f.unsent == [] }

  function Step(c: Conn, m: Move): Conn {
    match m
    case Segment(gotFin, ack) =>
      var f := if ack.Some? then Acknowledge(c.flight, ack.value) else c.flight;
      c.(state := StateAfter(c.state, gotFin, FinAcked(f, ack)), flight := f, gotFin := c.gotFin || gotFin,
         closed := c.closed || (c.state == LAST_ACK && FinAcked(f, ack)))
    case Write(s) => c.(flight := TcpAck.Step(c.flight, Queue(s)), lbb := End(s))
    case Extend(n, pbufs) =>
      if c.flight.unsent == [] || n > c.flight.sndBuf then c
      else c.(flight := ExtendLast(c.flight, n, pbufs), lbb := c.lbb + n)
    case Close(alloc) =>
      if (c.state != ESTABLISHED && c.state != CLOSE_WAIT) || FinFails(c.flight, alloc) then c
      else c.(state := if c.state == ESTABLISHED then FIN_WAIT_1 else LAST_ACK, flight := SendFin(c.flight, c.lbb),
              lbb := c.lbb + 1, finQueued := true, passive := c.gotFin)
    case Output => c.(flight := TcpAck.Step(c.flight, Transmit))
    case Resend => c.(flight := TcpAck.Step(c.flight, Requeue))
  }

  /** The peer's FIN is delivered once; tcp_write refuses once a close is under way; a closed PCB is gone. */
  ghost predicate Legal(c: Conn, m: Move) {
    && !c.closed
    && match m
       case Segment(gotFin, ack) => gotFin ==> c.state.Receiving()
       case Write(s) => c.state.Writable() && s.start == c.lbb && s.len > 0 && !s.flag && s.len <= c.flight.sndBuf
       case Extend(n, _) => c.state.Writable() && c.flight.unsent != [] && n <= c.flight.sndBuf
       case Close(_) => true
       case Output => c.flight.unsent != []
       case Resend => true
  }

  // ----- The invariant -----

  /** Segments that are not empty, each of which starts where the one before ends, up to `top`. */
  ghost predicate Touching(q: seq<Sent>, top: int) {
    forall i :: 0 <= i < |q| ==> TcpLen(q[i]) > 0 && End(q[i]) == StartAfter(q, i, top)
  }

  /** Where the segment after `q[i]` starts. */
  function StartAfter(q: seq<Sent>, i: nat, top: int): int { if i + 1 < |q| then q[i + 1].start else top }

  /** All that is queued, in order. */
  function Queued(f: Flight): seq<Sent> { f.unacked + f.unsent }

  /** The queues hold what is not acknowledged, without gaps up to `lbb`. */
  ghost predicate Queues(f: Flight, lbb: int, buf: nat) {
    && Inv(f, buf) && InOrder(f) && f.nxt <= lbb && Touching(Queued(f), lbb)
    && (f.lastack == lbb || Queued(f) != [])
  }

  /** The state that a connection with this history is in: figure 6 of RFC 793 read backwards. */
  function Meaning(finQueued: bool, finAcked: bool, gotFin: bool, passive: bool): TcpState {
    if !finQueued then (if gotFin then CLOSE_WAIT else ESTABLISHED)
    else if passive then LAST_ACK
    else if gotFin then (if finAcked then TIME_WAIT else CLOSING)
    else if finAcked then FIN_WAIT_2 else FIN_WAIT_1
  }

  /** Our FIN, the last thing queued, was acknowledged. */
  predicate OurFinAcked(c: Conn) { c.finQueued && c.flight.lastack == c.lbb }

  /** The first segment starts at or before what is acknowledged up to `low`, and only our FIN, at the very end, carries
      a flag. */
  ghost predicate Compact(q: seq<Sent>, low: int, fin: bool, top: int) {
    (q != [] ==> q[0].start <= low) && forall i :: 0 <= i < |q| && q[i].flag ==> fin && End(q[i]) == top
  }

  ghost predicate ConnInv(c: Conn, buf: nat) {
    && Queues(c.flight, c.lbb, buf) && Compact(Queued(c.flight), c.flight.lastack, c.finQueued, c.lbb)
    && c.state == Meaning(c.finQueued, OurFinAcked(c), c.gotFin, c.passive)
    && (c.passive ==> c.gotFin && c.finQueued)
    && (c.closed <==> c.passive && OurFinAcked(c))
  }

  // ----- Steps -----

  /** When all is acknowledged nothing is queued. */
  lemma AckedMeansEmpty(f: Flight, lbb: int, buf: nat)
    requires Queues(f, lbb, buf) && f.lastack == lbb
    ensures f.unacked == [] && f.unsent == [] && f.nxt == lbb
  {
    var q := Queued(f);
    assert |q| == 0 by {
      if |q| > 0 {
        AscendingAt(q, f.lastack, |q| - 1);
      }
    }
  }

  /** An acknowledgement takes segments off the front of the two queues together. */
  lemma AckDropsFront(f: Flight, lbb: int, buf: nat, ack: int) returns (k: nat)
    requires Queues(f, lbb, buf)
    ensures var q, g := Queued(f), Acknowledge(f, ack);
            k <= |q| && Queued(g) == q[k..] && forall i :: 0 <= i < k ==> AcksNew(f, ack) && End(q[i]) <= ack
  {
    hide Acknowledge, DropAcked, Touching, DataBytes, Pbufs;
    var q, a, b := Queued(f), f.unacked, f.unsent;
    var n, j := AcknowledgeExact(f, buf, ack);
    if n == |a| {
      k := n + j;
      assert a[n..] + b[j..] == q[k..];
    } else {
      k := n;
      AscendingCat(a[n..], b, 0);
      if j > 0 {
        LaterEnds(a, b, f.lastack, n);
      }
      assert a[n..] + b == q[k..];
    }
  }

  lemma LaterEnds(a: seq<Sent>, b: seq<Sent>, low: int, n: nat)
    requires Ascending(a + b, low) && n < |a| && b != []
    ensures End(a[n]) < End(b[0])
  {
    AscendingCat(a[..n + 1], a[n + 1..] + b, low);
    assert a[..n + 1] + (a[n + 1..] + b) == a + b;
    AscendingAt(a[n + 1..] + b, End(a[n]), |a| - n - 1);
  }

  /** What is left of touching segments touches. */
  lemma DropTouching(q: seq<Sent>, top: int, k: nat)
    requires Touching(q, top) && k <= |q|
    ensures Touching(q[k..], top)
    ensures 0 < k < |q| ==> q[k].start == End(q[k - 1])
    ensures q != [] ==> End(q[|q| - 1]) == top
  {
    forall i | 0 <= i < |q[k..]| ensures StartAfter(q[k..], i, top) == StartAfter(q, i + k, top) {}
  }

  lemma AckKeepsQueues(f: Flight, lbb: int, buf: nat, ack: int)
    requires Queues(f, lbb, buf)
    ensures Queues(Acknowledge(f, ack), lbb, buf)
  {
    hide Acknowledge, Ascending, Touching, Queued, Pbufs, DataBytes;
    var q := Queued(f);
    var _, _ := AcknowledgeExact(f, buf, ack);
    AcknowledgeInOrder(f, buf, ack);
    var k := AckDropsFront(f, lbb, buf, ack);
    DropTouching(q, lbb, k);
  }

  /** The test of tcp_process holds if and only if the acknowledgement reaches the end of everything queued. */
  lemma FinAckedIff(f: Flight, lbb: int, buf: nat, ack: int)
    requires Queues(f, lbb, buf) && f.lastack < lbb
    ensures FinAcked(Acknowledge(f, ack), Some(ack)) <==> Acknowledge(f, ack).lastack == lbb
  {
    var g := Acknowledge(f, ack);
    var k, j := AcknowledgeExact(f, buf, ack);
    AckKeepsQueues(f, lbb, buf, ack);
    if g.lastack == lbb {
      AckedMeansEmpty(g, lbb, buf);
    }
    if ack == g.nxt && g.unsent == [] {
      NothingUnacked(f, buf);
    }
  }

  lemma NothingUnacked(f: Flight, buf: nat)
    requires Inv(f, buf)
    ensures Acknowledge(f, f.nxt).unacked == []
  {
    var g := Acknowledge(f, f.nxt);
    var k, j := AcknowledgeExact(f, buf, f.nxt);
    if f.unacked != [] {
      assert f.unacked[|f.unacked| - 1] in f.unacked;
      AscendingAt(f.unacked, f.lastack, |f.unacked| - 1);
    }
  }

  lemma AckResult(f: Flight, lbb: int, buf: nat, ack: int)
    requires Queues(f, lbb, buf)
    ensures var g := Acknowledge(f, ack);
            && Queues(g, lbb, buf) && f.lastack <= g.lastack <= lbb
            && (f.lastack < lbb ==> (FinAcked(g, Some(ack)) <==> g.lastack == lbb))
  {
    hide Ascending, DropAcked, Touching;
    AckKeepsQueues(f, lbb, buf, ack);
    var k, j := AcknowledgeExact(f, buf, ack);
    if f.lastack < lbb {
      FinAckedIff(f, lbb, buf, ack);
    }
  }

  lemma AckKeepsCompact(f: Flight, lbb: int, buf: nat, ack: int, fin: bool)
    requires Queues(f, lbb, buf) && Compact(Queued(f), f.lastack, fin, lbb)
    ensures var g := Acknowledge(f, ack); Compact(Queued(g), g.lastack, fin, lbb)
  {
    hide Acknowledge, Ascending, Touching, Queued, Pbufs, DataBytes;
    var q := Queued(f);
    var _, _ := AcknowledgeExact(f, buf, ack);
    var k := AckDropsFront(f, lbb, buf, ack);
    DropTouching(q, lbb, k);
    assert k == 0 ==> q[0..] == q;
  }

  lemma SegmentKeepsInv(c: Conn, buf: nat, gotFin: bool, ack: Option<int>)
    requires ConnInv(c, buf) && Legal(c, Segment(gotFin, ack))
    ensures ConnInv(Step(c, Segment(gotFin, ack)), buf)
  {
    assert c.flight.lastack <= c.lbb;
    hide Queues, Acknowledge, Compact, Queued, Meaning, StateAfter, FinAcked;
    var c' := Step(c, Segment(gotFin, ack));
    if ack.Some? {
      AckResult(c.flight, c.lbb, buf, ack.value);
      AckKeepsCompact(c.flight, c.lbb, buf, ack.value, c.finQueued);
    }
    var acked := FinAcked(c'.flight, ack);
    NoAck(c'.flight);
    assert c.finQueued && !OurFinAcked(c) ==> (acked <==> OurFinAcked(c'));
    SegmentMeaning(c.finQueued, OurFinAcked(c), c.gotFin, c.passive, gotFin, acked);
  }

  lemma NoAck(f: Flight)
    ensures !FinAcked(f, None)
  {
  }

  /** The states of tcp_process follow what has happened. */
  lemma SegmentMeaning(finQueued: bool, finAcked: bool, hadFin: bool, passive: bool, gotFin: bool, acked: bool)
    requires (finAcked ==> finQueued) && (passive ==> finQueued && hadFin && !finAcked)
    requires gotFin ==> Meaning(finQueued, finAcked, hadFin, passive).Receiving()
    ensures var s := Meaning(finQueued, finAcked, hadFin, passive);
            && StateAfter(s, gotFin, acked) == Meaning(finQueued, finQueued && (finAcked || acked), hadFin || gotFin, passive)
            && (s == LAST_ACK <==> passive)
  {
  }

  lemma WriteKeepsInv(c: Conn, buf: nat, s: Sent)
    requires ConnInv(c, buf) && Legal(c, Write(s))
    ensures ConnInv(Step(c, Write(s)), buf)
  {
    hide Pbufs, DataBytes, Compact;
    var q := Queued(c.flight);
    AppendTop(q, c.flight.lastack, c.lbb, s);
    AppendCompact(q, c.flight.lastack, c.lbb, s);
    QueueKeepsInv(c.flight, buf, s);
    var g := Step(c, Write(s)).flight;
    assert Queued(g) == q + [s];
  }

  lemma AppendCompact(q: seq<Sent>, low: int, top: int, s: Sent)
    requires Compact(q, low, false, top) && (q == [] ==> low == top) && s.start == top
    ensures Compact(q + [s], low, s.flag, End(s))
  {
  }

  lemma AppendTop(q: seq<Sent>, low: int, top: int, s: Sent)
    requires Ascending(q, low) && Touching(q, top) && low <= top == s.start && TcpLen(s) > 0
    ensures Ascending(q + [s], low) && Touching(q + [s], End(s))
  {
    AscendingCat(q, [s], low);
    assert [s][1..] == [];
  }

  lemma OutputKeepsInv(c: Conn, buf: nat)
    requires ConnInv(c, buf) && c.flight.unsent != []
    ensures ConnInv(Step(c, Output), buf)
  {
    hide Compact, Touching, Ascending, Pbufs, DataBytes;
    var f, g := c.flight, Step(c, Output).flight;
    TransmitKeepsInv(f, buf);
    var q := Queued(f);
    assert Queued(g) == q;
    assert q[|f.unacked|] == f.unsent[0];
    EndsBelow(q, c.lbb, |f.unacked|);
  }

  lemma {:induction false} EndsBelow(q: seq<Sent>, top: int, i: nat)
    requires Touching(q, top) && i < |q|
    ensures End(q[i]) <= top
    decreases |q| - i
  {
    if i + 1 < |q| {
      EndsBelow(q, top, i + 1);
    }
  }

  lemma ResendKeepsInv(c: Conn, buf: nat)
    requires ConnInv(c, buf)
    ensures ConnInv(Step(c, Resend), buf)
  {
    hide Compact, Touching, Ascending, Pbufs, DataBytes;
    var f, g := c.flight, Step(c, Resend).flight;
    RequeueKeepsInv(f, buf);
    assert Queued(g) == Queued(f);
  }

  /** Putting bytes or FIN on the last segment moves its end and nothing else. */
  lemma {:induction false} ReplaceLast(q: seq<Sent>, low: int, t: Sent)
    requires q != [] && Ascending(q, low) && End(t) >= End(q[|q| - 1])
    ensures var q' := q[|q| - 1 := t];
            && Ascending(q', low) && DataBytes(q') + q[|q| - 1].len == DataBytes(q) + t.len
            && Pbufs(q') + q[|q| - 1].pbufs == Pbufs(q) + t.pbufs
    decreases |q|
  {
    var q' := q[|q| - 1 := t];
    if |q| == 1 {
      assert q[1..] == [] && q'[1..] == [];
    } else {
      assert q'[0] == q[0] && q'[1..] == q[1..][|q| - 2 := t];
      ReplaceLast(q[1..], End(q[0]), t);
    }
  }

  lemma LongerTouching(q: seq<Sent>, top: int, t: Sent, low: int)
    requires q != [] && Touching(q, top) && t.start == q[|q| - 1].start && End(t) >= End(q[|q| - 1])
    ensures var q', top' := q[|q| - 1 := t], top + End(t) - End(q[|q| - 1]);
            && Touching(q', top') && End(t) == top'
            && (Compact(q, low, false, top) ==> Compact(q', low, t.flag, top'))
  {
    var q', top' := q[|q| - 1 := t], top + End(t) - End(q[|q| - 1]);
    forall i | 0 <= i < |q'|
      ensures TcpLen(q'[i]) > 0 && End(q'[i]) == StartAfter(q', i, top')
    {
      assert End(q[i]) == StartAfter(q, i, top);
    }
  }

  /** The last unsent segment replaced by one that is longer by bytes or by a flag. */
  lemma LongerLast(f: Flight, lbb: int, buf: nat, t: Sent, g: Flight)
    requires Queues(f, lbb, buf) && f.unsent != []
    requires var last := f.unsent[|f.unsent| - 1];
             && t.start == last.start && End(t) >= End(last) && last.len <= t.len <= last.len + f.sndBuf
             && t.pbufs >= last.pbufs
             && g == f.(unsent := f.unsent[|f.unsent| - 1 := t], sndBuf := f.sndBuf + last.len - t.len,
                        queueLen := f.queueLen + t.pbufs - last.pbufs)
    ensures Queues(g, lbb + End(t) - End(f.unsent[|f.unsent| - 1]), buf)
    ensures Compact(Queued(f), f.lastack, false, lbb) ==>
              Compact(Queued(g), f.lastack, t.flag, lbb + End(t) - End(f.unsent[|f.unsent| - 1]))
  {
    hide Pbufs, DataBytes, Ascending, Touching, Compact, TcpLen;
    var q := Queued(f);
    LastQueued(f);
    ReplaceLast(q, f.lastack, t);
    ReplaceLast(f.unsent, f.lastack, t);
    LongerTouching(q, lbb, t, f.lastack);
    assert Queued(g) == q[|q| - 1 := t];
  }

  lemma LastQueued(f: Flight)
    requires f.unsent != []
    ensures var q := Queued(f); q != [] && q[|q| - 1] == f.unsent[|f.unsent| - 1]
  {
  }

  lemma FlagKeepsQueues(f: Flight, lbb: int, buf: nat)
    requires Queues(f, lbb, buf) && f.unsent != [] && !f.unsent[|f.unsent| - 1].flag
    ensures var g := SendFin(f, lbb);
            && Queues(g, lbb + 1, buf)
            && (Compact(Queued(f), f.lastack, false, lbb) ==>
                  Compact(Queued(g), f.lastack, true, lbb + 1))
  {
    hide Queues, Compact;
    LongerLast(f, lbb, buf, f.unsent[|f.unsent| - 1].(flag := true), SendFin(f, lbb));
  }

  lemma ExtendKeepsInv(c: Conn, buf: nat, n: nat, pbufs: nat)
    requires ConnInv(c, buf) && Legal(c, Extend(n, pbufs))
    ensures ConnInv(Step(c, Extend(n, pbufs)), buf)
  {
    hide Queues, Compact, Queued, Meaning, TcpLen;
    AckedBelow(c.flight, c.lbb, buf);
    LastUnflagged(c, buf);
    BeforeClose(c, buf);
    var last := c.flight.unsent[|c.flight.unsent| - 1];
    var t := last.(len := last.len + n, pbufs := last.pbufs + pbufs);
    LongerBy(last, n, pbufs);
    LongerLast(c.flight, c.lbb, buf, t, ExtendLast(c.flight, n, pbufs));
  }

  lemma LongerBy(s: Sent, n: nat, pbufs: nat)
    ensures End(s.(len := s.len + n, pbufs := s.pbufs + pbufs)) == End(s) + n
  {
  }

  lemma AckedBelow(f: Flight, lbb: int, buf: nat)
    requires Queues(f, lbb, buf)
    ensures f.lastack <= lbb
  {
  }

  lemma BeforeClose(c: Conn, buf: nat)
    requires ConnInv(c, buf)
    ensures c.state.Writable() <==> !c.finQueued
  {
  }

  /** Before tcp_close no segment carries a flag. */
  lemma LastUnflagged(c: Conn, buf: nat)
    requires ConnInv(c, buf) && c.state.Writable() && c.flight.unsent != []
    ensures !c.flight.unsent[|c.flight.unsent| - 1].flag
  {
    var q := Queued(c.flight);
    assert q[|q| - 1] == c.flight.unsent[|c.flight.unsent| - 1];
  }

  lemma AppendFinKeepsQueues(f: Flight, lbb: int, buf: nat)
    requires Queues(f, lbb, buf)
    ensures var s := Sent(lbb, 0, true, 1);
            var g := f.(unsent := f.unsent + [s], queueLen := f.queueLen + 1);
            && Queues(g, lbb + 1, buf)
            && (Compact(Queued(f), f.lastack, false, lbb) ==>
                  Compact(Queued(g), f.lastack, true, lbb + 1))
  {
    hide Pbufs, DataBytes, DropAcked, Compact, Touching, Ascending;
    var s := Sent(lbb, 0, true, 1);
    var q := Queued(f);
    CountsOne(s);
    AppendTop(q, f.lastack, lbb, s);
    assert q + [s] == f.unacked + (f.unsent + [s]);
    OrderedQueues(f.unacked, f.unsent + [s], f.lastack);
    CountsCat(f.unsent, [s]);
    if Compact(q, f.lastack, false, lbb) {
      AppendCompact(q, f.lastack, lbb, s);
    }
  }

  lemma CountsOne(s: Sent)
    ensures Pbufs([s]) == s.pbufs && DataBytes([s]) == s.len
  {
    assert [s][1..] == [];
  }

  lemma SendFinKeepsQueues(f: Flight, lbb: int, buf: nat)
    requires Queues(f, lbb, buf)
    ensures var g := SendFin(f, lbb);
            && Queues(g, lbb + 1, buf) && g.lastack <= lbb
            && (Compact(Queued(f), f.lastack, false, lbb) ==>
                  Compact(Queued(g), f.lastack, true, lbb + 1))
  {
    assert f.lastack <= lbb;
    hide Queues, Compact;
    if f.unsent != [] && !f.unsent[|f.unsent| - 1].flag {
      FlagKeepsQueues(f, lbb, buf);
    } else {
      AppendFinKeepsQueues(f, lbb, buf);
    }
  }

  lemma CloseKeepsInv(c: Conn, buf: nat, alloc: bool)
    requires ConnInv(c, buf) && !c.closed
    ensures ConnInv(Step(c, Close(alloc)), buf)
  {
    hide Queues, Compact;
    SendFinKeepsQueues(c.flight, c.lbb, buf);
  }

  /** Every move keeps the queues accounted for and the state in step with what has happened. */
  lemma StepKeepsInv(c: Conn, buf: nat, m: Move)
    requires ConnInv(c, buf) && Legal(c, m)
    ensures ConnInv(Step(c, m), buf)
  {
    match m
    case Segment(gotFin, ack) => SegmentKeepsInv(c, buf, gotFin, ack);
    case Write(s) => WriteKeepsInv(c, buf, s);
    case Extend(n, pbufs) => ExtendKeepsInv(c, buf, n, pbufs);
    case Close(alloc) => CloseKeepsInv(c, buf, alloc);
    case Output => OutputKeepsInv(c, buf);
    case Resend => ResendKeepsInv(c, buf);
  }

  // ----- What the states mean -----

  /** In FIN_WAIT_2 and TIME_WAIT, and when LAST_ACK ends, nothing is outstanding and our FIN was acknowledged. */
  lemma NothingOutstanding(c: Conn, buf: nat)
    requires ConnInv(c, buf) && (c.state == FIN_WAIT_2 || c.state == TIME_WAIT || c.closed)
    ensures OurFinAcked(c) && c.flight.unacked == [] && c.flight.unsent == []
    ensures c.flight.lastack == c.flight.nxt == c.lbb
  {
    AckedMeansEmpty(c.flight, c.lbb, buf);
  }

  /** What is outstanding fits the send buffer, but for a FIN: sequence numbers stay close together. */
  lemma OutstandingFits(c: Conn, buf: nat)
    requires ConnInv(c, buf)
    ensures 0 <= c.lbb - c.flight.lastack <= buf + 1
  {
    var q := Queued(c.flight);
    if q != [] {
      Span(q, c.lbb);
      CountsCat(c.flight.unacked, c.flight.unsent);
    }
  }

  lemma {:induction false} Span(q: seq<Sent>, top: int)
    requires q != [] && Touching(q, top) && (forall i :: 0 <= i < |q| && q[i].flag ==> End(q[i]) == top)
    ensures top - q[0].start <= DataBytes(q) + 1
    decreases |q|
  {
    if |q| == 1 {
      assert q[1..] == [];
    } else {
      forall i | 0 <= i < |q[1..]| ensures StartAfter(q[1..], i, top) == StartAfter(q, i + 1, top) {}
      EndsBelow(q, top, 1);
      Span(q[1..], top);
    }
  }

  /** TIME_WAIT, or the end of LAST_ACK, means that both sides have closed and ours was acknowledged, and the other way
      round. */
  lemma BothClosed(c: Conn, buf: nat)
    requires ConnInv(c, buf)
    ensures c.state == TIME_WAIT || c.closed <==> c.gotFin && OurFinAcked(c)
    ensures c.state.PeerClosed() <==> c.gotFin
    ensures c.state.Receiving() <==> !c.gotFin
  {
  }

  /** How far a connection has got. */
  function Rank(s: TcpState): nat {
    match s
    case ESTABLISHED => 0
    case FIN_WAIT_1 => 1
    case CLOSE_WAIT => 1
    case FIN_WAIT_2 => 2
    case CLOSING => 2
    case LAST_ACK => 2
    case TIME_WAIT => 3
    case _ => 0
  }

  /** A move leaves the state alone or takes it further. */
  lemma NeverBack(c: Conn, buf: nat, m: Move)
    requires ConnInv(c, buf) && Legal(c, m)
    ensures Step(c, m).state == c.state || Rank(c.state) < Rank(Step(c, m).state)
  {
  }

  function Run(c: Conn, ms: seq<Move>): Conn
    decreases |ms|
  {
    if ms == [] then c else Run(Step(c, ms[0]), ms[1..])
  }

  ghost predicate LegalRun(c: Conn, ms: seq<Move>)
    decreases |ms|
  {
    ms != [] ==> Legal(c, ms[0]) && LegalRun(Step(c, ms[0]), ms[1..])
  }

  function Established(iss: int, buf: nat): Conn {
    Conn(ESTABLISHED, Flight(iss, iss, [], [], buf, 0), iss, false, false, false, false)
  }

  /** Over every run from an established connection the state says what has happened, and is never left backwards. */
  lemma {:induction false} RunKeepsInv(c: Conn, buf: nat, ms: seq<Move>)
    requires ConnInv(c, buf) && LegalRun(c, ms)
    ensures ConnInv(Run(c, ms), buf)
    ensures Run(c, ms).state == c.state || Rank(c.state) < Rank(Run(c, ms).state)
    decreases |ms|
  {
    if ms != [] {
      StepKeepsInv(c, buf, ms[0]);
      NeverBack(c, buf, ms[0]);
      RunKeepsInv(Step(c, ms[0]), buf, ms[1..]);
    }
  }

  lemma EstablishedInv(iss: int, buf: nat)
    ensures ConnInv(Established(iss, buf), buf)
  {
    var none: seq<Sent> := [];
    assert none + none == none;
  }

  // ----- Closing comes to an end -----

  /** `n` segments sent one after the other. */
  function Outputs(n: nat): seq<Move> { if n == 0 then [] else Outputs(n - 1) + [Output] }

  lemma {:induction false} RunSnoc(c: Conn, ms: seq<Move>, m: Move)
    ensures Run(c, ms + [m]) == Step(Run(c, ms), m)
    decreases |ms|
  {
    if ms == [] {
      assert ms + [m] == [m] && [m][1..] == [];
    } else {
      assert (ms + [m])[1..] == ms[1..] + [m];
      RunSnoc(Step(c, ms[0]), ms[1..], m);
    }
  }

  lemma NoOutputs(c: Conn)
    ensures Run(c, Outputs(0)) == c
  {
  }

  lemma OneMore(c: Conn, n: nat)
    ensures Run(c, Outputs(n + 1)) == Step(Run(c, Outputs(n)), Output)
  {
    RunSnoc(c, Outputs(n), Output);
  }

  /** Sending all that is unsent. */
  lemma {:induction false} SendAll(c: Conn, buf: nat, n: nat)
    requires ConnInv(c, buf) && n <= |c.flight.unsent|
    ensures var d := Run(c, Outputs(n));
            && ConnInv(d, buf) && d.flight.unsent == c.flight.unsent[n..] && d.flight.lastack == c.flight.lastack
            && d == c.(flight := d.flight)
            && (n > 0 ==> d.flight.nxt >= End(c.flight.unsent[n - 1]))
    decreases n
  {
    hide ConnInv, Run, Outputs;
    if n == 0 {
      NoOutputs(c);
    } else {
      SendAll(c, buf, n - 1);
      OneMore(c, n - 1);
      OutputKeepsInv(Run(c, Outputs(n - 1)), buf);
    }
  }

  /** After a retransmission time-out, sending `n` segments sends exactly the first `n` of all that is queued: what was
      outstanding goes out again, in order, before anything else, and `snd_nxt` does not go back. */
  lemma ResendSendsAgain(c: Conn, buf: nat, n: nat)
    requires ConnInv(c, buf) && n <= |Queued(c.flight)|
    ensures var d := Run(Step(c, Resend), Outputs(n));
            && ConnInv(d, buf) && d == c.(flight := d.flight) && d.flight.lastack == c.flight.lastack
            && d.flight.unacked == Queued(c.flight)[..n] && d.flight.unsent == Queued(c.flight)[n..]
            && d.flight.nxt >= c.flight.nxt
            && (n <= |c.flight.unacked| ==> d.flight.nxt == c.flight.nxt)
    ensures Queued(c.flight)[..|c.flight.unacked|] == c.flight.unacked
  {
    hide ConnInv;
    ResendKeepsInv(c, buf);
    var c1 := Step(c, Resend);
    SendAll(c1, buf, n);
    SentInOrder(c1, n);
    assert [] + Queued(c.flight)[..n] == Queued(c.flight)[..n];
    forall i | 0 <= i < n && n <= |c.flight.unacked| ensures End(c1.flight.unsent[i]) <= c.flight.nxt {
      SentBefore(c, buf, i);
    }
    SentAgain(c1, n);
  }

  lemma SentBefore(c: Conn, buf: nat, i: nat)
    requires ConnInv(c, buf) && i < |c.flight.unacked|
    ensures Queued(c.flight)[i] == c.flight.unacked[i] && End(c.flight.unacked[i]) <= c.flight.nxt
  {
    assert c.flight.unacked[i] in c.flight.unacked;
  }

  /** What is sent moves from the one queue to the other in order, and `snd_nxt` does not go back. */
  lemma {:induction false} SentInOrder(c: Conn, n: nat)
    requires n <= |c.flight.unsent|
    ensures var f := Run(c, Outputs(n)).flight;
            && f.unacked == c.flight.unacked + c.flight.unsent[..n] && f.unsent == c.flight.unsent[n..]
            && f.nxt >= c.flight.nxt
    decreases n
  {
    hide Run, Outputs;
    if n == 0 {
      NoOutputs(c);
    } else {
      SentInOrder(c, n - 1);
      OneMore(c, n - 1);
      assert c.flight.unsent[..n - 1] + [c.flight.unsent[n - 1]] == c.flight.unsent[..n];
    }
  }

  /** Sending what was sent before leaves `snd_nxt` alone. */
  lemma {:induction false} SentAgain(c: Conn, n: nat)
    requires n <= |c.flight.unsent|
    ensures (forall i :: 0 <= i < n ==> End(c.flight.unsent[i]) <= c.flight.nxt) ==>
              Run(c, Outputs(n)).flight.nxt == c.flight.nxt
    decreases n
  {
    hide Run, Outputs;
    if n == 0 {
      NoOutputs(c);
    } else {
      SentAgain(c, n - 1);
      OneMore(c, n - 1);
      SentInOrder(c, n - 1);
    }
  }

  /** From every state in which tcp_close queues our FIN, sending what is queued and an acknowledgement of it all bring the
      connection to FIN_WAIT_2, or to the end of LAST_ACK. */
  lemma CloseCompletes(c: Conn, buf: nat)
    requires ConnInv(c, buf) && !c.closed && c.state.Writable()
    ensures var c1 := Step(c, Close(true));
            var c2 := Run(c1, Outputs(|c1.flight.unsent|));
            var c3 := Step(c2, Segment(false, Some(c1.lbb)));
            if c.gotFin then c3.closed else c3.state == FIN_WAIT_2
  {
    hide Run, Outputs, Queues, Compact, Queued;
    var c1 := Step(c, Close(true));
    CloseKeepsInv(c, buf, true);
    BeforeClose(c, buf);
    AckedBelow(c.flight, c.lbb, buf);
    var n := |c1.flight.unsent|;
    SendAll(c1, buf, n);
    var c2 := Run(c1, Outputs(n));
    LastEnd(c1.flight, c1.lbb, buf);
    NextBelow(c2.flight, c2.lbb, buf);
    AckOfAll(c2.flight, c2.lbb, buf);
  }

  lemma NextBelow(f: Flight, lbb: int, buf: nat)
    requires Queues(f, lbb, buf)
    ensures f.nxt <= lbb
  {
  }

  /** The last segment ends at `lbb`. */
  lemma LastEnd(f: Flight, lbb: int, buf: nat)
    requires Queues(f, lbb, buf) && f.unsent != []
    ensures End(f.unsent[|f.unsent| - 1]) == lbb
  {
    LastQueued(f);
    DropTouching(Queued(f), lbb, 0);
  }

  lemma AckOfAll(f: Flight, lbb: int, buf: nat)
    requires Queues(f, lbb, buf) && f.nxt == lbb && f.lastack < lbb
    ensures FinAcked(Acknowledge(f, lbb), Some(lbb))
  {
    var _, _ := AcknowledgeExact(f, buf, lbb);
    FinAckedIff(f, lbb, buf, lbb);
  }
}
