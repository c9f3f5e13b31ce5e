/** The receiving half of a TCP protocol control block.

    `Pcb` keeps the fields of `struct tcp_pcb` that `tcp_receive`,
    `tcp_update_rcv_ann_wnd`, `tcp_recved` and the close states of
    `tcp_process` update, and runs them on 32-bit sequence numbers.
 */
module TcpPcb {
  import opened Common
  import opened Words
  import opened TcpReassembly
  import opened TcpReceive
  import opened TcpStates
  import TcpWindow

  const REACH: int := 0x7ffc_0000

  class Pcb {
    var state: TcpState
    var rcvNxt: u32
    var rcvWnd: u16
    var rcvAnnWnd: u16
    var rcvAnnRightEdge: u32
    var ooseq: seq<TcpSeg>
    const mss: u16
    const tcpWnd: u16
    var recvData: seq<byte>          // recv_data: text to hand to the application
    var recvFin: bool                // recv_flags & TF_GOT_FIN

    ghost const base: int            // sequence number of position 0
    ghost const stream: seq<byte>    // what the peer sends
    ghost var abs: Rcv               // the receiver on unbounded positions
    ghost var annEdge: int           // position of rcvAnnRightEdge
    ghost var earlier: seq<byte>     // text handed over before this call
    ghost var uncredited: int        // sequence numbers delivered and not yet credited to the window
    ghost var finDue: bool           // the FIN is one of them

    /** The fields are the 32-bit image of `abs` and `annEdge`. */
    ghost predicate Fields()
      reads this
    {
      && rcvNxt == Wrap(base + abs.next)
      && rcvWnd == abs.wnd
      && rcvAnnRightEdge == Wrap(base + annEdge)
      && RepresentsAll(ooseq, abs.ooseq, base)
      && abs.delivered == earlier + recvData
      && (recvFin ==> abs.gotFin)
    }

    ghost predicate Valid()
      reads this
    {
      && Fields()
      && Settled(abs, stream)
      && (state.Receiving() || state.PeerClosed())
      && (abs.gotFin <==> state.PeerClosed())
    }

    /** The announced edge is close enough to `n0` for 32-bit comparison. */
    ghost predicate EdgeNear(n0: int)
      reads this
    {
      -REACH < n0 - annEdge < REACH
    }

    ghost predicate Announced()
      reads this
    {
      rcvAnnWnd == TcpWindow.AnnounceWindow(abs.next, rcvWnd, annEdge, mss, tcpWnd)
    }

    /** The receiver with its window fields, as `TcpWindow` follows it. */
    ghost function Flow(): TcpWindow.Flow
      reads this
    {
      TcpWindow.Flow(abs, rcvAnnWnd, annEdge, uncredited, finDue)
    }

    ghost predicate WindowSound()
      reads this
    {
      TcpWindow.Sound(Flow(), tcpWnd)
    }

    /** The state inside a call that started at position `n0`. */
    ghost predicate Delivering(n0: int)
      reads this
    {
      Fields() && Live(abs, n0, stream) && EdgeNear(n0) && Announced()
    }

    /** A segment of the connection, as `inseg` and the globals describe it. */
    ghost predicate Arriving(inseg: TcpSeg, s: Seg)
      reads this
    {
      && Represents(inseg, s, base) && FromStream(s, stream)
      && |s.data| < MAXSEG && -0x7ffe_0000 < s.start - abs.next < 0x7ffe_0000
    }

    /** tcp_alloc and the SYN of a new connection, once established. */
    constructor (synSeqno: u32, mss: u16, tcpWnd: u16, ghost stream: seq<byte>)
      ensures Valid() && Flow() == TcpWindow.Opened(tcpWnd) && WindowSound() && state == ESTABLISHED
      ensures base == synSeqno + 1 && this.stream == stream
      ensures this.mss == mss && this.tcpWnd == tcpWnd
    {
      state := ESTABLISHED;
      rcvNxt := Add32(synSeqno, 1);
      rcvAnnRightEdge := Add32(synSeqno, 1);
      rcvWnd, rcvAnnWnd := tcpWnd, tcpWnd;
      ooseq, recvData, recvFin := [], [], false;
      this.mss, this.tcpWnd := mss, tcpWnd;
      base, this.stream, abs, annEdge, earlier := synSeqno + 1, stream, Opened(tcpWnd), 0, [];
      uncredited, finDue := 0, false;
    }

    /** tcp_update_rcv_ann_wnd; returns how far the announced edge could move. */
    method UpdateRcvAnnWnd() returns (inflation: u32)
      requires Fields() && -REACH - 2 * SPAN < abs.next - annEdge < REACH + 2 * SPAN
      modifies this`rcvAnnWnd
      ensures Announced() && (inflation > 0 ==> rcvAnnWnd == rcvWnd)
      ensures annEdge <= abs.next + rcvWnd ==>
                && rcvAnnWnd <= rcvWnd && annEdge <= abs.next + rcvAnnWnd
                && TcpWindow.Worthwhile(annEdge, abs.next + rcvAnnWnd, abs.next, mss, tcpWnd)
                && (abs.next + rcvWnd >= annEdge + Min(tcpWnd / 2, mss) ==> rcvAnnWnd == rcvWnd)
      ensures inflation == if abs.next + rcvWnd >= annEdge + Min(tcpWnd / 2, mss) then abs.next + rcvWnd - annEdge else 0
    {
      if annEdge <= abs.next + rcvWnd {
        TcpWindow.AnnounceKeepsEdge(abs.next, rcvWnd, annEdge, mss, tcpWnd);
        TcpWindow.AnnounceThrifty(abs.next, rcvWnd, annEdge, mss, tcpWnd);
      }
      var newRightEdge := AddTo(rcvNxt, rcvWnd, abs.next, base);
      var threshold := AddTo(rcvAnnRightEdge, Min(tcpWnd / 2, mss), annEdge, base);
      var farther := AtOrAfter(newRightEdge, threshold, abs.next + rcvWnd, annEdge + Min(tcpWnd / 2, mss), base);
      if farther {
        rcvAnnWnd := rcvWnd;
        inflation := Distance(newRightEdge, rcvAnnRightEdge, abs.next + rcvWnd, annEdge, base);
      } else {
        inflation := 0;
        var inside := AtOrAfter(rcvAnnRightEdge, rcvNxt, annEdge, abs.next, base);
        if inside {
          var room := Distance(rcvAnnRightEdge, rcvNxt, annEdge, abs.next, base);
          rcvAnnWnd := Wrap16(room);
        } else {
          rcvAnnWnd := 0;
        }
      }
    }

    /** Account for one in-sequence segment and chain its text to `recv_data`. */
    method AdvanceOver(c: TcpSeg, ghost t: Seg, ghost n0: int)
      requires Fields() && Represents(c, t, base) && t.start == abs.next
      requires EdgeNear(n0) && n0 <= t.TcpEnd() <= n0 + 2 * SPAN
      modifies this`rcvNxt, this`rcvWnd, this`rcvAnnWnd, this`recvData, this`recvFin, this`abs
      ensures Fields() && abs == Advance(old(abs), t) && Announced()
      ensures recvFin <==> old(recvFin) || c.fin
    {
      rcvNxt := AddTo(rcvNxt, TcpLen(c), abs.next, base);
      rcvWnd := Wrap16(rcvWnd - TcpLen(c));
      recvData := recvData + c.p;
      recvFin := recvFin || c.fin;
      abs := Advance(abs, t);
      var _ := UpdateRcvAnnWnd();
    }

    // ----- Delivery -----

    /** Deliver the first queued segment, which is in sequence. */
    method DeliverFirst(ghost n0: int)
      requires Delivering(n0) && ooseq != [] && abs.ooseq[0].start == abs.next
      modifies this`rcvNxt, this`rcvWnd, this`rcvAnnWnd, this`ooseq, this`state, this`recvData, this`recvFin, this`abs
      ensures Delivering(n0) && abs == DeliverHead(old(abs)) && |ooseq| < old(|ooseq|)
      ensures recvFin <==> old(recvFin) || old(abs.ooseq[0].fin)
      ensures state == if old(abs.ooseq[0].fin) && old(state) == ESTABLISHED then CLOSE_WAIT else old(state)
    {
      var cseg := ooseq[0];
      ghost var t, after := abs.ooseq[0], DeliverHead(abs);
      DeliverHeadIsLive(abs, n0, stream);
      AdvanceOver(cseg, t, n0);
      if cseg.fin && state == ESTABLISHED {
        state := CLOSE_WAIT;
      }
      ooseq := ooseq[1..];
      abs := after;
    }

    /** The first queued segment, if any, starts at `rcv_nxt`. */
    method FirstIsDue(ghost n0: int) returns (due: bool)
      requires Delivering(n0)
      ensures due <==> abs.ooseq != [] && abs.ooseq[0].start == abs.next
    {
      due := false;
      if ooseq != [] {
        assert abs.ooseq[0] in abs.ooseq && Short(abs.ooseq[0], n0 + SPAN, MAXSEG);
        due := SameNumber(ooseq[0].seqno, rcvNxt, abs.ooseq[0].start, abs.next, base);
      }
    }

    /** Deliver queued segments for as long as the first one is in sequence. */
    method DrainOoseq(ghost n0: int)
      requires Delivering(n0) && recvFin == abs.gotFin
      modifies this`rcvNxt, this`rcvWnd, this`rcvAnnWnd, this`ooseq, this`state, this`recvData, this`recvFin, this`abs
      ensures Delivering(n0) && recvFin == abs.gotFin && abs == Drain(old(abs))
      ensures state == old(state) || (recvFin && old(state) == ESTABLISHED && state == CLOSE_WAIT)
    {
      var due := FirstIsDue(n0);
      while due
        invariant Delivering(n0) && recvFin == abs.gotFin && Drain(abs) == Drain(old(abs))
        invariant due <==> abs.ooseq != [] && abs.ooseq[0].start == abs.next
        invariant state == old(state) || (recvFin && old(state) == ESTABLISHED && state == CLOSE_WAIT)
        decreases |ooseq|
      {
        DeliverHeadIsLive(abs, n0, stream);
        DeliverFirst(n0);
        due := FirstIsDue(n0);
      }
    }

    /** Trim the in-sequence segment to the window and merge it with the queue. */
    method MergeArrival(inseg: TcpSeg, ghost s: Seg) returns (c: TcpSeg, nx: seq<TcpSeg>)
      requires Fields() && Settled(abs, stream) && Arriving(inseg, s) && s.start == abs.next
      requires Mergeable(ClipToEdge(s, abs.next + abs.wnd), abs.ooseq, stream)
      ensures var (t, q) := Merge(ClipToEdge(s, abs.next + abs.wnd), abs.ooseq);
              Represents(c, t, base) && RepresentsAll(nx, q, base)
    {
      hide Wrap, FromStream, Chain, Absorb, TrimRight, NearAll;
      c, nx := inseg, [];
      if TcpLen(c) > rcvWnd {
        c := Resize(c.(fin := false), rcvWnd);
      }
      assert Represents(c, ClipToEdge(s, abs.next + abs.wnd), base);
      if !c.fin {
        NearQueue(abs.ooseq, abs.next, stream);
        c, nx := AbsorbCovered(c, ooseq, ClipToEdge(s, abs.next + abs.wnd), abs.ooseq, abs.next, base, stream);
      }
    }

    /** Install the merged queue and account for what remains of the segment. */
    method TakeMerged(c: TcpSeg, nx: seq<TcpSeg>, ghost t: Seg, ghost q: seq<Seg>)
      requires Fields() && !recvFin && !abs.gotFin && EdgeNear(abs.next)
      requires Represents(c, t, base) && RepresentsAll(nx, q, base) && t.start == abs.next
      requires Live(Advance(abs.(ooseq := q), t), abs.next, stream)
      modifies this`rcvNxt, this`rcvWnd, this`rcvAnnWnd, this`ooseq, this`recvData, this`recvFin, this`abs
      ensures Delivering(old(abs.next)) && recvFin == abs.gotFin && abs == Advance(old(abs).(ooseq := q), t)
    {
      ghost var n0 := abs.next;
      ooseq := nx;
      abs := abs.(ooseq := q);
      AdvanceOver(c, t, n0);
    }

    /** Take an in-sequence segment and account for it. */
    method TakeSegment(inseg: TcpSeg, ghost s: Seg)
      requires Fields() && !recvFin && Settled(abs, stream) && EdgeNear(abs.next)
      requires Arriving(inseg, s) && InSequenceArrival(abs, s, stream)
      modifies this`rcvNxt, this`rcvWnd, this`rcvAnnWnd, this`ooseq, this`recvData, this`recvFin, this`abs
      ensures Delivering(old(abs.next)) && recvFin == abs.gotFin && abs == Take(old(abs), s)
    {
      hide Merge, Wrap, FromStream;
      TakeIsLive(abs, s, stream);
      var c, nx := MergeArrival(inseg, s);
      ghost var m := Merge(ClipToEdge(s, abs.next + abs.wnd), abs.ooseq);
      TakeMerged(c, nx, m.0, m.1);
    }

    /** The in-sequence branch of tcp_receive. */
    method ReceiveInSequence(inseg: TcpSeg, ghost s: Seg)
      requires Fields() && !recvFin && Settled(abs, stream) && EdgeNear(abs.next)
      requires Arriving(inseg, s) && InSequenceArrival(abs, s, stream)
      modifies this`rcvNxt, this`rcvWnd, this`rcvAnnWnd, this`ooseq, this`state, this`recvData, this`recvFin, this`abs
      ensures Fields() && recvFin == abs.gotFin && Announced() && abs == InSequence(old(abs), s)
      ensures abs.next > old(abs.next)
      ensures state == old(state) || (recvFin && old(state) == ESTABLISHED && state == CLOSE_WAIT)
    {
      InSequenceDelivers(abs, s, stream);
      TakeSegment(inseg, s);
      DrainOoseq(old(abs.next));
    }

    // ----- Which segments are taken -----

    /** Trim the first edge when `rcv_nxt` lies inside the segment. */
    method TrimFirstEdge(inseg: TcpSeg, ghost seg: Seg) returns (c: TcpSeg)
      requires Fields() && Arriving(inseg, seg)
      ensures Represents(c, TrimLeft(seg, abs.next), base)
    {
      c := inseg;
      var first := AddTo(inseg.seqno, 1, seg.start, base);
      var last := AddTo(inseg.seqno, TcpLen(inseg) - 1, seg.start, base);
      var notBelow := AtOrAfter(rcvNxt, first, abs.next, seg.start + 1, base);
      var notAbove := AtOrAfter(last, rcvNxt, seg.TcpEnd() - 1, abs.next, base);
      if notBelow && notAbove {
        var off := Distance(rcvNxt, inseg.seqno, abs.next, seg.start, base);
        c := TcpSeg(rcvNxt, inseg.len - off, inseg.p[off..], inseg.fin);
      }
    }

    /** The segment starts inside the receive window, by 32-bit comparison. */
    method InWindow(seqno: u32, ghost start: int) returns (b: bool)
      requires Fields() && seqno == Wrap(base + start) && -0x7fff_0000 < start - abs.next < 0x7fff_0000
      ensures b <==> abs.next <= start < abs.next + rcvWnd
    {
      var last := AddTo(rcvNxt, rcvWnd as int - 1, abs.next, base);
      var notBelow := AtOrAfter(seqno, rcvNxt, start, abs.next, base);
      var notAbove := AtOrAfter(last, seqno, abs.next + rcvWnd - 1, start, base);
      b := notBelow && notAbove;
    }

    /** The out-of-sequence branch; `alloc` is the outcome of tcp_seg_copy. */
    method QueueOutOfSequence(inseg: TcpSeg, alloc: bool, ghost s: Seg)
      requires Fields() && Settled(abs, stream) && Arriving(inseg, s) && abs.next < s.start < abs.next + rcvWnd
      modifies this`ooseq, this`abs
      ensures Fields()
      ensures abs == if alloc then old(abs).(ooseq := Enqueue(old(abs.ooseq), s, old(abs.next + abs.wnd))) else old(abs)
    {
      if alloc {
        if ooseq == [] {
          ooseq := [inseg];
        } else {
          NearQueue(abs.ooseq, abs.next, stream);
          ooseq := PlaceOutOfSequence(ooseq, inseg, rcvNxt, rcvWnd, abs.ooseq, s, abs.next, base, stream);
        }
        abs := abs.(ooseq := Enqueue(abs.ooseq, s, abs.next + abs.wnd));
      }
    }

    /** The data half of tcp_receive, for a segment with text in a receiving state. */
    method ReceiveText(inseg: TcpSeg, alloc: bool, ghost seg: Seg)
      requires Fields() && !recvFin && Settled(abs, stream) && !abs.gotFin && EdgeNear(abs.next)
      requires Arriving(inseg, seg)
      modifies this`rcvNxt, this`rcvWnd, this`rcvAnnWnd, this`ooseq, this`state, this`recvData, this`recvFin, this`abs
      ensures Fields() && recvFin == abs.gotFin && abs == Receive(old(abs), seg, alloc)
      ensures state == old(state) || (recvFin && old(state) == ESTABLISHED && state == CLOSE_WAIT)
      ensures if abs.next == old(abs.next) then rcvAnnWnd == old(rcvAnnWnd) else Announced()
      ensures abs.next > old(abs.next) <==> InReach(old(abs), seg)
      ensures InReach(old(abs), seg) ==> abs.next >= Min(seg.TcpEnd(), old(abs.next + abs.wnd))
    {
      SettledInv(abs, stream);
      ReceiveProgress(abs, seg, alloc, stream);
      TrimLeftKeepsStream(seg, abs.next, stream);
      ghost var s := TrimLeft(seg, abs.next);
      var c := TrimFirstEdge(inseg, seg);
      var acceptable := InWindow(c.seqno, s.start);
      if acceptable {
        var inSequence := SameNumber(rcvNxt, c.seqno, abs.next, s.start, base);
        if inSequence {
          ReceiveInSequence(c, s);
        } else {
          QueueOutOfSequence(c, alloc, s);
        }
      }
    }

    /** The states of tcp_process after tcp_receive. */
    method UpdateState(entered: TcpState, finAcked: bool) returns (closed: bool)
      requires state == entered || (recvFin && entered == ESTABLISHED && state == CLOSE_WAIT)
      modifies this`state
      ensures state == StateAfter(entered, recvFin, finAcked)
      ensures closed <==> entered == LAST_ACK && finAcked
    {
      closed := false;
      match entered
      case ESTABLISHED =>
        if recvFin {
          state := CLOSE_WAIT;
        }
      case FIN_WAIT_1 =>
        if recvFin {
          state := if finAcked then TIME_WAIT else CLOSING;
        } else if finAcked {
          state := FIN_WAIT_2;
        }
      case FIN_WAIT_2 =>
        if recvFin {
          state := TIME_WAIT;
        }
      case CLOSING =>
        if finAcked {
          state := TIME_WAIT;
        }
      case LAST_ACK =>
        closed := finAcked;
      case _ =>
    }

    /** tcp_receive: text is processed only until the peer's FIN. */
    method ReceiveSegment(inseg: TcpSeg, alloc: bool, ghost seg: Seg)
      requires Valid() && !recvFin && EdgeNear(abs.next)
      requires TcpLen(inseg) > 0 ==> Arriving(inseg, seg)
      modifies this`rcvNxt, this`rcvWnd, this`rcvAnnWnd, this`ooseq, this`state, this`recvData, this`recvFin, this`abs
      ensures Fields() && Settled(abs, stream)
      ensures abs == if TcpLen(inseg) == 0 then old(abs) else TcpReassembly.Step(old(abs), Arrive(seg, alloc))
      ensures recvFin <==> !old(abs.gotFin) && abs.gotFin
      ensures state == old(state) || (recvFin && old(state) == ESTABLISHED && state == CLOSE_WAIT)
      ensures if abs.next == old(abs.next) then rcvAnnWnd == old(rcvAnnWnd) else Announced()
    {
      if TcpLen(inseg) > 0 && state.Receiving() {
        ReceiveKeepsSettled(abs, seg, alloc, stream);
        ReceiveText(inseg, alloc, seg);
      }
    }

    /** tcp_receive and the state changes that follow it. */
    method ReceiveAndMove(inseg: TcpSeg, finAcked: bool, alloc: bool, ghost seg: Seg) returns (closed: bool)
      requires Valid() && EdgeNear(abs.next)
      requires TcpLen(inseg) > 0 ==> Arriving(inseg, seg)
      modifies this`rcvNxt, this`rcvWnd, this`rcvAnnWnd, this`ooseq, this`state, this`recvData, this`recvFin, this`abs,
               this`earlier
      ensures Valid()
      ensures abs == if TcpLen(inseg) == 0 then old(abs) else TcpReassembly.Step(old(abs), Arrive(seg, alloc))
      ensures abs.delivered == old(abs.delivered) + recvData
      ensures recvFin <==> !old(abs.gotFin) && abs.gotFin
      ensures state == StateAfter(old(state), recvFin, finAcked)
      ensures closed <==> old(state) == LAST_ACK && finAcked
      ensures if abs.next == old(abs.next) then rcvAnnWnd == old(rcvAnnWnd) else Announced()
    {
      hide RepresentsAll, Wrap, Settled, TcpWindow.AnnounceWindow;
      recvData, recvFin, earlier := [], false, abs.delivered;
      var entered := state;
      ReceiveSegment(inseg, alloc, seg);
      closed := UpdateState(entered, finAcked);
    }

    /** tcp_process in the synchronized states.  `finAcked` says
        that the segment acknowledges all that was sent, our FIN included;
        a segment without text has TCP length zero. */
    method Process(inseg: TcpSeg, finAcked: bool, alloc: bool, ghost seg: Seg) returns (closed: bool)
      requires Valid() && EdgeNear(abs.next)
      requires TcpLen(inseg) > 0 ==> Arriving(inseg, seg)
      modifies this
      ensures Valid()
      ensures abs.delivered == old(abs.delivered) + recvData
      ensures recvFin <==> !old(abs.gotFin) && abs.gotFin
      ensures state == StateAfter(old(state), recvFin, finAcked)
      ensures closed <==> old(state) == LAST_ACK && finAcked
      ensures Flow() == if TcpLen(inseg) == 0 then old(Flow())
                        else TcpWindow.Step(old(Flow()), TcpWindow.Arrive(seg, alloc), mss, tcpWnd)
      ensures old(WindowSound()) ==>
                && abs.next + rcvWnd == old(abs.next + rcvWnd) && annEdge == old(annEdge)
                && (WindowSound() <==>
                    TcpLen(inseg) == 0 || old(abs.gotFin) || FitsWindow(old(abs), seg, alloc))
      ensures abs.next > old(abs.next) <==> TcpLen(inseg) > 0 && !old(abs.gotFin) && InReach(old(abs), seg)
      ensures abs.next > old(abs.next) ==> abs.next >= Min(seg.TcpEnd(), old(abs.next + abs.wnd))
    {
      hide RepresentsAll, Wrap, Settled, TcpWindow.Sound, TcpWindow.AnnounceWindow, FitsWindow, Receive, FromStream,
           Represents, InReach;
      ghost var before := Flow();
      SettledInv(abs, stream);
      ArrivingIsStream(inseg, seg);
      if TcpLen(inseg) > 0 && !abs.gotFin {
        ReceiveProgress(abs, seg, alloc, stream);
      }
      closed := ReceiveAndMove(inseg, finAcked, alloc, seg);
      uncredited, finDue := uncredited + abs.next - before.r.next, finDue || recvFin;
      if TcpLen(inseg) > 0 && old(WindowSound()) {
        TcpWindow.ArriveSoundIff(before, seg, alloc, mss, tcpWnd, stream);
      }
    }

    lemma ArrivingIsStream(inseg: TcpSeg, seg: Seg)
      ensures Arriving(inseg, seg) ==> FromStream(seg, stream)
    {
    }

    // ----- The application and the timers -----

    /** tcp_recved without its window update. */
    method Credit(len: u16)
      requires Valid()
      modifies this`rcvWnd, this`abs
      ensures Valid() && rcvWnd == TcpWindow.Credited(old(rcvWnd), len, tcpWnd, Passive())
      ensures abs == old(abs).(wnd := rcvWnd)
      ensures old(rcvWnd) + len < TWO16 ==>
                rcvWnd == if Passive() && old(rcvWnd) + len == 0 then tcpWnd else Min(old(rcvWnd) + len, tcpWnd)
    {
      hide RepresentsAll, Wrap, Settled;
      TcpWindow.CreditedIs(rcvWnd, len, tcpWnd, Passive());
      SettledWindow(abs, TcpWindow.Credited(rcvWnd, len, tcpWnd, Passive()), stream);
      rcvWnd := Wrap16(rcvWnd + len);
      if rcvWnd > tcpWnd {
        rcvWnd := tcpWnd;
      } else if rcvWnd == 0 && (state == CLOSE_WAIT || state == LAST_ACK) {
        rcvWnd := tcpWnd;
      }
      abs := abs.(wnd := rcvWnd);
    }

    /** tcp_recved; returns whether a window update is sent at once. */
    method Recved(len: u16, threshold: u16) returns (updateNow: bool)
      requires Valid() && EdgeNear(abs.next)
      modifies this`rcvWnd, this`rcvAnnWnd, this`abs, this`uncredited
      ensures Valid() && Flow() == TcpWindow.Step(old(Flow()), TcpWindow.Consume(len, Passive()), mss, tcpWnd)
      ensures old(WindowSound()) && len + One(finDue) <= old(uncredited) ==>
                && (WindowSound() <==> !(Passive() && old(rcvWnd) == 0 && len == 0 && tcpWnd > 0))
                && abs.next + rcvWnd >= old(abs.next + rcvWnd) && annEdge <= abs.next + rcvAnnWnd
      ensures updateNow <==>
              || threshold == 0
              || (abs.next + rcvWnd >= annEdge + Min(tcpWnd / 2, mss) && abs.next + rcvWnd >= annEdge + threshold)
      ensures abs.next + rcvWnd >= annEdge + Min(tcpWnd / 2, mss) ==> rcvAnnWnd == rcvWnd
      ensures old(rcvWnd) + len < TWO16 ==>
                rcvWnd == if Passive() && old(rcvWnd) + len == 0 then tcpWnd else Min(old(rcvWnd) + len, tcpWnd)
    {
      hide RepresentsAll, Wrap, Settled, TcpWindow.Sound, TcpWindow.AnnounceWindow, TcpWindow.Credited;
      ghost var before := Flow();
      Credit(len);
      uncredited := uncredited - len;
      var inflation := UpdateRcvAnnWnd();
      updateNow := inflation >= threshold;
      if old(WindowSound()) && len + One(finDue) <= before.uncredited {
        TcpWindow.ConsumeSoundIff(before, len, Passive(), mss, tcpWnd);
        TcpWindow.ConsumeKeepsEdges(before, len, Passive(), mss, tcpWnd);
      }
    }

    /** The peer has closed and this side has not, or has since. */
    predicate Passive()
      reads this
    {
      state == CLOSE_WAIT || state == LAST_ACK
    }

    /** tcp_input credits the FIN that it has just reported, as the application will not. */
    method CountFin()
      requires Valid() && finDue
      modifies this`rcvWnd, this`abs, this`uncredited, this`finDue
      ensures Valid() && Flow() == TcpWindow.Step(old(Flow()), TcpWindow.CountFin, mss, tcpWnd)
      ensures old(WindowSound()) ==> WindowSound() && rcvWnd == old(rcvWnd) + 1
    {
      if rcvWnd != tcpWnd {
        rcvWnd := Wrap16(rcvWnd + 1);
      }
      abs := abs.(wnd := rcvWnd);
      uncredited, finDue := uncredited - 1, false;
      if old(WindowSound()) {
        TcpWindow.StepKeepsSound(old(Flow()), TcpWindow.CountFin, mss, tcpWnd, stream);
      }
    }

    /** A segment is sent: the announced right edge becomes `rcv_nxt + rcv_ann_wnd`. */
    method Announce()
      requires Valid()
      modifies this`rcvAnnRightEdge, this`annEdge
      ensures Valid() && Flow() == TcpWindow.Step(old(Flow()), TcpWindow.Announce, mss, tcpWnd)
      ensures annEdge == abs.next + rcvAnnWnd && rcvAnnRightEdge == Wrap(base + abs.next + rcvAnnWnd)
      ensures old(WindowSound()) ==> WindowSound() && annEdge >= old(annEdge)
    {
      rcvAnnRightEdge := AddTo(rcvNxt, rcvAnnWnd, abs.next, base);
      annEdge := abs.next + rcvAnnWnd;
    }

    /** The inactivity timer discards out-of-sequence data. */
    method DropOoseq()
      requires Valid()
      modifies this`ooseq, this`abs
      ensures Valid() && ooseq == [] && abs == old(abs).(ooseq := [])
      ensures abs == TcpReassembly.Step(old(abs), DropQueue)
      ensures Flow() == TcpWindow.Step(old(Flow()), TcpWindow.DropQueue, mss, tcpWnd)
      ensures old(WindowSound()) ==> WindowSound()
    {
      ooseq := [];
      abs := abs.(ooseq := []);
    }
  }
}
