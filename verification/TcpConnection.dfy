/** Both halves of a protocol control block together: a segment is acknowledged, received and acted upon as
    `tcp_receive` and `tcp_process` do, `tcp_write` queues data, `tcp_output` and `tcp_rexmit_rto` send it, and `tcp_close`
    queues our FIN. */
module TcpConnection {
  import opened Common
  import opened Words
  import opened TcpClose
  import opened TcpStates
  import TcpAck
  import TcpPcb
  import TcpReassembly
  import TcpReceive
  import TcpSender
  import TcpWindow
  import W = TcpWrite

  class Connection {
    const rcv: TcpPcb.Pcb
    const snd: TcpSender.Sender
    var sndLbb: u32
    var closed: bool
    /** What has happened, on unbounded positions. */
    ghost var conn: Conn

    ghost predicate Valid()
      reads this, rcv, snd
    {
      && rcv.Valid() && snd.Valid() && ConnInv(conn, snd.buf)
      && conn.state == rcv.state && conn.gotFin == rcv.abs.gotFin && conn.flight == snd.f && conn.closed == closed
      && (!conn.finQueued ==> sndLbb == Wrap(conn.lbb)) && snd.buf < TWO16
    }

    /** A connection that has just been established. */
    constructor (rcv: TcpPcb.Pcb, snd: TcpSender.Sender, ghost iss: int)
      requires rcv.Valid() && rcv.state == ESTABLISHED && snd.Valid()
      requires snd.f == Established(iss, snd.buf).flight && snd.buf < TWO16
      ensures Valid() && conn == Established(iss, snd.buf) && this.rcv == rcv && this.snd == snd
    {
      EstablishedInv(iss, snd.buf);
      this.rcv, this.snd, sndLbb, closed := rcv, snd, snd.sndNxt, false;
      conn := Established(iss, snd.buf);
    }

    /** tcp_process in the synchronized states: acknowledgement, text, and the states, with the test for our FIN made on
        the fields.  `ackno` is the acknowledgement number of a segment with the ACK flag. */
    method Process(inseg: TcpReceive.TcpSeg, ackno: Option<u32>, alloc: bool, ghost seg: TcpReassembly.Seg, ghost ack: int)
      requires Valid() && !closed && rcv.EdgeNear(rcv.abs.next)
      requires TcpReceive.TcpLen(inseg) > 0 ==> rcv.Arriving(inseg, seg)
      requires ackno.Some? ==> ackno.value == Wrap(ack) && TcpSender.Near(snd.f, ack)
      modifies this, rcv, snd
      ensures Valid()
      ensures conn == Step(old(conn), Segment(rcv.recvFin, if ackno.Some? then Some(ack) else None))
      ensures rcv.Flow() == if TcpReceive.TcpLen(inseg) == 0 then old(rcv.Flow())
                            else TcpWindow.Step(old(rcv.Flow()), TcpWindow.Arrive(seg, alloc), rcv.mss, rcv.tcpWnd)
      ensures rcv.abs.delivered == old(rcv.abs.delivered) + rcv.recvData
      ensures rcv.state == FIN_WAIT_2 || rcv.state == TIME_WAIT || closed ==>
                snd.unacked == [] && snd.unsent == [] && snd.lastack == snd.sndNxt
      ensures rcv.state == TIME_WAIT || closed ==> rcv.abs.gotFin
    {
      hide TcpWindow.Step, Queues, TcpAck.Inv, TcpAck.Acknowledge, TcpReceive.Represents, TcpSender.Near,
           TcpSender.Represents, TcpReassembly.FromStream, Wrap, Compact, Queued, Meaning;
      ghost var sent := if ackno.Some? then Some(ack) else None;
      ghost var before := conn;
      BothClosed(conn, snd.buf);
      var finAcked := TakeAck(ackno, ack);
      closed := rcv.Process(inseg, finAcked, alloc, seg);
      SegmentKeepsInv(before, snd.buf, rcv.recvFin, sent);
      conn := Step(before, Segment(rcv.recvFin, sent));
      BothClosed(conn, snd.buf);
      if rcv.state == FIN_WAIT_2 || rcv.state == TIME_WAIT || closed {
        NothingOutstanding(conn, snd.buf);
        EmptyBoth(snd.unacked, snd.f.unacked);
        EmptyBoth(snd.unsent, snd.f.unsent);
      }
    }

    /** The acknowledgement of a segment, and whether it is one of our FIN as far as the fields tell. */
    method TakeAck(ackno: Option<u32>, ghost ack: int) returns (finAcked: bool)
      requires snd.Valid()
      requires ackno.Some? ==> ackno.value == Wrap(ack) && TcpSender.Near(snd.f, ack)
      modifies snd
      ensures snd.Valid() && snd.buf == old(snd.buf)
      ensures snd.f == if ackno.Some? then TcpAck.Acknowledge(old(snd.f), ack) else old(snd.f)
      ensures finAcked == FinAcked(snd.f, if ackno.Some? then Some(ack) else None)
    {
      hide TcpAck.Inv, TcpAck.Acknowledge, TcpSender.Represents, Wrap;
      finAcked := false;
      if ackno.Some? {
        ghost var before := snd.f;
        var _ := snd.ProcessAck(ackno.value, ack);
        SameNumber(ack, before, snd.f, snd.buf);
        finAcked := ackno.value == snd.sndNxt && snd.unsent == [];
        EmptyBoth(snd.unsent, snd.f.unsent);
      }
    }

    /** tcp_close on an open connection; the state moves on only if our FIN could be queued. */
    method Close(alloc: bool)
      requires Valid() && !closed
      modifies this, rcv`state, snd
      ensures Valid() && conn == Step(old(conn), TcpClose.Close(alloc))
    {
      hide Queues, TcpAck.Inv, TcpSender.Near, TcpSender.Represents, Wrap, TcpClose.SendFin, Compact, Queued;
      CloseKeepsInv(conn, snd.buf, alloc);
      if rcv.state == ESTABLISHED || rcv.state == CLOSE_WAIT {
        var ok := snd.SendFin(sndLbb, alloc, conn.lbb);
        if ok {
          conn := Step(conn, TcpClose.Close(alloc));
          rcv.state := if rcv.state == ESTABLISHED then FIN_WAIT_1 else LAST_ACK;
        }
      }
    }

    /** tcp_write: all of the data is queued behind what was queued before, or nothing changes. */
    method Write(w: W.Request) returns (e: Err)
      requires Valid() && !closed && W.LastFits(snd.f, w)
      modifies this`sndLbb, this`conn, snd
      ensures Valid() && (e == ErrConn <==> !rcv.state.Writable())
      ensures e == Ok <==> rcv.state.Writable() && W.Enough(old(snd.f), old(conn.lbb), w)
      ensures e == Ok ==> conn == Run(old(conn), W.Moves(old(snd.f), old(conn.lbb), w))
      ensures e == Ok ==> conn.lbb == old(conn.lbb) + w.len && sndLbb == Add32(old(sndLbb), w.len)
      ensures e != Ok ==> conn == old(conn)
    {
      hide Queues, TcpAck.Inv, TcpSender.Represents, Wrap, W.Enough, W.Written, W.Moves, Compact, Queued;
      if !rcv.state.Writable() {
        return ErrConn;
      }
      ghost var before := conn;
      BeforeClose(conn, snd.buf);
      e := snd.Write(w, sndLbb, conn.lbb);
      if e == Ok {
        W.WriteRun(before, w);
        RunKeepsInv(before, snd.buf, W.Moves(before.flight, before.lbb, w));
        WrapSum(conn.lbb, w.len);
        sndLbb := Add32(sndLbb, w.len);
        conn := Run(conn, W.Moves(conn.flight, conn.lbb, w));
      }
    }

    /** The loop of tcp_output with a send window of `wnd`: segments go out in order while they fit it and `go` allows.
        Nothing is sent beyond the window but a FIN right at its end. */
    method Output(wnd: u32, go: nat -> bool) returns (n: nat)
      requires Valid() && !closed
      modifies this`conn, snd
      ensures Valid() && conn == Run(old(conn), Outputs(n)) && n <= |old(snd.f.unsent)|
      ensures snd.f.lastack == old(snd.f.lastack) && snd.f.unsent == old(snd.f.unsent)[n..]
      ensures forall i :: 0 <= i < n ==> go(i) && TcpSender.Sendable(old(snd.f.unsent)[i], snd.f.lastack, wnd)
      ensures n < |old(snd.f.unsent)| ==> !go(n) || !TcpSender.Sendable(old(snd.f.unsent)[n], snd.f.lastack, wnd)
      ensures snd.f.nxt <= old(snd.f.nxt) || snd.f.nxt <= snd.f.lastack + wnd + 1
    {
      hide Queues, TcpAck.Inv, TcpSender.Represents, Wrap, Compact, Queued, Run, Outputs, TcpSender.Sendable;
      ghost var before, q := conn, snd.f.unsent;
      n := 0;
      NoOutputs(conn);
      var fits := Fits(wnd);
      while fits && go(n)
        invariant Valid() && !conn.closed && n <= |q| && conn == Run(before, Outputs(n))
        invariant snd.f.lastack == before.flight.lastack && snd.f.unsent == q[n..]
        invariant forall i :: 0 <= i < n ==> go(i) && TcpSender.Sendable(q[i], snd.f.lastack, wnd)
        invariant fits <==> n < |q| && TcpSender.Sendable(q[n], snd.f.lastack, wnd)
        invariant snd.f.nxt <= before.flight.nxt || snd.f.nxt <= snd.f.lastack + wnd + 1
        decreases |q| - n
      {
        SendOne(wnd);
        OneMore(before, n);
        n := n + 1;
        fits := Fits(wnd);
      }
    }

    /** Whether there is a segment to send and it fits the window. */
    method Fits(wnd: u32) returns (b: bool)
      requires Valid() && !closed
      ensures b <==> snd.f.unsent != [] && TcpSender.Sendable(snd.f.unsent[0], snd.f.lastack, wnd)
    {
      hide Queues, TcpAck.Inv, TcpSender.Represents, Wrap, Compact, Queued, TcpSender.Sendable;
      OutstandingFits(conn, snd.buf);
      EmptyBoth(snd.unsent, snd.f.unsent);
      b := false;
      if snd.unsent != [] {
        b := snd.Fits(wnd, conn.lbb);
      }
    }

    method SendOne(ghost wnd: nat)
      requires Valid() && !closed && snd.f.unsent != [] && TcpSender.Sendable(snd.f.unsent[0], snd.f.lastack, wnd)
      modifies this`conn, snd
      ensures Valid() && conn == Step(old(conn), TcpClose.Output) && conn.closed == old(conn.closed)
      ensures snd.f.lastack == old(snd.f.lastack) && snd.f.unsent == old(snd.f.unsent)[1..]
      ensures snd.f.nxt <= old(snd.f.nxt) || snd.f.nxt <= snd.f.lastack + wnd + 1
    {
      hide Queues, TcpAck.Inv, TcpSender.Represents, Wrap, Compact, Queued;
      OutstandingFits(conn, snd.buf);
      EmptyBoth(snd.unsent, snd.f.unsent);
      OutputKeepsInv(conn, snd.buf);
      snd.Transmit(conn.lbb);
      conn := Step(conn, TcpClose.Output);
    }

    /** tcp_rexmit_rto, before it calls tcp_output. */
    method Resend()
      requires Valid() && !closed
      modifies this`conn, snd
      ensures Valid() && conn == Step(old(conn), TcpClose.Resend)
      ensures snd.unacked == [] && snd.unsent == old(snd.unacked + snd.unsent)
      ensures Queued(snd.f) == old(Queued(snd.f)) && snd.f.nxt == old(snd.f.nxt) && snd.f.lastack == old(snd.f.lastack)
      ensures snd.sndBuf == old(snd.sndBuf) && snd.queueLen == old(snd.queueLen)
    {
      hide Queues, TcpAck.Inv, TcpSender.Represents, Wrap, Compact;
      ResendKeepsInv(conn, snd.buf);
      snd.Requeue(conn.lbb);
      conn := Step(conn, TcpClose.Resend);
    }
  }

  lemma EmptyBoth(q: seq<TcpSender.TcpSeg>, a: seq<TcpAck.Sent>)
    requires TcpSender.Represents(q, a)
    ensures q == [] <==> a == []
  {
  }

  /** The 32-bit test for an acknowledgement of all that was sent. */
  lemma SameNumber(ack: int, f: TcpAck.Flight, g: TcpAck.Flight, buf: nat)
    requires TcpAck.Inv(f, buf) && TcpSender.Near(f, ack) && g == TcpAck.Acknowledge(f, ack)
    ensures Wrap(ack) == Wrap(g.nxt) <==> ack == g.nxt
  {
    ComparisonsRefine(ack, f.nxt);
  }
}
