/** The sending half of a TCP protocol control block on 32-bit sequence numbers: the acknowledgement part of tcp_receive,
    tcp_write, tcp_send_fin, tcp_output and tcp_rexmit_rto. */
module TcpSender {
  import opened Common
  import opened Words
  import opened TcpAck
  import TcpClose
  import W = TcpWrite

  datatype TcpSeg = TcpSeg(seqno: u32, len: u16, flag: bool, pbufs: nat)

  ghost predicate Image(c: TcpSeg, s: Sent) {
    c.seqno == Wrap(s.start) && c.len == s.len && c.flag == s.flag && c.pbufs == s.pbufs
  }

  ghost predicate Represents(q: seq<TcpSeg>, a: seq<Sent>) {
    |q| == |a| && forall i :: 0 <= i < |q| ==> Image(q[i], a[i])
  }

  /** Every end of a segment is close enough to `x` for 32-bit comparison. */
  ghost predicate EndsNear(q: seq<Sent>, x: int) { forall i :: 0 <= i < |q| ==> -TWO31 < End(q[i]) - x < TWO31 }

  /** So is everything that an acknowledgement number is compared with. */
  ghost predicate Near(f: Flight, x: int) {
    && -TWO31 < f.lastack - x && f.lastack + 1 - x < TWO31 && -TWO31 < f.nxt - x < TWO31
    && EndsNear(f.unacked, x) && EndsNear(f.unsent, x)
  }

  /** TCP_SEQ_LEQ */
  method AtOrBefore(x: u32, y: u32, ghost a: int, ghost b: int) returns (r: bool)
    requires x == Wrap(a) && y == Wrap(b) && -TWO31 < a - b < TWO31
    ensures r <==> a <= b
  {
    ComparisonsRefine(a, b);
    r := SeqLeq(x, y);
  }

  /** TCP_SEQ_BETWEEN */
  method LiesBetween(x: u32, y: u32, z: u32, ghost a: int, ghost b: int, ghost c: int) returns (r: bool)
    requires x == Wrap(a) && y == Wrap(b) && z == Wrap(c) && -TWO31 < a - b < TWO31 && -TWO31 < a - c < TWO31
    ensures r <==> b <= a <= c
  {
    ComparisonsRefine(a, b);
    ComparisonsRefine(a, c);
    r := SeqBetween(x, y, z);
  }

  /** The sequence number after the first segment. */
  method EndOf(s: TcpSeg, ghost a: Sent) returns (e: u32)
    requires Image(s, a)
    ensures e == Wrap(End(a))
  {
    WrapSum(a.start, TcpLen(a));
    e := Add32(s.seqno, s.len + if s.flag then 1 else 0);
  }

  /** One of the two loops that free acknowledged segments: `limit`, when given, is snd_nxt, which the acknowledgement
      must not exceed. */
  method FreeAcked(q: seq<TcpSeg>, ackno: u32, limit: Option<u32>, queueLen: nat,
                   ghost a: seq<Sent>, ghost low: int, ghost ack: int, ghost nxt: int)
    returns (rest: seq<TcpSeg>, bytes: nat, left: nat)
    requires Represents(q, a) && ackno == Wrap(ack) && Ascending(a, low) && EndsNear(a, ack)
    requires limit.Some? ==> limit.value == Wrap(nxt) && -TWO31 < nxt - ack < TWO31
    requires Pbufs(a) <= queueLen
    ensures var b := if limit == None || ack <= nxt then DropAcked(a, ack) else a;
            Represents(rest, b) && bytes + DataBytes(b) == DataBytes(a) && left + Pbufs(a) == queueLen + Pbufs(b)
  {
    rest, bytes, left := q, 0, queueLen;
    ghost var b := a;
    var more := true;
    while more && rest != []
      invariant Represents(rest, b) && Ascending(b, low) && EndsNear(b, ack)
      invariant limit == None || ack <= nxt ==> DropAcked(b, ack) == DropAcked(a, ack)
      invariant limit.Some? && ack > nxt ==> b == a
      invariant bytes + DataBytes(b) == DataBytes(a) && left + Pbufs(a) == queueLen + Pbufs(b)
      invariant !more ==> b == if limit == None || ack <= nxt then DropAcked(a, ack) else a
      decreases |rest|, more
    {
      var end := EndOf(rest[0], b[0]);
      if limit == None {
        more := AtOrBefore(end, ackno, End(b[0]), ack);
      } else {
        more := LiesBetween(ackno, end, limit.value, ack, End(b[0]), nxt);
      }
      if more {
        bytes, left := bytes + rest[0].len, left - rest[0].pbufs;
        rest, b := rest[1..], b[1..];
      }
    }
  }

  class Sender {
    var lastack: u32
    var sndNxt: u32
    var unacked: seq<TcpSeg>
    var unsent: seq<TcpSeg>
    var sndBuf: nat
    var queueLen: nat
    /** The retransmission timer: -1 when stopped. */
    var rtime: int
    /** The positions that the fields stand for. */
    ghost var f: Flight
    ghost var buf: nat

    ghost predicate Valid()
      reads this
    {
      && Inv(f, buf) && lastack == Wrap(f.lastack) && sndNxt == Wrap(f.nxt)
      && Represents(unacked, f.unacked) && Represents(unsent, f.unsent)
      && sndBuf == f.sndBuf && queueLen == f.queueLen
    }

    constructor (ghost iss: nat, buf: nat, isn: u32)
      requires isn == Wrap(iss)
      ensures Valid() && f == Flight(iss, iss, [], [], buf, 0) && this.buf == buf && rtime == -1
    {
      lastack, sndNxt, unacked, unsent, sndBuf, queueLen, rtime := isn, isn, [], [], buf, 0, -1;
      f, this.buf := Flight(iss, iss, [], [], buf, 0), buf;
    }

    /** The acknowledgement number `ackno` arrives; what is freed goes back to the send buffer. */
    method ProcessAck(ackno: u32, ghost ack: int) returns (acked: nat)
      requires Valid() && ackno == Wrap(ack) && Near(f, ack)
      modifies this
      ensures Valid() && f == Acknowledge(old(f), ack) && buf == old(buf)
      ensures sndBuf == old(sndBuf) + acked
      ensures rtime == if !AcksNew(old(f), ack) then old(rtime) else if unacked == [] then -1 else 0
    {
      hide Ascending, DropAcked, DataBytes, Pbufs, Wrap, Inv, EndsNear, Represents, Acknowledge;
      ghost var g := f;
      AckResult(f, buf, ack);
      NextNumber(f.lastack);
      acked := 0;
      var isOld := AtOrBefore(ackno, lastack, ack, f.lastack);
      if !isOld {
        var isNew := LiesBetween(ackno, Add32(lastack, 1), sndNxt, ack, f.lastack + 1, f.nxt);
        if isNew {
          lastack := ackno;
          unacked, acked, queueLen := FreeAcked(unacked, ackno, None, queueLen, g.unacked, g.lastack, ack, g.nxt);
          rtime := if unacked == [] then -1 else 0;
        }
      }
      var bytes;
      unsent, bytes, queueLen := FreeAcked(unsent, ackno, Some(sndNxt), queueLen, g.unsent, g.lastack, ack, g.nxt);
      acked := acked + bytes;
      sndBuf := sndBuf + acked;
      f := Acknowledge(g, ack);
    }

    /** tcp_send_fin; `seqno` is snd_lbb and `alloc` says whether a segment of its own could be queued. */
    method SendFin(seqno: u32, alloc: bool, ghost lbb: int) returns (ok: bool)
      requires Valid() && seqno == Wrap(lbb) && TcpClose.Queues(f, lbb, buf)
      modifies `unsent, `queueLen, `f
      ensures Valid() && ok == !TcpClose.FinFails(old(f), alloc)
      ensures ok <==> alloc || (old(unsent) != [] && !old(unsent)[|old(unsent)| - 1].flag)
      ensures f == if ok then TcpClose.SendFin(old(f), lbb) else old(f)
    {
      hide Ascending, Wrap, DataBytes, Pbufs, TcpClose.Touching, TcpClose.Compact;
      TcpClose.SendFinKeepsQueues(f, lbb, buf);
      ghost var g := TcpClose.SendFin(f, lbb);
      if unsent != [] {
        RepresentsLast(unsent, f.unsent);
      }
      if unsent != [] && !unsent[|unsent| - 1].flag {
        unsent := unsent[|unsent| - 1 := unsent[|unsent| - 1].(flag := true)];
      } else if !alloc {
        return false;
      } else {
        RepresentsEnd(unsent, f.unsent, TcpSeg(seqno, 0, true, 1), Sent(lbb, 0, true, 1));
        unsent, queueLen := unsent + [TcpSeg(seqno, 0, true, 1)], queueLen + 1;
      }
      f := g;
      return true;
    }

    /** tcp_write; `seqno` is snd_lbb.  All of the data is queued, or nothing changes. */
    method Write(w: W.Request, seqno: u32, ghost lbb: int) returns (e: Err)
      requires Valid() && seqno == Wrap(lbb) && TcpClose.Queues(f, lbb, buf) && W.LastFits(f, w)
      requires TcpClose.Compact(TcpClose.Queued(f), f.lastack, false, lbb)
      modifies `unsent, `sndBuf, `queueLen, `f
      ensures Valid() && (e == Ok || e == ErrMem) && (e == Ok <==> W.Enough(old(f), lbb, w))
      ensures e == Ok ==> w.len <= old(f).sndBuf && f == W.Written(old(f), lbb, w)
      ensures e == Ok ==> sndBuf == old(sndBuf) - w.len
      ensures e == Ok && |f.unsent| > |old(f).unsent| ==> queueLen <= Min(w.limit, W.QUEUE_OVERFLOW)
      ensures e != Ok ==> f == old(f)
    {
      hide Wrap, TcpClose.Queues, TcpClose.Compact, TcpClose.Queued, Inv, Represents, W.PiecesFound, W.Written, W.Pieces,
           W.Spare, W.Chained, W.LastPbufs, W.OnLast;
      if w.len > 0 && (w.len > sndBuf || queueLen >= w.limit || queueLen > W.QUEUE_OVERFLOW) {
        return ErrMem;
      }
      W.OnLastFits(f, w);
      WrittenIs(f, lbb, w);
      var found, onLast, pbufs := PlanLast(w);
      NothingPlanned(f, w);
      if !found {
        return ErrMem;
      }
      var ok, queue, ql := MakeSegments(w, onLast, queueLen + pbufs, seqno, lbb);
      if !ok {
        return ErrMem;
      }
      W.AcceptedWithinLimits(f, lbb, w);
      W.WrittenQueues(f, lbb, buf, w);
      QueuesInv(W.Written(f, lbb, w), lbb + w.len, buf);
      Commit(w, onLast, pbufs, queue, ql, lbb);
      return Ok;
    }

    /** Phases 1 and 2: what goes to the last unsent segment. */
    method PlanLast(w: W.Request) returns (found: bool, onLast: nat, pbufs: nat)
      requires Represents(unsent, f.unsent) && W.LastFits(f, w)
      ensures found <==> (f.unsent != [] && W.Chained(W.Last(f), w) > 0 ==> w.alloc(W.Spare(W.Last(f), w)))
      ensures onLast == W.OnLast(f, w) && (found ==> pbufs == W.LastPbufs(f, w))
    {
      found, onLast, pbufs := true, 0, 0;
      if unsent != [] {
        LastImage(unsent, f.unsent);
        var last := unsent[|unsent| - 1].len;
        var spare, chained := W.Spare(last, w), W.Chained(last, w);
        onLast := spare + chained;
        if chained > 0 {
          found, pbufs := w.alloc(spare), w.clen(spare);
        }
      }
    }

    /** The planned changes are made. */
    method Commit(w: W.Request, onLast: nat, pbufs: nat, queue: seq<TcpSeg>, ql: nat, ghost lbb: int)
      requires Represents(unsent, f.unsent) && sndBuf == f.sndBuf && W.LastFits(f, w) && w.len <= f.sndBuf
      requires onLast == W.OnLast(f, w) && pbufs == W.LastPbufs(f, w) && Represents(queue, W.Pieces(lbb, onLast, w))
      requires ql == W.Written(f, lbb, w).queueLen
      modifies `unsent, `sndBuf, `queueLen, `f
      ensures f == W.Written(old(f), lbb, w) && Represents(unsent, f.unsent) && sndBuf == f.sndBuf && queueLen == ql
    {
      hide Wrap, Represents, W.Written, W.Pieces, W.LastPbufs;
      WrittenIs(f, lbb, w);
      NoImage(unsent, f.unsent);
      if onLast > 0 {
        LastImage(unsent, f.unsent);
        LongerImage(unsent, f.unsent, onLast, pbufs, w.mss);
        var last := unsent[|unsent| - 1];
        unsent := unsent[|unsent| - 1 := last.(len := last.len + onLast, pbufs := last.pbufs + pbufs)];
      }
      ghost var ps := W.Pieces(lbb, onLast, w);
      f := W.Written(f, lbb, w);
      assert f.unsent[..|f.unsent| - |ps|] + ps == f.unsent;
      RepresentsCat(unsent, queue, f.unsent, ps);
      unsent, sndBuf, queueLen := unsent + queue, sndBuf - w.len, ql;
    }

    /** The test of tcp_output that the first unsent segment fits the send window. */
    method Fits(wnd: u32, ghost lbb: int) returns (b: bool)
      requires Valid() && unsent != [] && TcpClose.Queues(f, lbb, buf) && lbb - f.lastack < TWO31
      ensures f.unsent != [] && (b <==> Sendable(f.unsent[0], f.lastack, wnd))
    {
      hide Wrap, Ascending, Pbufs, DataBytes, TcpClose.Touching;
      FirstUnsent(f, lbb, buf);
      WindowNumber(unsent[0], f.unsent[0], f.lastack);
      b := Add32(Sub32(unsent[0].seqno, lastack), unsent[0].len) <= wnd;
    }

    /** The first unsent segment is sent: `snd_nxt` moves on by 32-bit comparison, and the segment goes to the end of the
        unacknowledged ones.  It is never empty and never belongs before the last of them, for which tcp_output has
        branches. */
    method Transmit(ghost lbb: int)
      requires Valid() && unsent != [] && TcpClose.Queues(f, lbb, buf) && lbb - f.lastack < TWO31
      modifies `sndNxt, `unacked, `unsent, `f
      ensures Valid() && f == TcpAck.Step(old(f), TcpAck.Transmit)
      ensures unacked == old(unacked + [unsent[0]]) && unsent == old(unsent[1..])
    {
      hide Wrap, Ascending, Pbufs, DataBytes, TcpClose.Touching, Image;
      FirstUnsent(f, lbb, buf);
      TransmitKeepsInv(f, buf);
      var seg := unsent[0];
      ghost var s := f.unsent[0];
      MoveImage(unacked, unsent, f.unacked, f.unsent);
      var end := EndOf(seg, s);
      var reached := AtOrBefore(end, sndNxt, End(s), f.nxt);
      if !reached {
        sndNxt := end;
      }
      assert seg.len > 0 || seg.flag;
      if unacked != [] {
        BehindLast(f, lbb, buf);
        LastImage(unacked, f.unacked);
        var before := Before(seg, unacked[|unacked| - 1], s, f.unacked[|f.unacked| - 1]);
        assert !before;
      }
      unacked, unsent := unacked + [seg], unsent[1..];
      f := TcpAck.Step(f, TcpAck.Transmit);
    }

    /** tcp_rexmit_rto: everything unacknowledged goes back to the front of the unsent queue. */
    method Requeue(ghost lbb: int)
      requires Valid() && TcpClose.Queues(f, lbb, buf)
      modifies `unacked, `unsent, `f
      ensures Valid() && f == TcpAck.Step(old(f), TcpAck.Requeue)
      ensures unacked == [] && unsent == old(unacked + unsent)
      ensures f == old(f).(unacked := [], unsent := TcpClose.Queued(old(f)))
    {
      hide Ascending, Pbufs, DataBytes, Wrap, Represents, TcpClose.Touching, Inv;
      QueuesInv(f, lbb, buf);
      QueuesInOrder(f, lbb, buf);
      RequeueKeepsInv(f, buf);
      JoinImages(unacked, unsent, f.unacked, f.unsent);
      if unacked != [] {
        unacked, unsent := [], unacked + unsent;
      } else {
        assert [] + unsent == unsent;
      }
      f := TcpAck.Step(f, TcpAck.Requeue);
    }
  }

  /** The segment ends inside a window of `wnd` from the last acknowledged byte on, its FIN not counted. */
  ghost predicate Sendable(s: Sent, lastack: int, wnd: nat) { s.start + s.len - lastack <= wnd }

  lemma FirstUnsent(f: Flight, lbb: int, buf: nat)
    requires TcpClose.Queues(f, lbb, buf) && f.unsent != []
    ensures var s := f.unsent[0]; f.lastack < End(s) <= lbb && f.lastack <= f.nxt <= lbb && TcpLen(s) > 0
  {
    var q := TcpClose.Queued(f);
    assert q[|f.unacked|] == f.unsent[0];
    TcpClose.EndsBelow(q, lbb, |f.unacked|);
    AscendingAt(f.unsent, f.lastack, 0);
  }

  /** It starts where the last unacknowledged segment ends. */
  lemma BehindLast(f: Flight, lbb: int, buf: nat)
    requires TcpClose.Queues(f, lbb, buf) && f.unsent != [] && f.unacked != []
    ensures f.unsent[0].start == End(f.unacked[|f.unacked| - 1])
  {
    var q, n := TcpClose.Queued(f), |f.unacked|;
    assert q[n] == f.unsent[0] && q[n - 1] == f.unacked[n - 1];
    assert End(q[n - 1]) == TcpClose.StartAfter(q, n - 1, lbb);
  }

  /** TCP_SEQ_LT of the sequence numbers of a segment and the one that it follows. */
  method Before(c: TcpSeg, d: TcpSeg, ghost s: Sent, ghost t: Sent) returns (b: bool)
    requires Image(c, s) && Image(d, t) && s.start == End(t)
    ensures !b
  {
    ComparisonsRefine(s.start, t.start);
    b := SeqLt(c.seqno, d.seqno);
  }

  lemma MoveImage(p: seq<TcpSeg>, q: seq<TcpSeg>, a: seq<Sent>, b: seq<Sent>)
    requires Represents(p, a) && Represents(q, b) && b != []
    ensures q != [] && Image(q[0], b[0]) && Represents(p + [q[0]], a + [b[0]]) && Represents(q[1..], b[1..])
  {
  }

  /** The 32-bit sum that tcp_output compares with the window, also for a segment that is partly acknowledged. */
  lemma WindowNumber(c: TcpSeg, s: Sent, lastack: int)
    requires Image(c, s) && lastack < End(s) < lastack + TWO31
    ensures Add32(Sub32(c.seqno, Wrap(lastack)), c.len) == s.start + s.len - lastack
  {
    SmallWrap(s.start + s.len - lastack);
    hide Wrap;
    WrapSum(s.start, Wrap(lastack));
    WrapSum(s.start, lastack);
    WrapSum(s.start - lastack, s.len);
  }

  /** Phase 3 of tcp_write: the new segments, if there is memory for all of them. */
  method MakeSegments(w: W.Request, from: nat, queueLen: nat, seqno: u32, ghost lbb: int)
    returns (ok: bool, queue: seq<TcpSeg>, ql: nat)
    requires w.mss > 0 && from <= w.len && seqno == Wrap(lbb)
    ensures var ps := W.Pieces(lbb, from, w);
            && (ok <==> W.PiecesFound(lbb, from, w)
                        && (from < w.len ==> queueLen + Pbufs(ps) <= Min(w.limit, W.QUEUE_OVERFLOW)))
            && (ok ==> Represents(queue, ps) && ql == queueLen + Pbufs(ps)) && (from == w.len ==> ok)
  {
    hide Wrap, W.Pieces, W.PiecesFound, Pbufs, Represents, Image;
    queue, ql := [], queueLen;
    var pos: nat := from;
    ghost var done := [];
    NoPieces(lbb, w);
    while pos < w.len
      invariant from <= pos <= w.len && done + W.Pieces(lbb, pos, w) == W.Pieces(lbb, from, w)
      invariant Represents(queue, done) && ql == queueLen + Pbufs(done)
      invariant pos > from ==> ql <= Min(w.limit, W.QUEUE_OVERFLOW)
      invariant W.PiecesFound(lbb, from, w) <==> W.PiecesFound(lbb, pos, w)
      decreases w.len - pos
    {
      var n := Min(w.mss, w.len - pos);
      ghost var s := NextPiece(lbb, from, pos, w, done);
      if !w.alloc(pos) || ql + w.clen(pos) > Min(w.limit, W.QUEUE_OVERFLOW) {
        return false, queue, ql;
      }
      var seg := TcpSeg(Add32(seqno, pos), n, false, w.clen(pos));
      PieceImage(seg, seqno, lbb, pos, s);
      RepresentsEnd(queue, done, seg, s);
      queue, ql := queue + [seg], ql + w.clen(pos);
      done, pos := done + [s], pos + n;
    }
    assert done + [] == done;
    ok := true;
  }

  lemma NoPieces(lbb: int, w: W.Request)
    requires w.mss > 0
    ensures W.Pieces(lbb, w.len, w) == [] && W.PiecesFound(lbb, w.len, w) && Pbufs([]) == 0 && Represents([], [])
  {
  }

  /** With nothing to write, nothing is planned. */
  lemma NothingPlanned(f: Flight, w: W.Request)
    requires W.LastFits(f, w)
    ensures w.len == 0 && f.unsent != [] ==> W.Chained(W.Last(f), w) == 0
  {
  }

  lemma PiecesStep(lbb: int, pos: nat, w: W.Request)
    requires w.mss > 0 && pos < w.len
    ensures var n := Min(w.mss, w.len - pos);
            && W.Pieces(lbb, pos, w) == [Sent(lbb + pos, n, false, w.clen(pos))] + W.Pieces(lbb, pos + n, w)
            && (W.PiecesFound(lbb, pos, w) <==> w.alloc(pos) && W.PiecesFound(lbb, pos + n, w))
  {
    var n := Min(w.mss, w.len - pos);
    var s, rest := Sent(lbb + pos, n, false, w.clen(pos)), W.Pieces(lbb, pos + n, w);
    assert W.Pieces(lbb, pos, w) == [s] + rest;
    hide W.Pieces;
    assert s in [s] + rest && forall t :: t in rest ==> t in [s] + rest;
  }

  /** The segment at `pos`, after those of `done`. */
  lemma NextPiece(lbb: int, from: nat, pos: nat, w: W.Request, done: seq<Sent>) returns (s: Sent)
    requires w.mss > 0 && from <= pos < w.len && done + W.Pieces(lbb, pos, w) == W.Pieces(lbb, from, w)
    ensures var n := Min(w.mss, w.len - pos);
            && s == Sent(lbb + pos, n, false, w.clen(pos))
            && done + [s] + W.Pieces(lbb, pos + n, w) == W.Pieces(lbb, from, w)
            && Pbufs(done + [s]) == Pbufs(done) + s.pbufs
            && Pbufs(done) + s.pbufs <= Pbufs(W.Pieces(lbb, from, w))
            && (W.PiecesFound(lbb, pos, w) <==> w.alloc(pos) && W.PiecesFound(lbb, pos + n, w))
  {
    hide W.Pieces, W.PiecesFound, Pbufs, DataBytes;
    var n := Min(w.mss, w.len - pos);
    s := Sent(lbb + pos, n, false, w.clen(pos));
    PiecesStep(lbb, pos, w);
    var rest := W.Pieces(lbb, pos + n, w);
    assert done + ([s] + rest) == done + [s] + rest;
    TcpClose.CountsOne(s);
    CountsCat(done, [s]);
    CountsCat(done + [s], rest);
  }

  lemma PieceImage(c: TcpSeg, seqno: u32, lbb: int, pos: nat, s: Sent)
    requires seqno == Wrap(lbb) && c.seqno == Add32(seqno, pos) && s == Sent(lbb + pos, c.len, c.flag, c.pbufs)
    ensures Image(c, s)
  {
    WrapSum(lbb, pos);
  }

  lemma QueuesInv(f: Flight, lbb: int, buf: nat)
    requires TcpClose.Queues(f, lbb, buf)
    ensures Inv(f, buf)
  {
  }

  lemma QueuesInOrder(f: Flight, lbb: int, buf: nat)
    requires TcpClose.Queues(f, lbb, buf)
    ensures InOrder(f)
  {
  }

  lemma JoinImages(p: seq<TcpSeg>, q: seq<TcpSeg>, a: seq<Sent>, b: seq<Sent>)
    requires Represents(p, a) && Represents(q, b)
    ensures Represents(p + q, a + b) && Represents([], [])
  {
  }

  lemma NoImage(q: seq<TcpSeg>, a: seq<Sent>)
    requires Represents(q, a)
    ensures q == [] <==> a == []
  {
  }

  lemma LastImage(q: seq<TcpSeg>, a: seq<Sent>)
    requires Represents(q, a) && q != []
    ensures a != [] && Image(q[|q| - 1], a[|a| - 1])
  {
  }

  lemma LongerImage(q: seq<TcpSeg>, a: seq<Sent>, n: nat, pbufs: nat, mss: u16)
    requires Represents(q, a) && q != [] && q[|q| - 1].len + n <= mss
    ensures var c, s := q[|q| - 1], a[|a| - 1];
            Represents(q[|q| - 1 := c.(len := c.len + n, pbufs := c.pbufs + pbufs)],
                       a[|a| - 1 := s.(len := s.len + n, pbufs := s.pbufs + pbufs)])
  {
  }

  lemma RepresentsCat(q: seq<TcpSeg>, p: seq<TcpSeg>, all: seq<Sent>, ps: seq<Sent>)
    requires |ps| <= |all| && all == all[..|all| - |ps|] + ps && Represents(q, all[..|all| - |ps|]) && Represents(p, ps)
    ensures Represents(q + p, all)
  {
  }

  /** What tcp_write leaves in the fields. */
  lemma WrittenIs(f: Flight, lbb: int, w: W.Request)
    requires W.LastFits(f, w) && w.len <= f.sndBuf
    ensures var g, n, ps := W.Written(f, lbb, w), W.OnLast(f, w), W.Pieces(lbb, W.OnLast(f, w), w);
            && n <= w.len && g.sndBuf == f.sndBuf - w.len && g.queueLen == f.queueLen + W.LastPbufs(f, w) + Pbufs(ps)
            && g.unacked == f.unacked && g.lastack == f.lastack && g.nxt == f.nxt
            && g.unsent == (if n > 0 then TcpClose.ExtendLast(f, n, W.LastPbufs(f, w)).unsent else f.unsent) + ps
  {
    W.PiecesTotal(lbb, W.OnLast(f, w), w);
  }

  lemma RepresentsEnd(q: seq<TcpSeg>, a: seq<Sent>, s: TcpSeg, t: Sent)
    requires Represents(q, a) && Image(s, t)
    ensures Represents(q + [s], a + [t])
  {
  }

  lemma RepresentsLast(q: seq<TcpSeg>, a: seq<Sent>)
    requires Represents(q, a) && q != []
    ensures var n := |q| - 1;
            && q[n].flag == a[n].flag
            && Represents(q[n := q[n].(flag := true)], a[n := a[n].(flag := true)])
  {
  }

  /** What the method needs of the invariant before, and what it has to leave behind. */
  lemma AckResult(f: Flight, buf: nat, ack: int)
    requires Inv(f, buf)
    ensures f.lastack <= f.nxt && Ascending(f.unacked, f.lastack) && Ascending(f.unsent, f.lastack)
    ensures f.queueLen == Pbufs(f.unacked) + Pbufs(f.unsent)
    ensures var g := Acknowledge(f, ack);
            && Inv(g, buf) && g.nxt == f.nxt
            && g.lastack == (if AcksNew(f, ack) then ack else f.lastack)
            && g.unacked == (if AcksNew(f, ack) then DropAcked(f.unacked, ack) else f.unacked)
            && g.unsent == (if ack <= f.nxt then DropAcked(f.unsent, ack) else f.unsent)
            && g.queueLen == Pbufs(g.unacked) + Pbufs(g.unsent)
            && g.sndBuf + DataBytes(g.unacked) + DataBytes(g.unsent) ==
               f.sndBuf + DataBytes(f.unacked) + DataBytes(f.unsent)
  {
    var k, j := AcknowledgeExact(f, buf, ack);
  }

  lemma NextNumber(a: int)
    ensures Add32(Wrap(a), 1) == Wrap(a + 1)
  {
    WrapSum(a, 1);
  }
}
