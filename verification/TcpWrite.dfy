/** What tcp_write queues, over unbounded stream positions: bytes at the end of the last unsent segment, then new segments
    of at most `mss` bytes. */
module TcpWrite {
  import opened Common
  import opened Words
  import opened TcpAck
  import opened TcpClose

  /** TCP_SNDQUEUELEN_OVERFLOW */
  const QUEUE_OVERFLOW: nat := 0xffff - 3

  /** `oversize` is unsent_oversize, `limit` is TCP_SND_QUEUELEN.  For the piece of data that starts at a position,
      `alloc` says whether memory is found for it and `clen` how many pbufs it takes. */
  datatype Request = Request(len: u16, mss: u16, oversize: nat, limit: nat, alloc: nat -> bool, clen: nat -> nat)

  /** Phase 1: bytes that fit the spare room of the last pbuf, when the last unsent segment has `last` bytes. */
  function Spare(last: nat, w: Request): nat
    requires last <= w.mss
  {
    Min(w.mss - last, Min(w.oversize, w.len))
  }

  /** Phase 2: bytes in a new pbuf of the same segment. */
  function Chained(last: nat, w: Request): nat
    requires last <= w.mss
  {
    if last > 0 then Min(w.mss - last, w.len) - Spare(last, w) else 0
  }

  function Last(f: Flight): nat
    requires f.unsent != []
  {
    f.unsent[|f.unsent| - 1].len
  }

  /** The last unsent segment is no longer than a segment may be. */
  predicate LastFits(f: Flight, w: Request) { w.mss > 0 && (f.unsent != [] ==> Last(f) <= w.mss) }

  /** How many bytes go to the last unsent segment. */
  function OnLast(f: Flight, w: Request): nat
    requires LastFits(f, w)
  {
    if f.unsent == [] then 0 else Spare(Last(f), w) + Chained(Last(f), w)
  }

  function LastPbufs(f: Flight, w: Request): nat
    requires LastFits(f, w)
  {
    if f.unsent == [] || Chained(Last(f), w) == 0 then 0 else w.clen(Spare(Last(f), w))
  }

  /** Phase 3: the segments for the data from `pos` on. */
  function Pieces(lbb: int, pos: nat, w: Request): seq<Sent>
    requires w.mss > 0
    decreases w.len - pos
  {
    if pos >= w.len then []
    else
      var n := Min(w.mss, w.len - pos);
      [Sent(lbb + pos, n, false, w.clen(pos))] + Pieces(lbb, pos + n, w)
  }

  /** New segments at the end of the unsent queue. */
  function Append(f: Flight, ps: seq<Sent>): Flight
    requires DataBytes(ps) <= f.sndBuf
  {
    f.(unsent := f.unsent + ps, sndBuf := f.sndBuf - DataBytes(ps), queueLen := f.queueLen + Pbufs(ps))
  }

  function Written(f: Flight, lbb: int, w: Request): Flight
    requires LastFits(f, w) && w.len <= f.sndBuf
  {
    var ps := Pieces(lbb, OnLast(f, w), w);
    PiecesTotal(lbb, OnLast(f, w), w);
    var g := if OnLast(f, w) > 0 then ExtendLast(f, OnLast(f, w), LastPbufs(f, w)) else f;
    Append(g, ps)
  }

  lemma {:induction false} PiecesTotal(lbb: int, pos: nat, w: Request)
    requires w.mss > 0 && pos <= w.len
    ensures DataBytes(Pieces(lbb, pos, w)) == w.len - pos
    decreases w.len - pos
  {
    if pos < w.len {
      PiecesTotal(lbb, pos + Min(w.mss, w.len - pos), w);
    }
  }

  /** Memory is found for every piece, and the pbufs queued do not exceed the limit when a segment is made. */
  ghost predicate Enough(f: Flight, lbb: int, w: Request)
    requires LastFits(f, w)
  {
    || w.len == 0
    || (&& w.len <= f.sndBuf && f.queueLen < w.limit && f.queueLen <= QUEUE_OVERFLOW
        && (f.unsent != [] && Chained(Last(f), w) > 0 ==> w.alloc(Spare(Last(f), w)))
        && PiecesFound(lbb, OnLast(f, w), w)
        && (OnLast(f, w) < w.len ==> Written(f, lbb, w).queueLen <= Min(w.limit, QUEUE_OVERFLOW)))
  }

  ghost predicate PiecesFound(lbb: int, pos: nat, w: Request)
    requires w.mss > 0
  {
    forall s :: s in Pieces(lbb, pos, w) ==> s.start >= lbb && w.alloc(s.start - lbb)
  }

  /** A last unsent segment with data is filled before a new one is made. */
  lemma FillsLast(f: Flight, w: Request)
    requires LastFits(f, w) && f.unsent != []
    ensures OnLast(f, w) <= Min(w.mss - Last(f), w.len)
    ensures Last(f) > 0 ==> OnLast(f, w) == Min(w.mss - Last(f), w.len)
    ensures Last(f) > 0 && OnLast(f, w) < w.len ==> Last(f) + OnLast(f, w) == w.mss
  {
  }

  /** Every new segment but the last is full. */
  lemma {:induction false} PiecesFull(lbb: int, pos: nat, w: Request, i: nat)
    requires w.mss > 0 && i < |Pieces(lbb, pos, w)|
    ensures Pieces(lbb, pos, w)[i].len == if i + 1 < |Pieces(lbb, pos, w)| then w.mss else w.len - pos - i * w.mss
    ensures Pieces(lbb, pos, w)[i].start == lbb + pos + i * w.mss
    ensures Pieces(lbb, pos, w)[i].pbufs == w.clen(pos + i * w.mss)
    decreases w.len - pos
  {
    var n := Min(w.mss, w.len - pos);
    var rest := Pieces(lbb, pos + n, w);
    if i > 0 {
      PiecesFull(lbb, pos + n, w, i - 1);
      assert i * w.mss == (i - 1) * w.mss + w.mss;
    }
  }

  /** Spare room at the end of the last unsent segment is used before anything is allocated. */
  lemma SpareFirst(f: Flight, lbb: int, w: Request)
    requires LastFits(f, w) && f.unsent != [] && w.len <= f.sndBuf
    ensures w.oversize < Min(w.mss - Last(f), w.len) ==> Spare(Last(f), w) == w.oversize
    ensures w.len <= Min(w.mss - Last(f), w.oversize) ==>
              && |Written(f, lbb, w).unsent| == |f.unsent| && Written(f, lbb, w).queueLen == f.queueLen
              && (Enough(f, lbb, w) <==> w.len == 0 || (f.queueLen < w.limit && f.queueLen <= QUEUE_OVERFLOW))
  {
    OnLastFits(f, w);
  }

  /** The queue length counts every pbuf that is allocated. */
  lemma PbufsCounted(f: Flight, lbb: int, w: Request)
    requires LastFits(f, w) && w.len <= f.sndBuf
    ensures Written(f, lbb, w).queueLen ==
            f.queueLen + Pbufs(Pieces(lbb, OnLast(f, w), w)) +
            if f.unsent != [] && Chained(Last(f), w) > 0 then w.clen(Spare(Last(f), w)) else 0
  {
    OnLastFits(f, w);
  }

  /** Data is accepted only within the send buffer and, when a segment is made, within the queue limit. */
  lemma AcceptedWithinLimits(f: Flight, lbb: int, w: Request)
    requires LastFits(f, w) && Enough(f, lbb, w)
    ensures w.len <= f.sndBuf
    ensures |Written(f, lbb, w).unsent| > |f.unsent| ==> Written(f, lbb, w).queueLen <= Min(w.limit, QUEUE_OVERFLOW)
  {
    OnLastFits(f, w);
  }

  /** With memory for everything, nothing but the send buffer and the queue limit refuses data. */
  lemma PlentyIsEnough(f: Flight, lbb: int, w: Request)
    requires LastFits(f, w) && (forall i :: w.alloc(i))
    ensures Enough(f, lbb, w) <==>
            || w.len == 0
            || (&& w.len <= f.sndBuf && f.queueLen < w.limit && f.queueLen <= QUEUE_OVERFLOW
                && (|Written(f, lbb, w).unsent| > |f.unsent| ==>
                      Written(f, lbb, w).queueLen <= Min(w.limit, QUEUE_OVERFLOW)))
  {
    OnLastFits(f, w);
    PiecesAbove(lbb, OnLast(f, w), w);
    if OnLast(f, w) < w.len {
      assert Pieces(lbb, OnLast(f, w), w) != [];
    }
  }

  lemma {:induction false} PiecesAbove(lbb: int, pos: nat, w: Request)
    requires w.mss > 0
    ensures forall s :: s in Pieces(lbb, pos, w) ==> s.start >= lbb
    decreases w.len - pos
  {
    if pos < w.len {
      PiecesAbove(lbb, pos + Min(w.mss, w.len - pos), w);
    }
  }

  // ----- As moves of the connection -----

  function Writes(ps: seq<Sent>): seq<Move> { if ps == [] then [] else [Write(ps[0])] + Writes(ps[1..]) }

  function Moves(f: Flight, lbb: int, w: Request): seq<Move>
    requires LastFits(f, w)
  {
    (if OnLast(f, w) > 0 then [Extend(OnLast(f, w), LastPbufs(f, w))] else []) + Writes(Pieces(lbb, OnLast(f, w), w))
  }

  /** Segments with data that follow one another from `lbb` on. */
  ghost predicate Consecutive(ps: seq<Sent>, lbb: int) {
    ps != [] ==> ps[0].start == lbb && ps[0].len > 0 && !ps[0].flag && Consecutive(ps[1..], lbb + ps[0].len)
  }

  lemma {:induction false} PiecesFollow(lbb: int, pos: nat, w: Request)
    requires w.mss > 0
    ensures Consecutive(Pieces(lbb, pos, w), lbb + pos)
    decreases w.len - pos
  {
    if pos < w.len {
      PiecesFollow(lbb, pos + Min(w.mss, w.len - pos), w);
    }
  }

  lemma AppendFirst(f: Flight, ps: seq<Sent>)
    requires ps != [] && DataBytes(ps) <= f.sndBuf
    ensures ps[0].len <= f.sndBuf && DataBytes(ps[1..]) <= TcpAck.Step(f, Queue(ps[0])).sndBuf
    ensures Append(TcpAck.Step(f, Queue(ps[0])), ps[1..]) == Append(f, ps)
  {
    FirstOf(ps);
    hide DataBytes, Pbufs;
    assert f.unsent + [ps[0]] + ps[1..] == f.unsent + ps;
  }

  lemma FirstOf(ps: seq<Sent>)
    requires ps != []
    ensures DataBytes(ps) == ps[0].len + DataBytes(ps[1..]) && Pbufs(ps) == ps[0].pbufs + Pbufs(ps[1..])
  {
  }

  lemma AppendNone(f: Flight)
    ensures Append(f, []) == f
  {
    assert f.unsent + [] == f.unsent;
  }

  lemma {:induction false} WritesRun(c: Conn, ps: seq<Sent>)
    requires !c.closed && c.state.Writable() && Consecutive(ps, c.lbb) && DataBytes(ps) <= c.flight.sndBuf
    ensures TcpClose.LegalRun(c, Writes(ps))
    ensures TcpClose.Run(c, Writes(ps)) == c.(flight := Append(c.flight, ps), lbb := c.lbb + DataBytes(ps))
    decreases |ps|
  {
    hide Append, TcpAck.Step, Pbufs;
    if ps == [] {
      AppendNone(c.flight);
    } else {
      AppendFirst(c.flight, ps);
      WritesRun(TcpClose.Step(c, Write(ps[0])), ps[1..]);
      assert Writes(ps)[1..] == Writes(ps[1..]);
    }
  }

  /** tcp_write is a run of moves: all of the data is queued, behind what was queued before. */
  lemma WriteRun(c: Conn, w: Request)
    requires !c.closed && c.state.Writable() && LastFits(c.flight, w) && w.len <= c.flight.sndBuf
    ensures var ms := Moves(c.flight, c.lbb, w);
            && TcpClose.LegalRun(c, ms)
            && TcpClose.Run(c, ms) == c.(flight := Written(c.flight, c.lbb, w), lbb := c.lbb + w.len)
  {
    hide Pieces, Append, Writes, Spare, Chained, LastPbufs;
    var n := OnLast(c.flight, w);
    var ps := Pieces(c.lbb, n, w);
    var ws := Writes(ps);
    OnLastFits(c.flight, w);
    PiecesTotal(c.lbb, n, w);
    PiecesFollow(c.lbb, n, w);
    if n > 0 {
      var m := Extend(n, LastPbufs(c.flight, w));
      WritesRun(TcpClose.Step(c, m), ps);
      assert ([m] + ws)[1..] == ws;
    } else {
      WritesRun(c, ps);
      assert [] + ws == ws;
    }
  }

  lemma OnLastFits(f: Flight, w: Request)
    requires LastFits(f, w)
    ensures OnLast(f, w) <= w.len && (OnLast(f, w) > 0 ==> f.unsent != [])
  {
  }

  /** So it keeps the queues accounted for, and what is queued touches without gaps up to the new end. */
  lemma WrittenQueues(f: Flight, lbb: int, buf: nat, w: Request)
    requires Queues(f, lbb, buf) && Compact(Queued(f), f.lastack, false, lbb) && LastFits(f, w) && w.len <= f.sndBuf
    ensures Queues(Written(f, lbb, w), lbb + w.len, buf)
  {
    hide Queues, Compact, Queued, Written, Moves;
    var c := Established(0, 0).(flight := f, lbb := lbb);
    WriteRun(c, w);
    TcpClose.RunKeepsInv(c, buf, Moves(f, lbb, w));
  }

  ghost predicate AllFit(q: seq<Sent>, mss: nat) { forall s :: s in q ==> s.len <= mss }

  lemma {:induction false} PiecesFit(lbb: int, pos: nat, w: Request)
    requires w.mss > 0
    ensures AllFit(Pieces(lbb, pos, w), w.mss)
    decreases w.len - pos
  {
    if pos < w.len {
      PiecesFit(lbb, pos + Min(w.mss, w.len - pos), w);
    }
  }

  /** No segment grows beyond `mss`, so the next call finds room at the end of the last one again. */
  lemma WrittenFits(f: Flight, lbb: int, w: Request)
    requires LastFits(f, w) && w.len <= f.sndBuf && AllFit(f.unsent, w.mss)
    ensures AllFit(Written(f, lbb, w).unsent, w.mss)
  {
    PiecesFit(lbb, OnLast(f, w), w);
    if OnLast(f, w) > 0 {
      var q := ExtendLast(f, OnLast(f, w), LastPbufs(f, w)).unsent;
      forall s | s in q ensures s.len <= w.mss {
        var i :| 0 <= i < |q| && q[i] == s;
        assert i < |q| - 1 ==> f.unsent[i] in f.unsent;
      }
    }
  }
}
