/** `tcp_receive` on 32-bit sequence numbers.

    The queue operations with every comparison the signed 32-bit one and
    every length a 16-bit word.  Ghost parameters give the positions that the
    numbers stand for, and each method is proved to compute what
    `TcpReassembly` prescribes.  `TcpPcb` holds the fields they work on.
 */
module TcpReceive {
  import opened Words
  import opened TcpReassembly

  /** struct tcp_seg: header sequence number, length field, payload and FIN flag. */
  datatype TcpSeg = TcpSeg(seqno: u32, len: u16, p: seq<byte>, fin: bool)

  /** TCP_TCPLEN */
  function TcpLen(c: TcpSeg): int { c.len + if c.fin then 1 else 0 }

  /** pbuf_realloc on flat data: only ever shrinks. */
  function Realloc(p: seq<byte>, n: u16): seq<byte> { if n < |p| then p[..n] else p }

  /** Shorten a segment and its pbuf chain to `n` bytes. */
  function Resize(c: TcpSeg, n: u16): TcpSeg { c.(len := n, p := Realloc(c.p, n)) }

  // ----- Representation -----

  /** `c` stands for the segment `s` of a connection whose position 0 has sequence number `base`. */
  ghost predicate Represents(c: TcpSeg, s: Seg, base: int) {
    c.seqno == Wrap(base + s.start) && c.len == |s.data| && c.p == s.data && c.fin == s.fin
  }

  ghost predicate RepresentsAll(cs: seq<TcpSeg>, q: seq<Seg>, base: int) {
    |cs| == |q| && forall i :: 0 <= i < |q| ==> Represents(cs[i], q[i], base)
  }

  lemma RepresentsJoin(cs: seq<TcpSeg>, q: seq<Seg>, ds: seq<TcpSeg>, r: seq<Seg>, base: int)
    requires RepresentsAll(cs, q, base) && RepresentsAll(ds, r, base)
    ensures RepresentsAll(cs + ds, q + r, base)
  {
  }

  /** Live sequence numbers are close enough to `next` for 32-bit comparison. */
  ghost predicate Near(s: Seg, next: int) {
    |s.data| < MAXSEG && -0x4000_0000 < s.start - next < 0x3fff_0000
  }

  ghost predicate NearAll(q: seq<Seg>, next: int) { forall t :: t in q ==> Near(t, next) }

  lemma NearQueue(q: seq<Seg>, next: int, stream: seq<byte>)
    requires Chain(q, next + 1, stream) && AllShort(q, next + TWO16, MAXSEG)
    ensures NearAll(q, next)
  {
    ChainBounds(q, next + 1, stream);
    forall t | t in q ensures Near(t, next) {
      assert Short(t, next + TWO16, MAXSEG);
    }
  }

  lemma PositionsRefine(a: int, b: int, base: int)
    requires -TWO31 < a - b < TWO31
    ensures SeqLt(Wrap(base + a), Wrap(base + b)) <==> a < b
    ensures SeqLeq(Wrap(base + a), Wrap(base + b)) <==> a <= b
    ensures SeqGt(Wrap(base + a), Wrap(base + b)) <==> a > b
    ensures SeqGeq(Wrap(base + a), Wrap(base + b)) <==> a >= b
    ensures Wrap(base + a) == Wrap(base + b) <==> a == b
    ensures b <= a ==> Sub32(Wrap(base + a), Wrap(base + b)) == a - b
  {
    ComparisonsRefine(base + a, base + b);
    WrapSum(base + a, Wrap(base + b));
    WrapSum(base + a, base + b);
  }

  // ----- Sequence number arithmetic at known positions -----

  method AddTo(a: u32, k: int, ghost pa: int, ghost base: int) returns (r: u32)
    requires a == Wrap(base + pa)
    ensures r == Wrap(base + pa + k) == Wrap(base + (pa + k))
  {
    WrapSum(base + pa, k);
    r := Add32(a, k);
  }

  /** TCP_SEQ_GEQ, the negation of TCP_SEQ_LT. */
  method AtOrAfter(a: u32, b: u32, ghost pa: int, ghost pb: int, ghost base: int) returns (r: bool)
    requires a == Wrap(base + pa) && b == Wrap(base + pb) && -TWO31 < pa - pb < TWO31
    ensures r <==> pa >= pb
  {
    PositionsRefine(pa, pb, base);
    r := SeqGeq(a, b);
  }

  method SameNumber(a: u32, b: u32, ghost pa: int, ghost pb: int, ghost base: int) returns (r: bool)
    requires a == Wrap(base + pa) && b == Wrap(base + pb) && -TWO31 < pa - pb < TWO31
    ensures r <==> pa == pb
  {
    PositionsRefine(pa, pb, base);
    r := a == b;
  }

  /** `a - b` for positions in that order */
  method Distance(a: u32, b: u32, ghost pa: int, ghost pb: int, ghost base: int) returns (r: u32)
    requires a == Wrap(base + pa) && b == Wrap(base + pb) && 0 <= pa - pb < TWO31
    ensures r == pa - pb
  {
    PositionsRefine(pa, pb, base);
    r := Sub32(a, b);
  }

  // ----- Comparisons of live segments -----

  /** The newcomer reaches the end of the text of `d`. */
  method ReachesEndOf(seqno: u32, reach: u16, d: TcpSeg, ghost s: Seg, ghost t: Seg, ghost next: int, ghost base: int)
    returns (b: bool)
    requires seqno == Wrap(base + s.start) && Represents(d, t, base) && Near(s, next) && Near(t, next)
    ensures b <==> s.start + reach >= t.End()
  {
    WrapSum(base + s.start, reach);
    WrapSum(base + t.start, d.len);
    PositionsRefine(s.start + reach, t.End(), base);
    b := SeqGeq(Add32(seqno, reach), Add32(d.seqno, d.len));
  }

  /** The newcomer reaches beyond the start of `d`. */
  method ReachesInto(seqno: u32, reach: u16, d: TcpSeg, ghost s: Seg, ghost t: Seg, ghost next: int, ghost base: int)
    returns (b: bool)
    requires seqno == Wrap(base + s.start) && Represents(d, t, base) && Near(s, next) && Near(t, next)
    ensures b <==> s.start + reach > t.start
  {
    WrapSum(base + s.start, reach);
    PositionsRefine(s.start + reach, t.start, base);
    b := SeqGt(Add32(seqno, reach), d.seqno);
  }

  /** Shorten `c` to end where `d` starts, with a 16-bit length. */
  method CutAtStartOf(c: TcpSeg, d: TcpSeg, ghost s: Seg, ghost t: Seg, ghost next: int, ghost base: int)
    returns (r: TcpSeg)
    requires Represents(c, s, base) && Represents(d, t, base) && Near(s, next) && Near(t, next)
    requires s.start < t.start < s.End()
    ensures Represents(r, s.CutAt(t.start), base)
  {
    PositionsRefine(t.start, s.start, base);
    r := Resize(c, Wrap16(Sub32(d.seqno, c.seqno)));
  }

  /** The loop common to both callers: delete the queued segments `inseg`
      covers, inherit their FIN, and trim it where it meets the first survivor.
      The C code measures `inseg` by its length when it queues it and by its
      TCP length when it delivers it; without FIN the two agree. */
  method AbsorbCovered(inseg: TcpSeg, ooseq: seq<TcpSeg>,
                       ghost s: Seg, ghost q: seq<Seg>, ghost next: int, ghost base: int, ghost stream: seq<byte>)
    returns (c: TcpSeg, nx: seq<TcpSeg>)
    requires Represents(inseg, s, base) && RepresentsAll(ooseq, q, base)
    requires Near(s, next) && NearAll(q, next)
    requires Mergeable(s, q, stream) && !s.fin
    ensures Represents(c, Merge(s, q).0, base) && RepresentsAll(nx, Merge(s, q).1, base)
  {
    c, nx := inseg, ooseq;
    var tcplen := TcpLen(c);
    ghost var gs, gq := s, q;
    AbsorbKeepsChain(s, q, stream);
    while nx != []
      invariant Represents(c, gs, base) && RepresentsAll(nx, gq, base) && tcplen == TcpLen(c)
      invariant Near(gs, next) && NearAll(gq, next)
      invariant Chain(gq, s.start, stream) && (gs.fin ==> gq == [])
      invariant Absorb(gs, gq) == Absorb(s, q)
      decreases |nx|
    {
      var covered := ReachesEndOf(c.seqno, tcplen, nx[0], gs, gq[0], next, base);
      if !covered {
        break;
      }
      if nx[0].fin {
        c, gs := c.(fin := true), gs.(fin := true);
        tcplen := TcpLen(c);
      }
      nx, gq := nx[1..], gq[1..];
    }
    assert Absorb(s, q) == (gs, gq);
    if nx != [] {
      var overlaps := ReachesInto(c.seqno, tcplen, nx[0], gs, gq[0], next, base);
      if overlaps {
        c := CutAtStartOf(c, nx[0], gs, gq[0], next, base);
      }
    }
  }

  // ----- tcp_oos_insert_segment -----

  /** Put `cseg` in front of the queue `next`; with FIN it replaces the queue. */
  method OosInsertSegment(cseg: TcpSeg, next: seq<TcpSeg>,
                          ghost s: Seg, ghost q: seq<Seg>, ghost rcvNext: int, ghost base: int,
                          ghost stream: seq<byte>)
    returns (out: seq<TcpSeg>)
    requires Represents(cseg, s, base) && RepresentsAll(next, q, base)
    requires Near(s, rcvNext) && NearAll(q, rcvNext)
    requires Mergeable(s, q, stream)
    ensures RepresentsAll(out, Insert(s, q), base)
  {
    if cseg.fin {
      out := [cseg];
    } else {
      var c, nx := AbsorbCovered(cseg, next, s, q, rcvNext, base, stream);
      out := [c] + nx;
    }
  }

  // ----- Placing an out-of-sequence segment -----

  /** The newcomer starts strictly between two queued segments. */
  method LiesBetween(c: TcpSeg, prev: TcpSeg, nx: TcpSeg,
                     ghost s: Seg, ghost p: Seg, ghost t: Seg, ghost next: int, ghost base: int)
    returns (b: bool)
    requires Represents(c, s, base) && Represents(prev, p, base) && Represents(nx, t, base)
    requires Near(s, next) && Near(p, next) && Near(t, next)
    ensures b <==> p.start < s.start < t.start
  {
    WrapSum(base + p.start, 1);
    WrapSum(base + t.start, 1);
    PositionsRefine(s.start, p.start + 1, base);
    PositionsRefine(s.start, t.start - 1, base);
    b := SeqBetween(c.seqno, Add32(prev.seqno, 1), Sub32(nx.seqno, 1));
  }

  /** How the starts of two segments compare: -1, 0 or 1. */
  method CompareStarts(c: TcpSeg, d: TcpSeg, ghost s: Seg, ghost t: Seg, ghost next: int, ghost base: int)
    returns (sign: int)
    requires Represents(c, s, base) && Represents(d, t, base) && Near(s, next) && Near(t, next)
    ensures sign < 0 <==> s.start < t.start
    ensures sign > 0 <==> s.start > t.start
  {
    PositionsRefine(s.start, t.start, base);
    sign := if c.seqno == d.seqno then 0 else if SeqLt(c.seqno, d.seqno) then -1 else if SeqGt(c.seqno, d.seqno) then 1 else 0;
  }

  /** The segment, FIN included, ends beyond the right edge of the window. */
  method Overruns(c: TcpSeg, rcvNxt: u32, rcvWnd: u16, ghost s: Seg, ghost next: int, ghost base: int)
    returns (b: bool)
    requires Represents(c, s, base) && Near(s, next) && rcvNxt == Wrap(base + next)
    ensures b <==> s.TcpEnd() > next + rcvWnd
  {
    WrapSum(base + s.start, TcpLen(c));
    WrapSum(base + next, rcvWnd);
    PositionsRefine(s.TcpEnd(), next + rcvWnd, base);
    b := SeqGt(Add32(c.seqno, TcpLen(c)), Add32(rcvNxt, rcvWnd));
  }

  /** The room from the start of the segment to the right edge, in 16 bits. */
  method RoomAt(c: TcpSeg, rcvNxt: u32, rcvWnd: u16, ghost s: Seg, ghost next: int, ghost base: int)
    returns (room: u16)
    requires Represents(c, s, base) && Near(s, next) && rcvNxt == Wrap(base + next)
    requires next <= s.start < next + rcvWnd
    ensures room == next + rcvWnd - s.start
  {
    var edge := AddTo(rcvNxt, rcvWnd, next, base);
    var d := Distance(edge, c.seqno, next + rcvWnd, s.start, base);
    room := Wrap16(d);
  }

  /** Trim a segment that overruns the right edge `rcv_nxt + rcv_wnd`. */
  method ClipToWindow(c: TcpSeg, rcvNxt: u32, rcvWnd: u16, ghost s: Seg, ghost next: int, ghost base: int)
    returns (r: TcpSeg)
    requires Represents(c, s, base) && Near(s, next) && rcvNxt == Wrap(base + next)
    requires next <= s.start < next + rcvWnd
    ensures Represents(r, ClipToEdge(s, next + rcvWnd), base)
  {
    r := c;
    var over := Overruns(c, rcvNxt, rcvWnd, s, next, base);
    if over {
      var room := RoomAt(c, rcvNxt, rcvWnd, s, next, base);
      r := Resize(c.(fin := false), room);
    }
  }

  /** A nonempty queue and an out-of-sequence segment inside the window. */
  ghost predicate Placing(ooseq: seq<TcpSeg>, inseg: TcpSeg, rcvNxt: u32, rcvWnd: u16,
                          q: seq<Seg>, s: Seg, next: int, base: int, stream: seq<byte>) {
    && RepresentsAll(ooseq, q, base) && Represents(inseg, s, base) && rcvNxt == Wrap(base + next)
    && NearAll(q, next) && Near(s, next)
    && q != [] && Chain(q, next + 1, stream) && FromStream(s, stream)
    && next < s.start < next + rcvWnd
  }

  /** The part of the queue from `ooseq[i]` on can be merged with a newcomer that precedes or covers it. */
  lemma SuffixReady(ooseq: seq<TcpSeg>, inseg: TcpSeg, rcvNxt: u32, rcvWnd: u16, i: nat,
                    q: seq<Seg>, s: Seg, next: int, base: int, stream: seq<byte>)
    requires Placing(ooseq, inseg, rcvNxt, rcvWnd, q, s, next, base, stream) && i < |q|
    requires s.start < q[i].start || (s.start == q[i].start && |s.data| > |q[i].data|)
    ensures RepresentsAll(ooseq[i..], q[i..], base) && RepresentsAll(ooseq[..i], q[..i], base)
    ensures NearAll(q[i..], next) && Mergeable(s, q[i..], stream)
  {
    ChainDrop(q, next + 1, stream, i);
    assert forall t :: t in q[i..] ==> t in q;
  }

  /** The newcomer starts where `ooseq[i]` does: keep the longer one. */
  method PlaceAtEqual(ooseq: seq<TcpSeg>, inseg: TcpSeg, rcvNxt: u32, rcvWnd: u16, i: nat,
                      ghost q: seq<Seg>, ghost s: Seg, ghost next: int, ghost base: int, ghost stream: seq<byte>)
    returns (out: seq<TcpSeg>)
    requires Placing(ooseq, inseg, rcvNxt, rcvWnd, q, s, next, base, stream) && i < |q|
    requires s.start == q[i].start
    ensures RepresentsAll(out, Walk(q, s, next + rcvWnd), base)
  {
    WalkAtEqual(q, s, next + rcvWnd, next + 1, stream, i);
    if inseg.len <= ooseq[i].len {
      return ooseq;
    }
    SuffixReady(ooseq, inseg, rcvNxt, rcvWnd, i, q, s, next, base, stream);
    var tail := OosInsertSegment(inseg, ooseq[i..], s, q[i..], next, base, stream);
    RepresentsJoin(ooseq[..i], q[..i], tail, Insert(s, q[i..]), base);
    out := ooseq[..i] + tail;
  }

  /** Insert between `ooseq[i - 1]`, trimmed if it overlaps, and `ooseq[i]`. */
  method PlaceBetween(ooseq: seq<TcpSeg>, inseg: TcpSeg, rcvNxt: u32, rcvWnd: u16, i: nat,
                      ghost q: seq<Seg>, ghost s: Seg, ghost next: int, ghost base: int, ghost stream: seq<byte>)
    returns (out: seq<TcpSeg>)
    requires Placing(ooseq, inseg, rcvNxt, rcvWnd, q, s, next, base, stream) && i < |q|
    requires 0 < i && q[i - 1].start < s.start < q[i].start
    ensures RepresentsAll(out, Walk(q, s, next + rcvWnd), base)
  {
    hide Walk, Insert, Wrap, FromStream;
    WalkBetween(q, s, next + rcvWnd, next + 1, stream, i);
    SuffixReady(ooseq, inseg, rcvNxt, rcvWnd, i, q, s, next, base, stream);
    var prev := ooseq[i - 1];
    var overlaps := ReachesInto(prev.seqno, prev.len, inseg, q[i - 1], s, next, base);
    if overlaps {
      prev := CutAtStartOf(prev, inseg, q[i - 1], s, next, base);
    }
    var tail := OosInsertSegment(inseg, ooseq[i..], s, q[i..], next, base, stream);
    RepresentsJoin(ooseq[..i - 1], q[..i - 1], [prev], [q[i - 1].CutAt(s.start)], base);
    RepresentsJoin(ooseq[..i - 1] + [prev], q[..i - 1] + [q[i - 1].CutAt(s.start)], tail, Insert(s, q[i..]), base);
    out := ooseq[..i - 1] + [prev] + tail;
  }

  /** Append behind the last segment, unless that one carries FIN; trim both as needed. */
  method PlaceAtEnd(ooseq: seq<TcpSeg>, inseg: TcpSeg, rcvNxt: u32, rcvWnd: u16, i: nat,
                      ghost q: seq<Seg>, ghost s: Seg, ghost next: int, ghost base: int, ghost stream: seq<byte>)
    returns (out: seq<TcpSeg>)
    requires Placing(ooseq, inseg, rcvNxt, rcvWnd, q, s, next, base, stream) && i < |q|
    requires i == |q| - 1 && q[i].start < s.start
    ensures RepresentsAll(out, Walk(q, s, next + rcvWnd), base)
  {
    WalkAtEnd(q, s, next + rcvWnd, next + 1, stream, i);
    var last := ooseq[i];
    if last.fin {
      return ooseq;
    }
    var overlaps := ReachesInto(last.seqno, last.len, inseg, q[i], s, next, base);
    if overlaps {
      last := CutAtStartOf(last, inseg, q[i], s, next, base);
    }
    var cseg := ClipToWindow(inseg, rcvNxt, rcvWnd, s, next, base);
    RepresentsJoin(ooseq[..i], q[..i], [last, cseg], [q[i].CutAt(s.start), ClipToEdge(s, next + rcvWnd)], base);
    out := ooseq[..i] + [last, cseg];
  }

  /** The walk over a nonempty out-of-sequence queue once a queue entry has been allocated. */
  method PlaceOutOfSequence(ooseq: seq<TcpSeg>, inseg: TcpSeg, rcvNxt: u32, rcvWnd: u16,
                            ghost q: seq<Seg>, ghost s: Seg, ghost next: int, ghost base: int,
                            ghost stream: seq<byte>)
    returns (out: seq<TcpSeg>)
    requires Placing(ooseq, inseg, rcvNxt, rcvWnd, q, s, next, base, stream)
    ensures RepresentsAll(out, Walk(q, s, next + rcvWnd), base)
  {
    var i := 0;
    while true
      invariant 0 <= i < |ooseq|
      invariant i > 0 ==> q[i - 1].start < s.start
      decreases |ooseq| - i
    {
      var nx := ooseq[i];
      var order := CompareStarts(inseg, nx, s, q[i], next, base);
      if order == 0 {
        out := PlaceAtEqual(ooseq, inseg, rcvNxt, rcvWnd, i, q, s, next, base, stream);
        return;
      }
      if i == 0 {
        if order < 0 {
          out := OosInsertSegment(inseg, ooseq, s, q, next, base, stream);
          return;
        }
      } else {
        var between := LiesBetween(inseg, ooseq[i - 1], nx, s, q[i - 1], q[i], next, base);
        if between {
          out := PlaceBetween(ooseq, inseg, rcvNxt, rcvWnd, i, q, s, next, base, stream);
          return;
        }
      }
      if i + 1 == |ooseq| && order > 0 {
        out := PlaceAtEnd(ooseq, inseg, rcvNxt, rcvWnd, i, q, s, next, base, stream);
        return;
      }
      i := i + 1;
    }
  }
}
