/** Reassembly of an incoming TCP byte stream, on unbounded positions.

    This is the specification side of `tcp_receive` and
    `tcp_oos_insert_segment`.  A position counts sequence numbers from the
    first data byte of the connection; a FIN occupies the position after the
    last byte.  `TcpReceive` runs the same algorithm on 32-bit sequence
    numbers and is proved to compute exactly these functions.
 */
module TcpReassembly {
  import opened Common
  import opened Words

  /** A received segment: `data` starts at position `start`. */
  datatype Seg = Seg(start: int, data: seq<byte>, fin: bool) {
    function Len(): int { |data| + if fin then 1 else 0 }
    function End(): int { start + |data| }
    function TcpEnd(): int { start + Len() }

    /** pbuf_realloc: cut the data at position `e`; a longer cut changes nothing. */
    function CutAt(e: int): Seg {
      if start <= e <= End() then this.(data := data[..e - start]) else this
    }
  }

  /** Receiver state: `delivered` is everything handed to the application. */
  datatype Rcv = Rcv(next: int, wnd: u16, ooseq: seq<Seg>, delivered: seq<byte>, gotFin: bool)

  // ----- The algorithm -----

  /** Drop the part of `s` below `next` when `next` lies strictly inside it. */
  function TrimLeft(s: Seg, next: int): Seg {
    if s.start < next < s.TcpEnd() then
      Seg(next, s.data[next - s.start..], s.fin)
    else s
  }

  /** Cut `s` at the right edge of the window; a FIN beyond the edge is lost. */
  function ClipToEdge(s: Seg, edge: int): Seg {
    if s.TcpEnd() > edge then s.(fin := false).CutAt(edge) else s
  }

  /** Remove the queued segments that `s` covers, inheriting their FIN. */
  function Absorb(s: Seg, q: seq<Seg>): (Seg, seq<Seg>)
    decreases |q|
  {
    if q == [] || s.End() < q[0].End() then (s, q)
    else Absorb(if q[0].fin then s.(fin := true) else s, q[1..])
  }

  /** Cut `s` where the first remaining queued segment begins. */
  function TrimRight(s: Seg, q: seq<Seg>): Seg {
    if q != [] && s.End() > q[0].start then s.CutAt(q[0].start) else s
  }

  /** Merge `s` with the queue behind it: what remains of `s`, and of the queue.
      A segment with FIN replaces everything behind it. */
  function Merge(s: Seg, q: seq<Seg>): (Seg, seq<Seg>) {
    if s.fin then (s, [])
    else var (s', q') := Absorb(s, q); (TrimRight(s', q'), q')
  }

  /** tcp_oos_insert_segment: put `s` in front of `q`. */
  function Insert(s: Seg, q: seq<Seg>): seq<Seg> {
    var (t, q') := Merge(s, q); [t] + q'
  }

  /** The walk that finds the place of `s` in a nonempty queue. */
  function Walk(q: seq<Seg>, s: Seg, edge: int): seq<Seg>
    requires q != []
  {
    if s.start < q[0].start then Insert(s, q)
    else if s.start == q[0].start then
      if |s.data| > |q[0].data| then Insert(s, q) else q
    else if |q| == 1 then
      if q[0].fin then q else [q[0].CutAt(s.start), ClipToEdge(s, edge)]
    else if s.start < q[1].start then [q[0].CutAt(s.start)] + Insert(s, q[1..])
    else [q[0]] + Walk(q[1..], s, edge)
  }

  /** Queue an out-of-sequence segment. */
  function Enqueue(q: seq<Seg>, s: Seg, edge: int): seq<Seg> {
    if q == [] then [s] else Walk(q, s, edge)
  }

  /** Account for and deliver one in-sequence segment. */
  function Advance(r: Rcv, s: Seg): Rcv {
    r.(next := s.TcpEnd(), wnd := Wrap16(r.wnd - s.Len()),
       delivered := r.delivered + s.data, gotFin := r.gotFin || s.fin)
  }

  /** Deliver the queued segments that have become in-sequence. */
  function Drain(r: Rcv): Rcv
    decreases |r.ooseq|
  {
    if r.ooseq == [] || r.ooseq[0].start != r.next then r
    else Drain(Advance(r, r.ooseq[0]).(ooseq := r.ooseq[1..]))
  }

  /** Take an in-sequence segment, clipped to the window and merged with the queue. */
  function Take(r: Rcv, s: Seg): Rcv {
    var (t, q) := Merge(ClipToEdge(s, r.next + r.wnd), r.ooseq);
    Advance(r.(ooseq := q), t)
  }

  function InSequence(r: Rcv, s: Seg): Rcv { Drain(Take(r, s)) }

  /** One segment with text arrives; `alloc` says whether a queue entry could be allocated. */
  function Receive(r: Rcv, seg: Seg, alloc: bool): Rcv {
    var s := TrimLeft(seg, r.next);
    if !(r.next <= s.start < r.next + r.wnd) then r
    else if s.start == r.next then InSequence(r, s)
    else if alloc then r.(ooseq := Enqueue(r.ooseq, s, r.next + r.wnd))
    else r
  }

  // ----- Invariants -----

  /** `s` is a nonempty piece of the stream; only a piece that ends the stream may carry FIN. */
  ghost predicate FromStream(s: Seg, stream: seq<byte>) {
    && 0 <= s.start
    && s.End() <= |stream|
    && s.data == stream[s.start..s.End()]
    && (s.fin ==> s.End() == |stream|)
    && s.Len() > 0
  }

  /** Queue order: segments start at or above `lo`, in order and without overlap. */
  ghost predicate Chain(q: seq<Seg>, lo: int, stream: seq<byte>) {
    q == [] || (lo <= q[0].start && FromStream(q[0], stream) && Chain(q[1..], q[0].TcpEnd(), stream))
  }

  /** What every reachable receiver state satisfies. */
  ghost predicate Inv(r: Rcv, stream: seq<byte>) {
    && 0 <= r.next <= |stream| + 1
    && r.delivered == stream[..Min(r.next, |stream|)]
    && (r.gotFin <==> r.next == |stream| + 1)
    && Chain(r.ooseq, r.next + 1, stream)
  }

  lemma {:induction false} AbsorbKeepsChain(s: Seg, q: seq<Seg>, stream: seq<byte>)
    requires FromStream(s, stream) && !s.fin
    requires Chain(q, s.start, stream)
    requires q == [] || s.start < q[0].start || s.End() >= q[0].End()
    ensures var (s', q') := Absorb(s, q);
            && FromStream(s', stream) && s'.start == s.start && s'.data == s.data
            && (q' != [] ==> !s'.fin && s.start < q'[0].start && s.End() < q'[0].End())
            && Chain(q', s.start, stream)
            && |q'| <= |q|
  {
    if q == [] || s.End() < q[0].End() {
    } else if q[0].fin {
      var s1 := s.(fin := true);
      assert q[1..] == [];
      assert Absorb(s, q) == Absorb(s1, q[1..]) == (s1, []);
    } else {
      AbsorbKeepsChain(s, q[1..], stream);
      assert Absorb(s, q) == Absorb(s, q[1..]);
    }
  }

  lemma TrimRightFits(s: Seg, q: seq<Seg>, stream: seq<byte>)
    requires FromStream(s, stream)
    requires q != [] ==> !s.fin && s.start < q[0].start
    ensures var t := TrimRight(s, q);
            && FromStream(t, stream) && t.start == s.start && t.fin == s.fin
            && (q != [] ==> t.TcpEnd() <= q[0].start)
  {
  }

  /** The newcomer may only overlap the start of `q` if it covers the first segment. */
  ghost predicate Mergeable(s: Seg, q: seq<Seg>, stream: seq<byte>) {
    && FromStream(s, stream)
    && Chain(q, s.start, stream)
    && (q == [] || s.start < q[0].start || s.End() >= q[0].End())
  }

  lemma MergeKeepsChain(s: Seg, q: seq<Seg>, stream: seq<byte>)
    requires Mergeable(s, q, stream)
    ensures var (t, q') := Merge(s, q);
            FromStream(t, stream) && t.start == s.start && Chain(q', t.TcpEnd(), stream)
  {
    if !s.fin {
      AbsorbKeepsChain(s, q, stream);
      var (s', q') := Absorb(s, q);
      TrimRightFits(s', q', stream);
    }
  }

  lemma InsertKeepsChain(s: Seg, q: seq<Seg>, lo: int, stream: seq<byte>)
    requires Mergeable(s, q, stream) && lo <= s.start
    ensures Chain(Insert(s, q), lo, stream)
  {
    MergeKeepsChain(s, q, stream);
    var (t, q') := Merge(s, q);
    assert ([t] + q')[1..] == q';
  }

  lemma CutKeepsStream(s: Seg, e: int, stream: seq<byte>)
    requires FromStream(s, stream) && s.start < e && !s.fin
    ensures FromStream(s.CutAt(e), stream) && s.CutAt(e).TcpEnd() <= e
    ensures s.CutAt(e).start == s.start
  {
  }

  lemma ClipKeepsStream(s: Seg, edge: int, stream: seq<byte>)
    requires FromStream(s, stream) && s.start < edge
    ensures FromStream(ClipToEdge(s, edge), stream)
    ensures ClipToEdge(s, edge).start == s.start
    ensures ClipToEdge(s, edge).TcpEnd() == Min(s.TcpEnd(), edge)
  {
  }

  lemma {:induction false} WalkKeepsChain(q: seq<Seg>, s: Seg, edge: int, lo: int, stream: seq<byte>)
    requires q != [] && Chain(q, lo, stream)
    requires FromStream(s, stream) && lo <= s.start < edge
    ensures Chain(Walk(q, s, edge), lo, stream)
  {
    if s.start < q[0].start {
      InsertKeepsChain(s, q, lo, stream);
    } else if s.start == q[0].start {
      if |s.data| > |q[0].data| {
        InsertKeepsChain(s, q, lo, stream);
      }
    } else if |q| == 1 {
      if !q[0].fin {
        CutKeepsStream(q[0], s.start, stream);
        ClipKeepsStream(s, edge, stream);
        var a, b := q[0].CutAt(s.start), ClipToEdge(s, edge);
        assert [a, b][1..] == [b] && [b][1..] == [];
      }
    } else if s.start < q[1].start {
      CutKeepsStream(q[0], s.start, stream);
      var a := q[0].CutAt(s.start);
      InsertKeepsChain(s, q[1..], a.TcpEnd(), stream);
      assert ([a] + Insert(s, q[1..]))[1..] == Insert(s, q[1..]);
    } else {
      WalkKeepsChain(q[1..], s, edge, q[0].TcpEnd(), stream);
      assert ([q[0]] + Walk(q[1..], s, edge))[1..] == Walk(q[1..], s, edge);
    }
  }

  // ----- In-sequence delivery -----

  /** `Inv` while a drain is under way: the queue may start right at `next`. */
  ghost predicate Draining(r: Rcv, stream: seq<byte>) {
    && 0 <= r.next <= |stream| + 1
    && r.delivered == stream[..Min(r.next, |stream|)]
    && (r.gotFin <==> r.next == |stream| + 1)
    && Chain(r.ooseq, r.next, stream)
  }

  lemma AdvanceDelivers(r: Rcv, s: Seg, q: seq<Seg>, stream: seq<byte>)
    requires 0 <= r.next <= |stream|
    requires r.delivered == stream[..r.next] && !r.gotFin
    requires FromStream(s, stream) && s.start == r.next
    requires Chain(q, s.TcpEnd(), stream)
    ensures Draining(Advance(r, s).(ooseq := q), stream)
  {
    assert stream[..r.next] + stream[r.next..s.End()] == stream[..s.End()];
  }

  lemma {:induction false} DrainDelivers(r: Rcv, stream: seq<byte>)
    requires Draining(r, stream)
    ensures Inv(Drain(r), stream)
    ensures Drain(r).next >= r.next
    decreases |r.ooseq|
  {
    if r.ooseq != [] && r.ooseq[0].start == r.next {
      AdvanceDelivers(r, r.ooseq[0], r.ooseq[1..], stream);
      DrainDelivers(Advance(r, r.ooseq[0]).(ooseq := r.ooseq[1..]), stream);
    }
  }

  /** An in-sequence segment arrives at a receiver with room for it. */
  ghost predicate InSequenceArrival(r: Rcv, s: Seg, stream: seq<byte>) {
    Inv(r, stream) && !r.gotFin && FromStream(s, stream) && s.start == r.next && r.wnd > 0
  }

  lemma TakeDelivers(r: Rcv, s: Seg, stream: seq<byte>)
    requires InSequenceArrival(r, s, stream)
    ensures Draining(Take(r, s), stream) && Take(r, s).next > r.next
    ensures Mergeable(ClipToEdge(s, r.next + r.wnd), r.ooseq, stream)
  {
    ClipKeepsStream(s, r.next + r.wnd, stream);
    var s1 := ClipToEdge(s, r.next + r.wnd);
    MergeKeepsChain(s1, r.ooseq, stream);
    var (t, q) := Merge(s1, r.ooseq);
    AdvanceDelivers(r.(ooseq := q), t, q, stream);
  }

  lemma InSequenceDelivers(r: Rcv, s: Seg, stream: seq<byte>)
    requires InSequenceArrival(r, s, stream)
    ensures Inv(InSequence(r, s), stream)
    ensures InSequence(r, s).next > r.next
  {
    TakeDelivers(r, s, stream);
    DrainDelivers(Take(r, s), stream);
  }

  lemma TrimLeftKeepsStream(s: Seg, next: int, stream: seq<byte>)
    requires FromStream(s, stream)
    ensures FromStream(TrimLeft(s, next), stream)
    ensures TrimLeft(s, next).start >= next <==> s.TcpEnd() > next
  {
  }

  /** Every arrival keeps the reassembly invariant, whatever was lost,
      duplicated, reordered or overlapping before. */
  lemma ReceiveKeepsInv(r: Rcv, s: Seg, alloc: bool, stream: seq<byte>)
    requires Inv(r, stream) && !r.gotFin && FromStream(s, stream)
    ensures Inv(Receive(r, s, alloc), stream)
    ensures Receive(r, s, alloc).next >= r.next
  {
    TrimLeftKeepsStream(s, r.next, stream);
    var s1 := TrimLeft(s, r.next);
    var edge := r.next + r.wnd;
    if r.next <= s1.start < edge {
      if s1.start == r.next {
        InSequenceDelivers(r, s1, stream);
      } else if alloc && r.ooseq != [] {
        WalkKeepsChain(r.ooseq, s1, edge, r.next + 1, stream);
      }
    }
  }

  // ----- What the queue remembers -----

  ghost predicate Has(s: Seg, p: int) { s.start <= p < s.TcpEnd() }

  /** Position `p` is held by some queued segment. */
  ghost predicate Holds(q: seq<Seg>, p: int) { exists t :: t in q && Has(t, p) }

  /** `p` belongs to a queued segment `t` that starts before `s` and reaches beyond it:
      the walk cuts `t` at the start of `s` and loses the rest. */
  ghost predicate Overhangs(t: Seg, s: Seg, p: int) {
    t.start < s.start && !t.fin && Has(t, p) && s.TcpEnd() <= p
  }

  ghost predicate Overhang(q: seq<Seg>, s: Seg, p: int) { exists t :: t in q && Overhangs(t, s, p) }

  /** `s` repeats the queued segment `t` and adds only a FIN: the walk keeps `t`. */
  ghost predicate Repeats(t: Seg, s: Seg) { t.start == s.start && !t.fin && t.data == s.data }

  ghost predicate FinDropped(q: seq<Seg>, s: Seg, p: int) {
    s.fin && p == s.End() && exists t :: t in q && Repeats(t, s)
  }

  lemma {:induction false} ChainBounds(q: seq<Seg>, lo: int, stream: seq<byte>)
    requires Chain(q, lo, stream)
    ensures forall t :: t in q ==> lo <= t.start && FromStream(t, stream)
  {
    if q != [] {
      ChainBounds(q[1..], q[0].TcpEnd(), stream);
      assert q == [q[0]] + q[1..];
    }
  }

  lemma {:induction false} AbsorbCoverage(s: Seg, q: seq<Seg>, stream: seq<byte>, p: int)
    requires FromStream(s, stream) && !s.fin
    requires Chain(q, s.start, stream)
    ensures var (s', q') := Absorb(s, q);
            (Has(s', p) || Holds(q', p)) <==> (Has(s, p) || Holds(q, p))
  {
    if q == [] || s.End() < q[0].End() {
    } else {
      assert q == [q[0]] + q[1..];
      ConsHolds(q[0], q[1..], p);
      if q[0].fin {
        assert q[1..] == [];
        assert Absorb(s, q) == (s.(fin := true), []);
      } else {
        AbsorbCoverage(s, q[1..], stream, p);
        assert Absorb(s, q) == Absorb(s, q[1..]);
      }
    }
  }

  lemma TrimRightCoverage(s: Seg, q: seq<Seg>, p: int)
    requires q != [] ==> !s.fin && s.start < q[0].start && s.End() < q[0].End()
    ensures (Has(TrimRight(s, q), p) || Holds(q, p)) <==> (Has(s, p) || Holds(q, p))
  {
    if q != [] && Has(s, p) && !Has(TrimRight(s, q), p) {
      assert Has(q[0], p);
    }
  }

  lemma MergeCoverage(s: Seg, q: seq<Seg>, stream: seq<byte>, p: int)
    requires Mergeable(s, q, stream)
    ensures var (t, q') := Merge(s, q);
            Has(t, p) || Holds(q', p) <==> Has(s, p) || Holds(q, p)
  {
    if s.fin {
      ChainBounds(q, s.start, stream);
    } else {
      AbsorbCoverage(s, q, stream, p);
      AbsorbKeepsChain(s, q, stream);
      var (s', q') := Absorb(s, q);
      TrimRightCoverage(s', q', p);
    }
  }

  lemma InsertCoverage(s: Seg, q: seq<Seg>, stream: seq<byte>, p: int)
    requires Mergeable(s, q, stream)
    ensures Holds(Insert(s, q), p) <==> Has(s, p) || Holds(q, p)
  {
    MergeCoverage(s, q, stream, p);
    ConsHolds(Merge(s, q).0, Merge(s, q).1, p);
  }

  lemma ConsHolds(t: Seg, q: seq<Seg>, p: int)
    ensures Holds([t] + q, p) <==> Has(t, p) || Holds(q, p)
  {
    if Has(t, p) {
      assert t in [t] + q;
    }
    if Holds(q, p) {
      var u :| u in q && Has(u, p);
      assert u in [t] + q;
    }
  }

  lemma ConsForgets(t: Seg, q: seq<Seg>, s: Seg, p: int)
    ensures Overhang([t] + q, s, p) <==> Overhangs(t, s, p) || Overhang(q, s, p)
    ensures Overhang(q, s, p) ==> s.TcpEnd() <= p
    ensures FinDropped([t] + q, s, p) <==> FinDropped(q, s, p) || (s.fin && p == s.End() && Repeats(t, s))
  {
    assert t in [t] + q;
    assert forall u :: u in q ==> u in [t] + q;
  }

  /** Segments at or after the newcomer neither overhang nor repeat it. */
  lemma NothingForgotten(q: seq<Seg>, s: Seg, lo: int, stream: seq<byte>, p: int)
    requires Chain(q, lo, stream)
    ensures s.start <= lo ==> !Overhang(q, s, p)
    ensures s.start < lo ==> !FinDropped(q, s, p)
  {
    ChainBounds(q, lo, stream);
  }

  /** What the walk uses of `s`: behind the last queued segment it is cut at the right edge of the window. */
  function Kept(q: seq<Seg>, s: Seg, edge: int): Seg
    requires q != []
  {
    if q[|q| - 1].start < s.start then ClipToEdge(s, edge) else s
  }

  /** Exactly what queueing an out-of-sequence segment retains: everything held
      before and everything used of the newcomer, except the tail of a queued
      segment that reaches beyond it, and a FIN that repeats a queued segment's
      data. */
  lemma {:induction false} WalkCoverage(q: seq<Seg>, s: Seg, edge: int, lo: int, stream: seq<byte>, p: int)
    requires q != [] && Chain(q, lo, stream)
    requires FromStream(s, stream) && lo <= s.start < edge
    ensures var k := Kept(q, s, edge);
            Holds(Walk(q, s, edge), p) <==>
            (Holds(q, p) && !Overhang(q, k, p)) || (Has(k, p) && !FinDropped(q, k, p))
  {
    hide Insert, Merge, Absorb, Holds, Overhang;
    var t, rest, k := q[0], q[1..], Kept(q, s, edge);
    assert q == [t] + rest;
    ConsHolds(t, rest, p);
    ConsForgets(t, rest, k, p);
    NothingForgotten(rest, k, t.TcpEnd(), stream, p);
    LastStart(q, lo, stream);
    if s.start < t.start {
      NothingForgotten(q, s, t.start, stream, p);
      InsertCoverage(s, q, stream, p);
    } else if s.start == t.start {
      NothingForgotten(q, s, t.start, stream, p);
      if |s.data| > |t.data| {
        InsertCoverage(s, q, stream, p);
      } else if s.fin {
        assert s.data == t.data;
      }
    } else if rest == [] {
      assert q == [t];
      AppendCoverage(t, s, edge, stream, p);
    } else if s.start < rest[0].start {
      NothingForgotten(rest, s, rest[0].start, stream, p);
      var a := t.CutAt(s.start);
      InsertCoverage(s, rest, stream, p);
      ConsHolds(a, Insert(s, rest), p);
      BetweenCoverage(t, s, rest, stream, p);
    } else {
      WalkCoverage(rest, s, edge, t.TcpEnd(), stream, p);
      ConsHolds(t, Walk(rest, s, edge), p);
    }
  }

  /** The branch behind the last queued segment. */
  lemma AppendCoverage(t: Seg, s: Seg, edge: int, stream: seq<byte>, p: int)
    requires FromStream(t, stream) && FromStream(s, stream) && t.start < s.start < edge
    ensures var k := Kept([t], s, edge);
            Holds(Walk([t], s, edge), p) <==>
            (Holds([t], p) && !Overhang([t], k, p)) || (Has(k, p) && !FinDropped([t], k, p))
  {
    var k := ClipToEdge(s, edge);
    assert t in [t];
    if !t.fin {
      var a := t.CutAt(s.start);
      assert a in [a, k] && k in [a, k];
    }
  }

  /** The last queued segment starts last. */
  lemma {:induction false} LastStart(q: seq<Seg>, lo: int, stream: seq<byte>)
    requires q != [] && Chain(q, lo, stream)
    ensures forall t :: t in q ==> t.start <= q[|q| - 1].start
  {
    if |q| > 1 {
      LastStart(q[1..], q[0].TcpEnd(), stream);
      ChainBounds(q[1..], q[0].TcpEnd(), stream);
    }
  }

  lemma BetweenCoverage(t: Seg, s: Seg, rest: seq<Seg>, stream: seq<byte>, p: int)
    requires FromStream(t, stream) && FromStream(s, stream)
    requires rest != [] && Chain(rest, t.TcpEnd(), stream) && t.start < s.start < rest[0].start
    ensures !t.fin && !Repeats(t, s)
    ensures Has(t.CutAt(s.start), p) || Has(s, p) || Holds(rest, p) <==>
            (Has(s, p) || Has(t, p) || Holds(rest, p)) && !Overhangs(t, s, p)
  {
    ChainBounds(rest, t.TcpEnd(), stream);
  }

  /** Queueing `s` forgets something it held exactly when a queued segment
      without FIN starts before `s` and ends after what is used of it. */
  lemma ForgetsIff(q: seq<Seg>, s: Seg, edge: int, lo: int, stream: seq<byte>)
    requires q != [] && Chain(q, lo, stream)
    requires FromStream(s, stream) && lo <= s.start < edge
    ensures (exists p :: Holds(q, p) && !Holds(Walk(q, s, edge), p)) <==>
            (exists t :: t in q && t.start < s.start && !t.fin && Kept(q, s, edge).TcpEnd() < t.TcpEnd())
  {
    var k := Kept(q, s, edge);
    forall p
      ensures Holds(Walk(q, s, edge), p) <==>
              (Holds(q, p) && !Overhang(q, k, p)) || (Has(k, p) && !FinDropped(q, k, p))
    {
      WalkCoverage(q, s, edge, lo, stream, p);
    }
    if t :| t in q && t.start < s.start && !t.fin && k.TcpEnd() < t.TcpEnd() {
      var p := t.TcpEnd() - 1;
      assert Overhangs(t, k, p);
      assert Holds(q, p);
    }
    if p :| Holds(q, p) && !Holds(Walk(q, s, edge), p) {
      var t :| t in q && Overhangs(t, k, p);
    }
  }

  /** A three-byte newcomer in the middle of a queued segment discards that segment's tail. */
  lemma ForgetsExample()
    ensures var stream: seq<byte> := [1, 2, 3, 4, 5, 6, 7, 8, 9];
            var q := [Seg(1, stream[1..9], false)];
            var s := Seg(2, stream[2..5], false);
            && Chain(q, 1, stream) && FromStream(s, stream)
            && Holds(q, 8) && !Holds(Walk(q, s, 100), 8)
  {
    var stream: seq<byte> := [1, 2, 3, 4, 5, 6, 7, 8, 9];
    var t := Seg(1, stream[1..9], false);
    var s := Seg(2, stream[2..5], false);
    var q := [t];
    assert q[1..] == [];
    assert t in q && Has(t, 8) && Overhangs(t, s, 8);
    WalkCoverage(q, s, 100, 1, stream, 8);
  }

  /** Positions the receiver has: delivered ones and queued ones. */
  ghost predicate Covered(r: Rcv, p: int) { 0 <= p < r.next || Holds(r.ooseq, p) }

  lemma {:induction false} DrainCoverage(r: Rcv, stream: seq<byte>, p: int)
    requires Draining(r, stream)
    ensures Covered(Drain(r), p) <==> Covered(r, p)
    decreases |r.ooseq|
  {
    if r.ooseq != [] && r.ooseq[0].start == r.next {
      assert r.ooseq == [r.ooseq[0]] + r.ooseq[1..];
      ConsHolds(r.ooseq[0], r.ooseq[1..], p);
      AdvanceDelivers(r, r.ooseq[0], r.ooseq[1..], stream);
      DrainCoverage(Advance(r, r.ooseq[0]).(ooseq := r.ooseq[1..]), stream, p);
    }
  }

  lemma TakeCoverage(r: Rcv, s: Seg, stream: seq<byte>, p: int)
    requires InSequenceArrival(r, s, stream)
    ensures Covered(Take(r, s), p) <==> Covered(r, p) || Has(ClipToEdge(s, r.next + r.wnd), p)
  {
    var s1 := ClipToEdge(s, r.next + r.wnd);
    TakeDelivers(r, s, stream);
    MergeKeepsChain(s1, r.ooseq, stream);
    MergeCoverage(s1, r.ooseq, stream, p);
  }

  /** An in-sequence arrival loses nothing: afterwards the receiver has what it
      had before plus the part of the segment inside the window. */
  lemma InSequenceCoverage(r: Rcv, s: Seg, stream: seq<byte>, p: int)
    requires InSequenceArrival(r, s, stream)
    ensures Covered(InSequence(r, s), p) <==> Covered(r, p) || Has(ClipToEdge(s, r.next + r.wnd), p)
  {
    TakeDelivers(r, s, stream);
    TakeCoverage(r, s, stream, p);
    DrainCoverage(Take(r, s), stream, p);
  }

  /** `next` is always the least position the receiver does not have, so a
      receiver that has every position has delivered the whole stream and its FIN. */
  lemma NextIsLeastMissing(r: Rcv, stream: seq<byte>)
    requires Inv(r, stream)
    ensures !Covered(r, r.next) && forall p :: 0 <= p < r.next ==> Covered(r, p)
    ensures (forall p :: 0 <= p <= |stream| ==> Covered(r, p)) <==> r.delivered == stream && r.gotFin
  {
    ChainBounds(r.ooseq, r.next + 1, stream);
    if r.next <= |stream| {
      assert !Covered(r, r.next);
    }
  }

  // ----- What an arrival adds -----

  /** `seg` has positions in the window that start at or before `next`. */
  predicate InReach(r: Rcv, seg: Seg) { seg.start <= r.next < seg.TcpEnd() && r.wnd > 0 }

  /** `seg` starts inside the window, above `next`. */
  predicate Ahead(r: Rcv, seg: Seg) { r.next < seg.start < r.next + r.wnd }

  /** A segment that holds the next position, wherever it starts, is taken from there up to the right edge; one that
      starts further ahead is queued if memory is found, and all others are dropped. */
  lemma ReceiveCoverage(r: Rcv, seg: Seg, alloc: bool, stream: seq<byte>, p: int)
    requires Inv(r, stream) && !r.gotFin && FromStream(seg, stream)
    ensures var r' := Receive(r, seg, alloc);
            if InReach(r, seg) then Covered(r', p) <==> Covered(r, p) || (Has(seg, p) && p < r.next + r.wnd)
            else if !Ahead(r, seg) || !alloc then r' == r
            else if r.ooseq == [] then Covered(r', p) <==> Covered(r, p) || Has(seg, p)
            else
              var k := Kept(r.ooseq, seg, r.next + r.wnd);
              Covered(r', p) <==> (Covered(r, p) && !Overhang(r.ooseq, k, p)) || (Has(k, p) && !FinDropped(r.ooseq, k, p))
  {
    TrimLeftKeepsStream(seg, r.next, stream);
    if InReach(r, seg) {
      var s := TrimLeft(seg, r.next);
      InSequenceCoverage(r, s, stream, p);
      ClipKeepsStream(s, r.next + r.wnd, stream);
    } else if Ahead(r, seg) && alloc {
      QueueCoverage(r, seg, stream, p);
    }
  }

  lemma QueueCoverage(r: Rcv, seg: Seg, stream: seq<byte>, p: int)
    requires Inv(r, stream) && FromStream(seg, stream) && Ahead(r, seg)
    ensures var q := Enqueue(r.ooseq, seg, r.next + r.wnd);
            if r.ooseq == [] then Holds(q, p) <==> Has(seg, p)
            else
              var k := Kept(r.ooseq, seg, r.next + r.wnd);
              && (Holds(q, p) <==> (Holds(r.ooseq, p) && !Overhang(r.ooseq, k, p)) || (Has(k, p) && !FinDropped(r.ooseq, k, p)))
              && (Overhang(r.ooseq, k, p) ==> p > r.next)
  {
    if r.ooseq == [] {
      assert seg in [seg];
    } else {
      WalkCoverage(r.ooseq, seg, r.next + r.wnd, r.next + 1, stream, p);
      ClipKeepsStream(seg, r.next + r.wnd, stream);
    }
  }

  /** `next` moves exactly when the segment holds it. */
  lemma ReceiveProgress(r: Rcv, seg: Seg, alloc: bool, stream: seq<byte>)
    requires Inv(r, stream) && !r.gotFin && FromStream(seg, stream)
    ensures Receive(r, seg, alloc).next > r.next <==> InReach(r, seg)
    ensures InReach(r, seg) ==> Receive(r, seg, alloc).next >= Min(seg.TcpEnd(), r.next + r.wnd)
    ensures !InReach(r, seg) ==> Receive(r, seg, alloc) == r.(ooseq := Receive(r, seg, alloc).ooseq)
  {
    TrimLeftKeepsStream(seg, r.next, stream);
    if InReach(r, seg) {
      var r' := Receive(r, seg, alloc);
      InSequenceDelivers(r, TrimLeft(seg, r.next), stream);
      var top := Min(seg.TcpEnd(), r.next + r.wnd);
      if r'.next < top {
        ReceiveCoverage(r, seg, alloc, stream, r'.next);
        NextIsLeastMissing(r', stream);
      }
    }
  }

  // ----- The receive window -----

  /** Every queued segment ends at or before `edge`. */
  ghost predicate WithinEdge(q: seq<Seg>, edge: int) { forall t :: t in q ==> t.TcpEnd() <= edge }

  /** A segment below `edge` takes neither `next` nor the queue beyond it. */
  lemma ReceiveStaysBelow(r: Rcv, seg: Seg, alloc: bool, stream: seq<byte>, edge: int)
    requires Inv(r, stream) && !r.gotFin && FromStream(seg, stream)
    requires r.next <= edge && WithinEdge(r.ooseq, edge) && seg.TcpEnd() <= edge
    ensures Receive(r, seg, alloc).next <= edge && WithinEdge(Receive(r, seg, alloc).ooseq, edge)
  {
    var r' := Receive(r, seg, alloc);
    ReceiveKeepsInv(r, seg, alloc, stream);
    ChainBounds(r'.ooseq, r'.next + 1, stream);
    forall t | t in r'.ooseq ensures t.TcpEnd() <= edge {
      assert Has(t, t.TcpEnd() - 1);
      CoveredBelow(r, seg, alloc, stream, edge, t.TcpEnd() - 1);
    }
    NextIsLeastMissing(r', stream);
    if r'.next > 0 {
      CoveredBelow(r, seg, alloc, stream, edge, r'.next - 1);
    }
  }

  lemma CoveredBelow(r: Rcv, seg: Seg, alloc: bool, stream: seq<byte>, edge: int, p: int)
    requires Inv(r, stream) && !r.gotFin && FromStream(seg, stream)
    requires r.next <= edge && WithinEdge(r.ooseq, edge) && seg.TcpEnd() <= edge
    ensures Covered(Receive(r, seg, alloc), p) ==> p < edge
  {
    hide Receive;
    ReceiveCoverage(r, seg, alloc, stream, p);
    if Ahead(r, seg) {
      ClipKeepsStream(seg, r.next + r.wnd, stream);
    }
  }

  lemma ConsWithinEdge(t: Seg, q: seq<Seg>, edge: int)
    ensures WithinEdge([t] + q, edge) <==> t.TcpEnd() <= edge && WithinEdge(q, edge)
  {
    assert t in [t] + q;
    assert forall u :: u in q ==> u in [t] + q;
  }

  lemma {:induction false} AbsorbEdge(s: Seg, q: seq<Seg>, edge: int, stream: seq<byte>)
    requires FromStream(s, stream) && !s.fin && Chain(q, s.start, stream) && WithinEdge(q, edge)
    ensures var (s', q') := Absorb(s, q);
            && WithinEdge(q', edge) && s'.start == s.start && s'.data == s.data
            && (s.End() <= edge ==> s'.TcpEnd() <= edge)
            && (s.End() >= edge ==> q' == [])
  {
    if q != [] && s.End() >= q[0].End() {
      assert q == [q[0]] + q[1..];
      ConsWithinEdge(q[0], q[1..], edge);
      if q[0].fin {
        assert q[1..] == [];
        assert Absorb(s, q) == (s.(fin := true), []);
      } else {
        AbsorbEdge(s, q[1..], edge, stream);
      }
    } else if q != [] {
      assert q[0] in q;
    }
  }

  lemma MergeEdge(s: Seg, q: seq<Seg>, edge: int, stream: seq<byte>)
    requires Mergeable(s, q, stream) && WithinEdge(q, edge)
    ensures var (t, q') := Merge(s, q);
            WithinEdge(q', edge) && (t.TcpEnd() <= edge <==> s.TcpEnd() <= edge)
  {
    if !s.fin {
      AbsorbEdge(s, q, edge, stream);
      AbsorbKeepsChain(s, q, stream);
      var (s', q') := Absorb(s, q);
      if q' != [] {
        assert q'[0] in q';
      }
    }
  }

  lemma InsertEdge(s: Seg, q: seq<Seg>, edge: int, stream: seq<byte>)
    requires Mergeable(s, q, stream) && WithinEdge(q, edge)
    ensures WithinEdge(Insert(s, q), edge) <==> s.TcpEnd() <= edge
  {
    MergeEdge(s, q, edge, stream);
    ConsWithinEdge(Merge(s, q).0, Merge(s, q).1, edge);
  }

  ghost predicate RepeatedBy(t: Seg, s: Seg) { t.start == s.start && |s.data| <= |t.data| }

  /** The newcomer goes behind everything queued, or repeats something at least as long. */
  ghost predicate AppendedOrRepeated(q: seq<Seg>, s: Seg) {
    q != [] && (q[|q| - 1].start < s.start || exists t :: t in q && RepeatedBy(t, s))
  }

  lemma ConsAppended(t: Seg, q: seq<Seg>, s: Seg)
    requires q != []
    ensures AppendedOrRepeated([t] + q, s) <==> RepeatedBy(t, s) || AppendedOrRepeated(q, s)
  {
    assert t in [t] + q;
    assert forall u :: u in q ==> u in [t] + q;
    assert ([t] + q)[|q|] == q[|q| - 1];
  }

  lemma NotAppended(q: seq<Seg>, s: Seg, lo: int, stream: seq<byte>)
    requires Chain(q, lo, stream) && s.start < lo
    ensures !AppendedOrRepeated(q, s)
  {
    ChainBounds(q, lo, stream);
    assert q != [] ==> q[|q| - 1] in q;
  }

  /** Only the end of the queue is clipped to the window: queueing `s` keeps
      the queue inside the window exactly when `s` itself lies inside it, is
      appended, or is discarded as a repetition. */
  lemma {:induction false} WalkEdge(q: seq<Seg>, s: Seg, edge: int, lo: int, stream: seq<byte>)
    requires q != [] && Chain(q, lo, stream) && WithinEdge(q, edge)
    requires FromStream(s, stream) && lo <= s.start < edge
    ensures WithinEdge(Walk(q, s, edge), edge) <==> s.TcpEnd() <= edge || AppendedOrRepeated(q, s)
  {
    var t, rest := q[0], q[1..];
    assert q == [t] + rest;
    ConsWithinEdge(t, rest, edge);
    if rest != [] {
      ConsAppended(t, rest, s);
    }
    if s.start < t.start {
      InsertEdge(s, q, edge, stream);
      NotAppended(q, s, t.start, stream);
    } else if s.start == t.start {
      NotAppended(rest, s, t.TcpEnd(), stream);
      if |s.data| > |t.data| {
        InsertEdge(s, q, edge, stream);
      } else {
        assert t in q && RepeatedBy(t, s);
      }
    } else if rest == [] {
      if !t.fin {
        ClipKeepsStream(s, edge, stream);
        CutKeepsStream(t, s.start, stream);
        ConsWithinEdge(t.CutAt(s.start), [ClipToEdge(s, edge)], edge);
      }
    } else if s.start < rest[0].start {
      CutKeepsStream(t, s.start, stream);
      InsertEdge(s, rest, edge, stream);
      ConsWithinEdge(t.CutAt(s.start), Insert(s, rest), edge);
      NotAppended(rest, s, rest[0].start, stream);
    } else {
      WalkEdge(rest, s, edge, t.TcpEnd(), stream);
      ConsWithinEdge(t, Walk(rest, s, edge), edge);
    }
  }

  lemma AdvanceWindow(r: Rcv, s: Seg)
    requires s.start == r.next && s.TcpEnd() <= r.next + r.wnd
    ensures Advance(r, s).next + Advance(r, s).wnd == r.next + r.wnd
  {
  }

  lemma {:induction false} DrainWindow(r: Rcv, stream: seq<byte>)
    requires Draining(r, stream) && WithinEdge(r.ooseq, r.next + r.wnd)
    ensures var d := Drain(r);
            d.next + d.wnd == r.next + r.wnd && WithinEdge(d.ooseq, r.next + r.wnd)
    decreases |r.ooseq|
  {
    if r.ooseq != [] && r.ooseq[0].start == r.next {
      var t, rest := r.ooseq[0], r.ooseq[1..];
      assert r.ooseq == [t] + rest;
      ConsWithinEdge(t, rest, r.next + r.wnd);
      AdvanceDelivers(r, t, rest, stream);
      AdvanceWindow(r, t);
      DrainWindow(Advance(r, t).(ooseq := rest), stream);
    }
  }

  lemma TakeWindow(r: Rcv, s: Seg, stream: seq<byte>)
    requires InSequenceArrival(r, s, stream) && WithinEdge(r.ooseq, r.next + r.wnd)
    ensures var r' := Take(r, s);
            r'.next + r'.wnd == r.next + r.wnd && WithinEdge(r'.ooseq, r.next + r.wnd)
  {
    var edge := r.next + r.wnd;
    var s1 := ClipToEdge(s, edge);
    TakeDelivers(r, s, stream);
    MergeKeepsChain(s1, r.ooseq, stream);
    MergeEdge(s1, r.ooseq, edge, stream);
    var (t, q) := Merge(s1, r.ooseq);
    assert t.start == r.next && t.TcpEnd() <= edge;
    AdvanceWindow(r.(ooseq := q), t);
  }

  lemma InSequenceWindow(r: Rcv, s: Seg, stream: seq<byte>)
    requires InSequenceArrival(r, s, stream) && WithinEdge(r.ooseq, r.next + r.wnd)
    ensures var r' := InSequence(r, s);
            r'.next + r'.wnd == r.next + r.wnd && WithinEdge(r'.ooseq, r.next + r.wnd)
  {
    TakeDelivers(r, s, stream);
    TakeWindow(r, s, stream);
    DrainWindow(Take(r, s), stream);
  }

  /** Every segment that a drain delivers fits the window it finds: the assertion in the delivery loop. */
  ghost predicate RoomToDrain(r: Rcv)
    decreases |r.ooseq|
  {
    r.ooseq == [] || r.ooseq[0].start != r.next || (r.ooseq[0].Len() <= r.wnd && RoomToDrain(DeliverHead(r)))
  }

  lemma {:induction false} DrainHasRoom(r: Rcv, stream: seq<byte>)
    requires Draining(r, stream) && WithinEdge(r.ooseq, r.next + r.wnd)
    ensures RoomToDrain(r)
    decreases |r.ooseq|
  {
    if r.ooseq != [] && r.ooseq[0].start == r.next {
      var t, rest := r.ooseq[0], r.ooseq[1..];
      assert r.ooseq == [t] + rest;
      ConsWithinEdge(t, rest, r.next + r.wnd);
      AdvanceDelivers(r, t, rest, stream);
      AdvanceWindow(r, t);
      DrainHasRoom(DeliverHead(r), stream);
    }
  }

  /** While the queue lies inside the window no delivery of an in-sequence arrival exceeds the window. */
  lemma InSequenceHasRoom(r: Rcv, s: Seg, stream: seq<byte>)
    requires InSequenceArrival(r, s, stream) && WithinEdge(r.ooseq, r.next + r.wnd)
    ensures Merge(ClipToEdge(s, r.next + r.wnd), r.ooseq).0.Len() <= r.wnd && RoomToDrain(Take(r, s))
  {
    var edge := r.next + r.wnd;
    TakeDelivers(r, s, stream);
    TakeWindow(r, s, stream);
    MergeKeepsChain(ClipToEdge(s, edge), r.ooseq, stream);
    MergeEdge(ClipToEdge(s, edge), r.ooseq, edge, stream);
    DrainHasRoom(Take(r, s), stream);
  }

  /** Whether an arrival leaves the queue inside the window. */
  ghost predicate FitsWindow(r: Rcv, seg: Seg, alloc: bool) {
    || !alloc
    || seg.start <= r.next
    || seg.start >= r.next + r.wnd
    || seg.TcpEnd() <= r.next + r.wnd
    || AppendedOrRepeated(r.ooseq, seg)
  }

  /** The right edge of the window stays put and the queue stays inside it
      exactly for the arrivals that `FitsWindow` admits. */
  lemma ReceiveKeepsWindow(r: Rcv, s: Seg, alloc: bool, stream: seq<byte>)
    requires Inv(r, stream) && !r.gotFin && FromStream(s, stream) && WithinEdge(r.ooseq, r.next + r.wnd)
    ensures var r' := Receive(r, s, alloc);
            && r'.next + r'.wnd == r.next + r.wnd
            && (WithinEdge(r'.ooseq, r.next + r.wnd) <==> FitsWindow(r, s, alloc))
  {
    TrimLeftKeepsStream(s, r.next, stream);
    var s1 := TrimLeft(s, r.next);
    var edge := r.next + r.wnd;
    if r.next <= s1.start < edge {
      if s1.start == r.next {
        InSequenceWindow(r, s1, stream);
      } else if alloc {
        if r.ooseq == [] {
          assert s in [s];
        } else {
          WalkEdge(r.ooseq, s1, edge, r.next + 1, stream);
        }
      }
    }
  }

  /** Outside `FitsWindow` the window itself breaks: a segment that overruns an
      empty queue is kept whole, and delivering it wraps the 16-bit window. */
  lemma OverrunWrapsWindow()
    ensures var stream: seq<byte> := seq(25, i => 7);
            var r0 := Rcv(0, 10, [], [], false);
            var s1, s2 := Seg(5, stream[5..25], false), Seg(0, stream[0..5], false);
            && !FitsWindow(r0, s1, true)
            && Receive(Receive(r0, s1, true), s2, true).wnd == 65521
  {
    var stream: seq<byte> := seq(25, i => 7);
    var r0 := Rcv(0, 10, [], [], false);
    var s1, s2 := Seg(5, stream[5..25], false), Seg(0, stream[0..5], false);
    var r1 := Receive(r0, s1, true);
    assert r1 == Rcv(0, 10, [s1], [], false);
    assert Absorb(s2, [s1]) == (s2, [s1]);
    var r2 := Advance(r1, s2);
    assert Receive(r1, s2, true) == Drain(r2);
    var r3 := Advance(r2, s1).(ooseq := []);
    assert [s1][1..] == [];
    assert Drain(r2) == Drain(r3) == r3;
  }

  // ----- Whole runs -----

  /** What can happen to a receiver: a segment, a changed window, or the
      inactivity timer discarding the queue. */
  datatype Event = Arrive(seg: Seg, alloc: bool) | Window(wnd: u16) | DropQueue

  function Step(r: Rcv, e: Event): Rcv {
    match e
    case Arrive(seg, alloc) => if r.gotFin then r else Receive(r, seg, alloc)
    case Window(wnd) => r.(wnd := wnd)
    case DropQueue => r.(ooseq := [])
  }

  function Run(r: Rcv, es: seq<Event>): Rcv
    decreases |es|
  {
    if es == [] then r else Run(Step(r, es[0]), es[1..])
  }

  function Opened(wnd: u16): Rcv { Rcv(0, wnd, [], [], false) }

  lemma {:induction false} RunKeepsInv(r: Rcv, es: seq<Event>, stream: seq<byte>)
    requires Inv(r, stream)
    requires forall e :: e in es && e.Arrive? ==> FromStream(e.seg, stream)
    ensures Inv(Run(r, es), stream)
    ensures r.next <= Run(r, es).next
    ensures r.gotFin ==> Run(r, es).next == r.next && Run(r, es).delivered == r.delivered
    decreases |es|
  {
    if es != [] {
      var e := es[0];
      if e.Arrive? && !r.gotFin {
        ReceiveKeepsInv(r, e.seg, e.alloc, stream);
      }
      RunKeepsInv(Step(r, e), es[1..], stream);
    }
  }

  /** Safety of reassembly over every run: whatever segments of one stream
      arrive, in any order and multiplicity, and whichever allocations fail,
      the application has received exactly a prefix of the stream. */
  lemma RunDeliversPrefix(wnd: u16, es: seq<Event>, stream: seq<byte>)
    requires forall e :: e in es && e.Arrive? ==> FromStream(e.seg, stream)
    ensures var r := Run(Opened(wnd), es);
            && r.delivered <= stream
            && (r.gotFin ==> r.delivered == stream && r.ooseq == [])
            && (!r.gotFin ==> |r.delivered| == r.next)
  {
    RunKeepsInv(Opened(wnd), es, stream);
  }

  /** The queue invariant in plain terms. */
  lemma {:induction false} ChainOrdered(q: seq<Seg>, lo: int, stream: seq<byte>, i: nat, j: nat)
    requires Chain(q, lo, stream) && i < j < |q|
    ensures lo <= q[i].start < q[i].TcpEnd() <= q[j].start && !q[i].fin
    ensures FromStream(q[i], stream)
  {
    if i == 0 {
      ChainBounds(q[1..], q[0].TcpEnd(), stream);
    } else {
      ChainOrdered(q[1..], q[0].TcpEnd(), stream, i - 1, j - 1);
    }
  }

  lemma {:induction false} ChainDrop(q: seq<Seg>, lo: int, stream: seq<byte>, k: nat)
    requires Chain(q, lo, stream) && k <= |q|
    ensures Chain(q[k..], if k == 0 then lo else q[k - 1].TcpEnd(), stream)
  {
    if k == 0 {
      assert q[0..] == q;
    } else {
      ChainDrop(q[1..], q[0].TcpEnd(), stream, k - 1);
      assert q[k..] == q[1..][k - 1..];
    }
  }

  lemma WalkSkipsOne(q: seq<Seg>, s: Seg, edge: int)
    requires |q| > 1 && q[0].start < s.start && q[1].start <= s.start
    ensures Walk(q, s, edge) == [q[0]] + Walk(q[1..], s, edge)
  {
  }

  lemma PrefixGrows(q: seq<Seg>, k: nat, a: seq<Seg>, b: seq<Seg>)
    requires 0 < k <= |q| && a == q[..k - 1] + ([q[k - 1]] + b)
    ensures a == q[..k] + b
  {
  }

  /** The walk steps over every segment that starts at or below the newcomer. */
  lemma {:induction false} WalkSkips(q: seq<Seg>, s: Seg, edge: int, lo: int, stream: seq<byte>, k: nat)
    requires Chain(q, lo, stream) && k < |q| && q[k].start <= s.start
    ensures Walk(q, s, edge) == q[..k] + Walk(q[k..], s, edge)
    decreases k
  {
    if k == 0 {
      assert q[0..] == q;
    } else {
      ChainOrdered(q, lo, stream, k - 1, k);
      WalkSkips(q, s, edge, lo, stream, k - 1);
      var t := q[k - 1..];
      assert t[1..] == q[k..] && t[0] == q[k - 1];
      WalkSkipsOne(t, s, edge);
      PrefixGrows(q, k, Walk(q, s, edge), Walk(q[k..], s, edge));
    }
  }

  lemma WalkAtEqual(q: seq<Seg>, s: Seg, edge: int, lo: int, stream: seq<byte>, i: nat)
    requires Chain(q, lo, stream) && i < |q| && s.start == q[i].start
    ensures Walk(q, s, edge) == if |s.data| > |q[i].data| then q[..i] + Insert(s, q[i..]) else q
  {
    WalkSkips(q, s, edge, lo, stream, i);
    assert q == q[..i] + q[i..];
  }

  lemma WalkBetween(q: seq<Seg>, s: Seg, edge: int, lo: int, stream: seq<byte>, i: nat)
    requires Chain(q, lo, stream) && 0 < i < |q| && q[i - 1].start < s.start < q[i].start
    ensures Walk(q, s, edge) == q[..i - 1] + [q[i - 1].CutAt(s.start)] + Insert(s, q[i..])
  {
    WalkSkips(q, s, edge, lo, stream, i - 1);
    var t := q[i - 1..];
    assert t[1..] == q[i..];
    assert Walk(t, s, edge) == [t[0].CutAt(s.start)] + Insert(s, t[1..]);
  }

  lemma WalkAtEnd(q: seq<Seg>, s: Seg, edge: int, lo: int, stream: seq<byte>, i: nat)
    requires Chain(q, lo, stream) && i == |q| - 1 && q[i].start < s.start
    ensures Walk(q, s, edge) == if q[i].fin then q else q[..i] + [q[i].CutAt(s.start), ClipToEdge(s, edge)]
  {
    WalkSkips(q, s, edge, lo, stream, i);
    assert q == q[..i] + q[i..];
  }

  // ----- Live sequence numbers stay close together -----

  ghost predicate Short(t: Seg, hi: int, max: int) { t.start < hi && |t.data| < max }

  ghost predicate AllShort(q: seq<Seg>, hi: int, max: int) { forall t :: t in q ==> Short(t, hi, max) }

  lemma ConsShort(t: Seg, q: seq<Seg>, hi: int, max: int)
    ensures AllShort([t] + q, hi, max) <==> Short(t, hi, max) && AllShort(q, hi, max)
  {
    assert t in [t] + q;
    assert forall u :: u in q ==> u in [t] + q;
  }

  lemma GrowShort(q: seq<Seg>, hi: int, hi': int, max: int)
    requires AllShort(q, hi, max) && hi <= hi'
    ensures AllShort(q, hi', max)
  {
  }

  lemma TailShort(q: seq<Seg>, hi: int, hi': int, max: int)
    requires q != [] && AllShort(q, hi, max) && hi <= hi'
    ensures AllShort(q[1..], hi', max)
  {
    assert forall t :: t in q[1..] ==> t in q;
  }

  lemma {:induction false} AbsorbKeepsShort(s: Seg, q: seq<Seg>, hi: int, max: int)
    requires Short(s, hi, max) && AllShort(q, hi, max)
    ensures Short(Absorb(s, q).0, hi, max) && AllShort(Absorb(s, q).1, hi, max)
    decreases |q|
  {
    if q != [] && s.End() >= q[0].End() {
      AbsorbKeepsShort(if q[0].fin then s.(fin := true) else s, q[1..], hi, max);
    }
  }

  lemma MergeKeepsShort(s: Seg, q: seq<Seg>, hi: int, max: int)
    requires Short(s, hi, max) && AllShort(q, hi, max)
    ensures Short(Merge(s, q).0, hi, max) && AllShort(Merge(s, q).1, hi, max)
  {
    if !s.fin {
      AbsorbKeepsShort(s, q, hi, max);
    }
  }

  lemma InsertKeepsShort(s: Seg, q: seq<Seg>, hi: int, max: int)
    requires Short(s, hi, max) && AllShort(q, hi, max)
    ensures AllShort(Insert(s, q), hi, max)
  {
    MergeKeepsShort(s, q, hi, max);
    ConsShort(Merge(s, q).0, Merge(s, q).1, hi, max);
  }

  lemma {:induction false} WalkKeepsShort(q: seq<Seg>, s: Seg, edge: int, hi: int, max: int)
    requires q != [] && Short(s, hi, max) && AllShort(q, hi, max)
    ensures AllShort(Walk(q, s, edge), hi, max)
  {
    var t, rest := q[0], q[1..];
    assert q == [t] + rest;
    ConsShort(t, rest, hi, max);
    if s.start <= t.start {
      InsertKeepsShort(s, q, hi, max);
    } else if rest != [] {
      if s.start < rest[0].start {
        InsertKeepsShort(s, rest, hi, max);
        ConsShort(t.CutAt(s.start), Insert(s, rest), hi, max);
      } else {
        WalkKeepsShort(rest, s, edge, hi, max);
        ConsShort(t, Walk(rest, s, edge), hi, max);
      }
    }
  }

  const SPAN: int := 0x1_0000
  const MAXSEG: int := 0x7fff

  /** `Inv`, with every queued segment short and close to `next`. */
  ghost predicate Settled(r: Rcv, stream: seq<byte>) {
    Inv(r, stream) && AllShort(r.ooseq, r.next + SPAN, MAXSEG)
  }

  lemma SettledInv(r: Rcv, stream: seq<byte>)
    requires Settled(r, stream)
    ensures Inv(r, stream)
  {
  }

  lemma SettledWindow(r: Rcv, wnd: u16, stream: seq<byte>)
    requires Settled(r, stream)
    ensures Settled(r.(wnd := wnd), stream)
  {
  }

  /** The same during a call that started at position `n0`. */
  ghost predicate Live(r: Rcv, n0: int, stream: seq<byte>) {
    && Draining(r, stream)
    && n0 <= r.next <= n0 + 2 * SPAN
    && AllShort(r.ooseq, n0 + SPAN, MAXSEG)
  }

  lemma TakeIsLive(r: Rcv, s: Seg, stream: seq<byte>)
    requires Settled(r, stream) && InSequenceArrival(r, s, stream) && |s.data| < MAXSEG
    ensures Live(Take(r, s), r.next, stream)
    ensures Mergeable(ClipToEdge(s, r.next + r.wnd), r.ooseq, stream)
    ensures Merge(ClipToEdge(s, r.next + r.wnd), r.ooseq).0.start == r.next
  {
    TakeDelivers(r, s, stream);
    var s1 := ClipToEdge(s, r.next + r.wnd);
    MergeKeepsShort(s1, r.ooseq, r.next + SPAN, MAXSEG);
    MergeKeepsChain(s1, r.ooseq, stream);
  }

  function DeliverHead(r: Rcv): Rcv
    requires r.ooseq != []
  {
    Advance(r, r.ooseq[0]).(ooseq := r.ooseq[1..])
  }

  lemma DeliverHeadIsLive(r: Rcv, n0: int, stream: seq<byte>)
    requires Live(r, n0, stream) && r.ooseq != [] && r.ooseq[0].start == r.next
    ensures Live(DeliverHead(r), n0, stream) && Drain(DeliverHead(r)) == Drain(r)
  {
    assert r.ooseq[0] in r.ooseq && Short(r.ooseq[0], n0 + SPAN, MAXSEG);
    TailShort(r.ooseq, n0 + SPAN, n0 + SPAN, MAXSEG);
    AdvanceDelivers(r, r.ooseq[0], r.ooseq[1..], stream);
  }

  lemma {:induction false} DrainIsLive(r: Rcv, n0: int, stream: seq<byte>)
    requires Live(r, n0, stream)
    ensures Live(Drain(r), n0, stream)
    decreases |r.ooseq|
  {
    if r.ooseq != [] && r.ooseq[0].start == r.next {
      DeliverHeadIsLive(r, n0, stream);
      DrainIsLive(DeliverHead(r), n0, stream);
    }
  }

  /** Reception keeps the queue close enough for 32-bit comparison, with no
      assumption that senders respect the window. */
  lemma ReceiveKeepsSettled(r: Rcv, seg: Seg, alloc: bool, stream: seq<byte>)
    requires Settled(r, stream) && !r.gotFin && FromStream(seg, stream) && |seg.data| < MAXSEG
    ensures Settled(Receive(r, seg, alloc), stream)
  {
    ReceiveKeepsInv(r, seg, alloc, stream);
    TrimLeftKeepsStream(seg, r.next, stream);
    var s := TrimLeft(seg, r.next);
    if r.next <= s.start < r.next + r.wnd {
      if s.start == r.next {
        TakeIsLive(r, s, stream);
        DrainIsLive(Take(r, s), r.next, stream);
        GrowShort(InSequence(r, s).ooseq, r.next + SPAN, InSequence(r, s).next + SPAN, MAXSEG);
      } else if alloc && r.ooseq != [] {
        WalkKeepsShort(r.ooseq, s, r.next + r.wnd, r.next + SPAN, MAXSEG);
      }
    }
  }
}
