/** The receive window and the window announced to the peer.

    A receiver must not shrink the window: the right edge it has announced
    may not move left (section 4.2.2.16 of RFC 1122).  The state is the
    receiver of `TcpReassembly` with the window fields beside it, and the steps
    are arrivals as `tcp_receive` handles them, `tcp_recved`, the stack's own
    credit for a FIN, output, and the timer that drops the queue.
 */
module TcpWindow {
  import opened Common
  import opened Words
  import R = TcpReassembly

  /** tcp_update_rcv_ann_wnd: announce all of the window once its right edge can
      move by enough, otherwise just what keeps the announced edge in place. */
  function AnnounceWindow(next: int, wnd: u16, annEdge: int, mss: u16, tcpWnd: u16): u16 {
    if next + wnd >= annEdge + Min(tcpWnd / 2, mss) then wnd
    else if next > annEdge then 0
    else Wrap16(annEdge - next)
  }

  /** tcp_recved: the window after the application has consumed `len` bytes.
      `passive` is CLOSE_WAIT or LAST_ACK. */
  function Credited(wnd: u16, len: u16, tcpWnd: u16, passive: bool): u16 {
    var w := Wrap16(wnd + len);
    if w > tcpWnd then tcpWnd else if w == 0 && passive then tcpWnd else w
  }

  /** `uncredited` counts sequence numbers delivered but not yet credited to the
      window; one of them is a FIN while `finDue`. */
  datatype Flow = Flow(r: R.Rcv, ann: u16, annEdge: int, uncredited: int, finDue: bool)

  datatype Event =
    | Arrive(seg: R.Seg, alloc: bool)
    | Consume(n: u16, passive: bool)  // tcp_recved
    | CountFin                        // the stack's own credit for a FIN
    | Announce                        // a segment is sent
    | DropQueue                       // the inactivity timer

  function Step(w: Flow, e: Event, mss: u16, tcpWnd: u16): Flow {
    match e
    case Arrive(seg, alloc) =>
      var r := R.Step(w.r, R.Arrive(seg, alloc));
      Flow(r, if r.next == w.r.next then w.ann else AnnounceWindow(r.next, r.wnd, w.annEdge, mss, tcpWnd),
           w.annEdge, w.uncredited + r.next - w.r.next, w.finDue || (r.gotFin && !w.r.gotFin))
    case Consume(n, passive) =>
      var wnd := Credited(w.r.wnd, n, tcpWnd, passive);
      w.(r := w.r.(wnd := wnd), ann := AnnounceWindow(w.r.next, wnd, w.annEdge, mss, tcpWnd),
         uncredited := w.uncredited - n)
    case CountFin =>
      w.(r := w.r.(wnd := if w.r.wnd != tcpWnd then Wrap16(w.r.wnd + 1) else w.r.wnd),
         uncredited := w.uncredited - 1, finDue := false)
    case Announce => w.(annEdge := w.r.next + w.ann)
    case DropQueue => w.(r := R.Step(w.r, R.DropQueue))
  }

  /** Arrivals are slices of the stream that fit the window or are clipped to it, the application credits no more
      than it was given, and the FIN is credited once. */
  ghost predicate Legal(w: Flow, e: Event, stream: seq<byte>) {
    match e
    case Arrive(seg, alloc) => R.FromStream(seg, stream) && (w.r.gotFin || R.FitsWindow(w.r, seg, alloc))
    case Consume(n, passive) => n + One(w.finDue) <= w.uncredited && !(passive && w.r.wnd == 0 && n == 0)
    case CountFin => w.finDue
    case Announce => true
    case DropQueue => true
  }

  /** Window and credit add up, the announced window is part of the window, the announced edge is not taken back, and
      the queue lies inside the window. */
  ghost predicate Sound(w: Flow, tcpWnd: u16) {
    && One(w.finDue) <= w.uncredited
    && w.r.wnd + w.uncredited == tcpWnd
    && w.ann <= w.r.wnd
    && w.annEdge <= w.r.next + w.ann
    && R.WithinEdge(w.r.ooseq, w.r.next + w.r.wnd)
  }

  /** Announcing never takes back what was announced, never promises more than
      there is, and loses nothing to its 16-bit cast. */
  lemma AnnounceKeepsEdge(next: int, wnd: u16, annEdge: int, mss: u16, tcpWnd: u16)
    requires annEdge <= next + wnd
    ensures AnnounceWindow(next, wnd, annEdge, mss, tcpWnd) <= wnd
    ensures annEdge <= next + AnnounceWindow(next, wnd, annEdge, mss, tcpWnd)
    ensures next <= annEdge ==> annEdge - next <= 0xffff
  {
    if annEdge - next >= 0 {
      assert Wrap16(annEdge - next) == annEdge - next;
    }
  }

  /** An announced edge stays, moves to where the peer has got by itself, or moves by half the window or a segment. */
  predicate Worthwhile(annEdge: int, annEdge': int, next: int, mss: u16, tcpWnd: u16) {
    annEdge' == annEdge || annEdge' == next || annEdge' >= annEdge + Min(tcpWnd / 2, mss)
  }

  /** The receiver avoids silly windows, as section 4.2.3.3 of RFC 1122 asks: no smaller move is announced, and a move
      that is worth it is announced in full. */
  lemma AnnounceThrifty(next: int, wnd: u16, annEdge: int, mss: u16, tcpWnd: u16)
    requires annEdge <= next + wnd
    ensures Worthwhile(annEdge, next + AnnounceWindow(next, wnd, annEdge, mss, tcpWnd), next, mss, tcpWnd)
    ensures next + wnd >= annEdge + Min(tcpWnd / 2, mss) ==> AnnounceWindow(next, wnd, annEdge, mss, tcpWnd) == wnd
  {
    if annEdge - next >= 0 {
      assert Wrap16(annEdge - next) == annEdge - next;
    }
  }

  /** tcp_recved adds what it is given exactly when the sum fits and a window that stays at zero in passive close is not
      taken for an overflow; it never exceeds the full window. */
  lemma CreditedExact(wnd: u16, n: u16, tcpWnd: u16, passive: bool)
    ensures Credited(wnd, n, tcpWnd, passive) <= tcpWnd
    ensures Credited(wnd, n, tcpWnd, passive) == wnd + n <==>
            wnd + n <= tcpWnd && !(passive && wnd + n == 0 && tcpWnd > 0)
  {
  }

  /** Short of an overflow of its 16 bits, the window grows by what it is given, up to the full window. */
  lemma CreditedIs(wnd: u16, n: u16, tcpWnd: u16, passive: bool)
    ensures wnd + n < TWO16 ==>
              Credited(wnd, n, tcpWnd, passive) == if passive && wnd + n == 0 then tcpWnd else Min(wnd + n, tcpWnd)
  {
  }

  // ----- Every step -----

  lemma ArriveKeepsInv(w: Flow, seg: R.Seg, alloc: bool, mss: u16, tcpWnd: u16, stream: seq<byte>)
    requires R.Inv(w.r, stream) && R.FromStream(seg, stream)
    ensures var w' := Step(w, Arrive(seg, alloc), mss, tcpWnd);
            R.Inv(w'.r, stream) && w.r.next <= w'.r.next && (w'.r.gotFin && !w.r.gotFin ==> w.r.next < w'.r.next)
  {
    if !w.r.gotFin {
      R.ReceiveKeepsInv(w.r, seg, alloc, stream);
    }
  }

  /** An arrival leaves the window sound if and only if it fits the window, or the peer has already closed. */
  lemma ArriveSoundIff(w: Flow, seg: R.Seg, alloc: bool, mss: u16, tcpWnd: u16, stream: seq<byte>)
    requires R.Inv(w.r, stream) && Sound(w, tcpWnd) && R.FromStream(seg, stream)
    ensures var w' := Step(w, Arrive(seg, alloc), mss, tcpWnd);
            && (Sound(w', tcpWnd) <==> w.r.gotFin || R.FitsWindow(w.r, seg, alloc))
            && w'.r.next + w'.r.wnd == w.r.next + w.r.wnd && w'.annEdge == w.annEdge
  {
    if !w.r.gotFin {
      var w' := Step(w, Arrive(seg, alloc), mss, tcpWnd);
      R.ReceiveKeepsWindow(w.r, seg, alloc, stream);
      ArriveKeepsInv(w, seg, alloc, mss, tcpWnd, stream);
      AnnounceKeepsEdge(w'.r.next, w'.r.wnd, w.annEdge, mss, tcpWnd);
    }
  }

  /** Consuming what was received is sound except in one case: tcp_recved takes
      a window that stays at zero for one that has overflowed, and in passive
      close opens it fully. */
  lemma ConsumeSoundIff(w: Flow, n: u16, passive: bool, mss: u16, tcpWnd: u16)
    requires Sound(w, tcpWnd) && n + One(w.finDue) <= w.uncredited
    ensures Sound(Step(w, Consume(n, passive), mss, tcpWnd), tcpWnd) <==>
            !(passive && w.r.wnd == 0 && n == 0 && tcpWnd > 0)
  {
    CreditedExact(w.r.wnd, n, tcpWnd, passive);
    if !(passive && w.r.wnd == 0 && n == 0 && tcpWnd > 0) {
      AnnounceKeepsEdge(w.r.next, w.r.wnd + n, w.annEdge, mss, tcpWnd);
      WiderEdge(w.r.ooseq, w.r.next + w.r.wnd, w.r.next + w.r.wnd + n);
    }
  }

  /** Three bytes and a FIN fill a window of four; crediting none of them, in CLOSE_WAIT, opens it fully. */
  lemma FullWindowReopens(mss: u16)
    ensures var stream: seq<byte> := [1, 2, 3];
            var w := Step(Opened(4), Arrive(R.Seg(0, stream, true), true), mss, 4);
            && w.r.wnd == 0 && w.r.gotFin && w.uncredited == 4 && w.finDue
            && Step(w, Consume(0, true), mss, 4).r.wnd == 4 && !Sound(Step(w, Consume(0, true), mss, 4), 4)
  {
    var stream: seq<byte> := [1, 2, 3];
    var seg := R.Seg(0, stream, true);
    assert R.Merge(seg, []) == (seg, []);
  }

  /** In either case the right edge does not move left and the announced edge is kept. */
  lemma ConsumeKeepsEdges(w: Flow, n: u16, passive: bool, mss: u16, tcpWnd: u16)
    requires Sound(w, tcpWnd) && n + One(w.finDue) <= w.uncredited
    ensures var w' := Step(w, Consume(n, passive), mss, tcpWnd);
            w.r.next + w.r.wnd <= w'.r.next + w'.r.wnd && w.annEdge <= w'.r.next + w'.ann && w'.ann <= w'.r.wnd
  {
    CreditedExact(w.r.wnd, n, tcpWnd, passive);
    AnnounceKeepsEdge(w.r.next, Credited(w.r.wnd, n, tcpWnd, passive), w.annEdge, mss, tcpWnd);
  }

  /** Once the application has taken everything, the window is open, and the next segment says so unless the step is
      too small to announce. */
  lemma CreditReopens(w: Flow, passive: bool, mss: u16, tcpWnd: u16)
    requires Sound(w, tcpWnd) && !w.finDue
    ensures var v := Step(w, Consume(w.uncredited, passive), mss, tcpWnd);
            && v.r.wnd == tcpWnd && v.annEdge == w.annEdge
            && (v.r.next + tcpWnd >= w.annEdge + Min(tcpWnd / 2, mss) ==>
                  Step(v, Announce, mss, tcpWnd).annEdge == w.r.next + tcpWnd)
  {
    CreditedIs(w.r.wnd, w.uncredited, tcpWnd, passive);
  }

  lemma WiderEdge(q: seq<R.Seg>, edge: int, edge': int)
    requires R.WithinEdge(q, edge) && edge <= edge'
    ensures R.WithinEdge(q, edge')
  {
  }

  /** A legal step keeps the window sound, never moves its right edge left, and never takes back what has been
      announced. */
  lemma StepKeepsSound(w: Flow, e: Event, mss: u16, tcpWnd: u16, stream: seq<byte>)
    requires R.Inv(w.r, stream) && Sound(w, tcpWnd) && Legal(w, e, stream)
    ensures var w' := Step(w, e, mss, tcpWnd);
            && R.Inv(w'.r, stream) && Sound(w', tcpWnd)
            && w.r.next + w.r.wnd <= w'.r.next + w'.r.wnd
            && w.annEdge <= w'.annEdge
  {
    match e
    case Arrive(seg, alloc) =>
      ArriveKeepsInv(w, seg, alloc, mss, tcpWnd, stream);
      ArriveSoundIff(w, seg, alloc, mss, tcpWnd, stream);
    case Consume(n, passive) =>
      CreditedExact(w.r.wnd, n, tcpWnd, passive);
      ConsumeSoundIff(w, n, passive, mss, tcpWnd);
    case CountFin =>
      WiderEdge(w.r.ooseq, w.r.next + w.r.wnd, w.r.next + w.r.wnd + 1);
    case Announce =>
    case DropQueue =>
  }

  // ----- Runs -----

  function Opened(tcpWnd: u16): Flow { Flow(R.Opened(tcpWnd), tcpWnd, 0, 0, false) }

  function Run(w: Flow, es: seq<Event>, mss: u16, tcpWnd: u16): Flow
    decreases |es|
  {
    if es == [] then w else Run(Step(w, es[0], mss, tcpWnd), es[1..], mss, tcpWnd)
  }

  ghost predicate LegalRun(w: Flow, es: seq<Event>, mss: u16, tcpWnd: u16, stream: seq<byte>)
    decreases |es|
  {
    es == [] || (Legal(w, es[0], stream) && LegalRun(Step(w, es[0], mss, tcpWnd), es[1..], mss, tcpWnd, stream))
  }

  /** Over every legal run of a receiver neither the available nor the announced right edge moves left. */
  lemma {:induction false} RunNeverShrinks(w: Flow, es: seq<Event>, mss: u16, tcpWnd: u16, stream: seq<byte>)
    requires R.Inv(w.r, stream) && Sound(w, tcpWnd) && LegalRun(w, es, mss, tcpWnd, stream)
    ensures var w' := Run(w, es, mss, tcpWnd);
            && R.Inv(w'.r, stream) && Sound(w', tcpWnd)
            && w.r.next + w.r.wnd <= w'.r.next + w'.r.wnd
            && w.annEdge <= w'.annEdge <= w'.r.next + w'.ann
    decreases |es|
  {
    if es != [] {
      StepKeepsSound(w, es[0], mss, tcpWnd, stream);
      RunNeverShrinks(Step(w, es[0], mss, tcpWnd), es[1..], mss, tcpWnd, stream);
    }
  }

  /** What the next segment sent will announce. */
  predicate Thrifty(w: Flow, mss: u16, tcpWnd: u16) { Worthwhile(w.annEdge, w.r.next + w.ann, w.r.next, mss, tcpWnd) }

  lemma StepKeepsThrifty(w: Flow, e: Event, mss: u16, tcpWnd: u16, stream: seq<byte>)
    requires R.Inv(w.r, stream) && Sound(w, tcpWnd) && Legal(w, e, stream) && Thrifty(w, mss, tcpWnd)
    ensures Thrifty(Step(w, e, mss, tcpWnd), mss, tcpWnd)
  {
    hide AnnounceWindow, Credited, R.Receive, R.FitsWindow, R.Inv;
    StepKeepsSound(w, e, mss, tcpWnd, stream);
    var w' := Step(w, e, mss, tcpWnd);
    if e.Consume? || (e.Arrive? && w'.r.next != w.r.next) {
      AnnounceThrifty(w'.r.next, w'.r.wnd, w.annEdge, mss, tcpWnd);
    }
  }

  /** Over every legal run, each segment sent leaves the announced edge in place, moves it to where the peer has got, or
      moves it by half the window or a segment. */
  lemma {:induction false} RunAnnouncesThriftily(w: Flow, es: seq<Event>, mss: u16, tcpWnd: u16, stream: seq<byte>)
    requires R.Inv(w.r, stream) && Sound(w, tcpWnd) && LegalRun(w, es, mss, tcpWnd, stream) && Thrifty(w, mss, tcpWnd)
    ensures var v := Run(w, es, mss, tcpWnd);
            Worthwhile(v.annEdge, Step(v, Announce, mss, tcpWnd).annEdge, v.r.next, mss, tcpWnd)
    decreases |es|
  {
    if es != [] {
      StepKeepsSound(w, es[0], mss, tcpWnd, stream);
      StepKeepsThrifty(w, es[0], mss, tcpWnd, stream);
      RunAnnouncesThriftily(Step(w, es[0], mss, tcpWnd), es[1..], mss, tcpWnd, stream);
    }
  }

  /** A peer that never sends beyond what was announced sends only segments that fit. */
  lemma AnnouncedFits(w: Flow, seg: R.Seg, alloc: bool, tcpWnd: u16)
    requires Sound(w, tcpWnd) && seg.TcpEnd() <= w.annEdge
    ensures R.FitsWindow(w.r, seg, alloc)
  {
  }

  ghost predicate PeerObeys(w: Flow, es: seq<Event>, mss: u16, tcpWnd: u16, stream: seq<byte>)
    decreases |es|
  {
    es == [] || (&& (if es[0].Arrive? then R.FromStream(es[0].seg, stream) && es[0].seg.TcpEnd() <= w.annEdge
                     else Legal(w, es[0], stream))
                 && PeerObeys(Step(w, es[0], mss, tcpWnd), es[1..], mss, tcpWnd, stream))
  }

  /** So against such a peer, from the start of the connection, the window never shrinks and no arrival is too large
      for it. */
  lemma {:induction false} ObeyedRunIsLegal(w: Flow, es: seq<Event>, mss: u16, tcpWnd: u16, stream: seq<byte>)
    requires R.Inv(w.r, stream) && Sound(w, tcpWnd) && PeerObeys(w, es, mss, tcpWnd, stream)
    ensures LegalRun(w, es, mss, tcpWnd, stream) && Sound(Run(w, es, mss, tcpWnd), tcpWnd)
    decreases |es|
  {
    if es != [] {
      if es[0].Arrive? {
        AnnouncedFits(w, es[0].seg, es[0].alloc, tcpWnd);
      }
      StepKeepsSound(w, es[0], mss, tcpWnd, stream);
      ObeyedRunIsLegal(Step(w, es[0], mss, tcpWnd), es[1..], mss, tcpWnd, stream);
    }
  }

  /** The peer has got no further than what was announced. */
  ghost predicate Behind(w: Flow) { w.r.next <= w.annEdge && R.WithinEdge(w.r.ooseq, w.annEdge) }

  lemma ArriveKeepsBehind(w: Flow, seg: R.Seg, alloc: bool, mss: u16, tcpWnd: u16, stream: seq<byte>)
    requires R.Inv(w.r, stream) && R.FromStream(seg, stream) && Behind(w) && seg.TcpEnd() <= w.annEdge
    ensures Behind(Step(w, Arrive(seg, alloc), mss, tcpWnd))
  {
    if !w.r.gotFin {
      R.ReceiveStaysBelow(w.r, seg, alloc, stream, w.annEdge);
    }
  }

  lemma StepKeepsBehind(w: Flow, e: Event, mss: u16, tcpWnd: u16, stream: seq<byte>)
    requires R.Inv(w.r, stream) && Sound(w, tcpWnd) && Behind(w) && Legal(w, e, stream)
    requires e.Arrive? ==> e.seg.TcpEnd() <= w.annEdge
    ensures Behind(Step(w, e, mss, tcpWnd))
  {
    match e
    case Arrive(seg, alloc) => ArriveKeepsBehind(w, seg, alloc, mss, tcpWnd, stream);
    case Announce => WiderEdge(w.r.ooseq, w.annEdge, w.r.next + w.ann);
    case _ =>
  }

  /** Against such a peer, each segment sent leaves the announced edge in place or moves it by half the window or a
      segment. */
  lemma {:induction false} ObeyedRunAnnounces(w: Flow, es: seq<Event>, mss: u16, tcpWnd: u16, stream: seq<byte>)
    requires R.Inv(w.r, stream) && Sound(w, tcpWnd) && Thrifty(w, mss, tcpWnd) && Behind(w)
    requires PeerObeys(w, es, mss, tcpWnd, stream)
    ensures var v := Run(w, es, mss, tcpWnd);
            var edge := Step(v, Announce, mss, tcpWnd).annEdge;
            edge == v.annEdge || edge >= v.annEdge + Min(tcpWnd / 2, mss)
    decreases |es|
  {
    if es != [] {
      if es[0].Arrive? {
        AnnouncedFits(w, es[0].seg, es[0].alloc, tcpWnd);
      }
      StepKeepsSound(w, es[0], mss, tcpWnd, stream);
      StepKeepsThrifty(w, es[0], mss, tcpWnd, stream);
      StepKeepsBehind(w, es[0], mss, tcpWnd, stream);
      ObeyedRunAnnounces(Step(w, es[0], mss, tcpWnd), es[1..], mss, tcpWnd, stream);
    }
  }

  /** A connection starts so, once it has announced its window. */
  lemma OpenedThrifty(mss: u16, tcpWnd: u16)
    ensures Thrifty(Opened(tcpWnd), mss, tcpWnd)
    ensures var w := Step(Opened(tcpWnd), Announce, mss, tcpWnd); Thrifty(w, mss, tcpWnd) && Behind(w)
  {
  }

  lemma OpenedSound(tcpWnd: u16, stream: seq<byte>)
    ensures R.Inv(Opened(tcpWnd).r, stream) && Sound(Opened(tcpWnd), tcpWnd)
  {
  }
}
