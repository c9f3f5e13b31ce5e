/** Acknowledgement processing of tcp_receive over unbounded stream positions. */
module TcpAck {
  /** A segment on the unacked or unsent queue: `flag` says that it carries SYN or FIN. */
  datatype Sent = Sent(start: int, len: nat, flag: bool, pbufs: nat)

  /** TCP_TCPLEN */
  function TcpLen(s: Sent): nat { s.len + if s.flag then 1 else 0 }

  function End(s: Sent): int { s.start + TcpLen(s) }

  datatype Flight = Flight(lastack: int, nxt: int, unacked: seq<Sent>, unsent: seq<Sent>, sndBuf: nat, queueLen: nat)

  function DataBytes(q: seq<Sent>): nat { if q == [] then 0 else q[0].len + DataBytes(q[1..]) }

  function Pbufs(q: seq<Sent>): nat { if q == [] then 0 else q[0].pbufs + Pbufs(q[1..]) }

  /** Segments are in order of where they end, all above `low`. */
  ghost predicate Ascending(q: seq<Sent>, low: int) {
    q != [] ==> End(q[0]) > low && Ascending(q[1..], End(q[0]))
  }

  /** `buf` is the size of the send buffer. */
  ghost predicate Inv(f: Flight, buf: nat) {
    && f.lastack <= f.nxt
    && Ascending(f.unacked, f.lastack) && Ascending(f.unsent, f.lastack)
    && (forall s :: s in f.unacked ==> End(s) <= f.nxt)
    && f.queueLen == Pbufs(f.unacked) + Pbufs(f.unsent)
    && f.sndBuf + DataBytes(f.unacked) + DataBytes(f.unsent) == buf
  }

  /** No unsent segment ends before an unacknowledged one. */
  ghost predicate InOrder(f: Flight) { Ascending(f.unacked + f.unsent, f.lastack) }

  // ----- One acknowledgement -----

  /** Drop the segments at the head that end at or below `ack`. */
  function DropAcked(q: seq<Sent>, ack: int): seq<Sent> {
    if q != [] && End(q[0]) <= ack then DropAcked(q[1..], ack) else q
  }

  /** The acknowledgement is for new data that was sent. */
  predicate AcksNew(f: Flight, ack: int) { f.lastack < ack <= f.nxt }

  function Acknowledge(f: Flight, ack: int): Flight {
    var unacked := if AcksNew(f, ack) then DropAcked(f.unacked, ack) else f.unacked;
    var unsent := if ack <= f.nxt then DropAcked(f.unsent, ack) else f.unsent;
    var bytes := DataBytes(f.unacked) - DataBytes(unacked) + DataBytes(f.unsent) - DataBytes(unsent);
    var pbufs := Pbufs(f.unacked) - Pbufs(unacked) + Pbufs(f.unsent) - Pbufs(unsent);
    DropShrinks(f.unacked, ack); DropShrinks(f.unsent, ack);
    Flight(if AcksNew(f, ack) then ack else f.lastack, f.nxt, unacked, unsent, f.sndBuf + bytes,
           if f.queueLen >= pbufs then f.queueLen - pbufs else 0)
  }

  lemma {:induction false} DropShrinks(q: seq<Sent>, ack: int)
    ensures DataBytes(DropAcked(q, ack)) <= DataBytes(q) && Pbufs(DropAcked(q, ack)) <= Pbufs(q)
  {
    if q != [] && End(q[0]) <= ack {
      DropShrinks(q[1..], ack);
    }
  }

  lemma {:induction false} AscendingAt(q: seq<Sent>, low: int, i: nat)
    requires Ascending(q, low) && i < |q|
    ensures End(q[i]) > low
    decreases i
  {
    if i > 0 {
      AscendingAt(q[1..], End(q[0]), i - 1);
    }
  }

  lemma {:induction false} AscendingLower(q: seq<Sent>, low: int, low': int)
    requires Ascending(q, low) && low' <= low
    ensures Ascending(q, low')
  {
  }

  lemma {:induction false} AscendingCat(a: seq<Sent>, b: seq<Sent>, low: int)
    ensures Ascending(a + b, low) <==>
            Ascending(a, low) && Ascending(b, if a == [] then low else End(a[|a| - 1]))
    decreases |a|
  {
    if a == [] {
      assert a + b == b;
    } else {
      assert (a + b)[1..] == a[1..] + b;
      AscendingCat(a[1..], b, End(a[0]));
    }
  }

  /** In an ascending queue exactly the acknowledged segments are dropped. */
  lemma {:induction false} DropExact(q: seq<Sent>, low: int, ack: int) returns (k: nat)
    requires Ascending(q, low)
    ensures k <= |q| && DropAcked(q, ack) == q[k..] && Ascending(q[k..], ack)
    ensures forall i :: 0 <= i < |q| ==> (i < k <==> End(q[i]) <= ack)
  {
    if q != [] && End(q[0]) <= ack {
      k := DropExact(q[1..], End(q[0]), ack);
      k := k + 1;
      assert forall i :: 1 <= i < |q| ==> q[i] == q[1..][i - 1];
    } else {
      k := 0;
      forall i | 0 <= i < |q| ensures End(q[i]) > ack {
        if i > 0 {
          AscendingAt(q[1..], End(q[0]), i - 1);
        }
      }
    }
  }

  lemma {:induction false} CountsCat(a: seq<Sent>, b: seq<Sent>)
    ensures DataBytes(a + b) == DataBytes(a) + DataBytes(b) && Pbufs(a + b) == Pbufs(a) + Pbufs(b)
    decreases |a|
  {
    if a == [] {
      assert a + b == b;
    } else {
      assert (a + b)[1..] == a[1..] + b;
      CountsCat(a[1..], b);
    }
  }

  /** The main property of acknowledgement: the segments freed are exactly those that the acknowledgement covers, and
      none when it is old or for data never sent; the send buffer and the queue length account for them. */
  lemma AcknowledgeExact(f: Flight, buf: nat, ack: int) returns (k: nat, j: nat)
    requires Inv(f, buf)
    ensures var g := Acknowledge(f, ack);
            && Inv(g, buf) && g.nxt == f.nxt
            && g.lastack == (if AcksNew(f, ack) then ack else f.lastack)
            && k <= |f.unacked| && g.unacked == f.unacked[k..] && j <= |f.unsent| && g.unsent == f.unsent[j..]
    ensures forall i :: 0 <= i < |f.unacked| ==> (i < k <==> AcksNew(f, ack) && End(f.unacked[i]) <= ack)
    ensures forall i :: 0 <= i < |f.unsent| ==> (i < j <==> AcksNew(f, ack) && End(f.unsent[i]) <= ack)
  {
    k := DropExact(f.unacked, f.lastack, ack);
    j := DropExact(f.unsent, f.lastack, ack);
    DropShrinks(f.unacked, ack);
    DropShrinks(f.unsent, ack);
    if !AcksNew(f, ack) {
      k, j := 0, 0;
      OldAck(f, buf, ack);
    }
  }

  /** Every queued segment ends above what was acknowledged before, so an old acknowledgement frees nothing. */
  lemma OldAck(f: Flight, buf: nat, ack: int)
    requires Inv(f, buf) && !AcksNew(f, ack)
    ensures Acknowledge(f, ack) == f
  {
    if ack <= f.nxt && f.unsent != [] {
      AscendingAt(f.unsent, f.lastack, 0);
    }
  }

  lemma AcknowledgeInOrder(f: Flight, buf: nat, ack: int)
    requires Inv(f, buf) && InOrder(f)
    ensures InOrder(Acknowledge(f, ack))
  {
    if AcksNew(f, ack) {
      var a, b := f.unacked, f.unsent;
      AscendingCat(a, b, f.lastack);
      var k := DropExact(a, f.lastack, ack);
      var j := DropExact(b, f.lastack, ack);
      if k == |a| {
        assert a[k..] + b[j..] == b[j..];
      } else {
        assert b[0..] == b;
        AscendingCat(a[k..], b, ack);
      }
    } else {
      OldAck(f, buf, ack);
    }
  }

  // ----- Runs of the sender -----

  /** Queueing a segment, sending the first unsent one, moving everything back for retransmission, and the arrival of an
      acknowledgement. */
  datatype Event = Queue(s: Sent) | Transmit | Requeue | Ack(ack: int)

  ghost predicate Legal(f: Flight, e: Event) {
    match e
    case Queue(s) => s.len <= f.sndBuf && Ascending(f.unacked + f.unsent + [s], f.lastack)
    case Transmit => f.unsent != []
    case Requeue => true
    case Ack(_) => true
  }

  function Step(f: Flight, e: Event): Flight {
    match e
    case Queue(s) =>
      if s.len <= f.sndBuf then
        f.(unsent := f.unsent + [s], sndBuf := f.sndBuf - s.len, queueLen := f.queueLen + s.pbufs)
      else f
    case Transmit =>
      if f.unsent == [] then f
      else
        var s := f.unsent[0];
        f.(unacked := f.unacked + [s], unsent := f.unsent[1..], nxt := if f.nxt < End(s) then End(s) else f.nxt)
    case Requeue => f.(unacked := [], unsent := f.unacked + f.unsent)
    case Ack(ack) => Acknowledge(f, ack)
  }

  lemma QueueKeepsInv(f: Flight, buf: nat, s: Sent)
    requires Inv(f, buf) && InOrder(f) && Legal(f, Queue(s))
    ensures Inv(Step(f, Queue(s)), buf) && InOrder(Step(f, Queue(s)))
  {
    CountsCat(f.unsent, [s]);
    assert [s][1..] == [];
    assert f.unacked + f.unsent + [s] == f.unacked + (f.unsent + [s]);
    OrderedQueues(f.unacked, f.unsent + [s], f.lastack);
  }

  lemma TransmitKeepsInv(f: Flight, buf: nat)
    requires Inv(f, buf) && InOrder(f) && f.unsent != []
    ensures Inv(Step(f, Transmit), buf) && InOrder(Step(f, Transmit))
  {
    var s := f.unsent[0];
    CountsCat(f.unacked, [s]);
    assert [s][1..] == [];
    assert f.unacked + [s] + f.unsent[1..] == f.unacked + f.unsent;
    OrderedQueues(f.unacked + [s], f.unsent[1..], f.lastack);
  }

  lemma RequeueKeepsInv(f: Flight, buf: nat)
    requires Inv(f, buf) && InOrder(f)
    ensures Inv(Step(f, Requeue), buf) && InOrder(Step(f, Requeue))
  {
    CountsCat(f.unacked, f.unsent);
    assert [] + (f.unacked + f.unsent) == f.unacked + f.unsent;
  }

  lemma OrderedQueues(a: seq<Sent>, b: seq<Sent>, low: int)
    requires Ascending(a + b, low)
    ensures Ascending(a, low) && Ascending(b, low)
  {
    AscendingCat(a, b, low);
    if a != [] {
      AscendingAt(a, low, |a| - 1);
      AscendingLower(b, End(a[|a| - 1]), low);
    }
  }

  lemma StepKeepsInv(f: Flight, buf: nat, e: Event)
    requires Inv(f, buf) && InOrder(f) && Legal(f, e)
    ensures Inv(Step(f, e), buf) && InOrder(Step(f, e))
    ensures f.lastack <= Step(f, e).lastack && f.nxt <= Step(f, e).nxt
  {
    match e
    case Queue(s) => QueueKeepsInv(f, buf, s);
    case Transmit => TransmitKeepsInv(f, buf);
    case Requeue => RequeueKeepsInv(f, buf);
    case Ack(ack) =>
      var k, j := AcknowledgeExact(f, buf, ack);
      AcknowledgeInOrder(f, buf, ack);
  }

  ghost predicate LegalRun(f: Flight, es: seq<Event>)
    decreases |es|
  {
    es != [] ==> Legal(f, es[0]) && LegalRun(Step(f, es[0]), es[1..])
  }

  function Run(f: Flight, es: seq<Event>): Flight
    decreases |es|
  {
    if es == [] then f else Run(Step(f, es[0]), es[1..])
  }

  /** Over every run the buffer space and the queued bytes add up, and the acknowledged position only moves forward and
      never past what was sent. */
  lemma {:induction false} RunKeepsInv(f: Flight, buf: nat, es: seq<Event>)
    requires Inv(f, buf) && InOrder(f) && LegalRun(f, es)
    ensures Inv(Run(f, es), buf) && InOrder(Run(f, es)) && f.lastack <= Run(f, es).lastack <= Run(f, es).nxt
    decreases |es|
  {
    if es != [] {
      StepKeepsInv(f, buf, es[0]);
      RunKeepsInv(Step(f, es[0]), buf, es[1..]);
    }
  }
}
