/** What pbuf_copy returns, from the lengths of the two chains.

    `Outcome` follows the loop of pbuf_copy on lengths alone.  `CopiesIff` gives a closed form for when it succeeds, on
    all chains with room for the source.
 */
module CopyOutcome {
  import opened Common

  function Total(q: seq<nat>): nat { if q == [] then 0 else q[0] + Total(q[1..]) }

  /** The first pbuf holds all that is left, and others follow: pbuf_copy takes them for another packet. */
  predicate Queue(q: seq<nat>) { |q| >= 2 && Total(q[1..]) == 0 }

  /** Before a round of the loop: the lengths of the pbufs from the current ones on, `to` bytes of the first target
      pbuf written and `fo` bytes of the first source pbuf read. */
  datatype Round = Round(ts: seq<nat>, to: nat, fs: seq<nat>, fo: nat)

  /** A position at the start of a pbuf or inside it. */
  predicate At(q: seq<nat>, off: nat) { q != [] && (off == 0 || off < q[0]) }

  predicate Ready(r: Round) { At(r.ts, r.to) && At(r.fs, r.fo) }

  function Length(r: Round): nat
    requires Ready(r)
  {
    Min(r.ts[0] - r.to, r.fs[0] - r.fo)
  }

  function Rest(q: seq<nat>, off: nat): seq<nat>
    requires q != []
  {
    if off >= q[0] then q[1..] else q
  }

  function Offset(q: seq<nat>, off: nat): nat
    requires q != []
  {
    if off >= q[0] then 0 else off
  }

  /** One memcpy, and on to the next pbuf on the sides that are at the end of theirs. */
  function Next(r: Round): Round
    requires Ready(r)
  {
    var m := Length(r);
    Round(Rest(r.ts, r.to + m), Offset(r.ts, r.to + m), Rest(r.fs, r.fo + m), Offset(r.fs, r.fo + m))
  }

  function Outcome(r: Round): Err
    requires Ready(r)
    decreases |r.ts| + |r.fs|
  {
    var r' := Next(r);
    if r'.ts == [] && r'.fs != [] then ErrArg
    else if Queue(r'.fs) || Queue(r'.ts) then ErrVal
    else if r'.fs == [] then Ok
    else Outcome(r')
  }

  ghost predicate Positive(q: seq<nat>) { forall i :: 0 <= i < |q| ==> q[i] > 0 }

  /** The target has room for what is left of the source. */
  ghost predicate Room(r: Round) { Total(r.fs) - r.fo <= Total(r.ts) - r.to }

  lemma {:induction false} TotalAtLeast(q: seq<nat>, i: nat)
    requires i < |q|
    ensures Total(q) >= q[i]
    decreases i
  {
    if i > 0 {
      TotalAtLeast(q[1..], i - 1);
    }
  }

  lemma AllZero(q: seq<nat>)
    requires Total(q) == 0
    ensures forall i :: 0 <= i < |q| ==> q[i] == 0
  {
    forall i | 0 <= i < |q| ensures q[i] == 0 {
      TotalAtLeast(q, i);
    }
  }

  lemma NoQueue(q: seq<nat>)
    requires q == [] || q[|q| - 1] > 0
    ensures !Queue(q)
  {
    if |q| >= 2 {
      TotalAtLeast(q[1..], |q| - 2);
    }
  }

  lemma OneLeft(q: seq<nat>)
    requires |q| == 1
    ensures Total(q) == q[0]
  {
  }

  lemma LeftPositive(q: seq<nat>, off: nat)
    requires At(q, off) && q[|q| - 1] > 0
    ensures Total(q) > off
  {
    if |q| == 1 {
      OneLeft(q);
    } else {
      TotalAtLeast(q[1..], |q| - 2);
    }
  }

  /** Both sides lose the bytes of one memcpy. */
  lemma NextTotals(r: Round)
    requires Ready(r)
    ensures var r' := Next(r);
            && Total(r'.fs) - r'.fo == Total(r.fs) - r.fo - Length(r)
            && Total(r'.ts) - r'.to == Total(r.ts) - r.to - Length(r)
            && (r'.fs != [] ==> At(r'.fs, r'.fo)) && (r'.ts != [] ==> At(r'.ts, r'.to))
  {
  }

  // ----- A target without empty pbufs -----

  /** The source ends in a pbuf with data, is a single pbuf, or is one pbuf and an empty one of which the first ends
      inside the first target pbuf or together with it, before another. */
  predicate SourceOk(r: Round)
    requires Ready(r)
  {
    || |r.fs| == 1 || r.fs[|r.fs| - 1] > 0
    || (|r.fs| == 2 && (r.fs[0] - r.fo < r.ts[0] - r.to || (r.fs[0] - r.fo == r.ts[0] - r.to && |r.ts| >= 2)))
  }

  lemma EmptyLast(q: seq<nat>)
    requires |q| == 2 && q[1] == 0
    ensures Queue(q)
  {
    OneLeft(q[1..]);
  }

  /** While source is left, its last pbuf decides. */
  lemma SourceOkStep(r: Round)
    requires Ready(r) && Positive(r.ts) && Room(r) && Next(r).fs != []
    ensures var r' := Next(r);
            SourceOk(r) <==> r'.ts != [] && !Queue(r'.fs) && SourceOk(r')
  {
    hide Queue;
    var r' := Next(r);
    NextTotals(r);
    assert r'.fs[|r'.fs| - 1] == r.fs[|r.fs| - 1];
    if r.fs[|r.fs| - 1] > 0 {
      LeftPositive(r'.fs, r'.fo);
      NoQueue(r'.fs);
    } else if |r'.fs| == 2 {
      EmptyLast(r'.fs);
    } else if |r.fs| == 1 {
      OneLeft(r.fs);
      NoSingleQueue(r.fs);
    } else if |r'.fs| == 1 {
      NoSingleQueue(r'.fs);
    }
  }

  lemma NoSingleQueue(q: seq<nat>)
    requires |q| <= 1
    ensures !Queue(q)
  {
  }

  lemma {:induction false} IntoFullIff(r: Round)
    requires Ready(r) && Positive(r.ts) && Room(r)
    ensures Outcome(r) == Ok <==> SourceOk(r)
    decreases |r.ts| + |r.fs|
  {
    hide SourceOk, Queue;
    var r' := Next(r);
    NextTotals(r);
    NoQueue(r'.ts);
    if r'.fs == [] {
      NoSingleQueue(r'.fs);
      SourceOkLast(r);
    } else {
      SourceOkStep(r);
      if r'.ts != [] && !Queue(r'.fs) {
        IntoFullIff(r');
      }
    }
  }

  lemma SourceOkLast(r: Round)
    requires Ready(r) && Next(r).fs == []
    ensures SourceOk(r)
  {
  }

  // ----- A source that ends in a pbuf with data -----

  /** The last pbuf with data. */
  function LastFull(q: seq<nat>): (l: nat)
    requires Total(q) > 0
    ensures l < |q| && q[l] > 0 && forall i :: l < i < |q| ==> q[i] == 0
  {
    if Total(q[1..]) > 0 then 1 + LastFull(q[1..]) else AllZero(q[1..]); 0
  }

  /** The target ends in a pbuf with data; or the copy ends before the last pbuf with data is reached; or there is just
      one empty pbuf after the first, which the first source pbuf fills. */
  predicate TargetOk(r: Round)
    requires Ready(r) && Total(r.ts) > 0
  {
    var l := LastFull(r.ts);
    var room, n := Total(r.ts[..l]) - r.to, Total(r.fs) - r.fo;
    || l == |r.ts| - 1
    || (l >= 1 && (room > n || (room == n && r.ts[l - 1] == 0)))
    || (l == 0 && |r.ts| == 2 && r.fs[0] - r.fo >= r.ts[0] - r.to)
  }

  lemma QueueIff(q: seq<nat>)
    requires Total(q) > 0
    ensures Queue(q) <==> LastFull(q) == 0 && |q| >= 2
  {
  }

  lemma ZeroQueueIff(q: seq<nat>)
    requires Total(q) == 0
    ensures Queue(q) <==> |q| >= 2
  {
  }

  lemma NextFull(ts: seq<nat>)
    requires Total(ts) > 0 && LastFull(ts) >= 1
    ensures Total(ts[1..]) > 0 && LastFull(ts[1..]) == LastFull(ts) - 1
  {
  }

  /** What is before the last pbuf with data, one pbuf further. */
  lemma NextPbuf(ts: seq<nat>)
    requires Total(ts) > 0 && LastFull(ts) >= 1
    ensures Total(ts[1..]) > 0 && LastFull(ts[1..]) == LastFull(ts) - 1
    ensures Total(ts[..LastFull(ts)]) == ts[0] + Total(ts[1..][..LastFull(ts) - 1])
    ensures LastFull(ts) >= 2 ==> Total(ts[1..][..LastFull(ts) - 1]) >= ts[LastFull(ts) - 1]
    ensures LastFull(ts) == 1 ==> Total(ts[1..][..LastFull(ts) - 1]) == 0
  {
    var l := LastFull(ts);
    NextFull(ts);
    hide LastFull;
    assert ts[..l][1..] == ts[1..][..l - 1];
    if l >= 2 {
      TotalAtLeast(ts[1..][..l - 1], l - 2);
    }
  }

  lemma NothingAfter(ts: seq<nat>)
    requires Total(ts) > 0 && LastFull(ts) == 0
    ensures Total(ts) == ts[0] && Total(ts[1..]) == 0
  {
  }

  /** The copy ends here. */
  lemma TargetOkLast(r: Round)
    requires Ready(r) && r.fs[|r.fs| - 1] > 0 && Room(r) && Next(r).fs == [] && Total(r.ts) > 0
    ensures TargetOk(r) <==> !Queue(Next(r).ts)
  {
    hide Queue, Total, LastFull;
    OneLeft(r.fs);
    QueueIff(r.ts);
    if LastFull(r.ts) == 0 {
      NothingAfter(r.ts);
      ZeroQueueIff(r.ts[1..]);
    } else {
      NextPbuf(r.ts);
      QueueIff(r.ts[1..]);
    }
  }

  /** Source is left. */
  lemma TargetOkStep(r: Round)
    requires Ready(r) && r.fs[|r.fs| - 1] > 0 && Room(r) && Next(r).fs != [] && Total(r.ts) > 0
    ensures var r' := Next(r);
            Total(r'.ts) > 0 && Ready(r') && (TargetOk(r) <==> !Queue(r'.ts) && TargetOk(r'))
  {
    hide Queue, Total, LastFull;
    var r' := Next(r);
    NextTotals(r);
    LeftPositive(r'.fs, r'.fo);
    QueueIff(r.ts);
    if LastFull(r.ts) == 0 {
      NothingAfter(r.ts);
    } else {
      NextPbuf(r.ts);
      QueueIff(r.ts[1..]);
    }
  }

  lemma {:induction false} FromDataIff(r: Round)
    requires Ready(r) && r.fs[|r.fs| - 1] > 0 && Room(r)
    ensures Total(r.ts) > 0 && (Outcome(r) == Ok <==> TargetOk(r))
    decreases |r.ts| + |r.fs|
  {
    hide TargetOk, Queue, Total;
    var r' := Next(r);
    NextTotals(r);
    LeftPositive(r.fs, r.fo);
    NoQueue(r'.fs);
    if r'.fs == [] {
      TargetOkLast(r);
    } else {
      TargetOkStep(r);
      if !Queue(r'.ts) {
        FromDataIff(r');
      }
    }
  }

  // ----- A source that ends in an empty pbuf -----

  /** The target from the pbuf on in which the first source pbuf ends. */
  function TargetAfter(r: Round): seq<nat>
    requires Ready(r) && r.fs[0] - r.fo <= r.ts[0] - r.to
  {
    Rest(r.ts, r.to + r.fs[0] - r.fo)
  }

  /** There are no more than two source pbufs, and all of the first goes into the first target pbuf.  What is left of the
      target does not look like a packet queue, before and after an empty pbuf at its front is passed over. */
  predicate EmptyEndOk(r: Round)
    requires Ready(r)
  {
    && |r.fs| <= 2 && r.fs[0] - r.fo <= r.ts[0] - r.to && !Queue(TargetAfter(r))
    && (|r.fs| == 2 ==> TargetAfter(r) != [] && !Queue(Rest(TargetAfter(r), 0)))
  }

  lemma {:induction false} LongEmptyEnd(r: Round)
    requires Ready(r) && r.fs[|r.fs| - 1] == 0 && |r.fs| >= 3
    ensures Outcome(r) != Ok
    decreases |r.ts| + |r.fs|
  {
    hide Queue;
    var r' := Next(r);
    NextTotals(r);
    assert r'.fs[|r'.fs| - 1] == r.fs[|r.fs| - 1];
    if |r'.fs| == 2 {
      EmptyLast(r'.fs);
    } else if r'.ts != [] {
      LongEmptyEnd(r');
    }
  }

  /** An empty pbuf alone is read in one round. */
  lemma EmptyAlone(r: Round)
    requires Ready(r) && r.fs == [0]
    ensures Outcome(r) == Ok <==> !Queue(Rest(r.ts, r.to))
  {
    assert Next(r).fs == [] && Next(r).ts == Rest(r.ts, r.to);
    NoSingleQueue([]);
  }

  /** What the second of two pbufs, an empty one, meets. */
  lemma EmptySecond(r: Round)
    requires Ready(r) && |r.fs| == 2 && r.fs[1] == 0
    ensures Outcome(r) == Ok <==> EmptyEndOk(r)
  {
    hide Queue;
    var r' := Next(r);
    NextTotals(r);
    if r.fs[0] - r.fo <= r.ts[0] - r.to {
      assert r'.fs == [0] && r'.ts == TargetAfter(r);
      NoSingleQueue([0]);
      if r'.ts != [] {
        EmptyAlone(r');
        assert Rest(r'.ts, r'.to) == Rest(r'.ts, 0);
      }
    } else {
      assert r'.fs == r.fs;
      EmptyLast(r.fs);
    }
  }

  lemma FromEmptyIff(r: Round)
    requires Ready(r) && r.fs[|r.fs| - 1] == 0
    ensures Outcome(r) == Ok <==> EmptyEndOk(r)
  {
    hide Queue, Outcome, Next;
    if |r.fs| >= 3 {
      LongEmptyEnd(r);
    } else if |r.fs| == 2 {
      EmptySecond(r);
    } else {
      EmptyAlone(r);
    }
  }

  // ----- The whole call -----

  /** What can be told from the lengths before the call. */
  predicate Copies(r: Round)
    requires Ready(r)
  {
    if r.fs[|r.fs| - 1] > 0 then Total(r.ts) > 0 && TargetOk(r) else EmptyEndOk(r)
  }

  /** With room for the source, pbuf_copy succeeds exactly then. */
  lemma CopiesIff(r: Round)
    requires Ready(r) && Room(r)
    ensures Outcome(r) == Ok <==> Copies(r)
  {
    if r.fs[|r.fs| - 1] > 0 {
      FromDataIff(r);
    } else {
      FromEmptyIff(r);
    }
  }

  ghost function Begin(ts: seq<nat>, fs: seq<nat>): Round { Round(ts, 0, fs, 0) }

  /** What pbuf_copy returns for a target with pbufs of the lengths `ts` and a source with pbufs of the lengths `fs`. */
  ghost function Result(ts: seq<nat>, fs: seq<nat>): Err {
    if ts == [] || fs == [] || Total(ts) < Total(fs) then ErrArg else Outcome(Begin(ts, fs))
  }

  lemma ResultIff(ts: seq<nat>, fs: seq<nat>)
    ensures Result(ts, fs) == Ok <==> ts != [] && fs != [] && Total(fs) <= Total(ts) && Copies(Begin(ts, fs))
    ensures ts != [] && fs != [] && Total(fs) <= Total(ts) && Positive(ts) ==>
              (Result(ts, fs) == Ok <==> SourceOk(Begin(ts, fs)))
  {
    hide Copies, SourceOk, Outcome;
    if ts != [] && fs != [] && Total(fs) <= Total(ts) {
      CopiesIff(Begin(ts, fs));
      if Positive(ts) {
        IntoFullIff(Begin(ts, fs));
      }
    }
  }

  /** One byte is not copied, although there is room: from a chain that ends in two empty pbufs, from one that ends in
      an empty pbuf to a single pbuf, and to one that ends in an empty pbuf. */
  lemma EmptyPbufsFail()
    ensures Result([3], [1, 0, 0]) == ErrVal && Result([1], [1, 0]) == ErrArg && Result([3, 0], [1]) == ErrVal
  {
    assert [1, 0, 0][1..] == [0, 0] && [0, 0][1..] == [0] && [3, 0][1..] == [0] && [1, 0][1..] == [0];
    OneLeft([0]);
    OneLeft([1]);
    OneLeft([3]);
    assert Total([0, 0]) == 0;
    assert Next(Begin([3], [1, 0, 0])) == Round([3], 1, [0, 0], 0);
    assert Next(Begin([1], [1, 0])) == Round([], 0, [0], 0);
    assert Next(Begin([3, 0], [1])) == Round([3, 0], 1, [], 0);
  }
}
