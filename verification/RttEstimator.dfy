/** The round-trip estimator of tcp_receive and the backed-off retransmission time-out of tcp_slowtmr, in 16-bit
    arithmetic and in ticks of TCP_SLOW_INTERVAL. */
module RttEstimator {

  const SLOW_INTERVAL: nat := 500
  /** The initial values of `sv` and `rto`: three seconds. */
  const INITIAL: int := 3000 / SLOW_INTERVAL
  /** The largest entry of tcp_backoff. */
  const MAX_BACKOFF: nat := 7

  type s16 = x: int | -0x8000 <= x < 0x8000

  /** Conversion to a signed 16-bit word. */
  function Narrow(x: int): s16 { (x + 0x8000) % 0x1_0000 - 0x8000 }

  /** tcp_backoff[nrtx] */
  function BackoffShift(nrtx: nat): nat
    requires nrtx < 13
  {
    if nrtx < MAX_BACKOFF then nrtx + 1 else MAX_BACKOFF
  }

  function Pow2(n: nat): nat { if n == 0 then 1 else 2 * Pow2(n - 1) }

  /** The time-out doubles with every retransmission, the first included, until the seventh, and then stays. */
  lemma BackoffDoubles(nrtx: nat)
    requires nrtx < 12
    ensures Pow2(BackoffShift(0)) == 2
    ensures Pow2(BackoffShift(nrtx + 1)) == Pow2(BackoffShift(nrtx)) * if nrtx < 6 then 2 else 1
  {
    assert Pow2(1) == 2 * Pow2(0);
  }

  /** The estimator after a sample of `m` ticks; `sa` is eight times the smoothed round-trip time and `sv` four times
      its deviation. */
  datatype Estimate = Estimate(sa: int, sv: int)

  function Abs(x: int): nat { if x < 0 then -x else x }

  /** Right shifts by three and two bits. */
  function Eighth(x: int): int { x / 8 }
  function Quarter(x: int): int { x / 4 }

  function Update(e: Estimate, m: int): Estimate {
    var d := m - Eighth(e.sa);
    Estimate(e.sa + d, e.sv + Abs(d) - Quarter(e.sv))
  }

  function Timeout(e: Estimate): int { Eighth(e.sa) + e.sv }

  /** The bounds when no sample exceeds `r` ticks. */
  predicate Bounded(e: Estimate, r: nat) { 0 <= e.sa <= 8 * r + 7 && 3 <= e.sv <= 4 * r + 3 }

  lemma UpdateKeepsBounds(e: Estimate, m: int, r: nat)
    requires Bounded(e, r) && 0 <= m <= r
    ensures Bounded(Update(e, m), r)
  {
    var q := e.sa / 8;
    assert 8 * q <= e.sa < 8 * q + 8 && q <= r;
  }

  lemma TimeoutBounds(e: Estimate, r: nat)
    requires Bounded(e, r)
    ensures 3 <= Timeout(e) <= 5 * r + 3
  {
    var q := e.sa / 8;
    assert 8 * q <= e.sa < 8 * q + 8 && q <= r;
  }

  function Run(e: Estimate, samples: seq<int>): Estimate
    decreases |samples|
  {
    if samples == [] then e else Run(Update(e, samples[0]), samples[1..])
  }

  /** From the initial values, over every run of samples of at most `r` ticks, the time-out stays between three ticks,
      which is more than a second, and 5r + 3. */
  lemma {:induction false} RunBounded(e: Estimate, samples: seq<int>, r: nat)
    requires Bounded(e, r) && (forall i :: 0 <= i < |samples| ==> 0 <= samples[i] <= r)
    ensures Bounded(Run(e, samples), r) && 3 <= Timeout(Run(e, samples)) <= 5 * r + 3
    ensures Timeout(Run(e, samples)) * SLOW_INTERVAL >= 1000
    decreases |samples|
  {
    if samples == [] {
      TimeoutBounds(e, r);
    } else {
      UpdateKeepsBounds(e, samples[0], r);
      RunBounded(Update(e, samples[0]), samples[1..], r);
    }
  }

  lemma InitialBounded(r: nat)
    requires r >= 1
    ensures Bounded(Estimate(0, INITIAL), r)
  {
  }

  // ----- A steady round-trip time -----

  function Repeated(e: Estimate, m: int, n: nat): Estimate
    decreases n
  {
    if n == 0 then e else Repeated(Update(e, m), m, n - 1)
  }

  /** The smoothed time is `m` and the deviation as small as it gets. */
  predicate Steady(e: Estimate, m: int) { Eighth(e.sa) == m && e.sv == 3 }

  function Distance(sa: int, m: int): nat {
    if Eighth(sa) < m then 8 * m - sa else if Eighth(sa) > m then sa - 8 * m - 7 else 0
  }

  lemma CloserOrSmaller(e: Estimate, m: nat)
    requires e.sa >= 0 && e.sv >= 3 && !Steady(e, m)
    ensures var f := Update(e, m);
            && f.sa >= 0 && f.sv >= 3
            && (Distance(f.sa, m) < Distance(e.sa, m) || (Distance(f.sa, m) == Distance(e.sa, m) && f.sv < e.sv))
  {
    var q := e.sa / 8;
    assert 8 * q <= e.sa < 8 * q + 8;
  }

  /** When every sample is `m`, the time-out settles at `m` plus three ticks, from any state. */
  lemma {:induction false} Converges(e: Estimate, m: nat) returns (n: nat)
    requires e.sa >= 0 && e.sv >= 3
    ensures Steady(Repeated(e, m, n), m) && Timeout(Repeated(e, m, n)) == m + 3
    decreases Distance(e.sa, m), e.sv
  {
    if Steady(e, m) {
      n := 0;
    } else {
      CloserOrSmaller(e, m);
      n := Converges(Update(e, m), m);
      n := n + 1;
    }
  }

  /** And there it stays. */
  lemma {:induction false} SteadyStays(e: Estimate, m: int, n: nat)
    requires Steady(e, m)
    ensures Repeated(e, m, n) == e
    decreases n
  {
    if n > 0 {
      assert Update(e, m) == e;
      SteadyStays(e, m, n - 1);
    }
  }

  // ----- The longest samples for which every back-off fits 16 signed bits -----

  const LONGEST: int := 92

  /** The sides of a polygon that samples of at most LONGEST ticks do not leave. */
  predicate Under(sa: int, sv: int, i: int) {
    match i
    case 0 => 16 * sv <= -16 * sa + 11903
    case 1 => 16 * sv <= -15 * sa + 11239
    case 2 => 16 * sv <= -12 * sa + 9299
    case 3 => 16 * sv <= -11 * sa + 8687
    case 4 => 16 * sv <= -9 * sa + 7545
    case 5 => 16 * sv <= -8 * sa + 6991
    case 6 => 16 * sv <= -7 * sa + 6455
    case 7 => 16 * sv <= -5 * sa + 5455
    case 8 => 16 * sv <= -4 * sa + 4983
    case 9 => 16 * sv <= -2 * sa + 4095
    case 10 => 16 * sv <= 1 * sa + 2992
    case 11 => 16 * sv <= 4 * sa + 2067
    case 12 => 16 * sv <= 7 * sa + 1326
    case 13 => 16 * sv <= 10 * sa + 753
    case 14 => 16 * sv <= 13 * sa + 374
    case 15 => 16 * sv <= 16 * sa + 111
    case _ => true
  }

  ghost predicate Inside(e: Estimate) {
    0 <= e.sa <= 8 * LONGEST && 3 <= e.sv && forall i :: 0 <= i <= 15 ==> Under(e.sa, e.sv, i)
  }

  /** Quotients and remainders of `sa` and `sv`. */
  predicate Parts(q: int, r: int, p: int, t: int) {
    0 <= q && 0 <= r <= 7 && 0 <= t <= 3 && 8 * q + r <= 8 * LONGEST && 3 <= 4 * p + t
  }

  /** Where the estimate lies before a sample, after one of LONGEST, and after one of no time. */
  predicate Before(q: int, r: int, p: int, t: int, i: int) { Under(8 * q + r, 4 * p + t, i) }
  predicate Longest(q: int, r: int, p: int, t: int, i: int) { Under(7 * q + r + LONGEST, 3 * p + t + LONGEST - q, i) }
  predicate Shortest(q: int, r: int, p: int, t: int, i: int) { Under(7 * q + r, 3 * p + t + q, i) }

  // Each side is kept by the one or two sides that the estimate comes from; `q` tells on which side of their corner.

  lemma Rise0(q: int, r: int, p: int, t: int)
    requires Parts(q, r, p, t) && Before(q, r, p, t, 0) && Before(q, r, p, t, 1) && Before(q, r, p, t, 2)
    ensures Longest(q, r, p, t, 0) && Longest(q, r, p, t, 1)
  {
  }

  lemma Rise2(q: int, r: int, p: int, t: int)
    requires Parts(q, r, p, t) && Before(q, r, p, t, 2) && Before(q, r, p, t, 3) && Before(q, r, p, t, 4)
    ensures Longest(q, r, p, t, 2) && Longest(q, r, p, t, 3)
  {
  }

  lemma Rise4(q: int, r: int, p: int, t: int)
    requires Parts(q, r, p, t) && Before(q, r, p, t, 5) && Before(q, r, p, t, 6) && Before(q, r, p, t, 7)
    ensures Longest(q, r, p, t, 4) && Longest(q, r, p, t, 5) && Longest(q, r, p, t, 6)
  {
  }

  lemma Rise7(q: int, r: int, p: int, t: int)
    requires Parts(q, r, p, t) && Before(q, r, p, t, 8) && Before(q, r, p, t, 9)
    ensures Longest(q, r, p, t, 7) && Longest(q, r, p, t, 8)
  {
  }

  lemma Rise9(q: int, r: int, p: int, t: int)
    requires Parts(q, r, p, t) && Before(q, r, p, t, 9) && Before(q, r, p, t, 10)
    ensures Longest(q, r, p, t, 9)
  {
    if q <= 45 {} else {}
  }

  lemma Rise10(q: int, r: int, p: int, t: int)
    requires Parts(q, r, p, t) && Before(q, r, p, t, 10) && Before(q, r, p, t, 11)
    ensures Longest(q, r, p, t, 10)
  {
    if q <= 38 {} else {}
  }

  lemma Rise11(q: int, r: int, p: int, t: int)
    requires Parts(q, r, p, t) && Before(q, r, p, t, 12) && Before(q, r, p, t, 13)
    ensures Longest(q, r, p, t, 11)
  {
    if q <= 23 {} else {}
  }

  lemma Rise12(q: int, r: int, p: int, t: int)
    requires Parts(q, r, p, t) && Before(q, r, p, t, 13) && Before(q, r, p, t, 14)
    ensures Longest(q, r, p, t, 12)
  {
    if q <= 15 {} else {}
  }

  lemma Rise13(q: int, r: int, p: int, t: int)
    requires Parts(q, r, p, t) && Before(q, r, p, t, 14) && Before(q, r, p, t, 15)
    ensures Longest(q, r, p, t, 13)
  {
    if q <= 10 {} else {}
  }

  lemma Rise14(q: int, r: int, p: int, t: int)
    requires Parts(q, r, p, t) && Before(q, r, p, t, 15)
    ensures Longest(q, r, p, t, 14) && Longest(q, r, p, t, 15)
  {
  }

  lemma Fall0(q: int, r: int, p: int, t: int)
    requires Parts(q, r, p, t) && Before(q, r, p, t, 0)
    ensures Shortest(q, r, p, t, 0) && Shortest(q, r, p, t, 1) && Shortest(q, r, p, t, 2)
  {
  }

  lemma Fall3(q: int, r: int, p: int, t: int)
    requires Parts(q, r, p, t) && Before(q, r, p, t, 0) && Before(q, r, p, t, 1)
    ensures Shortest(q, r, p, t, 3)
  {
    if q <= 83 {} else {}
  }

  lemma Fall4(q: int, r: int, p: int, t: int)
    requires Parts(q, r, p, t) && Before(q, r, p, t, 1) && Before(q, r, p, t, 2)
    ensures Shortest(q, r, p, t, 4)
  {
    if q <= 80 {} else {}
  }

  lemma Fall5(q: int, r: int, p: int, t: int)
    requires Parts(q, r, p, t) && Before(q, r, p, t, 2) && Before(q, r, p, t, 3) && Before(q, r, p, t, 4)
    ensures Shortest(q, r, p, t, 5) && Shortest(q, r, p, t, 6)
  {
  }

  lemma Fall7(q: int, r: int, p: int, t: int)
    requires Parts(q, r, p, t) && Before(q, r, p, t, 4) && Before(q, r, p, t, 5)
    ensures Shortest(q, r, p, t, 7)
  {
    hide Parts, Before, Shortest;
    if q <= 69 {
      Fall7Left(q, r, p, t);
    } else {
      Fall7Right(q, r, p, t);
    }
  }

  lemma Fall7Left(q: int, r: int, p: int, t: int)
    requires Parts(q, r, p, t) && Before(q, r, p, t, 5) && q <= 69
    ensures Shortest(q, r, p, t, 7)
  {
  }

  lemma Fall7Right(q: int, r: int, p: int, t: int)
    requires Parts(q, r, p, t) && Before(q, r, p, t, 4) && q >= 70
    ensures Shortest(q, r, p, t, 7)
  {
  }

  lemma Fall8(q: int, r: int, p: int, t: int)
    requires Parts(q, r, p, t) && Before(q, r, p, t, 5) && Before(q, r, p, t, 6)
    ensures Shortest(q, r, p, t, 8)
  {
    if q <= 67 {} else {}
  }

  lemma Fall9(q: int, r: int, p: int, t: int)
    requires Parts(q, r, p, t) && Before(q, r, p, t, 6) && Before(q, r, p, t, 7) && Before(q, r, p, t, 8)
    ensures Shortest(q, r, p, t, 9)
  {
    if q <= 59 {} else if q <= 62 {} else {}
  }

  lemma Fall10(q: int, r: int, p: int, t: int)
    requires Parts(q, r, p, t) && Before(q, r, p, t, 9) && Before(q, r, p, t, 10) && Before(q, r, p, t, 11)
             && Before(q, r, p, t, 12)
    ensures Shortest(q, r, p, t, 10) && Shortest(q, r, p, t, 11) && Shortest(q, r, p, t, 12)
  {
  }

  lemma Fall13(q: int, r: int, p: int, t: int)
    requires Parts(q, r, p, t) && Before(q, r, p, t, 12) && Before(q, r, p, t, 13) && Before(q, r, p, t, 14)
             && Before(q, r, p, t, 15)
    ensures Shortest(q, r, p, t, 13) && Shortest(q, r, p, t, 14) && Shortest(q, r, p, t, 15)
  {
  }

  lemma LongestStays(q: int, r: int, p: int, t: int, i: int)
    requires Parts(q, r, p, t) && (forall j :: 0 <= j <= 15 ==> Before(q, r, p, t, j)) && 0 <= i <= 15
    ensures Longest(q, r, p, t, i)
  {
    hide Before, Parts, Longest;
    Rise0(q, r, p, t);
    Rise2(q, r, p, t);
    Rise4(q, r, p, t);
    Rise7(q, r, p, t);
    Rise9(q, r, p, t);
    Rise10(q, r, p, t);
    Rise11(q, r, p, t);
    Rise12(q, r, p, t);
    Rise13(q, r, p, t);
    Rise14(q, r, p, t);
  }

  lemma ShortestStays(q: int, r: int, p: int, t: int, i: int)
    requires Parts(q, r, p, t) && (forall j :: 0 <= j <= 15 ==> Before(q, r, p, t, j)) && 0 <= i <= 15
    ensures Shortest(q, r, p, t, i)
  {
    hide Before, Parts, Shortest;
    Fall0(q, r, p, t);
    Fall3(q, r, p, t);
    Fall4(q, r, p, t);
    Fall5(q, r, p, t);
    Fall7(q, r, p, t);
    Fall8(q, r, p, t);
    Fall9(q, r, p, t);
    Fall10(q, r, p, t);
    Fall13(q, r, p, t);
  }

  /** Samples in between are no worse. */
  lemma BetweenStays(sa: int, sv: int, q: int, m: int, i: int)
    requires 0 <= i <= 15 && 0 <= m <= LONGEST
    requires Under(sa + LONGEST - q, sv + LONGEST - q, i) && Under(sa - q, sv + q, i)
    ensures Under(sa + m - q, sv + Abs(m - q), i)
  {
  }

  lemma UpdateStaysInside(e: Estimate, m: int)
    requires Inside(e) && 0 <= m <= LONGEST
    ensures Inside(Update(e, m))
  {
    hide Under;
    var q, p := e.sa / 8, e.sv / 4;
    var r, t := e.sa - 8 * q, e.sv - 4 * p;
    assert forall j :: 0 <= j <= 15 ==> Before(q, r, p, t, j);
    forall i | 0 <= i <= 15 ensures Under(Update(e, m).sa, Update(e, m).sv, i) {
      LongestStays(q, r, p, t, i);
      ShortestStays(q, r, p, t, i);
      BetweenStays(e.sa, 3 * p + t, q, m, i);
    }
  }

  ghost predicate Within(samples: seq<int>, r: int) { forall i :: 0 <= i < |samples| ==> 0 <= samples[i] <= r }

  lemma {:induction false} RunStaysInside(e: Estimate, samples: seq<int>)
    requires Inside(e) && Within(samples, LONGEST)
    ensures Inside(Run(e, samples))
    decreases |samples|
  {
    hide Inside;
    if samples != [] {
      UpdateStaysInside(e, samples[0]);
      RunStaysInside(Update(e, samples[0]), samples[1..]);
    }
  }

  /** Inside the polygon a backed-off time-out fits 16 signed bits. */
  lemma BackoffFits(e: Estimate, nrtx: nat)
    requires Inside(e) && nrtx < 13
    ensures 3 <= Timeout(e) <= 255 && 3 <= Timeout(e) * Pow2(BackoffShift(nrtx)) < 0x8000
  {
    assert Under(e.sa, e.sv, 6) && Under(e.sa, e.sv, 7) && Under(e.sa, e.sv, 8) && Under(e.sa, e.sv, 9);
    Pow2Bounds(BackoffShift(nrtx));
    ProductBounds(Timeout(e), 255, Pow2(BackoffShift(nrtx)));
  }

  /** Over all runs of samples of at most `r` ticks and all numbers of retransmissions. */
  ghost predicate AlwaysFits(r: nat) {
    forall samples, nrtx: nat :: Within(samples, r) && nrtx < 13 ==>
      Timeout(Run(Estimate(0, INITIAL), samples)) * Pow2(BackoffShift(nrtx)) < 0x8000
  }

  function Copies(m: int, n: nat): seq<int> { if n == 0 then [] else [m] + Copies(m, n - 1) }

  lemma {:induction false} RunRepeats(e: Estimate, m: nat, n: nat)
    ensures Run(e, Copies(m, n)) == Repeated(e, m, n) && Within(Copies(m, n), m)
    decreases n
  {
    if n > 0 {
      assert Copies(m, n)[1..] == Copies(m, n - 1);
      RunRepeats(Update(e, m), m, n - 1);
    }
  }

  lemma RepeatedStep(e: Estimate, m: int, n: nat)
    ensures Repeated(e, m, n + 1) == Repeated(Update(e, m), m, n) && Repeated(e, m, 0) == e
  {
  }

  lemma LongUpdates()
    ensures Update(Estimate(0, INITIAL), 93) == Estimate(93, 98) && Update(Estimate(93, 98), 93) == Estimate(175, 156)
    ensures Update(Estimate(175, 156), 93) == Estimate(247, 189) && Update(Estimate(247, 189), 93) == Estimate(310, 205)
    ensures Update(Estimate(310, 205), 93) == Estimate(365, 209) && Update(Estimate(365, 209), 93) == Estimate(413, 205)
    ensures Timeout(Estimate(413, 205)) == 256
  {
  }

  /** Six samples of 93 ticks bring the time-out to 256 ticks. */
  lemma SixLongSamples()
    ensures Timeout(Run(Estimate(0, INITIAL), Copies(93, 6))) == 256 && Within(Copies(93, 6), 93)
  {
    hide Update, Repeated, Run, Copies, Timeout;
    LongUpdates();
    RunRepeats(Estimate(0, INITIAL), 93, 6);
    RepeatedStep(Estimate(0, INITIAL), 93, 5);
    RepeatedStep(Estimate(93, 98), 93, 4);
    RepeatedStep(Estimate(175, 156), 93, 3);
    RepeatedStep(Estimate(247, 189), 93, 2);
    RepeatedStep(Estimate(310, 205), 93, 1);
    RepeatedStep(Estimate(365, 209), 93, 0);
    RepeatedStep(Estimate(413, 205), 93, 0);
  }

  /** The exact condition: no back-off overflows, whatever the samples, if and only if none exceeds 92 ticks. */
  lemma AlwaysFitsIff(r: nat)
    ensures AlwaysFits(r) <==> r <= LONGEST
  {
    if r <= LONGEST {
      forall samples, nrtx: nat | Within(samples, r) && nrtx < 13
        ensures Timeout(Run(Estimate(0, INITIAL), samples)) * Pow2(BackoffShift(nrtx)) < 0x8000
      {
        RunStaysInside(Estimate(0, INITIAL), samples);
        BackoffFits(Run(Estimate(0, INITIAL), samples), nrtx);
      }
    } else {
      hide Run, Copies, Timeout;
      SixLongSamples();
      Pow2Bounds(MAX_BACKOFF);
      assert Within(Copies(93, 6), r);
      assert Timeout(Run(Estimate(0, INITIAL), Copies(93, 6))) * Pow2(BackoffShift(12)) == 0x8000;
    }
  }

  lemma ProductBounds(t: nat, max: nat, p: nat)
    requires t <= max && p >= 1
    ensures t <= t * p <= max * p
  {
  }

  /** Longer samples can overflow it: after a first sample of `m` ticks the largest back-off fits exactly when `m` is at
      most 223. */
  lemma FirstSampleFitsIff(m: nat)
    ensures Timeout(Update(Estimate(0, INITIAL), m)) * Pow2(MAX_BACKOFF) < 0x8000 <==> m <= 223
  {
    Pow2Bounds(MAX_BACKOFF);
    var e := Update(Estimate(0, INITIAL), m);
    assert e == Estimate(m, 5 + m);
    assert m <= 223 ==> m / 8 <= 27;
    assert m >= 224 ==> m / 8 >= 28;
  }

  lemma Pow2Bounds(n: nat)
    requires 1 <= n <= 7
    ensures 2 <= Pow2(n) <= 128 && (n == 7 ==> Pow2(n) == 128)
  {
    assert Pow2(1) == 2 && Pow2(2) == 4 && Pow2(3) == 8 && Pow2(4) == 16;
    assert Pow2(5) == 32 && Pow2(6) == 64 && Pow2(7) == 128;
  }

  lemma NarrowFits(x: int)
    requires -0x8000 <= x < 0x8000
    ensures Narrow(x) == x
  {
  }

  lemma SampleFits(e: Estimate, m: int, r: nat)
    requires Bounded(e, r) && r <= LONGEST && 0 <= m <= r
    ensures -LONGEST <= m - Eighth(e.sa) <= LONGEST && 0 <= Quarter(e.sv) <= LONGEST
  {
    var q := e.sa / 8;
    assert 8 * q <= e.sa < 8 * q + 8 && q <= r;
  }

  /** The statements of tcp_receive on 16-bit words. */
  method Refine(sa: s16, sv: s16, ticks: int, ghost r: nat) returns (sa': s16, sv': s16, rto: s16)
    requires Bounded(Estimate(sa, sv), r) && r <= LONGEST && 0 <= ticks <= r
    ensures Estimate(sa', sv') == Update(Estimate(sa, sv), ticks) && rto == Timeout(Estimate(sa', sv'))
    ensures Bounded(Estimate(sa', sv'), r) && 3 <= rto <= 5 * r + 3
  {
    hide Narrow, Eighth, Quarter;
    ghost var e, d := Estimate(sa, sv), ticks - Eighth(sa);
    UpdateKeepsBounds(e, ticks, r);
    TimeoutBounds(Update(e, ticks), r);
    SampleFits(e, ticks, r);
    NarrowFits(ticks);
    var m := Narrow(ticks);
    NarrowFits(d);
    m := Narrow(m - Eighth(sa));
    NarrowFits(sa + d);
    sa' := Narrow(sa + m);
    if m < 0 {
      NarrowFits(-d);
      m := Narrow(-m);
    }
    NarrowFits(Abs(d) - Quarter(sv));
    m := Narrow(m - Quarter(sv));
    NarrowFits(Update(e, ticks).sv);
    sv' := Narrow(sv + m);
    NarrowFits(Timeout(Update(e, ticks)));
    rto := Narrow(Eighth(sa') + sv');
  }

  /** The fields of the PCB. */
  class Rtt {
    var sa: s16
    var sv: s16
    var rto: s16
    ghost var r: nat

    ghost function Value(): Estimate
      reads this
    {
      Estimate(sa, sv)
    }

    ghost predicate Valid()
      reads this
    {
      1 <= r <= LONGEST && Bounded(Value(), r) && Inside(Value()) && 3 <= rto
    }

    /** The values that tcp_alloc sets. */
    constructor (ghost r: nat)
      requires 1 <= r <= LONGEST
      ensures Valid() && Value() == Estimate(0, INITIAL) && rto == INITIAL && this.r == r
    {
      sa, sv, rto := 0, 3000 / SLOW_INTERVAL, 3000 / SLOW_INTERVAL;
      this.r := r;
    }

    /** A round trip of `ticks` ticks was measured; no 16-bit operation overflows. */
    method Sample(ticks: int)
      requires Valid() && 0 <= ticks <= r
      modifies `sa, `sv, `rto
      ensures Valid() && Value() == Update(old(Value()), ticks) && rto == Timeout(Value())
      ensures 3 <= rto <= 5 * r + 3 && rto <= 255
    {
      UpdateStaysInside(Value(), ticks);
      hide Inside, BackoffShift, Pow2, Update, Timeout;
      BackoffFits(Update(Value(), ticks), 0);
      sa, sv, rto := Refine(sa, sv, ticks, r);
    }

    /** The retransmission timer fired for the `nrtx`-th time in a row. */
    method BackOff(nrtx: nat)
      requires Valid() && nrtx < 13
      modifies `rto
      ensures Valid() && rto == Timeout(Value()) * Pow2(BackoffShift(nrtx))
    {
      BackoffFits(Value(), nrtx);
      NarrowFits(Timeout(Value()) * Pow2(BackoffShift(nrtx)));
      rto := Narrow((Eighth(sa) + sv) * Pow2(BackoffShift(nrtx)));
    }
  }
}
