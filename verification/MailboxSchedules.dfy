/** Schedules of the mailbox: calls that run undisturbed, and producers that wait although there is room. */
module MailboxSchedules {
  import opened Mailbox

  // ----- Uncontended calls -----

  /** In this run only threads of `ts` post. */
  ghost predicate PostsBy(run: seq<Action>, ts: set<nat>) {
    forall i :: 0 <= i < |run| && run[i].Post? ==> run[i].t in ts
  }

  ghost predicate RunsTo(run: seq<Action>, s: World, ts: set<nat>) {
    LegalRun(NewWorld(), run) && Run(NewWorld(), run) == s && PostsBy(run, ts)
  }

  /** What threads of `ts`, and the consumer, can bring about. */
  ghost predicate ReachableBy(s: World, ts: set<nat>) { exists run :: RunsTo(run, s, ts) }

  lemma ReachableByIsReachable(s: World, ts: set<nat>)
    requires ReachableBy(s, ts)
    ensures Reachable(s)
  {
    var run :| RunsTo(run, s, ts);
    assert LegalRun(NewWorld(), run) && Run(NewWorld(), run) == s;
  }

  lemma Go(s: World, a: Action, ts: set<nat>) returns (s': World)
    requires ReachableBy(s, ts) && Enabled(s, a) && (a.Post? ==> a.t in ts)
    ensures s' == Step(s, a) && ReachableBy(s', ts)
  {
    s' := Step(s, a);
    var run :| RunsTo(run, s, ts);
    RunExtends(NewWorld(), run, a);
    assert RunsTo(run + [a], s', ts);
  }

  lemma {:induction false} RunExtends(s: World, run: seq<Action>, a: Action)
    requires LegalRun(s, run) && Enabled(Run(s, run), a)
    ensures LegalRun(s, run + [a]) && Run(s, run + [a]) == Step(Run(s, run), a)
    decreases |run|
  {
    if run == [] {
      assert run + [a] == [a];
      assert Run(s, [a]) == Run(Step(s, a), [a][1..]);
    } else {
      assert (run + [a])[1..] == run[1..] + [a];
      RunExtends(Step(s, run[0]), run[1..], a);
    }
  }

  function Stored(x: Shared, m: Msg): Shared {
    x.(msgs := x.msgs[x.last % SYS_MBOX_SIZE := m], last := x.last + 1, posted := x.posted + [m],
       notEmpty := x.notEmpty || x.Empty())
  }

  /** An undisturbed post or trypost to a mailbox with room appends its message. */
  lemma PostCompletes(s: World, t: nat, m: Msg, tryOnly: bool, ts: set<nat>) returns (s': World)
    requires ReachableBy(s, ts) && t in ts && s.ProducerAt(t).PIdle? && s.mbox.mutex && s.mbox.owner == Nobody
    requires !s.mbox.Full()
    ensures ReachableBy(s', ts) && s'.mbox == Stored(s.mbox, m) && s'.consumer == s.consumer
    ensures forall u :: s'.ProducerAt(u) == s.ProducerAt(u)
  {
    hide ReachableBy;
    s' := Go(s, Post(t, m, tryOnly), ts);
    s' := Go(s', Produce(t), ts);
    s' := Go(s', Produce(t), ts);
    assert s'.ProducerAt(t) == PWrite(m);
    s' := PostFinishes(s', t, m, ts);
  }

  /** An undisturbed trypost to a full mailbox gives up and leaves everything as it was. */
  lemma TryPostFails(s: World, t: nat, m: Msg, ts: set<nat>) returns (s': World)
    requires ReachableBy(s, ts) && t in ts && s.ProducerAt(t).PIdle? && s.mbox.mutex && s.mbox.owner == Nobody
    requires s.mbox.Full()
    ensures ReachableBy(s', ts) && s'.mbox == s.mbox && s'.consumer == s.consumer
    ensures forall u :: s'.ProducerAt(u) == s.ProducerAt(u)
  {
    hide ReachableBy;
    s' := Go(s, Post(t, m, true), ts);
    s' := Go(s', Produce(t), ts);
    s' := Go(s', Produce(t), ts);
    s' := Go(s', Produce(t), ts);
  }

  /** Nothing that others do makes trypost or tryfetch wait for anything but the mutex. */
  lemma TryNeverWaits(t: nat, p: Producer, c: Consumer, x: Shared)
    requires (p.PLock? || p.PCheck?) && p.tryOnly && (c.CLock? || c.CCheck?) && c.tryOnly
    ensures var p' := ProducerStep(t, p, x).0;
            (p'.PCheck? && p'.tryOnly) || (p'.PWrite? && !x.Full()) || (p'.PUnlock? && x.Full())
    ensures var c' := ConsumerStep(c, x).0;
            (c'.CCheck? && c'.tryOnly) || (c'.CRead? && !x.Empty()) || (c'.CUnlock? && x.Empty())
  {
  }

  lemma PostFinishes(s: World, t: nat, m: Msg, ts: set<nat>) returns (s': World)
    requires ReachableBy(s, ts) && s.ProducerAt(t) == PWrite(m)
    ensures ReachableBy(s', ts) && s'.mbox == Stored(s.mbox, m).(mutex := true, owner := Nobody)
    ensures s'.consumer == s.consumer && s'.ProducerAt(t) == PIdle
    ensures forall u :: u != t ==> s'.ProducerAt(u) == s.ProducerAt(u)
  {
    s' := Go(s, Produce(t), ts);
    s' := Go(s', Produce(t), ts);
    assert s'.ProducerAt(t) == PSignal(s.mbox.Empty());
    s' := Go(s', Produce(t), ts);
    s' := Go(s', Produce(t), ts);
  }

  /** An undisturbed post to a full mailbox ends up waiting on not_full. */
  lemma PostBlocks(s: World, t: nat, m: Msg, ts: set<nat>) returns (s': World)
    requires ReachableBy(s, ts) && t in ts && s.ProducerAt(t).PIdle? && s.mbox.mutex && s.mbox.owner == Nobody && s.mbox.Full()
    ensures ReachableBy(s', ts) && s'.mbox == s.mbox.(waitSend := s.mbox.waitSend + 1) && s'.consumer == s.consumer
    ensures s'.ProducerAt(t) == PWait(m) && forall u :: u != t ==> s'.ProducerAt(u) == s.ProducerAt(u)
  {
    s' := Go(s, Post(t, m, false), ts);
    s' := Go(s', Produce(t), ts);
    s' := Go(s', Produce(t), ts);
    s' := Go(s', Produce(t), ts);
  }

  /** An undisturbed fetch or tryfetch from a nonempty mailbox takes the first message and, if producers wait, signals
      not_full once. */
  lemma FetchCompletes(s: World, tryOnly: bool, ts: set<nat>) returns (s': World)
    requires ReachableBy(s, ts) && s.consumer.CIdle? && s.mbox.mutex && s.mbox.owner == Nobody && !s.mbox.Empty()
    ensures ReachableBy(s', ts) && s'.consumer.CIdle? && forall u :: s'.ProducerAt(u) == s.ProducerAt(u)
    ensures s.mbox.first < |s.mbox.posted| && s.mbox.fetched == s.mbox.posted[..s.mbox.first]
    ensures s'.mbox == s.mbox.(first := s.mbox.first + 1, fetched := s.mbox.posted[..s.mbox.first + 1],
                               notFull := s.mbox.notFull || s.mbox.waitSend > 0)
  {
    s' := Go(s, Fetch(tryOnly), ts);
    s' := LockFetches(s', tryOnly, ts);
  }

  lemma LockFetches(s: World, tryOnly: bool, ts: set<nat>) returns (s': World)
    requires ReachableBy(s, ts) && s.consumer == CLock(tryOnly)
    requires s.mbox.mutex && s.mbox.owner == Nobody && !s.mbox.Empty()
    ensures ReachableBy(s', ts) && s'.consumer.CIdle? && forall u :: s'.ProducerAt(u) == s.ProducerAt(u)
    ensures s.mbox.first < |s.mbox.posted| && s.mbox.fetched == s.mbox.posted[..s.mbox.first]
    ensures s'.mbox == s.mbox.(first := s.mbox.first + 1, fetched := s.mbox.posted[..s.mbox.first + 1],
                               notFull := s.mbox.notFull || s.mbox.waitSend > 0)
  {
    ReachableByIsReachable(s, ts);
    ReachableSafe(s);
    assert Slot(s.mbox, s.mbox.first, s.mbox.posted[s.mbox.first]);
    s' := Go(s, Consume, ts);
    s' := Go(s', Consume, ts);
    s' := Go(s', Consume, ts);
    assert s'.consumer == CBump(s.mbox.posted[s.mbox.first]);
    s' := FetchFinishes(s', s.mbox.posted[s.mbox.first], ts);
    assert s.mbox.posted[..s.mbox.first + 1] == s.mbox.fetched + [s.mbox.posted[s.mbox.first]];
  }

  /** A fetch whose wait on not_empty succeeds takes the signal and the first message; without one it waits again. */
  lemma WokenFetches(s: World, ts: set<nat>) returns (s': World)
    requires ReachableBy(s, ts) && s.consumer.CWait? && s.mbox.notEmpty && s.mbox.mutex && s.mbox.owner == Nobody
    ensures ReachableBy(s', ts) && forall u :: s'.ProducerAt(u) == s.ProducerAt(u)
    ensures if s.mbox.Empty() then s'.consumer.CWait? && s'.mbox == s.mbox.(notEmpty := false)
            else && s'.consumer.CIdle? && s.mbox.first < |s.mbox.posted|
                 && s'.mbox == s.mbox.(first := s.mbox.first + 1, fetched := s.mbox.posted[..s.mbox.first + 1],
                                       notEmpty := false, notFull := s.mbox.notFull || s.mbox.waitSend > 0)
  {
    hide ReachableBy;
    s' := Go(s, Consume, ts);
    if s.mbox.Empty() {
      s' := Go(s', Consume, ts);
      s' := Go(s', Consume, ts);
      s' := Go(s', Consume, ts);
    } else {
      s' := LockFetches(s', false, ts);
    }
  }

  /** From an empty mailbox tryfetch gives up and leaves everything as it was; fetch waits on not_empty. */
  lemma FetchFindsNothing(s: World, tryOnly: bool, ts: set<nat>) returns (s': World)
    requires ReachableBy(s, ts) && s.consumer.CIdle? && s.mbox.mutex && s.mbox.owner == Nobody && s.mbox.Empty()
    ensures ReachableBy(s', ts) && s'.mbox == s.mbox && forall u :: s'.ProducerAt(u) == s.ProducerAt(u)
    ensures s'.consumer == if tryOnly then CIdle else CWait
  {
    hide ReachableBy;
    s' := Go(s, Fetch(tryOnly), ts);
    s' := Go(s', Consume, ts);
    s' := Go(s', Consume, ts);
    s' := Go(s', Consume, ts);
  }

  lemma FetchFinishes(s: World, m: Msg, ts: set<nat>) returns (s': World)
    requires ReachableBy(s, ts) && s.consumer == CBump(m)
    ensures ReachableBy(s', ts) && s'.consumer.CIdle? && forall u :: s'.ProducerAt(u) == s.ProducerAt(u)
    ensures s'.mbox == s.mbox.(first := s.mbox.first + 1, fetched := s.mbox.fetched + [m],
                               notFull := s.mbox.notFull || s.mbox.waitSend > 0, mutex := true, owner := Nobody)
  {
    s' := Go(s, Consume, ts);
    s' := Go(s', Consume, ts);
    s' := Go(s', Consume, ts);
  }

  /** A producer whose wait on not_full succeeds posts, if there is room by then. */
  lemma WokenPosts(s: World, t: nat, m: Msg, ts: set<nat>) returns (s': World)
    requires ReachableBy(s, ts) && s.ProducerAt(t) == PWait(m) && s.mbox.notFull
    requires s.mbox.mutex && s.mbox.owner == Nobody && !s.mbox.Full() && s.mbox.waitSend > 0
    ensures ReachableBy(s', ts) && s'.consumer == s.consumer && s'.ProducerAt(t) == PIdle
    ensures s'.mbox == Stored(s.mbox.(notFull := false, waitSend := s.mbox.waitSend - 1), m)
    ensures forall u :: u != t ==> s'.ProducerAt(u) == s.ProducerAt(u)
  {
    hide ReachableBy;
    s' := Go(s, Produce(t), ts);
    s' := Go(s', Produce(t), ts);
    s' := Go(s', Produce(t), ts);
    s' := Go(s', Produce(t), ts);
    assert s'.ProducerAt(t) == PWrite(m);
    s' := PostFinishes(s', t, m, ts);
  }

  // ----- Blocked although there is room -----

  /** A producer waits on not_full with nothing about to wake it, yet the mailbox has room. */
  ghost predicate Overslept(s: World, t: nat) {
    s.ProducerAt(t).PWait? && !s.mbox.Full() && !s.mbox.notFull && !s.consumer.CSignal?
  }

  /** With one producer thread this cannot happen. */
  ghost predicate OneProducer(s: World, t: nat) { forall u :: u != t ==> s.ProducerAt(u).PIdle? }

  ghost predicate Prompt(s: World, t: nat) { OneProducer(s, t) && !Overslept(s, t) }

  /** A producer comes to oversleep exactly when another waiting producer takes the signal while there is room. */
  lemma OversleepsIff(s: World, a: Action, t: nat)
    requires Inv(s) && Enabled(s, a) && !Overslept(s, t)
    ensures Overslept(Step(s, a), t) <==>
            && a.Produce? && a.t != t && s.ProducerAt(a.t).PWait? && s.ProducerAt(t).PWait?
            && !s.mbox.Full() && !s.consumer.CSignal?
  {
    var s' := Step(s, a);
    assert s.ProducerAt(t).PWait? ==> t in WaitingSet(s.producers);
    match a
    case Produce(u) => assert ProducerKnows(s.ProducerAt(u), s.mbox);
    case _ =>
  }

  lemma OneProducerPrompt(s: World, a: Action, t: nat)
    requires Inv(s) && Prompt(s, t) && Enabled(s, a) && (a.Post? ==> a.t == t)
    ensures Prompt(Step(s, a), t)
  {
    var s' := Step(s, a);
    assert s.ProducerAt(t).PWait? ==> t in WaitingSet(s.producers);
    match a
    case Produce(u) =>
      OthersStay(s, a);
      assert ProducerKnows(s.ProducerAt(t), s.mbox);
    case Post(u, m, tryOnly) => OthersStay(s, a);
    case _ => assert forall u :: s'.ProducerAt(u) == s.ProducerAt(u);
  }

  /** Over every run in which a single thread posts, it never waits while there is room and no signal for it. */
  lemma {:induction false} OneProducerNeverOversleeps(s: World, run: seq<Action>, t: nat)
    requires Inv(s) && Prompt(s, t) && LegalRun(s, run) && PostsBy(run, {t})
    ensures Prompt(Run(s, run), t)
    decreases |run|
  {
    if run != [] {
      StepKeepsInv(s, run[0]);
      OneProducerPrompt(s, run[0], t);
      OneProducerNeverOversleeps(Step(s, run[0]), run[1..], t);
    }
  }

  lemma FillTo(n: nat, p: nat, ts: set<nat>) returns (s: World)
    requires n <= 127 && p in ts
    ensures ReachableBy(s, ts) && s.consumer.CIdle? && (forall t :: s.ProducerAt(t).PIdle?)
    ensures s.mbox.mutex && s.mbox.owner == Nobody && s.mbox.first == 0 && s.mbox.last == n
    ensures s.mbox.waitSend == 0 && !s.mbox.notFull
  {
    if n == 0 {
      s := NewWorld();
      assert RunsTo([], s, ts);
    } else {
      s := FillTo(n - 1, p, ts);
      s := PostCompletes(s, p, n, false, ts);
    }
  }

  /** Fill the mailbox and block two producers on it. */
  lemma BlockTwo(p: nat, q: nat, ts: set<nat>) returns (s: World)
    requires p != q && p in ts && q in ts
    ensures ReachableBy(s, ts) && s.consumer.CIdle? && (forall t :: t != p && t != q ==> s.ProducerAt(t).PIdle?)
    ensures s.ProducerAt(p) == PWait(1000) && s.ProducerAt(q) == PWait(2000)
    ensures s.mbox.mutex && s.mbox.owner == Nobody && s.mbox.first == 0 && s.mbox.last == 127
    ensures s.mbox.waitSend == 2 && !s.mbox.notFull
  {
    s := FillTo(127, p, ts);
    s := PostBlocks(s, p, 1000, ts);
    s := PostBlocks(s, q, 2000, ts);
  }

  /** Any two producers can: not_full is a binary semaphore, so of two fetches that each find two producers waiting only
      one wakes a producer, and the other sleeps on until the next fetch. */
  lemma TwoProducersOversleep(p: nat, q: nat, ts: set<nat>) returns (s: World)
    requires p != q && p in ts && q in ts
    ensures ReachableBy(s, ts) && Stuck(s) && Overslept(s, q) && forall t :: t != q ==> s.ProducerAt(t).PIdle?
  {
    s := BlockTwo(p, q, ts);
    s := FetchCompletes(s, false, ts);
    s := FetchCompletes(s, false, ts);
    s := WokenPosts(s, p, 1000, ts);
    forall t ensures !ProducerEnabled(s.ProducerAt(t), s.mbox) {
      assert t == q || s.ProducerAt(t).PIdle?;
    }
  }

  lemma AtMostOne(ts: set<nat>) returns (t: nat)
    requires |ts| <= 1
    ensures ts <= {t}
  {
    if ts == {} {
      t := 0;
    } else {
      t :| t in ts;
      assert |ts - {t}| == 0;
    }
  }

  lemma NoneOversleeps(s: World, ts: set<nat>, u: nat)
    requires |ts| <= 1 && ReachableBy(s, ts)
    ensures !Overslept(s, u)
  {
    var t := AtMostOne(ts);
    var run :| RunsTo(run, s, ts);
    assert LegalRun(NewWorld(), []) && Run(NewWorld(), []) == NewWorld();
    ReachableSafe(NewWorld());
    OneProducerNeverOversleeps(NewWorld(), run, t);
  }

  /** The exact condition: no state that the threads of `ts` can reach has one of them oversleep if and only if there is
      at most one of them. */
  lemma NeverOversleepsIff(ts: set<nat>)
    ensures (forall s, t :: ReachableBy(s, ts) ==> !Overslept(s, t)) <==> |ts| <= 1
  {
    if |ts| <= 1 {
      forall s, t | ReachableBy(s, ts) ensures !Overslept(s, t) {
        NoneOversleeps(s, ts, t);
      }
    } else {
      var p :| p in ts;
      assert |ts - {p}| > 0;
      var q :| q in ts - {p};
      var s := TwoProducersOversleep(p, q, ts);
    }
  }
}
