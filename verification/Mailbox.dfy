/** The mailbox of the Unix port: a bounded buffer built from binary semaphores.

    Any number of producers run `sys_mbox_post` or `sys_mbox_trypost` and one
    consumer runs `sys_arch_mbox_fetch` or `sys_arch_mbox_tryfetch`.  A step is
    one semaphore operation or one access to shared fields by one thread, and
    a run is any interleaving of steps.  `sys_arch_sem_wait` and
    `sys_sem_signal` are atomic: they run under the semaphore's own lock.
 */
module Mailbox {
  import opened Common

  type Msg = nat  // the address a caller posts

  const SYS_MBOX_SIZE: nat := 128

  /** Where a producer stands; a state that names `m` still has to post `m`. */
  datatype Producer =
    | PIdle
    | PLock(m: Msg, tryOnly: bool)    // sem_wait(mutex)
    | PCheck(m: Msg, tryOnly: bool)   // holds mutex; test whether the buffer is full
    | PRelease(m: Msg)            // has done wait_send++; sem_signal(mutex)
    | PWait(m: Msg)               // sem_wait(not_full)
    | PRelock(m: Msg)             // sem_wait(mutex)
    | PUndo(m: Msg)               // holds mutex; wait_send--
    | PWrite(m: Msg)              // holds mutex; store the message
    | PBump(m: Msg)               // holds mutex; last++
    | PSignal(first: bool)        // holds mutex; sem_signal(not_empty) if first
    | PUnlock                     // sem_signal(mutex)
  {
    predicate Holds() {
      PCheck? || PRelease? || PUndo? || PWrite? || PBump? || PSignal? || PUnlock?
    }
    /** Counted in wait_send. */
    predicate Waiting() { PRelease? || PWait? || PRelock? || PUndo? }
    /** Will store a message, unless it finds the buffer full. */
    predicate Posting() { PLock? || PCheck? || PRelock? || PUndo? || PWrite? || PBump? }
  }

  datatype Consumer =
    | CIdle
    | CLock(tryOnly: bool)    // sem_wait(mutex)
    | CCheck(tryOnly: bool)   // holds mutex; test whether the buffer is empty
    | CRelease            // found it empty; sem_signal(mutex)
    | CWait               // sem_wait(not_empty)
    | CRead               // holds mutex; read the first message
    | CBump(m: Msg)       // holds mutex; first++
    | CSignal             // holds mutex; sem_signal(not_full) if wait_send
    | CUnlock             // sem_signal(mutex)
  {
    predicate Holds() { CCheck? || CRelease? || CRead? || CBump? || CSignal? || CUnlock? }
  }

  datatype Owner = Nobody | TheConsumer | AProducer(t: nat)

  /** The fields of `struct sys_mbox`.  Auxiliary: `owner`, the thread between its
      wait and its signal on the mutex; `posted` and `fetched`, the messages in
      the order of last++ and first++. */
  datatype Shared = Shared(
    first: nat, last: nat, msgs: map<nat, Msg>, waitSend: nat,
    notEmpty: bool, notFull: bool, mutex: bool,
    owner: Owner, posted: seq<Msg>, fetched: seq<Msg>)
  {
    /** One slot always stays unused. */
    predicate Full() { last + 1 >= first + SYS_MBOX_SIZE }
    predicate Empty() { first == last }
  }

  datatype World = World(mbox: Shared, producers: map<nat, Producer>, consumer: Consumer) {
    function ProducerAt(t: nat): Producer { if t in producers then producers[t] else PIdle }
  }

  datatype Action =
    | Post(t: nat, m: Msg, tryOnly: bool)   // a producer calls post or trypost
    | Fetch(tryOnly: bool)                  // the consumer calls fetch or tryfetch
    | Produce(t: nat)                   // a producer takes its next step
    | Consume                           // the consumer takes its next step
    | TimeOut                           // the consumer's wait on not_empty times out, signalled or not

  function NewWorld(): World {
    World(Shared(0, 0, map[], 0, false, false, true, Nobody, [], []), map[], CIdle)
  }

  predicate ProducerEnabled(p: Producer, x: Shared) {
    match p
    case PIdle => false
    case PLock(_, _) => x.mutex
    case PRelock(_) => x.mutex
    case PWait(_) => x.notFull
    case _ => true
  }

  function ProducerStep(t: nat, p: Producer, x: Shared): (Producer, Shared) {
    match p
    case PIdle => (p, x)
    case PLock(m, tryOnly) => (PCheck(m, tryOnly), x.(mutex := false, owner := AProducer(t)))
    case PCheck(m, tryOnly) =>
      if !x.Full() then (PWrite(m), x)
      else if tryOnly then (PUnlock, x)
      else (PRelease(m), x.(waitSend := x.waitSend + 1))
    case PRelease(m) => (PWait(m), x.(mutex := true, owner := Nobody))
    case PWait(m) => (PRelock(m), x.(notFull := false))
    case PRelock(m) => (PUndo(m), x.(mutex := false, owner := AProducer(t)))
    case PUndo(m) => (PCheck(m, false), x.(waitSend := if x.waitSend > 0 then x.waitSend - 1 else 0))
    case PWrite(m) => (PBump(m), x.(msgs := x.msgs[x.last % SYS_MBOX_SIZE := m]))
    case PBump(m) => (PSignal(x.Empty()), x.(last := x.last + 1, posted := x.posted + [m]))
    case PSignal(first) => (PUnlock, x.(notEmpty := x.notEmpty || first))
    case PUnlock => (PIdle, x.(mutex := true, owner := Nobody))
  }

  predicate ConsumerEnabled(c: Consumer, x: Shared) {
    match c
    case CIdle => false
    case CLock(_) => x.mutex
    case CWait => x.notEmpty
    case _ => true
  }

  function ConsumerStep(c: Consumer, x: Shared): (Consumer, Shared) {
    match c
    case CIdle => (c, x)
    case CLock(tryOnly) => (CCheck(tryOnly), x.(mutex := false, owner := TheConsumer))
    case CCheck(tryOnly) => (if !x.Empty() then CRead else if tryOnly then CUnlock else CRelease, x)
    case CRelease => (CWait, x.(mutex := true, owner := Nobody))
    case CWait => (CLock(false), x.(notEmpty := false))
    case CRead =>
      var i := x.first % SYS_MBOX_SIZE;
      (if i in x.msgs then CBump(x.msgs[i]) else CRead, x)
    case CBump(m) => (CSignal, x.(first := x.first + 1, fetched := x.fetched + [m]))
    case CSignal => (CUnlock, x.(notFull := x.notFull || x.waitSend > 0))
    case CUnlock => (CIdle, x.(mutex := true, owner := Nobody))
  }

  predicate Enabled(s: World, a: Action) {
    match a
    case Post(t, _, _) => s.ProducerAt(t).PIdle?
    case Fetch(_) => s.consumer.CIdle?
    case Produce(t) => ProducerEnabled(s.ProducerAt(t), s.mbox)
    case Consume => ConsumerEnabled(s.consumer, s.mbox)
    case TimeOut => s.consumer.CWait?
  }

  function Step(s: World, a: Action): World {
    match a
    case Post(t, m, tryOnly) => s.(producers := s.producers[t := PLock(m, tryOnly)])
    case Fetch(tryOnly) => s.(consumer := CLock(tryOnly))
    case Produce(t) => var (p, x) := ProducerStep(t, s.ProducerAt(t), s.mbox); World(x, s.producers[t := p], s.consumer)
    case Consume => var (c, x) := ConsumerStep(s.consumer, s.mbox); World(x, s.producers, c)
    case TimeOut => s.(consumer := CIdle)
  }

  // ----- The invariant -----

  /** Exactly the owner holds the mutex, and the semaphore is taken iff there is one. */
  ghost predicate Exclusive(s: World) {
    && (s.mbox.mutex <==> s.mbox.owner == Nobody)
    && (forall t :: s.ProducerAt(t).Holds() <==> s.mbox.owner == AProducer(t))
    && (s.consumer.Holds() <==> s.mbox.owner == TheConsumer)
  }

  function WaitingSet(producers: map<nat, Producer>): set<nat> {
    set t | t in producers && producers[t].Waiting()
  }

  /** wait_send counts the producers in the waiting loop. */
  ghost predicate Counted(s: World) { s.mbox.waitSend == |WaitingSet(s.producers)| }

  /** The buffer holds exactly the messages posted and not yet fetched. */
  ghost predicate Buffered(x: Shared) {
    && x.first <= x.last <= x.first + SYS_MBOX_SIZE - 1
    && |x.posted| == x.last
    && x.fetched == x.posted[..x.first]
    && forall i :: x.first <= i < x.last ==> Slot(x, i, x.posted[i])
  }

  ghost predicate Slot(x: Shared, i: nat, m: Msg) {
    i % SYS_MBOX_SIZE in x.msgs && x.msgs[i % SYS_MBOX_SIZE] == m
  }

  /** What a producer in the critical section has established. */
  ghost predicate ProducerKnows(p: Producer, x: Shared) {
    && (p.PWrite? || p.PBump? ==> !x.Full())
    && (p.PBump? ==> Slot(x, x.last, p.m))
    && (p.PRelease? ==> x.Full())
  }

  ghost predicate ConsumerKnows(c: Consumer, x: Shared) {
    && (c.CRead? || c.CBump? ==> !x.Empty())
    && (c.CBump? ==> x.first < |x.posted| && c.m == x.posted[x.first])
    && (c.CRelease? ==> x.Empty())
  }

  ghost predicate Informed(s: World) {
    && (forall t :: ProducerKnows(s.ProducerAt(t), s.mbox))
    && ConsumerKnows(s.consumer, s.mbox)
  }

  /** A consumer that found the buffer empty and waits will be woken once it is not. */
  ghost predicate WakesConsumer(s: World) {
    s.consumer.CWait? && !s.mbox.Empty() ==> s.mbox.notEmpty || exists t :: s.ProducerAt(t) == PSignal(true)
  }

  /** If producers wait although the buffer is empty, one of them is awake or about to be. */
  ghost predicate WakesProducer(s: World) {
    s.mbox.Empty() && s.mbox.waitSend > 0 ==>
      s.mbox.notFull || s.consumer.CSignal? || exists t :: s.ProducerAt(t).Posting()
  }

  ghost predicate Inv(s: World) {
    Exclusive(s) && Counted(s) && Buffered(s.mbox) && Informed(s) && WakesConsumer(s) && WakesProducer(s)
  }

  // ----- Every step keeps it -----

  /** A step by one thread leaves the other threads where they are. */
  lemma OthersStay(s: World, a: Action)
    requires a.Post? || a.Produce?
    ensures Step(s, a).consumer == s.consumer
    ensures forall u :: u != a.t ==> Step(s, a).ProducerAt(u) == s.ProducerAt(u)
  {
  }

  lemma ProducerStepExclusive(t: nat, p: Producer, x: Shared)
    requires (x.mutex <==> x.owner == Nobody) && (p.Holds() <==> x.owner == AProducer(t)) && ProducerEnabled(p, x)
    ensures var (p', x') := ProducerStep(t, p, x);
            && (x'.mutex <==> x'.owner == Nobody) && (p'.Holds() <==> x'.owner == AProducer(t))
            && (x'.owner == x.owner || (x.owner == Nobody && x'.owner == AProducer(t)) || (x.owner == AProducer(t) && x'.owner == Nobody))
  {
  }

  lemma ConsumerStepExclusive(c: Consumer, x: Shared)
    requires (x.mutex <==> x.owner == Nobody) && (c.Holds() <==> x.owner == TheConsumer) && ConsumerEnabled(c, x)
    ensures var (c', x') := ConsumerStep(c, x);
            && (x'.mutex <==> x'.owner == Nobody) && (c'.Holds() <==> x'.owner == TheConsumer)
            && (x'.owner == x.owner || (x.owner == Nobody && x'.owner == TheConsumer) || (x.owner == TheConsumer && x'.owner == Nobody))
  {
  }

  lemma StepKeepsExclusive(s: World, a: Action)
    requires Exclusive(s) && Enabled(s, a)
    ensures Exclusive(Step(s, a))
  {
    match a
    case Post(t, m, tryOnly) =>
      OthersStay(s, a);
      assert !s.ProducerAt(t).Holds();
    case Produce(t) =>
      OthersStay(s, a);
      ProducerStepExclusive(t, s.ProducerAt(t), s.mbox);
    case Consume =>
      ConsumerStepExclusive(s.consumer, s.mbox);
      assert forall u :: Step(s, a).ProducerAt(u) == s.ProducerAt(u);
    case Fetch(tryOnly) =>
      assert forall u :: Step(s, a).ProducerAt(u) == s.ProducerAt(u);
    case TimeOut =>
      assert forall u :: Step(s, a).ProducerAt(u) == s.ProducerAt(u);
  }

  lemma WaitingAfter(ps: map<nat, Producer>, t: nat, p: Producer)
    ensures var was := t in ps && ps[t].Waiting();
            && |WaitingSet(ps[t := p])| == |WaitingSet(ps)| + One(p.Waiting()) - One(was)
            && (was ==> |WaitingSet(ps)| > 0)
  {
    var before := WaitingSet(ps);
    if p.Waiting() {
      assert WaitingSet(ps[t := p]) == before - {t} + {t};
    } else {
      assert WaitingSet(ps[t := p]) == before - {t};
    }
    assert t in before <==> t in ps && ps[t].Waiting();
  }

  lemma ProducerStepCount(t: nat, p: Producer, x: Shared)
    requires p.Waiting() ==> x.waitSend > 0
    ensures var (p', x') := ProducerStep(t, p, x);
            x'.waitSend == x.waitSend + One(p'.Waiting()) - One(p.Waiting())
  {
  }

  lemma StepKeepsCount(s: World, a: Action)
    requires Counted(s) && Enabled(s, a)
    ensures Counted(Step(s, a))
  {
    match a
    case Post(t, m, tryOnly) =>
      WaitingAfter(s.producers, t, PLock(m, tryOnly));
    case Produce(t) =>
      WaitingAfter(s.producers, t, ProducerStep(t, s.ProducerAt(t), s.mbox).0);
      ProducerStepCount(t, s.ProducerAt(t), s.mbox);
    case _ =>
  }

  // ----- Contents -----

  /** Distinct live indices have distinct slots. */
  lemma SlotsDistinct(i: nat, j: nat)
    requires i < j < i + SYS_MBOX_SIZE
    ensures i % SYS_MBOX_SIZE != j % SYS_MBOX_SIZE
  {
  }

  lemma ProducerStepBuffered(t: nat, p: Producer, x: Shared)
    requires Buffered(x) && ProducerKnows(p, x)
    ensures var (p', x') := ProducerStep(t, p, x);
            Buffered(x') && ProducerKnows(p', x')
  {
    var (p', x') := ProducerStep(t, p, x);
    if p.PWrite? {
      forall i | x.first <= i < x.last ensures Slot(x', i, x.posted[i]) {
        SlotsDistinct(i, x.last);
        assert Slot(x, i, x.posted[i]);
      }
    } else if p.PBump? {
      forall i | x'.first <= i < x'.last ensures Slot(x', i, x'.posted[i]) {
        assert i < x.last ==> Slot(x, i, x.posted[i]);
      }
    }
  }

  lemma ConsumerStepBuffered(c: Consumer, x: Shared)
    requires Buffered(x) && ConsumerKnows(c, x)
    ensures var (c', x') := ConsumerStep(c, x);
            Buffered(x') && ConsumerKnows(c', x')
  {
    if c.CRead? {
      assert Slot(x, x.first, x.posted[x.first]);
    }
  }

  /** The same buffer: only semaphores, counters or the owner may differ. */
  ghost predicate SameBuffer(x: Shared, x': Shared) {
    x'.first == x.first && x'.last == x.last && x'.msgs == x.msgs && x'.posted == x.posted
  }

  /** Only a thread that holds the mutex touches the buffer. */
  lemma OnlyOwnersWrite(t: nat, p: Producer, c: Consumer, x: Shared)
    ensures !p.Holds() ==> SameBuffer(x, ProducerStep(t, p, x).1)
    ensures !c.Holds() ==> SameBuffer(x, ConsumerStep(c, x).1)
  {
  }

  lemma StepKeepsContents(s: World, a: Action)
    requires Exclusive(s) && Buffered(s.mbox) && Informed(s) && Enabled(s, a)
    ensures Buffered(Step(s, a).mbox) && Informed(Step(s, a))
  {
    var s' := Step(s, a);
    match a
    case Produce(t) =>
      OthersStay(s, a);
      ProducerStepBuffered(t, s.ProducerAt(t), s.mbox);
      OnlyOwnersWrite(t, s.ProducerAt(t), s.consumer, s.mbox);
      forall u | u != t ensures ProducerKnows(s'.ProducerAt(u), s'.mbox) {
        assert ProducerKnows(s.ProducerAt(u), s.mbox);
      }
    case Consume =>
      ConsumerStepBuffered(s.consumer, s.mbox);
      OnlyOwnersWrite(0, PIdle, s.consumer, s.mbox);
      forall u ensures ProducerKnows(s'.ProducerAt(u), s'.mbox) {
        assert s'.ProducerAt(u) == s.ProducerAt(u) && ProducerKnows(s.ProducerAt(u), s.mbox);
      }
    case Post(t, m, tryOnly) =>
      OthersStay(s, a);
      forall u ensures ProducerKnows(s'.ProducerAt(u), s'.mbox) {
        assert ProducerKnows(s.ProducerAt(u), s.mbox);
      }
    case Fetch(tryOnly) =>
      assert forall u :: s'.ProducerAt(u) == s.ProducerAt(u);
    case TimeOut =>
      assert forall u :: s'.ProducerAt(u) == s.ProducerAt(u);
  }

  // ----- No lost wake-ups -----

  lemma StepWakesConsumer(s: World, a: Action)
    requires Exclusive(s) && Buffered(s.mbox) && Informed(s) && WakesConsumer(s) && Enabled(s, a)
    ensures WakesConsumer(Step(s, a))
  {
    var s' := Step(s, a);
    if s'.consumer.CWait? && !s'.mbox.Empty() && !s'.mbox.notEmpty {
      match a
      case Produce(t) =>
        OthersStay(s, a);
        OnlyOwnersWrite(t, s.ProducerAt(t), s.consumer, s.mbox);
        if s.ProducerAt(t).PBump? && s.mbox.Empty() {
          assert s'.ProducerAt(t) == PSignal(true);
        } else {
          var u :| s.ProducerAt(u) == PSignal(true);
          assert u != t;
          assert s'.ProducerAt(u) == PSignal(true);
        }
      case Post(t, m, tryOnly) =>
        OthersStay(s, a);
        var u :| s.ProducerAt(u) == PSignal(true);
        assert s'.ProducerAt(u) == PSignal(true);
      case Consume =>
        assert false;
      case _ =>
        assert false;
    }
  }

  lemma StepWakesProducer(s: World, a: Action)
    requires Exclusive(s) && Buffered(s.mbox) && Informed(s) && Counted(s) && WakesProducer(s) && Enabled(s, a)
    ensures WakesProducer(Step(s, a))
  {
    var s' := Step(s, a);
    if s'.mbox.Empty() && s'.mbox.waitSend > 0 && !s'.mbox.notFull && !s'.consumer.CSignal? {
      match a
      case Produce(t) =>
        OthersStay(s, a);
        if !s'.ProducerAt(t).Posting() {
          var u :| s.ProducerAt(u).Posting();
          assert u != t;
          assert s'.ProducerAt(u).Posting();
        }
      case Post(t, m, tryOnly) =>
        assert s'.ProducerAt(t).Posting();
      case Consume =>
        var u :| s.ProducerAt(u).Posting();
        assert s'.ProducerAt(u).Posting();
      case Fetch(tryOnly) =>
        var u :| s.ProducerAt(u).Posting();
        assert s'.ProducerAt(u).Posting();
      case TimeOut =>
        var u :| s.ProducerAt(u).Posting();
        assert s'.ProducerAt(u).Posting();
    }
  }

  lemma StepKeepsInv(s: World, a: Action)
    requires Inv(s) && Enabled(s, a)
    ensures Inv(Step(s, a))
  {
    StepKeepsExclusive(s, a);
    StepKeepsCount(s, a);
    StepKeepsContents(s, a);
    StepWakesConsumer(s, a);
    StepWakesProducer(s, a);
  }

  // ----- Whole runs -----

  ghost predicate LegalRun(s: World, run: seq<Action>)
    decreases |run|
  {
    run == [] || (Enabled(s, run[0]) && LegalRun(Step(s, run[0]), run[1..]))
  }

  function Run(s: World, run: seq<Action>): World
    decreases |run|
  {
    if run == [] then s else Run(Step(s, run[0]), run[1..])
  }

  lemma {:induction false} RunKeepsInv(s: World, run: seq<Action>)
    requires Inv(s) && LegalRun(s, run)
    ensures Inv(Run(s, run))
    decreases |run|
  {
    if run != [] {
      StepKeepsInv(s, run[0]);
      RunKeepsInv(Step(s, run[0]), run[1..]);
    }
  }

  ghost predicate Reachable(s: World) { exists run :: LegalRun(NewWorld(), run) && Run(NewWorld(), run) == s }

  /** Every interleaving excludes two threads from the critical section, keeps at
      most 127 messages buffered, and fetches messages in the order they were
      posted, each once. */
  lemma ReachableSafe(s: World)
    requires Reachable(s)
    ensures Inv(s)
    ensures forall t, u :: s.ProducerAt(t).Holds() && s.ProducerAt(u).Holds() ==> t == u
    ensures forall t :: !(s.ProducerAt(t).Holds() && s.consumer.Holds())
    ensures 0 <= s.mbox.last - s.mbox.first <= 127
    ensures s.mbox.fetched <= s.mbox.posted
    ensures |s.mbox.posted| - |s.mbox.fetched| == s.mbox.last - s.mbox.first
    ensures s.consumer.CWait? && !s.mbox.Empty() ==> s.mbox.notEmpty || exists t :: s.ProducerAt(t) == PSignal(true)
  {
    var run :| LegalRun(NewWorld(), run) && Run(NewWorld(), run) == s;
    assert WaitingSet(map[]) == {};
    assert forall t :: NewWorld().ProducerAt(t) == PIdle;
    RunKeepsInv(NewWorld(), run);
  }

  /** No thread inside a call can take a step. */
  ghost predicate Stuck(s: World) {
    !Enabled(s, Consume) && forall t :: !ProducerEnabled(s.ProducerAt(t), s.mbox)
  }

  /** Whoever holds the mutex can go on. */
  lemma OwnerCanStep(s: World)
    requires Exclusive(s) && !s.mbox.mutex
    ensures !Stuck(s)
  {
    match s.mbox.owner
    case TheConsumer =>
      assert Enabled(s, Consume);
    case AProducer(t) =>
      assert ProducerEnabled(s.ProducerAt(t), s.mbox);
  }

  /** While the consumer waits on an empty mailbox, some waiting producer has been signalled. */
  lemma WaiterCanStep(s: World)
    requires Inv(s) && s.mbox.Empty() && s.consumer.CWait? && s.mbox.waitSend > 0
    requires forall t :: s.ProducerAt(t).PIdle? || s.ProducerAt(t).PWait?
    ensures !Stuck(s)
  {
    var t :| t in WaitingSet(s.producers);
    assert s.ProducerAt(t).PWait?;
    assert ProducerEnabled(s.ProducerAt(t), s.mbox);
  }

  /** The only quiet states: the consumer is not fetching and producers, if any,
      wait for it; or the consumer waits on an empty mailbox nobody is posting to.
      In particular the consumer and blocked producers never wait for each other. */
  lemma StuckIsQuiet(s: World)
    requires Inv(s) && Stuck(s)
    ensures s.mbox.mutex
    ensures s.consumer.CIdle? || s.consumer.CWait?
    ensures forall t :: s.ProducerAt(t).PIdle? || s.ProducerAt(t).PWait?
    ensures s.consumer.CWait? ==> s.mbox.Empty() && forall t :: s.ProducerAt(t).PIdle?
  {
    if !s.mbox.mutex {
      OwnerCanStep(s);
    }
    forall t ensures s.ProducerAt(t).PIdle? || s.ProducerAt(t).PWait? {
      assert !ProducerEnabled(s.ProducerAt(t), s.mbox);
    }
    if s.consumer.CWait? {
      if s.mbox.Empty() && s.mbox.waitSend > 0 {
        WaiterCanStep(s);
      }
      forall t ensures s.ProducerAt(t).PIdle? {
        assert s.ProducerAt(t).Waiting() ==> t in WaitingSet(s.producers);
      }
    }
  }
}
