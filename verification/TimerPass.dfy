/** One call of sys_check_timeouts whose handlers may change the list. */
module TimerPass {
  import opened Words
  import opened TimerList

  /** What a handler leaves behind: the list, and whether it set a timer when there was none, which starts the list
      anew from the current time. */
  datatype Effect = Effect(list: seq<Timer>, restarted: bool)

  /** The timers called with their deadlines, and the list, its base and the time past the base that is left. */
  datatype Result = Result(fired: seq<Entry>, list: seq<Timer>, base: nat, left: nat)

  /** The loop of sys_check_timeouts at time `at`.  The handlers called have the effects `does`, in order; those beyond
      leave the list alone. */
  function Pass(l: seq<Timer>, base: nat, left: nat, at: nat, does: seq<Effect>): Result
    decreases |does|, |l|
  {
    if l == [] || l[0].time > left then Result([], l, base, left)
    else
      var e := Entry(base + l[0].time, l[0].handler, l[0].arg);
      var r := if l[0].handler.Some? && does != [] then
                 Pass(does[0].list, if does[0].restarted then at else base + l[0].time, left - l[0].time, at, does[1..])
               else Pass(l[1..], base + l[0].time, left - l[0].time, at, does);
      r.(fired := [e] + r.fired)
  }

  // ----- No due timer is left -----

  /** Whatever the handlers do, none of the timers that are left is due, and the list is counted from no earlier than the
      time left says. */
  lemma {:induction false} NoneLeftDue(l: seq<Timer>, base: nat, left: nat, at: nat, does: seq<Effect>)
    requires base + left >= at
    ensures var r := Pass(l, base, left, at, does);
            r.base + r.left >= at && (r.list != [] ==> Entries(r.list, r.base)[0].due > at)
    decreases |does|, |l|
  {
    if l != [] && l[0].time <= left {
      if l[0].handler.Some? && does != [] {
        NoneLeftDue(does[0].list, if does[0].restarted then at else base + l[0].time, left - l[0].time, at, does[1..]);
      } else {
        NoneLeftDue(l[1..], base + l[0].time, left - l[0].time, at, does);
      }
    }
  }

  // ----- Timers called before they are due -----

  /** A timer with a delta is called after a handler has restarted the list in the same pass. */
  predicate CallsAfterRestart(l: seq<Timer>, left: nat, does: seq<Effect>, restarted: bool)
    decreases |does|, |l|
  {
    && l != [] && l[0].time <= left
    && (|| (restarted && l[0].time > 0)
        || if l[0].handler.Some? && does != [] then
             CallsAfterRestart(does[0].list, left - l[0].time, does[1..], restarted || does[0].restarted)
           else CallsAfterRestart(l[1..], left - l[0].time, does, restarted))
  }

  ghost predicate SomeEarly(es: seq<Entry>, at: int) { exists e :: e in es && e.due > at }

  lemma SomeEarlyCons(e: Entry, es: seq<Entry>, at: int)
    ensures SomeEarly([e] + es, at) <==> e.due > at || SomeEarly(es, at)
  {
    assert e in [e] + es;
    assert forall x :: x in es ==> x in [e] + es;
  }

  /** The exact condition: some timer is called before it is due if and only if one with a delta is called after a
      restart. */
  lemma {:induction false} EarlyIff(l: seq<Timer>, base: nat, left: nat, at: nat, does: seq<Effect>, restarted: bool)
    requires if restarted then base == at else base + left == at
    ensures SomeEarly(Pass(l, base, left, at, does).fired, at) <==> CallsAfterRestart(l, left, does, restarted)
    decreases |does|, |l|
  {
    hide SomeEarly;
    if l == [] || l[0].time > left {
      NoneEarly(at);
    } else {
      var e := Entry(base + l[0].time, l[0].handler, l[0].arg);
      var changes := l[0].handler.Some? && does != [];
      var l', does' := if changes then does[0].list else l[1..], if changes then does[1..] else does;
      var base' := if changes && does[0].restarted then at else base + l[0].time;
      SomeEarlyCons(e, Pass(l', base', left - l[0].time, at, does').fired, at);
      if !(restarted && l[0].time > 0) {
        EarlyIff(l', base', left - l[0].time, at, does', restarted || (changes && does[0].restarted));
      }
    }
  }

  lemma NoneEarly(at: int)
    ensures !SomeEarly([], at)
  {
  }

  /** No handler restarts the list while time past the base is left. */
  predicate Prompt(l: seq<Timer>, left: nat, does: seq<Effect>)
    decreases |does|, |l|
  {
    if l == [] || l[0].time > left then true
    else if l[0].handler.Some? && does != [] then
      (does[0].restarted ==> left == l[0].time) && Prompt(does[0].list, left - l[0].time, does[1..])
    else Prompt(l[1..], left - l[0].time, does)
  }

  /** So a timer is called early only after a restart that left time over. */
  lemma {:induction false} PromptOnTime(l: seq<Timer>, left: nat, does: seq<Effect>, restarted: bool)
    requires Prompt(l, left, does) && (restarted ==> left == 0)
    ensures !CallsAfterRestart(l, left, does, restarted)
    decreases |does|, |l|
  {
    if l != [] && l[0].time <= left {
      if l[0].handler.Some? && does != [] {
        PromptOnTime(does[0].list, left - l[0].time, does[1..], restarted || does[0].restarted);
      } else {
        PromptOnTime(l[1..], left - l[0].time, does, restarted);
      }
    }
  }

  // ----- Handlers that leave the list alone -----

  /** The pass removes the front of the list that the time left covers. */
  lemma {:induction false} QuietPass(l: seq<Timer>, base: nat, left: nat, at: nat) returns (k: nat)
    ensures k <= |l| && Sum(l, k) <= left && (k < |l| ==> Sum(l, k) + l[k].time > left)
    ensures Pass(l, base, left, at, []) ==
            Result(Entries(l, base)[..k], l[k..], base + Sum(l, k), left - Sum(l, k))
    decreases |l|
  {
    if l == [] || l[0].time > left {
      k := 0;
    } else {
      k := QuietPass(l[1..], base + l[0].time, left - l[0].time, at);
      assert l[1..][k..] == l[k + 1..];
      k := k + 1;
    }
  }

  /** The timers of the front are the ones due within the time left. */
  lemma FrontIsDue(l: seq<Timer>, base: nat, left: nat, k: nat)
    requires k <= |l| && Sum(l, k) <= left && (k < |l| ==> Sum(l, k) + l[k].time > left)
    ensures forall j :: 0 <= j < |l| ==> (Entries(l, base)[j].due <= base + left <==> j < k)
  {
    forall j | 0 <= j < |l| ensures Entries(l, base)[j].due <= base + left <==> j < k {
      EntryAt(l, base, j);
      if j < k {
        SumGrows(l, j + 1, k);
      } else {
        SumStep(l, k);
        SumGrows(l, k + 1, j + 1);
      }
    }
  }

  /** After a restart with the list `l` and `left` ms over, some timer is called early if and only if one of `l` is due
      later, but no more than `left` later; the base then lies in the future. */
  lemma RestartedEarlyIff(l: seq<Timer>, left: nat, at: nat)
    ensures var r := Pass(l, at, left, at, []);
            && (SomeEarly(r.fired, at) <==> exists e :: e in Entries(l, at) && at < e.due <= at + left)
            && (r.base > at <==> SomeEarly(r.fired, at))
  {
    var k := QuietPass(l, at, left, at);
    FrontIsDue(l, at, left, k);
    var es := Entries(l, at);
    forall e | e in es && at < e.due <= at + left ensures e in es[..k] {
      var j :| 0 <= j < |es| && es[j] == e;
      assert es[..k][j] == e;
    }
    if k > 0 {
      EntryAt(l, at, k - 1);
      assert es[..k][k - 1] == es[k - 1];
      forall e | e in es[..k] ensures e.due <= at + Sum(l, k) {
        var j :| 0 <= j < k && es[j] == e;
        EntriesSorted(l, at, j, k - 1);
      }
    } else {
      assert Sum(l, 0) == 0;
    }
  }

  /** A timer of 5 ms served after 20 ms, whose handler asks for another 10 ms, is called again at once. */
  lemma CyclicTimerFiresTwice(h: nat)
    ensures var t := Timer(10, Some(h), 0);
            Pass([Timer(5, Some(h), 0)], 0, 20, 20, [Effect([t], true)]) ==
            Result([Entry(5, Some(h), 0), Entry(30, Some(h), 0)], [], 30, 5)
  {
    var t := Timer(10, Some(h), 0);
    assert [Effect([t], true)][1..] == [];
    assert [t][1..] == [];
    assert Pass([t], 20, 15, 20, []) == Result([Entry(30, Some(h), 0)], [], 30, 5);
  }
}
