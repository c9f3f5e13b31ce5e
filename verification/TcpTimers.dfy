/** The walks of tcp_slowtmr and tcp_fasttmr over the active PCBs, with callbacks that may change the list. */
module TcpTimers {
  import opened Common

  type Id = nat

  /** What the timer decides for a PCB: leave it, poll the application (or hand it refused data), or remove it. */
  datatype Action = Quiet | Poll | Remove

  /** What a callback leaves behind: whether tcp_active_pcbs_changed was set, the active list, and last_timer of every
      allocated PCB. */
  datatype Response = Response(changed: bool, active: seq<Id>, last: map<Id, nat>)

  /** A walk: the active list, last_timer of the allocated PCBs, the position of `prev` plus one, the position of the
      current PCB, and the PCBs processed so far. */
  datatype Walk = Walk(active: seq<Id>, last: map<Id, nat>, after: nat, i: nat, processed: seq<Id>)

  predicate Marked(last: map<Id, nat>, x: Id, ctr: nat) { x in last && last[x] == ctr }

  /** The PCBs that are still to be processed in this tick; every round reduces their number or moves on. */
  ghost function Pending(last: map<Id, nat>, ctr: nat): set<Id> { set x | x in last && last[x] != ctr }

  /** What a callback may do: a PCB it allocates is marked as processed, the others keep their mark, the active PCBs are
      allocated, and a list it did not report as changed is as it was. */
  ghost predicate Legal(w: Walk, r: Response, ctr: nat) {
    && (forall x :: x in r.last ==> r.last[x] == ctr || (x in w.last && r.last[x] == w.last[x]))
    && (forall x :: x in r.active ==> x in r.last) && Distinct(r.active)
    && (!r.changed ==> r.active == w.active && forall x :: x in w.active && x in w.last ==> r.last[x] == w.last[x])
  }

  /** After a callback: start over when the list changed. */
  function AfterCallback(w: Walk, r: Response): Walk {
    if r.changed then Walk(r.active, r.last, 0, 0, w.processed) else w.(last := r.last)
  }

  /** Take the PCB in position `i` out by linking the PCB before position `after`, or the head, to its successor. */
  function Unlink(s: seq<Id>, after: nat, i: nat): seq<Id>
    requires after <= i < |s|
  {
    s[..after] + s[i + 1..]
  }

  /** One round of the loop of tcp_slowtmr. */
  function Step(w: Walk, ctr: nat, a: Action, r: Response): (v: Walk)
    requires w.after <= w.i
    ensures v.after <= v.i
  {
    if w.i >= |w.active| then w
    else
      var x := w.active[w.i];
      if Marked(w.last, x, ctr) then w.(i := w.i + 1)
      else
        var last, processed := w.last[x := ctr], w.processed + [x];
        match a
        case Quiet => Walk(w.active, last, w.i + 1, w.i + 1, processed)
        case Poll => AfterCallback(Walk(w.active, last, w.i + 1, w.i + 1, processed), r)
        case Remove => AfterCallback(Walk(Unlink(w.active, w.after, w.i), last - {x}, w.after, w.after, processed), r)
  }

  /** The walk in which a callback would act in this round. */
  ghost function Calling(w: Walk, ctr: nat, a: Action): Walk
    requires w.after <= w.i < |w.active|
  {
    var x := w.active[w.i];
    var last, processed := w.last[x := ctr], w.processed + [x];
    if a.Remove? then Walk(Unlink(w.active, w.after, w.i), last - {x}, w.after, w.after, processed)
    else Walk(w.active, last, w.i + 1, w.i + 1, processed)
  }

  /** The round meets the rules for callbacks. */
  ghost predicate LegalStep(w: Walk, ctr: nat, a: Action, r: Response) {
    w.after <= w.i < |w.active| && !Marked(w.last, w.active[w.i], ctr) && !a.Quiet? ==> Legal(Calling(w, ctr, a), r, ctr)
  }

  // ----- The invariant of a walk -----

  ghost predicate Inv(w: Walk, ctr: nat) {
    && w.after <= w.i <= |w.active| && Distinct(w.active)
    && (forall x :: x in w.active ==> x in w.last)
    && (forall j :: 0 <= j < w.i ==> Marked(w.last, w.active[j], ctr))
    && (forall x :: x in w.processed && x in w.last ==> w.last[x] == ctr)
    && Distinct(w.processed)
  }

  /** Unlinking leaves distinct PCBs of the list, without the one that is removed. */
  lemma UnlinkedDistinct(s: seq<Id>, after: nat, i: nat)
    requires Distinct(s) && after <= i < |s|
    ensures Distinct(Unlink(s, after, i)) && (forall x :: x in Unlink(s, after, i) ==> x in s && x != s[i])
    ensures |Unlink(s, after, i)| == after + |s| - i - 1
    ensures forall j :: 0 <= j < after ==> Unlink(s, after, i)[j] == s[j]
  {
    var t := Unlink(s, after, i);
    forall j | 0 <= j < |t| ensures t[j] in s && t[j] != s[i] {
      assert t[j] == if j < after then s[j] else s[i + 1 + j - after];
    }
  }

  lemma CallingKeepsInv(w: Walk, ctr: nat, a: Action)
    requires Inv(w, ctr) && w.i < |w.active| && !Marked(w.last, w.active[w.i], ctr)
    ensures Inv(Calling(w, ctr, a), ctr)
    ensures Pending(Calling(w, ctr, a).last, ctr) == Pending(w.last, ctr) - {w.active[w.i]}
  {
    hide Unlink;
    assert w.active[w.i] in w.active && w.active[w.i] !in w.processed;
    UnlinkedDistinct(w.active, w.after, w.i);
  }

  lemma CallbackKeepsInv(w: Walk, r: Response, ctr: nat)
    requires Inv(w, ctr) && Legal(w, r, ctr)
    ensures Inv(AfterCallback(w, r), ctr) && Pending(AfterCallback(w, r).last, ctr) <= Pending(w.last, ctr)
  {
  }

  /** Every round keeps the invariant. */
  lemma StepKeepsInv(w: Walk, ctr: nat, a: Action, r: Response)
    requires Inv(w, ctr) && LegalStep(w, ctr, a, r)
    ensures Inv(Step(w, ctr, a, r), ctr)
  {
    if w.i < |w.active| && !Marked(w.last, w.active[w.i], ctr) {
      CallingKeepsInv(w, ctr, a);
      if !a.Quiet? {
        CallbackKeepsInv(Calling(w, ctr, a), r, ctr);
      }
    }
  }

  /** Every round processes a PCB that was pending, or moves on: the walk ends. */
  lemma StepDescends(w: Walk, ctr: nat, a: Action, r: Response)
    requires Inv(w, ctr) && LegalStep(w, ctr, a, r) && w.i < |w.active|
    ensures var v := Step(w, ctr, a, r);
            || |Pending(v.last, ctr)| < |Pending(w.last, ctr)|
            || (Pending(v.last, ctr) == Pending(w.last, ctr) && |v.active| - v.i < |w.active| - w.i)
  {
    var x := w.active[w.i];
    if !Marked(w.last, x, ctr) {
      var v := Step(w, ctr, a, r);
      CallingKeepsInv(w, ctr, a);
      if !a.Quiet? {
        CallbackKeepsInv(Calling(w, ctr, a), r, ctr);
      }
      assert x in w.active && x in Pending(w.last, ctr);
      Smaller(Pending(v.last, ctr), Pending(w.last, ctr), x);
    }
  }

  // ----- Taking a PCB out of the list -----

  /** No PCB was skipped, and none ahead will be. */
  ghost predicate Straight(w: Walk, ctr: nat) {
    w.after == w.i && forall j :: w.i <= j < |w.active| ==> !Marked(w.last, w.active[j], ctr)
  }

  lemma StraightCalling(w: Walk, ctr: nat, a: Action)
    requires Inv(w, ctr) && Straight(w, ctr) && w.i < |w.active|
    ensures var v := Calling(w, ctr, a);
            && Straight(v, ctr) && (forall x :: x in v.active ==> x in v.last)
            && v.active == if a.Remove? then w.active[..w.i] + w.active[w.i + 1..] else w.active
  {
    var v := Calling(w, ctr, a);
    forall j | v.i <= j < |v.active| ensures !Marked(v.last, v.active[j], ctr) {
      var k := if a.Remove? then j + 1 else j;
      assert v.active[j] == w.active[k] && w.active[k] != w.active[w.i];
    }
    UnlinkedDistinct(w.active, w.after, w.i);
  }

  /** As long as callbacks leave the list alone, a walk that starts among unmarked PCBs skips none, and the list loses
      exactly the PCBs that are removed. */
  lemma StraightStep(w: Walk, ctr: nat, a: Action, r: Response)
    requires Inv(w, ctr) && LegalStep(w, ctr, a, r) && Straight(w, ctr) && w.i < |w.active| && !r.changed
    ensures Straight(Step(w, ctr, a, r), ctr)
    ensures Step(w, ctr, a, r).active == if a.Remove? then w.active[..w.i] + w.active[w.i + 1..] else w.active
  {
    hide Inv, Unlink, Distinct;
    StraightCalling(w, ctr, a);
    var v := Calling(w, ctr, a);
    if !a.Quiet? {
      forall j | v.i <= j < |v.active| ensures !Marked(r.last, v.active[j], ctr) {
        assert v.active[j] in v.active;
      }
    }
  }

  /** Two PCBs, of which the first is polled. */
  const START := Walk([1, 2], map[1 := 0, 2 := 0], 0, 0, [])
  /** The application opens PCB 9. */
  const ADDED := Response(true, [9, 1, 2], map[9 := 1, 1 := 1, 2 := 0])
  /** The walk starts over. */
  const AGAIN := Walk([9, 1, 2], map[9 := 1, 1 := 1, 2 := 0], 0, 0, [1])
  const UNCHANGED := Response(false, [], map[9 := 1, 1 := 1])

  lemma StartsOver()
    ensures Inv(START, 1) && LegalStep(START, 1, Poll, ADDED) && Step(START, 1, Poll, ADDED) == AGAIN
  {
  }

  lemma SkipsTwo(r: Response)
    ensures Step(Step(AGAIN, 1, Quiet, r), 1, Quiet, r) == AGAIN.(i := 2)
  {
  }

  /** Skipped PCBs are lost when a later one is removed: the walk starts over and skips 9 and 1; then PCB 2 is removed, and
      the list is empty while 9 and 1 are still allocated. */
  lemma SkippedPcbsAreLost()
    ensures
      var w3 := Step(Step(Step(START, 1, Poll, ADDED), 1, Quiet, UNCHANGED), 1, Quiet, UNCHANGED);
      var w4 := Step(w3, 1, Remove, UNCHANGED);
      && Inv(START, 1) && LegalStep(START, 1, Poll, ADDED) && LegalStep(w3, 1, Remove, UNCHANGED)
      && w4.active == [] && 1 in w4.last && 9 in w4.last
      && Loses(w3, 1, Remove, 1) && Loses(w3, 1, Remove, 9)
  {
    StartsOver();
    SkipsTwo(UNCHANGED);
    hide Inv;
    assert Calling(AGAIN.(i := 2), 1, Remove) == Walk([], map[9 := 1, 1 := 1], 0, 0, [1, 2]);
  }

  // ----- Whole ticks -----

  /** The walk after `n` rounds; `acts` and `env` say what is decided and what callbacks do in each. */
  function Walked(w: Walk, ctr: nat, acts: nat -> Action, env: nat -> Response, n: nat): (v: Walk)
    requires w.after <= w.i
    ensures v.after <= v.i
  {
    if n == 0 then w else Step(Walked(w, ctr, acts, env, n - 1), ctr, acts(n - 1), env(n - 1))
  }

  ghost predicate LegalRun(w: Walk, ctr: nat, acts: nat -> Action, env: nat -> Response)
    requires w.after <= w.i
  {
    forall n: nat :: LegalAt(w, ctr, acts, env, n)
  }

  ghost predicate LegalAt(w: Walk, ctr: nat, acts: nat -> Action, env: nat -> Response, n: nat)
    requires w.after <= w.i
  {
    LegalStep(Walked(w, ctr, acts, env, n), ctr, acts(n), env(n))
  }

  /** In every state of a tick each PCB was processed at most once, and only PCBs that were pending when it began. */
  lemma {:induction false} WalkedKeepsInv(w: Walk, ctr: nat, acts: nat -> Action, env: nat -> Response, n: nat)
    requires w.after <= w.i && Inv(w, ctr) && w.processed == [] && LegalRun(w, ctr, acts, env)
    ensures var v := Walked(w, ctr, acts, env, n);
            && Inv(v, ctr) && Pending(v.last, ctr) <= Pending(w.last, ctr)
            && (forall x :: x in v.processed ==> x in Pending(w.last, ctr))
    decreases n
  {
    hide Step, LegalStep, Inv, Pending;
    if n > 0 {
      WalkedKeepsInv(w, ctr, acts, env, n - 1);
      assert LegalAt(w, ctr, acts, env, n - 1);
      var v := Walked(w, ctr, acts, env, n - 1);
      StepKeepsInv(v, ctr, acts(n - 1), env(n - 1));
      StepPending(v, ctr, acts(n - 1), env(n - 1));
    }
  }

  lemma StepPending(w: Walk, ctr: nat, a: Action, r: Response)
    requires Inv(w, ctr) && LegalStep(w, ctr, a, r)
    ensures Pending(Step(w, ctr, a, r).last, ctr) <= Pending(w.last, ctr)
    ensures forall x :: x in Step(w, ctr, a, r).processed ==> x in w.processed || x in Pending(w.last, ctr)
  {
    if w.i < |w.active| && !Marked(w.last, w.active[w.i], ctr) {
      assert w.active[w.i] in w.active;
      CallingKeepsInv(w, ctr, a);
      if !a.Quiet? {
        CallbackKeepsInv(Calling(w, ctr, a), r, ctr);
      }
    }
  }

  /** A tick in which no callback changes the list removes no PCB from the list but those it means to. */
  lemma {:induction false} StraightWalk(w: Walk, ctr: nat, acts: nat -> Action, env: nat -> Response, n: nat)
    requires w.after <= w.i && Inv(w, ctr) && w.processed == [] && Straight(w, ctr) && LegalRun(w, ctr, acts, env)
    requires forall k: nat :: !env(k).changed
    ensures Straight(Walked(w, ctr, acts, env, n), ctr)
    ensures forall x :: x in w.active && x !in Walked(w, ctr, acts, env, n).active ==>
              exists k: nat :: k < n && Removes(Walked(w, ctr, acts, env, k), acts(k), x)
    decreases n
  {
    hide Step, LegalStep, Inv, Pending, Straight;
    if n > 0 {
      StraightWalk(w, ctr, acts, env, n - 1);
      WalkedKeepsInv(w, ctr, acts, env, n - 1);
      assert LegalAt(w, ctr, acts, env, n - 1);
      var u, v := Walked(w, ctr, acts, env, n - 1), Walked(w, ctr, acts, env, n);
      if u.i >= |u.active| {
        StepAtEnd(u, ctr, acts(n - 1), env(n - 1));
      } else {
        StraightStep(u, ctr, acts(n - 1), env(n - 1));
        forall x | x in w.active && x !in v.active
          ensures exists k: nat :: k < n && Removes(Walked(w, ctr, acts, env, k), acts(k), x)
        {
          if x in u.active {
            assert Removes(u, acts(n - 1), x);
          }
        }
      }
    }
  }

  lemma StepAtEnd(w: Walk, ctr: nat, a: Action, r: Response)
    requires w.after <= w.i && w.i >= |w.active|
    ensures Step(w, ctr, a, r) == w
  {
  }

  /** This round takes out `x`. */
  ghost predicate Removes(w: Walk, a: Action, x: Id) { w.i < |w.active| && w.active[w.i] == x && a.Remove? }

  // ----- Which PCBs are lost -----

  /** The round processes its PCB: the timer has not dealt with it in this tick. */
  ghost predicate Processes(w: Walk, ctr: nat) {
    w.after <= w.i < |w.active| && !Marked(w.last, w.active[w.i], ctr)
  }

  /** The round takes `x` out of the list although it is neither the PCB being removed nor taken out by a callback. */
  ghost predicate Loses(w: Walk, ctr: nat, a: Action, x: Id) {
    Processes(w, ctr) && a.Remove? && x in w.active && x != w.active[w.i] && x !in Calling(w, ctr, a).active
  }

  /** The round ends in a restart. */
  ghost predicate Restarts(w: Walk, ctr: nat, a: Action, r: Response) {
    Processes(w, ctr) && !a.Quiet? && r.changed
  }

  /** How many PCBs had been processed at the last restart before round `n`. */
  ghost function Mark(w: Walk, ctr: nat, acts: nat -> Action, env: nat -> Response, n: nat): nat
    requires w.after <= w.i
  {
    if n == 0 then 0
    else if Restarts(Walked(w, ctr, acts, env, n - 1), ctr, acts(n - 1), env(n - 1)) then
      |Walked(w, ctr, acts, env, n).processed|
    else Mark(w, ctr, acts, env, n - 1)
  }

  /** The PCBs processed since position `m` lie before `after`, and `after` comes right behind one of them. */
  ghost predicate Pass(w: Walk, m: nat) {
    && m <= |w.processed|
    && (forall j :: w.after <= j < |w.active| ==> w.active[j] !in w.processed[m..])
    && (0 < w.after <= |w.active| ==> w.active[w.after - 1] in w.processed[m..])
  }

  lemma CallingKeepsPass(w: Walk, ctr: nat, a: Action, m: nat)
    requires Inv(w, ctr) && Processes(w, ctr) && Pass(w, m)
    ensures Pass(Calling(w, ctr, a), m)
  {
    var x, v := w.active[w.i], Calling(w, ctr, a);
    assert v.processed[m..] == w.processed[m..] + [x];
    if a.Remove? {
      forall j | v.after <= j < |v.active| ensures v.active[j] !in v.processed[m..] {
        assert v.active[j] == w.active[w.i + 1 + j - w.after];
      }
    }
  }

  lemma StepKeepsPass(w: Walk, ctr: nat, a: Action, r: Response, m: nat)
    requires Inv(w, ctr) && LegalStep(w, ctr, a, r) && Pass(w, m)
    ensures var v := Step(w, ctr, a, r);
            Pass(v, if Restarts(w, ctr, a, r) then |v.processed| else m)
  {
    if Processes(w, ctr) {
      CallingKeepsPass(w, ctr, a, m);
    }
  }

  lemma {:induction false} WalkedKeepsPass(w: Walk, ctr: nat, acts: nat -> Action, env: nat -> Response, n: nat)
    requires w.after == 0 && w.i == 0 && Inv(w, ctr) && w.processed == [] && LegalRun(w, ctr, acts, env)
    ensures Pass(Walked(w, ctr, acts, env, n), Mark(w, ctr, acts, env, n))
    decreases n
  {
    hide Step, LegalStep, Inv, Restarts;
    if n > 0 {
      hide Pass;
      WalkedKeepsPass(w, ctr, acts, env, n - 1);
      WalkedKeepsInv(w, ctr, acts, env, n - 1);
      assert LegalAt(w, ctr, acts, env, n - 1);
      StepKeepsPass(Walked(w, ctr, acts, env, n - 1), ctr, acts(n - 1), env(n - 1), Mark(w, ctr, acts, env, n - 1));
    }
  }

  /** Round `n` removes a pending PCB whose predecessor in the list was skipped, not processed, since the last restart. */
  ghost predicate RemovesBehindSkipped(w: Walk, ctr: nat, acts: nat -> Action, env: nat -> Response, n: nat)
    requires w.after <= w.i
  {
    var v := Walked(w, ctr, acts, env, n);
    && Processes(v, ctr) && acts(n).Remove? && v.i > 0 && Mark(w, ctr, acts, env, n) <= |v.processed|
    && v.active[v.i - 1] !in v.processed[Mark(w, ctr, acts, env, n)..]
  }

  lemma NotUnlinked(s: seq<Id>, after: nat, i: nat)
    requires Distinct(s) && after < i < |s|
    ensures s[after] !in Unlink(s, after, i)
  {
    var t := Unlink(s, after, i);
    forall j | 0 <= j < |t| ensures t[j] != s[after] {
      assert t[j] == if j < after then s[j] else s[i + 1 + j - after];
    }
  }

  /** A round loses a PCB exactly when `prev` is not the predecessor of the PCB it removes. */
  lemma LosesBetween(w: Walk, ctr: nat, a: Action)
    requires Inv(w, ctr) && Processes(w, ctr) && a.Remove?
    ensures (exists x :: Loses(w, ctr, a, x)) <==> w.after < w.i
  {
    var t := Calling(w, ctr, a).active;
    if w.after < w.i {
      var x := w.active[w.after];
      NotUnlinked(w.active, w.after, w.i);
      assert x in w.active && x != w.active[w.i];
      assert Loses(w, ctr, a, x);
    } else {
      forall x | x in w.active && x != w.active[w.i] ensures x in t {
        var j :| 0 <= j < |w.active| && w.active[j] == x;
        assert t[if j < w.i then j else j - 1] == x;
      }
    }
  }

  /** The same in terms of what was processed. */
  lemma RoundLosesIff(w: Walk, ctr: nat, acts: nat -> Action, env: nat -> Response, n: nat)
    requires w.after == 0 && w.i == 0 && Inv(w, ctr) && w.processed == [] && LegalRun(w, ctr, acts, env)
    ensures LosesAt(w, ctr, acts, env, n) <==> RemovesBehindSkipped(w, ctr, acts, env, n)
  {
    hide Step, LegalStep, Walked, Mark, LegalRun;
    var v, m := Walked(w, ctr, acts, env, n), Mark(w, ctr, acts, env, n);
    WalkedKeepsInv(w, ctr, acts, env, n);
    WalkedKeepsPass(w, ctr, acts, env, n);
    if Processes(v, ctr) && acts(n).Remove? {
      LosesBetween(v, ctr, acts(n));
    }
  }

  /** The exact condition for list integrity over a tick, whatever callbacks do: some PCB is lost in the first `n` rounds
      if and only if one of them removes a pending PCB whose predecessor in the list was skipped since the last
      restart. */
  lemma TickLosesIff(w: Walk, ctr: nat, acts: nat -> Action, env: nat -> Response, n: nat)
    requires w.after == 0 && w.i == 0 && Inv(w, ctr) && w.processed == [] && LegalRun(w, ctr, acts, env)
    ensures (exists k: nat :: k < n && LosesAt(w, ctr, acts, env, k)) <==>
            (exists k: nat :: k < n && RemovesBehindSkipped(w, ctr, acts, env, k))
  {
    hide RemovesBehindSkipped, LosesAt;
    forall k: nat ensures LosesAt(w, ctr, acts, env, k) <==> RemovesBehindSkipped(w, ctr, acts, env, k) {
      RoundLosesIff(w, ctr, acts, env, k);
    }
  }

  ghost predicate LosesAt(w: Walk, ctr: nat, acts: nat -> Action, env: nat -> Response, n: nat)
    requires w.after <= w.i
  {
    exists x :: Loses(Walked(w, ctr, acts, env, n), ctr, acts(n), x)
  }

  /** The callback of round `n` leaves `x` marked, and it was not before: `x` is a PCB that the callback allocated. */
  ghost predicate AllocatedAt(w: Walk, ctr: nat, acts: nat -> Action, env: nat -> Response, n: nat, x: Id)
    requires w.after <= w.i
  {
    var v := Walked(w, ctr, acts, env, n);
    && Processes(v, ctr) && !acts(n).Quiet?
    && Marked(env(n).last, x, ctr) && !Marked(Calling(v, ctr, acts(n)).last, x, ctr)
  }

  /** How a PCB comes to be marked: it was when the tick began, it was processed, or a callback allocated it. */
  lemma {:induction false} MarkedWhy(w: Walk, ctr: nat, acts: nat -> Action, env: nat -> Response, n: nat, x: Id)
    requires w.after <= w.i && Marked(Walked(w, ctr, acts, env, n).last, x, ctr)
    ensures || Marked(w.last, x, ctr) || x in Walked(w, ctr, acts, env, n).processed
            || exists k: nat :: k < n && AllocatedAt(w, ctr, acts, env, k, x)
    decreases n
  {
    hide LegalStep, Walked, Step, AllocatedAt, Marked;
    if n > 0 {
      var u, v := Walked(w, ctr, acts, env, n - 1), Walked(w, ctr, acts, env, n);
      if Marked(u.last, x, ctr) {
        MarkedWhy(w, ctr, acts, env, n - 1, x);
        NextWalk(w, ctr, acts, env, n - 1);
      } else {
        MarkedNow(w, ctr, acts, env, n - 1, x);
      }
    } else {
      FirstRound(w, ctr, acts, env);
    }
  }

  lemma MarkedNow(w: Walk, ctr: nat, acts: nat -> Action, env: nat -> Response, n: nat, x: Id)
    requires w.after <= w.i && !Marked(Walked(w, ctr, acts, env, n).last, x, ctr)
    requires Marked(Walked(w, ctr, acts, env, n + 1).last, x, ctr)
    ensures x in Walked(w, ctr, acts, env, n + 1).processed || AllocatedAt(w, ctr, acts, env, n, x)
  {
    NextWalk(w, ctr, acts, env, n);
    hide Walked, Step;
    MarkedByStep(Walked(w, ctr, acts, env, n), ctr, acts(n), env(n), x);
  }

  lemma NextWalk(w: Walk, ctr: nat, acts: nat -> Action, env: nat -> Response, n: nat)
    requires w.after <= w.i
    ensures Walked(w, ctr, acts, env, n + 1) == Step(Walked(w, ctr, acts, env, n), ctr, acts(n), env(n))
    ensures Walked(w, ctr, acts, env, n).processed <= Walked(w, ctr, acts, env, n + 1).processed
  {
  }

  lemma MarkedByStep(w: Walk, ctr: nat, a: Action, r: Response, x: Id)
    requires w.after <= w.i && !Marked(w.last, x, ctr) && Marked(Step(w, ctr, a, r).last, x, ctr)
    ensures Processes(w, ctr)
    ensures x in Step(w, ctr, a, r).processed || (!a.Quiet? && Marked(r.last, x, ctr) && !Marked(Calling(w, ctr, a).last, x, ctr))
  {
  }

  /** The skipped predecessor was processed before the last restart, allocated by a callback, or marked from the
      start. */
  lemma SkippedWhy(w: Walk, ctr: nat, acts: nat -> Action, env: nat -> Response, n: nat)
    requires w.after == 0 && w.i == 0 && Inv(w, ctr) && w.processed == [] && LegalRun(w, ctr, acts, env)
    requires RemovesBehindSkipped(w, ctr, acts, env, n)
    ensures var v := Walked(w, ctr, acts, env, n);
            var x := v.active[v.i - 1];
            || x in v.processed[..Mark(w, ctr, acts, env, n)] || Marked(w.last, x, ctr)
            || exists k: nat :: k < n && AllocatedAt(w, ctr, acts, env, k, x)
  {
    hide Step, LegalStep, Walked, Mark, LegalRun;
    var v, m := Walked(w, ctr, acts, env, n), Mark(w, ctr, acts, env, n);
    WalkedKeepsInv(w, ctr, acts, env, n);
    MarkedWhy(w, ctr, acts, env, n, v.active[v.i - 1]);
    assert v.processed == v.processed[..m] + v.processed[m..];
  }

  /** The rounds of tcp_fasttmr: it removes nothing. */
  function FastActions(refused: nat -> bool): nat -> Action { (k: nat) => if refused(k) then Poll else Quiet }

  /** So it loses none. */
  lemma FastTimerLosesNone(w: Walk, ctr: nat, refused: nat -> bool, env: nat -> Response, n: nat)
    requires w.after == 0 && w.i == 0 && Inv(w, ctr) && w.processed == []
    requires LegalRun(w, ctr, FastActions(refused), env)
    ensures !LosesAt(w, ctr, FastActions(refused), env, n)
  {
    RoundLosesIff(w, ctr, FastActions(refused), env, n);
  }

  class Tcp {
    /** tcp_active_pcbs */
    var active: seq<Id>
    /** last_timer of every allocated PCB. */
    var last: map<Id, nat>
    /** tcp_timer_ctr, eight bits wide. */
    var ctr: nat

    ghost predicate Valid()
      reads this
    {
      Distinct(active) && (forall x :: x in active ==> x in last)
    }

    ghost function Start(): Walk
      reads this
    {
      Walk(active, last, 0, 0, [])
    }

    constructor ()
      ensures Valid() && active == [] && last == map[] && ctr == 0
    {
      active, last, ctr := [], map[], 0;
    }

    /** One round of the loop of tcp_slowtmr at position `i0`, with `prev` right before position `after0`. */
    method Round(a: Action, r: Response, after0: nat, i0: nat, processed0: seq<Id>)
      returns (after: nat, i: nat, processed: seq<Id>)
      requires after0 <= i0 < |active|
      modifies `active, `last
      ensures Walk(active, last, after, i, processed) == Step(Walk(old(active), old(last), after0, i0, processed0), ctr, a, r)
    {
      after, i, processed := after0, i0, processed0;
      var pcb := active[i];
      if pcb in last && last[pcb] == ctr {
        i := i + 1;
        return;
      }
      last := last[pcb := ctr];
      processed := processed + [pcb];
      var called;
      if a == Remove {
        active := active[..after] + active[i + 1..];
        last := last - {pcb};
        i := after;
        called := true;
      } else {
        after, i := i + 1, i + 1;
        called := a == Poll;
      }
      if called {
        last := r.last;
        if r.changed {
          active, after, i := r.active, 0, 0;
        }
      }
    }

    /** The walk of tcp_slowtmr over the active PCBs: it ends, processes no PCB twice, and leaves no active PCB behind. */
    method SlowTimer(acts: nat -> Action, env: nat -> Response) returns (processed: seq<Id>, ghost n: nat)
      requires Valid() && LegalRun(Start(), NextTick(ctr), acts, env)
      modifies this
      ensures Valid() && ctr == NextTick(old(ctr))
      ensures Finished(Walked(old(Start()), ctr, acts, env, n), processed)
      ensures Distinct(processed) && forall x :: x in processed ==> x in Pending(old(last), ctr)
      ensures forall x :: x in active ==> Marked(last, x, ctr)
      ensures forall x :: x in old(active) && x in active ==>
                || x in processed || Marked(old(last), x, ctr)
                || exists k: nat :: k < n && AllocatedAt(old(Start()), ctr, acts, env, k, x)
      ensures Straight(Start(), NextTick(ctr))
    {
      hide Step, LegalStep, Inv, Pending, NextTick, Walked, LegalRun, Marked, AllocatedAt, Straight;
      ctr := NextTick(ctr);
      n := 0;
      ghost var w := Start();
      var round := 0;
      processed := [];
      var after: nat, i: nat := 0, 0;
      StartInv(w, ctr);
      FirstRound(w, ctr, acts, env);
      while i < |active|
        invariant Walked(w, ctr, acts, env, n) == Walk(active, last, after, i, processed) && n == round
        invariant after <= i && Inv(Walk(active, last, after, i, processed), ctr) && ctr == NextTick(old(ctr))
        decreases |Pending(last, ctr)|, |active| - i
      {
        ghost var v := Walk(active, last, after, i, processed);
        NextRound(w, ctr, acts, env, n);
        StepKeepsInv(v, ctr, acts(n), env(n));
        StepDescends(v, ctr, acts(n), env(n));
        after, i, processed := Round(acts(round), env(round), after, i, processed);
        n, round := n + 1, round + 1;
      }
      WalkedKeepsInv(w, ctr, acts, env, n);
      EndMarked(Walk(active, last, after, i, processed), ctr);
      forall x | x in active
        ensures || x in processed || Marked(w.last, x, ctr)
                || exists k: nat :: k < n && AllocatedAt(w, ctr, acts, env, k, x)
      {
        MarkedWhy(w, ctr, acts, env, n, x);
      }
      MarkedStraight(Start(), old(ctr));
    }

    /** The walk has come to the end of the list and left the fields in this state. */
    ghost predicate Finished(w: Walk, processed: seq<Id>)
      reads this
    {
      w.active == active && w.last == last && w.processed == processed && w.i >= |active|
    }

    /** tcp_fasttmr: the same walk, in which refused data is handed to the application and no PCB is removed. */
    method FastTimer(refused: nat -> bool, env: nat -> Response) returns (processed: seq<Id>, ghost n: nat)
      requires Valid() && LegalRun(Start(), NextTick(ctr), FastActions(refused), env)
      modifies this
      ensures Valid() && ctr == NextTick(old(ctr))
      ensures Finished(Walked(old(Start()), ctr, FastActions(refused), env, n), processed)
      ensures Distinct(processed) && forall x :: x in processed ==> x in Pending(old(last), ctr)
      ensures forall x :: x in active ==> Marked(last, x, ctr)
      ensures forall x :: x in old(active) && x in active ==>
                || x in processed || Marked(old(last), x, ctr)
                || exists k: nat :: k < n && AllocatedAt(old(Start()), ctr, FastActions(refused), env, k, x)
      ensures Straight(Start(), NextTick(ctr))
    {
      processed, n := SlowTimer(FastActions(refused), env);
    }
  }

  /** The timer counter has eight bits. */
  function NextTick(ctr: nat): nat { (ctr + 1) % 256 }

  /** A tick that finds every active PCB marked by the one before starts among unmarked PCBs. */
  lemma MarkedStraight(w: Walk, before: nat)
    requires w.after == w.i && (forall x :: x in w.active ==> Marked(w.last, x, NextTick(before)))
    ensures Straight(w, NextTick(NextTick(before)))
  {
    forall j | w.i <= j < |w.active| ensures !Marked(w.last, w.active[j], NextTick(NextTick(before))) {
      assert w.active[j] in w.active;
    }
  }

  lemma FirstRound(w: Walk, ctr: nat, acts: nat -> Action, env: nat -> Response)
    requires w.after <= w.i
    ensures Walked(w, ctr, acts, env, 0) == w
  {
  }

  lemma NextRound(w: Walk, ctr: nat, acts: nat -> Action, env: nat -> Response, n: nat)
    requires w.after <= w.i && LegalRun(w, ctr, acts, env)
    ensures LegalStep(Walked(w, ctr, acts, env, n), ctr, acts(n), env(n))
    ensures Walked(w, ctr, acts, env, n + 1) == Step(Walked(w, ctr, acts, env, n), ctr, acts(n), env(n))
  {
    hide Step, LegalStep;
    assert LegalAt(w, ctr, acts, env, n);
  }

  lemma StartInv(w: Walk, ctr: nat)
    requires w.after == 0 && w.i == 0 && w.processed == [] && Distinct(w.active) && (forall x :: x in w.active ==> x in w.last)
    ensures Inv(w, ctr)
  {
  }

  lemma EndMarked(w: Walk, ctr: nat)
    requires Inv(w, ctr) && w.i >= |w.active|
    ensures Distinct(w.active) && Distinct(w.processed) && forall x :: x in w.active ==> x in w.last && Marked(w.last, x, ctr)
  {
  }
}
