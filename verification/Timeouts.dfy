/** sys_timeout, sys_untimeout, sys_check_timeouts and sys_timeouts_sleeptime. */
module Timeouts {
  import opened Words
  import opened TimerList
  import opened TimerPass

  /** The difference of two wrapped clock readings less than 2^32 ms apart. */
  lemma ClockDifference(at: nat, base: nat)
    requires base <= at < base + TWO32
    ensures Sub32(Wrap(at), Wrap(base)) == at - base
  {
    SmallWrap(at - base);
    hide Wrap;
    WrapSum(at, Wrap(base));
    WrapSum(at, base);
  }

  datatype Call = Call(handler: nat, arg: nat)

  /** The handlers that sys_check_timeouts calls for the timers it removes. */
  function Calls(es: seq<Entry>): seq<Call> { if es == [] then [] else CallOf(es[0]) + Calls(es[1..]) }

  function CallOf(e: Entry): seq<Call> { if e.handler.Some? then [Call(e.handler.value, e.arg)] else [] }

  lemma {:induction false} CallsSnoc(es: seq<Entry>, e: Entry)
    ensures Calls(es + [e]) == Calls(es) + CallOf(e)
  {
    hide CallOf;
    if es == [] {
      assert es + [e] == [e];
    } else {
      assert (es + [e])[1..] == es[1..] + [e];
      CallsSnoc(es[1..], e);
    }
  }

  /** How many of the first `n` timers have a handler. */
  ghost function Handled(es: seq<Entry>, n: nat): nat
    requires n <= |es|
  {
    if n == 0 then 0 else Handled(es, n - 1) + if es[n - 1].handler.Some? then 1 else 0
  }

  /** Every timer with a handler has it called once, in order, with its argument; nothing else is called. */
  ghost predicate CalledInTurn(calls: seq<Call>, es: seq<Entry>, n: nat)
    requires n <= |es|
  {
    && |calls| == Handled(es, n)
    && forall i :: 0 <= i < n && es[i].handler.Some? ==>
         Handled(es, i) < |calls| && calls[Handled(es, i)] == Call(es[i].handler.value, es[i].arg)
  }

  lemma {:induction false} HandledGrows(es: seq<Entry>, m: nat, n: nat)
    requires m <= n <= |es|
    ensures Handled(es, m) <= Handled(es, n)
    ensures m < n && es[m].handler.Some? ==> Handled(es, m) < Handled(es, n)
    decreases n
  {
    if m < n {
      HandledGrows(es, m, n - 1);
    }
  }

  lemma {:induction false} CallsExact(es: seq<Entry>, n: nat)
    requires n <= |es|
    ensures CalledInTurn(Calls(es[..n]), es, n)
    decreases n
  {
    if n == 0 {
      assert es[..0] == [];
    } else {
      CallsExact(es, n - 1);
      assert es[..n] == es[..n - 1] + [es[n - 1]];
      CallsSnoc(es[..n - 1], es[n - 1]);
      forall i | 0 <= i < n - 1 && es[i].handler.Some? ensures Handled(es, i) < Handled(es, n - 1) {
        HandledGrows(es, i, n - 1);
      }
    }
  }

  /** The same in terms of a list of which `es` is the front. */
  lemma CallsOfFront(es: seq<Entry>, fs: seq<Entry>)
    ensures CalledInTurn(Calls(es), es, |es|) && CalledInTurn(Calls(es), es + fs, |es|)
  {
    assert es[..|es|] == es && (es + fs)[..|es|] == es;
    CallsExact(es, |es|);
    CallsExact(es + fs, |es|);
  }

  /** The scan of sys_timeout for a place behind the first timer, in 32-bit arithmetic: a `time` below the first delta
      counts as 2^32 more. */
  method FindPlace(l: seq<Timer>, time0: u32) returns (k: nat, time: u32)
    requires l != []
    ensures 1 <= k <= |l| && (k < |l| ==> l[k].time > time)
    ensures Sum(l, k) + time == time0 + if l[0].time <= time0 then 0 else TWO32
  {
    k, time := 1, Sub32(time0, l[0].time);
    assert Sum(l, 1) == l[0].time by { assert Sum(l[1..], 0) == 0; }
    while k < |l| && l[k].time <= time
      invariant 1 <= k <= |l|
      invariant Sum(l, k) + time == time0 + if l[0].time <= time0 then 0 else TWO32
    {
      SumStep(l, k);
      k, time := k + 1, Sub32(time, l[k].time);
    }
  }

  /** Where the new timer goes, its delta, and what the timer after it loses of its own. */
  method NewTimer(l: seq<Timer>, msecs: u32, diff: u32, handler: Option<nat>, arg: nat)
    returns (pos: nat, x: Timer, r: u32)
    requires l == [] ==> diff == 0
    ensures pos <= |l| && (pos < |l| ==> r <= l[pos].time) && x.handler == handler && x.arg == arg
    ensures l == [] || l[0].time > msecs ==> pos == 0 && r == msecs && x.time == msecs + diff - Lost(l, msecs, diff)
    ensures l != [] && l[0].time <= msecs ==>
              && 1 <= pos && Sum(l, pos) + r == msecs + diff - Lost(l, msecs, diff) && (pos < |l| ==> l[pos].time > r)
              && x.time == if pos == |l| && r > msecs then Add32(msecs, l[0].time) else r
  {
    hide Sum;
    pos, x, r := 0, Timer(Add32(msecs, diff), handler, arg), msecs;
    if l != [] && l[0].time <= msecs {
      pos, r := FindPlace(l, x.time);
      x := x.(time := if pos == |l| && r > msecs then Add32(msecs, l[0].time) else r);
    }
  }

  class Timeouts {
    var list: seq<Timer>
    /** timeouts_last_time, the wrapped clock reading the first delta counts from. */
    var last: u32
    /** The time that `last` stands for. */
    ghost var base: nat

    ghost predicate Valid()
      reads this
    {
      last == Wrap(base)
    }

    constructor ()
      ensures Valid() && list == []
    {
      list, last, base := [], 0, 0;
    }

    /** sys_timeout at time `at`; `memory` says whether a timer could be allocated. */
    method Timeout(msecs: u32, handler: Option<nat>, arg: nat, now: u32, ghost at: nat, memory: bool)
      returns (ghost k: nat)
      requires Valid() && now == Wrap(at) && (list != [] ==> base <= at < base + TWO32)
      modifies this
      ensures Valid()
      ensures !memory ==> list == old(list) && base == old(base)
      ensures memory ==> base == if old(list) == [] then at else old(base)
      ensures memory ==>
                var diff := at - base - Lost(old(list), msecs, at - base);
                && Placed(old(list), msecs, diff, k)
                && Entries(list, base) == After(old(list), base, msecs, diff, Entry(at + msecs, handler, arg), k)
      ensures memory ==>
                (Entries(list, base) == StableInsert(Entries(old(list), base), Entry(at + msecs, handler, arg))
                 <==> Lost(old(list), msecs, at - base) == 0 && Exact(old(list), msecs, at - base))
    {
      k := 0;
      hide Wrap, Entries, Sum, Placed, After, Inserted, Add32, StableInsert, Exact, Lost, Sub32;
      if !memory {
        return;
      }
      var diff := 0;
      if list == [] {
        last, base := now, at;
      } else {
        ClockDifference(at, base);
        diff := Sub32(now, last);
      }
      k := Set(msecs, diff, handler, arg);
    }

    /** Put a new timer into the list, `diff` after the base. */
    method Set(msecs: u32, diff: u32, handler: Option<nat>, arg: nat) returns (ghost k: nat)
      requires list == [] ==> diff == 0
      modifies `list
      ensures var d, e := diff - Lost(old(list), msecs, diff), Entry(base + diff + msecs, handler, arg);
              && Placed(old(list), msecs, d, k) && Entries(list, base) == After(old(list), base, msecs, d, e, k)
              && (Entries(list, base) == StableInsert(Entries(old(list), base), e)
                  <==> Lost(old(list), msecs, diff) == 0 && Exact(old(list), msecs, diff))
    {
      hide Wrap, Entries, Sum, Placed, After, Inserted, Add32, StableInsert, Exact, Lost;
      var pos, x, r := NewTimer(list, msecs, diff, handler, arg);
      k := pos;
      ghost var e := Entry(base + diff + msecs, handler, arg);
      TimeoutEntries(list, base, msecs, diff, e, k, x, r);
      ExactIff(list, base, msecs, diff, e, k);
      list := Inserted(list, pos, x, r);
    }

    /** sys_untimeout: the first timer with this handler and argument goes, and the deadlines of the others stay when
        its delta added to the next one's fits in 32 bits. */
    method Untimeout(handler: Option<nat>, arg: nat) returns (ghost k: nat)
      requires Valid()
      modifies `list
      ensures Valid() && k <= |old(list)|
      ensures forall j :: 0 <= j < k ==> old(list)[j].handler != handler || old(list)[j].arg != arg
      ensures k == |old(list)| ==> list == old(list)
      ensures k < |old(list)| ==>
                old(list)[k].handler == handler && old(list)[k].arg == arg && list == Removed(old(list), k)
      ensures k < |old(list)| ==>
                (Entries(list, base) == old(Entries(list, base))[..k] + old(Entries(list, base))[k + 1..]
                 <==> Inheritable(old(list), k))
    {
      var i := 0;
      while i < |list| && (list[i].handler != handler || list[i].arg != arg)
        invariant i <= |list|
        invariant forall j :: 0 <= j < i ==> list[j].handler != handler || list[j].arg != arg
      {
        i := i + 1;
      }
      k := i;
      if i < |list| {
        RemovedEntriesIff(list, base, i);
        if i + 1 < |list| {
          list := list[..i] + [list[i + 1].(time := Add32(list[i + 1].time, list[i].time))] + list[i + 2..];
        } else {
          list := list[..i];
        }
      }
    }

    /** sys_check_timeouts at time `at`, where the handlers called have the effects `does`.  No timer that is due is left.
        One that is not due is called if and only if a timer with a delta is called after a handler has restarted the
        list.  Handlers that leave the list alone let it call exactly the due timers, in order. */
    method CheckTimeouts(now: u32, ghost at: nat, does: seq<Effect>)
      returns (calls: seq<Call>, ghost fired: seq<Entry>)
      requires Valid() && now == Wrap(at) && (list != [] ==> base <= at < base + TWO32)
      modifies this
      ensures Valid() && CalledInTurn(calls, fired, |fired|)
      ensures old(list) == [] ==> list == [] && base == old(base) && fired == []
      ensures old(list) != [] ==>
                var r := Pass(old(list), old(base), at - old(base), at, does);
                fired == r.fired && list == r.list && base == r.base
      ensures list != [] ==> Entries(list, base)[0].due > at
      ensures old(list) != [] ==>
                && (SomeEarly(fired, at) <==> CallsAfterRestart(old(list), at - old(base), does, false))
                && (Prompt(old(list), at - old(base), does) ==> !SomeEarly(fired, at))
      ensures does == [] ==>
                && old(Entries(list, base)) == fired + Entries(list, base)
                && (forall e :: e in fired ==> e.due <= at) && (forall e :: e in Entries(list, base) ==> e.due > at)
                && CalledInTurn(calls, old(Entries(list, base)), |fired|)
    {
      hide Wrap, Entries, Calls, Pass, Prompt, CallsAfterRestart, SomeEarly, Add32, CalledInTurn;
      calls, fired := [], [];
      NoCalls();
      if list == [] {
        NoEntries(base);
        CallsOfFront([], []);
        assert [] + Entries(list, base) == Entries(list, base);
        return;
      }
      ClockDifference(at, base);
      var diff: nat := Sub32(now, last);
      QuietCheck(list, base, diff, at, does);
      NoneLeftDue(list, base, diff, at, does);
      EarlyIff(list, base, diff, at, does, false);
      if Prompt(list, diff, does) {
        PromptOnTime(list, diff, does, false);
      }
      calls, fired := Expire(now, diff, at, does);
      CallsOfFront(fired, Entries(list, base));
    }

    /** The loop of sys_check_timeouts. */
    method Expire(now: u32, diff0: nat, ghost at: nat, does: seq<Effect>)
      returns (calls: seq<Call>, ghost fired: seq<Entry>)
      requires Valid() && now == Wrap(at)
      modifies this
      ensures Valid() && calls == Calls(fired)
      ensures var r := Pass(old(list), old(base), diff0, at, does);
              fired == r.fired && list == r.list && base == r.base
    {
      hide Wrap, Entries, Calls, Pass, Add32;
      var diff: nat, todo := diff0, does;
      calls, fired := [], [];
      NoCalls();
      ghost var r := Pass(list, base, diff, at, does);
      var hadOne := true;
      while hadOne
        invariant Valid() && calls == Calls(fired)
        invariant var p := Pass(list, base, diff, at, todo);
                  r == p.(fired := fired + p.fired) && (!hadOne ==> p == Result([], list, base, diff))
        decreases |todo|, |list|, hadOne
      {
        hadOne := false;
        PassStep(list, base, diff, at, todo);
        if list != [] && list[0].time <= diff {
          hadOne := true;
          var t := list[0];
          ghost var e := Entry(base + t.time, t.handler, t.arg);
          CallsSnoc(fired, e);
          WrapSum(base, t.time);
          last, base, diff := Add32(last, t.time), base + t.time, diff - t.time;
          list, fired := list[1..], fired + [e];
          if t.handler.Some? {
            calls := calls + [Call(t.handler.value, t.arg)];
            if todo != [] {
              if todo[0].restarted {
                last, base := now, at;
              }
              list, todo := todo[0].list, todo[1..];
            }
          }
        }
      }
    }

    /** sys_timeouts_sleeptime: how long until the next deadline; 0 exactly when one is due. */
    method SleepTime(now: u32, ghost at: nat) returns (r: u32)
      requires Valid() && now == Wrap(at) && base <= at < base + TWO32
      ensures list == [] ==> r == 0xffff_ffff
      ensures list != [] ==> (r == 0 <==> Entries(list, base)[0].due <= at)
      ensures list != [] && r > 0 ==> at + r == Entries(list, base)[0].due
    {
      if list == [] {
        return 0xffff_ffff;
      }
      ClockDifference(at, base);
      var diff := Sub32(now, last);
      if diff > list[0].time {
        return 0;
      }
      return list[0].time - diff;
    }
  }

  lemma NoCalls()
    ensures Calls([]) == []
  {
  }

  lemma NoEntries(base: nat)
    ensures Entries([], base) == []
  {
  }

  /** A round of the loop. */
  lemma PassStep(l: seq<Timer>, base: nat, left: nat, at: nat, does: seq<Effect>)
    ensures var r := Pass(l, base, left, at, does);
            if l == [] || l[0].time > left then r == Result([], l, base, left)
            else
              var e := Entry(base + l[0].time, l[0].handler, l[0].arg);
              var p := if l[0].handler.Some? && does != [] then
                         Pass(does[0].list, if does[0].restarted then at else base + l[0].time, left - l[0].time, at,
                              does[1..])
                       else Pass(l[1..], base + l[0].time, left - l[0].time, at, does);
              r == p.(fired := [e] + p.fired)
  {
  }

  lemma QuietCheck(l: seq<Timer>, base: nat, left: nat, at: nat, does: seq<Effect>)
    requires base + left == at
    ensures var r := Pass(l, base, left, at, does);
            does == [] ==>
              && Entries(l, base) == r.fired + Entries(r.list, r.base)
              && (forall e :: e in r.fired ==> e.due <= at) && (forall e :: e in Entries(r.list, r.base) ==> e.due > at)
  {
    if does == [] {
      var k := QuietPass(l, base, left, at);
      EntriesDrop(l, base, k);
      FrontIsDue(l, base, left, k);
    }
  }

  /** Inserting `x` leaves the deadlines that After describes. */
  lemma TimeoutEntries(l: seq<Timer>, base: int, msecs: u32, diff: u32, e: Entry, k: nat, x: Timer, r: u32)
    requires k <= |l| && (k < |l| ==> r <= l[k].time) && (l == [] ==> diff == 0)
    requires e.due == base + diff + msecs && x.handler == e.handler && x.arg == e.arg
    requires l == [] || l[0].time > msecs ==> k == 0 && r == msecs && x.time == msecs + diff - Lost(l, msecs, diff)
    requires l != [] && l[0].time <= msecs ==>
               && 1 <= k && Sum(l, k) + r == msecs + diff - Lost(l, msecs, diff) && (k < |l| ==> l[k].time > r)
               && x.time == if k == |l| && r > msecs then Add32(msecs, l[0].time) else r
    ensures Placed(l, msecs, diff - Lost(l, msecs, diff), k)
    ensures Entries(Inserted(l, k, x, r), base) == After(l, base, msecs, diff - Lost(l, msecs, diff), e, k)
  {
    hide Entries, Wrap;
    InsertedEntries(l, base, k, x, r);
    if k < |l| {
      SumStep(l, k);
      SumGrows(l, k + 1, |l|);
    }
  }
}
