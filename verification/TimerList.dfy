/** The delta-encoded timer list of timeouts.c as a list of deadlines. */
module TimerList {
  import opened Words

  /** `struct sys_timeo`: `time` counts from the timer before it. */
  datatype Timer = Timer(time: u32, handler: Option<nat>, arg: nat)

  /** The sum of the first `n` deltas. */
  function Sum(l: seq<Timer>, n: nat): nat
    requires n <= |l|
  {
    if n == 0 then 0 else l[0].time + Sum(l[1..], n - 1)
  }

  function Total(l: seq<Timer>): nat { Sum(l, |l|) }

  lemma {:induction false} SumStep(l: seq<Timer>, n: nat)
    requires n < |l|
    ensures Sum(l, n + 1) == Sum(l, n) + l[n].time
    decreases n
  {
    if n > 0 {
      SumStep(l[1..], n - 1);
    }
  }

  lemma {:induction false} SumGrows(l: seq<Timer>, m: nat, n: nat)
    requires m <= n <= |l|
    ensures Sum(l, m) <= Sum(l, n)
    decreases n
  {
    if m < n {
      SumGrows(l, m, n - 1);
      SumStep(l, n - 1);
    }
  }

  // ----- Deadlines -----

  datatype Entry = Entry(due: int, handler: Option<nat>, arg: nat)

  /** The timers with their absolute deadlines. */
  function Entries(l: seq<Timer>, base: int): (es: seq<Entry>)
    ensures |es| == |l|
  {
    if l == [] then []
    else [Entry(base + l[0].time, l[0].handler, l[0].arg)] + Entries(l[1..], base + l[0].time)
  }

  lemma {:induction false} EntryAt(l: seq<Timer>, base: int, i: nat)
    requires i < |l|
    ensures Entries(l, base)[i] == Entry(base + Sum(l, i + 1), l[i].handler, l[i].arg)
    decreases i
  {
    if i > 0 {
      EntryAt(l[1..], base + l[0].time, i - 1);
    }
  }

  /** The list is sorted by deadline. */
  lemma EntriesSorted(l: seq<Timer>, base: int, i: nat, j: nat)
    requires i <= j < |l|
    ensures Entries(l, base)[i].due <= Entries(l, base)[j].due
  {
    EntryAt(l, base, i);
    EntryAt(l, base, j);
    SumGrows(l, i + 1, j + 1);
  }

  /** Moving the base moves every deadline by as much. */
  lemma {:induction false} EntriesMove(l: seq<Timer>, base: int, late: int, i: nat)
    requires i < |l|
    ensures Entries(l, base + late)[i] == Entries(l, base)[i].(due := Entries(l, base)[i].due + late)
    decreases i
  {
    EntryAt(l, base, i);
    EntryAt(l, base + late, i);
  }

  /** Splitting the list off at position `k`. */
  lemma {:induction false} EntriesDrop(l: seq<Timer>, base: int, k: nat)
    requires k <= |l|
    ensures Entries(l, base)[k..] == Entries(l[k..], base + Sum(l, k))
    decreases k
  {
    if k == 0 {
      assert l[0..] == l;
    } else {
      EntriesDrop(l[1..], base + l[0].time, k - 1);
      assert l[1..][k - 1..] == l[k..];
    }
  }

  /** A new deadline goes behind all that are not later. */
  function StableInsert(es: seq<Entry>, e: Entry): seq<Entry> {
    if es == [] || es[0].due > e.due then [e] + es else [es[0]] + StableInsert(es[1..], e)
  }

  lemma {:induction false} StableInsertAt(es: seq<Entry>, e: Entry, k: nat)
    requires k <= |es| && (forall j :: 0 <= j < k ==> es[j].due <= e.due) && (k < |es| ==> es[k].due > e.due)
    ensures StableInsert(es, e) == es[..k] + [e] + es[k..]
    decreases k
  {
    if k > 0 {
      StableInsertAt(es[1..], e, k - 1);
      assert es[..k] == [es[0]] + es[1..][..k - 1];
    }
  }

  // ----- Insertion -----

  /** `x` put in position `k`, where the timer after it loses `r` of its delta. */
  function Inserted(l: seq<Timer>, k: nat, x: Timer, r: u32): seq<Timer>
    requires k <= |l| && (k < |l| ==> r <= l[k].time)
  {
    if k < |l| then l[..k] + [x, l[k].(time := l[k].time - r)] + l[k + 1..] else l + [x]
  }

  lemma InsertedFirst(l: seq<Timer>, base: int, x: Timer, r: u32)
    requires l != [] ==> r <= l[0].time
    ensures Entries(Inserted(l, 0, x, r), base) ==
            [Entry(base + x.time, x.handler, x.arg)] + Entries(l, base + x.time - r)
  {
    var m := Inserted(l, 0, x, r);
    if l == [] {
      assert m == [x] && m[1..] == [];
    } else {
      assert m[1..] == [l[0].(time := l[0].time - r)] + l[1..];
      assert m[1..][1..] == l[1..];
    }
  }

  lemma InsertedLater(l: seq<Timer>, k: nat, x: Timer, r: u32)
    requires 0 < k <= |l| && (k < |l| ==> r <= l[k].time)
    ensures Inserted(l, k, x, r) == [l[0]] + Inserted(l[1..], k - 1, x, r)
  {
  }

  lemma EntriesCons(t: Timer, l: seq<Timer>, base: int)
    ensures Entries([t] + l, base) == [Entry(base + t.time, t.handler, t.arg)] + Entries(l, base + t.time)
  {
    assert ([t] + l)[1..] == l;
  }

  lemma ConsMiddle(a: Entry, es: seq<Entry>, e: Entry, b: Entry, fs: seq<Entry>, k: nat)
    requires 0 < k <= |es| + 1 && k <= |fs| + 1
    ensures [a] + (es[..k - 1] + [e] + fs[k - 1..]) == ([a] + es)[..k] + [e] + ([b] + fs)[k..]
  {
    assert ([a] + es)[..k] == [a] + es[..k - 1];
    assert ([b] + fs)[k..] == fs[k - 1..];
  }

  /** What an insertion does to the deadlines: the timers after it are delayed by what the new delta adds beyond `r`. */
  lemma {:induction false} InsertedEntries(l: seq<Timer>, base: int, k: nat, x: Timer, r: u32)
    requires k <= |l| && (k < |l| ==> r <= l[k].time)
    ensures Entries(Inserted(l, k, x, r), base) ==
            Entries(l, base)[..k] + [Entry(base + Sum(l, k) + x.time, x.handler, x.arg)]
            + Entries(l, base + x.time - r)[k..]
    decreases k
  {
    hide Inserted, Sum, Entries;
    SumCons(l, k);
    if k == 0 {
      InsertedFirst(l, base, x, r);
    } else {
      var t, rest := l[0], l[1..];
      InsertedLater(l, k, x, r);
      InsertedEntries(rest, base + t.time, k - 1, x, r);
      EntriesCons(t, Inserted(rest, k - 1, x, r), base);
      EntriesOf(l, base);
      EntriesOf(l, base + x.time - r);
      ConsMiddle(Entry(base + t.time, t.handler, t.arg), Entries(rest, base + t.time),
                 Entry(base + Sum(l, k) + x.time, x.handler, x.arg),
                 Entry(base + x.time - r + t.time, t.handler, t.arg), Entries(rest, base + x.time - r + t.time), k);
    }
  }

  lemma SumCons(l: seq<Timer>, k: nat)
    requires k <= |l|
    ensures Sum(l, k) == if k == 0 then 0 else l[0].time + Sum(l[1..], k - 1)
  {
  }

  lemma EntriesOf(l: seq<Timer>, base: int)
    requires l != []
    ensures Entries(l, base) == [Entry(base + l[0].time, l[0].handler, l[0].arg)] + Entries(l[1..], base + l[0].time)
  {
  }

  // ----- Removal -----

  /** Timer `k` taken out; the timer after it inherits its delta, in 32 bits. */
  function Removed(l: seq<Timer>, k: nat): seq<Timer>
    requires k < |l|
  {
    if k + 1 < |l| then l[..k] + [l[k + 1].(time := Add32(l[k + 1].time, l[k].time))] + l[k + 2..] else l[..k]
  }

  /** The delta that the next timer inherits fits in 32 bits. */
  predicate Inheritable(l: seq<Timer>, k: nat)
    requires k < |l|
  {
    k + 1 < |l| ==> l[k].time + l[k + 1].time < TWO32
  }

  lemma RemovedFirst(l: seq<Timer>, base: int)
    requires l != []
    ensures Entries(Removed(l, 0), base) == Entries(l, base)[1..] <==> Inheritable(l, 0)
  {
    if |l| > 1 {
      assert Removed(l, 0)[1..] == l[1..][1..];
      assert Entries(Removed(l, 0), base)[0].due == base + Add32(l[1].time, l[0].time);
      assert Entries(l, base)[1..][0].due == base + l[0].time + l[1].time;
    }
  }

  lemma SameTail(a: Entry, es: seq<Entry>, fs: seq<Entry>)
    ensures [a] + es == [a] + fs <==> es == fs
  {
    assert ([a] + es)[1..] == es && ([a] + fs)[1..] == fs;
  }

  lemma RemovedLater(l: seq<Timer>, k: nat)
    requires 0 < k < |l|
    ensures Removed(l, k) == [l[0]] + Removed(l[1..], k - 1)
  {
    hide Add32;
  }

  /** The other deadlines stay exactly when the inherited delta fits. */
  lemma {:induction false} RemovedEntriesIff(l: seq<Timer>, base: int, k: nat)
    requires k < |l|
    ensures Entries(Removed(l, k), base) == Entries(l, base)[..k] + Entries(l, base)[k + 1..] <==> Inheritable(l, k)
    decreases k
  {
    if k == 0 {
      RemovedFirst(l, base);
    } else {
      var t, rest := l[0], l[1..];
      assert l == [t] + rest;
      RemovedLater(l, k);
      RemovedEntriesIff(rest, base + t.time, k - 1);
      hide Removed, Entries;
      EntriesCons(t, Removed(rest, k - 1), base);
      EntriesCons(t, rest, base);
      var a, es := Entry(base + t.time, t.handler, t.arg), Entries(rest, base + t.time);
      assert ([a] + es)[..k] + ([a] + es)[k + 1..] == [a] + (es[..k - 1] + es[k..]);
      SameTail(a, Entries(Removed(rest, k - 1), base + t.time), es[..k - 1] + es[k..]);
    }
  }

  /** Two timers 2^31 ms apart: without the first, the second is due at once. */
  lemma RemovalHastens(h: Option<nat>)
    ensures var l := [Timer(0x8000_0000, h, 0), Timer(0x8000_0000, h, 1)];
            && Entries(l, 0)[1].due == TWO32
            && Entries(Removed(l, 0), 0) == [Entry(0, h, 1)]
  {
    var l := [Timer(0x8000_0000, h, 0), Timer(0x8000_0000, h, 1)];
    assert l[1..] == [l[1]];
    assert Removed(l, 0) == [Timer(0, h, 1)];
  }

  // ----- What sys_timeout does to the deadlines -----

  /** What the 32-bit sum of `msecs` and `diff` loses: the subtraction of the first delta makes up for it when that
      wraps too. */
  function Lost(l: seq<Timer>, msecs: nat, diff: nat): nat {
    if l != [] && msecs + diff >= TWO32 && (l[0].time > msecs || l[0].time <= msecs + diff - TWO32) then TWO32 else 0
  }

  /** How much later the timers already in the list become due, `diff` after the base. */
  function Late(l: seq<Timer>, msecs: nat, diff: int): int {
    if l != [] && l[0].time > msecs then diff else 0
  }

  /** The list was neglected for so long that all of it is overdue. */
  predicate Neglected(l: seq<Timer>, msecs: nat, diff: int) { l != [] && l[0].time <= msecs && diff > Total(l) }

  /** The deadline that the new timer gets, from the base. */
  function NewDue(l: seq<Timer>, msecs: nat, diff: int): int {
    if Neglected(l, msecs, diff) then Total(l) + Wrap(msecs + l[0].time) else diff + msecs
  }

  /** Where the new timer goes. */
  ghost predicate Placed(l: seq<Timer>, msecs: nat, diff: int, k: nat) {
    && k <= |l|
    && (l != [] && l[0].time > msecs ==> k == 0)
    && (l != [] && l[0].time <= msecs ==> Sum(l, k) <= msecs + diff && (k < |l| ==> Sum(l, k + 1) > msecs + diff))
  }

  ghost function After(l: seq<Timer>, base: int, msecs: nat, diff: int, e: Entry, k: nat): seq<Entry>
    requires k <= |l|
  {
    Entries(l, base)[..k] + [e.(due := base + NewDue(l, msecs, diff))] + Entries(l, base + Late(l, msecs, diff))[k..]
  }

  /** The new timer gets the deadline that was asked for and nothing else changes. */
  predicate Exact(l: seq<Timer>, msecs: nat, diff: nat) {
    || l == [] || diff == 0
    || (l[0].time <= msecs && (diff <= Total(l) || diff + msecs == Total(l) + Wrap(msecs + l[0].time)))
  }

  function DueSum(es: seq<Entry>): int { if es == [] then 0 else es[0].due + DueSum(es[1..]) }

  lemma {:induction false} DueSumCat(a: seq<Entry>, b: seq<Entry>)
    ensures DueSum(a + b) == DueSum(a) + DueSum(b)
    decreases |a|
  {
    if a == [] {
      assert a + b == b;
    } else {
      assert (a + b)[1..] == a[1..] + b;
      DueSumCat(a[1..], b);
    }
  }

  lemma {:induction false} DueSumInsert(es: seq<Entry>, e: Entry)
    ensures DueSum(StableInsert(es, e)) == DueSum(es) + e.due
  {
    if es == [] || es[0].due > e.due {
      DueSumCat([e], es);
      assert [e][1..] == [];
    } else {
      DueSumInsert(es[1..], e);
    }
  }

  lemma {:induction false} DueSumMove(l: seq<Timer>, base: int, late: int)
    ensures late >= 0 ==> DueSum(Entries(l, base + late)) >= DueSum(Entries(l, base)) + (if l == [] then 0 else late)
    ensures late <= 0 ==> DueSum(Entries(l, base + late)) <= DueSum(Entries(l, base)) + (if l == [] then 0 else late)
  {
    if l != [] {
      DueSumMove(l[1..], base + l[0].time, late);
    }
  }

  lemma DueSumAfter(l: seq<Timer>, base: int, msecs: nat, diff: int, e: Entry, k: nat)
    requires Placed(l, msecs, diff, k)
    ensures var sum := DueSum(After(l, base, msecs, diff, e, k));
            && (Late(l, msecs, diff) == 0 ==> sum == DueSum(Entries(l, base)) + base + NewDue(l, msecs, diff))
            && (Late(l, msecs, diff) > 0 ==> sum > DueSum(Entries(l, base)) + base + NewDue(l, msecs, diff))
            && (Late(l, msecs, diff) < 0 ==> sum < DueSum(Entries(l, base)) + base + NewDue(l, msecs, diff))
  {
    var es := Entries(l, base);
    var x, fs := e.(due := base + NewDue(l, msecs, diff)), Entries(l, base + Late(l, msecs, diff));
    DueSumCat(es[..k] + [x], fs[k..]);
    DueSumCat(es[..k], [x]);
    assert [x][1..] == [];
    if Late(l, msecs, diff) == 0 {
      DueSumCat(es[..k], es[k..]);
      assert es[..k] + es[k..] == es;
    } else {
      DueSumMove(l, base, diff);
      assert es[..0] == [] && fs[0..] == fs;
    }
  }

  /** sys_timeout refines a stable insertion of the deadline asked for, exactly when Exact says so and nothing is lost
      of the sum. */
  lemma ExactIff(l: seq<Timer>, base: int, msecs: nat, diff: nat, e: Entry, k: nat)
    requires diff < TWO32 && Placed(l, msecs, diff - Lost(l, msecs, diff), k) && e.due == base + diff + msecs
    ensures After(l, base, msecs, diff - Lost(l, msecs, diff), e, k) == StableInsert(Entries(l, base), e)
            <==> Lost(l, msecs, diff) == 0 && Exact(l, msecs, diff)
  {
    DueSumAfter(l, base, msecs, diff - Lost(l, msecs, diff), e, k);
    DueSumInsert(Entries(l, base), e);
    if Lost(l, msecs, diff) == 0 && Exact(l, msecs, diff) {
      ExactPlaces(l, base, msecs, diff, e, k);
    }
  }

  lemma PlacedBetween(l: seq<Timer>, base: int, msecs: nat, diff: nat, k: nat)
    requires Placed(l, msecs, diff, k) && Exact(l, msecs, diff)
    ensures forall j :: 0 <= j < k ==> Entries(l, base)[j].due <= base + diff + msecs
    ensures k < |l| ==> Entries(l, base)[k].due > base + diff + msecs
  {
    hide Entries, Wrap;
    forall j | 0 <= j < k ensures Entries(l, base)[j].due <= base + diff + msecs {
      EntryAt(l, base, j);
      SumGrows(l, j + 1, k);
    }
    if k < |l| {
      EntryAt(l, base, k);
      SumStep(l, k);
    }
  }

  lemma ExactPlaces(l: seq<Timer>, base: int, msecs: nat, diff: nat, e: Entry, k: nat)
    requires Placed(l, msecs, diff, k) && e.due == base + diff + msecs && Exact(l, msecs, diff)
    ensures After(l, base, msecs, diff, e, k) == StableInsert(Entries(l, base), e)
  {
    hide Entries, StableInsert, Wrap;
    PlacedBetween(l, base, msecs, diff, k);
    StableInsertAt(Entries(l, base), e, k);
  }

  /** A timer becomes due earlier exactly when a new first timer's delta does not fit in 32 bits, and never more than
      `diff` later. */
  lemma EarlierIff(l: seq<Timer>, base: int, msecs: nat, diff: nat, i: nat)
    requires i < |l| && diff < TWO32
    ensures var late := Late(l, msecs, diff - Lost(l, msecs, diff));
            && (Entries(l, base + late)[i].due < Entries(l, base)[i].due <==> l[0].time > msecs && msecs + diff >= TWO32)
            && Entries(l, base + late)[i].due <= Entries(l, base)[i].due + diff
  {
    EntriesMove(l, base, Late(l, msecs, diff - Lost(l, msecs, diff)), i);
  }

  /** A list that was not served for 7 ms: asking for 1 ms moves the old timer from 5 to 12. */
  lemma FrontInsertDelays(h: Option<nat>, e: Entry)
    requires e.due == 8
    ensures var l := [Timer(5, h, 0)];
            !Exact(l, 1, 7) && After(l, 0, 1, 7, e, 0) == [e, Entry(12, h, 0)]
            && StableInsert(Entries(l, 0), e) == [Entry(5, h, 0), e]
  {
    var l := [Timer(5, h, 0)];
    assert l[1..] == [];
    assert Entries(l, 7)[0..] == [Entry(12, h, 0)];
    assert Entries(l, 0) == [Entry(5, h, 0)] && Entries(l, 0)[1..] == [];
    assert StableInsert([], e) == [e];
  }
}
