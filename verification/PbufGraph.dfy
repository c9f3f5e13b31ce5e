/** Reference counts of pbufs.

    Pbufs form an acyclic graph in which chains may share tails.  A reference
    count must equal the number of handles that code outside the pool holds
    plus the number of live pbufs whose `next` leads here.  The functions are
    the effects of pbuf.c's operations on the live pbufs.
 */
module PbufGraph {
  import opened Common
  import opened Words

  type Id = nat

  /** The fields of `struct pbuf` that matter here; `data` is the payload of `len` bytes. */
  datatype Pbuf = Pbuf(next: Option<Id>, ref: nat, data: seq<byte>, tot: u16)

  type Live = map<Id, Pbuf>

  /** The live pbufs whose `next` is `p`. */
  function Preds(live: Live, p: Id): set<Id> { set q | q in live && live[q].next == Some(p) }

  /** Links lead to live pbufs, and `rank` falls along them: there is no cycle. */
  ghost predicate Linked(live: Live, rank: map<Id, nat>) {
    && (forall p :: p in live ==> p in rank)
    && (forall p :: p in live && live[p].next.Some? ==>
          live[p].next.value in live && rank[live[p].next.value] < rank[p])
  }

  /** Every count is right, except that `drop` still counts one reference too many. */
  ghost predicate Counted(live: Live, handles: multiset<Id>, drop: Option<Id>) {
    && (forall p :: p in live ==> live[p].ref == handles[p] + |Preds(live, p)| + One(drop == Some(p)))
    && (forall p :: p in live ==> live[p].ref > 0)
    && (forall p :: p in handles ==> p in live)
    && (drop.Some? ==> drop.value in live)
  }

  ghost predicate Inv(live: Live, handles: multiset<Id>, rank: map<Id, nat>) {
    Linked(live, rank) && Counted(live, handles, None)
  }

  // ----- pbuf_free -----

  /** Drop one reference to `p`; deallocate the pbufs at the head of the chain whose count reaches zero. */
  function Release(live: Live, p: Option<Id>): Live
    decreases |live|
  {
    if p == None || p.value !in live then live
    else if live[p.value].ref > 1 then live[p.value := live[p.value].(ref := live[p.value].ref - 1)]
    else Release(live - {p.value}, live[p.value].next)
  }

  lemma RemovePreds(live: Live, p: Id, q: Id)
    requires p in live
    ensures Preds(live - {p}, q) == Preds(live, q) - {p}
    ensures |Preds(live - {p}, q)| == |Preds(live, q)| - One(live[p].next == Some(q))
  {
    assert p in Preds(live, q) <==> live[p].next == Some(q);
  }

  /** Changing a pbuf's other fields leaves predecessors alone. */
  lemma SamePreds(live: Live, p: Id, b: Pbuf, q: Id)
    requires p in live && b.next == live[p].next
    ensures Preds(live[p := b], q) == Preds(live, q)
  {
  }

  lemma RemoveCounted(live: Live, handles: multiset<Id>, p: Id)
    requires Counted(live, handles, Some(p)) && live[p].ref == 1 && live[p].next != Some(p)
    requires live[p].next.Some? ==> live[p].next.value in live
    ensures Counted(live - {p}, handles, live[p].next)
    ensures Preds(live, p) == {} && p !in handles
  {
    var live' := live - {p};
    forall q | q in live' ensures live'[q].ref == handles[q] + |Preds(live', q)| + One(live[p].next == Some(q)) {
      RemovePreds(live, p, q);
    }
  }

  lemma DecrementCounted(live: Live, handles: multiset<Id>, p: Id)
    requires Counted(live, handles, Some(p)) && live[p].ref > 1
    ensures Counted(live[p := live[p].(ref := live[p].ref - 1)], handles, None)
  {
    var b := live[p].(ref := live[p].ref - 1);
    forall q: Id ensures Preds(live[p := b], q) == Preds(live, q) {
      SamePreds(live, p, b, q);
    }
  }

  lemma RemoveLinked(live: Live, rank: map<Id, nat>, p: Id)
    requires Linked(live, rank) && Preds(live, p) == {}
    ensures Linked(live - {p}, rank)
  {
    forall q | q in live - {p} && live[q].next.Some? ensures live[q].next.value in live - {p} {
      assert live[q].next == Some(p) ==> q in Preds(live, p);
    }
  }

  /** One round of the loop of pbuf_free that deallocates `p`. */
  lemma RemoveStep(live: Live, handles: multiset<Id>, rank: map<Id, nat>, p: Id)
    requires Linked(live, rank) && Counted(live, handles, Some(p)) && live[p].ref == 1
    ensures Linked(live - {p}, rank) && Counted(live - {p}, handles, live[p].next)
    ensures |live| == |live - {p}| + 1
  {
    RemoveCounted(live, handles, p);
    RemoveLinked(live, rank, p);
  }

  /** The round of that loop that stops at `p`. */
  lemma DecrementStep(live: Live, handles: multiset<Id>, rank: map<Id, nat>, p: Id)
    requires Linked(live, rank) && Counted(live, handles, Some(p)) && live[p].ref > 1
    ensures var live' := live[p := live[p].(ref := live[p].ref - 1)];
            Linked(live', rank) && Counted(live', handles, None)
  {
    DecrementCounted(live, handles, p);
  }

  lemma ReleaseNone(live: Live)
    ensures Release(live, None) == live
  {
  }

  lemma ReleaseLast(live: Live, p: Id)
    requires p in live && live[p].ref == 1
    ensures Release(live, Some(p)) == Release(live - {p}, live[p].next)
  {
  }

  lemma ReleaseShared(live: Live, p: Id)
    requires p in live && live[p].ref > 1
    ensures Release(live, Some(p)) == live[p := live[p].(ref := live[p].ref - 1)]
  {
  }

  lemma PendingIsLive(live: Live, handles: multiset<Id>, p: Id)
    requires Counted(live, handles, Some(p))
    ensures p in live && live[p].ref > 0
  {
  }

  lemma HandleIsLive(live: Live, handles: multiset<Id>, rank: map<Id, nat>, p: Id)
    requires Inv(live, handles, rank) && p in handles
    ensures p in live && live[p].ref > 0 && Linked(live, rank) && Counted(live, handles - multiset{p}, Some(p))
  {
  }

  lemma {:induction false} ReleaseKeepsInv(live: Live, handles: multiset<Id>, rank: map<Id, nat>, p: Option<Id>)
    requires Linked(live, rank) && Counted(live, handles, p)
    ensures Inv(Release(live, p), handles, rank)
    decreases |live|
  {
    if p.Some? {
      var x := p.value;
      if live[x].ref > 1 {
        DecrementCounted(live, handles, x);
      } else {
        RemoveStep(live, handles, rank, x);
        ReleaseKeepsInv(live - {x}, handles, rank, live[x].next);
      }
    }
  }

  /** What is left after a release is as it was, but for one count. */
  lemma {:induction false} ReleaseFrame(live: Live, p: Option<Id>)
    ensures var live' := Release(live, p);
            forall q :: q in live' ==> q in live && live'[q] == live[q].(ref := live'[q].ref)
    decreases |live|
  {
    if p.Some? && p.value in live && live[p.value].ref <= 1 {
      ReleaseFrame(live - {p.value}, live[p.value].next);
    }
  }

  /** The head of the chain survives exactly when somebody else refers to it; then nothing is deallocated. */
  lemma ReleaseHead(live: Live, p: Id)
    requires p in live
    ensures p in Release(live, Some(p)) <==> live[p].ref > 1
    ensures live[p].ref > 1 ==> Release(live, Some(p)).Keys == live.Keys
  {
    if live[p].ref <= 1 {
      ReleaseFrame(live - {p}, live[p].next);
    }
  }

  /** The number of pbufs falls exactly when the head is deallocated. */
  lemma ReleaseCount(live: Live, p: Id)
    requires p in live
    ensures |Release(live, Some(p))| <= |live|
    ensures |Release(live, Some(p))| == |live| <==> p in Release(live, Some(p))
  {
    var live' := Release(live, Some(p));
    ReleaseHead(live, p);
    ReleaseFrame(live, Some(p));
    assert |live'.Keys| == |live'| && |live.Keys| == |live|;
    if p !in live' {
      Smaller(live'.Keys, live.Keys, p);
    }
  }

  // ----- Reachability -----

  /** `q` is reached from a handle by following `next` `n` times. */
  ghost predicate ReachedIn(live: Live, handles: multiset<Id>, q: Id, n: nat)
    decreases n
  {
    if n == 0 then q in handles
    else exists x :: x in Preds(live, q) && ReachedIn(live, handles, x, n - 1)
  }

  ghost predicate Reachable(live: Live, handles: multiset<Id>, q: Id) {
    exists n: nat :: ReachedIn(live, handles, q, n)
  }

  ghost function Above(live: Live, rank: map<Id, nat>, q: Id): set<Id>
    requires Linked(live, rank) && q in live
  {
    set y | y in live && rank[y] > rank[q]
  }

  /** There is no garbage: every live pbuf is reachable from a handle. */
  lemma {:induction false} NoGarbage(live: Live, handles: multiset<Id>, rank: map<Id, nat>, q: Id)
    requires Inv(live, handles, rank) && q in live
    ensures Reachable(live, handles, q)
    decreases |Above(live, rank, q)|
  {
    if q in handles {
      assert ReachedIn(live, handles, q, 0);
    } else {
      assert Preds(live, q) != {};
      var x :| x in Preds(live, q);
      Smaller(Above(live, rank, x), Above(live, rank, q), x);
      NoGarbage(live, handles, rank, x);
      var n: nat :| ReachedIn(live, handles, x, n);
      assert ReachedIn(live, handles, q, n + 1);
    }
  }

  /** What a handle reaches before a release is still there after it. */
  lemma {:induction false} ReachedStays(live: Live, live': Live, handles: multiset<Id>, rank: map<Id, nat>, q: Id, n: nat)
    requires Inv(live', handles, rank) && ReachedIn(live, handles, q, n)
    requires forall x :: x in live' ==> x in live && live'[x].next == live[x].next
    ensures q in live'
    decreases n
  {
    if n > 0 {
      var x :| x in Preds(live, q) && ReachedIn(live, handles, x, n - 1);
      ReachedStays(live, live', handles, rank, x, n - 1);
    }
  }

  lemma {:induction false} ReachedBefore(live: Live, live': Live, handles: multiset<Id>, q: Id, n: nat)
    requires forall x :: x in live' ==> x in live && live'[x].next == live[x].next
    requires ReachedIn(live', handles, q, n)
    ensures ReachedIn(live, handles, q, n)
    decreases n
  {
    if n > 0 {
      var x :| x in Preds(live', q) && ReachedIn(live', handles, x, n - 1);
      ReachedBefore(live, live', handles, x, n - 1);
      assert x in Preds(live, q);
    }
  }

  /** pbuf_free deallocates exactly the pbufs that no remaining handle reaches. */
  lemma ReleaseExact(live: Live, handles: multiset<Id>, rank: map<Id, nat>, p: Option<Id>, q: Id)
    requires Linked(live, rank) && Counted(live, handles, p) && q in live
    ensures q in Release(live, p) <==> Reachable(live, handles, q)
  {
    var live' := Release(live, p);
    ReleaseKeepsInv(live, handles, rank, p);
    ReleaseFrame(live, p);
    if q in live' {
      NoGarbage(live', handles, rank, q);
      var n: nat :| ReachedIn(live', handles, q, n);
      ReachedBefore(live, live', handles, q, n);
    }
    if Reachable(live, handles, q) {
      var n: nat :| ReachedIn(live, handles, q, n);
      ReachedStays(live, live', handles, rank, q, n);
    }
  }

  // ----- pbuf_alloc and pbuf_ref -----

  lemma AllocKeepsInv(live: Live, handles: multiset<Id>, rank: map<Id, nat>, p: Id, b: Pbuf)
    requires Inv(live, handles, rank) && p !in live && b.next == None && b.ref == 1
    ensures Inv(live[p := b], handles + multiset{p}, rank[p := 0])
  {
    var live' := live[p := b];
    forall q: Id ensures Preds(live', q) == Preds(live, q) {}
    assert Preds(live, p) == {};
    assert handles[p] == 0;
  }

  lemma RefKeepsInv(live: Live, handles: multiset<Id>, rank: map<Id, nat>, p: Id)
    requires Inv(live, handles, rank) && p in live
    ensures Inv(live[p := live[p].(ref := live[p].ref + 1)], handles + multiset{p}, rank)
  {
    var b := live[p].(ref := live[p].ref + 1);
    forall q: Id ensures Preds(live[p := b], q) == Preds(live, q) {
      SamePreds(live, p, b, q);
    }
  }

  // ----- Detaching a tail: pbuf_dechain and pbuf_realloc -----

  lemma CutPreds(live: Live, p: Id, q: Id)
    requires p in live
    ensures |Preds(live[p := live[p].(next := None)], q)| + One(live[p].next == Some(q)) == |Preds(live, q)|
  {
    assert Preds(live[p := live[p].(next := None)], q) == Preds(live, q) - {p};
    assert p in Preds(live, q) <==> live[p].next == Some(q);
  }

  /** Unlinking `p` from what follows leaves one reference too many there, for pbuf_free to drop. */
  lemma CutKeepsInv(live: Live, handles: multiset<Id>, rank: map<Id, nat>, p: Id)
    requires Inv(live, handles, rank) && p in live
    ensures var live' := live[p := live[p].(next := None)];
            Linked(live', rank) && Counted(live', handles, live[p].next)
  {
    var t, live' := live[p].next, live[p := live[p].(next := None)];
    forall q | q in live' ensures live'[q].ref == handles[q] + |Preds(live', q)| + One(t == Some(q)) {
      CutPreds(live, p, q);
    }
  }

  // ----- pbuf_cat and pbuf_chain -----

  /** The last pbuf of the chain that starts at `p`. */
  ghost function Last(live: Live, rank: map<Id, nat>, p: Id): (l: Id)
    requires Linked(live, rank) && p in live
    ensures l in live && live[l].next == None
    decreases rank[p]
  {
    if live[p].next == None then p else Last(live, rank, live[p].next.value)
  }

  function Attach(live: Live, l: Id, t: Id): Live
    requires l in live
  {
    live[l := live[l].(next := Some(t))]
  }

  /** After attaching `t` behind `l`, chains that ended at `l` rank above `t`. */
  ghost function Raised(live: Live, rank: map<Id, nat>, l: Id, t: Id): map<Id, nat>
    requires Linked(live, rank) && t in live
  {
    map x | x in live :: rank[x] + if Last(live, rank, x) == l then rank[t] + 1 else 0
  }

  lemma AttachLinked(live: Live, rank: map<Id, nat>, l: Id, t: Id)
    requires Linked(live, rank) && l in live && t in live && live[l].next == None
    requires Last(live, rank, t) != l
    ensures Linked(Attach(live, l, t), Raised(live, rank, l, t))
  {
    var live', r := Attach(live, l, t), Raised(live, rank, l, t);
    forall x | x in live' && live'[x].next.Some?
      ensures live'[x].next.value in live' && r[live'[x].next.value] < r[x]
    {
      if x == l {
        assert Last(live, rank, l) == l;
      } else {
        assert Last(live, rank, x) == Last(live, rank, live[x].next.value);
      }
    }
  }

  lemma AttachPreds(live: Live, l: Id, t: Id, q: Id)
    requires l in live && live[l].next == None
    ensures |Preds(Attach(live, l, t), q)| == |Preds(live, q)| + One(q == t)
  {
    assert l !in Preds(live, q);
    assert Preds(Attach(live, l, t), q) == if q == t then Preds(live, q) + {l} else Preds(live, q);
  }

  lemma AttachCounted(live: Live, handles: multiset<Id>, l: Id, t: Id)
    requires Counted(live, handles, None) && l in live && t in handles && live[l].next == None
    ensures Counted(Attach(live, l, t), handles - multiset{t}, None)
  {
    var live', handles' := Attach(live, l, t), handles - multiset{t};
    forall q | q in live' ensures live'[q].ref == handles'[q] + |Preds(live', q)| {
      AttachPreds(live, l, t, q);
    }
  }

  /** pbuf_cat hands the caller's reference to the tail over to the last pbuf of the head. */
  lemma AttachKeepsInv(live: Live, handles: multiset<Id>, rank: map<Id, nat>, h: Id, t: Id)
    requires Inv(live, handles, rank) && h in live && t in handles
    requires Last(live, rank, t) != Last(live, rank, h)
    ensures var l := Last(live, rank, h);
            Inv(Attach(live, l, t), handles - multiset{t}, Raised(live, rank, l, t))
  {
    var l := Last(live, rank, h);
    AttachLinked(live, rank, l, t);
    AttachCounted(live, handles, l, t);
  }
}
