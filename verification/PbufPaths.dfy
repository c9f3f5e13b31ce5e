/** Chains as paths through the pbuf graph, and what pbuf_cat and pbuf_realloc make of them. */
module PbufPaths {
  import opened Common
  import opened Words
  import opened PbufGraph

  // ----- Paths and chains -----

  /** Following `next` from `p` visits `ids` and then arrives at `end`. */
  ghost predicate IsPath(live: Live, p: Option<Id>, ids: seq<Id>, end: Option<Id>)
    decreases |ids|
  {
    if ids == [] then p == end
    else p == Some(ids[0]) && ids[0] in live && IsPath(live, live[ids[0]].next, ids[1..], end)
  }

  /** `ids` is the whole chain that starts at `p`. */
  ghost predicate IsChain(live: Live, p: Option<Id>, ids: seq<Id>) { IsPath(live, p, ids, None) }

  ghost function Data(live: Live, x: Id): seq<byte> { if x in live then live[x].data else [] }

  /** The bytes that `ids` carry. */
  ghost function Bytes(live: Live, ids: seq<Id>): seq<byte> {
    if ids == [] then [] else Data(live, ids[0]) + Bytes(live, ids[1..])
  }

  /** Every `tot_len` is the number of bytes from there to the end, where `extra` more bytes follow `ids`. */
  ghost predicate Totals(live: Live, ids: seq<Id>, extra: nat) {
    ids != [] ==> ids[0] in live && live[ids[0]].tot == |Bytes(live, ids)| + extra && Totals(live, ids[1..], extra)
  }

  ghost predicate SameLinks(live: Live, live': Live, ids: seq<Id>) {
    forall x :: x in ids && x in live ==> x in live' && live'[x].next == live[x].next
  }

  ghost predicate SameData(live: Live, live': Live, ids: seq<Id>) {
    forall x :: x in ids && x in live ==> x in live' && live'[x].data == live[x].data
  }

  lemma {:induction false} PathStays(live: Live, live': Live, p: Option<Id>, ids: seq<Id>, end: Option<Id>)
    requires IsPath(live, p, ids, end) && SameLinks(live, live', ids)
    ensures IsPath(live', p, ids, end)
    decreases |ids|
  {
    if ids != [] {
      assert ids[0] in ids;
      PathStays(live, live', live[ids[0]].next, ids[1..], end);
    }
  }

  lemma {:induction false} BytesStay(live: Live, live': Live, p: Option<Id>, ids: seq<Id>, end: Option<Id>)
    requires IsPath(live, p, ids, end) && SameData(live, live', ids)
    ensures Bytes(live', ids) == Bytes(live, ids)
    decreases |ids|
  {
    if ids != [] {
      assert ids[0] in ids;
      BytesStay(live, live', live[ids[0]].next, ids[1..], end);
    }
  }

  lemma {:induction false} PathAppend(live: Live, p: Option<Id>, a: seq<Id>, m: Option<Id>, b: seq<Id>, end: Option<Id>)
    requires IsPath(live, p, a, m) && IsPath(live, m, b, end)
    ensures IsPath(live, p, a + b, end)
    decreases |a|
  {
    if a == [] {
      assert a + b == b;
    } else {
      assert (a + b)[1..] == a[1..] + b;
      PathAppend(live, live[a[0]].next, a[1..], m, b, end);
    }
  }

  lemma {:induction false} BytesAppend(live: Live, a: seq<Id>, b: seq<Id>)
    ensures Bytes(live, a + b) == Bytes(live, a) + Bytes(live, b)
    decreases |a|
  {
    if a == [] {
      assert a + b == b;
    } else {
      assert (a + b)[1..] == a[1..] + b;
      BytesAppend(live, a[1..], b);
    }
  }

  lemma BytesSnoc(live: Live, a: seq<Id>, x: Id)
    ensures Bytes(live, a + [x]) == Bytes(live, a) + Data(live, x)
  {
    BytesAppend(live, a, [x]);
    assert [x][1..] == [];
  }

  lemma {:induction false} TotalsAppend(live: Live, a: seq<Id>, b: seq<Id>, extra: nat)
    ensures Totals(live, a + b, extra) <==> Totals(live, a, |Bytes(live, b)| + extra) && Totals(live, b, extra)
    decreases |a|
  {
    if a == [] {
      assert a + b == b;
    } else {
      assert (a + b)[1..] == a[1..] + b;
      BytesAppend(live, a, b);
      TotalsAppend(live, a[1..], b, extra);
    }
  }

  /** Changing what follows changes every total by the same amount, as long as the sums fit 16 bits. */
  lemma {:induction false} TotalsShift(live: Live, live': Live, ids: seq<Id>, extra: nat, extra': nat)
    requires Totals(live, ids, extra) && |Bytes(live, ids)| + extra' < TWO16
    requires SameData(live, live', ids)
    requires forall x :: x in ids && x in live ==> live'[x].tot == Wrap16(live[x].tot + extra' - extra)
    ensures Totals(live', ids, extra') && Bytes(live', ids) == Bytes(live, ids)
    decreases |ids|
  {
    if ids != [] {
      assert ids[0] in ids;
      TotalsShift(live, live', ids[1..], extra, extra');
    }
  }

  lemma {:induction false} TotalsStay(live: Live, live': Live, ids: seq<Id>, extra: nat)
    requires Totals(live, ids, extra)
    requires forall x :: x in ids && x in live ==> x in live' && live'[x].data == live[x].data && live'[x].tot == live[x].tot
    ensures Totals(live', ids, extra) && Bytes(live', ids) == Bytes(live, ids)
    decreases |ids|
  {
    if ids != [] {
      assert ids[0] in ids;
      TotalsStay(live, live', ids[1..], extra);
    }
  }

  lemma {:induction false} PathFalls(live: Live, rank: map<Id, nat>, p: Option<Id>, ids: seq<Id>, end: Option<Id>)
    requires Linked(live, rank) && IsPath(live, p, ids, end)
    ensures forall x :: x in ids ==> x in live && rank[x] <= rank[ids[0]] && (end.Some? && end.value in live ==> rank[end.value] < rank[x])
    decreases |ids|
  {
    if ids != [] {
      PathFalls(live, rank, live[ids[0]].next, ids[1..], end);
    }
  }

  lemma {:induction false} PathMembers(live: Live, p: Option<Id>, ids: seq<Id>, end: Option<Id>)
    requires IsPath(live, p, ids, end)
    ensures forall x :: x in ids ==> x in live
    decreases |ids|
  {
    if ids != [] {
      PathMembers(live, live[ids[0]].next, ids[1..], end);
    }
  }

  lemma TailTotal(live: Live, p: Id, ids: seq<Id>)
    requires IsChain(live, Some(p), ids) && Totals(live, ids, 0)
    ensures p in live && ids == [p] + ids[1..] && |live[p].data| <= live[p].tot == |Bytes(live, ids)|
    ensures live[p].next.Some? ==>
              var q := live[p].next.value; q in live && live[q].tot == live[p].tot - |live[p].data|
  {
    assert IsPath(live, live[p].next, ids[1..], None);
  }

  /** A chain that carries more bytes than its first pbuf has another one. */
  lemma MoreFollows(live: Live, p: Id, ids: seq<Id>)
    requires IsChain(live, Some(p), ids) && |Bytes(live, ids)| > |Data(live, p)|
    ensures p in live && live[p].next.Some? && live[p].next.value in live
    ensures |Bytes(live, ids)| == |live[p].data| + |Bytes(live, ids[1..])|
  {
    assert IsPath(live, live[p].next, ids[1..], None);
  }

  lemma OnePbuf(live: Live, p: Id, extra: nat)
    requires p in live
    ensures IsPath(live, Some(p), [p], live[p].next) && Bytes(live, [p]) == live[p].data
    ensures Totals(live, [p], extra) <==> live[p].tot == |live[p].data| + extra
  {
    assert [p][1..] == [];
    assert Totals(live, [], extra);
  }

  lemma ChainOfOne(live: Live, p: Id, ids: seq<Id>)
    requires IsChain(live, Some(p), ids) && live[p].next == None
    ensures ids == [p]
  {
    assert IsPath(live, live[p].next, ids[1..], None);
    assert ids[1..] == [];
  }

  lemma BumpedNone(live: Live, add: int)
    ensures Bumped(live, [], add) == live
  {
  }

  lemma BumpedStep(live: Live, ids: seq<Id>, p: Id, add: int)
    requires p in live && p !in ids
    ensures var live' := Bumped(live, ids, add);
            && live'.Keys == live.Keys && live'[p] == live[p]
            && live'[p := live[p].(tot := Wrap16(live[p].tot + add))] == Bumped(live, ids + [p], add)
  {
  }

  /** Nothing is passed yet. */
  lemma PathStart(live: Live, p: Id, ids: seq<Id>)
    requires IsChain(live, Some(p), ids)
    ensures p in live && IsPath(live, Some(p), [], Some(p)) && Bytes(live, []) == []
  {
  }

  /** One step along a chain: `p` moves from the rest to the part already passed. */
  lemma StepPath(live: Live, rank: map<Id, nat>, h: Option<Id>, pre: seq<Id>, p: Id, rest: seq<Id>)
    requires Linked(live, rank) && IsPath(live, h, pre, Some(p)) && IsChain(live, Some(p), rest)
    ensures p in live && IsPath(live, h, pre + [p], live[p].next) && IsChain(live, live[p].next, rest[1..])
    ensures pre + rest == (pre + [p]) + rest[1..]
    ensures forall q :: live[p].next == Some(q) ==> q !in pre + [p]
  {
    assert [p][1..] == [];
    assert IsPath(live, Some(p), [p], live[p].next);
    PathAppend(live, h, pre, Some(p), [p], live[p].next);
    PathFalls(live, rank, h, pre + [p], live[p].next);
  }

  /** A chain whose head is kept is kept as a whole. */
  lemma {:induction false} ChainSurvives(live: Live, live': Live, rank: map<Id, nat>, p: Option<Id>, ids: seq<Id>)
    requires IsChain(live, p, ids) && Linked(live', rank) && (p.Some? ==> p.value in live')
    requires forall x :: x in live' ==> x in live && live'[x] == live[x].(ref := live'[x].ref)
    ensures IsChain(live', p, ids) && Bytes(live', ids) == Bytes(live, ids)
    ensures Totals(live, ids, 0) ==> Totals(live', ids, 0)
    decreases |ids|
  {
    if ids != [] {
      ChainSurvives(live, live', rank, live[ids[0]].next, ids[1..]);
    }
  }

  /** Counts do not matter to a chain. */
  lemma SameButCounts(live: Live, live': Live, p: Option<Id>, ids: seq<Id>)
    requires IsChain(live, p, ids) && live'.Keys == live.Keys
    requires forall x :: x in live ==> live'[x] == live[x].(ref := live'[x].ref)
    ensures IsChain(live', p, ids) && Bytes(live', ids) == Bytes(live, ids)
    ensures Totals(live', ids, 0) <==> Totals(live, ids, 0)
  {
    PathStays(live, live', p, ids, None);
    BytesStay(live, live', p, ids, None);
    if Totals(live, ids, 0) {
      TotalsStay(live, live', ids, 0);
    }
    if Totals(live', ids, 0) {
      TotalsStay(live', live, ids, 0);
    }
  }

  /** Only links and counts matter to the invariant. */
  lemma SameShape(live: Live, live': Live, handles: multiset<Id>, rank: map<Id, nat>)
    requires Inv(live, handles, rank) && live'.Keys == live.Keys
    requires forall x :: x in live ==> live'[x].next == live[x].next && live'[x].ref == live[x].ref
    ensures Inv(live', handles, rank)
  {
    forall q: Id ensures Preds(live', q) == Preds(live, q) {}
  }

  /** `add` added to the 16-bit `tot_len` of some pbufs. */
  ghost function Bumped(live: Live, ids: seq<Id>, add: int): Live {
    map x | x in live :: if x in ids then live[x].(tot := Wrap16(live[x].tot + add)) else live[x]
  }

  lemma BumpedKeeps(live: Live, handles: multiset<Id>, rank: map<Id, nat>, ids: seq<Id>, add: int)
    requires Inv(live, handles, rank)
    ensures Inv(Bumped(live, ids, add), handles, rank)
  {
    SameShape(live, Bumped(live, ids, add), handles, rank);
  }

  // ----- The chain after pbuf_cat -----

  /** The head's totals raised by the tail's, and the tail attached behind the last pbuf `l` of the head. */
  ghost function Joined(live: Live, pre: seq<Id>, l: Id, t: Id): Live
    requires l in live && t in live
  {
    Attach(Bumped(live, pre + [l], live[t].tot), l, t)
  }

  /** Where the head `pre + [l]` and the tail `ts` lie before the call. */
  ghost predicate TwoChains(live: Live, rank: map<Id, nat>, h: Option<Id>, pre: seq<Id>, l: Id, t: Id, ts: seq<Id>) {
    && Linked(live, rank) && l in live && live[l].next == None
    && IsPath(live, h, pre, Some(l)) && IsChain(live, Some(t), ts)
    && (forall x :: x in pre + [l] ==> x !in ts)
  }

  lemma JoinedPath(live: Live, rank: map<Id, nat>, h: Option<Id>, pre: seq<Id>, l: Id, t: Id, ts: seq<Id>)
    requires TwoChains(live, rank, h, pre, l, t, ts)
    ensures IsChain(Joined(live, pre, l, t), h, pre + [l] + ts)
  {
    var live' := Joined(live, pre, l, t);
    PathFalls(live, rank, h, pre, Some(l));
    PathStays(live, live', h, pre, Some(l));
    assert l in pre + [l];
    PathStays(live, live', Some(t), ts, None);
    assert [l][1..] == [];
    assert IsPath(live', Some(l), [l], Some(t));
    PathAppend(live', h, pre, Some(l), [l], Some(t));
    PathAppend(live', h, pre + [l], Some(t), ts, None);
  }

  lemma JoinedBytes(live: Live, rank: map<Id, nat>, h: Option<Id>, pre: seq<Id>, l: Id, t: Id, ts: seq<Id>)
    requires TwoChains(live, rank, h, pre, l, t, ts)
    ensures var live' := Joined(live, pre, l, t);
            && Bytes(live', pre + [l]) == Bytes(live, pre + [l]) && Bytes(live', ts) == Bytes(live, ts)
            && Bytes(live', pre + [l] + ts) == Bytes(live, pre + [l]) + Bytes(live, ts)
  {
    var live' := Joined(live, pre, l, t);
    assert [l][1..] == [];
    assert IsPath(live, Some(l), [l], None);
    PathAppend(live, h, pre, Some(l), [l], None);
    BytesStay(live, live', h, pre + [l], None);
    BytesStay(live, live', Some(t), ts, None);
    BytesAppend(live', pre + [l], ts);
  }

  lemma JoinedIs(live: Live, pre: seq<Id>, l: Id, t: Id)
    requires l in live && l !in pre && t in live && t !in pre
    ensures var live' := Bumped(live, pre, live[t].tot);
            && live'.Keys == live.Keys && live'[t] == live[t] && live'[l] == live[l]
            && Joined(live, pre, l, t) ==
               live'[l := live[l].(tot := Wrap16(live[l].tot + live[t].tot), next := Some(t))]
  {
    assert l in pre + [l];
  }

  lemma JoinedFields(live: Live, pre: seq<Id>, l: Id, t: Id, x: Id)
    requires l in live && t in live && x in live
    ensures var live' := Joined(live, pre, l, t);
            && live'.Keys == live.Keys && live'[x].data == live[x].data && live'[x].ref == live[x].ref
            && live'[x].tot == (if x in pre + [l] then Wrap16(live[x].tot + live[t].tot) else live[x].tot)
  {
    assert l in pre + [l];
  }

  /** Only totals and links of `ids` differ. */
  ghost predicate Relinked(live: Live, live': Live, ids: seq<Id>) {
    && live'.Keys == live.Keys
    && (forall x :: x in live && x !in ids ==> live'[x] == live[x])
    && (forall x :: x in live ==> live'[x] == live[x].(tot := live'[x].tot, next := live'[x].next))
  }

  lemma RelinkedSame(live: Live, ids: seq<Id>)
    ensures Relinked(live, live, ids)
  {
  }

  lemma JoinedRelinks(live: Live, pre: seq<Id>, l: Id, t: Id)
    requires l in live && t in live
    ensures Relinked(live, Joined(live, pre, l, t), pre + [l])
  {
    assert l in [l];
  }

  lemma JoinedHeadTotals(live: Live, pre: seq<Id>, l: Id, t: Id)
    requires l in live && t in live && Totals(live, pre + [l], 0)
    requires |Bytes(live, pre + [l])| + live[t].tot < TWO16
    ensures Totals(Joined(live, pre, l, t), pre + [l], live[t].tot)
  {
    hide Joined, Wrap16;
    forall x | x in pre + [l] && x in live
      ensures var live' := Joined(live, pre, l, t);
              x in live' && live'[x].data == live[x].data && live'[x].tot == Wrap16(live[x].tot + live[t].tot - 0)
    {
      JoinedFields(live, pre, l, t, x);
    }
    TotalsShift(live, Joined(live, pre, l, t), pre + [l], 0, live[t].tot);
  }

  lemma JoinedTailTotals(live: Live, pre: seq<Id>, l: Id, t: Id, ts: seq<Id>)
    requires l in live && t in live && Totals(live, ts, 0)
    requires forall x :: x in pre + [l] ==> x !in ts
    ensures Totals(Joined(live, pre, l, t), ts, 0)
  {
    forall x | x in ts && x in live
      ensures var live' := Joined(live, pre, l, t);
              x in live' && live'[x].data == live[x].data && live'[x].tot == live[x].tot
    {
      JoinedFields(live, pre, l, t, x);
    }
    TotalsStay(live, Joined(live, pre, l, t), ts, 0);
  }

  /** The joined chain has the right totals exactly when all its bytes can be counted in 16 bits. */
  lemma JoinedTotals(live: Live, rank: map<Id, nat>, h: Option<Id>, pre: seq<Id>, l: Id, t: Id, ts: seq<Id>)
    requires TwoChains(live, rank, h, pre, l, t, ts) && Totals(live, pre + [l], 0) && Totals(live, ts, 0)
    ensures Totals(Joined(live, pre, l, t), pre + [l] + ts, 0) <==>
            |Bytes(live, pre + [l])| + |Bytes(live, ts)| < TWO16
  {
    hide Joined, Linked;
    var live' := Joined(live, pre, l, t);
    JoinedBytes(live, rank, h, pre, l, t, ts);
    JoinedTailTotals(live, pre, l, t, ts);
    TotalsAppend(live', pre + [l], ts, 0);
    if |Bytes(live, pre + [l])| + live[t].tot < TWO16 {
      JoinedHeadTotals(live, pre, l, t);
    }
  }

  lemma JoinedKeepsInv(live: Live, handles: multiset<Id>, rank: map<Id, nat>, h: Option<Id>, pre: seq<Id>, l: Id,
                       t: Id, ts: seq<Id>) returns (rank': map<Id, nat>)
    requires TwoChains(live, rank, h, pre, l, t, ts) && Inv(live, handles, rank) && t in handles
    ensures Inv(Joined(live, pre, l, t), handles - multiset{t}, rank')
  {
    var live1 := Bumped(live, pre + [l], live[t].tot);
    BumpedKeeps(live, handles, rank, pre + [l], live[t].tot);
    PathStays(live, live1, Some(t), ts, None);
    ChainEnd(live1, rank, t, ts);
    assert l in pre + [l];
    AttachKeepsInv(live1, handles, rank, l, t);
    rank' := Raised(live1, rank, l, t);
  }

  lemma {:induction false} ChainEnd(live: Live, rank: map<Id, nat>, t: Id, ts: seq<Id>)
    requires Linked(live, rank) && IsChain(live, Some(t), ts)
    ensures t in live && Last(live, rank, t) in ts
    decreases |ts|
  {
    if live[t].next.Some? {
      ChainEnd(live, rank, live[t].next.value, ts[1..]);
    }
  }

  lemma JoinedAll(live: Live, rank: map<Id, nat>, h: Option<Id>, pre: seq<Id>, l: Id, t: Id, ts: seq<Id>)
    requires TwoChains(live, rank, h, pre, l, t, ts) && Totals(live, pre + [l], 0) && Totals(live, ts, 0)
    ensures var live', ids := Joined(live, pre, l, t), pre + [l] + ts;
            && live'.Keys == live.Keys && IsChain(live', h, ids)
            && Bytes(live', ids) == Bytes(live, pre + [l]) + Bytes(live, ts)
            && (Totals(live', ids, 0) <==> |Bytes(live', ids)| < TWO16)
  {
    JoinedFields(live, pre, l, t, l);
    hide Joined, TwoChains;
    JoinedPath(live, rank, h, pre, l, t, ts);
    JoinedBytes(live, rank, h, pre, l, t, ts);
    JoinedTotals(live, rank, h, pre, l, t, ts);
  }

  // ----- The chain after pbuf_realloc -----

  /** The totals of the pbufs before `q` lowered by `cut`, and `q` shortened to `n` bytes and made the last. */
  ghost function Shortened(live: Live, pre: seq<Id>, q: Id, n: nat, cut: nat): Live
    requires q in live && n <= |live[q].data|
  {
    Bumped(live, pre, -(cut as int))[q := live[q].(data := live[q].data[..n], tot := Wrap16(n), next := None)]
  }

  lemma ShortenedPath(live: Live, rank: map<Id, nat>, p: Option<Id>, pre: seq<Id>, q: Id, n: nat, cut: nat)
    requires Linked(live, rank) && q in live && n <= |live[q].data| && IsPath(live, p, pre, Some(q))
    ensures IsChain(Shortened(live, pre, q, n, cut), p, pre + [q])
    ensures q !in pre
  {
    var live' := Shortened(live, pre, q, n, cut);
    assert [q][1..] == [];
    assert IsPath(live', Some(q), [q], None);
    PathFalls(live, rank, p, pre, Some(q));
    PathStays(live, live', p, pre, Some(q));
    PathAppend(live', p, pre, Some(q), [q], None);
  }

  lemma ShortenedTotals(live: Live, pre: seq<Id>, q: Id, n: nat, cut: nat)
    requires q in live && q !in pre && n <= |live[q].data| < TWO16 && Totals(live, pre, n + cut)
    ensures Totals(Shortened(live, pre, q, n, cut), pre + [q], 0)
    ensures Bytes(Shortened(live, pre, q, n, cut), pre + [q]) == Bytes(live, pre) + live[q].data[..n]
  {
    var live' := Shortened(live, pre, q, n, cut);
    assert [q][1..] == [];
    assert Bytes(live', [q]) == live[q].data[..n];
    assert Totals(live', [q], 0);
    ShortenedBefore(live, pre, q, n, cut);
    TotalsAppend(live', pre, [q], 0);
    BytesAppend(live', pre, [q]);
  }

  lemma ShortenedBefore(live: Live, pre: seq<Id>, q: Id, n: nat, cut: nat)
    requires q in live && q !in pre && n <= |live[q].data| < TWO16 && Totals(live, pre, n + cut)
    ensures var live' := Shortened(live, pre, q, n, cut);
            Totals(live', pre, n) && Bytes(live', pre) == Bytes(live, pre)
  {
    var live' := Shortened(live, pre, q, n, cut);
    forall x | x in pre && x in live
      ensures live'[x].data == live[x].data && live'[x].tot == Wrap16(live[x].tot + n - (n + cut)) {}
    TotalsShift(live, live', pre, n + cut, n);
  }

  lemma ShortenedKeepsInv(live: Live, handles: multiset<Id>, rank: map<Id, nat>, pre: seq<Id>, q: Id, n: nat, cut: nat)
    requires Inv(live, handles, rank) && q in live && n <= |live[q].data|
    ensures var live' := Shortened(live, pre, q, n, cut);
            Linked(live', rank) && Counted(live', handles, live[q].next)
  {
    hide Linked, Counted, Wrap16;
    var live1 := Bumped(live, pre, -(cut as int))[q := live[q].(data := live[q].data[..n], tot := Wrap16(n))];
    SameShape(live, live1, handles, rank);
    CutKeepsInv(live1, handles, rank, q);
    assert Shortened(live, pre, q, n, cut) == live1[q := live1[q].(next := None)];
  }

  lemma SameSize(live: Live, live': Live)
    requires live'.Keys == live.Keys
    ensures |live'| == |live|
  {
    assert |live'.Keys| == |live'| && |live.Keys| == |live|;
  }

  lemma ShortenedBytes(live: Live, pre: seq<Id>, q: Id, rest: seq<Id>, n: nat, cut: nat)
    requires Totals(live, pre + rest, 0) && rest != [] && rest[0] == q && q in live && q !in pre
    requires n <= |live[q].data| && |Bytes(live, rest)| == n + cut
    ensures var live' := Shortened(live, pre, q, n, cut);
            && Totals(live', pre + [q], 0)
            && Bytes(live', pre + [q]) <= Bytes(live, pre + rest)
            && |Bytes(live', pre + [q])| == |Bytes(live, pre)| + n
  {
    hide Shortened;
    TotalsAppend(live, pre, rest, 0);
    BytesAppend(live, pre, rest);
    ShortenedTotals(live, pre, q, n, cut);
    assert live[q].data <= Bytes(live, rest);
  }

  /** Everything about the shortened chain, before the detached tail is released. */
  lemma ShortenedAll(live: Live, handles: multiset<Id>, rank: map<Id, nat>, p: Option<Id>, pre: seq<Id>, q: Id,
                     rest: seq<Id>, n: nat, cut: nat)
    requires Inv(live, handles, rank) && IsPath(live, p, pre, Some(q)) && IsChain(live, Some(q), rest)
    requires Totals(live, pre + rest, 0) && q in live && n <= |live[q].data| && |Bytes(live, rest)| == n + cut
    ensures var live' := Shortened(live, pre, q, n, cut);
            && |live'| == |live| && Linked(live', rank) && Counted(live', handles, live[q].next)
            && IsChain(live', p, pre + [q]) && Totals(live', pre + [q], 0)
            && Bytes(live', pre + [q]) <= Bytes(live, pre + rest)
            && |Bytes(live', pre + [q])| == |Bytes(live, pre)| + n
  {
    SameSize(live, Shortened(live, pre, q, n, cut));
    hide Shortened, Linked, Counted, Bytes, Totals;
    ShortenedKeepsInv(live, handles, rank, pre, q, n, cut);
    ShortenedPath(live, rank, p, pre, q, n, cut);
    ShortenedBytes(live, pre, q, rest, n, cut);
  }

  /** Unlinking the first pbuf. */
  lemma ShortenedFirst(live: Live, p: Id, cut: nat)
    requires p in live
    ensures Shortened(live, [], p, |live[p].data|, cut) ==
            live[p := live[p].(next := None, tot := Wrap16(|live[p].data|))]
  {
    BumpedNone(live, -(cut as int));
    assert live[p].data[..|live[p].data|] == live[p].data;
  }

  /** The live pbufs outside `ids` are as they were, but for counts. */
  ghost predicate Beside(live: Live, live': Live, ids: seq<Id>) {
    forall x :: x in live' && x !in ids ==> x in live && live'[x] == live[x].(ref := live'[x].ref)
  }

  lemma ShortenedBeside(live: Live, live': Live, pre: seq<Id>, q: Id, n: nat, cut: nat)
    requires q in live && n <= |live[q].data| && Beside(Shortened(live, pre, q, n, cut), live', [])
    ensures Beside(live, live', pre + [q])
  {
    forall x | x in live' && x !in pre + [q] ensures x in live && live'[x] == live[x].(ref := live'[x].ref) {
      assert q in [q] && x !in [];
    }
  }

  /** How many pbufs of the chain `ids` come before the first one with a second reference. */
  ghost function Unshared(live: Live, ids: seq<Id>): nat {
    if ids == [] || ids[0] !in live || live[ids[0]].ref != 1 then 0 else 1 + Unshared(live, ids[1..])
  }

  lemma EmptyChain(live: Live)
    ensures Unshared(live, []) == 0 && IsChain(live, None, []) && Totals(live, [], 0)
  {
  }

  lemma {:induction false} UnsharedStays(live: Live, live': Live, ids: seq<Id>)
    requires forall x :: x in ids ==> x in live && x in live' && live'[x].ref == live[x].ref
    ensures Unshared(live', ids) == Unshared(live, ids)
  {
    if ids != [] {
      assert ids[0] in ids && forall x :: x in ids[1..] ==> x in ids;
      UnsharedStays(live, live', ids[1..]);
    }
  }

  /** The chain behind the first pbuf, when that pbuf changes or goes. */
  lemma BehindFirst(live: Live, live': Live, rank: map<Id, nat>, p: Id, ids: seq<Id>, changed: seq<Id>)
    requires Linked(live, rank) && IsChain(live, Some(p), ids)
    requires forall x :: x in changed ==> x in live && rank[x] >= rank[p]
    requires forall x :: x in live && x !in changed && x != p ==> x in live' && live'[x] == live[x]
    ensures p in live && ids != [] && IsChain(live', live[p].next, ids[1..])
    ensures Bytes(live', ids[1..]) == Bytes(live, ids[1..]) && Unshared(live', ids[1..]) == Unshared(live, ids[1..])
    ensures Totals(live, ids, 0) ==> Totals(live', ids[1..], 0)
  {
    PathFalls(live, rank, live[p].next, ids[1..], None);
    forall x | x in ids[1..] ensures x in live && x in live' && live'[x] == live[x] {
      assert rank[x] < rank[p];
    }
    PathStays(live, live', live[p].next, ids[1..], None);
    BytesStay(live, live', live[p].next, ids[1..], None);
    UnsharedStays(live, live', ids[1..]);
    if Totals(live, ids, 0) {
      TotalsStay(live, live', ids[1..], 0);
    }
  }

  /** The detached tail, before it is released. */
  lemma ShortenedTail(live: Live, rank: map<Id, nat>, p: Option<Id>, pre: seq<Id>, q: Id, rest: seq<Id>, n: nat, cut: nat)
    requires Linked(live, rank) && IsPath(live, p, pre, Some(q)) && IsChain(live, Some(q), rest)
    requires q in live && n <= |live[q].data|
    ensures var live' := Shortened(live, pre, q, n, cut);
            && rest != [] && IsChain(live', live[q].next, rest[1..]) && Bytes(live', rest[1..]) == Bytes(live, rest[1..])
            && Unshared(live', rest[1..]) == Unshared(live, rest[1..])
            && (Totals(live, rest, 0) ==> Totals(live', rest[1..], 0))
  {
    PathFalls(live, rank, p, pre, Some(q));
    BehindFirst(live, Shortened(live, pre, q, n, cut), rank, q, rest, pre);
  }

  /** Everything about the state in which pbuf_dechain has unlinked its first pbuf. */
  lemma Unlinked(live: Live, handles: multiset<Id>, rank: map<Id, nat>, p: Id, ids: seq<Id>)
    requires Inv(live, handles, rank) && IsChain(live, Some(p), ids) && Totals(live, ids, 0)
    ensures p in live && ids != []
    ensures var live' := live[p := live[p].(next := None, tot := Wrap16(|live[p].data|))];
            && |live'| == |live| && Linked(live', rank) && Counted(live', handles, live[p].next)
            && IsChain(live', Some(p), [p]) && Totals(live', [p], 0) && Bytes(live', [p]) == live[p].data
            && IsChain(live', live[p].next, ids[1..]) && Totals(live', ids[1..], 0)
            && Bytes(live', ids[1..]) == Bytes(live, ids[1..]) && Unshared(live', ids[1..]) == Unshared(live, ids[1..])
  {
    TailTotal(live, p, ids);
    var n := |live[p].data|;
    var cut := |Bytes(live, ids)| - n;
    ShortenedFirst(live, p, cut);
    assert [] + ids == ids && [] + [p] == [p];
    ShortenedAll(live, handles, rank, Some(p), [], p, ids, n, cut);
    ShortenedTail(live, rank, Some(p), [], p, ids, n, cut);
  }

  lemma UnlinkedBeside(live: Live, live1: Live, live2: Live, p: Id)
    requires p in live && (forall x :: x in live1 && x != p ==> x in live && live1[x] == live[x])
    requires Beside(live1, live2, [])
    ensures Beside(live, live2, [p])
  {
    forall x | x in live2 && x !in [p] ensures x in live && live2[x] == live[x].(ref := live2[x].ref) {
      assert p in [p] && x !in [];
    }
  }

  lemma BesideSurvives(live: Live, live': Live, rank: map<Id, nat>, p: Option<Id>, ids: seq<Id>)
    requires IsChain(live, p, ids) && Linked(live', rank) && (p.Some? ==> p.value in live') && Beside(live, live', [])
    ensures IsChain(live', p, ids) && Bytes(live', ids) == Bytes(live, ids)
    ensures Totals(live, ids, 0) ==> Totals(live', ids, 0)
  {
    forall x | x in live' ensures x in live && live'[x] == live[x].(ref := live'[x].ref) {
      assert x !in [];
    }
    ChainSurvives(live, live', rank, p, ids);
  }

  lemma BesideSame(live: Live, ids: seq<Id>)
    ensures Beside(live, live, ids)
  {
  }

  lemma ChainHead(live: Live, p: Option<Id>, ids: seq<Id>)
    requires IsChain(live, p, ids) && p.Some?
    ensures ids != [] && ids[0] == p.value && p.value in ids && p.value in live
  {
  }

  /** pbuf_free deallocates the pbufs before the first one that somebody else refers to. */
  lemma {:induction false} ReleaseUnshared(live: Live, handles: multiset<Id>, rank: map<Id, nat>, p: Option<Id>,
                                           ids: seq<Id>)
    requires Linked(live, rank) && Counted(live, handles, p) && IsChain(live, p, ids)
    ensures |Release(live, p)| + Unshared(live, ids) == |live|
    decreases |ids|
  {
    hide Linked, Counted, Preds;
    if ids == [] {
      ReleaseNone(live);
    } else {
      var x := p.value;
      PendingIsLive(live, handles, x);
      if live[x].ref == 1 {
        RemoveStep(live, handles, rank, x);
        BehindFirst(live, live - {x}, rank, x, ids, []);
        ReleaseUnshared(live - {x}, handles, rank, live[x].next, ids[1..]);
      } else {
        SameSize(live, live[x := live[x].(ref := live[x].ref - 1)]);
      }
    }
  }

  // ----- A chain made of new pbufs, for pbuf_alloc -----

  ghost function Elements(ids: seq<Id>): set<Id> { set x | x in ids }

  /** Nothing but its own links refers to a new chain, so releasing its head deallocates all of it and no more. */
  lemma {:induction false} ReleaseNew(live: Live, p: Option<Id>, ids: seq<Id>)
    requires IsChain(live, p, ids) && Distinct(ids) && (forall x :: x in ids && x in live ==> live[x].ref == 1)
    ensures Release(live, p) == live - Elements(ids)
    decreases |ids|
  {
    if ids == [] {
      assert live - Elements(ids) == live;
    } else {
      var x := ids[0];
      assert x in ids && x !in ids[1..];
      PathStays(live, live - {x}, live[x].next, ids[1..], None);
      ReleaseNew(live - {x}, live[x].next, ids[1..]);
      assert (live - {x}) - Elements(ids[1..]) == live - Elements(ids) by {
        assert Elements(ids) == {x} + Elements(ids[1..]);
      }
    }
  }

  /** A new pbuf `q` put behind the last pbuf `r`. */
  ghost function Extended(live: Live, r: Id, q: Id, b: Pbuf): Live
    requires r in live
  {
    live[q := b][r := live[r].(next := Some(q))]
  }

  lemma ExtendedKeepsInv(live: Live, handles: multiset<Id>, rank: map<Id, nat>, r: Id, q: Id, b: Pbuf)
    returns (rank': map<Id, nat>)
    requires Inv(live, handles, rank) && r in live && live[r].next == None && q !in live
    requires b.next == None && b.ref == 1
    ensures Inv(Extended(live, r, q, b), handles, rank')
  {
    hide Linked, Counted;
    AllocKeepsInv(live, handles, rank, q, b);
    var live1, rank1 := live[q := b], rank[q := 0];
    AttachKeepsInv(live1, handles + multiset{q}, rank1, r, q);
    assert handles + multiset{q} - multiset{q} == handles;
    assert Extended(live, r, q, b) == Attach(live1, r, q);
    rank' := Raised(live1, rank1, r, q);
  }

  /** `pre + [r]` is a new chain to which `more` bytes are still to be added. */
  ghost predicate NewChain(live: Live, p: Id, pre: seq<Id>, r: Id, more: nat) {
    && IsPath(live, Some(p), pre, Some(r)) && r in live && live[r].next == None
    && Distinct(pre + [r]) && Totals(live, pre + [r], more)
    && (forall x :: x in pre + [r] && x in live ==> live[x].ref == 1)
  }

  lemma ExtendedChain(live: Live, p: Id, pre: seq<Id>, r: Id, more: nat, q: Id, b: Pbuf)
    requires NewChain(live, p, pre, r, more) && q !in live && q !in pre
    requires b.next == None && b.ref == 1 && b.tot == more && |b.data| <= more
    ensures var live' := Extended(live, r, q, b);
            && NewChain(live', p, pre + [r], q, more - |b.data|)
            && |Bytes(live', pre + [r] + [q])| == |Bytes(live, pre + [r])| + |b.data|
  {
    var live' := Extended(live, r, q, b);
    var ids := pre + [r];
    assert r !in pre by { assert ids[|pre|] == r; assert forall i :: 0 <= i < |pre| ==> ids[i] == pre[i]; }
    assert q !in ids;
    PathStays(live, live', Some(p), pre, Some(r));
    assert [r][1..] == [] && [q][1..] == [];
    assert IsPath(live', Some(r), [r], Some(q));
    PathAppend(live', Some(p), pre, Some(r), [r], Some(q));
    TotalsStay(live, live', ids, more);
    assert Bytes(live', [q]) == b.data;
    TotalsAppend(live', ids, [q], more - |b.data|);
    BytesAppend(live', ids, [q]);
  }

  /** Part way through pbuf_alloc: the first `k` pbufs of `memory` form a new chain beside the pbufs of `was`. */
  ghost predicate Growing(was: Live, live: Live, p: Id, pre: seq<Id>, r: Id, more: nat, memory: seq<Id>, k: nat) {
    && 1 <= k <= |memory| && pre + [r] == memory[..k] && NewChain(live, p, pre, r, more)
    && (forall x :: x in memory ==> x !in was)
    && live - Elements(memory[..k]) == was
  }

  lemma NextIsNew(was: Live, live: Live, p: Id, pre: seq<Id>, r: Id, more: nat, memory: seq<Id>, k: nat)
    requires Growing(was, live, p, pre, r, more, memory, k) && k < |memory| && Distinct(memory)
    ensures memory[k] !in live && memory[k] !in pre && r in live && live[r].next == None
    ensures memory[..k + 1] == pre + [r] + [memory[k]]
  {
    var q := memory[k];
    assert q !in memory[..k];
    assert q in memory;
    assert q in live ==> q in live - Elements(memory[..k]);
    assert forall x :: x in pre ==> x in pre + [r];
  }

  lemma GrowStep(was: Live, live: Live, p: Id, pre: seq<Id>, r: Id, more: nat, memory: seq<Id>, k: nat, b: Pbuf)
    requires Growing(was, live, p, pre, r, more, memory, k) && k < |memory| && Distinct(memory)
    requires b.next == None && b.ref == 1 && b.tot == more && |b.data| <= more
    ensures r in live
    ensures var live' := Extended(live, r, memory[k], b);
            && Growing(was, live', p, pre + [r], memory[k], more - |b.data|, memory, k + 1)
            && |Bytes(live', memory[..k + 1])| == |Bytes(live, memory[..k])| + |b.data|
  {
    var q := memory[k];
    NextIsNew(was, live, p, pre, r, more, memory, k);
    ExtendedChain(live, p, pre, r, more, q, b);
    assert r in pre + [r];
    var live' := Extended(live, r, q, b);
    assert Elements(memory[..k + 1]) == Elements(memory[..k]) + {q};
    assert live' - Elements(memory[..k + 1]) == live - Elements(memory[..k]);
  }

  lemma GrownChain(was: Live, live: Live, p: Id, pre: seq<Id>, r: Id, more: nat, memory: seq<Id>, k: nat)
    requires Growing(was, live, p, pre, r, more, memory, k)
    ensures IsChain(live, Some(p), memory[..k]) && Release(live, Some(p)) == was
    ensures Totals(live, memory[..k], more)
  {
    assert [r][1..] == [];
    assert IsPath(live, Some(r), [r], None);
    PathAppend(live, Some(p), pre, Some(r), [r], None);
    ReleaseNew(live, Some(p), memory[..k]);
  }

  lemma GrowFirst(was: Live, p: Id, more: nat, memory: seq<Id>, b: Pbuf)
    requires memory != [] && p == memory[0] && (forall x :: x in memory ==> x !in was)
    requires b.next == None && b.ref == 1 && b.tot == |b.data| + more
    ensures Growing(was, was[p := b], p, [], p, more, memory, 1)
    ensures Bytes(was[p := b], memory[..1]) == b.data
  {
    assert [] + [p] == [p] == memory[..1];
    OnePbuf(was[p := b], p, more);
    assert Elements(memory[..1]) == {p};
    assert was[p := b] - {p} == was by { assert p in memory; }
  }

  lemma GrownBeside(was: Live, live: Live, p: Id, pre: seq<Id>, r: Id, more: nat, memory: seq<Id>, k: nat)
    requires Growing(was, live, p, pre, r, more, memory, k)
    ensures live - Elements(memory[..k]) == was
  {
  }

  lemma ExtendedIs(live: Live, r: Id, q: Id, b: Pbuf)
    requires r in live
    ensures Extended(live, r, q, b) == live[q := b][r := live[r].(next := Some(q))]
  {
  }
}
