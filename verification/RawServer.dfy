/** The send loop of the memory-dump server: tcp_raw_send chops pbufs off the front of a chain as tcp_write
    accepts them. */
module RawServer {
  import opened Words
  import opened PbufGraph
  import opened PbufPaths
  import opened PbufPool

  /** What tcp_write may return. */
  datatype WriteResult = Accepted | OutOfMemory | Failed

  class RawState {
    /** The chain still to be sent. */
    var p: Option<Id>

    constructor (p: Option<Id>)
      ensures this.p == p
    {
      this.p := p;
    }
  }

  /** The reference that the connection holds while the chain starts at position `k`. */
  ghost function Held(ids: seq<Id>, k: nat): multiset<Id> { if k < |ids| then multiset{ids[k]} else multiset{} }

  /** Round `i` sends its pbuf. */
  ghost predicate Sent(live: Live, ids: seq<Id>, i: nat, room: nat -> nat, result: nat -> WriteResult)
    requires i < |ids|
  {
    |Data(live, ids[i])| <= room(i) && result(i).Accepted?
  }

  lemma SentIff(live: Live, ids: seq<Id>, i: nat, room: nat -> nat, result: nat -> WriteResult)
    requires i < |ids|
    ensures Sent(live, ids, i, room, result) <==> |Data(live, ids[i])| <= room(i) && result(i) == Accepted
  {
  }

  lemma RefChain(live: Live, live': Live, next: Option<Id>, rest: seq<Id>)
    requires IsChain(live, next, rest) && live'.Keys == live.Keys
    requires forall x :: x in live ==> live'[x] == live[x].(ref := live'[x].ref)
    ensures IsChain(live', next, rest) && SameData(live, live', rest)
  {
    PathStays(live, live', next, rest, None);
  }

  lemma ReleaseChain(live: Live, p: Id, handles: multiset<Id>, rank: map<Id, nat>, next: Option<Id>, rest: seq<Id>)
    requires IsChain(live, next, rest) && Inv(Release(live, Some(p)), handles, rank)
    requires next.Some? ==> next.value in handles
    ensures IsChain(Release(live, Some(p)), next, rest) && SameData(live, Release(live, Some(p)), rest)
  {
    hide Release;
    var live' := Release(live, Some(p));
    ReleaseFrame(live, Some(p));
    ChainSurvives(live, live', rank, next, rest);
    PathMembers(live', next, rest, None);
  }

  lemma SameDataTwice(live: Live, live1: Live, live2: Live, ids: seq<Id>)
    requires SameData(live, live1, ids) && SameData(live1, live2, ids)
    ensures SameData(live, live2, ids)
  {
  }

  lemma HeldFirst(live: Live, next: Option<Id>, rest: seq<Id>)
    requires IsChain(live, next, rest)
    ensures Held(rest, 0) == if next.Some? then multiset{next.value} else multiset{}
    ensures next.Some? ==> next.value in live
  {
  }

  /** Move the reference from `ptr` to its successor and free `ptr`. */
  method Chop(pool: Pool, ptr: Id, ghost rest: seq<Id>) returns (next: Option<Id>)
    requires pool.Valid() && ptr in pool.handles && ptr in pool.live && IsChain(pool.live, pool.live[ptr].next, rest)
    modifies pool`live, pool`handles
    ensures pool.Valid() && next == old(pool.live[ptr].next) && IsChain(pool.live, next, rest)
    ensures SameData(old(pool.live), pool.live, rest)
    ensures pool.handles == old(pool.handles) - multiset{ptr} + Held(rest, 0)
  {
    hide Linked, Counted, Release, IsPath, SameData;
    next := pool.live[ptr].next;
    HeldFirst(pool.live, next, rest);
    if next != None {
      pool.Ref(next);
    }
    ghost var live1 := pool.live;
    RefChain(old(pool.live), live1, next, rest);
    var _ := pool.Free(Some(ptr));
    ReleaseChain(live1, ptr, pool.handles, pool.rank, next, rest);
    SameDataTwice(old(pool.live), live1, pool.live, rest);
  }

  /** Part way through: the first `k` pbufs of the chain in `was` are written, the others are still to be sent and
      the connection's reference is on the first of them. */
  ghost predicate Sending(was: Live, held: multiset<Id>, live: Live, handles: multiset<Id>, p: Option<Id>, ids: seq<Id>,
                          k: nat, written: seq<byte>) {
    && k <= |ids| && (forall x :: x in ids ==> x in was)
    && IsChain(live, p, ids[k..]) && SameData(was, live, ids[k..]) && written == Bytes(was, ids[..k])
    && handles == held - Held(ids, 0) + Held(ids, k)
  }

  lemma SendStart(live: Live, handles: multiset<Id>, p: Option<Id>, ids: seq<Id>)
    requires IsChain(live, p, ids) && (p.Some? ==> p.value in handles)
    ensures Sending(live, handles, live, handles, p, ids, 0, [])
  {
    PathMembers(live, p, ids, None);
    assert ids[0..] == ids && ids[..0] == [];
  }

  lemma SendHead(was: Live, held: multiset<Id>, live: Live, handles: multiset<Id>, p: Option<Id>, ids: seq<Id>, k: nat,
                 written: seq<byte>)
    requires Sending(was, held, live, handles, p, ids, k, written)
    ensures k <= |ids| && (p == None <==> k == |ids|)
    ensures p.Some? ==>
              && ids[k] == p.value && p.value in live && p.value in handles && live[p.value].data == Data(was, ids[k])
              && IsChain(live, live[p.value].next, ids[k + 1..])
  {
    if p.Some? {
      assert ids[k..][0] == ids[k] && ids[k..][1..] == ids[k + 1..];
      assert ids[k] in ids[k..] && ids[k] in ids;
    }
  }

  lemma SendStep(was: Live, held: multiset<Id>, live: Live, handles: multiset<Id>, p: Id, ids: seq<Id>, k: nat,
                 written: seq<byte>, live': Live, handles': multiset<Id>, next: Option<Id>)
    requires Sending(was, held, live, handles, Some(p), ids, k, written) && k < |ids| && p == ids[k]
    requires IsChain(live', next, ids[k + 1..]) && SameData(live, live', ids[k + 1..])
    requires handles' == handles - multiset{p} + Held(ids[k + 1..], 0)
    ensures Sending(was, held, live', handles', next, ids, k + 1, written + Data(was, p))
  {
    BytesSnoc(was, ids[..k], p);
    assert ids[..k] + [p] == ids[..k + 1];
    assert ids[k..] == [p] + ids[k + 1..];
    SameDataTwice(was, live, live', ids[k + 1..]);
  }

  lemma SendEnd(was: Live, held: multiset<Id>, live: Live, handles: multiset<Id>, p: Option<Id>, ids: seq<Id>, k: nat,
                written: seq<byte>)
    requires Sending(was, held, live, handles, p, ids, k, written)
    ensures k <= |ids| && IsChain(live, p, ids[k..]) && Bytes(live, ids[k..]) == Bytes(was, ids[k..])
    ensures written == Bytes(was, ids[..k]) && handles == held - Held(ids, 0) + Held(ids, k)
  {
    SameBytes(was, live, ids[k..]);
  }

  lemma {:induction false} SameBytes(live: Live, live': Live, ids: seq<Id>)
    requires SameData(live, live', ids) && (forall x :: x in ids ==> x in live)
    ensures Bytes(live', ids) == Bytes(live, ids)
    decreases |ids|
  {
    if ids != [] {
      assert ids[0] in ids;
      SameBytes(live, live', ids[1..]);
    }
  }

  /** One round of tcp_raw_send: offer the first pbuf of the chain to tcp_write and, if it is accepted, chop it off. */
  method SendRound(pool: Pool, es: RawState, accepted: bool, ghost was: Live, ghost held: multiset<Id>, ghost ids: seq<Id>,
                   ghost k: nat, ghost written: seq<byte>) returns (data: seq<byte>)
    requires pool.Valid() && es.p.Some? && Sending(was, held, pool.live, pool.handles, es.p, ids, k, written)
    modifies pool`live, pool`handles, es
    ensures pool.Valid() && k < |ids|
    ensures accepted ==> data == Data(was, ids[k])
    ensures accepted ==> Sending(was, held, pool.live, pool.handles, es.p, ids, k + 1, written + data)
    ensures !accepted ==> pool.live == old(pool.live) && pool.handles == old(pool.handles) && es.p == old(es.p)
  {
    hide Linked, Counted, Sending, IsPath, Bytes, SameData, Data, Inv, Held;
    SendHead(was, held, pool.live, pool.handles, es.p, ids, k, written);
    var ptr := es.p.value;
    data := pool.live[ptr].data;
    if accepted {
      ghost var live1, handles1 := pool.live, pool.handles;
      es.p := Chop(pool, ptr, ids[k + 1..]);
      SendStep(was, held, live1, handles1, ptr, ids, k, written, pool.live, pool.handles, es.p);
    }
  }

  /** tcp_raw_send; `room(i)` and `result(i)` are what tcp_sndbuf and tcp_write answer in round `i`. */
  method Send(pool: Pool, es: RawState, room: nat -> nat, result: nat -> WriteResult, ghost ids: seq<Id>)
    returns (written: seq<byte>, credited: nat, ghost k: nat)
    requires pool.Valid() && IsChain(pool.live, es.p, ids) && (es.p.Some? ==> es.p.value in pool.handles)
    modifies pool`live, pool`handles, es
    ensures pool.Valid() && k <= |ids| && IsChain(pool.live, es.p, ids[k..])
    ensures written == old(Bytes(pool.live, ids[..k])) && credited == |written|
    ensures Bytes(pool.live, ids[k..]) == old(Bytes(pool.live, ids[k..]))
    ensures pool.handles == old(pool.handles) - Held(ids, 0) + Held(ids, k)
    ensures forall i :: 0 <= i < k ==> Sent(old(pool.live), ids, i, room, result)
    ensures k < |ids| ==> !Sent(old(pool.live), ids, k, room, result)
  {
    hide Linked, Counted, Sending, IsPath, Bytes, SameData, Data, Inv, Held, Sent;
    k, written, credited := 0, [], 0;
    ghost var was, held := pool.live, pool.handles;
    var round, ok := 0, true;
    SendStart(was, held, es.p, ids);
    SendHead(was, held, pool.live, pool.handles, es.p, ids, k, written);
    while ok && es.p != None && |pool.live[es.p.value].data| <= room(round)
      invariant pool.Valid() && k == round <= |ids| && credited == |written|
      invariant Sending(was, held, pool.live, pool.handles, es.p, ids, k, written)
      invariant es.p == None <==> k == |ids|
      invariant es.p.Some? ==> es.p.value in pool.live && pool.live[es.p.value].data == Data(was, ids[k])
      invariant forall i :: 0 <= i < k ==> Sent(was, ids, i, room, result)
      invariant !ok ==> k < |ids| && !Sent(was, ids, k, room, result)
      decreases |ids| - k, ok
    {
      SentIff(was, ids, k, room, result);
      ok := result(round) == Accepted;
      var data := SendRound(pool, es, ok, was, held, ids, k, written);
      if ok {
        written, credited := written + data, credited + |data|;
        round, k := round + 1, k + 1;
        SendHead(was, held, pool.live, pool.handles, es.p, ids, k, written);
      }
    }
    SendEnd(was, held, pool.live, pool.handles, es.p, ids, k, written);
    if k < |ids| {
      SentIff(was, ids, k, room, result);
    }
  }
}
