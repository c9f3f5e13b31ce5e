/** The operations of pbuf.c that change chains and reference counts. */
module PbufPool {
  import opened Common
  import opened Words
  import opened PbufGraph
  import opened PbufPaths

  /** An 8-bit counter. */
  function Low8(n: nat): nat { n % 256 }

  lemma Low8Zero()
    ensures Low8(0) == 0
  {
  }

  lemma Low8Step(n: nat)
    ensures Low8(Low8(n) + 1) == Low8(n + 1)
  {
  }

  /** How many pool pbufs of `size` bytes hold `n` bytes. */
  function PbufsFor(n: nat, size: nat): nat
    requires size > 0
  {
    if n == 0 then 0 else 1 + PbufsFor(n - Min(n, size), size)
  }

  /** As many as are needed: all but the last are full. */
  lemma {:induction false} PbufsForExact(n: nat, size: nat)
    requires size > 0
    ensures n <= PbufsFor(n, size) * size < n + size
  {
    if n > 0 {
      PbufsForExact(n - Min(n, size), size);
      assert PbufsFor(n, size) * size == PbufsFor(n - Min(n, size), size) * size + size;
    }
  }

  /** The payload of a new pbuf is whatever was in memory; it is modelled as zeros. */
  function Unset(n: nat): (s: seq<byte>)
    ensures |s| == n
  {
    seq(n, _ => 0)
  }

  class Pool {
    var live: Live
    /** One entry per reference held outside the pool. */
    ghost var handles: multiset<Id>
    ghost var rank: map<Id, nat>

    ghost predicate Valid()
      reads this
    {
      Inv(live, handles, rank)
    }

    constructor ()
      ensures Valid() && live == map[] && handles == multiset{}
    {
      live, handles, rank := map[], multiset{}, map[];
    }

    /** One round of the loop of pbuf_free: a reference to `x` is dropped, and with the last one the pbuf. */
    method DropOne(x: Id) returns (next: Option<Id>, gone: bool)
      requires Linked(live, rank) && Counted(live, handles, Some(x))
      modifies `live
      ensures Linked(live, rank) && Counted(live, handles, next) && Release(live, next) == Release(old(live), Some(x))
      ensures |old(live)| == |live| + One(gone) && (next.Some? ==> gone)
    {
      hide Linked, Counted, Release, Preds;
      PendingIsLive(live, handles, x);
      var ref := live[x].ref - 1;
      gone := ref == 0;
      if gone {
        RemoveStep(live, handles, rank, x);
        ReleaseLast(live, x);
        next := live[x].next;
        live := live - {x};
      } else {
        DecrementStep(live, handles, rank, x);
        ReleaseShared(live, x);
        live := live[x := live[x].(ref := ref)];
        next := None;
        ReleaseNone(live);
      }
    }

    /** The loop of pbuf_free: drop a reference to `p` that is no longer among the handles.
        The count of deallocated pbufs is kept in 8 bits. */
    method Drop(p: Option<Id>) returns (count: nat)
      requires Linked(live, rank) && Counted(live, handles, p)
      modifies `live
      ensures Valid() && live == Release(old(live), p)
      ensures |live| <= |old(live)| && count == Low8(|old(live)| - |live|)
    {
      hide Linked, Counted, Low8, Release, Preds;
      var q, gone := p, false;
      ghost var freed := 0;
      count := 0;
      assert Low8(0) == 0 by { Low8Zero(); }
      while q != None
        invariant Linked(live, rank) && Counted(live, handles, q)
        invariant Release(live, q) == Release(old(live), p)
        invariant |old(live)| == |live| + freed && count == Low8(freed)
        decreases |live| + One(q != None)
      {
        q, gone := DropOne(q.value);
        if gone {
          Low8Step(freed);
          count, freed := Low8(count + 1), freed + 1;
        }
      }
      ReleaseNone(live);
    }

    /** pbuf_free */
    method Free(p: Option<Id>) returns (count: nat)
      requires Valid() && (p.Some? ==> p.value in handles)
      modifies `live, `handles
      ensures Valid() && live == Release(old(live), p)
      ensures handles == if p.Some? then old(handles) - multiset{p.value} else old(handles)
      ensures |live| <= |old(live)| && count == Low8(|old(live)| - |live|)
    {
      hide Linked, Counted, Low8, Release;
      if p == None {
        count := 0;
        ReleaseNone(live);
        Low8Zero();
        return;
      }
      HandleIsLive(live, handles, rank, p.value);
      handles := handles - multiset{p.value};
      count := Drop(p);
    }

    /** pbuf_ref */
    method Ref(p: Option<Id>)
      requires Valid() && (p.Some? ==> p.value in live)
      modifies `live, `handles
      ensures Valid()
      ensures p == None ==> live == old(live) && handles == old(handles)
      ensures p.Some? ==> live == old(live)[p.value := old(live)[p.value].(ref := old(live)[p.value].ref + 1)]
      ensures p.Some? ==> handles == old(handles) + multiset{p.value}
    {
      hide Linked, Counted;
      if p != None {
        RefKeepsInv(live, handles, rank, p.value);
        live := live[p.value := live[p.value].(ref := live[p.value].ref + 1)];
        handles := handles + multiset{p.value};
      }
    }

    /** The loop of pbuf_cat: add the tail's total to every pbuf of the head but the last, which is returned. */
    method RaiseTotals(h: Id, t: Id, ghost hs: seq<Id>) returns (l: Id, ghost pre: seq<Id>)
      requires Linked(live, rank) && IsChain(live, Some(h), hs) && t in live && t !in hs
      modifies `live
      ensures l in old(live) && old(live)[l].next == None && l !in pre && hs == pre + [l]
      ensures IsPath(old(live), Some(h), pre, Some(l))
      ensures live == Bumped(old(live), pre, old(live)[t].tot)
    {
      hide Linked, Bumped, Wrap16;
      var p := h;
      pre := [];
      ghost var rest := hs;
      BumpedNone(live, live[t].tot);
      while live[p].next != None
        invariant IsPath(old(live), Some(h), pre, Some(p)) && IsChain(old(live), Some(p), rest) && hs == pre + rest
        invariant live == Bumped(old(live), pre, old(live)[t].tot)
        invariant live.Keys == old(live).Keys && p !in pre && live[p] == old(live)[p] && live[t] == old(live)[t]
        decreases |rest|
      {
        StepPath(old(live), rank, Some(h), pre, p, rest);
        BumpedStep(old(live), pre, p, live[t].tot);
        live := live[p := live[p].(tot := Wrap16(live[p].tot + live[t].tot))];
        pre, rest := pre + [p], rest[1..];
        p := live[p].next.value;
        BumpedStep(old(live), pre, p, old(live)[t].tot);
        BumpedStep(old(live), pre, t, old(live)[t].tot);
      }
      l := p;
      ChainOfOne(old(live), p, rest);
    }

    /** Release the pending tail `t`; a chain that starts at a handle is not affected. */
    method DropTail(t: Option<Id>, ghost ts: seq<Id>, ghost p: Id, ghost ids: seq<Id>) returns (count: nat)
      requires Linked(live, rank) && Counted(live, handles, t) && IsChain(live, t, ts) && p in handles
      requires IsChain(live, Some(p), ids) && Totals(live, ids, 0)
      modifies `live
      ensures Valid() && |old(live)| == |live| + Unshared(old(live), ts) && count == Low8(Unshared(old(live), ts))
      ensures t.Some? ==> (|live| == |old(live)| <==> t.value in live)
      ensures Beside(old(live), live, [])
      ensures IsChain(live, Some(p), ids) && Totals(live, ids, 0) && Bytes(live, ids) == old(Bytes(live, ids))
    {
      hide Linked, Counted, Low8, Release, Preds, Unshared;
      if t.Some? {
        PendingIsLive(live, handles, t.value);
        ReleaseCount(live, t.value);
      }
      ReleaseFrame(live, t);
      ReleaseUnshared(live, handles, rank, t, ts);
      count := Drop(t);
      HandleIsLive(live, handles, rank, p);
      ChainSurvives(old(live), live, rank, Some(p), ids);
    }

    /** pbuf_cat: the caller's reference to the tail passes to the last pbuf of the head. */
    method Cat(h: Option<Id>, t: Option<Id>, ghost hs: seq<Id>, ghost ts: seq<Id>)
      requires Valid() && (t.Some? ==> t.value in handles)
      requires IsChain(live, h, hs) && IsChain(live, t, ts) && Totals(live, hs, 0) && Totals(live, ts, 0)
      requires forall x :: x in hs ==> x !in ts
      modifies this
      ensures Valid() && Relinked(old(live), live, hs)
      ensures h == None || t == None ==> live == old(live) && handles == old(handles)
      ensures h.Some? && t.Some? ==>
                && handles == old(handles) - multiset{t.value}
                && IsChain(live, h, hs + ts) && Bytes(live, hs + ts) == old(Bytes(live, hs) + Bytes(live, ts))
                && (Totals(live, hs + ts, 0) <==> |Bytes(live, hs + ts)| < TWO16)
    {
      hide Linked, Counted, Wrap16, Bumped, Joined, Relinked, IsPath, Bytes, Totals;
      if h == None || t == None {
        RelinkedSame(live, hs);
        return;
      }
      HandleIsLive(live, handles, rank, t.value);
      ChainHead(live, t, ts);
      var p;
      ghost var pre;
      p, pre := RaiseTotals(h.value, t.value, hs);
      JoinedIs(old(live), pre, p, t.value);
      live := live[p := live[p].(tot := Wrap16(live[p].tot + live[t.value].tot), next := t)];
      JoinedAll(old(live), rank, h, pre, p, t.value, ts);
      JoinedRelinks(old(live), pre, p, t.value);
      rank := JoinedKeepsInv(old(live), handles, rank, h, pre, p, t.value, ts);
      handles := handles - multiset{t.value};
    }

    /** pbuf_chain: pbuf_cat, and the caller keeps a reference to the tail. */
    method Chain(h: Option<Id>, t: Option<Id>, ghost hs: seq<Id>, ghost ts: seq<Id>)
      requires Valid() && h.Some? && t.Some? && t.value in handles
      requires IsChain(live, h, hs) && IsChain(live, t, ts) && Totals(live, hs, 0) && Totals(live, ts, 0)
      requires forall x :: x in hs ==> x !in ts
      modifies this
      ensures Valid() && handles == old(handles) && live.Keys == old(live).Keys
      ensures forall x :: x in live ==>
                && live[x].data == old(live)[x].data && live[x].ref == old(live)[x].ref + One(x == t.value)
                && (x !in hs ==> live[x] == old(live)[x].(ref := live[x].ref))
      ensures IsChain(live, h, hs + ts) && Bytes(live, hs + ts) == old(Bytes(live, hs) + Bytes(live, ts))
      ensures Totals(live, hs + ts, 0) <==> |Bytes(live, hs + ts)| < TWO16
    {
      hide Linked, Counted, IsPath, Bytes, Totals;
      HandleIsLive(live, handles, rank, t.value);
      Cat(h, t, hs, ts);
      ghost var live1 := live;
      Ref(t);
      SameButCounts(live1, live, h, hs + ts);
    }

    /** pbuf_dechain: the tail, or None when its deallocations, counted in 8 bits, are not zero. */
    method Dechain(p: Id, ghost ids: seq<Id>) returns (tail: Option<Id>, ghost freed: nat)
      requires Valid() && p in handles && IsChain(live, Some(p), ids) && Totals(live, ids, 0)
      modifies `live
      ensures Valid() && IsChain(live, Some(p), [p]) && Totals(live, [p], 0)
      ensures Bytes(live, [p]) == old(live[p].data)
      ensures freed == Unshared(old(live), ids[1..]) && |old(live)| == |live| + freed
      ensures tail == if Low8(freed) == 0 then old(live[p].next) else None
      ensures tail.Some? && tail.value !in live <==> freed > 0 && Low8(freed) == 0
      ensures Beside(old(live), live, [p])
      ensures freed == 0 ==> && tail == old(live[p].next) && IsChain(live, tail, ids[1..]) && Totals(live, ids[1..], 0)
                             && Bytes(live, ids[1..]) == old(Bytes(live, ids[1..]))
    {
      hide Linked, Counted, Low8, Shortened, Beside, Unshared, IsPath, Bytes, Totals;
      TailTotal(live, p, ids);
      Unlinked(live, handles, rank, p, ids);
      Low8Zero();
      var q := live[p].next;
      var tailGone := 1;
      freed := 0;
      if q != None {
        live := live[q.value := live[q.value].(tot := Wrap16(live[p].tot - |live[p].data|))];
        assert live == old(live);
        live := live[p := live[p].(next := None, tot := Wrap16(|live[p].data|))];
        ghost var unlinked := live;
        tailGone := DropTail(q, ids[1..], p, [p]);
        freed := Unshared(old(live), ids[1..]);
        UnlinkedBeside(old(live), unlinked, live, p);
        if freed == 0 {
          BesideSurvives(unlinked, live, rank, q, ids[1..]);
        }
      } else {
        ChainOfOne(live, p, ids);
        OnePbuf(live, p, 0);
        BesideSame(live, [p]);
        EmptyChain(live);
      }
      tail := if tailGone > 0 then None else q;
    }

    /** The loop of pbuf_realloc: pass the pbufs that stay whole and lower their totals. */
    method LowerTotals(p: Id, newLen: nat, ghost cut: nat, grow: int, ghost ids: seq<Id>)
      returns (q: Id, rem: nat, ghost pre: seq<Id>, ghost rest: seq<Id>)
      requires Linked(live, rank) && IsChain(live, Some(p), ids) && |Bytes(live, ids)| == newLen + cut
      requires cut > 0 && grow == -(cut as int)
      modifies `live
      ensures q in old(live) && q !in pre && ids == pre + rest && rem <= |old(live)[q].data|
      ensures IsPath(old(live), Some(p), pre, Some(q)) && IsChain(old(live), Some(q), rest)
      ensures live == Bumped(old(live), pre, -(cut as int)) && live.Keys == old(live).Keys && live[q] == old(live)[q]
      ensures |Bytes(old(live), rest)| == rem + cut && |Bytes(old(live), pre)| + rem == newLen && (pre != [] ==> rem > 0)
    {
      hide Linked, Bumped, Wrap16, IsPath, Bytes;
      q, rem := p, newLen;
      pre, rest := [], ids;
      PathStart(live, p, ids);
      BumpedNone(live, grow);
      while rem > |live[q].data|
        invariant IsPath(old(live), Some(p), pre, Some(q)) && IsChain(old(live), Some(q), rest) && ids == pre + rest
        invariant live == Bumped(old(live), pre, -(cut as int))
        invariant live.Keys == old(live).Keys && q !in pre && q in live && live[q] == old(live)[q]
        invariant |Bytes(old(live), rest)| == rem + cut && |Bytes(old(live), pre)| + rem == newLen && (pre != [] ==> rem > 0)
        decreases |rest|
      {
        MoreFollows(old(live), q, rest);
        StepPath(old(live), rank, Some(p), pre, q, rest);
        BumpedStep(old(live), pre, q, grow);
        BytesSnoc(old(live), pre, q);
        rem := rem - |live[q].data|;
        live := live[q := live[q].(tot := Wrap16(live[q].tot + grow))];
        pre, rest := pre + [q], rest[1..];
        q := live[q].next.value;
        BumpedStep(old(live), pre, q, grow);
      }
    }

    /** pbuf_realloc: what is left of the chain carries the first `newLen` bytes. */
    method Realloc(p: Id, newLen: nat, ghost ids: seq<Id>) returns (ghost kept: seq<Id>)
      requires Valid() && p in handles && IsChain(live, Some(p), ids) && Totals(live, ids, 0)
      modifies `live
      ensures Valid() && IsChain(live, Some(p), kept) && Totals(live, kept, 0)
      ensures kept <= ids && Beside(old(live), live, kept)
      ensures newLen >= |old(Bytes(live, ids))| ==> live == old(live) && kept == ids
      ensures newLen < |old(Bytes(live, ids))| ==>
                && Bytes(live, kept) <= old(Bytes(live, ids)) && |Bytes(live, kept)| == newLen && kept != []
                && (|kept| > 1 ==> |old(Bytes(live, ids[..|kept| - 1]))| < newLen)
    {
      hide Linked, Counted, Wrap16, Bumped, Beside, Unshared, IsPath, Bytes, Totals;
      TailTotal(live, p, ids);
      if newLen >= live[p].tot {
        BesideSame(live, ids);
        return ids;
      }
      ghost var cut := live[p].tot - newLen;
      ghost var pre, rest;
      var q, rem;
      q, rem, pre, rest := LowerTotals(p, newLen, cut, newLen - live[p].tot, ids);
      var tail := live[q].next;
      live := live[q := live[q].(data := live[q].data[..rem], tot := Wrap16(rem), next := None)];
      assert live == Shortened(old(live), pre, q, rem, cut);
      ShortenedAll(old(live), handles, rank, Some(p), pre, q, rest, rem, cut);
      ShortenedTail(old(live), rank, Some(p), pre, q, rest, rem, cut);
      ChainHead(old(live), Some(q), rest);
      kept := pre + [q];
      assert ids[..|kept| - 1] == pre;
      var _ := DropTail(tail, rest[1..], p, kept);
      ShortenedBeside(old(live), live, pre, q, rem, cut);
    }

    /** pbuf_alloc for PBUF_RAM, PBUF_ROM and PBUF_REF: one pbuf, if there is memory for it. */
    method Alloc(length: u16, memory: Option<Id>) returns (p: Option<Id>)
      requires Valid() && (memory.Some? ==> memory.value !in live)
      modifies this
      ensures Valid() && p == memory
      ensures p == None ==> live == old(live) && handles == old(handles)
      ensures p.Some? ==> && handles == old(handles) + multiset{p.value} && p.value in live && live - {p.value} == old(live)
                          && IsChain(live, p, [p.value]) && Totals(live, [p.value], 0)
                          && |Bytes(live, [p.value])| == length
    {
      hide Linked, Counted;
      p := memory;
      if p != None {
        var b := Pbuf(None, 1, Unset(length), length);
        AllocKeepsInv(live, handles, rank, p.value, b);
        assert live[p.value := b] - {p.value} == live;
        live, handles, rank := live[p.value := b], handles + multiset{p.value}, rank[p.value := 0];
        OnePbuf(live, p.value, 0);
      }
    }

    /** pbuf_alloc for PBUF_POOL: `memory` is what the pool hands out, in order, until it is empty.  The first pbuf
        has room for `first` bytes, the others for `size`. */
    method AllocPool(length: u16, first: nat, size: nat, memory: seq<Id>) returns (p: Option<Id>, ghost ids: seq<Id>)
      requires Valid() && first > 0 && size > 0 && Distinct(memory) && (forall x :: x in memory ==> x !in live)
      modifies this
      ensures Valid()
      ensures p.Some? <==> |memory| >= 1 + PbufsFor(length - Min(length, first), size)
      ensures p == None ==> live == old(live) && handles == old(handles)
      ensures p.Some? ==> && handles == old(handles) + multiset{p.value} && IsChain(live, p, ids) && ids <= memory
                          && live - Elements(ids) == old(live)
                          && Totals(live, ids, 0) && |Bytes(live, ids)| == length
    {
      hide Linked, Counted, Growing, Extended, Release, Bytes;
      if memory == [] {
        return None, [];
      }
      p := Some(memory[0]);
      var len := Min(length, first);
      var b := Pbuf(None, 1, Unset(len), length);
      AllocKeepsInv(live, handles, rank, p.value, b);
      GrowFirst(live, p.value, length - len, memory, b);
      live, handles, rank := live[p.value := b], handles + multiset{p.value}, rank[p.value := 0];
      var r, rem, k := p.value, length - len, 1;
      ghost var pre := [];
      while rem > 0
        invariant 1 <= k <= |memory| && 0 <= rem < TWO16
        invariant Inv(live, handles, rank) && handles == old(handles) + multiset{p.value}
        invariant Growing(old(live), live, p.value, pre, r, rem, memory, k)
        invariant |Bytes(live, memory[..k])| + rem == length
        invariant PbufsFor(length - len, size) == k - 1 + PbufsFor(rem, size)
      {
        if k == |memory| {
          GrownChain(old(live), live, p.value, pre, r, rem, memory, k);
          var _ := Free(p);
          return None, [];
        }
        NextIsNew(old(live), live, p.value, pre, r, rem, memory, k);
        b := Pbuf(None, 1, Unset(Min(rem, size)), rem);
        GrowStep(old(live), live, p.value, pre, r, rem, memory, k, b);
        ghost var was := live;
        rank := ExtendedKeepsInv(live, handles, rank, r, memory[k], b);
        live := live[memory[k] := b][r := live[r].(next := Some(memory[k]))];
        assert live == Extended(was, r, memory[k], b) by { ExtendedIs(was, r, memory[k], b); }
        rem := rem - |b.data|;
        pre, r, k := pre + [r], memory[k], k + 1;
      }
      ids := memory[..k];
      GrownChain(old(live), live, p.value, pre, r, rem, memory, k);
      assert live - Elements(ids) == old(live) by { GrownBeside(old(live), live, p.value, pre, r, rem, memory, k); }
    }
  }

  // ----- A tail whose deallocations pbuf_dechain counts as none -----

  function From(x: Id, n: nat): (ids: seq<Id>)
    ensures forall y :: y in ids <==> x <= y <= n
    decreases n + 1 - x
  {
    if x > n then [] else [x] + From(x + 1, n)
  }

  /** A chain of `n + 1` empty pbufs with one reference each. */
  function Row(n: nat): Live {
    map x | x in From(0, n) :: Pbuf(if x < n then Some(x + 1) else None, 1, [], 0)
  }

  ghost function RowRank(n: nat): map<Id, nat> { map x | x in From(0, n) :: n - x }

  lemma RowAt(n: nat, x: Id)
    ensures x in Row(n) <==> x <= n
    ensures x in RowRank(n) <==> x <= n
    ensures x <= n ==> Row(n)[x] == Pbuf(if x < n then Some(x + 1) else None, 1, [], 0) && RowRank(n)[x] == n - x
  {
    hide From;
  }

  lemma RowPreds(n: nat, x: Id)
    requires x <= n
    ensures Preds(Row(n), x) == if x == 0 then {} else {x - 1}
  {
    hide Row, RowRank, From;
    forall y: Id ensures y in Row(n) && Row(n)[y].next == Some(x) <==> x > 0 && y == x - 1 {
      RowAt(n, y);
    }
  }

  lemma RowInv(n: nat)
    ensures Inv(Row(n), multiset{0}, RowRank(n))
  {
    hide Row, RowRank, From, Preds;
    forall x | x in Row(n)
      ensures x in RowRank(n) && Row(n)[x].ref == multiset{0}[x] + |Preds(Row(n), x)| && Row(n)[x].ref == 1
      ensures Row(n)[x].next.Some? ==>
                var y := Row(n)[x].next.value; y in Row(n) && y in RowRank(n) && RowRank(n)[y] < RowRank(n)[x]
    {
      RowAt(n, x);
      RowAt(n, x + 1);
      RowPreds(n, x);
    }
    RowAt(n, 0);
  }

  lemma {:induction false} RowChain(x: Id, n: nat)
    requires x <= n + 1
    ensures var p := if x <= n then Some(x) else None;
            && IsChain(Row(n), p, From(x, n)) && Totals(Row(n), From(x, n), 0) && Bytes(Row(n), From(x, n)) == []
            && Unshared(Row(n), From(x, n)) == n + 1 - x
    decreases n + 1 - x
  {
    hide Row;
    RowAt(n, x);
    if x <= n {
      RowChain(x + 1, n);
      assert From(x, n)[1..] == From(x + 1, n);
    }
  }

  /** With a multiple of 256 unshared pbufs behind the first, pbuf_dechain returns a tail that it deallocated. */
  method DeadTail(n: nat) returns (pool: Pool, tail: Option<Id>)
    requires n > 0 && n % 256 == 0
    ensures fresh(pool) && pool.Valid() && tail.Some? && tail.value !in pool.live
  {
    hide Linked, Counted, IsPath, Bytes, Totals, Unshared, Row, RowRank;
    pool := new Pool();
    pool.live, pool.handles, pool.rank := Row(n), multiset{0}, RowRank(n);
    RowInv(n);
    RowChain(0, n);
    RowChain(1, n);
    assert From(0, n)[1..] == From(1, n);
    ghost var freed;
    tail, freed := pool.Dechain(0, From(0, n));
  }
}
