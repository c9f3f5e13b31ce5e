/** The operations of pbuf.c that overwrite the bytes of a chain in place. */
module PbufWrites {
  import opened Common
  import opened Words
  import opened PbufGraph
  import opened PbufPaths
  import opened PbufPool
  import opened PbufBytes
  import opened CopyOutcome

  /** `s` written over `all` at offset `o`. */
  function Put(all: seq<byte>, o: nat, s: seq<byte>): seq<byte>
    requires o + |s| <= |all|
  {
    all[..o] + s + all[o + |s|..]
  }

  lemma PutMore(all: seq<byte>, o: nat, a: seq<byte>, b: seq<byte>)
    requires o + |a| + |b| <= |all|
    ensures |Put(all, o, a)| == |all| && Put(Put(all, o, a), o + |a|, b) == Put(all, o, a + b)
  {
  }

  lemma PutIs(all: seq<byte>, o: nat, s: seq<byte>)
    requires o + |s| <= |all|
    ensures Put(all, o, s) == all[..o] + s + all[o + |s|..]
  {
  }

  lemma PutAtFront(all: seq<byte>, s: seq<byte>)
    requires |s| <= |all|
    ensures Put(all, 0, s) == s + all[|s|..]
  {
  }

  lemma PutNone(all: seq<byte>, o: nat)
    requires o <= |all|
    ensures Put(all, o, []) == all
  {
  }

  /** Only payload bytes of `ids` differ, and not in number. */
  ghost predicate Rewritten(live: Live, live': Live, ids: seq<Id>) {
    && live'.Keys == live.Keys
    && (forall x :: x in live && x !in ids ==> live'[x] == live[x])
    && (forall x :: x in live ==> live'[x] == live[x].(data := live'[x].data) && |live'[x].data| == |live[x].data|)
  }

  lemma {:induction false} RewrittenTotals(live: Live, live': Live, p: Option<Id>, ids: seq<Id>, all: seq<Id>)
    requires IsChain(live, p, ids) && Totals(live, ids, 0) && Rewritten(live, live', all)
    ensures |Bytes(live', ids)| == |Bytes(live, ids)| && Totals(live', ids, 0)
    decreases |ids|
  {
    if ids != [] {
      RewrittenTotals(live, live', live[ids[0]].next, ids[1..], all);
    }
  }

  lemma RewrittenKeeps(live: Live, live': Live, handles: multiset<Id>, rank: map<Id, nat>, p: Option<Id>, ids: seq<Id>,
                       all: seq<Id>)
    requires Inv(live, handles, rank) && IsChain(live, p, ids) && Totals(live, ids, 0) && Rewritten(live, live', all)
    ensures Inv(live', handles, rank) && IsChain(live', p, ids) && Totals(live', ids, 0)
  {
    hide Linked, Counted;
    SameShape(live, live', handles, rank);
    PathStays(live, live', p, ids, None);
    RewrittenTotals(live, live', p, ids, all);
  }

  lemma RewrittenTwice(live: Live, live1: Live, live2: Live, a: seq<Id>, b: seq<Id>, ids: seq<Id>)
    requires Rewritten(live, live1, a) && Rewritten(live1, live2, b)
    requires forall x :: x in a || x in b ==> x in ids
    ensures Rewritten(live, live2, ids)
  {
  }

  /** Replacing the payload of the first pbuf of `rest`. */
  lemma ReplaceData(live: Live, rank: map<Id, nat>, h: Option<Id>, pre: seq<Id>, x: Id, rest: seq<Id>, d: seq<byte>)
    requires Linked(live, rank) && IsPath(live, h, pre, Some(x)) && IsChain(live, Some(x), rest)
    requires x in live && |d| == |live[x].data|
    ensures var live' := live[x := live[x].(data := d)];
            && Rewritten(live, live', [x]) && IsPath(live', h, pre, Some(x)) && IsChain(live', Some(x), rest)
            && Bytes(live', pre) == Bytes(live, pre) && Bytes(live', rest[1..]) == Bytes(live, rest[1..])
            && Bytes(live', rest) == d + Bytes(live, rest[1..])
  {
    var live' := live[x := live[x].(data := d)];
    PathFalls(live, rank, h, pre, Some(x));
    PathFalls(live, rank, live[x].next, rest[1..], None);
    PathStays(live, live', h, pre, Some(x));
    PathStays(live, live', Some(x), rest, None);
    BytesStay(live, live', h, pre, Some(x));
    BytesStay(live, live', live[x].next, rest[1..], None);
  }

  lemma PutInside(a: seq<byte>, d: seq<byte>, b: seq<byte>, t: nat, s: seq<byte>)
    requires t + |s| <= |d|
    ensures a + Put(d, t, s) + b == Put(a + d + b, |a| + t, s)
  {
  }

  /** Writing `s` at offset `t` of the first pbuf of `rest` writes it at the corresponding offset of the whole chain. */
  lemma WriteInto(live: Live, rank: map<Id, nat>, h: Option<Id>, pre: seq<Id>, x: Id, rest: seq<Id>, t: nat, s: seq<byte>)
    requires Linked(live, rank) && IsPath(live, h, pre, Some(x)) && IsChain(live, Some(x), rest)
    requires x in live && t + |s| <= |live[x].data|
    ensures var live' := live[x := live[x].(data := Put(live[x].data, t, s))];
            && Rewritten(live, live', [x]) && IsPath(live', h, pre, Some(x)) && IsChain(live', Some(x), rest)
            && Bytes(live', pre) == Bytes(live, pre)
            && |Bytes(live, pre)| + t + |s| <= |Bytes(live, pre + rest)|
            && Bytes(live', pre + rest) == Put(Bytes(live, pre + rest), |Bytes(live, pre)| + t, s)
  {
    hide IsPath, Linked, Put, Rewritten;
    PutSize(live[x].data, t, s);
    var d := Put(live[x].data, t, s);
    var live' := live[x := live[x].(data := d)];
    ReplaceData(live, rank, h, pre, x, rest, d);
    ChainStep(live, Some(x), rest);
    BytesAppend(live, pre, rest);
    BytesAppend(live', pre, rest);
    PutInside(Bytes(live, pre), live[x].data, Bytes(live, rest[1..]), t, s);
    assert Bytes(live, pre) + live[x].data + Bytes(live, rest[1..]) == Bytes(live, pre + rest);
    assert Bytes(live, pre) + d + Bytes(live, rest[1..]) == Bytes(live', pre + rest);
  }

  lemma PutSize(all: seq<byte>, o: nat, s: seq<byte>)
    requires o + |s| <= |all|
    ensures |Put(all, o, s)| == |all|
  {
  }

  // ----- pbuf_take -----

  /** `done` has been written over the front of the chain `ids`, up to the pbuf at the front of `rest`. */
  ghost predicate Taking(was: Live, live: Live, h: Option<Id>, pre: seq<Id>, p: Option<Id>, rest: seq<Id>, ids: seq<Id>,
                         done: seq<byte>) {
    && ids == pre + rest && IsPath(live, h, pre, p) && IsChain(live, p, rest) && Rewritten(was, live, ids)
    && |done| <= |Bytes(was, ids)| && Bytes(live, ids) == Put(Bytes(was, ids), 0, done)
  }

  lemma TakeWrite(was: Live, live: Live, rank: map<Id, nat>, h: Option<Id>, pre: seq<Id>, x: Id, rest: seq<Id>,
                  ids: seq<Id>, done: seq<byte>, t: nat, s: seq<byte>)
    requires Linked(live, rank) && Taking(was, live, h, pre, Some(x), rest, ids, done)
    requires x in live && |Bytes(live, pre)| + t == |done| && t + |s| <= |live[x].data|
    ensures var live' := live[x := live[x].(data := Put(live[x].data, t, s))];
            Taking(was, live', h, pre, Some(x), rest, ids, done + s) && Bytes(live', pre) == Bytes(live, pre)
  {
    hide Linked, Put;
    var live' := live[x := live[x].(data := Put(live[x].data, t, s))];
    WriteInto(live, rank, h, pre, x, rest, t, s);
    PutSize(Bytes(was, ids), 0, done);
    PutMore(Bytes(was, ids), 0, done, s);
    ChainStep(live, Some(x), rest);
    assert x in rest && x in ids;
    RewrittenTwice(was, live, live', ids, [x], ids);
  }

  lemma TakeAdvance(was: Live, live: Live, h: Option<Id>, pre: seq<Id>, x: Id, rest: seq<Id>, ids: seq<Id>,
                    done: seq<byte>)
    requires Taking(was, live, h, pre, Some(x), rest, ids, done)
    ensures x in live && rest != [] && Taking(was, live, h, pre + [x], live[x].next, rest[1..], ids, done)
    ensures |Bytes(live, pre + [x])| == |Bytes(live, pre)| + |live[x].data|
  {
    Advance(live, h, pre, x, rest);
  }

  lemma TakeStart(live: Live, h: Option<Id>, ids: seq<Id>)
    requires IsChain(live, h, ids)
    ensures Taking(live, live, h, [], h, ids, ids, []) && Bytes(live, []) == []
  {
    assert [] + ids == ids;
    PutNone(Bytes(live, ids), 0);
  }

  /** While bytes are left to write there is a pbuf to write them to. */
  lemma TakeNext(was: Live, live: Live, h: Option<Id>, pre: seq<Id>, p: Option<Id>, rest: seq<Id>, ids: seq<Id>,
                 done: seq<byte>)
    requires Taking(was, live, h, pre, p, rest, ids, done) && |Bytes(live, pre)| == |done| < |Bytes(was, ids)|
    ensures p.Some? && p.value in live && rest != []
  {
    BytesAppend(live, pre, rest);
    PutSize(Bytes(was, ids), 0, done);
    ChainStep(live, p, rest);
  }

  lemma TakeEnd(was: Live, live: Live, h: Option<Id>, pre: seq<Id>, p: Option<Id>, rest: seq<Id>, ids: seq<Id>,
                done: seq<byte>)
    requires Taking(was, live, h, pre, p, rest, ids, done)
    ensures Rewritten(was, live, ids)
    ensures |done| <= |Bytes(was, ids)| && Bytes(live, ids) == Put(Bytes(was, ids), 0, done)
  {
  }

  lemma RewrittenLinked(was: Live, live: Live, rank: map<Id, nat>, ids: seq<Id>)
    requires Linked(was, rank) && Rewritten(was, live, ids)
    ensures Linked(live, rank)
  {
  }

  /** One round of the loop of pbuf_take at the pbuf `p`. */
  lemma TakeRound(was: Live, live: Live, rank: map<Id, nat>, h: Option<Id>, pre: seq<Id>, p: Option<Id>, rest: seq<Id>,
                  ids: seq<Id>, src: seq<byte>, done: nat)
    requires Linked(was, rank) && done < |src| <= |Bytes(was, ids)|
    requires Taking(was, live, h, pre, p, rest, ids, src[..done]) && |Bytes(live, pre)| == done
    ensures p.Some? && p.value in live && rest != []
    ensures var b := live[p.value];
            var n := Min(|src| - done, |b.data|);
            var live' := live[p.value := b.(data := Put(b.data, 0, src[done..done + n]))];
            && Taking(was, live', h, pre + [p.value], b.next, rest[1..], ids, src[..done + n])
            && (done + n < |src| ==> |Bytes(live', pre + [p.value])| == done + n)
  {
    hide Linked, IsPath, Bytes, Put, Taking, Rewritten;
    TakeNext(was, live, h, pre, p, rest, ids, src[..done]);
    TakeEnd(was, live, h, pre, p, rest, ids, src[..done]);
    RewrittenLinked(was, live, rank, ids);
    var b := live[p.value];
    var n := Min(|src| - done, |b.data|);
    var part := src[done..done + n];
    TakeWrite(was, live, rank, h, pre, p.value, rest, ids, src[..done], 0, part);
    assert src[..done] + part == src[..done + n];
    PutSize(b.data, 0, part);
    TakeAdvance(was, live[p.value := b.(data := Put(b.data, 0, part))], h, pre, p.value, rest, ids, src[..done + n]);
  }

  /** pbuf_take */
  method Take(pool: Pool, buf: Option<Id>, src: seq<byte>, ghost ids: seq<Id>) returns (e: Err)
    requires pool.Valid() && IsChain(pool.live, buf, ids) && Totals(pool.live, ids, 0)
    modifies pool`live
    ensures pool.Valid() && IsChain(pool.live, buf, ids) && Totals(pool.live, ids, 0)
    ensures e == if buf == None then ErrArg else if |src| > |old(Bytes(pool.live, ids))| then ErrMem else Ok
    ensures Rewritten(old(pool.live), pool.live, ids)
    ensures e == Ok ==> Bytes(pool.live, ids) == Put(old(Bytes(pool.live, ids)), 0, src)
    ensures e == Ok ==> Bytes(pool.live, ids) == src + old(Bytes(pool.live, ids))[|src|..]
    ensures e != Ok ==> pool.live == old(pool.live)
  {
    hide Linked, Counted, IsPath, Bytes, Put, Taking, Rewritten, Totals;
    TakeStart(pool.live, buf, ids);
    TakeEnd(pool.live, pool.live, buf, [], buf, ids, ids, []);
    if buf == None {
      return ErrArg;
    }
    TailTotal(pool.live, buf.value, ids);
    if pool.live[buf.value].tot < |src| {
      return ErrMem;
    }
    var p: Option<Id>, done: nat, more: nat := buf, 0, |src|;
    ghost var was, pre, rest := pool.live, [], ids;
    assert src[..0] == [];
    while more != 0
      invariant done + more == |src|
      invariant Taking(was, pool.live, buf, pre, p, rest, ids, src[..done])
      invariant more > 0 ==> |Bytes(pool.live, pre)| == done
      decreases |rest|
    {
      TakeRound(was, pool.live, pool.rank, buf, pre, p, rest, ids, src, done);
      var b := pool.live[p.value];
      var n := Min(more, |b.data|);
      pool.live := pool.live[p.value := b.(data := Put(b.data, 0, src[done..done + n]))];
      pre, rest := pre + [p.value], rest[1..];
      more, done := more - n, done + n;
      p := b.next;
    }
    assert src[..done] == src;
    TakeEnd(was, pool.live, buf, pre, p, rest, ids, src);
    PutAtFront(Bytes(was, ids), src);
    RewrittenKeeps(was, pool.live, pool.handles, pool.rank, buf, ids, ids);
    return Ok;
  }

  // ----- pbuf_take_at -----

  /** A chain whose tail was rewritten. */
  lemma TailRewritten(live: Live, live': Live, rank: map<Id, nat>, h: Option<Id>, pre: seq<Id>, q: Id, rest: seq<Id>)
    requires Linked(live, rank) && IsPath(live, h, pre, Some(q)) && IsChain(live, Some(q), rest)
    requires Rewritten(live, live', rest[1..])
    ensures Bytes(live', pre + rest) == Bytes(live, pre) + live[q].data + Bytes(live', rest[1..])
    ensures Bytes(live, pre + rest) == Bytes(live, pre) + live[q].data + Bytes(live, rest[1..])
  {
    Advance(live, h, pre, q, rest);
    var front := pre + [q];
    assert forall x :: x in front ==> x !in rest[1..] by {
      PathFalls(live, rank, h, front, live[q].next);
      PathFalls(live, rank, live[q].next, rest[1..], None);
    }
    BytesStay(live, live', h, front, live[q].next);
    BytesAppend(live', front, rest[1..]);
    BytesAppend(live, front, rest[1..]);
  }

  lemma PutSplit(a: seq<byte>, b: seq<byte>, o: nat, s: seq<byte>, n: nat)
    requires o + n == |a| && n <= |s| && |s| - n <= |b|
    ensures o + |s| <= |a + b|
    ensures Put(a, o, s[..n]) + Put(b, 0, s[n..]) == Put(a + b, o, s)
  {
  }

  lemma RewrittenBy(live: Live, rank: map<Id, nat>, h: Option<Id>, pre: seq<Id>, q: Id, rest: seq<Id>, t: nat, s: seq<byte>)
    requires Linked(live, rank) && IsPath(live, h, pre, Some(q)) && IsChain(live, Some(q), rest)
    requires q in live && t + |s| <= |live[q].data|
    ensures q in pre + rest && (forall x :: x in rest[1..] ==> x in pre + rest)
    ensures Rewritten(live, live[q := live[q].(data := Put(live[q].data, t, s))], pre + rest)
  {
    hide Linked, Put, IsPath;
    ChainStep(live, Some(q), rest);
    assert q in rest;
    PutSize(live[q].data, t, s);
  }

  /** What the chain after the first pbuf of `rest` is entitled to. */
  lemma TailReady(live: Live, h: Option<Id>, pre: seq<Id>, q: Id, rest: seq<Id>)
    requires IsPath(live, h, pre, Some(q)) && IsChain(live, Some(q), rest) && Totals(live, pre + rest, 0)
    ensures q in live && rest != [] && IsChain(live, live[q].next, rest[1..]) && Totals(live, rest[1..], 0)
    ensures live[q].tot == |Bytes(live, rest)| == |live[q].data| + |Bytes(live, rest[1..])|
    ensures Bytes(live, pre + rest) == Bytes(live, pre) + Bytes(live, rest)
    ensures Bytes(live, rest[1..]) != [] ==> live[q].next.Some?
  {
    TotalsAppend(live, pre, rest, 0);
    BytesAppend(live, pre, rest);
    ChainStep(live, live[q].next, rest[1..]);
  }

  /** The flat effect of a write that runs over from the pbuf `q` into the pbufs after it. */
  lemma TakeAtBytes(live: Live, live1: Live, live2: Live, rank: map<Id, nat>, h: Option<Id>, pre: seq<Id>, q: Id,
                    rest: seq<Id>, t: nat, src: seq<byte>, n: nat)
    requires Linked(live, rank) && IsPath(live, h, pre, Some(q)) && IsChain(live, Some(q), rest) && q in live
    requires t + n == |live[q].data| && n <= |src| && |src| - n <= |Bytes(live, rest[1..])|
    requires live1 == live[q := live[q].(data := Put(live[q].data, t, src[..n]))]
    requires Rewritten(live1, live2, rest[1..]) && Bytes(live2, rest[1..]) == Put(Bytes(live, rest[1..]), 0, src[n..])
    ensures |Bytes(live, pre)| + t + |src| <= |Bytes(live, pre + rest)|
    ensures Bytes(live2, pre + rest) == Put(Bytes(live, pre + rest), |Bytes(live, pre)| + t, src)
  {
    hide Linked, IsPath, Put, Rewritten;
    WriteInto(live, rank, h, pre, q, rest, t, src[..n]);
    RewrittenLinked(live, live1, rank, [q]);
    TailRewritten(live1, live2, rank, h, pre, q, rest);
    BytesAppend(live, pre, rest);
    ChainStep(live, Some(q), rest);
    var a, d, b := Bytes(live, pre), live[q].data, Bytes(live, rest[1..]);
    assert a + d + b == Bytes(live, pre + rest);
    PutInside(a, d, [], t, src[..n]);
    assert a + d + [] == a + d && a + Put(d, t, src[..n]) + [] == a + Put(d, t, src[..n]);
    PutSplit(a + d, b, |a| + t, src, n);
  }

  /** pbuf_take_at.  A write of nothing at the very end of the chain is refused too. */
  method TakeAt(pool: Pool, buf: Option<Id>, src: seq<byte>, offset: nat, ghost ids: seq<Id>) returns (e: Err)
    requires pool.Valid() && IsChain(pool.live, buf, ids) && Totals(pool.live, ids, 0)
    modifies pool`live
    ensures pool.Valid() && IsChain(pool.live, buf, ids) && Totals(pool.live, ids, 0)
    ensures e == if offset < |old(Bytes(pool.live, ids))| && offset + |src| <= |old(Bytes(pool.live, ids))| then Ok
                 else ErrMem
    ensures Rewritten(old(pool.live), pool.live, ids)
    ensures e == Ok ==> Bytes(pool.live, ids) == Put(old(Bytes(pool.live, ids)), offset, src)
    ensures e == Ok ==> var all := old(Bytes(pool.live, ids));
                        Bytes(pool.live, ids) == all[..offset] + src + all[offset + |src|..]
    ensures e != Ok ==> pool.live == old(pool.live)
  {
    hide Linked, Counted, IsPath, Bytes, Put, Taking, Totals;
    var q, t;
    ghost var pre, rest;
    ghost var was := pool.live;
    q, t, pre, rest := Skip(pool.live, buf, offset, ids);
    if q != None {
      TailReady(was, buf, pre, q.value, rest);
      var b := pool.live[q.value];
      if b.tot >= t + |src| {
        var n := Min(|b.data| - t, |src|);
        RewrittenBy(was, pool.rank, buf, pre, q.value, rest, t, src[..n]);
        WriteInto(was, pool.rank, buf, pre, q.value, rest, t, src[..n]);
        PutSize(b.data, t, src[..n]);
        pool.live := pool.live[q.value := b.(data := Put(b.data, t, src[..n]))];
        RewrittenKeeps(was, pool.live, pool.handles, pool.rank, buf, ids, ids);
        if |src| - n > 0 {
          ghost var live1 := pool.live;
          TailReady(live1, buf, pre, q.value, rest);
          e := Take(pool, b.next, src[n..], rest[1..]);
          TakeAtTail(was, live1, pool.rank, buf, pre, q.value, rest, t, src[..n]);
          TakeAtBytes(was, live1, pool.live, pool.rank, buf, pre, q.value, rest, t, src, n);
          PutIs(Bytes(was, ids), offset, src);
          RewrittenTwice(was, live1, pool.live, ids, rest[1..], ids);
          RewrittenKeeps(was, pool.live, pool.handles, pool.rank, buf, ids, ids);
          return e;
        }
        assert src[..n] == src;
        PutIs(Bytes(was, ids), offset, src);
        return Ok;
      }
    }
    return ErrMem;
  }

  lemma TakeAtTail(live: Live, live1: Live, rank: map<Id, nat>, h: Option<Id>, pre: seq<Id>, q: Id, rest: seq<Id>, t: nat,
                   s: seq<byte>)
    requires Linked(live, rank) && IsPath(live, h, pre, Some(q)) && IsChain(live, Some(q), rest)
    requires q in live && t + |s| <= |live[q].data| && live1 == live[q := live[q].(data := Put(live[q].data, t, s))]
    ensures Bytes(live1, rest[1..]) == Bytes(live, rest[1..])
  {
    PutSize(live[q].data, t, s);
    ReplaceData(live, rank, h, pre, q, rest, Put(live[q].data, t, s));
  }

  // ----- pbuf_copy -----

  /** A place in a chain: the pbufs `pre` lie before it, `rest` starts with the pbuf `at`, of which `off` bytes lie
      before it. */
  datatype Cursor = Cursor(head: Option<Id>, pre: seq<Id>, at: Option<Id>, rest: seq<Id>, off: nat)

  ghost function Start(h: Option<Id>, ids: seq<Id>): Cursor { Cursor(h, [], h, ids, 0) }

  /** The cursor `c` stands in the chain `ids` after `n` of its bytes. */
  ghost predicate Reading(live: Live, c: Cursor, ids: seq<Id>, n: nat) {
    && ids == c.pre + c.rest && IsPath(live, c.head, c.pre, c.at) && IsChain(live, c.at, c.rest)
    && |Bytes(live, c.pre)| + c.off == n
    && (c.at == None ==> c.off == 0) && (c.at.Some? ==> c.at.value in live && c.off <= |live[c.at.value].data|)
  }

  /** `m` bytes further in the same pbuf. */
  ghost function Further(c: Cursor, m: nat): Cursor { c.(off := c.off + m) }

  /** At the start of the next pbuf. */
  ghost function Beyond(live: Live, c: Cursor): Cursor
    requires c.at.Some? && c.at.value in live && c.rest != []
  {
    Cursor(c.head, c.pre + [c.at.value], live[c.at.value].next, c.rest[1..], 0)
  }

  lemma ReadPart(live: Live, c: Cursor, ids: seq<Id>, n: nat, m: nat)
    requires Reading(live, c, ids, n) && c.at.Some? && c.off + m <= |live[c.at.value].data|
    ensures n + m <= |Bytes(live, ids)| && Reading(live, Further(c, m), ids, n + m)
    ensures Bytes(live, ids)[..n] + live[c.at.value].data[c.off..c.off + m] == Bytes(live, ids)[..n + m]
  {
    ChainStep(live, c.at, c.rest);
    BytesAppend(live, c.pre, c.rest);
    var a, d, b := Bytes(live, c.pre), live[c.at.value].data, Bytes(live, c.rest[1..]);
    assert Bytes(live, ids) == a + (d + b);
    hide Bytes, IsChain, IsPath;
    assert (a + (d + b))[..n + m] == a + d[..c.off + m];
  }

  lemma ReadBeyond(live: Live, c: Cursor, ids: seq<Id>, n: nat)
    requires Reading(live, c, ids, n) && c.at.Some? && c.off == |live[c.at.value].data|
    ensures c.rest != [] && Reading(live, Beyond(live, c), ids, n)
  {
    Advance(live, c.head, c.pre, c.at.value, c.rest);
    ChainStep(live, live[c.at.value].next, c.rest[1..]);
  }

  lemma ReadStart(live: Live, h: Option<Id>, ids: seq<Id>)
    requires IsChain(live, h, ids)
    ensures Reading(live, Start(h, ids), ids, 0)
  {
    assert [] + ids == ids;
    ChainStep(live, h, ids);
  }

  lemma ReadEnd(live: Live, c: Cursor, ids: seq<Id>, n: nat)
    requires Reading(live, c, ids, n) && c.at == None
    ensures n == |Bytes(live, ids)|
  {
    ChainStep(live, None, c.rest);
    assert c.pre + [] == c.pre;
  }

  /** The pbuf that is being read belongs to the chain, so writing to another chain does not touch it. */
  lemma ReadFacts(was: Live, live: Live, c: Cursor, ids: seq<Id>, n: nat, tids: seq<Id>)
    requires Reading(was, c, ids, n) && Rewritten(was, live, tids) && (forall x :: x in ids ==> x !in tids)
    ensures c.at.Some? ==>
              var f := c.at.value;
              && f in was && f in live && live[f] == was[f] && c.off <= |was[f].data|
              && |c.pre| < |ids| && ids[|c.pre|] == f && (c.off < |was[f].data| ==> n < |Bytes(was, ids)|)
  {
    ChainStep(was, c.at, c.rest);
    BytesAppend(was, c.pre, c.rest);
    if c.at.Some? {
      assert ids[|c.pre|] == c.at.value && c.at.value in ids;
    }
  }

  /** `f` alone holds all the bytes from there on although it is not the last pbuf: pbuf_copy takes what follows for
      another packet. */
  ghost predicate LooksLikeQueue(live: Live, f: Id) {
    f in live && |live[f].data| == live[f].tot && live[f].next.Some?
  }

  /** The lengths of the pbufs `ids`. */
  ghost function Lengths(live: Live, ids: seq<Id>): seq<nat> {
    if ids == [] then [] else [|Data(live, ids[0])|] + Lengths(live, ids[1..])
  }

  lemma {:induction false} LengthsTotal(live: Live, ids: seq<Id>)
    ensures |Lengths(live, ids)| == |ids| && Total(Lengths(live, ids)) == |Bytes(live, ids)|
  {
    if ids != [] {
      assert Lengths(live, ids)[1..] == Lengths(live, ids[1..]);
      LengthsTotal(live, ids[1..]);
    }
  }

  lemma {:induction false} LengthsStay(was: Live, live: Live, all: seq<Id>, ids: seq<Id>)
    requires Rewritten(was, live, all)
    ensures Lengths(live, ids) == Lengths(was, ids)
  {
    if ids != [] {
      LengthsStay(was, live, all, ids[1..]);
    }
  }

  lemma LengthsStep(live: Live, p: Option<Id>, ids: seq<Id>)
    requires IsChain(live, p, ids)
    ensures p == None <==> Lengths(live, ids) == []
    ensures p.Some? ==> p.value in live && ids != [] && Lengths(live, ids)[0] == |live[p.value].data|
    ensures p.Some? ==> Lengths(live, ids)[1..] == Lengths(live, ids[1..])
  {
    ChainStep(live, p, ids);
  }

  /** The test of pbuf_copy on the current pbuf, in terms of lengths. */
  lemma QueueMeans(live: Live, c: Cursor, ids: seq<Id>, n: nat)
    requires Reading(live, c, ids, n) && Totals(live, ids, 0)
    ensures c.at == None ==> !Queue(Lengths(live, c.rest))
    ensures c.at.Some? ==> (LooksLikeQueue(live, c.at.value) <==> Queue(Lengths(live, c.rest)))
  {
    LengthsStep(live, c.at, c.rest);
    if c.at.Some? {
      TailReady(live, c.head, c.pre, c.at.value, c.rest);
      ChainStep(live, live[c.at.value].next, c.rest[1..]);
      LengthsTotal(live, c.rest[1..]);
    }
  }

  /** `done` was written over the front of the chain `ids`, up to the cursor. */
  ghost predicate Filling(was: Live, live: Live, c: Cursor, ids: seq<Id>, done: seq<byte>) {
    Taking(was, live, c.head, c.pre, c.at, c.rest, ids, done) && Reading(live, c, ids, |done|)
  }

  lemma FillStart(live: Live, h: Option<Id>, ids: seq<Id>)
    requires IsChain(live, h, ids)
    ensures Filling(live, live, Start(h, ids), ids, [])
  {
    TakeStart(live, h, ids);
    ReadStart(live, h, ids);
  }

  lemma FillWrite(was: Live, live: Live, rank: map<Id, nat>, c: Cursor, ids: seq<Id>, done: seq<byte>, s: seq<byte>)
    requires Linked(live, rank) && Filling(was, live, c, ids, done)
    requires c.at.Some? && c.off + |s| <= |live[c.at.value].data|
    ensures var t := c.at.value;
            var live' := live[t := live[t].(data := Put(live[t].data, c.off, s))];
            Filling(was, live', Further(c, |s|), ids, done + s)
  {
    hide Linked, Put;
    PutSize(live[c.at.value].data, c.off, s);
    TakeWrite(was, live, rank, c.head, c.pre, c.at.value, c.rest, ids, done, c.off, s);
  }

  lemma FillBeyond(was: Live, live: Live, c: Cursor, ids: seq<Id>, done: seq<byte>)
    requires Filling(was, live, c, ids, done) && c.at.Some? && c.off == |live[c.at.value].data|
    ensures c.rest != [] && Filling(was, live, Beyond(live, c), ids, done)
  {
    TakeAdvance(was, live, c.head, c.pre, c.at.value, c.rest, ids, done);
    ReadBeyond(live, c, ids, |done|);
  }

  lemma FillFacts(was: Live, live: Live, rank: map<Id, nat>, c: Cursor, ids: seq<Id>, done: seq<byte>)
    requires Linked(was, rank) && Filling(was, live, c, ids, done)
    ensures Linked(live, rank) && Rewritten(was, live, ids) && |done| <= |Bytes(was, ids)|
    ensures Bytes(live, ids) == Put(Bytes(was, ids), 0, done)
    ensures c.at.Some? ==> c.at.value in live && c.off <= |live[c.at.value].data|
  {
    RewrittenLinked(was, live, rank, ids);
  }

  lemma FillQueueMeans(was: Live, live: Live, c: Cursor, ids: seq<Id>, done: seq<byte>)
    requires Filling(was, live, c, ids, done) && IsChain(was, c.head, ids) && Totals(was, ids, 0)
    ensures c.at == None ==> !Queue(Lengths(was, c.rest))
    ensures c.at.Some? ==> (LooksLikeQueue(live, c.at.value) <==> Queue(Lengths(was, c.rest)))
  {
    RewrittenTotals(was, live, c.head, ids, ids);
    QueueMeans(live, c, ids, |done|);
    LengthsStay(was, live, ids, c.rest);
  }

  /** Both sides of pbuf_copy in step: the first `n` bytes of `fids` are written over the front of `tids`. */
  ghost predicate Copying(was: Live, live: Live, t: Cursor, tids: seq<Id>, f: Cursor, fids: seq<Id>, n: nat) {
    && n <= |Bytes(was, fids)| && Reading(was, f, fids, n)
    && Filling(was, live, t, tids, Bytes(was, fids)[..n])
  }

  /** One MEMCPY of pbuf_copy. */
  lemma CopyPart(was: Live, live: Live, rank: map<Id, nat>, t: Cursor, tids: seq<Id>, f: Cursor, fids: seq<Id>, n: nat,
                 m: nat)
    requires Copying(was, live, t, tids, f, fids, n) && Linked(live, rank)
    requires t.at.Some? && t.at.value in live && t.off + m <= |live[t.at.value].data|
    requires f.at.Some? && f.at.value in was && f.off + m <= |was[f.at.value].data|
    ensures var x := t.at.value;
            var live' := live[x := live[x].(data := Put(live[x].data, t.off, was[f.at.value].data[f.off..f.off + m]))];
            Copying(was, live', Further(t, m), tids, Further(f, m), fids, n + m)
  {
    hide Linked, Put, Reading, Filling;
    ReadPart(was, f, fids, n, m);
    FillWrite(was, live, rank, t, tids, Bytes(was, fids)[..n], was[f.at.value].data[f.off..f.off + m]);
  }

  /** All that the loop of pbuf_copy needs to know of the two current pbufs. */
  lemma CopyFacts(was: Live, live: Live, rank: map<Id, nat>, t: Cursor, tids: seq<Id>, f: Cursor, fids: seq<Id>, n: nat)
    requires Copying(was, live, t, tids, f, fids, n) && Linked(was, rank) && (forall x :: x in fids ==> x !in tids)
    ensures Linked(live, rank) && Rewritten(was, live, tids) && n <= |Bytes(was, fids)| && n <= |Bytes(was, tids)|
    ensures Bytes(live, tids) == Put(Bytes(was, tids), 0, Bytes(was, fids)[..n])
    ensures t.at.Some? ==> t.at.value in live && t.off <= |live[t.at.value].data|
    ensures f.at.Some? ==>
              var x := f.at.value;
              && x in live && x in was && live[x] == was[x] && f.off <= |was[x].data|
              && |f.pre| < |fids| && fids[|f.pre|] == x
    ensures f.at == None ==> n == |Bytes(was, fids)| && |f.pre| == |fids|
  {
    hide Linked, Put, Rewritten, Taking;
    FillFacts(was, live, rank, t, tids, Bytes(was, fids)[..n]);
    ReadFacts(was, live, f, fids, n, tids);
    if f.at == None {
      ReadEnd(was, f, fids, n);
      ChainStep(was, None, f.rest);
    }
  }

  /** Move on from a pbuf that was read to its end. */
  lemma CopyNextFrom(was: Live, live: Live, t: Cursor, tids: seq<Id>, f: Cursor, fids: seq<Id>, n: nat)
    requires Copying(was, live, t, tids, f, fids, n)
    requires f.at.Some? && f.at.value in was && f.off == |was[f.at.value].data|
    ensures f.rest != [] && Copying(was, live, t, tids, Beyond(was, f), fids, n)
  {
    hide Filling, Reading;
    ReadBeyond(was, f, fids, n);
  }

  /** Move on from a pbuf that was filled. */
  lemma CopyNextTo(was: Live, live: Live, t: Cursor, tids: seq<Id>, f: Cursor, fids: seq<Id>, n: nat)
    requires Copying(was, live, t, tids, f, fids, n)
    requires t.at.Some? && t.at.value in live && t.off == |live[t.at.value].data|
    ensures t.rest != [] && Copying(was, live, Beyond(live, t), tids, f, fids, n)
  {
    hide Filling, Reading;
    FillBeyond(was, live, t, tids, Bytes(was, fids)[..n]);
  }

  /** The lengths that the two cursors leave. */
  ghost function Lens(was: Live, t: Cursor, f: Cursor): Round {
    Round(Lengths(was, t.rest), t.off, Lengths(was, f.rest), f.off)
  }

  /** The first pbufs of the two sides, in terms of lengths. */
  lemma LensFirst(was: Live, live: Live, t: Cursor, tids: seq<Id>, f: Cursor, fids: seq<Id>, n: nat)
    requires Copying(was, live, t, tids, f, fids, n)
    ensures t.at == None <==> Lens(was, t, f).ts == []
    ensures f.at == None <==> Lens(was, t, f).fs == []
    ensures t.at.Some? ==> t.at.value in live && t.rest != []
    ensures t.at.Some? ==> Lens(was, t, f).ts[0] == |live[t.at.value].data|
    ensures t.at.Some? ==> Lens(was, t, f).ts[1..] == Lengths(was, t.rest[1..])
    ensures f.at.Some? ==> f.at.value in was && f.rest != [] && Lens(was, t, f).fs[0] == |was[f.at.value].data|
    ensures f.at.Some? ==> Lens(was, t, f).fs[1..] == Lengths(was, f.rest[1..])
  {
    hide Put, IsPath;
    LengthsStep(was, f.at, f.rest);
    LengthsStep(live, t.at, t.rest);
    LengthsStay(was, live, tids, t.rest);
    if t.at.Some? {
      LengthsStay(was, live, tids, t.rest[1..]);
    }
  }

  /** The tests of pbuf_copy after a round, in terms of lengths. */
  lemma CopyTests(was: Live, live: Live, t: Cursor, tids: seq<Id>, f: Cursor, fids: seq<Id>, n: nat)
    requires Copying(was, live, t, tids, f, fids, n)
    requires IsChain(was, t.head, tids) && Totals(was, tids, 0) && Totals(was, fids, 0)
    ensures var r := Lens(was, t, f);
            && (f.at == None ==> !Queue(r.fs)) && (f.at.Some? ==> (LooksLikeQueue(was, f.at.value) <==> Queue(r.fs)))
            && (t.at == None ==> !Queue(r.ts)) && (t.at.Some? ==> (LooksLikeQueue(live, t.at.value) <==> Queue(r.ts)))
  {
    hide Put, IsPath, Queue, LooksLikeQueue;
    QueueMeans(was, f, fids, n);
    FillQueueMeans(was, live, t, tids, Bytes(was, fids)[..n]);
  }

  /** pbuf_copy.  On success the source is written over the front of the target; every outcome writes some prefix of
      it.  Empty pbufs can make it fail: `Copies` says when. */
  method Copy(pool: Pool, to: Option<Id>, from: Option<Id>, ghost tids: seq<Id>, ghost fids: seq<Id>)
    returns (e: Err, ghost n: nat)
    requires pool.Valid() && IsChain(pool.live, to, tids) && IsChain(pool.live, from, fids)
    requires Totals(pool.live, tids, 0) && Totals(pool.live, fids, 0)
    requires forall x :: x in fids ==> x !in tids
    modifies pool`live
    ensures pool.Valid() && IsChain(pool.live, to, tids) && Totals(pool.live, tids, 0)
    ensures Rewritten(old(pool.live), pool.live, tids)
    ensures n <= |old(Bytes(pool.live, fids))| && n <= |old(Bytes(pool.live, tids))|
    ensures Bytes(pool.live, tids) == Put(old(Bytes(pool.live, tids)), 0, old(Bytes(pool.live, fids))[..n])
    ensures to == None || from == None || |old(Bytes(pool.live, tids))| < |old(Bytes(pool.live, fids))| ==>
              e == ErrArg && pool.live == old(pool.live)
    ensures e == Ok ==> n == |old(Bytes(pool.live, fids))|
    ensures e == Result(old(Lengths(pool.live, tids)), old(Lengths(pool.live, fids)))
    ensures var ts, fs := old(Lengths(pool.live, tids)), old(Lengths(pool.live, fids));
            && (e == Ok <==> ts != [] && fs != [] && Total(fs) <= Total(ts) && Copies(Begin(ts, fs)))
            && (ts != [] && fs != [] && Total(fs) <= Total(ts) && Positive(ts) ==> (e == Ok <==> SourceOk(Begin(ts, fs))))
    ensures e == Ok ==> forall i :: 1 <= i < |fids| ==> !LooksLikeQueue(old(pool.live), fids[i])
  {
    hide Linked, Counted, IsPath, Bytes, Put, Rewritten, Totals, Copying, Start, Result, Lengths, Copies, SourceOk;
    ghost var was, tc, fc := pool.live, Start(to, tids), Start(from, fids);
    n := 0;
    CopyResult(was, to, tids, from, fids);
    CopyStart(was, to, tids, from, fids);
    CopyFacts(was, was, pool.rank, tc, tids, fc, fids, 0);
    if to == None || from == None {
      return ErrArg, 0;
    }
    TailTotal(was, to.value, tids);
    TailTotal(was, from.value, fids);
    if pool.live[to.value].tot < pool.live[from.value].tot {
      return ErrArg, 0;
    }
    e, n := CopyLoop(pool, to.value, from.value, tids, fids);
    RewrittenKeeps(was, pool.live, pool.handles, pool.rank, to, tids, tids);
  }

  lemma CopyResult(live: Live, to: Option<Id>, tids: seq<Id>, from: Option<Id>, fids: seq<Id>)
    requires IsChain(live, to, tids) && IsChain(live, from, fids)
    ensures var ts, fs := Lengths(live, tids), Lengths(live, fids);
            && Total(ts) == |Bytes(live, tids)| && Total(fs) == |Bytes(live, fids)|
            && (to == None <==> ts == []) && (from == None <==> fs == [])
            && (to == None || from == None || |Bytes(live, tids)| < |Bytes(live, fids)| ==> Result(ts, fs) == ErrArg)
            && (Result(ts, fs) == Ok <==> ts != [] && fs != [] && Total(fs) <= Total(ts) && Copies(Begin(ts, fs)))
            && (ts != [] && fs != [] && Total(fs) <= Total(ts) && Positive(ts) ==>
                  (Result(ts, fs) == Ok <==> SourceOk(Begin(ts, fs))))
  {
    hide SourceOk, Copies, Positive;
    LengthsTotal(live, tids);
    LengthsTotal(live, fids);
    LengthsStep(live, to, tids);
    LengthsStep(live, from, fids);
    ResultIff(Lengths(live, tids), Lengths(live, fids));
  }

  lemma CopyStart(live: Live, to: Option<Id>, tids: seq<Id>, from: Option<Id>, fids: seq<Id>)
    requires IsChain(live, to, tids) && IsChain(live, from, fids)
    ensures Copying(live, live, Start(to, tids), tids, Start(from, fids), fids, 0)
  {
    hide IsPath, Taking;
    FillStart(live, to, tids);
    ReadStart(live, from, fids);
    assert Bytes(live, fids)[..0] == [];
  }

  lemma ResultStart(live: Live, to: Id, tids: seq<Id>, from: Id, fids: seq<Id>)
    requires IsChain(live, Some(to), tids) && IsChain(live, Some(from), fids)
    requires |Bytes(live, fids)| <= |Bytes(live, tids)|
    ensures var r := Lens(live, Start(Some(to), tids), Start(Some(from), fids));
            Ready(r) && Result(Lengths(live, tids), Lengths(live, fids)) == Outcome(r)
  {
    LengthsTotal(live, tids);
    LengthsTotal(live, fids);
    LengthsStep(live, Some(to), tids);
    LengthsStep(live, Some(from), fids);
  }

  /** A round of the loop decides the result or leaves it to the next round. */
  lemma NextRound(r: Round, r': Round, len: nat)
    requires Ready(r) && len == Length(r)
    requires r'.ts == Rest(r.ts, r.to + len) && r'.to == Offset(r.ts, r.to + len)
    requires r'.fs == Rest(r.fs, r.fo + len) && r'.fo == Offset(r.fs, r.fo + len)
    ensures r'.ts != [] && r'.fs != [] ==> Ready(r')
    ensures Outcome(r) == if r'.ts == [] && r'.fs != [] then ErrArg
                          else if Queue(r'.fs) || Queue(r'.ts) then ErrVal
                          else if r'.fs == [] then Ok
                          else Outcome(r')
  {
    assert r' == Next(r);
    NextTotals(r);
  }

  method CopyLoop(pool: Pool, to: Id, from: Id, ghost tids: seq<Id>, ghost fids: seq<Id>)
    returns (e: Err, ghost n: nat)
    requires Linked(pool.live, pool.rank) && IsChain(pool.live, Some(to), tids) && IsChain(pool.live, Some(from), fids)
    requires Totals(pool.live, tids, 0) && Totals(pool.live, fids, 0)
    requires |Bytes(pool.live, fids)| <= |Bytes(pool.live, tids)|
    requires forall x :: x in fids ==> x !in tids
    modifies pool`live
    ensures Rewritten(old(pool.live), pool.live, tids)
    ensures n <= |old(Bytes(pool.live, fids))| && n <= |old(Bytes(pool.live, tids))|
    ensures Bytes(pool.live, tids) == Put(old(Bytes(pool.live, tids)), 0, old(Bytes(pool.live, fids))[..n])
    ensures e == Ok ==> n == |old(Bytes(pool.live, fids))|
    ensures e == Result(old(Lengths(pool.live, tids)), old(Lengths(pool.live, fids)))
    ensures e == Ok ==> forall i :: 1 <= i < |fids| ==> !LooksLikeQueue(old(pool.live), fids[i])
  {
    hide Linked, IsPath, Bytes, Put, Rewritten, Totals, Copying, Lengths, Queue, Result, Ready;
    ghost var was, tc, fc := pool.live, Start(Some(to), tids), Start(Some(from), fids);
    var t, f, toff: nat, foff: nat := Some(to), Some(from), 0, 0;
    n := 0;
    CopyStart(was, t, tids, f, fids);
    CopyFacts(was, was, pool.rank, tc, tids, fc, fids, 0);
    ghost var left, result := Lens(was, tc, fc), Result(Lengths(was, tids), Lengths(was, fids));
    ResultStart(was, to, tids, from, fids);
    while f != None
      invariant Copying(was, pool.live, tc, tids, fc, fids, n)
      invariant tc.at == t && tc.off == toff && fc.at == f && fc.off == foff && tc.head == Some(to)
      invariant f.Some? ==> t.Some?
      invariant left == Lens(was, tc, fc) && (f.Some? ==> Ready(left) && result == Outcome(left))
      invariant f == None ==> result == Ok
      invariant forall i :: 1 <= i < |fids| && i <= |fc.pre| ==> !LooksLikeQueue(was, fids[i])
      decreases |fc.rest| + |tc.rest|
    {
      CopyFacts(was, pool.live, pool.rank, tc, tids, fc, fids, n);
      LensFirst(was, pool.live, tc, tids, fc, fids, n);
      var bt, bf := pool.live[t.value], pool.live[f.value];
      var len := if |bt.data| - toff >= |bf.data| - foff then |bf.data| - foff else |bt.data| - toff;
      var part := bf.data[foff..foff + len];
      CopyPart(was, pool.live, pool.rank, tc, tids, fc, fids, n, len);
      PutSize(bt.data, toff, part);
      pool.live := pool.live[t.value := bt.(data := Put(bt.data, toff, part))];
      tc, fc, n := Further(tc, len), Further(fc, len), n + len;
      toff, foff := toff + len, foff + len;
      if foff >= |bf.data| {
        CopyNextFrom(was, pool.live, tc, tids, fc, fids, n);
        fc := Beyond(was, fc);
        foff, f := 0, bf.next;
      }
      if toff == |bt.data| {
        CopyNextTo(was, pool.live, tc, tids, fc, fids, n);
        tc := Beyond(pool.live, tc);
        toff, t := 0, bt.next;
      }
      CopyFacts(was, pool.live, pool.rank, tc, tids, fc, fids, n);
      NextRound(left, Lens(was, tc, fc), len);
      LensFirst(was, pool.live, tc, tids, fc, fids, n);
      CopyTests(was, pool.live, tc, tids, fc, fids, n);
      left := Lens(was, tc, fc);
      if t == None && f != None {
        return ErrArg, n;
      }
      if f != None && |pool.live[f.value].data| == pool.live[f.value].tot && pool.live[f.value].next != None {
        return ErrVal, n;
      }
      if t != None && |pool.live[t.value].data| == pool.live[t.value].tot && pool.live[t.value].next != None {
        return ErrVal, n;
      }
    }
    CopyFacts(was, pool.live, pool.rank, tc, tids, fc, fids, n);
    return Ok, n;
  }

  /** A source of three or more pbufs of which the last is empty is one that pbuf_copy cannot copy: the pbuf before the
      last fails its test. */
  lemma {:induction false} EmptyTailLooksLikeQueue(live: Live, p: Option<Id>, ids: seq<Id>)
    requires |ids| >= 2 && IsChain(live, p, ids) && Totals(live, ids, 0) && Data(live, ids[|ids| - 1]) == []
    ensures LooksLikeQueue(live, ids[|ids| - 2])
    decreases |ids|
  {
    ChainStep(live, p, ids);
    ChainStep(live, live[ids[0]].next, ids[1..]);
    if |ids| == 2 {
      assert ids[1..][1..] == [];
    } else {
      EmptyTailLooksLikeQueue(live, live[ids[0]].next, ids[1..]);
    }
  }
}
