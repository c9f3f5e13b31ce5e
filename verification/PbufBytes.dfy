/** The operations of pbuf.c that read and write the bytes of a chain, against the chain's flat byte sequence. */
module PbufBytes {
  import opened Common
  import opened Words
  import opened PbufGraph
  import opened PbufPaths
  import opened PbufPool

  // ----- Slices -----

  /** At most `n` bytes of `s` from offset `o`. */
  function Slice(s: seq<byte>, o: nat, n: nat): seq<byte> {
    if o >= |s| then [] else if o + n <= |s| then s[o..o + n] else s[o..]
  }

  lemma SliceSkip(d: seq<byte>, b: seq<byte>, o: nat, n: nat)
    requires o >= |d|
    ensures Slice(d + b, o, n) == Slice(b, o - |d|, n)
  {
  }

  lemma SliceCopy(d: seq<byte>, b: seq<byte>, o: nat, n: nat)
    requires o <= |d|
    ensures var m := Min(|d| - o, n); Slice(d + b, o, n) == d[o..o + m] + Slice(b, 0, n - m)
  {
  }

  lemma SliceNone(b: seq<byte>, o: nat, n: nat)
    requires n == 0 || b == []
    ensures Slice(b, o, n) == []
  {
  }

  // ----- pbuf_copy_partial -----

  lemma ChainStep(live: Live, p: Option<Id>, ids: seq<Id>)
    requires IsChain(live, p, ids)
    ensures p == None <==> ids == []
    ensures p.Some? ==> p.value in live && ids[0] == p.value && IsChain(live, live[p.value].next, ids[1..])
    ensures p.Some? ==> Bytes(live, ids) == live[p.value].data + Bytes(live, ids[1..])
    ensures p == None ==> Bytes(live, ids) == []
  {
  }

  /** MEMCPY into a buffer. */
  method Write(dst: array<byte>, at: nat, src: seq<byte>)
    requires at + |src| <= dst.Length
    modifies dst
    ensures dst[..] == old(dst[..at]) + src + old(dst[at + |src|..])
  {
    forall i | 0 <= i < |src| {
      dst[at + i] := src[i];
    }
  }

  /** `out` at the front of what was `was`. */
  ghost function Over(out: seq<byte>, was: seq<byte>): seq<byte>
    requires |out| <= |was|
  {
    out + was[|out|..]
  }

  lemma OverMore(out: seq<byte>, was: seq<byte>, src: seq<byte>)
    requires |out| + |src| <= |was|
    ensures Over(out, was)[..|out|] + src + Over(out, was)[|out| + |src|..] == Over(out + src, was)
  {
  }

  /** pbuf_copy_partial: the clipped slice goes to the front of `dst` and nothing else of it changes. */
  method CopyPartial(live: Live, buf: Option<Id>, dst: array<byte>, len: u16, offset: u16, ghost ids: seq<Id>)
    returns (copied: nat)
    requires IsChain(live, buf, ids) && dst.Length >= len
    modifies dst
    ensures copied == |Slice(Bytes(live, ids), offset, len)|
    ensures dst[..copied] == Slice(Bytes(live, ids), offset, len) && dst[copied..] == old(dst[copied..])
  {
    hide IsPath, Bytes, Slice, Over;
    copied := 0;
    var p, n, o := buf, len as int, offset as int;
    ghost var rest, out, was := ids, [], dst[..];
    assert dst[..] == Over([], was) by { OverNone(was); }
    while n != 0 && p != None
      invariant IsChain(live, p, rest) && 0 <= o && 0 <= n && copied == |out| && copied + n == len
      invariant out + Slice(Bytes(live, rest), o, n) == Slice(Bytes(live, ids), offset, len)
      invariant dst[..] == Over(out, was)
      decreases |rest|
    {
      ChainStep(live, p, rest);
      var d := live[p.value].data;
      ghost var b := Bytes(live, rest[1..]);
      if o != 0 && o >= |d| {
        SliceSkip(d, b, o, n);
        o := o - |d|;
      } else {
        SliceCopy(d, b, o, n);
        var m := Min(|d| - o, n);
        var part := d[o..o + m];
        OverMore(out, was, part);
        Write(dst, copied, part);
        out := out + part;
        copied, n, o := copied + m, n - m, 0;
      }
      p, rest := live[p.value].next, rest[1..];
    }
    ChainStep(live, p, rest);
    SliceNone(Bytes(live, rest), o, n);
    OverParts(out, was);
  }

  /** What there is of the bytes asked for. */
  lemma SliceIs(s: seq<byte>, o: nat, n: nat)
    ensures |Slice(s, o, n)| == if o <= |s| then Min(n, |s| - o) else 0
    ensures o <= |s| ==> Slice(s, o, n) == s[o..o + |Slice(s, o, n)|]
  {
  }

  lemma OverNone(was: seq<byte>)
    ensures Over([], was) == was
  {
  }

  lemma OverParts(out: seq<byte>, was: seq<byte>)
    requires |out| <= |was|
    ensures Over(out, was)[..|out|] == out && Over(out, was)[|out|..] == was[|out|..]
  {
  }

  // ----- pbuf_skip, pbuf_try_get_at, pbuf_memcmp and pbuf_memfind -----

  lemma Advance(live: Live, h: Option<Id>, pre: seq<Id>, p: Id, rest: seq<Id>)
    requires IsPath(live, h, pre, Some(p)) && IsChain(live, Some(p), rest)
    ensures p in live && IsPath(live, h, pre + [p], live[p].next) && IsChain(live, live[p].next, rest[1..])
    ensures pre + rest == (pre + [p]) + rest[1..] && rest != []
    ensures Bytes(live, pre + [p]) == Bytes(live, pre) + live[p].data
    ensures Bytes(live, rest) == live[p].data + Bytes(live, rest[1..])
  {
    OnePbuf(live, p, 0);
    PathAppend(live, h, pre, Some(p), [p], live[p].next);
    BytesSnoc(live, pre, p);
  }

  /** pbuf_skip: the pbuf that holds the byte at `offset`, and where in it; none when the chain is not that long. */
  method Skip(live: Live, h: Option<Id>, offset: nat, ghost ids: seq<Id>)
    returns (q: Option<Id>, left: nat, ghost pre: seq<Id>, ghost rest: seq<Id>)
    requires IsChain(live, h, ids)
    ensures IsPath(live, h, pre, q) && IsChain(live, q, rest) && ids == pre + rest
    ensures Bytes(live, ids) == Bytes(live, pre) + Bytes(live, rest) && |Bytes(live, pre)| + left == offset
    ensures q == None <==> offset >= |Bytes(live, ids)|
    ensures q.Some? ==> q.value in live && left < |live[q.value].data|
  {
    hide IsPath, Bytes;
    q, left := h, offset;
    pre, rest := [], ids;
    assert IsPath(live, h, [], h) && Bytes(live, []) == [] by { NoPath(live, h); }
    ChainStep(live, q, rest);
    while q != None && |live[q.value].data| <= left
      invariant IsPath(live, h, pre, q) && IsChain(live, q, rest) && ids == pre + rest
      invariant q.Some? ==> q.value in live
      invariant |Bytes(live, pre)| + left == offset
      decreases |rest|
    {
      Advance(live, h, pre, q.value, rest);
      left := left - |live[q.value].data|;
      pre, rest := pre + [q.value], rest[1..];
      q := live[q.value].next;
      ChainStep(live, q, rest);
    }
    ChainStep(live, q, rest);
    BytesAppend(live, pre, rest);
  }

  lemma NoPath(live: Live, h: Option<Id>)
    ensures IsPath(live, h, [], h) && Bytes(live, []) == []
  {
  }

  /** pbuf_try_get_at */
  method TryGetAt(live: Live, p: Option<Id>, offset: nat, ghost ids: seq<Id>) returns (r: int)
    requires IsChain(live, p, ids)
    ensures r == if offset < |Bytes(live, ids)| then Bytes(live, ids)[offset] as int else -1
  {
    hide IsPath, Bytes;
    var q, i;
    ghost var pre, rest;
    q, i, pre, rest := Skip(live, p, offset, ids);
    ChainStep(live, q, rest);
    if q != None && |live[q.value].data| > i {
      return live[q.value].data[i] as int;
    }
    return -1;
  }

  /** pbuf_memcmp: 0 exactly for equal bytes, 0xffff for a chain too short, else one more than where they differ. */
  method MemCmp(live: Live, p: Id, offset: u16, mem: seq<byte>, ghost ids: seq<Id>) returns (r: u16)
    requires IsChain(live, Some(p), ids) && Totals(live, ids, 0) && |mem| < TWO16
    ensures r == 0 <==> MatchesAt(Bytes(live, ids), mem, offset)
    ensures r == 0 ==> offset + |mem| <= |Bytes(live, ids)| && Bytes(live, ids)[offset..offset + |mem|] == mem
    ensures offset + |mem| > |Bytes(live, ids)| ==> r == 0xffff
    ensures offset + |mem| <= |Bytes(live, ids)| && r != 0 ==>
              && r <= |mem| && Bytes(live, ids)[offset..offset + r - 1] == mem[..r - 1]
              && Bytes(live, ids)[offset + r - 1] != mem[r - 1]
  {
    hide IsPath, Bytes;
    TailTotal(live, p, ids);
    if live[p].tot < offset + |mem| {
      return 0xffff;
    }
    var q, start;
    ghost var pre, rest;
    q, start, pre, rest := Skip(live, Some(p), offset, ids);
    ghost var all := Bytes(live, ids);
    for i := 0 to |mem|
      invariant all[offset..offset + i] == mem[..i]
    {
      var a := TryGetAt(live, q, start + i, rest);
      assert Bytes(live, rest)[start + i] == all[offset + i];
      if a != mem[i] as int {
        return i + 1;
      }
    }
    return 0;
  }

  ghost predicate MatchesAt(all: seq<byte>, mem: seq<byte>, i: nat) { i + |mem| <= |all| && all[i..i + |mem|] == mem }

  /** pbuf_memfind: the first match, or 0xFFFF when there is none; 0xFFFF is also the answer for an empty pattern
      at the end of a chain of 0xFFFF bytes, and for nothing else that matches. */
  method MemFind(live: Live, p: Id, mem: seq<byte>, start: u16, ghost ids: seq<Id>) returns (r: u16)
    requires IsChain(live, Some(p), ids) && Totals(live, ids, 0) && |mem| < TWO16
    ensures (start <= r && MatchesAt(Bytes(live, ids), mem, r))
            || (r == 0xFFFF && forall i :: start <= i ==> !MatchesAt(Bytes(live, ids), mem, i))
    ensures forall i :: start <= i < r ==> !MatchesAt(Bytes(live, ids), mem, i)
    ensures r == 0xFFFF && MatchesAt(Bytes(live, ids), mem, r) ==> mem == [] && |Bytes(live, ids)| == 0xFFFF
  {
    hide IsPath, Bytes;
    TailTotal(live, p, ids);
    var max := live[p].tot - |mem|;
    if live[p].tot >= |mem| + start {
      var i := start as int;
      while i <= max
        invariant start <= i <= max + 1
        invariant forall j :: start <= j < i ==> !MatchesAt(Bytes(live, ids), mem, j)
      {
        var plus := MemCmp(live, p, i, mem, ids);
        if plus == 0 {
          return i;
        }
        i := i + 1;
      }
    }
    return 0xFFFF;
  }
}
