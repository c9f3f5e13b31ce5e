/** The heap of mem.c as a list of blocks.

    The blocks lie back to back and fill the heap; each begins with a header
    of `hdr` bytes.  The functions say what allocating, freeing and trimming
    do to the list.  The lemmas say that the heap stays well formed and
    coalesced, what happens to the live regions and to the bytes in use, and
    when an allocation fails.  `Heap` runs mem.c's code on headers against them.
 */
module HeapBlocks {
  import opened Words

  /** `size` counts the header. */
  datatype Blocks = End | Blk(size: nat, used: bool, tail: Blocks)

  /** SIZEOF_STRUCT_MEM, MIN_SIZE_ALIGNED and MEM_SIZE_ALIGNED. */
  datatype Layout = Layout(hdr: nat, min: nat, size: nat) {
    ghost predicate Valid() { 0 < hdr && 0 < min && hdr + min <= size <= 64000 }
  }

  function Sum(bs: Blocks): nat { if bs.End? then 0 else bs.size + Sum(bs.tail) }

  /** Every block has room for a header and `min` bytes of data. */
  ghost predicate Roomy(bs: Blocks, l: Layout) { bs.Blk? ==> bs.size >= l.hdr + l.min && Roomy(bs.tail, l) }

  /** The list is empty or starts with a used block. */
  predicate UsedFirst(bs: Blocks) { bs.Blk? ==> bs.used }

  /** No free block is followed by a free block. */
  ghost predicate Coalesced(bs: Blocks) { bs.Blk? ==> (bs.used || UsedFirst(bs.tail)) && Coalesced(bs.tail) }

  ghost predicate WellFormed(bs: Blocks, l: Layout) { Sum(bs) == l.size && Roomy(bs, l) && Coalesced(bs) }

  /** The data regions in use of blocks laid out from `off`: first byte and end. */
  ghost function Live(bs: Blocks, off: nat, l: Layout): set<(nat, nat)> {
    if bs.End? then {}
    else (if bs.used then {(off + l.hdr, off + bs.size)} else {}) + Live(bs.tail, off + bs.size, l)
  }

  /** The bytes of the used blocks, headers included. */
  function InUse(bs: Blocks): nat {
    if bs.End? then 0 else (if bs.used then bs.size else 0) + InUse(bs.tail)
  }

  /** The offset of the lowest free block, or of the end. */
  function LowestFree(bs: Blocks, off: nat): nat {
    if bs.End? || !bs.used then off else LowestFree(bs.tail, off + bs.size)
  }

  /** The blocks from offset `p` on; `p` must be the start of a block or the end. */
  function From(bs: Blocks, off: nat, p: nat): Blocks {
    if off >= p || bs.End? then bs else From(bs.tail, off + bs.size, p)
  }

  ghost predicate Boundary(bs: Blocks, off: nat, p: nat) {
    off == p || (bs.Blk? && off < p && Boundary(bs.tail, off + bs.size, p))
  }

  // ----- Allocation -----

  /** What becomes of a free block of `size` bytes when `need` bytes of data are taken from it. */
  function Carve(size: nat, need: nat, tail: Blocks, l: Layout): Blocks {
    if size >= l.hdr + need + l.hdr + l.min then Blk(l.hdr + need, true, Blk(size - l.hdr - need, false, tail))
    else Blk(size, true, tail)
  }

  predicate Fits(bs: Blocks, need: nat, l: Layout) { bs.Blk? && !bs.used && bs.size >= l.hdr + need }

  /** First fit: the start of the block to allocate from. */
  function FirstFit(bs: Blocks, off: nat, need: nat, l: Layout): Option<nat> {
    if bs.End? then None
    else if Fits(bs, need, l) then Some(off)
    else FirstFit(bs.tail, off + bs.size, need, l)
  }

  /** Allocate from the block at `p`. */
  function Allocate(bs: Blocks, off: nat, p: nat, need: nat, l: Layout): Blocks {
    if bs.End? then bs
    else if off == p then Carve(bs.size, need, bs.tail, l)
    else bs.(tail := Allocate(bs.tail, off + bs.size, p, need, l))
  }

  /** The block at `p` is free and large enough. */
  ghost predicate FitsAt(bs: Blocks, off: nat, p: nat, need: nat, l: Layout) {
    Boundary(bs, off, p) && Fits(From(bs, off, p), need, l)
  }

  lemma AllocateWellFormed(bs: Blocks, off: nat, p: nat, need: nat, l: Layout)
    requires Roomy(bs, l) && Coalesced(bs) && l.Valid() && need >= l.min && FitsAt(bs, off, p, need, l)
    ensures var bs' := Allocate(bs, off, p, need, l);
            Sum(bs') == Sum(bs) && Roomy(bs', l) && Coalesced(bs') && (UsedFirst(bs) ==> UsedFirst(bs'))
  {
  }

  lemma LiveBounds(bs: Blocks, off: nat, l: Layout)
    requires Roomy(bs, l) && l.min > 0
    ensures forall x, y :: (x, y) in Live(bs, off, l) ==> off + l.hdr <= x < y <= off + Sum(bs)
  {
  }

  /** No live region reaches into the given stretch. */
  ghost predicate Clear(live: set<(nat, nat)>, lo: nat, hi: nat) {
    forall x, y :: (x, y) in live ==> y <= lo || hi <= x
  }

  /** The size of the block at `p`. */
  function SizeAt(bs: Blocks, off: nat, p: nat): nat {
    var b := From(bs, off, p); if b.Blk? then b.size else 0
  }

  lemma {:induction false} AllocateLive(bs: Blocks, off: nat, p: nat, need: nat, l: Layout)
    requires Roomy(bs, l) && l.Valid() && need >= l.min && FitsAt(bs, off, p, need, l)
    ensures var bs' := Allocate(bs, off, p, need, l);
            var got := SizeAt(bs', off, p);
            && l.hdr + need <= got && p + got <= off + Sum(bs)
            && Live(bs', off, l) == Live(bs, off, l) + {(p + l.hdr, p + got)}
            && Clear(Live(bs, off, l), p, p + got + l.hdr)
  {
    LiveBounds(bs.tail, off + bs.size, l);
    if off != p {
      AllocateLive(bs.tail, off + bs.size, p, need, l);
    }
  }

  lemma {:induction false} AllocatedSize(bs: Blocks, off: nat, p: nat, need: nat, l: Layout)
    requires FitsAt(bs, off, p, need, l) && Roomy(bs, l) && l.min > 0
    ensures var size := SizeAt(bs, off, p);
            SizeAt(Allocate(bs, off, p, need, l), off, p) ==
            if size >= l.hdr + need + l.hdr + l.min then l.hdr + need else size
  {
    if off != p {
      AllocatedSize(bs.tail, off + bs.size, p, need, l);
    }
  }

  lemma {:induction false} AllocateInUse(bs: Blocks, off: nat, p: nat, need: nat, l: Layout)
    requires FitsAt(bs, off, p, need, l)
    ensures var bs' := Allocate(bs, off, p, need, l);
            InUse(bs') == InUse(bs) + SizeAt(bs', off, p)
  {
    if off != p {
      AllocateInUse(bs.tail, off + bs.size, p, need, l);
    }
  }

  /** First fit fails exactly when no free block is large enough, and otherwise
      finds the lowest one that is. */
  lemma {:induction false} FirstFitFacts(bs: Blocks, off: nat, need: nat, l: Layout)
    requires Roomy(bs, l) && l.min > 0
    ensures var p := FirstFit(bs, off, need, l);
            && (p == None <==> forall q :: !FitsAt(bs, off, q, need, l))
            && (p.Some? ==> FitsAt(bs, off, p.value, need, l)
                            && forall q :: FitsAt(bs, off, q, need, l) ==> p.value <= q)
  {
    if bs.Blk? {
      var next := off + bs.size;
      FirstFitFacts(bs.tail, next, need, l);
      forall q ensures FitsAt(bs, off, q, need, l) <==> (q == off && Fits(bs, need, l)) || FitsAt(bs.tail, next, q, need, l) {
        if FitsAt(bs.tail, next, q, need, l) {
          BoundaryAbove(bs.tail, next, q);
        }
      }
      if Fits(bs, need, l) {
        assert FitsAt(bs, off, off, need, l);
        forall q | FitsAt(bs, off, q, need, l) ensures off <= q {
          BoundaryAbove(bs, off, q);
        }
      }
    }
  }

  lemma {:induction false} BoundaryAbove(bs: Blocks, off: nat, p: nat)
    requires Boundary(bs, off, p)
    ensures off <= p <= off + Sum(bs)
  {
    if off != p {
      BoundaryAbove(bs.tail, off + bs.size, p);
    }
  }

  // ----- Freeing -----

  /** Combine a free block with the one behind it, if that is free too. */
  function Join(size: nat, used: bool, tail: Blocks): Blocks {
    if !used && tail.Blk? && !tail.used then Blk(size + tail.size, false, tail.tail) else Blk(size, used, tail)
  }

  /** Free the block at `p` and plug the holes around it. */
  function Free(bs: Blocks, off: nat, p: nat): Blocks {
    if bs.End? then bs
    else if off == p then Join(bs.size, false, bs.tail)
    else Join(bs.size, bs.used, Free(bs.tail, off + bs.size, p))
  }

  /** The block at `p` is in use. */
  ghost predicate UsedAt(bs: Blocks, off: nat, p: nat) {
    Boundary(bs, off, p) && From(bs, off, p).Blk? && From(bs, off, p).used
  }

  lemma {:induction false} FreeWellFormed(bs: Blocks, off: nat, p: nat, l: Layout)
    requires Roomy(bs, l) && Coalesced(bs) && l.Valid() && UsedAt(bs, off, p)
    ensures var bs' := Free(bs, off, p);
            && Sum(bs') == Sum(bs) && Roomy(bs', l) && Coalesced(bs') && bs'.Blk?
            && (off < p && UsedFirst(bs) ==> UsedFirst(bs')) && (!UsedFirst(bs') ==> UsedFirst(bs'.tail))
  {
    if off != p {
      FreeWellFormed(bs.tail, off + bs.size, p, l);
    }
  }

  /** Freeing removes exactly the block's region from the live ones. */
  lemma {:induction false} FreeLive(bs: Blocks, off: nat, p: nat, l: Layout)
    requires Roomy(bs, l) && l.Valid() && UsedAt(bs, off, p)
    ensures var r := (p + l.hdr, p + SizeAt(bs, off, p));
            r in Live(bs, off, l) && Live(Free(bs, off, p), off, l) == Live(bs, off, l) - {r}
  {
    hide Join, Coalesced;
    var tail, next := bs.tail, off + bs.size;
    LiveBounds(tail, next, l);
    if off == p {
      JoinLive(bs.size, false, tail, off, l);
    } else {
      BoundaryAbove(tail, next, p);
      FreeLive(tail, next, p, l);
      JoinLive(bs.size, bs.used, Free(tail, next, p), off, l);
    }
  }

  lemma JoinLive(size: nat, used: bool, tail: Blocks, off: nat, l: Layout)
    ensures Live(Join(size, used, tail), off, l) == Live(Blk(size, used, tail), off, l)
    ensures InUse(Join(size, used, tail)) == InUse(Blk(size, used, tail))
  {
  }

  /** Freeing gives back exactly the block's bytes. */
  lemma {:induction false} FreeInUse(bs: Blocks, off: nat, p: nat, l: Layout)
    requires UsedAt(bs, off, p)
    ensures InUse(Free(bs, off, p)) == InUse(bs) - SizeAt(bs, off, p)
  {
    if off != p {
      FreeInUse(bs.tail, off + bs.size, p, l);
      JoinLive(bs.size, bs.used, Free(bs.tail, off + bs.size, p), off, l);
    }
  }

  /** When nothing is in use the heap is one free block. */
  lemma NothingInUse(bs: Blocks, l: Layout)
    requires WellFormed(bs, l) && l.Valid() && InUse(bs) == 0
    ensures bs == Blk(l.size, false, End)
  {
    assert Roomy(bs.tail, l);
    assert bs.Blk? && !bs.used && bs.tail.End?;
  }

  /** A live region is the data of a used block. */
  lemma {:induction false} LiveIsUsed(bs: Blocks, off: nat, l: Layout, r: (nat, nat))
    requires Roomy(bs, l) && l.Valid() && r in Live(bs, off, l)
    ensures r.0 >= off + l.hdr && UsedAt(bs, off, r.0 - l.hdr) && r.1 == r.0 - l.hdr + SizeAt(bs, off, r.0 - l.hdr)
  {
    if r != (off + l.hdr, off + bs.size) || !bs.used {
      LiveIsUsed(bs.tail, off + bs.size, l, r);
    }
  }

  lemma {:induction false} SomethingLive(bs: Blocks, off: nat, l: Layout)
    ensures InUse(bs) > 0 ==> Live(bs, off, l) != {}
  {
    if bs.Blk? {
      SomethingLive(bs.tail, off + bs.size, l);
      assert Live(bs.tail, off + bs.size, l) <= Live(bs, off, l);
      assert bs.used ==> (off + l.hdr, off + bs.size) in Live(bs, off, l);
    }
  }

  /** Free the blocks of these regions, in this order. */
  function FreeEach(bs: Blocks, rs: seq<(nat, nat)>, hdr: nat): Blocks
    decreases |rs|
  {
    if rs == [] then bs
    else FreeEach(Free(bs, 0, if rs[0].0 >= hdr then rs[0].0 - hdr else 0), rs[1..], hdr)
  }

  /** Freeing all that is live, in any order, leaves one free block. */
  lemma {:induction false} FreeAllInAnyOrder(bs: Blocks, rs: seq<(nat, nat)>, l: Layout)
    requires WellFormed(bs, l) && l.Valid()
    requires (forall r :: r in rs <==> r in Live(bs, 0, l)) && (forall i, j :: 0 <= i < j < |rs| ==> rs[i] != rs[j])
    ensures FreeEach(bs, rs, l.hdr) == Blk(l.size, false, End)
    decreases |rs|
  {
    if rs == [] {
      assert Live(bs, 0, l) == {};
      SomethingLive(bs, 0, l);
      NothingInUse(bs, l);
    } else {
      var r := rs[0];
      LiveIsUsed(bs, 0, l, r);
      FreeWellFormed(bs, 0, r.0 - l.hdr, l);
      FreeLive(bs, 0, r.0 - l.hdr, l);
      assert r == (r.0, r.1);
      FreeAllInAnyOrder(Free(bs, 0, r.0 - l.hdr), rs[1..], l);
    }
  }

  // ----- Trimming -----

  /** Shrink the data of the used block at `p` to `n` bytes: move a free successor
      down, or make the surplus a free block if it is large enough to be one. */
  function Shrink(size: nat, tail: Blocks, n: nat, l: Layout): Blocks {
    if size <= l.hdr + n then Blk(size, true, tail)
    else if tail.Blk? && !tail.used then
      Blk(l.hdr + n, true, Blk(size - l.hdr - n + tail.size, false, tail.tail))
    else if l.hdr + n + l.hdr + l.min <= size then Blk(l.hdr + n, true, Blk(size - l.hdr - n, false, tail))
    else Blk(size, true, tail)
  }

  function Trim(bs: Blocks, off: nat, p: nat, n: nat, l: Layout): Blocks {
    if bs.End? then bs
    else if off == p then Shrink(bs.size, bs.tail, n, l)
    else bs.(tail := Trim(bs.tail, off + bs.size, p, n, l))
  }

  lemma {:induction false} TrimWellFormed(bs: Blocks, off: nat, p: nat, n: nat, l: Layout)
    requires Roomy(bs, l) && Coalesced(bs) && l.Valid() && UsedAt(bs, off, p) && n >= l.min
    ensures var bs' := Trim(bs, off, p, n, l);
            Sum(bs') == Sum(bs) && Roomy(bs', l) && Coalesced(bs') && (UsedFirst(bs) ==> UsedFirst(bs'))
  {
    if off != p {
      TrimWellFormed(bs.tail, off + bs.size, p, n, l);
    }
  }

  /** Trimming keeps the block where it is, leaves it at least `n` bytes and moves no
      other region. */
  lemma {:induction false} TrimLive(bs: Blocks, off: nat, p: nat, n: nat, l: Layout)
    requires Roomy(bs, l) && l.Valid() && UsedAt(bs, off, p) && n >= l.min && l.hdr + n <= SizeAt(bs, off, p)
    ensures var bs' := Trim(bs, off, p, n, l);
            var was, got := SizeAt(bs, off, p), SizeAt(bs', off, p);
            && l.hdr + n <= got <= was
            && Live(bs', off, l) == Live(bs, off, l) - {(p + l.hdr, p + was)} + {(p + l.hdr, p + got)}
  {
    var tail, next := bs.tail, off + bs.size;
    LiveBounds(tail, next, l);
    if off == p {
      ShrinkLive(bs.size, tail, n, off, l);
    } else {
      BoundaryAbove(tail, next, p);
      TrimLive(tail, next, p, n, l);
    }
  }

  lemma ShrinkLive(size: nat, tail: Blocks, n: nat, off: nat, l: Layout)
    requires l.hdr + n <= size
    ensures var bs' := Shrink(size, tail, n, l);
            && bs'.Blk? && l.hdr + n <= bs'.size <= size
            && Live(bs', off, l) == {(off + l.hdr, off + bs'.size)} + Live(tail, off + size, l)
            && InUse(bs') == bs'.size + InUse(tail)
  {
  }

  lemma {:induction false} TrimNothing(bs: Blocks, off: nat, p: nat, n: nat, l: Layout)
    requires UsedAt(bs, off, p) && l.hdr + n == SizeAt(bs, off, p)
    ensures Trim(bs, off, p, n, l) == bs
  {
    if off != p {
      TrimNothing(bs.tail, off + bs.size, p, n, l);
    }
  }

  lemma {:induction false} TrimmedSize(bs: Blocks, off: nat, p: nat, n: nat, l: Layout)
    requires UsedAt(bs, off, p) && l.hdr + n < SizeAt(bs, off, p)
    ensures var b := From(bs, off, p);
            SizeAt(Trim(bs, off, p, n, l), off, p) ==
            if (b.tail.Blk? && !b.tail.used) || l.hdr + n + l.hdr + l.min <= b.size then l.hdr + n else b.size
  {
    if off != p {
      TrimmedSize(bs.tail, off + bs.size, p, n, l);
    }
  }

  /** Trimming gives back exactly the bytes cut off. */
  lemma {:induction false} TrimInUse(bs: Blocks, off: nat, p: nat, n: nat, l: Layout)
    requires UsedAt(bs, off, p) && l.hdr + n <= SizeAt(bs, off, p)
    ensures var bs' := Trim(bs, off, p, n, l);
            InUse(bs') == InUse(bs) - (SizeAt(bs, off, p) - SizeAt(bs', off, p))
  {
    if off == p {
      ShrinkLive(bs.size, bs.tail, n, off, l);
    } else {
      TrimInUse(bs.tail, off + bs.size, p, n, l);
    }
  }

  /** Live regions, with the headers in front of them, do not overlap. */
  lemma {:induction false} LiveDisjoint(bs: Blocks, off: nat, l: Layout, r: (nat, nat), t: (nat, nat))
    requires Roomy(bs, l) && l.min > 0 && r in Live(bs, off, l) && t in Live(bs, off, l) && r != t
    ensures r.1 + l.hdr <= t.0 || t.1 + l.hdr <= r.0
  {
    LiveBounds(bs.tail, off + bs.size, l);
    if r in Live(bs.tail, off + bs.size, l) && t in Live(bs.tail, off + bs.size, l) {
      LiveDisjoint(bs.tail, off + bs.size, l, r, t);
    } else {
      assert (r.0, r.1) == r && (t.0, t.1) == t;
    }
  }

  // ----- Alignment -----

  function Times(k: int, a: int): int { k * a }

  ghost predicate Multiple(x: int, a: int) { exists k :: x == Times(k, a) }

  lemma Multiples(x: int, y: int, a: int)
    requires Multiple(x, a) && Multiple(y, a)
    ensures Multiple(x + y, a) && Multiple(x - y, a)
  {
    var i, j :| x == Times(i, a) && y == Times(j, a);
    assert Times(i + j, a) == x + y;
    assert Times(i - j, a) == x - y;
  }

  /** Every block size is a multiple of the alignment. */
  ghost predicate Aligned(bs: Blocks, a: nat) { bs.Blk? ==> Multiple(bs.size, a) && Aligned(bs.tail, a) }

  /** In an aligned heap every block, and with it every data address, is aligned. */
  lemma {:induction false} BoundaryAligned(bs: Blocks, off: nat, p: nat, a: nat)
    requires Aligned(bs, a) && Multiple(off, a) && Boundary(bs, off, p)
    ensures Multiple(p, a)
  {
    if off != p {
      Multiples(off, bs.size, a);
      BoundaryAligned(bs.tail, off + bs.size, p, a);
    }
  }

  lemma {:induction false} AllocateAligned(bs: Blocks, off: nat, p: nat, need: nat, l: Layout, a: nat)
    requires Aligned(bs, a) && Multiple(l.hdr, a) && Multiple(need, a) && FitsAt(bs, off, p, need, l)
    ensures Aligned(Allocate(bs, off, p, need, l), a)
  {
    if off == p {
      Multiples(l.hdr, need, a);
      Multiples(bs.size, l.hdr + need, a);
    } else {
      AllocateAligned(bs.tail, off + bs.size, p, need, l, a);
    }
  }

  lemma {:induction false} FreeAligned(bs: Blocks, off: nat, p: nat, a: nat)
    requires Aligned(bs, a)
    ensures Aligned(Free(bs, off, p), a)
  {
    if bs.Blk? {
      var tail := if off == p then bs.tail else Free(bs.tail, off + bs.size, p);
      if off != p {
        FreeAligned(bs.tail, off + bs.size, p, a);
      }
      if tail.Blk? {
        Multiples(bs.size, tail.size, a);
      }
    }
  }

  lemma {:induction false} TrimAligned(bs: Blocks, off: nat, p: nat, n: nat, l: Layout, a: nat)
    requires Aligned(bs, a) && Multiple(l.hdr, a) && Multiple(n, a) && UsedAt(bs, off, p)
    ensures Aligned(Trim(bs, off, p, n, l), a)
  {
    if off == p {
      Multiples(l.hdr, n, a);
      Multiples(bs.size, l.hdr + n, a);
      if bs.tail.Blk? {
        Multiples(bs.size - (l.hdr + n), bs.tail.size, a);
      }
    } else {
      TrimAligned(bs.tail, off + bs.size, p, n, l, a);
    }
  }
}
