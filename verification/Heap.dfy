/** mem.c: `mem_init`, `mem_malloc`, `mem_free`, `mem_trim` and `plug_holes`,
    on headers in memory and offsets from the start of the heap. */
module Heap {
  import opened Words
  import opened HeapBlocks
  import opened HeapHeaders

  /** LWIP_MEM_ALIGN_SIZE, stored back into a 16-bit `mem_size_t`. */
  function AlignSize(size: u16, align: nat): u16
    requires align > 0
  {
    Wrap16((size + align - 1) / align * align)
  }

  /** The data size a request is rounded to. */
  function Rounded(size: u16, align: nat, l: Layout): nat
    requires align > 0
  {
    if AlignSize(size, align) < l.min then l.min else AlignSize(size, align)
  }

  lemma {:induction false} MulAtLeast(d: nat, a: nat)
    requires d > 0
    ensures d * a >= a
  {
    if d > 1 {
      MulAtLeast(d - 1, a);
      assert d * a == (d - 1) * a + a;
    }
  }

  /** Multiples closer together than the factor are equal. */
  lemma NearMultiples(k: int, m: int, a: int)
    requires a > 0 && -a < k * a - m * a < a
    ensures k == m
  {
    if k > m {
      MulAtLeast(k - m, a);
    } else if k < m {
      MulAtLeast(m - k, a);
    }
  }

  lemma RoundUp(x: int, a: int) returns (k: int)
    requires a > 0
    ensures k == (x + a - 1) / a && x <= k * a < x + a
  {
    k := (x + a - 1) / a;
    assert x + a - 1 == k * a + (x + a - 1) % a;
  }

  /** Rounding up in 16 bits loses the request when it is within one alignment
      unit of 65536: it then wraps to zero. */
  lemma AlignSizeEnough(size: u16, align: nat)
    requires 0 < size && 0 < align && TWO16 % align == 0
    ensures AlignSize(size, align) >= size <==> size <= TWO16 - align
  {
    var k := RoundUp(size, align);
    var m := TWO16 / align;
    assert m * align == TWO16;
    if size > TWO16 - align {
      NearMultiples(k, m, align);
    }
  }

  lemma MultipleIs(x: int, a: int) returns (k: int)
    requires Multiple(x, a)
    ensures x == k * a
  {
    k :| x == Times(k, a);
  }

  /** A request that does not wrap is rounded to the least multiple of the alignment that holds it and the minimum; one
      that wraps is rounded to the minimum. */
  lemma RoundedIs(size: u16, align: nat, l: Layout)
    requires 0 < size && 0 < align && TWO16 % align == 0 && AlignedLayout(l, align)
    ensures size <= TWO16 - align ==> Rounded(size, align, l) >= size
    ensures size <= TWO16 - align ==>
              forall n :: Multiple(n, align) && n >= size && n >= l.min ==> n >= Rounded(size, align, l)
    ensures size > TWO16 - align ==> Rounded(size, align, l) == l.min
  {
    AlignSizeEnough(size, align);
    var k := RoundUp(size, align);
    var m := TWO16 / align;
    assert m * align == TWO16;
    if size <= TWO16 - align {
      BelowWrap(k, m, align, size);
      forall n | Multiple(n, align) && n >= size && n >= l.min ensures n >= Rounded(size, align, l) {
        var j := MultipleIs(n, align);
        LeastMultiple(j, k, align, size);
      }
    } else {
      NearMultiples(k, m, align);
    }
  }

  lemma AtLeastMinimum(size: u16, align: nat, l: Layout)
    requires align > 0
    ensures Rounded(size, align, l) >= l.min
  {
  }

  lemma BelowWrap(k: int, m: int, a: int, size: int)
    requires a > 0 && size <= k * a < size + a && m * a == TWO16 && size <= TWO16 - a
    ensures 0 <= k * a < TWO16 || size < 0
  {
  }

  lemma LeastMultiple(j: int, k: int, a: int, x: int)
    requires a > 0 && j * a >= x && k * a < x + a
    ensures j * a >= k * a
  {
    if j < k {
      MulAtLeast(k - j, a);
    } else {
      MulMonotone(j - k, a);
    }
  }

  lemma MulMonotone(d: nat, a: nat)
    ensures d * a >= 0
  {
  }

  /** With an alignment of four, a request for 65535 bytes is granted as one for the minimum. */
  lemma AlignSizeExample(l: Layout)
    ensures Rounded(65535, 4, l) == l.min
  {
  }

  /** The sizes that mem.c rounds up to the alignment at compile time. */
  ghost predicate AlignedLayout(l: Layout, align: nat) {
    Multiple(l.hdr, align) && Multiple(l.min, align) && Multiple(l.size, align)
  }

  /** A power of two keeps multiples multiples when they wrap. */
  lemma WrapMultiple(k: nat, a: nat)
    requires a > 0 && TWO16 % a == 0
    ensures Multiple(Wrap16(k * a), a)
  {
    var m, q := TWO16 / a, k * a / TWO16;
    assert m * a == TWO16;
    assert q * TWO16 == q * m * a;
    assert Wrap16(k * a) == k * a - q * m * a == Times(k - q * m, a);
  }

  lemma RoundedAligned(size: u16, align: nat, l: Layout)
    requires 0 < align && TWO16 % align == 0 && AlignedLayout(l, align)
    ensures Multiple(Rounded(size, align, l), align)
  {
    WrapMultiple((size + align - 1) / align, align);
  }

  /** The data behind an aligned block's header is aligned. */
  lemma DataAligned(bs: Blocks, p: nat, l: Layout, a: nat)
    requires Aligned(bs, a) && AlignedLayout(l, a) && Boundary(bs, 0, p)
    ensures Multiple(p + l.hdr, a)
  {
    assert 0 == Times(0, a);
    BoundaryAligned(bs, 0, p, a);
    Multiples(p, l.hdr, a);
  }

  class Heap {
    const l: Layout
    const align: nat
    var ram: Ram
    var lfree: nat
    var used: nat          // lwip_stats.mem.used

    ghost var bs: Blocks   // the blocks the headers describe

    ghost predicate Valid()
      reads this
    {
      && align > 0 && TWO16 % align == 0 && AlignedLayout(l, align) && Aligned(bs, align)
      && Described(ram, bs, l) && Coalesced(bs)
      && lfree == LowestFree(bs, 0)
      && used == InUse(bs)
    }

    /** mem_init */
    constructor (l: Layout, align: nat)
      requires l.Valid() && align > 0 && TWO16 % align == 0 && AlignedLayout(l, align)
      ensures Valid() && this.l == l && this.align == align
      ensures bs == Blk(l.size, false, End)
    {
      this.l, this.align := l, align;
      ram := map[0 := Mem(l.size, 0, false), l.size := Mem(l.size, l.size, true)];
      lfree, used := 0, 0;
      bs := Blk(l.size, false, End);
      new;
      assert Sum(bs.tail) == 0 && InUse(bs.tail) == 0 && Coalesced(bs.tail) && Roomy(bs.tail, l);
      assert Headers(ram, bs.tail, l.size, 0);
    }

    // ----- mem_malloc -----

    /** Take the free block at `ptr`, splitting off the surplus if it can be a block. */
    method TakeBlock(ptr: nat, need: nat)
      requires Valid() && l.min <= need && FitsAt(bs, 0, ptr, need, l)
      modifies this`ram, this`used, this`bs
      ensures bs == Allocate(old(bs), 0, ptr, need, l) && Headers(ram, bs, 0, 0) && used == InUse(bs)
      ensures l.size in ram && ram[l.size].used && ram[l.size].next == l.size
    {
      ghost var b := From(bs, 0, ptr);
      HeaderAt(ram, bs, 0, 0, ptr, l);
      AllocateIsCut(bs, 0, ptr, need, l);
      AllocateInUse(bs, 0, ptr, need, l);
      var mem := ram[ptr];
      if mem.next - (ptr + l.hdr) >= need + l.hdr + l.min {
        var ptr2 := ptr + l.hdr + need;
        CutHeaders(ram, bs, 0, 0, ptr, ptr2, mem.next, l.size, l);
        ram := CutRam(ram, ptr, ptr2, mem.next, l.size);
        used := used + need + l.hdr;
      } else {
        MarkHeaders(ram, bs, 0, 0, ptr, true, l);
        ram := MarkRam(ram, ptr, true);
        used := used + (mem.next - ptr);
      }
      AllocatedSize(bs, 0, ptr, need, l);
      bs := Allocate(bs, 0, ptr, need, l);
    }

    /** Find the next free block at or after `cur`. */
    method NextFree(start: nat) returns (cur: nat)
      requires l.Valid() && Roomy(bs, l) && Sum(bs) == l.size && Headers(ram, bs, 0, 0) && Boundary(bs, 0, start)
      requires l.size in ram && ram[l.size].used
      ensures cur == LowestFree(From(bs, 0, start), start)
    {
      hide Headers;
      cur := start;
      HeaderAt(ram, bs, 0, 0, cur, l);
      while cur != l.size && ram[cur].used
        invariant Boundary(bs, 0, cur) && cur <= l.size && cur in ram
        invariant LowestFree(From(bs, 0, start), start) == LowestFree(From(bs, 0, cur), cur)
        decreases l.size - cur
      {
        HeaderAt(ram, bs, 0, 0, cur, l);
        BoundaryAbove(bs, 0, ram[cur].next);
        HeaderAt(ram, bs, 0, 0, ram[cur].next, l);
        cur := ram[cur].next;
      }
      HeaderAt(ram, bs, 0, 0, cur, l);
    }

    /** Take the block and move `lfree` on when it was the lowest free one. */
    method Claim(ptr: nat, need: nat)
      requires Valid() && l.min <= need && Multiple(need, align) && FitsAt(bs, 0, ptr, need, l)
      modifies this`ram, this`lfree, this`used, this`bs
      ensures Valid() && bs == Allocate(old(bs), 0, ptr, need, l)
    {
      AllocateWellFormed(bs, 0, ptr, need, l);
      AllocateLowest(bs, 0, ptr, need, l);
      AllocateAligned(bs, 0, ptr, need, l, align);
      var wasLowest := ptr == lfree;
      TakeBlock(ptr, need);
      if wasLowest {
        lfree := NextFree(lfree);
      }
    }

    /** mem_malloc; the result is the offset of the data, which reach to `end`. */
    method MemMalloc(size: u16) returns (r: Option<nat>, ghost end: nat)
      requires Valid()
      modifies this`ram, this`lfree, this`used, this`bs
      ensures Valid()
      ensures var need := Rounded(size, align, l);
              match r
              case None =>
                && bs == old(bs)
                && (size == 0 || forall q :: !FitsAt(bs, 0, q, need, l))
              case Some(p) =>
                && size > 0 && p >= l.hdr && Multiple(p, align) && FitsAt(old(bs), 0, p - l.hdr, need, l)
                && (forall q :: FitsAt(old(bs), 0, q, need, l) ==> p - l.hdr <= q)
                && bs == Allocate(old(bs), 0, p - l.hdr, need, l)
      ensures r.Some? ==>
                && Live(bs, 0, l) == old(Live(bs, 0, l)) + {(r.value, end)} && (r.value, end) !in old(Live(bs, 0, l))
                && r.value + Rounded(size, align, l) <= end < r.value + Rounded(size, align, l) + l.hdr + l.min
                && (size <= TWO16 - align ==> r.value + size <= end)
    {
      hide AlignedLayout, Multiple, Roomy, Coalesced, Live, Allocate, FirstFit, Rounded;
      end := 0;
      if size == 0 {
        return None, 0;
      }
      RoundedIs(size, align, l);
      RoundedAligned(size, align, l);
      AtLeastMinimum(size, align, l);
      var need := Rounded(size, align, l);
      FirstFitFacts(bs, 0, need, l);
      var ptr := Search(need);
      if ptr.Some? {
        DataAligned(bs, ptr.value, l, align);
        AllocatedRegion(bs, ptr.value, need, l);
        Claim(ptr.value, need);
        return Some(ptr.value + l.hdr), ptr.value + SizeAt(bs, 0, ptr.value);
      }
      return None, 0;
    }

    /** The search of mem_malloc, from `lfree` on and only as far as `need` bytes could fit. */
    method Search(need: nat) returns (r: Option<nat>)
      requires Valid()
      ensures r == FirstFit(bs, 0, need, l)
    {
      if need > l.size {
        NoRoomAbove(bs, 0, need, l);
        return None;
      }
      LowestFreeFacts(bs, 0, l);
      FirstFitFromLowest(bs, 0, need, l);
      var ptr := lfree;
      while ptr < l.size - need
        invariant Boundary(bs, 0, ptr) && ptr <= l.size
        invariant FirstFit(bs, 0, need, l) == FirstFit(From(bs, 0, ptr), ptr, need, l)
        decreases l.size - ptr
      {
        HeaderAt(ram, bs, 0, 0, ptr, l);
        var mem := ram[ptr];
        if !mem.used && mem.next - (ptr + l.hdr) >= need {
          return Some(ptr);
        }
        BoundaryAbove(bs, 0, mem.next);
        ptr := mem.next;
      }
      HeaderAt(ram, bs, 0, 0, ptr, l);
      NoRoomAbove(From(bs, 0, ptr), ptr, need, l);
      return None;
    }

    // ----- mem_free -----

    /** The headers describe `bs`, and the end marker is in place. */
    ghost predicate Linked()
      reads this
    {
      Described(ram, bs, l)
    }

    /** The block at `p` swallows the next one. */
    method JoinBlocks(p: nat, n: nat)
      requires Linked() && Boundary(bs, 0, p) && From(bs, 0, p).Blk? && From(bs, 0, p).tail.Blk?
      requires n == p + From(bs, 0, p).size
      modifies this`ram, this`bs
      ensures Linked() && bs == JoinAt(old(bs), 0, p)
      ensures p in ram && p in old(ram) && ram[p].prev == old(ram)[p].prev
    {
      HeaderAt(ram, bs, 0, 0, p, l);
      HeaderAt(ram, bs, 0, 0, n, l);
      JoinHeaders(ram, bs, 0, 0, p, l);
      JoinTotals(bs, 0, p, l);
      BoundaryAbove(bs, 0, n);
      ram := JoinRam(ram, p, n);
      bs := JoinAt(bs, 0, p);
    }

    /** plug_holes, forward. */
    method PlugNext(mem: nat)
      requires Linked() && Boundary(bs, 0, mem) && From(bs, 0, mem).Blk?
      modifies this`ram, this`lfree, this`bs
      ensures Linked() && bs == PlugForward(old(bs), 0, mem)
      ensures var b := From(old(bs), 0, mem);
              lfree == if b.tail.Blk? && !b.tail.used && old(lfree) == mem + b.size then mem else old(lfree)
      ensures mem in ram && mem in old(ram) && ram[mem].prev == old(ram)[mem].prev
    {
      HeaderAt(ram, bs, 0, 0, mem, l);
      ghost var b := From(bs, 0, mem);
      HeaderAt(ram, bs, 0, 0, mem + b.size, l);
      var nmem := ram[mem].next;
      if nmem != mem && !ram[nmem].used && nmem != l.size {
        if lfree == nmem {
          lfree := mem;
        }
        JoinBlocks(mem, nmem);
      }
    }

    /** plug_holes: combine the block at `mem`, just freed, with its free neighbours. */
    method PlugHoles(mem: nat, ghost was: Blocks)
      requires Linked() && WellFormed(was, l) && UsedAt(was, 0, mem) && bs == Mark(was, 0, mem, false)
      modifies this`ram, this`lfree, this`bs
      ensures Linked() && bs == Free(was, 0, mem)
      ensures old(lfree) < mem ==> lfree == old(lfree)
      ensures old(lfree) == mem ==> lfree == mem || exists q :: Precedes(was, 0, q, mem) && !From(was, 0, q).used
      ensures mem in old(ram)
      ensures var q := old(ram)[mem].prev;
              old(lfree) == mem && Precedes(was, 0, q, mem) && !From(was, 0, q).used ==> lfree == q
    {
      MarkFrom(was, 0, mem, l);
      PrevAt(ram, bs, 0, 0, mem, l);
      MarkedPrecedes(was, 0, ram[mem].prev, mem);
      FreeIsPlug(was, 0, ram[mem].prev, mem, l);
      if mem > 0 {
        FrontStays(was, 0, ram[mem].prev, mem, l);
      }
      PlugNext(mem);
      var pmem := ram[mem].prev;
      if mem > 0 {
        HeaderAt(ram, bs, 0, 0, pmem, l);
      }
      if pmem != mem && !ram[pmem].used {
        if lfree == mem {
          assert Precedes(was, 0, pmem, mem) && !From(was, 0, pmem).used;
          lfree := pmem;
        }
        JoinBlocks(pmem, mem);
      }
    }

    /** mem_free: `None` is NULL; an offset outside the heap is reported and ignored. */
    method MemFree(rmem: Option<int>)
      requires Valid()
      requires rmem.Some? && 0 <= rmem.value < l.size ==> l.hdr <= rmem.value && UsedAt(bs, 0, rmem.value - l.hdr)
      modifies this`ram, this`lfree, this`used, this`bs
      ensures Valid()
      ensures bs == if rmem.Some? && 0 <= rmem.value < l.size then Free(old(bs), 0, rmem.value - l.hdr)
                    else old(bs)
    {
      if rmem == None || rmem.value < 0 || rmem.value >= l.size {
        return;
      }
      var mem: nat := rmem.value - l.hdr;
      ghost var was := bs;
      HeaderAt(ram, bs, 0, 0, mem, l);
      MarkHeaders(ram, bs, 0, 0, mem, false, l);
      MarkFrom(bs, 0, mem, l);
      FreeWellFormed(bs, 0, mem, l);
      FreeInUse(bs, 0, mem, l);
      FreeLowest(bs, 0, mem, l);
      FreeAligned(bs, 0, mem, align);
      LowestFreeIsLowest(bs, 0, mem, l);
      ram := MarkRam(ram, mem, false);
      bs := Mark(bs, 0, mem, false);
      if mem < lfree {
        lfree := mem;
      }
      InUseAt(was, 0, mem);
      used := used - (ram[mem].next - mem);
      PlugHoles(mem, was);
    }

    // ----- mem_trim -----

    /** Cut the used block at `p` at `q`; what lies between `q` and `e` becomes one free block. */
    method CutBlock(p: nat, q: nat, e: nat)
      requires Linked() && Boundary(bs, 0, p) && Boundary(bs, 0, e) && p < q < e <= l.size
      requires From(bs, 0, p).Blk? && Roomy(CutAt(bs, 0, p, q, e), l) && Sum(CutAt(bs, 0, p, q, e)) == Sum(bs)
      modifies this`ram, this`bs
      ensures Linked() && bs == CutAt(old(bs), 0, p, q, e)
    {
      HeaderAt(ram, bs, 0, 0, p, l);
      CutHeaders(ram, bs, 0, 0, p, q, e, l.size, l);
      ram := CutRam(ram, p, q, e, l.size);
      bs := CutAt(bs, 0, p, q, e);
    }

    /** The data of the used block at `ptr` shrinks from `had` to `n` bytes. */
    method ShrinkBlock(ptr: nat, had: nat, n: nat)
      requires Valid() && UsedAt(bs, 0, ptr) && l.min <= n < had && l.hdr + had == SizeAt(bs, 0, ptr)
      modifies this`ram, this`lfree, this`used, this`bs
      ensures Linked() && bs == Trim(old(bs), 0, ptr, n, l)
      ensures var got := SizeAt(bs, 0, ptr);
              && old(used) == used + l.hdr + had - got
              && (lfree == if got < l.hdr + had && ptr < old(lfree) then ptr + got else old(lfree))
    {
      TrimReady(ram, bs, ptr, n, l);
      LowestOutside(bs, 0, ptr, l);
      InUseAt(bs, 0, ptr);
      var mem2 := ram[ptr].next;
      var ptr2 := ptr + l.hdr + n;
      var cut, e := false, mem2;
      if !ram[mem2].used {
        cut, e := true, ram[mem2].next;
        if lfree == mem2 {
          lfree := ptr2;
        }
      } else if n + l.hdr + l.min <= had {
        cut := true;
        if ptr2 < lfree {
          lfree := ptr2;
        }
      }
      if cut {
        CutBlock(ptr, ptr2, e);
        used := used - (had - n);
      }
    }

    /** mem_trim: shrink a live region; `None` if it would have to grow. */
    method MemTrim(rmem: int, size: u16) returns (r: Option<int>, ghost end: nat)
      requires Valid()
      requires 0 <= rmem < l.size ==> l.hdr <= rmem && UsedAt(bs, 0, rmem - l.hdr)
      modifies this`ram, this`lfree, this`used, this`bs
      ensures Valid()
      ensures var n := Rounded(size, align, l);
              if n > l.size then r == None && bs == old(bs)
              else if !(0 <= rmem < l.size) then r == Some(rmem) && bs == old(bs)
              else if l.hdr + n > SizeAt(old(bs), 0, rmem - l.hdr) then r == None && bs == old(bs)
              else r == Some(rmem) && bs == Trim(old(bs), 0, rmem - l.hdr, n, l)
      ensures 0 <= rmem < l.size && r.Some? ==>
                var was := rmem - l.hdr + SizeAt(old(bs), 0, rmem - l.hdr);
                && Live(bs, 0, l) == old(Live(bs, 0, l)) - {(rmem, was)} + {(rmem, end)}
                && rmem + Rounded(size, align, l) <= end <= was
                && (size <= TWO16 - align ==> rmem + size <= end)
    {
      hide Multiple, Live, Trim, Roomy, Coalesced, Rounded;
      AtLeastMinimum(size, align, l);
      var n := Rounded(size, align, l);
      end := 0;
      if n > l.size {
        return None, 0;
      }
      if rmem < 0 || rmem >= l.size {
        return Some(rmem), 0;
      }
      var ptr: nat := rmem - l.hdr;
      HeaderAt(ram, bs, 0, 0, ptr, l);
      var had := ram[ptr].next - ptr - l.hdr;
      if n > had {
        return None, 0;
      }
      r := Some(rmem);
      TrimmedRegion(bs, ptr, size, align, l);
      end := ptr + SizeAt(Trim(bs, 0, ptr, n, l), 0, ptr);
      if n == had {
        TrimNothing(bs, 0, ptr, n, l);
        return;
      }
      TrimWellFormed(bs, 0, ptr, n, l);
      TrimInUse(bs, 0, ptr, n, l);
      TrimLowest(bs, 0, ptr, n, l);
      RoundedAligned(size, align, l);
      TrimAligned(bs, 0, ptr, n, l, align);
      ShrinkBlock(ptr, had, n);
    }
  }

  /** The region that is left after trimming a used block. */
  lemma TrimmedRegion(bs: Blocks, p: nat, size: u16, align: nat, l: Layout)
    requires Roomy(bs, l) && l.Valid() && UsedAt(bs, 0, p)
    requires 0 < align && TWO16 % align == 0 && AlignedLayout(l, align)
    requires l.min <= Rounded(size, align, l) && l.hdr + Rounded(size, align, l) <= SizeAt(bs, 0, p)
    ensures var n := Rounded(size, align, l);
            var bs' := Trim(bs, 0, p, n, l);
            var was, got := SizeAt(bs, 0, p), SizeAt(bs', 0, p);
            && l.hdr + n <= got <= was && (size <= TWO16 - align ==> l.hdr + size <= got)
            && Live(bs', 0, l) == Live(bs, 0, l) - {(p + l.hdr, p + was)} + {(p + l.hdr, p + got)}
  {
    hide Rounded, AlignedLayout, Roomy, Live, Trim;
    if size > 0 {
      RoundedIs(size, align, l);
    }
    TrimLive(bs, 0, p, Rounded(size, align, l), l);
  }

  /** The region that an allocation adds: new, and no larger than a block must be. */
  lemma AllocatedRegion(bs: Blocks, p: nat, need: nat, l: Layout)
    requires Roomy(bs, l) && l.Valid() && need >= l.min && FitsAt(bs, 0, p, need, l)
    ensures var bs' := Allocate(bs, 0, p, need, l);
            var region := (p + l.hdr, p + SizeAt(bs', 0, p));
            && Live(bs', 0, l) == Live(bs, 0, l) + {region} && region !in Live(bs, 0, l)
            && region.0 + need <= region.1 < region.0 + need + l.hdr + l.min
  {
    AllocateLive(bs, 0, p, need, l);
    AllocatedSize(bs, 0, p, need, l);
  }

  /** Blocks that together are smaller than a header and `need` bytes fit nothing. */
  lemma {:induction false} NoRoomAbove(bs: Blocks, off: nat, need: nat, l: Layout)
    requires Sum(bs) < l.hdr + need
    ensures FirstFit(bs, off, need, l) == None
  {
    if bs.Blk? {
      NoRoomAbove(bs.tail, off + bs.size, need, l);
    }
  }
}
