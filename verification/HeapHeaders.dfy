/** Block headers in memory.

    mem.c keeps, at the start of every block, the offsets of the next and of
    the previous block and a used flag.  Memory is modelled as a map from
    offsets to headers.  The functions are the groups of writes that mem.c
    performs; the lemmas say which list of blocks the headers describe afterwards.
 */
module HeapHeaders {
  import opened Words
  import opened HeapBlocks

  /** struct mem */
  datatype Mem = Mem(next: nat, prev: nat, used: bool)

  type Ram = map<nat, Mem>

  /** The headers from `off` on describe `bs`; `prev` is the block before. */
  ghost predicate Headers(ram: Ram, bs: Blocks, off: nat, prev: nat) {
    bs.Blk? ==>
      && off in ram && ram[off] == Mem(off + bs.size, prev, bs.used)
      && Headers(ram, bs.tail, off + bs.size, off)
  }

  function SetPrev(ram: Ram, x: nat, prev: nat): Ram { if x in ram then ram[x := ram[x].(prev := prev)] else ram }

  // ----- Three groups of writes and what they do to the list -----

  /** Set the used flag of a header. */
  function MarkRam(ram: Ram, p: nat, used: bool): Ram
    requires p in ram
  {
    ram[p := ram[p].(used := used)]
  }

  function Mark(bs: Blocks, off: nat, p: nat, used: bool): Blocks {
    if bs.End? then bs
    else if off == p then bs.(used := used)
    else bs.(tail := Mark(bs.tail, off + bs.size, p, used))
  }

  /** Combine the block at `p` with the next one, at `n`. */
  function JoinRam(ram: Ram, p: nat, n: nat): Ram
    requires p in ram && n in ram
  {
    SetPrev(ram[p := ram[p].(next := ram[n].next)], ram[n].next, p)
  }

  function JoinAt(bs: Blocks, off: nat, p: nat): Blocks {
    if bs.End? then bs
    else if off == p then (if bs.tail.Blk? then Blk(bs.size + bs.tail.size, bs.used, bs.tail.tail) else bs)
    else bs.(tail := JoinAt(bs.tail, off + bs.size, p))
  }

  /** Cut the block at `p` at `q` and make what lies between `q` and the block at `e` one free block. */
  function CutRam(ram: Ram, p: nat, q: nat, e: nat, end: nat): Ram
    requires p in ram
  {
    var r := ram[q := Mem(e, p, false)][p := Mem(q, ram[p].prev, true)];
    if e != end then SetPrev(r, e, q) else r
  }

  function CutAt(bs: Blocks, off: nat, p: nat, q: nat, e: nat): Blocks
    requires p <= q <= e
  {
    if bs.End? then bs
    else if off == p then Blk(q - p, true, Blk(e - q, false, From(bs, off, e)))
    else bs.(tail := CutAt(bs.tail, off + bs.size, p, q, e))
  }

  // ----- Reading headers -----

  lemma {:induction false} HeaderAt(ram: Ram, bs: Blocks, off: nat, prev: nat, p: nat, l: Layout)
    requires Headers(ram, bs, off, prev) && Boundary(bs, off, p) && Roomy(bs, l) && l.min > 0
    ensures var b := From(bs, off, p);
            && Roomy(b, l) && p + Sum(b) == off + Sum(bs)
            && (b.Blk? ==> p in ram && ram[p].next == p + b.size && ram[p].used == b.used && Boundary(bs, off, p + b.size)
                           && From(bs, off, p + b.size) == b.tail)
  {
    if off == p {
      if bs.Blk? {
        assert From(bs, off, off + bs.size) == From(bs.tail, off + bs.size, off + bs.size) == bs.tail;
      }
    } else {
      HeaderAt(ram, bs.tail, off + bs.size, off, p, l);
    }
  }

  lemma {:induction false} Frame(ram: Ram, bs: Blocks, off: nat, prev: nat, x: nat, m: Mem, l: Layout)
    requires Headers(ram, bs, off, prev) && Roomy(bs, l) && l.min > 0
    requires x < off || off + Sum(bs) <= x
    ensures Headers(ram[x := m], bs, off, prev)
  {
    if bs.Blk? {
      Frame(ram, bs.tail, off + bs.size, off, x, m, l);
    }
  }

  /** The block in front of `bs` now starts at `prev'`. */
  lemma Reprev(ram: Ram, bs: Blocks, off: nat, prev: nat, prev': nat, l: Layout)
    requires Headers(ram, bs, off, prev) && Roomy(bs, l) && l.min > 0
    ensures Headers(SetPrev(ram, off, prev'), bs, off, prev')
  {
    if bs.Blk? {
      Frame(ram, bs.tail, off + bs.size, off, off, ram[off].(prev := prev'), l);
    }
  }

  // ----- The lists after the writes -----

  lemma {:induction false} MarkHeaders(ram: Ram, bs: Blocks, off: nat, prev: nat, p: nat, used: bool, l: Layout)
    requires Headers(ram, bs, off, prev) && Boundary(bs, off, p) && From(bs, off, p).Blk? && Roomy(bs, l) && l.min > 0
    ensures p in ram && Headers(MarkRam(ram, p, used), Mark(bs, off, p, used), off, prev)
  {
    if off == p {
      Frame(ram, bs.tail, off + bs.size, off, p, ram[p].(used := used), l);
    } else {
      BoundaryAbove(bs.tail, off + bs.size, p);
      MarkHeaders(ram, bs.tail, off + bs.size, off, p, used, l);
    }
  }

  lemma {:induction false} JoinHeaders(ram: Ram, bs: Blocks, off: nat, prev: nat, p: nat, l: Layout)
    requires Headers(ram, bs, off, prev) && Boundary(bs, off, p) && Roomy(bs, l) && l.min > 0
    requires From(bs, off, p).Blk? && From(bs, off, p).tail.Blk?
    ensures p in ram && ram[p].next in ram && Headers(JoinRam(ram, p, ram[p].next), JoinAt(bs, off, p), off, prev)
  {
    if off == p {
      var n, t := off + bs.size, bs.tail;
      var m := ram[p].(next := ram[n].next);
      Frame(ram, t.tail, n + t.size, n, p, m, l);
      Reprev(ram[p := m], t.tail, n + t.size, n, p, l);
    } else {
      BoundaryAbove(bs.tail, off + bs.size, p);
      JoinHeaders(ram, bs.tail, off + bs.size, off, p, l);
      HeaderAt(ram, bs.tail, off + bs.size, off, p, l);
      HeaderAt(ram, bs.tail, off + bs.size, off, p + From(bs, off, p).size, l);
    }
  }

  lemma {:induction false} CutHeaders(ram: Ram, bs: Blocks, off: nat, prev: nat, p: nat, q: nat, e: nat, end: nat, l: Layout)
    requires Headers(ram, bs, off, prev) && Boundary(bs, off, p) && Boundary(bs, off, e) && Roomy(bs, l) && l.min > 0
    requires p < q < e <= end == off + Sum(bs)
    ensures p in ram && Headers(CutRam(ram, p, q, e, end), CutAt(bs, off, p, q, e), off, prev)
  {
    if off == p {
      var b := From(bs, off, e);
      var x := TailHeaders(ram, bs, off, prev, e, l);
      var r := ram[q := Mem(e, p, false)];
      Frame(ram, b, e, x, q, Mem(e, p, false), l);
      Frame(r, b, e, x, p, Mem(q, ram[p].prev, true), l);
      Reprev(r[p := Mem(q, ram[p].prev, true)], b, e, x, q, l);
    } else {
      BoundaryAbove(bs.tail, off + bs.size, p);
      CutHeaders(ram, bs.tail, off + bs.size, off, p, q, e, end, l);
    }
  }

  lemma {:induction false} TailHeaders(ram: Ram, bs: Blocks, off: nat, prev: nat, e: nat, l: Layout) returns (x: nat)
    requires Headers(ram, bs, off, prev) && Boundary(bs, off, e) && Roomy(bs, l) && l.min > 0
    ensures Headers(ram, From(bs, off, e), e, x)
    ensures Roomy(From(bs, off, e), l) && e + Sum(From(bs, off, e)) == off + Sum(bs)
  {
    if off == e {
      x := prev;
    } else {
      x := TailHeaders(ram, bs.tail, off + bs.size, off, e, l);
    }
  }

  // ----- mem.c's operations as groups of writes -----

  lemma {:induction false} AllocateIsCut(bs: Blocks, off: nat, p: nat, need: nat, l: Layout)
    requires Roomy(bs, l) && l.Valid() && FitsAt(bs, off, p, need, l)
    ensures var size := From(bs, off, p).size;
            Allocate(bs, off, p, need, l) ==
            if size >= l.hdr + need + l.hdr + l.min then CutAt(bs, off, p, p + l.hdr + need, p + size)
            else Mark(bs, off, p, true)
  {
    if off == p {
      assert From(bs, off, off + bs.size) == From(bs.tail, off + bs.size, off + bs.size) == bs.tail;
    } else {
      AllocateIsCut(bs.tail, off + bs.size, p, need, l);
    }
  }

  lemma {:induction false} TrimIsCut(bs: Blocks, off: nat, p: nat, n: nat, l: Layout)
    requires Roomy(bs, l) && l.Valid() && UsedAt(bs, off, p) && l.hdr + n < SizeAt(bs, off, p)
    ensures var b := From(bs, off, p);
            Trim(bs, off, p, n, l) ==
            if b.tail.Blk? && !b.tail.used then CutAt(bs, off, p, p + l.hdr + n, p + b.size + b.tail.size)
            else if n + l.hdr + l.min <= b.size - l.hdr then CutAt(bs, off, p, p + l.hdr + n, p + b.size)
            else bs
  {
    if off == p {
      var t, next := bs.tail, off + bs.size;
      assert From(bs, off, next) == From(t, next, next) == t;
      if t.Blk? {
        assert From(bs, off, next + t.size) == From(t, next, next + t.size) == From(t.tail, next + t.size, next + t.size) == t.tail;
      }
    } else {
      TrimIsCut(bs.tail, off + bs.size, p, n, l);
    }
  }

  /** `q` is the block in front of the one at `p`. */
  ghost predicate Precedes(bs: Blocks, off: nat, q: nat, p: nat) {
    Boundary(bs, off, q) && From(bs, off, q).Blk? && q + From(bs, off, q).size == p
  }

  /** The `prev` field leads to the block in front; the first block's leads nowhere new. */
  lemma {:induction false} PrevAt(ram: Ram, bs: Blocks, off: nat, prev: nat, p: nat, l: Layout)
    requires Headers(ram, bs, off, prev) && Boundary(bs, off, p) && From(bs, off, p).Blk? && Roomy(bs, l) && l.min > 0
    ensures p in ram && (off == p ==> ram[p].prev == prev)
    ensures off < p ==> off <= ram[p].prev < p && Precedes(bs, off, ram[p].prev, p)
  {
    if off < p {
      BoundaryAbove(bs.tail, off + bs.size, p);
      PrevAt(ram, bs.tail, off + bs.size, off, p, l);
    }
  }

  /** plug_holes, forward: the free block at `p` swallows a free successor. */
  function PlugForward(bs: Blocks, off: nat, p: nat): Blocks {
    var b := From(bs, off, p);
    if b.Blk? && b.tail.Blk? && !b.tail.used then JoinAt(bs, off, p) else bs
  }

  /** plug_holes, backward: a free predecessor at `q` swallows the free block at `p`. */
  function PlugBackward(bs: Blocks, off: nat, q: nat, p: nat): Blocks {
    var b := From(bs, off, q);
    if q < p && b.Blk? && !b.used then JoinAt(bs, off, q) else bs
  }

  lemma {:induction false} MarkFrom(bs: Blocks, off: nat, p: nat, l: Layout)
    requires Boundary(bs, off, p) && From(bs, off, p).Blk?
    ensures Boundary(Mark(bs, off, p, false), off, p)
    ensures From(Mark(bs, off, p, false), off, p) == From(bs, off, p).(used := false)
    ensures Sum(Mark(bs, off, p, false)) == Sum(bs) && (Roomy(bs, l) ==> Roomy(Mark(bs, off, p, false), l))
  {
    if off != p {
      MarkFrom(bs.tail, off + bs.size, p, l);
    }
  }

  /** Marking and plugging at `p` leave the block in front as it was. */
  lemma {:induction false} FrontStays(bs: Blocks, off: nat, q: nat, p: nat, l: Layout)
    requires Boundary(bs, off, p) && From(bs, off, p).Blk? && Precedes(bs, off, q, p) && Roomy(bs, l) && l.min > 0
    ensures var c := PlugForward(Mark(bs, off, p, false), off, p);
            && Precedes(c, off, q, p) && From(c, off, q).used == From(bs, off, q).used && From(c, off, q).tail.Blk?
            && Roomy(c, l) && Sum(c) == Sum(bs)
  {
    var next := off + bs.size;
    if off < q {
      BoundaryAbove(bs.tail, next, q);
      FrontStays(bs.tail, next, q, p, l);
      PlugSkips(bs, off, p);
    } else {
      PlugSkips(bs, off, p);
      PlugHere(bs.tail, next, l);
    }
  }

  lemma PlugSkips(bs: Blocks, off: nat, p: nat)
    requires bs.Blk? && off < p
    ensures PlugForward(Mark(bs, off, p, false), off, p) ==
            bs.(tail := PlugForward(Mark(bs.tail, off + bs.size, p, false), off + bs.size, p))
  {
  }

  lemma PlugHere(bs: Blocks, p: nat, l: Layout)
    requires bs.Blk? && Roomy(bs, l)
    ensures var c := PlugForward(Mark(bs, p, p, false), p, p);
            c == Join(bs.size, false, bs.tail) && c.Blk? && Roomy(c, l) && Sum(c) == Sum(bs)
  {
  }

  /** Freeing is marking the block and plugging the holes around it. */
  lemma {:induction false} FreeIsPlug(bs: Blocks, off: nat, q: nat, p: nat, l: Layout)
    requires Roomy(bs, l) && Coalesced(bs) && l.Valid() && UsedAt(bs, off, p)
    requires if off < p then off <= q < p && Precedes(bs, off, q, p) else q >= p
    ensures Free(bs, off, p) == PlugBackward(PlugForward(Mark(bs, off, p, false), off, p), off, q, p)
  {
    if off == p {
      PlugHere(bs, p, l);
    } else {
      var next := off + bs.size;
      PlugSkips(bs, off, p);
      BoundaryAbove(bs.tail, next, p);
      if next == p {
        assert off == q by { if off < q { BoundaryAbove(bs.tail, next, q); } }
        PlugHere(bs.tail, p, l);
      } else {
        assert off != q;
        BoundaryAbove(bs.tail, next, q);
        FreeIsPlug(bs.tail, next, q, p, l);
        FreeWellFormed(bs.tail, next, p, l);
      }
    }
  }

  // ----- The lowest free block -----

  lemma {:induction false} LowestFreeFacts(bs: Blocks, off: nat, l: Layout)
    requires Roomy(bs, l) && l.min > 0
    ensures var x := LowestFree(bs, off);
            && off <= x <= off + Sum(bs) && Boundary(bs, off, x)
            && (From(bs, off, x).Blk? ==> !From(bs, off, x).used)
            && (From(bs, off, x).End? ==> x == off + Sum(bs))
  {
    if bs.Blk? && bs.used {
      LowestFreeFacts(bs.tail, off + bs.size, l);
    }
  }

  /** No block below the lowest free one fits anything. */
  lemma {:induction false} FirstFitFromLowest(bs: Blocks, off: nat, need: nat, l: Layout)
    requires Roomy(bs, l) && l.min > 0
    ensures FirstFit(bs, off, need, l) == FirstFit(From(bs, off, LowestFree(bs, off)), LowestFree(bs, off), need, l)
  {
    if bs.Blk? && bs.used {
      LowestFreeFacts(bs.tail, off + bs.size, l);
      FirstFitFromLowest(bs.tail, off + bs.size, need, l);
    }
  }

  lemma {:induction false} AllocateLowest(bs: Blocks, off: nat, p: nat, need: nat, l: Layout)
    requires Roomy(bs, l) && l.Valid() && FitsAt(bs, off, p, need, l)
    ensures var bs', x := Allocate(bs, off, p, need, l), LowestFree(bs, off);
            && x <= p && Boundary(bs', off, p) && Boundary(bs', off, x)
            && LowestFree(bs', off) == if p == x then LowestFree(From(bs', off, p), p) else x
  {
    var next := off + bs.size;
    if off != p {
      BoundaryAbove(bs.tail, next, p);
      AllocateLowest(bs.tail, next, p, need, l);
      if bs.used {
        LowestFreeFacts(bs.tail, next, l);
      }
    }
  }

  lemma {:induction false} FreeLowest(bs: Blocks, off: nat, p: nat, l: Layout)
    requires Roomy(bs, l) && Coalesced(bs) && l.Valid() && UsedAt(bs, off, p)
    ensures LowestFree(Free(bs, off, p), off) == if p < LowestFree(bs, off) then p else LowestFree(bs, off)
  {
    var next := off + bs.size;
    if off != p {
      BoundaryAbove(bs.tail, next, p);
      FreeLowest(bs.tail, next, p, l);
    } else {
      LowestFreeFacts(bs.tail, next, l);
    }
  }

  lemma {:induction false} TrimLowest(bs: Blocks, off: nat, p: nat, n: nat, l: Layout)
    requires Roomy(bs, l) && l.Valid() && UsedAt(bs, off, p) && n >= l.min && l.hdr + n <= SizeAt(bs, off, p)
    ensures var bs' := Trim(bs, off, p, n, l);
            LowestFree(bs', off) ==
            if SizeAt(bs', off, p) < SizeAt(bs, off, p) && p < LowestFree(bs, off) then p + SizeAt(bs', off, p)
            else LowestFree(bs, off)
  {
    var next := off + bs.size;
    if off != p {
      BoundaryAbove(bs.tail, next, p);
      TrimLowest(bs.tail, next, p, n, l);
    } else {
      LowestFreeFacts(bs.tail, next, l);
    }
  }

  lemma {:induction false} JoinTotals(bs: Blocks, off: nat, p: nat, l: Layout)
    requires Roomy(bs, l)
    ensures Roomy(JoinAt(bs, off, p), l) && Sum(JoinAt(bs, off, p)) == Sum(bs)
  {
    if bs.Blk? && off != p {
      JoinTotals(bs.tail, off + bs.size, p, l);
    }
  }

  lemma {:induction false} MarkedPrecedes(bs: Blocks, off: nat, q: nat, p: nat)
    requires Boundary(bs, off, p)
    ensures q < p ==> (Precedes(Mark(bs, off, p, false), off, q, p) <==> Precedes(bs, off, q, p))
  {
    if off < p {
      MarkedPrecedes(bs.tail, off + bs.size, q, p);
    }
  }

  /** A free block in front of a used one lies at or above the lowest free block. */
  lemma {:induction false} LowestFreeIsLowest(bs: Blocks, off: nat, p: nat, l: Layout)
    requires Roomy(bs, l) && l.min > 0 && UsedAt(bs, off, p)
    ensures LowestFree(bs, off) != p
    ensures forall q :: Precedes(bs, off, q, p) && !From(bs, off, q).used ==> LowestFree(bs, off) <= q
  {
    if off == p {
      LowestFreeFacts(bs.tail, off + bs.size, l);
      forall q ensures !Precedes(bs, off, q, p) {
        if Boundary(bs, off, q) {
          BoundaryAbove(bs, off, q);
          RoomyFrom(bs, off, q, l);
        }
      }
    } else {
      var next := off + bs.size;
      BoundaryAbove(bs.tail, next, p);
      LowestFreeIsLowest(bs.tail, next, p, l);
      forall q | Precedes(bs, off, q, p) && !From(bs, off, q).used ensures LowestFree(bs, off) <= q {
        BoundaryAbove(bs, off, q);
        assert off < q && bs.used ==> Precedes(bs.tail, next, q, p);
      }
    }
  }

  /** The lowest free block is not inside a used one; if the next block is free there is none between. */
  lemma {:induction false} LowestOutside(bs: Blocks, off: nat, p: nat, l: Layout)
    requires Roomy(bs, l) && l.min > 0 && UsedAt(bs, off, p)
    ensures var b, x := From(bs, off, p), LowestFree(bs, off);
            && (x < p || x >= p + b.size)
            && (b.tail.Blk? && !b.tail.used ==> x < p || x == p + b.size)
  {
    if off == p {
      LowestFreeFacts(bs.tail, off + bs.size, l);
    } else {
      BoundaryAbove(bs.tail, off + bs.size, p);
      LowestOutside(bs.tail, off + bs.size, p, l);
    }
  }

  lemma {:induction false} RoomyFrom(bs: Blocks, off: nat, p: nat, l: Layout)
    requires Roomy(bs, l)
    ensures Roomy(From(bs, off, p), l)
  {
    if off < p && bs.Blk? {
      RoomyFrom(bs.tail, off + bs.size, p, l);
    }
  }

  lemma {:induction false} InUseAt(bs: Blocks, off: nat, p: nat)
    requires UsedAt(bs, off, p)
    ensures SizeAt(bs, off, p) <= InUse(bs)
  {
    if off != p {
      InUseAt(bs.tail, off + bs.size, p);
    }
  }

  /** The end marker is in place and the headers describe `bs`, which fills the heap. */
  ghost predicate Described(ram: Ram, bs: Blocks, l: Layout) {
    && l.Valid() && Roomy(bs, l) && Sum(bs) == l.size && Headers(ram, bs, 0, 0)
    && l.size in ram && ram[l.size].used && ram[l.size].next == l.size
  }

  /** Where mem_trim cuts: up to the end of a free successor, else up to its start
      if the surplus can be a block, else nowhere. */
  ghost function CutEnd(bs: Blocks, p: nat, n: nat, l: Layout): Option<nat> {
    var b := From(bs, 0, p);
    if b.End? then None
    else if b.tail.Blk? && !b.tail.used then Some(p + b.size + b.tail.size)
    else if n + l.hdr + l.min <= b.size - l.hdr then Some(p + b.size)
    else None
  }

  lemma TrimReady(ram: Ram, bs: Blocks, p: nat, n: nat, l: Layout)
    requires Described(ram, bs, l) && Coalesced(bs) && UsedAt(bs, 0, p) && l.min <= n && l.hdr + n < SizeAt(bs, 0, p)
    ensures var b, e, q := From(bs, 0, p), CutEnd(bs, p, n, l), p + l.hdr + n;
            && p in ram && ram[p].next == p + b.size && p + b.size in ram
            && (!ram[p + b.size].used <==> b.tail.Blk? && !b.tail.used)
            && (!ram[p + b.size].used ==> e == Some(ram[p + b.size].next))
            && (e.Some? ==> q < e.value <= l.size && Boundary(bs, 0, e.value) && CutAt(bs, 0, p, q, e.value) == Trim(bs, 0, p, n, l))
            && (e == None ==> Trim(bs, 0, p, n, l) == bs)
            && Roomy(Trim(bs, 0, p, n, l), l) && Sum(Trim(bs, 0, p, n, l)) == l.size
            && SizeAt(Trim(bs, 0, p, n, l), 0, p) == if e.Some? then l.hdr + n else b.size
  {
    var b := From(bs, 0, p);
    HeaderAt(ram, bs, 0, 0, p, l);
    HeaderAt(ram, bs, 0, 0, p + b.size, l);
    BoundaryAbove(bs, 0, p + b.size);
    if b.tail.Blk? {
      BoundaryAbove(bs, 0, p + b.size + b.tail.size);
    }
    TrimWellFormed(bs, 0, p, n, l);
    TrimIsCut(bs, 0, p, n, l);
    TrimmedSize(bs, 0, p, n, l);
  }
}
