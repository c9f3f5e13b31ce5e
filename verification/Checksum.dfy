/** The three versions of `lwip_standard_chksum` in inet_chksum.c.

    Data is a byte sequence at address `addr`; a 16- or 32-bit load reads
    little-endian.  All 32-bit accumulators wrap.
 */
module Checksum {
  import opened Words
  import opened ChecksumSpec

  function Load16(b: seq<byte>, i: nat): u16
    requires i + 1 < |b|
  {
    b[i] as int + 256 * (b[i + 1] as int)
  }

  function Load32(b: seq<byte>, i: nat): u32
    requires i + 3 < |b|
  {
    Load16(b, i) + TWO16 * Load16(b, i + 2)
  }

  lemma Suffix2(b: seq<byte>, i: nat)
    requires i + 2 <= |b|
    ensures WordSum(b[i..]) == Load16(b, i) + WordSum(b[i + 2..])
    ensures BigSum(b[i..]) == 256 * b[i] + b[i + 1] + BigSum(b[i + 2..])
  {
    assert b[i..][2..] == b[i + 2..];
  }

  lemma Suffix1(b: seq<byte>, i: nat)
    requires i + 1 == |b|
    ensures WordSum(b[i..]) == b[i] && BigSum(b[i..]) == 256 * (b[i] as int)
  {
    assert b[i..] == [b[i]];
  }

  /** `acc += x` in 32 bits, where no carry is lost. */
  method AddNoCarry(acc: u32, x: int) returns (r: u32)
    requires 0 <= x && acc + x < TWO32
    ensures r == acc + x
  {
    r := Add32(acc, x);
  }

  /** The loop of version 1: words in network byte order; no carry is lost. */
  method SumBig(data: seq<byte>) returns (acc: u32)
    requires |data| <= 0x20000
    ensures acc == BigSum(data)
  {
    WordSumBound(data);
    acc := 0;
    var i, len := 0, |data|;
    assert data[0..] == data;
    while len > 1
      invariant 0 <= i && len == |data| - i && len >= 0
      invariant acc + BigSum(data[i..]) == BigSum(data)
    {
      Suffix2(data, i);
      var src: u16 := 256 * (data[i] as int) + data[i + 1] as int;
      acc := AddNoCarry(acc, src);
      i, len := i + 2, len - 2;
    }
    if len > 0 {
      Suffix1(data, i);
      acc := AddNoCarry(acc, 256 * (data[i] as int));
    }
  }

  /** Version 1: two bytes at a time in network byte order. */
  method Chksum1(data: seq<byte>) returns (r: u16)
    requires |data| <= 0x20000
    ensures r == Chksum(data)
  {
    var acc := SumBig(data);
    FoldTwice(acc);
    FoldSame(acc);
    acc := Fold(acc);
    if acc / TWO16 != 0 {
      acc := Fold(acc);
    }
    BigSumSwapped(data);
    r := Swap(acc);
  }

  /** The 16-bit loop: add the words from index `from` on; no carry is lost. */
  method SumWords(data: seq<byte>, from: nat, start: u32) returns (sum: u32, tail: byte)
    requires from <= |data| && start < TWO32 - M * ((|data| - from) / 2)
    ensures sum + tail == start + WordSum(data[from..])
    ensures sum <= start + M * ((|data| - from) / 2)
  {
    sum, tail := start, 0;
    var i, len := from, |data| - from;
    while len > 1
      invariant from <= i && len == |data| - i && len >= 0
      invariant sum + WordSum(data[i..]) == start + WordSum(data[from..])
      invariant sum <= start + M * ((i - from) / 2) && (i - from) % 2 == 0
    {
      Suffix2(data, i);
      sum := AddNoCarry(sum, Load16(data, i));
      i, len := i + 2, len - 2;
    }
    if len > 0 {
      Suffix1(data, i);
      tail := data[i];
    }
  }

  /** What versions 2 and 3 sum from address `addr`: at an odd address the first byte
      becomes a high byte, which exchanges the byte order of the whole sum. */
  function Target(data: seq<byte>, addr: nat): nat { if addr % 2 == 1 then BigSum(data) else WordSum(data) }

  lemma HeadByte(data: seq<byte>, addr: nat)
    ensures addr % 2 == 1 && |data| > 0 ==> Target(data, addr) == 256 * (data[0] as int) + WordSum(data[1..])
    ensures !(addr % 2 == 1 && |data| > 0) ==> Target(data, addr) == WordSum(data[0..])
  {
    assert data[0..] == data;
    if |data| > 0 {
      assert data == [data[0]] + data[1..];
      AfterOneByte(data[0], data[1..]);
    }
  }

  /** Fold and, if the address was odd, exchange the bytes. */
  method Finish(sum0: u32, odd: bool, ghost data: seq<byte>, ghost addr: nat) returns (r: u16)
    requires odd == (addr % 2 == 1) && Same(sum0, Target(data, addr))
    ensures r == Chksum(data)
  {
    FoldTwice(sum0);
    CanonSame(sum0, Target(data, addr));
    BigSumSwapped(data);
    var sum := Fold(Fold(sum0));
    r := if odd then Swap(sum) else sum;
  }

  /** Version 2: 16 bits at a time after aligning to an even address. */
  method Chksum2(data: seq<byte>, addr: nat) returns (r: u16)
    requires |data| <= 0x20000
    ensures r == Chksum(data)
  {
    var odd := addr % 2 == 1;
    var t1: byte, i := 0, 0;
    HeadByte(data, addr);
    if odd && |data| > 0 {
      t1, i := data[0], 1;
    }
    var sum, t0 := SumWords(data, i, 0);
    sum := AddNoCarry(sum, t0 as int + 256 * (t1 as int));
    r := Finish(sum, odd, data, addr);
  }

  /** 32-bit addition with the carry added back. */
  method AddCarry(a: u32, x: u32) returns (r: u32)
    ensures r == if a + x < TWO32 then a + x else a + x - (TWO32 - 1)
  {
    r := Add32(a, x);
    if r < a {
      r := r + 1;
    }
  }

  /** One 32-bit word of the unrolled loop: the sum of its halves is added, up to a
      multiple of 0xFFFF that `k` accounts for. */
  method AddLong(data: seq<byte>, i: nat, sum: u32, ghost goal: nat, ghost k: int) returns (r: u32, ghost k': int)
    requires i + 4 <= |data|
    requires sum + WordSum(data[i..]) + M * k == goal && (sum + WordSum(data[i..]) == 0 <==> goal == 0)
    ensures r + WordSum(data[i + 4..]) + M * k' == goal && (r + WordSum(data[i + 4..]) == 0 <==> goal == 0)
  {
    Suffix2(data, i);
    Suffix2(data, i + 2);
    r := AddCarry(sum, Load32(data, i));
    k' := k - Load16(data, i + 2) + if sum + Load32(data, i) < TWO32 then 0 else 65537;
  }

  /** The unrolled loop of version 3: eight bytes at a time with carries added back. */
  method SumLongs(data: seq<byte>, from: nat, start: u32) returns (sum: u32, i: nat)
    requires from <= |data|
    ensures from <= i <= |data| && |data| - i <= 7
    ensures Same(sum + WordSum(data[i..]), start + WordSum(data[from..]))
  {
    sum, i := start, from;
    var len := |data| - from;
    ghost var goal, k := start + WordSum(data[from..]), 0;
    while len > 7
      invariant from <= i && len == |data| - i && len >= 0
      invariant sum + WordSum(data[i..]) + M * k == goal && (sum + WordSum(data[i..]) == 0 <==> goal == 0)
    {
      sum, k := AddLong(data, i, sum, goal, k);
      sum, k := AddLong(data, i + 4, sum, goal, k);
      i, len := i + 8, len - 8;
    }
    SameWitness(sum + WordSum(data[i..]), goal, k);
  }

  lemma SameWitness(a: nat, b: nat, k: int)
    requires a + M * k == b && (a == 0 <==> b == 0)
    ensures Same(a, b)
  {
  }

  /** The head of version 3: an odd first byte, then one word if that reaches a multiple of four. */
  method AlignHead(data: seq<byte>, addr: nat) returns (t1: byte, sum: u16, i: nat)
    ensures i <= |data| && 256 * (t1 as int) + sum + WordSum(data[i..]) == Target(data, addr)
  {
    t1, i, sum := 0, 0, 0;
    HeadByte(data, addr);
    if addr % 2 == 1 && |data| > 0 {
      t1, i := data[0], 1;
    }
    if (addr + i) % 4 != 0 && |data| - i > 1 {
      Suffix2(data, i);
      sum := Load16(data, i);
      i := i + 2;
    }
  }

  /** Version 3: 32 bits at a time after aligning to a multiple of four. */
  method Chksum3(data: seq<byte>, addr: nat) returns (r: u16)
    ensures r == Chksum(data)
  {
    var t1, head, i := AlignHead(data, addr);
    ghost var words := head + WordSum(data[i..]);
    var sum;
    sum, i := SumLongs(data, i, head);
    FoldSame(sum);
    SameAddOn(Fold(sum), sum, WordSum(data[i..]), words);
    var tail;
    sum, tail := SumWords(data, i, Fold(sum));
    sum := AddNoCarry(sum, tail as int + 256 * (t1 as int));
    SameAddMore(sum, 256 * (t1 as int), words);
    r := Finish(sum, addr % 2 == 1, data, addr);
  }

  lemma SameAddOn(a: int, b: int, c: nat, w: nat)
    requires Same(a, b) && Same(b + c, w)
    ensures Same(a + c, w)
  {
  }

  lemma SameAddMore(a: int, t: nat, w: nat)
    requires a >= t && Same(a - t, w)
    ensures Same(a, w + t)
  {
  }
}
