/** Checksums over pbuf chains: `inet_chksum_pbuf`, `inet_chksum_pseudo` and the
    partial pseudo-header checksum.

    A chain is summed pbuf by pbuf.  When a pbuf has odd length the bytes that
    follow lie at odd offsets of the message, and the code exchanges the bytes
    of the running sum instead of the data.
 */
module ChecksumChain {
  import opened Words
  import opened ChecksumSpec
  import Checksum

  /** A pbuf's payload: its address and its `len` bytes. */
  datatype Part = Part(addr: nat, data: seq<byte>)

  predicate Sized(chain: seq<Part>) { forall q :: q in chain ==> |q.data| < TWO16 }

  /** The message a chain holds. */
  function Flat(chain: seq<Part>): seq<byte> {
    if chain == [] then [] else chain[0].data + Flat(chain[1..])
  }

  /** The message is in the parts, in order, and nowhere else. */
  lemma {:induction false} FlatCat(a: seq<Part>, b: seq<Part>)
    ensures Flat(a + b) == Flat(a) + Flat(b) && (|b| == 1 ==> Flat(b) == b[0].data)
    decreases |a|
  {
    if |b| == 1 {
      assert b[1..] == [];
    }
    if a == [] {
      assert a + b == b;
    } else {
      assert (a + b)[1..] == a[1..] + b;
      FlatCat(a[1..], b);
    }
  }

  /** The running sum for a total of `x`, with its bytes exchanged or not. */
  function Framed(x: nat, swapped: bool): u16 { if swapped then Canon(256 * x) else Canon(x) }

  lemma FramedSwap(x: nat, swapped: bool)
    ensures Swap(Framed(x, swapped)) == Framed(x, !swapped)
  {
    if swapped {
      SwapCanon(256 * x);
      SwapTwice(x);
    } else {
      SwapCanon(x);
    }
  }

  /** Adding the sum of `d` to a running sum that is exchanged iff `d` is at an odd offset. */
  lemma FramedAdd(x: nat, y: nat, odd: bool, d: seq<byte>)
    requires y == x + if odd then BigSum(d) else WordSum(d)
    ensures Fold(Framed(x, odd) as int + Chksum(d)) == Framed(y, odd)
  {
    if odd {
      FoldOnce(256 * x, WordSum(d));
      OddOffset(x, d);
    } else {
      FoldOnce(x, WordSum(d));
    }
  }

  /** Data at an odd offset counts, in the exchanged sum, like data at an even one. */
  lemma OddOffset(s: nat, d: seq<byte>)
    ensures Canon(256 * s + WordSum(d)) == Canon(256 * (s + BigSum(d)))
  {
    ByteOrder(d);
    SameScaled(BigSum(d), 256 * WordSum(d));
    assert 256 * (256 * WordSum(d)) == WordSum(d) + M * WordSum(d);
    SameMiddle(256 * s, WordSum(d), 256 * BigSum(d), 256 * (256 * WordSum(d)));
    CanonSame(256 * s + WordSum(d), 256 * (s + BigSum(d)));
  }

  lemma SameMiddle(s: nat, w: nat, x: nat, y: nat)
    requires Same(x, y) && Same(y, w)
    ensures Same(s + w, s + x)
  {
  }

  /** Add the first `len` bytes of a pbuf at the given offset parity to the running
      sum for `x`; the sum is exchanged by the parity of the whole pbuf. */
  method AddPart(q: Part, len: nat, acc0: u16, swapped0: bool, ghost x: nat, ghost y: nat)
    returns (acc: u16, swapped: bool)
    requires len <= |q.data| < TWO16 && acc0 == Framed(x, swapped0)
    requires y == x + if swapped0 then BigSum(q.data[..len]) else WordSum(q.data[..len])
    ensures swapped == (swapped0 != (|q.data| % 2 == 1))
    ensures acc == Framed(y, swapped)
  {
    var sum := Checksum.Chksum2(q.data[..len], q.addr);
    FramedAdd(x, y, swapped0, q.data[..len]);
    acc, swapped := Fold(acc0 as int + sum), swapped0;
    if |q.data| % 2 != 0 {
      FramedSwap(y, swapped);
      swapped := !swapped;
      acc := Swap(acc);
    }
  }

  /** The same, for a message of which `done` has been summed. */
  method AddBytes(q: Part, len: nat, acc0: u16, swapped0: bool, ghost s0: nat, ghost done: seq<byte>)
    returns (acc: u16, swapped: bool)
    requires len <= |q.data| < TWO16
    requires acc0 == Framed(s0 + WordSum(done), swapped0) && swapped0 == (|done| % 2 == 1)
    ensures swapped == (swapped0 != (|q.data| % 2 == 1))
    ensures acc == Framed(s0 + WordSum(done + q.data[..len]), swapped)
  {
    WordSumCat(done, q.data[..len]);
    acc, swapped := AddPart(q, len, acc0, swapped0, s0 + WordSum(done), s0 + WordSum(done + q.data[..len]));
  }

  /** The bytes of the first `i` pbufs. */
  function Before(chain: seq<Part>, i: nat): seq<byte>
    requires i <= |chain|
  {
    if i == 0 then [] else Before(chain, i - 1) + chain[i - 1].data
  }

  lemma {:induction false} BeforeFlat(chain: seq<Part>, i: nat)
    requires i <= |chain|
    ensures Flat(chain) == Before(chain, i) + Flat(chain[i..])
    decreases i
  {
    if i == 0 {
      assert chain[0..] == chain;
    } else {
      BeforeFlat(chain, i - 1);
      assert chain[i - 1..][1..] == chain[i..];
    }
  }

  /** The loop over the chain, starting from a canonical sum. */
  method SumChain(chain: seq<Part>, acc0: u16, ghost s0: nat) returns (acc: u16)
    requires Sized(chain) && acc0 == Canon(s0)
    ensures acc == Canon(s0 + WordSum(Flat(chain)))
  {
    acc := acc0;
    var swapped := false;
    ghost var done: seq<byte> := [];
    var i := 0;
    while i < |chain|
      invariant 0 <= i <= |chain| && done == Before(chain, i)
      invariant swapped == (|done| % 2 == 1) && acc == Framed(s0 + WordSum(done), swapped)
    {
      ghost var d := chain[i].data;
      assert d[..|d|] == d;
      acc, swapped := AddBytes(chain[i], |chain[i].data|, acc, swapped, s0, done);
      done := done + d;
      i := i + 1;
    }
    BeforeFlat(chain, |chain|);
    assert Flat(chain) == done;
    if swapped {
      FramedSwap(s0 + WordSum(done), swapped);
      acc := Swap(acc);
    }
  }

  // ----- The checksums -----

  /** One's complement of a 16-bit word. */
  function Complement(x: u16): u16 { M - x }

  /** The checksum field for a message: section 1 of RFC 1071. */
  function InetChksum(b: seq<byte>): u16 { Complement(Chksum(b)) }

  method InetChksumPbuf(chain: seq<Part>) returns (r: u16)
    requires Sized(chain)
    ensures r == InetChksum(Flat(chain))
  {
    var acc := SumChain(chain, 0, 0);
    r := Complement(acc);
  }

  // ----- The pseudo header -----

  /** The IPv4 pseudo header of TCP: addresses, a zero byte, the protocol and the length. */
  function PseudoHeader(src: seq<byte>, dst: seq<byte>, proto: byte, len: u16): seq<byte> {
    src + dst + [0, proto, len / 256, len % 256]
  }

  /** `addr & 0xffff` plus `addr >> 16` for an address in network byte order */
  function Halves(a: seq<byte>): int
    requires |a| == 4
  {
    Checksum.Load16(a, 0) as int + Checksum.Load16(a, 2)
  }

  lemma {:induction false} FourBytes(a: seq<byte>)
    requires |a| == 4
    ensures WordSum(a) == Halves(a)
  {
    assert a[2..][2..] == [];
    assert WordSum(a[2..]) == a[2] as int + 256 * (a[3] as int);
  }

  lemma PseudoHeaderSum(src: seq<byte>, dst: seq<byte>, proto: byte, len: u16)
    requires |src| == 4 && |dst| == 4
    ensures WordSum(PseudoHeader(src, dst, proto, len)) == Halves(src) + Halves(dst) + Swap(proto as int) + Swap(len)
    ensures |PseudoHeader(src, dst, proto, len)| % 2 == 0
  {
    var t: seq<byte> := [0, proto, len / 256, len % 256];
    FourBytes(src);
    FourBytes(dst);
    FourBytes(t);
    WordSumCat(src, dst);
    WordSumCat(src + dst, t);
  }

  /** inet_cksum_pseudo_base without its loop: add protocol and length, fold, complement. */
  method FinishPseudo(acc0: u16, proto: byte, protoLen: u16, ghost s: nat) returns (r: u16)
    requires acc0 == Canon(s)
    ensures r == Complement(Canon(s + Swap(proto as int) + Swap(protoLen)))
  {
    var acc := Checksum.AddNoCarry(acc0, Swap(proto as int));
    acc := Checksum.AddNoCarry(acc, Swap(protoLen));
    FoldTwice(acc);
    SameCanon(s);
    SameAddition(Canon(s), s, Swap(proto as int) as int + Swap(protoLen));
    CanonSame(acc, s + Swap(proto as int) + Swap(protoLen));
    r := Complement(Fold(Fold(acc)));
  }

  lemma SameAddition(a: int, b: int, c: nat)
    requires Same(a, b)
    ensures Same(a + c, b + c)
  {
  }

  /** The sum of the two addresses, folded to 16 bits. */
  method SumAddresses(src: seq<byte>, dst: seq<byte>) returns (acc: u16)
    requires |src| == 4 && |dst| == 4
    ensures acc == Canon(Halves(src) + Halves(dst))
  {
    var sum := Checksum.AddNoCarry(Checksum.Load16(src, 0), Checksum.Load16(src, 2));
    sum := Checksum.AddNoCarry(sum, Checksum.Load16(dst, 0));
    sum := Checksum.AddNoCarry(sum, Checksum.Load16(dst, 2));
    FoldTwice(sum);
    acc := Fold(Fold(sum));
  }

  lemma PseudoTotal(src: seq<byte>, dst: seq<byte>, proto: byte, len: u16, b: seq<byte>)
    requires |src| == 4 && |dst| == 4
    ensures WordSum(PseudoHeader(src, dst, proto, len) + b) ==
            Halves(src) + Halves(dst) + WordSum(b) + Swap(proto as int) + Swap(len)
  {
    PseudoHeaderSum(src, dst, proto, len);
    WordSumCat(PseudoHeader(src, dst, proto, len), b);
  }

  /** inet_chksum_pseudo: the checksum of the pseudo header followed by the whole message. */
  method InetChksumPseudo(chain: seq<Part>, proto: byte, protoLen: u16, src: seq<byte>, dst: seq<byte>) returns (r: u16)
    requires Sized(chain) && |src| == 4 && |dst| == 4
    ensures r == InetChksum(PseudoHeader(src, dst, proto, protoLen) + Flat(chain))
  {
    var acc := SumAddresses(src, dst);
    acc := SumChain(chain, acc, Halves(src) + Halves(dst));
    r := FinishPseudo(acc, proto, protoLen, Halves(src) + Halves(dst) + WordSum(Flat(chain)));
    PseudoTotal(src, dst, proto, protoLen, Flat(chain));
  }

  // ----- Part of a chain -----

  function Clip(b: seq<byte>, count: nat): seq<byte> { if count <= |b| then b[..count] else b }

  lemma BeforeAll(chain: seq<Part>)
    ensures Before(chain, |chain|) == Flat(chain)
  {
    BeforeFlat(chain, |chain|);
    assert chain[|chain|..] == [];
  }

  lemma NothingSummed(chain: seq<Part>, s0: nat)
    ensures Framed(s0 + WordSum([]), false) == Canon(s0) && [] <= Flat(chain) && Before(chain, 0) == []
  {
  }

  /** The loop of the partial checksum: `done` is the first `count` bytes of the chain. */
  method PartialLoop(chain: seq<Part>, count: u16, acc0: u16, ghost s0: nat)
    returns (acc: u16, swapped: bool)
    requires Sized(chain) && acc0 == Canon(s0)
    ensures acc == Framed(s0 + WordSum(Clip(Flat(chain), count)), swapped)
  {
    hide WordSum, Framed, Flat;
    acc, swapped := acc0, false;
    ghost var done: seq<byte> := [];
    NothingSummed(chain, s0);
    var i, left := 0, count;
    while i < |chain| && left > 0
      invariant 0 <= i <= |chain| && done <= Flat(chain) && 0 <= left == count - |done|
      invariant left > 0 ==> done == Before(chain, i)
      invariant left > 0 ==> swapped == (|done| % 2 == 1)
      invariant acc == Framed(s0 + WordSum(done), swapped)
    {
      var len := if |chain[i].data| > left then left else |chain[i].data|;
      PrefixGrows(chain, i, len);
      acc, swapped := AddBytes(chain[i], len, acc, swapped, s0, done);
      done := done + chain[i].data[..len];
      left := left - len;
      i := i + 1;
    }
    BeforeAll(chain);
    ClipIs(Flat(chain), done, count);
  }

  lemma ClipIs(b: seq<byte>, d: seq<byte>, count: nat)
    requires d <= b && |d| <= count && (|d| < count ==> d == b)
    ensures Clip(b, count) == d
  {
  }

  /** inet_chksum_pseudo_partial: only the first `count` bytes of the message are summed. */
  method InetChksumPseudoPartial(chain: seq<Part>, proto: byte, protoLen: u16, count: u16,
                                 src: seq<byte>, dst: seq<byte>) returns (r: u16)
    requires Sized(chain) && |src| == 4 && |dst| == 4
    ensures r == InetChksum(PseudoHeader(src, dst, proto, protoLen) + Clip(Flat(chain), count))
  {
    ghost var s0 := Halves(src) + Halves(dst);
    var acc := SumAddresses(src, dst);
    var swapped;
    ghost var done := Clip(Flat(chain), count);
    acc, swapped := PartialLoop(chain, count, acc, s0);
    if swapped {
      FramedSwap(s0 + WordSum(done), swapped);
      acc := Swap(acc);
    }
    r := FinishPseudo(acc, proto, protoLen, s0 + WordSum(done));
    PseudoTotal(src, dst, proto, protoLen, done);
  }

  lemma PrefixGrows(chain: seq<Part>, i: nat, len: nat)
    requires i < |chain| && len <= |chain[i].data|
    ensures Before(chain, i) + chain[i].data[..len] <= Flat(chain)
    ensures len == |chain[i].data| ==> Before(chain, i) + chain[i].data[..len] == Before(chain, i + 1)
  {
    BeforeFlat(chain, i);
    assert Flat(chain[i..]) == chain[i].data + Flat(chain[i..][1..]);
  }

  // ----- Verification on receipt -----

  /** Storing a 16-bit word, in host order, over two zero bytes at an even offset. */
  function Store(b: seq<byte>, k: nat, c: u16): seq<byte>
    requires k + 1 < |b|
  {
    b[k := c % 256][k + 1 := c / 256]
  }

  lemma {:induction false} StoreSum(b: seq<byte>, k: nat, c: u16)
    requires k + 1 < |b| && k % 2 == 0 && b[k] == 0 && b[k + 1] == 0
    ensures WordSum(Store(b, k, c)) == WordSum(b) + c
  {
    var b' := Store(b, k, c);
    if k == 0 {
      assert b'[2..] == b[2..];
    } else {
      assert b'[2..] == Store(b[2..], k - 2, c);
      StoreSum(b[2..], k - 2, c);
    }
  }

  /** A sum and its complemented canonical form make 0xFFFF. */
  lemma ComplementSum(s: nat)
    ensures Canon(s + Complement(Canon(s))) == M
  {
    SameCanon(s);
    var c: int := Canon(s);
    SameAddition(c, s, M - c);
    CanonSame(M, s + (M - c));
  }

  /** The receiver's test: a message whose checksum field was zero and has been filled
      with the checksum sums to zero. */
  lemma StoredVerifies(b: seq<byte>, k: nat)
    requires k + 1 < |b| && k % 2 == 0 && b[k] == 0 && b[k + 1] == 0
    ensures InetChksum(Store(b, k, InetChksum(b))) == 0
  {
    StoreSum(b, k, InetChksum(b));
    ComplementSum(WordSum(b));
  }

  /** The same through the pseudo header and any cut of the segment into pbufs: what
      tcp_input computes for a segment sent with its checksum stored at `k` is zero. */
  lemma SegmentVerifies(src: seq<byte>, dst: seq<byte>, proto: byte, seg: seq<byte>, k: nat, chain: seq<Part>)
    requires |src| == 4 && |dst| == 4 && |seg| < TWO16
    requires k + 1 < |seg| && k % 2 == 0 && seg[k] == 0 && seg[k + 1] == 0
    requires var head := PseudoHeader(src, dst, proto, |seg|);
             Flat(chain) == Store(seg, k, InetChksum(head + seg))
    ensures InetChksum(PseudoHeader(src, dst, proto, |seg|) + Flat(chain)) == 0
  {
    var head := PseudoHeader(src, dst, proto, |seg|);
    PseudoHeaderSum(src, dst, proto, |seg|);
    var b, n := head + seg, |head|;
    assert b[n + k] == 0 && b[n + k + 1] == 0;
    StoredVerifies(b, n + k);
    assert Store(b, n + k, InetChksum(b)) == head + Store(seg, k, InetChksum(b));
  }
}
