/** The Internet checksum of RFC 1071 on byte sequences, for a little-endian host.

    `WordSum` adds 16-bit words without bound; `Canon` is the one's complement
    sum it stands for, with 0 and 0xFFFF told apart: zero only for all-zero data.
    The lemmas are the facts about carries, byte order and odd offsets on which
    the fast implementations rest.
 */
module ChecksumSpec {
  import opened Words

  const M: int := 0xffff

  /** The bytes taken as little-endian 16-bit words; a last odd byte counts as low byte. */
  function WordSum(b: seq<byte>): nat {
    if |b| == 0 then 0
    else if |b| == 1 then b[0]
    else b[0] + 256 * b[1] + WordSum(b[2..])
  }

  /** The same with the byte order of each word exchanged. */
  function BigSum(b: seq<byte>): nat {
    if |b| == 0 then 0
    else if |b| == 1 then 256 * b[0]
    else 256 * b[0] + b[1] + BigSum(b[2..])
  }

  /** Sum with end-around carry: the representative of `s` modulo 0xFFFF in
      1..0xFFFF, or 0 for 0. */
  function Canon(s: nat): u16 { if s == 0 then 0 else (s - 1) % M + 1 }

  /** lwip_standard_chksum: the non-inverted sum. */
  function Chksum(b: seq<byte>): u16 { Canon(WordSum(b)) }

  /** FOLD_U32T */
  function Fold(u: u32): u32 { u / TWO16 + u % TWO16 }

  /** SWAP_BYTES_IN_WORD, and lwip_htons on a little-endian host */
  function Swap(x: u16): u16 { x % 256 * 256 + x / 256 }

  /** `a` and `b` have the same one's complement sum. */
  ghost predicate Same(a: int, b: int) { a >= 0 && b >= 0 && (a - b) % M == 0 && (a == 0 <==> b == 0) }

  lemma SameCanon(a: nat)
    ensures Same(Canon(a), a)
  {
  }

  lemma CanonSame(a: nat, b: nat)
    ensures Canon(a) == Canon(b) <==> Same(a, b)
  {
  }

  lemma CanonFixed(x: u16)
    ensures Canon(x) == x
  {
  }

  lemma SameAdd(a: int, b: int, c: int, d: int)
    requires Same(a, b) && Same(c, d)
    ensures Same(a + c, b + d)
  {
  }

  lemma FoldSame(u: u32)
    ensures Same(Fold(u), u)
    ensures Fold(u) <= u / TWO16 + M
  {
    assert u == Fold(u) + M * (u / TWO16);
  }

  /** Two folds bring any 32-bit sum to its canonical form. */
  lemma FoldTwice(u: u32)
    ensures Fold(Fold(u)) == Canon(u)
  {
    FoldSame(u);
    var v := Fold(u);
    FoldSame(v);
    FoldSmall(v);
    CanonSame(v, u);
  }

  /** One fold is enough for a sum of at most two words. */
  lemma FoldSmall(v: u32)
    requires v <= 2 * M
    ensures Fold(v) == Canon(v)
  {
    FoldSame(v);
    CanonFixed(Fold(v));
    CanonSame(Fold(v), v);
  }

  lemma FoldOnce(a: nat, b: nat)
    ensures Fold(Canon(a) + Canon(b)) == Canon(a + b)
  {
    SameCanon(a);
    SameCanon(b);
    SameAdd(Canon(a), a, Canon(b), b);
    CanonSame(Canon(a) + Canon(b), a + b);
    FoldSmall(Canon(a) + Canon(b));
  }

  lemma SwapSame(x: u16)
    ensures Same(Swap(x), 256 * x)
  {
    assert 256 * x == Swap(x) + M * (x / 256);
  }

  lemma SwapCanon(s: nat)
    ensures Swap(Canon(s)) == Canon(256 * s)
  {
    SameCanon(s);
    var c: int := Canon(s);
    SwapSame(c);
    SameScaled(c, s);
    CanonFixed(Swap(c));
    CanonSame(Swap(c), 256 * c);
    CanonSame(256 * c, 256 * s);
  }

  lemma SameScaled(a: int, b: int)
    requires Same(a, b)
    ensures Same(256 * a, 256 * b)
  {
    assert 256 * a - 256 * b == 256 * (a - b);
    var k := (a - b) / M;
    assert a - b == M * k;
    assert 256 * a - 256 * b == M * (256 * k);
  }

  // ----- Byte order and odd offsets -----

  /** Exchanging the byte order of the data exchanges the bytes of the sum. */
  lemma {:induction false} ByteOrder(b: seq<byte>)
    ensures Same(BigSum(b), 256 * WordSum(b))
  {
    if |b| >= 2 {
      ByteOrder(b[2..]);
      assert 256 * WordSum(b) - BigSum(b) == M * b[1] + (256 * WordSum(b[2..]) - BigSum(b[2..]));
    }
  }

  /** The word sum of data that follows a single byte. */
  lemma {:induction false} AfterOneByte(x: byte, b: seq<byte>)
    ensures BigSum([x] + b) == 256 * x + WordSum(b)
    ensures WordSum([x] + b) == x + BigSum(b)
    decreases |b|
  {
    if |b| >= 1 {
      assert ([x] + b)[2..] == b[1..];
      if |b| >= 2 {
        assert b == [b[0]] + b[1..];
        AfterOneByte(b[0], b[1..]);
      }
    }
  }

  /** Data at an even offset adds its sum, data at an odd offset its exchanged sum. */
  lemma {:induction false} WordSumCat(a: seq<byte>, b: seq<byte>)
    ensures WordSum(a + b) == WordSum(a) + if |a| % 2 == 0 then WordSum(b) else BigSum(b)
  {
    if |a| == 0 {
      assert a + b == b;
    } else if |a| == 1 {
      assert a == [a[0]];
      AfterOneByte(a[0], b);
    } else {
      assert (a + b)[2..] == a[2..] + b;
      WordSumCat(a[2..], b);
    }
  }

  lemma SwapTwice(s: nat)
    ensures Canon(256 * (256 * s)) == Canon(s)
  {
    assert 256 * (256 * s) == s + M * s;
    CanonSame(256 * (256 * s), s);
  }

  /** The sum of exchanged data, exchanged again. */
  lemma BigSumSwapped(b: seq<byte>)
    ensures Swap(Canon(BigSum(b))) == Chksum(b)
  {
    ByteOrder(b);
    CanonSame(BigSum(b), 256 * WordSum(b));
    SwapCanon(256 * WordSum(b));
    SwapTwice(WordSum(b));
  }

  lemma {:induction false} WordSumBound(b: seq<byte>)
    ensures WordSum(b) <= M * ((|b| + 1) / 2)
    ensures BigSum(b) <= M * ((|b| + 1) / 2)
  {
    if |b| >= 2 {
      WordSumBound(b[2..]);
    }
  }

  /** The example of section 3 of RFC 1071: the sum is ddf2 in network byte order, f2dd on this host. */
  lemma ExampleOfRfc1071()
    ensures var b: seq<byte> := [0x00, 0x01, 0xf2, 0x03, 0xf4, 0xf5, 0xf6, 0xf7];
            Chksum(b) == 0xf2dd && Canon(BigSum(b)) == 0xddf2
  {
    var b: seq<byte> := [0x00, 0x01, 0xf2, 0x03, 0xf4, 0xf5, 0xf6, 0xf7];
    assert b[6..] == [0xf6, 0xf7] && b[6..][2..] == [];
    assert b[4..][2..] == b[6..] && b[2..][2..] == b[4..];
    assert WordSum(b[6..]) == 0xf7f6 && BigSum(b[6..]) == 0xf6f7;
    assert WordSum(b[4..]) == 0xf5f4 + 0xf7f6 && BigSum(b[4..]) == 0xf4f5 + 0xf6f7;
    assert WordSum(b[2..]) == 0x3f2 + 0xf5f4 + 0xf7f6 && BigSum(b[2..]) == 0xf203 + 0xf4f5 + 0xf6f7;
  }
}
