/** Machine words, and the comparison of 32-bit TCP sequence numbers.

    The C code compares sequence numbers by the sign of their 32-bit
    difference (`TCP_SEQ_LT` and its relatives in tcp_priv.h).  The lemmas
    say exactly when such a comparison decides the order of the unbounded
    positions the sequence numbers stand for.
 */
module Words {

  type byte = x: int | 0 <= x < 0x100
  type u16 = x: int | 0 <= x < 0x1_0000
  type u32 = x: int | 0 <= x < 0x1_0000_0000

  const TWO16: int := 0x1_0000
  const TWO31: int := 0x8000_0000
  const TWO32: int := 0x1_0000_0000

  datatype Option<+T> = None | Some(value: T)

  function Wrap16(x: int): u16 { x % TWO16 }

  function Wrap(x: int): u32 { x % TWO32 }

  function Add32(a: int, b: int): u32 { Wrap(a + b) }

  function Sub32(a: int, b: int): u32 { Wrap(a - b) }

  /** The value of a 32-bit word read as a two's complement number. */
  function Signed(w: u32): int { if w < TWO31 then w else w - TWO32 }

  predicate SeqLt(a: u32, b: u32) { Signed(Sub32(a, b)) < 0 }
  predicate SeqLeq(a: u32, b: u32) { Signed(Sub32(a, b)) <= 0 }
  predicate SeqGt(a: u32, b: u32) { Signed(Sub32(a, b)) > 0 }
  predicate SeqGeq(a: u32, b: u32) { Signed(Sub32(a, b)) >= 0 }
  predicate SeqBetween(a: u32, b: u32, c: u32) { SeqGeq(a, b) && SeqLeq(a, c) }

  lemma SmallWrap(n: nat)
    requires n < TWO32
    ensures Wrap(n) == n
  {
  }

  lemma WrapShift(a: int, k: int)
    ensures Wrap(a + k * TWO32) == Wrap(a)
  {
  }

  lemma WrapIsCongruent(a: int) returns (k: int)
    ensures Wrap(a) == a - k * TWO32
  {
    k := a / TWO32;
  }

  lemma WrapSum(a: int, b: int)
    ensures Add32(Wrap(a), b) == Wrap(a + b)
    ensures Add32(a, Wrap(b)) == Wrap(a + b)
    ensures Sub32(Wrap(a), b) == Wrap(a - b)
    ensures Sub32(a, Wrap(b)) == Wrap(a - b)
  {
    var i := WrapIsCongruent(a);
    var j := WrapIsCongruent(b);
    WrapShift(a + b, -i);
    WrapShift(a + b, -j);
    WrapShift(a - b, -i);
    WrapShift(a - b, j);
  }

  /** The signed 32-bit difference of two wrapped positions is their true
      difference precisely when that difference fits in 32 signed bits. */
  lemma SignedDifference(a: int, b: int)
    ensures Signed(Sub32(Wrap(a), Wrap(b))) == a - b <==> -TWO31 <= a - b < TWO31
  {
    WrapSum(a, Wrap(b));
    WrapSum(a, b);
    if -TWO31 <= a - b < TWO31 {
      if a - b < 0 {
        WrapShift(a - b, 1);
      }
    }
  }

  /** Within half the sequence space every comparison is the one on positions. */
  lemma ComparisonsRefine(a: int, b: int)
    requires -TWO31 < a - b < TWO31
    ensures SeqLt(Wrap(a), Wrap(b)) <==> a < b
    ensures SeqLeq(Wrap(a), Wrap(b)) <==> a <= b
    ensures SeqGt(Wrap(a), Wrap(b)) <==> a > b
    ensures SeqGeq(Wrap(a), Wrap(b)) <==> a >= b
    ensures Wrap(a) == Wrap(b) <==> a == b
  {
    SignedDifference(a, b);
    WrapSum(a, Wrap(b));
    WrapSum(a, b);
  }
}
