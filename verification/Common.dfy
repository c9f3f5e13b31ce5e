/** Small definitions that several modules share. */
module Common {

  /** The err_t codes that pbuf.c and tcp_write return. */
  datatype Err = Ok | ErrArg | ErrConn | ErrMem | ErrVal

  function Min(a: int, b: int): int { if a <= b then a else b }

  function One(b: bool): nat { if b then 1 else 0 }

  ghost predicate Distinct<T>(s: seq<T>) { forall i, j :: 0 <= i < j < |s| ==> s[i] != s[j] }

  /** A subset that lacks an element is smaller. */
  lemma Smaller<T>(a: set<T>, b: set<T>, x: T)
    requires a <= b && x in b && x !in a
    ensures |a| < |b|
  {
    assert b == a + (b - a);
    assert x in b - a;
  }
}
