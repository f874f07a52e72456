/**
 The bits of numbers in two's complement, from the lowest one, and operations bit by bit.
 */
module CommandBits {

  /** Bit `i`; negative numbers have ones in front. */
  predicate BitAt(a: int, i: nat)
    decreases i
  {
    if i == 0 then a % 2 == 1 else BitAt(a / 2, i - 1)
  }

  function Power(n: nat): (p: nat)
    ensures p > 0
  {
    if n == 0 then 1 else 2 * Power(n - 1)
  }

  /** Numbers of `n` bits and a sign. */
  predicate Signed(a: int, n: nat) {
    0 - Power(n) <= a < Power(n)
  }

  /** The number of `n` bits and a sign whose bits an operation makes of those of `a` and `b`. */
  function Bitwise(f: (bool, bool) -> bool, a: int, b: int, n: nat): int
    decreases n
  {
    if n == 0 then (if f(a < 0, b < 0) then -1 else 0)
    else 2 * Bitwise(f, a / 2, b / 2, n - 1) + if f(a % 2 == 1, b % 2 == 1) then 1 else 0
  }

  lemma {:induction false} BitwiseIsSigned(f: (bool, bool) -> bool, a: int, b: int, n: nat)
    ensures Signed(Bitwise(f, a, b, n), n)
    decreases n
  {
    if n > 0 {
      BitwiseIsSigned(f, a / 2, b / 2, n - 1);
    }
  }

  /** Each bit of the result, the sign included, is what the operation makes of those bits. */
  lemma {:induction false} BitwiseBits(f: (bool, bool) -> bool, a: int, b: int, n: nat, i: nat)
    requires Signed(a, n) && Signed(b, n) && i <= n
    ensures BitAt(Bitwise(f, a, b, n), i) == f(BitAt(a, i), BitAt(b, i))
    decreases n
  {
    if n > 0 {
      var r := Bitwise(f, a / 2, b / 2, n - 1);
      assert Bitwise(f, a, b, n) / 2 == r;
      if i > 0 {
        BitwiseBits(f, a / 2, b / 2, n - 1, i - 1);
      }
    }
  }

  /** A complement has all bits turned over. */
  lemma {:induction false} ComplementBits(a: int, i: nat)
    ensures BitAt(-1 - a, i) == !BitAt(a, i)
    decreases i
  {
    if i > 0 {
      assert (-1 - a) / 2 == -1 - a / 2;
      ComplementBits(a / 2, i - 1);
    }
  }

  /** Bits and sign make the number. */
  lemma {:induction false} SameBits(a: int, b: int, n: nat)
    requires Signed(a, n) && Signed(b, n) && forall i :: 0 <= i <= n ==> BitAt(a, i) == BitAt(b, i)
    ensures a == b
    decreases n
  {
    assert BitAt(a, 0) == BitAt(b, 0);
    if n > 0 {
      forall i | 0 <= i <= n - 1 ensures BitAt(a / 2, i) == BitAt(b / 2, i) {
        assert BitAt(a, i + 1) == BitAt(b, i + 1);
      }
      SameBits(a / 2, b / 2, n - 1);
    }
  }
}
