/**
 The bit-by-bit integer square root of graphics.c, on 32-bit unsigned numbers.
 */
module IntegerSqrt {

  newtype Unsigned = x: int | 0 <= x < 0x1_0000_0000

  /** Powers of two. */
  function Pow2(e: nat): (r: nat)
    ensures r >= 1
  {
    if e == 0 then 1 else 2 * Pow2(e - 1)
  }

  function Square(a: int): int {
    a * a
  }

  /** The square of a power of two, four times as large for the next one. */
  lemma SquareStep(e: nat)
    ensures Square(Pow2(e + 1)) == 4 * Square(Pow2(e))
  {
  }

  /** `x` is the root down to bit `e`; `p`, `q` and `r` are what the algorithm keeps of it. */
  ghost predicate RootSoFar(n: int, x: nat, e: nat, p: int, q: int, r: int) {
    var g := Pow2(e);
    && q == Square(g) && p == 2 * (g * x) && n == Square(x) + r && 0 <= r
    && n < Square(x + 2 * g) && x + 2 * g <= 65536
  }

  lemma Binomial(x: int, g: int)
    ensures Square(x + g) == Square(x) + 2 * (g * x) + Square(g)
  {
  }

  /** What the step keeps when the bit is set, and when it is not. */
  lemma Halved(g: int, x: int, p: int, q: int)
    requires p == 2 * (g * x) && q == Square(g)
    ensures p / 2 == g * x && p / 2 + q == g * (x + g)
  {
    assert g * (x + g) == g * x + g * g;
  }

  lemma Doubled(h: int, x: int)
    ensures 2 * h * x == 2 * (h * x)
  {
  }

  /** The step of the algorithm at a bit, and after the last bit. */
  lemma NextBit(n: int, x: nat, e: nat, p: int, q: int, r: int, x': nat)
    requires RootSoFar(n, x, e, p, q, r) && x' == if r >= p + q then x + Pow2(e) else x
    ensures 0 <= p + q < 0x1_0000_0000
    ensures var p', r' := if r >= p + q then p / 2 + q else p / 2, if r >= p + q then r - (p + q) else r;
      if e > 0 then RootSoFar(n, x', e - 1, p', q / 4, r')
      else q / 4 == 0 && p' == x' && Square(x') <= n < Square(x' + 1)
  {
    var g := Pow2(e);
    Binomial(x, g);
    Squares(x + g, 65535);
    Squares(0, x);
    Halved(g, x, p, q);
    NonNegative(g, x);
    if e > 0 {
      var h := Pow2(e - 1);
      SquareStep(e - 1);
      Doubled(h, x');
      assert g == 2 * h && q == 4 * Square(h);
      assert x' + 2 * h == if r >= p + q then x + 2 * g else x + g;
    } else {
      assert g == 1 && x' + 1 == if r >= p + q then x + 2 * g else x + g;
    }
  }

  lemma NonNegative(a: nat, b: nat)
    ensures 0 <= a * b && 0 <= Square(a)
  {
  }

  lemma Squares(a: nat, b: nat)
    requires a <= b
    ensures Square(a) <= Square(b)
  {
    assert a * a <= a * b <= b * b;
  }

  /** The largest power of four up to `n`, as `int_sqrt` looks for it without letting it roll over. */
  method StartingPower(n: Unsigned) returns (q: Unsigned, ghost e: nat)
    ensures n == 0 ==> q == 0
    ensures n > 0 ==> e <= 15 && q as int == Square(Pow2(e)) && q <= n && (n as int) < 4 * Square(Pow2(e))
  {
    q, e := 1, 0;
    if n >= 0x4000_0000 {
      q, e := 0x4000_0000, 15;
      assert Pow2(15) == 32768 by {
        assert Pow2(5) == 32;
        assert Pow2(10) == 1024;
      }
    } else {
      ghost var k := 0;
      while q <= n
        invariant q as int == Square(Pow2(k)) && k <= 15
        invariant k > 0 ==> Square(Pow2(k - 1)) <= n as int
        decreases 15 - k
      {
        SquareStep(k);
        Small(k, n as int);
        q := q * 4;
        k := k + 1;
      }
      if k > 0 {
        SquareStep(k - 1);
        e := k - 1;
      }
      q := q / 4;
    }
  }

  /** A power of four below 2^30 is 2^28 at most. */
  lemma Small(k: nat, n: int)
    requires Square(Pow2(k)) <= n < 0x4000_0000
    ensures k < 15 && 4 * Square(Pow2(k)) <= 0x4000_0000
  {
    assert Pow2(15) == 32768 by {
      assert Pow2(5) == 32;
      assert Pow2(10) == 1024;
    }
    if k >= 15 {
      Grows(15, k);
      Squares(32768, Pow2(k));
    } else {
      Grows(k, 14);
      assert Pow2(14) == 16384;
      Squares(Pow2(k), 16384);
    }
  }

  lemma {:induction false} Grows(a: nat, b: nat)
    requires a <= b
    ensures Pow2(a) <= Pow2(b)
  {
    if a < b {
      Grows(a, b - 1);
    }
  }

  /** Before each step, or after the last one. */
  ghost predicate Rooting(n: int, x: nat, e: nat, p: int, q: int, r: int) {
    if q == 0 then p == x && Square(x) <= n < Square(x + 1) else RootSoFar(n, x, e, p, q, r)
  }

  lemma NextRooting(n: int, x: nat, e: nat, p: int, q: int, r: int, x': nat, p': int, r': int)
    requires RootSoFar(n, x, e, p, q, r) && x' == if r >= p + q then x + Pow2(e) else x
    requires p' == (if r >= p + q then p / 2 + q else p / 2) && r' == if r >= p + q then r - (p + q) else r
    ensures Rooting(n, x', if e > 0 then e - 1 else 0, p', q / 4, r')
  {
    NextBit(n, x, e, p, q, r, x');
    if e > 0 {
      SquareStep(e - 1);
      PositiveSquare(e - 1);
      assert q / 4 == Square(Pow2(e - 1));
    }
  }

  lemma PositiveSquare(e: nat)
    ensures Square(Pow2(e)) >= 1
  {
    Squares(1, Pow2(e));
  }

  /** A step of `int_sqrt`. */
  method Step(n: Unsigned, p: Unsigned, q: Unsigned, r: Unsigned, ghost x: nat, ghost e: nat)
      returns (p': Unsigned, q': Unsigned, r': Unsigned, ghost x': nat, ghost e': nat)
    requires q != 0 && RootSoFar(n as int, x, e, p as int, q as int, r as int)
    ensures q' < q && Rooting(n as int, x', e', p' as int, q' as int, r' as int)
  {
    x' := if r as int >= p as int + q as int then x + Pow2(e) else x;
    e' := if e > 0 then e - 1 else 0;
    NextBit(n as int, x, e, p as int, q as int, r as int, x');
    var h := p + q;
    p', r' := p / 2, r;
    if r >= h {
      p' := p' + q;
      r' := r' - h;
    }
    q' := q / 4;
    NextRooting(n as int, x, e, p as int, q as int, r as int, x', p' as int, r' as int);
  }

  /** `int_sqrt`: the root rounded down, and no step leaves 32 bits. */
  method IntSqrt(n: Unsigned) returns (p: Unsigned)
    ensures Square(p as int) <= n as int < Square(p as int + 1)
  {
    var q;
    ghost var e;
    q, e := StartingPower(n);
    var r := n;
    p := 0;
    ghost var x: nat := 0;
    if n > 0 {
      StartOk(n as int, e);
    }
    while q != 0
      invariant Rooting(n as int, x, e, p as int, q as int, r as int)
      decreases q
    {
      p, q, r, x, e := Step(n, p, q, r, x, e);
    }
  }

  lemma StartOk(n: int, e: nat)
    requires e <= 15 && 0 <= n < 4 * Square(Pow2(e))
    ensures RootSoFar(n, 0, e, 0, Square(Pow2(e)), n)
  {
    Grows(e, 15);
    assert Pow2(15) == 32768 by {
      assert Pow2(5) == 32;
      assert Pow2(10) == 1024;
    }
    SquareStep(e);
  }
}
