/**
 What C's operators mean for 32-bit integers, by their symbols, and that the operators of the evaluator mean that.
 */
module CommandLaws {
  import opened Basics
  import opened CommandBits
  import opened CommandModel

  /** A truth value is the number 1 or 0. */
  ghost predicate TruthIs(r: Option<int>, holds: bool) {
    (r == Some(1) <==> holds) && (r == Some(0) <==> !holds)
  }

  /** The quotient and what is left over: it is smaller than the divisor and has the sign of what is divided. */
  ghost predicate Divides(a: int, b: int, q: int, m: int) {
    && b != 0 && a == b * q + m && -Size(b) < m < Size(b)
    && (m > 0 ==> a > 0) && (m < 0 ==> a < 0)
  }

  function Size(b: int): int {
    if b >= 0 then b else -b
  }

  predicate BitOf(symbol: string, x: bool, y: bool) {
    if symbol == "|" then x || y else if symbol == "^" then x != y else x && y
  }

  /** All 32 bits of `v` are made of those of `a` and `b`. */
  ghost predicate BitsAre(symbol: string, a: int, b: int, v: int) {
    forall i :: 0 <= i < 32 ==> BitAt(v, i) == BitOf(symbol, BitAt(a, i), BitAt(b, i))
  }

  /** What `a symbol b` is; `None` where no 32-bit number is. */
  ghost predicate Means(symbol: string, a: int, b: int, r: Option<int>) {
    match symbol
    case "," => r == Some(b)
    case "||" => TruthIs(r, a != 0 || b != 0)
    case "&&" => TruthIs(r, a != 0 && b != 0)
    case "|" => forall v :: r == Some(v) <==> Int32(v) && BitsAre(symbol, a, b, v)
    case "^" => forall v :: r == Some(v) <==> Int32(v) && BitsAre(symbol, a, b, v)
    case "&" => forall v :: r == Some(v) <==> Int32(v) && BitsAre(symbol, a, b, v)
    case "==" => TruthIs(r, a == b)
    case "!=" => TruthIs(r, a != b)
    case "<=" => TruthIs(r, a <= b)
    case ">=" => TruthIs(r, a >= b)
    case "<" => TruthIs(r, a < b)
    case ">" => TruthIs(r, a > b)
    case "-" => forall v :: r == Some(v) <==> Int32(v) && v + b == a
    case "+" => forall v :: r == Some(v) <==> Int32(v) && v == a + b
    case "*" => forall v :: r == Some(v) <==> Int32(v) && v == a * b
    case "/" => forall q :: r == Some(q) <==> Int32(q) && exists m :: Divides(a, b, q, m)
    case "%" => forall m :: r == Some(m) <==> exists q :: Int32(q) && Divides(a, b, q, m)
    case _ => false
  }

  // ----- the evaluator's operators mean that

  /** A multiple is no smaller than what it is a multiple of, unless it is zero. */
  lemma MultipleIsLarge(b: int, d: int)
    requires d != 0
    ensures Size(b * d) >= Size(b)
  {
    var k := if d > 0 then d - 1 else d + 1;
    assert b * d == b * k + if d > 0 then b else -b;
    if (b >= 0) == (d > 0) {
      assert b * k >= 0;
    } else {
      assert b * k <= 0;
    }
  }

  /** There is one quotient and one rest. */
  lemma DividesOnce(a: int, b: int, q: int, m: int, q': int, m': int)
    requires Divides(a, b, q, m) && Divides(a, b, q', m')
    ensures q == q' && m == m'
  {
    var d := q - q';
    assert b * d == b * q - b * q' == m' - m;
    if d != 0 {
      MultipleIsLarge(b, d);
    }
  }

  /** A quotient rounded towards zero is the one. */
  lemma CDivDivides(a: int, b: int)
    requires b != 0
    ensures Divides(a, b, CDiv(a, b), a - b * CDiv(a, b))
  {
    var n, d := Size(a), Size(b);
    var q := n / d;
    assert n == d * q + n % d;
  }

  lemma QuotientMeans(a: int, b: int)
    requires b != 0
    ensures forall q, m :: Divides(a, b, q, m) <==> q == CDiv(a, b) && m == a - b * CDiv(a, b)
  {
    CDivDivides(a, b);
    forall q, m | Divides(a, b, q, m) ensures q == CDiv(a, b) && m == a - b * CDiv(a, b) {
      DividesOnce(a, b, q, m, CDiv(a, b), a - b * CDiv(a, b));
    }
  }

  lemma DivideMeans(a: int, b: int)
    requires Int32(a) && Int32(b)
    ensures Means("/", a, b, Apply(Divide, a, b))
  {
    if b != 0 {
      QuotientMeans(a, b);
      CDivDivides(a, b);
    }
  }

  lemma ModuloMeans(a: int, b: int)
    requires Int32(a) && Int32(b)
    ensures Means("%", a, b, Apply(Modulo, a, b))
  {
    if b != 0 {
      QuotientMeans(a, b);
      CDivDivides(a, b);
    }
  }

  /** The number an operation makes bit by bit is the only one with these bits. */
  lemma BitwiseMeans(symbol: string, f: (bool, bool) -> bool, a: int, b: int)
    requires Int32(a) && Int32(b) && forall x, y :: f(x, y) == BitOf(symbol, x, y)
    ensures var r := Bitwise(f, a, b, 31);
      Int32(r) && BitsAre(symbol, a, b, r) && forall v :: Int32(v) && BitsAre(symbol, a, b, v) ==> v == r
  {
    var r := Bitwise(f, a, b, 31);
    SignedIs32(a);
    SignedIs32(b);
    ThirtyTwoBits(f, a, b);
    forall i | 0 <= i < 32 ensures BitAt(r, i) == BitOf(symbol, BitAt(a, i), BitAt(b, i)) {
      BitwiseBits(f, a, b, 31, i);
    }
    forall v | Int32(v) && BitsAre(symbol, a, b, v) ensures v == r {
      BitsMake(symbol, a, b, v, r);
    }
  }

  lemma BitsMake(symbol: string, a: int, b: int, v: int, r: int)
    requires Int32(v) && Int32(r) && BitsAre(symbol, a, b, v) && BitsAre(symbol, a, b, r)
    ensures v == r
  {
    SignedIs32(v);
    SignedIs32(r);
    SameBits(v, r, 31);
  }

  lemma OrMeans(a: int, b: int)
    requires Int32(a) && Int32(b)
    ensures Means("|", a, b, Apply(BitOr, a, b))
  {
    BitwiseMeans("|", (x, y) => x || y, a, b);
  }

  lemma XorMeans(a: int, b: int)
    requires Int32(a) && Int32(b)
    ensures Means("^", a, b, Apply(BitXor, a, b))
  {
    BitwiseMeans("^", (x, y) => x != y, a, b);
  }

  lemma AndMeans(a: int, b: int)
    requires Int32(a) && Int32(b)
    ensures Means("&", a, b, Apply(BitAnd, a, b))
  {
    BitwiseMeans("&", (x, y) => x && y, a, b);
  }

  /** Every binary operator computes what its symbol means. */
  lemma ApplyMeans(op: Op, a: int, b: int)
    requires Int32(a) && Int32(b)
    ensures Means(TextOf(op), a, b, Apply(op, a, b))
  {
    match op
    case BitOr => OrMeans(a, b);
    case BitXor => XorMeans(a, b);
    case BitAnd => AndMeans(a, b);
    case Divide => DivideMeans(a, b);
    case Modulo => ModuloMeans(a, b);
    case _ =>
  }

  /** A symbol means one result. */
  lemma MeansOnce(op: Op, a: int, b: int, r: Option<int>)
    requires Int32(a) && Int32(b) && Means(TextOf(op), a, b, r)
    ensures r == Apply(op, a, b)
  {
    ApplyMeans(op, a, b);
    var x := Apply(op, a, b);
    match r
    case Some(v) => assert r == Some(v);
    case None =>
      match x
      case Some(v) => assert x == Some(v);
      case None =>
  }

  /** What `~` and `!` are. */
  ghost predicate UnaryMeans(symbol: string, a: int, r: int) {
    match symbol
    case "~" => Int32(r) && forall i :: 0 <= i < 32 ==> BitAt(r, i) == !BitAt(a, i)
    case "!" => (r == 1 <==> a == 0) && (r == 0 <==> a != 0)
    case _ => false
  }

  lemma ApplyUnaryMeans(complement: bool, a: int, r: int)
    requires Int32(a)
    ensures UnaryMeans(if complement then "~" else "!", a, r) <==> r == ApplyUnary(complement, a)
  {
    if complement {
      var x := ApplyUnary(true, a);
      forall i | 0 <= i < 32 ensures BitAt(x, i) == !BitAt(a, i) {
        ComplementBits(a, i);
      }
      if UnaryMeans("~", a, r) {
        SignedIs32(r);
        SignedIs32(x);
        SameBits(r, x, 31);
      }
    }
  }
}
