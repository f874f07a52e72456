/**
 What an expression means, by the symbols in it and C's precedence, and that evaluating its text gives that.
 */
module CommandMeaning {
  import opened Basics
  import opened CommandModel
  import opened CommandLaws
  import opened CommandText

  /** The value of a tree by the meaning of its symbols; `None` when some operation in it has no result. */
  ghost predicate Denotes(e: Expr, r: Option<int>) {
    match e
    case Num(n) => if Int32(n) then r == Some(n) else r == None
    case Complement(a) => exists x :: Denotes(a, x) && UnaryDenotes("~", x, r)
    case Not(a) => exists x :: Denotes(a, x) && UnaryDenotes("!", x, r)
    case Binary(op, a, b) => exists x, y :: Denotes(a, x) && Denotes(b, y) && BinaryDenotes(TextOf(op), x, y, r)
    case Conditional(c, a, b) =>
      exists x, y, z :: Denotes(c, x) && Denotes(a, y) && Denotes(b, z) && ConditionalDenotes(x, y, z, r)
  }

  ghost predicate UnaryDenotes(symbol: string, x: Option<int>, r: Option<int>) {
    if x.None? then r.None? else r.Some? && UnaryMeans(symbol, x.value, r.value)
  }

  ghost predicate BinaryDenotes(symbol: string, x: Option<int>, y: Option<int>, r: Option<int>) {
    if x.None? || y.None? then r.None? else Means(symbol, x.value, y.value, r)
  }

  /** Both branches are evaluated, and the first is taken unless the condition is 0. */
  ghost predicate ConditionalDenotes(x: Option<int>, y: Option<int>, z: Option<int>, r: Option<int>) {
    if x.None? || y.None? || z.None? then r.None? else r == if x.value == 0 then z else y
  }

  lemma UnaryOnce(complement: bool, x: Option<int>, r: Option<int>)
    requires x.Some? ==> Int32(x.value)
    ensures UnaryDenotes(if complement then "~" else "!", x, r)
      <==> r == if x.None? then None else Some(ApplyUnary(complement, x.value))
  {
    if x.Some? && r.Some? {
      ApplyUnaryMeans(complement, x.value, r.value);
    }
  }

  lemma BinaryOnce(op: Op, x: Option<int>, y: Option<int>, r: Option<int>)
    requires (x.Some? ==> Int32(x.value)) && (y.Some? ==> Int32(y.value))
    ensures BinaryDenotes(TextOf(op), x, y, r)
      <==> r == if x.None? || y.None? then None else Apply(op, x.value, y.value)
  {
    if x.Some? && y.Some? {
      ApplyMeans(op, x.value, y.value);
      if Means(TextOf(op), x.value, y.value, r) {
        MeansOnce(op, x.value, y.value, r);
      }
    }
  }

  /** Each tree denotes one value, the evaluator's. */
  lemma {:induction false} DenotesValue(e: Expr, r: Option<int>)
    ensures Denotes(e, r) <==> r == Value(e)
    decreases e
  {
    match e
    case Num(n) =>
    case Complement(a) =>
      forall x ensures Denotes(a, x) <==> x == Value(a) {
        DenotesValue(a, x);
      }
      UnaryOnce(true, Value(a), r);
    case Not(a) =>
      forall x ensures Denotes(a, x) <==> x == Value(a) {
        DenotesValue(a, x);
      }
      UnaryOnce(false, Value(a), r);
    case Binary(op, a, b) =>
      forall x ensures (Denotes(a, x) <==> x == Value(a)) && (Denotes(b, x) <==> x == Value(b)) {
        DenotesValue(a, x);
        DenotesValue(b, x);
      }
      BinaryOnce(op, Value(a), Value(b), r);
    case Conditional(c, a, b) =>
      forall x ensures (Denotes(c, x) <==> x == Value(c)) && (Denotes(a, x) <==> x == Value(a)) {
        DenotesValue(c, x);
        DenotesValue(a, x);
      }
      forall x ensures Denotes(b, x) <==> x == Value(b) {
        DenotesValue(b, x);
      }
      assert Denotes(c, Value(c)) && Denotes(a, Value(a)) && Denotes(b, Value(b));
      assert ConditionalDenotes(Value(c), Value(a), Value(b), r) <==> r == Value(e);
  }

  /** The evaluator's answer for a value. */
  function Answer(r: Option<int>): Parsed {
    match r
    case Some(v) => Done(v, "")
    case None => Fail(Undefined)
  }

  /** Evaluating the text of a tree gives what the tree means. */
  lemma EvaluateMeans(e: Expr, r: Option<int>)
    requires Denotes(e, r)
    ensures Evaluate(Text(COMMA, e)) == Answer(r)
  {
    DenotesValue(e, r);
    EvaluateText(e);
  }

  // ----- precedence

  /** How tightly a symbol binds in C; comparisons all bind alike here. */
  function Tightness(symbol: string): (t: nat) {
    match symbol
    case "," => 0
    case "||" => 2
    case "&&" => 3
    case "|" => 4
    case "^" => 5
    case "&" => 6
    case "==" => 7
    case "!=" => 7
    case "<=" => 7
    case ">=" => 7
    case "<" => 7
    case ">" => 7
    case "-" => 8
    case "+" => 8
    case "*" => 9
    case "/" => 9
    case "%" => 9
    case _ => 10
  }

  lemma TightnessIsLevel(p: Op, q: Op)
    ensures Tightness(TextOf(p)) <= Tightness(TextOf(q)) <==> LevelOf(p) <= LevelOf(q)
    ensures Tightness(TextOf(p)) > 0 <==> LevelOf(p) >= LOGICAL_OR
  {
  }

  /** `a p b q c` is `(a p b) q c` unless `q` binds tighter than `p`. */
  function Grouped(p: Op, q: Op, a: int, b: int, c: int): Expr {
    if Tightness(TextOf(p)) >= Tightness(TextOf(q)) then Binary(q, Binary(p, Num(a), Num(b)), Num(c))
    else Binary(p, Num(a), Binary(q, Num(b), Num(c)))
  }

  lemma PairText(op: Op, a: int, b: int, l: nat)
    requires l <= LevelOf(op)
    ensures Text(l, Binary(op, Num(a), Num(b))) == NumText(a) + TextOf(op) + NumText(b)
    ensures Text(LevelOf(op), Num(a)) == NumText(a) && Text(LevelOf(op) + 1, Num(a)) == NumText(a)
  {
    var x, y := Num(a), Num(b);
    assert Prec(x) == POSTFIX && Prec(y) == POSTFIX;
    assert Body(x) == NumText(a) && Body(y) == NumText(b);
    assert Text(LevelOf(op), x) == NumText(a) && Text(LevelOf(op) + 1, y) == NumText(b);
    assert Body(Binary(op, x, y)) == Text(LevelOf(op), x) + TextOf(op) + Text(LevelOf(op) + 1, y);
  }

  lemma LeftText(p: Op, q: Op, a: int, b: int, c: int)
    requires LevelOf(p) >= LevelOf(q)
    ensures Text(COMMA, Binary(q, Binary(p, Num(a), Num(b)), Num(c)))
      == NumText(a) + TextOf(p) + NumText(b) + TextOf(q) + NumText(c)
  {
    PairText(p, a, b, LevelOf(q));
    PairText(q, c, c, 0);
  }

  lemma Joined(s: string, x: string, t: string, y: string)
    ensures s + (x + t + y) == s + x + t + y
  {
  }

  lemma RightText(p: Op, q: Op, a: int, b: int, c: int)
    requires LevelOf(p) < LevelOf(q)
    ensures Text(COMMA, Binary(p, Num(a), Binary(q, Num(b), Num(c))))
      == NumText(a) + TextOf(p) + NumText(b) + TextOf(q) + NumText(c)
  {
    PairText(q, b, c, LevelOf(p) + 1);
    PairText(p, a, a, 0);
    var right := Binary(q, Num(b), Num(c));
    assert Body(Binary(p, Num(a), right)) == NumText(a) + TextOf(p) + Text(LevelOf(p) + 1, right);
    Joined(NumText(a) + TextOf(p), NumText(b), TextOf(q), NumText(c));
  }

  /** Operators are grouped by how tightly they bind, and from the left. */
  lemma EvaluateGroups(p: Op, q: Op, a: int, b: int, c: int, r: Option<int>)
    requires Denotes(Grouped(p, q, a, b, c), r)
    ensures Evaluate(NumText(a) + TextOf(p) + NumText(b) + TextOf(q) + NumText(c)) == Answer(r)
  {
    var e := Grouped(p, q, a, b, c);
    EvaluateMeans(e, r);
    TightnessIsLevel(q, p);
    if LevelOf(p) >= LevelOf(q) {
      LeftText(p, q, a, b, c);
    } else {
      RightText(p, q, a, b, c);
    }
  }

  /** A prefix operator binds tighter than any other. */
  lemma EvaluatePrefix(p: Op, a: int, b: int, r: Option<int>)
    requires Denotes(Binary(p, Complement(Num(a)), Num(b)), r)
    ensures Evaluate("~" + NumText(a) + TextOf(p) + NumText(b)) == Answer(r)
  {
    var left := Complement(Num(a));
    EvaluateMeans(Binary(p, left, Num(b)), r);
    PairText(p, b, b, 0);
    assert Text(UNARY, Num(a)) == NumText(a);
    assert Text(LevelOf(p), left) == "~" + NumText(a);
    assert Body(Binary(p, left, Num(b))) == "~" + NumText(a) + TextOf(p) + NumText(b);
  }

  /** `?:` binds looser than any operator but the comma. */
  lemma EvaluateChoice(p: Op, a: int, b: int, yes: int, no: int, r: Option<int>)
    requires p != Comma && Denotes(Conditional(Binary(p, Num(a), Num(b)), Num(yes), Num(no)), r)
    ensures Evaluate(NumText(a) + TextOf(p) + NumText(b) + "?" + NumText(yes) + ":" + NumText(no)) == Answer(r)
  {
    var test := Binary(p, Num(a), Num(b));
    EvaluateMeans(Conditional(test, Num(yes), Num(no)), r);
    PairText(p, a, b, LOGICAL_OR);
    assert Text(LOGICAL_OR, Num(yes)) == NumText(yes) && Text(LOGICAL_OR, Num(no)) == NumText(no);
    assert Body(Conditional(test, Num(yes), Num(no)))
      == NumText(a) + TextOf(p) + NumText(b) + "?" + NumText(yes) + ":" + NumText(no);
  }

  /** A difference of three numbers is taken from the left. */
  lemma EvaluateDifference(t: string)
    requires t == "10-3-2"
    ensures Evaluate(t) == Done(5, "")
  {
    NumberTexts();
    Example(Minus, Minus, 10, 3, 2, t, Some(5));
  }

  /** A product is taken first. */
  lemma EvaluateSum(t: string)
    requires t == "2+3*4"
    ensures Evaluate(t) == Done(14, "")
  {
    NumberTexts();
    Example(Plus, Times, 2, 3, 4, t, Some(14));
  }

  lemma Example(p: Op, q: Op, a: int, b: int, c: int, t: string, r: Option<int>)
    requires t == NumText(a) + TextOf(p) + NumText(b) + TextOf(q) + NumText(c) && r == Value(Grouped(p, q, a, b, c))
    ensures Evaluate(t) == Answer(r)
  {
    DenotesValue(Grouped(p, q, a, b, c), r);
    EvaluateGroups(p, q, a, b, c, r);
  }

  lemma NumberTexts()
    ensures NumText(10) == "10" && NumText(0) == "0" && NumText(2) == "2" && NumText(3) == "3"
    ensures NumText(4) == "4" && NumText(5) == "5"
  {
    assert Digits(1) == "1" && Digits(10) == Digits(1) + "0";
  }
}
