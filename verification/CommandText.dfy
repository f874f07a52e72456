/**
 Expression trees, their values and their texts with as few parentheses as possible; the evaluator makes of
 a tree's text the tree's value.
 */
module CommandText {
  import opened Basics
  import opened CommandModel

  datatype Expr =
    | Num(value: int)
    | Complement(e: Expr)
    | Not(e: Expr)
    | Binary(op: Op, left: Expr, right: Expr)
    | Conditional(cond: Expr, yes: Expr, no: Expr)

  /** The value of a tree; `None` when some operation in it is not defined, even in a branch that is not chosen. */
  function Value(e: Expr): (r: Option<int>)
    ensures r.Some? ==> Int32(r.value)
  {
    match e
    case Num(n) => Fit(n)
    case Complement(a) =>
      var x := Value(a);
      if x.None? then None else Some(ApplyUnary(true, x.value))
    case Not(a) =>
      var x := Value(a);
      if x.None? then None else Some(ApplyUnary(false, x.value))
    case Binary(op, a, b) =>
      var x, y := Value(a), Value(b);
      if x.None? || y.None? then None else Apply(op, x.value, y.value)
    case Conditional(c, a, b) =>
      var x, y, z := Value(c), Value(a), Value(b);
      if x.None? || y.None? || z.None? then None else if x.value != 0 then y else z
  }

  // ----- texts

  function Digits(n: nat): string {
    if n < 10 then [('0' as int + n) as char] else Digits(n / 10) + [('0' as int + n % 10) as char]
  }

  function NumText(n: int): string {
    if n >= 0 then Digits(n) else "-" + Digits(-n)
  }

  /** The level a tree's text belongs to. */
  function Prec(e: Expr): (l: nat)
    ensures l <= POSTFIX
  {
    match e
    case Num(_) => POSTFIX
    case Complement(_) => UNARY
    case Not(_) => UNARY
    case Binary(op, _, _) => LevelOf(op)
    case Conditional(_, _, _) => CONDITIONAL
  }

  /** The text of a tree where level `l` is expected. */
  function Text(l: nat, e: Expr): string
    decreases e, 1
  {
    if Prec(e) < l then "(" + Body(e) + ")" else Body(e)
  }

  function Body(e: Expr): string
    decreases e, 0
  {
    match e
    case Num(n) => NumText(n)
    case Complement(a) => "~" + Text(UNARY, a)
    case Not(a) => "!" + Text(UNARY, a)
    case Binary(op, a, b) => Text(LevelOf(op), a) + TextOf(op) + Text(LevelOf(op) + 1, b)
    case Conditional(c, a, b) => Text(LOGICAL_OR, c) + "?" + Text(LOGICAL_OR, a) + ":" + Text(LOGICAL_OR, b)
  }

  // ----- numbers

  predicate AllDigits(s: string) {
    forall i :: 0 <= i < |s| ==> IsDigit(s[i])
  }

  lemma {:induction false} DigitsAreDecimal(n: nat)
    ensures AllDigits(Digits(n)) && Digits(n) != "" && Decimal(Digits(n)) == n
  {
    if n < 10 {
      assert Digits(n)[..0] == "";
    } else {
      DigitsAreDecimal(n / 10);
      assert Digits(n)[..|Digits(n)| - 1] == Digits(n / 10);
    }
  }

  /** A number ends where no digit or point follows. */
  lemma {:induction false} ScanDigits(s: string, rest: string, n: nat)
    requires n <= |s| && (forall i :: n <= i < |s| ==> IsDigit(s[i])) && (s == "" ==> n > 0)
    requires |s| > 0 && (rest == "" || (!IsDigit(rest[0]) && rest[0] != '.'))
    ensures ScanNumber(s + rest, n, 0) == Scan(|s|, 0)
    decreases |s| - n
  {
    if n < |s| {
      ScanDigits(s, rest, n + 1);
    }
  }

  lemma ParseNumber(n: int, rest: string)
    requires rest == "" || (!IsDigit(rest[0]) && rest[0] != '.')
    ensures ParseValue(NumText(n) + rest) == if Int32(n) then Done(n, rest) else Fail(Undefined)
    ensures NumText(n) != "" && (NumText(n)[0] == '-' || IsDigit(NumText(n)[0]))
  {
    var t := NumText(n);
    DigitsAreDecimal(if n >= 0 then n else -n);
    if n < 0 {
      assert t[1..] == Digits(-n);
      assert NumberGoesOn(t + rest, 0);
      ScanDigits(t, rest, 1);
    } else {
      ScanDigits(t, rest, 0);
    }
    assert (t + rest)[..|t|] == t && (t + rest)[|t|..] == rest;
  }

  // ----- where a text ends

  /** How the text of a tree can start. */
  predicate Opens(t: string) {
    t != "" && (IsDigit(t[0]) || t[0] == '-' || t[0] == '(' || t[0] == '!' || t[0] == '~')
  }

  lemma {:induction false} TextOpens(l: nat, e: Expr)
    ensures Opens(Text(l, e))
    ensures l > UNARY ==> Text(l, e)[0] != '!' && Text(l, e)[0] != '~'
    decreases e
  {
    match e
    case Num(n) => DigitsAreDecimal(if n >= 0 then n else -n); FirstDigit(n);
    case Complement(a) =>
    case Not(a) =>
    case Binary(op, a, b) => TextOpens(LevelOf(op), a);
    case Conditional(c, a, b) => TextOpens(LOGICAL_OR, c);
  }

  lemma FirstDigit(n: int)
    ensures NumText(n) != "" && (NumText(n)[0] == '-' || IsDigit(NumText(n)[0]))
  {
    ParseNumber(n, "");
  }

  /** What follows a text of level `l` does not continue it. */
  ghost predicate Stops(l: nat, rest: string) {
    && (forall k: nat :: l <= k ==> OpAt(k, rest).None?)
    && (rest != "" ==>
      var c := rest[0];
      && !IsSpace(c) && !IsDigit(c) && c != '.' && c != '[' && c != '('
      && (l <= CONDITIONAL ==> c != '?') && (l <= ASSIGNMENT ==> c != '='))
  }

  lemma StopsHere(rest: string)
    requires rest == "" || rest[0] == ')'
    ensures Stops(COMMA, rest)
  {
  }

  lemma StopsAtColon(rest: string)
    requires rest != "" && (rest[0] == '?' || rest[0] == ':')
    ensures Stops(LOGICAL_OR, rest)
  {
  }

  /** An operator is found at its level, and ends texts of higher ones. */
  lemma OpStops(op: Op, next: string)
    requires Opens(next)
    ensures var t := TextOf(op) + next;
      OpAt(LevelOf(op), t) == Some(op) && Stops(LevelOf(op) + 1, t)
  {
    var t := TextOf(op) + next;
    assert t[|TextOf(op)|] == next[0];
    forall k: nat | LevelOf(op) + 1 <= k ensures OpAt(k, t).None? {
    }
  }

  // ----- reading a text back

  function Result(v: Option<int>, rest: string): Parsed {
    if v.None? then Fail(Undefined) else Done(v.value, rest)
  }

  function Continue(l: nat, v: Option<int>, rest: string): Parsed
    requires IsBinary(l) && (v.Some? ==> Int32(v.value))
  {
    if v.None? then Fail(Undefined) else Loop(l, v.value, rest)
  }

  /** Reading on a looser level when nothing of that level follows. */
  lemma ClimbStep(l: nat, t: string, v: Option<int>, rest: string)
    requires l < POSTFIX && (v.Some? ==> Int32(v.value)) && ParseLevel(l + 1, t) == Result(v, rest) && Stops(l, rest)
    requires l == UNARY ==> t != "" && t[0] != '!' && t[0] != '~' && !IsSpace(t[0])
    ensures ParseLevel(l, t) == Result(v, rest)
  {
    assert Skip(rest) == rest;
  }

  lemma {:induction false} Climb(k: nat, l: nat, t: string, v: Option<int>, rest: string)
    requires l <= k <= POSTFIX && (v.Some? ==> Int32(v.value)) && ParseLevel(k, t) == Result(v, rest) && Stops(l, rest)
    requires l <= UNARY < k ==> t != "" && t[0] != '!' && t[0] != '~' && !IsSpace(t[0])
    ensures ParseLevel(l, t) == Result(v, rest)
    decreases k
  {
    if l < k {
      ClimbStep(k - 1, t, v, rest);
      Climb(k - 1, l, t, v, rest);
    }
  }

  /** What must follow a body: on a left-associative level its operators may. */
  function EndLevel(e: Expr): nat {
    if IsBinary(Prec(e)) then Prec(e) + 1 else Prec(e)
  }

  /** A tree's body is read as the tree, up to further operators of its level. */
  lemma {:induction false} BodyParses(e: Expr, rest: string)
    requires Stops(EndLevel(e), rest)
    ensures ParseLevel(Prec(e), Body(e) + rest) ==
      if IsBinary(Prec(e)) then Continue(Prec(e), Value(e), rest) else Result(Value(e), rest)
    decreases e, 0
  {
    match e
    case Num(n) => NumParses(n, rest);
    case Complement(a) => UnaryParses(e, a, "~", rest);
    case Not(a) => UnaryParses(e, a, "!", rest);
    case Binary(op, a, b) => BinaryParses(e, rest);
    case Conditional(c, a, b) => ConditionalParses(e, rest);
  }

  lemma NumParses(n: int, rest: string)
    requires Stops(POSTFIX, rest)
    ensures ParseLevel(POSTFIX, NumText(n) + rest) == Result(Fit(n), rest)
  {
    var t := NumText(n) + rest;
    ParseNumber(n, rest);
    FirstDigit(n);
    assert t[0] == NumText(n)[0];
    assert Skip(t) == t && Skip(rest) == rest;
    assert ParseLevel(BRACE, t) == ParseBrace(t) == ParseValue(t);
  }

  lemma {:induction false} UnaryParses(e: Expr, a: Expr, op: string, rest: string)
    requires (e == Complement(a) && op == "~") || (e == Not(a) && op == "!")
    requires Stops(UNARY, rest)
    ensures ParseLevel(UNARY, Body(e) + rest) == Result(Value(e), rest)
    decreases e, 0, 0
  {
    var inner := Text(UNARY, a) + rest;
    var t := Body(e) + rest;
    assert t == op + inner && t[1..] == inner;
    TextParses(UNARY, a, rest);
    assert ParseLevel(UNARY, inner) == ParseUnary(inner);
    assert Skip(t) == t;
    assert ParseLevel(UNARY, t) == ParseUnary(t);
  }

  lemma {:induction false} BinaryParses(e: Expr, rest: string)
    requires e.Binary? && Stops(LevelOf(e.op) + 1, rest)
    ensures ParseLevel(LevelOf(e.op), Body(e) + rest) == Continue(LevelOf(e.op), Value(e), rest)
    decreases e, 0, 0
  {
    var l := LevelOf(e.op);
    var right := Text(l + 1, e.right) + rest;
    var more := TextOf(e.op) + right;
    assert Body(e) + rest == Text(l, e.left) + more;
    TextOpens(l + 1, e.right);
    OpStops(e.op, right);
    LeftParses(l, e.left, more);
    TextParses(l + 1, e.right, rest);
    OperatorTaken(e, right, more, rest);
  }

  lemma LoopTakes(op: Op, v: int, right: string, more: string, y: Option<int>, rest: string)
    requires Int32(v) && (y.Some? ==> Int32(y.value)) && more == TextOf(op) + right && Skip(more) == more
    requires ParseLevel(LevelOf(op) + 1, right) == Result(y, rest) && OpAt(LevelOf(op), more) == Some(op)
    ensures Loop(LevelOf(op), v, more)
      == Continue(LevelOf(op), if y.None? then None else Apply(op, v, y.value), rest)
  {
    assert more[|TextOf(op)|..] == right;
  }

  /** One turn of the loop of a level: the operator and its right operand. */
  lemma OperatorTaken(e: Expr, right: string, more: string, rest: string)
    requires e.Binary? && more == TextOf(e.op) + right
    requires ParseLevel(LevelOf(e.op) + 1, right) == Result(Value(e.right), rest)
    requires OpAt(LevelOf(e.op), more) == Some(e.op)
    ensures Continue(LevelOf(e.op), Value(e.left), more) == Continue(LevelOf(e.op), Value(e), rest)
  {
    assert Skip(more) == more;
    if Value(e.left).Some? {
      LoopTakes(e.op, Value(e.left).value, right, more, Value(e.right), rest);
    }
  }

  /** A left operand is read up to its operator. */
  lemma {:induction false} LeftParses(l: nat, e: Expr, rest: string)
    requires IsBinary(l) && Stops(l + 1, rest)
    ensures ParseLevel(l, Text(l, e) + rest) == Continue(l, Value(e), rest)
    decreases e, 2
  {
    if Prec(e) == l {
      BodyParses(e, rest);
    } else {
      assert Text(l, e) == Text(l + 1, e);
      TextParses(l + 1, e, rest);
      LoopsOn(l, Text(l, e) + rest, Value(e), rest);
    }
  }

  /** Behind its first operand a left-associative level loops. */
  lemma LoopsOn(l: nat, t: string, v: Option<int>, rest: string)
    requires IsBinary(l) && (v.Some? ==> Int32(v.value)) && ParseLevel(l + 1, t) == Result(v, rest)
    ensures ParseLevel(l, t) == Continue(l, v, rest)
  {
  }

  lemma {:induction false} ConditionalParses(e: Expr, rest: string)
    requires e.Conditional? && Stops(CONDITIONAL, rest)
    ensures ParseLevel(CONDITIONAL, Body(e) + rest) == Result(Value(e), rest)
    decreases e, 0, 0
  {
    var no := Text(LOGICAL_OR, e.no) + rest;
    var colon := ":" + no;
    var yes := Text(LOGICAL_OR, e.yes) + colon;
    var more := "?" + yes;
    assert Body(e) + rest == Text(LOGICAL_OR, e.cond) + more;
    StopsAtColon(more);
    StopsAtColon(colon);
    TextParses(LOGICAL_OR, e.cond, more);
    TextParses(LOGICAL_OR, e.yes, colon);
    TextParses(LOGICAL_OR, e.no, rest);
    if Value(e.cond).Some? {
      ChooseParses(Value(e.cond).value, Value(e.yes), Value(e.no), yes, no, rest);
    }
  }

  /** Both branches are read, and one is taken. */
  lemma ChooseParses(v: int, a: Option<int>, b: Option<int>, yes: string, no: string, rest: string)
    requires Int32(v) && (a.Some? ==> Int32(a.value)) && (b.Some? ==> Int32(b.value))
    requires ParseLevel(LOGICAL_OR, yes) == Result(a, ":" + no) && ParseLevel(LOGICAL_OR, no) == Result(b, rest)
    ensures Choose(v, "?" + yes) == Result(if a.None? || b.None? then None else if v != 0 then a else b, rest)
  {
    var more, colon := "?" + yes, ":" + no;
    assert more[1..] == yes && colon[1..] == no && Skip(more) == more && Skip(colon) == colon;
  }

  /** A tree inside parentheses. */
  lemma {:induction false} InnerParses(e: Expr, close: string)
    requires close != "" && close[0] == ')'
    ensures ParseLevel(COMMA, Body(e) + close) == Result(Value(e), close)
    decreases e, 1, 0
  {
    var inner := Body(e) + close;
    StopsHere(close);
    BodyParses(e, close);
    if IsBinary(Prec(e)) {
      assert Skip(close) == close;
    }
    TextOpens(COMMA, e);
    assert Text(COMMA, e) == Body(e) && inner[0] == Body(e)[0];
    if Prec(e) > UNARY {
      TextOpens(POSTFIX, e);
      assert Text(POSTFIX, e) == Body(e);
    }
    Climb(Prec(e), COMMA, inner, Value(e), close);
  }

  /** A tree in parentheses. */
  lemma {:induction false} ParenParses(e: Expr, rest: string)
    requires Stops(POSTFIX, rest)
    ensures ParseLevel(POSTFIX, "(" + Body(e) + ")" + rest) == Result(Value(e), rest)
    decreases e, 1, 1
  {
    var close := ")" + rest;
    var inner := Body(e) + close;
    var t := "(" + Body(e) + ")" + rest;
    assert t == "(" + inner && t[1..] == inner && close[1..] == rest;
    InnerParses(e, close);
    assert Skip(t) == t && Skip(close) == close && Skip(rest) == rest;
    assert ParseLevel(BRACE, t) == ParseBrace(t);
  }

  /** The text of a tree is read as the tree wherever it can stand. */
  lemma {:induction false} TextParses(l: nat, e: Expr, rest: string)
    requires l <= POSTFIX && Stops(l, rest)
    ensures ParseLevel(l, Text(l, e) + rest) == Result(Value(e), rest)
    decreases e, 1, 2
  {
    var t := Text(l, e) + rest;
    TextOpens(l, e);
    assert t[0] == Text(l, e)[0];
    if Prec(e) < l {
      ParenParses(e, rest);
      assert Text(l, e)[0] == '(';
      Climb(POSTFIX, l, t, Value(e), rest);
    } else {
      BodyParses(e, rest);
      if IsBinary(Prec(e)) {
        assert Skip(rest) == rest;
      }
      if Prec(e) > UNARY {
        TextOpens(POSTFIX, e);
        assert Text(POSTFIX, e) == Body(e);
      }
      Climb(Prec(e), l, t, Value(e), rest);
    }
  }

  /** Evaluating the text of a tree gives its value and leaves nothing; what it leaves open is noticed. */
  lemma EvaluateText(e: Expr)
    ensures Evaluate(Text(COMMA, e)) == match Value(e) case Some(v) => Done(v, "") case None => Fail(Undefined)
  {
    StopsHere("");
    TextParses(COMMA, e, "");
    assert Text(COMMA, e) + "" == Text(COMMA, e);
  }

  /** A forgotten closing parenthesis is reported, unless an undefined operation comes first. */
  lemma MissingParenthesis(e: Expr)
    ensures Evaluate("(" + Text(COMMA, e)) == Fail(if Value(e).Some? then MissingClosingBrace else Undefined)
  {
    var t := "(" + Text(COMMA, e);
    assert t[1..] == Text(COMMA, e);
    EvaluateText(e);
    NotClosed(t);
    ReadFails(t, BRACE, COMMA);
  }

  lemma NotClosed(t: string)
    requires t != "" && t[0] == '(' && (ParseLevel(COMMA, t[1..]).Done? ==> ParseLevel(COMMA, t[1..]).rest == "")
    ensures ParseLevel(BRACE, t) == Fail(match ParseLevel(COMMA, t[1..]) case Done(_,
      _) => MissingClosingBrace case Fail(e) => e)
  {
    assert Skip(t) == t;
  }

  /** An error on a tighter level is the error of the looser ones. */
  lemma {:induction false} ReadFails(t: string, k: nat, l: nat)
    requires l <= k <= BRACE && ParseLevel(k, t).Fail? && t != "" && t[0] != '!' && t[0] != '~' && !IsSpace(t[0])
    ensures ParseLevel(l, t) == ParseLevel(k, t)
    decreases k
  {
    if l < k {
      assert Skip(t) == t;
      assert ParseLevel(k - 1, t) == ParseLevel(k, t);
      ReadFails(t, k - 1, l);
    }
  }
}
