/**
 What the expression evaluator of command.c makes of a text, as functions. The integer part is modelled:
 literals, parentheses, the operators and `?:`; texts with names, strings, numbers with a fraction, calls and
 assignments are `Outside`. Levels are numbered from the loosest binding one.
 */
module CommandModel {
  import opened Basics
  import opened CommandBits

  datatype Error = MissingClosingBrace | MissingColon | IllegalNumberFormat | IllegalCharacter
    | Undefined  // an operation C does not define, like a division by zero
    | Outside    // not part of this model

  datatype Parsed = Done(value: int, rest: string) | Fail(error: Error)

  // ----- operators

  datatype Op = Comma | Or | And | BitOr | BitXor | BitAnd | Eq | Ne | Le | Ge | Lt | Gt
              | Minus | Plus | Times | Divide | Modulo

  const COMMA := 0
  const ASSIGNMENT := 1
  const CONDITIONAL := 2
  const LOGICAL_OR := 3
  const UNARY := 11
  const POSTFIX := 12
  const BRACE := 13
  const VALUE := 14

  predicate IsBinary(l: nat) {
    l == COMMA || LOGICAL_OR <= l < UNARY
  }

  function LevelOf(op: Op): (l: nat)
    ensures IsBinary(l)
  {
    match op
    case Comma => 0
    case Or => 3
    case And => 4
    case BitOr => 5
    case BitXor => 6
    case BitAnd => 7
    case Eq | Ne | Le | Ge | Lt | Gt => 8
    case Minus | Plus => 9
    case Times | Divide | Modulo => 10
  }

  function TextOf(op: Op): (t: string)
    ensures 1 <= |t| <= 2
  {
    match op
    case Comma => ","
    case Or => "||"
    case And => "&&"
    case BitOr => "|"
    case BitXor => "^"
    case BitAnd => "&"
    case Eq => "=="
    case Ne => "!="
    case Le => "<="
    case Ge => ">="
    case Lt => "<"
    case Gt => ">"
    case Minus => "-"
    case Plus => "+"
    case Times => "*"
    case Divide => "/"
    case Modulo => "%"
  }

  /** `strncmp` with an operator of one or two characters. */
  predicate Starts(s: string, t: string)
    requires 1 <= |t| <= 2
  {
    |t| <= |s| && s[0] == t[0] && (|t| == 2 ==> s[1] == t[1])
  }

  /** The operator of a level that `get_op` finds; `&&` and `||` keep `&` and `|` from being seen. */
  function OpAt(l: nat, s: string): (r: Option<Op>)
    ensures r.Some? ==> LevelOf(r.value) == l && Starts(s, TextOf(r.value))
  {
    match l
    case 0 => if Starts(s, ",") then Some(Comma) else None
    case 3 => if Starts(s, "||") then Some(Or) else None
    case 4 => if Starts(s, "&&") then Some(And) else None
    case 5 => if Starts(s, "||") then None else if Starts(s, "|") then Some(BitOr) else None
    case 6 => if Starts(s, "^") then Some(BitXor) else None
    case 7 => if Starts(s, "&&") then None else if Starts(s, "&") then Some(BitAnd) else None
    case 8 =>
      if Starts(s, "==") then Some(Eq)
      else if Starts(s, "!=") then Some(Ne)
      else if Starts(s, "<=") then Some(Le)
      else if Starts(s, ">=") then Some(Ge)
      else if Starts(s, "<") then Some(Lt)
      else if Starts(s, ">") then Some(Gt)
      else None
    case 9 => if Starts(s, "-") then Some(Minus) else if Starts(s, "+") then Some(Plus) else None
    case 10 => if Starts(s, "*") then Some(Times) else if Starts(s, "/") then Some(Divide)
      else if Starts(s, "%") then Some(Modulo) else None
    case _ => None
  }

  // ----- what operators compute

  function BitwiseOr(a: int, b: int): (r: int)
    ensures Int32(r)
  {
    ThirtyTwoBits((x, y) => x || y, a, b);
    Bitwise((x, y) => x || y, a, b, 31)
  }

  function BitwiseXor(a: int, b: int): (r: int)
    ensures Int32(r)
  {
    ThirtyTwoBits((x, y) => x != y, a, b);
    Bitwise((x, y) => x != y, a, b, 31)
  }

  function BitwiseAnd(a: int, b: int): (r: int)
    ensures Int32(r)
  {
    ThirtyTwoBits((x, y) => x && y, a, b);
    Bitwise((x, y) => x && y, a, b, 31)
  }

  function BitwiseNot(a: int): (r: int)
    requires Int32(a)
    ensures Int32(r)
  {
    -1 - a
  }

  lemma ThirtyTwoBits(f: (bool, bool) -> bool, a: int, b: int)
    ensures Int32(Bitwise(f, a, b, 31))
  {
    BitwiseIsSigned(f, a, b, 31);
    SignedIs32(Bitwise(f, a, b, 31));
  }

  lemma SignedIs32(a: int)
    ensures Signed(a, 31) <==> Int32(a)
  {
    assert Power(8) == 256 && Power(16) == 65536 && Power(24) == 16777216;
    assert Power(31) == 0x8000_0000;
  }

  function Truth(b: bool): (a: int)
    ensures Int32(a)
  {
    if b then 1 else 0
  }

  function Fit(a: int): (r: Option<int>)
    ensures r.Some? ==> Int32(r.value)
  {
    if Int32(a) then Some(a) else None
  }

  /** A binary operation on numbers; `None` where C leaves the result open. */
  function Apply(op: Op, a: int, b: int): (r: Option<int>)
    requires Int32(a) && Int32(b)
    ensures r.Some? ==> Int32(r.value)
  {
    match op
    case Comma => Some(b)
    case Or => Some(Truth(a != 0 || b != 0))
    case And => Some(Truth(a != 0 && b != 0))
    case BitOr => Some(BitwiseOr(a, b))
    case BitXor => Some(BitwiseXor(a, b))
    case BitAnd => Some(BitwiseAnd(a, b))
    case Eq => Some(Truth(a == b))
    case Ne => Some(Truth(a != b))
    case Le => Some(Truth(a <= b))
    case Ge => Some(Truth(a >= b))
    case Lt => Some(Truth(a < b))
    case Gt => Some(Truth(a > b))
    case Minus => Fit(a - b)
    case Plus => Fit(a + b)
    case Times => Fit(a * b)
    case Divide => if b == 0 then None else Fit(CDiv(a, b))
    case Modulo => if b == 0 || !Int32(CDiv(a, b)) then None else Fit(a - b * CDiv(a, b))
  }

  /** `~` and `!`. */
  function ApplyUnary(complement: bool, a: int): (r: int)
    requires Int32(a)
    ensures Int32(r)
  {
    if complement then BitwiseNot(a) else Truth(a == 0)
  }

  // ----- numbers

  predicate IsSpace(c: char) {
    c == ' ' || c == '\t' || c == '\n' || c == '\r' || c as int == 12
  }

  function Skip(s: string): (r: string)
    ensures |r| <= |s| && (r != "" ==> !IsSpace(r[0]))
  {
    if s != "" && IsSpace(s[0]) then Skip(s[1..]) else s
  }

  predicate IsDigit(c: char) {
    '0' <= c <= '9'
  }

  /** Whether a number starts here: digits, perhaps behind a minus sign or a point. */
  predicate NumberStarts(s: string) {
    || (|s| > 0 && IsDigit(s[0]))
    || (|s| > 1 && s[0] == '.' && IsDigit(s[1]))
    || (|s| > 1 && s[0] == '-' && IsDigit(s[1]))
    || (|s| > 2 && s[0] == '-' && s[1] == '.' && IsDigit(s[2]))
  }

  /** Whether position `n` belongs to a number that starts at 0. */
  predicate NumberGoesOn(s: string, n: nat) {
    n < |s| && (IsDigit(s[n]) || s[n] == '.' || (n == 0 && s[n] == '-'))
  }

  datatype Scan = Scan(length: nat, dots: nat)

  /** How far a number reaches; a second point ends the scan. */
  function ScanNumber(s: string, n: nat, dots: nat): (r: Scan)
    requires n <= |s|
    ensures n <= r.length <= |s|
    decreases |s| - n
  {
    if !NumberGoesOn(s, n) then Scan(n, dots)
    else
      var d := dots + if s[n] == '.' then 1 else 0;
      if d > 1 then Scan(n, d) else ScanNumber(s, n + 1, d)
  }

  function Decimal(digits: string): int {
    if digits == "" then 0
    else 10 * Decimal(digits[..|digits| - 1]) + (digits[|digits| - 1] as int - '0' as int)
  }

  /** `atoi` of the text of a number. */
  function Atoi(s: string): int {
    if s != "" && s[0] == '-' then -Decimal(s[1..]) else Decimal(s)
  }

  /** Characters that start a name, a filter or a string. */
  predicate StartsOther(c: char) {
    'a' <= c <= 'z' || 'A' <= c <= 'Z' || c == '_' || c == '"' || c == '[' || c as int == 11
  }

  /** `eval_value`. */
  function ParseValue(s: string): (r: Parsed)
    ensures r.Done? ==> |r.rest| < |s| && Int32(r.value)
  {
    var op := Skip(s);
    if op == "" then Fail(IllegalCharacter)
    else if StartsOther(op[0]) then Fail(Outside)
    else if !NumberStarts(op) then Fail(IllegalCharacter)
    else
      var scan := ScanNumber(op, 0, 0);
      if scan.dots > 1 then Fail(IllegalNumberFormat)
      else if scan.dots == 1 then Fail(Outside)
      else if !Int32(Atoi(op[..scan.length])) then Fail(Undefined)
      else Done(Atoi(op[..scan.length]), op[scan.length..])
  }

  // ----- the levels

  /** A left-associative level: an operand and then operators with further operands. */
  function ParseLevel(l: nat, s: string): (r: Parsed)
    requires l <= VALUE
    ensures r.Done? ==> |r.rest| < |s| && Int32(r.value)
    decreases |s|, VALUE - l
  {
    if l == VALUE then ParseValue(s)
    else if l == BRACE then ParseBrace(s)
    else if l == UNARY then ParseUnary(s)
    else
      var first := ParseLevel(l + 1, s);
      if first.Fail? then first
      else if l == CONDITIONAL then Choose(first.value, first.rest)
      else if l == ASSIGNMENT || l == POSTFIX then Plain(l, first.value, first.rest)
      else Loop(l, first.value, first.rest)
  }

  /** The loop of a left-associative level. */
  function Loop(l: nat, v: int, s: string): (r: Parsed)
    requires IsBinary(l) && Int32(v)
    ensures r.Done? ==> |r.rest| <= |s| && Int32(r.value)
    decreases |s|, VALUE + 1
  {
    var at := Skip(s);
    var op := OpAt(l, at);
    if op.None? then Done(v, at)
    else
      var next := ParseLevel(l + 1, at[|TextOf(op.value)|..]);
      if next.Fail? then next
      else
        var x := Apply(op.value, v, next.value);
        if x.None? then Fail(Undefined) else Loop(l, x.value, next.rest)
  }

  /** `eval_conditional` behind its first operand; both branches are evaluated. */
  function Choose(v: int, s: string): (r: Parsed)
    requires Int32(v)
    ensures r.Done? ==> |r.rest| <= |s| && Int32(r.value)
    decreases |s|, VALUE + 1
  {
    var at := Skip(s);
    if !Starts(at, "?") then Done(v, at)
    else
      var a := ParseLevel(LOGICAL_OR, at[1..]);
      if a.Fail? then a
      else
        var colon := Skip(a.rest);
        if !Starts(colon, ":") then Fail(MissingColon)
        else
          var b := ParseLevel(LOGICAL_OR, colon[1..]);
          if b.Fail? then b else Done(if v != 0 then a.value else b.value, b.rest)
  }

  /** `eval_assignment` without an assignment, `eval_postfix` without a selection or call. */
  function Plain(l: nat, v: int, s: string): (r: Parsed)
    requires Int32(v)
    ensures r.Done? ==> |r.rest| <= |s| && Int32(r.value)
  {
    var at := Skip(s);
    if l == ASSIGNMENT then (if Starts(at, "=") then Fail(Outside) else Done(v, at))
    else if Starts(at, "[") || Starts(at, "(") || Starts(at, ".") then Fail(Outside)
    else Done(v, at)
  }

  /** `eval_unary`. */
  function ParseUnary(s: string): (r: Parsed)
    ensures r.Done? ==> |r.rest| < |s| && Int32(r.value)
    decreases |s|, VALUE - UNARY, 0
  {
    var at := Skip(s);
    if Starts(at, "~") || Starts(at, "!") then
      var e := ParseUnary(at[1..]);
      if e.Fail? then e else Done(ApplyUnary(at[0] == '~', e.value), e.rest)
    else
      ParseLevel(POSTFIX, at)
  }

  /** `eval_brace`. */
  function ParseBrace(s: string): (r: Parsed)
    ensures r.Done? ==> |r.rest| < |s| && Int32(r.value)
    decreases |s|, VALUE - BRACE, 0
  {
    var at := Skip(s);
    if Starts(at, "(") then
      var e := ParseLevel(COMMA, at[1..]);
      if e.Fail? then e
      else
        var close := Skip(e.rest);
        if Starts(close, ")") then Done(e.value, close[1..]) else Fail(MissingClosingBrace)
    else
      ParseValue(at)
  }

  /** `command_evaluate_to_int`: what is left of the text does not matter. */
  function Evaluate(s: string): Parsed {
    ParseLevel(COMMA, s)
  }
}
