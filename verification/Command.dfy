/**
 The evaluator of command.c itself: a cursor moves over the text, an error stops the evaluation.
 */
module CommandEvaluator {
  import opened Basics
  import opened CommandModel

  class Context {
    const text: string
    var pos: nat
    var error: Option<Error>

    /** The text from the cursor on. */
    ghost function Left(): string
      reads this`pos
    {
      if pos <= |text| then text[pos..] else ""
    }

    ghost predicate Ready()
      reads this
    {
      pos <= |text| && error.None?
    }

    /** What an evaluation left in the context, given what the model makes of the text. */
    ghost predicate Ran(p: Parsed, v: int)
      reads this
    {
      match p
      case Done(x, rest) => Ready() && Left() == rest && v == x
      case Fail(e) => error == Some(e)
    }

    constructor (text: string)
      ensures Ready() && this.text == text && Left() == text
    {
      this.text := text;
      pos := 0;
      error := None;
    }

    /** The first loop of `get_op`. */
    method SkipSpace()
      requires Ready()
      modifies this`pos
      ensures Ready() && Left() == Skip(old(Left())) && pos >= old(pos)
    {
      ghost var s := Left();
      while pos < |text| && IsSpace(text[pos])
        invariant Ready() && pos >= old(pos) && Skip(Left()) == Skip(s)
        decreases |text| - pos
      {
        assert Left()[0] == text[pos] && Left()[1..] == text[pos + 1..];
        pos := pos + 1;
      }
    }

    /** Whether the text goes on with an operator. */
    method Peek(op: string) returns (found: bool)
      requires Ready() && 1 <= |op| <= 2
      ensures found == Starts(Left(), op)
    {
      found := pos + |op| <= |text| && text[pos] == op[0] && (|op| == 2 ==> text[pos + 1] == op[1]);
    }

    /** `get_op` with a single operator, behind which the cursor goes. */
    method GetOp(op: string) returns (found: bool)
      requires Ready() && 1 <= |op| <= 2
      modifies this`pos
      ensures Ready() && found == Starts(Skip(old(Left())), op) && pos >= old(pos)
      ensures Left() == if found then Skip(old(Left()))[|op|..] else Skip(old(Left()))
      ensures found ==> pos > old(pos)
    {
      SkipSpace();
      found := Peek(op);
      if found {
        pos := pos + |op|;
      }
    }

    /** `get_op` with the operators of a left-associative level. */
    method GetLevelOp(l: nat) returns (op: Option<Op>)
      requires Ready()
      modifies this`pos
      ensures Ready() && op == OpAt(l, Skip(old(Left()))) && pos >= old(pos)
      ensures op.None? ==> Left() == Skip(old(Left()))
      ensures op.Some? ==> pos > old(pos) && Left() == Skip(old(Left()))[|TextOf(op.value)|..]
    {
      SkipSpace();
      op := OpAt(l, text[pos..]);
      if op.Some? {
        pos := pos + |TextOf(op.value)|;
      }
    }

    /** `eval_value`. */
    method EvalValue() returns (v: int)
      requires Ready()
      modifies this
      ensures Ran(ParseValue(old(Left())), v)
    {
      v := 0;
      SkipSpace();
      ghost var op := Left();
      if pos == |text| {
        error := Some(IllegalCharacter);
        return;
      }
      if StartsOther(text[pos]) {
        error := Some(Outside);
        return;
      }
      if !NumberStarts(text[pos..]) {
        error := Some(IllegalCharacter);
        return;
      }
      var start := pos;
      var dots := ScanDigits(op);
      if dots > 1 {
        error := Some(IllegalNumberFormat);
        return;
      }
      v := Finish(start, dots, op);
    }

    /** The loop over the characters of a number. */
    method ScanDigits(ghost op: string) returns (dots: nat)
      requires Ready() && op == Left()
      modifies this`pos
      ensures Ready() && dots == ScanNumber(op, 0, 0).dots && pos == old(pos) + ScanNumber(op, 0, 0).length
    {
      var start := pos;
      dots := 0;
      while pos < |text| && (IsDigit(text[pos]) || text[pos] == '.' || (pos == start && text[pos] == '-'))
        invariant start <= pos <= |text| && dots <= 1
        invariant ScanNumber(op, 0, 0) == ScanNumber(op, pos - start, dots)
        decreases |text| - pos
      {
        assert text[pos] == op[pos - start];
        if text[pos] == '.' {
          dots := dots + 1;
        }
        if dots > 1 {
          return;
        }
        pos := pos + 1;
      }
      assert pos < |text| ==> text[pos] == op[pos - start];
    }

    /** The number read. */
    method Finish(start: nat, dots: nat, ghost op: string) returns (v: int)
      requires Ready() && start <= pos && op == text[start..]
      modifies this`error
      ensures if dots == 1 then error == Some(Outside)
        else if !Int32(Atoi(op[..pos - start])) then error == Some(Undefined)
        else error.None? && v == Atoi(op[..pos - start]) && Left() == op[pos - start..]
    {
      assert op[..pos - start] == text[start..pos] && op[pos - start..] == text[pos..];
      v := Atoi(text[start..pos]);
      if dots == 1 {
        error := Some(Outside);
      } else if !Int32(v) {
        error := Some(Undefined);
      }
    }

    /** `eval_brace`. */
    method EvalBrace() returns (v: int)
      requires Ready()
      modifies this
      ensures Ran(ParseBrace(old(Left())), v)
      decreases |text| - pos, VALUE - BRACE, 0
    {
      var open := GetOp("(");
      if open {
        v := Eval(COMMA);
        if error.Some? {
          return;
        }
        var close := GetOp(")");
        if !close {
          error := Some(MissingClosingBrace);
        }
        return;
      }
      v := EvalValue();
    }

    /** `eval_postfix`. */
    method EvalPostfix() returns (v: int)
      requires Ready()
      modifies this
      ensures Ran(ParseLevel(POSTFIX, old(Left())), v)
      decreases |text| - pos, VALUE - POSTFIX, 0
    {
      v := Eval(BRACE);
      if error.Some? {
        return;
      }
      var index := GetOp("[");
      var call := Peek("(");
      var selection := Peek(".");
      if index || call || selection {
        error := Some(Outside);
      }
    }

    /** `eval_unary`. */
    method EvalUnary() returns (v: int)
      requires Ready()
      modifies this
      ensures Ran(ParseUnary(old(Left())), v)
      decreases |text| - pos, VALUE - UNARY, 0
    {
      ghost var at := Skip(Left());
      var complement := GetOp("~");
      var not := false;
      if !complement {
        not := GetOp("!");
      }
      if complement || not {
        v := EvalUnary();
        if error.Some? {
          return;
        }
        v := ApplyUnary(complement, v);
      } else {
        assert Left() == at;
        v := Eval(POSTFIX);
      }
    }

    /**
     `eval_multiplicative` to `eval_logical_or`, and `eval_comma`: operands and operators of one level, from the
     left.
     */
    method EvalBinary(l: nat) returns (v: int)
      requires Ready() && IsBinary(l)
      modifies this
      ensures Ran(ParseLevel(l, old(Left())), v)
      decreases |text| - pos, VALUE - l, 0
    {
      ghost var s := Left();
      v := Eval(l + 1);
      if error.Some? {
        return;
      }
      while true
        invariant Ready() && Int32(v) && |Left()| < |s| && ParseLevel(l, s) == Loop(l, v, Left())
        decreases |text| - pos
      {
        var op := GetLevelOp(l);
        if op.None? {
          return;
        }
        var w := Eval(l + 1);
        if error.Some? {
          return;
        }
        var x := Apply(op.value, v, w);
        if x.None? {
          error := Some(Undefined);
          return;
        }
        v := x.value;
      }
    }

    /** `eval_conditional`. */
    method EvalConditional() returns (v: int)
      requires Ready()
      modifies this
      ensures Ran(ParseLevel(CONDITIONAL, old(Left())), v)
      decreases |text| - pos, VALUE - CONDITIONAL, 0
    {
      ghost var s := Left();
      v := Eval(LOGICAL_OR);
      if error.Some? {
        return;
      }
      assert ParseLevel(CONDITIONAL, s) == Choose(v, Left());
      var question := GetOp("?");
      if !question {
        return;
      }
      var cond := v != 0;
      var tmp := Eval(LOGICAL_OR);
      if error.Some? {
        return;
      }
      if cond {
        v := tmp;
      }
      var colon := GetOp(":");
      if !colon {
        error := Some(MissingColon);
        return;
      }
      tmp := Eval(LOGICAL_OR);
      if error.Some? {
        return;
      }
      if !cond {
        v := tmp;
      }
    }

    /** `eval_assignment`. */
    method EvalAssignment() returns (v: int)
      requires Ready()
      modifies this
      ensures Ran(ParseLevel(ASSIGNMENT, old(Left())), v)
      decreases |text| - pos, VALUE - ASSIGNMENT, 0
    {
      v := Eval(CONDITIONAL);
      if error.Some? {
        return;
      }
      var assign := GetOp("=");
      if assign {
        error := Some(Outside);
      }
    }

    /** The function of a level. */
    method Eval(l: nat) returns (v: int)
      requires Ready() && l <= VALUE
      modifies this
      ensures Ran(ParseLevel(l, old(Left())), v)
      decreases |text| - pos, VALUE - l, 1
    {
      if IsBinary(l) {
        v := EvalBinary(l);
      } else if l == ASSIGNMENT {
        v := EvalAssignment();
      } else if l == CONDITIONAL {
        v := EvalConditional();
      } else if l == UNARY {
        v := EvalUnary();
      } else if l == POSTFIX {
        v := EvalPostfix();
      } else if l == BRACE {
        v := EvalBrace();
      } else {
        v := EvalValue();
      }
    }
  }

  /** `command_evaluate_to_int`: the value of an expression, or the error that stopped it. */
  method EvaluateToInt(text: string) returns (v: int, error: Option<Error>)
    ensures match Evaluate(text)
      case Done(x, _) => error.None? && v == x
      case Fail(e) => error == Some(e) && v == 0
  {
    var ctx := new Context(text);
    v := ctx.Eval(COMMA);
    error := ctx.error;
    if error.Some? {
      v := 0;
    }
  }
}
