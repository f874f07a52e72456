/** Which error the evaluator reports for texts that are no expressions. */
module CommandErrors {
  import opened Basics
  import opened CommandModel
  import opened CommandText

  lemma ColonMissing(t: string, v: Option<int>, a: Option<int>, yes: string)
    requires (v.Some? ==> Int32(v.value)) && (a.Some? ==> Int32(a.value))
    requires ParseLevel(LOGICAL_OR, t) == Result(v, "?" + yes) && ParseLevel(LOGICAL_OR, yes) == Result(a, "")
    ensures ParseLevel(CONDITIONAL, t) == Fail(if v.Some? && a.Some? then Error.MissingColon else Undefined)
  {
    var more := "?" + yes;
    assert more[1..] == yes && Skip(more) == more;
  }

  /** A forgotten `:` is reported, unless an undefined operation comes first. */
  lemma MissingColon(c: Expr, a: Expr)
    ensures Evaluate(Text(LOGICAL_OR, c) + "?" + Text(LOGICAL_OR, a))
      == Fail(if Value(c).Some? && Value(a).Some? then Error.MissingColon else Undefined)
  {
    var yes := Text(LOGICAL_OR, a);
    var more := "?" + yes;
    var t := Text(LOGICAL_OR, c) + more;
    StopsAtColon(more);
    TextParses(LOGICAL_OR, c, more);
    TextParses(LOGICAL_OR, a, "");
    assert yes + "" == yes;
    ColonMissing(t, Value(c), Value(a), yes);
    assert ParseLevel(ASSIGNMENT, t) == ParseLevel(CONDITIONAL, t);
    assert ParseLevel(COMMA, t) == ParseLevel(ASSIGNMENT, t);
    assert t == Text(LOGICAL_OR, c) + "?" + yes;
  }

  /** A scan reaches a second point. */
  lemma {:induction false} ScanToPoint(s: string, n: nat, p: nat, dots: nat)
    requires n <= p < |s| && dots <= 1 && s[p] == '.' && forall i :: n <= i < p ==> IsDigit(s[i])
    ensures ScanNumber(s, n, dots) == if dots == 1 then Scan(p, 2) else ScanNumber(s, p + 1, 1)
    decreases p - n
  {
    if n < p {
      ScanToPoint(s, n + 1, p, dots);
    }
  }

  /** A number with two points. */
  lemma TwoPoints(a: string, b: string, rest: string)
    requires a != "" && AllDigits(a) && AllDigits(b)
    ensures Evaluate(a + "." + b + "." + rest) == Fail(IllegalNumberFormat)
  {
    var s := a + "." + b + "." + rest;
    var p, q := |a|, |a| + 1 + |b|;
    assert forall i :: 0 <= i < p ==> s[i] == a[i];
    assert forall i :: p < i < q ==> s[i] == b[i - p - 1];
    assert s[p] == '.' && s[q] == '.';
    ScanToPoint(s, 0, p, 0);
    ScanToPoint(s, p + 1, q, 1);
    assert IsDigit(s[0]) && Skip(s) == s;
    assert ParseLevel(BRACE, s) == ParseBrace(s) == ParseValue(s);
    ReadFails(s, BRACE, COMMA);
  }

  /** A text that starts like nothing the evaluator knows. */
  lemma NothingStarts(s: string)
    requires s != "" && !IsSpace(s[0]) && !NumberStarts(s) && !StartsOther(s[0])
    requires s[0] != '(' && s[0] != '!' && s[0] != '~'
    ensures Evaluate(s) == Fail(IllegalCharacter)
  {
    assert Skip(s) == s;
    assert ParseLevel(BRACE, s) == ParseBrace(s) == ParseValue(s);
    ReadFails(s, BRACE, COMMA);
  }

  /** Spaces in front of an expression do not matter. */
  lemma {:induction false} SpaceInFront(l: nat, c: char, s: string)
    requires l <= UNARY && (c in " \t\n\r" || c as int == 12)
    ensures ParseLevel(l, [c] + s) == ParseLevel(l, s)
    decreases UNARY - l
  {
    assert ([c] + s)[1..] == s && Skip([c] + s) == Skip(s);
    if l == UNARY {
      assert ParseUnary([c] + s) == ParseUnary(s);
    } else {
      SpaceInFront(l + 1, c, s);
    }
  }
}
