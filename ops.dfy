/** The per-type operator tables of `_setup_operations`, with the host
    language's floor division and lexicographic string order written out. */
module Ops {
  import opened Syntax
  import opened Values

  /** `binary_op_list`: tokens the evaluator treats as binary operators. */
  const BinaryOps: set<string> := {"+", "-", "*", "/", "%", "==", "!=", "<", "<=", ">", ">=", "&", "|"}

  const IntOps: set<string> := {"+", "-", "*", "/", "%", "==", "!=", ">", "<", ">=", "<="}
  const StringOps: set<string> := {"+", "==", "!=", ">", "<", ">=", "<="}
  const BoolOps: set<string> := {"&", "==", "!=", "|"}

  /** Operators whose result has the operands' type; all others yield Bool. */
  const ArithOps: set<string> := {"+", "-", "*", "/", "%"}

  /** `binary_ops[t]`: the table for a type, absent for Void, Func and Object. */
  function OpsFor(t: Type): Option<set<string>>
  {
    match t
    case INT => Some(IntOps)
    case STRING => Some(StringOps)
    case BOOL => Some(BoolOps)
    case _ => None
  }

  // ---------------------------------------------------------------------
  // Integer division rounding toward negative infinity (`//` and `%`).

  function FloorDiv(n: int, d: int): int
    requires d != 0
  {
    if d > 0 then n / d else (-n) / (-d)
  }

  function FloorMod(n: int, d: int): int
    requires d != 0
  {
    n - d * FloorDiv(n, d)
  }

  /** The quotient is the floor of n/d and the remainder takes the sign of
      the divisor. */
  lemma FloorDivMod(n: int, d: int)
    requires d != 0
    ensures d > 0 ==> FloorDiv(n, d) * d <= n < (FloorDiv(n, d) + 1) * d
    ensures d < 0 ==> FloorDiv(n, d) * d >= n > (FloorDiv(n, d) + 1) * d
    ensures d > 0 ==> 0 <= FloorMod(n, d) < d
    ensures d < 0 ==> d < FloorMod(n, d) <= 0
    ensures FloorDiv(n, d) * d + FloorMod(n, d) == n
  {
    var q := FloorDiv(n, d);
    if d > 0 {
      assert n == q * d + n % d;
    } else {
      var m := -d;
      var r := (-n) % m;
      assert -n == q * m + r && 0 <= r < m;
      assert n == q * d - r;
      assert (q + 1) * d == q * d + d;
    }
  }

  /** Floor division differs from truncation on mixed signs: -7 // 2 is -4. */
  lemma FloorDivExamples()
    ensures FloorDiv(-7, 2) == -4 && FloorMod(-7, 2) == 1
    ensures FloorDiv(7, -2) == -4 && FloorMod(7, -2) == -1
    ensures FloorDiv(-7, -2) == 3 && FloorMod(-7, -2) == -1
  {
  }

  // ---------------------------------------------------------------------
  // Lexicographic order of strings by code point.

  predicate StrLess(a: string, b: string)
  {
    if |a| == 0 then |b| > 0
    else if |b| == 0 then false
    else a[0] < b[0] || (a[0] == b[0] && StrLess(a[1..], b[1..]))
  }

  lemma {:induction false} StrLessIrreflexive(a: string)
    ensures !StrLess(a, a)
  {
    if |a| > 0 {
      StrLessIrreflexive(a[1..]);
    }
  }

  lemma {:induction false} StrLessTransitive(a: string, b: string, c: string)
    requires StrLess(a, b) && StrLess(b, c)
    ensures StrLess(a, c)
  {
    if |a| > 0 && a[0] == b[0] && b[0] == c[0] {
      StrLessTransitive(a[1..], b[1..], c[1..]);
    }
  }

  lemma {:induction false} StrLessTotal(a: string, b: string)
    ensures StrLess(a, b) || a == b || StrLess(b, a)
  {
    if |a| > 0 && |b| > 0 && a[0] == b[0] {
      StrLessTotal(a[1..], b[1..]);
      if a[1..] == b[1..] {
        assert a == [a[0]] + a[1..] && b == [b[0]] + b[1..];
      }
    }
  }

  /** `>=` on strings is exactly "not less than". */
  lemma StrAtLeastIsNotLess(a: string, b: string)
    ensures (a == b || StrLess(b, a)) <==> !StrLess(a, b)
  {
    StrLessTotal(a, b);
    StrLessIrreflexive(a);
    if StrLess(a, b) && StrLess(b, a) {
      StrLessTransitive(a, b, a);
    }
  }

  // ---------------------------------------------------------------------
  // The tables.

  function IntOp(op: string, a: int, b: int): (r: Res<Content>)
    requires op in IntOps
    ensures r.Ok? ==> Tagged(r.value)
    ensures r.Crash? <==> op in {"/", "%"} && b == 0
  {
    match op
    case "+" => Ok(Content(INT, IntV(a + b)))
    case "-" => Ok(Content(INT, IntV(a - b)))
    case "*" => Ok(Content(INT, IntV(a * b)))
    case "/" => if b == 0 then Crash else Ok(Content(INT, IntV(FloorDiv(a, b))))
    case "%" => if b == 0 then Crash else Ok(Content(INT, IntV(FloorMod(a, b))))
    case "==" => Ok(Content(BOOL, BoolV(a == b)))
    case "!=" => Ok(Content(BOOL, BoolV(a != b)))
    case ">" => Ok(Content(BOOL, BoolV(a > b)))
    case "<" => Ok(Content(BOOL, BoolV(a < b)))
    case ">=" => Ok(Content(BOOL, BoolV(a >= b)))
    case "<=" => Ok(Content(BOOL, BoolV(a <= b)))
  }

  function StringOp(op: string, a: string, b: string): (r: Content)
    requires op in StringOps
    ensures Tagged(r)
  {
    match op
    case "+" => Content(STRING, StrV(a + b))
    case "==" => Content(BOOL, BoolV(a == b))
    case "!=" => Content(BOOL, BoolV(a != b))
    case ">" => Content(BOOL, BoolV(StrLess(b, a)))
    case "<" => Content(BOOL, BoolV(StrLess(a, b)))
    case ">=" => Content(BOOL, BoolV(a == b || StrLess(b, a)))
    case "<=" => Content(BOOL, BoolV(a == b || StrLess(a, b)))
  }

  function BoolOp(op: string, a: bool, b: bool): (r: Content)
    requires op in BoolOps
    ensures Tagged(r)
  {
    match op
    case "&" => Content(BOOL, BoolV(a && b))
    case "|" => Content(BOOL, BoolV(a || b))
    case "==" => Content(BOOL, BoolV(a == b))
    case "!=" => Content(BOOL, BoolV(a != b))
  }

  /** Apply a binary operator to the left and right operand (the first and
      second value popped by the evaluator). */
  function ApplyBinary(op: string, left: Content, right: Content): (r: Res<Content>)
    ensures left.t != right.t ==> r == Fail(TypeError)
    ensures left.t == right.t && OpsFor(left.t).None? ==> r == Crash
    ensures left.t == right.t && OpsFor(left.t).Some? && op !in OpsFor(left.t).value ==> r == Fail(TypeError)
    ensures r.Fail? ==> r.err == TypeError
    ensures r.Ok? ==> Tagged(r.value) && left.t in {INT, STRING, BOOL} && op in OpsFor(left.t).value
    ensures r.Ok? ==> r.value.t == (if op in ArithOps then left.t else BOOL)
  {
    if left.t != right.t then Fail(TypeError)
    else match OpsFor(left.t)
      case None => Crash
      case Some(table) =>
        if op !in table then Fail(TypeError)
        else match (left.v, right.v)
          case (IntV(a), IntV(b)) => if left.t == INT then IntOp(op, a, b) else Crash
          case (StrV(a), StrV(b)) => if left.t == STRING then Ok(StringOp(op, a, b)) else Crash
          case (BoolV(a), BoolV(b)) => if left.t == BOOL then Ok(BoolOp(op, a, b)) else Crash
          case _ => Crash
  }

  /** The unary `!`. */
  function ApplyNot(c: Content): (r: Res<Content>)
    ensures c.t != BOOL ==> r == Fail(TypeError)
    ensures Tagged(c) && c.t == BOOL ==> r == Ok(Content(BOOL, BoolV(!c.v.b)))
  {
    if c.t != BOOL then Fail(TypeError)
    else match c.v
      case BoolV(b) => Ok(Content(BOOL, BoolV(!b)))
      case _ => Crash
  }

  /** Integer `/` and `%` on tagged operands are floor division and modulo. */
  lemma IntDivisionFloors(a: int, b: int)
    requires b != 0
    ensures ApplyBinary("/", Content(INT, IntV(a)), Content(INT, IntV(b))) == Ok(Content(INT, IntV(FloorDiv(a, b))))
    ensures ApplyBinary("%", Content(INT, IntV(a)), Content(INT, IntV(b))) == Ok(Content(INT, IntV(FloorMod(a, b))))
    ensures FloorDiv(a, b) * b + FloorMod(a, b) == a
    ensures b > 0 ==> 0 <= FloorMod(a, b) < b
    ensures b < 0 ==> b < FloorMod(a, b) <= 0
  {
    FloorDivMod(a, b);
  }

  /** String comparisons agree with the lexicographic order and are mutually
      consistent: exactly one of `<`, `==`, `>` holds. */
  lemma StringComparisonsTrichotomy(a: string, b: string)
    ensures var lt := ApplyBinary("<", Content(STRING, StrV(a)), Content(STRING, StrV(b)));
            var gt := ApplyBinary(">", Content(STRING, StrV(a)), Content(STRING, StrV(b)));
            var eq := ApplyBinary("==", Content(STRING, StrV(a)), Content(STRING, StrV(b)));
            lt.Ok? && gt.Ok? && eq.Ok? &&
            (if lt.value.v.b then 1 else 0) + (if gt.value.v.b then 1 else 0) + (if eq.value.v.b then 1 else 0) == 1
  {
    StrLessTotal(a, b);
    StrLessIrreflexive(a);
    if StrLess(a, b) && StrLess(b, a) {
      StrLessTransitive(a, b, a);
    }
  }
}
