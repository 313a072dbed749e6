/** The stack machine of `_eval_expression`: a prefix token list is scanned
    from right to left; operands are pushed, a binary operator pops its left
    operand first and its right operand second, `!` pops one operand, and
    exactly one value must remain. Operand resolution is done by the caller;
    an item carries the outcome of resolving its token. */
module Prefix {
  import opened Syntax
  import opened Values
  import opened Ops
  import opened Literals

  datatype Item = BinOp(op: string) | Bang | Operand(r: Res<Content>)

  /** The item for a token, given what resolving it as an operand yields. */
  function ItemFor(tok: Token, resolved: Res<Content>): (it: Item)
    ensures it.BinOp? <==> tok.Word? && tok.w in BinaryOps
    ensures it.Bang? <==> tok == Word("!")
    ensures it.Operand? ==> it.r == resolved
  {
    if tok.Word? && tok.w in BinaryOps then BinOp(tok.w)
    else if tok == Word("!") then Bang
    else Operand(resolved)
  }

  /** One step of the scan on the stack `st` (its top is the last element). */
  function Step(st: seq<Content>, it: Item): Res<seq<Content>>
  {
    match it
    case BinOp(op) =>
      if |st| < 2 then Crash
      else
        var r :- ApplyBinary(op, st[|st| - 1], st[|st| - 2]);
        Ok(st[..|st| - 2] + [r])
    case Bang =>
      if |st| < 1 then Crash
      else
        var r :- ApplyNot(st[|st| - 1]);
        Ok(st[..|st| - 1] + [r])
    case Operand(r) =>
      var c :- r;
      Ok(st + [c])
  }

  /** Process `items` from the last to the first, starting from stack `st`. */
  function Run(items: seq<Item>, st: seq<Content>): Res<seq<Content>>
    decreases |items|
  {
    if |items| == 0 then Ok(st)
    else
      var st' :- Step(st, items[|items| - 1]);
      Run(items[..|items| - 1], st')
  }

  /** Scanning the first `i` items: item `i - 1` is processed first, then
      the remaining prefix on the stack it leaves; a failing item stops the
      scan with its own error. */
  lemma RunPrefixStep(items: seq<Item>, i: nat, st: seq<Content>)
    requires 0 < i <= |items|
    ensures Step(st, items[i - 1]).Ok? ==> Run(items[..i], st) == Run(items[..i - 1], Step(st, items[i - 1]).value)
    ensures Step(st, items[i - 1]).Fail? ==> Run(items[..i], st) == Fail(Step(st, items[i - 1]).err)
    ensures Step(st, items[i - 1]).Crash? ==> Run(items[..i], st) == Crash
  {
    assert items[..i][..i - 1] == items[..i - 1];
  }

  /** The value of a prefix expression. */
  function Eval(items: seq<Item>): Res<Content>
  {
    match Run(items, [])
    case Ok(st) => if |st| == 1 then Ok(st[0]) else Fail(SyntaxError)
    case Fail(e) => Fail(e)
    case Crash => Crash
  }

  // ---------------------------------------------------------------------
  // Stack discipline.

  /** Operands minus binary operators: the net number of values pushed. */
  function Balance(items: seq<Item>): int
  {
    if |items| == 0 then 0
    else Balance(items[..|items| - 1]) + (match items[|items| - 1]
                                          case BinOp(_) => -1
                                          case Bang => 0
                                          case Operand(_) => 1)
  }

  lemma {:induction false} RunBalance(items: seq<Item>, st: seq<Content>)
    requires Run(items, st).Ok?
    ensures |Run(items, st).value| == |st| + Balance(items)
    decreases |items|
  {
    if |items| > 0 {
      var st' := Step(st, items[|items| - 1]).value;
      RunBalance(items[..|items| - 1], st');
    }
  }

  /** When the scan completes, the expression is a syntax error exactly when
      the operands and operators do not leave a single value. */
  lemma SingleValueRule(items: seq<Item>)
    requires Run(items, []).Ok?
    ensures Eval(items) == Fail(SyntaxError) <==> Balance(items) != 1
    ensures Eval(items).Ok? <==> Balance(items) == 1
  {
    RunBalance(items, []);
  }

  /** A step that succeeds on a stack succeeds the same way on a deeper one. */
  lemma StepFrame(base: seq<Content>, st: seq<Content>, it: Item)
    requires Step(st, it).Ok?
    ensures Step(base + st, it) == Ok(base + Step(st, it).value)
  {
    var s := base + st;
    match it
    case BinOp(op) =>
      assert s[|s| - 1] == st[|st| - 1] && s[|s| - 2] == st[|st| - 2];
      assert s[..|s| - 2] == base + st[..|st| - 2];
      var r := ApplyBinary(op, st[|st| - 1], st[|st| - 2]).value;
      assert (base + st[..|st| - 2]) + [r] == base + (st[..|st| - 2] + [r]);
    case Bang =>
      assert s[|s| - 1] == st[|st| - 1];
      assert s[..|s| - 1] == base + st[..|st| - 1];
      var r := ApplyNot(st[|st| - 1]).value;
      assert (base + st[..|st| - 1]) + [r] == base + (st[..|st| - 1] + [r]);
    case Operand(r) =>
      assert (base + st) + [r.value] == base + (st + [r.value]);
  }

  lemma {:induction false} RunFrame(base: seq<Content>, st: seq<Content>, items: seq<Item>)
    requires Run(items, st).Ok?
    ensures Run(items, base + st) == Ok(base + Run(items, st).value)
    decreases |items|
  {
    if |items| > 0 {
      var it := items[|items| - 1];
      StepFrame(base, st, it);
      RunFrame(base, Step(st, it).value, items[..|items| - 1]);
    }
  }

  lemma {:induction false} RunAppend(xs: seq<Item>, ys: seq<Item>, st: seq<Content>)
    ensures Run(xs + ys, st) == (match Run(ys, st)
                                 case Ok(mid) => Run(xs, mid)
                                 case Fail(e) => Fail(e)
                                 case Crash => Crash)
    decreases |ys|
  {
    if |ys| > 0 {
      var zs := xs + ys;
      assert zs[|zs| - 1] == ys[|ys| - 1];
      assert zs[..|zs| - 1] == xs + ys[..|ys| - 1];
      if Step(st, ys[|ys| - 1]).Ok? {
        RunAppend(xs, ys[..|ys| - 1], Step(st, ys[|ys| - 1]).value);
      }
    } else {
      assert xs + ys == xs;
    }
  }

  /** Compositionality: an operator followed by two complete expressions
      applies to them in written order, the left one being popped first. */
  lemma BinaryOfSubexpressions(op: string, e1: seq<Item>, e2: seq<Item>, a: Content, b: Content)
    requires op in BinaryOps
    requires Run(e1, []) == Ok([a]) && Run(e2, []) == Ok([b])
    ensures Eval([BinOp(op)] + e1 + e2) == ApplyBinary(op, a, b)
  {
    RunAppend([BinOp(op)] + e1, e2, []);
    RunAppend([BinOp(op)], e1, [b]);
    RunFrame([b], [], e1);
    assert [b] + [] == [b] && [b] + [a] == [b, a];
    assert Run([BinOp(op)], [b, a]) == Step([b, a], BinOp(op));
  }

  lemma NotOfSubexpression(e: seq<Item>, a: Content)
    requires Run(e, []) == Ok([a])
    ensures Eval([Bang] + e) == ApplyNot(a)
  {
    RunAppend([Bang], e, []);
    assert Run([Bang], [a]) == Step([a], Bang);
  }

  // ---------------------------------------------------------------------
  // Expressions made only of literals and operators.

  function LiteralItem(tok: Token): Item
  {
    ItemFor(tok, match LiteralValue(Classify(tok)) case Some(r) => r case None => Fail(NameError))
  }

  /** A decimal integer token is an integer operand. */
  lemma IntItem(i: int)
    requires ShowInt(i) !in BinaryOps && ShowInt(i) != "!"
    ensures LiteralItem(Word(ShowInt(i))) == Operand(Ok(Content(INT, IntV(i))))
  {
    IntLiteralRoundTrip(i);
  }

  function Int(i: int): Item { Operand(Ok(Content(INT, IntV(i)))) }

  function IntC(i: int): Content { Content(INT, IntV(i)) }

  lemma StepBinaryOn(below: seq<Content>, right: Content, left: Content, op: string)
    ensures Step(below + [right, left], BinOp(op)) == (match ApplyBinary(op, left, right)
                                                       case Ok(x) => Ok(below + [x])
                                                       case Fail(e) => Fail(e)
                                                       case Crash => Crash)
  {
    var st := below + [right, left];
    assert st[|st| - 1] == left && st[|st| - 2] == right && st[..|st| - 2] == below;
  }

  lemma StepBangOn(below: seq<Content>, c: Content)
    ensures Step(below + [c], Bang) == (match ApplyNot(c)
                                        case Ok(x) => Ok(below + [x])
                                        case Fail(e) => Fail(e)
                                        case Crash => Crash)
  {
    var st := below + [c];
    assert st[|st| - 1] == c && st[..|st| - 1] == below;
  }

  lemma SmallIntItems()
    ensures LiteralItem(Word("2")) == Int(2) && LiteralItem(Word("3")) == Int(3)
    ensures LiteralItem(Word("4")) == Int(4) && LiteralItem(Word("5")) == Int(5)
  {
    assert ShowInt(2) == "2" && ShowInt(3) == "3" && ShowInt(4) == "4" && ShowInt(5) == "5";
    IntItem(2); IntItem(3); IntItem(4); IntItem(5);
  }

  lemma NegativeIntItem()
    ensures LiteralItem(Word("-7")) == Int(-7)
  {
    assert ShowInt(-7) == "-7";
    IntItem(-7);
  }

  /** A quoted token is a string operand holding the text between the quotes. */
  lemma StringItem(s: string)
    requires |s| == 0 || (s[0] != '"' && s[|s| - 1] != '"')
    ensures LiteralItem(Word("\"" + s + "\"")) == Operand(Ok(Content(STRING, StrV(s))))
  {
    var w := "\"" + s + "\"";
    StringLiteralRoundTrip(s);
    assert w[0] == '"';
    assert forall o :: o in BinaryOps ==> o[0] != '"';
  }

  lemma BoolItem()
    ensures LiteralItem(Kw(TrueKw)) == Operand(Ok(Content(BOOL, BoolV(true))))
  {
  }

  lemma OperatorItems()
    ensures LiteralItem(Word("+")) == BinOp("+") && LiteralItem(Word("*")) == BinOp("*")
    ensures LiteralItem(Word("/")) == BinOp("/") && LiteralItem(Word("!")) == Bang
  {
  }

  lemma EvalSum()
    ensures Eval([BinOp("+"), Int(5), Int(3)]) == Ok(IntC(8))
  {
    var items := [BinOp("+"), Int(5), Int(3)];
    StepBinaryOn([], IntC(3), IntC(5), "+");
    assert [] + [IntC(3), IntC(5)] == [IntC(3), IntC(5)] && [] + [IntC(8)] == [IntC(8)];
    assert [IntC(3)] + [IntC(5)] == [IntC(3), IntC(5)] && [] + [IntC(3)] == [IntC(3)];
    assert Run(items[..1], [IntC(3), IntC(5)]) == Ok([IntC(8)]);
    assert Run(items[..2], [IntC(3)]) == Run(items[..1], [IntC(3), IntC(5)]);
    assert Run(items, []) == Run(items[..2], [IntC(3)]);
  }

  lemma EvalNested()
    ensures Eval([BinOp("*"), BinOp("+"), Int(2), Int(3), Int(4)]) == Ok(IntC(20))
  {
    var items := [BinOp("*"), BinOp("+"), Int(2), Int(3), Int(4)];
    StepBinaryOn([], IntC(4), IntC(5), "*");
    StepBinaryOn([IntC(4)], IntC(3), IntC(2), "+");
    assert [] + [IntC(4), IntC(5)] == [IntC(4), IntC(5)] && [] + [IntC(20)] == [IntC(20)];
    assert [IntC(4)] + [IntC(3), IntC(2)] == [IntC(4), IntC(3), IntC(2)] && [IntC(4)] + [IntC(5)] == [IntC(4), IntC(5)];
    assert [IntC(4), IntC(3)] + [IntC(2)] == [IntC(4), IntC(3), IntC(2)] && [IntC(4)] + [IntC(3)] == [IntC(4), IntC(3)];
    assert [] + [IntC(4)] == [IntC(4)];
    assert items[..4][..3] == items[..3] && items[..3][..2] == items[..2] && items[..2][..1] == items[..1];
    assert items[..4][3] == Int(3) && items[..3][2] == Int(2);
    assert Run(items[..1], [IntC(4), IntC(5)]) == Ok([IntC(20)]);
    assert Run(items[..2], [IntC(4), IntC(3), IntC(2)]) == Run(items[..1], [IntC(4), IntC(5)]);
    assert Run(items[..3], [IntC(4), IntC(3)]) == Run(items[..2], [IntC(4), IntC(3), IntC(2)]);
    assert Run(items[..4], [IntC(4)]) == Run(items[..3], [IntC(4), IntC(3)]);
    assert Run(items, []) == Run(items[..4], [IntC(4)]);
  }

  lemma EvalNot()
    ensures Eval([Bang, Operand(Ok(Content(BOOL, BoolV(true))))]) == Ok(Content(BOOL, BoolV(false)))
  {
    var t := Content(BOOL, BoolV(true));
    var items := [Bang, Operand(Ok(t))];
    StepBangOn([], t);
    assert [] + [t] == [t] && [] + [Content(BOOL, BoolV(false))] == [Content(BOOL, BoolV(false))];
    assert Run(items[..1], [t]) == Ok([Content(BOOL, BoolV(false))]);
    assert Run(items, []) == Run(items[..1], [t]);
  }

  lemma EvalMixedTypes()
    ensures Eval([BinOp("+"), Int(5), Operand(Ok(Content(STRING, StrV("a"))))]) == Fail(TypeError)
  {
    var a := Content(STRING, StrV("a"));
    var items := [BinOp("+"), Int(5), Operand(Ok(a))];
    StepBinaryOn([], a, IntC(5), "+");
    assert [] + [a, IntC(5)] == [a, IntC(5)] && [a] + [IntC(5)] == [a, IntC(5)] && [] + [a] == [a];
    assert Run(items[..1], [a, IntC(5)]) == Fail(TypeError);
    assert Run(items[..2], [a]) == Run(items[..1], [a, IntC(5)]);
    assert Run(items, []) == Run(items[..2], [a]);
  }

  lemma EvalFloorDivision()
    ensures Eval([BinOp("/"), Int(-7), Int(2)]) == Ok(IntC(-4))
  {
    var items := [BinOp("/"), Int(-7), Int(2)];
    assert FloorDiv(-7, 2) == -4;
    StepBinaryOn([], IntC(2), IntC(-7), "/");
    assert [] + [IntC(2), IntC(-7)] == [IntC(2), IntC(-7)] && [] + [IntC(-4)] == [IntC(-4)];
    assert [IntC(2)] + [IntC(-7)] == [IntC(2), IntC(-7)] && [] + [IntC(2)] == [IntC(2)];
    assert Run(items[..1], [IntC(2), IntC(-7)]) == Ok([IntC(-4)]);
    assert Run(items[..2], [IntC(2)]) == Run(items[..1], [IntC(2), IntC(-7)]);
    assert Run(items, []) == Run(items[..2], [IntC(2)]);
  }

  lemma EvalTwoValuesLeft()
    ensures Eval([Int(5), Int(3)]) == Fail(SyntaxError)
  {
    var items := [Int(5), Int(3)];
    assert [IntC(3)] + [IntC(5)] == [IntC(3), IntC(5)] && [] + [IntC(3)] == [IntC(3)];
    assert Run(items[..1], [IntC(3)]) == Ok([IntC(3), IntC(5)]);
    assert Run(items, []) == Run(items[..1], [IntC(3)]);
  }

  /** The evaluator on the token lists `+ 5 3`, `* + 2 3 4`, `! true`,
      `+ 5 "a"`, `/ -7 2` and `5 3`. */
  lemma Examples()
    ensures Eval([LiteralItem(Word("+")), LiteralItem(Word("5")), LiteralItem(Word("3"))]) == Ok(IntC(8))
    ensures Eval([LiteralItem(Word("*")), LiteralItem(Word("+")), LiteralItem(Word("2")),
                  LiteralItem(Word("3")), LiteralItem(Word("4"))]) == Ok(IntC(20))
    ensures Eval([LiteralItem(Word("!")), LiteralItem(Kw(TrueKw))]) == Ok(Content(BOOL, BoolV(false)))
    ensures Eval([LiteralItem(Word("+")), LiteralItem(Word("5")), LiteralItem(Word("\"a\""))]) == Fail(TypeError)
    ensures Eval([LiteralItem(Word("/")), LiteralItem(Word("-7")), LiteralItem(Word("2"))]) == Ok(IntC(-4))
    ensures Eval([LiteralItem(Word("5")), LiteralItem(Word("3"))]) == Fail(SyntaxError)
  {
    SmallIntItems();
    NegativeIntItem();
    StringItem("a");
    assert "\"" + "a" + "\"" == "\"a\"";
    BoolItem();
    OperatorItems();
    EvalSum();
    EvalNested();
    EvalNot();
    EvalMixedTypes();
    EvalFloorDivision();
    EvalTwoValuesLeft();
  }
}
