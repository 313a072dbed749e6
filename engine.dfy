/** The execution engine: the interpreter object whose instruction pointer,
    return-address stack, termination flag and scope stack the statement
    handlers update, over a heap of shared value cells. */
module Engine {
  import opened Syntax
  import opened Values
  import opened Ops
  import opened Literals
  import opened Prefix
  import opened Environments
  import opened Functions
  import opened Blocks

  /** `InterpreterBase.MAIN_FUNC`. */
  const MainFunc: string := "main"

  /** What resolving an operand token yields: an existing cell (a variable or
      an object field, shared with every other holder), or a value that
      `_get_value` wraps in a new cell. */
  datatype Operand = Cell(c: Value) | Fresh(content: Content)

  /** `f in s` on strings: the substring test. */
  predicate Contains(s: string, f: string)
  {
    exists i :: 0 <= i <= |s| && f <= s[i..]
  }

  function ContentsOf(s: seq<Value>): (r: seq<Content>)
    reads s
    ensures |r| == |s| && forall k :: 0 <= k < |s| ==> r[k] == s[k].Contents()
  {
    seq(|s|, k requires 0 <= k < |s| reads s => s[k].Contents())
  }

  function ContentOf(r: Res<Value>): Res<Content>
    reads if r.Ok? then {r.value} else {}
  {
    match r
    case Ok(v) => Ok(v.Contents())
    case Fail(e) => Fail(e)
    case Crash => Crash
  }

  /** Cells and dictionaries whose contents only refer to the heap closure,
      or to each other, can join it. */
  lemma AddToHeap(cells: set<Value>, dicts: set<Dict>, add: set<Value>, addDicts: set<Dict>)
    requires Closed(cells, dicts)
    requires forall c :: c in add ==> CellIn(c, cells + add, dicts + addDicts)
    requires forall d :: d in addDicts ==> DictIn(d, cells + add)
    ensures Closed(cells + add, dicts + addDicts)
  {
    forall c | c in cells + add
      ensures CellIn(c, cells + add, dicts + addDicts)
    {
      if c in cells {
        assert CellIn(c, cells, dicts);
        PayloadInMono(c.v, cells, dicts, cells + add, dicts + addDicts);
      }
    }
    forall d | d in dicts + addDicts
      ensures DictIn(d, cells + add)
    {
      if d in dicts {
        assert DictIn(d, cells);
      }
    }
  }

  /** `xs` followed by the list `r` holds, or `r`'s error. */
  function Prepend<T>(xs: seq<T>, r: Res<seq<T>>): (p: Res<seq<T>>)
    ensures p.Ok? <==> r.Ok?
    ensures p.Ok? ==> p.value == xs + r.value
    ensures !r.Ok? ==> p == r.PropagateFailure()
  {
    match r
    case Ok(ys) => Ok(xs + ys)
    case Fail(e) => Fail(e)
    case Crash => Crash
  }

  /** Nothing in front changes nothing. */
  lemma PrependNothing<T>(r: Res<seq<T>>)
    ensures Prepend([], r) == r
  {
    match r
    case Ok(ys) => assert [] + ys == ys;
    case _ =>
  }

  /** Putting `xs` and then `x` in front is putting `xs + [x]` in front. */
  lemma PrependTwice<T>(xs: seq<T>, x: T, r: Res<seq<T>>)
    ensures Prepend(xs, Prepend([x], r)) == Prepend(xs + [x], r)
  {
    match r
    case Ok(ys) => assert xs + ([x] + ys) == (xs + [x]) + ys;
    case _ =>
  }

  /** The parameter bindings of a call as `_create_new_environment`
      collects them, parameter by parameter: a name listed twice keeps its
      last binding. */
  function ParamScope(params: seq<(string, TypeName)>, cells: seq<Value>): (m: Scope)
    requires |params| == |cells|
    ensures m.Keys == set k | 0 <= k < |params| :: params[k].0
    ensures forall x :: x in m ==> m[x] in cells
    decreases |params|
  {
    if |params| == 0 then map[]
    else
      var n := |params| - 1;
      var m := ParamScope(params[..n], cells[..n]);
      assert forall k :: 0 <= k < n ==> params[..n][k] == params[k] && cells[..n][k] == cells[k];
      m[params[n].0 := cells[n]]
  }

  /** Each parameter name denotes the cell of its last occurrence. */
  lemma {:induction false} ParamScopeLast(params: seq<(string, TypeName)>, cells: seq<Value>, k: nat)
    requires |params| == |cells| && k < |params|
    requires forall j :: k < j < |params| ==> params[j].0 != params[k].0
    ensures params[k].0 in ParamScope(params, cells) && ParamScope(params, cells)[params[k].0] == cells[k]
    decreases |params|
  {
    var n := |params| - 1;
    assert ParamScope(params, cells) == ParamScope(params[..n], cells[..n])[params[n].0 := cells[n]];
    if k < n {
      assert params[..n][k] == params[k] && cells[..n][k] == cells[k];
      assert forall j :: k < j < n ==> params[..n][j] == params[j];
      ParamScopeLast(params[..n], cells[..n], k);
    }
  }

  /** `this` for a call of `obj.method`: the cell `obj` denotes in the
      caller's frame. When `obj` is unbound the interpreter binds `this` to
      `None`, which a scope of cells cannot hold; no binding is added here,
      so lookups of `this` behave the same, but a declaration of `this` in
      the callee is accepted and a captured `this` is kept. */
  function ThisBinding(fname: string, f: Frame): (m: Scope)
    ensures m.Keys <= {"this"}
    ensures "this" in m <==> Contains(fname, ".") && Find(f, BeforeDot(fname)).Some?
    ensures "this" in m ==> m["this"] == Find(f, BeforeDot(fname)).value
  {
    if Contains(fname, ".") then
      match Find(f, BeforeDot(fname))
      case Some(c) => map["this" := c]
      case None => map[]
    else map[]
  }

  /** The built-in a call names, if any: `print`, `input` or
      `strtoint`. */
  function BuiltinOf(t: Token): (b: Option<Keyword>)
    ensures b.Some? <==> IsKw(t, PrintKw) || IsKw(t, InputKw) || IsKw(t, StrToIntKw)
    ensures b.Some? ==> IsKw(t, b.value) && b.value in {PrintKw, InputKw, StrToIntKw}
  {
    if IsKw(t, PrintKw) then Some(PrintKw)
    else if IsKw(t, InputKw) then Some(InputKw)
    else if IsKw(t, StrToIntKw) then Some(StrToIntKw)
    else None
  }

  /** The texts of a list of tokens. */
  function Texts(ts: seq<Token>): (r: seq<string>)
    ensures |r| == |ts| && forall k :: 0 <= k < |ts| ==> r[k] == TokenText(ts[k])
  {
    seq(|ts|, k requires 0 <= k < |ts| => TokenText(ts[k]))
  }

  /** What `_define_var` reports for declaring `names`, in turn, with the
      type keyword `tn` in a scope that already binds `taken`: each name must
      be new to the scope, else a name error, and once the first name is
      declared the keyword must have a default, else a type error. */
  function DefineCheck(tn: Option<TypeName>, names: seq<string>, taken: set<string>): Res<()>
    decreases |names|
  {
    if names == [] then Ok(())
    else if names[0] in taken then Fail(NameError)
    else if tn.None? || !HasDefault(tn.value) then Fail(TypeError)
    else DefineCheck(tn, names[1..], taken + {names[0]})
  }

  /** Declaring the name at `k` with a usable keyword moves the check on to
      the next name. */
  lemma DefineCheckStep(tn: Option<TypeName>, names: seq<string>, k: nat, taken: set<string>)
    requires k < |names| && names[k] !in taken && tn.Some? && HasDefault(tn.value)
    ensures DefineCheck(tn, names[k..], taken) == DefineCheck(tn, names[k + 1..], taken + {names[k]})
  {
    assert names[k..][0] == names[k] && names[k..][1..] == names[k + 1..];
  }

  /** A declaration goes through exactly when the names are distinct and
      new to the scope and the keyword has a default; it never raises. */
  lemma {:induction false} DefineCheckOk(tn: Option<TypeName>, names: seq<string>, taken: set<string>)
    requires names != []
    ensures !DefineCheck(tn, names, taken).Crash?
    ensures DefineCheck(tn, names, taken).Ok? <==>
              tn.Some? && HasDefault(tn.value) &&
              (forall k :: 0 <= k < |names| ==> names[k] !in taken) &&
              (forall i, j :: 0 <= i < j < |names| ==> names[i] != names[j])
    ensures DefineCheck(tn, names, taken) == Fail(TypeError) <==>
              names[0] !in taken && (tn.None? || !HasDefault(tn.value))
    decreases |names|
  {
    if names[0] !in taken && tn.Some? && HasDefault(tn.value) && |names| > 1 {
      var rest := names[1..];
      DefineCheckOk(tn, rest, taken + {names[0]});
      assert forall k :: 0 < k < |names| ==> names[k] == rest[k - 1];
      if DefineCheck(tn, rest, taken + {names[0]}).Ok? {
        assert forall k :: 0 <= k < |names| ==> names[k] !in taken;
      }
    }
  }

  /** The statement keywords `_process_line` has a case for. */
  predicate IsStatement(k: Keyword)
  {
    k in {AssignKw, FuncCallKw, EndFuncKw, IfKw, ElseKw, EndIfKw, ReturnKw,
          WhileKw, EndWhileKw, VarKw, LambdaKw, EndLambdaKw}
  }

  /** The statement a line's head token names, if `_process_line` has a
      case for it. */
  function StatementOf(t: Token): (r: Option<Keyword>)
    ensures r.Some? ==> IsKw(t, r.value) && IsStatement(r.value)
  {
    match KeywordNamed(t)
    case Some(k) => if IsStatement(k) then Some(k) else None
    case None => None
  }

  /** A head spelling a statement keyword is dispatched to that statement,
      so `_process_line` raises on an unknown head exactly. */
  lemma StatementOfComplete(t: Token, k: Keyword)
    requires IsKw(t, k) && IsStatement(k)
    ensures StatementOf(t) == Some(k)
  {
    KeywordNamedComplete(t, k);
  }

  /** How `run` ends: `endfunc` of `main`, an error the interpreter reports,
      an exception of the host language, or the step budget of the model
      spent. */
  datatype Outcome = Finished | Raised(err: ErrorKind) | Crashed | OutOfFuel

  class Interpreter {
    const prog: seq<seq<Token>>
    const indents: seq<int>
    var ip: int
    var returnStack: seq<int>
    var terminate: bool
    const env: EnvManager
    const funcs: FuncManager
    /** The dictionary of `type_to_default[object]`, shared by every default
        object a function returns. */
    const defaultDict: Dict
    /** Lines the console will deliver to `input`. */
    var input: seq<string>
    ghost var Cells: set<Value>
    ghost var Dicts: set<Dict>

    /** The heap closure and the shape of the program. */
    ghost predicate HeapInv()
      reads this, env, Cells, Dicts
    {
      Shaped(prog, indents) && defaultDict in Dicts && |env.frames| > 0 &&
      FramesIn(env.frames, Cells) && Closed(Cells, Dicts)
    }

    /** The heap closure also covers the captures of every function value
        of the table. */
    ghost predicate Inv()
      reads this, env, funcs, Cells, Dicts
    {
      HeapInv() && TableIn(funcs.table, Cells)
    }

    /** `run`'s set-up: indentation of the source lines, the function table
        header discovery built, execution from the first statement of `main`
        with an empty return stack and the main frame. A program without
        `main` starts at an address no line has, so its first step crashes as
        the lookup of `main` does. */
    constructor (lines: seq<string>, program: seq<seq<Token>>, table: map<string, FuncInfo>,
                 returnTypes: map<int, TypeName>, console: seq<string>)
      requires |lines| == |program|
      requires forall n :: n in table ==> table[n].captures == []
      ensures prog == program && indents == Indentation(lines)
      ensures ip == (if MainFunc in table then table[MainFunc].startIp else -1)
      ensures returnStack == [] && !terminate && input == console
      ensures env.frames == [[map[]]] && funcs.table == table && funcs.returnTypes == returnTypes
      ensures defaultDict.fields == map[]
      ensures Valid()
    {
      prog := program;
      indents := Indentation(lines);
      ip := if MainFunc in table then table[MainFunc].startIp else -1;
      returnStack := [];
      terminate := false;
      env := new EnvManager();
      funcs := new FuncManager(table, returnTypes);
      defaultDict := new Dict(map[]);
      input := console;
      Cells := {};
      Dicts := {defaultDict};
    }

    /** Every cell and dictionary the heap gained is new. */
    twostate predicate Grew()
      reads this
    {
      (forall c :: c in Cells ==> c in old(Cells) || fresh(c)) &&
      (forall d :: d in Dicts ==> d in old(Dicts) || fresh(d))
    }

    /** One return address per frame above the main one. */
    ghost predicate Valid()
      reads this, env, funcs, Cells, Dicts
    {
      Inv() && |env.frames| == |returnStack| + 1
    }

    /** `_advance_to_next_statement`. */
    method Advance()
      requires Valid()
      modifies this`ip
      ensures Valid() && ip == old(ip) + 1
    {
      ip := ip + 1;
    }

    /** Resume at the innermost return address, dropping it. */
    method PopReturn()
      requires Inv() && |returnStack| > 0
      modifies this`ip, this`returnStack
      ensures Inv() && ip == old(returnStack)[|old(returnStack)| - 1] &&
              returnStack == old(returnStack)[..|old(returnStack)| - 1]
    {
      ip := returnStack[|returnStack| - 1];
      returnStack := returnStack[..|returnStack| - 1];
    }

    /** Continue at line `target`. */
    method GoTo(target: int)
      requires Valid()
      modifies this`ip
      ensures Valid() && ip == target
    {
      ip := target;
    }

    /** Enter the block that starts on the next line, in a new scope. */
    method EnterBlock()
      requires Valid() && 0 <= ip < |prog|
      modifies this`ip, env
      ensures Valid() && ip == old(ip) + 1 && env.frames == Nest(old(env.frames))
    {
      Advance();
      NestBlock();
    }

    /** `block_nest`: a new innermost scope. */
    method NestBlock()
      requires Valid()
      modifies env
      ensures Valid() && env.frames == Nest(old(env.frames))
    {
      FramesInShape(env.frames, Cells);
      env.BlockNest();
    }

    // -------------------------------------------------------------------
    // `_get_value`.

    /** Resolve an operand token in the order `_get_value` tries: literals,
        then an object field, then a variable of the current frame, then a
        function name. */
    function Lookup(tok: Token): (r: Res<Operand>)
      requires Inv()
      reads this, env, funcs, Cells, Dicts
      ensures r.Ok? ==> GoodOperand(r.value)
      ensures r.Fail? ==> r.err in {NameError, TypeError}
    {
      LookupIn(tok, funcs.table)
    }

    /** The same resolution against a given function table. */
    function LookupIn(tok: Token, table: map<string, FuncInfo>): (r: Res<Operand>)
      requires HeapInv() && TableIn(table, Cells)
      reads this, env, Cells, Dicts
      ensures r.Ok? ==> GoodOperand(r.value)
      ensures r.Fail? ==> r.err in {NameError, TypeError}
    {
      match Classify(tok)
      case LEmpty => Fail(NameError)
      case LStr(s) => Ok(Fresh(Content(STRING, StrV(s))))
      case LInt(i) => Ok(Fresh(Content(INT, IntV(i))))
      case LBadInt => Crash
      case LBool(b) => Ok(Fresh(Content(BOOL, BoolV(b))))
      case LField(o, f) => FieldLookup(o, f)
      case LName(n) => NameLookup(n, table)
    }

    /** `obj.field`: the object variable must hold a dictionary (a void value
        is a type error) that has the field (else a name error), and the
        value is the field's own cell, shared rather than copied. A missing
        variable raises; so does a string that contains the field's name as
        a substring, and any other payload. */
    function FieldLookup(o: string, f: string): (r: Res<Operand>)
      requires HeapInv()
      reads this, env, Cells, Dicts
      ensures r.Ok? ==> r.value.Cell? && GoodOperand(r.value)
      ensures r.Ok? <==> env.Get(o).Some? && env.Get(o).value.v.ObjV? && f in env.Get(o).value.v.d.fields
      ensures r.Ok? ==> r.value.c == env.Get(o).value.v.d.fields[f]
      ensures r == Fail(TypeError) <==> env.Get(o).Some? && env.Get(o).value.v.NoneV?
      ensures r == Fail(NameError) <==>
                env.Get(o).Some? &&
                ((env.Get(o).value.v.ObjV? && f !in env.Get(o).value.v.d.fields) ||
                 (env.Get(o).value.v.StrV? && !Contains(env.Get(o).value.v.s, f)))
      ensures env.Get(o).None? ==> r == Crash
    {
      FoundIn(Top(env.frames), o, Cells);
      match env.Get(o)
      case None => Crash
      case Some(c) =>
        match c.v
        case NoneV => Fail(TypeError)
        case ObjV(d) =>
          assert CellIn(c, Cells, Dicts) && DictIn(d, Cells);
          if f in d.fields then
            assert d.fields[f] in d.fields.Values;
            assert CellIn(d.fields[f], Cells, Dicts);
            Ok(Cell(d.fields[f]))
          else Fail(NameError)
        case StrV(s) => if Contains(s, f) then Crash else Fail(NameError)
        case _ => Crash
    }

    /** A variable of the current frame, else a function of that name. */
    function NameLookup(n: string, table: map<string, FuncInfo>): (r: Res<Operand>)
      requires HeapInv() && TableIn(table, Cells)
      reads this, env, Cells, Dicts
      ensures r.Ok? ==> GoodOperand(r.value)
      ensures !r.Crash? && (r.Fail? ==> r.err == NameError)
    {
      FoundIn(Top(env.frames), n, Cells);
      match env.Get(n)
      case Some(c) =>
        assert CellIn(c, Cells, Dicts);
        Ok(Cell(c))
      case None =>
        if n in table then Ok(Fresh(Content(FUNC, FuncV(table[n])))) else Fail(NameError)
    }

    /** The contents an operand token denotes. */
    function Resolved(tok: Token): Res<Content>
      requires Inv()
      reads this, env, funcs, Cells, Dicts
    {
      match Lookup(tok)
      case Ok(Cell(c)) => Ok(c.Contents())
      case Ok(Fresh(x)) => Ok(x)
      case Fail(e) => Fail(e)
      case Crash => Crash
    }

    /** The evaluator items of a token list in the current state. */
    ghost function Items(tokens: seq<Token>): (items: seq<Item>)
      requires Inv()
      reads this, env, funcs, Cells, Dicts
      ensures |items| == |tokens|
      ensures forall k :: 0 <= k < |tokens| ==> items[k] == ItemFor(tokens[k], Resolved(tokens[k]))
    {
      seq(|tokens|, k requires 0 <= k < |tokens| && Inv() reads this, env, funcs, Cells, Dicts =>
                      ItemFor(tokens[k], Resolved(tokens[k])))
    }

    /** The value of an expression in the current state. */
    ghost function EvalOf(tokens: seq<Token>): Res<Content>
      requires Inv()
      reads this, env, funcs, Cells, Dicts
    {
      Eval(Items(tokens))
    }

    method GetValue(tok: Token) returns (r: Res<Value>)
      requires Inv()
      ensures Inv() && ContentOf(r) == old(Resolved(tok))
      ensures forall n :: SetOutcome(n) == old(SetOutcome(n))
      ensures old(Lookup(tok)).Ok? && old(Lookup(tok)).value.Cell? ==> r == Ok(old(Lookup(tok)).value.c)
      ensures old(Lookup(tok)).Ok? && old(Lookup(tok)).value.Fresh? ==> r.Ok? && fresh(r.value)
      ensures r.Ok? ==> Good(r.value)
    {
      var l := Lookup(tok);
      match l
      case Ok(Cell(c)) =>
        r := Ok(c);
      case Ok(Fresh(x)) =>
        var v := new Value(x.t, x.v);
        r := Ok(v);
      case Fail(e) =>
        r := Fail(e);
      case Crash =>
        r := Crash;
    }

    // -------------------------------------------------------------------
    // `_eval_expression`.

    /** A cell the evaluator may hold: well tagged and closed over the heap. */
    ghost predicate Good(v: Value)
      reads this, v, Cells, Dicts
    {
      CellIn(v, Cells, Dicts)
    }

    /** An entry of the evaluator's stack: a cell of the heap, or the value
        of a cell that only the stack holds. */
    ghost predicate GoodOperand(o: Operand)
      reads this, Cells, Dicts
    {
      match o
      case Cell(c) => c in Cells && CellIn(c, Cells, Dicts)
      case Fresh(x) => Tagged(x) && PayloadIn(x.v, Cells, Dicts)
    }

    /** Contents of the stack entries, bottom first. */
    function ContentsOfStack(stack: seq<Operand>): (r: seq<Content>)
      requires forall k :: 0 <= k < |stack| ==> GoodOperand(stack[k])
      reads this, Cells, Dicts
      ensures |r| == |stack|
      ensures forall k :: 0 <= k < |stack| ==>
                r[k] == (if stack[k].Cell? then stack[k].c.Contents() else stack[k].content)
    {
      seq(|stack|, k requires 0 <= k < |stack| && GoodOperand(stack[k]) reads this, Cells, Dicts =>
                     if stack[k].Cell? then stack[k].c.Contents() else stack[k].content)
    }

    function ContentsOfResult(r: Res<seq<Operand>>): Res<seq<Content>>
      requires r.Ok? ==> forall k :: 0 <= k < |r.value| ==> GoodOperand(r.value[k])
      reads this, Cells, Dicts
    {
      match r
      case Ok(stack) => Ok(ContentsOfStack(stack))
      case Fail(e) => Fail(e)
      case Crash => Crash
    }

    /** A binary operator pops the top two entries (the first one popped is
        the left operand) and pushes the operation's value: operands of
        different types, or an operator the type's table lacks, are a type
        error; a type without a table raises. */
    function OperatorStep(stack: seq<Operand>, op: string): (r: Res<seq<Operand>>)
      requires Inv() && op in BinaryOps && forall k :: 0 <= k < |stack| ==> GoodOperand(stack[k])
      reads this, env, funcs, Cells, Dicts
      ensures r.Ok? ==> forall k :: 0 <= k < |r.value| ==> GoodOperand(r.value[k])
    {
      var st := ContentsOfStack(stack);
      if |stack| < 2 then Crash
      else
        var v1 := st[|st| - 1];
        var v2 := st[|st| - 2];
        if v1.t != v2.t then Fail(TypeError)
        else match OpsFor(v1.t)
          case None => Crash
          case Some(table) =>
            if op !in table then Fail(TypeError)
            else match ApplyBinary(op, v1, v2)
              case Ok(res) => Ok(stack[..|stack| - 2] + [Fresh(res)])
              case _ => Crash
    }

    /** `!` pops a boolean entry and pushes its negation; any other type is
        a type error. */
    function BangStep(stack: seq<Operand>): (r: Res<seq<Operand>>)
      requires Inv() && forall k :: 0 <= k < |stack| ==> GoodOperand(stack[k])
      reads this, env, funcs, Cells, Dicts
      ensures r.Ok? ==> forall k :: 0 <= k < |r.value| ==> GoodOperand(r.value[k])
    {
      var st := ContentsOfStack(stack);
      if |stack| < 1 then Crash
      else
        var v1 := st[|st| - 1];
        if v1.t != BOOL then Fail(TypeError)
        else Ok(stack[..|stack| - 1] + [Fresh(Content(BOOL, BoolV(!v1.v.b)))])
    }

    /** Any other token pushes what `_get_value` yields for it. */
    function OperandStep(stack: seq<Operand>, tok: Token): (r: Res<seq<Operand>>)
      requires Inv() && forall k :: 0 <= k < |stack| ==> GoodOperand(stack[k])
      reads this, env, funcs, Cells, Dicts
      ensures r.Ok? ==> forall k :: 0 <= k < |r.value| ==> GoodOperand(r.value[k])
    {
      match Lookup(tok)
      case Ok(o) => Ok(stack + [o])
      case Fail(e) => Fail(e)
      case Crash => Crash
    }

    /** One token of the scan. */
    function ScanStep(stack: seq<Operand>, tok: Token): (r: Res<seq<Operand>>)
      requires Inv() && forall k :: 0 <= k < |stack| ==> GoodOperand(stack[k])
      reads this, env, funcs, Cells, Dicts
      ensures r.Ok? ==> forall k :: 0 <= k < |r.value| ==> GoodOperand(r.value[k])
    {
      if tok.Word? && tok.w in BinaryOps then OperatorStep(stack, tok.w)
      else if tok == Word("!") then BangStep(stack)
      else OperandStep(stack, tok)
    }

    /** The operator step is the prefix evaluator's step on the contents. */
    lemma OperatorStepRuns(stack: seq<Operand>, op: string)
      requires Inv() && op in BinaryOps && forall k :: 0 <= k < |stack| ==> GoodOperand(stack[k])
      ensures ContentsOfResult(OperatorStep(stack, op)) == Step(ContentsOfStack(stack), BinOp(op))
    {
      var st := ContentsOfStack(stack);
      var r := OperatorStep(stack, op);
      if r.Ok? {
        var res := ApplyBinary(op, st[|st| - 1], st[|st| - 2]).value;
        assert r.value == stack[..|stack| - 2] + [Fresh(res)];
        assert ContentsOfStack(r.value) == st[..|st| - 2] + [res];
      }
    }

    lemma BangStepRuns(stack: seq<Operand>)
      requires Inv() && forall k :: 0 <= k < |stack| ==> GoodOperand(stack[k])
      ensures ContentsOfResult(BangStep(stack)) == Step(ContentsOfStack(stack), Bang)
    {
      var st := ContentsOfStack(stack);
      var r := BangStep(stack);
      if r.Ok? {
        var v1 := st[|st| - 1];
        assert ContentsOfStack(r.value) == st[..|st| - 1] + [Content(BOOL, BoolV(!v1.v.b))];
      }
    }

    /** An operand step pushes the looked-up entry itself. */
    lemma OperandStepRuns(stack: seq<Operand>, tok: Token)
      requires Inv() && forall k :: 0 <= k < |stack| ==> GoodOperand(stack[k])
      ensures ContentsOfResult(OperandStep(stack, tok)) == Step(ContentsOfStack(stack), Operand(Resolved(tok)))
      ensures Lookup(tok).Ok? ==> OperandStep(stack, tok) == Ok(stack + [Lookup(tok).value])
    {
      var r := OperandStep(stack, tok);
      if r.Ok? {
        assert ContentsOfStack(r.value) == ContentsOfStack(stack) + [ContentsOfStack(r.value)[|stack|]];
      }
    }

    /** Each token's step is the prefix evaluator's step for the token's item;
        an operand token pushes the very entry it looks up to. */
    lemma ScanStepRuns(stack: seq<Operand>, tok: Token)
      requires Inv() && forall k :: 0 <= k < |stack| ==> GoodOperand(stack[k])
      ensures ContentsOfResult(ScanStep(stack, tok)) == Step(ContentsOfStack(stack), ItemFor(tok, Resolved(tok)))
      ensures ItemFor(tok, Resolved(tok)).Operand? && Lookup(tok).Ok? ==> ScanStep(stack, tok) == Ok(stack + [Lookup(tok).value])
    {
      if tok.Word? && tok.w in BinaryOps {
        OperatorStepRuns(stack, tok.w);
      } else if tok == Word("!") {
        BangStepRuns(stack);
      } else {
        OperandStepRuns(stack, tok);
      }
    }

    /** The stack the scan leaves once it has taken `tokens[..i]`, last token
        first, starting from `stack`; or the error of the first failing token. */
    function ScanFrom(tokens: seq<Token>, i: nat, stack: seq<Operand>): (r: Res<seq<Operand>>)
      requires Inv() && i <= |tokens| && forall k :: 0 <= k < |stack| ==> GoodOperand(stack[k])
      reads this, env, funcs, Cells, Dicts
      ensures r.Ok? ==> forall k :: 0 <= k < |r.value| ==> GoodOperand(r.value[k])
      decreases i
    {
      if i == 0 then Ok(stack)
      else match ScanStep(stack, tokens[i - 1])
        case Ok(next) => ScanFrom(tokens, i - 1, next)
        case Fail(e) => Fail(e)
        case Crash => Crash
    }

    /** The scan from token `i` down, starting on `stack`, agrees with the
        prefix run over the items of those tokens. */
    ghost predicate Agrees(tokens: seq<Token>, i: nat, stack: seq<Operand>)
      requires Inv() && i <= |tokens| && forall k :: 0 <= k < |stack| ==> GoodOperand(stack[k])
      reads this, env, funcs, Cells, Dicts
    {
      ContentsOfResult(ScanFrom(tokens, i, stack)) == Run(Items(tokens)[..i], ContentsOfStack(stack))
    }

    /** One step of the scan matches one step of the prefix run: a token
        whose step fails ends both, and one whose step succeeds hands both
        on to the next token, given that they agree from there on. */
    lemma ScanFromNext(tokens: seq<Token>, i: nat, stack: seq<Operand>)
      requires Inv() && i <= |tokens| && forall k :: 0 <= k < |stack| ==> GoodOperand(stack[k])
      requires 0 < i && ScanStep(stack, tokens[i - 1]).Ok? ==> Agrees(tokens, i - 1, ScanStep(stack, tokens[i - 1]).value)
      ensures Agrees(tokens, i, stack)
    {
      if i == 0 {
        assert Items(tokens)[..0] == [];
      } else {
        var tok := tokens[i - 1];
        assert Items(tokens)[i - 1] == ItemFor(tok, Resolved(tok));
        RunPrefixStep(Items(tokens), i, ContentsOfStack(stack));
        ScanStepRuns(stack, tok);
      }
    }

    /** The scan computes the prefix evaluator's run over the items of the
        tokens it takes. */
    lemma {:induction false} ScanFromRuns(tokens: seq<Token>, i: nat, stack: seq<Operand>)
      requires Inv() && i <= |tokens| && forall k :: 0 <= k < |stack| ==> GoodOperand(stack[k])
      ensures Agrees(tokens, i, stack)
      decreases i
    {
      if 0 < i && ScanStep(stack, tokens[i - 1]).Ok? {
        ScanFromRuns(tokens, i - 1, ScanStep(stack, tokens[i - 1]).value);
      }
      ScanFromNext(tokens, i, stack);
    }

    /** The scan of a single operand token pushes exactly what that token
        looks up to, so a lone variable yields its own cell. */
    lemma ScanOneOperand(tokens: seq<Token>, stack: seq<Operand>)
      requires Inv() && |tokens| == 1 && forall k :: 0 <= k < |stack| ==> GoodOperand(stack[k])
      requires ItemFor(tokens[0], Resolved(tokens[0])).Operand? && Lookup(tokens[0]).Ok?
      ensures ScanFrom(tokens, 1, stack) == Ok(stack + [Lookup(tokens[0]).value])
    {
      ScanStepRuns(stack, tokens[0]);
    }

    /** The right-to-left scan of `_eval_expression`: the stack the whole
        token list leaves, or the error of the first token that fails. */
    method ScanTokens(tokens: seq<Token>) returns (r: Res<seq<Operand>>)
      requires Inv()
      ensures r == ScanFrom(tokens, |tokens|, [])
      ensures Inv() && EvalOf(tokens) == old(EvalOf(tokens))
      ensures forall t :: Lookup(t) == old(Lookup(t)) && Resolved(t) == old(Resolved(t))
      ensures forall n :: SetOutcome(n) == old(SetOutcome(n))
    {
      var stack: seq<Operand> := [];
      var i := |tokens|;
      while i > 0
        invariant Inv() && 0 <= i <= |tokens|
        invariant forall k :: 0 <= k < |stack| ==> GoodOperand(stack[k])
        invariant ScanFrom(tokens, |tokens|, []) == ScanFrom(tokens, i, stack)
        decreases i
      {
        var next := ScanStep(stack, tokens[i - 1]);
        if !next.Ok? {
          return if next.Fail? then Fail(next.err) else Crash;
        }
        stack := next.value;
        i := i - 1;
      }
      return Ok(stack);
    }

    /** What the whole scan leaves decides the expression's value. */
    lemma ScanEvaluates(tokens: seq<Token>)
      requires Inv()
      ensures EvalOf(tokens) == match ContentsOfResult(ScanFrom(tokens, |tokens|, []))
        case Ok(st) => if |st| == 1 then Ok(st[0]) else Fail(SyntaxError)
        case Fail(e) => Fail(e)
        case Crash => Crash
    {
      ScanFromRuns(tokens, |tokens|, []);
      assert Items(tokens)[..|tokens|] == Items(tokens);
    }

    /** A lone operand token leaves exactly the entry it looks up to. */
    lemma ScanAlias(tokens: seq<Token>)
      requires Inv() && |tokens| == 1
      requires ItemFor(tokens[0], Resolved(tokens[0])).Operand? && Lookup(tokens[0]).Ok?
      ensures ScanFrom(tokens, |tokens|, []) == Ok([Lookup(tokens[0]).value])
    {
      ScanOneOperand(tokens, []);
      assert [] + [Lookup(tokens[0]).value] == [Lookup(tokens[0]).value];
    }

    /** A new cell holding `x`, outside the heap closure. */
    method NewCell(x: Content) returns (nv: Value)
      requires Inv() && Tagged(x) && PayloadIn(x.v, Cells, Dicts)
      ensures fresh(nv) && nv.Contents() == x && Good(nv)
      ensures Inv() && forall n :: SetOutcome(n) == old(SetOutcome(n))
    {
      nv := new Value(x.t, x.v);
    }

    /** `_eval_expression`: the evaluator's value of the expression, which
        must leave exactly one entry. An expression that is a single variable
        or field yields that very cell, any other value is a new cell. */
    method EvalExpression(tokens: seq<Token>) returns (r: Res<Value>)
      requires Inv()
      ensures Inv() && ContentOf(r) == old(EvalOf(tokens))
      ensures r.Ok? ==> (r.value in Cells || fresh(r.value)) && Good(r.value)
      ensures forall n :: SetOutcome(n) == old(SetOutcome(n))
      ensures old(|tokens| == 1 && ItemFor(tokens[0], Resolved(tokens[0])).Operand? &&
              Lookup(tokens[0]).Ok? && Lookup(tokens[0]).value.Cell?) ==>
                r == Ok(old(Lookup(tokens[0]).value.c))
    {
      var s := ScanTokens(tokens);
      ScanEvaluates(tokens);
      if |tokens| == 1 && ItemFor(tokens[0], Resolved(tokens[0])).Operand? && Lookup(tokens[0]).Ok? {
        ScanAlias(tokens);
      }
      if s.Ok? && |s.value| == 1 {
        match s.value[0]
        case Cell(c) =>
          r := Ok(c);
        case Fresh(x) =>
          var nv := NewCell(x);
          r := Ok(nv);
      } else {
        r := if s.Fail? then Fail(s.err) else if s.Crash? then Crash else Fail(SyntaxError);
      }
    }

    // -------------------------------------------------------------------
    // `_set_result` and the copies the interpreter makes of values.

    /** `_set_result`: a value is passed back through the reserved variable
        of its type, created in the outermost scope of the current frame if
        that scope does not bind it yet, and then set to a new cell holding
        the value. A void value has no result variable and raises. */
    method SetResult(x: Content) returns (r: Res<()>, slot: Value, copy: Value)
      requires Inv() && Tagged(x) && PayloadIn(x.v, Cells, Dicts)
      modifies this`Cells, env
      ensures Grew()
      ensures Inv() && Dicts == old(Dicts) && old(Cells) <= Cells
      ensures !r.Fail?
      ensures r.Crash? <==> ResultName(x.t).None? || |Top(old(env.frames))| == 0
      ensures r.Ok? ==> fresh(copy) && copy.Contents() == x &&
                        env.frames == Rebind(EnsureOutermost(old(env.frames), ResultName(x.t).value, slot),
                                             ResultName(x.t).value, copy)
      ensures !r.Ok? ==> env.frames == old(env.frames)
      ensures r.Ok? ==> |env.frames| == |old(env.frames)|
    {
      copy := new Value(x.t, x.v);
      var name := ResultName(x.t);
      if name.None? || |env.frames[|env.frames| - 1]| == 0 {
        slot := copy;
        return Crash, slot, copy;
      }
      var made;
      made, slot := NewSymbol(name.value, true);
      assert env.frames == EnsureOutermost(old(env.frames), name.value, slot);
      assert CellIn(copy, Cells + {copy}, Dicts) by {
        PayloadInMono(x.v, old(Cells), Dicts, Cells + {copy}, Dicts);
      }
      AddCells({copy});
      SetVisible(name.value, copy);
      ResultKeepsDepth(old(env.frames), name.value, slot, copy);
      r := Ok(());
    }

    /** `create_new_symbol`: a new symbol in the target scope of the current
        frame, bound to a placeholder cell that joins the heap; a name the
        scope binds already is left alone. */
    method NewSymbol(name: string, top: bool) returns (made: bool, slot: Value)
      requires Inv() && |Top(env.frames)| > 0
      modifies this`Cells, env
      ensures Grew()
      ensures made <==> name !in Top(old(env.frames))[Target(Top(old(env.frames)), top)]
      ensures Inv() && old(Cells) <= Cells && Dicts == old(Dicts)
      ensures env.frames == if made then Declare(old(env.frames), name, slot, top) else old(env.frames)
    {
      var r, c := env.CreateNewSymbol(name, top);
      slot := c;
      made := r.value;
      if !made {
        return;
      }
      ghost var withSlot := Cells + {slot};
      AddToHeap(Cells, Dicts, {slot}, {});
      FramesInMono(old(env.frames), Cells, withSlot);
      FramesInDeclare(old(env.frames), withSlot, name, slot, top);
      TableInMono(funcs.table, Cells, withSlot);
      assert Dicts + {} == Dicts;
      Cells := withSlot;
    }

    /** `set` on the environment, with a cell of the heap. */
    method SetVisible(name: string, n: Value)
      requires Inv() && n in Cells
      modifies env
      ensures Inv() && env.frames == Rebind(old(env.frames), name, n)
    {
      FramesInRebind(env.frames, Cells, name, n);
      env.Set(name, n);
    }

    /** `n` holds a deep copy of what `c` holds: the same tag and payload,
        except that an object gets its own dictionary with the same field
        names, each field holding what the original field holds. */
    ghost predicate CopyOf(n: Value, c: Value)
      reads n, c
      reads if n.v.ObjV? then {n.v.d} + n.v.d.fields.Values else {}
      reads if c.v.ObjV? then {c.v.d} + c.v.d.fields.Values else {}
    {
      n.t == c.t &&
      if c.v.ObjV? then
        n.v.ObjV? && n.v.d.fields.Keys == c.v.d.fields.Keys &&
        forall f :: f in c.v.d.fields ==> n.v.d.fields[f].Contents() == c.v.d.fields[f].Contents()
      else n.v == c.v
    }

    /** `copy.deepcopy` of a cell: a new cell, and for an object a new
        dictionary of new field cells. */
    method DeepCopy(c: Value) returns (n: Value, ghost made: set<Value>, ghost madeDicts: set<Dict>)
      requires HeapInv() && CellIn(c, Cells, Dicts)
      ensures fresh(n) && n in made && CopyOf(n, c)
      ensures c.v.ObjV? ==> n.v.ObjV? && fresh(n.v.d) &&
                            forall f :: f in n.v.d.fields ==> fresh(n.v.d.fields[f])
      ensures forall m :: m in made ==> fresh(m) && CellIn(m, Cells + made, Dicts + madeDicts)
      ensures forall d :: d in madeDicts ==> fresh(d) && DictIn(d, Cells + made)
    {
      match c.v
      case ObjV(d) =>
        assert DictIn(d, Cells);
        var keys := d.fields.Keys;
        var fields: map<string, Value> := map[];
        made := {};
        while keys != {}
          invariant keys <= d.fields.Keys && fields.Keys == d.fields.Keys - keys
          invariant fields.Values <= made
          invariant forall f :: f in fields ==> fresh(fields[f]) && fields[f].Contents() == d.fields[f].Contents()
          invariant forall m :: m in made ==> fresh(m) && CellIn(m, Cells, Dicts)
          decreases keys
        {
          var f :| f in keys;
          var fc := d.fields[f];
          assert fc in d.fields.Values;
          assert CellIn(fc, Cells, Dicts);
          var cp := new Value(fc.t, fc.v);
          fields := fields[f := cp];
          made := made + {cp};
          keys := keys - {f};
        }
        var nd := new Dict(fields);
        n := new Value(c.t, ObjV(nd));
        madeDicts := {nd};
        forall m | m in made ensures CellIn(m, Cells + (made + {n}), Dicts + madeDicts) {
          PayloadInMono(m.v, Cells, Dicts, Cells + (made + {n}), Dicts + madeDicts);
        }
        made := made + {n};
      case _ =>
        n := new Value(c.t, c.v);
        made, madeDicts := {n}, {};
        PayloadInMono(n.v, Cells, Dicts, Cells + made, Dicts);
    }

    // -------------------------------------------------------------------
    // Conditionals and loops.

    /** The outcome of the condition `args` of an `if` or `while`: an
        empty condition is a syntax error, the evaluator's errors propagate,
        a non-boolean value is a type error, and otherwise the condition
        holds exactly when it evaluates to `true`. */
    ghost function CondOf(args: seq<Token>): Res<bool>
      requires Inv()
      reads this, env, funcs, Cells, Dicts
    {
      if args == [] then Fail(SyntaxError)
      else
        var e := EvalOf(args);
        if !e.Ok? then e.PropagateFailure()
        else if e.value.t != BOOL then Fail(TypeError)
        else Ok(e.value == Content(BOOL, BoolV(true)))
    }

    /** The condition of an `if` or `while`, evaluated: an empty condition
        is a syntax error, the evaluator's errors propagate, and a
        non-boolean value is a type error. */
    method Condition(args: seq<Token>) returns (r: Res<bool>)
      requires Inv()
      ensures Inv() && ip == old(ip) && returnStack == old(returnStack) && env.frames == old(env.frames)
      ensures r == old(CondOf(args))
      ensures args == [] ==> r == Fail(SyntaxError)
      ensures args != [] && !old(EvalOf(args)).Ok? ==> r == old(EvalOf(args)).PropagateFailure()
      ensures args != [] && old(EvalOf(args)).Ok? ==>
                if old(EvalOf(args)).value.t != BOOL then r == Fail(TypeError)
                else r.Ok? && old(EvalOf(args)).value == Content(BOOL, BoolV(r.value))
    {
      if args == [] {
        return Fail(SyntaxError);
      }
      var e := EvalExpression(args);
      if !e.Ok? {
        return e.PropagateFailure();
      }
      var v := e.value;
      if v.t != BOOL {
        return Fail(TypeError);
      }
      assert Tagged(v.Contents());
      r := Ok(v.v.b);
    }

    /** `_if`. A true condition enters the block in a new scope. A false one
        resumes after the first same-indentation `endif` (no new scope) or
        `else` (in a new scope); finding neither is a syntax error. */
    method If(args: seq<Token>) returns (r: Res<()>)
      requires Valid() && 0 <= ip < |prog|
      modifies this`ip, env
      ensures r.Ok? ==> Valid()
      ensures !old(CondOf(args)).Ok? ==> r == old(CondOf(args)).PropagateFailure()
      ensures old(CondOf(args)) == Ok(true) ==>
                r.Ok? && ip == old(ip) + 1 && env.frames == Nest(old(env.frames))
      ensures old(CondOf(args)) == Ok(false) ==>
                match IfTarget(prog, indents, old(ip), old(ip) + 1)
                case Ok((k, isElse)) =>
                  r.Ok? && ip == k + 1 && env.frames == (if isElse then Nest(old(env.frames)) else old(env.frames))
                case _ => r == Fail(SyntaxError)
    {
      var c := Condition(args);
      if !c.Ok? {
        return c.PropagateFailure();
      }
      if c.value {
        EnterBlock();
        return Ok(());
      }
      r := SkipIf();
    }

    /** The false branch of `_if`: resume after the first same-indentation
        `endif`, or enter the `else` branch in a new scope. */
    method SkipIf() returns (r: Res<()>)
      requires Valid() && 0 <= ip < |prog|
      modifies this`ip, env
      ensures r.Ok? ==> Valid()
      ensures match IfTarget(prog, indents, old(ip), old(ip) + 1)
              case Ok((k, isElse)) =>
                r.Ok? && ip == k + 1 && env.frames == (if isElse then Nest(old(env.frames)) else old(env.frames))
              case _ => r == Fail(SyntaxError)
    {
      var t := FindIfTarget(prog, indents, ip);
      if !t.Ok? {
        return Fail(SyntaxError);
      }
      var (k, isElse) := t.value;
      GoTo(k + 1);
      if isElse {
        NestBlock();
      }
      r := Ok(());
    }

    /** `_else`, reached only at the end of a taken `if` branch: the branch's
        scope is closed and execution resumes after the same-indentation
        `endif`, whose absence is a syntax error. */
    method Else() returns (r: Res<()>)
      requires Valid() && 0 <= ip < |prog|
      modifies this`ip, env
      ensures r.Ok? ==> Valid()
      ensures |Top(old(env.frames))| == 0 ==> r == Crash
      ensures |Top(old(env.frames))| > 0 ==>
                env.frames == Unnest(old(env.frames)) &&
                match EndIfTarget(prog, indents, old(ip), old(ip) + 1)
                case Ok(k) => r.Ok? && ip == k + 1
                case _ => r == Fail(SyntaxError)
    {
      FramesInShape(env.frames, Cells);
      var ok := env.BlockUnnest();
      if !ok {
        return Crash;
      }
      var t := FindEndIf(prog, indents, ip);
      if !t.Ok? {
        return Fail(SyntaxError);
      }
      ip := t.value + 1;
      r := Ok(());
    }

    /** `_endif`: close the block's scope and go on with the next line. */
    method EndIf() returns (r: Res<()>)
      requires Valid()
      modifies this`ip, env
      ensures r.Ok? ==> Valid()
      ensures |Top(old(env.frames))| == 0 ==> r == Crash
      ensures |Top(old(env.frames))| > 0 ==> r.Ok? && ip == old(ip) + 1 && env.frames == Unnest(old(env.frames))
    {
      ip := ip + 1;
      FramesInShape(env.frames, Cells);
      var ok := env.BlockUnnest();
      r := if ok then Ok(()) else Crash;
    }

    /** `_while`. A true condition enters the body in a new scope. A false
        one resumes after the same-indentation `endwhile`, scopes untouched;
        the scan fails with a syntax error at a line indented less than the
        header or at the end of the program. */
    method While(args: seq<Token>) returns (r: Res<()>)
      requires Valid() && 0 <= ip < |prog|
      modifies this`ip, env
      ensures r.Ok? ==> Valid()
      ensures !old(CondOf(args)).Ok? ==> r == old(CondOf(args)).PropagateFailure()
      ensures old(CondOf(args)) == Ok(true) ==>
                r.Ok? && ip == old(ip) + 1 && env.frames == Nest(old(env.frames))
      ensures old(CondOf(args)) == Ok(false) ==>
                env.frames == old(env.frames) &&
                match ForwardScan(prog, indents, old(ip), EndWhileKw, old(ip) + 1, true)
                case Ok(k) => r.Ok? && ip == k + 1
                case _ => r == Fail(SyntaxError)
    {
      var c := Condition(args);
      if !c.Ok? {
        return c.PropagateFailure();
      }
      if !c.value {
        r := SkipWhile();
        return;
      }
      EnterBlock();
      r := Ok(());
    }

    /** The false branch of `_while`: resume after the same-indentation
        `endwhile`, scopes untouched. */
    method SkipWhile() returns (r: Res<()>)
      requires Valid() && 0 <= ip < |prog|
      modifies this`ip
      ensures r.Ok? ==> Valid()
      ensures env.frames == old(env.frames)
      ensures match ForwardScan(prog, indents, old(ip), EndWhileKw, old(ip) + 1, true)
              case Ok(k) => r.Ok? && ip == k + 1
              case _ => r == Fail(SyntaxError)
    {
      var t := ScanForward(prog, indents, ip, EndWhileKw, true);
      if !t.Ok? {
        return Fail(SyntaxError);
      }
      GoTo(t.value + 1);
      r := Ok(());
    }

    /** `_endwhile`: close the body's scope and jump back to the
        same-indentation `while` header itself, so that its condition is
        evaluated again; the backward scan fails with a syntax error at a
        line indented less than the `endwhile` or at the top of the
        program. */
    method EndWhile() returns (r: Res<()>)
      requires Valid() && 0 <= ip < |prog|
      modifies this`ip, env
      ensures r.Ok? ==> Valid()
      ensures |Top(old(env.frames))| == 0 ==> r == Crash
      ensures |Top(old(env.frames))| > 0 ==>
                env.frames == Unnest(old(env.frames)) &&
                match BackwardScan(prog, indents, old(ip), old(ip) - 1, true)
                case Ok(k) => r.Ok? && ip == k
                case _ => r == Fail(SyntaxError)
    {
      FramesInShape(env.frames, Cells);
      var ok := env.BlockUnnest();
      if !ok {
        return Crash;
      }
      var t := ScanBackward(prog, indents, ip, true);
      if !t.Ok? {
        return Fail(SyntaxError);
      }
      ip := t.value;
      r := Ok(());
    }

    // -------------------------------------------------------------------
    // Leaving a function or lambda body.

    /** What a body leaving at `at` passes back to its caller: the value
        `return` gave, or else the default of the declared return type of
        the body enclosing `at`, or nothing for a `void` body. A position no
        header covers, or a declared type without a default, raises. */
    function Passed(rv: Option<Content>, at: int): (r: Res<Option<Content>>)
      ensures rv.Some? ==> r == Ok(rv)
      ensures rv.None? ==> (r.Ok? <==> funcs.ReturnTypeAt(at).Some? && HasDefault(funcs.ReturnTypeAt(at).value))
      ensures r.Fail? == false
      ensures rv.None? && r.Ok? ==>
                (r.value.None? <==> funcs.ReturnTypeAt(at) == Some(VoidT)) &&
                (r.value.Some? ==> Tagged(r.value.value) && r.value.value.t != VOID &&
                                   r.value == DefaultFor(funcs.ReturnTypeAt(at).value, defaultDict))
    {
      if rv.Some? then Ok(rv)
      else match funcs.ReturnTypeAt(at)
        case None => Crash
        case Some(rt) =>
          if rt == VoidT then Ok(None)
          else match DefaultFor(rt, defaultDict)
            case None => Crash
            case Some(d) => Ok(Some(d))
    }

    /** The effect of unwinding to a waiting caller with `rv`: `r` is `Ok`
        exactly when the value to pass back exists and the caller's frame
        has a result variable for it and a scope to hold it; then execution
        resumes at the popped return address, in the caller's frame, where
        the result variable of the value's type denotes `copy`, a new cell
        holding it (`slot` being the cell `create_new_symbol` would have
        bound), and nothing else changed. */
    ghost predicate Unwound(ip0: int, stack0: seq<int>, frames0: seq<Frame>,
                            rv: Option<Content>, r: Res<()>, slot: Value?, copy: Value?)
      requires |frames0| > 0 && |stack0| > 0
      reads this, env, copy
    {
      PassedBack(frames0, Passed(rv, ip0), r, slot, copy) &&
      (r.Ok? ==> ip == stack0[|stack0| - 1] && returnStack == stack0[..|stack0| - 1])
    }

    /** The frames after the body's frame `Top(frames0)` is dropped and
        `passed` is passed back to the caller (see `Unwound`). */
    ghost predicate PassedBack(frames0: seq<Frame>, passed: Res<Option<Content>>,
                               r: Res<()>, slot: Value?, copy: Value?)
      requires |frames0| > 0
      reads env, copy
    {
      var below := frames0[..|frames0| - 1];
      (r.Ok? <==> passed.Ok? && (passed.value.Some? ==> ResultName(passed.value.value.t).Some? && |below| > 0 && |Top(below)| > 0)) &&
      (r.Ok? && passed.value.None? ==> env.frames == below) &&
      (r.Ok? && passed.value.Some? ==>
         slot != null && copy != null && copy.Contents() == passed.value.value &&
         env.frames == Rebind(EnsureOutermost(below, ResultName(passed.value.value.t).value, slot),
                              ResultName(passed.value.value.t).value, copy))
    }

    /** The part `_endfunc` and `_endlambda` share once a caller is waiting:
        drop the body's frame, pass the value back through the caller's
        result variable, and resume at the return address, which is popped. */
    method Unwind(rv: Option<Content>) returns (r: Res<()>, slot: Value?, copy: Value?)
      requires Valid() && |returnStack| > 0
      requires rv.Some? ==> Tagged(rv.value) && PayloadIn(rv.value.v, Cells, Dicts)
      modifies this`ip, this`returnStack, this`Cells, env
      ensures Grew()
      ensures r.Ok? ==> Valid()
      ensures !r.Fail?
      ensures Unwound(old(ip), old(returnStack), old(env.frames), rv, r, slot, copy)
      ensures copy != null ==> fresh(copy)
    {
      r, slot, copy := DropFrame(rv);
      if r.Ok? {
        PopReturn();
      }
    }

    /** Drop the body's frame and pass the value back to the caller. */
    method DropFrame(rv: Option<Content>) returns (r: Res<()>, slot: Value?, copy: Value?)
      requires Valid() && |returnStack| > 0
      requires rv.Some? ==> Tagged(rv.value) && PayloadIn(rv.value.v, Cells, Dicts)
      modifies this`Cells, env
      ensures Grew()
      ensures r.Ok? ==> Inv() && |env.frames| == |returnStack|
      ensures !r.Fail?
      ensures PassedBack(old(env.frames), Passed(rv, ip), r, slot, copy)
      ensures copy != null ==> fresh(copy)
    {
      slot, copy := null, null;
      FramesInShape(env.frames, Cells);
      var popped := env.Pop();
      var passed := Passed(rv, ip);
      if !passed.Ok? {
        return Crash, slot, copy;
      }
      if passed.value.Some? {
        var x := passed.value.value;
        assert PayloadIn(x.v, Cells, Dicts) by {
          if rv.None? && x.t == OBJECT {
            assert defaultDict in Dicts;
          }
        }
        var s, c;
        r, s, c := SetResult(x);
        if !r.Ok? {
          return Crash, slot, copy;
        }
        slot, copy := s, c;
      }
      r := Ok(());
    }

    /** The effect of `_endfunc` with `rv`: leaving `main`, whose return
        stack is empty, ends the run with everything else as it is; any
        other body unwinds to its caller. */
    ghost predicate FuncEnded(ip0: int, stack0: seq<int>, frames0: seq<Frame>, terminate0: bool,
                              rv: Option<Content>, r: Res<()>, slot: Value?, copy: Value?)
      requires |frames0| > 0
      reads this, env, copy
    {
      if stack0 == [] then
        r == Ok(()) && terminate && ip == ip0 && returnStack == [] && env.frames == frames0
      else terminate == terminate0 && Unwound(ip0, stack0, frames0, rv, r, slot, copy)
    }

    /** `_endfunc`. */
    method EndFunc(rv: Option<Content>) returns (r: Res<()>, slot: Value?, copy: Value?)
      requires Valid()
      requires rv.Some? ==> Tagged(rv.value) && PayloadIn(rv.value.v, Cells, Dicts)
      modifies this`ip, this`returnStack, this`terminate, this`Cells, env
      ensures Grew()
      ensures r.Ok? ==> Valid()
      ensures !r.Fail?
      ensures FuncEnded(old(ip), old(returnStack), old(env.frames), old(terminate), rv, r, slot, copy)
      ensures terminate ==> old(terminate) || (r == Ok(()) && old(returnStack) == [] && returnStack == [])
      ensures copy != null ==> fresh(copy)
    {
      if returnStack == [] {
        terminate := true;
        return Ok(()), null, null;
      }
      r, slot, copy := Unwind(rv);
    }

    /** The effect of `_endlambda` with `rv`: like `_endfunc`, except that
        with no caller waiting the pop of the return stack raises. */
    ghost predicate LambdaEnded(ip0: int, stack0: seq<int>, frames0: seq<Frame>,
                                rv: Option<Content>, r: Res<()>, slot: Value?, copy: Value?)
      requires |frames0| > 0
      reads this, env, copy
    {
      if stack0 == [] then r == Crash
      else Unwound(ip0, stack0, frames0, rv, r, slot, copy)
    }

    /** `_endlambda`. */
    method EndLambda(rv: Option<Content>) returns (r: Res<()>, slot: Value?, copy: Value?)
      requires Valid()
      requires rv.Some? ==> Tagged(rv.value) && PayloadIn(rv.value.v, Cells, Dicts)
      modifies this`ip, this`returnStack, this`Cells, env
      ensures Grew()
      ensures r.Ok? ==> Valid()
      ensures !r.Fail?
      ensures LambdaEnded(old(ip), old(returnStack), old(env.frames), rv, r, slot, copy)
      ensures copy != null ==> fresh(copy)
    {
      if returnStack == [] {
        return Crash, null, null;
      }
      r, slot, copy := Unwind(rv);
    }

    /** The effect of `_lambda_or_func` with `rv`: the first `endfunc` or
        `endlambda` after the `return` decides between `_endfunc` and
        `_endlambda`; finding neither raises. */
    ghost predicate LeftBody(ip0: int, stack0: seq<int>, frames0: seq<Frame>, terminate0: bool,
                             rv: Option<Content>, r: Res<()>, slot: Value?, copy: Value?)
      requires 0 <= ip0 < |prog| && |frames0| > 0
      reads this, env, copy
    {
      var target := ReturnTarget(prog, ip0 + 1, true);
      if !target.Ok? then r == Crash
      else if target.value then FuncEnded(ip0, stack0, frames0, terminate0, rv, r, slot, copy)
      else LambdaEnded(ip0, stack0, frames0, rv, r, slot, copy)
    }

    /** `_lambda_or_func`. */
    method LambdaOrFunc(rv: Option<Content>) returns (r: Res<()>, slot: Value?, copy: Value?)
      requires Valid() && 0 <= ip < |prog|
      requires rv.Some? ==> Tagged(rv.value) && PayloadIn(rv.value.v, Cells, Dicts)
      modifies this`ip, this`returnStack, this`terminate, this`Cells, env
      ensures Grew()
      ensures r.Ok? ==> Valid()
      ensures !r.Fail?
      ensures LeftBody(old(ip), old(returnStack), old(env.frames), old(terminate), rv, r, slot, copy)
      ensures terminate ==> old(terminate) || (r == Ok(()) && old(returnStack) == [] && returnStack == [])
      ensures copy != null ==> fresh(copy)
    {
      ghost var ip0, stack0, frames0, terminate0 := ip, returnStack, env.frames, terminate;
      var target := FindReturnTarget(prog, ip, true);
      assert target == ReturnTarget(prog, ip0 + 1, true);
      if !target.Ok? {
        return Crash, null, null;
      }
      if target.value {
        r, slot, copy := EndFunc(rv);
        assert FuncEnded(ip0, stack0, frames0, terminate0, rv, r, slot, copy);
      } else {
        r, slot, copy := EndLambda(rv);
        assert LambdaEnded(ip0, stack0, frames0, rv, r, slot, copy);
      }
    }

    /** What `_return` passes to `_lambda_or_func`: nothing for a bare
        `return` or a `void` body, else the value of the expression, which
        must have the type of the declared return type's default. A value
        in a `void` body is a type error; a position no header covers, or a
        declared type without a default, raises. */
    ghost function ReturnOf(args: seq<Token>): (r: Res<Option<Content>>)
      requires Inv()
      reads this, env, funcs, Cells, Dicts
      ensures r.Ok? ==> funcs.ReturnTypeAt(ip).Some? && HasDefault(funcs.ReturnTypeAt(ip).value)
      ensures r.Ok? && r.value.Some? ==>
                args != [] && EvalOf(args) == Ok(r.value.value) &&
                r.value.value.t == DefaultFor(funcs.ReturnTypeAt(ip).value, defaultDict).value.t &&
                r.value.value.t != VOID
      ensures args == [] ==> !r.Fail? && (r.Ok? ==> r.value.None?)
      ensures funcs.ReturnTypeAt(ip) == Some(VoidT) && args != [] ==> r == Fail(TypeError)
    {
      match funcs.ReturnTypeAt(ip)
      case None => Crash
      case Some(rt) =>
        match DefaultFor(rt, defaultDict)
        case None => Crash
        case Some(d) =>
          if d.t == VOID then (if args != [] then Fail(TypeError) else Ok(None))
          else if args == [] then Ok(None)
          else match EvalOf(args)
            case Ok(x) => if x.t != d.t then Fail(TypeError) else Ok(Some(x))
            case Fail(e) => Fail(e)
            case Crash => Crash
    }

    /** The first half of `_return`: the declared return type, its default,
        and the value of the expression, in that order. */
    method ReturnValue(args: seq<Token>) returns (r: Res<Option<Content>>)
      requires Inv()
      ensures r == ReturnOf(args)
      ensures r.Ok? && r.value.Some? ==> Tagged(r.value.value) && PayloadIn(r.value.value.v, Cells, Dicts)
    {
      var rt := funcs.ReturnTypeAt(ip);
      if rt.None? {
        return Crash;
      }
      var d := DefaultFor(rt.value, defaultDict);
      if d.None? {
        return Crash;
      }
      if d.value.t == VOID {
        return if args != [] then Fail(TypeError) else Ok(None);
      }
      if args == [] {
        return Ok(None);
      }
      var e := EvalExpression(args);
      if !e.Ok? {
        return e.PropagateFailure();
      }
      if e.value.t != d.value.t {
        return Fail(TypeError);
      }
      r := Ok(Some(e.value.Contents()));
    }

    /** `_return`: hand what the body passes back to `_lambda_or_func`. */
    method Return(args: seq<Token>) returns (r: Res<()>, slot: Value?, copy: Value?)
      requires Valid() && 0 <= ip < |prog|
      modifies this`ip, this`returnStack, this`terminate, this`Cells, env
      ensures Grew()
      ensures r.Ok? ==> Valid()
      ensures !old(ReturnOf(args)).Ok? ==> r == old(ReturnOf(args)).PropagateFailure()
      ensures old(ReturnOf(args)).Ok? ==>
                LeftBody(old(ip), old(returnStack), old(env.frames), old(terminate), old(ReturnOf(args)).value, r, slot, copy)
      ensures terminate ==> old(terminate) || (r == Ok(()) && old(returnStack) == [] && returnStack == [])
      ensures copy != null ==> fresh(copy)
    {
      var rv := ReturnValue(args);
      if !rv.Ok? {
        return rv.PropagateFailure(), null, null;
      }
      r, slot, copy := LambdaOrFunc(rv.value);
    }

    // -------------------------------------------------------------------
    // `_lambda`.

    /** The first half of `_lambda`: the lambda, capturing the current
        frame, takes the reserved function slot and becomes the value of
        `resultf`. */
    method BindLambda(args: seq<Token>) returns (r: Res<()>, slot: Value, copy: Value)
      requires Valid()
      modifies this`Cells, env, funcs
      ensures Grew()
      ensures Valid()
      ensures var fi := FuncInfo(LambdaParams(args), ip + 1, Top(old(env.frames)));
              funcs.table == old(funcs.table)[LambdaSlot := fi] &&
              (r.Crash? <==> |Top(old(env.frames))| == 0) && !r.Fail? &&
              (r.Ok? ==>
                 fresh(copy) && copy.Contents() == Content(FUNC, FuncV(fi)) &&
                 env.frames == Rebind(EnsureOutermost(old(env.frames), LambdaSlot, slot), LambdaSlot, copy))
    {
      var captures := env.frames[|env.frames| - 1];
      assert ScopesIn(captures, Cells);
      funcs.SetLambda(args, ip, captures);
      var fi := FuncInfo(LambdaParams(args), ip + 1, captures);
      TableInUpdate(old(funcs.table), Cells, LambdaSlot, fi);
      r, slot, copy := SetResult(Content(FUNC, FuncV(fi)));
      ResultNameSpellings();
    }

    /** `_lambda`: the lambda becomes the function of the reserved slot,
        capturing the scopes of the current frame (the very cells, not
        copies), is passed back as a `func` value through `resultf`, and
        execution resumes after the `endlambda` at the header's
        indentation; the body runs only when the value is called. */
    method Lambda(args: seq<Token>) returns (r: Res<()>, slot: Value, copy: Value)
      requires Valid() && 0 <= ip < |prog|
      modifies this`ip, this`Cells, env, funcs
      ensures Grew()
      ensures r.Ok? ==> Valid()
      ensures var fi := FuncInfo(LambdaParams(args), old(ip) + 1, Top(old(env.frames)));
              funcs.table == old(funcs.table)[LambdaSlot := fi] &&
              (|Top(old(env.frames))| == 0 ==> r == Crash) &&
              (|Top(old(env.frames))| > 0 ==>
                 fresh(copy) && copy.Contents() == Content(FUNC, FuncV(fi)) &&
                 env.frames == Rebind(EnsureOutermost(old(env.frames), LambdaSlot, slot), LambdaSlot, copy) &&
                 match ForwardScan(prog, indents, old(ip), EndLambdaKw, old(ip) + 1, true)
                 case Ok(k) => r.Ok? && ip == k + 1
                 case _ => r == Fail(SyntaxError))
    {
      ghost var ip0, frames0 := ip, env.frames;
      r, slot, copy := BindLambda(args);
      if !r.Ok? {
        return;
      }
      assert ip == ip0 && |Top(frames0)| > 0;
      ghost var frames1, table1, content := env.frames, funcs.table, copy.Contents();
      var t := ScanForward(prog, indents, ip, EndLambdaKw, true);
      if !t.Ok? {
        return Fail(SyntaxError), slot, copy;
      }
      GoTo(t.value + 1);
      assert env.frames == frames1 && funcs.table == table1 && copy.Contents() == content;
    }

    // -------------------------------------------------------------------
    // The built-in functions `print`, `input` and `strtoint`.

    /** The values `_print` prints: every argument resolved, in order; the
        first that does not resolve stops the call with its error. */
    ghost function Printed(args: seq<Token>): (r: Res<seq<Content>>)
      requires Inv()
      reads this, env, funcs, Cells, Dicts
      ensures r.Ok? ==> |r.value| == |args| &&
                        forall k :: 0 <= k < |args| ==> Ok(r.value[k]) == Resolved(args[k])
      decreases |args|
    {
      if args == [] then Ok([])
      else match Resolved(args[0])
        case Ok(x) =>
          (match Printed(args[1..])
           case Ok(xs) => Ok([x] + xs)
           case Fail(e) => Fail(e)
           case Crash => Crash)
        case Fail(e) => Fail(e)
        case Crash => Crash
    }

    /** `print` stops at the first argument that does not resolve, with
        that argument's error. */
    lemma {:induction false} PrintedStops(args: seq<Token>)
      requires Inv()
      ensures !Printed(args).Ok? ==>
                exists k :: 0 <= k < |args| && !Resolved(args[k]).Ok? && Resolved(args[k]).PropagateFailure() == Printed(args) &&
                            forall j :: 0 <= j < k ==> Resolved(args[j]).Ok?
      decreases |args|
    {
      if args != [] && Resolved(args[0]).Ok? && !Printed(args).Ok? {
        PrintedStops(args[1..]);
        var k :| 0 <= k < |args[1..]| && !Resolved(args[1..][k]).Ok? && Resolved(args[1..][k]).PropagateFailure() == Printed(args[1..]) &&
                  forall j :: 0 <= j < k ==> Resolved(args[1..][j]).Ok?;
        assert args[k + 1] == args[1..][k];
        assert forall j :: 0 < j < k + 1 ==> args[j] == args[1..][j - 1];
      }
    }

    /** `_print`: an empty argument list is a syntax error; otherwise the
        printed values, whose text forms the output line. */
    method Print(args: seq<Token>) returns (r: Res<seq<Content>>)
      requires Inv()
      ensures args == [] ==> r == Fail(SyntaxError)
      ensures args != [] ==> r == Printed(args)
    {
      if args == [] {
        return Fail(SyntaxError);
      }
      var out: seq<Content> := [];
      var k := 0;
      assert args[k..] == args;
      PrependNothing(Printed(args));
      while k < |args|
        invariant 0 <= k <= |args|
        invariant Printed(args) == Prepend(out, Printed(args[k..]))
        decreases |args| - k
      {
        var v := Resolved(args[k]);
        PrintedFirst(args[k..]);
        assert args[k..][0] == args[k] && args[k..][1..] == args[k + 1..];
        if !v.Ok? {
          return v.PropagateFailure();
        }
        PrependTwice(out, v.value, Printed(args[k + 1..]));
        out := out + [v.value];
        k := k + 1;
      }
      assert args[k..] == [];
      assert out + [] == out;
      r := Ok(out);
    }

    /** One argument of `print`: resolved first, then the rest. */
    lemma PrintedFirst(args: seq<Token>)
      requires Inv() && args != []
      ensures Printed(args) == match Resolved(args[0])
                               case Ok(x) => Prepend([x], Printed(args[1..]))
                               case Fail(e) => Fail(e)
                               case Crash => Crash
    {
    }

    /** `input`: print the prompt if there is one, then pass the
        next console line back through `results`. */
    method Input(args: seq<Token>) returns (r: Res<()>, slot: Value?, copy: Value?)
      requires Inv()
      modifies this`Cells, this`input, env
      ensures Grew()
      ensures Inv()
      ensures args != [] && !old(Printed(args)).Ok? ==> r == old(Printed(args)).PropagateFailure()
      ensures (args == [] || old(Printed(args)).Ok?) && old(input) == [] ==> r == Crash
      ensures (args == [] || old(Printed(args)).Ok?) && old(input) != [] ==>
                input == old(input)[1..] &&
                (r.Ok? <==> |Top(old(env.frames))| > 0) &&
                (r.Ok? ==> slot != null && copy != null && fresh(copy) &&
                           copy.Contents() == Content(STRING, StrV(old(input)[0])) &&
                           env.frames == Rebind(EnsureOutermost(old(env.frames), "results", slot), "results", copy))
    {
      if args != [] {
        var p := Print(args);
        if !p.Ok? {
          return p.PropagateFailure(), null, null;
        }
      }
      if input == [] {
        return Crash, null, null;
      }
      var line := input[0];
      input := input[1..];
      var s, c;
      r, s, c := SetResult(Content(STRING, StrV(line)));
      ResultNameSpellings();
      slot, copy := s, c;
    }

    /** `strtoint`: exactly one argument, a string, converted by `int`,
        passed back through `resulti`. */
    method StrToInt(args: seq<Token>) returns (r: Res<()>, slot: Value?, copy: Value?)
      requires Inv()
      modifies this`Cells, env
      ensures Grew()
      ensures Inv()
      ensures |args| != 1 ==> r == Fail(SyntaxError)
      ensures |args| == 1 && !old(Resolved(args[0])).Ok? ==> r == old(Resolved(args[0])).PropagateFailure()
      ensures |args| == 1 && old(Resolved(args[0])).Ok? ==>
                var x := old(Resolved(args[0])).value;
                if x.t != STRING then r == Fail(TypeError)
                else if !x.v.StrV? || ParseInt(x.v.s).None? then r == Crash
                else (r.Ok? <==> |Top(old(env.frames))| > 0) &&
                     (r.Ok? ==> slot != null && copy != null && fresh(copy) &&
                                copy.Contents() == Content(INT, IntV(ParseInt(x.v.s).value)) &&
                                env.frames == Rebind(EnsureOutermost(old(env.frames), "resulti", slot), "resulti", copy))
    {
      if |args| != 1 {
        return Fail(SyntaxError), null, null;
      }
      var v := Resolved(args[0]);
      if !v.Ok? {
        return v.PropagateFailure(), null, null;
      }
      if v.value.t != STRING {
        return Fail(TypeError), null, null;
      }
      if !v.value.v.StrV? {
        return Crash, null, null;
      }
      var n := ParseInt(v.value.v.s);
      if n.None? {
        return Crash, null, null;
      }
      var s, c;
      r, s, c := SetResult(Content(INT, IntV(n.value)));
      ResultNameSpellings();
      slot, copy := s, c;
    }

    // -------------------------------------------------------------------
    // `_create_new_environment` and `_funccall`.

    /** One argument bound to its formal parameter against the function
        table `table`, as `_create_new_environment` does it: the argument is
        looked up as `_get_value` does and must have the type the
        parameter's keyword admits (`void` admits none and raises). A
        parameter of a reference type shares the argument's own cell
        (`Cell`); any other gets a new cell holding the argument's value
        (`Fresh`), and a `func` argument also makes the parameter name denote
        that function for the lookups that follow. Yields the binding and
        the table after it. */
    ghost function BindStep(p: (string, TypeName), actual: Token, table: map<string, FuncInfo>)
      : (r: Res<(Operand, map<string, FuncInfo>)>)
      requires HeapInv() && TableIn(table, Cells)
      reads this, env, Cells, Dicts
      ensures r.Ok? ==> GoodOperand(r.value.0) && TableIn(r.value.1, Cells) && table.Keys <= r.value.1.Keys
      ensures r.Ok? ==> (r.value.0.Cell? ==> IsReference(p.1)) &&
                        Some(OperandType(r.value.0)) == CompatibleType(p.1)
      ensures r.Ok? && !IsReference(p.1) ==> r.value.0.Fresh?
      ensures CompatibleType(p.1).None? ==> !r.Ok?
    {
      match LookupIn(actual, table)
      case Fail(e) => Fail(e)
      case Crash => Crash
      case Ok(o) =>
        var x := if o.Cell? then o.c.Contents() else o.content;
        match CompatibleType(p.1)
        case None => Crash
        case Some(t) =>
          if x.t != t then Fail(TypeError)
          else
            var b := if IsReference(p.1) then o else Fresh(x);
            var next := if !IsReference(p.1) && x.t == FUNC then table[p.0 := x.v.f] else table;
            Ok((b, next))
    }

    /** The type of the value an operand holds. */
    ghost function OperandType(o: Operand): Type
      reads if o.Cell? then {o.c} else {}
    {
      if o.Cell? then o.c.t else o.content.t
    }

    /** All arguments of a call bound to its formal parameters, in order,
        each against the table the bindings before it left. */
    ghost function Binding(params: seq<(string, TypeName)>, actuals: seq<Token>, table: map<string, FuncInfo>)
      : (r: Res<(seq<Operand>, map<string, FuncInfo>)>)
      requires |params| == |actuals| && HeapInv() && TableIn(table, Cells)
      reads this, env, Cells, Dicts
      ensures r.Ok? ==> |r.value.0| == |params| && TableIn(r.value.1, Cells) && table.Keys <= r.value.1.Keys
      decreases |params|
    {
      if params == [] then Ok(([], table))
      else
        match BindStep(params[0], actuals[0], table)
        case Ok((b, next)) => After([b], Binding(params[1..], actuals[1..], next))
        case Fail(e) => Fail(e)
        case Crash => Crash
    }

    /** Every binding refers into the heap, shares a cell only for a
        reference parameter, and holds a value of the type the parameter's
        keyword admits. */
    lemma {:induction false} BindingGood(params: seq<(string, TypeName)>, actuals: seq<Token>, table: map<string, FuncInfo>)
      requires |params| == |actuals| && HeapInv() && TableIn(table, Cells)
      requires Binding(params, actuals, table).Ok?
      ensures var bs := Binding(params, actuals, table).value.0;
              forall k :: 0 <= k < |params| ==>
                GoodOperand(bs[k]) && (bs[k].Cell? ==> IsReference(params[k].1)) &&
                Some(OperandType(bs[k])) == CompatibleType(params[k].1)
      decreases |params|
    {
      if params != [] {
        var (b, next) := BindStep(params[0], actuals[0], table).value;
        BindingGood(params[1..], actuals[1..], next);
      }
    }

    /** `bs` followed by the bindings `r` holds, or `r`'s error. */
    static function After(bs: seq<Operand>, r: Res<(seq<Operand>, map<string, FuncInfo>)>)
      : (p: Res<(seq<Operand>, map<string, FuncInfo>)>)
      ensures p.Ok? <==> r.Ok?
      ensures p.Ok? ==> p.value == (bs + r.value.0, r.value.1)
    {
      match r
      case Ok((rest, t)) => Ok((bs + rest, t))
      case Fail(e) => Fail(e)
      case Crash => Crash
    }

    static lemma AfterAfter(a: seq<Operand>, b: seq<Operand>, r: Res<(seq<Operand>, map<string, FuncInfo>)>)
      ensures After(a, After(b, r)) == After(a + b, r)
    {
      if r.Ok? {
        assert a + (b + r.value.0) == (a + b) + r.value.0;
      }
    }

    /** The binding of the parameters from the `k`-th on takes one step and
        goes on with the rest. */
    lemma BindingFrom(params: seq<(string, TypeName)>, actuals: seq<Token>, k: nat, table: map<string, FuncInfo>)
      requires |params| == |actuals| && k < |params| && HeapInv() && TableIn(table, Cells)
      ensures Binding(params[k..], actuals[k..], table) ==
              match BindStep(params[k], actuals[k], table)
              case Ok((b, next)) => After([b], Binding(params[k + 1..], actuals[k + 1..], next))
              case Fail(e) => Fail(e)
              case Crash => Crash
    {
      assert params[k..][0] == params[k] && params[k..][1..] == params[k + 1..];
      assert actuals[k..][0] == actuals[k] && actuals[k..][1..] == actuals[k + 1..];
    }

    /** `c` is the cell the binding `o` calls for: the argument's own cell,
        or a new one holding the argument's value. */
    twostate predicate BoundTo(new o: Operand, new c: Value)
      reads c
    {
      match o
      case Cell(a) => c == a
      case Fresh(x) => fresh(c) && c.Contents() == x
    }

    /** One turn of the loop of `_create_new_environment`. */
    method BindOne(p: (string, TypeName), actual: Token) returns (r: Res<Value>)
      requires HeapInv() && TableIn(funcs.table, Cells)
      modifies funcs
      ensures var s := old(BindStep(p, actual, funcs.table));
              (!s.Ok? ==> r == s.PropagateFailure()) &&
              (s.Ok? ==> r.Ok? && funcs.table == s.value.1 && BoundTo(s.value.0, r.value))
      ensures r.Ok? ==> CellIn(r.value, Cells, Dicts)
    {
      var l := LookupIn(actual, funcs.table);
      if !l.Ok? {
        return l.PropagateFailure();
      }
      var o := l.value;
      var x := if o.Cell? then o.c.Contents() else o.content;
      var t := CompatibleType(p.1);
      if t.None? {
        return Crash;
      }
      if x.t != t.value {
        return Fail(TypeError);
      }
      var cell: Value;
      if IsReference(p.1) && o.Cell? {
        cell := o.c;
      } else {
        cell := new Value(x.t, x.v);
      }
      if !IsReference(p.1) && x.t == FUNC {
        funcs.CreateFunction(p.0, x.v.f);
      }
      r := Ok(cell);
    }

    /** One turn of the loop of `BindParams`: the binding of the parameters
        from the `k`-th on is this parameter's binding followed by the
        binding of the rest, under the table this one leaves. */
    method BindNext(params: seq<(string, TypeName)>, actuals: seq<Token>, k: nat, ghost made: set<Value>)
      returns (r: Res<Value>, ghost b: Operand, ghost made': set<Value>)
      requires |params| == |actuals| && k < |params| && HeapInv() && TableIn(funcs.table, Cells)
      requires forall c :: c in made ==> CellIn(c, Cells, Dicts)
      modifies funcs
      ensures HeapInv()
      ensures forall c :: c in made' ==> CellIn(c, Cells, Dicts)
      ensures r.Ok? ==> made' == if b.Fresh? then made + {r.value} else made
      ensures !r.Ok? ==> old(Binding(params[k..], actuals[k..], funcs.table)) == r.PropagateFailure()
      ensures r.Ok? ==> TableIn(funcs.table, Cells) && BoundTo(b, r.value) && CellIn(r.value, Cells, Dicts) && (b.Cell? ==> r.value in Cells) &&
                        old(Binding(params[k..], actuals[k..], funcs.table)) ==
                        After([b], Binding(params[k + 1..], actuals[k + 1..], funcs.table))
    {
      BindingFrom(params, actuals, k, funcs.table);
      ghost var step := BindStep(params[k], actuals[k], funcs.table);
      r := BindOne(params[k], actuals[k]);
      made' := made;
      if r.Ok? {
        b := step.value.0;
        if b.Fresh? {
          made' := made + {r.value};
        }
        assert Binding(params[k + 1..], actuals[k + 1..], funcs.table) ==
               old(Binding(params[k + 1..], actuals[k + 1..], step.value.1));
      } else {
        b := Fresh(Content(VOID, NoneV));
      }
    }

    /** The loop of `_create_new_environment` over the parameters: the cells
        the parameters are bound to, with the function table updated as the
        bindings go. */
    method BindParams(params: seq<(string, TypeName)>, actuals: seq<Token>)
      returns (r: Res<seq<Value>>, ghost made: set<Value>)
      requires Inv() && |params| == |actuals|
      modifies funcs
      ensures HeapInv()
      ensures var b := old(Binding(params, actuals, funcs.table));
              (!b.Ok? ==> r == b.PropagateFailure()) &&
              (b.Ok? ==> r.Ok? && |r.value| == |params| && funcs.table == b.value.1 &&
                         forall k :: 0 <= k < |params| ==> BoundTo(b.value.0[k], r.value[k]))
      ensures r.Ok? ==> forall k :: 0 <= k < |params| ==> r.value[k] in Cells + made
      ensures forall c :: c in made ==> fresh(c) && CellIn(c, Cells, Dicts)
    {
      ghost var whole := Binding(params, actuals, funcs.table);
      ghost var ops: seq<Operand> := [];
      var cells: seq<Value> := [];
      made := {};
      var k := 0;
      assert params[k..] == params && actuals[k..] == actuals;
      if whole.Ok? {
        assert ops + whole.value.0 == whole.value.0;
      }
      while k < |params|
        invariant 0 <= k <= |params| && |cells| == |ops| == k
        invariant HeapInv() && TableIn(funcs.table, Cells)
        invariant whole == After(ops, Binding(params[k..], actuals[k..], funcs.table))
        invariant forall j :: 0 <= j < k ==> BoundTo(ops[j], cells[j]) && cells[j] in Cells + made
        invariant forall c :: c in made ==> fresh(c) && CellIn(c, Cells, Dicts)
        decreases |params| - k
      {
        ghost var made0 := made;
        var c;
        ghost var b;
        c, b, made := BindNext(params, actuals, k, made);
        if !c.Ok? {
          return c.PropagateFailure(), made0;
        }
        AfterAfter(ops, [b], Binding(params[k + 1..], actuals[k + 1..], funcs.table));
        ops := ops + [b];
        cells := cells + [c.value];
        k := k + 1;
      }
      assert params[k..] == [];
      AfterAfter(ops, [], Ok(([], funcs.table)));
      r := Ok(cells);
    }

    /** The captured variables, each deep-copied as `copy.deepcopy` copies
        it, so that the call cannot change the cells the lambda captured. */
    method CopyCaptures(m: Scope) returns (caps: Scope, ghost made: set<Value>, ghost madeDicts: set<Dict>)
      requires HeapInv() && m.Values <= Cells
      ensures caps.Keys == m.Keys
      ensures forall n :: n in m ==> fresh(caps[n]) && CopyOf(caps[n], m[n]) && caps[n] in made
      ensures forall c :: c in made ==> fresh(c) && CellIn(c, Cells + made, Dicts + madeDicts)
      ensures forall d :: d in madeDicts ==> fresh(d) && DictIn(d, Cells + made)
    {
      var keys := m.Keys;
      caps := map[];
      made, madeDicts := {}, {};
      while keys != {}
        invariant keys <= m.Keys && caps.Keys == m.Keys - keys
        invariant forall n :: n in caps ==> fresh(caps[n]) && CopyOf(caps[n], m[n]) && caps[n] in made
        invariant forall c :: c in made ==> fresh(c) && CellIn(c, Cells + made, Dicts + madeDicts)
        invariant forall d :: d in madeDicts ==> fresh(d) && DictIn(d, Cells + made)
        decreases keys
      {
        var n :| n in keys;
        assert m[n] in m.Values;
        var c, cm, cd := DeepCopy(m[n]);
        forall x | x in made + cm
          ensures CellIn(x, Cells + (made + cm), Dicts + (madeDicts + cd))
        {
          if x in made {
            PayloadInMono(x.v, Cells + made, Dicts + madeDicts, Cells + (made + cm), Dicts + (madeDicts + cd));
          } else {
            PayloadInMono(x.v, Cells + cm, Dicts + cd, Cells + (made + cm), Dicts + (madeDicts + cd));
          }
        }
        caps := caps[n := c];
        made, madeDicts := made + cm, madeDicts + cd;
        keys := keys - {n};
      }
    }

    /** Whether `_create_new_environment` gets through: an unknown function
        name and a wrong number of arguments are name errors, and binding
        the arguments may fail. */
    ghost function CallCheck(fname: string, actuals: seq<Token>): Res<()>
      requires Inv()
      reads this, env, funcs, Cells, Dicts
    {
      if fname !in funcs.table then Fail(NameError)
      else if |funcs.table[fname].params| != |actuals| then Fail(NameError)
      else match Binding(funcs.table[fname].params, actuals, funcs.table)
        case Ok(_) => Ok(())
        case Fail(e) => Fail(e)
        case Crash => Crash
    }

    /** New cells and dictionaries that refer only to the heap and to each
        other join it. */
    method Grow(ghost add: set<Value>, ghost addDicts: set<Dict>)
      requires Inv()
      requires forall c :: c in add ==> CellIn(c, Cells + add, Dicts + addDicts)
      requires forall d :: d in addDicts ==> DictIn(d, Cells + add)
      modifies this`Cells, this`Dicts
      ensures Inv() && Cells == old(Cells) + add && Dicts == old(Dicts) + addDicts
    {
      AddToHeap(Cells, Dicts, add, addDicts);
      FramesInMono(env.frames, Cells, Cells + add);
      TableInMono(funcs.table, Cells, Cells + add);
      Cells, Dicts := Cells + add, Dicts + addDicts;
    }

    /** `Grow` with cells only. */
    method AddCells(ghost add: set<Value>)
      requires Inv()
      requires forall c :: c in add ==> CellIn(c, Cells + add, Dicts)
      modifies this`Cells
      ensures Inv() && Cells == old(Cells) + add
    {
      AddToHeap(Cells, Dicts, add, {});
      FramesInMono(env.frames, Cells, Cells + add);
      TableInMono(funcs.table, Cells, Cells + add);
      assert Dicts + {} == Dicts;
      Cells := Cells + add;
    }

    /** Cells added in two steps, the first referring only to the old heap
        and the second to the old heap and itself, are closed over the heap
        with both added. */
    static lemma JoinAdded(cells: set<Value>, dicts: set<Dict>, made: set<Value>, cmade: set<Value>, cdicts: set<Dict>)
      requires forall c :: c in made ==> CellIn(c, cells, dicts)
      requires forall c :: c in cmade ==> CellIn(c, cells + cmade, dicts + cdicts)
      ensures forall c :: c in made + cmade ==> CellIn(c, cells + (made + cmade), dicts + cdicts)
    {
      forall c | c in made + cmade
        ensures CellIn(c, cells + (made + cmade), dicts + cdicts)
      {
        if c in made {
          PayloadInMono(c.v, cells, dicts, cells + (made + cmade), dicts + cdicts);
        } else {
          PayloadInMono(c.v, cells + cmade, dicts + cdicts, cells + (made + cmade), dicts + cdicts);
        }
      }
    }

    /** The parts of a call's first scope besides the parameters: deep
        copies of the captured variables and the `this` binding. */
    method CallExtras(fname: string, fi: FuncInfo)
      returns (cp: Scope, th: Scope, ghost cmade: set<Value>, ghost cdicts: set<Dict>)
      requires HeapInv() && ScopesIn(fi.captures, Cells)
      ensures cp.Keys == Merge(fi.captures).Keys
      ensures forall n :: n in cp ==> fresh(cp[n]) && CopyOf(cp[n], Merge(fi.captures)[n]) && cp[n] in cmade
      ensures forall c :: c in cmade ==> fresh(c) && CellIn(c, Cells + cmade, Dicts + cdicts)
      ensures forall d :: d in cdicts ==> fresh(d) && DictIn(d, Cells + cmade)
      ensures th == ThisBinding(fname, Top(env.frames)) && th.Values <= Cells
    {
      MergeIn(fi.captures, Cells);
      cp, cmade, cdicts := CopyCaptures(Merge(fi.captures));
      var top := env.frames[|env.frames| - 1];
      FoundIn(top, BeforeDot(fname), Cells);
      th := ThisBinding(fname, top);
    }

    /** The scope a call's frame starts with, built as
        `_create_new_environment` builds it: the parameters bound (see
        `Binding`), then deep copies of the captured variables, then `this`
        for a method call, each later binding of a name replacing an earlier
        one. `add` and `addDicts` are the cells and dictionaries made. */
    method CallScope(fname: string, fi: FuncInfo, actuals: seq<Token>)
      returns (r: Res<Scope>, ghost cells: seq<Value>, ghost caps: Scope,
               ghost add: set<Value>, ghost addDicts: set<Dict>)
      requires Inv() && |fi.params| == |actuals| && ScopesIn(fi.captures, Cells)
      modifies funcs
      ensures HeapInv()
      ensures var b := old(Binding(fi.params, actuals, funcs.table));
              (!b.Ok? ==> r == b.PropagateFailure()) &&
              (b.Ok? ==> r.Ok? && funcs.table == b.value.1 && |cells| == |fi.params| &&
                         (forall k :: 0 <= k < |cells| ==> BoundTo(b.value.0[k], cells[k])) &&
                         caps.Keys == Merge(fi.captures).Keys &&
                         (forall n :: n in caps ==> fresh(caps[n]) && CopyOf(caps[n], Merge(fi.captures)[n])) &&
                         r.value == ParamScope(fi.params, cells) + caps + ThisBinding(fname, Top(env.frames)))
      ensures r.Ok? ==> r.value.Values <= Cells + add && TableIn(funcs.table, Cells)
      ensures forall c :: c in add ==> fresh(c) && CellIn(c, Cells + add, Dicts + addDicts)
      ensures forall d :: d in addDicts ==> fresh(d) && DictIn(d, Cells + add)
    {
      cells, caps, add, addDicts := [], map[], {}, {};
      if Binding(fi.params, actuals, funcs.table).Ok? {
        BindingGood(fi.params, actuals, funcs.table);
      }
      var bound, made := BindParams(fi.params, actuals);
      if !bound.Ok? {
        return bound.PropagateFailure(), cells, caps, add, addDicts;
      }
      var ps := bound.value;
      var scope;
      scope, caps, add, addDicts := AssembleScope(fname, fi, ps, made);
      cells := ps;
      r := Ok(scope);
    }

    /** The call's scope around the bound parameter cells `ps`: the
        parameters, then fresh copies of the captures, then `this`. */
    method AssembleScope(fname: string, fi: FuncInfo, ps: seq<Value>, ghost made: set<Value>)
      returns (scope: Scope, caps: Scope, ghost add: set<Value>, ghost addDicts: set<Dict>)
      requires HeapInv() && ScopesIn(fi.captures, Cells) && |ps| == |fi.params|
      requires forall c :: c in made ==> CellIn(c, Cells, Dicts)
      requires forall k :: 0 <= k < |ps| ==> ps[k] in Cells + made
      ensures caps.Keys == Merge(fi.captures).Keys
      ensures forall n :: n in caps ==> fresh(caps[n]) && CopyOf(caps[n], Merge(fi.captures)[n])
      ensures scope == ParamScope(fi.params, ps) + caps + ThisBinding(fname, Top(env.frames))
      ensures scope.Values <= Cells + add
      ensures forall c :: c in add ==> (c in made || fresh(c)) && CellIn(c, Cells + add, Dicts + addDicts)
      ensures forall d :: d in addDicts ==> fresh(d) && DictIn(d, Cells + add)
    {
      var cp, th, cmade, cdicts := CallExtras(fname, fi);
      scope := ParamScope(fi.params, ps) + cp + th;
      add, addDicts := made + cmade, cdicts;
      JoinAdded(Cells, Dicts, made, cmade, cdicts);
      forall x | x in scope
        ensures scope[x] in Cells + add
      {
        if x !in th && x !in cp {
          assert scope[x] in ps;
        }
      }
      caps := cp;
    }

    /** `_create_new_environment`: look the function up (an unknown name or
        a wrong number of arguments is a `NameError`), build the call's
        scope with `CallScope` and push a frame holding just that scope. */
    method CreateNewEnvironment(fname: string, actuals: seq<Token>)
      returns (r: Res<()>, ghost scope: Scope, ghost cells: seq<Value>, ghost caps: Scope)
      requires Inv()
      modifies this`Cells, this`Dicts, env, funcs
      ensures Grew()
      ensures r == old(CallCheck(fname, actuals))
      ensures r.Ok? ==> Inv() && old(Cells) <= Cells && old(Dicts) <= Dicts
      ensures r.Ok? ==> funcs.table == old(Binding(funcs.table[fname].params, actuals, funcs.table)).value.1
      ensures r.Ok? ==> env.frames == old(env.frames) + [[scope]]
      ensures r.Ok? ==> |cells| == |old(funcs.table)[fname].params| &&
                        caps.Keys == Merge(old(funcs.table)[fname].captures).Keys &&
                        scope == ParamScope(old(funcs.table)[fname].params, cells) + caps +
                                 ThisBinding(fname, Top(old(env.frames)))
    {
      scope, cells, caps := map[], [], map[];
      ghost var frames0 := env.frames;
      var fo := funcs.Get(fname);
      if fo.None? {
        return Fail(NameError), scope, cells, caps;
      }
      var fi := fo.value;
      if |fi.params| != |actuals| {
        return Fail(NameError), scope, cells, caps;
      }
      assert ScopesIn(fi.captures, Cells);
      ghost var b := Binding(fi.params, actuals, funcs.table);
      ghost var check := CallCheck(fname, actuals);
      assert check == if b.Ok? then Ok(()) else b.PropagateFailure();
      r, scope, cells, caps := EnterCallee(fname, fi, actuals);
      assert r == check;
    }

    /** The frame of a call of `fi`, whose arity matches: the binding's
        error, or the call's scope pushed as a frame of its own. */
    method EnterCallee(fname: string, fi: FuncInfo, actuals: seq<Token>)
      returns (r: Res<()>, ghost scope: Scope, ghost cells: seq<Value>, ghost caps: Scope)
      requires Inv() && |fi.params| == |actuals| && ScopesIn(fi.captures, Cells)
      modifies this`Cells, this`Dicts, env, funcs
      ensures Grew()
      ensures var b := old(Binding(fi.params, actuals, funcs.table));
              (!b.Ok? ==> r == b.PropagateFailure()) &&
              (b.Ok? ==> r == Ok(()) && funcs.table == b.value.1)
      ensures r.Ok? ==> Inv() && old(Cells) <= Cells && old(Dicts) <= Dicts
      ensures r.Ok? ==> env.frames == old(env.frames) + [[scope]]
      ensures r.Ok? ==> |cells| == |fi.params| && caps.Keys == Merge(fi.captures).Keys &&
                        scope == ParamScope(fi.params, cells) + caps + ThisBinding(fname, Top(old(env.frames)))
    {
      scope := map[];
      ghost var frames0 := env.frames;
      var s;
      ghost var add, addDicts;
      s, cells, caps, add, addDicts := CallScope(fname, fi, actuals);
      if !s.Ok? {
        return s.PropagateFailure(), scope, cells, caps;
      }
      var sc := s.value;
      scope := sc;
      Grow(add, addDicts);
      EnterFrame(frames0, Cells, sc);
      env.Push();
      env.ImportMappings(sc);
      r := Ok(());
    }

    /** The callee's frame, pushed on top of the caller's, as far as the
        call protocol needs it. */
    method PushCallFrame(fname: string, actuals: seq<Token>) returns (r: Res<()>, ghost top: Frame)
      requires Inv()
      modifies this`Cells, this`Dicts, env, funcs
      ensures Grew()
      ensures r == old(CallCheck(fname, actuals))
      ensures r.Ok? ==> Inv() && env.frames == old(env.frames) + [top] && fname in funcs.table
    {
      ghost var table0 := funcs.table;
      ghost var scope, cells, caps;
      r, scope, cells, caps := CreateNewEnvironment(fname, actuals);
      top := [scope];
      if r.Ok? {
        assert fname in table0 && table0.Keys <= funcs.table.Keys;
      }
    }

    /** `input` or `strtoint`: the result variable of the current frame
        changes, and nothing below it. */
    method ResultBuiltin(isInput: bool, args: seq<Token>) returns (r: Res<()>)
      requires Inv()
      modifies this`Cells, this`input, env
      ensures Grew()
      ensures Inv()
      ensures !isInput && |args| != 1 ==> r == Fail(SyntaxError)
      ensures r.Ok? ==> |env.frames| == |old(env.frames)| &&
                        env.frames[..|env.frames| - 1] == old(env.frames)[..|old(env.frames)| - 1]
    {
      var s, c;
      if isInput {
        r, s, c := Input(args);
        if r.Ok? {
          ResultSetOnly(old(env.frames), "results", s, c, "");
        }
      } else {
        r, s, c := StrToInt(args);
        if r.Ok? {
          ResultSetOnly(old(env.frames), "resulti", s, c, "");
        }
      }
    }

    /** `print`, `input` and `strtoint`, called by `_funccall`,
        which then goes on with the next line in the same frame. */
    method CallBuiltin(k: Keyword, args: seq<Token>) returns (r: Res<()>)
      requires Valid() && k in {PrintKw, InputKw, StrToIntKw}
      modifies this`ip, this`Cells, this`input, env
      ensures Grew()
      ensures r.Ok? ==> Valid()
      ensures k == PrintKw ==>
                (args == [] ==> r == Fail(SyntaxError)) &&
                (args != [] ==> if old(Printed(args)).Ok? then r.Ok? else r == old(Printed(args)).PropagateFailure())
      ensures k == StrToIntKw && |args| != 1 ==> r == Fail(SyntaxError)
      ensures r.Ok? ==> ip == old(ip) + 1 && |env.frames| == |old(env.frames)| &&
                        env.frames[..|env.frames| - 1] == old(env.frames)[..|old(env.frames)| - 1]
    {
      if k == PrintKw {
        var p := Print(args);
        if !p.Ok? {
          return p.PropagateFailure();
        }
        r := Ok(());
      } else {
        r := ResultBuiltin(k == InputKw, args);
      }
      if r.Ok? {
        Advance();
      }
    }

    /** Push the return address and go to `target`. */
    method Jump(target: int)
      requires Inv()
      modifies this`ip, this`returnStack
      ensures Inv() && returnStack == old(returnStack) + [old(ip) + 1] && ip == target
    {
      returnStack := returnStack + [ip + 1];
      ip := target;
    }

    /** A call of a function of the program: the line after the call is
        pushed as the return address, the callee's frame is pushed (see
        `CreateNewEnvironment`), and execution continues at the first line of
        the body of the function the name denotes once the arguments are
        bound. */
    method Call(fname: string, actuals: seq<Token>) returns (r: Res<()>)
      requires Valid() && 0 <= ip < |prog|
      modifies this`ip, this`returnStack, this`Cells, this`Dicts, env, funcs
      ensures Grew()
      ensures r.Ok? ==> Valid()
      ensures r == old(CallCheck(fname, actuals))
      ensures r.Ok? ==> returnStack == old(returnStack) + [old(ip) + 1] &&
                        fname in funcs.table && ip == funcs.table[fname].startIp &&
                        |env.frames| == |old(env.frames)| + 1 &&
                        env.frames[..|old(env.frames)|] == old(env.frames)
    {
      ghost var frames0 := env.frames;
      ghost var top;
      r, top := PushCallFrame(fname, actuals);
      // The interpreter pushes the address first; nothing in between reads it.
      if r.Ok? {
        var target := funcs.table[fname].startIp;
        Jump(target);
        assert env.frames[..|frames0|] == frames0;
      } else {
        returnStack := returnStack + [ip + 1];
      }
    }

    /** `_funccall`: a missing name is a syntax error; the built-ins run in
        place, and any other name is a call. */
    method FuncCall(args: seq<Token>) returns (r: Res<()>)
      requires Valid() && 0 <= ip < |prog|
      modifies this`ip, this`returnStack, this`Cells, this`Dicts, this`input, env, funcs
      ensures Grew()
      ensures r.Ok? ==> Valid()
      ensures args == [] ==> r == Fail(SyntaxError)
      ensures args != [] && BuiltinOf(args[0]).Some? ==>
                returnStack == old(returnStack) && funcs.table == old(funcs.table) &&
                (r.Ok? ==> ip == old(ip) + 1 && |env.frames| == |old(env.frames)|)
      ensures args != [] && BuiltinOf(args[0]).None? ==>
                r == old(CallCheck(TokenText(args[0]), args[1..])) &&
                (r.Ok? ==> returnStack == old(returnStack) + [old(ip) + 1] &&
                           TokenText(args[0]) in funcs.table && ip == funcs.table[TokenText(args[0])].startIp &&
                           |env.frames| == |old(env.frames)| + 1 &&
                           env.frames[..|old(env.frames)|] == old(env.frames))
    {
      if args == [] {
        return Fail(SyntaxError);
      }
      var b := BuiltinOf(args[0]);
      if b.Some? {
        r := CallBuiltin(b.value, args[1..]);
      } else {
        r := Call(TokenText(args[0]), args[1..]);
      }
    }

    // -------------------------------------------------------------------
    // `_define_var`.

    /** `c` holds a deep copy of the default of `tn`: its tag and payload,
        except that for `object` it has a dictionary of its own with the
        fields of the shared default dictionary, each a cell of its own
        holding what that field holds. */
    ghost predicate IsDefault(c: Value, tn: TypeName)
      requires HasDefault(tn)
      reads c, defaultDict, defaultDict.fields.Values
      reads if c.v.ObjV? then {c.v.d} + c.v.d.fields.Values else {}
    {
      var x := DefaultFor(tn, defaultDict).value;
      c.t == x.t &&
      if x.t == OBJECT then
        c.v.ObjV? && c.v.d != defaultDict && c.v.d.fields.Keys == defaultDict.fields.Keys &&
        forall f :: f in defaultDict.fields ==> c.v.d.fields[f].Contents() == defaultDict.fields[f].Contents()
      else c.v == x.v
    }

    /** `copy.deepcopy(type_to_default[tn])`, joined to the heap. */
    method NewDefault(tn: TypeName) returns (n: Value)
      requires Inv() && HasDefault(tn)
      modifies this`Cells, this`Dicts
      ensures Grew()
      ensures Inv() && old(Cells) <= Cells && old(Dicts) <= Dicts && n in Cells
      ensures fresh(n) && IsDefault(n, tn)
    {
      var x := DefaultFor(tn, defaultDict).value;
      var proto := new Value(x.t, x.v);
      ghost var cells, dicts;
      n, cells, dicts := DeepCopy(proto);
      Grow(cells, dicts);
    }

    /** Every cell of `cells` is `Defaulted` for `tn`. */
    ghost predicate AllDefaulted(cells: seq<Value>, tn: TypeName)
      requires HasDefault(tn)
      reads set j | 0 <= j < |cells| :: cells[j]
    {
      forall j :: 0 <= j < |cells| ==> Defaulted(cells[j], tn)
    }

    /** The part of `IsDefault` that a cell keeps on its own: the tag and
        payload of the default, and for `object` a dictionary that is not
        the shared one. */
    ghost predicate Defaulted(c: Value, tn: TypeName)
      requires HasDefault(tn)
      reads c
    {
      var x := DefaultFor(tn, defaultDict).value;
      c.t == x.t &&
      if x.t == OBJECT then c.v.ObjV? && c.v.d != defaultDict else c.v == x.v
    }

    /** One turn of the loop of `_define_var`: declare `name` in the
        innermost scope (a name the scope binds already is a name error),
        check the type keyword (no default is a type error), and bind the
        name to a deep copy of the default. */
    method DeclareOne(name: string, tn: Option<TypeName>) returns (r: Res<()>, ghost c: Value)
      requires Inv() && |Top(env.frames)| > 0
      modifies this`Cells, this`Dicts, env
      ensures Grew()
      ensures r == (if name in Innermost(Top(old(env.frames))) then Fail(NameError)
                    else if tn.None? || !HasDefault(tn.value) then Fail(TypeError)
                    else Ok(()))
      ensures r.Ok? ==> Inv() && old(Cells) <= Cells && old(Dicts) <= Dicts &&
                        env.frames == Declare(old(env.frames), name, c, false) &&
                        fresh(c) && IsDefault(c, tn.value)
    {
      var made;
      made, c := NewSymbol(name, false);
      if !made {
        return Fail(NameError), c;
      }
      if tn.None? || !HasDefault(tn.value) {
        return Fail(TypeError), c;
      }
      c := BindDefault(old(env.frames), name, c, tn.value);
      r := Ok(());
    }

    /** The tail of a declaration: the slot `c0` just declared for `name`
        is replaced by a deep copy of the default for `tn`. */
    method BindDefault(ghost fs: seq<Frame>, name: string, ghost c0: Value, tn: TypeName) returns (n: Value)
      requires Inv() && HasDefault(tn) && |fs| > 0 && |Top(fs)| > 0
      requires env.frames == Declare(fs, name, c0, false)
      modifies this`Cells, this`Dicts, env
      ensures Grew()
      ensures Inv() && old(Cells) <= Cells && old(Dicts) <= Dicts
      ensures env.frames == Declare(fs, name, n, false) && fresh(n) && IsDefault(n, tn)
    {
      n := NewDefault(tn);
      SetVisible(name, n);
      RedeclareInnermost(fs, name, c0, n);
    }

    /** The turn of the loop of `_define_var` for the name at `k`, after
        the names before it went through with the cells `cells`, leaving the
        innermost scope binding `taken`. */
    method DeclareNext(names: seq<string>, tn: Option<TypeName>, k: nat, ghost frames0: seq<Frame>,
                       ghost cells: seq<Value>, ghost taken: set<string>) returns (r: Res<()>, ghost c: Value)
      requires Inv() && k < |names| && |cells| == k && |frames0| > 0 && |Top(frames0)| > 0
      requires env.frames == DeclareAll(frames0, names[..k], cells)
      requires Innermost(Top(env.frames)).Keys == taken
      requires k > 0 ==> tn.Some? && HasDefault(tn.value) && AllDefaulted(cells, tn.value)
      modifies this`Cells, this`Dicts, env
      ensures Grew()
      ensures r == (if names[k] in taken then Fail(NameError)
                    else if tn.None? || !HasDefault(tn.value) then Fail(TypeError)
                    else Ok(()))
      ensures r.Ok? ==> Inv() && fresh(c) && AllDefaulted(cells + [c], tn.value) &&
                        env.frames == DeclareAll(frames0, names[..k + 1], cells + [c]) &&
                        Innermost(Top(env.frames)).Keys == taken + {names[k]} &&
                        DefineCheck(tn, names[k..], taken) == DefineCheck(tn, names[k + 1..], taken + {names[k]})
    {
      ghost var before := env.frames;
      r, c := DeclareOne(names[k], tn);
      if r.Ok? {
        DeclareKeys(before, names[k], c);
        DeclareAllSnoc(frames0, names, cells, k, c);
        DefineCheckStep(tn, names, k, taken);
      }
    }

    /** The loop of `_define_var` over the names, in order. */
    method DeclareNames(names: seq<string>, tn: Option<TypeName>) returns (r: Res<()>, ghost cells: seq<Value>)
      requires Inv() && |Top(env.frames)| > 0
      modifies this`Cells, this`Dicts, env
      ensures Grew()
      ensures r == DefineCheck(tn, names, Innermost(Top(old(env.frames))).Keys)
      ensures r.Ok? ==> Inv() && |cells| == |names| && |env.frames| == |old(env.frames)| &&
                        env.frames == DeclareAll(old(env.frames), names, cells)
      ensures r.Ok? ==> forall k :: 0 <= k < |cells| ==> fresh(cells[k])
      ensures r.Ok? && names != [] ==> tn.Some? && HasDefault(tn.value) && AllDefaulted(cells, tn.value)
    {
      cells := [];
      ghost var frames0 := env.frames;
      ghost var taken := Innermost(Top(frames0)).Keys;
      var k := 0;
      while k < |names|
        invariant 0 <= k <= |names| && |cells| == k && Inv()
        invariant env.frames == DeclareAll(frames0, names[..k], cells)
        invariant Innermost(Top(env.frames)).Keys == taken
        invariant DefineCheck(tn, names, Innermost(Top(frames0)).Keys) == DefineCheck(tn, names[k..], taken)
        invariant k > 0 ==> tn.Some? && HasDefault(tn.value)
        invariant k > 0 ==> AllDefaulted(cells, tn.value)
        invariant forall j :: 0 <= j < k ==> fresh(cells[j])
        invariant forall c :: c in Cells ==> c in old(Cells) || fresh(c)
        invariant forall d :: d in Dicts ==> d in old(Dicts) || fresh(d)
        decreases |names| - k
      {
        ghost var c;
        r, c := DeclareNext(names, tn, k, frames0, cells, taken);
        if !r.Ok? {
          assert names[k..][0] == names[k];
          return r, cells;
        }
        taken := taken + {names[k]};
        cells := cells + [c];
        k := k + 1;
      }
      assert names[..k] == names && names[k..] == [];
      r := Ok(());
    }

    /** `_define_var`: a type keyword and at least one name, else a syntax
        error; the names are declared in turn (see `DeclareOne`), the first
        failure stopping the statement, and execution goes on with the next
        line. */
    method DefineVar(args: seq<Token>) returns (r: Res<()>, ghost cells: seq<Value>)
      requires Valid() && 0 <= ip < |prog|
      modifies this`ip, this`Cells, this`Dicts, env
      ensures Grew()
      ensures r.Ok? ==> Valid()
      ensures |args| < 2 ==> r == Fail(SyntaxError)
      ensures |args| >= 2 && |Top(old(env.frames))| == 0 ==> r == Crash
      ensures |args| >= 2 && |Top(old(env.frames))| > 0 ==>
                r == DefineCheck(TypeNamed(args[0]), Texts(args[1..]), Innermost(Top(old(env.frames))).Keys)
      ensures r.Ok? ==> ip == old(ip) + 1 && |cells| == |args| - 1 && |Top(old(env.frames))| > 0
      ensures r.Ok? ==> env.frames == DeclareAll(old(env.frames), Texts(args[1..]), cells)
      ensures r.Ok? ==> forall k :: 0 <= k < |cells| ==> fresh(cells[k]) && Defaulted(cells[k], TypeNamed(args[0]).value)
    {
      cells := [];
      if |args| < 2 {
        return Fail(SyntaxError), cells;
      }
      if |env.frames[|env.frames| - 1]| == 0 {
        return Crash, cells;
      }
      r, cells := DeclareNames(Texts(args[1..]), TypeNamed(args[0]));
      if r.Ok? {
        Advance();
      }
    }

    // -------------------------------------------------------------------
    // `_set_value` and `_assign`.

    /** The outcome `_set_value` reaches for `name`: a store into `o.f`
        needs the variable `o` and a dictionary in it (anything else
        raises), a plain name must be a variable. */
    function SetOutcome(name: string): (r: Res<()>)
      requires |env.frames| > 0
      reads env, if '.' in name && env.Get(SplitDot(name).0).Some? then {env.Get(SplitDot(name).0).value} else {}
      ensures r.Fail? <==> '.' !in name && env.Get(name).None?
      ensures r.Crash? ==> '.' in name
    {
      if '.' in name then
        match env.Get(SplitDot(name).0)
        case None => Crash
        case Some(c) => if c.v.ObjV? then Ok(()) else Crash
      else if env.Get(name).None? then Fail(NameError)
      else Ok(())
    }

    /** The plain-name half of `_set_value`: the variable's cell takes over
        the tag and payload of `x`; every other cell keeps its contents. */
    method SetVar(name: string, x: Value) returns (r: Res<()>)
      requires Inv() && Good(x) && '.' !in name
      modifies Cells
      ensures Inv()
      ensures r == old(SetOutcome(name))
      ensures r.Ok? ==> env.Get(name).value.Contents() == old(x.Contents())
      ensures forall c :: c in old(Cells) && (r.Fail? || c != env.Get(name).value) ==> unchanged(c)
    {
      FoundIn(Top(env.frames), name, Cells);
      var target := env.Get(name);
      if target.None? {
        return Fail(NameError);
      }
      target.value.Set(x);
      assert CellIn(target.value, Cells, Dicts);
      r := Ok(());
    }

    /** The dotted half of `_set_value`: the dictionary of the object
        variable `o` maps `f` to the very cell `x`, and the object variable
        is set to the same dictionary again. */
    method SetField(o: string, f: string, x: Value) returns (r: Res<()>)
      requires Inv() && Good(x) && x in Cells
      modifies Cells, Dicts
      ensures Inv()
      ensures r == if old(env.Get(o).Some? && env.Get(o).value.v.ObjV?) then Ok(()) else Crash
      ensures r.Ok? ==> env.Get(o).Some? && env.Get(o).value.v == old(env.Get(o).value.v)
      ensures r.Ok? ==> old(env.Get(o).value.v.d.fields)[f := x] == env.Get(o).value.v.d.fields
      ensures forall c :: c in old(Cells) ==> c.Contents() == old(c.Contents())
      ensures forall d :: d in old(Dicts) && (r.Crash? || d != env.Get(o).value.v.d) ==> unchanged(d)
    {
      FoundIn(Top(env.frames), o, Cells);
      var oc := env.Get(o);
      if oc.None? || !oc.value.v.ObjV? {
        return Crash;
      }
      var c := oc.value;
      assert CellIn(c, Cells, Dicts);
      var d := c.v.d;
      assert DictIn(d, Cells);
      d.fields := d.fields[f := x];
      assert DictIn(d, Cells);
      var w := new Value(OBJECT, ObjV(d));
      c.Set(w);
      r := Ok(());
    }

    /** The stored cell joins the heap, and a function value becomes the
        function of that name. */
    method Register(name: string, x: Value)
      requires Inv() && Good(x)
      modifies this`Cells, this`Dicts, funcs
      ensures Inv() && Cells == old(Cells) + {x} && Dicts == old(Dicts)
      ensures funcs.table == if x.v.FuncV? then old(funcs.table)[name := x.v.f] else old(funcs.table)
    {
      assert CellIn(x, Cells + {x}, Dicts) by {
        PayloadInMono(x.v, Cells, Dicts, Cells + {x}, Dicts);
      }
      Grow({x}, {});
      if x.t == FUNC {
        assert ScopesIn(x.v.f.captures, Cells);
        TableInUpdate(funcs.table, Cells, name, x.v.f);
        funcs.CreateFunction(name, x.v.f);
      }
    }

    /** `_set_value`: a function value also becomes the function of that
        name (even for `o.f`), then the store is made. */
    method SetValue(name: string, x: Value) returns (r: Res<()>)
      requires Inv() && Good(x)
      modifies this`Cells, this`Dicts, funcs, Cells, Dicts, x
      ensures Inv() && Cells == old(Cells) + {x} && Dicts == old(Dicts)
      ensures r == old(SetOutcome(name))
      ensures funcs.table == if old(x.v).FuncV? then old(funcs.table)[name := old(x.v).f] else old(funcs.table)
      ensures x.Contents() == old(x.Contents())
      ensures '.' !in name && r.Ok? ==> env.Get(name).value.Contents() == old(x.Contents())
      ensures '.' in name && r.Ok? ==>
                var (o, f) := SplitDot(name);
                env.Get(o).Some? && env.Get(o).value.Contents() == old(env.Get(o).value.Contents()) &&
                env.Get(o).value.v.ObjV? && old(env.Get(o).value.v.d.fields)[f := x] == env.Get(o).value.v.d.fields
      ensures '.' !in name ==>
                (forall c :: c in old(Cells) && (r.Fail? || c != env.Get(name).value) ==> c.Contents() == old(c.Contents())) &&
                (forall d :: d in old(Dicts) ==> unchanged(d))
      ensures '.' in name ==>
                (forall c :: c in old(Cells) ==> c.Contents() == old(c.Contents())) &&
                (forall d :: d in old(Dicts) && (r.Crash? || d != env.Get(SplitDot(name).0).value.v.d) ==> unchanged(d))
    {
      ghost var outcome := SetOutcome(name);
      ghost var content := x.Contents();
      Register(name, x);
      assert SetOutcome(name) == outcome && x.Contents() == content;
      if '.' in name {
        r := SetField(SplitDot(name).0, SplitDot(name).1, x);
      } else {
        r := SetVar(name, x);
      }
    }

    /** The checks `_assign` makes before `_set_value`: at least a target
        and an expression, else a syntax error; the expression is evaluated
        first; the target must then resolve (for `o.f` the variable `o`,
        which must hold an object); a target that does not hold an object
        only takes a value of its own type. Yields the expression's value. */
    ghost function AssignGuard(args: seq<Token>): Res<Content>
      requires Inv()
      reads this, env, funcs, Cells, Dicts
    {
      if |args| < 2 then Fail(SyntaxError)
      else
        var name := TokenText(args[0]);
        match EvalOf(args[1..])
        case Fail(e) => Fail(e)
        case Crash => Crash
        case Ok(x) =>
          match Resolved(if '.' in name then Word(SplitDot(name).0) else args[0])
          case Fail(e) => Fail(e)
          case Crash => Crash
          case Ok(e) =>
            if '.' in name && e.t != OBJECT then Fail(TypeError)
            else if e.t != OBJECT && e.t != x.t then Fail(TypeError)
            else Ok(x)
    }

    /** An assignment that passes the checks gives a target that does not
        hold an object a value of the same type, and gives `o.f` a target
        `o` that holds an object; the checks fail exactly on the type
        mismatches. */
    lemma AssignGuardTypes(args: seq<Token>)
      requires Inv() && |args| >= 2 && EvalOf(args[1..]).Ok?
      ensures var name := TokenText(args[0]);
              var e := Resolved(if '.' in name then Word(SplitDot(name).0) else args[0]);
              e.Ok? ==>
                (AssignGuard(args) == Fail(TypeError) <==>
                   ('.' in name && e.value.t != OBJECT) ||
                   (e.value.t != OBJECT && e.value.t != EvalOf(args[1..]).value.t)) &&
                (AssignGuard(args).Ok? ==>
                   AssignGuard(args).value == EvalOf(args[1..]).value &&
                   ('.' in name ==> e.value.t == OBJECT) &&
                   (e.value.t != OBJECT ==> AssignGuard(args).value.t == e.value.t))
    {
    }

    /** The first half of `_assign`: the checks, and the cell to store. */
    method AssignValue(args: seq<Token>) returns (r: Res<Value>)
      requires Inv()
      ensures Inv() && ContentOf(r) == old(AssignGuard(args))
      ensures r.Ok? ==> (r.value in Cells || fresh(r.value)) && Good(r.value)
      ensures forall n :: SetOutcome(n) == old(SetOutcome(n))
      ensures r.Ok? && old(|args| == 2 && ItemFor(args[1], Resolved(args[1])).Operand? &&
                           Lookup(args[1]).Ok? && Lookup(args[1]).value.Cell?) ==>
                r.value == old(Lookup(args[1]).value.c)
    {
      if |args| < 2 {
        return Fail(SyntaxError);
      }
      var name := TokenText(args[0]);
      var x := EvalExpression(args[1..]);
      if !x.Ok? {
        return x;
      }
      var e := GetValue(if '.' in name then Word(SplitDot(name).0) else args[0]);
      if e.Fail? {
        return Fail(e.err);
      } else if e.Crash? {
        return Crash;
      }
      if '.' in name && e.value.t != OBJECT {
        return Fail(TypeError);
      }
      if e.value.t != OBJECT && e.value.t != x.value.t {
        return Fail(TypeError);
      }
      r := x;
    }

    /** `_set_value` followed by the move to the next line. */
    method Store(name: string, x: Value, ghost c: Content) returns (r: Res<()>)
      requires Valid() && 0 <= ip < |prog| && Good(x) && x.Contents() == c
      modifies this`ip, this`Cells, this`Dicts, funcs, Cells, Dicts, x
      ensures Valid() && Cells == old(Cells) + {x} && Dicts == old(Dicts)
      ensures r == old(SetOutcome(name))
      ensures r.Ok? ==> ip == old(ip) + 1
      ensures funcs.table == if c.v.FuncV? then old(funcs.table)[name := c.v.f] else old(funcs.table)
      ensures x.Contents() == c
      ensures r.Ok? && '.' !in name ==>
                env.Get(name).Some? && env.Get(name).value.Contents() == c
      ensures r.Ok? && '.' in name ==>
                var (o, f) := SplitDot(name);
                env.Get(o).Some? && env.Get(o).value.v.ObjV? &&
                env.Get(o).value.v.d.fields == old(env.Get(o).value.v.d.fields)[f := x]
      ensures '.' !in name ==>
                (forall y :: y in old(Cells) && (r.Fail? || y != env.Get(name).value) ==> y.Contents() == old(y.Contents())) &&
                (forall d :: d in old(Dicts) ==> unchanged(d))
      ensures '.' in name ==>
                (forall y :: y in old(Cells) ==> y.Contents() == old(y.Contents())) &&
                (forall d :: d in old(Dicts) && (r.Crash? || d != env.Get(SplitDot(name).0).value.v.d) ==> unchanged(d))
    {
      r := SetValue(name, x);
      if r.Ok? {
        Advance();
      }
    }

    /** `_assign`: the checks of `AssignGuard`, then `_set_value`. On
        success the target holds the expression's value: a variable takes
        over its tag and payload (so a variable that did not hold an object
        keeps its type), a field `o.f` becomes the expression's own cell,
        and a function value also renames a function. No other cell
        changes, and no dictionary but the one of `o`. An expression that
        is a lone variable or field stores that very cell. Execution goes
        on with the next line. */
    method Assign(args: seq<Token>) returns (r: Res<()>, ghost stored: Value?)
      requires Valid() && 0 <= ip < |prog|
      modifies this`ip, this`Cells, this`Dicts, funcs, Cells, Dicts
      ensures Grew()
      ensures Valid()
      ensures !old(AssignGuard(args)).Ok? ==> r == old(AssignGuard(args)).PropagateFailure()
      ensures old(AssignGuard(args)).Ok? ==> r == old(SetOutcome(TokenText(args[0])))
      ensures r.Ok? ==> ip == old(ip) + 1
      ensures r.Ok? ==>
                var x := old(AssignGuard(args)).value;
                funcs.table == (if x.v.FuncV? then old(funcs.table)[TokenText(args[0]) := x.v.f] else old(funcs.table))
      ensures r.Ok? && '.' !in TokenText(args[0]) ==>
                env.Get(TokenText(args[0])).Some? &&
                env.Get(TokenText(args[0])).value.Contents() == old(AssignGuard(args)).value
      ensures r.Ok? ==> stored != null && (stored in old(Cells) || fresh(stored)) &&
                        stored.Contents() == old(AssignGuard(args)).value
      ensures r.Ok? && old(|args| == 2 && ItemFor(args[1], Resolved(args[1])).Operand? &&
                           Lookup(args[1]).Ok? && Lookup(args[1]).value.Cell?) ==>
                stored == old(Lookup(args[1]).value.c)
      ensures r.Ok? && '.' in TokenText(args[0]) ==>
                var (o, f) := SplitDot(TokenText(args[0]));
                env.Get(o).Some? && env.Get(o).value.v.ObjV? &&
                env.Get(o).value.v.d.fields == old(env.Get(o).value.v.d.fields)[f := stored]
      ensures |args| >= 2 && '.' !in TokenText(args[0]) ==>
                (forall y :: y in old(Cells) && (!r.Ok? || y != env.Get(TokenText(args[0])).value) ==>
                   y.Contents() == old(y.Contents())) &&
                (forall d :: d in old(Dicts) ==> unchanged(d))
      ensures |args| >= 2 && '.' in TokenText(args[0]) ==>
                (forall y :: y in old(Cells) ==> y.Contents() == old(y.Contents())) &&
                (forall d :: d in old(Dicts) && (!r.Ok? || d != env.Get(SplitDot(TokenText(args[0])).0).value.v.d) ==>
                   unchanged(d))
    {
      stored := null;
      if |args| < 2 {
        r := Fail(SyntaxError);
        return;
      }
      ghost var outcome := SetOutcome(TokenText(args[0]));
      ghost var guard := AssignGuard(args);
      var x := AssignValue(args);
      if x.Fail? {
        r := Fail(x.err);
        return;
      } else if x.Crash? {
        r := Crash;
        return;
      }
      assert x.value.Contents() == guard.value;
      ghost var table0 := funcs.table;
      stored := x.value;
      r := Store(TokenText(args[0]), x.value, guard.value);
      assert funcs.table == if guard.value.v.FuncV? then table0[TokenText(args[0]) := guard.value.v.f] else table0;
    }

    // -------------------------------------------------------------------
    // `_process_line` and `run`.

    /** What the statement `k` with arguments `args` on line `ip` does, as
        its handler promises: the outcome, and the new line, return stack
        and frames. `slot` and `copy` are the cells a value passed back (or
        a lambda) uses, `cells` the cells a declaration binds. */
    twostate predicate Stepped(k: Keyword, args: seq<Token>, r: Res<()>, new slot: Value?, new copy: Value?, new cells: seq<Value>)
      requires old(Valid()) && 0 <= old(ip) < |prog|
      reads this, env, funcs, copy
    {
      (k !in {FuncCallKw, EndFuncKw, ReturnKw, EndLambdaKw} ==> returnStack == old(returnStack)) &&
      match k
      case AssignKw =>
        var g := old(AssignGuard(args));
        env.frames == old(env.frames) &&
        (!g.Ok? ==> r == g.PropagateFailure()) &&
        (g.Ok? ==> r == old(SetOutcome(TokenText(args[0])))) &&
        (r.Ok? ==> ip == old(ip) + 1)
      case FuncCallKw =>
        (args == [] ==> r == Fail(SyntaxError)) &&
        (args != [] && BuiltinOf(args[0]).Some? ==>
           returnStack == old(returnStack) &&
           (r.Ok? ==> ip == old(ip) + 1 && |env.frames| == |old(env.frames)|)) &&
        (args != [] && BuiltinOf(args[0]).None? ==>
           r == old(CallCheck(TokenText(args[0]), args[1..])) &&
           (r.Ok? ==> returnStack == old(returnStack) + [old(ip) + 1] &&
                      TokenText(args[0]) in funcs.table && ip == funcs.table[TokenText(args[0])].startIp &&
                      |env.frames| == |old(env.frames)| + 1 && env.frames[..|old(env.frames)|] == old(env.frames)))
      case EndFuncKw =>
        FuncEnded(old(ip), old(returnStack), old(env.frames), old(terminate), None, r, slot, copy)
      case IfKw =>
        var b := old(CondOf(args));
        (!b.Ok? ==> r == b.PropagateFailure()) &&
        (b == Ok(true) ==> r.Ok? && ip == old(ip) + 1 && env.frames == Nest(old(env.frames))) &&
        (b == Ok(false) ==>
           match IfTarget(prog, indents, old(ip), old(ip) + 1)
           case Ok((t, isElse)) =>
             r.Ok? && ip == t + 1 && env.frames == (if isElse then Nest(old(env.frames)) else old(env.frames))
           case _ => r == Fail(SyntaxError))
      case ElseKw =>
        (|Top(old(env.frames))| == 0 ==> r == Crash) &&
        (|Top(old(env.frames))| > 0 ==>
           env.frames == Unnest(old(env.frames)) &&
           match EndIfTarget(prog, indents, old(ip), old(ip) + 1)
           case Ok(t) => r.Ok? && ip == t + 1
           case _ => r == Fail(SyntaxError))
      case EndIfKw =>
        (|Top(old(env.frames))| == 0 ==> r == Crash) &&
        (|Top(old(env.frames))| > 0 ==> r.Ok? && ip == old(ip) + 1 && env.frames == Unnest(old(env.frames)))
      case ReturnKw =>
        var v := old(ReturnOf(args));
        (!v.Ok? ==> r == v.PropagateFailure()) &&
        (v.Ok? ==> LeftBody(old(ip), old(returnStack), old(env.frames), old(terminate), v.value, r, slot, copy))
      case WhileKw =>
        var b := old(CondOf(args));
        (!b.Ok? ==> r == b.PropagateFailure()) &&
        (b == Ok(true) ==> r.Ok? && ip == old(ip) + 1 && env.frames == Nest(old(env.frames))) &&
        (b == Ok(false) ==>
           env.frames == old(env.frames) &&
           match ForwardScan(prog, indents, old(ip), EndWhileKw, old(ip) + 1, true)
           case Ok(t) => r.Ok? && ip == t + 1
           case _ => r == Fail(SyntaxError))
      case EndWhileKw =>
        (|Top(old(env.frames))| == 0 ==> r == Crash) &&
        (|Top(old(env.frames))| > 0 ==>
           env.frames == Unnest(old(env.frames)) &&
           match BackwardScan(prog, indents, old(ip), old(ip) - 1, true)
           case Ok(t) => r.Ok? && ip == t
           case _ => r == Fail(SyntaxError))
      case VarKw =>
        (|args| < 2 ==> r == Fail(SyntaxError)) &&
        (|args| >= 2 && |Top(old(env.frames))| == 0 ==> r == Crash) &&
        (|args| >= 2 && |Top(old(env.frames))| > 0 ==>
           r == DefineCheck(TypeNamed(args[0]), Texts(args[1..]), Innermost(Top(old(env.frames))).Keys)) &&
        (r.Ok? ==> ip == old(ip) + 1 && |cells| == |args| - 1 && |Top(old(env.frames))| > 0 &&
                   env.frames == DeclareAll(old(env.frames), Texts(args[1..]), cells) &&
                   forall j :: 0 <= j < |cells| ==> fresh(cells[j]))
      case LambdaKw =>
        var fi := FuncInfo(LambdaParams(args), old(ip) + 1, Top(old(env.frames)));
        funcs.table == old(funcs.table)[LambdaSlot := fi] &&
        (|Top(old(env.frames))| == 0 ==> r == Crash) &&
        (|Top(old(env.frames))| > 0 ==>
           slot != null && copy != null && fresh(copy) && copy.Contents() == Content(FUNC, FuncV(fi)) &&
           env.frames == Rebind(EnsureOutermost(old(env.frames), LambdaSlot, slot), LambdaSlot, copy) &&
           match ForwardScan(prog, indents, old(ip), EndLambdaKw, old(ip) + 1, true)
           case Ok(t) => r.Ok? && ip == t + 1
           case _ => r == Fail(SyntaxError))
      case EndLambdaKw =>
        LambdaEnded(old(ip), old(returnStack), old(env.frames), None, r, slot, copy)
      case _ => false
    }

    /** The cases of `_process_line` once the head is known: the rest of
        the line goes to the statement's handler, with the effect `Stepped`
        states. Only leaving `main`, by `endfunc` or `return`, ends the run. */
    method Dispatch(k: Keyword, args: seq<Token>) returns (r: Res<()>, ghost slot: Value?, ghost copy: Value?, ghost cells: seq<Value>)
      requires Valid() && !terminate && 0 <= ip < |prog| && IsStatement(k)
      modifies this, env, funcs, Cells, Dicts
      ensures Grew()
      ensures r.Ok? ==> Valid()
      ensures Stepped(k, args, r, slot, copy, cells)
      ensures terminate ==> r == Ok(()) && old(returnStack) == [] && returnStack == [] &&
                            k in {EndFuncKw, ReturnKw}
    {
      slot, copy, cells := null, null, [];
      match k
      case AssignKw => ghost var stored; r, stored := Assign(args);
      case FuncCallKw => r := FuncCall(args);
      case EndFuncKw => r, slot, copy := EndFunc(None);
      case IfKw => r := If(args);
      case ElseKw => r := Else();
      case EndIfKw => r := EndIf();
      case ReturnKw => r, slot, copy := Return(args);
      case WhileKw => r := While(args);
      case EndWhileKw => r := EndWhile();
      case VarKw => r, cells := DefineVar(args);
      case LambdaKw => r, slot, copy := Lambda(args);
      case EndLambdaKw => r, slot, copy := EndLambda(None);
    }

    /** `_process_line`: the line at `ip`, which must exist; a blank line is
        skipped, a line whose head names no statement raises, and any other
        line is handed to its statement. Once the run has ended the return
        stack is empty and only the frame of `main` is left. */
    method ProcessLine() returns (r: Res<()>, ghost slot: Value?, ghost copy: Value?, ghost cells: seq<Value>)
      requires Valid() && !terminate
      modifies this, env, funcs, Cells, Dicts
      ensures Grew()
      ensures r.Ok? ==> Valid()
      ensures !(0 <= old(ip) < |prog|) ==> r == Crash
      ensures 0 <= old(ip) < |prog| && prog[old(ip)] == [] ==>
                r == Ok(()) && ip == old(ip) + 1 && !terminate && env.frames == old(env.frames)
      ensures 0 <= old(ip) < |prog| && prog[old(ip)] != [] && StatementOf(prog[old(ip)][0]).None? ==> r == Crash
      ensures 0 <= old(ip) < |prog| && prog[old(ip)] != [] && StatementOf(prog[old(ip)][0]).Some? ==>
                Stepped(StatementOf(prog[old(ip)][0]).value, prog[old(ip)][1..], r, slot, copy, cells)
      ensures terminate ==>
                r == Ok(()) && old(returnStack) == [] && returnStack == [] && |env.frames| == 1 &&
                0 <= old(ip) < |prog| && prog[old(ip)] != [] &&
                StatementOf(prog[old(ip)][0]) in {Some(EndFuncKw), Some(ReturnKw)}
    {
      slot, copy, cells := null, null, [];
      if !(0 <= ip < |prog|) {
        r := Crash;
        return;
      }
      var line := prog[ip];
      if line == [] {
        Advance();
        r := Ok(());
        return;
      }
      var k := StatementOf(line[0]);
      if k.None? {
        r := Crash;
        return;
      }
      r, slot, copy, cells := Dispatch(k.value, line[1..]);
    }

    /** `run`'s loop: steps until the run ends, an error is raised, or
        `fuel` steps have been taken. A run that finishes has left `main`
        with no caller waiting and only `main`'s frame. */
    method RunLoop(fuel: nat) returns (o: Outcome)
      requires Valid() && !terminate
      modifies this, env, funcs, Cells, Dicts
      ensures o.Finished? <==> terminate
      ensures o.Finished? ==> Valid() && returnStack == [] && |env.frames| == 1
      ensures o == OutOfFuel ==> Valid()
      ensures fuel == 0 ==> o == OutOfFuel
    {
      var n := 0;
      while !terminate
        invariant 0 <= n <= fuel && Valid()
        invariant terminate ==> returnStack == [] && |env.frames| == 1
        invariant forall c :: c in Cells ==> c in old(Cells) || fresh(c)
        invariant forall d :: d in Dicts ==> d in old(Dicts) || fresh(d)
        invariant fuel == 0 ==> !terminate
        decreases fuel - n
      {
        if n == fuel {
          return OutOfFuel;
        }
        var r;
        ghost var slot, copy, cells;
        r, slot, copy, cells := ProcessLine();
        if r.Fail? {
          return Raised(r.err);
        } else if r.Crash? {
          return Crashed;
        }
        n := n + 1;
      }
      o := Finished;
    }
  }
}
