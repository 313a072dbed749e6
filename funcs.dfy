/** The function table the interpreter consults through `FunctionManager`.
    The table is built by header discovery before the run; during the run the
    interpreter only looks names up, aliases a name to an existing function
    value, and registers the lambda most recently reached. */
module Functions {
  import opened Syntax
  import opened Values

  /** The reserved name of the lambda most recently reached. */
  const LambdaSlot: string := "resultf"

  /** Formal parameters of a lambda header `lambda p1:t1 ... pn:tn rt`: the
      typed parameter tokens before the return type, in order. */
  function LambdaParams(args: seq<Token>): (ps: seq<(string, TypeName)>)
    ensures |ps| <= |args|
    ensures forall p :: p in ps ==> 1 < |args| && Param(p.0, p.1) in args[..|args| - 1]
  {
    if |args| <= 1 then []
    else
      var rest := LambdaParams(args[1..]);
      assert args[..|args| - 1] == [args[0]] + args[1..][..|args| - 2];
      if args[0].Param? then [(args[0].pname, args[0].pty)] + rest else rest
  }

  /** Every typed parameter before the return type is a formal. */
  lemma {:induction false} LambdaParamsComplete(args: seq<Token>)
    ensures forall i :: 0 <= i < |args| - 1 && args[i].Param? ==> (args[i].pname, args[i].pty) in LambdaParams(args)
    decreases |args|
  {
    if |args| > 1 {
      var tail := args[1..];
      LambdaParamsComplete(tail);
      forall i | 0 <= i < |args| - 1 && args[i].Param?
        ensures (args[i].pname, args[i].pty) in LambdaParams(args)
      {
        if i > 0 {
          assert tail[i - 1] == args[i];
        }
      }
    }
  }

  /** When every token before the return type is a typed parameter, the
      formals are exactly those parameters, in order. */
  lemma {:induction false} LambdaParamsInOrder(args: seq<Token>)
    requires 0 < |args| && forall i :: 0 <= i < |args| - 1 ==> args[i].Param?
    ensures |LambdaParams(args)| == |args| - 1
    ensures forall k :: 0 <= k < |args| - 1 ==> LambdaParams(args)[k] == (args[k].pname, args[k].pty)
    decreases |args|
  {
    if |args| > 1 {
      var tail := args[1..];
      assert forall i :: 0 <= i < |tail| ==> tail[i] == args[i + 1];
      LambdaParamsInOrder(tail);
      assert LambdaParams(args) == [(args[0].pname, args[0].pty)] + LambdaParams(tail);
    }
  }

  lemma LambdaParamsExample(x: string, y: string)
    ensures LambdaParams([Param(x, IntT), Param(y, RefIntT), Ty(BoolT)]) == [(x, IntT), (y, RefIntT)]
  {
    var args := [Param(x, IntT), Param(y, RefIntT), Ty(BoolT)];
    var tail := [Param(y, RefIntT), Ty(BoolT)];
    assert args[1..] == tail && tail[1..] == [Ty(BoolT)];
    assert LambdaParams(tail) == [(y, RefIntT)] + LambdaParams([Ty(BoolT)]);
  }

  /** Every cell a function value of the table captures belongs to `cells`. */
  ghost predicate TableIn(table: map<string, FuncInfo>, cells: set<Value>)
  {
    forall n :: n in table ==> ScopesIn(table[n].captures, cells)
  }

  lemma TableInMono(table: map<string, FuncInfo>, cells: set<Value>, more: set<Value>)
    requires TableIn(table, cells) && cells <= more
    ensures TableIn(table, more)
  {
    forall n | n in table {
      ScopesInMono(table[n].captures, cells, more);
    }
  }

  /** Binding a name to a function value whose captures lie in `cells`
      keeps the table inside `cells`. */
  lemma TableInUpdate(table: map<string, FuncInfo>, cells: set<Value>, name: string, info: FuncInfo)
    requires TableIn(table, cells) && ScopesIn(info.captures, cells)
    ensures TableIn(table[name := info], cells)
  {
  }

  class FuncManager {
    var table: map<string, FuncInfo>
    /** Declared return type of the function or lambda enclosing each
        statement position, as header discovery found it. */
    const returnTypes: map<int, TypeName>

    constructor (table: map<string, FuncInfo>, returnTypes: map<int, TypeName>)
      ensures this.table == table && this.returnTypes == returnTypes
    {
      this.table := table;
      this.returnTypes := returnTypes;
    }

    /** `get_function_info`. */
    function Get(name: string): Option<FuncInfo>
      reads this
    {
      if name in table then Some(table[name]) else None
    }

    /** `get_return_type_for_enclosing_function`; `None` for a position that
        no header covers. */
    function ReturnTypeAt(ip: int): Option<TypeName>
    {
      if ip in returnTypes then Some(returnTypes[ip]) else None
    }

    /** `create_function`: make `name` denote the function value `info`. */
    method CreateFunction(name: string, info: FuncInfo)
      modifies this
      ensures table == old(table)[name := info]
    {
      table := table[name := info];
    }

    /** `set_lambda`: the lambda whose header is at `ip` takes the reserved
        slot; its body starts on the next line and it keeps `captures`. */
    method SetLambda(args: seq<Token>, ip: int, captures: seq<Scope>)
      modifies this
      ensures table == old(table)[LambdaSlot := FuncInfo(LambdaParams(args), ip + 1, captures)]
    {
      table := table[LambdaSlot := FuncInfo(LambdaParams(args), ip + 1, captures)];
    }
  }
}
