/** Tokens of the tokenized program. Statement keywords, type names and
    typed lambda parameters are symbolic; everything else (names, literals,
    operators) is a word carrying its text. */
module Syntax {

  datatype Option<+T> = None | Some(value: T)

  /** Statement head keywords and the boolean literals. */
  datatype Keyword =
    | AssignKw | FuncCallKw | EndFuncKw | IfKw | ElseKw | EndIfKw | ReturnKw
    | WhileKw | EndWhileKw | VarKw | LambdaKw | EndLambdaKw | FuncKw
    | PrintKw | InputKw | StrToIntKw | TrueKw | FalseKw

  /** Type keywords used in declarations, parameter lists and return types. */
  datatype TypeName =
    | IntT | StringT | BoolT | VoidT | FuncT | ObjectT | RefIntT | RefStringT | RefBoolT

  datatype Token =
    | Kw(k: Keyword)
    | Ty(ty: TypeName)
    | Param(pname: string, pty: TypeName)   // `name:type` in a lambda header
    | Word(w: string)

  /** The spelling of a keyword, used only when a keyword token stands where
      a name is expected. */
  function KeywordText(k: Keyword): string
  {
    match k
    case AssignKw => "assign"
    case FuncCallKw => "funccall"
    case EndFuncKw => "endfunc"
    case IfKw => "if"
    case ElseKw => "else"
    case EndIfKw => "endif"
    case ReturnKw => "return"
    case WhileKw => "while"
    case EndWhileKw => "endwhile"
    case VarKw => "var"
    case LambdaKw => "lambda"
    case EndLambdaKw => "endlambda"
    case FuncKw => "func"
    case PrintKw => "print"
    case InputKw => "input"
    case StrToIntKw => "strtoint"
    case TrueKw => "true"
    case FalseKw => "false"
  }

  function TypeText(t: TypeName): string
  {
    match t
    case IntT => "int"
    case StringT => "string"
    case BoolT => "bool"
    case VoidT => "void"
    case FuncT => "func"
    case ObjectT => "object"
    case RefIntT => "refint"
    case RefStringT => "refstring"
    case RefBoolT => "refbool"
  }

  /** The text a token denotes when it is used as a name. */
  function TokenText(t: Token): string
  {
    match t
    case Kw(k) => KeywordText(k)
    case Ty(ty) => TypeText(ty)
    case Param(n, ty) => n + ":" + TypeText(ty)
    case Word(w) => w
  }

  /** A token spells keyword `k`. Tokens are compared by their text, as
      the interpreter compares token strings. */
  predicate IsKw(t: Token, k: Keyword)
  {
    TokenText(t) == KeywordText(k)
  }

  /** The head of a non-blank statement. */
  predicate HeadIs(line: seq<Token>, k: Keyword)
  {
    |line| > 0 && IsKw(line[0], k)
  }

  /** The type keyword a token spells, if any. */
  function TypeNamed(t: Token): (r: Option<TypeName>)
    ensures r.Some? ==> TypeText(r.value) == TokenText(t)
    ensures t.Ty? ==> r == Some(t.ty)
  {
    if t.Ty? then Some(t.ty) else
    var s := TokenText(t);
    if s == "int" then Some(IntT)
    else if s == "string" then Some(StringT)
    else if s == "bool" then Some(BoolT)
    else if s == "void" then Some(VoidT)
    else if s == "func" then Some(FuncT)
    else if s == "object" then Some(ObjectT)
    else if s == "refint" then Some(RefIntT)
    else if s == "refstring" then Some(RefStringT)
    else if s == "refbool" then Some(RefBoolT)
    else None
  }

  /** The statement keyword a token spells, if any. */
  function KeywordNamed(t: Token): (r: Option<Keyword>)
    ensures r.Some? ==> IsKw(t, r.value)
    ensures t.Kw? ==> r == Some(t.k)
  {
    if t.Kw? then Some(t.k) else
    var s := TokenText(t);
    if s == "assign" then Some(AssignKw)
    else if s == "funccall" then Some(FuncCallKw)
    else if s == "endfunc" then Some(EndFuncKw)
    else if s == "if" then Some(IfKw)
    else if s == "else" then Some(ElseKw)
    else if s == "endif" then Some(EndIfKw)
    else if s == "return" then Some(ReturnKw)
    else if s == "while" then Some(WhileKw)
    else if s == "endwhile" then Some(EndWhileKw)
    else LaterKeywordNamed(t)
  }

  /** The second half of the keyword table, split off to keep each
      comparison chain short. */
  function LaterKeywordNamed(t: Token): (r: Option<Keyword>)
    ensures r.Some? ==> IsKw(t, r.value)
  {
    var s := TokenText(t);
    if s == "var" then Some(VarKw)
    else if s == "lambda" then Some(LambdaKw)
    else if s == "endlambda" then Some(EndLambdaKw)
    else if s == "func" then Some(FuncKw)
    else if s == "print" then Some(PrintKw)
    else if s == "input" then Some(InputKw)
    else if s == "strtoint" then Some(StrToIntKw)
    else if s == "true" then Some(TrueKw)
    else if s == "false" then Some(FalseKw)
    else None
  }

  /** Keyword spellings are distinct, so a token spells at most one keyword,
      and `KeywordNamed` finds it. */
  lemma KeywordNamedComplete(t: Token, k: Keyword)
    requires IsKw(t, k)
    ensures KeywordNamed(t) == Some(k)
  {
    match k
    case AssignKw => case FuncCallKw => case EndFuncKw => case IfKw =>
    case ElseKw => case EndIfKw => case ReturnKw => case WhileKw =>
    case EndWhileKw => case VarKw => case LambdaKw => case EndLambdaKw =>
    case FuncKw => case PrintKw => case InputKw => case StrToIntKw =>
    case TrueKw => case FalseKw =>
  }
}
