/** Runtime values of the interpreter: the type tags, the mutable value
    cells, the shared object dictionaries, function metadata, and the fixed
    tables built by `_setup_default_values`. */
module Values {
  import opened Syntax

  /** The three diagnosed error categories. */
  datatype ErrorKind = NameError | TypeError | SyntaxError

  /** Outcome of an interpreter step. `Fail` is a diagnosed error that halts the
      run; `Crash` is a host-language exception that the interpreter does not
      diagnose (an index out of range, a pop from an empty list, a missing
      table key, a failed integer conversion, a division by zero). */
  datatype Res<+T> = Ok(value: T) | Fail(err: ErrorKind) | Crash
  {
    predicate IsFailure() { !Ok? }

    function PropagateFailure<U>(): Res<U>
      requires !Ok?
    {
      if Fail? then Fail(err) else Crash
    }

    function Extract(): T
      requires Ok?
    {
      value
    }
  }

  datatype Type = INT | BOOL | STRING | VOID | FUNC | OBJECT

  /** Metadata of a function or lambda: its formal parameters, the first
      statement of its body and, for a lambda, the scopes of the frame it was
      created in (the names and the very cells visible there). */
  datatype FuncInfo = FuncInfo(params: seq<(string, TypeName)>, startIp: int,
                               captures: seq<Scope>)

  /** One block scope: names bound to value cells. */
  type Scope = map<string, Value>

  /** The untyped payload of a value cell. An object payload is a reference to
      a dictionary shared by every cell that holds it. */
  datatype Payload =
    | IntV(i: int)
    | BoolV(b: bool)
    | StrV(s: string)
    | NoneV
    | FuncV(f: FuncInfo)
    | ObjV(d: Dict)

  /** The tag that belongs with a payload. */
  function TypeOf(p: Payload): Type
  {
    match p
    case IntV(_) => INT
    case BoolV(_) => BOOL
    case StrV(_) => STRING
    case NoneV => VOID
    case FuncV(_) => FUNC
    case ObjV(_) => OBJECT
  }

  /** What a cell holds at one moment. */
  datatype Content = Content(t: Type, v: Payload)

  predicate Tagged(c: Content)
  {
    c.t == TypeOf(c.v)
  }

  /** A mutable value cell (`Value`). Assignment changes a cell in place, so
      every holder of the same cell sees the change. */
  class Value {
    var t: Type
    var v: Payload

    constructor (t: Type, v: Payload)
      ensures this.t == t && this.v == v
    {
      this.t := t;
      this.v := v;
    }

    function Contents(): Content
      reads this
    {
      Content(t, v)
    }

    /** `Value.set`: take over the tag and payload of another cell. */
    method Set(other: Value)
      modifies this
      ensures Contents() == old(other.Contents())
    {
      t := other.t;
      v := other.v;
    }
  }

  /** The field dictionary of an object value. */
  class Dict {
    var fields: map<string, Value>

    constructor (fields: map<string, Value>)
      ensures this.fields == fields
    {
      this.fields := fields;
    }
  }

  /** The metadata a default `func` value carries: no parameters, start -1. */
  const DefaultFuncInfo: FuncInfo := FuncInfo([], -1, [])

  /** Type keywords that `type_to_default` has an entry for. */
  predicate HasDefault(tn: TypeName)
  {
    tn in {IntT, StringT, BoolT, VoidT, FuncT, ObjectT}
  }

  /** `type_to_default`: the default value of a type keyword. The object
      default holds one dictionary, `objectDict`, that the interpreter creates
      once; shallow copies of the default share it. */
  function DefaultFor(tn: TypeName, objectDict: Dict): (r: Option<Content>)
    ensures r.Some? <==> HasDefault(tn)
    ensures r.Some? ==> Tagged(r.value)
    ensures r.Some? && r.value.t == VOID <==> tn == VoidT
    ensures r.Some? && r.value.t == OBJECT ==> r.value.v == ObjV(objectDict)
  {
    match tn
    case IntT => Some(Content(INT, IntV(0)))
    case StringT => Some(Content(STRING, StrV("")))
    case BoolT => Some(Content(BOOL, BoolV(false)))
    case VoidT => Some(Content(VOID, NoneV))
    case FuncT => Some(Content(FUNC, FuncV(DefaultFuncInfo)))
    case ObjectT => Some(Content(OBJECT, ObjV(objectDict)))
    case _ => None
  }

  /** `compatible_types`: the value type a parameter keyword admits. */
  function CompatibleType(tn: TypeName): (r: Option<Type>)
    ensures r.None? <==> tn == VoidT
    ensures r != Some(VOID)
  {
    match tn
    case IntT => Some(INT)
    case RefIntT => Some(INT)
    case StringT => Some(STRING)
    case RefStringT => Some(STRING)
    case BoolT => Some(BOOL)
    case RefBoolT => Some(BOOL)
    case FuncT => Some(FUNC)
    case ObjectT => Some(OBJECT)
    case VoidT => None
  }

  /** `reference_types`: parameters bound to the caller's own cell. */
  predicate IsReference(tn: TypeName)
  {
    tn in {RefIntT, RefStringT, RefBoolT, ObjectT}
  }

  /** `type_to_result`: the suffix of the reserved result variable. */
  function ResultSuffix(t: Type): Option<string>
  {
    match t
    case INT => Some("i")
    case STRING => Some("s")
    case BOOL => Some("b")
    case FUNC => Some("f")
    case OBJECT => Some("o")
    case VOID => None
  }

  /** The reserved variable a value of type `t` is returned through. */
  function ResultName(t: Type): (r: Option<string>)
    ensures r.None? <==> t == VOID
    ensures r.Some? ==> |r.value| == 7 && r.value[..6] == "result"
  {
    match ResultSuffix(t)
    case Some(s) => Some("result" + s)
    case None => None
  }

  /** Results of different types never share a variable. */
  lemma ResultNamesDistinct(a: Type, b: Type)
    requires a != b && ResultName(a).Some? && ResultName(b).Some?
    ensures ResultName(a) != ResultName(b)
  {
    var x, y := ResultName(a).value, ResultName(b).value;
    assert x[6] == ResultSuffix(a).value[0];
    assert y[6] == ResultSuffix(b).value[0];
  }

  /** The spellings of the result variables. */
  lemma ResultNameSpellings()
    ensures ResultName(INT) == Some("resulti") && ResultName(STRING) == Some("results")
    ensures ResultName(BOOL) == Some("resultb") && ResultName(FUNC) == Some("resultf")
    ensures ResultName(OBJECT) == Some("resulto")
  {
    assert "result" + "i" == "resulti" && "result" + "s" == "results";
    assert "result" + "b" == "resultb" && "result" + "f" == "resultf";
    assert "result" + "o" == "resulto";
  }

  /** Every declarable non-void type's default is a value the same keyword
      admits as a parameter. */
  lemma DefaultIsCompatible(tn: TypeName, d: Dict)
    requires HasDefault(tn) && tn != VoidT
    ensures CompatibleType(tn) == Some(DefaultFor(tn, d).value.t)
  {
  }

  // ---------------------------------------------------------------------
  // Closure of the heap: every cell reachable from the interpreter state
  // lies in a known set of cells, and its payload only refers to known
  // cells and dictionaries.

  ghost predicate ScopesIn(scopes: seq<Scope>, cells: set<Value>)
  {
    forall j :: 0 <= j < |scopes| ==> scopes[j].Values <= cells
  }

  ghost predicate PayloadIn(p: Payload, cells: set<Value>, dicts: set<Dict>)
  {
    match p
    case ObjV(d) => d in dicts
    case FuncV(f) => ScopesIn(f.captures, cells)
    case _ => true
  }

  /** A cell is well tagged and refers only into `cells` and `dicts`. */
  ghost predicate CellIn(c: Value, cells: set<Value>, dicts: set<Dict>)
    reads c
  {
    Tagged(c.Contents()) && PayloadIn(c.v, cells, dicts)
  }

  /** Every field cell of a dictionary belongs to `cells`. */
  ghost predicate DictIn(d: Dict, cells: set<Value>)
    reads d
  {
    d.fields.Values <= cells
  }

  /** The heap `cells` and `dicts` refers only to itself. The facts about a
      member are exposed only where `CellIn` or `DictIn` is mentioned. */
  ghost predicate Closed(cells: set<Value>, dicts: set<Dict>)
    reads cells, dicts
  {
    (forall c {:trigger CellIn(c, cells, dicts)} :: c in cells ==> CellIn(c, cells, dicts)) &&
    (forall d {:trigger DictIn(d, cells)} :: d in dicts ==> DictIn(d, cells))
  }

  lemma ScopesInMono(scopes: seq<Scope>, cells: set<Value>, more: set<Value>)
    requires ScopesIn(scopes, cells) && cells <= more
    ensures ScopesIn(scopes, more)
  {
  }

  lemma PayloadInMono(p: Payload, cells: set<Value>, dicts: set<Dict>, moreCells: set<Value>, moreDicts: set<Dict>)
    requires PayloadIn(p, cells, dicts) && cells <= moreCells && dicts <= moreDicts
    ensures PayloadIn(p, moreCells, moreDicts)
  {
  }
}
