/** The type printer of mock/fileWriter.go: `typeString` renders a parsed Go
    type expression back to source text, `typeFieldList` renders a parameter
    or result list of a function type. Every construct the printer cannot
    handle makes it panic; here that is a `Failure` carrying the reason. */
module TypePrinter {
  import opened GoStrings

  datatype Result<+T, +E> = Success(value: T) | Failure(error: E)

  /** Direction of a channel type (ast.SEND, ast.RECV, or both bits). */
  datatype ChanDir = Send | Recv | Both

  /** The `Len` of an `ast.ArrayType`: absent for a slice, a basic literal,
      or any other (computed) expression. */
  datatype ArrayLen = NoLen | LitLen(literal: string) | ExprLen

  /** The type-expression node kinds of go/ast that the printer dispatches on;
      `Other` stands for every remaining node kind (struct types, parenthesised
      types, index expressions, ...). */
  datatype TypeExpr =
    | Ident(name: string)
    | Star(x: TypeExpr)
    | Array(len: ArrayLen, elt: TypeExpr)
    | Selector(x: TypeExpr, sel: string)
    | Interface(methods: seq<Field>)
    | MapType(key: TypeExpr, value: TypeExpr)
    | Ellipsis(elt: TypeExpr)
    | FuncType(params: FieldList, results: FieldList)
    | Chan(dir: ChanDir, value: TypeExpr)
    | Other

  /** An `ast.Field`: zero or more names sharing one type. */
  datatype Field = Field(names: seq<string>, typ: TypeExpr)

  /** A possibly nil `*ast.FieldList`. */
  datatype FieldList = NilList | List(fields: seq<Field>)

  /** Why `typeString` panics. */
  datatype PrintError =
    | NonLiteralArrayLength
    | StrangeSelector
    | InterfaceWithMethods
    | UnhandledType

  /** Number of entries a field contributes to a rendered list: one per name,
      and one for an unnamed field. */
  function Copies(f: Field): nat
  {
    if |f.names| == 0 then 1 else |f.names|
  }

  /** Number of entries a list of fields renders to. */
  function Arity(fs: seq<Field>): nat
  {
    if |fs| == 0 then 0 else Copies(fs[0]) + Arity(fs[1..])
  }

  /** n copies of x. */
  function Repeat<T>(x: T, n: nat): (r: seq<T>)
    ensures |r| == n
    ensures forall k :: 0 <= k < n ==> r[k] == x
  {
    if n == 0 then [] else [x] + Repeat(x, n - 1)
  }

  /** typeString: the source text of a type expression. It panics on
      exactly the unsupported constructs and renders every other type. */
  function TypeString(t: TypeExpr): (r: Result<string, PrintError>)
    ensures r.Success? <==> Printable(t)
    decreases t, 1
  {
    match t
    case Ident(name) => Success(name)
    case Star(x) =>
      (match TypeString(x)
       case Success(s) => Success("*" + s)
       case Failure(e) => Failure(e))
    case Array(len, elt) =>
      if len.ExprLen? then Failure(NonLiteralArrayLength)
      else
        var prefix := match len
          case NoLen => "[]"
          case LitLen(lit) => "[" + lit + "]"
          case ExprLen => "";
        (match TypeString(elt)
         case Success(s) => Success(prefix + s)
         case Failure(e) => Failure(e))
    case Selector(x, sel) =>
      if x.Ident? then Success(x.name + "." + sel) else Failure(StrangeSelector)
    case Interface(methods) =>
      if |methods| == 0 then Success("interface{}") else Failure(InterfaceWithMethods)
    case MapType(key, value) =>
      (match (TypeString(key), TypeString(value))
       case (Success(k), Success(v)) => Success("map[" + k + "]" + v)
       case (Failure(e), _) => Failure(e)
       case (_, Failure(e)) => Failure(e))
    case Ellipsis(elt) =>
      (match TypeString(elt)
       case Success(s) => Success("..." + s)
       case Failure(e) => Failure(e))
    case FuncType(params, results) =>
      (match (TypeFieldList(params, false), TypeFieldList(results, true))
       case (Success(p), Success(r)) => Success("func(" + p + ") " + r)
       case (Failure(e), _) => Failure(e)
       case (_, Failure(e)) => Failure(e))
    case Chan(dir, value) =>
      var prefix := match dir
        case Send => "chan<- "
        case Recv => "<-chan "
        case Both => "chan ";
      (match TypeString(value)
       case Success(s) => Success(prefix + s)
       case Failure(e) => Failure(e))
    case Other => Failure(UnhandledType)
  }

  /** The entries of a field list, in order: each field's type, once per name. */
  function FieldTypes(fs: seq<Field>): (r: Result<seq<string>, PrintError>)
    ensures r.Success? <==> FieldsPrintable(fs)
    ensures r.Success? ==> |r.value| == Arity(fs)
    decreases fs, 0
  {
    if |fs| == 0 then Success([])
    else
      var f := fs[0];
      assert f.typ < f;
      match (TypeString(f.typ), FieldTypes(fs[1..]))
      case (Success(s), Success(rest)) => Success(Repeat(s, Copies(f)) + rest)
      case (Failure(e), _) => Failure(e)
      case (_, Failure(e)) => Failure(e)
  }

  /** typeFieldList: a nil list renders as "", otherwise the entries joined
      by ", "; with `optParen` a single entry stays bare and any other count
      is parenthesised. It fails exactly when some field's type does. */
  function TypeFieldList(fl: FieldList, optParen: bool): (r: Result<string, PrintError>)
    ensures r.Success? <==> ListPrintable(fl)
    decreases fl, 2
  {
    match fl
    case NilList => Success("")
    case List(fs) =>
      match FieldTypes(fs)
      case Failure(e) => Failure(e)
      case Success(list) =>
        if optParen && |list| == 1 then Success(list[0])
        else if optParen then Success("(" + Join(list, ", ") + ")")
        else Success(Join(list, ", "))
  }

  /** The constructs typeString accepts, stated without rendering anything:
      an array length that is absent or a literal, a selector on a plain
      identifier, an interface without methods, none of the other node kinds. */
  predicate Printable(t: TypeExpr)
    decreases t, 1
  {
    match t
    case Ident(_) => true
    case Star(x) => Printable(x)
    case Array(len, elt) => !len.ExprLen? && Printable(elt)
    case Selector(x, _) => x.Ident?
    case Interface(methods) => |methods| == 0
    case MapType(key, value) => Printable(key) && Printable(value)
    case Ellipsis(elt) => Printable(elt)
    case FuncType(params, results) => ListPrintable(params) && ListPrintable(results)
    case Chan(_, value) => Printable(value)
    case Other => false
  }

  predicate FieldsPrintable(fs: seq<Field>)
    decreases fs, 0
  {
    if |fs| == 0 then true
    else
      var f := fs[0];
      assert f.typ < f;
      Printable(f.typ) && FieldsPrintable(fs[1..])
  }

  predicate ListPrintable(fl: FieldList)
    decreases fl, 2
  {
    fl.NilList? || FieldsPrintable(fl.fields)
  }
}
