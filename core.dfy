/** The typed abstract syntax tree shared by the analyzer, the optimizer and the
    generator: one constructor per node kind, the semantic type each node
    constructor assigns, the symbol-table entities and the standard library. */
module Core {

  /** The semantic types. `Unset` stands for a `type` property that is missing,
      which happens when a node is built over a value that is not itself a node
      (an array, `undefined`); it prints as "undefined". */
  datatype Type = Number | String | Char | Function | Any | Void | Unset

  /** The text of a type as it appears in diagnostics. */
  function TypeName(t: Type): string {
    match t
    case Number => "number"
    case String => "string"
    case Char => "char"
    case Function => "function"
    case Any => "any"
    case Void => "void"
    case Unset => "undefined"
  }

  /** AST nodes. Operators are kept as their source text; an absent operator is
      the empty string (`undefined` and `""` are both falsy where the compiler
      tests an operator). Slots that hold a value which is not a node use the
      first four constructors: `Absent` for `undefined`/`null`, `List` for an
      array (the result of an optional or repeated grammar element), `Raw` for a
      bare string, and `Callee` for the `{name, arg}` record a step call holds.
      Default parameter values are those of the source's constructors; a
      constructor called with fewer arguments leaves the rest `Absent`. */
  datatype Node =
    | Absent
    | List(items: seq<Node>)
    | Raw(text: string)
    | Callee(name: string, argName: string)
    | Program(globalRange: Node, statements: seq<Node>)
    | FuncDef(name: string, param: string, body: Node, additionalDefs: seq<Node> := [])
    | FuncCall(name: string, arg: Node)
    | FunctionGroup(expr: Node)
    | Expr(condExpr: Node, rest: seq<Node> := [])
    | SliceExpr(expressions: seq<Node>)
    | CondExpr(leftCond: Node, op: string := "", rightCond: Node := Absent,
               thenBranch: Node := Absent, elseBranch: Node := Absent)
    | BitwiseExpr(left: Node, op: string := "", right: Node := Absent)
    | ShiftExpr(left: Node, op: string := "", right: Node := Absent)
    | AddExpr(left: Node, op: string := "", right: Node := Absent)
    | MulExpr(left: Node, op: string := "", right: Node := Absent)
    | Factor(base: Node, op: string := "", exponent: Node := Absent)
    | Primary(inner: Node)
    | PrintStmt(expr: Node)
    | StepCall(expr: Node, stepValue: Node)
    | InputStmt(prompt: Node)
    | TimeCall(funcCall: Node, timeValue: Node)
    | GlobalRange(range: Node, timestep: Node := Absent)
    | NumRange(start: Node, end: Node)
    | CharRange(start: Node, end: Node)
    | Timestep(amount: Node)
    | Num(value: int)
    | StringLiteral(text: string)
    | CharLiteral(text: string)
    | Id(name: string)

  /** The `type` each node constructor assigns. */
  function TypeOf(n: Node): Type {
    match n
    case Absent => Unset
    case List(_) => Unset
    case Raw(_) => Unset
    case Callee(_, _) => Unset
    case Program(_, _) => Void
    case FuncDef(_, _, _, _) => Any
    case FuncCall(_, _) => Any
    case FunctionGroup(e) => TypeOf(e)
    case Expr(c, _) => TypeOf(c)
    // core.js defines no constructor for slices, so no type is ever assigned
    case SliceExpr(_) => Unset
    case CondExpr(_, _, _, t, _) => if TypeOf(t) == Unset then Any else TypeOf(t)
    case BitwiseExpr(l, _, _) => TypeOf(l)
    case ShiftExpr(l, _, _) => TypeOf(l)
    case AddExpr(l, _, _) => TypeOf(l)
    case MulExpr(l, _, _) => TypeOf(l)
    case Factor(b, _, x) => if TypeOf(b) == Unset then TypeOf(x) else TypeOf(b)
    case Primary(v) => TypeOf(v)
    case PrintStmt(_) => Void
    case StepCall(_, _) => Any
    case InputStmt(_) => Any
    case TimeCall(_, _) => Void
    case GlobalRange(_, _) => Void
    case NumRange(_, _) => Void
    case CharRange(_, _) => Void
    case Timestep(_) => Void
    case Num(_) => Number
    case StringLiteral(_) => String
    case CharLiteral(_) => Char
    case Id(_) => Any
  }

  /** The binary expression constructors take the type of their left operand,
      whatever the operator and the right operand. */
  lemma BinaryTakesLeftType(l: Node, op: string, r: Node)
    ensures TypeOf(BitwiseExpr(l, op, r)) == TypeOf(l)
    ensures TypeOf(ShiftExpr(l, op, r)) == TypeOf(l)
    ensures TypeOf(AddExpr(l, op, r)) == TypeOf(l)
    ensures TypeOf(MulExpr(l, op, r)) == TypeOf(l)
  {
  }

  /** A conditional has the type of its then-branch; when the then-branch is
      missing or has no type, as in the single-operand form, it has type any
      whatever its comparison. */
  lemma CondExprType(c: Node, op: string, r: Node, t: Node, e: Node)
    ensures TypeOf(t) != Unset ==> TypeOf(CondExpr(c, op, r, t, e)) == TypeOf(t)
    ensures TypeOf(t) == Unset ==> TypeOf(CondExpr(c, op, r, t, e)) == Any
    ensures TypeOf(CondExpr(c)) == Any
  {
  }

  /** A factor has its base's type, or its exponent's when there is no base. */
  lemma FactorType(b: Node, op: string, x: Node)
    ensures b != Absent && TypeOf(b) != Unset ==> TypeOf(Factor(b, op, x)) == TypeOf(b)
    ensures TypeOf(Factor(Absent, op, x)) == TypeOf(x)
  {
  }

  /** Literals and identifiers have fixed types. */
  lemma LeafTypes(v: int, s: string, name: string)
    ensures TypeOf(Num(v)) == Number
    ensures TypeOf(StringLiteral(s)) == String
    ensures TypeOf(CharLiteral(s)) == Char
    ensures TypeOf(Id(name)) == Any
  {
  }

  /** Program, print and time-call nodes are void. */
  lemma StatementTypes(a: Node, b: Node, ss: seq<Node>)
    ensures TypeOf(Program(a, ss)) == Void
    ensures TypeOf(PrintStmt(a)) == Void
    ensures TypeOf(TimeCall(a, b)) == Void
  {
  }

  /** Range nodes are void. */
  lemma RangeTypes(a: Node, b: Node)
    ensures TypeOf(GlobalRange(a, b)) == Void
    ensures TypeOf(NumRange(a, b)) == Void
    ensures TypeOf(CharRange(a, b)) == Void
    ensures TypeOf(Timestep(a)) == Void
  {
  }

  /** Definitions, calls and input statements have type any. */
  lemma CallTypes(a: Node, b: Node, ss: seq<Node>, name: string, param: string)
    ensures TypeOf(FuncDef(name, param, a, ss)) == Any && TypeOf(FuncCall(name, a)) == Any
    ensures TypeOf(StepCall(a, b)) == Any && TypeOf(InputStmt(a)) == Any
  {
  }

  /** The operand whose type an arithmetic node inherits: its left operand, its
      base (its exponent when the base has no type), or its wrapped value. */
  function TypeSource(n: Node): Node
  {
    match n
    case BitwiseExpr(l, _, _) => TypeSource(l)
    case ShiftExpr(l, _, _) => TypeSource(l)
    case AddExpr(l, _, _) => TypeSource(l)
    case MulExpr(l, _, _) => TypeSource(l)
    case Factor(b, _, x) => if TypeOf(b) == Unset then TypeSource(x) else TypeSource(b)
    case Primary(v) => TypeSource(v)
    case _ => n
  }

  /** However deep an arithmetic expression, its type is that of the node at the
      end of its chain of left operands: the types flow up from the leftmost
      operand and are never combined with the right-hand operands. */
  lemma {:induction false} ArithmeticTypeFromLeftmost(n: Node)
    ensures TypeOf(n) == TypeOf(TypeSource(n))
    ensures !(TypeSource(n).BitwiseExpr? || TypeSource(n).ShiftExpr? || TypeSource(n).AddExpr?
              || TypeSource(n).MulExpr? || TypeSource(n).Factor? || TypeSource(n).Primary?)
  {
    match n
    case BitwiseExpr(l, _, _) => ArithmeticTypeFromLeftmost(l);
    case ShiftExpr(l, _, _) => ArithmeticTypeFromLeftmost(l);
    case AddExpr(l, _, _) => ArithmeticTypeFromLeftmost(l);
    case MulExpr(l, _, _) => ArithmeticTypeFromLeftmost(l);
    case Factor(b, _, x) =>
      if TypeOf(b) == Unset { ArithmeticTypeFromLeftmost(x); } else { ArithmeticTypeFromLeftmost(b); }
    case Primary(v) => ArithmeticTypeFromLeftmost(v);
    case _ =>
  }

  /** Symbol-table values. */
  datatype Entity =
    | TypeBinding(t: Type)       // one of the six type names bound as a plain string
    | Intrinsic(name: string)    // IntrinsicFunction
    | FunctionEntity(name: string)
    | MutableRange(name: string) // a function's parameter
    | Declared(def: Node)        // the analysed funcDef node itself

  function EntityType(e: Entity): Type {
    match e
    case TypeBinding(_) => Unset
    case Intrinsic(_) => Function
    case FunctionEntity(_) => Function
    case MutableRange(_) => Number
    case Declared(d) => TypeOf(d)
  }

  /** The bindings the root scope starts with. */
  const StandardLibrary: map<string, Entity> := map[
    "number" := TypeBinding(Number),
    "string" := TypeBinding(String),
    "char" := TypeBinding(Char),
    "function" := TypeBinding(Function),
    "any" := TypeBinding(Any),
    "void" := TypeBinding(Void),
    "print" := Intrinsic("print"),
    "input" := Intrinsic("input"),
    "step" := Intrinsic("step")
  ]

  /** The standard library binds exactly the six type names and the three
      intrinsics, and every intrinsic is a function. */
  lemma StandardLibraryBindings()
    ensures StandardLibrary.Keys == {"number", "string", "char", "function", "any", "void", "print", "input", "step"}
    ensures forall k :: k in StandardLibrary && StandardLibrary[k].Intrinsic? ==>
              EntityType(StandardLibrary[k]) == Function && StandardLibrary[k].name == k
    ensures forall k :: k in StandardLibrary ==> (StandardLibrary[k].Intrinsic? <==> k in {"print", "input", "step"})
  {
  }
}
