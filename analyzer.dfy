/** The semantic analyzer: walks the parse tree, checks declarations and operand
    types against a scope, and builds the typed AST.

    The parse tree is given as a datatype with one constructor per semantic
    action; a `Token` is a terminal's source text together with the location
    prefix an error at that terminal is reported with. Expression actions only
    read the scope, so they are a function of its bindings; function
    definitions add bindings and switch the current scope, so they are methods
    of the `Analyzer` object that owns the current `Context`. */
module Analyzer {
  import opened Util
  import opened Core

  datatype Token = Token(text: string, at: string)

  /** The four binary precedence levels that share one action shape. */
  datatype Level = BitwiseLevel | ShiftLevel | AddLevel | MulLevel

  /** Parse-tree nodes below the statement level. An optional or repeated
      grammar element is a sequence. */
  datatype Syntax =
    | SExpr(first: Syntax, rest: seq<Syntax>)
    | SSlice(first: Syntax, rest: seq<Syntax>)
    | STernary(condLeft: Syntax, op: Token, condRight: Syntax, thenBranch: Syntax, elseBranch: Syntax)
    | SCond(inner: Syntax)
    | SBinary(level: Level, left: Syntax, op: Token, right: Syntax)
    | SPass(level: Level, inner: Syntax)
    | SJuxtapose(left: Syntax, right: Syntax)
    | SPower(base: Syntax, op: Token, exponent: Syntax)
    | SUnary(op: Token, operand: Syntax)
    | SFactor(inner: Syntax)
    | SParens(inner: Syntax)
    | SPrimary(inner: Syntax)
    | SPrint(inner: Syntax)
    | SStepCall(id: Token, argName: Token, stepValue: seq<Syntax>)
    | SInput(prompt: seq<Syntax>)
    | STimeCall(call: Syntax, timeValue: Syntax)
    | SGlobalRange(range: Syntax, timestep: seq<Syntax>)
    | SNumRange(start: Syntax, end: seq<Syntax>)
    | SCharRange(start: Syntax, end: seq<Syntax>)
    | STimestep(inner: Syntax)
    | SNum(value: int)
    | SString(text: string)
    | SChar(text: string)
    | SId(name: string, at: string)
    | SFuncCall(id: Token, arg: Syntax)

  /** A top-level statement: a function definition or any other statement. */
  datatype Statement =
    | Def(id: Token, param: Token, body: Syntax)
    | Plain(syntax: Syntax)

  datatype ProgramSyntax = ProgramSyntax(globalRanges: seq<Syntax>, statements: seq<Statement>)

  /** Why analysis stopped. `Located` errors carry the location prefix of the
      offending terminal. The ternary check passes its location where the
      required type belongs, so when it fails it cannot find a location and a
      runtime type error escapes instead (`MissingLocation`); slices call a node
      constructor that does not exist (`NoSliceConstructor`). */
  datatype Failure =
    | Located(at: string, message: string)
    | Unlocated(message: string)
    | MissingLocation
    | NoSliceConstructor

  function AlreadyDeclared(name: string): string { "Identifier " + name + " already declared" }
  function NotDeclared(name: string): string { "Identifier " + name + " not declared" }
  function NotSameType(t1: Type, t2: Type): string {
    "Operands do not have the same type. Given " + TypeName(t1) + " and " + TypeName(t2) + " types"
  }
  function NotSupported(t1: Type, required: Type): string {
    "Operator does not support " + TypeName(t1) + " types. Expected " + TypeName(required)
  }
  const InputOutsideFunction: string := "Input statements must be inside functions"

  // ---------------------------------------------------------------------------
  // Type checks

  /** The unary operand check: `None` when it passes. */
  function UnaryCheck(t: Type, required: Type, at: string): Option<Failure> {
    if t == required || t == Any then None else Some(Located(at, NotSupported(t, required)))
  }

  /** The binary operand check: first that the operands agree, then that they
      have the required type; an `any` operand passes both. */
  function BinaryCheck(t1: Type, t2: Type, required: Type, at: string): Option<Failure> {
    if !(t1 == t2 || t1 == Any || t2 == Any) then Some(Located(at, NotSameType(t1, t2)))
    else if !((t1 == required && t2 == required) || t1 == Any || t2 == Any) then Some(Located(at, NotSupported(t1, required)))
    else None
  }

  /** The check for `+` and `-`: `-` wants numbers; `+` wants numbers when the
      left operand is a number and strings otherwise. */
  function AddCheck(op: string, t1: Type, t2: Type, at: string): Option<Failure> {
    if op == "-" then BinaryCheck(t1, t2, Number, at)
    else if t1 == Number then BinaryCheck(t1, t2, Number, at)
    else BinaryCheck(t1, t2, String, at)
  }

  /** The ternary check, called with the location in the place of the type. */
  function TernaryCheck(t1: Type, t2: Type): Option<Failure> {
    if t1 == Any || t2 == Any then None else Some(MissingLocation)
  }

  lemma UnaryCheckPasses(t: Type, required: Type, at: string)
    ensures UnaryCheck(t, required, at).None? <==> t == required || t == Any
    ensures UnaryCheck(t, required, at).Some? ==> UnaryCheck(t, required, at).value == Located(at, NotSupported(t, required))
  {
  }

  /** The binary check passes exactly when an operand is `any` or both have the
      required type. */
  lemma BinaryCheckPasses(t1: Type, t2: Type, required: Type, at: string)
    ensures BinaryCheck(t1, t2, required, at).None? <==> t1 == Any || t2 == Any || (t1 == required && t2 == required)
  {
  }

  /** Which message a failing binary check gives: the same-type message when
      the operands differ, otherwise the unsupported-type message. */
  lemma BinaryCheckMessages(t1: Type, t2: Type, required: Type, at: string)
    requires t1 != Any && t2 != Any
    ensures t1 != t2 ==> BinaryCheck(t1, t2, required, at) == Some(Located(at, NotSameType(t1, t2)))
    ensures t1 == t2 && t1 != required ==> BinaryCheck(t1, t2, required, at) == Some(Located(at, NotSupported(t1, required)))
  {
  }

  /** `-` accepts only numbers; `+` accepts two numbers or two strings; both
      accept anything beside an `any` operand. */
  lemma AddCheckPasses(op: string, t1: Type, t2: Type, at: string)
    ensures op == "-" ==> (AddCheck(op, t1, t2, at).None? <==> t1 == Any || t2 == Any || (t1 == Number && t2 == Number))
    ensures op != "-" ==> (AddCheck(op, t1, t2, at).None? <==>
                             t1 == Any || t2 == Any || (t1 == t2 && (t1 == Number || t1 == String)))
  {
  }

  /** A string plus a number and a string minus a number both fail with the
      same-type message. */
  lemma StringAndNumberRejected(at: string)
    ensures AddCheck("+", String, Number, at) == Some(Located(at, "Operands do not have the same type. Given string and number types"))
    ensures AddCheck("-", String, Number, at) == Some(Located(at, "Operands do not have the same type. Given string and number types"))
  {
    assert NotSameType(String, Number) == "Operands do not have the same type. Given string and number types";
  }

  // ---------------------------------------------------------------------------
  // Expressions

  /** What reading `.value` off an analysed node gives, as a node. */
  function ValueField(n: Node): Node {
    match n
    case Num(v) => Num(v)
    case Primary(v) => v
    case Timestep(a) => a
    case StringLiteral(s) => Raw(s)
    case CharLiteral(s) => Raw(s)
    case _ => Absent
  }

  /** Analyses an expression-level parse tree against the bindings `env`;
      `inFunction` tells whether the current scope has a parent. */
  function Rep(t: Syntax, env: map<string, Entity>, inFunction: bool): Result<Node, Failure>
    decreases t
  {
    match t
    case SExpr(first, rest) =>
      var c :- Rep(first, env, inFunction);
      var rs :- RepAll(t, rest, env, inFunction);
      Ok(Expr(c, rs))
    case SSlice(first, rest) =>
      var _ :- Rep(first, env, inFunction);
      var _ :- RepAll(t, rest, env, inFunction);
      Err(NoSliceConstructor)
    case STernary(cl, op, cr, th, el) =>
      var l :- Rep(cl, env, inFunction);
      var r :- Rep(cr, env, inFunction);
      if TernaryCheck(TypeOf(l), TypeOf(r)).Some? then Err(TernaryCheck(TypeOf(l), TypeOf(r)).value)
      else
        var th' :- Rep(th, env, inFunction);
        var el' :- Rep(el, env, inFunction);
        Ok(CondExpr(l, op.text, r, th', el'))
    case SCond(inner) =>
      var e :- Rep(inner, env, inFunction);
      Ok(CondExpr(e))
    case SBinary(level, left, op, right) =>
      var l :- Rep(left, env, inFunction);
      var r :- Rep(right, env, inFunction);
      BuildBinary(level, l, op, r)
    case SPass(level, inner) =>
      var e :- Rep(inner, env, inFunction);
      Ok(match level
         case BitwiseLevel => BitwiseExpr(e)
         case ShiftLevel => ShiftExpr(e)
         case AddLevel => AddExpr(e)
         case MulLevel => MulExpr(e))
    case SJuxtapose(left, right) =>
      var l :- Rep(left, env, inFunction);
      var r :- Rep(right, env, inFunction);
      Ok(MulExpr(l, "*", r))
    case SPower(base, op, exponent) =>
      var b :- Rep(base, env, inFunction);
      var x :- Rep(exponent, env, inFunction);
      if BinaryCheck(TypeOf(b), TypeOf(x), Number, op.at).Some? then Err(BinaryCheck(TypeOf(b), TypeOf(x), Number, op.at).value)
      else Ok(Factor(b, op.text, x))
    case SUnary(op, operand) =>
      var x :- Rep(operand, env, inFunction);
      if UnaryCheck(TypeOf(x), Number, op.at).Some? then Err(UnaryCheck(TypeOf(x), Number, op.at).value)
      else Ok(Factor(Absent, op.text, x))
    case SFactor(inner) =>
      var e :- Rep(inner, env, inFunction);
      Ok(Factor(e))
    case SParens(inner) =>
      var e :- Rep(inner, env, inFunction);
      Ok(Primary(e))
    case SPrimary(inner) =>
      var e :- Rep(inner, env, inFunction);
      Ok(Primary(e))
    case SPrint(inner) =>
      var e :- Rep(inner, env, inFunction);
      Ok(PrintStmt(e))
    case SStepCall(id, arg, stepValue) =>
      var vs :- RepAll(t, stepValue, env, inFunction);
      Ok(StepCall(Callee(id.text, arg.text), if |vs| > 0 then ValueField(vs[0]) else Num(1)))
    case SInput(prompt) =>
      if !inFunction then Err(Unlocated(InputOutsideFunction))
      else
        var ps :- RepAll(t, prompt, env, inFunction);
        Ok(InputStmt(List(ps)))
    case STimeCall(call, timeValue) =>
      var c :- Rep(call, env, inFunction);
      var v :- Rep(timeValue, env, inFunction);
      Ok(TimeCall(c, v))
    case SGlobalRange(range, timestep) =>
      var r :- Rep(range, env, inFunction);
      var ts :- RepAll(t, timestep, env, inFunction);
      Ok(GlobalRange(r, List(ts)))
    case SNumRange(start, end) =>
      var s :- Rep(start, env, inFunction);
      var e :- RepAll(t, end, env, inFunction);
      Ok(NumRange(s, List(e)))
    case SCharRange(start, end) =>
      var s :- Rep(start, env, inFunction);
      var e :- RepAll(t, end, env, inFunction);
      Ok(CharRange(s, List(e)))
    case STimestep(inner) =>
      var e :- Rep(inner, env, inFunction);
      Ok(Timestep(e))
    case SNum(v) => Ok(Num(v))
    case SString(s) => Ok(StringLiteral(s))
    case SChar(s) => Ok(CharLiteral(s))
    case SId(name, at) =>
      if name in env then Ok(Id(name)) else Err(Located(at, NotDeclared(name)))
    case SFuncCall(id, arg) =>
      if id.text !in env then Err(Located(id.at, NotDeclared(id.text)))
      else
        var a :- Rep(arg, env, inFunction);
        Ok(FuncCall(id.text, a))
  }

  /** Analyses a sequence of children of `parent` in order, stopping at the
      first failure. */
  function RepAll(parent: Syntax, ts: seq<Syntax>, env: map<string, Entity>, inFunction: bool): (r: Result<seq<Node>, Failure>)
    requires forall i :: 0 <= i < |ts| ==> ts[i] < parent
    ensures r.Ok? ==> |r.value| == |ts|
    decreases parent, |ts|
  {
    if ts == [] then Ok([])
    else
      var n :- Rep(ts[0], env, inFunction);
      var ns :- RepAll(parent, ts[1..], env, inFunction);
      Ok([n] + ns)
  }

  /** Builds a binary node of the given level once its operands pass the level's check. */
  function BuildBinary(level: Level, l: Node, op: Token, r: Node): Result<Node, Failure> {
    match level
    case BitwiseLevel =>
      if BinaryCheck(TypeOf(l), TypeOf(r), Number, op.at).Some? then Err(BinaryCheck(TypeOf(l), TypeOf(r), Number, op.at).value)
      else Ok(BitwiseExpr(l, op.text, r))
    case ShiftLevel =>
      if BinaryCheck(TypeOf(l), TypeOf(r), Number, op.at).Some? then Err(BinaryCheck(TypeOf(l), TypeOf(r), Number, op.at).value)
      else Ok(ShiftExpr(l, op.text, r))
    case AddLevel =>
      if AddCheck(op.text, TypeOf(l), TypeOf(r), op.at).Some? then Err(AddCheck(op.text, TypeOf(l), TypeOf(r), op.at).value)
      else Ok(AddExpr(l, op.text, r))
    case MulLevel =>
      if BinaryCheck(TypeOf(l), TypeOf(r), Number, op.at).Some? then Err(BinaryCheck(TypeOf(l), TypeOf(r), Number, op.at).value)
      else Ok(MulExpr(l, op.text, r))
  }

  // ---------------------------------------------------------------------------
  // Properties of expression analysis

  /** An identifier is accepted exactly when it is bound, and otherwise fails
      with the not-declared message at its location. */
  lemma IdentifierLookup(name: string, at: string, env: map<string, Entity>, inFunction: bool)
    ensures name in env ==> Rep(SId(name, at), env, inFunction) == Ok(Id(name))
    ensures name !in env ==> Rep(SId(name, at), env, inFunction) == Err(Located(at, NotDeclared(name)))
  {
  }

  /** A call to an unbound name fails before its argument is looked at. */
  lemma CallToUnboundFails(id: Token, arg: Syntax, env: map<string, Entity>, inFunction: bool)
    requires id.text !in env
    ensures Rep(SFuncCall(id, arg), env, inFunction) == Err(Located(id.at, NotDeclared(id.text)))
  {
  }

  /** A call to a bound name is built around its analysed argument. */
  lemma CallToBound(id: Token, arg: Syntax, env: map<string, Entity>, inFunction: bool)
    requires id.text in env && Rep(arg, env, inFunction).Ok?
    ensures Rep(SFuncCall(id, arg), env, inFunction) == Ok(FuncCall(id.text, Rep(arg, env, inFunction).value))
  {
  }

  /** Outside a function an input statement fails, whatever its prompt. */
  lemma InputOutsideFunctionFails(prompt: seq<Syntax>, env: map<string, Entity>)
    ensures Rep(SInput(prompt), env, false) == Err(Unlocated(InputOutsideFunction))
  {
  }

  /** A step call names its callee and argument without looking them up, and
      steps once when no step value is written. */
  lemma StepCallDefaultsToOne(id: Token, arg: Token, env: map<string, Entity>, inFunction: bool)
    ensures Rep(SStepCall(id, arg, []), env, inFunction) == Ok(StepCall(Callee(id.text, arg.text), Num(1)))
  {
  }

  /** A written step value is taken from the first analysed value. */
  lemma StepCallWithValue(id: Token, arg: Token, v: int, env: map<string, Entity>, inFunction: bool)
    ensures Rep(SStepCall(id, arg, [SNum(v)]), env, inFunction) == Ok(StepCall(Callee(id.text, arg.text), Num(v)))
  {
    var t := SStepCall(id, arg, [SNum(v)]);
    assert [SNum(v)][1..] == [];
    assert Rep(SNum(v), env, inFunction) == Ok(Num(v));
    assert RepAll(t, [], env, inFunction) == Ok([]);
    assert [Num(v)] + [] == [Num(v)];
    assert RepAll(t, [SNum(v)], env, inFunction) == Ok([Num(v)]);
  }

  /** A slice never analyses successfully. */
  lemma SliceFails(first: Syntax, rest: seq<Syntax>, env: map<string, Entity>, inFunction: bool)
    ensures Rep(SSlice(first, rest), env, inFunction).Err?
  {
  }

  /** A ternary is accepted only when one of its comparison operands has type `any`. */
  lemma TernaryNeedsAny(cl: Syntax, op: Token, cr: Syntax, th: Syntax, el: Syntax, env: map<string, Entity>, inFunction: bool)
    requires Rep(STernary(cl, op, cr, th, el), env, inFunction).Ok?
    ensures TypeOf(Rep(cl, env, inFunction).value) == Any || TypeOf(Rep(cr, env, inFunction).value) == Any
  {
  }

  /** Every accepted binary node of the arithmetic levels other than `+` has
      number operands or an `any` operand, and keeps its operator text. */
  lemma ArithmeticOperandsChecked(level: Level, l: Node, op: Token, r: Node)
    requires level != AddLevel && BuildBinary(level, l, op, r).Ok?
    ensures TypeOf(l) == Any || TypeOf(r) == Any || (TypeOf(l) == Number && TypeOf(r) == Number)
  {
    BinaryCheckPasses(TypeOf(l), TypeOf(r), Number, op.at);
  }

  /** An accepted `+` node has two numbers, two strings, or an `any` operand;
      an accepted `-` node has numbers or an `any` operand. */
  lemma AdditiveOperandsChecked(l: Node, op: Token, r: Node)
    requires BuildBinary(AddLevel, l, op, r).Ok?
    ensures op.text == "-" ==> TypeOf(l) == Any || TypeOf(r) == Any || (TypeOf(l) == Number && TypeOf(r) == Number)
    ensures TypeOf(l) == Any || TypeOf(r) == Any || (TypeOf(l) == TypeOf(r) && (TypeOf(l) == Number || TypeOf(l) == String))
  {
    AddCheckPasses(op.text, TypeOf(l), TypeOf(r), op.at);
  }

  /** The unary operators accept exactly number and `any` operands. */
  lemma UnaryOperandChecked(op: Token, operand: Syntax, env: map<string, Entity>, inFunction: bool)
    requires Rep(operand, env, inFunction).Ok?
    ensures Rep(SUnary(op, operand), env, inFunction).Ok? <==>
              TypeOf(Rep(operand, env, inFunction).value) in {Number, Any}
  {
  }

  // ---------------------------------------------------------------------------
  // Scopes

  /** The bindings map a scope reads and writes; scopes created from one
      another share it. */
  class Locals {
    var bindings: map<string, Entity>

    constructor(bindings: map<string, Entity>)
      ensures this.bindings == bindings
    {
      this.bindings := bindings;
    }
  }

  class Context {
    const parent: Context?
    const locals: Locals

    constructor(parent: Context?, locals: Locals)
      ensures this.parent == parent && this.locals == locals
    {
      this.parent := parent;
      this.locals := locals;
    }

    /** The root scope: no parent, and the standard library bound. */
    static method Root() returns (c: Context)
      ensures fresh(c) && fresh(c.locals)
      ensures c.parent == null && c.locals.bindings == StandardLibrary
    {
      var locals := new Locals(StandardLibrary);
      c := new Context(null, locals);
    }

    /** A scope whose parent is this one and which shares this one's bindings. */
    method NewChildContext() returns (c: Context)
      ensures fresh(c) && c.parent == this && c.locals == locals
    {
      c := new Context(this, locals);
    }

    /** Looks a name up in this scope's own bindings; the parent is not consulted. */
    function Lookup(name: string): (r: Option<Entity>)
      reads locals
      ensures r.Some? <==> name in locals.bindings
    {
      if name in locals.bindings then Some(locals.bindings[name]) else None
    }

    /** Binds `name`, replacing any earlier binding; every other name keeps its binding. */
    method Add(name: string, e: Entity)
      modifies locals
      ensures locals.bindings == old(locals.bindings)[name := e]
      ensures Lookup(name) == Some(e)
      ensures forall k :: k != name ==> Lookup(k) == old(Lookup(k))
    {
      locals.bindings := locals.bindings[name := e];
    }
  }

  // ---------------------------------------------------------------------------
  // Function definitions and programs

  /** The bindings a function body is analysed against: the enclosing ones plus
      the function's own name, its parameter and its call form `f(x)`. */
  function BodyBindings(id: string, param: string, env: map<string, Entity>): map<string, Entity> {
    env[id := FunctionEntity(id)][param := MutableRange(param)][id + "(" + param + ")" := FunctionEntity(id + "(" + param + ")")]
  }

  /** The bindings after a definition: the body bindings, then the name rebound
      to the call form, the parameter rebound, and finally the name bound to
      the built definition. */
  function DefinedBindings(id: string, param: string, def: Node, env: map<string, Entity>): map<string, Entity> {
    BodyBindings(id, param, env)[id := FunctionEntity(id + "(" + param + ")")][param := MutableRange(param)][id := Declared(def)]
  }

  /** What analysing a definition against `env` yields: the definition node and
      the new bindings. */
  function DefineSpec(id: Token, param: Token, body: Syntax, env: map<string, Entity>): Result<(Node, map<string, Entity>), Failure> {
    if id.text in env then Err(Located(id.at, AlreadyDeclared(id.text)))
    else
      var b :- Rep(body, BodyBindings(id.text, param.text, env), true);
      var def := FuncDef(id.text, param.text, b);
      Ok((def, DefinedBindings(id.text, param.text, def, env)))
  }

  /** After a definition the name is bound to the definition node, the parameter
      to a number-typed mutable range, and the call form to a function entity;
      no other binding changes. The parameter stays bound after the body, since
      the body's scope shares the enclosing bindings. */
  lemma DefinedBindingsContent(id: string, param: string, def: Node, env: map<string, Entity>)
    requires param != id
    ensures var env' := DefinedBindings(id, param, def, env);
      env'[id] == Declared(def) && env'[param] == MutableRange(param) && EntityType(env'[param]) == Number
      && env'[id + "(" + param + ")"] == FunctionEntity(id + "(" + param + ")")
    ensures var env' := DefinedBindings(id, param, def, env);
      forall k :: k in env && k != id && k != param && k != id + "(" + param + ")" ==> k in env' && env'[k] == env[k]
  {
    assert |id + "(" + param + ")"| > |param|;
  }

  /** A name can be defined only once: after a successful definition, defining
      the same name again fails with the already-declared message. */
  lemma RedefinitionFails(id: Token, param: Token, body: Syntax, id2: Token, param2: Token, body2: Syntax, env: map<string, Entity>)
    requires DefineSpec(id, param, body, env).Ok? && id2.text == id.text
    ensures DefineSpec(id2, param2, body2, DefineSpec(id, param, body, env).value.1) == Err(Located(id2.at, AlreadyDeclared(id.text)))
  {
  }

  /** A body may use input statements, since its scope has a parent, and sees
      the function's own name and parameter. */
  lemma BodySeesNameAndParameter(id: string, param: string, env: map<string, Entity>)
    ensures id in BodyBindings(id, param, env) && param in BodyBindings(id, param, env)
    ensures BodyBindings(id, param, env)[param] == MutableRange(param)
  {
    assert |id + "(" + param + ")"| > |param|;
  }

  /** What a statement yields against `env`. */
  function StatementSpec(s: Statement, env: map<string, Entity>): Result<(Node, map<string, Entity>), Failure> {
    match s
    case Def(id, param, body) => DefineSpec(id, param, body, env)
    case Plain(t) =>
      var n :- Rep(t, env, false);
      Ok((n, env))
  }

  /** What a sequence of top-level statements yields, in order, stopping at the
      first failure. */
  function StatementsSpec(ss: seq<Statement>, env: map<string, Entity>): Result<(seq<Node>, map<string, Entity>), Failure>
    decreases |ss|
  {
    if ss == [] then Ok(([], env))
    else
      var first :- StatementSpec(ss[0], env);
      var rest :- StatementsSpec(ss[1..], first.1);
      Ok(([first.0] + rest.0, rest.1))
  }

  /** What a whole program yields: the global ranges are analysed first, then
      the statements, all in the root scope. */
  function ProgramSpec(p: ProgramSyntax): Result<Node, Failure> {
    var ranges :- RepAll(SExpr(SNum(0), p.globalRanges), p.globalRanges, StandardLibrary, false);
    var stmts :- StatementsSpec(p.statements, StandardLibrary);
    Ok(Program(if |ranges| > 0 then List(ranges) else Absent, stmts.0))
  }

  /** Statements that analyse successfully give one node each. */
  lemma {:induction false} StatementsCount(ss: seq<Statement>, env: map<string, Entity>)
    requires StatementsSpec(ss, env).Ok?
    ensures |StatementsSpec(ss, env).value.0| == |ss|
    decreases |ss|
  {
    if ss != [] {
      StatementsCount(ss[1..], StatementSpec(ss[0], env).value.1);
    }
  }

  /** Bindings only grow: every name bound before a run of statements is still
      bound after it. */
  lemma {:induction false} StatementsKeepNames(ss: seq<Statement>, env: map<string, Entity>)
    requires StatementsSpec(ss, env).Ok?
    ensures env.Keys <= StatementsSpec(ss, env).value.1.Keys
    decreases |ss|
  {
    if ss != [] {
      StatementsKeepNames(ss[1..], StatementSpec(ss[0], env).value.1);
    }
  }

  /** An input statement at top level makes the whole program fail. */
  lemma TopLevelInputFails(prompt: seq<Syntax>, env: map<string, Entity>)
    ensures StatementsSpec([Plain(SInput(prompt))], env) == Err(Unlocated(InputOutsideFunction))
  {
    InputOutsideFunctionFails(prompt, env);
  }

  /** Prepends the nodes already built to the outcome of the remaining statements. */
  function Prepend(done: seq<Node>, r: Result<(seq<Node>, map<string, Entity>), Failure>): Result<(seq<Node>, map<string, Entity>), Failure> {
    match r
    case Ok(v) => Ok((done + v.0, v.1))
    case Err(e) => Err(e)
  }

  lemma StatementsStep(ss: seq<Statement>, i: int, env: map<string, Entity>, n: Node, env': map<string, Entity>)
    requires 0 <= i < |ss| && StatementSpec(ss[i], env) == Ok((n, env'))
    ensures StatementsSpec(ss[i..], env) == Prepend([n], StatementsSpec(ss[i + 1..], env'))
  {
    assert ss[i..][1..] == ss[i + 1..];
  }

  lemma PrependNothing(r: Result<(seq<Node>, map<string, Entity>), Failure>)
    ensures Prepend([], r) == r
  {
    if r.Ok? {
      assert [] + r.value.0 == r.value.0;
    }
  }

  lemma PrependPrepend(a: seq<Node>, b: seq<Node>, r: Result<(seq<Node>, map<string, Entity>), Failure>)
    ensures Prepend(a, Prepend(b, r)) == Prepend(a + b, r)
  {
    if r.Ok? {
      assert a + (b + r.value.0) == (a + b) + r.value.0;
    }
  }

  /** The analyzer: the current scope, swapped for a child scope while a
      function body is analysed. */
  class Analyzer {
    var context: Context

    /** Starts in the root scope. */
    constructor()
      ensures fresh(context) && fresh(context.locals)
      ensures context.parent == null && context.locals.bindings == StandardLibrary
    {
      var root := Context.Root();
      context := root;
    }

    /** Analyses a function definition. On success the current scope is the
        original one again and its bindings are those `DefineSpec` gives; when
        the name is already bound nothing changes; when the body fails, the
        child scope is left current, holding the body bindings. */
    method AnalyzeFuncDef(id: Token, param: Token, body: Syntax) returns (r: Result<Node, Failure>)
      modifies this, context.locals
      ensures var spec := DefineSpec(id, param, body, old(context.locals.bindings));
        (spec.Ok? ==> r == Ok(spec.value.0) && context == old(context) && context.locals.bindings == spec.value.1)
        && (spec.Err? ==> r == Err(spec.error))
      ensures id.text in old(context.locals.bindings) ==>
        context == old(context) && context.locals.bindings == old(context.locals.bindings)
      ensures r.Err? && id.text !in old(context.locals.bindings) ==>
        context.parent == old(context) && context.locals == old(context.locals)
        && context.locals.bindings == BodyBindings(id.text, param.text, old(context.locals.bindings))
    {
      if context.Lookup(id.text).Some? {
        return Err(Located(id.at, AlreadyDeclared(id.text)));
      }
      var originalContext := context;
      context := context.NewChildContext();
      context.Add(id.text, FunctionEntity(id.text));
      context.Add(param.text, MutableRange(param.text));
      var functionId := id.text + "(" + param.text + ")";
      context.Add(functionId, FunctionEntity(functionId));
      var analyzedBody := Rep(body, context.locals.bindings, context.parent != null);
      if analyzedBody.Err? {
        return Err(analyzedBody.error);
      }
      context := originalContext;
      context.Add(id.text, FunctionEntity(functionId));
      context.Add(param.text, MutableRange(param.text));
      var func := FuncDef(id.text, param.text, analyzedBody.value);
      context.Add(id.text, Declared(func));
      return Ok(func);
    }
  }

  /** Analyses a whole program in a fresh root scope. */
  method Analyze(p: ProgramSyntax) returns (r: Result<Node, Failure>)
    ensures r == ProgramSpec(p)
  {
    var a := new Analyzer();
    var ranges := RepAll(SExpr(SNum(0), p.globalRanges), p.globalRanges, a.context.locals.bindings, a.context.parent != null);
    if ranges.Err? {
      return Err(ranges.error);
    }
    var statements: seq<Node> := [];
    var i := 0;
    assert p.statements[0..] == p.statements;
    PrependNothing(StatementsSpec(p.statements, StandardLibrary));
    while i < |p.statements|
      invariant 0 <= i <= |p.statements|
      invariant fresh(a.context.locals) && a.context.parent == null
      invariant StatementsSpec(p.statements, StandardLibrary)
             == Prepend(statements, StatementsSpec(p.statements[i..], a.context.locals.bindings))
      decreases |p.statements| - i
    {
      var env := a.context.locals.bindings;
      var n: Node;
      match p.statements[i] {
        case Def(id, param, body) =>
          var d := a.AnalyzeFuncDef(id, param, body);
          if d.Err? {
            assert StatementsSpec(p.statements[i..], env) == Err(d.error);
            return Err(d.error);
          }
          n := d.value;
        case Plain(t) =>
          var e := Rep(t, env, a.context.parent != null);
          if e.Err? {
            assert StatementsSpec(p.statements[i..], env) == Err(e.error);
            return Err(e.error);
          }
          n := e.value;
      }
      StatementsStep(p.statements, i, env, n, a.context.locals.bindings);
      PrependPrepend(statements, [n], StatementsSpec(p.statements[i + 1..], a.context.locals.bindings));
      statements := statements + [n];
      i := i + 1;
    }
    assert p.statements[i..] == [];
    assert statements + [] == statements;
    assert StatementsSpec(p.statements, StandardLibrary) == Ok((statements, a.context.locals.bindings));
    return Ok(Program(if |ranges.value| > 0 then List(ranges.value) else Absent, statements));
  }
}
