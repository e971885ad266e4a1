/** The constant-folding optimizer: a post-order rewrite of the AST. Children
    are optimized before the rule of their parent looks at them; node kinds
    without a rule are returned as they are, without visiting their children.

    The source overwrites the child fields of the node it is given and then
    returns that node, a fresh literal, or one of the optimized children; the
    model returns the same tree as a new value. */
module Optimizer {
  import opened Util
  import opened Core

  /** How a multiplicative node over two literals is folded. `AsWritten` folds
      to the product whatever the operator, as the source does; `ByOperator`
      computes what the operator means and leaves the node alone when the result
      is not an integer. */
  datatype Folding = AsWritten | ByOperator

  /** The 32-bit signed integer JavaScript's bitwise operators work on. */
  function ToInt32(v: int): int {
    (v + 0x8000_0000) % 0x1_0000_0000 - 0x8000_0000
  }

  /** JavaScript's `~v` on an integer-valued number. */
  function BitNot(v: int): int {
    -ToInt32(v) - 1
  }

  function Pow(b: int, e: nat): int
    decreases e
  {
    if e == 0 then 1 else b * Pow(b, e - 1)
  }

  function Abs(a: int): nat { if a < 0 then -a else a }

  /** JavaScript's `%`: the remainder takes the sign of the dividend. */
  function TruncRem(a: int, b: int): int
    requires b != 0
  {
    if a < 0 then -(Abs(a) % Abs(b)) else Abs(a) % Abs(b)
  }

  /** JavaScript's integer quotient: the exact quotient rounded toward zero. */
  function TruncDiv(a: int, b: int): int
    requires b != 0
  {
    if (a < 0) == (b < 0) then Abs(a) / Abs(b) else -(Abs(a) / Abs(b))
  }

  /** The six comparisons a conditional may fold; any other operator is unknown. */
  function Compare(op: string, a: int, b: int): Option<bool> {
    if op == "==" then Some(a == b)
    else if op == "!=" then Some(a != b)
    else if op == "<" then Some(a < b)
    else if op == "<=" then Some(a <= b)
    else if op == ">" then Some(a > b)
    else if op == ">=" then Some(a >= b)
    else None
  }

  /** The literal a multiplicative node over the literals `a` and `b` folds to, if any. */
  function FoldMul(f: Folding, op: string, a: int, b: int): Option<int> {
    match f
    case AsWritten => Some(a * b)
    case ByOperator =>
      if op == "*" then Some(a * b)
      else if op == "/" then (if b != 0 && a % b == 0 then Some(a / b) else None)
      else if op == "%" then (if b != 0 then Some(TruncRem(a, b)) else None)
      else None
  }

  /** The conditional rule, applied to optimized children: a comparison between
      two literals selects a branch; anything else is rebuilt. A selected
      branch that is missing leaves the rebuilt conditional, since the
      dispatcher falls back to the node itself when a rule yields nothing. */
  function CondRule(lc: Node, op: string, rc: Node, t: Node, e: Node): Node {
    if op != "" && lc.Num? && rc.Num? && Compare(op, lc.value, rc.value).Some? then
      var chosen := if Compare(op, lc.value, rc.value).value then t else e;
      if chosen.Absent? then CondExpr(lc, op, rc, t, e) else chosen
    else CondExpr(lc, op, rc, t, e)
  }

  /** The additive rule, applied to optimized operands. */
  function AddRule(l: Node, op: string, r: Node): Node {
    if l.Num? && r.Num? then Num(if op == "+" then l.value + r.value else l.value - r.value)
    else if op == "+" && l == Num(0) then r
    else if op == "+" && r == Num(0) then l
    else if op == "-" && r == Num(0) then l
    else AddExpr(l, op, r)
  }

  /** The multiplicative rule, applied to optimized operands. */
  function MulRule(f: Folding, l: Node, op: string, r: Node): Node {
    if l.Num? && r.Num? && FoldMul(f, op, l.value, r.value).Some? then
      Num(FoldMul(f, op, l.value, r.value).value)
    else if op == "*" && l == Num(1) then r
    else if op == "*" && r == Num(1) then l
    else if op == "*" && l == Num(0) then Num(0)
    else if op == "*" && r == Num(0) then Num(0)
    else if op == "/" && r == Num(1) then l
    else MulExpr(l, op, r)
  }

  /** The factor rule, applied to an optimized base and exponent. */
  function FactorRule(b: Node, op: string, x: Node): Node {
    if op == "**" then
      if b.Num? && x.Num? && x.value >= 0 then Num(Pow(b.value, x.value))
      else if x == Num(0) then Num(1)
      else if x == Num(1) && !b.Absent? then b
      else Factor(b, op, x)
    else if op == "-" && x.Num? then Num(-x.value)
    else if op == "~" && x.Num? then Num(BitNot(x.value))
    else Factor(b, op, x)
  }

  /** The optimizer. */
  function Optimize(n: Node, f: Folding): Node
    decreases n
  {
    match n
    case Program(g, ss) => Program(Optimize(g, f), OptimizeAll(n, ss, f))
    case FuncDef(name, param, body, defs) => FuncDef(name, param, Optimize(body, f), OptimizeAll(n, defs, f))
    case FuncCall(name, arg) => FuncCall(name, Optimize(arg, f))
    case Expr(c, rest) => Expr(Optimize(c, f), OptimizeAll(n, rest, f))
    case CondExpr(lc, op, rc, t, e) =>
      CondRule(Optimize(lc, f), op, Optimize(rc, f), Optimize(t, f), Optimize(e, f))
    case AddExpr(l, op, r) => AddRule(Optimize(l, f), op, Optimize(r, f))
    case MulExpr(l, op, r) => MulRule(f, Optimize(l, f), op, Optimize(r, f))
    case Factor(b, op, x) => FactorRule(Optimize(b, f), op, Optimize(x, f))
    case PrintStmt(e) => PrintStmt(Optimize(e, f))
    case StepCall(e, s) => StepCall(Optimize(e, f), Optimize(s, f))
    case TimeCall(c, t) => TimeCall(Optimize(c, f), Optimize(t, f))
    case GlobalRange(r, t) => GlobalRange(Optimize(r, f), Optimize(t, f))
    case _ => n
  }

  /** Optimizes each of a sequence of children of `parent`, in order. */
  function OptimizeAll(parent: Node, ss: seq<Node>, f: Folding): (r: seq<Node>)
    requires forall i :: 0 <= i < |ss| ==> ss[i] < parent
    ensures |r| == |ss| && forall i :: 0 <= i < |ss| ==> r[i] == Optimize(ss[i], f)
    decreases parent, 0
  {
    seq(|ss|, i requires 0 <= i < |ss| => Optimize(ss[i], f))
  }

  /** The node kinds the optimizer has no rule for. `NumRange` is among them:
      its rule is registered under a key that differs from the node's kind in
      letter case, so it never fires. */
  predicate HasNoRule(n: Node) {
    !(n.Program? || n.FuncDef? || n.FuncCall? || n.Expr? || n.CondExpr? || n.AddExpr? || n.MulExpr?
      || n.Factor? || n.PrintStmt? || n.StepCall? || n.TimeCall? || n.GlobalRange?)
  }

  // ---------------------------------------------------------------------------
  // The rules, one lemma per node kind

  /** Two operands that optimize to literals fold to their sum under `+` and to
      their difference under any other operator. */
  lemma AddExprFolds(l: Node, op: string, r: Node, f: Folding, a: int, b: int)
    requires Optimize(l, f) == Num(a) && Optimize(r, f) == Num(b)
    ensures Optimize(AddExpr(l, op, r), f) == Num(if op == "+" then a + b else a - b)
  {
    assert Optimize(AddExpr(l, op, r), f) == AddRule(Num(a), op, Num(b));
  }

  /** A zero on either side of `+` gives the other optimized operand. */
  lemma AddExprPlusZero(l: Node, r: Node, f: Folding)
    ensures Optimize(l, f) == Num(0) ==> Optimize(AddExpr(l, "+", r), f) == Optimize(r, f)
    ensures Optimize(r, f) == Num(0) ==> Optimize(AddExpr(l, "+", r), f) == Optimize(l, f)
  {
    assert Optimize(AddExpr(l, "+", r), f) == AddRule(Optimize(l, f), "+", Optimize(r, f));
  }

  /** Under `-` only a zero on the right is dropped; a zero on the left stays. */
  lemma AddExprMinusZero(l: Node, r: Node, f: Folding)
    ensures Optimize(r, f) == Num(0) ==> Optimize(AddExpr(l, "-", r), f) == Optimize(l, f)
    ensures Optimize(l, f) == Num(0) && !Optimize(r, f).Num? ==>
              Optimize(AddExpr(l, "-", r), f) == AddExpr(Num(0), "-", Optimize(r, f))
  {
  }

  /** As written, two literal operands fold to their product whatever the
      operator, division and remainder included. */
  lemma MulExprFoldsAsWritten(l: Node, op: string, r: Node, a: int, b: int)
    requires Optimize(l, AsWritten) == Num(a) && Optimize(r, AsWritten) == Num(b)
    ensures Optimize(MulExpr(l, op, r), AsWritten) == Num(a * b)
  {
    assert Optimize(MulExpr(l, op, r), AsWritten) == MulRule(AsWritten, Num(a), op, Num(b));
  }

  /** Folding by operator: `*` gives the product, `/` the quotient when it is
      exact. */
  lemma MulExprFoldsByOperator(l: Node, op: string, r: Node, a: int, b: int)
    requires Optimize(l, ByOperator) == Num(a) && Optimize(r, ByOperator) == Num(b)
    ensures op == "*" ==> Optimize(MulExpr(l, op, r), ByOperator) == Num(a * b)
    ensures op == "/" && b != 0 && a % b == 0 ==> Optimize(MulExpr(l, op, r), ByOperator) == Num(a / b)
  {
    assert Optimize(MulExpr(l, op, r), ByOperator) == MulRule(ByOperator, Num(a), op, Num(b));
  }

  /** and `%` the remainder with the sign of the dividend. */
  lemma MulExprFoldsRemainder(l: Node, r: Node, a: int, b: int)
    requires Optimize(l, ByOperator) == Num(a) && Optimize(r, ByOperator) == Num(b) && b != 0
    ensures Optimize(MulExpr(l, "%", r), ByOperator) == Num(TruncRem(a, b))
  {
    assert Optimize(MulExpr(l, "%", r), ByOperator) == MulRule(ByOperator, Num(a), "%", Num(b));
  }

  /** Under `*` a one on either side gives the other optimized operand. */
  lemma MulExprTimesOne(l: Node, r: Node, f: Folding)
    ensures Optimize(l, f) == Num(1) ==> Optimize(MulExpr(l, "*", r), f) == Optimize(r, f)
    ensures Optimize(r, f) == Num(1) ==> Optimize(MulExpr(l, "*", r), f) == Optimize(l, f)
  {
    assert Optimize(MulExpr(l, "*", r), f) == MulRule(f, Optimize(l, f), "*", Optimize(r, f));
  }

  /** Under `*` a zero on either side gives the literal 0. */
  lemma MulExprTimesZero(l: Node, r: Node, f: Folding)
    ensures Optimize(l, f) == Num(0) || Optimize(r, f) == Num(0) ==> Optimize(MulExpr(l, "*", r), f) == Num(0)
  {
    assert Optimize(MulExpr(l, "*", r), f) == MulRule(f, Optimize(l, f), "*", Optimize(r, f));
  }

  /** Under `/` a one on the right gives the left operand. */
  lemma MulExprDivisionByOne(l: Node, r: Node, f: Folding)
    ensures Optimize(r, f) == Num(1) ==> Optimize(MulExpr(l, "/", r), f) == Optimize(l, f)
  {
    assert Optimize(MulExpr(l, "/", r), f) == MulRule(f, Optimize(l, f), "/", Optimize(r, f));
  }

  /** A one on the left of `/` is not an identity: the node stays. */
  lemma MulExprLeftOneUnderDivisionKept(l: Node, r: Node, f: Folding)
    requires Optimize(l, f) == Num(1) && !Optimize(r, f).Num?
    ensures Optimize(MulExpr(l, "/", r), f) == MulExpr(Num(1), "/", Optimize(r, f))
  {
  }

  /** Exponentiation: two literals, the exponent not negative, fold to the power. */
  lemma PowerFolds(b: Node, x: Node, f: Folding, vb: int, vx: nat)
    requires Optimize(b, f) == Num(vb) && Optimize(x, f) == Num(vx)
    ensures Optimize(Factor(b, "**", x), f) == Num(Pow(vb, vx))
  {
    assert Optimize(Factor(b, "**", x), f) == FactorRule(Num(vb), "**", Num(vx));
  }

  /** A literal exponent 0 gives the literal 1 and a literal exponent 1 gives
      the base, whatever the base; a missing base leaves the node rebuilt. */
  lemma PowerIdentities(b: Node, x: Node, f: Folding)
    ensures Optimize(x, f) == Num(0) ==> Optimize(Factor(b, "**", x), f) == Num(1)
    ensures Optimize(x, f) == Num(1) && !Optimize(b, f).Absent? ==> Optimize(Factor(b, "**", x), f) == Optimize(b, f)
    ensures Optimize(x, f) == Num(1) && Optimize(b, f).Absent? ==> Optimize(Factor(b, "**", x), f) == Factor(Absent, "**", Num(1))
  {
    assert Optimize(Factor(b, "**", x), f) == FactorRule(Optimize(b, f), "**", Optimize(x, f));
  }

  /** Unary minus and bitwise not of a literal fold. */
  lemma UnaryFolds(x: Node, f: Folding, v: int)
    requires Optimize(x, f) == Num(v)
    ensures Optimize(Factor(Absent, "-", x), f) == Num(-v)
    ensures Optimize(Factor(Absent, "~", x), f) == Num(BitNot(v))
  {
  }

  /** Of anything else they stay. */
  lemma UnaryKept(x: Node, f: Folding)
    requires !Optimize(x, f).Num?
    ensures Optimize(Factor(Absent, "-", x), f) == Factor(Absent, "-", Optimize(x, f))
    ensures Optimize(Factor(Absent, "~", x), f) == Factor(Absent, "~", Optimize(x, f))
  {
  }

  /** On 32-bit values bitwise not is `-v - 1`; outside that range the operand
      wraps first, as in JavaScript. */
  lemma BitNotValues(v: int)
    ensures -0x8000_0000 <= v < 0x8000_0000 ==> BitNot(v) == -v - 1
    ensures BitNot(v + 0x1_0000_0000) == BitNot(v)
    ensures BitNot(0) == -1
  {
  }

  /** A conditional whose comparison operands optimize to literals is replaced
      by the optimized branch the comparison selects. */
  lemma CondExprFolds(lc: Node, op: string, rc: Node, t: Node, e: Node, f: Folding, a: int, b: int)
    requires Optimize(lc, f) == Num(a) && Optimize(rc, f) == Num(b)
    requires Compare(op, a, b).Some?
    ensures var chosen := if Compare(op, a, b).value then Optimize(t, f) else Optimize(e, f);
      Optimize(CondExpr(lc, op, rc, t, e), f)
        == if chosen.Absent? then CondExpr(Num(a), op, Num(b), Optimize(t, f), Optimize(e, f)) else chosen
  {
    assert op != "";
  }

  /** The six comparisons mean what they say; any other operator is unknown. */
  lemma CompareMeaning(op: string, a: int, b: int)
    ensures Compare("==", a, b) == Some(a == b) && Compare("!=", a, b) == Some(a != b)
    ensures Compare("<", a, b) == Some(a < b) && Compare("<=", a, b) == Some(a <= b)
    ensures Compare(">", a, b) == Some(a > b) && Compare(">=", a, b) == Some(a >= b)
    ensures Compare(op, a, b).Some? <==> op in ["==", "!=", "<", "<=", ">", ">="]
  {
  }

  /** Otherwise a conditional keeps its operator and gets its four children optimized. */
  lemma CondExprKept(lc: Node, op: string, rc: Node, t: Node, e: Node, f: Folding)
    requires !Optimize(lc, f).Num? || !Optimize(rc, f).Num? || op == ""
    ensures Optimize(CondExpr(lc, op, rc, t, e), f)
         == CondExpr(Optimize(lc, f), op, Optimize(rc, f), Optimize(t, f), Optimize(e, f))
  {
  }

  /** Nodes without a rule come back unchanged, children included. */
  lemma NoRuleUnchanged(n: Node, f: Folding)
    requires HasNoRule(n)
    ensures Optimize(n, f) == n
  {
  }

  /** In particular a range is not looked into, even when it holds a foldable sum. */
  lemma RangeBlocksFolding(f: Folding)
    ensures Optimize(AddExpr(Num(1), "+", Num(2)), f) == Num(3)
    ensures Optimize(NumRange(AddExpr(Num(1), "+", Num(2)), Absent), f) == NumRange(AddExpr(Num(1), "+", Num(2)), Absent)
  {
    AddExprFolds(Num(1), "+", Num(2), f, 1, 2);
  }

  /** Nor are a primary or a bitwise node. */
  lemma PrimaryBlocksFolding(f: Folding)
    ensures Optimize(Primary(AddExpr(Num(1), "+", Num(2))), f) == Primary(AddExpr(Num(1), "+", Num(2)))
    ensures Optimize(BitwiseExpr(AddExpr(Num(1), "+", Num(2))), f) == BitwiseExpr(AddExpr(Num(1), "+", Num(2)))
  {
  }

  /** Definitions keep their name, parameter and order of children; each child
      is replaced by its optimized form. */
  lemma FuncDefRebuilt(name: string, param: string, a: Node, ss: seq<Node>, f: Folding)
    ensures var d := Optimize(FuncDef(name, param, a, ss), f);
      d.FuncDef? && d.name == name && d.param == param && d.body == Optimize(a, f)
      && |d.additionalDefs| == |ss| && forall i :: 0 <= i < |ss| ==> d.additionalDefs[i] == Optimize(ss[i], f)
  {
  }

  /** Programs likewise. */
  lemma ProgramRebuilt(a: Node, ss: seq<Node>, f: Folding)
    ensures var p := Optimize(Program(a, ss), f);
      p.Program? && p.globalRange == Optimize(a, f)
      && |p.statements| == |ss| && forall i :: 0 <= i < |ss| ==> p.statements[i] == Optimize(ss[i], f)
  {
  }

  /** Calls keep their callee and have their operands optimized. */
  lemma CallsRebuilt(name: string, a: Node, b: Node, f: Folding)
    ensures Optimize(FuncCall(name, a), f) == FuncCall(name, Optimize(a, f))
    ensures Optimize(StepCall(a, b), f) == StepCall(Optimize(a, f), Optimize(b, f))
  {
  }

  /** Print and time statements likewise. */
  lemma StatementsRebuilt(a: Node, b: Node, f: Folding)
    ensures Optimize(PrintStmt(a), f) == PrintStmt(Optimize(a, f))
    ensures Optimize(TimeCall(a, b), f) == TimeCall(Optimize(a, f), Optimize(b, f))
  {
  }

  /** Global ranges likewise. */
  lemma GlobalRangeRebuilt(a: Node, b: Node, f: Folding)
    ensures Optimize(GlobalRange(a, b), f) == GlobalRange(Optimize(a, f), Optimize(b, f))
  {
  }

  // ---------------------------------------------------------------------------
  // Idempotence

  /** A literal is its own optimization. */
  lemma NumFixed(v: int, f: Folding)
    ensures Optimize(Num(v), f) == Num(v)
  {
  }

  /** The rules are stable: applied to already-optimized operands, their result
      optimizes to itself. */
  lemma AddRuleStable(l: Node, op: string, r: Node, f: Folding)
    requires Optimize(l, f) == l && Optimize(r, f) == r
    ensures Optimize(AddRule(l, op, r), f) == AddRule(l, op, r)
  {
    var res := AddRule(l, op, r);
    if res.AddExpr? {
      assert Optimize(AddExpr(l, op, r), f) == AddRule(l, op, r);
    } else if res.Num? {
      NumFixed(res.value, f);
    }
  }

  lemma MulRuleStable(l: Node, op: string, r: Node, f: Folding)
    requires Optimize(l, f) == l && Optimize(r, f) == r
    ensures Optimize(MulRule(f, l, op, r), f) == MulRule(f, l, op, r)
  {
    var res := MulRule(f, l, op, r);
    if res.MulExpr? {
      assert Optimize(MulExpr(l, op, r), f) == MulRule(f, l, op, r);
    } else if res.Num? {
      NumFixed(res.value, f);
    }
  }

  lemma FactorRuleStable(b: Node, op: string, x: Node, f: Folding)
    requires Optimize(b, f) == b && Optimize(x, f) == x
    ensures Optimize(FactorRule(b, op, x), f) == FactorRule(b, op, x)
  {
    var res := FactorRule(b, op, x);
    if res.Factor? {
      assert Optimize(Factor(b, op, x), f) == FactorRule(b, op, x);
    } else if res.Num? {
      NumFixed(res.value, f);
    }
  }

  lemma CondRuleStable(lc: Node, op: string, rc: Node, t: Node, e: Node, f: Folding)
    requires Optimize(lc, f) == lc && Optimize(rc, f) == rc && Optimize(t, f) == t && Optimize(e, f) == e
    ensures Optimize(CondRule(lc, op, rc, t, e), f) == CondRule(lc, op, rc, t, e)
  {
    if !(op != "" && lc.Num? && rc.Num? && Compare(op, lc.value, rc.value).Some?) {
      assert Optimize(CondExpr(lc, op, rc, t, e), f) == CondRule(lc, op, rc, t, e);
    }
  }

  /** Optimizing an optimized tree changes nothing: every rule returns either a
      literal, an already-optimized child, or a node whose children are already
      optimized and on which the same rule makes the same decision again. */
  lemma {:induction false} OptimizeIdempotent(n: Node, f: Folding)
    ensures Optimize(Optimize(n, f), f) == Optimize(n, f)
    decreases n, 2
  {
    match n
    case Program(_, _) => ListNodeIdempotent(n, f);
    case FuncDef(_, _, _, _) => ListNodeIdempotent(n, f);
    case Expr(_, _) => ListNodeIdempotent(n, f);
    case FuncCall(_, arg) => OptimizeIdempotent(arg, f);
    case CondExpr(_, _, _, _, _) => CondIdempotent(n, f);
    case AddExpr(_, _, _) => ArithmeticIdempotent(n, f);
    case MulExpr(_, _, _) => ArithmeticIdempotent(n, f);
    case Factor(_, _, _) => ArithmeticIdempotent(n, f);
    case PrintStmt(e) => OptimizeIdempotent(e, f);
    case StepCall(e, s) => OptimizeIdempotent(e, f); OptimizeIdempotent(s, f);
    case TimeCall(c, t) => OptimizeIdempotent(c, f); OptimizeIdempotent(t, f);
    case GlobalRange(r, t) => OptimizeIdempotent(r, f); OptimizeIdempotent(t, f);
    case _ =>
  }

  /** Idempotence for the node kinds that hold a sequence of children. */
  lemma {:induction false} ListNodeIdempotent(n: Node, f: Folding)
    requires n.Program? || n.FuncDef? || n.Expr?
    ensures Optimize(Optimize(n, f), f) == Optimize(n, f)
    decreases n, 1
  {
    match n
    case Program(g, ss) =>
      OptimizeIdempotent(g, f);
      var once := OptimizeAll(n, ss, f);
      AllIdempotent(n, ss, f);
      assert OptimizeAll(Optimize(n, f), once, f) == once;
    case FuncDef(name, param, body, defs) =>
      OptimizeIdempotent(body, f);
      var once := OptimizeAll(n, defs, f);
      AllIdempotent(n, defs, f);
      assert OptimizeAll(Optimize(n, f), once, f) == once;
    case Expr(c, rest) =>
      OptimizeIdempotent(c, f);
      var once := OptimizeAll(n, rest, f);
      AllIdempotent(n, rest, f);
      assert OptimizeAll(Optimize(n, f), once, f) == once;
  }

  lemma {:induction false} CondIdempotent(n: Node, f: Folding)
    requires n.CondExpr?
    ensures Optimize(Optimize(n, f), f) == Optimize(n, f)
    decreases n, 1
  {
    var CondExpr(lc, op, rc, t, e) := n;
    OptimizeIdempotent(lc, f); OptimizeIdempotent(rc, f);
    OptimizeIdempotent(t, f); OptimizeIdempotent(e, f);
    CondRuleStable(Optimize(lc, f), op, Optimize(rc, f), Optimize(t, f), Optimize(e, f), f);
  }

  lemma {:induction false} ArithmeticIdempotent(n: Node, f: Folding)
    requires n.AddExpr? || n.MulExpr? || n.Factor?
    ensures Optimize(Optimize(n, f), f) == Optimize(n, f)
    decreases n, 1
  {
    match n
    case AddExpr(l, op, r) =>
      OptimizeIdempotent(l, f); OptimizeIdempotent(r, f);
      AddRuleStable(Optimize(l, f), op, Optimize(r, f), f);
    case MulExpr(l, op, r) =>
      OptimizeIdempotent(l, f); OptimizeIdempotent(r, f);
      MulRuleStable(Optimize(l, f), op, Optimize(r, f), f);
    case Factor(b, op, x) =>
      OptimizeIdempotent(b, f); OptimizeIdempotent(x, f);
      FactorRuleStable(Optimize(b, f), op, Optimize(x, f), f);
  }

  /** Idempotence for each of a sequence of children of `parent`. */
  lemma {:induction false} AllIdempotent(parent: Node, ss: seq<Node>, f: Folding)
    requires forall i :: 0 <= i < |ss| ==> ss[i] < parent
    ensures forall i :: 0 <= i < |ss| ==> Optimize(Optimize(ss[i], f), f) == Optimize(ss[i], f)
    decreases parent, 0
  {
    forall i | 0 <= i < |ss|
      ensures Optimize(Optimize(ss[i], f), f) == Optimize(ss[i], f)
    {
      OptimizeIdempotent(ss[i], f);
    }
  }

  // ---------------------------------------------------------------------------
  // Meaning

  /** The value of a binary additive node from the values of its operands. */
  function AddValue(op: string, a: Option<int>, b: Option<int>): Option<int> {
    if a.None? || b.None? then None
    else if op == "+" then Some(a.value + b.value)
    else if op == "-" then Some(a.value - b.value)
    else None
  }

  /** The value of a binary multiplicative node, as JavaScript defines it on
      integers: the product; the quotient when it is an integer, that is when
      the divisor times the quotient rounded toward zero gives back the
      dividend; the dividend minus the divisor times that rounded quotient. */
  function MulValue(op: string, a: Option<int>, b: Option<int>): Option<int> {
    if a.None? || b.None? then None
    else if op == "*" then Some(a.value * b.value)
    else if op == "/" then
      (if b.value != 0 && b.value * TruncDiv(a.value, b.value) == a.value
       then Some(TruncDiv(a.value, b.value)) else None)
    else if op == "%" then
      (if b.value != 0 then Some(a.value - b.value * TruncDiv(a.value, b.value)) else None)
    else None
  }

  /** The remainder the optimizer folds is the remainder of the quotient
      rounded toward zero: smaller than the divisor and, unless it is zero,
      of the dividend's sign. */
  lemma TruncRemMeaning(a: int, b: int)
    requires b != 0
    ensures a == b * TruncDiv(a, b) + TruncRem(a, b)
    ensures Abs(TruncRem(a, b)) < Abs(b)
    ensures TruncRem(a, b) == 0 || (TruncRem(a, b) < 0 <==> a < 0)
  {
    var q, r := Abs(a) / Abs(b), Abs(a) % Abs(b);
    assert Abs(a) == Abs(b) * q + r;
    if b < 0 {
      assert b * -q == Abs(b) * q;
      assert b * q == -(Abs(b) * q);
    } else {
      assert b * -q == -(Abs(b) * q);
    }
  }

  /** A nonzero multiple of `b` is at least as large as `b`. */
  lemma MultipleAtLeastDivisor(b: int, k: int)
    ensures k != 0 ==> Abs(b * k) >= Abs(b)
  {
    if k != 0 {
      AbsOfProduct(b, k);
      var x, y := Abs(b), Abs(k);
      assert x * y == x * (y - 1) + x;
    }
  }

  lemma AbsOfProduct(b: int, k: int)
    ensures Abs(b * k) == Abs(b) * Abs(k)
  {
    if b < 0 && k < 0 { assert b * k == (-b) * (-k); }
    else if b < 0 { assert b * k == -((-b) * k); }
    else if k < 0 { assert b * k == -(b * (-k)); }
  }

  /** When `b * q == a`, Dafny's division gives back `q` exactly. */
  lemma ExactQuotient(a: int, b: int, q: int)
    requires b != 0 && b * q == a
    ensures a % b == 0 && a / b == q
  {
    var d, m := a / b, a % b;
    assert a == b * d + m && 0 <= m < Abs(b);
    assert b * (q - d) == m;
    MultipleAtLeastDivisor(b, q - d);
  }

  /** Folding by operator computes the value of the node: the fold's test
      `a % b == 0` holds exactly when the rounded quotient is exact, and then
      gives that quotient. */
  lemma FoldMulMeaning(op: string, a: int, b: int)
    ensures FoldMul(ByOperator, op, a, b) == MulValue(op, Some(a), Some(b))
  {
    if b != 0 {
      TruncRemMeaning(a, b);
      if op == "/" {
        if a % b == 0 {
          assert b * (a / b) - b * TruncDiv(a, b) == b * (a / b - TruncDiv(a, b));
          MultipleAtLeastDivisor(b, a / b - TruncDiv(a, b));
        }
        if b * TruncDiv(a, b) == a {
          ExactQuotient(a, b, TruncDiv(a, b));
        }
      }
    }
  }

  /** The value of an operator factor from the values of its base and exponent. */
  function FactorValue(op: string, b: Option<int>, x: Option<int>): Option<int> {
    if x.None? then None
    else if op == "**" then (if b.Some? && x.value >= 0 then Some(Pow(b.value, x.value)) else None)
    else if op == "-" then Some(-x.value)
    else if op == "~" then Some(BitNot(x.value))
    else None
  }

  /** The value of a ternary from the values of its comparison operands and branches. */
  function CondValue(op: string, a: Option<int>, b: Option<int>, t: Option<int>, e: Option<int>): Option<int> {
    if a.None? || b.None? || Compare(op, a.value, b.value).None? then None
    else if Compare(op, a.value, b.value).value then t
    else e
  }

  /** The integer value of an arithmetic expression under an assignment of
      identifiers, when it has one. Bitwise and shift operators, strings, calls
      and statements have no value here. A binary node without an operator and
      without a right operand is the wrapper the parser builds around a single
      operand, and has that operand's value. */
  function Eval(n: Node, env: map<string, int>): Option<int>
    decreases n
  {
    match n
    case Num(v) => Some(v)
    case Id(x) => if x in env then Some(env[x]) else None
    case Primary(v) => Eval(v, env)
    case FunctionGroup(e) => Eval(e, env)
    case Expr(c, rest) => if rest == [] then Eval(c, env) else None
    case BitwiseExpr(l, op, r) => if op == "" && r == Absent then Eval(l, env) else None
    case ShiftExpr(l, op, r) => if op == "" && r == Absent then Eval(l, env) else None
    case CondExpr(lc, op, rc, t, e) =>
      if op == "" then (if t == Absent then Eval(lc, env) else None)
      else CondValue(op, Eval(lc, env), Eval(rc, env), Eval(t, env), Eval(e, env))
    case AddExpr(l, op, r) =>
      if op == "" && r == Absent then Eval(l, env) else AddValue(op, Eval(l, env), Eval(r, env))
    case MulExpr(l, op, r) =>
      if op == "" && r == Absent then Eval(l, env) else MulValue(op, Eval(l, env), Eval(r, env))
    case Factor(b, op, x) =>
      if op == "" && x == Absent then Eval(b, env) else FactorValue(op, Eval(b, env), Eval(x, env))
    case _ => None
  }

  /** A wrapper node, which has no operator and no right operand, is rebuilt
      by each rule around its optimized operand and keeps its value. */
  lemma WrapperRulesKeepValue(l: Node, l': Node, env: map<string, int>)
    requires Eval(l, env).Some? && Eval(l', env) == Eval(l, env)
    ensures Eval(AddRule(l', "", Absent), env) == Eval(AddExpr(l), env)
    ensures Eval(MulRule(ByOperator, l', "", Absent), env) == Eval(MulExpr(l), env)
  {
    assert AddRule(l', "", Absent) == AddExpr(l');
    assert MulRule(ByOperator, l', "", Absent) == MulExpr(l');
  }

  /** The factor wrapper likewise. */
  lemma FactorWrapperKeepsValue(l: Node, l': Node, env: map<string, int>)
    requires Eval(l, env).Some? && Eval(l', env) == Eval(l, env)
    ensures Eval(FactorRule(l', "", Absent), env) == Eval(Factor(l), env)
  {
    assert FactorRule(l', "", Absent) == Factor(l');
  }

  /** The additive rule keeps the value of a binary node, given operands that
      kept theirs. */
  lemma AddRuleKeepsValue(op: string, l': Node, r': Node, a: int, b: int, env: map<string, int>)
    requires Eval(l', env) == Some(a) && Eval(r', env) == Some(b)
    requires op == "+" || op == "-"
    ensures Eval(AddRule(l', op, r'), env) == AddValue(op, Some(a), Some(b))
  {
    if l'.Num? && r'.Num? {
    } else if (op == "+" && (l' == Num(0) || r' == Num(0))) || (op == "-" && r' == Num(0)) {
      AddZeroKeepsValue(op, l', r', a, b, env);
    } else {
      assert AddRule(l', op, r') == AddExpr(l', op, r');
    }
  }

  /** The zero-dropping cases of the additive rule. */
  lemma AddZeroKeepsValue(op: string, l': Node, r': Node, a: int, b: int, env: map<string, int>)
    requires Eval(l', env) == Some(a) && Eval(r', env) == Some(b)
    requires !(l'.Num? && r'.Num?)
    requires (op == "+" && (l' == Num(0) || r' == Num(0))) || (op == "-" && r' == Num(0))
    ensures Eval(AddRule(l', op, r'), env) == AddValue(op, Some(a), Some(b))
  {
  }

  /** The multiplicative rule, folding by operator, likewise. */
  lemma MulRuleKeepsValue(op: string, l': Node, r': Node, a: int, b: int, env: map<string, int>)
    requires Eval(l', env) == Some(a) && Eval(r', env) == Some(b)
    requires MulValue(op, Some(a), Some(b)).Some?
    ensures Eval(MulRule(ByOperator, l', op, r'), env) == MulValue(op, Some(a), Some(b))
  {
    if op == "*" {
      TimesRuleKeepsValue(l', r', a, b, env);
    } else {
      QuotientRuleKeepsValue(op, l', r', a, b, env);
    }
  }

  /** The `/` and `%` cases of the multiplicative rule. */
  lemma QuotientRuleKeepsValue(op: string, l': Node, r': Node, a: int, b: int, env: map<string, int>)
    requires Eval(l', env) == Some(a) && Eval(r', env) == Some(b)
    requires op != "*" && MulValue(op, Some(a), Some(b)).Some?
    ensures Eval(MulRule(ByOperator, l', op, r'), env) == MulValue(op, Some(a), Some(b))
  {
    if l'.Num? && r'.Num? {
      assert l' == Num(a) && r' == Num(b);
      LiteralsFoldToValue(op, a, b, env);
    } else if op == "/" && r' == Num(1) {
      DivisionByOneKeepsValue(l', r', a, env);
    } else {
      QuotientKeptKeepsValue(op, l', r', a, b, env);
    }
  }

  /** A quotient or remainder the rule leaves in place. */
  lemma QuotientKeptKeepsValue(op: string, l': Node, r': Node, a: int, b: int, env: map<string, int>)
    requires Eval(l', env) == Some(a) && Eval(r', env) == Some(b)
    requires op == "/" || op == "%"
    requires !(l'.Num? && r'.Num?) && !(op == "/" && r' == Num(1))
    ensures Eval(MulRule(ByOperator, l', op, r'), env) == MulValue(op, Some(a), Some(b))
  {
    assert MulRule(ByOperator, l', op, r') == MulExpr(l', op, r');
  }

  /** Two literals fold to the value of the node. */
  lemma LiteralsFoldToValue(op: string, a: int, b: int, env: map<string, int>)
    requires MulValue(op, Some(a), Some(b)).Some?
    ensures Eval(MulRule(ByOperator, Num(a), op, Num(b)), env) == MulValue(op, Some(a), Some(b))
  {
    FoldMulMeaning(op, a, b);
    assert MulRule(ByOperator, Num(a), op, Num(b)) == Num(FoldMul(ByOperator, op, a, b).value);
  }

  /** Dropping a divisor of one. */
  lemma DivisionByOneKeepsValue(l': Node, r': Node, a: int, env: map<string, int>)
    requires Eval(l', env) == Some(a) && r' == Num(1) && !l'.Num?
    ensures Eval(MulRule(ByOperator, l', "/", r'), env) == MulValue("/", Some(a), Some(1))
  {
    assert TruncDiv(a, 1) == a;
  }

  /** The `*` case of the multiplicative rule. */
  lemma TimesRuleKeepsValue(l': Node, r': Node, a: int, b: int, env: map<string, int>)
    requires Eval(l', env) == Some(a) && Eval(r', env) == Some(b)
    ensures Eval(MulRule(ByOperator, l', "*", r'), env) == Some(a * b)
  {
    if l'.Num? && r'.Num? {
    } else if l' == Num(1) || r' == Num(1) || l' == Num(0) || r' == Num(0) {
      TimesIdentityKeepsValue(l', r', a, b, env);
    } else {
      assert MulRule(ByOperator, l', "*", r') == MulExpr(l', "*", r');
    }
  }

  /** Dropping a factor of one, or collapsing a factor of zero. */
  lemma TimesIdentityKeepsValue(l': Node, r': Node, a: int, b: int, env: map<string, int>)
    requires Eval(l', env) == Some(a) && Eval(r', env) == Some(b)
    requires !(l'.Num? && r'.Num?) && (l' == Num(1) || r' == Num(1) || l' == Num(0) || r' == Num(0))
    ensures Eval(MulRule(ByOperator, l', "*", r'), env) == Some(a * b)
  {
  }

  /** The factor rule likewise. */
  lemma FactorRuleKeepsValue(op: string, b': Node, x': Node, vb: Option<int>, x: int, env: map<string, int>)
    requires (vb.Some? ==> Eval(b', env) == vb) && Eval(x', env) == Some(x)
    requires op != "" && FactorValue(op, vb, Some(x)).Some?
    ensures Eval(FactorRule(b', op, x'), env) == FactorValue(op, vb, Some(x))
  {
    if op == "**" {
      PowerRuleKeepsValue(b', x', vb.value, x, env);
    } else {
      UnaryRuleKeepsValue(op, b', x', vb, x, env);
    }
  }

  /** The negation cases of the factor rule. */
  lemma UnaryRuleKeepsValue(op: string, b': Node, x': Node, vb: Option<int>, x: int, env: map<string, int>)
    requires (vb.Some? ==> Eval(b', env) == vb) && Eval(x', env) == Some(x)
    requires op == "-" || op == "~"
    ensures Eval(FactorRule(b', op, x'), env) == FactorValue(op, vb, Some(x))
  {
    if !x'.Num? {
      assert FactorRule(b', op, x') == Factor(b', op, x');
    }
  }

  /** The exponentiation case of the factor rule. */
  lemma PowerRuleKeepsValue(b': Node, x': Node, vb: int, x: nat, env: map<string, int>)
    requires Eval(b', env) == Some(vb) && Eval(x', env) == Some(x)
    ensures Eval(FactorRule(b', "**", x'), env) == Some(Pow(vb, x))
  {
    if b'.Num? && x'.Num? {
    } else if x' == Num(0) || x' == Num(1) {
      PowerIdentityKeepsValue(b', x', vb, x, env);
    } else {
      assert FactorRule(b', "**", x') == Factor(b', "**", x');
    }
  }

  /** Dropping an exponent of zero or one. */
  lemma PowerIdentityKeepsValue(b': Node, x': Node, vb: int, x: nat, env: map<string, int>)
    requires Eval(b', env) == Some(vb) && Eval(x', env) == Some(x)
    requires !(b'.Num? && x'.Num?) && (x' == Num(0) || x' == Num(1))
    ensures Eval(FactorRule(b', "**", x'), env) == Some(Pow(vb, x))
  {
    if x' == Num(1) {
      assert x == 1 && Pow(vb, 1) == vb;
    } else {
      assert x == 0;
    }
  }

  /** The conditional rule likewise; only the branch the comparison selects
      needs to have kept its value. */
  lemma CondRuleKeepsValue(lc: Node, op: string, rc: Node, t: Node, e: Node,
                           lc': Node, rc': Node, t': Node, e': Node, env: map<string, int>)
    requires Eval(CondExpr(lc, op, rc, t, e), env).Some?
    requires Eval(lc, env).Some? ==> Eval(lc', env) == Eval(lc, env)
    requires Eval(rc, env).Some? ==> Eval(rc', env) == Eval(rc, env)
    requires Eval(t, env).Some? ==> Eval(t', env) == Eval(t, env)
    requires Eval(e, env).Some? ==> Eval(e', env) == Eval(e, env)
    requires t == Absent ==> t' == Absent
    ensures Eval(CondRule(lc', op, rc', t', e'), env) == Eval(CondExpr(lc, op, rc, t, e), env)
  {
    var res := CondRule(lc', op, rc', t', e');
    if op != "" && lc'.Num? && rc'.Num? && Compare(op, lc'.value, rc'.value).Some? {
      assert Eval(lc', env) == Some(lc'.value);
    } else {
      assert res == CondExpr(lc', op, rc', t', e');
    }
  }

  /** Folding by operator never changes the value of an expression that has one. */
  lemma {:induction false} OptimizePreservesValue(n: Node, env: map<string, int>)
    requires Eval(n, env).Some?
    ensures Eval(Optimize(n, ByOperator), env) == Eval(n, env)
    decreases n
  {
    match n
    case Expr(c, rest) =>
      OptimizePreservesValue(c, env);
      assert Optimize(n, ByOperator) == Expr(Optimize(c, ByOperator), []);
    case CondExpr(lc, op, rc, t, e) =>
      if Eval(lc, env).Some? { OptimizePreservesValue(lc, env); }
      if Eval(rc, env).Some? { OptimizePreservesValue(rc, env); }
      if Eval(t, env).Some? { OptimizePreservesValue(t, env); }
      if Eval(e, env).Some? { OptimizePreservesValue(e, env); }
      CondRuleKeepsValue(lc, op, rc, t, e, Optimize(lc, ByOperator), Optimize(rc, ByOperator),
                         Optimize(t, ByOperator), Optimize(e, ByOperator), env);
    case AddExpr(l, op, r) =>
      OptimizePreservesValue(l, env);
      if op == "" && r == Absent {
        WrapperRulesKeepValue(l, Optimize(l, ByOperator), env);
      } else {
        OptimizePreservesValue(r, env);
        AddRuleKeepsValue(op, Optimize(l, ByOperator), Optimize(r, ByOperator), Eval(l, env).value, Eval(r, env).value, env);
      }
    case MulExpr(l, op, r) =>
      OptimizePreservesValue(l, env);
      if op == "" && r == Absent {
        WrapperRulesKeepValue(l, Optimize(l, ByOperator), env);
      } else {
        OptimizePreservesValue(r, env);
        MulRuleKeepsValue(op, Optimize(l, ByOperator), Optimize(r, ByOperator), Eval(l, env).value, Eval(r, env).value, env);
      }
    case Factor(b, op, x) =>
      if op == "" && x == Absent {
        OptimizePreservesValue(b, env);
        FactorWrapperKeepsValue(b, Optimize(b, ByOperator), env);
      } else {
        if Eval(b, env).Some? { OptimizePreservesValue(b, env); }
        OptimizePreservesValue(x, env);
        FactorRuleKeepsValue(op, Optimize(b, ByOperator), Optimize(x, ByOperator), Eval(b, env), Eval(x, env).value, env);
      }
    case Primary(_) =>
    case FunctionGroup(_) =>
    case BitwiseExpr(_, _, _) =>
    case ShiftExpr(_, _, _) =>
    case Num(_) =>
    case Id(_) =>
  }

  /** Folding as written changes the meaning of division: `6 / 2`, whose value
      is 3, becomes the literal 12. */
  lemma AsWrittenFoldsQuotientToProduct()
    ensures Eval(MulExpr(Num(6), "/", Num(2)), map[]) == Some(3)
    ensures Optimize(MulExpr(Num(6), "/", Num(2)), AsWritten) == Num(12)
  {
    NumFixed(6, AsWritten);
    NumFixed(2, AsWritten);
    assert Eval(Num(6), map[]) == Some(6) && Eval(Num(2), map[]) == Some(2);
    assert Optimize(MulExpr(Num(6), "/", Num(2)), AsWritten) == MulRule(AsWritten, Num(6), "/", Num(2));
  }

  /** and of remainder: `7 % 2`, whose value is 1, becomes the literal 14. */
  lemma AsWrittenFoldsRemainderToProduct()
    ensures Eval(MulExpr(Num(7), "%", Num(2)), map[]) == Some(1)
    ensures Optimize(MulExpr(Num(7), "%", Num(2)), AsWritten) == Num(14)
  {
    NumFixed(7, AsWritten);
    NumFixed(2, AsWritten);
    assert Eval(Num(7), map[]) == Some(7) && Eval(Num(2), map[]) == Some(2);
    assert Optimize(MulExpr(Num(7), "%", Num(2)), AsWritten) == MulRule(AsWritten, Num(7), "%", Num(2));
  }
}
