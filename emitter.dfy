/** The code generator as it runs: one object holding the output lines, the
    hoisted input code, the input counter, the uniquifier's name table and the
    set of declared parameter ranges, updated in place while the tree is
    walked.  Every method is proved to leave exactly the state, and return
    exactly the text, that the functions of `Generator` describe, so the
    properties proved there hold of this object. */
module Emitter {
  import opened Util
  import opened Core
  import Generator

  type Line = Generator.Line
  type GenState = Generator.GenState

  class Emitter {
    var names: map<string, nat>
    var output: seq<Generator.Line>
    var inputCode: seq<Generator.Line>
    var inputIndex: nat
    var instantiated: set<string>

    /** The generator's state as a value. */
    function State(): GenState
      reads this
    {
      Generator.GenState(names, output, inputCode, inputIndex, instantiated)
    }

    constructor()
      ensures State() == Generator.Initial
    {
      names := map[];
      output := [];
      inputCode := [];
      inputIndex := 0;
      instantiated := {};
    }

    /** The uniquifier: numbers a name on first use, then returns `name_k`. */
    method TargetName(name: string) returns (t: string)
      modifies this
      ensures (t, State()) == Generator.TargetName(name, old(State()))
    {
      if name !in names {
        names := names[name := |names| + 1];
      }
      t := Generator.Suffixed(name, names[name]);
    }

    method Push(line: Line)
      modifies this
      ensures State() == Generator.Push(old(State()), line)
    {
      output := output + [line];
    }

    /** Declares a parameter's range the first time the parameter is seen. */
    method Declare(p: string)
      modifies this
      ensures State() == Generator.Declare(p, old(State()))
    {
      if p !in instantiated {
        output := output + [Generator.Declaration(p)];
        instantiated := instantiated + {p};
      }
    }

    /** Queues one input statement and advances the input counter. */
    method Hoist(prompt: string)
      modifies this
      ensures State() == Generator.Hoist(old(State()), prompt)
    {
      inputCode := inputCode + [Generator.HoistedInput(prompt, inputIndex)];
      inputIndex := inputIndex + 1;
    }

    method Gen(n: Node) returns (text: string)
      modifies this
      ensures (text, State()) == Generator.Gen(n, old(State()))
      decreases n, 2
    {
      match n
      case FuncDef(_, _, _, _) => text := GenFuncDef(n);
      case PrintStmt(_) => text := GenPrint(n);
      case StepCall(_, _) => text := GenStepCall(n);
      case Expr(_, _) => text := GenExpr(n);
      case CondExpr(_, _, _, _, _) => text := GenCond(n);
      case BitwiseExpr(_, _, _) => text := GenBinary(n);
      case ShiftExpr(_, _, _) => text := GenBinary(n);
      case AddExpr(_, _, _) => text := GenBinary(n);
      case MulExpr(_, _, _) => text := GenBinary(n);
      case Factor(_, _, _) => text := GenFactor(n);
      case Primary(v) => text := Gen(v);
      case TimeCall(_, _) => text := GenTimeCall(n);
      case InputStmt(_) => text := GenInput(n);
      case FuncCall(_, _) => text := GenCall(n);
      case _ => text := GenLeaf(n);
    }

    /** Binary nodes: `(left op right)` when an operator is present, otherwise
        the left operand alone. */
    method GenBinary(n: Node) returns (text: string)
      requires n.BitwiseExpr? || n.ShiftExpr? || n.AddExpr? || n.MulExpr?
      modifies this
      ensures (text, State()) == Generator.Gen(n, old(State()))
      decreases n, 1
    {
      var single := if n.MulExpr? then n.right.Absent? else n.op == "";
      if single {
        text := Gen(n.left);
      } else {
        text := GenPair(n, n.left, n.op, n.right);
      }
    }

    /** Literals, identifiers, and values without a generator of their own. */
    method GenLeaf(n: Node) returns (text: string)
      requires !(n.FuncDef? || n.PrintStmt? || n.StepCall? || n.Expr? || n.CondExpr? || n.BitwiseExpr? || n.ShiftExpr?
                 || n.AddExpr? || n.MulExpr? || n.Factor? || n.Primary? || n.TimeCall? || n.InputStmt? || n.FuncCall?)
      modifies this
      ensures (text, State()) == Generator.Gen(n, old(State()))
      decreases n, 0
    {
      match n
      case Num(v) => text := IntToString(v);
      case StringLiteral(s) => text := Generator.JsonQuote(s);
      case CharLiteral(s) => text := Generator.CharText(s);
      case Id(name) => text := TargetName(name);
      case _ => text := Generator.DefaultText(n);
    }

    method GenFuncDef(n: Node) returns (text: string)
      requires n.FuncDef?
      modifies this
      ensures (text, State()) == Generator.Gen(n, old(State()))
      decreases n, 0
    {
      var f := TargetName(n.name);
      var p := TargetName(n.param);
      if n.body.SliceExpr? {
        GenSlice(n.body, f, p);
      }
      Declare(p);
      text := Generator.ObjectText;
    }

    /** Writes out a function whose body is a slice. */
    method GenSlice(body: Node, f: string, p: string)
      requires body.SliceExpr?
      modifies this
      ensures State() == Generator.GenSlice(body, f, p, old(State()))
      decreases body, 1
    {
      var es := GenAll(body, body.expressions);
      Push(Generator.Text(Generator.FunctionLine(f, p, Join(es, ", "))));
    }

    method GenPrint(n: Node) returns (text: string)
      requires n.PrintStmt?
      modifies this
      ensures (text, State()) == Generator.Gen(n, old(State()))
      decreases n, 0
    {
      var x := Gen(n.expr);
      Push(Generator.Text("funktionPrint(" + x + ");"));
      text := Generator.ObjectText;
    }

    method GenStepCall(n: Node) returns (text: string)
      requires n.StepCall?
      modifies this
      ensures (text, State()) == Generator.Gen(n, old(State()))
      decreases n, 0
    {
      var f := TargetName(Generator.CalleeName(n.expr));
      var v := Gen(n.stepValue);
      var a := TargetName(Generator.CalleeArg(n.expr));
      Push(Generator.Text("applyFunction(" + a + ", " + v + ", " + f + ");"));
      text := a + ".values[" + a + ".index]";
    }

    method GenExpr(n: Node) returns (text: string)
      requires n.Expr?
      modifies this
      ensures (text, State()) == Generator.Gen(n, old(State()))
      decreases n, 0
    {
      var x := Gen(n.condExpr);
      var xs := GenAll(n, n.rest);
      text := Join([Generator.ElementText(n.condExpr, x)] + xs, ",");
    }

    method GenCond(n: Node) returns (text: string)
      requires n.CondExpr?
      modifies this
      ensures (text, State()) == Generator.Gen(n, old(State()))
      decreases n, 0
    {
      if n.thenBranch.Absent? {
        text := Gen(n.leftCond);
      } else {
        var l := Gen(n.leftCond);
        var r := Gen(n.rightCond);
        var t := Gen(n.thenBranch);
        var e := Gen(n.elseBranch);
        text := "( " + l + " " + Generator.JsOperator(n.op) + " " + r + " ? " + t + " : " + e + ")";
      }
    }

    method GenFactor(n: Node) returns (text: string)
      requires n.Factor?
      modifies this
      ensures (text, State()) == Generator.Gen(n, old(State()))
      decreases n, 0
    {
      if n.op == "**" {
        var b := Gen(n.base);
        var x := Gen(n.exponent);
        text := "Math.pow(" + b + ", " + x + ")";
      } else if n.op == "-" || n.op == "~" {
        var x := Gen(n.exponent);
        text := "(" + n.op + x + ")";
      } else {
        text := Gen(n.base);
      }
    }

    method GenTimeCall(n: Node) returns (text: string)
      requires n.TimeCall?
      modifies this
      ensures (text, State()) == Generator.Gen(n, old(State()))
      decreases n, 0
    {
      var c := Gen(n.funcCall);
      var t := Gen(n.timeValue);
      text := c + ".values.slice(0, " + t + ")";
    }

    method GenInput(n: Node) returns (text: string)
      requires n.InputStmt?
      modifies this
      ensures (text, State()) == Generator.Gen(n, old(State()))
      decreases n, 0
    {
      var q := "undefined";
      if n.prompt.List? && |n.prompt.items| > 0 {
        q := Gen(n.prompt.items[0]);
      }
      text := Generator.InputVar(inputIndex);
      Hoist(q);
    }

    method GenCall(n: Node) returns (text: string)
      requires n.FuncCall?
      modifies this
      ensures (text, State()) == Generator.Gen(n, old(State()))
      decreases n, 0
    {
      var f := TargetName(n.name);
      var a := Gen(n.arg);
      text := f + "(" + a + ")";
    }

    method GenPair(parent: Node, l: Node, op: string, r: Node) returns (text: string)
      requires l < parent && r < parent
      modifies this
      ensures (text, State()) == Generator.GenPair(parent, l, op, r, old(State()))
      decreases parent, 0
    {
      var a := Gen(l);
      var b := Gen(r);
      text := Generator.Parenthesized(a, op, b);
    }

    /** Generates the children of `parent` in order, collecting their texts. */
    method GenAll(parent: Node, items: seq<Node>) returns (texts: seq<string>)
      requires forall i :: 0 <= i < |items| ==> items[i] < parent
      modifies this
      ensures (texts, State()) == Generator.GenAll(parent, items, old(State()))
      decreases parent, 0, |items|
    {
      texts := [];
      var i := 0;
      while i < |items|
        invariant 0 <= i <= |items|
        invariant Generator.GenAll(parent, items, old(State())).1 == Generator.GenAll(parent, items[i..], State()).1
        invariant Generator.GenAll(parent, items, old(State())).0 == texts + Generator.GenAll(parent, items[i..], State()).0
      {
        ghost var before := State();
        var t := Gen(items[i]);
        assert items[i..][1..] == items[i + 1..];
        assert Generator.GenAll(parent, items[i..], before)
          == ([Generator.ElementText(items[i], t)] + Generator.GenAll(parent, items[i + 1..], State()).0,
              Generator.GenAll(parent, items[i + 1..], State()).1);
        texts := texts + [Generator.ElementText(items[i], t)];
        i := i + 1;
      }
      assert texts + [] == texts;
    }

    /** The runtime defaults taken from the first global range. */
    method RangeDefaults(globalRange: Node) returns (start: string, end: string, step: string)
      modifies this
      ensures (start, end, step, State()) == Generator.RangeDefaults(globalRange, old(State()))
    {
      var first := Generator.First(globalRange);
      var range := if first.GlobalRange? then first.range else Absent;
      var timestep := if first.GlobalRange? then Generator.First(first.timestep) else Absent;
      if range.Absent? {
        start, end := "1", "5";
      } else {
        start := Gen(Generator.RangeStart(range));
        end := Gen(Generator.RangeEnd(range));
      }
      if timestep.Absent? {
        step := "1";
      } else {
        step := Gen(Generator.TimestepValue(timestep));
      }
    }
  }

  /** The lines of a program: defaults, import header, runtime block, the
      statements in order, the closing line, and finally the hoisted input code
      moved in front of the output. */
  method ProgramLines(globalRange: Node, statements: seq<Node>) returns (lines: seq<Line>)
    ensures lines == Generator.ProgramLines(globalRange, statements)
  {
    var e := new Emitter();
    var start, end, step := e.RangeDefaults(globalRange);
    ghost var s1 := e.State();
    e.inputCode := e.inputCode + [Generator.Header];
    e.Push(Generator.Runtime(start, end, step));
    assert e.State() == Generator.ProgramStart(start, end, step, s1);
    var _ := e.GenAll(Program(globalRange, statements), statements);
    e.Push(Generator.Text(Generator.CloseLine));
    lines := e.inputCode + e.output;
  }

  /** The text of a program. */
  method GenerateProgram(globalRange: Node, statements: seq<Node>) returns (text: string)
    ensures text == Generator.Generate(Program(globalRange, statements))
  {
    var lines := ProgramLines(globalRange, statements);
    text := Join(Generator.RenderAll(lines), "\n");
  }

  /** The text generated from a root that is not a program: only the lines its
      generator pushes. */
  method GenerateOther(root: Node) returns (text: string)
    requires !root.Program?
    ensures text == Generator.Generate(root)
  {
    var e := new Emitter();
    var _ := e.Gen(root);
    text := Join(Generator.RenderAll(e.output), "\n");
  }

  /** The generated text, as `Generator.Generate` specifies it. */
  method Generate(program: Node) returns (text: string)
    ensures text == Generator.Generate(program)
  {
    if program.Program? {
      text := GenerateProgram(program.globalRange, program.statements);
    } else {
      text := GenerateOther(program);
    }
  }
}
