/** The code generator: turns an analysed (and optionally optimised) tree into
    JavaScript text.

    Generation threads a `GenState` through the tree in evaluation order: the
    name uniquifier's map, the output lines, the hoisted input statements, the
    input counter and the set of parameter ranges already declared. `Gen`
    gives the text a node stands for together with the new state; statement
    nodes contribute output lines instead of text. */
module Generator {
  import opened Util
  import opened Core

  /** The import header that opens every generated file, line by line. */
  const ImportHeaderLines: seq<string> := [
    "        import { createInterface } from \"node:readline/promises\";",
    "        import { stdin as input, stdout as output } from \"node:process\";",
    "        const rl = createInterface({ input, output });"]

  /** The runtime block after the `generateRange` signature, line by line:
      `generateRange`, `initializeMutableRange`, `funktionPrint` and `applyFunction`. */
  const RuntimeLines: seq<string> := [
    "          if (end < start) step *= -1;",
    "          return {",
    "            start,",
    "            end,",
    "            step",
    "          };",
    "        }",
    "",
    "        function initializeMutableRange(timestepRange = generateRange()) {",
    "          return {",
    "            timestepRange,",
    "            values: [],",
    "            index: -1,",
    "            size: 0",
    "          };",
    "        }",
    "",
    "        function funktionPrint(value) {",
    "          if (Array.isArray(value)) {",
    "            console.log(value.join('\\n'));",
    "          } ",
    "          else if (typeof value === \"object\") {",
    "            console.log(value.values.join('\\n'));",
    "          }",
    "          else {",
    "            console.log(value);",
    "          }",
    "        }",
    "",
    "        function applyFunction(gen, iterations, f) {",
    "          let currentVal = gen.timestepRange.start + gen.timestepRange.step * (gen.index + 1);",
    "          if (gen.size === 0) {",
    "            gen.size++;",
    "            gen.index++;",
    "            const result = f(currentVal);",
    "            gen.values.push(Array.isArray(result) ? result.join(' ') : result);",
    "            currentVal += gen.timestepRange.step;",
    "          }",
    "          if (gen.timestepRange.step > 0) {",
    "            while (currentVal <= gen.timestepRange.end && iterations > 0) {",
    "              gen.size++;",
    "              gen.index++;",
    "              const result = f(currentVal);",
    "              gen.values.push(Array.isArray(result) ? result.join(' ') : result);",
    "              currentVal += gen.timestepRange.step;",
    "              iterations--;",
    "            }",
    "          } else {",
    "            while (currentVal >= gen.timestepRange.end && iterations > 0) {",
    "              gen.size++;",
    "              gen.index++;",
    "              const result = f(currentVal);",
    "              gen.values.push(Array.isArray(result) ? result.join(' ') : result);",
    "              currentVal += gen.timestepRange.step;",
    "              iterations--;",
    "            }",
    "          }",
    "        }"]

  /** What a node without a generator renders as in a template: its JavaScript string form. */
  const ObjectText: string := "[object Object]"
  const CloseLine: string := "rl.close();"

  /** An emitted line (or block of lines), kept symbolic until the program is
      rendered: the import header, a hoisted input statement, the runtime
      block, a parameter range declaration, or any other statement line. */
  datatype Line =
    | Header
    | HoistedInput(prompt: string, index: nat)
    | Runtime(start: string, end: string, step: string)
    | Declaration(param: string)
    | Text(text: string)

  function Render(l: Line): string {
    match l
    case Header => ImportHeader()
    case HoistedInput(prompt, k) => InputLine(prompt, k)
    case Runtime(start, end, step) => RuntimeBlock(start, end, step)
    case Declaration(p) => LetLine(p)
    case Text(s) => s
  }

  function RenderAll(lines: seq<Line>): (r: seq<string>)
    ensures |r| == |lines| && forall i :: 0 <= i < |lines| ==> r[i] == Render(lines[i])
  {
    seq(|lines|, i requires 0 <= i < |lines| => Render(lines[i]))
  }

  datatype GenState = GenState(
    names: map<string, nat>,
    output: seq<Line>,
    inputCode: seq<Line>,
    inputIndex: nat,
    instantiated: set<string>)

  const Initial: GenState := GenState(map[], [], [], 0, {})

  // ---------------------------------------------------------------------------
  // Texts

  /** A template block: it opens on a new line and closes on an indented one. */
  function Block(lines: seq<string>): string {
    Join([""] + lines + ["      "], "\n")
  }

  function ImportHeader(): string { Block(ImportHeaderLines) }

  function RuntimeBlock(start: string, end: string, step: string): string {
    Block(["        function generateRange(start = " + start + ", end = " + end + ", step = " + step + ") {"] + RuntimeLines)
  }

  function InputLine(prompt: string, k: nat): string {
    Block(["        console.log(" + prompt + ");",
           "        const inputVar__" + NatToString(k) + " = await rl.question(\"Input: \");"])
  }

  function InputVar(k: nat): string { "inputVar__" + NatToString(k) }

  function LetLine(p: string): string { "let " + p + " = initializeMutableRange();" }

  function FunctionLine(f: string, p: string, body: string): string {
    "function " + f + "(" + p + ") { return [" + body + "]; }"
  }

  function Parenthesized(l: string, op: string, r: string): string { "(" + l + " " + op + " " + r + ")" }

  /** Comparison operators of the source language that differ in JavaScript. */
  function JsOperator(op: string): string {
    if op == "==" then "===" else if op == "!=" then "!==" else op
  }

  function HexDigit(d: nat): char
    requires d < 16
  {
    if d < 10 then DigitChar(d) else "abcdef"[d - 10]
  }

  /** How `JSON.stringify` writes one character inside a string. */
  function JsonEscape(c: char): string {
    if c == '"' then "\\\""
    else if c == '\\' then "\\\\"
    else if c == '\n' then "\\n"
    else if c == '\r' then "\\r"
    else if c == '\t' then "\\t"
    else if c == '\U{8}' then "\\b"
    else if c == '\U{C}' then "\\f"
    else if (c as int) < 0x20 then "\\u00" + [HexDigit((c as int) / 16), HexDigit((c as int) % 16)]
    else [c]
  }

  function JsonEscapeAll(s: string): string
    decreases |s|
  {
    if s == [] then "" else JsonEscape(s[0]) + JsonEscapeAll(s[1..])
  }

  /** `JSON.stringify` of a string. */
  function JsonQuote(s: string): string { "\"" + JsonEscapeAll(s) + "\"" }

  predicate Plain(c: char) {
    c != '"' && c != '\\' && (c as int) >= 0x20
  }

  /** A string of ordinary characters is quoted as it is. */
  lemma {:induction false} JsonQuotePlain(s: string)
    requires forall i :: 0 <= i < |s| ==> Plain(s[i])
    ensures JsonQuote(s) == "\"" + s + "\""
  {
    JsonEscapeAllPlain(s);
  }

  lemma {:induction false} JsonEscapeAllPlain(s: string)
    requires forall i :: 0 <= i < |s| ==> Plain(s[i])
    ensures JsonEscapeAll(s) == s
    decreases |s|
  {
    if s != [] {
      JsonEscapeAllPlain(s[1..]);
      assert s == [s[0]] + s[1..];
    }
  }

  /** Escaping works character by character, so it distributes over concatenation. */
  lemma {:induction false} JsonEscapeAllConcat(s: string, t: string)
    ensures JsonEscapeAll(s + t) == JsonEscapeAll(s) + JsonEscapeAll(t)
    decreases |s|
  {
    if s == [] {
      assert s + t == t;
    } else {
      assert (s + t)[0] == s[0] && (s + t)[1..] == s[1..] + t;
      JsonEscapeAllConcat(s[1..], t);
    }
  }

  /** The two characters that would end or break a string literal are
      escaped with a backslash, and so are the named control characters;
      other control characters become `\u` escapes. */
  lemma JsonEscapeSpecials(c: char)
    ensures JsonEscape('"') == "\\\"" && JsonEscape('\\') == "\\\\"
    ensures JsonEscape('\n') == "\\n" && JsonEscape('\t') == "\\t"
    ensures (c as int) < 0x20 ==> |JsonEscape(c)| >= 2 && JsonEscape(c)[0] == '\\'
    ensures Plain(c) ==> JsonEscape(c) == [c]
  {
  }

  /** Every escaped character other than a plain one begins with a
      backslash, so a quote never appears unescaped: a quote in the result
      of escaping is always preceded by a backslash. */
  lemma {:induction false} JsonEscapeAllGuardsQuotes(s: string, i: nat)
    requires i < |JsonEscapeAll(s)| && JsonEscapeAll(s)[i] == '"'
    ensures i > 0 && JsonEscapeAll(s)[i - 1] == '\\'
    decreases |s|
  {
    var e := JsonEscape(s[0]);
    assert JsonEscapeAll(s) == e + JsonEscapeAll(s[1..]);
    if i < |e| {
      assert e == "\\\"" && i == 1;
    } else {
      JsonEscapeAllGuardsQuotes(s[1..], i - |e|);
    }
  }

  /** The first UTF-16 code unit of a code point beyond the Basic Multilingual
      Plane: the high surrogate of its pair. */
  function HighSurrogate(c: char): nat
    requires (c as int) >= 0x1_0000
  {
    0xD800 + ((c as int) - 0x1_0000) / 0x400
  }

  /** Four lower-case hexadecimal digits, as a `\u` escape writes them. */
  function Hex4(v: nat): string
    requires v < 0x1_0000
  {
    [HexDigit(v / 0x1000), HexDigit(v / 0x100 % 16), HexDigit(v / 16 % 16), HexDigit(v % 16)]
  }

  /** `JSON.stringify` of the first UTF-16 code unit of `s`. A character of the
      Basic Multilingual Plane is that unit; a character beyond it is two
      units, the first a lone high surrogate, which is written as a `\u`
      escape; the empty string gives the empty string literal. */
  function CharText(s: string): string {
    if |s| == 0 then JsonQuote("")
    else if (s[0] as int) < 0x1_0000 then JsonQuote([s[0]])
    else "\"\\u" + Hex4(HighSurrogate(s[0])) + "\""
  }

  /** The JavaScript string form of a value that has no generator: arrays join
      their elements with commas (an undefined element gives nothing), other
      objects are `[object Object]`. */
  function DefaultText(n: Node): string {
    match n
    case Absent => "undefined"
    case Raw(s) => s
    case List(items) =>
      Join(seq(|items|, i requires 0 <= i < |items| => if items[i].Absent? then "" else DefaultText(items[i])), ",")
    case _ => ObjectText
  }

  function CalleeName(callee: Node): string {
    match callee
    case Callee(name, _) => name
    case _ => "undefined"
  }

  function CalleeArg(callee: Node): string {
    match callee
    case Callee(_, arg) => arg
    case _ => "undefined"
  }

  // ---------------------------------------------------------------------------
  // State updates

  /** The uniquifier: the name with the number it was first seen as; a name
      seen for the first time gets the next number. */
  function Suffixed(name: string, k: nat): string { name + "_" + NatToString(k) }

  function TargetName(name: string, st: GenState): (r: (string, GenState))
    ensures name in r.1.names && r.0 == Suffixed(name, r.1.names[name])
    ensures r.1.output == st.output && r.1.inputCode == st.inputCode
    ensures r.1.inputIndex == st.inputIndex && r.1.instantiated == st.instantiated
  {
    if name in st.names then (Suffixed(name, st.names[name]), st)
    else (Suffixed(name, |st.names| + 1), st.(names := st.names[name := |st.names| + 1]))
  }

  function Push(st: GenState, line: Line): GenState {
    st.(output := st.output + [line])
  }

  /** Declares the parameter's range unless it was declared before. */
  function Declare(p: string, st: GenState): GenState {
    if p in st.instantiated then st
    else Push(st, Declaration(p)).(instantiated := st.instantiated + {p})
  }

  /** Hoists one input statement with the given prompt text. */
  function Hoist(st: GenState, prompt: string): GenState {
    st.(inputCode := st.inputCode + [HoistedInput(prompt, st.inputIndex)], inputIndex := st.inputIndex + 1)
  }

  // ---------------------------------------------------------------------------
  // Generation

  function Gen(n: Node, st: GenState): (string, GenState)
    decreases n, 1
  {
    match n
    case FuncDef(_, _, _, _) => GenFuncDef(n, st)
    case PrintStmt(_) => GenPrint(n, st)
    case StepCall(_, _) => GenStepCall(n, st)
    case Expr(_, _) => GenExpr(n, st)
    case CondExpr(_, _, _, _, _) => GenCond(n, st)
    case BitwiseExpr(l, op, r) => if op == "" then Gen(l, st) else GenPair(n, l, op, r, st)
    case ShiftExpr(l, op, r) => if op == "" then Gen(l, st) else GenPair(n, l, op, r, st)
    case AddExpr(l, op, r) => if op == "" then Gen(l, st) else GenPair(n, l, op, r, st)
    case MulExpr(l, op, r) => if r.Absent? then Gen(l, st) else GenPair(n, l, op, r, st)
    case Factor(_, _, _) => GenFactor(n, st)
    case Primary(v) => Gen(v, st)
    case TimeCall(_, _) => GenTimeCall(n, st)
    case InputStmt(_) => GenInput(n, st)
    case Num(v) => (IntToString(v), st)
    case StringLiteral(s) => (JsonQuote(s), st)
    case CharLiteral(s) => (CharText(s), st)
    case Id(name) => TargetName(name, st)
    case FuncCall(_, _) => GenCall(n, st)
    case _ => (DefaultText(n), st)
  }

  /** A definition: names the function and its parameter, writes the function
      out when its body is a slice, and declares the parameter's range once. */
  function GenFuncDef(n: Node, st: GenState): (string, GenState)
    requires n.FuncDef?
    decreases n, 0
  {
    var (f, s1) := TargetName(n.name, st);
    var (p, s2) := TargetName(n.param, s1);
    var s3 := if n.body.SliceExpr? then GenSlice(n.body, f, p, s2) else s2;
    (ObjectText, Declare(p, s3))
  }

  function GenPrint(n: Node, st: GenState): (string, GenState)
    requires n.PrintStmt?
    decreases n, 0
  {
    var (x, s1) := Gen(n.expr, st);
    (ObjectText, Push(s1, Text("funktionPrint(" + x + ");")))
  }

  /** A step call: advances the argument's range by the step count through
      the function, and stands for the range's current value. */
  function GenStepCall(n: Node, st: GenState): (string, GenState)
    requires n.StepCall?
    decreases n, 0
  {
    var (f, s1) := TargetName(CalleeName(n.expr), st);
    var (v, s2) := Gen(n.stepValue, s1);
    var (a, s3) := TargetName(CalleeArg(n.expr), s2);
    (a + ".values[" + a + ".index]", Push(s3, Text("applyFunction(" + a + ", " + v + ", " + f + ");")))
  }

  /** An expression list: its values joined by commas. */
  function GenExpr(n: Node, st: GenState): (string, GenState)
    requires n.Expr?
    decreases n, 0
  {
    var (x, s1) := Gen(n.condExpr, st);
    var (xs, s2) := GenAll(n, n.rest, s1);
    (Join([ElementText(n.condExpr, x)] + xs, ","), s2)
  }

  /** A conditional with a then-branch becomes a JavaScript ternary; otherwise
      it stands for its first operand. */
  function GenCond(n: Node, st: GenState): (string, GenState)
    requires n.CondExpr?
    decreases n, 0
  {
    if n.thenBranch.Absent? then Gen(n.leftCond, st)
    else
      var (l, s1) := Gen(n.leftCond, st);
      var (r, s2) := Gen(n.rightCond, s1);
      var (t, s3) := Gen(n.thenBranch, s2);
      var (e, s4) := Gen(n.elseBranch, s3);
      ("( " + l + " " + JsOperator(n.op) + " " + r + " ? " + t + " : " + e + ")", s4)
  }

  function GenFactor(n: Node, st: GenState): (string, GenState)
    requires n.Factor?
    decreases n, 0
  {
    if n.op == "**" then
      var (b, s1) := Gen(n.base, st);
      var (x, s2) := Gen(n.exponent, s1);
      ("Math.pow(" + b + ", " + x + ")", s2)
    else if n.op == "-" || n.op == "~" then
      var (x, s1) := Gen(n.exponent, st);
      ("(" + n.op + x + ")", s1)
    else Gen(n.base, st)
  }

  function GenTimeCall(n: Node, st: GenState): (string, GenState)
    requires n.TimeCall?
    decreases n, 0
  {
    var (c, s1) := Gen(n.funcCall, st);
    var (t, s2) := Gen(n.timeValue, s1);
    (c + ".values.slice(0, " + t + ")", s2)
  }

  /** An input site: hoists a statement that prints the first prompt and
      reads into a numbered temporary, and stands for that temporary. */
  function GenInput(n: Node, st: GenState): (string, GenState)
    requires n.InputStmt?
    decreases n, 0
  {
    var (q, s1) := if n.prompt.List? && |n.prompt.items| > 0 then Gen(n.prompt.items[0], st) else ("undefined", st);
    (InputVar(s1.inputIndex), Hoist(s1, q))
  }

  function GenCall(n: Node, st: GenState): (string, GenState)
    requires n.FuncCall?
    decreases n, 0
  {
    var (f, s1) := TargetName(n.name, st);
    var (a, s2) := Gen(n.arg, s1);
    (f + "(" + a + ")", s2)
  }

  /** A binary node of `parent` with its operator: `(left op right)`. */
  function GenPair(parent: Node, l: Node, op: string, r: Node, st: GenState): (string, GenState)
    requires l < parent && r < parent
    decreases parent, 0
  {
    var (a, s1) := Gen(l, st);
    var (b, s2) := Gen(r, s1);
    (Parenthesized(a, op, b), s2)
  }

  /** A function whose body is a slice is written out, returning the slice's values. */
  function GenSlice(body: Node, f: string, p: string, st: GenState): GenState
    requires body.SliceExpr?
    decreases body, 1
  {
    var (es, s) := GenAll(body, body.expressions, st);
    Push(s, Text(FunctionLine(f, p, Join(es, ", "))))
  }

  /** How an array join writes the value generated for `item`: a missing node
      generates `undefined`, which a join writes as nothing. */
  function ElementText(item: Node, text: string): string {
    if item.Absent? then "" else text
  }

  /** Generates the children of `parent` in order, as the elements of the
      array a join turns into text. */
  function GenAll(parent: Node, items: seq<Node>, st: GenState): (r: (seq<string>, GenState))
    requires forall i :: 0 <= i < |items| ==> items[i] < parent
    ensures |r.0| == |items|
    decreases parent, 0, |items|
  {
    if items == [] then ([], st)
    else
      var (t, s1) := Gen(items[0], st);
      var (ts, s2) := GenAll(parent, items[1..], s1);
      ([ElementText(items[0], t)] + ts, s2)
  }

  // ---------------------------------------------------------------------------
  // Programs

  /** The first element of an array slot, or undefined. */
  function First(n: Node): Node {
    if n.List? && |n.items| > 0 then n.items[0] else Absent
  }

  function RangeStart(range: Node): Node {
    match range
    case NumRange(s, _) => s
    case CharRange(s, _) => s
    case _ => Absent
  }

  function RangeEnd(range: Node): Node {
    match range
    case NumRange(_, e) => First(e)
    case CharRange(_, e) => First(e)
    case _ => Absent
  }

  function TimestepValue(t: Node): Node {
    match t
    case Timestep(v) => v
    case _ => Absent
  }

  /** The `generateRange` defaults: start, end and step of the first global
      range when there is one, otherwise 1, 5 and 1. */
  function RangeDefaults(globalRange: Node, st: GenState): (string, string, string, GenState) {
    var first := First(globalRange);
    var range := if first.GlobalRange? then first.range else Absent;
    var timestep := if first.GlobalRange? then First(first.timestep) else Absent;
    var (start, s1) := if range.Absent? then ("1", st) else Gen(RangeStart(range), st);
    var (end, s2) := if range.Absent? then ("5", s1) else Gen(RangeEnd(range), s1);
    var (step, s3) := if timestep.Absent? then ("1", s2) else Gen(TimestepValue(timestep), s2);
    (start, end, step, s3)
  }

  /** The state in which the statements are generated: the import header
      queued before the hoisted inputs and the runtime block as the first output. */
  function ProgramStart(start: string, end: string, step: string, st: GenState): GenState {
    Push(st.(inputCode := st.inputCode + [Header]), Runtime(start, end, step))
  }

  /** The lines of a generated program: the hoisted input code, then the
      output lines, then the closing line. */
  function ProgramLines(globalRange: Node, statements: seq<Node>): seq<Line> {
    var (start, end, step, s1) := RangeDefaults(globalRange, Initial);
    var s2 := GenAll(Program(globalRange, statements), statements, ProgramStart(start, end, step, s1)).1;
    s2.inputCode + s2.output + [Text(CloseLine)]
  }

  /** The generated text; a root that is not a program contributes only the
      output lines its generator pushes. */
  function Generate(program: Node): string {
    match program
    case Program(globalRange, statements) => Join(RenderAll(ProgramLines(globalRange, statements)), "\n")
    case _ => Join(RenderAll(Gen(program, Initial).1.output), "\n")
  }

  // ---------------------------------------------------------------------------
  // State invariants

  /** The uniquifier numbers its names 1, 2, 3, ... without repeats. */
  predicate NamesValid(names: map<string, nat>) {
    (forall k :: k in names ==> 1 <= names[k] <= |names|)
    && (forall a, b :: a in names && b in names && names[a] == names[b] ==> a == b)
  }

  function Occurrences(lines: seq<Line>, line: Line): nat
    decreases |lines|
  {
    if lines == [] then 0
    else Occurrences(lines[..|lines| - 1], line) + (if lines[|lines| - 1] == line then 1 else 0)
  }

  /** Each declared parameter range has exactly one declaration line, and no
      other range is declared. */
  ghost predicate LetLinesOnce(st: GenState) {
    forall t :: Occurrences(st.output, Declaration(t)) == (if t in st.instantiated then 1 else 0)
  }

  /** The input code holds only the header and hoisted input statements. */
  predicate Hoisted(lines: seq<Line>) {
    forall i :: 0 <= i < |lines| ==> lines[i].Header? || lines[i].HoistedInput?
  }

  ghost predicate Good(st: GenState) {
    NamesValid(st.names) && LetLinesOnce(st) && Hoisted(st.inputCode)
  }

  /** Generation only appends: output and input code are extended, the counter
      counts the hoisted entries, names keep their numbers, declarations stay. */
  predicate Grows(a: GenState, b: GenState) {
    a.output <= b.output && a.inputCode <= b.inputCode && a.inputIndex <= b.inputIndex
    && |b.inputCode| - |a.inputCode| == b.inputIndex - a.inputIndex
    && (forall k :: k in a.names ==> k in b.names && b.names[k] == a.names[k])
    && a.instantiated <= b.instantiated
  }

  ghost predicate Advance(a: GenState, b: GenState) {
    Grows(a, b) && (Good(a) ==> Good(b))
  }

  lemma AdvanceTransitive(a: GenState, b: GenState, c: GenState)
    requires Advance(a, b) && Advance(b, c)
    ensures Advance(a, c)
  {
  }

  lemma OccurrencesAppend(lines: seq<Line>, last: Line, line: Line)
    ensures Occurrences(lines + [last], line) == Occurrences(lines, line) + (if last == line then 1 else 0)
  {
    assert (lines + [last])[..|lines|] == lines;
  }

  lemma {:induction false} OccurrencesConcat(a: seq<Line>, b: seq<Line>, line: Line)
    ensures Occurrences(a + b, line) == Occurrences(a, line) + Occurrences(b, line)
    decreases |b|
  {
    if b == [] {
      assert a + b == a;
    } else {
      var init := b[..|b| - 1];
      assert a + b == (a + init) + [b[|b| - 1]];
      assert b == init + [b[|b| - 1]];
      OccurrencesAppend(a + init, b[|b| - 1], line);
      OccurrencesAppend(init, b[|b| - 1], line);
      OccurrencesConcat(a, init, line);
    }
  }

  /** A fresh name gets the next number, and the numbering stays valid. */
  lemma TargetNameNumbering(name: string, st: GenState)
    requires NamesValid(st.names)
    ensures NamesValid(TargetName(name, st).1.names)
    ensures name !in st.names ==>
      TargetName(name, st) == (Suffixed(name, |st.names| + 1), st.(names := st.names[name := |st.names| + 1]))
    ensures name in st.names ==> TargetName(name, st) == (Suffixed(name, st.names[name]), st)
  {
    if name !in st.names {
      var m := st.names[name := |st.names| + 1];
      assert m.Keys == st.names.Keys + {name};
      assert |m| == |st.names| + 1;
    }
  }

  /** Asking again for a name's target gives the same text and changes nothing. */
  lemma TargetNameRepeat(name: string, st: GenState)
    ensures TargetName(name, TargetName(name, st).1) == TargetName(name, st)
  {
  }

  /** In a name followed by `_` and digits, every `_` lies within the name or is the separator. */
  lemma UnderscoreBeforeDigits(x: string, d: string, i: nat)
    requires forall k :: 0 <= k < |d| ==> IsDigit(d[k])
    requires i < |x| + 1 + |d| && (x + "_" + d)[i] == '_'
    ensures i <= |x|
  {
  }

  /** Suffixed names determine both the name and the number. */
  lemma SuffixedInjective(a: string, j: nat, b: string, k: nat)
    requires Suffixed(a, j) == Suffixed(b, k)
    ensures a == b && j == k
  {
    var s := Suffixed(a, j);
    assert s == b + "_" + NatToString(k);
    UnderscoreBeforeDigits(a, NatToString(j), |b|);
    UnderscoreBeforeDigits(b, NatToString(k), |a|);
    assert a == s[..|a|] == b;
    assert NatToString(j) == s[|a| + 1..] == NatToString(k);
    NatToStringInjective(j, k);
  }

  /** Distinct names get distinct target names, whatever was generated between. */
  lemma TargetNamesDistinct(a: string, b: string, st: GenState, later: GenState)
    requires a != b
    ensures TargetName(a, st).0 != TargetName(b, later).0
  {
    if TargetName(a, st).0 == TargetName(b, later).0 {
      SuffixedInjective(a, TargetName(a, st).1.names[a], b, TargetName(b, later).1.names[b]);
    }
  }

  lemma TargetNameAdvances(name: string, st: GenState)
    ensures Advance(st, TargetName(name, st).1)
  {
    if NamesValid(st.names) {
      TargetNameNumbering(name, st);
    }
  }

  /** Pushing a line that is not a declaration keeps the invariants. */
  lemma PushAdvances(st: GenState, line: Line)
    requires !line.Declaration?
    ensures Advance(st, Push(st, line))
  {
    forall t
      ensures Occurrences(st.output + [line], Declaration(t)) == Occurrences(st.output, Declaration(t))
    {
      OccurrencesAppend(st.output, line, Declaration(t));
    }
  }

  lemma DeclareAdvances(p: string, st: GenState)
    ensures Advance(st, Declare(p, st)) && p in Declare(p, st).instantiated
  {
    forall t
      ensures Occurrences(st.output + [Declaration(p)], Declaration(t))
           == Occurrences(st.output, Declaration(t)) + (if t == p then 1 else 0)
    {
      OccurrencesAppend(st.output, Declaration(p), Declaration(t));
    }
  }

  lemma HoistAdvances(st: GenState, prompt: string)
    ensures Advance(st, Hoist(st, prompt))
  {
  }

  /** Generating any node only appends and keeps the invariants. */
  lemma {:induction false} GenAdvances(n: Node, st: GenState)
    ensures Advance(st, Gen(n, st).1)
    decreases n, 1
  {
    match n
    case FuncDef(_, _, _, _) => FuncDefAdvances(n, st);
    case PrintStmt(_) => PrintAdvances(n, st);
    case StepCall(_, _) => StepCallAdvances(n, st);
    case Expr(_, _) => ExprAdvances(n, st);
    case CondExpr(_, _, _, _, _) => CondAdvances(n, st);
    case BitwiseExpr(l, op, r) =>
      if op == "" { GenAdvances(l, st); } else { GenPairAdvances(n, l, op, r, st); }
    case ShiftExpr(l, op, r) =>
      if op == "" { GenAdvances(l, st); } else { GenPairAdvances(n, l, op, r, st); }
    case AddExpr(l, op, r) =>
      if op == "" { GenAdvances(l, st); } else { GenPairAdvances(n, l, op, r, st); }
    case MulExpr(l, op, r) =>
      if r.Absent? { GenAdvances(l, st); } else { GenPairAdvances(n, l, op, r, st); }
    case Factor(_, _, _) => FactorAdvances(n, st);
    case Primary(v) => GenAdvances(v, st);
    case TimeCall(_, _) => TimeCallAdvances(n, st);
    case InputStmt(_) => InputAdvances(n, st);
    case Id(name) => TargetNameAdvances(name, st);
    case FuncCall(_, _) => CallAdvances(n, st);
    case Absent =>
    case List(_) =>
    case Raw(_) =>
    case Callee(_, _) =>
    case Program(_, _) =>
    case FunctionGroup(_) =>
    case SliceExpr(_) =>
    case GlobalRange(_, _) =>
    case NumRange(_, _) =>
    case CharRange(_, _) =>
    case Timestep(_) =>
    case Num(_) =>
    case StringLiteral(_) =>
    case CharLiteral(_) =>
  }

  lemma {:induction false} ExprAdvances(n: Node, st: GenState)
    requires n.Expr?
    ensures Advance(st, Gen(n, st).1)
    decreases n, 0
  {
    GenAdvances(n.condExpr, st);
    GenAllAdvances(n, n.rest, Gen(n.condExpr, st).1);
    assert Gen(n, st) == GenExpr(n, st);
  }

  lemma {:induction false} TimeCallAdvances(n: Node, st: GenState)
    requires n.TimeCall?
    ensures Advance(st, Gen(n, st).1)
    decreases n, 0
  {
    GenAdvances(n.funcCall, st);
    GenAdvances(n.timeValue, Gen(n.funcCall, st).1);
    assert Gen(n, st) == GenTimeCall(n, st);
  }

  lemma {:induction false} CallAdvances(n: Node, st: GenState)
    requires n.FuncCall?
    ensures Advance(st, Gen(n, st).1)
    decreases n, 0
  {
    TargetNameAdvances(n.name, st);
    GenAdvances(n.arg, TargetName(n.name, st).1);
    assert Gen(n, st) == GenCall(n, st);
  }

  lemma {:induction false} FuncDefAdvances(n: Node, st: GenState)
    requires n.FuncDef?
    ensures Advance(st, Gen(n, st).1)
    decreases n, 0
  {
    var (f, s1) := TargetName(n.name, st);
    var (p, s2) := TargetName(n.param, s1);
    TargetNameAdvances(n.name, st);
    TargetNameAdvances(n.param, s1);
    var s3 := if n.body.SliceExpr? then GenSlice(n.body, f, p, s2) else s2;
    if n.body.SliceExpr? {
      GenSliceAdvances(n.body, f, p, s2);
    }
    DeclareAdvances(p, s3);
    assert Gen(n, st) == GenFuncDef(n, st);
  }

  lemma {:induction false} PrintAdvances(n: Node, st: GenState)
    requires n.PrintStmt?
    ensures Advance(st, Gen(n, st).1)
    decreases n, 0
  {
    var (x, s1) := Gen(n.expr, st);
    GenAdvances(n.expr, st);
    PushAdvances(s1, Text("funktionPrint(" + x + ");"));
    assert Gen(n, st) == GenPrint(n, st);
  }

  lemma {:induction false} StepCallAdvances(n: Node, st: GenState)
    requires n.StepCall?
    ensures Advance(st, Gen(n, st).1)
    decreases n, 0
  {
    var (f, s1) := TargetName(CalleeName(n.expr), st);
    var (v, s2) := Gen(n.stepValue, s1);
    var (a, s3) := TargetName(CalleeArg(n.expr), s2);
    TargetNameAdvances(CalleeName(n.expr), st);
    GenAdvances(n.stepValue, s1);
    TargetNameAdvances(CalleeArg(n.expr), s2);
    PushAdvances(s3, Text("applyFunction(" + a + ", " + v + ", " + f + ");"));
    assert Gen(n, st) == GenStepCall(n, st);
  }

  lemma {:induction false} CondAdvances(n: Node, st: GenState)
    requires n.CondExpr?
    ensures Advance(st, Gen(n, st).1)
    decreases n, 0
  {
    GenAdvances(n.leftCond, st);
    if !n.thenBranch.Absent? {
      var s1 := Gen(n.leftCond, st).1;
      var s2 := Gen(n.rightCond, s1).1;
      var s3 := Gen(n.thenBranch, s2).1;
      GenAdvances(n.rightCond, s1);
      GenAdvances(n.thenBranch, s2);
      GenAdvances(n.elseBranch, s3);
    }
  }

  lemma {:induction false} FactorAdvances(n: Node, st: GenState)
    requires n.Factor?
    ensures Advance(st, Gen(n, st).1)
    decreases n, 0
  {
    if n.op == "**" {
      GenAdvances(n.base, st);
      GenAdvances(n.exponent, Gen(n.base, st).1);
    } else if n.op == "-" || n.op == "~" {
      GenAdvances(n.exponent, st);
    } else {
      GenAdvances(n.base, st);
    }
  }

  lemma {:induction false} InputAdvances(n: Node, st: GenState)
    requires n.InputStmt?
    ensures Advance(st, Gen(n, st).1)
    decreases n, 0
  {
    var prompt := n.prompt;
    var (q, s1) := if prompt.List? && |prompt.items| > 0 then Gen(prompt.items[0], st) else ("undefined", st);
    if prompt.List? && |prompt.items| > 0 {
      GenAdvances(prompt.items[0], st);
    }
    HoistAdvances(s1, q);
  }

  lemma {:induction false} GenPairAdvances(parent: Node, l: Node, op: string, r: Node, st: GenState)
    requires l < parent && r < parent
    ensures Advance(st, GenPair(parent, l, op, r, st).1)
    decreases parent, 0
  {
    GenAdvances(l, st);
    GenAdvances(r, Gen(l, st).1);
  }

  lemma {:induction false} GenSliceAdvances(body: Node, f: string, p: string, st: GenState)
    requires body.SliceExpr?
    ensures Advance(st, GenSlice(body, f, p, st))
    decreases body, 1
  {
    var (es, s) := GenAll(body, body.expressions, st);
    GenAllAdvances(body, body.expressions, st);
    PushAdvances(s, Text(FunctionLine(f, p, Join(es, ", "))));
  }

  lemma {:induction false} GenAllAdvances(parent: Node, items: seq<Node>, st: GenState)
    requires forall i :: 0 <= i < |items| ==> items[i] < parent
    ensures Advance(st, GenAll(parent, items, st).1)
    decreases parent, 0, |items|
  {
    if items != [] {
      GenAdvances(items[0], st);
      GenAllAdvances(parent, items[1..], Gen(items[0], st).1);
    }
  }

  // ---------------------------------------------------------------------------
  // Properties of generation

  /** Each input site returns a temporary numbered by the counter, and a later
      input site (after any generation in between) gets a different one. */
  lemma InputTemporariesDistinct(p1: Node, p2: Node, st: GenState, later: GenState)
    requires Grows(Gen(InputStmt(p1), st).1, later)
    ensures Gen(InputStmt(p2), later).0 != Gen(InputStmt(p1), st).0
  {
    var s1 := if p1.List? && |p1.items| > 0 then Gen(p1.items[0], st).1 else st;
    var s2 := if p2.List? && |p2.items| > 0 then Gen(p2.items[0], later).1 else later;
    if p2.List? && |p2.items| > 0 {
      GenAdvances(p2.items[0], later);
    }
    assert Gen(InputStmt(p1), st).0 == InputVar(s1.inputIndex);
    assert Gen(InputStmt(p2), later).0 == InputVar(s2.inputIndex);
    assert s1.inputIndex < s2.inputIndex;
    if InputVar(s1.inputIndex) == InputVar(s2.inputIndex) {
      assert NatToString(s1.inputIndex) == InputVar(s1.inputIndex)[10..] == NatToString(s2.inputIndex);
      NatToStringInjective(s1.inputIndex, s2.inputIndex);
    }
  }

  /** An input site with a literal prompt hoists exactly one statement that
      prints the prompt and reads into the temporary it returns. */
  lemma InputHoisting(text: string, st: GenState)
    ensures var (v, s) := Gen(InputStmt(List([StringLiteral(text)])), st);
      v == InputVar(st.inputIndex)
      && s.inputCode == st.inputCode + [HoistedInput(JsonQuote(text), st.inputIndex)]
      && s.inputIndex == st.inputIndex + 1 && s.output == st.output
  {
    var n := InputStmt(List([StringLiteral(text)]));
    assert Gen(n, st) == GenInput(n, st);
    assert Gen(StringLiteral(text), st) == (JsonQuote(text), st);
  }

  /** After a definition its parameter's range is declared, by exactly one line. */
  lemma FuncDefDeclaresParameter(name: string, param: string, body: Node, st: GenState)
    requires Good(st)
    ensures var p := TargetName(param, TargetName(name, st).1).0;
      var s := Gen(FuncDef(name, param, body), st).1;
      p in s.instantiated && Occurrences(s.output, Declaration(p)) == 1
  {
    var n := FuncDef(name, param, body);
    var (f, s1) := TargetName(name, st);
    var (p, s2) := TargetName(param, s1);
    var s3 := if body.SliceExpr? then GenSlice(body, f, p, s2) else s2;
    assert Gen(n, st).1 == Declare(p, s3);
    FuncDefAdvances(n, st);
    DeclareAdvances(p, s3);
  }

  /** A definition whose body is not a slice writes no function text: its only
      possible line is the parameter's declaration, and none when that range
      was declared before. */
  lemma FuncDefWithoutSlice(name: string, param: string, body: Node, st: GenState)
    requires !body.SliceExpr?
    ensures var p := TargetName(param, TargetName(name, st).1).0;
      var s := Gen(FuncDef(name, param, body), st).1;
      s.output == st.output + (if p in st.instantiated then [] else [Declaration(p)])
  {
    assert st.output + [] == st.output;
  }

  lemma {:induction false} HoistedHasNoDeclarations(lines: seq<Line>, t: string)
    requires Hoisted(lines)
    ensures Occurrences(lines, Declaration(t)) == 0
    decreases |lines|
  {
    if lines != [] {
      HoistedHasNoDeclarations(lines[..|lines| - 1], t);
    }
  }

  lemma {:induction false} RangeDefaultsAdvance(globalRange: Node, st: GenState)
    ensures Advance(st, RangeDefaults(globalRange, st).3)
  {
    var first := First(globalRange);
    var range := if first.GlobalRange? then first.range else Absent;
    var timestep := if first.GlobalRange? then First(first.timestep) else Absent;
    var s1 := if range.Absent? then st else Gen(RangeStart(range), st).1;
    var s2 := if range.Absent? then s1 else Gen(RangeEnd(range), s1).1;
    if !range.Absent? {
      GenAdvances(RangeStart(range), st);
      GenAdvances(RangeEnd(range), s1);
    }
    if !timestep.Absent? {
      GenAdvances(TimestepValue(timestep), s2);
    }
  }

  lemma ProgramStartKeepsInvariants(start: string, end: string, step: string, st: GenState)
    requires Good(st)
    ensures Good(ProgramStart(start, end, step, st))
  {
    var s := st.(inputCode := st.inputCode + [Header]);
    assert Good(s);
    PushAdvances(s, Runtime(start, end, step));
  }

  /** A generated program declares each parameter range at most once. */
  lemma ProgramDeclaresRangesOnce(globalRange: Node, statements: seq<Node>, t: string)
    ensures Occurrences(ProgramLines(globalRange, statements), Declaration(t)) <= 1
  {
    assert Good(Initial);
    var (start, end, step, s1) := RangeDefaults(globalRange, Initial);
    RangeDefaultsAdvance(globalRange, Initial);
    var s2 := ProgramStart(start, end, step, s1);
    ProgramStartKeepsInvariants(start, end, step, s1);
    var s3 := GenAll(Program(globalRange, statements), statements, s2).1;
    GenAllAdvances(Program(globalRange, statements), statements, s2);
    assert ProgramLines(globalRange, statements) == (s3.inputCode + s3.output) + [Text(CloseLine)];
    OccurrencesAppend(s3.inputCode + s3.output, Text(CloseLine), Declaration(t));
    OccurrencesConcat(s3.inputCode, s3.output, Declaration(t));
    HoistedHasNoDeclarations(s3.inputCode, t);
  }

  /** Without a global range the program starts with the import header, then
      one hoisted statement per input site, then the runtime block with start 1,
      end 5 and step 1, then the statements' lines, and ends with the closing line. */
  lemma DefaultProgramLayout(statements: seq<Node>)
    ensures var s := GenAll(Program(Absent, statements), statements, ProgramStart("1", "5", "1", Initial)).1;
      var lines := ProgramLines(Absent, statements);
      lines == s.inputCode + s.output + [Text(CloseLine)]
      && |s.inputCode| == s.inputIndex + 1 && lines[0] == Header
      && lines[|s.inputCode|] == Runtime("1", "5", "1")
      && lines[|lines| - 1] == Text(CloseLine)
  {
    assert RangeDefaults(Absent, Initial) == ("1", "5", "1", Initial);
    GenAllAdvances(Program(Absent, statements), statements, ProgramStart("1", "5", "1", Initial));
  }

  /** Whatever the global range, when generating its defaults queues no line
      (its bounds and step are literals or identifiers), a program is the
      import header, the hoisted inputs, the runtime block with those
      defaults, the statements' lines and the closing line, in that order. */
  lemma ProgramLayout(g: Node, statements: seq<Node>)
    requires RangeDefaults(g, Initial).3.inputCode == [] && RangeDefaults(g, Initial).3.output == []
    ensures var d := RangeDefaults(g, Initial);
      var s := GenAll(Program(g, statements), statements, ProgramStart(d.0, d.1, d.2, d.3)).1;
      var lines := ProgramLines(g, statements);
      lines == s.inputCode + s.output + [Text(CloseLine)]
      && lines[0] == Header
      && lines[|s.inputCode|] == Runtime(d.0, d.1, d.2)
      && lines[|lines| - 1] == Text(CloseLine)
  {
    var d := RangeDefaults(g, Initial);
    GenAllAdvances(Program(g, statements), statements, ProgramStart(d.0, d.1, d.2, d.3));
  }

  /** A step call pushes one `applyFunction` line and stands for the range's
      current value. */
  lemma StepCallEmitsOneLine(f: string, x: string, k: int, st: GenState)
    ensures var fn := TargetName(f, st);
      var a := TargetName(x, fn.1);
      var r := Gen(StepCall(Callee(f, x), Num(k)), st);
      r.0 == a.0 + ".values[" + a.0 + ".index]"
      && r.1.output == st.output + [Text("applyFunction(" + a.0 + ", " + IntToString(k) + ", " + fn.0 + ");")]
      && r.1 == a.1.(output := r.1.output)
  {
    var n := StepCall(Callee(f, x), Num(k));
    var fn := TargetName(f, st);
    assert Gen(Num(k), fn.1) == (IntToString(k), fn.1);
    assert Gen(n, st) == GenStepCall(n, st);
  }

  /** A conditional with a then-branch becomes a JavaScript ternary whose
      comparison is written strictly for `==` and `!=` and copied otherwise. */
  lemma ComparisonTranslated(a: int, op: string, b: int, c: int, d: int, st: GenState)
    ensures Gen(CondExpr(Num(a), op, Num(b), Num(c), Num(d)), st)
      == ("( " + IntToString(a) + " " + JsOperator(op) + " " + IntToString(b) + " ? " + IntToString(c) + " : " + IntToString(d) + ")", st)
    ensures JsOperator("==") == "===" && JsOperator("!=") == "!=="
    ensures op != "==" && op != "!=" ==> JsOperator(op) == op
  {
    var n := CondExpr(Num(a), op, Num(b), Num(c), Num(d));
    assert Gen(n, st) == GenCond(n, st);
  }

  /** Exponentiation becomes `Math.pow`. */
  lemma PowerTranslated(b: string, k: nat, st: GenState)
    ensures var v := TargetName(b, st);
      Gen(Factor(Id(b), "**", Num(k)), st) == ("Math.pow(" + v.0 + ", " + NatToString(k) + ")", v.1)
  {
    var n := Factor(Id(b), "**", Num(k));
    assert Gen(n, st) == GenFactor(n, st);
    assert Gen(Id(b), st) == TargetName(b, st);
    assert Gen(Num(k), TargetName(b, st).1) == (NatToString(k), TargetName(b, st).1);
  }

  /** The unary operators are written before their parenthesised operand. */
  lemma UnaryTranslated(op: string, b: string, st: GenState)
    requires op == "-" || op == "~"
    ensures var v := TargetName(b, st);
      Gen(Factor(Absent, op, Id(b)), st) == ("(" + op + v.0 + ")", v.1)
  {
    var n := Factor(Absent, op, Id(b));
    assert Gen(n, st) == GenFactor(n, st);
    assert Gen(Id(b), st) == TargetName(b, st);
  }

  // ---------------------------------------------------------------------------
  // Time calls

  /** A time call as the source writes it: it reads a field the node does not
      have, so the range it names never reaches the text. */
  function TimeCallAsWritten(call: Node, timeValue: Node, st: GenState): (string, GenState) {
    var (t, s1) := Gen(timeValue, st);
    ("undefined.values.slice(0, " + t + ")", s1)
  }

  /** As written, the time call's text does not depend on the range it names
      and slices `undefined`; the corrected generation slices the named range. */
  lemma TimeCallLosesItsRange(x: string, y: string, k: nat, st: GenState)
    ensures TimeCallAsWritten(Id(x), Num(k), st) == ("undefined.values.slice(0, " + NatToString(k) + ")", st)
    ensures TimeCallAsWritten(Id(x), Num(k), st) == TimeCallAsWritten(Id(y), Num(k), st)
  {
    assert Gen(Num(k), st) == (NatToString(k), st);
  }

  /** The corrected time call slices the values of the range it names, and
      different ranges give different texts. */
  lemma TimeCallNamesItsRange(x: string, y: string, k: int, st: GenState)
    requires x != y
    ensures Gen(TimeCall(Id(x), Num(k)), st).0 == TargetName(x, st).0 + (".values.slice(0, " + IntToString(k) + ")")
    ensures Gen(TimeCall(Id(x), Num(k)), st).0 != Gen(TimeCall(Id(y), Num(k)), st).0
  {
    TimeCallText(x, k, st);
    TimeCallText(y, k, st);
    var tx := TargetName(x, st).0;
    var ty := TargetName(y, st).0;
    var tail := ".values.slice(0, " + IntToString(k) + ")";
    TargetNamesDistinct(x, y, st, st);
    SuffixCancel(tx, ty, tail);
  }

  lemma SuffixCancel(a: string, b: string, t: string)
    requires a != b
    ensures a + t != b + t
  {
    assert (a + t)[..|a|] == a;
    assert (b + t)[..|b|] == b;
  }

  lemma TimeCallText(x: string, k: int, st: GenState)
    ensures Gen(TimeCall(Id(x), Num(k)), st).0 == TargetName(x, st).0 + (".values.slice(0, " + IntToString(k) + ")")
  {
    var n := TimeCall(Id(x), Num(k));
    assert Gen(n, st) == GenTimeCall(n, st);
    assert Gen(Id(x), st) == TargetName(x, st);
    assert Gen(Num(k), TargetName(x, st).1) == (IntToString(k), TargetName(x, st).1);
    var t := TargetName(x, st).0;
    assert t + ".values.slice(0, " + IntToString(k) + ")" == t + (".values.slice(0, " + IntToString(k) + ")");
  }

  /** A character literal gives the JSON string of its first UTF-16 code
      unit: a character of the Basic Multilingual Plane is kept (escaped like
      any string), a character beyond it leaves a lone high surrogate, in the
      surrogate range, written as an eight-character `\u` literal. */
  lemma CharLiteralFirstUnit(s: string, st: GenState)
    ensures |s| == 0 ==> Gen(CharLiteral(s), st) == ("\"\"", st)
    ensures |s| > 0 && (s[0] as int) < 0x1_0000 ==> Gen(CharLiteral(s), st) == (JsonQuote([s[0]]), st)
    ensures |s| > 0 && (s[0] as int) >= 0x1_0000 ==>
      0xD800 <= HighSurrogate(s[0]) < 0xDC00 && |Gen(CharLiteral(s), st).0| == 8 && Gen(CharLiteral(s), st).1 == st
  {
    assert Gen(CharLiteral(s), st) == (CharText(s), st);
    if |s| == 0 {
      assert JsonEscapeAll("") == "";
      assert JsonQuote("") == "\"" + "" + "\"";
      assert CharText(s) == "\"\"";
    }
  }

  /** The grinning face U+1F600 is the surrogate pair D83D DE00; only the
      first half is kept. */
  lemma CharLiteralKeepsHighSurrogate(st: GenState)
    ensures Gen(CharLiteral("\U{1F600}"), st).0 == "\"\\ud83d\""
  {
    assert HighSurrogate('\U{1F600}') == 0xD83D;
    assert Hex4(0xD83D) == "d83d";
  }

  /** A missing operand generates `undefined` on its own, but inside an
      expression list, which is joined as an array, it is written as nothing. */
  lemma MissingElementJoinsEmpty(st: GenState)
    ensures Gen(Absent, st).0 == "undefined"
    ensures Gen(Expr(Num(7), [Absent]), st).0 == "7,"
  {
    var n := Expr(Num(7), [Absent]);
    assert Gen(n, st) == GenExpr(n, st);
    assert Gen(Num(7), st) == ("7", st);
    assert GenAll(n, [Absent], st).0 == [""];
    assert ["7"] + [""] == ["7", ""];
    assert Join(["7", ""], ",") == Join(["7"], ",") + "," + "";
  }

  /** Every missing element of a generated array is written as nothing. */
  lemma {:induction false} GenAllMissingEmpty(parent: Node, items: seq<Node>, st: GenState, i: nat)
    requires forall j :: 0 <= j < |items| ==> items[j] < parent
    requires i < |items| && items[i].Absent?
    ensures GenAll(parent, items, st).0[i] == ""
    decreases |items|
  {
    if i > 0 {
      GenAllMissingEmpty(parent, items[1..], Gen(items[0], st).1, i - 1);
    }
  }
}
