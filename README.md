# Funktion compiler core, modelled in Dafny

Funktion is a small language of stream functions. A program declares an
optional global range with a timestep, defines functions of one mutable-range
parameter, and prints, steps (`f(x).step(k)`) and slices (`f:k`) them. The
compiler has four stages. The Ohm parser is outside this model. The other
three are modelled here:

- `core.dfy` is the AST. Each node constructor becomes a `Node` constructor.
  The type that `core.js` stores at construction is computed by `TypeOf`. The
  module also holds the symbol-table entities and the standard library.
- `analyzer.dfy` is the semantic analyzer. The parse tree is a `Syntax`
  datatype with one constructor per semantic action. Expression actions only
  read the scope, so they are the function `Rep` over the scope's bindings.
  The scope itself is the `Context` class; its bindings live in a `Locals`
  object, which a child scope shares. Function definitions swap and update
  the current scope, so they are methods of the `Analyzer` class. The
  top-level `Analyze` method is proved equal to the specification
  `ProgramSpec`.
- `optimizer.dfy` is the constant folder: a post-order rewrite with one rule
  per node kind. `Eval` is an independent meaning of integer expressions, with
  JavaScript's quotient and remainder defined by rounding toward zero. The
  folder with its multiplicative fold corrected (see Findings) is proved to
  preserve it; the folder as written does not, since it folds `6 / 2` to 12.
  Under either fold the folder is proved idempotent.
- `generator.dfy` is the code generator as a specification. `Gen` threads the
  generator state through the tree: the uniquifier map, the output lines, the
  hoisted input lines, the input counter and the set of declared parameter
  ranges. The module proves invariants of that state and the shape of the
  emitted text.
- `emitter.dfy` is the same generator as an object. The closure variables of
  `generate` are fields, and each node kind has a method. Every method is
  proved to compute exactly what `Generator.Gen` specifies.
- `runtime.dfy` models the runtime emitted into every program:
  `generateRange`, `initializeMutableRange`, and the `applyFunction` loop over
  a mutable range.
- `util.dfy` holds `Option`/`Result`, decimal rendering of numbers, and
  `Join`.

## Model

| member | source | states |
|---|---|---|
| Util.NatToStringInjective | src/generator.js:10 | distinct counters render as distinct decimal suffixes, so the uniquifier's numbering is readable back from the name |
| Util.ParseNatToString | src/generator.js:224-226 | the decimal text emitted for a natural number reads back as that number |
| Core.TypeOf | src/core.js:8-114 | the type each node constructor stores: fixed per kind, or taken from an operand; its properties are the lemmas below |
| Core.BinaryTakesLeftType | src/core.js:40-54 | bitwise, shift, additive and multiplicative nodes take the type of their left operand |
| Core.CondExprType | src/core.js:28-38 | a conditional has its then-branch's type; when the then-branch is missing or untyped it is `any`, whatever the comparison |
| Core.FactorType | src/core.js:56-58 | a factor has its base's type, or its operand's type when there is no base |
| Core.LeafTypes | src/core.js:100-114 | numbers are `number`, string literals `string`, character literals `char`, identifiers `any` |
| Core.StatementTypes | src/core.js:8-78 | programs, print statements and time calls are `void` |
| Core.RangeTypes | src/core.js:80-98 | global ranges, numeric and character ranges and timesteps are `void` |
| Core.CallTypes | src/core.js:12-74 | definitions, calls, step calls and input statements are `any` |
| Core.ArithmeticTypeFromLeftmost | src/core.js:40-62 | the type of a chain of binary nodes is the type of its leftmost non-binary operand |
| Core.StandardLibraryBindings | src/core.js:116-126 | the root scope binds exactly the six type names and the three intrinsics `print`, `input`, `step` |
| Optimizer.Optimize | src/optimizer.js:3-141 | the optimizer: children first, then the node kind's rule; a kind without a rule is returned as it is |
| Optimizer.CondRule | src/optimizer.js:31-52 | the conditional rule on optimized children; a selected branch that is missing leaves the conditional, as the dispatcher's fallback does |
| Optimizer.AddRule | src/optimizer.js:54-70 | the additive rule on optimized operands |
| Optimizer.FoldMul | src/optimizer.js:75-77 | the literal two literal operands fold to: their product as written; by operator, the product, the exact quotient or the remainder |
| Optimizer.MulRule | src/optimizer.js:72-87 | the multiplicative rule on optimized operands, folding as written or by operator |
| Optimizer.FactorRule | src/optimizer.js:89-104 | the factor rule on an optimized base and exponent; `e ** 1` without a base leaves the factor, as the dispatcher's fallback does |
| Optimizer.AddExprFolds | src/optimizer.js:57-62 | two literal operands fold to their sum under `+` and to their difference under any other operator |
| Optimizer.AddExprPlusZero | src/optimizer.js:63-65 | `0 + e` and `e + 0` reduce to the optimized `e` |
| Optimizer.AddExprMinusZero | src/optimizer.js:66-69 | `e - 0` reduces to `e`; `0 - e` is kept |
| Optimizer.MulExprFoldsAsWritten | src/optimizer.js:75-77 | as written, two literal operands fold to their product under every operator |
| Optimizer.MulExprFoldsByOperator | src/optimizer.js:75-77 | corrected rule: `*` folds to the product and an exact `/` to the quotient |
| Optimizer.MulExprFoldsRemainder | src/optimizer.js:75-77 | corrected rule: `%` folds to JavaScript's remainder, which takes the dividend's sign |
| Optimizer.MulExprTimesOne | src/optimizer.js:78-80 | `1 * e` and `e * 1` reduce to `e` |
| Optimizer.MulExprTimesZero | src/optimizer.js:81-82 | `0 * e` and `e * 0` reduce to the literal 0 |
| Optimizer.MulExprDivisionByOne | src/optimizer.js:83-85 | `e / 1` reduces to `e` |
| Optimizer.MulExprLeftOneUnderDivisionKept | src/optimizer.js:83-86 | `1 / e` is kept as a division |
| Optimizer.PowerFolds | src/optimizer.js:93-95 | a literal to a non-negative literal power folds to the power |
| Optimizer.PowerIdentities | src/optimizer.js:96-97 | `e ** 0` folds to 1 and `e ** 1` to `e`; `** 1` with a missing base leaves the factor |
| Optimizer.UnaryFolds | src/optimizer.js:98-101 | negation of a literal folds to its negative; `~` of a literal folds to the 32-bit complement |
| Optimizer.UnaryKept | src/optimizer.js:98-103 | negation and complement of a non-literal are kept, with the operand optimized |
| Optimizer.BitNotValues | src/optimizer.js:100-101 | `~v` is `-v-1` on 32-bit values, is periodic modulo 2^32, and `~0` is -1 |
| Optimizer.CondExprFolds | src/optimizer.js:3-52 | a comparison of two literals selects the optimized then- or else-branch; when that branch is missing the conditional is rebuilt around the two literals |
| Optimizer.CompareMeaning | src/optimizer.js:40-48 | the six comparison operators mean what they say; any other operator is not folded |
| Optimizer.CondExprKept | src/optimizer.js:31-52 | a conditional without operator or without two literal operands is rebuilt from its optimized parts |
| Optimizer.NoRuleUnchanged | src/optimizer.js:3-5 | a node kind without a rule is returned unchanged |
| Optimizer.RangeBlocksFolding | src/optimizer.js:129-133 | the range rule never fires, so a foldable expression inside a numeric range stays unfolded |
| Optimizer.PrimaryBlocksFolding | src/optimizer.js:3-5 | the optimizer does not descend through a primary or a one-operand wrapper of a kind without a rule |
| Optimizer.ProgramRebuilt | src/optimizer.js:8-12 | a program keeps its kind; its global range and each statement are optimized, in order |
| Optimizer.FuncDefRebuilt | src/optimizer.js:14-18 | a definition keeps its name and parameter; its body and additional definitions are optimized |
| Optimizer.CallsRebuilt | src/optimizer.js:20-23 | a call keeps its name with its argument optimized, and a step call has both parts optimized |
| Optimizer.StatementsRebuilt | src/optimizer.js:106-121 | print statements and time calls are rebuilt from their optimized parts |
| Optimizer.GlobalRangeRebuilt | src/optimizer.js:123-127 | a global range is rebuilt from its optimized range and timestep |
| Optimizer.NumFixed | src/optimizer.js:135-137 | a literal is returned unchanged |
| Optimizer.AddRuleStable | src/optimizer.js:54-70 | the additive rule's result is a fixed point of the optimizer |
| Optimizer.MulRuleStable | src/optimizer.js:72-87 | the multiplicative rule's result is a fixed point of the optimizer |
| Optimizer.FactorRuleStable | src/optimizer.js:89-104 | the factor rule's result is a fixed point of the optimizer |
| Optimizer.CondRuleStable | src/optimizer.js:31-52 | the conditional rule's result is a fixed point of the optimizer |
| Optimizer.OptimizeIdempotent | src/optimizer.js:3-141 | optimizing an optimized tree changes nothing, under either folding |
| Optimizer.ListNodeIdempotent | src/optimizer.js:8-29 | idempotence for programs, definitions and expression lists |
| Optimizer.CondIdempotent | src/optimizer.js:31-52 | idempotence for conditionals |
| Optimizer.ArithmeticIdempotent | src/optimizer.js:54-104 | idempotence for additive, multiplicative and factor nodes |
| Optimizer.AllIdempotent | src/optimizer.js:10 | idempotence for every element of a list of children |
| Optimizer.WrapperRulesKeepValue | src/optimizer.js:54-87 | a one-operand additive or multiplicative node keeps its operand's value |
| Optimizer.FactorWrapperKeepsValue | src/optimizer.js:89-104 | a factor without operator keeps its base's value |
| Optimizer.AddRuleKeepsValue | src/optimizer.js:54-70 | the additive rule keeps the value of `+` and `-` |
| Optimizer.AddZeroKeepsValue | src/optimizer.js:63-68 | dropping an added or subtracted 0 keeps the value |
| Optimizer.MulRuleKeepsValue | src/optimizer.js:72-87 | the corrected multiplicative rule keeps the value of `*`, `/` and `%` wherever it is defined |
| Optimizer.QuotientRuleKeepsValue | src/optimizer.js:75-86 | the corrected rule keeps the value of a defined `/` or `%` |
| Optimizer.QuotientKeptKeepsValue | src/optimizer.js:83-86 | a `/` or `%` that is not folded keeps its value |
| Optimizer.LiteralsFoldToValue | src/optimizer.js:75-77 | the corrected fold of two literals yields the node's value under `Eval` |
| Optimizer.FoldMulMeaning | src/optimizer.js:75-77 | the corrected fold computes JavaScript's `*`, `/` and `%`: `a % b == 0` exactly when the quotient rounded toward zero is exact, the quotient is then that one, and the folded remainder is the dividend minus the divisor times that quotient |
| Optimizer.TruncRemMeaning | src/optimizer.js:75-77 | the folded remainder `r` of `a` by `b` satisfies `a == b * q + r` for the quotient `q` rounded toward zero, is smaller than `b` in size, and is zero or has the dividend's sign |
| Optimizer.ExactQuotient | src/optimizer.js:75-77 | when `b * q == a`, the division the fold uses gives `q` with remainder 0 |
| Optimizer.DivisionByOneKeepsValue | src/optimizer.js:83-85 | dropping a division by 1 keeps the value |
| Optimizer.TimesRuleKeepsValue | src/optimizer.js:75-82 | the rule for `*` keeps the product |
| Optimizer.TimesIdentityKeepsValue | src/optimizer.js:78-82 | the `*1` and `*0` shortcuts keep the product |
| Optimizer.FactorRuleKeepsValue | src/optimizer.js:89-104 | the factor rule keeps the value of `**`, `-` and `~` |
| Optimizer.UnaryRuleKeepsValue | src/optimizer.js:98-101 | folding `-` and `~` keeps the value |
| Optimizer.PowerRuleKeepsValue | src/optimizer.js:92-97 | the power rule keeps the value of a non-negative power |
| Optimizer.PowerIdentityKeepsValue | src/optimizer.js:96-97 | the `**0` and `**1` shortcuts keep the value |
| Optimizer.CondRuleKeepsValue | src/optimizer.js:31-52 | the conditional rule keeps the conditional's value |
| Optimizer.OptimizePreservesValue | src/optimizer.js:3-141 | with the corrected multiplicative rule, optimizing never changes the value of an expression that has one |
| Optimizer.AsWrittenFoldsQuotientToProduct | src/optimizer.js:75-77 | as written, `6 / 2`, whose value is 3, folds to 12 |
| Optimizer.AsWrittenFoldsRemainderToProduct | src/optimizer.js:75-77 | as written, `7 % 2`, whose value is 1, folds to 14 |
| Analyzer.UnaryCheck | src/analyzer.js:51-57 | the one-operand type check; `UnaryCheckPasses` states when it passes |
| Analyzer.BinaryCheck | src/analyzer.js:59-74 | the two-operand type check; `BinaryCheckPasses` and `BinaryCheckMessages` state its outcomes |
| Analyzer.AddCheck | src/analyzer.js:214-227 | the additive type check; `AddCheckPasses` states when it passes |
| Analyzer.TernaryCheck | src/analyzer.js:162-183 | the ternary check as written; `TernaryNeedsAny` states when it passes |
| Analyzer.Rep | src/analyzer.js:141-344 | the semantic actions for expressions and statements other than definitions, over the current bindings |
| Analyzer.BuildBinary | src/analyzer.js:190-269 | the binary and unary actions: check the operand types, then build the node of the level |
| Analyzer.UnaryCheckPasses | src/analyzer.js:51-57 | the unary check passes exactly for the required type or `any`, and otherwise reports the unsupported type |
| Analyzer.BinaryCheckPasses | src/analyzer.js:59-74 | the binary check passes exactly when an operand is `any` or both have the required type |
| Analyzer.BinaryCheckMessages | src/analyzer.js:59-74 | differing operand types report the mismatch first; equal wrong types report the unsupported type |
| Analyzer.AddCheckPasses | src/analyzer.js:214-227 | `-` needs numbers; `+` needs two numbers or two strings, unless an operand is `any` |
| Analyzer.StringAndNumberRejected | src/analyzer.js:214-227 | a string plus or minus a number is rejected with the type-mismatch message |
| Analyzer.IdentifierLookup | src/analyzer.js:339-344 | an identifier is accepted iff it is bound, and otherwise fails as not declared at its location |
| Analyzer.CallToUnboundFails | src/analyzer.js:141-145 | a call of an unbound name fails as not declared |
| Analyzer.CallToBound | src/analyzer.js:141-145 | a call of a bound name yields a call node over the analysed argument |
| Analyzer.InputOutsideFunctionFails | src/analyzer.js:295-300 | an input statement in a scope without a parent fails with the inside-functions message |
| Analyzer.StepCallDefaultsToOne | src/analyzer.js:287-293 | a step call without a step count steps once |
| Analyzer.StepCallWithValue | src/analyzer.js:287-293 | a step call with a literal count keeps that count |
| Analyzer.SliceFails | src/analyzer.js:154-160 | a slice expression never analyses successfully |
| Analyzer.TernaryNeedsAny | src/analyzer.js:162-183 | a ternary is accepted only when one compared operand is `any` |
| Analyzer.ArithmeticOperandsChecked | src/analyzer.js:190-239 | an accepted bitwise, shift or multiplicative node has number operands, unless one is `any` |
| Analyzer.AdditiveOperandsChecked | src/analyzer.js:214-227 | an accepted additive node has two numbers or two strings, unless one is `any` |
| Analyzer.UnaryOperandChecked | src/analyzer.js:259-269 | a negation or complement is accepted iff its operand is a number or `any` |
| Analyzer.Locals.constructor | src/analyzer.js:6 | a binding table holds the bindings it is given |
| Analyzer.Context.constructor | src/analyzer.js:4-11 | a scope holds its parent and its binding table |
| Analyzer.Context.Root | src/analyzer.js:21-25 | the root scope has no parent and binds the standard library |
| Analyzer.Context.NewChildContext | src/analyzer.js:27-30 | a child scope has this scope as parent and shares its binding table |
| Analyzer.Context.Lookup | src/analyzer.js:17-19 | lookup finds a name iff this scope's table binds it; the parent is not consulted |
| Analyzer.Context.Add | src/analyzer.js:13-15 | adding binds the name and leaves every other binding as it was |
| Analyzer.DefineSpec | src/analyzer.js:88-139 | a definition: fails on a bound name; otherwise analyses the body with name and parameter bound, and binds name, parameter and call form |
| Analyzer.StatementSpec | src/analyzer.js:77-139 | one statement: a definition by `DefineSpec`, any other by `Rep` with the bindings unchanged |
| Analyzer.StatementsSpec | src/analyzer.js:77-82 | the statements in order, each in the bindings the previous ones left, the first failure ending the sequence |
| Analyzer.ProgramSpec | src/analyzer.js:33-82 | a program: its statements in order from the standard library's bindings, the first failure ending the analysis |
| Analyzer.DefinedBindingsContent | src/analyzer.js:120-137 | after a definition the name is bound to the definition, the parameter to a number range, and the call form to a function; nothing else changes |
| Analyzer.RedefinitionFails | src/analyzer.js:43-45 | defining a name that an earlier definition bound fails as already declared |
| Analyzer.BodySeesNameAndParameter | src/analyzer.js:101-119 | a body is analysed with the function's name and its parameter, a mutable range, in scope |
| Analyzer.StatementsCount | src/analyzer.js:77-82 | successful analysis yields one node per statement |
| Analyzer.StatementsKeepNames | src/analyzer.js:77-82 | every name bound before a statement stays bound after it |
| Analyzer.TopLevelInputFails | src/analyzer.js:295-298 | a top-level input statement makes the program fail |
| Analyzer.Analyzer.constructor | src/analyzer.js:34 | analysis starts in a fresh root scope |
| Analyzer.Analyzer.AnalyzeFuncDef | src/analyzer.js:88-139 | a definition yields what `DefineSpec` specifies; on success the original scope is current again with the new bindings; a redefinition changes nothing; a failed body leaves the child scope current |
| Analyzer.Analyze | src/analyzer.js:33-82 | analysing a program in order, statement by statement, yields exactly `ProgramSpec` |
| Generator.JsonQuote | src/generator.js:228-230 | `JSON.stringify` of a string: its characters escaped, between double quotes |
| Generator.JsonQuotePlain | src/generator.js:228-230 | a string without quotes, backslashes or control characters is emitted between double quotes unchanged |
| Generator.JsonEscapeAllPlain | src/generator.js:228-230 | escaping leaves such a string unchanged |
| Generator.JsonEscapeAllConcat | src/generator.js:228-230 | escaping the concatenation of two strings is the concatenation of their escapes |
| Generator.JsonEscapeSpecials | src/generator.js:228-230 | a double quote and a backslash are escaped with a backslash, as are newline and tab; every control character is escaped; any other plain character is kept |
| Generator.JsonEscapeAllGuardsQuotes | src/generator.js:228-230 | every double quote in an escaped string is preceded by a backslash |
| Generator.CharText | src/generator.js:232-234 | `JSON.stringify(s.charAt(0))` on UTF-16 code units |
| Generator.CharLiteralFirstUnit | src/generator.js:232-234 | a character literal gives the JSON string of its first UTF-16 code unit: the first character when it lies in the Basic Multilingual Plane, otherwise an eight-character `\u` literal of a high surrogate; the empty string gives `""` |
| Generator.CharLiteralKeepsHighSurrogate | src/generator.js:232-234 | the literal of U+1F600 is `"\ud83d"`, the first half of its surrogate pair |
| Generator.Declare | src/generator.js:116-119 | a parameter's range declaration is pushed and recorded the first time only |
| Generator.Hoist | src/generator.js:216-221 | an input's prompt and question are queued and the counter advances |
| Generator.TargetName | src/generator.js:5-12 | a name becomes the name, an underscore and its number; only the uniquifier map changes |
| Generator.TargetNameNumbering | src/generator.js:5-12 | a new name gets the next number; a known name keeps its number; numbering stays one-to-one |
| Generator.TargetNameRepeat | src/generator.js:5-12 | asking for the same name twice gives the same target name and state |
| Generator.SuffixedInjective | src/generator.js:10 | distinct name-and-number pairs give distinct target names |
| Generator.TargetNamesDistinct | src/generator.js:5-12 | distinct source names never share a target name, whatever happened in between |
| Generator.Gen | src/generator.js:14-243 | the generator: each node kind's text and its effect on the state; its properties are the lemmas below |
| Generator.GenFuncDef | src/generator.js:106-120 | a definition: its slice function, if any, and its parameter's declaration; its value is the node itself |
| Generator.GenPrint | src/generator.js:122-124 | a print statement emits one `funktionPrint` line |
| Generator.GenStepCall | src/generator.js:126-132 | a step call emits one `applyFunction` line |
| Generator.GenExpr | src/generator.js:134-140 | an expression list is the array of its elements' texts, written joined by commas |
| Generator.GenCond | src/generator.js:147-159 | a conditional becomes a JavaScript ternary, or its operand alone |
| Generator.GenFactor | src/generator.js:197-206 | a factor becomes `Math.pow`, a negation or a complement, or its base alone |
| Generator.GenTimeCall | src/generator.js:212-214 | a time call slices the named range's values (corrected field) |
| Generator.GenInput | src/generator.js:216-222 | an input statement hoists its prompt and stands for the next temporary |
| Generator.GenCall | src/generator.js:240-242 | a call becomes the target name applied to the argument |
| Generator.GenPair | src/generator.js:161-195 | an operator between two operands, parenthesized |
| Generator.GenSlice | src/generator.js:112-115 | a slice body becomes a function returning the array of its elements |
| Generator.GenAll | src/generator.js:134-140 | a list of expressions gives one text per expression |
| Generator.GenAllMissingEmpty | src/generator.js:134-140 | a missing element of a generated array is written as nothing |
| Generator.MissingElementJoinsEmpty | src/generator.js:134-140 | a missing operand is `undefined` on its own but nothing inside an expression list |
| Generator.RangeDefaults | src/generator.js:30-34 | the runtime defaults: the first global range's start, end and timestep, or 1, 5 and 1 |
| Generator.ProgramLines | src/generator.js:20-104 | a program's lines: header, hoisted inputs, runtime, statements, closing line |
| Generator.Generate | src/generator.js:1-247 | the generated text: a program's lines, or any other node's output lines, joined by newlines |
| Generator.TargetNameAdvances | src/generator.js:5-12 | the uniquifier keeps the generator state's invariants |
| Generator.GenAdvances | src/generator.js:14 | generating any node only appends output and hoisted lines, keeps numbering, and keeps the invariants |
| Generator.FuncDefAdvances | src/generator.js:106-120 | a definition keeps the state invariants |
| Generator.PrintAdvances | src/generator.js:122-124 | a print statement keeps the state invariants |
| Generator.StepCallAdvances | src/generator.js:126-132 | a step call keeps the state invariants |
| Generator.ExprAdvances | src/generator.js:134-140 | an expression list keeps the state invariants |
| Generator.CondAdvances | src/generator.js:147-159 | a conditional keeps the state invariants |
| Generator.FactorAdvances | src/generator.js:197-206 | a factor keeps the state invariants |
| Generator.TimeCallAdvances | src/generator.js:212-214 | a time call keeps the state invariants |
| Generator.InputAdvances | src/generator.js:216-222 | an input statement keeps the state invariants |
| Generator.CallAdvances | src/generator.js:240-242 | a call keeps the state invariants |
| Generator.GenPairAdvances | src/generator.js:161-195 | a binary node keeps the state invariants |
| Generator.GenSliceAdvances | src/generator.js:112-115 | emitting a slice function keeps the state invariants |
| Generator.GenAllAdvances | src/generator.js:136-138 | a list of expressions keeps the state invariants |
| Generator.RangeDefaultsAdvance | src/generator.js:30-34 | generating the range defaults keeps the state invariants |
| Generator.ProgramStartKeepsInvariants | src/generator.js:35-100 | the header and the runtime block keep the state invariants |
| Generator.InputTemporariesDistinct | src/generator.js:216-222 | two input statements get distinct temporaries |
| Generator.InputHoisting | src/generator.js:216-222 | an input statement yields the next temporary, hoists its prompt and question, and emits no output line |
| Generator.FuncDefDeclaresParameter | src/generator.js:116-119 | after a definition its parameter's range is declared exactly once |
| Generator.FuncDefWithoutSlice | src/generator.js:106-120 | a definition without a slice body emits only the parameter declaration, and only the first time |
| Generator.HoistedHasNoDeclarations | src/generator.js:103 | the hoisted lines contain no range declaration |
| Generator.ProgramDeclaresRangesOnce | src/generator.js:20-104 | a generated program declares each mutable range at most once |
| Generator.ProgramLayout | src/generator.js:30-103 | for any global range whose defaults queue no line, a program is the header, the hoisted inputs, the runtime with those defaults, the statements, and the closing line |
| Generator.DefaultProgramLayout | src/generator.js:30-103 | without a global range, a program is the header, the hoisted inputs, the runtime with defaults 1, 5, 1, the statements, and the closing line |
| Generator.StepCallEmitsOneLine | src/generator.js:126-132 | a step call emits one `applyFunction` line and stands for the range's current value |
| Generator.ComparisonTranslated | src/generator.js:147-157 | a conditional becomes a JavaScript ternary; `==` and `!=` become strict; other operators are kept |
| Generator.PowerTranslated | src/generator.js:198-199 | `**` becomes `Math.pow` |
| Generator.UnaryTranslated | src/generator.js:200-204 | negation and complement are emitted parenthesized before the operand |
| Generator.TimeCallLosesItsRange | src/generator.js:212-214 | as written, a time call slices `undefined` whichever range it names |
| Generator.TimeCallText | src/generator.js:212-214 | corrected: a time call slices the named range's values up to the count |
| Generator.TimeCallNamesItsRange | src/generator.js:212-214 | corrected: time calls on distinct ranges emit distinct text |
| Emitter.Emitter.constructor | src/generator.js:2-16 | the generator starts with no names, no lines, input counter 0 and no declared ranges |
| Emitter.Emitter.TargetName | src/generator.js:5-12 | the uniquifier method computes what `Generator.TargetName` specifies |
| Emitter.Emitter.Declare | src/generator.js:116-119 | a parameter's range is declared on first use only |
| Emitter.Emitter.Hoist | src/generator.js:217-221 | an input line is hoisted and the counter advances |
| Emitter.Emitter.Gen | src/generator.js:14 | generating any node computes what `Generator.Gen` specifies |
| Emitter.Emitter.GenFuncDef | src/generator.js:106-120 | as `Generator.Gen` for definitions |
| Emitter.Emitter.GenSlice | src/generator.js:112-115 | as `Generator.GenSlice` for slice bodies |
| Emitter.Emitter.GenPrint | src/generator.js:122-124 | as `Generator.Gen` for print statements |
| Emitter.Emitter.GenStepCall | src/generator.js:126-132 | as `Generator.Gen` for step calls |
| Emitter.Emitter.GenExpr | src/generator.js:134-140 | as `Generator.Gen` for expression lists |
| Emitter.Emitter.GenAll | src/generator.js:136-138 | the loop over a list computes what `Generator.GenAll` specifies |
| Emitter.Emitter.GenCond | src/generator.js:147-159 | as `Generator.Gen` for conditionals |
| Emitter.Emitter.GenBinary | src/generator.js:161-195 | as `Generator.Gen` for the four binary kinds |
| Emitter.Emitter.GenPair | src/generator.js:163-165 | as `Generator.GenPair` for an operator between two operands |
| Emitter.Emitter.GenFactor | src/generator.js:197-206 | as `Generator.Gen` for factors |
| Emitter.Emitter.GenTimeCall | src/generator.js:212-214 | as `Generator.Gen` for time calls (corrected) |
| Emitter.Emitter.GenInput | src/generator.js:216-222 | as `Generator.Gen` for input statements |
| Emitter.Emitter.GenLeaf | src/generator.js:224-238 | as `Generator.Gen` for literals (a character literal by its first UTF-16 code unit), identifiers and nodes without a generator |
| Emitter.Emitter.GenCall | src/generator.js:240-242 | as `Generator.Gen` for calls |
| Emitter.Emitter.RangeDefaults | src/generator.js:30-34 | the range defaults are computed as `Generator.RangeDefaults` specifies |
| Emitter.ProgramLines | src/generator.js:20-104 | a program's lines are those `Generator.ProgramLines` specifies |
| Emitter.GenerateProgram | src/generator.js:245-246 | a program's text is the rendered lines joined by newlines |
| Emitter.GenerateOther | src/generator.js:245-246 | generating a node that is not a program yields its rendered output lines |
| Emitter.Generate | src/generator.js:1-247 | the generated text equals `Generator.Generate` (with the corrected time call) |
| Runtime.GenerateRange | src/generator.js:41-48 | start and end are kept; the step keeps its size and points from start towards end |
| Runtime.Run | src/generator.js:80-98 | the stepping loop appends at most the iteration budget |
| Runtime.Appended | src/generator.js:71-99 | the values one `applyFunction` call appends: a priming value on an empty range, then the stepping loop |
| Runtime.MutableRange.constructor | src/generator.js:50-57 | a new mutable range is empty, with index -1 and size 0 |
| Runtime.MutableRange.ApplyFunction | src/generator.js:71-99 | the values appended are those `Appended` specifies; size, index and the value count grow together; the range stays valid |
| Runtime.MutableRange.Step | src/generator.js:80-98 | the loop appends exactly `Run` from the next point |
| Runtime.RunValues | src/generator.js:80-98 | the j-th value appended is the function at the j-th next point, and that point had not passed the end |
| Runtime.RunStops | src/generator.js:80-98 | the loop stops only when the budget is spent or the next point passes the end |
| Runtime.GeneratedRangeStaysBetween | src/generator.js:41-98 | over a range from `generateRange` with a positive step, every visited point lies between start and end |
| Runtime.AppendedBound | src/generator.js:71-99 | one call appends at most the budget, plus one priming value on an empty range |
| Runtime.PrimingUsesStart | src/generator.js:72-79 | on an empty range the first value appended is the function at the range's start |

## Left out

- The Ohm grammar and parser (`src/parser.js`) and the command line (`src/funktion.js`) are not part of this model. The analyzer starts from a parse tree.
- Ohm's semantics plumbing is not modelled. `sourceString` is a token's text. The location prefix an error carries (`getLineAndColumnMessage`) is an opaque string in each `Token`.
- Numbers are integers. Decimal literals and floating-point results are not modelled. `**` with a negative literal exponent, which JavaScript folds to a fraction, is left unfolded. `~` is modelled exactly, through the 32-bit conversion of integers.
- `Program` statements go through `flatMap` in the optimizer (src/optimizer.js:10). The model maps them one to one, because no rule returns an array for a statement.
- The `functions` map built in the `Program` generator (src/generator.js:24-29) is never read, and is not modelled.
- Patching `type` onto `Number.prototype` and `String.prototype` (src/core.js:128-129) is not modelled.
- A node's `type` is computed by `Core.TypeOf` rather than stored. The two differ only after the optimizer replaces a child, and nothing downstream reads the type again.
- The emitted runtime's I/O (`console.log`, `rl.question`, `rl.close`, `funktionPrint`) is modelled only as the text emitted. The function `applyFunction` applies is a parameter, and its results are text (`Runtime.Value`).
- A `Program` node below the root (the analyzer never builds one) is modelled by its text only, `[object Object]`. The model drops the second header and runtime block that the source's `Program` generator would also emit.
- A JavaScript `Map` keyed by `undefined` and one keyed by the string `"undefined"` are the same key in the model.
- The analyzer's `lookup` never consults the parent scope (src/analyzer.js:18), and a child scope shares the parent's bindings (src/analyzer.js:29). The model follows the code: unlike lexical scoping, a function's parameter stays visible to the statements after its definition.
- The ternary check passes its location object where the required type belongs (src/analyzer.js:175). It passes only when an operand is `any`. Otherwise JavaScript fails while building the message, which the model records as `MissingLocation`.
- `core.js` has no `sliceExpr` constructor, so analysing a slice always fails (`NoSliceConstructor`). The generator still handles slice bodies.
- Optimizer.AddRule, Optimizer.MulRule, Optimizer.WrapperRulesKeepValue, Optimizer.OptimizePreservesValue: where the source reads `.kind` of a missing operand and throws (an additive or multiplicative node whose right operand is missing while its optimized left operand is a literal), the model returns the node and `Eval` gives it the left operand's value. The analyzer never builds such a node: every literal it builds sits inside a `Primary` (src/analyzer.js:279-281), which the optimizer does not descend into (`Optimizer.PrimaryBlocksFolding`), so no operand of a wrapper becomes a literal.
- Generator.Gen, Generator.GenTimeCall, Emitter.Emitter.GenTimeCall, Emitter.Generate: the time call follows the corrected field, `funcCall`; the text the source emits as written is `Generator.TimeCallAsWritten` (see Findings).
- The optimizer's `numrange` rule is registered under a key that no node kind matches (src/optimizer.js:129-133), so it never fires. The model has no such rule.

## Findings

| source | as written | input that shows it | evidently intended | confidence | as-written member | corrected member |
|---|---|---|---|---|---|---|
| src/optimizer.js:75-77 | two literal operands of any multiplicative operator fold to their product | `6 / 2` folds to 12, and `7 % 2` to 14 | fold by the operator: the product for `*`, the quotient for `/`, the remainder for `%` | not executed | Optimizer.AsWrittenFoldsQuotientToProduct | Optimizer.OptimizePreservesValue |
| src/generator.js:212-214 | the time call reads the field `id`, but the node stores its callee as `funcCall` (src/core.js:76-78), so every time call slices `undefined` | `f:3` and `g:3` both become `undefined.values.slice(0, 3)` | slice the named range's values | not executed | Generator.TimeCallLosesItsRange | Generator.TimeCallNamesItsRange |
