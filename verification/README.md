# luth — front ends and evaluator, modelled in Dafny

luth is a small scripting language written in Rust. Its repository holds three
generations of the same pipeline: tokens, then a recursive-descent parser, then
a tree-walking evaluator. This project models all three and proves properties
of each, together with corrected versions of the defects the proofs exposed.

- **luth-lang** (modules `Luth*`, `RuntimeEnv`, `RuntimeInterp`,
  `RuntimeProperties`, `LuthCorrections`). This is the current parser and the
  evaluator it feeds. It covers:
  - declarations with optional `String`/`Int`/`Boolean` annotations;
  - `x = e;`, `x++;` and `x--;`;
  - `print`, `if`/`else` with blocks, `while`, and blocks;
  - four binary precedence levels: comparison, additive, multiplicative, and
    logical, which binds *tightest*;
  - `!`, parentheses, and the inline `if c : e elif c : e else : e`.

  The evaluator keeps a typed store. `define` binds without a check, and
  `assign` checks the value against the declared annotation.
- **src/runtime** (modules `RuntimeToken`, `RuntimeAst`, `RuntimeParser`,
  `RuntimePrinter`, `RuntimeStatementRoundTrip`, `RuntimeParserProperties`).
  This is the parser of the generation before. It has:
  - only `+ - * /`, with the conventional precedence;
  - primaries that are single tokens;
  - `if` branches that are single statements.
- **src/parser + src/interpreter** (modules `Early*`). This is the first
  generation. It has:
  - an `Option`-returning parser;
  - one-token expressions;
  - an untyped store;
  - an interpreter that reports an error and carries on.

Every parsing function takes the tokens and a cursor. It returns one of:
- `Success(value, next)`;
- `Failure(msg, next)`, with the cursor exactly where the source leaves it;
- `Panic(at)`, for an out-of-bounds `peek`/`advance`.

The top-level `parse` is classified once and for all as `Returned`, `Diverges`
(the loop revisits the same state forever) or `Panics`.
`LuthParserProperties.ParseLoop` writes the loop out literally, one iteration
per unit of fuel. `LuthParserProperties.LoopAgrees` and
`LuthParserProperties.DivergesForever` show that the classification is right.

Each parser has a printer as its partner, and the round-trip theorems say the
parser reads every printed program back:
- `LuthStatementRoundTrip.ProgramRoundTrip`;
- `RuntimeStatementRoundTrip.ProgramRoundTrip`;
- `EarlyRoundTrip.ProgramRoundTrip`.

The printer of luth-lang puts every compound expression in parentheses.
`LuthParserProperties.Grouping` states the precedence table separately. The
src/runtime parser has no parentheses, so its printer covers exactly the trees
its precedence levels build (`RuntimePrinter.Shaped`).

Numbers are `real`. The f64 operations (`+ - * / %`, `powf`) and the `{}`
rendering of a number are parameters: `RuntimeEnv.FloatOps`, and `show` for the
earliest interpreter. Every property holds whatever those functions compute.

Where the files of one generation disagree, the model follows the code that
runs:
- The evaluator in `src/runtime/interpreter` matches on blocks, `while`, `++`
  and `--`. Only the luth-lang syntax tree has those forms, so the evaluator is
  paired with that tree. The src/runtime syntax tree is parsed, not evaluated.
- The evaluator has no arm for the luth-lang inline `if` or `Nil` expression.
  Evaluating either gives the outcome `NoArm`, and nothing is claimed about it.
- `src/interpreter/interpreter.rs` calls `define` with three arguments, but
  `src/interpreter/environment.rs` takes two. The annotation is dropped.
- `src/parser/ast.rs` declares neither the `value_type` fields nor `Print` that
  `src/parser/parser.rs` builds. The tree modelled is the one the parser builds.
- Each token enum lacks tokens that its scanner pushes, or that its parser
  matches. Each alphabet is the union of the three.
- Every scanner declares an end-of-input token (`#[end] EOF`) and passes it on
  as `Token::EOF` whenever the scanner library yields it. Whether the library
  yields it at the end of the text is outside the repository, so both cases
  are covered. `EOF` starts no statement, so a token sequence ending in `EOF`
  makes the parse loop spin:
  - `LuthParserProperties.EofSpins`;
  - `RuntimeParserProperties.EofSpins`;
  - `EarlyProperties.EofSpins`.

  The parser properties are therefore stated for any token sequence. The
  round trips are stated for printed tokens without an `EOF`. The corrected
  loop (`LuthCorrections.ParseEnding`) reads printed programs back with or
  without an `EOF` after them.

## Model

| member | source | states |
|---|---|---|
| LuthToken.Emit | luth-lang/src/runtime/lexer/lexer.rs:149-213 | A lexeme is dropped exactly when it is whitespace, a comment or unrecognised; every other lexeme becomes one token |
| LuthToken.Tokens | luth-lang/src/runtime/lexer/lexer.rs:145-217 | The scanner never emits more tokens than lexemes, and emits one per lexeme when none is skipped |
| LuthToken.WordOperatorsCollapse | luth-lang/src/runtime/lexer/lexer.rs:185-190 | The words `and`/`or` become the same tokens as `&&`/`||` |
| LuthToken.TokensAppend | luth-lang/src/runtime/lexer/lexer.rs:149-214 | Scanning distributes over concatenation, so tokens come out in lexeme order |
| LuthParser.ParseType | luth-lang/src/runtime/parser/parser.rs:367-374 | Consumes exactly one token and succeeds iff it is one of the three type keywords, giving the matching type; panics only at the end |
| LuthParser.ParseOperator | luth-lang/src/runtime/parser/parser.rs:343-365 | Consumes one token and succeeds iff it is a binary operator or `!`; the result is never `Assign` and is spelled by that token |
| LuthParser.ParseExpression | luth-lang/src/runtime/parser/parser.rs:215-221 | A successful expression reads at least one token and leaves a token after it; the cursor never passes the end |
| LuthParser.ParseInlineIf | luth-lang/src/runtime/parser/parser.rs:169-213 | A successful inline if is an `InlineIf` node and consumes at least one token |
| LuthParser.ParseElifs | luth-lang/src/runtime/parser/parser.rs:183-194 | The elif loop keeps the arms already collected as a prefix and stops only in front of a token that is not `elif` |
| LuthParser.Level | luth-lang/src/runtime/parser/parser.rs:223-296 | Each binary level consumes at least one token and stops only in front of a token that is not an operator of its own level |
| LuthParser.LevelLoop | luth-lang/src/runtime/parser/parser.rs:223-245 | The fold loop stops in front of a token not of its level; if it reads nothing it returns the left operand unchanged |
| LuthParser.ParseUnary | luth-lang/src/runtime/parser/parser.rs:298-309 | A leading `!` always gives a `Not` node; the cursor moves forward |
| LuthParser.ParsePrimary | luth-lang/src/runtime/parser/parser.rs:311-341 | Fails without consuming exactly when the token is not a literal, a name or `(` |
| LuthParser.ParseStatement | luth-lang/src/runtime/parser/parser.rs:26-35 | A failure leaves the cursor in place exactly when the token starts no statement; a success consumes input |
| LuthParser.ParseVariableDeclaration | luth-lang/src/runtime/parser/parser.rs:37-61 | A declaration spans at least five tokens, starts with its name, ends with `;`, and has an annotation iff `:` follows the name |
| LuthParser.ParseVariableAssignment | luth-lang/src/runtime/parser/parser.rs:63-102 | An assignment statement starts with its name, carries no annotation and ends with `;` |
| LuthParser.ParsePrintStatement | luth-lang/src/runtime/parser/parser.rs:104-118 | A print statement is `print ( … ) ;`, at least five tokens |
| LuthParser.ParseIfStatement | luth-lang/src/runtime/parser/parser.rs:120-138 | A parsed `if` has a block as then-branch and a block as else-branch when it has one |
| LuthParser.ParseWhileStatement | luth-lang/src/runtime/parser/parser.rs:140-147 | A parsed `while` has a block body |
| LuthParser.ParseBlock | luth-lang/src/runtime/parser/parser.rs:149-167 | A block runs from `{` to `}`; it fails without consuming only when the token is not `{` |
| LuthParser.BlockItems | luth-lang/src/runtime/parser/parser.rs:157-159 | The block loop keeps earlier statements as a prefix and stops only in front of `}` |
| LuthParser.ParseFrom | luth-lang/src/runtime/parser/parser.rs:14-24 | The loop returns `Ok` with the kept statements as a prefix, spins only on a token that starts no statement, or panics only at the end |
| LuthParser.Parse | luth-lang/src/runtime/parser/parser.rs:14-24 | `parse` never returns `Err`; when it does not return it spins on a token that starts no statement |
| LuthParserProperties.ParseLoop | luth-lang/src/runtime/parser/parser.rs:14-24 | The literal loop keeps its statements as a prefix while running, finishes only with `Ok`, and crashes only at the end |
| LuthParserProperties.SpinKeepsState | luth-lang/src/runtime/parser/parser.rs:14-35 | A statement failing where it started leaves the loop in the same state after any number of iterations |
| LuthParserProperties.DivergesForever | luth-lang/src/runtime/parser/parser.rs:14-24 | When the classification says the loop spins, no fuel makes the literal loop finish or crash |
| LuthParserProperties.LoopAgrees | luth-lang/src/runtime/parser/parser.rs:14-24 | With one iteration per token, the literal loop ends exactly as the classification says |
| LuthParserProperties.NeverErr | luth-lang/src/runtime/parser/parser.rs:14-24 | `parse` never finishes with `Err` |
| LuthParserProperties.DispatchProgress | luth-lang/src/runtime/parser/parser.rs:26-35 | A token that starts no statement gives "Unexpected token in statement" in place and the loop spins; any other token is consumed unless it panics |
| LuthParserProperties.FailureResumes | luth-lang/src/runtime/parser/parser.rs:14-24 | A statement that fails after reading is dropped and parsing resumes where it stopped |
| LuthParserProperties.ParseOutcomes | luth-lang/src/runtime/parser/parser.rs:376-388 | `parse` panics only by reading past the last token, and never on an empty sequence |
| LuthParserProperties.LeftFold | luth-lang/src/runtime/parser/parser.rs:223-296 | Two operators of one level group to the left |
| LuthParserProperties.TighterRight | luth-lang/src/runtime/parser/parser.rs:223-296 | A tighter second operator takes the middle operand |
| LuthParserProperties.TighterLeft | luth-lang/src/runtime/parser/parser.rs:223-296 | A tighter first operator keeps its own operands |
| LuthParserProperties.Grouping | luth-lang/src/runtime/parser/parser.rs:223-296 | For any two binary operators, `a o1 b o2 c` groups right iff `o2` is of a tighter level, left otherwise |
| LuthParserProperties.SubtractionFoldsLeft | luth-lang/src/runtime/parser/parser.rs:247-261 | `a - b - c` is `(a - b) - c` |
| LuthParserProperties.LogicalBindsTighterThanProduct | luth-lang/src/runtime/parser/parser.rs:263-296 | `a * b && c` is `a * (b && c)` |
| LuthParserProperties.AssignmentShape | luth-lang/src/runtime/parser/parser.rs:63-102 | `x++`/`x--` become `Increment`/`Decrement` of the name; `x = e` becomes `Binary(x, Assign, e)`; nothing else follows a name |
| LuthParserProperties.DeclarationShape | luth-lang/src/runtime/parser/parser.rs:37-61 | A declaration's annotation is the type keyword after `:`, and it has one iff `:` follows the name |
| LuthParserProperties.BadAnnotation | luth-lang/src/runtime/parser/parser.rs:367-374 | A non-type token after `:` fails the declaration with "Unexpected token in type" just after that token |
| LuthParserProperties.BodiesNeedBraces | luth-lang/src/runtime/parser/parser.rs:149-154 | A `while` body or `if` then-branch without `{` fails in front of it |
| LuthParserProperties.ElseNeedsBrace | luth-lang/src/runtime/parser/parser.rs:126-128 | An `else` not followed by `{` fails in front of the missing brace |
| LuthParserProperties.BlockPropagates | luth-lang/src/runtime/parser/parser.rs:157-159 | The first failing statement fails its block with its own message and cursor |
| LuthParserProperties.ElifOrder | luth-lang/src/runtime/parser/parser.rs:183-194 | The `elif` arm read first comes first |
| LuthParserProperties.MissingElseIsNil | luth-lang/src/runtime/parser/parser.rs:196-212 | An inline if without `else` gets `Nil` as its else branch |
| LuthParserProperties.ElseArm | luth-lang/src/runtime/parser/parser.rs:196-212 | An inline if with `else : e` keeps `e` as its else branch |
| LuthParserProperties.TrailingIfPanics | luth-lang/src/runtime/parser/parser.rs:124-131 | A printed program whose last statement is an `if` without `else` panics at the end instead of parsing |
| LuthParserProperties.LastIfPanics | luth-lang/src/runtime/parser/parser.rs:124-131 | An `if` without `else` at the very end of the tokens panics on the look-ahead for `else` |
| LuthParserProperties.TruncatedDeclarationPanics | luth-lang/src/runtime/parser/parser.rs:37-61 | `var x` with nothing after it panics instead of reporting an error |
| LuthParserProperties.EofSpins | luth-lang/src/runtime/parser/parser.rs:14-35 | `var x = 1; EOF` never finishes: the loop spins on `EOF` |
| LuthParserProperties.DeclarationThenStray | luth-lang/src/runtime/parser/parser.rs:14-35 | A declaration followed by any token that starts no statement spins on that token |
| LuthPrinter.ExpressionRoundTrip | luth-lang/src/runtime/parser/parser.rs:215-341 | Every printed expression (inline if excepted) is read back exactly, consuming its tokens |
| LuthStatementRoundTrip.StatementParses | luth-lang/src/runtime/parser/parser.rs:26-167 | Every printed statement is read back exactly; an open `if` needs a following token that is not `else` |
| LuthStatementRoundTrip.ProgramRoundTrip | luth-lang/src/runtime/parser/parser.rs:14-24 | A printed program whose last statement is not an open `if` parses back to itself |
| RuntimeEnv.Arith | src/runtime/interpreter/environment.rs:22-96 | Arithmetic gives a number iff both operands are numbers, the float operation of the operator; `Nil` otherwise |
| RuntimeEnv.ValueEq | src/runtime/interpreter/environment.rs:98-108 | `==` on values is structural equality, `Nil == Nil` included |
| RuntimeEnv.Compare | src/runtime/interpreter/environment.rs:110-117 | Only two numbers are ordered, by their real order |
| RuntimeEnv.Below | src/runtime/interpreter/environment.rs:110-117 | `<`/`<=` hold only between numbers in the corresponding real relation |
| RuntimeEnv.CompareEqual | src/runtime/interpreter/environment.rs:98-117 | Ordering says `Equal` exactly when `==` holds between numbers; `<=` is `<` or equal numbers |
| RuntimeEnv.Define | src/runtime/interpreter/environment.rs:126-128 | Binds the name to the value and annotation and leaves every other name alone |
| RuntimeEnv.Assign | src/runtime/interpreter/environment.rs:130-153 | Succeeds iff the name exists and its annotation admits the value; keeps the annotation and other names; the two error messages |
| RuntimeEnv.Get | src/runtime/interpreter/environment.rs:155-161 | Returns the stored value iff the name exists, else the undefined-variable error |
| RuntimeEnv.AssignPreservesWellTyped | src/runtime/interpreter/environment.rs:130-153 | A successful `assign` keeps every typed variable holding an admitted value |
| RuntimeEnv.DefineSkipsTypeCheck | src/runtime/interpreter/environment.rs:126-128 | `define` can store a number under a `String` annotation |
| RuntimeEnv.NilNeverAdmitted | src/runtime/interpreter/environment.rs:131-146 | Assigning `Nil` to a typed variable always fails with the type-mismatch message |
| RuntimeEnv.GetAfterUpdate | src/runtime/interpreter/environment.rs:126-161 | What is defined or assigned is what `get` returns next; other names are unaffected |
| RuntimeInterp.Truthy | src/runtime/interpreter/interpreter.rs:152-160 | `Nil` is falsy, a boolean is its own truth value, a string is truthy iff it is non-empty, and a number iff it is not zero |
| RuntimeInterp.Display | src/runtime/interpreter/interpreter.rs:163-171 | Strings print as themselves, `Nil` as `nil`, booleans as `true`/`false` |
| RuntimeInterp.Evaluate | src/runtime/interpreter/interpreter.rs:77-149 | Evaluation never adds or removes names, never changes an annotation and keeps a well-typed store well typed |
| RuntimeInterp.Counter | src/runtime/interpreter/interpreter.rs:119-147 | `++`/`--` keep the store's names and annotations |
| RuntimeInterp.Exec | src/runtime/interpreter/interpreter.rs:27-75 | Running a statement never loses a name and only appends to the output |
| RuntimeInterp.Loop | src/runtime/interpreter/interpreter.rs:65-72 | A `while` loop never loses a name and only appends to the output |
| RuntimeInterp.ExecList | src/runtime/interpreter/interpreter.rs:49-53 | A statement list never loses a name and only appends to the output |
| RuntimeInterp.Interpret | src/runtime/interpreter/interpreter.rs:15-25 | A program run starts from an empty store and empty output; an empty program changes nothing, and an error in the first statement is the result of the whole run |
| RuntimeProperties.ExecFuel | src/runtime/interpreter/interpreter.rs:27-75 | A statement that finishes with some fuel finishes identically with more |
| RuntimeProperties.LoopFuel | src/runtime/interpreter/interpreter.rs:65-72 | A loop that finishes with some fuel finishes identically with more |
| RuntimeProperties.ExecListFuel | src/runtime/interpreter/interpreter.rs:49-53 | A statement list that finishes with some fuel finishes identically with more |
| RuntimeProperties.NeverFails | src/runtime/interpreter/interpreter.rs:29-48 | A declaration or a `print` never ends in an error and never runs out of fuel: `define` cannot fail |
| RuntimeProperties.WhileUnfolds | src/runtime/interpreter/interpreter.rs:65-72 | With fuel left, `while c b` runs exactly as `if c { b; while c b }` with one unit less |
| RuntimeProperties.MissingElseIsEmpty | src/runtime/interpreter/interpreter.rs:54-63 | An `if` without `else` runs exactly as the same `if` with an empty `else` block: a falsy condition does nothing |
| RuntimeProperties.NegationSwapsBranches | src/runtime/interpreter/interpreter.rs:54-63 | `if !c e else t` runs exactly as `if c t else e`: the branch is chosen by the truthiness of the condition |
| RuntimeProperties.EndlessLoop | src/runtime/interpreter/interpreter.rs:65-72 | `while true {}` never finishes, whatever the fuel |
| RuntimeProperties.ExecListAppend | src/runtime/interpreter/interpreter.rs:15-25 | Running `ss + ts` runs `ss` and then `ts` only if `ss` finished normally |
| RuntimeProperties.StopsAtFirstError | src/runtime/interpreter/interpreter.rs:15-25 | After an error or a halt no later statement runs |
| RuntimeProperties.OperatorTreesArePure | src/runtime/interpreter/interpreter.rs:77-117 | Every expression without inline if, `Nil` or counters evaluates without halting and leaves the store unchanged |
| RuntimeProperties.UnknownNameIsNil | src/runtime/interpreter/interpreter.rs:82 | An undefined name reads as `Nil`, not as an error |
| RuntimeProperties.Comparisons | src/runtime/interpreter/interpreter.rs:101-106 | The four orderings are true only between numbers in the real order; `==`/`!=` are structural |
| RuntimeProperties.LogicalAndMarkers | src/runtime/interpreter/interpreter.rs:98-108 | `&&`/`||` give booleans of the operands' truthiness; `Assign` and `Not` as binary operators give `Nil` |
| RuntimeProperties.NoShortCircuit | src/runtime/interpreter/interpreter.rs:84-99 | `false && x++` still increments `x` |
| RuntimeProperties.CounterOnName | src/runtime/interpreter/interpreter.rs:119-147 | On a number the counter moves it by one and writes it back if the annotation admits it, and panics otherwise; on anything else it gives `Nil` |
| RuntimeProperties.AssignmentStoresNil | src/runtime/interpreter/interpreter.rs:37-44 | `x = e;` as parsed stores `Nil` in an untyped variable, fails on a typed one, and fails on an undeclared one |
| RuntimeProperties.PairParses | luth-lang/src/runtime/parser/parser.rs:14-24 | A printed two-statement program, the second not an open `if`, parses back to itself |
| RuntimeProperties.PairRuns | src/runtime/interpreter/interpreter.rs:15-25 | Two statements run as the first, then the second from where the first finished normally |
| RuntimeProperties.AssignmentBug | src/runtime/interpreter/interpreter.rs:84-109 | `var x = v; x = e;` parses, then leaves `x` as `Nil` when untyped or fails with a type mismatch when typed |
| RuntimeProperties.IncrementPanics | src/runtime/interpreter/interpreter.rs:119-133 | `var x: T = n; x++;` with `T` not `Int` parses, then halts in the `unwrap` panic |
| LuthCorrections.ParseIfGuarded | luth-lang/src/runtime/parser/parser.rs:119-137 | The corrected `if` gives the same outcome as the one as written, except where that one panics on the look-ahead for `else` at the end; there it returns the `if` without an `else` branch, ending at the last token |
| LuthCorrections.ParseStatementGuarded | luth-lang/src/runtime/parser/parser.rs:119-137 | The corrected `statement` differs from the one as written only by returning an `if` where that one panics at the end |
| LuthCorrections.ParseFromEnding | luth-lang/src/runtime/parser/parser.rs:14-24 | The corrected loop, with the corrected `statement`, never spins; it keeps statements as a prefix and panics only at the end |
| LuthCorrections.ParseEnding | luth-lang/src/runtime/parser/parser.rs:14-24 | The corrected `parse` never spins |
| LuthCorrections.EndingParses | luth-lang/src/runtime/parser/parser.rs:14-24 | Printed statements followed by `EOF` are all kept, in order |
| LuthCorrections.EndingRoundTrip | luth-lang/src/runtime/parser/parser.rs:14-24 | Every printed program followed by `EOF` parses back to itself, including one ending in an open `if` |
| LuthCorrections.LastIfGuarded | luth-lang/src/runtime/parser/parser.rs:119-137 | A printed `if` without `else` that ends the tokens is read back by the corrected `statement` |
| LuthCorrections.GuardedParses | luth-lang/src/runtime/parser/parser.rs:14-24 | Printed statements that fill the rest of the tokens are all kept, in order, by the corrected loop |
| LuthCorrections.GuardedRoundTrip | luth-lang/src/runtime/parser/parser.rs:119-137 | Every printed program, with no `EOF` after it, parses back to itself, including one ending in an `if` without `else` |
| LuthCorrections.OpenIfReturned | luth-lang/src/runtime/parser/parser.rs:119-137 | `if true { }` on its own is returned as an `if` without an `else` branch |
| LuthCorrections.AssignedValue | luth-lang/src/runtime/parser/parser.rs:80-87 | The stored value differs from the parsed one exactly when the parser wrapped it in the `Assign` marker |
| LuthCorrections.DefineChecked | src/runtime/interpreter/environment.rs:126-153 | A checked `define` succeeds iff the annotation admits the value, and then it is `define`; otherwise the mismatch error |
| LuthCorrections.DefineCheckedKeepsWellTyped | src/runtime/interpreter/environment.rs:126-128 | A checked `define` keeps the store well typed |
| LuthCorrections.CounterNeverPanics | src/runtime/interpreter/interpreter.rs:119-147 | In a well-typed store `x++`/`x--` on a name never panic |
| LuthCorrections.ExecCorrected | src/runtime/interpreter/interpreter.rs:27-44 | The corrected statement never loses a name and only appends to the output |
| LuthCorrections.InterpretCorrected | src/runtime/interpreter/interpreter.rs:15-25 | The corrected program run starts from an empty store and output; an empty program changes nothing, and an error in the first statement ends the run |
| LuthCorrections.RunCorrected | src/runtime/interpreter/interpreter.rs:15-25 | The corrected run never loses a name and only appends to the output |
| LuthCorrections.PairRunsCorrected | src/runtime/interpreter/interpreter.rs:15-25 | Two statements run the corrected way: the first, then the second from where it finished |
| LuthCorrections.DeclarationCorrected | src/runtime/interpreter/interpreter.rs:29-36 | A checked declaration stores the value iff the annotation admits it, else fails with the mismatch error on an empty store |
| LuthCorrections.AssignmentCorrected | src/runtime/interpreter/interpreter.rs:37-44 | An unwrapped assignment stores the value of `e` iff the annotation admits it, else fails with the mismatch error |
| LuthCorrections.AssignmentStoresValue | src/runtime/interpreter/interpreter.rs:37-44 | `var x = v; x = e;` run the corrected way leaves `x` holding the value of `e`, or fails with the mismatch error at the declaration or at the assignment |
| LuthCorrections.IncrementRejected | src/runtime/interpreter/interpreter.rs:119-133 | `var x: T = n; x++;` with `T` not `Int` is rejected at the declaration instead of panicking |
| RuntimeParser.ParseType | src/runtime/parser/parser.rs:189-196 | Consumes one token and succeeds iff it is one of the three type keywords, giving the matching type |
| RuntimeParser.ParseOperator | src/runtime/parser/parser.rs:179-187 | Consumes one token and succeeds iff it is `+ - * /`, giving the operator that token spells |
| RuntimeParser.ParseExpression | src/runtime/parser/parser.rs:117-119 | A successful expression consumes input and stops in front of a token that is no operator |
| RuntimeParser.Level | src/runtime/parser/parser.rs:121-151 | Each level consumes input and stops in front of no operator of its own or a looser level |
| RuntimeParser.Operand | src/runtime/parser/parser.rs:121-135 | The operand of the additive level stops in front of no multiplicative operator |
| RuntimeParser.LevelLoop | src/runtime/parser/parser.rs:121-151 | The fold loop stops in front of a token not of its level, reads nothing in front of a tighter operator, and then returns the left operand |
| RuntimeParser.ParseUnary | src/runtime/parser/parser.rs:153-155 | `unary` is exactly `primary` |
| RuntimeParser.ParsePrimary | src/runtime/parser/parser.rs:157-177 | Succeeds iff the token is a literal or name, consuming exactly it; otherwise "Unexpected token in expression" in place |
| RuntimeParser.ParseStatement | src/runtime/parser/parser.rs:26-34 | A failure leaves the cursor in place exactly when the token starts no statement |
| RuntimeParser.ParseVariableDeclaration | src/runtime/parser/parser.rs:36-60 | A declaration spans at least five tokens, starts with its name, ends with `;`, and has an annotation iff `:` follows the name |
| RuntimeParser.ParseVariableAssignment | src/runtime/parser/parser.rs:62-79 | An assignment is `name = … ;` with no annotation |
| RuntimeParser.ParsePrintStatement | src/runtime/parser/parser.rs:81-95 | A print statement is `print ( … ) ;` |
| RuntimeParser.ParseIfStatement | src/runtime/parser/parser.rs:97-115 | A parsed `if` is an `If` node and consumes input |
| RuntimeParser.ParseFrom | src/runtime/parser/parser.rs:14-24 | The loop returns `Ok` with the kept statements as a prefix, spins only on a token that starts no statement, or panics only at the end |
| RuntimeParser.Parse | src/runtime/parser/parser.rs:14-24 | `parse` never returns `Err`; when it does not return it spins on a token that starts no statement |
| RuntimeParserProperties.DispatchProgress | src/runtime/parser/parser.rs:26-34 | A token that starts no statement fails in place and the loop spins; any other token is consumed unless it panics |
| RuntimeParserProperties.FailureResumes | src/runtime/parser/parser.rs:14-24 | A statement that fails after reading is dropped and parsing resumes where it stopped |
| RuntimeParserProperties.EofSpins | src/runtime/parser/parser.rs:14-34 | `var x = 1; EOF` never finishes: the loop spins on `EOF` |
| RuntimeParserProperties.OnlyAtomsStart | src/runtime/parser/parser.rs:157-177 | An expression starting with anything but a literal or name fails in place |
| RuntimeParserProperties.NoParentheses | src/runtime/parser/parser.rs:157-177 | `( a )` is not an expression |
| RuntimeParserProperties.LogicalOperatorsStop | src/runtime/parser/parser.rs:179-187 | `a && b` stops after `a`: `&&` is not an operator of this parser |
| RuntimeParserProperties.Grouping | src/runtime/parser/parser.rs:121-151 | For any two of `+ - * /`, `a o1 b o2 c` groups right iff `o2` is multiplicative and `o1` additive, left otherwise |
| RuntimeParserProperties.SubtractionFoldsLeft | src/runtime/parser/parser.rs:121-135 | `a - b - c` is `(a - b) - c` |
| RuntimeParserProperties.ProductBindsTighter | src/runtime/parser/parser.rs:121-151 | `a + b * c` is `a + (b * c)` |
| RuntimeParserProperties.AssignmentShape | src/runtime/parser/parser.rs:62-79 | A statement starting with a name is `name = e ;` with `e` the expression read after `=`, stored as parsed |
| RuntimeParserProperties.DeclarationShape | src/runtime/parser/parser.rs:36-60 | A declaration's annotation is the type keyword after `:`, and it has one iff `:` follows the name |
| RuntimeParserProperties.BadAnnotation | src/runtime/parser/parser.rs:189-196 | A non-type token after `:` fails the declaration with "Unexpected token in type" just after it |
| RuntimeParserProperties.IfShape | src/runtime/parser/parser.rs:97-115 | An `if` is its condition, the statement after it, and an else-branch iff `else` follows that statement |
| RuntimeParserProperties.ElseBindsInner | src/runtime/parser/parser.rs:97-115 | In `if c1 if c2 s1 else s2`, the `else` belongs to the inner `if` |
| RuntimeParserProperties.TrailingIfPanics | src/runtime/parser/parser.rs:103-108 | A printed program ending in an `if` without a final `else` panics at the end |
| RuntimeParserProperties.LastOpenPanics | src/runtime/parser/parser.rs:103-108 | A statement ending open at the very end of the tokens panics on the look-ahead for `else` |
| RuntimeParserProperties.TruncatedDeclarationPanics | src/runtime/parser/parser.rs:36-60 | `var x` with nothing after it panics instead of reporting an error |
| RuntimePrinter.ExpressionRoundTrip | src/runtime/parser/parser.rs:117-177 | Every tree of the shape the precedence levels build is read back exactly from its printed tokens |
| RuntimeStatementRoundTrip.ProgramRoundTrip | src/runtime/parser/parser.rs:14-115 | A printed program, with no open `if` in front of an `else` or at the end, parses back to itself |
| EarlyParser.ParseExpression | src/parser/parser.rs:106-126 | An expression is exactly one literal or name token; anything else is `None` in place |
| EarlyParser.TypeOf | src/parser/parser.rs:42-53 | Only the three type keywords are annotations |
| EarlyParser.ParseStatement | src/parser/parser.rs:26-33 | `None` leaves the cursor in place exactly when the token starts no statement |
| EarlyParser.ParseVariableDeclaration | src/parser/parser.rs:35-67 | A declaration is `var name (: type)? = atom ;` with the annotation read from the keyword |
| EarlyParser.ParseVariableAssignment | src/parser/parser.rs:69-87 | An assignment is exactly `name = atom ;`, four tokens, with no annotation |
| EarlyParser.ParsePrintStatement | src/parser/parser.rs:89-104 | A print statement is exactly `print ( atom ) ;`, five tokens |
| EarlyParser.ParseFrom | src/parser/parser.rs:14-24 | The loop returns `Ok` with the kept statements as a prefix, spins only on a token that starts no statement, or panics only at the end |
| EarlyParser.Parse | src/parser/parser.rs:14-24 | `parse` never returns `Err` |
| EarlyProperties.DispatchProgress | src/parser/parser.rs:26-33 | A token that starts no statement gives `None` in place and the loop spins |
| EarlyProperties.NoneResumes | src/parser/parser.rs:14-24 | A statement giving `None` after reading is dropped and parsing resumes where it stopped |
| EarlyProperties.EofSpins | src/parser/parser.rs:14-33 | `var x = 1; EOF` never finishes: the loop spins on `EOF` |
| EarlyProperties.BadAnnotation | src/parser/parser.rs:42-53 | A non-type token after `:` gives `None` just after it, and parsing resumes there |
| EarlyProperties.OneTokenExpressions | src/parser/parser.rs:69-87 | `x = a b` gives `None` after reading `b`, so the next statement starts after `b` |
| EarlyProperties.TruncatedDeclarationPanics | src/parser/parser.rs:35-43 | `var x` with nothing after it panics |
| EarlyRoundTrip.StatementParses | src/parser/parser.rs:26-104 | Every printed statement is read back exactly, consuming its tokens |
| EarlyRoundTrip.ProgramRoundTrip | src/parser/parser.rs:14-24 | Every printed program parses back to itself |
| EarlyEnv.Define | src/interpreter/environment.rs:23-25 | Binds the name and leaves every other name alone |
| EarlyEnv.Assign | src/interpreter/environment.rs:27-34 | Succeeds iff the name exists, then only that name changes; else the undefined-variable error |
| EarlyEnv.Get | src/interpreter/environment.rs:36-41 | Returns the stored value iff the name exists |
| EarlyEnv.AssignIsRedefine | src/interpreter/environment.rs:23-34 | A successful `assign` is a `define` of a name already present |
| EarlyEnv.GetAfterWrite | src/interpreter/environment.rs:23-41 | What is written is what `get` returns next; other names are unaffected |
| EarlyInterp.Display | src/interpreter/interpreter.rs:65-74 | Strings print as themselves, `Nil` as `nil`, booleans as `true`/`false` |
| EarlyInterp.Evaluate | src/interpreter/interpreter.rs:49-62 | Literals evaluate to themselves; a name to its stored value, or `Nil` when undefined |
| EarlyInterp.Exec | src/interpreter/interpreter.rs:21-47 | A statement never loses a name; only `print` appends to the output, and `print` leaves the store unchanged |
| EarlyProperties.RunAppend | src/interpreter/interpreter.rs:15-19 | Running `ss + ts` is running `ss` and then `ts`: nothing stops a run early |
| EarlyProperties.RunKeys | src/interpreter/interpreter.rs:21-47 | After a run the store holds exactly the earlier names and the declared ones |
| EarlyProperties.RunOutput | src/interpreter/interpreter.rs:21-47 | A run only appends to the output, and a run without `print` appends nothing |
| EarlyProperties.AssignmentEffect | src/interpreter/interpreter.rs:21-47 | An assignment to an undefined name changes nothing; otherwise it stores the value |
| EarlyProperties.ErrorDoesNotStop | src/interpreter/interpreter.rs:15-47 | A `print` after a failed assignment still prints |
| EarlyProperties.AnnotationIgnored | src/interpreter/interpreter.rs:21-47 | `var x: Int = 1; x = "a"; print(x);` parses and prints `a`: annotations are never checked |

## Left out

- Scanners: the regular expressions and the logos library. Only each token alphabet and the luth-lang emission step (`LuthToken.Emit`) are modelled.
- The command line (`main.rs`, `cli/`), file reading and error printing. `print` output is a trace of strings, and `interpret`'s `eprintln!` is the `Failed` outcome.
- f64 semantics: rounding, NaN, infinities and the decimal rendering. They are the `FloatOps` and `show` parameters.
- The inline `if` in the round trip: the luth-lang printer does not print it, so `LuthPrinter.ExpressionRoundTrip` excludes it. Its parsing is stated by `LuthParserProperties.MissingElseIsNil`, `ElseArm` and `ElifOrder`.
- RuntimeInterp.Evaluate: nothing is claimed about the inline `if` and `Nil` expressions. The evaluator has no arm for them, and their outcome is the stub `NoArm`.
- RuntimeInterp.Exec: a `while` loop spends one unit of fuel per iteration. A loop that does not end is `OutOfFuel`, not real divergence. `RuntimeProperties.ExecFuel` shows that fuel only bounds the run.
- RuntimeInterp.Truthy: a number is truthy iff it is not zero as a real number. The f64 comparison also makes NaN truthy, and NaN is not modelled.
- EarlyInterp.Exec: the annotation passed to the three-argument `define` is dropped, because the store's `define` takes two arguments.
- LuthCorrections.ParseStatementGuarded: the guarded look-ahead applies to top-level statements, and statements inside blocks are read as written. In a printed block an `if` is always followed by at least the block's `}`, so the unguarded look-ahead there never reads past the end.
- LuthCorrections.ExecCorrected: the corrected declaration and assignment apply to top-level statements. Statements inside blocks, `if` and `while` run as written.
- Constructors (`Parser::new`, `Environment::new`, `Interpreter::new`) are the empty start states: cursor 0, the empty map, the empty trace.

## Findings

| source | as written | input that shows it | evidently intended | confidence | as-written member | corrected member |
|---|---|---|---|---|---|---|
| src/runtime/interpreter/interpreter.rs:84-109 | The parser wraps an assignment's value in `Binary(x, Assign, e)`, and the evaluator maps the `Assign` operator to `Nil` | `var x = 1; x = 2;` leaves `x` as `nil`; `var x: Int = 1; x = 2;` fails with a type mismatch | `x` holds 2 | not executed | RuntimeProperties.AssignmentBug | LuthCorrections.AssignmentStoresValue |
| src/runtime/interpreter/environment.rs:126-128 | `define` stores a value without checking it against the annotation, so a later `x++` fails inside `assign` and `unwrap` panics | `var x: String = 5; x++;` | the declaration is rejected with the type-mismatch error, and `++` never panics | not executed | RuntimeProperties.IncrementPanics | LuthCorrections.IncrementRejected |
| luth-lang/src/runtime/parser/parser.rs:14-24 | The loop stops only past the last token. If the scanner library yields the `#[end]` variant `EOF` at the end of the text, `statement` fails on it without moving the cursor. That the library does so is not shown in this repository | `var x = 1;` as tokens ending in `EOF` | `parse` stops at `EOF` and returns the declaration | not executed | LuthParserProperties.EofSpins | LuthCorrections.EndingRoundTrip |
| luth-lang/src/runtime/parser/parser.rs:124-131 | After the then-block, `if` peeks for `else` even when no token is left | `if true { }` as the whole token sequence | the `if` statement is returned without an else-branch | not executed | LuthParserProperties.TrailingIfPanics | LuthCorrections.OpenIfReturned |
