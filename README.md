# algterm in Dafny

algterm is a small Python library of symbolic terms. A `Term` is a variable (`x`, `y_1`), a Greek
constant (`α`) or a function symbol (`f(x, α)`) with an arity. An `Expression` is a tree that
operator overloading builds out of terms and numbers. It has a textual rendering and a
simplification step. The repository holds one mature module and four drafts of the same idea.
This project models all five, one Dafny module per component:

| module | file | models |
|---|---|---|
| `LibTerm` | lib_term.dfy | `Term` of algterm/algtermlib/core.py: the three symbol patterns, the character scanners `_validate_arguments` and `_split_arguments` (as methods with loops), the `Term` object with its setters |
| `LibExpression` | lib_expression.dfy | `Expression` of algterm/algtermlib/core.py: the tree, the minimally parenthesised `__repr__`, composition, `simp` with the `**` → `^` clean-up |
| `LibReading` | lib_reading.dfy | a reader for what `__repr__` writes, used to prove that the minimal parenthesisation loses no structure |
| `GptsTerm` | gpts_term.dfy | `Term` of algterm/gpts_examples/algterm.py: its regex grammar, its arity count and its setters |
| `GptsExpression` | gpts_expression.dfy | `Expression` of algterm/gpts_examples/algterm.py: tuples, `_to_string`, `_simplify_recursive` |
| `DraftCore` | draft_core.dfy | algterm/core.py: the guarded `__set_arity`, the `Term`, and the type-checked, string-building `Expression` |
| `ArityTerm` | arity_term.dfy | algterm/algterm.py: the arity-first `Term` with `set_value`, `copy`, `simplify` and `__repr__` |
| `TokenTerm` | token_term.dfy | algterm/gpts_examples/algterm_v2.py: `tokenize_expression`, `is_nullary`, the nullary-term list and the `Term` |
| `Text`, `Wrappers` | text.dfy, wrappers.dfy | shared helpers: character classes, `str.strip`, `str.split`, `str.index`, decimal numerals; `Option`, `Result`, `Outcome` and the Python exceptions as `Error` values |

Modelling conventions:

- Python raises; the model returns an `Outcome` (setters) or a `Result` (constructors and
  functions). The exception class and its message are kept.
- A Python constructor that can raise becomes a module-level `NewTerm` method. It builds the
  object with a `Blank()` constructor, then calls the setters in the order `__init__` does.
- Every `Term` is a `class` whose setters change their fields under `modifies`.
- Expressions are values: datatypes with pure functions over them.
- `re.match(p + "$", s)` also accepts one final newline. The model reproduces this: `Chomp(s)`
  drops that newline before a pattern is matched.
- Every regular expression becomes an explicit recogniser over `seq<char>`.
- `sympy` is not modelled. `sympy.ratsimp` and `sympy.simplify` become an `engine` function
  parameter, and `sympy.Symbol(s)` is taken to keep the name `s`.

Where the design description and the code disagree, the model follows the code:

- The library (algterm/algtermlib/core.py) accepts nested function arguments such as `f(g(,),y)`,
  and does not look inside them. The gpts draft refuses them.
- Only algterm/core.py tries to keep an arity from being replaced, and its guard fails on every
  construction (see Findings). The other variants let `set_arity` and `set_symbol` overwrite
  freely.
- Errors are Python's: `ValueError` with the source's message, `IndexError`, `TypeError`,
  `Warning`. There are no dedicated error kinds.
- `copy` in algterm/algterm.py builds the term again through the constructor. It therefore
  re-checks the symbol and drops a falsy expression. It is not a deep copy.
- In algterm/gpts_examples/algterm_v2.py, `set_expression` stores an empty expression before
  `parse_expression` refuses it.
- In algterm/core.py, `set_expression` fails with `TypeError` on a value of a type it does not
  accept.

## Model

| member | source | states |
|---|---|---|
| LibTerm.ValidateArguments | algterm/algtermlib/core.py:33-62 | the loop with its parenthesis stack returns exactly `ArgumentsValid`: the list reads to the end, no parenthesis is left open, and every stripped top-level piece is a variable, a constant or `name(...)` |
| LibTerm.SplitArguments | algterm/algtermlib/core.py:64-85 | the loop returns the stripped pieces between top-level commas, or the `IndexError` of popping an empty stack when a `)` closes nothing |
| LibTerm.ScanMeaning | algterm/algtermlib/core.py:43-59 | the scan succeeds iff no prefix closes more parentheses than it opened. It then ends at the text's depth and has closed one piece per top-level comma. Its pieces joined with commas give back the text |
| LibTerm.ArgumentsValidMeaning | algterm/algtermlib/core.py:45-62 | validation holds iff the list is balanced (never negative, zero at the end) and every stripped piece is accepted. There is then one more piece than top-level commas |
| LibTerm.VarConstNotFunction | algterm/algtermlib/core.py:87-94 | a variable or constant never matches the function pattern, so the priority order of the tests changes no outcome |
| LibTerm.ArityZeroIffVarConst | algterm/algtermlib/core.py:91-99 | `set_symbol` gives arity 0 exactly to variables and constants |
| LibTerm.FunctionArity | algterm/algtermlib/core.py:94-99 | a function symbol whose arguments validate gets arity = top-level commas + 1 |
| LibTerm.ClassifyVarConst | algterm/algtermlib/core.py:87-93 | `x`, `y_1` and `α` get arity 0 |
| LibTerm.ClassifyAccepts | algterm/algtermlib/core.py:94-99 | `f(x, α)` gets arity 2; the space before `α` is stripped before matching |
| LibTerm.ClassifyEmptyArgument | algterm/algtermlib/core.py:45-62 | `f(x,,y)` and `f()` raise "Invalid arguments in function" |
| LibTerm.ClassifyUnbalanced | algterm/algtermlib/core.py:53-62 | an unmatched `)` (`f(x))`) and an unclosed `(` (`f((x)`) raise "Invalid arguments in function" |
| LibTerm.ClassifyBadName | algterm/algtermlib/core.py:102-103 | `f(x` and `1x` raise "Invalid term name" |
| LibTerm.ClassifyNested | algterm/algtermlib/core.py:41-48 | `f(g(,),y)` gets arity 2: the inner comma is not top-level and the nested argument is not validated again |
| LibTerm.Term.SetArity | algterm/algtermlib/core.py:21-24 | a negative arity raises and changes nothing; otherwise it is stored |
| LibTerm.Term.SetSymbol | algterm/algtermlib/core.py:26-103 | the outcome is the classifier's verdict. On success, symbol and arity are both replaced and agree with the grammar. On failure, neither changes |
| LibTerm.Term.SetExpression | algterm/algtermlib/core.py:105-113 | refused on arity 0 with the field unchanged; otherwise the value is stored as a leaf `Expression` |
| LibTerm.Term.Copy | algterm/algtermlib/core.py:115-121 | a fresh object with equal fields |
| LibTerm.Term.Compose | algterm/algtermlib/core.py:131-144 | `term op other` renders as the bare symbol, the operator, and `other` parenthesised iff it is an Expression binding no tighter |
| LibTerm.NewTerm | algterm/algtermlib/core.py:8-19 | construction succeeds iff the symbol classifies and no truthy expression is given to an arity-0 term. The new term is valid, holds the symbol, and holds a leaf of `expr` exactly when `expr` is truthy |
| LibExpression.Compose | algterm/algtermlib/core.py:160-198 | the new node renders with this expression parenthesised iff it binds less tightly than `op` (a leaf always does), and `other` iff it binds no more tightly |
| LibExpression.SumTimesConstant | algterm/algtermlib/core.py:185-198 | `(x + y) * α` keeps the parentheses the left operand needs |
| LibExpression.DifferenceOfDifference | algterm/algtermlib/core.py:194-198 | a right operand of equal precedence stays parenthesised: `a - (b - c)` |
| LibExpression.DifferenceChain | algterm/algtermlib/core.py:191-198 | a left operand of equal precedence does not: `a - b - c` |
| LibExpression.LeafOperandExample | algterm/algtermlib/core.py:181-196 | a leaf `Expression` operand has precedence 0 and is parenthesised even beside `+` |
| LibExpression.ReplacePowersComplete | algterm/algtermlib/core.py:208 | no `**` survives the replacement |
| LibExpression.ReplacePowersIdentity | algterm/algtermlib/core.py:208 | the replacement leaves text unchanged iff it has no `**` |
| LibExpression.ReplacePowersInverse | algterm/algtermlib/core.py:208 | on text without its own `^`, writing `^` back as `**` recovers the engine's answer |
| LibExpression.Simp | algterm/algtermlib/core.py:201-208 | for any argument (an `Expression`, a `Term`, a number or a string) the engine reads its `str` text. The result has no `**`, and equals the engine's answer whenever that had none |
| LibReading.NeedsParensFits | algterm/algtermlib/core.py:191-196 | the two parenthesis rules are "does not fit at precedence k" and "does not fit at k + 1" |
| LibReading.RenderParses | algterm/algtermlib/core.py:175-198 | the rendering of every canonical expression reads back as that same tree |
| LibReading.RenderInjective | algterm/algtermlib/core.py:175-198 | distinct canonical expressions render differently: the minimal parenthesisation is unambiguous |
| LibReading.ComposeReadsBack | algterm/algtermlib/core.py:160-173 | composing canonical expressions gives a node whose rendering reads back as that node |
| GptsExpression.Operate | algterm/gpts_examples/algterm.py:76-83 | the new `Expression` renders as both operands around the operator, in parentheses, and holds the tuple of the two operands |
| GptsExpression.ReadsBack | algterm/gpts_examples/algterm.py:134-151 | the rendering of a readable tree, followed by anything that cannot extend it, reads back as the tree without `Expression` wrappers |
| GptsExpression.ToStringReadsBack | algterm/gpts_examples/algterm.py:124-151 | `_to_string` loses nothing but the wrappers: a full parenthesisation reads back |
| GptsExpression.SimplifyPreservesValue | algterm/gpts_examples/algterm.py:93-122 | with like terms combined into `2 * x`, simplification keeps the value of the tree under every assignment of integers to the symbols that gives the tree a value |
| GptsExpression.CombinePreservesValue | algterm/gpts_examples/algterm.py:110-122 | one folding step keeps the value |
| GptsExpression.CollapseLosesTerm | algterm/gpts_examples/algterm.py:110-112 | as written, `x + x` simplifies to `x`, although it is worth 2 where `x` is worth 1 |
| GptsExpression.SimplifyNormal | algterm/gpts_examples/algterm.py:100-122 | whatever simplification returns is in normal form, under either like-terms rule |
| GptsExpression.NormalFixed | algterm/gpts_examples/algterm.py:100-122 | a tree in normal form is its own simplification |
| GptsExpression.SimplifyIdempotent | algterm/gpts_examples/algterm.py:85-122 | simplifying twice is simplifying once |
| GptsExpression.SimplifyExamples | algterm/gpts_examples/algterm.py:113-122 | numbers fold under `+` and `*`; `x ^ 2` becomes a new `^` Expression; a tuple raised to a number fails; `x + x` becomes `2 * x` under the corrected rule |
| GptsTerm.ArgumentsMeaning | algterm/gpts_examples/algterm.py:33 | a matched argument list split at its commas gives one piece per name, each the name with surrounding whitespace |
| GptsTerm.ArgumentNames | algterm/gpts_examples/algterm.py:33 | every argument the pattern matches is a variable or a constant |
| GptsTerm.ArgumentCount | algterm/gpts_examples/algterm.py:33-40 | the list has as many comma-separated pieces as names, one more than its commas |
| GptsTerm.FunctionBounds | algterm/gpts_examples/algterm.py:40 | in a function symbol the first `)` comes after the first `(` and ends the argument list |
| GptsTerm.CountedArityIsNames | algterm/gpts_examples/algterm.py:38-40 | the count at line 40 is the number of arguments the pattern matched |
| GptsTerm.VarConstNotFunction | algterm/gpts_examples/algterm.py:31-38 | a variable or constant never has the function shape |
| GptsTerm.ClassifyMeaning | algterm/gpts_examples/algterm.py:31-42 | variables and constants get arity 0. A function symbol gets its number of arguments, each a variable or constant. Exactly the remaining symbols raise "Invalid term name" |
| GptsTerm.ClassifyFunction | algterm/gpts_examples/algterm.py:33-40 | a symbol that is not a variable or constant but has the function shape gets one arity per argument, and every argument is a variable or a constant |
| GptsTerm.ArgumentsExample | algterm/gpts_examples/algterm.py:33 | `x, α` is the argument list of the two names `x` and `α` |
| GptsTerm.MatchExample | algterm/gpts_examples/algterm.py:33 | `f(x, α)` matches with arguments `x` and `α` |
| GptsTerm.ClassifyExample | algterm/gpts_examples/algterm.py:38-40 | `f(x, α)` gets arity 2 |
| GptsTerm.NestedRefused | algterm/gpts_examples/algterm.py:33-42 | a nested function argument (`f(g(x))`) raises "Invalid term name" |
| GptsTerm.Term.SetArity | algterm/gpts_examples/algterm.py:20-23 | a negative arity raises and changes nothing; otherwise it is stored |
| GptsTerm.Term.SetSymbol | algterm/gpts_examples/algterm.py:25-42 | the outcome is the classifier's verdict. On success, symbol and arity are replaced and agree with the grammar; on failure, neither changes |
| GptsTerm.Term.SetExpression | algterm/gpts_examples/algterm.py:44-52 | refused on arity 0; otherwise the value is stored wrapped in an `Expression` |
| GptsTerm.Term.Operate | algterm/gpts_examples/algterm.py:57-64 | `term op other` renders as `(symbol op other)` and holds the tuple of the term and `other` |
| GptsTerm.NewTerm | algterm/gpts_examples/algterm.py:6-18 | construction succeeds iff the symbol classifies and no truthy expression is given to an arity-0 term; the term is then valid and holds the symbol and the wrapped expression |
| DraftCore.NewExpression | algterm/core.py:86-95 | a value is accepted iff its type is accepted, and is then wrapped unchanged and shown as it was; otherwise `TypeError` with the source's message |
| DraftCore.ExpressionOperate | algterm/core.py:97-107 | the sum shows as `(v + o)`, the product as `v * o`, the power as `(v)^p`; each result holds a string |
| DraftCore.TermOperate | algterm/core.py:66-81 | the term's symbol and the other's text, joined by ` + `, ` * ` or `^` |
| DraftCore.ProductKeepsNoGrouping | algterm/core.py:74-104 | `(x + y) * z` and `x + y * z` come out as the same text, while an `Expression` sum keeps its grouping |
| DraftCore.ArityIsArguments | algterm/core.py:39-46 | the arity `len(s[1:-1].split(','))` is the number of arguments the pattern matched |
| DraftCore.SliceArity | algterm/core.py:44 | `s[1:-1]` split at commas has one piece per matched argument |
| DraftCore.ArityCheckMeaning | algterm/core.py:20-25 | the guard passes iff `n >= 0` and the current arity is at most 0. As written it also fails when no arity is set yet; the corrected guard passes then |
| DraftCore.Term.SetArity | algterm/core.py:20-25 | the outcome is the guard's; the arity changes only when it passes |
| DraftCore.Term.SetSymbol | algterm/core.py:27-46 | a refused symbol changes nothing. An accepted one is stored before the arity guard runs, and the arity changes only if the guard passes |
| DraftCore.Term.SetExpression | algterm/core.py:48-56 | refused on arity 0; otherwise the outcome is the `Expression` constructor's, and the value is stored only on success |
| DraftCore.Term.Copy | algterm/core.py:58-64 | a fresh object with equal fields |
| DraftCore.Term.Repr | algterm/core.py:66-72 | the symbol, as an f-string shows it |
| DraftCore.NewTerm | algterm/core.py:7-18 | as written, every classified symbol ends in `TypeError`. With the corrected guard, construction succeeds iff the symbol classifies and the expression is acceptable. It then stores the symbol with its arity, and `Expression(expr)` exactly when `expr` is truthy (otherwise no expression) |
| DraftCore.NoTermAsWritten | algterm/core.py:13-25 | with the arity initialised to `None`, the guard fails for every accepted symbol |
| DraftCore.ConstructionFixed | algterm/core.py:20-46 | with `None` read as "no arity yet", every accepted symbol is stored: arity 0 for variables and constants, the number of arguments for functions |
| ArityTerm.LowerAlpha | algterm/algterm.py:40 | `isalpha() and islower()` holds iff the string is non-empty and all lower-case letters |
| ArityTerm.ConstantSymbolMeaning | algterm/algterm.py:30-38 | arity 0: accepted iff the first character is a lower-case letter (the one-letter branch adds nothing). The empty string raises `IndexError`, every other refusal is `ValueError` |
| ArityTerm.FunctionSymbolMeaning | algterm/algterm.py:39-43 | arity ≥ 1: accepted iff the symbol is a non-empty string of lower-case letters |
| ArityTerm.SymbolRuleExamples | algterm/algterm.py:30-43 | `αβ` is accepted as a function symbol despite the message; `x_1` is accepted at arity 0 but refused at arity 1; `π` is accepted and `X` refused |
| ArityTerm.KeepTruthy | algterm/algterm.py:16 | `expression if expression else None` keeps exactly the truthy expressions, unchanged |
| ArityTerm.DescribeKind | algterm/algterm.py:89-93 | the three forms are told apart by their first nine characters, each naming one kind of term; a variable's name is what stands in its parentheses |
| ArityTerm.Term.SetArity | algterm/algterm.py:19-22 | a negative arity raises and changes nothing; otherwise it is stored, the symbol not re-checked |
| ArityTerm.Term.SetSymbol | algterm/algterm.py:24-43 | the outcome is the rule of the current arity; an accepted symbol is stored and makes the term valid |
| ArityTerm.Term.SetExpression | algterm/algterm.py:45-53 | succeeds iff the arity is not 0, storing the expression as given |
| ArityTerm.Term.SetValue | algterm/algterm.py:55-63 | succeeds iff the arity is 0, storing the value as given |
| ArityTerm.Term.Simplify | algterm/algterm.py:73-81 | raises "No expression to simplify." iff none is attached; otherwise the engine's answer on it |
| ArityTerm.Term.Repr | algterm/algterm.py:83-93 | the text starts with `Constant(` iff arity 0 with a value, `Variable(` iff arity 0 without, and `Function(` iff arity ≥ 1. The whole text is `Constant(sym, value=v)`, `Variable(sym)` or `Function(sym, arity=n, expression=e)`, with `e` shown as `None` when there is none |
| ArityTerm.Term.Copy | algterm/algterm.py:65-71 | a valid term copies to a fresh term with equal fields, except that a falsy expression is dropped. An invalid one (arity changed after the symbol) raises the symbol check's error |
| ArityTerm.NewTerm | algterm/algterm.py:5-17 | succeeds iff the arity is non-negative and the symbol passes that arity's rule. The term is then valid, the expression is kept iff truthy, and the value is stored without a guard |
| TokenTerm.MatchLength | algterm/gpts_examples/algterm_v2.py:21 | what the pattern takes at the front of the text is a token: an identifier, one operator character or a decimal number |
| TokenTerm.MatchLongest | algterm/gpts_examples/algterm_v2.py:21 | the pattern matches at the front of the text whenever some token starts there, and no longer prefix is a token: the alternation takes the longest token |
| TokenTerm.Tokenize | algterm/gpts_examples/algterm_v2.py:12-22 | every element `re.findall` returns is a token |
| TokenTerm.TokenizeEmpty | algterm/gpts_examples/algterm_v2.py:12-22 | `re.findall` returns no token exactly when no character of the text can start one (a Latin letter, `_`, a digit or an operator character) |
| TokenTerm.TokenizeAppend | algterm/gpts_examples/algterm_v2.py:21-22 | text, a space and more text tokenize as the tokens of the first part followed by those of the second |
| TokenTerm.TokenizeToken | algterm/gpts_examples/algterm_v2.py:21 | a token on its own tokenizes as itself |
| TokenTerm.Retokenize | algterm/gpts_examples/algterm_v2.py:12-22 | tokens written out with single spaces tokenize back to the same list |
| TokenTerm.NullaryToken | algterm/gpts_examples/algterm_v2.py:1-9 | among tokens, `is_nullary` holds exactly for identifiers; numbers and operators never qualify |
| TokenTerm.NullaryTerms | algterm/gpts_examples/algterm_v2.py:68 | the filter keeps exactly the nullary tokens |
| TokenTerm.NullaryConcat | algterm/gpts_examples/algterm_v2.py:68 | the filter distributes over concatenation, so it keeps order and duplicates |
| TokenTerm.NullaryOfAppend | algterm/gpts_examples/algterm_v2.py:67-68 | the nullary terms of two texts joined by a space are those of the first, then those of the second |
| TokenTerm.SpacedExample | algterm/gpts_examples/algterm_v2.py:21-22 | `x + y - y` tokenizes as `x`, `+`, `y`, `-`, `y`, the spaces dropped |
| TokenTerm.ProductTokens | algterm/gpts_examples/algterm_v2.py:21-22 | `2*y` gives three tokens without spaces |
| TokenTerm.NullaryExample | algterm/gpts_examples/algterm_v2.py:67-68 | the nullary terms of `x + y - y` are `x`, `y`, `y` |
| TokenTerm.FractionExample | algterm/gpts_examples/algterm_v2.py:21 | `1.5` is one token |
| TokenTerm.PointExample | algterm/gpts_examples/algterm_v2.py:21-22 | in `1.x` the point ends the number and is skipped |
| TokenTerm.NullaryNewline | algterm/gpts_examples/algterm_v2.py:9 | `$` lets `x` followed by a newline through `is_nullary`; `2` is not nullary |
| TokenTerm.Term.SetArity | algterm/gpts_examples/algterm_v2.py:44-47 | a negative arity raises and changes nothing; otherwise it is stored |
| TokenTerm.Term.ParseExpression | algterm/gpts_examples/algterm_v2.py:60-68 | raises "Expression is empty." iff no non-empty expression is attached. Otherwise the nullary terms become those of the expression, so the invariant holds |
| TokenTerm.Term.SetExpression | algterm/gpts_examples/algterm_v2.py:49-58 | refused on arity 0. Otherwise the expression is stored and parsed (an empty one is stored and then refused), and the nullary terms stay those of the expression |
| TokenTerm.Term.Repr | algterm/gpts_examples/algterm_v2.py:70-79 | the symbol, followed by `^(arity) = expression` exactly when a non-empty expression is attached |
| TokenTerm.NewTerm | algterm/gpts_examples/algterm_v2.py:25-42 | succeeds iff the arity is non-negative. The value is kept only on arity 0, and the nullary terms are parsed iff the expression is truthy, without the arity-0 guard |

## Left out

- `sympy`: `ratsimp`, `simplify` and `Symbol` are a foreign library. The first two are an `engine`
  function parameter; a symbol is kept as its name.
- Floating point: no `float` values are modelled. Python `**` with a negative integer exponent
  (a float result) is the error value `NotModelled`; with a zero base it is `ZeroDivisionError`.
- Aliasing of terms inside expressions: a `Term` operand is held by its symbol. A later
  `set_symbol` on that term would change how an existing expression prints in Python, but not in
  the model.
- `copy.deepcopy` is a fresh object with equal fields. Expressions are values, so nothing is shared.
- `str.isalpha` and `str.islower` cover Latin and basic Greek letters only, not the full Unicode
  tables. `\d` is the ASCII digits only, where Python also accepts other Unicode decimal digits.
  `\s` and `str.strip` follow Python's whitespace set, including the Unicode spaces.
- LibReading.RenderParses: limited to canonical trees. These have non-negative numbers and symbols
  without spaces or parentheses that are not all digits; the rendering of other values is
  ambiguous in the source too.
- The `Str` operand of `LibExpression` (a string passed to `Expression`) renders as its text and is
  not read back.
- Demo code (`examples()`, the `__main__` blocks) and algterm/algtermlib/algterm.py (an import
  shim) have no logic to model.

## Findings

| source | as written | input that shows it | evidently intended | confidence | as-written member | corrected member |
|---|---|---|---|---|---|---|
| algterm/gpts_examples/algterm.py:110-112 | `x + x` with like symbols simplifies to the single term `x` | `x + x`, with `x` worth 1: value 2 before, 1 after | combining like terms into `2 * x`, so that simplification keeps the value | medium, not executed | GptsExpression.CollapseLosesTerm | GptsExpression.SimplifyPreservesValue |
| algterm/core.py:23 | `self.arity > 0` with `arity` initialised to `None` at line 14 raises `TypeError` | `Term('x')`: set_symbol calls `__set_arity(0)` while the arity is still `None` | treat "no arity yet" as passing the guard, so any accepted symbol can be constructed | high, not executed | DraftCore.NoTermAsWritten | DraftCore.ConstructionFixed |
