# RundiInterpreter core, modelled in Dafny

RundiInterpreter is a small Lisp-style interpreter written in Rust, with
messages in Kirundi. This project models its pieces that contain real logic and
proves properties about them:

- **The whitespace tokenizer** (`src/Tokenizer.rs`, module `Tokenizer`). The
  input is split on whitespace, then each word becomes `OpenParen`,
  `CloseParen`, `Number` (all-numeric words, parsed as `i64`) or `Symbol`.
  The `parse().unwrap()` panic becomes a `Failure`. `tokenize` is a method
  with a loop over the words. It is proved equal to the function `Lex`, and
  the lemmas about `Lex` give the properties below.
- **The s-expression parser** (`src/parser.rs`, module `Parser`).
  `parse_tokens` is a recursive method with the source's `while` loop. It is
  proved equal to the mutually recursive functions `ParseExpr`/`ParseItems`.
  `parse` adds the check for tokens left over. The four `panic!`s become the
  `ParseError` values `UnexpectedEnd`, `UnexpectedClose`, `MissingClose` and
  `TrailingTokens`, each carrying the source's message text.
- **The scoped environment** (`src/environment/environment.rs`, module
  `Environments`). It is a class with a mutable `variables` map from names to
  `i32` values and a fixed `parent`. The parent is moved into the child
  (`Box<Environment>`), so the model keeps it as a value (`Scope`) that
  nothing can change afterwards. `get` is the recursive `Scope.Get` along the
  parent chain.
- **The alphanumeric-run tokenizer** (`src/tokenizer/tokenizer.rs`, module
  `AlnumTokenizer`). This is a character loop with a `current` buffer. It is
  proved to emit one well-formed `Identifier` token per maximal alphanumeric
  run.
- **Error rendering** (`src/error/error.rs`, module `Errors`). `Display::fmt`
  is the function `Render`. The proofs show that the message determines the
  error: the function `Recover` reads an error back from its message.

Support modules:
- `Results` holds `Option` and `Result`.
- `Chars` holds the Rust `char` classes the tokenizers use: `is_whitespace`,
  `is_numeric` and `is_alphanumeric`.

Scalars are bounded explicitly: `Int64` is `i64` and `Int32` is `i32`.

Four behaviours of the code are easy to expect otherwise, and the model
follows the code in each:
- A numeric word that does not fit in `i64` is not turned into a `Symbol`:
  `parse().unwrap()` panics on it. The model returns a `Failure` for it.
- The parent of an environment is owned by its child (`Box`), not shared.
  Once moved in, nothing else can change it.
- `remove` deletes only the local binding. Because `get` searches the parent
  chain on every call, the parent's binding for that name becomes visible
  again.
- Environment values are `i32` numbers, not general runtime values.

## Model

| member | source | states |
|---|---|---|
| Tokenizer.Words | src/Tokenizer.rs:11 | `split_whitespace` yields only non-empty words with no whitespace in them; which words they are is pinned down by `SplitRun`, `SplitAppend` and `SplitAllWhitespace` |
| Tokenizer.SplitRun | src/Tokenizer.rs:11 | a stretch with no whitespace in it stays a single word, joined to the word it continues |
| Tokenizer.WordsOfWord | src/Tokenizer.rs:11 | a word with no whitespace around it is the one word `split_whitespace` yields for it |
| Tokenizer.ParseInt64 | src/Tokenizer.rs:15 | `word.parse::<i64>()` on an all-numeric word succeeds, with the decimal value, exactly when every character is an ASCII digit and the value fits in `i64`; it fails with `InvalidDigit` exactly when some character is not an ASCII digit, and with `Overflow` exactly when the digits exceed `i64::MAX` |
| Tokenizer.Classify | src/Tokenizer.rs:12-16 | a word is `OpenParen` iff it is `(`, `CloseParen` iff it is `)`, a `Number` with its decimal value (never negative) iff it is all ASCII digits and fits in `i64`, a `Symbol` holding the word itself iff it is not all-numeric and not a parenthesis; it fails (with that word) iff it is all-numeric but not an `i64` |
| Tokenizer.Tokenize | src/Tokenizer.rs:9-20 | the loop returns `Lex(input)`: it succeeds iff every word classifies, then gives exactly one token per word, in order, each the word's classification |
| Tokenizer.LexWordsPerWord | src/Tokenizer.rs:10-19 | one token per word, in order; failure iff some word fails, and then with the error of the first failing word |
| Tokenizer.NumbersNonNegative | src/Tokenizer.rs:15 | every `Number` token of a successful tokenization is non-negative |
| Tokenizer.LeadingZero | src/Tokenizer.rs:15 | a leading `0` does not change the value of a digit word |
| Tokenizer.LeadingZerosExample | src/Tokenizer.rs:15 | `"007"` becomes `Number(7)` |
| Tokenizer.ParenthesesStandAlone | src/Tokenizer.rs:13-16 | `(` and `)` alone are parentheses; `(define`, `10)` and `-5` are symbols |
| Tokenizer.NumeralLettersAreSymbols | src/Tokenizer.rs:15-16 | a word made of a Roman numeral is all-numeric and panics in `parse`, while a word made of one of the two letters in the Roman-numeral block is a `Symbol` |
| Tokenizer.WhitespaceOnly | src/Tokenizer.rs:11-19 | empty or whitespace-only input yields no tokens |
| Tokenizer.SplitAppend | src/Tokenizer.rs:11 | a whitespace character separates the words before it from the words after it |
| Tokenizer.LexWordsAppend | src/Tokenizer.rs:11-18 | tokenizing two word sequences one after the other gives the first tokens followed by the second, and the first failure wins |
| Tokenizer.LexAppend | src/Tokenizer.rs:11-18 | `tokenize(a + " " + b)` is `tokenize(a)` followed by `tokenize(b)`, and the first failure wins |
| Tokenizer.TokenizeExample | src/Tokenizer.rs:9-19 | `( + 1 2 )` gives `[OpenParen, Symbol("+"), Number(1), Number(2), CloseParen]` |
| Parser.ParseExpr | src/parser.rs:25-52 | on success the rest is a proper suffix of the input (at least one token consumed); the failure is `UnexpectedEnd` on empty input, `UnexpectedClose` on a leading `)`, and `MissingClose` otherwise |
| Parser.ParseItems | src/parser.rs:35-49 | the loop after `(` returns a `List` and a proper suffix, or fails only with `MissingClose` |
| Parser.ParseTokens | src/parser.rs:25-52 | the method with the recursive `while` loop computes `ParseExpr`; empty input gives `UnexpectedEnd`; a leading number or symbol gives that leaf and the input minus that one token; a leading `)` gives `UnexpectedClose`; on success the rest is a proper suffix |
| Parser.Parse | src/parser.rs:16-23 | fails as `parse_tokens` does; succeeds with its expression iff no token is left over; any leftover token gives `TrailingTokens` |
| Parser.ParseFlatten | src/parser.rs:30-46 | for every expression `e` and tokens `r`, parsing `Flatten(e) + r` succeeds with `(e, r)` |
| Parser.ParseFlattenItems | src/parser.rs:39-46 | the loop reads the flattened items and the closing `)`, appending the items to those already read |
| Parser.ParseExprSound | src/parser.rs:25-52 | whenever `parse_tokens` succeeds, the input is the flattening of the returned expression followed by the returned rest |
| Parser.ParseExprIff | src/parser.rs:25-52 | `parse_tokens(ts)` succeeds with `(e, r)` exactly when `ts == Flatten(e) + r` |
| Parser.ListHasClose | src/parser.rs:39-48 | a token sequence starting with `(` that `parse_tokens` accepts contains a `)` |
| Parser.NoCloseIsMissingClose | src/parser.rs:39-48 | an `(` with no `)` anywhere after it fails with `MissingClose` |
| Parser.TruncatedListIsMissingClose | src/parser.rs:39-48 | a list whose final `)` was cut off fails with `MissingClose`, even though all of its items parse |
| Parser.DefineExample | src/parser.rs:4-7 | the tokens of `(define x 10)` parse to `List([Symbol("define"), Symbol("x"), Number(10)])`; with one more `)` appended, `parse` fails with `TrailingTokens` |
| Environments.Environment.constructor | src/environment/environment.rs:9-14 | `new()` has no bindings and no parent, so `get` is `None` for every name |
| Environments.Environment.WithParent | src/environment/environment.rs:16-21 | `new_with_parent(p)` has no local bindings and answers `get` for every name as `p` does |
| Environments.Environment.Set | src/environment/environment.rs:23-25 | after `set(n, v)`, `get(n)` is `v`, every other name reads as before, and only the local table changes |
| Environments.Environment.Remove | src/environment/environment.rs:37-39 | after `remove(n)`, `get(n)` is what the parent chain gives; every other name reads as before; removing an absent name changes nothing |
| Environments.GetIsNearest | src/environment/environment.rs:27-35 | `get` returns the binding of the nearest scope in the chain that binds the name |
| Environments.Scope.Get | src/environment/environment.rs:27-35 | `get` finds a value exactly for the names bound somewhere in the chain, and a local binding shadows every binding further up |
| Environments.Environment.Get | src/environment/environment.rs:27-35 | `get` on an environment object: a value exactly for the names bound in its table or its parent chain; the local binding when there is one, and otherwise the parent chain's |
| Environments.ChildSeesParent | src/environment/environment.rs:16-21 | a child with no local bindings answers every lookup as its parent does |
| Environments.GetAfterSet | src/environment/environment.rs:23-25 | on environment values, `set` binds the name, leaves every other name and the parent unchanged |
| Environments.GetAfterRemove | src/environment/environment.rs:37-39 | on environment values, `remove` reveals the parent chain's binding, leaves every other name and the parent unchanged, and changes nothing for an absent name |
| Environments.ShadowingExample | src/main.rs:4-15 | parent `x=42, y=100`, child sets `x=24, z=200`: the child reads `x=24, y=100, z=200`, and the parent still holds `x=42` |
| Environments.RemoveRevealsExample | src/environment/environment.rs:27-39 | removing the child's shadowing `x=24` makes the parent's `x=42` visible |
| AlnumTokenizer.Tokenize | src/tokenizer/tokenizer.rs:17-44 | the buffer-and-flush loop emits only non-empty `Identifier` tokens of alphanumeric characters; their values put together are the input with every non-alphanumeric character removed; there is one token per maximal alphanumeric run |
| AlnumTokenizer.ScanWellFormed | src/tokenizer/tokenizer.rs:22-29 | every emitted token has kind `Identifier` and a non-empty, all-alphanumeric value |
| AlnumTokenizer.ScanConcat | src/tokenizer/tokenizer.rs:21-41 | the token values put together are the buffer followed by the alphanumeric characters of the rest of the input |
| AlnumTokenizer.ScanCount | src/tokenizer/tokenizer.rs:21-41 | the number of tokens is the number of maximal alphanumeric runs, counted independently by run starts |
| AlnumTokenizer.NoAlphanumericNoTokens | src/tokenizer/tokenizer.rs:21-43 | input without an alphanumeric character yields no tokens |
| AlnumTokenizer.SeparatorSplits | src/tokenizer/tokenizer.rs:24-31 | a non-alphanumeric character ends the current run, so the tokens on each side of it are independent |
| AlnumTokenizer.ScanRun | src/tokenizer/tokenizer.rs:22-23 | a stretch of alphanumeric characters extends the buffer into a single token |
| AlnumTokenizer.TrailingRunEmitted | src/tokenizer/tokenizer.rs:36-41 | a run at the very end of the input, not followed by a separator, is still emitted |
| Errors.Render | src/error/error.rs:11-24 | each message starts with its kind's fixed prefix, which the payload follows to the end; the undefined-variable message ends with its fixed suffix, with the name between the curly quotes |
| Errors.RecoverRender | src/error/error.rs:13-23 | the kind and the payload of every error can be read back from its message |
| Errors.RenderRecover | src/error/error.rs:13-23 | whatever is read back from a message renders as exactly that message |
| Errors.RenderInjective | src/error/error.rs:13-23 | distinct errors render as distinct messages |
| Errors.RenderPrefix | src/error/error.rs:14-22 | each message starts with the fixed prefix of its own kind, and with no other kind's prefix |

## Left out

- The debug `print!` in `parse` (src/parser.rs:18): it is output only and does not affect the result.
- The REPL front ends (src/reader.rs, src/repl/reader.rs): stdin/stdout and line editing.
- src/main.rs as a program: it is modelled only as the scenario `ShadowingExample`. Its line 15 reads `env` after `env` was moved into the child, so that line does not compile. The example reads the moved-in parent value instead.
- The evaluator and interpreter (src/evaluator/evaluator.rs, src/interpreter.rs): they are placeholder stubs with no behaviour. There are no runtime `Value`s in the model.
- src/environment.rs and the type-only drafts (src/ast/ast.rs, src/parser/ast.rs, src/parser/parser.rs): they declare types and no operations.
- Full Unicode character classes:
  - `Chars.IsNumeric` covers the ASCII digits and listed ranges of characters of the Unicode categories Nd, Nl and No (superscript digits, vulgar fractions, Arabic-Indic and Devanagari digits, Roman numerals, fullwidth digits). It leaves out the other characters of those categories.
  - `Chars.IsAlphabetic` covers only ASCII letters, so `AlnumTokenizer` treats non-ASCII letters as separators.
  - `Chars.IsWhitespace` is the complete White_Space list.
- Classify: a word containing a numeric character outside `Chars.IsNumeric`'s ranges, with every character numeric, is a `Symbol` in the model, where `parse().unwrap()` in the source panics on it.
- The kind of `parse::<i64>` error: every non-ASCII numeric character is reported as `InvalidDigit`. Rust's own error kinds are not modelled further.
- Rust's formatter machinery (`fmt::Formatter`, the `fmt::Result` of `write!`): `Display::fmt` is modelled as `Render`, a function that returns the string.
- Borrowed slices and `Vec` pushes: token slices and token vectors are modelled as `seq` values.
- The depth of recursion: the Rust parser can overflow its stack on very deep nesting, and the model has no such limit.
