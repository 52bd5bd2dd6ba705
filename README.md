# A verified model of a small calculator's lexer, evaluator, cursor and error display

The repository is a small Rust calculator built around Stroustrup's
Expression/Term/Primary grammar. This project models its four core pieces in
Dafny and proves what each one does:

- **Tokenizer** (`tokens.dfy`, module `Tokens`). `Tokenizer::new` lexes the
  whole input eagerly into a deque of tokens:
  - spaces and unrecognised characters are skipped;
  - each of `+ - * / ( )` becomes one token carrying 0.0;
  - a maximal numeric run becomes one token: digits, `.` and `e`, plus a `-`
    right after an `e`;
  - lexing stops at the first numeric run that does not parse.

  `ParseTokens` and `HandleNumericTokens` keep the source's index-walking
  loops and are proved against the function `Lex`. `Tokenizer` is a class
  whose `tokens` field is the deque: `GetToken` pops the front and `PutBack`
  pushes onto the front. The lemmas about `Lex` cover:
  - a length bound;
  - operators carrying zero;
  - skipped characters producing no token;
  - a round trip: a correctly spelled token sequence lexes back to exactly
    its tokens;
  - stopping at a bad numeral.
- **Evaluator** (`parser.dfy`, module `Parser`). The evaluator folds values
  as it reads, with no syntax tree. `Expression`, `Term` and `Primary` are
  mutually recursive methods that consume a shared `Tokenizer`. Each is proved
  against a pure function (`ExpressionSpec`, `TermSpec`, `PrimarySpec`) that
  gives the value or error together with the tokens left in the deque.
  `grammar.dfy` (module `Grammar`) adds the reference grammar as syntax trees
  with their standard infix value, and proves two things:
  - the evaluator computes exactly that value from a tree's tokens, so `*`
    and `/` bind tighter than `+` and `-`, and each level folds left to right;
  - division by zero is an error and never a quotient.
- **CharStream** (`charstream.dfy`, module `CharStream`). A cursor over a
  string: `NextChar`, a one-step `Putback` and `CurrentPos`, with `New`
  refusing the empty string.
- **ParserError display** (`errors.dfy`, module `Errors`). The rendered text
  is `position` spaces, a caret, a newline, a space, and then the message in
  single quotes. The message is the details, or a default naming the position
  in decimal. Lemmas prove that the caret column can be read back from the
  rendering, along with the message, and that the default message contains
  the position.

`seqs.dfy` (module `Seqs`) holds generic sequence lemmas used by the proofs,
and `wrappers.dfy` holds `Option` and `Result`.

Modelling decisions, where the source leaves room:

- The source files are drafts from different stages. `parser.rs` calls a
  `get_token()` without arguments and matches on a `Kind` type that does not
  exist. The evaluator is therefore wired to the `Tokenizer` of `tokens.rs`,
  and `parser.rs:20-24` (an empty `get_token` stub) is not modelled.
- The `expression` and `term` loops have no working arm for a token that is
  not one of their operators (`None => break`). Their grammar means such a
  token (for example a `)` or the next operand's `(`) belongs to the caller,
  so the model puts it back (`put_back`, `tokens.rs:81-87`) and returns the
  running value. This is an explicit assumption of the model.
- In `primary`, the `(` arm returns the inner value when the next token is
  not `)`. That token is consumed, not put back (`parser.rs:78-83`). When the
  token is `)`, the arm falls off its end without returning. The model
  returns the inner value there too, which is evidently what was meant.
- `process::exit(1)` on a zero divisor becomes the error `DivisionByZero`.
  The `"primary expected"` branch becomes the error `PrimaryExpected`. An
  error from an inner call aborts the whole evaluation. The evaluator's
  errors carry no position: nothing in the core links tokens to columns.
- `next_char` increments the position before reading, so it moves past the
  end of the input even when it returns `None` (`charstream.rs:28-31`). The
  model follows the code: the position is not bounded by the input length.

## Model

| member | source | states |
|---|---|---|
| Tokens.OperatorKind | src/tokens.rs:100-123 | exactly the six characters `+ - * / ( )` have a one-character token kind, and that kind is never `Number` |
| Tokens.OperatorChar | src/tokens.rs:100-123 | each operator or parenthesis kind is lexed from its character; it is the inverse of `OperatorKind` |
| Tokens.RunEnd | src/tokens.rs:153-164 | the numeric run starting at `k` is maximal: every character before its end continues the number (a digit, `.`, `e`, or `-` straight after `e`), and the character at its end does not |
| Tokens.HandleNumericTokens | src/tokens.rs:150-171 | the scan stops on the last character of the maximal numeric run; every character from `index` to `lastIndex` continues the number and the next one does not; the result is the parse of exactly that lexeme, whatever number of `.` and `e` it holds |
| Tokens.ParseTokens | src/tokens.rs:89-148 | the loop produces exactly the specification `Lex(input, parse, 0)` |
| Tokens.LexNumber | src/tokens.rs:124-134 | at a numeral that parses, the loop appends one `Number` token with the parsed value and resumes at the first character the scan did not consume (`index - 1` is returned, then `i += 1`) |
| Tokens.LexLength | src/tokens.rs:95-145 | each step consumes at least one character and emits at most one token, so there are never more tokens than input characters |
| Tokens.LexOperatorsCarryZero | src/tokens.rs:100-133 | every lexed token other than a `Number` carries the value 0.0 |
| Tokens.LexSkipsGap | src/tokens.rs:99-141 | a run of spaces and unrecognised characters produces no token |
| Tokens.LexNumberAt | src/tokens.rs:124-134 | a numeral followed by the end of the input or a skipped character lexes to one `Number` token with its parsed value |
| Tokens.LexSpelledToken | src/tokens.rs:95-145 | a correctly spelled token followed by its gap of skipped characters lexes to that token alone |
| Tokens.LexSpellAt | src/tokens.rs:95-145 | a correctly spelled token sequence standing anywhere in the input lexes to its tokens, and lexing goes on after it |
| Tokens.LexSpell | src/tokens.rs:89-148 | round trip: lexing the spelling of a correctly spelled token sequence gives back exactly its tokens, in order; spaces are needed only where the next character would extend a number |
| Tokens.LexBadNumber | src/tokens.rs:135-138 | at a numeral that does not parse, lexing stops and nothing after it is lexed |
| Tokens.LexStopsAtBadNumber | src/tokens.rs:135-138 | when a numeral fails to parse, the tokens produced before it are kept and the rest of the input is discarded |
| Tokens.Tokenizer.constructor | src/tokens.rs:43-48 | a new tokenizer holds the whole lexed token sequence |
| Tokens.Tokenizer.GetToken | src/tokens.rs:68-79 | returns `None` exactly when the deque is empty, and otherwise pops and returns the front token, so tokens come out in lexing order |
| Tokens.Tokenizer.PutBack | src/tokens.rs:81-87 | pushes the token onto the front of the deque and changes nothing else |
| Tokens.PutBackThenGet | src/tokens.rs:81-87 | `put_back(t)` followed by `get_token()` returns `t` and leaves the remaining tokens unchanged |
| Parser.ExpressionSpec | src/parser.rs:27-45 | evaluates a term, then runs the additive loop; a successful expression consumes at least one token |
| Parser.ExpressionLoop | src/parser.rs:31-43 | the additive loop never grows the deque |
| Parser.TermSpec | src/parser.rs:48-70 | evaluates a primary, then runs the multiplicative loop; a successful term consumes at least one token |
| Parser.TermLoop | src/parser.rs:51-68 | the multiplicative loop never grows the deque |
| Parser.PrimarySpec | src/parser.rs:73-88 | a primary never grows the deque, and consumes at least one token whenever any is left, including on error |
| Parser.MissingPrimaryFails | src/parser.rs:86 | the end of the deque, or any token other than a number or `(`, where a primary is due gives "primary expected", and that error aborts the enclosing term and expression |
| Parser.Expression | src/parser.rs:27-45 | the loop with its running total and lookahead computes exactly `ExpressionSpec`, both the value or error and the deque left behind |
| Parser.Term | src/parser.rs:48-70 | the loop computes exactly `TermSpec`; it checks the divisor before dividing and stops with `DivisionByZero` on zero |
| Parser.Primary | src/parser.rs:73-88 | computes exactly `PrimarySpec`: a number yields its value, `(` yields the inner expression's value and takes the next token, and anything else gives "primary expected" |
| Grammar.PrimaryCorrect | src/parser.rs:73-88 | a number token yields exactly its value; `(` Expression `)` yields the inner expression's value; what follows is left in the deque |
| Grammar.TermCorrect | src/parser.rs:48-70 | `term` reads a term tree's tokens and folds them left to right with `*` and `/`, then hands what follows to its loop |
| Grammar.TermFoldCorrect | src/parser.rs:51-68 | as `TermCorrect`, for a term ending in `*` or `/` and a primary |
| Grammar.ExprCorrect | src/parser.rs:27-45 | `expression` reads an expression tree's tokens and folds them left to right with `+` and `-`, then hands what follows to its loop |
| Grammar.ExprFoldCorrect | src/parser.rs:31-43 | as `ExprCorrect`, for an expression ending in `+` or `-` and a term |
| Grammar.EvaluatesAsInfix | src/parser.rs:1-15 | for every tree of the grammar, evaluation gives its infix value (multiplicative operators binding tighter, each level left-associative) and consumes exactly its tokens |
| Grammar.UnclosedGroupKeepsValue | src/parser.rs:78-83 | when the token after a group's inner expression is not `)`, `primary` still returns the inner value, and that token is consumed rather than put back |
| Grammar.DivisionByZeroFails | src/parser.rs:57-63 | a divisor that evaluates to zero makes the term an error and never yields a quotient |
| Grammar.ExampleLexes | src/tokens.rs:95-145 | `"2 + 3 * 4"` lexes to the five tokens 2, `+`, 3, `*`, 4 |
| Grammar.ExampleLexesGapless | src/tokens.rs:95-145 | `"1+2"` lexes to the three tokens 1, `+`, 2 without any spaces |
| Grammar.ExamplePrecedence | src/parser.rs:2-10 | `"2 + 3 * 4"` evaluates to 14: the product is taken before the sum |
| CharStream.New | src/charstream.rs:18-26 | fails with `EmptyStringError` exactly when the input is empty; otherwise the new stream holds the input at position 0 |
| CharStream.CharStream.FromString | src/charstream.rs:22-25 | a new stream starts at position 0 over the given input |
| CharStream.CharStream.NextChar | src/charstream.rs:28-31 | returns the character at the old position, or `None` at or past the end, and moves the position on by exactly one in both cases |
| CharStream.CharStream.Putback | src/charstream.rs:33-35 | moves the position back by one; requires a positive position, since a `usize` would underflow |
| CharStream.CharStream.CurrentPos | src/charstream.rs:37-39 | returns the position and changes nothing |
| CharStream.PutbackReplays | src/charstream.rs:28-35 | `next_char` straight after `putback` returns the same character as the `next_char` before it |
| Errors.New | src/errors.rs:13-15 | stores `position` and `details` unchanged |
| Errors.Spaces | src/errors.rs:27 | `" ".repeat(n)` is exactly `n` spaces |
| Errors.Decimal | src/errors.rs:22 | the decimal rendering of the position is a non-empty digit string without leading zeros |
| Errors.DecimalRoundTrip | src/errors.rs:22 | reading the decimal rendering back gives the position |
| Errors.DefaultMessage | src/errors.rs:21-25 | non-empty details are the message verbatim; with empty details, the message is `"Error at position "` followed by the decimal position |
| Errors.Display | src/errors.rs:27 | the text is `position` spaces, then `^`, a newline, a space, and the message in single quotes |
| Errors.DisplayReadBack | src/errors.rs:27 | the caret's column and the message can be read back from the rendered text |
| Errors.DisplayDetermines | src/errors.rs:19-28 | two errors that render to the same text have the same position and the same message |

## Left out

- `src/main.rs`: the stdin/stdout prompt loop, the `q` exit check and the result printing are I/O and floating-point formatting.
- Debug output in `src/tokens.rs`: `print_token`, `print_tokens`, the `verbose` flag and the `Display` impl of `TokenKind` only write to the console.
- IEEE f64 semantics. Values are mathematical reals, with the four operations as the named functions `Sum`, `Difference`, `Product` and `Quotient`. Rounding, infinities, NaN and the sign of zero are not modelled, so "the divisor is zero" means the real 0.
- `str::parse::<f64>` is a library call. It is the parameter `parse`, an uninterpreted partial function from a lexeme to a value, so no claim is made about which lexemes parse.
- `char::is_numeric` accepts every Unicode numeric character. `IsNumeric` accepts only the ASCII digits `0`–`9`.
- The `%` remainder appears only in a grammar comment (`src/parser.rs:10`); it is not implemented, so it is not modelled.
- The `eprintln!` diagnostics (including `"')' expected"` and `"error while parsing number"`) and `process::exit` become error results or silent stops; no message text is modelled.
- `Error::description` and the `Display` impl of `EmptyStringError` return constant strings.
- The stub `get_token` in `src/parser.rs:20-24` has no body to model.
- CharStream.CharStream.NextChar: the position is an unbounded `nat`, so the `usize` overflow of `current_position += 1` at `usize::MAX` is not modelled.
- Parser.Expression: the source handles the two errors differently. After a division by zero it exits the process (`src/parser.rs:60-61`). After "primary expected" it prints a message and its `match` falls off with no value to return (`src/parser.rs:86`). The `')' expected` exit is commented out (`src/parser.rs:81`). The model returns an error in both failing cases and also states which tokens remain, which the source never reads.
- CharStream.CharStream.Putback: requires a positive position. At position 0 the source's `current_position -= 1` (`src/charstream.rs:34`) underflows a `usize`, which panics in a debug build and wraps in a release build; neither is modelled.
