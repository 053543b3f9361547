# why front end, modelled in Dafny

This project models the front end of the *why* language:

- the Rust lexer (`why-rs/lib/lexer.rs`), which turns a source text into a
  list of tokens ending in `Eof`;
- the token data it builds (`why-rs/lib/tokens.rs`) and the token and error
  macros (`why-rs/lib/macros.rs`);
- the recursive-descent expression parser (`why-rs/lib/parser.rs`), which
  turns a token list into an `Expr` tree;
- the older C prototype lexer (`why-c/src/lexer.c`).

Each imperative source file has two parts in the model:

- A functional reference: datatypes and functions on a record of the
  object's fields, with one recursive function per loop of the source.
  These are `LexerState`/`LexerSpec` for the Rust lexer, `ParserSpec` for the
  parser and `CLexerSpec` for the C lexer.
- A class with the source's mutable fields and loops: `RustLexer.Lexer`,
  `RustParser.Parser` and `CLexer.Lexer`. Every method is proved to fail
  exactly when the reference function does, with its error, and on
  success to leave the fields, and return the value, that the reference
  function computes from the fields it started with.

The properties are proved as lemmas about the reference functions, in
`LexerProps`, `ParserProps` and `CLexerProps`. They state what each routine
reads, where it leaves the cursor, which inputs are errors, and how the
operators associate. The worked inputs in `LexerExamples`, `ParserExamples`
and `CLexerExamples` run the reference functions on short texts. One of them
is the lexer test for `int my_num = 69;`.

Supporting modules:

- `Tokens` holds the token kinds. They are the union of the declared enum
  and the kinds the lexer builds that the enum lacks: `NumLiteral(bool)` and
  the seven keyword kinds.
- `Ast` holds the eight `Expr` variants the parser builds and the operators
  `Add`, `Subtract` and `Pow`.
- `Decimal` holds the decimal printing of line and column numbers and the
  `i64` parse of integer literals.
- `Wrappers` holds `Option` and `Result`. A failure is either an `Err`
  string the routine returns (`Raised`) or a panic (`Panicked`): an `unwrap`
  of nothing, a failed `parse::<i64>().unwrap()` or a `usize` subtraction
  that goes below zero.

Behaviour of the source that the model keeps, each proved:

- `lex_eq` tests the token it built for `Minus`, which an `=` token never
  is, so it always advances. The turn then advances again, so the character
  after any `=` token is never lexed. In `a=b;` the `b` disappears
  (`LexerExamples.EqSwallowsNext`).
- A digit that is the last character of the text is pushed twice, so the
  text `7` gives the number `77` (`LexerProps.NumberAtEndDoubles`).
- An identifier that runs into the last character of the text is an error
  (`LexerProps.IdentAtEndFails`).
- The search for the closing star and slash of a block comment starts at
  the opening star, so a slash, a star and a slash form a whole comment.
  `lex` then advances once more, so the character after the comment is
  passed over (`LexerProps.BlockComment` together with `LexerSpec.Tail`).
- A string token's column is the closing quote's column minus the UTF-8
  byte length of the content minus one, in `usize` arithmetic. It equals
  the opening quote's column only for ASCII content on one line
  (`LexerProps.StringAtQuote`). Below zero it is a panic.
- In the C lexer, the character right after an identifier is stepped over
  unread, so a `;` directly after a name never becomes a token
  (`CLexerExamples.SemicolonSkipped`).
- Also in the C lexer, a `*` outside a comment ends the program
  (`CLexerProps.StarFatal`).
- Also in the C lexer, these inputs loop forever
  (`CLexerProps.UnhandledDiverges`, `OpenBlockDiverges`, `OpenLineDiverges`):
  - an unhandled character such as `(`;
  - a block comment with no star after its opening;
  - a `//` comment with no line break after it.

## Model

| member | source | states |
|---|---|---|
| Tokens.LocNew | why-rs/lib/tokens.rs:65-67 | `Loc::new` is line 1, column 1 |
| Tokens.LocAt | why-rs/lib/tokens.rs:70-72 | `Loc::at(l, c)` has exactly line `l` and column `c`; it is the start location exactly when both are 1 |
| Tokens.LocDefault | why-rs/lib/tokens.rs:75-79 | `Loc::default` equals `Loc::new` and `Loc::at(1, 1)` |
| Tokens.TokenNew | why-rs/lib/tokens.rs:83-90 | `Token::new(t)` has kind `t`, empty text, location (1,1) and no `addtl` |
| Tokens.TokenAt | why-rs/lib/tokens.rs:93-100 | `Token::at` has the given kind and location and empty text; it equals `Token::new` exactly at (1,1) |
| Tokens.WithValue | why-rs/lib/tokens.rs:103-110 | `with_value` keeps kind and text unchanged at (1,1), no `addtl`; it equals `Token::new` exactly for empty text |
| Tokens.WithValueAt | why-rs/lib/tokens.rs:113-120 | `with_value_at` keeps kind, text and location unchanged, no `addtl`; it coincides with `Token::at` exactly for empty text and with `with_value` exactly at (1,1) |
| Macros.Exc | why-rs/lib/macros.rs:2-18 | `exc!` gives `Error! --> ` followed by the message, and nothing else |
| Macros.ExcInjective | why-rs/lib/macros.rs:2-18 | two `exc!` errors are equal only if their messages are |
| Macros.LexExc | why-rs/lib/macros.rs:21-57 | `lex_exc!` gives text that starts with `line ` and ends with the message |
| Macros.LexExcInjective | why-rs/lib/macros.rs:21-57 | line, column and message can be read back from a `lex_exc!` error: equal errors have equal line, column and message |
| Macros.LexExcIsNotExc | why-rs/lib/macros.rs:2-57 | no `lex_exc!` error equals any `exc!` error |
| Macros.MakeToken | why-rs/lib/macros.rs:60-68 | `make_token!` gives the kind and text it was given, at the lexer's line and column, with no `addtl` |
| Decimal.Show | why-rs/lib/macros.rs:23-26 | `{}` of a line or column number is a non-empty digit string without a leading zero |
| Decimal.ValueShow | why-rs/lib/macros.rs:23-26 | reading back a printed number gives the number |
| Decimal.ShowInjective | why-rs/lib/macros.rs:23-26 | different numbers print differently |
| Decimal.DigitsThenNonDigit | why-rs/lib/macros.rs:23-26 | a digit string followed by a non-digit splits in one way only, so a number inside an error message is recoverable |
| Decimal.ParseI64 | why-rs/lib/parser.rs:108 | `parse::<i64>` succeeds only with a value in the `i64` range |
| Decimal.ParseDigits | why-rs/lib/parser.rs:108 | a plain digit string parses to its value exactly when that value is at most `i64::MAX` |
| Decimal.ParseShow | why-rs/lib/parser.rs:108 | printing then parsing a non-negative `i64` gives it back |
| LexerState.New | why-rs/lib/lexer.rs:30-48 | `Lexer::new` fails with `exc!("There was no text in the file.")` exactly on empty text; otherwise the cursor is at index 0 on the first character, line 1, column 1, with no tokens |
| LexerState.Next | why-rs/lib/lexer.rs:52-84 | `next` on a line break goes to the next line at column 1, otherwise one column right; the index moves only while `can_advance`, the current character stays the text's character there, and the text and tokens are untouched |
| LexerState.Peek | why-rs/lib/lexer.rs:88-98 | `peek(1)` gives a character exactly when the lexer can advance, and it is the next character of the text |
| LexerState.PeekOr | why-rs/lib/lexer.rs:88-98 | `peek(1).unwrap_or_default()` is the next character, or NUL on the last character |
| LexerState.PushToken | why-rs/lib/macros.rs:71-79 | `make_token_mut!` appends exactly one token, stamped at the current line and column, and changes nothing else |
| LexerSpec.GetEqToken | why-rs/lib/lexer.rs:159-165 | `get_eq_token` gives `=>`, `==` or `=` by maximal munch on the next character, at the current position |
| LexerSpec.GetMinusToken | why-rs/lib/lexer.rs:181-188 | `get_minus_token` gives `--`, `-=`, `->` or `-` by maximal munch, at the current position |
| LexerSpec.GetPlusToken | why-rs/lib/lexer.rs:204-210 | `get_plus_token` gives `++`, `+=` or `+` by maximal munch, at the current position |
| LexerSpec.GetStarToken | why-rs/lib/lexer.rs:226-232 | `get_star_token` gives `**`, `*=` or `*` by maximal munch, at the current position |
| LexerSpec.LexEq | why-rs/lib/lexer.rs:169-177 | `lex_eq` pushes the `=` token and always advances once, even after a plain `=`; the lexer only moves forward |
| LexerSpec.LexMinus | why-rs/lib/lexer.rs:192-200 | `lex_minus` pushes its token and advances once after a two-character operator, not after a plain `-`; the lexer only moves forward |
| LexerSpec.LexPlus | why-rs/lib/lexer.rs:214-222 | `lex_plus` pushes its token and advances once after a two-character operator only |
| LexerSpec.LexStar | why-rs/lib/lexer.rs:236-244 | `lex_star` pushes its token and advances once after a two-character operator only |
| LexerSpec.ComparisonToken | why-rs/lib/lexer.rs:402-420 | on `<` or `>`, the token is `<=`/`>=` when `=` follows and `<`/`>` otherwise, at the current position |
| LexerSpec.LexComparison | why-rs/lib/lexer.rs:401-426 | `lex_comparison` succeeds exactly on `<` or `>`, pushing that token and advancing once for the two-character form; any other character is the located error "Unexpected comparison op" |
| LexerSpec.LexEnclosures | why-rs/lib/lexer.rs:387-397 | `lex_enclosures` only moves the lexer forward; its tokens and error are stated by `LexerProps.EnclosureToken` |
| LexerSpec.KeywordKind | why-rs/lib/lexer.rs:269-278 | exactly the seven words `if is in for let return break` get their keyword kinds; every other name stays `Ident` |
| LexerSpec.IdentScan | why-rs/lib/lexer.rs:259-263 | the identifier loop keeps the lexer valid, never moves back, and moves on whenever it starts on an identifier character before the last character |
| LexerSpec.LexIdent | why-rs/lib/lexer.rs:255-282 | `lex_ident` appends exactly one real token and never moves back; it moves on when it starts on an identifier character before the last character, and on the last character it stays there |
| LexerSpec.NumberScan | why-rs/lib/lexer.rs:302-316 | the number loop keeps the lexer valid, never moves back, and moves on whenever it starts on a digit or dot before the last character |
| LexerSpec.LexNumber | why-rs/lib/lexer.rs:294-327 | on success `lex_number` appends exactly one real token; it moves forward unless it started on the last character |
| LexerSpec.StringScan | why-rs/lib/lexer.rs:441-457 | the string loop keeps the lexer valid and never moves back |
| LexerSpec.LexString | why-rs/lib/lexer.rs:436-468 | on success `lex_string` appends exactly one real token and never moves back |
| LexerSpec.MultilineScan | why-rs/lib/lexer.rs:116-127 | the star-slash search either closes strictly further on, or stops on the last character without moving back; it never adds a token |
| LexerSpec.LineScan | why-rs/lib/lexer.rs:146-148 | the `//` loop keeps the lexer valid, never moves back and adds no token |
| LexerSpec.SkipComment | why-rs/lib/lexer.rs:115-155 | on success `skip_comment` leaves the lexer valid, not moved back, with only real tokens appended |
| LexerSpec.SlashLoop | why-rs/lib/lexer.rs:134-154 | on success the second loop of `skip_comment` leaves the lexer valid, not moved back, with only real tokens appended |
| LexerSpec.LexPunctuation | why-rs/lib/lexer.rs:330-377 | each of the ten one-character routines pushes its character's token at the current position and does not advance |
| LexerSpec.Tail | why-rs/lib/lexer.rs:538-542 | the end of a turn leaves the loop exactly on the last character, and otherwise advances once |
| LexerSpec.TailFrom | why-rs/lib/lexer.rs:538-542 | the end of a turn keeps the lexer's progress and, when it goes round again, moves the cursor |
| LexerSpec.TailOf | why-rs/lib/lexer.rs:502-506 | a routine's `?` error ends `lex` with that error; otherwise the turn ends as `Tail` says |
| LexerSpec.LexStep | why-rs/lib/lexer.rs:487-542 | one turn of `lex` either fails, stops on the last character, or goes round again strictly further on, having only appended real tokens |
| LexerSpec.OtherStep | why-rs/lib/lexer.rs:489-505 | the one-character and white-space arms keep the progress property of a turn |
| LexerSpec.BracketStep | why-rs/lib/lexer.rs:506-535 | the bracket and default arms keep the progress property of a turn |
| LexerSpec.NumberTurn | why-rs/lib/lexer.rs:508-517 | the number arm, which skips the end-of-turn step, still either fails, leaves the loop on the last character, or goes round again strictly further on, with only real tokens appended |
| LexerSpec.IdentTurn | why-rs/lib/lexer.rs:518-533 | the identifier arm, which skips the end-of-turn step, keeps the same progress property; its error is stated by `LexerProps.IdentAtEndFails` |
| LexerSpec.Finish | why-rs/lib/lexer.rs:545-547 | leaving the loop appends one `Eof` token with empty text, one `next` further on, after the tokens so far |
| LexerSpec.FinishLexed | why-rs/lib/lexer.rs:545-547 | what `lex` returns after its loop is the tokens so far followed by the single `Eof` |
| LexerSpec.LexedTrans | why-rs/lib/lexer.rs:479-543 | a turn that appended only real tokens keeps the final list well formed from the earlier list |
| LexerSpec.Run | why-rs/lib/lexer.rs:478-548 | on success the loop returns the tokens it started with, then only real tokens, then exactly one `Eof` with empty text |
| LexerSpec.Tokenize | why-rs/lib/lexer.rs:30-48 | `Lexer::new(text)?.lex()` fails on empty text with the `new` error; on success it is a list of real tokens ending in one empty `Eof` |
| LexerProps.IdentRunEnd | why-rs/lib/lexer.rs:63-65 | the end of the run of identifier characters, where the run stops at the first other character |
| LexerProps.IdentScanReads | why-rs/lib/lexer.rs:259-263 | the identifier loop collects exactly the text it passes over and stops at the end of the run, or on the last character |
| LexerProps.IdentScanColumn | why-rs/lib/lexer.rs:259-263 | that loop stays on its line and moves the column once per character |
| LexerProps.IdentToken | why-rs/lib/lexer.rs:255-282 | `lex_ident` pushes, at its starting position, a token whose text is the whole identifier run and whose kind is that text's keyword kind; the cursor ends after the run, or on the last character |
| LexerProps.IdentCursor | why-rs/lib/lexer.rs:255-282 | `lex_ident` leaves the cursor on the same line, as many columns on as characters it moved over |
| LexerProps.IdentStep | why-rs/lib/lexer.rs:518-519 | a turn on a letter or `_` is the identifier arm |
| LexerProps.NumberStep | why-rs/lib/lexer.rs:508-509 | a turn on a digit is the number arm |
| LexerProps.IdentAtEndFails | why-rs/lib/lexer.rs:521-526 | an identifier running to the end of the text fails, naming its last character |
| LexerProps.IdentThenMore | why-rs/lib/lexer.rs:527-533 | an identifier followed by another character goes round again on that character without advancing |
| LexerProps.NumberRunEnd | why-rs/lib/lexer.rs:302 | the end of the run of digits and dots |
| LexerProps.NumberScanReads | why-rs/lib/lexer.rs:302-316 | the number loop reads the run of digits and dots up to its end or the last character; it fails exactly when the run brings the dot count to two; the literal is fractional exactly with one dot |
| LexerProps.NumberScanColumn | why-rs/lib/lexer.rs:302-316 | that loop stays on its line and moves the column with the index |
| LexerProps.NumberCursor | why-rs/lib/lexer.rs:294-327 | `lex_number` leaves the cursor on the same line, as many columns on as characters it moved over |
| LexerProps.NumberToken | why-rs/lib/lexer.rs:294-327 | from a digit before the last character, `lex_number` fails exactly on a second dot; otherwise its token, at the starting position, holds the run (and the last character when that is a digit) and is `NumLiteral(true)` exactly when the run held one dot |
| LexerProps.NumberScanFails | why-rs/lib/lexer.rs:302-307 | when the number loop fails, it is with "Invalid location for '.'" at the dot that brings the count to two, on the starting line, as many columns on as characters passed |
| LexerProps.NumberTokenFails | why-rs/lib/lexer.rs:294-307 | a failing `lex_number` from a digit raises "Invalid location for '.'" at the second dot of the run, the one with exactly one dot before it (`LexerProps.NthDot`) |
| LexerProps.NumberAtEndDoubles | why-rs/lib/lexer.rs:299-320 | a digit that is the last character of the text gives a number token holding that digit twice |
| LexerSpec.Utf8Len | why-rs/lib/lexer.rs:461 | `String::len` counts one to four bytes a character, and equals the character count exactly when the text is ASCII |
| LexerProps.StringScanReads | why-rs/lib/lexer.rs:441-457 | the string loop stops on the delimiter or the last character; it collects the text passed over, plus the delimiter when an escaped delimiter is the last character; a delimiter it stops on without collecting it is not right after a backslash |
| LexerProps.StopUnescaped | why-rs/lib/lexer.rs:441-452 | a backslash takes the character after it into the text, so when the loop stops on a delimiter having collected exactly the text before it, that delimiter does not follow a backslash |
| LexerProps.StringScanEscapes | why-rs/lib/lexer.rs:442-452 | every delimiter the string loop collects comes right after a backslash |
| LexerProps.StringScanColumn | why-rs/lib/lexer.rs:441-457 | on one line the string loop moves the column once per character it collects |
| LexerProps.StringToken | why-rs/lib/lexer.rs:436-468 | a string succeeds only when the scan stopped on its delimiter; the token is a `StrLiteral` holding the collected text, in which every delimiter comes right after a backslash; the closing delimiter is not right after a backslash, so the string ends at the first delimiter that is not escaped |
| LexerProps.StringUnclosed | why-rs/lib/lexer.rs:459-467 | an unclosed string is the error naming its delimiter, reported on the last character |
| LexerProps.StringAtQuote | why-rs/lib/lexer.rs:459-462 | a closed string with ASCII content on one line is located at its opening quote, and the column subtraction does not underflow |
| LexerProps.SlashInvalid | why-rs/lib/lexer.rs:129-132 | a `/` followed by anything but `/`, `*` or `=` (or by nothing) is the located error naming that character, and it ends `lex` |
| LexerProps.SlashEqToken | why-rs/lib/lexer.rs:134-140 | `/=` appends exactly one `SlashEq` token, located at the `=`, and the cursor moves one on |
| LexerProps.LineEnd | why-rs/lib/lexer.rs:146 | the first line break at or after a position, or the end of the text |
| LexerProps.LineScanReads | why-rs/lib/lexer.rs:146-148 | the `//` loop stops at the first line break or the last character |
| LexerProps.LineComment | why-rs/lib/lexer.rs:144-150 | `//` adds no token and leaves the cursor on the next line break, or on the last character |
| LexerProps.FirstClose | why-rs/lib/lexer.rs:248-252 | the first star-slash at or after a position, if any |
| LexerProps.MultilineScanReads | why-rs/lib/lexer.rs:116-127 | the star-slash search closes exactly when a star-slash follows, and leaves the cursor two past the star of the first one (or on the last character) |
| LexerProps.EnclosureToken | why-rs/lib/lexer.rs:387-397 | `lex_enclosures` pushes the bracket under the cursor, with its kind and itself as text, at the current position; any other character is the error "Got unexpected enclosure" |
| LexerProps.BlockBody | why-rs/lib/lexer.rs:115-132 | `skip_comment(lexer, true)` succeeds with no new token exactly when a star-slash follows; otherwise it is the error for a `/` followed by nothing, at the line and column the search reached on the last character |
| LexerProps.SlashStar | why-rs/lib/lexer.rs:141-143 | after a `/` and a `*`, `skip_comment` moves onto the star and continues as a multi-line comment |
| LexerProps.BlockComment | why-rs/lib/lexer.rs:115-155 | a slash-star comment is skipped with no token exactly when a star-slash follows, searching from the opening star; without one it is the error for a `/` followed by nothing, at the line and column the search reached on the last character |
| LexerExamples.Step0 | why-rs/lib/lexer.rs:518-533 | in `int my_num = 69;` the first turn pushes `int` at (1,1) and continues on the space |
| LexerExamples.Step0Turn | why-rs/lib/lexer.rs:518-533 | the identifier arm on `int` |
| LexerExamples.Step1 | why-rs/lib/lexer.rs:505 | a space is passed over |
| LexerExamples.Step2 | why-rs/lib/lexer.rs:518-533 | the second turn pushes `my_num` at (1,5) |
| LexerExamples.Step2Turn | why-rs/lib/lexer.rs:518-533 | the identifier arm on `my_num` |
| LexerExamples.Step3 | why-rs/lib/lexer.rs:505 | the second space is passed over |
| LexerExamples.Step4 | why-rs/lib/lexer.rs:169-177 | `=` pushes `Eq` at (1,12) and steps over the space after it |
| LexerExamples.Step5 | why-rs/lib/lexer.rs:508-517 | `69` becomes one number token at (1,14) and the loop continues on `;` |
| LexerExamples.Step5Turn | why-rs/lib/lexer.rs:508-517 | the number arm on `69` |
| LexerExamples.Step6 | why-rs/lib/lexer.rs:330-332 | the final `;` is pushed at (1,16) and the loop is left |
| LexerExamples.RunAgain | why-rs/lib/lexer.rs:479-543 | a turn that goes round again leaves the rest of the result to the next turn |
| LexerExamples.RunStop | why-rs/lib/lexer.rs:538-547 | a turn that leaves the loop fixes the result |
| LexerExamples.Step7 | why-rs/lib/lexer.rs:545-547 | `Eof` is appended at (1,17) |
| LexerExamples.Start | why-rs/lib/lexer.rs:30-48 | tokenizing starts at index 0, (1,1), with no tokens |
| LexerExamples.IntDefinition | tests/test_lexer.rs:57-71 | `int my_num = 69;` lexes to `int`@(1,1), `my_num`@(1,5), `=`@(1,12), `69`@(1,14), `;`@(1,16), `Eof`@(1,17), the tokens the repository's lexer test lists |
| LexerExamples.EqStep0 | why-rs/lib/lexer.rs:518-533 | in `a=b;` the name `a` is pushed and the loop continues on `=` |
| LexerExamples.EqStep0Turn | why-rs/lib/lexer.rs:518-533 | the identifier arm on `a` |
| LexerExamples.EqStep1 | why-rs/lib/lexer.rs:169-177 | the `=` turn lands on `;`, skipping `b` |
| LexerExamples.EqStep2 | why-rs/lib/lexer.rs:330-332 | the `;` is pushed and the loop is left |
| LexerExamples.EqSwallowsNext | why-rs/lib/lexer.rs:173-176 | `a=b;` lexes to `a`, `=`, `;`, `Eof`: the character after a plain `=` is lost |
| RustLexer.Lexer.New | why-rs/lib/lexer.rs:30-48 | the method fails exactly when `LexerState.New` does, with its error; otherwise it returns a fresh lexer whose fields are that record |
| RustLexer.Lexer.CanAdvance | why-rs/lib/lexer.rs:52-54 | `can_advance` on the fields is the record's `CanAdvance` |
| RustLexer.Lexer.Next | why-rs/lib/lexer.rs:68-84 | the fields after `next` are `LexerState.Next` of the fields before |
| RustLexer.Lexer.PeekOr | why-rs/lib/lexer.rs:88-98 | `peek(1).unwrap_or_default()` on the fields is `LexerState.PeekOr` |
| RustLexer.Lexer.MakeTokenMut | why-rs/lib/macros.rs:71-79 | the fields after the push are `PushToken` of the fields before: one token appended, nothing else changed |
| RustLexer.Lexer.MakeTokenMutOk | why-rs/lib/macros.rs:82-92 | the same single push, and the result is `Ok(())` |
| RustLexer.Lexer.SkipComment | why-rs/lib/lexer.rs:115-155 | fails exactly when `LexerSpec.SkipComment` does, with its error; on success the fields are its result |
| RustLexer.Lexer.ScanMultiline | why-rs/lib/lexer.rs:116-127 | reports whether the star-slash search closed, and leaves the fields where `MultilineScan` says |
| RustLexer.Lexer.SlashRest | why-rs/lib/lexer.rs:134-154 | the second loop of `skip_comment` gives what `SlashLoop` gives |
| RustLexer.Lexer.SkipLine | why-rs/lib/lexer.rs:146-148 | the fields after the `//` loop are `LineScan` of those before |
| RustLexer.Lexer.GetEqToken | why-rs/lib/lexer.rs:159-165 | is `LexerSpec.GetEqToken` of the fields |
| RustLexer.Lexer.LexEq | why-rs/lib/lexer.rs:169-177 | the fields after `lex_eq` are `LexerSpec.LexEq` of those before |
| RustLexer.Lexer.GetMinusToken | why-rs/lib/lexer.rs:181-188 | is `LexerSpec.GetMinusToken` of the fields |
| RustLexer.Lexer.LexMinus | why-rs/lib/lexer.rs:192-200 | the fields after `lex_minus` are `LexerSpec.LexMinus` of those before |
| RustLexer.Lexer.GetPlusToken | why-rs/lib/lexer.rs:204-210 | is `LexerSpec.GetPlusToken` of the fields |
| RustLexer.Lexer.LexPlus | why-rs/lib/lexer.rs:214-222 | the fields after `lex_plus` are `LexerSpec.LexPlus` of those before |
| RustLexer.Lexer.GetStarToken | why-rs/lib/lexer.rs:226-232 | is `LexerSpec.GetStarToken` of the fields |
| RustLexer.Lexer.LexStar | why-rs/lib/lexer.rs:236-244 | the fields after `lex_star` are `LexerSpec.LexStar` of those before |
| RustLexer.Lexer.LexIdent | why-rs/lib/lexer.rs:255-282 | the loop collects the name in place; the fields afterwards are `LexerSpec.LexIdent` of those before |
| RustLexer.Lexer.LexNumber | why-rs/lib/lexer.rs:294-327 | fails exactly when `LexerSpec.LexNumber` does, with its error; on success the fields are its result |
| RustLexer.Lexer.LexEnclosures | why-rs/lib/lexer.rs:387-397 | gives what `LexerSpec.LexEnclosures` gives; on error nothing changes |
| RustLexer.Lexer.LexComparison | why-rs/lib/lexer.rs:401-426 | gives what `LexerSpec.LexComparison` gives; on error nothing changes |
| RustLexer.Lexer.LexString | why-rs/lib/lexer.rs:436-468 | gives what `LexerSpec.LexString` gives, including the column underflow panic |
| RustLexer.Lexer.EndTurn | why-rs/lib/lexer.rs:538-542 | leaves the loop on the last character, else advances, as `Tail` says |
| RustLexer.Lexer.EndTurnAfter | why-rs/lib/lexer.rs:502-506 | an error from a `?` routine aborts with nothing further changed; otherwise the turn ends as `Tail` says |
| RustLexer.Lexer.LexTurn | why-rs/lib/lexer.rs:487-542 | one turn of the loop does what `LexStep` says |
| RustLexer.Lexer.LexPunctuation | why-rs/lib/lexer.rs:330-377 | the fields after a one-character routine are `LexerSpec.LexPunctuation` of those before |
| RustLexer.Lexer.OtherTurn | why-rs/lib/lexer.rs:489-505 | does what `OtherStep` says |
| RustLexer.Lexer.BracketTurn | why-rs/lib/lexer.rs:506-535 | does what `BracketStep` says |
| RustLexer.Lexer.NumberTurn | why-rs/lib/lexer.rs:508-517 | does what `LexerSpec.NumberTurn` says |
| RustLexer.Lexer.IdentTurn | why-rs/lib/lexer.rs:518-533 | does what `LexerSpec.IdentTurn` says |
| RustLexer.Lexer.Lex | why-rs/lib/lexer.rs:478-548 | `lex` returns exactly `LexerSpec.Run` of the starting fields, so on success a list of real tokens ending in one empty `Eof` |
| RustLexer.Tokenize | why-rs/lib/lexer.rs:30-48 | creating a lexer and lexing gives exactly `LexerSpec.Tokenize` |
| ParserSpec.Describe | why-rs/lib/parser.rs:54 | a token rendered inside a parse error is never empty |
| ParserSpec.Peek | why-rs/lib/parser.rs:32-34 | `peek` gives the token under the cursor exactly when one is left |
| ParserSpec.Next | why-rs/lib/parser.rs:28-30 | `next` gives what `peek` would and moves the cursor by one, unless it is exhausted |
| ParserSpec.Expect | why-rs/lib/parser.rs:46-58 | `expect(t)` succeeds exactly when a token of kind `t` is next, moving past it; with none left it is "Unexpected end of input.", with another kind it is "Expected t, but got ..." |
| ParserSpec.ParseTerminal | why-rs/lib/parser.rs:103-118 | `parse_terminal` takes at least one token (exactly one unless it is `-`); an exhausted cursor panics; a token that cannot start an operand, `Eof` included, is "Unexpected token" |
| ParserSpec.ParseFactor | why-rs/lib/parser.rs:130-147 | on success `parse_factor` has taken tokens and stopped on a token that is not `**` |
| ParserSpec.TermLoop | why-rs/lib/parser.rs:163-175 | on success the loop of `parse_term` stops on the first token `Operator::try_from` rejects, without taking it |
| ParserSpec.ParseTerm | why-rs/lib/parser.rs:159-178 | on success `parse_term` has taken tokens and stopped on a token no operator maps from |
| ParserSpec.ExprLoop | why-rs/lib/parser.rs:196-216 | on success the loop of `parse_expr` stops on the first token other than `+` and `-`, without taking it |
| ParserSpec.ParseExpr | why-rs/lib/parser.rs:190-219 | on success `parse_expr` has taken tokens and stopped on a token other than `+` and `-` |
| ParserSpec.Parse | why-rs/lib/parser.rs:69-77 | `parse` succeeds exactly when the expression succeeds and is followed by `Eof`; the result is `Main` of that expression, just past the `Eof` |
| ParserSpec.ParseAssignment | why-rs/lib/parser.rs:79-90 | `parse_assignment` succeeds exactly when an `Eq` follows the first token and an expression follows that; the result is `Assign(Ident(first token's text), expression)` |
| ParserProps.TerminalLeaves | why-rs/lib/parser.rs:107-111 | an integer literal gives its `i64` value or the parse panic; a literal with a dot, a string and a name keep their text; each takes exactly one token |
| ParserProps.TerminalNegates | why-rs/lib/parser.rs:112-115 | a `-` operand succeeds exactly when the factor after it does, and is `UnaryOp(Subtract, that factor)`, ending where it ends |
| ParserProps.TerminalInt | why-rs/lib/parser.rs:108 | an integer literal printed from a non-negative `i64` value parses to that value |
| ParserProps.FactorLeaf | why-rs/lib/parser.rs:133-146 | an operand not followed by `**` is the whole factor |
| ParserProps.FactorPow | why-rs/lib/parser.rs:135-144 | an operand followed by `**` takes the whole following factor as its right operand |
| ParserProps.PowGroupsRight | why-rs/lib/parser.rs:130-147 | `a ** b ** c` is `Pow(a, Pow(b, c))` |
| ParserProps.AdditiveGroupsLeft | why-rs/lib/parser.rs:190-219 | `a - b + c` is `Add(Subtract(a, b), c)` |
| ParserProps.TermGroupsLeft | why-rs/lib/parser.rs:159-178 | operators `Operator::try_from` maps group to the left: `a op1 b op2 c` is `op2(op1(a, b), c)` |
| ParserProps.TermLoopStops | why-rs/lib/parser.rs:165-174 | a token that maps to no operator ends the `parse_term` loop, untaken, with the tree built so far |
| ParserProps.ExprLoopStops | why-rs/lib/parser.rs:211-214 | any token other than `+` and `-` ends the `parse_expr` loop without error and untaken |
| ParserProps.TermLoopTakes | why-rs/lib/parser.rs:167-171 | on a token `Operator::try_from` maps, the `parse_term` loop reads the next factor and, when that succeeds, ends where the loop from the combined tree ends |
| ParserProps.ExprLoopTakes | why-rs/lib/parser.rs:201-210 | on `+` or `-`, the `parse_expr` loop reads the next term and, when that succeeds, ends where the loop from the combined tree ends |
| ParserProps.TerminalSafe | why-rs/lib/parser.rs:103-118 | on an `Eof`-terminated list `parse_terminal` never unwraps an exhausted cursor and stops on a token |
| ParserProps.FactorSafe | why-rs/lib/parser.rs:130-147 | the same for `parse_factor` |
| ParserProps.TermLoopSafe | why-rs/lib/parser.rs:163-175 | the same for the loop of `parse_term` |
| ParserProps.TermSafe | why-rs/lib/parser.rs:159-178 | the same for `parse_term` |
| ParserProps.ExprLoopSafe | why-rs/lib/parser.rs:196-216 | the same for the loop of `parse_expr` |
| ParserProps.ExprSafe | why-rs/lib/parser.rs:190-219 | the same for `parse_expr` |
| ParserProps.ParseSafe | why-rs/lib/parser.rs:69-77 | `parse` on an `Eof`-terminated list never panics on an exhausted cursor |
| ParserProps.LexedSafe | why-rs/lib/lexer.rs:545-547 | parsing what the lexer returns never panics on an exhausted cursor, because that list ends in `Eof` |
| ParserExamples.MinusPlusTerms | why-rs/lib/parser.rs:159-178 | in `a - b + c` each name is a whole term, for any `Operator::try_from` that maps no name, `+`, `-` or `Eof` to an operator |
| ParserExamples.FirstOperand | why-rs/lib/parser.rs:103-178 | a name followed by a name, `+`, `-` or `Eof` is a whole term of one token, for any `Operator::try_from` that maps no name, `+`, `-` or `Eof` to an operator |
| ParserExamples.MinusPlusParse | why-rs/lib/parser.rs:69-77 | `a - b + c` parses to `Main(Add(Subtract(a, b), c))`, for any `Operator::try_from` that maps no name, `+`, `-` or `Eof` to an operator |
| ParserExamples.PowPowParse | why-rs/lib/parser.rs:130-147 | `a ** b ** c` parses to `Main(Pow(a, Pow(b, c)))`, for any `Operator::try_from` that maps no name, `+`, `-` or `Eof` to an operator |
| ParserExamples.TwoNamesRejected | why-rs/lib/parser.rs:74-75 | `a b` is the error "Expected Eof, but got" the second name, for any `Operator::try_from` that maps no name, `+`, `-` or `Eof` to an operator |
| ParserExamples.OnlyEof | why-rs/lib/parser.rs:116 | a list holding only `Eof` is "Unexpected token" |
| ParserExamples.AssignmentParse | why-rs/lib/parser.rs:79-90 | `x = a - b` parses to `Assign(x, Subtract(a, b))`, for any `Operator::try_from` that maps no name, `+`, `-` or `Eof` to an operator |
| RustParser.TermTurn | why-rs/lib/parser.rs:167-171 | the loop invariant of `Parser::parse_term` survives a turn that takes an operator: the factor's error is the term's error, otherwise the loop from the new tree reaches the same result |
| RustParser.ExprTurn | why-rs/lib/parser.rs:201-210 | the same invariant for a turn of the `Parser::parse_expr` loop over `+` or `-` |
| RustParser.Parser.constructor | why-rs/lib/parser.rs:23-25 | `Parser::new` starts on the first token |
| RustParser.Parser.Next | why-rs/lib/parser.rs:28-30 | returns the token under the cursor, if any, and moves the cursor past it |
| RustParser.Parser.Peek | why-rs/lib/parser.rs:32-34 | returns the token under the cursor without moving it |
| RustParser.Parser.Expect | why-rs/lib/parser.rs:46-58 | the cursor moves as `next` moves it whatever the outcome; success and error are those of `ParserSpec.Expect` |
| RustParser.Parser.Parse | why-rs/lib/parser.rs:69-77 | the tree or error is that of `ParserSpec.Parse`, and on success so is the cursor |
| RustParser.Parser.ParseAssignment | why-rs/lib/parser.rs:79-90 | gives what `ParserSpec.ParseAssignment` gives |
| RustParser.Parser.ParseTerminal | why-rs/lib/parser.rs:103-118 | gives what `ParserSpec.ParseTerminal` gives |
| RustParser.Parser.ParseFactor | why-rs/lib/parser.rs:130-147 | gives what `ParserSpec.ParseFactor` gives |
| RustParser.Parser.ParseTerm | why-rs/lib/parser.rs:159-178 | the loop keeps "finishing from here gives the whole term"; the method gives what `ParserSpec.ParseTerm` gives |
| RustParser.Parser.ParseExpr | why-rs/lib/parser.rs:190-219 | the same loop invariant over `+` and `-`; the method gives what `ParserSpec.ParseExpr` gives |
| CLexerSpec.StrLen | why-c/src/lexer.c:13 | `strlen` is the index of the first NUL |
| CLexerSpec.Seek | why-c/src/lexer.c:20-24 | moving the index to a position within the string keeps the lexer valid |
| CLexerSpec.Init | why-c/src/lexer.c:8-18 | `lexer_init` sets `i = 0`, `c = src[0]` and `src_len = strlen(src)`, and the lexer is valid |
| CLexerSpec.Next | why-c/src/lexer.c:20-24 | `lexer_next` moves one on while before the terminator, so `i <= src_len` holds; it changes nothing exactly on the terminator |
| CLexerSpec.PeekIndex | why-c/src/lexer.c:151-153 | `lexer_peek` reads `MIN(i + offset, src_len)`, never past the terminator |
| CLexerSpec.Peek | why-c/src/lexer.c:151-153 | `lexer_peek` gives the character `offset` ahead, or NUL past the end |
| CLexerSpec.SkipWhitespace | why-c/src/lexer.c:26-30 | `lexer_skip_whitespace` stops at the first character that is not a space, tab, CR or LF, having passed only such characters |
| CLexerSpec.IdentScan | why-c/src/lexer.c:158-162 | the identifier loop stops on a character that is not alphanumeric, never moving back |
| CLexerSpec.ParseIdent | why-c/src/lexer.c:155-165 | `lexer_parse_ident` returns an identifier token with a value, never moving back |
| CLexerSpec.ParseAssignmentExpr | why-c/src/lexer.c:87-100 | `=>` exactly when `>` follows, `==` exactly when `=` follows, `=` otherwise; each with one `lexer_next` |
| CLexerSpec.StarScan | why-c/src/lexer.c:37-40 | the star search never exits; when it stops, it is on a `*` at or after where it started |
| CLexerSpec.LineScan | why-c/src/lexer.c:60-62 | the line search never exits; when it stops, it is on a line break at or after where it started |
| CLexerSpec.InBlock | why-c/src/lexer.c:35-57 | inside a block comment: when it ends, it has moved on and the flag is clear |
| CLexerSpec.SkipComment | why-c/src/lexer.c:32-80 | `lexer_skip_comment`, whenever it returns, has moved on and cleared the flag |
| CLexerSpec.LexPass | why-c/src/lexer.c:113-146 | one pass of the loop either leaves everything unchanged and makes no token, or moves on; outside a comment the flag stays clear |
| CLexerSpec.LexLoop | why-c/src/lexer.c:113-148 | when the loop finishes the result is the end token |
| CLexerSpec.LexNext | why-c/src/lexer.c:110-149 | `lexer_lex_next`, when it returns, returns `token_init(NULL, TOKEN_EOF)` |
| CLexerProps.AlnumEnd | why-c/src/lexer.c:158 | the end of the alphanumeric run |
| CLexerProps.NewlineFrom | why-c/src/utils.c:18-20 | the first line break in a range, if any |
| CLexerProps.StarFrom | why-c/src/lexer.c:37 | the first `*` in a range, if any |
| CLexerProps.BlockEnd | why-c/src/lexer.c:35-57 | how a block comment ends, on the buffer alone: at a star followed by a slash |
| CLexerProps.PeekInBounds | why-c/src/lexer.c:151-153 | `lexer_peek` never reads past the terminator, and it reads NUL exactly when the offset reaches the end |
| CLexerProps.IdentScanReads | why-c/src/lexer.c:158-162 | the identifier loop collects exactly the alphanumeric run and stops on the character after it |
| CLexerProps.ParseIdentReads | why-c/src/lexer.c:155-165 | `lexer_parse_ident` returns `TOKEN_IDENT` holding the maximal alphanumeric run and leaves `c` on the first other character |
| CLexerProps.IdentPass | why-c/src/lexer.c:125-128 | a pass on an identifier makes that token, then steps over the character after the run |
| CLexerProps.HashPass | why-c/src/lexer.c:114-118 | a pass on `#` makes a `Hash` token and an identifier (possibly empty) from the next character, then steps over the character after that run |
| CLexerProps.AssignmentPass | why-c/src/lexer.c:120-123 | a pass on `=` always takes two characters and makes the `parse_assignment_expr` token |
| CLexerProps.LineScanReads | why-c/src/lexer.c:60-62 | the line search stops at the first line break, and spins when there is none |
| CLexerProps.StarScanReads | why-c/src/lexer.c:37-40 | the star search stops at the first `*`, and spins when there is none |
| CLexerProps.LineComment | why-c/src/lexer.c:58-64 | `//` ends just past the first line break, and never ends without one |
| CLexerProps.BlockEndSkips | why-c/src/lexer.c:37-40 | characters that are not stars do not change how a block comment ends |
| CLexerProps.SeekSame | why-c/src/lexer.c:20-24 | two lexers over the same buffer reach the same state at the same position |
| CLexerProps.NonStar | why-c/src/lexer.c:37-40 | inside a block comment a character that is neither a star nor the terminator is stepped over |
| CLexerProps.StarStep | why-c/src/lexer.c:37-40 | the same, one `lexer_next` at a time |
| CLexerProps.AtStar | why-c/src/lexer.c:42-56 | at a star a following slash closes the comment two on, the terminator is the "never closed" exit, and anything else is stepped over |
| CLexerProps.BlockBody | why-c/src/lexer.c:35-57 | inside a block comment, it ends two past the first star a slash follows; a star just before the terminator is the "never closed" exit; otherwise it spins |
| CLexerProps.BlockComment | why-c/src/lexer.c:66-72 | `/*` skips to just after the first `*/`, with the search starting after the opening star |
| CLexerProps.SlashInvalid | why-c/src/lexer.c:74-79 | a `/` followed by neither `/` nor `*` exits with "Invalid token at character i" |
| CLexerProps.StarFatal | why-c/src/lexer.c:135-140 | a `*` outside a comment exits with "Invalid token at character i" |
| CLexerProps.UnhandledDiverges | why-c/src/lexer.c:113-146 | a character no branch handles and that is not white space leaves the lexer where it is, so the loop never ends |
| CLexerProps.ParenDiverges | why-c/src/lexer.c:113-146 | in particular `(` |
| CLexerProps.OpenBlockDiverges | why-c/src/lexer.c:37-40 | a block comment with no star after its opening never ends |
| CLexerProps.OpenLineDiverges | why-c/src/lexer.c:60-62 | a `//` comment with no line break after it never ends |
| CLexerProps.LoopExtends | why-c/src/lexer.c:113-146 | the tokens made along the way are only ever added to |
| CLexerExamples.LoopAgain | why-c/src/lexer.c:113-146 | a pass that moves on leaves the rest of the run to the next pass |
| CLexerExamples.Start | why-c/src/lexer.c:8-18 | `lexer_init` on `a = b;` |
| CLexerExamples.Pass0 | why-c/src/lexer.c:125-128 | the pass on `a` makes `a` and lands on `=` |
| CLexerExamples.Pass2 | why-c/src/lexer.c:120-123 | the pass on `=` makes `=` and lands on `b` |
| CLexerExamples.Pass4 | why-c/src/lexer.c:125-128 | the pass on `b` makes `b` and lands on the terminator |
| CLexerExamples.SemicolonSkipped | why-c/src/lexer.c:110-149 | `a = b;` makes `a`, `=`, `b` and ends with the end token; the `;` is never a token |
| CLexerExamples.ParenRun | why-c/src/lexer.c:113-146 | `x (` never finishes |
| CLexerExamples.StarRun | why-c/src/lexer.c:135-140 | `x *` exits with "Invalid token at character 2" |
| CLexer.Lexer.Init | why-c/src/lexer.c:8-18 | the fields are `CLexerSpec.Init` of the buffer |
| CLexer.Lexer.Next | why-c/src/lexer.c:20-24 | the fields after `lexer_next` are `CLexerSpec.Next` of those before |
| CLexer.Lexer.NextWith | why-c/src/lexer.c:82-85 | `lexer_next_with` moves as `lexer_next` and returns the token it was given |
| CLexer.Lexer.Peek | why-c/src/lexer.c:151-153 | returns `CLexerSpec.Peek` of the fields and changes nothing |
| CLexer.Lexer.SkipWhitespace | why-c/src/lexer.c:26-30 | the fields after the loop are `CLexerSpec.SkipWhitespace` of those before |
| CLexer.Lexer.ParseIdent | why-c/src/lexer.c:155-165 | the fields and the token are `CLexerSpec.ParseIdent` of the fields before |
| CLexer.Lexer.ParseAssignmentExpr | why-c/src/lexer.c:87-100 | the fields and the token are `CLexerSpec.ParseAssignmentExpr` of the fields before |
| CLexer.Lexer.SkipComment | why-c/src/lexer.c:32-80 | returns, exits or spins exactly as `CLexerSpec.SkipComment`, with its state, flag and message |
| CLexer.Lexer.LexNext | why-c/src/lexer.c:110-149 | the run is exactly `CLexerSpec.LexNext` of the starting fields |

## Left out

- File reading, the command line and program entry points are I/O and are not part of this model. This covers `why-rs/lib/internal.rs`, `why-rs/main.rs`, `why-c/src/main.c` and `why-c/src/why.c`. The `KEYWORDS` list in `internal.rs` is not used by the lexer.
- The abandoned crate under `why-rs/src` is not part of this model, nor is `why-rs/lib/ast.rs`. The parser's `Expr` and `Operator` are defined as plain datatypes in `Ast`.
- The `println!` tracing in the parser is output with no effect on results.
- C output is left out: the printing in `token_init`, `debug_print_token` and the `fprintf` to standard error.
- C memory handling is left out: `calloc`, `realloc`, `free` and `validate_ptr`. The tokens that `lexer_lex_next` makes and drops are collected in the result for the statements about them.
- `exit(1)` in the C lexer is a result (`Exited`/`Exit`) carrying the message it prints. A C loop that would run forever is reported as `Spins`/`Diverged` at the first pass that changes nothing. The model does not hang.
- `Lexer::peek` is modelled for offset 1 only, the one the lexer uses. Negative offsets can underflow and are unused.
- `lexer_peek` in C is modelled for non-negative offsets only.
- `Lexer::skip_whitespace` (`why-rs/lib/lexer.rs:100-106`) is not modelled, because `lex` never calls it.
- Character classes are ASCII: `is_numeric`, `is_alphabetic`, `is_alphanumeric` and C `isalnum`. Non-ASCII letters and digits are not identifier or number characters here.
- `NumLiteral(true)` keeps its digit text as `Float(text)`. The `f64` parse and its `unwrap` are floating point and are not modelled. The `i64` parse of integer literals is modelled, including its panic.
- `Operator::try_from` is not part of the shown source. It is a parameter of every parsing function. The reference functions and `ParserProps` hold for every mapping, except the two lines below.
- ParserExamples.MinusPlusTerms, FirstOperand, MinusPlusParse, PowPowParse, TwoNamesRejected, AssignmentParse: assume (`RejectsPlain`) that `Operator::try_from` maps no name, `+`, `-` or `Eof` token to an operator, since which tokens it maps is not part of this model.
- The `Display` of a token is not part of the shown source. Parse errors render a token as its kind's `Debug` name and its text (`ParserSpec.Describe`).
- Lines, columns and indices are unbounded, so a `usize` overflow from incrementing is not modelled. The one `usize` subtraction, the string column, is modelled with its panic, which is the overflow check of a debug build. A release build would wrap around instead, and that is not modelled. The C `int`/`size_t` widths are unbounded too.
- `Vec::with_capacity` in `Lexer::new` is only a size hint and is left out.
- Predicates without contracts (`LexerState.IsNewline`, `CanBeIdent`, `CLexerSpec.IsWhitespace`, `IsAlnum`) model `is_newline`, `can_be_ident` (`why-rs/lib/lexer.rs:58-65`) and `is_newline`/`is_whitespace` (`why-c/src/utils.c:18-24`) directly.
- Other definitions without contracts are used directly by the members above: `LexerState.State.CanAdvance` (`can_advance`, `why-rs/lib/lexer.rs:52-54`), `LexerState.LexError` (the `lex_exc!` error at the lexer's position, `why-rs/lib/macros.rs:21-57`), `LexerSpec.EndMultilineComment` (`why-rs/lib/lexer.rs:248-252`), `LexerSpec.AfterIdentMessage` (the messages at `why-rs/lib/lexer.rs:522-526`), `Tokens.TypeDebug` (the `Debug` name of a token kind) and `ParserSpec.ExpectedMessage`/`UnexpectedMessage` (the messages at `why-rs/lib/parser.rs:54` and `:116`).
- ParserProps.LexedSafe: assumes `Operator::try_from` maps no `Eof` token to an operator. That mapping is not part of this model, and without it the parser could take the `Eof` as an operator.
- LexerProps.StringAtQuote: covers strings whose content is ASCII and on one line. For other content the source's column is not the opening quote's, so this is the most the source promises.
- LexerProps.NumberToken: covers a number that starts before the last character. A digit that is the last character is covered by `LexerProps.NumberAtEndDoubles`.
