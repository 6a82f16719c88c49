# Rhai editor mode: lexer and mode driver, modelled in Dafny

This project models the syntax-highlighting core of the Rhai playground.
The core is two Rust files.

- `src/cm_rhai_mode/token.rs` is an incremental lexer for Rhai source text.
  It reads one line of the editor's buffer through a host stream with a cursor.
  Each call returns one token: literals, identifiers and keywords, operators, comments and lexical errors.
  It remembers two things between calls:
  - whether the next `+`/`-` is unary;
  - whether a block comment is still open, and at which nesting level.
- `src/cm_rhai_mode.rs` is the editor mode, made of three parts.
  - A `State` that the editor keeps between calls.
  - A `token` function. It asks the Rhai tokenizer for one token and maps that token to a style name. Along the way it counts unclosed brackets, tracks whether the next identifier is being defined, and keeps a stack of brace depths for interpolated strings.
  - An `indent` function.
  - Beside them, a `StreamAdapter` assembles the editor's UTF-16 code units into Unicode scalar values, with a one-character push-back buffer.

How the model is organised:

- The host stream is a class, `HostStream.StringStream`. It holds a line of characters, a cursor and a flag saying whether another line follows.
- The lexer's state is a class, `Lexer.LexerState`, whose fields are updated in place.
- The scanning loops of the source are methods with loop invariants.
- Each method is proved equal to a specification function over the line and the cursor:
  - `Lex` and `LexFrom` for the whole lexer;
  - `ScanString`, `BlockScan`, `NumberEnd`/`LexNumber` and `IdentEnd`/`LexIdentifier` for the sub-scanners.
- The lemmas state what the lexer produces for whole families of inputs, defined by reference encodings:
  - string and character literals built from plain characters and escapes;
  - block comments built from nested pieces;
  - numerals written from their value;
  - keywords from the keyword table;
  - the look-alike operators that are rejected.
- The editor mode is a class, `Mode.ModeState`. `token` takes the Rhai tokenizer's outcome as an input.
- The adapter is `Utf16Stream.StreamAdapter`, over a code-unit stream.
- Where the code departs from its evident intent, the model follows the code, and the corrected definition is kept beside it with its property proved (see "## Findings"). In particular the lexer converts numerals with `Numbers.NumberTokenAsWritten`; `Numbers.NumberToken` is the corrected reference, and `Numbers.NumberTokenAgrees` shows the two differ only on negated radix numerals.

## Model

| member | source | states |
|---|---|---|
| Base.DigitValue | src/cm_rhai_mode/token.rs:273-306 | a character has a digit value exactly when it is an ASCII letter or digit; the value is below 36, and below 10 exactly for `0`-`9` (`char::to_digit`) |
| Base.DigitChar | src/cm_rhai_mode/token.rs:478-482 | every digit value below 36 has a character that denotes it |
| Base.IsWhitespace | src/cm_rhai_mode/token.rs:900 | space, tab, newline and carriage return are whitespace (`char::is_whitespace`); whitespace is never an ASCII letter or digit, `_` or NUL |
| Tokens.IsNextUnaryBeforeOperand | src/cm_rhai_mode/token.rs:98-157 | after an error, an opening bracket, an operator, a compound assignment, a comment, `:`, `,`, `.` or `=`, a following `+`/`-` is unary |
| Tokens.IsNextUnaryAfterOperand | src/cm_rhai_mode/token.rs:98-157 | after a closing bracket, a literal, an identifier, end of input, `;`, `::` or `#{`, a following `+`/`-` is binary |
| Tokens.IsNextUnaryAfterKeyword | src/cm_rhai_mode/token.rs:98-157 | among keywords exactly `if`, `while`, `return`, `throw` and `in` make a following `+`/`-` unary |
| Tokens.IsNextUnary | src/cm_rhai_mode/token.rs:98-157 | after a token that ends an operand (a closing bracket, a literal, an identifier, end of input) a following `+`/`-` is never unary |
| Tokens.Keyword | src/cm_rhai_mode/token.rs:540-570 | the keyword table yields only keyword tokens |
| Tokens.KeywordText | src/cm_rhai_mode/token.rs:540-570 | every keyword has a spelling of at least two ASCII letters |
| Tokens.KeywordTextInTable | src/cm_rhai_mode/token.rs:540-570 | the table maps every keyword's spelling back to that keyword |
| Tokens.KeywordTableInverse | src/cm_rhai_mode/token.rs:540-570 | the table is injective: a word it accepts is the spelling of the keyword it yields |
| HostStream.StringStream.constructor | src/codemirror.rs:4-6 | a stream over a line starts at the given cursor |
| HostStream.StringStream.Peek | src/codemirror.rs:16-18 | the character under the cursor, None exactly at the end of the line |
| HostStream.StringStream.Next | src/codemirror.rs:20-21 | returns what `Peek` saw and advances the cursor by one unless at the end |
| HostStream.StringStream.SkipToEnd | src/codemirror.rs:44-45 | moves the cursor to the end of the line |
| StringLiteral.HexDigits | src/cm_rhai_mode/token.rs:273-306 | reading the digits of `\x`/`\u`/`\U` consumes exactly the escape's width when it succeeds; a failure is a malformed escape sequence |
| StringLiteral.HexDigitsAccepts | src/cm_rhai_mode/token.rs:286-304 | the digit read succeeds exactly when the required number of hexadecimal digits follow |
| StringLiteral.ScanString | src/cm_rhai_mode/token.rs:234-331 | the scan of a literal body ends inside the line, never before where it started |
| StringLiteral.ScanStringBounds | src/cm_rhai_mode/token.rs:234-331 | the scan stops inside the line; success means it consumed the closing quote; an unterminated literal ends at the end of the line |
| StringLiteral.ParseStringLiteral | src/cm_rhai_mode/token.rs:225-343 | the scanning loop returns the outcome and leaves the cursor where the specification `ScanString` says |
| StringLiteral.ScanBody | src/cm_rhai_mode/token.rs:234-331 | a body of well-formed units is scanned as exactly one logical character per unit, resuming just after the body |
| StringLiteral.ScanRoundTrip | src/cm_rhai_mode/token.rs:225-343 | a body built from well-formed units (plain characters, `\\ \t \n \r \"`, complete numeric escapes) followed by the quote scans to `Ok(number of units)` and stops just past the quote, whatever follows |
| StringLiteral.ScanUnterminated | src/cm_rhai_mode/token.rs:235 | a well-formed body that reaches the end of the line, even one ending in a lone `\`, is an unterminated string |
| StringLiteral.ScanUnknownEscape | src/cm_rhai_mode/token.rs:317-318 | a backslash followed by any other character is a malformed escape sequence carrying the backslash, stopping after that character |
| StringLiteral.ScanShortNumericEscape | src/cm_rhai_mode/token.rs:286-304 | a numeric escape cut short by a non-hexadecimal character is a malformed escape sequence |
| BlockComment.BlockScan | src/cm_rhai_mode/token.rs:350-378 | the comment scan stays inside the line |
| BlockComment.BlockScanStops | src/cm_rhai_mode/token.rs:350-378 | a scan that closes the comment ends just after a `*/`; a scan that leaves it open ran to the end of the line |
| BlockComment.SkipBlockComment | src/cm_rhai_mode/token.rs:691-726 | the nesting loop ends at the level and cursor that `BlockScan` gives |
| BlockComment.ScanPieces | src/cm_rhai_mode/token.rs:691-726 | text built from pieces that never closes the outermost level changes the level by openers minus closers and is passed over whole |
| BlockComment.CommentLeftOpen | src/cm_rhai_mode/token.rs:691-726 | text built from nested pieces that never closes the outermost level leaves the comment open at the initial level plus the net nesting, at the end of the line |
| BlockComment.CommentCloses | src/cm_rhai_mode/token.rs:691-726 | the same text followed by `*/` when the net level is 1 closes the comment just after that `*/` |
| BlockComment.StarStarSlashStaysOpen | src/cm_rhai_mode/token.rs:707-713 | `**/` does not close a comment, because the character after each `*` is consumed |
| BlockComment.CommentAcrossLines | src/cm_rhai_mode/token.rs:347-381 | a comment opened on one line stays open at its end and is closed by the `*/` on the next |
| Numbers.ParseI64 | src/cm_rhai_mode/token.rs:481 | `i64::from_str_radix`: a parsed value lies in the `i64` range |
| Numbers.ToDigits | src/cm_rhai_mode/token.rs:478-482 | a non-negative value is written as a non-empty string of digits of the radix |
| Numbers.ToDigitsValue | src/cm_rhai_mode/token.rs:478-482 | the written digits denote the value they were written from |
| Numbers.ParseToDigits | src/cm_rhai_mode/token.rs:478-482 | parsing the digits of any `i64` value, with a `-` for a negative one, gives that value back |
| Numbers.ParseOverflow | src/cm_rhai_mode/token.rs:481-487 | digits denoting more than `i64::MAX` do not parse |
| Numbers.ParseSigned | src/cm_rhai_mode/token.rs:481-497 | a signed numeral parses exactly when its value is in the `i64` range, and then to that value |
| Numbers.StripSep | src/cm_rhai_mode/token.rs:478-493 | removing `_` separators leaves no `_` and never lengthens the text |
| Numbers.RadixOf | src/cm_rhai_mode/token.rs:426-455 | `x`/`X`, `o`/`O` and `b`/`B` select radix 16, 8 and 2 |
| Numbers.RunEnd | src/cm_rhai_mode/token.rs:457-464 | the run of radix digits and `_` ends inside the line, never before where it started |
| Numbers.RunEndMaximal | src/cm_rhai_mode/token.rs:457-464 | the digits after a radix prefix are the longest run of that radix's digits and `_` |
| Numbers.NumberEnd | src/cm_rhai_mode/token.rs:403-469 | the numeral scan stays in the line, and a radix is only taken after a leading `0`, consuming the letter |
| Numbers.IsFloatText | src/cm_rhai_mode/token.rs:494-496 | float syntax is non-empty and carries a sign only in front |
| Numbers.RadixDigits | src/cm_rhai_mode/token.rs:476-478 | the corrected extraction drops exactly two characters of prefix, keeps a leading `-`, and keeps the digits after the prefix in order |
| Numbers.NumberToken | src/cm_rhai_mode/token.rs:471-507 | the corrected conversion, which keeps the sign of a negated radix numeral: a numeral is an integer, a float (only without a radix prefix) or a malformed number carrying its text |
| Numbers.NumberTokenAsWritten | src/cm_rhai_mode/token.rs:471-488 | as written, the radix branch skips the first two characters whatever they are; its result kinds are the same |
| Numbers.NegatedRadixLiteral | src/cm_rhai_mode/token.rs:471-488 | `-0x10` is a malformed number as written and an integer once the sign is kept |
| Numbers.NegatedRadixAsWritten | src/cm_rhai_mode/token.rs:471-488 | as written, `-0` followed by any radix letter and any text is a malformed number carrying the whole text, because the text parsed starts with the radix letter |
| Numbers.NegatedRadixCorrected | src/cm_rhai_mode/token.rs:471-488 | in the corrected conversion, `-0`, a radix letter and the digits of `n` form an integer exactly when `n` is at most 2^63 |
| Numbers.NegatedDigitsToken | src/cm_rhai_mode/token.rs:471-488 | in the corrected conversion, `-0`, a radix letter and valid digits form an integer exactly when the signed digits parse as `i64` |
| Numbers.NumberTokenAgrees | src/cm_rhai_mode/token.rs:471-507 | the corrected and the as-written conversions agree on every numeral that is not a negated radix literal |
| Numbers.LexNumber | src/cm_rhai_mode/token.rs:398-507 | a numeral token consumes at least its first digit and yields an integer, a float or an error; the token is the as-written conversion of the scanned text |
| Numbers.LexNumberIs | src/cm_rhai_mode/token.rs:398-507 | the numeral's token is the as-written conversion of the text the scan takes, with the `-` in front when negated, and it ends where the scan ends |
| Numbers.NegatedRadixNumber | src/cm_rhai_mode/token.rs:398-488 | a numeral scanned after a folded `-` with a radix prefix runs to the end of its digits and is a malformed number carrying `-` and the whole numeral |
| Numbers.ScanNumber | src/cm_rhai_mode/token.rs:398-507 | the scanning loop produces the token and leaves the cursor exactly as `LexNumber` says |
| Numbers.NumberStep | src/cm_rhai_mode/token.rs:403-469 | one iteration of the outer numeral loop consumes what `NumberEnd` takes in one step, and only stops when it takes nothing |
| Numbers.ScanRun | src/cm_rhai_mode/token.rs:457-464 | the radix-digit loop stops at `RunEnd` and returns the characters it passed |
| Numbers.DecimalTextToken | src/cm_rhai_mode/token.rs:490-507 | decimal text without separators is an integer when it parses as `i64`, else a float when it reads as one, else malformed |
| Numbers.DecimalToken | src/cm_rhai_mode/token.rs:490-507 | the decimal digits of any value, optionally negated, are an integer exactly when the signed value fits `i64`, and a float otherwise |
| Numbers.DecimalLiteral | src/cm_rhai_mode/token.rs:490-507 | the decimal numeral of any value, optionally negated, lexes as an integer when it fits `i64` and otherwise as a float, consuming all of it |
| Numbers.RadixScan | src/cm_rhai_mode/token.rs:403-464 | the numeral scan of `0x`/`0o`/`0b` followed by the digits of any value takes the whole numeral and selects the radix |
| Numbers.RadixDigitsToken | src/cm_rhai_mode/token.rs:471-488 | a radix numeral of valid digits is an integer exactly when its digits parse as `i64`, else a malformed number carrying the text |
| Numbers.RadixTextToken | src/cm_rhai_mode/token.rs:471-488 | the radix numeral of a value is an integer exactly when the value is at most `i64::MAX` |
| Numbers.RadixLiteral | src/cm_rhai_mode/token.rs:426-488 | `0x`/`0o`/`0b` followed by the digits of any value lexes as an integer when it fits `i64` and otherwise as a malformed number carrying the text |
| Identifiers.IdentEndMaximal | src/cm_rhai_mode/token.rs:513-522 | an identifier run is the longest stretch of ASCII alphanumerics and `_` |
| Identifiers.IdentEnd | src/cm_rhai_mode/token.rs:513-522 | the run of identifier characters ends inside the line, never before where it started |
| Identifiers.FirstAlphanumericIsLetterMeans | src/cm_rhai_mode/token.rs:525-529 | the validity test holds exactly when a letter comes before any digit with only `_` in front of it |
| Identifiers.FirstAlphanumericIsLetter | src/cm_rhai_mode/token.rs:525-529 | a run that starts with a letter is valid, and a run without any letter is not |
| Identifiers.IdentifierToken | src/cm_rhai_mode/token.rs:525-572 | a scanned run is a malformed identifier, a keyword or a plain identifier |
| Identifiers.IdentifierTokenCases | src/cm_rhai_mode/token.rs:525-572 | each of the three outcomes holds exactly in its case: invalid run, keyword spelling, any other valid run |
| Identifiers.KeywordSpellingLexes | src/cm_rhai_mode/token.rs:540-570 | the spelling of every keyword lexes as that keyword |
| Identifiers.MalformedIdentifierExamples | src/cm_rhai_mode/token.rs:525-537 | `_1` and `__` are malformed identifiers; `_a` and `x1` are identifiers |
| Identifiers.LexIdentifier | src/cm_rhai_mode/token.rs:510-572 | an identifier token consumes at least its first character and stays in the line |
| Identifiers.ScanIdentifier | src/cm_rhai_mode/token.rs:510-572 | the identifier loop produces the token and leaves the cursor as `LexIdentifier` says |
| Identifiers.IdentifierRunLexes | src/cm_rhai_mode/token.rs:510-572 | a run of identifier characters that starts an identifier and is followed by no identifier character yields the token of that run and ends after it |
| Identifiers.KeywordLexes | src/cm_rhai_mode/token.rs:510-572 | a keyword followed by a non-identifier character lexes as that keyword and ends after its spelling |
| Lexer.LookAhead | src/cm_rhai_mode/token.rs:393 | the second character of a match is the next character of the line, `\n` at the end of a line that has a successor, else NUL |
| Lexer.Dispatch | src/cm_rhai_mode/token.rs:629-901 | a symbol yields a one- or two-character token or an action; an action that takes the second character only does so when that character is on the line; a `-` is folded into a number only before a digit; only whitespace is skipped |
| Lexer.DispatchSkipsWhitespace | src/cm_rhai_mode/token.rs:629-901 | a character is skipped exactly when it is whitespace |
| Lexer.PlusArms | src/cm_rhai_mode/token.rs:642-648 | `+=` before `=`; otherwise a one-character `+`, unary exactly when a unary operator is expected |
| Lexer.MinusArms | src/cm_rhai_mode/token.rs:650-666 | before a digit the `-` is folded into the number exactly when a unary operator is expected; elsewhere it is a unary minus exactly when one is expected and no `=` or `>` follows |
| Lexer.SlashArms | src/cm_rhai_mode/token.rs:676-732 | `//` starts a line comment and `/*` a block comment, each exactly when that second character follows |
| Lexer.EqualsArms | src/cm_rhai_mode/token.rs:738-764 | `==` goes on to test for a third `=` exactly when `=` follows; `=>` is an improper symbol exactly when `>` follows |
| Lexer.ColonArms | src/cm_rhai_mode/token.rs:766-780 | `::` exactly before `:`; `:=` is an improper symbol exactly before `=` |
| Lexer.LessArms | src/cm_rhai_mode/token.rs:782-810 | a shift `<<` (or `<<=`) exactly before `<`; `<-` is an improper symbol exactly before `-` |
| Lexer.GreaterArms | src/cm_rhai_mode/token.rs:812-832 | a shift `>>` (or `>>=`) exactly before `>`; the two-character `>=` exactly before `=` |
| Lexer.PendingOf | src/cm_rhai_mode/token.rs:719-724 | a comment left open is remembered with its level, a closed one is forgotten |
| Lexer.SymbolStep | src/cm_rhai_mode/token.rs:629-901 | a symbol step that yields a token consumes at least one character and stays in the line |
| Lexer.LexAt | src/cm_rhai_mode/token.rs:393-901 | a step that yields a token consumes at least one character, stays in the line and never yields end of input; a step that yields none is at whitespace or at a `-` folded into the digit after it |
| Lexer.QuoteStep | src/cm_rhai_mode/token.rs:575-627 | a string or character literal token ends inside the line, after its opening quote, with no comment pending |
| Lexer.CharToken | src/cm_rhai_mode/token.rs:590-627 | a character literal is a constant exactly when its scan succeeded with at most one character; a failed scan keeps its error; more than one character is a malformed character |
| Lexer.LexFrom | src/cm_rhai_mode/token.rs:383-906 | the main loop stays in the line and consumes at least one character when any remain; end of input means the whole line was consumed and no comment is open |
| Lexer.LexFromStep | src/cm_rhai_mode/token.rs:387-902 | the main loop returns the token of the step at the cursor, or carries on after that character with the step's sign flag |
| Lexer.IdentifierLexed | src/cm_rhai_mode/token.rs:510-572 | a letter or `_` starts an identifier token, whatever the lexer's flags |
| Lexer.BlockCommentStartLexed | src/cm_rhai_mode/token.rs:691-726 | `/*` yields a block-comment token ending where the comment scan ends, remembering the level it leaves open |
| Lexer.ComparisonLexed | src/cm_rhai_mode/token.rs:738-851 | `==` and `!=` followed by `=` are improper symbols covering two characters, and otherwise the comparison operators |
| Lexer.SymbolLexed | src/cm_rhai_mode/token.rs:629-901 | a character that starts no number, identifier or literal goes to the symbol arms, and their token is the main loop's |
| Lexer.Lex | src/cm_rhai_mode/token.rs:346-906 | one call, including resuming an open block comment, stays in the line and makes progress when characters remain |
| Lexer.LexerState.constructor | src/cm_rhai_mode/token.rs:208-216 | a fresh lexer expects a unary operator and has no open comment |
| Lexer.LexerState.NextTokenInner | src/cm_rhai_mode/token.rs:346-906 | the imperative lexer returns the token, cursor and pending comment that `Lex` specifies |
| Lexer.LexerState.ResumeBlockComment | src/cm_rhai_mode/token.rs:347-381 | resuming an open comment yields a block-comment token, the cursor and the level that `BlockScan` gives |
| Lexer.LexerState.MainLoop | src/cm_rhai_mode/token.rs:383-906 | the main loop returns the token, cursor and pending comment that `LexFrom` specifies |
| Lexer.Turn | src/cm_rhai_mode/token.rs:387-901 | one turn of the main loop either finishes with the result of `LexFrom` or moves the cursor forward without changing what `LexFrom` gives |
| Lexer.LexerState.NextToken | src/cm_rhai_mode/token.rs:908-914 | as `NextTokenInner`, and the unary flag becomes `is_next_unary` of the token returned |
| Lexer.LexChar | src/cm_rhai_mode/token.rs:393-901 | one iteration of the main loop does what `LexAt` specifies, moving the cursor only when it yields a token |
| Lexer.LexSymbol | src/cm_rhai_mode/token.rs:629-901 | the symbol arms do what `SymbolStep` specifies |
| LexerProperties.DispatchRejects | src/cm_rhai_mode/token.rs:657-851 | exactly `->`, `=>`, `:=` and `<-` are rejected as improper symbols after one character, with their own messages; exactly `==` and `!=` go on to test for a third `=` |
| LexerProperties.LookAlikeRejected | src/cm_rhai_mode/token.rs:657-794 | in a line, such a pair lexes as that improper-symbol error, consuming only its first character |
| LexerProperties.TripleEqualsRejected | src/cm_rhai_mode/token.rs:738-851 | `===` and `!==` are improper symbols; `==` and `!=` otherwise; either way two characters are consumed |
| LexerProperties.PlusMinusUnaryRule | src/cm_rhai_mode/token.rs:642-666 | a lone `+` or `-` is unary exactly when the lexer expects a unary operator |
| LexerProperties.UnaryMinusBeforeDigit | src/cm_rhai_mode/token.rs:650 | `-` before a digit starts a negated numeral when unary is expected: the token and end are those `LexNumber` gives for the negated numeral, with the as-written conversion |
| LexerProperties.BinaryMinusBeforeDigit | src/cm_rhai_mode/token.rs:651 | otherwise `-` before a digit is a binary minus of one character |
| LexerProperties.NegativeLiteral | src/cm_rhai_mode/token.rs:471-507 | `-n` in unary position is an integer exactly for n up to 2^63, and a float beyond |
| LexerProperties.RadixLiteralLexed | src/cm_rhai_mode/token.rs:398-488 | in a line, a radix numeral is an integer when it fits `i64`, else a malformed number, and consumes the whole numeral |
| LexerProperties.NegatedRadixLexed | src/cm_rhai_mode/token.rs:471-488 | as written, `-` in unary position before any radix numeral (`-0x`, `-0o`, `-0b` and valid digits) lexes as one malformed number carrying the whole text |
| LexerProperties.NegatedHexLexed | src/cm_rhai_mode/token.rs:471-488 | in unary position `-0x10` lexes as the malformed number `-0x10`, consuming five characters |
| LexerProperties.StringLiteralLexed | src/cm_rhai_mode/token.rs:575-582 | a well-formed double-quoted literal lexes as a string constant ending just after its closing quote |
| LexerProperties.CharCountPositive | src/cm_rhai_mode/token.rs:590-612 | when the character after `'` is not `'`, a successful scan counts at least one character, so the assertion that the count is 1 can only see 1 |
| LexerProperties.CharLiteralLexed | src/cm_rhai_mode/token.rs:590-627 | a well-formed single-quoted literal is a character constant when it holds one unit and a malformed character otherwise, ending after the closing quote |
| LexerProperties.EmptyCharLiteral | src/cm_rhai_mode/token.rs:584-589 | `''` is a malformed character, consuming only the first quote |
| LexerProperties.KeywordLexed | src/cm_rhai_mode/token.rs:510-572 | in a line, a keyword followed by a non-identifier character lexes as that keyword |
| LexerProperties.BlockCommentLeftOpenLexed | src/cm_rhai_mode/token.rs:691-726 | a comment not closed on its line yields a block-comment token at the end of the line and remembers the open level |
| LexerProperties.BlockCommentClosedLexed | src/cm_rhai_mode/token.rs:691-726 | a comment closed on its line yields a block-comment token ending after its `*/`, with nothing pending |
| LexerProperties.BlockCommentEndsAt | src/cm_rhai_mode/token.rs:691-726 | a `/*` at the start of a line yields a block-comment token ending where the comment scan ends, remembering the level it reached unless it is 0 |
| LexerProperties.BlockCommentResumed | src/cm_rhai_mode/token.rs:347-381 | on the next line the lexer resumes at the remembered level, and the comment closes after the `*/` that brings the level to 0 |
| LexerProperties.LineCommentLexed | src/cm_rhai_mode/token.rs:676-690 | `//` yields a line-comment token and consumes the rest of the line |
| LexerProperties.EndOfInputOnlyAfterWhitespace | src/cm_rhai_mode/token.rs:387-905 | the lexer reports end of input exactly when only whitespace is left on the line |
| LexerProperties.TokenAtNonWhitespace | src/cm_rhai_mode/token.rs:393-901 | a non-whitespace character always produces a token other than end of input |
| LexerProperties.WhitespaceSkipped | src/cm_rhai_mode/token.rs:900 | a whitespace character is skipped and lexing carries on after it |
| Mode.Name | src/cm_rhai_mode.rs:207-329 | every category has a non-empty style name |
| Mode.NameInjective | src/cm_rhai_mode.rs:207-329 | distinct categories have distinct style names |
| Mode.BracketCountStep | src/cm_rhai_mode.rs:192-206 | an opener leaves the count at least 1, and exactly 1 when it was negative (the clamp); a token that is neither opener nor closer leaves the count unchanged; the count becomes negative only after a closer or when it already was; from a non-negative count a token moves it by +1, -1 or 0 |
| Mode.BracketCountIsBalance | src/cm_rhai_mode.rs:192-206 | over a line where no prefix closes more than it opens, the count is openers minus closers |
| Mode.NextBracketCount | src/cm_rhai_mode.rs:192-206 | an opener leaves the count at least 1 and raises it, to exactly 1 from a negative count; the count drops exactly on a closer, and by one; any other token leaves it unchanged |
| Mode.NextDefining | src/cm_rhai_mode.rs:330-342 | the defining flag is set exactly after a defining keyword, or after a comment when it was already set |
| Mode.CategoryOf | src/cm_rhai_mode.rs:207-329 | end of input has no category and every other token has one; an identifier is `def` after a defining keyword and a variable otherwise |
| Mode.CategoryDefAndNumber | src/cm_rhai_mode.rs:207-329 | `def` comes exactly from an identifier after a defining keyword; `number` exactly from integer and float constants |
| Mode.CategoryBracket | src/cm_rhai_mode.rs:207-329 | `bracket` comes exactly from openers, closers and `?[` |
| Mode.CategoryErrorAndComment | src/cm_rhai_mode.rs:207-329 | `error` comes exactly from lexical errors and tokens the mode does not handle; `comment` exactly from comments |
| Mode.DefAfterDefiningKeyword | src/cm_rhai_mode.rs:330-342 | after `fn`, `let`, `const`, `as` or `for`, and any number of comments, an identifier is a definition |
| Mode.DefiningKept | src/cm_rhai_mode.rs:339 | comments leave the defining flag as it was |
| Mode.VariableAfterOtherToken | src/cm_rhai_mode.rs:340-342 | any other token clears the flag, so the next identifier is a variable |
| Mode.NextBraceStack | src/cm_rhai_mode.rs:219-238 | only a `}` can close an interpolation, popping one entry; only an interpolated string grows the stack |
| Mode.BraceStackStep | src/cm_rhai_mode.rs:219-238 | an interpolated string pushes 0; braces change only the top entry and leave an empty stack alone; `}` pops exactly when the top entry was 1 |
| Mode.BraceDepthTracked | src/cm_rhai_mode.rs:224-238 | within one interpolation, the top entry follows the brace depth |
| Mode.InterpolationClosed | src/cm_rhai_mode.rs:219-238 | an interpolation whose inner braces balance leaves the stack as it found it, and its closing `}` resumes backtick text |
| Mode.TrimStart | src/cm_rhai_mode.rs:347-351 | the trimmed text is a suffix of the original that does not start with whitespace |
| Mode.TrimStartSkips | src/cm_rhai_mode.rs:347-351 | trimming removes exactly the whitespace before the first other character |
| Mode.ShouldDedent | src/cm_rhai_mode.rs:347-351 | empty text never dedents; text whose first character is `}`, `]` or `)` always does |
| Mode.ShouldDedentMeans | src/cm_rhai_mode.rs:347-351 | the dedent test holds exactly when the first non-whitespace character is `}`, `]` or `)` |
| Mode.Indent | src/cm_rhai_mode.rs:346-366 | an indentation is a `u32`; there is no opinion exactly outside any bracket when no closer follows; outside a bracket the result is never deeper than the line; the value follows the four rows of `IndentRule` |
| Mode.IndentRule | src/cm_rhai_mode.rs:346-366 | inside a bracket: one unit deeper (a `u32` sum wrapping modulo 2^32), or level before a closer; outside: one unit shallower (not below 0) before a closer, and no opinion otherwise |
| Mode.IndentExample | src/cm_rhai_mode.rs:346-366 | with one open bracket on a line indented 0 and a unit of 2, `  foo` is indented 2 and `}` is indented 0 |
| Mode.ModeState.constructor | src/cm_rhai_mode.rs:44-57 | the start state reports comments, has no pending text, counts nothing and has an empty brace stack |
| Mode.ModeState.Copy | src/cm_rhai_mode.rs:59-62 | a copied state is a fresh object equal to the original |
| Mode.ModeState.Token | src/cm_rhai_mode.rs:175-344 | at the start of a line the indentation is recorded and the count reset; with no token the call fails with the source's message and keeps the old buffer; otherwise count, buffer, brace stack, terminator and defining flag take their next values, and end of input leaves the defining flag alone |
| Mode.ModeState.UpdateBraceStack | src/cm_rhai_mode.rs:219-238 | the brace arms set the stack and the terminator that `NextBraceStack` gives |
| Mode.RhaiMode.constructor | src/cm_rhai_mode.rs:39-42 | a mode keeps the indentation unit it is given |
| Mode.RhaiMode.IndentFor | src/cm_rhai_mode.rs:77-81 | the mode's indentation for a state is a `u32`, with no opinion exactly outside any bracket when no closer follows; its value follows `IndentRule` for the state's count and line indentation |
| Utf16Stream.UnitChar | src/cm_rhai_mode.rs:113-116 | a unit that is not a surrogate decodes to the scalar with the same value |
| Utf16Stream.PairChar | src/cm_rhai_mode.rs:128-131 | a surrogate pair decodes to a supplementary-plane scalar |
| Utf16Stream.DecodeAt | src/cm_rhai_mode.rs:105-138 | the read yields nothing exactly at the end; otherwise it consumes one or two units |
| Utf16Stream.DecodeAtCases | src/cm_rhai_mode.rs:105-138 | two units are consumed exactly for a surrogate pair; U+FFFD comes exactly from a surrogate that starts no pair, or from U+FFFD itself; other units yield themselves |
| Utf16Stream.DecodeEncodeAll | src/cm_rhai_mode.rs:105-138 | decoding the UTF-16 encoding of any string gives the string back |
| Utf16Stream.PeekAsWritten | src/cm_rhai_mode.rs:140-172 | as written, the peek sees nothing exactly at the end; it leaves the cursor in place except after a surrogate that is the last unit, where it moves it by one |
| Utf16Stream.CodeUnitStream.Peek | src/codemirror.rs:16-18 | the unit under the cursor, None exactly at the end |
| Utf16Stream.CodeUnitStream.Next | src/codemirror.rs:20-21 | returns what `Peek` saw and advances past it |
| Utf16Stream.CodeUnitStream.BackUp | src/codemirror.rs:58-59 | gives back the last n units |
| Utf16Stream.PeekAsWrittenMovesCursor | src/cm_rhai_mode.rs:140-172 | as written, the peek sees the character that the next read returns, but moves the cursor exactly when a surrogate is the last unit, after which the read returns nothing |
| Utf16Stream.LoneSurrogatePeek | src/cm_rhai_mode.rs:152-160 | on a line holding only 0xD800, the as-written peek returns U+FFFD and moves the cursor to the end |
| Utf16Stream.StreamAdapter.Unget | src/cm_rhai_mode.rs:101-103 | the pushed-back character is the next one read |
| Utf16Stream.StreamAdapter.GetNext | src/cm_rhai_mode.rs:105-138 | the pushed-back character comes first and is cleared; otherwise the read returns the character and cursor that `DecodeAt` gives |
| Utf16Stream.StreamAdapter.PeekNextAsWritten | src/cm_rhai_mode.rs:140-172 | the as-written peek returns the character and cursor that `PeekAsWritten` gives |
| Utf16Stream.StreamAdapter.PeekNext | src/cm_rhai_mode.rs:140-172 | the corrected peek returns what the next read would return and leaves the cursor and the buffer unchanged |

## Left out

- `rhai::get_next_token` and `rhai::TokenizeState` are part of the Rhai crate.
  - `Mode.ModeState.Token` takes the tokenizer's outcome as an input: the token, the new tokenizer state and the new push-back buffer.
  - Of the tokenizer state, only the comment flag and the text terminator are modelled.
  - Literal and identifier payloads of tokens are not modelled.
- `Mode.ModeState.Token` does not model how the stream adapter is wired to the editor's stream. The adapter is modelled on its own, in `Utf16Stream`.
- The lexer reads from a stream of already decoded characters (`HostStream.StringStream`), not from the adapter.
- Float parsing (`f64::from_str`) is reduced to a syntactic check, `Numbers.IsFloatText`. It covers the texts the numeral scanner can produce: digits, `.`, a leading `-`, with `_` removed. Float values and rounding are not modelled.
- Numbers.NumberToken: in radix 10, a numeral whose integer parse fails is taken to be a float whenever `IsFloatText` holds. `f64::from_str` accepts some texts this check rejects, such as `inf` and exponents, but the scanner cannot produce those.
- Lexer.LexerState.NextToken requires a line without NUL. The source reaches `unreachable!()` (src/cm_rhai_mode/token.rs:898) only when its main loop dispatches on a NUL and then panics; a NUL inside a string or character literal, after `//` or inside a block comment is lexed without a panic. Such lines are excluded from the model too.
- `next_token` and `next_token_inner` always return `Some`. The model returns the token directly.
- Positions (`Position`) are unit values in the source and are not modelled.
- The block-comment nesting level is a `u32` in the source. It is modelled as an unbounded `nat`, because overflowing it would need 2^32 `/*` on one line.
- Mode.ModeState.Token: `unclosed_bracket_count` is an `i32` in the source. It is modelled as an unbounded `int`, because overflowing it would need 2^31 brackets.
- The brace depths of interpolated strings are `u8` and are modelled as wrapping modulo 256, the release-build behaviour. A debug build would panic instead.
- Mode.Indent: `line_indent + indent_unit` is a `u32` sum and is modelled as wrapping modulo 2^32, the release-build behaviour. A debug build would panic instead.
- Not modelled, because they are I/O, wasm glue or constants with no behaviour:
  - console logging of lexical errors and unhandled tokens;
  - `Display` messages of `LexError`;
  - the `electric_input` and `line_comment` getters;
  - `init_codemirror_pass` and the `CODEMIRROR_PASS` fallback returned when `indent` has no opinion;
  - the `wasm_bindgen` wrappers.
- `src/codemirror.rs` is the editor's JavaScript stream. It is modelled only through the operations the core uses:
  - `next`, `peek`, `skip_to_end` and `look_ahead(1)` for the lexer, where `look_ahead(1)` is the "another line follows" flag;
  - `sol`, `indentation`, `next`, `peek` and `back_up` for the driver and the adapter.
  - The binding declares `peek` and `next` as returning `Option<char>`, but the adapter (src/cm_rhai_mode.rs:110-126 and 145-163) uses their results as one-unit JavaScript strings: it tests them with `is_falsy`, checks their `length` and reads them with `char_code_at`. `Utf16Stream.CodeUnitStream` follows that use, as a stream of `u16` code units, not the binding's declared type.
- The `assert_eq!(length, 1)` checks in the adapter are implied by the model: each stream read is one code unit.
- `StringTooLong` exists in the error type but is never produced, as in the source.

## Findings

| source | as written | input that shows it | evidently intended | confidence | as-written member | corrected member |
|---|---|---|---|---|---|---|
| src/cm_rhai_mode/token.rs:471-488 | when a radix numeral is negated, the `-` is inserted first and then two characters are skipped, so the radix letter is kept and the parse fails | `-0x10` in unary position lexes as a malformed number | skip the `0x` prefix and keep the sign, giving an integer | not executed | Numbers.NumberTokenAsWritten, Numbers.NegatedRadixAsWritten, LexerProperties.NegatedRadixLexed, LexerProperties.NegatedHexLexed | Numbers.NumberToken, Numbers.NegatedRadixCorrected |
| src/cm_rhai_mode.rs:152-160 | `peek_next` consumes a surrogate to look past it, and does not back up when the line ends there | line units `[0xD800]`, cursor 0: the peek returns U+FFFD but leaves the cursor at 1, so the following `get_next` returns nothing and the U+FFFD is lost | a peek leaves the cursor where it was on every path | not executed | Utf16Stream.StreamAdapter.PeekNextAsWritten, Utf16Stream.PeekAsWrittenMovesCursor | Utf16Stream.StreamAdapter.PeekNext |
