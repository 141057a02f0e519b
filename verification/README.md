# The Lox scanner, modelled in Dafny

This project models the lexical scanner of the Lox language in
`buildingAnInterpreter/lox/Scanner.java`. The scanner makes one
left-to-right pass over a source string. It turns the source into a list of
tokens that ends in a single end-of-input (`EOF`) token, and it reports
lexical errors to `Lox.error` as `(line, message)` pairs.

The model is functional:

- `Text` holds the character classes `isDigit`, `isAlpha` and
  `isAlphaNumeric` (Scanner.java lines 167-180) as `IsDigit`, `IsAlpha` and
  `IsAlphaNumeric`, and `Newlines`, the count of line feeds in a piece of
  text. Every line-number property is stated with `Newlines`.
- `Tokens` holds the token kinds, the literal values, and the static
  `keywords` table as a Dafny `map`.
- `Cursors` holds the scanner's mutable fields `start`, `current` and
  `line` as an immutable `Cursor`. It also holds the lookahead helpers
  (`isAtEnd`, `peek`, `peekNext`, `advance`, `match`). What `advance`
  does is stated through `ScanToken`: every call reads at least one
  character. The three inner `while` loops (identifier/number digits,
  line comments, string bodies) are written as recursive functions over
  the read position.
- `Scanner` holds:
  - `ScanToken`, one call of `scanToken`, which returns the cursor after
    the call and what it emitted and reported;
  - `ScanFrom` and `Scan`, the main loop of `scanTokens`
    and the final `EOF` token;
  - `ScanTokensLoop`, the same loop written as a Dafny `while` loop.

  Every emitted token keeps the span `[start, current)` it was cut from
  (`Lexed`). `Scanned.TokenList` projects the spans away.
- `Branches` states, arm by arm of the `switch`, what the scan does at a
  position in closed form: the scan from a position is one token, or one
  report, or nothing, followed by the scan from where the arm stopped.
- `Properties` holds whole-pass facts about line numbers, and the
  comparison between the two variants described below.
- `Examples` holds small sources scanned token by token.

The `>` arm of the Java `switch` has no `break`. After adding its `GREATER`
or `GREATER_EQUAL` token it runs the `/` arm on the same lexeme. The
scanner is therefore parameterised by `Variant`:

- `AsWritten` is the Java code as it stands, and `ScanTokens` uses it.
- `Corrected` is the same scanner with a `break` after the `>` arm, and
  `ScanTokensCorrected` uses it.

Every generic property is proved for both variants. The properties that
hold only with the `break` are proved for `Corrected`. The defect is listed
under "## Findings".

Three behaviours of `Scanner.java` are easy to misread, and the model states
them as the code has them:

- A string token carries the line counter's value when the token is added.
  For a string that spans several lines, that is the line of the closing
  quote, not of the opening one (`Properties.TokenLines`).
- The `EOF` token's line is 1 plus the number of line feeds in the source
  (`Properties.EofLine`). When the source ends in a line feed, that is one
  more than the line of the last character.
- The `>` fall-through described above.

## Model

| member | source | states |
|---|---|---|
| `Tokens.KeywordKind` | buildingAnInterpreter/lox/Scanner.java:108-110 | A word's kind is `IDENTIFIER` exactly when the word is not a key of the keyword table. Otherwise it is the reserved word spelled exactly like it. |
| `Tokens.KeywordsSound` | buildingAnInterpreter/lox/Scanner.java:17-33 | Every entry of the keyword table maps a reserved word's spelling to that reserved word. |
| `Tokens.KeywordKindRoundTrip` | buildingAnInterpreter/lox/Scanner.java:17-33 | Every one of the sixteen reserved words is in the table under its spelling, and looking up that spelling gives the word back. |
| `Tokens.KeywordsKeys` | buildingAnInterpreter/lox/Scanner.java:15-34 | The table's keys are exactly the sixteen lower-case reserved spellings. Matching is case-sensitive and exact. |
| `Tokens.KeywordLengths` | buildingAnInterpreter/lox/Scanner.java:17-33 | Every reserved spelling is two to six characters long. |
| `Tokens.IdentifierByLength` | buildingAnInterpreter/lox/Scanner.java:108-110 | A word shorter than two or longer than six characters is always an `IDENTIFIER`. |
| `Cursors.Match` | buildingAnInterpreter/lox/Scanner.java:148-153 | `match` reports true exactly when an unread character exists and equals the expected one. It consumes that character exactly then, and otherwise leaves the cursor alone. |
| `Cursors.SkipWhile` | buildingAnInterpreter/lox/Scanner.java:106 | The digit and identifier loops stop at the end of the longest run of matching characters. Everything they passed matches, and the character they stop at does not, or the source ends there. |
| `Cursors.SkipWhileIs` | buildingAnInterpreter/lox/Scanner.java:115 | The longest-run end is unique: any position satisfying those conditions is where the loop stops. |
| `Cursors.SkipComment` | buildingAnInterpreter/lox/Scanner.java:79 | The comment loop stops at the next line feed, without consuming it, or at the end of the source. It passes no line feed. |
| `Cursors.SkipCommentIs` | buildingAnInterpreter/lox/Scanner.java:79 | The comment loop stops at exactly the first line feed at or after where it started, or at the end. |
| `Cursors.StringBodyEnd` | buildingAnInterpreter/lox/Scanner.java:130-133 | The string loop stops at the next double quote or at the end. It passes no quote. The line counter grows by the number of line feeds it passed. |
| `Cursors.StringBodyEndIs` | buildingAnInterpreter/lox/Scanner.java:130-133 | The string loop stops at exactly the first double quote at or after where it started, or at the end. |
| `Scanner.PunctuationKind` | buildingAnInterpreter/lox/Scanner.java:56-65 | Each of the ten punctuation characters selects the fixed-spelling kind written as that character alone. |
| `Scanner.OperatorKinds` | buildingAnInterpreter/lox/Scanner.java:66-76 | Each of `!`, `=`, `<` and `>` selects the pair of kinds spelled as the character alone and as the character followed by `=`. |
| `Branches.NoCaseOfItsOwn` | buildingAnInterpreter/lox/Scanner.java:167-180 | A character that `isDigit` or `isAlpha` accepts has no case of its own in the switch, so it always reaches the default branch that calls `number` or `identifier`. |
| `Scanner.ScanToken` | buildingAnInterpreter/lox/Scanner.java:53-103 | Every call of `scanToken` reads at least one character and stays within the source. This is why the main loop terminates. |
| `Scanner.SingleFacts` | buildingAnInterpreter/lox/Scanner.java:56-65 | A punctuation arm adds one token: the character it read, with the kind spelled that way, on the current line. |
| `Scanner.OperatorFacts` | buildingAnInterpreter/lox/Scanner.java:66-74 | An operator arm adds exactly one token and reports nothing. The token is of the two-character kind exactly when the cursor moved past a following `=`. |
| `Scanner.SlashFacts` | buildingAnInterpreter/lox/Scanner.java:77-83 | The `/` arm reads no line feed. It adds at most one token, a `SLASH` spelled `/`. |
| `Scanner.GreaterFacts` | buildingAnInterpreter/lox/Scanner.java:75-83 | The `>` arm is a well-behaved step in both variants. With the `break` it adds no `SLASH` that is not spelled `/`. |
| `Scanner.FallthroughStep` | buildingAnInterpreter/lox/Scanner.java:75-83 | As written, the `>` arm adds its operator token. The `/` arm then adds either nothing (a comment) or a second token cut from the same span. The two tokens are in order. |
| `Scanner.StringFacts` | buildingAnInterpreter/lox/Scanner.java:129-145 | The string arm counts every line feed it reads. It adds one well-formed `STRING` token or reports one error, never both and never neither. |
| `Scanner.NumberFacts` | buildingAnInterpreter/lox/Scanner.java:114-127 | The number arm adds one `NUMBER` token: digits, optionally a `.` and at least one digit. No digit follows it, and a whole-only number is not followed by a `.` and a digit. |
| `Scanner.IdentifierFacts` | buildingAnInterpreter/lox/Scanner.java:105-112 | The identifier arm adds one token, a maximal run of letters, digits and underscores that starts with a letter or underscore, classified by the keyword table. |
| `Scanner.NoTokenFacts` | buildingAnInterpreter/lox/Scanner.java:84-100 | Blanks and line feeds add no token. Only a line feed moves the line counter, by one. An unexpected character adds nothing and reports one error on the current line. |
| `Scanner.ScanTokenFacts` | buildingAnInterpreter/lox/Scanner.java:53-103 | Every step reads at least one character and counts exactly the line feeds it reads. Each token it adds is cut from where it began and is the source text of its span, with the shape its kind demands. It reports at most one error, on the line where it stopped. Two tokens occur only in the as-written `>` fall-through. |
| `Scanner.ScanFromFacts` | buildingAnInterpreter/lox/Scanner.java:45-50 | The loop from any position and line produces tokens cut from the source in order, each carrying the line counter's value when it was cut, ending in one `EOF` token. Errors are in non-decreasing line order. |
| `Scanner.ScanSpec` | buildingAnInterpreter/lox/Scanner.java:44-52 | A whole pass ends in exactly one `EOF` token, with an empty lexeme, no literal, the end-of-source span and line 1 plus the line-feed count. Every earlier token is non-empty source text of its span, with its kind's shape, on the line of its last character. Errors lie on the source's lines, in order. |
| `Scanner.CorrectedSpec` | buildingAnInterpreter/lox/Scanner.java:75-77 | With the `break`, every `SLASH` token is spelled `/`, and every token's span ends before the next token's span starts. |
| `Scanner.ScanTokensLoop` | buildingAnInterpreter/lox/Scanner.java:44-52 | The imperative loop (set `start`, scan one token, repeat, then append `EOF`) returns exactly the token list and the reports of the recursive scan. |
| `Branches.EndOfInput` | buildingAnInterpreter/lox/Scanner.java:50 | At the end of the source, the scan is the `EOF` token alone, on the current line. |
| `Branches.Continue` | buildingAnInterpreter/lox/Scanner.java:45-48 | Before the end, the scan is one `scanToken` step followed by the scan from where that step stopped. |
| `Branches.BlankAt` | buildingAnInterpreter/lox/Scanner.java:84-87 | A space, carriage return or tab is skipped, with no token and no line change. |
| `Branches.NewlineAt` | buildingAnInterpreter/lox/Scanner.java:88-90 | A line feed adds no token and adds one to the line counter. |
| `Branches.PunctuationAt` | buildingAnInterpreter/lox/Scanner.java:56-65 | A punctuation character adds the one-character token of its kind, and scanning resumes right after it. |
| `Branches.OperatorAt` | buildingAnInterpreter/lox/Scanner.java:66-74 | `!`, `=` and `<` (and `>` with the `break`) add one token, two-character exactly when `=` follows. Nothing after the operator is read. |
| `Branches.GreaterAt` | buildingAnInterpreter/lox/Scanner.java:75-83 | As written, `>` adds `GREATER` or `GREATER_EQUAL`. If `/` follows, the rest of the line is a comment. Otherwise a `SLASH` token with the same lexeme and span follows it. |
| `Branches.CommentAt` | buildingAnInterpreter/lox/Scanner.java:77-79 | `//` skips to the next line feed, excluding it, or to the end. It adds no token and leaves the scan of what follows unchanged. |
| `Branches.SlashAt` | buildingAnInterpreter/lox/Scanner.java:80-82 | A `/` not followed by `/` adds a `SLASH` token spelled `/`. |
| `Branches.StringAt` | buildingAnInterpreter/lox/Scanner.java:129-145 | A closed string adds one `STRING` token. Its literal is exactly the text between the quotes, and its line is the line of the closing quote. Scanning resumes after the closing quote with the line feeds inside counted. |
| `Branches.UnterminatedStringAt` | buildingAnInterpreter/lox/Scanner.java:134-137 | A quote with no closing quote adds no token and reports "Unterminated string" once, on the last line. The scan then ends with `EOF`. |
| `Branches.NumberAt` | buildingAnInterpreter/lox/Scanner.java:114-126 | A maximal run of digits, not followed by a `.` and a digit, is one `NUMBER` token with no fraction. A `.` without a digit after it is left for the next token. |
| `Branches.FractionAt` | buildingAnInterpreter/lox/Scanner.java:118-122 | Digits, a `.` and a maximal run of digits form one `NUMBER` token whose literal keeps the whole and the fractional digits. |
| `Branches.WordAt` | buildingAnInterpreter/lox/Scanner.java:105-112 | A maximal run of letters, digits and underscores is one token. It is a reserved word only when the whole run spells one. |
| `Branches.UnexpectedAt` | buildingAnInterpreter/lox/Scanner.java:92-100 | A character with no case reports "Unexpected character." on the current line, adds no token, and scanning continues with the next character. |
| `Branches.PunctuationKindUnique` | buildingAnInterpreter/lox/Scanner.java:56-65 | No other kind is spelled as a punctuation character alone, so the punctuation dispatch is the only possible one. |
| `Branches.OperatorKindsUnique` | buildingAnInterpreter/lox/Scanner.java:66-76 | No other pair of kinds is spelled as an operator character alone and followed by `=`. |
| `Properties.OneLine` | buildingAnInterpreter/lox/Scanner.java:53-103 | Every token other than a string lies on one line: its span holds no line feed. |
| `Properties.TokenLines` | buildingAnInterpreter/lox/Scanner.java:193-196 | A non-string token's line is 1 plus the line feeds before it. A string token's line also adds the line feeds inside its literal. |
| `Properties.StringLines` | buildingAnInterpreter/lox/Scanner.java:143 | The line feeds in a string token's span are exactly those of its literal. |
| `Properties.LinesNonDecreasing` | buildingAnInterpreter/lox/Scanner.java:88-90 | Token line numbers never decrease along the token list. |
| `Properties.EofLine` | buildingAnInterpreter/lox/Scanner.java:50 | The `EOF` token is last and its line is 1 plus the number of line feeds in the source. |
| `Properties.EofOnlyAtEnd` | buildingAnInterpreter/lox/Scanner.java:44-51 | A token is `EOF` exactly when it is the last one. A lexeme is empty exactly when its token is the last one. |
| `Properties.SameScanFrom` | buildingAnInterpreter/lox/Scanner.java:75-77 | From any position after which no `>` occurs, both variants scan alike. |
| `Properties.SameScan` | buildingAnInterpreter/lox/Scanner.java:75-77 | On a source without `>`, the scanner as written and the corrected one give the same result. |
| `Examples.OnePlusTwo` | buildingAnInterpreter/lox/Scanner.java:84-87 | `1 + 2` is two numbers around a `PLUS`, then `EOF`, all on line 1. |
| `Examples.Orchard` | buildingAnInterpreter/lox/Scanner.java:105-112 | `orchard` is one `IDENTIFIER`, not `OR` followed by more. |
| `Examples.OrAlone` | buildingAnInterpreter/lox/Scanner.java:109 | `or` alone is the reserved word `OR`. |
| `Examples.Fraction` | buildingAnInterpreter/lox/Scanner.java:118-122 | `1.5` is one `NUMBER` whose literal has whole digits `1` and fraction `5`. |
| `Examples.Unterminated` | buildingAnInterpreter/lox/Scanner.java:134-137 | A string cut off by the end of a two-line source gives only `EOF` and one "Unterminated string" report on line 2. |
| `Examples.UnexpectedThenNumber` | buildingAnInterpreter/lox/Scanner.java:98-100 | `@7` reports one unexpected character, then scans the number. |
| `Examples.GreaterAsWritten` | buildingAnInterpreter/lox/Scanner.java:75-77 | As written, `>x` gives `GREATER`, then a `SLASH` whose lexeme is `>`, then `IDENTIFIER`, then `EOF`. |
| `Examples.GreaterCorrected` | buildingAnInterpreter/lox/Scanner.java:75-76 | With the `break`, `>x` gives `GREATER`, `IDENTIFIER`, `EOF`. |
| `Examples.GreaterEqualAsWritten` | buildingAnInterpreter/lox/Scanner.java:75-81 | As written, `>=1` gives `GREATER_EQUAL`, then a `SLASH` whose lexeme is `>=`, then the number. |
| `Examples.GreaterSlashAsWritten` | buildingAnInterpreter/lox/Scanner.java:75-79 | As written, `>/x` gives `GREATER` and `EOF` only, because the `/` arm reads the `/` as the start of a comment. |
| `Examples.GreaterSlashCorrected` | buildingAnInterpreter/lox/Scanner.java:75-83 | With the `break`, `>/x` gives `GREATER`, `SLASH`, `IDENTIFIER`, `EOF`. |

## Left out

- `Double.parseDouble` (Scanner.java line 126) is floating point. A `NUMBER` literal is the pair of its whole and fractional digit strings, which is what `parseDouble` reads.
- `Lox.error` is an external side-effecting sink in a file that is not part of this model. Each call is modelled as one `Diagnostic(line, message)` appended to the pass's error list, in call order.
- `Token.java` and `TokenType.java` are not part of this model. `Token` and `Kind` are datatypes built from how the scanner uses them. The sixteen keyword kinds are gathered under `Reserved(word)`.
- The Java `int` fields `start`, `current` and `line` are unbounded naturals. Overflow on sources of more than 2^31 - 1 characters or lines is not modelled.
- Java `char` is a UTF-16 code unit and Dafny `char` is a Unicode scalar value. The model treats each Dafny character as one scanner position. For characters inside the Basic Multilingual Plane the two agree. A character outside it, such as U+1F600, is two positions in Java: two surrogates. Each surrogate fails `isDigit` and `isAlpha`, so Java reports "Unexpected character." twice where the model reports it once. Inside a string literal, such a character makes the Java span one position longer than the model's. Spans and positions in the model count scalar values, not UTF-16 units.
- The constructor and the mutable `ArrayList` of tokens are replaced by the immutable `Scanned` value. `HashMap` lookup is replaced by the Dafny `map` `Keywords`.
- A token's source span (`Lexed.start`, `Lexed.end`) is not part of Java's `Token`. It records the `start` and `current` the scanner had when it added the token, and `Scanned.TokenList` drops it.

## Findings

| source | as written | input that shows it | evidently intended | confidence | as-written member | corrected member |
|---|---|---|---|---|---|---|
| buildingAnInterpreter/lox/Scanner.java:75-77 | The `case '>'` arm has no `break`. After adding `GREATER` or `GREATER_EQUAL` it runs the `case '/'` arm on the same lexeme. That arm adds a `SLASH` token spelled `>` or `>=`, or swallows the rest of the line as a comment when `/` follows. | `>x`: `GREATER ">"`, `SLASH ">"`, `IDENTIFIER "x"`, `EOF`. `>/x`: `GREATER ">"`, `EOF`. | A `break` as in the `!`, `=` and `<` arms. `>x` is `GREATER`, `IDENTIFIER`, `EOF`. Every `SLASH` is spelled `/`, and token spans do not overlap. | high; not executed | `Examples.GreaterAsWritten` | `Scanner.CorrectedSpec` |
