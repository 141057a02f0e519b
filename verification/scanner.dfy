/**
 The Lox scanner of `lox/Scanner.java`: one left-to-right pass over the
 source that turns it into a token list ending in an end-of-input token,
 and reports lexical errors as `(line, message)` pairs instead of calling
 the external `Lox.error`.

 The `>` arm of the Java `switch` has no `break`, so after emitting its
 token it runs the `/` arm too. `Variant` selects between that behaviour
 (`AsWritten`) and the one every other operator arm has (`Corrected`);
 nothing else differs between the two.

 Each emitted token is kept together with the `start` and `current`
 positions the scanner had when it emitted it (`Lexed`); `TokenList`
 projects them away.
 */
module Scanner {
  import opened Text
  import opened Tokens
  import opened Cursors

  datatype Variant = AsWritten | Corrected

  /** A report to the diagnostic sink. */
  datatype Diagnostic = Diagnostic(line: nat, message: string)

  const UnexpectedCharacter: string := "Unexpected character."
  const UnterminatedString: string := "Unterminated string"

  /** A token and the source span `[start, end)` it was cut from. */
  datatype Lexed = Lexed(token: Token, start: nat, end: nat)

  /** The outcome of one `scanToken` call: the cursor after it and what it emitted and reported. */
  datatype Step = Step(cursor: Cursor, tokens: seq<Lexed>, errors: seq<Diagnostic>)

  /** The outcome of a whole pass. */
  datatype Scanned = Scanned(lexed: seq<Lexed>, errors: seq<Diagnostic>) {
    /** This output followed by `rest`. */
    function Then(rest: Scanned): Scanned {
      Scanned(lexed + rest.lexed, errors + rest.errors)
    }

    /** The token list `scanTokens` returns. */
    function TokenList(): (ts: seq<Token>)
      ensures |ts| == |lexed|
      ensures forall i :: 0 <= i < |lexed| ==> ts[i] == lexed[i].token
    {
      seq(|lexed|, i requires 0 <= i < |lexed| => lexed[i].token)
    }
  }

  /** The text of a number literal with the given whole and fractional digits. */
  function NumberText(whole: string, fraction: string): string {
    if fraction == [] then whole else whole + "." + fraction
  }

  // ---------------------------------------------------------------------
  // The shape of a token

  /** An identifier or reserved word: a maximal run of letters, digits and underscores that starts with a letter or underscore. */
  predicate IsWordToken(src: string, t: Lexed) {
    && t.start < t.end <= |src|
    && t.token.lexeme == src[t.start..t.end]
    && IsAlpha(src[t.start])
    && (forall k :: t.start <= k < t.end ==> IsAlphaNumeric(src[k]))
    && (t.end == |src| || !IsAlphaNumeric(src[t.end]))
    && t.token.kind == KeywordKind(t.token.lexeme)
    && t.token.literal == NoLiteral
  }

  /**
   A number: digits, then a dot and digits only if a digit follows the dot;
   no digit follows it, and a dot followed by a digit does not follow a
   whole-only number.
   */
  predicate IsNumberToken(src: string, t: Lexed) {
    && t.start < t.end <= |src|
    && t.token.kind == Number
    && t.token.lexeme == src[t.start..t.end]
    && t.token.literal.NumberValue?
    && |t.token.literal.whole| > 0
    && AllDigits(t.token.literal.whole)
    && AllDigits(t.token.literal.fraction)
    && t.token.lexeme == NumberText(t.token.literal.whole, t.token.literal.fraction)
    && (t.end == |src| || !IsDigit(src[t.end]))
    && (t.token.literal.fraction == [] ==>
          !(t.end + 1 < |src| && src[t.end] == '.' && IsDigit(src[t.end + 1])))
  }

  /** A string: a quote, no quote, a quote; its literal is the text between the quotes. */
  predicate IsStringToken(src: string, t: Lexed) {
    && t.start + 2 <= t.end <= |src|
    && t.token.kind == String
    && t.token.lexeme == src[t.start..t.end]
    && src[t.start] == '"'
    && src[t.end - 1] == '"'
    && (forall k :: t.start < k < t.end - 1 ==> src[k] != '"')
    && t.token.literal == StringValue(src[t.start + 1..t.end - 1])
  }

  /** The `SLASH` token the `>` arm falls through to as written: it carries the `>` or `>=` it follows. */
  predicate IsFallthroughSlash(t: Lexed) {
    t.token.kind == Slash && (t.token.lexeme == ">" || t.token.lexeme == ">=")
  }

  /**
   Punctuation, an operator or the end-of-input marker, spelled as its kind
   says, except that a `SLASH` may be a fallthrough one.
   */
  predicate IsFixedToken(src: string, t: Lexed) {
    && t.start <= t.end <= |src|
    && !HasVariableLexeme(t.token.kind)
    && !t.token.kind.Reserved?
    && t.token.lexeme == src[t.start..t.end]
    && (t.token.lexeme == FixedSpelling(t.token.kind) || IsFallthroughSlash(t))
    && t.token.literal == NoLiteral
  }

  /** The shape a token of each kind has. */
  predicate WellFormed(src: string, t: Lexed) {
    if t.token.kind.String? then IsStringToken(src, t)
    else if t.token.kind.Number? then IsNumberToken(src, t)
    else if t.token.kind.Identifier? || t.token.kind.Reserved? then IsWordToken(src, t)
    else IsFixedToken(src, t)
  }

  /** No `SLASH` other than one spelled `/`: what the corrected scanner adds to `WellFormed`. */
  predicate NoFallthrough(ts: seq<Lexed>) {
    forall t <- ts :: t.token.kind == Slash ==> t.token.lexeme == "/"
  }

  /**
   How consecutive tokens sit in the source: the first ends before the
   second starts, or, only as written, a `>`/`>=` token is followed by the
   `SLASH` cut from the same span.
   */
  predicate Follows(v: Variant, a: Lexed, b: Lexed) {
    || a.end <= b.start
    || (&& v.AsWritten?
        && a.start == b.start && a.end == b.end
        && (a.token.kind == Greater || a.token.kind == GreaterEqual)
        && b.token.kind == Slash)
  }

  predicate IsDiagnosticMessage(m: string) {
    m == UnexpectedCharacter || m == UnterminatedString
  }

  /** The end-of-input token appended once the source is used up. */
  function EofAt(src: string, line: nat): Lexed {
    Lexed(Token(Eof, "", NoLiteral, line), |src|, |src|)
  }

  /** `addToken`: the lexeme is the text from `start` to `current`, the line the counter's value. */
  function AddToken(src: string, c: Cursor, kind: Kind, literal: Literal): Lexed
    requires c.start <= c.current <= |src|
  {
    Lexed(Token(kind, src[c.start..c.current], literal, c.line), c.start, c.current)
  }

  // ---------------------------------------------------------------------
  // One call of scanToken

  /** A token emitted by a step that began at `c` and stopped at `stop`. */
  predicate EmittedBy(src: string, c: Cursor, stop: nat, t: Lexed) {
    && t.start == c.start < t.end <= stop <= |src|
    && t.token.kind != Eof
    && WellFormed(src, t)
    && t.token.line == c.line + Newlines(src[c.start..t.end])
  }

  /**
   What one step from `c` (with `start == current`) to `r` guarantees: it
   reads at least one character, counts the line feeds it reads, and emits
   at most one token (two only for the `>` fallthrough) and reports at most
   one error, on the line it stopped at.
   */
  predicate StepFacts(v: Variant, src: string, c: Cursor, r: Step) {
    && c.start == c.current
    && r.cursor.start == c.start
    && c.current < r.cursor.current <= |src|
    && r.cursor.line == c.line + Newlines(src[c.current..r.cursor.current])
    && (forall t <- r.tokens :: EmittedBy(src, c, r.cursor.current, t))
    && (v.Corrected? ==> NoFallthrough(r.tokens))
    && |r.errors| <= 1
    && (forall e <- r.errors :: e.line == r.cursor.line && IsDiagnosticMessage(e.message))
    && (|r.tokens| <= 1 || (v.AsWritten? && |r.tokens| == 2 && Follows(v, r.tokens[0], r.tokens[1])))
  }

  /** The step from `start` once the character there has been read by `advance`. */
  function Begun(c: Cursor): Cursor {
    c.(current := c.start)
  }

  /** The kind of the token a punctuation character stands for: the one spelled with that character alone. */
  function PunctuationKind(ch: char): (k: Kind)
    requires ch in "(){},.-+;*"
    ensures FixedSpelling(k) == [ch]
    ensures !HasVariableLexeme(k) && !k.Reserved?
  {
    match ch
    case '(' => LeftParen case ')' => RightParen
    case '{' => LeftBrace case '}' => RightBrace
    case ',' => Comma case '.' => Dot case '-' => Minus
    case '+' => Plus case ';' => Semicolon case _ => Star
  }

  /** The one- and two-character kinds of an operator character: spelled with it alone, and with `=` after it. */
  function OperatorKinds(ch: char): (r: (Kind, Kind))
    requires ch in "!=<>"
    ensures FixedSpelling(r.0) == [ch] && FixedSpelling(r.1) == [ch, '=']
    ensures !HasVariableLexeme(r.0) && !r.0.Reserved? && !HasVariableLexeme(r.1) && !r.1.Reserved?
  {
    match ch
    case '!' => (Bang, BangEqual)
    case '=' => (Equal, EqualEqual)
    case '<' => (Less, LessEqual)
    case _ => (Greater, GreaterEqual)
  }

  /** A single-character punctuation token. */
  function Single(src: string, c: Cursor, kind: Kind): (r: Step)
    requires c.current == c.start + 1 <= |src|
    ensures r.cursor == c
  {
    Step(c, [AddToken(src, c, kind, NoLiteral)], [])
  }

  /** `!`, `=`, `<` and `>`: the two-character kind when `match('=')` consumes a `=`, else the one-character kind. */
  function Operator(src: string, c: Cursor, one: Kind, two: Kind): (r: Step)
    requires c.current == c.start + 1 <= |src|
    ensures r.cursor == c.(current := if c.current < |src| && src[c.current] == '=' then c.current + 1 else c.current)
  {
    var (matched, c') := Match(src, c, '=');
    Step(c', [AddToken(src, c', if matched then two else one, NoLiteral)], [])
  }

  /**
   The `/` arm, entered with the lexeme so far in `[start, current)`: a
   second `/` starts a comment that runs up to the next line feed and emits
   nothing; otherwise a `SLASH` token whose lexeme is that text.
   */
  function SlashArm(src: string, c: Cursor): (r: Step)
    requires c.start < c.current <= |src|
    ensures r.errors == [] && r.cursor.start == c.start && r.cursor.line == c.line
    ensures c.current <= r.cursor.current <= |src|
    ensures forall k :: c.current <= k < r.cursor.current ==> src[k] != '\n'
    ensures c.current < |src| && src[c.current] == '/' ==>
              r.tokens == [] && r.cursor.current == SkipComment(src, c.current + 1)
    ensures !(c.current < |src| && src[c.current] == '/') ==>
              r.tokens == [AddToken(src, c, Slash, NoLiteral)] && r.cursor == c
  {
    var (matched, c') := Match(src, c, '/');
    if matched then Step(c'.(current := SkipComment(src, c'.current)), [], [])
    else Step(c', [AddToken(src, c', Slash, NoLiteral)], [])
  }

  /** The `>` case: its operator token, then, as written, the `/` arm on the same lexeme. */
  function GreaterStep(v: Variant, src: string, c: Cursor): (r: Step)
    requires c.current == c.start + 1 <= |src|
    ensures c.current <= r.cursor.current <= |src|
  {
    var op := Operator(src, c, Greater, GreaterEqual);
    if v.Corrected? then op
    else
      var slash := SlashArm(src, op.cursor);
      Step(slash.cursor, op.tokens + slash.tokens, op.errors + slash.errors)
  }

  /**
   `string()`: reads to the closing quote, counting line feeds. At the end
   of the source it reports an unterminated string and emits nothing;
   otherwise it consumes the quote and emits a `STRING` whose literal is
   the text between the quotes.
   */
  function StringStep(src: string, c: Cursor): (r: Step)
    requires c.current == c.start + 1 <= |src|
    ensures c.current <= r.cursor.current <= |src|
  {
    var (stop, line) := StringBodyEnd(src, c.current, c.line);
    if IsAtEnd(src, stop) then
      Step(Cursor(c.start, stop, line), [], [Diagnostic(line, UnterminatedString)])
    else
      var c' := Cursor(c.start, stop + 1, line);
      Step(c', [AddToken(src, c', String, StringValue(src[c.start + 1..stop]))], [])
  }

  /**
   `number()`: the maximal run of digits, then a `.` and a further maximal
   run of digits only when `peekNext` sees a digit after the `.`.
   */
  function NumberStep(src: string, c: Cursor): (r: Step)
    requires c.current == c.start + 1 <= |src|
    ensures c.current <= r.cursor.current <= |src|
  {
    var whole := SkipWhile(src, c.current, IsDigit);
    var fraction := Peek(src, whole) == '.' && IsDigit(PeekNext(src, whole));
    var stop := if fraction then SkipWhile(src, whole + 1, IsDigit) else whole;
    var c' := c.(current := stop);
    Step(c', [AddToken(src, c', Number,
                       NumberValue(src[c.start..whole], if fraction then src[whole + 1..stop] else ""))], [])
  }

  /** `identifier()`: the maximal run of letters, digits and underscores, classified by the keyword table. */
  function IdentifierStep(src: string, c: Cursor): (r: Step)
    requires c.current == c.start + 1 <= |src|
    ensures c.current <= r.cursor.current <= |src|
  {
    var stop := SkipWhile(src, c.current, IsAlphaNumeric);
    var c' := c.(current := stop);
    Step(c', [AddToken(src, c', KeywordKind(src[c.start..stop]), NoLiteral)], [])
  }

  /** A step that emits no token: a blank, a line feed (which bumps `line`), or an unexpected character with its report. */
  function NoToken(src: string, c: Cursor, error: seq<Diagnostic>): (r: Step)
    requires c.current == c.start + 1 <= |src|
    ensures r.cursor.current == c.current
  {
    Step(c.(line := if src[c.start] == '\n' then c.line + 1 else c.line), [], error)
  }

  /**
   `scanToken`: reads one character with `advance` and dispatches on it.
   Every step moves past at least one character, so the main loop ends.
   */
  function ScanToken(v: Variant, src: string, c: Cursor): (r: Step)
    requires c.start == c.current < |src|
    ensures c.current < r.cursor.current <= |src|
  {
    var (ch, c1) := Advance(src, c);
    match ch
      case '(' | ')' | '{' | '}' | ',' | '.' | '-' | '+' | ';' | '*' =>
        Single(src, c1, PunctuationKind(ch))
      case '!' | '=' | '<' =>
        Operator(src, c1, OperatorKinds(ch).0, OperatorKinds(ch).1)
      case '>' => GreaterStep(v, src, c1)
      case '/' => SlashArm(src, c1)
      case ' ' | '\r' | '\t' | '\n' => NoToken(src, c1, [])
      case '"' => StringStep(src, c1)
      case _ =>
        if IsDigit(ch) then NumberStep(src, c1)
        else if IsAlpha(ch) then IdentifierStep(src, c1)
        else NoToken(src, c1, [Diagnostic(c1.line, UnexpectedCharacter)])
  }

  // ---------------------------------------------------------------------
  // What each arm guarantees
  //
  // The facts are proved one arm at a time, and the larger arms in several
  // lemmas, so that each proof stays small for the verifier.

  /** The punctuation arm cuts the one character it read, with its kind's spelling. */
  lemma SingleFacts(src: string, c: Cursor, kind: Kind)
    requires c.current == c.start + 1 <= |src|
    requires !HasVariableLexeme(kind) && !kind.Reserved?
    requires FixedSpelling(kind) == [src[c.start]]
    requires src[c.start] != '\n'
    ensures StepFacts(Corrected, src, Begun(c), Single(src, c, kind))
  {
    NewlinesOne(src, c.start);
  }

  /** An operator arm cuts one token, of the two-character kind exactly when a `=` follows. */
  lemma OperatorFacts(src: string, c: Cursor, one: Kind, two: Kind)
    requires c.current == c.start + 1 <= |src|
    requires !HasVariableLexeme(one) && !one.Reserved? && !HasVariableLexeme(two) && !two.Reserved?
    requires FixedSpelling(one) == [src[c.start]] && FixedSpelling(two) == [src[c.start], '=']
    requires src[c.start] != '\n'
    ensures var r := Operator(src, c, one, two);
            && StepFacts(Corrected, src, Begun(c), r)
            && r.errors == []
            && r.tokens == [AddToken(src, r.cursor, if r.cursor.current == c.current + 1 then two else one, NoLiteral)]
  {
    NewlinesOne(src, c.start);
    if c.current < |src| && src[c.current] == '=' {
      NewlinesOne(src, c.current);
      NewlinesSplit(src, c.start, c.current, c.current + 1);
      var c' := c.(current := c.current + 1);
      assert Operator(src, c, one, two) == Step(c', [AddToken(src, c', two, NoLiteral)], []);
      OperatorTokenFacts(src, c, c', two);
    } else {
      assert Operator(src, c, one, two) == Step(c, [AddToken(src, c, one, NoLiteral)], []);
      OperatorTokenFacts(src, c, c, one);
    }
  }

  /** An operator token of `kind` cut from `[start, stop.current)` is a step of an operator arm. */
  lemma OperatorTokenFacts(src: string, c: Cursor, stop: Cursor, kind: Kind)
    requires c.current == c.start + 1 <= |src|
    requires stop.start == c.start && stop.line == c.line && c.current <= stop.current <= |src|
    requires !HasVariableLexeme(kind) && !kind.Reserved?
    requires FixedSpelling(kind) == src[c.start..stop.current]
    requires Newlines(src[c.start..stop.current]) == 0
    ensures StepFacts(Corrected, src, Begun(c), Step(stop, [AddToken(src, stop, kind, NoLiteral)], []))
  {
    assert WellFormed(src, AddToken(src, stop, kind, NoLiteral));
  }

  /** The `/` arm reads no line feed and emits at most a `SLASH` spelled `/`. */
  lemma SlashFacts(src: string, c: Cursor)
    requires c.current == c.start + 1 <= |src|
    requires src[c.start] == '/'
    ensures StepFacts(Corrected, src, Begun(c), SlashArm(src, c))
  {
    NoNewlinesBetween(src, c.start, SlashArm(src, c).cursor.current);
  }

  /** The `>` arm: the corrected one is an operator arm; the one as written adds what the `/` arm does. */
  lemma GreaterFacts(v: Variant, src: string, c: Cursor)
    requires c.current == c.start + 1 <= |src|
    requires src[c.start] == '>'
    ensures StepFacts(v, src, Begun(c), GreaterStep(v, src, c))
  {
    OperatorFacts(src, c, Greater, GreaterEqual);
    if v.AsWritten? {
      FallthroughStep(src, c);
    }
  }

  /** The `>` token followed by what the `/` arm does with the same lexeme is a step as written. */
  lemma FallthroughStep(src: string, c: Cursor)
    requires c.current == c.start + 1 <= |src| && src[c.start] == '>'
    ensures var op := Operator(src, c, Greater, GreaterEqual);
            var slash := SlashArm(src, op.cursor);
            StepFacts(AsWritten, src, Begun(c), Step(slash.cursor, op.tokens + slash.tokens, op.errors + slash.errors))
  {
    var op := Operator(src, c, Greater, GreaterEqual);
    OperatorFacts(src, c, Greater, GreaterEqual);
    var t := op.tokens[0];
    assert t.token.lexeme == src[c.start..op.cursor.current];
    assert t.token.lexeme == ">" || t.token.lexeme == ">=";
    assert forall k :: c.start <= k < op.cursor.current ==> src[k] != '\n' by {
      assert forall k :: c.start <= k < op.cursor.current ==> src[k] == t.token.lexeme[k - c.start];
    }
    var slash := SlashArm(src, op.cursor);
    NoNewlinesBetween(src, c.start, slash.cursor.current);
    if slash.tokens == [] {
      FallthroughComment(src, c, op, slash);
    } else {
      FallthroughSlash(src, c, op, slash);
    }
  }

  /** The `/` arm after `>` found a comment: the step is the `>` token alone. */
  lemma FallthroughComment(src: string, c: Cursor, op: Step, slash: Step)
    requires c.current == c.start + 1 <= |src|
    requires StepFacts(Corrected, src, Begun(c), op) && |op.tokens| == 1 && op.errors == []
    requires op.cursor.start == c.start && op.cursor.line == c.line
    requires slash.tokens == [] && slash.errors == [] && slash.cursor.start == c.start && slash.cursor.line == c.line
    requires op.cursor.current <= slash.cursor.current <= |src|
    requires Newlines(src[c.start..slash.cursor.current]) == 0
    ensures StepFacts(AsWritten, src, Begun(c), Step(slash.cursor, op.tokens + slash.tokens, op.errors + slash.errors))
  {
    assert op.tokens + slash.tokens == op.tokens;
    assert op.tokens[0] in op.tokens;
  }

  /** The `/` arm after `>` found no comment: the `>` token, then a `SLASH` cut from the same span. */
  lemma FallthroughSlash(src: string, c: Cursor, op: Step, slash: Step)
    requires c.current == c.start + 1 <= |src|
    requires StepFacts(Corrected, src, Begun(c), op) && |op.tokens| == 1 && op.errors == []
    requires op.tokens[0].token.kind == Greater || op.tokens[0].token.kind == GreaterEqual
    requires op.tokens == [AddToken(src, op.cursor, op.tokens[0].token.kind, NoLiteral)]
    requires op.tokens[0].token.lexeme == ">" || op.tokens[0].token.lexeme == ">="
    requires slash.tokens == [AddToken(src, op.cursor, Slash, NoLiteral)] && slash.cursor == op.cursor
    requires slash.errors == []
    ensures StepFacts(AsWritten, src, Begun(c), Step(slash.cursor, op.tokens + slash.tokens, op.errors + slash.errors))
  {
    var t, u := op.tokens[0], slash.tokens[0];
    assert t in op.tokens;
    assert u.token.lexeme == t.token.lexeme;
    assert IsFallthroughSlash(u);
    assert WellFormed(src, u);
  }

  /** The string arm reads to the closing quote and either cuts the string or reports it unterminated. */
  lemma StringFacts(src: string, c: Cursor)
    requires c.current == c.start + 1 <= |src|
    requires src[c.start] == '"'
    ensures var r := StringStep(src, c);
            StepFacts(Corrected, src, Begun(c), r) && |r.tokens| + |r.errors| == 1
  {
    var (stop, line) := StringBodyEnd(src, c.current, c.line);
    NewlinesOne(src, c.start);
    NewlinesSplit(src, c.start, c.current, stop);
    if IsAtEnd(src, stop) {
      assert StringStep(src, c) == Step(Cursor(c.start, stop, line), [], [Diagnostic(line, UnterminatedString)]);
      UnclosedFacts(src, c, stop, line);
    } else {
      NewlinesOne(src, stop);
      NewlinesSplit(src, c.start, stop, stop + 1);
      var c' := Cursor(c.start, stop + 1, line);
      assert StringStep(src, c) == Step(c', [AddToken(src, c', String, StringValue(src[c.start + 1..stop]))], []);
      ClosedFacts(src, c, stop, line);
    }
  }

  /** A string the end of the source cuts off, with the counter at `line` there, is a step of the string arm. */
  lemma UnclosedFacts(src: string, c: Cursor, stop: nat, line: nat)
    requires c.current == c.start + 1 <= stop == |src|
    requires line == c.line + Newlines(src[c.start..stop])
    ensures StepFacts(Corrected, src, Begun(c), Step(Cursor(c.start, stop, line), [], [Diagnostic(line, UnterminatedString)]))
  {
  }

  /** The string closed by the quote at `stop`, with the counter at `line` there, is a step of the string arm. */
  lemma ClosedFacts(src: string, c: Cursor, stop: nat, line: nat)
    requires c.current == c.start + 1 <= stop < |src|
    requires src[c.start] == '"' && src[stop] == '"'
    requires forall k :: c.current <= k < stop ==> src[k] != '"'
    requires line == c.line + Newlines(src[c.start..stop + 1])
    ensures var c' := Cursor(c.start, stop + 1, line);
            StepFacts(Corrected, src, Begun(c), Step(c', [AddToken(src, c', String, StringValue(src[c.start + 1..stop]))], []))
  {
    var c' := Cursor(c.start, stop + 1, line);
    var t := AddToken(src, c', String, StringValue(src[c.start + 1..stop]));
    assert IsStringToken(src, t);
    assert EmittedBy(src, Begun(c), stop + 1, t);
  }

  /** The number arm cuts one well-formed number and reads no line feed. */
  lemma NumberFacts(src: string, c: Cursor)
    requires c.current == c.start + 1 <= |src|
    requires IsDigit(src[c.start])
    ensures var r := NumberStep(src, c);
            StepFacts(Corrected, src, Begun(c), r) && |r.tokens| == 1 && r.errors == []
  {
    var whole := SkipWhile(src, c.current, IsDigit);
    if Peek(src, whole) == '.' && IsDigit(PeekNext(src, whole)) {
      FractionFacts(src, c, whole);
    } else {
      WholeFacts(src, c, whole);
    }
  }

  /** The number arm when no `.` and digit follow the leading digits: a whole number. */
  lemma WholeFacts(src: string, c: Cursor, whole: nat)
    requires c.current == c.start + 1 <= |src|
    requires IsDigit(src[c.start])
    requires whole == SkipWhile(src, c.current, IsDigit)
    requires !(Peek(src, whole) == '.' && IsDigit(PeekNext(src, whole)))
    ensures var r := NumberStep(src, c);
            StepFacts(Corrected, src, Begun(c), r) && |r.tokens| == 1 && r.errors == []
  {
    assert NumberStep(src, c) == Step(c.(current := whole), [Lexed(Token(Number, src[c.start..whole],
             NumberValue(src[c.start..whole], ""), c.line), c.start, whole)], []);
    NumberTokenFacts(src, c, whole, whole, false);
  }

  /** The number arm when a `.` and a digit follow the leading digits: a number with a fraction. */
  lemma FractionFacts(src: string, c: Cursor, whole: nat)
    requires c.current == c.start + 1 <= |src|
    requires IsDigit(src[c.start])
    requires whole == SkipWhile(src, c.current, IsDigit)
    requires Peek(src, whole) == '.' && IsDigit(PeekNext(src, whole))
    ensures var r := NumberStep(src, c);
            StepFacts(Corrected, src, Begun(c), r) && |r.tokens| == 1 && r.errors == []
  {
    var stop := SkipWhile(src, whole + 1, IsDigit);
    FractionShape(src, c, whole, stop);
    FractionBounds(src, c, whole, stop);
    NumberTokenFacts(src, c, whole, stop, true);
  }

  /** The step the number arm takes on a number with a fraction, and where it stops. */
  lemma FractionShape(src: string, c: Cursor, whole: nat, stop: nat)
    requires c.current == c.start + 1 <= |src|
    requires whole == SkipWhile(src, c.current, IsDigit)
    requires Peek(src, whole) == '.' && IsDigit(PeekNext(src, whole))
    requires stop == SkipWhile(src, whole + 1, IsDigit)
    ensures c.start < whole + 1 < stop <= |src|
    ensures NumberStep(src, c) == Step(c.(current := stop), [Lexed(Token(Number, src[c.start..stop],
              NumberValue(src[c.start..whole], src[whole + 1..stop]), c.line), c.start, stop)], [])
  {
  }

  /** The digits, the `.` and the maximal fractional run of a number with a fraction. */
  lemma FractionBounds(src: string, c: Cursor, whole: nat, stop: nat)
    requires c.current == c.start + 1 <= |src|
    requires IsDigit(src[c.start])
    requires whole == SkipWhile(src, c.current, IsDigit)
    requires Peek(src, whole) == '.' && IsDigit(PeekNext(src, whole))
    requires stop == SkipWhile(src, whole + 1, IsDigit)
    ensures whole + 1 < stop && src[whole] == '.'
    ensures forall k :: c.start <= k < whole ==> IsDigit(src[k])
    ensures forall k :: whole + 1 <= k < stop ==> IsDigit(src[k])
    ensures stop == |src| || !IsDigit(src[stop])
  {
  }

  /** The number cut from `[start, stop)` with its whole part ending at `whole` is a step of the number arm. */
  lemma NumberTokenFacts(src: string, c: Cursor, whole: nat, stop: nat, fraction: bool)
    requires c.current == c.start + 1 <= |src|
    requires c.start < whole <= stop <= |src|
    requires forall k :: c.start <= k < whole ==> IsDigit(src[k])
    requires whole == |src| || !IsDigit(src[whole])
    requires fraction ==> whole + 1 < stop && src[whole] == '.'
    requires fraction ==> forall k :: whole + 1 <= k < stop ==> IsDigit(src[k])
    requires fraction ==> stop == |src| || !IsDigit(src[stop])
    requires !fraction ==> stop == whole
    requires !fraction ==> !(whole + 1 < |src| && src[whole] == '.' && IsDigit(src[whole + 1]))
    ensures var t := Lexed(Token(Number, src[c.start..stop],
                         NumberValue(src[c.start..whole], if fraction then src[whole + 1..stop] else ""), c.line), c.start, stop);
            StepFacts(Corrected, src, Begun(c), Step(c.(current := stop), [t], []))
  {
    NumberLexeme(src, c.start, whole, stop, fraction, c.line);
    NoNewlinesBetween(src, c.start, stop);
    var t := Lexed(Token(Number, src[c.start..stop],
                   NumberValue(src[c.start..whole], if fraction then src[whole + 1..stop] else ""), c.line), c.start, stop);
    OneTokenStep(src, Begun(c), c.(current := stop), t);
  }

  /** The digits and the optional fraction the `number()` loops read make up the lexeme. */
  lemma NumberLexeme(src: string, start: nat, whole: nat, stop: nat, fraction: bool, line: nat)
    requires start < whole <= stop <= |src|
    requires forall k :: start <= k < whole ==> IsDigit(src[k])
    requires whole == |src| || !IsDigit(src[whole])
    requires fraction ==> whole + 1 < stop && src[whole] == '.'
    requires fraction ==> forall k :: whole + 1 <= k < stop ==> IsDigit(src[k])
    requires fraction ==> stop == |src| || !IsDigit(src[stop])
    requires !fraction ==> stop == whole
    requires !fraction ==> !(whole + 1 < |src| && src[whole] == '.' && IsDigit(src[whole + 1]))
    ensures forall k :: start <= k < stop ==> src[k] != '\n'
    ensures IsNumberToken(src, Lexed(Token(Number, src[start..stop],
              NumberValue(src[start..whole], if fraction then src[whole + 1..stop] else ""), line), start, stop))
  {
    if fraction {
      assert src[start..stop] == src[start..whole] + "." + src[whole + 1..stop];
    }
  }

  /** The identifier arm cuts one well-formed word and reads no line feed. */
  lemma IdentifierFacts(src: string, c: Cursor)
    requires c.current == c.start + 1 <= |src|
    requires IsAlpha(src[c.start])
    ensures var r := IdentifierStep(src, c);
            StepFacts(Corrected, src, Begun(c), r) && |r.tokens| == 1 && r.errors == []
  {
    var stop := SkipWhile(src, c.current, IsAlphaNumeric);
    var t := IdentifierStep(src, c).tokens[0];
    NoNewlinesBetween(src, c.start, stop);
    assert IsWordToken(src, t);
    OneTokenStep(src, Begun(c), c.(current := stop), t);
  }

  /** A step that emits one well-formed token, cut from where the step began to where it stopped. */
  lemma OneTokenStep(src: string, c: Cursor, stop: Cursor, t: Lexed)
    requires c.start == c.current < stop.current <= |src|
    requires stop.start == c.start && stop.line == c.line
    requires Newlines(src[c.start..stop.current]) == 0
    requires t == Lexed(t.token, c.start, stop.current) && t.token.line == c.line
    requires t.token.kind.Identifier? || t.token.kind.Reserved? || t.token.kind.Number?
    requires t.token.kind.Number? ==> IsNumberToken(src, t)
    requires !t.token.kind.Number? ==> IsWordToken(src, t)
    ensures StepFacts(Corrected, src, c, Step(stop, [t], []))
  {
    assert WellFormed(src, t);
  }

  /** A blank or an unexpected character emits nothing; only a line feed moves the counter. */
  lemma NoTokenFacts(src: string, c: Cursor, error: seq<Diagnostic>)
    requires c.current == c.start + 1 <= |src|
    requires error == [] || error == [Diagnostic(c.line, UnexpectedCharacter)]
    requires error != [] ==> src[c.start] != '\n'
    ensures StepFacts(Corrected, src, Begun(c), NoToken(src, c, error))
  {
    NewlinesOne(src, c.start);
  }

  /** A step that is correct for the corrected scanner is correct as written too. */
  lemma StepFactsAsWritten(src: string, c: Cursor, r: Step)
    requires StepFacts(Corrected, src, c, r)
    ensures StepFacts(AsWritten, src, c, r)
  {
  }

  /**
   Every step reads at least one character, counts the line feeds it reads,
   emits well-formed tokens cut from where it began, and reports at most
   one error on the line it stopped at.
   */
  lemma ScanTokenFacts(v: Variant, src: string, c: Cursor)
    requires c.start == c.current < |src|
    ensures StepFacts(v, src, c, ScanToken(v, src, c))
  {
    var c1 := c.(current := c.current + 1);
    assert Begun(c1) == c;
    if src[c.current] == '>' {
      GreaterFacts(v, src, c1);
    } else {
      if src[c.current] in "(){},.-+;*!=</ \r\t\n" {
        FixedArmFacts(v, src, c);
      } else {
        OtherArmFacts(v, src, c);
      }
      if v.AsWritten? {
        StepFactsAsWritten(src, c, ScanToken(v, src, c));
      }
    }
  }

  /** The arms for punctuation, `!`, `=`, `<`, `/` and blanks. */
  lemma FixedArmFacts(v: Variant, src: string, c: Cursor)
    requires c.start == c.current < |src|
    requires src[c.current] in "(){},.-+;*!=</ \r\t\n"
    ensures StepFacts(Corrected, src, c, ScanToken(v, src, c))
  {
    if src[c.current] in "(){},.-+;*" {
      PunctuationArmFacts(v, src, c);
    } else if src[c.current] in "!=<" {
      OperatorArmFacts(v, src, c);
    } else {
      SlashOrBlankArmFacts(v, src, c);
    }
  }

  /** The ten punctuation arms. */
  lemma PunctuationArmFacts(v: Variant, src: string, c: Cursor)
    requires c.start == c.current < |src|
    requires src[c.current] in "(){},.-+;*"
    ensures StepFacts(Corrected, src, c, ScanToken(v, src, c))
  {
    var c1 := c.(current := c.current + 1);
    assert Begun(c1) == c;
    assert ScanToken(v, src, c) == Single(src, c1, PunctuationKind(src[c.current]));
    SingleFacts(src, c1, PunctuationKind(src[c.current]));
  }

  /** The `!`, `=` and `<` arms. */
  lemma OperatorArmFacts(v: Variant, src: string, c: Cursor)
    requires c.start == c.current < |src|
    requires src[c.current] in "!=<"
    ensures StepFacts(Corrected, src, c, ScanToken(v, src, c))
  {
    var ch, c1 := src[c.current], c.(current := c.current + 1);
    assert Begun(c1) == c;
    assert ScanToken(v, src, c) == Operator(src, c1, OperatorKinds(ch).0, OperatorKinds(ch).1);
    OperatorFacts(src, c1, OperatorKinds(ch).0, OperatorKinds(ch).1);
  }

  /** The `/` arm and the arms for blanks and line feeds. */
  lemma SlashOrBlankArmFacts(v: Variant, src: string, c: Cursor)
    requires c.start == c.current < |src|
    requires src[c.current] in "/ \r\t\n"
    ensures StepFacts(Corrected, src, c, ScanToken(v, src, c))
  {
    var c1 := c.(current := c.current + 1);
    assert Begun(c1) == c;
    if src[c.current] == '/' {
      assert ScanToken(v, src, c) == SlashArm(src, c1);
      SlashFacts(src, c1);
    } else {
      assert ScanToken(v, src, c) == NoToken(src, c1, []);
      NoTokenFacts(src, c1, []);
    }
  }

  /** The arms for strings, numbers, words and unexpected characters. */
  lemma OtherArmFacts(v: Variant, src: string, c: Cursor)
    requires c.start == c.current < |src|
    requires src[c.current] !in "(){},.-+;*!=<>/ \r\t\n"
    ensures StepFacts(Corrected, src, c, ScanToken(v, src, c))
  {
    if src[c.current] == '"' {
      StringArmFacts(v, src, c);
    } else if IsDigit(src[c.current]) {
      NumberArmFacts(v, src, c);
    } else if IsAlpha(src[c.current]) {
      WordArmFacts(v, src, c);
    } else {
      UnexpectedArmFacts(v, src, c);
    }
  }

  /** The `"` arm. */
  lemma StringArmFacts(v: Variant, src: string, c: Cursor)
    requires c.start == c.current < |src|
    requires src[c.current] == '"'
    ensures StepFacts(Corrected, src, c, ScanToken(v, src, c))
  {
    var c1 := c.(current := c.current + 1);
    assert Begun(c1) == c;
    assert ScanToken(v, src, c) == StringStep(src, c1);
    StringFacts(src, c1);
  }

  /** The default branch on a digit. */
  lemma NumberArmFacts(v: Variant, src: string, c: Cursor)
    requires c.start == c.current < |src|
    requires IsDigit(src[c.current])
    ensures StepFacts(Corrected, src, c, ScanToken(v, src, c))
  {
    var c1 := c.(current := c.current + 1);
    assert Begun(c1) == c;
    assert ScanToken(v, src, c) == NumberStep(src, c1);
    NumberFacts(src, c1);
  }

  /** The default branch on a letter or underscore. */
  lemma WordArmFacts(v: Variant, src: string, c: Cursor)
    requires c.start == c.current < |src|
    requires IsAlpha(src[c.current])
    ensures StepFacts(Corrected, src, c, ScanToken(v, src, c))
  {
    var c1 := c.(current := c.current + 1);
    assert Begun(c1) == c;
    assert ScanToken(v, src, c) == IdentifierStep(src, c1);
    IdentifierFacts(src, c1);
  }

  /** The default branch on a character with no case. */
  lemma UnexpectedArmFacts(v: Variant, src: string, c: Cursor)
    requires c.start == c.current < |src|
    requires src[c.current] !in "(){},.-+;*!=<>/ \r\t\n\""
    requires !IsDigit(src[c.current]) && !IsAlpha(src[c.current])
    ensures StepFacts(Corrected, src, c, ScanToken(v, src, c))
  {
    var c1 := c.(current := c.current + 1);
    assert Begun(c1) == c;
    assert ScanToken(v, src, c) == NoToken(src, c1, [Diagnostic(c1.line, UnexpectedCharacter)]);
    NoTokenFacts(src, c1, [Diagnostic(c1.line, UnexpectedCharacter)]);
  }

  // ---------------------------------------------------------------------
  // The main loop of scanTokens

  /** The token list ends in the one end-of-input token; every token before it spans source text at or after `current`. */
  predicate EndsWithEof(src: string, current: nat, line: nat, ts: seq<Lexed>)
    requires current <= |src|
  {
    && |ts| >= 1
    && ts[|ts| - 1] == EofAt(src, line + Newlines(src[current..]))
    && (forall k :: 0 <= k < |ts| - 1 ==> ts[k].token.kind != Eof && current <= ts[k].start < ts[k].end)
  }

  /** Each token is cut from the source at or after `current`, has its kind's shape and the line the counter had. */
  predicate FromSource(src: string, current: nat, line: nat, ts: seq<Lexed>)
    requires current <= |src|
  {
    forall t <- ts ::
      && current <= t.start
      && WellFormed(src, t)
      && t.token.line == line + Newlines(src[current..t.end])
  }

  /** Consecutive tokens follow each other in the source. */
  predicate InOrder(v: Variant, ts: seq<Lexed>) {
    forall k :: 0 <= k < |ts| - 1 ==> Follows(v, ts[k], ts[k + 1])
  }

  /** Errors are reported on lines between `line` and the last one, in non-decreasing order. */
  predicate ErrorsInOrder(src: string, current: nat, line: nat, es: seq<Diagnostic>)
    requires current <= |src|
  {
    && (forall e <- es :: line <= e.line <= line + Newlines(src[current..]) && IsDiagnosticMessage(e.message))
    && (forall k :: 0 <= k < |es| - 1 ==> es[k].line <= es[k + 1].line)
  }

  /**
   What scanning from `current` with the line counter at `line` produces:
   tokens cut from the source in order, each with the shape its kind
   demands and the line the counter had when it was cut, ending in the
   single end-of-input token; errors on non-decreasing lines.
   */
  predicate ScanFacts(v: Variant, src: string, current: nat, line: nat, r: Scanned) {
    && current <= |src|
    && EndsWithEof(src, current, line, r.lexed)
    && FromSource(src, current, line, r.lexed)
    && (v.Corrected? ==> NoFallthrough(r.lexed))
    && InOrder(v, r.lexed)
    && ErrorsInOrder(src, current, line, r.errors)
  }

  /** One step followed by a scan from where it stopped is a scan from where it began. */
  lemma ComposeStep(v: Variant, src: string, c: Cursor, step: Step, rest: Scanned)
    requires StepFacts(v, src, c, step)
    requires ScanFacts(v, src, step.cursor.current, step.cursor.line, rest)
    ensures ScanFacts(v, src, c.current, c.line, Scanned(step.tokens + rest.lexed, step.errors + rest.errors))
  {
    NewlinesSplit(src, c.current, step.cursor.current, |src|);
    assert src[c.current..] == src[c.current..|src|];
    assert src[step.cursor.current..] == src[step.cursor.current..|src|];
    ComposeEof(src, c, step, rest.lexed);
    ComposeFromSource(src, c, step, rest.lexed);
    ComposeInOrder(v, src, c, step, rest.lexed);
    ComposeErrors(src, c, step, rest.errors);
  }

  lemma ComposeEof(src: string, c: Cursor, step: Step, rest: seq<Lexed>)
    requires c.current == c.start < step.cursor.current <= |src|
    requires forall t <- step.tokens :: t.start == c.start < t.end && t.token.kind != Eof
    requires EndsWithEof(src, step.cursor.current, step.cursor.line, rest)
    requires c.line + Newlines(src[c.current..]) == step.cursor.line + Newlines(src[step.cursor.current..])
    ensures EndsWithEof(src, c.current, c.line, step.tokens + rest)
  {
    var all := step.tokens + rest;
    forall k | 0 <= k < |all| - 1
      ensures all[k].token.kind != Eof && c.current <= all[k].start < all[k].end
    {
      if k < |step.tokens| {
        assert all[k] in step.tokens;
      } else {
        assert all[k] == rest[k - |step.tokens|];
      }
    }
  }

  lemma ComposeFromSource(src: string, c: Cursor, step: Step, rest: seq<Lexed>)
    requires c.current == c.start < step.cursor.current <= |src|
    requires step.cursor.line == c.line + Newlines(src[c.current..step.cursor.current])
    requires forall t <- step.tokens :: EmittedBy(src, c, step.cursor.current, t)
    requires FromSource(src, step.cursor.current, step.cursor.line, rest)
    ensures FromSource(src, c.current, c.line, step.tokens + rest)
  {
    forall t | t in rest
      ensures t.token.line == c.line + Newlines(src[c.current..t.end])
    {
      NewlinesSplit(src, c.current, step.cursor.current, t.end);
    }
  }

  lemma ComposeInOrder(v: Variant, src: string, c: Cursor, step: Step, rest: seq<Lexed>)
    requires forall t <- step.tokens :: t.end <= step.cursor.current
    requires forall t <- rest :: step.cursor.current <= t.start
    requires |step.tokens| <= 1 || (|step.tokens| == 2 && Follows(v, step.tokens[0], step.tokens[1]))
    requires InOrder(v, rest)
    ensures InOrder(v, step.tokens + rest)
  {
    var all := step.tokens + rest;
    forall k | 0 <= k < |all| - 1
      ensures Follows(v, all[k], all[k + 1])
    {
      if k < |step.tokens| - 1 {
        assert all[k] == step.tokens[0] && all[k + 1] == step.tokens[1];
      } else if k == |step.tokens| - 1 {
        assert all[k] in step.tokens && all[k + 1] in rest;
      } else {
        assert all[k] == rest[k - |step.tokens|] && all[k + 1] == rest[k + 1 - |step.tokens|];
      }
    }
  }

  lemma ComposeErrors(src: string, c: Cursor, step: Step, rest: seq<Diagnostic>)
    requires c.current < step.cursor.current <= |src|
    requires step.cursor.line == c.line + Newlines(src[c.current..step.cursor.current])
    requires c.line + Newlines(src[c.current..]) == step.cursor.line + Newlines(src[step.cursor.current..])
    requires forall e <- step.errors :: e.line == step.cursor.line && IsDiagnosticMessage(e.message)
    requires |step.errors| <= 1
    requires ErrorsInOrder(src, step.cursor.current, step.cursor.line, rest)
    ensures ErrorsInOrder(src, c.current, c.line, step.errors + rest)
  {
    var errors := step.errors + rest;
    forall k | 0 <= k < |errors| - 1
      ensures errors[k].line <= errors[k + 1].line
    {
      if k < |step.errors| {
        assert errors[k] in step.errors && errors[k + 1] in rest;
      } else {
        assert errors[k] == rest[k - |step.errors|] && errors[k + 1] == rest[k + 1 - |step.errors|];
      }
    }
  }

  /** The main loop of `scanTokens`, run from `current` until the source is used up, then the end-of-input token. */
  function ScanFrom(v: Variant, src: string, current: nat, line: nat): Scanned
    requires current <= |src|
    decreases |src| - current
  {
    if IsAtEnd(src, current) then
      Scanned([EofAt(src, line)], [])
    else
      var step := ScanToken(v, src, Cursor(current, current, line));
      var rest := ScanFrom(v, src, step.cursor.current, step.cursor.line);
      Scanned(step.tokens + rest.lexed, step.errors + rest.errors)
  }

  /** Every scan, from any position and line, has the facts of `ScanFacts`: by induction on the characters left. */
  lemma {:induction false} ScanFromFacts(v: Variant, src: string, current: nat, line: nat)
    requires current <= |src|
    ensures ScanFacts(v, src, current, line, ScanFrom(v, src, current, line))
    decreases |src| - current
  {
    if !IsAtEnd(src, current) {
      var c := Cursor(current, current, line);
      var step := ScanToken(v, src, c);
      ScanTokenFacts(v, src, c);
      ScanFromFacts(v, src, step.cursor.current, step.cursor.line);
      ComposeStep(v, src, c, step, ScanFrom(v, src, step.cursor.current, step.cursor.line));
    }
  }

  /** `scanTokens`: the whole pass, from the first character with the line counter at 1. */
  function Scan(v: Variant, src: string): Scanned {
    ScanFrom(v, src, 0, 1)
  }

  /**
   What a whole pass produces. It ends in the one end-of-input token, whose
   line is one more than the number of line feeds in the source; every
   token before it is the non-empty source text of its span, has the shape
   its kind demands, carries the line of that span's last character, and
   follows the one before it. Errors are on lines of the source, in
   non-decreasing order.
   */
  predicate IsScanOf(v: Variant, src: string, r: Scanned) {
    && |r.lexed| >= 1
    && r.lexed[|r.lexed| - 1] == Lexed(Token(Eof, "", NoLiteral, 1 + Newlines(src)), |src|, |src|)
    && (forall k :: 0 <= k < |r.lexed| - 1 ==> r.lexed[k].token.kind != Eof && r.lexed[k].start < r.lexed[k].end)
    && (forall t <- r.lexed ::
          && t.start <= t.end <= |src|
          && t.token.lexeme == src[t.start..t.end]
          && WellFormed(src, t)
          && t.token.line == 1 + Newlines(src[..t.end]))
    && (forall k :: 0 <= k < |r.lexed| - 1 ==> Follows(v, r.lexed[k], r.lexed[k + 1]))
    && (v.Corrected? ==> NoFallthrough(r.lexed))
    && (forall e <- r.errors :: 1 <= e.line <= 1 + Newlines(src) && IsDiagnosticMessage(e.message))
    && (forall k :: 0 <= k < |r.errors| - 1 ==> r.errors[k].line <= r.errors[k + 1].line)
  }

  /** A whole pass has the facts of `IsScanOf`. */
  lemma ScanSpec(v: Variant, src: string)
    ensures IsScanOf(v, src, Scan(v, src))
  {
    ScanFromFacts(v, src, 0, 1);
    StartFacts(v, src, Scan(v, src));
  }

  /** The facts of a scan from the first character with the counter at 1, in absolute terms. */
  lemma StartFacts(v: Variant, src: string, r: Scanned)
    requires ScanFacts(v, src, 0, 1, r)
    ensures IsScanOf(v, src, r)
  {
    StartEof(src, r.lexed);
    StartTokens(src, r.lexed);
    StartErrors(src, r.errors);
  }

  /** The end-of-input token of a scan from the first character, in absolute terms. */
  lemma StartEof(src: string, ts: seq<Lexed>)
    requires EndsWithEof(src, 0, 1, ts)
    ensures ts[|ts| - 1] == Lexed(Token(Eof, "", NoLiteral, 1 + Newlines(src)), |src|, |src|)
  {
    assert src[0..] == src;
  }

  /** The tokens of a scan from the first character, in absolute terms. */
  lemma StartTokens(src: string, ts: seq<Lexed>)
    requires FromSource(src, 0, 1, ts)
    ensures forall t <- ts ::
              && t.start <= t.end <= |src|
              && t.token.lexeme == src[t.start..t.end]
              && WellFormed(src, t)
              && t.token.line == 1 + Newlines(src[..t.end])
  {
    forall t | t in ts
      ensures t.start <= t.end <= |src| && t.token.lexeme == src[t.start..t.end]
      ensures t.token.line == 1 + Newlines(src[..t.end])
    {
      WellFormedSpan(src, t);
      assert src[0..t.end] == src[..t.end];
    }
  }

  /** The errors of a scan from the first character, in absolute terms. */
  lemma StartErrors(src: string, es: seq<Diagnostic>)
    requires ErrorsInOrder(src, 0, 1, es)
    ensures forall e <- es :: 1 <= e.line <= 1 + Newlines(src) && IsDiagnosticMessage(e.message)
  {
    assert src[0..] == src;
  }

  /** A well-formed token is the source text of its span. */
  lemma WellFormedSpan(src: string, t: Lexed)
    requires WellFormed(src, t)
    ensures t.start <= t.end <= |src| && t.token.lexeme == src[t.start..t.end]
  {
  }

  /** The scanner as written, with the `>` arm falling through into the `/` arm. */
  function ScanTokens(src: string): Scanned {
    Scan(AsWritten, src)
  }

  /** The scanner with a `break` after the `>` arm. */
  function ScanTokensCorrected(src: string): Scanned {
    Scan(Corrected, src)
  }

  /**
   With the `break`, every `SLASH` is spelled `/` and every token's span
   ends before the next one starts.
   */
  lemma CorrectedSpec(src: string)
    ensures NoFallthrough(ScanTokensCorrected(src).lexed)
    ensures var ts := ScanTokensCorrected(src).lexed;
            forall k :: 0 <= k < |ts| - 1 ==> ts[k].end <= ts[k + 1].start
  {
    ScanSpec(Corrected, src);
  }

  /**
   `scanTokens` as the Java loop: set `start` to `current`, scan one token,
   repeat until the end; then append the end-of-input token.
   */
  method ScanTokensLoop(v: Variant, src: string) returns (tokens: seq<Token>, errors: seq<Diagnostic>)
    ensures tokens == Scan(v, src).TokenList()
    ensures errors == Scan(v, src).errors
  {
    var c := Cursor(0, 0, 1);
    var lexed: seq<Lexed> := [];
    errors := [];
    ghost var whole := ScanFrom(v, src, 0, 1);
    while !IsAtEnd(src, c.current)
      invariant c.current <= |src|
      invariant Scanned(lexed, errors).Then(ScanFrom(v, src, c.current, c.line)) == whole
      decreases |src| - c.current
    {
      c := c.(start := c.current);
      var step := ScanToken(v, src, c);
      LoopStep(v, src, c, Scanned(lexed, errors));
      lexed := lexed + step.tokens;
      errors := errors + step.errors;
      c := step.cursor;
    }
    lexed := lexed + [EofAt(src, c.line)];
    tokens := Scanned(lexed, errors).TokenList();
    assert Scan(v, src) == whole;
  }


  /** One pass of the loop body keeps what has been emitted, followed by the rest of the scan, equal to the whole scan. */
  lemma LoopStep(v: Variant, src: string, c: Cursor, done: Scanned)
    requires c.start == c.current < |src|
    ensures var step := ScanToken(v, src, c);
            done.Then(ScanFrom(v, src, c.current, c.line))
            == Scanned(done.lexed + step.tokens, done.errors + step.errors).Then(ScanFrom(v, src, step.cursor.current, step.cursor.line))
  {
    var step := ScanToken(v, src, c);
    assert c == Cursor(c.current, c.current, c.line);
    ThenStep(done, step, ScanFrom(v, src, step.cursor.current, step.cursor.line));
  }

  /** Appending a step's output and then the rest is appending both at once. */
  lemma ThenStep(done: Scanned, step: Step, rest: Scanned)
    ensures done.Then(Scanned(step.tokens + rest.lexed, step.errors + rest.errors))
            == Scanned(done.lexed + step.tokens, done.errors + step.errors).Then(rest)
  {
    assert done.lexed + (step.tokens + rest.lexed) == (done.lexed + step.tokens) + rest.lexed;
    assert done.errors + (step.errors + rest.errors) == (done.errors + step.errors) + rest.errors;
  }
}
