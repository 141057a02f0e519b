/**
 What the scanner does at one position, arm by arm of the `scanToken`
 switch, stated in closed form: given the shape of the source from
 position `i` on, the scan from `i` is the token (or error) that arm
 produces followed by the scan from where the arm stopped.
 */
module Branches {
  import opened Text
  import opened Tokens
  import opened Cursors
  import opened Scanner

  /** `t` followed by the scan `r`. */
  function Emit(t: Lexed, r: Scanned): Scanned {
    Scanned([t] + r.lexed, r.errors)
  }

  /** The report `d` followed by the scan `r`. */
  function Report(d: Diagnostic, r: Scanned): Scanned {
    Scanned(r.lexed, [d] + r.errors)
  }

  /** The token of kind `k` cut from `[i, j)` on line `line`. */
  function Cut(src: string, k: Kind, i: nat, j: nat, literal: Literal, line: nat): Lexed
    requires i <= j <= |src|
  {
    Lexed(Token(k, src[i..j], literal, line), i, j)
  }

  /** The characters the switch has a case for. */
  predicate IsDispatched(ch: char) {
    ch in "(){},.-+;*!=<>/ \r\t\n\"" || IsDigit(ch) || IsAlpha(ch)
  }

  /** The source has character `ch` at position `i`. */
  predicate At(src: string, i: nat, ch: char) {
    i < |src| && src[i] == ch
  }

  /** The cursor `scanToken` starts from at position `i`. */
  function StartAt(i: nat, line: nat): Cursor {
    Cursor(i, i, line)
  }

  /** Scanning from a position before the end is one call of `scanToken`, then the scan from where it stopped. */
  lemma Continue(v: Variant, src: string, i: nat, line: nat, step: Step)
    requires i < |src|
    requires step == ScanToken(v, src, StartAt(i, line))
    ensures step.cursor.current <= |src|
    ensures ScanFrom(v, src, i, line)
            == Scanned(step.tokens, step.errors).Then(ScanFrom(v, src, step.cursor.current, step.cursor.line))
  {
  }

  /** A step that emits the one token `t`: the scan is `t`, then the scan from where the step stopped. */
  lemma ContinueEmit(v: Variant, src: string, i: nat, line: nat, stop: Cursor, t: Lexed)
    requires i < |src|
    requires ScanToken(v, src, StartAt(i, line)) == Step(stop, [t], [])
    ensures ScanFrom(v, src, i, line) == Emit(t, ScanFrom(v, src, stop.current, stop.line))
  {
    Continue(v, src, i, line, Step(stop, [t], []));
    EmitThen(t, ScanFrom(v, src, stop.current, stop.line));
  }

  /** A step that emits nothing: the scan is the scan from where the step stopped. */
  lemma ContinueNothing(v: Variant, src: string, i: nat, line: nat, stop: Cursor)
    requires i < |src|
    requires ScanToken(v, src, StartAt(i, line)) == Step(stop, [], [])
    ensures ScanFrom(v, src, i, line) == ScanFrom(v, src, stop.current, stop.line)
  {
    Continue(v, src, i, line, Step(stop, [], []));
    NothingThen(ScanFrom(v, src, stop.current, stop.line));
  }

  /** A step that reports `d`: the report, then the scan from where the step stopped. */
  lemma ContinueReport(v: Variant, src: string, i: nat, line: nat, stop: Cursor, d: Diagnostic)
    requires i < |src|
    requires ScanToken(v, src, StartAt(i, line)) == Step(stop, [], [d])
    ensures ScanFrom(v, src, i, line) == Report(d, ScanFrom(v, src, stop.current, stop.line))
  {
    Continue(v, src, i, line, Step(stop, [], [d]));
    ReportThen(d, ScanFrom(v, src, stop.current, stop.line));
  }

  lemma EmitThen(t: Lexed, r: Scanned)
    ensures Scanned([t], []).Then(r) == Emit(t, r)
  {
    assert [] + r.errors == r.errors;
  }

  lemma ReportThen(d: Diagnostic, r: Scanned)
    ensures Scanned([], [d]).Then(r) == Report(d, r)
  {
    assert [] + r.lexed == r.lexed;
  }

  lemma NothingThen(r: Scanned)
    ensures Scanned([], []).Then(r) == r
  {
    assert [] + r.lexed == r.lexed && [] + r.errors == r.errors;
  }

  /** At the end of the source the scan is the end-of-input token alone. */
  lemma EndOfInput(v: Variant, src: string, line: nat)
    ensures ScanFrom(v, src, |src|, line) == Scanned([Lexed(Token(Eof, "", NoLiteral, line), |src|, |src|)], [])
  {
  }

  // ---------------------------------------------------------------------
  // Which arm of the switch a character selects

  lemma DispatchBlank(v: Variant, src: string, c: Cursor)
    requires c.start == c.current < |src| && src[c.current] in " \r\t\n"
    ensures ScanToken(v, src, c) == NoToken(src, c.(current := c.current + 1), [])
  {
  }

  lemma DispatchSingle(v: Variant, src: string, c: Cursor)
    requires c.start == c.current < |src| && src[c.current] in "(){},.-+;*"
    ensures ScanToken(v, src, c) == Single(src, c.(current := c.current + 1), PunctuationKind(src[c.current]))
  {
  }

  lemma DispatchOperator(v: Variant, src: string, c: Cursor)
    requires c.start == c.current < |src| && (src[c.current] in "!=<" || (v.Corrected? && src[c.current] == '>'))
    ensures var (one, two) := OperatorKinds(src[c.current]);
            ScanToken(v, src, c) == Operator(src, c.(current := c.current + 1), one, two)
  {
  }

  lemma DispatchGreater(src: string, c: Cursor)
    requires c.start == c.current < |src| && src[c.current] == '>'
    ensures ScanToken(AsWritten, src, c) == GreaterStep(AsWritten, src, c.(current := c.current + 1))
  {
  }

  lemma DispatchSlash(v: Variant, src: string, c: Cursor)
    requires c.start == c.current < |src| && src[c.current] == '/'
    ensures ScanToken(v, src, c) == SlashArm(src, c.(current := c.current + 1))
  {
  }

  lemma DispatchString(v: Variant, src: string, c: Cursor)
    requires c.start == c.current < |src| && src[c.current] == '"'
    ensures ScanToken(v, src, c) == StringStep(src, c.(current := c.current + 1))
  {
  }

  /** Digits, letters and everything else fall to the `default` case. */
  lemma DispatchDefault(v: Variant, src: string, c: Cursor)
    requires c.start == c.current < |src| && src[c.current] !in "(){},.-+;*!=<>/ \r\t\n\""
    ensures var ch := src[c.current];
            var c1 := c.(current := c.current + 1);
            ScanToken(v, src, c)
            == if IsDigit(ch) then NumberStep(src, c1)
               else if IsAlpha(ch) then IdentifierStep(src, c1)
               else NoToken(src, c1, [Diagnostic(c.line, UnexpectedCharacter)])
  {
  }

  lemma DispatchNumber(v: Variant, src: string, c: Cursor)
    requires c.start == c.current < |src| && IsDigit(src[c.current])
    ensures ScanToken(v, src, c) == NumberStep(src, c.(current := c.current + 1))
  {
    NoCaseOfItsOwn(src[c.current]);
    DispatchDefault(v, src, c);
  }

  lemma DispatchWord(v: Variant, src: string, c: Cursor)
    requires c.start == c.current < |src| && IsAlpha(src[c.current])
    ensures ScanToken(v, src, c) == IdentifierStep(src, c.(current := c.current + 1))
  {
    NoCaseOfItsOwn(src[c.current]);
    DispatchDefault(v, src, c);
  }

  lemma DispatchUnexpected(v: Variant, src: string, c: Cursor)
    requires c.start == c.current < |src| && !IsDispatched(src[c.current])
    ensures ScanToken(v, src, c) == NoToken(src, c.(current := c.current + 1), [Diagnostic(c.line, UnexpectedCharacter)])
  {
    DispatchDefault(v, src, c);
  }

  /** No other kind is spelled with a punctuation character alone. */
  lemma PunctuationKindUnique(ch: char, k: Kind)
    requires ch in "(){},.-+;*"
    requires FixedSpelling(k) == [ch]
    ensures k == PunctuationKind(ch)
  {
  }

  /** No other kinds are spelled with an operator character, alone or followed by `=`. */
  lemma OperatorKindsUnique(ch: char, one: Kind, two: Kind)
    requires ch in "!=<>"
    requires FixedSpelling(one) == [ch] && FixedSpelling(two) == [ch, '=']
    ensures (one, two) == OperatorKinds(ch)
  {
  }

  /** Digits, letters and underscores match no case label of the switch, so they reach its default branch. */
  lemma NoCaseOfItsOwn(ch: char)
    requires IsDigit(ch) || IsAlpha(ch)
    ensures ch !in "(){},.-+;*!=<>/ \r\t\n\""
  {
  }

  // ---------------------------------------------------------------------
  // One arm at a time: what `scanToken` returns, and the scan it starts

  /** Space, carriage return and tab are skipped without a token. */
  lemma BlankAt(v: Variant, src: string, i: nat, line: nat)
    requires i < |src| && (src[i] == ' ' || src[i] == '\r' || src[i] == '\t')
    ensures ScanToken(v, src, StartAt(i, line)) == Step(Cursor(i, i + 1, line), [], [])
    ensures ScanFrom(v, src, i, line) == ScanFrom(v, src, i + 1, line)
  {
    DispatchBlank(v, src, StartAt(i, line));
    ContinueNothing(v, src, i, line, Cursor(i, i + 1, line));
  }

  /** A line feed emits nothing and adds one to the line counter. */
  lemma NewlineAt(v: Variant, src: string, i: nat, line: nat)
    requires At(src, i, '\n')
    ensures ScanToken(v, src, StartAt(i, line)) == Step(Cursor(i, i + 1, line + 1), [], [])
    ensures ScanFrom(v, src, i, line) == ScanFrom(v, src, i + 1, line + 1)
  {
    DispatchBlank(v, src, StartAt(i, line));
    ContinueNothing(v, src, i, line, Cursor(i, i + 1, line + 1));
  }

  /** Single-character punctuation emits the one token whose spelling is that character. */
  lemma PunctuationAt(v: Variant, src: string, i: nat, line: nat)
    requires i < |src| && src[i] in "(){},.-+;*"
    ensures var t := Cut(src, PunctuationKind(src[i]), i, i + 1, NoLiteral, line);
            && ScanToken(v, src, StartAt(i, line)) == Step(Cursor(i, i + 1, line), [t], [])
            && ScanFrom(v, src, i, line) == Emit(t, ScanFrom(v, src, i + 1, line))
  {
    DispatchSingle(v, src, StartAt(i, line));
    var t := Cut(src, PunctuationKind(src[i]), i, i + 1, NoLiteral, line);
    ContinueEmit(v, src, i, line, Cursor(i, i + 1, line), t);
  }

  /** The end of an operator that starts at `i`: past the `=` when one follows. */
  function OperatorEnd(src: string, i: nat): (m: nat)
    ensures m == i + 1 || m == i + 2
    ensures m == i + 2 <==> At(src, i + 1, '=')
  {
    if At(src, i + 1, '=') then i + 2 else i + 1
  }

  /**
   `!`, `=`, `<` (and `>` in the corrected scanner): one token, of the
   two-character kind exactly when a `=` follows, which is then consumed;
   otherwise nothing after the operator is read.
   */
  lemma OperatorAt(v: Variant, src: string, i: nat, line: nat)
    requires i < |src| && (src[i] in "!=<" || (v.Corrected? && src[i] == '>'))
    ensures var (one, two) := OperatorKinds(src[i]);
            var m := OperatorEnd(src, i);
            var t := Cut(src, if m == i + 2 then two else one, i, m, NoLiteral, line);
            && ScanToken(v, src, StartAt(i, line)) == Step(Cursor(i, m, line), [t], [])
            && ScanFrom(v, src, i, line) == Emit(t, ScanFrom(v, src, m, line))
  {
    DispatchOperator(v, src, StartAt(i, line));
    var (one, two) := OperatorKinds(src[i]);
    var m := OperatorEnd(src, i);
    var t := Cut(src, if m == i + 2 then two else one, i, m, NoLiteral, line);
    ContinueEmit(v, src, i, line, Cursor(i, m, line), t);
  }

  /**
   `>` as written: the `>` or `>=` token, then the `/` arm on the same
   lexeme: a `/` right after it starts a comment; anything else yields a
   `SLASH` token cut from the very same span.
   */
  lemma GreaterAt(src: string, i: nat, line: nat)
    requires At(src, i, '>')
    ensures var m := OperatorEnd(src, i);
            var op := Cut(src, if m == i + 2 then GreaterEqual else Greater, i, m, NoLiteral, line);
            && (At(src, m, '/') ==>
                  var stop := SkipComment(src, m + 1);
                  && ScanToken(AsWritten, src, StartAt(i, line)) == Step(Cursor(i, stop, line), [op], [])
                  && ScanFrom(AsWritten, src, i, line) == Emit(op, ScanFrom(AsWritten, src, stop, line)))
            && (!At(src, m, '/') ==>
                  var slash := Cut(src, Slash, i, m, NoLiteral, line);
                  && ScanToken(AsWritten, src, StartAt(i, line)) == Step(Cursor(i, m, line), [op, slash], [])
                  && ScanFrom(AsWritten, src, i, line) == Emit(op, Emit(slash, ScanFrom(AsWritten, src, m, line))))
  {
    DispatchGreater(src, StartAt(i, line));
    var m := OperatorEnd(src, i);
    var op := Cut(src, if m == i + 2 then GreaterEqual else Greater, i, m, NoLiteral, line);
    if At(src, m, '/') {
      var stop := SkipComment(src, m + 1);
      ContinueEmit(AsWritten, src, i, line, Cursor(i, stop, line), op);
    } else {
      var slash := Cut(src, Slash, i, m, NoLiteral, line);
      Continue(AsWritten, src, i, line, Step(Cursor(i, m, line), [op, slash], []));
      EmitTwoThen(op, slash, ScanFrom(AsWritten, src, m, line));
    }
  }

  lemma EmitTwoThen(a: Lexed, b: Lexed, r: Scanned)
    ensures Scanned([a, b], []).Then(r) == Emit(a, Emit(b, r))
  {
    assert [] + r.errors == r.errors;
    assert [a, b] + r.lexed == [a] + ([b] + r.lexed);
  }

  /**
   `//` discards the rest of the line, up to but not including the line
   feed, emits nothing and leaves the scan of what follows unchanged.
   */
  lemma CommentAt(v: Variant, src: string, i: nat, line: nat, stop: nat)
    requires At(src, i, '/') && At(src, i + 1, '/')
    requires i + 2 <= stop <= |src|
    requires forall k :: i + 2 <= k < stop ==> src[k] != '\n'
    requires stop == |src| || src[stop] == '\n'
    ensures ScanToken(v, src, StartAt(i, line)) == Step(Cursor(i, stop, line), [], [])
    ensures ScanFrom(v, src, i, line) == ScanFrom(v, src, stop, line)
  {
    DispatchSlash(v, src, StartAt(i, line));
    SkipCommentIs(src, i + 2, stop);
    ContinueNothing(v, src, i, line, Cursor(i, stop, line));
  }

  /** A `/` not followed by `/` is the division operator. */
  lemma SlashAt(v: Variant, src: string, i: nat, line: nat)
    requires At(src, i, '/') && !At(src, i + 1, '/')
    ensures var t := Cut(src, Slash, i, i + 1, NoLiteral, line);
            && ScanToken(v, src, StartAt(i, line)) == Step(Cursor(i, i + 1, line), [t], [])
            && ScanFrom(v, src, i, line) == Emit(t, ScanFrom(v, src, i + 1, line))
  {
    DispatchSlash(v, src, StartAt(i, line));
    var t := Cut(src, Slash, i, i + 1, NoLiteral, line);
    ContinueEmit(v, src, i, line, Cursor(i, i + 1, line), t);
  }

  /** `string()` on a string closed by the quote at `j`. */
  lemma StringStepIs(src: string, i: nat, line: nat, j: nat)
    requires At(src, i, '"')
    requires i < j < |src| && src[j] == '"'
    requires forall k :: i < k < j ==> src[k] != '"'
    ensures var closing := line + Newlines(src[i + 1..j]);
            StringStep(src, Cursor(i, i + 1, line))
            == Step(Cursor(i, j + 1, closing), [Cut(src, String, i, j + 1, StringValue(src[i + 1..j]), closing)], [])
  {
    StringBodyEndIs(src, i + 1, line, j);
  }

  /**
   A string closed by the quote at `j`: one `STRING` token whose literal is
   the text strictly between the quotes, on the line of the closing quote;
   the line feeds inside it are counted.
   */
  lemma StringAt(v: Variant, src: string, i: nat, line: nat, j: nat)
    requires i < j < |src| && src[i] == '"' && src[j] == '"'
    requires forall k :: i < k < j ==> src[k] != '"'
    ensures var closing := line + Newlines(src[i + 1..j]);
            var t := Cut(src, String, i, j + 1, StringValue(src[i + 1..j]), closing);
            ScanFrom(v, src, i, line) == Emit(t, ScanFrom(v, src, j + 1, closing))
  {
    var closing := line + Newlines(src[i + 1..j]);
    var t := Cut(src, String, i, j + 1, StringValue(src[i + 1..j]), closing);
    StringTokenIs(v, src, i, line, j, closing, t);
    EmitAndResume(v, src, i, line, j + 1, closing, t);
  }

  /** A step from `i` that cuts `t` and stops at `next` with the counter at `closing`: `t`, then the scan from there. */
  lemma EmitAndResume(v: Variant, src: string, i: nat, line: nat, next: nat, closing: nat, t: Lexed)
    requires i < |src| && next <= |src|
    requires ScanToken(v, src, StartAt(i, line)) == Step(Cursor(i, next, closing), [t], [])
    ensures ScanFrom(v, src, i, line) == Emit(t, ScanFrom(v, src, next, closing))
  {
    ContinueEmit(v, src, i, line, Cursor(i, next, closing), t);
  }

  /** The step `scanToken` takes at the string `[i, j]`: `t`, with the counter at `closing` after it. */
  lemma StringTokenIs(v: Variant, src: string, i: nat, line: nat, j: nat, closing: nat, t: Lexed)
    requires At(src, i, '"')
    requires i < j < |src| && src[j] == '"'
    requires forall k :: i < k < j ==> src[k] != '"'
    requires closing == line + Newlines(src[i + 1..j])
    requires t == Cut(src, String, i, j + 1, StringValue(src[i + 1..j]), closing)
    ensures ScanToken(v, src, StartAt(i, line)) == Step(Cursor(i, j + 1, closing), [t], [])
  {
    DispatchString(v, src, StartAt(i, line));
    StringStepIs(src, i, line, j);
  }

  /** `string()` on a string that the end of the source cuts off. */
  lemma UnterminatedStepIs(src: string, i: nat, line: nat)
    requires At(src, i, '"')
    requires forall k :: i < k < |src| ==> src[k] != '"'
    ensures var last := line + Newlines(src[i + 1..]);
            StringStep(src, Cursor(i, i + 1, line)) == Step(Cursor(i, |src|, last), [], [Diagnostic(last, UnterminatedString)])
  {
    StringBodyEndIs(src, i + 1, line, |src|);
    assert src[i + 1..] == src[i + 1..|src|];
  }

  /**
   A quote with no closing quote after it: no token, one "Unterminated
   string" report on the last line, and nothing left to scan.
   */
  lemma UnterminatedStringAt(v: Variant, src: string, i: nat, line: nat)
    requires At(src, i, '"')
    requires forall k :: i < k < |src| ==> src[k] != '"'
    ensures var last := line + Newlines(src[i + 1..]);
            var d := Diagnostic(last, UnterminatedString);
            && ScanToken(v, src, StartAt(i, line)) == Step(Cursor(i, |src|, last), [], [d])
            && ScanFrom(v, src, i, line) == Scanned([Lexed(Token(Eof, "", NoLiteral, last), |src|, |src|)], [d])
  {
    var last := line + Newlines(src[i + 1..]);
    var d := Diagnostic(last, UnterminatedString);
    DispatchString(v, src, StartAt(i, line));
    UnterminatedStepIs(src, i, line);
    ContinueReport(v, src, i, line, Cursor(i, |src|, last), d);
  }

  /** `number()` on a whole number `[i, stop)`. */
  lemma NumberStepIs(src: string, i: nat, line: nat, stop: nat)
    requires i < stop <= |src|
    requires forall k :: i <= k < stop ==> IsDigit(src[k])
    requires stop == |src| || !IsDigit(src[stop])
    requires !(At(src, stop, '.') && stop + 1 < |src| && IsDigit(src[stop + 1]))
    ensures NumberStep(src, Cursor(i, i + 1, line))
            == Step(Cursor(i, stop, line), [Cut(src, Number, i, stop, NumberValue(src[i..stop], ""), line)], [])
  {
    SkipWhileIs(src, i + 1, IsDigit, stop);
  }

  /**
   A whole number: the maximal run of digits `[i, stop)`, not followed by a
   `.` and a digit. A `.` without a digit after it is left for the next
   token.
   */
  lemma NumberAt(v: Variant, src: string, i: nat, line: nat, stop: nat)
    requires i < stop <= |src|
    requires forall k :: i <= k < stop ==> IsDigit(src[k])
    requires stop == |src| || !IsDigit(src[stop])
    requires !(At(src, stop, '.') && stop + 1 < |src| && IsDigit(src[stop + 1]))
    ensures var t := Cut(src, Number, i, stop, NumberValue(src[i..stop], ""), line);
            && ScanToken(v, src, StartAt(i, line)) == Step(Cursor(i, stop, line), [t], [])
            && ScanFrom(v, src, i, line) == Emit(t, ScanFrom(v, src, stop, line))
  {
    var t := Cut(src, Number, i, stop, NumberValue(src[i..stop], ""), line);
    DispatchNumber(v, src, StartAt(i, line));
    NumberStepIs(src, i, line, stop);
    ContinueEmit(v, src, i, line, Cursor(i, stop, line), t);
  }

  /** `number()` on digits `[i, dot)`, a `.` and digits `[dot + 1, stop)`. */
  lemma FractionStepIs(src: string, i: nat, line: nat, dot: nat, stop: nat)
    requires i < dot && dot + 1 < stop <= |src|
    requires forall k :: i <= k < dot ==> IsDigit(src[k])
    requires src[dot] == '.'
    requires forall k :: dot + 1 <= k < stop ==> IsDigit(src[k])
    requires stop == |src| || !IsDigit(src[stop])
    ensures NumberStep(src, Cursor(i, i + 1, line))
            == Step(Cursor(i, stop, line), [Cut(src, Number, i, stop, NumberValue(src[i..dot], src[dot + 1..stop]), line)], [])
  {
    SkipWhileIs(src, i + 1, IsDigit, dot);
    SkipWhileIs(src, dot + 1, IsDigit, stop);
  }

  /** A number with a fraction: digits `[i, dot)`, the `.`, and the maximal run of digits `[dot + 1, stop)`. */
  lemma FractionAt(v: Variant, src: string, i: nat, line: nat, dot: nat, stop: nat)
    requires i < dot && dot + 1 < stop <= |src|
    requires forall k :: i <= k < dot ==> IsDigit(src[k])
    requires src[dot] == '.'
    requires forall k :: dot + 1 <= k < stop ==> IsDigit(src[k])
    requires stop == |src| || !IsDigit(src[stop])
    ensures var t := Cut(src, Number, i, stop, NumberValue(src[i..dot], src[dot + 1..stop]), line);
            && ScanToken(v, src, StartAt(i, line)) == Step(Cursor(i, stop, line), [t], [])
            && ScanFrom(v, src, i, line) == Emit(t, ScanFrom(v, src, stop, line))
  {
    var t := Cut(src, Number, i, stop, NumberValue(src[i..dot], src[dot + 1..stop]), line);
    DispatchNumber(v, src, StartAt(i, line));
    FractionStepIs(src, i, line, dot, stop);
    ContinueEmit(v, src, i, line, Cursor(i, stop, line), t);
  }

  /** `identifier()` on the word `[i, stop)`. */
  lemma WordStepIs(src: string, i: nat, line: nat, stop: nat)
    requires i < stop <= |src|
    requires IsAlpha(src[i])
    requires forall k :: i <= k < stop ==> IsAlphaNumeric(src[k])
    requires stop == |src| || !IsAlphaNumeric(src[stop])
    ensures IdentifierStep(src, Cursor(i, i + 1, line))
            == Step(Cursor(i, stop, line), [Cut(src, KeywordKind(src[i..stop]), i, stop, NoLiteral, line)], [])
  {
    SkipWhileIs(src, i + 1, IsAlphaNumeric, stop);
  }

  /**
   An identifier or reserved word: the maximal run `[i, stop)` of letters,
   digits and underscores; a reserved word only when the whole run spells
   it.
   */
  lemma WordAt(v: Variant, src: string, i: nat, line: nat, stop: nat)
    requires i < stop <= |src|
    requires IsAlpha(src[i])
    requires forall k :: i <= k < stop ==> IsAlphaNumeric(src[k])
    requires stop == |src| || !IsAlphaNumeric(src[stop])
    ensures var t := Cut(src, KeywordKind(src[i..stop]), i, stop, NoLiteral, line);
            && ScanToken(v, src, StartAt(i, line)) == Step(Cursor(i, stop, line), [t], [])
            && ScanFrom(v, src, i, line) == Emit(t, ScanFrom(v, src, stop, line))
  {
    var t := Cut(src, KeywordKind(src[i..stop]), i, stop, NoLiteral, line);
    DispatchWord(v, src, StartAt(i, line));
    WordStepIs(src, i, line, stop);
    ContinueEmit(v, src, i, line, Cursor(i, stop, line), t);
  }

  /**
   A character the switch has no case for: one "Unexpected character."
   report on the current line, no token, and scanning goes on with the
   next character.
   */
  lemma UnexpectedAt(v: Variant, src: string, i: nat, line: nat)
    requires i < |src| && !IsDispatched(src[i])
    ensures var d := Diagnostic(line, UnexpectedCharacter);
            && ScanToken(v, src, StartAt(i, line)) == Step(Cursor(i, i + 1, line), [], [d])
            && ScanFrom(v, src, i, line) == Report(d, ScanFrom(v, src, i + 1, line))
  {
    var d := Diagnostic(line, UnexpectedCharacter);
    DispatchUnexpected(v, src, StartAt(i, line));
    ContinueReport(v, src, i, line, Cursor(i, i + 1, line), d);
  }
}
