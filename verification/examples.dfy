/**
 Worked scans of small sources. Each is a chain of lemmas that take one
 step of the scan at a time, from the end of the source back to its first
 character, using the arm-by-arm lemmas of `Branches`. The source is a
 parameter pinned by the precondition, so that the verifier reasons from
 those lemmas rather than by evaluating the scanner.
 */
module Examples {
  import opened Text
  import opened Tokens
  import opened Cursors
  import opened Scanner
  import opened Branches

  /** A scan from the first character with the counter at 1 is the whole pass. */
  lemma ScanIs(v: Variant, src: string, r: Scanned)
    requires ScanFrom(v, src, 0, 1) == r
    ensures Scan(v, src) == r
    ensures v.AsWritten? ==> ScanTokens(src) == r
    ensures v.Corrected? ==> ScanTokensCorrected(src) == r
  {
  }

  lemma OnePlusTwoFrom4(src: string)
    requires src == "1 + 2"
    ensures ScanFrom(AsWritten, src, 4, 1) == Scanned([
              Lexed(Token(Number, "2", NumberValue("2", ""), 1), 4, 5),
              Lexed(Token(Eof, "", NoLiteral, 1), 5, 5)], [])
  {
    EndOfInput(AsWritten, src, 1);
    assert src[4..5] == "2";
    NumberAt(AsWritten, src, 4, 1, 5);
  }

  lemma OnePlusTwoFrom2(src: string)
    requires src == "1 + 2"
    ensures ScanFrom(AsWritten, src, 2, 1) == Scanned([
              Lexed(Token(Plus, "+", NoLiteral, 1), 2, 3),
              Lexed(Token(Number, "2", NumberValue("2", ""), 1), 4, 5),
              Lexed(Token(Eof, "", NoLiteral, 1), 5, 5)], [])
  {
    OnePlusTwoFrom4(src);
    BlankAt(AsWritten, src, 3, 1);
    assert src[2..3] == "+";
    PunctuationAt(AsWritten, src, 2, 1);
  }

  lemma OnePlusTwoFrom0(src: string)
    requires src == "1 + 2"
    ensures ScanFrom(AsWritten, src, 0, 1) == Scanned([
              Lexed(Token(Number, "1", NumberValue("1", ""), 1), 0, 1),
              Lexed(Token(Plus, "+", NoLiteral, 1), 2, 3),
              Lexed(Token(Number, "2", NumberValue("2", ""), 1), 4, 5),
              Lexed(Token(Eof, "", NoLiteral, 1), 5, 5)], [])
  {
    OnePlusTwoFrom2(src);
    BlankAt(AsWritten, src, 1, 1);
    assert src[0..1] == "1";
    NumberAt(AsWritten, src, 0, 1, 1);
  }

  /** `1 + 2`: two numbers around a plus, all on line 1; blanks produce nothing. */
  lemma OnePlusTwo(src: string)
    requires src == "1 + 2"
    ensures ScanTokens(src) == Scanned([
              Lexed(Token(Number, "1", NumberValue("1", ""), 1), 0, 1),
              Lexed(Token(Plus, "+", NoLiteral, 1), 2, 3),
              Lexed(Token(Number, "2", NumberValue("2", ""), 1), 4, 5),
              Lexed(Token(Eof, "", NoLiteral, 1), 5, 5)], [])
  {
    OnePlusTwoFrom0(src);
    ScanIs(AsWritten, src, ScanFrom(AsWritten, src, 0, 1));
  }

  lemma OrchardFrom0(src: string)
    requires src == "orchard"
    ensures ScanFrom(AsWritten, src, 0, 1) == Scanned([
              Lexed(Token(Identifier, "orchard", NoLiteral, 1), 0, 7),
              Lexed(Token(Eof, "", NoLiteral, 1), 7, 7)], [])
  {
    EndOfInput(AsWritten, src, 1);
    assert src[0..7] == "orchard";
    IdentifierByLength(src[0..7]);
    WordAt(AsWritten, src, 0, 1, 7);
  }

  /** `orchard` starts with the reserved word `or` but is one identifier: the longest run wins. */
  lemma Orchard(src: string)
    requires src == "orchard"
    ensures ScanTokens(src) == Scanned([
              Lexed(Token(Identifier, "orchard", NoLiteral, 1), 0, 7),
              Lexed(Token(Eof, "", NoLiteral, 1), 7, 7)], [])
  {
    OrchardFrom0(src);
    ScanIs(AsWritten, src, ScanFrom(AsWritten, src, 0, 1));
  }

  lemma OrAloneFrom0(src: string)
    requires src == "or"
    ensures ScanFrom(AsWritten, src, 0, 1) == Scanned([
              Lexed(Token(Reserved(Or), "or", NoLiteral, 1), 0, 2),
              Lexed(Token(Eof, "", NoLiteral, 1), 2, 2)], [])
  {
    EndOfInput(AsWritten, src, 1);
    assert src[0..2] == "or" == KeywordSpelling(Or);
    KeywordKindRoundTrip(Or);
    WordAt(AsWritten, src, 0, 1, 2);
  }

  /** `or` alone is the reserved word. */
  lemma OrAlone(src: string)
    requires src == "or"
    ensures ScanTokens(src) == Scanned([
              Lexed(Token(Reserved(Or), "or", NoLiteral, 1), 0, 2),
              Lexed(Token(Eof, "", NoLiteral, 1), 2, 2)], [])
  {
    OrAloneFrom0(src);
    ScanIs(AsWritten, src, ScanFrom(AsWritten, src, 0, 1));
  }

  lemma FractionFrom0(src: string)
    requires src == "1.5"
    ensures ScanFrom(AsWritten, src, 0, 1) == Scanned([
              Lexed(Token(Number, "1.5", NumberValue("1", "5"), 1), 0, 3),
              Lexed(Token(Eof, "", NoLiteral, 1), 3, 3)], [])
  {
    EndOfInput(AsWritten, src, 1);
    assert src[0..3] == "1.5" && src[0..1] == "1" && src[2..3] == "5";
    FractionAt(AsWritten, src, 0, 1, 1, 3);
  }

  /** `1.5` is one number; its literal keeps the whole and the fractional digits. */
  lemma Fraction(src: string)
    requires src == "1.5"
    ensures ScanTokens(src) == Scanned([
              Lexed(Token(Number, "1.5", NumberValue("1", "5"), 1), 0, 3),
              Lexed(Token(Eof, "", NoLiteral, 1), 3, 3)], [])
  {
    FractionFrom0(src);
    ScanIs(AsWritten, src, ScanFrom(AsWritten, src, 0, 1));
  }

  lemma UnterminatedFrom0(src: string)
    requires src == "\"ab\nc"
    ensures ScanFrom(AsWritten, src, 0, 1) == Scanned([
              Lexed(Token(Eof, "", NoLiteral, 2), 5, 5)], [Diagnostic(2, UnterminatedString)])
  {
    assert src[1..] == src[1..5] == "ab\nc";
    assert Newlines(src[1..]) == 1 by {
      NewlinesSplit(src, 1, 3, 5);
      NewlinesSplit(src, 3, 4, 5);
      NoNewlinesBetween(src, 1, 3);
      NewlinesOne(src, 3);
      NewlinesOne(src, 4);
    }
    UnterminatedStringAt(AsWritten, src, 0, 1);
  }

  /** A string the source cuts off yields no token and one report, on the last line. */
  lemma Unterminated(src: string)
    requires src == "\"ab\nc"
    ensures ScanTokens(src) == Scanned([
              Lexed(Token(Eof, "", NoLiteral, 2), 5, 5)], [Diagnostic(2, UnterminatedString)])
  {
    UnterminatedFrom0(src);
    ScanIs(AsWritten, src, ScanFrom(AsWritten, src, 0, 1));
  }

  lemma UnexpectedThenNumberFrom1(src: string)
    requires src == "@7"
    ensures ScanFrom(AsWritten, src, 1, 1) == Scanned([
              Lexed(Token(Number, "7", NumberValue("7", ""), 1), 1, 2),
              Lexed(Token(Eof, "", NoLiteral, 1), 2, 2)], [])
  {
    EndOfInput(AsWritten, src, 1);
    assert src[1..2] == "7";
    NumberAt(AsWritten, src, 1, 1, 2);
  }

  lemma UnexpectedThenNumberFrom0(src: string)
    requires src == "@7"
    ensures ScanFrom(AsWritten, src, 0, 1) == Scanned([
              Lexed(Token(Number, "7", NumberValue("7", ""), 1), 1, 2),
              Lexed(Token(Eof, "", NoLiteral, 1), 2, 2)], [Diagnostic(1, UnexpectedCharacter)])
  {
    UnexpectedThenNumberFrom1(src);
    UnexpectedAt(AsWritten, src, 0, 1);
  }

  /** `@` has no case: one report, and scanning goes on after it. */
  lemma UnexpectedThenNumber(src: string)
    requires src == "@7"
    ensures ScanTokens(src) == Scanned([
              Lexed(Token(Number, "7", NumberValue("7", ""), 1), 1, 2),
              Lexed(Token(Eof, "", NoLiteral, 1), 2, 2)], [Diagnostic(1, UnexpectedCharacter)])
  {
    UnexpectedThenNumberFrom0(src);
    ScanIs(AsWritten, src, ScanFrom(AsWritten, src, 0, 1));
  }

  // ---------------------------------------------------------------------
  // The `>` fall-through

  lemma GreaterAsWrittenFrom1(src: string)
    requires src == ">x"
    ensures ScanFrom(AsWritten, src, 1, 1) == Scanned([
              Lexed(Token(Identifier, "x", NoLiteral, 1), 1, 2),
              Lexed(Token(Eof, "", NoLiteral, 1), 2, 2)], [])
  {
    EndOfInput(AsWritten, src, 1);
    assert src[1..2] == "x";
    IdentifierByLength(src[1..2]);
    WordAt(AsWritten, src, 1, 1, 2);
  }

  lemma GreaterAsWrittenFrom0(src: string)
    requires src == ">x"
    ensures ScanFrom(AsWritten, src, 0, 1) == Scanned([
              Lexed(Token(Greater, ">", NoLiteral, 1), 0, 1),
              Lexed(Token(Slash, ">", NoLiteral, 1), 0, 1),
              Lexed(Token(Identifier, "x", NoLiteral, 1), 1, 2),
              Lexed(Token(Eof, "", NoLiteral, 1), 2, 2)], [])
  {
    GreaterAsWrittenFrom1(src);
    assert src[0..1] == ">" && OperatorEnd(src, 0) == 1;
    GreaterAt(src, 0, 1);
  }

  /** As written, `>x` gives a `>` token, then a `SLASH` token whose lexeme is `>`, then the identifier. */
  lemma GreaterAsWritten(src: string)
    requires src == ">x"
    ensures ScanTokens(src) == Scanned([
              Lexed(Token(Greater, ">", NoLiteral, 1), 0, 1),
              Lexed(Token(Slash, ">", NoLiteral, 1), 0, 1),
              Lexed(Token(Identifier, "x", NoLiteral, 1), 1, 2),
              Lexed(Token(Eof, "", NoLiteral, 1), 2, 2)], [])
  {
    GreaterAsWrittenFrom0(src);
    ScanIs(AsWritten, src, ScanFrom(AsWritten, src, 0, 1));
  }

  lemma GreaterCorrectedFrom1(src: string)
    requires src == ">x"
    ensures ScanFrom(Corrected, src, 1, 1) == Scanned([
              Lexed(Token(Identifier, "x", NoLiteral, 1), 1, 2),
              Lexed(Token(Eof, "", NoLiteral, 1), 2, 2)], [])
  {
    EndOfInput(Corrected, src, 1);
    assert src[1..2] == "x";
    IdentifierByLength(src[1..2]);
    WordAt(Corrected, src, 1, 1, 2);
  }

  lemma GreaterCorrectedFrom0(src: string)
    requires src == ">x"
    ensures ScanFrom(Corrected, src, 0, 1) == Scanned([
              Lexed(Token(Greater, ">", NoLiteral, 1), 0, 1),
              Lexed(Token(Identifier, "x", NoLiteral, 1), 1, 2),
              Lexed(Token(Eof, "", NoLiteral, 1), 2, 2)], [])
  {
    GreaterCorrectedFrom1(src);
    assert src[0..1] == ">" && OperatorEnd(src, 0) == 1;
    OperatorAt(Corrected, src, 0, 1);
  }

  /** With the `break`, `>x` is the `>` token and the identifier. */
  lemma GreaterCorrected(src: string)
    requires src == ">x"
    ensures ScanTokensCorrected(src) == Scanned([
              Lexed(Token(Greater, ">", NoLiteral, 1), 0, 1),
              Lexed(Token(Identifier, "x", NoLiteral, 1), 1, 2),
              Lexed(Token(Eof, "", NoLiteral, 1), 2, 2)], [])
  {
    GreaterCorrectedFrom0(src);
    ScanIs(Corrected, src, ScanFrom(Corrected, src, 0, 1));
  }

  lemma GreaterEqualAsWrittenFrom2(src: string)
    requires src == ">=1"
    ensures ScanFrom(AsWritten, src, 2, 1) == Scanned([
              Lexed(Token(Number, "1", NumberValue("1", ""), 1), 2, 3),
              Lexed(Token(Eof, "", NoLiteral, 1), 3, 3)], [])
  {
    EndOfInput(AsWritten, src, 1);
    assert src[2..3] == "1";
    NumberAt(AsWritten, src, 2, 1, 3);
  }

  lemma GreaterEqualAsWrittenFrom0(src: string)
    requires src == ">=1"
    ensures ScanFrom(AsWritten, src, 0, 1) == Scanned([
              Lexed(Token(GreaterEqual, ">=", NoLiteral, 1), 0, 2),
              Lexed(Token(Slash, ">=", NoLiteral, 1), 0, 2),
              Lexed(Token(Number, "1", NumberValue("1", ""), 1), 2, 3),
              Lexed(Token(Eof, "", NoLiteral, 1), 3, 3)], [])
  {
    GreaterEqualAsWrittenFrom2(src);
    assert src[0..2] == ">=" && OperatorEnd(src, 0) == 2;
    GreaterAt(src, 0, 1);
  }

  /** As written, `>=1` gives `>=`, then a `SLASH` token whose lexeme is `>=`, then the number. */
  lemma GreaterEqualAsWritten(src: string)
    requires src == ">=1"
    ensures ScanTokens(src) == Scanned([
              Lexed(Token(GreaterEqual, ">=", NoLiteral, 1), 0, 2),
              Lexed(Token(Slash, ">=", NoLiteral, 1), 0, 2),
              Lexed(Token(Number, "1", NumberValue("1", ""), 1), 2, 3),
              Lexed(Token(Eof, "", NoLiteral, 1), 3, 3)], [])
  {
    GreaterEqualAsWrittenFrom0(src);
    ScanIs(AsWritten, src, ScanFrom(AsWritten, src, 0, 1));
  }

  lemma GreaterSlashAsWrittenFrom0(src: string)
    requires src == ">/x"
    ensures ScanFrom(AsWritten, src, 0, 1) == Scanned([
              Lexed(Token(Greater, ">", NoLiteral, 1), 0, 1),
              Lexed(Token(Eof, "", NoLiteral, 1), 3, 3)], [])
  {
    EndOfInput(AsWritten, src, 1);
    SkipCommentIs(src, 2, 3);
    assert src[0..1] == ">" && OperatorEnd(src, 0) == 1;
    GreaterAt(src, 0, 1);
  }

  /** As written, a `/` right after `>` opens a comment: `>/x` is the `>` token alone. */
  lemma GreaterSlashAsWritten(src: string)
    requires src == ">/x"
    ensures ScanTokens(src) == Scanned([
              Lexed(Token(Greater, ">", NoLiteral, 1), 0, 1),
              Lexed(Token(Eof, "", NoLiteral, 1), 3, 3)], [])
  {
    GreaterSlashAsWrittenFrom0(src);
    ScanIs(AsWritten, src, ScanFrom(AsWritten, src, 0, 1));
  }

  lemma GreaterSlashCorrectedFrom2(src: string)
    requires src == ">/x"
    ensures ScanFrom(Corrected, src, 2, 1) == Scanned([
              Lexed(Token(Identifier, "x", NoLiteral, 1), 2, 3),
              Lexed(Token(Eof, "", NoLiteral, 1), 3, 3)], [])
  {
    EndOfInput(Corrected, src, 1);
    assert src[2..3] == "x";
    IdentifierByLength(src[2..3]);
    WordAt(Corrected, src, 2, 1, 3);
  }

  lemma GreaterSlashCorrectedFrom1(src: string)
    requires src == ">/x"
    ensures ScanFrom(Corrected, src, 1, 1) == Scanned([
              Lexed(Token(Slash, "/", NoLiteral, 1), 1, 2),
              Lexed(Token(Identifier, "x", NoLiteral, 1), 2, 3),
              Lexed(Token(Eof, "", NoLiteral, 1), 3, 3)], [])
  {
    GreaterSlashCorrectedFrom2(src);
    assert src[1..2] == "/";
    SlashAt(Corrected, src, 1, 1);
  }

  lemma GreaterSlashCorrectedFrom0(src: string)
    requires src == ">/x"
    ensures ScanFrom(Corrected, src, 0, 1) == Scanned([
              Lexed(Token(Greater, ">", NoLiteral, 1), 0, 1),
              Lexed(Token(Slash, "/", NoLiteral, 1), 1, 2),
              Lexed(Token(Identifier, "x", NoLiteral, 1), 2, 3),
              Lexed(Token(Eof, "", NoLiteral, 1), 3, 3)], [])
  {
    GreaterSlashCorrectedFrom1(src);
    assert src[0..1] == ">" && OperatorEnd(src, 0) == 1;
    OperatorAt(Corrected, src, 0, 1);
  }

  /** With the `break`, `>/x` is `>`, `/` and the identifier. */
  lemma GreaterSlashCorrected(src: string)
    requires src == ">/x"
    ensures ScanTokensCorrected(src) == Scanned([
              Lexed(Token(Greater, ">", NoLiteral, 1), 0, 1),
              Lexed(Token(Slash, "/", NoLiteral, 1), 1, 2),
              Lexed(Token(Identifier, "x", NoLiteral, 1), 2, 3),
              Lexed(Token(Eof, "", NoLiteral, 1), 3, 3)], [])
  {
    GreaterSlashCorrectedFrom0(src);
    ScanIs(Corrected, src, ScanFrom(Corrected, src, 0, 1));
  }
}
