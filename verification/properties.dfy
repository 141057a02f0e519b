/**
 Properties of a whole pass of the scanner that follow from the facts
 `Scan` guarantees: how the line numbers of the tokens relate to the line
 feeds of the source, and that the two variants differ only on sources
 containing `>`.
 */
module Properties {
  import opened Text
  import opened Tokens
  import opened Cursors
  import opened Scanner

  /** No kind is spelled with a line feed in it. */
  lemma FixedSpellingOneLine(k: Kind)
    ensures forall i :: 0 <= i < |FixedSpelling(k)| ==> FixedSpelling(k)[i] != '\n'
  {
  }

  /** Every token but a string lies on one line: its span holds no line feed. */
  lemma OneLine(src: string, t: Lexed)
    requires WellFormed(src, t)
    requires t.token.kind != String
    ensures forall k :: t.start <= k < t.end ==> src[k] != '\n'
    ensures Newlines(src[t.start..t.end]) == 0
  {
    if !(t.token.kind.Number? || t.token.kind.Identifier? || t.token.kind.Reserved?) {
      FixedSpellingOneLine(t.token.kind);
      assert forall k :: t.start <= k < t.end ==> src[k] == t.token.lexeme[k - t.start];
    }
    NoNewlinesBetween(src, t.start, t.end);
  }

  /**
   The line of every token other than a string is 1 plus the number of
   line feeds before it; a string's is that plus the line feeds inside
   it, so it is the line of its closing quote.
   */
  lemma TokenLines(v: Variant, src: string)
    ensures var r := Scan(v, src);
            forall t <- r.lexed ::
              && t.start <= t.end <= |src|
              && (t.token.kind != String ==> t.token.line == 1 + Newlines(src[..t.start]))
              && (t.token.kind == String ==>
                    && t.token.literal.StringValue?
                    && t.token.line == 1 + Newlines(src[..t.start]) + Newlines(t.token.literal.text))
  {
    ScanSpec(v, src);
    var r := Scan(v, src);
    forall t | t in r.lexed
      ensures t.token.kind != String ==> t.token.line == 1 + Newlines(src[..t.start])
      ensures t.token.kind == String ==>
                && t.token.literal.StringValue?
                && t.token.line == 1 + Newlines(src[..t.start]) + Newlines(t.token.literal.text)
    {
      NewlinesSplit(src, 0, t.start, t.end);
      assert src[..t.start] == src[0..t.start] && src[..t.end] == src[0..t.end];
      if t.token.kind != String {
        OneLine(src, t);
      } else {
        StringLines(src, t);
      }
    }
  }

  /** The line feeds in a string token's span are those of its literal. */
  lemma StringLines(src: string, t: Lexed)
    requires IsStringToken(src, t)
    ensures Newlines(src[t.start..t.end]) == Newlines(t.token.literal.text)
  {
    NewlinesSplit(src, t.start, t.start + 1, t.end);
    NewlinesSplit(src, t.start + 1, t.end - 1, t.end);
    NewlinesOne(src, t.start);
    NewlinesOne(src, t.end - 1);
  }

  /** Line numbers never go down along the token list. */
  lemma LinesNonDecreasing(v: Variant, src: string)
    ensures var r := Scan(v, src);
            forall k :: 0 <= k < |r.lexed| - 1 ==> r.lexed[k].token.line <= r.lexed[k + 1].token.line
  {
    ScanSpec(v, src);
    var r := Scan(v, src);
    forall k | 0 <= k < |r.lexed| - 1
      ensures r.lexed[k].token.line <= r.lexed[k + 1].token.line
    {
      var a, b := r.lexed[k], r.lexed[k + 1];
      assert a in r.lexed && b in r.lexed;
      assert Follows(v, a, b);
      NewlinesMonotonic(src, a.end, b.end);
    }
  }

  /** The end-of-input token is on line 1 plus the number of line feeds in the source. */
  lemma EofLine(v: Variant, src: string)
    ensures var r := Scan(v, src);
            && |r.lexed| >= 1
            && r.lexed[|r.lexed| - 1].token.kind == Eof
            && r.lexed[|r.lexed| - 1].token.line == 1 + multiset(src)['\n']
  {
    ScanSpec(v, src);
    NewlinesIsCount(src);
  }

  /** The end-of-input token is the only one, and nothing but it has an empty lexeme. */
  lemma EofOnlyAtEnd(v: Variant, src: string)
    ensures var r := Scan(v, src);
            forall k :: 0 <= k < |r.lexed| ==>
              (r.lexed[k].token.kind == Eof <==> k == |r.lexed| - 1) &&
              (r.lexed[k].token.lexeme == [] <==> k == |r.lexed| - 1)
  {
    ScanSpec(v, src);
    var r := Scan(v, src);
    forall k | 0 <= k < |r.lexed| - 1
      ensures |r.lexed[k].token.lexeme| > 0
    {
      assert r.lexed[k] in r.lexed;
      assert r.lexed[k].token.lexeme == src[r.lexed[k].start..r.lexed[k].end];
    }
  }

  /** `scanToken` only looks at the variant when the character it reads is `>`. */
  lemma SameStep(src: string, c: Cursor)
    requires c.start == c.current < |src| && src[c.current] != '>'
    ensures ScanToken(AsWritten, src, c) == ScanToken(Corrected, src, c)
  {
  }

  /** On a source without `>` the two variants scan alike. */
  lemma {:induction false} SameScanFrom(src: string, current: nat, line: nat)
    requires current <= |src|
    requires forall k :: current <= k < |src| ==> src[k] != '>'
    ensures ScanFrom(AsWritten, src, current, line) == ScanFrom(Corrected, src, current, line)
    decreases |src| - current
  {
    if current < |src| {
      var c := Cursor(current, current, line);
      SameStep(src, c);
      var step := ScanToken(AsWritten, src, c);
      SameScanFrom(src, step.cursor.current, step.cursor.line);
    }
  }

  /** The fall-through is the only difference: without a `>` in the source both scanners give the same result. */
  lemma SameScan(src: string)
    requires forall k :: 0 <= k < |src| ==> src[k] != '>'
    ensures ScanTokens(src) == ScanTokensCorrected(src)
  {
    SameScanFrom(src, 0, 1);
  }
}
