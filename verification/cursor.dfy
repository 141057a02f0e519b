/**
 The scanner's cursor and its lookahead helpers (`isAtEnd`, `peek`,
 `peekNext`, `match`, `advance` of `lox/Scanner.java`), and the three
 `while` loops of the scanner written as recursive functions over the
 read position.
 */
module Cursors {
  import opened Text

  /**
   The mutable fields of the Java scanner: `start` is the first character
   of the lexeme being scanned, `current` the next unread character and
   `line` the line counter, which starts at 1.
   */
  datatype Cursor = Cursor(start: nat, current: nat, line: nat)

  /** The character `peek` and `peekNext` return past the end of the source. */
  const Sentinel: char := '\0'

  predicate IsAtEnd(src: string, current: nat) {
    current >= |src|
  }

  /** The unread character, or the sentinel at the end. */
  function Peek(src: string, current: nat): char {
    if IsAtEnd(src, current) then Sentinel else src[current]
  }

  /** The character after the unread one, or the sentinel when there is none. */
  function PeekNext(src: string, current: nat): char {
    if current + 1 >= |src| then Sentinel else src[current + 1]
  }

  /** `advance`: the unread character, with the cursor moved past it. */
  function Advance(src: string, c: Cursor): (r: (char, Cursor))
    requires c.current < |src|
  {
    (src[c.current], c.(current := c.current + 1))
  }

  /**
   `match`: consumes the unread character exactly when it is `expected`;
   reports whether it did.
   */
  function Match(src: string, c: Cursor, expected: char): (r: (bool, Cursor))
    ensures r.0 <==> c.current < |src| && src[c.current] == expected
    ensures r.1 == c.(current := if r.0 then c.current + 1 else c.current)
  {
    if IsAtEnd(src, c.current) then (false, c)
    else if src[c.current] != expected then (false, c)
    else (true, c.(current := c.current + 1))
  }

  /**
   The digit and identifier loops: advance while the next character is in
   the class `p`, which the end-of-source sentinel is not in. Gives the end
   of the longest run of `p`-characters starting at `from`.
   */
  function SkipWhile(src: string, from: nat, p: char -> bool): (stop: nat)
    requires from <= |src|
    requires !p(Sentinel)
    ensures from <= stop <= |src|
    ensures forall k :: from <= k < stop ==> p(src[k])
    ensures stop == |src| || !p(src[stop])
    decreases |src| - from
  {
    if p(Peek(src, from)) then SkipWhile(src, from + 1, p) else from
  }

  /**
   The comment loop: advance until the next character is a line feed or the
   source is used up. Gives the position of the next line feed at or after
   `from`, or the end of the source.
   */
  function SkipComment(src: string, from: nat): (stop: nat)
    requires from <= |src|
    ensures from <= stop <= |src|
    ensures forall k :: from <= k < stop ==> src[k] != '\n'
    ensures stop == |src| || src[stop] == '\n'
    decreases |src| - from
  {
    if Peek(src, from) != '\n' && !IsAtEnd(src, from) then SkipComment(src, from + 1) else from
  }

  /**
   The loop of `string()`: reads up to the next double quote or the end of
   the source, adding one to the line counter for every line feed it passes.
   Returns the position it stopped at and the line counter there.
   */
  function StringBodyEnd(src: string, from: nat, line: nat): (r: (nat, nat))
    requires from <= |src|
    ensures from <= r.0 <= |src|
    ensures forall k :: from <= k < r.0 ==> src[k] != '"'
    ensures r.0 == |src| || src[r.0] == '"'
    ensures r.1 == line + Newlines(src[from..r.0])
    decreases |src| - from
  {
    if Peek(src, from) != '"' && !IsAtEnd(src, from) then
      var r := StringBodyEnd(src, from + 1, if Peek(src, from) == '\n' then line + 1 else line);
      assert src[from..r.0][1..] == src[from + 1..r.0];
      r
    else
      (from, line)
  }

  /** `SkipWhile` stops exactly at the first character after `from` that fails `p`. */
  lemma {:induction false} SkipWhileIs(src: string, from: nat, p: char -> bool, stop: nat)
    requires from <= stop <= |src|
    requires !p(Sentinel)
    requires forall k :: from <= k < stop ==> p(src[k])
    requires stop == |src| || !p(src[stop])
    ensures SkipWhile(src, from, p) == stop
    decreases stop - from
  {
    if from < stop {
      SkipWhileIs(src, from + 1, p, stop);
    }
  }

  /** `SkipComment` stops exactly at the first line feed at or after `from`, or at the end. */
  lemma {:induction false} SkipCommentIs(src: string, from: nat, stop: nat)
    requires from <= stop <= |src|
    requires forall k :: from <= k < stop ==> src[k] != '\n'
    requires stop == |src| || src[stop] == '\n'
    ensures SkipComment(src, from) == stop
    decreases stop - from
  {
    if from < stop {
      SkipCommentIs(src, from + 1, stop);
    }
  }

  /** The string loop stops exactly at the first double quote at or after `from`, or at the end. */
  lemma {:induction false} StringBodyEndIs(src: string, from: nat, line: nat, stop: nat)
    requires from <= stop <= |src|
    requires forall k :: from <= k < stop ==> src[k] != '"'
    requires stop == |src| || src[stop] == '"'
    ensures StringBodyEnd(src, from, line).0 == stop
    decreases stop - from
  {
    if from < stop {
      StringBodyEndIs(src, from + 1, if src[from] == '\n' then line + 1 else line, stop);
    }
  }
}
