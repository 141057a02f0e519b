/**
 Character classes and line counting used by the Lox scanner.

 The classifiers follow `isDigit`, `isAlpha` and `isAlphaNumeric` of
 `lox/Scanner.java`: plain range tests on the character code, ASCII only.
 `Newlines` is the reference count the scanner's line counter is checked
 against.
 */
module Text {

  /** `isDigit`: the ten ASCII decimal digits. */
  predicate IsDigit(c: char) {
    '0' <= c <= '9'
  }

  /** `isAlpha`: ASCII letters of either case and the underscore. */
  predicate IsAlpha(c: char) {
    'a' <= c <= 'z' || 'A' <= c <= 'Z' || c == '_'
  }

  /** `isAlphaNumeric`: the characters that may continue an identifier. */
  predicate IsAlphaNumeric(c: char) {
    IsAlpha(c) || IsDigit(c)
  }

  /** Every character of `s` is a decimal digit. */
  predicate AllDigits(s: string) {
    forall i :: 0 <= i < |s| ==> IsDigit(s[i])
  }

  /** The number of line feeds in `s`. */
  function Newlines(s: string): nat {
    if s == [] then 0
    else (if s[0] == '\n' then 1 else 0) + Newlines(s[1..])
  }

  /** Line feeds in a concatenation are the sum of those in its parts. */
  lemma {:induction false} NewlinesAppend(a: string, b: string)
    ensures Newlines(a + b) == Newlines(a) + Newlines(b)
  {
    if a == [] {
      assert a + b == b;
    } else {
      assert (a + b)[1..] == a[1..] + b;
      NewlinesAppend(a[1..], b);
    }
  }

  /** Counting line feeds over `s[i..k]` can be split at any `j` in between. */
  lemma NewlinesSplit(s: string, i: nat, j: nat, k: nat)
    requires i <= j <= k <= |s|
    ensures Newlines(s[i..k]) == Newlines(s[i..j]) + Newlines(s[j..k])
  {
    assert s[i..k] == s[i..j] + s[j..k];
    NewlinesAppend(s[i..j], s[j..k]);
  }

  /** A text with no line feed in it counts none. */
  lemma {:induction false} NoNewlines(s: string)
    requires forall i :: 0 <= i < |s| ==> s[i] != '\n'
    ensures Newlines(s) == 0
  {
    if s != [] {
      assert forall i :: 0 <= i < |s[1..]| ==> s[1..][i] == s[i + 1];
      NoNewlines(s[1..]);
    }
  }

  /** `Newlines` agrees with the multiplicity of '\n' in the multiset of characters. */
  lemma {:induction false} NewlinesIsCount(s: string)
    ensures Newlines(s) == multiset(s)['\n']
  {
    if s != [] {
      assert s == [s[0]] + s[1..];
      NewlinesIsCount(s[1..]);
      assert multiset(s) == multiset{s[0]} + multiset(s[1..]);
    }
  }

  /** A longer prefix never holds fewer line feeds. */
  lemma NewlinesMonotonic(s: string, i: nat, j: nat)
    requires i <= j <= |s|
    ensures Newlines(s[..i]) <= Newlines(s[..j])
  {
    NewlinesSplit(s, 0, i, j);
    assert s[..i] == s[0..i] && s[..j] == s[0..j];
  }

  /** A one-character slice counts one line feed exactly when that character is one. */
  lemma NewlinesOne(s: string, i: nat)
    requires i < |s|
    ensures Newlines(s[i..i + 1]) == if s[i] == '\n' then 1 else 0
  {
    assert s[i..i + 1][1..] == [];
  }

  /** A stretch of `s` with no line feed in it counts none. */
  lemma NoNewlinesBetween(s: string, i: nat, j: nat)
    requires i <= j <= |s|
    requires forall k :: i <= k < j ==> s[k] != '\n'
    ensures Newlines(s[i..j]) == 0
  {
    NoNewlines(s[i..j]);
  }
}
