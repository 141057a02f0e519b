/**
 Tokens of the Lox language and the reserved-word table.

 `Kind` is the closed set of token kinds the scanner of `lox/Scanner.java`
 produces, with the sixteen reserved words gathered under `Reserved`;
 `Token` is the value it appends to its token list. The floating-point
 literal of a number is represented by the digit strings that
 `Double.parseDouble` would read: the whole part and the (possibly empty)
 fractional part.
 */
module Tokens {

  /** The reserved words of Lox. */
  datatype Keyword =
    | And | Class | Else | False | Fun | For | If | Nil | Or
    | Print | Return | Super | This | True | Var | While

  datatype Kind =
    // single-character punctuation
    | LeftParen | RightParen | LeftBrace | RightBrace
    | Comma | Dot | Minus | Plus | Semicolon | Slash | Star
    // one- or two-character operators
    | Bang | BangEqual | Equal | EqualEqual
    | Greater | GreaterEqual | Less | LessEqual
    // literals
    | Identifier | String | Number
    // reserved words
    | Reserved(word: Keyword)
    // end of input
    | Eof

  /** The decoded value a token carries; `NoLiteral` stands for Java's `null`. */
  datatype Literal =
    | NoLiteral
    | StringValue(text: string)
    | NumberValue(whole: string, fraction: string)

  datatype Token = Token(kind: Kind, lexeme: string, literal: Literal, line: nat)

  /** The kinds whose lexeme is not fixed by the kind alone. */
  predicate HasVariableLexeme(k: Kind) {
    k.Identifier? || k.String? || k.Number?
  }

  /** How a reserved word is written. */
  function KeywordSpelling(w: Keyword): string {
    match w
    case And => "and"
    case Class => "class"
    case Else => "else"
    case False => "false"
    case For => "for"
    case Fun => "fun"
    case If => "if"
    case Nil => "nil"
    case Or => "or"
    case Print => "print"
    case Return => "return"
    case Super => "super"
    case This => "this"
    case True => "true"
    case Var => "var"
    case While => "while"
  }

  /**
   The only lexeme a kind with a fixed spelling is written with; the
   end-of-input marker's is empty. For the kinds whose lexeme varies
   (`HasVariableLexeme`) the result `""` is a placeholder and means nothing.
   */
  function FixedSpelling(k: Kind): string {
    match k
    case LeftParen => "("
    case RightParen => ")"
    case LeftBrace => "{"
    case RightBrace => "}"
    case Comma => ","
    case Dot => "."
    case Minus => "-"
    case Plus => "+"
    case Semicolon => ";"
    case Slash => "/"
    case Star => "*"
    case Bang => "!"
    case BangEqual => "!="
    case Equal => "="
    case EqualEqual => "=="
    case Greater => ">"
    case GreaterEqual => ">="
    case Less => "<"
    case LessEqual => "<="
    case Reserved(w) => KeywordSpelling(w)
    case Eof => ""
    case Identifier => ""
    case String => ""
    case Number => ""
  }

  /** The static `keywords` table, exact and case-sensitive. */
  const Keywords: map<string, Keyword> := map[
    "and" := And,
    "class" := Class,
    "else" := Else,
    "false" := False,
    "for" := For,
    "fun" := Fun,
    "if" := If,
    "nil" := Nil,
    "or" := Or,
    "print" := Print,
    "return" := Return,
    "super" := Super,
    "this" := This,
    "true" := True,
    "var" := Var,
    "while" := While
  ]

  /**
   The kind `identifier()` gives a word: the reserved word it spells
   exactly, otherwise `Identifier`.
   */
  function KeywordKind(text: string): (k: Kind)
    ensures k.Identifier? <==> text !in Keywords
    ensures k.Identifier? || (k.Reserved? && KeywordSpelling(k.word) == text)
  {
    if text in Keywords then KeywordsSound(); Reserved(Keywords[text]) else Identifier
  }

  /** The table is keyed by exactly the sixteen reserved spellings. */
  lemma KeywordsKeys()
    ensures Keywords.Keys == {
      "and", "class", "else", "false", "for", "fun", "if", "nil",
      "or", "print", "return", "super", "this", "true", "var", "while"
    }
  {
  }

  /** Every entry maps a reserved word's spelling to that reserved word. */
  lemma KeywordsSound()
    ensures forall w :: w in Keywords ==> KeywordSpelling(Keywords[w]) == w
  {
    KeywordsKeys();
    KeywordEntries();
  }

  /** Looking up each reserved spelling in the table. */
  lemma KeywordEntries()
    ensures Keywords["and"] == And
    ensures Keywords["class"] == Class
    ensures Keywords["else"] == Else
    ensures Keywords["false"] == False
    ensures Keywords["for"] == For
    ensures Keywords["fun"] == Fun
    ensures Keywords["if"] == If
    ensures Keywords["nil"] == Nil
    ensures Keywords["or"] == Or
    ensures Keywords["print"] == Print
    ensures Keywords["return"] == Return
    ensures Keywords["super"] == Super
    ensures Keywords["this"] == This
    ensures Keywords["true"] == True
    ensures Keywords["var"] == Var
    ensures Keywords["while"] == While
  {
  }

  /** Reserved words are two to six characters long. */
  lemma KeywordLengths()
    ensures forall w :: w in Keywords ==> 2 <= |w| <= 6
  {
    KeywordsKeys();
  }

  /** A word shorter or longer than every reserved word is an identifier. */
  lemma IdentifierByLength(text: string)
    requires |text| < 2 || |text| > 6
    ensures KeywordKind(text) == Identifier
  {
    KeywordLengths();
  }

  /** Every reserved word is in the table under its spelling, so spelling and word determine each other. */
  lemma KeywordKindRoundTrip(w: Keyword)
    ensures KeywordSpelling(w) in Keywords && Keywords[KeywordSpelling(w)] == w
    ensures KeywordKind(KeywordSpelling(w)) == Reserved(w)
  {
    KeywordEntries();
  }
}
