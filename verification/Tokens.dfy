/** Words and tokens (src/lexer/token.hpp). A word is a tree of parts; the
    flag couldBeReservedWord of a token is the predicate IsUnquotedLiteral of
    its word. */
module Tokens {

  datatype WordPart =
    | Literal(text: string)
    | SingleQuoted(text: string)
    | DoubleQuoted(parts: seq<WordPart>)
    | ParamExpansion(text: string)
    | CommandSubDollar(text: string)
    | CommandSubBacktick(text: string)
    | ArithExpansion(text: string)

  type Word = seq<WordPart>

  datatype Token =
    | WordTok(word: seq<WordPart>)
    | Newline
    | EndOfInput
    | And | AndIf | Pipe | OrIf | Semi | DSemi | LParen | RParen
    | Less | Great | DGreat | DLess | DLessDash | LessAnd | GreatAnd | LessGreat | Clobber
    | IoNumber(digits: string)

  predicate IsUnquotedLiteral(w: Word) {
    |w| == 1 && w[0].Literal?
  }

  function UnquotedText(w: Word): string {
    if IsUnquotedLiteral(w) then w[0].text else ""
  }

  /** Quote removal on a word made of literal and quoted text, with a flag that
      tells whether anything was quoted. Expansions contribute no text. */
  function FlattenText(w: Word): string {
    if w == [] then "" else
      (match w[0]
       case Literal(t) => t
       case SingleQuoted(t) => t
       case DoubleQuoted(ps) => FlattenText(ps)
       case _ => "")
      + FlattenText(w[1..])
  }

  predicate AnyQuoted(w: Word) {
    exists i :: 0 <= i < |w| && (w[i].SingleQuoted? || w[i].DoubleQuoted?)
  }
}
