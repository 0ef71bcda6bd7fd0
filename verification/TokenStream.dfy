/** The tokens and here-document bodies of a whole source text, read eagerly.
    The parser reads the same stream lazily, with lookahead; see Parser. */
module TokenStream {
  import opened Prelude
  import opened Tokens
  import opened LexerSpec
  import opened Ast

  /** clean: the stream ends with EndOfInput rather than at a lexical error. */
  datatype Lexed = Lexed(ts: seq<Token>, clean: bool, bodies: seq<string>)

  function Cons(t: Token, rest: Lexed): Lexed {
    rest.(ts := [t] + rest.ts)
  }

  /** `<<` and `<<-` make the next word a delimiter: Some(strip). */
  function Awaiting(t: Token): Option<bool> {
    if t == DLess then Some(false) else if t == DLessDash then Some(true) else None
  }

  function DocOf(strip: bool, w: Word): HereDoc {
    HereDoc(strip, AnyQuoted(w), FlattenText(w))
  }

  function Register(pending: seq<HereDoc>, awaiting: Option<bool>, t: Token): seq<HereDoc> {
    if awaiting.Some? && t.WordTok? then pending + [DocOf(awaiting.value, t.word)] else pending
  }

  function ReadBodies(s: string, docs: seq<HereDoc>, done: seq<string>): (r: Scan<seq<string>>)
    ensures r.Got? ==> |r.rest| <= |s| && |r.value| == |done| + |docs|
    decreases |docs|
  {
    if docs == [] then Got(done, s)
    else
      match HeredocBody(s, docs[0].delimiter, docs[0].strip, "")
      case Unterminated => Unterminated
      case Got(body, rest) => ReadBodies(rest, docs[1..], done + [body])
  }

  /** From a position inside a line. */
  function LexAll(s: string, pending: seq<HereDoc>, awaiting: Option<bool>): (r: Lexed)
    ensures r.clean ==> r.ts != [] && r.ts[|r.ts| - 1] == EndOfInput
    decreases |s|, 0
  {
    match Next(s)
    case Unterminated => Lexed([], false, [])
    case Got(t, rest) =>
      if t == EndOfInput then Lexed([t], true, [])
      else if t == Newline then Cons(t, LexLine(rest, pending))
      else Cons(t, LexAll(rest, Register(pending, awaiting, t), Awaiting(t)))
  }

  /** From the start of a line, where the bodies of pending here-documents are. */
  function LexLine(s: string, pending: seq<HereDoc>): (r: Lexed)
    ensures r.clean ==> r.ts != [] && r.ts[|r.ts| - 1] == EndOfInput
    decreases |s|, 1
  {
    match ReadBodies(s, pending, [])
    case Unterminated => Lexed([], false, [])
    case Got(bodies, rest) =>
      var more := LexAll(rest, [], None);
      more.(bodies := bodies + more.bodies)
  }
}
