/** From source text to tree: a token list in normal form, spelled with any blanks
    and comments between the tokens, or none where two tokens stay apart without, is
    lexed back to itself; so a well-formed tree, written as text, is parsed back to
    itself. */
module SourceRoundTrip {
  import opened Prelude
  import opened Numbers
  import opened Tokens
  import opened LexerSpec
  import opened WordRoundTrip
  import opened WordForms
  import opened TokenStream
  import opened Ast
  import ParserSpec
  import opened ParserRoundTrip
  import Parser

  function SpellOperator(t: Token): string {
    match t
    case And => "&"
    case AndIf => "&&"
    case Pipe => "|"
    case OrIf => "||"
    case Semi => ";"
    case DSemi => ";;"
    case LParen => "("
    case RParen => ")"
    case Less => "<"
    case Great => ">"
    case DGreat => ">>"
    case DLess => "<<"
    case DLessDash => "<<-"
    case LessAnd => "<&"
    case GreatAnd => ">&"
    case LessGreat => "<>"
    case Clobber => ">|"
    case _ => ""
  }

  function SpellToken(t: Token): string {
    match t
    case WordTok(w) => Spell(w, false)
    case IoNumber(digits) => digits
    case Newline => "\n"
    case _ => SpellOperator(t)
  }

  /** What stands before the tokens, told by the tokens still to come. */
  type Gaps = seq<Token> -> string

  predicate IsBlanks(s: string) {
    s != "" && forall i :: 0 <= i < |s| ==> s[i] == ' ' || s[i] == '\t'
  }

  /** Nothing, or blanks and, at the end of a line, a comment. */
  ghost predicate IsGap(s: string, t: Token) {
    || s == ""
    || IsBlanks(s)
    || ((t == Newline || t == EndOfInput)
        && exists blanks, comment :: IsBlanks(blanks) && '\n' !in comment && s == blanks + ("#" + comment))
  }

  ghost predicate AreGaps(gap: Gaps) {
    forall ts: seq<Token> :: ts != [] ==> IsGap(gap(ts), ts[0])
  }

  /** A gap before each token, except between an IO_NUMBER and its operator. */
  function SpellTokens(ts: seq<Token>, glued: bool, gap: Gaps): string {
    if ts == [] then ""
    else if ts[0] == EndOfInput then gap(ts)
    else (if glued then "" else gap(ts)) + (SpellToken(ts[0]) + SpellTokens(ts[1..], ts[0].IoNumber?, gap))
  }

  predicate StartsComment(w: Word) {
    w != [] && w[0].Literal? && w[0].text != "" && w[0].text[0] == '#'
  }

  /** No operator is longer than t and goes on as the text does. */
  ghost predicate IsLongest(t: Token, rest: string) {
    rest == "" || forall u: Token :: IsOperator(u) ==> !(SpellOperator(t) + [rest[0]] <= SpellOperator(u))
  }

  /** Nothing, or a character that ends words; and no `<` or `>` after digits. */
  predicate IsWordEnd(w: Word, rest: string) {
    rest == "" || (EndsWord(rest[0]) && (rest[0] in "<>" ==> !IsNumber(w)))
  }

  predicate IsNumber(w: Word) {
    |w| == 1 && w[0].Literal? && AllDigits(w[0].text)
  }

  /** t can stand before the tokens next. */
  ghost predicate TokenNormal(t: Token, next: seq<Token>, gap: Gaps) {
    match t
    case WordTok(w) =>
      && w != [] && NormalForm(w, false, SpellTokens(next, false, gap))
      && !StartsComment(w) && IsWordEnd(w, SpellTokens(next, false, gap))
    case IoNumber(digits) => AllDigits(digits) && next != [] && ParserSpec.IsRedirectOp(next[0])
    case EndOfInput => false
    case Newline => true
    case _ => IsLongest(t, SpellTokens(next, false, gap))
  }

  /** Tokens that can be spelled; a newline may come when no here-document is pending. */
  ghost predicate TokensNormal(ts: seq<Token>, gap: Gaps, pending: seq<HereDoc>, awaiting: Option<bool>) {
    && ts != []
    && if ts[0] == EndOfInput then ts == [EndOfInput]
       else
         && TokenNormal(ts[0], ts[1..], gap) && (ts[0] == Newline ==> pending == [])
         && TokensNormal(ts[1..], gap, Register(pending, awaiting, ts[0]), Awaiting(ts[0]))
  }

  lemma RedirectStart(ts: seq<Token>, gap: Gaps)
    requires ts != [] && ParserSpec.IsRedirectOp(ts[0])
    ensures var s := SpellTokens(ts, true, gap); s != "" && (s[0] == '<' || s[0] == '>')
  {
  }

  predicate IsOperator(t: Token) {
    SpellOperator(t) != ""
  }

  lemma Longer(t: Token, u: Token, c: char, rest: string)
    requires IsLongest(t, rest) && SpellOperator(u) == SpellOperator(t) + [c]
    ensures rest == "" || rest[0] != c
  {
    hide SpellOperator;
    if rest != "" {
      assert SpellOperator(t) + [c] <= SpellOperator(u);
    }
  }

  lemma LongerOperators(t: Token, rest: string)
    requires IsLongest(t, rest) && rest != ""
    ensures t == And ==> rest[0] != '&'
    ensures t == Pipe ==> rest[0] != '|'
    ensures t == Semi ==> rest[0] != ';'
    ensures t == Less ==> rest[0] != '<' && rest[0] != '&' && rest[0] != '>'
    ensures t == Great ==> rest[0] != '>' && rest[0] != '&' && rest[0] != '|'
    ensures t == DLess ==> rest[0] != '-'
  {
    hide IsLongest;
    match t
    case And => Longer(t, AndIf, '&', rest);
    case Pipe => Longer(t, OrIf, '|', rest);
    case Semi => Longer(t, DSemi, ';', rest);
    case Less => Longer(t, DLess, '<', rest); Longer(t, LessAnd, '&', rest); Longer(t, LessGreat, '>', rest);
    case Great => Longer(t, DGreat, '>', rest); Longer(t, GreatAnd, '&', rest); Longer(t, Clobber, '|', rest);
    case DLess => Longer(t, DLessDash, '-', rest);
    case _ =>
  }

  /** The longest operator is taken. */
  lemma OperatorBack(t: Token, rest: string)
    requires IsOperator(t) && IsLongest(t, rest)
    ensures IsOperatorStart(SpellOperator(t)[0])
    ensures Operator(SpellOperator(t) + rest) == (t, rest)
  {
    var s := SpellOperator(t) + rest;
    var n := |SpellOperator(t)|;
    assert s[n..] == rest && s[0] == SpellOperator(t)[0];
    assert n > 1 ==> s[1] == SpellOperator(t)[1];
    assert n > 2 ==> s[2] == SpellOperator(t)[2];
    if rest != "" {
      LongerOperators(t, rest);
      assert s[n] == rest[0];
    }
  }

  lemma PartStart(p: WordPart, after: string)
    requires PartNormal(p, false, after) && !StartsComment([p])
    ensures var s := SpellPart(p, false); s != "" && !EndsWord(s[0]) && s[0] != '#'
  {
  }

  lemma SkipNothing(s: string)
    requires s != "" && s[0] != ' ' && s[0] != '\t' && s[0] != '#'
    ensures SkipBlanks(s) == s
  {
  }

  /** A gap is skipped before whatever token comes. */
  lemma GapSkipped(gap: string, t: Token, s: string)
    requires IsGap(gap, t) && (t == Newline ==> s != "" && s[0] == '\n') && (t == EndOfInput ==> s == "")
    ensures Next(gap + s) == Next(s)
  {
    hide ScanWord, Operator, WordToken;
    if IsBlanks(gap) {
      BlanksSkipped(gap, s);
    } else if gap == "" {
      assert gap + s == s;
    } else {
      var blanks, comment :| IsBlanks(blanks) && '\n' !in comment && gap == blanks + ("#" + comment);
      assert gap + s == blanks + ("#" + comment + s);
      BlanksSkipped(blanks, "#" + comment + s);
      assert ("#" + comment + s)[1..] == comment + s;
      LineSkipped(comment, s);
    }
  }

  /** Scanning a word token. */
  lemma WordNext(w: Word, rest: string)
    requires w != [] && NormalForm(w, false, rest) && !StartsComment(w)
    requires rest == "" || EndsWord(rest[0])
    ensures Next(Spell(w, false) + rest) == Got(WordToken(w, rest), rest)
  {
    hide ScanWord, SkipBlanks, NormalForm, Spell, WordToken;
    WordStart(w, rest);
    var s := Spell(w, false) + rest;
    SkipNothing(s);
    WordBack(w, rest, []);
    assert [] + w == w;
  }

  lemma WordStart(w: Word, rest: string)
    requires w != [] && NormalForm(w, false, rest) && !StartsComment(w)
    ensures var s := Spell(w, false) + rest; s != "" && !EndsWord(s[0]) && s[0] != '#'
  {
    hide SpellPart, PartNormal;
    PartStart(w[0], Spell(w[1..], false) + rest);
    SpellCons(w, false, rest);
  }

  lemma {:induction false} DigitsNormal(digits: string, rest: string)
    requires forall i :: 0 <= i < |digits| ==> IsDigit(digits[i])
    ensures LiteralText(digits, false, rest)
  {
    if digits != "" {
      DigitsNormal(digits[1..], rest);
    }
  }

  lemma IoNumberNext(digits: string, rest: string)
    requires AllDigits(digits) && rest != "" && (rest[0] == '<' || rest[0] == '>')
    ensures Next(digits + rest) == Got(IoNumber(digits), rest)
  {
    hide ScanWord, SkipBlanks;
    var w := [Literal(digits)];
    DigitsNormal(digits, rest);
    assert w[1..] == [] && Spell([], false) + rest == rest;
    assert Spell(w, false) == digits + "" == digits;
    WordNext(w, rest);
  }

  lemma OperatorNext(t: Token, rest: string)
    requires IsOperator(t) && IsLongest(t, rest)
    ensures Next(SpellOperator(t) + rest) == Got(t, rest)
  {
    hide Operator, SkipBlanks, SpellOperator, ScanWord, IsLongest;
    OperatorBack(t, rest);
    var s := SpellOperator(t) + rest;
    assert s[0] == SpellOperator(t)[0];
    SkipNothing(s);
  }

  lemma NewlineNext(rest: string)
    ensures Next("\n" + rest) == Got(Newline, rest)
  {
    hide ScanWord, Operator;
    assert ("\n" + rest)[1..] == rest;
    SkipNothing("\n" + rest);
  }

  lemma TokenNext(ts: seq<Token>, glued: bool, gap: Gaps)
    requires AreGaps(gap) && ts != [] && TokenNormal(ts[0], ts[1..], gap) && (glued ==> ParserSpec.IsRedirectOp(ts[0]))
    ensures Next(SpellTokens(ts, glued, gap)) == Got(ts[0], SpellTokens(ts[1..], ts[0].IoNumber?, gap))
  {
    hide Next, SpellOperator, NormalForm, Spell, IsGap, IsLongest, IsWordEnd, WordToken;
    var t := ts[0];
    var rest := SpellTokens(ts[1..], t.IoNumber?, gap);
    if glued {
      assert "" + (SpellToken(t) + rest) == SpellToken(t) + rest;
    } else {
      assert IsGap(gap(ts), t);
      GapSkipped(gap(ts), t, SpellToken(t) + rest);
    }
    if t.WordTok? {
      WordStays(t.word, rest);
      WordNext(t.word, rest);
    } else if t.IoNumber? {
      RedirectStart(ts[1..], gap);
      IoNumberNext(t.digits, rest);
    } else if t == Newline {
      NewlineNext(rest);
    } else {
      OperatorSpelled(t);
      OperatorNext(t, rest);
    }
  }

  lemma WordStays(w: Word, rest: string)
    requires IsWordEnd(w, rest)
    ensures (rest == "" || EndsWord(rest[0])) && WordToken(w, rest) == WordTok(w)
  {
  }

  lemma OperatorSpelled(t: Token)
    requires !t.WordTok? && !t.IoNumber? && t != Newline && t != EndOfInput
    ensures IsOperator(t)
  {
  }

  /** Lexing the spelling of a normal token list gives that list back, with any gaps. */
  lemma {:induction false} TokensRoundTrip(ts: seq<Token>, glued: bool, gap: Gaps, pending: seq<HereDoc>, awaiting: Option<bool>)
    requires AreGaps(gap) && TokensNormal(ts, gap, pending, awaiting) && (glued ==> ParserSpec.IsRedirectOp(ts[0]))
    ensures LexAll(SpellTokens(ts, glued, gap), pending, awaiting) == Lexed(ts, true, [])
    decreases |ts|
  {
    hide Next, TokenNormal, IsGap;
    if ts[0] == EndOfInput {
      assert IsGap(gap(ts), EndOfInput);
      GapSkipped(gap(ts), EndOfInput, "");
      assert gap(ts) + "" == gap(ts);
      EndNext();
    } else {
      TokenNext(ts, glued, gap);
      AfterIoNumber(ts, gap);
      assert [ts[0]] + ts[1..] == ts;
      TokensRoundTrip(ts[1..], ts[0].IoNumber?, gap, Register(pending, awaiting, ts[0]), Awaiting(ts[0]));
      if ts[0] == Newline {
        NoBodies(SpellTokens(ts[1..], false, gap));
      }
    }
  }

  lemma NoBodies(s: string)
    ensures ReadBodies(s, [], []) == Got([], s)
  {
  }

  lemma EndNext()
    ensures Next("") == Got(EndOfInput, "")
  {
  }

  lemma AfterIoNumber(ts: seq<Token>, gap: Gaps)
    requires ts != [] && TokenNormal(ts[0], ts[1..], gap) && ts[0] != EndOfInput
    ensures ts[0].IoNumber? ==> |ts| > 1 && ParserSpec.IsRedirectOp(ts[1])
  {
  }

  /** A source text of a command list. */
  function SourceText(y: Layout, gap: Gaps, list: List): string {
    SpellTokens(EmitList(y, list, [EndOfInput]), false, gap)
  }

  /** Source text to tree: for every well-formed tree whose words are in normal form,
      in any layout and with any blanks and comments, lexing and parsing its text
      gives exactly that tree. */
  lemma SourceBack(y: Layout, gap: Gaps, list: List)
    requires AreGaps(gap) && WellFormedItems(list.items, false) && TokensNormal(EmitList(y, list, [EndOfInput]), gap, [], None)
    ensures Parser.ParseStream(LexAll(SourceText(y, gap, list), [], None)) == Ok(list)
  {
    hide EmitList, LexAll, SpellTokens, ParserSpec.ParseProgram, WellFormedItems, AreGaps;
    var ts := EmitList(y, list, [EndOfInput]);
    TokensRoundTrip(ts, false, gap, [], None);
    ProgramRoundTrip(y, list, ParserSpec.Stream([], true, 0));
  }
}
