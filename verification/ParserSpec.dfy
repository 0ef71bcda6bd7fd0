/** The grammar productions as functions of the tokens still unread. */
module ParserSpec {
  import opened Prelude
  import opened Numbers
  import opened Tokens
  import opened Ast

  /** What parsing throws: LexError, or ParseError with its flag that says the
      input was a proper prefix of a command. */
  datatype Error = LexError | SyntaxError(incomplete: bool)

  /** The current token and those after it. The stream ends with EndOfInput when
      it is clean, and otherwise just before a lexical error. docs counts the
      here-documents registered so far. */
  datatype Stream = Stream(ts: seq<Token>, clean: bool, docs: nat)

  type State = s: Stream | s.ts != [] witness Stream([EndOfInput], true, 0)

  type Parsed<T> = Result<(T, State), Error>

  function Cur(s: State): Token {
    s.ts[0]
  }

  function Fail<T>(s: State): Result<T, Error> {
    Err(SyntaxError(Cur(s) == EndOfInput))
  }

  function Advance(s: State): (r: Result<State, Error>)
    requires Cur(s) != EndOfInput
    ensures r.Ok? ==> |r.value.ts| < |s.ts|
  {
    if |s.ts| == 1 then Err(LexError) else Ok(s.(ts := s.ts[1..]))
  }

  /** The token n places after the current one; only the lexer can fail here. */
  function Peek(s: State, n: nat): Result<Token, Error> {
    if n < |s.ts| then Ok(s.ts[n]) else if s.clean then Ok(EndOfInput) else Err(LexError)
  }

  // ------------------------------------------------------------ token tests

  predicate IsReserved(t: Token, w: string) {
    t.WordTok? && IsUnquotedLiteral(t.word) && t.word[0].text == w
  }

  predicate IsCloser(t: Token) {
    || IsReserved(t, "}") || IsReserved(t, "then") || IsReserved(t, "do") || IsReserved(t, "done")
    || IsReserved(t, "fi") || IsReserved(t, "esac") || IsReserved(t, "elif") || IsReserved(t, "else")
  }

  predicate StartsCompound(t: Token) {
    || t == LParen
    || IsReserved(t, "{") || IsReserved(t, "for") || IsReserved(t, "case")
    || IsReserved(t, "if") || IsReserved(t, "while") || IsReserved(t, "until")
  }

  predicate IsPlainName(t: Token) {
    t.WordTok? && IsName(UnquotedText(t.word))
  }

  predicate CanStartCommand(t: Token) {
    t != EndOfInput && t != RParen && t != DSemi && t != Newline && !IsCloser(t)
  }

  predicate IsRedirectOp(t: Token) {
    || t == Less || t == Great || t == DGreat || t == DLess || t == DLessDash
    || t == LessAnd || t == GreatAnd || t == LessGreat || t == Clobber
  }

  predicate StartsRedirect(t: Token) {
    t.IoNumber? || IsRedirectOp(t)
  }

  predicate IsHereDocOp(t: Token) {
    t == DLess || t == DLessDash
  }

  function FindEquals(s: string): (n: nat)
    ensures n <= |s| && '=' !in s[..n] && (n < |s| ==> s[n] == '=')
  {
    if s == "" || s[0] == '=' then 0 else 1 + FindEquals(s[1..])
  }

  /** ASSIGNMENT_WORD: an unquoted name, an unquoted `=`, and the rest. */
  function TrySplitAssignment(w: Word): Option<Assignment> {
    if w == [] || !w[0].Literal? then None
    else
      var first := w[0].text;
      var eq := FindEquals(first);
      if eq == |first| || !IsName(first[..eq]) then None
      else
        var value := if eq + 1 == |first| then [] else [Literal(first[eq + 1..])];
        Some(Assignment(first[..eq], value + w[1..]))
  }

  // ------------------------------------------------------------ productions

  function ExpectReserved(s: State, w: string): (r: Result<State, Error>)
    ensures r.Ok? ==> |r.value.ts| < |s.ts|
  {
    if IsReserved(Cur(s), w) then Advance(s) else Fail(s)
  }

  function ExpectOp(s: State, t: Token): (r: Result<State, Error>)
    requires t != EndOfInput
    ensures r.Ok? ==> |r.value.ts| < |s.ts|
  {
    if Cur(s) == t then Advance(s) else Fail(s)
  }

  function SkipLinebreak(s: State): (r: Result<State, Error>)
    ensures r.Ok? ==> |r.value.ts| <= |s.ts| && Cur(r.value) != Newline
    decreases |s.ts|
  {
    if Cur(s) != Newline then Ok(s)
    else
      var s1 :- Advance(s);
      SkipLinebreak(s1)
  }

  function SequentialSep(s: State): (r: Result<State, Error>)
    ensures r.Ok? ==> |r.value.ts| < |s.ts|
  {
    if Cur(s) == Semi then
      var s1 :- Advance(s);
      SkipLinebreak(s1)
    else if Cur(s) == Newline then
      var s1 :- Advance(s);
      SkipLinebreak(s1)
    else Fail(s)
  }

  /** The word after a redirection operator: a delimiter for `<<` and `<<-`. */
  function ParseTarget(s: State, op: Token): (r: Parsed<Target>)
    ensures r.Ok? ==> |r.value.1.ts| < |s.ts|
  {
    if !Cur(s).WordTok? then Fail(s)
    else
      var w := Cur(s).word;
      var s1 :- Advance(s);
      if IsHereDocOp(op) then
        var doc := HereDoc(op == DLessDash, AnyQuoted(w), FlattenText(w));
        Ok((HereDocTarget(s1.docs, doc), s1.(docs := s1.docs + 1)))
      else
        Ok((WordTarget(w), s1))
  }

  function ParseIoNumber(s: State): (r: Parsed<Option<nat>>)
    ensures r.Ok? ==> |r.value.1.ts| <= |s.ts|
  {
    if !Cur(s).IoNumber? then Ok((None, s))
    else
      var s1 :- Advance(s);
      Ok((Some(DecimalValue(Cur(s).digits)), s1))
  }

  function ParseRedirect(s: State): (r: Parsed<Redirect>)
    ensures r.Ok? ==> |r.value.1.ts| < |s.ts|
  {
    var (io, s1) :- ParseIoNumber(s);
    if !IsRedirectOp(Cur(s1)) then Fail(s1)
    else
      var s2 :- Advance(s1);
      var (target, s3) :- ParseTarget(s2, Cur(s1));
      Ok((Redirect(io, Cur(s1), target), s3))
  }

  function ParseRedirectList(s: State, done: seq<Redirect>): (r: Parsed<seq<Redirect>>)
    ensures r.Ok? ==> |r.value.1.ts| <= |s.ts|
    decreases |s.ts|
  {
    if !StartsRedirect(Cur(s)) then Ok((done, s))
    else
      var (redirect, s1) :- ParseRedirect(s);
      ParseRedirectList(s1, done + [redirect])
  }

  function ParseWords(s: State, done: seq<Word>): (r: Parsed<seq<Word>>)
    ensures r.Ok? ==> |r.value.1.ts| <= |s.ts|
    decreases |s.ts|
  {
    if !Cur(s).WordTok? then Ok((done, s))
    else
      var s1 :- Advance(s);
      ParseWords(s1, done + [Cur(s).word])
  }

  function ParseSimpleCommand(s: State, cmd: SimpleCommand): (r: Parsed<SimpleCommand>)
    ensures r.Ok? ==> |r.value.1.ts| <= |s.ts|
    ensures r.Ok? && cmd == SimpleCommand([], [], []) ==> |r.value.1.ts| < |s.ts|
    decreases |s.ts|
  {
    if StartsRedirect(Cur(s)) then
      var (redirect, s1) :- ParseRedirect(s);
      ParseSimpleCommand(s1, cmd.(redirects := cmd.redirects + [redirect]))
    else if !Cur(s).WordTok? then
      if cmd == SimpleCommand([], [], []) then Fail(s) else Ok((cmd, s))
    else
      var s1 :- Advance(s);
      var w := Cur(s).word;
      var split := TrySplitAssignment(w);
      if cmd.words == [] && split.Some? then
        ParseSimpleCommand(s1, cmd.(assignments := cmd.assignments + [split.value]))
      else
        ParseSimpleCommand(s1, cmd.(words := cmd.words + [w]))
  }

  function ParsePatterns(s: State, done: seq<Word>): (r: Parsed<seq<Word>>)
    ensures r.Ok? ==> |r.value.1.ts| < |s.ts|
    decreases |s.ts|
  {
    if !Cur(s).WordTok? then Fail(s)
    else
      var s1 :- Advance(s);
      var patterns := done + [Cur(s).word];
      if Cur(s1) == Pipe then
        var s2 :- Advance(s1);
        ParsePatterns(s2, patterns)
      else Ok((patterns, s1))
  }

  function ParseSeparator(s: State): (r: Parsed<Separator>)
    ensures r.Ok? ==> |r.value.1.ts| <= |s.ts|
  {
    var sep := if Cur(s) == Semi then Sequential else if Cur(s) == And then Async else NoSeparator;
    var s1 :- if sep != NoSeparator then Advance(s) else Ok(s);
    var s2 :- SkipLinebreak(s1);
    Ok((if sep == NoSeparator && Cur(s1) == Newline then Sequential else sep, s2))
  }

  function ParseCompoundList(s: State): (r: Parsed<List>)
    ensures r.Ok? ==> |r.value.1.ts| <= |s.ts|
    decreases |s.ts|, 9
  {
    var s1 :- SkipLinebreak(s);
    ParseTerm(s1, [])
  }

  function ParseTerm(s: State, done: seq<ListItem>): (r: Parsed<List>)
    ensures r.Ok? ==> |r.value.1.ts| <= |s.ts|
    decreases |s.ts|, 8
  {
    if !CanStartCommand(Cur(s)) then Ok((List(done), s))
    else
      var (andOr, s1) :- ParseAndOr(s);
      var (sep, s2) :- ParseSeparator(s1);
      var items := done + [ListItem(andOr, sep)];
      if sep == NoSeparator then Ok((List(items), s2)) else ParseTerm(s2, items)
  }

  function ParseAndOr(s: State): (r: Parsed<AndOr>)
    ensures r.Ok? ==> |r.value.1.ts| < |s.ts|
    decreases |s.ts|, 7
  {
    var (first, s1) :- ParsePipeline(s);
    var (rest, s2) :- ParseAndOrRest(s1, []);
    Ok((AndOr(first, rest), s2))
  }

  function ParseAndOrRest(s: State, done: seq<AndOrPart>): (r: Parsed<seq<AndOrPart>>)
    ensures r.Ok? ==> |r.value.1.ts| <= |s.ts|
    decreases |s.ts|, 7
  {
    if Cur(s) != AndIf && Cur(s) != OrIf then Ok((done, s))
    else
      var s1 :- Advance(s);
      var s2 :- SkipLinebreak(s1);
      var (pipeline, s3) :- ParsePipeline(s2);
      ParseAndOrRest(s3, done + [AndOrPart(Cur(s) == AndIf, pipeline)])
  }

  function ParsePipeline(s: State): (r: Parsed<Pipeline>)
    ensures r.Ok? ==> |r.value.1.ts| < |s.ts|
    decreases |s.ts|, 6
  {
    var negated := IsReserved(Cur(s), "!");
    var s1 :- if negated then Advance(s) else Ok(s);
    var (command, s2) :- ParseCommand(s1);
    var (commands, s3) :- ParsePipelineRest(s2, [command]);
    Ok((Pipeline(negated, commands), s3))
  }

  function ParsePipelineRest(s: State, done: seq<Command>): (r: Parsed<seq<Command>>)
    ensures r.Ok? ==> |r.value.1.ts| <= |s.ts|
    decreases |s.ts|, 6
  {
    if Cur(s) != Pipe then Ok((done, s))
    else
      var s1 :- Advance(s);
      var s2 :- SkipLinebreak(s1);
      var (command, s3) :- ParseCommand(s2);
      ParsePipelineRest(s3, done + [command])
  }

  /** Whether `name ( )` follows, reading no further than needed to tell. */
  function LooksLikeFunction(s: State): Result<bool, Error> {
    if !IsPlainName(Cur(s)) then Ok(false)
    else
      var t1 :- Peek(s, 1);
      if t1 != LParen then Ok(false)
      else
        var t2 :- Peek(s, 2);
        Ok(t2 == RParen)
  }

  function ParseCommand(s: State): (r: Parsed<Command>)
    ensures r.Ok? ==> |r.value.1.ts| < |s.ts|
    decreases |s.ts|, 5
  {
    if StartsCompound(Cur(s)) then
      var (body, s1) :- ParseCompoundBody(s);
      var (redirects, s2) :- ParseRedirectList(s1, []);
      Ok((Compound(body, redirects), s2))
    else
      var isFunction :- LooksLikeFunction(s);
      if isFunction then ParseFunctionDefinition(s)
      else
        var (cmd, s1) :- ParseSimpleCommand(s, SimpleCommand([], [], []));
        Ok((Simple(cmd), s1))
  }

  function ParseFunctionDefinition(s: State): (r: Parsed<Command>)
    requires Cur(s).WordTok?
    ensures r.Ok? ==> |r.value.1.ts| < |s.ts|
    decreases |s.ts|, 4
  {
    var name := UnquotedText(Cur(s).word);
    var s1 :- Advance(s);
    var s2 :- ExpectOp(s1, LParen);
    var s3 :- ExpectOp(s2, RParen);
    var s4 :- SkipLinebreak(s3);
    var (body, s5) :- ParseCompoundBody(s4);
    var (redirects, s6) :- ParseRedirectList(s5, []);
    Ok((FunctionDefinition(name, body, redirects), s6))
  }

  function ParseCompoundBody(s: State): (r: Parsed<CompoundCommand>)
    ensures r.Ok? ==> |r.value.1.ts| < |s.ts|
    decreases |s.ts|, 4
  {
    if Cur(s) == LParen then ParseSubshell(s)
    else if IsReserved(Cur(s), "{") then ParseBraceGroup(s)
    else if IsReserved(Cur(s), "for") then ParseForClause(s)
    else if IsReserved(Cur(s), "case") then ParseCaseClause(s)
    else if IsReserved(Cur(s), "if") then ParseIfClause(s)
    else if IsReserved(Cur(s), "while") then ParseLoop(s, "while")
    else if IsReserved(Cur(s), "until") then ParseLoop(s, "until")
    else Fail(s)
  }

  function ParseBraceGroup(s: State): (r: Parsed<CompoundCommand>)
    ensures r.Ok? ==> |r.value.1.ts| < |s.ts|
    decreases |s.ts|, 3
  {
    var s1 :- ExpectReserved(s, "{");
    var (list, s2) :- ParseCompoundList(s1);
    var s3 :- ExpectReserved(s2, "}");
    Ok((BraceGroup(list), s3))
  }

  function ParseSubshell(s: State): (r: Parsed<CompoundCommand>)
    ensures r.Ok? ==> |r.value.1.ts| < |s.ts|
    decreases |s.ts|, 3
  {
    var s1 :- ExpectOp(s, LParen);
    var (list, s2) :- ParseCompoundList(s1);
    var s3 :- ExpectOp(s2, RParen);
    Ok((Subshell(list), s3))
  }

  function ParseDoGroup(s: State): (r: Parsed<List>)
    ensures r.Ok? ==> |r.value.1.ts| < |s.ts|
    decreases |s.ts|, 3
  {
    var s1 :- ExpectReserved(s, "do");
    var (list, s2) :- ParseCompoundList(s1);
    var s3 :- ExpectReserved(s2, "done");
    Ok((list, s3))
  }

  /** The words of `for name in words`, or None without `in`. */
  function ParseForWords(s: State): (r: Parsed<Option<seq<Word>>>)
    ensures r.Ok? ==> |r.value.1.ts| <= |s.ts|
  {
    if IsReserved(Cur(s), "in") then
      var s1 :- Advance(s);
      var (words, s2) :- ParseWords(s1, []);
      var s3 :- SequentialSep(s2);
      Ok((Some(words), s3))
    else Ok((None, s))
  }

  function ParseForClause(s: State): (r: Parsed<CompoundCommand>)
    ensures r.Ok? ==> |r.value.1.ts| < |s.ts|
    decreases |s.ts|, 3
  {
    var s1 :- ExpectReserved(s, "for");
    if !IsPlainName(Cur(s1)) then Fail(s1)
    else
      var s2 :- Advance(s1);
      var s3 :- if Cur(s2) == Semi then Advance(s2) else Ok(s2);
      var s4 :- SkipLinebreak(s3);
      var (words, s5) :- ParseForWords(s4);
      var (list, s6) :- ParseDoGroup(s5);
      Ok((ForClause(UnquotedText(Cur(s1).word), words, list), s6))
  }

  function ParseCaseClause(s: State): (r: Parsed<CompoundCommand>)
    ensures r.Ok? ==> |r.value.1.ts| < |s.ts|
    decreases |s.ts|, 3
  {
    var s1 :- ExpectReserved(s, "case");
    if !Cur(s1).WordTok? then Fail(s1)
    else
      var s2 :- Advance(s1);
      var s3 :- SkipLinebreak(s2);
      var s4 :- ExpectReserved(s3, "in");
      var s5 :- SkipLinebreak(s4);
      var (items, s6) :- ParseCaseItems(s5, []);
      var s7 :- ExpectReserved(s6, "esac");
      Ok((CaseClause(Cur(s1).word, items), s7))
  }

  /** Patterns, with an optional `(` before them, and a body that may be empty. */
  function ParseCaseItem(s: State): (r: Parsed<CaseItem>)
    ensures r.Ok? ==> |r.value.1.ts| < |s.ts|
    decreases |s.ts|, 1
  {
    var s1 :- if Cur(s) == LParen then Advance(s) else Ok(s);
    var (patterns, s2) :- ParsePatterns(s1, []);
    var s3 :- ExpectOp(s2, RParen);
    var (body, s4) :- ParseCompoundList(s3);
    Ok((CaseItem(patterns, body), s4))
  }

  function ParseCaseItems(s: State, done: seq<CaseItem>): (r: Parsed<seq<CaseItem>>)
    ensures r.Ok? ==> |r.value.1.ts| <= |s.ts|
    decreases |s.ts|, 2
  {
    if IsReserved(Cur(s), "esac") then Ok((done, s))
    else
      var (item, s1) :- ParseCaseItem(s);
      if Cur(s1) == DSemi then
        var s2 :- Advance(s1);
        var s3 :- SkipLinebreak(s2);
        ParseCaseItems(s3, done + [item])
      else Ok((done + [item], s1))
  }

  function ParseIfClause(s: State): (r: Parsed<CompoundCommand>)
    ensures r.Ok? ==> |r.value.1.ts| < |s.ts|
    decreases |s.ts|, 3
  {
    var s1 :- ExpectReserved(s, "if");
    var (branch, s2) :- ParseBranch(s1);
    var (branches, s3) :- ParseElifs(s2, [branch]);
    var (elseBranch, s4) :- ParseElse(s3);
    var s5 :- ExpectReserved(s4, "fi");
    Ok((IfClause(branches, elseBranch), s5))
  }

  function ParseBranch(s: State): (r: Parsed<Branch>)
    ensures r.Ok? ==> |r.value.1.ts| < |s.ts|
    decreases |s.ts|, 10
  {
    var (cond, s1) :- ParseCompoundList(s);
    var s2 :- ExpectReserved(s1, "then");
    var (body, s3) :- ParseCompoundList(s2);
    Ok((Branch(cond, body), s3))
  }

  function ParseElifs(s: State, done: seq<Branch>): (r: Parsed<seq<Branch>>)
    ensures r.Ok? ==> |r.value.1.ts| <= |s.ts|
    decreases |s.ts|, 2
  {
    if !IsReserved(Cur(s), "elif") then Ok((done, s))
    else
      var s1 :- Advance(s);
      var (branch, s2) :- ParseBranch(s1);
      ParseElifs(s2, done + [branch])
  }

  function ParseElse(s: State): (r: Parsed<Option<List>>)
    ensures r.Ok? ==> |r.value.1.ts| <= |s.ts|
    decreases |s.ts|, 2
  {
    if !IsReserved(Cur(s), "else") then Ok((None, s))
    else
      var s1 :- Advance(s);
      var (list, s2) :- ParseCompoundList(s1);
      Ok((Some(list), s2))
  }

  function ParseLoop(s: State, keyword: string): (r: Parsed<CompoundCommand>)
    ensures r.Ok? ==> |r.value.1.ts| < |s.ts|
    decreases |s.ts|, 3
  {
    var s1 :- ExpectReserved(s, keyword);
    var (cond, s2) :- ParseCompoundList(s1);
    var (list, s3) :- ParseDoGroup(s2);
    Ok((if keyword == "while" then WhileClause(cond, list) else UntilClause(cond, list), s3))
  }

  function ParseProgram(s: State): Result<List, Error> {
    var (list, s1) :- ParseCompoundList(s);
    if Cur(s1) != EndOfInput then Fail(s1) else Ok(list)
  }
}
