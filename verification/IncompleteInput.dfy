/** Which syntax errors say that the input is only incomplete, so that the interactive
    shell asks for another line. */
module IncompleteInput {
  import opened Prelude
  import opened Tokens
  import opened Ast
  import opened ParserSpec
  import opened ParserRoundTrip

  const MORE: Error := SyntaxError(true)
  const WRONG: Error := SyntaxError(false)

  /** An error in the first command is the program's. */
  lemma ErrorInCommand(z: Stream, ts: seq<Token>, e: Error)
    requires ts != [] && CanStartCommand(ts[0]) && !IsReserved(ts[0], "!") && ParseCommand(On(z, ts)) == Err(e)
    ensures ParseProgram(On(z, ts)) == Err(e)
  {
    hide ParseCommand;
    assert ParsePipeline(On(z, ts)) == Err(e);
    assert ParseAndOr(On(z, ts)) == Err(e);
    assert ParseTerm(On(z, ts), []) == Err(e);
    assert SkipLinebreak(On(z, ts)) == Ok(On(z, ts));
  }

  lemma ErrorInCompound(z: Stream, ts: seq<Token>, e: Error)
    requires ts != [] && StartsCompound(ts[0]) && ParseCompoundBody(On(z, ts)) == Err(e)
    ensures ParseProgram(On(z, ts)) == Err(e)
  {
    hide ParseCompoundBody, StartsCompound, ParseProgram;
    StartersStart(ts[0]);
    assert ParseCommand(On(z, ts)) == Err(e);
    ErrorInCommand(z, ts, e);
  }

  lemma StartersStart(t: Token)
    requires StartsCompound(t)
    ensures CanStartCommand(t) && !IsReserved(t, "!") && t != Newline
  {
    KeywordsDiffer();
    if t != LParen {
      assert t == Keyword(t.word[0].text);
    }
  }

  /** `{`, `(`, `if`, `while` and `until` and a list, and nothing more. */
  lemma OpenConstructIsIncomplete(y: Layout, list: List, z: Stream, opener: Token)
    requires WellFormedItems(list.items, false)
    requires opener in {LParen, Keyword("{"), Keyword("if"), Keyword("while"), Keyword("until")}
    ensures ParseProgram(On(z, [opener] + EmitList(y, list, [EndOfInput]))) == Err(MORE)
  {
    hide ParseProgram, EmitList, ParseCompoundList, WellFormedItems;
    var tokens := EmitList(y, list, [EndOfInput]);
    ListBack(y, list, false, z, [EndOfInput]);
    Step(z, opener, tokens);
    OpenFails(z, opener, list, tokens);
    ErrorInCompound(z, [opener] + tokens, MORE);
  }

  lemma OpenFails(z: Stream, opener: Token, list: List, tokens: seq<Token>)
    requires opener in {LParen, Keyword("{"), Keyword("if"), Keyword("while"), Keyword("until")}
    requires tokens != [] && ParseCompoundList(On(z, tokens)) == Ok((list, On(z, [EndOfInput])))
    ensures StartsCompound(opener) && ParseCompoundBody(On(z, [opener] + tokens)) == Err(MORE)
  {
    hide ParseCompoundList;
    StartersDiffer();
    Step(z, opener, tokens);
    if opener == Keyword("if") {
      assert ParseBranch(On(z, tokens)) == Err(MORE);
      assert ParseIfClause(On(z, [opener] + tokens)) == Err(MORE);
    } else if opener == Keyword("while") || opener == Keyword("until") {
      assert ParseDoGroup(On(z, [EndOfInput])) == Err(MORE);
      assert ParseLoop(On(z, [opener] + tokens), opener.word[0].text) == Err(MORE);
    }
  }

  /** `if list then list`, the same with else, and `while list do list`, and no more. */
  lemma OpenBodyIsIncomplete(y: Layout, cond: List, body: List, z: Stream)
    requires WellFormedItems(cond.items, true) && WellFormedItems(body.items, false)
    ensures var inside := EmitList(y, body, [EndOfInput]);
            && ParseProgram(On(z, [Keyword("if")] + EmitList(y, cond, [Keyword("then")] + inside))) == Err(MORE)
            && ParseProgram(On(z, [Keyword("while")] + EmitList(y, cond, [Keyword("do")] + inside))) == Err(MORE)
            && ParseProgram(On(z, [Keyword("until")] + EmitList(y, cond, [Keyword("do")] + inside))) == Err(MORE)
  {
    hide ParseProgram, EmitList, ParseCompoundList, WellFormedItems;
    var inside := EmitList(y, body, [EndOfInput]);
    ListBack(y, body, false, z, [EndOfInput]);
    Closers();
    BodyFails(y, "if", "then", cond, body, z, inside);
    BodyFails(y, "while", "do", cond, body, z, inside);
    BodyFails(y, "until", "do", cond, body, z, inside);
  }

  lemma Closers()
    ensures IsCloser(Keyword("then")) && IsCloser(Keyword("do"))
  {
  }

  lemma BodyFails(y: Layout, opener: string, middle: string, cond: List, body: List, z: Stream, inside: seq<Token>)
    requires (opener == "if" && middle == "then") || (opener in {"while", "until"} && middle == "do")
    requires WellFormedItems(cond.items, true) && IsCloser(Keyword(middle)) && inside != []
    requires ParseCompoundList(On(z, inside)) == Ok((body, On(z, [EndOfInput])))
    ensures ParseProgram(On(z, [Keyword(opener)] + EmitList(y, cond, [Keyword(middle)] + inside))) == Err(MORE)
  {
    hide ParseProgram, EmitList, ParseCompoundList, WellFormedItems, IsCloser;
    var k := [Keyword(middle)] + inside;
    var tokens := EmitList(y, cond, k);
    ListBack(y, cond, true, z, k);
    MiddleFails(opener, middle, cond, body, z, tokens, inside);
    ErrorInCompound(z, [Keyword(opener)] + tokens, MORE);
  }

  lemma MiddleFails(opener: string, middle: string, cond: List, body: List, z: Stream, tokens: seq<Token>, inside: seq<Token>)
    requires (opener == "if" && middle == "then") || (opener in {"while", "until"} && middle == "do")
    requires tokens != [] && inside != []
    requires ParseCompoundList(On(z, tokens)) == Ok((cond, On(z, [Keyword(middle)] + inside)))
    requires ParseCompoundList(On(z, inside)) == Ok((body, On(z, [EndOfInput])))
    ensures StartsCompound(Keyword(opener)) && ParseCompoundBody(On(z, [Keyword(opener)] + tokens)) == Err(MORE)
  {
    hide ParseCompoundList;
    StartersDiffer();
    Step(z, Keyword(opener), tokens);
    Step(z, Keyword(middle), inside);
    var s := On(z, [Keyword(opener)] + tokens);
    if opener == "if" {
      assert ParseBranch(On(z, tokens)) == Ok((Branch(cond, body), On(z, [EndOfInput])));
      assert ParseElifs(On(z, [EndOfInput]), [Branch(cond, body)]) == Ok(([Branch(cond, body)], On(z, [EndOfInput])));
      assert ParseElse(On(z, [EndOfInput])) == Ok((None, On(z, [EndOfInput])));
      assert ParseIfClause(s) == Err(MORE);
    } else {
      assert ParseDoGroup(On(z, [Keyword(middle)] + inside)) == Err(MORE);
      assert ParseLoop(s, opener) == Err(MORE);
    }
  }

  lemma NothingIsIncomplete(z: Stream)
    ensures ParsePipeline(On(z, [EndOfInput])) == Err(MORE)
  {
    var cmd := SimpleCommand([], [], []);
    assert ParseSimpleCommand(On(z, [EndOfInput]), cmd) == Err(MORE);
    assert ParseCommand(On(z, [EndOfInput])) == Err(MORE);
  }

  /** A chain that ends with `&&` or `||`, newlines or not. */
  lemma OpenChainIsIncomplete(y: Layout, p: Pipeline, isAnd: bool, z: Stream)
    requires WellFormedPipeline(p)
    ensures ParseProgram(On(z, EmitPipeline(y, p, [if isAnd then AndIf else OrIf] + Break(y, [EndOfInput])))) == Err(MORE)
  {
    hide EmitPipeline, ParsePipeline, WellFormedPipeline, Break, SkipLinebreak;
    var op := if isAnd then AndIf else OrIf;
    var k := [op] + Break(y, [EndOfInput]);
    var tokens := EmitPipeline(y, p, k);
    PipelineHead(y, p, k);
    PipelineBack(y, p, z, k);
    Step(z, op, Break(y, [EndOfInput]));
    BreakIsSkipped(y, z, [EndOfInput]);
    NothingIsIncomplete(z);
    assert ParseAndOrRest(On(z, k), []) == Err(MORE);
    assert ParseAndOr(On(z, tokens)) == Err(MORE);
    assert ParseTerm(On(z, tokens), []) == Err(MORE);
    LinesAreSkipped(0, z, tokens);
    NoLines(tokens);
  }

  /** A whole program and then `)` or `;;`: more input can not mend that. */
  lemma StrayCloserIsWrong(y: Layout, list: List, t: Token, more: seq<Token>, z: Stream)
    requires WellFormedItems(list.items, false) && (t == RParen || t == DSemi)
    ensures ParseProgram(On(z, EmitList(y, list, [t] + more))) == Err(WRONG)
  {
    hide EmitList, ParseCompoundList, WellFormedItems;
    ListBack(y, list, false, z, [t] + more);
  }

  /** Not all that could go on is flagged: a name and a parenthesis, the beginning of a
      function definition, is a plain syntax error. */
  lemma BeginningOfFunctionIsWrong(name: string, z: Stream)
    requires IsName(name) && !StartsNoCommand(Keyword(name))
    ensures ParseProgram(On(z, [Keyword(name)] + ([LParen] + [EndOfInput]))) == Err(WRONG)
  {
    hide IsName, ParseCommand;
    var k := [LParen] + [EndOfInput];
    var s := On(z, [Keyword(name)] + k);
    NameIsSimple(name, z, k);
    var c := Simple(SimpleCommand([], [[Literal(name)]], []));
    assert ParsePipelineRest(On(z, k), [c]) == Ok(([c], On(z, k)));
    assert ParsePipeline(s) == Ok((Pipeline(false, [c]), On(z, k)));
    assert ParseAndOrRest(On(z, k), []) == Ok(([], On(z, k)));
    assert ParseAndOr(s) == Ok((AndOr(Pipeline(false, [c]), []), On(z, k)));
    assert ParseSeparator(On(z, k)) == Ok((NoSeparator, On(z, k)));
    assert ParseTerm(s, []).Ok? && ParseTerm(s, []).value.1 == On(z, k);
  }

  lemma NameIsSimple(name: string, z: Stream, k: seq<Token>)
    requires IsName(name) && !StartsNoCommand(Keyword(name)) && k == [LParen] + [EndOfInput]
    ensures ParseCommand(On(z, [Keyword(name)] + k)) == Ok((Simple(SimpleCommand([], [[Literal(name)]], [])), On(z, k)))
  {
    hide IsName, ParseCompoundBody, ParseFunctionDefinition;
    var s := On(z, [Keyword(name)] + k);
    assert s.ts[1] == LParen && s.ts[2] == EndOfInput;
    assert LooksLikeFunction(s) == Ok(false);
    NameIsNoAssignment(name);
    var none, cmd := SimpleCommand([], [], []), SimpleCommand([], [[Literal(name)]], []);
    assert [] + [[Literal(name)]] == [[Literal(name)]];
    SimpleWord([Literal(name)], none, z, k);
    assert ParseSimpleCommand(On(z, k), cmd) == Ok((cmd, On(z, k)));
  }

  lemma NameIsNoAssignment(name: string)
    requires IsName(name)
    ensures TrySplitAssignment([Literal(name)]) == None
  {
    NameHasNoEquals(name);
  }

  lemma RedirectFails(op: Token, k: seq<Token>, z: Stream)
    requires IsRedirectOp(op) && k != [] && !k[0].WordTok?
    ensures ParseRedirect(On(z, [op] + k)) == Fail(On(z, k))
  {
    Step(z, op, k);
    assert ParseTarget(On(z, k), op) == Fail(On(z, k));
  }

  lemma SimpleFails(op: Token, k: seq<Token>, z: Stream)
    requires IsRedirectOp(op) && k != [] && !k[0].WordTok?
    ensures ParseCommand(On(z, [op] + k)) == Fail(On(z, k))
    ensures CanStartCommand(op) && !IsReserved(op, "!")
  {
    hide ParseRedirect, ParseCompoundBody, ParseFunctionDefinition, TrySplitAssignment;
    RedirectFails(op, k, z);
    assert LooksLikeFunction(On(z, [op] + k)) == Ok(false);
  }

  /** A redirection operator wants a word: anything else is an error there. */
  lemma RedirectNeedsWord(op: Token, t: Token, more: seq<Token>, z: Stream)
    requires IsRedirectOp(op) && !t.WordTok?
    ensures ParseProgram(On(z, [op] + ([t] + more))) == Err(SyntaxError(t == EndOfInput))
  {
    hide ParseProgram, ParseCommand, IsRedirectOp;
    SimpleFails(op, [t] + more, z);
    ErrorInCommand(z, [op] + ([t] + more), SyntaxError(t == EndOfInput));
  }
}
