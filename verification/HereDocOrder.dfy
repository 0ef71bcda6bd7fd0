/** Here-documents are numbered in the order in which they are written, so that the
    bodies, which are read in that order, go to the right redirections. */
module HereDocOrder {
  import opened Prelude
  import opened Tokens
  import opened Ast
  import opened ParserSpec
  import opened LexerSpec
  import opened TokenStream

  type Docs = seq<(nat, HereDoc)>

  // --------------------------------------- the here-documents of a tree, in order

  function OfRedirects(rs: seq<Redirect>): Docs {
    if rs == [] then []
    else (if rs[0].target.HereDocTarget? then [(rs[0].target.id, rs[0].target.doc)] else []) + OfRedirects(rs[1..])
  }

  function OfList(list: List): Docs {
    OfItems(list.items)
  }

  function OfItems(items: seq<ListItem>): Docs {
    if items == [] then [] else OfItem(items[0]) + OfItems(items[1..])
  }

  function OfItem(item: ListItem): Docs {
    OfAndOr(item.andOr)
  }

  function OfAndOr(a: AndOr): Docs {
    OfPipeline(a.first) + OfParts(a.rest)
  }

  function OfParts(parts: seq<AndOrPart>): Docs {
    if parts == [] then [] else OfPart(parts[0]) + OfParts(parts[1..])
  }

  function OfPart(part: AndOrPart): Docs {
    OfPipeline(part.pipeline)
  }

  function OfPipeline(p: Pipeline): Docs {
    OfCommands(p.commands)
  }

  function OfCommands(cs: seq<Command>): Docs {
    if cs == [] then [] else OfCommand(cs[0]) + OfCommands(cs[1..])
  }

  function OfCommand(c: Command): Docs {
    match c
    case Simple(cmd) => OfRedirects(cmd.redirects)
    case Compound(body, rs) => OfCompound(body) + OfRedirects(rs)
    case FunctionDefinition(_, body, rs) => OfCompound(body) + OfRedirects(rs)
  }

  function OfCompound(c: CompoundCommand): Docs {
    match c
    case BraceGroup(list) => OfList(list)
    case Subshell(list) => OfList(list)
    case ForClause(_, _, list) => OfList(list)
    case CaseClause(_, items) => OfCases(items)
    case IfClause(branches, e) => OfBranches(branches) + OfElse(e)
    case WhileClause(cond, list) => OfList(cond) + OfList(list)
    case UntilClause(cond, list) => OfList(cond) + OfList(list)
  }

  function OfElse(e: Option<List>): Docs {
    match e
    case None => []
    case Some(list) => OfList(list)
  }

  function OfCases(items: seq<CaseItem>): Docs {
    if items == [] then [] else OfCase(items[0]) + OfCases(items[1..])
  }

  function OfCase(item: CaseItem): Docs {
    OfList(item.body)
  }

  function OfBranches(bs: seq<Branch>): Docs {
    if bs == [] then [] else OfBranch(bs[0]) + OfBranches(bs[1..])
  }

  function OfBranch(b: Branch): Docs {
    OfList(b.cond) + OfList(b.body)
  }

  // ----------------------------------------------- those written in a token list

  /** Each `<<` or `<<-` and the word after it, numbered from n. */
  function Written(ts: seq<Token>, n: nat): Docs {
    if ts == [] || ts[0] == EndOfInput then []
    else if IsHereDocOp(ts[0]) && |ts| > 1 && ts[1].WordTok? then
      [(n, DocOf(ts[0] == DLessDash, ts[1].word))] + Written(ts[2..], n + 1)
    else Written(ts[1..], n)
  }

  function Ahead(s: State): Docs {
    Written(s.ts, s.docs)
  }

  /** What was found before s and what is ahead of it is what is found before t and
      what is ahead of that. */
  predicate Kept(before: Docs, s: State, found: Docs, t: State) {
    before + Ahead(s) == found + Ahead(t)
  }

  lemma Then(a: Docs, s: State, b: Docs, t: State)
    requires Ahead(s) == b + Ahead(t)
    ensures Kept(a, s, a + b, t)
  {
    hide Ahead;
    assert a + (b + Ahead(t)) == (a + b) + Ahead(t);
  }

  /** Two parts, one after the other. */
  lemma Both(a: Docs, s: State, b: Docs, t: State)
    requires Kept([], s, b, t)
    ensures a + Ahead(s) == (a + b) + Ahead(t)
  {
    hide Ahead;
    assert [] + Ahead(s) == Ahead(s);
    Then(a, s, b, t);
  }

  lemma AdvanceKeeps(s: State)
    requires Cur(s) != EndOfInput && Advance(s).Ok? && !IsHereDocOp(Cur(s))
    ensures Ahead(s) == Ahead(Advance(s).value)
  {
  }

  lemma ReservedKeeps(s: State, w: string)
    requires ExpectReserved(s, w).Ok?
    ensures Ahead(s) == Ahead(ExpectReserved(s, w).value)
  {
    hide Written;
    AdvanceKeeps(s);
  }

  lemma OpKeeps(s: State, t: Token)
    requires t != EndOfInput && !IsHereDocOp(t) && ExpectOp(s, t).Ok?
    ensures Ahead(s) == Ahead(ExpectOp(s, t).value)
  {
    hide Written;
    AdvanceKeeps(s);
  }

  lemma {:induction false} LinebreakKeeps(s: State)
    requires SkipLinebreak(s).Ok?
    ensures Ahead(s) == Ahead(SkipLinebreak(s).value)
    decreases |s.ts|
  {
    hide Written;
    if Cur(s) == Newline {
      AdvanceKeeps(s);
      LinebreakKeeps(Advance(s).value);
    }
  }

  lemma SeparatorKeeps(s: State)
    requires ParseSeparator(s).Ok?
    ensures Ahead(s) == Ahead(ParseSeparator(s).value.1)
  {
    hide Written, SkipLinebreak;
    var s1 := s;
    if Cur(s) == Semi || Cur(s) == And {
      AdvanceKeeps(s);
      s1 := Advance(s).value;
    }
    LinebreakKeeps(s1);
  }

  lemma SequentialKeeps(s: State)
    requires SequentialSep(s).Ok?
    ensures Ahead(s) == Ahead(SequentialSep(s).value)
  {
    hide Written, SkipLinebreak;
    AdvanceKeeps(s);
    LinebreakKeeps(Advance(s).value);
  }

  lemma {:induction false} WordsKeep(s: State, done: seq<Word>)
    requires ParseWords(s, done).Ok?
    ensures Ahead(s) == Ahead(ParseWords(s, done).value.1)
    decreases |s.ts|
  {
    hide Written;
    if Cur(s).WordTok? {
      AdvanceKeeps(s);
      WordsKeep(Advance(s).value, done + [Cur(s).word]);
    }
  }

  lemma {:induction false} PatternsKeep(s: State, done: seq<Word>)
    requires ParsePatterns(s, done).Ok?
    ensures Ahead(s) == Ahead(ParsePatterns(s, done).value.1)
    decreases |s.ts|
  {
    hide Written;
    AdvanceKeeps(s);
    var s1 := Advance(s).value;
    if Cur(s1) == Pipe {
      AdvanceKeeps(s1);
      PatternsKeep(Advance(s1).value, done + [Cur(s).word]);
    }
  }

  lemma ForWordsKeep(s: State)
    requires ParseForWords(s).Ok?
    ensures Ahead(s) == Ahead(ParseForWords(s).value.1)
  {
    hide Written, ParseWords, SequentialSep;
    if IsReserved(Cur(s), "in") {
      AdvanceKeeps(s);
      var s1 := Advance(s).value;
      WordsKeep(s1, []);
      SequentialKeeps(ParseWords(s1, []).value.1);
    }
  }

  // --------------------------------------------------------------- redirections

  lemma TargetKeeps(s: State, op: Token, before: State)
    requires ParseTarget(s, op).Ok? && IsRedirectOp(op) && before == s.(ts := [op] + s.ts)
    ensures var r := ParseTarget(s, op).value;
            Ahead(before) == OfRedirects([Redirect(None, op, r.0)]) + Ahead(r.1)
  {
    var r := ParseTarget(s, op).value;
    var one := [Redirect(None, op, r.0)];
    assert one[1..] == [] && OfRedirects([]) == [];
    assert before.ts[0] == op && before.ts[1] == s.ts[0] && before.ts[1..] == s.ts && before.ts[2..] == s.ts[1..];
    if IsHereDocOp(op) {
      assert r.0.doc == DocOf(op == DLessDash, s.ts[1 - 1].word);
    } else {
      assert Written(before.ts, s.docs) == Written(s.ts, s.docs) == Written(s.ts[1..], s.docs);
    }
  }

  lemma RedirectKeeps(s: State)
    requires ParseRedirect(s).Ok?
    ensures var r := ParseRedirect(s).value; Ahead(s) == OfRedirects([r.0]) + Ahead(r.1)
  {
    hide Written, ParseTarget;
    var s1 := ParseIoNumber(s).value.1;
    if Cur(s).IoNumber? {
      AdvanceKeeps(s);
    }
    var s2 := Advance(s1).value;
    assert s1.ts == [Cur(s1)] + s2.ts;
    TargetKeeps(s2, Cur(s1), s1);
  }

  lemma {:induction false} OfRedirectsConcat(a: seq<Redirect>, b: seq<Redirect>)
    ensures OfRedirects(a + b) == OfRedirects(a) + OfRedirects(b)
    decreases |a|
  {
    if a == [] {
      assert a + b == b;
    } else {
      assert (a + b)[0] == a[0] && (a + b)[1..] == a[1..] + b;
      OfRedirectsConcat(a[1..], b);
    }
  }

  lemma {:induction false} RedirectListKeeps(s: State, done: seq<Redirect>)
    requires ParseRedirectList(s, done).Ok?
    ensures var r := ParseRedirectList(s, done).value; Kept(OfRedirects(done), s, OfRedirects(r.0), r.1)
    decreases |s.ts|
  {
    hide Written, ParseRedirect, OfRedirects;
    if StartsRedirect(Cur(s)) {
      RedirectKeeps(s);
      var (redirect, s1) := ParseRedirect(s).value;
      OfRedirectsConcat(done, [redirect]);
      RedirectListKeeps(s1, done + [redirect]);
    }
  }

  lemma {:induction false} SimpleKeeps(s: State, cmd: SimpleCommand)
    requires ParseSimpleCommand(s, cmd).Ok?
    ensures var r := ParseSimpleCommand(s, cmd).value; Kept(OfRedirects(cmd.redirects), s, OfRedirects(r.0.redirects), r.1)
    decreases |s.ts|
  {
    hide Written, ParseRedirect, OfRedirects, TrySplitAssignment;
    if StartsRedirect(Cur(s)) {
      RedirectKeeps(s);
      var (redirect, s1) := ParseRedirect(s).value;
      OfRedirectsConcat(cmd.redirects, [redirect]);
      SimpleKeeps(s1, cmd.(redirects := cmd.redirects + [redirect]));
    } else if Cur(s).WordTok? {
      AdvanceKeeps(s);
      var split := TrySplitAssignment(Cur(s).word);
      if cmd.words == [] && split.Some? {
        SimpleKeeps(Advance(s).value, cmd.(assignments := cmd.assignments + [split.value]));
      } else {
        SimpleKeeps(Advance(s).value, cmd.(words := cmd.words + [Cur(s).word]));
      }
    }
  }

  // ------------------------------------------------------------------ commands

  lemma {:induction false} OfItemsConcat(a: seq<ListItem>, b: ListItem)
    ensures OfItems(a + [b]) == OfItems(a) + OfItem(b)
    decreases |a|
  {
    hide OfItem;
    if a == [] {
      assert a + [b] == [b] && [b][1..] == [];
    } else {
      assert (a + [b])[0] == a[0] && (a + [b])[1..] == a[1..] + [b];
      OfItemsConcat(a[1..], b);
    }
  }

  lemma {:induction false} OfPartsConcat(a: seq<AndOrPart>, b: AndOrPart)
    ensures OfParts(a + [b]) == OfParts(a) + OfPart(b)
    decreases |a|
  {
    hide OfPart;
    if a == [] {
      assert a + [b] == [b] && [b][1..] == [];
    } else {
      assert (a + [b])[0] == a[0] && (a + [b])[1..] == a[1..] + [b];
      OfPartsConcat(a[1..], b);
    }
  }

  lemma {:induction false} OfCommandsConcat(a: seq<Command>, b: Command)
    ensures OfCommands(a + [b]) == OfCommands(a) + OfCommand(b)
    decreases |a|
  {
    hide OfCommand;
    if a == [] {
      assert a + [b] == [b] && [b][1..] == [];
    } else {
      assert (a + [b])[0] == a[0] && (a + [b])[1..] == a[1..] + [b];
      OfCommandsConcat(a[1..], b);
    }
  }

  lemma {:induction false} OfCasesConcat(a: seq<CaseItem>, b: CaseItem)
    ensures OfCases(a + [b]) == OfCases(a) + OfCase(b)
    decreases |a|
  {
    hide OfCase;
    if a == [] {
      assert a + [b] == [b] && [b][1..] == [];
    } else {
      assert (a + [b])[0] == a[0] && (a + [b])[1..] == a[1..] + [b];
      OfCasesConcat(a[1..], b);
    }
  }

  lemma {:induction false} OfBranchesConcat(a: seq<Branch>, b: Branch)
    ensures OfBranches(a + [b]) == OfBranches(a) + OfBranch(b)
    decreases |a|
  {
    hide OfBranch;
    if a == [] {
      assert a + [b] == [b] && [b][1..] == [];
    } else {
      assert (a + [b])[0] == a[0] && (a + [b])[1..] == a[1..] + [b];
      OfBranchesConcat(a[1..], b);
    }
  }

  lemma {:induction false} CompoundListKeeps(s: State)
    requires ParseCompoundList(s).Ok?
    ensures var r := ParseCompoundList(s).value; Ahead(s) == OfList(r.0) + Ahead(r.1)
    decreases |s.ts|, 9
  {
    hide Ahead, ParseTerm;
    LinebreakKeeps(s);
    var s1 := SkipLinebreak(s).value;
    TermKeeps(s1, []);
    assert OfItems([]) == [];
  }

  lemma {:induction false} TermKeeps(s: State, done: seq<ListItem>)
    requires ParseTerm(s, done).Ok?
    ensures var r := ParseTerm(s, done).value; Kept(OfItems(done), s, OfList(r.0), r.1)
    decreases |s.ts|, 8
  {
    hide Ahead, ParseAndOr, ParseSeparator, OfItems, OfAndOr;
    if CanStartCommand(Cur(s)) {
      AndOrKeeps(s);
      var (andOr, s1) := ParseAndOr(s).value;
      SeparatorKeeps(s1);
      var (sep, s2) := ParseSeparator(s1).value;
      OfItemsConcat(done, ListItem(andOr, sep));
      Then(OfItems(done), s, OfAndOr(andOr), s1);
      if sep != NoSeparator {
        TermKeeps(s2, done + [ListItem(andOr, sep)]);
      }
    }
  }

  lemma {:induction false} AndOrKeeps(s: State)
    requires ParseAndOr(s).Ok?
    ensures var r := ParseAndOr(s).value; Ahead(s) == OfAndOr(r.0) + Ahead(r.1)
    decreases |s.ts|, 7
  {
    hide Ahead, ParsePipeline, ParseAndOrRest, OfPipeline;
    PipelineKeeps(s);
    var (first, s1) := ParsePipeline(s).value;
    PartsKeep(s1, []);
    assert OfParts([]) == [];
    var (parts, s2) := ParseAndOrRest(s1, []).value;
    Both(OfPipeline(first), s1, OfParts(parts), s2);
  }

  lemma {:induction false} PartsKeep(s: State, done: seq<AndOrPart>)
    requires ParseAndOrRest(s, done).Ok?
    ensures var r := ParseAndOrRest(s, done).value; Kept(OfParts(done), s, OfParts(r.0), r.1)
    decreases |s.ts|, 7
  {
    hide Ahead, ParsePipeline, SkipLinebreak, OfParts, OfPipeline;
    if Cur(s) == AndIf || Cur(s) == OrIf {
      AdvanceKeeps(s);
      var s1 := Advance(s).value;
      LinebreakKeeps(s1);
      var s2 := SkipLinebreak(s1).value;
      PipelineKeeps(s2);
      var (pipeline, s3) := ParsePipeline(s2).value;
      var part := AndOrPart(Cur(s) == AndIf, pipeline);
      OfPartsConcat(done, part);
      Then(OfParts(done), s2, OfPart(part), s3);
      PartsKeep(s3, done + [part]);
    }
  }

  lemma {:induction false} PipelineKeeps(s: State)
    requires ParsePipeline(s).Ok?
    ensures var r := ParsePipeline(s).value; Ahead(s) == OfPipeline(r.0) + Ahead(r.1)
    decreases |s.ts|, 6
  {
    hide Ahead, ParseCommand, ParsePipelineRest, OfCommand;
    var s1 := s;
    if IsReserved(Cur(s), "!") {
      AdvanceKeeps(s);
      s1 := Advance(s).value;
    }
    CommandKeeps(s1);
    var (command, s2) := ParseCommand(s1).value;
    assert [command][1..] == [] && OfCommands([command]) == OfCommand(command) + [];
    CommandsKeep(s2, [command]);
  }

  lemma {:induction false} CommandsKeep(s: State, done: seq<Command>)
    requires ParsePipelineRest(s, done).Ok?
    ensures var r := ParsePipelineRest(s, done).value; Kept(OfCommands(done), s, OfCommands(r.0), r.1)
    decreases |s.ts|, 6
  {
    hide Ahead, ParseCommand, SkipLinebreak, OfCommands, OfCommand;
    if Cur(s) == Pipe {
      AdvanceKeeps(s);
      var s1 := Advance(s).value;
      LinebreakKeeps(s1);
      var s2 := SkipLinebreak(s1).value;
      CommandKeeps(s2);
      var (command, s3) := ParseCommand(s2).value;
      OfCommandsConcat(done, command);
      Then(OfCommands(done), s2, OfCommand(command), s3);
      CommandsKeep(s3, done + [command]);
    }
  }

  lemma {:induction false} CommandKeeps(s: State)
    requires ParseCommand(s).Ok?
    ensures var r := ParseCommand(s).value; Ahead(s) == OfCommand(r.0) + Ahead(r.1)
    decreases |s.ts|, 5
  {
    hide Ahead, ParseCompoundBody, ParseRedirectList, ParseSimpleCommand, LooksLikeFunction, ParseFunctionDefinition, OfCompound;
    hide OfRedirects;
    NoRedirects();
    if StartsCompound(Cur(s)) {
      BodyKeeps(s);
      var (body, s1) := ParseCompoundBody(s).value;
      RedirectListKeeps(s1, []);
      var (redirects, s2) := ParseRedirectList(s1, []).value;
      Both(OfCompound(body), s1, OfRedirects(redirects), s2);
    } else if LooksLikeFunction(s) == Ok(true) {
      NameComesFirst(s);
      FunctionKeeps(s);
    } else {
      SimpleKeeps(s, SimpleCommand([], [], []));
    }
  }

  lemma NoRedirects()
    ensures OfRedirects([]) == []
  {
  }

  lemma NameComesFirst(s: State)
    requires LooksLikeFunction(s) == Ok(true)
    ensures Cur(s).WordTok?
  {
  }

  lemma {:induction false} FunctionKeeps(s: State)
    requires Cur(s).WordTok? && ParseFunctionDefinition(s).Ok?
    ensures var r := ParseFunctionDefinition(s).value; Ahead(s) == OfCommand(r.0) + Ahead(r.1)
    decreases |s.ts|, 4
  {
    hide Ahead, ParseCompoundBody, ParseRedirectList, SkipLinebreak, ExpectOp, OfCompound, OfRedirects;
    AdvanceKeeps(s);
    var s1 := Advance(s).value;
    OpKeeps(s1, LParen);
    var s2 := ExpectOp(s1, LParen).value;
    OpKeeps(s2, RParen);
    var s3 := ExpectOp(s2, RParen).value;
    LinebreakKeeps(s3);
    var s4 := SkipLinebreak(s3).value;
    BodyKeeps(s4);
    NoRedirects();
    var (body, s5) := ParseCompoundBody(s4).value;
    RedirectListKeeps(s5, []);
    var (redirects, s6) := ParseRedirectList(s5, []).value;
    Both(OfCompound(body), s5, OfRedirects(redirects), s6);
  }

  lemma {:induction false} BodyKeeps(s: State)
    requires ParseCompoundBody(s).Ok?
    ensures var r := ParseCompoundBody(s).value; Ahead(s) == OfCompound(r.0) + Ahead(r.1)
    decreases |s.ts|, 4
  {
    hide Ahead, ParseCompoundList, ParseForClause, ParseCaseClause, ParseIfClause, ParseLoop, OfCompound, ExpectReserved, ExpectOp;
    hide ParseBraceGroup, ParseSubshell;
    if Cur(s) == LParen {
      SubshellKeeps(s);
    } else if IsReserved(Cur(s), "{") {
      BraceKeeps(s);
    } else if IsReserved(Cur(s), "for") {
      ForKeeps(s);
    } else if IsReserved(Cur(s), "case") {
      CaseKeeps(s);
    } else if IsReserved(Cur(s), "if") {
      IfKeeps(s);
    } else {
      LoopKeeps(s, if IsReserved(Cur(s), "while") then "while" else "until");
    }
  }

  lemma {:induction false} BraceKeeps(s: State)
    requires ParseBraceGroup(s).Ok?
    ensures var r := ParseBraceGroup(s).value; Ahead(s) == OfCompound(r.0) + Ahead(r.1)
    decreases |s.ts|, 3
  {
    hide Ahead, ParseCompoundList, ExpectReserved, OfList;
    ReservedKeeps(s, "{");
    var s1 := ExpectReserved(s, "{").value;
    CompoundListKeeps(s1);
    ReservedKeeps(ParseCompoundList(s1).value.1, "}");
  }

  lemma {:induction false} SubshellKeeps(s: State)
    requires ParseSubshell(s).Ok?
    ensures var r := ParseSubshell(s).value; Ahead(s) == OfCompound(r.0) + Ahead(r.1)
    decreases |s.ts|, 3
  {
    hide Ahead, ParseCompoundList, ExpectOp, OfList;
    OpKeeps(s, LParen);
    var s1 := ExpectOp(s, LParen).value;
    CompoundListKeeps(s1);
    OpKeeps(ParseCompoundList(s1).value.1, RParen);
  }

  lemma {:induction false} DoKeeps(s: State)
    requires ParseDoGroup(s).Ok?
    ensures var r := ParseDoGroup(s).value; Ahead(s) == OfList(r.0) + Ahead(r.1)
    decreases |s.ts|, 3
  {
    hide Ahead, ParseCompoundList, ExpectReserved, OfList;
    ReservedKeeps(s, "do");
    var s1 := ExpectReserved(s, "do").value;
    CompoundListKeeps(s1);
    ReservedKeeps(ParseCompoundList(s1).value.1, "done");
  }

  lemma {:induction false} ForKeeps(s: State)
    requires ParseForClause(s).Ok?
    ensures var r := ParseForClause(s).value; Ahead(s) == OfCompound(r.0) + Ahead(r.1)
    decreases |s.ts|, 3
  {
    hide Ahead, ExpectReserved, SkipLinebreak, ParseForWords, ParseDoGroup, OfList, IsName;
    ReservedKeeps(s, "for");
    var s1 := ExpectReserved(s, "for").value;
    AdvanceKeeps(s1);
    var s3 := Advance(s1).value;
    if Cur(s3) == Semi {
      AdvanceKeeps(s3);
      s3 := Advance(s3).value;
    }
    LinebreakKeeps(s3);
    var s4 := SkipLinebreak(s3).value;
    ForWordsKeep(s4);
    DoKeeps(ParseForWords(s4).value.1);
  }

  lemma {:induction false} CaseKeeps(s: State)
    requires ParseCaseClause(s).Ok?
    ensures var r := ParseCaseClause(s).value; Ahead(s) == OfCompound(r.0) + Ahead(r.1)
    decreases |s.ts|, 3
  {
    hide Ahead, ExpectReserved, SkipLinebreak, ParseCaseItems;
    ReservedKeeps(s, "case");
    var s1 := ExpectReserved(s, "case").value;
    AdvanceKeeps(s1);
    var s2 := Advance(s1).value;
    LinebreakKeeps(s2);
    var s3 := SkipLinebreak(s2).value;
    ReservedKeeps(s3, "in");
    var s4 := ExpectReserved(s3, "in").value;
    LinebreakKeeps(s4);
    var s5 := SkipLinebreak(s4).value;
    CasesKeep(s5, []);
    assert OfCases([]) == [];
    ReservedKeeps(ParseCaseItems(s5, []).value.1, "esac");
  }

  lemma {:induction false} CaseItemKeeps(s: State)
    requires ParseCaseItem(s).Ok?
    ensures var r := ParseCaseItem(s).value; Ahead(s) == OfCase(r.0) + Ahead(r.1)
    decreases |s.ts|, 1
  {
    hide Ahead, ParsePatterns, ExpectOp, ParseCompoundList, OfList;
    var s1 := s;
    if Cur(s) == LParen {
      AdvanceKeeps(s);
      s1 := Advance(s).value;
    }
    PatternsKeep(s1, []);
    var s2 := ParsePatterns(s1, []).value.1;
    OpKeeps(s2, RParen);
    CompoundListKeeps(ExpectOp(s2, RParen).value);
  }

  lemma {:induction false} CasesKeep(s: State, done: seq<CaseItem>)
    requires ParseCaseItems(s, done).Ok?
    ensures var r := ParseCaseItems(s, done).value; Kept(OfCases(done), s, OfCases(r.0), r.1)
    decreases |s.ts|, 2
  {
    hide Ahead, ParseCaseItem, SkipLinebreak, OfCases, OfCase;
    if !IsReserved(Cur(s), "esac") {
      CaseItemKeeps(s);
      var (item, s1) := ParseCaseItem(s).value;
      OfCasesConcat(done, item);
      Then(OfCases(done), s, OfCase(item), s1);
      if Cur(s1) == DSemi {
        AdvanceKeeps(s1);
        var s2 := Advance(s1).value;
        LinebreakKeeps(s2);
        CasesKeep(SkipLinebreak(s2).value, done + [item]);
      }
    }
  }

  lemma {:induction false} IfKeeps(s: State)
    requires ParseIfClause(s).Ok?
    ensures var r := ParseIfClause(s).value; Ahead(s) == OfCompound(r.0) + Ahead(r.1)
    decreases |s.ts|, 3
  {
    hide Ahead, ExpectReserved, ParseBranch, ParseElifs, ParseElse, OfBranches, OfBranch, OfElse;
    ReservedKeeps(s, "if");
    var s1 := ExpectReserved(s, "if").value;
    BranchKeeps(s1);
    var (branch, s2) := ParseBranch(s1).value;
    OneBranch(branch);
    ElifsKeep(s2, [branch]);
    var (branches, s3) := ParseElifs(s2, [branch]).value;
    ElseKeeps(s3);
    var (e, s4) := ParseElse(s3).value;
    Then(OfBranches(branches), s3, OfElse(e), s4);
    ReservedKeeps(s4, "fi");
  }

  lemma OneBranch(b: Branch)
    ensures OfBranches([b]) == OfBranch(b)
  {
    assert [b][1..] == [] && OfBranches([]) == [];
  }

  lemma {:induction false} BranchKeeps(s: State)
    requires ParseBranch(s).Ok?
    ensures var r := ParseBranch(s).value; Ahead(s) == OfBranch(r.0) + Ahead(r.1)
    decreases |s.ts|, 10
  {
    hide Ahead, ExpectReserved, ParseCompoundList, OfList;
    CompoundListKeeps(s);
    var s1 := ParseCompoundList(s).value.1;
    ReservedKeeps(s1, "then");
    CompoundListKeeps(ExpectReserved(s1, "then").value);
  }

  lemma {:induction false} ElifsKeep(s: State, done: seq<Branch>)
    requires ParseElifs(s, done).Ok?
    ensures var r := ParseElifs(s, done).value; Kept(OfBranches(done), s, OfBranches(r.0), r.1)
    decreases |s.ts|, 2
  {
    hide Ahead, ParseBranch, OfBranches, OfBranch;
    if IsReserved(Cur(s), "elif") {
      AdvanceKeeps(s);
      var s1 := Advance(s).value;
      BranchKeeps(s1);
      var (branch, s2) := ParseBranch(s1).value;
      OfBranchesConcat(done, branch);
      Then(OfBranches(done), s1, OfBranch(branch), s2);
      ElifsKeep(s2, done + [branch]);
    }
  }

  lemma {:induction false} ElseKeeps(s: State)
    requires ParseElse(s).Ok?
    ensures var r := ParseElse(s).value; Ahead(s) == OfElse(r.0) + Ahead(r.1)
    decreases |s.ts|, 2
  {
    hide Ahead, ParseCompoundList, OfList;
    if IsReserved(Cur(s), "else") {
      AdvanceKeeps(s);
      CompoundListKeeps(Advance(s).value);
    }
  }

  lemma {:induction false} LoopKeeps(s: State, keyword: string)
    requires ParseLoop(s, keyword).Ok?
    ensures var r := ParseLoop(s, keyword).value; Ahead(s) == OfCompound(r.0) + Ahead(r.1)
    decreases |s.ts|, 3
  {
    hide Ahead, ExpectReserved, ParseCompoundList, ParseDoGroup, OfList;
    ReservedKeeps(s, keyword);
    var s1 := ExpectReserved(s, keyword).value;
    CompoundListKeeps(s1);
    DoKeeps(ParseCompoundList(s1).value.1);
  }

  /** The here-documents of a program, from first to last, are those written in its
      tokens, each with its delimiter, numbered from the first. */
  lemma DocumentsInOrder(s: State)
    requires ParseProgram(s).Ok?
    ensures OfList(ParseProgram(s).value) == Written(s.ts, s.docs)
  {
    hide ParseCompoundList, OfList;
    CompoundListKeeps(s);
  }

  // -------------------------------------------------------------------- bodies

  /** The text is a body read for doc, from the start of some line. */
  ghost predicate IsBodyOf(body: string, doc: HereDoc) {
    exists text: string :: HeredocBody(text, doc.delimiter, doc.strip, "").Got?
      && HeredocBody(text, doc.delimiter, doc.strip, "").value == body
  }

  function Plain(ds: Docs): (r: seq<HereDoc>)
    ensures |r| == |ds| && forall i :: 0 <= i < |ds| ==> r[i] == ds[i].1
  {
    if ds == [] then [] else [ds[0].1] + Plain(ds[1..])
  }

  /** The here-documents of the tokens when an operator may have come before them. */
  function Registered(ts: seq<Token>, awaiting: Option<bool>): seq<HereDoc> {
    if awaiting.Some? && ts != [] && ts[0].WordTok? then [DocOf(awaiting.value, ts[0].word)] + Plain(Written(ts[1..], 0))
    else Plain(Written(ts, 0))
  }

  lemma {:induction false} NumbersApart(ts: seq<Token>, n: nat, m: nat)
    ensures Plain(Written(ts, n)) == Plain(Written(ts, m))
    decreases |ts|
  {
    if ts == [] || ts[0] == EndOfInput {
    } else if IsHereDocOp(ts[0]) && |ts| > 1 && ts[1].WordTok? {
      NumbersApart(ts[2..], n + 1, m + 1);
    } else {
      NumbersApart(ts[1..], n, m);
    }
  }

  lemma TokenRegisters(t: Token, ts: seq<Token>, pending: seq<HereDoc>, awaiting: Option<bool>)
    requires t != EndOfInput
    ensures pending + Registered([t] + ts, awaiting) == Register(pending, awaiting, t) + Registered(ts, Awaiting(t))
  {
    assert ([t] + ts)[1..] == ts;
    assert ts != [] ==> ([t] + ts)[2..] == ts[1..];
    if IsHereDocOp(t) && ts != [] && ts[0].WordTok? {
      NumbersApart(ts[1..], 0, 1);
    }
  }

  lemma {:induction false} BodiesRead(s: string, docs: seq<HereDoc>, done: seq<string>)
    requires ReadBodies(s, docs, done).Got?
    ensures var r := ReadBodies(s, docs, done).value;
            && |r| == |done| + |docs| && r[..|done|] == done
            && forall i :: 0 <= i < |docs| ==> IsBodyOf(r[|done| + i], docs[i])
    decreases |docs|
  {
    hide HeredocBody;
    if docs != [] {
      var body := HeredocBody(s, docs[0].delimiter, docs[0].strip, "");
      assert IsBodyOf(body.value, docs[0]);
      BodiesRead(body.rest, docs[1..], done + [body.value]);
      var r := ReadBodies(s, docs, done).value;
      assert r[|done|] == r[..|done| + 1][|done|] == body.value;
      assert r[..|done|] == r[..|done| + 1][..|done|];
      forall i | 0 < i < |docs| ensures IsBodyOf(r[|done| + i], docs[i]) {
        assert docs[i] == docs[1..][i - 1];
      }
    }
  }

  ghost predicate Belong(bodies: seq<string>, docs: seq<HereDoc>) {
    |bodies| <= |docs| && forall i :: 0 <= i < |bodies| ==> IsBodyOf(bodies[i], docs[i])
  }

  /** The last line is complete. */
  predicate EndsLine(ts: seq<Token>) {
    ts == [EndOfInput] || (|ts| > 1 && ts[|ts| - 2] == Newline)
  }

  /** The bodies of a text belong to its here-documents, in order; when the last line
      is complete every one has its body. */
  ghost predicate InOrder(all: Lexed, docs: seq<HereDoc>) {
    && Belong(all.bodies, docs)
    && (|all.ts| > 1 && EndsLine(all.ts) ==> |all.bodies| == |docs|)
    && forall i :: 0 <= i < |all.ts| - 1 ==> all.ts[i] != EndOfInput
  }

  lemma {:induction false} BodiesInOrder(s: string, pending: seq<HereDoc>, awaiting: Option<bool>)
    requires LexAll(s, pending, awaiting).clean
    ensures var all := LexAll(s, pending, awaiting); InOrder(all, pending + Registered(all.ts, awaiting))
    decreases |s|
  {
    hide Next, ReadBodies, Registered, InOrder, Register, LexAll, Belong;
    LexFirst(s, pending, awaiting);
    var t, rest := Next(s).value, Next(s).rest;
    if t == EndOfInput {
      EndInOrder(pending + Registered([t], awaiting));
    } else if t == Newline {
      LineBodies(rest, pending);
      var read := ReadBodies(rest, pending, []);
      var more := LexAll(read.rest, [], None);
      BodiesInOrder(read.rest, [], None);
      CleanEnds(read.rest, [], None);
      LineInOrder(read.value, pending, more, awaiting);
    } else {
      var more := LexAll(rest, Register(pending, awaiting, t), Awaiting(t));
      BodiesInOrder(rest, Register(pending, awaiting, t), Awaiting(t));
      CleanEnds(rest, Register(pending, awaiting, t), Awaiting(t));
      TokenInOrder(t, more, pending, awaiting);
    }
  }

  lemma LexFirst(s: string, pending: seq<HereDoc>, awaiting: Option<bool>)
    requires LexAll(s, pending, awaiting).clean
    ensures Next(s).Got? && var t, rest, all := Next(s).value, Next(s).rest, LexAll(s, pending, awaiting);
            && |rest| <= |s| && (t != EndOfInput ==> |rest| < |s|)
            && (t == EndOfInput ==> all == Lexed([EndOfInput], true, []))
            && (t == Newline ==>
                  var read := ReadBodies(rest, pending, []);
                  && read.Got? && |read.rest| <= |rest|
                  && var more := LexAll(read.rest, [], None);
                     more.clean && all == Cons(t, more.(bodies := read.value + more.bodies)))
            && (t != EndOfInput && t != Newline ==>
                  var more := LexAll(rest, Register(pending, awaiting, t), Awaiting(t));
                  more.clean && all == Cons(t, more))
  {
    hide Next, ReadBodies, Register;
  }

  lemma LineBodies(s: string, docs: seq<HereDoc>)
    requires ReadBodies(s, docs, []).Got?
    ensures var r := ReadBodies(s, docs, []).value; |r| == |docs| && Belong(r, docs)
  {
    hide ReadBodies, IsBodyOf;
    BodiesRead(s, docs, []);
  }

  lemma CleanEnds(s: string, pending: seq<HereDoc>, awaiting: Option<bool>)
    requires LexAll(s, pending, awaiting).clean
    ensures var ts := LexAll(s, pending, awaiting).ts; ts != [] && ts[|ts| - 1] == EndOfInput
  {
  }

  lemma EndInOrder(docs: seq<HereDoc>)
    ensures InOrder(Lexed([EndOfInput], true, []), docs)
  {
  }

  lemma TokenInOrder(t: Token, more: Lexed, pending: seq<HereDoc>, awaiting: Option<bool>)
    requires t != EndOfInput && t != Newline && more.ts != []
    requires InOrder(more, Register(pending, awaiting, t) + Registered(more.ts, Awaiting(t)))
    ensures InOrder(Cons(t, more), pending + Registered([t] + more.ts, awaiting))
  {
    hide Registered, IsBodyOf, Register;
    TokenRegisters(t, more.ts, pending, awaiting);
    ConsEnds(t, more.ts);
  }

  lemma ConsEnds(t: Token, ts: seq<Token>)
    requires ts != []
    ensures EndsLine([t] + ts) ==> (|ts| > 1 && EndsLine(ts)) || (|ts| == 1 && t == Newline)
  {
    assert |ts| > 1 ==> ([t] + ts)[|ts| - 1] == ts[|ts| - 2];
  }

  lemma LineInOrder(bodies: seq<string>, pending: seq<HereDoc>, more: Lexed, awaiting: Option<bool>)
    requires |bodies| == |pending| && Belong(bodies, pending) && more.clean
    requires InOrder(more, [] + Registered(more.ts, None)) && more.ts != [] && more.ts[|more.ts| - 1] == EndOfInput
    ensures InOrder(Cons(Newline, more.(bodies := bodies + more.bodies)), pending + Registered([Newline] + more.ts, awaiting))
  {
    hide Registered, IsBodyOf, Register;
    TokenRegisters(Newline, more.ts, pending, awaiting);
    NoneRegistered(pending, awaiting);
    ConsEnds(Newline, more.ts);
    assert [] + Registered(more.ts, None) == Registered(more.ts, None);
    if |more.ts| == 1 {
      assert more.ts == [EndOfInput];
    }
  }

  lemma NoneRegistered(pending: seq<HereDoc>, awaiting: Option<bool>)
    ensures Register(pending, awaiting, Newline) == pending && Awaiting(Newline) == None
    ensures Registered([EndOfInput], None) == []
  {
  }

  /** From the text to the tree: the here-documents of the program are numbered from
      0 in the order written, and body i was read for the one numbered i. */
  lemma EachGetsItsBody(s: string)
    requires var all := LexAll(s, [], None); all.clean && ParseProgram(Stream(all.ts, true, 0)).Ok?
    ensures var all := LexAll(s, [], None);
            var docs := OfList(ParseProgram(Stream(all.ts, true, 0)).value);
            && (forall i :: 0 <= i < |docs| ==> docs[i].0 == i)
            && |all.bodies| <= |docs|
            && (forall i :: 0 <= i < |all.bodies| ==> IsBodyOf(all.bodies[i], docs[i].1))
            && (EndsLine(all.ts) ==> |all.bodies| == |docs|)
  {
    hide LexAll, ParseProgram, Written, OfList, IsBodyOf;
    var all := LexAll(s, [], None);
    BodiesInOrder(s, [], None);
    DocumentsInOrder(Stream(all.ts, true, 0));
    Numbered(all.ts, 0);
    assert [] + Registered(all.ts, None) == Plain(Written(all.ts, 0));
    if all.ts == [EndOfInput] {
      NoneRegistered([], None);
    }
  }

  lemma {:induction false} Numbered(ts: seq<Token>, n: nat)
    ensures forall i :: 0 <= i < |Written(ts, n)| ==> Written(ts, n)[i].0 == n + i
    decreases |ts|
  {
    if ts == [] || ts[0] == EndOfInput {
    } else if IsHereDocOp(ts[0]) && |ts| > 1 && ts[1].WordTok? {
      Numbered(ts[2..], n + 1);
    } else {
      Numbered(ts[1..], n);
    }
  }
}
