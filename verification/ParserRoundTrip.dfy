/** Command trees survive being written as tokens and parsed again, in any layout.
    Emit writes a tree in front of the tokens k; WellFormed says which trees then
    come back (without here-documents). */
module ParserRoundTrip {
  import opened Prelude
  import opened Numbers
  import opened Tokens
  import opened Ast
  import opened ParserSpec

  // ----------------------------------------------------------------- layout

  /** The choices the grammar leaves, at each place told by the tokens still to come:
      how many newlines stand where a linebreak may, whether a sequential separator is
      a newline, and whether a token that may be left out is written. */
  datatype Layout = Layout(
    lines: seq<Token> -> nat,
    newline: seq<Token> -> bool,
    optional: (Token, seq<Token>) -> bool)

  /** On one line. */
  function OneLine(): Layout {
    Layout(k => 0, k => false, (t, k) => t != Semi)
  }

  function Lines(n: nat, k: seq<Token>): (r: seq<Token>)
    ensures |r| == n + |k|
  {
    if n == 0 then k else [Newline] + Lines(n - 1, k)
  }

  function Break(y: Layout, k: seq<Token>): (r: seq<Token>)
    ensures |r| >= |k|
  {
    Lines(y.lines(k), k)
  }

  // ----------------------------------------------------------------- tokens

  function Keyword(w: string): Token {
    WordTok([Literal(w)])
  }

  function EmitWords(ws: seq<Word>, k: seq<Token>): (r: seq<Token>)
    ensures k != [] ==> r != []
  {
    if ws == [] then k else [WordTok(ws[0])] + EmitWords(ws[1..], k)
  }

  function AssignmentWord(a: Assignment): Word {
    if a.value != [] && a.value[0].Literal? then
      [Literal(a.name + "=" + a.value[0].text)] + a.value[1..]
    else
      [Literal(a.name + "=")] + a.value
  }

  function EmitAssignments(xs: seq<Assignment>, k: seq<Token>): (r: seq<Token>)
    ensures k != [] ==> r != []
  {
    if xs == [] then k else [WordTok(AssignmentWord(xs[0]))] + EmitAssignments(xs[1..], k)
  }

  function EmitRedirect(r: Redirect, k: seq<Token>): (ts: seq<Token>)
    ensures ts != []
  {
    var w := if r.target.WordTarget? then r.target.word else [];
    (if r.ioNumber.Some? then [IoNumber(ToDecimal(r.ioNumber.value))] else []) + ([r.op] + ([WordTok(w)] + k))
  }

  function EmitRedirects(rs: seq<Redirect>, k: seq<Token>): (r: seq<Token>)
    ensures k != [] ==> r != []
  {
    if rs == [] then k else EmitRedirect(rs[0], EmitRedirects(rs[1..], k))
  }

  function EmitSimple(c: SimpleCommand, k: seq<Token>): (r: seq<Token>)
    ensures k != [] ==> r != []
  {
    EmitAssignments(c.assignments, EmitWords(c.words, EmitRedirects(c.redirects, k)))
  }

  function EmitPatterns(ps: seq<Word>, k: seq<Token>): (r: seq<Token>)
    ensures k != [] ==> r != []
  {
    if ps == [] then k
    else if |ps| == 1 then [WordTok(ps[0])] + k
    else [WordTok(ps[0])] + ([Pipe] + EmitPatterns(ps[1..], k))
  }

  function EmitSeparator(y: Layout, sep: Separator, k: seq<Token>): (r: seq<Token>)
    ensures k != [] ==> r != []
  {
    match sep
    case NoSeparator => k
    case Sequential => [if y.newline(k) then Newline else Semi] + Break(y, k)
    case Async => [And] + Break(y, k)
  }

  function EmitList(y: Layout, list: List, k: seq<Token>): (r: seq<Token>)
    ensures k != [] ==> r != []
    decreases list, 0
  {
    Break(y, EmitItems(y, list.items, k))
  }

  function EmitItems(y: Layout, items: seq<ListItem>, k: seq<Token>): (r: seq<Token>)
    ensures k != [] ==> r != []
    decreases items
  {
    if items == [] then k else EmitItem(y, items[0], EmitItems(y, items[1..], k))
  }

  function EmitItem(y: Layout, item: ListItem, k: seq<Token>): (r: seq<Token>)
    ensures k != [] ==> r != []
    decreases item
  {
    EmitAndOr(y, item.andOr, EmitSeparator(y, item.sep, k))
  }

  function EmitAndOr(y: Layout, a: AndOr, k: seq<Token>): (r: seq<Token>)
    ensures k != [] ==> r != []
    decreases a
  {
    EmitPipeline(y, a.first, EmitParts(y, a.rest, k))
  }

  function EmitParts(y: Layout, parts: seq<AndOrPart>, k: seq<Token>): (r: seq<Token>)
    ensures k != [] ==> r != []
    decreases parts
  {
    if parts == [] then k else EmitPart(y, parts[0], EmitParts(y, parts[1..], k))
  }

  function EmitPart(y: Layout, part: AndOrPart, k: seq<Token>): (r: seq<Token>)
    ensures r != []
    decreases part
  {
    [if part.isAnd then AndIf else OrIf] + Break(y, EmitPipeline(y, part.pipeline, k))
  }

  function EmitPipeline(y: Layout, p: Pipeline, k: seq<Token>): (r: seq<Token>)
    ensures k != [] ==> r != []
    decreases p
  {
    if p.negated then [Keyword("!")] + EmitCommands(y, p.commands, k) else EmitCommands(y, p.commands, k)
  }

  function EmitCommands(y: Layout, cs: seq<Command>, k: seq<Token>): (r: seq<Token>)
    ensures k != [] ==> r != []
    decreases cs
  {
    if cs == [] then k else EmitCommand(y, cs[0], EmitMore(y, cs[1..], k))
  }

  function EmitMore(y: Layout, cs: seq<Command>, k: seq<Token>): (r: seq<Token>)
    ensures k != [] ==> r != []
    decreases cs
  {
    if cs == [] then k else [Pipe] + Break(y, EmitCommand(y, cs[0], EmitMore(y, cs[1..], k)))
  }

  function EmitCommand(y: Layout, c: Command, k: seq<Token>): (r: seq<Token>)
    ensures k != [] ==> r != []
    decreases c
  {
    match c
    case Simple(cmd) => EmitSimple(cmd, k)
    case Compound(body, redirects) => EmitCompound(y, body, EmitRedirects(redirects, k))
    case FunctionDefinition(name, body, redirects) =>
      [Keyword(name)] + ([LParen] + ([RParen] + Break(y, EmitCompound(y, body, EmitRedirects(redirects, k)))))
  }

  function EmitDoGroup(y: Layout, list: List, k: seq<Token>): (r: seq<Token>)
    ensures r != []
    decreases list, 1
  {
    [Keyword("do")] + EmitList(y, list, [Keyword("done")] + k)
  }

  /** What stands between the name of a for clause and its do. */
  function EmitForWords(y: Layout, words: Option<seq<Word>>, k: seq<Token>): (r: seq<Token>)
    ensures k != [] ==> r != []
  {
    if words.Some? then Break(y, [Keyword("in")] + EmitWords(words.value, EmitSeparator(y, Sequential, k)))
    else if y.optional(Semi, k) then [Semi] + Break(y, k)
    else Break(y, k)
  }

  function EmitCompound(y: Layout, c: CompoundCommand, k: seq<Token>): (r: seq<Token>)
    ensures r != []
    decreases c
  {
    match c
    case BraceGroup(list) => [Keyword("{")] + EmitList(y, list, [Keyword("}")] + k)
    case Subshell(list) => [LParen] + EmitList(y, list, [RParen] + k)
    case ForClause(name, words, list) =>
      [Keyword("for")] + ([Keyword(name)] + EmitForWords(y, words, EmitDoGroup(y, list, k)))
    case CaseClause(subject, items) =>
      [Keyword("case")] + ([WordTok(subject)] +
      Break(y, [Keyword("in")] + Break(y, EmitCaseItems(y, items, [Keyword("esac")] + k))))
    case IfClause(branches, elseBranch) =>
      var tail := EmitElse(y, elseBranch, [Keyword("fi")] + k);
      if branches == [] then tail
      else [Keyword("if")] + EmitBranch(y, branches[0], EmitBranches(y, branches[1..], tail))
    case WhileClause(cond, list) => [Keyword("while")] + EmitList(y, cond, EmitDoGroup(y, list, k))
    case UntilClause(cond, list) => [Keyword("until")] + EmitList(y, cond, EmitDoGroup(y, list, k))
  }

  /** The last `;;` may be left out when the body could stand before a word. */
  predicate EndsWithSemis(y: Layout, items: seq<CaseItem>, k: seq<Token>) {
    |items| != 1 || !WellFormedItems(items[0].body.items, true) || y.optional(DSemi, k)
  }

  function EmitCaseItems(y: Layout, items: seq<CaseItem>, k: seq<Token>): (r: seq<Token>)
    ensures k != [] ==> r != []
    decreases items
  {
    if items == [] then k
    else if EndsWithSemis(y, items, k) then EmitCaseItem(y, items[0], [DSemi] + Break(y, EmitCaseItems(y, items[1..], k)))
    else EmitCaseItem(y, items[0], k)
  }

  function EmitCaseItem(y: Layout, item: CaseItem, k: seq<Token>): (r: seq<Token>)
    ensures k != [] ==> r != []
    decreases item
  {
    var rest := EmitPatterns(item.patterns, [RParen] + EmitList(y, item.body, k));
    if NeedsParen(item) || y.optional(LParen, rest) then [LParen] + rest else rest
  }

  /** The word esac can only be the first pattern after a parenthesis. */
  predicate NeedsParen(item: CaseItem) {
    item.patterns != [] && IsReserved(WordTok(item.patterns[0]), "esac")
  }

  function EmitBranches(y: Layout, branches: seq<Branch>, k: seq<Token>): (r: seq<Token>)
    ensures k != [] ==> r != []
    decreases branches
  {
    if branches == [] then k
    else [Keyword("elif")] + EmitBranch(y, branches[0], EmitBranches(y, branches[1..], k))
  }

  function EmitBranch(y: Layout, branch: Branch, k: seq<Token>): (r: seq<Token>)
    ensures r != []
    decreases branch
  {
    EmitList(y, branch.cond, [Keyword("then")] + EmitList(y, branch.body, k))
  }

  function EmitElse(y: Layout, elseBranch: Option<List>, k: seq<Token>): (r: seq<Token>)
    ensures k != [] ==> r != []
    decreases elseBranch
  {
    if elseBranch.Some? then [Keyword("else")] + EmitList(y, elseBranch.value, k) else k
  }

  // ------------------------------------------------------------ well-formed

  /** A list may end without a separator only before `)`, `;;` or the end. */
  predicate WellFormedItems(items: seq<ListItem>, beforeWord: bool)
    decreases items
  {
    items != [] ==>
      && WellFormedItem(items[0])
      && (items[0].sep == NoSeparator ==> |items| == 1 && !beforeWord)
      && WellFormedItems(items[1..], beforeWord)
  }

  predicate WellFormedItem(item: ListItem)
    decreases item
  {
    WellFormedAndOr(item.andOr)
  }

  predicate WellFormedAndOr(a: AndOr)
    decreases a
  {
    WellFormedPipeline(a.first) && forall i :: 0 <= i < |a.rest| ==> WellFormedPipeline(a.rest[i].pipeline)
  }

  predicate WellFormedPipeline(p: Pipeline)
    decreases p
  {
    p.commands != [] && forall i :: 0 <= i < |p.commands| ==> WellFormedCommand(p.commands[i])
  }

  predicate StartsNoCommand(t: Token) {
    IsReserved(t, "!") || IsCloser(t) || StartsCompound(t)
  }

  predicate WellFormedRedirect(r: Redirect) {
    IsRedirectOp(r.op) && !IsHereDocOp(r.op) && r.target.WordTarget?
  }

  predicate WellFormedRedirects(rs: seq<Redirect>) {
    forall i :: 0 <= i < |rs| ==> WellFormedRedirect(rs[i])
  }

  predicate WellFormedAssignment(a: Assignment) {
    IsName(a.name) && (a.value != [] ==> a.value[0] != Literal(""))
  }

  predicate WellFormedSimple(c: SimpleCommand) {
    && c != SimpleCommand([], [], [])
    && (forall i :: 0 <= i < |c.assignments| ==> WellFormedAssignment(c.assignments[i]))
    && (c.words != [] ==> TrySplitAssignment(c.words[0]) == None)
    && (c.words != [] && c.assignments == [] ==> !StartsNoCommand(WordTok(c.words[0])))
    && WellFormedRedirects(c.redirects)
  }

  predicate WellFormedCommand(c: Command)
    decreases c
  {
    match c
    case Simple(cmd) => WellFormedSimple(cmd)
    case Compound(body, redirects) => WellFormedCompound(body) && WellFormedRedirects(redirects)
    case FunctionDefinition(name, body, redirects) =>
      && IsName(name) && !StartsNoCommand(Keyword(name))
      && WellFormedCompound(body) && WellFormedRedirects(redirects)
  }

  predicate WellFormedCompound(c: CompoundCommand)
    decreases c
  {
    match c
    case BraceGroup(list) => WellFormedItems(list.items, true)
    case Subshell(list) => WellFormedItems(list.items, false)
    case ForClause(name, _, list) => IsName(name) && WellFormedItems(list.items, true)
    case CaseClause(_, items) =>
      forall i :: 0 <= i < |items| ==> items[i].patterns != [] && WellFormedItems(items[i].body.items, false)
    case IfClause(branches, elseBranch) =>
      && branches != []
      && (forall i :: 0 <= i < |branches| ==>
            WellFormedItems(branches[i].cond.items, true) && WellFormedItems(branches[i].body.items, true))
      && (elseBranch.Some? ==> WellFormedItems(elseBranch.value.items, true))
    case WhileClause(cond, list) => WellFormedItems(cond.items, true) && WellFormedItems(list.items, true)
    case UntilClause(cond, list) => WellFormedItems(cond.items, true) && WellFormedItems(list.items, true)
  }

  // --------------------------------------------------------- what may follow

  predicate EndsList(t: Token) {
    t == RParen || t == DSemi || t == EndOfInput
  }

  predicate EndsAndOr(t: Token) {
    EndsList(t) || t == Semi || t == And || t == Newline
  }

  predicate EndsPipeline(t: Token) {
    EndsAndOr(t) || t == AndIf || t == OrIf
  }

  predicate EndsCommand(t: Token) {
    EndsPipeline(t) || t == Pipe
  }

  function On(z: Stream, ts: seq<Token>): State
    requires ts != []
  {
    z.(ts := ts)
  }

  lemma Step(z: Stream, t: Token, k: seq<Token>)
    requires k != [] && t != EndOfInput
    ensures Cur(On(z, [t] + k)) == t && Advance(On(z, [t] + k)) == Ok(On(z, k))
  {
    assert ([t] + k)[1..] == k;
  }

  /** Any number of newlines is one linebreak. */
  lemma {:induction false} LinesAreSkipped(n: nat, z: Stream, k: seq<Token>)
    requires k != [] && k[0] != Newline
    ensures SkipLinebreak(On(z, Lines(n, k))) == Ok(On(z, k))
    decreases n
  {
    if n > 0 {
      Step(z, Newline, Lines(n - 1, k));
      LinesAreSkipped(n - 1, z, k);
    }
  }

  lemma BreakIsSkipped(y: Layout, z: Stream, k: seq<Token>)
    requires k != [] && k[0] != Newline
    ensures SkipLinebreak(On(z, Break(y, k))) == Ok(On(z, k))
  {
    LinesAreSkipped(y.lines(k), z, k);
  }

  // ------------------------------------------------------- simple commands

  lemma {:induction false} FindEqualsAt(name: string, rest: string)
    requires '=' !in name
    ensures FindEquals(name + "=" + rest) == |name|
  {
    var s := name + "=" + rest;
    if name != "" {
      assert s[1..] == name[1..] + "=" + rest;
      FindEqualsAt(name[1..], rest);
    }
  }

  lemma NameHasNoEquals(name: string)
    requires IsName(name)
    ensures '=' !in name
  {
    if '=' in name {
      var i :| 0 <= i < |name| && name[i] == '=';
    }
  }

  lemma ReservedWordsLackEquals(text: string, i: nat)
    requires i < |text| && text[i] == '='
    ensures !StartsNoCommand(WordTok([Literal(text)])) && !IsName(text)
  {
    assert i == 0 || !IsNameChar(text[i]);
    assert '=' !in "!" && '=' !in "}" && '=' !in "then" && '=' !in "do" && '=' !in "done" && '=' !in "fi";
    assert '=' !in "esac" && '=' !in "elif" && '=' !in "else" && '=' !in "{" && '=' !in "for" && '=' !in "case";
    assert '=' !in "if" && '=' !in "while" && '=' !in "until";
    assert '=' in text;
  }

  lemma SplitOf(name: string, tail: string, more: Word)
    requires IsName(name)
    ensures TrySplitAssignment([Literal(name + "=" + tail)] + more)
         == Some(Assignment(name, (if tail == "" then [] else [Literal(tail)]) + more))
  {
    hide FindEquals, IsName;
    NameHasNoEquals(name);
    FindEqualsAt(name, tail);
    var first := name + "=" + tail;
    assert first[..|name|] == name && first[|name| + 1..] == tail;
    var w := [Literal(first)] + more;
    assert w[0].text == first && w[1..] == more;
  }

  lemma SplitBack(a: Assignment)
    requires WellFormedAssignment(a)
    ensures TrySplitAssignment(AssignmentWord(a)) == Some(a)
    ensures !StartsNoCommand(WordTok(AssignmentWord(a))) && !IsPlainName(WordTok(AssignmentWord(a)))
  {
    hide TrySplitAssignment, IsName, StartsNoCommand;
    var merged := a.value != [] && a.value[0].Literal?;
    var tail := if merged then a.value[0].text else "";
    var first := a.name + "=" + tail;
    assert tail == "" ==> first == a.name + "=";
    ReservedWordsLackEquals(first, |a.name|);
    if merged {
      SplitOf(a.name, tail, a.value[1..]);
      assert [Literal(tail)] + a.value[1..] == a.value;
    } else {
      SplitOf(a.name, tail, a.value);
      assert [] + a.value == a.value;
    }
    NotPlain(AssignmentWord(a), first);
  }

  lemma NotPlain(w: Word, first: string)
    requires w != [] && w[0] == Literal(first) && !IsName(first) && !StartsNoCommand(WordTok([Literal(first)]))
    ensures !StartsNoCommand(WordTok(w)) && !IsPlainName(WordTok(w))
  {
    if |w| == 1 {
      assert w == [Literal(first)];
    } else {
      assert !IsName("");
    }
  }

  lemma RedirectBack(r: Redirect, z: Stream, k: seq<Token>)
    requires WellFormedRedirect(r) && k != []
    ensures StartsRedirect(EmitRedirect(r, k)[0])
    ensures ParseRedirect(On(z, EmitRedirect(r, k))) == Ok((r, On(z, k)))
  {
    var word := [WordTok(r.target.word)] + k;
    var op := [r.op] + word;
    Step(z, r.op, word);
    Step(z, WordTok(r.target.word), k);
    assert ParseTarget(On(z, word), r.op) == Ok((r.target, On(z, k)));
    if r.ioNumber.Some? {
      Step(z, IoNumber(ToDecimal(r.ioNumber.value)), op);
      DecimalRoundTrip(r.ioNumber.value);
    } else {
      assert [] + op == op;
    }
    assert ParseIoNumber(On(z, EmitRedirect(r, k))) == Ok((r.ioNumber, On(z, op)));
  }

  lemma RedirectListStep(r: Redirect, done: seq<Redirect>, z: Stream, k: seq<Token>)
    requires WellFormedRedirect(r) && k != []
    ensures ParseRedirectList(On(z, EmitRedirect(r, k)), done) == ParseRedirectList(On(z, k), done + [r])
  {
    hide ParseRedirect, EmitRedirect;
    RedirectBack(r, z, k);
  }

  lemma RedirectListStops(done: seq<Redirect>, z: Stream, k: seq<Token>)
    requires k != [] && !StartsRedirect(k[0])
    ensures ParseRedirectList(On(z, k), done) == Ok((done, On(z, k)))
  {
  }

  lemma {:induction false} RedirectListBack(rs: seq<Redirect>, done: seq<Redirect>, z: Stream, k: seq<Token>)
    requires WellFormedRedirects(rs) && k != [] && !StartsRedirect(k[0])
    ensures ParseRedirectList(On(z, EmitRedirects(rs, k)), done) == Ok((done + rs, On(z, k)))
    decreases |rs|
  {
    hide ParseRedirectList, EmitRedirect, WellFormedRedirect, StartsRedirect;
    if rs == [] {
      assert done + rs == done;
      RedirectListStops(done, z, k);
    } else {
      RedirectListStep(rs[0], done, z, EmitRedirects(rs[1..], k));
      RedirectListBack(rs[1..], done + [rs[0]], z, k);
      assert done + [rs[0]] + rs[1..] == done + rs;
    }
  }

  lemma SimpleRedirect(r: Redirect, cmd: SimpleCommand, z: Stream, k: seq<Token>)
    requires WellFormedRedirect(r) && k != []
    ensures ParseSimpleCommand(On(z, EmitRedirect(r, k)), cmd)
         == ParseSimpleCommand(On(z, k), cmd.(redirects := cmd.redirects + [r]))
  {
    hide ParseRedirect, EmitRedirect, TrySplitAssignment;
    RedirectBack(r, z, k);
  }

  lemma SimpleStops(cmd: SimpleCommand, z: Stream, k: seq<Token>)
    requires k != [] && EndsCommand(k[0]) && cmd != SimpleCommand([], [], [])
    ensures ParseSimpleCommand(On(z, k), cmd) == Ok((cmd, On(z, k)))
  {
    hide ParseRedirect, TrySplitAssignment;
  }

  lemma {:induction false} SimpleRedirects(rs: seq<Redirect>, cmd: SimpleCommand, z: Stream, k: seq<Token>)
    requires WellFormedRedirects(rs) && k != [] && EndsCommand(k[0])
    requires rs == [] ==> cmd != SimpleCommand([], [], [])
    ensures ParseSimpleCommand(On(z, EmitRedirects(rs, k)), cmd)
         == Ok((cmd.(redirects := cmd.redirects + rs), On(z, k)))
    decreases |rs|
  {
    hide ParseSimpleCommand, EmitRedirect, WellFormedRedirect, EndsCommand;
    if rs == [] {
      assert cmd.redirects + rs == cmd.redirects;
      SimpleStops(cmd, z, k);
    } else {
      SimpleRedirect(rs[0], cmd, z, EmitRedirects(rs[1..], k));
      var next := cmd.(redirects := cmd.redirects + [rs[0]]);
      SimpleRedirects(rs[1..], next, z, k);
      assert next.redirects + rs[1..] == cmd.redirects + rs;
    }
  }

  lemma SimpleWord(w: Word, cmd: SimpleCommand, z: Stream, k: seq<Token>)
    requires k != [] && (cmd.words == [] ==> TrySplitAssignment(w) == None)
    ensures ParseSimpleCommand(On(z, [WordTok(w)] + k), cmd)
         == ParseSimpleCommand(On(z, k), cmd.(words := cmd.words + [w]))
  {
    hide ParseRedirect, TrySplitAssignment;
    Step(z, WordTok(w), k);
  }

  lemma {:induction false} SimpleWords(ws: seq<Word>, rs: seq<Redirect>, cmd: SimpleCommand, z: Stream, k: seq<Token>)
    requires WellFormedRedirects(rs) && k != [] && EndsCommand(k[0])
    requires ws == [] && rs == [] ==> cmd != SimpleCommand([], [], [])
    requires ws != [] && cmd.words == [] ==> TrySplitAssignment(ws[0]) == None
    ensures ParseSimpleCommand(On(z, EmitWords(ws, EmitRedirects(rs, k))), cmd)
         == Ok((cmd.(words := cmd.words + ws, redirects := cmd.redirects + rs), On(z, k)))
    decreases |ws|
  {
    hide ParseSimpleCommand, EmitRedirects, TrySplitAssignment, WellFormedRedirects, EndsCommand;
    if ws == [] {
      SimpleRedirects(rs, cmd, z, k);
      assert cmd.words + ws == cmd.words;
    } else {
      SimpleWord(ws[0], cmd, z, EmitWords(ws[1..], EmitRedirects(rs, k)));
      var next := cmd.(words := cmd.words + [ws[0]]);
      SimpleWords(ws[1..], rs, next, z, k);
      assert next.words + ws[1..] == cmd.words + ws;
    }
  }

  lemma SimpleAssignment(a: Assignment, done: seq<Assignment>, z: Stream, k: seq<Token>)
    requires WellFormedAssignment(a) && k != []
    ensures ParseSimpleCommand(On(z, [WordTok(AssignmentWord(a))] + k), SimpleCommand(done, [], []))
         == ParseSimpleCommand(On(z, k), SimpleCommand(done + [a], [], []))
  {
    hide ParseRedirect, TrySplitAssignment, AssignmentWord;
    Step(z, WordTok(AssignmentWord(a)), k);
    SplitBack(a);
  }

  lemma {:induction false} SimpleAssignments(xs: seq<Assignment>, c: SimpleCommand, done: seq<Assignment>, z: Stream,
                                             k: seq<Token>)
    requires WellFormedSimple(c) && c.assignments == done + xs && k != [] && EndsCommand(k[0])
    ensures ParseSimpleCommand(On(z, EmitAssignments(xs, EmitWords(c.words, EmitRedirects(c.redirects, k)))),
                               SimpleCommand(done, [], []))
         == Ok((c, On(z, k)))
    decreases |xs|
  {
    hide ParseSimpleCommand, EmitRedirects, EmitWords, TrySplitAssignment, AssignmentWord, StartsNoCommand,
         WellFormedAssignment, WellFormedRedirects, EndsCommand;
    var tail := EmitWords(c.words, EmitRedirects(c.redirects, k));
    if xs == [] {
      assert done + xs == done;
      SimpleWords(c.words, c.redirects, SimpleCommand(done, [], []), z, k);
      assert [] + c.words == c.words && [] + c.redirects == c.redirects;
    } else {
      assert xs[0] == c.assignments[|done|];
      SimpleAssignment(xs[0], done, z, EmitAssignments(xs[1..], tail));
      assert done + [xs[0]] + xs[1..] == done + xs;
      SimpleAssignments(xs[1..], c, done + [xs[0]], z, k);
    }
  }

  lemma RedirectsHead(rs: seq<Redirect>, k: seq<Token>)
    requires WellFormedRedirects(rs) && k != []
    ensures var t := EmitRedirects(rs, k)[0]; t == k[0] || StartsRedirect(t)
  {
    if rs != [] {
      assert WellFormedRedirect(rs[0]);
    }
  }

  lemma WordsHead(ws: seq<Word>, k: seq<Token>)
    requires k != []
    ensures var t := EmitWords(ws, k)[0]; if ws == [] then t == k[0] else t == WordTok(ws[0])
  {
  }

  /** How a simple command begins: never like a list end, a compound command, or
      a function definition. */
  lemma SimpleHead(c: SimpleCommand, z: Stream, k: seq<Token>)
    requires WellFormedSimple(c) && k != [] && EndsCommand(k[0])
    ensures var t := EmitSimple(c, k)[0]; CanStartCommand(t) && !IsReserved(t, "!") && !StartsCompound(t)
    ensures LooksLikeFunction(On(z, EmitSimple(c, k))) == Ok(false)
  {
    hide EmitRedirects, TrySplitAssignment, AssignmentWord;
    RedirectsHead(c.redirects, k);
    var redirects := EmitRedirects(c.redirects, k);
    WordsHead(c.words, redirects);
    if c.assignments != [] {
      SplitBack(c.assignments[0]);
    } else if c.words != [] {
      WordsHead(c.words[1..], redirects);
      assert EmitSimple(c, k)[1] == EmitWords(c.words[1..], redirects)[0];
    } else {
      RedirectsNonEmptyHead(c.redirects, k);
    }
  }

  lemma RedirectsNonEmptyHead(rs: seq<Redirect>, k: seq<Token>)
    requires WellFormedRedirects(rs) && k != [] && rs != []
    ensures StartsRedirect(EmitRedirects(rs, k)[0])
  {
    assert WellFormedRedirect(rs[0]);
  }

  lemma SimpleBack(c: SimpleCommand, z: Stream, k: seq<Token>)
    requires WellFormedSimple(c) && k != [] && EndsCommand(k[0])
    ensures ParseCommand(On(z, EmitSimple(c, k))) == Ok((Simple(c), On(z, k)))
  {
    hide ParseSimpleCommand, LooksLikeFunction, ParseCompoundBody, ParseFunctionDefinition, EmitAssignments;
    SimpleHead(c, z, k);
    assert [] + c.assignments == c.assignments;
    SimpleAssignments(c.assignments, c, [], z, k);
  }

  // ------------------------------------------------------------------ heads

  lemma CommandHead(y: Layout, c: Command, k: seq<Token>)
    requires WellFormedCommand(c) && k != [] && EndsCommand(k[0])
    ensures var t := EmitCommand(y, c, k)[0]; CanStartCommand(t) && !IsReserved(t, "!")
  {
    if c.Simple? {
      SimpleHead(c.cmd, Stream([], true, 0), k);
    } else if c.Compound? {
      CompoundHead(y, c.body, EmitRedirects(c.redirects, k));
    }
  }

  lemma KeywordsDiffer()
    ensures forall w | w in {"{", "for", "case", "if", "while", "until"} ::
              CanStartCommand(Keyword(w)) && !IsReserved(Keyword(w), "!")
  {
    assert "for"[1] == 'o' && "case"[1] == 'a' && "while"[0] == 'w' && "until"[0] == 'u';
    assert "then"[0] == 't' && "done"[0] == 'd' && "esac"[0] == 'e' && "elif"[0] == 'e' && "else"[0] == 'e';
    assert "do"[0] == 'd' && "fi"[0] == 'f' && "if"[0] == 'i' && "{"[0] == '{' && "}"[0] == '}' && "!"[0] == '!';
  }

  lemma CompoundHead(y: Layout, c: CompoundCommand, k: seq<Token>)
    requires WellFormedCompound(c)
    ensures var t := EmitCompound(y, c, k)[0]; CanStartCommand(t) && !IsReserved(t, "!") && StartsCompound(t)
  {
    hide EmitList, EmitDoGroup, EmitCaseItems, EmitForWords, EmitBranch, EmitBranches, EmitElse, Break, WellFormedItems;
    KeywordsDiffer();
  }

  lemma PipelineHead(y: Layout, p: Pipeline, k: seq<Token>)
    requires WellFormedPipeline(p) && k != [] && EndsPipeline(k[0])
    ensures CanStartCommand(EmitPipeline(y, p, k)[0])
    ensures p.negated == IsReserved(EmitPipeline(y, p, k)[0], "!")
  {
    hide EmitCommand, WellFormedCommand;
    assert WellFormedCommand(p.commands[0]);
    var more := EmitMore(y, p.commands[1..], k);
    assert EndsCommand(more[0]);
    CommandHead(y, p.commands[0], more);
    assert "!" != "}" && "!" != "then" && "!" != "do" && "!" != "done" && "!" != "fi";
  }

  lemma PartsHead(y: Layout, parts: seq<AndOrPart>, k: seq<Token>)
    requires k != [] && EndsAndOr(k[0])
    ensures EndsPipeline(EmitParts(y, parts, k)[0])
  {
  }

  lemma ItemsHead(y: Layout, items: seq<ListItem>, beforeWord: bool, k: seq<Token>)
    requires WellFormedItems(items, beforeWord) && k != []
    requires if beforeWord then IsCloser(k[0]) else EndsList(k[0])
    ensures EmitItems(y, items, k)[0] != Newline
    ensures items != [] ==> CanStartCommand(EmitItems(y, items, k)[0])
  {
    hide EmitPipeline, EmitParts, WellFormedPipeline;
    if items != [] {
      var after := EmitSeparator(y, items[0].sep, EmitItems(y, items[1..], k));
      assert WellFormedItem(items[0]) && WellFormedAndOr(items[0].andOr);
      assert EmitItems(y, items, k) == EmitItem(y, items[0], EmitItems(y, items[1..], k));
      assert EmitItem(y, items[0], EmitItems(y, items[1..], k)) == EmitAndOr(y, items[0].andOr, after);
      assert EndsAndOr(after[0]);
      PartsHead(y, items[0].andOr.rest, after);
      PipelineHead(y, items[0].andOr.first, EmitParts(y, items[0].andOr.rest, after));
    }
  }

  // ------------------------------------------------------------ round trips

  /** Not every parsed tree is well-formed: after a redirection `if` is an ordinary
      word, and written first, as Emit would, it is not. */
  lemma RedirectHidesReserved(y: Layout, r: Redirect, z: Stream, k: seq<Token>)
    requires WellFormedRedirect(r) && k != [] && EndsCommand(k[0])
    ensures var cmd := SimpleCommand([], [[Literal("if")]], [r]);
            && ParseCommand(On(z, EmitRedirect(r, [Keyword("if")] + k))) == Ok((Simple(cmd), On(z, k)))
            && !WellFormedCommand(Simple(cmd)) && StartsCompound(EmitCommand(y, Simple(cmd), k)[0])
  {
    hide WellFormedCommand, EmitCommand, StartsCompound, ParseCommand, EmitRedirect, EndsCommand;
    RedirectFirst(r, z, k);
    WrittenFirst(y, r, k);
  }

  lemma RedirectFirst(r: Redirect, z: Stream, k: seq<Token>)
    requires WellFormedRedirect(r) && k != [] && EndsCommand(k[0])
    ensures ParseCommand(On(z, EmitRedirect(r, [Keyword("if")] + k))) ==
            Ok((Simple(SimpleCommand([], [[Literal("if")]], [r])), On(z, k)))
  {
    hide ParseSimpleCommand, EmitRedirect, ParseCompoundBody, ParseFunctionDefinition, TrySplitAssignment;
    var w, none := [Literal("if")], SimpleCommand([], [], []);
    assert [w][1..] == [] && EmitWords([w], EmitRedirects([], k)) == [Keyword("if")] + k;
    RedirectBack(r, z, [Keyword("if")] + k);
    SimpleRedirect(r, none, z, [Keyword("if")] + k);
    IfIsNoAssignment();
    SimpleWords([w], [], none.(redirects := [r]), z, k);
    assert [] + [r] == [r] && [] + [w] == [w] && [r] + [] == [r];
  }

  lemma WrittenFirst(y: Layout, r: Redirect, k: seq<Token>)
    ensures var cmd := SimpleCommand([], [[Literal("if")]], [r]);
            !WellFormedCommand(Simple(cmd)) && StartsCompound(EmitCommand(y, Simple(cmd), k)[0])
  {
    var cmd := SimpleCommand([], [[Literal("if")]], [r]);
    assert StartsNoCommand(WordTok(cmd.words[0]));
    assert EmitCommand(y, Simple(cmd), k)[0] == Keyword("if");
  }

  lemma IfIsNoAssignment()
    ensures TrySplitAssignment([Literal("if")]) == None
  {
    assert "if"[1..] == "f" && "f"[1..] == "";
  }

  lemma CompoundParts(body: CompoundCommand, redirects: seq<Redirect>, z: Stream,
                      tokens: seq<Token>, tail: seq<Token>, k: seq<Token>)
    requires tokens != [] && StartsCompound(tokens[0]) && tail != [] && k != []
    requires ParseCompoundBody(On(z, tokens)) == Ok((body, On(z, tail)))
    requires ParseRedirectList(On(z, tail), []) == Ok((redirects, On(z, k)))
    ensures ParseCommand(On(z, tokens)) == Ok((Compound(body, redirects), On(z, k)))
  {
    hide ParseCompoundBody, ParseRedirectList, ParseSimpleCommand, ParseFunctionDefinition, LooksLikeFunction, StartsCompound;
  }

  lemma {:induction false} CommandBack(y: Layout, c: Command, z: Stream, k: seq<Token>)
    requires WellFormedCommand(c) && k != [] && EndsCommand(k[0])
    ensures ParseCommand(On(z, EmitCommand(y, c, k))) == Ok((c, On(z, k)))
    decreases c, 1
  {
    hide ParseCommand, EmitSimple, EmitCompound, EmitRedirects, ParseCompoundBody, ParseRedirectList,
         WellFormedSimple, WellFormedCompound, WellFormedRedirects, IsName, StartsNoCommand;
    if c.Simple? {
      SimpleBack(c.cmd, z, k);
    } else if c.Compound? {
      var tail := EmitRedirects(c.redirects, k);
      CompoundHead(y, c.body, tail);
      CompoundBack(y, c.body, z, tail);
      RedirectListBack(c.redirects, [], z, k);
      assert [] + c.redirects == c.redirects;
      CompoundParts(c.body, c.redirects, z, EmitCompound(y, c.body, tail), tail, k);
    } else {
      FunctionBack(y, c, z, k);
    }
  }

  lemma FunctionHead(y: Layout, name: string, body: seq<Token>, z: Stream)
    requires IsName(name) && !StartsNoCommand(Keyword(name)) && body != [] && body[0] != Newline
    ensures var s := On(z, [Keyword(name)] + ([LParen] + ([RParen] + Break(y, body))));
            && Cur(s) == Keyword(name) && LooksLikeFunction(s) == Ok(true)
            && Advance(s) == Ok(On(z, [LParen] + ([RParen] + Break(y, body))))
            && ExpectOp(On(z, [LParen] + ([RParen] + Break(y, body))), LParen) == Ok(On(z, [RParen] + Break(y, body)))
            && ExpectOp(On(z, [RParen] + Break(y, body)), RParen) == Ok(On(z, Break(y, body)))
            && SkipLinebreak(On(z, Break(y, body))) == Ok(On(z, body))
  {
    hide IsName, StartsNoCommand, Break, SkipLinebreak;
    var broken := Break(y, body);
    BreakIsSkipped(y, z, body);
    Step(z, RParen, broken);
    Step(z, LParen, [RParen] + broken);
    Step(z, Keyword(name), [LParen] + ([RParen] + broken));
    var s := On(z, [Keyword(name)] + ([LParen] + ([RParen] + broken)));
    assert s.ts[1] == LParen && s.ts[2] == RParen;
  }

  lemma FunctionParts(y: Layout, name: string, body: CompoundCommand, redirects: seq<Redirect>, z: Stream,
                      tokens: seq<Token>, tail: seq<Token>, k: seq<Token>)
    requires IsName(name) && !StartsNoCommand(Keyword(name)) && tokens != [] && tokens[0] != Newline && tail != [] && k != []
    requires ParseCompoundBody(On(z, tokens)) == Ok((body, On(z, tail)))
    requires ParseRedirectList(On(z, tail), []) == Ok((redirects, On(z, k)))
    ensures var s := On(z, [Keyword(name)] + ([LParen] + ([RParen] + Break(y, tokens))));
            ParseCommand(s) == Ok((FunctionDefinition(name, body, redirects), On(z, k)))
  {
    hide ParseCompoundBody, ParseRedirectList, ParseSimpleCommand, IsName, LooksLikeFunction, ExpectOp, SkipLinebreak, Advance, Break;
    FunctionHead(y, name, tokens, z);
  }

  lemma {:induction false} FunctionBack(y: Layout, c: Command, z: Stream, k: seq<Token>)
    requires c.FunctionDefinition? && WellFormedCommand(c) && k != [] && EndsCommand(k[0])
    ensures ParseCommand(On(z, EmitCommand(y, c, k))) == Ok((c, On(z, k)))
    decreases c, 0
  {
    hide EmitCompound, EmitRedirects, ParseCommand, ParseCompoundBody, ParseRedirectList, WellFormedCompound, WellFormedRedirects,
         IsName, StartsNoCommand;
    var tail := EmitRedirects(c.redirects, k);
    CompoundHead(y, c.body, tail);
    CompoundBack(y, c.body, z, tail);
    RedirectListBack(c.redirects, [], z, k);
    assert [] + c.redirects == c.redirects;
    FunctionParts(y, c.name, c.body, c.redirects, z, EmitCompound(y, c.body, tail), tail, k);
  }

  lemma MoreStep(y: Layout, c: Command, done: seq<Command>, z: Stream, tokens: seq<Token>, more: seq<Token>)
    requires tokens != [] && tokens[0] != Newline && more != []
    requires ParseCommand(On(z, tokens)) == Ok((c, On(z, more)))
    ensures ParsePipelineRest(On(z, [Pipe] + Break(y, tokens)), done) == ParsePipelineRest(On(z, more), done + [c])
  {
    hide ParseCommand, Break, SkipLinebreak;
    Step(z, Pipe, Break(y, tokens));
    BreakIsSkipped(y, z, tokens);
  }

  lemma MoreStops(done: seq<Command>, z: Stream, k: seq<Token>)
    requires k != [] && EndsPipeline(k[0])
    ensures ParsePipelineRest(On(z, k), done) == Ok((done, On(z, k)))
  {
  }

  lemma {:induction false} MoreBack(y: Layout, cs: seq<Command>, done: seq<Command>, z: Stream, k: seq<Token>)
    requires (forall i :: 0 <= i < |cs| ==> WellFormedCommand(cs[i])) && k != [] && EndsPipeline(k[0])
    ensures ParsePipelineRest(On(z, EmitMore(y, cs, k)), done) == Ok((done + cs, On(z, k)))
    decreases cs
  {
    hide EmitCommand, ParseCommand, ParsePipelineRest, WellFormedCommand, Break;
    if cs == [] {
      assert done + cs == done;
      MoreStops(done, z, k);
    } else {
      var more := EmitMore(y, cs[1..], k);
      CommandHead(y, cs[0], more);
      CommandBack(y, cs[0], z, more);
      MoreStep(y, cs[0], done, z, EmitCommand(y, cs[0], more), more);
      MoreBack(y, cs[1..], done + [cs[0]], z, k);
      assert done + [cs[0]] + cs[1..] == done + cs;
    }
  }

  lemma {:induction false} PipelineBack(y: Layout, p: Pipeline, z: Stream, k: seq<Token>)
    requires WellFormedPipeline(p) && k != [] && EndsPipeline(k[0])
    ensures ParsePipeline(On(z, EmitPipeline(y, p, k))) == Ok((p, On(z, k)))
    decreases p
  {
    hide EmitCommand, ParseCommand, ParsePipelineRest, WellFormedCommand;
    var cs := p.commands;
    var more := EmitMore(y, cs[1..], k);
    var commands := EmitCommand(y, cs[0], more);
    PipelineHead(y, p, k);
    if p.negated {
      Step(z, Keyword("!"), commands);
    }
    CommandBack(y, cs[0], z, more);
    MoreBack(y, cs[1..], [cs[0]], z, k);
    assert [cs[0]] + cs[1..] == cs;
  }

  lemma {:induction false} PartBack(y: Layout, part: AndOrPart, z: Stream, k: seq<Token>)
    requires WellFormedPipeline(part.pipeline) && k != [] && EndsPipeline(k[0])
    ensures ParsePipeline(On(z, EmitPipeline(y, part.pipeline, k))) == Ok((part.pipeline, On(z, k)))
    decreases part
  {
    PipelineBack(y, part.pipeline, z, k);
  }

  lemma PartStep(y: Layout, part: AndOrPart, done: seq<AndOrPart>, z: Stream, tokens: seq<Token>, more: seq<Token>)
    requires tokens != [] && tokens[0] != Newline && more != []
    requires ParsePipeline(On(z, tokens)) == Ok((part.pipeline, On(z, more)))
    ensures ParseAndOrRest(On(z, [if part.isAnd then AndIf else OrIf] + Break(y, tokens)), done)
         == ParseAndOrRest(On(z, more), done + [part])
  {
    hide ParsePipeline, Break, SkipLinebreak;
    Step(z, if part.isAnd then AndIf else OrIf, Break(y, tokens));
    BreakIsSkipped(y, z, tokens);
  }

  lemma PartsStop(done: seq<AndOrPart>, z: Stream, k: seq<Token>)
    requires k != [] && EndsAndOr(k[0])
    ensures ParseAndOrRest(On(z, k), done) == Ok((done, On(z, k)))
  {
  }

  lemma {:induction false} PartsBack(y: Layout, parts: seq<AndOrPart>, done: seq<AndOrPart>, z: Stream, k: seq<Token>)
    requires (forall i :: 0 <= i < |parts| ==> WellFormedPipeline(parts[i].pipeline)) && k != [] && EndsAndOr(k[0])
    ensures ParseAndOrRest(On(z, EmitParts(y, parts, k)), done) == Ok((done + parts, On(z, k)))
    decreases parts
  {
    hide EmitPipeline, ParsePipeline, ParseAndOrRest, WellFormedPipeline, Break;
    if parts == [] {
      assert done + parts == done;
      PartsStop(done, z, k);
    } else {
      var more := EmitParts(y, parts[1..], k);
      PartsHead(y, parts[1..], k);
      PipelineHead(y, parts[0].pipeline, more);
      PartBack(y, parts[0], z, more);
      PartStep(y, parts[0], done, z, EmitPipeline(y, parts[0].pipeline, more), more);
      PartsBack(y, parts[1..], done + [parts[0]], z, k);
      assert done + [parts[0]] + parts[1..] == done + parts;
    }
  }

  lemma {:induction false} AndOrBack(y: Layout, a: AndOr, z: Stream, k: seq<Token>)
    requires WellFormedAndOr(a) && k != [] && EndsAndOr(k[0])
    ensures ParseAndOr(On(z, EmitAndOr(y, a, k))) == Ok((a, On(z, k)))
    decreases a
  {
    hide EmitPipeline, EmitParts, ParsePipeline, ParseAndOrRest, WellFormedPipeline;
    PartsHead(y, a.rest, k);
    PipelineBack(y, a.first, z, EmitParts(y, a.rest, k));
    PartsBack(y, a.rest, [], z, k);
    assert [] + a.rest == a.rest;
  }

  /** A separator is read back with every newline after it, a newline in the place of
      a semicolon included. */
  lemma SeparatorBack(y: Layout, sep: Separator, z: Stream, k: seq<Token>)
    requires k != [] && k[0] != Newline && (sep == NoSeparator ==> EndsList(k[0]))
    ensures ParseSeparator(On(z, EmitSeparator(y, sep, k))) == Ok((sep, On(z, k)))
  {
    hide SkipLinebreak, Lines;
    var n := y.lines(k);
    LinesAreSkipped(n, z, k);
    if sep == NoSeparator {
      LinesAreSkipped(0, z, k);
      NoLines(k);
    } else if sep == Sequential && y.newline(k) {
      LinesAreSkipped(n + 1, z, k);
      OneMoreLine(n, k);
    } else {
      Step(z, if sep == Sequential then Semi else And, Lines(n, k));
    }
  }

  lemma NoLines(k: seq<Token>)
    ensures Lines(0, k) == k
  {
  }

  lemma OneMoreLine(n: nat, k: seq<Token>)
    ensures Lines(n + 1, k) == [Newline] + Lines(n, k)
  {
  }

  lemma SequentialBack(y: Layout, z: Stream, k: seq<Token>)
    requires k != [] && k[0] != Newline
    ensures SequentialSep(On(z, EmitSeparator(y, Sequential, k))) == Ok(On(z, k))
  {
    hide SkipLinebreak, Break;
    BreakIsSkipped(y, z, k);
    Step(z, if y.newline(k) then Newline else Semi, Break(y, k));
  }

  lemma {:induction false} ItemBack(y: Layout, item: ListItem, z: Stream, k: seq<Token>)
    requires WellFormedItem(item) && k != [] && EndsAndOr(k[0])
    ensures ParseAndOr(On(z, EmitAndOr(y, item.andOr, k))) == Ok((item.andOr, On(z, k)))
    decreases item
  {
    AndOrBack(y, item.andOr, z, k);
  }

  lemma {:induction false} TermBack(y: Layout, items: seq<ListItem>, beforeWord: bool, done: seq<ListItem>, z: Stream,
                                    k: seq<Token>)
    requires WellFormedItems(items, beforeWord) && k != []
    requires if beforeWord then IsCloser(k[0]) else EndsList(k[0])
    ensures ParseTerm(On(z, EmitItems(y, items, k)), done) == Ok((List(done + items), On(z, k)))
    decreases items
  {
    hide EmitAndOr, ParseAndOr, ParseSeparator, IsCloser, WellFormedItem;
    if items == [] {
      assert done + items == done;
    } else {
      var more := EmitItems(y, items[1..], k);
      ItemsHead(y, items, beforeWord, k);
      ItemsHead(y, items[1..], beforeWord, k);
      ItemBack(y, items[0], z, EmitSeparator(y, items[0].sep, more));
      SeparatorBack(y, items[0].sep, z, more);
      assert done + [items[0]] + items[1..] == done + items;
      if items[0].sep == NoSeparator {
        assert items[1..] == [] && more == k && done + items == done + [items[0]];
      } else {
        TermBack(y, items[1..], beforeWord, done + [items[0]], z, k);
      }
    }
  }

  lemma {:induction false} ListBack(y: Layout, list: List, beforeWord: bool, z: Stream, k: seq<Token>)
    requires WellFormedItems(list.items, beforeWord) && k != []
    requires if beforeWord then IsCloser(k[0]) else EndsList(k[0])
    ensures ParseCompoundList(On(z, EmitList(y, list, k))) == Ok((list, On(z, k)))
    decreases list, 0
  {
    hide EmitItems, ParseTerm, IsCloser, WellFormedItems, Break, SkipLinebreak;
    ItemsHead(y, list.items, beforeWord, k);
    BreakIsSkipped(y, z, EmitItems(y, list.items, k));
    TermBack(y, list.items, beforeWord, [], z, k);
    assert [] + list.items == list.items;
  }

  lemma {:induction false} DoGroupBack(y: Layout, list: List, z: Stream, k: seq<Token>)
    requires WellFormedItems(list.items, true) && k != []
    ensures ParseDoGroup(On(z, EmitDoGroup(y, list, k))) == Ok((list, On(z, k)))
    decreases list, 1
  {
    hide EmitList, ParseCompoundList, WellFormedItems;
    var end := [Keyword("done")] + k;
    Step(z, Keyword("do"), EmitList(y, list, end));
    ListBack(y, list, true, z, end);
    Step(z, Keyword("done"), k);
  }

  lemma {:induction false} BraceGroupBack(y: Layout, c: CompoundCommand, z: Stream, k: seq<Token>)
    requires c.BraceGroup? && WellFormedCompound(c) && k != []
    ensures ParseBraceGroup(On(z, EmitCompound(y, c, k))) == Ok((c, On(z, k)))
    decreases c, 0
  {
    hide EmitList, ParseCompoundList, WellFormedItems;
    var end := [Keyword("}")] + k;
    Step(z, Keyword("{"), EmitList(y, c.list, end));
    ListBack(y, c.list, true, z, end);
    Step(z, Keyword("}"), k);
  }

  lemma {:induction false} SubshellBack(y: Layout, c: CompoundCommand, z: Stream, k: seq<Token>)
    requires c.Subshell? && WellFormedCompound(c) && k != []
    ensures ParseSubshell(On(z, EmitCompound(y, c, k))) == Ok((c, On(z, k)))
    decreases c, 0
  {
    hide EmitList, ParseCompoundList, WellFormedItems;
    var end := [RParen] + k;
    Step(z, LParen, EmitList(y, c.list, end));
    ListBack(y, c.list, false, z, end);
    Step(z, RParen, k);
  }

  lemma {:induction false} LoopBack(y: Layout, c: CompoundCommand, z: Stream, k: seq<Token>)
    requires (c.WhileClause? || c.UntilClause?) && WellFormedCompound(c) && k != []
    ensures ParseLoop(On(z, EmitCompound(y, c, k)), if c.WhileClause? then "while" else "until") == Ok((c, On(z, k)))
    decreases c, 0
  {
    hide EmitList, ParseCompoundList, ParseDoGroup, WellFormedItems;
    var keyword := if c.WhileClause? then "while" else "until";
    var body := EmitDoGroup(y, c.list, k);
    Step(z, Keyword(keyword), EmitList(y, c.cond, body));
    ListBack(y, c.cond, true, z, body);
    DoGroupBack(y, c.list, z, k);
    assert "while" != "until";
  }

  lemma {:induction false} WordsBack(ws: seq<Word>, done: seq<Word>, z: Stream, k: seq<Token>)
    requires k != [] && !k[0].WordTok?
    ensures ParseWords(On(z, EmitWords(ws, k)), done) == Ok((done + ws, On(z, k)))
    decreases |ws|
  {
    if ws == [] {
      assert done + ws == done;
    } else {
      Step(z, WordTok(ws[0]), EmitWords(ws[1..], k));
      WordsBack(ws[1..], done + [ws[0]], z, k);
      assert done + [ws[0]] + ws[1..] == done + ws;
    }
  }

  lemma ForWordsBack(y: Layout, words: seq<Word>, z: Stream, k: seq<Token>)
    requires k != [] && k[0] != Newline
    ensures ParseForWords(On(z, [Keyword("in")] + EmitWords(words, EmitSeparator(y, Sequential, k))))
         == Ok((Some(words), On(z, k)))
  {
    hide ParseWords, EmitWords, SequentialSep, EmitSeparator;
    var end := EmitSeparator(y, Sequential, k);
    SequentialHead(y, k);
    Step(z, Keyword("in"), EmitWords(words, end));
    WordsBack(words, [], z, end);
    assert [] + words == words;
    SequentialBack(y, z, k);
  }

  lemma SequentialHead(y: Layout, k: seq<Token>)
    ensures var r := EmitSeparator(y, Sequential, k); r != [] && (r[0] == Semi || r[0] == Newline)
  {
  }

  lemma ForParts(y: Layout, name: string, words: Option<seq<Word>>, list: List, z: Stream, rest: seq<Token>, body: seq<Token>,
                 k: seq<Token>)
    requires IsName(name) && rest != [] && rest[0] != Semi && rest[0] != Newline && body != [] && k != []
    requires ParseForWords(On(z, rest)) == Ok((words, On(z, body)))
    requires ParseDoGroup(On(z, body)) == Ok((list, On(z, k)))
    ensures var end := Ok((ForClause(name, words, list), On(z, k)));
            && ParseForClause(On(z, [Keyword("for")] + ([Keyword(name)] + Break(y, rest)))) == end
            && ParseForClause(On(z, [Keyword("for")] + ([Keyword(name)] + ([Semi] + Break(y, rest))))) == end
  {
    hide ParseDoGroup, ParseForWords, IsName, Break, SkipLinebreak;
    BreakIsSkipped(y, z, rest);
    var broken := Break(y, rest);
    BreakHead(y, rest);
    Step(z, Keyword("for"), [Keyword(name)] + broken);
    Step(z, Keyword(name), broken);
    Step(z, Keyword("for"), [Keyword(name)] + ([Semi] + broken));
    Step(z, Keyword(name), [Semi] + broken);
    Step(z, Semi, broken);
  }

  lemma BreakHead(y: Layout, k: seq<Token>)
    requires k != []
    ensures Break(y, k) != [] && (Break(y, k)[0] == Newline || Break(y, k) == k)
  {
  }

  lemma {:induction false} ForClauseBack(y: Layout, c: CompoundCommand, z: Stream, k: seq<Token>)
    requires c.ForClause? && WellFormedCompound(c) && k != []
    ensures ParseForClause(On(z, EmitCompound(y, c, k))) == Ok((c, On(z, k)))
    decreases c, 0
  {
    hide EmitList, ParseForClause, ParseDoGroup, ParseForWords, WellFormedItems, EmitWords, EmitDoGroup, EmitSeparator, IsName, Break;
    var body := EmitDoGroup(y, c.list, k);
    DoGroupHead(y, c.list, k);
    DoGroupBack(y, c.list, z, k);
    if c.words.Some? {
      var words := [Keyword("in")] + EmitWords(c.words.value, EmitSeparator(y, Sequential, body));
      ForWordsBack(y, c.words.value, z, body);
      ForParts(y, c.varName, c.words, c.list, z, words, body, k);
    } else {
      NoForWords(z, body);
      ForParts(y, c.varName, c.words, c.list, z, body, body, k);
    }
  }

  lemma DoGroupHead(y: Layout, list: List, k: seq<Token>)
    ensures EmitDoGroup(y, list, k)[0] == Keyword("do")
  {
  }

  lemma NoForWords(z: Stream, body: seq<Token>)
    requires body != [] && body[0] == Keyword("do")
    ensures ParseForWords(On(z, body)) == Ok((None, On(z, body)))
  {
    assert "do"[0] == 'd' && "in"[0] == 'i';
  }

  lemma PatternStep(w: Word, done: seq<Word>, z: Stream, more: seq<Token>)
    requires more != []
    ensures ParsePatterns(On(z, [WordTok(w)] + ([Pipe] + more)), done) == ParsePatterns(On(z, more), done + [w])
  {
    Step(z, WordTok(w), [Pipe] + more);
    Step(z, Pipe, more);
  }

  lemma LastPattern(w: Word, done: seq<Word>, z: Stream, k: seq<Token>)
    requires k != [] && k[0] == RParen
    ensures ParsePatterns(On(z, [WordTok(w)] + k), done) == Ok((done + [w], On(z, k)))
  {
    Step(z, WordTok(w), k);
  }

  lemma {:induction false} PatternsBack(ps: seq<Word>, done: seq<Word>, z: Stream, k: seq<Token>)
    requires ps != [] && k != [] && k[0] == RParen
    ensures ParsePatterns(On(z, EmitPatterns(ps, k)), done) == Ok((done + ps, On(z, k)))
    decreases |ps|
  {
    hide ParsePatterns;
    if |ps| == 1 {
      LastPattern(ps[0], done, z, k);
      assert ps == [ps[0]];
    } else {
      var more := EmitPatterns(ps[1..], k);
      PatternStep(ps[0], done, z, more);
      PatternsBack(ps[1..], done + [ps[0]], z, k);
      assert done + [ps[0]] + ps[1..] == done + ps;
    }
  }

  lemma CaseItemParts(item: CaseItem, z: Stream, body: seq<Token>, k: seq<Token>)
    requires item.patterns != [] && body != [] && k != []
    requires ParseCompoundList(On(z, body)) == Ok((item.body, On(z, k)))
    ensures var rest := EmitPatterns(item.patterns, [RParen] + body);
            && ParseCaseItem(On(z, [LParen] + rest)) == Ok((item, On(z, k)))
            && ParseCaseItem(On(z, rest)) == Ok((item, On(z, k)))
  {
    hide ParsePatterns, ParseCompoundList, EmitPatterns;
    var rest := EmitPatterns(item.patterns, [RParen] + body);
    PatternsHead(item.patterns, [RParen] + body);
    Step(z, LParen, rest);
    PatternsBack(item.patterns, [], z, [RParen] + body);
    assert [] + item.patterns == item.patterns;
    Step(z, RParen, body);
  }

  lemma PatternsHead(ps: seq<Word>, k: seq<Token>)
    requires ps != []
    ensures EmitPatterns(ps, k)[0] == WordTok(ps[0])
  {
  }

  /** With or without the parenthesis before its patterns. */
  lemma {:induction false} CaseItemBack(y: Layout, item: CaseItem, beforeWord: bool, z: Stream, k: seq<Token>)
    requires item.patterns != [] && WellFormedItems(item.body.items, beforeWord) && k != []
    requires if beforeWord then IsCloser(k[0]) else EndsList(k[0])
    ensures ParseCaseItem(On(z, EmitCaseItem(y, item, k))) == Ok((item, On(z, k)))
    decreases item, 0
  {
    hide EmitList, EmitPatterns, ParseCaseItem, ParseCompoundList, WellFormedItems, IsCloser, NeedsParen;
    ListBack(y, item.body, beforeWord, z, k);
    CaseItemParts(item, z, EmitList(y, item.body, k), k);
  }

  lemma SemisStep(y: Layout, item: CaseItem, done: seq<CaseItem>, z: Stream, tokens: seq<Token>, more: seq<Token>)
    requires tokens != [] && !IsReserved(tokens[0], "esac") && more != [] && more[0] != Newline
    requires ParseCaseItem(On(z, tokens)) == Ok((item, On(z, [DSemi] + Break(y, more))))
    ensures ParseCaseItems(On(z, tokens), done) == ParseCaseItems(On(z, more), done + [item])
  {
    hide ParseCaseItem, Break, SkipLinebreak;
    Step(z, DSemi, Break(y, more));
    BreakIsSkipped(y, z, more);
  }

  lemma LastItem(item: CaseItem, done: seq<CaseItem>, z: Stream, tokens: seq<Token>, k: seq<Token>)
    requires tokens != [] && !IsReserved(tokens[0], "esac") && k != [] && k[0] == Keyword("esac")
    requires ParseCaseItem(On(z, tokens)) == Ok((item, On(z, k)))
    ensures ParseCaseItems(On(z, tokens), done) == Ok((done + [item], On(z, k)))
  {
    hide ParseCaseItem;
  }

  lemma {:induction false} ItemThenSemis(y: Layout, item: CaseItem, done: seq<CaseItem>, z: Stream, more: seq<Token>)
    requires item.patterns != [] && WellFormedItems(item.body.items, false) && more != [] && more[0] != Newline
    ensures ParseCaseItems(On(z, EmitCaseItem(y, item, [DSemi] + Break(y, more))), done)
         == ParseCaseItems(On(z, more), done + [item])
    decreases item, 1
  {
    hide EmitCaseItem, ParseCaseItem, ParseCaseItems, WellFormedItems, Break, IsCloser;
    var end := [DSemi] + Break(y, more);
    CaseItemHead(y, item, end);
    CaseItemBack(y, item, false, z, end);
    SemisStep(y, item, done, z, EmitCaseItem(y, item, end), more);
  }

  lemma {:induction false} ItemAtEnd(y: Layout, item: CaseItem, done: seq<CaseItem>, z: Stream, k: seq<Token>)
    requires item.patterns != [] && WellFormedItems(item.body.items, true) && k != [] && k[0] == Keyword("esac")
    ensures ParseCaseItems(On(z, EmitCaseItem(y, item, k)), done) == Ok((done + [item], On(z, k)))
    decreases item, 1
  {
    hide EmitCaseItem, ParseCaseItem, ParseCaseItems, WellFormedItems, IsCloser;
    CaseItemHead(y, item, k);
    EsacCloses();
    CaseItemBack(y, item, true, z, k);
    LastItem(item, done, z, EmitCaseItem(y, item, k), k);
  }

  lemma NoItemsBack(done: seq<CaseItem>, z: Stream, k: seq<Token>)
    requires k != [] && k[0] == Keyword("esac")
    ensures ParseCaseItems(On(z, k), done) == Ok((done, On(z, k)))
  {
    hide ParseCaseItem;
  }

  /** With or without the last `;;`. */
  lemma {:induction false} CaseItemsBack(y: Layout, items: seq<CaseItem>, done: seq<CaseItem>, z: Stream, k: seq<Token>)
    requires forall i :: 0 <= i < |items| ==> items[i].patterns != [] && WellFormedItems(items[i].body.items, false)
    requires k != [] && k[0] == Keyword("esac")
    ensures ParseCaseItems(On(z, EmitCaseItems(y, items, k)), done) == Ok((done + items, On(z, k)))
    decreases items
  {
    hide EmitCaseItem, ParseCaseItems, WellFormedItems, Break;
    if items == [] {
      assert done + items == done;
      NoItemsBack(done, z, k);
    } else if EndsWithSemis(y, items, k) {
      CaseItemsHead(y, items[1..], k);
      ItemThenSemis(y, items[0], done, z, EmitCaseItems(y, items[1..], k));
      CaseItemsBack(y, items[1..], done + [items[0]], z, k);
      assert done + [items[0]] + items[1..] == done + items;
    } else {
      ItemAtEnd(y, items[0], done, z, k);
      assert items == [items[0]];
    }
  }

  lemma EsacCloses()
    ensures IsCloser(Keyword("esac"))
  {
  }

  lemma CaseItemHead(y: Layout, item: CaseItem, k: seq<Token>)
    requires item.patterns != []
    ensures EmitCaseItem(y, item, k) != []
    ensures var t := EmitCaseItem(y, item, k)[0]; (t == LParen || t.WordTok?) && !IsReserved(t, "esac")
  {
    hide EmitList, EmitPatterns;
    PatternsHead(item.patterns, [RParen] + EmitList(y, item.body, k));
  }

  lemma CaseItemsHead(y: Layout, items: seq<CaseItem>, k: seq<Token>)
    requires k != [] && k[0] == Keyword("esac") && forall i :: 0 <= i < |items| ==> items[i].patterns != []
    ensures EmitCaseItems(y, items, k)[0] != Newline
  {
    hide EmitCaseItem, WellFormedItems, Break;
    if items != [] {
      CaseItemHead(y, items[0], k);
      CaseItemHead(y, items[0], [DSemi] + Break(y, EmitCaseItems(y, items[1..], k)));
    }
  }

  lemma CaseParts(y: Layout, subject: Word, items: seq<CaseItem>, z: Stream, tokens: seq<Token>, k: seq<Token>)
    requires tokens != [] && tokens[0] != Newline && k != []
    requires ParseCaseItems(On(z, tokens), []) == Ok((items, On(z, [Keyword("esac")] + k)))
    ensures var inside := [Keyword("in")] + Break(y, tokens);
            ParseCaseClause(On(z, [Keyword("case")] + ([WordTok(subject)] + Break(y, inside))))
            == Ok((CaseClause(subject, items), On(z, k)))
  {
    hide ParseCaseItems, Break, SkipLinebreak, ExpectReserved;
    var inside := [Keyword("in")] + Break(y, tokens);
    var named := [WordTok(subject)] + Break(y, inside);
    ExpectStep(z, "case", named);
    Step(z, WordTok(subject), Break(y, inside));
    BreakIsSkipped(y, z, inside);
    ExpectStep(z, "in", Break(y, tokens));
    BreakIsSkipped(y, z, tokens);
    ExpectStep(z, "esac", k);
  }

  lemma ExpectStep(z: Stream, w: string, k: seq<Token>)
    requires k != []
    ensures ExpectReserved(On(z, [Keyword(w)] + k), w) == Ok(On(z, k))
  {
    Step(z, Keyword(w), k);
  }

  lemma {:induction false} CaseClauseBack(y: Layout, c: CompoundCommand, z: Stream, k: seq<Token>)
    requires c.CaseClause? && WellFormedCompound(c) && k != []
    ensures ParseCaseClause(On(z, EmitCompound(y, c, k))) == Ok((c, On(z, k)))
    decreases c, 0
  {
    hide EmitCaseItems, ParseCaseClause, ParseCaseItems, WellFormedItems, Break;
    var end := [Keyword("esac")] + k;
    CaseItemsHead(y, c.items, end);
    CaseItemsBack(y, c.items, [], z, end);
    assert [] + c.items == c.items;
    CaseParts(y, c.subject, c.items, z, EmitCaseItems(y, c.items, end), k);
  }

  lemma {:induction false} BranchBack(y: Layout, branch: Branch, z: Stream, k: seq<Token>)
    requires WellFormedItems(branch.cond.items, true) && WellFormedItems(branch.body.items, true)
    requires k != [] && IsCloser(k[0])
    ensures ParseBranch(On(z, EmitBranch(y, branch, k))) == Ok((branch, On(z, k)))
    decreases branch
  {
    hide EmitList, ParseCompoundList, WellFormedItems;
    var body := EmitList(y, branch.body, k);
    ListBack(y, branch.cond, true, z, [Keyword("then")] + body);
    Step(z, Keyword("then"), body);
    ListBack(y, branch.body, true, z, k);
  }

  lemma {:induction false} ElifsBack(y: Layout, branches: seq<Branch>, done: seq<Branch>, z: Stream, k: seq<Token>)
    requires forall i :: 0 <= i < |branches| ==>
               WellFormedItems(branches[i].cond.items, true) && WellFormedItems(branches[i].body.items, true)
    requires k != [] && IsCloser(k[0]) && !IsReserved(k[0], "elif")
    ensures ParseElifs(On(z, EmitBranches(y, branches, k)), done) == Ok((done + branches, On(z, k)))
    decreases branches
  {
    hide EmitBranch, ParseBranch, WellFormedItems;
    if branches == [] {
      assert done + branches == done;
    } else {
      var more := EmitBranches(y, branches[1..], k);
      Step(z, Keyword("elif"), EmitBranch(y, branches[0], more));
      BranchBack(y, branches[0], z, more);
      ElifsBack(y, branches[1..], done + [branches[0]], z, k);
      assert done + [branches[0]] + branches[1..] == done + branches;
    }
  }

  lemma {:induction false} ElseBack(y: Layout, elseBranch: Option<List>, z: Stream, k: seq<Token>)
    requires elseBranch.Some? ==> WellFormedItems(elseBranch.value.items, true)
    requires k != [] && k[0] == Keyword("fi")
    ensures ParseElse(On(z, EmitElse(y, elseBranch, k))) == Ok((elseBranch, On(z, k)))
    decreases elseBranch
  {
    hide EmitList, ParseCompoundList, WellFormedItems;
    if elseBranch.Some? {
      Step(z, Keyword("else"), EmitList(y, elseBranch.value, k));
      ListBack(y, elseBranch.value, true, z, k);
    } else {
      assert "fi"[0] == 'f' && "else"[0] == 'e';
    }
  }

  lemma ElseHead(y: Layout, elseBranch: Option<List>, k: seq<Token>)
    requires k != [] && k[0] == Keyword("fi")
    ensures var t := EmitElse(y, elseBranch, k)[0]; IsCloser(t) && !IsReserved(t, "elif")
  {
    assert "elif"[1] == 'l' && "else"[1] == 'l' && "elif"[2] == 'i' && "else"[2] == 's' && |"fi"| == 2;
  }

  lemma {:induction false} IfClauseBack(y: Layout, c: CompoundCommand, z: Stream, k: seq<Token>)
    requires c.IfClause? && WellFormedCompound(c) && k != []
    ensures ParseIfClause(On(z, EmitCompound(y, c, k))) == Ok((c, On(z, k)))
    decreases c, 0
  {
    hide EmitBranch, EmitBranches, EmitElse, ParseBranch, ParseElifs, ParseElse, WellFormedItems, IsCloser;
    var end := [Keyword("fi")] + k;
    var tail := EmitElse(y, c.elseBranch, end);
    var elifs := EmitBranches(y, c.branches[1..], tail);
    ElseHead(y, c.elseBranch, end);
    BranchesHead(y, c.branches[1..], tail);
    Step(z, Keyword("if"), EmitBranch(y, c.branches[0], elifs));
    BranchBack(y, c.branches[0], z, elifs);
    ElifsBack(y, c.branches[1..], [c.branches[0]], z, tail);
    assert [c.branches[0]] + c.branches[1..] == c.branches;
    ElseBack(y, c.elseBranch, z, end);
    Step(z, Keyword("fi"), k);
  }

  lemma BranchesHead(y: Layout, branches: seq<Branch>, k: seq<Token>)
    requires k != [] && IsCloser(k[0])
    ensures IsCloser(EmitBranches(y, branches, k)[0])
  {
  }

  lemma {:induction false} CompoundBack(y: Layout, c: CompoundCommand, z: Stream, k: seq<Token>)
    requires WellFormedCompound(c) && k != []
    ensures ParseCompoundBody(On(z, EmitCompound(y, c, k))) == Ok((c, On(z, k)))
    decreases c, 1
  {
    hide EmitList, EmitDoGroup, EmitForWords, Break, EmitBranch, EmitBranches, EmitElse, EmitCaseItems, EmitWords, WellFormedCompound,
         ParseBraceGroup, ParseSubshell, ParseForClause, ParseCaseClause, ParseIfClause, ParseLoop;
    StartersDiffer();
    match c
    case BraceGroup(_) => BraceGroupBack(y, c, z, k);
    case Subshell(_) => SubshellBack(y, c, z, k);
    case ForClause(_, _, _) => ForClauseBack(y, c, z, k);
    case CaseClause(_, _) => CaseClauseBack(y, c, z, k);
    case IfClause(_, _) => IfHead(y, c, k); IfClauseBack(y, c, z, k);
    case WhileClause(_, _) => LoopBack(y, c, z, k);
    case UntilClause(_, _) => LoopBack(y, c, z, k);
  }

  lemma IfHead(y: Layout, c: CompoundCommand, k: seq<Token>)
    requires c.IfClause? && WellFormedCompound(c)
    ensures EmitCompound(y, c, k)[0] == Keyword("if")
  {
  }

  lemma StartersDiffer()
    ensures "{" != "for" && "{" != "case" && "{" != "if" && "{" != "while" && "{" != "until"
    ensures "for" != "case" && "for" != "if" && "for" != "while" && "for" != "until"
    ensures "case" != "if" && "case" != "while" && "case" != "until"
    ensures "if" != "while" && "if" != "until" && "while" != "until"
  {
    assert "while"[0] == 'w' && "until"[0] == 'u';
  }

  /** Parsing the tokens of a well-formed tree, in any layout, rebuilds exactly that
      tree and stops right after them; a whole program is such a list before the end. */
  lemma ProgramRoundTrip(y: Layout, list: List, z: Stream)
    requires WellFormedItems(list.items, false)
    ensures ParseProgram(On(z, EmitList(y, list, [EndOfInput]))) == Ok(list)
  {
    hide EmitList, ParseCompoundList, WellFormedItems;
    ListBack(y, list, false, z, [EndOfInput]);
  }

  /** No two well-formed trees share a rendering, whatever their layouts. */
  lemma RenderingIsInjective(y: Layout, l: List, x: Layout, m: List)
    requires WellFormedItems(l.items, false) && WellFormedItems(m.items, false)
    requires EmitList(y, l, [EndOfInput]) == EmitList(x, m, [EndOfInput])
    ensures l == m
  {
    hide EmitList, ParseProgram, WellFormedItems;
    var z := Stream([], true, 0);
    ProgramRoundTrip(y, l, z);
    ProgramRoundTrip(x, m, z);
  }
}
