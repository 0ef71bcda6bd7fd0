/** What commands mean in terms of their parts, for every state, host and fuel. */
module ControlLaws {
  import opened Prelude
  import opened Tokens
  import opened Ast
  import opened Descriptors
  import opened ExecSpec
  import Numbers

  // ------------------------------------------------------ if, case and loops

  lemma IfIs(branches: seq<Branch>, e: Option<List>, j: Jumps, s: State, host: Host, fuel: nat)
    ensures var t := RunBranches(branches, j, s, host, fuel);
            RunCompound(IfClause(branches, e), j, s, host, fuel) == if t.Taken? then t.ran else RunElse(e, j, t.s, host, fuel)
  {
  }

  /** The first condition decides: its body is run from where it ended, or the rest
      of the command is, or it was unwound. */
  lemma IfTakesFirstTrue(b: Branch, more: seq<Branch>, e: Option<List>, j: Jumps, s: State, host: Host, fuel: nat)
    ensures var c := RunList(b.cond, j, s, host, fuel);
            var r := RunCompound(IfClause([b] + more, e), j, s, host, fuel);
            && (c.outcome == Status(0) ==> r == RunList(b.body, j, c.s, host, fuel))
            && (c.outcome.Status? && c.outcome.n != 0 ==> r == RunCompound(IfClause(more, e), j, c.s, host, fuel))
            && (!c.outcome.Status? ==> r == c)
  {
    hide RunList, RunElse, RunCompound;
    assert ([b] + more)[0] == b && ([b] + more)[1..] == more;
    IfIs([b] + more, e, j, s, host, fuel);
    IfIs(more, e, j, RunList(b.cond, j, s, host, fuel).s, host, fuel);
  }

  /** With no condition left the else part is run, and without one nothing is. */
  lemma IfEndsWithElse(e: Option<List>, j: Jumps, s: State, host: Host, fuel: nat)
    ensures e.Some? ==> RunCompound(IfClause([], e), j, s, host, fuel) == RunList(e.value, j, s, host, fuel)
    ensures e.None? ==> RunCompound(IfClause([], e), j, s, host, fuel) == Ran(Status(0), s)
  {
    hide RunList, RunCompound;
    IfIs([], e, j, s, host, fuel);
  }

  /** A pattern that matches the subject, or does not, without an effect. */
  ghost predicate Decided(p: Word, subject: string, matched: bool, host: Host) {
    forall params, mem :: host.matches(p, subject, params, mem) == Expanded(matched, mem)
  }

  ghost predicate NoneMatches(patterns: seq<Word>, subject: string, host: Host) {
    forall k :: 0 <= k < |patterns| ==> Decided(patterns[k], subject, false, host)
  }

  /** The first pattern that matches decides which body is run; when none does,
      nothing is and the status is 0. */
  lemma {:induction false} CaseTakesFirstMatch(items: seq<CaseItem>, i: nat, k: nat, subject: string, j: Jumps, s: State,
                                               host: Host, fuel: nat)
    requires i <= |items| && forall m :: 0 <= m < i ==> NoneMatches(items[m].patterns, subject, host)
    requires i < |items| ==>
               && k < |items[i].patterns| && Decided(items[i].patterns[k], subject, true, host)
               && NoneMatches(items[i].patterns[..k], subject, host)
    ensures RunCase(items, subject, j, s, host, fuel)
         == if i < |items| then RunList(items[i].body, j, s, host, fuel) else Ran(Status(0), s)
    decreases |items|
  {
    hide RunList, MatchAny, NoneMatches, Decided;
    if items != [] {
      if i == 0 {
        MatchFound(items[0].patterns, k, subject, s.params, s.mem, host);
      } else {
        MatchNone(items[0].patterns, subject, s.params, s.mem, host);
        CaseTakesFirstMatch(items[1..], i - 1, k, subject, j, s, host, fuel);
      }
    }
  }

  lemma {:induction false} MatchNone(patterns: seq<Word>, subject: string, params: seq<string>, mem: Memory, host: Host)
    requires NoneMatches(patterns, subject, host)
    ensures MatchAny(patterns, subject, params, mem, host) == Expanded(false, mem)
    decreases |patterns|
  {
    if patterns != [] {
      assert Decided(patterns[0], subject, false, host);
      assert forall k :: 0 <= k < |patterns| - 1 ==> patterns[1..][k] == patterns[k + 1];
      MatchNone(patterns[1..], subject, params, mem, host);
    }
  }

  lemma {:induction false} MatchFound(patterns: seq<Word>, k: nat, subject: string, params: seq<string>, mem: Memory, host: Host)
    requires k < |patterns| && Decided(patterns[k], subject, true, host) && NoneMatches(patterns[..k], subject, host)
    ensures MatchAny(patterns, subject, params, mem, host) == Expanded(true, mem)
    decreases |patterns|
  {
    if k == 0 {
      assert Decided(patterns[0], subject, true, host);
    } else {
      assert patterns[..k][0] == patterns[0] && patterns[1..][..k - 1] == patterns[..k][1..];
      assert Decided(patterns[0], subject, false, host);
      assert forall m :: 0 <= m < k - 1 ==> patterns[..k][1..][m] == patterns[..k][m + 1];
      MatchFound(patterns[1..], k - 1, subject, params, mem, host);
    }
  }

  /** The subject is expanded first, once. */
  lemma CaseExpandsSubject(subject: Word, items: seq<CaseItem>, j: Jumps, s: State, host: Host, fuel: nat)
    ensures var e := host.text(subject, s.params, s.mem);
            RunCompound(CaseClause(subject, items), j, s, host, fuel)
            == if e.Thrown? then Ran(Error(e.fault), s.(mem := e.mem))
               else RunCase(items, e.value, j, s.(mem := e.mem), host, fuel)
  {
  }

  /** How a loop goes on after its body: a status is the loop's so far; a jump for
      this loop ends it or goes on with the status before; one for a loop further out
      leaves it, a level lower; anything else leaves it. */
  predicate GoesOn(o: Outcome, n: int, status: int, stops: bool) {
    || (o == Status(n) && !stops)
    || (o == Continue(1) && n == status && !stops)
    || (o == Break(1) && n == status && stops)
  }

  function Passed(o: Outcome): Outcome {
    match o
    case Break(n) => Break(n - 1)
    case Continue(n) => Continue(n - 1)
    case _ => o
  }

  lemma CatchIs(o: Outcome, status: int)
    requires InRange(o, Counted)
    ensures match Catch(o, status, Counted)
            case Again(n) => GoesOn(o, n, status, false)
            case Stop(n) => GoesOn(o, n, status, true)
            case Out(p) => p == Passed(o) && !o.Status? && o != Break(1) && o != Continue(1)
  {
  }

  /** One turn of while and until: while goes on as long as its condition succeeds,
      until as long as it fails; the status is the one so far when it stops. */
  lemma LoopTurn(cc: CompoundCommand, status: int, s: State, host: Host, fuel: nat)
    requires cc.WhileClause? || cc.UntilClause?
    ensures var c := RunList(cc.cond, Counted, s, host, fuel);
            var r := RunLoop(cc, status, Counted, s, host, fuel);
            && (!c.outcome.Status? ==> r == c)
            && (cc.WhileClause? && c.outcome.Status? && c.outcome.n != 0 ==> r == Ran(Status(status), c.s))
            && (cc.UntilClause? && c.outcome == Status(0) ==> r == Ran(Status(status), c.s))
            && (c.outcome.Status? && (cc.WhileClause? <==> c.outcome.n == 0) ==>
                  var b := RunList(cc.list, Counted, c.s, host, fuel);
                  (forall n :: GoesOn(b.outcome, n, status, true) ==> r == Ran(Status(n), b.s))
                  && (forall n :: GoesOn(b.outcome, n, status, false) && fuel > 0 ==>
                        r == RunLoop(cc, n, Counted, b.s, host, fuel - 1))
                  && (!b.outcome.Status? && b.outcome != Break(1) && b.outcome != Continue(1) ==>
                        r == Ran(Passed(b.outcome), b.s)))
  {
    hide RunList;
  }

  lemma LoopStartsWithZero(cc: CompoundCommand, s: State, host: Host, fuel: nat)
    requires cc.WhileClause? || cc.UntilClause?
    ensures RunCompound(cc, Counted, s, host, fuel) == RunLoop(cc, 0, Counted, s, host, fuel)
  {
  }

  /** One turn of for: the body is run with the variable set to the next item and
      everything else as it is, or the loop ends with status 1 at a read-only one. */
  lemma ForTurn(cc: CompoundCommand, x: string, more: seq<string>, status: int, s: State, host: Host, fuel: nat)
    requires cc.ForClause?
    ensures var r := RunFor(cc, [x] + more, status, Counted, s, host, fuel);
            && (IsReadonly(s.mem, cc.varName) ==> r == Ran(Status(1), s))
            && (!IsReadonly(s.mem, cc.varName) ==>
                  exists t: State :: IsSetTo(s, t, cc.varName, x) &&
                    var b := RunList(cc.list, Counted, t, host, fuel);
                    (forall n :: GoesOn(b.outcome, n, status, true) ==> r == Ran(Status(n), b.s))
                    && (forall n :: GoesOn(b.outcome, n, status, false) ==>
                          r == RunFor(cc, more, n, Counted, b.s, host, fuel))
                    && (!b.outcome.Status? && b.outcome != Break(1) && b.outcome != Continue(1) ==>
                          r == Ran(Passed(b.outcome), b.s)))
    ensures RunFor(cc, [], status, Counted, s, host, fuel) == Ran(Status(status), s)
  {
    hide RunList;
    assert ([x] + more)[0] == x && ([x] + more)[1..] == more;
    if !IsReadonly(s.mem, cc.varName) {
      var t := s.(mem := SetVar(s.mem, cc.varName, x).value);
      assert IsSetTo(s, t, cc.varName, x);
    }
  }

  predicate IsReadonly(mem: Memory, name: string) {
    name in mem.vars && mem.vars[name].readonly
  }

  /** t is s but for the value of one variable. */
  predicate IsSetTo(s: State, t: State, name: string, value: string) {
    && t == s.(mem := s.mem.(vars := t.mem.vars))
    && t.mem.vars.Keys == s.mem.vars.Keys + {name}
    && t.mem.vars[name].value == value
    && (name in s.mem.vars ==> t.mem.vars[name].exported == s.mem.vars[name].exported)
    && (forall other :: other in s.mem.vars && other != name ==> t.mem.vars[other] == s.mem.vars[other])
  }

  /** The items of for: the fields of its words, or the positional parameters. */
  lemma ForItems(name: string, words: Option<seq<Word>>, list: List, s: State, host: Host, fuel: nat)
    ensures var cc := ForClause(name, words, list);
            var r := RunCompound(cc, Counted, s, host, fuel);
            && (words.None? ==> r == RunFor(cc, s.params, 0, Counted, s, host, fuel))
            && (words.Some? ==>
                  var e := ExpandWords(words.value, [], s.params, s.mem, host);
                  r == if e.Thrown? then Ran(Error(e.fault), s.(mem := e.mem))
                       else RunFor(cc, e.value, 0, Counted, s.(mem := e.mem), host, fuel))
  {
  }

  // ------------------------------------------------- pipelines, chains, lists

  /** `!` turns success into 1 and failure into 0, keeps the state, and lets jumps,
      exits and errors pass. */
  lemma NegationInverts(commands: seq<Command>, j: Jumps, s: State, host: Host, fuel: nat)
    ensures var r := RunPipeline(Pipeline(false, commands), j, s, host, fuel);
            var n := RunPipeline(Pipeline(true, commands), j, s, host, fuel);
            && n.s == r.s
            && (r.outcome == Status(0) ==> n.outcome == Status(1))
            && (r.outcome.Status? && r.outcome.n != 0 ==> n.outcome == Status(0))
            && (!r.outcome.Status? ==> n.outcome == r.outcome)
  {
    hide RunCommand, RunStages;
  }

  /** A pipeline of one command is that command, in the shell itself. */
  lemma OneCommand(c: Command, j: Jumps, s: State, host: Host, fuel: nat)
    ensures RunPipeline(Pipeline(false, [c]), j, s, host, fuel) == RunCommand(c, j, s, host, fuel)
  {
    hide RunCommand;
  }

  /** A pipeline of several: between any two neighbours there is a pipe of two new
      descriptors, beside those of the shell; the commands run in children that have
      all these, and the shell keeps nothing but their status. */
  lemma SeveralCommands(cs: seq<Command>, j: Jumps, s: State, host: Host, fuel: nat) returns (pipes: seq<nat>, fds: Table)
    requires |cs| > 1
    ensures |pipes| == 2 * (|cs| - 1)
    ensures forall k :: k in fds <==> k in s.fds || k in pipes
    ensures forall k :: k in s.fds ==> fds[k] == s.fds[k]
    ensures forall k :: 0 <= k < |pipes| ==> pipes[k] !in s.fds && pipes[k] in fds && fds[pipes[k]] == s.mem.world + k
    ensures var (status, world) := host.stages(cs, s.(fds := fds));
            RunPipeline(Pipeline(false, cs), j, s, host, fuel) == Ran(Status(status), s.(mem := s.mem.(world := world)))
  {
    hide RunCommand, OpenPipes, CloseAll;
    var n := |cs| - 1;
    PipesAreNew(s.fds, n, s.mem.world);
    PipesAreClosed(s.fds, n, s.mem.world);
    fds := OpenPipes(s.fds, n, s.mem.world).0;
    pipes := OpenPipes(s.fds, n, s.mem.world).1;
    var (status, world) := host.stages(cs, s.(fds := fds));
    assert s.(fds := s.fds, mem := s.mem.(world := world)) == s.(mem := s.mem.(world := world));
  }

  /** `a && b` runs b after a success, `a || b` after a failure; the status is that of
      what was run last, and `$?` holds it for whatever comes next. */
  lemma AndOrTurn(a: Pipeline, isAnd: bool, b: Pipeline, j: Jumps, s: State, host: Host, fuel: nat)
    ensures var x := RunPipeline(a, j, s, host, fuel);
            var r := RunAndOr(AndOr(a, [AndOrPart(isAnd, b)]), j, s, host, fuel);
            && (!x.outcome.Status? ==> r == x)
            && (x.outcome.Status? ==>
                  var s1 := x.s.(mem := x.s.mem.(last := x.outcome.n));
                  if isAnd <==> x.outcome.n == 0 then
                    var y := RunPipeline(b, j, s1, host, fuel);
                    r == if y.outcome.Status? then Ran(y.outcome, y.s.(mem := y.s.mem.(last := y.outcome.n))) else y
                  else r == Ran(x.outcome, s1))
  {
    hide RunPipeline;
    var part := AndOrPart(isAnd, b);
    assert [part][1..] == [];
    var x := RunPipeline(a, j, s, host, fuel);
    if x.outcome.Status? {
      var s1 := x.s.(mem := x.s.mem.(last := x.outcome.n));
      var y := RunPart(part, j, s1, host, fuel);
      assert RunRest([], x.outcome.n, j, s1, host, fuel) == Ran(x.outcome, s1);
      if y.outcome.Status? {
        var s2 := y.s.(mem := y.s.mem.(last := y.outcome.n));
        assert RunRest([], y.outcome.n, j, s2, host, fuel) == Ran(y.outcome, s2);
      }
    }
  }

  /** An asynchronous list leaves the shell as it is, but for `$?`, with status 0. */
  lemma BackgroundIsNotWaitedFor(a: AndOr, j: Jumps, s: State, host: Host, fuel: nat)
    ensures var r := RunItem(ListItem(a, Async), j, s, host, fuel);
            r.outcome == Status(0) && r.s == s.(mem := s.mem.(last := 0, world := r.s.mem.world))
  {
  }

  /** The empty list succeeds, and a list of one item is that item. */
  lemma ShortLists(item: ListItem, j: Jumps, s: State, host: Host, fuel: nat)
    ensures RunList(List([]), j, s, host, fuel) == Ran(Status(0), s)
    ensures RunList(List([item]), j, s, host, fuel) == RunItem(item, j, s, host, fuel)
    ensures item.sep != Async ==> RunItem(item, j, s, host, fuel) == RunAndOr(item.andOr, j, s, host, fuel)
  {
    hide RunAndOr;
    assert [item][1..] == [];
    var r := RunItem(item, j, s, host, fuel);
    if r.outcome.Status? {
      assert RunItems([], r.outcome.n, j, r.s, host, fuel) == r;
    }
  }

  /** A subshell changes nothing in the shell. */
  lemma SubshellIsApart(list: List, j: Jumps, s: State, host: Host, fuel: nat)
    ensures var r := RunCompound(Subshell(list), j, s, host, fuel);
            r.outcome == Status(host.subshell(list, s).0) && r.s == s.(mem := s.mem.(world := r.s.mem.world))
    ensures RunCompound(BraceGroup(list), j, s, host, fuel) == RunList(list, j, s, host, fuel)
  {
  }
}
