/** Counted break and continue are static jumps: running a tree with counts and
    running it with labels fixed by where each command stands give the same
    state and the same end, for every tree, host and amount of fuel. */
module ExecJumps {
  import opened Prelude
  import opened Tokens
  import opened Ast
  import opened Descriptors
  import opened ExecSpec

  /** The label, d loops deep, of the loop that a count names. */
  function Relabel(o: Outcome, d: int): Outcome {
    match o
    case Break(n) => Break(d - n)
    case Continue(n) => Continue(d - n)
    case _ => o
  }

  function RelabelRan(r: Ran, d: int): Ran {
    Ran(Relabel(r.outcome, d), r.s)
  }

  function RelabelTried(t: Tried, d: int): Tried {
    match t
    case PassedOver(s) => PassedOver(s)
    case Taken(ran) => Taken(RelabelRan(ran, d))
  }

  function RelabelCaught(c: Caught, d: int): Caught {
    match c
    case Out(o) => Out(Relabel(o, d))
    case _ => c
  }

  lemma CatchAgrees(o: Outcome, status: int, d: int)
    requires InRange(o, Counted)
    ensures Catch(Relabel(o, d + 1), status, Labelled(d)) == RelabelCaught(Catch(o, status, Counted), d)
  {
  }

  lemma {:induction false} ListAgrees(list: List, d: int, s: State, host: Host, fuel: nat)
    ensures RunList(list, Labelled(d), s, host, fuel) == RelabelRan(RunList(list, Counted, s, host, fuel), d)
    decreases 2 * fuel + 1, list, 0, 0
  {
    ItemsAgree(list.items, 0, d, s, host, fuel);
  }

  lemma {:induction false} ItemsAgree(items: seq<ListItem>, status: int, d: int, s: State, host: Host, fuel: nat)
    ensures RunItems(items, status, Labelled(d), s, host, fuel) == RelabelRan(RunItems(items, status, Counted, s, host, fuel), d)
    decreases 2 * fuel + 1, items, 0, 0
  {
    hide RunItem;
    if items != [] {
      ItemAgrees(items[0], d, s, host, fuel);
      var r := RunItem(items[0], Counted, s, host, fuel);
      if r.outcome.Status? {
        ItemsAgree(items[1..], r.outcome.n, d, r.s, host, fuel);
      }
    }
  }

  lemma {:induction false} ItemAgrees(item: ListItem, d: int, s: State, host: Host, fuel: nat)
    ensures RunItem(item, Labelled(d), s, host, fuel) == RelabelRan(RunItem(item, Counted, s, host, fuel), d)
    decreases 2 * fuel + 1, item, 0, 0
  {
    hide RunAndOr;
    if !item.sep.Async? {
      AndOrAgrees(item.andOr, d, s, host, fuel);
    }
  }

  lemma {:induction false} AndOrAgrees(a: AndOr, d: int, s: State, host: Host, fuel: nat)
    ensures RunAndOr(a, Labelled(d), s, host, fuel) == RelabelRan(RunAndOr(a, Counted, s, host, fuel), d)
    decreases 2 * fuel + 1, a, 0, 0
  {
    hide RunPipeline, RunRest;
    PipelineAgrees(a.first, d, s, host, fuel);
    var r := RunPipeline(a.first, Counted, s, host, fuel);
    if r.outcome.Status? {
      RestAgrees(a.rest, r.outcome.n, d, r.s.(mem := r.s.mem.(last := r.outcome.n)), host, fuel);
    }
  }

  lemma {:induction false} RestAgrees(parts: seq<AndOrPart>, status: int, d: int, s: State, host: Host, fuel: nat)
    ensures RunRest(parts, status, Labelled(d), s, host, fuel) == RelabelRan(RunRest(parts, status, Counted, s, host, fuel), d)
    decreases 2 * fuel + 1, parts, 0, 0
  {
    hide RunPart;
    if parts == [] {
    } else if parts[0].isAnd != (status == 0) {
      RestAgrees(parts[1..], status, d, s, host, fuel);
    } else {
      PartAgrees(parts[0], d, s, host, fuel);
      var r := RunPart(parts[0], Counted, s, host, fuel);
      if r.outcome.Status? {
        RestAgrees(parts[1..], r.outcome.n, d, r.s.(mem := r.s.mem.(last := r.outcome.n)), host, fuel);
      }
    }
  }

  lemma {:induction false} PartAgrees(part: AndOrPart, d: int, s: State, host: Host, fuel: nat)
    ensures RunPart(part, Labelled(d), s, host, fuel) == RelabelRan(RunPart(part, Counted, s, host, fuel), d)
    decreases 2 * fuel + 1, part, 0, 0
  {
    hide RunPipeline;
    PipelineAgrees(part.pipeline, d, s, host, fuel);
  }

  lemma {:induction false} PipelineAgrees(p: Pipeline, d: int, s: State, host: Host, fuel: nat)
    ensures RunPipeline(p, Labelled(d), s, host, fuel) == RelabelRan(RunPipeline(p, Counted, s, host, fuel), d)
    decreases 2 * fuel + 1, p, 0, 0
  {
    hide RunCommand, RunStages;
    if |p.commands| == 1 {
      CommandAgrees(p.commands[0], d, s, host, fuel);
    }
  }

  lemma {:induction false} CommandAgrees(c: Command, d: int, s: State, host: Host, fuel: nat)
    ensures RunCommand(c, Labelled(d), s, host, fuel) == RelabelRan(RunCommand(c, Counted, s, host, fuel), d)
    decreases 2 * fuel + 1, c, 0, 0
  {
    hide RunSimple, RunCompound, ApplyRedirects, Restored;
    match c {
      case Simple(cmd) => SimpleAgrees(cmd, d, s, host, fuel);
      case Compound(body, rs) => CompoundAgrees(body, d, ApplyRedirects(rs, s, [], true, host).s, host, fuel);
      case FunctionDefinition(_, _, _) =>
    }
  }

  lemma {:induction false} SimpleAgrees(cmd: SimpleCommand, d: int, s: State, host: Host, fuel: nat)
    ensures RunSimple(cmd, Labelled(d), s, host, fuel) == RelabelRan(RunSimple(cmd, Counted, s, host, fuel), d)
    decreases 2 * fuel + 1, cmd, 4, 0
  {
    hide RunBare, RunSpecial, RunRegular, ExpandWords, Overrides, SPECIAL;
    var e := ExpandWords(cmd.words, [], s.params, s.mem, host);
    if e.Expanded? && e.value != [] {
      var o := Overrides(cmd.assignments, [], s.params, e.mem, host);
      if o.Expanded? {
        if e.value[0] in SPECIAL {
          SpecialAgrees(cmd, e.value, d, s.(mem := o.mem), host, fuel);
        } else {
          RegularAgrees(cmd, e.value, d, s.(mem := o.mem), host, fuel);
        }
      }
    }
  }

  lemma {:induction false} SpecialAgrees(cmd: SimpleCommand, args: seq<string>, d: int, s: State, host: Host, fuel: nat)
    requires args != []
    ensures RunSpecial(cmd, args, Labelled(d), s, host, fuel) == RelabelRan(RunSpecial(cmd, args, Counted, s, host, fuel), d)
    decreases 2 * fuel + 1, cmd, 3, 0
  {
    hide RunRedirected, Assign, ApplyRedirects;
    var v := Assign(cmd.assignments, [], s.params, s.mem, host);
    if v.verdict.Done? && args[0] != "exec" {
      RedirectedAgrees(cmd, args, d, s.(mem := v.mem), host, fuel);
    }
  }

  lemma {:induction false} RedirectedAgrees(cmd: SimpleCommand, args: seq<string>, d: int, s: State, host: Host, fuel: nat)
    requires args != []
    ensures RunRedirected(cmd, args, Labelled(d), s, host, fuel)
         == RelabelRan(RunRedirected(cmd, args, Counted, s, host, fuel), d)
    decreases 2 * fuel + 1, cmd, 1, 0
  {
    hide ApplyRedirects, CallSpecial, CallFunction, CallBuiltin, Restored, SPECIAL;
    var a := ApplyRedirects(cmd.redirects, s, [], true, host);
    if a.verdict.Done? {
      if args[0] in SPECIAL {
        CallSpecialAgrees(args, d, a.s, host, fuel);
      } else if args[0] in a.s.functions {
        CallFunctionAgrees(a.s.functions[args[0]], args[1..], d, a.s, host, fuel);
      } else {
        CallBuiltinAgrees(args, d, a.s, host, fuel);
      }
    }
  }

  lemma {:induction false} CallSpecialAgrees(args: seq<string>, d: int, s: State, host: Host, fuel: nat)
    requires args != []
    ensures CallSpecial(args, Labelled(d), s, host, fuel) == RelabelRan(CallSpecial(args, Counted, s, host, fuel), d)
    decreases 2 * fuel, 1
  {
    hide CallBuiltin, Levels, IntArg;
    CallBuiltinAgrees(args, d, s, host, fuel);
  }

  lemma {:induction false} CallBuiltinAgrees(args: seq<string>, d: int, s: State, host: Host, fuel: nat)
    requires args != []
    ensures CallBuiltin(args, Labelled(d), s, host, fuel) == RelabelRan(CallBuiltin(args, Counted, s, host, fuel), d)
    decreases 2 * fuel, 0
  {
    hide RunList;
    var e := host.builtin(args, s.params, s.mem);
    if e.Sources? && fuel > 0 {
      ListAgrees(e.list, d, s.(params := if e.override.Some? then e.override.value else s.params, mem := e.mem), host, fuel - 1);
    }
  }

  /** A jump that leaves every loop of a function goes on at the call. */
  lemma {:induction false} CallFunctionAgrees(body: CompoundCommand, args: seq<string>, d: int, s: State, host: Host, fuel: nat)
    ensures CallFunction(body, args, Labelled(d), s, host, fuel)
         == RelabelRan(CallFunction(body, args, Counted, s, host, fuel), d)
    decreases 2 * fuel, 0
  {
    hide RunCompound;
    if fuel > 0 {
      CompoundAgrees(body, 0, s.(params := args), host, fuel - 1);
    }
  }

  lemma {:induction false} RegularAgrees(cmd: SimpleCommand, args: seq<string>, d: int, s: State, host: Host, fuel: nat)
    requires args != [] && args[0] !in SPECIAL
    ensures RunRegular(cmd, args, Labelled(d), s, host, fuel) == RelabelRan(RunRegular(cmd, args, Counted, s, host, fuel), d)
    decreases 2 * fuel + 1, cmd, 3, 0
  {
    hide RunRedirected, Assign, RestoreVars, REGULAR, SPECIAL;
    var v := Assign(cmd.assignments, [], s.params, s.mem, host);
    if v.verdict.Done? {
      RedirectedAgrees(cmd, args, d, s.(mem := v.mem), host, fuel);
    }
  }

  lemma {:induction false} CompoundAgrees(cc: CompoundCommand, d: int, s: State, host: Host, fuel: nat)
    ensures RunCompound(cc, Labelled(d), s, host, fuel) == RelabelRan(RunCompound(cc, Counted, s, host, fuel), d)
    decreases 2 * fuel + 1, cc, 1, 0
  {
    hide RunList, RunFor, RunCase, RunBranches, RunElse, RunLoop, ExpandWords;
    match cc {
      case BraceGroup(list) => ListAgrees(list, d, s, host, fuel);
      case Subshell(_) =>
      case ForClause(_, words, _) =>
        if words.None? {
          ForAgrees(cc, s.params, 0, d, s, host, fuel);
        } else {
          var e := ExpandWords(words.value, [], s.params, s.mem, host);
          if e.Expanded? {
            ForAgrees(cc, e.value, 0, d, s.(mem := e.mem), host, fuel);
          }
        }
      case CaseClause(subject, items) =>
        var e := host.text(subject, s.params, s.mem);
        if e.Expanded? {
          CaseAgrees(items, e.value, d, s.(mem := e.mem), host, fuel);
        }
      case IfClause(branches, e) =>
        BranchesAgree(branches, d, s, host, fuel);
        var t := RunBranches(branches, Counted, s, host, fuel);
        if t.PassedOver? {
          ElseAgrees(e, d, t.s, host, fuel);
        }
      case _ => LoopAgrees(cc, 0, d, s, host, fuel);
    }
  }

  lemma {:induction false} BranchesAgree(branches: seq<Branch>, d: int, s: State, host: Host, fuel: nat)
    ensures RunBranches(branches, Labelled(d), s, host, fuel) == RelabelTried(RunBranches(branches, Counted, s, host, fuel), d)
    decreases 2 * fuel + 1, branches, 0, 0
  {
    hide RunBranch;
    if branches != [] {
      BranchAgrees(branches[0], d, s, host, fuel);
      var t := RunBranch(branches[0], Counted, s, host, fuel);
      if t.PassedOver? {
        BranchesAgree(branches[1..], d, t.s, host, fuel);
      }
    }
  }

  lemma {:induction false} BranchAgrees(b: Branch, d: int, s: State, host: Host, fuel: nat)
    ensures RunBranch(b, Labelled(d), s, host, fuel) == RelabelTried(RunBranch(b, Counted, s, host, fuel), d)
    decreases 2 * fuel + 1, b, 0, 0
  {
    hide RunList;
    ListAgrees(b.cond, d, s, host, fuel);
    ListAgrees(b.body, d, RunList(b.cond, Counted, s, host, fuel).s, host, fuel);
  }

  lemma {:induction false} ElseAgrees(e: Option<List>, d: int, s: State, host: Host, fuel: nat)
    ensures RunElse(e, Labelled(d), s, host, fuel) == RelabelRan(RunElse(e, Counted, s, host, fuel), d)
    decreases 2 * fuel + 1, e, 0, 0
  {
    hide RunList;
    if e.Some? {
      ListAgrees(e.value, d, s, host, fuel);
    }
  }

  lemma {:induction false} LoopAgrees(cc: CompoundCommand, status: int, d: int, s: State, host: Host, fuel: nat)
    requires cc.WhileClause? || cc.UntilClause?
    ensures RunLoop(cc, status, Labelled(d), s, host, fuel) == RelabelRan(RunLoop(cc, status, Counted, s, host, fuel), d)
    decreases 2 * fuel + 1, cc, 0, 0
  {
    hide RunList, Catch;
    ListAgrees(cc.cond, d, s, host, fuel);
    var c := RunList(cc.cond, Counted, s, host, fuel);
    ListAgrees(cc.list, d + 1, c.s, host, fuel);
    var b := RunList(cc.list, Counted, c.s, host, fuel);
    CatchAgrees(b.outcome, status, d);
    var caught := Catch(b.outcome, status, Counted);
    if caught.Again? && fuel > 0 {
      LoopAgrees(cc, caught.status, d, b.s, host, fuel - 1);
    }
  }

  lemma {:induction false} ForAgrees(cc: CompoundCommand, items: seq<string>, status: int, d: int, s: State,
                                     host: Host, fuel: nat)
    requires cc.ForClause?
    ensures RunFor(cc, items, status, Labelled(d), s, host, fuel)
         == RelabelRan(RunFor(cc, items, status, Counted, s, host, fuel), d)
    decreases 2 * fuel + 1, cc, 0, |items|
  {
    hide RunList, Catch, SetVar;
    if items != [] && SetVar(s.mem, cc.varName, items[0]).Some? {
      var s1 := s.(mem := SetVar(s.mem, cc.varName, items[0]).value);
      ListAgrees(cc.list, d + 1, s1, host, fuel);
      var b := RunList(cc.list, Counted, s1, host, fuel);
      CatchAgrees(b.outcome, status, d);
      var caught := Catch(b.outcome, status, Counted);
      if caught.Again? {
        ForAgrees(cc, items[1..], caught.status, d, b.s, host, fuel);
      }
    }
  }

  lemma {:induction false} CaseAgrees(items: seq<CaseItem>, subject: string, d: int, s: State, host: Host, fuel: nat)
    ensures RunCase(items, subject, Labelled(d), s, host, fuel) == RelabelRan(RunCase(items, subject, Counted, s, host, fuel), d)
    decreases 2 * fuel + 1, items, 0, 0
  {
    hide RunCaseItem, MatchAny;
    if items != [] {
      var m := MatchAny(items[0].patterns, subject, s.params, s.mem, host);
      if m.Expanded? {
        if m.value {
          CaseItemAgrees(items[0], d, s.(mem := m.mem), host, fuel);
        } else {
          CaseAgrees(items[1..], subject, d, s.(mem := m.mem), host, fuel);
        }
      }
    }
  }

  lemma {:induction false} CaseItemAgrees(item: CaseItem, d: int, s: State, host: Host, fuel: nat)
    ensures RunCaseItem(item, Labelled(d), s, host, fuel) == RelabelRan(RunCaseItem(item, Counted, s, host, fuel), d)
    decreases 2 * fuel + 1, item, 0, 0
  {
    hide RunList;
    ListAgrees(item.body, d, s, host, fuel);
  }

  // ----------------------------------------------------------- consequences

  /** Counted jumps are static jumps. In particular a jump still under way when a
      tree d loops deep has ended names one of those loops by number, below d,
      or one of the caller's. */
  lemma CountedIsLabelled(list: List, d: int, s: State, host: Host, fuel: nat)
    ensures var counted, labelled := RunList(list, Counted, s, host, fuel), RunList(list, Labelled(d), s, host, fuel);
            && labelled.s == counted.s
            && (labelled.outcome.Break? <==> counted.outcome.Break?)
            && (counted.outcome.Break? ==> labelled.outcome.n == d - counted.outcome.n < d)
            && (labelled.outcome.Continue? <==> counted.outcome.Continue?)
            && (counted.outcome.Continue? ==> labelled.outcome.n == d - counted.outcome.n < d)
            && (!counted.outcome.Break? && !counted.outcome.Continue? ==> labelled.outcome == counted.outcome)
  {
    hide RunList;
    ListAgrees(list, d, s, host, fuel);
  }
}
