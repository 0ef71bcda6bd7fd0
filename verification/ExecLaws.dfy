/** Fuel only bounds how far a run is followed: a run that ends gives the same
    state and end with any more of it. And lists and and-or chains mean what
    their parts mean one after the other. */
module ExecLaws {
  import opened Prelude
  import opened Tokens
  import opened Ast
  import opened Descriptors
  import opened ExecSpec

  lemma {:induction false} ListFuel(list: List, j: Jumps, s: State, host: Host, fuel: nat)
    requires RunList(list, j, s, host, fuel).outcome != OutOfFuel
    ensures RunList(list, j, s, host, fuel + 1) == RunList(list, j, s, host, fuel)
    decreases 2 * fuel + 1, list, 0, 0
  {
    ItemsFuel(list.items, 0, j, s, host, fuel);
  }

  lemma {:induction false} ItemsFuel(items: seq<ListItem>, status: int, j: Jumps, s: State, host: Host, fuel: nat)
    requires RunItems(items, status, j, s, host, fuel).outcome != OutOfFuel
    ensures RunItems(items, status, j, s, host, fuel + 1) == RunItems(items, status, j, s, host, fuel)
    decreases 2 * fuel + 1, items, 0, 0
  {
    hide RunItem;
    if items != [] {
      ItemFuel(items[0], j, s, host, fuel);
      var r := RunItem(items[0], j, s, host, fuel);
      if r.outcome.Status? {
        ItemsFuel(items[1..], r.outcome.n, j, r.s, host, fuel);
      }
    }
  }

  lemma {:induction false} ItemFuel(item: ListItem, j: Jumps, s: State, host: Host, fuel: nat)
    requires RunItem(item, j, s, host, fuel).outcome != OutOfFuel
    ensures RunItem(item, j, s, host, fuel + 1) == RunItem(item, j, s, host, fuel)
    decreases 2 * fuel + 1, item, 0, 0
  {
    hide RunAndOr;
    if !item.sep.Async? {
      AndOrFuel(item.andOr, j, s, host, fuel);
    }
  }

  lemma {:induction false} AndOrFuel(a: AndOr, j: Jumps, s: State, host: Host, fuel: nat)
    requires RunAndOr(a, j, s, host, fuel).outcome != OutOfFuel
    ensures RunAndOr(a, j, s, host, fuel + 1) == RunAndOr(a, j, s, host, fuel)
    decreases 2 * fuel + 1, a, 0, 0
  {
    hide RunPipeline, RunRest;
    PipelineFuel(a.first, j, s, host, fuel);
    var r := RunPipeline(a.first, j, s, host, fuel);
    if r.outcome.Status? {
      RestFuel(a.rest, r.outcome.n, j, r.s.(mem := r.s.mem.(last := r.outcome.n)), host, fuel);
    }
  }

  lemma {:induction false} RestFuel(parts: seq<AndOrPart>, status: int, j: Jumps, s: State, host: Host, fuel: nat)
    requires RunRest(parts, status, j, s, host, fuel).outcome != OutOfFuel
    ensures RunRest(parts, status, j, s, host, fuel + 1) == RunRest(parts, status, j, s, host, fuel)
    decreases 2 * fuel + 1, parts, 0, 0
  {
    hide RunPart;
    if parts == [] {
    } else if parts[0].isAnd != (status == 0) {
      RestFuel(parts[1..], status, j, s, host, fuel);
    } else {
      PartFuel(parts[0], j, s, host, fuel);
      var r := RunPart(parts[0], j, s, host, fuel);
      if r.outcome.Status? {
        RestFuel(parts[1..], r.outcome.n, j, r.s.(mem := r.s.mem.(last := r.outcome.n)), host, fuel);
      }
    }
  }

  lemma {:induction false} PartFuel(part: AndOrPart, j: Jumps, s: State, host: Host, fuel: nat)
    requires RunPart(part, j, s, host, fuel).outcome != OutOfFuel
    ensures RunPart(part, j, s, host, fuel + 1) == RunPart(part, j, s, host, fuel)
    decreases 2 * fuel + 1, part, 0, 0
  {
    hide RunPipeline;
    PipelineFuel(part.pipeline, j, s, host, fuel);
  }

  lemma {:induction false} PipelineFuel(p: Pipeline, j: Jumps, s: State, host: Host, fuel: nat)
    requires RunPipeline(p, j, s, host, fuel).outcome != OutOfFuel
    ensures RunPipeline(p, j, s, host, fuel + 1) == RunPipeline(p, j, s, host, fuel)
    decreases 2 * fuel + 1, p, 0, 0
  {
    hide RunCommand, RunStages;
    if |p.commands| == 1 {
      CommandFuel(p.commands[0], j, s, host, fuel);
    }
  }

  lemma {:induction false} CommandFuel(c: Command, j: Jumps, s: State, host: Host, fuel: nat)
    requires RunCommand(c, j, s, host, fuel).outcome != OutOfFuel
    ensures RunCommand(c, j, s, host, fuel + 1) == RunCommand(c, j, s, host, fuel)
    decreases 2 * fuel + 1, c, 0, 0
  {
    hide RunSimple, RunCompound, ApplyRedirects, Restored;
    match c {
      case Simple(cmd) => SimpleFuel(cmd, j, s, host, fuel);
      case Compound(body, rs) =>
        var a := ApplyRedirects(rs, s, [], true, host);
        if a.verdict.Done? {
          CompoundFuel(body, j, a.s, host, fuel);
        }
      case FunctionDefinition(_, _, _) =>
    }
  }

  lemma {:induction false} SimpleFuel(cmd: SimpleCommand, j: Jumps, s: State, host: Host, fuel: nat)
    requires RunSimple(cmd, j, s, host, fuel).outcome != OutOfFuel
    ensures RunSimple(cmd, j, s, host, fuel + 1) == RunSimple(cmd, j, s, host, fuel)
    decreases 2 * fuel + 1, cmd, 4, 0
  {
    hide RunBare, RunSpecial, RunRegular, ExpandWords, Overrides, SPECIAL;
    var e := ExpandWords(cmd.words, [], s.params, s.mem, host);
    if e.Expanded? && e.value != [] {
      var o := Overrides(cmd.assignments, [], s.params, e.mem, host);
      if o.Expanded? {
        if e.value[0] in SPECIAL {
          SpecialFuel(cmd, e.value, j, s.(mem := o.mem), host, fuel);
        } else {
          RegularFuel(cmd, e.value, j, s.(mem := o.mem), host, fuel);
        }
      }
    }
  }

  lemma {:induction false} SpecialFuel(cmd: SimpleCommand, args: seq<string>, j: Jumps, s: State, host: Host, fuel: nat)
    requires args != [] && RunSpecial(cmd, args, j, s, host, fuel).outcome != OutOfFuel
    ensures RunSpecial(cmd, args, j, s, host, fuel + 1) == RunSpecial(cmd, args, j, s, host, fuel)
    decreases 2 * fuel + 1, cmd, 3, 0
  {
    hide RunRedirected, Assign, ApplyRedirects;
    var v := Assign(cmd.assignments, [], s.params, s.mem, host);
    if v.verdict.Done? && args[0] != "exec" {
      RedirectedFuel(cmd, args, j, s.(mem := v.mem), host, fuel);
    }
  }

  lemma {:induction false} RedirectedFuel(cmd: SimpleCommand, args: seq<string>, j: Jumps, s: State,
                                          host: Host, fuel: nat)
    requires args != [] && RunRedirected(cmd, args, j, s, host, fuel).outcome != OutOfFuel
    ensures RunRedirected(cmd, args, j, s, host, fuel + 1) == RunRedirected(cmd, args, j, s, host, fuel)
    decreases 2 * fuel + 1, cmd, 1, 0
  {
    hide ApplyRedirects, CallSpecial, CallFunction, CallBuiltin, Restored, SPECIAL;
    var a := ApplyRedirects(cmd.redirects, s, [], true, host);
    if a.verdict.Done? {
      if args[0] in SPECIAL {
        CallSpecialFuel(args, j, a.s, host, fuel);
      } else if args[0] in a.s.functions {
        CallFunctionFuel(a.s.functions[args[0]], args[1..], j, a.s, host, fuel);
      } else {
        CallBuiltinFuel(args, j, a.s, host, fuel);
      }
    }
  }

  lemma {:induction false} CallSpecialFuel(args: seq<string>, j: Jumps, s: State, host: Host, fuel: nat)
    requires args != [] && CallSpecial(args, j, s, host, fuel).outcome != OutOfFuel
    ensures CallSpecial(args, j, s, host, fuel + 1) == CallSpecial(args, j, s, host, fuel)
    decreases 2 * fuel, 1
  {
    hide CallBuiltin, Levels, IntArg;
    if args[0] != "break" && args[0] != "continue" && args[0] != "return" && args[0] != "exit" {
      CallBuiltinFuel(args, j, s, host, fuel);
    }
  }

  lemma {:induction false} CallBuiltinFuel(args: seq<string>, j: Jumps, s: State, host: Host, fuel: nat)
    requires args != [] && CallBuiltin(args, j, s, host, fuel).outcome != OutOfFuel
    ensures CallBuiltin(args, j, s, host, fuel + 1) == CallBuiltin(args, j, s, host, fuel)
    decreases 2 * fuel, 0
  {
    hide RunList;
    var e := host.builtin(args, s.params, s.mem);
    if e.Sources? {
      ListFuel(e.list, j, s.(params := if e.override.Some? then e.override.value else s.params, mem := e.mem), host, fuel - 1);
    }
  }

  lemma {:induction false} CallFunctionFuel(body: CompoundCommand, args: seq<string>, j: Jumps, s: State,
                                            host: Host, fuel: nat)
    requires CallFunction(body, args, j, s, host, fuel).outcome != OutOfFuel
    ensures CallFunction(body, args, j, s, host, fuel + 1) == CallFunction(body, args, j, s, host, fuel)
    decreases 2 * fuel, 0
  {
    hide RunCompound;
    CompoundFuel(body, EnterFunction(j), s.(params := args), host, fuel - 1);
  }

  lemma {:induction false} RegularFuel(cmd: SimpleCommand, args: seq<string>, j: Jumps, s: State, host: Host, fuel: nat)
    requires args != [] && args[0] !in SPECIAL && RunRegular(cmd, args, j, s, host, fuel).outcome != OutOfFuel
    ensures RunRegular(cmd, args, j, s, host, fuel + 1) == RunRegular(cmd, args, j, s, host, fuel)
    decreases 2 * fuel + 1, cmd, 3, 0
  {
    hide RunRedirected, Assign, RestoreVars, REGULAR, SPECIAL;
    var v := Assign(cmd.assignments, [], s.params, s.mem, host);
    if v.verdict.Done? && (args[0] in s.functions || args[0] in REGULAR) {
      RedirectedFuel(cmd, args, j, s.(mem := v.mem), host, fuel);
    }
  }

  lemma {:induction false} CompoundFuel(cc: CompoundCommand, j: Jumps, s: State, host: Host, fuel: nat)
    requires RunCompound(cc, j, s, host, fuel).outcome != OutOfFuel
    ensures RunCompound(cc, j, s, host, fuel + 1) == RunCompound(cc, j, s, host, fuel)
    decreases 2 * fuel + 1, cc, 1, 0
  {
    hide RunList, RunFor, RunCase, RunBranches, RunElse, RunLoop, ExpandWords;
    match cc {
      case BraceGroup(list) => ListFuel(list, j, s, host, fuel);
      case Subshell(_) =>
      case ForClause(_, words, _) =>
        if words.None? {
          ForFuel(cc, s.params, 0, j, s, host, fuel);
        } else {
          var e := ExpandWords(words.value, [], s.params, s.mem, host);
          if e.Expanded? {
            ForFuel(cc, e.value, 0, j, s.(mem := e.mem), host, fuel);
          }
        }
      case CaseClause(subject, items) =>
        var e := host.text(subject, s.params, s.mem);
        if e.Expanded? {
          CaseFuel(items, e.value, j, s.(mem := e.mem), host, fuel);
        }
      case IfClause(branches, e) =>
        BranchesFuel(branches, j, s, host, fuel);
        var t := RunBranches(branches, j, s, host, fuel);
        if t.PassedOver? {
          ElseFuel(e, j, t.s, host, fuel);
        }
      case _ => LoopFuel(cc, 0, j, s, host, fuel);
    }
  }

  predicate EndsWithin(t: Tried) {
    t.Taken? ==> t.ran.outcome != OutOfFuel
  }

  lemma {:induction false} BranchesFuel(branches: seq<Branch>, j: Jumps, s: State, host: Host, fuel: nat)
    requires EndsWithin(RunBranches(branches, j, s, host, fuel))
    ensures RunBranches(branches, j, s, host, fuel + 1) == RunBranches(branches, j, s, host, fuel)
    decreases 2 * fuel + 1, branches, 0, 0
  {
    hide RunBranch;
    if branches != [] {
      BranchFuel(branches[0], j, s, host, fuel);
      var t := RunBranch(branches[0], j, s, host, fuel);
      if t.PassedOver? {
        BranchesFuel(branches[1..], j, t.s, host, fuel);
      }
    }
  }

  lemma {:induction false} BranchFuel(b: Branch, j: Jumps, s: State, host: Host, fuel: nat)
    requires EndsWithin(RunBranch(b, j, s, host, fuel))
    ensures RunBranch(b, j, s, host, fuel + 1) == RunBranch(b, j, s, host, fuel)
    decreases 2 * fuel + 1, b, 0, 0
  {
    hide RunList;
    ListFuel(b.cond, j, s, host, fuel);
    var c := RunList(b.cond, j, s, host, fuel);
    if c.outcome == Status(0) {
      ListFuel(b.body, j, c.s, host, fuel);
    }
  }

  lemma {:induction false} ElseFuel(e: Option<List>, j: Jumps, s: State, host: Host, fuel: nat)
    requires RunElse(e, j, s, host, fuel).outcome != OutOfFuel
    ensures RunElse(e, j, s, host, fuel + 1) == RunElse(e, j, s, host, fuel)
    decreases 2 * fuel + 1, e, 0, 0
  {
    hide RunList;
    if e.Some? {
      ListFuel(e.value, j, s, host, fuel);
    }
  }

  lemma {:induction false} LoopFuel(cc: CompoundCommand, status: int, j: Jumps, s: State, host: Host, fuel: nat)
    requires cc.WhileClause? || cc.UntilClause?
    requires RunLoop(cc, status, j, s, host, fuel).outcome != OutOfFuel
    ensures RunLoop(cc, status, j, s, host, fuel + 1) == RunLoop(cc, status, j, s, host, fuel)
    decreases 2 * fuel + 1, cc, 0, 0
  {
    hide RunList, Catch;
    ListFuel(cc.cond, j, s, host, fuel);
    var c := RunList(cc.cond, j, s, host, fuel);
    if c.outcome.Status? && (c.outcome.n == 0) != cc.UntilClause? {
      var b := RunList(cc.list, EnterLoop(j), c.s, host, fuel);
      var caught := Catch(b.outcome, status, j);
      OutOfFuelIsNotCaught(b.outcome, status, j);
      ListFuel(cc.list, EnterLoop(j), c.s, host, fuel);
      if caught.Again? {
        LoopFuel(cc, caught.status, j, b.s, host, fuel - 1);
      }
    }
  }

  lemma OutOfFuelIsNotCaught(o: Outcome, status: int, j: Jumps)
    ensures o == OutOfFuel <==> Catch(o, status, j) == Out(OutOfFuel)
  {
  }

  lemma {:induction false} ForFuel(cc: CompoundCommand, items: seq<string>, status: int, j: Jumps, s: State,
                                   host: Host, fuel: nat)
    requires cc.ForClause?
    requires RunFor(cc, items, status, j, s, host, fuel).outcome != OutOfFuel
    ensures RunFor(cc, items, status, j, s, host, fuel + 1) == RunFor(cc, items, status, j, s, host, fuel)
    decreases 2 * fuel + 1, cc, 0, |items|
  {
    hide RunList, Catch, SetVar;
    if items != [] && SetVar(s.mem, cc.varName, items[0]).Some? {
      var s1 := s.(mem := SetVar(s.mem, cc.varName, items[0]).value);
      var b := RunList(cc.list, EnterLoop(j), s1, host, fuel);
      var caught := Catch(b.outcome, status, j);
      OutOfFuelIsNotCaught(b.outcome, status, j);
      ListFuel(cc.list, EnterLoop(j), s1, host, fuel);
      if caught.Again? {
        ForFuel(cc, items[1..], caught.status, j, b.s, host, fuel);
      }
    }
  }

  lemma {:induction false} CaseFuel(items: seq<CaseItem>, subject: string, j: Jumps, s: State, host: Host, fuel: nat)
    requires RunCase(items, subject, j, s, host, fuel).outcome != OutOfFuel
    ensures RunCase(items, subject, j, s, host, fuel + 1) == RunCase(items, subject, j, s, host, fuel)
    decreases 2 * fuel + 1, items, 0, 0
  {
    hide RunCaseItem, MatchAny;
    if items != [] {
      var m := MatchAny(items[0].patterns, subject, s.params, s.mem, host);
      if m.Expanded? {
        if m.value {
          CaseItemFuel(items[0], j, s.(mem := m.mem), host, fuel);
        } else {
          CaseFuel(items[1..], subject, j, s.(mem := m.mem), host, fuel);
        }
      }
    }
  }

  lemma {:induction false} CaseItemFuel(item: CaseItem, j: Jumps, s: State, host: Host, fuel: nat)
    requires RunCaseItem(item, j, s, host, fuel).outcome != OutOfFuel
    ensures RunCaseItem(item, j, s, host, fuel + 1) == RunCaseItem(item, j, s, host, fuel)
    decreases 2 * fuel + 1, item, 0, 0
  {
    hide RunList;
    ListFuel(item.body, j, s, host, fuel);
  }

  /** A run that ends is the run: any more fuel gives the same state and end. */
  lemma {:induction false} FuelOnlyBounds(list: List, j: Jumps, s: State, host: Host, fuel: nat, more: nat)
    requires fuel <= more && RunList(list, j, s, host, fuel).outcome != OutOfFuel
    ensures RunList(list, j, s, host, more) == RunList(list, j, s, host, fuel)
    decreases more - fuel
  {
    hide RunList;
    if fuel < more {
      ListFuel(list, j, s, host, fuel);
      FuelOnlyBounds(list, j, s, host, fuel + 1, more);
    }
  }

  // ---------------------------------------------------------- composition

  /** Two lists in a row: the second runs where the first ended, unless the first
      was unwound. */
  lemma {:induction false} ListsCompose(a: seq<ListItem>, b: seq<ListItem>, status: int, j: Jumps, s: State,
                                        host: Host, fuel: nat)
    ensures var first := RunItems(a, status, j, s, host, fuel);
            RunItems(a + b, status, j, s, host, fuel)
            == if first.outcome.Status? then RunItems(b, first.outcome.n, j, first.s, host, fuel) else first
    decreases |a|
  {
    hide RunItem;
    if a == [] {
      assert a + b == b;
    } else {
      assert (a + b)[0] == a[0] && (a + b)[1..] == a[1..] + b;
      var r := RunItem(a[0], j, s, host, fuel);
      if r.outcome.Status? {
        ListsCompose(a[1..], b, r.outcome.n, j, r.s, host, fuel);
      }
    }
  }

  /** && and || associate to the left with equal precedence: what follows in a
      chain sees only the status of everything before it. */
  lemma {:induction false} ChainsCompose(a: seq<AndOrPart>, b: seq<AndOrPart>, status: int, j: Jumps, s: State,
                                         host: Host, fuel: nat)
    ensures var first := RunRest(a, status, j, s, host, fuel);
            RunRest(a + b, status, j, s, host, fuel)
            == if first.outcome.Status? then RunRest(b, first.outcome.n, j, first.s, host, fuel) else first
    decreases |a|
  {
    hide RunPart;
    if a == [] {
      assert a + b == b;
    } else {
      assert (a + b)[0] == a[0] && (a + b)[1..] == a[1..] + b;
      if a[0].isAnd != (status == 0) {
        ChainsCompose(a[1..], b, status, j, s, host, fuel);
      } else {
        var r := RunPart(a[0], j, s, host, fuel);
        if r.outcome.Status? {
          ChainsCompose(a[1..], b, r.outcome.n, j, r.s.(mem := r.s.mem.(last := r.outcome.n)), host, fuel);
        }
      }
    }
  }

  /** After a success a run of alternatives (||), and after a failure a run of
      conditions (&&), does nothing at all and keeps the status. */
  lemma {:induction false} SkippedPartsDoNothing(parts: seq<AndOrPart>, status: int, j: Jumps, s: State,
                                                 host: Host, fuel: nat)
    requires forall i :: 0 <= i < |parts| ==> parts[i].isAnd == (status != 0)
    ensures RunRest(parts, status, j, s, host, fuel) == Ran(Status(status), s)
    decreases |parts|
  {
    hide RunPart;
    if parts != [] {
      SkippedPartsDoNothing(parts[1..], status, j, s, host, fuel);
    }
  }
}
