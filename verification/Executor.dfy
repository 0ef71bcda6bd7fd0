/** The executor as the program runs it: it walks the tree, changing the shell's
    descriptors, parameters, functions and variables in place. Every method
    does exactly what the function of its name in ExecSpec says. */
module Executor {
  import opened Prelude
  import opened Tokens
  import opened Ast
  import opened Descriptors
  import opened ExecSpec
  import Numbers

  class Shell {
    const host: Host
    const kernel: Kernel
    var params: seq<string>
    var functions: map<string, CompoundCommand>
    var mem: Memory
    var execUsed: bool

    ghost function View(): State
      reads this, kernel
    {
      State(kernel.fds, params, functions, mem, execUsed)
    }

    constructor (host: Host, kernel: Kernel, params: seq<string>, mem: Memory)
      ensures this.host == host && this.kernel == kernel
      ensures View() == State(kernel.fds, params, map[], mem, false)
    {
      this.host, this.kernel := host, kernel;
      this.params, this.functions, this.mem, this.execUsed := params, map[], mem, false;
    }

    method TrySetVar(name: string, value: string) returns (ok: bool)
      modifies this`mem
      ensures var r := SetVar(old(mem), name, value);
              ok == r.Some? && mem == if r.Some? then r.value else old(mem)
    {
      if name in mem.vars && mem.vars[name].readonly {
        return false;
      }
      var v := if name in mem.vars then mem.vars[name].(value := value) else Variable(value, false, false);
      mem := mem.(vars := mem.vars[name := v]);
      return true;
    }

    // -------------------------------------------------------- redirections

    method ApplyOneRedirect(r: Redirect, restorer: FdRestorer?) returns (verdict: Verdict)
      requires restorer != null ==> restorer.kernel == kernel && restorer.Valid()
      modifies this`mem, kernel, if restorer != null then {restorer} else {}
      ensures restorer != null ==> restorer.Valid()
      ensures Applied(verdict, View(), if restorer != null then restorer.saved else [])
           == ApplyOne(r, old(View()), if restorer != null then old(restorer.saved) else [], restorer != null, host)
    {
      var target := TargetFd(r);
      if restorer != null {
        restorer.SaveFd(target);
      }
      if r.target.HereDocTarget? {
        var body := host.document(r.target.id, r.target.doc, params, mem);
        mem := body.mem;
        if body.Thrown? {
          return Threw(body.fault);
        }
        var (file, world) := host.tmpfile(body.value, mem.world);
        mem := mem.(world := world);
        OntoTarget(file, target);
        return Done;
      }
      var text := host.text(r.target.word, params, mem);
      mem := text.mem;
      if text.Thrown? {
        return Threw(text.fault);
      }
      if r.op.LessAnd? || r.op.GreatAnd? {
        if text.value == "-" {
          kernel.CloseFd(target);
          return Done;
        }
        var source := SourceFd(text.value);
        if source.None? || source.value < 0 {
          return Failed;
        }
        var ok := kernel.DupOnto(source.value, target);
        return if ok then Done else Failed;
      }
      if !(r.op.Less? || r.op.Great? || r.op.Clobber? || r.op.DGreat? || r.op.LessGreat?) {
        return Failed;
      }
      var (file, world) := host.open(text.value, r.op, mem.world);
      mem := mem.(world := world);
      if file.None? {
        return Failed;
      }
      OntoTarget(file.value, target);
      return Done;
    }

    method OntoTarget(file: nat, target: nat)
      modifies kernel
      ensures kernel.fds == OpenOnto(old(kernel.fds), file, target)
    {
      var fd := kernel.OpenFile(file);
      var _ := kernel.DupOnto(fd, target);
      kernel.CloseFd(fd);
    }

    method ApplyAll(rs: seq<Redirect>, restorer: FdRestorer?) returns (verdict: Verdict)
      requires restorer != null ==> restorer.kernel == kernel && restorer.Valid()
      modifies this`mem, kernel, if restorer != null then {restorer} else {}
      ensures restorer != null ==> restorer.Valid()
      ensures Applied(verdict, View(), if restorer != null then restorer.saved else [])
           == ApplyRedirects(rs, old(View()), if restorer != null then old(restorer.saved) else [], restorer != null, host)
    {
      hide ApplyOne;
      var i := 0;
      while i < |rs|
        invariant 0 <= i <= |rs|
        invariant restorer != null ==> restorer.Valid()
        invariant ApplyRedirects(rs[i..], View(), if restorer != null then restorer.saved else [], restorer != null, host)
               == ApplyRedirects(rs, old(View()), if restorer != null then old(restorer.saved) else [], restorer != null, host)
      {
        assert rs[i..][0] == rs[i] && rs[i..][1..] == rs[i + 1..];
        verdict := ApplyOneRedirect(rs[i], restorer);
        if !verdict.Done? {
          return;
        }
        i := i + 1;
      }
      verdict := Done;
    }

    // --------------------------------------------------------------- words

    method ExpandAll(words: seq<Word>) returns (thrown: Option<Fault>, args: seq<string>)
      modifies this`mem
      ensures ExpandWords(words, [], params, old(mem), host)
           == if thrown.None? then Expanded(args, mem) else Thrown(thrown.value, mem)
    {
      thrown, args := None, [];
      var i := 0;
      while i < |words|
        invariant 0 <= i <= |words|
        invariant ExpandWords(words[i..], args, params, mem, host) == ExpandWords(words, [], params, old(mem), host)
      {
        assert words[i..][0] == words[i] && words[i..][1..] == words[i + 1..];
        var e := host.fields(words[i], params, mem);
        mem := e.mem;
        if e.Thrown? {
          return Some(e.fault), args;
        }
        args := args + e.value;
        i := i + 1;
      }
    }

    method ExpandOverrides(assignments: seq<Assignment>) returns (thrown: Option<Fault>, env: seq<string>)
      modifies this`mem
      ensures Overrides(assignments, [], params, old(mem), host)
           == if thrown.None? then Expanded(env, mem) else Thrown(thrown.value, mem)
    {
      thrown, env := None, [];
      var i := 0;
      while i < |assignments|
        invariant 0 <= i <= |assignments|
        invariant Overrides(assignments[i..], env, params, mem, host) == Overrides(assignments, [], params, old(mem), host)
      {
        assert assignments[i..][0] == assignments[i] && assignments[i..][1..] == assignments[i + 1..];
        var e := host.text(assignments[i].value, params, mem);
        mem := e.mem;
        if e.Thrown? {
          return Some(e.fault), env;
        }
        env := env + [assignments[i].name + "=" + e.value];
        i := i + 1;
      }
    }

    method AssignAll(assignments: seq<Assignment>) returns (verdict: Verdict, saved: seq<SavedVar>)
      modifies this`mem
      ensures Assigned(verdict, mem, saved) == Assign(assignments, [], params, old(mem), host)
    {
      hide SetVar;
      verdict, saved := Done, [];
      var i := 0;
      while i < |assignments|
        invariant 0 <= i <= |assignments| && verdict == Done
        invariant Assign(assignments[i..], saved, params, mem, host) == Assign(assignments, [], params, old(mem), host)
      {
        assert assignments[i..][0] == assignments[i] && assignments[i..][1..] == assignments[i + 1..];
        var a := assignments[i];
        var prior := if a.name in mem.vars then Some(mem.vars[a.name].value) else None;
        var e := host.text(a.value, params, mem);
        mem := e.mem;
        if e.Thrown? {
          return Threw(e.fault), saved;
        }
        var ok := TrySetVar(a.name, e.value);
        if !ok {
          return Failed, saved;
        }
        saved := saved + [SavedVar(a.name, prior)];
        i := i + 1;
      }
    }

    method RestoreAll(saved: seq<SavedVar>) returns (ok: bool)
      modifies this`mem
      ensures (ok, mem) == RestoreVars(saved, old(mem))
    {
      hide SetVar;
      var n := |saved|;
      assert saved[..n] == saved;
      while n > 0
        invariant 0 <= n <= |saved| && RestoreVars(saved[..n], mem) == RestoreVars(saved, old(mem))
      {
        n := n - 1;
        assert saved[..n + 1][..n] == saved[..n];
        var v := saved[n];
        if v.value.None? {
          mem := mem.(vars := mem.vars - {v.name});
        } else {
          ok := TrySetVar(v.name, v.value.value);
          if !ok {
            return;
          }
        }
      }
      ok := true;
    }

    // -------------------------------------------------------------- lists

    method RunList(list: List, fuel: nat) returns (o: Outcome)
      modifies this, kernel
      ensures Ran(o, View()) == ExecSpec.RunList(list, Counted, old(View()), host, fuel)
      decreases 2 * fuel + 1, list, 0, 0
    {
      hide ExecSpec.RunItem;
      var status, i := 0, 0;
      while i < |list.items|
        invariant 0 <= i <= |list.items|
        invariant RunItems(list.items[i..], status, Counted, View(), host, fuel)
               == RunItems(list.items, 0, Counted, old(View()), host, fuel)
      {
        assert list.items[i..][0] == list.items[i] && list.items[i..][1..] == list.items[i + 1..];
        o := RunItem(list.items[i], fuel);
        if !o.Status? {
          return;
        }
        status := o.n;
        i := i + 1;
      }
      o := Status(status);
    }

    method RunItem(item: ListItem, fuel: nat) returns (o: Outcome)
      modifies this, kernel
      ensures Ran(o, View()) == ExecSpec.RunItem(item, Counted, old(View()), host, fuel)
      decreases 2 * fuel + 1, item, 0, 0
    {
      hide ExecSpec.RunAndOr;
      if item.sep.Async? {
        mem := mem.(last := 0, world := host.background(item.andOr, State(kernel.fds, params, functions, mem, execUsed)));
        return Status(0);
      }
      o := RunAndOr(item.andOr, fuel);
    }

    method RunAndOr(a: AndOr, fuel: nat) returns (o: Outcome)
      modifies this, kernel
      ensures Ran(o, View()) == ExecSpec.RunAndOr(a, Counted, old(View()), host, fuel)
      decreases 2 * fuel + 1, a, 0, 0
    {
      hide ExecSpec.RunPipeline, ExecSpec.RunPart;
      o := RunPipeline(a.first, fuel);
      if !o.Status? {
        return;
      }
      var status := o.n;
      mem := mem.(last := status);
      ghost var start := View();
      var i := 0;
      while i < |a.rest|
        invariant 0 <= i <= |a.rest|
        invariant RunRest(a.rest[i..], status, Counted, View(), host, fuel) == RunRest(a.rest, o.n, Counted, start, host, fuel)
        invariant o == ExecSpec.RunPipeline(a.first, Counted, old(View()), host, fuel).outcome
      {
        assert a.rest[i..][0] == a.rest[i] && a.rest[i..][1..] == a.rest[i + 1..];
        if a.rest[i].isAnd == (status == 0) {
          var p := RunPart(a.rest[i], fuel);
          if !p.Status? {
            return p;
          }
          status := p.n;
          mem := mem.(last := status);
        }
        i := i + 1;
      }
      o := Status(status);
    }

    method RunPart(part: AndOrPart, fuel: nat) returns (o: Outcome)
      modifies this, kernel
      ensures Ran(o, View()) == ExecSpec.RunPart(part, Counted, old(View()), host, fuel)
      decreases 2 * fuel + 1, part, 0, 0
    {
      hide ExecSpec.RunPipeline;
      o := RunPipeline(part.pipeline, fuel);
    }

    method RunPipeline(p: Pipeline, fuel: nat) returns (o: Outcome)
      modifies this, kernel
      ensures Ran(o, View()) == ExecSpec.RunPipeline(p, Counted, old(View()), host, fuel)
      decreases 2 * fuel + 1, p, 0, 0
    {
      hide ExecSpec.RunCommand, ExecSpec.RunStages;
      if |p.commands| == 1 {
        o := RunCommand(p.commands[0], fuel);
      } else {
        o := RunStages(p.commands);
      }
      if p.negated && o.Status? {
        o := Status(if o.n == 0 then 1 else 0);
      }
    }

    method RunStages(commands: seq<Command>) returns (o: Outcome)
      modifies this, kernel
      ensures Ran(o, View()) == ExecSpec.RunStages(commands, old(View()), host)
    {
      var n := if commands == [] then 0 else |commands| - 1;
      var (fds, pipes) := OpenPipes(kernel.fds, n, mem.world);
      kernel.fds := fds;
      var (status, world) := host.stages(commands, State(kernel.fds, params, functions, mem, execUsed));
      var i := 0;
      while i < |pipes|
        invariant 0 <= i <= |pipes| && CloseAll(kernel.fds, pipes[i..]) == CloseAll(fds, pipes)
        modifies kernel
      {
        assert pipes[i..][0] == pipes[i] && pipes[i..][1..] == pipes[i + 1..];
        kernel.CloseFd(pipes[i]);
        i := i + 1;
      }
      mem := mem.(world := world);
      o := Status(status);
    }

    // ------------------------------------------------------------ commands

    method RunCommand(c: Command, fuel: nat) returns (o: Outcome)
      modifies this, kernel
      ensures Ran(o, View()) == ExecSpec.RunCommand(c, Counted, old(View()), host, fuel)
      decreases 2 * fuel + 1, c, 0, 0
    {
      hide ExecSpec.RunSimple, ExecSpec.RunCompound, ApplyRedirects, Undo;
      hide Kept, PlainState, KeepingRedirects, PlainCompound, PlainHost;
      match c {
        case Simple(cmd) => o := RunSimple(cmd, fuel);
        case Compound(body, rs) =>
          var restorer := new FdRestorer(kernel);
          var verdict := ApplyAll(rs, restorer);
          if verdict.Done? {
            o := RunCompound(body, fuel);
          } else {
            o := Stopped(verdict);
          }
          restorer.Restore();
        case FunctionDefinition(name, body, _) =>
          functions := functions[name := body];
          o := Status(0);
      }
    }

    method RunSimple(cmd: SimpleCommand, fuel: nat) returns (o: Outcome)
      modifies this, kernel
      ensures Ran(o, View()) == ExecSpec.RunSimple(cmd, Counted, old(View()), host, fuel)
      decreases 2 * fuel + 1, cmd, 4, 0
    {
      hide ExecSpec.RunBare, ExecSpec.RunSpecial, ExecSpec.RunRegular, ExpandWords, Overrides;
      hide Kept, PlainState, KeepingRedirects, PlainHost;
      var thrown, args := ExpandAll(cmd.words);
      if thrown.Some? {
        return Error(thrown.value);
      }
      if args == [] {
        o := RunBare(cmd);
        return;
      }
      var thrownAgain, _ := ExpandOverrides(cmd.assignments);
      if thrownAgain.Some? {
        return Error(thrownAgain.value);
      }
      if args[0] in SPECIAL {
        o := RunSpecial(cmd, args, fuel);
      } else {
        o := RunRegular(cmd, args, fuel);
      }
    }

    method RunBare(cmd: SimpleCommand) returns (o: Outcome)
      modifies this, kernel
      ensures Ran(o, View()) == ExecSpec.RunBare(cmd, old(View()), host)
    {
      hide ApplyRedirects, Undo, Kept, PlainState, KeepingRedirects, Assign;
      var restorer := new FdRestorer(kernel);
      var verdict := ApplyAll(cmd.redirects, restorer);
      if verdict.Done? {
        var v, _ := AssignAll(cmd.assignments);
        o := if v.Done? then Status(0) else Stopped(v);
      } else {
        o := Stopped(verdict);
      }
      restorer.Restore();
    }

    method RunSpecial(cmd: SimpleCommand, args: seq<string>, fuel: nat) returns (o: Outcome)
      requires args != []
      modifies this, kernel
      ensures Ran(o, View()) == ExecSpec.RunSpecial(cmd, args, Counted, old(View()), host, fuel)
      decreases 2 * fuel + 1, cmd, 3, 0
    {
      hide ApplyRedirects, Kept, PlainState, KeepingRedirects, PlainHost, Assign, ExecSpec.RunRedirected;
      var v, _ := AssignAll(cmd.assignments);
      if !v.Done? {
        return Stopped(v);
      }
      if args[0] == "exec" {
        var verdict := ApplyAll(cmd.redirects, null);
        execUsed := true;
        if !verdict.Done? {
          return Stopped(verdict);
        }
        return if |args| < 2 then Status(0) else Exit(host.replace(args, mem));
      }
      o := RunRedirected(cmd, args, fuel);
    }

    method RunRedirected(cmd: SimpleCommand, args: seq<string>, fuel: nat) returns (o: Outcome)
      requires args != []
      modifies this, kernel
      ensures Ran(o, View()) == ExecSpec.RunRedirected(cmd, args, Counted, old(View()), host, fuel)
      decreases 2 * fuel + 1, cmd, 1, 0
    {
      hide ApplyRedirects, Undo, Kept, PlainState, KeepingRedirects, PlainHost, PlainCompound;
      hide ExecSpec.CallSpecial, ExecSpec.CallFunction, ExecSpec.CallBuiltin;
      var restorer := new FdRestorer(kernel);
      var verdict := ApplyAll(cmd.redirects, restorer);
      if !verdict.Done? {
        o := Stopped(verdict);
      } else if args[0] in SPECIAL {
        o := CallSpecial(args, fuel);
      } else if args[0] in functions {
        o := CallFunction(functions[args[0]], args[1..], fuel);
      } else {
        o := CallBuiltin(args, fuel);
      }
      restorer.Restore();
    }

    method CallSpecial(args: seq<string>, fuel: nat) returns (o: Outcome)
      requires args != []
      modifies this, kernel
      ensures Ran(o, View()) == ExecSpec.CallSpecial(args, Counted, old(View()), host, fuel)
      decreases 2 * fuel, 1
    {
      hide ExecSpec.CallBuiltin, Kept, PlainState, PlainHost;
      if args[0] == "break" {
        return Break(Levels(args));
      }
      if args[0] == "continue" {
        return Continue(Levels(args));
      }
      if args[0] == "return" {
        return Return(IntArg(args, mem.last, 0));
      }
      if args[0] == "exit" {
        var status := IntArg(args, mem.last, 2);
        mem := mem.(last := status);
        return Exit(status);
      }
      o := CallBuiltin(args, fuel);
    }

    method CallBuiltin(args: seq<string>, fuel: nat) returns (o: Outcome)
      requires args != []
      modifies this, kernel
      ensures Ran(o, View()) == ExecSpec.CallBuiltin(args, Counted, old(View()), host, fuel)
      decreases 2 * fuel, 0
    {
      hide ExecSpec.RunList, Kept, PlainState, PlainHost, PlainList;
      var e := host.builtin(args, params, mem);
      match e {
        case Finished(status, newParams, erased, newMem) =>
          params, functions, mem := newParams, functions - erased, newMem;
          o := Status(status);
        case Throws(fault, newMem) =>
          mem := newMem;
          o := Error(fault);
        case Sources(list, override, newMem) =>
          mem := newMem;
          if fuel == 0 {
            return OutOfFuel;
          }
          var saved := params;
          if override.Some? {
            params := override.value;
          }
          o := RunList(list, fuel - 1);
          if override.Some? {
            params := saved;
          }
      }
    }

    method CallFunction(body: CompoundCommand, args: seq<string>, fuel: nat) returns (o: Outcome)
      modifies this, kernel
      ensures Ran(o, View()) == ExecSpec.CallFunction(body, args, Counted, old(View()), host, fuel)
      ensures params == old(params)
      decreases 2 * fuel, 0
    {
      hide ExecSpec.RunCompound, Kept, PlainState, PlainHost, PlainCompound;
      if fuel == 0 {
        return OutOfFuel;
      }
      var saved := params;
      params := args;
      o := RunCompound(body, fuel - 1);
      if o.Return? {
        o := Status(o.n);
      }
      params := saved;
    }

    method RunRegular(cmd: SimpleCommand, args: seq<string>, fuel: nat) returns (o: Outcome)
      requires args != [] && args[0] !in SPECIAL
      modifies this, kernel
      ensures Ran(o, View()) == ExecSpec.RunRegular(cmd, args, Counted, old(View()), host, fuel)
      decreases 2 * fuel + 1, cmd, 3, 0
    {
      hide ExecSpec.RunRedirected, Assign, RestoreVars, Kept, PlainState, PlainHost, KeepingRedirects;
      var verdict, saved := AssignAll(cmd.assignments);
      if !verdict.Done? {
        o := Stopped(verdict);
      } else if args[0] in functions || args[0] in REGULAR {
        o := RunRedirected(cmd, args, fuel);
      } else {
        var (status, world) := host.external(args, cmd, State(kernel.fds, params, functions, mem, execUsed));
        mem := mem.(world := world);
        o := Status(status);
      }
      if o.Status? {
        var ok := RestoreAll(saved);
        if !ok {
          o := Error(ReadonlySet);
        }
      }
    }

    // --------------------------------------------------- compound commands

    method RunCompound(cc: CompoundCommand, fuel: nat) returns (o: Outcome)
      modifies this, kernel
      ensures Ran(o, View()) == ExecSpec.RunCompound(cc, Counted, old(View()), host, fuel)
      decreases 2 * fuel + 1, cc, 1, 0
    {
      hide ExecSpec.RunList, ExecSpec.RunFor, ExecSpec.RunCase, ExecSpec.RunBranches, ExecSpec.RunElse, ExecSpec.RunLoop,
           ExpandWords;
      hide Kept, PlainState, PlainHost;
      match cc {
        case BraceGroup(list) => o := RunList(list, fuel);
        case Subshell(list) =>
          var (status, world) := host.subshell(list, State(kernel.fds, params, functions, mem, execUsed));
          mem := mem.(world := world);
          o := Status(status);
        case ForClause(_, words, _) =>
          var items := params;
          if words.Some? {
            var thrown, fields := ExpandAll(words.value);
            if thrown.Some? {
              return Error(thrown.value);
            }
            items := fields;
          }
          o := RunForClause(cc, items, fuel);
        case CaseClause(subject, items) =>
          var e := host.text(subject, params, mem);
          mem := e.mem;
          if e.Thrown? {
            return Error(e.fault);
          }
          o := RunCaseClause(items, e.value, fuel);
        case IfClause(branches, e) =>
          var taken: bool;
          taken, o := RunIfBranches(branches, fuel);
          if !taken {
            o := RunElse(e, fuel);
          }
        case _ => o := RunLoopClause(cc, fuel);
      }
    }

    method RunIfBranches(branches: seq<Branch>, fuel: nat) returns (taken: bool, o: Outcome)
      modifies this, kernel
      ensures RunBranches(branches, Counted, old(View()), host, fuel)
           == if taken then Taken(Ran(o, View())) else PassedOver(View())
      decreases 2 * fuel + 1, branches, 0, 0
    {
      hide ExecSpec.RunBranch;
      var i := 0;
      while i < |branches|
        invariant 0 <= i <= |branches|
        invariant RunBranches(branches[i..], Counted, View(), host, fuel)
               == RunBranches(branches, Counted, old(View()), host, fuel)
      {
        assert branches[i..][0] == branches[i] && branches[i..][1..] == branches[i + 1..];
        taken, o := RunIfBranch(branches[i], fuel);
        if taken {
          return;
        }
        i := i + 1;
      }
      taken, o := false, Status(0);
    }

    method RunIfBranch(b: Branch, fuel: nat) returns (taken: bool, o: Outcome)
      modifies this, kernel
      ensures RunBranch(b, Counted, old(View()), host, fuel)
           == if taken then Taken(Ran(o, View())) else PassedOver(View())
      decreases 2 * fuel + 1, b, 0, 0
    {
      hide ExecSpec.RunList;
      o := RunList(b.cond, fuel);
      if !o.Status? {
        return true, o;
      }
      taken := o.n == 0;
      if taken {
        o := RunList(b.body, fuel);
      }
    }

    method RunElse(e: Option<List>, fuel: nat) returns (o: Outcome)
      modifies this, kernel
      ensures Ran(o, View()) == ExecSpec.RunElse(e, Counted, old(View()), host, fuel)
      decreases 2 * fuel + 1, e, 0, 0
    {
      hide ExecSpec.RunList;
      if e.None? {
        return Status(0);
      }
      o := RunList(e.value, fuel);
    }

    method RunLoopClause(cc: CompoundCommand, fuel: nat) returns (o: Outcome)
      requires cc.WhileClause? || cc.UntilClause?
      modifies this, kernel
      ensures Ran(o, View()) == RunLoop(cc, 0, Counted, old(View()), host, fuel)
      decreases 2 * fuel + 1, cc, 0, 0
    {
      hide ExecSpec.RunList, Kept, PlainState, PlainHost, PlainCompound;
      var status := 0;
      var left: nat := fuel;
      while true
        invariant left <= fuel
        invariant RunLoop(cc, status, Counted, View(), host, left) == RunLoop(cc, 0, Counted, old(View()), host, fuel)
        decreases left
      {
        o := RunList(cc.cond, left);
        if !o.Status? {
          return;
        }
        var keepGoing := if cc.UntilClause? then o.n != 0 else o.n == 0;
        if !keepGoing {
          return Status(status);
        }
        o := RunList(cc.list, left);
        match o {
          case Status(n) => status := n;
          case Break(levels) => return if levels - 1 > 0 then Break(levels - 1) else Status(status);
          case Continue(levels) =>
            if levels - 1 > 0 {
              return Continue(levels - 1);
            }
          case _ => return;
        }
        if left == 0 {
          return OutOfFuel;
        }
        left := left - 1;
      }
    }

    method RunForClause(cc: CompoundCommand, items: seq<string>, fuel: nat) returns (o: Outcome)
      requires cc.ForClause?
      modifies this, kernel
      ensures Ran(o, View()) == RunFor(cc, items, 0, Counted, old(View()), host, fuel)
      decreases 2 * fuel + 1, cc, 0, 0
    {
      hide ExecSpec.RunList, Kept, PlainState, PlainHost, PlainCompound;
      var status, i := 0, 0;
      while i < |items|
        invariant 0 <= i <= |items|
        invariant RunFor(cc, items[i..], status, Counted, View(), host, fuel)
               == RunFor(cc, items, 0, Counted, old(View()), host, fuel)
      {
        assert items[i..][0] == items[i] && items[i..][1..] == items[i + 1..];
        var ok := TrySetVar(cc.varName, items[i]);
        if !ok {
          return Status(1);
        }
        i := i + 1;
        o := RunList(cc.list, fuel);
        match o {
          case Status(n) => status := n;
          case Break(levels) => return if levels - 1 > 0 then Break(levels - 1) else Status(status);
          case Continue(levels) =>
            if levels - 1 > 0 {
              return Continue(levels - 1);
            }
          case _ => return;
        }
      }
      o := Status(status);
    }

    method RunCaseClause(items: seq<CaseItem>, subject: string, fuel: nat) returns (o: Outcome)
      modifies this, kernel
      ensures Ran(o, View()) == RunCase(items, subject, Counted, old(View()), host, fuel)
      decreases 2 * fuel + 1, items, 0, 0
    {
      hide ExecSpec.RunCaseItem, MatchAny;
      var i := 0;
      while i < |items|
        invariant 0 <= i <= |items|
        invariant RunCase(items[i..], subject, Counted, View(), host, fuel)
               == RunCase(items, subject, Counted, old(View()), host, fuel)
      {
        assert items[i..][0] == items[i] && items[i..][1..] == items[i + 1..];
        var thrown, matched := MatchesAny(items[i].patterns, subject);
        if thrown.Some? {
          return Error(thrown.value);
        }
        if matched {
          o := RunCaseItem(items[i], fuel);
          return;
        }
        i := i + 1;
      }
      o := Status(0);
    }

    method MatchesAny(patterns: seq<Word>, subject: string) returns (thrown: Option<Fault>, matched: bool)
      modifies this`mem
      ensures MatchAny(patterns, subject, params, old(mem), host)
           == if thrown.None? then Expanded(matched, mem) else Thrown(thrown.value, mem)
    {
      thrown, matched := None, false;
      var i := 0;
      while i < |patterns|
        invariant 0 <= i <= |patterns|
        invariant MatchAny(patterns[i..], subject, params, mem, host) == MatchAny(patterns, subject, params, old(mem), host)
      {
        assert patterns[i..][0] == patterns[i] && patterns[i..][1..] == patterns[i + 1..];
        var e := host.matches(patterns[i], subject, params, mem);
        mem := e.mem;
        if e.Thrown? {
          return Some(e.fault), false;
        }
        if e.value {
          return None, true;
        }
        i := i + 1;
      }
    }

    method RunCaseItem(item: CaseItem, fuel: nat) returns (o: Outcome)
      modifies this, kernel
      ensures Ran(o, View()) == ExecSpec.RunCaseItem(item, Counted, old(View()), host, fuel)
      decreases 2 * fuel + 1, item, 0, 0
    {
      hide ExecSpec.RunList;
      o := RunList(item.body, fuel);
    }

    /** runProgramCatchingExit. Whatever ended the program, a plain one that did
        not use exec leaves the descriptors of the shell as they were. */
    method RunProgram(program: List, fuel: nat) returns (r: ProgramEnd)
      modifies this, kernel
      ensures var ran := ExecSpec.RunList(program, Counted, old(View()), host, fuel);
              View() == ran.s && r == Outermost(ran.outcome)
      ensures forall rules :: PlainList(program, rules, host) && PlainState(old(View()), rules, host) ==>
                PlainHost(rules, host) && rules.std.Some? && !execUsed ==> kernel.fds == old(kernel.fds)
    {
      hide PlainList, PlainHost;
      var o := RunList(program, fuel);
      r := Outermost(o);
    }
  }

  datatype ProgramEnd = Ended(status: int, exitRequested: bool) | Uncaught(fault: Fault) | Unfinished

  /** What is left of a control signal or an error at the top of a program. An
      assignment to a read-only variable is the one error nobody catches. */
  function Outermost(o: Outcome): ProgramEnd {
    match o
    case Status(n) => Ended(n, false)
    case Exit(n) => Ended(n % 256, true)
    case Return(n) => Ended(n % 256, false)
    case Break(_) => Ended(0, false)
    case Continue(_) => Ended(0, false)
    case Error(BadExpansion) => Ended(1, false)
    case Error(BadSyntax) => Ended(2, false)
    case Error(ReadonlySet) => Uncaught(ReadonlySet)
    case OutOfFuel => Unfinished
  }
}
