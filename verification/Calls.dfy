/** Assignments before a command, which are to hold for that command alone. */
module Calls {
  import opened Prelude
  import opened Tokens
  import opened Ast
  import opened Descriptors
  import opened ExecSpec
  import opened TinyPrograms

  function ValueOf(mem: Memory, name: string): Option<string> {
    if name in mem.vars then Some(mem.vars[name].value) else None
  }

  predicate IsReadonly(mem: Memory, name: string) {
    name in mem.vars && mem.vars[name].readonly
  }

  // ------------------------------------------------------ restoring variables

  predicate IsAssigned(saved: seq<SavedVar>, name: string) {
    exists i :: 0 <= i < |saved| && saved[i].name == name
  }

  lemma AssignedLast(saved: seq<SavedVar>, name: string)
    requires saved != []
    ensures var last, front := saved[|saved| - 1], saved[..|saved| - 1];
            IsAssigned(saved, name) <==> last.name == name || IsAssigned(front, name)
  {
    var last, front := saved[|saved| - 1], saved[..|saved| - 1];
    if IsAssigned(front, name) {
      var i :| 0 <= i < |front| && front[i].name == name;
      assert saved[i].name == name;
    }
    if IsAssigned(saved, name) && last.name != name {
      var i :| 0 <= i < |saved| && saved[i].name == name;
      assert front[i].name == name;
    }
  }

  /** The value before the first of the assignments to a variable. */
  function FirstSaved(saved: seq<SavedVar>, name: string): Option<string>
    decreases |saved|
  {
    if saved == [] then None
    else if IsAssigned(saved[..|saved| - 1], name) then FirstSaved(saved[..|saved| - 1], name)
    else saved[|saved| - 1].value
  }

  /** No variable that has to get a value back has become read-only. Only the last
      entry of a variable counts: after it the variable can be set. */
  predicate Restorable(saved: seq<SavedVar>, mem: Memory) {
    forall i :: 0 <= i < |saved| && !IsAssigned(saved[i + 1..], saved[i].name) ==>
      saved[i].value.None? || !IsReadonly(mem, saved[i].name)
  }

  function RestoreLast(v: SavedVar, mem: Memory): Memory {
    if v.value.None? then mem.(vars := mem.vars - {v.name})
    else if SetVar(mem, v.name, v.value.value).Some? then SetVar(mem, v.name, v.value.value).value
    else mem
  }

  lemma {:induction false} OthersKeepTheirs(saved: seq<SavedVar>, mem: Memory, name: string)
    requires !IsAssigned(saved, name)
    ensures ValueOf(RestoreVars(saved, mem).1, name) == ValueOf(mem, name)
    decreases |saved|
  {
    if saved != [] {
      AssignedLast(saved, name);
      OthersKeepTheirs(saved[..|saved| - 1], RestoreLast(saved[|saved| - 1], mem), name);
    }
  }

  /** Restoring gives each variable the value it had before its first assignment. */
  lemma {:induction false} RestoreGivesFirst(saved: seq<SavedVar>, mem: Memory, name: string)
    requires IsAssigned(saved, name) && RestoreVars(saved, mem).0
    ensures ValueOf(RestoreVars(saved, mem).1, name) == FirstSaved(saved, name)
    decreases |saved|
  {
    var last, front := saved[|saved| - 1], saved[..|saved| - 1];
    var mem1 := RestoreLast(last, mem);
    AssignedLast(saved, name);
    if IsAssigned(front, name) {
      RestoreGivesFirst(front, mem1, name);
    } else {
      OthersKeepTheirs(front, mem1, name);
    }
  }

  lemma RestorableStep(saved: seq<SavedVar>, mem: Memory)
    requires saved != []
    ensures var last, front := saved[|saved| - 1], saved[..|saved| - 1];
            Restorable(saved, mem)
            <==> (last.value.None? || !IsReadonly(mem, last.name)) && Restorable(front, RestoreLast(last, mem))
  {
    var n := |saved| - 1;
    var last, front := saved[n], saved[..n];
    var mem1 := RestoreLast(last, mem);
    assert saved[n + 1..] == [];
    forall i | 0 <= i < n
      ensures IsAssigned(saved[i + 1..], saved[i].name)
         <==> saved[i].name == last.name || IsAssigned(front[i + 1..], front[i].name)
    {
      var rest := saved[i + 1..];
      AssignedLast(rest, saved[i].name);
      assert rest[|rest| - 1] == last && rest[..|rest| - 1] == front[i + 1..];
    }
    if last.value.None? || !IsReadonly(mem, last.name) {
      assert !IsReadonly(mem1, last.name);
      assert forall name :: name != last.name ==> IsReadonly(mem1, name) == IsReadonly(mem, name);
      if Restorable(saved, mem) {
        forall i | 0 <= i < n && !IsAssigned(front[i + 1..], front[i].name)
          ensures front[i].value.None? || !IsReadonly(mem1, front[i].name)
        {
          assert saved[i] == front[i];
        }
      }
      if Restorable(front, mem1) {
        forall i | 0 <= i < |saved| && !IsAssigned(saved[i + 1..], saved[i].name)
          ensures saved[i].value.None? || !IsReadonly(mem, saved[i].name)
        {
          assert i < n ==> saved[i] == front[i];
        }
      }
    } else {
      assert !IsAssigned(saved[n + 1..], saved[n].name);
    }
  }

  lemma {:induction false} RestoresIff(saved: seq<SavedVar>, mem: Memory)
    ensures RestoreVars(saved, mem).0 <==> Restorable(saved, mem)
    decreases |saved|
  {
    if saved != [] {
      var last := saved[|saved| - 1];
      RestorableStep(saved, mem);
      if last.value.None? || !IsReadonly(mem, last.name) {
        RestoresIff(saved[..|saved| - 1], RestoreLast(last, mem));
      }
    }
  }

  // ------------------------------------------------------- prefix assignments

  /** No expansion of these words changes this variable. */
  ghost predicate WordsLeave(words: seq<Word>, host: Host, name: string) {
    forall i, params, mem :: 0 <= i < |words| ==> ValueOf(host.fields(words[i], params, mem).mem, name) == ValueOf(mem, name)
  }

  ghost predicate ValuesLeave(assignments: seq<Assignment>, host: Host, name: string) {
    forall i, params, mem :: 0 <= i < |assignments| ==>
      ValueOf(host.text(assignments[i].value, params, mem).mem, name) == ValueOf(mem, name)
  }

  lemma SavedSnocVar(saved: seq<SavedVar>, v: SavedVar, name: string)
    ensures IsAssigned(saved + [v], name) <==> IsAssigned(saved, name) || v.name == name
    ensures FirstSaved(saved + [v], name) == if IsAssigned(saved, name) then FirstSaved(saved, name) else v.value
  {
    assert (saved + [v])[..|saved|] == saved;
    AssignedLast(saved + [v], name);
  }

  /** The values saved for a variable start with the one before the command. */
  lemma {:induction false} AssignSaves(assignments: seq<Assignment>, saved: seq<SavedVar>, params: seq<string>,
                                       mem: Memory, host: Host, name: string)
    requires ValuesLeave(assignments, host, name)
    ensures var v := Assign(assignments, saved, params, mem, host);
            && (IsAssigned(saved, name) ==> IsAssigned(v.saved, name) && FirstSaved(v.saved, name) == FirstSaved(saved, name))
            && (!IsAssigned(saved, name) && IsAssigned(v.saved, name) ==> FirstSaved(v.saved, name) == ValueOf(mem, name))
            && (!IsAssigned(v.saved, name) ==> ValueOf(v.mem, name) == ValueOf(mem, name))
    decreases |assignments|
  {
    hide IsAssigned, FirstSaved;
    if assignments != [] {
      var a := assignments[0];
      var e := host.text(a.value, params, mem);
      assert ValueOf(e.mem, name) == ValueOf(mem, name);
      assert ValuesLeave(assignments[1..], host, name) by {
        assert forall i :: 0 <= i < |assignments[1..]| ==> assignments[1..][i] == assignments[i + 1];
      }
      if e.Expanded? && SetVar(e.mem, a.name, e.value).Some? {
        var v := SavedVar(a.name, ValueOf(mem, a.name));
        SavedSnocVar(saved, v, name);
        AssignSaves(assignments[1..], saved + [v], params, SetVar(e.mem, a.name, e.value).value, host, name);
      }
    }
  }

  lemma {:induction false} AllAreSaved(assignments: seq<Assignment>, saved: seq<SavedVar>, params: seq<string>,
                                       mem: Memory, host: Host, name: string)
    requires Assign(assignments, saved, params, mem, host).verdict.Done?
    requires IsAssigned(saved, name) || exists i :: 0 <= i < |assignments| && assignments[i].name == name
    ensures IsAssigned(Assign(assignments, saved, params, mem, host).saved, name)
    decreases |assignments|
  {
    hide IsAssigned, FirstSaved;
    if assignments != [] {
      var a := assignments[0];
      var e := host.text(a.value, params, mem);
      var v := SavedVar(a.name, ValueOf(mem, a.name));
      SavedSnocVar(saved, v, name);
      if !IsAssigned(saved, name) && a.name != name {
        var i :| 0 <= i < |assignments| && assignments[i].name == name;
        assert assignments[1..][i - 1].name == name;
      }
      AllAreSaved(assignments[1..], saved + [v], params, SetVar(e.mem, a.name, e.value).value, host, name);
    }
  }

  /** The command itself, run after its assignments. */
  function RunUnder(cmd: SimpleCommand, args: seq<string>, v: Assigned, j: Jumps, s: State, host: Host, fuel: nat): Ran
    requires args != []
  {
    var s0 := s.(mem := v.mem);
    if !v.verdict.Done? then Ran(Stopped(v.verdict), s0)
    else if args[0] in s0.functions || args[0] in REGULAR then RunRedirected(cmd, args, j, s0, host, fuel)
    else
      var (status, world) := host.external(args, cmd, s0);
      Ran(Status(status), s0.(mem := s0.mem.(world := world)))
  }

  /** When exactly a regular command's assignments are taken back: the command
      ended with a status, and no variable to be given its value back has become
      read-only. When a signal or an error unwinds the command, the state is just
      what the command left. */
  lemma RegularRestoresIff(cmd: SimpleCommand, args: seq<string>, j: Jumps, s: State, host: Host, fuel: nat)
    requires args != [] && args[0] !in SPECIAL
    ensures var v := Assign(cmd.assignments, [], s.params, s.mem, host);
            var b := RunUnder(cmd, args, v, j, s, host, fuel);
            var r := RunRegular(cmd, args, j, s, host, fuel);
            && (r.outcome.Status? <==> b.outcome.Status? && Restorable(v.saved, b.s.mem))
            && (r.outcome.Status? ==> r.outcome == b.outcome && r.s == b.s.(mem := RestoreVars(v.saved, b.s.mem).1))
            && (b.outcome.Status? && !r.outcome.Status? ==> r.outcome == Error(ReadonlySet))
            && (!b.outcome.Status? ==> r == b)
  {
    hide RunRedirected, Assign, RestoreVars, Restorable;
    var v := Assign(cmd.assignments, [], s.params, s.mem, host);
    var b := RunUnder(cmd, args, v, j, s, host, fuel);
    RestoresIff(v.saved, b.s.mem);
  }

  /** A variable that the expansions of the line itself leave alone, assigned before
      a regular command that ends with a status, has the value it had before the
      command (or none). */
  lemma PrefixIsRestored(cmd: SimpleCommand, j: Jumps, s: State, host: Host, fuel: nat, name: string)
    requires WordsLeave(cmd.words, host, name) && ValuesLeave(cmd.assignments, host, name)
    requires exists i :: 0 <= i < |cmd.assignments| && cmd.assignments[i].name == name
    requires var e := ExpandWords(cmd.words, [], s.params, s.mem, host);
             e.Expanded? ==> e.value != [] && e.value[0] !in SPECIAL
    ensures var r := RunSimple(cmd, j, s, host, fuel);
            r.outcome.Status? ==> ValueOf(r.s.mem, name) == ValueOf(s.mem, name)
  {
    hide RunRegular, WordsLeave, ValuesLeave, SPECIAL, Assign, RestoreVars, Restorable, RunUnder, IsAssigned, FirstSaved;
    WordsKeep(cmd.words, [], s.params, s.mem, host, name);
    var e := ExpandWords(cmd.words, [], s.params, s.mem, host);
    if e.Expanded? {
      OverridesKeep(cmd.assignments, [], s.params, e.mem, host, name);
      var o := Overrides(cmd.assignments, [], s.params, e.mem, host);
      if o.Expanded? {
        var s1 := s.(mem := o.mem);
        RegularRestoresIff(cmd, e.value, j, s1, host, fuel);
        var v := Assign(cmd.assignments, [], s.params, s1.mem, host);
        var b := RunUnder(cmd, e.value, v, j, s1, host, fuel);
        AssignSaves(cmd.assignments, [], s.params, s1.mem, host, name);
        NothingAssigned(name);
        RestoresIff(v.saved, b.s.mem);
        if IsAssigned(v.saved, name) {
          if b.outcome.Status? && Restorable(v.saved, b.s.mem) {
            RestoreGivesFirst(v.saved, b.s.mem, name);
          }
        } else {
          if v.verdict.Done? {
            AllAreSaved(cmd.assignments, [], s.params, s1.mem, host, name);
          }
          StoppedUnder(cmd, e.value, v, j, s1, host, fuel);
          OthersKeepTheirs(v.saved, b.s.mem, name);
        }
      }
    }
  }

  /** How a regular command can end, from what can be checked before it is run: the
      command line and the functions name none of the utilities that jump or exit
      (break and continue bare in loops of their own) or that bring in such programs,
      and their words throw nothing. Then, fuel given, only a read-only variable keeps
      the command from ending with a status. */
  lemma RegularEnds(cmd: SimpleCommand, args: seq<string>, rules: Rules, j: Jumps, s: State, host: Host, fuel: nat)
    requires args != [] && args[0] !in SPECIAL && EndsItself(rules)
    requires PlainCall(cmd, args, rules, host) && PlainState(s, rules, host) && PlainHost(rules, host)
    requires args[0] in s.functions || NeverSources(args, host)
    ensures var r := RunRegular(cmd, args, j, s, host, fuel);
            r.outcome.Status? || r.outcome == Error(ReadonlySet) || r.outcome == OutOfFuel
  {
    hide PlainCall, PlainState, PlainHost, Assign, RestoreVars;
    assert Kept(s, RunRegular(cmd, args, j, s, host, fuel), j, rules, host);
    NoReturn(cmd, args, j, s, host, fuel);
  }

  /** No jump, exit or exec is named, and nothing is thrown. */
  predicate EndsItself(rules: Rules) {
    JUMPS + {"exit", "exec"} <= rules.names && rules.calm && !rules.inLoop
  }

  ghost predicate NeverSources(args: seq<string>, host: Host) {
    forall params, mem :: !host.builtin(args, params, mem).Sources?
  }

  lemma RedirectedNoReturn(cmd: SimpleCommand, args: seq<string>, j: Jumps, s: State, host: Host, fuel: nat)
    requires args != [] && args[0] !in SPECIAL && (args[0] in s.functions || NeverSources(args, host))
    ensures !RunRedirected(cmd, args, j, s, host, fuel).outcome.Return?
  {
    hide ApplyRedirects, SPECIAL, Restored, CallFunction, CallBuiltin;
    RedirectsKeepFunctions(cmd.redirects, s, [], true, host);
    var a := ApplyRedirects(cmd.redirects, s, [], true, host);
    if args[0] in s.functions {
      FunctionNoReturn(s.functions[args[0]], args[1..], j, a.s, host, fuel);
    } else {
      BuiltinNoReturn(args, j, a.s, host, fuel);
    }
  }

  lemma FunctionNoReturn(body: CompoundCommand, args: seq<string>, j: Jumps, s: State, host: Host, fuel: nat)
    ensures !CallFunction(body, args, j, s, host, fuel).outcome.Return?
  {
  }

  lemma BuiltinNoReturn(args: seq<string>, j: Jumps, s: State, host: Host, fuel: nat)
    requires args != [] && NeverSources(args, host)
    ensures !CallBuiltin(args, j, s, host, fuel).outcome.Return?
  {
    hide RunList;
    assert !host.builtin(args, s.params, s.mem).Sources?;
  }

  lemma NoReturn(cmd: SimpleCommand, args: seq<string>, j: Jumps, s: State, host: Host, fuel: nat)
    requires args != [] && args[0] !in SPECIAL && (args[0] in s.functions || NeverSources(args, host))
    ensures !RunRegular(cmd, args, j, s, host, fuel).outcome.Return?
  {
    hide ApplyRedirects, Assign, RestoreVars, SPECIAL, REGULAR, Restored, RunRedirected;
    var v := Assign(cmd.assignments, [], s.params, s.mem, host);
    RedirectedNoReturn(cmd, args, j, s.(mem := v.mem), host, fuel);
  }

  /** So such a command line takes its assignments back: it ends with the value from
      before in every variable that no expansion changes, unless that error or the
      end of the fuel comes first. */
  lemma PrefixIsRestoredIfQuiet(cmd: SimpleCommand, rules: Rules, j: Jumps, s: State, host: Host, fuel: nat, name: string)
    requires WordsLeave(cmd.words, host, name) && ValuesLeave(cmd.assignments, host, name)
    requires exists i :: 0 <= i < |cmd.assignments| && cmd.assignments[i].name == name
    requires EndsItself(rules) && PlainSimple(cmd, rules, host) && PlainState(s, rules, host) && PlainHost(rules, host)
    requires var e := ExpandWords(cmd.words, [], s.params, s.mem, host);
             e.Expanded? ==>
               var args := e.value;
               args != [] && args[0] !in SPECIAL && (args[0] in s.functions || NeverSources(args, host))
    ensures var r := RunSimple(cmd, j, s, host, fuel);
            || (r.outcome.Status? && ValueOf(r.s.mem, name) == ValueOf(s.mem, name))
            || r.outcome == Error(ReadonlySet) || r.outcome == OutOfFuel
  {
    hide PlainSimple, PlainState, PlainHost, WordsLeave, ValuesLeave, ExpandWords, Overrides;
    hide SPECIAL, RunRegular, RunSpecial, RunBare;
    PrefixIsRestored(cmd, j, s, host, fuel, name);
    assert Kept(s, RunSimple(cmd, j, s, host, fuel), j, rules, host);
    var e := ExpandWords(cmd.words, [], s.params, s.mem, host);
    if e.Expanded? {
      var o := Overrides(cmd.assignments, [], s.params, e.mem, host);
      if o.Expanded? {
        NoReturn(cmd, e.value, j, s.(mem := o.mem), host, fuel);
      }
    }
  }

  lemma NothingAssigned(name: string)
    ensures !IsAssigned([], name)
  {
  }

  lemma StoppedUnder(cmd: SimpleCommand, args: seq<string>, v: Assigned, j: Jumps, s: State, host: Host, fuel: nat)
    requires args != [] && !v.verdict.Done?
    ensures RunUnder(cmd, args, v, j, s, host, fuel).s.mem == v.mem
  {
  }

  lemma {:induction false} WordsKeep(words: seq<Word>, before: seq<string>, params: seq<string>, mem: Memory,
                                     host: Host, name: string)
    requires WordsLeave(words, host, name)
    ensures ValueOf(ExpandWords(words, before, params, mem, host).mem, name) == ValueOf(mem, name)
    decreases |words|
  {
    if words != [] {
      var e := host.fields(words[0], params, mem);
      assert ValueOf(e.mem, name) == ValueOf(mem, name);
      assert forall i :: 0 <= i < |words[1..]| ==> words[1..][i] == words[i + 1];
      if e.Expanded? {
        WordsKeep(words[1..], before + e.value, params, e.mem, host, name);
      }
    }
  }

  lemma {:induction false} OverridesKeep(assignments: seq<Assignment>, before: seq<string>, params: seq<string>, mem: Memory,
                                         host: Host, name: string)
    requires ValuesLeave(assignments, host, name)
    ensures ValueOf(Overrides(assignments, before, params, mem, host).mem, name) == ValueOf(mem, name)
    decreases |assignments|
  {
    if assignments != [] {
      var e := host.text(assignments[0].value, params, mem);
      assert ValueOf(e.mem, name) == ValueOf(mem, name);
      assert forall i :: 0 <= i < |assignments[1..]| ==> assignments[1..][i] == assignments[i + 1];
      if e.Expanded? {
        OverridesKeep(assignments[1..], before + [assignments[0].name + "=" + e.value], params, e.mem, host, name);
      }
    }
  }

  // ------------------------------------------------------ a signal unwinds it

  /** `X=1 f`, where f is `{ break; }`: the jump leaves X assigned, although it was
      unset before. */
  lemma BreakKeepsAssignment(s: State, fuel: nat)
    requires "f" in s.functions && s.functions["f"] == BraceGroup(Just("break")) && fuel > 0
    requires "X" !in s.mem.vars
    ensures var cmd := SimpleCommand([Assignment("X", [Literal("1")])], [[Literal("f")]], []);
            var r := RunSimple(cmd, Counted, s, PlainFiles(), fuel);
            r.outcome == Break(1) && ValueOf(s.mem, "X") == None && ValueOf(r.s.mem, "X") == Some("1")
  {
    hide RunSimple, RunRegular, SPECIAL;
    var cmd := SimpleCommand([Assignment("X", [Literal("1")])], [[Literal("f")]], []);
    var host := PlainFiles();
    PrefixReached(s, host, fuel);
    var s1 := s.(mem := s.mem.(vars := s.mem.vars["X" := Variable("1", false, false)]));
    BreakCalled(cmd, s1, fuel);
    RegularRestoresIff(cmd, ["f"], Counted, s, host, fuel);
  }

  lemma PrefixReached(s: State, host: Host, fuel: nat)
    requires "X" !in s.mem.vars && host == PlainFiles()
    ensures var cmd := SimpleCommand([Assignment("X", [Literal("1")])], [[Literal("f")]], []);
            && RunSimple(cmd, Counted, s, host, fuel) == RunRegular(cmd, ["f"], Counted, s, host, fuel)
            && Assign(cmd.assignments, [], s.params, s.mem, host)
               == Assigned(Done, s.mem.(vars := s.mem.vars["X" := Variable("1", false, false)]), [SavedVar("X", None)])
            && "f" !in SPECIAL
  {
    hide RunRegular;
    var a := Assignment("X", [Literal("1")]);
    TextIs("f");
    TextIs("1");
    OneWord([Literal("f")], s, host);
    assert [a][1..] == [];
    assert Overrides([], [a.name + "=" + "1"], s.params, s.mem, host) == Expanded([a.name + "=" + "1"], s.mem);
    assert [] + [a.name + "=" + "1"] == [a.name + "=" + "1"];
    var mem1 := s.mem.(vars := s.mem.vars["X" := Variable("1", false, false)]);
    assert Assign([], [SavedVar("X", None)], s.params, mem1, host) == Assigned(Done, mem1, [SavedVar("X", None)]);
    assert [] + [SavedVar("X", None)] == [SavedVar("X", None)];
  }

  lemma BreakCalled(cmd: SimpleCommand, s: State, fuel: nat)
    requires "f" in s.functions && s.functions["f"] == BraceGroup(Just("break")) && fuel > 0 && cmd.redirects == []
    ensures RunRedirected(cmd, ["f"], Counted, s, PlainFiles(), fuel) == Ran(Break(1), s)
  {
    hide RunList;
    NothingToApply(s, [], PlainFiles());
    UndoNothing(s.fds);
    BreakList(EnterFunction(Counted), s.(params := []), fuel - 1);
    assert ["f"][1..] == [];
    assert CallFunction(BraceGroup(Just("break")), [], Counted, s, PlainFiles(), fuel) == Ran(Break(1), s);
  }

  function LoopingBody(): CompoundCommand {
    var loop := WhileClause(Just(":"), Just("break"));
    BraceGroup(Only(Compound(loop, [])))
  }

  /** The same line where the break stays in a loop of f: it ends with status 0, and X
      is unset again. */
  lemma LoopKeepsBreak(s: State, fuel: nat)
    requires "f" in s.functions && s.functions["f"] == LoopingBody() && fuel > 0
    requires "X" !in s.mem.vars
    ensures var cmd := SimpleCommand([Assignment("X", [Literal("1")])], [[Literal("f")]], []);
            var r := RunSimple(cmd, Counted, s, PlainFiles(), fuel);
            r.outcome == Status(0) && "X" !in r.s.mem.vars
  {
    hide RunSimple, RunRegular, RunRedirected, SPECIAL;
    var cmd := SimpleCommand([Assignment("X", [Literal("1")])], [[Literal("f")]], []);
    var host := PlainFiles();
    PrefixReached(s, host, fuel);
    var s1 := s.(mem := s.mem.(vars := s.mem.vars["X" := Variable("1", false, false)]));
    LoopCalled(cmd, s1, fuel);
    RegularRestoresIff(cmd, ["f"], Counted, s, host, fuel);
    RestoreUnsets(s1.mem.(last := 0));
  }

  lemma RestoreUnsets(mem: Memory)
    ensures RestoreVars([SavedVar("X", None)], mem) == (true, mem.(vars := mem.vars - {"X"}))
    ensures Restorable([SavedVar("X", None)], mem)
  {
    var saved := [SavedVar("X", None)];
    assert saved[..0] == [];
    assert RestoreVars([], mem.(vars := mem.vars - {"X"})) == (true, mem.(vars := mem.vars - {"X"}));
  }

  lemma LoopCalled(cmd: SimpleCommand, s: State, fuel: nat)
    requires "f" in s.functions && s.functions["f"] == LoopingBody() && fuel > 0 && cmd.redirects == []
    ensures RunRedirected(cmd, ["f"], Counted, s, PlainFiles(), fuel) == Ran(Status(0), s.(mem := s.mem.(last := 0)))
  {
    hide RunList;
    var host := PlainFiles();
    NothingToApply(s, [], host);
    UndoNothing(s.fds);
    assert ["f"][1..] == [];
    LoopEnds(Counted, s.(params := []), fuel - 1);
    assert CallFunction(LoopingBody(), [], Counted, s, host, fuel) == Ran(Status(0), s.(mem := s.mem.(last := 0)));
  }

  lemma LoopEnds(j: Jumps, s: State, fuel: nat)
    ensures RunCompound(LoopingBody(), j, s, PlainFiles(), fuel) == Ran(Status(0), s.(mem := s.mem.(last := 0)))
  {
    hide RunList;
    var host, loop := PlainFiles(), WhileClause(Just(":"), Just("break"));
    var s1 := s.(mem := s.mem.(last := 0));
    ColonList(j, s, fuel);
    BreakList(EnterLoop(j), s1, fuel);
    assert RunLoop(loop, 0, j, s, host, fuel) == Ran(Status(0), s1);
    NothingToApply(s, [], host);
    UndoNothing(s.fds);
    assert RunCommand(Compound(loop, []), j, s, host, fuel) == Ran(Status(0), s1);
    OnlyRuns(Compound(loop, []), j, s, host, fuel);
  }

  /** That it would can be seen from the text of the line and of f. */
  lemma LoopIsQuiet(s: State, fuel: nat)
    requires s.functions == map["f" := LoopingBody()]
    ensures var cmd := SimpleCommand([Assignment("X", [Literal("1")])], [[Literal("f")]], []);
            var r := RunSimple(cmd, Counted, s, PlainFiles(), fuel);
            || (r.outcome.Status? && ValueOf(r.s.mem, "X") == ValueOf(s.mem, "X"))
            || r.outcome == Error(ReadonlySet) || r.outcome == OutOfFuel
  {
    hide RunSimple, ApplyRedirects;
    var cmd := SimpleCommand([Assignment("X", [Literal("1")])], [[Literal("f")]], []);
    var rules := Rules(None, JUMPS + {"exit", "exec"}, true, false);
    var host := PlainFiles();
    TextIs("f");
    OneWord([Literal("f")], s, host);
    assert PlainSimple(cmd, rules, host);
    QuietLoop(rules);
    assert Outside(rules) == rules;
    assert cmd.assignments[0].name == "X";
    PrefixIsRestoredIfQuiet(cmd, rules, Counted, s, host, fuel, "X");
  }

  lemma QuietLoop(rules: Rules)
    requires rules == Rules(None, JUMPS + {"exit", "exec"}, true, false)
    ensures PlainCompound(LoopingBody(), rules, PlainFiles())
  {
    var host := PlainFiles();
    QuietCommand(":", rules);
    QuietCommand("break", Inside(rules));
    var outer := LoopingBody().list.items[0];
    assert PlainCommand(outer.andOr.first.commands[0], rules, host);
    assert PlainPipeline(outer.andOr.first, rules, host);
    assert PlainItem(outer, rules, host);
    assert PlainList(LoopingBody().list, rules, host);
  }

  lemma QuietCommand(name: string, rules: Rules)
    requires rules.std.None? && (name !in rules.names || (rules.inLoop && name in JUMPS))
    ensures PlainList(Just(name), rules, PlainFiles())
  {
    var host, item := PlainFiles(), Just(name).items[0];
    var cmd := item.andOr.first.commands[0].cmd;
    TextIs(name);
    assert BareJump(cmd.words, host);
    assert name !in rules.names ==> NeverNames(cmd.words, rules.names, host);
    assert name in JUMPS ==> NeverNames(cmd.words, rules.names - JUMPS, host);
    assert PlainSimple(cmd, rules, host);
    assert PlainCommand(item.andOr.first.commands[0], rules, host);
    assert PlainPipeline(item.andOr.first, rules, host);
    assert PlainItem(item, rules, host);
  }
}
