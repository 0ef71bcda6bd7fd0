/** What simple commands, redirections and assignments do, for every state and host. */
module CommandLaws {
  import opened Prelude
  import opened Tokens
  import opened Ast
  import opened Descriptors
  import opened ExecSpec
  import opened Numbers

  // ------------------------------------------------------------- redirections

  predicate Reads(op: Token) {
    op in {Less, LessAnd, LessGreat, DLess, DLessDash}
  }

  /** Without a number the operators that read redirect standard input, the others
      standard output: `<x` is `0<x` and `>x` is `1>x`. */
  lemma DefaultDescriptors(op: Token, target: Target, s: State, saved: seq<Backup>, keep: bool, host: Host)
    ensures ApplyOne(Redirect(None, op, target), s, saved, keep, host)
         == ApplyOne(Redirect(Some(if Reads(op) then 0 else 1), op, target), s, saved, keep, host)
  {
    hide IsSaved, LowestFree;
  }

  predicate IsDuplication(r: Redirect) {
    r.op.LessAnd? || r.op.GreatAnd?
  }

  /** `n>&m` and `n<&m`: afterwards n refers to the open file of m and nothing else has
      changed; a closed m is an error and changes nothing. */
  lemma DuplicationShares(r: Redirect, m: nat, s: State, host: Host)
    requires IsDuplication(r) && r.target.WordTarget? && m <= INT_MAX
    requires host.text(r.target.word, s.params, s.mem) == Expanded(ToText(m), s.mem)
    ensures var (verdict, t) := Redirected(r, s, host);
            if m in s.fds then verdict == Done && Get(t.fds, TargetFd(r)) == Get(s.fds, m) && OnlyTouches(s, t, TargetFd(r))
            else verdict == Failed && t == s
  {
    hide ReadMagnitude, ToDecimal;
    var t := ToText(m);
    MagnitudeRoundTrip(m, false);
    assert IsDigit(t[0]) && SkipSpaces(t) == t;
    assert SourceFd(t) == Some(m as int);
    assert t != "-";
  }

  /** `n>&-` and `n<&-` close n. */
  lemma DashCloses(r: Redirect, s: State, host: Host)
    requires IsDuplication(r) && r.target.WordTarget?
    requires host.text(r.target.word, s.params, s.mem) == Expanded("-", s.mem)
    ensures var (verdict, t) := Redirected(r, s, host);
            verdict == Done && TargetFd(r) !in t.fds && OnlyTouches(s, t, TargetFd(r))
  {
  }

  /** Anything else there is an error that changes nothing: text that does not begin
      with a number, goes on after it, or has more than 64 bits. */
  lemma DuplicationNeedsNumber(r: Redirect, text: string, n: nat, x: string, s: State, host: Host)
    requires IsDuplication(r) && r.target.WordTarget?
    requires host.text(r.target.word, s.params, s.mem) == Expanded(text, s.mem)
    requires text == "" || (!IsDigit(text[0]) && !IsSpace(text[0]) && text[0] !in "+-")
          || (text == ToDecimal(n) + x && x != "" && DigitOf(x[0]) >= 10)
          || (text == ToDecimal(n) && n > INT64_MAX)
    ensures Redirected(r, s, host) == (Failed, s)
  {
    hide ToDecimal, Run;
    assert text == "" || (text[0] != '-' && text[0] != '+');
    assert SkipSpaces(text) == text;
    if x != "" && DigitOf(x[0]) >= 10 {
      RunGoesTo(ToDecimal(n), x, 0);
    }
    RunDecimal(n);
  }

  /** t is s but for one descriptor. */
  ghost predicate OnlyTouches(s: State, t: State, fd: nat) {
    t == s.(fds := t.fds) && forall k :: k != fd ==> Get(t.fds, k) == Get(s.fds, k)
  }

  /** Redirections are made one after the other, up to the first that fails. */
  lemma {:induction false} RedirectsCompose(a: seq<Redirect>, b: seq<Redirect>, s: State, saved: seq<Backup>, keep: bool,
                                            host: Host)
    ensures var first := ApplyRedirects(a, s, saved, keep, host);
            ApplyRedirects(a + b, s, saved, keep, host)
            == if first.verdict.Done? then ApplyRedirects(b, first.s, first.saved, keep, host) else first
    decreases |a|
  {
    hide ApplyOne;
    if a == [] {
      assert a + b == b;
    } else {
      assert (a + b)[0] == a[0] && (a + b)[1..] == a[1..] + b;
      var one := ApplyOne(a[0], s, saved, keep, host);
      RedirectsCompose(a[1..], b, one.s, one.saved, keep, host);
    }
  }

  lemma TwoRedirects(a: Redirect, b: Redirect, s: State, host: Host)
    ensures var (v, t) := Redirected(a, s, host);
            var r := ApplyRedirects([a, b], s, [], false, host);
            && (!v.Done? ==> r == Applied(v, t, []))
            && (v.Done? ==> r == Applied(Redirected(b, t, host).0, Redirected(b, t, host).1, []))
  {
    hide Redirected;
    var one := ApplyOne(a, s, [], false, host);
    assert [a, b][1..] == [b] && [b][1..] == [];
    if one.verdict.Done? {
      var two := ApplyOne(b, one.s, [], false, host);
      assert ApplyRedirects([], two.s, [], false, host) == Applied(Done, two.s, []);
    }
  }

  /** Order matters: `>f 2>&1` puts both on the file, `2>&1 >f` leaves the second on
      what the first was on. */
  lemma OrderOfRedirections(f: Word, one: Word, file: nat, world: nat, s: State, host: Host)
    requires 1 in s.fds
    requires forall m: Memory :: host.text(one, s.params, m) == Expanded("1", m)
    requires forall m: Memory :: host.text(f, s.params, m) == Expanded("f", m)
    requires host.open("f", Great, s.mem.world) == (Some(file), world)
    ensures var toFile, dup := Redirect(None, Great, WordTarget(f)), Redirect(Some(2), GreatAnd, WordTarget(one));
            var both := ApplyRedirects([toFile, dup], s, [], false, host);
            var swapped := ApplyRedirects([dup, toFile], s, [], false, host);
            && both.verdict.Done? && Get(both.s.fds, 1) == Get(both.s.fds, 2) == Some(file)
            && swapped.verdict.Done? && Get(swapped.s.fds, 1) == Some(file) && Get(swapped.s.fds, 2) == Some(s.fds[1])
  {
    hide Redirected, ApplyRedirects;
    var toFile, dup := Redirect(None, Great, WordTarget(f)), Redirect(Some(2), GreatAnd, WordTarget(one));
    TwoRedirects(toFile, dup, s, host);
    TwoRedirects(dup, toFile, s, host);
    OpensOne(f, file, world, s, host);
    var a := Redirected(toFile, s, host).1;
    OneIsText();
    DuplicationShares(dup, 1, a, host);
    DuplicationShares(dup, 1, s, host);
    OpensOne(f, file, world, Redirected(dup, s, host).1, host);
  }

  lemma OneIsText()
    ensures ToText(1) == "1"
  {
  }

  lemma OpensOne(f: Word, file: nat, world: nat, s: State, host: Host)
    requires 1 in s.fds && host.text(f, s.params, s.mem) == Expanded("f", s.mem)
    requires host.open("f", Great, s.mem.world) == (Some(file), world)
    ensures Redirected(Redirect(None, Great, WordTarget(f)), s, host)
         == (Done, s.(fds := s.fds[1 := file], mem := s.mem.(world := world)))
  {
    hide LowestFree;
    assert LowestFree(s.fds) != 1;
  }

  /** A compound command whose redirections fail is not run and has status 1;
      otherwise it ends as its body does. */
  lemma CompoundUnderRedirects(body: CompoundCommand, rs: seq<Redirect>, j: Jumps, s: State, host: Host, fuel: nat)
    ensures var a := ApplyRedirects(rs, s, [], true, host);
            var r := RunCommand(Compound(body, rs), j, s, host, fuel);
            && (a.verdict.Failed? ==> r.outcome == Status(1) && r.s.mem == a.s.mem)
            && (a.verdict.Threw? ==> r.outcome == Error(a.verdict.fault))
            && (a.verdict.Done? ==> r.outcome == RunCompound(body, j, a.s, host, fuel).outcome)
            && (a.verdict.Done? ==> r.s.mem == RunCompound(body, j, a.s, host, fuel).s.mem)
  {
    hide RunCompound, ApplyRedirects, Undo;
  }

  // -------------------------------------------------------------- assignments

  /** Setting a variable gives it the value, keeps its export mark and every other
      variable, and is refused exactly for a read-only one. */
  lemma SetVarSets(mem: Memory, name: string, value: string)
    ensures SetVar(mem, name, value).None? <==> name in mem.vars && mem.vars[name].readonly
    ensures SetVar(mem, name, value).Some? ==>
              var m := SetVar(mem, name, value).value;
              && name in m.vars && m.vars[name].value == value && !m.vars[name].readonly
              && (m.vars[name].exported <==> name in mem.vars && mem.vars[name].exported)
              && m.last == mem.last && m.world == mem.world && m.vars.Keys == mem.vars.Keys + {name}
              && forall other :: other in mem.vars && other != name ==> m.vars[other] == mem.vars[other]
  {
  }

  /** Assignments are made in order, each before the next is expanded. */
  lemma {:induction false} AssignInOrder(a: seq<Assignment>, b: seq<Assignment>, saved: seq<SavedVar>, params: seq<string>,
                                         mem: Memory, host: Host)
    ensures var first := Assign(a, saved, params, mem, host);
            Assign(a + b, saved, params, mem, host)
            == if first.verdict.Done? then Assign(b, first.saved, params, first.mem, host) else first
    decreases |a|
  {
    hide SetVar;
    if a == [] {
      assert a + b == b;
    } else {
      assert (a + b)[0] == a[0] && (a + b)[1..] == a[1..] + b;
      var e := host.text(a[0].value, params, mem);
      if e.Expanded? {
        var put := SetVar(e.mem, a[0].name, e.value);
        if put.Some? {
          var prior := if a[0].name in mem.vars then Some(mem.vars[a[0].name].value) else None;
          AssignInOrder(a[1..], b, saved + [SavedVar(a[0].name, prior)], params, put.value, host);
        }
      }
    }
  }

  /** Words are expanded in order and their fields are the arguments in order. */
  lemma {:induction false} WordsInOrder(a: seq<Word>, b: seq<Word>, before: seq<string>, params: seq<string>, mem: Memory,
                                        host: Host)
    ensures var first := ExpandWords(a, before, params, mem, host);
            ExpandWords(a + b, before, params, mem, host)
            == if first.Expanded? then ExpandWords(b, first.value, params, first.mem, host) else first
    decreases |a|
  {
    if a == [] {
      assert a + b == b;
    } else {
      assert (a + b)[0] == a[0] && (a + b)[1..] == a[1..] + b;
      var e := host.fields(a[0], params, mem);
      if e.Expanded? {
        WordsInOrder(a[1..], b, before + e.value, params, e.mem, host);
      }
    }
  }

  lemma OneWordGives(w: Word, before: seq<string>, params: seq<string>, mem: Memory, host: Host)
    ensures var e := host.fields(w, params, mem);
            e.Expanded? ==> ExpandWords([w], before, params, mem, host) == Expanded(before + e.value, e.mem)
  {
    assert [w][1..] == [];
    var e := host.fields(w, params, mem);
    if e.Expanded? {
      assert ExpandWords([], before + e.value, params, e.mem, host) == Expanded(before + e.value, e.mem);
    }
  }

  /** `x=v` alone: the variable has the value afterwards and the status is 0; a
      read-only one keeps its own and the status is 1. */
  lemma BareAssignment(name: string, v: Word, j: Jumps, s: State, host: Host, fuel: nat)
    requires host.text(v, s.params, s.mem).Expanded?
    ensures var e := host.text(v, s.params, s.mem);
            var put := SetVar(e.mem, name, e.value);
            RunSimple(SimpleCommand([Assignment(name, v)], [], []), j, s, host, fuel)
            == if put.Some? then Ran(Status(0), s.(mem := put.value)) else Ran(Status(1), s.(mem := e.mem))
  {
    hide SetVar;
    var cmd := SimpleCommand([Assignment(name, v)], [], []);
    var e := host.text(v, s.params, s.mem);
    var put := SetVar(e.mem, name, e.value);
    assert ExpandWords([], [], s.params, s.mem, host) == Expanded([], s.mem);
    assert RunSimple(cmd, j, s, host, fuel) == RunBare(cmd, s, host);
    assert ApplyRedirects([], s, [], true, host) == Applied(Done, s, []);
    assert cmd.assignments[1..] == [];
    if put.Some? {
      var prior := if name in s.mem.vars then Some(s.mem.vars[name].value) else None;
      assert Assign([], [] + [SavedVar(name, prior)], s.params, put.value, host)
          == Assigned(Done, put.value, [] + [SavedVar(name, prior)]);
    }
    UndoNothing(s.fds);
  }

  // ---------------------------------------------------------- the command name

  /** The words of the line give these arguments, and it has nothing else. */
  predicate IsLine(cmd: SimpleCommand, args: seq<string>, s: State, host: Host) {
    && cmd == SimpleCommand([], cmd.words, []) && args != []
    && ExpandWords(cmd.words, [], s.params, s.mem, host) == Expanded(args, s.mem)
  }

  lemma LineRuns(cmd: SimpleCommand, args: seq<string>, j: Jumps, s: State, host: Host, fuel: nat)
    requires IsLine(cmd, args, s, host)
    ensures RunSimple(cmd, j, s, host, fuel)
         == if args[0] in SPECIAL then RunSpecial(cmd, args, j, s, host, fuel) else RunRegular(cmd, args, j, s, host, fuel)
    ensures Assign([], [], s.params, s.mem, host) == Assigned(Done, s.mem, [])
    ensures ApplyRedirects([], s, [], true, host) == Applied(Done, s, [])
    ensures ApplyRedirects([], s, [], false, host) == Applied(Done, s, [])
  {
    hide RunSpecial, RunRegular, SPECIAL;
    assert Overrides([], [], s.params, s.mem, host) == Expanded([], s.mem);
  }

  lemma CallOf(cmd: SimpleCommand, args: seq<string>, j: Jumps, s: State, host: Host, fuel: nat)
    requires IsLine(cmd, args, s, host)
    ensures RunRedirected(cmd, args, j, s, host, fuel)
         == if args[0] in SPECIAL then CallSpecial(args, j, s, host, fuel)
            else if args[0] in s.functions then CallFunction(s.functions[args[0]], args[1..], j, s, host, fuel)
            else CallBuiltin(args, j, s, host, fuel)
  {
    hide CallSpecial, CallFunction, CallBuiltin, SPECIAL, ExpandWords;
    assert ApplyRedirects([], s, [], true, host) == Applied(Done, s, []);
    var r := if args[0] in SPECIAL then CallSpecial(args, j, s, host, fuel)
             else if args[0] in s.functions then CallFunction(s.functions[args[0]], args[1..], j, s, host, fuel)
             else CallBuiltin(args, j, s, host, fuel);
    UndoNothing(r.s.fds);
  }

  /** Special utilities come before functions, functions before the other utilities,
      and what is none of these is a program. */
  lemma NamesAreLookedUpInOrder(cmd: SimpleCommand, args: seq<string>, j: Jumps, s: State, host: Host, fuel: nat)
    requires IsLine(cmd, args, s, host) && args[0] != "exec"
    ensures var r := RunSimple(cmd, j, s, host, fuel);
            && (args[0] in SPECIAL ==> r == CallSpecial(args, j, s, host, fuel))
            && (args[0] !in SPECIAL && args[0] in s.functions ==>
                  r == CallFunction(s.functions[args[0]], args[1..], j, s, host, fuel))
            && (args[0] !in SPECIAL && args[0] !in s.functions && args[0] in REGULAR ==>
                  r == CallBuiltin(args, j, s, host, fuel))
            && (args[0] !in SPECIAL && args[0] !in s.functions && args[0] !in REGULAR ==>
                  r.outcome == Status(host.external(args, cmd, s).0) && r.s == s.(mem := r.s.mem)
                  && r.s.mem == s.mem.(world := r.s.mem.world))
  {
    hide CallSpecial, CallFunction, CallBuiltin, SPECIAL, REGULAR, ExpandWords, RunSimple, RunRedirected;
    LineRuns(cmd, args, j, s, host, fuel);
    CallOf(cmd, args, j, s, host, fuel);
    assert s.(mem := s.mem) == s;
    forall mem: Memory ensures RestoreVars([], mem) == (true, mem) {
    }
  }

  /** A function runs its body with the arguments as positional parameters; a return
      is its status. */
  lemma FunctionIsItsBody(body: CompoundCommand, args: seq<string>, s: State, host: Host, fuel: nat)
    requires fuel > 0
    ensures var b := RunCompound(body, Counted, s.(params := args), host, fuel - 1);
            CallFunction(body, args, Counted, s, host, fuel)
            == Ran(if b.outcome.Return? then Status(b.outcome.n) else b.outcome, b.s.(params := s.params))
  {
    hide RunCompound;
  }

  /** A definition has status 0 and binds the name to its body, for later calls. */
  lemma DefinitionBinds(name: string, body: CompoundCommand, rs: seq<Redirect>, j: Jumps, s: State, host: Host, fuel: nat)
    ensures var r := RunCommand(FunctionDefinition(name, body, rs), j, s, host, fuel);
            && r.outcome == Status(0) && r.s == s.(functions := r.s.functions)
            && name in r.s.functions && r.s.functions[name] == body
            && forall other :: other != name ==>
                 (other in r.s.functions <==> other in s.functions)
                 && (other in s.functions ==> r.s.functions[other] == s.functions[other])
  {
  }

  /** The signals: break and continue count 1 without an operand, n for n, and 1 for
      what is no positive number; return and exit give n, or `$?` without an operand. */
  lemma SignalsOf(name: string, n: nat, s: State, host: Host, fuel: nat)
    requires name in {"break", "continue", "return", "exit"} && n <= INT_MAX
    ensures var plain := CallSpecial([name], Counted, s, host, fuel);
            var counted := CallSpecial([name, ToText(n)], Counted, s, host, fuel);
            && (name == "break" ==> plain == Ran(Break(1), s) && counted == Ran(Break(if n == 0 then 1 else n), s))
            && (name == "continue" ==> plain == Ran(Continue(1), s) && counted == Ran(Continue(if n == 0 then 1 else n), s))
            && (name == "return" ==> plain == Ran(Return(s.mem.last), s) && counted == Ran(Return(n), s))
            && (name == "exit" ==> plain == Ran(Exit(s.mem.last), s)
                                   && counted == Ran(Exit(n), s.(mem := s.mem.(last := n))))
  {
    hide ReadInteger;
    TextRoundTrip(n, false, INT_MIN, INT_MAX);
    assert s.(mem := s.mem.(last := s.mem.last)) == s;
  }

  /** An operand that is no number counts as 1 for a jump, 0 for return, 2 for exit. */
  lemma MalformedOperand(name: string, operand: string, s: State, host: Host, fuel: nat)
    requires name in {"break", "continue", "return", "exit"}
    requires var r := ReadInteger(operand, false, INT_MIN, INT_MAX); r.None? || r.value.1 != ""
    ensures CallSpecial([name, operand], Counted, s, host, fuel).outcome
         == if name == "break" then Break(1) else if name == "continue" then Continue(1)
            else if name == "return" then Return(0) else Exit(2)
  {
    hide ReadInteger;
  }

  /** `exec` with redirections only: they stay, and the status is 0; with a command
      the shell ends as that command does. */
  lemma ExecKeepsRedirections(cmd: SimpleCommand, args: seq<string>, j: Jumps, s: State, host: Host, fuel: nat)
    requires cmd == SimpleCommand([], cmd.words, cmd.redirects) && args != [] && args[0] == "exec"
    requires ExpandWords(cmd.words, [], s.params, s.mem, host) == Expanded(args, s.mem)
    ensures var a := ApplyRedirects(cmd.redirects, s, [], false, host);
            var r := RunSimple(cmd, j, s, host, fuel);
            && r.s.fds == a.s.fds && r.s.execUsed
            && (a.verdict.Failed? ==> r.outcome == Status(1))
            && (a.verdict.Done? ==> r.outcome == if |args| == 1 then Status(0) else Exit(host.replace(args, r.s.mem)))
  {
    hide ApplyRedirects, RunRedirected;
    assert Overrides([], [], s.params, s.mem, host) == Expanded([], s.mem);
    assert Assign([], [], s.params, s.mem, host) == Assigned(Done, s.mem, []);
    assert RunSimple(cmd, j, s, host, fuel) == RunSpecial(cmd, args, j, s, host, fuel);
    assert s.(mem := s.mem) == s;
  }

  /** A utility that finishes gives its status, its variables and its positional
      parameters, and removes the functions it names (unset -f). */
  lemma UtilityFinishes(args: seq<string>, j: Jumps, s: State, host: Host, fuel: nat)
    requires args != [] && host.builtin(args, s.params, s.mem).Finished?
    ensures var e, r := host.builtin(args, s.params, s.mem), CallBuiltin(args, j, s, host, fuel);
            && r.outcome == Status(e.status) && r.s.params == e.params && r.s.mem == e.mem && r.s.fds == s.fds
            && (forall f :: f in r.s.functions <==> f in s.functions && f !in e.erased)
            && (forall f :: f in r.s.functions ==> r.s.functions[f] == s.functions[f])
  {
  }

  /** A program that a utility brings in runs here; with operands of its own, as `.`
      gives it, the positional parameters come back. */
  lemma SourcedProgramRunsHere(args: seq<string>, j: Jumps, s: State, host: Host, fuel: nat)
    requires args != [] && fuel > 0 && host.builtin(args, s.params, s.mem).Sources?
    ensures var e := host.builtin(args, s.params, s.mem);
            var r := CallBuiltin(args, j, s, host, fuel);
            && (e.override.None? ==> r == RunList(e.list, j, s.(mem := e.mem), host, fuel - 1))
            && (e.override.Some? ==>
                  var b := RunList(e.list, j, s.(params := e.override.value, mem := e.mem), host, fuel - 1);
                  r == Ran(b.outcome, b.s.(params := s.params)))
  {
    hide RunList;
    var mem := host.builtin(args, s.params, s.mem).mem;
    assert s.(params := s.params, mem := mem) == s.(mem := mem);
  }

  /** With no command name the redirections come first: when one fails nothing is
      assigned. */
  lemma BareRedirectFails(assignments: seq<Assignment>, rs: seq<Redirect>, j: Jumps, s: State, host: Host, fuel: nat)
    ensures var a := ApplyRedirects(rs, s, [], true, host);
            var r := RunSimple(SimpleCommand(assignments, [], rs), j, s, host, fuel);
            && (a.verdict.Failed? ==> r.outcome == Status(1) && r.s.mem == a.s.mem)
            && (a.verdict.Done? ==> r.s.mem == Assign(assignments, [], a.s.params, a.s.mem, host).mem)
  {
    hide ApplyRedirects, Assign, Undo;
    var cmd := SimpleCommand(assignments, [], rs);
    assert ExpandWords([], [], s.params, s.mem, host) == Expanded([], s.mem);
    assert s.(mem := s.mem) == s;
    assert RunSimple(cmd, j, s, host, fuel) == RunBare(cmd, s, host);
  }

  /** Assignments before a special utility stay, and come before it runs; when one is
      refused it is not run. */
  lemma SpecialKeepsAssignments(cmd: SimpleCommand, args: seq<string>, j: Jumps, s: State, host: Host, fuel: nat)
    requires cmd.redirects == [] && args != [] && args[0] in SPECIAL && args[0] != "exec"
    ensures var v := Assign(cmd.assignments, [], s.params, s.mem, host);
            var r := RunSpecial(cmd, args, j, s, host, fuel);
            && (v.verdict.Failed? ==> r == Ran(Status(1), s.(mem := v.mem)))
            && (v.verdict.Done? ==> r == CallSpecial(args, j, s.(mem := v.mem), host, fuel))
  {
    hide Assign, CallSpecial, SPECIAL;
    var s0 := s.(mem := Assign(cmd.assignments, [], s.params, s.mem, host).mem);
    assert ApplyRedirects([], s0, [], true, host) == Applied(Done, s0, []);
    UndoNothing(CallSpecial(args, j, s0, host, fuel).s.fds);
  }
}
