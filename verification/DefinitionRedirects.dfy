/** The redirections of a function definition, which the standard applies to every
    call (section 2.9.5 of POSIX.1-2017) and the program to none. */
module DefinitionRedirects {
  import opened Prelude
  import opened Tokens
  import opened Ast
  import opened Descriptors
  import opened ExecSpec
  import opened TinyPrograms

  /** What the standard promises for a call: the redirections of the definition
      are applied, the body runs, and they are undone. */
  function PromisedCall(body: CompoundCommand, rs: seq<Redirect>, args: seq<string>, j: Jumps, s: State,
                        host: Host, fuel: nat): Ran
  {
    var a := ApplyRedirects(rs, s, [], true, host);
    if !a.verdict.Done? then Ran(Stopped(a.verdict), Restored(a.s, a.saved))
    else
      var r := CallFunction(body, args, j, a.s, host, fuel);
      Ran(r.outcome, Restored(r.s, a.saved))
  }

  /** Literal text that no tilde begins expands to itself, as in the program. */
  ghost predicate ExpandsLiterals(host: Host) {
    forall t, params, mem :: (t == "" || t[0] != '~') ==> host.text([Literal(t)], params, mem) == Expanded(t, mem)
  }

  ghost predicate CallsKeepPromise(rs: seq<Redirect>) {
    forall body, args, j, s, host, fuel :: ExpandsLiterals(host) ==>
      PromisedCall(body, rs, args, j, s, host, fuel) == CallFunction(body, args, j, s, host, fuel)
  }

  lemma FilesExpandLiterals()
    ensures ExpandsLiterals(PlainFiles())
  {
    forall t ensures FlattenText([Literal(t)]) == t {
      TextIs(t);
    }
  }

  /** All calls of a function are as promised if and only if its definition has no
      redirections. */
  lemma CallsKeepPromiseIff(rs: seq<Redirect>)
    ensures CallsKeepPromise(rs) <==> rs == []
  {
    hide CallFunction, ExpandsLiterals;
    if rs == [] {
      forall body, args, j, s, host, fuel
        ensures PromisedCall(body, rs, args, j, s, host, fuel) == CallFunction(body, args, j, s, host, fuel)
      {
        UndoNothing(CallFunction(body, args, j, s, host, fuel).s.fds);
      }
    } else if forall i :: 0 <= i < |rs| ==> Closes(rs[i]) {
      ClosingIsMissed(rs);
    } else {
      EffectIsMissed(rs);
    }
  }

  /** `n<&-` or `n>&-`, where words are their text. */
  predicate Closes(r: Redirect) {
    r.target.WordTarget? && (r.op.LessAnd? || r.op.GreatAnd?) && FlattenText(r.target.word) == "-"
  }

  // A list that only closes: the body can tell that its last target is closed.

  /** The subshells of this host tell whether a descriptor is open. */
  function TellsOpen(fd: nat): Host {
    PlainFiles().(subshell := (list, s: State) => (if fd in s.fds then 0 else 1, s.mem.world))
  }

  lemma {:induction false} AllClose(rs: seq<Redirect>, s: State, saved: seq<Backup>, fd: nat)
    requires rs != [] && forall i :: 0 <= i < |rs| ==> Closes(rs[i])
    ensures var a := ApplyRedirects(rs, s, saved, true, TellsOpen(fd));
            a.verdict.Done? && TargetFd(rs[|rs| - 1]) !in a.s.fds
    decreases |rs|
  {
    hide Save, FlattenText;
    assert Closes(rs[0]);
    var a := ApplyOne(rs[0], s, saved, true, TellsOpen(fd));
    assert a.verdict.Done? && TargetFd(rs[0]) !in a.s.fds;
    if |rs| > 1 {
      assert forall i :: 0 <= i < |rs[1..]| ==> rs[1..][i] == rs[i + 1];
      AllClose(rs[1..], a.s, a.saved, fd);
    } else {
      assert rs[1..] == [];
    }
  }

  lemma ClosingIsMissed(rs: seq<Redirect>)
    requires rs != [] && forall i :: 0 <= i < |rs| ==> Closes(rs[i])
    ensures !CallsKeepPromise(rs)
  {
    hide CallFunction, ApplyRedirects, Closes;
    var fd := TargetFd(rs[|rs| - 1]);
    var body, host := BraceGroup(JustSubshell()), TellsOpen(fd);
    var s := ThreeOpen().(fds := map[fd := 100]);
    AllClose(rs, s, [], fd);
    SubshellTells(ApplyRedirects(rs, s, [], true, host).s, fd);
    SubshellTells(s, fd);
    FilesExpandLiterals();
    assert ExpandsLiterals(host) by { SameText(fd); }
    assert PromisedCall(body, rs, [], Counted, s, host, 1) != CallFunction(body, [], Counted, s, host, 1);
  }

  lemma SameText(fd: nat)
    requires ExpandsLiterals(PlainFiles())
    ensures ExpandsLiterals(TellsOpen(fd))
  {
    forall t, params: seq<string>, mem: Memory | t == "" || t[0] != '~'
      ensures TellsOpen(fd).text([Literal(t)], params, mem) == Expanded(t, mem)
    {
      assert PlainFiles().text([Literal(t)], params, mem) == Expanded(t, mem);
    }
  }

  lemma SubshellTells(s: State, fd: nat)
    ensures CallFunction(BraceGroup(JustSubshell()), [], Counted, s, TellsOpen(fd), 1).outcome
         == Status(if fd in s.fds then 0 else 1)
  {
    hide RunList;
    var host, c := TellsOpen(fd), Compound(Subshell(List([])), []);
    var s1 := s.(params := []);
    NothingToApply(s1, [], host);
    UndoNothing(s1.fds);
    assert RunCommand(c, Counted, s1, host, 0) == Ran(Status(if fd in s.fds then 0 else 1), s1);
    OnlyRuns(c, Counted, s1, host, 0);
    assert RunCompound(BraceGroup(JustSubshell()), Counted, s1, host, 0) == RunList(JustSubshell(), Counted, s1, host, 0);
  }

  function JustSubshell(): List {
    Only(Compound(Subshell(List([])), []))
  }

  // Any other list: where nothing is open, it fails or opens a file.

  lemma {:induction false} WorldGrows(rs: seq<Redirect>, s: State, saved: seq<Backup>)
    ensures ApplyRedirects(rs, s, saved, true, PlainFiles()).s.mem.world >= s.mem.world
    decreases |rs|
  {
    hide Save, OpenOnto, FlattenText, SourceFd;
    if rs != [] {
      var a := ApplyOne(rs[0], s, saved, true, PlainFiles());
      assert a.s.mem.world >= s.mem.world;
      WorldGrows(rs[1..], a.s, a.saved);
    }
  }

  lemma FirstEffect(r: Redirect, s: State, saved: seq<Backup>)
    requires s.fds == map[]
    ensures var a := ApplyOne(r, s, saved, true, PlainFiles());
            if Closes(r) then a.verdict.Done? && a.s == s else a.verdict.Failed? || a.s.mem.world > s.mem.world
  {
    hide OpenOnto, FlattenText, SourceFd, IsSaved;
  }

  lemma {:induction false} SomeEffect(rs: seq<Redirect>, s: State, saved: seq<Backup>)
    requires s.fds == map[] && exists i :: 0 <= i < |rs| && !Closes(rs[i])
    ensures var a := ApplyRedirects(rs, s, saved, true, PlainFiles());
            a.verdict.Failed? || a.s.mem.world > s.mem.world
    decreases |rs|
  {
    hide ApplyOne, Closes;
    FirstEffect(rs[0], s, saved);
    var a := ApplyOne(rs[0], s, saved, true, PlainFiles());
    if Closes(rs[0]) {
      var i :| 0 <= i < |rs| && !Closes(rs[i]);
      assert rs[1..][i - 1] == rs[i];
      SomeEffect(rs[1..], a.s, a.saved);
    } else {
      WorldGrows(rs[1..], a.s, a.saved);
    }
  }

  lemma EffectIsMissed(rs: seq<Redirect>)
    requires exists i :: 0 <= i < |rs| && !Closes(rs[i])
    ensures !CallsKeepPromise(rs)
  {
    hide CallFunction, ApplyRedirects, Closes, ExpandsLiterals;
    var body, host := BraceGroup(List([])), PlainFiles();
    var s := ThreeOpen().(fds := map[]);
    SomeEffect(rs, s, []);
    FilesExpandLiterals();
    EmptyBodyRuns(s, host);
    EmptyBodyRuns(ApplyRedirects(rs, s, [], true, host).s, host);
    assert PromisedCall(body, rs, [], Counted, s, host, 1) != CallFunction(body, [], Counted, s, host, 1);
  }

  lemma EmptyBodyRuns(s: State, host: Host)
    ensures CallFunction(BraceGroup(List([])), [], Counted, s, host, 1) == Ran(Status(0), s)
  {
    var s1 := s.(params := []);
    assert RunItems([], 0, Counted, s1, host, 0) == Ran(Status(0), s1);
    assert RunCompound(BraceGroup(List([])), Counted, s1, host, 0) == Ran(Status(0), s1);
  }

  /** A call of `f() { } >x`: x is to be opened, and is not. */
  lemma FileIsNotOpened()
    ensures var rs, body, s := [To(1, Great, "x")], BraceGroup(List([])), ThreeOpen();
            && PromisedCall(body, rs, [], Counted, s, PlainFiles(), 1).s.mem.world == 201
            && CallFunction(body, [], Counted, s, PlainFiles(), 1).s.mem.world == 200
  {
    hide CallFunction;
    var r, s, host := To(1, Great, "x"), ThreeOpen(), PlainFiles();
    TextIs("x");
    assert [r][1..] == [];
    var a := ApplyOne(r, s, [], true, host);
    assert a.verdict.Done? && a.s.mem.world == 201;
    NothingToApply(a.s, a.saved, host);
    assert ApplyRedirects([r], s, [], true, host) == Applied(Done, a.s, a.saved);
    EmptyBodyRuns(s, host);
    EmptyBodyRuns(a.s, host);
  }
}
