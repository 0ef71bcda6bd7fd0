/** Small hosts and programs, for the examples. */
module TinyPrograms {
  import opened Prelude
  import opened Tokens
  import opened Ast
  import opened Descriptors
  import opened ExecSpec

  /** Words are their text, and every open succeeds with a new file. */
  function PlainFiles(): Host {
    Host(
      (w, params, mem) => Expanded([FlattenText(w)], mem),
      (w, params, mem) => Expanded(FlattenText(w), mem),
      (w, subject, params, mem) => Expanded(false, mem),
      (id, doc, params, mem) => Expanded("", mem),
      (body, world) => (world, world + 1),
      (name, op, world) => (Some(world), world + 1),
      (args, params, mem) => Finished(0, params, {}, mem),
      (args, mem) => 0,
      (args, cmd, s: State) => (0, s.mem.world),
      (list, s: State) => (0, s.mem.world),
      (commands, s: State) => (0, s.mem.world),
      (andOr, s: State) => s.mem.world)
  }

  function To(fd: nat, op: Token, name: string): Redirect {
    Redirect(Some(fd), op, WordTarget([Literal(name)]))
  }

  function ThreeOpen(): State {
    State(map[0 := 100, 1 := 101, 2 := 102], [], map[], Memory(map[], 0, 200), false)
  }

  lemma TextIs(name: string)
    ensures FlattenText([Literal(name)]) == name
  {
    assert [Literal(name)][1..] == [];
  }

  lemma NothingToApply(s: State, saved: seq<Backup>, host: Host)
    ensures ApplyRedirects([], s, saved, true, host) == Applied(Done, s, saved)
  {
  }

  // ------------------------------------------------------- lists of one command

  function Only(c: Command): List {
    List([ListItem(AndOr(Pipeline(false, [c]), []), NoSeparator)])
  }

  /** One word. */
  function Just(name: string): List {
    Only(Simple(SimpleCommand([], [[Literal(name)]], [])))
  }

  lemma OnlyRuns(c: Command, j: Jumps, s: State, host: Host, fuel: nat)
    ensures var r := RunCommand(c, j, s, host, fuel);
            RunList(Only(c), j, s, host, fuel)
            == if r.outcome.Status? then Ran(r.outcome, r.s.(mem := r.s.mem.(last := r.outcome.n))) else r
  {
    hide RunCommand;
    var r := RunCommand(c, j, s, host, fuel);
    var item := Only(c).items[0];
    var ended := if r.outcome.Status? then Ran(r.outcome, r.s.(mem := r.s.mem.(last := r.outcome.n))) else r;
    assert RunPipeline(item.andOr.first, j, s, host, fuel) == r;
    if r.outcome.Status? {
      NothingAfter(r.outcome.n, j, ended.s, host, fuel);
    }
    assert RunAndOr(item.andOr, j, s, host, fuel) == ended;
    assert RunItem(item, j, s, host, fuel) == ended;
    assert Only(c).items[1..] == [];
    assert RunItems(Only(c).items, 0, j, s, host, fuel) == ended;
  }

  lemma NothingAfter(n: int, j: Jumps, s: State, host: Host, fuel: nat)
    ensures RunRest([], n, j, s, host, fuel) == Ran(Status(n), s) == RunItems([], n, j, s, host, fuel)
  {
  }

  lemma OneWord(w: Word, s: State, host: Host)
    requires host == PlainFiles()
    ensures ExpandWords([w], [], s.params, s.mem, host) == Expanded([FlattenText(w)], s.mem)
  {
    assert [w][1..] == [];
    assert [] + [FlattenText(w)] == [FlattenText(w)];
    assert ExpandWords([], [FlattenText(w)], s.params, s.mem, host) == Expanded([FlattenText(w)], s.mem);
  }

  lemma BreakCommand(j: Jumps, s: State, fuel: nat)
    ensures RunSimple(SimpleCommand([], [[Literal("break")]], []), j, s, PlainFiles(), fuel) == Ran(Break(Raise(1, j)), s)
  {
    var cmd := SimpleCommand([], [[Literal("break")]], []);
    var host := PlainFiles();
    TextIs("break");
    OneWord([Literal("break")], s, host);
    assert ExpandWords(cmd.words, [], s.params, s.mem, host) == Expanded(["break"], s.mem);
    assert Overrides([], [], s.params, s.mem, host) == Expanded([], s.mem);
    assert RunSimple(cmd, j, s, host, fuel) == RunSpecial(cmd, ["break"], j, s, host, fuel);
    assert RunSpecial(cmd, ["break"], j, s, host, fuel) == RunRedirected(cmd, ["break"], j, s, host, fuel);
    NothingToApply(s, [], host);
    assert CallSpecial(["break"], j, s, host, fuel) == Ran(Break(Raise(1, j)), s);
    UndoNothing(s.fds);
  }

  lemma ColonCommand(j: Jumps, s: State, fuel: nat)
    ensures RunSimple(SimpleCommand([], [[Literal(":")]], []), j, s, PlainFiles(), fuel) == Ran(Status(0), s)
  {
    var cmd := SimpleCommand([], [[Literal(":")]], []);
    var host := PlainFiles();
    TextIs(":");
    OneWord([Literal(":")], s, host);
    assert Overrides([], [], s.params, s.mem, host) == Expanded([], s.mem);
    assert RunSimple(cmd, j, s, host, fuel) == RunSpecial(cmd, [":"], j, s, host, fuel);
    assert RunSpecial(cmd, [":"], j, s, host, fuel) == RunRedirected(cmd, [":"], j, s, host, fuel);
    NothingToApply(s, [], host);
    assert s.functions - {} == s.functions;
    assert CallSpecial([":"], j, s, host, fuel) == Ran(Status(0), s);
    UndoNothing(s.fds);
  }

  lemma ColonList(j: Jumps, s: State, fuel: nat)
    ensures RunList(Just(":"), j, s, PlainFiles(), fuel) == Ran(Status(0), s.(mem := s.mem.(last := 0)))
  {
    hide RunSimple, RunList;
    ColonCommand(j, s, fuel);
    OnlyRuns(Simple(SimpleCommand([], [[Literal(":")]], [])), j, s, PlainFiles(), fuel);
  }

  lemma BreakList(j: Jumps, s: State, fuel: nat)
    ensures RunList(Just("break"), j, s, PlainFiles(), fuel) == Ran(Break(Raise(1, j)), s)
  {
    hide RunSimple, RunList;
    BreakCommand(j, s, fuel);
    OnlyRuns(Simple(SimpleCommand([], [[Literal("break")]], [])), j, s, PlainFiles(), fuel);
  }
}
