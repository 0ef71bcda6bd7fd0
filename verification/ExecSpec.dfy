/** What running a command tree does, as functions of the shell's state. Other
    processes, files, expansions and the built-in utilities that only compute
    are parameters (Host). Loops and calls take fuel. */
module ExecSpec {
  import opened Prelude
  import opened Tokens
  import opened Ast
  import opened Descriptors
  import Numbers

  // ------------------------------------------------------------------ state

  datatype Variable = Variable(value: string, exported: bool, readonly: bool)

  /** Variables, the last exit status, and everything outside the shell. */
  datatype Memory = Memory(vars: map<string, Variable>, last: int, world: nat)

  /** execUsed records whether `exec` has run, whose redirections are meant to stay. */
  datatype State = State(
    fds: Table,
    params: seq<string>,
    functions: map<string, CompoundCommand>,
    mem: Memory,
    execUsed: bool)

  /** What an expansion or a utility throws: ExpansionError or ArithError; a LexError
      or ParseError from text that is read while it runs; ReadonlyVariableError. */
  datatype Fault = BadExpansion | BadSyntax | ReadonlySet

  datatype Expansion<+T> = Expanded(value: T, mem: Memory) | Thrown(fault: Fault, mem: Memory)

  /** What a built-in utility does: it finishes, it throws, or (eval, `.`, fc) it
      has a program to run in the current context. */
  datatype Effect =
    | Finished(status: int, params: seq<string>, erased: set<string>, mem: Memory)
    | Throws(fault: Fault, mem: Memory)
    | Sources(list: List, override: Option<seq<string>>, mem: Memory)

  datatype Host = Host(
    fields: (Word, seq<string>, Memory) -> Expansion<seq<string>>,
    text: (Word, seq<string>, Memory) -> Expansion<string>,
    matches: (Word, string, seq<string>, Memory) -> Expansion<bool>,
    document: (nat, HereDoc, seq<string>, Memory) -> Expansion<string>,
    tmpfile: (string, nat) -> (nat, nat),
    open: (string, Token, nat) -> (Option<nat>, nat),
    builtin: (seq<string>, seq<string>, Memory) -> Effect,
    replace: (seq<string>, Memory) -> int,
    external: (seq<string>, SimpleCommand, State) -> (int, nat),
    subshell: (List, State) -> (int, nat),
    stages: (seq<Command>, State) -> (int, nat),
    background: (AndOr, State) -> nat)

  /** How a command ends: with a status, or by a control signal or an error that
      unwinds the commands around it. */
  datatype Outcome =
    | Status(n: int)
    | Break(n: int)
    | Continue(n: int)
    | Return(n: int)
    | Exit(n: int)
    | Error(fault: Fault)
    | OutOfFuel

  datatype Ran = Ran(outcome: Outcome, s: State)

  // ------------------------------------------------------------------ jumps

  /** How break and continue name their loop: by a count, which every loop they
      pass lowers by one, as the program does it; or by a label, the number of
      loops around the target, which only that loop answers to. */
  datatype Jumps = Counted | Labelled(depth: int)

  function Raise(count: int, j: Jumps): int {
    match j
    case Counted => count
    case Labelled(d) => d - count
  }

  function EnterLoop(j: Jumps): Jumps {
    match j
    case Counted => Counted
    case Labelled(d) => Labelled(d + 1)
  }

  function EnterFunction(j: Jumps): Jumps {
    match j
    case Counted => Counted
    case Labelled(_) => Labelled(0)
  }

  predicate IsMine(n: int, j: Jumps) {
    match j
    case Counted => n <= 1
    case Labelled(d) => n == d
  }

  function PassOn(n: int, j: Jumps): int {
    match j
    case Counted => n - 1
    case Labelled(_) => n
  }

  datatype Caught = Again(status: int) | Stop(status: int) | Out(outcome: Outcome)

  /** What a loop around which j holds makes of its body's end. */
  function Catch(o: Outcome, status: int, j: Jumps): Caught {
    match o
    case Status(n) => Again(n)
    case Break(n) => if IsMine(n, j) then Stop(status) else Out(Break(PassOn(n, j)))
    case Continue(n) => if IsMine(n, j) then Again(status) else Out(Continue(PassOn(n, j)))
    case _ => Out(o)
  }

  /** A bare jump in the loop's own body is the loop's. */
  lemma CaughtMayEnd(o: Outcome, status: int, j: Jumps)
    ensures var caught := Catch(o, status, j);
            caught.Out? ==>
              forall rules: Rules :: MayEnd(o, EnterLoop(j), Inside(rules)) ==> MayEnd(caught.outcome, j, rules)
  {
  }

  /** What a function call makes of its body's end: a return is its status, and a
      jump that left every loop of the body goes on at the call. */
  function LeaveFunction(o: Outcome, j: Jumps): Outcome {
    match o
    case Return(n) => Status(n)
    case Break(n) => Break(if j.Labelled? then j.depth + n else n)
    case Continue(n) => Continue(if j.Labelled? then j.depth + n else n)
    case _ => o
  }

  /** A jump that is still under way names a loop further out. */
  predicate InRange(o: Outcome, j: Jumps) {
    o.Break? || o.Continue? ==>
      match j
      case Counted => o.n >= 1
      case Labelled(d) => o.n < d
  }

  // ---------------------------------------------------- plain command trees

  function DefaultFd(op: Token): nat {
    if op.Less? || op.LessAnd? || op.LessGreat? || op.DLess? || op.DLessDash? then 0 else 1
  }

  function TargetFd(r: Redirect): nat {
    if r.ioNumber.Some? then r.ioNumber.value else DefaultFd(r.op)
  }

  predicate Distinct(rs: seq<Redirect>) {
    forall i, j :: 0 <= i < j < |rs| ==> TargetFd(rs[i]) != TargetFd(rs[j])
  }

  /** The word of a `<&` or `>&` never expands to `-`. */
  ghost predicate NeverCloses(r: Redirect, host: Host) {
    r.target.WordTarget? && (r.op.LessAnd? || r.op.GreatAnd?) ==>
      forall params, mem :: !IsDash(host.text(r.target.word, params, mem))
  }

  predicate IsDash(e: Expansion<string>) {
    e.Expanded? && e.value == "-"
  }

  /** Only the descriptors of std, which the list never closes, occur more than
      once. With std empty: all targets are distinct. */
  ghost predicate PlainRedirects(rs: seq<Redirect>, std: set<nat>, host: Host) {
    && (forall i :: 0 <= i < |rs| && TargetFd(rs[i]) in std ==> NeverCloses(rs[i], host))
    && (forall i, j :: 0 <= i < j < |rs| && TargetFd(rs[i]) == TargetFd(rs[j]) ==> TargetFd(rs[i]) in std)
  }

  /** What a plain program keeps to. std: the descriptors it may redirect again
      (None: anything goes, and nothing is promised of descriptors). names: the
      utilities it does not name; in a loop of the program itself (inLoop) break and
      continue may be named all the same, without an operand. calm: its words throw
      nothing but what a read-only variable throws. */
  datatype Rules = Rules(std: Option<set<nat>>, names: set<string>, calm: bool, inLoop: bool)

  const JUMPS: set<string> := {"break", "continue"}

  function Outside(rules: Rules): Rules {
    rules.(inLoop := false)
  }

  function Inside(rules: Rules): Rules {
    rules.(inLoop := true)
  }

  predicate IsCalm<T>(e: Expansion<T>) {
    e.Thrown? ==> e.fault == ReadonlySet
  }

  ghost predicate CalmText(word: Word, host: Host) {
    forall params, mem :: IsCalm(host.text(word, params, mem))
  }

  ghost predicate CalmWords(words: seq<Word>, host: Host) {
    forall i, params, mem :: 0 <= i < |words| ==> IsCalm(host.fields(words[i], params, mem))
  }

  ghost predicate CalmValues(assignments: seq<Assignment>, host: Host) {
    forall i :: 0 <= i < |assignments| ==> CalmText(assignments[i].value, host)
  }

  ghost predicate CalmPatterns(patterns: seq<Word>, host: Host) {
    forall i, subject, params, mem :: 0 <= i < |patterns| ==> IsCalm(host.matches(patterns[i], subject, params, mem))
  }

  ghost predicate CalmRedirect(r: Redirect, host: Host) {
    if r.target.WordTarget? then CalmText(r.target.word, host)
    else forall params, mem :: IsCalm(host.document(r.target.id, r.target.doc, params, mem))
  }

  ghost predicate CalmRedirects(rs: seq<Redirect>, host: Host) {
    forall i :: 0 <= i < |rs| ==> CalmRedirect(rs[i], host)
  }

  ghost predicate KeepingRedirects(rs: seq<Redirect>, rules: Rules, host: Host) {
    (rules.std.Some? ==> PlainRedirects(rs, rules.std.value, host)) && (rules.calm ==> CalmRedirects(rs, host))
  }

  /** None of these names comes first: no word up to one that always makes a field
      can begin with such a field. */
  ghost predicate NeverNames(words: seq<Word>, names: set<string>, host: Host)
    decreases |words|
  {
    names == {} || words == [] ||
    ((forall params, mem :: FirstIsOther(host.fields(words[0], params, mem), names)) &&
     ((forall params, mem :: MakesField(host.fields(words[0], params, mem))) || NeverNames(words[1..], names, host)))
  }

  predicate FirstIsOther(e: Expansion<seq<string>>, names: set<string>) {
    e.Expanded? && e.value != [] ==> e.value[0] !in names
  }

  predicate MakesField(e: Expansion<seq<string>>) {
    e.Expanded? ==> e.value != []
  }

  /** A single word; if it makes break or continue, it makes nothing else. */
  ghost predicate BareJump(words: seq<Word>, host: Host) {
    |words| == 1 && forall params, mem :: IsBare(host.fields(words[0], params, mem))
  }

  predicate IsBare(e: Expansion<seq<string>>) {
    e.Expanded? && e.value != [] && e.value[0] in JUMPS ==> |e.value| == 1
  }

  ghost predicate PlainSimple(cmd: SimpleCommand, rules: Rules, host: Host) {
    && KeepingRedirects(cmd.redirects, rules, host)
    && (rules.calm ==> CalmWords(cmd.words, host) && CalmValues(cmd.assignments, host))
    && (NeverNames(cmd.words, rules.names, host) ||
        (rules.inLoop && NeverNames(cmd.words, rules.names - JUMPS, host) && BareJump(cmd.words, host)))
  }

  /** The same of a command whose words have been expanded. */
  ghost predicate PlainCall(cmd: SimpleCommand, args: seq<string>, rules: Rules, host: Host)
    requires args != []
  {
    && KeepingRedirects(cmd.redirects, rules, host)
    && (rules.calm ==> CalmValues(cmd.assignments, host))
    && MayCall(args, rules)
  }

  predicate MayCall(args: seq<string>, rules: Rules)
    requires args != []
  {
    args[0] !in rules.names || (rules.inLoop && |args| == 1 && args[0] in JUMPS)
  }

  ghost predicate PlainList(list: List, rules: Rules, host: Host)
    decreases list, 0
  {
    forall i :: 0 <= i < |list.items| ==> PlainItem(list.items[i], rules, host)
  }

  ghost predicate PlainItem(item: ListItem, rules: Rules, host: Host)
    decreases item, 0
  {
    PlainAndOr(item.andOr, rules, host)
  }

  ghost predicate PlainAndOr(a: AndOr, rules: Rules, host: Host)
    decreases a, 0
  {
    PlainPipeline(a.first, rules, host) && forall i :: 0 <= i < |a.rest| ==> PlainPart(a.rest[i], rules, host)
  }

  ghost predicate PlainPart(p: AndOrPart, rules: Rules, host: Host)
    decreases p, 0
  {
    PlainPipeline(p.pipeline, rules, host)
  }

  ghost predicate PlainPipeline(p: Pipeline, rules: Rules, host: Host)
    decreases p, 0
  {
    forall i :: 0 <= i < |p.commands| ==> PlainCommand(p.commands[i], rules, host)
  }

  /** The redirect lists of a command tree that runs in the shell itself are plain. */
  ghost predicate PlainCommand(c: Command, rules: Rules, host: Host)
    decreases c, 0
  {
    match c
    case Simple(cmd) => PlainSimple(cmd, rules, host)
    case Compound(body, rs) => KeepingRedirects(rs, rules, host) && PlainCompound(body, rules, host)
    case FunctionDefinition(_, body, _) => PlainCompound(body, Outside(rules), host)
  }

  ghost predicate PlainCompound(cc: CompoundCommand, rules: Rules, host: Host)
    decreases cc, 0
  {
    match cc
    case BraceGroup(list) => PlainList(list, rules, host)
    case Subshell(_) => true
    case ForClause(_, words, list) =>
      (rules.calm && words.Some? ==> CalmWords(words.value, host)) && PlainList(list, Inside(rules), host)
    case CaseClause(subject, items) =>
      && (rules.calm ==> CalmText(subject, host))
      && (forall i :: 0 <= i < |items| ==> PlainCaseItem(items[i], rules, host))
    case IfClause(branches, e) =>
      && (forall i :: 0 <= i < |branches| ==> PlainBranch(branches[i], rules, host))
      && PlainElse(e, rules, host)
    case WhileClause(cond, list) => PlainList(cond, rules, host) && PlainList(list, Inside(rules), host)
    case UntilClause(cond, list) => PlainList(cond, rules, host) && PlainList(list, Inside(rules), host)
  }

  ghost predicate PlainCaseItem(item: CaseItem, rules: Rules, host: Host)
    decreases item, 0
  {
    (rules.calm ==> CalmPatterns(item.patterns, host)) && PlainList(item.body, rules, host)
  }

  ghost predicate PlainBranch(b: Branch, rules: Rules, host: Host)
    decreases b, 0
  {
    PlainList(b.cond, rules, host) && PlainList(b.body, rules, host)
  }

  ghost predicate PlainElse(e: Option<List>, rules: Rules, host: Host)
    decreases e, 0
  {
    e.Some? ==> PlainList(e.value, rules, host)
  }

  /** The functions are plain, and (unless exec has run) the descriptors of the rules are open. */
  ghost predicate PlainState(s: State, rules: Rules, host: Host) {
    && (forall f :: f in s.functions ==> PlainCompound(s.functions[f], Outside(rules), host))
    && (rules.std.Some? && !s.execUsed ==> rules.std.value <= s.fds.Keys)
  }

  /** Utilities that may be named bring in only plain programs, and throw nothing
      that plain words do not. (Those that bring in any program are named nowhere.) */
  ghost predicate PlainHost(rules: Rules, host: Host) {
    forall args, params, mem :: args != [] && args[0] !in rules.names ==>
      PlainEffect(host.builtin(args, params, mem), rules, host)
  }

  ghost predicate PlainEffect(e: Effect, rules: Rules, host: Host) {
    && (e.Sources? ==> PlainList(e.list, Outside(rules), host))
    && (e.Throws? && rules.calm ==> e.fault == ReadonlySet)
  }

  /** The descriptors, if the rules speak of them, are as they were unless exec ran. */
  ghost predicate KeptState(s: State, t: State, rules: Rules, host: Host) {
    && PlainState(t, rules, host)
    && (rules.std.Some? ==> (s.execUsed ==> t.execUsed) && (!t.execUsed ==> t.fds == s.fds))
  }

  /** How a command that keeps to the rules can end: not by a jump that only a
      utility it never names raises, and if its words are calm by no error but that of
      a read-only variable. */
  predicate MayEnd(o: Outcome, j: Jumps, rules: Rules) {
    && (o.Break? ==> "break" !in rules.names || (rules.inLoop && o.n == Raise(1, j)))
    && (o.Continue? ==> "continue" !in rules.names || (rules.inLoop && o.n == Raise(1, j)))
    && (o.Return? ==> "return" !in rules.names)
    && (o.Exit? ==> "exit" !in rules.names || "exec" !in rules.names)
    && (o.Error? && rules.calm ==> o.fault == ReadonlySet)
  }

  ghost predicate Kept(s: State, r: Ran, j: Jumps, rules: Rules, host: Host) {
    KeptState(s, r.s, rules, host) && MayEnd(r.outcome, j, rules)
  }

  // -------------------------------------------------------------- redirects

  datatype Verdict = Done | Failed | Threw(fault: Fault)

  datatype Applied = Applied(verdict: Verdict, s: State, saved: seq<Backup>)

  /** strtol, then the conversion to int; None when it does not read it all. */
  function SourceFd(text: string): Option<int> {
    var t := Numbers.SkipSpaces(text);
    var signed := t != "" && (t[0] == '-' || t[0] == '+');
    match Numbers.ReadMagnitude(if signed then t[1..] else t, false)
    case None => None
    case Some((m, rest)) =>
      var n := (if signed && t[0] == '-' then -1 else 1) * m as int;
      var long := if n > Numbers.INT64_MAX then Numbers.INT64_MAX else if n < Numbers.INT64_MIN then Numbers.INT64_MIN else n;
      if rest != "" then None else Some((long + 0x8000_0000) % 0x1_0000_0000 - 0x8000_0000)
  }

  /** The target put on a file, or closed, or (Failed) left alone. */
  function Redirected(r: Redirect, s: State, host: Host): (Verdict, State) {
    var target := TargetFd(r);
    match r.target
    case HereDocTarget(id, doc) => (
      match host.document(id, doc, s.params, s.mem)
      case Thrown(fault, mem) => (Threw(fault), s.(mem := mem))
      case Expanded(body, mem) =>
        var (file, world) := host.tmpfile(body, mem.world);
        (Done, s.(fds := OpenOnto(s.fds, file, target), mem := mem.(world := world))))
    case WordTarget(word) =>
      match host.text(word, s.params, s.mem)
      case Thrown(fault, mem) => (Threw(fault), s.(mem := mem))
      case Expanded(text, mem) =>
        if r.op.LessAnd? || r.op.GreatAnd? then DuplicateOnto(text, target, s.(mem := mem))
        else if !(r.op.Less? || r.op.Great? || r.op.Clobber? || r.op.DGreat? || r.op.LessGreat?) then (Failed, s.(mem := mem))
        else
          var (file, world) := host.open(text, r.op, mem.world);
          var s1 := s.(mem := mem.(world := world));
          if file.None? then (Failed, s1) else (Done, s1.(fds := OpenOnto(s.fds, file.value, target)))
  }

  /** `<&` and `>&`. */
  function DuplicateOnto(text: string, target: nat, s: State): (Verdict, State) {
    if text == "-" then (Done, s.(fds := Close(s.fds, target)))
    else
      match SourceFd(text)
      case None => (Failed, s)
      case Some(n) =>
        if n >= 0 && n in s.fds then (Done, s.(fds := s.fds[target := s.fds[n]])) else (Failed, s)
  }

  /** With keep the target is saved first. */
  function ApplyOne(r: Redirect, s: State, saved: seq<Backup>, keep: bool, host: Host): Applied {
    var (fds, saved1) := if keep then Save(s.fds, saved, TargetFd(r)) else (s.fds, saved);
    var (verdict, s1) := Redirected(r, s.(fds := fds), host);
    Applied(verdict, s1, saved1)
  }

  function ApplyRedirects(rs: seq<Redirect>, s: State, saved: seq<Backup>, keep: bool, host: Host): (r: Applied)
    ensures CalmRedirects(rs, host) && r.verdict.Threw? ==> r.verdict.fault == ReadonlySet
    decreases |rs|
  {
    if rs == [] then Applied(Done, s, saved)
    else
      var a := ApplyOne(rs[0], s, saved, keep, host);
      if a.verdict.Done? then ApplyRedirects(rs[1..], a.s, a.saved, keep, host) else a
  }

  /** A redirection changes nothing but its target, in the table. */
  lemma RedirectedTouchesTarget(r: Redirect, s: State, host: Host)
    ensures var t := Redirected(r, s, host).1;
            && t.fds == Put(s.fds, TargetFd(r), Get(t.fds, TargetFd(r)))
            && t.functions == s.functions && t.params == s.params && t.execUsed == s.execUsed
  {
    hide OpenOnto, Put, DuplicateOnto, SourceFd;
    var target := TargetFd(r);
    UntouchedIsPut(s.fds, target);
    if r.target.HereDocTarget? {
      var e := host.document(r.target.id, r.target.doc, s.params, s.mem);
      if e.Expanded? {
        OpenOntoIsPut(s.fds, host.tmpfile(e.value, e.mem.world).0, target);
      }
    } else {
      var e := host.text(r.target.word, s.params, s.mem);
      if e.Expanded? {
        DuplicateIsPut(e.value, target, s.(mem := e.mem));
        var file := host.open(e.value, r.op, e.mem.world).0;
        if file.Some? {
          OpenOntoIsPut(s.fds, file.value, target);
        }
      }
    }
  }

  lemma UntouchedIsPut(t: Table, fd: nat)
    ensures Put(t, fd, Get(t, fd)) == t
  {
  }

  lemma OpenOntoIsPut(t: Table, file: nat, target: nat)
    ensures var u := OpenOnto(t, file, target); u == Put(t, target, Get(u, target))
  {
  }

  lemma DuplicateIsPut(text: string, target: nat, s: State)
    ensures var t := DuplicateOnto(text, target, s).1;
            && t == s.(fds := t.fds) && t.fds == Put(s.fds, target, Get(t.fds, target))
  {
    hide SourceFd;
  }

  /** The file that a redirection opens: the target holds it afterwards if and only
      if the target was not the lowest free number, which open gave out itself. */
  lemma OpenedReachesTargetIff(r: Redirect, s: State, saved: seq<Backup>, keep: bool, host: Host)
    requires OpensFile(r, s, host).Some?
    ensures var a := ApplyOne(r, s, saved, keep, host);
            && a.verdict.Done?
            && (Get(a.s.fds, TargetFd(r)) == OpensFile(r, s, host) <==> TargetFd(r) != LowestFree(s.fds))
            && (TargetFd(r) == LowestFree(s.fds) ==> TargetFd(r) !in a.s.fds)
  {
    hide LowestFree, IsSaved;
  }

  /** The file opened for a redirection, if one is. */
  function OpensFile(r: Redirect, s: State, host: Host): Option<nat> {
    match r.target
    case HereDocTarget(id, doc) => (
      match host.document(id, doc, s.params, s.mem)
      case Thrown(_, _) => None
      case Expanded(body, mem) => Some(host.tmpfile(body, mem.world).0))
    case WordTarget(word) =>
      if !(r.op.Less? || r.op.Great? || r.op.Clobber? || r.op.DGreat? || r.op.LessGreat?) then None
      else
        match host.text(word, s.params, s.mem)
        case Thrown(_, _) => None
        case Expanded(text, mem) => host.open(text, r.op, mem.world).0
  }

  lemma {:induction false} RedirectsKeepFunctions(rs: seq<Redirect>, s: State, saved: seq<Backup>, keep: bool, host: Host)
    ensures var t := ApplyRedirects(rs, s, saved, keep, host).s; t.functions == s.functions && t.execUsed == s.execUsed
    decreases |rs|
  {
    hide Redirected;
    if rs != [] {
      var s1 := s.(fds := if keep then Save(s.fds, saved, TargetFd(rs[0])).0 else s.fds);
      RedirectedTouchesTarget(rs[0], s1, host);
      var a := ApplyOne(rs[0], s, saved, keep, host);
      RedirectsKeepFunctions(rs[1..], a.s, a.saved, keep, host);
    }
  }

  /** No redirection of the list strikes a live backup. */
  ghost predicate NeverStrikes(rs: seq<Redirect>, s: State, saved: seq<Backup>, host: Host)
    decreases |rs|
  {
    rs == [] ||
      var a := ApplyOne(rs[0], s, saved, true, host);
      Protected(a.saved, TargetFd(rs[0])) && (a.verdict.Done? ==> NeverStrikes(rs[1..], a.s, a.saved, host))
  }

  /** Whatever a list that never strikes did, wherever it stopped, is undone. */
  lemma {:induction false} RedirectsAreUndone(rs: seq<Redirect>, s: State, saved: seq<Backup>, host: Host)
    requires Sound(s.fds, saved) && NeverStrikes(rs, s, saved, host)
    ensures var a := ApplyRedirects(rs, s, saved, true, host);
            && Sound(a.s.fds, a.saved) && Undo(a.s.fds, a.saved) == Undo(s.fds, saved)
            && a.s.functions == s.functions && a.s.params == s.params && a.s.execUsed == s.execUsed
    decreases |rs|
  {
    hide Undo, Sound, Redirected, Save, Put, Protected;
    if rs != [] {
      var fd := TargetFd(rs[0]);
      var (fds, saved1) := Save(s.fds, saved, fd);
      var s1 := s.(fds := fds);
      var t := Redirected(rs[0], s1, host).1;
      SaveIsUndone(s.fds, saved, fd);
      RedirectedTouchesTarget(rs[0], s1, host);
      ChangeIsUndone(fds, saved1, fd, Get(t.fds, fd));
      var a := ApplyOne(rs[0], s, saved, true, host);
      if a.verdict.Done? {
        RedirectsAreUndone(rs[1..], a.s, a.saved, host);
      }
    }
  }

  predicate NoCopyIn(saved: seq<Backup>, fds: set<nat>) {
    forall i :: 0 <= i < |saved| && saved[i].copy.Some? ==> saved[i].copy.value !in fds
  }

  lemma {:induction false} NoCopyProtects(saved: seq<Backup>, fds: set<nat>, fd: nat)
    requires NoCopyIn(saved, fds) && fd in fds && IsSaved(saved, fd)
    ensures Protected(saved, fd)
    decreases |saved|
  {
    var last, front := saved[|saved| - 1], saved[..|saved| - 1];
    if last.target != fd {
      assert IsSaved(front, fd) by {
        var i :| 0 <= i < |saved| && saved[i].target == fd;
        assert front[i].target == fd;
      }
      NoCopyProtects(front, fds, fd);
    }
  }

  /** A target that was open stays open, unless it is closed. */
  lemma TargetStaysOpen(r: Redirect, s: State, host: Host)
    requires NeverCloses(r, host) && TargetFd(r) in s.fds
    ensures TargetFd(r) in Redirected(r, s, host).1.fds
  {
    hide SourceFd;
    if r.target.WordTarget? {
      var e := host.text(r.target.word, s.params, s.mem);
      assert r.op.LessAnd? || r.op.GreatAnd? ==> !IsDash(e);
    }
  }

  /** One redirection of a plain list: what it adds to the backups protects its
      target, and std stays open and free of backups. */
  lemma PlainStep(r: Redirect, std: set<nat>, s: State, saved: seq<Backup>, host: Host)
    requires std <= s.fds.Keys && NoCopyIn(saved, std)
    requires TargetFd(r) in std ==> NeverCloses(r, host)
    requires TargetFd(r) !in std ==> !IsSaved(saved, TargetFd(r))
    ensures var a := ApplyOne(r, s, saved, true, host);
            && Protected(a.saved, TargetFd(r)) && std <= a.s.fds.Keys && NoCopyIn(a.saved, std)
            && forall k :: IsSaved(a.saved, k) ==> IsSaved(saved, k) || k == TargetFd(r)
  {
    hide Redirected, NeverCloses;
    var fd := TargetFd(r);
    var (fds, saved1) := Save(s.fds, saved, fd);
    var s1 := s.(fds := fds);
    if !IsSaved(saved, fd) {
      var last := saved1[|saved1| - 1];
      assert saved1 == saved + [last] && last.target == fd;
      forall k ensures IsSaved(saved1, k) ==> IsSaved(saved, k) || k == fd {
        SavedSnoc(saved, last, k);
      }
    } else {
      NoCopyProtects(saved, std, fd);
    }
    RedirectedTouchesTarget(r, s1, host);
    var t := Redirected(r, s1, host).1;
    if fd in std {
      TargetStaysOpen(r, s1, host);
    }
    forall k | k in std ensures k in t.fds {
      assert k != fd ==> k in Put(fds, fd, Get(t.fds, fd));
    }
  }

  /** A plain list never strikes, even when a backup lands on the number of a
      later target. */
  lemma {:induction false} PlainNeverStrikes(rs: seq<Redirect>, std: set<nat>, s: State, saved: seq<Backup>, host: Host)
    requires PlainRedirects(rs, std, host) && std <= s.fds.Keys && NoCopyIn(saved, std)
    requires forall i :: 0 <= i < |rs| && TargetFd(rs[i]) !in std ==> !IsSaved(saved, TargetFd(rs[i]))
    ensures NeverStrikes(rs, s, saved, host) && std <= ApplyRedirects(rs, s, saved, true, host).s.fds.Keys
    decreases |rs|
  {
    hide ApplyOne, NeverCloses, NoCopyIn;
    if rs != [] {
      PlainStep(rs[0], std, s, saved, host);
      var a := ApplyOne(rs[0], s, saved, true, host);
      var rest := rs[1..];
      forall i | 0 <= i < |rest| ensures TargetFd(rest[i]) !in std ==> !IsSaved(a.saved, TargetFd(rest[i])) {
        assert rest[i] == rs[i + 1] && (TargetFd(rs[0]) == TargetFd(rs[i + 1]) ==> TargetFd(rs[0]) in std);
      }
      assert PlainRedirects(rest, std, host) by {
        assert forall i :: 0 <= i < |rest| ==> rest[i] == rs[i + 1];
      }
      PlainNeverStrikes(rest, std, a.s, a.saved, host);
    }
  }

  lemma DistinctNeverStrikes(rs: seq<Redirect>, s: State, host: Host)
    requires Distinct(rs)
    ensures NeverStrikes(rs, s, [], host)
  {
    hide NeverStrikes;
    PlainNeverStrikes(rs, {}, s, [], host);
  }

  /** What can be checked before a list is run: every target that occurs more than
      once is open, and the list does not close it. */
  ghost predicate RepeatsAreOpen(rs: seq<Redirect>, fds: Table, host: Host) {
    forall i, j :: 0 <= i < j < |rs| && TargetFd(rs[i]) == TargetFd(rs[j]) ==>
      TargetFd(rs[i]) in fds && NeverCloses(rs[i], host) && NeverCloses(rs[j], host)
  }

  function Repeated(rs: seq<Redirect>): set<nat> {
    set i, j | 0 <= i < j < |rs| && TargetFd(rs[i]) == TargetFd(rs[j]) :: TargetFd(rs[i])
  }

  /** Such a list is undone, however far it got: `>a 2>&1 >b`, for one. */
  lemma OpenRepeatsAreUndone(rs: seq<Redirect>, s: State, host: Host)
    requires RepeatsAreOpen(rs, s.fds, host)
    ensures var a := ApplyRedirects(rs, s, [], true, host); Undo(a.s.fds, a.saved) == s.fds
  {
    hide NeverStrikes, NeverCloses, ApplyRedirects;
    var std := Repeated(rs);
    forall i | 0 <= i < |rs| && TargetFd(rs[i]) in std ensures NeverCloses(rs[i], host) {
      var a, b :| 0 <= a < b < |rs| && TargetFd(rs[a]) == TargetFd(rs[b]) == TargetFd(rs[i]);
      assert i < b || a < i;
      assert if i < b then NeverCloses(rs[i], host) else NeverCloses(rs[i], host);
    }
    PlainNeverStrikes(rs, std, s, [], host);
    RedirectsAreUndone(rs, s, [], host);
    assert Undo(s.fds, []) == s.fds;
  }

  // ---------------------------------------------- exactly when it is undone

  /** Every redirection of the list, as it is reached, makes a change that is
      harmless to the backups there are then. */
  predicate EveryStepHarmless(rs: seq<Redirect>, s: State, saved: seq<Backup>, host: Host)
    decreases |rs|
  {
    rs == [] ||
      var (fds, saved1) := Save(s.fds, saved, TargetFd(rs[0]));
      var a := ApplyOne(rs[0], s, saved, true, host);
      && Harmless(fds, saved1, TargetFd(rs[0]), Get(a.s.fds, TargetFd(rs[0])))
      && (a.verdict.Done? ==> EveryStepHarmless(rs[1..], a.s, a.saved, host))
  }

  predicate UndoneAfter(rs: seq<Redirect>, n: nat, s: State, saved: seq<Backup>, host: Host, t: Table)
    requires n <= |rs|
  {
    var a := ApplyRedirects(rs[..n], s, saved, true, host);
    Undo(a.s.fds, a.saved) == t
  }

  lemma StepIsUndoneIff(r: Redirect, s: State, saved: seq<Backup>, host: Host)
    ensures var (fds, saved1) := Save(s.fds, saved, TargetFd(r));
            var a := ApplyOne(r, s, saved, true, host);
            && a.saved == saved1
            && (Undo(a.s.fds, a.saved) == Undo(s.fds, saved)
                <==> Harmless(fds, saved1, TargetFd(r), Get(a.s.fds, TargetFd(r))))
  {
    hide Redirected, Harmless, Undo;
    var fd := TargetFd(r);
    var (fds, saved1) := Save(s.fds, saved, fd);
    RedirectedTouchesTarget(r, s.(fds := fds), host);
    SaveUndoes(s.fds, saved, fd);
    var a := ApplyOne(r, s, saved, true, host);
    ChangeIsUndoneIff(fds, saved1, fd, Get(a.s.fds, fd));
  }

  /** For all lists, states and hosts: the table can be had back after every part
      of the list if and only if every step is harmless. */
  lemma {:induction false} UndoneThroughoutIff(rs: seq<Redirect>, s: State, saved: seq<Backup>, host: Host)
    ensures (forall n :: 0 <= n <= |rs| ==> UndoneAfter(rs, n, s, saved, host, Undo(s.fds, saved)))
       <==> EveryStepHarmless(rs, s, saved, host)
    decreases |rs|
  {
    hide ApplyOne, Harmless, Undo;
    var t := Undo(s.fds, saved);
    assert UndoneAfter(rs, 0, s, saved, host, t) by { assert rs[..0] == []; }
    if rs != [] {
      var a := ApplyOne(rs[0], s, saved, true, host);
      StepIsUndoneIff(rs[0], s, saved, host);
      forall n | 1 <= n <= |rs|
        ensures UndoneAfter(rs, n, s, saved, host, t)
           <==> if a.verdict.Done? then UndoneAfter(rs[1..], n - 1, a.s, a.saved, host, t) else Undo(a.s.fds, a.saved) == t
      {
        assert rs[..n][0] == rs[0] && rs[..n][1..] == rs[1..][..n - 1];
      }
      if a.verdict.Done? {
        UndoneThroughoutIff(rs[1..], a.s, a.saved, host);
        if forall n :: 0 <= n <= |rs| ==> UndoneAfter(rs, n, s, saved, host, t) {
          assert UndoneAfter(rs, 1, s, saved, host, t);
          assert UndoneAfter(rs[1..], 0, a.s, a.saved, host, t);
          assert Undo(a.s.fds, a.saved) == t by { assert rs[1..][..0] == []; }
          forall n | 0 <= n <= |rs[1..]| ensures UndoneAfter(rs[1..], n, a.s, a.saved, host, t) {
            assert UndoneAfter(rs, n + 1, s, saved, host, t);
          }
        }
        if EveryStepHarmless(rs, s, saved, host) {
          forall n | 1 <= n <= |rs| ensures UndoneAfter(rs, n, s, saved, host, t) {
            assert UndoneAfter(rs[1..], n - 1, a.s, a.saved, host, Undo(a.s.fds, a.saved));
          }
        }
      } else {
        assert UndoneAfter(rs, 1, s, saved, host, t) <==> Undo(a.s.fds, a.saved) == t;
      }
    }
  }

  // ------------------------------------------------------ restoring commands

  /** The command whose redirections were applied has run: undo them. */
  function Restored(s: State, saved: seq<Backup>): State {
    s.(fds := Undo(s.fds, saved))
  }

  lemma UndoNothing(t: Table)
    ensures Undo(t, []) == t && Sound(t, [])
  {
  }

  lemma PlainIsRestored(rs: seq<Redirect>, rules: Rules, s: State, host: Host)
    requires KeepingRedirects(rs, rules, host) && PlainState(s, rules, host)
    ensures var a := ApplyRedirects(rs, s, [], true, host);
            && PlainState(a.s, rules, host) && a.s.execUsed == s.execUsed
            && (rules.std.Some? && !s.execUsed ==> Undo(a.s.fds, a.saved) == s.fds)
  {
    hide ApplyRedirects, NeverStrikes, PlainRedirects, Undo, Sound, PlainCompound;
    RedirectsKeepFunctions(rs, s, [], true, host);
    if rules.std.Some? && !s.execUsed {
      PlainNeverStrikes(rs, rules.std.value, s, [], host);
      UndoNothing(s.fds);
      RedirectsAreUndone(rs, s, [], host);
    }
  }

  /** What keeps the descriptors after plain redirections were applied keeps them
      altogether, once those are undone. */
  lemma RestoredKeeps(rs: seq<Redirect>, s: State, host: Host)
    ensures var a := ApplyRedirects(rs, s, [], true, host);
            forall rules: Rules :: KeepingRedirects(rs, rules, host) && PlainState(s, rules, host) ==>
              && PlainState(a.s, rules, host)
              && forall t :: KeptState(a.s, t, rules, host) ==> KeptState(s, Restored(t, a.saved), rules, host)
  {
    hide ApplyRedirects, PlainRedirects, PlainCompound, Undo;
    var a := ApplyRedirects(rs, s, [], true, host);
    forall rules: Rules | KeepingRedirects(rs, rules, host) && PlainState(s, rules, host)
      ensures PlainState(a.s, rules, host)
      ensures forall t :: KeptState(a.s, t, rules, host) ==> KeptState(s, Restored(t, a.saved), rules, host)
    {
      PlainIsRestored(rs, rules, s, host);
    }
  }

  // --------------------------------------------------------------- variables

  /** Environment::set, or None for a read-only variable. */
  function SetVar(mem: Memory, name: string, value: string): Option<Memory> {
    if name !in mem.vars then Some(mem.(vars := mem.vars[name := Variable(value, false, false)]))
    else if mem.vars[name].readonly then None
    else Some(mem.(vars := mem.vars[name := mem.vars[name].(value := value)]))
  }

  datatype SavedVar = SavedVar(name: string, value: Option<string>)

  datatype Assigned = Assigned(verdict: Verdict, mem: Memory, saved: seq<SavedVar>)

  function Assign(assignments: seq<Assignment>, saved: seq<SavedVar>, params: seq<string>, mem: Memory, host: Host): (r: Assigned)
    ensures CalmValues(assignments, host) && r.verdict.Threw? ==> r.verdict.fault == ReadonlySet
    decreases |assignments|
  {
    if assignments == [] then Assigned(Done, mem, saved)
    else
      var a := assignments[0];
      var prior := if a.name in mem.vars then Some(mem.vars[a.name].value) else None;
      match host.text(a.value, params, mem)
      case Thrown(fault, mem1) => Assigned(Threw(fault), mem1, saved)
      case Expanded(text, mem1) =>
        match SetVar(mem1, a.name, text)
        case None => Assigned(Failed, mem1, saved)
        case Some(mem2) => Assign(assignments[1..], saved + [SavedVar(a.name, prior)], params, mem2, host)
  }

  /** restoreVars, last saved first; it throws at a variable that has become
      read-only. */
  function RestoreVars(saved: seq<SavedVar>, mem: Memory): (bool, Memory)
    decreases |saved|
  {
    if saved == [] then (true, mem)
    else
      var v, front := saved[|saved| - 1], saved[..|saved| - 1];
      if v.value.None? then RestoreVars(front, mem.(vars := mem.vars - {v.name}))
      else
        match SetVar(mem, v.name, v.value.value)
        case None => (false, mem)
        case Some(mem1) => RestoreVars(front, mem1)
  }

  function ExpandWords(words: seq<Word>, before: seq<string>, params: seq<string>, mem: Memory, host: Host)
    : (r: Expansion<seq<string>>)
    ensures CalmWords(words, host) ==> IsCalm(r)
    ensures r.Expanded? ==> before <= r.value
    decreases |words|
  {
    if words == [] then Expanded(before, mem)
    else
      match host.fields(words[0], params, mem)
      case Thrown(fault, mem1) => Thrown(fault, mem1)
      case Expanded(fields, mem1) => ExpandWords(words[1..], before + fields, params, mem1, host)
  }

  lemma {:induction false} OtherNameFirst(words: seq<Word>, params: seq<string>, mem: Memory, host: Host, names: set<string>)
    requires NeverNames(words, names, host)
    ensures var e := ExpandWords(words, [], params, mem, host);
            e.Expanded? && e.value != [] ==> e.value[0] !in names
    decreases |words|
  {
    if words != [] && names != {} {
      var first := host.fields(words[0], params, mem);
      assert FirstIsOther(first, names);
      if first.Expanded? {
        assert [] + first.value == first.value;
        if first.value == [] {
          assert !MakesField(first);
          OtherNameFirst(words[1..], params, first.mem, host, names);
        }
      }
    }
  }

  lemma PlainArguments(cmd: SimpleCommand, params: seq<string>, mem: Memory, host: Host)
    ensures var e := ExpandWords(cmd.words, [], params, mem, host);
            e.Expanded? && e.value != [] ==>
              forall rules: Rules :: PlainSimple(cmd, rules, host) ==> PlainCall(cmd, e.value, rules, host)
  {
    hide KeepingRedirects, CalmValues, CalmWords, NeverNames;
    var words, e := cmd.words, ExpandWords(cmd.words, [], params, mem, host);
    if e.Expanded? && e.value != [] {
      forall names | NeverNames(words, names, host) ensures e.value[0] !in names {
        OtherNameFirst(words, params, mem, host, names);
      }
      if BareJump(words, host) {
        var first := host.fields(words[0], params, mem);
        assert [] + first.value == first.value;
        assert IsBare(first) && words[1..] == [];
      }
    }
  }

  /** The values of the prefix assignments, expanded once for the child's
      environment. */
  function Overrides(assignments: seq<Assignment>, before: seq<string>, params: seq<string>, mem: Memory, host: Host)
    : (r: Expansion<seq<string>>)
    ensures CalmValues(assignments, host) ==> IsCalm(r)
    decreases |assignments|
  {
    if assignments == [] then Expanded(before, mem)
    else
      match host.text(assignments[0].value, params, mem)
      case Thrown(fault, mem1) => Thrown(fault, mem1)
      case Expanded(text, mem1) =>
        Overrides(assignments[1..], before + [assignments[0].name + "=" + text], params, mem1, host)
  }

  // ---------------------------------------------------------------- commands

  const SPECIAL: set<string> := {
    ":", ".", "break", "continue", "eval", "exec", "exit", "export", "readonly", "return", "set", "shift", "trap",
    "times", "unset"
  }

  const REGULAR: set<string> := {
    "cd", "pwd", "echo", "true", "false", "test", "[", "printf", "read", "command", "type", "getopts", "wait", "umask", "kill",
    "jobs", "fg", "bg", "fc", "history"
  }

  /** parseIntArg. */
  function IntArg(args: seq<string>, missing: int, malformed: int): int {
    if |args| < 2 then missing
    else
      match Numbers.ReadInteger(args[1], false, Numbers.INT_MIN, Numbers.INT_MAX)
      case Some((n, "")) => n
      case _ => malformed
  }

  function Levels(args: seq<string>): (n: int)
    ensures n >= 1
  {
    var n := IntArg(args, 1, 1);
    if n < 1 then 1 else n
  }

  function Stopped(verdict: Verdict): Outcome
    requires !verdict.Done?
  {
    if verdict.Failed? then Status(1) else Error(verdict.fault)
  }

  function RunList(list: List, j: Jumps, s: State, host: Host, fuel: nat): (r: Ran)
    ensures InRange(r.outcome, j)
    ensures forall rules: Rules :: PlainList(list, rules, host) && PlainState(s, rules, host) && PlainHost(rules, host) ==>
              Kept(s, r, j, rules, host)
    decreases 2 * fuel + 1, list, 0, 0
  {
    RunItems(list.items, 0, j, s, host, fuel)
  }

  function RunItems(items: seq<ListItem>, status: int, j: Jumps, s: State, host: Host, fuel: nat): (r: Ran)
    ensures InRange(r.outcome, j)
    ensures forall rules: Rules ::
              (forall i :: 0 <= i < |items| ==> PlainItem(items[i], rules, host)) ==>
                PlainState(s, rules, host) && PlainHost(rules, host) ==> Kept(s, r, j, rules, host)
    decreases 2 * fuel + 1, items, 0, 0
  {
    if items == [] then Ran(Status(status), s)
    else
      var r := RunItem(items[0], j, s, host, fuel);
      if r.outcome.Status? then RunItems(items[1..], r.outcome.n, j, r.s, host, fuel) else r
  }

  function RunItem(item: ListItem, j: Jumps, s: State, host: Host, fuel: nat): (r: Ran)
    ensures InRange(r.outcome, j)
    ensures forall rules: Rules :: PlainItem(item, rules, host) && PlainState(s, rules, host) && PlainHost(rules, host) ==>
              Kept(s, r, j, rules, host)
    decreases 2 * fuel + 1, item, 0, 0
  {
    if item.sep.Async? then Ran(Status(0), s.(mem := s.mem.(last := 0, world := host.background(item.andOr, s))))
    else RunAndOr(item.andOr, j, s, host, fuel)
  }

  function RunAndOr(a: AndOr, j: Jumps, s: State, host: Host, fuel: nat): (r: Ran)
    ensures InRange(r.outcome, j)
    ensures forall rules: Rules :: PlainAndOr(a, rules, host) && PlainState(s, rules, host) && PlainHost(rules, host) ==>
              Kept(s, r, j, rules, host)
    decreases 2 * fuel + 1, a, 0, 0
  {
    var r := RunPipeline(a.first, j, s, host, fuel);
    if r.outcome.Status? then RunRest(a.rest, r.outcome.n, j, r.s.(mem := r.s.mem.(last := r.outcome.n)), host, fuel) else r
  }

  function RunRest(parts: seq<AndOrPart>, status: int, j: Jumps, s: State, host: Host, fuel: nat): (r: Ran)
    ensures InRange(r.outcome, j)
    ensures forall rules: Rules ::
              (forall i :: 0 <= i < |parts| ==> PlainPart(parts[i], rules, host)) ==>
                PlainState(s, rules, host) && PlainHost(rules, host) ==> Kept(s, r, j, rules, host)
    decreases 2 * fuel + 1, parts, 0, 0
  {
    if parts == [] then Ran(Status(status), s)
    else if parts[0].isAnd != (status == 0) then RunRest(parts[1..], status, j, s, host, fuel)
    else
      var r := RunPart(parts[0], j, s, host, fuel);
      if r.outcome.Status? then RunRest(parts[1..], r.outcome.n, j, r.s.(mem := r.s.mem.(last := r.outcome.n)), host, fuel) else r
  }

  function RunPart(part: AndOrPart, j: Jumps, s: State, host: Host, fuel: nat): (r: Ran)
    ensures InRange(r.outcome, j)
    ensures forall rules: Rules :: PlainPart(part, rules, host) && PlainState(s, rules, host) && PlainHost(rules, host) ==>
              Kept(s, r, j, rules, host)
    decreases 2 * fuel + 1, part, 0, 0
  {
    RunPipeline(part.pipeline, j, s, host, fuel)
  }

  function RunPipeline(p: Pipeline, j: Jumps, s: State, host: Host, fuel: nat): (r: Ran)
    ensures InRange(r.outcome, j)
    ensures forall rules: Rules :: PlainPipeline(p, rules, host) && PlainState(s, rules, host) && PlainHost(rules, host) ==>
              Kept(s, r, j, rules, host)
    decreases 2 * fuel + 1, p, 0, 0
  {
    var r := if |p.commands| == 1 then RunCommand(p.commands[0], j, s, host, fuel) else RunStages(p.commands, s, host);
    if p.negated && r.outcome.Status? then Ran(Status(if r.outcome.n == 0 then 1 else 0), r.s) else r
  }

  /** A pipeline of several commands: pipes are opened, children forked, pipes
      closed, and the last child's status waited for. */
  function RunStages(commands: seq<Command>, s: State, host: Host): (r: Ran)
    ensures r.outcome.Status? && r.s.fds == s.fds && r.s.functions == s.functions && r.s.execUsed == s.execUsed
  {
    var n := if commands == [] then 0 else |commands| - 1;
    var (fds, pipes) := OpenPipes(s.fds, n, s.mem.world);
    var (status, world) := host.stages(commands, s.(fds := fds));
    assert CloseAll(fds, pipes) == s.fds by { PipesAreClosed(s.fds, n, s.mem.world); }
    Ran(Status(status), s.(fds := CloseAll(fds, pipes), mem := s.mem.(world := world)))
  }

  function RunCommand(c: Command, j: Jumps, s: State, host: Host, fuel: nat): (r: Ran)
    ensures InRange(r.outcome, j)
    ensures forall rules: Rules :: PlainCommand(c, rules, host) && PlainState(s, rules, host) && PlainHost(rules, host) ==>
              Kept(s, r, j, rules, host)
    decreases 2 * fuel + 1, c, 0, 0
  {
    match c
    case Simple(cmd) => RunSimple(cmd, j, s, host, fuel)
    case Compound(body, rs) =>
      var a := ApplyRedirects(rs, s, [], true, host);
      RestoredKeeps(rs, s, host);
      if !a.verdict.Done? then Ran(Stopped(a.verdict), Restored(a.s, a.saved))
      else
        var r := RunCompound(body, j, a.s, host, fuel);
        Ran(r.outcome, Restored(r.s, a.saved))
    case FunctionDefinition(name, body, _) => Ran(Status(0), s.(functions := s.functions[name := body]))
  }

  function RunSimple(cmd: SimpleCommand, j: Jumps, s: State, host: Host, fuel: nat): (r: Ran)
    ensures InRange(r.outcome, j)
    ensures forall rules: Rules :: PlainSimple(cmd, rules, host) && PlainState(s, rules, host) && PlainHost(rules, host) ==>
              Kept(s, r, j, rules, host)
    decreases 2 * fuel + 1, cmd, 4, 0
  {
    match ExpandWords(cmd.words, [], s.params, s.mem, host)
    case Thrown(fault, mem) => Ran(Error(fault), s.(mem := mem))
    case Expanded(args, mem) =>
      PlainArguments(cmd, s.params, s.mem, host);
      if args == [] then RunBare(cmd, s.(mem := mem), host)
      else
        match Overrides(cmd.assignments, [], s.params, mem, host)
        case Thrown(fault, mem1) => Ran(Error(fault), s.(mem := mem1))
        case Expanded(_, mem1) =>
          if args[0] in SPECIAL then RunSpecial(cmd, args, j, s.(mem := mem1), host, fuel)
          else RunRegular(cmd, args, j, s.(mem := mem1), host, fuel)
  }

  /** No command name: assignments persist, redirections are applied and undone. */
  function RunBare(cmd: SimpleCommand, s: State, host: Host): (r: Ran)
    ensures r.outcome.Status? || r.outcome.Error?
    ensures r.outcome.Error? && CalmRedirects(cmd.redirects, host) && CalmValues(cmd.assignments, host) ==>
              r.outcome.fault == ReadonlySet
    ensures forall rules: Rules :: KeepingRedirects(cmd.redirects, rules, host) && PlainState(s, rules, host) ==>
              KeptState(s, r.s, rules, host)
  {
    var a := ApplyRedirects(cmd.redirects, s, [], true, host);
    RestoredKeeps(cmd.redirects, s, host);
    if !a.verdict.Done? then Ran(Stopped(a.verdict), Restored(a.s, a.saved))
    else
      var v := Assign(cmd.assignments, [], a.s.params, a.s.mem, host);
      Ran(if v.verdict.Done? then Status(0) else Stopped(v.verdict), Restored(a.s.(mem := v.mem), a.saved))
  }

  function RunSpecial(cmd: SimpleCommand, args: seq<string>, j: Jumps, s: State, host: Host, fuel: nat): (r: Ran)
    requires args != []
    ensures InRange(r.outcome, j)
    ensures forall rules: Rules :: PlainCall(cmd, args, rules, host) && PlainState(s, rules, host) && PlainHost(rules, host) ==>
              Kept(s, r, j, rules, host)
    decreases 2 * fuel + 1, cmd, 3, 0
  {
    var v := Assign(cmd.assignments, [], s.params, s.mem, host);
    var s0 := s.(mem := v.mem);
    if !v.verdict.Done? then Ran(Stopped(v.verdict), s0)
    else if args[0] == "exec" then
      var a := ApplyRedirects(cmd.redirects, s0, [], false, host);
      assert a.s.functions == s.functions by { RedirectsKeepFunctions(cmd.redirects, s0, [], false, host); }
      var s1 := a.s.(execUsed := true);
      if !a.verdict.Done? then Ran(Stopped(a.verdict), s1)
      else if |args| < 2 then Ran(Status(0), s1)
      else Ran(Exit(host.replace(args, s1.mem)), s1)
    else
      RunRedirected(cmd, args, j, s0, host, fuel)
  }

  /** A utility that is not special and may be called is none of the names. */
  lemma OrdinaryUtility(args: seq<string>)
    requires args != []
    ensures args[0] !in SPECIAL ==> forall rules: Rules :: MayCall(args, rules) ==> args[0] !in rules.names
  {
    assert JUMPS <= SPECIAL;
  }

  /** A built-in utility or a function under its redirections. */
  function RunRedirected(cmd: SimpleCommand, args: seq<string>, j: Jumps, s: State, host: Host, fuel: nat): (r: Ran)
    requires args != []
    ensures InRange(r.outcome, j)
    ensures forall rules: Rules :: PlainCall(cmd, args, rules, host) && PlainState(s, rules, host) && PlainHost(rules, host) ==>
              Kept(s, r, j, rules, host)
    decreases 2 * fuel + 1, cmd, 1, 0
  {
    var a := ApplyRedirects(cmd.redirects, s, [], true, host);
    RestoredKeeps(cmd.redirects, s, host);
    if !a.verdict.Done? then Ran(Stopped(a.verdict), Restored(a.s, a.saved))
    else
      OrdinaryUtility(args);
      var r :=
        if args[0] in SPECIAL then CallSpecial(args, j, a.s, host, fuel)
        else if args[0] in a.s.functions then CallFunction(a.s.functions[args[0]], args[1..], j, a.s, host, fuel)
        else CallBuiltin(args, j, a.s, host, fuel);
      Ran(r.outcome, Restored(r.s, a.saved))
  }

  function CallSpecial(args: seq<string>, j: Jumps, s: State, host: Host, fuel: nat): (r: Ran)
    requires args != []
    ensures InRange(r.outcome, j)
    ensures forall rules: Rules :: MayCall(args, rules) && PlainState(s, rules, host) && PlainHost(rules, host) ==>
              Kept(s, r, j, rules, host)
    decreases 2 * fuel, 1
  {
    if args[0] == "break" then Ran(Break(Raise(Levels(args), j)), s)
    else if args[0] == "continue" then Ran(Continue(Raise(Levels(args), j)), s)
    else if args[0] == "return" then Ran(Return(IntArg(args, s.mem.last, 0)), s)
    else if args[0] == "exit" then
      var n := IntArg(args, s.mem.last, 2);
      Ran(Exit(n), s.(mem := s.mem.(last := n)))
    else CallBuiltin(args, j, s, host, fuel)
  }

  function CallBuiltin(args: seq<string>, j: Jumps, s: State, host: Host, fuel: nat): (r: Ran)
    requires args != []
    ensures InRange(r.outcome, j)
    ensures forall rules: Rules :: args[0] !in rules.names && PlainState(s, rules, host) && PlainHost(rules, host) ==>
              Kept(s, r, j, rules, host)
    decreases 2 * fuel, 0
  {
    match host.builtin(args, s.params, s.mem)
    case Finished(status, params, erased, mem) =>
      Ran(Status(status), s.(params := params, functions := s.functions - erased, mem := mem))
    case Throws(fault, mem) => Ran(Error(fault), s.(mem := mem))
    case Sources(list, override, mem) =>
      if fuel == 0 then Ran(OutOfFuel, s.(mem := mem))
      else
        var r := RunList(list, j, s.(params := if override.Some? then override.value else s.params, mem := mem), host, fuel - 1);
        Ran(r.outcome, if override.Some? then r.s.(params := s.params) else r.s)
  }

  /** The caller's positional parameters are back however the body ended. */
  function CallFunction(body: CompoundCommand, args: seq<string>, j: Jumps, s: State, host: Host, fuel: nat): (r: Ran)
    ensures InRange(r.outcome, j)
    ensures forall rules: Rules ::
              PlainCompound(body, Outside(rules), host) && PlainState(s, rules, host) && PlainHost(rules, host) ==>
              Kept(s, r, j, rules, host)
    ensures r.s.params == s.params && !r.outcome.Return?
    decreases 2 * fuel, 0
  {
    if fuel == 0 then Ran(OutOfFuel, s)
    else
      var r := RunCompound(body, EnterFunction(j), s.(params := args), host, fuel - 1);
      Ran(LeaveFunction(r.outcome, j), r.s.(params := s.params))
  }

  /** Other commands: prefix assignments are restored after a status, and stay
      when a signal unwinds. */
  function RunRegular(cmd: SimpleCommand, args: seq<string>, j: Jumps, s: State, host: Host, fuel: nat): (r: Ran)
    requires args != [] && args[0] !in SPECIAL
    ensures InRange(r.outcome, j)
    ensures forall rules: Rules :: PlainCall(cmd, args, rules, host) && PlainState(s, rules, host) && PlainHost(rules, host) ==>
              Kept(s, r, j, rules, host)
    decreases 2 * fuel + 1, cmd, 3, 0
  {
    var v := Assign(cmd.assignments, [], s.params, s.mem, host);
    var s0 := s.(mem := v.mem);
    var r :=
      if !v.verdict.Done? then Ran(Stopped(v.verdict), s0)
      else if args[0] in s0.functions || args[0] in REGULAR then RunRedirected(cmd, args, j, s0, host, fuel)
      else
        var (status, world) := host.external(args, cmd, s0);
        Ran(Status(status), s0.(mem := s0.mem.(world := world)));
    if r.outcome.Status? then
      var (ok, mem) := RestoreVars(v.saved, r.s.mem);
      Ran(if ok then r.outcome else Error(ReadonlySet), r.s.(mem := mem))
    else r
  }

  // ------------------------------------------------------- compound commands

  function RunCompound(cc: CompoundCommand, j: Jumps, s: State, host: Host, fuel: nat): (r: Ran)
    ensures InRange(r.outcome, j)
    ensures forall rules: Rules :: PlainCompound(cc, rules, host) && PlainState(s, rules, host) && PlainHost(rules, host) ==>
              Kept(s, r, j, rules, host)
    decreases 2 * fuel + 1, cc, 1, 0
  {
    match cc
    case BraceGroup(list) => RunList(list, j, s, host, fuel)
    case Subshell(list) =>
      var (status, world) := host.subshell(list, s);
      Ran(Status(status), s.(mem := s.mem.(world := world)))
    case ForClause(_, words, _) => (
      if words.None? then RunFor(cc, s.params, 0, j, s, host, fuel)
      else
        match ExpandWords(words.value, [], s.params, s.mem, host)
        case Thrown(fault, mem) => Ran(Error(fault), s.(mem := mem))
        case Expanded(items, mem) => RunFor(cc, items, 0, j, s.(mem := mem), host, fuel))
    case CaseClause(subject, items) => (
      match host.text(subject, s.params, s.mem)
      case Thrown(fault, mem) => Ran(Error(fault), s.(mem := mem))
      case Expanded(text, mem) => RunCase(items, text, j, s.(mem := mem), host, fuel))
    case IfClause(branches, e) =>
      var t := RunBranches(branches, j, s, host, fuel);
      if t.Taken? then t.ran else RunElse(e, j, t.s, host, fuel)
    case _ => RunLoop(cc, 0, j, s, host, fuel)
  }

  /** A branch that is tried: passed over, or taken (or its test unwound). */
  datatype Tried = PassedOver(s: State) | Taken(ran: Ran)

  ghost predicate KeptTried(s: State, t: Tried, j: Jumps, rules: Rules, host: Host) {
    match t
    case PassedOver(s1) => KeptState(s, s1, rules, host)
    case Taken(ran) => Kept(s, ran, j, rules, host)
  }

  function StateOf(t: Tried): State {
    match t
    case PassedOver(s) => s
    case Taken(ran) => ran.s
  }

  function RunBranches(branches: seq<Branch>, j: Jumps, s: State, host: Host, fuel: nat): (t: Tried)
    ensures t.Taken? ==> InRange(t.ran.outcome, j)
    ensures forall rules: Rules ::
              (forall i :: 0 <= i < |branches| ==> PlainBranch(branches[i], rules, host)) ==>
                PlainState(s, rules, host) && PlainHost(rules, host) ==> KeptTried(s, t, j, rules, host)
    decreases 2 * fuel + 1, branches, 0, 0
  {
    if branches == [] then PassedOver(s)
    else
      var t := RunBranch(branches[0], j, s, host, fuel);
      if t.Taken? then t else RunBranches(branches[1..], j, t.s, host, fuel)
  }

  function RunBranch(b: Branch, j: Jumps, s: State, host: Host, fuel: nat): (t: Tried)
    ensures t.Taken? ==> InRange(t.ran.outcome, j)
    ensures forall rules: Rules :: PlainBranch(b, rules, host) && PlainState(s, rules, host) && PlainHost(rules, host) ==>
              KeptTried(s, t, j, rules, host)
    decreases 2 * fuel + 1, b, 0, 0
  {
    var c := RunList(b.cond, j, s, host, fuel);
    if !c.outcome.Status? then Taken(c)
    else if c.outcome.n == 0 then Taken(RunList(b.body, j, c.s, host, fuel))
    else PassedOver(c.s)
  }

  function RunElse(e: Option<List>, j: Jumps, s: State, host: Host, fuel: nat): (r: Ran)
    ensures InRange(r.outcome, j)
    ensures forall rules: Rules :: PlainElse(e, rules, host) && PlainState(s, rules, host) && PlainHost(rules, host) ==>
              Kept(s, r, j, rules, host)
    decreases 2 * fuel + 1, e, 0, 0
  {
    if e.Some? then RunList(e.value, j, s, host, fuel) else Ran(Status(0), s)
  }

  /** while and until. The condition runs outside the loop, as far as jumps go. */
  function RunLoop(cc: CompoundCommand, status: int, j: Jumps, s: State, host: Host, fuel: nat): (r: Ran)
    requires cc.WhileClause? || cc.UntilClause?
    ensures InRange(r.outcome, j)
    ensures forall rules: Rules :: PlainCompound(cc, rules, host) && PlainState(s, rules, host) && PlainHost(rules, host) ==>
              Kept(s, r, j, rules, host)
    decreases 2 * fuel + 1, cc, 0, 0
  {
    var c := RunList(cc.cond, j, s, host, fuel);
    if !c.outcome.Status? then c
    else if (c.outcome.n == 0) == cc.UntilClause? then Ran(Status(status), c.s)
    else
      var b := RunList(cc.list, EnterLoop(j), c.s, host, fuel);
      CaughtMayEnd(b.outcome, status, j);
      match Catch(b.outcome, status, j)
      case Stop(n) => Ran(Status(n), b.s)
      case Out(o) => Ran(o, b.s)
      case Again(n) => if fuel == 0 then Ran(OutOfFuel, b.s) else RunLoop(cc, n, j, b.s, host, fuel - 1)
  }

  function RunFor(cc: CompoundCommand, items: seq<string>, status: int, j: Jumps, s: State, host: Host, fuel: nat): (r: Ran)
    requires cc.ForClause?
    ensures InRange(r.outcome, j)
    ensures forall rules: Rules ::
              PlainList(cc.list, Inside(rules), host) && PlainState(s, rules, host) && PlainHost(rules, host) ==>
              Kept(s, r, j, rules, host)
    decreases 2 * fuel + 1, cc, 0, |items|
  {
    if items == [] then Ran(Status(status), s)
    else
      match SetVar(s.mem, cc.varName, items[0])
      case None => Ran(Status(1), s)
      case Some(mem) =>
        var b := RunList(cc.list, EnterLoop(j), s.(mem := mem), host, fuel);
        CaughtMayEnd(b.outcome, status, j);
        match Catch(b.outcome, status, j)
        case Stop(n) => Ran(Status(n), b.s)
        case Out(o) => Ran(o, b.s)
        case Again(n) => RunFor(cc, items[1..], n, j, b.s, host, fuel)
  }

  function RunCase(items: seq<CaseItem>, subject: string, j: Jumps, s: State, host: Host, fuel: nat): (r: Ran)
    ensures InRange(r.outcome, j)
    ensures forall rules: Rules ::
              (forall i :: 0 <= i < |items| ==> PlainCaseItem(items[i], rules, host)) ==>
                PlainState(s, rules, host) && PlainHost(rules, host) ==> Kept(s, r, j, rules, host)
    decreases 2 * fuel + 1, items, 0, 0
  {
    if items == [] then Ran(Status(0), s)
    else
      match MatchAny(items[0].patterns, subject, s.params, s.mem, host)
      case Thrown(fault, mem) => Ran(Error(fault), s.(mem := mem))
      case Expanded(matched, mem) =>
        if matched then RunCaseItem(items[0], j, s.(mem := mem), host, fuel)
        else RunCase(items[1..], subject, j, s.(mem := mem), host, fuel)
  }

  function RunCaseItem(item: CaseItem, j: Jumps, s: State, host: Host, fuel: nat): (r: Ran)
    ensures InRange(r.outcome, j)
    ensures forall rules: Rules :: PlainCaseItem(item, rules, host) && PlainState(s, rules, host) && PlainHost(rules, host) ==>
              Kept(s, r, j, rules, host)
    decreases 2 * fuel + 1, item, 0, 0
  {
    RunList(item.body, j, s, host, fuel)
  }

  function MatchAny(patterns: seq<Word>, subject: string, params: seq<string>, mem: Memory, host: Host)
    : (r: Expansion<bool>)
    ensures CalmPatterns(patterns, host) ==> IsCalm(r)
    decreases |patterns|
  {
    if patterns == [] then Expanded(false, mem)
    else
      match host.matches(patterns[0], subject, params, mem)
      case Thrown(fault, mem1) => Thrown(fault, mem1)
      case Expanded(true, mem1) => Expanded(true, mem1)
      case Expanded(false, mem1) => MatchAny(patterns[1..], subject, params, mem1, host)
  }
}
