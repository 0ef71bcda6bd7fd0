/** What the rules for plain programs come to in a shell whose eval, `.`, fc and
    command can bring in any program: programs that name none of the four. */
module PlainPrograms {
  import opened Prelude
  import opened Tokens
  import opened Ast
  import opened Descriptors
  import opened ExecSpec
  import opened TinyPrograms

  /** The utilities that run a program in the current context, or one that does. */
  const SOURCES: set<string> := {"eval", ".", "fc", "command"}

  ghost predicate OnlyTheseSource(host: Host) {
    forall args, params, mem :: args != [] && args[0] !in SOURCES ==> !host.builtin(args, params, mem).Sources?
  }

  /** Utilities that may be named throw nothing but what a read-only variable throws. */
  ghost predicate OthersAreCalm(rules: Rules, host: Host) {
    forall args, params, mem :: args != [] && args[0] !in rules.names ==> IsCalmEffect(host.builtin(args, params, mem))
  }

  predicate IsCalmEffect(e: Effect) {
    e.Throws? ==> e.fault == ReadonlySet
  }

  lemma PlainHostIfNamed(rules: Rules, host: Host)
    requires OnlyTheseSource(host) && SOURCES <= rules.names && (rules.calm ==> OthersAreCalm(rules, host))
    ensures PlainHost(rules, host)
  {
    hide PlainList, SOURCES;
    forall args, params, mem | args != [] && args[0] !in rules.names
      ensures PlainEffect(host.builtin(args, params, mem), rules, host)
    {
      assert args[0] !in SOURCES;
      assert !host.builtin(args, params, mem).Sources?;
      assert rules.calm ==> IsCalmEffect(host.builtin(args, params, mem));
    }
  }

  /** Every plain list that does not name the four leaves the descriptors as it found
      them, however it ends, unless exec ran. */
  lemma PlainListKeepsDescriptors(list: List, rules: Rules, j: Jumps, s: State, host: Host, fuel: nat)
    requires OnlyTheseSource(host) && SOURCES <= rules.names && rules.std.Some? && (rules.calm ==> OthersAreCalm(rules, host))
    requires PlainList(list, rules, host) && PlainState(s, rules, host)
    ensures var r := RunList(list, j, s, host, fuel); !r.s.execUsed ==> r.s.fds == s.fds
  {
    hide RunList, PlainList, PlainHost, OnlyTheseSource, OthersAreCalm;
    PlainHostIfNamed(rules, host);
  }

  /** And if it names no jump, exit or exec either and its words throw nothing, it
      ends with a status, or by the error of a read-only variable (or a return). */
  lemma QuietListEnds(list: List, rules: Rules, j: Jumps, s: State, host: Host, fuel: nat)
    requires OnlyTheseSource(host) && SOURCES + JUMPS + {"exit", "exec"} <= rules.names && !rules.inLoop
    requires rules.calm && OthersAreCalm(rules, host)
    requires PlainList(list, rules, host) && PlainState(s, rules, host)
    ensures var o := RunList(list, j, s, host, fuel).outcome;
            o.Status? || o == Error(ReadonlySet) || o == OutOfFuel || (o.Return? && "return" !in rules.names)
  {
    hide RunList, PlainList, PlainHost, PlainState, OnlyTheseSource, OthersAreCalm;
    assert SOURCES <= rules.names;
    PlainHostIfNamed(rules, host);
    assert Kept(s, RunList(list, j, s, host, fuel), j, rules, host);
  }

  // ------------------------------------------------- a shell with any eval

  /** The four run the program that parse makes of their arguments, whatever it is. */
  function Evaluates(parse: seq<string> -> List): Host {
    PlainFiles().(builtin := (args, params, mem) =>
      if args != [] && args[0] in SOURCES then Sources(parse(args), None, mem) else Finished(0, params, {}, mem))
  }

  lemma AnyEvalWillDo(parse: seq<string> -> List)
    ensures OnlyTheseSource(Evaluates(parse))
  {
  }

  function Twice(fd: nat): List {
    Only(Simple(SimpleCommand([], [[Literal(":")]], [To(fd, Great, "a"), To(fd, Great, "b")])))
  }

  /** eval with n words: `: n>a n>b`. */
  function TwiceEach(): Host {
    Evaluates(args => Twice(|args|))
  }

  /** That eval may be named nowhere cannot be dropped: in this shell it brings in, for
      any descriptors there are to be redirected again, a program that is not plain. */
  lemma SomeEvalIsNotPlain(rules: Rules)
    requires rules.std.Some? && "eval" !in rules.names
    ensures !PlainHost(rules, TwiceEach())
  {
    hide PlainHost;
    var host := TwiceEach();
    var n := Above(rules.std.value);
    var args := seq(n, _ => "eval");
    var mem := Memory(map[], 0, 0);
    assert host.builtin(args, [], mem) == Sources(Twice(n), None, mem);
    TwiceIsNotPlain(n, Outside(rules), host);
    EffectsArePlain(rules, host, args, mem);
  }

  lemma EffectsArePlain(rules: Rules, host: Host, args: seq<string>, mem: Memory)
    ensures PlainHost(rules, host) && args != [] && args[0] !in rules.names ==>
              PlainEffect(host.builtin(args, [], mem), rules, host)
  {
  }

  lemma TwiceIsNotPlain(n: nat, rules: Rules, host: Host)
    requires rules.std.Some? && n !in rules.std.value
    ensures !PlainList(Twice(n), rules, host)
  {
    var item := Twice(n).items[0];
    var c := item.andOr.first.commands[0];
    var rs := c.cmd.redirects;
    assert TargetFd(rs[0]) == n == TargetFd(rs[1]);
    assert !PlainRedirects(rs, rules.std.value, host);
    assert !PlainCommand(c, rules, host);
    assert !PlainPipeline(item.andOr.first, rules, host);
    assert !PlainAndOr(item.andOr, rules, host);
    assert !PlainItem(item, rules, host);
  }

  lemma {:induction false} Above(s: set<nat>) returns (n: nat)
    ensures n > 0 && forall k :: k in s ==> k < n
    decreases |s|
  {
    if s == {} {
      n := 1;
    } else {
      var m :| m in s;
      var above := Above(s - {m});
      n := if m < above then above else m + 1;
      assert forall k :: k in s ==> k == m || k in s - {m};
    }
  }
}
