/** Jumps out of the condition of a while or until loop. The standard counts the
    condition as part of the loop (the description of break in section 2.14 of
    POSIX.1-2017 speaks of the enclosing loop); the program catches only what its
    body raises. */
module LoopConditions {
  import opened Prelude
  import opened Tokens
  import opened Ast
  import opened Descriptors
  import opened ExecSpec
  import opened TinyPrograms

  predicate IsJump(o: Outcome) {
    o.Break? || o.Continue?
  }

  /** The loop as the standard has it: a jump from the condition is caught just as
      one from the body. */
  function InLoop(cc: CompoundCommand, status: int, s: State, host: Host, fuel: nat): Ran
    requires cc.WhileClause? || cc.UntilClause?
    decreases fuel, 1
  {
    var c := RunList(cc.cond, Counted, s, host, fuel);
    if c.outcome.Status? && (c.outcome.n == 0) == cc.UntilClause? then Ran(Status(status), c.s)
    else if c.outcome.Status? then
      var b := RunList(cc.list, Counted, c.s, host, fuel);
      GoOn(cc, Catch(b.outcome, status, Counted), b.s, host, fuel)
    else if IsJump(c.outcome) then GoOn(cc, Catch(c.outcome, status, Counted), c.s, host, fuel)
    else c
  }

  function GoOn(cc: CompoundCommand, caught: Caught, s: State, host: Host, fuel: nat): Ran
    requires cc.WhileClause? || cc.UntilClause?
    decreases fuel, 0
  {
    match caught
    case Stop(n) => Ran(Status(n), s)
    case Out(o) => Ran(o, s)
    case Again(n) => if fuel == 0 then Ran(OutOfFuel, s) else InLoop(cc, n, s, host, fuel - 1)
  }

  /** The first time that a condition of this loop jumps: the jump, and where the
      loop is then. */
  datatype Jump = Jump(outcome: Outcome, status: int, s: State, fuel: nat)

  function JumpOfCondition(cc: CompoundCommand, status: int, s: State, host: Host, fuel: nat): (r: Option<Jump>)
    requires cc.WhileClause? || cc.UntilClause?
    ensures r.Some? ==> IsJump(r.value.outcome) && InRange(r.value.outcome, Counted)
    decreases fuel
  {
    var c := RunList(cc.cond, Counted, s, host, fuel);
    if IsJump(c.outcome) then Some(Jump(c.outcome, status, c.s, fuel))
    else if !c.outcome.Status? || (c.outcome.n == 0) == cc.UntilClause? then None
    else
      var b := RunList(cc.list, Counted, c.s, host, fuel);
      match Catch(b.outcome, status, Counted)
      case Again(n) => if fuel == 0 then None else JumpOfCondition(cc, n, b.s, host, fuel - 1)
      case _ => None
  }

  /** What the loop does once its condition has jumped, as the standard has it. */
  function Resumed(cc: CompoundCommand, at: Jump, host: Host): Ran
    requires cc.WhileClause? || cc.UntilClause?
  {
    GoOn(cc, Catch(at.outcome, at.status, Counted), at.s, host, at.fuel)
  }

  lemma {:induction false} FollowsCondition(cc: CompoundCommand, status: int, s: State, host: Host, fuel: nat)
    requires cc.WhileClause? || cc.UntilClause?
    ensures var at := JumpOfCondition(cc, status, s, host, fuel);
            var run, promised := RunLoop(cc, status, Counted, s, host, fuel), InLoop(cc, status, s, host, fuel);
            && (at.None? ==> run == promised)
            && (at.Some? ==> run == Ran(at.value.outcome, at.value.s) && promised == Resumed(cc, at.value, host))
    decreases fuel
  {
    hide RunList, Catch;
    var c := RunList(cc.cond, Counted, s, host, fuel);
    if c.outcome.Status? && (c.outcome.n == 0) != cc.UntilClause? {
      var b := RunList(cc.list, Counted, c.s, host, fuel);
      var caught := Catch(b.outcome, status, Counted);
      if caught.Again? && fuel > 0 {
        FollowsCondition(cc, caught.status, b.s, host, fuel - 1);
      }
    }
  }

  /** For every loop, state and host: the loop does what the standard promises if
      and only if no condition of it jumps, or the jump is `continue` for this very
      loop and the loop, gone on with, would end by the same jump in that state. */
  lemma ConditionJumpsIff(cc: CompoundCommand, status: int, s: State, host: Host, fuel: nat)
    requires cc.WhileClause? || cc.UntilClause?
    ensures var at := JumpOfCondition(cc, status, s, host, fuel);
            var run, promised := RunLoop(cc, status, Counted, s, host, fuel), InLoop(cc, status, s, host, fuel);
            && (at.Some? ==> run.outcome == at.value.outcome)
            && (run == promised
                <==> at.None? || (at.value.outcome == Continue(1) && Resumed(cc, at.value, host) == Ran(Continue(1), at.value.s)))
  {
    hide RunLoop, InLoop, JumpOfCondition;
    FollowsCondition(cc, status, s, host, fuel);
  }

  lemma {:induction false} NoJumpOfCondition(cc: CompoundCommand, rules: Rules, status: int, s: State, host: Host, fuel: nat)
    requires cc.WhileClause? || cc.UntilClause?
    requires JUMPS <= rules.names && !rules.inLoop && PlainCompound(cc, rules, host)
    requires PlainState(s, rules, host) && PlainHost(rules, host)
    ensures JumpOfCondition(cc, status, s, host, fuel).None?
    decreases fuel
  {
    hide RunList, PlainList, PlainHost;
    var c := RunList(cc.cond, Counted, s, host, fuel);
    assert Kept(s, c, Counted, rules, host);
    assert "break" in JUMPS && "continue" in JUMPS;
    if c.outcome.Status? && (c.outcome.n == 0) != cc.UntilClause? {
      var b := RunList(cc.list, Counted, c.s, host, fuel);
      SameOutside(c.s, rules, host);
      assert PlainState(c.s, Inside(rules), host) && PlainHost(Inside(rules), host);
      assert Kept(c.s, b, Counted, Inside(rules), host);
      SameOutside(b.s, rules, host);
      var caught := Catch(b.outcome, status, Counted);
      if caught.Again? && fuel > 0 {
        NoJumpOfCondition(cc, rules, caught.status, b.s, host, fuel - 1);
      }
    }
  }

  lemma SameOutside(s: State, rules: Rules, host: Host)
    ensures PlainState(s, Inside(rules), host) <==> PlainState(s, rules, host)
    ensures PlainHost(Inside(rules), host) <==> PlainHost(rules, host)
  {
    hide PlainCompound, PlainList;
    assert Outside(Inside(rules)) == Outside(rules);
  }

  /** What can be checked before the loop is run: the condition and the functions name
      break and continue nowhere, or only bare and in loops of their own, and so does
      the body but for its own bare jumps. A utility that can bring in any program, such
      as eval, belongs in rules.names, so that nothing names it; redirections do not
      matter (rules.std may be None). */
  lemma QuietConditionIsInLoop(cc: CompoundCommand, rules: Rules, status: int, s: State, host: Host, fuel: nat)
    requires cc.WhileClause? || cc.UntilClause?
    requires JUMPS <= rules.names && !rules.inLoop && PlainCompound(cc, rules, host)
    requires PlainState(s, rules, host) && PlainHost(rules, host)
    ensures RunLoop(cc, status, Counted, s, host, fuel) == InLoop(cc, status, s, host, fuel)
  {
    hide RunLoop, InLoop, PlainCompound, PlainState, PlainHost;
    NoJumpOfCondition(cc, rules, status, s, host, fuel);
    FollowsCondition(cc, status, s, host, fuel);
  }

  /** `while break; do ...; done`, whatever the body: the jump leaves the loop and
      goes on to the one around it, where the standard has the loop end. */
  lemma BreakInCondition(body: List, s: State, fuel: nat)
    ensures var cc := WhileClause(Just("break"), body);
            && RunLoop(cc, 0, Counted, s, PlainFiles(), fuel) == Ran(Break(1), s)
            && InLoop(cc, 0, s, PlainFiles(), fuel) == Ran(Status(0), s)
  {
    hide RunList;
    BreakList(Counted, s, fuel);
  }
}
