/** Making a stop visible through a chain of forked wrappers: every wrapper waits
    for the process below it and, when that one stops, stops itself. A stop signal
    reaches the leaf alone, or the whole group, wrappers included. */
module StopMirror {
  import opened Prelude
  import opened JobSpec
  import opened JobWaiting

  /** Busy is running, or waiting for the process below. A wrapper that has seen a
      stop and is itself stopped by the group's signal before it raises one still
      owes that one (due). */
  datatype Phase = Busy | SawStop | Halted(due: bool) | Ended(end: Change) | Gone(end: Change)

  /** told: the stop has been reported to the parent. */
  datatype Process = Process(phase: Phase, told: bool)

  /** procs[0] is the leader, a child of the shell, and the last one the leaf.
      recorded: the shell has the job in its table as stopped. */
  datatype Chain = Chain(procs: seq<Process>, recorded: bool, final: Option<int>)

  datatype Action =
    | LeafStops
    | GroupStops
    | LeafEnds(end: Change)
    | See(i: nat)
    | Raise(i: nat)
    | Reap(i: nat)
    | ShellSees
    | ShellReaps
    | Resume

  predicate IsWrapper(c: Chain, i: nat) {
    i + 1 < |c.procs|
  }

  predicate IsEnd(e: Change) {
    (e.Exited? && 0 <= e.code < 256) || (e.Signaled? && 1 <= e.signal < 128)
  }

  /** What a wrapper exits with when the process below it ended so. */
  function PassedOn(e: Change): Change {
    Exited(StatusFromWait(e) % 256)
  }

  function AfterContinue(p: Process): Process {
    if p.phase.Halted? then Process(if p.phase.due then SawStop else Busy, false) else p
  }

  function AfterStop(p: Process): Process {
    if p.phase.Busy? || p.phase.SawStop? then Process(Halted(p.phase.SawStop?), false) else p
  }

  /** The terminal's stop signal, to the whole group at once. */
  function StopAll(procs: seq<Process>): (r: seq<Process>)
    ensures |r| == |procs| && forall i :: 0 <= i < |r| ==> r[i] == AfterStop(procs[i])
  {
    seq(|procs|, i requires 0 <= i < |procs| => AfterStop(procs[i]))
  }

  /** SIGCONT, to the whole group at once. */
  function ContinueAll(procs: seq<Process>): (r: seq<Process>)
    ensures |r| == |procs| && forall i :: 0 <= i < |r| ==> r[i] == AfterContinue(procs[i])
  {
    seq(|procs|, i requires 0 <= i < |procs| => AfterContinue(procs[i]))
  }

  /** The next state, or None when the action is not possible. */
  function Step(c: Chain, a: Action): Option<Chain>
    requires c.procs != []
  {
    var leaf := |c.procs| - 1;
    match a
    case LeafStops =>
      if c.procs[leaf].phase.Busy? then Some(c.(procs := c.procs[leaf := Process(Halted(false), false)])) else None
    case GroupStops => Some(c.(procs := StopAll(c.procs)))
    case LeafEnds(end) =>
      if IsEnd(end) && (c.procs[leaf].phase.Busy? || (c.procs[leaf].phase.Halted? && end.Signaled?))
      then Some(c.(procs := c.procs[leaf := Process(Ended(end), false)])) else None
    case See(i) =>
      if IsWrapper(c, i) && c.procs[i].phase.Busy? && c.procs[i + 1].phase.Halted? && !c.procs[i + 1].told
      then Some(c.(procs := c.procs[i := Process(SawStop, false)][i + 1 := c.procs[i + 1].(told := true)])) else None
    case Raise(i) =>
      if IsWrapper(c, i) && c.procs[i].phase.SawStop?
      then Some(c.(procs := c.procs[i := Process(Halted(false), false)])) else None
    case Reap(i) =>
      if IsWrapper(c, i) && c.procs[i].phase.Busy? && c.procs[i + 1].phase.Ended? then
        var end := c.procs[i + 1].phase.end;
        Some(c.(procs := c.procs[i := Process(Ended(PassedOn(end)), false)][i + 1 := Process(Gone(end), false)]))
      else None
    case ShellSees =>
      if c.procs[0].phase.Halted? && !c.procs[0].told
      then Some(c.(procs := c.procs[0 := c.procs[0].(told := true)], recorded := true)) else None
    case ShellReaps =>
      if c.procs[0].phase.Ended? then
        var end := c.procs[0].phase.end;
        Some(Chain(c.procs[0 := Process(Gone(end), false)], false, Some(StatusFromWait(end))))
      else None
    case Resume =>
      if c.recorded then Some(c.(procs := ContinueAll(c.procs), recorded := false)) else None
  }

  function Start(wrappers: nat): Chain {
    Chain(seq(wrappers + 1, _ => Process(Busy, false)), false, None)
  }

  function Run(c: Chain, actions: seq<Action>): Option<Chain>
    requires c.procs != []
    decreases |actions|
  {
    if actions == [] then Some(c)
    else
      match Step(c, actions[0])
      case None => None
      case Some(d) => if d.procs == [] then None else Run(d, actions[1..])
  }

  // -------------------------------------------------------------- invariant

  /** One wrapper and the process below it. */
  predicate Link(p: Process, below: Process, belowIsLeaf: bool) {
    match p.phase
    case Busy => !below.phase.Gone? && (below.phase.Halted? ==> !below.told)
    case SawStop => (below.phase.Halted? && below.told) || (belowIsLeaf && below.phase.Ended?)
    case Halted(due) => !due && (below.phase.Halted? || below.phase.Ended?)
    case Ended(e) => below.phase.Gone? && e == PassedOn(below.phase.end)
    case Gone(e) => below.phase.Gone? && e == PassedOn(below.phase.end)
  }

  predicate Links(c: Chain) {
    forall i :: 0 <= i < |c.procs| - 1 ==> Link(c.procs[i], c.procs[i + 1], i + 2 == |c.procs|)
  }

  /** What holds at the leaf and at the leader. */
  predicate Edges(c: Chain)
    requires c.procs != []
  {
    && (var leaf := c.procs[|c.procs| - 1].phase;
        !leaf.SawStop? && leaf != Halted(true) && (leaf.Ended? || leaf.Gone? ==> IsEnd(leaf.end)))
    && (var leader := c.procs[0];
        && (leader.phase.Halted? ==> leader.told == c.recorded)
        && (c.recorded ==> leader.phase.Halted? || (|c.procs| == 1 && leader.phase.Ended?))
        && (c.final.Some? <==> leader.phase.Gone?)
        && (c.final.Some? ==> c.final.value == StatusFromWait(leader.phase.end)))
  }

  predicate Inv(c: Chain) {
    c.procs != [] && Links(c) && Edges(c)
  }

  /** No stop signal to the group comes between a wrapper's seeing a stop and its
      raising one. */
  predicate Calm(c: Chain, actions: seq<Action>)
    requires c.procs != []
    decreases |actions|
  {
    actions == [] ||
      var d := Step(c, actions[0]);
      && (actions[0].GroupStops? ==> NoneSawStop(c))
      && (d.Some? && d.value.procs != [] ==> Calm(d.value, actions[1..]))
  }

  predicate NoneSawStop(c: Chain) {
    forall i :: 0 <= i < |c.procs| ==> !c.procs[i].phase.SawStop?
  }

  lemma StartInv(wrappers: nat)
    ensures Inv(Start(wrappers))
  {
  }

  lemma ResumeLinks(c: Chain)
    requires Inv(c) && c.recorded
    ensures Links(Step(c, Resume).value)
  {
    var d := Step(c, Resume).value;
    forall i | 0 <= i < |d.procs| - 1 ensures Link(d.procs[i], d.procs[i + 1], i + 2 == |d.procs|) {
      HaltedBelow(c, i);
      HaltedBelow(c, i + 1);
    }
  }

  lemma GroupStopLinks(c: Chain)
    requires Inv(c) && NoneSawStop(c)
    ensures Links(Step(c, GroupStops).value)
  {
    var d := Step(c, GroupStops).value;
    forall i | 0 <= i < |d.procs| - 1 ensures Link(d.procs[i], d.procs[i + 1], i + 2 == |d.procs|) {
      assert Link(c.procs[i], c.procs[i + 1], i + 2 == |c.procs|);
    }
  }

  /** The links of a chain in which only process n and the one below have changed. */
  lemma LocalLinks(c: Chain, d: Chain, n: nat)
    requires Links(c) && |d.procs| == |c.procs| && n < |c.procs|
    requires forall i :: 0 <= i < |c.procs| && i != n && i != n + 1 ==> d.procs[i] == c.procs[i]
    requires n > 0 ==> Link(d.procs[n - 1], d.procs[n], n + 1 == |c.procs|)
    requires n + 1 < |c.procs| ==> Link(d.procs[n], d.procs[n + 1], n + 2 == |c.procs|)
    requires n + 2 < |c.procs| ==> Link(d.procs[n + 1], d.procs[n + 2], n + 3 == |c.procs|)
    ensures Links(d)
  {
    hide Link;
    forall i | 0 <= i < |d.procs| - 1 ensures Link(d.procs[i], d.procs[i + 1], i + 2 == |d.procs|) {
      if i + 1 < n || i > n + 1 {
        assert Link(c.procs[i], c.procs[i + 1], i + 2 == |c.procs|);
      }
    }
  }

  lemma LinkAt(c: Chain, i: int)
    requires Links(c)
    ensures 0 <= i < |c.procs| - 1 ==> Link(c.procs[i], c.procs[i + 1], i + 2 == |c.procs|)
  {
  }

  lemma WrapperLinks(c: Chain, a: Action, n: nat)
    requires Inv(c) && Step(c, a).Some? && n + 1 < |c.procs| && (a == See(n) || a == Raise(n) || a == Reap(n))
    ensures Links(Step(c, a).value)
  {
    hide Links;
    LinkAt(c, n - 1);
    LinkAt(c, n);
    LinkAt(c, n + 1);
    LocalLinks(c, Step(c, a).value, n);
  }

  lemma EndLinks(c: Chain, a: Action)
    requires Inv(c) && Step(c, a).Some? && (a.LeafStops? || a.LeafEnds? || a.ShellSees? || a.ShellReaps?)
    ensures Links(Step(c, a).value)
  {
    hide Links;
    var n := if a.ShellSees? || a.ShellReaps? then 0 else |c.procs| - 1;
    LinkAt(c, n - 1);
    LinkAt(c, n);
    LinkAt(c, n + 1);
    LocalLinks(c, Step(c, a).value, n);
  }

  lemma StepEdges(c: Chain, a: Action)
    requires Inv(c) && Step(c, a).Some?
    ensures Step(c, a).value.procs != [] && Edges(Step(c, a).value) && |Step(c, a).value.procs| == |c.procs|
  {
    hide Links;
    LinkAt(c, 0);
  }

  lemma StepInv(c: Chain, a: Action)
    requires Inv(c) && Step(c, a).Some? && (a.GroupStops? ==> NoneSawStop(c))
    ensures Inv(Step(c, a).value) && |Step(c, a).value.procs| == |c.procs|
  {
    hide Links, Edges;
    StepEdges(c, a);
    match a {
      case Resume => ResumeLinks(c);
      case GroupStops => GroupStopLinks(c);
      case See(n) => WrapperLinks(c, a, n);
      case Raise(n) => WrapperLinks(c, a, n);
      case Reap(n) => WrapperLinks(c, a, n);
      case _ => EndLinks(c, a);
    }
  }

  lemma {:induction false} RunInv(c: Chain, actions: seq<Action>)
    requires Inv(c) && Run(c, actions).Some? && Calm(c, actions)
    ensures Inv(Run(c, actions).value) && |Run(c, actions).value.procs| == |c.procs|
    decreases |actions|
  {
    if actions != [] {
      StepInv(c, actions[0]);
      RunInv(Step(c, actions[0]).value, actions[1..]);
    }
  }

  /** When the leader has stopped, every process below it is stopped or has ended:
      nothing below runs. */
  lemma {:induction false} HaltedBelow(c: Chain, i: nat)
    requires Inv(c) && i < |c.procs| && (c.procs[0].phase.Halted? || c.recorded)
    ensures c.procs[i].phase == Halted(false) || c.procs[i].phase.Ended? || c.procs[i].phase.Gone?
    decreases i
  {
    LinkAt(c, i);
    if i > 0 {
      HaltedBelow(c, i - 1);
      assert Link(c.procs[i - 1], c.procs[i], i + 1 == |c.procs|);
    }
  }

  // ------------------------------------------------------------ ends, in any run

  /** A wrapper ends only when the process below has been reaped, and passes its
      end on. */
  predicate EndLink(p: Process, below: Process) {
    if p.phase.Ended? || p.phase.Gone? then below.phase.Gone? && p.phase.end == PassedOn(below.phase.end)
    else !below.phase.Gone?
  }

  /** What holds of ends in every run, calm or not. */
  predicate EndInv(c: Chain) {
    c.procs != [] && (forall i :: 0 <= i < |c.procs| - 1 ==> EndLink(c.procs[i], c.procs[i + 1])) && EndEdges(c)
  }

  predicate EndEdges(c: Chain)
    requires c.procs != []
  {
    && (var leaf := c.procs[|c.procs| - 1].phase; leaf.Ended? || leaf.Gone? ==> IsEnd(leaf.end))
    && (c.final.Some? <==> c.procs[0].phase.Gone?)
    && (c.final.Some? ==> c.final.value == StatusFromWait(c.procs[0].phase.end))
  }

  lemma StepEndLink(c: Chain, a: Action, i: nat)
    requires c.procs != [] && Step(c, a).Some? && i + 1 < |c.procs| && EndLink(c.procs[i], c.procs[i + 1])
    ensures var d := Step(c, a).value; |d.procs| == |c.procs| && EndLink(d.procs[i], d.procs[i + 1])
  {
    hide PassedOn, StatusFromWait;
  }

  lemma StepEndEdges(c: Chain, a: Action)
    requires EndInv(c) && Step(c, a).Some?
    ensures var d := Step(c, a).value; d.procs != [] && |d.procs| == |c.procs| && EndEdges(d)
  {
    hide PassedOn, StatusFromWait;
    assert |c.procs| > 1 ==> EndLink(c.procs[0], c.procs[1]);
  }

  lemma StepEndInv(c: Chain, a: Action)
    requires EndInv(c) && Step(c, a).Some?
    ensures EndInv(Step(c, a).value) && |Step(c, a).value.procs| == |c.procs|
  {
    hide EndLink, EndEdges;
    StepEndEdges(c, a);
    var d := Step(c, a).value;
    forall i | 0 <= i < |d.procs| - 1 ensures EndLink(d.procs[i], d.procs[i + 1]) {
      assert EndLink(c.procs[i], c.procs[i + 1]);
      StepEndLink(c, a, i);
    }
  }

  lemma {:induction false} RunEndInv(c: Chain, actions: seq<Action>)
    requires EndInv(c) && Run(c, actions).Some?
    ensures EndInv(Run(c, actions).value) && |Run(c, actions).value.procs| == |c.procs|
    decreases |actions|
  {
    hide EndInv;
    if actions != [] {
      assert c.procs != [] by { EndInvIs(c); }
      StepEndInv(c, actions[0]);
      EndInvIs(Step(c, actions[0]).value);
      RunEndInv(Step(c, actions[0]).value, actions[1..]);
    }
  }

  lemma EndInvIs(c: Chain)
    requires EndInv(c)
    ensures c.procs != []
  {
  }

  lemma {:induction false} EndedBelow(c: Chain, i: nat)
    requires EndInv(c) && i < |c.procs| && (c.procs[i].phase.Ended? || c.procs[i].phase.Gone?)
    ensures var leaf := c.procs[|c.procs| - 1].phase;
            && (leaf.Ended? || leaf.Gone?)
            && (i + 1 < |c.procs| || c.procs[i].phase.Gone? ==> leaf.Gone?)
            && StatusFromWait(c.procs[i].phase.end) == StatusFromWait(leaf.end)
            && 0 <= StatusFromWait(leaf.end) < 256
    decreases |c.procs| - i
  {
    if i + 1 < |c.procs| {
      assert EndLink(c.procs[i], c.procs[i + 1]);
      EndedBelow(c, i + 1);
    }
  }

  // --------------------------------------------------------------- theorems

  predicate IsWaiting(p: Process) {
    p.phase.Busy? || p.phase.Ended? || p.phase.Gone?
  }

  /** Over every calm run: when the leader has stopped or the shell has recorded the
      job as stopped, nothing of the job runs; and the continue signal that is sent
      only then leaves every process waiting, none about to stop itself again. */
  lemma StopIsWhole(wrappers: nat, actions: seq<Action>)
    requires Run(Start(wrappers), actions).Some? && Calm(Start(wrappers), actions)
    ensures var c := Run(Start(wrappers), actions).value;
            && |c.procs| == wrappers + 1
            && (c.procs[0].phase.Halted? || c.recorded ==>
                  forall i :: 0 <= i <= wrappers ==> !c.procs[i].phase.Busy? && !c.procs[i].phase.SawStop?)
            && (Step(c, Resume).Some? ==>
                  forall i :: 0 <= i <= wrappers ==>
                    && IsWaiting(Step(c, Resume).value.procs[i])
                    && (c.procs[i].phase.Halted? ==> Step(c, Resume).value.procs[i].phase.Busy?))
  {
    StartInv(wrappers);
    RunInv(Start(wrappers), actions);
    var c := Run(Start(wrappers), actions).value;
    if c.procs[0].phase.Halted? || c.recorded {
      forall i | 0 <= i <= wrappers
        ensures c.procs[i].phase == Halted(false) || c.procs[i].phase.Ended? || c.procs[i].phase.Gone?
      {
        HaltedBelow(c, i);
      }
    }
  }

  /** Calm cannot be dropped, in any chain: when the group's signal finds a wrapper
      that has seen a stop, the wrapper can stop itself after the job has been
      resumed, above a process that runs. */
  lemma StrayStop(c: Chain, i: nat)
    requires Inv(c) && i + 1 < |c.procs| && c.procs[i].phase.SawStop? && c.procs[i + 1].phase.Halted?
    ensures var d := Run(c, [GroupStops, ShellSees, Resume, Raise(i)]);
            d.Some? && |d.value.procs| == |c.procs| && d.value.procs[i].phase.Halted? && d.value.procs[i + 1].phase.Busy?
  {
    LeaderIsFree(c, i);
    LinkAt(c, i + 1);
    var c1 := Step(c, GroupStops).value;
    var c2 := Step(c1, ShellSees).value;
    var c3 := Step(c2, Resume).value;
    var c4 := Step(c3, Raise(i)).value;
    assert c1.procs[i].phase == Halted(true) && c3.procs[i].phase == SawStop;
    assert c1.procs[i + 1].phase == Halted(false) && c3.procs[i + 1].phase == Busy;
    var actions := [GroupStops, ShellSees, Resume, Raise(i)];
    assert actions[1..] == [ShellSees, Resume, Raise(i)] && actions[1..][1..] == [Resume, Raise(i)]
        && actions[1..][1..][1..] == [Raise(i)] && actions[1..][1..][1..][1..] == [];
    assert Run(c4, []) == Some(c4);
    assert Run(c3, [Raise(i)]) == Some(c4);
    assert Run(c2, [Resume, Raise(i)]) == Some(c4);
    assert Run(c1, [ShellSees, Resume, Raise(i)]) == Some(c4);
  }

  lemma LeaderIsFree(c: Chain, i: nat)
    requires Inv(c) && i < |c.procs| && c.procs[i].phase.SawStop?
    ensures c.procs[0].phase.Busy? || c.procs[0].phase.SawStop?
  {
    if c.procs[0].phase.Halted? {
      HaltedBelow(c, i);
    } else if c.procs[0].phase.Ended? || c.procs[0].phase.Gone? {
      GoneAfter(c, i);
    }
  }

  lemma {:induction false} GoneAfter(c: Chain, i: nat)
    requires Inv(c) && i < |c.procs| && (c.procs[0].phase.Ended? || c.procs[0].phase.Gone?)
    ensures c.procs[i].phase.Ended? || c.procs[i].phase.Gone?
    decreases i
  {
    if i > 0 {
      GoneAfter(c, i - 1);
      assert Link(c.procs[i - 1], c.procs[i], i + 1 == |c.procs|);
    }
  }

  /** Calm is exact, step by step: when the group is stopped and the job resumed, every
      process waits again or has ended if and only if no wrapper was between seeing
      a stop (of a stopped process, or of one that was then killed) and raising one. */
  lemma ResumedWaitIff(c: Chain)
    requires Inv(c) && Run(c, [GroupStops, ShellSees, Resume]).Some?
    ensures var d := Run(c, [GroupStops, ShellSees, Resume]).value;
            && |d.procs| == |c.procs|
            && ((forall i :: 0 <= i < |d.procs| ==> IsWaiting(d.procs[i])) <==> NoneSawStop(c))
            && (forall i :: 0 <= i < |d.procs| && c.procs[i].phase.SawStop? ==>
                  Step(d, Raise(i)).Some? && Step(d, Raise(i)).value.procs[i].phase.Halted?)
  {
    var c1 := Step(c, GroupStops).value;
    var actions := [GroupStops, ShellSees, Resume];
    assert actions[1..] == [ShellSees, Resume] && actions[1..][1..] == [Resume] && actions[1..][1..][1..] == [];
    assert Run(c, actions) == Run(c1, [ShellSees, Resume]);
    var c2 := Step(c1, ShellSees).value;
    assert Run(c1, [ShellSees, Resume]) == Run(c2, [Resume]);
    var c3 := Step(c2, Resume).value;
    assert Run(c2, [Resume]) == Run(c3, []) == Some(c3);
    forall i | 0 <= i < |c.procs|
      ensures IsWaiting(c3.procs[i]) <==> !c.procs[i].phase.SawStop?
      ensures c.procs[i].phase.SawStop? ==> c3.procs[i].phase.SawStop? && i + 1 < |c.procs|
    {
      LinkAt(c, i);
      assert c2.procs[i].phase == c1.procs[i].phase;
    }
  }

  /** A run that ends so: the leader is stopped while the leaf runs. */
  lemma StopIsNotWhole()
    ensures var run := Run(Start(1), [LeafStops, See(0), GroupStops, ShellSees, Resume, Raise(0)]);
            run.Some? && |run.value.procs| == 2 && run.value.procs[0].phase.Halted? && run.value.procs[1].phase.Busy?
    ensures !Calm(Start(1), [LeafStops, See(0), GroupStops, ShellSees, Resume, Raise(0)])
  {
    var actions := [LeafStops, See(0), GroupStops, ShellSees, Resume, Raise(0)];
    var c := Start(1);
    var c1 := Step(c, LeafStops).value;
    var c2 := Step(c1, See(0)).value;
    StartInv(1);
    StepInv(c, LeafStops);
    StepInv(c1, See(0));
    StrayStop(c2, 0);
    assert actions[1..][0] == See(0) && actions[1..][1..] == [GroupStops, ShellSees, Resume, Raise(0)];
    assert Run(c, actions) == Run(c1, actions[1..]);
    assert Run(c1, actions[1..]) == Run(c2, actions[1..][1..]);
    assert !NoneSawStop(c2);
    assert !Calm(c2, actions[1..][1..]);
    assert !Calm(c1, actions[1..]);
  }

  /** Over every run: the status the shell reports is the leaf's exit code, or
      128 and its signal, however many wrappers it passed through. */
  lemma StatusIsTheLeafs(wrappers: nat, actions: seq<Action>)
    requires Run(Start(wrappers), actions).Some?
    requires Run(Start(wrappers), actions).value.final.Some?
    ensures |Run(Start(wrappers), actions).value.procs| == wrappers + 1
    ensures var c := Run(Start(wrappers), actions).value;
            var leaf := c.procs[wrappers].phase;
            && leaf.Gone?
            && c.final.value == match leaf.end case Exited(code) => code case Signaled(signal) => 128 + signal case _ => 1
  {
    RunEndInv(Start(wrappers), actions);
    EndedBelow(Run(Start(wrappers), actions).value, 0);
  }

  // --------------------------------------------------------------- liveness

  predicate IsInternal(a: Action) {
    a.See? || a.Raise? || a.Reap?
  }

  function Weight(p: Process): nat {
    match p.phase
    case Busy => 2
    case SawStop => 1
    case _ => 0
  }

  /** The steps that the wrappers before n still owe. */
  function Owed(procs: seq<Process>, n: nat): nat
    requires n <= |procs|
  {
    if n == 0 then 0 else Owed(procs, n - 1) + Weight(procs[n - 1])
  }

  lemma {:induction false} OwedBound(procs: seq<Process>, n: nat)
    requires n <= |procs|
    ensures Owed(procs, n) <= 2 * n
    decreases n
  {
    if n > 0 {
      OwedBound(procs, n - 1);
    }
  }

  lemma {:induction false} OwedChange(procs: seq<Process>, more: seq<Process>, i: nat, n: nat)
    requires |more| == |procs| && n <= |procs| && i < |procs|
    requires forall k :: 0 <= k < |procs| && k != i ==> Weight(more[k]) == Weight(procs[k])
    ensures Owed(more, n) - Owed(procs, n) == if i < n then Weight(more[i]) - Weight(procs[i]) else 0
    decreases n
  {
    if n > 0 {
      OwedChange(procs, more, i, n - 1);
    }
  }

  /** While the leaf is stopped a wrapper can always move, until the leader stops. */
  lemma SomeStep(c: Chain)
    requires Inv(c) && c.procs[|c.procs| - 1].phase.Halted? && !c.procs[0].phase.Halted?
    ensures exists a :: IsInternal(a) && Step(c, a).Some?
  {
    var i := |c.procs| - 1;
    while c.procs[i].phase.Halted?
      invariant 0 <= i < |c.procs|
      invariant forall k :: i < k < |c.procs| ==> c.procs[k].phase.Halted?
      decreases i
    {
      i := i - 1;
    }
    assert Link(c.procs[i], c.procs[i + 1], i + 2 == |c.procs|);
    if c.procs[i].phase.Busy? {
      assert Step(c, See(i)).Some?;
    } else {
      assert Step(c, Raise(i)).Some?;
    }
  }

  lemma {:induction false} NoneEnded(c: Chain, i: nat)
    requires Inv(c) && i < |c.procs| && c.procs[|c.procs| - 1].phase.Halted?
    ensures !c.procs[i].phase.Ended? && !c.procs[i].phase.Gone?
    decreases |c.procs| - i
  {
    if i + 1 < |c.procs| {
      NoneEnded(c, i + 1);
      LinkAt(c, i);
    }
  }

  lemma NoReap(c: Chain, i: nat)
    requires Inv(c) && c.procs[|c.procs| - 1].phase.Halted?
    ensures Step(c, Reap(i)).None?
  {
    if i + 1 < |c.procs| {
      NoneEnded(c, i + 1);
    }
  }

  /** One move of a wrapper, when the leaf is stopped. */
  lemma InternalStep(c: Chain, a: Action)
    requires Inv(c) && c.procs[|c.procs| - 1].phase.Halted? && IsInternal(a) && Step(c, a).Some?
    ensures var d := Step(c, a).value;
            && d.procs != [] && d.procs[|d.procs| - 1].phase.Halted?
            && Owed(d.procs, |d.procs| - 1) == Owed(c.procs, |c.procs| - 1) - 1
  {
    hide Links, Owed;
    var d := Step(c, a).value;
    var n := |c.procs| - 1;
    if a.See? {
      OwedChange(c.procs, d.procs, a.i, n);
    } else if a.Raise? {
      OwedChange(c.procs, d.procs, a.i, n);
    } else {
      NoReap(c, a.i);
    }
  }

  /** A stopped leaf stops the leader: whatever order the wrappers move in, they
      move at most twice each, and they can stop moving only once the leader
      has stopped. */
  lemma {:induction false} StopReachesLeader(c: Chain, actions: seq<Action>)
    requires Inv(c) && c.procs[|c.procs| - 1].phase.Halted?
    requires (forall i :: 0 <= i < |actions| ==> IsInternal(actions[i])) && Run(c, actions).Some?
    ensures |actions| <= 2 * (|c.procs| - 1)
    ensures var d := Run(c, actions).value;
            && d.procs != []
            && |actions| == Owed(c.procs, |c.procs| - 1) - Owed(d.procs, |d.procs| - 1)
            && ((forall a :: IsInternal(a) ==> Step(d, a).None?) ==> d.procs[0].phase.Halted?)
    decreases |actions|
  {
    hide Links, Owed, NoneSawStop;
    OwedBound(c.procs, |c.procs| - 1);
    if actions == [] {
      if !c.procs[0].phase.Halted? {
        SomeStep(c);
      }
    } else {
      assert IsInternal(actions[0]);
      StepInv(c, actions[0]);
      InternalStep(c, actions[0]);
      assert forall i :: 0 <= i < |actions[1..]| ==> actions[1..][i] == actions[i + 1];
      StopReachesLeader(Step(c, actions[0]).value, actions[1..]);
    }
  }

  // ------------------------------------------------------------- the wait loop

  /** What a wrapper does on the reports it gets of the process below: one stop
      raised for each stop seen, and at the end it ends too. */
  function MovesOn(i: nat, reports: seq<Change>): seq<Action> {
    if reports == [] then []
    else if reports[0].StoppedBy? then [See(i), Raise(i)] + MovesOn(i, reports[1..])
    else [Reap(i)]
  }

  /** waitForChild on the same reports stops itself as often, and gives the same end. */
  lemma {:induction false} MovesAreTheLoops(i: nat, pid: int, reports: seq<Change>)
    requires forall c :: c in reports ==> !c.Continued?
    ensures var w := WaitChild(ReportsOf(pid, reports), pid);
            && Count(MovesOn(i, reports), Raise(i)) == w.raised
            && Count(MovesOn(i, reports), Reap(i)) == (if w.end.Some? then 1 else 0)
            && (w.end.Some? ==> w.raised < |reports| && w.end.value == reports[w.raised])
    decreases |reports|
  {
    if reports != [] {
      var rs := ReportsOf(pid, reports);
      assert rs[0] == Report(pid, reports[0]) && rs[1..] == ReportsOf(pid, reports[1..]);
      if reports[0].StoppedBy? {
        MovesAreTheLoops(i, pid, reports[1..]);
        var more := MovesOn(i, reports[1..]);
        assert ([See(i), Raise(i)] + more)[1..] == [Raise(i)] + more && ([Raise(i)] + more)[1..] == more;
      } else {
        assert [Reap(i)][1..] == [];
      }
    }
  }

  function ReportsOf(pid: int, changes: seq<Change>): seq<Report> {
    if changes == [] then [] else [Report(pid, changes[0])] + ReportsOf(pid, changes[1..])
  }

  function Count(actions: seq<Action>, a: Action): nat {
    if actions == [] then 0 else (if actions[0] == a then 1 else 0) + Count(actions[1..], a)
  }

  predicate IsOwn(a: Action, i: nat) {
    a == See(i) || a == Raise(i) || a == Reap(i)
  }

  /** What wrapper i did in a run. */
  function Own(actions: seq<Action>, i: nat): seq<Action> {
    if actions == [] then [] else (if IsOwn(actions[0], i) then [actions[0]] else []) + Own(actions[1..], i)
  }

  function ToldBy(c: Chain, a: Action, i: nat): seq<Change>
    requires i + 1 < |c.procs| && (a == Reap(i) ==> c.procs[i + 1].phase.Ended?)
  {
    if a == See(i) then [StoppedBy(SIGTSTP)] else if a == Reap(i) then [c.procs[i + 1].phase.end] else []
  }

  /** What it was told of the process below it. */
  function Told(c: Chain, actions: seq<Action>, i: nat): seq<Change>
    requires c.procs != [] && Run(c, actions).Some? && i + 1 < |c.procs|
    decreases |actions|
  {
    if actions == [] then []
    else
      ToldBy(c, actions[0], i) + Told(Step(c, actions[0]).value, actions[1..], i)
  }

  /** A stop that has been seen and not yet been raised. */
  predicate Owes(p: Process) {
    p.phase.SawStop? || p.phase == Halted(true)
  }

  predicate EndsAreEnds(c: Chain) {
    forall i :: 0 <= i < |c.procs| && c.procs[i].phase.Ended? ==> IsEnd(c.procs[i].phase.end)
  }

  lemma EndsStayEnds(c: Chain, a: Action)
    requires c.procs != [] && EndsAreEnds(c) && Step(c, a).Some?
    ensures EndsAreEnds(Step(c, a).value) && |Step(c, a).value.procs| == |c.procs|
  {
  }

  /** Moves and reports of a wrapper, between a state p of it and a later state q,
      are those of the loop; a stop that was seen before p counts in, and one that
      is owed at q is still to be raised. */
  predicate Follows(i: nat, p: Process, own: seq<Action>, told: seq<Change>, q: Process) {
    MovesOn(i, (if Owes(p) then [StoppedBy(SIGTSTP)] else []) + told)
    == (if Owes(p) then [See(i)] else []) + own + if Owes(q) then [Raise(i)] else []
  }

  lemma FollowsAtRest(i: nat, p: Process)
    ensures Follows(i, p, [], [], p)
  {
    if Owes(p) {
      MovesFirst(i, []);
      assert [StoppedBy(SIGTSTP)] + [] == [StoppedBy(SIGTSTP)] && [See(i)] + [] + [Raise(i)] == [See(i), Raise(i)] + [];
    }
  }

  lemma MovesFirst(i: nat, reports: seq<Change>)
    ensures MovesOn(i, [StoppedBy(SIGTSTP)] + reports) == [See(i), Raise(i)] + MovesOn(i, reports)
    ensures forall e :: IsEnd(e) ==> MovesOn(i, [e]) == [Reap(i)]
    ensures MovesOn(i, []) == []
  {
    assert ([StoppedBy(SIGTSTP)] + reports)[1..] == reports;
  }

  lemma FollowsSee(i: nat, p: Process, before: Process, own: seq<Action>, told: seq<Change>, q: Process)
    requires Follows(i, p, own, told, q) && Owes(p) && !Owes(before)
    ensures Follows(i, before, [See(i)] + own, [StoppedBy(SIGTSTP)] + told, q)
  {
    hide MovesOn;
    assert [] + ([See(i)] + own) == [See(i)] + own && [] + ([StoppedBy(SIGTSTP)] + told) == [StoppedBy(SIGTSTP)] + told;
  }

  lemma FollowsRaise(i: nat, p: Process, before: Process, own: seq<Action>, told: seq<Change>, q: Process)
    requires Follows(i, p, own, told, q) && !Owes(p) && Owes(before)
    ensures Follows(i, before, [Raise(i)] + own, [] + told, q)
  {
    hide MovesOn;
    MovesFirst(i, told);
    var raise := if Owes(q) then [Raise(i)] else [];
    assert [] + told == told && [] + own == own;
    assert [See(i)] + ([Raise(i)] + own) + raise == [See(i), Raise(i)] + (own + raise);
  }

  lemma FollowsReap(i: nat, p: Process, before: Process, end: Change, q: Process)
    requires Follows(i, p, [], [], q) && !Owes(p) && !Owes(before) && IsEnd(end)
    ensures Follows(i, before, [Reap(i)] + [], [end] + [], q)
  {
    hide MovesOn;
    MovesFirst(i, []);
    var raise := if Owes(q) then [Raise(i)] else [];
    assert [] + [] + raise == raise && [] + ([end] + []) == [end] && [] + ([Reap(i)] + []) + raise == [Reap(i)];
  }

  lemma FollowsStep(c: Chain, a: Action, i: nat, own: seq<Action>, told: seq<Change>, q: Process)
    requires c.procs != [] && EndsAreEnds(c) && Step(c, a).Some? && i + 1 < |c.procs| == |Step(c, a).value.procs|
    requires Follows(i, Step(c, a).value.procs[i], own, told, q)
    requires Step(c, a).value.procs[i].phase.Ended? ==> own == [] && told == []
    ensures Follows(i, c.procs[i], (if IsOwn(a, i) then [a] else []) + own, ToldBy(c, a, i) + told, q)
  {
    hide MovesOn, EndsAreEnds, Follows;
    var p, before := Step(c, a).value.procs[i], c.procs[i];
    if a == See(i) {
      FollowsSee(i, p, before, own, told, q);
    } else if a == Raise(i) {
      FollowsRaise(i, p, before, own, told, q);
    } else if a == Reap(i) {
      ReapedEnd(c, i);
      FollowsReap(i, p, before, c.procs[i + 1].phase.end, q);
    } else {
      OthersLeaveOwing(c, a, i);
      SameFollows(i, p, before, own, told, q);
      assert [] + own == own && [] + told == told;
    }
  }

  lemma SameFollows(i: nat, p: Process, before: Process, own: seq<Action>, told: seq<Change>, q: Process)
    requires Follows(i, p, own, told, q) && Owes(p) == Owes(before)
    ensures Follows(i, before, own, told, q)
  {
  }

  lemma ReapedEnd(c: Chain, i: nat)
    requires c.procs != [] && EndsAreEnds(c) && Step(c, Reap(i)).Some?
    ensures IsEnd(c.procs[i + 1].phase.end) && c.procs[i].phase.Busy? && Step(c, Reap(i)).value.procs[i].phase.Ended?
  {
  }

  lemma OthersLeaveOwing(c: Chain, a: Action, i: nat)
    requires c.procs != [] && i + 1 < |c.procs| && !IsOwn(a, i) && Step(c, a).Some?
    ensures var d := Step(c, a).value; |d.procs| == |c.procs| && Owes(d.procs[i]) == Owes(c.procs[i])
  {
  }

  lemma EndedStays(c: Chain, a: Action, i: nat)
    requires c.procs != [] && i + 1 < |c.procs| && Step(c, a).Some? && (c.procs[i].phase.Ended? || c.procs[i].phase.Gone?)
    ensures var d := Step(c, a).value;
            !IsOwn(a, i) && |d.procs| == |c.procs| && (d.procs[i].phase.Ended? || d.procs[i].phase.Gone?)
  {
  }

  /** Over every run, calm or not, each wrapper does exactly what the wait loop does
      on the reports it is told, up to a stop it still owes. */
  lemma {:induction false} WrapperRunsTheLoop(c: Chain, actions: seq<Action>, i: nat)
    requires c.procs != [] && EndsAreEnds(c) && i + 1 < |c.procs| && Run(c, actions).Some?
    ensures var d := Run(c, actions).value;
            |d.procs| == |c.procs| && Follows(i, c.procs[i], Own(actions, i), Told(c, actions, i), d.procs[i])
    ensures c.procs[i].phase.Ended? || c.procs[i].phase.Gone? ==> Own(actions, i) == [] && Told(c, actions, i) == []
    decreases |actions|
  {
    hide EndsAreEnds, Follows, Step, MovesOn;
    if actions == [] {
      FollowsAtRest(i, c.procs[i]);
    } else {
      var a := actions[0];
      assert Step(c, a).Some?;
      EndsStayEnds(c, a);
      var d := Step(c, a).value;
      WrapperRunsTheLoop(d, actions[1..], i);
      if c.procs[i].phase.Ended? || c.procs[i].phase.Gone? {
        EndedStays(c, a, i);
      }
      FollowsStep(c, a, i, Own(actions[1..], i), Told(d, actions[1..], i), Run(c, actions).value.procs[i]);
    }
  }

  /** From the start: whatever happens, a wrapper raises a stop for every stop it is
      told of, once, before it takes the next report. */
  lemma WrapperIsFaithful(wrappers: nat, actions: seq<Action>, i: nat)
    requires i < wrappers && Run(Start(wrappers), actions).Some?
    ensures var d := Run(Start(wrappers), actions).value;
            && |d.procs| == wrappers + 1
            && MovesOn(i, Told(Start(wrappers), actions, i))
               == Own(actions, i) + if Owes(d.procs[i]) then [Raise(i)] else []
  {
    hide Told, Own, MovesOn;
    var c := Start(wrappers);
    WrapperRunsTheLoop(c, actions, i);
    assert [] + Told(c, actions, i) == Told(c, actions, i) && [] + Own(actions, i) == Own(actions, i);
  }
}
