/** Jobs: what reports of the kernel do to them, and a log of what became of them
    and of what was announced, which states the promises over whole runs. */
module JobSpec {
  import opened Prelude

  const SIGTSTP := 20

  datatype JobState = Running | Stopped | Done

  datatype Job = Job(
    id: int,
    pgid: int,
    pids: seq<int>,
    pidDone: seq<bool>,
    command: string,
    state: JobState,
    exitStatus: int,
    notified: bool)

  /** What waitpid reports of one process. */
  datatype Change = Exited(code: int) | Signaled(signal: int) | StoppedBy(signal: int) | Continued

  datatype Report = Report(pid: int, change: Change)

  /** The reports the kernel still holds, by process group. */
  type Pending = map<int, seq<Report>>

  function StatusFromWait(c: Change): int {
    match c
    case Exited(code) => code
    case Signaled(signal) => 128 + signal
    case _ => 1
  }

  // ------------------------------------------------------------ one job

  function NewJob(id: int, pgid: int, pids: seq<int>, command: string, stopped: bool): Job {
    Job(id, pgid, pids, seq(|pids|, _ => false), command, if stopped then Stopped else Running, 0, false)
  }

  /** The first process with this number that has not been reaped. */
  function FirstPending(j: Job, pid: int, i: nat): (r: nat)
    requires |j.pidDone| == |j.pids| && i <= |j.pids|
    ensures i <= r <= |j.pids| && (r < |j.pids| ==> j.pids[r] == pid && !j.pidDone[r])
    ensures forall m :: i <= m < r ==> j.pids[m] != pid || j.pidDone[m]
    decreases |j.pids| - i
  {
    if i == |j.pids| || (j.pids[i] == pid && !j.pidDone[i]) then i else FirstPending(j, pid, i + 1)
  }

  function MoveTo(j: Job, state: JobState): Job {
    if j.state != state then j.(state := state, notified := false) else j
  }

  /** One report, of a job that is not done. */
  function Absorb(j: Job, r: Report): (k: Job)
    requires |j.pidDone| == |j.pids|
    ensures |k.pidDone| == |k.pids| && k.id == j.id && k.pids == j.pids && k.pgid == j.pgid
    ensures j.state != Done ==> k.state != Done
  {
    match r.change
    case Continued => MoveTo(j, Running)
    case StoppedBy(_) => MoveTo(j, Stopped)
    case _ =>
      var i := FirstPending(j, r.pid, 0);
      if i == |j.pids| then j
      else if i + 1 == |j.pids| then j.(pidDone := j.pidDone[i := true], exitStatus := StatusFromWait(r.change))
      else j.(pidDone := j.pidDone[i := true])
  }

  function AbsorbAll(j: Job, rs: seq<Report>): (k: Job)
    requires |j.pidDone| == |j.pids|
    ensures |k.pidDone| == |k.pids| && k.id == j.id
    decreases |rs|
  {
    if rs == [] then j else AbsorbAll(Absorb(j, rs[0]), rs[1..])
  }

  predicate AllDone(j: Job) {
    forall i :: 0 <= i < |j.pidDone| ==> j.pidDone[i]
  }

  function Settle(j: Job): Job {
    if AllDone(j) then MoveTo(j, Done) else j
  }

  // ---------------------------------------------------------- the update

  predicate Shaped(jobs: seq<Job>) {
    forall k :: 0 <= k < |jobs| ==> |jobs[k].pidDone| == |jobs[k].pids|
  }

  function ReportsFor(p: Pending, pgid: int): seq<Report> {
    if pgid in p then p[pgid] else []
  }

  function Drain(p: Pending, pgid: int): Pending {
    if pgid in p then p[pgid := []] else p
  }

  /** Every job in turn takes the reports of its group. */
  function RefreshAll(jobs: seq<Job>, p: Pending): (r: (seq<Job>, Pending))
    requires Shaped(jobs)
    ensures |r.0| == |jobs| && forall i :: 0 <= i < |jobs| ==> r.0[i].id == jobs[i].id
    decreases |jobs|
  {
    if jobs == [] then ([], p)
    else if jobs[0].state.Done? then
      var (rest, p1) := RefreshAll(jobs[1..], p);
      ([jobs[0]] + rest, p1)
    else
      var (rest, p1) := RefreshAll(jobs[1..], Drain(p, jobs[0].pgid));
      ([Settle(AbsorbAll(jobs[0], ReportsFor(p, jobs[0].pgid)))] + rest, p1)
  }

  datatype Notice = Notice(id: int, state: JobState, exitStatus: int, command: string)

  function NoticeOf(j: Job): Notice {
    Notice(j.id, j.state, j.exitStatus, j.command)
  }

  predicate ToAnnounce(j: Job) {
    !j.notified && !j.state.Running?
  }

  function NoticesOf(jobs: seq<Job>): seq<Notice> {
    if jobs == [] then []
    else (if ToAnnounce(jobs[0]) then [NoticeOf(jobs[0])] else [])
         + NoticesOf(jobs[1..])
  }

  function Announce(j: Job): Job {
    if ToAnnounce(j) then j.(notified := true) else j
  }

  /** What stays in the table: everything not done. */
  function Survivors(jobs: seq<Job>): seq<Job> {
    if jobs == [] then []
    else (if jobs[0].state.Done? then [] else [Announce(jobs[0])]) + Survivors(jobs[1..])
  }

  // ------------------------------------------------------------- the log

  /** A job took on a state; a notice was printed; a process was reaped. */
  datatype Event = Became(job: Job) | Announced(job: Job) | Reaped(id: int, pid: int, change: Change)

  type Log = seq<Event>

  function LastAbout(log: Log, id: int): (r: Option<Event>)
    ensures r.Some? ==> !r.value.Reaped? && r.value.job.id == id
    decreases |log|
  {
    if log == [] then None
    else
      var e := log[|log| - 1];
      if !e.Reaped? && e.job.id == id then Some(e) else LastAbout(log[..|log| - 1], id)
  }

  /** pid was reaped for the job with this status. */
  ghost predicate WasReaped(log: Log, id: int, pid: int, status: int) {
    exists c: Change :: Reaped(id, pid, c) in log && StatusFromWait(c) == status
  }

  ghost predicate PidsReaped(log: Log, j: Job) {
    && |j.pidDone| == |j.pids|
    && (forall i :: 0 <= i < |j.pids| && j.pidDone[i] ==> exists status :: WasReaped(log, j.id, j.pids[i], status))
    && (j.pids != [] && j.pidDone[|j.pids| - 1] ==> WasReaped(log, j.id, j.pids[|j.pids| - 1], j.exitStatus))
  }

  ghost predicate MayLog(before: Log, e: Event) {
    e.Reaped? ||
      var p := LastAbout(before, e.job.id);
      if e.Announced? then !e.job.state.Running? && p.Some? && p.value.Became? && p.value.job.state == e.job.state
      else
        && (p.Some? ==> !p.value.job.state.Done? && p.value.job.state != e.job.state)
        && (e.job.state.Done? ==> AllDone(e.job) && PidsReaped(before, e.job))
  }

  /** The promises. An announcement follows the change it announces, with no
      other announcement of that job between. A change is a change of state,
      never of a job announced done; and a job becomes done when each of its
      processes has been reaped, with the status of the last one. */
  ghost predicate WellLogged(log: Log)
    decreases |log|
  {
    log == [] ||
      var e, before := log[|log| - 1], log[..|log| - 1];
      WellLogged(before) && MayLog(before, e)
  }

  /** A job in the table and the last thing logged about it agree. */
  ghost predicate Tracked(j: Job, log: Log) {
    var p := LastAbout(log, j.id);
    && p.Some? && p.value.job.state == j.state && p.value.Announced? == j.notified
    && PidsReaped(log, j)
  }

  lemma LastSnoc(log: Log, e: Event, id: int)
    ensures LastAbout(log + [e], id) == if !e.Reaped? && e.job.id == id then Some(e) else LastAbout(log, id)
  {
    assert (log + [e])[..|log|] == log;
  }

  lemma ReapedStays(log: Log, e: Event, j: Job)
    requires PidsReaped(log, j)
    ensures PidsReaped(log + [e], j)
  {
    forall i | 0 <= i < |j.pids| && j.pidDone[i] ensures exists status :: WasReaped(log + [e], j.id, j.pids[i], status) {
      var status :| WasReaped(log, j.id, j.pids[i], status);
      StillReaped(log, e, j.id, j.pids[i], status);
    }
    if j.pids != [] && j.pidDone[|j.pids| - 1] {
      StillReaped(log, e, j.id, j.pids[|j.pids| - 1], j.exitStatus);
    }
  }

  lemma StillReaped(log: Log, e: Event, id: int, pid: int, status: int)
    requires WasReaped(log, id, pid, status)
    ensures WasReaped(log + [e], id, pid, status)
  {
    var c :| Reaped(id, pid, c) in log && StatusFromWait(c) == status;
    assert Reaped(id, pid, c) in log + [e];
  }

  lemma OthersStay(j: Job, log: Log, e: Event)
    requires Tracked(j, log) && (!e.Reaped? ==> e.job.id != j.id)
    ensures Tracked(j, log + [e])
  {
    LastSnoc(log, e, j.id);
    ReapedStays(log, e, j);
  }

  lemma SnocLogged(log: Log, e: Event)
    requires WellLogged(log) && MayLog(log, e)
    ensures WellLogged(log + [e])
  {
    assert (log + [e])[..|log|] == log;
  }

  /** The log of a change of state, if there is one. */
  ghost function LogChange(j: Job, state: JobState, log: Log): Log {
    if j.state != state then log + [Became(MoveTo(j, state))] else log
  }

  lemma ChangeTracked(j: Job, state: JobState, log: Log)
    requires Tracked(j, log) && WellLogged(log) && !j.state.Done?
    requires state.Done? ==> AllDone(j)
    ensures Tracked(MoveTo(j, state), LogChange(j, state, log)) && WellLogged(LogChange(j, state, log))
  {
    hide PidsReaped;
    if j.state != state {
      var k := MoveTo(j, state);
      SameReaped(log, j, k);
      SnocLogged(log, Became(k));
      LastSnoc(log, Became(k), j.id);
      ReapedStays(log, Became(k), k);
    }
  }

  lemma SameReaped(log: Log, j: Job, k: Job)
    requires PidsReaped(log, j) && k.id == j.id && k.pids == j.pids && k.pidDone == j.pidDone && k.exitStatus == j.exitStatus
    ensures PidsReaped(log, k)
  {
  }

  ghost function LogReport(j: Job, r: Report, log: Log): Log {
    match r.change
    case Continued => LogChange(j, Running, log)
    case StoppedBy(_) => LogChange(j, Stopped, log)
    case _ => log + [Reaped(j.id, r.pid, r.change)]
  }

  ghost function LogReports(j: Job, rs: seq<Report>, log: Log): Log
    requires |j.pidDone| == |j.pids|
    decreases |rs|
  {
    if rs == [] then log else LogReports(Absorb(j, rs[0]), rs[1..], LogReport(j, rs[0], log))
  }

  ghost function LogSettle(j: Job, log: Log): Log {
    if AllDone(j) then LogChange(j, Done, log) else log
  }

  /** The log of the first pass of an update. */
  ghost function LogRefresh(jobs: seq<Job>, p: Pending, log: Log): Log
    requires Shaped(jobs)
    decreases |jobs|
  {
    if jobs == [] then log
    else if jobs[0].state.Done? then LogRefresh(jobs[1..], p, log)
    else
      var rs := ReportsFor(p, jobs[0].pgid);
      LogRefresh(jobs[1..], Drain(p, jobs[0].pgid), LogSettle(AbsorbAll(jobs[0], rs), LogReports(jobs[0], rs, log)))
  }

  /** The log of the second pass. */
  ghost function Announcements(jobs: seq<Job>): Log {
    if jobs == [] then []
    else (if ToAnnounce(jobs[0]) then [Announced(jobs[0])] else []) + Announcements(jobs[1..])
  }

  // ------------------------------- the log is what was printed and reported

  ghost function Printed(log: Log): seq<Notice>
    decreases |log|
  {
    if log == [] then []
    else
      var e := log[|log| - 1];
      Printed(log[..|log| - 1]) + if e.Announced? then [NoticeOf(e.job)] else []
  }

  /** The processes that were reaped, as the kernel reported them, and for which job. */
  ghost function Reaps(log: Log): seq<(int, Report)>
    decreases |log|
  {
    if log == [] then []
    else
      var e := log[|log| - 1];
      Reaps(log[..|log| - 1]) + if e.Reaped? then [(e.id, Report(e.pid, e.change))] else []
  }

  predicate IsEndReport(r: Report) {
    !r.change.Continued? && !r.change.StoppedBy?
  }

  ghost function EndReports(id: int, rs: seq<Report>): seq<(int, Report)> {
    if rs == [] then [] else (if IsEndReport(rs[0]) then [(id, rs[0])] else []) + EndReports(id, rs[1..])
  }

  /** The reports of ended processes that an update takes from the queue: for each
      job in turn, those of its group. */
  ghost function TakenBy(jobs: seq<Job>, p: Pending): seq<(int, Report)>
    decreases |jobs|
  {
    if jobs == [] then []
    else if jobs[0].state.Done? then TakenBy(jobs[1..], p)
    else EndReports(jobs[0].id, ReportsFor(p, jobs[0].pgid)) + TakenBy(jobs[1..], Drain(p, jobs[0].pgid))
  }

  lemma SnocPrinted(log: Log, e: Event)
    ensures Printed(log + [e]) == Printed(log) + if e.Announced? then [NoticeOf(e.job)] else []
    ensures Reaps(log + [e]) == Reaps(log) + if e.Reaped? then [(e.id, Report(e.pid, e.change))] else []
  {
    assert (log + [e])[..|log|] == log;
  }

  lemma {:induction false} AnnouncementsPrinted(log: Log, jobs: seq<Job>)
    ensures Printed(log + Announcements(jobs)) == Printed(log) + NoticesOf(jobs)
    ensures Reaps(log + Announcements(jobs)) == Reaps(log)
    decreases |jobs|
  {
    hide Printed, Reaps, ToAnnounce;
    if jobs == [] {
      assert log + [] == log && Printed(log) + [] == Printed(log);
    } else {
      var j := jobs[0];
      var event, notice := if ToAnnounce(j) then [Announced(j)] else [], if ToAnnounce(j) then [NoticeOf(j)] else [];
      OnePrinted(log, j);
      Regroup(log, event, Announcements(jobs[1..]));
      AnnouncementsPrinted(log + event, jobs[1..]);
      Regroup(Printed(log), notice, NoticesOf(jobs[1..]));
    }
  }

  lemma OnePrinted(log: Log, j: Job)
    ensures Printed(log + if ToAnnounce(j) then [Announced(j)] else [])
         == Printed(log) + if ToAnnounce(j) then [NoticeOf(j)] else []
    ensures Reaps(log + if ToAnnounce(j) then [Announced(j)] else []) == Reaps(log)
  {
    hide Printed, Reaps, ToAnnounce;
    if ToAnnounce(j) {
      SnocPrinted(log, Announced(j));
    } else {
      assert log + [] == log && Printed(log) + [] == Printed(log);
    }
  }

  lemma Regroup<T>(a: seq<T>, b: seq<T>, c: seq<T>)
    ensures a + (b + c) == a + b + c
  {
  }

  lemma ChangePrinted(j: Job, state: JobState, log: Log)
    ensures Printed(LogChange(j, state, log)) == Printed(log) && Reaps(LogChange(j, state, log)) == Reaps(log)
  {
    hide Printed, Reaps;
    if j.state != state {
      SnocPrinted(log, Became(MoveTo(j, state)));
    }
  }

  lemma {:induction false} ReportsPrinted(j: Job, rs: seq<Report>, log: Log)
    requires |j.pidDone| == |j.pids|
    ensures Printed(LogReports(j, rs, log)) == Printed(log)
    ensures Reaps(LogReports(j, rs, log)) == Reaps(log) + EndReports(j.id, rs)
    decreases |rs|
  {
    hide Printed, Reaps, LogChange, Absorb;
    if rs == [] {
      assert Reaps(log) + [] == Reaps(log);
    } else {
      ChangePrinted(j, Running, log);
      ChangePrinted(j, Stopped, log);
      if IsEndReport(rs[0]) {
        SnocPrinted(log, Reaped(j.id, rs[0].pid, rs[0].change));
      }
      ReportsPrinted(Absorb(j, rs[0]), rs[1..], LogReport(j, rs[0], log));
      assert Reaps(LogReport(j, rs[0], log)) == Reaps(log) + if IsEndReport(rs[0]) then [(j.id, rs[0])] else [];
    }
  }

  lemma {:induction false} RefreshPrinted(jobs: seq<Job>, p: Pending, log: Log)
    requires Shaped(jobs)
    ensures Printed(LogRefresh(jobs, p, log)) == Printed(log)
    ensures Reaps(LogRefresh(jobs, p, log)) == Reaps(log) + TakenBy(jobs, p)
    decreases |jobs|
  {
    hide Printed, Reaps, LogChange, AbsorbAll, LogReports, Drain, ReportsFor;
    if jobs == [] {
      assert Reaps(log) + [] == Reaps(log);
    } else if jobs[0].state.Done? {
      RefreshPrinted(jobs[1..], p, log);
    } else {
      var j := jobs[0];
      var rs := ReportsFor(p, j.pgid);
      ReportsPrinted(j, rs, log);
      ChangePrinted(AbsorbAll(j, rs), Done, LogReports(j, rs, log));
      RefreshPrinted(jobs[1..], Drain(p, j.pgid), LogSettle(AbsorbAll(j, rs), LogReports(j, rs, log)));
    }
  }

  lemma AbsorbTracked(j: Job, r: Report, log: Log)
    requires Tracked(j, log) && WellLogged(log) && !j.state.Done?
    ensures Tracked(Absorb(j, r), LogReport(j, r, log)) && WellLogged(LogReport(j, r, log))
  {
    hide PidsReaped, WellLogged;
    match r.change {
      case Continued => ChangeTracked(j, Running, log);
      case StoppedBy(_) => ChangeTracked(j, Stopped, log);
      case _ =>
        var e := Reaped(j.id, r.pid, r.change);
        SnocLogged(log, e);
        LastSnoc(log, e, j.id);
        ReapedStays(log, e, j);
        OneMoreReaped(j, r, log);
    }
  }

  lemma OneMoreReaped(j: Job, r: Report, log: Log)
    requires PidsReaped(log + [Reaped(j.id, r.pid, r.change)], j) && !r.change.Continued? && !r.change.StoppedBy?
    ensures PidsReaped(log + [Reaped(j.id, r.pid, r.change)], Absorb(j, r))
  {
    var more := log + [Reaped(j.id, r.pid, r.change)];
    assert Reaped(j.id, r.pid, r.change) in more;
    assert WasReaped(more, j.id, r.pid, StatusFromWait(r.change));
    var k := Absorb(j, r);
    forall i | 0 <= i < |k.pids| && k.pidDone[i] ensures exists status :: WasReaped(more, k.id, k.pids[i], status) {
      if j.pidDone[i] {
        var status :| WasReaped(more, j.id, j.pids[i], status);
      }
    }
  }

  // ---------------------------------------------------- what the log promises

  /** Nothing is announced twice: between two announcements of a job it took on
      the state that the second one announces. */
  lemma {:induction false} ChangeBetween(log: Log, first: nat, second: nat)
    requires WellLogged(log) && first < second < |log|
    requires log[first].Announced? && log[second].Announced? && log[first].job.id == log[second].job.id
    ensures exists k :: first < k < second && BecameAs(log[k], log[first].job.id, log[second].job.state)
    decreases |log|
  {
    var id := log[first].job.id;
    if second + 1 < |log| {
      ChangeBetween(log[..|log| - 1], first, second);
      var k :| first < k < second && BecameAs(log[..|log| - 1][k], id, log[second].job.state);
      assert log[k] == log[..|log| - 1][k];
    } else {
      var k := LastIndex(log[..second], id, first);
      assert log[k] == log[..second][k] && BecameAs(log[k], id, log[second].job.state);
    }
  }

  predicate BecameAs(e: Event, id: int, state: JobState) {
    e.Became? && e.job.id == id && e.job.state == state
  }

  lemma {:induction false} LastIndex(log: Log, id: int, at: nat) returns (k: nat)
    requires at < |log| && !log[at].Reaped? && log[at].job.id == id
    ensures at <= k < |log| && LastAbout(log, id) == Some(log[k])
    ensures forall m :: k < m < |log| && !log[m].Reaped? ==> log[m].job.id != id
    decreases |log|
  {
    var n := |log| - 1;
    if !log[n].Reaped? && log[n].job.id == id {
      k := n;
    } else {
      k := LastIndex(log[..n], id, at);
    }
  }

  /** Once a job has become done, its number means nothing but that: it never
      changes state again, so it is announced done at most once. */
  lemma {:induction false} DoneIsLast(log: Log, done: nat, later: nat)
    requires WellLogged(log) && done < later < |log|
    requires log[done].Became? && log[done].job.state.Done?
    requires !log[later].Reaped? && log[later].job.id == log[done].job.id
    ensures log[later].Announced? && log[later].job.state.Done?
    ensures forall k :: done < k < later && !log[k].Reaped? ==> log[k].job.id != log[done].job.id
    decreases |log|
  {
    var id := log[done].job.id;
    if later + 1 < |log| {
      DoneIsLast(log[..|log| - 1], done, later);
      assert forall k :: 0 <= k < |log| - 1 ==> log[..|log| - 1][k] == log[k];
    } else {
      var k := LastIndex(log[..later], id, done);
      if k > done {
        DoneIsLast(log[..later], done, k);
        assert false;
      }
    }
  }

  /** A job is announced done only when every process of it has been reaped, and
      with the status of the last. */
  lemma {:induction false} DoneMeansReaped(log: Log, at: nat)
    requires WellLogged(log) && at < |log| && log[at].Became? && log[at].job.state.Done?
    ensures AllDone(log[at].job) && PidsReaped(log[..at], log[at].job)
    decreases |log|
  {
    if at + 1 < |log| {
      DoneMeansReaped(log[..|log| - 1], at);
      assert log[..|log| - 1][at] == log[at] && log[..|log| - 1][..at] == log[..at];
    }
  }
}
