/** The job table of a shell. Every operation keeps the promises of the log. */
module Jobs {
  import opened Prelude
  import opened JobSpec
  import opened JobWaiting
  import opened JobNotices

  /** The kernel, as this process sees it: what it will report, and how often the
      process has stopped itself. */
  class WaitQueue {
    var pending: Pending
    var raised: nat

    constructor (p: Pending)
      ensures pending == p && raised == 0
    {
      pending, raised := p, 0;
    }

    method RaiseStop()
      modifies this`raised
      ensures raised == old(raised) + 1
    {
      raised := raised + 1;
    }

    /** waitpid on one process of a group. */
    method NextOf(pgid: int, pid: int) returns (r: Option<Change>)
      modifies this`pending
      ensures var rs := ReportsFor(old(pending), pgid);
              var n := FirstOf(rs, pid);
              if n == |rs| then r == None && pending == old(pending)
              else r == Some(rs[n].change) && pending == old(pending)[pgid := rs[..n] + rs[n + 1..]]
    {
      var rs := ReportsFor(pending, pgid);
      var n := 0;
      while n < |rs| && !(rs[n].pid == pid && !rs[n].change.Continued?)
        invariant 0 <= n <= |rs| && n + FirstOf(rs[n..], pid) == FirstOf(rs, pid)
      {
        assert rs[n..][1..] == rs[n + 1..];
        n := n + 1;
      }
      if n == |rs| {
        return None;
      }
      r := Some(rs[n].change);
      pending := pending[pgid := rs[..n] + rs[n + 1..]];
    }

    method WaitForChild(pgid: int, pid: int) returns (end: Option<Change>)
      modifies this
      ensures var w := WaitChild(ReportsFor(old(pending), pgid), pid);
              end == w.end && raised == old(raised) + w.raised && ReportsFor(pending, pgid) == w.rest
    {
      while true
        invariant raised >= old(raised)
        invariant var w := WaitChild(ReportsFor(pending, pgid), pid);
                  WaitChild(ReportsFor(old(pending), pgid), pid) == w.(raised := w.raised + (raised - old(raised)))
        decreases |ReportsFor(pending, pgid)|
      {
        WaitChildFirst(ReportsFor(pending, pgid), pid);
        end := NextOf(pgid, pid);
        if end.None? || !end.value.StoppedBy? {
          return;
        }
        RaiseStop();
      }
    }

    method WaitForEach(pgid: int, pids: seq<int>) returns (lastStatus: int)
      modifies this
      ensures var w := WaitEach(pids, 1, ReportsFor(old(pending), pgid));
              lastStatus == w.lastStatus && raised == old(raised) + w.raised && ReportsFor(pending, pgid) == w.rest
    {
      hide WaitChild;
      lastStatus := 1;
      var i := 0;
      while i < |pids|
        invariant 0 <= i <= |pids| && raised >= old(raised)
        invariant var w := WaitEach(pids[i..], lastStatus, ReportsFor(pending, pgid));
                  WaitEach(pids, 1, ReportsFor(old(pending), pgid)) == w.(raised := w.raised + (raised - old(raised)))
      {
        assert pids[i..][0] == pids[i] && pids[i..][1..] == pids[i + 1..];
        var end := WaitForChild(pgid, pids[i]);
        if i + 1 == |pids| {
          lastStatus := EndStatus(end);
        }
        i := i + 1;
      }
    }

    /** waitpid on a group. */
    method Next(pgid: int) returns (r: Option<Report>)
      modifies this`pending
      ensures ReportsFor(old(pending), pgid) == [] ==> r == None && pending == old(pending)
      ensures ReportsFor(old(pending), pgid) != [] ==>
                r == Some(old(pending)[pgid][0]) && pending == old(pending)[pgid := old(pending)[pgid][1..]]
    {
      if pgid in pending && pending[pgid] != [] {
        r := Some(pending[pgid][0]);
        pending := pending[pgid := pending[pgid][1..]];
      } else {
        r := None;
      }
    }
  }

  class JobTable {
    const isJobControlShell: bool
    var jobs: seq<Job>
    var nextJobId: int
    ghost var log: Log

    /** Numbers in the table increase, none has been given out twice, nothing done
        is kept, and the log keeps its promises. */
    ghost predicate Valid()
      reads this
    {
      && (forall i, k :: 0 <= i < k < |jobs| ==> jobs[i].id < jobs[k].id)
      && (forall i :: 0 <= i < |jobs| ==> jobs[i].id < nextJobId && !jobs[i].state.Done? && Tracked(jobs[i], log))
      && (forall e :: e in log && !e.Reaped? ==> e.job.id < nextJobId)
      && WellLogged(log)
    }

    constructor (isJobControlShell: bool)
      ensures Valid() && this.isJobControlShell == isJobControlShell && jobs == [] && nextJobId == 1 && log == []
    {
      this.isJobControlShell := isJobControlShell;
      jobs, nextJobId, log := [], 1, [];
    }

    method AddJob(pgid: int, pids: seq<int>, command: string, stopped: bool) returns (id: int)
      requires Valid()
      modifies this
      ensures Valid() && id == old(nextJobId) && nextJobId == id + 1
      ensures jobs == old(jobs) + [NewJob(id, pgid, pids, command, stopped)]
      ensures var j := jobs[|jobs| - 1];
              && j.id == id && j.pgid == pgid && j.pids == pids && j.command == command && !j.notified
              && |j.pidDone| == |pids| && (forall i :: 0 <= i < |pids| ==> !j.pidDone[i])
              && j.state == if stopped then Stopped else Running
      ensures log == old(log) + [Became(NewJob(id, pgid, pids, command, stopped))]
    {
      id := nextJobId;
      var job := NewJob(id, pgid, pids, command, stopped);
      nextJobId := nextJobId + 1;
      jobs := jobs + [job];
      NoneAbout(log, id);
      SnocLogged(log, Became(job));
      LastSnoc(log, Became(job), id);
      forall i | 0 <= i < |old(jobs)| ensures Tracked(jobs[i], log + [Became(job)]) {
        OthersStay(old(jobs)[i], log, Became(job));
      }
      log := log + [Became(job)];
    }

    method FindJob(id: int) returns (k: Option<nat>)
      ensures k.Some? ==> k.value < |jobs| && jobs[k.value].id == id
      ensures k.None? ==> forall i :: 0 <= i < |jobs| ==> jobs[i].id != id
    {
      var i := 0;
      while i < |jobs|
        invariant 0 <= i <= |jobs| && forall m :: 0 <= m < i ==> jobs[m].id != id
      {
        if jobs[i].id == id {
          return Some(i);
        }
        i := i + 1;
      }
      k := None;
    }

    method RemoveJob(id: int)
      requires Valid()
      modifies this`jobs
      ensures Valid()
      ensures forall j :: j in jobs <==> j in old(jobs) && j.id != id
    {
      var k := FindJob(id);
      if k.Some? {
        jobs := jobs[..k.value] + jobs[k.value + 1..];
      }
    }

    /** A job takes one report. */
    method Take(k: nat, r: Report)
      requires Busy(k)
      modifies this`jobs, this`log
      ensures Busy(k)
      ensures jobs == old(jobs)[k := Absorb(old(jobs)[k], r)] && log == LogReport(old(jobs)[k], r, old(log))
    {
      var j := jobs[k];
      AbsorbTracked(j, r, log);
      ghost var more := LogReport(j, r, log);
      KeepOthers(k, more);
      jobs := jobs[k := Absorb(j, r)];
      log := more;
    }

    /** In the middle of an update: jobs before k may be done already. */
    ghost predicate Busy(k: nat)
      reads this
    {
      && k < |jobs| && !jobs[k].state.Done? && Updating(k)
    }

    ghost predicate Updating(k: nat)
      reads this
    {
      && (forall i, m :: 0 <= i < m < |jobs| ==> jobs[i].id < jobs[m].id)
      && (forall i :: 0 <= i < |jobs| ==> jobs[i].id < nextJobId && Tracked(jobs[i], log))
      && (forall i :: k <= i < |jobs| ==> !jobs[i].state.Done?)
      && (forall e :: e in log && !e.Reaped? ==> e.job.id < nextJobId)
      && WellLogged(log)
    }

    lemma KeepOthers(k: nat, more: Log)
      requires Updating(k) && k < |jobs|
      requires more == log || exists e :: more == log + [e] && (!e.Reaped? ==> e.job.id == jobs[k].id)
      ensures forall i :: 0 <= i < |jobs| && i != k ==> Tracked(jobs[i], more)
    {
      if more != log {
        var e :| more == log + [e] && (!e.Reaped? ==> e.job.id == jobs[k].id);
        forall i | 0 <= i < |jobs| && i != k ensures Tracked(jobs[i], more) {
          OthersStay(jobs[i], log, e);
        }
      }
    }

    method SettleJob(k: nat)
      requires Busy(k)
      modifies this`jobs, this`log
      ensures Updating(k + 1)
      ensures jobs == old(jobs)[k := Settle(old(jobs)[k])] && log == LogSettle(old(jobs)[k], old(log))
    {
      var j := jobs[k];
      var allDone, i := true, 0;
      while i < |j.pidDone| && allDone
        invariant 0 <= i <= |j.pidDone| && (allDone <==> forall m :: 0 <= m < i ==> j.pidDone[m])
      {
        allDone := j.pidDone[i];
        i := i + 1;
      }
      assert allDone <==> AllDone(j);
      if allDone {
        ChangeTracked(j, Done, log);
        ghost var more := LogChange(j, Done, log);
        KeepOthers(k, more);
        jobs := jobs[k := j.(state := Done, notified := false)];
        log := more;
      }
    }

    method UpdateAndNotifyJobs(queue: WaitQueue) returns (notices: seq<Notice>)
      requires Valid()
      modifies this, queue
      ensures Valid() && nextJobId == old(nextJobId) && queue.raised == old(queue.raised)
      ensures Shaped(old(jobs))
      ensures var (refreshed, p) := RefreshAll(old(jobs), old(queue.pending));
              notices == NoticesOf(refreshed) && jobs == Survivors(refreshed) && queue.pending == p
              && Told(refreshed, notices, jobs)
      ensures forall i :: 0 <= i < |old(jobs)| ==> LastIsTold(log, old(jobs)[i].id)
      ensures forall j :: j in jobs && j.state == Stopped ==> j.notified
      ensures Printed(log) == Printed(old(log)) + notices
      ensures Reaps(log) == Reaps(old(log)) + TakenBy(old(jobs), old(queue.pending))
    {
      hide Valid, Updating, RefreshAll, LogRefresh, Told, LastIsTold, Announcements, Printed, Reaps, TakenBy;
      RefreshJobs(queue);
      RefreshPrinted(old(jobs), old(queue.pending), old(log));
      AnnouncementsPrinted(log, jobs);
      NoneGoesUntold();
      notices := AnnounceAll();
    }

    /** The first pass: every job takes the reports of its group. */
    method RefreshJobs(queue: WaitQueue)
      requires Valid()
      modifies this`jobs, this`log, queue
      ensures Updating(|jobs|) && queue.raised == old(queue.raised)
      ensures Shaped(old(jobs)) && RefreshAll(old(jobs), old(queue.pending)) == (jobs, queue.pending)
      ensures log == LogRefresh(old(jobs), old(queue.pending), old(log))
    {
      hide Valid, Updating, Refreshing, Tracked, WellLogged, AbsorbAll, Settle, RefreshAll, LogRefresh, LogSettle, LogReports;
      ShapedJobs();
      var k := 0;
      StartRefresh(jobs, queue.pending, log);
      while k < |jobs|
        invariant 0 <= k <= |jobs| && Updating(k) && Shaped(jobs) && queue.raised == old(queue.raised)
        invariant Refreshing(jobs, k, queue.pending, log, old(jobs), old(queue.pending), old(log))
      {
        RefreshStep(jobs, k, queue.pending, log, old(jobs), old(queue.pending), old(log));
        UpdateJob(k, queue);
        k := k + 1;
      }
      EndRefresh(jobs, k, queue.pending, log, old(jobs), old(queue.pending), old(log));
    }

    /** The second pass tells of everything the first has found. */
    lemma NoneGoesUntold()
      requires Updating(|jobs|)
      ensures Told(jobs, NoticesOf(jobs), Survivors(jobs))
      ensures forall i :: 0 <= i < |jobs| ==> LastIsTold(log + Announcements(jobs), jobs[i].id)
      ensures forall j :: j in Survivors(jobs) && j.state == Stopped ==> j.notified
    {
      hide Announcements, WellLogged, PidsReaped, LastAbout;
      UpdateTells(jobs);
      forall i | 0 <= i < |jobs| ensures LastIsTold(log + Announcements(jobs), jobs[i].id) {
        assert Tracked(jobs[i], log);
        AnnouncementsTell(log, jobs, i);
      }
    }

    method UpdateJob(k: nat, queue: WaitQueue)
      requires Updating(k) && k < |jobs| && Shaped(jobs)
      modifies this`jobs, this`log, queue
      ensures Updating(k + 1) && Shaped(jobs) && queue.raised == old(queue.raised)
      ensures var j := old(jobs)[k];
              var rs := ReportsFor(old(queue.pending), j.pgid);
              && jobs == old(jobs)[k := Settle(AbsorbAll(j, rs))]
              && log == LogSettle(AbsorbAll(j, rs), LogReports(j, rs, old(log)))
              && queue.pending == Drain(old(queue.pending), j.pgid)
    {
      hide Tracked, WellLogged, AbsorbAll, LogReports, LogSettle;
      Reap(k, queue);
      SettleJob(k);
    }

    lemma ShapedJobs()
      requires Valid()
      ensures Shaped(jobs) && Updating(0) && forall i :: 0 <= i < |jobs| ==> !jobs[i].state.Done?
    {
      forall i | 0 <= i < |jobs| ensures |jobs[i].pidDone| == |jobs[i].pids| {
        assert Tracked(jobs[i], log);
      }
    }

    /** Every report of the job's group, in order. */
    method Reap(k: nat, queue: WaitQueue)
      requires Busy(k) && Shaped(jobs)
      modifies this`jobs, this`log, queue
      ensures Busy(k) && Shaped(jobs) && queue.raised == old(queue.raised)
      ensures var pgid := old(jobs)[k].pgid;
              var rs := ReportsFor(old(queue.pending), pgid);
              && jobs == old(jobs)[k := AbsorbAll(old(jobs)[k], rs)]
              && log == LogReports(old(jobs)[k], rs, old(log))
              && queue.pending == Drain(old(queue.pending), pgid)
    {
      hide Updating, Absorb, LogReport;
      var pgid := jobs[k].pgid;
      var r := queue.Next(pgid);
      while r.Some?
        invariant Busy(k) && Shaped(jobs) && |jobs| == |old(jobs)| && jobs[k].pgid == pgid && queue.raised == old(queue.raised)
        invariant Drain(queue.pending, pgid) == Drain(old(queue.pending), pgid)
        invariant jobs == old(jobs)[k := jobs[k]]
        invariant AbsorbAll(jobs[k], (if r.Some? then [r.value] else []) + ReportsFor(queue.pending, pgid))
               == AbsorbAll(old(jobs)[k], ReportsFor(old(queue.pending), pgid))
        invariant LogReports(jobs[k], (if r.Some? then [r.value] else []) + ReportsFor(queue.pending, pgid), log)
               == LogReports(old(jobs)[k], ReportsFor(old(queue.pending), pgid), old(log))
        invariant r.None? ==> ReportsFor(queue.pending, pgid) == []
        decreases |ReportsFor(queue.pending, pgid)| + if r.Some? then 1 else 0
      {
        ghost var rest := ReportsFor(queue.pending, pgid);
        assert ([r.value] + rest)[1..] == rest;
        Take(k, r.value);
        r := queue.Next(pgid);
        assert (if r.Some? then [r.value] else []) + ReportsFor(queue.pending, pgid) == rest;
      }
      assert [] + ReportsFor(queue.pending, pgid) == [];
    }

    /** The second pass: notices are printed, and jobs that are done dropped. */
    method AnnounceAll() returns (notices: seq<Notice>)
      requires Updating(|jobs|)
      modifies this`jobs, this`log
      ensures Valid()
      ensures notices == NoticesOf(old(jobs)) && jobs == Survivors(old(jobs)) && log == old(log) + Announcements(old(jobs))
    {
      hide Announcements, Announcing, Updating, Survivors, NoticesOf, Valid, ToAnnounce;
      notices := [];
      var kept: seq<Job> := [];
      var i := 0;
      StartPass();
      while i < |jobs|
        invariant 0 <= i <= |jobs| && jobs == old(jobs)
        invariant log + Announcements(jobs[i..]) == old(log) + Announcements(jobs)
        invariant notices + NoticesOf(jobs[i..]) == NoticesOf(jobs) && kept + Survivors(jobs[i..]) == Survivors(jobs)
        invariant Announcing(kept + jobs[i..], |kept|, log, nextJobId)
      {
        var j := jobs[i];
        SplitFirst(jobs, i, notices, kept, log);
        PassOne(kept, j, jobs[i + 1..], log, nextJobId);
        ghost var logNow := if ToAnnounce(j) then log + [Announced(j)] else log;
        if ToAnnounce(j) {
          notices := notices + [NoticeOf(j)];
          j := j.(notified := true);
        }
        if !j.state.Done? {
          kept := kept + [j];
        }
        log := logNow;
        i := i + 1;
      }
      EndPass(kept, notices, jobs[i..], log, nextJobId);
      jobs := kept;
      PassIsValid();
    }

    lemma PassIsValid()
      requires Announcing(jobs, |jobs|, log, nextJobId)
      ensures Valid()
    {
      hide Tracked, WellLogged;
    }

    lemma StartPass()
      requires Updating(|jobs|)
      ensures Announcing([] + jobs[0..], 0, log, nextJobId)
      ensures [] + NoticesOf(jobs[0..]) == NoticesOf(jobs) && [] + Survivors(jobs[0..]) == Survivors(jobs)
      ensures log + Announcements(jobs[0..]) == log + Announcements(jobs)
    {
      hide Tracked, WellLogged;
      assert [] + jobs[0..] == jobs && jobs[0..] == jobs;
    }

    /** bg and fg. In the background the job goes on under its number; in the
        foreground it leaves the table, and a stop puts it back under a new one. */
    method ResumeJob(k: nat, foreground: bool, queue: WaitQueue) returns (status: int)
      requires Valid() && k < |jobs| && jobs[k].pids != []
      modifies this, queue
      ensures Valid()
      ensures !foreground ==>
                && status == 0 && queue.pending == old(queue.pending) && nextJobId == old(nextJobId)
                && jobs == old(jobs)[k := old(jobs)[k].(state := Running, notified := false)]
                && log == LogChange(old(jobs)[k], Running, old(log))
      ensures foreground ==>
                var j := old(jobs)[k];
                WaitedFor(j.pgid, j.pids, j.command, status, old(jobs)[..k] + old(jobs)[k + 1..], old(nextJobId), old(log),
                          old(queue.pending), old(queue.raised), queue)
    {
      hide Tracked, WellLogged, WaitedFor;
      if !foreground {
        ResumeInBackground(k);
        return 0;
      }
      var j := jobs[k];
      jobs := jobs[..k] + jobs[k + 1..];
      status := WaitForJob(j.pgid, j.pids, j.command, queue);
    }

    /** What waiting for a job comes to. With job control a stop registers the job;
        without it the processes are waited for one by one. */
    ghost predicate WaitedFor(pgid: int, pids: seq<int>, command: string, status: int,
                              jobs0: seq<Job>, nextId0: int, log0: Log, p0: Pending, raised0: nat, queue: WaitQueue)
      reads this, queue
    {
      if isJobControlShell && pids != [] then
        var w := WaitAll(pids, seq(|pids|, _ => false), 1, ReportsFor(p0, pgid));
        var job := NewJob(nextId0, pgid, pids, command, true);
        && ReportsFor(queue.pending, pgid) == w.rest && queue.raised == raised0
        && if w.stopped then status == 128 + SIGTSTP && jobs == jobs0 + [job] && log == log0 + [Became(job)]
           else status == w.lastStatus && jobs == jobs0 && log == log0
      else
        var w := WaitEach(pids, 1, ReportsFor(p0, pgid));
        && status == w.lastStatus && jobs == jobs0 && log == log0
        && ReportsFor(queue.pending, pgid) == w.rest && queue.raised == raised0 + w.raised
    }

    method ResumeInBackground(k: nat)
      requires Valid() && k < |jobs|
      modifies this`jobs, this`log
      ensures Valid() && log == LogChange(old(jobs)[k], Running, old(log))
      ensures jobs == old(jobs)[k := old(jobs)[k].(state := Running, notified := false)]
    {
      hide Tracked, WellLogged;
      var j := jobs[k];
      assert Tracked(j, log);
      ChangeTracked(j, Running, log);
      ghost var more := LogChange(j, Running, log);
      KeepOthers(k, more);
      if j.state.Running? {
        RunningUnnotified(j, log);
      }
      jobs := jobs[k := j.(state := Running, notified := false)];
      log := more;
    }

    method WaitForJob(pgid: int, pids: seq<int>, command: string, queue: WaitQueue) returns (status: int)
      requires Valid() && (isJobControlShell ==> pids != [])
      modifies this, queue
      ensures Valid()
      ensures WaitedFor(pgid, pids, command, status, old(jobs), old(nextJobId), old(log),
                        old(queue.pending), old(queue.raised), queue)
    {
      hide WaitAll, WaitEach;
      if !isJobControlShell {
        status := queue.WaitForEach(pgid, pids);
        return;
      }
      var stopped: bool;
      stopped, status := WaitReports(pgid, pids, queue);
      if stopped {
        var _ := AddJob(pgid, pids, command, true);
        status := 128 + SIGTSTP;
      }
    }
  }

  method WaitReports(pgid: int, pids: seq<int>, queue: WaitQueue) returns (stopped: bool, lastStatus: int)
    requires pids != []
    modifies queue`pending
    ensures WaitAll(pids, seq(|pids|, _ => false), 1, ReportsFor(old(queue.pending), pgid))
         == Waited(stopped, lastStatus, ReportsFor(queue.pending, pgid))
  {
    var done := seq(|pids|, _ => false);
    stopped, lastStatus := false, 1;
    while exists i :: 0 <= i < |done| && !done[i]
      invariant |done| == |pids|
      invariant WaitAll(pids, done, lastStatus, ReportsFor(queue.pending, pgid))
             == WaitAll(pids, seq(|pids|, _ => false), 1, ReportsFor(old(queue.pending), pgid))
      decreases |ReportsFor(queue.pending, pgid)|
    {
      var r := queue.Next(pgid);
      if r.None? {
        return;
      }
      if r.value.change.StoppedBy? {
        stopped := true;
        return;
      }
      if !r.value.change.Continued? {
        done := MarkFirst(pids, done, r.value.pid, 0);
        if r.value.pid == pids[|pids| - 1] {
          lastStatus := StatusFromWait(r.value.change);
        }
      }
    }
  }

  lemma {:induction false} NoneAbout(log: Log, id: int)
    requires forall e :: e in log && !e.Reaped? ==> e.job.id < id
    ensures LastAbout(log, id) == None
    decreases |log|
  {
    if log != [] {
      NoneAbout(log[..|log| - 1], id);
      assert log[|log| - 1] in log;
    }
  }

  lemma RunningUnnotified(j: Job, log: Log)
    requires Tracked(j, log) && WellLogged(log) && j.state.Running?
    ensures !j.notified
  {
    if j.notified {
      LastIsLogged(log, j.id);
    }
  }

  lemma {:induction false} LastIsLogged(log: Log, id: int)
    requires WellLogged(log)
    ensures var p := LastAbout(log, id); p.Some? && p.value.Announced? ==> !p.value.job.state.Running?
    decreases |log|
  {
    if log != [] {
      LastIsLogged(log[..|log| - 1], id);
    }
  }

  /** In the middle of the first pass: jobs before k are refreshed. */
  ghost predicate Refreshing(jobs: seq<Job>, k: nat, p: Pending, log: Log, jobs0: seq<Job>, p0: Pending, log0: Log) {
    && Shaped(jobs) && Shaped(jobs0) && k <= |jobs|
    && (forall i :: k <= i < |jobs| ==> !jobs[i].state.Done?)
    && RefreshAll(jobs0, p0) == (jobs[..k] + RefreshAll(jobs[k..], p).0, RefreshAll(jobs[k..], p).1)
    && LogRefresh(jobs0, p0, log0) == LogRefresh(jobs[k..], p, log)
  }

  lemma StartRefresh(jobs: seq<Job>, p: Pending, log: Log)
    requires Shaped(jobs) && forall i :: 0 <= i < |jobs| ==> !jobs[i].state.Done?
    ensures Refreshing(jobs, 0, p, log, jobs, p, log)
  {
    hide RefreshAll;
    assert jobs[0..] == jobs && jobs[..0] + RefreshAll(jobs, p).0 == RefreshAll(jobs, p).0;
  }

  lemma RefreshStep(jobs: seq<Job>, k: nat, p: Pending, log: Log, jobs0: seq<Job>, p0: Pending, log0: Log)
    requires Refreshing(jobs, k, p, log, jobs0, p0, log0) && k < |jobs|
    ensures var j := jobs[k];
            var rs := ReportsFor(p, j.pgid);
            Refreshing(jobs[k := Settle(AbsorbAll(j, rs))], k + 1, Drain(p, j.pgid),
                       LogSettle(AbsorbAll(j, rs), LogReports(j, rs, log)), jobs0, p0, log0)
  {
    hide RefreshAll, AbsorbAll, Drain, LogRefresh, LogReports, LogSettle;
    var j := jobs[k];
    var j1 := Settle(AbsorbAll(j, ReportsFor(p, j.pgid)));
    var next := jobs[k := j1];
    RefreshFirst(jobs, k, p, log);
    assert next[..k + 1] == jobs[..k] + [j1] && next[k + 1..] == jobs[k + 1..];
    var rest := RefreshAll(jobs[k + 1..], Drain(p, j.pgid)).0;
    assert jobs[..k] + ([j1] + rest) == jobs[..k] + [j1] + rest;
  }

  lemma EndRefresh(jobs: seq<Job>, k: nat, p: Pending, log: Log, jobs0: seq<Job>, p0: Pending, log0: Log)
    requires Refreshing(jobs, k, p, log, jobs0, p0, log0) && k == |jobs|
    ensures RefreshAll(jobs0, p0) == (jobs, p) && LogRefresh(jobs0, p0, log0) == log
  {
    assert jobs[k..] == [] && jobs[..k] + [] == jobs;
  }

  lemma RefreshFirst(jobs: seq<Job>, k: nat, p: Pending, log: Log)
    requires k < |jobs| && Shaped(jobs) && !jobs[k].state.Done?
    ensures var j := jobs[k];
            var rs := ReportsFor(p, j.pgid);
            var (rest, q) := RefreshAll(jobs[k + 1..], Drain(p, j.pgid));
            && RefreshAll(jobs[k..], p) == ([Settle(AbsorbAll(j, rs))] + rest, q)
            && LogRefresh(jobs[k..], p, log)
               == LogRefresh(jobs[k + 1..], Drain(p, j.pgid), LogSettle(AbsorbAll(j, rs), LogReports(j, rs, log)))
  {
    assert jobs[k..][1..] == jobs[k + 1..];
  }

  /** The state of the second pass: jobs before n are settled and kept. */
  ghost predicate Announcing(jobs: seq<Job>, n: nat, log: Log, nextJobId: int) {
    && n <= |jobs|
    && (forall i, m :: 0 <= i < m < |jobs| ==> jobs[i].id < jobs[m].id)
    && (forall i :: 0 <= i < |jobs| ==> jobs[i].id < nextJobId && Tracked(jobs[i], log))
    && (forall i :: 0 <= i < n ==> !jobs[i].state.Done?)
    && (forall e :: e in log && !e.Reaped? ==> e.job.id < nextJobId)
    && WellLogged(log)
  }

  lemma AnnounceOne(jobs: seq<Job>, n: nat, log: Log, nextJobId: int)
    requires Announcing(jobs, n, log, nextJobId) && n < |jobs| && ToAnnounce(jobs[n])
    ensures Announcing(jobs[n := jobs[n].(notified := true)], n, log + [Announced(jobs[n])], nextJobId)
  {
    hide PidsReaped, WellLogged;
    var j := jobs[n];
    var e := Announced(j);
    SnocLogged(log, e);
    LastSnoc(log, e, j.id);
    ReapedStays(log, e, j);
    SameReaped(log + [e], j, j.(notified := true));
    forall i | 0 <= i < |jobs| && i != n ensures Tracked(jobs[i], log + [e]) {
      OthersStay(jobs[i], log, e);
    }
  }

  lemma DropOne(jobs: seq<Job>, n: nat, log: Log, nextJobId: int)
    requires Announcing(jobs, n, log, nextJobId) && n < |jobs|
    ensures Announcing(jobs[..n] + jobs[n + 1..], n, log, nextJobId)
  {
    hide Tracked, WellLogged;
  }

  lemma KeepOne(jobs: seq<Job>, n: nat, log: Log, nextJobId: int)
    requires Announcing(jobs, n, log, nextJobId) && n < |jobs| && !jobs[n].state.Done?
    ensures Announcing(jobs, n + 1, log, nextJobId)
  {
    hide Tracked, WellLogged;
  }

  /** One job of the second pass. */
  lemma PassOne(kept: seq<Job>, j: Job, rest: seq<Job>, log: Log, nextJobId: int)
    requires Announcing(kept + ([j] + rest), |kept|, log, nextJobId)
    ensures var log1 := if ToAnnounce(j) then log + [Announced(j)] else log;
            var kept1 := if j.state.Done? then kept else kept + [Announce(j)];
            Announcing(kept1 + rest, |kept1|, log1, nextJobId)
  {
    hide Announcing;
    var all := kept + ([j] + rest);
    var n := |kept|;
    assert all[n] == j;
    var log1 := log;
    var all1 := all;
    if ToAnnounce(j) {
      AnnounceOne(all, n, log, nextJobId);
      log1 := log + [Announced(j)];
      all1 := all[n := j.(notified := true)];
    }
    assert all1 == kept + ([Announce(j)] + rest);
    if j.state.Done? {
      DropOne(all1, n, log1, nextJobId);
      assert all1[..n] + all1[n + 1..] == kept + rest;
    } else {
      KeepOne(all1, n, log1, nextJobId);
      assert all1 == kept + [Announce(j)] + rest;
    }
  }

  lemma SplitFirst(jobs: seq<Job>, i: nat, notices: seq<Notice>, kept: seq<Job>, log: Log)
    requires i < |jobs|
    ensures kept + jobs[i..] == kept + ([jobs[i]] + jobs[i + 1..])
    ensures var j := jobs[i];
            notices + NoticesOf(jobs[i..])
            == (if ToAnnounce(j) then notices + [NoticeOf(j)] else notices) + NoticesOf(jobs[i + 1..])
    ensures kept + Survivors(jobs[i..])
            == (if jobs[i].state.Done? then kept else kept + [Announce(jobs[i])]) + Survivors(jobs[i + 1..])
    ensures log + Announcements(jobs[i..])
            == (if ToAnnounce(jobs[i]) then log + [Announced(jobs[i])] else log) + Announcements(jobs[i + 1..])
  {
    hide ToAnnounce, Announce;
    var j, rest := jobs[i], jobs[i + 1..];
    assert jobs[i..] == [j] + rest && jobs[i..][1..] == rest;
    Regroup(notices, if ToAnnounce(j) then [NoticeOf(j)] else [], NoticesOf(rest));
    Regroup(kept, if j.state.Done? then [] else [Announce(j)], Survivors(rest));
    Regroup(log, if ToAnnounce(j) then [Announced(j)] else [], Announcements(rest));
  }

  lemma EndPass(kept: seq<Job>, notices: seq<Notice>, rest: seq<Job>, log: Log, nextJobId: int)
    requires rest == [] && Announcing(kept + rest, |kept|, log, nextJobId)
    ensures Announcing(kept, |kept|, log, nextJobId)
    ensures notices + NoticesOf(rest) == notices && kept + Survivors(rest) == kept && log + Announcements(rest) == log
  {
    assert kept + rest == kept;
  }
}
