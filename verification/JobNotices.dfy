/** What an update of the job table tells, in terms of the jobs and reports alone. */
module JobNotices {
  import opened Prelude
  import opened JobSpec
  import opened JobWaiting

  predicate Increasing(jobs: seq<Job>) {
    forall i, k :: 0 <= i < k < |jobs| ==> jobs[i].id < jobs[k].id
  }

  function About(notices: seq<Notice>, id: int): seq<Notice> {
    if notices == [] then []
    else (if notices[0].id == id then [notices[0]] else []) + About(notices[1..], id)
  }

  /** A job that has stopped or become done since it was last announced is told of
      once, any other is not. */
  predicate ToldOf(j: Job, notices: seq<Notice>) {
    About(notices, j.id)
    == if !j.notified && (j.state == Stopped || j.state == Done) then [Notice(j.id, j.state, j.exitStatus, j.command)] else []
  }

  /** k is j as it stays in the table. */
  predicate StaysAs(j: Job, k: Job) {
    j.state != Done && k == j.(notified := j.notified || j.state == Stopped)
  }

  /** The notices an update prints and the table it leaves, from the jobs as the
      reports have made them. */
  ghost predicate Told(jobs: seq<Job>, notices: seq<Notice>, after: seq<Job>) {
    && (forall i :: 0 <= i < |jobs| ==> ToldOf(jobs[i], notices))
    && (forall n :: 0 <= n < |notices| ==> exists i :: 0 <= i < |jobs| && jobs[i].id == notices[n].id)
    && (forall i :: 0 <= i < |jobs| && jobs[i].state != Done ==> exists k :: 0 <= k < |after| && StaysAs(jobs[i], after[k]))
    && (forall k :: 0 <= k < |after| ==> exists i :: 0 <= i < |jobs| && StaysAs(jobs[i], after[k]))
  }

  lemma UpdateTells(jobs: seq<Job>)
    requires Increasing(jobs)
    ensures Told(jobs, NoticesOf(jobs), Survivors(jobs))
  {
    hide StaysAs, ToldOf;
    forall i | 0 <= i < |jobs| ensures ToldOf(jobs[i], NoticesOf(jobs)) {
      EachIsTold(jobs, i);
    }
    forall i | 0 <= i < |jobs| && jobs[i].state != Done
      ensures exists k :: 0 <= k < |Survivors(jobs)| && StaysAs(jobs[i], Survivors(jobs)[k])
    {
      var k := StaysWhere(jobs, i);
    }
    forall k | 0 <= k < |Survivors(jobs)| ensures exists i :: 0 <= i < |jobs| && StaysAs(jobs[i], Survivors(jobs)[k]) {
      var i := StaysFrom(jobs, k);
    }
    forall n | 0 <= n < |NoticesOf(jobs)| ensures exists i :: 0 <= i < |jobs| && jobs[i].id == NoticesOf(jobs)[n].id {
      var i := NoticeFrom(jobs, n);
    }
  }

  lemma {:induction false} EachIsTold(jobs: seq<Job>, i: nat)
    requires Increasing(jobs) && i < |jobs|
    ensures ToldOf(jobs[i], NoticesOf(jobs))
    decreases |jobs|
  {
    hide About;
    AboutFirst(if ToAnnounce(jobs[0]) then [NoticeOf(jobs[0])] else [], NoticesOf(jobs[1..]), jobs[i].id);
    if i == 0 {
      NoneAboutFirst(jobs[1..], jobs[0].id);
    } else {
      EachIsTold(jobs[1..], i - 1);
    }
  }

  lemma {:induction false} NoticeFrom(jobs: seq<Job>, n: nat) returns (i: nat)
    requires n < |NoticesOf(jobs)|
    ensures i < |jobs| && jobs[i].id == NoticesOf(jobs)[n].id
    decreases |jobs|
  {
    var first := if ToAnnounce(jobs[0]) then 1 else 0;
    if n < first {
      i := 0;
    } else {
      i := NoticeFrom(jobs[1..], n - first);
      i := i + 1;
    }
  }

  lemma {:induction false} StaysWhere(jobs: seq<Job>, i: nat) returns (k: nat)
    requires i < |jobs| && jobs[i].state != Done
    ensures k < |Survivors(jobs)| && StaysAs(jobs[i], Survivors(jobs)[k])
    decreases |jobs|
  {
    if i == 0 {
      k := 0;
    } else {
      k := StaysWhere(jobs[1..], i - 1);
      k := if jobs[0].state.Done? then k else k + 1;
    }
  }

  lemma {:induction false} StaysFrom(jobs: seq<Job>, k: nat) returns (i: nat)
    requires k < |Survivors(jobs)|
    ensures i < |jobs| && StaysAs(jobs[i], Survivors(jobs)[k])
    decreases |jobs|
  {
    if k == 0 && !jobs[0].state.Done? {
      i := 0;
    } else {
      i := StaysFrom(jobs[1..], if jobs[0].state.Done? then k else k - 1);
      i := i + 1;
    }
  }

  lemma AboutFirst(first: seq<Notice>, rest: seq<Notice>, id: int)
    requires |first| <= 1
    ensures About(first + rest, id) == (if first != [] && first[0].id == id then first else []) + About(rest, id)
  {
    if first == [] {
      assert first + rest == rest;
    } else {
      assert (first + rest)[0] == first[0] && (first + rest)[1..] == rest && first == [first[0]];
    }
  }

  lemma {:induction false} NoneAboutFirst(jobs: seq<Job>, id: int)
    requires Increasing(jobs) && forall j :: j in jobs ==> j.id != id
    ensures About(NoticesOf(jobs), id) == []
    decreases |jobs|
  {
    if jobs != [] {
      NoneAboutFirst(jobs[1..], id);
      AboutFirst(if ToAnnounce(jobs[0]) then [NoticeOf(jobs[0])] else [], NoticesOf(jobs[1..]), id);
    }
  }

  // ------------------------------------------------- what reports come to

  predicate IsMove(c: Change) {
    c.Continued? || c.StoppedBy?
  }

  lemma {:induction false} LastMoveDecides(j: Job, rs: seq<Report>, m: nat)
    requires |j.pidDone| == |j.pids| && j.state != Done
    ensures (forall i :: 0 <= i < |rs| ==> !IsMove(rs[i].change)) ==> AbsorbAll(j, rs).state == j.state
    ensures m < |rs| && IsMove(rs[m].change) && (forall i :: m < i < |rs| ==> !IsMove(rs[i].change)) ==>
              AbsorbAll(j, rs).state == if rs[m].change.StoppedBy? then Stopped else Running
    decreases |rs|
  {
    if rs != [] {
      var k := Absorb(j, rs[0]);
      assert forall i :: 0 <= i < |rs| - 1 ==> rs[1..][i] == rs[i + 1];
      LastMoveDecides(k, rs[1..], if m == 0 then 0 else m - 1);
    }
  }

  lemma {:induction false} OtherFieldsStay(j: Job, rs: seq<Report>)
    requires |j.pidDone| == |j.pids|
    ensures var k := AbsorbAll(j, rs);
            k.id == j.id && k.pgid == j.pgid && k.pids == j.pids && k.command == j.command
    ensures j.notified && AbsorbAll(j, rs).notified ==> AbsorbAll(j, rs).state == j.state
    ensures !j.notified ==> !AbsorbAll(j, rs).notified
    decreases |rs|
  {
    if rs != [] {
      OtherFieldsStay(Absorb(j, rs[0]), rs[1..]);
    }
  }

  lemma {:induction false} StatusOfLast(j: Job, rs: seq<Report>, m: nat)
    requires |j.pidDone| == |j.pids| && j.pids != [] && Distinct(j.pids)
    ensures j.pidDone[|j.pids| - 1] || !HasEnd(rs, j.pids[|j.pids| - 1]) ==> AbsorbAll(j, rs).exitStatus == j.exitStatus
    ensures !j.pidDone[|j.pids| - 1] && m < |rs| && IsEndReport(rs[m]) && rs[m].pid == j.pids[|j.pids| - 1]
            && !HasEnd(rs[..m], j.pids[|j.pids| - 1]) ==>
              AbsorbAll(j, rs).exitStatus == match rs[m].change case Exited(code) => code case Signaled(s) => 128 + s
    decreases |rs|
  {
    hide HasEnd;
    var n := |j.pids| - 1;
    if rs != [] {
      var k := Absorb(j, rs[0]);
      HasEndFirst(rs, j.pids[n]);
      DoneIsReported(j, [rs[0]], n);
      assert AbsorbAll(k, [rs[0]][1..]) == k;
      HasEndFirst([rs[0]], j.pids[n]);
      NoneHasEnd(j.pids[n]);
      if 0 < m < |rs| {
        HasEndFirst(rs[..m], j.pids[n]);
        assert rs[..m][1..] == rs[1..][..m - 1];
        StatusOfLast(k, rs[1..], m - 1);
      } else {
        StatusOfLast(k, rs[1..], 0);
      }
    } else {
      NoneHasEnd(j.pids[n]);
    }
  }

  /** A job after the reports of its group: done if and only if each of its processes
      was done or is reported to have ended, otherwise as the last stop or continue
      says; with the status of its last process, and otherwise the same job. */
  lemma ReportsDecide(j: Job, rs: seq<Report>, move: nat, end: nat)
    requires |j.pidDone| == |j.pids| && j.pids != [] && Distinct(j.pids) && j.state != Done
    ensures var k, last := Settle(AbsorbAll(j, rs)), |j.pids| - 1;
            && (k.state == Done <==> forall i :: 0 <= i < |j.pids| ==> j.pidDone[i] || HasEnd(rs, j.pids[i]))
            && (k.state != Done && move < |rs| && IsMove(rs[move].change)
                && (forall i :: move < i < |rs| ==> !IsMove(rs[i].change)) ==>
                  k.state == if rs[move].change.StoppedBy? then Stopped else Running)
            && (k.state != Done && (forall i :: 0 <= i < |rs| ==> !IsMove(rs[i].change)) ==> k.state == j.state)
            && (j.pidDone[last] || !HasEnd(rs, j.pids[last]) ==> k.exitStatus == j.exitStatus)
            && (!j.pidDone[last] && end < |rs| && IsEndReport(rs[end]) && rs[end].pid == j.pids[last]
                && !HasEnd(rs[..end], j.pids[last]) ==>
                  k.exitStatus == match rs[end].change case Exited(code) => code case Signaled(s) => 128 + s)
            && k.id == j.id && k.pgid == j.pgid && k.pids == j.pids && k.command == j.command
            && (k.state != j.state ==> !k.notified) && (!j.notified ==> !k.notified)
  {
    hide AbsorbAll, HasEnd;
    LastMoveDecides(j, rs, move);
    StatusOfLast(j, rs, end);
    OtherFieldsStay(j, rs);
    StaysNotDone(j, rs);
    forall i | 0 <= i < |j.pids| ensures AbsorbAll(j, rs).pidDone[i] <==> j.pidDone[i] || HasEnd(rs, j.pids[i]) {
      DoneIsReported(j, rs, i);
    }
    assert AllDone(AbsorbAll(j, rs)) <==> forall i :: 0 <= i < |j.pids| ==> AbsorbAll(j, rs).pidDone[i];
  }

  predicate OwnGroups(jobs: seq<Job>) {
    forall m, n :: 0 <= m < n < |jobs| ==> jobs[m].pgid != jobs[n].pgid
  }

  lemma FirstTakesItsOwn(jobs: seq<Job>, p: Pending)
    requires jobs != [] && Shaped(jobs)
    ensures var j := jobs[0];
            var (rest, q) := RefreshAll(jobs[1..], if j.state == Done then p else Drain(p, j.pgid));
            RefreshAll(jobs, p)
            == ([if j.state == Done then j else Settle(AbsorbAll(j, ReportsFor(p, j.pgid)))] + rest, q)
  {
    hide AbsorbAll, Settle, Drain, ReportsFor;
  }

  /** Jobs of different groups: each takes exactly the reports of its own. */
  lemma {:induction false} EachTakesItsOwn(jobs: seq<Job>, p: Pending, i: nat)
    requires Shaped(jobs) && OwnGroups(jobs) && i < |jobs| && jobs[i].state != Done
    ensures RefreshAll(jobs, p).0[i] == Settle(AbsorbAll(jobs[i], ReportsFor(p, jobs[i].pgid)))
    ensures ReportsFor(RefreshAll(jobs, p).1, jobs[i].pgid) == []
    decreases |jobs|
  {
    hide RefreshAll, AbsorbAll, Settle;
    FirstTakesItsOwn(jobs, p);
    var left := if jobs[0].state == Done then p else Drain(p, jobs[0].pgid);
    if i == 0 {
      OthersAreLeft(jobs[1..], left, jobs[0].pgid);
    } else {
      assert jobs[0].pgid != jobs[i].pgid;
      EachTakesItsOwn(jobs[1..], left, i - 1);
    }
  }

  lemma {:induction false} OthersAreLeft(jobs: seq<Job>, p: Pending, pgid: int)
    requires Shaped(jobs) && forall m :: 0 <= m < |jobs| ==> jobs[m].pgid != pgid
    ensures ReportsFor(RefreshAll(jobs, p).1, pgid) == ReportsFor(p, pgid)
    decreases |jobs|
  {
    hide RefreshAll, AbsorbAll, Settle;
    if jobs == [] {
      NoneRefreshed(p);
    } else {
      FirstTakesItsOwn(jobs, p);
      OthersAreLeft(jobs[1..], if jobs[0].state == Done then p else Drain(p, jobs[0].pgid), pgid);
    }
  }

  lemma NoneRefreshed(p: Pending)
    ensures RefreshAll([], p) == ([], p)
  {
  }

  // ------------------------------------------------------ nothing goes untold

  /** The last thing that happened to the job was announced, unless it runs. */
  ghost predicate LastIsTold(log: Log, id: int) {
    var e := LastAbout(log, id);
    e.Some? && (e.value.Announced? || e.value.job.state == Running)
  }

  lemma {:induction false} AnnouncementsTell(log: Log, jobs: seq<Job>, i: nat)
    requires Increasing(jobs) && i < |jobs|
    requires var e := LastAbout(log, jobs[i].id);
             e.Some? && e.value.job.state == jobs[i].state && e.value.Announced? == jobs[i].notified
    ensures LastIsTold(log + Announcements(jobs), jobs[i].id)
    decreases |jobs|
  {
    hide LastAbout;
    var first := if ToAnnounce(jobs[0]) then [Announced(jobs[0])] else [];
    if first != [] {
      LastSnoc(log, first[0], jobs[i].id);
    }
    assert log + Announcements(jobs) == (log + first) + Announcements(jobs[1..]) && log + [] == log;
    if i == 0 {
      OthersAnnounced(log + first, jobs[1..], jobs[0].id);
    } else {
      AnnouncementsTell(log + first, jobs[1..], i - 1);
    }
  }

  lemma {:induction false} OthersAnnounced(log: Log, jobs: seq<Job>, id: int)
    requires forall i :: 0 <= i < |jobs| ==> jobs[i].id != id
    ensures LastAbout(log + Announcements(jobs), id) == LastAbout(log, id)
    decreases |jobs|
  {
    hide LastAbout;
    if jobs == [] {
      assert log + [] == log;
    } else {
      var first := if ToAnnounce(jobs[0]) then [Announced(jobs[0])] else [];
      if first != [] {
        LastSnoc(log, first[0], id);
      }
      assert log + Announcements(jobs) == (log + first) + Announcements(jobs[1..]) && log + [] == log;
      OthersAnnounced(log + first, jobs[1..], id);
    }
  }
}
