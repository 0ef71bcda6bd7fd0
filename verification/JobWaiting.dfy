/** Waiting for the processes of a job, with job control and without it. */
module JobWaiting {
  import opened Prelude
  import opened JobSpec

  /** waitForJob, in the foreground: reports are taken until one says stopped,
      every process is done, or there are none left. */
  datatype Waited = Waited(stopped: bool, lastStatus: int, rest: seq<Report>)

  function WaitAll(pids: seq<int>, done: seq<bool>, lastStatus: int, rs: seq<Report>): Waited
    requires pids != [] && |done| == |pids|
    decreases |rs|
  {
    if rs == [] || forall i :: 0 <= i < |done| ==> done[i] then Waited(false, lastStatus, rs)
    else if rs[0].change.Continued? then WaitAll(pids, done, lastStatus, rs[1..])
    else if rs[0].change.StoppedBy? then Waited(true, lastStatus, rs[1..])
    else
      var status := if rs[0].pid == pids[|pids| - 1] then StatusFromWait(rs[0].change) else lastStatus;
      WaitAll(pids, MarkFirst(pids, done, rs[0].pid, 0), status, rs[1..])
  }

  function MarkFirst(pids: seq<int>, done: seq<bool>, pid: int, i: nat): (r: seq<bool>)
    requires |done| == |pids| && i <= |pids|
    ensures |r| == |pids|
    decreases |pids| - i
  {
    if i == |pids| then done
    else if pids[i] == pid && !done[i] then done[i := true]
    else MarkFirst(pids, done, pid, i + 1)
  }

  /** waitForChild: the reports on one process, up to its end; a stop is mirrored
      (raised counts them), and what concerns other processes is left. */
  datatype ChildWait = ChildWait(end: Option<Change>, raised: nat, rest: seq<Report>)

  function WaitChild(rs: seq<Report>, pid: int): ChildWait {
    if rs == [] then ChildWait(None, 0, [])
    else if rs[0].pid != pid || rs[0].change.Continued? then
      var w := WaitChild(rs[1..], pid);
      w.(rest := [rs[0]] + w.rest)
    else if rs[0].change.StoppedBy? then
      var w := WaitChild(rs[1..], pid);
      w.(raised := w.raised + 1)
    else ChildWait(Some(rs[0].change), 0, rs[1..])
  }

  /** The status when waitpid fails: the status word was set to 0 before. */
  function EndStatus(end: Option<Change>): int {
    if end.Some? then StatusFromWait(end.value) else 0
  }

  datatype EachWaited = EachWaited(lastStatus: int, raised: nat, rest: seq<Report>)

  /** waitForJob without job control: each process in turn. */
  function WaitEach(pids: seq<int>, lastStatus: int, rs: seq<Report>): EachWaited
    decreases |pids|
  {
    if pids == [] then EachWaited(lastStatus, 0, rs)
    else
      var c := WaitChild(rs, pids[0]);
      var w := WaitEach(pids[1..], if |pids| == 1 then EndStatus(c.end) else lastStatus, c.rest);
      w.(raised := w.raised + c.raised)
  }

  function FirstOf(rs: seq<Report>, pid: int): (n: nat)
    ensures n <= |rs| && forall i :: 0 <= i < n ==> rs[i].pid != pid || rs[i].change.Continued?
    ensures n < |rs| ==> rs[n].pid == pid && !rs[n].change.Continued?
  {
    if rs == [] || (rs[0].pid == pid && !rs[0].change.Continued?) then 0 else 1 + FirstOf(rs[1..], pid)
  }

  lemma WaitChildStep(rs: seq<Report>, pid: int)
    requires rs != []
    ensures var r, w := rs[0], WaitChild(rs[1..], pid);
            WaitChild(rs, pid)
            == if r.pid != pid || r.change.Continued? then w.(rest := [r] + w.rest)
               else if r.change.StoppedBy? then w.(raised := w.raised + 1)
               else ChildWait(Some(r.change), 0, rs[1..])
  {
  }

  /** The wait in terms of the first report on the process. */
  function WaitFrom(rs: seq<Report>, pid: int, n: nat): ChildWait
    requires n <= |rs|
  {
    if n == |rs| then ChildWait(None, 0, rs)
    else if rs[n].change.StoppedBy? then
      var w := WaitChild(rs[..n] + rs[n + 1..], pid);
      w.(raised := w.raised + 1)
    else ChildWait(Some(rs[n].change), 0, rs[..n] + rs[n + 1..])
  }

  lemma {:induction false} WaitChildFirst(rs: seq<Report>, pid: int)
    ensures WaitChild(rs, pid) == WaitFrom(rs, pid, FirstOf(rs, pid))
    decreases |rs|
  {
    hide WaitChild;
    var n := FirstOf(rs, pid);
    if rs == [] {
      assert WaitChild([], pid) == ChildWait(None, 0, []) by { NothingToWaitFor(pid); }
    } else {
      WaitChildStep(rs, pid);
      if n == 0 {
        assert rs[..0] + rs[1..] == rs[1..];
      } else {
        WaitChildFirst(rs[1..], pid);
        WaitFromNext(rs, pid, n);
      }
    }
  }

  lemma NothingToWaitFor(pid: int)
    ensures WaitChild([], pid) == ChildWait(None, 0, [])
  {
  }

  lemma WaitFromNext(rs: seq<Report>, pid: int, n: nat)
    requires 0 < n <= |rs| && (rs[0].pid != pid || rs[0].change.Continued?)
    ensures var w := WaitFrom(rs[1..], pid, n - 1);
            WaitFrom(rs, pid, n) == w.(rest := [rs[0]] + w.rest)
  {
    hide WaitChild;
    if n == |rs| {
      assert [rs[0]] + rs[1..] == rs;
    } else {
      var others, tail := rs[..n] + rs[n + 1..], rs[1..][..n - 1] + rs[1..][n..];
      assert others[0] == rs[0] && others[1..] == tail && others == [rs[0]] + tail;
      WaitChildStep(others, pid);
    }
  }

  /** When the wait for one of these processes begins, the first report on it is a
      stop. */
  predicate StopComesFirst(pids: seq<int>, rs: seq<Report>)
    decreases |pids|
  {
    pids != [] &&
      var n := FirstOf(rs, pids[0]);
      (n < |rs| && rs[n].change.StoppedBy?) || StopComesFirst(pids[1..], WaitChild(rs, pids[0]).rest)
  }

  /** A stop is not invisible without job control: the shell stops itself if and only
      if a stop comes first for one of the processes it waits for. */
  lemma {:induction false} StopIsMirroredIff(pids: seq<int>, lastStatus: int, rs: seq<Report>)
    ensures WaitEach(pids, lastStatus, rs).raised > 0 <==> StopComesFirst(pids, rs)
    decreases |pids|
  {
    hide WaitChild;
    if pids != [] {
      WaitChildFirst(rs, pids[0]);
      var c := WaitChild(rs, pids[0]);
      StopIsMirroredIff(pids[1..], if |pids| == 1 then EndStatus(c.end) else lastStatus, c.rest);
    }
  }

  predicate OneEnd(rs: seq<Report>, pid: int, m: nat) {
    && m < |rs| && rs[m].pid == pid && IsEndReport(rs[m])
    && forall i :: 0 <= i < |rs| && i != m && rs[i].pid == pid ==> rs[i].change.Continued?
  }

  predicate NoStops(rs: seq<Report>) {
    forall r :: r in rs ==> !r.change.StoppedBy?
  }

  lemma OneEndCons(r: Report, rs: seq<Report>, pid: int, m: nat)
    requires r.pid == pid ==> r.change.Continued?
    ensures OneEnd([r] + rs, pid, m + 1) <==> OneEnd(rs, pid, m)
  {
    var all := [r] + rs;
    assert forall i :: 0 <= i < |rs| ==> all[i + 1] == rs[i];
    if OneEnd(all, pid, m + 1) {
      assert forall i :: 0 <= i < |rs| && i != m && rs[i].pid == pid ==> all[i + 1].change.Continued?;
    }
  }

  lemma OneEndHead(r: Report, rs: seq<Report>, pid: int)
    requires r.pid == pid && IsEndReport(r)
    ensures OneEnd([r] + rs, pid, 0) <==> forall s :: s in rs && s.pid == pid ==> s.change.Continued?
  {
    var all := [r] + rs;
    assert forall i :: 0 <= i < |rs| ==> all[i + 1] == rs[i];
    if OneEnd(all, pid, 0) {
      forall s | s in rs && s.pid == pid ensures s.change.Continued? {
        var i :| 0 <= i < |rs| && rs[i] == s;
        assert all[i + 1] == s;
      }
    }
  }

  /** Waiting for another process leaves the one end of this one in place. */
  lemma {:induction false} OthersEndStays(rs: seq<Report>, other: int, pid: int, m: nat) returns (k: nat)
    requires OneEnd(rs, pid, m) && NoStops(rs) && other != pid
    ensures var w := WaitChild(rs, other);
            OneEnd(w.rest, pid, k) && w.rest[k] == rs[m] && NoStops(w.rest) && w.raised == 0
    decreases |rs|
  {
    hide WaitChild, OneEnd;
    OneEndIs(rs, pid, m);
    var r, rest := rs[0], rs[1..];
    assert rs == [r] + rest;
    WaitChildStep(rs, other);
    RestIsPart(rs, other);
    if m == 0 {
      OneEndHead(r, rest, pid);
      RestIsPart(rest, other);
      OneEndHead(r, WaitChild(rest, other).rest, pid);
      k := 0;
    } else {
      OneEndCons(r, rest, pid, m - 1);
      if r.pid == other && !r.change.Continued? {
        k := m - 1;
      } else {
        k := OthersEndStays(rest, other, pid, m - 1);
        OneEndCons(r, WaitChild(rest, other).rest, pid, k);
        k := k + 1;
      }
    }
  }

  lemma OneEndIs(rs: seq<Report>, pid: int, m: nat)
    requires OneEnd(rs, pid, m)
    ensures m < |rs| && rs[m].pid == pid && IsEndReport(rs[m])
    ensures m > 0 && rs[0].pid == pid ==> rs[0].change.Continued?
  {
  }

  lemma {:induction false} RestIsPart(rs: seq<Report>, pid: int)
    requires NoStops(rs)
    ensures var w := WaitChild(rs, pid); w.raised == 0 && NoStops(w.rest) && forall r :: r in w.rest ==> r in rs
    decreases |rs|
  {
    if rs != [] {
      assert forall r :: r in rs[1..] ==> r in rs;
      RestIsPart(rs[1..], pid);
    }
  }

  lemma {:induction false} EachGivesLast(pids: seq<int>, lastStatus: int, rs: seq<Report>, m: nat)
    requires pids != [] && pids[|pids| - 1] !in pids[..|pids| - 1]
    requires OneEnd(rs, pids[|pids| - 1], m) && NoStops(rs)
    ensures var w := WaitEach(pids, lastStatus, rs); w.lastStatus == StatusFromWait(rs[m].change) && w.raised == 0
    decreases |pids|
  {
    hide WaitChild;
    var last := pids[|pids| - 1];
    if |pids| == 1 {
      OneEndIsFound(rs, last, m);
    } else {
      assert pids[0] in pids[..|pids| - 1];
      var k := OthersEndStays(rs, pids[0], last, m);
      assert pids[1..][..|pids| - 2] == pids[..|pids| - 1][1..];
      EachGivesLast(pids[1..], lastStatus, WaitChild(rs, pids[0]).rest, k);
    }
  }

  lemma OneEndIsFound(rs: seq<Report>, pid: int, m: nat)
    requires OneEnd(rs, pid, m)
    ensures WaitChild(rs, pid).end == Some(rs[m].change) && WaitChild(rs, pid).raised == 0
  {
    WaitChildFirst(rs, pid);
  }

  lemma {:induction false} MarkKeepsLast(pids: seq<int>, done: seq<bool>, pid: int, i: nat)
    requires pids != [] && |done| == |pids| && i <= |pids| && pid != pids[|pids| - 1]
    ensures MarkFirst(pids, done, pid, i)[|pids| - 1] == done[|pids| - 1]
    decreases |pids| - i
  {
    if i < |pids| && !(pids[i] == pid && !done[i]) {
      MarkKeepsLast(pids, done, pid, i + 1);
    }
  }

  lemma {:induction false} AllGivesLast(pids: seq<int>, done: seq<bool>, lastStatus: int, rs: seq<Report>, m: nat)
    requires pids != [] && |done| == |pids| && NoStops(rs)
    requires (OneEnd(rs, pids[|pids| - 1], m) && !done[|pids| - 1])
          || (forall i :: 0 <= i < |rs| && rs[i].pid == pids[|pids| - 1] ==> rs[i].change.Continued?)
    ensures var w := WaitAll(pids, done, lastStatus, rs);
            && !w.stopped
            && w.lastStatus == if OneEnd(rs, pids[|pids| - 1], m) then StatusFromWait(rs[m].change) else lastStatus
    decreases |rs|
  {
    hide MarkFirst, StatusFromWait;
    var last := pids[|pids| - 1];
    if rs != [] && exists i :: 0 <= i < |done| && !done[i] {
      var rest := rs[1..];
      assert forall i :: 0 <= i < |rest| ==> rest[i] == rs[i + 1];
      if rs[0].change.Continued? {
        AllGivesLast(pids, done, lastStatus, rest, if m > 0 then m - 1 else |rs|);
      } else if rs[0].pid == last {
        AllGivesLast(pids, MarkFirst(pids, done, rs[0].pid, 0), StatusFromWait(rs[0].change), rest, |rs|);
      } else {
        MarkKeepsLast(pids, done, rs[0].pid, 0);
        AllGivesLast(pids, MarkFirst(pids, done, rs[0].pid, 0), lastStatus, rest, if m > 0 then m - 1 else |rs|);
      }
    }
  }

  /** With job control and without it: when nothing stops and the last process is
      reported to have ended, once, both ways of waiting give its status. */
  lemma WaitsAgree(pids: seq<int>, rs: seq<Report>, m: nat)
    requires pids != [] && pids[|pids| - 1] !in pids[..|pids| - 1]
    requires OneEnd(rs, pids[|pids| - 1], m) && NoStops(rs)
    ensures var together, each := WaitAll(pids, seq(|pids|, _ => false), 1, rs), WaitEach(pids, 1, rs);
            !together.stopped && each.raised == 0 && together.lastStatus == each.lastStatus == StatusFromWait(rs[m].change)
  {
    EachGivesLast(pids, 1, rs, m);
    AllGivesLast(pids, seq(|pids|, _ => false), 1, rs, m);
  }

  /** A last process that the kernel has nothing to report about counts as a success. */
  lemma {:induction false} LostProcessCountsAsZero(pids: seq<int>, lastStatus: int)
    requires pids != []
    ensures WaitEach(pids, lastStatus, []) == EachWaited(0, 0, [])
    decreases |pids|
  {
    NothingToWaitFor(pids[0]);
    if |pids| > 1 {
      LostProcessCountsAsZero(pids[1..], lastStatus);
    }
  }

  // ------------------------------------------------- stopped and registered

  predicate Distinct(pids: seq<int>) {
    forall i, k :: 0 <= i < k < |pids| ==> pids[i] != pids[k]
  }

  predicate HasEnd(rs: seq<Report>, pid: int) {
    exists i :: 0 <= i < |rs| && IsEndReport(rs[i]) && rs[i].pid == pid
  }

  lemma HasEndFirst(rs: seq<Report>, pid: int)
    requires rs != []
    ensures HasEnd(rs, pid) <==> (IsEndReport(rs[0]) && rs[0].pid == pid) || HasEnd(rs[1..], pid)
  {
    if HasEnd(rs[1..], pid) {
      var i :| 0 <= i < |rs[1..]| && IsEndReport(rs[1..][i]) && rs[1..][i].pid == pid;
      assert rs[i + 1] == rs[1..][i];
    }
    if HasEnd(rs, pid) && !(IsEndReport(rs[0]) && rs[0].pid == pid) {
      var i :| 0 <= i < |rs| && IsEndReport(rs[i]) && rs[i].pid == pid;
      assert rs[1..][i - 1] == rs[i];
    }
  }

  /** A process of a job is done exactly when it was, or an end of it is reported. */
  lemma {:induction false} DoneIsReported(j: Job, rs: seq<Report>, i: nat)
    requires |j.pidDone| == |j.pids| && Distinct(j.pids) && i < |j.pids|
    ensures var k := AbsorbAll(j, rs);
            k.pids == j.pids && (k.pidDone[i] <==> j.pidDone[i] || HasEnd(rs, j.pids[i]))
    decreases |rs|
  {
    hide HasEnd;
    if rs == [] {
      assert !HasEnd([], j.pids[i]) by { NoneHasEnd(j.pids[i]); }
    } else {
      HasEndFirst(rs, j.pids[i]);
      DoneIsReported(Absorb(j, rs[0]), rs[1..], i);
    }
  }

  lemma NoneHasEnd(pid: int)
    ensures !HasEnd([], pid)
  {
  }

  /** Every process ends, and is reported once. */
  predicate EndsOnce(rs: seq<Report>, pids: seq<int>) {
    && (forall pid :: pid in pids ==> HasEnd(rs, pid))
    && (forall i, k :: 0 <= i < k < |rs| && IsEndReport(rs[i]) && IsEndReport(rs[k]) && rs[i].pid in pids ==>
          rs[i].pid != rs[k].pid)
  }

  lemma {:induction false} WaitTakesPrefix(pids: seq<int>, done: seq<bool>, lastStatus: int, rs: seq<Report>)
    requires pids != [] && |done| == |pids|
    ensures var w := WaitAll(pids, done, lastStatus, rs);
            |w.rest| <= |rs| && w.rest == rs[|rs| - |w.rest|..]
    decreases |rs|
  {
    hide StatusFromWait, MarkFirst;
    if rs != [] {
      var status := if rs[0].pid == pids[|pids| - 1] then StatusFromWait(rs[0].change) else lastStatus;
      WaitTakesPrefix(pids, done, lastStatus, rs[1..]);
      WaitTakesPrefix(pids, MarkFirst(pids, done, rs[0].pid, 0), status, rs[1..]);
    }
  }

  /** A job that is stopped in the foreground goes into the table with no process
      done, whatever was reaped before. So, of the processes that all end, updates
      of the table make it done if and only if none had ended before the stop. */
  lemma StoppedJobCompletesIff(id: int, pgid: int, pids: seq<int>, command: string, rs: seq<Report>)
    requires pids != [] && Distinct(pids) && EndsOnce(rs, pids)
    requires WaitAll(pids, seq(|pids|, _ => false), 1, rs).stopped
    ensures var rest := WaitAll(pids, seq(|pids|, _ => false), 1, rs).rest;
            && |rest| <= |rs|
            && var k := Settle(AbsorbAll(NewJob(id, pgid, pids, command, true), rest));
               k.state.Done? <==> forall i :: 0 <= i < |rs| - |rest| && rs[i].pid in pids ==> !IsEndReport(rs[i])
  {
    hide WaitAll, AbsorbAll, HasEnd;
    var rest := WaitAll(pids, seq(|pids|, _ => false), 1, rs).rest;
    var n := |rs| - |rest|;
    WaitTakesPrefix(pids, seq(|pids|, _ => false), 1, rs);
    var j := NewJob(id, pgid, pids, command, true);
    var k := AbsorbAll(j, rest);
    StaysNotDone(j, rest);
    forall i | 0 <= i < |pids| ensures k.pidDone[i] <==> HasEnd(rest, pids[i]) {
      DoneIsReported(j, rest, i);
    }
    if i :| 0 <= i < n && rs[i].pid in pids && IsEndReport(rs[i]) {
      var p :| 0 <= p < |pids| && pids[p] == rs[i].pid;
      assert !HasEnd(rest, pids[p]) by { TakenIsGone(rs, pids, n, i); }
      assert !k.pidDone[p];
    } else {
      forall p | 0 <= p < |pids| ensures k.pidDone[p] {
        LeftIsThere(rs, pids, n, pids[p]);
      }
    }
  }

  /** The report at i says stopped when some process has not ended yet. */
  predicate StopsWaiting(pids: seq<int>, done: seq<bool>, rs: seq<Report>, i: nat)
    requires |done| == |pids| && i < |rs|
  {
    rs[i].change.StoppedBy? && exists k :: 0 <= k < |pids| && !done[k] && !HasEnd(rs[..i], pids[k])
  }

  lemma {:induction false} MarkMarks(pids: seq<int>, done: seq<bool>, pid: int, i: nat, k: nat)
    requires |done| == |pids| && Distinct(pids) && i <= |pids| && k < |pids|
    ensures MarkFirst(pids, done, pid, i)[k] == (done[k] || (pids[k] == pid && i <= k))
    decreases |pids| - i
  {
    if i < |pids| && !(pids[i] == pid && !done[i]) {
      MarkMarks(pids, done, pid, i + 1, k);
    }
  }

  /** With job control the wait ends by a stop if and only if a process is reported to
      stop before all of them are reported to have ended. */
  lemma {:induction false} StopsIff(pids: seq<int>, done: seq<bool>, lastStatus: int, rs: seq<Report>)
    requires pids != [] && Distinct(pids) && |done| == |pids|
    ensures WaitAll(pids, done, lastStatus, rs).stopped <==> exists i :: 0 <= i < |rs| && StopsWaiting(pids, done, rs, i)
    decreases |rs|
  {
    hide MarkFirst, HasEnd, StatusFromWait;
    if rs != [] && exists i :: 0 <= i < |done| && !done[i] {
      var marked := if IsEndReport(rs[0]) then MarkFirst(pids, done, rs[0].pid, 0) else done;
      StopsIff(pids, marked, if IsEndReport(rs[0]) && rs[0].pid == pids[|pids| - 1] then StatusFromWait(rs[0].change) else lastStatus,
               rs[1..]);
      forall i | 0 < i < |rs| ensures StopsWaiting(pids, done, rs, i) <==> StopsWaiting(pids, marked, rs[1..], i - 1) {
        StopsLater(pids, done, marked, rs, i);
      }
      if rs[0].change.StoppedBy? {
        StopsNow(pids, done, rs);
      } else if WaitAll(pids, done, lastStatus, rs).stopped {
        var i :| 0 <= i < |rs[1..]| && StopsWaiting(pids, marked, rs[1..], i);
        assert StopsWaiting(pids, done, rs, i + 1);
      } else {
        forall i | 0 <= i < |rs| ensures !StopsWaiting(pids, done, rs, i) {
          if i > 0 {
            assert !StopsWaiting(pids, marked, rs[1..], i - 1);
          }
        }
      }
    }
  }

  lemma StopsNow(pids: seq<int>, done: seq<bool>, rs: seq<Report>)
    requires |done| == |pids| && rs != [] && rs[0].change.StoppedBy? && exists i :: 0 <= i < |done| && !done[i]
    ensures StopsWaiting(pids, done, rs, 0)
  {
    var k :| 0 <= k < |done| && !done[k];
    NoneHasEnd(pids[k]);
    assert rs[..0] == [];
  }

  lemma StopsLater(pids: seq<int>, done: seq<bool>, marked: seq<bool>, rs: seq<Report>, i: nat)
    requires Distinct(pids) && |done| == |pids| && 0 < i < |rs|
    requires marked == if IsEndReport(rs[0]) then MarkFirst(pids, done, rs[0].pid, 0) else done
    ensures StopsWaiting(pids, done, rs, i) <==> StopsWaiting(pids, marked, rs[1..], i - 1)
  {
    hide MarkFirst, HasEnd;
    assert rs[..i][0] == rs[0] && rs[..i][1..] == rs[1..][..i - 1];
    forall k | 0 <= k < |pids|
      ensures !done[k] && !HasEnd(rs[..i], pids[k]) <==> !marked[k] && !HasEnd(rs[1..][..i - 1], pids[k])
    {
      HasEndFirst(rs[..i], pids[k]);
      MarkMarks(pids, done, rs[0].pid, 0, k);
    }
  }

  lemma {:induction false} StaysNotDone(j: Job, rs: seq<Report>)
    requires |j.pidDone| == |j.pids| && !j.state.Done?
    ensures !AbsorbAll(j, rs).state.Done? && |AbsorbAll(j, rs).pids| == |j.pids|
    decreases |rs|
  {
    hide Absorb;
    if rs != [] {
      StaysNotDone(Absorb(j, rs[0]), rs[1..]);
    }
  }

  lemma TakenIsGone(rs: seq<Report>, pids: seq<int>, n: nat, i: nat)
    requires EndsOnce(rs, pids) && i < n <= |rs| && rs[i].pid in pids && IsEndReport(rs[i])
    ensures !HasEnd(rs[n..], rs[i].pid)
  {
    assert forall m :: 0 <= m < |rs[n..]| ==> rs[n..][m] == rs[n + m];
  }

  lemma LeftIsThere(rs: seq<Report>, pids: seq<int>, n: nat, pid: int)
    requires EndsOnce(rs, pids) && n <= |rs| && pid in pids
    requires forall i :: 0 <= i < n && rs[i].pid in pids ==> !IsEndReport(rs[i])
    ensures HasEnd(rs[n..], pid)
  {
    var i :| 0 <= i < |rs| && IsEndReport(rs[i]) && rs[i].pid == pid;
    assert i >= n && rs[n..][i - n] == rs[i];
  }

  /** An example: the first process of a pipeline ends, then the second is stopped,
      resumed and ends; no update makes the job done. */
  lemma StoppedJobStays()
    ensures var rs := [Report(1, Exited(0)), Report(2, StoppedBy(SIGTSTP)), Report(2, Continued), Report(2, Exited(0))];
            var w := WaitAll([1, 2], seq(2, _ => false), 1, rs);
            w.stopped && !Settle(AbsorbAll(NewJob(1, 1, [1, 2], "a | b", true), w.rest)).state.Done?
  {
    var rs := [Report(1, Exited(0)), Report(2, StoppedBy(SIGTSTP)), Report(2, Continued), Report(2, Exited(0))];
    var done := seq(2, _ => false);
    assert MarkFirst([1, 2], done, 1, 0) == [true, false];
    assert rs[1..][0] == rs[1] && rs[1..][1..] == rs[2..];
    assert !done[0] && ![true, false][1];
    assert WaitAll([1, 2], done, 1, rs) == WaitAll([1, 2], [true, false], 1, rs[1..]);
    assert WaitAll([1, 2], [true, false], 1, rs[1..]) == Waited(true, 1, rs[2..]);
    assert HasEnd(rs, 1) by { assert IsEndReport(rs[0]); }
    assert HasEnd(rs, 2) by { assert IsEndReport(rs[3]); }
    StoppedJobCompletesIff(1, 1, [1, 2], "a | b", rs);
    assert IsEndReport(rs[0]) && rs[0].pid in [1, 2];
  }

  /** Waiting for such a job in the foreground does take it out of the table: no
      stop comes, so it is not put back. Its status is that of the last process, or
      1 when that one had ended before the stop. */
  lemma {:induction false} ForegroundFinishes(pids: seq<int>, done: seq<bool>, lastStatus: int, rest: seq<Report>)
    requires pids != [] && |done| == |pids| && NoStops(rest)
    ensures var w := WaitAll(pids, done, lastStatus, rest);
            !w.stopped && (!HasEnd(rest, pids[|pids| - 1]) ==> w.lastStatus == lastStatus)
    decreases |rest|
  {
    hide MarkFirst, StatusFromWait, HasEnd;
    if rest != [] {
      var last, r, tail := pids[|pids| - 1], rest[0], rest[1..];
      assert NoStops(tail) && !r.change.StoppedBy?;
      HasEndFirst(rest, last);
      ForegroundFinishes(pids, done, lastStatus, tail);
      ForegroundFinishes(pids, MarkFirst(pids, done, r.pid, 0),
                         if r.pid == last then StatusFromWait(r.change) else lastStatus, tail);
    }
  }

  /** The job of the example ends in the foreground with the status of its second process. */
  lemma StoppedJobEndsInForeground()
    ensures WaitAll([1, 2], seq(2, _ => false), 1, [Report(2, Exited(0))]) == Waited(false, 0, [])
  {
    var rs, done := [Report(2, Exited(0))], seq(2, _ => false);
    assert !done[0];
    assert MarkFirst([1, 2], done, 2, 1) == [false, true] == MarkFirst([1, 2], done, 2, 0);
    assert rs[1..] == [];
    assert WaitAll([1, 2], [false, true], 0, []) == Waited(false, 0, []);
  }
}
