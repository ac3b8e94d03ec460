/**
 * The web application's in-memory job table: the `jobs` dict and `job_counter`,
 * job creation in `run_service`, the bounded per-job log, `cleanup_old_jobs`
 * and the ordering of `list_jobs`. Timestamps are the `datetime.now()` readings
 * the handlers take, as numbers that order like the ISO strings do.
 */
module Jobs {
  import opened Common
  import opened Text
  import opened Sorting

  const MaxLogLines: nat := 1000
  const MaxCompletedJobs: nat := 10
  /** `list_jobs` shows this many jobs. */
  const ListedJobs: nat := 10
  const ValidServices: seq<string> := ["fetch_prices", "daily_report", "thirty_day_report", "compute_sma_events"]

  datatype Status = Running | Completed | Failed

  /** A JSON value a request can carry as a service parameter. */
  datatype Param = Str(s: string) | Int(i: int) | Bool(b: bool) | Null

  datatype Job = Job(
    id: string,
    service: string,
    params: map<string, Param>,
    status: Status,
    startTime: nat,
    endTime: Option<nat>,
    logs: seq<string>,
    exitCode: Option<int>)

  /** The error `run_service` answers with HTTP 400. */
  datatype RequestError = InvalidService

  function JobId(n: nat): string {
    "job_" + NatToDecimal(n)
  }

  lemma JobIdInjective(n: nat, m: nat)
    requires JobId(n) == JobId(m)
    ensures n == m
  {
    assert NatToDecimal(n) == JobId(n)[4..];
    NatToDecimalInjective(n, m);
  }

  // ---------------------------------------------------------------------------
  // The bounded log

  /** The last `n` elements of `s` (all of them when there are fewer). */
  function LastN<T>(s: seq<T>, n: nat): seq<T> {
    if |s| <= n then s else s[|s| - n..]
  }

  /** `deque(maxlen=MAX_LOG_LINES).append(line)`: when the log is full its oldest line goes. */
  function BoundedAppend(logs: seq<string>, line: string): seq<string> {
    if |logs| < MaxLogLines then logs + [line] else logs[|logs| - MaxLogLines + 1..] + [line]
  }

  /** Appending to the deque keeps exactly the last `MAX_LOG_LINES` lines of everything appended. */
  lemma BoundedAppendKeepsLast(logs: seq<string>, line: string)
    ensures BoundedAppend(logs, line) == LastN(logs + [line], MaxLogLines)
  {
    if |logs| >= MaxLogLines {
      assert (logs + [line])[|logs| + 1 - MaxLogLines..] == logs[|logs| - MaxLogLines + 1..] + [line];
    }
  }

  function BoundedAppendAll(logs: seq<string>, lines: seq<string>): seq<string>
    decreases |lines|
  {
    if lines == [] then logs else BoundedAppendAll(BoundedAppend(logs, lines[0]), lines[1..])
  }

  /** However many lines are appended one by one, the log is the last `MAX_LOG_LINES` of all of them. */
  lemma {:induction false} LogKeepsLastLines(logs: seq<string>, lines: seq<string>)
    ensures BoundedAppendAll(LastN(logs, MaxLogLines), lines) == LastN(logs + lines, MaxLogLines)
    decreases |lines|
  {
    if lines == [] {
      assert logs + lines == logs;
    } else {
      var x := lines[0];
      LogStep(logs, x);
      LogKeepsLastLines(logs + [x], lines[1..]);
      assert (logs + [x]) + lines[1..] == logs + lines;
    }
  }

  /** One append to a log that holds the last lines of `logs`. */
  lemma LogStep(logs: seq<string>, x: string)
    ensures BoundedAppend(LastN(logs, MaxLogLines), x) == LastN(logs + [x], MaxLogLines)
  {
    BoundedAppendKeepsLast(LastN(logs, MaxLogLines), x);
    LastOfLast(logs, x, MaxLogLines);
  }

  lemma LastOfLast<T>(s: seq<T>, x: T, n: nat)
    ensures LastN(LastN(s, n) + [x], n) == LastN(s + [x], n)
  {
    if |s| > n && n > 0 {
      assert (s[|s| - n..] + [x])[1..] == (s + [x])[|s| + 1 - n..];
    }
  }

  // ---------------------------------------------------------------------------
  // The job table: a dict from id to job, in insertion order

  predicate HasId(jobs: seq<Job>, id: string) {
    exists j :: j in jobs && j.id == id
  }

  ghost predicate DistinctIds(jobs: seq<Job>) {
    forall i, j :: 0 <= i < j < |jobs| ==> jobs[i].id != jobs[j].id
  }

  /** Replaces the job with the given id through `f`; the others and the order stay. */
  function Update(jobs: seq<Job>, id: string, f: Job -> Job): seq<Job> {
    seq(|jobs|, i requires 0 <= i < |jobs| => if jobs[i].id == id then f(jobs[i]) else jobs[i])
  }

  /** `jobs[job['id']] = job`: replaces in place when the id is present, appends otherwise. */
  function Put(jobs: seq<Job>, job: Job): seq<Job> {
    if HasId(jobs, job.id) then Update(jobs, job.id, (_: Job) => job) else jobs + [job]
  }

  /** `jobs[id]['logs'].append(line)`, guarded by `id in jobs` as the log capture does. */
  function AppendLog(jobs: seq<Job>, id: string, line: string): seq<Job> {
    Update(jobs, id, (j: Job) => j.(logs := BoundedAppend(j.logs, line)))
  }

  /** What the handlers keep true of every job. */
  ghost predicate WellFormed(j: Job) {
    && |j.logs| <= MaxLogLines
    && (j.status == Running <==> j.endTime.None?)
    && (j.status == Running <==> j.exitCode.None?)
    && (j.status == Completed ==> j.exitCode == Some(0))
    && (j.status == Failed ==> j.exitCode != Some(0))
  }

  ghost predicate IssuedBy(id: string, counter: nat) {
    exists n :: 1 <= n <= counter && id == JobId(n)
  }

  /** Ids are distinct and were all issued by the counter, and every job is well formed. */
  ghost predicate ValidTable(jobs: seq<Job>, counter: nat) {
    && DistinctIds(jobs)
    && (forall j :: j in jobs ==> WellFormed(j))
    && (forall j :: j in jobs ==> IssuedBy(j.id, counter))
  }

  /** Settles a job: status, exit code and end time are set and the closing lines logged. */
  function Settle(jobs: seq<Job>, id: string, status: Status, code: int, end: nat, lines: seq<string>): seq<Job> {
    Update(jobs, id, (j: Job) => j.(status := status, exitCode := Some(code), endTime := Some(end),
                                    logs := BoundedAppendAll(j.logs, lines)))
  }

  /** Changing jobs one by one without touching ids keeps the table valid. */
  lemma {:induction false} SameIdsValid(jobs: seq<Job>, r: seq<Job>, counter: nat)
    requires ValidTable(jobs, counter)
    requires |r| == |jobs| && forall i :: 0 <= i < |r| ==> r[i].id == jobs[i].id && WellFormed(r[i])
    ensures ValidTable(r, counter)
  {
    forall j | j in r ensures IssuedBy(j.id, counter) {
      var i :| 0 <= i < |r| && r[i] == j;
      assert jobs[i] in jobs;
    }
  }

  /** The log never grows past `MAX_LOG_LINES`. */
  lemma LogStaysBounded(logs: seq<string>, lines: seq<string>)
    requires |logs| <= MaxLogLines
    ensures |BoundedAppendAll(logs, lines)| <= MaxLogLines
  {
    LogKeepsLastLines(logs, lines);
  }

  /** Appending a log line keeps the table valid and changes no id. */
  lemma AppendLogValid(jobs: seq<Job>, id: string, line: string, counter: nat)
    requires ValidTable(jobs, counter)
    ensures ValidTable(AppendLog(jobs, id, line), counter)
  {
    var r := AppendLog(jobs, id, line);
    forall i | 0 <= i < |r| ensures r[i].id == jobs[i].id && WellFormed(r[i]) {
      assert WellFormed(jobs[i]);
      LogStaysBounded(jobs[i].logs, [line]);
    }
    SameIdsValid(jobs, r, counter);
  }

  /** Settling a job with a status that agrees with its exit code keeps the table valid. */
  lemma SettleValid(jobs: seq<Job>, id: string, status: Status, code: int, end: nat, lines: seq<string>, counter: nat)
    requires ValidTable(jobs, counter)
    requires status != Running && (status == Completed <==> code == 0)
    ensures ValidTable(Settle(jobs, id, status, code, end, lines), counter)
  {
    var r := Settle(jobs, id, status, code, end, lines);
    forall i | 0 <= i < |r| ensures r[i].id == jobs[i].id && WellFormed(r[i]) {
      assert WellFormed(jobs[i]);
      LogStaysBounded(jobs[i].logs, lines);
    }
    SameIdsValid(jobs, r, counter);
  }

  class JobRegistry {
    /** `jobs`, in insertion order. */
    var jobs: seq<Job>
    /** `job_counter`. */
    var counter: nat

    ghost predicate Valid()
      reads this
    {
      ValidTable(jobs, counter)
    }

    constructor()
      ensures Valid() && jobs == [] && counter == 0
    {
      jobs := [];
      counter := 0;
    }

    /**
     * Job creation in `run_service`: an unknown service is refused and nothing
     * changes; otherwise the counter goes up and a running job `job_<counter>`
     * with an empty log is added at the end of the table.
     */
    method RunService(service: string, params: map<string, Param>, now: nat) returns (r: Result<string, RequestError>)
      requires Valid()
      modifies this
      ensures Valid()
      ensures r.Err? <==> service !in ValidServices
      ensures r.Err? ==> jobs == old(jobs) && counter == old(counter)
      ensures r.Ok? ==> counter == old(counter) + 1 && r.value == JobId(counter)
      ensures r.Ok? ==> !HasId(old(jobs), r.value)
      ensures r.Ok? ==> jobs == old(jobs) + [Job(r.value, service, params, Running, now, None, [], None)]
    {
      if service !in ValidServices {
        return Err(InvalidService);
      }
      counter := counter + 1;
      var id := JobId(counter);
      FreshId(jobs, counter - 1);
      var job := Job(id, service, params, Running, now, None, [], None);
      jobs := Put(jobs, job);
      r := Ok(id);
      forall j | j in jobs ensures IssuedBy(j.id, counter) {
        if j != job {
          var n :| 1 <= n <= counter - 1 && j.id == JobId(n);
        }
      }
    }

    /** `jobs[id]['logs'].append(line)`, when the job is there. */
    method AppendLogLine(id: string, line: string)
      requires Valid()
      modifies this
      ensures Valid() && counter == old(counter)
      ensures jobs == AppendLog(old(jobs), id, line)
    {
      AppendLogValid(jobs, id, line, counter);
      jobs := AppendLog(jobs, id, line);
    }

    /** The final update of `execute_job`: status, exit code, end time, closing log lines. */
    method SettleJob(id: string, status: Status, code: int, end: nat, lines: seq<string>)
      requires Valid()
      requires status != Running && (status == Completed <==> code == 0)
      modifies this
      ensures Valid() && counter == old(counter)
      ensures jobs == Settle(old(jobs), id, status, code, end, lines)
    {
      SettleValid(jobs, id, status, code, end, lines, counter);
      jobs := Settle(jobs, id, status, code, end, lines);
    }

    /**
     * `cleanup_old_jobs`: the table becomes its running jobs followed by the
     * `MAX_COMPLETED_JOBS` finished jobs that ended last; the result is the
     * number of finished jobs dropped.
     */
    method CleanupOldJobs() returns (removed: nat)
      requires Valid()
      modifies this
      ensures Valid() && counter == old(counter)
      ensures jobs == Cleaned(old(jobs))
      ensures removed == |FinishedJobs(old(jobs))| - |Retained(old(jobs))|
    {
      var all := jobs;
      var running, completed := Partition(all);
      var kept := SmallestBy(completed, EndKey, MaxCompletedJobs);
      CleanedValid(all, counter);
      jobs := running + kept;
      removed := |completed| - |kept|;
    }

    /** The `list_jobs` answer: at most ten summaries, newest start first. */
    method ListJobs() returns (r: seq<JobSummary>)
      ensures r == Listing(jobs)
    {
      var list: seq<JobSummary> := [];
      for i := 0 to |jobs|
        invariant list == Summaries(jobs[..i])
        invariant unchanged(this)
      {
        assert jobs[..i + 1] == jobs[..i] + [jobs[i]];
        SummariesAppend(jobs[..i], jobs[i]);
        list := list + [Summary(jobs[i])];
      }
      assert jobs[..|jobs|] == jobs;
      r := SmallestBy(list, StartKey, ListedJobs);
    }
  }

  /** The first loop of `cleanup_old_jobs`: running jobs and the others, each in table order. */
  method Partition(all: seq<Job>) returns (running: seq<Job>, completed: seq<Job>)
    ensures running == RunningJobs(all) && completed == FinishedJobs(all)
  {
    running := [];
    completed := [];
    for i := 0 to |all|
      invariant running == Filter(all[..i], IsRunning)
      invariant completed == Filter(all[..i], IsFinished)
    {
      assert all[..i + 1] == all[..i] + [all[i]];
      FilterSnoc(all[..i], all[i], IsRunning);
      FilterSnoc(all[..i], all[i], IsFinished);
      if all[i].status == Running {
        running := running + [all[i]];
      } else {
        completed := completed + [all[i]];
      }
    }
    assert all[..|all|] == all;
  }

  /** `job_<n + 1>` is not yet in a table whose ids were all issued up to `n`. */
  lemma FreshId(jobs: seq<Job>, n: nat)
    requires forall j :: j in jobs ==> IssuedBy(j.id, n)
    ensures !HasId(jobs, JobId(n + 1))
  {
    if HasId(jobs, JobId(n + 1)) {
      var j :| j in jobs && j.id == JobId(n + 1);
      var m :| 1 <= m <= n && j.id == JobId(m);
      JobIdInjective(m, n + 1);
    }
  }

  // ---------------------------------------------------------------------------
  // Retention

  predicate IsRunning(j: Job) { j.status == Running }

  predicate IsFinished(j: Job) { j.status != Running }

  function RunningJobs(jobs: seq<Job>): seq<Job> { Filter(jobs, IsRunning) }

  function FinishedJobs(jobs: seq<Job>): seq<Job> { Filter(jobs, IsFinished) }

  /** The end time as the sort sees it, negated because the sort is newest first. */
  function EndKey(j: Job): real {
    -(j.endTime.GetOr(0) as real)
  }

  /** `completed_jobs` sorted newest end first and cut to `MAX_COMPLETED_JOBS`. */
  function Retained(jobs: seq<Job>): seq<Job> {
    SmallestBy(FinishedJobs(jobs), EndKey, MaxCompletedJobs)
  }

  /** The table after `cleanup_old_jobs`: running jobs first, then the retained ones. */
  function Cleaned(jobs: seq<Job>): seq<Job> {
    RunningJobs(jobs) + Retained(jobs)
  }

  /** Every running job survives the cleanup, and nothing is invented. */
  lemma CleanupKeepsRunning(jobs: seq<Job>)
    ensures forall j :: j in jobs && j.status == Running ==> j in Cleaned(jobs)
    ensures forall j :: j in Cleaned(jobs) ==> j in jobs
  {
    forall j | j in Retained(jobs) ensures j in jobs {
      assert j in multiset(FinishedJobs(jobs));
    }
  }

  lemma {:induction false} FilterNone<T(!new)>(s: seq<T>, p: T -> bool)
    requires forall x :: x in s ==> !p(x)
    ensures Filter(s, p) == []
  {
    if s != [] {
      FilterNone(s[1..], p);
    }
  }

  lemma {:induction false} FilterAll<T(!new)>(s: seq<T>, p: T -> bool)
    requires forall x :: x in s ==> p(x)
    ensures Filter(s, p) == s
  {
    if s != [] {
      FilterAll(s[1..], p);
    }
  }

  /** After the cleanup exactly `min(10, finished)` finished jobs remain, and all running ones. */
  lemma CleanupBound(jobs: seq<Job>)
    ensures |FinishedJobs(Cleaned(jobs))| == Min(MaxCompletedJobs, |FinishedJobs(jobs)|)
    ensures RunningJobs(Cleaned(jobs)) == RunningJobs(jobs)
  {
    var kept := Retained(jobs);
    forall j | j in kept ensures IsFinished(j) {
      assert j in multiset(FinishedJobs(jobs));
    }
    FilterAppend(RunningJobs(jobs), kept, IsFinished);
    FilterNone(RunningJobs(jobs), IsFinished);
    FilterAll(kept, IsFinished);
    FilterAppend(RunningJobs(jobs), kept, IsRunning);
    FilterAll(RunningJobs(jobs), IsRunning);
    FilterNone(kept, IsRunning);
  }

  /** No finished job that was dropped ended later than one that was kept. */
  lemma CleanupKeepsNewest(jobs: seq<Job>)
    ensures forall x, y :: x in Retained(jobs) && y in FinishedJobs(jobs) && y !in Retained(jobs) ==>
      y.endTime.GetOr(0) <= x.endTime.GetOr(0)
  {
    forall x, y | x in Retained(jobs) && y in FinishedJobs(jobs) && y !in Retained(jobs)
      ensures y.endTime.GetOr(0) <= x.endTime.GetOr(0)
    {
      assert EndKey(x) <= EndKey(y);
    }
  }

  /** A finished job that ended strictly after every other finished job survives the cleanup. */
  lemma JustFinishedSurvives(jobs: seq<Job>, x: Job)
    requires x in jobs && x.status != Running
    requires forall y :: y in jobs && y.status != Running && y != x ==> y.endTime.GetOr(0) < x.endTime.GetOr(0)
    ensures x in Cleaned(jobs)
  {
    var fin := FinishedJobs(jobs);
    assert x in fin;
    LeftOutMeansFull(fin, EndKey, MaxCompletedJobs, x);
    if |Retained(jobs)| == MaxCompletedJobs {
      NewestIsRetainedFirst(jobs, x);
    }
  }

  /** When the retained list is full, its first entry is the job that ended last. */
  lemma NewestIsRetainedFirst(jobs: seq<Job>, x: Job)
    requires x in jobs && x.status != Running
    requires forall y :: y in jobs && y.status != Running && y != x ==> y.endTime.GetOr(0) < x.endTime.GetOr(0)
    requires |Retained(jobs)| == MaxCompletedJobs
    ensures Retained(jobs)[0] == x
  {
    var fin := FinishedJobs(jobs);
    var kept := Retained(jobs);
    assert x in fin;
    var y := kept[0];
    assert y in multiset(fin);
    assert y in jobs && y.status != Running;
    assert EndKey(y) <= EndKey(x) by {
      if x in kept {
        var k :| 0 <= k < |kept| && kept[k] == x;
        assert k == 0 || EndKey(kept[0]) <= EndKey(kept[k]);
      }
    }
    assert x.endTime.GetOr(0) <= y.endTime.GetOr(0);
  }

  /** A job's count in a table with distinct ids is at most one. */
  lemma {:induction false} DistinctCountAtMostOne(s: seq<Job>, x: Job)
    requires DistinctIds(s)
    ensures multiset(s)[x] <= 1
  {
    if s != [] {
      assert s == [s[0]] + s[1..];
      assert DistinctIds(s[1..]) by {
        forall i, j | 0 <= i < j < |s| - 1 ensures s[1..][i].id != s[1..][j].id {
          assert s[1..][i] == s[i + 1] && s[1..][j] == s[j + 1];
        }
      }
      DistinctCountAtMostOne(s[1..], x);
      if s[0] == x {
        assert x !in s[1..];
      }
    }
  }

  lemma SameIdSameJob(b: seq<Job>, x: Job, y: Job)
    requires DistinctIds(b) && x in b && y in b && x.id == y.id
    ensures x == y
  {
    var p :| 0 <= p < |b| && b[p] == x;
    var q :| 0 <= q < |b| && b[q] == y;
    assert p == q;
  }

  /** A table taken out of one with distinct ids, without repeats, has distinct ids. */
  lemma DistinctIdsOfSub(a: seq<Job>, b: seq<Job>)
    requires multiset(a) <= multiset(b) && DistinctIds(b)
    ensures DistinctIds(a)
  {
    forall i, j | 0 <= i < j < |a| ensures a[i].id != a[j].id {
      if a[i].id == a[j].id {
        assert a[i] in multiset(b) && a[j] in multiset(b);
        SameIdSameJob(b, a[i], a[j]);
        assert a == a[..j] + a[j..];
        assert a[i] in a[..j] && a[j] in a[j..];
        assert multiset(a)[a[i]] >= 2;
        DistinctCountAtMostOne(b, a[i]);
      }
    }
  }

  /** Every job is either running or finished, never both. */
  lemma {:induction false} RunningFinishedSplit(jobs: seq<Job>)
    ensures multiset(RunningJobs(jobs)) + multiset(FinishedJobs(jobs)) == multiset(jobs)
  {
    if jobs != [] {
      RunningFinishedSplit(jobs[1..]);
      RunningFinishedStep(jobs[0], jobs[1..]);
      assert jobs == [jobs[0]] + jobs[1..];
    }
  }

  /** The first-job case of `RunningFinishedSplit`, given the fact for the jobs after it. */
  lemma RunningFinishedStep(j: Job, t: seq<Job>)
    requires multiset(RunningJobs(t)) + multiset(FinishedJobs(t)) == multiset(t)
    ensures multiset(RunningJobs([j] + t)) + multiset(FinishedJobs([j] + t)) == multiset([j] + t)
  {
    var jobs := [j] + t;
    assert jobs[0] == j && jobs[1..] == t;
    if IsRunning(j) {
      assert RunningJobs(jobs) == [j] + RunningJobs(t);
      assert FinishedJobs(jobs) == FinishedJobs(t);
    } else {
      assert FinishedJobs(jobs) == [j] + FinishedJobs(t);
      assert RunningJobs(jobs) == RunningJobs(t);
    }
  }

  /** The cleanup keeps the table valid. */
  lemma CleanedValid(jobs: seq<Job>, counter: nat)
    requires ValidTable(jobs, counter)
    ensures ValidTable(Cleaned(jobs), counter)
  {
    RunningFinishedSplit(jobs);
    assert multiset(Cleaned(jobs)) <= multiset(jobs);
    DistinctIdsOfSub(Cleaned(jobs), jobs);
    CleanupKeepsRunning(jobs);
  }

  // ---------------------------------------------------------------------------
  // Listing

  /** A job as `list_jobs` shows it: everything but the log. */
  datatype JobSummary = JobSummary(
    id: string,
    service: string,
    params: map<string, Param>,
    status: Status,
    startTime: nat,
    endTime: Option<nat>,
    exitCode: Option<int>)

  function Summary(j: Job): JobSummary {
    JobSummary(j.id, j.service, j.params, j.status, j.startTime, j.endTime, j.exitCode)
  }

  function Summaries(jobs: seq<Job>): seq<JobSummary> {
    seq(|jobs|, i requires 0 <= i < |jobs| => Summary(jobs[i]))
  }

  lemma SummariesAppend(jobs: seq<Job>, j: Job)
    ensures Summaries(jobs + [j]) == Summaries(jobs) + [Summary(j)]
  {
  }

  /** The start time as the sort sees it, negated because the sort is newest first. */
  function StartKey(s: JobSummary): real {
    -(s.startTime as real)
  }

  function Listing(jobs: seq<Job>): seq<JobSummary> {
    SmallestBy(Summaries(jobs), StartKey, ListedJobs)
  }

  /** `list_jobs` shows `min(10, jobs)` summaries, newest start first. */
  lemma ListingOrdered(jobs: seq<Job>)
    ensures var r := Listing(jobs);
      && |r| == Min(ListedJobs, |jobs|)
      && forall i, k :: 0 <= i < k < |r| ==> r[k].startTime <= r[i].startTime
  {
    var r := Listing(jobs);
    forall i, k | 0 <= i < k < |r| ensures r[k].startTime <= r[i].startTime {
      assert StartKey(r[i]) <= StartKey(r[k]);
    }
  }

  /** Each listed summary is that of a job in the table. */
  lemma ListingFromTable(jobs: seq<Job>)
    ensures forall s :: s in Listing(jobs) ==> exists j :: j in jobs && s == Summary(j)
  {
    var all := Summaries(jobs);
    forall s | s in Listing(jobs) ensures exists j :: j in jobs && s == Summary(j) {
      assert s in multiset(all);
      var i :| 0 <= i < |all| && all[i] == s;
      assert jobs[i] in jobs;
    }
  }

  /** No job left out of the listing started later than one shown. */
  lemma ListingNewest(jobs: seq<Job>)
    ensures forall j, s :: j in jobs && Summary(j) !in Listing(jobs) && s in Listing(jobs) ==> j.startTime <= s.startTime
  {
    var all := Summaries(jobs);
    forall j, s | j in jobs && Summary(j) !in Listing(jobs) && s in Listing(jobs) ensures j.startTime <= s.startTime {
      var i :| 0 <= i < |jobs| && jobs[i] == j;
      assert all[i] == Summary(j);
      assert StartKey(s) <= StartKey(Summary(j));
    }
  }
}
