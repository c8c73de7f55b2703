/** The SMS queue: jobs are leased to a gateway, come back when a lease runs out, and end when a report arrives. */
module SmsOutboxes {
  import opened Lists

  datatype JobState = Queued | Leased | Sent | Failed

  datatype Job = Job(id: string, dest: string, text: string, expiresAt: real, state: JobState, attempts: nat,
                     leaseUntil: real, error: string)

  /** In the order the jobs were queued. */
  type Jobs = seq<Job>

  datatype OutboxConfig = OutboxConfig(leaseSeconds: real, maxAttempts: int, maxQueue: int)

  predicate Waits(j: Job) {
    j.state == Queued || j.state == Leased
  }

  /** Jobs are dropped an hour after they expire. */
  predicate Kept(j: Job, now: real) {
    !(j.expiresAt + 3600.0 < now)
  }

  function CleanJobs(jobs: Jobs, now: real): Jobs {
    Filter(j => Kept(j, now), jobs)
  }

  function WaitingCount(jobs: Jobs): nat {
    |Filter(Waits, jobs)|
  }

  function NewJob(id: string, dest: string, text: string, expiresAt: real): Job {
    Job(id, dest, text, expiresAt, Queued, 0, 0.0, "")
  }

  /** A job that may be handed out now: queued, or leased and not answered in time. */
  predicate Grantable(j: Job, now: real) {
    j.expiresAt > now && (j.state == Queued || (j.state == Leased && j.leaseUntil <= now))
  }

  predicate Grants(cfg: OutboxConfig, j: Job, now: real) {
    Grantable(j, now) && j.attempts < cfg.maxAttempts
  }

  /** What one pass of the lease loop does to a job. */
  function LeaseOne(cfg: OutboxConfig, j: Job, now: real): Job {
    if !Grantable(j, now) then j
    else if j.attempts >= cfg.maxAttempts then
      j.(state := Failed, error := if j.error == "" then "gateway_no_answer" else j.error)
    else j.(state := Leased, attempts := j.attempts + 1, leaseUntil := now + cfg.leaseSeconds)
  }

  /** The jobs after leasing at most `limit` of them in order, and the leased ones. */
  function LeaseJobs(cfg: OutboxConfig, jobs: Jobs, now: real, limit: int): (r: (Jobs, Jobs))
    ensures |r.0| == |jobs|
  {
    if jobs == [] then ([], [])
    else
      var (after, out) := LeaseJobs(cfg, jobs[..|jobs| - 1], now, limit);
      var job := jobs[|jobs| - 1];
      if |out| >= limit then (after + [job], out)
      else (after + [LeaseOne(cfg, job, now)], out + if Grants(cfg, job, now) then [LeaseOne(cfg, job, now)] else [])
  }

  predicate Reportable(j: Job, id: string) {
    j.id == id && Waits(j)
  }

  function Reported(j: Job, status: string, error: string): Job {
    if status == "sent" then j.(state := Sent, error := "")
    else j.(state := Failed, error := Clip(if error == "" then status else error))
  }

  function Clip(s: string): string {
    if |s| <= 64 then s else s[..64]
  }

  function ReportJob(jobs: Jobs, id: string, status: string, error: string): (r: Jobs)
    ensures |r| == |jobs|
  {
    if jobs == [] then []
    else if jobs[0].id == id then
      [if Waits(jobs[0]) then Reported(jobs[0], status, error) else jobs[0]] + jobs[1..]
    else [jobs[0]] + ReportJob(jobs[1..], id, status, error)
  }

  ghost predicate DistinctIds(jobs: Jobs) {
    forall i, j :: 0 <= i < j < |jobs| ==> jobs[i].id != jobs[j].id
  }

  lemma LeaseUnfolds(cfg: OutboxConfig, jobs: Jobs, i: nat, now: real, limit: int)
    requires i < |jobs|
    ensures var (after, out) := LeaseJobs(cfg, jobs[..i], now, limit);
      LeaseJobs(cfg, jobs[..i + 1], now, limit) ==
        if |out| >= limit then (after + [jobs[i]], out)
        else (after + [LeaseOne(cfg, jobs[i], now)],
              out + if Grants(cfg, jobs[i], now) then [LeaseOne(cfg, jobs[i], now)] else [])
  {
    assert jobs[..i + 1][..i] == jobs[..i];
  }

  class SmsOutbox {
    const cfg: OutboxConfig
    var jobs: Jobs

    constructor (cfg: OutboxConfig)
      ensures this.cfg == cfg && jobs == []
    {
      this.cfg := cfg;
      jobs := [];
    }

    method Cleanup(now: real)
      modifies this
      ensures jobs == CleanJobs(old(jobs), now)
    {
      jobs := Filter(j => Kept(j, now), jobs);
    }

    /** Refused when too many jobs wait. `id` is a fresh random token; `now` and `later` are two readings of the clock. */
    method Enqueue(id: string, dest: string, text: string, ttl: real, now: real, later: real) returns (ok: bool)
      modifies this
      ensures ok <==> WaitingCount(CleanJobs(old(jobs), now)) < cfg.maxQueue
      ensures jobs == CleanJobs(old(jobs), now) + if ok then [NewJob(id, dest, text, later + ttl)] else []
    {
      Cleanup(now);
      var waiting := 0;
      for i := 0 to |jobs|
        invariant jobs == CleanJobs(old(jobs), now) && waiting == |Filter(Waits, jobs[..i])|
      {
        FilterConcat(Waits, jobs[..i], [jobs[i]]);
        assert jobs[..i + 1] == jobs[..i] + [jobs[i]];
        if Waits(jobs[i]) { waiting := waiting + 1; }
      }
      assert jobs[..|jobs|] == jobs;
      if waiting >= cfg.maxQueue { return false; }
      jobs := jobs + [NewJob(id, dest, text, later + ttl)];
      return true;
    }

    /** One job of the lease loop, and whether it is handed out. */
    method LeaseJob(job: Job, now: real) returns (after: Job, granted: bool)
      ensures after == LeaseOne(cfg, job, now) && granted == Grants(cfg, job, now)
    {
      if job.expiresAt > now {
        var expiredLease := job.state == Leased && job.leaseUntil <= now;
        if job.state == Queued || expiredLease {
          if job.attempts >= cfg.maxAttempts {
            return job.(state := Failed, error := if job.error == "" then "gateway_no_answer" else job.error), false;
          }
          return job.(state := Leased, attempts := job.attempts + 1, leaseUntil := now + cfg.leaseSeconds), true;
        }
      }
      return job, false;
    }

    /** Hands out queued jobs, and those whose lease ran out. */
    method Lease(now: real, limit: int) returns (out: Jobs)
      modifies this
      ensures (jobs, out) == LeaseJobs(cfg, old(jobs), now, limit)
    {
      out := [];
      var i := 0;
      var all := jobs;
      while i < |all| && |out| < limit
        invariant 0 <= i <= |all| && |jobs| == |all| && jobs[i..] == all[i..]
        invariant (jobs[..i], out) == LeaseJobs(cfg, all[..i], now, limit)
      {
        ghost var given := out;
        LeaseUnfolds(cfg, all, i, now, limit);
        var job := jobs[i];
        assert job == jobs[i..][0] == all[i];
        var after, granted := LeaseJob(job, now);
        if granted { out := out + [after]; }
        ghost var done := jobs[..i];
        jobs := jobs[i := after];
        i := i + 1;
        assert out == given + if granted then [after] else [];
        assert jobs[..i] == done + [after];
      }
      LeaseStops(cfg, all, i, now, limit);
      assert jobs == jobs[..i] + all[i..];
    }

    /** Whether the report was for a job still open. */
    method Report(id: string, status: string, error: string) returns (ok: bool)
      requires DistinctIds(jobs)
      modifies this
      ensures jobs == ReportJob(old(jobs), id, status, error)
      ensures ok <==> exists j <- old(jobs) :: Reportable(j, id)
    {
      for i := 0 to |jobs|
        invariant jobs == old(jobs) && forall k :: 0 <= k < i ==> jobs[k].id != id
      {
        if jobs[i].id == id {
          ReportAt(jobs, i, id, status, error);
          if !Waits(jobs[i]) { return false; }
          assert Reportable(jobs[i], id);
          jobs := jobs[i := Reported(jobs[i], status, error)];
          return true;
        }
      }
      ReportNone(jobs, id, status, error);
      return false;
    }
  }

  /** What a lease changes: each job is left alone or treated once, and those handed out are the ones granted. */
  lemma {:induction false} LeaseEffect(cfg: OutboxConfig, jobs: Jobs, now: real, limit: int)
    ensures var (after, out) := LeaseJobs(cfg, jobs, now, limit);
      && |out| <= (if limit < 0 then 0 else limit)
      && (forall i :: 0 <= i < |jobs| ==> Treated(cfg, jobs[i], after[i], now, out))
      && (forall j <- out :: HandedOut(cfg, jobs, after, j, now))
  {
    if jobs != [] {
      var m := |jobs| - 1;
      LeaseEffect(cfg, jobs[..m], now, limit);
      var (before, given) := LeaseJobs(cfg, jobs[..m], now, limit);
      var (after, out) := LeaseJobs(cfg, jobs, now, limit);
      forall i | 0 <= i < |jobs| ensures Treated(cfg, jobs[i], after[i], now, out) {
        if i < m { assert Treated(cfg, jobs[..m][i], before[i], now, given); }
      }
      forall j | j in out ensures HandedOut(cfg, jobs, after, j, now) {
        if j in given {
          assert HandedOut(cfg, jobs[..m], before, j, now);
          var i :| 0 <= i < m && GrantedAs(cfg, jobs[..m][i], before[i], now) && before[i] == j;
          assert jobs[i] == jobs[..m][i] && after[i] == j;
        } else {
          assert j == after[m] && GrantedAs(cfg, jobs[m], after[m], now);
        }
      }
    }
  }

  /** A job is as it was, or was treated, and then it is handed out if it was granted. */
  ghost predicate Treated(cfg: OutboxConfig, before: Job, after: Job, now: real, out: Jobs) {
    || after == before
    || (after == LeaseOne(cfg, before, now) && (Grants(cfg, before, now) ==> after in out))
  }

  predicate GrantedAs(cfg: OutboxConfig, before: Job, after: Job, now: real) {
    Grants(cfg, before, now) && after == LeaseOne(cfg, before, now)
  }

  ghost predicate HandedOut(cfg: OutboxConfig, jobs: Jobs, after: Jobs, j: Job, now: real)
    requires |jobs| == |after|
  {
    exists i :: 0 <= i < |jobs| && GrantedAs(cfg, jobs[i], after[i], now) && after[i] == j
  }

  /** Only a waiting job of that id is changed by a report. */
  lemma {:induction false} ReportEffect(jobs: Jobs, id: string, status: string, error: string)
    ensures forall i :: 0 <= i < |jobs| ==>
      || ReportJob(jobs, id, status, error)[i] == jobs[i]
      || (Reportable(jobs[i], id) && ReportJob(jobs, id, status, error)[i] == Reported(jobs[i], status, error))
  {
    if jobs != [] { ReportEffect(jobs[1..], id, status, error); }
  }

  /** Cleaning keeps ids distinct and adds nothing. */
  lemma {:induction false} CleanEffect(jobs: Jobs, now: real)
    requires DistinctIds(jobs)
    ensures DistinctIds(CleanJobs(jobs, now)) && forall j <- CleanJobs(jobs, now) :: j in jobs && Kept(j, now)
  {
    FilterMembers(j => Kept(j, now), jobs);
    if jobs != [] {
      CleanEffect(jobs[1..], now);
      var rest := CleanJobs(jobs[1..], now);
      forall k | 0 <= k < |rest| ensures rest[k].id != jobs[0].id {
        assert rest[k] in jobs[1..];
        var i :| 0 <= i < |jobs[1..]| && jobs[1..][i] == rest[k];
        assert jobs[i + 1] == rest[k];
      }
    }
  }

  /** Once the limit is reached, or no jobs are left, the loop's work is the whole lease. */
  lemma {:induction false} LeaseStops(cfg: OutboxConfig, jobs: Jobs, n: nat, now: real, limit: int)
    requires n <= |jobs| && (n == |jobs| || |LeaseJobs(cfg, jobs[..n], now, limit).1| >= limit)
    ensures LeaseJobs(cfg, jobs, now, limit)
         == (LeaseJobs(cfg, jobs[..n], now, limit).0 + jobs[n..], LeaseJobs(cfg, jobs[..n], now, limit).1)
    decreases |jobs|
  {
    if n == |jobs| {
      assert jobs[..n] == jobs;
      assert LeaseJobs(cfg, jobs, now, limit).0 + jobs[n..] == LeaseJobs(cfg, jobs, now, limit).0;
    } else {
      var m := |jobs| - 1;
      assert jobs[..m][..n] == jobs[..n];
      LeaseStops(cfg, jobs[..m], n, now, limit);
      var (after, out) := LeaseJobs(cfg, jobs[..n], now, limit);
      assert jobs[n..] == jobs[..m][n..] + [jobs[m]];
      assert after + jobs[n..] == (after + jobs[..m][n..]) + [jobs[m]];
    }
  }

  lemma {:induction false} ReportAt(jobs: Jobs, i: nat, id: string, status: string, error: string)
    requires i < |jobs| && jobs[i].id == id && forall k :: 0 <= k < i ==> jobs[k].id != id
    ensures ReportJob(jobs, id, status, error)
         == jobs[i := if Waits(jobs[i]) then Reported(jobs[i], status, error) else jobs[i]]
  {
    if i > 0 { ReportAt(jobs[1..], i - 1, id, status, error); }
  }

  lemma {:induction false} ReportNone(jobs: Jobs, id: string, status: string, error: string)
    requires forall k :: 0 <= k < |jobs| ==> jobs[k].id != id
    ensures ReportJob(jobs, id, status, error) == jobs
  {
    if jobs != [] { ReportNone(jobs[1..], id, status, error); }
  }
}
