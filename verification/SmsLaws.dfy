/** What holds in every run of the SMS system, whatever lifetime jobs are given. */
module SmsLaws {
  import opened Options
  import opened Lists
  import opened RollingWindow
  import opened SmsOutboxes
  import opened SmsGateways
  import opened SmsSystems

  lemma {:induction false} RunIsGenuine(cfg: Config, start: real, actions: seq<Action>)
    requires Run(cfg, start, actions).Some?
    ensures Genuine(cfg, Run(cfg, start, actions).value)
  {
    if actions != [] {
      var n := |actions| - 1;
      RunIsGenuine(cfg, start, actions[..n]);
      StepGenuine(cfg, Run(cfg, start, actions[..n]).value, Run(cfg, start, actions).value, actions[n]);
    }
  }

  // Leases.

  /** At most `maxAttempts` grants, each at least a lease after the one before. */
  ghost predicate Spaced(cfg: OutboxConfig, g: seq<real>) {
    && |g| <= (if cfg.maxAttempts < 0 then 0 else cfg.maxAttempts)
    && forall k :: 0 < k < |g| ==> g[k] >= g[k - 1] + cfg.leaseSeconds
  }

  /** A job remembers how often it was handed out, and when that lease ends. */
  ghost predicate Remembers(cfg: OutboxConfig, j: Job, g: seq<real>) {
    && |g| == j.attempts
    && (j.state == Queued ==> g == [])
    && (j.state == Leased ==> g != [] && j.leaseUntil == g[|g| - 1] + cfg.leaseSeconds)
  }

  ghost predicate Leasing(cfg: Config, s: System) {
    && (forall id :: Spaced(cfg.outbox, GrantsOf(s.grants, id)))
    && (forall j <- s.jobs :: Remembers(cfg.outbox, j, GrantsOf(s.grants, j.id)))
    && (forall id <- s.grants :: id in s.issued)
  }

  lemma AddGrantsOf(grants: map<string, seq<real>>, out: Jobs, now: real, id: string)
    ensures GrantsOf(AddGrants(grants, out, now), id)
         == GrantsOf(grants, id) + (if IdIn(out, id) then [now] else [])
  {
  }

  lemma GrantOne(cfg: OutboxConfig, j: Job, now: real, g: seq<real>)
    requires Remembers(cfg, j, g) && Spaced(cfg, g)
    ensures var g' := g + (if Grants(cfg, j, now) then [now] else []);
      Remembers(cfg, LeaseOne(cfg, j, now), g') && Spaced(cfg, g')
  {
    assert g + [] == g;
  }

  ghost predicate IdIn(out: Jobs, id: string) {
    exists j <- out :: j.id == id
  }

  /** A job is left alone and not handed out, or treated and handed out exactly if granted. */
  lemma TreatedOrNot(cfg: Config, s: System, limit: int, i: int)
    requires Genuine(cfg, s) && 0 <= i < |s.jobs|
    ensures var (after, out) := LeaseJobs(cfg.outbox, s.jobs, s.now, limit);
      || (after[i] == s.jobs[i] && !IdIn(out, s.jobs[i].id))
      || (after[i] == LeaseOne(cfg.outbox, s.jobs[i], s.now)
          && (IdIn(out, s.jobs[i].id) <==> Grants(cfg.outbox, s.jobs[i], s.now)))
  {
    LeaseEffect(cfg.outbox, s.jobs, s.now, limit);
    var (after, out) := LeaseJobs(cfg.outbox, s.jobs, s.now, limit);
    assert Treated(cfg.outbox, s.jobs[i], after[i], s.now, out);
    if IdIn(out, s.jobs[i].id) {
      var j :| j in out && j.id == s.jobs[i].id;
      assert HandedOut(cfg.outbox, s.jobs, after, j, s.now);
      var k :| 0 <= k < |s.jobs| && GrantedAs(cfg.outbox, s.jobs[k], after[k], s.now) && after[k] == j;
      assert s.jobs[k].id == s.jobs[i].id;
    }
  }

  /** One job across a lease. */
  lemma LeaseRemembers(cfg: Config, s: System, limit: int, i: int)
    requires Genuine(cfg, s) && Leasing(cfg, s) && 0 <= i < |s.jobs|
    ensures var s' := LeaseStep(cfg, s, limit);
      && Remembers(cfg.outbox, s'.jobs[i], GrantsOf(s'.grants, s.jobs[i].id))
      && Spaced(cfg.outbox, GrantsOf(s'.grants, s.jobs[i].id))
      && s'.jobs[i].id == s.jobs[i].id
  {
    TreatedOrNot(cfg, s, limit, i);
    var (after, out) := LeaseJobs(cfg.outbox, s.jobs, s.now, limit);
    var job, g := s.jobs[i], GrantsOf(s.grants, s.jobs[i].id);
    AddGrantsOf(s.grants, out, s.now, job.id);
    GrantOne(cfg.outbox, job, s.now, g);
    assert g + [] == g;
  }

  lemma LeaseLeasing(cfg: Config, s: System, limit: int)
    requires Genuine(cfg, s) && Leasing(cfg, s)
    ensures Leasing(cfg, LeaseStep(cfg, s, limit))
  {
    LeaseEffect(cfg.outbox, s.jobs, s.now, limit);
    var (after, out) := LeaseJobs(cfg.outbox, s.jobs, s.now, limit);
    var s' := LeaseStep(cfg, s, limit);
    forall id ensures Spaced(cfg.outbox, GrantsOf(s'.grants, id)) && (id in s'.grants ==> id in s.issued) {
      AddGrantsOf(s.grants, out, s.now, id);
      if IdIn(out, id) {
        var j :| j in out && j.id == id;
        assert HandedOut(cfg.outbox, s.jobs, after, j, s.now);
        var i :| 0 <= i < |s.jobs| && GrantedAs(cfg.outbox, s.jobs[i], after[i], s.now) && after[i] == j;
        LeaseRemembers(cfg, s, limit, i);
        assert s.jobs[i] in s.jobs && JobIssued(cfg, s, s.jobs[i]);
      }
    }
    forall i | 0 <= i < |after| ensures Remembers(cfg.outbox, after[i], GrantsOf(s'.grants, after[i].id)) {
      LeaseRemembers(cfg, s, limit, i);
    }
  }

  lemma DeliverLeasing(cfg: Config, s: System, r: Report)
    requires Leasing(cfg, s)
    ensures Leasing(cfg, s.(jobs := ReportJob(s.jobs, r.id, r.status, r.reason)))
  {
    ReportEffect(s.jobs, r.id, r.status, r.reason);
    var jobs := ReportJob(s.jobs, r.id, r.status, r.reason);
    forall i | 0 <= i < |jobs| ensures Remembers(cfg.outbox, jobs[i], GrantsOf(s.grants, jobs[i].id)) {
      assert Remembers(cfg.outbox, s.jobs[i], GrantsOf(s.grants, s.jobs[i].id));
    }
  }

  lemma EnqueueLeasing(cfg: Config, s: System, s': System, id: string, dest: string, text: string, ttl: int, later: real)
    requires Genuine(cfg, s) && Leasing(cfg, s) && EnqueueStep(cfg, s, id, dest, text, ttl, later) == Some(s')
    ensures Leasing(cfg, s')
  {
    CleanEffect(s.jobs, s.now);
  }

  lemma StepLeasing(cfg: Config, s: System, s': System, a: Action)
    requires Genuine(cfg, s) && Leasing(cfg, s) && Step(cfg, s, a) == Some(s')
    ensures Leasing(cfg, s')
  {
    if !IsServers(a) {
      GatewaySteps(cfg, s, s', a);
    } else {
      match a
      case Enqueue(id, dest, text, ttl, later) => EnqueueLeasing(cfg, s, s', id, dest, text, ttl, later);
      case Lease(limit) => LeaseLeasing(cfg, s, limit);
      case Deliver(r) => DeliverLeasing(cfg, s, r);
      case Clean => CleanEffect(s.jobs, s.now);
      case Restart =>
    }
  }

  /** No job is handed out more than `maxAttempts` times, nor again before its lease has run out. */
  lemma {:induction false} LeasesAreSpaced(cfg: Config, start: real, actions: seq<Action>)
    requires Run(cfg, start, actions).Some?
    ensures Leasing(cfg, Run(cfg, start, actions).value)
  {
    if actions != [] {
      var n := |actions| - 1;
      LeasesAreSpaced(cfg, start, actions[..n]);
      RunIsGenuine(cfg, start, actions[..n]);
      StepLeasing(cfg, Run(cfg, start, actions[..n]).value, Run(cfg, start, actions).value, actions[n]);
    }
  }

  // Reports.

  ghost predicate Honest(s: System) {
    && (forall id <- s.ledger.done :: id in s.tried)
    && (s.stage.Recorded? ==> s.stage.m.id in s.tried)
    && (forall r <- s.reports :: r.status == "sent" ==> r.id in s.tried)
    && (forall j <- s.jobs :: j.state == Sent ==> j.id in s.tried)
  }

  lemma LeaseHonest(cfg: Config, s: System, limit: int)
    requires Honest(s)
    ensures Honest(LeaseStep(cfg, s, limit))
  {
    LeaseEffect(cfg.outbox, s.jobs, s.now, limit);
    var (after, out) := LeaseJobs(cfg.outbox, s.jobs, s.now, limit);
    forall i | 0 <= i < |after| && after[i].state == Sent ensures after[i].id in s.tried {
      assert Treated(cfg.outbox, s.jobs[i], after[i], s.now, out);
      assert s.jobs[i] in s.jobs;
    }
  }

  lemma EnqueueHonest(cfg: Config, s: System, s': System, id: string, dest: string, text: string, ttl: int, later: real)
    requires Genuine(cfg, s) && Honest(s) && EnqueueStep(cfg, s, id, dest, text, ttl, later) == Some(s')
    ensures Honest(s')
  {
    CleanEffect(s.jobs, s.now);
  }

  lemma DeliverHonest(s: System, r: Report)
    requires Honest(s) && r in s.reports
    ensures Honest(s.(jobs := ReportJob(s.jobs, r.id, r.status, r.reason)))
  {
    ReportEffect(s.jobs, r.id, r.status, r.reason);
    var jobs := ReportJob(s.jobs, r.id, r.status, r.reason);
    forall i | 0 <= i < |jobs| && jobs[i].state == Sent ensures jobs[i].id in s.tried {
      assert s.jobs[i] in s.jobs;
    }
  }

  lemma GatewayHonest(cfg: Config, s: System, s': System, a: Action)
    requires Honest(s) && !IsServers(a) && Step(cfg, s, a) == Some(s')
    ensures Honest(s')
  {
    match a
    case Begin(m) => BeginHonest(s, s', m);
    case Transmit(ok) => TransmitHonest(s, s', ok);
    case _ =>
  }

  lemma BeginHonest(s: System, s': System, m: Message)
    requires Honest(s) && BeginStep(s, m) == Some(s')
    ensures Honest(s')
  {
  }

  lemma TransmitHonest(s: System, s': System, ok: bool)
    requires Honest(s) && TransmitStep(s, ok) == Some(s')
    ensures Honest(s')
  {
  }

  lemma StepHonest(cfg: Config, s: System, s': System, a: Action)
    requires Genuine(cfg, s) && Honest(s) && Step(cfg, s, a) == Some(s')
    ensures Honest(s')
  {
    if !IsServers(a) {
      GatewayHonest(cfg, s, s', a);
    } else {
      ServerHonest(cfg, s, s', a);
    }
  }

  lemma CleanHonest(cfg: Config, s: System)
    requires Genuine(cfg, s) && Honest(s)
    ensures Honest(s.(jobs := CleanJobs(s.jobs, s.now)))
  {
    CleanEffect(s.jobs, s.now);
  }

  lemma ServerHonest(cfg: Config, s: System, s': System, a: Action)
    requires Genuine(cfg, s) && Honest(s) && IsServers(a) && Step(cfg, s, a) == Some(s')
    ensures Honest(s')
  {
    match a
    case Enqueue(id, dest, text, ttl, later) => EnqueueHonest(cfg, s, s', id, dest, text, ttl, later);
    case Lease(limit) => LeaseHonest(cfg, s, limit);
    case Deliver(r) => DeliverHonest(s, r);
    case Clean => CleanHonest(cfg, s);
    case Restart =>
  }

  /** A job is marked sent only if a send was recorded for its id. */
  lemma {:induction false} SentMeansTried(cfg: Config, start: real, actions: seq<Action>)
    requires Run(cfg, start, actions).Some?
    ensures Honest(Run(cfg, start, actions).value)
  {
    if actions != [] {
      var n := |actions| - 1;
      SentMeansTried(cfg, start, actions[..n]);
      RunIsGenuine(cfg, start, actions[..n]);
      StepHonest(cfg, Run(cfg, start, actions[..n]).value, Run(cfg, start, actions).value, actions[n]);
    }
  }

  // Rolling limits.

  function Times(sends: seq<Send>): seq<real> {
    if sends == [] then [] else Times(sends[..|sends| - 1]) + [sends[|sends| - 1].at]
  }

  function SendsTo(sends: seq<Send>, hash: string): seq<Send> {
    Filter((s: Send) => s.hash == hash, sends)
  }

  lemma RecentLast(sends: seq<Send>, last: Send, now: real, window: real)
    ensures |Recent(sends + [last], now, window)|
         == |Recent(sends, now, window)| + (if last.at > now - window then 1 else 0)
  {
    FilterConcat((s: Send) => s.at > now - window, sends, [last]);
  }

  lemma TimesLast(sends: seq<Send>, last: Send)
    ensures Times(sends + [last]) == Times(sends) + [last.at]
  {
    assert (sends + [last])[..|sends|] == sends;
  }

  lemma CountLast(times: seq<real>, last: real, lo: real)
    ensures CountAfter(times + [last], lo) == CountAfter(times, lo) + (if lo < last then 1 else 0)
  {
    assert (times + [last])[..|times|] == times;
  }

  lemma {:induction false} RecentCounts(sends: seq<Send>, now: real, window: real)
    ensures CountAfter(Times(sends), now - window) == |Recent(sends, now, window)|
  {
    if sends != [] {
      var init, last := sends[..|sends| - 1], sends[|sends| - 1];
      assert sends == init + [last];
      RecentCounts(init, now, window);
      RecentLast(init, last, now, window);
      TimesLast(init, last);
      CountLast(Times(init), last.at, now - window);
    }
  }

  lemma RecentTwice(sends: seq<Send>, earlier: real, now: real, window: real)
    requires earlier <= now
    ensures Recent(Recent(sends, earlier, window), now, window) == Recent(sends, now, window)
  {
    var late := (s: Send) => s.at > now - window;
    FilterTwice(late, (s: Send) => s.at > earlier - window, late, sends);
  }

  lemma RecentTo(sends: seq<Send>, hash: string, now: real, window: real)
    ensures Recent(SendsTo(sends, hash), now, window) == SendsTo(Recent(sends, now, window), hash)
  {
    var late, to := (s: Send) => s.at > now - window, (s: Send) => s.hash == hash;
    var both := (s: Send) => s.at > now - window && s.hash == hash;
    FilterTwice(late, to, both, sends);
    FilterTwice(to, late, both, sends);
  }

  ghost predicate LimitsHold(limits: Limits, sends: seq<Send>) {
    && Bounded(Times(sends), limits.window, limits.maxSms)
    && forall hash :: Bounded(Times(SendsTo(sends, hash)), limits.window, limits.maxPerNumber)
  }

  /** The windows behind a check have room for one more send. */
  predicate Room(limits: Limits, sends: seq<Send>, hash: string, checked: real) {
    && CountAfter(Times(sends), checked - limits.window) < limits.maxSms
    && CountAfter(Times(SendsTo(sends, hash)), checked - limits.window) < limits.maxPerNumber
  }

  /** From now on the pruned ledger counts what the full history would. */
  ghost predicate CountsAll(kept: seq<Send>, sends: seq<Send>, now: real, window: real) {
    forall t :: t >= now ==> Recent(kept, t, window) == Recent(sends, t, window)
  }

  ghost predicate Metered(cfg: Config, s: System) {
    && LimitsHold(cfg.limits, s.sends)
    && CountsAll(s.ledger.sends, s.sends, s.now, cfg.limits.window)
    && (s.stage.Allowed? && s.stage.m.dest.Some? ==>
          s.stage.checked <= s.now && Room(cfg.limits, s.sends, cfg.limits.hash(s.stage.m.dest.value), s.stage.checked))
  }

  lemma CheckFindsRoom(limits: Limits, l: LedgerState, sends: seq<Send>, dest: string, text: Option<string>, now: real)
    requires CountsAll(l.sends, sends, now, limits.window) && Check(limits, l, Some(dest), text, now).None?
    ensures Room(limits, sends, limits.hash(dest), now)
  {
    RecentCounts(sends, now, limits.window);
    RecentCounts(SendsTo(sends, limits.hash(dest)), now, limits.window);
    RecentTo(sends, limits.hash(dest), now, limits.window);
  }

  lemma RecordCountsAll(l: LedgerState, sends: seq<Send>, hash: string, id: string, now: real, window: real)
    requires CountsAll(l.sends, sends, now, window)
    ensures CountsAll(Record(l, hash, id, now, window).sends, sends + [Send(now, hash)], now, window)
  {
    forall t | t >= now
      ensures Recent(Recent(l.sends, now, window) + [Send(now, hash)], t, window)
           == Recent(sends + [Send(now, hash)], t, window)
    {
      var late := (s: Send) => s.at > t - window;
      FilterConcat(late, Recent(l.sends, now, window), [Send(now, hash)]);
      FilterConcat(late, sends, [Send(now, hash)]);
      RecentTwice(l.sends, now, t, window);
    }
  }

  lemma RoomKeepsLimits(limits: Limits, sends: seq<Send>, hash: string, checked: real, now: real)
    requires LimitsHold(limits, sends) && Room(limits, sends, hash, checked) && checked <= now
    ensures LimitsHold(limits, sends + [Send(now, hash)])
  {
    var s := Send(now, hash);
    TimesLast(sends, s);
    AdmissionKeepsBound(Times(sends), limits.window, limits.maxSms, checked, now);
    forall h ensures Bounded(Times(SendsTo(sends + [s], h)), limits.window, limits.maxPerNumber) {
      RoomKeepsNumber(limits, sends, hash, h, checked, now);
    }
  }

  lemma RoomKeepsNumber(limits: Limits, sends: seq<Send>, hash: string, h: string, checked: real, now: real)
    requires LimitsHold(limits, sends) && Room(limits, sends, hash, checked) && checked <= now
    ensures Bounded(Times(SendsTo(sends + [Send(now, hash)], h)), limits.window, limits.maxPerNumber)
  {
    SendsToSnoc(sends, Send(now, hash), h);
    if h == hash {
      TimesLast(SendsTo(sends, h), Send(now, hash));
      AdmissionKeepsBound(Times(SendsTo(sends, h)), limits.window, limits.maxPerNumber, checked, now);
    }
  }

  lemma SendsToSnoc(sends: seq<Send>, s: Send, hash: string)
    ensures SendsTo(sends + [s], hash) == if s.hash == hash then SendsTo(sends, hash) + [s] else SendsTo(sends, hash)
  {
    FilterConcat((s: Send) => s.hash == hash, sends, [s]);
    assert SendsTo(sends, hash) + [] == SendsTo(sends, hash);
  }

  lemma StepMetered(cfg: Config, s: System, s': System, a: Action)
    requires Metered(cfg, s) && Step(cfg, s, a) == Some(s')
    ensures Metered(cfg, s')
  {
    if IsServers(a) {
      ServerSteps(cfg, s, s', a);
    } else if a.Note? {
      NoteMetered(cfg, s);
    } else if a.Ask? {
      AskMetered(cfg, s);
    } else {
      GatewaySteps(cfg, s, s', a);
    }
  }

  lemma AskMetered(cfg: Config, s: System)
    requires Metered(cfg, s) && AskStep(cfg, s).Some?
    ensures Metered(cfg, AskStep(cfg, s).value)
  {
    var m := s.stage.m;
    if m.dest.Some? && Check(cfg.limits, s.ledger, m.dest, m.text, s.now).None? {
      CheckFindsRoom(cfg.limits, s.ledger, s.sends, m.dest.value, m.text, s.now);
    }
  }

  lemma NoteMetered(cfg: Config, s: System)
    requires Metered(cfg, s) && NoteStep(cfg, s).Some?
    ensures Metered(cfg, NoteStep(cfg, s).value)
  {
    var hash := cfg.limits.hash(s.stage.m.dest.value);
    RecordCountsAll(s.ledger, s.sends, hash, s.stage.m.id, s.now, cfg.limits.window);
    RoomKeepsLimits(cfg.limits, s.sends, hash, s.stage.checked, s.now);
  }

  /** In no window are more sends recorded than the limits allow, in all or for one number, across restarts. */
  lemma {:induction false} LimitsHoldInEveryRun(cfg: Config, start: real, actions: seq<Action>)
    requires Run(cfg, start, actions).Some?
    ensures Metered(cfg, Run(cfg, start, actions).value)
  {
    if actions != [] {
      var n := |actions| - 1;
      LimitsHoldInEveryRun(cfg, start, actions[..n]);
      StepMetered(cfg, Run(cfg, start, actions[..n]).value, Run(cfg, start, actions).value, actions[n]);
    }
  }

  /** Although it forgets, the ledger counts as the full history would, in all and for every number. */
  lemma LedgerCountsHistory(cfg: Config, start: real, actions: seq<Action>, hash: string, t: real)
    requires Run(cfg, start, actions).Some? && t >= Run(cfg, start, actions).value.now
    ensures var s := Run(cfg, start, actions).value; var window := cfg.limits.window;
      && Count(s.ledger, t, window) == CountAfter(Times(s.sends), t - window)
      && CountNumber(s.ledger, hash, t, window) == CountAfter(Times(SendsTo(s.sends, hash)), t - window)
  {
    LimitsHoldInEveryRun(cfg, start, actions);
    var s := Run(cfg, start, actions).value;
    CountsAgree(s.ledger, s.sends, hash, s.now, t, cfg.limits.window);
  }

  lemma CountsAgree(l: LedgerState, sends: seq<Send>, hash: string, now: real, t: real, window: real)
    requires CountsAll(l.sends, sends, now, window) && t >= now
    ensures Count(l, t, window) == CountAfter(Times(sends), t - window)
    ensures CountNumber(l, hash, t, window) == CountAfter(Times(SendsTo(sends, hash)), t - window)
  {
    RecentCounts(sends, t, window);
    RecentCounts(SendsTo(sends, hash), t, window);
    RecentTo(sends, hash, t, window);
  }
}
