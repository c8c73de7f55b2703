/** How often a message is sent: never more often than its job was handed out. */
module SmsCounts {
  import opened Options
  import opened SmsOutboxes
  import opened SmsGateways
  import opened SmsSystems
  import opened SmsLaws

  // ---------------------------------------------------------------- an id is one message

  ghost predicate OneMessageEach(s: System) {
    && (forall m, n :: m in s.offered && n in s.offered && m.id == n.id ==> m == n)
    && (forall j, m :: j in s.jobs && m in s.offered && m.id == j.id ==> m == Offer(j))
  }

  /** Nothing a lease, a report or the passing of time does to a job changes what it is offered as. */
  lemma OffersTheSame(cfg: OutboxConfig, j: Job, now: real, status: string, error: string)
    ensures Offer(LeaseOne(cfg, j, now)) == Offer(j) == Offer(Reported(j, status, error))
  {
  }

  /** The job a message handed out comes from. */
  lemma HandedOutFrom(cfg: Config, s: System, limit: int, m: Message) returns (j: Job)
    requires var out := LeaseJobs(cfg.outbox, s.jobs, s.now, limit).1; m in Offers(out)
    ensures j in s.jobs && m == Offer(j) && IdIn(LeaseJobs(cfg.outbox, s.jobs, s.now, limit).1, m.id)
  {
    LeaseEffect(cfg.outbox, s.jobs, s.now, limit);
    var (after, out) := LeaseJobs(cfg.outbox, s.jobs, s.now, limit);
    var k :| 0 <= k < |out| && Offers(out)[k] == m;
    assert out[k] in out && HandedOut(cfg.outbox, s.jobs, after, out[k], s.now);
    var i :| 0 <= i < |s.jobs| && GrantedAs(cfg.outbox, s.jobs[i], after[i], s.now) && after[i] == out[k];
    j := s.jobs[i];
  }

  lemma JobsOfOneId(jobs: Jobs, j: Job, k: Job)
    requires DistinctIds(jobs) && j in jobs && k in jobs && j.id == k.id
    ensures j == k
  {
  }

  lemma OfferedByLease(cfg: Config, s: System, limit: int, m: Message)
    requires m in LeaseStep(cfg, s, limit).offered && m !in s.offered
    ensures m in Offers(LeaseJobs(cfg.outbox, s.jobs, s.now, limit).1)
  {
    var out := LeaseJobs(cfg.outbox, s.jobs, s.now, limit).1;
    var j :| j in out && m == Offer(j);
    var i :| 0 <= i < |out| && out[i] == j;
    assert Offers(out)[i] == m;
  }

  /** Whatever is offered after a lease is what each job of its id is offered as. */
  lemma LeaseOffersJobs(cfg: Config, s: System, limit: int, j: Job, m: Message)
    requires Genuine(cfg, s) && OneMessageEach(s)
    requires j in s.jobs && m in LeaseStep(cfg, s, limit).offered && m.id == j.id
    ensures m == Offer(j)
  {
    if m !in s.offered {
      OfferedByLease(cfg, s, limit, m);
      var k := HandedOutFrom(cfg, s, limit, m);
      JobsOfOneId(s.jobs, j, k);
    }
  }

  lemma LeaseOneMessage(cfg: Config, s: System, limit: int)
    requires Genuine(cfg, s) && OneMessageEach(s)
    ensures OneMessageEach(LeaseStep(cfg, s, limit))
  {
    var s' := LeaseStep(cfg, s, limit);
    forall m, n | m in s'.offered && n in s'.offered && m.id == n.id ensures m == n {
      LeaseOneOffer(cfg, s, limit, m, n);
      LeaseOneOffer(cfg, s, limit, n, m);
    }
    LeaseEffect(cfg.outbox, s.jobs, s.now, limit);
    forall i, m | 0 <= i < |s'.jobs| && m in s'.offered && m.id == s'.jobs[i].id ensures m == Offer(s'.jobs[i]) {
      assert Treated(cfg.outbox, s.jobs[i], s'.jobs[i], s.now, LeaseJobs(cfg.outbox, s.jobs, s.now, limit).1);
      OffersTheSame(cfg.outbox, s.jobs[i], s.now, "", "");
      LeaseOffersJobs(cfg, s, limit, s.jobs[i], m);
    }
  }

  lemma LeaseOneOffer(cfg: Config, s: System, limit: int, m: Message, n: Message)
    requires Genuine(cfg, s) && OneMessageEach(s) && m.id == n.id
    requires m in LeaseStep(cfg, s, limit).offered && n in LeaseStep(cfg, s, limit).offered
    ensures m !in s.offered ==> m == n
  {
    if m !in s.offered {
      OfferedByLease(cfg, s, limit, m);
      var j := HandedOutFrom(cfg, s, limit, m);
      LeaseOffersJobs(cfg, s, limit, j, n);
    }
  }

  lemma OthersOneMessage(cfg: Config, s: System, s': System, a: Action)
    requires Genuine(cfg, s) && OneMessageEach(s) && Step(cfg, s, a) == Some(s') && (a.Enqueue? || a.Deliver? || a.Clean?)
    ensures OneMessageEach(s')
  {
    match a
    case Enqueue(id, dest, text, ttl, later) => EnqueueOneMessage(cfg, s, s', id, dest, text, ttl, later);
    case Deliver(r) =>
      ReportEffect(s.jobs, r.id, r.status, r.reason);
      forall i, m | 0 <= i < |s'.jobs| && m in s'.offered && m.id == s'.jobs[i].id ensures m == Offer(s'.jobs[i]) {
        OffersTheSame(cfg.outbox, s.jobs[i], s.now, r.status, r.reason);
        assert s.jobs[i] in s.jobs;
      }
    case Clean => CleanEffect(s.jobs, s.now);
  }

  lemma EnqueueOneMessage(cfg: Config, s: System, s': System, id: string, dest: string, text: string, ttl: int, later: real)
    requires Genuine(cfg, s) && OneMessageEach(s) && EnqueueStep(cfg, s, id, dest, text, ttl, later) == Some(s')
    ensures OneMessageEach(s')
  {
    CleanEffect(s.jobs, s.now);
    forall m | m in s.offered ensures m.id != id { assert MessageIssued(cfg, s, m); }
  }

  lemma StepOneMessage(cfg: Config, s: System, s': System, a: Action)
    requires Genuine(cfg, s) && OneMessageEach(s) && Step(cfg, s, a) == Some(s')
    ensures OneMessageEach(s')
  {
    if !IsServers(a) {
      GatewaySteps(cfg, s, s', a);
    } else if a.Lease? {
      LeaseOneMessage(cfg, s, a.limit);
    } else if !a.Restart? {
      OthersOneMessage(cfg, s, s', a);
    }
  }

  // ---------------------------------------------------------------- sends and leases are counted

  function InHandOf(stage: Stage, m: Message): nat {
    match stage
    case Idle => 0
    case Vetted(n) => if n == m then 1 else 0
    case Allowed(n, _) => if n == m then 1 else 0
    case Recorded(n) => if n == m then 1 else 0
  }

  /** Sent, in the gateway's hands or on its way: all told no more than handed out. */
  ghost predicate Counted(s: System, m: Message) {
    multiset(s.modem)[m.id] + InHandOf(s.stage, m) + s.flight[m] <= |GrantsOf(s.grants, m.id)|
  }

  ghost predicate AllCounted(s: System) {
    && (forall m <- s.offered :: Counted(s, m))
    && (forall m :: InHandOf(s.stage, m) > 0 ==> m in s.offered)
    && (forall id <- s.modem :: SentFor(s, id))
  }

  ghost predicate SentFor(s: System, id: string) {
    exists m <- s.offered :: m.id == id
  }

  lemma {:induction false} OutDistinct(cfg: OutboxConfig, jobs: Jobs, now: real, limit: int)
    requires DistinctIds(jobs)
    ensures DistinctIds(LeaseJobs(cfg, jobs, now, limit).1)
  {
    if jobs != [] {
      var m := |jobs| - 1;
      OutDistinct(cfg, jobs[..m], now, limit);
      LeaseEffect(cfg, jobs[..m], now, limit);
      var (before, given) := LeaseJobs(cfg, jobs[..m], now, limit);
      forall k | 0 <= k < |given| ensures given[k].id != jobs[m].id {
        assert HandedOut(cfg, jobs[..m], before, given[k], now);
      }
    }
  }

  /** A message is handed out at most once by one lease. */
  lemma OfferedOnce(out: Jobs, m: Message)
    requires DistinctIds(out)
    ensures multiset(Offers(out))[m] <= 1
  {
    DistinctOnce(Offers(out), m);
  }

  lemma {:induction false} DistinctOnce(offers: seq<Message>, m: Message)
    requires forall i, j :: 0 <= i < j < |offers| ==> offers[i].id != offers[j].id
    ensures multiset(offers)[m] <= 1
  {
    if offers != [] {
      DistinctOnce(offers[1..], m);
      assert offers == [offers[0]] + offers[1..];
      if m == offers[0] { assert m !in offers[1..]; }
    }
  }

  lemma LeaseCountsOne(cfg: Config, s: System, limit: int, m: Message)
    requires Genuine(cfg, s) && OneMessageEach(s) && AllCounted(s) && m in LeaseStep(cfg, s, limit).offered
    ensures Counted(LeaseStep(cfg, s, limit), m)
  {
    var out := LeaseJobs(cfg.outbox, s.jobs, s.now, limit).1;
    OutDistinct(cfg.outbox, s.jobs, s.now, limit);
    OfferedOnce(out, m);
    AddGrantsOf(s.grants, out, s.now, m.id);
    if m in Offers(out) { var j := HandedOutFrom(cfg, s, limit, m); }
    if m !in s.offered { NotYetOffered(cfg, s, limit, m); }
  }

  lemma NotYetOffered(cfg: Config, s: System, limit: int, m: Message)
    requires Genuine(cfg, s) && OneMessageEach(s) && AllCounted(s)
    requires m in LeaseStep(cfg, s, limit).offered && m !in s.offered
    ensures multiset(s.modem)[m.id] == 0 && InHandOf(s.stage, m) == 0 && s.flight[m] == 0
  {
    if m.id in s.modem {
      assert SentFor(s, m.id);
      var n :| n in s.offered && n.id == m.id;
      LeaseOneOffer(cfg, s, limit, m, n);
    }
  }

  lemma LeaseCounted(cfg: Config, s: System, limit: int)
    requires Genuine(cfg, s) && OneMessageEach(s) && AllCounted(s)
    ensures AllCounted(LeaseStep(cfg, s, limit))
  {
    var s' := LeaseStep(cfg, s, limit);
    forall m | m in s'.offered ensures Counted(s', m) { LeaseCountsOne(cfg, s, limit, m); }
    forall id | id in s'.modem ensures SentFor(s', id) { assert SentFor(s, id); }
  }

  lemma BeginCounted(s: System, s': System, m: Message)
    requires AllCounted(s) && BeginStep(s, m) == Some(s') && m in s.offered
    ensures AllCounted(s')
  {
    forall n | n in s'.offered ensures Counted(s', n) { assert Counted(s, n); }
    forall id | id in s'.modem ensures SentFor(s', id) { assert SentFor(s, id); }
  }

  lemma AskCounted(cfg: Config, s: System, s': System)
    requires AllCounted(s) && AskStep(cfg, s) == Some(s')
    ensures AllCounted(s')
  {
    forall n | n in s'.offered ensures Counted(s', n) { assert Counted(s, n); }
    forall id | id in s'.modem ensures SentFor(s', id) { assert SentFor(s, id); }
  }

  lemma NoteCounted(cfg: Config, s: System, s': System)
    requires AllCounted(s) && NoteStep(cfg, s) == Some(s')
    ensures AllCounted(s')
  {
    forall n | n in s'.offered ensures Counted(s', n) { assert Counted(s, n); }
    forall id | id in s'.modem ensures SentFor(s', id) { assert SentFor(s, id); }
  }

  lemma TransmitCounted(s: System, s': System, ok: bool)
    requires OneMessageEach(s) && AllCounted(s) && TransmitStep(s, ok) == Some(s')
    ensures AllCounted(s')
  {
    var sent := s.stage.m;
    assert InHandOf(s.stage, sent) > 0;
    forall n | n in s'.offered ensures Counted(s', n) {
      assert Counted(s, n);
      if n.id == sent.id { assert n == sent; }
    }
    forall id | id in s'.modem ensures SentFor(s', id) {
      if id != sent.id { assert SentFor(s, id); }
    }
  }

  /** The gateway's side, grants and offers are as they were, or a message was lost on the way. */
  lemma CountedFrame(s: System, s': System)
    requires AllCounted(s) && s'.offered == s.offered && s'.grants == s.grants && s'.modem == s.modem
    requires s'.flight <= s.flight && (s'.stage == s.stage || s'.stage == Idle)
    ensures AllCounted(s')
  {
    forall n | n in s'.offered ensures Counted(s', n) { assert Counted(s, n); }
    forall id | id in s'.modem ensures SentFor(s', id) { assert SentFor(s, id); }
  }

  lemma StepCounted(cfg: Config, s: System, s': System, a: Action)
    requires Genuine(cfg, s) && OneMessageEach(s) && AllCounted(s) && Step(cfg, s, a) == Some(s')
    ensures AllCounted(s')
  {
    if IsServers(a) {
      ServerCounted(cfg, s, s', a);
    } else {
      match a
      case Begin(m) => BeginCounted(s, s', m);
      case Ask => AskCounted(cfg, s, s');
      case Note => NoteCounted(cfg, s, s');
      case Transmit(ok) => TransmitCounted(s, s', ok);
      case _ => CountedFrame(s, s');
    }
  }

  lemma ServerCounted(cfg: Config, s: System, s': System, a: Action)
    requires Genuine(cfg, s) && OneMessageEach(s) && AllCounted(s) && IsServers(a) && Step(cfg, s, a) == Some(s')
    ensures AllCounted(s')
  {
    if a.Lease? { LeaseCounted(cfg, s, a.limit); } else { CountedFrame(s, s'); }
  }

  lemma {:induction false} RunIsCounted(cfg: Config, start: real, actions: seq<Action>)
    requires Run(cfg, start, actions).Some?
    ensures OneMessageEach(Run(cfg, start, actions).value) && AllCounted(Run(cfg, start, actions).value)
  {
    if actions != [] {
      var n := |actions| - 1;
      RunIsCounted(cfg, start, actions[..n]);
      RunIsGenuine(cfg, start, actions[..n]);
      var s, s' := Run(cfg, start, actions[..n]).value, Run(cfg, start, actions).value;
      StepOneMessage(cfg, s, s', actions[n]);
      StepCounted(cfg, s, s', actions[n]);
    }
  }

  /** In every run, whatever lifetime jobs have, no id is sent more often than its job was handed out, which is at most
      `maxAttempts` times. */
  lemma SentAtMostAsLeased(cfg: Config, start: real, actions: seq<Action>, id: string)
    requires Run(cfg, start, actions).Some?
    ensures var s := Run(cfg, start, actions).value;
      multiset(s.modem)[id] <= |GrantsOf(s.grants, id)| <= (if cfg.outbox.maxAttempts < 0 then 0 else cfg.outbox.maxAttempts)
  {
    var s := Run(cfg, start, actions).value;
    RunIsCounted(cfg, start, actions);
    LeasesAreSpaced(cfg, start, actions);
    assert Spaced(cfg.outbox, GrantsOf(s.grants, id));
    if id in s.modem {
      assert SentFor(s, id);
      var m :| m in s.offered && m.id == id;
      assert Counted(s, m);
    }
  }

  lemma {:induction false} OnceIsDistinct(ids: seq<string>)
    requires forall id :: multiset(ids)[id] <= 1
    ensures forall i, j :: 0 <= i < j < |ids| ==> ids[i] != ids[j]
  {
    if ids != [] {
      assert ids == [ids[0]] + ids[1..];
      forall id ensures multiset(ids[1..])[id] <= 1 {
        assert multiset(ids)[id] == multiset{ids[0]}[id] + multiset(ids[1..])[id];
      }
      OnceIsDistinct(ids[1..]);
      assert multiset(ids)[ids[0]] == 1 + multiset(ids[1..])[ids[0]];
      forall j | 1 <= j < |ids| ensures ids[j] != ids[0] { assert ids[j] == ids[1..][j - 1] && ids[j] in ids[1..]; }
    }
  }

  /** A job that is handed out only once is sent at most once, whatever its lifetime. */
  lemma OneAttemptSendsOnce(cfg: Config, start: real, actions: seq<Action>)
    requires cfg.outbox.maxAttempts <= 1
    ensures SendsOnce(cfg, start, actions)
  {
    if Run(cfg, start, actions).Some? {
      var modem := Run(cfg, start, actions).value.modem;
      forall id ensures multiset(modem)[id] <= 1 { SentAtMostAsLeased(cfg, start, actions, id); }
      OnceIsDistinct(modem);
    }
  }
}
