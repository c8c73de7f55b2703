/** How long jobs may live: a job that outlives the ledger's memory can be sent twice. */
module SmsDoubleSend {
  import opened Options
  import opened Lists
  import opened SmsOutboxes
  import opened SmsGateways
  import opened SmsSystems
  import opened SmsCounts

  /** How many messages to one number a window must admit: where it is no longer than ids are kept, what was sent before
      they were forgotten has left it. */
  function Needed(limits: Limits): int {
    if limits.window <= KEEP_IDS then 2 else 3
  }

  /** A configuration that lets these messages to one number through, with leases within the memory of ids. */
  ghost predicate Permissive(cfg: Config, dest: string, text: string) {
    && cfg.limits.allow(dest) && GoodText(Some(text), cfg.limits)
    && cfg.limits.maxSms >= Needed(cfg.limits) && cfg.limits.maxPerNumber >= Needed(cfg.limits)
    && cfg.outbox.maxQueue >= 2 && 0.0 < cfg.outbox.leaseSeconds <= KEEP_IDS
  }

  /** The window has room for one message more. */
  ghost predicate HasRoom(cfg: Config, l: LedgerState, now: real) {
    |Recent(l.sends, now, cfg.limits.window)| < Needed(cfg.limits)
  }

  lemma RunThen(cfg: Config, actions: seq<Action>, a: Action)
    requires Run(cfg, 0.0, actions).Some?
    ensures Run(cfg, 0.0, actions + [a]) == Step(cfg, Run(cfg, 0.0, actions).value, a)
  {
    assert (actions + [a])[..|actions|] == actions;
  }

  lemma {:induction false} FilterShorter<T>(keep: T -> bool, s: seq<T>)
    ensures |Filter(keep, s)| <= |s|
  {
    if s != [] { FilterShorter(keep, s[1..]); }
  }

  lemma FewSendsPass(cfg: Config, l: LedgerState, dest: string, text: string, now: real)
    requires Permissive(cfg, dest, text) && HasRoom(cfg, l, now)
    ensures Check(cfg.limits, l, Some(dest), Some(text), now).None?
  {
    FilterShorter((s: Send) => s.hash == cfg.limits.hash(dest), Recent(l.sends, now, cfg.limits.window));
  }

  lemma RecentShorter(sends: seq<Send>, now: real, window: real)
    ensures |Recent(sends, now, window)| <= |sends|
  {
    FilterShorter((s: Send) => s.at > now - window, sends);
  }

  /** One send at time zero leaves room when ids are forgotten, and still does once one more is recorded. */
  lemma RoomForTwo(cfg: Config, l: LedgerState, hash: string, id: string)
    requires l.sends == [Send(0.0, hash)]
    ensures HasRoom(cfg, l, KEEP_IDS) && HasRoom(cfg, Record(l, hash, id, KEEP_IDS, cfg.limits.window), KEEP_IDS)
  {
    var window := cfg.limits.window;
    RecentShorter(l.sends, KEEP_IDS, window);
    var recent := Recent(l.sends, KEEP_IDS, window);
    FilterMembers((s: Send) => s.at > KEEP_IDS - window, l.sends);
    assert window <= KEEP_IDS ==> forall x :: x !in recent;
    RecentShorter(Record(l, hash, id, KEEP_IDS, window).sends, KEEP_IDS, window);
  }

  /** A message in flight that is unknown and unexpired goes to the modem. */
  lemma SendOne(cfg: Config, actions: seq<Action>, s: System, m: Message, dest: string, text: string)
    returns (more: seq<Action>, s': System)
    requires Run(cfg, 0.0, actions) == Some(s) && Permissive(cfg, dest, text)
    requires s.stage == Idle && m in s.flight && Vet(s.ledger, m, s.now) == Fresh
    requires m.dest == Some(dest) && m.text == Some(text) && HasRoom(cfg, s.ledger, s.now)
    ensures Run(cfg, 0.0, more) == Some(s')
    ensures s'.now == s.now && s'.jobs == s.jobs && s'.flight == s.flight - multiset{m} && s'.stage == Idle
    ensures s'.modem == s.modem + [m.id]
    ensures s'.ledger == Record(s.ledger, cfg.limits.hash(dest), m.id, s.now, cfg.limits.window)
  {
    var asked := BeginAndAsk(cfg, actions, s, m, dest, text);
    more, s' := NoteAndTransmit(cfg, actions + [Begin(m)] + [Ask], asked, m, dest);
  }

  lemma BeginAndAsk(cfg: Config, actions: seq<Action>, s: System, m: Message, dest: string, text: string)
    returns (s': System)
    requires Run(cfg, 0.0, actions) == Some(s) && Permissive(cfg, dest, text)
    requires s.stage == Idle && m in s.flight && Vet(s.ledger, m, s.now) == Fresh
    requires m.dest == Some(dest) && m.text == Some(text) && HasRoom(cfg, s.ledger, s.now)
    ensures Run(cfg, 0.0, actions + [Begin(m)] + [Ask]) == Some(s')
    ensures s' == s.(stage := Allowed(m, s.now), flight := s.flight - multiset{m})
  {
    FewSendsPass(cfg, s.ledger, dest, text, s.now);
    RunThen(cfg, actions, Begin(m));
    RunThen(cfg, actions + [Begin(m)], Ask);
    s' := s.(stage := Allowed(m, s.now), flight := s.flight - multiset{m});
  }

  lemma NoteAndTransmit(cfg: Config, actions: seq<Action>, s: System, m: Message, dest: string)
    returns (more: seq<Action>, s': System)
    requires Run(cfg, 0.0, actions) == Some(s) && s.stage.Allowed? && s.stage.m == m && m.dest == Some(dest)
    ensures Run(cfg, 0.0, more) == Some(s')
    ensures s'.now == s.now && s'.jobs == s.jobs && s'.flight == s.flight && s'.stage == Idle
    ensures s'.modem == s.modem + [m.id]
    ensures s'.ledger == Record(s.ledger, cfg.limits.hash(dest), m.id, s.now, cfg.limits.window)
  {
    RunThen(cfg, actions, Note);
    var noted := NoteStep(cfg, s).value;
    RunThen(cfg, actions + [Note], Transmit(true));
    more := actions + [Note] + [Transmit(true)];
    s' := TransmitStep(noted, true).value;
  }

  /** A job as it stands after its first lease, at time zero. */
  function OnceLeased(cfg: Config, id: string, dest: string, text: string): Job {
    LeaseOne(cfg.outbox, NewJob(id, dest, text, cfg.maxTtl as real), 0.0)
  }

  /** The state changed by nothing that a queue or a lease does not change. */
  ghost predicate ServerOnly(s: System, s': System) {
    && s'.now == s.now && s'.ledger == s.ledger && s'.stage == s.stage && s'.modem == s.modem
  }

  ghost predicate StillLeased(jobs: Jobs) {
    forall j <- jobs :: j.state == Leased && j.leaseUntil > 0.0 && j.expiresAt > 0.0
  }

  lemma QueueJob(cfg: Config, actions: seq<Action>, s: System, id: string, dest: string, text: string) returns (s': System)
    requires Run(cfg, 0.0, actions) == Some(s) && cfg.outbox.maxQueue >= 2
    requires s.now == 0.0 && id != "" && id !in s.issued && |s.jobs| <= 1 && StillLeased(s.jobs)
    ensures Run(cfg, 0.0, actions + [Action.Enqueue(id, dest, text, cfg.maxTtl, 0.0)]) == Some(s')
    ensures s'.jobs == s.jobs + [NewJob(id, dest, text, cfg.maxTtl as real)] && s'.flight == s.flight && ServerOnly(s, s')
    ensures s'.issued == s.issued[id := 0.0]
  {
    CleanKeepsAll(s.jobs);
    FilterShorter(Waits, s.jobs);
    RunThen(cfg, actions, Action.Enqueue(id, dest, text, cfg.maxTtl, 0.0));
    s' := s.(jobs := s.jobs + [NewJob(id, dest, text, 0.0 + cfg.maxTtl as real)], issued := s.issued[id := 0.0]);
  }

  lemma LeaseStepIs(cfg: Config, actions: seq<Action>, s: System, after: Jobs, out: Jobs) returns (s': System)
    requires Run(cfg, 0.0, actions) == Some(s) && LeaseJobs(cfg.outbox, s.jobs, s.now, 5) == (after, out)
    ensures Run(cfg, 0.0, actions + [Action.Lease(5)]) == Some(s')
    ensures s'.jobs == after && s'.flight == s.flight + multiset(Offers(out)) && ServerOnly(s, s') && s'.issued == s.issued
  {
    RunThen(cfg, actions, Action.Lease(5));
    s' := LeaseStep(cfg, s, 5);
  }

  /** A job is queued and handed out. */
  lemma QueueAndLease(cfg: Config, actions: seq<Action>, s: System, id: string, dest: string, text: string)
    returns (more: seq<Action>, s': System)
    requires Run(cfg, 0.0, actions) == Some(s) && Permissive(cfg, dest, text) && cfg.outbox.maxAttempts >= 1
    requires s.now == 0.0 && id != "" && id !in s.issued && cfg.maxTtl > 0 && |s.jobs| <= 1 && StillLeased(s.jobs)
    ensures Run(cfg, 0.0, more) == Some(s') && ServerOnly(s, s') && s'.issued == s.issued[id := 0.0]
    ensures s'.jobs == s.jobs + [OnceLeased(cfg, id, dest, text)]
    ensures s'.flight == s.flight + multiset{Offer(OnceLeased(cfg, id, dest, text))}
  {
    var job, leased := NewJob(id, dest, text, cfg.maxTtl as real), OnceLeased(cfg, id, dest, text);
    var queued := QueueJob(cfg, actions, s, id, dest, text);
    LeaseNewest(cfg.outbox, s.jobs, job);
    more := actions + [Action.Enqueue(id, dest, text, cfg.maxTtl, 0.0)] + [Action.Lease(5)];
    s' := LeaseStepIs(cfg, actions + [Action.Enqueue(id, dest, text, cfg.maxTtl, 0.0)], queued, s.jobs + [leased], [leased]);
    assert Offers([leased]) == [Offer(leased)];
  }

  lemma {:induction false} CleanKeepsAll(jobs: Jobs)
    requires forall j <- jobs :: j.expiresAt > 0.0
    ensures CleanJobs(jobs, 0.0) == jobs
  {
    if jobs != [] {
      assert jobs[0] in jobs;
      CleanKeepsAll(jobs[1..]);
    }
  }

  lemma {:induction false} LeaseNothing(cfg: OutboxConfig, jobs: Jobs)
    requires forall j <- jobs :: j.state == Leased && j.leaseUntil > 0.0
    ensures LeaseJobs(cfg, jobs, 0.0, 5) == (jobs, [])
  {
    if jobs != [] {
      var n := |jobs| - 1;
      var init, last := jobs[..n], jobs[n];
      LeaseNothing(cfg, init);
      assert jobs == init + [last] && last in jobs;
      assert !Grants(cfg, last, 0.0) && LeaseOne(cfg, last, 0.0) == last;
      var none: Jobs := [];
      assert none + none == none;
    }
  }

  lemma LeaseNewest(cfg: OutboxConfig, jobs: Jobs, job: Job)
    requires forall j <- jobs :: j.state == Leased && j.leaseUntil > 0.0
    requires Grants(cfg, job, 0.0)
    ensures var leased := LeaseOne(cfg, job, 0.0); LeaseJobs(cfg, jobs + [job], 0.0, 5) == (jobs + [leased], [leased])
  {
    assert (jobs + [job])[..|jobs|] == jobs;
    LeaseNothing(cfg, jobs);
    assert forall j: Job :: [] + [j] == [j];
  }

  /** When both leases have run out, one more lease hands both jobs out again, in order. */
  lemma LeaseBothAgain(cfg: Config, dest: string, text: string)
    requires Permissive(cfg, dest, text) && cfg.outbox.maxAttempts >= 2 && cfg.maxTtl as real > KEEP_IDS
    ensures var b, a := OnceLeased(cfg, "b", dest, text), OnceLeased(cfg, "a", dest, text);
      var b', a' := LeaseOne(cfg.outbox, b, KEEP_IDS), LeaseOne(cfg.outbox, a, KEEP_IDS);
      && LeaseJobs(cfg.outbox, [b, a], KEEP_IDS, 5) == ([b', a'], [b', a'])
      && Offers([b', a']) == [Offer(b), Offer(a)]
  {
    var b, a := OnceLeased(cfg, "b", dest, text), OnceLeased(cfg, "a", dest, text);
    assert Grants(cfg.outbox, b, KEEP_IDS) && Grants(cfg.outbox, a, KEEP_IDS);
    LeaseTwo(cfg.outbox, b, a);
    var b', a' := LeaseOne(cfg.outbox, b, KEEP_IDS), LeaseOne(cfg.outbox, a, KEEP_IDS);
    var offers := Offers([b', a']);
    assert offers[0] == Offer(b') == Offer(b) && offers[1] == Offer(a') == Offer(a);
  }

  lemma LeaseTwo(cfg: OutboxConfig, b: Job, a: Job)
    requires Grants(cfg, b, KEEP_IDS) && Grants(cfg, a, KEEP_IDS)
    ensures var b', a' := LeaseOne(cfg, b, KEEP_IDS), LeaseOne(cfg, a, KEEP_IDS);
      LeaseJobs(cfg, [b, a], KEEP_IDS, 5) == ([b', a'], [b', a'])
  {
    var jobs, b', a' := [b, a], LeaseOne(cfg, b, KEEP_IDS), LeaseOne(cfg, a, KEEP_IDS);
    LeaseUnfolds(cfg, jobs, 0, KEEP_IDS, 5);
    LeaseUnfolds(cfg, jobs, 1, KEEP_IDS, 5);
    assert jobs[..0] == [] && jobs[..2] == jobs;
    assert forall j: Job :: [] + [j] == [j];
    assert [b'] + [a'] == [b', a'];
  }

  /**
   Both messages are handed out; the answer holding "b" is lost, "a" is sent and its report is lost. When both leases
   have run out, seven days later, both are handed out again. Recording "b" makes the ledger forget "a", which has not
   expired and is sent a second time.
   */
  lemma SendTwice(cfg: Config, dest: string, text: string) returns (actions: seq<Action>, s: System)
    requires Permissive(cfg, dest, text) && cfg.outbox.maxAttempts >= 2 && cfg.maxTtl as real > KEEP_IDS
    ensures Run(cfg, 0.0, actions) == Some(s) && s.modem == ["a", "b", "a"]
  {
    actions, s := FirstRound(cfg, dest, text);
    actions, s := BothInFlight(cfg, actions, s, dest, text);
    var b, a := OnceLeased(cfg, "b", dest, text), OnceLeased(cfg, "a", dest, text);
    var first := s.ledger;
    RoomForTwo(cfg, first, cfg.limits.hash(dest), "b");
    actions, s := SendOne(cfg, actions, s, Offer(b), dest, text);
    ForgetsFirst(first, cfg.limits.hash(dest), cfg.limits.window);
    actions, s := SendOne(cfg, actions, s, Offer(a), dest, text);
  }

  lemma ForgetsFirst(l: LedgerState, hash: string, window: real)
    requires l.done == map["a" := 0.0]
    ensures "a" !in Record(l, hash, "b", KEEP_IDS, window).done
  {
  }

  /** Seven days later both messages are on their way again. */
  lemma BothInFlight(cfg: Config, actions: seq<Action>, s: System, dest: string, text: string)
    returns (more: seq<Action>, s': System)
    requires Permissive(cfg, dest, text) && cfg.outbox.maxAttempts >= 2 && cfg.maxTtl as real > KEEP_IDS
    requires Run(cfg, 0.0, actions) == Some(s) && s.now == 0.0 && s.flight == multiset{}
    requires s.jobs == [OnceLeased(cfg, "b", dest, text), OnceLeased(cfg, "a", dest, text)]
    ensures Run(cfg, 0.0, more) == Some(s') && s'.now == KEEP_IDS
    ensures s'.ledger == s.ledger && s'.stage == s.stage && s'.modem == s.modem
    ensures s'.flight == multiset{Offer(OnceLeased(cfg, "b", dest, text)), Offer(OnceLeased(cfg, "a", dest, text))}
  {
    var b, a := OnceLeased(cfg, "b", dest, text), OnceLeased(cfg, "a", dest, text);
    RunThen(cfg, actions, Tick(KEEP_IDS));
    LeaseBothAgain(cfg, dest, text);
    var both := [LeaseOne(cfg.outbox, b, KEEP_IDS), LeaseOne(cfg.outbox, a, KEEP_IDS)];
    s' := LeaseStepIs(cfg, actions + [Tick(KEEP_IDS)], s.(now := KEEP_IDS), both, both);
    more := actions + [Tick(KEEP_IDS)] + [Action.Lease(5)];
  }

  /** The day "a" is sent: nothing is left in flight, and the server has heard of nothing. */
  lemma FirstRound(cfg: Config, dest: string, text: string) returns (actions: seq<Action>, s: System)
    requires Permissive(cfg, dest, text) && cfg.outbox.maxAttempts >= 2 && cfg.maxTtl as real > KEEP_IDS
    ensures Run(cfg, 0.0, actions) == Some(s) && s.modem == ["a"] && s.stage == Idle && s.now == 0.0
    ensures s.jobs == [OnceLeased(cfg, "b", dest, text), OnceLeased(cfg, "a", dest, text)] && s.flight == multiset{}
    ensures s.ledger == LedgerState([Send(0.0, cfg.limits.hash(dest))], map["a" := 0.0])
  {
    var b, a := OnceLeased(cfg, "b", dest, text), OnceLeased(cfg, "a", dest, text);
    actions, s := LostOffer(cfg, dest, text);
    actions, s := QueueAndLease(cfg, actions, s, "a", dest, text);
    assert s.jobs == [b, a];
    actions, s := SendOne(cfg, actions, s, Offer(a), dest, text);
  }

  /** "b" is handed out, but the gateway never gets the answer. */
  lemma LostOffer(cfg: Config, dest: string, text: string) returns (actions: seq<Action>, s: System)
    requires Permissive(cfg, dest, text) && cfg.outbox.maxAttempts >= 2 && cfg.maxTtl as real > KEEP_IDS
    ensures Run(cfg, 0.0, actions) == Some(s) && ServerOnly(Start(0.0), s) && s.flight == multiset{}
    ensures s.jobs == [OnceLeased(cfg, "b", dest, text)] && s.issued == map["b" := 0.0]
  {
    var offer := Offer(OnceLeased(cfg, "b", dest, text));
    actions, s := QueueAndLease(cfg, [], Start(0.0), "b", dest, text);
    RunThen(cfg, actions, Lose(offer));
    actions, s := actions + [Lose(offer)], s.(flight := s.flight - multiset{offer});
  }

  /** At most once in every run, exactly if no job may live longer than the ledger remembers ids, or none is handed out
      again. */
  lemma AtMostOnceExactly(cfg: Config, dest: string, text: string)
    requires Permissive(cfg, dest, text)
    ensures (forall start, actions :: SendsOnce(cfg, start, actions))
       <==> cfg.maxTtl as real <= KEEP_IDS || cfg.outbox.maxAttempts <= 1
  {
    if cfg.maxTtl as real <= KEEP_IDS {
      forall start, actions ensures SendsOnce(cfg, start, actions) { AtMostOnce(cfg, start, actions); }
    } else if cfg.outbox.maxAttempts <= 1 {
      forall start, actions ensures SendsOnce(cfg, start, actions) { OneAttemptSendsOnce(cfg, start, actions); }
    } else {
      var actions, s := SendTwice(cfg, dest, text);
      assert s.modem[0] == s.modem[2];
      assert !SendsOnce(cfg, 0.0, actions);
    }
  }
}
