/** Outbox, network, gateway and modem as one system: leases expire, messages are offered again, reports are lost,
    both sides restart. */
module SmsSystems {
  import opened Options
  import opened Sorting
  import opened SmsOutboxes
  import opened SmsGateways

  /** `maxTtl` bounds the lifetime a caller gives a job. */
  datatype Config = Config(outbox: OutboxConfig, limits: Limits, maxTtl: int)

  /** How far the gateway is with the message it handles. */
  datatype Stage = Idle | Vetted(m: Message) | Allowed(m: Message, checked: real) | Recorded(m: Message)

  /** The server's memory, the messages it handed out that the gateway has yet to begin, the gateway's disk and progress,
      and reports that may still arrive; then the history: every message ever offered, when each id was issued, every
      send ever recorded with its id, every id the modem was given, and when each job was handed out. */
  datatype System = System(
    now: real, jobs: Jobs, flight: multiset<Message>, ledger: LedgerState, stage: Stage, reports: set<Report>,
    offered: set<Message>, issued: map<string, real>, tried: seq<string>, sends: seq<Send>, modem: seq<string>,
    grants: map<string, seq<real>>)

  datatype Action =
    | Tick(at: real)
    | Enqueue(id: string, dest: string, text: string, ttl: int, later: real)
    | Lease(limit: int)
    | Lose(m: Message)
    | Begin(m: Message)
    | Ask
    | Note
    | Transmit(ok: bool)
    | Crash
    | Deliver(report: Report)
    | Clean
    | Restart

  function Start(now: real): System {
    System(now, [], multiset{}, LedgerState([], map[]), Idle, {}, {}, map[], [], [], [], map[])
  }

  /** The message a leased job is offered as: its expiry loses its fraction. */
  function Offer(j: Job): Message {
    Message(j.id, Some(j.dest), Some(j.text), Some(j.expiresAt.Floor as real))
  }

  function Offers(out: Jobs): seq<Message> {
    seq(|out|, i requires 0 <= i < |out| => Offer(out[i]))
  }

  function GrantsOf(grants: map<string, seq<real>>, id: string): seq<real> {
    if id in grants then grants[id] else []
  }

  function AddGrants(grants: map<string, seq<real>>, out: Jobs, now: real): map<string, seq<real>> {
    var ids := set j <- out :: j.id;
    map id | id in grants.Keys + ids :: GrantsOf(grants, id) + (if id in ids then [now] else [])
  }

  function Answer(s: System, m: Message, status: string, reason: string): System {
    s.(stage := Idle, reports := s.reports + {Report(m.id, status, reason)})
  }

  function EnqueueStep(cfg: Config, s: System, id: string, dest: string, text: string, ttl: int, later: real): Option<System> {
    if id == "" || id in s.issued || ttl > cfg.maxTtl || later < s.now then None
    else
      var cleaned := CleanJobs(s.jobs, s.now);
      if WaitingCount(cleaned) >= cfg.outbox.maxQueue then Some(s.(jobs := cleaned))
      else Some(s.(now := later, jobs := cleaned + [NewJob(id, dest, text, later + ttl as real)],
                   issued := s.issued[id := later]))
  }

  function LeaseStep(cfg: Config, s: System, limit: int): System {
    var (after, out) := LeaseJobs(cfg.outbox, s.jobs, s.now, limit);
    s.(jobs := after, flight := s.flight + multiset(Offers(out)), offered := s.offered + (set j <- out :: Offer(j)),
       grants := AddGrants(s.grants, out, s.now))
  }

  /** Each message handed out is begun at most once, however late and in whatever order; being begun again takes
      another lease. */
  function BeginStep(s: System, m: Message): Option<System> {
    if s.stage != Idle || m !in s.flight then None
    else
      var taken := s.(flight := s.flight - multiset{m});
      match Vet(s.ledger, m, s.now)
      case Nameless => Some(taken)
      case Known => Some(Answer(taken, m, "sent", "duplicate_suppressed"))
      case Stale => Some(Answer(taken, m, "rejected", "expired"))
      case Fresh => Some(taken.(stage := Vetted(m)))
  }

  function AskStep(cfg: Config, s: System): Option<System> {
    if !s.stage.Vetted? then None
    else match Check(cfg.limits, s.ledger, s.stage.m.dest, s.stage.m.text, s.now)
      case Some(reason) => Some(Answer(s, s.stage.m, "rejected", reason))
      case None => Some(s.(stage := Allowed(s.stage.m, s.now)))
  }

  function NoteStep(cfg: Config, s: System): Option<System> {
    if !s.stage.Allowed? || s.stage.m.dest.None? then None
    else
      var m, hash := s.stage.m, cfg.limits.hash(s.stage.m.dest.value);
      Some(s.(stage := Recorded(m), ledger := Record(s.ledger, hash, m.id, s.now, cfg.limits.window),
              tried := s.tried + [m.id], sends := s.sends + [Send(s.now, hash)]))
  }

  function TransmitStep(s: System, ok: bool): Option<System> {
    if !s.stage.Recorded? then None
    else
      var after := s.(modem := s.modem + [s.stage.m.id]);
      Some(if ok then Answer(after, s.stage.m, "sent", "") else Answer(after, s.stage.m, "failed", "modem_error"))
  }

  /** None when the action cannot happen now. Reports are delivered in any order, any number of times or never. */
  function Step(cfg: Config, s: System, a: Action): Option<System> {
    match a
    case Tick(at) => if at < s.now then None else Some(s.(now := at))
    case Enqueue(id, dest, text, ttl, later) => EnqueueStep(cfg, s, id, dest, text, ttl, later)
    case Lease(limit) => Some(LeaseStep(cfg, s, limit))
    case Lose(m) => Some(s.(flight := s.flight - multiset{m}))
    case Begin(m) => BeginStep(s, m)
    case Ask => AskStep(cfg, s)
    case Note => NoteStep(cfg, s)
    case Transmit(ok) => TransmitStep(s, ok)
    case Crash => Some(s.(stage := Idle))
    case Deliver(r) => if r !in s.reports then None else Some(s.(jobs := ReportJob(s.jobs, r.id, r.status, r.reason)))
    case Clean => Some(s.(jobs := CleanJobs(s.jobs, s.now)))
    case Restart => Some(s.(jobs := []))
  }

  function Run(cfg: Config, start: real, actions: seq<Action>): Option<System> {
    if actions == [] then Some(Start(start))
    else match Run(cfg, start, actions[..|actions| - 1])
      case None => None
      case Some(s) => Step(cfg, s, actions[|actions| - 1])
  }

  /** The steps the gateway takes for one message, with the clock moving between them. */
  function Handled(cfg: Config, s: System, m: Message, t1: real, t2: real, t3: real, ok: bool): Option<System> {
    var begun :- BeginStep(s.(now := t1), m);
    if !begun.stage.Vetted? then Some(begun)
    else
      var asked :- AskStep(cfg, begun.(now := t2));
      if !asked.stage.Allowed? then Some(asked)
      else
        var noted :- NoteStep(cfg, asked.(now := t3));
        TransmitStep(noted, ok)
  }

  /** The state left is what the handler's answer says. */
  ghost predicate LeavesAs(s: System, s': System, m: Message, h: Handling) {
    && s'.stage == Idle
    && s'.ledger == h.ledger
    && s'.reports == s.reports + (set r <- h.reports)
    && s'.modem == s.modem + (if h.attempted then [m.id] else [])
  }

  /** The gateway's handling of one offered message is a run of the system. */
  lemma HandlingIsRun(cfg: Config, s: System, m: Message, t1: real, t2: real, t3: real, ok: bool)
    requires s.stage == Idle && m in s.flight
    ensures Handled(cfg, s, m, t1, t2, t3, ok).Some?
    ensures LeavesAs(s, Handled(cfg, s, m, t1, t2, t3, ok).value, m, Handle(cfg.limits, s.ledger, m, t1, t2, t3, ok))
  {
    if Vet(s.ledger, m, t1) != Fresh {
      TurnedAwayIsRun(cfg, s, m, t1, t2, t3, ok);
    } else if Check(cfg.limits, s.ledger, m.dest, m.text, t2).Some? {
      RefusalIsRun(cfg, s, m, t1, t2, t3, ok);
    } else {
      SendingIsRun(cfg, s, m, t1, t2, t3, ok);
    }
  }

  lemma TurnedAwayIsRun(cfg: Config, s: System, m: Message, t1: real, t2: real, t3: real, ok: bool)
    requires s.stage == Idle && m in s.flight && Vet(s.ledger, m, t1) != Fresh
    ensures Handled(cfg, s, m, t1, t2, t3, ok).Some?
    ensures LeavesAs(s, Handled(cfg, s, m, t1, t2, t3, ok).value, m, Handle(cfg.limits, s.ledger, m, t1, t2, t3, ok))
  {
    OneReport(Handle(cfg.limits, s.ledger, m, t1, t2, t3, ok).reports);
    assert s.modem + [] == s.modem;
  }

  lemma RefusalIsRun(cfg: Config, s: System, m: Message, t1: real, t2: real, t3: real, ok: bool)
    requires s.stage == Idle && m in s.flight && Vet(s.ledger, m, t1) == Fresh
    requires Check(cfg.limits, s.ledger, m.dest, m.text, t2).Some?
    ensures Handled(cfg, s, m, t1, t2, t3, ok).Some?
    ensures LeavesAs(s, Handled(cfg, s, m, t1, t2, t3, ok).value, m, Handle(cfg.limits, s.ledger, m, t1, t2, t3, ok))
  {
    OneReport(Handle(cfg.limits, s.ledger, m, t1, t2, t3, ok).reports);
    assert s.modem + [] == s.modem;
  }

  lemma SendingIsRun(cfg: Config, s: System, m: Message, t1: real, t2: real, t3: real, ok: bool)
    requires s.stage == Idle && m in s.flight && Vet(s.ledger, m, t1) == Fresh
    requires Check(cfg.limits, s.ledger, m.dest, m.text, t2).None?
    ensures Handled(cfg, s, m, t1, t2, t3, ok).Some?
    ensures LeavesAs(s, Handled(cfg, s, m, t1, t2, t3, ok).value, m, Handle(cfg.limits, s.ledger, m, t1, t2, t3, ok))
  {
    OneReport(Handle(cfg.limits, s.ledger, m, t1, t2, t3, ok).reports);
    var begun := s.(now := t2, flight := s.flight - multiset{m}, stage := Vetted(m));
    assert AskStep(cfg, begun).value.stage == Allowed(m, t2);
  }

  lemma OneReport(reports: seq<Report>)
    requires |reports| <= 1
    ensures (set r <- reports) == if reports == [] then {} else {reports[0]}
  {
    assert reports != [] ==> reports == [reports[0]];
  }

  // What each side leaves alone.

  predicate IsServers(a: Action) {
    a.Enqueue? || a.Lease? || a.Deliver? || a.Clean? || a.Restart?
  }

  ghost predicate ServerFrame(s: System, s': System) {
    && s.now <= s'.now
    && s'.ledger == s.ledger && s'.stage == s.stage && s'.reports == s.reports
    && s'.tried == s.tried && s'.sends == s.sends && s'.modem == s.modem
    && s.offered <= s'.offered
    && forall id <- s.issued :: id in s'.issued && s'.issued[id] == s.issued[id]
  }

  ghost predicate GatewayFrame(s: System, s': System) {
    && s.now <= s'.now
    && s'.jobs == s.jobs && s'.offered == s.offered && s'.flight <= s.flight
    && s'.issued == s.issued && s'.grants == s.grants
  }

  ghost predicate LedgerFrame(s: System, s': System) {
    s'.ledger == s.ledger && s'.tried == s.tried && s'.sends == s.sends
  }

  lemma ServerSteps(cfg: Config, s: System, s': System, a: Action)
    requires Step(cfg, s, a) == Some(s') && IsServers(a)
    ensures ServerFrame(s, s')
  {
  }

  lemma BeginFrame(s: System, s': System, m: Message)
    requires BeginStep(s, m) == Some(s')
    ensures GatewayFrame(s, s') && LedgerFrame(s, s')
  {
    var taken := s.(flight := s.flight - multiset{m});
    match Vet(s.ledger, m, s.now)
    case Known => AnswerFrame(s, taken, m, "sent", "duplicate_suppressed");
    case Stale => AnswerFrame(s, taken, m, "rejected", "expired");
    case _ =>
  }

  lemma AnswerFrame(s: System, t: System, m: Message, status: string, reason: string)
    requires GatewayFrame(s, t) && LedgerFrame(s, t)
    ensures GatewayFrame(s, Answer(t, m, status, reason)) && LedgerFrame(s, Answer(t, m, status, reason))
  {
  }

  lemma AskFrame(cfg: Config, s: System, s': System)
    requires AskStep(cfg, s) == Some(s')
    ensures GatewayFrame(s, s') && LedgerFrame(s, s')
  {
  }

  lemma TransmitFrame(s: System, s': System, ok: bool)
    requires TransmitStep(s, ok) == Some(s')
    ensures GatewayFrame(s, s') && LedgerFrame(s, s')
  {
  }

  lemma GatewaySteps(cfg: Config, s: System, s': System, a: Action)
    requires Step(cfg, s, a) == Some(s') && !IsServers(a)
    ensures GatewayFrame(s, s') && (!a.Note? ==> LedgerFrame(s, s'))
  {
    match a
    case Begin(m) => BeginFrame(s, s', m);
    case Ask => AskFrame(cfg, s, s');
    case Transmit(ok) => TransmitFrame(s, s', ok);
    case _ =>
  }

  // Every message carries an id that was issued, and expires within the longest lifetime from then.

  ghost predicate IssuedBy(cfg: Config, s: System, id: string, expires: real) {
    id != "" && id in s.issued && expires <= s.issued[id] + cfg.maxTtl as real
  }

  ghost predicate JobIssued(cfg: Config, s: System, j: Job) {
    IssuedBy(cfg, s, j.id, j.expiresAt)
  }

  ghost predicate MessageIssued(cfg: Config, s: System, m: Message) {
    m.expiresAt.Some? && IssuedBy(cfg, s, m.id, m.expiresAt.value)
  }

  ghost predicate Genuine(cfg: Config, s: System) {
    && (forall j <- s.jobs :: JobIssued(cfg, s, j))
    && (forall m <- s.offered :: MessageIssued(cfg, s, m))
    && (forall m <- s.flight :: m in s.offered)
    && (forall id <- s.issued :: s.issued[id] <= s.now)
    && DistinctIds(s.jobs)
  }

  lemma OffersAreOffered(out: Jobs, m: Message)
    requires m in multiset(Offers(out))
    ensures m in (set j <- out :: Offer(j))
  {
    assert m in Offers(out);
    var i :| 0 <= i < |out| && Offers(out)[i] == m;
    assert out[i] in out && Offer(out[i]) == m;
  }

  lemma LeasedJobsAreIssued(cfg: Config, s: System, limit: int)
    requires Genuine(cfg, s)
    ensures var after := LeaseJobs(cfg.outbox, s.jobs, s.now, limit).0;
      forall i :: 0 <= i < |after| ==> JobIssued(cfg, s, after[i]) && after[i].id == s.jobs[i].id
  {
    LeaseEffect(cfg.outbox, s.jobs, s.now, limit);
    var (after, out) := LeaseJobs(cfg.outbox, s.jobs, s.now, limit);
    forall i | 0 <= i < |after| ensures JobIssued(cfg, s, after[i]) && after[i].id == s.jobs[i].id {
      assert s.jobs[i] in s.jobs && JobIssued(cfg, s, s.jobs[i]);
      assert Treated(cfg.outbox, s.jobs[i], after[i], s.now, out);
    }
  }

  lemma LeasedOffersAreIssued(cfg: Config, s: System, limit: int, j: Job)
    requires Genuine(cfg, s) && j in LeaseJobs(cfg.outbox, s.jobs, s.now, limit).1
    ensures MessageIssued(cfg, s, Offer(j))
  {
    LeaseEffect(cfg.outbox, s.jobs, s.now, limit);
    LeasedJobsAreIssued(cfg, s, limit);
    assert HandedOut(cfg.outbox, s.jobs, LeaseJobs(cfg.outbox, s.jobs, s.now, limit).0, j, s.now);
  }

  lemma LeaseGenuine(cfg: Config, s: System, limit: int)
    requires Genuine(cfg, s)
    ensures Genuine(cfg, LeaseStep(cfg, s, limit))
  {
    LeasedJobsAreIssued(cfg, s, limit);
    var s' := LeaseStep(cfg, s, limit);
    forall m | m in s'.flight ensures m in s'.offered { LeaseOffersFlight(cfg, s, limit, m); }
    forall m | m in s'.offered ensures MessageIssued(cfg, s', m) { LeaseOffersIssued(cfg, s, limit, m); }
  }

  lemma LeaseOffersFlight(cfg: Config, s: System, limit: int, m: Message)
    requires Genuine(cfg, s) && m in LeaseStep(cfg, s, limit).flight
    ensures m in LeaseStep(cfg, s, limit).offered
  {
    if m !in s.flight { OffersAreOffered(LeaseJobs(cfg.outbox, s.jobs, s.now, limit).1, m); }
  }

  lemma LeaseOffersIssued(cfg: Config, s: System, limit: int, m: Message)
    requires Genuine(cfg, s) && m in LeaseStep(cfg, s, limit).offered
    ensures MessageIssued(cfg, s, m)
  {
    if m !in s.offered {
      var j :| j in LeaseJobs(cfg.outbox, s.jobs, s.now, limit).1 && m == Offer(j);
      LeasedOffersAreIssued(cfg, s, limit, j);
    }
  }

  lemma EnqueueGenuine(cfg: Config, s: System, id: string, dest: string, text: string, ttl: int, later: real)
    requires Genuine(cfg, s) && EnqueueStep(cfg, s, id, dest, text, ttl, later).Some?
    ensures Genuine(cfg, EnqueueStep(cfg, s, id, dest, text, ttl, later).value)
  {
    CleanEffect(s.jobs, s.now);
    var s' := EnqueueStep(cfg, s, id, dest, text, ttl, later).value;
    forall j | j in s'.jobs ensures JobIssued(cfg, s', j) {
      if j in s.jobs { assert JobIssued(cfg, s, j); }
    }
    forall m | m in s'.offered ensures MessageIssued(cfg, s', m) {
      assert MessageIssued(cfg, s, m);
    }
    if s'.issued != s.issued {
      var kept := CleanJobs(s.jobs, s.now);
      forall i | 0 <= i < |kept| ensures kept[i].id != id {
        assert kept[i] in s.jobs && JobIssued(cfg, s, kept[i]);
      }
    }
  }

  lemma DeliverGenuine(cfg: Config, s: System, r: Report)
    requires Genuine(cfg, s)
    ensures Genuine(cfg, s.(jobs := ReportJob(s.jobs, r.id, r.status, r.reason)))
  {
    ReportEffect(s.jobs, r.id, r.status, r.reason);
    var s' := s.(jobs := ReportJob(s.jobs, r.id, r.status, r.reason));
    forall i | 0 <= i < |s.jobs| ensures JobIssued(cfg, s', s'.jobs[i]) && s'.jobs[i].id == s.jobs[i].id {
      assert s.jobs[i] in s.jobs;
    }
    forall m | m in s'.offered ensures MessageIssued(cfg, s', m) {
      assert MessageIssued(cfg, s, m);
    }
  }

  lemma GenuineFrame(cfg: Config, s: System, s': System)
    requires Genuine(cfg, s) && s'.offered == s.offered && s'.flight <= s.flight && s'.issued == s.issued && s.now <= s'.now
    requires (forall j <- s'.jobs :: j in s.jobs) && DistinctIds(s'.jobs)
    ensures Genuine(cfg, s')
  {
    forall j | j in s'.jobs ensures JobIssued(cfg, s', j) { assert JobIssued(cfg, s, j); }
    forall m | m in s'.offered ensures MessageIssued(cfg, s', m) { assert MessageIssued(cfg, s, m); }
  }

  lemma StepGenuine(cfg: Config, s: System, s': System, a: Action)
    requires Genuine(cfg, s) && Step(cfg, s, a) == Some(s')
    ensures Genuine(cfg, s')
  {
    if IsServers(a) {
      ServerStepGenuine(cfg, s, s', a);
    } else {
      GatewaySteps(cfg, s, s', a);
      GenuineFrame(cfg, s, s');
    }
  }

  lemma ServerStepGenuine(cfg: Config, s: System, s': System, a: Action)
    requires Genuine(cfg, s) && IsServers(a) && Step(cfg, s, a) == Some(s')
    ensures Genuine(cfg, s')
  {
    match a
    case Enqueue(id, dest, text, ttl, later) => EnqueueGenuine(cfg, s, id, dest, text, ttl, later);
    case Lease(limit) => LeaseGenuine(cfg, s, limit);
    case Deliver(r) => DeliverGenuine(cfg, s, r);
    case Clean =>
      CleanEffect(s.jobs, s.now);
      GenuineFrame(cfg, s, s');
    case Restart => GenuineFrame(cfg, s, s');
  }

  // What the ledger remembers of the sends ever recorded.

  /** An id was tried: it is still in the ledger, or was tried so long ago that the ledger forgot it. */
  ghost predicate InLedger(s: System, i: int)
    requires 0 <= i < |s.tried| == |s.sends|
  {
    && s.tried[i] in s.issued
    && s.issued[s.tried[i]] <= s.sends[i].at <= s.now
    && (s.tried[i] in s.ledger.done || s.sends[i].at + KEEP_IDS <= s.now)
  }

  ghost predicate Logged(s: System) {
    && |s.tried| == |s.sends|
    && (forall i :: 0 <= i < |s.tried| ==> InLedger(s, i))
    && (forall id <- s.ledger.done :: LastTry(s, id))
  }

  ghost predicate LastTry(s: System, id: string)
    requires |s.tried| == |s.sends| && id in s.ledger.done
  {
    exists i :: 0 <= i < |s.tried| && s.tried[i] == id && s.sends[i].at == s.ledger.done[id]
  }

  /** The message in hand was offered; until it is recorded it was never tried, and once recorded not yet sent. */
  ghost predicate InHand(s: System) {
    match s.stage
    case Idle => true
    case Vetted(m) => m in s.offered && m.id !in s.tried
    case Allowed(m, _) => m in s.offered && m.id !in s.tried
    case Recorded(m) => m in s.offered && m.id in s.tried && m.id !in s.modem
  }

  ghost predicate Once(s: System) {
    InHand(s) && NoDuplicates(s.tried) && NoDuplicates(s.modem) && forall id <- s.modem :: id in s.tried
  }

  ghost predicate Sound(cfg: Config, s: System) {
    Genuine(cfg, s) && Logged(s) && Once(s)
  }

  /** A message that was tried is still known to the ledger, or has expired. */
  lemma TriedIsKnownOrStale(cfg: Config, s: System, m: Message)
    requires Sound(cfg, s) && cfg.maxTtl as real <= KEEP_IDS
    requires m in s.offered && m.id in s.tried
    ensures Vet(s.ledger, m, s.now) == Known || Vet(s.ledger, m, s.now) == Stale
  {
    assert MessageIssued(cfg, s, m);
    var i :| 0 <= i < |s.tried| && s.tried[i] == m.id;
    assert InLedger(s, i);
  }

  lemma LoggedFrame(s: System, s': System)
    requires Logged(s) && s'.ledger == s.ledger && s'.tried == s.tried && s'.sends == s.sends && s.now <= s'.now
    requires forall id <- s.issued :: id in s'.issued && s'.issued[id] == s.issued[id]
    ensures Logged(s')
  {
    forall i | 0 <= i < |s'.tried| ensures InLedger(s', i) { assert InLedger(s, i); }
    forall id | id in s'.ledger.done ensures LastTry(s', id) { assert LastTry(s, id); }
  }

  lemma NoteLogged(cfg: Config, s: System)
    requires Sound(cfg, s) && NoteStep(cfg, s).Some?
    ensures Logged(NoteStep(cfg, s).value)
  {
    var s' := NoteStep(cfg, s).value;
    var n := |s.tried|;
    assert MessageIssued(cfg, s, s.stage.m);
    forall i | 0 <= i <= n ensures InLedger(s', i) {
      if i < n {
        assert InLedger(s, i);
        assert s'.tried[i] == s.tried[i] && s'.sends[i] == s.sends[i];
        if s.tried[i] in s.ledger.done { DoneIsTry(s, i); }
      }
    }
    forall id | id in s'.ledger.done ensures LastTry(s', id) {
      if id == s.stage.m.id {
        assert s'.tried[n] == id && s'.sends[n].at == s.now;
      } else {
        assert LastTry(s, id);
        var i :| 0 <= i < n && s.tried[i] == id && s.sends[i].at == s.ledger.done[id];
        assert s'.tried[i] == id && s'.sends[i] == s.sends[i];
      }
    }
  }

  /** Ids are tried once, so the ledger's time for an id is the time of its try. */
  lemma DoneIsTry(s: System, i: int)
    requires Logged(s) && NoDuplicates(s.tried) && 0 <= i < |s.tried| && s.tried[i] in s.ledger.done
    ensures s.ledger.done[s.tried[i]] == s.sends[i].at
  {
    assert LastTry(s, s.tried[i]);
  }

  lemma StepLogged(cfg: Config, s: System, s': System, a: Action)
    requires Sound(cfg, s) && Step(cfg, s, a) == Some(s')
    ensures Logged(s')
  {
    if IsServers(a) {
      ServerSteps(cfg, s, s', a);
      LoggedFrame(s, s');
    } else if a.Note? {
      NoteLogged(cfg, s);
    } else {
      GatewaySteps(cfg, s, s', a);
      LoggedFrame(s, s');
    }
  }

  lemma OnceFrame(s: System, s': System)
    requires Once(s) && ServerFrame(s, s')
    ensures Once(s')
  {
  }

  lemma StepOnce(cfg: Config, s: System, s': System, a: Action)
    requires Sound(cfg, s) && Step(cfg, s, a) == Some(s') && cfg.maxTtl as real <= KEEP_IDS
    ensures Once(s')
  {
    if IsServers(a) {
      ServerSteps(cfg, s, s', a);
      OnceFrame(s, s');
    } else {
      match a
      case Begin(m) => BeginOnce(cfg, s, s', m);
      case Ask => AskOnce(cfg, s, s');
      case Note => NoteOnce(cfg, s, s');
      case Transmit(ok) => TransmitOnce(s, s', ok);
      case _ =>
    }
  }

  lemma BeginOnce(cfg: Config, s: System, s': System, m: Message)
    requires Sound(cfg, s) && BeginStep(s, m) == Some(s') && cfg.maxTtl as real <= KEEP_IDS
    ensures Once(s')
  {
    if m.id in s.tried { TriedIsKnownOrStale(cfg, s, m); }
  }

  lemma AskOnce(cfg: Config, s: System, s': System)
    requires Once(s) && AskStep(cfg, s) == Some(s')
    ensures Once(s')
  {
  }

  lemma NoteOnce(cfg: Config, s: System, s': System)
    requires Once(s) && NoteStep(cfg, s) == Some(s')
    ensures Once(s')
  {
  }

  lemma TransmitOnce(s: System, s': System, ok: bool)
    requires Once(s) && TransmitStep(s, ok) == Some(s')
    ensures Once(s')
  {
  }

  lemma {:induction false} RunIsSound(cfg: Config, start: real, actions: seq<Action>)
    requires Run(cfg, start, actions).Some? && cfg.maxTtl as real <= KEEP_IDS
    ensures Sound(cfg, Run(cfg, start, actions).value)
  {
    if actions != [] {
      var n := |actions| - 1;
      RunIsSound(cfg, start, actions[..n]);
      var s, s' := Run(cfg, start, actions[..n]).value, Run(cfg, start, actions).value;
      StepGenuine(cfg, s, s', actions[n]);
      StepLogged(cfg, s, s', actions[n]);
      StepOnce(cfg, s, s', actions[n]);
    }
  }

  ghost predicate SendsOnce(cfg: Config, start: real, actions: seq<Action>) {
    Run(cfg, start, actions).Some? ==> NoDuplicates(Run(cfg, start, actions).value.modem)
  }

  /** No id reaches the modem twice, as long as no job outlives the ledger's memory. */
  lemma AtMostOnce(cfg: Config, start: real, actions: seq<Action>)
    requires cfg.maxTtl as real <= KEEP_IDS
    ensures SendsOnce(cfg, start, actions)
  {
    if Run(cfg, start, actions).Some? { RunIsSound(cfg, start, actions); }
  }
}
