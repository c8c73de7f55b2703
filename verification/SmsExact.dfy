/** What the SMS queue and its gateway do, each told by what it takes; and what may reach the modem in any run. */
module SmsExact {
  import opened Options
  import opened Lists
  import opened SmsOutboxes
  import opened SmsGateways
  import opened SmsSystems
  import opened SmsLaws

  // ---------------------------------------------------------------- the policy

  /** A text the gateway sends: not empty, not too long, printable ASCII. */
  ghost predicate Sendable(limits: Limits, text: Option<string>) {
    exists t :: text == Some(t) && 1 <= |t| <= limits.maxLength && forall i :: 0 <= i < |t| ==> 32 <= t[i] as int <= 126
  }

  ghost predicate Reachable(limits: Limits, dest: Option<string>) {
    exists d :: dest == Some(d) && limits.allow(d)
  }

  /** How many sends of the list lie in the window, in all and to one number. */
  function InWindow(sends: seq<Send>, now: real, window: real): set<nat> {
    set i | 0 <= i < |sends| && now - sends[i].at < window
  }

  function ToNumber(sends: seq<Send>, hash: string, now: real, window: real): set<nat> {
    set i | 0 <= i < |sends| && now - sends[i].at < window && sends[i].hash == hash
  }

  lemma {:induction false} CountsPositions(l: LedgerState, hash: string, now: real, window: real)
    ensures Count(l, now, window) == |InWindow(l.sends, now, window)|
    ensures CountNumber(l, hash, now, window) == |ToNumber(l.sends, hash, now, window)|
    decreases |l.sends|
  {
    var late, to := (s: Send) => s.at > now - window, (s: Send) => s.hash == hash;
    if l.sends == [] {
      assert InWindow(l.sends, now, window) == {} && ToNumber(l.sends, hash, now, window) == {};
    } else {
      var n := |l.sends| - 1;
      var before, last := l.(sends := l.sends[..n]), l.sends[n];
      CountsPositions(before, hash, now, window);
      assert l.sends == before.sends + [last];
      FilterConcat(late, before.sends, [last]);
      FilterConcat(to, Filter(late, before.sends), Filter(late, [last]));
      PositionsNext(before.sends, last, hash, now, window);
    }
  }

  lemma PositionsNext(sends: seq<Send>, s: Send, hash: string, now: real, window: real)
    ensures var recent := now - s.at < window; var n := |sends|;
      && InWindow(sends + [s], now, window) == InWindow(sends, now, window) + (if recent then {n} else {})
      && ToNumber(sends + [s], hash, now, window)
         == ToNumber(sends, hash, now, window) + (if recent && s.hash == hash then {n} else {})
      && n !in InWindow(sends, now, window) && n !in ToNumber(sends, hash, now, window)
  {
    var more := sends + [s];
    assert forall i | 0 <= i < |sends| :: more[i] == sends[i];
  }

  /** Why a message is refused; None if it may be sent. */
  lemma CheckExactly(limits: Limits, l: LedgerState, dest: Option<string>, text: Option<string>, now: real)
    ensures Check(limits, l, dest, text, now) ==
      if !Reachable(limits, dest) then Some("number_not_allowed")
      else if !Sendable(limits, text) then Some("bad_text")
      else if |InWindow(l.sends, now, limits.window)| >= limits.maxSms then Some("limit_reached")
      else if |ToNumber(l.sends, limits.hash(dest.value), now, limits.window)| >= limits.maxPerNumber then
        Some("number_limit_reached")
      else None
  {
    if dest.Some? { CountsPositions(l, limits.hash(dest.value), now, limits.window); }
    GoodIsSendable(limits, text);
  }

  lemma GoodIsSendable(limits: Limits, text: Option<string>)
    ensures GoodText(text, limits) <==> Sendable(limits, text)
  {
    if GoodText(text, limits) { assert forall i | 0 <= i < |text.value| :: text.value[i] in text.value; }
    if Sendable(limits, text) {
      forall c | c in text.value ensures ' ' <= c <= '~' {
        var i :| 0 <= i < |text.value| && text.value[i] == c;
      }
    }
  }

  // ---------------------------------------------------------------- one message

  /** The message is new, has not expired, and passes the policy. */
  ghost predicate ToBeSent(limits: Limits, l: LedgerState, m: Message, t1: real, t2: real) {
    && m.id != "" && m.id !in l.done && (forall x :: m.expiresAt == Some(x) ==> t1 < x)
    && Reachable(limits, m.dest) && Sendable(limits, m.text)
    && |InWindow(l.sends, t2, limits.window)| < limits.maxSms
    && |ToNumber(l.sends, limits.hash(m.dest.value), t2, limits.window)| < limits.maxPerNumber
  }

  /** The modem is asked exactly for messages that are to be sent, and what is reported is what came of it. */
  lemma HandledExactly(limits: Limits, l: LedgerState, m: Message, t1: real, t2: real, t3: real, ok: bool)
    ensures var h := Handle(limits, l, m, t1, t2, t3, ok);
      && (h.attempted <==> ToBeSent(limits, l, m, t1, t2))
      && (!h.attempted ==> h.ledger == l)
      && (h.attempted ==> h.reports == [if ok then Report(m.id, "sent", "") else Report(m.id, "failed", "modem_error")])
      && (m.id == "" ==> h.reports == [])
      && (m.id != "" && m.id in l.done ==> h.reports == [Report(m.id, "sent", "duplicate_suppressed")])
      && (m.id != "" && m.id !in l.done && (exists x :: m.expiresAt == Some(x) && x <= t1) ==>
            h.reports == [Report(m.id, "rejected", "expired")])
  {
    CheckExactly(limits, l, m.dest, m.text, t2);
  }

  lemma RefusalIsReported(limits: Limits, l: LedgerState, m: Message, t1: real, t2: real, t3: real, ok: bool)
    requires m.id != "" && m.id !in l.done && forall x :: m.expiresAt == Some(x) ==> t1 < x
    requires !ToBeSent(limits, l, m, t1, t2)
    ensures Check(limits, l, m.dest, m.text, t2).Some?
    ensures Handle(limits, l, m, t1, t2, t3, ok).reports
         == [Report(m.id, "rejected", Check(limits, l, m.dest, m.text, t2).value)]
  {
    CheckExactly(limits, l, m.dest, m.text, t2);
  }

  /** What is recorded of a send, and what the ledger forgets then: sends that left the window, ids after seven days. */
  lemma RecordedExactly(l: LedgerState, hash: string, id: string, now: real, window: real)
    ensures var l' := Record(l, hash, id, now, window);
      && l'.sends != [] && l'.sends[|l'.sends| - 1] == Send(now, hash)
      && (forall s :: s in l'.sends[..|l'.sends| - 1] <==> s in l.sends && now - s.at < window)
      && id in l'.done && l'.done[id] == now
      && (forall other :: other != id ==> (other in l'.done <==> other in l.done && now - l.done[other] < 604800.0))
      && (forall other <- l'.done :: other != id ==> l'.done[other] == l.done[other])
  {
    FilterMembers((s: Send) => s.at > now - window, l.sends);
    var l' := Record(l, hash, id, now, window);
    assert l'.sends[..|l'.sends| - 1] == Recent(l.sends, now, window);
  }

  // ---------------------------------------------------------------- the queue

  /** A job that is handed out when its turn comes. */
  ghost predicate Due(cfg: OutboxConfig, j: Job, now: real) {
    && now < j.expiresAt && j.attempts < cfg.maxAttempts
    && (j.state == Queued || (j.state == Leased && j.leaseUntil <= now))
  }

  ghost function IsDue(cfg: OutboxConfig, now: real): Job -> bool {
    (j: Job) => Due(cfg, j, now)
  }

  /** The job handed out, and the job given up. */
  ghost predicate GivenOut(cfg: OutboxConfig, j: Job, j': Job, now: real) {
    j' == j.(state := Leased, attempts := j.attempts + 1, leaseUntil := now + cfg.leaseSeconds)
  }

  ghost predicate GivenUp(j: Job, j': Job) {
    && j' == j.(state := Failed, error := j'.error)
    && j'.error == if j.error == "" then "gateway_no_answer" else j.error
  }

  /** What a lease does to the job at position `i`: while fewer than the limit are due before it, it is handed out if due,
      given up if only its attempts are used up, and left alone otherwise. */
  ghost predicate LeaseTreats(cfg: OutboxConfig, jobs: Jobs, after: Jobs, i: nat, now: real, limit: int)
    requires i < |jobs| == |after|
  {
    var j := jobs[i];
    var turn := |Filter(IsDue(cfg, now), jobs[..i])| < limit;
    var open := now < j.expiresAt && (j.state == Queued || (j.state == Leased && j.leaseUntil <= now));
    if turn && open then if j.attempts < cfg.maxAttempts then GivenOut(cfg, j, after[i], now) else GivenUp(j, after[i])
    else after[i] == j
  }

  lemma LeaseOneTreats(cfg: OutboxConfig, j: Job, now: real)
    ensures Grants(cfg, j, now) == Due(cfg, j, now)
    ensures Due(cfg, j, now) ==> GivenOut(cfg, j, LeaseOne(cfg, j, now), now)
    ensures var open := now < j.expiresAt && (j.state == Queued || (j.state == Leased && j.leaseUntil <= now));
      if open then j.attempts >= cfg.maxAttempts ==> GivenUp(j, LeaseOne(cfg, j, now)) else LeaseOne(cfg, j, now) == j
  {
  }

  /** A lease treats every job as it should, and hands out the first due ones, as many as the limit allows. */
  lemma {:induction false} LeasesExactly(cfg: OutboxConfig, jobs: Jobs, now: real, limit: nat)
    ensures var (after, out) := LeaseJobs(cfg, jobs, now, limit); var due := Filter(IsDue(cfg, now), jobs);
      && (forall i :: 0 <= i < |jobs| ==> LeaseTreats(cfg, jobs, after, i, now, limit))
      && |out| == (if |due| <= limit then |due| else limit)
      && (forall k :: 0 <= k < |out| ==> GivenOut(cfg, due[k], out[k], now))
  {
    if jobs != [] {
      var n := |jobs| - 1;
      LeasesExactly(cfg, jobs[..n], now, limit);
      var (before, given) := LeaseJobs(cfg, jobs[..n], now, limit);
      var (after, out) := LeaseJobs(cfg, jobs, now, limit);
      LeaseOneTreats(cfg, jobs[n], now);
      DueNext(cfg, jobs, now);
      forall i | 0 <= i < n ensures LeaseTreats(cfg, jobs, after, i, now, limit) {
        TreatsEarlier(cfg, jobs, before, after, i, now, limit);
      }
    }
  }

  lemma TreatsEarlier(cfg: OutboxConfig, jobs: Jobs, before: Jobs, after: Jobs, i: nat, now: real, limit: int)
    requires i < |before| == |jobs| - 1 && |after| == |jobs| && before == after[..|before|]
    requires LeaseTreats(cfg, jobs[..|before|], before, i, now, limit)
    ensures LeaseTreats(cfg, jobs, after, i, now, limit)
  {
    assert jobs[..|before|][..i] == jobs[..i];
  }

  lemma DueNext(cfg: OutboxConfig, jobs: Jobs, now: real)
    requires jobs != []
    ensures var n := |jobs| - 1;
      Filter(IsDue(cfg, now), jobs)
        == Filter(IsDue(cfg, now), jobs[..n]) + if Due(cfg, jobs[n], now) then [jobs[n]] else []
  {
    var n := |jobs| - 1;
    assert jobs == jobs[..n] + [jobs[n]];
    FilterConcat(IsDue(cfg, now), jobs[..n], [jobs[n]]);
  }

  /** What a report makes of a waiting job. */
  ghost predicate Told(j: Job, j': Job, status: string, reason: string) {
    if status == "sent" then j' == j.(state := Sent, error := "")
    else
      var why := if reason == "" then status else reason;
      j' == j.(state := Failed, error := if |why| <= 64 then why else why[..64])
  }

  /** A report changes the waiting job of its id and no other. */
  lemma {:induction false} ReportsExactly(jobs: Jobs, id: string, status: string, reason: string)
    requires DistinctIds(jobs)
    ensures forall i :: 0 <= i < |jobs| ==>
      var j, j' := jobs[i], ReportJob(jobs, id, status, reason)[i];
      if j.id == id && (j.state == Queued || j.state == Leased) then Told(j, j', status, reason) else j' == j
  {
    if jobs != [] && jobs[0].id != id { ReportsExactly(jobs[1..], id, status, reason); }
  }

  /** Cleaning drops the jobs that expired more than an hour ago. */
  lemma CleansExactly(jobs: Jobs, now: real, j: Job)
    ensures j in CleanJobs(jobs, now) <==> j in jobs && now - j.expiresAt <= 3600.0
  {
    FilterMembers(j => Kept(j, now), jobs);
  }

  function WaitingAt(jobs: Jobs): set<nat> {
    set i | 0 <= i < |jobs| && (jobs[i].state == Queued || jobs[i].state == Leased)
  }

  /** The queue is full by the number of positions at which a job waits. */
  lemma {:induction false} WaitingExactly(jobs: Jobs)
    ensures WaitingCount(jobs) == |WaitingAt(jobs)|
  {
    if jobs == [] {
      assert WaitingAt(jobs) == {};
    } else {
      var n := |jobs| - 1;
      WaitingExactly(jobs[..n]);
      assert jobs == jobs[..n] + [jobs[n]];
      FilterConcat(Waits, jobs[..n], [jobs[n]]);
      assert WaitingAt(jobs) == WaitingAt(jobs[..n]) + (if Waits(jobs[n]) then {n} else {});
    }
  }

  /** A message accepted for sending waits untried, and is offered as it was given; its expiry loses its fraction. */
  lemma JobIsOffered(cfg: OutboxConfig, id: string, dest: string, text: string, expiresAt: real, now: real)
    ensures var j := NewJob(id, dest, text, expiresAt);
      && (Due(cfg, j, now) <==> now < expiresAt && 0 < cfg.maxAttempts)
      && (Due(cfg, j, now) ==>
            var m := Offer(LeaseOne(cfg, j, now));
            && m.id == id && m.dest == Some(dest) && m.text == Some(text)
            && m.expiresAt == Some(expiresAt.Floor as real))
  {
  }

  // ---------------------------------------------------------------- what reaches the modem

  /** An offered message of this id to a number the gateway may reach, with a text it may send. */
  ghost predicate Allowable(cfg: Config, s: System, id: string) {
    exists m <- s.offered :: m.id == id && Reachable(cfg.limits, m.dest) && Sendable(cfg.limits, m.text)
  }

  ghost predicate PassedPolicy(cfg: Config, s: System, m: Message) {
    m in s.offered && Reachable(cfg.limits, m.dest) && Sendable(cfg.limits, m.text)
  }

  ghost predicate OnlyAllowed(cfg: Config, s: System) {
    && (forall id <- s.modem :: Allowable(cfg, s, id))
    && match s.stage
       case Idle => true
       case Vetted(m) => m in s.offered
       case Allowed(m, _) => PassedPolicy(cfg, s, m)
       case Recorded(m) => PassedPolicy(cfg, s, m)
  }

  lemma OnlyAllowedFrame(cfg: Config, s: System, s': System)
    requires OnlyAllowed(cfg, s) && s'.modem == s.modem && s.offered <= s'.offered
    requires s'.stage == s.stage || s'.stage == Idle
    ensures OnlyAllowed(cfg, s')
  {
    forall id | id in s'.modem ensures Allowable(cfg, s', id) { assert Allowable(cfg, s, id); }
  }

  lemma BeginOnlyAllowed(cfg: Config, s: System, s': System, m: Message)
    requires OnlyAllowed(cfg, s) && Genuine(cfg, s) && BeginStep(s, m) == Some(s')
    ensures OnlyAllowed(cfg, s')
  {
    forall id | id in s'.modem ensures Allowable(cfg, s', id) { assert Allowable(cfg, s, id); }
  }

  lemma AskOnlyAllowed(cfg: Config, s: System, s': System)
    requires OnlyAllowed(cfg, s) && AskStep(cfg, s) == Some(s')
    ensures OnlyAllowed(cfg, s')
  {
    CheckExactly(cfg.limits, s.ledger, s.stage.m.dest, s.stage.m.text, s.now);
    forall id | id in s'.modem ensures Allowable(cfg, s', id) { assert Allowable(cfg, s, id); }
  }

  lemma NoteOnlyAllowed(cfg: Config, s: System, s': System)
    requires OnlyAllowed(cfg, s) && NoteStep(cfg, s) == Some(s')
    ensures OnlyAllowed(cfg, s')
  {
    forall id | id in s'.modem ensures Allowable(cfg, s', id) { assert Allowable(cfg, s, id); }
  }

  lemma TransmitOnlyAllowed(cfg: Config, s: System, s': System, ok: bool)
    requires OnlyAllowed(cfg, s) && TransmitStep(s, ok) == Some(s')
    ensures OnlyAllowed(cfg, s')
  {
    forall id | id in s'.modem ensures Allowable(cfg, s', id) {
      if id == s.stage.m.id { assert PassedPolicy(cfg, s, s.stage.m); } else { assert Allowable(cfg, s, id); }
    }
  }

  lemma StepOnlyAllowed(cfg: Config, s: System, s': System, a: Action)
    requires OnlyAllowed(cfg, s) && Genuine(cfg, s) && Step(cfg, s, a) == Some(s')
    ensures OnlyAllowed(cfg, s')
  {
    if IsServers(a) {
      ServerSteps(cfg, s, s', a);
      OnlyAllowedFrame(cfg, s, s');
    } else {
      match a
      case Begin(m) => BeginOnlyAllowed(cfg, s, s', m);
      case Ask => AskOnlyAllowed(cfg, s, s');
      case Note => NoteOnlyAllowed(cfg, s, s');
      case Transmit(ok) => TransmitOnlyAllowed(cfg, s, s', ok);
      case _ => OnlyAllowedFrame(cfg, s, s');
    }
  }

  /** In every run only messages that were offered, to numbers the gateway may reach and with texts it may send, get to the
      modem. */
  lemma {:induction false} OnlyAllowedReachModem(cfg: Config, start: real, actions: seq<Action>)
    requires Run(cfg, start, actions).Some?
    ensures OnlyAllowed(cfg, Run(cfg, start, actions).value)
  {
    if actions != [] {
      var n := |actions| - 1;
      OnlyAllowedReachModem(cfg, start, actions[..n]);
      RunIsGenuine(cfg, start, actions[..n]);
      StepOnlyAllowed(cfg, Run(cfg, start, actions[..n]).value, Run(cfg, start, actions).value, actions[n]);
    }
  }
}
