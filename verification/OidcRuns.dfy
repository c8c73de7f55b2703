/** Every interleaving of submissions, fetched updates, approvals, redemptions and cleanups of the bridge. */
module OidcRuns {
  import opened Options
  import opened Json
  import opened Events
  import opened Sigchains
  import opened DeviceLaws
  import opened Fetchers
  import opened Assertions
  import opened Attestations
  import opened Oidc
  import opened OidcLaws

  /** What a code was issued for: the approval, and how each of its presentations was looked at. */
  datatype Issue = Issue(approval: Approval, items: seq<Item>)

  function ClaimsOf(cfg: Config, issue: Issue): map<string, VerifiedClaim> {
    Release(cfg, issue.approval.opening.scopes, issue.approval.chain, issue.items)
  }

  function IssuedCode(cfg: Config, issue: Issue): AuthCode {
    CodeOf(cfg, issue.approval, ClaimsOf(cfg, issue))
  }

  /** A redemption that yielded a token. */
  datatype Redemption = Redemption(token: string, code: string, client: Client, redirectUri: Option<string>,
                                   verifier: Option<string>, at: int)

  /** The provider, the approvals whose presentations are being evaluated, and the history. */
  datatype Machine = Machine(now: int, s: Tables, approving: multiset<Approval>, openings: map<string, Opening>,
                             nonces: map<string, string>, issued: map<string, Issue>, redeemed: seq<Redemption>)

  datatype Action =
    | Tick(at: int)
    | OpenAttempt(id: string, opening: Opening, nonce: string)
    | SubmitAssertion(id: string, sub: Submission, stored: Option<Chain>, spare: string, scheduled: bool)
    | FetchRequest(id: string, spare: string)
    | IdentityUpdate(id: string, identity: string, chain: Chain, spare: string, scheduled: bool)
    | Approve(p: Approval, code: string, items: seq<Item>)
    | ExchangeCode(client: Client, code: string, redirectUri: Option<string>, verifier: Option<string>, token: string)
    | CleanUp

  function Begin(now: int): Machine {
    Machine(now, Tables(map[], map[], map[]), multiset{}, map[], map[], map[], [])
  }

  /** Records what an attempt's evaluation led to; a nonce used is that attempt's. */
  function Noted(m: Machine, s: Tables, outcome: Outcome, id: string, spare: string): Machine {
    m.(s := s, approving := if outcome.Approving? then m.approving + multiset{outcome.approval} else m.approving,
       nonces := m.nonces[spare := id])
  }

  predicate TokenUnused(m: Machine, token: string) {
    forall r <- m.redeemed :: r.token != token
  }

  /** The items are the approval's presentations, each evaluated since the assertion was accepted. */
  predicate LookedAt(p: Approval, items: seq<Item>, now: int) {
    |items| == |p.shown| && forall i :: 0 <= i < |items| ==> items[i].shown == p.shown[i] && p.at <= items[i].at <= now
  }

  function OpenStep(cfg: Config, m: Machine, id: string, opening: Opening, nonce: string): Option<Machine> {
    if id in m.openings || nonce in m.nonces then None
    else Some(m.(s := Open(cfg, m.s, id, opening, nonce, m.now).0, openings := m.openings[id := opening],
                 nonces := m.nonces[nonce := id]))
  }

  function SubmitStep(cfg: Config, m: Machine, id: string, sub: Submission, stored: Option<Chain>, spare: string,
                      scheduled: bool): Option<Machine> {
    if id !in m.openings || spare in m.nonces then None
    else
      var (s, outcome) := Submit(cfg, m.s, id, sub, stored, m.now, spare, scheduled);
      Some(Noted(m, s, outcome, id, spare))
  }

  function RequestStep(m: Machine, id: string, spare: string): Option<Machine> {
    if id !in m.openings || spare in m.nonces then None
    else Some(Noted(m, Oidc.FetchRequest(m.s, id, m.now, spare), Refused("none"), id, spare))
  }

  function UpdateStep(cfg: Config, m: Machine, id: string, identity: string, chain: Chain, spare: string, scheduled: bool)
    : Option<Machine>
  {
    if id !in m.openings || spare in m.nonces then None
    else
      var (s, outcome) := Reevaluate(cfg, m.s, id, identity, chain, m.now, spare, scheduled);
      Some(Noted(m, s, outcome, id, spare))
  }

  function ApproveStep(cfg: Config, m: Machine, p: Approval, code: string, items: seq<Item>): Option<Machine> {
    if p !in m.approving || code in m.issued || !LookedAt(p, items, m.now) then None
    else
      var issue := Issue(p, items);
      Some(m.(s := Finish(cfg, m.s, p, code, ClaimsOf(cfg, issue)), approving := m.approving - multiset{p},
              issued := m.issued[code := issue]))
  }

  function ExchangeStep(cfg: Config, m: Machine, client: Client, code: string, redirectUri: Option<string>,
                        verifier: Option<string>, token: string): Option<Machine> {
    if !TokenUnused(m, token) then None
    else
      var (s, ok) := Exchange(cfg, m.s, client, code, redirectUri, verifier, m.now, token);
      var redeemed := if ok then [Redemption(token, code, client, redirectUri, verifier, m.now)] else [];
      Some(m.(s := s, redeemed := m.redeemed + redeemed))
  }

  /** None when the action cannot happen. Random ids, nonces, codes and tokens are ones not drawn before. */
  function Step(cfg: Config, m: Machine, a: Action): Option<Machine> {
    match a
    case Tick(at) => if at < m.now then None else Some(m.(now := at))
    case OpenAttempt(id, opening, nonce) => OpenStep(cfg, m, id, opening, nonce)
    case SubmitAssertion(id, sub, stored, spare, scheduled) => SubmitStep(cfg, m, id, sub, stored, spare, scheduled)
    case FetchRequest(id, spare) => RequestStep(m, id, spare)
    case IdentityUpdate(id, identity, chain, spare, scheduled) => UpdateStep(cfg, m, id, identity, chain, spare, scheduled)
    case Approve(p, code, items) => ApproveStep(cfg, m, p, code, items)
    case ExchangeCode(client, code, redirectUri, verifier, token) =>
      ExchangeStep(cfg, m, client, code, redirectUri, verifier, token)
    case CleanUp => Some(m.(s := Cleaned(m.s, m.now)))
  }

  function Run(cfg: Config, start: int, actions: seq<Action>): Option<Machine> {
    if actions == [] then Some(Begin(start))
    else match Run(cfg, start, actions[..|actions| - 1])
      case None => None
      case Some(m) => Step(cfg, m, actions[|actions| - 1])
  }

  // ---------------------------------------------------------------- the invariant

  ghost predicate NonceOf(m: Machine, nonce: string, id: string) {
    nonce in m.nonces && m.nonces[nonce] == id
  }

  /** The assertion answered a nonce of this attempt. */
  ghost predicate Answers(m: Machine, d: map<string, Value>, id: string) {
    "nonce" in d && d["nonce"].Str? && NonceOf(m, d["nonce"].s, id)
  }

  ghost predicate AttemptGenuine(m: Machine, id: string, a: Attempt) {
    && id in m.openings && m.openings[id] == a.opening && NonceOf(m, a.nonce, id)
    && (a.held.Some? ==> Answers(m, a.held.value, id))
  }

  /** The approval's assertion was accepted for this issuer, and answered a challenge of the attempt it approves. */
  ghost predicate ApprovalGenuine(cfg: Config, m: Machine, p: Approval) {
    && p.attempt in m.openings && m.openings[p.attempt] == p.opening
    && VerifyAssertion(cfg.c, cfg.signs, p.assertion, p.chain, cfg.issuer, p.at) == Accepted(p.fields)
    && Answers(m, p.assertion, p.attempt)
  }

  ghost predicate IssueGenuine(cfg: Config, m: Machine, issue: Issue) {
    ApprovalGenuine(cfg, m, issue.approval) && LookedAt(issue.approval, issue.items, m.now)
  }

  ghost predicate Genuine(cfg: Config, m: Machine) {
    && (forall id <- m.s.attempts :: AttemptGenuine(m, id, m.s.attempts[id]))
    && (forall p <- m.approving :: ApprovalGenuine(cfg, m, p))
    && (forall code <- m.issued :: IssueGenuine(cfg, m, m.issued[code]))
  }

  ghost predicate CodeGenuine(cfg: Config, m: Machine, code: string) {
    && code in m.s.codes && code in m.issued
    && m.s.codes[code] == IssuedCode(cfg, m.issued[code])
    && forall r <- m.redeemed :: r.code != code
  }

  /** Redeemed with the client, redirect address and code challenge of the attempt that opened it, and in time. */
  ghost predicate RedeemedRightly(cfg: Config, m: Machine, r: Redemption) {
    && r.code in m.issued
    && MayRedeem(cfg, IssuedCode(cfg, m.issued[r.code]), r.client, r.redirectUri, r.verifier, r.at)
  }

  ghost predicate TokenGenuine(cfg: Config, m: Machine, token: string)
    requires token in m.s.tokens
  {
    exists r <- m.redeemed :: r.token == token && r.code in m.issued
      && m.s.tokens[token] == TokenOf(cfg, IssuedCode(cfg, m.issued[r.code]), r.at)
  }

  ghost predicate OnceEach(m: Machine) {
    forall i, j :: 0 <= i < j < |m.redeemed| ==>
      m.redeemed[i].code != m.redeemed[j].code && m.redeemed[i].token != m.redeemed[j].token
  }

  ghost predicate Traced(cfg: Config, m: Machine) {
    && (forall code <- m.s.codes :: CodeGenuine(cfg, m, code))
    && (forall r <- m.redeemed :: RedeemedRightly(cfg, m, r))
    && (forall token <- m.s.tokens :: TokenGenuine(cfg, m, token))
    && OnceEach(m)
  }

  // ---------------------------------------------------------------- every step keeps it

  ghost predicate Later(m: Machine, m': Machine) {
    && m.now <= m'.now
    && (forall id <- m.openings :: id in m'.openings && m'.openings[id] == m.openings[id])
    && (forall nonce <- m.nonces :: nonce in m'.nonces && m'.nonces[nonce] == m.nonces[nonce])
  }

  lemma ApprovalStaysGenuine(cfg: Config, m: Machine, m': Machine, p: Approval)
    requires Later(m, m') && ApprovalGenuine(cfg, m, p)
    ensures ApprovalGenuine(cfg, m', p)
  {
  }

  /** What is new is genuine, so everything is. */
  lemma GenuineStays(cfg: Config, m: Machine, m': Machine)
    requires Genuine(cfg, m) && Later(m, m')
    requires forall id <- m'.s.attempts :: (id in m.s.attempts && m'.s.attempts[id] == m.s.attempts[id])
                                        || AttemptGenuine(m', id, m'.s.attempts[id])
    requires forall p <- m'.approving :: p in m.approving || ApprovalGenuine(cfg, m', p)
    requires forall code <- m'.issued :: (code in m.issued && m'.issued[code] == m.issued[code])
                                      || (m'.issued[code].approval in m.approving
                                          && LookedAt(m'.issued[code].approval, m'.issued[code].items, m'.now))
    ensures Genuine(cfg, m')
  {
    forall id | id in m'.s.attempts ensures AttemptGenuine(m', id, m'.s.attempts[id]) {
      if id in m.s.attempts && m'.s.attempts[id] == m.s.attempts[id] { assert AttemptGenuine(m, id, m.s.attempts[id]); }
    }
    forall p | p in m'.approving ensures ApprovalGenuine(cfg, m', p) {
      if p in m.approving { ApprovalStaysGenuine(cfg, m, m', p); }
    }
    forall code | code in m'.issued ensures IssueGenuine(cfg, m', m'.issued[code]) {
      if code in m.issued && m'.issued[code] == m.issued[code] { assert IssueGenuine(cfg, m, m.issued[code]); }
      ApprovalStaysGenuine(cfg, m, m', m'.issued[code].approval);
    }
  }

  lemma EvaluateGenuine(cfg: Config, m: Machine, id: string, a: Attempt, d: map<string, Value>, chain: Chain, now: int,
                        afterFetch: bool, spare: string, scheduled: bool)
    requires AttemptGenuine(m, id, a) && Answers(m, d, id) && NonceOf(m, spare, id)
    ensures var (a', outcome) := Evaluate(cfg, id, a, d, chain, now, afterFetch, spare, scheduled);
      AttemptGenuine(m, id, a') && (outcome.Approving? ==> ApprovalGenuine(cfg, m, outcome.approval))
  {
  }

  lemma ConsiderGenuine(cfg: Config, m: Machine, id: string, a: Attempt, shown: Presentations, d: map<string, Value>,
                        chain: Option<Chain>, now: int, spare: string, scheduled: bool)
    requires AttemptGenuine(m, id, a) && Answers(m, d, id) && NonceOf(m, spare, id)
    ensures var (a', outcome) := Consider(cfg, id, a, shown, d, chain, now, spare, scheduled);
      AttemptGenuine(m, id, a') && (outcome.Approving? ==> ApprovalGenuine(cfg, m, outcome.approval))
  {
    var presenting := Presenting(a, shown);
    if presenting.Some? && chain.Some? {
      EvaluateGenuine(cfg, m, id, presenting.value, d, chain.value, now, false, spare, scheduled);
    }
  }

  lemma SubmitToGenuine(cfg: Config, m: Machine, id: string, a: Attempt, sub: Submission, stored: Option<Chain>, now: int,
                        spare: string, scheduled: bool)
    requires AttemptGenuine(m, id, a) && NonceOf(m, spare, id)
    ensures var (a', outcome) := SubmitTo(cfg, id, a, sub, stored, now, spare, scheduled);
      AttemptGenuine(m, id, a') && (outcome.Approving? ==> ApprovalGenuine(cfg, m, outcome.approval))
  {
    var live := Rotated(a, now, spare);
    assert AttemptGenuine(m, id, live);
    if sub.assertion.Obj? && Answers(m, sub.assertion.fields, id) {
      var choice := ChooseSigchain(cfg.c, stored, if sub.supplied.Copy? then Some(sub.supplied.chain) else None);
      if choice.Chosen? {
        ConsiderGenuine(cfg, m, id, live, sub.shown, sub.assertion.fields, choice.chain, now, spare, scheduled);
      }
    }
  }

  /** A step on one attempt leaves everything else alone. */
  ghost predicate OnlyAttempt(s: Tables, s': Tables, id: string) {
    && s'.codes == s.codes && s'.tokens == s.tokens && s'.attempts.Keys == s.attempts.Keys
    && forall other <- s.attempts :: other != id ==> s'.attempts[other] == s.attempts[other]
  }

  lemma RefreshGenuine(m: Machine, id: string, a: Attempt, now: int)
    requires AttemptGenuine(m, id, a)
    ensures AttemptGenuine(m, id, Refresh(a, now))
  {
  }

  lemma SubmitKeeps(cfg: Config, m: Machine, s: Tables, id: string, sub: Submission, stored: Option<Chain>, now: int,
                    spare: string, scheduled: bool)
    requires NonceOf(m, spare, id) && (id in s.attempts ==> AttemptGenuine(m, id, s.attempts[id]))
    ensures var (s', outcome) := Submit(cfg, s, id, sub, stored, now, spare, scheduled);
      && OnlyAttempt(s, s', id)
      && (id in s.attempts ==> AttemptGenuine(m, id, s'.attempts[id]))
      && (outcome.Approving? ==> ApprovalGenuine(cfg, m, outcome.approval))
  {
    if id in s.attempts {
      RefreshGenuine(m, id, s.attempts[id], now);
      SubmitToGenuine(cfg, m, id, Refresh(s.attempts[id], now), sub, stored, now, spare, scheduled);
    }
  }

  lemma ReevaluateKeeps(cfg: Config, m: Machine, s: Tables, id: string, identity: string, chain: Chain, now: int,
                        spare: string, scheduled: bool)
    requires NonceOf(m, spare, id) && (id in s.attempts ==> AttemptGenuine(m, id, s.attempts[id]))
    ensures var (s', outcome) := Reevaluate(cfg, s, id, identity, chain, now, spare, scheduled);
      && OnlyAttempt(s, s', id)
      && (id in s.attempts ==> AttemptGenuine(m, id, s'.attempts[id]))
      && (outcome.Approving? ==> ApprovalGenuine(cfg, m, outcome.approval))
  {
    if id in s.attempts {
      var a := Refresh(s.attempts[id], now);
      if a.held.Some? { EvaluateGenuine(cfg, m, id, a, a.held.value, chain, now, true, spare, scheduled); }
    }
  }

  lemma NotedGenuine(cfg: Config, m: Machine, s': Tables, outcome: Outcome, id: string, spare: string)
    requires Genuine(cfg, m) && spare !in m.nonces && OnlyAttempt(m.s, s', id)
    requires var m' := Noted(m, s', outcome, id, spare);
      && (id in m.s.attempts ==> AttemptGenuine(m', id, s'.attempts[id]))
      && (outcome.Approving? ==> ApprovalGenuine(cfg, m', outcome.approval))
    ensures Genuine(cfg, Noted(m, s', outcome, id, spare))
  {
    GenuineStays(cfg, m, Noted(m, s', outcome, id, spare));
  }

  /** The nonce is the attempt's from now on. */
  lemma WithSpare(m: Machine, m': Machine, id: string, spare: string)
    requires spare !in m.nonces && m'.now == m.now && m'.openings == m.openings && m'.nonces == m.nonces[spare := id]
    ensures NonceOf(m', spare, id) && Later(m, m')
    ensures forall a :: AttemptGenuine(m, id, a) ==> AttemptGenuine(m', id, a)
  {
  }

  lemma SubmitGenuine(cfg: Config, m: Machine, m': Machine, a: Action)
    requires Genuine(cfg, m) && a.SubmitAssertion? && Step(cfg, m, a) == Some(m')
    ensures Genuine(cfg, m')
  {
    WithSpare(m, m', a.id, a.spare);
    SubmitKeeps(cfg, m', m.s, a.id, a.sub, a.stored, m.now, a.spare, a.scheduled);
    var (s, outcome) := Submit(cfg, m.s, a.id, a.sub, a.stored, m.now, a.spare, a.scheduled);
    NotedGenuine(cfg, m, s, outcome, a.id, a.spare);
  }

  lemma FetchRequestGenuine(cfg: Config, m: Machine, m': Machine, a: Action)
    requires Genuine(cfg, m) && a.FetchRequest? && Step(cfg, m, a) == Some(m')
    ensures Genuine(cfg, m')
  {
    WithSpare(m, m', a.id, a.spare);
    RequestKeeps(m', m.s, a.id, m.now, a.spare);
    NotedGenuine(cfg, m, Oidc.FetchRequest(m.s, a.id, m.now, a.spare), Refused("none"), a.id, a.spare);
  }

  lemma RequestKeeps(m: Machine, s: Tables, id: string, now: int, spare: string)
    requires NonceOf(m, spare, id) && (id in s.attempts ==> AttemptGenuine(m, id, s.attempts[id]))
    ensures var s' := Oidc.FetchRequest(s, id, now, spare);
      OnlyAttempt(s, s', id) && (id in s.attempts ==> AttemptGenuine(m, id, s'.attempts[id]))
  {
    if id in s.attempts { RefreshGenuine(m, id, s.attempts[id], now); }
  }

  lemma UpdateGenuine(cfg: Config, m: Machine, m': Machine, a: Action)
    requires Genuine(cfg, m) && a.IdentityUpdate? && Step(cfg, m, a) == Some(m')
    ensures Genuine(cfg, m')
  {
    WithSpare(m, m', a.id, a.spare);
    ReevaluateKeeps(cfg, m', m.s, a.id, a.identity, a.chain, m.now, a.spare, a.scheduled);
    var (s, outcome) := Reevaluate(cfg, m.s, a.id, a.identity, a.chain, m.now, a.spare, a.scheduled);
    NotedGenuine(cfg, m, s, outcome, a.id, a.spare);
  }

  lemma CompletedGenuine(m: Machine, p: Approval)
    requires p.attempt in m.s.attempts && AttemptGenuine(m, p.attempt, m.s.attempts[p.attempt])
    ensures AttemptGenuine(m, p.attempt, Completed(m.s.attempts[p.attempt], p))
  {
  }

  lemma FinishFrame(cfg: Config, s: Tables, p: Approval, code: string, claims: map<string, VerifiedClaim>)
    ensures var s' := Finish(cfg, s, p, code, claims);
      && s'.attempts.Keys == s.attempts.Keys
      && forall id <- s.attempts :: s'.attempts[id] == if id == p.attempt then Completed(s.attempts[id], p) else s.attempts[id]
  {
  }

  lemma ApproveGenuine(cfg: Config, m: Machine, m': Machine, p: Approval, code: string, items: seq<Item>)
    requires Genuine(cfg, m) && ApproveStep(cfg, m, p, code, items) == Some(m')
    ensures Genuine(cfg, m')
  {
    assert Later(m, m');
    FinishFrame(cfg, m.s, p, code, ClaimsOf(cfg, Issue(p, items)));
    forall id | id in m'.s.attempts ensures AttemptGenuine(m', id, m'.s.attempts[id]) {
      assert AttemptGenuine(m, id, m.s.attempts[id]);
      if id == p.attempt { CompletedGenuine(m, p); }
    }
    forall q | q in m'.approving ensures ApprovalGenuine(cfg, m', q) { ApprovalStaysGenuine(cfg, m, m', q); }
    forall x | x in m'.issued ensures IssueGenuine(cfg, m', m'.issued[x]) {
      if x == code { ApprovalStaysGenuine(cfg, m, m', p); } else { IssueStaysGenuine(cfg, m, m', m.issued[x]); }
    }
  }

  lemma IssueStaysGenuine(cfg: Config, m: Machine, m': Machine, issue: Issue)
    requires Later(m, m') && IssueGenuine(cfg, m, issue)
    ensures IssueGenuine(cfg, m', issue)
  {
    ApprovalStaysGenuine(cfg, m, m', issue.approval);
  }

  /** Only time has passed, or attempts, codes and tokens have gone. */
  lemma QuietGenuine(cfg: Config, m: Machine, m': Machine)
    requires Genuine(cfg, m) && m.now <= m'.now
    requires m'.openings == m.openings && m'.nonces == m.nonces && m'.approving == m.approving && m'.issued == m.issued
    requires forall id <- m'.s.attempts :: id in m.s.attempts && m'.s.attempts[id] == m.s.attempts[id]
    ensures Genuine(cfg, m')
  {
    GenuineStays(cfg, m, m');
  }

  lemma ExchangeGenuine(cfg: Config, m: Machine, m': Machine, client: Client, code: string, redirectUri: Option<string>,
                        verifier: Option<string>, token: string)
    requires Genuine(cfg, m) && ExchangeStep(cfg, m, client, code, redirectUri, verifier, token) == Some(m')
    ensures Genuine(cfg, m')
  {
    QuietGenuine(cfg, m, m');
  }

  lemma OpenFrame(cfg: Config, s: Tables, id: string, opening: Opening, nonce: string, now: int)
    ensures forall i <- Open(cfg, s, id, opening, nonce, now).0.attempts ::
      var a := Open(cfg, s, id, opening, nonce, now).0.attempts[i];
      (i == id && a == NewAttempt(cfg, opening, nonce, now)) || (i in s.attempts && a == s.attempts[i])
  {
  }

  lemma OpenGenuine(cfg: Config, m: Machine, m': Machine, id: string, opening: Opening, nonce: string)
    requires Genuine(cfg, m) && id !in m.openings && nonce !in m.nonces
    requires m' == m.(s := m'.s, openings := m.openings[id := opening], nonces := m.nonces[nonce := id])
    requires m'.s == Open(cfg, m.s, id, opening, nonce, m.now).0
    ensures Genuine(cfg, m')
  {
    OpenFrame(cfg, m.s, id, opening, nonce, m.now);
    assert AttemptGenuine(m', id, NewAttempt(cfg, opening, nonce, m.now));
    GenuineStays(cfg, m, m');
  }

  lemma StepGenuine(cfg: Config, m: Machine, m': Machine, a: Action)
    requires Genuine(cfg, m) && Step(cfg, m, a) == Some(m')
    ensures Genuine(cfg, m')
  {
    match a
    case OpenAttempt(id, opening, nonce) => OpenGenuine(cfg, m, m', id, opening, nonce);
    case SubmitAssertion(_, _, _, _, _) => SubmitGenuine(cfg, m, m', a);
    case IdentityUpdate(_, _, _, _, _) => UpdateGenuine(cfg, m, m', a);
    case FetchRequest(_, _) => FetchRequestGenuine(cfg, m, m', a);
    case Approve(p, code, items) => ApproveGenuine(cfg, m, m', p, code, items);
    case ExchangeCode(client, code, redirectUri, verifier, token) =>
      ExchangeGenuine(cfg, m, m', client, code, redirectUri, verifier, token);
    case Tick(_) => QuietGenuine(cfg, m, m');
    case CleanUp => QuietGenuine(cfg, m, m');
  }

  /** Nothing new was issued, nothing redeemed, and no code or token added. */
  lemma TracedStays(cfg: Config, m: Machine, m': Machine)
    requires Traced(cfg, m) && m'.issued == m.issued && m'.redeemed == m.redeemed
    requires forall code <- m'.s.codes :: code in m.s.codes && m'.s.codes[code] == m.s.codes[code]
    requires forall token <- m'.s.tokens :: token in m.s.tokens && m'.s.tokens[token] == m.s.tokens[token]
    ensures Traced(cfg, m')
  {
    forall code | code in m'.s.codes ensures CodeGenuine(cfg, m', code) { assert CodeGenuine(cfg, m, code); }
    forall r | r in m'.redeemed ensures RedeemedRightly(cfg, m', r) { assert RedeemedRightly(cfg, m, r); }
    forall token | token in m'.s.tokens ensures TokenGenuine(cfg, m', token) { assert TokenGenuine(cfg, m, token); }
  }

  lemma ApprovedTokenStays(cfg: Config, m: Machine, m': Machine, code: string, token: string)
    requires token in m.s.tokens && TokenGenuine(cfg, m, token) && code !in m.issued
    requires m'.s.tokens == m.s.tokens && m'.redeemed == m.redeemed
    requires code in m'.issued && m'.issued == m.issued[code := m'.issued[code]]
    ensures TokenGenuine(cfg, m', token)
  {
    var r :| r in m.redeemed && r.token == token && r.code in m.issued
      && m.s.tokens[token] == TokenOf(cfg, IssuedCode(cfg, m.issued[r.code]), r.at);
    assert r in m'.redeemed;
  }

  lemma ApproveTraced(cfg: Config, m: Machine, m': Machine, a: Action)
    requires Traced(cfg, m) && a.Approve? && Step(cfg, m, a) == Some(m')
    ensures Traced(cfg, m')
  {
    forall r | r in m'.redeemed ensures RedeemedRightly(cfg, m', r) && r.code != a.code {
      assert RedeemedRightly(cfg, m, r);
    }
    forall code | code in m'.s.codes ensures CodeGenuine(cfg, m', code) {
      if code != a.code { assert CodeGenuine(cfg, m, code); }
    }
    forall token | token in m'.s.tokens ensures TokenGenuine(cfg, m', token) {
      ApprovedTokenStays(cfg, m, m', a.code, token);
    }
  }

  /** A redemption: the code is gone, and the token is what the code says. */
  lemma RedeemTraced(cfg: Config, m: Machine, m': Machine, a: Action, r: Redemption)
    requires Traced(cfg, m) && a.ExchangeCode? && TokenUnused(m, a.token) && a.code in m.s.codes
    requires r == Redemption(a.token, a.code, a.client, a.redirectUri, a.verifier, m.now)
    requires MayRedeem(cfg, m.s.codes[a.code], a.client, a.redirectUri, a.verifier, m.now)
    requires m' == m.(s := m.s.(codes := m.s.codes - {a.code},
                                tokens := m.s.tokens[a.token := TokenOf(cfg, m.s.codes[a.code], m.now)]),
                      redeemed := m.redeemed + [r])
    ensures Traced(cfg, m')
  {
    RedeemOnce(cfg, m, m', a, r);
    assert CodeGenuine(cfg, m, a.code);
    forall code | code in m'.s.codes ensures CodeGenuine(cfg, m', code) { assert CodeGenuine(cfg, m, code); }
    forall x | x in m'.redeemed ensures RedeemedRightly(cfg, m', x) {
      if x in m.redeemed { assert RedeemedRightly(cfg, m, x); }
    }
    assert r in m'.redeemed by { assert m'.redeemed[|m.redeemed|] == r; }
    forall token | token in m'.s.tokens ensures TokenGenuine(cfg, m', token) {
      if token != a.token { TokenStaysGenuine(cfg, m, m', token); }
    }
  }

  lemma TokenStaysGenuine(cfg: Config, m: Machine, m': Machine, token: string)
    requires token in m.s.tokens && TokenGenuine(cfg, m, token)
    requires token in m'.s.tokens && m'.s.tokens[token] == m.s.tokens[token] && m'.issued == m.issued
    requires forall r <- m.redeemed :: r in m'.redeemed
    ensures TokenGenuine(cfg, m', token)
  {
    var x :| x in m.redeemed && x.token == token && x.code in m.issued
      && m.s.tokens[token] == TokenOf(cfg, IssuedCode(cfg, m.issued[x.code]), x.at);
    assert x in m'.redeemed;
  }

  lemma RedeemOnce(cfg: Config, m: Machine, m': Machine, a: Action, r: Redemption)
    requires OnceEach(m) && a.ExchangeCode? && TokenUnused(m, a.token) && CodeGenuine(cfg, m, a.code)
    requires r.token == a.token && r.code == a.code && m'.redeemed == m.redeemed + [r]
    ensures OnceEach(m')
  {
    forall i, j | 0 <= i < j < |m'.redeemed|
      ensures m'.redeemed[i].code != m'.redeemed[j].code && m'.redeemed[i].token != m'.redeemed[j].token
    {
      assert m'.redeemed[i] == m.redeemed[i] && m.redeemed[i] in m.redeemed;
    }
  }

  lemma ExchangeTraced(cfg: Config, m: Machine, m': Machine, a: Action)
    requires Traced(cfg, m) && a.ExchangeCode? && Step(cfg, m, a) == Some(m')
    ensures Traced(cfg, m')
  {
    if a.code in m.s.codes && MayRedeem(cfg, m.s.codes[a.code], a.client, a.redirectUri, a.verifier, m.now) {
      RedeemTraced(cfg, m, m', a, Redemption(a.token, a.code, a.client, a.redirectUri, a.verifier, m.now));
    } else {
      assert m.redeemed + [] == m.redeemed;
      TracedStays(cfg, m, m');
    }
  }

  /** No code was issued or added, and no token. */
  ghost predicate CodesShrink(m: Machine, m': Machine) {
    && m'.issued == m.issued && m'.redeemed == m.redeemed
    && (forall code <- m'.s.codes :: code in m.s.codes && m'.s.codes[code] == m.s.codes[code])
    && (forall token <- m'.s.tokens :: token in m.s.tokens && m'.s.tokens[token] == m.s.tokens[token])
  }

  lemma OpenShrinks(cfg: Config, m: Machine, m': Machine, id: string, opening: Opening, nonce: string)
    requires OpenStep(cfg, m, id, opening, nonce) == Some(m')
    ensures CodesShrink(m, m')
  {
  }

  lemma SubmitShrinks(cfg: Config, m: Machine, m': Machine, id: string, sub: Submission, stored: Option<Chain>, spare: string,
                      scheduled: bool)
    requires SubmitStep(cfg, m, id, sub, stored, spare, scheduled) == Some(m')
    ensures CodesShrink(m, m')
  {
    var (s, outcome) := Submit(cfg, m.s, id, sub, stored, m.now, spare, scheduled);
    assert s.codes == m.s.codes && s.tokens == m.s.tokens;
  }

  lemma UpdateShrinks(cfg: Config, m: Machine, m': Machine, id: string, identity: string, chain: Chain, spare: string,
                      scheduled: bool)
    requires UpdateStep(cfg, m, id, identity, chain, spare, scheduled) == Some(m')
    ensures CodesShrink(m, m')
  {
    var (s, outcome) := Reevaluate(cfg, m.s, id, identity, chain, m.now, spare, scheduled);
    assert s.codes == m.s.codes && s.tokens == m.s.tokens;
  }

  lemma RequestShrinks(m: Machine, m': Machine, id: string, spare: string)
    requires RequestStep(m, id, spare) == Some(m')
    ensures CodesShrink(m, m')
  {
  }

  /** Only approvals add codes, and only redemptions add tokens. */
  lemma StepShrinks(cfg: Config, m: Machine, m': Machine, a: Action)
    requires !a.Approve? && !a.ExchangeCode? && Step(cfg, m, a) == Some(m')
    ensures CodesShrink(m, m')
  {
    match a
    case OpenAttempt(id, opening, nonce) => OpenShrinks(cfg, m, m', id, opening, nonce);
    case SubmitAssertion(id, sub, stored, spare, scheduled) => SubmitShrinks(cfg, m, m', id, sub, stored, spare, scheduled);
    case FetchRequest(id, spare) => RequestShrinks(m, m', id, spare);
    case IdentityUpdate(id, identity, chain, spare, scheduled) =>
      UpdateShrinks(cfg, m, m', id, identity, chain, spare, scheduled);
    case _ =>
  }

  lemma StepTraced(cfg: Config, m: Machine, m': Machine, a: Action)
    requires Traced(cfg, m) && Step(cfg, m, a) == Some(m')
    ensures Traced(cfg, m')
  {
    if a.Approve? {
      ApproveTraced(cfg, m, m', a);
    } else if a.ExchangeCode? {
      ExchangeTraced(cfg, m, m', a);
    } else {
      StepShrinks(cfg, m, m', a);
      TracedStays(cfg, m, m');
    }
  }

  lemma {:induction false} RunIsTraced(cfg: Config, start: int, actions: seq<Action>)
    requires Run(cfg, start, actions).Some?
    ensures Genuine(cfg, Run(cfg, start, actions).value) && Traced(cfg, Run(cfg, start, actions).value)
  {
    if actions != [] {
      var n := |actions| - 1;
      RunIsTraced(cfg, start, actions[..n]);
      var m, m' := Run(cfg, start, actions[..n]).value, Run(cfg, start, actions).value;
      StepGenuine(cfg, m, m', actions[n]);
      StepTraced(cfg, m, m', actions[n]);
    }
  }

  // ---------------------------------------------------------------- the theorems

  /** Each code yields tokens at most once, however calls interleave. */
  lemma CodesYieldTokensOnce(cfg: Config, start: int, actions: seq<Action>, i: nat, j: nat)
    requires Run(cfg, start, actions).Some? && i < j < |Run(cfg, start, actions).value.redeemed|
    ensures Run(cfg, start, actions).value.redeemed[i].code != Run(cfg, start, actions).value.redeemed[j].code
  {
    RunIsTraced(cfg, start, actions);
  }

  /**
   Every access token comes from one approval: its identity, scope and claims are those of an assertion accepted for
   this issuer in answer to the attempt's own challenge, redeemed in time by the client the attempt was opened for,
   with its redirect address and its code challenge.
   */
  lemma TokensAreTraced(cfg: Config, start: int, actions: seq<Action>, token: string) returns (r: Redemption, origin: Issue)
    requires Run(cfg, start, actions).Some? && token in Run(cfg, start, actions).value.s.tokens
    ensures var m := Run(cfg, start, actions).value; var p := origin.approval; var t := m.s.tokens[token];
      && r in m.redeemed && r.token == token && r.code in m.issued && m.issued[r.code] == origin
      && t.identity == p.fields.identity && t.scopes == p.opening.scopes && t.claims == ClaimsOf(cfg, origin)
      && VerifyAssertion(cfg.c, cfg.signs, p.assertion, p.chain, cfg.issuer, p.at) == Accepted(p.fields)
      && p.attempt in m.openings && m.openings[p.attempt] == p.opening && Answers(m, p.assertion, p.attempt)
      && r.client.clientId == p.opening.clientId && r.redirectUri == Some(p.opening.redirectUri)
      && ProvesChallenge(cfg.s256, p.opening.codeChallenge, r.verifier, r.client.isPublic)
      && r.at <= p.at + cfg.codeLifetime && t.expiresAt == r.at + cfg.accessTokenLifetime
  {
    RunIsTraced(cfg, start, actions);
    var m := Run(cfg, start, actions).value;
    assert TokenGenuine(cfg, m, token);
    r :| r in m.redeemed && r.token == token && r.code in m.issued
      && m.s.tokens[token] == TokenOf(cfg, IssuedCode(cfg, m.issued[r.code]), r.at);
    origin := m.issued[r.code];
    assert RedeemedRightly(cfg, m, r);
    PkceExactly(cfg, origin.approval.opening.codeChallenge, r.verifier, r.client.isPublic);
  }

  /** An assertion answers the challenge of one attempt: it never signs anyone in at another. */
  lemma AssertionServesOneAttempt(cfg: Config, start: int, actions: seq<Action>, a: string, b: string)
    requires Run(cfg, start, actions).Some?
    requires a in Run(cfg, start, actions).value.issued && b in Run(cfg, start, actions).value.issued
    requires var m := Run(cfg, start, actions).value; m.issued[a].approval.fields.nonce == m.issued[b].approval.fields.nonce
    ensures var m := Run(cfg, start, actions).value; m.issued[a].approval.attempt == m.issued[b].approval.attempt
  {
    RunIsTraced(cfg, start, actions);
    var m := Run(cfg, start, actions).value;
    assert ApprovalGenuine(cfg, m, m.issued[a].approval) && ApprovalGenuine(cfg, m, m.issued[b].approval);
    NonceIsRead(cfg, m, m.issued[a].approval);
    NonceIsRead(cfg, m, m.issued[b].approval);
  }

  lemma NonceIsRead(cfg: Config, m: Machine, p: Approval)
    requires ApprovalGenuine(cfg, m, p)
    ensures "nonce" in p.assertion && p.assertion["nonce"] == Str(p.fields.nonce)
  {
    assert ReadFields(p.assertion) == Some(p.fields);
  }

  /** Whoever a token speaks for has a verified chain on which the master of the time enrolled the device that signed in,
      and which does not revoke it. */
  lemma TokenHolderIsEnrolled(cfg: Config, start: int, actions: seq<Action>, token: string) returns (origin: Issue, k: int)
    requires Injective(cfg.c) && Run(cfg, start, actions).Some? && token in Run(cfg, start, actions).value.s.tokens
    ensures var m := Run(cfg, start, actions).value; var p := origin.approval;
      && (exists r <- m.redeemed :: r.token == token && r.code in m.issued && m.issued[r.code] == origin)
      && Belongs(cfg.c, m.s.tokens[token].identity, p.chain)
      && EnrolledBy(cfg.c, p.chain, k, p.fields.device, "authenticate", p.fields.iat + CLOCK_SKEW)
      && !RevokedIn(p.chain, p.fields.device) && p.fields.device != Replay(cfg.c, p.chain).value.master
  {
    var r;
    r, origin := TokensAreTraced(cfg, start, actions, token);
    var p := origin.approval;
    AcceptedBelongs(cfg, p);
    k := AcceptedAssertion(cfg.c, cfg.signs, p.assertion, p.chain, cfg.issuer, p.at, p.chain);
  }

  lemma AcceptedBelongs(cfg: Config, p: Approval)
    requires VerifyAssertion(cfg.c, cfg.signs, p.assertion, p.chain, cfg.issuer, p.at) == Accepted(p.fields)
    ensures Belongs(cfg.c, p.fields.identity, p.chain)
  {
  }

  /**
   Every claim an access token carries passed the bridge's rule for its type as a claim of the token's own identity,
   from a presentation of that sign-in, for a scope the client asked for, no earlier than the sign-in was accepted. A
   claim without a proof is vouched for by a device that an issuer trusted by the rule enrolled for that and has not
   revoked; under a rule that rejects recoveries the identity has had one holder since the claim was verified.
   */
  lemma TokenClaimsAreVouchedFor(cfg: Config, start: int, actions: seq<Action>, token: string, claimType: string)
    returns (origin: Issue, item: Item, k: int, since: int)
    requires Injective(cfg.c) && Run(cfg, start, actions).Some? && token in Run(cfg, start, actions).value.s.tokens
    requires claimType in Run(cfg, start, actions).value.s.tokens[token].claims
    ensures var m := Run(cfg, start, actions).value; var t, p := m.s.tokens[token], origin.approval;
      && p.fields.identity == t.identity && Belongs(cfg.c, t.identity, p.chain)
      && item in origin.items && item.shown in p.shown && p.at <= item.at <= m.now
      && PassesAs(cfg, t.scopes, p.chain, item, claimType) && t.claims[claimType] == ClaimOf(item.shown)
      && item.shown.attestation.subject == t.identity
    ensures var a, rule := item.shown.attestation, cfg.rules[claimType];
      && (a.proof.None? ==> VouchedFor(cfg.c, rule, a, IssuerChain(cfg.c, item), k))
      && (rule.rejectIfRecovered ==>
           && 0 <= since < |origin.approval.chain| && cfg.c.hash(origin.approval.chain[since]) == a.chainHead
           && OnlyRotated(cfg.c, origin.approval.chain, since))
  {
    var r;
    r, origin := TokensAreTraced(cfg, start, actions, token);
    RunIsTraced(cfg, start, actions);
    var m := Run(cfg, start, actions).value;
    var p := origin.approval;
    assert IssueGenuine(cfg, m, m.issued[r.code]);
    AcceptedBelongs(cfg, p);
    ReleasedIsStrongest(cfg, p.opening.scopes, p.chain, origin.items, claimType);
    item :| item in origin.items && PassesAs(cfg, p.opening.scopes, p.chain, item, claimType)
      && ClaimOf(item.shown) == ClaimsOf(cfg, origin)[claimType];
    k, since := PassedIsVouchedFor(cfg, p.opening.scopes, p.chain, item);
  }

  lemma PassedIsVouchedFor(cfg: Config, scopes: seq<string>, chain: Chain, item: Item) returns (k: int, since: int)
    requires Injective(cfg.c) && Passes(cfg, scopes, chain, item)
    ensures var a := item.shown.attestation; var rule := cfg.rules[a.claimType];
      && (a.proof.None? ==> VouchedFor(cfg.c, rule, a, IssuerChain(cfg.c, item), k))
      && (rule.rejectIfRecovered ==>
           && 0 <= since < |chain| && cfg.c.hash(chain[since]) == a.chainHead && OnlyRotated(cfg.c, chain, since))
  {
    var a := item.shown.attestation;
    var rule, d, issuer := cfg.rules[a.claimType], item.shown.document, IssuerChain(cfg.c, item);
    k, since := 0, 0;
    if a.proof.None? { k := AcceptedIsVouchedFor(cfg.c, cfg.v, rule, d, a, chain, issuer, item.revoked, item.at); }
    if rule.rejectIfRecovered {
      since := AcceptedSinceSameHolder(cfg.c, cfg.v, rule, d, a, chain, issuer, item.revoked, item.at);
    }
  }

  /** Whoever presents a token is told the identity and claims of the approval it comes from, and only while it lasts. */
  lemma UserinfoIsTraced(cfg: Config, start: int, actions: seq<Action>, token: string) returns (r: Redemption, origin: Issue)
    requires Run(cfg, start, actions).Some?
    requires var m := Run(cfg, start, actions).value; Userinfo(m.s, token, m.now).Some?
    ensures var m := Run(cfg, start, actions).value; var info := Userinfo(m.s, token, m.now).value;
      && r in m.redeemed && r.token == token && r.code in m.issued && m.issued[r.code] == origin
      && info == (origin.approval.fields.identity, ClaimsOf(cfg, origin))
      && m.now <= r.at + cfg.accessTokenLifetime
  {
    RunIsTraced(cfg, start, actions);
    var m := Run(cfg, start, actions).value;
    assert TokenGenuine(cfg, m, token);
    r :| r in m.redeemed && r.token == token && r.code in m.issued
      && m.s.tokens[token] == TokenOf(cfg, IssuedCode(cfg, m.issued[r.code]), r.at);
    origin := m.issued[r.code];
  }

  // ---------------------------------------------------------------- copies sent along

  /** A copy of the chain sent along can only add to what is stored: whoever signs in, the chain it is accepted with
      extends the stored one, so no older copy hides a revocation. */
  lemma CopiesHideNothing(cfg: Config, s: Tables, id: string, sub: Submission, stored: Chain, now: int, spare: string,
                          scheduled: bool)
    requires Injective(cfg.c) && Submit(cfg, s, id, sub, Some(stored), now, spare, scheduled).1.Approving?
    ensures var p := Submit(cfg, s, id, sub, Some(stored), now, spare, scheduled).1.approval;
      && stored <= p.chain
      && forall key :: RevokedIn(stored, key) ==> p.fields.device != key
  {
    var p := Submit(cfg, s, id, sub, Some(stored), now, spare, scheduled).1.approval;
    AcceptedWithChosen(cfg, id, Refresh(s.attempts[id], now), sub, stored, now, spare, scheduled);
    forall key | RevokedIn(stored, key) ensures p.fields.device != key {
      if p.fields.device == key {
        RevokedDeviceIsRejected(cfg.c, cfg.signs, p.assertion, stored, p.chain, cfg.issuer, p.at);
      }
    }
  }

  lemma AcceptedWithChosen(cfg: Config, id: string, a: Attempt, sub: Submission, stored: Chain, now: int, spare: string,
                           scheduled: bool)
    requires Injective(cfg.c) && SubmitTo(cfg, id, a, sub, Some(stored), now, spare, scheduled).1.Approving?
    ensures var p := SubmitTo(cfg, id, a, sub, Some(stored), now, spare, scheduled).1.approval;
      && stored <= p.chain
      && VerifyAssertion(cfg.c, cfg.signs, p.assertion, p.chain, cfg.issuer, p.at) == Accepted(p.fields)
      && ReadFields(p.assertion) == Some(p.fields)
  {
    var provided := if sub.supplied.Copy? then Some(sub.supplied.chain) else None;
    ChosenExtends(cfg.c, stored, provided);
    var chosen := ChooseSigchain(cfg.c, Some(stored), provided).chain;
    AcceptedWith(cfg, id, Rotated(a, now, spare), sub.shown, sub.assertion.fields, chosen.value, now, spare, scheduled);
  }

  lemma AcceptedWith(cfg: Config, id: string, a: Attempt, shown: Presentations, d: map<string, Value>, chain: Chain, now: int,
                     spare: string, scheduled: bool)
    ensures var outcome := Consider(cfg, id, a, shown, d, Some(chain), now, spare, scheduled).1; outcome.Approving? ==>
      var p := outcome.approval;
      && p.chain == chain && VerifyAssertion(cfg.c, cfg.signs, p.assertion, p.chain, cfg.issuer, p.at) == Accepted(p.fields)
      && ReadFields(p.assertion) == Some(p.fields)
  {
  }

  /** Whichever copy is chosen, it extends the stored one. */
  lemma ChosenExtends(c: Crypto, stored: Chain, provided: Option<Chain>)
    requires Injective(c)
    ensures var choice := ChooseSigchain(c, Some(stored), provided);
      choice.Chosen? ==> choice.chain.Some? && stored <= choice.chain.value
  {
    if provided.Some? && HashList(c, stored) <= HashList(c, provided.value) {
      forall i | 0 <= i < |stored| ensures stored[i] == provided.value[i] {
        assert HashList(c, stored)[i] == HashList(c, provided.value)[i];
      }
    }
  }

  // ---------------------------------------------------------------- rejected approvals

  /** After the last rejection allowed an attempt is over: no submission changes it any more. */
  predicate FewFailures(a: Attempt) {
    a.failures <= MAX_FAILURES && (a.failures == MAX_FAILURES ==> a.status == Failed || a.status == Approved)
  }

  ghost predicate AllFewFailures(s: Tables) {
    forall id <- s.attempts :: FewFailures(s.attempts[id])
  }

  lemma EvaluateFewFailures(cfg: Config, id: string, a: Attempt, d: map<string, Value>, chain: Chain, now: int,
                            afterFetch: bool, spare: string, scheduled: bool)
    requires FewFailures(a) && (a.status == Waiting || a.status == Fetching)
    ensures FewFailures(Evaluate(cfg, id, a, d, chain, now, afterFetch, spare, scheduled).0)
  {
  }

  lemma SubmitToFewFailures(cfg: Config, id: string, a: Attempt, sub: Submission, stored: Option<Chain>, now: int,
                            spare: string, scheduled: bool)
    requires FewFailures(a) && (a.status == Waiting || a.status == Fetching)
    ensures FewFailures(SubmitTo(cfg, id, a, sub, stored, now, spare, scheduled).0)
  {
    var choice := ChooseSigchain(cfg.c, stored, if sub.supplied.Copy? then Some(sub.supplied.chain) else None);
    var presenting := Presenting(Rotated(a, now, spare), sub.shown);
    if sub.assertion.Obj? && choice.Chosen? && choice.chain.Some? && presenting.Some? {
      EvaluateFewFailures(cfg, id, presenting.value, sub.assertion.fields, choice.chain.value, now, false, spare, scheduled);
    }
  }

  lemma SubmitFew(cfg: Config, s: Tables, id: string, sub: Submission, stored: Option<Chain>, now: int, spare: string,
                  scheduled: bool)
    requires AllFewFailures(s)
    ensures AllFewFailures(Submit(cfg, s, id, sub, stored, now, spare, scheduled).0)
  {
    if id in s.attempts {
      var a := Refresh(s.attempts[id], now);
      assert FewFailures(s.attempts[id]);
      if a.status == Waiting || a.status == Fetching {
        SubmitToFewFailures(cfg, id, a, sub, stored, now, spare, scheduled);
      }
    }
  }

  lemma ReevaluateFew(cfg: Config, s: Tables, id: string, identity: string, chain: Chain, now: int, spare: string, scheduled: bool)
    requires AllFewFailures(s)
    ensures AllFewFailures(Reevaluate(cfg, s, id, identity, chain, now, spare, scheduled).0)
  {
    if id in s.attempts {
      var a := Refresh(s.attempts[id], now);
      assert FewFailures(s.attempts[id]);
      if a.status == Fetching && a.held.Some? {
        EvaluateFewFailures(cfg, id, a, a.held.value, chain, now, true, spare, scheduled);
      }
    }
  }

  lemma OthersFewFailures(cfg: Config, m: Machine, m': Machine, a: Action)
    requires AllFewFailures(m.s) && Step(cfg, m, a) == Some(m')
    requires !a.SubmitAssertion? && !a.IdentityUpdate? && !a.OpenAttempt?
    ensures AllFewFailures(m'.s)
  {
    forall id | id in m'.s.attempts ensures FewFailures(m'.s.attempts[id]) {
      assert id in m.s.attempts && FewFailures(m.s.attempts[id]);
    }
  }

  lemma StepFewFailures(cfg: Config, m: Machine, m': Machine, a: Action)
    requires AllFewFailures(m.s) && Step(cfg, m, a) == Some(m')
    ensures AllFewFailures(m'.s)
  {
    match a
    case SubmitAssertion(id, sub, stored, spare, scheduled) => SubmitFew(cfg, m.s, id, sub, stored, m.now, spare, scheduled);
    case IdentityUpdate(id, identity, chain, spare, scheduled) =>
      ReevaluateFew(cfg, m.s, id, identity, chain, m.now, spare, scheduled);
    case OpenAttempt(id, opening, nonce) => OpenFrame(cfg, m.s, id, opening, nonce, m.now);
    case _ => OthersFewFailures(cfg, m, m', a);
  }

  /**
   No attempt is rejected more often than allowed, and one rejected that often has failed unless an approval under way
   completed it.
   */
  lemma {:induction false} RejectionsAreFew(cfg: Config, start: int, actions: seq<Action>)
    requires Run(cfg, start, actions).Some?
    ensures AllFewFailures(Run(cfg, start, actions).value.s)
  {
    if actions != [] {
      var n := |actions| - 1;
      RejectionsAreFew(cfg, start, actions[..n]);
      StepFewFailures(cfg, Run(cfg, start, actions[..n]).value, Run(cfg, start, actions).value, actions[n]);
    }
  }
}
