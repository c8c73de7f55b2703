/** The OIDC bridge: sign-in attempts, authorization codes and access tokens, one atomic step at a time. */
module Oidc {
  import opened Options
  import opened Json
  import opened Events
  import opened Sigchains
  import opened Fetchers
  import opened FetchQueues
  import opened Assertions
  import opened Attestations

  const MAX_ATTEMPTS := 5000
  const MAX_FAILURES := 5
  const REQUEST_LIFETIME := 300
  const MAX_PRESENTATIONS := 5

  /** What an attempt was opened with, and never changes. */
  datatype Opening = Opening(clientId: string, redirectUri: string, codeChallenge: Option<string>,
                             oidcNonce: Option<string>, scopes: seq<string>)

  datatype AttemptStatus = Waiting | Fetching | Approved | Failed | TimedOut

  /** A claim document with its attestation, and the copy of the issuer's chain shown along. */
  datatype Presentation = Unreadable | Shown(document: Document, attestation: Attestation, issuerChain: Option<Chain>)

  /** `held` is the assertion kept while the identity is fetched. */
  datatype Attempt = Attempt(opening: Opening, nonce: string, requestExpires: int, expiresAt: int, status: AttemptStatus,
                             held: Option<map<string, Value>>, identity: Option<string>, failures: nat,
                             shown: seq<Presentation>)

  /** A claim that passed the bridge's rule for its type. */
  datatype VerifiedClaim = VerifiedClaim(claimType: string, value: Value, issuer: Option<string>, means: string,
                                         assurance: string, issuedAt: int, expiresAt: int)

  datatype AuthCode = AuthCode(clientId: string, redirectUri: string, codeChallenge: Option<string>,
                               oidcNonce: Option<string>, scopes: seq<string>, identity: string, device: string,
                               claims: map<string, VerifiedClaim>, authTime: int, expiresAt: int)

  datatype AccessToken = AccessToken(identity: string, scopes: seq<string>, claims: map<string, VerifiedClaim>,
                                     expiresAt: int)

  datatype Client = Client(clientId: string, isPublic: bool)

  /** The issuer is the audience of every request; `s256` is the PKCE transformation; a rule per claim type. */
  datatype Config = Config(c: Crypto, signs: Signs, v: Verifiers, rules: map<string, ClaimRule>, issuer: string,
                           attemptLifetime: int, codeLifetime: int, accessTokenLifetime: int, s256: string -> string)

  datatype Tables = Tables(attempts: map<string, Attempt>, codes: map<string, AuthCode>, tokens: map<string, AccessToken>)

  // ---------------------------------------------------------------- released claims

  function ClaimTypeOf(scope: string): Option<string> {
    if scope == "profile" then Some("legal_name")
    else if scope in ["email", "phone", "birthdate", "age_over_18"] then Some(scope)
    else None
  }

  predicate Requested(scopes: seq<string>, claimType: string) {
    exists scope <- scopes :: ClaimTypeOf(scope) == Some(claimType)
  }

  /** A presentation, what storage held of its issuer when it was evaluated, and when that was. */
  datatype Item = Item(shown: Presentation, storedIssuer: Option<Chain>, revoked: bool, at: int)

  /** The issuer's chain to evaluate with: none if the copies diverge. */
  function IssuerChain(c: Crypto, item: Item): Option<Chain>
    requires item.shown.Shown?
  {
    if item.shown.attestation.issuer.None? then None
    else
      match ChooseSigchain(c, item.storedIssuer, item.shown.issuerChain)
      case Conflict => None
      case Chosen(chain) => chain
  }

  /** The bridge has a rule for a claim the client asked for, and the claim passes it as one of the chain's identity. */
  predicate Passes(cfg: Config, scopes: seq<string>, chain: Chain, item: Item) {
    && item.shown.Shown?
    && var a := item.shown.attestation;
    && Requested(scopes, a.claimType) && a.claimType in cfg.rules
    && chain != [] && a.subject == cfg.c.hash(chain[0])
    && Evaluates(cfg.c, cfg.v, cfg.rules[a.claimType], item.shown.document, a, chain, IssuerChain(cfg.c, item),
                 item.revoked, item.at)
  }

  function ClaimOf(shown: Presentation): VerifiedClaim
    requires shown.Shown?
  {
    var a := shown.attestation;
    VerifiedClaim(a.claimType, shown.document.value, a.issuer, a.means, a.assurance, a.issuedAt, a.expiresAt)
  }

  /** The claims released: of each type asked for, the strongest that passed, the first of equals. */
  function Release(cfg: Config, scopes: seq<string>, chain: Chain, items: seq<Item>): map<string, VerifiedClaim> {
    if items == [] then map[]
    else
      var best, item := Release(cfg, scopes, chain, items[..|items| - 1]), items[|items| - 1];
      if !Passes(cfg, scopes, chain, item) then best
      else
        var claim := ClaimOf(item.shown);
        if claim.claimType in best && Rank(claim.assurance) <= Rank(best[claim.claimType].assurance) then best
        else best[claim.claimType := claim]
  }

  /** The item passed and is of the type. */
  predicate PassesAs(cfg: Config, scopes: seq<string>, chain: Chain, item: Item, claimType: string) {
    Passes(cfg, scopes, chain, item) && item.shown.attestation.claimType == claimType
  }

  /** Nothing is released that was not asked for and did not pass, and nothing weaker than what passed. */
  lemma {:induction false} ReleasedIsStrongest(cfg: Config, scopes: seq<string>, chain: Chain, items: seq<Item>,
                                               claimType: string)
    ensures claimType in Release(cfg, scopes, chain, items)
       <==> exists item <- items :: PassesAs(cfg, scopes, chain, item, claimType)
    ensures var released := Release(cfg, scopes, chain, items); claimType in released ==>
      && (exists item <- items :: PassesAs(cfg, scopes, chain, item, claimType)
                                  && ClaimOf(item.shown) == released[claimType])
      && (forall item <- items :: PassesAs(cfg, scopes, chain, item, claimType)
                                  ==> Rank(item.shown.attestation.assurance) <= Rank(released[claimType].assurance))
  {
    if items != [] {
      var n := |items| - 1;
      ReleasedIsStrongest(cfg, scopes, chain, items[..n], claimType);
      ReleasedSnoc(cfg, scopes, chain, items, claimType);
    }
  }

  lemma ReleasedSnoc(cfg: Config, scopes: seq<string>, chain: Chain, items: seq<Item>, claimType: string)
    requires items != []
    ensures forall item :: item in items <==> item in items[..|items| - 1] || item == items[|items| - 1]
    ensures var before, released := Release(cfg, scopes, chain, items[..|items| - 1]), Release(cfg, scopes, chain, items);
      var last := items[|items| - 1];
      if PassesAs(cfg, scopes, chain, last, claimType)
         && !(claimType in before && Rank(last.shown.attestation.assurance) <= Rank(before[claimType].assurance)) then
        claimType in released && released[claimType] == ClaimOf(last.shown)
      else
        (claimType in released <==> claimType in before)
        && (claimType in before ==> released[claimType] == before[claimType])
  {
    assert items == items[..|items| - 1] + [items[|items| - 1]];
  }

  // ---------------------------------------------------------------- attempts

  function Refresh(a: Attempt, now: int): Attempt {
    if a.status in {Approved, Failed, TimedOut} || now <= a.expiresAt then a
    else a.(status := TimedOut, held := None)
  }

  /** The attempt with a live request: an expired one is replaced by one with a new nonce, `spare`, while the attempt is open. */
  function Rotated(a: Attempt, now: int, spare: string): Attempt {
    if now > a.requestExpires && a.status in {Waiting, Fetching} then
      a.(nonce := spare, requestExpires := now + REQUEST_LIFETIME)
    else a
  }

  /** An accepted assertion on its way to a code; the attempt's state may change before it gets there. */
  datatype Approval = Approval(attempt: string, opening: Opening, assertion: map<string, Value>, chain: Chain, at: int,
                               fields: Fields, shown: seq<Presentation>)

  datatype Outcome = Refused(code: string) | FetchStarted | Approving(approval: Approval)

  function StartFetch(a: Attempt, d: map<string, Value>, scheduled: bool): (Attempt, Outcome) {
    if scheduled then (a.(held := Some(d), status := Fetching), FetchStarted) else (a, Refused("fetch_unavailable"))
  }

  function RejectedBy(a: Attempt, code: string): (Attempt, Outcome) {
    var failures := a.failures + 1;
    (a.(held := None, failures := failures, status := if failures >= MAX_FAILURES then Failed else Waiting), Refused(code))
  }

  function Evaluate(cfg: Config, id: string, a: Attempt, d: map<string, Value>, chain: Chain, now: int,
                    afterFetch: bool, spare: string, scheduled: bool): (Attempt, Outcome) {
    match VerifyAssertion(cfg.c, cfg.signs, d, chain, cfg.issuer, now)
    case Accepted(f) =>
      if f.exp > a.requestExpires + CLOCK_SKEW then RejectedBy(a, "invalid_assertion")
      else (a, Approving(Approval(id, a.opening, d, chain, now, f, a.shown)))
    case Rejected(code) =>
      if code == "unknown_chain_head" then StartFetch(a, d, scheduled)
      else if afterFetch && code == "expired" then
        (a.(held := None, status := Waiting, nonce := spare, requestExpires := now + REQUEST_LIFETIME), Refused("reapprove"))
      else RejectedBy(a, code)
  }

  /** A copy of the chain the app may send along. */
  datatype Supplied = NoChain | Malformed | Copy(chain: Chain)

  /** The presentations that come with a submission, if any. */
  datatype Presentations = NotGiven | Unsuitable | Given(items: seq<Presentation>)

  datatype Submission = Submission(assertion: Value, supplied: Supplied, shown: Presentations)

  /** Presentations given replace those given before. */
  function Presenting(a: Attempt, shown: Presentations): Option<Attempt> {
    match shown
    case NotGiven => Some(a)
    case Unsuitable => None
    case Given(items) => if |items| > MAX_PRESENTATIONS then None else Some(a.(shown := items))
  }

  /** A submission to an open attempt, up to the point where presentations are evaluated. */
  function SubmitTo(cfg: Config, id: string, a: Attempt, sub: Submission, stored: Option<Chain>, now: int, spare: string,
                    scheduled: bool): (Attempt, Outcome) {
    if !sub.assertion.Obj? then (a, Refused("invalid_request"))
    else
      var d := sub.assertion.fields;
      if !("nonce" in d && d["nonce"].Str? && "identity" in d && d["identity"].Str? && IdentityText(d["identity"].s)) then
        (a, Refused("invalid_request"))
      else
        var live := Rotated(a, now, spare);
        if d["nonce"].s != live.nonce then (live, Refused("unknown_challenge"))
        else if sub.supplied.Malformed? then (live, Refused("invalid_request"))
        else
          match ChooseSigchain(cfg.c, stored, if sub.supplied.Copy? then Some(sub.supplied.chain) else None)
          case Conflict => (live, Refused("conflict"))
          case Chosen(chain) => Consider(cfg, id, live, sub.shown, d, chain, now, spare, scheduled)
  }

  function Consider(cfg: Config, id: string, a: Attempt, shown: Presentations, d: map<string, Value>, chain: Option<Chain>,
                    now: int, spare: string, scheduled: bool): (Attempt, Outcome) {
    match Presenting(a, shown)
    case None => (a, Refused("invalid_request"))
    case Some(presenting) =>
      if chain.None? then StartFetch(presenting, d, scheduled)
      else Evaluate(cfg, id, presenting, d, chain.value, now, false, spare, scheduled)
  }

  function Submit(cfg: Config, s: Tables, id: string, sub: Submission, stored: Option<Chain>, now: int, spare: string,
                  scheduled: bool): (Tables, Outcome) {
    if id !in s.attempts then (s, Refused("not_found"))
    else
      var a := Refresh(s.attempts[id], now);
      if a.status == Approved then (s.(attempts := s.attempts[id := a]), Refused("conflict"))
      else if a.status in {Failed, TimedOut} then (s.(attempts := s.attempts[id := a]), Refused("gone"))
      else
        var (a', outcome) := SubmitTo(cfg, id, a, sub, stored, now, spare, scheduled);
        (s.(attempts := s.attempts[id := a']), outcome)
  }

  /** A chain was stored: an attempt that waits for its identity is evaluated again. */
  function Reevaluate(cfg: Config, s: Tables, id: string, identity: string, chain: Chain, now: int, spare: string,
                      scheduled: bool): (Tables, Outcome) {
    if id !in s.attempts then (s, Refused("not_found"))
    else
      var a := Refresh(s.attempts[id], now);
      if a.status == Fetching && a.held.Some? && TextField(a.held.value, "identity") == Some(identity) then
        var (a', outcome) := Evaluate(cfg, id, a, a.held.value, chain, now, true, spare, scheduled);
        (s.(attempts := s.attempts[id := a']), outcome)
      else (s.(attempts := s.attempts[id := a]), Refused("not_waiting"))
  }

  /** The app fetches the attempt's request, or the page polls it. */
  function FetchRequest(s: Tables, id: string, now: int, spare: string): Tables {
    if id !in s.attempts then s
    else s.(attempts := s.attempts[id := Rotated(Refresh(s.attempts[id], now), now, spare)])
  }

  // ---------------------------------------------------------------- codes and tokens

  function CodeOf(cfg: Config, p: Approval, claims: map<string, VerifiedClaim>): AuthCode {
    AuthCode(p.opening.clientId, p.opening.redirectUri, p.opening.codeChallenge, p.opening.oidcNonce, p.opening.scopes,
             p.fields.identity, p.fields.device, claims, p.at, p.at + cfg.codeLifetime)
  }

  function Completed(a: Attempt, p: Approval): Attempt {
    a.(status := Approved, identity := Some(p.fields.identity), held := None, shown := [])
  }

  /** The end of an approval, once the presentations were evaluated. */
  function Finish(cfg: Config, s: Tables, p: Approval, code: string, claims: map<string, VerifiedClaim>): Tables {
    Tables(if p.attempt in s.attempts then
            s.attempts[p.attempt := Completed(s.attempts[p.attempt], p)]
          else s.attempts,
          s.codes[code := CodeOf(cfg, p, claims)], s.tokens)
  }

  /** A public client must prove the code challenge, and every client must if there is one. */
  predicate Pkce(cfg: Config, challenge: Option<string>, verifier: Option<string>, isPublic: bool) {
    if challenge.Some? && challenge.value != "" then
      verifier.Some? && 43 <= |verifier.value| <= 128 && cfg.s256(verifier.value) == challenge.value
    else !isPublic
  }

  predicate MayRedeem(cfg: Config, c: AuthCode, client: Client, redirectUri: Option<string>, verifier: Option<string>,
                      now: int) {
    && now <= c.expiresAt
    && c.clientId == client.clientId
    && Some(c.redirectUri) == redirectUri
    && Pkce(cfg, c.codeChallenge, verifier, client.isPublic)
  }

  function TokenOf(cfg: Config, c: AuthCode, now: int): AccessToken {
    AccessToken(c.identity, c.scopes, c.claims, now + cfg.accessTokenLifetime)
  }

  /** The code is gone whether or not it is redeemed. */
  function Exchange(cfg: Config, s: Tables, client: Client, code: string, redirectUri: Option<string>,
                    verifier: Option<string>, now: int, token: string): (Tables, bool) {
    if code !in s.codes then (s, false)
    else
      var popped := s.(codes := s.codes - {code});
      if MayRedeem(cfg, s.codes[code], client, redirectUri, verifier, now) then
        (popped.(tokens := s.tokens[token := TokenOf(cfg, s.codes[code], now)]), true)
      else (popped, false)
  }

  /** Whom a token speaks for, while it lasts. */
  function Userinfo(s: Tables, token: string, now: int): Option<(string, map<string, VerifiedClaim>)> {
    if token in s.tokens && now <= s.tokens[token].expiresAt then Some((s.tokens[token].identity, s.tokens[token].claims))
    else None
  }

  function Cleaned(s: Tables, now: int): Tables {
    Tables(map id | id in s.attempts && now <= s.attempts[id].expiresAt + 300 :: s.attempts[id],
          map code | code in s.codes && now <= s.codes[code].expiresAt :: s.codes[code],
          map token | token in s.tokens && now <= s.tokens[token].expiresAt :: s.tokens[token])
  }

  function NewAttempt(cfg: Config, opening: Opening, nonce: string, now: int): Attempt {
    Attempt(opening, nonce, now + REQUEST_LIFETIME, now + cfg.attemptLifetime, Waiting, None, None, 0, [])
  }

  function Open(cfg: Config, s: Tables, id: string, opening: Opening, nonce: string, now: int): (Tables, bool) {
    var cleaned := Cleaned(s, now);
    if |cleaned.attempts| >= MAX_ATTEMPTS then (cleaned, false)
    else (cleaned.(attempts := cleaned.attempts[id := NewAttempt(cfg, opening, nonce, now)]), true)
  }

  // ---------------------------------------------------------------- the provider

  class OidcProvider {
    const cfg: Config
    var attempts: map<string, Attempt>
    var codes: map<string, AuthCode>
    var accessTokens: map<string, AccessToken>

    function Now(): Tables
      reads this
    {
      Tables(attempts, codes, accessTokens)
    }

    constructor (cfg: Config)
      ensures this.cfg == cfg && Now() == Tables(map[], map[], map[])
    {
      this.cfg := cfg;
      attempts, codes, accessTokens := map[], map[], map[];
    }

    method Cleanup(now: int)
      modifies this
      ensures Now() == Cleaned(old(Now()), now)
    {
      attempts := map id | id in attempts && !(now > attempts[id].expiresAt + 300) :: attempts[id];
      codes := map code | code in codes && !(now > codes[code].expiresAt) :: codes[code];
      accessTokens := map token | token in accessTokens && !(now > accessTokens[token].expiresAt) :: accessTokens[token];
    }

    method CreateAttempt(id: string, opening: Opening, nonce: string, now: int) returns (ok: bool)
      modifies this
      ensures (Now(), ok) == Open(cfg, old(Now()), id, opening, nonce, now)
    {
      Cleanup(now);
      if |attempts| >= MAX_ATTEMPTS { return false; }
      attempts := attempts[id := Attempt(opening, nonce, now + REQUEST_LIFETIME, now + cfg.attemptLifetime, Waiting,
                                         None, None, 0, [])];
      return true;
    }

    method SubmitAssertion(id: string, sub: Submission, stored: Option<Chain>, now: int, spare: string, scheduled: bool)
      returns (outcome: Outcome)
      modifies this`attempts
      ensures (Now(), outcome) == Submit(cfg, old(Now()), id, sub, stored, now, spare, scheduled)
    {
      if id !in attempts { return Refused("not_found"); }
      var a := Refresh(attempts[id], now);
      attempts := attempts[id := a];
      if a.status == Approved { return Refused("conflict"); }
      if a.status == TimedOut || a.status == Failed { return Refused("gone"); }
      var (after, result) := SubmitTo(cfg, id, a, sub, stored, now, spare, scheduled);
      attempts := attempts[id := after];
      assert attempts == old(attempts)[id := after];
      return result;
    }

    /** One presentation; one that does not suit yields nothing. */
    method EvaluateItem(scopes: seq<string>, chain: Chain, item: Item) returns (claim: Option<VerifiedClaim>)
      requires chain != []
      ensures claim == if Passes(cfg, scopes, chain, item) then Some(ClaimOf(item.shown)) else None
    {
      if item.shown.Unreadable? { return None; }
      var a := item.shown.attestation;
      if !Requested(scopes, a.claimType) || a.claimType !in cfg.rules { return None; }
      if a.subject != cfg.c.hash(chain[0]) { return None; }
      var issuerChain := None;
      if a.issuer.Some? {
        var choice := ChooseSigchain(cfg.c, item.storedIssuer, item.shown.issuerChain);
        if choice.Chosen? { issuerChain := choice.chain; }
      }
      if !Evaluates(cfg.c, cfg.v, cfg.rules[a.claimType], item.shown.document, a, chain, issuerChain, item.revoked, item.at) {
        return None;
      }
      return Some(ClaimOf(item.shown));
    }

    method ReleaseClaims(scopes: seq<string>, chain: Chain, items: seq<Item>) returns (verified: map<string, VerifiedClaim>)
      requires chain != []
      ensures verified == Release(cfg, scopes, chain, items)
    {
      verified := map[];
      for i := 0 to |items|
        invariant verified == Release(cfg, scopes, chain, items[..i])
      {
        assert items[..i + 1][..i] == items[..i];
        var evaluated := EvaluateItem(scopes, chain, items[i]);
        if evaluated.None? { continue; }
        var claim := evaluated.value;
        if claim.claimType !in verified || Rank(claim.assurance) > Rank(verified[claim.claimType].assurance) {
          verified := verified[claim.claimType := claim];
        }
      }
      assert items[..|items|] == items;
    }

    /** Issues the code of an approval. */
    method Approve(p: Approval, code: string, items: seq<Item>)
      requires p.chain != []
      modifies this`attempts, this`codes
      ensures Now() == Finish(cfg, old(Now()), p, code, Release(cfg, p.opening.scopes, p.chain, items))
    {
      var verified := ReleaseClaims(p.opening.scopes, p.chain, items);
      codes := codes[code := CodeOf(cfg, p, verified)];
      if p.attempt in attempts {
        attempts := attempts[p.attempt := Completed(attempts[p.attempt], p)];
      }
    }

    /** Redeems a code, which is removed first. */
    method ExchangeCode(client: Client, code: string, redirectUri: Option<string>, verifier: Option<string>, now: int,
                        token: string) returns (ok: bool)
      modifies this`codes, this`accessTokens
      ensures (Now(), ok) == Exchange(cfg, old(Now()), client, code, redirectUri, verifier, now, token)
    {
      if code !in codes { return false; }
      var c := codes[code];
      codes := codes - {code};
      if now > c.expiresAt { return false; }
      if c.clientId != client.clientId { return false; }
      if Some(c.redirectUri) != redirectUri { return false; }
      if c.codeChallenge.Some? && c.codeChallenge.value != "" {
        if verifier.None? || !(43 <= |verifier.value| <= 128) { return false; }
        if cfg.s256(verifier.value) != c.codeChallenge.value { return false; }
      } else if client.isPublic {
        return false;
      }
      accessTokens := accessTokens[token := AccessToken(c.identity, c.scopes, c.claims, now + cfg.accessTokenLifetime)];
      return true;
    }
  }
}
