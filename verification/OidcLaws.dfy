/** What the bridge's steps do, each told by what it takes for them to happen. */
module OidcLaws {
  import opened Options
  import opened Json
  import opened Events
  import opened Sigchains
  import opened Fetchers
  import opened FetchQueues
  import opened Assertions
  import opened Attestations
  import opened AuthLaws
  import opened Oidc

  // ---------------------------------------------------------------- codes

  /** A challenge is answered by a verifier of 43 to 128 characters that hashes to it; without one only confidential clients
      redeem. */
  ghost predicate ProvesChallenge(s256: string -> string, challenge: Option<string>, verifier: Option<string>, isPublic: bool) {
    && (challenge != None && challenge != Some("") ==>
          exists v :: verifier == Some(v) && 43 <= |v| <= 128 && Some(s256(v)) == challenge)
    && (challenge == None || challenge == Some("") ==> !isPublic)
  }

  lemma PkceExactly(cfg: Config, challenge: Option<string>, verifier: Option<string>, isPublic: bool)
    ensures Pkce(cfg, challenge, verifier, isPublic) <==> ProvesChallenge(cfg.s256, challenge, verifier, isPublic)
  {
  }

  /** A code yields a token exactly if it is out and in time, and client, redirect address and challenge are right. */
  lemma RedeemsExactly(cfg: Config, s: Tables, client: Client, code: string, redirectUri: Option<string>,
                       verifier: Option<string>, now: int, token: string)
    ensures Exchange(cfg, s, client, code, redirectUri, verifier, now, token).1
       <==> code in s.codes
            && var c := s.codes[code];
            && now <= c.expiresAt && client.clientId == c.clientId && redirectUri == Some(c.redirectUri)
            && ProvesChallenge(cfg.s256, c.codeChallenge, verifier, client.isPublic)
  {
    if code in s.codes { PkceExactly(cfg, s.codes[code].codeChallenge, verifier, client.isPublic); }
  }

  /** The code is gone in any case; a token has the code's identity, scopes and claims and its own lifetime. */
  lemma RedeemingLeaves(cfg: Config, s: Tables, client: Client, code: string, redirectUri: Option<string>,
                        verifier: Option<string>, now: int, token: string)
    ensures var (s', ok) := Exchange(cfg, s, client, code, redirectUri, verifier, now, token);
      && code !in s'.codes && (forall other :: other != code ==> (other in s'.codes <==> other in s.codes))
      && (forall other <- s'.codes :: s'.codes[other] == s.codes[other])
      && s'.attempts == s.attempts
      && (forall other :: other != token ==> (other in s'.tokens <==> other in s.tokens))
      && (forall other <- s.tokens :: (other == token ==> !ok) ==> other in s'.tokens && s'.tokens[other] == s.tokens[other])
      && (ok ==> code in s.codes && token in s'.tokens
                 && var t, c := s'.tokens[token], s.codes[code];
                 && t.identity == c.identity && t.scopes == c.scopes && t.claims == c.claims
                 && t.expiresAt == now + cfg.accessTokenLifetime)
  {
  }

  /** A token tells its identity and claims exactly while it lasts. */
  lemma UserinfoExactly(s: Tables, token: string, now: int, identity: string, claims: map<string, VerifiedClaim>)
    ensures Userinfo(s, token, now) == Some((identity, claims))
       <==> token in s.tokens && now <= s.tokens[token].expiresAt
            && s.tokens[token].identity == identity && s.tokens[token].claims == claims
  {
  }

  // ---------------------------------------------------------------- cleaning up and opening

  /** Attempts stay for five minutes after they expire, codes and tokens until they do. */
  lemma CleanedExactly(s: Tables, now: int)
    ensures var s' := Cleaned(s, now);
      && (forall id :: id in s'.attempts <==> id in s.attempts && now - s.attempts[id].expiresAt <= 300)
      && (forall code :: code in s'.codes <==> code in s.codes && now <= s.codes[code].expiresAt)
      && (forall token :: token in s'.tokens <==> token in s.tokens && now <= s.tokens[token].expiresAt)
      && (forall id <- s'.attempts :: s'.attempts[id] == s.attempts[id])
      && (forall code <- s'.codes :: s'.codes[code] == s.codes[code])
      && (forall token <- s'.tokens :: s'.tokens[token] == s.tokens[token])
  {
  }

  /** An attempt is opened exactly if fewer than 5000 are left after cleaning up; it waits, with a request of five minutes. */
  lemma OpensExactly(cfg: Config, s: Tables, id: string, opening: Opening, nonce: string, now: int)
    ensures var (s', ok) := Open(cfg, s, id, opening, nonce, now);
      && (ok <==> |Cleaned(s, now).attempts| < 5000)
      && (!ok ==> s' == Cleaned(s, now))
      && (ok ==> id in s'.attempts
                 && var a := s'.attempts[id];
                 && a.opening == opening && a.nonce == nonce && a.status == Waiting && a.failures == 0
                 && a.requestExpires == now + 300 && a.expiresAt == now + cfg.attemptLifetime
                 && a.held == None && a.identity == None && a.shown == [])
  {
  }

  // ---------------------------------------------------------------- submissions

  /** The nonce of an assertion that names an identity and a challenge. */
  ghost predicate Names(d: map<string, Value>, nonce: string) {
    && "nonce" in d && d["nonce"] == Str(nonce)
    && "identity" in d && d["identity"].Str? && IdentityText(d["identity"].s)
  }

  /** The attempt can still be completed, and its request is the live one. */
  predicate Live(a: Attempt, now: int) {
    a.status in {Waiting, Fetching} && now <= a.expiresAt && now <= a.requestExpires
  }

  /** The chain a submission is looked at with: the longer of the stored copy and the one sent along, if they agree. */
  ghost predicate LookedAtWith(c: Crypto, stored: Option<Chain>, supplied: Supplied, chain: Chain) {
    && !supplied.Malformed?
    && ChooseSigchain(c, stored, if supplied.Copy? then Some(supplied.chain) else None) == Chosen(Some(chain))
  }

  /** The presentations an attempt has once a submission was taken. */
  ghost predicate ShownThen(a: Attempt, shown: Presentations, items: seq<Presentation>) {
    match shown
    case NotGiven => items == a.shown
    case Unsuitable => false
    case Given(given) => items == given && |given| <= 5
  }

  /** An assertion is approved exactly if it is accepted now and does not outlive the challenge by more than a minute. */
  lemma EvaluateApproves(cfg: Config, id: string, a: Attempt, d: map<string, Value>, chain: Chain, now: int,
                         afterFetch: bool, spare: string, scheduled: bool, p: Approval)
    ensures Evaluate(cfg, id, a, d, chain, now, afterFetch, spare, scheduled).1 == Approving(p)
       <==> VerifyAssertion(cfg.c, cfg.signs, d, chain, cfg.issuer, now) == Accepted(p.fields)
            && p.fields.exp <= a.requestExpires + 60
            && p == Approval(id, a.opening, d, chain, now, p.fields, a.shown)
  {
  }

  lemma ConsiderApproves(cfg: Config, id: string, a: Attempt, shown: Presentations, d: map<string, Value>,
                         chain: Option<Chain>, now: int, spare: string, scheduled: bool, p: Approval)
    ensures Consider(cfg, id, a, shown, d, chain, now, spare, scheduled).1 == Approving(p)
       <==> ShownThen(a, shown, p.shown) && chain == Some(p.chain)
            && VerifyAssertion(cfg.c, cfg.signs, d, p.chain, cfg.issuer, now) == Accepted(p.fields)
            && p.fields.exp <= a.requestExpires + 60
            && p == Approval(id, a.opening, d, p.chain, now, p.fields, p.shown)
  {
    if Presenting(a, shown).Some? && chain.Some? {
      EvaluateApproves(cfg, id, Presenting(a, shown).value, d, chain.value, now, false, spare, scheduled, p);
    }
  }

  lemma SubmitToApproves(cfg: Config, id: string, a: Attempt, sub: Submission, stored: Option<Chain>, now: int,
                         spare: string, scheduled: bool, p: Approval)
    requires a.status in {Waiting, Fetching}
    requires sub.assertion.Obj? && "nonce" in sub.assertion.fields ==> sub.assertion.fields["nonce"] != Str(spare)
    ensures SubmitTo(cfg, id, a, sub, stored, now, spare, scheduled).1 == Approving(p)
       <==> now <= a.requestExpires && sub.assertion == Obj(p.assertion) && Names(p.assertion, a.nonce)
            && LookedAtWith(cfg.c, stored, sub.supplied, p.chain) && ShownThen(a, sub.shown, p.shown)
            && VerifyAssertion(cfg.c, cfg.signs, p.assertion, p.chain, cfg.issuer, now) == Accepted(p.fields)
            && p.fields.exp <= a.requestExpires + 60
            && p == Approval(id, a.opening, p.assertion, p.chain, now, p.fields, p.shown)
  {
    var choice := ChooseSigchain(cfg.c, stored, if sub.supplied.Copy? then Some(sub.supplied.chain) else None);
    if sub.assertion.Obj? && choice.Chosen? && now <= a.requestExpires {
      ConsiderApproves(cfg, id, a, sub.shown, sub.assertion.fields, choice.chain, now, spare, scheduled, p);
    }
  }

  /**
   A submission is approved exactly if the attempt is open, the assertion answers its live challenge and is accepted now
   with the chain chosen, does not outlive the challenge by more than a minute, and the presentations are acceptable.
   A challenge that has expired is answered by none, since the one drawn instead is not known yet.
   */
  lemma ApprovesExactly(cfg: Config, s: Tables, id: string, sub: Submission, stored: Option<Chain>, now: int, spare: string,
                        scheduled: bool, p: Approval)
    requires sub.assertion.Obj? && "nonce" in sub.assertion.fields ==> sub.assertion.fields["nonce"] != Str(spare)
    ensures Submit(cfg, s, id, sub, stored, now, spare, scheduled).1 == Approving(p)
       <==> id in s.attempts && Live(s.attempts[id], now)
            && sub.assertion == Obj(p.assertion) && Names(p.assertion, s.attempts[id].nonce)
            && LookedAtWith(cfg.c, stored, sub.supplied, p.chain) && ShownThen(s.attempts[id], sub.shown, p.shown)
            && VerifyAssertion(cfg.c, cfg.signs, p.assertion, p.chain, cfg.issuer, now) == Accepted(p.fields)
            && p.fields.exp <= s.attempts[id].requestExpires + 60
            && p == Approval(id, s.attempts[id].opening, p.assertion, p.chain, now, p.fields, p.shown)
  {
    if id in s.attempts {
      var a := s.attempts[id];
      if a.status in {Waiting, Fetching} && now <= a.expiresAt {
        SubmitToApproves(cfg, id, a, sub, stored, now, spare, scheduled, p);
      }
    }
  }

  // ---------------------------------------------------------------- rejections and fetches

  /** What becomes of an attempt whose assertion is not accepted: it waits for a fetch if our chain is too old, is asked
      again if the assertion expired during one, and else counts a failure, the fifth of which ends it. */
  lemma RejectedExactly(cfg: Config, id: string, a: Attempt, d: map<string, Value>, chain: Chain, now: int,
                        afterFetch: bool, spare: string, scheduled: bool, code: string)
    requires VerifyAssertion(cfg.c, cfg.signs, d, chain, cfg.issuer, now) == Rejected(code)
    ensures var (a', outcome) := Evaluate(cfg, id, a, d, chain, now, afterFetch, spare, scheduled);
      && a'.opening == a.opening && a'.expiresAt == a.expiresAt && a'.shown == a.shown && a'.identity == a.identity
      && (code == "unknown_chain_head" ==>
           && a'.failures == a.failures && a'.nonce == a.nonce
           && (if scheduled then outcome == FetchStarted && a'.held == Some(d) && a'.status == Fetching
               else outcome == Refused("fetch_unavailable") && a' == a))
      && (code == "expired" && afterFetch ==>
           && outcome == Refused("reapprove") && a'.failures == a.failures && a'.held == None && a'.status == Waiting
           && a'.nonce == spare && a'.requestExpires == now + 300)
      && (code != "unknown_chain_head" && !(code == "expired" && afterFetch) ==>
           && outcome == Refused(code) && a'.failures == a.failures + 1 && a'.held == None && a'.nonce == a.nonce
           && a'.status == if a.failures + 1 >= 5 then Failed else Waiting)
  {
  }

  /** A fetch that stored the chain is looked at again for the attempt that waits for that identity. */
  lemma UpdatesExactly(cfg: Config, s: Tables, id: string, identity: string, chain: Chain, now: int, spare: string,
                       scheduled: bool)
    requires id in s.attempts && now <= s.attempts[id].expiresAt && s.attempts[id].status == Fetching
    requires var held := s.attempts[id].held;
      held.Some? && "identity" in held.value && held.value["identity"] == Str(identity) && identity != ""
    ensures var (a', outcome) :=
      Evaluate(cfg, id, s.attempts[id], s.attempts[id].held.value, chain, now, true, spare, scheduled);
      Reevaluate(cfg, s, id, identity, chain, now, spare, scheduled) == (s.(attempts := s.attempts[id := a']), outcome)
  {
  }

  // ---------------------------------------------------------------- scopes

  /** What the scopes of a client ask for. */
  lemma RequestedExactly(scopes: seq<string>, claimType: string)
    ensures Requested(scopes, claimType)
       <==> (claimType == "legal_name" && "profile" in scopes)
            || (claimType in {"email", "phone", "birthdate", "age_over_18"} && claimType in scopes)
  {
    if claimType == "legal_name" && "profile" in scopes { assert ClaimTypeOf("profile") == Some(claimType); }
    if claimType in {"email", "phone", "birthdate", "age_over_18"} && claimType in scopes {
      assert ClaimTypeOf(claimType) == Some(claimType);
    }
  }

  // ---------------------------------------------------------------- claims

  /** The presentation is of a claim of this type that the client asked for, about the chain's own identity, and passes the
      rule with the issuer's chain chosen of the stored copy and the one shown. */
  ghost predicate PassesRule(cfg: Config, scopes: seq<string>, chain: Chain, item: Item, claimType: string) {
    && item.shown.Shown? && Requested(scopes, claimType) && claimType in cfg.rules
    && var a := item.shown.attestation;
    && a.claimType == claimType && chain != [] && cfg.c.hash(chain[0]) == a.subject
    && exists issuer :: Issued(cfg.c, item, a.issuer, issuer)
         && Evaluates(cfg.c, cfg.v, cfg.rules[claimType], item.shown.document, a, chain, issuer, item.revoked, item.at)
  }

  ghost predicate Issued(c: Crypto, item: Item, who: Option<string>, issuer: Option<Chain>)
    requires item.shown.Shown?
  {
    var choice := ChooseSigchain(c, item.storedIssuer, item.shown.issuerChain);
    issuer == if who != None && choice != Conflict then choice.chain else None
  }

  lemma PassesExactly(cfg: Config, scopes: seq<string>, chain: Chain, item: Item, claimType: string)
    ensures PassesAs(cfg, scopes, chain, item, claimType) <==> PassesRule(cfg, scopes, chain, item, claimType)
  {
    if item.shown.Shown? { assert Issued(cfg.c, item, item.shown.attestation.issuer, IssuerChain(cfg.c, item)); }
  }

  /** What a released claim says is what was shown. */
  ghost predicate SaysWhatWasShown(claim: VerifiedClaim, shown: Presentation) {
    && shown.Shown?
    && var a := shown.attestation;
    && claim.claimType == a.claimType && claim.value == shown.document.value && claim.issuer == a.issuer
    && claim.means == a.means && claim.assurance == a.assurance && claim.issuedAt == a.issuedAt
    && claim.expiresAt == a.expiresAt
  }

  /** The first presentation of the type that passes and is as strong as any other that does is the one released. */
  ghost predicate FirstStrongest(cfg: Config, scopes: seq<string>, chain: Chain, items: seq<Item>, claimType: string, i: int) {
    && 0 <= i < |items| && PassesRule(cfg, scopes, chain, items[i], claimType)
    && forall j :: 0 <= j < |items| && j != i && PassesRule(cfg, scopes, chain, items[j], claimType) ==>
         if j < i then !AssuranceAtLeast(items[j].shown.attestation.assurance, items[i].shown.attestation.assurance)
         else AssuranceAtLeast(items[i].shown.attestation.assurance, items[j].shown.attestation.assurance)
  }

  ghost predicate ReleasedTold(cfg: Config, scopes: seq<string>, chain: Chain, items: seq<Item>, claimType: string,
                               released: map<string, VerifiedClaim>) {
    if claimType in released then
      exists i :: FirstStrongest(cfg, scopes, chain, items, claimType, i)
                  && SaysWhatWasShown(released[claimType], items[i].shown)
    else forall item <- items :: !PassesRule(cfg, scopes, chain, item, claimType)
  }

  lemma {:induction false} ReleasesExactly(cfg: Config, scopes: seq<string>, chain: Chain, items: seq<Item>,
                                           claimType: string)
    ensures ReleasedTold(cfg, scopes, chain, items, claimType, Release(cfg, scopes, chain, items))
  {
    if items != [] {
      var n := |items| - 1;
      ReleasesExactly(cfg, scopes, chain, items[..n], claimType);
      assert items == items[..n] + [items[n]];
      ReleasesNext(cfg, scopes, chain, items[..n], items[n], claimType);
    }
  }

  lemma RanksExactly()
    ensures forall a, b :: AssuranceAtLeast(a, b) <==> Rank(a) >= Rank(b)
  {
    forall a, b ensures AssuranceAtLeast(a, b) <==> Rank(a) >= Rank(b) { RankExactly(a, b); }
  }

  /** One presentation more that does not pass, or is no stronger, changes nothing. */
  lemma StrongestStays(cfg: Config, scopes: seq<string>, chain: Chain, items: seq<Item>, last: Item, claimType: string, i: int)
    requires FirstStrongest(cfg, scopes, chain, items, claimType, i)
    requires PassesRule(cfg, scopes, chain, last, claimType)
         ==> AssuranceAtLeast(items[i].shown.attestation.assurance, last.shown.attestation.assurance)
    ensures FirstStrongest(cfg, scopes, chain, items + [last], claimType, i)
  {
    var more := items + [last];
    assert forall j | 0 <= j < |items| :: more[j] == items[j];
  }

  lemma StrongerReplaces(cfg: Config, scopes: seq<string>, chain: Chain, items: seq<Item>, last: Item, claimType: string, i: int)
    requires FirstStrongest(cfg, scopes, chain, items, claimType, i) && PassesRule(cfg, scopes, chain, last, claimType)
    requires !AssuranceAtLeast(items[i].shown.attestation.assurance, last.shown.attestation.assurance)
    ensures FirstStrongest(cfg, scopes, chain, items + [last], claimType, |items|)
  {
    var more := items + [last];
    RanksExactly();
    forall j | 0 <= j < |items| && PassesRule(cfg, scopes, chain, more[j], claimType)
      ensures !AssuranceAtLeast(more[j].shown.attestation.assurance, last.shown.attestation.assurance)
    {
      assert more[j] == items[j];
    }
  }

  lemma ReleasesNext(cfg: Config, scopes: seq<string>, chain: Chain, items: seq<Item>, last: Item, claimType: string)
    requires ReleasedTold(cfg, scopes, chain, items, claimType, Release(cfg, scopes, chain, items))
    ensures ReleasedTold(cfg, scopes, chain, items + [last], claimType, Release(cfg, scopes, chain, items + [last]))
  {
    var more, before := items + [last], Release(cfg, scopes, chain, items);
    assert more[..|items|] == items;
    ReleasedSnoc(cfg, scopes, chain, more, claimType);
    PassesExactly(cfg, scopes, chain, last, claimType);
    if claimType !in before {
      if PassesRule(cfg, scopes, chain, last, claimType) { assert FirstStrongest(cfg, scopes, chain, more, claimType, |items|); }
    } else {
      var i :| FirstStrongest(cfg, scopes, chain, items, claimType, i) && SaysWhatWasShown(before[claimType], items[i].shown);
      RanksExactly();
      if PassesRule(cfg, scopes, chain, last, claimType)
         && !AssuranceAtLeast(items[i].shown.attestation.assurance, last.shown.attestation.assurance) {
        StrongerReplaces(cfg, scopes, chain, items, last, claimType, i);
      } else {
        StrongestStays(cfg, scopes, chain, items, last, claimType, i);
        assert more[i] == items[i];
      }
    }
  }

  // ---------------------------------------------------------------- requests and approvals

  lemma RotatesExactly(a: Attempt, now: int, spare: string)
    ensures Rotated(Refresh(a, now), now, spare)
         == if a.status !in {Waiting, Fetching} then a
            else if now > a.expiresAt then a.(status := TimedOut, held := None)
            else if now > a.requestExpires then a.(nonce := spare, requestExpires := now + 300)
            else a
  {
    assert a.status.Waiting? || a.status.Fetching? || a.status.Approved? || a.status.Failed? || a.status.TimedOut?;
  }

  /** Looking at an attempt ends it once its time is over, and draws a new request of five minutes for an expired one. */
  lemma RequestsExactly(s: Tables, id: string, now: int, spare: string)
    requires id in s.attempts
    ensures var s', a := FetchRequest(s, id, now, spare), s.attempts[id];
      && s' == s.(attempts := s'.attempts) && (forall other :: other in s'.attempts <==> other in s.attempts)
      && (forall other <- s.attempts :: other != id ==> s'.attempts[other] == s.attempts[other])
      && s'.attempts[id] ==
         if a.status !in {Waiting, Fetching} then a
         else if now > a.expiresAt then a.(status := TimedOut, held := None)
         else if now > a.requestExpires then a.(nonce := spare, requestExpires := now + 300)
         else a
  {
    var a' := Rotated(Refresh(s.attempts[id], now), now, spare);
    RotatesExactly(s.attempts[id], now, spare);
    assert FetchRequest(s, id, now, spare) == s.(attempts := s.attempts[id := a']);
  }

  /** An approval completes the attempt, if it is still there, and puts out one code, bound to what the attempt was opened
      with and to the device that signed in. */
  lemma ApprovalLeaves(cfg: Config, s: Tables, p: Approval, code: string, claims: map<string, VerifiedClaim>)
    ensures var s' := Finish(cfg, s, p, code, claims);
      && s'.tokens == s.tokens && code in s'.codes
      && (forall other :: other != code ==> (other in s'.codes <==> other in s.codes))
      && (forall other <- s.codes :: other != code ==> s'.codes[other] == s.codes[other])
      && s'.attempts.Keys == s.attempts.Keys
      && (forall other <- s.attempts :: other != p.attempt ==> s'.attempts[other] == s.attempts[other])
      && (p.attempt in s.attempts ==>
            && s'.attempts[p.attempt].status == Approved && s'.attempts[p.attempt].held == None
            && s'.attempts[p.attempt].identity == Some(p.fields.identity) && s'.attempts[p.attempt].shown == [])
  {
  }

  lemma CodeIsBound(cfg: Config, s: Tables, p: Approval, code: string, claims: map<string, VerifiedClaim>)
    ensures code in Finish(cfg, s, p, code, claims).codes
    ensures var c := Finish(cfg, s, p, code, claims).codes[code];
      && c.clientId == p.opening.clientId && c.redirectUri == p.opening.redirectUri
      && c.codeChallenge == p.opening.codeChallenge && c.oidcNonce == p.opening.oidcNonce && c.scopes == p.opening.scopes
      && c.identity == p.fields.identity && c.device == p.fields.device && c.claims == claims
      && c.authTime == p.at && c.expiresAt == p.at + cfg.codeLifetime
  {
  }
}
