/** One-time codes for a claim's address: who gets one, how often it may be tried, and what it lets attest. */
module CodeVerifiers {
  import opened Attestations
  import opened AuthLaws
  import opened ChainLaws
  import opened Events
  import opened Fetchers
  import opened Lists
  import opened Options
  import opened QueryLaws
  import opened RollingWindow
  import opened Sigchains
  import opened SlidingWindows
  import opened Sorting
  import opened Validity

  const MAX_ATTEMPTS := 5
  const MAX_PENDING := 1000

  /** `chain` is the holder's chain as it was shown when the code was asked for. */
  datatype Pending = Pending(identity: string, claimId: string, codeHash: string, expiresAt: int, chain: Chain, attempts: nat)

  datatype Refusal = OtherClaimType | InvalidSigchain | UnknownClaim | ClaimMismatch | ClaimInactive | Busy | BadAddress
                   | RateLimited

  datatype Started = Refused(why: Refusal) | CodeSent(expiresAt: int)

  /** What is attested: the record, and the head of the chain it was read from. */
  datatype Answer = Unknown | Expired | TooMany | WrongCode(remaining: nat) | NotActive
                  | Issued(record: ClaimRecord, chainHead: string)

  // ---------------------------------------------------------------- the claim

  /** What is wrong with asking for a code for this document. */
  function Objection(c: Crypto, claimType: string, d: Document, chain: Chain, now: int): Option<Refusal> {
    if d.claimType != claimType then Some(OtherClaimType)
    else if !Valid(c, chain) || c.hash(chain[0]) != d.identity then Some(InvalidSigchain)
    else
      var record := GetClaim(Claims(c, chain), d.claimId);
      if record.None? then Some(UnknownClaim)
      else if !Matches(d, record) then Some(ClaimMismatch)
      else if Status(record.value, now) != Active then Some(ClaimInactive)
      else None
  }

  /** The record to attest and the head of its chain, from the longer of the stored and the shown copy; None unless the
      claim is active there. */
  function Attestable(c: Crypto, p: Pending, stored: Option<Chain>, now: int): Option<(ClaimRecord, string)> {
    match ChooseSigchain(c, stored, Some(p.chain))
    case Conflict => None
    case Chosen(chain) =>
      var ours :- chain;
      var record :- GetClaim(Claims(c, ours), p.claimId);
      if Status(record, now) == Active then Some((record, if ours == [] then "" else c.hash(ours[|ours| - 1]))) else None
  }

  /** The record the code was asked for. */
  function ShownRecord(c: Crypto, p: Pending): Option<ClaimRecord> {
    if Valid(c, p.chain) && c.hash(p.chain[0]) == p.identity then GetClaim(Claims(c, p.chain), p.claimId) else None
  }

  /** Codes are out only for claims of the verifier's type on a chain that verifies. */
  predicate Grounded(c: Crypto, claimType: string, p: Pending) {
    var record := ShownRecord(c, p);
    record.Some? && record.value.claimType == claimType
  }

  /** What is wrong with asking for a code, told from the events. */
  lemma ObjectsExactly(c: Crypto, claimType: string, d: Document, chain: Chain, now: int)
    ensures Objection(c, claimType, d, chain, now) ==
      if d.claimType != claimType then Some(OtherClaimType)
      else if !Valid(c, chain) || c.hash(chain[0]) != d.identity then Some(InvalidSigchain)
      else if !ClaimMade(chain, d.claimId) then Some(UnknownClaim)
      else if !ClaimMadeWith(chain, d.claimId, claimType, d.commitment) then Some(ClaimMismatch)
      else if !ClaimStands(chain, d.claimId, claimType, d.commitment, now) then Some(ClaimInactive)
      else None
  {
    ClaimStandsExactly(c, chain, d.claimId, claimType, d.commitment, now);
    ClaimMadeExactly(c, chain, d.claimId, claimType, d.commitment);
  }

  /** The last event that makes the claim makes it of this type and commitment. */
  ghost predicate ClaimMadeWith(chain: Chain, id: string, kind: string, commitment: string) {
    exists i :: LastWith(AddsClaim(id), chain, i) && chain[i].body.claimType == kind && chain[i].body.commitment == commitment
  }

  lemma ClaimMadeExactly(c: Crypto, chain: Chain, id: string, kind: string, commitment: string)
    ensures var found := GetClaim(Claims(c, chain), id);
      && (found.Some? == ClaimMade(chain, id))
      && ((found.Some? && found.value.claimType == kind && found.value.commitment == commitment)
          == ClaimMadeWith(chain, id, kind, commitment))
  {
    ClaimRecordIsTold(c, chain, id);
    var found := GetClaim(Claims(c, chain), id);
    if found.Some? {
      var i :| LastWith(AddsClaim(id), chain, i) && MadeBy(c, chain, i, found.value) && EndedAfter(chain, i, id, found.value);
      assert chain[i] in chain;
      forall k | LastWith(AddsClaim(id), chain, k) ensures k == i { OneLast(AddsClaim(id), chain, k, i); }
    }
  }

  /** The longer of our copy and the one shown, which extends the one shown. */
  ghost function LongerCopy(p: Pending, stored: Option<Chain>): Chain {
    if stored.Some? && p.chain <= stored.value then stored.value else p.chain
  }

  predicate Agreeing(p: Pending, stored: Option<Chain>) {
    stored.Some? ==> p.chain <= stored.value || stored.value <= p.chain
  }

  lemma ChosenIsLonger(c: Crypto, p: Pending, stored: Option<Chain>)
    requires Injective(c) && Valid(c, p.chain) && (stored.Some? ==> Valid(c, stored.value))
    ensures ChooseSigchain(c, stored, Some(p.chain))
         == if Agreeing(p, stored) then Chosen(Some(LongerCopy(p, stored))) else Conflict
  {
    if stored.Some? {
      HashesPrefixIffPrefix(c, p.chain, stored.value);
      HashesPrefixIffPrefix(c, stored.value, p.chain);
      if p.chain <= stored.value && stored.value <= p.chain { SamePrefixes(p.chain, stored.value); }
    }
  }

  /** On a longer chain the claim has the same type and commitment; if it is active there it was never revoked. */
  lemma SameClaimLater(c: Crypto, claimType: string, p: Pending, ext: Chain)
    requires Grounded(c, claimType, p) && Valid(c, ext) && p.chain <= ext
    ensures var shown, found := ShownRecord(c, p).value, GetClaim(Claims(c, ext), p.claimId);
      && found.Some? && found.value.claimType == shown.claimType && found.value.commitment == shown.commitment
      && found.value.claimId == p.claimId && (found.value.revokedAt.None? ==> shown.revokedAt.None?)
  {
    GetClaimFinds(c, p.chain, p.claimId);
    GetClaimFinds(c, ext, p.claimId);
    RecordsOnlyEnd(c, p.chain, ext, p.claimId);
    ClaimRecordIsTold(c, ext, p.claimId);
  }

  /** What is attested, if the copies agree: the active record of the longer copy, and that copy's head. */
  lemma AttestableIs(c: Crypto, claimType: string, p: Pending, stored: Option<Chain>, now: int)
    requires Injective(c) && Grounded(c, claimType, p) && (stored.Some? ==> Valid(c, stored.value))
    ensures var ours := LongerCopy(p, stored); var found := GetClaim(Claims(c, ours), p.claimId);
      && found.Some? && ours != []
      && Attestable(c, p, stored, now) == if Agreeing(p, stored) && Status(found.value, now) == Active
                                          then Some((found.value, Head(c, ours))) else None
  {
    ChosenIsLonger(c, p, stored);
    SameClaimLater(c, claimType, p, LongerCopy(p, stored));
  }

  /** Whatever copy is chosen in the end, the record attested is the one the code was asked for, still active: its type
      and commitment are those that were compared with the document; and the head attested is that copy's. */
  lemma AttestsWhatWasShown(c: Crypto, claimType: string, p: Pending, stored: Option<Chain>, now: int)
    requires Injective(c) && Grounded(c, claimType, p) && (stored.Some? ==> Valid(c, stored.value))
    requires Attestable(c, p, stored, now).Some?
    ensures var shown, (record, head) := ShownRecord(c, p).value, Attestable(c, p, stored, now).value;
      && record.claimType == shown.claimType && record.commitment == shown.commitment && record.claimId == p.claimId
      && shown.revokedAt.None? && Status(record, now) == Active
      && LongerCopy(p, stored) != [] && head == Head(c, LongerCopy(p, stored))
  {
    AttestableIs(c, claimType, p, stored, now);
    SameClaimLater(c, claimType, p, LongerCopy(p, stored));
  }

  /** An attestation is made exactly if the copies agree and the claim stands on the longer one. */
  lemma AttestsExactly(c: Crypto, claimType: string, p: Pending, stored: Option<Chain>, now: int)
    requires Injective(c) && Grounded(c, claimType, p) && (stored.Some? ==> Valid(c, stored.value))
    ensures var shown := ShownRecord(c, p).value;
      Attestable(c, p, stored, now).Some?
        == (Agreeing(p, stored)
            && ClaimStands(LongerCopy(p, stored), p.claimId, shown.claimType, shown.commitment, now))
  {
    var shown := ShownRecord(c, p).value;
    AttestableIs(c, claimType, p, stored, now);
    SameClaimLater(c, claimType, p, LongerCopy(p, stored));
    ClaimStandsExactly(c, LongerCopy(p, stored), p.claimId, shown.claimType, shown.commitment, now);
  }

  // ---------------------------------------------------------------- the codes that are out

  function Unexpired(pending: map<string, Pending>, now: int): map<string, Pending> {
    map id | id in pending && !(pending[id].expiresAt < now) :: pending[id]
  }

  /** The codes of other claims. */
  function Except(pending: map<string, Pending>, identity: string, claimId: string): map<string, Pending> {
    map id | id in pending && !(pending[id].identity == identity && pending[id].claimId == claimId) :: pending[id]
  }

  /** The settings of a verifier: its claim type, the hash of a verification id and a code, how a code that comes back and
      an address are normalized, which addresses are accepted, and how long codes last. */
  datatype Settings = Settings(c: Crypto, claimType: string, hash: (string, string) -> string, normalize: string -> string,
                               lower: string -> string, accepts: string -> bool, ttl: int)

  ghost predicate Open(cfg: Settings, p: Pending, tries: map<string, nat>, issued: seq<string>, id: string) {
    id in tries && p.attempts == tries[id] < MAX_ATTEMPTS && id !in issued && Grounded(cfg.c, cfg.claimType, p)
  }

  ghost predicate OnePerClaim(pending: map<string, Pending>) {
    forall a, b :: a in pending && b in pending && a != b ==>
      pending[a].identity != pending[b].identity || pending[a].claimId != pending[b].claimId
  }

  /**
   No code is compared more than five times; a verification that led to an attestation is over; and no claim has two
   codes that could still be used.
   */
  ghost predicate Consistent(cfg: Settings, pending: map<string, Pending>, tries: map<string, nat>, issued: seq<string>) {
    && (forall id <- pending :: Open(cfg, pending[id], tries, issued, id))
    && OnePerClaim(pending)
    && (forall id <- tries :: tries[id] <= MAX_ATTEMPTS)
    && (forall id <- issued :: id in tries)
    && NoDuplicates(issued)
  }

  /** Codes may be withdrawn at any time. */
  lemma FewerIsConsistent(cfg: Settings, pending: map<string, Pending>, fewer: map<string, Pending>,
                          tries: map<string, nat>, issued: seq<string>)
    requires Consistent(cfg, pending, tries, issued)
    requires forall id <- fewer :: id in pending && fewer[id] == pending[id]
    ensures Consistent(cfg, fewer, tries, issued)
  {
    forall id | id in fewer ensures Open(cfg, fewer[id], tries, issued, id) {
      assert Open(cfg, pending[id], tries, issued, id);
    }
  }

  lemma StartIsConsistent(cfg: Settings, pending: map<string, Pending>, tries: map<string, nat>, issued: seq<string>,
                          id: string, p: Pending)
    requires Consistent(cfg, pending, tries, issued) && id !in tries && p.attempts == 0 && Grounded(cfg.c, cfg.claimType, p)
    requires forall other <- pending :: pending[other].identity != p.identity || pending[other].claimId != p.claimId
    ensures Consistent(cfg, pending[id := p], tries[id := 0], issued)
  {
    var pending' := pending[id := p];
    forall v | v in pending' ensures Open(cfg, pending'[v], tries[id := 0], issued, v) {
      if v != id { assert Open(cfg, pending[v], tries, issued, v); }
    }
  }

  lemma TryIsConsistent(cfg: Settings, pending: map<string, Pending>, tries: map<string, nat>, issued: seq<string>, id: string)
    requires Consistent(cfg, pending, tries, issued) && id in pending
    ensures id in tries && tries[id] == pending[id].attempts < MAX_ATTEMPTS && id !in issued
    ensures var p := pending[id].(attempts := pending[id].attempts + 1); var tries' := tries[id := p.attempts];
      && Consistent(cfg, pending - {id}, tries', issued)
      && Consistent(cfg, pending - {id}, tries', issued + [id])
      && (p.attempts < MAX_ATTEMPTS ==> Consistent(cfg, pending[id := p], tries', issued))
  {
    assert Open(cfg, pending[id], tries, issued, id);
    var p := pending[id].(attempts := pending[id].attempts + 1);
    var tries' := tries[id := p.attempts];
    forall v | v in pending && v != id
      ensures Open(cfg, pending[v], tries', issued, v) && Open(cfg, pending[v], tries', issued + [id], v)
    {
      assert Open(cfg, pending[v], tries, issued, v);
    }
    if p.attempts < MAX_ATTEMPTS { StillOpen(cfg, pending[id], p, tries', issued, id); }
  }

  /** The codes that are out once one was compared. */
  function Compared(pending: map<string, Pending>, id: string, right: bool): map<string, Pending>
    requires id in pending
  {
    var p := pending[id].(attempts := pending[id].attempts + 1);
    if right || p.attempts >= MAX_ATTEMPTS then pending - {id} else pending[id := p]
  }

  lemma ComparedIsConsistent(cfg: Settings, pending: map<string, Pending>, tries: map<string, nat>, issued: seq<string>,
                             id: string, right: bool)
    requires Consistent(cfg, pending, tries, issued) && id in pending
    ensures id in tries && tries[id] == pending[id].attempts < MAX_ATTEMPTS
    ensures var tries' := tries[id := pending[id].attempts + 1];
      && Consistent(cfg, Compared(pending, id, right), tries', issued)
      && (right ==> Consistent(cfg, Compared(pending, id, right), tries', issued + [id]))
  {
    TryIsConsistent(cfg, pending, tries, issued, id);
  }

  lemma StillOpen(cfg: Settings, before: Pending, p: Pending, tries: map<string, nat>, issued: seq<string>, id: string)
    requires Grounded(cfg.c, cfg.claimType, before) && p == before.(attempts := p.attempts)
    requires id in tries && p.attempts == tries[id] < MAX_ATTEMPTS && id !in issued
    ensures Open(cfg, p, tries, issued, id)
  {
  }

  /** Fewer than the limit of successes lie in the window. */
  ghost predicate HasRoom(log: map<string, seq<real>>, key: string, now: real, seconds: real, limit: int) {
    CountAfter(Times(log, key), now - seconds) < limit
  }

  ghost function Logged(log: map<string, seq<real>>, key: string, now: real, seconds: real, limit: int)
    : map<string, seq<real>>
  {
    if HasRoom(log, key, now, seconds, limit) then log[key := Times(log, key) + [now]] else log
  }

  method CountOne(w: SlidingWindow, key: string, now: real) returns (ok: bool)
    requires w.Valid() && w.clock <= now
    modifies w
    ensures w.Valid() && w.clock == now
    ensures ok == old(HasRoom(w.log, key, now, w.seconds, w.limit)) && w.log == old(Logged(w.log, key, now, w.seconds, w.limit))
  {
    ok := w.Allow(key, now);
  }

  /** The three limits a code must keep. */
  class Limits {
    const byAddress: SlidingWindow
    const byIdentity: SlidingWindow
    const overall: SlidingWindow

    ghost predicate Valid()
      reads this, byAddress, byIdentity, overall
    {
      && byAddress != byIdentity && byIdentity != overall && overall != byAddress
      && byAddress.Valid() && byIdentity.Valid() && overall.Valid()
      && byAddress.clock == byIdentity.clock == overall.clock
    }

    constructor (perAddress: (int, real), perIdentity: (int, real), global: (int, real), now: real)
      ensures Valid() && fresh(byAddress) && fresh(byIdentity) && fresh(overall) && overall.clock == now
      ensures byAddress.log == map[] && byIdentity.log == map[] && overall.log == map[]
    {
      byAddress := new SlidingWindow(perAddress.0, perAddress.1, now);
      byIdentity := new SlidingWindow(perIdentity.0, perIdentity.1, now);
      overall := new SlidingWindow(global.0, global.1, now);
    }

    ghost function Logs(): (map<string, seq<real>>, map<string, seq<real>>, map<string, seq<real>>)
      reads this, byAddress, byIdentity, overall
    {
      (byAddress.log, byIdentity.log, overall.log)
    }

    /** Whether all three have room, and the logs once the attempt was counted in each that has. */
    ghost function Room(address: string, identity: string, now: real): bool
      reads this, byAddress, byIdentity, overall
    {
      && HasRoom(byAddress.log, address, now, byAddress.seconds, byAddress.limit)
      && HasRoom(byIdentity.log, identity, now, byIdentity.seconds, byIdentity.limit)
      && HasRoom(overall.log, "all", now, overall.seconds, overall.limit)
    }

    ghost function Counted(address: string, identity: string, now: real)
      : (map<string, seq<real>>, map<string, seq<real>>, map<string, seq<real>>)
      reads this, byAddress, byIdentity, overall
    {
      (Logged(byAddress.log, address, now, byAddress.seconds, byAddress.limit),
       Logged(byIdentity.log, identity, now, byIdentity.seconds, byIdentity.limit),
       Logged(overall.log, "all", now, overall.seconds, overall.limit))
    }

    /** Every attempt counts against all three limits, so no single check hides the others. */
    method Allow(address: string, identity: string, now: real) returns (ok: bool)
      requires Valid() && overall.clock <= now
      modifies byAddress, byIdentity, overall
      ensures Valid() && overall.clock == now
      ensures ok == old(Room(address, identity, now)) && Logs() == old(Counted(address, identity, now))
    {
      var first := CountOne(byAddress, address, now);
      var second := CountOne(byIdentity, identity, now);
      var third := CountOne(overall, "all", now);
      ok := first && second && third;
    }

    method Cleanup(now: real)
      requires Valid() && overall.clock <= now
      modifies byAddress, byIdentity, overall
      ensures Valid() && overall.clock == now && Logs() == old(Logs())
    {
      byAddress.Cleanup(now);
      byIdentity.Cleanup(now);
      overall.Cleanup(now);
    }
  }

  class CodeVerifier {
    const cfg: Settings
    const limits: Limits
    var pending: map<string, Pending>
    ghost var tries: map<string, nat>   // codes compared, by verification id; every id ever drawn is here
    ghost var issued: seq<string>       // the verification ids that led to an attestation, in order

    /** How often codes were compared for a verification. */
    ghost function Tries(id: string): nat
      reads this
    {
      if id in tries then tries[id] else 0
    }

    ghost predicate CodesValid()
      reads this
    {
      Consistent(cfg, pending, tries, issued)
    }

    ghost predicate Valid()
      reads this, limits, limits.byAddress, limits.byIdentity, limits.overall
    {
      CodesValid() && limits.Valid()
    }

    constructor (cfg: Settings, limits: Limits)
      requires limits.Valid()
      ensures Valid() && pending == map[] && tries == map[] && this.cfg == cfg && this.limits == limits
    {
      this.cfg, this.limits := cfg, limits;
      pending, tries, issued := map[], map[], [];
    }

    method Cleanup(now: real)
      requires Valid() && limits.overall.clock <= now
      modifies this`pending, limits.byAddress, limits.byIdentity, limits.overall
      ensures Valid() && limits.overall.clock == now && limits.Logs() == old(limits.Logs())
      ensures pending == Unexpired(old(pending), now.Floor)
      ensures forall id :: id in pending <==> id in old(pending) && now.Floor <= old(pending)[id].expiresAt
    {
      pending := Unexpired(pending, now.Floor);
      FewerIsConsistent(cfg, old(pending), pending, tries, issued);
      limits.Cleanup(now);
    }

    /** Draws a code for a claim, `id` being a new random token; an older code for the claim is void from now on. The
        attempt counts against the limits once everything else is in order. */
    method Start(id: string, d: Document, chain: Chain, address: string, code: string, now: real) returns (answer: Started)
      requires Valid() && id !in tries && limits.overall.clock <= now
      modifies this`pending, this`tries, limits.byAddress, limits.byIdentity, limits.overall
      ensures Valid()
      ensures var t := now.Floor; var open := Unexpired(old(pending), t);
        var wrong := Objection(cfg.c, cfg.claimType, d, chain, t);
        if wrong.Some? then
          answer == Refused(wrong.value) && pending == old(pending) && tries == old(tries) && limits.Logs() == old(limits.Logs())
        else if |open| >= 1000 || !cfg.accepts(address) then
          && answer == Refused(if |open| >= 1000 then Busy else BadAddress)
          && pending == open && tries == old(tries) && limits.Logs() == old(limits.Logs())
        else
          && limits.Logs() == old(limits.Counted(cfg.lower(address), d.identity, now))
          && if old(limits.Room(cfg.lower(address), d.identity, now)) then
               && answer == CodeSent(t + cfg.ttl) && tries == old(tries)[id := 0]
               && pending == Except(open, d.identity, d.claimId)[id := NewPending(cfg, id, d, chain, code, t)]
             else answer == Refused(RateLimited) && pending == open && tries == old(tries)
    {
      var wrong := Objection(cfg.c, cfg.claimType, d, chain, now.Floor);
      if wrong.Some? { return Refused(wrong.value); }
      NewIsGrounded(cfg, id, d, chain, code, now.Floor);
      Cleanup(now);
      if |pending| >= MAX_PENDING { return Refused(Busy); }
      if !cfg.accepts(address) { return Refused(BadAddress); }
      var allowed := limits.Allow(cfg.lower(address), d.identity, now);
      if !allowed { return Refused(RateLimited); }
      Draw(id, NewPending(cfg, id, d, chain, code, now.Floor));
      return CodeSent(now.Floor + cfg.ttl);
    }

    /** The code is out; an older one for the claim is void. */
    method Draw(id: string, p: Pending)
      requires Valid() && id !in tries && Grounded(cfg.c, cfg.claimType, p) && p.attempts == 0
      modifies this`pending, this`tries
      ensures Valid() && pending == Except(old(pending), p.identity, p.claimId)[id := p] && tries == old(tries)[id := 0]
    {
      pending := Except(pending, p.identity, p.claimId);
      FewerIsConsistent(cfg, old(pending), pending, tries, issued);
      StartIsConsistent(cfg, pending, tries, issued, id, p);
      pending := pending[id := p];
      tries := tries[id := 0];
    }

    /** The message could not be delivered. */
    method Withdraw(id: string)
      requires Valid()
      modifies this`pending
      ensures Valid() && pending == old(pending) - {id}
    {
      pending := pending - {id};
      FewerIsConsistent(cfg, old(pending), pending, tries, issued);
    }

    /** Compares a code with one that is out; the right one is used up. */
    method Compare(id: string, code: string) returns (right: bool, remaining: nat)
      requires CodesValid() && id in pending
      modifies this`pending, this`tries
      ensures CodesValid() && (right ==> Consistent(cfg, pending, tries, issued + [id]))
      ensures right == (cfg.hash(id, cfg.normalize(code)) == old(pending)[id].codeHash)
      ensures pending == Compared(old(pending), id, right) && Tries(id) == old(pending)[id].attempts + 1
      ensures tries == old(tries)[id := old(Tries(id)) + 1] && remaining == MAX_ATTEMPTS - Tries(id)
    {
      right := cfg.hash(id, cfg.normalize(code)) == pending[id].codeHash;
      ComparedIsConsistent(cfg, pending, tries, issued, id, right);
      var n := pending[id].attempts + 1;
      pending, tries := Compared(pending, id, right), tries[id := n];
      remaining := MAX_ATTEMPTS - n;
    }

    /** A code that is right and in time yields the attestation if the claim is active on the longer chain. */
    method Confirm(id: string, code: string, stored: Option<Chain>, now: int) returns (answer: Answer)
      requires CodesValid()
      modifies this
      ensures CodesValid()
      ensures if id !in old(pending) then
          answer == Unknown && pending == old(pending) && tries == old(tries)
        else if now > old(pending)[id].expiresAt then
          answer == Expired && pending == old(pending) - {id} && tries == old(tries)
        else
          var right := cfg.hash(id, cfg.normalize(code)) == old(pending)[id].codeHash;
          && tries == old(tries)[id := old(Tries(id)) + 1]
          && pending == (if right || Tries(id) >= 5 then old(pending) - {id}
                         else old(pending)[id := old(pending)[id].(attempts := Tries(id))])
          && answer == if right then AnswerOf(Attestable(cfg.c, old(pending)[id], stored, now))
                       else if Tries(id) >= 5 then TooMany else WrongCode(5 - Tries(id))
      ensures issued == if answer.Issued? then old(issued) + [id] else old(issued)
    {
      if id !in pending { return Unknown; }
      var p := pending[id];
      if now > p.expiresAt {
        pending := pending - {id};
        FewerIsConsistent(cfg, old(pending), pending, tries, issued);
        return Expired;
      }
      var right, remaining := Compare(id, code);
      if !right { return if remaining == 0 then TooMany else WrongCode(remaining); }
      answer := AnswerOf(Attestable(cfg.c, p, stored, now));
      if answer.Issued? { issued := issued + [id]; }
    }
  }

  function AnswerOf(found: Option<(ClaimRecord, string)>): Answer {
    if found.Some? then Issued(found.value.0, found.value.1) else NotActive
  }

  function NewPending(cfg: Settings, id: string, d: Document, chain: Chain, code: string, now: int): Pending {
    Pending(d.identity, d.claimId, cfg.hash(id, code), now + cfg.ttl, chain, 0)
  }

  /** A code that was drawn is out for its claim with the hash of that code, on the chain shown, untried; no other code of
      the claim is, and codes of other claims stay. */
  lemma DrawnExactly(cfg: Settings, out: map<string, Pending>, id: string, d: Document, chain: Chain, code: string, now: int)
    ensures var after := Except(out, d.identity, d.claimId)[id := NewPending(cfg, id, d, chain, code, now)];
      && after[id].identity == d.identity && after[id].claimId == d.claimId && after[id].chain == chain
      && after[id].codeHash == cfg.hash(id, code) && after[id].expiresAt - now == cfg.ttl && after[id].attempts == 0
      && (forall other :: other != id ==>
            (other in after <==> other in out && (out[other].identity != d.identity || out[other].claimId != d.claimId)))
      && (forall other <- after :: other != id ==> after[other] == out[other])
  {
  }

  lemma NewIsGrounded(cfg: Settings, id: string, d: Document, chain: Chain, code: string, now: int)
    requires Objection(cfg.c, cfg.claimType, d, chain, now).None?
    ensures Grounded(cfg.c, cfg.claimType, NewPending(cfg, id, d, chain, code, now))
  {
  }
}
