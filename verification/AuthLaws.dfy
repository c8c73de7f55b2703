/** Which assertions and attestations are accepted, told from the events of the chains they are looked at with. */
module AuthLaws {
  import opened Options
  import opened Lists
  import opened Json
  import opened Text
  import opened Events
  import opened Sigchains
  import opened ChainLaws
  import opened Dicts
  import opened Validity
  import opened QueryLaws
  import opened Assertions
  import opened Attestations

  // ---------------------------------------------------------------- devices and claims on a chain

  /** The last event that lists the key adds it with the capability, no later than `latest`; and no event revokes it. */
  ghost predicate MayAct(chain: Chain, key: string, capability: string, now: int, latest: int) {
    && !KeyRevoked(chain, key) && !IsMaster(chain, key)
    && exists i :: LastWith(ListsKey(key, now), chain, i) && chain[i].timestamp <= latest && CanDo(chain[i], capability)
  }

  /** The event gives its key the capability. */
  ghost predicate CanDo(e: Event, capability: string) {
    match e.body
    case AddDevice(_, _, _, Some(capabilities), _) => capability in capabilities
    case Genesis(_, _, _, _, _, _, _) => capability == "sign" || capability == "encrypt"
    case _ => false
  }

  lemma CanDoIsHas(e: Event, info: DeviceInfo, capability: string)
    requires DetailsFrom(e, info)
    ensures CanDo(e, capability) <==> Assertions.Has(info.capabilities, capability)
    ensures info.addedAt == e.timestamp
  {
  }

  /** What the device of a key is told by. */
  lemma DeviceIsTold(chain: Chain, key: string, now: int)
    ensures var found := DeviceWithKey(ActiveDevices(chain, now), key);
      match found
      case None => KeyRevoked(chain, key) || forall i :: !LastWith(ListsKey(key, now), chain, i)
      case Some(info) =>
        info.pubkey == key && !KeyRevoked(chain, key)
        && exists i :: LastWith(ListsKey(key, now), chain, i) && DetailsFrom(chain[i], info)
  {
    var found := DeviceWithKey(ActiveDevices(chain, now), key);
    if found.Some? {
      DeviceWithKeyIsMember(ActiveDevices(chain, now), key);
      DevicesAreTold(chain, now, found.value);
    } else if i :| LastWith(ListsKey(key, now), chain, i) && !KeyRevoked(chain, key) {
      var info := ListedBy(chain[i], key, now);
      DevicesAreTold(chain, now, info);
      NoDeviceWithKey(ActiveDevices(chain, now), info);
    }
  }

  lemma ListedBy(e: Event, key: string, now: int) returns (info: DeviceInfo)
    requires ListsKey(key, now)(e)
    ensures info.pubkey == key && DetailsFrom(e, info)
  {
    match e.body
    case Genesis(_, enc, _, _, _, _, _) => info := DeviceInfo(key, enc, "Primary", Some(["sign", "encrypt"]), e.timestamp, None);
    case AddDevice(_, enc, name, caps, expires) => info := DeviceInfo(key, enc, name, caps, e.timestamp, expires);
  }

  lemma {:induction false} NoDeviceWithKey(devices: seq<DeviceInfo>, info: DeviceInfo)
    requires info in devices
    ensures DeviceWithKey(devices, info.pubkey).Some?
  {
    if devices[0].pubkey != info.pubkey { NoDeviceWithKey(devices[1..], info); }
  }

  lemma OneLast<T(!new)>(p: T -> bool, s: seq<T>, i: int, j: int)
    requires LastWith(p, s, i) && LastWith(p, s, j)
    ensures i == j
  {
  }

  /** The checks made of a key that acts for an identity are about the events alone. */
  lemma MayActExactly(c: Crypto, chain: Chain, key: string, capability: string, now: int, latest: int)
    ensures var found := DeviceWithKey(ActiveDevices(chain, now), key);
      MayAct(chain, key, capability, now, latest)
        == (CurrentMaster(chain) != Some(key)
            && found.Some? && Assertions.Has(found.value.capabilities, capability) && found.value.addedAt <= latest)
  {
    var found := DeviceWithKey(ActiveDevices(chain, now), key);
    MasterIsTold(chain, key);
    DeviceIsTold(chain, key, now);
    if found.Some? {
      var i :| LastWith(ListsKey(key, now), chain, i) && DetailsFrom(chain[i], found.value);
      CanDoIsHas(chain[i], found.value, capability);
      forall k | LastWith(ListsKey(key, now), chain, k) ensures k == i { OneLast(ListsKey(key, now), chain, k, i); }
    }
  }

  /** The last event that makes the claim makes it of this type and commitment, nothing revokes it since, and it has not
      lapsed. */
  ghost predicate ClaimStands(chain: Chain, id: string, kind: string, commitment: string, t: int) {
    exists i :: LastWith(AddsClaim(id), chain, i)
      && chain[i].body.claimType == kind && chain[i].body.commitment == commitment
      && (forall x :: chain[i].body.claimExpires == Some(x) && x != 0 ==> t <= x)
      && (forall j :: i < j < |chain| ==> !EndsClaim(id)(chain[j]))
  }

  lemma {:induction false} GetClaimIsLookup(d: Dict<string, ClaimRecord>, id: string)
    requires UnderTheirIds(d)
    ensures GetClaim(Values(d), id) == Lookup(d, id)
  {
    if d != [] {
      assert Values(d)[1..] == Values(d[1..]);
      GetClaimIsLookup(d[1..], id);
    }
  }

  ghost predicate UnderTheirIds(d: Dict<string, ClaimRecord>) {
    forall i :: 0 <= i < |d| ==> d[i].1.claimId == d[i].0
  }

  /** The query finds what the dictionary holds. */
  lemma GetClaimFinds(c: Crypto, chain: Chain, id: string)
    ensures UnderTheirIds(ClaimDict(c, chain))
    ensures GetClaim(Claims(c, chain), id) == Lookup(ClaimDict(c, chain), id)
  {
    var d := ClaimDict(c, chain);
    forall i | 0 <= i < |d| ensures d[i].1.claimId == d[i].0 {
      ClaimsAreTold(c, chain, d[i].0);
      LookupIsMembership(d, d[i].0);
    }
    GetClaimIsLookup(d, id);
  }

  /** The record of a claim as the query finds it. */
  lemma ClaimRecordIsTold(c: Crypto, chain: Chain, id: string)
    ensures RecordTold(c, chain, id, GetClaim(Claims(c, chain), id))
  {
    GetClaimFinds(c, chain, id);
    ClaimsAreTold(c, chain, id);
  }

  lemma ClaimStandsExactly(c: Crypto, chain: Chain, id: string, kind: string, commitment: string, t: int)
    ensures var found := GetClaim(Claims(c, chain), id);
      ClaimStands(chain, id, kind, commitment, t)
        == (found.Some? && found.value.claimType == kind && found.value.commitment == commitment
            && Status(found.value, t) == Active)
    ensures var found := GetClaim(Claims(c, chain), id); found.Some? ==> found.value.claimId == id
  {
    var found := GetClaim(Claims(c, chain), id);
    ClaimRecordIsTold(c, chain, id);
    if found.Some? {
      var r := found.value;
      var i :| LastWith(AddsClaim(id), chain, i) && MadeBy(c, chain, i, r) && EndedAfter(chain, i, id, r);
      forall k | LastWith(AddsClaim(id), chain, k) ensures k == i { OneLast(AddsClaim(id), chain, k, i); }
    }
  }

  // ---------------------------------------------------------------- assertions

  ghost predicate TextIs(d: map<string, Value>, name: string, text: string) {
    name in d && d[name] == Str(text) && text != ""
  }

  ghost predicate IntIs(d: map<string, Value>, name: string, n: int) {
    name in d && d[name].Num? && ParseInt(d[name].lit) == Some(n)
  }

  /** What is read of an assertion is what stands in its fields. */
  lemma FieldsAreRead(d: map<string, Value>, f: Fields)
    ensures ReadFields(d) == Some(f)
       <==> TextIs(d, "type", "AUTH_ASSERTION") && TextIs(d, "identity", f.identity) && TextIs(d, "device", f.device)
            && TextIs(d, "aud", f.aud) && TextIs(d, "nonce", f.nonce) && TextIs(d, "chain_head", f.chainHead)
            && TextIs(d, "sig", f.sig) && IntIs(d, "iat", f.iat) && IntIs(d, "exp", f.exp)
            && (if "claims" in d then d["claims"] == Obj(f.claims) else f.claims == map[])
  {
  }

  /**
   An assertion is accepted exactly if it is for this party, lasts at most ten minutes and is in time up to a minute, the
   chain verifies, is the identity's and holds the head the signer knew, the signing key may authenticate by then, and the
   signature is its.
   */
  lemma AcceptedExactly(c: Crypto, signs: Signs, d: map<string, Value>, chain: Chain, aud: string, now: int, f: Fields)
    ensures VerifyAssertion(c, signs, d, chain, aud, now) == Accepted(f)
       <==> ReadFields(d) == Some(f) && f.aud == aud
            && 0 < f.exp - f.iat <= 600 && f.iat - 60 <= now <= f.exp + 60
            && Valid(c, chain) && c.hash(chain[0]) == f.identity
            && (exists e <- chain :: c.hash(e) == f.chainHead)
            && MayAct(chain, f.device, "authenticate", now, f.iat + 60)
            && signs(d, f.device, f.sig)
  {
    if ReadFields(d) == Some(f) {
      MayActExactly(c, chain, f.device, "authenticate", now, f.iat + 60);
      HeldByMember(c, chain, f.chainHead);
    }
  }

  lemma HeldByMember(c: Crypto, chain: Chain, hash: string)
    ensures Contains(c, chain, hash) <==> exists e <- chain :: c.hash(e) == hash
  {
    if Contains(c, chain, hash) {
      var i :| 0 <= i < |chain| && c.hash(chain[i]) == hash;
      assert chain[i] in chain;
    }
  }

  /** It is taken for one the node is too far behind for exactly if that is all that is wrong so far. */
  lemma BehindExactly(c: Crypto, signs: Signs, d: map<string, Value>, chain: Chain, aud: string, now: int)
    ensures VerifyAssertion(c, signs, d, chain, aud, now) == Rejected("unknown_chain_head")
       <==> ReadFields(d).Some?
            && var f := ReadFields(d).value;
            && f.aud == aud && 0 < f.exp - f.iat <= 600 && f.iat - 60 <= now <= f.exp + 60
            && Valid(c, chain) && c.hash(chain[0]) == f.identity && !exists e <- chain :: c.hash(e) == f.chainHead
  {
    if ReadFields(d).Some? { HeldByMember(c, chain, ReadFields(d).value.chainHead); }
  }

  /** It is expired, or not valid yet, exactly if nothing but the time is wrong so far. */
  lemma ExpiredExactly(c: Crypto, signs: Signs, d: map<string, Value>, chain: Chain, aud: string, now: int)
    ensures VerifyAssertion(c, signs, d, chain, aud, now) == Rejected("expired")
       <==> ReadFields(d).Some?
            && var f := ReadFields(d).value;
            && f.aud == aud && 0 < f.exp - f.iat <= 600 && !(f.iat - 60 <= now <= f.exp + 60)
  {
  }

  // ---------------------------------------------------------------- attestations

  ghost predicate AssuranceAtLeast(assurance: string, least: string) {
    || least == "low"
    || (least == "substantial" && assurance != "low")
    || (least != "low" && least != "substantial" && assurance != "low" && assurance != "substantial")
  }

  lemma RankExactly(assurance: string, least: string)
    ensures Rank(assurance) >= Rank(least) <==> AssuranceAtLeast(assurance, least)
  {
  }

  /** The attestation is a proof the rule accepts, or is issued by someone the rule trusts. */
  ghost predicate Backed(c: Crypto, v: Verifiers, rule: ClaimRule, d: Document, a: Attestation, subject: Chain,
                         issuer: Option<Chain>, now: int) {
    if a.proof != None then
      rule.allowProof && v.proves(a, subject, now) && (rule.claimType == "legal_name" ==> v.named(a, d, rule.leniency))
    else
      exists who, key, sig, chain ::
        && a.issuer == Some(who) && a.signedBy == Some(key) && a.sig == Some(sig) && issuer == Some(chain)
        && who in rule.issuers && Valid(c, chain) && c.hash(chain[0]) == who
        && MayActAnyTime(chain, key, "sign_identity", now) && v.attests(a, key, sig)
  }

  ghost predicate MayActAnyTime(chain: Chain, key: string, capability: string, now: int) {
    exists latest :: MayAct(chain, key, capability, now, latest)
  }

  lemma MayActAnyTimeExactly(c: Crypto, chain: Chain, key: string, capability: string, now: int)
    ensures var found := DeviceWithKey(ActiveDevices(chain, now), key);
      MayActAnyTime(chain, key, capability, now)
        == (CurrentMaster(chain) != Some(key) && found.Some? && Assertions.Has(found.value.capabilities, capability))
  {
    var found := DeviceWithKey(ActiveDevices(chain, now), key);
    if found.Some? { MayActExactly(c, chain, key, capability, now, found.value.addedAt); }
    forall latest ensures MayAct(chain, key, capability, now, latest) ==>
      CurrentMaster(chain) != Some(key) && found.Some? && Assertions.Has(found.value.capabilities, capability)
    {
      MayActExactly(c, chain, key, capability, now, latest);
    }
  }

  lemma BackedExactly(c: Crypto, v: Verifiers, rule: ClaimRule, d: Document, a: Attestation, subject: Chain,
                      issuer: Option<Chain>, now: int)
    ensures Backed(c, v, rule, d, a, subject, issuer, now)
       <==> if a.proof.Some? then
              rule.allowProof && v.proves(a, subject, now)
              && (rule.claimType == "legal_name" ==> v.named(a, d, rule.leniency))
            else
              && a.issuer.Some? && a.issuer.value in rule.issuers && issuer.Some? && Valid(c, issuer.value)
              && a.signedBy.Some? && a.sig.Some?
              && IssuerKeyCheck(c, issuer.value, a.issuer.value, a.signedBy.value, now)
              && v.attests(a, a.signedBy.value, a.sig.value)
  {
    if a.proof.None? && a.signedBy.Some? && issuer.Some? {
      MayActAnyTimeExactly(c, issuer.value, a.signedBy.value, "sign_identity", now);
    }
  }

  /**
   A claim is accepted exactly if document, attestation and rule are about one claim, which stands on the verified chain
   of the attestation's subject; the attestation is in time, was made at a head the chain holds, since which it was not
   recovered if the rule minds, by a method and with an assurance the rule accepts, not too long ago, and is not revoked;
   and it is backed by a proof or an issuer the rule accepts.
   */
  lemma EvaluatesExactly(c: Crypto, v: Verifiers, rule: ClaimRule, d: Document, a: Attestation, subject: Chain,
                         issuer: Option<Chain>, revoked: bool, now: int)
    ensures Evaluates(c, v, rule, d, a, subject, issuer, revoked, now)
       <==> rule.claimType == d.claimType == a.claimType && d.identity == a.subject && d.claimId == a.claimId
            && d.commitment == a.commitment
            && Valid(c, subject) && c.hash(subject[0]) == a.subject
            && ClaimStands(subject, a.claimId, a.claimType, a.commitment, now)
            && a.issuedAt - 300 <= now <= a.expiresAt
            && (exists e <- subject :: c.hash(e) == a.chainHead)
            && (rule.rejectIfRecovered ==> !RecoveredSince(c, subject, a.chainHead))
            && (rule.methods == {} || a.means in rule.methods) && AssuranceAtLeast(a.assurance, rule.minAssurance)
            && (forall days :: rule.maxAgeDays == Some(days) ==> now - a.issuedAt <= days * 86400)
            && !revoked
            && Backed(c, v, rule, d, a, subject, issuer, now)
  {
    RankExactly(a.assurance, rule.minAssurance);
    ClaimStandsExactly(c, subject, a.claimId, a.claimType, a.commitment, now);
    HeldByMember(c, subject, a.chainHead);
    BackedExactly(c, v, rule, d, a, subject, issuer, now);
  }
}
