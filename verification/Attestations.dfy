/** Attestations of claims, and what a relying party that accepts one knows. */
module Attestations {
  import opened Options
  import opened Json
  import opened Text
  import opened Events
  import opened Sigchains
  import opened ChainLaws
  import opened DeviceLaws
  import opened Assertions

  const ATTEST_DOMAIN := "nodetide-attest-v1\0"
  const ATTESTATION_SKEW := 300

  datatype Attestation = Attestation(
    subject: string, claimId: string, claimType: string, commitment: string, means: string, assurance: string,
    issuedAt: int, expiresAt: int, chainHead: string, issuer: Option<string>, signedBy: Option<string>,
    evidence: map<string, Value>, proof: Option<map<string, Value>>, sig: Option<string>)

  function Optional(name: string, value: Option<Value>): map<string, Value> {
    if value.Some? then map[name := value.value] else map[]
  }

  function FixedBody(a: Attestation): map<string, Value> {
    map["type" := Str("ATTESTATION"), "version" := Int(1), "subject" := Str(a.subject), "claim_id" := Str(a.claimId),
        "claim_type" := Str(a.claimType), "commitment" := Str(a.commitment), "method" := Str(a.means),
        "assurance" := Str(a.assurance), "issued_at" := Int(a.issuedAt), "expires_at" := Int(a.expiresAt),
        "chain_head" := Str(a.chainHead), "evidence" := Obj(a.evidence)]
  }

  function OptionalBody(a: Attestation): map<string, Value> {
    Optional("issuer", if a.issuer.Some? then Some(Str(a.issuer.value)) else None)
    + Optional("signed_by", if a.signedBy.Some? then Some(Str(a.signedBy.value)) else None)
    + Optional("proof", if a.proof.Some? then Some(Obj(a.proof.value)) else None)
  }

  /** The dictionary that is signed; fields that are absent are left out. */
  function BodyOf(a: Attestation): map<string, Value> {
    FixedBody(a) + OptionalBody(a)
  }

  ghost function AttestationInput(a: Attestation): string {
    ATTEST_DOMAIN + Encode(Obj(BodyOf(a)))
  }

  function GetClaim(records: seq<ClaimRecord>, id: string): Option<ClaimRecord> {
    if records == [] then None
    else if records[0].claimId == id then Some(records[0])
    else GetClaim(records[1..], id)
  }

  /** The issuer's signing key: an active device, not the master, that may vouch for identities. */
  predicate IssuerKeyCheck(c: Crypto, chain: Chain, issuer: string, signedBy: string, now: int)
    requires Valid(c, chain)
  {
    var device := DeviceWithKey(ActiveDevices(chain, now), signedBy);
    && c.hash(chain[0]) == issuer
    && CurrentMaster(chain) != Some(signedBy)
    && device.Some? && Has(device.value.capabilities, "sign_identity")
  }

  /** The claim an attestation is about, active on the subject's chain. */
  predicate AttestsClaim(c: Crypto, a: Attestation, chain: Chain, now: int) {
    var r := GetClaim(Claims(c, chain), a.claimId);
    && r.Some?
    && r.value.claimType == a.claimType && r.value.commitment == a.commitment
    && Status(r.value, now) == Active
  }

  /** Whether a hex signature of an attestation is a key's. */
  type Attests = (Attestation, string, string) -> bool

  /** Attestations are signed over their signing input. */
  ghost function AttestsOf(p: Primitives): Attests {
    (a: Attestation, key: string, sig: string) => p.checks(key, AttestationInput(a), sig)
  }

  /** `proves` stands for the verifiers of self-contained proofs, `named` for the comparison, as lenient as the rule, of a
      legal name with the certificate of a proof. */
  datatype Verifiers = Verifiers(attests: Attests, proves: (Attestation, Chain, int) -> bool,
                                 named: (Attestation, Document, string) -> bool)

  predicate AttestationHolds(c: Crypto, v: Verifiers, a: Attestation, subject: Chain, issuer: Option<Chain>, now: int) {
    && Valid(c, subject) && c.hash(subject[0]) == a.subject
    && AttestsClaim(c, a, subject, now)
    && a.issuedAt <= now + ATTESTATION_SKEW && now <= a.expiresAt
    && Contains(c, subject, a.chainHead)
    && if a.proof.Some? then v.proves(a, subject, now)
       else
         && issuer.Some? && Valid(c, issuer.value)
         && a.issuer.Some? && a.signedBy.Some? && a.sig.Some?
         && IssuerKeyCheck(c, issuer.value, a.issuer.value, a.signedBy.value, now)
         && v.attests(a, a.signedBy.value, a.sig.value)
  }

  // ---------------------------------------------------------------- recoveries

  /** A social recovery stands after an event with this hash. */
  predicate RecoveredSince(c: Crypto, chain: Chain, head: string) {
    exists i, j :: 0 <= i < j < |chain| && c.hash(chain[i]) == head && chain[j].body.SocialRecovery?
  }

  /** Looks for a recovery once the head has been seen. */
  method CheckRecovered(p: Primitives, chain: Chain, head: string) returns (recovered: bool)
    ensures recovered <==> RecoveredSince(CryptoOf(p), chain, head)
  {
    ghost var c := CryptoOf(p);
    var seenHead := false;
    ghost var at := 0;
    for k := 0 to |chain|
      invariant seenHead <==> exists i :: 0 <= i < k && c.hash(chain[i]) == head
      invariant seenHead ==> 0 <= at < k && c.hash(chain[at]) == head
      invariant forall i, j :: 0 <= i < j < k && c.hash(chain[i]) == head ==> !chain[j].body.SocialRecovery?
    {
      if seenHead && chain[k].body.SocialRecovery? {
        assert 0 <= at < k < |chain| && c.hash(chain[at]) == head && chain[k].body.SocialRecovery?;
        return true;
      }
      var hash := HashOf(p, chain[k]);
      if hash == head {
        at := k;
        seenHead := true;
      }
    }
    return false;
  }

  /** On a verified chain the head is one position, and only what comes after it counts. */
  lemma RecoveredAfterPosition(c: Crypto, chain: Chain, i: nat)
    requires Injective(c) && Valid(c, chain) && i < |chain|
    ensures RecoveredSince(c, chain, c.hash(chain[i]))
       <==> exists j :: i < j < |chain| && chain[j].body.SocialRecovery?
  {
    if RecoveredSince(c, chain, c.hash(chain[i])) {
      var k, j :| 0 <= k < j < |chain| && c.hash(chain[k]) == c.hash(chain[i]) && chain[j].body.SocialRecovery?;
      HashesDistinct(c, chain, k, i);
    }
  }

  /** The master changed after position `i` only by rotations that the master of the time signed. */
  ghost predicate OnlyRotated(c: Crypto, chain: Chain, i: int) {
    forall j :: i < j < |chain| && 0 < j && MasterSet(chain[j]).Some? ==> RotatedAt(c, chain, j)
  }

  ghost predicate RotatedAt(c: Crypto, chain: Chain, j: int)
    requires 0 < j < |chain|
  {
    && chain[j].body.RotateMaster?
    && Valid(c, chain[..j])
    && chain[j].signedBy == Replay(c, chain[..j]).value.master
  }

  lemma RotationIsSigned(c: Crypto, chain: Chain, j: nat)
    requires Valid(c, chain) && 0 < j < |chain| && chain[j].body.RotateMaster?
    ensures RotatedAt(c, chain, j)
  {
    PrefixesAreValid(c, chain, j + 1);
    assert chain[..j + 1][..j] == chain[..j];
    LastStep(c, chain[..j + 1]);
  }

  lemma NotRecoveredOnlyRotated(c: Crypto, chain: Chain, i: nat)
    requires Injective(c) && Valid(c, chain) && i < |chain|
    ensures !RecoveredSince(c, chain, c.hash(chain[i])) <==> OnlyRotated(c, chain, i)
  {
    RecoveredAfterPosition(c, chain, i);
    forall j: nat | i < j < |chain| && MasterSet(chain[j]).Some? && !chain[j].body.SocialRecovery?
      ensures RotatedAt(c, chain, j)
    {
      Linked(c, chain, j);
      RotationIsSigned(c, chain, j);
    }
  }

  lemma PositionOf(c: Crypto, chain: Chain, head: string) returns (i: int)
    requires Injective(c) && Valid(c, chain) && Contains(c, chain, head) && !RecoveredSince(c, chain, head)
    ensures 0 <= i < |chain| && c.hash(chain[i]) == head && Valid(c, chain[..i + 1]) && OnlyRotated(c, chain, i)
  {
    i :| 0 <= i < |chain| && c.hash(chain[i]) == head;
    PrefixesAreValid(c, chain, i + 1);
    NotRecoveredOnlyRotated(c, chain, i);
  }

  // ---------------------------------------------------------------- a relying party's rule

  datatype ClaimRule = ClaimRule(claimType: string, issuers: set<string>, allowProof: bool, methods: set<string>,
                                 minAssurance: string, leniency: string, maxAgeDays: Option<int>, rejectIfRecovered: bool)

  /** What the holder shows; `commitment` is what its value and salt commit to. */
  datatype Document = Document(identity: string, claimId: string, claimType: string, value: Value, commitment: string)

  function Rank(assurance: string): int {
    if assurance == "low" then 0 else if assurance == "substantial" then 1 else 2
  }

  predicate Matches(d: Document, r: Option<ClaimRecord>) {
    r.Some? && r.value.claimId == d.claimId && r.value.claimType == d.claimType && r.value.commitment == d.commitment
  }

  /** What the rule asks of the attestation itself. */
  predicate RuleAllows(rule: ClaimRule, a: Attestation, now: int) {
    && (rule.methods == {} || a.means in rule.methods)
    && Rank(a.assurance) >= Rank(rule.minAssurance)
    && (if a.proof.Some? then rule.allowProof else a.issuer.Some? && a.issuer.value in rule.issuers)
    && (rule.maxAgeDays.Some? ==> now - a.issuedAt <= rule.maxAgeDays.value * 86400)
  }

  predicate Evaluates(c: Crypto, v: Verifiers, rule: ClaimRule, d: Document, a: Attestation, subject: Chain,
                      issuer: Option<Chain>, revoked: bool, now: int) {
    && d.claimType == rule.claimType && a.claimType == rule.claimType
    && d.identity == a.subject && d.claimId == a.claimId
    && Matches(d, GetClaim(Claims(c, subject), d.claimId))
    && RuleAllows(rule, a, now)
    && !revoked
    && !(rule.rejectIfRecovered && RecoveredSince(c, subject, a.chainHead))
    && AttestationHolds(c, v, a, subject, issuer, now)
    && (a.proof.Some? && rule.claimType == "legal_name" ==> v.named(a, d, rule.leniency))
  }

  /**
   A claim accepted under a rule that rejects recoveries was verified at a known point of the subject's chain, and
   whoever holds the identity now got it from its holder then: every new master since was appointed by the one before.
   */
  lemma AcceptedSinceSameHolder(c: Crypto, v: Verifiers, rule: ClaimRule, d: Document, a: Attestation, subject: Chain,
                                issuer: Option<Chain>, revoked: bool, now: int) returns (i: int)
    requires Injective(c) && rule.rejectIfRecovered && Evaluates(c, v, rule, d, a, subject, issuer, revoked, now)
    ensures 0 <= i < |subject| && c.hash(subject[i]) == a.chainHead
    ensures Valid(c, subject[..i + 1]) && OnlyRotated(c, subject, i)
  {
    i := PositionOf(c, subject, a.chainHead);
  }

  /** The device that signed was enrolled for that by the issuer's master, and the issuer is one the rule trusts. */
  ghost predicate VouchedFor(c: Crypto, rule: ClaimRule, a: Attestation, issuer: Option<Chain>, k: int) {
    && issuer.Some? && a.issuer.Some? && a.signedBy.Some? && a.issuer.value in rule.issuers
    && Valid(c, issuer.value) && c.hash(issuer.value[0]) == a.issuer.value
    && !RevokedIn(issuer.value, a.signedBy.value)
    && 0 <= k < |issuer.value|
    && EnrolledBy(c, issuer.value, k, a.signedBy.value, "sign_identity", issuer.value[k].timestamp)
  }

  /** An accepted claim without a proof is vouched for by a device its trusted issuer's master enrolled for that. */
  lemma AcceptedIsVouchedFor(c: Crypto, v: Verifiers, rule: ClaimRule, d: Document, a: Attestation, subject: Chain,
                             issuer: Option<Chain>, revoked: bool, now: int) returns (k: int)
    requires Evaluates(c, v, rule, d, a, subject, issuer, revoked, now) && a.proof.None?
    ensures VouchedFor(c, rule, a, issuer, k)
  {
    var key := a.signedBy.value;
    DeviceWithKeyIsMember(ActiveDevices(issuer.value, now), key);
    var info := DeviceWithKey(ActiveDevices(issuer.value, now), key).value;
    k := ActiveDeviceWasEnrolled(c, issuer.value, info, "sign_identity", now);
  }

  /** One signed text is one attestation, but for the signature. */
  lemma AttestationSignatureBinds(a: Attestation, b: Attestation)
    requires Integers(Obj(BodyOf(a))) && Integers(Obj(BodyOf(b))) && AttestationInput(a) == AttestationInput(b)
    ensures a.(sig := None) == b.(sig := None)
  {
    var n := |ATTEST_DOMAIN|;
    assert AttestationInput(a)[n..] == Encode(Obj(BodyOf(a))) && AttestationInput(b)[n..] == Encode(Obj(BodyOf(b)));
    EncodeUnambiguous(Obj(BodyOf(a)), Obj(BodyOf(b)));
    SameParts(a, b);
    FixedIdentifies(a, b);
    OptionalIdentifies(a, b);
  }

  /** Two accepted attestations without a proof that differ in any field but the signature were signed as different texts. */
  lemma EachAttestationIsSigned(p: Primitives, c: Crypto, v: Verifiers, a: Attestation, b: Attestation, subject: Chain,
                                other: Chain, issuer: Option<Chain>, issuer': Option<Chain>, now: int, later: int)
    requires v.attests == AttestsOf(p) && a.proof.None? && b.proof.None? && a.(sig := None) != b.(sig := None)
    requires Integers(Obj(BodyOf(a))) && Integers(Obj(BodyOf(b)))
    requires AttestationHolds(c, v, a, subject, issuer, now) && AttestationHolds(c, v, b, other, issuer', later)
    ensures AttestationInput(a) != AttestationInput(b)
    ensures p.checks(a.signedBy.value, AttestationInput(a), a.sig.value)
    ensures p.checks(b.signedBy.value, AttestationInput(b), b.sig.value)
  {
    if AttestationInput(a) == AttestationInput(b) { AttestationSignatureBinds(a, b); }
    assert v.attests(a, a.signedBy.value, a.sig.value) && v.attests(b, b.signedBy.value, b.sig.value);
  }

  lemma DisjointMerge<K, V>(x: map<K, V>, y: map<K, V>, x': map<K, V>, y': map<K, V>)
    requires x.Keys == x'.Keys && x.Keys !! y.Keys && x'.Keys !! y'.Keys && x + y == x' + y'
    ensures x == x' && y == y'
  {
    forall k | k in x ensures x[k] == x'[k] { assert (x + y)[k] == (x' + y')[k]; }
    forall k ensures k in y <==> k in y' { assert k in x + y <==> k in x' + y'; }
    forall k | k in y ensures y[k] == y'[k] { assert (x + y)[k] == (x' + y')[k]; }
  }

  const OPTIONAL := {"issuer", "signed_by", "proof"}

  lemma OptionalKeys(a: Attestation)
    ensures OptionalBody(a).Keys <= OPTIONAL
  {
  }

  lemma FixedKeys(a: Attestation, b: Attestation)
    ensures FixedBody(a).Keys == FixedBody(b).Keys && FixedBody(a).Keys !! OPTIONAL
  {
  }

  lemma SameParts(a: Attestation, b: Attestation)
    requires BodyOf(a) == BodyOf(b)
    ensures FixedBody(a) == FixedBody(b) && OptionalBody(a) == OptionalBody(b)
  {
    OptionalKeys(a);
    OptionalKeys(b);
    FixedKeys(a, b);
    FixedKeys(b, a);
    DisjointMerge(FixedBody(a), OptionalBody(a), FixedBody(b), OptionalBody(b));
  }

  lemma FixedIdentifies(a: Attestation, b: Attestation)
    requires FixedBody(a) == FixedBody(b)
    ensures a.(issuer := b.issuer, signedBy := b.signedBy, proof := b.proof, sig := b.sig) == b
  {
    var x, y := FixedBody(a), FixedBody(b);
    assert x["subject"] == y["subject"] && x["claim_id"] == y["claim_id"] && x["claim_type"] == y["claim_type"];
    assert x["commitment"] == y["commitment"] && x["method"] == y["method"] && x["assurance"] == y["assurance"];
    assert x["issued_at"] == y["issued_at"] && x["expires_at"] == y["expires_at"];
    assert x["chain_head"] == y["chain_head"] && x["evidence"] == y["evidence"];
    ParseIntOfString(a.issuedAt);
    ParseIntOfString(b.issuedAt);
    ParseIntOfString(a.expiresAt);
    ParseIntOfString(b.expiresAt);
  }

  lemma OptionalIdentifies(a: Attestation, b: Attestation)
    requires OptionalBody(a) == OptionalBody(b)
    ensures a.issuer == b.issuer && a.signedBy == b.signedBy && a.proof == b.proof
  {
    var x, y := OptionalBody(a), OptionalBody(b);
    assert ("issuer" in x) == a.issuer.Some? && ("issuer" in y) == b.issuer.Some?;
    assert ("signed_by" in x) == a.signedBy.Some? && ("signed_by" in y) == b.signedBy.Some?;
    assert ("proof" in x) == a.proof.Some? && ("proof" in y) == b.proof.Some?;
    if a.issuer.Some? { assert x["issuer"] == y["issuer"]; }
    if a.signedBy.Some? { assert x["signed_by"] == y["signed_by"]; }
    if a.proof.Some? { assert x["proof"] == y["proof"]; }
  }
}
