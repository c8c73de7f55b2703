/** Sigchain events, the dictionaries they are hashed and signed over, and the hash that identifies them. */
module Events {
  import opened Json
  import opened Options
  import opened Text

  datatype IdentityType = Personal | Organization | Ephemeral

  datatype Body =
    | Genesis(pubkey: string, encryptionPubkey: string, identityType: IdentityType, name: Option<string>, ephemeral: bool,
              ownershipProof: Option<string>, genesisPoints: Option<seq<string>>)
    | AddDevice(devicePubkey: string, deviceEncryptionPubkey: string, deviceLabel: string, capabilities: Option<seq<string>>,
                deviceExpires: Option<int>)
    | RevokeDevice(revokedDevice: string, deviceReason: Option<string>)
    | RotateMaster(newPubkey: string, newEncryptionPubkey: string)
    | SetRecovery(primaryTrustees: seq<string>, primaryThreshold: int, backupTrustees: Option<seq<string>>,
                  backupThreshold: Option<int>, backupActivatesAfter: Option<int>)
    | SocialRecovery(recoveredPubkey: string, recoveredEncryptionPubkey: string, recoverySignatures: seq<map<string, string>>)
    | ResolveFork(chosenBranch: string, rejectedBranch: string)
    | SetDistribution(points: seq<string>)
    | AddClaim(claimId: string, claimType: string, commitment: string, claimExpires: Option<int>)
    | RevokeClaim(revokedClaim: string, claimReason: Option<string>)
    | SetClaimOrder(orderType: string, order: seq<string>)

  datatype EventRecord = Event(version: int, alg: string, hashAlg: string, timestamp: int, prev: Option<string>,
                               signature: string, signedBy: string, body: Body)

  /** A genesis event has no predecessor: its constructor clears the field. */
  type Event = e: EventRecord | e.body.Genesis? ==> e.prev == None
    witness Event(1, "", "", 0, None, "", "", SetDistribution([]))

  // ---------------------------------------------------------------- to_dict

  function TypeName(b: Body): string {
    match b
    case Genesis(_, _, _, _, _, _, _) => "genesis"
    case AddDevice(_, _, _, _, _) => "add_device"
    case RevokeDevice(_, _) => "revoke_device"
    case RotateMaster(_, _) => "rotate_master"
    case SetRecovery(_, _, _, _, _) => "set_recovery"
    case SocialRecovery(_, _, _) => "social_recovery"
    case ResolveFork(_, _) => "resolve_fork"
    case SetDistribution(_) => "set_distribution"
    case AddClaim(_, _, _, _) => "add_claim"
    case RevokeClaim(_, _) => "revoke_claim"
    case SetClaimOrder(_, _) => "set_claim_order"
  }

  function IdentityTypeName(t: IdentityType): string {
    match t
    case Personal => "personal"
    case Organization => "organization"
    case Ephemeral => "ephemeral"
  }

  function Int(n: int): Value { Num(IntToString(n)) }
  function OptInt(o: Option<int>): Value { if o.Some? then Int(o.value) else Null }
  function OptStr(o: Option<string>): Value { if o.Some? then Str(o.value) else Null }
  function Strs(xs: seq<string>): Value { List(seq(|xs|, i requires 0 <= i < |xs| => Str(xs[i]))) }
  function OptStrs(o: Option<seq<string>>): Value { if o.Some? then Strs(o.value) else Null }
  function StrMap(m: map<string, string>): Value { Obj(map k | k in m :: Str(m[k])) }
  function StrMaps(ms: seq<map<string, string>>): Value { List(seq(|ms|, i requires 0 <= i < |ms| => StrMap(ms[i]))) }

  function HeaderDict(e: Event): map<string, Value> {
    map["version" := Int(e.version), "type" := Str(TypeName(e.body)), "alg" := Str(e.alg), "hash_alg" := Str(e.hashAlg),
        "timestamp" := Int(e.timestamp), "prev" := OptStr(e.prev), "signature" := Str(e.signature), "signed_by" := Str(e.signedBy)]
  }

  function BodyDict(b: Body): map<string, Value> {
    match b
    case Genesis(pubkey, enc, kind, name, ephemeral, proof, points) =>
      map["pubkey" := Str(pubkey), "encryption_pubkey" := Str(enc), "identity_type" := Str(IdentityTypeName(kind)),
          "name" := OptStr(name), "ephemeral" := Bool(ephemeral), "ownership_proof" := OptStr(proof),
          "distribution_points" := OptStrs(points)]
    case AddDevice(pubkey, enc, name, caps, expires) =>
      map["device_pubkey" := Str(pubkey), "device_encryption_pubkey" := Str(enc), "label" := Str(name),
          "capabilities" := OptStrs(caps), "expires" := OptInt(expires)]
    case RevokeDevice(pubkey, reason) => map["device_pubkey" := Str(pubkey), "reason" := OptStr(reason)]
    case RotateMaster(pubkey, enc) => map["new_pubkey" := Str(pubkey), "new_encryption_pubkey" := Str(enc)]
    case SetRecovery(trustees, threshold, backup, backupThreshold, after) =>
      map["primary_trustees" := Strs(trustees), "primary_threshold" := Int(threshold), "backup_trustees" := OptStrs(backup),
          "backup_threshold" := OptInt(backupThreshold), "backup_activates_after" := OptInt(after)]
    case SocialRecovery(pubkey, enc, sigs) =>
      map["new_pubkey" := Str(pubkey), "new_encryption_pubkey" := Str(enc), "recovery_signatures" := StrMaps(sigs)]
    case ResolveFork(chosen, rejected) =>
      map["chosen_branch_hash" := Str(chosen), "rejected_branch_hash" := Str(rejected)]
    case SetDistribution(points) => map["distribution_points" := Strs(points)]
    case AddClaim(id, kind, commitment, expires) =>
      map["claim_id" := Str(id), "claim_type" := Str(kind), "commitment" := Str(commitment), "expires" := OptInt(expires)]
    case RevokeClaim(id, reason) => map["claim_id" := Str(id), "reason" := OptStr(reason)]
    case SetClaimOrder(kind, order) => map["claim_type" := Str(kind), "order" := Strs(order)]
  }

  function ToDict(e: Event): map<string, Value> {
    HeaderDict(e) + BodyDict(e.body)
  }

  /** The dictionary that is signed: everything but the signature. */
  function SignableDict(e: Event): map<string, Value> {
    ToDict(e) - {"signature"}
  }

  // ---------------------------------------------------------------- from_dict

  function AsStr(v: Value): Option<string> { if v.Str? then Some(v.s) else None }
  function AsInt(v: Value): Option<int> { if v.Num? then ParseInt(v.lit) else None }
  function AsBool(v: Value): Option<bool> { if v.Bool? then Some(v.b) else None }

  function AsOptional<T>(v: Value, read: Value -> Option<T>): Option<Option<T>> {
    if v.Null? then Some(None)
    else
      var t :- read(v);
      Some(Some(t))
  }

  function AsList<T>(v: Value, read: Value -> Option<T>): Option<seq<T>> {
    if !v.List? || exists x <- v.items :: read(x).None? then None
    else Some(seq(|v.items|, i requires 0 <= i < |v.items| => read(v.items[i]).value))
  }

  function AsStrs(v: Value): Option<seq<string>> { AsList(v, AsStr) }

  function AsStrMap(v: Value): Option<map<string, string>> {
    if !v.Obj? || exists k <- v.fields :: !v.fields[k].Str? then None
    else Some(map k | k in v.fields :: v.fields[k].s)
  }

  /** A member that must be present. */
  function Need(d: map<string, Value>, key: string): Option<Value> {
    if key in d then Some(d[key]) else None
  }

  /** A member that may be absent. */
  function Get(d: map<string, Value>, key: string, default: Value): Value {
    if key in d then d[key] else default
  }

  const DEFAULT_CAPABILITIES: seq<string> :=
    ["sign_messages", "sign_files", "sign_identity", "encrypt", "authenticate", "manage_claims"]

  function FromDict(d: map<string, Value>): Option<EventRecord> {
    var kind :- Need(d, "type");
    var typeName :- AsStr(kind);
    var timestampField :- Need(d, "timestamp");
    var timestamp :- AsInt(timestampField);
    var signatureField :- Need(d, "signature");
    var signature :- AsStr(signatureField);
    var signedByField :- Need(d, "signed_by");
    var signedBy :- AsStr(signedByField);
    var version :- AsInt(Get(d, "version", Int(1)));
    var alg :- AsStr(Get(d, "alg", Str("ed25519")));
    var hashAlg :- AsStr(Get(d, "hash_alg", Str("sha256")));
    var body :- BodyFromDict(typeName, d);
    if body.Genesis? then
      Some(Event(version, alg, hashAlg, timestamp, None, signature, signedBy, body))
    else
      var prevField :- Need(d, "prev");
      var prev :- AsOptional(prevField, AsStr);
      Some(Event(version, alg, hashAlg, timestamp, prev, signature, signedBy, body))
  }

  function NeedStr(d: map<string, Value>, key: string): Option<string> {
    var v :- Need(d, key);
    AsStr(v)
  }

  function NeedStrs(d: map<string, Value>, key: string): Option<seq<string>> {
    var v :- Need(d, key);
    AsStrs(v)
  }

  function GetOptional<T>(d: map<string, Value>, key: string, read: Value -> Option<T>): Option<Option<T>> {
    AsOptional(Get(d, key, Null), read)
  }

  function IdentityTypeFrom(name: string): Option<IdentityType> {
    if name == "personal" then Some(Personal)
    else if name == "organization" then Some(Organization)
    else if name == "ephemeral" then Some(Ephemeral)
    else None
  }

  function BodyFromDict(typeName: string, d: map<string, Value>): Option<Body> {
    if typeName == "genesis" then GenesisFromDict(d)
    else if typeName == "add_device" then AddDeviceFromDict(d)
    else if typeName == "revoke_device" then RevokeDeviceFromDict(d)
    else if typeName == "rotate_master" then RotateMasterFromDict(d)
    else if typeName == "set_recovery" then SetRecoveryFromDict(d)
    else if typeName == "social_recovery" then SocialRecoveryFromDict(d)
    else if typeName == "resolve_fork" then ResolveForkFromDict(d)
    else if typeName == "set_distribution" then SetDistributionFromDict(d)
    else if typeName == "add_claim" then AddClaimFromDict(d)
    else if typeName == "revoke_claim" then RevokeClaimFromDict(d)
    else if typeName == "set_claim_order" then SetClaimOrderFromDict(d)
    else None
  }

  function RevokeDeviceFromDict(d: map<string, Value>): Option<Body> {
    var device :- NeedStr(d, "device_pubkey");
    var reason :- GetOptional(d, "reason", AsStr);
    Some(RevokeDevice(device, reason))
  }

  function RotateMasterFromDict(d: map<string, Value>): Option<Body> {
    var pubkey :- NeedStr(d, "new_pubkey");
    var enc :- NeedStr(d, "new_encryption_pubkey");
    Some(RotateMaster(pubkey, enc))
  }

  function SocialRecoveryFromDict(d: map<string, Value>): Option<Body> {
    var pubkey :- NeedStr(d, "new_pubkey");
    var enc :- NeedStr(d, "new_encryption_pubkey");
    var sigsField :- Need(d, "recovery_signatures");
    var sigs :- AsList(sigsField, AsStrMap);
    Some(SocialRecovery(pubkey, enc, sigs))
  }

  function ResolveForkFromDict(d: map<string, Value>): Option<Body> {
    var chosen :- NeedStr(d, "chosen_branch_hash");
    var rejected :- NeedStr(d, "rejected_branch_hash");
    Some(ResolveFork(chosen, rejected))
  }

  function SetDistributionFromDict(d: map<string, Value>): Option<Body> {
    var points :- NeedStrs(d, "distribution_points");
    Some(SetDistribution(points))
  }

  function AddClaimFromDict(d: map<string, Value>): Option<Body> {
    var id :- NeedStr(d, "claim_id");
    var kind :- NeedStr(d, "claim_type");
    var commitment :- NeedStr(d, "commitment");
    var expires :- GetOptional(d, "expires", AsInt);
    Some(AddClaim(id, kind, commitment, expires))
  }

  function RevokeClaimFromDict(d: map<string, Value>): Option<Body> {
    var id :- NeedStr(d, "claim_id");
    var reason :- GetOptional(d, "reason", AsStr);
    Some(RevokeClaim(id, reason))
  }

  function SetClaimOrderFromDict(d: map<string, Value>): Option<Body> {
    var kind :- NeedStr(d, "claim_type");
    var order :- NeedStrs(d, "order");
    Some(SetClaimOrder(kind, order))
  }

  function GenesisFromDict(d: map<string, Value>): Option<Body> {
    var pubkey :- NeedStr(d, "pubkey");
    var enc :- NeedStr(d, "encryption_pubkey");
    var kindName :- AsStr(Get(d, "identity_type", Str("personal")));
    var kind :- IdentityTypeFrom(kindName);
    var name :- GetOptional(d, "name", AsStr);
    var ephemeral :- AsBool(Get(d, "ephemeral", Bool(false)));
    var proof :- GetOptional(d, "ownership_proof", AsStr);
    var points :- GetOptional(d, "distribution_points", AsStrs);
    Some(Genesis(pubkey, enc, kind, name, ephemeral, proof, points))
  }

  function AddDeviceFromDict(d: map<string, Value>): Option<Body> {
    var pubkey :- NeedStr(d, "device_pubkey");
    var enc :- NeedStr(d, "device_encryption_pubkey");
    var name :- NeedStr(d, "label");
    var caps :- AsOptional(Get(d, "capabilities", Strs(DEFAULT_CAPABILITIES)), AsStrs);
    var expires :- GetOptional(d, "expires", AsInt);
    Some(AddDevice(pubkey, enc, name, caps, expires))
  }

  function SetRecoveryFromDict(d: map<string, Value>): Option<Body> {
    var trustees :- NeedStrs(d, "primary_trustees");
    var thresholdField :- Need(d, "primary_threshold");
    var threshold :- AsInt(thresholdField);
    var backup :- GetOptional(d, "backup_trustees", AsStrs);
    var backupThreshold :- GetOptional(d, "backup_threshold", AsInt);
    var after :- GetOptional(d, "backup_activates_after", AsInt);
    Some(SetRecovery(trustees, threshold, backup, backupThreshold, after))
  }

  // ---------------------------------------------------------------- reading back what to_dict wrote

  lemma ReadValues(n: int, o: Option<int>, s: Option<string>, xs: seq<string>, oxs: Option<seq<string>>)
    ensures AsInt(Int(n)) == Some(n)
    ensures AsOptional(OptInt(o), AsInt) == Some(o)
    ensures AsOptional(OptStr(s), AsStr) == Some(s)
    ensures AsStrs(Strs(xs)) == Some(xs)
    ensures AsOptional(OptStrs(oxs), AsStrs) == Some(oxs)
  {
    ParseIntOfString(n);
    if o.Some? { ParseIntOfString(o.value); }
    ReadStrs(xs);
    if oxs.Some? { ReadStrs(oxs.value); }
  }

  lemma ReadStrs(xs: seq<string>)
    ensures AsStrs(Strs(xs)) == Some(xs)
  {
    var v := Strs(xs);
    assert forall i | 0 <= i < |xs| :: v.items[i] == Str(xs[i]) && AsStr(v.items[i]) == Some(xs[i]);
    assert AsStrs(v).value == xs;
  }

  lemma ReadStrMaps(ms: seq<map<string, string>>)
    ensures AsList(StrMaps(ms), AsStrMap) == Some(ms)
  {
    var v := StrMaps(ms);
    forall i | 0 <= i < |ms| ensures AsStrMap(v.items[i]) == Some(ms[i]) {
      assert v.items[i] == StrMap(ms[i]);
      assert AsStrMap(StrMap(ms[i])).value == ms[i];
    }
    assert AsList(v, AsStrMap).value == ms;
  }

  lemma BodyLacksType(b: Body) ensures "type" !in BodyDict(b) {}
  lemma BodyLacksPrev(b: Body) ensures "prev" !in BodyDict(b) {}
  lemma BodyLacksSignature(b: Body) ensures "signature" !in BodyDict(b) {}
  lemma BodyLacksSignedBy(b: Body) ensures "signed_by" !in BodyDict(b) {}
  lemma BodyLacksVersion(b: Body) ensures "version" !in BodyDict(b) {}
  lemma BodyLacksAlg(b: Body) ensures "alg" !in BodyDict(b) {}
  lemma BodyLacksHashAlg(b: Body) ensures "hash_alg" !in BodyDict(b) {}
  lemma BodyLacksTimestamp(b: Body) ensures "timestamp" !in BodyDict(b) {}

  ghost predicate HeaderReads(d: map<string, Value>, e: Event) {
    && Need(d, "type") == Some(Str(TypeName(e.body))) && Need(d, "timestamp") == Some(Int(e.timestamp))
    && Need(d, "signature") == Some(Str(e.signature)) && Need(d, "signed_by") == Some(Str(e.signedBy))
    && Need(d, "version") == Some(Int(e.version)) && Need(d, "alg") == Some(Str(e.alg))
    && Need(d, "hash_alg") == Some(Str(e.hashAlg)) && Need(d, "prev") == Some(OptStr(e.prev))
  }

  lemma HeaderReadBack(e: Event)
    ensures HeaderReads(ToDict(e), e)
  {
    var b := e.body;
    BodyLacksType(b); BodyLacksPrev(b); BodyLacksSignature(b); BodyLacksSignedBy(b);
    BodyLacksVersion(b); BodyLacksAlg(b); BodyLacksHashAlg(b); BodyLacksTimestamp(b);
  }

  ghost predicate Holds(d: map<string, Value>, part: map<string, Value>) {
    forall k <- part :: k in d && d[k] == part[k]
  }

  lemma GenesisKeys(b: Body, d: map<string, Value>)
    requires b.Genesis? && Holds(d, BodyDict(b))
    ensures Need(d, "pubkey") == Some(Str(b.pubkey)) && Need(d, "encryption_pubkey") == Some(Str(b.encryptionPubkey))
    ensures Need(d, "identity_type") == Some(Str(IdentityTypeName(b.identityType)))
    ensures Need(d, "ephemeral") == Some(Bool(b.ephemeral))
  {
    assert "pubkey" in BodyDict(b) && "encryption_pubkey" in BodyDict(b);
    assert "identity_type" in BodyDict(b) && "ephemeral" in BodyDict(b);
  }

  lemma GenesisOptions(b: Body, d: map<string, Value>)
    requires b.Genesis? && Holds(d, BodyDict(b))
    ensures Need(d, "name") == Some(OptStr(b.name)) && Need(d, "ownership_proof") == Some(OptStr(b.ownershipProof))
    ensures Need(d, "distribution_points") == Some(OptStrs(b.genesisPoints))
  {
    assert "name" in BodyDict(b) && "ownership_proof" in BodyDict(b) && "distribution_points" in BodyDict(b);
  }

  lemma GenesisReadBack(b: Body, d: map<string, Value>)
    requires b.Genesis? && Holds(d, BodyDict(b))
    ensures GenesisFromDict(d) == Some(b)
  {
    GenesisKeys(b, d);
    GenesisOptions(b, d);
    ReadValues(0, None, b.name, [], b.genesisPoints);
    ReadValues(0, None, b.ownershipProof, [], None);
  }

  lemma AddDeviceFields(b: Body, d: map<string, Value>)
    requires b.AddDevice? && Holds(d, BodyDict(b))
    ensures Need(d, "device_pubkey") == Some(Str(b.devicePubkey))
    ensures Need(d, "device_encryption_pubkey") == Some(Str(b.deviceEncryptionPubkey))
    ensures Need(d, "label") == Some(Str(b.deviceLabel)) && Need(d, "capabilities") == Some(OptStrs(b.capabilities))
    ensures Need(d, "expires") == Some(OptInt(b.deviceExpires))
  {
    assert "device_pubkey" in BodyDict(b) && "device_encryption_pubkey" in BodyDict(b) && "label" in BodyDict(b);
    assert "capabilities" in BodyDict(b) && "expires" in BodyDict(b);
  }

  lemma AddDeviceReadBack(b: Body, d: map<string, Value>)
    requires b.AddDevice? && Holds(d, BodyDict(b))
    ensures AddDeviceFromDict(d) == Some(b)
  {
    AddDeviceFields(b, d);
    ReadValues(0, b.deviceExpires, None, [], b.capabilities);
  }

  lemma SetRecoveryFields(b: Body, d: map<string, Value>)
    requires b.SetRecovery? && Holds(d, BodyDict(b))
    ensures Need(d, "primary_trustees") == Some(Strs(b.primaryTrustees))
    ensures Need(d, "primary_threshold") == Some(Int(b.primaryThreshold))
    ensures Need(d, "backup_trustees") == Some(OptStrs(b.backupTrustees))
    ensures Need(d, "backup_threshold") == Some(OptInt(b.backupThreshold))
    ensures Need(d, "backup_activates_after") == Some(OptInt(b.backupActivatesAfter))
  {
    assert "primary_trustees" in BodyDict(b) && "primary_threshold" in BodyDict(b) && "backup_trustees" in BodyDict(b);
    assert "backup_threshold" in BodyDict(b) && "backup_activates_after" in BodyDict(b);
  }

  lemma SetRecoveryReadBack(b: Body, d: map<string, Value>)
    requires b.SetRecovery? && Holds(d, BodyDict(b))
    ensures SetRecoveryFromDict(d) == Some(b)
  {
    SetRecoveryFields(b, d);
    ReadValues(b.primaryThreshold, b.backupThreshold, None, b.primaryTrustees, b.backupTrustees);
    ReadValues(0, b.backupActivatesAfter, None, [], None);
  }

  lemma RevokeDeviceReadBack(b: Body, d: map<string, Value>)
    requires b.RevokeDevice? && Holds(d, BodyDict(b))
    ensures Need(d, "device_pubkey") == Some(Str(b.revokedDevice))
    ensures RevokeDeviceFromDict(d) == Some(b)
  {
    assert "device_pubkey" in BodyDict(b) && "reason" in BodyDict(b);
    ReadValues(0, None, b.deviceReason, [], None);
  }

  lemma RotateMasterReadBack(b: Body, d: map<string, Value>)
    requires b.RotateMaster? && Holds(d, BodyDict(b))
    ensures Need(d, "new_pubkey") == Some(Str(b.newPubkey))
    ensures RotateMasterFromDict(d) == Some(b)
  {
    assert "new_pubkey" in BodyDict(b) && "new_encryption_pubkey" in BodyDict(b);
  }

  lemma SocialRecoveryReadBack(b: Body, d: map<string, Value>)
    requires b.SocialRecovery? && Holds(d, BodyDict(b))
    ensures SocialRecoveryFromDict(d) == Some(b)
  {
    assert "new_pubkey" in BodyDict(b) && "new_encryption_pubkey" in BodyDict(b) && "recovery_signatures" in BodyDict(b);
    ReadStrMaps(b.recoverySignatures);
  }

  lemma ResolveForkReadBack(b: Body, d: map<string, Value>)
    requires b.ResolveFork? && Holds(d, BodyDict(b))
    ensures ResolveForkFromDict(d) == Some(b)
  {
    assert "chosen_branch_hash" in BodyDict(b) && "rejected_branch_hash" in BodyDict(b);
  }

  lemma SetDistributionReadBack(b: Body, d: map<string, Value>)
    requires b.SetDistribution? && Holds(d, BodyDict(b))
    ensures SetDistributionFromDict(d) == Some(b)
  {
    assert "distribution_points" in BodyDict(b);
    ReadStrs(b.points);
  }

  lemma AddClaimReadBack(b: Body, d: map<string, Value>)
    requires b.AddClaim? && Holds(d, BodyDict(b))
    ensures Need(d, "claim_id") == Some(Str(b.claimId)) && Need(d, "claim_type") == Some(Str(b.claimType))
    ensures AddClaimFromDict(d) == Some(b)
  {
    assert "claim_id" in BodyDict(b) && "claim_type" in BodyDict(b) && "commitment" in BodyDict(b) && "expires" in BodyDict(b);
    ReadValues(0, b.claimExpires, None, [], None);
  }

  lemma RevokeClaimReadBack(b: Body, d: map<string, Value>)
    requires b.RevokeClaim? && Holds(d, BodyDict(b))
    ensures Need(d, "claim_id") == Some(Str(b.revokedClaim))
    ensures RevokeClaimFromDict(d) == Some(b)
  {
    assert "claim_id" in BodyDict(b) && "reason" in BodyDict(b);
    ReadValues(0, None, b.claimReason, [], None);
  }

  lemma SetClaimOrderReadBack(b: Body, d: map<string, Value>)
    requires b.SetClaimOrder? && Holds(d, BodyDict(b))
    ensures Need(d, "claim_type") == Some(Str(b.orderType)) && Need(d, "order") == Some(Strs(b.order))
    ensures SetClaimOrderFromDict(d) == Some(b)
  {
    assert "claim_type" in BodyDict(b) && "order" in BodyDict(b);
    ReadStrs(b.order);
  }

  lemma KeyEventReadBack(b: Body, d: map<string, Value>)
    requires Holds(d, BodyDict(b))
    requires b.Genesis? || b.AddDevice? || b.RevokeDevice? || b.RotateMaster? || b.SetRecovery? || b.SocialRecovery?
    ensures BodyFromDict(TypeName(b), d) == Some(b)
  {
    match b {
      case Genesis(_, _, _, _, _, _, _) => GenesisReadBack(b, d);
      case AddDevice(_, _, _, _, _) => AddDeviceReadBack(b, d);
      case RevokeDevice(_, _) => RevokeDeviceReadBack(b, d);
      case RotateMaster(_, _) => RotateMasterReadBack(b, d);
      case SetRecovery(_, _, _, _, _) => SetRecoveryReadBack(b, d);
      case SocialRecovery(_, _, _) => SocialRecoveryReadBack(b, d);
    }
  }

  lemma OtherEventReadBack(b: Body, d: map<string, Value>)
    requires Holds(d, BodyDict(b))
    requires b.ResolveFork? || b.SetDistribution? || b.AddClaim? || b.RevokeClaim? || b.SetClaimOrder?
    ensures BodyFromDict(TypeName(b), d) == Some(b)
  {
    match b {
      case ResolveFork(_, _) => ResolveForkReadBack(b, d);
      case SetDistribution(_) => SetDistributionReadBack(b, d);
      case AddClaim(_, _, _, _) => AddClaimReadBack(b, d);
      case RevokeClaim(_, _) => RevokeClaimReadBack(b, d);
      case SetClaimOrder(_, _) => SetClaimOrderReadBack(b, d);
    }
  }

  lemma BodyReadBack(b: Body, d: map<string, Value>)
    requires Holds(d, BodyDict(b))
    ensures BodyFromDict(TypeName(b), d) == Some(b)
  {
    if b.ResolveFork? || b.SetDistribution? || b.AddClaim? || b.RevokeClaim? || b.SetClaimOrder? {
      OtherEventReadBack(b, d);
    } else {
      KeyEventReadBack(b, d);
    }
  }

  /** Reading a serialized event gives the event back, so serializing loses nothing. */
  lemma FromDictOfToDict(e: Event)
    ensures FromDict(ToDict(e)) == Some(e)
  {
    var d := ToDict(e);
    HeaderReadBack(e);
    BodyReadBack(e.body, d);
    ReadValues(e.timestamp, None, e.prev, [], None);
    ReadValues(e.version, None, None, [], None);
  }

  // ---------------------------------------------------------------- hashes and signatures

  /**
   The cryptography, uninterpreted. `digest(alg, text)` is the hex digest; `checks(key, text, sig)` says that the hex
   key and signature decode and that the signature is the key's on the text.
   */
  datatype Primitives = Primitives(digest: (string, string) -> string, checks: (string, string, string) -> bool)

  /** No two texts share a digest, and no digest is empty. */
  ghost predicate CollisionFree(p: Primitives) {
    && (forall a, m, a', m' :: p.digest(a, m) == p.digest(a', m') ==> m == m')
    && (forall a, m :: p.digest(a, m) != "")
  }

  /** Hashing and signature checking of whole events, as the sigchain code sees them. */
  datatype Crypto = Crypto(hash: Event -> string, signed: (Event, string) -> bool)

  ghost predicate Injective(c: Crypto) {
    forall a: Event, b: Event :: c.hash(a) == c.hash(b) ==> a == b
  }

  /** Events are hashed and signed over the canonical text of their dictionaries. */
  ghost function CryptoOf(p: Primitives): Crypto {
    Crypto((e: Event) => p.digest(e.hashAlg, Encode(Obj(ToDict(e)))),
           (e: Event, key: string) => p.checks(key, Encode(Obj(SignableDict(e))), e.signature))
  }

  lemma IntIsInteger(n: int)
    ensures Integers(Int(n))
  {
  }

  lemma StrsAreIntegers(xs: seq<string>)
    ensures Integers(Strs(xs))
  {
  }

  lemma BodyIsIntegers(b: Body)
    ensures forall k <- BodyDict(b) :: Integers(BodyDict(b)[k])
  {
    forall n ensures Integers(Int(n)) { IntIsInteger(n); }
    forall xs ensures Integers(Strs(xs)) { StrsAreIntegers(xs); }
    if b.SocialRecovery? {
      forall m | m in b.recoverySignatures ensures Integers(StrMap(m)) {}
      assert Integers(StrMaps(b.recoverySignatures));
    }
  }

  lemma EventIsIntegers(e: Event)
    ensures Integers(Obj(ToDict(e)))
  {
    BodyIsIntegers(e.body);
  }

  /** An event hash identifies the event, because no two events have one text. */
  lemma HashIdentifiesEvent(p: Primitives)
    requires CollisionFree(p)
    ensures Injective(CryptoOf(p))
  {
    var c := CryptoOf(p);
    forall a: Event, b: Event | c.hash(a) == c.hash(b) ensures a == b {
      EventIsIntegers(a);
      EventIsIntegers(b);
      EncodeUnambiguous(Obj(ToDict(a)), Obj(ToDict(b)));
      FromDictOfToDict(a);
      FromDictOfToDict(b);
    }
  }
}
