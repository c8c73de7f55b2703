/** Sign-in assertions: the checks a relying party makes, and what an accepted assertion proves about its signer. */
module Assertions {
  import opened Options
  import opened Json
  import opened Events
  import opened Sigchains
  import opened ChainLaws
  import opened DeviceLaws

  const AUTH_DOMAIN := "nodetide-auth-v1\0"
  const MAX_ASSERTION_LIFETIME := 600
  const CLOCK_SKEW := 60

  datatype Fields = Fields(identity: string, device: string, aud: string, nonce: string, chainHead: string, sig: string,
                           iat: int, exp: int, claims: map<string, Value>)

  /** A field that is a string and not empty. */
  function TextField(d: map<string, Value>, name: string): Option<string> {
    if name in d && d[name].Str? && d[name].s != "" then Some(d[name].s) else None
  }

  function IntField(d: map<string, Value>, name: string): Option<int> {
    if name in d then AsInt(d[name]) else None
  }

  function ReadFields(d: map<string, Value>): Option<Fields> {
    if TextField(d, "type") != Some("AUTH_ASSERTION") then None
    else
      var identity :- TextField(d, "identity");
      var device :- TextField(d, "device");
      var aud :- TextField(d, "aud");
      var nonce :- TextField(d, "nonce");
      var chainHead :- TextField(d, "chain_head");
      var sig :- TextField(d, "sig");
      var iat :- IntField(d, "iat");
      var exp :- IntField(d, "exp");
      var claims := Get(d, "claims", Obj(map[]));
      if claims.Obj? then Some(Fields(identity, device, aud, nonce, chainHead, sig, iat, exp, claims.fields)) else None
  }

  /** What is signed: everything but the signature, behind a prefix no other signed text has. */
  ghost function SigningInput(d: map<string, Value>): string {
    AUTH_DOMAIN + Encode(Obj(d - {"sig"}))
  }

  /** Whether a hex signature of an assertion is a key's. */
  type Signs = (map<string, Value>, string, string) -> bool

  /** Assertions are signed over their signing input. */
  ghost function SignsOf(p: Primitives): Signs {
    (d: map<string, Value>, key: string, sig: string) => p.checks(key, SigningInput(d), sig)
  }

  function DeviceWithKey(devices: seq<DeviceInfo>, key: string): Option<DeviceInfo> {
    if devices == [] then None
    else if devices[0].pubkey == key then Some(devices[0])
    else DeviceWithKey(devices[1..], key)
  }

  predicate Has(capabilities: Option<seq<string>>, capability: string) {
    capabilities.Some? && capability in capabilities.value
  }

  datatype Verdict = Accepted(fields: Fields) | Rejected(code: string)

  /** The key is an active device that is not the master, may authenticate, and was added by the time it signed. */
  predicate DeviceCheck(chain: Chain, key: string, iat: int, now: int) {
    var device := DeviceWithKey(ActiveDevices(chain, now), key);
    && CurrentMaster(chain) != Some(key)
    && device.Some?
    && Has(device.value.capabilities, "authenticate")
    && device.value.addedAt <= iat + CLOCK_SKEW
  }

  function VerifyAssertion(c: Crypto, signs: Signs, d: map<string, Value>, chain: Chain, aud: string, now: int): Verdict {
    match ReadFields(d)
    case None => Rejected("invalid_assertion")
    case Some(f) =>
      if f.aud != aud then Rejected("wrong_audience")
      else if f.exp <= f.iat || f.exp - f.iat > MAX_ASSERTION_LIFETIME then Rejected("invalid_assertion")
      else if f.iat > now + CLOCK_SKEW || now > f.exp + CLOCK_SKEW then Rejected("expired")
      else if !Valid(c, chain) then Rejected("invalid_sigchain")
      else if c.hash(chain[0]) != f.identity then Rejected("invalid_assertion")
      else if !Contains(c, chain, f.chainHead) then Rejected("unknown_chain_head")
      else if !DeviceCheck(chain, f.device, f.iat, now) then Rejected("device_not_authorized")
      else if !signs(d, f.device, f.sig) then Rejected("bad_signature")
      else Accepted(f)
  }

  lemma {:induction false} DeviceWithKeyIsMember(devices: seq<DeviceInfo>, key: string)
    requires DeviceWithKey(devices, key).Some?
    ensures DeviceWithKey(devices, key).value in devices && DeviceWithKey(devices, key).value.pubkey == key
  {
    if devices[0].pubkey != key { DeviceWithKeyIsMember(devices[1..], key); }
  }

  /** The event that put a device on a verified chain, signed by the master of that time. */
  ghost predicate EnrolledBy(c: Crypto, chain: Chain, k: int, key: string, capability: string, latest: int) {
    && 1 <= k < |chain|
    && Valid(c, chain[..k])
    && chain[k].body.AddDevice? && chain[k].body.devicePubkey == key
    && chain[k].signedBy == Replay(c, chain[..k]).value.master
    && Has(chain[k].body.capabilities, capability)
    && chain[k].timestamp <= latest
  }

  lemma AddedByMaster(c: Crypto, st: State, e: Event)
    requires Step(c, st, e).Some? && e.body.AddDevice?
    ensures e.signedBy == st.master
  {
  }

  lemma EnrolledByMaster(c: Crypto, chain: Chain, k: nat)
    requires Valid(c, chain) && k < |chain| && chain[k].body.AddDevice?
    ensures 1 <= k && Valid(c, chain[..k]) && chain[k].signedBy == Replay(c, chain[..k]).value.master
  {
    Linked(c, chain, k);
    Linked(c, chain, 0);
    PrefixesAreValid(c, chain, k + 1);
    assert chain[..k + 1][..k] == chain[..k];
    LastStep(c, chain[..k + 1]);
    AddedByMaster(c, Replay(c, chain[..k]).value, chain[k]);
  }

  /** An active device holding a capability the genesis key lacks was enrolled with it, and is not revoked. */
  lemma ActiveDeviceWasEnrolled(c: Crypto, chain: Chain, info: DeviceInfo, capability: string, now: int) returns (k: int)
    requires Valid(c, chain) && info in ActiveDevices(chain, now) && Has(info.capabilities, capability)
    requires capability !in ["sign", "encrypt"]
    ensures !RevokedIn(chain, info.pubkey)
    ensures EnrolledBy(c, chain, k, info.pubkey, capability, info.addedAt) && !Expired(chain[k].body.deviceExpires, now)
  {
    DeviceActivity(chain, now, info);
    k :| LastAdd(chain, k, info.pubkey, now) && DeviceAdded(chain[k], now) == Some(info);
    EnrolledByMaster(c, chain, k);
  }

  /**
   An accepted assertion comes from a device the master enrolled for signing in, that no event revokes; the chain the
   signer knew is a prefix of ours; and it was made for this party, at most a lifetime ago.
   */
  lemma AcceptedAssertion(c: Crypto, signs: Signs, d: map<string, Value>, chain: Chain, aud: string, now: int,
                          signer: Chain) returns (k: int)
    requires Injective(c) && VerifyAssertion(c, signs, d, chain, aud, now).Accepted?
    ensures var f := VerifyAssertion(c, signs, d, chain, aud, now).fields;
      && (Valid(c, signer) && Head(c, signer) == f.chainHead ==> signer <= chain)
      && !RevokedIn(chain, f.device)
      && f.device != Replay(c, chain).value.master
      && EnrolledBy(c, chain, k, f.device, "authenticate", f.iat + CLOCK_SKEW)
      && f.aud == aud && now - MAX_ASSERTION_LIFETIME - CLOCK_SKEW <= f.iat <= now + CLOCK_SKEW
      && signs(d, f.device, f.sig)
  {
    var f := ReadFields(d).value;
    if Valid(c, signer) && Head(c, signer) == f.chainHead { ContainsHeadIffExtends(c, signer, chain); }
    MasterAgrees(c, chain);
    DeviceWithKeyIsMember(ActiveDevices(chain, now), f.device);
    var info := DeviceWithKey(ActiveDevices(chain, now), f.device).value;
    k := ActiveDeviceWasEnrolled(c, chain, info, "authenticate", now);
  }

  /** Once a device is revoked, nothing it signs is accepted with that chain or any that extends it. */
  lemma RevokedDeviceIsRejected(c: Crypto, signs: Signs, d: map<string, Value>, chain: Chain,
                                ext: Chain, aud: string, now: int)
    requires ReadFields(d).Some? && chain <= ext && RevokedIn(chain, ReadFields(d).value.device)
    ensures VerifyAssertion(c, signs, d, ext, aud, now).Rejected?
  {
    var key := ReadFields(d).value.device;
    RevocationIsFinal(chain, ext, key, now);
    if DeviceWithKey(ActiveDevices(ext, now), key).Some? { DeviceWithKeyIsMember(ActiveDevices(ext, now), key); }
  }

  /** One signed text is one assertion: the signature binds every field. */
  lemma SignatureBindsFields(d: map<string, Value>, e: map<string, Value>)
    requires Integers(Obj(d)) && Integers(Obj(e)) && SigningInput(d) == SigningInput(e)
    ensures d - {"sig"} == e - {"sig"}
  {
    var x, y := Obj(d - {"sig"}), Obj(e - {"sig"});
    assert SigningInput(d)[|AUTH_DOMAIN|..] == Encode(x) && SigningInput(e)[|AUTH_DOMAIN|..] == Encode(y);
    EncodeUnambiguous(x, y);
  }

  /** No assertion's signed text is the signed or hashed text of an event. */
  lemma AssertionsAreNotEvents(d: map<string, Value>, e: map<string, Value>)
    ensures SigningInput(d) != Encode(Obj(e))
  {
    assert SigningInput(d)[0] == 'n';
  }

  /** Two accepted assertions that differ in any field but the signature were signed separately, as different texts. */
  lemma EachAssertionIsSigned(p: Primitives, c: Crypto, d: map<string, Value>, e: map<string, Value>, ours: Chain,
                              theirs: Chain, aud: string, now: int, later: int)
    requires Integers(Obj(d)) && Integers(Obj(e)) && d - {"sig"} != e - {"sig"}
    requires VerifyAssertion(c, SignsOf(p), d, ours, aud, now).Accepted?
    requires VerifyAssertion(c, SignsOf(p), e, theirs, aud, later).Accepted?
    ensures SigningInput(d) != SigningInput(e)
    ensures p.checks(ReadFields(d).value.device, SigningInput(d), ReadFields(d).value.sig)
    ensures p.checks(ReadFields(e).value.device, SigningInput(e), ReadFields(e).value.sig)
  {
    if SigningInput(d) == SigningInput(e) { SignatureBindsFields(d, e); }
  }
}
