/** The Python and the Go verifier on the same events: when they agree, and that they then hold the same state. */
module GoAgreement {
  import opened Canonical
  import opened Events
  import opened GoSigchains
  import opened Json
  import opened Options
  import opened Sigchains
  import opened Text

  /** The JSON array Go receives for a chain Python serialized. */
  function RawOf(events: Chain): seq<Value> {
    seq(|events|, i requires 0 <= i < |events| => Obj(ToDict(events[i])))
  }

  function RawFields(events: Chain): seq<Raw> {
    seq(|events|, i requires 0 <= i < |events| => ToDict(events[i]))
  }

  /** A time as Go holds it: one that does not fit its integers is read as zero. */
  function Clamp(n: int): int {
    if IsInt64(n) then n else 0
  }

  /** An expiry as Go holds it; zero is none. */
  function Narrowed(expires: Option<int>): Option<int> {
    if expires.Some? && Clamp(expires.value) != 0 then expires else None
  }

  /** What Go demands of an event and Python does not. */
  predicate GoSupports(e: Event) {
    e.alg == "ed25519" && e.hashAlg == "sha256" && !e.body.SocialRecovery?
  }

  function GoExpiry(expires: Option<int>): int {
    Clamp(expires.GetOr(0))
  }

  ghost predicate SameDevices(go: map<string, DeviceState>, py: map<string, Grant>) {
    && (forall k :: k in go <==> k in py)
    && (forall k <- py :: go[k] == DeviceState(py[k].capabilities, GoExpiry(py[k].expires)))
  }

  /** Both verifiers hold the same master, devices, revocations and claim states. */
  ghost predicate SameState(go: GoState, py: State) {
    && go.master == py.master
    && go.hashes != [] && go.hashes[|go.hashes| - 1] == py.head
    && SameDevices(go.devices, py.devices)
    && go.revoked == py.revoked
    && go.claims == py.claimRevoked
    && go.claimTypes == py.claimTypes
  }

  // ---------------------------------------------------------------- what Go reads from a Python dictionary

  lemma BodyHolds(e: Event)
    ensures Holds(ToDict(e), BodyDict(e.body))
  {
  }

  lemma ReadHeader(e: Event)
    ensures StringField(ToDict(e), "type") == Some(TypeName(e.body))
    ensures StringField(ToDict(e), "signed_by") == Some(e.signedBy)
    ensures StringField(ToDict(e), "signature") == Some(e.signature)
    ensures StringField(ToDict(e), "prev") == e.prev
    ensures "prev" in ToDict(e) && (ToDict(e)["prev"] == Null <==> e.prev == None)
    ensures IntField(ToDict(e), "timestamp").GetOr(0) == Clamp(e.timestamp)
  {
    HeaderReadBack(e);
    ParseIntOfString(e.timestamp);
  }

  lemma ReadAlgorithms(e: Event)
    ensures FieldIs(ToDict(e), "alg", "ed25519") <==> e.alg == "ed25519"
    ensures FieldIs(ToDict(e), "hash_alg", "sha256") <==> e.hashAlg == "sha256"
  {
    HeaderReadBack(e);
  }

  lemma {:induction false} ReadStrings(xs: seq<string>)
    ensures StringsOf(Strs(xs).items) == xs
  {
    if xs != [] {
      assert Strs(xs).items[1..] == Strs(xs[1..]).items;
      ReadStrings(xs[1..]);
    }
  }

  lemma ReadDevice(e: Event)
    requires e.body.AddDevice?
    ensures StringField(ToDict(e), "device_pubkey") == Some(e.body.devicePubkey)
    ensures StringField(ToDict(e), "label") == Some(e.body.deviceLabel)
    ensures CapabilitiesOf(ToDict(e)) == e.body.capabilities.GetOr([])
    ensures IntField(ToDict(e), "expires").GetOr(0) == GoExpiry(e.body.deviceExpires)
  {
    BodyHolds(e);
    AddDeviceFields(e.body, ToDict(e));
    if e.body.capabilities.Some? { ReadStrings(e.body.capabilities.value); }
    if e.body.deviceExpires.Some? { ParseIntOfString(e.body.deviceExpires.value); }
  }

  lemma HeaderOkIff(e: Event)
    ensures HeaderOk(ToDict(e)) <==> e.alg == "ed25519" && e.hashAlg == "sha256"
  {
    ReadHeader(e);
    ReadAlgorithms(e);
  }

  /** Both implementations hash and sign the same text of an event. */
  ghost predicate SameCrypto(g: GoCrypto, c: Crypto, e: Event) {
    && (e.hashAlg == "sha256" ==> g.hash(ToDict(e)) == c.hash(e))
    && (forall key :: g.signed(ToDict(e), key, e.signature) == c.signed(e, key))
    && c.hash(e) != ""
  }

  lemma CryptoAgrees(p: Primitives, e: Event)
    requires CollisionFree(p)
    ensures SameCrypto(GoCryptoOf(p), CryptoOf(p), e)
  {
    var g, c := GoCryptoOf(p), CryptoOf(p);
    var signable, whole := Encode(Obj(SignableDict(e))), Encode(Obj(ToDict(e)));
    assert SignableDict(e) == ToDict(e) - {"signature"};
    assert c.hash(e) == p.digest(e.hashAlg, whole) && g.hash(ToDict(e)) == p.digest("sha256", whole);
    forall key ensures g.signed(ToDict(e), key, e.signature) == c.signed(e, key) {
      assert c.signed(e, key) == p.checks(key, signable, e.signature);
    }
  }

  lemma WellSignedIff(g: GoCrypto, c: Crypto, e: Event)
    requires SameCrypto(g, c, e)
    ensures WellSigned(g, ToDict(e)) <==> e.alg == "ed25519" && e.hashAlg == "sha256" && c.signed(e, e.signedBy)
  {
    var ev := ToDict(e);
    ReadHeader(e);
    HeaderOkIff(e);
    assert Serializable(Obj(ev)) by {
      EventIsIntegers(e);
      IntegersAreSerializable(Obj(ev));
    }
  }

  // ---------------------------------------------------------------- one event

  /** Whether Go lets the signer manage claims, told from Python's state. */
  predicate ManagesInGo(py: State, e: Event) {
    || e.signedBy == py.master
    || (&& e.signedBy in py.devices
        && e.signedBy !in py.revoked
        && MANAGE_CLAIMS in py.devices[e.signedBy].capabilities
        && !Expired(Narrowed(py.devices[e.signedBy].expires), Clamp(e.timestamp)))
  }

  lemma MayManageAgrees(go: GoState, py: State, e: Event)
    requires SameState(go, py)
    ensures MayManage(go, ToDict(e), e.signedBy) <==> ManagesInGo(py, e)
  {
    ReadHeader(e);
  }

  predicate ManagesClaims(b: Body) {
    b.AddClaim? || b.RevokeClaim? || b.SetClaimOrder?
  }

  /** The step of the Python verifier with the answer to "may the signer manage claims?" given. */
  function ApplyIf(may: bool, st: State, e: Event): Option<State> {
    if ManagesClaims(e.body) then
      if may then Apply(st, e.(signedBy := st.master)) else None
    else Apply(st, e)
  }

  lemma ApplyIsApplyIf(st: State, e: Event)
    ensures Apply(st, e) == ApplyIf(MayManageClaims(st, e), st, e)
  {
  }

  /** The two ways of applying one event agree: both refuse it, or both accept it with the same state. */
  ghost predicate Agree(go: Option<GoState>, py: Option<State>) {
    (go.Some? <==> py.Some?) && BothHold(go, py)
  }

  /** If both accept, they hold the same state. */
  ghost predicate BothHold(go: Option<GoState>, py: Option<State>) {
    go.Some? && py.Some? ==> SameState(go.value, py.value)
  }

  lemma AddedDeviceAgrees(go: GoState, py: State, key: string, caps: seq<string>, expires: Option<int>)
    requires SameState(go, py)
    ensures SameState(go.(devices := go.devices[key := DeviceState(caps, GoExpiry(expires))]),
                      py.(devices := py.devices[key := Grant(caps, expires)]))
  {
  }

  lemma AddDeviceAgrees(go: GoState, py: State, e: Event)
    requires SameState(go, py) && e.body.AddDevice?
    ensures Agree(GoAddDevice(go, e.signedBy, ToDict(e)), Apply(py, e))
  {
    ReadDevice(e);
    AddedDeviceAgrees(go, py, e.body.devicePubkey, e.body.capabilities.GetOr([]), e.body.deviceExpires);
  }

  lemma RevokeDeviceAgrees(go: GoState, py: State, e: Event)
    requires SameState(go, py) && e.body.RevokeDevice?
    ensures Agree(GoRevokeDevice(go, e.signedBy, ToDict(e)), Apply(py, e))
  {
    BodyHolds(e);
    RevokeDeviceReadBack(e.body, ToDict(e));
  }

  lemma RotateMasterAgrees(go: GoState, py: State, e: Event)
    requires SameState(go, py) && e.body.RotateMaster?
    ensures Agree(GoRotateMaster(go, e.signedBy, ToDict(e)), Apply(py, e))
  {
    BodyHolds(e);
    RotateMasterReadBack(e.body, ToDict(e));
  }

  lemma AddClaimAgrees(go: GoState, py: State, e: Event)
    requires SameState(go, py) && e.body.AddClaim?
    ensures Agree(GoAddClaim(go, e.signedBy, ToDict(e)), ApplyIf(ManagesInGo(py, e), py, e))
  {
    BodyHolds(e);
    MayManageAgrees(go, py, e);
    AddClaimReadBack(e.body, ToDict(e));
  }

  lemma RevokeClaimAgrees(go: GoState, py: State, e: Event)
    requires SameState(go, py) && e.body.RevokeClaim?
    ensures Agree(GoRevokeClaim(go, e.signedBy, ToDict(e)), ApplyIf(ManagesInGo(py, e), py, e))
  {
    BodyHolds(e);
    MayManageAgrees(go, py, e);
    RevokeClaimReadBack(e.body, ToDict(e));
  }

  lemma OrderAgrees(go: GoState, py: State, e: Event)
    requires SameState(go, py) && e.body.SetClaimOrder?
    ensures OrderOk(go, ToDict(e)) <==> OrderAcceptable(py, e.body.orderType, e.body.order)
  {
    var d := ToDict(e);
    var order, kind := e.body.order, e.body.orderType;
    BodyHolds(e);
    SetClaimOrderReadBack(e.body, d);
    var items := d["order"].items;
    assert forall i | 0 <= i < |order| :: items[i] == Str(order[i]);
    assert forall i | 0 <= i < |order| :: MayOrder(go, kind, items[i].s) <==> Orderable(py, kind, order[i]);
  }

  /** `GoApply` on an event of a known kind. */
  function GoApplyBody(go: GoState, b: Body, signer: string, ev: Raw): Option<GoState> {
    match b
    case AddDevice(_, _, _, _, _) => GoAddDevice(go, signer, ev)
    case RevokeDevice(_, _) => GoRevokeDevice(go, signer, ev)
    case RotateMaster(_, _) => GoRotateMaster(go, signer, ev)
    case AddClaim(_, _, _, _) => GoAddClaim(go, signer, ev)
    case RevokeClaim(_, _) => GoRevokeClaim(go, signer, ev)
    case SetClaimOrder(_, _) => if MayManage(go, ev, signer) && OrderOk(go, ev) then Some(go) else None
    case SocialRecovery(_, _, _) => None
    case Genesis(_, _, _, _, _, _, _) => None
    case _ => if signer == go.master then Some(go) else None
  }

  lemma DispatchByType(go: GoState, b: Body, signer: string, ev: Raw)
    ensures GoApply(go, TypeName(b), signer, ev) == GoApplyBody(go, b, signer, ev)
  {
  }

  lemma ApplyAgrees(go: GoState, py: State, e: Event)
    requires SameState(go, py) && !e.body.SocialRecovery? && !e.body.Genesis?
    ensures Agree(GoApplyBody(go, e.body, e.signedBy, ToDict(e)), ApplyIf(ManagesInGo(py, e), py, e))
  {
    match e.body {
      case AddDevice(_, _, _, _, _) => AddDeviceAgrees(go, py, e);
      case RevokeDevice(_, _) => RevokeDeviceAgrees(go, py, e);
      case RotateMaster(_, _) => RotateMasterAgrees(go, py, e);
      case AddClaim(_, _, _, _) => AddClaimAgrees(go, py, e);
      case RevokeClaim(_, _) => RevokeClaimAgrees(go, py, e);
      case SetClaimOrder(_, _) =>
        MayManageAgrees(go, py, e);
        OrderAgrees(go, py, e);
      case _ =>
    }
  }

  /** All that is asked of an event but that its signer may manage claims. */
  predicate Admissible(c: Crypto, py: State, e: Event) {
    e.prev == Some(py.head) && c.signed(e, e.signedBy) && KnownHash(e.hashAlg) && ApplyIf(true, py, e).Some?
  }

  /** The readers of the two implementations answer alike whether the signer's device has expired. */
  predicate Timely(py: State, e: Event) {
    ManagesClaims(e.body) && e.signedBy != py.master && e.signedBy in py.devices && e.signedBy !in py.revoked
    && MANAGE_CLAIMS in py.devices[e.signedBy].capabilities ==>
      var x := py.devices[e.signedBy].expires;
      (Expired(x, e.timestamp) <==> Expired(Narrowed(x), Clamp(e.timestamp)))
  }

  predicate StepsIf(c: Crypto, may: bool, py: State, e: Event) {
    Admissible(c, py, e) && (ManagesClaims(e.body) ==> may)
  }

  lemma StepAcceptsIf(c: Crypto, py: State, e: Event)
    ensures Step(c, py, e).Some? <==> StepsIf(c, MayManageClaims(py, e), py, e)
  {
    ApplyIsApplyIf(py, e);
  }

  lemma GoStepAcceptsIf(g: GoCrypto, c: Crypto, go: GoState, py: State, e: Event)
    requires SameCrypto(g, c, e) && SameState(go, py) && py.head != ""
    ensures GoStep(g, go, ToDict(e)).Some? <==> GoSupports(e) && StepsIf(c, ManagesInGo(py, e), py, e)
  {
    ReadHeader(e);
    WellSignedIff(g, c, e);
    GoAppliesIf(go, py, e);
    AppliesIf(py, e, ManagesInGo(py, e));
  }

  lemma GoAppliesIf(go: GoState, py: State, e: Event)
    requires SameState(go, py)
    ensures GoApply(go, TypeName(e.body), e.signedBy, ToDict(e)).Some?
       <==> !e.body.SocialRecovery? && !e.body.Genesis? && ApplyIf(ManagesInGo(py, e), py, e).Some?
  {
    DispatchByType(go, e.body, e.signedBy, ToDict(e));
    if !e.body.SocialRecovery? && !e.body.Genesis? { ApplyAgrees(go, py, e); }
  }

  lemma AppliesIf(py: State, e: Event, may: bool)
    ensures ApplyIf(may, py, e).Some? <==> ApplyIf(true, py, e).Some? && (ManagesClaims(e.body) ==> may)
  {
  }

  /** What both accept leaves both with the same state. */
  lemma StepKeepsState(g: GoCrypto, c: Crypto, go: GoState, py: State, e: Event)
    requires SameCrypto(g, c, e) && SameState(go, py)
    requires GoStep(g, go, ToDict(e)).Some? && Step(c, py, e).Some?
    ensures SameState(GoStep(g, go, ToDict(e)).value, Step(c, py, e).value) && Step(c, py, e).value.head != ""
  {
    ReadHeader(e);
    WellSignedIff(g, c, e);
    DispatchByType(go, e.body, e.signedBy, ToDict(e));
    ApplyIsApplyIf(py, e);
    ApplyAgrees(go, py, e);
  }

  /** One event more: the verdicts differ exactly on an event that Go supports, that only the right to manage claims can
      stop, and on whose signer's expiry the two readers differ. */
  lemma StepAgrees(g: GoCrypto, c: Crypto, go: GoState, py: State, e: Event)
    requires SameCrypto(g, c, e) && SameState(go, py) && py.head != ""
    ensures (GoStep(g, go, ToDict(e)).Some? <==> Step(c, py, e).Some? && GoSupports(e))
       <==> !(GoSupports(e) && Admissible(c, py, e) && !Timely(py, e))
  {
    GoStepAcceptsIf(g, c, go, py, e);
    StepAcceptsIf(c, py, e);
  }

  lemma StartAgrees(g: GoCrypto, c: Crypto, e: Event)
    requires SameCrypto(g, c, e)
    ensures GoStart(g, ToDict(e)).Some? <==> Start(c, e).Some? && GoSupports(e) && e.signedBy == e.body.pubkey
    ensures BothHold(GoStart(g, ToDict(e)), Start(c, e)) && (Start(c, e).Some? ==> Start(c, e).value.head != "")
  {
    ReadHeader(e);
    WellSignedIff(g, c, e);
    if e.body.Genesis? {
      BodyHolds(e);
      GenesisKeys(e.body, ToDict(e));
    } else {
      NotGenesis(e.body);
    }
  }

  lemma NotGenesis(b: Body)
    ensures TypeName(b) == "genesis" <==> b.Genesis?
  {
  }

  // ---------------------------------------------------------------- whole chains

  predicate SelfSigned(events: Chain) {
    events != [] && events[0].body.Genesis? && events[0].signedBy == events[0].body.pubkey
  }

  /** What Go demands of a chain that Python accepts. */
  predicate GoDemands(events: Chain) {
    SelfSigned(events) && forall i :: 0 <= i < |events| ==> GoSupports(events[i])
  }

  /** Whether Go should accept the chain: Python does, and it meets what only Go demands. */
  predicate Wanted(c: Crypto, events: Chain) {
    Valid(c, events) && GoDemands(events)
  }

  ghost predicate SameVerdict(g: GoCrypto, c: Crypto, events: Chain) {
    GoReplay(g, RawOf(events)).Some? <==> Wanted(c, events)
  }

  /** Event `n` is where the verifiers part: everything before it both accept, nothing but the right to manage claims can
      stop it, and they differ on whether its signer has expired. */
  predicate Parts(c: Crypto, events: Chain, n: nat) {
    && 1 <= n < |events| && Wanted(c, events[..n]) && GoSupports(events[n])
    && Admissible(c, Replay(c, events[..n]).value, events[n]) && !Timely(Replay(c, events[..n]).value, events[n])
  }

  /** A chain both verifiers accept leaves both with the same state. */
  ghost predicate SameEnd(g: GoCrypto, c: Crypto, events: Chain) {
    GoReplay(g, RawOf(events)).Some? && Valid(c, events) ==>
      SameState(GoReplay(g, RawOf(events)).value, Replay(c, events).value) && Replay(c, events).value.head != ""
  }

  lemma FirstEventAgrees(g: GoCrypto, c: Crypto, events: Chain)
    requires |events| == 1 && SameCrypto(g, c, events[0])
    ensures SameVerdict(g, c, events) && SameEnd(g, c, events)
  {
    var e := events[0];
    assert events == [e] && RawOf(events) == [Obj(ToDict(e))];
    ReplayOfOne(g, c, e, ToDict(e));
    StartAgrees(g, c, e);
    assert GoDemands(events) <==> e.body.Genesis? && e.signedBy == e.body.pubkey && GoSupports(e);
  }

  lemma ReplayOfOne(g: GoCrypto, c: Crypto, e: Event, ev: Raw)
    ensures GoReplay(g, [Obj(ev)]) == GoStart(g, ev)
    ensures Replay(c, [e]) == Start(c, e)
    ensures Start(c, e).Some? ==> e.body.Genesis?
  {
  }

  lemma GoReplaySnoc(g: GoCrypto, events: Chain)
    requires |events| > 1
    ensures var n := |events| - 1; var go := GoReplay(g, RawOf(events[..n]));
      GoReplay(g, RawOf(events)) == if go.Some? then GoStep(g, go.value, ToDict(events[n])) else None
  {
    RawOfSnoc(events);
  }

  lemma {:induction false} StatesAgree(g: GoCrypto, c: Crypto, events: Chain)
    requires forall e <- events :: SameCrypto(g, c, e)
    ensures SameEnd(g, c, events)
  {
    var n := |events| - 1;
    if n == 0 {
      FirstEventAgrees(g, c, events);
    } else if n > 0 {
      GoReplaySnoc(g, events);
      StatesAgree(g, c, events[..n]);
      var go, py := GoReplay(g, RawOf(events[..n])), Replay(c, events[..n]);
      if GoReplay(g, RawOf(events)).Some? && Valid(c, events) { StepKeepsState(g, c, go.value, py.value, events[n]); }
    }
  }

  /** Where the verdicts agree on all but the last event, they agree on the whole exactly if the last does not part them. */
  lemma LastEventAgrees(g: GoCrypto, c: Crypto, events: Chain)
    requires |events| > 1 && (forall e <- events :: SameCrypto(g, c, e)) && SameVerdict(g, c, events[..|events| - 1])
    ensures SameVerdict(g, c, events) <==> !Parts(c, events, |events| - 1)
  {
    var n := |events| - 1;
    GoReplaySnoc(g, events);
    DemandsSnoc(events);
    StatesAgree(g, c, events[..n]);
    var go, py := GoReplay(g, RawOf(events[..n])), Replay(c, events[..n]);
    if go.Some? { StepAgrees(g, c, go.value, py.value, events[n]); }
  }

  /** `holds` is true of the chain and of all its beginnings. */
  ghost predicate OnBeginnings(holds: Chain -> bool, events: Chain) {
    forall n :: 0 <= n <= |events| ==> holds(events[..n])
  }

  lemma OnBeginningsSnoc(holds: Chain -> bool, events: Chain)
    requires events != []
    ensures OnBeginnings(holds, events) <==> OnBeginnings(holds, events[..|events| - 1]) && holds(events)
  {
    var m := |events| - 1;
    assert events[..m + 1] == events;
    forall n | 0 <= n <= m ensures events[..m][..n] == events[..n] {}
  }

  ghost function Verdicts(g: GoCrypto, c: Crypto): Chain -> bool {
    (events: Chain) => SameVerdict(g, c, events)
  }

  predicate NeverParts(c: Crypto, events: Chain) {
    forall n :: 1 <= n < |events| ==> !Parts(c, events, n)
  }

  lemma NeverPartsSnoc(c: Crypto, events: Chain)
    requires |events| > 1
    ensures NeverParts(c, events) <==> NeverParts(c, events[..|events| - 1]) && !Parts(c, events, |events| - 1)
  {
    var m := |events| - 1;
    forall n | 0 <= n < m ensures events[..m][..n] == events[..n] && events[..m][n] == events[n] {}
    assert forall n | 1 <= n < m :: Parts(c, events[..m], n) <==> Parts(c, events, n);
  }

  lemma {:induction false} VerdictsAgree(g: GoCrypto, c: Crypto, events: Chain)
    requires forall e <- events :: SameCrypto(g, c, e)
    ensures OnBeginnings(Verdicts(g, c), events) <==> NeverParts(c, events)
  {
    var m := |events| - 1;
    if m >= 0 {
      VerdictsAgree(g, c, events[..m]);
      OnBeginningsSnoc(Verdicts(g, c), events);
      if m == 0 { FirstEventAgrees(g, c, events); }
      else {
        NeverPartsSnoc(c, events);
        assert OnBeginnings(Verdicts(g, c), events[..m]) ==> Verdicts(g, c)(events[..m][..m]);
        assert events[..m][..m] == events[..m];
        if SameVerdict(g, c, events[..m]) { LastEventAgrees(g, c, events); }
      }
    }
  }

  /**
   Go accepts a chain and each of its beginnings exactly when Python does and what only Go demands is met (the default
   algorithms, no social recovery, a genesis event that names its own key as signer), if and only if nowhere on the
   chain the two differ on whether the device that signs a claim event has expired. What both accept leaves both with
   the same state in any case.
   */
  lemma VerifiersAgree(p: Primitives, events: Chain)
    requires CollisionFree(p)
    ensures OnBeginnings(Verdicts(GoCryptoOf(p), CryptoOf(p)), events) <==> NeverParts(CryptoOf(p), events)
    ensures SameEnd(GoCryptoOf(p), CryptoOf(p), events)
  {
    var g, c := GoCryptoOf(p), CryptoOf(p);
    forall e | e in events ensures SameCrypto(g, c, e) { CryptoAgrees(p, e); }
    VerdictsAgree(g, c, events);
    StatesAgree(g, c, events);
  }

  lemma RawOfSnoc(events: Chain)
    requires events != []
    ensures var n := |events| - 1; RawOf(events)[..n] == RawOf(events[..n]) && RawOf(events)[n] == Obj(ToDict(events[n]))
    ensures var n := |events| - 1; RawFields(events)[..n] == RawFields(events[..n]) && RawFields(events)[n] == ToDict(events[n])
  {
  }

  lemma DemandsSnoc(events: Chain)
    requires |events| > 1
    ensures var n := |events| - 1; GoDemands(events) <==> GoDemands(events[..n]) && GoSupports(events[n])
  {
    var n := |events| - 1;
    if GoDemands(events[..n]) && GoSupports(events[n]) {
      forall i | 0 <= i < |events| ensures GoSupports(events[i]) {
        if i < n { assert events[..n][i] == events[i]; }
      }
    }
    if GoDemands(events) {
      forall i | 0 <= i < n ensures GoSupports(events[..n][i]) { assert events[..n][i] == events[i]; }
    }
  }
}
