/** Where the Python and the Go verifier part: on times that do not fit Go's integers. */
module GoPartings {
  import opened Events
  import opened GoAgreement
  import opened GoSigchains
  import opened Json
  import opened Options
  import opened Sigchains

  /** Times that fit Go's integers. */
  predicate Int64Times(e: Event) {
    IsInt64(e.timestamp) && (e.body.AddDevice? && e.body.deviceExpires.Some? ==> IsInt64(e.body.deviceExpires.value))
  }

  predicate GrantsFit(py: State) {
    forall k <- py.devices :: py.devices[k].expires.Some? ==> IsInt64(py.devices[k].expires.value)
  }

  lemma ApplyKeepsFit(py: State, e: Event)
    requires GrantsFit(py) && Int64Times(e) && Apply(py, e).Some?
    ensures GrantsFit(Apply(py, e).value)
  {
  }

  lemma {:induction false} ReplayKeepsFit(c: Crypto, events: Chain)
    requires Valid(c, events) && forall e <- events :: Int64Times(e)
    ensures GrantsFit(Replay(c, events).value)
  {
    if |events| > 1 {
      var n := |events| - 1;
      ReplayKeepsFit(c, events[..n]);
      ApplyKeepsFit(Replay(c, events[..n]).value, events[n]);
    }
  }

  lemma FitIsTimely(py: State, e: Event)
    requires GrantsFit(py) && IsInt64(e.timestamp)
    ensures Timely(py, e)
  {
  }

  /** On chains whose times fit, the verifiers never part. */
  lemma FittingTimesNeverPart(c: Crypto, events: Chain)
    requires forall e <- events :: Int64Times(e)
    ensures NeverParts(c, events)
  {
    forall n | 1 <= n < |events| ensures !Parts(c, events, n) {
      if Valid(c, events[..n]) {
        ReplayKeepsFit(c, events[..n]);
        assert events[n] in events;
        FitIsTimely(Replay(c, events[..n]).value, events[n]);
      }
    }
  }

  // ---------------------------------------------------------------- one event that parts them

  /** The verdicts on a chain whose beginning both accept and whose last event only the right to manage claims can stop. */
  lemma LastVerdicts(p: Primitives, before: Chain, e: Event)
    requires CollisionFree(p) && Valid(CryptoOf(p), before) && GoReplay(GoCryptoOf(p), RawOf(before)).Some?
    requires GoSupports(e) && Admissible(CryptoOf(p), Replay(CryptoOf(p), before).value, e) && ManagesClaims(e.body)
    ensures var py := Replay(CryptoOf(p), before).value;
      && (Replay(CryptoOf(p), before + [e]).Some? <==> MayManageClaims(py, e))
      && (GoReplay(GoCryptoOf(p), RawOf(before + [e])).Some? <==> ManagesInGo(py, e))
  {
    var g, c := GoCryptoOf(p), CryptoOf(p);
    VerifiersAgree(p, before);
    CryptoAgrees(p, e);
    LastSteps(g, c, GoReplay(g, RawOf(before)).value, Replay(c, before).value, e);
    ReplaysSnoc(g, c, before, e);
  }

  lemma ReplaysSnoc(g: GoCrypto, c: Crypto, before: Chain, e: Event)
    requires before != [] && Valid(c, before) && GoReplay(g, RawOf(before)).Some?
    ensures Replay(c, before + [e]) == Step(c, Replay(c, before).value, e)
    ensures GoReplay(g, RawOf(before + [e])) == GoStep(g, GoReplay(g, RawOf(before)).value, ToDict(e))
  {
    assert (before + [e])[..|before|] == before;
    GoReplaySnoc(g, before + [e]);
  }

  lemma LastSteps(g: GoCrypto, c: Crypto, go: GoState, py: State, e: Event)
    requires SameCrypto(g, c, e) && SameState(go, py) && py.head != ""
    requires GoSupports(e) && Admissible(c, py, e) && ManagesClaims(e.body)
    ensures Step(c, py, e).Some? <==> MayManageClaims(py, e)
    ensures GoStep(g, go, ToDict(e)).Some? <==> ManagesInGo(py, e)
  {
    GoStepAcceptsIf(g, c, go, py, e);
    StepAcceptsIf(c, py, e);
  }

  /** Only one of the verifiers accepts a chain whose last event parts them: Go, if Python takes the signer's device for
      expired, and Python, if Go does. */
  lemma PartingSplits(p: Primitives, before: Chain, e: Event)
    requires CollisionFree(p) && before != [] && Parts(CryptoOf(p), before + [e], |before|)
    requires GoReplay(GoCryptoOf(p), RawOf(before)).Some?
    ensures Valid(CryptoOf(p), before) && e.signedBy in Replay(CryptoOf(p), before).value.devices
    ensures var expired := Expired(Replay(CryptoOf(p), before).value.devices[e.signedBy].expires, e.timestamp);
      && (Replay(CryptoOf(p), before + [e]).None? <==> expired)
      && (GoReplay(GoCryptoOf(p), RawOf(before + [e])).Some? <==> expired)
  {
    LastParts(CryptoOf(p), before, e);
    PartedBy(p, before, e);
  }

  lemma LastParts(c: Crypto, before: Chain, e: Event)
    requires before != [] && Parts(c, before + [e], |before|)
    ensures Wanted(c, before) && GoSupports(e)
    ensures Admissible(c, Replay(c, before).value, e) && !Timely(Replay(c, before).value, e)
  {
    assert (before + [e])[..|before|] == before && (before + [e])[|before|] == e;
  }

  lemma PartedBy(p: Primitives, before: Chain, e: Event)
    requires CollisionFree(p) && Valid(CryptoOf(p), before) && GoReplay(GoCryptoOf(p), RawOf(before)).Some?
    requires var py := Replay(CryptoOf(p), before).value; GoSupports(e) && Admissible(CryptoOf(p), py, e) && !Timely(py, e)
    ensures var py := Replay(CryptoOf(p), before).value;
      && e.signedBy in py.devices
      && var expired := Expired(py.devices[e.signedBy].expires, e.timestamp);
      && (Replay(CryptoOf(p), before + [e]).None? <==> expired)
      && (GoReplay(GoCryptoOf(p), RawOf(before + [e])).Some? <==> expired)
  {
    UntimelyVerdicts(Replay(CryptoOf(p), before).value, e);
    LastVerdicts(p, before, e);
  }

  /** Where the readers differ on the expiry, the right to manage claims hangs on it alone. */
  lemma UntimelyVerdicts(py: State, e: Event)
    requires !Timely(py, e)
    ensures ManagesClaims(e.body) && e.signedBy in py.devices
    ensures var expired := Expired(py.devices[e.signedBy].expires, e.timestamp);
      MayManageClaims(py, e) == !expired && ManagesInGo(py, e) == expired
  {
  }

  // ---------------------------------------------------------------- a chain that parts them

  /** Keys and a way to sign with them. */
  datatype Signers = Signers(master: string, device: string, sign: (string, string) -> string)

  ghost predicate CanSign(p: Primitives, s: Signers) {
    && s.master != s.device
    && (forall text :: p.checks(s.master, text, s.sign(s.master, text)))
    && (forall text :: p.checks(s.device, text, s.sign(s.device, text)))
  }

  function Made(prev: Option<string>, timestamp: int, signer: string, body: Body): Event
    requires body.Genesis? ==> prev == None
  {
    Event(1, "ed25519", "sha256", timestamp, prev, "", signer, body)
  }

  ghost function Sealed(s: Signers, e: Event): Event {
    e.(signature := s.sign(e.signedBy, Encode(Obj(SignableDict(e)))))
  }

  /** The signature is not part of what is signed. */
  lemma SealedIsSigned(p: Primitives, s: Signers)
    requires CanSign(p, s)
    ensures forall e: Event | e.signedBy in {s.master, s.device} :: CryptoOf(p).signed(Sealed(s, e), e.signedBy)
  {
    forall e: Event | e.signedBy in {s.master, s.device}
      ensures CryptoOf(p).signed(Sealed(s, e), e.signedBy)
    {
      assert SignableDict(Sealed(s, e)) == SignableDict(e);
    }
  }

  ghost function First(s: Signers): Event {
    Sealed(s, Made(None, 0, s.master, Genesis(s.master, "", Personal, None, false, None, None)))
  }

  /** The master adds a device that may manage claims until `expires`. */
  ghost function Second(c: Crypto, s: Signers, expires: int): Event {
    Sealed(s, Made(Some(c.hash(First(s))), 0, s.master, AddDevice(s.device, "", "", Some([MANAGE_CLAIMS]), Some(expires))))
  }

  /** The device adds a claim at `t`. */
  ghost function Third(c: Crypto, s: Signers, expires: int, t: int): Event {
    Sealed(s, Made(Some(c.hash(Second(c, s, expires))), t, s.device, AddClaim("claim", "email", "", None)))
  }

  ghost function Beginning(c: Crypto, s: Signers, expires: int): Chain {
    [First(s), Second(c, s, expires)]
  }

  ghost function PartingChain(c: Crypto, s: Signers, expires: int, t: int): Chain {
    Beginning(c, s, expires) + [Third(c, s, expires, t)]
  }

  function Before(c: Crypto, s: Signers, e: Event, expires: int): State {
    State(s.master, c.hash(e), map[s.device := Grant([MANAGE_CLAIMS], Some(expires))], {}, map[], map[])
  }

  lemma StartOf(c: Crypto, e: Event, key: string)
    requires e.body == Genesis(key, "", Personal, None, false, None, None) && e.hashAlg == "sha256" && c.signed(e, key)
    ensures Replay(c, [e]) == Some(State(key, c.hash(e), map[], {}, map[], map[]))
  {
  }

  lemma StepOf(c: Crypto, first: Event, e: Event, key: string, device: string, expires: int)
    requires Replay(c, [first]) == Some(State(key, c.hash(first), map[], {}, map[], map[]))
    requires e.body == AddDevice(device, "", "", Some([MANAGE_CLAIMS]), Some(expires))
    requires e.prev == Some(c.hash(first)) && e.hashAlg == "sha256" && e.signedBy == key && c.signed(e, key)
    ensures Replay(c, [first, e])
         == Some(State(key, c.hash(e), map[device := Grant([MANAGE_CLAIMS], Some(expires))], {}, map[], map[]))
  {
    assert [first, e][..1] == [first];
  }

  lemma FirstTwo(p: Primitives, s: Signers, expires: int)
    requires CanSign(p, s)
    ensures var c := CryptoOf(p);
      Replay(c, Beginning(c, s, expires)) == Some(Before(c, s, Second(c, s, expires), expires))
  {
    var c := CryptoOf(p);
    SealedIsSigned(p, s);
    StartOf(c, First(s), s.master);
    StepOf(c, First(s), Second(c, s, expires), s.master, s.device, expires);
  }

  /** Go follows Python on two events of which the second adds a device. */
  lemma GoTakesTwo(p: Primitives, first: Event, e: Event)
    requires CollisionFree(p) && Valid(CryptoOf(p), [first, e]) && e.body.AddDevice? && GoDemands([first, e])
    ensures GoReplay(GoCryptoOf(p), RawOf([first, e])).Some?
  {
    var two, c := [first, e], CryptoOf(p);
    forall n | 1 <= n < |two| ensures !Parts(c, two, n) { assert two[n] == e; }
    VerifiersAgree(p, two);
    assert two[..2] == two;
    assert Verdicts(GoCryptoOf(p), c)(two[..2]);
  }

  lemma GoTakesFirstTwo(p: Primitives, s: Signers, expires: int)
    requires CanSign(p, s) && CollisionFree(p)
    ensures GoReplay(GoCryptoOf(p), RawOf(Beginning(CryptoOf(p), s, expires))).Some?
  {
    FirstTwo(p, s, expires);
    MeetDemands(CryptoOf(p), s, expires);
    GoTakesTwo(p, First(s), Second(CryptoOf(p), s, expires));
  }

  lemma MeetDemands(c: Crypto, s: Signers, expires: int)
    ensures GoDemands(Beginning(c, s, expires))
  {
    DemandsOfTwo(First(s), Second(c, s, expires), s.master);
  }

  lemma DemandsOfTwo(a: Event, b: Event, key: string)
    requires a.body == Genesis(key, "", Personal, None, false, None, None) && a.signedBy == key
    requires GoSupports(a) && GoSupports(b)
    ensures GoDemands([a, b])
  {
    assert forall i | 0 <= i < 2 :: [a, b][i] == a || [a, b][i] == b;
  }

  lemma ClaimIsAdmissible(c: Crypto, key: string, head: string, device: string, expires: int, e: Event)
    requires key != device && e.signedBy == device && e.body == AddClaim("claim", "email", "", None)
    requires e.prev == Some(head) && e.hashAlg == "sha256" && c.signed(e, device)
    ensures var py := State(key, head, map[device := Grant([MANAGE_CLAIMS], Some(expires))], {}, map[], map[]);
      && Admissible(c, py, e)
      && (MayManageClaims(py, e) <==> !Expired(Some(expires), e.timestamp))
      && (ManagesInGo(py, e) <==> !Expired(Narrowed(Some(expires)), Clamp(e.timestamp)))
  {
  }

  lemma ThirdIsAdmissible(p: Primitives, s: Signers, expires: int, t: int)
    requires CanSign(p, s)
    ensures var c := CryptoOf(p); var third, py := Third(c, s, expires, t), Before(c, s, Second(c, s, expires), expires);
      && Admissible(c, py, third) && GoSupports(third) && ManagesClaims(third.body)
      && (MayManageClaims(py, third) <==> !Expired(Some(expires), t))
      && (ManagesInGo(py, third) <==> !Expired(Narrowed(Some(expires)), Clamp(t)))
  {
    var c := CryptoOf(p);
    SealedIsSigned(p, s);
    ClaimIsAdmissible(c, s.master, c.hash(Second(c, s, expires)), s.device, expires, Third(c, s, expires, t));
  }

  /** A device is added with an expiry and adds a claim: each verifier accepts exactly if it does not take the device for
      expired, where Go reads times that do not fit as zero. */
  lemma PartingChainVerdicts(p: Primitives, s: Signers, expires: int, t: int)
    requires CollisionFree(p) && CanSign(p, s)
    ensures var chain := PartingChain(CryptoOf(p), s, expires, t);
      && (Replay(CryptoOf(p), chain).Some? <==> !Expired(Some(expires), t))
      && (GoReplay(GoCryptoOf(p), RawOf(chain)).Some? <==> !Expired(Narrowed(Some(expires)), Clamp(t)))
  {
    FirstTwo(p, s, expires);
    GoTakesFirstTwo(p, s, expires);
    ThirdIsAdmissible(p, s, expires, t);
    LastVerdicts(p, Beginning(CryptoOf(p), s, expires), Third(CryptoOf(p), s, expires, t));
  }

  /** So each accepts chains the other refuses: Go with a far future or with an expiry in the far past, Python with both. */
  lemma EachAcceptsAlone(p: Primitives, s: Signers)
    requires CollisionFree(p) && CanSign(p, s)
    ensures var big := 0x8000_0000_0000_0000; var g, c := GoCryptoOf(p), CryptoOf(p);
      && var future, past, both := PartingChain(c, s, 5, big), PartingChain(c, s, -big - 1, 5), PartingChain(c, s, -5, -big - 1);
      && GoReplay(g, RawOf(future)).Some? && Replay(c, future).None?
      && GoReplay(g, RawOf(past)).Some? && Replay(c, past).None?
      && GoReplay(g, RawOf(both)).None? && Replay(c, both).Some?
  {
    var big := 0x8000_0000_0000_0000;
    PartingChainVerdicts(p, s, 5, big);
    PartingChainVerdicts(p, s, -big - 1, 5);
    PartingChainVerdicts(p, s, -5, -big - 1);
  }
}
