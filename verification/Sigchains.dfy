/** The sigchain: its one-pass verifier, and the queries that replay it. */
module Sigchains {
  import opened Canonical
  import opened Dicts
  import opened Events
  import opened Json
  import opened Lists
  import opened Options
  import opened Sorting

  type Chain = seq<Event>

  const MANAGE_CLAIMS := "manage_claims"
  const MAX_ORDER := 32

  // ---------------------------------------------------------------- verification

  /** What a device was allowed to do when it was added. */
  datatype Grant = Grant(capabilities: seq<string>, expires: Option<int>)

  /** What one pass over the chain carries along. */
  datatype State = State(master: string, head: string, devices: map<string, Grant>, revoked: set<string>,
                         claimRevoked: map<string, bool>, claimTypes: map<string, string>)

  /** The algorithms `event_hash` knows; it raises an exception on any other. */
  predicate KnownHash(alg: string) {
    alg == "sha256" || alg == "blake2b"
  }

  /** An expiry of zero means none. */
  predicate Expired(expires: Option<int>, t: int) {
    expires.Some? && expires.value != 0 && expires.value < t
  }

  predicate MayManageClaims(st: State, e: Event) {
    || e.signedBy == st.master
    || (&& e.signedBy in st.devices
        && e.signedBy !in st.revoked
        && MANAGE_CLAIMS in st.devices[e.signedBy].capabilities
        && !Expired(st.devices[e.signedBy].expires, e.timestamp))
  }

  /** A claim on the chain, of type `kind` and not revoked. */
  predicate Orderable(st: State, kind: string, id: string) {
    id in st.claimRevoked && !st.claimRevoked[id] && id in st.claimTypes && st.claimTypes[id] == kind
  }

  predicate OrderAcceptable(st: State, kind: string, order: seq<string>) {
    && 1 <= |order| <= MAX_ORDER
    && NoDuplicates(order)
    && forall j :: 0 <= j < |order| ==> Orderable(st, kind, order[j])
  }

  /** The authorization rules: the state after `e`, or None if its signer may not make it. */
  function Apply(st: State, e: Event): Option<State> {
    match e.body
    case AddDevice(key, _, _, caps, expires) =>
      if e.signedBy == st.master then Some(st.(devices := st.devices[key := Grant(caps.GetOr([]), expires)])) else None
    case RevokeDevice(key, _) =>
      if e.signedBy == st.master then Some(st.(revoked := st.revoked + {key})) else None
    case SetRecovery(_, _, _, _, _) => if e.signedBy == st.master then Some(st) else None
    case ResolveFork(_, _) => if e.signedBy == st.master then Some(st) else None
    case SetDistribution(_) => if e.signedBy == st.master then Some(st) else None
    case AddClaim(id, kind, _, _) =>
      if MayManageClaims(st, e) && id !in st.claimRevoked then
        Some(st.(claimRevoked := st.claimRevoked[id := false], claimTypes := st.claimTypes[id := kind]))
      else None
    case RevokeClaim(id, _) =>
      if MayManageClaims(st, e) && id in st.claimRevoked && !st.claimRevoked[id] then
        Some(st.(claimRevoked := st.claimRevoked[id := true]))
      else None
    case SetClaimOrder(kind, order) =>
      if MayManageClaims(st, e) && OrderAcceptable(st, kind, order) then Some(st) else None
    case RotateMaster(key, _) => if e.signedBy == st.master then Some(st.(master := key)) else None
    case SocialRecovery(key, _, _) => Some(st.(master := key))
    case Genesis(_, _, _, _, _, _, _) => Some(st)
  }

  function Step(c: Crypto, st: State, e: Event): Option<State> {
    if e.prev == Some(st.head) && c.signed(e, e.signedBy) && KnownHash(e.hashAlg) then
      var st' :- Apply(st, e);
      Some(st'.(head := c.hash(e)))
    else None
  }

  function Start(c: Crypto, e: Event): Option<State> {
    if e.body.Genesis? && c.signed(e, e.body.pubkey) && KnownHash(e.hashAlg) then
      Some(State(e.body.pubkey, c.hash(e), map[], {}, map[], map[]))
    else None
  }

  /** The verifier's state at the end of the chain, or None if verification fails. */
  function Replay(c: Crypto, chain: Chain): Option<State> {
    if chain == [] then None
    else if |chain| == 1 then Start(c, chain[0])
    else
      var st :- Replay(c, chain[..|chain| - 1]);
      Step(c, st, chain[|chain| - 1])
  }

  predicate Valid(c: Crypto, chain: Chain) {
    Replay(c, chain).Some?
  }

  // ---------------------------------------------------------------- queries

  datatype ClaimRecord = ClaimRecord(claimId: string, claimType: string, commitment: string, createdAt: int,
                                     expires: Option<int>, eventHash: string, signedBy: string,
                                     revokedAt: Option<int>, revokeReason: Option<string>)

  datatype ClaimStatus = Active | Revoked | Lapsed

  function Status(r: ClaimRecord, t: int): ClaimStatus {
    if r.revokedAt.Some? then Revoked else if Expired(r.expires, t) then Lapsed else Active
  }

  datatype DeviceInfo = DeviceInfo(pubkey: string, encryptionPubkey: string, name: string, capabilities: Option<seq<string>>,
                                   addedAt: int, expires: Option<int>)

  /** The key a genesis, rotation or recovery event makes the master. */
  function MasterSet(e: Event): Option<string> {
    match e.body
    case Genesis(key, _, _, _, _, _, _) => Some(key)
    case RotateMaster(key, _) => Some(key)
    case SocialRecovery(key, _, _) => Some(key)
    case _ => None
  }

  function CurrentMaster(chain: Chain): Option<string> {
    if chain == [] then None
    else
      var e := chain[|chain| - 1];
      if MasterSet(e).Some? then MasterSet(e) else CurrentMaster(chain[..|chain| - 1])
  }

  function ClaimStep(d: Dict<string, ClaimRecord>, e: Event, hash: string): Dict<string, ClaimRecord> {
    match e.body
    case AddClaim(id, kind, commitment, expires) =>
      Put(d, id, ClaimRecord(id, kind, commitment, e.timestamp, expires, hash, e.signedBy, None, None))
    case RevokeClaim(id, reason) =>
      var r := Lookup(d, id);
      if r.Some? then Put(d, id, r.value.(revokedAt := Some(e.timestamp), revokeReason := reason)) else d
    case _ => d
  }

  function ClaimDict(c: Crypto, chain: Chain): Dict<string, ClaimRecord> {
    if chain == [] then []
    else ClaimStep(ClaimDict(c, chain[..|chain| - 1]), chain[|chain| - 1], c.hash(chain[|chain| - 1]))
  }

  /** The device an event puts on the list at time `t`: the genesis key, or an added key that has not expired. */
  function DeviceAdded(e: Event, t: int): Option<DeviceInfo> {
    match e.body
    case Genesis(key, enc, _, _, _, _, _) => Some(DeviceInfo(key, enc, "Primary", Some(["sign", "encrypt"]), e.timestamp, None))
    case AddDevice(key, enc, name, caps, expires) =>
      if Expired(expires, t) then None else Some(DeviceInfo(key, enc, name, caps, e.timestamp, expires))
    case _ => None
  }

  function DeviceDict(chain: Chain, t: int): Dict<string, DeviceInfo> {
    if chain == [] then []
    else
      var d := DeviceDict(chain[..|chain| - 1], t);
      match DeviceAdded(chain[|chain| - 1], t)
      case None => d
      case Some(info) => Put(d, info.pubkey, info)
  }

  predicate Revokes(e: Event, key: string) {
    e.body.RevokeDevice? && e.body.revokedDevice == key
  }

  function RevokedKeys(chain: Chain): set<string> {
    set e | e in chain && e.body.RevokeDevice? :: e.body.revokedDevice
  }

  function RevokedBy(e: Event): set<string> {
    if e.body.RevokeDevice? then {e.body.revokedDevice} else {}
  }

  predicate StillActive(revoked: set<string>, t: int, d: DeviceInfo) {
    d.pubkey !in revoked && !Expired(d.expires, t)
  }

  function ActiveDevices(chain: Chain, t: int): seq<DeviceInfo> {
    var revoked := RevokedKeys(chain);
    Filter(d => StillActive(revoked, t, d), Values(DeviceDict(chain, t)))
  }

  function Claims(c: Crypto, chain: Chain): seq<ClaimRecord> {
    Values(ClaimDict(c, chain))
  }

  function ActiveIds(records: seq<ClaimRecord>, kind: string, t: int): seq<string> {
    if records == [] then []
    else
      var rest := ActiveIds(records[1..], kind, t);
      if records[0].claimType == kind && Status(records[0], t) == Active then [records[0].claimId] + rest else rest
  }

  /** The newest order given for a claim type, or the empty list. */
  function Listed(chain: Chain, kind: string): seq<string> {
    if chain == [] then []
    else
      var e := chain[|chain| - 1];
      if e.body.SetClaimOrder? && e.body.orderType == kind then e.body.order else Listed(chain[..|chain| - 1], kind)
  }

  function Arrange(active: seq<string>, listed: seq<string>): seq<string> {
    var first := Filter(id => id in active, listed);
    first + Filter(id => id !in first, active)
  }

  function ClaimOrder(c: Crypto, chain: Chain, kind: string, t: int): seq<string> {
    Arrange(ActiveIds(Claims(c, chain), kind, t), Listed(chain, kind))
  }

  // ---------------------------------------------------------------- the class

  lemma {:induction false} IntegersAreSerializable(v: Value)
    requires Integers(v)
    ensures Serializable(v)
  {
    match v {
      case List(items) => forall x | x in items ensures Serializable(x) { IntegersAreSerializable(x); }
      case Obj(fields) => forall k | k in fields ensures Serializable(fields[k]) { IntegersAreSerializable(fields[k]); }
      case _ =>
    }
  }

  method TextOf(fields: map<string, Value>) returns (text: string)
    requires Integers(Obj(fields))
    ensures text == Encode(Obj(fields))
  {
    IntegersAreSerializable(Obj(fields));
    var r := Canonicalize(Obj(fields));
    text := r.value;
  }

  method HashOf(p: Primitives, e: Event) returns (hash: string)
    ensures hash == CryptoOf(p).hash(e)
  {
    EventIsIntegers(e);
    var text := TextOf(ToDict(e));
    hash := p.digest(e.hashAlg, text);
  }

  method CheckSignature(p: Primitives, e: Event, key: string) returns (ok: bool)
    ensures ok <==> CryptoOf(p).signed(e, key)
  {
    EventIsIntegers(e);
    var text := TextOf(SignableDict(e));
    ok := p.checks(key, text, e.signature);
  }

  /** The authorization checks, in the order the verifier makes them. */
  method Authorize(st: State, e: Event) returns (r: Option<State>)
    ensures r == Apply(st, e)
  {
    var master, devices, revoked := st.master, st.devices, st.revoked;
    var claimStates, claimTypes := st.claimRevoked, st.claimTypes;
    match e.body {
      case AddDevice(key, _, _, caps, expires) =>
        if e.signedBy != master { return None; }
        devices := devices[key := Grant(caps.GetOr([]), expires)];
      case RevokeDevice(key, _) =>
        if e.signedBy != master { return None; }
        revoked := revoked + {key};
      case SetRecovery(_, _, _, _, _) => if e.signedBy != master { return None; }
      case ResolveFork(_, _) => if e.signedBy != master { return None; }
      case SetDistribution(_) => if e.signedBy != master { return None; }
      case AddClaim(id, kind, _, _) =>
        if !MayManageClaims(st, e) || id in claimStates { return None; }
        claimStates, claimTypes := claimStates[id := false], claimTypes[id := kind];
      case RevokeClaim(id, _) =>
        if !MayManageClaims(st, e) || id !in claimStates || claimStates[id] { return None; }
        claimStates := claimStates[id := true];
      case SetClaimOrder(kind, order) =>
        if !MayManageClaims(st, e) || |order| < 1 || |order| > MAX_ORDER || !NoDuplicates(order) { return None; }
        for j := 0 to |order|
          invariant forall k :: 0 <= k < j ==> Orderable(st, kind, order[k])
        {
          var id := order[j];
          if id !in claimStates || claimStates[id] || id !in claimTypes || claimTypes[id] != kind { return None; }
        }
      case RotateMaster(key, _) =>
        if e.signedBy != master { return None; }
        master := key;
      case SocialRecovery(key, _, _) => master := key;
      case Genesis(_, _, _, _, _, _, _) =>
    }
    return Some(State(master, st.head, devices, revoked, claimStates, claimTypes));
  }

  /** The checks on the first event. */
  method CheckGenesis(p: Primitives, e: Event) returns (r: Option<State>)
    ensures r == Start(CryptoOf(p), e)
  {
    if !e.body.Genesis? { return None; }
    var signed := CheckSignature(p, e, e.body.pubkey);
    if !signed || !KnownHash(e.hashAlg) { return None; }
    var hash := HashOf(p, e);
    return Some(State(e.body.pubkey, hash, map[], {}, map[], map[]));
  }

  /** The checks on each later event: link, signature, authorization, hash. */
  method CheckEvent(p: Primitives, st: State, e: Event) returns (r: Option<State>)
    ensures r == Step(CryptoOf(p), st, e)
  {
    if e.prev != Some(st.head) { return None; }
    var signed := CheckSignature(p, e, e.signedBy);
    if !signed { return None; }
    var authorized := Authorize(st, e);
    if authorized.None? || !KnownHash(e.hashAlg) { return None; }
    var hash := HashOf(p, e);
    return Some(authorized.value.(head := hash));
  }

  lemma DevicesNext(chain: Chain, i: nat, t: int)
    requires i < |chain|
    ensures RevokedKeys(chain[..i + 1]) == RevokedKeys(chain[..i]) + RevokedBy(chain[i])
    ensures var added := DeviceAdded(chain[i], t); var before := DeviceDict(chain[..i], t);
      DeviceDict(chain[..i + 1], t) == if added.Some? then Put(before, added.value.pubkey, added.value) else before
  {
    assert chain[..i + 1] == chain[..i] + [chain[i]] && chain[..i + 1][..i] == chain[..i];
  }

  class Sigchain {
    var events: Chain

    constructor (events: Chain)
      ensures this.events == events
    {
      this.events := events;
    }

    method Append(e: Event)
      modifies this
      ensures events == old(events) + [e]
    {
      events := events + [e];
    }

    /** Checks hashes, signatures and authorization in one pass. */
    method Verify(p: Primitives) returns (ok: bool)
      ensures ok <==> Valid(CryptoOf(p), events)
    {
      ghost var c := CryptoOf(p);
      if events == [] { return false; }
      var started := CheckGenesis(p, events[0]);
      assert events[..1] == [events[0]];
      if started.None? {
        NoneStaysNone(c, events, 1);
        return false;
      }
      var st := started.value;
      for i := 1 to |events|
        invariant Replay(c, events[..i]) == Some(st)
      {
        ReplayStep(c, events, i);
        var next := CheckEvent(p, st, events[i]);
        if next.None? { return false; }
        st := next.value;
      }
      assert events[..|events|] == events;
      return true;
    }

    method GetCurrentMasterKey() returns (key: Option<string>)
      ensures key == CurrentMaster(events)
    {
      key := None;
      for i := 0 to |events|
        invariant key == CurrentMaster(events[..i])
      {
        assert events[..i + 1][..i] == events[..i];
        match events[i].body {
          case Genesis(k, _, _, _, _, _, _) => key := Some(k);
          case RotateMaster(k, _) => key := Some(k);
          case SocialRecovery(k, _, _) => key := Some(k);
          case _ =>
        }
      }
      assert events[..|events|] == events;
    }

    method GetActiveDevices(t: int) returns (active: seq<DeviceInfo>)
      ensures active == ActiveDevices(events, t)
    {
      var devices: Dict<string, DeviceInfo> := [];
      var revoked: set<string> := {};
      for i := 0 to |events|
        invariant devices == DeviceDict(events[..i], t)
        invariant revoked == RevokedKeys(events[..i])
      {
        var e := events[i];
        DevicesNext(events, i, t);
        match e.body {
          case Genesis(key, enc, _, _, _, _, _) =>
            devices := Put(devices, key, DeviceInfo(key, enc, "Primary", Some(["sign", "encrypt"]), e.timestamp, None));
          case AddDevice(key, enc, name, caps, expires) =>
            if !Expired(expires, t) {
              devices := Put(devices, key, DeviceInfo(key, enc, name, caps, e.timestamp, expires));
            }
          case RevokeDevice(key, _) => revoked := revoked + {key};
          case _ =>
        }
      }
      assert events[..|events|] == events;
      active := KeepActive(Values(devices), revoked, t);
    }

    /** The listed devices that are neither revoked nor expired. */
    static method KeepActive(infos: seq<DeviceInfo>, revoked: set<string>, t: int) returns (active: seq<DeviceInfo>)
      ensures active == Filter(d => StillActive(revoked, t, d), infos)
    {
      active := [];
      for i := 0 to |infos|
        invariant active == Filter(d => StillActive(revoked, t, d), infos[..i])
      {
        FilterConcat(d => StillActive(revoked, t, d), infos[..i], [infos[i]]);
        assert infos[..i + 1] == infos[..i] + [infos[i]];
        if infos[i].pubkey in revoked || Expired(infos[i].expires, t) { continue; }
        active := active + [infos[i]];
      }
      assert infos[..|infos|] == infos;
    }

    method GetClaims(p: Primitives) returns (records: seq<ClaimRecord>)
      ensures records == Claims(CryptoOf(p), events)
    {
      ghost var c := CryptoOf(p);
      var d: Dict<string, ClaimRecord> := [];
      for i := 0 to |events|
        invariant d == ClaimDict(c, events[..i])
      {
        var e := events[i];
        assert events[..i + 1][..i] == events[..i];
        if e.body.AddClaim? {
          var hash := HashOf(p, e);
          d := ClaimStep(d, e, hash);
        } else {
          d := ClaimStep(d, e, "");
        }
      }
      assert events[..|events|] == events;
      records := Values(d);
    }

    method GetClaimOrder(p: Primitives, kind: string, t: int) returns (ids: seq<string>)
      ensures ids == ClaimOrder(CryptoOf(p), events, kind, t)
    {
      var records := GetClaims(p);
      var active := ActiveIds(records, kind, t);
      var listed: seq<string> := [];
      for i := 0 to |events|
        invariant listed == Listed(events[..i], kind)
      {
        assert events[..i + 1][..i] == events[..i];
        if events[i].body.SetClaimOrder? && events[i].body.orderType == kind {
          listed := events[i].body.order;
        }
      }
      assert events[..|events|] == events;
      ids := Arrange(active, listed);
    }
  }

  lemma ReplayStep(c: Crypto, events: Chain, i: nat)
    requires 1 <= i < |events|
    ensures Replay(c, events[..i]).None? ==> Replay(c, events[..i + 1]).None?
    ensures Replay(c, events[..i]).Some? ==> Replay(c, events[..i + 1]) == Step(c, Replay(c, events[..i]).value, events[i])
    ensures Replay(c, events[..i + 1]).None? ==> !Valid(c, events)
  {
    assert events[..i + 1][..i] == events[..i];
    if Replay(c, events[..i + 1]).None? { NoneStaysNone(c, events, i + 1); }
  }

  lemma {:induction false} NoneStaysNone(c: Crypto, events: Chain, i: nat)
    requires 1 <= i <= |events| && Replay(c, events[..i]).None?
    ensures Replay(c, events).None?
    decreases |events|
  {
    if i == |events| {
      assert events[..i] == events;
    } else {
      assert events[..|events| - 1][..i] == events[..i];
      NoneStaysNone(c, events[..|events| - 1], i);
    }
  }
}
