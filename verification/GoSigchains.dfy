/** The Go reader of sigchains: it verifies events as raw JSON objects. */
module GoSigchains {
  import opened Canonical
  import opened Dicts
  import opened Events
  import opened Json
  import opened Lists
  import opened Options
  import opened Sigchains
  import opened Text

  type Raw = map<string, Value>

  /** 0 stands for "never expires". */
  datatype DeviceState = DeviceState(caps: seq<string>, expires: int)

  datatype GoState = GoState(master: string, hashes: seq<string>, devices: map<string, DeviceState>, revoked: set<string>,
                             claims: map<string, bool>, claimTypes: map<string, string>)

  function StringField(ev: Raw, key: string): Option<string> {
    if key in ev && ev[key].Str? then Some(ev[key].s) else None
  }

  predicate IsInt64(n: int) {
    -0x8000_0000_0000_0000 <= n < 0x8000_0000_0000_0000
  }

  function IntField(ev: Raw, key: string): Option<int> {
    if key in ev && ev[key].Num? then
      var n :- ParseInt(ev[key].lit);
      if IsInt64(n) then Some(n) else None
    else None
  }

  function StringsOf(items: seq<Value>): seq<string> {
    if items == [] then []
    else (if items[0].Str? then [items[0].s] else []) + StringsOf(items[1..])
  }

  /** Absent capabilities mean the default ones; null or malformed ones grant nothing. */
  function CapabilitiesOf(ev: Raw): seq<string> {
    if "capabilities" !in ev then DEFAULT_CAPABILITIES
    else if ev["capabilities"].List? then StringsOf(ev["capabilities"].items)
    else []
  }

  lemma {:induction false} StringsOfMembers(items: seq<Value>, s: string)
    ensures s in StringsOf(items) <==> Str(s) in items
  {
    if items != [] { StringsOfMembers(items[1..], s); }
  }

  /** What an added device may do. */
  lemma GrantsExactly(ev: Raw, cap: string)
    ensures cap in CapabilitiesOf(ev)
       <==> ("capabilities" !in ev
             && cap in {"sign_messages", "sign_files", "sign_identity", "encrypt", "authenticate", "manage_claims"})
            || ("capabilities" in ev && ev["capabilities"].List? && Str(cap) in ev["capabilities"].items)
  {
    if "capabilities" in ev && ev["capabilities"].List? { StringsOfMembers(ev["capabilities"].items, cap); }
  }

  predicate FieldIs(ev: Raw, key: string, text: string) {
    key in ev ==> ev[key] == Str(text)
  }

  predicate HeaderOk(ev: Raw) {
    && StringField(ev, "type").Some? && StringField(ev, "signed_by").Some? && StringField(ev, "signature").Some?
    && FieldIs(ev, "alg", "ed25519") && FieldIs(ev, "hash_alg", "sha256")
  }

  /** Hashing and signature checking of raw events: `signed(ev, key, sig)` checks `sig` on all but the signature. */
  datatype GoCrypto = GoCrypto(hash: Raw -> string, signed: (Raw, string, string) -> bool)

  ghost function GoCryptoOf(p: Primitives): GoCrypto {
    GoCrypto((ev: Raw) => p.digest("sha256", Encode(Obj(ev))),
             (ev: Raw, key: string, sig: string) => p.checks(key, Encode(Obj(ev - {"signature"})), sig))
  }

  /** What every event must pass before its type is looked at. */
  predicate WellSigned(g: GoCrypto, ev: Raw) {
    && HeaderOk(ev)
    && Serializable(Obj(ev))
    && g.signed(ev, StringField(ev, "signed_by").value, StringField(ev, "signature").value)
  }

  predicate MayManage(st: GoState, ev: Raw, signer: string) {
    || signer == st.master
    || (&& signer in st.devices && signer !in st.revoked
        && MANAGE_CLAIMS in st.devices[signer].caps
        && !(st.devices[signer].expires != 0 && st.devices[signer].expires < IntField(ev, "timestamp").GetOr(0)))
  }

  /** Claim `id` of type `kind` exists and is not revoked. */
  predicate MayOrder(st: GoState, kind: string, id: string) {
    id in st.claims && !st.claims[id] && id in st.claimTypes && st.claimTypes[id] == kind
  }

  predicate OrderOk(st: GoState, ev: Raw) {
    && StringField(ev, "claim_type").Some?
    && "order" in ev && ev["order"].List?
    && var items := ev["order"].items;
      && 1 <= |items| <= MAX_ORDER
      && (forall i :: 0 <= i < |items| ==> items[i].Str?)
      && (forall i, j :: 0 <= i < j < |items| ==> items[i] != items[j])
      && (forall i :: 0 <= i < |items| ==> MayOrder(st, StringField(ev, "claim_type").value, items[i].s))
  }

  function GoAddDevice(st: GoState, signer: string, ev: Raw): Option<GoState> {
    if signer != st.master then None
    else
      var key := StringField(ev, "device_pubkey");
      if key.None? then Some(st)
      else Some(st.(devices := st.devices[key.value := DeviceState(CapabilitiesOf(ev), IntField(ev, "expires").GetOr(0))]))
  }

  function GoRevokeDevice(st: GoState, signer: string, ev: Raw): Option<GoState> {
    if signer != st.master then None
    else
      var key := StringField(ev, "device_pubkey");
      if key.None? then Some(st) else Some(st.(revoked := st.revoked + {key.value}))
  }

  function GoAddClaim(st: GoState, signer: string, ev: Raw): Option<GoState> {
    var id :- StringField(ev, "claim_id");
    if MayManage(st, ev, signer) && id !in st.claims then
      Some(st.(claims := st.claims[id := false], claimTypes := st.claimTypes[id := StringField(ev, "claim_type").GetOr("")]))
    else None
  }

  function GoRevokeClaim(st: GoState, signer: string, ev: Raw): Option<GoState> {
    var id :- StringField(ev, "claim_id");
    if MayManage(st, ev, signer) && id in st.claims && !st.claims[id] then Some(st.(claims := st.claims[id := true])) else None
  }

  function GoRotateMaster(st: GoState, signer: string, ev: Raw): Option<GoState> {
    var key :- StringField(ev, "new_pubkey");
    if signer == st.master then Some(st.(master := key)) else None
  }

  /** The checks by type on every event but the first, and their effect. */
  function GoApply(st: GoState, kind: string, signer: string, ev: Raw): Option<GoState> {
    if kind == "add_device" then GoAddDevice(st, signer, ev)
    else if kind == "revoke_device" then GoRevokeDevice(st, signer, ev)
    else if kind == "set_recovery" || kind == "resolve_fork" || kind == "set_distribution" then
      if signer == st.master then Some(st) else None
    else if kind == "set_claim_order" then
      if MayManage(st, ev, signer) && OrderOk(st, ev) then Some(st) else None
    else if kind == "add_claim" then GoAddClaim(st, signer, ev)
    else if kind == "revoke_claim" then GoRevokeClaim(st, signer, ev)
    else if kind == "rotate_master" then GoRotateMaster(st, signer, ev)
    else None
  }

  function GoStart(g: GoCrypto, ev: Raw): Option<GoState> {
    if WellSigned(g, ev) && StringField(ev, "type") == Some("genesis") && StringField(ev, "pubkey").Some?
       && StringField(ev, "pubkey") == StringField(ev, "signed_by") && ("prev" in ev ==> ev["prev"] == Null) then
      Some(GoState(StringField(ev, "pubkey").value, [g.hash(ev)], map[], {}, map[], map[]))
    else None
  }

  function GoStep(g: GoCrypto, st: GoState, ev: Raw): Option<GoState>
    requires st.hashes != []
  {
    if WellSigned(g, ev) && StringField(ev, "prev").GetOr("") == st.hashes[|st.hashes| - 1] then
      var st' :- GoApply(st, StringField(ev, "type").value, StringField(ev, "signed_by").value, ev);
      Some(st'.(hashes := st.hashes + [g.hash(ev)]))
    else None
  }

  /** The reader's state at the end of the chain, or None if it refuses the chain. */
  function GoReplay(g: GoCrypto, raw: seq<Value>): (r: Option<GoState>)
    ensures r.Some? ==> |r.value.hashes| == |raw| > 0
  {
    if raw == [] || !raw[|raw| - 1].Obj? then None
    else if |raw| == 1 then GoStart(g, raw[0].fields)
    else
      var st :- GoReplay(g, raw[..|raw| - 1]);
      GoStep(g, st, raw[|raw| - 1].fields)
  }

  lemma {:induction false} RefusedStaysRefused(g: GoCrypto, raw: seq<Value>, n: nat)
    requires 1 <= n <= |raw| && GoReplay(g, raw[..n]).None?
    ensures GoReplay(g, raw).None?
    decreases |raw|
  {
    if n == |raw| {
      assert raw[..n] == raw;
    } else {
      assert raw[..|raw| - 1][..n] == raw[..n];
      RefusedStaysRefused(g, raw[..|raw| - 1], n);
    }
  }

  lemma GoReplayNext(g: GoCrypto, raw: seq<Value>, i: nat)
    requires i < |raw|
    ensures GoReplay(g, raw[..i + 1]).None? ==> GoReplay(g, raw).None?
    ensures !raw[i].Obj? ==> GoReplay(g, raw[..i + 1]).None?
    ensures i == 0 && raw[0].Obj? ==> GoReplay(g, raw[..1]) == GoStart(g, raw[0].fields)
    ensures i > 0 && raw[i].Obj? && GoReplay(g, raw[..i]).Some? ==>
      GoReplay(g, raw[..i + 1]) == GoStep(g, GoReplay(g, raw[..i]).value, raw[i].fields)
  {
    assert raw[..i + 1][..i] == raw[..i];
    if GoReplay(g, raw[..i + 1]).None? { RefusedStaysRefused(g, raw, i + 1); }
  }

  // ---------------------------------------------------------------- the reader's loop

  method CheckSigned(p: Primitives, ev: Raw) returns (hash: Option<string>)
    ensures var g := GoCryptoOf(p); hash == if WellSigned(g, ev) then Some(g.hash(ev)) else None
  {
    if !HeaderOk(ev) { return None; }
    var text := Canonicalize(Obj(ev));
    if text.None? { return None; }
    var signable := map k | k in ev && k != "signature" :: ev[k];
    assert signable == ev - {"signature"};
    var msg := Canonicalize(Obj(signable));
    assert Serializable(Obj(signable));
    if !p.checks(StringField(ev, "signed_by").value, msg.value, StringField(ev, "signature").value) { return None; }
    return Some(p.digest("sha256", text.value));
  }

  method CheckOrder(st: GoState, ev: Raw) returns (ok: bool)
    ensures ok <==> OrderOk(st, ev)
  {
    if StringField(ev, "claim_type").None? || "order" !in ev || !ev["order"].List? { return false; }
    var kind, items := StringField(ev, "claim_type").value, ev["order"].items;
    if |items| < 1 || |items| > MAX_ORDER { return false; }
    var seen: set<string> := {};
    for i := 0 to |items|
      invariant forall j :: 0 <= j < i ==> items[j].Str? && MayOrder(st, kind, items[j].s)
      invariant seen == set j | 0 <= j < i :: items[j].s
      invariant forall j, k :: 0 <= j < k < i ==> items[j] != items[k]
    {
      if !items[i].Str? || items[i].s in seen { return false; }
      seen := seen + {items[i].s};
      if !MayOrder(st, kind, items[i].s) { return false; }
    }
    return true;
  }

  method CheckByType(st: GoState, kind: string, signer: string, ev: Raw) returns (r: Option<GoState>)
    ensures r == GoApply(st, kind, signer, ev)
  {
    var devices, revoked, claims, claimTypes, master := st.devices, st.revoked, st.claims, st.claimTypes, st.master;
    if kind == "add_device" || kind == "revoke_device" || kind == "set_recovery" || kind == "resolve_fork"
       || kind == "set_distribution" {
      if signer != master { return None; }
      var key := StringField(ev, "device_pubkey");
      if kind == "add_device" && key.Some? {
        devices := devices[key.value := DeviceState(CapabilitiesOf(ev), IntField(ev, "expires").GetOr(0))];
      } else if kind == "revoke_device" && key.Some? {
        revoked := revoked + {key.value};
      }
    } else if kind == "set_claim_order" {
      if !MayManage(st, ev, signer) { return None; }
      var ok := CheckOrder(st, ev);
      if !ok { return None; }
    } else if kind == "add_claim" || kind == "revoke_claim" {
      if !MayManage(st, ev, signer) { return None; }
      var id := StringField(ev, "claim_id");
      if id.None? { return None; }
      if kind == "add_claim" {
        if id.value in claims { return None; }
        claims := claims[id.value := false];
        claimTypes := claimTypes[id.value := StringField(ev, "claim_type").GetOr("")];
      } else {
        if id.value !in claims || claims[id.value] { return None; }
        claims := claims[id.value := true];
      }
    } else if kind == "rotate_master" {
      var key := StringField(ev, "new_pubkey");
      if signer != master || key.None? { return None; }
      master := key.value;
    } else {
      return None;
    }
    return Some(GoState(master, st.hashes, devices, revoked, claims, claimTypes));
  }

  method CheckFirst(p: Primitives, ev: Raw) returns (r: Option<GoState>)
    ensures r == GoStart(GoCryptoOf(p), ev)
  {
    var hash := CheckSigned(p, ev);
    if hash.None? { return None; }
    var pub := StringField(ev, "pubkey");
    if StringField(ev, "type") != Some("genesis") || pub.None? || pub != StringField(ev, "signed_by") { return None; }
    if "prev" in ev && ev["prev"] != Null { return None; }
    return Some(GoState(pub.value, [hash.value], map[], {}, map[], map[]));
  }

  method CheckLater(p: Primitives, st: GoState, ev: Raw) returns (r: Option<GoState>)
    requires st.hashes != []
    ensures r == GoStep(GoCryptoOf(p), st, ev)
  {
    var hash := CheckSigned(p, ev);
    if hash.None? || StringField(ev, "prev").GetOr("") != st.hashes[|st.hashes| - 1] { return None; }
    var next := CheckByType(st, StringField(ev, "type").value, StringField(ev, "signed_by").value, ev);
    if next.None? { return None; }
    return Some(next.value.(hashes := st.hashes + [hash.value]));
  }

  /** Verifies a decoded array of events from genesis. */
  method ParseSigchain(p: Primitives, raw: seq<Value>) returns (r: Option<GoState>)
    ensures r == GoReplay(GoCryptoOf(p), raw)
  {
    ghost var g := GoCryptoOf(p);
    if raw == [] { return None; }
    var st: Option<GoState> := None;
    for i := 0 to |raw|
      invariant i > 0 ==> st.Some? && GoReplay(g, raw[..i]) == st
    {
      GoReplayNext(g, raw, i);
      if !raw[i].Obj? { return None; }
      if i == 0 {
        st := CheckFirst(p, raw[i].fields);
      } else {
        st := CheckLater(p, st.value, raw[i].fields);
      }
      if st.None? { return None; }
    }
    assert raw[..|raw|] == raw;
    return st;
  }

  // ---------------------------------------------------------------- active devices

  datatype GoDevice = GoDevice(pubkey: string, name: string, capabilities: seq<string>, addedAt: int, expires: Option<int>)

  /** The device an event puts on the list at time `now`. */
  function GoDeviceAdded(ev: Raw, now: int): Option<GoDevice> {
    var ts := IntField(ev, "timestamp").GetOr(0);
    if StringField(ev, "type") == Some("genesis") then
      Some(GoDevice(StringField(ev, "pubkey").GetOr(""), "Primary", ["sign", "encrypt"], ts, None))
    else if StringField(ev, "type") == Some("add_device") then
      var key :- StringField(ev, "device_pubkey");
      var e := IntField(ev, "expires");
      var expires := if e.Some? && e.value != 0 then e else None;
      if expires.Some? && expires.value < now then None
      else Some(GoDevice(key, StringField(ev, "label").GetOr(""), CapabilitiesOf(ev), ts, expires))
    else None
  }

  function GoDeviceDict(events: seq<Raw>, now: int): Dict<string, GoDevice> {
    if events == [] then []
    else
      var d := GoDeviceDict(events[..|events| - 1], now);
      match GoDeviceAdded(events[|events| - 1], now)
      case None => d
      case Some(dev) => Put(d, dev.pubkey, dev)
  }

  function GoRevokedBy(ev: Raw): set<string> {
    if StringField(ev, "type") == Some("revoke_device") && StringField(ev, "device_pubkey").Some? then
      {StringField(ev, "device_pubkey").value}
    else {}
  }

  function GoRevoked(events: seq<Raw>): set<string> {
    if events == [] then {}
    else GoRevoked(events[..|events| - 1]) + GoRevokedBy(events[|events| - 1])
  }

  predicate GoStillActive(revoked: set<string>, now: int, d: GoDevice) {
    d.pubkey !in revoked && !(d.expires.Some? && d.expires.value < now)
  }

  function GoActiveDevices(events: seq<Raw>, now: int): seq<GoDevice> {
    var revoked := GoRevoked(events);
    Filter(d => GoStillActive(revoked, now, d), Values(GoDeviceDict(events, now)))
  }

  lemma {:induction false} KeysArePubkeys(events: seq<Raw>, now: int)
    ensures var d := GoDeviceDict(events, now);
      DistinctKeys(d) && forall i :: 0 <= i < |d| ==> d[i].1.pubkey == d[i].0
  {
    if events != [] {
      var d := GoDeviceDict(events[..|events| - 1], now);
      KeysArePubkeys(events[..|events| - 1], now);
      var added := GoDeviceAdded(events[|events| - 1], now);
      if added.Some? {
        PutEffect(d, added.value.pubkey, added.value);
        PutOwnKeys(d, added.value);
      }
    }
  }

  lemma {:induction false} PutOwnKeys(d: Dict<string, GoDevice>, dev: GoDevice)
    requires forall i :: 0 <= i < |d| ==> d[i].1.pubkey == d[i].0
    ensures var d' := Put(d, dev.pubkey, dev); forall i :: 0 <= i < |d'| ==> d'[i].1.pubkey == d'[i].0
  {
    var d' := Put(d, dev.pubkey, dev);
    if d != [] && d[0].0 != dev.pubkey {
      PutOwnKeys(d[1..], dev);
      forall i | 0 <= i < |d'| ensures d'[i].1.pubkey == d'[i].0 {
        if i > 0 { assert d'[i] == Put(d[1..], dev.pubkey, dev)[i - 1]; }
      }
    }
  }

  /** A Go map with a slice of its keys in insertion order is a Python dictionary. */
  ghost predicate Represents(devices: map<string, GoDevice>, order: seq<string>, d: Dict<string, GoDevice>) {
    && order == Keys(d)
    && (forall k :: k in devices <==> Lookup(d, k).Some?)
    && (forall k <- devices :: Lookup(d, k) == Some(devices[k]))
  }

  lemma RepresentsPut(devices: map<string, GoDevice>, order: seq<string>, d: Dict<string, GoDevice>, dev: GoDevice)
    requires Represents(devices, order, d) && DistinctKeys(d)
    ensures Represents(devices[dev.pubkey := dev], if dev.pubkey in devices then order else order + [dev.pubkey],
                       Put(d, dev.pubkey, dev))
  {
    LookupIsMembership(d, dev.pubkey);
    PutEffect(d, dev.pubkey, dev);
  }

  lemma OrderedValue(devices: map<string, GoDevice>, order: seq<string>, d: Dict<string, GoDevice>, i: nat)
    requires Represents(devices, order, d) && DistinctKeys(d) && i < |order|
    ensures |d| == |order| && order[i] in devices && devices[order[i]] == Values(d)[i]
  {
    assert Keys(d)[i] == d[i].0;
    LookupIsMembership(d, d[i].0);
  }

  lemma GoDevicesNext(events: seq<Raw>, now: int, i: nat)
    requires i < |events|
    ensures var d, added := GoDeviceDict(events[..i], now), GoDeviceAdded(events[i], now);
      && DistinctKeys(d)
      && GoDeviceDict(events[..i + 1], now) == (if added.None? then d else Put(d, added.value.pubkey, added.value))
    ensures GoRevoked(events[..i + 1]) == GoRevoked(events[..i]) + GoRevokedBy(events[i])
  {
    assert events[..i + 1][..i] == events[..i];
    KeysArePubkeys(events[..i], now);
  }

  /** The device keys that are added, not revoked and not expired. */
  method ListActiveDevices(events: seq<Raw>, now: int) returns (active: seq<GoDevice>)
    ensures active == GoActiveDevices(events, now)
  {
    var devices: map<string, GoDevice> := map[];
    var order: seq<string> := [];
    var revoked: set<string> := {};
    for i := 0 to |events|
      invariant Represents(devices, order, GoDeviceDict(events[..i], now))
      invariant revoked == GoRevoked(events[..i])
    {
      GoDevicesNext(events, now, i);
      var added := GoDeviceAdded(events[i], now);
      if added.Some? {
        RepresentsPut(devices, order, GoDeviceDict(events[..i], now), added.value);
        var key := added.value.pubkey;
        if key !in devices { order := order + [key]; }
        devices := devices[key := added.value];
      }
      revoked := revoked + GoRevokedBy(events[i]);
    }
    assert events[..|events|] == events;
    ghost var d := GoDeviceDict(events, now);
    KeysArePubkeys(events, now);
    active := [];
    for i := 0 to |order|
      invariant active == Filter(x => GoStillActive(revoked, now, x), Values(d)[..i])
    {
      OrderedValue(devices, order, d, i);
      var dev := devices[order[i]];
      FilterNext(x => GoStillActive(revoked, now, x), Values(d), i);
      if dev.pubkey in revoked || (dev.expires.Some? && dev.expires.value < now) { continue; }
      active := active + [dev];
    }
    assert Values(d)[..|order|] == Values(d);
  }
}
