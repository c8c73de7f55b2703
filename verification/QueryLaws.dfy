/** What the replay queries answer, told from the events of any chain, verified or not. */
module QueryLaws {
  import opened Options
  import opened Lists
  import opened Dicts
  import opened Events
  import opened Sigchains
  import opened DeviceLaws
  import opened Validity

  // ---------------------------------------------------------------- the master

  /** The master is the key the last event that makes one names. */
  lemma {:induction false} MasterIsTold(chain: Chain, key: string)
    ensures CurrentMaster(chain) == Some(key) <==> IsMaster(chain, key)
  {
    if chain != [] {
      var n := |chain| - 1;
      MasterIsTold(chain[..n], key);
      assert chain == chain[..n] + [chain[n]];
      MasterNext(chain[..n], chain[n], key);
    }
  }

  // ---------------------------------------------------------------- devices

  /** The event lists the key at time `t`: the genesis event its own, an add event one that has not expired. */
  ghost function ListsKey(key: string, t: int): Event -> bool {
    (e: Event) => match e.body
      case Genesis(k, _, _, _, _, _, _) => k == key
      case AddDevice(k, _, _, _, expires) => k == key && !(expires.Some? && expires.value != 0 && expires.value < t)
      case _ => false
  }

  ghost predicate DetailsFrom(e: Event, info: DeviceInfo) {
    match e.body
    case Genesis(key, enc, _, _, _, _, _) =>
      && info.pubkey == key && info.encryptionPubkey == enc && info.name == "Primary"
      && info.capabilities == Some(["sign", "encrypt"]) && info.addedAt == e.timestamp && info.expires == None
    case AddDevice(key, enc, name, capabilities, expires) =>
      && info.pubkey == key && info.encryptionPubkey == enc && info.name == name
      && info.capabilities == capabilities && info.addedAt == e.timestamp && info.expires == expires
    case _ => false
  }

  lemma AddsIsLists(e: Event, key: string, t: int, info: DeviceInfo)
    ensures Adds(e, key, t) == ListsKey(key, t)(e)
    ensures ListsKey(info.pubkey, t)(e) ==> (DeviceAdded(e, t) == Some(info) <==> DetailsFrom(e, info))
  {
  }

  /** A device is listed exactly if no event revokes its key and its details are those of the last event that lists it. */
  lemma DevicesAreTold(chain: Chain, t: int, info: DeviceInfo)
    ensures info in ActiveDevices(chain, t)
       <==> !KeyRevoked(chain, info.pubkey)
            && exists i :: LastWith(ListsKey(info.pubkey, t), chain, i) && DetailsFrom(chain[i], info)
  {
    DeviceActivity(chain, t, info);
    forall i ensures LastAdd(chain, i, info.pubkey, t) <==> LastWith(ListsKey(info.pubkey, t), chain, i) {
      SameLast(chain, i, info.pubkey, t);
    }
    forall e: Event ensures ListsKey(info.pubkey, t)(e) ==> (DeviceAdded(e, t) == Some(info) <==> DetailsFrom(e, info)) {
      AddsIsLists(e, info.pubkey, t, info);
    }
    RevokedIsTold(chain, info.pubkey);
  }

  lemma SameLast(chain: Chain, i: int, key: string, t: int)
    ensures LastAdd(chain, i, key, t) <==> LastWith(ListsKey(key, t), chain, i)
  {
    forall j | 0 <= j < |chain| ensures Adds(chain[j], key, t) == ListsKey(key, t)(chain[j]) {
      AddsIsLists(chain[j], key, t, DeviceInfo(key, "", "", None, 0, None));
    }
  }

  lemma RevokedIsTold(chain: Chain, key: string)
    ensures RevokedIn(chain, key) <==> KeyRevoked(chain, key)
  {
    RevokedKeysAreRevoked(chain, key);
  }

  // ---------------------------------------------------------------- claims

  ghost function AddsClaim(id: string): Event -> bool {
    (e: Event) => e.body.AddClaim? && e.body.claimId == id
  }

  ghost function EndsClaim(id: string): Event -> bool {
    (e: Event) => e.body.RevokeClaim? && e.body.revokedClaim == id
  }

  /** The record says what event `i`, the last that makes the claim, says. */
  ghost predicate MadeBy(c: Crypto, chain: Chain, i: int, r: ClaimRecord)
    requires 0 <= i < |chain| && chain[i].body.AddClaim?
  {
    var e := chain[i];
    && r.claimId == e.body.claimId && r.claimType == e.body.claimType && r.commitment == e.body.commitment
    && r.createdAt == e.timestamp && r.expires == e.body.claimExpires
    && r.eventHash == c.hash(e) && r.signedBy == e.signedBy
  }

  /** The record is revoked by the last event behind `i` that revokes the claim, if there is one. */
  ghost predicate EndedAfter(chain: Chain, i: nat, id: string, r: ClaimRecord) {
    || (r.revokedAt == None && r.revokeReason == None && forall j :: i < j < |chain| ==> !EndsClaim(id)(chain[j]))
    || (exists j :: i < j && LastWith(EndsClaim(id), chain, j)
          && r.revokedAt == Some(chain[j].timestamp) && r.revokeReason == chain[j].body.claimReason)
  }

  ghost predicate RecordTold(c: Crypto, chain: Chain, id: string, found: Option<ClaimRecord>) {
    match found
    case None => forall i :: 0 <= i < |chain| ==> !AddsClaim(id)(chain[i])
    case Some(r) => exists i :: LastWith(AddsClaim(id), chain, i) && MadeBy(c, chain, i, r) && EndedAfter(chain, i, id, r)
  }

  lemma RecordAdded(c: Crypto, before: Chain, e: Event, id: string, r: ClaimRecord)
    requires AddsClaim(id)(e) && MadeBy(c, before + [e], |before|, r) && r.revokedAt == None && r.revokeReason == None
    ensures RecordTold(c, before + [e], id, Some(r))
  {
    LastWithSnoc(AddsClaim(id), before, e, |before|);
    assert LastWith(AddsClaim(id), before + [e], |before|);
  }

  lemma RecordEnded(c: Crypto, before: Chain, e: Event, id: string, r: ClaimRecord)
    requires RecordTold(c, before, id, Some(r)) && EndsClaim(id)(e)
    ensures RecordTold(c, before + [e], id, Some(r.(revokedAt := Some(e.timestamp), revokeReason := e.body.claimReason)))
  {
    var i :| LastWith(AddsClaim(id), before, i) && MadeBy(c, before, i, r) && EndedAfter(before, i, id, r);
    var more, n := before + [e], |before|;
    LastWithSnoc(AddsClaim(id), before, e, i);
    LastWithSnoc(EndsClaim(id), before, e, n);
    assert LastWith(AddsClaim(id), more, i) && more[i] == before[i] && i < n && more[n] == e;
    assert LastWith(EndsClaim(id), more, n);
  }

  lemma RecordStays(c: Crypto, before: Chain, e: Event, id: string, found: Option<ClaimRecord>)
    requires RecordTold(c, before, id, found) && !AddsClaim(id)(e) && !EndsClaim(id)(e)
    ensures RecordTold(c, before + [e], id, found)
  {
    var more := before + [e];
    if found.Some? {
      var r := found.value;
      var i :| LastWith(AddsClaim(id), before, i) && MadeBy(c, before, i, r) && EndedAfter(before, i, id, r);
      LastWithSnoc(AddsClaim(id), before, e, i);
      assert LastWith(AddsClaim(id), more, i) && more[i] == before[i];
      EndStays(before, e, i, id, r);
    }
  }

  lemma EndStays(before: Chain, e: Event, i: int, id: string, r: ClaimRecord)
    requires 0 <= i < |before| && EndedAfter(before, i, id, r) && !EndsClaim(id)(e)
    ensures EndedAfter(before + [e], i, id, r)
  {
    if j :| i < j && LastWith(EndsClaim(id), before, j)
            && r.revokedAt == Some(before[j].timestamp) && r.revokeReason == before[j].body.claimReason {
      LastWithSnoc(EndsClaim(id), before, e, j);
      assert LastWith(EndsClaim(id), before + [e], j) && (before + [e])[j] == before[j];
    }
  }

  lemma NoRecordStays(c: Crypto, before: Chain, e: Event, id: string)
    requires RecordTold(c, before, id, None) && !AddsClaim(id)(e)
    ensures RecordTold(c, before + [e], id, None)
  {
  }

  /** The record of a claim says what the last event that makes it says, and is revoked by the last event behind that
      which revokes it. */
  lemma {:induction false} ClaimsAreTold(c: Crypto, chain: Chain, id: string)
    ensures DistinctKeys(ClaimDict(c, chain))
    ensures RecordTold(c, chain, id, Lookup(ClaimDict(c, chain), id))
  {
    if chain != [] {
      var n := |chain| - 1;
      ClaimsAreTold(c, chain[..n], id);
      assert chain == chain[..n] + [chain[n]];
      ClaimNext(c, ClaimDict(c, chain[..n]), chain[..n], chain[n], id);
    }
  }

  lemma ClaimNext(c: Crypto, d: Dict<string, ClaimRecord>, before: Chain, e: Event, id: string)
    requires DistinctKeys(d) && RecordTold(c, before, id, Lookup(d, id))
    ensures var d' := ClaimStep(d, e, c.hash(e)); DistinctKeys(d') && RecordTold(c, before + [e], id, Lookup(d', id))
  {
    match e.body
    case AddClaim(key, kind, commitment, expires) =>
      var r := ClaimRecord(key, kind, commitment, e.timestamp, expires, c.hash(e), e.signedBy, None, None);
      PutEffect(d, key, r);
      if key == id { RecordAdded(c, before, e, id, r); } else { RecordStays(c, before, e, id, Lookup(d, id)); }
    case RevokeClaim(key, reason) =>
      ClaimNextRevoked(c, d, before, e, id);
    case _ => RecordStays(c, before, e, id, Lookup(d, id));
  }

  lemma ClaimNextRevoked(c: Crypto, d: Dict<string, ClaimRecord>, before: Chain, e: Event, id: string)
    requires DistinctKeys(d) && RecordTold(c, before, id, Lookup(d, id)) && e.body.RevokeClaim?
    ensures var d' := ClaimStep(d, e, c.hash(e)); DistinctKeys(d') && RecordTold(c, before + [e], id, Lookup(d', id))
  {
    var key, found := e.body.revokedClaim, Lookup(d, e.body.revokedClaim);
    if found.Some? {
      PutEffect(d, key, found.value.(revokedAt := Some(e.timestamp), revokeReason := e.body.claimReason));
    }
    if key != id {
      RecordStays(c, before, e, id, Lookup(d, id));
    } else if found.Some? {
      RecordEnded(c, before, e, id, found.value);
    } else {
      NoRecordStays(c, before, e, id);
    }
  }

  /** A record is revoked, lapsed or active: revocation counts for more than the expiry, which is past once time is. */
  lemma StatusIsTold(r: ClaimRecord, t: int)
    ensures Status(r, t) ==
      if r.revokedAt != None then Revoked
      else if exists x :: r.expires == Some(x) && x != 0 && x < t then Lapsed
      else Active
  {
  }

  // ---------------------------------------------------------------- the holder's order

  ghost function Orders(kind: string): Event -> bool {
    (e: Event) => e.body.SetClaimOrder? && e.body.orderType == kind
  }

  /** The order in force: that of the last event that orders claims of the type, or none. */
  ghost predicate InForce(chain: Chain, kind: string, order: seq<string>) {
    || (exists i :: LastWith(Orders(kind), chain, i) && chain[i].body.order == order)
    || (order == [] && forall e <- chain :: !Orders(kind)(e))
  }

  lemma {:induction false} NewestOrderIsInForce(chain: Chain, kind: string)
    ensures InForce(chain, kind, Listed(chain, kind))
  {
    if chain != [] {
      var n := |chain| - 1;
      NewestOrderIsInForce(chain[..n], kind);
      assert chain == chain[..n] + [chain[n]];
      OrderNext(chain[..n], chain[n], kind, Listed(chain[..n], kind));
    }
  }

  lemma OrderNext(before: Chain, e: Event, kind: string, order: seq<string>)
    requires InForce(before, kind, order)
    ensures InForce(before + [e], kind, if Orders(kind)(e) then e.body.order else order)
  {
    var more := before + [e];
    if Orders(kind)(e) {
      LastWithSnoc(Orders(kind), before, e, |before|);
      assert LastWith(Orders(kind), more, |before|) && more[|before|] == e;
    } else if i :| LastWith(Orders(kind), before, i) && before[i].body.order == order {
      LastWithSnoc(Orders(kind), before, e, i);
      assert LastWith(Orders(kind), more, i) && more[i] == before[i];
    }
  }

  /** One order at most is in force. */
  lemma OneOrderInForce(chain: Chain, kind: string, a: seq<string>, b: seq<string>)
    requires InForce(chain, kind, a) && InForce(chain, kind, b)
    ensures a == b
  {
    if i :| LastWith(Orders(kind), chain, i) && chain[i].body.order == a { assert chain[i] in chain; }
    if j :| LastWith(Orders(kind), chain, j) && chain[j].body.order == b { assert chain[j] in chain; }
  }
}
