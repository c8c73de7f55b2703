/** What it takes for a chain to be verified, told from its events alone, without the verifier's state. */
module Validity {
  import opened Options
  import opened Lists
  import opened Events
  import opened Sigchains
  import opened ChainLaws

  // ---------------------------------------------------------------- what the events before say

  /** The key that an event makes the master. */
  ghost predicate MakesMaster(e: Event, key: string) {
    match e.body
    case Genesis(k, _, _, _, _, _, _) => k == key
    case RotateMaster(k, _) => k == key
    case SocialRecovery(k, _, _) => k == key
    case _ => false
  }

  ghost function MasterEvents(): Event -> bool {
    (e: Event) => e.body.Genesis? || e.body.RotateMaster? || e.body.SocialRecovery?
  }

  /** The last event that makes a key the master makes this one. */
  ghost predicate IsMaster(before: Chain, key: string) {
    exists i :: LastWith(MasterEvents(), before, i) && MakesMaster(before[i], key)
  }

  ghost function AddsKey(key: string): Event -> bool {
    (e: Event) => e.body.AddDevice? && e.body.devicePubkey == key
  }

  /** What the last event that adds the key grants it. */
  ghost predicate IsGrant(before: Chain, key: string, capabilities: seq<string>, expires: Option<int>) {
    exists i :: LastWith(AddsKey(key), before, i)
      && before[i].body.capabilities.GetOr([]) == capabilities && before[i].body.deviceExpires == expires
  }

  ghost predicate KeyRevoked(before: Chain, key: string) {
    exists e <- before :: e.body.RevokeDevice? && e.body.revokedDevice == key
  }

  ghost predicate ClaimMade(before: Chain, id: string) {
    exists e <- before :: e.body.AddClaim? && e.body.claimId == id
  }

  ghost predicate ClaimMadeAs(before: Chain, id: string, kind: string) {
    exists e <- before :: e.body.AddClaim? && e.body.claimId == id && e.body.claimType == kind
  }

  ghost predicate ClaimGone(before: Chain, id: string) {
    exists e <- before :: e.body.RevokeClaim? && e.body.revokedClaim == id
  }

  /** The master, or a key whose last add event lets it manage claims at that time and that no event revokes. */
  ghost predicate ManagesClaimsAt(before: Chain, key: string, t: int) {
    || IsMaster(before, key)
    || (!KeyRevoked(before, key)
        && exists capabilities, expires :: IsGrant(before, key, capabilities, expires)
             && "manage_claims" in capabilities
             && !(expires.Some? && expires.value != 0 && expires.value < t))
  }

  /** What the events before allow: who may sign each kind of event, and what it may refer to. */
  ghost predicate Permitted(before: Chain, e: Event) {
    match e.body
    case AddClaim(id, _, _, _) => ManagesClaimsAt(before, e.signedBy, e.timestamp) && !ClaimMade(before, id)
    case RevokeClaim(id, _) =>
      ManagesClaimsAt(before, e.signedBy, e.timestamp) && ClaimMade(before, id) && !ClaimGone(before, id)
    case SetClaimOrder(kind, order) =>
      && ManagesClaimsAt(before, e.signedBy, e.timestamp)
      && 1 <= |order| <= 32
      && (forall i, j :: 0 <= i < j < |order| ==> order[i] != order[j])
      && (forall id <- order :: ClaimMadeAs(before, id, kind) && !ClaimGone(before, id))
    case SocialRecovery(_, _, _) => true
    case Genesis(_, _, _, _, _, _, _) => false
    case _ => IsMaster(before, e.signedBy)
  }

  // ---------------------------------------------------------------- one event more

  lemma MasterNext(before: Chain, e: Event, key: string)
    ensures IsMaster(before + [e], key)
       <==> if MasterEvents()(e) then MakesMaster(e, key) else IsMaster(before, key)
  {
    var more := before + [e];
    forall i ensures LastWith(MasterEvents(), more, i)
                <==> if MasterEvents()(e) then i == |before| else LastWith(MasterEvents(), before, i)
    {
      LastWithSnoc(MasterEvents(), before, e, i);
    }
    if MasterEvents()(e) && MakesMaster(e, key) { assert LastWith(MasterEvents(), more, |before|); }
    if i :| !MasterEvents()(e) && LastWith(MasterEvents(), before, i) && MakesMaster(before[i], key) {
      assert LastWith(MasterEvents(), more, i) && more[i] == before[i];
    }
  }

  lemma GrantNext(before: Chain, e: Event, key: string, capabilities: seq<string>, expires: Option<int>)
    ensures IsGrant(before + [e], key, capabilities, expires)
       <==> if AddsKey(key)(e) then e.body.capabilities.GetOr([]) == capabilities && e.body.deviceExpires == expires
            else IsGrant(before, key, capabilities, expires)
  {
    var more := before + [e];
    forall i ensures LastWith(AddsKey(key), more, i)
                <==> if AddsKey(key)(e) then i == |before| else LastWith(AddsKey(key), before, i)
    {
      LastWithSnoc(AddsKey(key), before, e, i);
    }
    if AddsKey(key)(e) { assert LastWith(AddsKey(key), more, |before|); }
    if i :| !AddsKey(key)(e) && LastWith(AddsKey(key), before, i)
            && before[i].body.capabilities.GetOr([]) == capabilities && before[i].body.deviceExpires == expires {
      assert LastWith(AddsKey(key), more, i) && more[i] == before[i];
    }
  }

  // ---------------------------------------------------------------- the verifier's state is what the events say

  ghost predicate KeysTold(before: Chain, st: State) {
    && (forall key :: IsMaster(before, key) <==> key == st.master)
    && (forall key :: key in st.revoked <==> KeyRevoked(before, key))
    && (forall key, capabilities, expires :: IsGrant(before, key, capabilities, expires)
                                         == (key in st.devices && st.devices[key] == Grant(capabilities, expires)))
  }

  ghost predicate ClaimTold(before: Chain, states: map<string, bool>, id: string) {
    && (id in states <==> ClaimMade(before, id))
    && (id in states ==> (states[id] <==> ClaimGone(before, id)))
    && (ClaimGone(before, id) ==> ClaimMade(before, id))
  }

  ghost predicate ClaimsTold(before: Chain, st: State) {
    && (forall id :: ClaimTold(before, st.claimRevoked, id))
    && (forall id, kind :: ClaimMadeAs(before, id, kind) <==> id in st.claimTypes && st.claimTypes[id] == kind)
  }

  ghost predicate Told(before: Chain, st: State) {
    KeysTold(before, st) && ClaimsTold(before, st)
  }

  lemma KeysToldNext(before: Chain, st: State, e: Event, st': State)
    requires KeysTold(before, st) && Apply(st, e) == Some(st') && !e.body.Genesis?
    ensures KeysTold(before + [e], st')
  {
    var more := before + [e];
    forall key ensures IsMaster(more, key) <==> key == st'.master { MasterNext(before, e, key); }
    forall key, capabilities, expires
      ensures IsGrant(more, key, capabilities, expires)
         <==> key in st'.devices && st'.devices[key] == Grant(capabilities, expires)
    {
      GrantNext(before, e, key, capabilities, expires);
    }
    forall key ensures key in st'.revoked <==> KeyRevoked(more, key) { RevokedNext(before, e, key); }
  }

  lemma RevokedNext(before: Chain, e: Event, key: string)
    ensures KeyRevoked(before + [e], key)
       <==> KeyRevoked(before, key) || (e.body.RevokeDevice? && e.body.revokedDevice == key)
  {
    assert e in before + [e];
  }

  lemma ClaimsNext(before: Chain, e: Event, id: string)
    ensures ClaimMade(before + [e], id) <==> ClaimMade(before, id) || (e.body.AddClaim? && e.body.claimId == id)
    ensures ClaimGone(before + [e], id) <==> ClaimGone(before, id) || (e.body.RevokeClaim? && e.body.revokedClaim == id)
  {
    assert e in before + [e];
  }

  lemma KindsNext(before: Chain, e: Event, id: string, kind: string)
    ensures ClaimMadeAs(before + [e], id, kind)
       <==> ClaimMadeAs(before, id, kind) || (e.body.AddClaim? && e.body.claimId == id && e.body.claimType == kind)
  {
    assert e in before + [e];
  }

  lemma MadeAsSome(before: Chain, id: string)
    ensures ClaimMade(before, id) <==> exists kind :: ClaimMadeAs(before, id, kind)
  {
    if ClaimMade(before, id) {
      var e :| e in before && e.body.AddClaim? && e.body.claimId == id;
      assert ClaimMadeAs(before, id, e.body.claimType);
    }
  }

  /** What an accepted event does to the states of claims. */
  ghost predicate Restated(states: map<string, bool>, e: Event, states': map<string, bool>) {
    if e.body.AddClaim? then e.body.claimId !in states && states' == states[e.body.claimId := false]
    else if e.body.RevokeClaim? then e.body.revokedClaim in states && states' == states[e.body.revokedClaim := true]
    else states' == states
  }

  lemma ApplyRestates(st: State, e: Event)
    requires Apply(st, e).Some?
    ensures Restated(st.claimRevoked, e, Apply(st, e).value.claimRevoked)
  {
  }

  lemma ClaimsToldNext(before: Chain, st: State, e: Event, st': State)
    requires ClaimsTold(before, st) && Apply(st, e) == Some(st') && !e.body.Genesis?
    ensures ClaimsTold(before + [e], st')
  {
    var more := before + [e];
    ApplyRestates(st, e);
    forall id ensures ClaimTold(more, st'.claimRevoked, id) {
      assert ClaimTold(before, st.claimRevoked, id);
      ClaimToldNext(before, st.claimRevoked, e, st'.claimRevoked, id);
    }
    forall id, kind ensures ClaimMadeAs(more, id, kind) <==> id in st'.claimTypes && st'.claimTypes[id] == kind {
      KindToldNext(before, st, e, st', id, kind);
    }
  }

  lemma ClaimToldNext(before: Chain, states: map<string, bool>, e: Event, states': map<string, bool>, id: string)
    requires ClaimTold(before, states, id) && Restated(states, e, states')
    ensures ClaimTold(before + [e], states', id)
  {
    ClaimsNext(before, e, id);
  }

  lemma KindToldNext(before: Chain, st: State, e: Event, st': State, id: string, kind: string)
    requires ClaimsTold(before, st) && Apply(st, e) == Some(st') && !e.body.Genesis?
    ensures ClaimMadeAs(before + [e], id, kind) <==> id in st'.claimTypes && st'.claimTypes[id] == kind
  {
    KindsNext(before, e, id, kind);
    MadeAsSome(before, id);
    assert e.body.AddClaim? ==> ClaimTold(before, st.claimRevoked, e.body.claimId);
  }

  lemma StartTold(c: Crypto, e: Event)
    requires Start(c, e).Some?
    ensures Told([e], Start(c, e).value)
  {
    var st := Start(c, e).value;
    forall key ensures IsMaster([e], key) <==> key == st.master {
      assert LastWith(MasterEvents(), [e], 0);
    }
  }

  /** The state the one-pass verifier ends with is what the events say. */
  lemma {:induction false} StateIsTold(c: Crypto, chain: Chain)
    requires Valid(c, chain)
    ensures Told(chain, Replay(c, chain).value)
  {
    var n := |chain| - 1;
    if n == 0 {
      assert chain == [chain[0]];
      StartTold(c, chain[0]);
    } else {
      LastStep(c, chain);
      Linked(c, chain, n);
      StateIsTold(c, chain[..n]);
      assert chain == chain[..n] + [chain[n]];
      var st, st' := Replay(c, chain[..n]).value, Apply(Replay(c, chain[..n]).value, chain[n]).value;
      KeysToldNext(chain[..n], st, chain[n], st');
      ClaimsToldNext(chain[..n], st, chain[n], st');
      SameButHead(chain, st', Replay(c, chain).value);
    }
  }

  lemma SameButHead(chain: Chain, st: State, st': State)
    requires Told(chain, st) && st' == st.(head := st'.head)
    ensures Told(chain, st')
  {
  }

  // ---------------------------------------------------------------- the verifier allows what the events allow

  lemma ManagesAgrees(before: Chain, st: State, e: Event)
    requires KeysTold(before, st)
    ensures MayManageClaims(st, e) <==> ManagesClaimsAt(before, e.signedBy, e.timestamp)
  {
    if MayManageClaims(st, e) && e.signedBy != st.master {
      var g := st.devices[e.signedBy];
      assert IsGrant(before, e.signedBy, g.capabilities, g.expires);
    }
  }

  lemma OrderAgrees(before: Chain, st: State, kind: string, order: seq<string>)
    requires ClaimsTold(before, st)
    ensures OrderAcceptable(st, kind, order) <==>
      && 1 <= |order| <= 32
      && (forall i, j :: 0 <= i < j < |order| ==> order[i] != order[j])
      && (forall id <- order :: ClaimMadeAs(before, id, kind) && !ClaimGone(before, id))
  {
    forall i | 0 <= i < |order|
      ensures Orderable(st, kind, order[i]) <==> ClaimMadeAs(before, order[i], kind) && !ClaimGone(before, order[i])
    {
      MadeAsSome(before, order[i]);
      assert ClaimTold(before, st.claimRevoked, order[i]);
    }
    if forall j :: 0 <= j < |order| ==> Orderable(st, kind, order[j]) {
      forall id | id in order ensures ClaimMadeAs(before, id, kind) && !ClaimGone(before, id) {
        var i :| 0 <= i < |order| && order[i] == id;
      }
    }
  }

  lemma ApplyPermits(before: Chain, st: State, e: Event)
    requires Told(before, st) && !e.body.Genesis?
    ensures Apply(st, e).Some? <==> Permitted(before, e)
  {
    ManagesAgrees(before, st, e);
    match e.body
    case SetClaimOrder(kind, order) => OrderAgrees(before, st, kind, order);
    case AddClaim(id, _, _, _) => assert ClaimTold(before, st.claimRevoked, id);
    case RevokeClaim(id, _) => assert ClaimTold(before, st.claimRevoked, id);
    case _ =>
  }

  /** Each later event names the hash of the one before, is signed by the key it names, uses a known hash algorithm, and is
      permitted by the events before it. */
  ghost predicate Follows(c: Crypto, chain: Chain, k: nat)
    requires 0 < k < |chain|
  {
    var e := chain[k];
    && e.prev == Some(c.hash(chain[k - 1])) && c.signed(e, e.signedBy) && e.hashAlg in {"sha256", "blake2b"}
    && Permitted(chain[..k], e)
  }

  ghost predicate Founds(c: Crypto, e: Event) {
    e.body.Genesis? && c.signed(e, e.body.pubkey) && e.hashAlg in {"sha256", "blake2b"}
  }

  lemma NextIsValid(c: Crypto, chain: Chain)
    requires |chain| > 1 && Valid(c, chain[..|chain| - 1])
    ensures Valid(c, chain) <==> Follows(c, chain, |chain| - 1)
  {
    var n := |chain| - 1;
    var before, e := chain[..n], chain[n];
    StateIsTold(c, before);
    HeadIsLastHash(c, before);
    if !e.body.Genesis? { ApplyPermits(before, Replay(c, before).value, e); }
  }

  ghost predicate AllFollowing(c: Crypto, chain: Chain) {
    forall k :: 0 < k < |chain| ==> Follows(c, chain, k)
  }

  /** A chain is verified exactly if its first event founds it and every later one follows. */
  lemma {:induction false} ValidExactly(c: Crypto, chain: Chain)
    ensures Valid(c, chain)
       <==> chain != [] && Founds(c, chain[0]) && AllFollowing(c, chain)
  {
    var n := |chain| - 1;
    if n > 0 {
      ValidExactly(c, chain[..n]);
      if Valid(c, chain) { PrefixesAreValid(c, chain, n); }
      if Valid(c, chain[..n]) { NextIsValid(c, chain); }
      assert chain[..n][0] == chain[0];
      AllFollow(c, chain);
    }
  }

  lemma AllFollow(c: Crypto, chain: Chain)
    requires |chain| > 1
    ensures AllFollowing(c, chain) <==> AllFollowing(c, chain[..|chain| - 1]) && Follows(c, chain, |chain| - 1)
  {
    var before := chain[..|chain| - 1];
    FollowsPrefix(c, chain);
    if AllFollowing(c, chain) {
      forall k | 0 < k < |before| ensures Follows(c, before, k) { assert Follows(c, chain, k); }
    }
  }

  lemma FollowsPrefix(c: Crypto, chain: Chain)
    requires |chain| > 1
    ensures forall k | 0 < k < |chain| - 1 :: Follows(c, chain[..|chain| - 1], k) <==> Follows(c, chain, k)
  {
    var before := chain[..|chain| - 1];
    forall k | 0 < k < |before| ensures Follows(c, before, k) <==> Follows(c, chain, k) {
      assert before[..k] == chain[..k] && before[k] == chain[k] && before[k - 1] == chain[k - 1];
    }
  }
}
