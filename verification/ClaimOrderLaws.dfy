/** The holder's preferred order of claims: what is on the list, in which order, and what a revocation does to it. */
module ClaimOrderLaws {
  import opened ChainLaws
  import opened Dicts
  import opened Events
  import opened Lists
  import opened Options
  import opened QueryLaws
  import opened Sigchains
  import opened Sorting

  predicate Counts(r: ClaimRecord, kind: string, t: int) {
    r.claimType == kind && Status(r, t) == Active
  }

  lemma {:induction false} ActiveIdsMembers(records: seq<ClaimRecord>, kind: string, t: int, id: string)
    ensures id in ActiveIds(records, kind, t) <==> exists r <- records :: Counts(r, kind, t) && r.claimId == id
  {
    if records != [] {
      ActiveIdsMembers(records[1..], kind, t, id);
      assert records == [records[0]] + records[1..];
    }
  }

  /** Active ids are the record ids that count, in the records' order. */
  lemma {:induction false} ActiveIdsIsFilter(records: seq<ClaimRecord>, kind: string, t: int, keep: string -> bool)
    requires forall r <- records :: keep(r.claimId) == Counts(r, kind, t)
    ensures ActiveIds(records, kind, t) == Filter(keep, Ids(records))
  {
    if records != [] {
      ActiveIdsIsFilter(records[1..], kind, t, keep);
      assert Ids(records)[1..] == Ids(records[1..]);
    }
  }

  function Ids(records: seq<ClaimRecord>): seq<string> {
    seq(|records|, i requires 0 <= i < |records| => records[i].claimId)
  }

  /** Each record is stored under its own id. */
  lemma {:induction false} IdsAreKeys(c: Crypto, chain: Chain)
    requires Valid(c, chain)
    ensures Ids(Claims(c, chain)) == AddedIds(chain)
  {
    var d := ClaimDict(c, chain);
    ClaimsAgree(c, chain);
    ClaimsInCreationOrder(c, chain);
    forall i | 0 <= i < |d| ensures d[i].1.claimId == d[i].0 {
      LookupIsMembership(d, d[i].0);
    }
    forall i | 0 <= i < |d| ensures Ids(Claims(c, chain))[i] == AddedIds(chain)[i] {
      assert Keys(d)[i] == d[i].0;
    }
    assert |Keys(d)| == |d|;
  }

  /** Whether the claim recorded under `id` is active and of the given type. */
  ghost predicate ActiveClaim(c: Crypto, chain: Chain, kind: string, t: int, id: string) {
    var r := Lookup(ClaimDict(c, chain), id);
    r.Some? && Counts(r.value, kind, t)
  }

  /** On a verified chain the active ids are the ids of the add events whose claims are active, in creation order. */
  lemma ActiveInCreationOrder(c: Crypto, chain: Chain, kind: string, t: int)
    requires Valid(c, chain)
    ensures ActiveIds(Claims(c, chain), kind, t) == Filter(id => ActiveClaim(c, chain, kind, t, id), AddedIds(chain))
  {
    var d := ClaimDict(c, chain);
    var records := Claims(c, chain);
    ClaimsAgree(c, chain);
    forall r | r in records ensures ActiveClaim(c, chain, kind, t, r.claimId) == Counts(r, kind, t) {
      var i :| 0 <= i < |records| && records[i] == r;
      LookupIsMembership(d, d[i].0);
    }
    ActiveIdsIsFilter(records, kind, t, id => ActiveClaim(c, chain, kind, t, id));
    IdsAreKeys(c, chain);
  }

  /** An order on a verified chain lists each claim once. */
  lemma {:induction false} ListedOnce(c: Crypto, chain: Chain, kind: string)
    requires Valid(c, chain)
    ensures NoDuplicates(Listed(chain, kind))
  {
    var n := |chain| - 1;
    if n > 0 {
      LastStep(c, chain);
      ListedOnce(c, chain[..n], kind);
    } else {
      HeadIsLastHash(c, chain);
      assert Listed(chain[..0], kind) == [];
    }
  }

  /** Where `a` stands relative to `b`: claims of the newest order in its order, before the others in creation order. */
  ghost predicate Preferred(chain: Chain, kind: string, a: string, b: string) {
    exists order :: InForce(chain, kind, order) && PreferredBy(order, AddedIds(chain), a, b)
  }

  ghost predicate PreferredBy(order: seq<string>, created: seq<string>, a: string, b: string) {
    Before(order, a, b) || (a in order && b !in order) || (a !in order && b !in order && Before(created, a, b))
  }

  lemma ActiveIdsOnce(c: Crypto, chain: Chain, kind: string, t: int)
    requires Valid(c, chain)
    ensures var active := ActiveIds(Claims(c, chain), kind, t);
      NoDuplicates(active) && forall id :: id in active <==> ActiveClaim(c, chain, kind, t, id)
  {
    var isActive := id => ActiveClaim(c, chain, kind, t, id);
    ActiveInCreationOrder(c, chain, kind, t);
    ClaimsInCreationOrder(c, chain);
    FilterMembers(isActive, AddedIds(chain));
    FilterNoDuplicates(isActive, AddedIds(chain));
    forall id | ActiveClaim(c, chain, kind, t, id) ensures id in AddedIds(chain) {
      var d := ClaimDict(c, chain);
      ClaimsAgree(c, chain);
      LookupIsMembership(d, id);
      var i :| 0 <= i < |d| && d[i].0 == id;
      assert Keys(d)[i] == id;
    }
  }

  lemma ArrangeIsPermutation(active: seq<string>, listed: seq<string>)
    requires NoDuplicates(active) && NoDuplicates(listed)
    ensures NoDuplicates(Arrange(active, listed))
    ensures forall id :: id in Arrange(active, listed) <==> id in active
  {
    var inActive := id => id in active;
    var first := Filter(inActive, listed);
    var notFirst := id => id !in first;
    FilterMembers(inActive, listed);
    FilterNoDuplicates(inActive, listed);
    FilterMembers(notFirst, active);
    FilterNoDuplicates(notFirst, active);
    var rest := Filter(notFirst, active);
    assert Arrange(active, listed) == first + rest;
    assert forall id :: id in first + rest <==> id in first || id in rest;
    ConcatNoDuplicates(first, rest);
  }

  /** `claim_order` lists each active claim of the type exactly once and nothing else. */
  lemma ClaimOrderIsPermutation(c: Crypto, chain: Chain, kind: string, t: int)
    requires Valid(c, chain)
    ensures NoDuplicates(ClaimOrder(c, chain, kind, t))
    ensures forall id :: id in ClaimOrder(c, chain, kind, t) <==> ActiveClaim(c, chain, kind, t, id)
  {
    ActiveIdsOnce(c, chain, kind, t);
    ListedOnce(c, chain, kind);
    ArrangeIsPermutation(ActiveIds(Claims(c, chain), kind, t), Listed(chain, kind));
  }

  /** An arrangement puts listed ids first, in listed order, and keeps the order of the rest. */
  lemma ArrangeOrder(active: seq<string>, listed: seq<string>, a: string, b: string)
    requires Before(Arrange(active, listed), a, b)
    ensures Before(listed, a, b) || (a in listed && b !in listed) || (a !in listed && b !in listed && Before(active, a, b))
  {
    var inActive := id => id in active;
    var first := Filter(inActive, listed);
    var notFirst := id => id !in first;
    var rest := Filter(notFirst, active);
    FilterMembers(inActive, listed);
    FilterMembers(notFirst, active);
    var order := first + rest;
    assert order == Arrange(active, listed);
    var i, j :| 0 <= i < j < |order| && order[i] == a && order[j] == b;
    if j < |first| {
      assert Before(first, a, b);
      FilterKeepsOrder(inActive, listed, a, b);
    } else if i < |first| {
      assert a in first && rest[j - |first|] == b && b in rest;
    } else {
      assert rest[i - |first|] == a && rest[j - |first|] == b && a in rest && b in rest;
      FilterKeepsOrder(notFirst, active, a, b);
    }
  }

  /** The latest listed order comes first, the rest follows in creation order. */
  lemma ClaimOrderFollowsPreference(c: Crypto, chain: Chain, kind: string, t: int, a: string, b: string)
    requires Valid(c, chain) && Before(ClaimOrder(c, chain, kind, t), a, b)
    ensures Preferred(chain, kind, a, b)
  {
    var active := ActiveIds(Claims(c, chain), kind, t);
    ArrangeOrder(active, Listed(chain, kind), a, b);
    ActiveInCreationOrder(c, chain, kind, t);
    if Before(active, a, b) {
      FilterKeepsOrder(id => ActiveClaim(c, chain, kind, t, id), AddedIds(chain), a, b);
    }
    NewestOrderIsInForce(chain, kind);
    assert PreferredBy(Listed(chain, kind), AddedIds(chain), a, b);
  }

  /** After a revocation the other claims are as active as before. */
  lemma RevocationEndsOne(c: Crypto, chain: Chain, e: Event, kind: string, t: int, id: string)
    requires Valid(c, chain + [e]) && chain != [] && e.body.RevokeClaim?
    ensures Valid(c, chain)
    ensures ActiveClaim(c, chain + [e], kind, t, id) == (id != e.body.revokedClaim && ActiveClaim(c, chain, kind, t, id))
  {
    var ext := chain + [e];
    var gone := e.body.revokedClaim;
    assert ext[..|ext| - 1] == chain && ext[|ext| - 1] == e;
    LastStep(c, ext);
    ClaimsAgree(c, chain);
    var d := ClaimDict(c, chain);
    PutEffect(d, gone, Lookup(d, gone).value.(revokedAt := Some(e.timestamp), revokeReason := e.body.claimReason));
  }

  lemma ActiveAfterRevocation(c: Crypto, chain: Chain, e: Event, kind: string, t: int)
    requires Valid(c, chain + [e]) && chain != [] && e.body.RevokeClaim?
    ensures ActiveIds(Claims(c, chain + [e]), kind, t)
         == Filter(id => id != e.body.revokedClaim, ActiveIds(Claims(c, chain), kind, t))
  {
    var ext := chain + [e];
    var before, after := id => ActiveClaim(c, chain, kind, t, id), id => ActiveClaim(c, ext, kind, t, id);
    var other := (id: string) => id != e.body.revokedClaim;
    var ids := AddedIds(chain);
    RevocationEndsOne(c, chain, e, kind, t, "");
    assert ActiveIds(Claims(c, chain), kind, t) == Filter(before, ids) by { ActiveInCreationOrder(c, chain, kind, t); }
    assert ActiveIds(Claims(c, ext), kind, t) == Filter(after, ids) by {
      ActiveInCreationOrder(c, ext, kind, t);
      RevocationAddsNothing(chain, e);
    }
    forall id | id in ids ensures after(id) == (other(id) && before(id)) {
      RevocationEndsOne(c, chain, e, kind, t, id);
    }
    FilterTwice(other, before, after, ids);
  }

  lemma RevocationAddsNothing(chain: Chain, e: Event)
    requires e.body.RevokeClaim?
    ensures AddedIds(chain + [e]) == AddedIds(chain)
  {
    assert (chain + [e])[..|chain|] == chain;
  }

  /** Revoking one claim takes just that claim off the list and moves nothing else. */
  lemma RevokingRemovesOne(c: Crypto, chain: Chain, e: Event, kind: string, t: int)
    requires Valid(c, chain + [e]) && chain != [] && e.body.RevokeClaim?
    ensures ClaimOrder(c, chain + [e], kind, t) == Filter(id => id != e.body.revokedClaim, ClaimOrder(c, chain, kind, t))
  {
    var ext := chain + [e];
    assert ext[..|ext| - 1] == chain && ext[|ext| - 1] == e;
    ActiveAfterRevocation(c, chain, e, kind, t);
    ArrangeWithout(ActiveIds(Claims(c, chain), kind, t), Listed(chain, kind), e.body.revokedClaim);
  }

  /** Taking an id out of the active list takes it out of the arrangement. */
  lemma ArrangeWithout(active: seq<string>, listed: seq<string>, gone: string)
    ensures Arrange(Filter(id => id != gone, active), listed) == Filter(id => id != gone, Arrange(active, listed))
  {
    var other := (id: string) => id != gone;
    var active' := Filter(other, active);
    var first, first' := Filter(id => id in active, listed), Filter(id => id in active', listed);
    FilterMembers(other, active);
    FilterTwice(other, id => id in active, id => id in active', listed);
    assert first' == Filter(other, first);
    FilterMembers(other, first);
    var both := id => id != gone && id !in first;
    FilterTwice(id => id !in first', other, both, active);
    FilterTwice(other, id => id !in first, both, active);
    FilterConcat(other, first, Filter(id => id !in first, active));
  }
}
