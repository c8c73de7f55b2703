/** What a verified sigchain guarantees: its hashes fix its past, and the one-pass state agrees with the replay queries. */
module ChainLaws {
  import opened Dicts
  import opened Events
  import opened Options
  import opened Sigchains
  import opened Sorting

  // ---------------------------------------------------------------- prefixes

  /** Every nonempty prefix of a verified chain verifies. */
  lemma PrefixesAreValid(c: Crypto, chain: Chain, n: nat)
    requires Valid(c, chain) && 1 <= n <= |chain|
    ensures Valid(c, chain[..n])
  {
    if Replay(c, chain[..n]).None? { NoneStaysNone(c, chain, n); }
  }

  /** One event more is one step of the verifier more. */
  lemma LastStep(c: Crypto, chain: Chain)
    requires Valid(c, chain) && |chain| > 1
    ensures Valid(c, chain[..|chain| - 1])
    ensures Replay(c, chain) == Step(c, Replay(c, chain[..|chain| - 1]).value, chain[|chain| - 1])
  {
  }

  lemma {:induction false} HeadIsLastHash(c: Crypto, chain: Chain)
    requires Valid(c, chain)
    ensures Replay(c, chain).value.head == c.hash(chain[|chain| - 1])
    ensures chain[0].body.Genesis?
  {
    if |chain| > 1 { HeadIsLastHash(c, chain[..|chain| - 1]); }
  }

  /** Each event but the first names the hash of the one before it. */
  lemma Linked(c: Crypto, chain: Chain, i: nat)
    requires Valid(c, chain) && i < |chain|
    ensures chain[i].prev == if i == 0 then None else Some(c.hash(chain[i - 1]))
    ensures chain[i].body.Genesis? <==> i == 0
  {
    HeadIsLastHash(c, chain);
    if i > 0 {
      PrefixesAreValid(c, chain, i + 1);
      LastStep(c, chain[..i + 1]);
      assert chain[..i + 1][..i] == chain[..i];
      HeadIsLastHash(c, chain[..i]);
    }
  }

  // ---------------------------------------------------------------- a hash fixes the past

  /**
   An event hash occurs at one position only and fixes everything up to it: two verified chains that share a hash
   agree on every event up to that point, and within one chain no hash repeats.
   */
  lemma {:induction false} HashBinding(c: Crypto, a: Chain, i: nat, b: Chain, j: nat)
    requires Injective(c) && Valid(c, a) && Valid(c, b) && i < |a| && j < |b|
    requires c.hash(a[i]) == c.hash(b[j])
    ensures i == j && a[..i + 1] == b[..j + 1]
  {
    Linked(c, a, i);
    Linked(c, b, j);
    if i > 0 {
      HashBinding(c, a, i - 1, b, j - 1);
      assert a[..i + 1] == a[..i] + [a[i]] && b[..j + 1] == b[..j] + [b[j]];
    } else {
      assert a[..1] == [a[0]] && b[..1] == [b[0]];
    }
  }

  lemma HashesDistinct(c: Crypto, chain: Chain, i: nat, j: nat)
    requires Injective(c) && Valid(c, chain) && i < |chain| && j < |chain|
    requires c.hash(chain[i]) == c.hash(chain[j])
    ensures i == j
  {
    HashBinding(c, chain, i, chain, j);
  }

  predicate Contains(c: Crypto, chain: Chain, hash: string) {
    exists i :: 0 <= i < |chain| && c.hash(chain[i]) == hash
  }

  ghost function Head(c: Crypto, chain: Chain): string
    requires chain != []
  {
    c.hash(chain[|chain| - 1])
  }

  /** Holding the head of the signer's chain is the same as holding the signer's whole chain as a prefix. */
  lemma ContainsHeadIffExtends(c: Crypto, signer: Chain, ours: Chain)
    requires Injective(c) && Valid(c, signer) && Valid(c, ours)
    ensures Contains(c, ours, Head(c, signer)) <==> signer <= ours
  {
    var n := |signer|;
    if Contains(c, ours, Head(c, signer)) {
      var i :| 0 <= i < |ours| && c.hash(ours[i]) == Head(c, signer);
      HashBinding(c, signer, n - 1, ours, i);
      assert signer[..n] == signer;
    }
    if signer <= ours {
      assert ours[n - 1] == signer[n - 1];
    }
  }

  // ---------------------------------------------------------------- the pass agrees with replay

  /** The master the verifier ends with is the one `get_current_master_key` finds. */
  lemma {:induction false} MasterAgrees(c: Crypto, chain: Chain)
    requires Valid(c, chain)
    ensures CurrentMaster(chain) == Some(Replay(c, chain).value.master)
  {
    if |chain| > 1 {
      LastStep(c, chain);
      MasterAgrees(c, chain[..|chain| - 1]);
      Linked(c, chain, |chain| - 1);
    }
  }

  /** The verifier's claim tables and the claim records describe the same claims. */
  ghost predicate TablesMatch(st: State, d: Dict<string, ClaimRecord>) {
    && DistinctKeys(d)
    && st.claimRevoked.Keys == st.claimTypes.Keys
    && (forall id :: id in st.claimRevoked <==> Lookup(d, id).Some?)
    && (forall id <- st.claimRevoked :: RecordMatches(st, id, Lookup(d, id).value))
  }

  predicate RecordMatches(st: State, id: string, r: ClaimRecord)
    requires id in st.claimRevoked && st.claimRevoked.Keys == st.claimTypes.Keys
  {
    r.claimId == id && r.claimType == st.claimTypes[id] && (r.revokedAt.Some? <==> st.claimRevoked[id])
  }

  lemma AddedClaimAgrees(st: State, d: Dict<string, ClaimRecord>, id: string, kind: string, r: ClaimRecord)
    requires TablesMatch(st, d) && id !in st.claimRevoked && r.claimId == id && r.claimType == kind && r.revokedAt.None?
    ensures TablesMatch(st.(claimRevoked := st.claimRevoked[id := false], claimTypes := st.claimTypes[id := kind]), Put(d, id, r))
  {
    PutEffect(d, id, r);
  }

  lemma RevokedClaimAgrees(st: State, d: Dict<string, ClaimRecord>, id: string, r: ClaimRecord)
    requires TablesMatch(st, d) && id in st.claimRevoked && r.claimId == id && r.revokedAt.Some?
    requires r.claimType == st.claimTypes[id]
    ensures TablesMatch(st.(claimRevoked := st.claimRevoked[id := true]), Put(d, id, r))
  {
    PutEffect(d, id, r);
  }

  lemma ClaimStepAgrees(st: State, e: Event, d: Dict<string, ClaimRecord>, hash: string)
    requires TablesMatch(st, d) && Apply(st, e).Some?
    ensures TablesMatch(Apply(st, e).value, ClaimStep(d, e, hash))
  {
    match e.body {
      case AddClaim(id, kind, commitment, expires) =>
        AddedClaimAgrees(st, d, id, kind,
                         ClaimRecord(id, kind, commitment, e.timestamp, expires, hash, e.signedBy, None, None));
      case RevokeClaim(id, reason) =>
        assert RecordMatches(st, id, Lookup(d, id).value);
        RevokedClaimAgrees(st, d, id, Lookup(d, id).value.(revokedAt := Some(e.timestamp), revokeReason := reason));
      case _ => SameTables(st, Apply(st, e).value, d);
    }
  }

  lemma SameTables(st: State, st': State, d: Dict<string, ClaimRecord>)
    requires TablesMatch(st, d) && st'.claimRevoked == st.claimRevoked && st'.claimTypes == st.claimTypes
    ensures TablesMatch(st', d)
  {
    forall id | id in st'.claimRevoked ensures RecordMatches(st', id, Lookup(d, id).value) {
      assert RecordMatches(st, id, Lookup(d, id).value);
    }
  }

  /** On a verified chain the one-pass claim states equal the records of `get_claims`. */
  lemma {:induction false} ClaimsAgree(c: Crypto, chain: Chain)
    requires Valid(c, chain)
    ensures TablesMatch(Replay(c, chain).value, ClaimDict(c, chain))
  {
    var n := |chain| - 1;
    if n == 0 {
      assert ClaimDict(c, chain[..0]) == [];
    } else {
      LastStep(c, chain);
      ClaimsAgree(c, chain[..n]);
      ClaimStepAgrees(Replay(c, chain[..n]).value, chain[n], ClaimDict(c, chain[..n]), c.hash(chain[n]));
    }
  }

  /** The claim ids of a chain's add events, in order. */
  function AddedIds(chain: Chain): seq<string> {
    if chain == [] then []
    else
      var e := chain[|chain| - 1];
      AddedIds(chain[..|chain| - 1]) + if e.body.AddClaim? then [e.body.claimId] else []
  }

  /** On a verified chain `get_claims` has one record for each add event, in the order the claims were made. */
  lemma {:induction false} ClaimsInCreationOrder(c: Crypto, chain: Chain)
    requires Valid(c, chain)
    ensures Keys(ClaimDict(c, chain)) == AddedIds(chain)
    ensures NoDuplicates(AddedIds(chain))
  {
    var n := |chain| - 1;
    var e := chain[n];
    var d := ClaimDict(c, chain[..n]);
    ClaimsAgree(c, chain);
    if n == 0 {
      assert d == [] && AddedIds(chain[..0]) == [];
    } else {
      LastStep(c, chain);
      ClaimsAgree(c, chain[..n]);
      ClaimsInCreationOrder(c, chain[..n]);
      match e.body {
        case AddClaim(id, kind, commitment, expires) =>
          LookupIsMembership(d, id);
          PutEffect(d, id, ClaimRecord(id, kind, commitment, e.timestamp, expires, c.hash(e), e.signedBy, None, None));
        case RevokeClaim(id, reason) =>
          LookupIsMembership(d, id);
          PutEffect(d, id, Lookup(d, id).value.(revokedAt := Some(e.timestamp), revokeReason := reason));
        case _ =>
      }
    }
    var keys := Keys(ClaimDict(c, chain));
    assert forall i | 0 <= i < |keys| :: keys[i] == ClaimDict(c, chain)[i].0;
  }

  // ---------------------------------------------------------------- claims only ever end

  /** What later events can do to a record: set its revocation, nothing else. */
  predicate OnlyEnded(r: ClaimRecord, r': ClaimRecord) {
    && r'.(revokedAt := r.revokedAt, revokeReason := r.revokeReason) == r
    && (r.revokedAt.Some? ==> r' == r)
  }

  lemma StepOnlyEnds(c: Crypto, ext: Chain, id: string)
    requires Valid(c, ext) && |ext| > 1 && Lookup(ClaimDict(c, ext[..|ext| - 1]), id).Some?
    ensures Lookup(ClaimDict(c, ext), id).Some?
    ensures OnlyEnded(Lookup(ClaimDict(c, ext[..|ext| - 1]), id).value, Lookup(ClaimDict(c, ext), id).value)
  {
    var e, d := ext[|ext| - 1], ClaimDict(c, ext[..|ext| - 1]);
    LastStep(c, ext);
    ClaimsAgree(c, ext[..|ext| - 1]);
    match e.body {
      case AddClaim(id', kind, commitment, expires) =>
        PutEffect(d, id', ClaimRecord(id', kind, commitment, e.timestamp, expires, c.hash(e), e.signedBy, None, None));
      case RevokeClaim(id', reason) =>
        if Lookup(d, id').Some? {
          PutEffect(d, id', Lookup(d, id').value.(revokedAt := Some(e.timestamp), revokeReason := reason));
        }
      case _ =>
    }
  }

  lemma {:induction false} RecordsOnlyEnd(c: Crypto, chain: Chain, ext: Chain, id: string)
    requires Valid(c, ext) && 1 <= |chain| && chain <= ext
    requires Lookup(ClaimDict(c, chain), id).Some?
    ensures Lookup(ClaimDict(c, ext), id).Some?
    ensures OnlyEnded(Lookup(ClaimDict(c, chain), id).value, Lookup(ClaimDict(c, ext), id).value)
    decreases |ext|
  {
    if |chain| == |ext| {
      assert chain == ext;
    } else {
      var n := |ext| - 1;
      assert chain <= ext[..n];
      LastStep(c, ext);
      RecordsOnlyEnd(c, chain, ext[..n], id);
      StepOnlyEnds(c, ext, id);
    }
  }

  /** A claim that is not active never becomes active again, however late and however long the chain grows. */
  lemma ClaimsStayEnded(c: Crypto, chain: Chain, ext: Chain, id: string, t: int, t': int)
    requires Valid(c, ext) && 1 <= |chain| && chain <= ext && t <= t'
    requires Lookup(ClaimDict(c, chain), id).Some? && Status(Lookup(ClaimDict(c, chain), id).value, t) != Active
    ensures Lookup(ClaimDict(c, ext), id).Some? && Status(Lookup(ClaimDict(c, ext), id).value, t') != Active
  {
    RecordsOnlyEnd(c, chain, ext, id);
  }
}
