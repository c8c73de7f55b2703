/** The stored sigchains and the explorer's index of them. */
module Explorers {
  import opened Options
  import opened Json
  import opened Events
  import opened Sigchains
  import opened ChainLaws
  import opened Fetchers

  datatype EventRow = EventRow(identity: string, idx: nat, kind: string, timestamp: int, signedBy: string)

  datatype IdentityRow = IdentityRow(name: Option<string>, identityType: string, createdAt: int, lastEventAt: int,
                                     updatedAt: int, eventCount: nat, head: string, master: Option<string>,
                                     deviceCount: nat)

  type Chains = map<string, Chain>
  type EventRows = map<string, EventRow>
  type IdentityRows = map<string, IdentityRow>

  // ---------------------------------------------------------------- what the index should hold

  function RowOf(id: string, chain: Chain, i: nat): EventRow
    requires i < |chain|
  {
    EventRow(id, i, TypeName(chain[i].body), chain[i].timestamp, chain[i].signedBy)
  }

  ghost predicate Stored(c: Crypto, chains: Chains) {
    forall id <- chains :: Belongs(c, id, chains[id])
  }

  /** The position a row stands for is a position of a stored chain, and the row describes it. */
  predicate RowIsTrue(c: Crypto, chains: Chains, hash: string, row: EventRow) {
    && row.identity in chains
    && row.idx < |chains[row.identity]|
    && c.hash(chains[row.identity][row.idx]) == hash
    && row == RowOf(row.identity, chains[row.identity], row.idx)
  }

  ghost predicate PositionHasRow(c: Crypto, chains: Chains, events: EventRows, id: string, i: nat)
    requires id in chains && i < |chains[id]|
  {
    c.hash(chains[id][i]) in events && events[c.hash(chains[id][i])] == RowOf(id, chains[id], i)
  }

  /** Every row is true, and every position of every stored chain has its row. */
  ghost predicate Exact(c: Crypto, chains: Chains, events: EventRows) {
    && (forall h <- events :: RowIsTrue(c, chains, h, events[h]))
    && (forall id, i :: id in chains && 0 <= i < |chains[id]| ==> PositionHasRow(c, chains, events, id, i))
  }

  predicate Founded(chain: Chain) {
    chain != [] && chain[0].body.Genesis?
  }

  /** The row of an identity, as of the two readings of the clock. */
  function IdentityRowOf(c: Crypto, chain: Chain, updatedAt: int, t: int): IdentityRow
    requires Founded(chain)
  {
    var last := chain[|chain| - 1];
    IdentityRow(chain[0].body.name, IdentityTypeName(chain[0].body.identityType), chain[0].timestamp, last.timestamp,
                updatedAt, |chain|, c.hash(last), CurrentMaster(chain), |ActiveDevices(chain, t)|)
  }

  /** Equal but for the time of writing and what was active then. */
  predicate SameIdentity(a: IdentityRow, b: IdentityRow) {
    a.(updatedAt := 0, deviceCount := 0) == b.(updatedAt := 0, deviceCount := 0)
  }

  ghost predicate IdentitiesExact(c: Crypto, chains: Chains, rows: IdentityRows) {
    && rows.Keys == chains.Keys
    && forall id <- rows :: Founded(chains[id])
                         && SameIdentity(rows[id], IdentityRowOf(c, chains[id], 0, 0))
  }

  lemma ExactUnique(c: Crypto, chains: Chains, a: EventRows, b: EventRows)
    requires Exact(c, chains, a) && Exact(c, chains, b)
    ensures a == b
  {
    RowsWithin(c, chains, a, b);
    RowsWithin(c, chains, b, a);
    assert a.Keys == b.Keys;
  }

  lemma RowsWithin(c: Crypto, chains: Chains, a: EventRows, b: EventRows)
    requires Exact(c, chains, a) && Exact(c, chains, b)
    ensures forall h <- a :: h in b && a[h] == b[h]
  {
    forall h | h in a ensures h in b && a[h] == b[h] {
      assert RowIsTrue(c, chains, h, a[h]);
      assert PositionHasRow(c, chains, b, a[h].identity, a[h].idx);
    }
  }

  lemma EventsHaveRows(c: Crypto, chains: Chains, events: EventRows, id: string, hash: string)
    requires Exact(c, chains, events) && id in chains && Contains(c, chains[id], hash)
    ensures hash in events
  {
    var i :| 0 <= i < |chains[id]| && c.hash(chains[id][i]) == hash;
    assert PositionHasRow(c, chains, events, id, i);
  }

  lemma NoRowNoEvent(c: Crypto, chains: Chains, events: EventRows, hash: string)
    requires Exact(c, chains, events) && hash !in events
    ensures forall id <- chains :: !Contains(c, chains[id], hash)
  {
    forall id | id in chains ensures !Contains(c, chains[id], hash) {
      if Contains(c, chains[id], hash) { EventsHaveRows(c, chains, events, id, hash); }
    }
  }

  // ---------------------------------------------------------------- indexing one chain

  function Without(events: EventRows, id: string): EventRows {
    map h | h in events && events[h].identity != id :: events[h]
  }

  /** Inserting the rows of the first `n` events; a row of the same hash is replaced. */
  function WithRows(c: Crypto, events: EventRows, id: string, chain: Chain, n: nat): EventRows
    requires n <= |chain|
  {
    if n == 0 then events
    else WithRows(c, events, id, chain, n - 1)[c.hash(chain[n - 1]) := RowOf(id, chain, n - 1)]
  }

  function Indexed(c: Crypto, events: EventRows, id: string, chain: Chain): EventRows {
    WithRows(c, Without(events, id), id, chain, |chain|)
  }

  ghost predicate IsHashBefore(c: Crypto, chain: Chain, n: nat, h: string)
    requires n <= |chain|
  {
    exists i :: 0 <= i < n && c.hash(chain[i]) == h
  }

  /** No row of the chain replaces another of its rows. */
  lemma {:induction false} RowInserted(c: Crypto, events: EventRows, id: string, chain: Chain, n: nat, i: nat)
    requires Injective(c) && Valid(c, chain) && i < n <= |chain|
    ensures var after := WithRows(c, events, id, chain, n);
      c.hash(chain[i]) in after && after[c.hash(chain[i])] == RowOf(id, chain, i)
  {
    if i < n - 1 {
      RowInserted(c, events, id, chain, n - 1, i);
      if c.hash(chain[i]) == c.hash(chain[n - 1]) { HashesDistinct(c, chain, i, n - 1); }
    }
  }

  lemma {:induction false} RowUntouched(c: Crypto, events: EventRows, id: string, chain: Chain, n: nat, h: string)
    requires n <= |chain| && !IsHashBefore(c, chain, n, h)
    ensures var after := WithRows(c, events, id, chain, n); h in after <==> h in events
    ensures h in events ==> WithRows(c, events, id, chain, n)[h] == events[h]
  {
    if n > 0 {
      assert c.hash(chain[n - 1]) != h;
      RowUntouched(c, events, id, chain, n - 1, h);
    }
  }

  /** Chains of different identities share no event. */
  lemma SharedHashSameIdentity(c: Crypto, id: string, chain: Chain, i: nat, other: string, chain': Chain, j: nat)
    requires Injective(c) && Belongs(c, id, chain) && Belongs(c, other, chain') && i < |chain| && j < |chain'|
    requires c.hash(chain[i]) == c.hash(chain'[j])
    ensures id == other
  {
    HashBinding(c, chain, i, chain', j);
    assert chain[0] == chain[..i + 1][0] == chain'[..j + 1][0] == chain'[0];
  }

  /** No insertion replaces a row of another identity. */
  lemma OthersKept(c: Crypto, chains: Chains, events: EventRows, id: string, chain: Chain, h: string)
    requires Injective(c) && Stored(c, chains) && Belongs(c, id, chain)
    requires h in events && events[h].identity != id && RowIsTrue(c, chains, h, events[h])
    ensures h in Indexed(c, events, id, chain) && Indexed(c, events, id, chain)[h] == events[h]
  {
    var row := events[h];
    if IsHashBefore(c, chain, |chain|, h) {
      var i :| 0 <= i < |chain| && c.hash(chain[i]) == h;
      SharedHashSameIdentity(c, id, chain, i, row.identity, chains[row.identity], row.idx);
    } else {
      RowUntouched(c, Without(events, id), id, chain, |chain|, h);
    }
  }

  /** Saving a chain removes and changes no row of another identity. */
  lemma OthersStay(c: Crypto, chains: Chains, events: EventRows, id: string, chain: Chain)
    requires Injective(c) && Stored(c, chains) && Exact(c, chains, events) && Belongs(c, id, chain)
    ensures forall h <- events :: events[h].identity != id ==>
              h in Indexed(c, events, id, chain) && Indexed(c, events, id, chain)[h] == events[h]
  {
    forall h | h in events && events[h].identity != id
      ensures h in Indexed(c, events, id, chain) && Indexed(c, events, id, chain)[h] == events[h]
    {
      assert RowIsTrue(c, chains, h, events[h]);
      OthersKept(c, chains, events, id, chain, h);
    }
  }

  lemma RowsStayTrue(c: Crypto, chains: Chains, events: EventRows, id: string, chain: Chain, h: string)
    requires Injective(c) && Stored(c, chains) && Exact(c, chains, events) && Belongs(c, id, chain)
    requires h in Indexed(c, events, id, chain)
    ensures RowIsTrue(c, chains[id := chain], h, Indexed(c, events, id, chain)[h])
  {
    if IsHashBefore(c, chain, |chain|, h) {
      var i :| 0 <= i < |chain| && c.hash(chain[i]) == h;
      RowInserted(c, Without(events, id), id, chain, |chain|, i);
    } else {
      RowUntouched(c, Without(events, id), id, chain, |chain|, h);
      assert RowIsTrue(c, chains, h, events[h]);
    }
  }

  lemma PositionsHaveRows(c: Crypto, chains: Chains, events: EventRows, id: string, chain: Chain, other: string, i: nat)
    requires Injective(c) && Stored(c, chains) && Exact(c, chains, events) && Belongs(c, id, chain)
    requires other in chains[id := chain] && i < |chains[id := chain][other]|
    ensures PositionHasRow(c, chains[id := chain], Indexed(c, events, id, chain), other, i)
  {
    if other == id {
      RowInserted(c, Without(events, id), id, chain, |chain|, i);
    } else {
      assert PositionHasRow(c, chains, events, other, i);
      OthersKept(c, chains, events, id, chain, c.hash(chains[other][i]));
    }
  }

  /** Indexing a chain keeps the index exact. */
  lemma IndexingIsExact(c: Crypto, chains: Chains, events: EventRows, id: string, chain: Chain)
    requires Injective(c) && Stored(c, chains) && Exact(c, chains, events) && Belongs(c, id, chain)
    ensures Exact(c, chains[id := chain], Indexed(c, events, id, chain))
  {
    forall h | h in Indexed(c, events, id, chain)
      ensures RowIsTrue(c, chains[id := chain], h, Indexed(c, events, id, chain)[h])
    {
      RowsStayTrue(c, chains, events, id, chain, h);
    }
    var chains' := chains[id := chain];
    forall other, i | other in chains' && 0 <= i < |chains'[other]|
      ensures PositionHasRow(c, chains', Indexed(c, events, id, chain), other, i)
    {
      PositionsHaveRows(c, chains, events, id, chain, other, i);
    }
  }

  /** The whole index is what the stored chains say. */
  ghost predicate Faithful(c: Crypto, chains: Chains, events: EventRows, identities: IdentityRows) {
    Stored(c, chains) && Exact(c, chains, events) && IdentitiesExact(c, chains, identities)
  }

  lemma IdentitiesStayExact(c: Crypto, chains: Chains, rows: IdentityRows, id: string, chain: Chain, now: int, t: int)
    requires IdentitiesExact(c, chains, rows) && Founded(chain)
    ensures IdentitiesExact(c, chains[id := chain], rows[id := IdentityRowOf(c, chain, now, t)])
  {
    SameButForTheClock(c, chain, now, t, 0, 0);
  }

  lemma SameButForTheClock(c: Crypto, chain: Chain, now: int, t: int, now': int, t': int)
    requires Founded(chain)
    ensures SameIdentity(IdentityRowOf(c, chain, now, t), IdentityRowOf(c, chain, now', t'))
  {
  }

  lemma StaysFaithful(c: Crypto, chains: Chains, events: EventRows, identities: IdentityRows, id: string, chain: Chain,
                      now: int, t: int)
    requires Injective(c) && Faithful(c, chains, events, identities) && Belongs(c, id, chain)
    requires Founded(chain)
    ensures Faithful(c, chains[id := chain], Indexed(c, events, id, chain),
                     identities[id := IdentityRowOf(c, chain, now, t)])
  {
    IndexingIsExact(c, chains, events, id, chain);
    IdentitiesStayExact(c, chains, identities, id, chain, now, t);
  }

  lemma FaithfulUnique(c: Crypto, chains: Chains, e: EventRows, i: IdentityRows, e': EventRows, i': IdentityRows)
    requires Faithful(c, chains, e, i) && Faithful(c, chains, e', i')
    ensures e == e' && i.Keys == i'.Keys && forall id <- i :: SameIdentity(i[id], i'[id])
  {
    ExactUnique(c, chains, e, e');
  }

  /** A row says of the event at its position what the event's own dictionary says. */
  ghost predicate Describes(row: EventRow, chain: Chain, id: string) {
    && row.identity == id && row.idx < |chain|
    && var d := ToDict(chain[row.idx]);
    && d["type"] == Str(row.kind) && d["timestamp"] == Int(row.timestamp) && d["signed_by"] == Str(row.signedBy)
  }

  /** Every row describes the event it is indexed by, and every event of a stored chain is described by its row. */
  lemma RowsDescribeEvents(c: Crypto, chains: Chains, events: EventRows)
    requires Exact(c, chains, events)
    ensures forall h <- events ::
              && events[h].identity in chains && Describes(events[h], chains[events[h].identity], events[h].identity)
              && c.hash(chains[events[h].identity][events[h].idx]) == h
    ensures forall id, i :: id in chains && 0 <= i < |chains[id]| ==>
              var h := c.hash(chains[id][i]);
              h in events && events[h].idx == i && Describes(events[h], chains[id], id)
  {
    forall h | h in events
      ensures events[h].identity in chains && Describes(events[h], chains[events[h].identity], events[h].identity)
    {
      assert RowIsTrue(c, chains, h, events[h]);
      RowDescribes(events[h].identity, chains[events[h].identity], events[h].idx);
    }
    forall h | h in events ensures c.hash(chains[events[h].identity][events[h].idx]) == h {
      assert RowIsTrue(c, chains, h, events[h]);
    }
    forall id, i | id in chains && 0 <= i < |chains[id]|
      ensures var h := c.hash(chains[id][i]); h in events && events[h].idx == i && Describes(events[h], chains[id], id)
    {
      assert PositionHasRow(c, chains, events, id, i);
      RowDescribes(id, chains[id], i);
    }
  }

  lemma RowDescribes(id: string, chain: Chain, i: nat)
    requires i < |chain|
    ensures Describes(RowOf(id, chain, i), chain, id) && RowOf(id, chain, i).idx == i
  {
    var e := chain[i];
    HeaderReadBack(e);
    assert HeaderDict(e)["timestamp"] == Int(e.timestamp) && HeaderDict(e)["type"] == Str(TypeName(e.body));
    assert HeaderDict(e)["signed_by"] == Str(e.signedBy);
  }

  /** The row of an identity: what its genesis event says, its first and last times, its head, and what the chain has. */
  lemma IdentityRowExactly(c: Crypto, chain: Chain, updatedAt: int, t: int)
    requires Founded(chain)
    ensures var row, genesis := IdentityRowOf(c, chain, updatedAt, t), ToDict(chain[0]);
      && genesis["name"] == (if row.name.Some? then Str(row.name.value) else Null)
      && genesis["identity_type"] == Str(row.identityType)
      && row.createdAt == chain[0].timestamp && row.lastEventAt == chain[|chain| - 1].timestamp
      && row.updatedAt == updatedAt && row.eventCount == |chain| && row.head == Head(c, chain)
      && row.master == CurrentMaster(chain) && row.deviceCount == |ActiveDevices(chain, t)|
  {
  }

  function Restricted(chains: Chains, ids: seq<string>): Chains {
    map id | id in ids && id in chains :: chains[id]
  }

  lemma RestrictedNext(chains: Chains, ids: seq<string>, i: nat)
    requires i < |ids| && ids[i] in chains
    ensures Restricted(chains, ids[..i + 1]) == Restricted(chains, ids[..i])[ids[i] := chains[ids[i]]]
  {
    assert ids[..i + 1] == ids[..i] + [ids[i]];
  }

  // ---------------------------------------------------------------- the store

  class Store {
    const p: Primitives
    var chains: Chains
    var nameless: seq<Chain>  // stored without an identity: they have no genesis event
    var events: EventRows
    var identities: IdentityRows

    constructor (p: Primitives)
      ensures this.p == p && chains == map[] && nameless == [] && Valid()
    {
      this.p := p;
      nameless := [];
      chains, events, identities := map[], map[], map[];
    }

    ghost predicate Valid()
      reads this
    {
      Faithful(CryptoOf(p), chains, events, identities) && forall chain <- nameless :: !Founded(chain)
    }

    /** Refreshes the rows of one identity; a chain without a genesis event has none. */
    method IndexSigchain(chain: Chain, now: int, t: int)
      modifies this`events, this`identities
      ensures var c := CryptoOf(p);
        if !Founded(chain) then events == old(events) && identities == old(identities)
        else
          && events == Indexed(c, old(events), c.hash(chain[0]), chain)
          && identities == old(identities)[c.hash(chain[0]) := IdentityRowOf(c, chain, now, t)]
    {
      ghost var c := CryptoOf(p);
      if !Founded(chain) { return; }
      var id := HashOf(p, chain[0]);
      events := map h | h in events && events[h].identity != id :: events[h];
      for i := 0 to |chain|
        invariant events == WithRows(c, Without(old(events), id), id, chain, i) && identities == old(identities)
      {
        var hash := HashOf(p, chain[i]);
        events := events[hash := RowOf(id, chain, i)];
      }
      var copy := new Sigchain(chain);
      var active := copy.GetActiveDevices(t);
      var master := copy.GetCurrentMasterKey();
      var head := HashOf(p, chain[|chain| - 1]);
      identities := identities[id := IdentityRow(chain[0].body.name, IdentityTypeName(chain[0].body.identityType),
        chain[0].timestamp, chain[|chain| - 1].timestamp, now, |chain|, head, master, |active|)];
    }

    /** Saves a chain under the hash of its genesis event, or under no identity. If it is verified, the index stays what
        the stored chains say, and rows of other identities stay (`OthersStay`). */
    method SaveSigchain(chain: Chain, now: int, t: int)
      modifies this`chains, this`nameless, this`events, this`identities
      ensures var c := CryptoOf(p);
        if Founded(chain) then
          var id := c.hash(chain[0]);
          && chains == old(chains)[id := chain] && nameless == old(nameless)
          && events == Indexed(c, old(events), id, chain)
          && identities == old(identities)[id := IdentityRowOf(c, chain, now, t)]
        else
          && chains == old(chains) && nameless == old(nameless) + [chain]
          && events == old(events) && identities == old(identities)
      ensures old(Valid()) && CollisionFree(p) && (Founded(chain) ==> Sigchains.Valid(CryptoOf(p), chain)) ==> Valid()
    {
      if Founded(chain) {
        SaveFounded(chain, now, t);
      } else {
        nameless := nameless + [chain];
      }
    }

    method SaveFounded(chain: Chain, now: int, t: int)
      requires Founded(chain)
      modifies this`chains, this`events, this`identities
      ensures var c := CryptoOf(p); var id := c.hash(chain[0]);
        && chains == old(chains)[id := chain]
        && events == Indexed(c, old(events), id, chain)
        && identities == old(identities)[id := IdentityRowOf(c, chain, now, t)]
      ensures old(Valid()) && CollisionFree(p) && Sigchains.Valid(CryptoOf(p), chain) ==> Valid()
    {
      ghost var c := CryptoOf(p);
      if Valid() && CollisionFree(p) && Sigchains.Valid(c, chain) {
        HashIdentifiesEvent(p);
        StaysFaithful(c, chains, events, identities, c.hash(chain[0]), chain, now, t);
      }
      var id := HashOf(p, chain[0]);
      chains := chains[id := chain];
      IndexSigchain(chain, now, t);
    }

    /** Rebuilds the index from the stored chains, read in any order: no row changes but for the clock. */
    method ReindexExplorer(order: seq<string>, now: int, t: int)
      requires CollisionFree(p) && Valid() && forall id :: id in order <==> id in chains
      modifies this`events, this`identities
      ensures Valid() && events == old(events)
      ensures identities.Keys == old(identities).Keys
      ensures forall id <- identities :: SameIdentity(identities[id], old(identities)[id])
    {
      events, identities := map[], map[];
      IndexAll(order, now, t);
      IndexNameless(now, t);
      FaithfulUnique(CryptoOf(p), chains, events, identities, old(events), old(identities));
    }

    /** Chains without an identity leave no row. */
    method IndexNameless(now: int, t: int)
      requires forall chain <- nameless :: !Founded(chain)
      modifies this`events, this`identities
      ensures events == old(events) && identities == old(identities)
    {
      for i := 0 to |nameless|
        invariant events == old(events) && identities == old(identities)
      {
        IndexSigchain(nameless[i], now, t);
      }
    }

    /** Indexes the stored chains one by one into empty tables. */
    method IndexAll(order: seq<string>, now: int, t: int)
      requires CollisionFree(p) && Stored(CryptoOf(p), chains) && events == map[] && identities == map[]
      requires forall id :: id in order <==> id in chains
      modifies this`events, this`identities
      ensures Faithful(CryptoOf(p), chains, events, identities)
    {
      for i := 0 to |order|
        invariant Faithful(CryptoOf(p), Restricted(chains, order[..i]), events, identities)
      {
        RestrictedNext(chains, order, i);
        IndexAgain(order[i], Restricted(chains, order[..i]), now, t);
      }
      assert Restricted(chains, order[..|order|]) == chains;
    }

    /** One stored chain of a rebuild; `done` are the chains indexed before. */
    method IndexAgain(id: string, ghost done: Chains, now: int, t: int)
      requires CollisionFree(p) && id in chains && Belongs(CryptoOf(p), id, chains[id])
      requires Faithful(CryptoOf(p), done, events, identities)
      modifies this`events, this`identities
      ensures Faithful(CryptoOf(p), done[id := chains[id]], events, identities)
    {
      HashIdentifiesEvent(p);
      Linked(CryptoOf(p), chains[id], 0);
      StaysFaithful(CryptoOf(p), done, events, identities, id, chains[id], now, t);
      IndexSigchain(chains[id], now, t);
    }

    /** The event with a hash, found through the index. */
    method GetEvent(hash: string) returns (e: Option<Event>)
      requires CollisionFree(p) && Valid()
      ensures e.Some? ==> CryptoOf(p).hash(e.value) == hash
      ensures e.Some? <==> exists id <- chains :: Contains(CryptoOf(p), chains[id], hash)
      ensures e.Some? ==> exists id <- chains :: e.value in chains[id]
    {
      ghost var c := CryptoOf(p);
      if hash !in events {
        NoRowNoEvent(c, chains, events, hash);
        return None;
      }
      var row := events[hash];
      assert RowIsTrue(c, chains, hash, row);
      if row.identity !in chains || row.idx >= |chains[row.identity]| { return None; }
      assert Contains(c, chains[row.identity], hash);
      return Some(chains[row.identity][row.idx]);
    }
  }
}
