/** The queue of identities to fetch: scheduling, one attempt over all sources, and when a fetch counts as done. */
module FetchQueues {
  import opened Options
  import opened Events
  import opened Sigchains
  import opened ChainLaws
  import opened Fetchers

  const BACKOFF: seq<int> := [5, 15, 60, 300, 900, 3600]
  const MAX_AGE := 24 * 3600
  const MAX_PENDING := 1000
  const MAX_SOURCES := 8
  const MIN_RETRY_GAP := 5

  datatype FetchState = Pending | Done | Abandoned

  datatype Row = Row(hints: seq<string>, wantHead: Option<string>, state: FetchState, attempts: nat, createdAt: int,
                     lastAttemptAt: Option<int>, nextAttemptAt: int)

  /** What asking one source yields; a source that answers with no events was not found there. */
  datatype Answer = Unreachable | Events(raw: Raw)

  /** The chain is there, with the event the signer named if any. */
  ghost predicate Satisfies(c: Crypto, stored: Option<Chain>, want: Option<string>) {
    stored.Some? && (want.Some? ==> Contains(c, stored.value, want.value))
  }

  function StoredAt(storage: map<string, Chain>, id: string): Option<Chain> {
    if id in storage then Some(storage[id]) else None
  }

  /** Every stored chain is its identity's, and what a finished fetch waited for is stored. */
  ghost predicate Settled(c: Crypto, storage: map<string, Chain>, rows: map<string, Row>) {
    && (forall id <- storage :: Belongs(c, id, storage[id]))
    && (forall id <- rows :: rows[id].state == Done ==> Satisfies(c, StoredAt(storage, id), rows[id].wantHead))
  }

  lemma GrowingSettled(c: Crypto, storage: map<string, Chain>, rows: map<string, Row>, id: string, chain: Chain)
    requires Settled(c, storage, rows) && Belongs(c, id, chain) && (id in storage ==> storage[id] <= chain)
    ensures Settled(c, storage[id := chain], rows) && Grown(storage, storage[id := chain])
  {
    var after := storage[id := chain];
    forall i | i in rows && rows[i].state == Done ensures Satisfies(c, StoredAt(after, i), rows[i].wantHead) {
      SatisfiedStays(c, StoredAt(storage, i), StoredAt(after, i), rows[i].wantHead);
    }
  }

  ghost predicate Grown(before: map<string, Chain>, after: map<string, Chain>) {
    forall id <- before :: id in after && before[id] <= after[id]
  }

  lemma SatisfiedStays(c: Crypto, stored: Option<Chain>, later: Option<Chain>, want: Option<string>)
    requires Satisfies(c, stored, want) && later.Some? && stored.value <= later.value
    ensures Satisfies(c, later, want)
  {
    if want.Some? {
      var i :| 0 <= i < |stored.value| && c.hash(stored.value[i]) == want.value;
      assert c.hash(later.value[i]) == want.value;
    }
  }

  /** The row after an attempt that left the wanted chain stored or not. */
  function Attempted(row: Row, satisfied: bool, now: int): Row {
    var attempts := row.attempts + 1;
    if satisfied then row.(state := Done, attempts := attempts, lastAttemptAt := Some(now))
    else row.(attempts := attempts, lastAttemptAt := Some(now),
              nextAttemptAt := now + BACKOFF[if attempts < |BACKOFF| then attempts - 1 else |BACKOFF| - 1])
  }

  /** The data the sources gave, in order. */
  function Fetched(fetch: string -> Answer, sources: seq<string>): seq<Raw> {
    if sources == [] then []
    else
      var earlier := Fetched(fetch, sources[..|sources| - 1]);
      match fetch(sources[|sources| - 1])
      case Events(raw) => if raw == [] then earlier else earlier + [raw]
      case Unreachable => earlier
  }

  /** An answer that brings no events changes nothing. */
  predicate Empty(answer: Answer) {
    answer.Unreachable? || answer.raw == []
  }

  /** The chain stored after asking the sources in turn, up to the first whose data satisfies the fetch. */
  ghost function FetchFrom(c: Crypto, id: string, stored: Option<Chain>, want: Option<string>, fetch: string -> Answer,
                           sources: seq<string>): Option<Chain>
    decreases |sources|
  {
    if sources == [] then stored
    else if Empty(fetch(sources[0])) then FetchFrom(c, id, stored, want, fetch, sources[1..])
    else FetchOn(c, id, Ingested(c, id, stored, fetch(sources[0]).raw), want, fetch, sources)
  }

  ghost function FetchOn(c: Crypto, id: string, next: Option<Chain>, want: Option<string>, fetch: string -> Answer,
                         sources: seq<string>): Option<Chain>
    requires sources != []
    decreases |sources|, 0
  {
    if Satisfies(c, next, want) then next else FetchFrom(c, id, next, want, fetch, sources[1..])
  }

  /** Asking the sources is ingesting the data of some first ones; if not all were asked, the fetch was satisfied. */
  lemma {:induction false} FetchingIsIngesting(c: Crypto, id: string, stored: Option<Chain>, want: Option<string>,
                                               fetch: string -> Answer, sources: seq<string>) returns (n: nat)
    ensures n <= |sources|
    ensures FetchFrom(c, id, stored, want, fetch, sources) == IngestAll(c, id, stored, Fetched(fetch, sources[..n]))
    ensures n < |sources| ==> Satisfies(c, FetchFrom(c, id, stored, want, fetch, sources), want)
    decreases |sources|
  {
    if sources == [] {
      n := 0;
      assert sources[..0] == [];
    } else if Empty(fetch(sources[0])) {
      n := FetchingIsIngesting(c, id, stored, want, fetch, sources[1..]);
      SkipSource(fetch, sources, n);
      assert FetchFrom(c, id, stored, want, fetch, sources) == FetchFrom(c, id, stored, want, fetch, sources[1..]);
      n := n + 1;
    } else {
      n := FetchingOnIsIngesting(c, id, Ingested(c, id, stored, fetch(sources[0]).raw), want, fetch, sources);
      TakeSource(c, id, stored, fetch, sources, n);
      n := n + 1;
    }
  }

  lemma {:induction false} FetchingOnIsIngesting(c: Crypto, id: string, next: Option<Chain>, want: Option<string>,
                                                 fetch: string -> Answer, sources: seq<string>) returns (n: nat)
    requires sources != []
    ensures n < |sources|
    ensures FetchOn(c, id, next, want, fetch, sources) == IngestAll(c, id, next, Fetched(fetch, sources[1..][..n]))
    ensures n + 1 < |sources| ==> Satisfies(c, FetchOn(c, id, next, want, fetch, sources), want)
    decreases |sources|, 0
  {
    if Satisfies(c, next, want) {
      n := 0;
    } else {
      n := FetchingIsIngesting(c, id, next, want, fetch, sources[1..]);
    }
  }

  lemma SkipSource(fetch: string -> Answer, sources: seq<string>, n: nat)
    requires n < |sources| && Empty(fetch(sources[0]))
    ensures Fetched(fetch, sources[..n + 1]) == Fetched(fetch, sources[1..][..n])
  {
    FetchedFirst(fetch, sources[..n + 1]);
    assert sources[..n + 1][1..] == sources[1..][..n];
    assert forall raws: seq<Raw> :: [] + raws == raws;
  }

  lemma TakeSource(c: Crypto, id: string, stored: Option<Chain>, fetch: string -> Answer, sources: seq<string>, n: nat)
    requires n < |sources| && !Empty(fetch(sources[0]))
    ensures IngestAll(c, id, stored, Fetched(fetch, sources[..n + 1]))
         == IngestAll(c, id, Ingested(c, id, stored, fetch(sources[0]).raw), Fetched(fetch, sources[1..][..n]))
  {
    FetchedFirst(fetch, sources[..n + 1]);
    assert sources[..n + 1][1..] == sources[1..][..n];
    IngestFirst(c, id, stored, fetch(sources[0]).raw, Fetched(fetch, sources[1..][..n]));
  }

  lemma {:induction false} FetchedFirst(fetch: string -> Answer, sources: seq<string>)
    requires sources != []
    ensures Fetched(fetch, sources)
         == (if Empty(fetch(sources[0])) then [] else [fetch(sources[0]).raw]) + Fetched(fetch, sources[1..])
  {
    if |sources| > 1 {
      var n := |sources| - 1;
      FetchedFirst(fetch, sources[..n]);
      assert sources[..n][1..] == sources[1..][..n - 1];
    }
  }

  lemma {:induction false} IngestFirst(c: Crypto, id: string, stored: Option<Chain>, raw: Raw, offers: seq<Raw>)
    ensures IngestAll(c, id, stored, [raw] + offers) == IngestAll(c, id, Ingested(c, id, stored, raw), offers)
  {
    var all := [raw] + offers;
    if offers == [] {
      assert all[..0] == [];
    } else {
      IngestFirst(c, id, stored, raw, offers[..|offers| - 1]);
      assert all[..|all| - 1] == [raw] + offers[..|offers| - 1];
    }
  }

  /** Appends what is not there yet. */
  function AddNew(list: seq<string>, more: seq<string>): seq<string> {
    if more == [] then list
    else
      var earlier := AddNew(list, more[..|more| - 1]);
      var last := more[|more| - 1];
      if last in earlier then earlier else earlier + [last]
  }

  function Capped(list: seq<string>): seq<string> {
    if |list| <= MAX_SOURCES then list else list[..MAX_SOURCES]
  }

  /** The addresses that are acceptable, as `validate` writes them. */
  function Validated(validate: string -> Option<string>, urls: seq<string>): seq<string> {
    if urls == [] then []
    else
      var earlier := Validated(validate, urls[..|urls| - 1]);
      match validate(urls[|urls| - 1])
      case Some(url) => earlier + [url]
      case None => earlier
  }

  /** The distribution points the chain names, in order. */
  function Points(chain: Chain): seq<string> {
    if chain == [] then []
    else
      var earlier := Points(chain[..|chain| - 1]);
      match chain[|chain| - 1].body
      case Genesis(_, _, _, _, _, _, Some(points)) => earlier + points
      case SetDistribution(points) => earlier + points
      case _ => earlier
  }

  /** Where to ask: the hints, then what the stored chain names, then the seed nodes. */
  function Sources(validate: string -> Option<string>, hints: seq<string>, stored: Option<Chain>, seeds: seq<string>)
    : (r: seq<string>)
    ensures |r| <= MAX_SOURCES
  {
    Capped(AddNew(AddNew(hints, Validated(validate, if stored.Some? then Points(stored.value) else [])), seeds))
  }

  /** 64 lower-case hex digits; the pattern's `$` also lets one newline follow. */
  predicate IdentityText(id: string) {
    && (|id| == 64 || (|id| == 65 && id[64] == '\n'))
    && forall i :: 0 <= i < 64 ==> '0' <= id[i] <= '9' || 'a' <= id[i] <= 'f'
  }

  function PendingIds(rows: map<string, Row>): set<string> {
    set id | id in rows && rows[id].state == Pending
  }

  function PendingCount(rows: map<string, Row>): nat {
    |PendingIds(rows)|
  }

  function NewRow(hints: seq<string>, want: Option<string>, now: int): Row {
    Row(hints, want, Pending, 0, now, None, now)
  }

  /** A fetch that waits takes the new hints and the newest head wanted, and may be retried at once. */
  function Rescheduled(row: Row, hints: seq<string>, want: Option<string>, now: int): Row {
    row.(hints := Capped(AddNew(row.hints, hints)),
         wantHead := if want.Some? && want.value != "" then want else row.wantHead,
         nextAttemptAt := if (row.lastAttemptAt.None? || now - row.lastAttemptAt.value >= MIN_RETRY_GAP)
                             && now < row.nextAttemptAt then now else row.nextAttemptAt)
  }

  function CleanHints(validate: string -> Option<string>, hints: seq<string>): seq<string> {
    Capped(AddNew([], Validated(validate, hints)))
  }

  /** Whether a fetch is queued, and the rows after. */
  function Scheduled(validate: string -> Option<string>, rows: map<string, Row>, id: string, hints: seq<string>,
                     want: Option<string>, now: int): (map<string, Row>, bool)
  {
    if !IdentityText(id) then (rows, false)
    else if id in rows && rows[id].state == Pending then
      (rows[id := Rescheduled(rows[id], CleanHints(validate, hints), want, now)], true)
    else if id !in rows && PendingCount(rows) >= MAX_PENDING then (rows, false)
    else (rows[id := NewRow(CleanHints(validate, hints), want, now)], true)
  }

  method HashesOf(p: Primitives, chain: Chain) returns (hashes: seq<string>)
    ensures hashes == HashList(CryptoOf(p), chain)
  {
    hashes := [];
    for i := 0 to |chain|
      invariant |hashes| == i && forall k :: 0 <= k < i ==> hashes[k] == CryptoOf(p).hash(chain[k])
    {
      var hash := HashOf(p, chain[i]);
      hashes := hashes + [hash];
    }
  }

  /** Chooses as `ChooseSigchain` does. */
  method Choose(p: Primitives, stored: Option<Chain>, provided: Option<Chain>) returns (r: Choice)
    ensures r == ChooseSigchain(CryptoOf(p), stored, provided)
  {
    if provided.None? { return Chosen(stored); }
    if stored.None? { return Chosen(provided); }
    var s := HashesOf(p, stored.value);
    var o := HashesOf(p, provided.value);
    if s <= o { return Chosen(provided); }
    if o <= s { return Chosen(stored); }
    return Conflict;
  }

  method Parse(raw: Raw) returns (r: Option<Chain>)
    ensures r == ParseChain(raw)
  {
    var chain: Chain := [];
    for i := 0 to |raw|
      invariant ParseChain(raw[..i]) == Some(chain)
    {
      assert raw[..i + 1][..i] == raw[..i];
      var e := FromDict(raw[i]);
      if e.None? {
        ParseStops(raw, i + 1);
        return None;
      }
      chain := chain + [e.value];
    }
    assert raw[..|raw|] == raw;
    return Some(chain);
  }

  lemma {:induction false} ParseStops(raw: Raw, n: nat)
    requires n <= |raw| && ParseChain(raw[..n]).None?
    ensures ParseChain(raw).None?
    decreases |raw|
  {
    if n == |raw| {
      assert raw[..n] == raw;
    } else {
      assert raw[..|raw| - 1][..n] == raw[..n];
      ParseStops(raw[..|raw| - 1], n);
    }
  }

  class IdentityFetcher {
    const p: Primitives
    const validate: string -> Option<string>
    const seeds: seq<string>
    var storage: map<string, Chain>
    var rows: map<string, Row>

    constructor (p: Primitives, validate: string -> Option<string>, seeds: seq<string>, storage: map<string, Chain>)
      ensures this.p == p && this.validate == validate && this.seeds == seeds && this.storage == storage && rows == map[]
    {
      this.p, this.validate, this.seeds, this.storage, rows := p, validate, seeds, storage, map[];
    }

    ghost predicate Valid()
      reads this
    {
      Settled(CryptoOf(p), storage, rows)
    }

    /** Queues a fetch; a finished one starts over. False if the id is malformed or the queue full. */
    method Schedule(id: string, hints: seq<string>, want: Option<string>, now: int) returns (ok: bool)
      requires Valid()
      modifies this`rows
      ensures Valid()
      ensures (rows, ok) == Scheduled(validate, old(rows), id, hints, want, now)
    {
      if !IdentityText(id) { return false; }
      var clean: seq<string> := [];
      for i := 0 to |hints|
        invariant clean == AddNew([], Validated(validate, hints[..i])) && rows == old(rows)
      {
        assert hints[..i + 1][..i] == hints[..i];
        var url := validate(hints[i]);
        if url.Some? {
          ghost var urls := Validated(validate, hints[..i]) + [url.value];
          assert urls[..|urls| - 1] == Validated(validate, hints[..i]);
          if url.value !in clean { clean := clean + [url.value]; }
        }
      }
      assert hints[..|hints|] == hints;
      clean := Capped(clean);
      if id in rows && rows[id].state == Pending {
        rows := rows[id := Rescheduled(rows[id], clean, want, now)];
      } else {
        if id !in rows && PendingCount(rows) >= MAX_PENDING { return false; }
        rows := rows[id := NewRow(clean, want, now)];
      }
      return true;
    }

    method IsSatisfied(id: string, want: Option<string>) returns (ok: bool)
      ensures ok <==> Satisfies(CryptoOf(p), StoredAt(storage, id), want)
    {
      if id !in storage { return false; }
      if want.None? { return true; }
      var chain := storage[id];
      for i := 0 to |chain|
        invariant forall k :: 0 <= k < i ==> CryptoOf(p).hash(chain[k]) != want.value
      {
        var hash := HashOf(p, chain[i]);
        if hash == want.value { return true; }
      }
      return false;
    }

    /** Stores fetched data if it is a longer verified copy; every stored chain only grows. */
    method Ingest(id: string, raw: Raw) returns (changed: bool)
      requires Valid() && CollisionFree(p)
      modifies this`storage
      ensures Valid() && Grown(old(storage), storage)
      ensures StoredAt(storage, id) == Ingested(CryptoOf(p), id, old(StoredAt(storage, id)), raw)
      ensures forall other :: other != id ==> StoredAt(storage, other) == old(StoredAt(storage, other))
      ensures changed <==> storage != old(storage)
    {
      ghost var c := CryptoOf(p);
      HashIdentifiesEvent(p);
      IngestExtends(c, id, StoredAt(storage, id), raw);
      if raw == [] || |raw| > MAX_EVENTS { return false; }
      var parsed := Parse(raw);
      if parsed.None? { return false; }
      var copy := new Sigchain(parsed.value);
      var valid := copy.Verify(p);
      if !valid { return false; }
      var first := HashOf(p, parsed.value[0]);
      if first != id { return false; }
      var stored := StoredAt(storage, id);
      var choice := Choose(p, stored, parsed);
      if choice.Conflict? || choice.chain.None? { return false; }
      if stored.None? || |choice.chain.value| > |stored.value| {
        GrowingSettled(c, storage, rows, id, choice.chain.value);
        storage := storage[id := choice.chain.value];
        return true;
      }
      return false;
    }

    /** Asks the sources in turn until the fetch is satisfied. */
    method FetchAll(id: string, want: Option<string>, sources: seq<string>, fetch: string -> Answer)
      returns (updated: bool)
      requires Valid() && CollisionFree(p)
      modifies this`storage
      ensures Valid() && Grown(old(storage), storage) && (updated <==> storage != old(storage))
      ensures StoredAt(storage, id) == FetchFrom(CryptoOf(p), id, old(StoredAt(storage, id)), want, fetch, sources)
      ensures forall other :: other != id ==> StoredAt(storage, other) == old(StoredAt(storage, other))
    {
      updated := false;
      for i := 0 to |sources|
        invariant Valid() && Grown(old(storage), storage) && (updated <==> storage != old(storage))
        invariant FetchFrom(CryptoOf(p), id, old(StoredAt(storage, id)), want, fetch, sources)
               == FetchFrom(CryptoOf(p), id, StoredAt(storage, id), want, fetch, sources[i..])
        invariant forall other :: other != id ==> StoredAt(storage, other) == old(StoredAt(storage, other))
      {
        assert sources[i..][1..] == sources[i + 1..];
        var answer := fetch(sources[i]);
        if answer.Events? && answer.raw != [] {
          ghost var before := storage;
          var changed := Ingest(id, answer.raw);
          GrownTwice(old(storage), before, storage);
          if storage == old(storage) { GrowthIsNotUndone(before, storage); }
          updated := updated || changed;
          var satisfied := IsSatisfied(id, want);
          if satisfied { return; }
        }
      }
    }

    /** One attempt at a fetch that is due. */
    method Process(id: string, now: int, fetch: string -> Answer) returns (updated: bool)
      requires Valid() && CollisionFree(p) && id in rows
      modifies this`storage, this`rows
      ensures Valid() && Grown(old(storage), storage) && (updated <==> storage != old(storage))
      ensures forall other :: other != id ==> StoredAt(storage, other) == old(StoredAt(storage, other))
      ensures var row := old(rows)[id];
        if now - row.createdAt > 86400 then
          storage == old(storage) && rows == old(rows)[id := row.(state := Abandoned, lastAttemptAt := Some(now))]
        else
          && rows == old(rows)[id := Attempted(row, Satisfies(CryptoOf(p), StoredAt(storage, id), row.wantHead), now)]
          && StoredAt(storage, id) == FetchFrom(CryptoOf(p), id, old(StoredAt(storage, id)), row.wantHead, fetch,
                                                Sources(validate, row.hints, old(StoredAt(storage, id)), seeds))
    {
      var row := rows[id];
      if now - row.createdAt > MAX_AGE {
        rows := rows[id := row.(state := Abandoned, lastAttemptAt := Some(now))];
        return false;
      }
      updated := FetchAll(id, row.wantHead, Sources(validate, row.hints, StoredAt(storage, id), seeds), fetch);
      var satisfied := IsSatisfied(id, row.wantHead);
      rows := rows[id := Attempted(row, satisfied, now)];
    }
  }

  lemma GrowthIsNotUndone(a: map<string, Chain>, b: map<string, Chain>)
    requires Grown(a, b) && Grown(b, a)
    ensures a == b
  {
    forall id | id in a ensures id in b && a[id] == b[id] { SamePrefixes(a[id], b[id]); }
  }

  lemma GrownTwice(a: map<string, Chain>, b: map<string, Chain>, c: map<string, Chain>)
    requires Grown(a, b) && Grown(b, c)
    ensures Grown(a, c)
  {
    forall id | id in a ensures id in c && a[id] <= c[id] {
      assert b[id] <= c[id];
    }
  }
}
