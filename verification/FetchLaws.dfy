/** What the fetch queue keeps of a request, when it tries again, and whom it asks. */
module FetchLaws {
  import opened Options
  import opened Sorting
  import opened Patterns
  import opened Events
  import opened Sigchains
  import opened AuthLaws
  import opened Fetchers
  import opened FetchQueues

  // ---------------------------------------------------------------- lists of addresses

  /** Appending what is new keeps the list, brings all of the rest, and repeats nothing. */
  lemma {:induction false} AddsNew(list: seq<string>, more: seq<string>)
    ensures list <= AddNew(list, more)
    ensures forall x :: x in AddNew(list, more) <==> x in list || x in more
    ensures NoDuplicates(list) ==> NoDuplicates(AddNew(list, more))
  {
    if more != [] {
      var n := |more| - 1;
      AddsNew(list, more[..n]);
      assert more == more[..n] + [more[n]];
    }
  }

  /** What is new comes in the order it is named in. */
  lemma AddsNewNext(list: seq<string>, more: seq<string>, x: string)
    ensures AddNew(list, more + [x]) == AddNew(list, more) + if x in list || x in more then [] else [x]
  {
    assert (more + [x])[..|more|] == more;
    AddsNew(list, more);
  }

  lemma {:induction false} ValidatedExactly(validate: string -> Option<string>, urls: seq<string>, u: string)
    ensures u in Validated(validate, urls) <==> exists url <- urls :: validate(url) == Some(u)
  {
    if urls != [] {
      var n := |urls| - 1;
      ValidatedExactly(validate, urls[..n], u);
      assert urls == urls[..n] + [urls[n]];
    }
  }

  /** The event names the address as a place its identity's chain can be had from. */
  ghost predicate NamesPoint(e: Event, x: string) {
    match e.body
    case Genesis(_, _, _, _, _, _, points) => points.Some? && x in points.value
    case SetDistribution(points) => x in points
    case _ => false
  }

  lemma {:induction false} PointsExactly(chain: Chain, x: string)
    ensures x in Points(chain) <==> exists e <- chain :: NamesPoint(e, x)
  {
    if chain != [] {
      var n := |chain| - 1;
      PointsExactly(chain[..n], x);
      assert chain == chain[..n] + [chain[n]];
      LastNames(chain[..n], chain[n], x);
    }
  }

  lemma LastNames(before: Chain, e: Event, x: string)
    ensures (exists d <- before + [e] :: NamesPoint(d, x)) <==> (exists d <- before :: NamesPoint(d, x)) || NamesPoint(e, x)
  {
    assert e in before + [e];
  }

  /** Somewhere to ask: a hint, an acceptable address the stored chain names, or a seed node. */
  ghost predicate MayAsk(validate: string -> Option<string>, hints: seq<string>, stored: Option<Chain>, seeds: seq<string>,
                         x: string) {
    || x in hints || x in seeds
    || (stored.Some? && exists point :: validate(point) == Some(x) && exists e <- stored.value :: NamesPoint(e, point))
  }

  /** At most eight sources are asked: the hints first, only places that may be asked, and all of them if there are fewer. */
  lemma SourcesExactly(validate: string -> Option<string>, hints: seq<string>, stored: Option<Chain>, seeds: seq<string>)
    ensures var sources := Sources(validate, hints, stored, seeds);
      && |sources| <= 8
      && (if |hints| <= 8 then hints <= sources else sources == hints[..8])
      && (forall x <- sources :: MayAsk(validate, hints, stored, seeds, x))
      && (|sources| < 8 ==> forall x :: MayAsk(validate, hints, stored, seeds, x) ==> x in sources)
      && (NoDuplicates(hints) ==> NoDuplicates(sources))
  {
    var named := Validated(validate, if stored.Some? then Points(stored.value) else []);
    var some := AddNew(hints, named);
    var all := AddNew(some, seeds);
    AddsNew(hints, named);
    AddsNew(some, seeds);
    forall x ensures x in all <==> MayAsk(validate, hints, stored, seeds, x) {
      NamedExactly(validate, stored, x);
    }
    assert Sources(validate, hints, stored, seeds) == if |all| <= 8 then all else all[..8];
  }

  lemma NamedExactly(validate: string -> Option<string>, stored: Option<Chain>, x: string)
    ensures x in Validated(validate, if stored.Some? then Points(stored.value) else [])
       <==> stored.Some? && exists point :: validate(point) == Some(x) && exists e <- stored.value :: NamesPoint(e, point)
  {
    var points := if stored.Some? then Points(stored.value) else [];
    ValidatedExactly(validate, points, x);
    if stored.Some? {
      forall point ensures point in points <==> exists e <- stored.value :: NamesPoint(e, point) {
        PointsExactly(stored.value, point);
      }
    }
  }

  // ---------------------------------------------------------------- scheduling

  /** Eight of the acceptable hints, in order and once each. */
  lemma HintsExactly(validate: string -> Option<string>, hints: seq<string>)
    ensures var clean := CleanHints(validate, hints);
      && |clean| <= 8 && NoDuplicates(clean)
      && (forall u <- clean :: exists hint <- hints :: validate(hint) == Some(u))
      && (|clean| < 8 ==> forall hint <- hints :: validate(hint).Some? ==> validate(hint).value in clean)
  {
    AddsNew([], Validated(validate, hints));
    forall u ensures u in Validated(validate, hints) <==> exists hint <- hints :: validate(hint) == Some(u) {
      ValidatedExactly(validate, hints, u);
    }
  }

  /** A fetch that waits: its hints come first and new ones behind, up to eight; a head asked for replaces the one before;
      and it is due at once unless it was tried less than five seconds ago. */
  lemma RescheduledExactly(row: Row, hints: seq<string>, want: Option<string>, now: int)
    ensures var row' := Rescheduled(row, hints, want, now);
      && row'.wantHead == (if want == None || want == Some("") then row.wantHead else want)
      && row'.state == row.state && row'.attempts == row.attempts && row'.createdAt == row.createdAt
      && row'.lastAttemptAt == row.lastAttemptAt
      && row'.nextAttemptAt == (if (forall last :: row.lastAttemptAt == Some(last) ==> now - last >= 5)
                                   && now < row.nextAttemptAt then now else row.nextAttemptAt)
      && |row'.hints| <= 8 && (|row.hints| <= 8 ==> row.hints <= row'.hints)
      && (forall x <- row'.hints :: x in row.hints || x in hints)
      && (|row'.hints| < 8 ==> forall x :: x in row.hints || x in hints ==> x in row'.hints)
  {
    AddsNew(row.hints, hints);
  }

  /** Only requests for well-formed identities are queued, and new ones while fewer than a thousand wait. */
  lemma SchedulesExactly(validate: string -> Option<string>, rows: map<string, Row>, id: string, hints: seq<string>,
                         want: Option<string>, now: int)
    ensures var (rows', ok) := Scheduled(validate, rows, id, hints, want, now);
      && (ok <==> IdentityText(id) && (id in rows || |set x | x in rows && rows[x].state == Pending| < 1000))
      && (!ok ==> rows' == rows)
      && (ok ==> rows' == rows[id := if id in rows && rows[id].state == Pending then
                                       Rescheduled(rows[id], CleanHints(validate, hints), want, now)
                                     else Row(CleanHints(validate, hints), want, Pending, 0, now, None, now)])
  {
    assert (set x | x in rows && rows[x].state == Pending) == PendingIds(rows);
  }

  /** An identity is a hash in hex; a line break may follow it, as everywhere a pattern ends in `$`. */
  lemma IdentitiesAreHashes(id: string)
    ensures IdentityText(id) <==> Loosely(IsHash, id)
  {
    if IdentityText(id) {
      var hash := id[..64];
      forall c | c in hash ensures HexDigit(c) { var i :| 0 <= i < 64 && hash[i] == c; }
      if |id| == 64 { assert hash == id; } else { assert id[..|id| - 1] == hash; }
    }
    if IsHash(id) { assert forall i | 0 <= i < 64 :: id[i] in id; }
    if Loosely(IsHash, id) && !IsHash(id) {
      var hash := id[..|id| - 1];
      assert forall i | 0 <= i < 64 :: id[i] == hash[i] && hash[i] in hash;
    }
  }

  // ---------------------------------------------------------------- attempts

  /** The seconds until the next attempt after the given number of them. */
  function Delay(attempts: nat): int {
    if attempts <= 1 then 5 else if attempts == 2 then 15 else if attempts == 3 then 60
    else if attempts == 4 then 300 else if attempts == 5 then 900 else 3600
  }

  lemma AttemptedExactly(row: Row, satisfied: bool, now: int)
    ensures var row' := Attempted(row, satisfied, now);
      && row'.attempts == row.attempts + 1 && row'.lastAttemptAt == Some(now)
      && row'.hints == row.hints && row'.wantHead == row.wantHead && row'.createdAt == row.createdAt
      && row'.state == (if satisfied then Done else row.state)
      && row'.nextAttemptAt == (if satisfied then row.nextAttemptAt else now + Delay(row.attempts + 1))
  {
  }

  // ---------------------------------------------------------------- what is stored

  /** A fetch is satisfied by a stored chain with the wanted event on it, or any if none is wanted. */
  lemma SatisfiedExactly(c: Crypto, stored: Option<Chain>, want: Option<string>)
    ensures Satisfies(c, stored, want)
       <==> exists chain :: stored == Some(chain) && forall hash :: want == Some(hash) ==> exists e <- chain :: c.hash(e) == hash
  {
    if stored.Some? && want.Some? { HeldByMember(c, stored.value, want.value); }
  }

  /** Of two verified copies the longer is chosen where it extends the other, and neither where they diverge. */
  lemma ChoosesExactly(c: Crypto, stored: Chain, provided: Chain)
    requires Injective(c) && Valid(c, stored) && Valid(c, provided)
    ensures ChooseSigchain(c, Some(stored), Some(provided)) ==
      if stored <= provided then Chosen(Some(provided)) else if provided <= stored then Chosen(Some(stored)) else Conflict
    ensures ChooseSigchain(c, None, Some(provided)) == Chosen(Some(provided))
    ensures ChooseSigchain(c, Some(stored), None) == Chosen(Some(stored)) && ChooseSigchain(c, None, None) == Chosen(None)
  {
    HashesPrefixIffPrefix(c, stored, provided);
    HashesPrefixIffPrefix(c, provided, stored);
  }

  // ---------------------------------------------------------------- fetched data

  /** A verified chain of the identity of up to 1000 events is accepted as it was sent, and nothing longer. */
  lemma AcceptsExactly(c: Crypto, id: string, chain: Chain)
    ensures Accepted(c, id, DictsOf(chain)) == if Belongs(c, id, chain) && |chain| <= 1000 then Some(chain) else None
  {
    StoredChainReadsBack(chain);
  }

  lemma TooLongIsIgnored(c: Crypto, id: string, stored: Option<Chain>, raw: Raw)
    requires |raw| > 1000
    ensures Ingested(c, id, stored, raw) == stored
  {
  }
}
