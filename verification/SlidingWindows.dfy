/** A rate limiter that forgets what its window has left behind, and the log that never forgets it answers like. */
module SlidingWindows {
  import opened RollingWindow

  function Times(table: map<string, seq<real>>, key: string): seq<real> {
    if key in table then table[key] else []
  }

  /** For every key, what is kept of its log answers like the log. */
  ghost predicate AllTracked(events: map<string, seq<real>>, log: map<string, seq<real>>, clock: real, seconds: real, limit: int) {
    forall key :: Tracked(Times(events, key), Times(log, key), clock, seconds, limit)
  }

  lemma OneKeyTracked(events: map<string, seq<real>>, log: map<string, seq<real>>, clock: real, now: real, seconds: real,
                      limit: int, key: string, kept: seq<real>, full: seq<real>)
    requires AllTracked(events, log, clock, seconds, limit) && clock <= now && Tracked(kept, full, now, seconds, limit)
    ensures AllTracked(events[key := kept], log[key := full], now, seconds, limit)
  {
    var events', log' := events[key := kept], log[key := full];
    forall k ensures Tracked(Times(events', k), Times(log', k), now, seconds, limit) {
      if k != key { TrackedLater(Times(events, k), Times(log, k), clock, now, seconds, limit); }
    }
  }

  /** What one answer does to the tables, given what is left of the key's times. */
  lemma AnswerIsTracked(events: map<string, seq<real>>, log: map<string, seq<real>>, clock: real, now: real, seconds: real,
                        limit: int, key: string, kept: seq<real>)
    requires AllTracked(events, log, clock, seconds, limit) && clock <= now
    requires Tracked(kept, Times(log, key), now, seconds, limit) && |kept| == CountAfter(Times(log, key), now - seconds)
    ensures |kept| < limit ==> AllTracked(events[key := kept + [now]], log[key := Times(log, key) + [now]], now, seconds, limit)
    ensures AllTracked(events[key := kept], log, now, seconds, limit)
  {
    OneKeyTracked(events, log, clock, now, seconds, limit, key, kept, Times(log, key));
    forall k ensures Times(log[key := Times(log, key)], k) == Times(log, k) {}
    if |kept| < limit {
      TrackedAdmission(kept, Times(log, key), now, seconds, limit);
      OneKeyTracked(events, log, clock, now, seconds, limit, key, kept + [now], Times(log, key) + [now]);
    }
  }

  /** Keys whose window is empty may be forgotten. */
  lemma ForgettingIsTracked(before: map<string, seq<real>>, after: map<string, seq<real>>, log: map<string, seq<real>>,
                            clock: real, now: real, seconds: real, limit: int)
    requires AllTracked(before, log, clock, seconds, limit) && clock <= now
    requires forall k <- after :: k in before && after[k] == before[k]
    requires forall k <- before :: k !in after ==> before[k] == [] || before[k][|before[k]| - 1] <= now - seconds
    ensures AllTracked(after, log, now, seconds, limit)
  {
    forall k ensures Tracked(Times(after, k), Times(log, k), now, seconds, limit) {
      TrackedLater(Times(before, k), Times(log, k), clock, now, seconds, limit);
      if k !in after { TrackedForgotten(Times(before, k), Times(log, k), now, seconds, limit); }
    }
  }

  class SlidingWindow {
    const limit: int
    const seconds: real
    var events: map<string, seq<real>>
    ghost var log: map<string, seq<real>>  // every success ever, by key
    ghost var clock: real                  // the latest time seen

    ghost predicate Valid()
      reads this
    {
      AllTracked(events, log, clock, seconds, limit)
    }

    constructor (limit: int, seconds: real, now: real)
      ensures Valid() && clock == now && log == map[] && this.limit == limit && this.seconds == seconds
    {
      this.limit, this.seconds := limit, seconds;
      events, log, clock := map[], map[], now;
    }

    /** Answers as the full log would: allowed exactly when fewer than `limit` successes lie in the window. */
    method Allow(key: string, now: real) returns (ok: bool)
      requires Valid() && clock <= now
      modifies this
      ensures Valid() && clock == now
      ensures ok <==> CountAfter(Times(old(log), key), now - seconds) < limit
      ensures log == if ok then old(log)[key := Times(old(log), key) + [now]] else old(log)
    {
      var kept := Trim(key, now);
      AnswerIsTracked(events, log, clock, now, seconds, limit, key, kept);
      ok := |kept| < limit;
      clock := now;
      if ok {
        events, log := events[key := kept + [now]], log[key := Times(log, key) + [now]];
      } else {
        events := events[key := kept];
      }
    }

    /** Drops the times at the front of a key's list that the window has left behind. */
    method Trim(key: string, now: real) returns (kept: seq<real>)
      requires Valid() && clock <= now
      ensures Tracked(kept, Times(log, key), now, seconds, limit) && |kept| == CountAfter(Times(log, key), now - seconds)
    {
      TrackedLater(Times(events, key), Times(log, key), clock, now, seconds, limit);
      kept := Times(events, key);
      while kept != [] && kept[0] <= now - seconds
        invariant KeptOf(kept, Times(log, key), now - seconds)
      {
        kept := kept[1..];
      }
      KeptCounts(kept, Times(log, key), now, now - seconds);
    }

    /** Forgets keys whose window is empty; no answer changes. */
    method Cleanup(now: real)
      requires Valid() && clock <= now
      modifies this
      ensures Valid() && clock == now && log == old(log)
    {
      ghost var before, clock0 := events, clock;
      events := map k | k in events && !(events[k] == [] || events[k][|events[k]| - 1] <= now - seconds) :: events[k];
      clock := now;
      ForgettingIsTracked(before, events, log, clock0, now, seconds, limit);
    }
  }
}
