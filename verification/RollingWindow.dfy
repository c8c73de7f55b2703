/** Counting events in a window that moves with the clock. */
module RollingWindow {

  /** How many times lie in the window of the given length that ends at `t`: open at its start, closed at its end. */
  function InWindow(times: seq<real>, t: real, length: real): nat {
    if times == [] then 0
    else InWindow(times[..|times| - 1], t, length) + (if t - length < times[|times| - 1] <= t then 1 else 0)
  }

  /** How many times lie after `lo`. */
  function CountAfter(times: seq<real>, lo: real): nat {
    if times == [] then 0
    else CountAfter(times[..|times| - 1], lo) + (if lo < times[|times| - 1] then 1 else 0)
  }

  ghost predicate Ascending(times: seq<real>, last: real) {
    && (forall i, j :: 0 <= i < j < |times| ==> times[i] <= times[j])
    && (forall i :: 0 <= i < |times| ==> times[i] <= last)
  }

  /** Every window of the given length holds at most `limit` times. */
  ghost predicate Bounded(times: seq<real>, length: real, limit: int) {
    forall t: real :: InWindow(times, t, length) <= if limit < 0 then 0 else limit
  }

  lemma {:induction false} InWindowAtMostAfter(times: seq<real>, t: real, length: real, lo: real)
    requires lo <= t - length
    ensures InWindow(times, t, length) <= CountAfter(times, lo)
  {
    if times != [] { InWindowAtMostAfter(times[..|times| - 1], t, length, lo); }
  }

  /** One more time, admitted only while the window behind the check holds fewer than `limit`, keeps every window bounded. */
  lemma AdmissionKeepsBound(times: seq<real>, length: real, limit: int, checked: real, now: real)
    requires Bounded(times, length, limit) && checked <= now
    requires CountAfter(times, checked - length) < limit
    ensures Bounded(times + [now], length, limit)
  {
    var times' := times + [now];
    assert times'[..|times|] == times;
    forall t: real ensures InWindow(times', t, length) <= limit {
      assert InWindow(times, t, length) <= limit;
      if t >= now { InWindowAtMostAfter(times, t, length, checked - length); }
    }
  }

  /** What is kept of a log: its end, where everything dropped lies at or before `cut`. */
  ghost predicate KeptOf(kept: seq<real>, times: seq<real>, cut: real) {
    && |kept| <= |times|
    && times[|times| - |kept|..] == kept
    && forall i :: 0 <= i < |times| - |kept| ==> times[i] <= cut
  }

  lemma {:induction false} CountSplits(a: seq<real>, b: seq<real>, lo: real)
    ensures CountAfter(a + b, lo) == CountAfter(a, lo) + CountAfter(b, lo)
  {
    if b == [] {
      assert a + b == a;
    } else {
      assert (a + b)[..|a + b| - 1] == a + b[..|b| - 1];
      CountSplits(a, b[..|b| - 1], lo);
    }
  }

  lemma {:induction false} CountAllOrNone(times: seq<real>, lo: real)
    ensures (forall i :: 0 <= i < |times| ==> times[i] <= lo) ==> CountAfter(times, lo) == 0
    ensures (forall i :: 0 <= i < |times| ==> times[i] > lo) ==> CountAfter(times, lo) == |times|
  {
    if times != [] { CountAllOrNone(times[..|times| - 1], lo); }
  }

  /** Once its front lies inside the window, what is kept is exactly what the window holds. */
  lemma KeptCounts(kept: seq<real>, times: seq<real>, last: real, cut: real)
    requires Ascending(times, last) && KeptOf(kept, times, cut) && (kept != [] ==> kept[0] > cut)
    ensures CountAfter(times, cut) == |kept|
  {
    var n := |times| - |kept|;
    assert times == times[..n] + kept;
    CountSplits(times[..n], kept, cut);
    CountAllOrNone(times[..n], cut);
    KeptAreInside(kept, times, last, cut);
    CountAllOrNone(kept, cut);
  }

  lemma KeptAreInside(kept: seq<real>, times: seq<real>, last: real, cut: real)
    requires Ascending(times, last) && KeptOf(kept, times, cut) && (kept != [] ==> kept[0] > cut)
    ensures forall i :: 0 <= i < |kept| ==> kept[i] > cut
  {
    var n := |times| - |kept|;
    forall i | 0 <= i < |kept| ensures kept[i] > cut {
      assert kept[i] == times[n + i] && kept[0] == times[n];
    }
  }

  /** A log that respects the limit, with what is kept of it at time `clock`. */
  ghost predicate Tracked(kept: seq<real>, times: seq<real>, clock: real, length: real, limit: int) {
    Ascending(times, clock) && Bounded(times, length, limit) && KeptOf(kept, times, clock - length)
  }

  lemma TrackedLater(kept: seq<real>, times: seq<real>, clock: real, later: real, length: real, limit: int)
    requires Tracked(kept, times, clock, length, limit) && clock <= later
    ensures Tracked(kept, times, later, length, limit)
  {
  }

  lemma TrackedAdmission(kept: seq<real>, times: seq<real>, now: real, length: real, limit: int)
    requires Tracked(kept, times, now, length, limit) && CountAfter(times, now - length) < limit
    ensures Tracked(kept + [now], times + [now], now, length, limit)
  {
    AdmissionKeepsBound(times, length, limit, now, now);
  }

  /** Forgetting everything the window has left behind. */
  lemma TrackedForgotten(kept: seq<real>, times: seq<real>, now: real, length: real, limit: int)
    requires Tracked(kept, times, now, length, limit)
    requires kept == [] || kept[|kept| - 1] <= now - length
    ensures Tracked([], times, now, length, limit)
  {
    var n := |times| - |kept|;
    forall i | 0 <= i < |times| ensures times[i] <= now - length {
      if i >= n { assert times[i] == kept[i - n] && times[|times| - 1] == kept[|kept| - 1]; }
    }
  }

  /** The positions of the times behind `lo`. */
  function PositionsAfter(times: seq<real>, lo: real): set<nat> {
    set i | 0 <= i < |times| && times[i] > lo
  }

  /** What is counted is how many times lie behind `lo`, wherever they stand. */
  lemma {:induction false} CountsPositions(times: seq<real>, lo: real)
    ensures CountAfter(times, lo) == |PositionsAfter(times, lo)|
  {
    if times == [] {
      assert PositionsAfter(times, lo) == {};
    } else {
      var n := |times| - 1;
      CountsPositions(times[..n], lo);
      assert PositionsAfter(times, lo) == PositionsAfter(times[..n], lo) + if times[n] > lo then {n} else {};
    }
  }
}
