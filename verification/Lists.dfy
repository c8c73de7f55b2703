/** List comprehensions: keeping the elements a predicate selects, in order. */
module Lists {
  import opened Sorting

  function Filter<T>(keep: T -> bool, s: seq<T>): seq<T> {
    if s == [] then []
    else if keep(s[0]) then [s[0]] + Filter(keep, s[1..])
    else Filter(keep, s[1..])
  }

  lemma {:induction false} FilterMembers<T>(keep: T -> bool, s: seq<T>)
    ensures forall x :: x in Filter(keep, s) <==> x in s && keep(x)
  {
    if s != [] {
      FilterMembers(keep, s[1..]);
      assert s == [s[0]] + s[1..];
    }
  }

  lemma {:induction false} FilterConcat<T>(keep: T -> bool, s: seq<T>, t: seq<T>)
    ensures Filter(keep, s + t) == Filter(keep, s) + Filter(keep, t)
  {
    if s == [] {
      assert s + t == t;
    } else {
      assert (s + t)[1..] == s[1..] + t;
      FilterConcat(keep, s[1..], t);
    }
  }

  lemma FilterNext<T>(keep: T -> bool, s: seq<T>, i: nat)
    requires i < |s|
    ensures Filter(keep, s[..i + 1]) == Filter(keep, s[..i]) + if keep(s[i]) then [s[i]] else []
  {
    assert s[..i + 1] == s[..i] + [s[i]];
    FilterConcat(keep, s[..i], [s[i]]);
  }

  lemma {:induction false} FilterNoDuplicates<T>(keep: T -> bool, s: seq<T>)
    requires NoDuplicates(s)
    ensures NoDuplicates(Filter(keep, s))
  {
    if s != [] {
      FilterNoDuplicates(keep, s[1..]);
      FilterMembers(keep, s[1..]);
    }
  }

  lemma {:induction false} FilterAgree<T>(p: T -> bool, q: T -> bool, s: seq<T>)
    requires forall x <- s :: p(x) == q(x)
    ensures Filter(p, s) == Filter(q, s)
  {
    if s != [] {
      FilterAgree(p, q, s[1..]);
    }
  }

  /** Filtering twice keeps what both predicates select. */
  lemma {:induction false} FilterTwice<T>(p: T -> bool, q: T -> bool, both: T -> bool, s: seq<T>)
    requires forall x <- s :: both(x) == (p(x) && q(x))
    ensures Filter(p, Filter(q, s)) == Filter(both, s)
  {
    if s != [] {
      FilterTwice(p, q, both, s[1..]);
    }
  }

  /** `a` stands before `b` in `s`. */
  ghost predicate Before<T>(s: seq<T>, a: T, b: T) {
    exists i, j :: 0 <= i < j < |s| && s[i] == a && s[j] == b
  }

  lemma {:induction false} FilterKeepsOrder<T>(keep: T -> bool, s: seq<T>, a: T, b: T)
    requires Before(Filter(keep, s), a, b)
    ensures Before(s, a, b)
  {
    var r := Filter(keep, s);
    var i, j :| 0 <= i < j < |r| && r[i] == a && r[j] == b;
    if keep(s[0]) && i == 0 {
      FilterMembers(keep, s[1..]);
      assert b == r[1..][j - 1] && b in s[1..];
      var k :| 0 <= k < |s[1..]| && s[1..][k] == b;
      assert s[0] == a && s[k + 1] == b;
    } else {
      var d := if keep(s[0]) then 1 else 0;
      assert Filter(keep, s[1..])[i - d] == a && Filter(keep, s[1..])[j - d] == b;
      FilterKeepsOrder(keep, s[1..], a, b);
      var i', j' :| 0 <= i' < j' < |s[1..]| && s[1..][i'] == a && s[1..][j'] == b;
      assert s[i' + 1] == a && s[j' + 1] == b;
    }
  }

  /** Position `i` is the last that satisfies `p`. */
  ghost predicate LastWith<T(!new)>(p: T -> bool, s: seq<T>, i: int) {
    0 <= i < |s| && p(s[i]) && forall j :: i < j < |s| ==> !p(s[j])
  }

  lemma LastWithSnoc<T(!new)>(p: T -> bool, s: seq<T>, x: T, i: int)
    ensures LastWith(p, s + [x], i) <==> if p(x) then i == |s| else LastWith(p, s, i)
  {
    var more := s + [x];
    assert more[|s|] == x && forall j | 0 <= j < |s| :: more[j] == s[j];
    if LastWith(p, more, i) && p(x) { assert i == |s|; }
  }
}
