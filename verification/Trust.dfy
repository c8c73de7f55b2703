/** Transitive trust: a worklist search over delegations, and exactly which paths it finds. */
module Trust {
  import opened Options
  import opened Sorting

  datatype DelegationRecord = Delegation(source: string, target: string, weight: real, depthLimit: Option<int>,
                                         timestamp: int, scope: Option<seq<string>>)
  {
    /** Whether the delegation applies to a claim type; None asks about all. */
    predicate Covers(claimType: Option<string>) {
      claimType.None? || scope.None? || claimType.value in scope.value
    }
  }

  /** The constructor refuses weights outside [0, 1]. */
  type Delegation = d: DelegationRecord | 0.0 <= d.weight <= 1.0
    witness Delegation("", "", 0.0, None, 0, None)

  type Graph = map<string, seq<Delegation>>

  function From(g: Graph, identity: string): seq<Delegation> {
    if identity in g then g[identity] else []
  }

  datatype TrustPath = TrustPath(hops: seq<string>, weights: seq<real>, score: real)

  datatype TrustResult = TrustResult(subject: string, claimType: Option<string>, trustScore: real, paths: seq<TrustPath>)

  // ---------------------------------------------------------------- what a trust path is

  /** One step of a walk: a delegation and its position on the list of the identity that made it. */
  datatype Hop = Hop(position: nat, d: Delegation)

  type Walk = seq<Hop>

  /** Where a walk from `me` stands after `i` hops. */
  function HopAt(me: string, w: Walk, i: nat): string
    requires i <= |w|
  {
    if i == 0 then me else w[i - 1].d.target
  }

  function Hops(me: string, w: Walk): seq<string> {
    seq(|w| + 1, i requires 0 <= i <= |w| => HopAt(me, w, i))
  }

  function Weights(w: Walk): seq<real> {
    seq(|w|, i requires 0 <= i < |w| => w[i].d.weight)
  }

  function Product(ws: seq<real>): real {
    if ws == [] then 1.0 else Product(ws[..|ws| - 1]) * ws[|ws| - 1]
  }

  function Render(me: string, w: Walk): TrustPath {
    TrustPath(Hops(me, w), Weights(w), Product(Weights(w)))
  }

  predicate IsHop(ds: seq<Delegation>, h: Hop) {
    h.position < |ds| && ds[h.position] == h.d
  }

  /** Each delegation is taken from where the walk stands. */
  ghost predicate IsWalk(g: Graph, me: string, w: Walk) {
    forall i :: 0 <= i < |w| ==> HopOk(g, me, w, i)
  }

  predicate HopOk(g: Graph, me: string, w: Walk, i: nat)
    requires i < |w|
  {
    IsHop(From(g, HopAt(me, w, i)), w[i])
  }

  /** Every scope on the way is open or names the claim type asked about. */
  ghost predicate AllCover(w: Walk, claimType: Option<string>) {
    forall i :: 0 <= i < |w| ==> claimType == None || w[i].d.scope == None || claimType.value in w[i].d.scope.value
  }

  /** Whether a delegation taken as hop `i` (counted from 1) allows a path of `n` hops. */
  predicate Allows(d: Delegation, i: nat, n: int) {
    d.depthLimit.Some? ==> d.depthLimit.value >= n - i
  }

  /** Each of the first `m` delegations allows a path of `n` hops. */
  ghost predicate WithinLimits(w: Walk, m: nat, n: int)
    requires m <= |w|
  {
    forall i :: 0 <= i < m ==> Allows(w[i].d, i + 1, n)
  }

  /**
   The paths that count: simple, from `me` to the subject, of at most `maxDepth` hops, every scope covering the claim
   type, and every delegation but the last allowing the hops that follow it.
   */
  ghost predicate IsTrustPath(q: Query, maxDepth: int, w: Walk) {
    && IsWalk(q.g, q.me, w)
    && 1 <= |w| <= maxDepth
    && HopAt(q.me, w, |w|) == q.subject
    && NoDuplicates(Hops(q.me, w))
    && AllCover(w, q.claimType)
    && WithinLimits(w, |w| - 1, |w|)
  }

  /** The question being answered. */
  datatype Query = Query(g: Graph, me: string, subject: string, claimType: Option<string>)

  // ---------------------------------------------------------------- the tree the search explores

  function Min(a: int, b: int): int {
    if a < b then a else b
  }

  /** The budget left behind delegation `d`. */
  function NextBudget(budget: int, d: Delegation): int {
    if d.depthLimit.Some? then Min(budget - 1, d.depthLimit.value) else budget - 1
  }

  /** A walk that has not reached the subject, with the budget left. */
  datatype Open = Open(walk: Walk, budget: int)

  function Here(q: Query, o: Open): seq<Delegation> {
    From(q.g, HopAt(q.me, o.walk, |o.walk|))
  }

  predicate Skipped(q: Query, o: Open, d: Delegation) {
    d.target in Hops(q.me, o.walk) || !d.Covers(q.claimType)
  }

  function Extend(o: Open, k: nat, d: Delegation): Open {
    Open(o.walk + [Hop(k, d)], NextBudget(o.budget, d))
  }

  /** The complete paths below an open walk, and below its delegations from position `k` on. */
  ghost function Below(q: Query, o: Open): seq<Walk>
    decreases if o.budget < 0 then 0 else o.budget, 1, 0
  {
    if o.budget <= 0 then [] else BelowFrom(q, o, 0)
  }

  ghost function BelowFrom(q: Query, o: Open, k: nat): seq<Walk>
    requires o.budget > 0 && k <= |Here(q, o)|
    decreases o.budget, 0, |Here(q, o)| - k
  {
    if k == |Here(q, o)| then [] else BelowOne(q, o, k) + BelowFrom(q, o, k + 1)
  }

  ghost function BelowOne(q: Query, o: Open, k: nat): seq<Walk>
    requires o.budget > 0 && k < |Here(q, o)|
    decreases o.budget, 0, 0
  {
    var d := Here(q, o)[k];
    if Skipped(q, o, d) then []
    else if d.target == q.subject then [Extend(o, k, d).walk]
    else Below(q, Extend(o, k, d))
  }

  /** How many walks the search still has to take off its queue for an open walk: it falls with every one taken. */
  ghost function Work(q: Query, o: Open): nat
    decreases if o.budget < 0 then 0 else o.budget, 1, 0
  {
    1 + if o.budget <= 0 then 0 else WorkFrom(q, o, 0)
  }

  ghost function WorkFrom(q: Query, o: Open, k: nat): nat
    requires o.budget > 0 && k <= |Here(q, o)|
    decreases o.budget, 0, |Here(q, o)| - k
  {
    if k == |Here(q, o)| then 0 else WorkOne(q, o, k) + WorkFrom(q, o, k + 1)
  }

  ghost function WorkOne(q: Query, o: Open, k: nat): nat
    requires o.budget > 0 && k < |Here(q, o)|
    decreases o.budget, 0, 0
  {
    var d := Here(q, o)[k];
    if Skipped(q, o, d) || d.target == q.subject then 0 else Work(q, Extend(o, k, d))
  }

  ghost function QueueWork(q: Query, queue: seq<Open>): nat {
    if queue == [] then 0 else Work(q, queue[0]) + QueueWork(q, queue[1..])
  }

  ghost function QueueBelow(q: Query, queue: seq<Open>): seq<Walk> {
    if queue == [] then [] else Below(q, queue[0]) + QueueBelow(q, queue[1..])
  }

  lemma {:induction false} QueueSnoc(q: Query, queue: seq<Open>, o: Open)
    ensures QueueWork(q, queue + [o]) == QueueWork(q, queue) + Work(q, o)
    ensures QueueBelow(q, queue + [o]) == QueueBelow(q, queue) + Below(q, o)
  {
    if queue == [] {
      assert QueueBelow(q, [o]) == Below(q, o) + [];
    } else {
      assert (queue + [o])[1..] == queue[1..] + [o];
      QueueSnoc(q, queue[1..], o);
    }
  }

  // ---------------------------------------------------------------- the tree holds exactly the trust paths

  /** The budget after a walk. */
  function BudgetAfter(maxDepth: int, w: Walk): int {
    if w == [] then maxDepth else NextBudget(BudgetAfter(maxDepth, w[..|w| - 1]), w[|w| - 1].d)
  }

  lemma WithinLimitsSnoc(w: Walk, m: nat, n: int)
    requires m < |w|
    ensures WithinLimits(w, m + 1, n) <==> WithinLimits(w[..m], m, n) && Allows(w[m].d, m + 1, n)
  {
    assert forall i | 0 <= i < m :: w[..m][i] == w[i];
  }

  /** A budget above `k` means that the depth and every limit on the way allow more than `k` further hops. */
  lemma {:induction false} BudgetMeaning(maxDepth: int, w: Walk, k: int)
    ensures BudgetAfter(maxDepth, w) > k <==> maxDepth - |w| > k && WithinLimits(w, |w|, |w| + k + 1)
  {
    if w != [] {
      var m := |w| - 1;
      BudgetMeaning(maxDepth, w[..m], k + 1);
      WithinLimitsSnoc(w, m, |w| + k + 1);
    }
  }

  /** What holds of every walk on the queue. */
  ghost predicate IsOpen(q: Query, maxDepth: int, o: Open) {
    && IsWalk(q.g, q.me, o.walk)
    && NoDuplicates(Hops(q.me, o.walk))
    && q.subject !in Hops(q.me, o.walk)
    && AllCover(o.walk, q.claimType)
    && o.budget == BudgetAfter(maxDepth, o.walk)
  }

  lemma HopsSnoc(me: string, w: Walk, h: Hop)
    ensures Hops(me, w + [h]) == Hops(me, w) + [h.d.target]
    ensures Weights(w + [h]) == Weights(w) + [h.d.weight]
  {
  }

  lemma WalkSnoc(g: Graph, me: string, w: Walk, h: Hop)
    requires IsWalk(g, me, w) && IsHop(From(g, HopAt(me, w, |w|)), h)
    ensures IsWalk(g, me, w + [h])
  {
    var w' := w + [h];
    forall i | 0 <= i < |w'| ensures HopOk(g, me, w', i) {
      assert i < |w| ==> HopOk(g, me, w, i);
    }
  }

  lemma ExtendIsOpen(q: Query, maxDepth: int, o: Open, k: nat)
    requires IsOpen(q, maxDepth, o) && k < |Here(q, o)|
    requires !Skipped(q, o, Here(q, o)[k]) && Here(q, o)[k].target != q.subject
    ensures IsOpen(q, maxDepth, Extend(o, k, Here(q, o)[k]))
  {
    var h := Hop(k, Here(q, o)[k]);
    HopsSnoc(q.me, o.walk, h);
    assert (o.walk + [h])[..|o.walk|] == o.walk;
    WalkSnoc(q.g, q.me, o.walk, h);
  }

  lemma HopAtPrefix(me: string, w: Walk, v: Walk, i: nat)
    requires v <= w && i <= |v|
    ensures HopAt(me, w, i) == HopAt(me, v, i) == Hops(me, v)[i] == Hops(me, w)[i]
  {
  }

  /** A trust path that begins like an open walk goes on from it, through one of the delegations there. */
  lemma TrustPathGoesOn(q: Query, maxDepth: int, o: Open, w: Walk)
    requires IsOpen(q, maxDepth, o) && IsTrustPath(q, maxDepth, w) && o.walk <= w
    ensures o.budget > 0
    ensures |o.walk| < |w| && IsHop(Here(q, o), w[|o.walk|])
  {
    var n := |o.walk|;
    HopAtPrefix(q.me, w, o.walk, n);
    assert Hops(q.me, o.walk)[n] in Hops(q.me, o.walk);
    assert HopOk(q.g, q.me, w, n) || n == |w|;
    BudgetMeaning(maxDepth, o.walk, 0);
    forall i | 0 <= i < n ensures Allows(o.walk[i].d, i + 1, n + 1) {
      assert Allows(w[i].d, i + 1, |w|);
    }
  }

  /** No trust path goes through a skipped delegation. */
  lemma SkippedLeadsNowhere(q: Query, maxDepth: int, o: Open, k: nat, w: Walk)
    requires IsOpen(q, maxDepth, o) && k < |Here(q, o)| && Skipped(q, o, Here(q, o)[k])
    requires Extend(o, k, Here(q, o)[k]).walk <= w
    ensures !IsTrustPath(q, maxDepth, w)
  {
    var n := |o.walk|;
    var d := Here(q, o)[k];
    assert w[n] == Hop(k, d);
    if d.target in Hops(q.me, o.walk) {
      var i :| 0 <= i <= n && Hops(q.me, o.walk)[i] == d.target;
      HopAtPrefix(q.me, w, o.walk, i);
      assert Hops(q.me, w)[i] == Hops(q.me, w)[n + 1];
    } else {
      assert !w[n].d.Covers(q.claimType);
    }
  }

  /** A trust path ends where it first meets the subject. */
  lemma SubjectEndsPath(q: Query, maxDepth: int, v: Walk, w: Walk)
    requires v <= w && v != [] && HopAt(q.me, v, |v|) == q.subject && IsTrustPath(q, maxDepth, w)
    ensures w == v
  {
    HopAtPrefix(q.me, w, v, |v|);
    assert Hops(q.me, w)[|w|] == q.subject;
  }

  lemma ReachesSubject(q: Query, maxDepth: int, o: Open, k: nat)
    requires IsOpen(q, maxDepth, o) && o.budget > 0 && k < |Here(q, o)|
    requires !Skipped(q, o, Here(q, o)[k]) && Here(q, o)[k].target == q.subject
    ensures IsTrustPath(q, maxDepth, Extend(o, k, Here(q, o)[k]).walk)
  {
    var h := Hop(k, Here(q, o)[k]);
    var w := o.walk + [h];
    HopsSnoc(q.me, o.walk, h);
    WalkSnoc(q.g, q.me, o.walk, h);
    BudgetMeaning(maxDepth, o.walk, 0);
    assert WithinLimits(w, |w| - 1, |w|) by {
      assert forall i | 0 <= i < |o.walk| :: w[i] == o.walk[i];
    }
  }

  /** Below an open walk hang exactly the trust paths that begin with it. */
  lemma {:induction false} BelowIsExact(q: Query, maxDepth: int, o: Open, w: Walk)
    requires IsOpen(q, maxDepth, o)
    ensures w in Below(q, o) <==> IsTrustPath(q, maxDepth, w) && o.walk <= w
    decreases if o.budget < 0 then 0 else o.budget, 1, 0
  {
    if IsTrustPath(q, maxDepth, w) && o.walk <= w { TrustPathGoesOn(q, maxDepth, o, w); }
    if o.budget > 0 { BelowFromIsExact(q, maxDepth, o, 0, w); }
  }

  lemma {:induction false} BelowFromIsExact(q: Query, maxDepth: int, o: Open, k: nat, w: Walk)
    requires IsOpen(q, maxDepth, o) && o.budget > 0 && k <= |Here(q, o)|
    ensures w in BelowFrom(q, o, k) <==>
      IsTrustPath(q, maxDepth, w) && o.walk <= w && |w| > |o.walk| && w[|o.walk|].position >= k
    decreases o.budget, 0, |Here(q, o)| - k
  {
    if IsTrustPath(q, maxDepth, w) && o.walk <= w { TrustPathGoesOn(q, maxDepth, o, w); }
    if k < |Here(q, o)| {
      BelowOneIsExact(q, maxDepth, o, k, w);
      BelowFromIsExact(q, maxDepth, o, k + 1, w);
      ExtendedBy(q, o, k, w);
    }
  }

  /** Beginning with an extension by delegation `k` is beginning with the walk and going on at position `k`. */
  lemma ExtendedBy(q: Query, o: Open, k: nat, w: Walk)
    requires k < |Here(q, o)|
    ensures Extend(o, k, Here(q, o)[k]).walk <= w <==> o.walk <= w && |w| > |o.walk| && w[|o.walk|] == Hop(k, Here(q, o)[k])
  {
    if o.walk <= w && |w| > |o.walk| {
      assert w[..|o.walk| + 1] == o.walk + [w[|o.walk|]];
    }
  }

  lemma {:induction false} BelowOneIsExact(q: Query, maxDepth: int, o: Open, k: nat, w: Walk)
    requires IsOpen(q, maxDepth, o) && o.budget > 0 && k < |Here(q, o)|
    ensures w in BelowOne(q, o, k) <==> IsTrustPath(q, maxDepth, w) && Extend(o, k, Here(q, o)[k]).walk <= w
    decreases o.budget, 0, 0
  {
    var d := Here(q, o)[k];
    var v := Extend(o, k, d).walk;
    if Skipped(q, o, d) {
      if v <= w { SkippedLeadsNowhere(q, maxDepth, o, k, w); }
    } else if d.target == q.subject {
      ReachesSubject(q, maxDepth, o, k);
      if IsTrustPath(q, maxDepth, w) && v <= w { SubjectEndsPath(q, maxDepth, v, w); }
    } else {
      ExtendIsOpen(q, maxDepth, o, k);
      BelowIsExact(q, maxDepth, Extend(o, k, d), w);
    }
  }

  /** No path is found twice. */
  lemma {:induction false} BelowOnce(q: Query, maxDepth: int, o: Open)
    requires IsOpen(q, maxDepth, o)
    ensures NoDuplicates(Below(q, o))
    decreases if o.budget < 0 then 0 else o.budget, 1, 0
  {
    if o.budget > 0 { BelowFromOnce(q, maxDepth, o, 0); }
  }

  lemma {:induction false} BelowFromOnce(q: Query, maxDepth: int, o: Open, k: nat)
    requires IsOpen(q, maxDepth, o) && o.budget > 0 && k <= |Here(q, o)|
    ensures NoDuplicates(BelowFrom(q, o, k))
    decreases o.budget, 0, |Here(q, o)| - k
  {
    if k < |Here(q, o)| {
      BelowOneOnce(q, maxDepth, o, k);
      BelowFromOnce(q, maxDepth, o, k + 1);
      forall w | w in BelowOne(q, o, k) ensures w !in BelowFrom(q, o, k + 1) {
        BelowOneIsExact(q, maxDepth, o, k, w);
        BelowFromIsExact(q, maxDepth, o, k + 1, w);
        ExtendedBy(q, o, k, w);
      }
      ConcatNoDuplicates(BelowOne(q, o, k), BelowFrom(q, o, k + 1));
    }
  }

  lemma {:induction false} BelowOneOnce(q: Query, maxDepth: int, o: Open, k: nat)
    requires IsOpen(q, maxDepth, o) && o.budget > 0 && k < |Here(q, o)|
    ensures NoDuplicates(BelowOne(q, o, k))
    decreases o.budget, 0, 0
  {
    var d := Here(q, o)[k];
    if !Skipped(q, o, d) && d.target != q.subject {
      ExtendIsOpen(q, maxDepth, o, k);
      BelowOnce(q, maxDepth, Extend(o, k, d));
    }
  }

  // ---------------------------------------------------------------- the answer

  predicate ByScore(a: TrustPath, b: TrustPath) {
    a.score >= b.score
  }

  lemma ByScoreIsPreorder()
    ensures TotalPreorder(ByScore)
  {
  }

  function Rendered(me: string, found: seq<Walk>): seq<TrustPath> {
    seq(|found|, i requires 0 <= i < |found| => Render(me, found[i]))
  }

  /** `found` lists the trust paths, each once. */
  ghost predicate AreTheTrustPaths(q: Query, maxDepth: int, found: seq<Walk>) {
    NoDuplicates(found) && forall w :: w in found <==> IsTrustPath(q, maxDepth, w)
  }

  /** `best` is the largest score, or zero if there is no path. */
  ghost predicate IsBest(best: real, paths: seq<TrustPath>) {
    && (forall p <- paths :: p.score <= best)
    && (if paths == [] then best == 0.0 else exists p <- paths :: p.score == best)
  }

  /** The paths of an answer are the trust paths, one entry each. */
  ghost predicate PathsAreRight(q: Query, maxDepth: int, paths: seq<TrustPath>) {
    exists found :: AreTheTrustPaths(q, maxDepth, found) && multiset(paths) == multiset(Rendered(q.me, found))
  }

  /** The answer the search owes: one entry per trust path, best first, and the best score. */
  ghost predicate IsAnswer(q: Query, maxDepth: int, r: TrustResult) {
    && r.subject == q.subject && r.claimType == q.claimType
    && if q.subject == q.me then
         r.trustScore == 1.0 && r.paths == [TrustPath([q.subject], [], 1.0)]
       else
         && PathsAreRight(q, maxDepth, r.paths)
         && (forall i, j :: 0 <= i < j < |r.paths| ==> r.paths[i].score >= r.paths[j].score)
         && IsBest(r.trustScore, r.paths)
  }

  /** A path is shown as the identities from `me` on that its delegations lead to, and their weights. */
  lemma PathIsShown(me: string, w: Walk)
    ensures var p := Render(me, w);
      && |p.hops| == |w| + 1 && p.hops[0] == me && |p.weights| == |w|
      && (forall i :: 0 <= i < |w| ==> p.hops[i + 1] == w[i].d.target && p.weights[i] == w[i].d.weight)
  {
  }

  /** A path of one delegation scores its weight. */
  lemma ScoreOfHop(me: string, h: Hop)
    ensures Render(me, [h]).score == h.d.weight
  {
    var ws := Weights([h]);
    assert |ws| == 1 && ws[0] == h.d.weight && ws[..0] == [];
    assert Product(ws) == Product(ws[..0]) * ws[0];
  }

  /** One delegation more multiplies the score by its weight. */
  lemma ScoreOfLonger(me: string, w: Walk, h: Hop)
    ensures Render(me, w + [h]).score == Render(me, w).score * h.d.weight
  {
    var ws := Weights(w + [h]);
    assert ws[..|w|] == Weights(w) && ws[|w|] == h.d.weight;
  }

  /** A path in two parts scores the product of their scores, so the order of the delegations does not matter. */
  lemma {:induction false} ScoreOfParts(me: string, v: Walk, w: Walk)
    ensures Render(me, v + w).score == Render(me, v).score * Render(me, w).score
  {
    if w == [] {
      assert v + w == v && Weights(w) == [];
    } else {
      var n := |w| - 1;
      ScoreOfParts(me, v, w[..n]);
      ScoreOfLonger(me, v + w[..n], w[n]);
      ScoreOfLonger(me, w[..n], w[n]);
      assert v + w == (v + w[..n]) + [w[n]] && w == w[..n] + [w[n]];
      Reassociate(Render(me, v).score, Render(me, w[..n]).score, w[n].d.weight);
    }
  }

  lemma Reassociate(a: real, b: real, c: real)
    ensures (a * b) * c == a * (b * c)
  {
  }

  /** No path is trusted more than any delegation on it. */
  lemma {:induction false} ScoreIsAtMostWeakest(me: string, w: Walk, i: nat)
    requires i < |w|
    ensures Render(me, w).score <= w[i].d.weight
  {
    var n := |w| - 1;
    ScoreOfLonger(me, w[..n], w[n]);
    assert w == w[..n] + [w[n]];
    ProductInUnit(w[..n]);
    NonNegativeProduct(1.0 - Render(me, w[..n]).score, w[n].d.weight);
    NonNegativeProduct(Render(me, w[..n]).score, 1.0 - w[n].d.weight);
    BelowBoth(Render(me, w[..n]).score, w[n].d.weight);
    if i < n { ScoreIsAtMostWeakest(me, w[..n], i); }
  }

  lemma BelowBoth(a: real, b: real)
    requires 0.0 <= (1.0 - a) * b && 0.0 <= a * (1.0 - b)
    ensures a * b <= a && a * b <= b
  {
    assert (1.0 - a) * b == b - a * b && a * (1.0 - b) == a - a * b;
  }

  lemma {:induction false} ProductInUnit(w: Walk)
    ensures 0.0 <= Product(Weights(w)) <= 1.0
  {
    if w != [] {
      var n := |w| - 1;
      assert Weights(w)[..n] == Weights(w[..n]);
      ProductInUnit(w[..n]);
      UnitProduct(Product(Weights(w[..n])), w[n].d.weight);
      assert Weights(w)[n] == w[n].d.weight;
    }
  }

  lemma NonNegativeProduct(a: real, b: real)
    requires 0.0 <= a && 0.0 <= b
    ensures 0.0 <= a * b
  {
  }

  lemma UnitProduct(a: real, b: real)
    requires 0.0 <= a <= 1.0 && 0.0 <= b <= 1.0
    ensures 0.0 <= a * b && a * b <= 1.0
  {
    NonNegativeProduct(a, b);
    NonNegativeProduct(1.0 - a, b);
    assert (1.0 - a) * b == b - a * b;
  }

  lemma FoundAll(q: Query, maxDepth: int, found: seq<Walk>)
    requires q.subject != q.me && multiset(found) == multiset(Below(q, Open([], maxDepth)))
    ensures AreTheTrustPaths(q, maxDepth, found)
    ensures forall p <- Rendered(q.me, found) :: 0.0 <= p.score
  {
    var root := Open([], maxDepth);
    assert IsOpen(q, maxDepth, root);
    BelowOnce(q, maxDepth, root);
    SameElements(found, Below(q, root));
    forall w ensures w in found <==> IsTrustPath(q, maxDepth, w) { BelowIsExact(q, maxDepth, root, w); }
    SameElementsOnce(found, Below(q, root));
    forall i | 0 <= i < |found| ensures 0.0 <= Render(q.me, found[i]).score { ProductInUnit(found[i]); }
  }

  // ---------------------------------------------------------------- the search

  /** One entry of the worklist: the identities visited, the weights, and the budget left. */
  datatype Entry = Entry(path: seq<string>, weights: seq<real>, budget: int)

  function EntryOf(me: string, o: Open): Entry {
    Entry(Hops(me, o.walk), Weights(o.walk), o.budget)
  }

  function Entries(me: string, open: seq<Open>): seq<Entry> {
    seq(|open|, i requires 0 <= i < |open| => EntryOf(me, open[i]))
  }

  /** The search's variables, and the walks they stand for. */
  ghost predicate Stands(q: Query, queue: seq<Entry>, open: seq<Open>, paths: seq<TrustPath>, found: seq<Walk>) {
    queue == Entries(q.me, open) && paths == Rendered(q.me, found)
  }

  /** Nothing is lost or invented: the paths found and those still to come are all the paths there are. */
  ghost predicate Conserved(q: Query, open: seq<Open>, found: seq<Walk>, rest: seq<Walk>, all: seq<Walk>) {
    multiset(found) + multiset(QueueBelow(q, open)) + multiset(rest) == multiset(all)
  }

  lemma PopKeeps(q: Query, queue: seq<Entry>, open: seq<Open>, paths: seq<TrustPath>, found: seq<Walk>, all: seq<Walk>)
    requires Stands(q, queue, open, paths, found) && queue != [] && Conserved(q, open, found, [], all)
    ensures open != [] && queue[0] == EntryOf(q.me, open[0])
    ensures Stands(q, queue[1..], open[1..], paths, found) && Conserved(q, open[1..], found, Below(q, open[0]), all)
  {
    assert QueueBelow(q, open) == Below(q, open[0]) + QueueBelow(q, open[1..]);
  }

  lemma PushKeeps(q: Query, queue: seq<Entry>, open: seq<Open>, paths: seq<TrustPath>, found: seq<Walk>, rest: seq<Walk>,
                  all: seq<Walk>, o: Open)
    requires Stands(q, queue, open, paths, found) && Conserved(q, open, found, Below(q, o) + rest, all)
    ensures Stands(q, queue + [EntryOf(q.me, o)], open + [o], paths, found) && Conserved(q, open + [o], found, rest, all)
  {
    QueueSnoc(q, open, o);
    EntriesSnoc(q.me, open, o);
  }

  /** The entry of an extended walk. */
  lemma EntryNext(me: string, o: Open, k: nat, d: Delegation)
    ensures var e, next := EntryOf(me, o), EntryOf(me, Extend(o, k, d));
      next == Entry(e.path + [d.target], e.weights + [d.weight], NextBudget(o.budget, d))
    ensures Render(me, Extend(o, k, d).walk).hops == EntryOf(me, o).path + [d.target]
    ensures Render(me, Extend(o, k, d).walk).weights == EntryOf(me, o).weights + [d.weight]
  {
    HopsSnoc(me, o.walk, Hop(k, d));
  }

  lemma EntriesSnoc(me: string, open: seq<Open>, o: Open)
    ensures Entries(me, open + [o]) == Entries(me, open) + [EntryOf(me, o)]
  {
  }

  lemma FindKeeps(q: Query, queue: seq<Entry>, open: seq<Open>, paths: seq<TrustPath>, found: seq<Walk>, rest: seq<Walk>,
                  all: seq<Walk>, w: Walk)
    requires Stands(q, queue, open, paths, found) && Conserved(q, open, found, [w] + rest, all)
    ensures Stands(q, queue, open, paths + [Render(q.me, w)], found + [w]) && Conserved(q, open, found + [w], rest, all)
  {
    assert Rendered(q.me, found + [w]) == Rendered(q.me, found) + [Render(q.me, w)];
  }

  class TrustGraph {
    const myIdentity: string
    var delegations: Graph

    constructor (me: string)
      ensures myIdentity == me && delegations == map[]
    {
      myIdentity := me;
      delegations := map[];
    }

    method AddDelegation(d: Delegation)
      modifies this
      ensures delegations == old(delegations)[d.source := From(old(delegations), d.source) + [d]]
    {
      delegations := delegations[d.source := From(delegations, d.source) + [d]];
    }

    /** Trust in `subject` as an issuer of `claimType` attestations. */
    method CalculateTrust(subject: string, claimType: Option<string>, maxDepth: int) returns (r: TrustResult)
      ensures IsAnswer(Query(delegations, myIdentity, subject, claimType), maxDepth, r)
    {
      if subject == myIdentity {
        return TrustResult(subject, claimType, 1.0, [TrustPath([subject], [], 1.0)]);
      }
      var paths, found := FindPaths(subject, claimType, maxDepth);
      var best := MaxScore(paths);
      ByScoreIsPreorder();
      SortSorted(ByScore, paths);
      SameElements(Sort(ByScore, paths), paths);
      return TrustResult(subject, claimType, best, Sort(ByScore, paths));
    }

    /** The worklist loop. */
    method FindPaths(subject: string, claimType: Option<string>, maxDepth: int)
      returns (paths: seq<TrustPath>, ghost found: seq<Walk>)
      requires subject != myIdentity
      ensures AreTheTrustPaths(Query(delegations, myIdentity, subject, claimType), maxDepth, found)
      ensures paths == Rendered(myIdentity, found) && forall p <- paths :: 0.0 <= p.score
    {
      ghost var q := Query(delegations, myIdentity, subject, claimType);
      ghost var root := Open([], maxDepth);
      ghost var all := Below(q, root);
      ghost var open := [root];
      found, paths := [], [];
      var queue := [Entry([myIdentity], [], maxDepth)];
      assert EntryOf(myIdentity, root) == queue[0];
      assert QueueBelow(q, open) == all + [];

      while queue != []
        invariant Stands(q, queue, open, paths, found)
        invariant Conserved(q, open, found, [], all)
        decreases QueueWork(q, open)
      {
        PopKeeps(q, queue, open, paths, found, all);
        var entry := queue[0];
        ghost var o := open[0];
        queue, open := queue[1..], open[1..];
        if entry.budget <= 0 { continue; }
        queue, paths, open, found := Expand(entry, subject, claimType, queue, paths, q, o, open, found, all);
      }
      assert open == [];
      FoundAll(q, maxDepth, found);
    }

    /** The body of the search's loop: follow every delegation from the end of one entry's path. */
    method Expand(entry: Entry, subject: string, claimType: Option<string>, queue0: seq<Entry>, paths0: seq<TrustPath>,
                  ghost q: Query, ghost o: Open, ghost open0: seq<Open>, ghost found0: seq<Walk>, ghost all: seq<Walk>)
      returns (queue: seq<Entry>, paths: seq<TrustPath>, ghost open: seq<Open>, ghost found: seq<Walk>)
      requires q == Query(delegations, myIdentity, subject, claimType)
      requires entry == EntryOf(myIdentity, o) && entry.budget > 0
      requires Stands(q, queue0, open0, paths0, found0) && Conserved(q, open0, found0, Below(q, o), all)
      ensures Stands(q, queue, open, paths, found) && Conserved(q, open, found, [], all)
      ensures QueueWork(q, open) < Work(q, o) + QueueWork(q, open0)
    {
      queue, paths, open, found := queue0, paths0, open0, found0;
      assert entry.path[|entry.path| - 1] == HopAt(q.me, o.walk, |o.walk|);
      var ds := From(delegations, entry.path[|entry.path| - 1]);
      for k := 0 to |ds|
        invariant Stands(q, queue, open, paths, found)
        invariant Conserved(q, open, found, BelowFrom(q, o, k), all)
        invariant QueueWork(q, open) + WorkFrom(q, o, k) == QueueWork(q, open0) + WorkFrom(q, o, 0)
      {
        queue, paths, open, found := Follow(entry, ds[k], subject, claimType, queue, paths, q, o, k, open, found, all);
      }
    }

    /** One delegation from the end of an entry's path. */
    method Follow(entry: Entry, d: Delegation, subject: string, claimType: Option<string>, queue0: seq<Entry>,
                  paths0: seq<TrustPath>, ghost q: Query, ghost o: Open, ghost k: nat, ghost open0: seq<Open>,
                  ghost found0: seq<Walk>, ghost all: seq<Walk>)
      returns (queue: seq<Entry>, paths: seq<TrustPath>, ghost open: seq<Open>, ghost found: seq<Walk>)
      requires q == Query(delegations, myIdentity, subject, claimType)
      requires entry == EntryOf(myIdentity, o) && entry.budget > 0
      requires k < |Here(q, o)| && d == Here(q, o)[k]
      requires Stands(q, queue0, open0, paths0, found0) && Conserved(q, open0, found0, BelowFrom(q, o, k), all)
      ensures Stands(q, queue, open, paths, found) && Conserved(q, open, found, BelowFrom(q, o, k + 1), all)
      ensures QueueWork(q, open) + WorkFrom(q, o, k + 1) == QueueWork(q, open0) + WorkFrom(q, o, k)
    {
      queue, paths, open, found := queue0, paths0, open0, found0;
      ghost var next := Extend(o, k, d);
      ghost var rest := BelowFrom(q, o, k + 1);
      assert BelowFrom(q, o, k) == BelowOne(q, o, k) + rest;
      if d.target in entry.path || !d.Covers(claimType) { return; }
      EntryNext(myIdentity, o, k, d);
      var newWeights := entry.weights + [d.weight];
      var newPath := entry.path + [d.target];
      if d.target == subject {
        var score := Multiply(newWeights);
        FindKeeps(q, queue, open, paths, found, rest, all, next.walk);
        paths := paths + [TrustPath(newPath, newWeights, score)];
        found := found + [next.walk];
        return;
      }
      var newBudget := entry.budget - 1;
      if d.depthLimit.Some? { newBudget := Min(newBudget, d.depthLimit.value); }
      PushKeeps(q, queue, open, paths, found, rest, all, next);
      QueueSnoc(q, open, next);
      queue := queue + [Entry(newPath, newWeights, newBudget)];
      open := open + [next];
    }

    method Multiply(ws: seq<real>) returns (score: real)
      ensures score == Product(ws)
    {
      score := 1.0;
      for i := 0 to |ws|
        invariant score == Product(ws[..i])
      {
        assert ws[..i + 1][..i] == ws[..i];
        score := score * ws[i];
      }
      assert ws[..|ws|] == ws;
    }

    method MaxScore(paths: seq<TrustPath>) returns (best: real)
      requires forall p <- paths :: 0.0 <= p.score
      ensures IsBest(best, paths)
    {
      best := 0.0;
      for i := 0 to |paths|
        invariant forall j :: 0 <= j < i ==> paths[j].score <= best
        invariant if i == 0 then best == 0.0 else exists j :: 0 <= j < i && paths[j].score == best
      {
        if i == 0 || paths[i].score > best { best := paths[i].score; }
      }
    }
  }
}
