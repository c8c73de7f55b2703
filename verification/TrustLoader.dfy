/** Loading the delegations a trust calculation needs, level by level, and why what is not loaded does not matter. */
module TrustLoader {
  import opened Options
  import opened Sorting
  import opened Trust

  /** The stored delegations; each is listed under the identity that made it. */
  ghost predicate IsStore(store: Graph) {
    forall id <- store, i :: 0 <= i < |store[id]| ==> store[id][i].source == id
  }

  /** The identities at most `k` delegations away from `me`. */
  ghost predicate Within(store: Graph, me: string, k: nat, id: string) {
    id == me || (k > 0 && exists from: string, i ::
      0 <= i < |From(store, from)| && From(store, from)[i].target == id && Within(store, me, k - 1, from))
  }

  /** The graph holds the stored delegations of the identities in `loaded`, each once, and nothing else. */
  ghost predicate Holds(g: Graph, store: Graph, loaded: set<string>) {
    forall id :: From(g, id) == if id in loaded then From(store, id) else []
  }

  /** Delegations from loaded identities lead only to identities the loader has seen. */
  ghost predicate LeadsInto(store: Graph, loaded: set<string>, seen: set<string>) {
    forall id <- loaded, i :: 0 <= i < |From(store, id)| ==> From(store, id)[i].target in seen
  }

  /** The state between levels: what is loaded, what is seen, and what waits. */
  ghost predicate Loading(g: Graph, store: Graph, frontier: seq<string>, loaded: set<string>, seen: set<string>) {
    Frontier(frontier, loaded, seen) && Holds(g, store, loaded) && LeadsInto(store, loaded, seen)
  }

  /** Breadth first, `maxDepth` levels, each identity once. */
  method Load(store: Graph, me: string, maxDepth: int) returns (graph: TrustGraph)
    requires IsStore(store)
    ensures graph.myIdentity == me
    ensures exists loaded :: Holds(graph.delegations, store, loaded) && Covers(store, me, maxDepth, loaded)
  {
    graph := new TrustGraph(me);
    var frontier, seen := [me], {me};
    ghost var loaded: set<string> := {};
    var level := 0;
    while level < maxDepth
      invariant graph.myIdentity == me && fresh(graph)
      invariant Loading(graph.delegations, store, frontier, loaded, seen)
      invariant forall id :: Within(store, me, level, id) ==> id in seen
      invariant level <= maxDepth || level == 0
      invariant Covers(store, me, level, loaded)
    {
      ghost var seen0 := seen;
      frontier, seen, loaded := LoadLevel(store, graph, frontier, loaded, seen);
      NextLevel(store, me, level, loaded, seen0, seen);
      level := level + 1;
    }
    assert Covers(store, me, maxDepth, loaded);
  }

  /** One level: every identity on the frontier is loaded, and the new targets make the next frontier. */
  method LoadLevel(store: Graph, graph: TrustGraph, frontier: seq<string>, ghost loaded0: set<string>, seen0: set<string>)
    returns (next: seq<string>, seen: set<string>, ghost loaded: set<string>)
    requires IsStore(store) && Loading(graph.delegations, store, frontier, loaded0, seen0)
    modifies graph
    ensures Loading(graph.delegations, store, next, loaded, seen) && seen0 <= loaded <= seen
  {
    next, seen, loaded := [], seen0, loaded0;
    assert frontier[0..] + next == frontier;
    for i := 0 to |frontier|
      invariant Loading(graph.delegations, store, frontier[i..] + next, loaded, seen) && seen0 <= seen
      invariant loaded0 <= loaded && forall x <- frontier[..i] :: x in loaded
    {
      assert frontier[i..] + next == [frontier[i]] + (frontier[i + 1..] + next);
      next, seen := LoadOne(store, graph, frontier[i], loaded, seen, frontier[i + 1..], next);
      loaded := loaded + {frontier[i]};
      assert frontier[..i + 1] == frontier[..i] + [frontier[i]];
    }
    assert frontier[|frontier|..] + next == next && frontier[..|frontier|] == frontier;
  }

  /** The identities a search of depth `k` asks for are loaded. */
  ghost predicate Covers(store: Graph, me: string, k: int, loaded: set<string>) {
    k > 0 ==> forall id :: Within(store, me, k - 1, id) ==> id in loaded
  }

  /** What has been seen is what has been loaded and, waiting on the frontier once each, the rest. */
  ghost predicate Frontier(frontier: seq<string>, loaded: set<string>, seen: set<string>) {
    && NoDuplicates(frontier)
    && (forall id <- frontier :: id !in loaded)
    && seen == loaded + (set id | id in frontier)
  }

  /** Copies one identity's delegations and queues the targets not seen before. */
  method LoadOne(store: Graph, graph: TrustGraph, id: string, ghost loaded: set<string>, seen0: set<string>,
                 ghost ahead: seq<string>, next0: seq<string>)
    returns (next: seq<string>, seen: set<string>)
    requires IsStore(store) && Loading(graph.delegations, store, [id] + (ahead + next0), loaded, seen0)
    modifies graph
    ensures Loading(graph.delegations, store, ahead + next, loaded + {id}, seen) && seen0 <= seen
  {
    next, seen := next0, seen0;
    var ds := From(store, id);
    DropHead(id, ahead + next0, loaded, seen0);
    ghost var g0 := graph.delegations;
    for i := 0 to |ds|
      invariant Frontier(ahead + next, loaded + {id}, seen) && seen0 <= seen
      invariant OnlyAdded(g0, graph.delegations, id, ds[..i])
      invariant forall j :: 0 <= j < i ==> ds[j].target in seen
    {
      AddedOneMore(g0, graph.delegations, id, ds, i);
      graph.AddDelegation(ds[i]);
      next, seen := Queue(ds[i].target, ahead, next, loaded + {id}, seen);
    }
    assert ds[..|ds|] == ds;
    LoadedOneMore(store, g0, graph.delegations, id, loaded, seen0, seen);
  }

  /** Puts a target on the next frontier unless it has been seen. */
  method Queue(target: string, ghost ahead: seq<string>, next0: seq<string>, ghost loaded: set<string>, seen0: set<string>)
    returns (next: seq<string>, seen: set<string>)
    requires Frontier(ahead + next0, loaded, seen0)
    ensures Frontier(ahead + next, loaded, seen) && seen == seen0 + {target}
  {
    next, seen := next0, seen0;
    if target !in seen {
      AddNew(ahead + next, loaded, seen, target);
      assert ahead + (next + [target]) == (ahead + next) + [target];
      seen := seen + {target};
      next := next + [target];
    }
  }

  /** From `g0` to `g` only `id` gained delegations: `ds`, having had none. */
  ghost predicate OnlyAdded(g0: Graph, g: Graph, id: string, ds: seq<Delegation>) {
    && From(g0, id) == [] && From(g, id) == ds
    && forall x :: x != id ==> From(g, x) == From(g0, x)
  }

  lemma AddedOneMore(g0: Graph, g: Graph, id: string, ds: seq<Delegation>, i: nat)
    requires i < |ds| && OnlyAdded(g0, g, id, ds[..i])
    ensures OnlyAdded(g0, g[id := From(g, id) + [ds[i]]], id, ds[..i + 1])
  {
    assert ds[..i + 1] == ds[..i] + [ds[i]];
  }

  lemma LoadedOneMore(store: Graph, g0: Graph, g: Graph, id: string, loaded: set<string>, seen0: set<string>, seen: set<string>)
    requires Holds(g0, store, loaded) && LeadsInto(store, loaded, seen0) && seen0 <= seen
    requires OnlyAdded(g0, g, id, From(store, id)) && id !in loaded
    requires forall j :: 0 <= j < |From(store, id)| ==> From(store, id)[j].target in seen
    ensures Holds(g, store, loaded + {id}) && LeadsInto(store, loaded + {id}, seen)
  {
  }

  lemma DropHead(id: string, rest: seq<string>, loaded: set<string>, seen: set<string>)
    requires Frontier([id] + rest, loaded, seen)
    ensures Frontier(rest, loaded + {id}, seen) && id !in loaded
  {
    var all := [id] + rest;
    assert forall i | 0 <= i < |rest| :: rest[i] == all[i + 1];
    assert all[0] == id;
  }

  lemma AddNew(frontier: seq<string>, loaded: set<string>, seen: set<string>, id: string)
    requires Frontier(frontier, loaded, seen) && id !in seen
    ensures Frontier(frontier + [id], loaded, seen + {id})
  {
  }

  /** Once all identities seen so far are loaded, all identities one step further have been seen. */
  lemma NextLevel(store: Graph, me: string, level: nat, loaded: set<string>, seen0: set<string>, seen: set<string>)
    requires forall id :: Within(store, me, level, id) ==> id in seen0
    requires seen0 <= loaded <= seen && LeadsInto(store, loaded, seen)
    ensures forall id :: Within(store, me, level + 1, id) ==> id in seen
    ensures Covers(store, me, level + 1, loaded)
  {
    forall id | Within(store, me, level + 1, id) ensures id in seen {
      if id == me {
        assert Within(store, me, level, me);
      } else {
        var from: string, i :| 0 <= i < |From(store, from)| && From(store, from)[i].target == id && Within(store, me, level, from);
      }
    }
  }

  // ---------------------------------------------------------------- nothing is lost

  /** A walk in the store stays within reach. */
  lemma {:induction false} WalkStaysWithin(q: Query, w: Walk, k: nat)
    requires IsWalk(q.g, q.me, w) && k <= |w|
    ensures Within(q.g, q.me, k, HopAt(q.me, w, k))
  {
    if k > 0 {
      WalkStaysWithin(q, w, k - 1);
      assert HopOk(q.g, q.me, w, k - 1);
    }
  }

  /** The loaded graph and the whole store have the same trust paths. */
  lemma SamePaths(store: Graph, g: Graph, loaded: set<string>, q: Query, maxDepth: int, w: Walk)
    requires Holds(g, store, loaded) && Covers(store, q.me, maxDepth, loaded)
    ensures IsTrustPath(q.(g := g), maxDepth, w) <==> IsTrustPath(q.(g := store), maxDepth, w)
  {
    if IsTrustPath(q.(g := g), maxDepth, w) { LoadedWalkIsStored(store, g, loaded, q, w); }
    if IsTrustPath(q.(g := store), maxDepth, w) { StoredWalkIsLoaded(store, g, loaded, q, maxDepth, w); }
  }

  lemma LoadedWalkIsStored(store: Graph, g: Graph, loaded: set<string>, q: Query, w: Walk)
    requires Holds(g, store, loaded) && IsWalk(g, q.me, w)
    ensures IsWalk(store, q.me, w)
  {
    forall i | 0 <= i < |w| ensures HopOk(store, q.me, w, i) { assert HopOk(g, q.me, w, i); }
  }

  lemma StoredWalkIsLoaded(store: Graph, g: Graph, loaded: set<string>, q: Query, maxDepth: int, w: Walk)
    requires Holds(g, store, loaded) && Covers(store, q.me, maxDepth, loaded)
    requires IsWalk(store, q.me, w) && |w| <= maxDepth
    ensures IsWalk(g, q.me, w)
  {
    forall i | 0 <= i < |w| ensures HopOk(g, q.me, w, i) {
      assert HopOk(store, q.me, w, i);
      WalkStaysWithin(q.(g := store), w, i);
      WithinGrows(store, q.me, i, maxDepth - 1, HopAt(q.me, w, i));
    }
  }

  lemma {:induction false} WithinGrows(store: Graph, me: string, k: nat, n: nat, id: string)
    requires k <= n && Within(store, me, k, id)
    ensures Within(store, me, n, id)
  {
    if id != me {
      var from: string, i :| 0 <= i < |From(store, from)| && From(store, from)[i].target == id && Within(store, me, k - 1, from);
      WithinGrows(store, me, k - 1, n - 1, from);
    }
  }

  /** An answer for the loaded graph is an answer for the whole store: the same paths, scores and best score. */
  lemma LoadLosesNothing(store: Graph, g: Graph, loaded: set<string>, q: Query, maxDepth: int, r: TrustResult)
    requires Holds(g, store, loaded) && Covers(store, q.me, maxDepth, loaded)
    ensures IsAnswer(q.(g := g), maxDepth, r) <==> IsAnswer(q.(g := store), maxDepth, r)
  {
    forall w ensures IsTrustPath(q.(g := g), maxDepth, w) <==> IsTrustPath(q.(g := store), maxDepth, w) {
      SamePaths(store, g, loaded, q, maxDepth, w);
    }
    forall found ensures AreTheTrustPaths(q.(g := g), maxDepth, found) <==> AreTheTrustPaths(q.(g := store), maxDepth, found) {}
  }

  /** The route handler: load, then search. Its answer is the one the whole store gives. */
  method CalculateFromStore(store: Graph, me: string, subject: string, claimType: Option<string>, requested: int)
    returns (r: TrustResult)
    requires IsStore(store)
    ensures IsAnswer(Query(store, me, subject, claimType), if requested < 1 then 1 else if requested > 6 then 6 else requested, r)
  {
    var maxDepth := ClampDepth(requested);
    var graph := Load(store, me, maxDepth);
    r := graph.CalculateTrust(subject, claimType, maxDepth);
    ghost var loaded :| Holds(graph.delegations, store, loaded) && Covers(store, me, maxDepth, loaded);
    LoadLosesNothing(store, graph.delegations, loaded, Query(store, me, subject, claimType), maxDepth, r);
  }

  /** The handler allows depths from 1 to 6. */
  function ClampDepth(requested: int): int {
    if requested < 1 then 1 else if requested > 6 then 6 else requested
  }
}
