/** Fetching identities: which copy of a chain is kept, and when a fetch is finished. */
module Fetchers {
  import opened Options
  import opened Json
  import opened Events
  import opened Sigchains
  import opened ChainLaws

  // ---------------------------------------------------------------- choosing between two copies

  function HashList(c: Crypto, chain: Chain): seq<string> {
    seq(|chain|, i requires 0 <= i < |chain| => c.hash(chain[i]))
  }

  datatype Choice = Chosen(chain: Option<Chain>) | Conflict

  /** The longer copy wins when one extends the other. */
  function ChooseSigchain(c: Crypto, stored: Option<Chain>, provided: Option<Chain>): Choice {
    if provided.None? then Chosen(stored)
    else if stored.None? then Chosen(provided)
    else if HashList(c, stored.value) <= HashList(c, provided.value) then Chosen(provided)
    else if HashList(c, provided.value) <= HashList(c, stored.value) then Chosen(stored)
    else Conflict
  }

  /** On verified chains comparing hashes is comparing events. */
  lemma HashesPrefixIffPrefix(c: Crypto, a: Chain, b: Chain)
    requires Injective(c) && Valid(c, a) && Valid(c, b)
    ensures HashList(c, a) <= HashList(c, b) <==> a <= b
  {
    if HashList(c, a) <= HashList(c, b) {
      assert HashList(c, a)[|a| - 1] == HashList(c, b)[|a| - 1];
      ContainsHeadIffExtends(c, a, b);
    }
  }

  // ---------------------------------------------------------------- ingesting fetched data

  const MAX_EVENTS := 1000

  type Raw = seq<map<string, Value>>

  /** None where an event does not parse. */
  function ParseChain(raw: Raw): Option<Chain> {
    if raw == [] then Some([])
    else
      var init :- ParseChain(raw[..|raw| - 1]);
      var e :- FromDict(raw[|raw| - 1]);
      Some(init + [e])
  }

  function DictsOf(chain: Chain): Raw {
    seq(|chain|, i requires 0 <= i < |chain| => ToDict(chain[i]))
  }

  /** The dictionaries a chain is stored and sent as parse back to the chain. */
  lemma {:induction false} StoredChainReadsBack(chain: Chain)
    ensures ParseChain(DictsOf(chain)) == Some(chain)
  {
    if chain != [] {
      var n := |chain| - 1;
      StoredChainReadsBack(chain[..n]);
      assert DictsOf(chain)[..n] == DictsOf(chain[..n]);
      FromDictOfToDict(chain[n]);
      assert chain == chain[..n] + [chain[n]];
    }
  }

  ghost predicate Belongs(c: Crypto, id: string, chain: Chain) {
    Valid(c, chain) && c.hash(chain[0]) == id
  }

  /** The chain that fetched data holds, if it is a verified chain of that identity. */
  ghost function Accepted(c: Crypto, id: string, raw: Raw): Option<Chain> {
    if raw == [] || |raw| > MAX_EVENTS then None
    else
      var chain :- ParseChain(raw);
      if Belongs(c, id, chain) then Some(chain) else None
  }

  /** The chain stored for an identity once fetched data was ingested. */
  ghost function Ingested(c: Crypto, id: string, stored: Option<Chain>, raw: Raw): Option<Chain> {
    match Accepted(c, id, raw)
    case None => stored
    case Some(chain) =>
      match ChooseSigchain(c, stored, Some(chain))
      case Conflict => stored
      case Chosen(best) => if stored.None? || |best.value| > |stored.value| then best else stored
  }

  ghost predicate Sane(c: Crypto, id: string, stored: Option<Chain>) {
    stored.Some? ==> Belongs(c, id, stored.value)
  }

  predicate Comparable(a: Chain, b: Chain) {
    a <= b || b <= a
  }

  /** One offer: what is kept is verified, extends what was kept, and changes only to a longer copy that extends it. */
  lemma IngestExtends(c: Crypto, id: string, stored: Option<Chain>, raw: Raw)
    requires Injective(c) && Sane(c, id, stored)
    ensures Sane(c, id, Ingested(c, id, stored, raw))
    ensures stored.Some? ==> Ingested(c, id, stored, raw).Some? && stored.value <= Ingested(c, id, stored, raw).value
    ensures Accepted(c, id, raw).None? ==> Ingested(c, id, stored, raw) == stored
    ensures Accepted(c, id, raw).Some? ==>
      var offer := Accepted(c, id, raw).value;
      Ingested(c, id, stored, raw) ==
        if stored.None? || stored.value <= offer then Some(offer) else stored
  {
    if Accepted(c, id, raw).Some? && stored.Some? {
      var offer := Accepted(c, id, raw).value;
      HashesPrefixIffPrefix(c, stored.value, offer);
      HashesPrefixIffPrefix(c, offer, stored.value);
      if stored.value <= offer && |offer| == |stored.value| { assert stored.value == offer; }
    }
  }

  /** What is stored after a sequence of fetches. */
  ghost function IngestAll(c: Crypto, id: string, stored: Option<Chain>, offers: seq<Raw>): Option<Chain> {
    if offers == [] then stored
    else Ingested(c, id, IngestAll(c, id, stored, offers[..|offers| - 1]), offers[|offers| - 1])
  }

  /** Whatever is fetched, the chain kept is verified, hashes to its identity, and only ever grows by extension. */
  lemma {:induction false} GrowsByExtension(c: Crypto, id: string, stored: Option<Chain>, offers: seq<Raw>, n: nat)
    requires Injective(c) && Sane(c, id, stored) && n <= |offers|
    ensures var early, late := IngestAll(c, id, stored, offers[..n]), IngestAll(c, id, stored, offers);
      && Sane(c, id, early) && Sane(c, id, late)
      && (early.Some? ==> late.Some? && early.value <= late.value)
    decreases |offers|
  {
    var m := |offers| - 1;
    if n == |offers| {
      assert offers[..n] == offers;
      if n > 0 {
        GrowsByExtension(c, id, stored, offers[..m], 0);
        IngestExtendsLast(c, id, stored, offers);
      }
    } else {
      assert offers[..m][..n] == offers[..n];
      GrowsByExtension(c, id, stored, offers[..m], n);
      IngestExtendsLast(c, id, stored, offers);
    }
  }

  lemma IngestExtendsLast(c: Crypto, id: string, stored: Option<Chain>, offers: seq<Raw>)
    requires Injective(c) && offers != [] && Sane(c, id, IngestAll(c, id, stored, offers[..|offers| - 1]))
    ensures var early, late := IngestAll(c, id, stored, offers[..|offers| - 1]), IngestAll(c, id, stored, offers);
      Sane(c, id, late) && (early.Some? ==> late.Some? && early.value <= late.value)
  {
    IngestExtends(c, id, IngestAll(c, id, stored, offers[..|offers| - 1]), offers[|offers| - 1]);
  }

  /** A chain that diverges from the one kept never changes it. */
  lemma DivergingIsIgnored(c: Crypto, id: string, stored: Chain, raw: Raw)
    requires Injective(c) && Belongs(c, id, stored)
    requires Accepted(c, id, raw).Some? && !Comparable(Accepted(c, id, raw).value, stored)
    ensures Ingested(c, id, Some(stored), raw) == Some(stored)
  {
    IngestExtends(c, id, Some(stored), raw);
  }

  ghost predicate Offered(c: Crypto, id: string, offers: seq<Raw>, chain: Chain) {
    exists raw <- offers :: Accepted(c, id, raw) == Some(chain)
  }

  /** The chain is among those offered, and every chain offered is a prefix of it. */
  ghost predicate Longest(c: Crypto, id: string, offers: seq<Raw>, chain: Chain) {
    Offered(c, id, offers, chain) && forall x :: Offered(c, id, offers, x) ==> x <= chain
  }

  ghost predicate OneHistory(c: Crypto, id: string, offers: seq<Raw>) {
    forall a, b :: Offered(c, id, offers, a) && Offered(c, id, offers, b) ==> Comparable(a, b)
  }

  ghost predicate KeepsLongest(c: Crypto, id: string, offers: seq<Raw>, kept: Option<Chain>) {
    && Sane(c, id, kept)
    && (kept.None? ==> forall x :: !Offered(c, id, offers, x))
    && (kept.Some? ==> Longest(c, id, offers, kept.value))
  }

  lemma OneMore(c: Crypto, id: string, offers: seq<Raw>, kept: Option<Chain>)
    requires Injective(c) && offers != [] && OneHistory(c, id, offers)
    requires KeepsLongest(c, id, offers[..|offers| - 1], kept)
    ensures KeepsLongest(c, id, offers, Ingested(c, id, kept, offers[|offers| - 1]))
  {
    var init, last := offers[..|offers| - 1], offers[|offers| - 1];
    IngestExtends(c, id, kept, last);
    var kept' := Ingested(c, id, kept, last);
    forall x ensures Offered(c, id, offers, x) ==> kept'.Some? && x <= kept'.value {
      OfferedSplits(c, id, offers, x);
      if Offered(c, id, offers, x) && kept.Some? {
        OfferedSplits(c, id, offers, kept.value);
        assert Comparable(x, kept.value);
      }
    }
    if kept'.Some? { OfferedSplits(c, id, offers, kept'.value); }
  }

  lemma OneHistoryEarlier(c: Crypto, id: string, offers: seq<Raw>)
    requires offers != [] && OneHistory(c, id, offers)
    ensures OneHistory(c, id, offers[..|offers| - 1])
  {
    var init := offers[..|offers| - 1];
    forall a, b | Offered(c, id, init, a) && Offered(c, id, init, b) ensures Comparable(a, b) {
      OfferedSplits(c, id, offers, a);
      OfferedSplits(c, id, offers, b);
    }
  }

  /** Fetched copies of one history, in whatever order and mixed with whatever else, leave the longest of them. */
  lemma {:induction false} Converges(c: Crypto, id: string, offers: seq<Raw>)
    requires Injective(c) && OneHistory(c, id, offers)
    ensures KeepsLongest(c, id, offers, IngestAll(c, id, None, offers))
  {
    if offers != [] {
      OneHistoryEarlier(c, id, offers);
      Converges(c, id, offers[..|offers| - 1]);
      OneMore(c, id, offers, IngestAll(c, id, None, offers[..|offers| - 1]));
    }
  }

  lemma OfferedSplits(c: Crypto, id: string, offers: seq<Raw>, x: Chain)
    requires offers != []
    ensures Offered(c, id, offers, x)
       <==> Offered(c, id, offers[..|offers| - 1], x) || Accepted(c, id, offers[|offers| - 1]) == Some(x)
  {
    var n := |offers| - 1;
    if Offered(c, id, offers, x) {
      var raw :| raw in offers && Accepted(c, id, raw) == Some(x);
      var i :| 0 <= i < |offers| && offers[i] == raw;
      if i < n { assert offers[..n][i] == raw && raw in offers[..n]; }
    }
    assert offers[n] in offers;
  }

  lemma SameOffers(c: Crypto, id: string, offers: seq<Raw>, others: seq<Raw>, x: Chain)
    requires (forall raw <- offers :: raw in others) && Offered(c, id, offers, x)
    ensures Offered(c, id, others, x)
  {
    var raw :| raw in offers && Accepted(c, id, raw) == Some(x);
    assert raw in others;
  }

  /** Two fetchers that were offered the same data, in any order and any number of times, keep the same chain. */
  lemma ReplicasAgree(c: Crypto, id: string, offers: seq<Raw>, others: seq<Raw>)
    requires Injective(c) && OneHistory(c, id, offers) && forall raw :: raw in offers <==> raw in others
    ensures IngestAll(c, id, None, offers) == IngestAll(c, id, None, others)
  {
    forall x, y | Offered(c, id, others, x) && Offered(c, id, others, y) ensures Comparable(x, y) {
      SameOffers(c, id, others, offers, x);
      SameOffers(c, id, others, offers, y);
    }
    Converges(c, id, offers);
    Converges(c, id, others);
    var a, b := IngestAll(c, id, None, offers), IngestAll(c, id, None, others);
    if a.Some? { SameOffers(c, id, offers, others, a.value); }
    if b.Some? { SameOffers(c, id, others, offers, b.value); }
    if a.Some? && b.Some? {
      SamePrefixes(a.value, b.value);
    }
  }

  lemma SamePrefixes(a: Chain, b: Chain)
    requires a <= b && b <= a
    ensures a == b
  {
  }
}
