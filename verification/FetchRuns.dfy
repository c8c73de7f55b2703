/** Fetching while sign-ins keep asking: an attempt awaits the network, and the queue changes under it. */
module FetchRuns {
  import opened Options
  import opened Sorting
  import opened Events
  import opened Sigchains
  import opened ChainLaws
  import opened Fetchers
  import opened FetchQueues

  datatype Setting = Setting(c: Crypto, validate: string -> Option<string>, seeds: seq<string>)

  /** A row as the query for due fetches read it. */
  datatype Selected = Selected(id: string, row: Row)

  /** What the worker does: nothing, one attempt with the sources it has yet to ask, or telling the listener that the
      attempt it finished brought something new. */
  datatype Work = Resting | Attempting(id: string, begun: Row, now: int, sources: seq<string>, updated: bool) | Notifying

  /** What is stored, the queue, the rows read but not attempted yet, the attempt under way; and, for each fetch that
      was finished, the head its attempt began with. */
  datatype State = Fetching(storage: map<string, Chain>, rows: map<string, Row>, batch: seq<Selected>, work: Work,
                            begunWith: map<string, Option<string>>)

  datatype Action =
    | Schedule(id: string, hints: seq<string>, want: Option<string>, now: int)
    | Select(ids: seq<string>, now: int)
    | Begin(now: int)
    | Ask(answer: Answer)
    | Finish
    | Save(id: string, chain: Chain)
    | Restart

  const IDLE := Fetching(map[], map[], [], Resting, map[])

  predicate Due(rows: map<string, Row>, id: string, now: int) {
    id in rows && rows[id].state == Pending && rows[id].nextAttemptAt <= now
  }

  function Read(rows: map<string, Row>, ids: seq<string>): seq<Selected>
    requires forall id <- ids :: id in rows
  {
    if ids == [] then [] else [Selected(ids[0], rows[ids[0]])] + Read(rows, ids[1..])
  }

  /** An attempt starts from the row as it was read, and gives up a fetch that is too old. */
  function BeginStep(e: Setting, s: State, now: int): Option<State> {
    if s.work.Attempting? || s.batch == [] || s.batch[0].id !in s.rows then None
    else
      var id, row := s.batch[0].id, s.batch[0].row;
      var next := s.(batch := s.batch[1..], work := Resting);
      if now - row.createdAt > MAX_AGE then
        Some(next.(rows := s.rows[id := s.rows[id].(state := Abandoned, attempts := row.attempts, lastAttemptAt := Some(now))]))
      else
        Some(next.(work := Attempting(id, row, now, Sources(e.validate, row.hints, StoredAt(s.storage, id), e.seeds), false)))
  }

  function Put(storage: map<string, Chain>, id: string, chain: Option<Chain>): map<string, Chain> {
    if chain.Some? then storage[id := chain.value] else storage
  }

  /** One source answers; once the fetch is satisfied no other is asked. */
  ghost function AskStep(e: Setting, s: State, answer: Answer): Option<State> {
    if !s.work.Attempting? || s.work.sources == [] then None
    else
      var id, rest := s.work.id, s.work.sources[1..];
      if Empty(answer) then Some(s.(work := s.work.(sources := rest)))
      else
        var next := Ingested(e.c, id, StoredAt(s.storage, id), answer.raw);
        Some(s.(storage := Put(s.storage, id, next),
                work := s.work.(sources := if Satisfies(e.c, next, s.work.begun.wantHead) then [] else rest,
                                updated := s.work.updated || next != StoredAt(s.storage, id))))
  }

  /** The row is brought up to date by what the attempt began with; the rest of it is as it is now. */
  ghost function FinishStep(e: Setting, s: State): Option<State> {
    if !s.work.Attempting? || s.work.sources != [] || s.work.id !in s.rows then None
    else
      var id, begun := s.work.id, s.work.begun;
      var done := Satisfies(e.c, StoredAt(s.storage, id), begun.wantHead);
      Some(s.(rows := s.rows[id := Attempted(s.rows[id].(attempts := begun.attempts), done, s.work.now)],
              work := if s.work.updated then Notifying else Resting,
              begunWith := if done then s.begunWith[id := begun.wantHead] else s.begunWith))
  }

  /** Everything runs on one thread, which the worker gives up only here: before it reads the due rows, while it awaits
      a source's answer, and while it awaits the listener. */
  predicate Suspended(s: State) {
    match s.work
    case Resting => s.batch == []
    case Attempting(_, _, _, sources, _) => sources != []
    case Notifying => true
  }

  /** Another part of the node saves a verified chain that extends what is stored. */
  ghost predicate Extends(c: Crypto, s: State, id: string, chain: Chain) {
    Belongs(c, id, chain) && (id in s.storage ==> s.storage[id] <= chain)
  }

  /** None when the action cannot happen now. Sign-ins schedule fetches, and other parts save chains, only while the worker
      is suspended; a restart loses what was under way. */
  ghost function Step(e: Setting, s: State, a: Action): Option<State> {
    match a
    case Schedule(id, hints, want, now) =>
      if !Suspended(s) then None else Some(s.(rows := Scheduled(e.validate, s.rows, id, hints, want, now).0))
    case Select(ids, now) =>
      if s.work.Attempting? || s.batch != [] || !NoDuplicates(ids) || exists id <- ids :: !Due(s.rows, id, now) then None
      else Some(s.(batch := Read(s.rows, ids), work := Resting))
    case Begin(now) => BeginStep(e, s, now)
    case Ask(answer) => AskStep(e, s, answer)
    case Finish => FinishStep(e, s)
    case Save(id, chain) =>
      if !Suspended(s) || !Extends(e.c, s, id, chain) then None else Some(s.(storage := s.storage[id := chain]))
    case Restart => Some(s.(batch := [], work := Resting))
  }

  ghost function Run(e: Setting, actions: seq<Action>): Option<State> {
    if actions == [] then Some(IDLE)
    else
      var s :- Run(e, actions[..|actions| - 1]);
      Step(e, s, actions[|actions| - 1])
  }

  // ---------------------------------------------------------------- what every run keeps

  ghost predicate Sound(e: Setting, s: State) {
    && (forall id <- s.storage :: Belongs(e.c, id, s.storage[id]))
    && (forall id <- s.rows :: s.rows[id].state == Done ==> Found(e, s, id))
  }

  /** What the finishing attempt began with is stored. */
  ghost predicate Found(e: Setting, s: State, id: string) {
    id in s.begunWith && Satisfies(e.c, StoredAt(s.storage, id), s.begunWith[id])
  }

  /** A chain is stored that extends the one there was. */
  lemma GrowingKeeps(e: Setting, s: State, s': State, id: string, chain: Chain)
    requires Sound(e, s) && s'.rows == s.rows && s'.begunWith == s.begunWith
    requires Extends(e.c, s, id, chain) && s'.storage == s.storage[id := chain]
    ensures Sound(e, s') && Grown(s.storage, s'.storage)
  {
    forall i | i in s'.rows && s'.rows[i].state == Done ensures Found(e, s', i) {
      assert Found(e, s, i);
      SatisfiedStays(e.c, StoredAt(s.storage, i), StoredAt(s'.storage, i), s.begunWith[i]);
    }
  }

  lemma SameStorageKeeps(e: Setting, s: State, s': State)
    requires Sound(e, s) && s'.rows == s.rows && s'.begunWith == s.begunWith && s'.storage == s.storage
    ensures Sound(e, s') && Grown(s.storage, s'.storage)
  {
    forall i | i in s'.rows && s'.rows[i].state == Done ensures Found(e, s', i) { assert Found(e, s, i); }
  }

  lemma AskKeeps(e: Setting, s: State, s': State, answer: Answer)
    requires Injective(e.c) && Sound(e, s) && AskStep(e, s, answer) == Some(s')
    ensures Sound(e, s') && Grown(s.storage, s'.storage)
  {
    var id := s.work.id;
    if Empty(answer) {
      SameStorageKeeps(e, s, s');
    } else {
      IngestExtends(e.c, id, StoredAt(s.storage, id), answer.raw);
      var next := Ingested(e.c, id, StoredAt(s.storage, id), answer.raw);
      if next.Some? { GrowingKeeps(e, s, s', id, next.value); } else { SameStorageKeeps(e, s, s'); }
    }
  }

  lemma QueueKeeps(e: Setting, s: State, s': State, a: Action)
    requires Sound(e, s) && (a.Schedule? || a.Select? || a.Begin? || a.Restart?) && Step(e, s, a) == Some(s')
    ensures Sound(e, s') && s'.storage == s.storage
  {
    forall i | i in s'.rows && s'.rows[i].state == Done ensures Found(e, s', i) {
      assert Found(e, s, i);
    }
  }

  lemma FinishKeeps(e: Setting, s: State, s': State)
    requires Sound(e, s) && FinishStep(e, s) == Some(s')
    ensures Sound(e, s') && s'.storage == s.storage
  {
    forall i | i in s'.rows && s'.rows[i].state == Done ensures Found(e, s', i) {
      if i != s.work.id { assert Found(e, s, i); }
    }
  }

  lemma {:induction false} RunIsSound(e: Setting, actions: seq<Action>)
    requires Injective(e.c) && Run(e, actions).Some?
    ensures Sound(e, Run(e, actions).value)
  {
    if actions != [] {
      var n := |actions| - 1;
      RunIsSound(e, actions[..n]);
      var s, s' := Run(e, actions[..n]).value, Run(e, actions).value;
      match actions[n]
      case Ask(answer) => AskKeeps(e, s, s', answer);
      case Finish => FinishKeeps(e, s, s');
      case Save(id, chain) => GrowingKeeps(e, s, s', id, chain);
      case _ => QueueKeeps(e, s, s', actions[n]);
    }
  }

  /** In every run a finished fetch has stored what its last attempt began with; whether that is what is wanted now, the
      row cannot tell. */
  lemma DoneHasWhatItBeganWith(e: Setting, actions: seq<Action>, id: string)
    requires Injective(e.c) && Run(e, actions).Some?
    requires id in Run(e, actions).value.rows && Run(e, actions).value.rows[id].state == Done
    ensures var s := Run(e, actions).value;
      && id in s.begunWith && id in s.storage && Belongs(e.c, id, s.storage[id])
      && (s.begunWith[id].Some? ==> Contains(e.c, s.storage[id], s.begunWith[id].value))
  {
    RunIsSound(e, actions);
    assert Found(e, Run(e, actions).value, id);
  }

  // ---------------------------------------------------------------- an attempt nothing interrupts

  /** The sources answer, one after the other, until none is left to ask. */
  ghost function Asking(e: Setting, s: State, fetch: string -> Answer): (r: State)
    requires s.work.Attempting?
    ensures r.work.Attempting?
    decreases |s.work.sources|
  {
    if s.work.sources == [] then s else Asking(e, AskStep(e, s, fetch(s.work.sources[0])).value, fetch)
  }

  lemma {:induction false} AskingIsFetching(e: Setting, s: State, fetch: string -> Answer)
    requires s.work.Attempting?
    ensures var id, s' := s.work.id, Asking(e, s, fetch);
      && StoredAt(s'.storage, id)
         == FetchFrom(e.c, id, StoredAt(s.storage, id), s.work.begun.wantHead, fetch, s.work.sources)
      && (forall other :: other != id ==> StoredAt(s'.storage, other) == StoredAt(s.storage, other))
      && s' == s.(storage := s'.storage, work := s.work.(sources := [], updated := s'.work.updated))
    decreases |s.work.sources|
  {
    if s.work.sources != [] {
      var next := AskStep(e, s, fetch(s.work.sources[0])).value;
      AskingIsFetching(e, next, fetch);
      IngestedStays(e.c, s.work.id, StoredAt(s.storage, s.work.id), fetch(s.work.sources[0]));
    }
  }

  /** Ingesting stores a chain or leaves what is stored, so putting it back loses nothing. */
  lemma IngestedStays(c: Crypto, id: string, stored: Option<Chain>, answer: Answer)
    ensures !Empty(answer) ==> (Ingested(c, id, stored, answer.raw).None? ==> stored.None?)
  {
  }

  /** Uninterrupted, an attempt does what one call of the handler does. */
  lemma UninterruptedAttempt(e: Setting, s: State, now: int, fetch: string -> Answer)
    requires !s.work.Attempting? && s.batch != [] && s.batch[0].id in s.rows && s.batch[0].row == s.rows[s.batch[0].id]
    requires now - s.batch[0].row.createdAt <= MAX_AGE
    ensures BeginStep(e, s, now).Some?
    ensures var id, row, begun := s.batch[0].id, s.batch[0].row, BeginStep(e, s, now).value;
      && FinishStep(e, Asking(e, begun, fetch)).Some?
      && var s' := FinishStep(e, Asking(e, begun, fetch)).value;
      && s'.rows == s.rows[id := Attempted(row, Satisfies(e.c, StoredAt(s'.storage, id), row.wantHead), now)]
      && StoredAt(s'.storage, id) == FetchFrom(e.c, id, StoredAt(s.storage, id), row.wantHead, fetch,
                                               Sources(e.validate, row.hints, StoredAt(s.storage, id), e.seeds))
      && forall other :: other != id ==> StoredAt(s'.storage, other) == StoredAt(s.storage, other)
  {
    AskingIsFetching(e, BeginStep(e, s, now).value, fetch);
  }

  // ---------------------------------------------------------------- a head asked for while an attempt is under way

  /** A fetch that began with one head wanted, ended, and has another wanted in its row. */
  ghost predicate EndedWith(e: Setting, actions: seq<Action>, id: string, begun: Option<string>, want: string) {
    && Run(e, actions).Some?
    && var s := Run(e, actions).value;
    && id in s.rows && s.rows[id].state == Done && s.rows[id].wantHead == Some(want)
    && id in s.begunWith && s.begunWith[id] == begun
  }

  ghost predicate HeadIsKept(e: Setting, id: string, begun: Option<string>, want: string) {
    forall actions :: EndedWith(e, actions, id, begun, want)
      ==> Satisfies(e.c, StoredAt(Run(e, actions).value.storage, id), Some(want))
  }

  /** The shortest chain of the identity that satisfies an attempt. */
  ghost predicate Shortest(c: Crypto, id: string, begun: Option<string>, b: Chain) {
    && Belongs(c, id, b)
    && match begun case None => |b| == 1 case Some(head) => head == Head(c, b)
  }

  lemma ShortestIsPrefix(c: Crypto, id: string, begun: Option<string>, b: Chain, stored: Chain)
    requires Injective(c) && Shortest(c, id, begun, b)
    requires Belongs(c, id, stored) && Satisfies(c, Some(stored), begun)
    ensures b <= stored
  {
    assert Contains(c, stored, Head(c, b)) by { assert c.hash(stored[0]) == c.hash(b[0]); }
    ContainsHeadIffExtends(c, b, stored);
  }

  /** What follows from the head the attempt began with is what stands on the chain up to it. */
  lemma Sufficient(e: Setting, id: string, begun: Option<string>, b: Chain, want: string, actions: seq<Action>)
    requires Injective(e.c) && Shortest(e.c, id, begun, b) && Contains(e.c, b, want)
    requires EndedWith(e, actions, id, begun, want)
    ensures Satisfies(e.c, StoredAt(Run(e, actions).value.storage, id), Some(want))
  {
    DoneHasWhatItBeganWith(e, actions, id);
    var stored := Run(e, actions).value.storage[id];
    ShortestIsPrefix(e.c, id, begun, b, stored);
    SatisfiedStays(e.c, Some(b), Some(stored), Some(want));
  }

  /** Some source can be asked: a seed node, or one that a sign-in names. */
  ghost predicate Usable(e: Setting) {
    e.seeds != [] || exists hint :: e.validate(hint).Some?
  }

  /** A fetch scheduled with these hints has a source to ask. */
  predicate Sourced(e: Setting, hints: seq<string>) {
    Sources(e.validate, CleanHints(e.validate, hints), None, e.seeds) != []
  }

  /** The attempt has begun and awaits its first answer when another head is asked for. */
  function LosingStart(id: string, hints: seq<string>, begun: Option<string>, want: string): seq<Action> {
    [Schedule(id, hints, begun, 0), Select([id], 0), Begin(0), Schedule(id, [], Some(want), 0)]
  }

  /** The first source has the chain the attempt began to look for. */
  function LosingRun(id: string, hints: seq<string>, begun: Option<string>, b: Chain, want: string): seq<Action> {
    LosingStart(id, hints, begun, want) + [Ask(Events(DictsOf(b)))] + [Finish]
  }

  lemma IngestFirstCopy(c: Crypto, id: string, b: Chain)
    requires Belongs(c, id, b) && |b| <= MAX_EVENTS
    ensures Ingested(c, id, None, DictsOf(b)) == Some(b)
  {
    StoredChainReadsBack(b);
  }

  lemma RunOne(e: Setting, actions: seq<Action>, a: Action, s: State)
    requires Run(e, actions) == Some(s)
    ensures Run(e, actions + [a]) == Step(e, s, a)
  {
    var all := actions + [a];
    assert |all| - 1 == |actions| && all[..|actions|] == actions && all[|actions|] == a;
  }

  function Waiting(e: Setting, hints: seq<string>, begun: Option<string>): Row {
    NewRow(CleanHints(e.validate, hints), begun, 0)
  }

  /** The worker awaits its first answer; `row` is the row as it is now. */
  function Awaiting(e: Setting, id: string, waiting: Row, row: Row): State {
    Fetching(map[], map[id := row], [], Attempting(id, waiting, 0, Sources(e.validate, waiting.hints, None, e.seeds), false),
             map[])
  }

  lemma LosingBegins(e: Setting, id: string, hints: seq<string>, begun: Option<string>, want: string)
    requires IdentityText(id)
    ensures var waiting := Waiting(e, hints, begun);
      Run(e, LosingStart(id, hints, begun, want)[..3]) == Some(Awaiting(e, id, waiting, waiting))
  {
    var all, waiting := LosingStart(id, hints, begun, want), Waiting(e, hints, begun);
    var s1 := IDLE.(rows := map[id := waiting]);
    var s2 := s1.(batch := [Selected(id, waiting)]);
    assert all[..1] == [] + [all[0]] && all[..2] == all[..1] + [all[1]] && all[..3] == all[..2] + [all[2]];
    NothingPends(IDLE.rows);
    RunOne(e, [], all[0], IDLE);
    assert Read(s1.rows, [id]) == s2.batch;
    RunOne(e, all[..1], all[1], s1);
    RunOne(e, all[..2], all[2], s2);
  }

  lemma NoHintsAdded(e: Setting, row: Row, want: string)
    requires |row.hints| <= MAX_SOURCES && row.lastAttemptAt == None && row.nextAttemptAt == 0 && want != ""
    ensures Rescheduled(row, CleanHints(e.validate, []), Some(want), 0) == row.(wantHead := Some(want))
  {
    assert CleanHints(e.validate, []) == [];
  }

  lemma LosingChanges(e: Setting, id: string, hints: seq<string>, begun: Option<string>, want: string)
    requires IdentityText(id) && want != "" && Sourced(e, hints)
    ensures var waiting := Waiting(e, hints, begun);
      Run(e, LosingStart(id, hints, begun, want)) == Some(Awaiting(e, id, waiting, waiting.(wantHead := Some(want))))
  {
    var all, waiting := LosingStart(id, hints, begun, want), Waiting(e, hints, begun);
    var s := Awaiting(e, id, waiting, waiting);
    LosingBegins(e, id, hints, begun, want);
    assert all == all[..3] + [all[3]];
    NoHintsAdded(e, waiting, want);
    assert s.rows[id := waiting.(wantHead := Some(want))] == map[id := waiting.(wantHead := Some(want))];
    RunOne(e, all[..3], all[3], s);
  }

  lemma NothingPends(rows: map<string, Row>)
    requires rows == map[]
    ensures PendingCount(rows) == 0
  {
    assert PendingIds(rows) == {};
  }

  lemma LosingAsks(e: Setting, s: State, id: string, begun: Option<string>, b: Chain)
    requires Shortest(e.c, id, begun, b) && |b| <= MAX_EVENTS
    requires s.work.Attempting? && s.work.id == id && s.work.begun.wantHead == begun && s.work.sources != []
    requires id !in s.storage
    ensures AskStep(e, s, Events(DictsOf(b)))
         == Some(s.(storage := s.storage[id := b], work := s.work.(sources := [], updated := true)))
  {
    IngestFirstCopy(e.c, id, b);
    assert Satisfies(e.c, Some(b), begun);
    assert !Empty(Events(DictsOf(b)));
  }

  /** The attempt ends as done, whatever its row wants now. */
  lemma LosingFinishes(e: Setting, s: State, id: string, begun: Option<string>, b: Chain)
    requires Shortest(e.c, id, begun, b) && s.storage == map[id := b] && id in s.rows
    requires s.work.Attempting? && s.work.id == id && s.work.sources == [] && s.work.begun.wantHead == begun
    ensures FinishStep(e, s).Some?
    ensures var s' := FinishStep(e, s).value;
      && s'.storage == s.storage && id in s'.rows && s'.rows[id].state == Done && s'.rows[id].wantHead == s.rows[id].wantHead
      && id in s'.begunWith && s'.begunWith[id] == begun
  {
    assert Satisfies(e.c, Some(b), begun);
  }

  /** The chain is stored, and the row, which wants another head, is still to be brought up to date. */
  function Overtaken(e: Setting, id: string, hints: seq<string>, begun: Option<string>, b: Chain, want: string): State {
    var waiting := Waiting(e, hints, begun);
    Fetching(map[id := b], map[id := waiting.(wantHead := Some(want))], [], Attempting(id, waiting, 0, [], true), map[])
  }

  lemma LosingAsked(e: Setting, id: string, hints: seq<string>, begun: Option<string>, b: Chain, want: string)
    requires Shortest(e.c, id, begun, b) && IdentityText(id) && |b| <= MAX_EVENTS && want != "" && Sourced(e, hints)
    ensures Run(e, LosingStart(id, hints, begun, want) + [Ask(Events(DictsOf(b)))])
         == Some(Overtaken(e, id, hints, begun, b, want))
  {
    var start, waiting := LosingStart(id, hints, begun, want), Waiting(e, hints, begun);
    var s := Awaiting(e, id, waiting, waiting.(wantHead := Some(want)));
    LosingChanges(e, id, hints, begun, want);
    LosingAsks(e, s, id, begun, b);
    assert s.storage[id := b] == map[id := b];
    RunOne(e, start, Ask(Events(DictsOf(b))), s);
  }

  /** A run that loses a head: it is asked for while the attempt awaits its first answer. */
  lemma LosingEnds(e: Setting, id: string, hints: seq<string>, begun: Option<string>, b: Chain, want: string)
    requires Shortest(e.c, id, begun, b) && IdentityText(id) && |b| <= MAX_EVENTS && want != "" && Sourced(e, hints)
    ensures var all := LosingRun(id, hints, begun, b, want);
      && EndedWith(e, all, id, begun, want) && StoredAt(Run(e, all).value.storage, id) == Some(b)
  {
    var s := Overtaken(e, id, hints, begun, b, want);
    LosingAsked(e, id, hints, begun, b, want);
    LosingFinishes(e, s, id, begun, b);
    RunOne(e, LosingStart(id, hints, begun, want) + [Ask(Events(DictsOf(b)))], Finish, s);
  }

  // ---------------------------------------------------------------- when there is nothing to ask

  lemma {:induction false} AddNewGrows(list: seq<string>, more: seq<string>)
    ensures |AddNew(list, more)| >= |list| && (more != [] ==> AddNew(list, more) != [])
  {
    if more != [] { AddNewGrows(list, more[..|more| - 1]); }
  }

  lemma UsableIsSourced(e: Setting) returns (hints: seq<string>)
    requires Usable(e)
    ensures Sourced(e, hints)
  {
    hints := [];
    if e.seeds == [] {
      var hint :| e.validate(hint).Some?;
      hints := [hint];
      assert Validated(e.validate, hints) == [e.validate(hint).value];
      AddNewGrows([], Validated(e.validate, hints));
    }
    var clean := CleanHints(e.validate, hints);
    AddNewGrows(clean, []);
    AddNewGrows(AddNew(clean, []), e.seeds);
    assert Validated(e.validate, []) == [];
  }

  lemma {:induction false} NothingValidated(e: Setting, urls: seq<string>)
    requires !Usable(e)
    ensures Validated(e.validate, urls) == []
  {
    if urls != [] { NothingValidated(e, urls[..|urls| - 1]); }
  }

  lemma NoSources(e: Setting, stored: Option<Chain>)
    requires !Usable(e)
    ensures Sources(e.validate, [], stored, e.seeds) == []
  {
    NothingValidated(e, if stored.Some? then Points(stored.value) else []);
  }

  lemma NoHints(e: Setting, hints: seq<string>)
    requires !Usable(e)
    ensures CleanHints(e.validate, hints) == []
  {
    NothingValidated(e, hints);
  }

  /** No row has a hint, a row read is still what it was, and a finished fetch ended with the head it began with. */
  ghost predicate Settles(s: State) {
    && (forall id <- s.rows :: s.rows[id].hints == [])
    && (forall x <- s.batch :: Unchanged(s, x.id, x.row))
    && (s.work.Attempting? ==> s.work.sources == [] && Unchanged(s, s.work.id, s.work.begun))
    && s.work != Notifying
    && (s.work.Attempting? ==> !s.work.updated)
    && (forall id <- s.rows :: s.rows[id].state == Done ==> id in s.begunWith && s.begunWith[id] == s.rows[id].wantHead)
  }

  ghost predicate Unchanged(s: State, id: string, row: Row) {
    id in s.rows && row.hints == [] && s.rows[id].wantHead == row.wantHead
  }

  lemma ScheduleSettles(e: Setting, s: State, s': State, a: Action)
    requires !Usable(e) && Settles(s) && a.Schedule? && Step(e, s, a) == Some(s')
    ensures Settles(s')
  {
    NoHints(e, a.hints);
  }

  lemma {:induction false} ReadUnchanged(s: State, ids: seq<string>)
    requires (forall id <- s.rows :: s.rows[id].hints == []) && forall id <- ids :: id in s.rows
    ensures forall x <- Read(s.rows, ids) :: Unchanged(s, x.id, x.row)
  {
    if ids != [] { ReadUnchanged(s, ids[1..]); }
  }

  lemma SelectSettles(e: Setting, s: State, s': State, a: Action)
    requires Settles(s) && a.Select? && Step(e, s, a) == Some(s')
    ensures Settles(s')
  {
    ReadUnchanged(s, a.ids);
    forall x | x in s'.batch ensures Unchanged(s', x.id, x.row) { assert Unchanged(s, x.id, x.row); }
  }

  lemma BeginSettles(e: Setting, s: State, s': State, now: int)
    requires !Usable(e) && Settles(s) && BeginStep(e, s, now) == Some(s')
    ensures Settles(s')
  {
    assert s.batch[0] in s.batch;
    NoSources(e, StoredAt(s.storage, s.batch[0].id));
    forall x | x in s'.batch ensures Unchanged(s', x.id, x.row) { assert Unchanged(s, x.id, x.row); }
  }

  lemma FinishSettles(e: Setting, s: State, s': State)
    requires Settles(s) && FinishStep(e, s) == Some(s')
    ensures Settles(s')
  {
    forall x | x in s'.batch ensures Unchanged(s', x.id, x.row) { assert Unchanged(s, x.id, x.row); }
  }

  lemma SaveSettles(e: Setting, s: State, s': State, id: string, chain: Chain)
    requires Settles(s) && s' == s.(storage := s.storage[id := chain])
    ensures Settles(s')
  {
    forall x | x in s'.batch ensures Unchanged(s', x.id, x.row) { assert Unchanged(s, x.id, x.row); }
  }

  lemma {:induction false} RunSettles(e: Setting, actions: seq<Action>)
    requires !Usable(e) && Run(e, actions).Some?
    ensures Settles(Run(e, actions).value)
  {
    if actions != [] {
      var n := |actions| - 1;
      RunSettles(e, actions[..n]);
      var s, s' := Run(e, actions[..n]).value, Run(e, actions).value;
      match actions[n]
      case Schedule(_, _, _, _) => ScheduleSettles(e, s, s', actions[n]);
      case Select(_, _) => SelectSettles(e, s, s', actions[n]);
      case Begin(now) => BeginSettles(e, s, s', now);
      case Finish => FinishSettles(e, s, s');
      case Save(id, chain) => SaveSettles(e, s, s', id, chain);
      case Ask(_) => assert false;
      case Restart =>
    }
  }

  /** Where no source can be asked an attempt awaits nothing, so a finished fetch has stored what is wanted at its end. */
  lemma WithoutSourcesHeadsAreKept(e: Setting, actions: seq<Action>, id: string)
    requires Injective(e.c) && !Usable(e) && Run(e, actions).Some?
    requires id in Run(e, actions).value.rows && Run(e, actions).value.rows[id].state == Done
    ensures var s := Run(e, actions).value; Satisfies(e.c, StoredAt(s.storage, id), s.rows[id].wantHead)
  {
    RunSettles(e, actions);
    DoneHasWhatItBeganWith(e, actions, id);
  }

  /** The head wanted at its end is stored in every run of a fetch that began with `begun`, exactly if it is on the chain
      up to the head the attempt began with or there is no source to await. */
  lemma HeadIsKeptExactly(e: Setting, id: string, begun: Option<string>, b: Chain, want: string)
    requires Injective(e.c) && Shortest(e.c, id, begun, b) && IdentityText(id) && |b| <= MAX_EVENTS && want != ""
    ensures HeadIsKept(e, id, begun, want) <==> Contains(e.c, b, want) || !Usable(e)
  {
    if Contains(e.c, b, want) {
      forall actions | EndedWith(e, actions, id, begun, want)
        ensures Satisfies(e.c, StoredAt(Run(e, actions).value.storage, id), Some(want))
      {
        Sufficient(e, id, begun, b, want, actions);
      }
    } else if Usable(e) {
      var hints := UsableIsSourced(e);
      LosingEnds(e, id, hints, begun, b, want);
    } else {
      forall actions | EndedWith(e, actions, id, begun, want)
        ensures Satisfies(e.c, StoredAt(Run(e, actions).value.storage, id), Some(want))
      {
        WithoutSourcesHeadsAreKept(e, actions, id);
      }
    }
  }
}
