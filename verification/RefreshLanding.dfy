/**
 Which pages scripts/refresh_corpus.py moves its cursor past although they did not
 land: exactly when the queue can shed a book of one, and a run for each way a book
 is left behind.
 */
module RefreshLanding {
  import opened Common
  import opened Keyset
  import opened RefreshChunks
  import opened RefreshRun
  import Backlog
  import RampModel

  // ---------------------------------------------------------------- what the queue holds

  /** Some page is large enough, and the water mark high enough, for the queue to fill. */
  predicate MayShed(cfg: Config) {
    && Backlog.TopLimit(cfg.limits.ramp) > 0
    && Backlog.Reach(cfg.limits) > cfg.limits.capacity
    && cfg.pageSize > cfg.limits.capacity
  }

  function Slots(phase: Phase): nat {
    if HasWork(phase) then Active(phase.work) else 0
  }

  /** The queue, a whole chunk for each that is asking, and the one past the mark. */
  function Load(s: State): nat {
    |s.queued| + CHUNK_SIZE * (if HasWork(s.phase) then |s.phase.work.asking| else 0) + (if s.cleared then CHUNK_SIZE else 0)
  }

  ghost predicate QueueInv(cfg: Config, s: State) {
    && |s.queued| <= cfg.limits.capacity && s.limit <= Backlog.TopLimit(cfg.limits.ramp)
    && (s.cleared ==> s.phase.Dispatching?)
    && Slots(s.phase) <= Backlog.TopLimit(cfg.limits.ramp)
    && (Backlog.TopLimit(cfg.limits.ramp) > 0 ==> Load(s) <= Backlog.Reach(cfg.limits))
  }

  ghost predicate ShedInv(cfg: Config, s: State) {
    && (HasWork(s.phase) && s.phase.work.shed != {} ==> MayShed(cfg))
    && (forall i | 0 <= i < |s.confirmed| && s.confirmed[i].shed != {} :: MayShed(cfg))
  }

  lemma ChunkIsSmall(w: Work, chunk: Chunk)
    requires KnownRegions(w.rows) && Placed(w) && chunk in w.asking
    ensures |BooksOf(chunk)| <= CHUNK_SIZE
  {
    hide BooksOf, ChunksFrom;
    var all := ChunksFrom(w.rows, CHUNK_SIZE, 0);
    assert chunk in multiset(all);
    assert chunk in all;
    EachPairOnce(w.rows, CHUNK_SIZE, Key(0, 0));
    BatchBound(chunk.region, chunk.asins);
  }

  lemma UnionSize<T>(a: set<T>, b: set<T>)
    requires a !! b
    ensures |a + b| == |a| + |b|
  {
  }

  /** A batch and the books before it are books of the page, and no more than a chunk. */
  lemma BatchFits(cfg: Config, s: State, chunk: Chunk, got: set<Key>)
    requires HasWork(s.phase) && WorkOk(cfg, s, s.phase.work) && chunk in s.phase.work.asking && got <= BooksOf(chunk)
    ensures |got| <= CHUNK_SIZE && |s.queued| + |got| <= cfg.pageSize && |s.queued + got| == |s.queued| + |got|
  {
    hide ChunksFrom, Placed, Settled, BooksOf, KeysOf, KnownRegions, Ascending;
    var w := s.phase.work;
    assert KnownRegions(w.rows) && Placed(w) && Settled(w, s.queued);
    AnswerSettles(w, s.queued, chunk, got, true);
    ChunkIsSmall(w, chunk);
    SubsetSize(got, BooksOf(chunk));
    SubsetSize(s.queued + got, KeysOf(w.rows));
    KeysBound(w.rows);
    UnionSize(s.queued, got);
  }

  lemma AnswerQueues(cfg: Config, s: State, e: Event)
    requires PhaseOk(cfg, s) && QueueInv(cfg, s) && Enabled(cfg, s, e) && e.Answer?
    ensures QueueInv(cfg, Next(cfg, s, e))
  {
    hide ChunksFrom, PageOf, KnownRegions, BooksOf, WorkOk, Backlog.Reach, Backlog.TopLimit;
    assert WorkOk(cfg, s, s.phase.work);
    BatchFits(cfg, s, e.chunk, Brought(e.got));
    var w, t := s.phase.work, Next(cfg, s, e);
    assert |t.phase.work.asking| == |w.asking| - 1 && |t.phase.work.answered| == |w.answered| + 1;
  }

  lemma ReleaseQueues(cfg: Config, s: State, e: Event)
    requires QueueInv(cfg, s) && Enabled(cfg, s, e) && e.Release?
    ensures QueueInv(cfg, Next(cfg, s, e))
  {
    hide ChunksFrom, PageOf, KnownRegions, BooksOf, Backlog.Reach, Backlog.Moved, Backlog.TopLimit;
    var w, t := s.phase.work, Next(cfg, s, e);
    assert |t.phase.work.answered| == |w.answered| - 1;
    Backlog.MovedStays(cfg.limits.ramp, s.limit, e.move);
  }

  lemma DispatchQueues(cfg: Config, s: State, e: Event)
    requires QueueInv(cfg, s) && Enabled(cfg, s, e) && (e.Dispatch? || e.CheckBacklog?)
    ensures QueueInv(cfg, Next(cfg, s, e))
  {
    hide ChunksFrom, PageOf, KnownRegions, BooksOf, Backlog.TopLimit;
    if e.Dispatch? {
      assert |Next(cfg, s, e).phase.work.asking| == |s.phase.work.asking| + 1;
    }
  }

  lemma PersistQueues(cfg: Config, s: State, e: Event)
    requires QueueInv(cfg, s) && Enabled(cfg, s, e) && e.Persist?
    ensures QueueInv(cfg, Next(cfg, s, e))
  {
    SubsetSize(s.queued - Batch(s.queued, e.chunk), s.queued);
    hide ChunksFrom, PageOf, KnownRegions, BooksOf, Backlog.Reach, Backlog.TopLimit;
  }

  lemma OtherQueues(cfg: Config, s: State, e: Event)
    requires Backlog.HasHeadroom(cfg.limits) && QueueInv(cfg, s) && Enabled(cfg, s, e)
    requires !e.Answer? && !e.Release? && !e.Dispatch? && !e.CheckBacklog?
    ensures QueueInv(cfg, Next(cfg, s, e))
  {
    hide ChunksFrom, PageOf, KnownRegions, BooksOf, Admitted;
    if e.Persist? {
      PersistQueues(cfg, s, e);
    }
  }

  lemma QueueKeeps(cfg: Config, s: State, e: Event)
    requires Backlog.HasHeadroom(cfg.limits) && PhaseOk(cfg, s) && QueueInv(cfg, s) && Enabled(cfg, s, e)
    ensures QueueInv(cfg, Next(cfg, s, e))
  {
    hide PhaseOk, QueueInv, Enabled, Next;
    if e.Answer? { AnswerQueues(cfg, s, e); }
    else if e.Release? { ReleaseQueues(cfg, s, e); }
    else if e.Dispatch? || e.CheckBacklog? { DispatchQueues(cfg, s, e); }
    else { OtherQueues(cfg, s, e); }
  }

  lemma AnswerSheds(cfg: Config, s: State, e: Event)
    requires PhaseOk(cfg, s) && QueueInv(cfg, s) && Enabled(cfg, s, e) && e.Answer? && !Admitted(cfg, s.queued, Brought(e.got))
    ensures MayShed(cfg)
  {
    hide ChunksFrom, PageOf, KnownRegions, BooksOf, WorkOk, Backlog.TopLimit, Backlog.Reach;
    assert WorkOk(cfg, s, s.phase.work);
    BatchFits(cfg, s, e.chunk, Brought(e.got));
    assert |s.phase.work.asking| >= 1;
  }

  /** Only a refused answer adds to what a page has shed. */
  lemma ShedComes(cfg: Config, s: State, e: Event)
    requires Enabled(cfg, s, e) && ShedInv(cfg, s) && (e.Answer? && !Admitted(cfg, s.queued, Brought(e.got)) ==> MayShed(cfg))
    ensures ShedInv(cfg, Next(cfg, s, e))
  {
    hide ChunksFrom, PageOf, KnownRegions, BooksOf, Admitted, MayShed, Batch;
  }

  lemma ShedKeeps(cfg: Config, s: State, e: Event)
    requires PhaseOk(cfg, s) && QueueInv(cfg, s) && ShedInv(cfg, s) && Enabled(cfg, s, e)
    ensures ShedInv(cfg, Next(cfg, s, e))
  {
    hide PhaseOk, QueueInv, ShedInv, Enabled, Next, Admitted, MayShed;
    if e.Answer? && !Admitted(cfg, s.queued, Brought(e.got)) {
      AnswerSheds(cfg, s, e);
    }
    ShedComes(cfg, s, e);
  }

  lemma {:induction false} QueueOverRuns(cfg: Config, events: seq<Event>)
    requires Backlog.HasHeadroom(cfg.limits) && Run(cfg, events).Some?
    ensures QueueInv(cfg, Run(cfg, events).value) && ShedInv(cfg, Run(cfg, events).value)
  {
    if events != [] {
      var before := events[..|events| - 1];
      QueueOverRuns(cfg, before);
      RunKeeps(cfg, before);
      var s, e := Run(cfg, before).value, events[|events| - 1];
      assert PhaseOk(cfg, s);
      hide PhaseOk, QueueInv, ShedInv, Enabled, Next, MayShed;
      QueueKeeps(cfg, s, e);
      ShedKeeps(cfg, s, e);
    }
  }

  /** Where nothing can be shed, the queue takes every batch there is to take. */
  lemma AlwaysAdmitted(cfg: Config, events: seq<Event>, chunk: Chunk, got: Option<set<Key>>)
    requires Backlog.HasHeadroom(cfg.limits) && !MayShed(cfg)
    requires Run(cfg, events).Some? && Enabled(cfg, Run(cfg, events).value, Answer(chunk, got))
    ensures Admitted(cfg, Run(cfg, events).value.queued, Brought(got))
  {
    QueueOverRuns(cfg, events);
    RunKeeps(cfg, events);
    hide Run, ChunksFrom, PagesRise, Covered, Accounts, AllConfirmed, BooksOf;
    var s := Run(cfg, events).value;
    assert WorkOk(cfg, s, s.phase.work);
    BatchFits(cfg, s, chunk, Brought(got));
  }

  // ---------------------------------------------------------------- steps of a run

  ghost predicate Reaches(cfg: Config, s: State) {
    exists events :: Run(cfg, events) == Some(s)
  }

  lemma StartReached(cfg: Config)
    ensures Reaches(cfg, Start(cfg))
  {
    assert Run(cfg, []) == Some(Start(cfg));
  }

  lemma Step(cfg: Config, s: State, e: Event)
    requires Reaches(cfg, s) && Enabled(cfg, s, e)
    ensures Reaches(cfg, Next(cfg, s, e))
  {
    hide Enabled, Next;
    var events :| Run(cfg, events) == Some(s);
    assert (events + [e])[..|events + [e]| - 1] == events;
    assert Run(cfg, events + [e]) == Some(Next(cfg, s, e));
  }

  /** A configuration that can run, with nothing known of the table. */
  predicate Runs(cfg: Config) {
    Backlog.Runs(cfg.limits) && cfg.pageSize >= 1 && cfg.base == {}
  }

  /** A first page being dispatched by a run whose ramp has not moved. */
  function AtWork(cfg: Config, phase: Phase, cleared: bool, queued: set<Key>): State {
    State(None, phase, false, cfg.limits.ramp.start, cleared, queued, {}, 1, 1, 0, [])
  }

  lemma ReadFirst(cfg: Config, rows: seq<Key>)
    requires Runs(cfg) && rows != [] && |rows| <= cfg.pageSize && Ascending(rows) && KnownRegions(rows)
    ensures Reaches(cfg, AtWork(cfg, Dispatching(NewWork(rows)), false, {}))
  {
    StartReached(cfg);
    hide ChunksFrom, Reaches, Ascending, KnownRegions;
    Step(cfg, Start(cfg), ReadPage(KeysOf(rows), rows));
  }

  // ---------------------------------------------------------------- a page of one book

  function OneWork(k: Key): Work {
    Work([k], [], multiset{}, multiset{}, multiset{Chunk(k.region, [k.asin])}, {}, {}, {}, {})
  }

  lemma {:induction false} OneChunk(k: Key, region: nat)
    requires region <= REGIONS && k.region < REGIONS
    ensures ChunksFrom([k], CHUNK_SIZE, region) == if region <= k.region then [Chunk(k.region, [k.asin])] else []
    decreases REGIONS - region
  {
    if region < REGIONS {
      OneChunk(k, region + 1);
      assert [k][..0] == [];
      assert AsinsOf([k], region) == if k.region == region then [k.asin] else [];
    }
  }

  /** Its chunk asking. */
  lemma ReachAsking(cfg: Config, k: Key)
    requires Runs(cfg) && k.region < REGIONS
    ensures var w := OneWork(k).(asking := OneWork(k).finished, finished := multiset{});
            Reaches(cfg, AtWork(cfg, Dispatching(w), false, {}))
  {
    OneChunk(k, 0);
    hide ChunksFrom, Reaches, BooksOf;
    ReadFirst(cfg, [k]);
    var s := AtWork(cfg, Dispatching(NewWork([k])), false, {});
    Step(cfg, s, CheckBacklog);
    Step(cfg, s.(cleared := true), Dispatch);
    var c := Chunk(k.region, [k.asin]);
    assert [c][1..] == [] && multiset{} + multiset{c} == multiset{c};
  }

  lemma OneBook(k: Key)
    ensures BooksOf(Chunk(k.region, [k.asin])) == {k}
  {
  }

  /** And answered, or its request failed; then the slot is freed and the loop left. */
  lemma ReachDraining(cfg: Config, k: Key, got: Option<set<Key>>)
    requires Runs(cfg) && k.region < REGIONS && cfg.limits.capacity >= 1 && (got.None? || got == Some({k}))
    ensures Reaches(cfg, AtWork(cfg, Draining(OneWork(k).(missing := if got.None? then {k} else {})), false, Brought(got)))
  {
    hide Reaches, BooksOf;
    ReachAsking(cfg, k);
    OneBook(k);
    var c := Chunk(k.region, [k.asin]);
    var w := OneWork(k).(asking := multiset{c}, finished := multiset{});
    var s := AtWork(cfg, Dispatching(w), false, {});
    Step(cfg, s, Answer(c, got));
    var none: set<Key>, nothing := {}, multiset{};
    assert {k} - {k} == none && {k} - none == {k} && none + none == none && none + {k} == {k};
    assert multiset{c} - multiset{c} == nothing && nothing + multiset{c} == multiset{c};
    var missing := if got.None? then {k} else {};
    var t := AtWork(cfg, Dispatching(w.(asking := nothing, answered := multiset{c}, missing := missing)), false, Brought(got));
    assert Next(cfg, s, Answer(c, got)) == t;
    Step(cfg, t, Release(c, RampModel.Hold));
    var u := AtWork(cfg, Dispatching(OneWork(k).(missing := missing)), false, Brought(got));
    assert Next(cfg, t, Release(c, RampModel.Hold)) == u;
    Step(cfg, u, LeaveDispatch);
    Step(cfg, u.(phase := Gathering(u.phase.work)), Gathered);
  }

  /** The cursor moves past a book whose request failed: a chunk that failed has
      finished like any other, and until forty have the run does not look at how
      many did. */
  lemma CursorPassesAFailedChunk(cfg: Config, k: Key)
    requires Runs(cfg) && k.region < REGIONS && cfg.limits.capacity >= 1
    ensures exists s :: Reaches(cfg, s) && s.cursor == Some(k) && k !in s.landed &&
              |s.confirmed| == 1 && s.confirmed[0].missing == {k} && s.confirmed[0].shed == s.confirmed[0].lost == {}
  {
    ReachDraining(cfg, k, None);
    var s := AtWork(cfg, Draining(OneWork(k).(missing := {k})), false, {});
    Step(cfg, s, SeeEmpty);
    var t := s.(phase := Reading, cursor := Some(k), confirmed := s.confirmed + [s.phase.work]);
    assert Reaches(cfg, t) && t.confirmed[0].missing == {k};
  }

  /** And past one whose write failed: the queue empties all the same. */
  lemma CursorPassesALostBook(cfg: Config, k: Key)
    requires Runs(cfg) && k.region < REGIONS && cfg.limits.capacity >= 1
    ensures exists s :: Reaches(cfg, s) && s.cursor == Some(k) && k !in s.landed &&
              |s.confirmed| == 1 && s.confirmed[0].lost == {k} && s.confirmed[0].missing == s.confirmed[0].shed == {}
  {
    ReachDraining(cfg, k, Some({k}));
    var c := Chunk(k.region, [k.asin]);
    assert BooksOf(c) == {k};
    var s := AtWork(cfg, Draining(OneWork(k)), false, {k});
    Step(cfg, s, Persist(c, {}));
    var none: set<Key> := {};
    assert Batch({k}, c) == {k} && {k} - {k} == none && none + none == none && {k} - none == {k} && none + {k} == {k};
    var t := s.(queued := {}, phase := Draining(OneWork(k).(lost := {k})));
    assert Next(cfg, s, Persist(c, {})) == t;
    Step(cfg, t, SeeEmpty);
    var u := t.(phase := Reading, cursor := Some(k), confirmed := t.confirmed + [t.phase.work]);
    assert Reaches(cfg, u) && u.confirmed[0].lost == {k};
  }
}
