/**
 The run of scripts/refresh_corpus.py in which the persist queue sheds a book of a page
 and the cursor moves past it, and so the exact condition for that.  The ramp starts
 above its ceiling and never moves; the page is one book larger than the queue.
 */
module RefreshFlood {
  import opened Common
  import opened Keyset
  import opened RefreshChunks
  import opened RefreshRun
  import opened RefreshLanding
  import Backlog
  import RampModel

  // ---------------------------------------------------------------- the page

  function Range(from: nat, to: nat): seq<nat>
    requires from <= to
  {
    seq(to - from, i => from + i)
  }

  /** n books of one region. */
  function Page(n: nat): seq<Key> {
    seq(n, i requires 0 <= i < n => Key(i, 0))
  }

  function First(n: nat): set<Key> {
    set i | 0 <= i < n :: Key(i, 0)
  }

  function Count(n: nat): nat {
    (n + CHUNK_SIZE - 1) / CHUNK_SIZE
  }

  function End(n: nat, j: nat): nat {
    if CHUNK_SIZE * (j + 1) <= n then CHUNK_SIZE * (j + 1) else n
  }

  function PageChunk(n: nat, j: nat): Chunk
    requires j < Count(n)
  {
    Chunk(0, Range(CHUNK_SIZE * j, End(n, j)))
  }

  function Chunks(n: nat): seq<Chunk> {
    seq(Count(n), j requires 0 <= j < Count(n) => PageChunk(n, j))
  }

  lemma {:induction false} PageAsins(n: nat, region: nat)
    ensures AsinsOf(Page(n), region) == if region == 0 then Range(0, n) else []
  {
    if n > 0 {
      PageAsins(n - 1, region);
      assert Page(n)[..n - 1] == Page(n - 1);
      assert Range(0, n) == Range(0, n - 1) + [n - 1];
    }
  }

  lemma {:induction false} SlicesFrom(n: nat, j: nat)
    requires j <= Count(n)
    ensures CHUNK_SIZE * j <= n || j == Count(n)
    ensures Slices(0, if CHUNK_SIZE * j <= n then Range(CHUNK_SIZE * j, n) else [], CHUNK_SIZE) == Chunks(n)[j..]
    decreases Count(n) - j
  {
    if j < Count(n) {
      SlicesFrom(n, j + 1);
      var left := Range(CHUNK_SIZE * j, n);
      assert Chunks(n)[j..] == [PageChunk(n, j)] + Chunks(n)[j + 1..];
      if |left| > CHUNK_SIZE {
        assert left[..CHUNK_SIZE] == Range(CHUNK_SIZE * j, End(n, j)) && left[CHUNK_SIZE..] == Range(CHUNK_SIZE * (j + 1), n);
      } else {
        assert left == Range(CHUNK_SIZE * j, End(n, j));
      }
    }
  }

  lemma {:induction false} OtherRegions(n: nat, region: nat)
    requires 1 <= region <= REGIONS
    ensures ChunksFrom(Page(n), CHUNK_SIZE, region) == []
    decreases REGIONS - region
  {
    if region < REGIONS {
      PageAsins(n, region);
      OtherRegions(n, region + 1);
    }
  }

  lemma PageChunks(n: nat)
    ensures ChunksFrom(Page(n), CHUNK_SIZE, 0) == Chunks(n)
  {
    PageAsins(n, 0);
    OtherRegions(n, 1);
    SlicesFrom(n, 0);
    assert Chunks(n)[0..] == Chunks(n);
  }

  lemma PageChunkBooks(n: nat, j: nat)
    requires j < Count(n)
    ensures First(CHUNK_SIZE * j) !! BooksOf(PageChunk(n, j))
    ensures First(CHUNK_SIZE * j) + BooksOf(PageChunk(n, j)) == First(End(n, j))
  {
    var c := PageChunk(n, j);
    forall i: nat | CHUNK_SIZE * j <= i < End(n, j) ensures Key(i, 0) in BooksOf(c) {
      assert c.asins[i - CHUNK_SIZE * j] == i;
    }
    forall k | k in First(End(n, j)) ensures k in First(CHUNK_SIZE * j) + BooksOf(c) {
    }
  }

  lemma {:induction false} FirstSize(n: nat)
    ensures |First(n)| == n
  {
    if n == 0 {
      assert First(0) == {};
    } else {
      FirstSize(n - 1);
      assert First(n) == First(n - 1) + {Key(n - 1, 0)};
    }
  }

  // ---------------------------------------------------------------- the run

  /** a chunks done with and their books queued, d dispatched. */
  function Flood(cfg: Config, n: nat, a: nat, d: nat, cleared: bool): State
    requires a <= d <= Count(n)
  {
    var cs := Chunks(n);
    AtWork(cfg, Dispatching(Work(Page(n), cs[d..], multiset(cs[a..d]), multiset{}, multiset(cs[..a]), {}, {}, {}, {})),
           cleared, First(CHUNK_SIZE * a))
  }

  lemma FloodStarts(cfg: Config, n: nat)
    requires Runs(cfg) && 0 < n <= cfg.pageSize
    ensures Reaches(cfg, Flood(cfg, n, 0, 0, false))
  {
    PageChunks(n);
    hide ChunksFrom, Reaches, Chunks;
    ReadFirst(cfg, Page(n));
    var cs := Chunks(n);
    assert cs[0..] == cs && cs[0..0] == [] == cs[..0] && First(0) == {};
  }

  lemma FloodClears(cfg: Config, n: nat, a: nat, d: nat)
    requires a <= d < Count(n) && Reaches(cfg, Flood(cfg, n, a, d, false)) && CHUNK_SIZE * a <= cfg.limits.mark
    ensures Reaches(cfg, Flood(cfg, n, a, d, true))
  {
    hide Reaches, First, PageChunk;
    FirstSize(CHUNK_SIZE * a);
    Step(cfg, Flood(cfg, n, a, d, false), CheckBacklog);
  }

  lemma FloodDispatches(cfg: Config, n: nat, a: nat, d: nat)
    requires a <= d < Count(n) && Reaches(cfg, Flood(cfg, n, a, d, true)) && d - a < cfg.limits.ramp.start
    ensures Reaches(cfg, Flood(cfg, n, a, d + 1, false))
  {
    hide Reaches, First, PageChunk;
    var cs := Chunks(n);
    Step(cfg, Flood(cfg, n, a, d, true), Dispatch);
    assert cs[d..][1..] == cs[d + 1..] && cs[d..][0] == cs[d] && cs[a..d + 1] == cs[a..d] + [cs[d]];
  }

  /** A chunk is answered in full, its batch taken or refused, */
  lemma AnsweredInFull(cfg: Config, w: Work, rest: multiset<Chunk>, c: Chunk, cleared: bool, queued: set<Key>)
    requires Reaches(cfg, AtWork(cfg, Dispatching(w), cleared, queued))
    requires w.asking == rest + multiset{c} && w.answered == multiset{} && w.missing == w.shed == {}
    ensures var ok := Admitted(cfg, queued, BooksOf(c));
            var next := w.(asking := rest, answered := multiset{c}, shed := if ok then {} else BooksOf(c));
            Reaches(cfg, AtWork(cfg, Dispatching(next), cleared, if ok then queued + BooksOf(c) else queued))
  {
    hide Reaches, BooksOf, Admitted;
    var s, e := AtWork(cfg, Dispatching(w), cleared, queued), Answer(c, Some(BooksOf(c)));
    Step(cfg, s, e);
    var none: set<Key>, nothing := {}, multiset{};
    assert none + (BooksOf(c) - BooksOf(c)) == none && none + BooksOf(c) == BooksOf(c);
    assert rest + multiset{c} - multiset{c} == rest && nothing + multiset{c} == multiset{c};
  }

  /** and frees its slot. */
  lemma SlotFreed(cfg: Config, w: Work, c: Chunk, cleared: bool, queued: set<Key>)
    requires Reaches(cfg, AtWork(cfg, Dispatching(w), cleared, queued)) && w.answered == multiset{c}
    ensures var next := w.(answered := multiset{}, finished := w.finished + multiset{c});
            Reaches(cfg, AtWork(cfg, Dispatching(next), cleared, queued))
  {
    hide Reaches;
    Step(cfg, AtWork(cfg, Dispatching(w), cleared, queued), Release(c, RampModel.Hold));
    assert multiset{c} - multiset{c} == multiset{};
  }

  lemma AnswerAndRelease(cfg: Config, w: Work, rest: multiset<Chunk>, c: Chunk, cleared: bool, queued: set<Key>)
    requires Reaches(cfg, AtWork(cfg, Dispatching(w), cleared, queued))
    requires w.asking == rest + multiset{c} && w.answered == multiset{} && w.missing == w.shed == {}
    ensures var ok := Admitted(cfg, queued, BooksOf(c));
            var next := w.(asking := rest, finished := w.finished + multiset{c}, shed := if ok then {} else BooksOf(c));
            Reaches(cfg, AtWork(cfg, Dispatching(next), cleared, if ok then queued + BooksOf(c) else queued))
  {
    hide Reaches, BooksOf, Admitted, AtWork;
    AnsweredInFull(cfg, w, rest, c, cleared, queued);
    var ok := Admitted(cfg, queued, BooksOf(c));
    var v := w.(asking := rest, answered := multiset{c}, shed := if ok then {} else BooksOf(c));
    SlotFreed(cfg, v, c, cleared, if ok then queued + BooksOf(c) else queued);
    assert v.(answered := multiset{}, finished := v.finished + multiset{c}) ==
           w.(asking := rest, finished := w.finished + multiset{c}, shed := if ok then {} else BooksOf(c));
  }

  /** The next chunk is answered in full and its books fit. */
  lemma FloodAnswers(cfg: Config, n: nat, a: nat, d: nat, cleared: bool)
    requires a < d <= Count(n) && Reaches(cfg, Flood(cfg, n, a, d, cleared)) && CHUNK_SIZE * (a + 1) <= n && CHUNK_SIZE * (a + 1) <= cfg.limits.capacity
    ensures Reaches(cfg, Flood(cfg, n, a + 1, d, cleared))
  {
    hide Reaches, First, BooksOf, PageChunk;
    var cs := Chunks(n);
    var c, s := cs[a], Flood(cfg, n, a, d, cleared);
    PageChunkBooks(n, a);
    FirstSize(CHUNK_SIZE * a);
    FirstSize(CHUNK_SIZE * (a + 1));
    UnionSize(s.queued, BooksOf(c));
    assert cs[a..d] == [c] + cs[a + 1..d] && cs[..a + 1] == cs[..a] + [c];
    AnswerAndRelease(cfg, s.phase.work, multiset(cs[a + 1..d]), c, cleared, s.queued);
  }

  /** One chunk at a time up to the water mark. */
  lemma {:induction false} FloodFills(cfg: Config, n: nat, j: nat)
    requires Runs(cfg) && 0 < n <= cfg.pageSize && j <= Count(n)
    requires CHUNK_SIZE * j <= n && CHUNK_SIZE * j <= cfg.limits.capacity && CHUNK_SIZE * j <= cfg.limits.mark
    ensures Reaches(cfg, Flood(cfg, n, j, j, false))
  {
    hide Reaches, Flood;
    if j == 0 {
      FloodStarts(cfg, n);
    } else {
      FloodFills(cfg, n, j - 1);
      FloodClears(cfg, n, j - 1, j - 1);
      FloodDispatches(cfg, n, j - 1, j - 1);
      FloodAnswers(cfg, n, j - 1, j, false);
    }
  }

  /** Then as many as there are slots for, none of them answered yet. */
  lemma {:induction false} FloodOpens(cfg: Config, n: nat, m: nat, i: nat)
    requires m + i <= Count(n) && Reaches(cfg, Flood(cfg, n, m, m, false)) && CHUNK_SIZE * m <= cfg.limits.mark && i <= cfg.limits.ramp.start
    ensures Reaches(cfg, Flood(cfg, n, m, m + i, false))
  {
    hide Reaches, Flood;
    if i > 0 {
      FloodOpens(cfg, n, m, i - 1);
      FloodClears(cfg, n, m, m + i - 1);
      FloodDispatches(cfg, n, m, m + i - 1);
    }
  }

  /** And then they are answered one by one. */
  lemma {:induction false} FloodPours(cfg: Config, n: nat, a: nat, j: nat)
    requires a <= j < Count(n) && Reaches(cfg, Flood(cfg, n, a, Count(n), false))
    requires CHUNK_SIZE * j <= n && CHUNK_SIZE * j <= cfg.limits.capacity
    ensures Reaches(cfg, Flood(cfg, n, j, Count(n), false))
    decreases j - a
  {
    hide Reaches, Flood;
    if a < j {
      FloodPours(cfg, n, a, j - 1);
      FloodAnswers(cfg, n, j - 1, Count(n), false);
    }
  }

  /** The configurations where this run happens. */
  predicate Floods(cfg: Config) {
    && Runs(cfg) && Backlog.Derived(cfg.limits)
    && cfg.limits.ramp.start > cfg.limits.ramp.ceiling && cfg.pageSize > cfg.limits.capacity
  }

  /** All but the last chunk queued, and that one asking. */
  lemma FloodIsFull(cfg: Config)
    requires Floods(cfg)
    ensures var n := cfg.limits.capacity + 1;
            CHUNK_SIZE * (Count(n) - 1) <= cfg.limits.capacity && Reaches(cfg, Flood(cfg, n, Count(n) - 1, Count(n), false))
  {
    hide Reaches, Flood;
    var n, m, over := cfg.limits.capacity + 1, cfg.limits.mark / CHUNK_SIZE, cfg.limits.ramp.ceiling + 1;
    assert Count(n) == m + over + 1;
    FloodFills(cfg, n, m);
    FloodOpens(cfg, n, m, over);
    FloodClears(cfg, n, m, m + over);
    FloodAnswers(cfg, n, m, m + over, true);
    FloodDispatches(cfg, n, m + 1, m + over);
    FloodPours(cfg, n, m + 1, Count(n) - 1);
  }

  /** The page when all its chunks are done with and the last one's batch was refused. */
  function FloodedWork(n: nat): Work
    requires Count(n) > 0
  {
    Work(Page(n), [], multiset{}, multiset{}, multiset(Chunks(n)), {}, BooksOf(PageChunk(n, Count(n) - 1)), {}, {})
  }

  lemma LastChunk(n: nat)
    requires n > 0
    ensures var cs, last := Chunks(n), Count(n) - 1;
            && cs[last..Count(n)] == [PageChunk(n, last)] && cs[Count(n)..] == []
            && multiset(cs[..last]) + multiset{PageChunk(n, last)} == multiset(cs)
  {
    hide PageChunk;
    var cs, last := Chunks(n), Count(n) - 1;
    assert cs == cs[..last] + [PageChunk(n, last)];
  }

  /** The last batch would take the queue to one book over its capacity. */
  lemma LastOverflows(cfg: Config, n: nat)
    requires n == cfg.limits.capacity + 1 && CHUNK_SIZE * (Count(n) - 1) <= cfg.limits.capacity
    ensures !Admitted(cfg, First(CHUNK_SIZE * (Count(n) - 1)), BooksOf(PageChunk(n, Count(n) - 1)))
  {
    hide First, BooksOf, PageChunk;
    var last := Count(n) - 1;
    PageChunkBooks(n, last);
    FirstSize(CHUNK_SIZE * last);
    FirstSize(n);
    UnionSize(First(CHUNK_SIZE * last), BooksOf(PageChunk(n, last)));
  }

  /** What the page's work is before the last chunk is answered. */
  function LastWork(n: nat): Work
    requires n > 0
  {
    Work(Page(n), [], multiset{PageChunk(n, Count(n) - 1)}, multiset{}, multiset(Chunks(n)[..Count(n) - 1]), {}, {}, {}, {})
  }

  lemma FloodAtLast(cfg: Config, n: nat)
    requires n > 0
    ensures Flood(cfg, n, Count(n) - 1, Count(n), false) == AtWork(cfg, Dispatching(LastWork(n)), false, First(CHUNK_SIZE * (Count(n) - 1)))
  {
    hide PageChunk, First, Page, Chunks;
    LastChunk(n);
  }

  lemma LastIsRefused(n: nat)
    requires n > 0
    ensures var c := PageChunk(n, Count(n) - 1);
            LastWork(n).(asking := multiset{}, finished := LastWork(n).finished + multiset{c}, shed := BooksOf(c)) == FloodedWork(n)
  {
    hide PageChunk, Page, Chunks, BooksOf;
    LastChunk(n);
  }

  lemma FloodSheds(cfg: Config)
    requires Floods(cfg)
    ensures var n := cfg.limits.capacity + 1;
            Reaches(cfg, AtWork(cfg, Draining(FloodedWork(n)), false, First(CHUNK_SIZE * (Count(n) - 1))))
  {
    hide Reaches, First, PageChunk, Chunks, Count, Admitted, BooksOf, Floods, Page, Flood, FloodedWork, LastWork, AtWork;
    FloodIsFull(cfg);
    var n := cfg.limits.capacity + 1;
    SomeChunks(n);
    LastOverflows(cfg, n);
    FloodAtLast(cfg, n);
    FloodRefuses(cfg, n);
    LeavesTheLoop(cfg, FloodedWork(n), First(CHUNK_SIZE * (Count(n) - 1)));
  }

  lemma FloodRefuses(cfg: Config, n: nat)
    requires n > 0 && Count(n) > 0
    requires Reaches(cfg, AtWork(cfg, Dispatching(LastWork(n)), false, First(CHUNK_SIZE * (Count(n) - 1))))
    requires !Admitted(cfg, First(CHUNK_SIZE * (Count(n) - 1)), BooksOf(PageChunk(n, Count(n) - 1)))
    ensures Reaches(cfg, AtWork(cfg, Dispatching(FloodedWork(n)), false, First(CHUNK_SIZE * (Count(n) - 1))))
    ensures FloodedWork(n).todo == [] && FloodedWork(n).asking == FloodedWork(n).answered == multiset{}
  {
    hide Reaches, First, BooksOf, PageChunk, Chunks, Admitted, Page;
    var c := PageChunk(n, Count(n) - 1);
    LastIsRefused(n);
    assert multiset{} + multiset{c} == multiset{c};
    AnswerAndRelease(cfg, LastWork(n), multiset{}, c, false, First(CHUNK_SIZE * (Count(n) - 1)));
  }

  lemma SomeChunks(n: nat)
    requires n > 0
    ensures Count(n) > 0
  {
  }

  /** With every chunk done with, the dispatcher gathers and drains. */
  lemma LeavesTheLoop(cfg: Config, w: Work, queued: set<Key>)
    requires Reaches(cfg, AtWork(cfg, Dispatching(w), false, queued)) && w.todo == [] && w.asking == w.answered == multiset{}
    ensures Reaches(cfg, AtWork(cfg, Draining(w), false, queued))
  {
    hide Reaches;
    Step(cfg, AtWork(cfg, Dispatching(w), false, queued), LeaveDispatch);
    Step(cfg, AtWork(cfg, Gathering(w), false, queued), Gathered);
  }

  /** A drain can end with everything in the queue written. */
  lemma {:induction false} DrainsWell(cfg: Config, s: State) returns (t: State)
    requires Reaches(cfg, s) && s.phase.Draining?
    ensures Reaches(cfg, t) && t.phase.Draining? && t.queued == {} && t.landed <= s.landed + s.queued
    ensures t == s.(phase := t.phase, queued := {}, landed := t.landed)
    ensures t.phase.work == s.phase.work.(stored := t.phase.work.stored, lost := t.phase.work.lost)
    decreases |s.queued|
  {
    if s.queued == {} {
      t := s;
    } else {
      var k :| k in s.queued;
      var c := BatchOf(cfg, s, k);
      hide Reaches, BooksOf;
      var batch := Batch(s.queued, c);
      Step(cfg, s, Persist(c, batch));
      var next := Next(cfg, s, Persist(c, batch));
      assert k in batch && k !in next.queued;
      SubsetSize(next.queued + {k}, s.queued);
      t := DrainsWell(cfg, next);
    }
  }

  lemma BatchOf(cfg: Config, s: State, k: Key) returns (c: Chunk)
    requires Reaches(cfg, s) && s.phase.Draining? && k in s.queued
    ensures c in s.phase.work.answered + s.phase.work.finished && k in BooksOf(c)
  {
    var events :| Run(cfg, events) == Some(s);
    RunKeeps(cfg, events);
    var w := s.phase.work;
    assert Settled(w, s.queued) && k in Books(w.answered + w.finished);
    c :| c in w.answered + w.finished && k in BooksOf(c);
  }

  /** At or before the cursor, refused, and not stored. */
  ghost predicate BehindUnstored(s: State, k: Key) {
    && s.cursor == Some(k) && k !in s.landed
    && exists i :: 0 <= i < |s.confirmed| && k in s.confirmed[i].shed
  }

  lemma LastIsShed(n: nat)
    requires n > 0
    ensures Page(n) != [] && LastOf(Page(n)) == Key(n - 1, 0)
    ensures Key(n - 1, 0) in BooksOf(PageChunk(n, Count(n) - 1)) && Key(n - 1, 0) !in First(CHUNK_SIZE * (Count(n) - 1))
  {
    var c := PageChunk(n, Count(n) - 1);
    assert c.asins[|c.asins| - 1] == n - 1;
  }

  lemma SeesEmpty(cfg: Config, t: State, k: Key)
    requires Reaches(cfg, t) && t.phase.Draining? && t.queued == {} && t.phase.work.rows != [] && LastOf(t.phase.work.rows) == k
    requires k !in t.landed && k in t.phase.work.shed && t.confirmed == []
    ensures exists s :: Reaches(cfg, s) && s.confirmed == [t.phase.work] && BehindUnstored(s, k)
  {
    hide Reaches;
    Step(cfg, t, SeeEmpty);
    var u := Next(cfg, t, SeeEmpty);
    assert u.confirmed == [t.phase.work] && k in u.confirmed[0].shed;
  }

  /** The cursor moves past books the queue refused: nothing asks whether it did. */
  lemma CursorPassesAShedBook(cfg: Config)
    requires Floods(cfg)
    ensures exists s :: Reaches(cfg, s) && |s.confirmed| == 1 && BehindUnstored(s, Key(cfg.limits.capacity, 0))
  {
    hide Reaches, First, BooksOf, PageChunk, Chunks, Count, Page, Floods, LastOf, BehindUnstored;
    FloodSheds(cfg);
    var n := cfg.limits.capacity + 1;
    SomeChunks(n);
    LastIsShed(n);
    var t := DrainsWell(cfg, AtWork(cfg, Draining(FloodedWork(n)), false, First(CHUNK_SIZE * (Count(n) - 1))));
    SeesEmpty(cfg, t, Key(n - 1, 0));
  }

  // ---------------------------------------------------------------- exactly when

  /** With the derived water mark, whatever the table, the stops, the failures and the
      restarts, the cursor never passes a page the queue shed a book of if and only if
      the ramp does not start above its ceiling or a page is no larger than the queue. */
  lemma NoPageShedIff(pageSize: nat, limits: Backlog.Config)
    requires Backlog.HasHeadroom(limits) && Backlog.Derived(limits)
    ensures (forall base, s, i | Reaches(Config(base, pageSize, limits), s) && 0 <= i < |s.confirmed| :: s.confirmed[i].shed == {}) <==>
            limits.ramp.start <= limits.ramp.ceiling || pageSize <= limits.capacity
  {
    if limits.ramp.start <= limits.ramp.ceiling || pageSize <= limits.capacity {
      forall base, s, i | Reaches(Config(base, pageSize, limits), s) && 0 <= i < |s.confirmed| ensures s.confirmed[i].shed == {} {
        var cfg := Config(base, pageSize, limits);
        var events :| Run(cfg, events) == Some(s);
        QueueOverRuns(cfg, events);
      }
    } else {
      CursorPassesAShedBook(Config({}, pageSize, limits));
    }
  }
}
