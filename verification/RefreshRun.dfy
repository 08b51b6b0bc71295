/**
 scripts/refresh_corpus.py: one page of rows split into chunks, each of one region, and
 which books some of them ask for.
 */
module RefreshChunks {
  import opened Keyset

  datatype Chunk = Chunk(region: nat, asins: seq<nat>)

  /** Regions are ranked by name, as sorted() does. */
  const REGIONS: nat := 11

  const CHUNK_SIZE: nat := 50

  /** One region's ASINs on a page, each once, in the order they came. */
  function AsinsOf(rows: seq<Key>, region: nat): seq<nat> {
    if rows == [] then []
    else
      var rest, last := AsinsOf(rows[..|rows| - 1], region), rows[|rows| - 1];
      if last.region == region && last.asin !in rest then rest + [last.asin] else rest
  }

  /** Slices of at most `size`. */
  function Slices(region: nat, asins: seq<nat>, size: nat): seq<Chunk>
    requires size > 0
    decreases |asins|
  {
    if |asins| == 0 then []
    else if |asins| <= size then [Chunk(region, asins)]
    else [Chunk(region, asins[..size])] + Slices(region, asins[size..], size)
  }

  /** A page's chunks, region by region from this one on. */
  function ChunksFrom(rows: seq<Key>, size: nat, region: nat): seq<Chunk>
    requires size > 0 && region <= REGIONS
    decreases REGIONS - region
  {
    if region == REGIONS then []
    else Slices(region, AsinsOf(rows, region), size) + ChunksFrom(rows, size, region + 1)
  }

  ghost predicate KnownRegions(rows: seq<Key>) {
    forall k | k in rows :: k.region < 11
  }

  /** What a region's bucket holds, and the marks kept beside it. */
  ghost predicate Bucketed(groups: map<nat, seq<nat>>, rows: seq<Key>) {
    forall region :: AsinsOf(rows, region) == if region in groups then groups[region] else []
  }

  method GroupByRegion(rows: seq<Key>) returns (groups: map<nat, seq<nat>>)
    ensures Bucketed(groups, rows)
  {
    groups := map[];
    var i := 0;
    while i < |rows|
      invariant 0 <= i <= |rows| && Bucketed(groups, rows[..i])
    {
      var k := rows[i];
      var bucket := if k.region in groups then groups[k.region] else [];
      assert rows[..i + 1][..i] == rows[..i] && bucket == AsinsOf(rows[..i], k.region);
      groups := groups[k.region := if k.asin in bucket then bucket else bucket + [k.asin]];
      i := i + 1;
    }
    assert rows[..i] == rows;
  }

  method SliceRegion(region: nat, asins: seq<nat>, size: nat) returns (chunks: seq<Chunk>)
    requires size > 0
    ensures chunks == Slices(region, asins, size)
  {
    hide Slices;
    NoSlices(region, size);
    chunks := [];
    assert asins[0..] == asins && chunks + Slices(region, asins, size) == Slices(region, asins, size);
    var start := 0;
    while start < |asins|
      invariant 0 <= start <= |asins|
      invariant chunks + Slices(region, asins[start..], size) == Slices(region, asins, size)
    {
      var end := if start + size <= |asins| then start + size else |asins|;
      SliceStep(region, asins, start, size);
      Joins(chunks, [Chunk(region, asins[start..end])], Slices(region, asins[end..], size));
      chunks := chunks + [Chunk(region, asins[start..end])];
      start := end;
    }
    assert asins[start..] == [] && chunks + [] == chunks;
  }

  lemma NoSlices(region: nat, size: nat)
    requires size > 0
    ensures Slices(region, [], size) == []
  {
  }

  lemma Joins(a: seq<Chunk>, b: seq<Chunk>, c: seq<Chunk>)
    ensures (a + b) + c == a + (b + c)
  {
  }

  lemma RegionStep(groups: map<nat, seq<nat>>, rows: seq<Key>, size: nat, region: nat)
    requires size > 0 && region < REGIONS && Bucketed(groups, rows)
    ensures ChunksFrom(rows, size, region) ==
            (if region in groups then Slices(region, groups[region], size) + ChunksFrom(rows, size, region + 1)
             else ChunksFrom(rows, size, region + 1))
  {
    assert AsinsOf(rows, region) == if region in groups then groups[region] else [];
    hide AsinsOf;
    NoSlices(region, size);
    assert [] + ChunksFrom(rows, size, region + 1) == ChunksFrom(rows, size, region + 1);
  }

  lemma NoRegionsLeft(rows: seq<Key>, size: nat, k: Key)
    requires size > 0
    ensures ChunksFrom(rows, size, REGIONS) == [] && Asked([], k) == 0
  {
  }

  lemma SliceStep(region: nat, asins: seq<nat>, start: nat, size: nat)
    requires size > 0 && start < |asins|
    ensures var end := if start + size <= |asins| then start + size else |asins|;
            Slices(region, asins[start..], size) == [Chunk(region, asins[start..end])] + Slices(region, asins[end..], size)
  {
    var left := asins[start..];
    if |left| <= size {
      assert asins[start..|asins|] == left && asins[|asins|..] == [];
    } else {
      assert left[..size] == asins[start..start + size] && left[size..] == asins[start + size..];
    }
  }

  /** _chunks_for_page */
  method ChunksForPage(rows: seq<Key>, size: nat) returns (chunks: seq<Chunk>)
    requires size > 0 && KnownRegions(rows)
    ensures chunks == ChunksFrom(rows, size, 0)
  {
    hide ChunksFrom, Slices, Bucketed;
    var groups := GroupByRegion(rows);
    chunks := [];
    var region := 0;
    assert chunks + ChunksFrom(rows, size, 0) == ChunksFrom(rows, size, 0);
    while region < REGIONS
      invariant 0 <= region <= REGIONS
      invariant chunks + ChunksFrom(rows, size, region) == ChunksFrom(rows, size, 0)
    {
      RegionStep(groups, rows, size, region);
      if region in groups {
        var slices := SliceRegion(region, groups[region], size);
        Joins(chunks, slices, ChunksFrom(rows, size, region + 1));
        chunks := chunks + slices;
      }
      region := region + 1;
    }
    NoRegionsLeft(rows, size, Key(0, 0));
    assert chunks + [] == chunks;
  }

  // ---------------------------------------------------------------- each pair once

  function Occurs(asins: seq<nat>, asin: nat): nat {
    if asins == [] then 0 else Occurs(asins[..|asins| - 1], asin) + (if asins[|asins| - 1] == asin then 1 else 0)
  }

  /** How often a pair is asked for by these chunks. */
  function Asked(chunks: seq<Chunk>, k: Key): nat {
    if chunks == [] then 0
    else (if chunks[0].region == k.region then Occurs(chunks[0].asins, k.asin) else 0) + Asked(chunks[1..], k)
  }

  lemma {:induction false} AskedConcat(a: seq<Chunk>, b: seq<Chunk>, k: Key)
    ensures Asked(a + b, k) == Asked(a, k) + Asked(b, k)
  {
    if a == [] {
      assert a + b == b;
    } else {
      assert (a + b)[1..] == a[1..] + b;
      AskedConcat(a[1..], b, k);
    }
  }

  lemma {:induction false} OccursConcat(a: seq<nat>, b: seq<nat>, asin: nat)
    ensures Occurs(a + b, asin) == Occurs(a, asin) + Occurs(b, asin)
    decreases |b|
  {
    if b == [] {
      assert a + b == a;
    } else {
      assert (a + b)[..|a + b| - 1] == a + b[..|b| - 1];
      OccursConcat(a, b[..|b| - 1], asin);
    }
  }

  lemma {:induction false} OccursIn(asins: seq<nat>, asin: nat)
    ensures asin in asins <==> Occurs(asins, asin) > 0
  {
    if asins != [] {
      assert asins == asins[..|asins| - 1] + [asins[|asins| - 1]];
      OccursIn(asins[..|asins| - 1], asin);
    }
  }

  lemma {:induction false} AsinsOnce(rows: seq<Key>, region: nat, asin: nat)
    ensures Occurs(AsinsOf(rows, region), asin) == if Key(asin, region) in rows then 1 else 0
  {
    if rows != [] {
      var n := |rows| - 1;
      assert rows == rows[..n] + [rows[n]];
      AsinsOnce(rows[..n], region, asin);
      OccursIn(AsinsOf(rows[..n], region), asin);
      if rows[n].region == region && rows[n].asin !in AsinsOf(rows[..n], region) {
        OccursConcat(AsinsOf(rows[..n], region), [rows[n].asin], asin);
      }
    }
  }

  lemma {:induction false} SlicesAsk(region: nat, asins: seq<nat>, size: nat, k: Key)
    requires size > 0
    ensures Asked(Slices(region, asins, size), k) == if k.region == region then Occurs(asins, k.asin) else 0
    ensures forall c | c in Slices(region, asins, size) :: 0 < |c.asins| <= size && c.region == region
    decreases |asins|
  {
    if 0 < |asins| {
      if |asins| <= size {
        assert [Chunk(region, asins)][1..] == [];
      } else {
        SlicesAsk(region, asins[size..], size, k);
        assert asins == asins[..size] + asins[size..];
        OccursConcat(asins[..size], asins[size..], k.asin);
      }
    }
  }

  lemma {:induction false} FromAsks(rows: seq<Key>, size: nat, region: nat, k: Key)
    requires size > 0 && region <= REGIONS
    ensures Asked(ChunksFrom(rows, size, region), k) == if region <= k.region < REGIONS && k in rows then 1 else 0
    decreases REGIONS - region
  {
    hide AsinsOf, Slices, Asked;
    if region == REGIONS {
      NoRegionsLeft(rows, size, k);
    } else {
      var here, rest := Slices(region, AsinsOf(rows, region), size), ChunksFrom(rows, size, region + 1);
      FromAsks(rows, size, region + 1, k);
      SlicesAsk(region, AsinsOf(rows, region), size, k);
      AskedConcat(here, rest, k);
      AsinsOnce(rows, region, k.asin);
    }
  }

  lemma {:induction false} FromSizes(rows: seq<Key>, size: nat, region: nat)
    requires size > 0 && region <= REGIONS
    ensures forall c | c in ChunksFrom(rows, size, region) :: 0 < |c.asins| <= size
    decreases REGIONS - region
  {
    if region < REGIONS {
      hide AsinsOf, Slices;
      FromSizes(rows, size, region + 1);
      SlicesAsk(region, AsinsOf(rows, region), size, Key(0, 0));
    }
  }

  /** Every distinct pair of a page is in exactly one chunk, which asks one region
      for at most `size` books and never for none; no chunk asks for anything else. */
  lemma EachPairOnce(rows: seq<Key>, size: nat, k: Key)
    requires size > 0 && KnownRegions(rows)
    ensures Asked(ChunksFrom(rows, size, 0), k) == if k in rows then 1 else 0
    ensures forall c | c in ChunksFrom(rows, size, 0) :: 0 < |c.asins| <= size
  {
    FromAsks(rows, size, 0, k);
    FromSizes(rows, size, 0);
  }

  /** A chunk still to come asks for none of the books of another. */
  lemma {:induction false} AskedTwice(chunks: seq<Chunk>, a: Chunk, b: Chunk, k: Key)
    requires multiset{a, b} <= multiset(chunks) && k in BooksOf(a) && k in BooksOf(b)
    ensures Asked(chunks, k) >= 2
  {
    var first, rest := chunks[0], chunks[1..];
    assert chunks == [first] + rest;
    if first == a || first == b {
      var other := if first == a then b else a;
      assert other in multiset(rest);
      assert other in rest;
      AskedOnce(rest, other, k);
      OccursIn(first.asins, k.asin);
    } else {
      assert multiset{a, b} <= multiset(rest);
      AskedTwice(rest, a, b, k);
    }
  }

  lemma {:induction false} AskedOnce(chunks: seq<Chunk>, a: Chunk, k: Key)
    requires a in chunks && k in BooksOf(a)
    ensures Asked(chunks, k) >= 1
  {
    if chunks[0] == a {
      OccursIn(a.asins, k.asin);
    } else {
      assert chunks == [chunks[0]] + chunks[1..];
      AskedOnce(chunks[1..], a, k);
    }
  }

  lemma {:induction false} AskedBySome(chunks: seq<Chunk>, k: Key) returns (c: Chunk)
    requires Asked(chunks, k) >= 1
    ensures c in chunks && k in BooksOf(c)
  {
    OccursIn(chunks[0].asins, k.asin);
    if k in BooksOf(chunks[0]) {
      c := chunks[0];
    } else {
      c := AskedBySome(chunks[1..], k);
    }
  }

  // ---------------------------------------------------------------- the books of some chunks

  function BooksOf(c: Chunk): set<Key> {
    set a | a in c.asins :: Key(a, c.region)
  }

  ghost function Books(cs: multiset<Chunk>): set<Key> {
    set c, k | c in cs && k in BooksOf(c) :: k
  }

  function KeysOf(rows: seq<Key>): set<Key> {
    set k | k in rows
  }

  lemma BooksTogether(a: multiset<Chunk>, b: multiset<Chunk>)
    ensures Books(a + b) == Books(a) + Books(b)
  {
    hide BooksOf;
  }

  lemma BooksOfOne(c: Chunk)
    ensures Books(multiset{c}) == BooksOf(c)
  {
    hide BooksOf;
  }

  /** The chunks of a page ask for exactly its pairs, */
  lemma PageBooks(rows: seq<Key>, size: nat)
    requires size > 0 && KnownRegions(rows)
    ensures Books(multiset(ChunksFrom(rows, size, 0))) == KeysOf(rows)
  {
    var chunks := ChunksFrom(rows, size, 0);
    forall k: Key ensures k in Books(multiset(chunks)) <==> k in rows {
      EachPairOnce(rows, size, k);
      hide ChunksFrom, BooksOf, Asked;
      if k in rows {
        var c := AskedBySome(chunks, k);
        assert c in multiset(chunks);
      }
      if k in Books(multiset(chunks)) {
        var c :| c in multiset(chunks) && k in BooksOf(c);
        assert c in chunks;
        AskedOnce(chunks, c, k);
      }
    }
  }

  /** and no two of them for the same one. */
  lemma BooksApart(rows: seq<Key>, size: nat, a: multiset<Chunk>, b: multiset<Chunk>)
    requires size > 0 && KnownRegions(rows) && a + b <= multiset(ChunksFrom(rows, size, 0))
    ensures Books(a) !! Books(b)
  {
    hide ChunksFrom, BooksOf, Asked;
    var chunks := ChunksFrom(rows, size, 0);
    forall k | k in Books(a) && k in Books(b) ensures false {
      var c :| c in a && k in BooksOf(c);
      var d :| d in b && k in BooksOf(d);
      assert multiset{c, d} <= a + b;
      EachPairOnce(rows, size, k);
      AskedTwice(chunks, c, d, k);
    }
  }

  lemma {:induction false} KeysBound(rows: seq<Key>)
    ensures |KeysOf(rows)| <= |rows|
  {
    if rows != [] {
      var less, last := rows[..|rows| - 1], rows[|rows| - 1];
      assert rows == less + [last];
      KeysBound(less);
      assert KeysOf(rows) == KeysOf(less) + {last};
    }
  }

  lemma {:induction false} BatchBound(region: nat, asins: seq<nat>)
    ensures |BooksOf(Chunk(region, asins))| <= |asins|
  {
    var books := BooksOf(Chunk(region, asins));
    if asins == [] {
      assert books == {};
    } else {
      var less, last := asins[..|asins| - 1], asins[|asins| - 1];
      assert asins == less + [last];
      BatchBound(region, less);
      assert books == BooksOf(Chunk(region, less)) + {Key(last, region)};
    }
  }

  lemma NothingLeft<T>(all: set<T>, some: set<T>)
    requires some <= all
    ensures all - some == {} <==> some == all
  {
    if all - some == {} {
      forall x | x in all ensures x in some {
        assert x !in all - some;
      }
    }
  }

  lemma SubsetSize<T>(a: set<T>, b: set<T>)
    requires a <= b
    ensures |a| <= |b|
  {
    assert b == a + (b - a);
  }
}

/**
 The run of scripts/refresh_corpus.py that moves its cursor page by page, as steps of
 the dispatcher, its chunk tasks and the persist queue, with a stop or a kill possible
 between any two and runs chained by the cursor each prints.  A chunk may fail, the
 queue refuses a batch that would pass its capacity, and a batch it took may end with
 only part of its books written (app/services/db/persist_queue.py).
 */
module RefreshRun {
  import opened Common
  import opened Keyset
  import opened RefreshChunks
  import Backlog
  import RampModel

  /** `base` are the rows every read sees; others come and go. */
  datatype Config = Config(base: set<Key>, pageSize: nat, limits: Backlog.Config)

  /** A page being worked on: its chunks not yet dispatched, those asking Audible, those
      answered that still hold their slot, those finished; and of the pairs the answered
      ones asked for, those no answer had, those the queue refused, those written and
      those gone with a write that failed. */
  datatype Work = Work(rows: seq<Key>, todo: seq<Chunk>, asking: multiset<Chunk>, answered: multiset<Chunk>, finished: multiset<Chunk>,
                       missing: set<Key>, shed: set<Key>, stored: set<Key>, lost: set<Key>)

  /** Where the dispatcher is. */
  datatype Phase = Reading | Dispatching(work: Work) | Gathering(work: Work) | Draining(work: Work) | Leaving | Ended

  /** `limit` is the gate's, `cleared` whether the dispatcher has passed the water mark
      and not yet its slot; `queued` books wait for their write or are in it, `landed`
      ones are in the database; `runs` runs so far, one of them current unless Ended;
      the page reads they made; the pages held back; the pages whose end became the
      cursor. */
  datatype State = State(cursor: Option<Key>, phase: Phase, stopping: bool, limit: int, cleared: bool, queued: set<Key>, landed: set<Key>,
                         runs: nat, pages: nat, held: nat, confirmed: seq<Work>)

  datatype Event =
    | ReadPage(table: set<Key>, rows: seq<Key>)
    | CheckBacklog
    | Dispatch
    | LeaveDispatch
    | Answer(chunk: Chunk, got: Option<set<Key>>)  // None: the request failed
    | Release(chunk: Chunk, move: RampModel.Move)
    | Gathered
    | SeeEmpty
    | DrainTimeout
    | Persist(chunk: Chunk, written: set<Key>)
    | RequestStop
    | Exit
    | Kill
    | Restart

  function Start(cfg: Config): State {
    State(None, Reading, false, cfg.limits.ramp.start, false, {}, {}, 1, 0, 0, [])
  }

  function PageEnd(cursor: Option<Key>, rows: seq<Key>): Option<Key> {
    if rows == [] then cursor else Some(LastOf(rows))
  }

  predicate HasWork(phase: Phase) {
    phase.Dispatching? || phase.Gathering? || phase.Draining?
  }

  function WithWork(phase: Phase, w: Work): Phase
    requires HasWork(phase)
  {
    match phase
    case Dispatching(_) => Dispatching(w)
    case Gathering(_) => Gathering(w)
    case _ => Draining(w)
  }

  /** The slots of the gate in use. */
  function Active(w: Work): nat {
    |w.asking| + |w.answered|
  }

  /** A chunk's books in the queue, one batch. */
  function Batch(queued: set<Key>, c: Chunk): set<Key> {
    queued * BooksOf(c)
  }

  /** _spawn: a batch is taken whole or refused whole. */
  predicate Admitted(cfg: Config, queued: set<Key>, got: set<Key>) {
    |queued| + |got| <= cfg.limits.capacity
  }

  function Brought(got: Option<set<Key>>): set<Key> {
    if got.Some? then got.value else {}
  }

  ghost predicate Enabled(cfg: Config, s: State, e: Event) {
    match e
    case ReadPage(table, rows) =>
      s.phase.Reading? && !s.stopping && cfg.base <= table && cfg.pageSize > 0 && PageOf(table, s.cursor, cfg.pageSize, rows) && KnownRegions(rows)
    case CheckBacklog =>
      s.phase.Dispatching? && !s.stopping && !s.cleared && s.phase.work.todo != [] && |s.queued| <= cfg.limits.mark
    case Dispatch => s.phase.Dispatching? && s.cleared && s.phase.work.todo != [] && Active(s.phase.work) < s.limit
    case LeaveDispatch => s.phase.Dispatching? && !s.cleared && (s.stopping || s.phase.work.todo == [])
    case Answer(chunk, got) =>
      (s.phase.Dispatching? || s.phase.Gathering?) && chunk in s.phase.work.asking && Brought(got) <= BooksOf(chunk)
    case Release(chunk, _) => (s.phase.Dispatching? || s.phase.Gathering?) && chunk in s.phase.work.answered
    case Gathered => s.phase.Gathering? && s.phase.work.asking == s.phase.work.answered == multiset{}
    case SeeEmpty => s.phase.Draining? && s.queued == {}
    case DrainTimeout => s.phase.Draining? && s.queued != {}
    case Persist(chunk, written) =>
      !s.phase.Ended? && written <= Batch(s.queued, chunk) &&
      (HasWork(s.phase) ==> chunk in s.phase.work.answered + s.phase.work.finished)
    case RequestStop => !s.phase.Ended?
    case Exit => s.phase.Leaving? || (s.phase.Reading? && s.stopping)
    case Kill => !s.phase.Ended?
    case Restart => s.phase.Ended?
  }

  /** The gather, the stop check and the drain of one page come in this order; a
      page that was stopped, or whose queue did not drain, is held. */
  ghost function Next(cfg: Config, s: State, e: Event): State
    requires Enabled(cfg, s, e)
  {
    match e
    case ReadPage(_, rows) =>
      if rows == [] then s.(phase := Leaving)
      else s.(phase := Dispatching(NewWork(rows)), pages := s.pages + 1)
    case CheckBacklog => s.(cleared := true)
    case Dispatch => s.(phase := Dispatching(Dispatched(s.phase.work)), cleared := false)
    case LeaveDispatch => s.(phase := Gathering(s.phase.work))
    case Answer(chunk, got) =>
      var admitted := Admitted(cfg, s.queued, Brought(got));
      s.(phase := WithWork(s.phase, AnsweredBy(s.phase.work, chunk, Brought(got), admitted)),
         queued := if admitted then s.queued + Brought(got) else s.queued)
    case Release(chunk, move) =>
      s.(phase := WithWork(s.phase, Released(s.phase.work, chunk)), limit := Backlog.Moved(cfg.limits.ramp, s.limit, move))
    case Gathered =>
      if s.stopping then s.(phase := Leaving, held := s.held + 1) else s.(phase := Draining(s.phase.work))
    case SeeEmpty =>
      s.(phase := Reading, cursor := PageEnd(s.cursor, s.phase.work.rows), confirmed := s.confirmed + [s.phase.work])
    case DrainTimeout => s.(phase := Leaving, stopping := true, held := s.held + 1)
    case Persist(chunk, written) =>
      // The queue releases a batch however its write ended.
      var batch := Batch(s.queued, chunk);
      s.(queued := s.queued - batch, landed := s.landed + written,
         phase := if HasWork(s.phase) then WithWork(s.phase, Written(s.phase.work, written, batch - written)) else s.phase)
    case RequestStop => s.(stopping := true)
    case Exit => s.(phase := Ended, queued := {})
    case Kill => s.(phase := Ended, cleared := false, queued := {}, held := if HasWork(s.phase) then s.held + 1 else s.held)
    case Restart => s.(phase := Reading, stopping := false, limit := cfg.limits.ramp.start, runs := s.runs + 1)
  }

  function NewWork(rows: seq<Key>): Work {
    Work(rows, ChunksFrom(rows, CHUNK_SIZE, 0), multiset{}, multiset{}, multiset{}, {}, {}, {}, {})
  }

  function Dispatched(w: Work): Work
    requires w.todo != []
  {
    w.(todo := w.todo[1..], asking := w.asking + multiset{w.todo[0]})
  }

  function AnsweredBy(w: Work, chunk: Chunk, got: set<Key>, admitted: bool): Work {
    w.(asking := w.asking - multiset{chunk}, answered := w.answered + multiset{chunk},
       missing := w.missing + (BooksOf(chunk) - got), shed := if admitted then w.shed else w.shed + got)
  }

  function Released(w: Work, chunk: Chunk): Work {
    w.(answered := w.answered - multiset{chunk}, finished := w.finished + multiset{chunk})
  }

  function Written(w: Work, written: set<Key>, gone: set<Key>): Work {
    w.(stored := w.stored + written, lost := w.lost + gone)
  }

  // ---------------------------------------------------------------- what every step keeps

  /** A page leaves no row that every read sees behind its last one. */
  ghost predicate Complete(base: set<Key>, cursor: Option<Key>, rows: seq<Key>)
    requires rows != []
  {
    && Ascending(rows) && KnownRegions(rows)
    && (forall k | k in rows :: After(cursor, k))
    && (forall k | k in base && After(cursor, k) :: k in rows || After(Some(LastOf(rows)), k))
  }

  /** Every chunk of the page is somewhere. */
  ghost predicate Placed(w: Work) {
    multiset(w.todo) + w.asking + w.answered + w.finished == multiset(ChunksFrom(w.rows, CHUNK_SIZE, 0))
  }

  /** Every pair a chunk that was answered asked for is in exactly one place: in no
      answer, refused, waiting, written, or gone with a write that failed. */
  ghost predicate Settled(w: Work, queued: set<Key>) {
    && Books(w.answered + w.finished) == w.missing + w.shed + w.stored + w.lost + queued
    && w.missing !! w.shed !! w.stored !! w.lost !! queued
  }

  ghost predicate WorkOk(cfg: Config, s: State, w: Work) {
    && w.rows != [] && |w.rows| <= cfg.pageSize && Complete(cfg.base, s.cursor, w.rows)
    && Placed(w) && Settled(w, s.queued) && w.stored <= s.landed
  }

  ghost predicate PhaseOk(cfg: Config, s: State) {
    match s.phase
    case Reading => s.queued == {}
    case Dispatching(w) => WorkOk(cfg, s, w)
    case Gathering(w) => WorkOk(cfg, s, w) && (!s.stopping ==> w.todo == [])
    case Draining(w) => WorkOk(cfg, s, w) && w.todo == [] && w.asking == w.answered == multiset{}
    case Leaving => true
    case Ended => s.queued == {}
  }

  /** A confirmed page: every chunk finished, and every pair of it written, refused,
      lost, or in no answer. */
  ghost predicate Confirmed(w: Work, landed: set<Key>) {
    && w.rows != [] && KnownRegions(w.rows)
    && w.finished == multiset(ChunksFrom(w.rows, CHUNK_SIZE, 0))
    && KeysOf(w.rows) == w.missing + w.shed + w.stored + w.lost && w.missing !! w.shed !! w.stored !! w.lost
    && w.stored <= landed
  }

  ghost predicate AllConfirmed(confirmed: seq<Work>, landed: set<Key>) {
    forall i | 0 <= i < |confirmed| :: Confirmed(confirmed[i], landed)
  }

  ghost predicate PagesRise(confirmed: seq<Work>) {
    forall i, j, a, b | 0 <= i < j < |confirmed| && a in confirmed[i].rows && b in confirmed[j].rows :: Before(a, b)
  }

  /** Nothing confirmed lies after the cursor, and no row of every table before it
      was left out. */
  ghost predicate Covered(base: set<Key>, cursor: Option<Key>, confirmed: seq<Work>) {
    && (forall i, k | 0 <= i < |confirmed| && k in confirmed[i].rows :: cursor.Some? && !After(cursor, k))
    && (forall k | k in base && !After(cursor, k) :: InSome(confirmed, k))
  }

  ghost predicate InSome(confirmed: seq<Work>, k: Key) {
    exists i :: 0 <= i < |confirmed| && k in confirmed[i].rows
  }

  /** Each read is a page confirmed, held or still at work; each run holds at most one. */
  ghost predicate Accounts(s: State) {
    && s.pages == |s.confirmed| + s.held + (if HasWork(s.phase) then 1 else 0)
    && s.held + (if s.phase.Leaving? || s.phase.Ended? then 0 else 1) <= s.runs
  }

  ghost predicate Inv(cfg: Config, s: State) {
    && PhaseOk(cfg, s) && AllConfirmed(s.confirmed, s.landed) && PagesRise(s.confirmed)
    && Covered(cfg.base, s.cursor, s.confirmed) && Accounts(s)
  }

  lemma ReadKeeps(cfg: Config, s: State, e: Event)
    requires PhaseOk(cfg, s) && Enabled(cfg, s, e) && e.ReadPage?
    ensures PhaseOk(cfg, Next(cfg, s, e))
  {
    hide ChunksFrom, BooksOf;
    var rows := e.rows;
    if rows != [] {
      forall k | k in cfg.base && After(s.cursor, k) ensures k in rows || After(Some(LastOf(rows)), k) {
        PageLeavesNothingBehind(e.table, s.cursor, cfg.pageSize, rows, k);
      }
    }
  }

  lemma DispatchKeeps(cfg: Config, s: State)
    requires PhaseOk(cfg, s) && Enabled(cfg, s, Dispatch)
    ensures PhaseOk(cfg, Next(cfg, s, Dispatch))
  {
    hide ChunksFrom, Complete, Books;
    var todo := s.phase.work.todo;
    assert todo == [todo[0]] + todo[1..];
  }

  /** What a chunk asks for is in none of the places yet, */
  lemma AsksForNew(w: Work, chunk: Chunk)
    requires KnownRegions(w.rows) && Placed(w) && chunk in w.asking
    ensures Books(w.answered + w.finished) !! BooksOf(chunk)
    ensures Books(w.answered + w.finished + multiset{chunk}) == Books(w.answered + w.finished) + BooksOf(chunk) <= KeysOf(w.rows)
  {
    hide ChunksFrom, BooksOf, Books, KnownRegions;
    var all := multiset(ChunksFrom(w.rows, CHUNK_SIZE, 0));
    var before, one := w.answered + w.finished, multiset{chunk};
    assert before + one + (all - before - one) == all;
    BooksApart(w.rows, CHUNK_SIZE, before, one);
    BooksTogether(before, one);
    BooksTogether(before + one, all - before - one);
    BooksOfOne(chunk);
    PageBooks(w.rows, CHUNK_SIZE);
  }

  lemma PartsGrow(books: set<Key>, asked: set<Key>, w: Work, queued: set<Key>, got: set<Key>, admitted: bool)
    requires books == w.missing + w.shed + w.stored + w.lost + queued && w.missing !! w.shed !! w.stored !! w.lost !! queued
    requires books !! asked && got <= asked
    ensures var missing, shed, queue := w.missing + (asked - got), (if admitted then w.shed else w.shed + got), (if admitted then queued + got else queued);
            books + asked == missing + shed + w.stored + w.lost + queue && missing !! shed !! w.stored !! w.lost !! queue
  {
  }

  /** and comes to be in one of them. */
  lemma AnswerSettles(w: Work, queued: set<Key>, chunk: Chunk, got: set<Key>, admitted: bool)
    requires KnownRegions(w.rows) && Placed(w) && Settled(w, queued) && chunk in w.asking && got <= BooksOf(chunk)
    ensures var next := AnsweredBy(w, chunk, got, admitted);
            Placed(next) && Settled(next, if admitted then queued + got else queued)
    ensures BooksOf(chunk) !! queued && queued + BooksOf(chunk) <= KeysOf(w.rows)
  {
    hide ChunksFrom, BooksOf, Books, KnownRegions, KeysOf;
    AsksForNew(w, chunk);
    PartsGrow(Books(w.answered + w.finished), BooksOf(chunk), w, queued, got, admitted);
    var next := AnsweredBy(w, chunk, got, admitted);
    assert next.answered + next.finished == w.answered + w.finished + multiset{chunk};
    assert next.asking + next.answered == w.asking + w.answered;
  }

  lemma AnswerKeeps(cfg: Config, s: State, e: Event)
    requires PhaseOk(cfg, s) && Enabled(cfg, s, e) && e.Answer?
    ensures PhaseOk(cfg, Next(cfg, s, e))
  {
    hide ChunksFrom, BooksOf, Books, Placed, Settled, Admitted, KnownRegions;
    var w := s.phase.work;
    assert WorkOk(cfg, s, w) && KnownRegions(w.rows);
    AnswerSettles(w, s.queued, e.chunk, Brought(e.got), Admitted(cfg, s.queued, Brought(e.got)));
  }

  lemma ReleaseKeeps(cfg: Config, s: State, e: Event)
    requires PhaseOk(cfg, s) && Enabled(cfg, s, e) && e.Release?
    ensures PhaseOk(cfg, Next(cfg, s, e))
  {
    hide ChunksFrom, Complete, Books;
    var w, next := s.phase.work, Released(s.phase.work, e.chunk);
    assert next.answered + next.finished == w.answered + w.finished;
  }

  lemma WriteSettles(w: Work, queued: set<Key>, batch: set<Key>, written: set<Key>)
    requires Settled(w, queued) && batch <= queued && written <= batch
    ensures Settled(Written(w, written, batch - written), queued - batch)
  {
    hide Books;
  }

  lemma PersistKeeps(cfg: Config, s: State, e: Event)
    requires PhaseOk(cfg, s) && Enabled(cfg, s, e) && e.Persist?
    ensures PhaseOk(cfg, Next(cfg, s, e))
  {
    hide ChunksFrom, Complete, Books, BooksOf, Settled;
    if HasWork(s.phase) {
      WriteSettles(s.phase.work, s.queued, Batch(s.queued, e.chunk), e.written);
    }
  }

  lemma OthersKeep(cfg: Config, s: State, e: Event)
    requires PhaseOk(cfg, s) && Enabled(cfg, s, e)
    requires !e.ReadPage? && !e.Dispatch? && !e.Answer? && !e.Release? && !e.Persist?
    ensures PhaseOk(cfg, Next(cfg, s, e))
  {
    hide ChunksFrom, Complete, Placed, Settled;
  }

  lemma AccountsKeep(cfg: Config, s: State, e: Event)
    requires Accounts(s) && Enabled(cfg, s, e)
    ensures Accounts(Next(cfg, s, e))
  {
    hide ChunksFrom, PageOf, KnownRegions, LastOf, After, BooksOf, Admitted;
  }

  lemma LandedGrows(confirmed: seq<Work>, landed: set<Key>, more: set<Key>)
    requires AllConfirmed(confirmed, landed) && landed <= more
    ensures AllConfirmed(confirmed, more)
  {
    hide ChunksFrom, KnownRegions, KeysOf;
  }

  /** The page whose drain saw the queue empty is confirmed. */
  lemma DrainedIsConfirmed(cfg: Config, s: State)
    requires PhaseOk(cfg, s) && Enabled(cfg, s, SeeEmpty)
    ensures Confirmed(s.phase.work, s.landed)
  {
    hide ChunksFrom, Books, KeysOf;
    var w := s.phase.work;
    assert WorkOk(cfg, s, w) && w.todo == [] && w.asking == w.answered == multiset{};
    assert multiset(w.todo) == multiset{} && w.answered + w.finished == w.finished;
    PageBooks(w.rows, CHUNK_SIZE);
  }

  lemma ConfirmsOneMore(confirmed: seq<Work>, w: Work, landed: set<Key>)
    requires AllConfirmed(confirmed, landed) && Confirmed(w, landed)
    ensures AllConfirmed(confirmed + [w], landed)
  {
    hide Confirmed;
  }

  lemma ConfirmedKeeps(cfg: Config, s: State, e: Event)
    requires PhaseOk(cfg, s) && AllConfirmed(s.confirmed, s.landed) && Enabled(cfg, s, e)
    ensures AllConfirmed(Next(cfg, s, e).confirmed, Next(cfg, s, e).landed)
  {
    hide AllConfirmed, Confirmed, ChunksFrom, PhaseOk, PageOf, KnownRegions, LastOf, After, BooksOf, Admitted;
    if e.SeeEmpty? {
      DrainedIsConfirmed(cfg, s);
      ConfirmsOneMore(s.confirmed, s.phase.work, s.landed);
    } else {
      OnlySeeEmptyConfirms(cfg, s, e);
      LandedGrows(s.confirmed, s.landed, Next(cfg, s, e).landed);
    }
  }

  lemma CoverageKeeps(cfg: Config, s: State)
    requires PhaseOk(cfg, s) && PagesRise(s.confirmed) && Covered(cfg.base, s.cursor, s.confirmed) && Enabled(cfg, s, SeeEmpty)
    ensures PagesRise(Next(cfg, s, SeeEmpty).confirmed)
    ensures Covered(cfg.base, Next(cfg, s, SeeEmpty).cursor, Next(cfg, s, SeeEmpty).confirmed)
  {
    hide PagesRise, Covered, Complete, ChunksFrom, Placed, Settled;
    var w := s.phase.work;
    ConfirmOne(cfg.base, s.cursor, s.confirmed, w);
  }

  /** A page all of whose rows lie after the cursor joins those before it. */
  lemma ConfirmOne(base: set<Key>, cursor: Option<Key>, confirmed: seq<Work>, w: Work)
    requires PagesRise(confirmed) && Covered(base, cursor, confirmed) && w.rows != [] && Complete(base, cursor, w.rows)
    ensures PagesRise(confirmed + [w]) && Covered(base, Some(LastOf(w.rows)), confirmed + [w])
  {
    var all, last := confirmed + [w], Some(LastOf(w.rows));
    forall i, j, a, b | 0 <= i < j < |all| && a in all[i].rows && b in all[j].rows ensures Before(a, b) {
      if j == |confirmed| {
        assert a in confirmed[i].rows && !After(cursor, a) && After(cursor, b);
      }
    }
    forall i, k | 0 <= i < |all| && k in all[i].rows ensures !After(last, k) {
      if i < |confirmed| {
        assert k in confirmed[i].rows && !After(cursor, k) && After(cursor, last.value);
      } else {
        var p :| 0 <= p < |w.rows| && w.rows[p] == k;
      }
    }
    forall k | k in base && !After(last, k) ensures InSome(all, k) {
      if After(cursor, k) {
        assert all[|confirmed|] == w && k in all[|confirmed|].rows;
      } else {
        assert InSome(confirmed, k);
        var i :| 0 <= i < |confirmed| && k in confirmed[i].rows;
        assert k in all[i].rows;
      }
    }
  }

  /** Every step, a stop, a kill and a restart among them, keeps the invariant. */
  lemma StepKeeps(cfg: Config, s: State, e: Event)
    requires Inv(cfg, s) && Enabled(cfg, s, e)
    ensures Inv(cfg, Next(cfg, s, e))
  {
    hide PhaseOk, AllConfirmed, PagesRise, Covered, Accounts, Enabled, Next;
    if e.ReadPage? { ReadKeeps(cfg, s, e); }
    else if e.Dispatch? { DispatchKeeps(cfg, s); }
    else if e.Answer? { AnswerKeeps(cfg, s, e); }
    else if e.Release? { ReleaseKeeps(cfg, s, e); }
    else if e.Persist? { PersistKeeps(cfg, s, e); }
    else { OthersKeep(cfg, s, e); }
    ConfirmedKeeps(cfg, s, e);
    AccountsKeep(cfg, s, e);
    if e.SeeEmpty? { CoverageKeeps(cfg, s); } else { OnlySeeEmptyConfirms(cfg, s, e); }
  }

  lemma OnlySeeEmptyConfirms(cfg: Config, s: State, e: Event)
    requires Enabled(cfg, s, e) && !e.SeeEmpty?
    ensures Next(cfg, s, e).confirmed == s.confirmed && Next(cfg, s, e).cursor == s.cursor && s.landed <= Next(cfg, s, e).landed
  {
    hide ChunksFrom, BooksOf, PageOf, KnownRegions, Admitted;
  }

  // ---------------------------------------------------------------- whole histories

  /** The state a history of steps leads to, if each was possible. */
  ghost function Run(cfg: Config, events: seq<Event>): Option<State> {
    if events == [] then Some(Start(cfg))
    else
      var before, e := Run(cfg, events[..|events| - 1]), events[|events| - 1];
      if before.Some? && Enabled(cfg, before.value, e) then Some(Next(cfg, before.value, e)) else None
  }

  lemma {:induction false} RunKeeps(cfg: Config, events: seq<Event>)
    requires Run(cfg, events).Some?
    ensures Inv(cfg, Run(cfg, events).value)
  {
    if events == [] {
      assert Inv(cfg, Start(cfg));
    } else {
      hide Inv, Enabled, Next;
      RunKeeps(cfg, events[..|events| - 1]);
      StepKeeps(cfg, Run(cfg, events[..|events| - 1]).value, events[|events| - 1]);
    }
  }

  /** What holds of every page whose end has become the cursor. */
  lemma ConfirmedAre(cfg: Config, events: seq<Event>, i: nat)
    requires Run(cfg, events).Some? && i < |Run(cfg, events).value.confirmed|
    ensures Confirmed(Run(cfg, events).value.confirmed[i], Run(cfg, events).value.landed)
  {
    RunKeeps(cfg, events);
    hide Run, PhaseOk, PagesRise, Covered, Accounts, Confirmed;
  }

  /** Whenever the cursor has moved to a page's end, every distinct pair of the page
      had been asked for in exactly one chunk, of one region and at most 50 books;
      every chunk had finished; and none of the books they brought back was still
      waiting for its write: each pair had been written since, refused by the queue,
      lost with a write that failed, or was in no answer. */
  lemma CursorIsHonest(cfg: Config, events: seq<Event>, i: nat, k: Key)
    requires Run(cfg, events).Some? && i < |Run(cfg, events).value.confirmed|
    ensures var s := Run(cfg, events).value;
            var w, chunks := s.confirmed[i], ChunksFrom(s.confirmed[i].rows, CHUNK_SIZE, 0);
            && Asked(chunks, k) == (if k in w.rows then 1 else 0)
            && w.finished == multiset(chunks) && (forall c | c in chunks :: 0 < |c.asins| <= CHUNK_SIZE)
            && KeysOf(w.rows) == w.missing + w.shed + w.stored + w.lost && w.missing !! w.shed !! w.stored !! w.lost
            && w.stored <= s.landed
  {
    ConfirmedAre(cfg, events, i);
    hide Run, ChunksFrom, Asked, KeysOf;
    EachPairOnce(Run(cfg, events).value.confirmed[i].rows, CHUNK_SIZE, k);
  }

  /** However runs are stopped, killed and chained, no row every read saw is skipped:
      one up to the cursor was on a confirmed page, and on only one. */
  lemma NothingSkipped(cfg: Config, events: seq<Event>, k: Key)
    requires Run(cfg, events).Some? && k in cfg.base
    ensures var s := Run(cfg, events).value;
            && (!After(s.cursor, k) <==> InSome(s.confirmed, k))
            && (forall i, j | 0 <= i < j < |s.confirmed| && k in s.confirmed[i].rows :: k !in s.confirmed[j].rows)
  {
    RunKeeps(cfg, events);
    var s := Run(cfg, events).value;
    assert Covered(cfg.base, s.cursor, s.confirmed) && PagesRise(s.confirmed);
    if InSome(s.confirmed, k) {
      var i :| 0 <= i < |s.confirmed| && k in s.confirmed[i].rows;
    }
    forall i, j | 0 <= i < j < |s.confirmed| && k in s.confirmed[i].rows ensures k !in s.confirmed[j].rows {
      assert k in s.confirmed[j].rows ==> Before(k, k);
    }
  }

  /** The run that reads an empty page has confirmed every such row. */
  lemma EndOfCorpus(cfg: Config, events: seq<Event>, table: set<Key>, k: Key)
    requires Run(cfg, events).Some? && Enabled(cfg, Run(cfg, events).value, ReadPage(table, [])) && k in cfg.base
    ensures InSome(Run(cfg, events).value.confirmed, k)
  {
    NothingSkipped(cfg, events, k);
  }

  /** Of the pages read, all but one a run, the one it was stopped in, are confirmed,
      and at most one is still at work. */
  lemma AtMostOneRepeatPerRun(cfg: Config, events: seq<Event>)
    requires Run(cfg, events).Some?
    ensures var s := Run(cfg, events).value;
            && |s.confirmed| + s.held <= s.pages <= |s.confirmed| + s.held + 1
            && s.held <= s.runs
  {
    RunKeeps(cfg, events);
    assert Accounts(Run(cfg, events).value);
  }

  // ---------------------------------------------------------------- when a page landed

  /** The step brings back and writes all it could: the request did not fail, the
      answer left nothing out, the queue took it, and a write wrote its whole batch. */
  ghost predicate CleanStep(cfg: Config, s: State, e: Event) {
    match e
    case Answer(chunk, got) => got == Some(BooksOf(chunk)) && Admitted(cfg, s.queued, got.value)
    case Persist(chunk, written) => written == Batch(s.queued, chunk)
    case _ => true
  }

  /** So did every step since the page at work was read. */
  ghost predicate CleanSincePage(cfg: Config, events: seq<Event>)
    requires Run(cfg, events).Some?
  {
    if events == [] || events[|events| - 1].ReadPage? then true
    else
      var before := events[..|events| - 1];
      CleanSincePage(cfg, before) && CleanStep(cfg, Run(cfg, before).value, events[|events| - 1])
  }

  /** The books written since the page at work was read. */
  function WrittenSincePage(events: seq<Event>): set<Key> {
    if events == [] || events[|events| - 1].ReadPage? then {}
    else
      var e := events[|events| - 1];
      WrittenSincePage(events[..|events| - 1]) + (if e.Persist? then e.written else {})
  }

  predicate Unharmed(w: Work) {
    w.missing == {} && w.shed == {} && w.lost == {}
  }

  lemma ChunksAskSomething(w: Work, c: Chunk)
    requires KnownRegions(w.rows) && Placed(w) && c in w.asking
    ensures BooksOf(c) != {}
  {
    var chunks := ChunksFrom(w.rows, CHUNK_SIZE, 0);
    EachPairOnce(w.rows, CHUNK_SIZE, Key(0, 0));
    hide ChunksFrom;
    assert c in multiset(chunks);
    assert c in chunks;
    assert c.asins[0] in c.asins && Key(c.asins[0], c.region) in BooksOf(c);
  }

  lemma AnswerHarms(cfg: Config, s: State, e: Event)
    requires PhaseOk(cfg, s) && |s.queued| <= cfg.limits.capacity && Enabled(cfg, s, e) && e.Answer?
    ensures Unharmed(Next(cfg, s, e).phase.work) <==> Unharmed(s.phase.work) && CleanStep(cfg, s, e)
    ensures Next(cfg, s, e).phase.work.stored == s.phase.work.stored
  {
    hide ChunksFrom, Placed, Settled, KnownRegions, BooksOf, Ascending;
    assert WorkOk(cfg, s, s.phase.work);
    ChunksAskSomething(s.phase.work, e.chunk);
    NothingLeft(BooksOf(e.chunk), Brought(e.got));
    assert Brought(e.got) == {} ==> Admitted(cfg, s.queued, Brought(e.got));
  }

  lemma PersistHarms(cfg: Config, s: State, e: Event)
    requires Enabled(cfg, s, e) && e.Persist? && HasWork(s.phase)
    ensures Unharmed(Next(cfg, s, e).phase.work) <==> Unharmed(s.phase.work) && CleanStep(cfg, s, e)
    ensures Next(cfg, s, e).phase.work.stored == s.phase.work.stored + e.written
  {
    hide Batch;
    NothingLeft(Batch(s.queued, e.chunk), e.written);
  }

  /** A step hurts a page at work exactly when it is not clean. */
  lemma HarmKeeps(cfg: Config, s: State, e: Event)
    requires PhaseOk(cfg, s) && |s.queued| <= cfg.limits.capacity && Enabled(cfg, s, e) && HasWork(s.phase) && HasWork(Next(cfg, s, e).phase)
    ensures var w, next := s.phase.work, Next(cfg, s, e).phase.work;
            && (Unharmed(next) <==> Unharmed(w) && CleanStep(cfg, s, e))
            && next.stored == w.stored + (if e.Persist? then e.written else {})
  {
    hide PhaseOk, ChunksFrom, PageOf, KnownRegions, BooksOf, Unharmed, Admitted, Batch;
    if e.Answer? {
      AnswerHarms(cfg, s, e);
    } else if e.Persist? {
      PersistHarms(cfg, s, e);
    } else {
      OthersHarmless(cfg, s, e);
    }
  }

  lemma OthersHarmless(cfg: Config, s: State, e: Event)
    requires Enabled(cfg, s, e) && !e.Answer? && !e.Persist? && HasWork(s.phase) && HasWork(Next(cfg, s, e).phase)
    ensures Unharmed(Next(cfg, s, e).phase.work) <==> Unharmed(s.phase.work)
    ensures Next(cfg, s, e).phase.work.stored == s.phase.work.stored
  {
    hide ChunksFrom, PageOf, KnownRegions, BooksOf, LastOf, Unharmed;
    OthersKeepTheParts(cfg, s, e);
    hide Next, Enabled;
    SamePartsSameHarm(s.phase.work, Next(cfg, s, e).phase.work);
  }

  predicate SameParts(w: Work, next: Work) {
    w.missing == next.missing && w.shed == next.shed && w.stored == next.stored && w.lost == next.lost
  }

  lemma SamePartsSameHarm(w: Work, next: Work)
    requires SameParts(w, next)
    ensures Unharmed(w) <==> Unharmed(next)
  {
  }

  lemma OthersKeepTheParts(cfg: Config, s: State, e: Event)
    requires Enabled(cfg, s, e) && !e.Answer? && !e.Persist? && HasWork(s.phase) && HasWork(Next(cfg, s, e).phase)
    ensures SameParts(s.phase.work, Next(cfg, s, e).phase.work)
  {
    hide ChunksFrom, PageOf, KnownRegions, BooksOf, LastOf, Admitted, Batch, Backlog.Moved, NewWork;
    if !e.Dispatch? && !e.Release? {
      OthersKeepTheWork(cfg, s, e);
    }
  }

  lemma OthersKeepTheWork(cfg: Config, s: State, e: Event)
    requires Enabled(cfg, s, e) && !e.Answer? && !e.Persist? && !e.Dispatch? && !e.Release?
    requires HasWork(s.phase) && HasWork(Next(cfg, s, e).phase)
    ensures Next(cfg, s, e).phase.work == s.phase.work
  {
    hide ChunksFrom, PageOf, KnownRegions, BooksOf, LastOf, Admitted, Batch, Backlog.Moved, NewWork, Active;
  }

  lemma {:induction false} HarmOverRuns(cfg: Config, events: seq<Event>)
    requires Run(cfg, events).Some?
    ensures var s := Run(cfg, events).value;
            && |s.queued| <= cfg.limits.capacity
            && (HasWork(s.phase) ==> s.phase.work.stored == WrittenSincePage(events) && (Unharmed(s.phase.work) <==> CleanSincePage(cfg, events)))
  {
    if events != [] {
      var before, e := events[..|events| - 1], events[|events| - 1];
      HarmOverRuns(cfg, before);
      RunKeeps(cfg, before);
      var s := Run(cfg, before).value;
      assert PhaseOk(cfg, s);
      hide Inv, PhaseOk, Enabled, CleanStep, Next;
      QueueStays(cfg, s, e);
      if HasWork(Next(cfg, s, e).phase) {
        WorkComesFromWork(cfg, s, e);
        if HasWork(s.phase) { HarmKeeps(cfg, s, e); }
      }
    }
  }

  lemma QueueStays(cfg: Config, s: State, e: Event)
    requires |s.queued| <= cfg.limits.capacity && Enabled(cfg, s, e)
    ensures |Next(cfg, s, e).queued| <= cfg.limits.capacity
  {
    hide ChunksFrom, PageOf, KnownRegions, BooksOf;
    match e {
      case Answer(_, got) =>
        assert |s.queued + Brought(got)| <= |s.queued| + |Brought(got)|;
      case Persist(chunk, _) => SubsetSize(s.queued - Batch(s.queued, chunk), s.queued);
      case _ =>
    }
  }

  lemma WorkComesFromWork(cfg: Config, s: State, e: Event)
    requires Enabled(cfg, s, e) && HasWork(Next(cfg, s, e).phase)
    ensures HasWork(s.phase) || (e.ReadPage? && Unharmed(Next(cfg, s, e).phase.work) && Next(cfg, s, e).phase.work.stored == {})
    ensures HasWork(s.phase) ==> !e.ReadPage?
  {
    hide ChunksFrom, PageOf, KnownRegions, BooksOf, Admitted;
  }

  /** Whenever the cursor is about to move to a page's end, every pair of the page has
      been written since the page was read if and only if, since then, no request
      failed, no answer left a pair out, the queue refused no batch and no write lost
      a book. */
  lemma PageLandedIff(cfg: Config, events: seq<Event>)
    requires Run(cfg, events).Some? && Enabled(cfg, Run(cfg, events).value, SeeEmpty)
    ensures var s := Run(cfg, events).value;
            && ((forall k | k in s.phase.work.rows :: k in WrittenSincePage(events)) <==> CleanSincePage(cfg, events))
            && WrittenSincePage(events) <= s.landed
  {
    RunKeeps(cfg, events);
    HarmOverRuns(cfg, events);
    var s := Run(cfg, events).value;
    DrainedIsConfirmed(cfg, s);
    hide Run, ChunksFrom, PhaseOk, AllConfirmed, PagesRise, Covered, Accounts, CleanSincePage, WrittenSincePage, KnownRegions;
    var w := s.phase.work;
    assert forall k :: k in w.rows <==> k in KeysOf(w.rows);
  }
}
