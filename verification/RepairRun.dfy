/**
 The loops of scripts/repair_region_pollution.py over the durable state: every
 change they make is one step of the protocol, so each is cut short by a crash
 exactly where the protocol allows it.
 */
module RepairRun {
  import opened Common
  import opened RepairModel
  import opened RepairProtocol
  import opened RepairTheorems

  /** What becomes of one book once its product request was answered. */
  datatype Outcome =
    | LeftAlone                      // placeholder, no product, unreadable
    | Fresh(answer: Answer, now: int)
    | MarkerFails(answer: Answer, now: int, written: Written)  // replaced, but the run ends for want of its marker
    | Fails                          // an outage or a database error: rolled back, the run ends

  /** How much of a marker reached the file when appending it failed. */
  datatype Written = Nothing | Part | AllButNewline | Everything

  /** The transaction committed. */
  predicate Commits(o: Outcome) {
    o.Fresh? || o.MarkerFails?
  }

  /** And its marker is a complete line. */
  predicate Marks(o: Outcome) {
    o.Fresh? || (o.MarkerFails? && o.written.Everything?)
  }

  const BATCH_SIZE: nat := 50

  /** _next_batch: consecutive pairs of one region, at most fifty. */
  method NextBatch(pairs: seq<Pair>, start: nat, end: nat) returns (stop: nat)
    requires start < end <= |pairs|
    ensures start < stop <= end && stop - start <= 50
    ensures forall i | start <= i < stop :: pairs[i].region == pairs[start].region
    ensures stop == end || stop - start == 50 || pairs[stop].region != pairs[start].region
  {
    var region := pairs[start].region;
    stop := start;
    while stop < end && stop - start < BATCH_SIZE && pairs[stop].region == region
      invariant start <= stop <= end && stop - start <= BATCH_SIZE
      invariant forall i | start <= i < stop :: pairs[i].region == region
    {
      stop := stop + 1;
    }
  }

  class Repairer {
    const cfg: Config
    var s: State
    ghost var log: seq<Event>

    ghost predicate Valid()
      reads this
    {
      Run(cfg, log) == Some(s)
    }

    constructor (cfg: Config)
      requires ConfigOk(cfg)
      ensures Valid() && this.cfg == cfg && s == Init(cfg) && log == []
    {
      this.cfg := cfg;
      s := Init(cfg);
      log := [];
    }

    method Do(e: Event)
      requires Valid() && Enabled(cfg, s, e)
      modifies this
      ensures Valid() && s == Next(cfg, old(s), e) && log == old(log) + [e]
    {
      assert (log + [e])[..|log + [e]| - 1] == log;
      s := Next(cfg, s, e);
      log := log + [e];
    }

    /** Opening the backup and marking every replacement whose marker is lost. */
    method ReconcileCommits(job: Job)
      requires Valid() && s.proc.Down? && Enabled(cfg, s, Start(job))
      modifies this
      ensures Valid()
      ensures s.proc.Reconciling? && s.proc.todo == {} && s.proc.job == job
      ensures s.proc.records == ReadBackup(old(s.file))
      ensures s.proc.marked <==> Found(cfg, ReadBackup(old(s.file)), old(s.books)) != {}
      ensures Committed(s.file.lines) == MarkedAfterStart(cfg, old(s.file), old(s.books))
      ensures s.file.tail.NoTail? && old(s.file.lines) <= s.file.lines
      ensures forall r | r in s.file.lines[|old(s.file.lines)|..] :: r.CommitRecord?
      ensures s.books == old(s.books) && s.rows == old(s.rows) && s.commits == old(s.commits)
    {
      ghost var f, books := s.file, s.books;
      ghost var found := Found(cfg, ReadBackup(f), books);
      Do(Start(job));
      while s.proc.todo != {}
        invariant Valid()
        invariant s.proc.Reconciling? && s.proc.job == job && s.proc.records == ReadBackup(f)
        invariant s.proc.todo <= Unmarked(ReadBackup(f))
        invariant s.file.tail.NoTail? && f.lines <= s.file.lines
        invariant forall r | r in s.file.lines[|f.lines|..] :: r.CommitRecord?
        invariant Committed(s.file.lines) == Committed(f.lines) + (found - s.proc.todo)
        invariant s.proc.marked <==> found - s.proc.todo != {}
        invariant s.books == books && s.rows == old(s.rows) && s.commits == old(s.commits)
        decreases s.proc.todo
      {
        MarkNext(f, books);
      }
    }

    method MarkNext(ghost f: File, ghost books: map<Pair, Book>)
      requires Valid() && s.proc.Reconciling? && s.proc.todo != {} && s.books == books
      requires s.file.tail.NoTail? && f.lines <= s.file.lines
      requires forall r | r in s.file.lines[|f.lines|..] :: r.CommitRecord?
      modifies this
      ensures Valid() && s.proc.Reconciling?
      ensures s.file.tail.NoTail? && f.lines <= s.file.lines
      ensures forall r | r in s.file.lines[|f.lines|..] :: r.CommitRecord?
      ensures exists i | i in old(s.proc.todo) ::
                && s.proc.todo == old(s.proc.todo) - {i}
                && s.proc == old(s.proc).(todo := s.proc.todo, marked := s.proc.marked)
                && (s.proc.marked <==> old(s.proc.marked) || LooksReplaced(cfg, books, i))
                && Committed(s.file.lines) == Committed(old(s.file.lines)) + (if LooksReplaced(cfg, books, i) then {i} else {})
      ensures s.books == books && s.rows == old(s.rows) && s.commits == old(s.commits)
    {
      var i := Least(s.proc.todo, (i: nat, j: nat) => i < j);
      ghost var was := s;
      Do(ReconcileNext(i));
      if LooksReplaced(cfg, books, i) {
        CommittedAppend(was.file.lines, Marker(cfg, i));
        assert s.file.lines[|f.lines|..] == was.file.lines[|f.lines|..] + [Marker(cfg, i)];
      }
    }

    /** Reconcile, then check the start: refused exactly when the committed
        indexes the run holds say it would repeat finished work. */
    method OpenRun(job: Job) returns (admitted: bool)
      requires Valid() && s.proc.Down? && Enabled(cfg, s, Start(job)) && !job.Restore?
      modifies this
      ensures Valid()
      ensures admitted <==> Admits(CheckedAgainst(cfg, old(s.file), old(s.books)), job)
      ensures admitted ==> s.proc == (if job.RunFrom? then Walking(job.start, job.end) else Walking(job.index, job.index + 1))
      ensures !admitted ==> s.proc.Down?
      ensures s.books == old(s.books) && s.commits == old(s.commits)
    {
      ReconcileCommits(job);
      HeldRecordsOneList(cfg, log);
      Do(Check);
      admitted := s.proc.Walking?;
    }

    /** _repair_one and its transaction: false when the run cannot go on. */
    method RepairOne(outcome: Outcome) returns (more: bool)
      requires Valid() && s.proc.Walking? && s.proc.cursor < s.proc.end <= |cfg.list.pairs|
      requires Commits(outcome) ==> !PollutedAnswer(outcome.answer, cfg.list.pairs[s.proc.cursor].region)
      modifies this
      ensures Valid()
      ensures more <==> outcome.LeftAlone? || outcome.Fresh?
      ensures s.proc == if more then Walking(old(s.proc.cursor) + 1, old(s.proc.end)) else Down
      ensures s.books == AppliedOne(cfg.list.pairs[old(s.proc.cursor)], old(s.books), outcome)
      ensures s.commits == old(s.commits) + (if Commits(outcome) then [old(s.proc.cursor)] else [])
      ensures Committed(s.file.lines) ==
              Committed(old(s.file.lines)) + (if Marks(outcome) then {old(s.proc.cursor)} else {})
    {
      StoredWhileWalking(cfg, log);
      hide Committed, Unmarked, ReadBackup, FirstBook, SeriesRows, Run;
      ghost var was := s;
      ghost var c := s.proc.cursor;
      match outcome
      case LeftAlone =>
        Do(LeaveAlone);
        more := true;
      case Fails =>
        Do(AppendBook);
        CommittedAppend(was.file.lines, BackupOf(cfg, was.books, c));
        Do(Crash(NoTail));
        more := false;
      case Fresh(answer, now) =>
        ReplaceOne(answer, now);
        ghost var lines := s.file.lines;
        Do(AppendMarker);
        CommittedAppend(lines, Marker(cfg, c));
        more := true;
      case MarkerFails(answer, now, written) =>
        ReplaceOne(answer, now);
        LoseMarker(written);
        more := false;
    }

    /** The record, then the one transaction. */
    method ReplaceOne(answer: Answer, now: int)
      requires Valid() && s.proc.Walking? && s.proc.cursor < s.proc.end <= |cfg.list.pairs|
      requires cfg.list.pairs[s.proc.cursor] in s.books
      requires !PollutedAnswer(answer, cfg.list.pairs[s.proc.cursor].region)
      modifies this
      ensures Valid()
      ensures s.proc == Unmarking(old(s.proc.cursor), old(s.proc.end))
      ensures s.books == AppliedOne(cfg.list.pairs[old(s.proc.cursor)], old(s.books), Outcome.Fresh(answer, now))
      ensures s.commits == old(s.commits) + [old(s.proc.cursor)]
      ensures Committed(s.file.lines) == Committed(old(s.file.lines))
    {
      hide Committed, Unmarked, ReadBackup, FirstBook, SeriesRows, Run;
      ghost var was := s;
      Do(AppendBook);
      CommittedAppend(was.file.lines, BackupOf(cfg, was.books, was.proc.cursor));
      Do(Replace(answer, now));
    }

    /** A marker that could not be appended ends the run, whatever of it the file has. */
    method LoseMarker(written: Written)
      requires Valid() && s.proc.Unmarking? && s.proc.cursor < |cfg.list.pairs|
      modifies this
      ensures Valid() && s.proc.Down?
      ensures s.books == old(s.books) && s.rows == old(s.rows) && s.commits == old(s.commits)
      ensures Committed(s.file.lines) ==
              Committed(old(s.file.lines)) + (if written.Everything? then {old(s.proc.cursor)} else {})
      ensures s.file.tail == (match written
                              case Part => Torn
                              case AllButNewline => Whole(Marker(cfg, old(s.proc.cursor)))
                              case _ => NoTail)
    {
      hide Committed, Unmarked, ReadBackup, FirstBook, SeriesRows, Run;
      ghost var lines := s.file.lines;
      var marker := Marker(cfg, s.proc.cursor);
      assert MayBeAppending(cfg, s, marker);
      match written
      case Nothing => Do(Crash(NoTail));
      case Part => Do(Crash(Torn));
      case AllButNewline => Do(Crash(Whole(marker)));
      case Everything =>
        Do(AppendMarker);
        CommittedAppend(lines, marker);
        Do(Exit);
    }

    /** restore: reconcile, read again, put the first record of each marked pair back,
        in the order the file holds them and no more than the limit, then, with no
        limit, re-insert the series_author rows. */
    method RestoreAll(limit: Option<nat>) returns (restored: nat)
      requires Valid() && s.proc.Down?
      modifies this
      ensures Valid() && s.proc.Down?
      ensures restored == UpTo(limit, |MarkedAfterStart(cfg, old(s.file), old(s.books))|)
      ensures var order := RestoreOrder(old(s.file.lines), MarkedAfterStart(cfg, old(s.file), old(s.books)));
              restored <= |order| && s.books == Overlay(cfg, old(s.file.lines), old(s.books), FirstOf(order, restored))
      ensures limit.None? ==> s.books == RestoredBooks(cfg, old(s.file), old(s.books))
      ensures s.rows == old(s.rows) + (if limit.None? then SeriesRows(old(s.file.lines)) else {})
    {
      hide Overlay, RestoreOrder, FirstOf, Ordered, MarkedAfterStart, RestoredBooks, SeriesRows, ReadBackup, Unmarked, Restorable, Run;
      ghost var f, was := s.file, s.books;
      ReconcileCommits(Restore);
      HeldRecordsOneList(cfg, log);
      MarkedHaveRecords(cfg, log);
      ghost var lines, marked := s.file.lines, Committed(s.file.lines);
      SeriesRowsPastMarkers(f.lines, lines);
      Do(Check);
      AllAreOrdered(cfg, lines, s.books, marked);
      restored := RestoreBooks(limit);
      RestoreOutcome(cfg, log, f, lines, was, restored);
      if limit.None? {
        RestoreRows();
      }
      Do(Exit);
    }

    /** The pairs to put back, in the order of their first records. */
    method FirstRecords() returns (order: seq<nat>)
      requires s.proc.Restoring?
      ensures order == RestoreOrder(s.file.lines, s.proc.todo)
    {
      order := [];
      for k := 0 to |s.file.lines|
        invariant order == RestoreOrder(s.file.lines[..k], s.proc.todo)
      {
        var r := s.file.lines[k];
        assert s.file.lines[..k + 1][..k] == s.file.lines[..k];
        if r.BookRecord? && r.index in s.proc.todo && r.index !in order {
          order := order + [r.index];
        }
      }
      assert s.file.lines[..|s.file.lines|] == s.file.lines;
    }

    method RestoreBooks(limit: Option<nat>) returns (restored: nat)
      requires Valid() && s.proc.Restoring?
      requires Restorable(cfg, s.file.lines, s.books, s.proc.todo)
      requires Ordered(RestoreOrder(s.file.lines, s.proc.todo), s.proc.todo)
      modifies this
      ensures Valid() && s.proc.Restoring?
      ensures s.file == old(s.file) && s.rows == old(s.rows)
      ensures restored == UpTo(limit, |RestoreOrder(s.file.lines, old(s.proc.todo))|)
      ensures s.books == Overlay(cfg, s.file.lines, old(s.books), FirstOf(RestoreOrder(s.file.lines, old(s.proc.todo)), restored))
      ensures s.proc.todo == old(s.proc.todo) - FirstOf(RestoreOrder(s.file.lines, old(s.proc.todo)), restored)
    {
      hide Overlay, Committed, FirstBook, Run, Next, Enabled, RestoreOrder, FirstOf, Ordered;
      ghost var lines, was, marked := s.file.lines, s.books, s.proc.todo;
      var order := FirstRecords();
      restored := 0;
      OverlayNone(cfg, lines, was);
      NoneInOrder(order);
      while restored < |order| && (limit.None? || restored < limit.value)
        invariant Valid() && s.proc.Restoring?
        invariant s.file == old(s.file) && s.rows == old(s.rows)
        invariant restored <= UpTo(limit, |order|)
        invariant s.proc.todo == marked - FirstOf(order, restored)
        invariant s.books == Overlay(cfg, lines, was, FirstOf(order, restored))
        decreases |order| - restored
      {
        var i := order[restored];
        NextInOrder(order, marked, restored);
        OverlayStep(cfg, log, lines, was, FirstOf(order, restored), i);
        RestoreBook(i);
        restored := restored + 1;
      }
    }

    method RestoreBook(i: nat)
      requires Valid() && s.proc.Restoring? && i in s.proc.todo
      requires i < |cfg.list.pairs| && FirstBook(s.file.lines, i).Some?
      modifies this
      ensures Valid()
      ensures s.file == old(s.file) && s.rows == old(s.rows)
      ensures s.proc == Restoring(old(s.proc.todo) - {i})
      ensures s.books == old(s.books)[cfg.list.pairs[i] := FirstBook(s.file.lines, i).value]
    {
      Do(RestoreOne(i));
    }

    method RestoreRows()
      requires Valid() && s.proc == Restoring({})
      modifies this
      ensures Valid() && s == old(s).(rows := s.rows)
      ensures s.rows == old(s.rows) + SeriesRows(s.file.lines)
    {
      var rows := SeriesRows(s.file.lines);
      while rows != {}
        invariant Valid() && s == old(s).(rows := s.rows)
        invariant rows <= SeriesRows(s.file.lines)
        invariant s.rows == old(s.rows) + (SeriesRows(s.file.lines) - rows)
        decreases rows
      {
        var row :| row in rows;
        Do(RestoreRow(row));
        rows := rows - {row};
      }
    }

    /** process: walks the pairs from the cursor, batch by batch.  The books the
        cursor has passed are exactly as their outcomes say, each replacement is
        committed once and marked unless its marker failed, which ends the run, and
        no other book is touched. */
    method Process(outcomes: seq<Outcome>, outages: set<nat>, stops: set<nat>) returns (cursor: nat)
      requires Valid() && s.proc.Walking? && s.proc.cursor <= s.proc.end <= |cfg.list.pairs|
      requires OutcomesOk(cfg, outcomes)
      modifies this
      ensures Valid() && old(s.proc.cursor) <= cursor <= old(s.proc.end)
      ensures s.books == Applied(cfg.list.pairs, old(s.books), outcomes, old(s.proc.cursor), cursor)
      ensures AsOutcomesSay(cfg.list.pairs, old(s.books), s.books, outcomes, old(s.proc.cursor), cursor)
      ensures s.commits == old(s.commits) + Replaced(outcomes, old(s.proc.cursor), cursor)
      ensures AllMarkedBut(outcomes, s.file.lines, old(s.proc.cursor), cursor)
      ensures s.proc == Walking(cursor, old(s.proc.end)) || s.proc.Down?
      ensures s.proc.Walking? ==> NoFailure(outcomes, old(s.proc.cursor), cursor) && (cursor < old(s.proc.end) ==> cursor in stops)
      ensures s.proc.Down? ==> EndedBy(outcomes, outages, old(s.proc.cursor), cursor, old(s.proc.end))
    {
      var start, end := s.proc.cursor, s.proc.end;
      ghost var books, commits := s.books, s.commits;
      cursor := start;
      while cursor < end && cursor !in stops && s.proc.Walking?
        invariant Valid() && start <= cursor <= end
        invariant s.proc == Walking(cursor, end) || s.proc.Down?
        invariant s.proc.Walking? ==> NoFailure(outcomes, start, cursor)
        invariant s.proc.Down? ==> EndedBy(outcomes, outages, start, cursor, end)
        invariant s.books == Applied(cfg.list.pairs, books, outcomes, start, cursor)
        invariant s.commits == commits + Replaced(outcomes, start, cursor)
        invariant AllMarkedBut(outcomes, s.file.lines, start, cursor)
        decreases end - cursor, s.proc.Walking?
      {
        if cursor in outages {
          Do(Crash(NoTail));
        } else {
          var batchEnd := NextBatch(cfg.list.pairs, cursor, end);
          cursor := ProcessBatch(outcomes, stops, batchEnd, books, commits, start);
        }
      }
      PairsDiffer(cfg, log);
      AppliedMeans(cfg.list.pairs, books, outcomes, start, cursor);
    }

    /** _series_author_pass, once the walk has reached its end: deferred exactly while
        some listed pair has no marker; otherwise it takes the listed rows in order up
        to the first stop, backs up each that is still there and deletes it. */
    method SeriesAuthorPass(stops: set<nat>) returns (removed: Option<nat>)
      requires Valid() && s.proc.Walking? && s.proc.cursor == s.proc.end
      modifies this
      ensures Valid() && s.proc.Down? && s.books == old(s.books)
      ensures removed.None? <==> exists i :: 0 <= i < |cfg.list.pairs| && i !in Committed(old(s.file.lines))
      ensures removed.None? ==> s.file == old(s.file) && s.rows == old(s.rows)
      ensures removed.Some? ==>
                exists n :: 0 <= n <= |cfg.list.rows| && (n < |cfg.list.rows| ==> n in stops) &&
                  TookRows(old(s.file.lines), old(s.rows), s.file.lines, s.rows, cfg.list.rows[..n], removed.value)
    {
      hide Committed, SeriesRows, Run, TookRows, Taken;
      ghost var lines, was := s.file.lines, s.rows;
      Do(EndWalk);
      removed := None;
      if s.proc.SeriesPass? {
        var n := 0;
        removed := Some(0);
        TookNothing(lines, was);
        while s.proc.rows != [] && n !in stops
          invariant Valid() && 0 <= n <= |cfg.list.rows| && s.books == old(s.books)
          invariant s.proc == SeriesPass(cfg.list.rows[n..]) && removed.Some?
          invariant TookRows(lines, was, s.file.lines, s.rows, cfg.list.rows[..n], removed.value)
          decreases |cfg.list.rows| - n
        {
          ghost var now := s;
          var row := s.proc.rows[0];
          var there := row in s.rows;
          Do(SeriesNext);
          if there {
            Do(SeriesDelete);
            removed := Some(removed.value + 1);
          }
          TookAnother(lines, was, now, s, cfg, n, removed.value - (if there then 1 else 0));
          n := n + 1;
        }
        Do(Exit);
      }
    }

    method ProcessBatch(outcomes: seq<Outcome>, stops: set<nat>, batchEnd: nat,
                        ghost books: map<Pair, Book>, ghost commits: seq<nat>, ghost start: nat)
      returns (cursor: nat)
      requires Valid() && s.proc.Walking? && s.proc.cursor < batchEnd <= s.proc.end <= |cfg.list.pairs|
      requires OutcomesOk(cfg, outcomes) && s.proc.cursor !in stops && start <= s.proc.cursor
      requires s.books == Applied(cfg.list.pairs, books, outcomes, start, s.proc.cursor)
      requires s.commits == commits + Replaced(outcomes, start, s.proc.cursor)
      requires AllMarkedBut(outcomes, s.file.lines, start, s.proc.cursor) && NoFailure(outcomes, start, s.proc.cursor)
      modifies this
      ensures Valid() && old(s.proc.cursor) <= cursor <= batchEnd
      ensures (s.proc == Walking(cursor, old(s.proc.end)) && cursor > old(s.proc.cursor) && NoFailure(outcomes, start, cursor)) ||
              (s.proc.Down? && EndedBy(outcomes, {}, start, cursor, batchEnd))
      ensures s.books == Applied(cfg.list.pairs, books, outcomes, start, cursor)
      ensures s.commits == commits + Replaced(outcomes, start, cursor)
      ensures AllMarkedBut(outcomes, s.file.lines, start, cursor)
    {
      hide Run, Applied, AppliedOne, Replaced, Committed, AllMarkedBut, NoFailure, EndedBy;
      var first, end := s.proc.cursor, s.proc.end;
      cursor := first;
      while cursor < batchEnd && s.proc.Walking? && (cursor == first || cursor !in stops)
        invariant Valid() && first <= cursor <= batchEnd
        invariant (s.proc == Walking(cursor, end) && NoFailure(outcomes, start, cursor)) ||
                  (s.proc.Down? && EndedBy(outcomes, {}, start, cursor, batchEnd))
        invariant s.books == Applied(cfg.list.pairs, books, outcomes, start, cursor)
        invariant s.commits == commits + Replaced(outcomes, start, cursor)
        invariant AllMarkedBut(outcomes, s.file.lines, start, cursor)
        decreases batchEnd - cursor, s.proc.Walking?
      {
        ghost var was := s;
        var more := RepairOne(outcomes[cursor]);
        OneOutcome(cfg.list.pairs, books, commits, outcomes, start, cursor, batchEnd, was, s);
        if more || outcomes[cursor].MarkerFails? {
          cursor := cursor + 1;
        }
      }
    }
  }

  /** Every replacement in start..cursor is marked, but one whose marker failed. */
  ghost predicate AllMarkedBut(outcomes: seq<Outcome>, lines: seq<Record>, start: nat, cursor: nat)
    requires start <= cursor <= |outcomes|
  {
    forall i | start <= i < cursor && Marks(outcomes[i]) :: i in Committed(lines)
  }

  ghost predicate NoFailure(outcomes: seq<Outcome>, start: nat, cursor: nat)
    requires start <= cursor <= |outcomes|
  {
    forall i | start <= i < cursor :: !outcomes[i].Fails? && !outcomes[i].MarkerFails?
  }

  /** What ends a run at this cursor: an outage or a failure there, the book held, or
      the marker of the book just passed. */
  ghost predicate EndedBy(outcomes: seq<Outcome>, outages: set<nat>, start: nat, cursor: nat, end: nat)
    requires start <= cursor <= end <= |outcomes|
  {
    || (cursor < end && (cursor in outages || outcomes[cursor].Fails?) && NoFailure(outcomes, start, cursor))
    || (start < cursor && outcomes[cursor - 1].MarkerFails? && NoFailure(outcomes, start, cursor - 1))
  }

  /** The stored books once the outcomes of pairs[start..cursor] took effect. */
  function Applied(pairs: seq<Pair>, books: map<Pair, Book>, outcomes: seq<Outcome>, start: nat, cursor: nat): map<Pair, Book>
    requires start <= cursor <= |outcomes| == |pairs|
    decreases cursor
  {
    if cursor == start then books
    else
      var before := Applied(pairs, books, outcomes, start, cursor - 1);
      AppliedOne(pairs[cursor - 1], before, outcomes[cursor - 1])
  }

  function AppliedOne(p: Pair, books: map<Pair, Book>, outcome: Outcome): map<Pair, Book> {
    if Commits(outcome) && p in books then
      books[p := Rewrite(books[p], outcome.answer, p.region, outcome.now)]
    else books
  }

  /** Each pair passed and replaced holds its answer and what it keeps; every other
      pair what it held. */
  ghost predicate AsOutcomesSay(pairs: seq<Pair>, books: map<Pair, Book>, now: map<Pair, Book>, outcomes: seq<Outcome>, start: nat, cursor: nat)
    requires start <= cursor <= |outcomes| == |pairs|
  {
    && now.Keys == books.Keys
    && (forall i | start <= i < cursor && pairs[i] in books && Commits(outcomes[i]) ::
          TakesAnswer(books[pairs[i]], now[pairs[i]], outcomes[i].answer, pairs[i].region, outcomes[i].now))
    && (forall p | p in books && (forall i | start <= i < cursor && Commits(outcomes[i]) :: pairs[i] != p) :: now[p] == books[p])
  }

  lemma PairsDiffer(cfg: Config, events: seq<Event>)
    requires Run(cfg, events).Some?
    ensures NoRepeats(cfg.list.pairs)
  {
    HistoryKeeps(cfg, events);
  }

  lemma {:induction false} AppliedElsewhere(pairs: seq<Pair>, books: map<Pair, Book>, outcomes: seq<Outcome>, start: nat, cursor: nat, p: Pair)
    requires start <= cursor <= |outcomes| == |pairs| && p in books
    requires forall i | start <= i < cursor && Commits(outcomes[i]) :: pairs[i] != p
    ensures Applied(pairs, books, outcomes, start, cursor).Keys == books.Keys
    ensures Applied(pairs, books, outcomes, start, cursor)[p] == books[p]
    decreases cursor
  {
    if cursor > start {
      hide Rewrite;
      AppliedElsewhere(pairs, books, outcomes, start, cursor - 1, p);
    }
  }

  lemma {:induction false} AppliedHere(pairs: seq<Pair>, books: map<Pair, Book>, outcomes: seq<Outcome>, start: nat, cursor: nat, i: nat)
    requires NoRepeats(pairs) && start <= i < cursor <= |outcomes| == |pairs| && pairs[i] in books && Commits(outcomes[i])
    ensures Applied(pairs, books, outcomes, start, cursor).Keys == books.Keys
    ensures Applied(pairs, books, outcomes, start, cursor)[pairs[i]] ==
            Rewrite(books[pairs[i]], outcomes[i].answer, pairs[i].region, outcomes[i].now)
    decreases cursor
  {
    hide Rewrite;
    if i == cursor - 1 {
      AppliedElsewhere(pairs, books, outcomes, start, i, pairs[i]);
    } else {
      AppliedHere(pairs, books, outcomes, start, cursor - 1, i);
      assert pairs[cursor - 1] != pairs[i];
    }
  }

  lemma {:induction false} AppliedKeys(pairs: seq<Pair>, books: map<Pair, Book>, outcomes: seq<Outcome>, start: nat, cursor: nat)
    requires start <= cursor <= |outcomes| == |pairs|
    ensures Applied(pairs, books, outcomes, start, cursor).Keys == books.Keys
    decreases cursor
  {
    hide Rewrite;
    if cursor > start {
      AppliedKeys(pairs, books, outcomes, start, cursor - 1);
    }
  }

  lemma AppliedMeans(pairs: seq<Pair>, books: map<Pair, Book>, outcomes: seq<Outcome>, start: nat, cursor: nat)
    requires NoRepeats(pairs) && start <= cursor <= |outcomes| == |pairs|
    ensures AsOutcomesSay(pairs, books, Applied(pairs, books, outcomes, start, cursor), outcomes, start, cursor)
  {
    hide Rewrite, Applied, NoRepeats, TakesAnswer;
    var now := Applied(pairs, books, outcomes, start, cursor);
    AppliedKeys(pairs, books, outcomes, start, cursor);
    forall i | start <= i < cursor && pairs[i] in books && Commits(outcomes[i])
      ensures TakesAnswer(books[pairs[i]], now[pairs[i]], outcomes[i].answer, pairs[i].region, outcomes[i].now)
    {
      AppliedHere(pairs, books, outcomes, start, cursor, i);
      RewriteMeans(books[pairs[i]], outcomes[i].answer, pairs[i].region, outcomes[i].now);
    }
    forall p | p in books && (forall i | start <= i < cursor && Commits(outcomes[i]) :: pairs[i] != p) ensures now[p] == books[p] {
      AppliedElsewhere(pairs, books, outcomes, start, cursor, p);
    }
  }

  /** The indexes in start..cursor that were replaced, in order. */
  function Replaced(outcomes: seq<Outcome>, start: nat, cursor: nat): seq<nat>
    requires start <= cursor <= |outcomes|
    decreases cursor
  {
    if cursor == start then []
    else Replaced(outcomes, start, cursor - 1) + (if Commits(outcomes[cursor - 1]) then [cursor - 1] else [])
  }

  /** One outcome more, from a walk that went as its outcomes say. */
  lemma OneOutcome(pairs: seq<Pair>, books: map<Pair, Book>, commits: seq<nat>, outcomes: seq<Outcome>,
                   start: nat, cursor: nat, end: nat, was: State, s: State)
    requires start <= cursor < end <= |outcomes| == |pairs|
    requires was.books == Applied(pairs, books, outcomes, start, cursor)
    requires was.commits == commits + Replaced(outcomes, start, cursor)
    requires AllMarkedBut(outcomes, was.file.lines, start, cursor) && NoFailure(outcomes, start, cursor)
    requires s.books == AppliedOne(pairs[cursor], was.books, outcomes[cursor])
    requires s.commits == was.commits + (if Commits(outcomes[cursor]) then [cursor] else [])
    requires Committed(s.file.lines) == Committed(was.file.lines) + (if Marks(outcomes[cursor]) then {cursor} else {})
    ensures var next := if outcomes[cursor].Fails? then cursor else cursor + 1;
            && s.books == Applied(pairs, books, outcomes, start, next)
            && s.commits == commits + Replaced(outcomes, start, next)
            && AllMarkedBut(outcomes, s.file.lines, start, next)
            && (if outcomes[cursor].Fails? || outcomes[cursor].MarkerFails? then EndedBy(outcomes, {}, start, next, end)
                else NoFailure(outcomes, start, next))
  {
    hide Committed, Rewrite;
  }

  /** An answer carries no foreign link: it was read for the book's own region. */
  ghost predicate OutcomesOk(cfg: Config, outcomes: seq<Outcome>) {
    && |outcomes| == |cfg.list.pairs|
    && forall i | 0 <= i < |outcomes| && Commits(outcomes[i]) ::
         !PollutedAnswer(outcomes[i].answer, cfg.list.pairs[i].region)
  }

  /** The listed rows that were there. */
  function Taken(rows: set<SeriesAuthor>, listed: seq<SeriesAuthor>): set<SeriesAuthor> {
    set r | r in listed && r in rows
  }

  /** The listed rows that were there are gone, each one counted and backed up, and
      every other row stays. */
  ghost predicate TookRows(lines: seq<Record>, rows: set<SeriesAuthor>, nowLines: seq<Record>, nowRows: set<SeriesAuthor>,
                           listed: seq<SeriesAuthor>, removed: nat)
  {
    && nowRows == rows - Taken(rows, listed) && removed == |Taken(rows, listed)|
    && SeriesRows(nowLines) == SeriesRows(lines) + Taken(rows, listed) && Committed(nowLines) == Committed(lines)
  }

  lemma TookNothing(lines: seq<Record>, rows: set<SeriesAuthor>)
    ensures TookRows(lines, rows, lines, rows, [], 0)
  {
  }

  lemma TakenMore(rows: set<SeriesAuthor>, listed: seq<SeriesAuthor>, row: SeriesAuthor)
    ensures Taken(rows, listed + [row]) == Taken(rows, listed) + (if row in rows then {row} else {})
    ensures row in rows - Taken(rows, listed) ==> |Taken(rows, listed + [row])| == |Taken(rows, listed)| + 1
  {
    var now, was := Taken(rows, listed + [row]), Taken(rows, listed);
    forall r ensures r in now <==> r in was || (r == row && row in rows) {
      assert r in listed + [row] <==> r in listed || r == row;
    }
    assert now == was + (if row in rows then {row} else {});
  }

  lemma TookAnother(lines: seq<Record>, rows: set<SeriesAuthor>, was: State, now: State, cfg: Config, n: nat, removed: nat)
    requires n < |cfg.list.rows| && TookRows(lines, rows, was.file.lines, was.rows, cfg.list.rows[..n], removed)
    requires var row := cfg.list.rows[n];
             if row in was.rows then now.file.lines == was.file.lines + [SeriesRecord(cfg.list.sha, row)] && now.rows == was.rows - {row}
             else now.file == was.file && now.rows == was.rows
    ensures var more := if cfg.list.rows[n] in was.rows then 1 else 0;
            TookRows(lines, rows, now.file.lines, now.rows, cfg.list.rows[..n + 1], removed + more)
  {
    hide Committed, SeriesRows, Taken;
    var row, listed := cfg.list.rows[n], cfg.list.rows[..n];
    assert cfg.list.rows[..n + 1] == listed + [row];
    TakenMore(rows, listed, row);
    if row in was.rows {
      CommittedAppend(was.file.lines, SeriesRecord(cfg.list.sha, row));
    }
  }

  ghost predicate Restorable(cfg: Config, lines: seq<Record>, books: map<Pair, Book>, marked: set<nat>) {
    forall i | i in marked ::
      i < |cfg.list.pairs| && cfg.list.pairs[i] in books && FirstBook(lines, i).Some?
  }

  /** The marked indexes in the order of their first records. */
  function RestoreOrder(lines: seq<Record>, marked: set<nat>): seq<nat> {
    if lines == [] then []
    else
      var before, r := RestoreOrder(lines[..|lines| - 1], marked), lines[|lines| - 1];
      if r.BookRecord? && r.index in marked && r.index !in before then before + [r.index] else before
  }

  /** The first so many of them. */
  function FirstOf(order: seq<nat>, n: nat): set<nat>
    requires n <= |order|
  {
    set i | i in order[..n]
  }

  function UpTo(limit: Option<nat>, n: nat): nat {
    if limit.Some? && limit.value < n then limit.value else n
  }

  ghost predicate Ordered(order: seq<nat>, marked: set<nat>) {
    NoRepeats(order) && |order| == |marked| && FirstOf(order, |order|) == marked
  }

  lemma NoneInOrder(order: seq<nat>)
    ensures FirstOf(order, 0) == {}
  {
  }

  lemma NextInOrder(order: seq<nat>, marked: set<nat>, n: nat)
    requires Ordered(order, marked) && n < |order|
    ensures order[n] in marked && order[n] !in FirstOf(order, n)
    ensures FirstOf(order, n + 1) == FirstOf(order, n) + {order[n]}
  {
    assert order[..n + 1] == order[..n] + [order[n]];
    assert order[n] in order[..|order|];
  }

  lemma {:induction false} CountOnce(s: seq<nat>)
    requires NoRepeats(s)
    ensures |FirstOf(s, |s|)| == |s|
  {
    if s != [] {
      var less, last := s[..|s| - 1], s[|s| - 1];
      assert s == less + [last] && s[..|s|] == s && less[..|less|] == less;
      CountOnce(less);
      assert FirstOf(s, |s|) == FirstOf(less, |less|) + {last};
    }
  }

  lemma {:induction false} RestoreOrderIs(lines: seq<Record>, marked: set<nat>)
    ensures NoRepeats(RestoreOrder(lines, marked))
    ensures forall i :: i in RestoreOrder(lines, marked) <==> i in marked && FirstBook(lines, i).Some?
  {
    if lines != [] {
      var less, r := lines[..|lines| - 1], lines[|lines| - 1];
      RestoreOrderIs(less, marked);
      assert lines == less + [r];
      forall i: nat ensures i in RestoreOrder(lines, marked) <==> i in marked && FirstBook(lines, i).Some? {
        FirstBookAppend(less, r, i);
      }
    }
  }

  /** Records written later leave the order there was as its beginning: so a pair
      stands before another exactly when its first record does. */
  lemma {:induction false} RestoreOrderGrows(lines: seq<Record>, marked: set<nat>, n: nat)
    requires n <= |lines|
    ensures RestoreOrder(lines[..n], marked) <= RestoreOrder(lines, marked)
    decreases |lines|
  {
    if n == |lines| {
      assert lines[..n] == lines;
    } else {
      var less := lines[..|lines| - 1];
      RestoreOrderGrows(less, marked, n);
      assert less[..n] == lines[..n];
    }
  }

  lemma FirstBackedUpFirst(lines: seq<Record>, marked: set<nat>, n: nat, i: nat, j: nat)
    requires n <= |lines| && i in marked && j in marked && FirstBook(lines, j).Some?
    requires FirstBook(lines[..n], i).Some? && FirstBook(lines[..n], j).None?
    ensures exists a, b :: 0 <= a < b < |RestoreOrder(lines, marked)| &&
              RestoreOrder(lines, marked)[a] == i && RestoreOrder(lines, marked)[b] == j
  {
    hide RestoreOrder;
    RestoreOrderGrows(lines, marked, n);
    RestoreOrderIs(lines, marked);
    RestoreOrderIs(lines[..n], marked);
    var early, order := RestoreOrder(lines[..n], marked), RestoreOrder(lines, marked);
    var a :| 0 <= a < |early| && early[a] == i;
    var b :| 0 <= b < |order| && order[b] == j;
    forall n | 0 <= n < |early| ensures order[n] == early[n] && early[n] != j {
      assert early[n] in early;
    }
    assert order[a] == i && a < b;
  }

  /** Every marked pair has its place. */
  lemma AllAreOrdered(cfg: Config, lines: seq<Record>, books: map<Pair, Book>, marked: set<nat>)
    requires Restorable(cfg, lines, books, marked)
    ensures Ordered(RestoreOrder(lines, marked), marked)
  {
    var order := RestoreOrder(lines, marked);
    RestoreOrderIs(lines, marked);
    CountOnce(order);
    assert order[..|order|] == order;
    assert FirstOf(order, |order|) == marked;
  }

  lemma {:induction false} RestoreOrderPastMarkers(lines: seq<Record>, more: seq<Record>, marked: set<nat>)
    requires lines <= more && forall r | r in more[|lines|..] :: r.CommitRecord?
    ensures RestoreOrder(more, marked) == RestoreOrder(lines, marked)
    decreases |more|
  {
    if |more| == |lines| {
      assert more == lines;
    } else {
      var less, last := more[..|more| - 1], more[|more| - 1];
      assert last == more[|lines|..][|more| - 1 - |lines|];
      assert more[|lines|..] == less[|lines|..] + [last];
      assert last in more[|lines|..] && last.CommitRecord?;
      RestoreOrderPastMarkers(lines, less, marked);
    }
  }

  /** Every marked index has a first record to restore. */
  lemma MarkedHaveRecords(cfg: Config, events: seq<Event>)
    requires Run(cfg, events).Some?
    ensures var s := Run(cfg, events).value;
            Restorable(cfg, s.file.lines, s.books, Committed(s.file.lines))
  {
    HistoryKeeps(cfg, events);
    var s := Run(cfg, events).value;
    MarkersCommitted(cfg, s);
    forall i | i in Committed(s.file.lines)
      ensures i < |cfg.list.pairs| && cfg.list.pairs[i] in s.books && FirstBook(s.file.lines, i).Some?
    {
      assert BookOk(cfg, s, i);
    }
  }

  lemma {:induction false} FirstBookPastMarkers(lines: seq<Record>, more: seq<Record>, i: nat)
    requires lines <= more && forall r | r in more[|lines|..] :: r.CommitRecord?
    ensures FirstBook(more, i) == FirstBook(lines, i)
    decreases |more|
  {
    if |more| == |lines| {
      assert more == lines;
    } else {
      var less := more[..|more| - 1];
      assert more == less + [more[|more| - 1]];
      assert more[|more| - 1] == more[|lines|..][|more| - 1 - |lines|];
      assert more[|more| - 1] in more[|lines|..];
      assert more[|lines|..] == less[|lines|..] + [more[|more| - 1]];
      FirstBookPastMarkers(lines, less, i);
      FirstBookAppend(less, more[|more| - 1], i);
    }
  }

  lemma {:induction false} SeriesRowsPastMarkers(lines: seq<Record>, more: seq<Record>)
    requires lines <= more && forall r | r in more[|lines|..] :: r.CommitRecord?
    ensures SeriesRows(more) == SeriesRows(lines)
  {
    forall row | row in SeriesRows(more)
      ensures row in SeriesRows(lines)
    {
      var r :| r in more && r.SeriesRecord? && r.row == row;
      assert more == lines + more[|lines|..];
    }
    forall row | row in SeriesRows(lines)
      ensures row in SeriesRows(more)
    {
      var r :| r in lines && r.SeriesRecord? && r.row == row;
      assert r in more;
    }
  }

  lemma OverlayStep(cfg: Config, events: seq<Event>, lines: seq<Record>, books: map<Pair, Book>, done: set<nat>, i: nat)
    requires Run(cfg, events).Some?
    requires i < |cfg.list.pairs| && cfg.list.pairs[i] in books && FirstBook(lines, i).Some?
    ensures Overlay(cfg, lines, books, done + {i}) ==
            Overlay(cfg, lines, books, done)[cfg.list.pairs[i] := FirstBook(lines, i).value]
  {
    HistoryKeeps(cfg, events);
    OverlayOne(cfg, lines, books, done, i);
  }

  lemma OverlayPastMarkers(cfg: Config, lines: seq<Record>, more: seq<Record>, books: map<Pair, Book>, done: set<nat>)
    requires lines <= more && forall r | r in more[|lines|..] :: r.CommitRecord?
    requires NoRepeats(cfg.list.pairs)
    ensures Overlay(cfg, more, books, done) == Overlay(cfg, lines, books, done)
  {
    var a, b := Overlay(cfg, more, books, done), Overlay(cfg, lines, books, done);
    assert a.Keys == books.Keys == b.Keys;
    forall p | p in books
      ensures a[p] == b[p]
    {
      if p in cfg.list.pairs {
        var j: nat :| j < |cfg.list.pairs| && cfg.list.pairs[j] == p;
        FirstBookPastMarkers(lines, more, j);
        OverlayAt(cfg, lines, books, done, j);
        OverlayAt(cfg, more, books, done, j);
      } else {
        OverlayElsewhere(cfg, lines, books, done, p);
        OverlayElsewhere(cfg, more, books, done, p);
      }
    }
  }

  /** What a restore of so many pairs has left stored. */
  lemma RestoreOutcome(cfg: Config, events: seq<Event>, f: File, lines: seq<Record>, books: map<Pair, Book>, restored: nat)
    requires Run(cfg, events).Some?
    requires f.lines <= lines && forall r | r in lines[|f.lines|..] :: r.CommitRecord?
    requires Ordered(RestoreOrder(lines, MarkedAfterStart(cfg, f, books)), MarkedAfterStart(cfg, f, books))
    requires restored <= |RestoreOrder(lines, MarkedAfterStart(cfg, f, books))|
    ensures var order := RestoreOrder(f.lines, MarkedAfterStart(cfg, f, books));
            && RestoreOrder(lines, MarkedAfterStart(cfg, f, books)) == order
            && Overlay(cfg, lines, books, FirstOf(order, restored)) == Overlay(cfg, f.lines, books, FirstOf(order, restored))
            && |order| == |MarkedAfterStart(cfg, f, books)|
            && (restored == |order| ==> MarkedAfterStart(cfg, f, books) - FirstOf(order, restored) == {})
            && (restored == |order| ==> Overlay(cfg, lines, books, FirstOf(order, restored)) == RestoredBooks(cfg, f, books))
  {
    hide Overlay, RestoreOrder, MarkedAfterStart;
    HistoryKeeps(cfg, events);
    var marked := MarkedAfterStart(cfg, f, books);
    RestoreOrderPastMarkers(f.lines, lines, marked);
    OverlayPastMarkers(cfg, f.lines, lines, books, FirstOf(RestoreOrder(lines, marked), restored));
  }

  /** The start checks of check_resume and check_pair_unrepaired. */
  predicate Admits(known: set<nat>, job: Job)
    requires !job.Restore?
  {
    if job.RunFrom? then forall i | i in known :: i < job.start else job.index !in known
  }

  lemma HeldRecordsOneList(cfg: Config, events: seq<Event>)
    requires Run(cfg, events).Some?
    ensures var s := Run(cfg, events).value;
            && OneList(s.file.lines, cfg.list.sha)
            && (s.proc.Reconciling? ==> OneList(s.proc.records, cfg.list.sha))
  {
    HistoryKeeps(cfg, events);
    var s := Run(cfg, events).value;
    forall r | r in s.file.lines ensures r.sha == cfg.list.sha {
      assert RecordOk(cfg, s, r);
    }
    if s.proc.Reconciling? {
      forall r | r in s.proc.records ensures r.sha == cfg.list.sha {
        assert RecordOk(cfg, s, r);
      }
    }
  }

  lemma StoredWhileWalking(cfg: Config, events: seq<Event>)
    requires Run(cfg, events).Some?
    ensures var s := Run(cfg, events).value;
            s.proc.Walking? && s.proc.cursor < |cfg.list.pairs| ==> cfg.list.pairs[s.proc.cursor] in s.books
  {
    HistoryKeeps(cfg, events);
    var s := Run(cfg, events).value;
    if s.proc.Walking? && s.proc.cursor < |cfg.list.pairs| {
      assert BookOk(cfg, s, s.proc.cursor);
    }
  }
}
