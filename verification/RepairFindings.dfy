/**
 Where the repair falls short of its documentation: the start that can repeat a
 finished book, exactly when it can, a history that reaches one, and what a run
 given the wrong list does to the backup before refusing it.
 */
module RepairFindings {
  import opened Common
  import opened RepairModel
  import opened RepairProtocol
  import opened RepairTheorems
  import opened RepairRun

  predicate Covers(job: Job, i: nat) {
    match job
    case RunFrom(start, end) => start <= i < end
    case RunPair(index) => i == index
    case Restore => false
  }

  /** A start can be admitted over an already replaced book if and only if it is
      blind: the file ends in a whole marker without its newline, and some other
      replacement is still unmarked. */
  lemma RepeatIffBlind(cfg: Config, events: seq<Event>)
    requires Run(cfg, events).Some?
    ensures var s := Run(cfg, events).value;
            Blind(cfg, s.file, s.books) <==>
            exists job: Job, i: nat ::
              !job.Restore? && Admits(CheckedAgainst(cfg, s.file, s.books), job) && Covers(job, i) && i in s.commits
  {
    HistoryKeeps(cfg, events);
    CheckedIffNotBlind(cfg, events);
    var s := Run(cfg, events).value;
    var known := CheckedAgainst(cfg, s.file, s.books);
    if Blind(cfg, s.file, s.books) {
      var i := s.file.tail.record.index;
      assert RecordOk(cfg, s, s.file.tail.record);
      FoundExactly(cfg, s, i);
      TailMarker(s.file);
      assert Admits(known, RunPair(i)) && Covers(RunPair(i), i) && i in s.commits;
    } else {
      forall job: Job, i: nat | !job.Restore? && Admits(known, job) && Covers(job, i)
        ensures i !in s.commits
      {
        assert i in s.commits ==> i in known;
      }
    }
  }

  // ---------------------------------------------------------------- a history that repeats a book

  ghost predicate Reaches(cfg: Config, s: State) {
    exists events :: Run(cfg, events) == Some(s)
  }

  lemma ReachStep(cfg: Config, s: State, e: Event)
    requires Reaches(cfg, s) && Enabled(cfg, s, e)
    ensures Reaches(cfg, Next(cfg, s, e))
  {
    var events :| Run(cfg, events) == Some(s);
    assert (events + [e])[..|events + [e]| - 1] == events;
    assert Run(cfg, events + [e]) == Some(Next(cfg, s, e));
  }

  /** A start that finds nothing to mark and is admitted. */
  lemma ReachWalk(cfg: Config, s: State, start: nat, end: nat)
    requires Reaches(cfg, s) && s.proc.Down? && start <= end <= |cfg.list.pairs|
    requires Unmarked(ReadBackup(s.file)) == {} && OneList(ReadBackup(s.file), cfg.list.sha)
    requires forall i | i in Committed(ReadBackup(s.file)) :: i < start
    ensures Reaches(cfg, s.(file := OpenBackup(s.file), proc := Walking(start, end), blind := s.blind || Blind(cfg, s.file, s.books)))
  {
    ReachStep(cfg, s, Start(RunFrom(start, end)));
    ReachStep(cfg, Next(cfg, s, Start(RunFrom(start, end))), Check);
  }

  /** One book replaced, and a crash that leaves `cut` where its marker goes. */
  lemma ReachReplaced(cfg: Config, s: State, i: nat, end: nat, a: Answer, cut: Tail)
    requires Reaches(cfg, s) && s.proc == Walking(i, end) && i < end && i < |cfg.list.pairs| && cfg.list.pairs[i] in s.books
    requires !PollutedAnswer(a, cfg.list.pairs[i].region)
    requires cut.NoTail? || cut == Whole(Marker(cfg, i))
    ensures Reaches(cfg, s.(
      file := File(s.file.lines + [BackupOf(cfg, s.books, i)], cut),
      books := s.books[cfg.list.pairs[i] := Rewrite(s.books[cfg.list.pairs[i]], a, cfg.list.pairs[i].region, 0)],
      commits := s.commits + [i], restored := s.restored - {i}, proc := Down))
  {
    ReachStep(cfg, s, AppendBook);
    var t := Next(cfg, s, AppendBook);
    ReachStep(cfg, t, Replace(a, 0));
    var u := Next(cfg, t, Replace(a, 0));
    ReachStep(cfg, u, Crash(cut));
  }

  const FIRST := Pair("0000000001", "us")
  const SECOND := Pair("0000000002", "us")
  const DIRTY := Book(map[], {AuthorLink(1, "uk")}, {}, {}, {}, None, true, 0, None)
  const ANSWER := Answer(map[], {}, {}, {}, {}, None)
  const FIXED := Book(map[], {}, {}, {}, {}, None, true, 0, Some(0))
  const TWO_BOOKS := Config(RepairList("sha", [FIRST, SECOND], []), map[FIRST := DIRTY, SECOND := DIRTY], {})
  const BACKUP_0 := BookRecord("sha", 0, FIRST, DIRTY)
  const BACKUP_1 := BookRecord("sha", 1, SECOND, DIRTY)
  const MARKER_0 := CommitRecord("sha", 0, FIRST)
  const MARKER_1 := CommitRecord("sha", 1, SECOND)

  lemma DirtyAndFixed()
    ensures ConfigOk(TWO_BOOKS)
    ensures Polluted(DIRTY, "us") && !Polluted(FIXED, "us") && !PollutedAnswer(ANSWER, "us")
    ensures Rewrite(DIRTY, ANSWER, "us", 0) == FIXED && Rewrite(FIXED, ANSWER, "us", 0) == FIXED
  {
    assert AuthorLink(1, "uk") in ForeignAuthors(DIRTY.authors, "us");
    assert DIRTY.authors - ForeignAuthors(DIRTY.authors, "us") == {};
    assert FIRST.asin[9] != SECOND.asin[9];
  }

  /** Book 0 replaced; a crash leaves it without a marker. */
  lemma FirstCrash()
    ensures Reaches(TWO_BOOKS, State(File([BACKUP_0], NoTail), map[FIRST := FIXED, SECOND := DIRTY], {}, Down, [0], {}, {}, false))
  {
    DirtyAndFixed();
    var s := Init(TWO_BOOKS);
    assert Run(TWO_BOOKS, []) == Some(s);
    assert Unmarked([]) == {};
    ReachWalk(TWO_BOOKS, s, 0, 2);
    var t := s.(proc := Walking(0, 2));
    ReachReplaced(TWO_BOOKS, t, 0, 2, ANSWER, NoTail);
    assert t.books[FIRST := FIXED] == map[FIRST := FIXED, SECOND := DIRTY];
    assert t.file.lines + [BACKUP_0] == [BACKUP_0];
    assert t.commits + [0] == [0] && t.restored - {0} == {};
  }

  /** The next start marks it, but crashes with the marker's newline unwritten. */
  lemma SecondCrash()
    ensures Reaches(TWO_BOOKS, State(File([BACKUP_0], Whole(MARKER_0)), map[FIRST := FIXED, SECOND := DIRTY], {}, Down, [0], {}, {}, false))
  {
    DirtyAndFixed();
    FirstCrash();
    var s := State(File([BACKUP_0], NoTail), map[FIRST := FIXED, SECOND := DIRTY], {}, Down, [0], {}, {}, false);
    assert BACKUP_0 in s.file.lines;
    var t := Next(TWO_BOOKS, s, Start(RunFrom(1, 2)));
    assert 0 in t.proc.todo && LooksReplaced(TWO_BOOKS, t.books, 0);
    ReachStep(TWO_BOOKS, s, Start(RunFrom(1, 2)));
    ReachStep(TWO_BOOKS, t, Crash(Whole(MARKER_0)));
  }

  lemma TornMarkerIsRead()
    ensures var f := File([BACKUP_0], Whole(MARKER_0));
            && Unmarked(ReadBackup(f)) == {} && Committed(ReadBackup(f)) == {0}
            && OneList(ReadBackup(f), "sha") && forall books :: !Blind(TWO_BOOKS, f, books)
  {
    var records := ReadBackup(File([BACKUP_0], Whole(MARKER_0)));
    assert records == [BACKUP_0, MARKER_0];
    assert MARKER_0 in records;
  }

  /** That marker is believed, cut off, and book 1 replaced; its marker lacks
      its newline too. */
  lemma ThirdCrash()
    ensures Reaches(TWO_BOOKS, State(File([BACKUP_0, BACKUP_1], Whole(MARKER_1)), map[FIRST := FIXED, SECOND := FIXED], {}, Down, [0, 1], {}, {}, false))
  {
    DirtyAndFixed();
    SecondCrash();
    var s := State(File([BACKUP_0], Whole(MARKER_0)), map[FIRST := FIXED, SECOND := DIRTY], {}, Down, [0], {}, {}, false);
    TornMarkerIsRead();
    ReachWalk(TWO_BOOKS, s, 1, 2);
    var t := s.(file := File([BACKUP_0], NoTail), proc := Walking(1, 2));
    ReachReplaced(TWO_BOOKS, t, 1, 2, ANSWER, Whole(MARKER_1));
    assert t.books[SECOND := FIXED] == map[FIRST := FIXED, SECOND := FIXED];
    assert t.file.lines + [BACKUP_1] == [BACKUP_0, BACKUP_1];
    assert t.commits + [1] == [0, 1] && t.restored - {1} == {};
  }

  /** The state the third crash leaves, and its reconciliation on a resume at book
      1, book 1's marker having been cut off with the torn line. */
  lemma FourthRunReconciles()
    ensures Reaches(TWO_BOOKS, State(File([BACKUP_0, BACKUP_1], NoTail), map[FIRST := FIXED, SECOND := FIXED], {},
                                     Reconciling([BACKUP_0, BACKUP_1, MARKER_1], {0}, false, RunFrom(1, 2)), [0, 1], {}, {}, true))
  {
    DirtyAndFixed();
    ThirdCrash();
    var s := State(File([BACKUP_0, BACKUP_1], Whole(MARKER_1)), map[FIRST := FIXED, SECOND := FIXED], {}, Down, [0, 1], {}, {}, false);
    assert ReadBackup(s.file) == [BACKUP_0, BACKUP_1, MARKER_1];
    assert BACKUP_0 in ReadBackup(s.file) && MARKER_1 in ReadBackup(s.file);
    assert Unmarked(ReadBackup(s.file)) == {0};
    assert LooksReplaced(TWO_BOOKS, s.books, 0);
    assert 0 in Found(TWO_BOOKS, ReadBackup(s.file), s.books);
    ReachStep(TWO_BOOKS, s, Start(RunFrom(1, 2)));
    var t := Next(TWO_BOOKS, s, Start(RunFrom(1, 2)));
    assert t.blind && t.file == File([BACKUP_0, BACKUP_1], NoTail);
    assert t.proc == Reconciling([BACKUP_0, BACKUP_1, MARKER_1], {0}, false, RunFrom(1, 2));
  }

  /** The resume is admitted. */
  lemma FourthRunStarts()
    ensures Reaches(TWO_BOOKS, State(File([BACKUP_0, BACKUP_1, MARKER_0], NoTail), map[FIRST := FIXED, SECOND := FIXED], {},
                                     Walking(1, 2), [0, 1], {}, {}, true))
  {
    DirtyAndFixed();
    FourthRunReconciles();
    hide Reaches;
    var t := State(File([BACKUP_0, BACKUP_1], NoTail), map[FIRST := FIXED, SECOND := FIXED], {},
                   Reconciling([BACKUP_0, BACKUP_1, MARKER_1], {0}, false, RunFrom(1, 2)), [0, 1], {}, {}, true);
    ReachStep(TWO_BOOKS, t, ReconcileNext(0));
    var u := Next(TWO_BOOKS, t, ReconcileNext(0));
    assert u.file.lines == [BACKUP_0, BACKUP_1, MARKER_0];
    ReachStep(TWO_BOOKS, u, Check);
  }

  /** So the newline-only torn line does not only cost a marker: the resume
      replaces book 1 a second time. */
  lemma TornMarkerRepeatsABook()
    ensures exists s :: Reaches(TWO_BOOKS, s) && s.commits == [0, 1, 1] && !NoRepeats(s.commits)
  {
    DirtyAndFixed();
    FourthRunStarts();
    hide Committed, Unmarked, ReadBackup, Reaches;
    var v := State(File([BACKUP_0, BACKUP_1, MARKER_0], NoTail), map[FIRST := FIXED, SECOND := FIXED], {},
                   Walking(1, 2), [0, 1], {}, {}, true);
    ReachReplaced(TWO_BOOKS, v, 1, 2, ANSWER, NoTail);
    var w := v.(
      file := File(v.file.lines + [BackupOf(TWO_BOOKS, v.books, 1)], NoTail),
      books := v.books[SECOND := FIXED],
      commits := v.commits + [1], restored := v.restored - {1}, proc := Down);
    assert Reaches(TWO_BOOKS, w) && w.commits == [0, 1, 1];
    assert w.commits[1] == w.commits[2];
  }

  // ---------------------------------------------------------------- the wrong list

  /** The pair of the last book record for an index. */
  function LatestPair(records: seq<Record>, i: nat): Option<Pair> {
    if records == [] then None
    else
      var last := records[|records| - 1];
      if last.BookRecord? && last.index == i then Some(last.pair) else LatestPair(records[..|records| - 1], i)
  }

  predicate StoredClean(books: map<Pair, Book>, p: Pair) {
    p in books && !Polluted(books[p], p.region)
  }

  /** An index reconcile_commits marks, whatever list the run was given: it looks at
      the records and the store alone. */
  predicate Marked(records: seq<Record>, books: map<Pair, Book>, i: nat) {
    i in Unmarked(records) && LatestPair(records, i).Some? && StoredClean(books, LatestPair(records, i).value)
  }

  /** The markers it appends for the indexes below n, in order, under the run's own list. */
  function MarkersBelow(records: seq<Record>, books: map<Pair, Book>, sha: string, n: nat): seq<Record> {
    if n == 0 then []
    else
      MarkersBelow(records, books, sha, n - 1)
      + (if Marked(records, books, n - 1) then [CommitRecord(sha, n - 1, LatestPair(records, n - 1).value)] else [])
  }

  function IndexBound(records: seq<Record>): nat {
    if records == [] then 0
    else
      var rest, last := IndexBound(records[..|records| - 1]), records[|records| - 1];
      if last.BookRecord? && last.index >= rest then last.index + 1 else rest
  }

  function MarkersOf(records: seq<Record>, books: map<Pair, Book>, sha: string): seq<Record> {
    MarkersBelow(records, books, sha, IndexBound(records))
  }

  /** The complete lines a start given this list leaves, before any list is compared. */
  function LinesAfterStart(f: File, books: map<Pair, Book>, sha: string): seq<Record> {
    f.lines + MarkersOf(ReadBackup(f), books, sha)
  }

  /** The records its check then looks at: read again only if something was marked. */
  function RecordsChecked(f: File, books: map<Pair, Book>, sha: string): seq<Record> {
    if MarkersOf(ReadBackup(f), books, sha) == [] then ReadBackup(f) else LinesAfterStart(f, books, sha)
  }

  lemma {:induction false} MarkersBelowAre(records: seq<Record>, books: map<Pair, Book>, sha: string, n: nat)
    ensures forall r | r in MarkersBelow(records, books, sha, n) :: r.sha == sha
    ensures MarkersBelow(records, books, sha, n) != [] <==> exists i: nat :: i < n && Marked(records, books, i)
  {
    if n > 0 {
      MarkersBelowAre(records, books, sha, n - 1);
    }
  }

  lemma {:induction false} LatestOf(records: seq<Record>, i: nat)
    ensures LatestPair(records, i).Some? ==> exists r :: r in records && r.BookRecord? && r.index == i && r.pair == LatestPair(records, i).value
    ensures (exists r :: r in records && r.BookRecord? && r.index == i) ==> LatestPair(records, i).Some? && i < IndexBound(records)
  {
    if records != [] {
      var n := |records| - 1;
      LatestOf(records[..n], i);
      assert records == records[..n] + [records[n]];
    }
  }

  /** On a reachable state the markers are for exactly the replacements the own list's
      start would find. */
  lemma MarkedIsFound(cfg: Config, s: State, i: nat)
    requires Inv(cfg, s)
    ensures Marked(ReadBackup(s.file), s.books, i) <==> i in Found(cfg, ReadBackup(s.file), s.books)
    ensures Marked(ReadBackup(s.file), s.books, i) ==> i < IndexBound(ReadBackup(s.file))
  {
    var records := ReadBackup(s.file);
    LatestOf(records, i);
    assert forall r | r in records :: RecordOk(cfg, s, r);
    if i in Unmarked(records) {
      var r :| r in records && r.BookRecord? && r.index == i;
    }
  }

  /** A run given another list than the backup's is refused, as documented; but the
      backup survives the refusal, and its own list is still accepted, if and only
      if no replacement was waiting for its marker.  Otherwise no list is ever
      accepted for it again. */
  lemma WrongListPoisonsTheBackup(cfg: Config, events: seq<Event>, other: string)
    requires Run(cfg, events).Some? && other != cfg.list.sha
    ensures var s := Run(cfg, events).value;
            var records, after := ReadBackup(s.file), LinesAfterStart(s.file, s.books, other);
            && (records != [] ==> !OneList(RecordsChecked(s.file, s.books, other), other))
            && (OneList(after, cfg.list.sha) <==> Found(cfg, records, s.books) == {})
            && (Found(cfg, records, s.books) == {} <==>
                forall i | i in s.commits :: i in s.restored || i in Committed(records))
            && (Found(cfg, records, s.books) == {} ==> after == s.file.lines)
            && (Found(cfg, records, s.books) != {} ==> forall sha :: !OneList(after, sha))
  {
    HistoryKeeps(cfg, events);
    var s := Run(cfg, events).value;
    FoundMeans(cfg, s);
    NoMarkersIff(cfg, s, other);
    RecordsOneList(cfg, s);
    var records, markers := ReadBackup(s.file), MarkersOf(ReadBackup(s.file), s.books, other);
    MarkersBelowAre(records, s.books, other, IndexBound(records));
    hide Inv, Run, Found, MarkersBelow, IndexBound, ReadBackup, Committed;
    if markers == [] {
      assert s.file.lines + [] == s.file.lines;
      if records != [] { assert records[0] in records; }
    } else {
      FoundHasLines(cfg, s);
      assert s.file.lines[0] in s.file.lines && markers[0] in markers;
      MixedLists(s.file.lines, markers, cfg.list.sha, other);
    }
  }

  lemma FoundMeans(cfg: Config, s: State)
    requires Inv(cfg, s)
    ensures Found(cfg, ReadBackup(s.file), s.books) == {} <==>
            forall i | i in s.commits :: i in s.restored || i in Committed(ReadBackup(s.file))
  {
    hide Inv;
    var found := Found(cfg, ReadBackup(s.file), s.books);
    forall i: nat ensures i in found <==> i in s.commits && i !in s.restored && i !in Committed(ReadBackup(s.file)) {
      FoundExactly(cfg, s, i);
    }
    hide Found, Committed, ReadBackup;
  }

  lemma NoMarkersIff(cfg: Config, s: State, other: string)
    requires Inv(cfg, s)
    ensures MarkersOf(ReadBackup(s.file), s.books, other) == [] <==> Found(cfg, ReadBackup(s.file), s.books) == {}
  {
    hide Inv, Found, Marked;
    var records := ReadBackup(s.file);
    MarkersBelowAre(records, s.books, other, IndexBound(records));
    forall i: nat
      ensures Marked(records, s.books, i) <==> i in Found(cfg, records, s.books)
      ensures Marked(records, s.books, i) ==> i < IndexBound(records)
    {
      MarkedIsFound(cfg, s, i);
    }
  }

  lemma RecordsOneList(cfg: Config, s: State)
    requires Inv(cfg, s)
    ensures OneList(ReadBackup(s.file), cfg.list.sha) && OneList(s.file.lines, cfg.list.sha)
  {
    assert forall r | r in ReadBackup(s.file) :: RecordOk(cfg, s, r);
  }

  lemma FoundHasLines(cfg: Config, s: State)
    requires Inv(cfg, s) && Found(cfg, ReadBackup(s.file), s.books) != {}
    ensures s.file.lines != []
  {
    var i :| i in Found(cfg, ReadBackup(s.file), s.books);
    FoundExactly(cfg, s, i);
    assert BookOk(cfg, s, i);
  }

  lemma MixedLists(lines: seq<Record>, markers: seq<Record>, own: string, other: string)
    requires lines != [] && lines[0].sha == own && markers != [] && markers[0].sha == other && own != other
    ensures forall sha :: !OneList(lines + markers, sha)
  {
    var all := lines + markers;
    assert all[0] == lines[0] && all[|lines|] == markers[0];
    assert all[0] in all && all[|lines|] in all;
  }

  /** One record of a book stored clean: a start marks it, whatever its list. */
  lemma OneMarker(books: map<Pair, Book>, other: string)
    requires FIRST in books && books[FIRST] == FIXED
    ensures MarkersOf([BACKUP_0], books, other) == [CommitRecord(other, 0, FIRST)]
  {
    DirtyAndFixed();
    var records := [BACKUP_0];
    assert records[|records| - 1] == BACKUP_0 && records[..|records| - 1] == [];
    assert BACKUP_0.BookRecord? && BACKUP_0.index == 0 && BACKUP_0.pair == FIRST;
    assert LatestPair(records, 0) == Some(FIRST) && IndexBound(records) == 1;
    assert BACKUP_0 in records && 0 in Unmarked(records);
    assert MarkersBelow(records, books, other, 0) == [];
  }

  /** It happens: after one crash between a replacement and its marker, a run given
      another list leaves a backup that no list is accepted for. */
  lemma OneCrashAndAWrongList(other: string)
    requires other != "sha"
    ensures exists s :: Reaches(TWO_BOOKS, s) && OneList(ReadBackup(s.file), "sha") &&
              LinesAfterStart(s.file, s.books, other) == [BACKUP_0, CommitRecord(other, 0, FIRST)] &&
              forall sha :: !OneList(LinesAfterStart(s.file, s.books, other), sha)
  {
    hide Run, IndexBound, LatestPair, Marked, MarkersBelow;
    FirstCrash();
    var s := State(File([BACKUP_0], NoTail), map[FIRST := FIXED, SECOND := DIRTY], {}, Down, [0], {}, {}, false);
    var events :| Run(TWO_BOOKS, events) == Some(s);
    OneMarker(s.books, other);
    assert LinesAfterStart(s.file, s.books, other) == [BACKUP_0, CommitRecord(other, 0, FIRST)];
    MixedLists([BACKUP_0], [CommitRecord(other, 0, FIRST)], "sha", other);
  }
}
