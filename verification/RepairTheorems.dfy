/**
 What the repair protocol promises over whole histories: no book replaced
 twice, markers that never lie, a restore that undoes everything, and exactly
 which torn last lines break which of these.
 */
module RepairTheorems {
  import opened Common
  import opened RepairModel
  import opened RepairProtocol

  ghost function CommitSet(s: State): set<nat> {
    set i | i in s.commits
  }

  /** The indexes marked in the file once a start has reconciled. */
  function MarkedAfterStart(cfg: Config, f: File, books: map<Pair, Book>): set<nat> {
    Committed(f.lines) + Found(cfg, ReadBackup(f), books)
  }

  /** The committed indexes a run checks itself against: the records read
      before the file was opened, unless reconciling made it read again. */
  function CheckedAgainst(cfg: Config, f: File, books: map<Pair, Book>): set<nat> {
    if Found(cfg, ReadBackup(f), books) == {} then Committed(ReadBackup(f))
    else MarkedAfterStart(cfg, f, books)
  }

  /** The stored books with the first record of every index in `done` put back. */
  ghost function Overlay(cfg: Config, lines: seq<Record>, books: map<Pair, Book>, done: set<nat>): (r: map<Pair, Book>)
    ensures r.Keys == books.Keys
  {
    map p | p in books ::
      if exists i: nat :: Restores(cfg, lines, done, p, i) then
        var i: nat :| Restores(cfg, lines, done, p, i);
        FirstBook(lines, i).value
      else books[p]
  }

  predicate Restores(cfg: Config, lines: seq<Record>, done: set<nat>, p: Pair, i: nat) {
    i in done && i < |cfg.list.pairs| && cfg.list.pairs[i] == p && FirstBook(lines, i).Some?
  }

  /** What `restore` with no limit and no stop leaves stored. */
  ghost function RestoredBooks(cfg: Config, f: File, books: map<Pair, Book>): map<Pair, Book> {
    Overlay(cfg, f.lines, books, MarkedAfterStart(cfg, f, books))
  }

  lemma OverlayAt(cfg: Config, lines: seq<Record>, books: map<Pair, Book>, done: set<nat>, i: nat)
    requires NoRepeats(cfg.list.pairs) && i < |cfg.list.pairs| && cfg.list.pairs[i] in books
    ensures Overlay(cfg, lines, books, done)[cfg.list.pairs[i]] ==
            if i in done && FirstBook(lines, i).Some? then FirstBook(lines, i).value else books[cfg.list.pairs[i]]
  {
    var p := cfg.list.pairs[i];
    if i in done && FirstBook(lines, i).Some? {
      assert Restores(cfg, lines, done, p, i);
    }
    forall j: nat | Restores(cfg, lines, done, p, j)
      ensures j == i
    {
    }
  }

  lemma OverlayElsewhere(cfg: Config, lines: seq<Record>, books: map<Pair, Book>, done: set<nat>, p: Pair)
    requires p in books && p !in cfg.list.pairs
    ensures Overlay(cfg, lines, books, done)[p] == books[p]
  {
  }

  lemma OverlayOne(cfg: Config, lines: seq<Record>, books: map<Pair, Book>, done: set<nat>, i: nat)
    requires NoRepeats(cfg.list.pairs)
    requires i < |cfg.list.pairs| && cfg.list.pairs[i] in books && FirstBook(lines, i).Some?
    ensures Overlay(cfg, lines, books, done + {i}) ==
            Overlay(cfg, lines, books, done)[cfg.list.pairs[i] := FirstBook(lines, i).value]
  {
    hide Overlay, FirstBook;
    var more, fewer := Overlay(cfg, lines, books, done + {i}), Overlay(cfg, lines, books, done);
    assert more.Keys == books.Keys == fewer.Keys;
    forall p | p in books
      ensures more[p] == fewer[cfg.list.pairs[i] := FirstBook(lines, i).value][p]
    {
      if p in cfg.list.pairs {
        var j: nat :| j < |cfg.list.pairs| && cfg.list.pairs[j] == p;
        OverlayAt(cfg, lines, books, done + {i}, j);
        OverlayAt(cfg, lines, books, done, j);
      } else {
        OverlayElsewhere(cfg, lines, books, done + {i}, p);
        OverlayElsewhere(cfg, lines, books, done, p);
      }
    }
  }

  lemma OverlayNone(cfg: Config, lines: seq<Record>, books: map<Pair, Book>)
    ensures Overlay(cfg, lines, books, {}) == books
  {
  }

  // ---------------------------------------------------------------- safety

  /** No listed book is ever replaced twice, as long as no run started blind;
      and a marker, even one lacking its newline, is never a lie. */
  lemma AtMostOnce(cfg: Config, events: seq<Event>)
    requires Run(cfg, events).Some?
    ensures var s := Run(cfg, events).value;
            && (!s.blind ==> NoRepeats(s.commits))
            && (forall i | i in Committed(ReadBackup(s.file)) :: i in s.commits)
  {
    HistoryKeeps(cfg, events);
    var s := Run(cfg, events).value;
    forall i | i in Committed(ReadBackup(s.file))
      ensures i in s.commits
    {
      var r :| r in ReadBackup(s.file) && r.CommitRecord? && r.index == i;
      assert RecordOk(cfg, s, r);
    }
  }

  /** A foreign series_author row goes only after every listed book was replaced. */
  lemma SeriesRowsGoLast(cfg: Config, events: seq<Event>)
    requires Run(cfg, events).Some?
    ensures var s := Run(cfg, events).value;
            s.rows != cfg.rows ==> forall i: nat | i < |cfg.list.pairs| :: i in s.commits
  {
    HistoryKeeps(cfg, events);
  }

  // ---------------------------------------------------------------- one start, exactly

  lemma FoundExactly(cfg: Config, s: State, i: nat)
    requires Inv(cfg, s)
    ensures i in Found(cfg, ReadBackup(s.file), s.books) <==>
            i in s.commits && i !in s.restored && i !in Committed(ReadBackup(s.file))
  {
    var records := ReadBackup(s.file);
    if i < |cfg.list.pairs| {
      assert BookOk(cfg, s, i);
      if i in s.commits {
        FirstBookPresent(s.file.lines, i);
        var r :| r in s.file.lines && r.BookRecord? && r.index == i;
        assert r in records;
      }
    }
  }

  /** After a start has reconciled, the marked indexes are exactly the replaced
      ones, unless opening the file cut a whole marker off: then they never are. */
  lemma MarkedIffReplaced(cfg: Config, events: seq<Event>)
    requires Run(cfg, events).Some?
    ensures var s := Run(cfg, events).value;
            MarkedAfterStart(cfg, s.file, s.books) == CommitSet(s) <==> !CutsMarker(s.file)
  {
    HistoryKeeps(cfg, events);
    MarkedIffReplacedAt(cfg, Run(cfg, events).value);
  }

  lemma MarkedIffReplacedAt(cfg: Config, s: State)
    requires Inv(cfg, s)
    ensures MarkedAfterStart(cfg, s.file, s.books) == CommitSet(s) <==> !CutsMarker(s.file)
  {
    var marked := MarkedAfterStart(cfg, s.file, s.books);
    TailMarker(s.file);
    MarkersCommitted(cfg, s);
    forall i: nat
      ensures i in marked ==> i in s.commits
      ensures !CutsMarker(s.file) && i in s.commits ==> i in marked
    {
      FoundExactly(cfg, s, i);
      if i in s.restored && i in s.commits {
        assert BookOk(cfg, s, i);
      }
    }
    if CutsMarker(s.file) {
      var i := s.file.tail.record.index;
      assert RecordOk(cfg, s, s.file.tail.record);
      FoundExactly(cfg, s, i);
      assert i in s.commits && i !in marked;
    }
  }

  lemma TailMarker(f: File)
    ensures Committed(ReadBackup(f)) == Committed(f.lines) + (if CutsMarker(f) then {f.tail.record.index} else {})
  {
    if f.tail.Whole? {
      CommittedAppend(f.lines, f.tail.record);
    }
  }

  /** The records a run checks its start against name exactly the replaced
      indexes if and only if the start was not blind. */
  lemma CheckedIffNotBlind(cfg: Config, events: seq<Event>)
    requires Run(cfg, events).Some?
    ensures var s := Run(cfg, events).value;
            CheckedAgainst(cfg, s.file, s.books) == CommitSet(s) <==> !Blind(cfg, s.file, s.books)
  {
    HistoryKeeps(cfg, events);
    var s := Run(cfg, events).value;
    MarkedIffReplacedAt(cfg, s);
    TailMarker(s.file);
    var records := ReadBackup(s.file);
    if Found(cfg, records, s.books) == {} {
      forall i: nat
        ensures i in Committed(records) <==> i in s.commits
      {
        FoundExactly(cfg, s, i);
        assert i < |cfg.list.pairs| ==> BookOk(cfg, s, i);
        if i in Committed(records) {
          var r :| r in records && r.CommitRecord? && r.index == i;
          assert RecordOk(cfg, s, r);
        }
      }
    }
  }

  // ---------------------------------------------------------------- restore

  /** Restore puts back the first backed-up state of every replaced pair, which
      was still polluted, if and only if opening the file cuts no marker off;
      it leaves every pair that was never replaced alone in either case. */
  lemma RestoreUndoesReplacements(cfg: Config, events: seq<Event>)
    requires Run(cfg, events).Some?
    ensures var s := Run(cfg, events).value;
            var after := RestoredBooks(cfg, s.file, s.books);
            && after.Keys == s.books.Keys
            && (forall p | p in s.books && p !in cfg.list.pairs :: after[p] == s.books[p])
            && (forall i: nat | i < |cfg.list.pairs| && i !in s.commits ::
                  cfg.list.pairs[i] in s.books && after[cfg.list.pairs[i]] == s.books[cfg.list.pairs[i]])
            && (!CutsMarker(s.file) <==>
                forall i | i in s.commits ::
                  i < |cfg.list.pairs| && FirstBook(s.file.lines, i).Some? &&
                  Polluted(FirstBook(s.file.lines, i).value, cfg.list.pairs[i].region) &&
                  cfg.list.pairs[i] in s.books && after[cfg.list.pairs[i]] == FirstBook(s.file.lines, i).value)
  {
    HistoryKeeps(cfg, events);
    var s := Run(cfg, events).value;
    var after := RestoredBooks(cfg, s.file, s.books);
    var marked := MarkedAfterStart(cfg, s.file, s.books);
    MarkedIffReplacedAt(cfg, s);
    TailMarker(s.file);
    forall i: nat | i < |cfg.list.pairs|
      ensures i !in s.commits ==> after[cfg.list.pairs[i]] == s.books[cfg.list.pairs[i]]
      ensures i in s.commits && !CutsMarker(s.file) ==>
              FirstBook(s.file.lines, i).Some? &&
              Polluted(FirstBook(s.file.lines, i).value, cfg.list.pairs[i].region) &&
              after[cfg.list.pairs[i]] == FirstBook(s.file.lines, i).value
    {
      assert BookOk(cfg, s, i);
      OverlayAt(cfg, s.file.lines, s.books, marked, i);
      FoundExactly(cfg, s, i);
      MarkersCommitted(cfg, s);
    }
    forall p | p in s.books && p !in cfg.list.pairs
      ensures after[p] == s.books[p]
    {
      OverlayElsewhere(cfg, s.file.lines, s.books, marked, p);
    }
    if CutsMarker(s.file) {
      var i := s.file.tail.record.index;
      assert RecordOk(cfg, s, s.file.tail.record);
      assert BookOk(cfg, s, i);
      OverlayAt(cfg, s.file.lines, s.books, marked, i);
      FoundExactly(cfg, s, i);
      assert i in s.commits && after[cfg.list.pairs[i]] == s.books[cfg.list.pairs[i]];
    }
  }

  /** With no other writer in between, any history of runs, crashes and partial
      restores followed by a restore ends where it began: books and rows. */
  lemma RestoreEndsWhereItBegan(cfg: Config, events: seq<Event>)
    requires Run(cfg, events).Some?
    requires var s := Run(cfg, events).value; s.touched == {} && !CutsMarker(s.file)
    ensures var s := Run(cfg, events).value;
            && RestoredBooks(cfg, s.file, s.books) == cfg.books
            && s.rows + SeriesRows(s.file.lines) == cfg.rows
  {
    HistoryKeeps(cfg, events);
    RestoreUndoesReplacements(cfg, events);
    var s := Run(cfg, events).value;
    var after := RestoredBooks(cfg, s.file, s.books);
    forall p | p in cfg.books
      ensures after[p] == cfg.books[p]
    {
      if p in cfg.list.pairs {
        var i: nat :| i < |cfg.list.pairs| && cfg.list.pairs[i] == p;
        assert BookOk(cfg, s, i);
      }
    }
    assert after == cfg.books;
    forall row | row in SeriesRows(s.file.lines)
      ensures row in cfg.rows
    {
      var r :| r in s.file.lines && r.SeriesRecord? && r.row == row;
      assert RecordOk(cfg, s, r);
    }
  }
}
