/**
 The repair as a crash-recoverable protocol: every durable effect of `run` and
 `restore` is one step, a crash may fall between any two of them or cut an
 append short, and other writers may change books meanwhile.
 */
module RepairProtocol {
  import opened Common
  import opened RepairModel

  /** What the history starts from. */
  datatype Config = Config(list: RepairList, books: map<Pair, Book>, rows: set<SeriesAuthor>)

  /** The listed books are stored and polluted, as `plan` selected them. */
  predicate ConfigOk(cfg: Config) {
    && NoRepeats(cfg.list.pairs)
    && (forall i | 0 <= i < |cfg.list.pairs| ::
          cfg.list.pairs[i] in cfg.books &&
          Polluted(cfg.books[cfg.list.pairs[i]], cfg.list.pairs[i].region))
  }

  datatype Job = RunFrom(start: nat, end: nat) | RunPair(index: nat) | Restore

  datatype Proc =
    | Down
    | Reconciling(records: seq<Record>, todo: set<nat>, marked: bool, job: Job)
    | Walking(cursor: nat, end: nat)
    | InTransaction(cursor: nat, end: nat)   // backup record durable, nothing committed
    | Unmarking(cursor: nat, end: nat)       // committed, its marker not yet written
    | SeriesPass(rows: seq<SeriesAuthor>)
    | SeriesDeleting(row: SeriesAuthor, rows: seq<SeriesAuthor>)
    | Restoring(todo: set<nat>)

  /** The durable state, the running process, and four history variables that
      no step reads: the committed replacements in order, the indexes put back
      by a restore, the pairs other writers changed, and whether a run ever
      started blind (see Blind). */
  datatype State = State(
    file: File, books: map<Pair, Book>, rows: set<SeriesAuthor>, proc: Proc,
    commits: seq<nat>, restored: set<nat>, touched: set<Pair>, blind: bool)

  function Init(cfg: Config): State {
    State(File([], NoTail), cfg.books, cfg.rows, Down, [], {}, {}, false)
  }

  /** reconcile_commits' test: stored, and no foreign link left. */
  predicate LooksReplaced(cfg: Config, books: map<Pair, Book>, i: nat) {
    i < |cfg.list.pairs| && cfg.list.pairs[i] in books && !Polluted(books[cfg.list.pairs[i]], cfg.list.pairs[i].region)
  }

  /** The replacements a start finds committed but unmarked. */
  function Found(cfg: Config, records: seq<Record>, books: map<Pair, Book>): set<nat> {
    set i | i in Unmarked(records) && LooksReplaced(cfg, books, i)
  }

  /** The last line is a whole marker that opening the file will cut off. */
  predicate CutsMarker(f: File) {
    f.tail.Whole? && f.tail.record.CommitRecord? && f.tail.record.index !in Committed(f.lines)
  }

  /** A start that loses sight of a marker: opening the file cuts one off, and
      reconciling marks something else, so the file is read again without it. */
  predicate Blind(cfg: Config, f: File, books: map<Pair, Book>) {
    CutsMarker(f) && Found(cfg, ReadBackup(f), books) != {}
  }

  datatype Event =
    | Start(job: Job)
    | ReconcileNext(index: nat)
    | Check
    | LeaveAlone
    | AppendBook
    | Replace(answer: Answer, now: int)
    | AppendMarker
    | EndWalk
    | SeriesNext
    | SeriesDelete
    | RestoreOne(index: nat)
    | RestoreRow(row: SeriesAuthor)
    | Exit
    | Crash(cut: Tail)
    | OtherWriter(pair: Pair, book: Book)

  function Marker(cfg: Config, i: nat): Record
    requires i < |cfg.list.pairs|
  {
    CommitRecord(cfg.list.sha, i, cfg.list.pairs[i])
  }

  function BackupOf(cfg: Config, books: map<Pair, Book>, i: nat): Record
    requires i < |cfg.list.pairs| && cfg.list.pairs[i] in books
  {
    BookRecord(cfg.list.sha, i, cfg.list.pairs[i], books[cfg.list.pairs[i]])
  }

  /** The record the running process may be part way through appending. */
  ghost predicate MayBeAppending(cfg: Config, s: State, r: Record) {
    match s.proc
    case Reconciling(_, todo, _, _) =>
      exists i | i in todo :: LooksReplaced(cfg, s.books, i) && r == Marker(cfg, i)
    case Walking(cursor, end) =>
      cursor < end && cursor < |cfg.list.pairs| && cfg.list.pairs[cursor] in s.books && r == BackupOf(cfg, s.books, cursor)
    case Unmarking(cursor, _) =>
      cursor < |cfg.list.pairs| && r == Marker(cfg, cursor)
    case SeriesPass(rows) =>
      rows != [] && rows[0] in s.rows && r == SeriesRecord(cfg.list.sha, rows[0])
    case _ => false
  }

  predicate AllMarked(cfg: Config, records: seq<Record>) {
    forall i: nat | i < |cfg.list.pairs| :: i in Committed(records)
  }

  ghost predicate Enabled(cfg: Config, s: State, e: Event) {
    match e
    case Start(job) =>
      && s.proc.Down?
      && (job.RunFrom? ==> job.start <= job.end <= |cfg.list.pairs|)
      && (job.RunPair? ==> job.index < |cfg.list.pairs|)
    case ReconcileNext(i) =>
      s.proc.Reconciling? && i in s.proc.todo && forall j | j in s.proc.todo :: i <= j
    case Check => s.proc.Reconciling? && s.proc.todo == {}
    case LeaveAlone => s.proc.Walking? && s.proc.cursor < s.proc.end
    case AppendBook =>
      && s.proc.Walking? && s.proc.cursor < s.proc.end
      && s.proc.cursor < |cfg.list.pairs| && cfg.list.pairs[s.proc.cursor] in s.books
    case Replace(a, _) =>
      && s.proc.InTransaction?
      && s.proc.cursor < |cfg.list.pairs| && cfg.list.pairs[s.proc.cursor] in s.books
      && !PollutedAnswer(a, cfg.list.pairs[s.proc.cursor].region)
    case AppendMarker => s.proc.Unmarking? && s.proc.cursor < |cfg.list.pairs|
    case EndWalk => s.proc.Walking? && s.proc.cursor == s.proc.end
    case SeriesNext => s.proc.SeriesPass? && s.proc.rows != []
    case SeriesDelete => s.proc.SeriesDeleting?
    case RestoreOne(i) =>
      s.proc.Restoring? && i in s.proc.todo && i < |cfg.list.pairs| && FirstBook(s.file.lines, i).Some?
    case RestoreRow(row) => s.proc.Restoring? && s.proc.todo == {} && row in SeriesRows(s.file.lines)
    case Exit => !s.proc.Down?
    case Crash(cut) =>
      && !s.proc.Down?
      && (cut.Torn? ==> exists r :: MayBeAppending(cfg, s, r))
      && (cut.Whole? ==> MayBeAppending(cfg, s, cut.record))
    case OtherWriter(p, b) =>
      // Assumed of other writers: they remove no book, take no book's last foreign
      // link and give none to a book without one; and they wait for the row lock
      // the replacing transaction holds.
      && p in s.books
      && (Polluted(b, p.region) <==> Polluted(s.books[p], p.region))
      && (s.proc.InTransaction? ==> s.proc.cursor < |cfg.list.pairs| && p != cfg.list.pairs[s.proc.cursor])
  }

  function Append(s: State, r: Record): State {
    s.(file := File(s.file.lines + [r], NoTail))
  }

  /** check_resume and check_pair_unrepaired on the records the run holds. */
  function Admit(cfg: Config, records: seq<Record>, job: Job): Proc {
    if !OneList(records, cfg.list.sha) then Down
    else match job
      case RunFrom(start, end) =>
        if forall i | i in Committed(records) :: i < start then Walking(start, end) else Down
      case RunPair(i) =>
        if i !in Committed(records) then Walking(i, i + 1) else Down
      case Restore => Restoring(Committed(records))
  }

  function Next(cfg: Config, s: State, e: Event): State
    requires Enabled(cfg, s, e)
  {
    match e
    case Start(job) =>
      var records := ReadBackup(s.file);
      s.(file := OpenBackup(s.file),
         proc := Reconciling(records, Unmarked(records), false, job),
         blind := s.blind || (!job.Restore? && Blind(cfg, s.file, s.books)))
    case ReconcileNext(i) =>
      var rest := s.proc.todo - {i};
      if LooksReplaced(cfg, s.books, i) then
        Append(s, Marker(cfg, i)).(proc := s.proc.(todo := rest, marked := true))
      else
        s.(proc := s.proc.(todo := rest))
    case Check =>
      var reread := s.proc.marked || s.proc.job.Restore?;
      s.(proc := Admit(cfg, if reread then s.file.lines else s.proc.records, s.proc.job))
    case LeaveAlone => s.(proc := Walking(s.proc.cursor + 1, s.proc.end))
    case AppendBook =>
      Append(s, BackupOf(cfg, s.books, s.proc.cursor)).(proc := InTransaction(s.proc.cursor, s.proc.end))
    case Replace(a, now) =>
      var p := cfg.list.pairs[s.proc.cursor];
      s.(books := s.books[p := Rewrite(s.books[p], a, p.region, now)],
         commits := s.commits + [s.proc.cursor],
         restored := s.restored - {s.proc.cursor},
         proc := Unmarking(s.proc.cursor, s.proc.end))
    case AppendMarker =>
      Append(s, Marker(cfg, s.proc.cursor)).(proc := Walking(s.proc.cursor + 1, s.proc.end))
    case EndWalk =>
      s.(proc := if AllMarked(cfg, s.file.lines) then SeriesPass(cfg.list.rows) else Down)
    case SeriesNext =>
      var row, rest := s.proc.rows[0], s.proc.rows[1..];
      if row in s.rows then
        Append(s, SeriesRecord(cfg.list.sha, row)).(proc := SeriesDeleting(row, rest))
      else
        s.(proc := SeriesPass(rest))
    case SeriesDelete => s.(rows := s.rows - {s.proc.row}, proc := SeriesPass(s.proc.rows))
    case RestoreOne(i) =>
      s.(books := s.books[cfg.list.pairs[i] := FirstBook(s.file.lines, i).value],
         restored := s.restored + {i},
         proc := Restoring(s.proc.todo - {i}))
    case RestoreRow(row) => s.(rows := s.rows + {row})
    case Exit => s.(proc := Down)
    case Crash(cut) => s.(file := File(s.file.lines, cut), proc := Down)
    case OtherWriter(p, b) => s.(books := s.books[p := b], touched := s.touched + {p})
  }

  // ---------------------------------------------------------------- histories

  /** The state a history ends in, or None when some event could not happen. */
  ghost function Run(cfg: Config, events: seq<Event>): Option<State> {
    if events == [] then (if ConfigOk(cfg) then Some(Init(cfg)) else None)
    else
      var before := Run(cfg, events[..|events| - 1]);
      var e := events[|events| - 1];
      if before.Some? && Enabled(cfg, before.value, e) then Some(Next(cfg, before.value, e)) else None
  }

  // ---------------------------------------------------------------- the invariant

  ghost predicate RecordOk(cfg: Config, s: State, r: Record) {
    && r.sha == cfg.list.sha
    && (!r.SeriesRecord? ==> r.index < |cfg.list.pairs| && r.pair == cfg.list.pairs[r.index])
    && (r.CommitRecord? ==> r.index in s.commits)
    && (r.SeriesRecord? ==> r.row in cfg.rows)
  }

  ghost predicate RecordsOk(cfg: Config, s: State, records: seq<Record>) {
    forall r | r in records :: RecordOk(cfg, s, r)
  }

  /** What the store and the file say about one listed book. */
  ghost predicate BookOk(cfg: Config, s: State, i: nat)
    requires i < |cfg.list.pairs|
  {
    var p := cfg.list.pairs[i];
    && p in s.books && p in cfg.books
    && (Polluted(s.books[p], p.region) <==> i !in s.commits || i in s.restored)
    && (i in s.commits ==> FirstBook(s.file.lines, i).Some?)
    && (FirstBook(s.file.lines, i).Some? ==>
          Polluted(FirstBook(s.file.lines, i).value, p.region) &&
          (p !in s.touched ==> FirstBook(s.file.lines, i).value == cfg.books[p]))
    && (i !in s.commits && p !in s.touched ==> s.books[p] == cfg.books[p])
    && (i in s.restored ==> i in Committed(s.file.lines))
  }

  ghost predicate BooksOk(cfg: Config, s: State) {
    forall i: nat | i < |cfg.list.pairs| :: BookOk(cfg, s, i)
  }

  /** A pair that is not listed is only ever changed by other writers. */
  ghost predicate OthersOk(cfg: Config, s: State) {
    && s.books.Keys == cfg.books.Keys
    && (forall p | p in cfg.books && p !in cfg.list.pairs && p !in s.touched :: s.books[p] == cfg.books[p])
  }

  ghost predicate RowsOk(cfg: Config, s: State) {
    && s.rows <= cfg.rows
    && cfg.rows <= s.rows + SeriesRows(s.file.lines)
    && (s.rows != cfg.rows ==> forall i: nat | i < |cfg.list.pairs| :: i in s.commits)
  }

  ghost predicate Fresh(s: State, from: nat, end: nat) {
    s.blind || forall c | from <= c < end :: c !in s.commits
  }

  ghost predicate ProcOk(cfg: Config, s: State) {
    && (!s.proc.Down? ==> s.file.tail.NoTail?)
    && match s.proc
       case Down => true
       case Reconciling(records, todo, marked, job) =>
         && RecordsOk(cfg, s, records)
         && (forall i | i in todo :: i < |cfg.list.pairs|)
         && todo !! Committed(s.file.lines)
         && (forall i | i in s.commits :: i in Committed(records) + Committed(s.file.lines) + todo)
         && (!marked ==> Committed(s.file.lines) <= Committed(records))
         && (s.blind || job.Restore? || Committed(records) <= Committed(s.file.lines) ||
             (!marked && forall i | i in todo :: !LooksReplaced(cfg, s.books, i)))
         && (job.RunFrom? ==> job.start <= job.end <= |cfg.list.pairs|)
         && (job.RunPair? ==> job.index < |cfg.list.pairs|)
       case Walking(cursor, end) => cursor <= end <= |cfg.list.pairs| && Fresh(s, cursor, end)
       case InTransaction(cursor, end) =>
         && cursor < end <= |cfg.list.pairs| && Fresh(s, cursor, end)
         && FirstBook(s.file.lines, cursor).Some?
       case Unmarking(cursor, end) =>
         && cursor < end <= |cfg.list.pairs| && Fresh(s, cursor + 1, end)
         && cursor in s.commits
       case SeriesPass(rows) => forall i: nat | i < |cfg.list.pairs| :: i in s.commits
       case SeriesDeleting(row, rows) =>
         && (forall i: nat | i < |cfg.list.pairs| :: i in s.commits)
         && row in SeriesRows(s.file.lines)
       case Restoring(todo) => todo <= Committed(s.file.lines)
  }

  ghost predicate Inv(cfg: Config, s: State) {
    && RecordsOk(cfg, s, s.file.lines)
    && (s.file.tail.Whole? ==> RecordOk(cfg, s, s.file.tail.record))
    && BooksOk(cfg, s)
    && OthersOk(cfg, s)
    && RowsOk(cfg, s)
    && ProcOk(cfg, s)
    && (forall i | i in s.commits :: i < |cfg.list.pairs|)
    && (s.blind || NoRepeats(s.commits))
  }

  // ---------------------------------------------------------------- every step keeps it

  lemma InitInv(cfg: Config)
    requires ConfigOk(cfg)
    ensures Inv(cfg, Init(cfg))
  {
  }

  /** What is known of the books depends only on what is durable. */
  lemma SameBooks(cfg: Config, s: State, t: State)
    requires BooksOk(cfg, s)
    requires t == s.(file := t.file, rows := t.rows, proc := t.proc, blind := t.blind) && t.file.lines == s.file.lines
    ensures BooksOk(cfg, t)
  {
    forall i: nat | i < |cfg.list.pairs|
      ensures BookOk(cfg, t, i)
    {
      assert BookOk(cfg, s, i);
    }
  }

  lemma MarkersCommitted(cfg: Config, s: State)
    requires RecordsOk(cfg, s, s.file.lines)
    ensures forall i | i in Committed(s.file.lines) :: i in s.commits
  {
  }

  /** Appending a record: what the file says changes only as the record says. */
  lemma AppendKeeps(cfg: Config, s: State, r: Record)
    requires Inv(cfg, s) && RecordOk(cfg, s, r)
    requires r.BookRecord? && r.index !in s.commits ==> r.pair in s.books && r.book == s.books[r.pair]
    ensures var t := Append(s, r);
            && RecordsOk(cfg, t, t.file.lines) && BooksOk(cfg, t) && OthersOk(cfg, t) && RowsOk(cfg, t)
            && t.file.lines == s.file.lines + [r]
  {
    var t := Append(s, r);
    CommittedAppend(s.file.lines, r);
    forall i: nat | i < |cfg.list.pairs|
      ensures BookOk(cfg, t, i)
    {
      assert BookOk(cfg, s, i);
      FirstBookAppend(s.file.lines, r, i);
    }
  }

  lemma StepStart(cfg: Config, s: State, job: Job)
    requires ConfigOk(cfg) && Inv(cfg, s) && Enabled(cfg, s, Start(job))
    ensures Inv(cfg, Next(cfg, s, Start(job)))
  {
    var t := Next(cfg, s, Start(job));
    var records := ReadBackup(s.file);
    SameBooks(cfg, s, t);
    if s.file.tail.Whole? {
      CommittedAppend(s.file.lines, s.file.tail.record);
    }
    forall i | i in s.commits
      ensures i in Committed(records) + Committed(t.file.lines) + Unmarked(records)
    {
      assert BookOk(cfg, s, i);
      FirstBookPresent(s.file.lines, i);
      var r :| r in s.file.lines && r.BookRecord? && r.index == i;
      assert r in records;
    }
    if !t.blind && !job.Restore? && !(Committed(records) <= Committed(t.file.lines)) {
      forall i | i in Unmarked(records)
        ensures !LooksReplaced(cfg, s.books, i)
      {
        assert Found(cfg, records, s.books) == {};
        assert i !in Found(cfg, records, s.books);
      }
    }
  }

  lemma StepReconcile(cfg: Config, s: State, i: nat)
    requires ConfigOk(cfg) && Inv(cfg, s) && Enabled(cfg, s, ReconcileNext(i))
    ensures Inv(cfg, Next(cfg, s, ReconcileNext(i)))
  {
    var t := Next(cfg, s, ReconcileNext(i));
    assert BookOk(cfg, s, i);
    if LooksReplaced(cfg, s.books, i) {
      AppendKeeps(cfg, s, Marker(cfg, i));
      SameBooks(cfg, Append(s, Marker(cfg, i)), t);
      CommittedAppend(s.file.lines, Marker(cfg, i));
    } else {
      SameBooks(cfg, s, t);
    }
  }

  lemma StepCheck(cfg: Config, s: State)
    requires ConfigOk(cfg) && Inv(cfg, s) && Enabled(cfg, s, Check)
    ensures Inv(cfg, Next(cfg, s, Check))
  {
    hide BooksOk;
    var t := Next(cfg, s, Check);
    SameBooks(cfg, s, t);
    MarkersCommitted(cfg, s);
  }

  lemma StepAppendBook(cfg: Config, s: State)
    requires ConfigOk(cfg) && Inv(cfg, s) && Enabled(cfg, s, AppendBook)
    ensures Inv(cfg, Next(cfg, s, AppendBook))
  {
    var r := BackupOf(cfg, s.books, s.proc.cursor);
    assert BookOk(cfg, s, s.proc.cursor);
    AppendKeeps(cfg, s, r);
    SameBooks(cfg, Append(s, r), Next(cfg, s, AppendBook));
    FirstBookAppend(s.file.lines, r, s.proc.cursor);
  }

  lemma StepAppendMarker(cfg: Config, s: State)
    requires ConfigOk(cfg) && Inv(cfg, s) && Enabled(cfg, s, AppendMarker)
    ensures Inv(cfg, Next(cfg, s, AppendMarker))
  {
    var r := Marker(cfg, s.proc.cursor);
    AppendKeeps(cfg, s, r);
    SameBooks(cfg, Append(s, r), Next(cfg, s, AppendMarker));
  }

  lemma StepSeries(cfg: Config, s: State)
    requires ConfigOk(cfg) && Inv(cfg, s) && Enabled(cfg, s, SeriesNext)
    ensures Inv(cfg, Next(cfg, s, SeriesNext))
  {
    var r := SeriesRecord(cfg.list.sha, s.proc.rows[0]);
    if s.proc.rows[0] in s.rows {
      AppendKeeps(cfg, s, r);
      SameBooks(cfg, Append(s, r), Next(cfg, s, SeriesNext));
      CommittedAppend(s.file.lines, r);
    } else {
      SameBooks(cfg, s, Next(cfg, s, SeriesNext));
    }
  }

  /** The book the cursor is at stops being polluted, and no other book moves. */
  lemma ReplaceBooks(cfg: Config, s: State, a: Answer, now: int)
    requires ConfigOk(cfg) && Inv(cfg, s) && Enabled(cfg, s, Replace(a, now))
    ensures BooksOk(cfg, Next(cfg, s, Replace(a, now)))
  {
    var t := Next(cfg, s, Replace(a, now));
    var c := s.proc.cursor;
    var p := cfg.list.pairs[c];
    RewriteCleans(s.books[p], a, p.region, now);
    assert s.blind || c !in s.commits;
    hide Polluted, Rewrite, RecordsOk, OthersOk, RowsOk;
    forall i: nat | i < |cfg.list.pairs|
      ensures BookOk(cfg, t, i)
    {
      assert BookOk(cfg, s, i);
    }
  }

  /** Everything else of the invariant. */
  lemma ReplaceRest(cfg: Config, s: State, a: Answer, now: int)
    requires ConfigOk(cfg) && Inv(cfg, s) && Enabled(cfg, s, Replace(a, now))
    ensures var t := Next(cfg, s, Replace(a, now));
            && RecordsOk(cfg, t, t.file.lines) && (t.file.tail.Whole? ==> RecordOk(cfg, t, t.file.tail.record))
            && OthersOk(cfg, t) && RowsOk(cfg, t) && ProcOk(cfg, t)
            && (forall i | i in t.commits :: i < |cfg.list.pairs|) && (t.blind || NoRepeats(t.commits))
  {
    hide Polluted, Rewrite, Committed, SeriesRows, FirstBook;
    assert BookOk(cfg, s, s.proc.cursor);
    assert s.blind || s.proc.cursor !in s.commits;
  }

  lemma StepReplace(cfg: Config, s: State, a: Answer, now: int)
    requires ConfigOk(cfg) && Inv(cfg, s) && Enabled(cfg, s, Replace(a, now))
    ensures Inv(cfg, Next(cfg, s, Replace(a, now)))
  {
    hide Next, Enabled, BooksOk, RecordsOk, RecordOk, OthersOk, RowsOk, ProcOk, NoRepeats;
    ReplaceBooks(cfg, s, a, now);
    ReplaceRest(cfg, s, a, now);
  }

  lemma RestoreOneBook(cfg: Config, s: State, c: nat, i: nat)
    requires ConfigOk(cfg) && Inv(cfg, s) && Enabled(cfg, s, RestoreOne(c)) && i < |cfg.list.pairs|
    ensures BookOk(cfg, Next(cfg, s, RestoreOne(c)), i)
  {
    hide RowsOk, RecordsOk, Committed;
    assert BookOk(cfg, s, i);
  }

  lemma StepRestoreOne(cfg: Config, s: State, c: nat)
    requires ConfigOk(cfg) && Inv(cfg, s) && Enabled(cfg, s, RestoreOne(c))
    ensures Inv(cfg, Next(cfg, s, RestoreOne(c)))
  {
    hide BookOk, Committed;
    forall i: nat | i < |cfg.list.pairs|
      ensures BookOk(cfg, Next(cfg, s, RestoreOne(c)), i)
    {
      RestoreOneBook(cfg, s, c, i);
    }
  }

  lemma StepOtherWriter(cfg: Config, s: State, p: Pair, b: Book)
    requires ConfigOk(cfg) && Inv(cfg, s) && Enabled(cfg, s, OtherWriter(p, b))
    ensures Inv(cfg, Next(cfg, s, OtherWriter(p, b)))
  {
    var t := Next(cfg, s, OtherWriter(p, b));
    forall i: nat | i < |cfg.list.pairs|
      ensures BookOk(cfg, t, i)
    {
      assert BookOk(cfg, s, i);
    }
  }

  /** Steps that change no book and append nothing. */
  lemma StepQuiet(cfg: Config, s: State, e: Event)
    requires ConfigOk(cfg) && Inv(cfg, s) && Enabled(cfg, s, e)
    requires e.LeaveAlone? || e.EndWalk? || e.SeriesDelete? || e.RestoreRow? || e.Exit? || e.Crash?
    ensures Inv(cfg, Next(cfg, s, e))
  {
    var t := Next(cfg, s, e);
    if !e.Crash? { SameBooks(cfg, s, t); }
    MarkersCommitted(cfg, s);
    if e.Crash? {
      CrashTail(cfg, s, e.cut);
      SameBooks(cfg, s, t);
    }
  }

  /** A record cut short of its newline says no more than the finished one. */
  lemma CrashTail(cfg: Config, s: State, cut: Tail)
    requires ConfigOk(cfg) && Inv(cfg, s) && Enabled(cfg, s, Crash(cut))
    ensures cut.Whole? ==> RecordOk(cfg, s, cut.record)
  {
    if cut.Whole? && s.proc.Reconciling? {
      var i :| i in s.proc.todo && LooksReplaced(cfg, s.books, i) && cut.record == Marker(cfg, i);
      assert BookOk(cfg, s, i);
    }
  }

  lemma StepKeeps(cfg: Config, s: State, e: Event)
    requires ConfigOk(cfg) && Inv(cfg, s) && Enabled(cfg, s, e)
    ensures Inv(cfg, Next(cfg, s, e))
  {
    match e
    case Start(job) => StepStart(cfg, s, job);
    case ReconcileNext(i) => StepReconcile(cfg, s, i);
    case Check => StepCheck(cfg, s);
    case AppendBook => StepAppendBook(cfg, s);
    case AppendMarker => StepAppendMarker(cfg, s);
    case SeriesNext => StepSeries(cfg, s);
    case Replace(a, now) => StepReplace(cfg, s, a, now);
    case RestoreOne(i) => StepRestoreOne(cfg, s, i);
    case OtherWriter(p, b) => StepOtherWriter(cfg, s, p, b);
    case _ => StepQuiet(cfg, s, e);
  }

  /** Every state of every history satisfies the invariant. */
  lemma {:induction false} HistoryKeeps(cfg: Config, events: seq<Event>)
    requires Run(cfg, events).Some?
    ensures ConfigOk(cfg) && Inv(cfg, Run(cfg, events).value)
  {
    if events == [] {
      InitInv(cfg);
    } else {
      HistoryKeeps(cfg, events[..|events| - 1]);
      StepKeeps(cfg, Run(cfg, events[..|events| - 1]).value, events[|events| - 1]);
    }
  }
}
