/**
 The durable state of the region repair (scripts/repair_region_pollution.py):
 the append-only backup file, the stored books, and what one replacement does
 to a book.  A book's row, links and track are one value, because the script
 only ever changes them together in one transaction.
 */
module RepairModel {
  import opened Common

  datatype Pair = Pair(asin: string, region: string)

  /** An author_book row joined to its author, so the author's region shows. */
  datatype AuthorLink = AuthorLink(authorId: int, authorRegion: string)

  datatype SeriesLink = SeriesLink(asin: string, region: string)

  datatype Book = Book(
    fields: map<string, string>,
    authors: set<AuthorLink>,
    series: set<SeriesLink>,
    narrators: set<string>,
    genres: set<string>,
    track: Option<string>,
    isPrimary: bool,
    createdAt: int,
    checkedAt: Option<int>)

  /** What Audible answered for one book, normalized for its region. */
  datatype Answer = Answer(
    fields: map<string, string>,
    authors: set<AuthorLink>,
    series: set<SeriesLink>,
    narrators: set<string>,
    genres: set<string>,
    track: Option<string>)

  datatype SeriesAuthor = SeriesAuthor(series: SeriesLink, authorId: int)

  // ---------------------------------------------------------------- pollution

  function ForeignAuthors(authors: set<AuthorLink>, region: string): set<AuthorLink> {
    set a | a in authors && a.authorRegion != region
  }

  function ForeignSeries(series: set<SeriesLink>, region: string): set<SeriesLink> {
    set s | s in series && s.region != region
  }

  predicate Polluted(b: Book, region: string) {
    ForeignAuthors(b.authors, region) != {} || ForeignSeries(b.series, region) != {}
  }

  predicate PollutedAnswer(a: Answer, region: string) {
    ForeignAuthors(a.authors, region) != {} || ForeignSeries(a.series, region) != {}
  }

  /** One replacement: the fresh answer, the clean links it lacks put back, and
      the two values the rewrite cannot infer. */
  function Rewrite(before: Book, a: Answer, region: string, now: int): Book {
    Book(a.fields,
         a.authors + (before.authors - ForeignAuthors(before.authors, region)),
         a.series + (before.series - ForeignSeries(before.series, region)),
         a.narrators, a.genres, a.track,
         before.isPrimary, before.createdAt, Some(now))
  }

  /** The rewrite is polluted exactly when the answer itself is: every foreign
      link of the old row is gone, every clean one survives, and nothing the
      answer carried is lost. */
  lemma RewriteCleans(before: Book, a: Answer, region: string, now: int)
    ensures var after := Rewrite(before, a, region, now);
            && (Polluted(after, region) <==> PollutedAnswer(a, region))
            && (forall l | l in before.authors :: l.authorRegion == region ==> l in after.authors)
            && (forall l | l in before.series :: l.region == region ==> l in after.series)
            && (forall l | l in after.authors && l !in a.authors :: l in before.authors && l.authorRegion == region)
            && (forall l | l in after.series && l !in a.series :: l in before.series && l.region == region)
            && a.authors <= after.authors && a.series <= after.series
            && after.isPrimary == before.isPrimary && after.createdAt == before.createdAt
  {
    var after := Rewrite(before, a, region, now);
    assert ForeignAuthors(after.authors, region) == ForeignAuthors(a.authors, region);
    assert ForeignSeries(after.series, region) == ForeignSeries(a.series, region);
  }

  /** What an answer would have to be to say what is stored. */
  function AnswerOf(b: Book): Answer {
    Answer(b.fields, b.authors, b.series, b.narrators, b.genres, b.track)
  }

  /** A clean book rewritten with what it already says is the same book, checked now. */
  lemma RewriteRoundTrip(b: Book, region: string, now: int)
    requires !Polluted(b, region)
    ensures Rewrite(b, AnswerOf(b), region, now) == b.(checkedAt := Some(now))
  {
    assert b.authors - ForeignAuthors(b.authors, region) == b.authors;
    assert b.series - ForeignSeries(b.series, region) == b.series;
  }

  function CleanAuthors(b: Book, region: string): set<AuthorLink> {
    set l | l in b.authors && l.authorRegion == region
  }

  function CleanSeries(b: Book, region: string): set<SeriesLink> {
    set l | l in b.series && l.region == region
  }

  /** The old rows agree on all a rewrite may keep of them. */
  predicate KeepAlike(b: Book, other: Book, region: string) {
    && CleanAuthors(b, region) == CleanAuthors(other, region) && CleanSeries(b, region) == CleanSeries(other, region)
    && b.isPrimary == other.isPrimary && b.createdAt == other.createdAt
  }

  /** Nothing else of the old row reaches the new one. */
  lemma RewriteIgnoresTheRest(b: Book, other: Book, a: Answer, region: string, now: int)
    requires KeepAlike(b, other, region)
    ensures Rewrite(b, a, region, now) == Rewrite(other, a, region, now)
  {
    CleanLinks(b, region);
    CleanLinks(other, region);
  }

  lemma CleanLinks(b: Book, region: string)
    ensures b.authors - ForeignAuthors(b.authors, region) == CleanAuthors(b, region)
    ensures b.series - ForeignSeries(b.series, region) == CleanSeries(b, region)
  {
  }

  /** And everything of the answer does: over a row with no clean link of its own, what
      is stored then says exactly what the answer did. */
  lemma RewriteTakesTheAnswer(b: Book, a: Answer, region: string, now: int)
    requires CleanAuthors(b, region) == {} && CleanSeries(b, region) == {}
    ensures AnswerOf(Rewrite(b, a, region, now)) == a
  {
    CleanLinks(b, region);
  }

  /** What one replacement makes of a stored book, link by link. */
  ghost predicate TakesAnswer(before: Book, after: Book, a: Answer, region: string, now: int) {
    && AnswerOf(after).(authors := a.authors, series := a.series) == a
    && (forall l :: l in after.authors <==> l in a.authors || (l in before.authors && l.authorRegion == region))
    && (forall l :: l in after.series <==> l in a.series || (l in before.series && l.region == region))
    && after.isPrimary == before.isPrimary && after.createdAt == before.createdAt && after.checkedAt == Some(now)
  }

  lemma RewriteMeans(before: Book, a: Answer, region: string, now: int)
    ensures TakesAnswer(before, Rewrite(before, a, region, now), a, region, now)
  {
  }

  /** It leaves no choice. */
  lemma OneRewrite(before: Book, after: Book, other: Book, a: Answer, region: string, now: int)
    requires TakesAnswer(before, after, a, region, now) && TakesAnswer(before, other, a, region, now)
    ensures after == other
  {
    assert after.authors == other.authors && after.series == other.series;
    assert AnswerOf(after) == AnswerOf(other);
  }

  // ---------------------------------------------------------------- the backup file

  datatype Record =
    | BookRecord(sha: string, index: nat, pair: Pair, book: Book)
    | CommitRecord(sha: string, index: nat, pair: Pair)
    | SeriesRecord(sha: string, row: SeriesAuthor)

  /** What follows the last newline: nothing, a cut that does not parse, or a
      whole record that lacks only its newline. */
  datatype Tail = NoTail | Torn | Whole(record: Record)

  datatype File = File(lines: seq<Record>, tail: Tail)

  /** read_backup: a whole record counts even without its newline. */
  function ReadBackup(f: File): seq<Record> {
    if f.tail.Whole? then f.lines + [f.tail.record] else f.lines
  }

  /** BackupFile.__init__: everything after the last newline is cut off. */
  function OpenBackup(f: File): File {
    File(f.lines, NoTail)
  }

  function Committed(records: seq<Record>): set<nat> {
    set r | r in records && r.CommitRecord? :: r.index
  }

  /** Book records that no marker covers: the ones reconcile_commits looks up. */
  function Unmarked(records: seq<Record>): set<nat> {
    (set r | r in records && r.BookRecord? :: r.index) - Committed(records)
  }

  function SeriesRows(records: seq<Record>): set<SeriesAuthor> {
    set r | r in records && r.SeriesRecord? :: r.row
  }

  /** The book a restore would put back for an index: its first record's. */
  function FirstBook(records: seq<Record>, i: nat): Option<Book> {
    if records == [] then None
    else if records[0].BookRecord? && records[0].index == i then Some(records[0].book)
    else FirstBook(records[1..], i)
  }

  lemma {:induction false} FirstBookAppend(records: seq<Record>, r: Record, i: nat)
    ensures FirstBook(records + [r], i) ==
            if FirstBook(records, i).Some? then FirstBook(records, i)
            else if r.BookRecord? && r.index == i then Some(r.book)
            else None
  {
    if records == [] {
      assert records + [r] == [r];
    } else {
      assert (records + [r])[1..] == records[1..] + [r];
      FirstBookAppend(records[1..], r, i);
    }
  }

  lemma {:induction false} FirstBookPresent(records: seq<Record>, i: nat)
    ensures FirstBook(records, i).Some? <==> exists r :: r in records && r.BookRecord? && r.index == i
  {
    if records != [] {
      FirstBookPresent(records[1..], i);
      assert records == [records[0]] + records[1..];
    }
  }

  lemma CommittedAppend(records: seq<Record>, r: Record)
    ensures Committed(records + [r]) == Committed(records) + (if r.CommitRecord? then {r.index} else {})
    ensures SeriesRows(records + [r]) == SeriesRows(records) + (if r.SeriesRecord? then {r.row} else {})
  {
    var all := records + [r];
    forall i: nat | i in Committed(records) || (r.CommitRecord? && i == r.index)
      ensures i in Committed(all)
    {
      if i in Committed(records) {
        var q :| q in records && q.CommitRecord? && q.index == i;
        assert q in all;
      } else {
        assert r in all;
      }
    }
    forall row | row in SeriesRows(records) || (r.SeriesRecord? && row == r.row)
      ensures row in SeriesRows(all)
    {
      if row in SeriesRows(records) {
        var q :| q in records && q.SeriesRecord? && q.row == row;
        assert q in all;
      } else {
        assert r in all;
      }
    }
  }

  // ---------------------------------------------------------------- the frozen list

  /** RepairList.__init__ refuses a list naming a pair twice. */
  datatype RepairList = RepairList(sha: string, pairs: seq<Pair>, rows: seq<SeriesAuthor>)

  predicate OneList(records: seq<Record>, sha: string) {
    forall r | r in records :: r.sha == sha
  }
}
