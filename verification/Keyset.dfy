/**
 The keyset paging both corpus scripts walk by (scripts/backfill_chapters.py and
 scripts/refresh_corpus.py): rows in (asin, region) order, a page being the first
 rows after the cursor.  An asin and a region are their ranks in that order.
 */
module Keyset {
  import opened Common

  datatype Key = Key(asin: nat, region: nat)

  predicate Before(a: Key, b: Key) {
    a.asin < b.asin || (a.asin == b.asin && a.region < b.region)
  }

  /** (asin, region) > cursor, with no cursor at the start of a walk. */
  predicate After(cursor: Option<Key>, k: Key) {
    cursor.None? || Before(cursor.value, k)
  }

  ghost predicate Ascending(rows: seq<Key>) {
    forall i, j | 0 <= i < j < |rows| :: Before(rows[i], rows[j])
  }

  /** The page query: the least rows after the cursor, in order, at most `size`. */
  ghost predicate PageOf(table: set<Key>, cursor: Option<Key>, size: nat, rows: seq<Key>) {
    && |rows| <= size && Ascending(rows)
    && (forall k | k in rows :: k in table && After(cursor, k))
    && (forall k | k in table && After(cursor, k) && k !in rows ::
          |rows| == size && forall i | 0 <= i < |rows| :: Before(rows[i], k))
  }

  method ReadPage(table: set<Key>, cursor: Option<Key>, size: nat) returns (rows: seq<Key>)
    ensures PageOf(table, cursor, size, rows)
  {
    rows := [];
    var rest := set k | k in table && After(cursor, k);
    while |rows| < size && rest != {}
      invariant |rows| <= size && Ascending(rows)
      invariant forall k | k in rows :: k in table && After(cursor, k)
      invariant forall k | k in rest :: k in table && After(cursor, k) && forall i | 0 <= i < |rows| :: Before(rows[i], k)
      invariant forall k | k in table && After(cursor, k) && k !in rows :: k in rest
      decreases rest
    {
      var k := Least(rest, Before);
      rest := rest - {k};
      rows := rows + [k];
    }
  }

  function LastOf(rows: seq<Key>): Key
    requires rows != []
  {
    rows[|rows| - 1]
  }

  /** Past a page's last row lies every row of the table the page did not take. */
  lemma PageLeavesNothingBehind(table: set<Key>, cursor: Option<Key>, size: nat, rows: seq<Key>, k: Key)
    requires PageOf(table, cursor, size, rows) && rows != [] && k in table && After(cursor, k)
    ensures k in rows || After(Some(LastOf(rows)), k)
  {
  }
}

module ChapterWalk {
  import opened Common
  import opened Keyset

  /** _advance_cursor */
  function AdvanceCursor(rows: seq<Key>, cursor: Option<Key>, wrapped: bool): (Option<Key>, bool, bool) {
    if rows == [] then
      if wrapped then (cursor, wrapped, true) else (None, true, false)
    else
      (Some(LastOf(rows)), wrapped, false)
  }

  /** Where read i of one pass starts: at the pass's start, or after the last page. */
  function CursorAt(log: seq<seq<Key>>, first: nat, i: nat): Option<Key>
    requires first <= i <= |log|
  {
    if i == first || log[i - 1] == [] then None else Some(LastOf(log[i - 1]))
  }

  /** Reads first..end form one pass: nonempty pages, each after the one before, and
      at the end a read that finds nothing.  Each reads the table of its own time. */
  ghost predicate PassRead(tables: nat -> set<Key>, size: nat, log: seq<seq<Key>>, first: nat, end: nat) {
    && first <= end < |log|
    && (forall i: nat | first <= i <= end :: PageAt(tables, size, log, first, i))
    && (forall i | first <= i < end :: log[i] != [])
    && log[end] == []
  }

  ghost predicate PageAt(tables: nat -> set<Key>, size: nat, log: seq<seq<Key>>, first: nat, i: nat)
    requires first <= i < |log|
  {
    PageOf(tables(i), CursorAt(log, first, i), size, log[i])
  }

  /** Over a whole walk keys only rise within a pass. */
  lemma {:induction false} KeysRise(tables: nat -> set<Key>, size: nat, log: seq<seq<Key>>, first: nat, end: nat, i: nat, j: nat, a: Key, b: Key)
    requires PassRead(tables, size, log, first, end) && first <= i < j < end && a in log[i] && b in log[j]
    ensures Before(a, b)
    decreases j - i
  {
    assert PageAt(tables, size, log, first, j) && PageAt(tables, size, log, first, i);
    var last := LastOf(log[j - 1]);
    if j - 1 == i {
      var n := |log[i]| - 1;
      var p :| 0 <= p <= n && log[i][p] == a;
    } else {
      KeysRise(tables, size, log, first, end, i, j - 1, a, last);
    }
  }

  /** How often a pass reads a row. */
  function TimesIn(page: seq<Key>, k: Key): nat {
    if page == [] then 0 else TimesIn(page[..|page| - 1], k) + (if page[|page| - 1] == k then 1 else 0)
  }

  function TimesRead(log: seq<seq<Key>>, first: nat, end: nat, k: Key): nat
    requires first <= end <= |log|
  {
    if first == end then 0 else TimesRead(log, first, end - 1, k) + TimesIn(log[end - 1], k)
  }

  lemma {:induction false} OnceInAPage(page: seq<Key>, k: Key)
    requires Ascending(page)
    ensures TimesIn(page, k) == if k in page then 1 else 0
  {
    if page != [] {
      var n := |page| - 1;
      assert page == page[..n] + [page[n]];
      OnceInAPage(page[..n], k);
    }
  }

  /** A row is read at most once in a pass, and exactly once when some page has it. */
  lemma {:induction false} ReadAtMostOnce(tables: nat -> set<Key>, size: nat, log: seq<seq<Key>>, first: nat, end: nat, upto: nat, k: Key)
    requires PassRead(tables, size, log, first, end) && first <= upto <= end
    ensures TimesRead(log, first, upto, k) == if exists i :: first <= i < upto && k in log[i] then 1 else 0
    decreases upto
  {
    if first < upto {
      var i := upto - 1;
      ReadAtMostOnce(tables, size, log, first, end, i, k);
      assert PageAt(tables, size, log, first, i);
      OnceInAPage(log[i], k);
      if k in log[i] {
        forall j | first <= j < i ensures k !in log[j] {
          if k in log[j] { KeysRise(tables, size, log, first, end, j, i, k, k); }
        }
      }
    }
  }

  /** Up to any read, a row there all along has been read or is still ahead. */
  lemma {:induction false} ReadOrAhead(tables: nat -> set<Key>, size: nat, log: seq<seq<Key>>, first: nat, end: nat, upto: nat, k: Key)
    requires PassRead(tables, size, log, first, end) && first <= upto <= end
    requires forall i: nat | first <= i <= end :: k in tables(i)
    ensures (exists i :: first <= i < upto && k in log[i]) || After(CursorAt(log, first, upto), k)
    decreases upto
  {
    if first < upto {
      var i := upto - 1;
      ReadOrAhead(tables, size, log, first, end, i, k);
      assert PageAt(tables, size, log, first, i);
      if k !in log[i] && After(CursorAt(log, first, i), k) {
        PageLeavesNothingBehind(tables(i), CursorAt(log, first, i), size, log[i], k);
      }
    }
  }

  /** Every row present throughout a pass is read exactly once in it, whatever else
      is inserted or deleted meanwhile. */
  lemma PresentReadOnce(tables: nat -> set<Key>, size: nat, log: seq<seq<Key>>, first: nat, end: nat, k: Key)
    requires PassRead(tables, size, log, first, end) && size > 0
    requires forall i: nat | first <= i <= end :: k in tables(i)
    ensures TimesRead(log, first, end, k) == 1
  {
    ReadOrAhead(tables, size, log, first, end, end, k);
    ReadAtMostOnce(tables, size, log, first, end, end, k);
    assert PageAt(tables, size, log, first, end);
  }

  /** The walk: two passes and no more, for as many rows as there will ever be. */
  method Walk(tables: nat -> set<Key>, universe: set<Key>, size: nat) returns (log: seq<seq<Key>>, turn: nat)
    requires size > 0 && forall i :: tables(i) <= universe
    ensures turn + 1 < |log|
    ensures PassRead(tables, size, log, 0, turn) && PassRead(tables, size, log, turn + 1, |log| - 1)
  {
    log := [];
    turn := 0;
    var cursor: Option<Key> := None;
    var wrapped := false;
    while true
      invariant wrapped ==> PassRead(tables, size, log, 0, turn)
      invariant PassSoFar(tables, size, log, if wrapped then turn + 1 else 0)
      invariant cursor == CursorAt(log, if wrapped then turn + 1 else 0, |log|)
      decreases !wrapped, Ahead(universe, cursor)
    {
      ghost var first := if wrapped then turn + 1 else 0;
      var read := |log|;
      var rows := ReadPage(tables(read), cursor, size);
      ghost var was := log;
      log := log + [rows];
      PassGrows(tables, size, was, first, rows);
      var (next, turned, done) := AdvanceCursor(rows, cursor, wrapped);
      if done {
        if wrapped { EarlierPassKept(tables, size, was, rows, turn); }
        break;
      }
      if rows == [] {
        turn := read;
      } else {
        MovesOn(universe, cursor, LastOf(rows));
        if wrapped { EarlierPassKept(tables, size, was, rows, turn); }
      }
      cursor, wrapped := next, turned;
    }
  }

  ghost function Ahead(universe: set<Key>, cursor: Option<Key>): set<Key> {
    set k | k in universe && After(cursor, k)
  }

  lemma MovesOn(universe: set<Key>, cursor: Option<Key>, next: Key)
    requires next in universe && After(cursor, next)
    ensures Ahead(universe, Some(next)) < Ahead(universe, cursor)
  {
    assert next in Ahead(universe, cursor) && next !in Ahead(universe, Some(next));
  }

  /** A pass that has found rows at every read so far. */
  ghost predicate PassSoFar(tables: nat -> set<Key>, size: nat, log: seq<seq<Key>>, first: nat) {
    && first <= |log|
    && (forall i: nat | first <= i < |log| :: PageAt(tables, size, log, first, i))
    && (forall i | first <= i < |log| :: log[i] != [])
  }

  lemma PassGrows(tables: nat -> set<Key>, size: nat, log: seq<seq<Key>>, first: nat, rows: seq<Key>)
    requires PassSoFar(tables, size, log, first) && PageOf(tables(|log|), CursorAt(log, first, |log|), size, rows)
    ensures rows != [] ==> PassSoFar(tables, size, log + [rows], first)
    ensures rows == [] ==> PassRead(tables, size, log + [rows], first, |log|)
  {
    var more := log + [rows];
    forall i: nat | first <= i < |more| ensures PageAt(tables, size, more, first, i) {
      assert i < |log| ==> PageAt(tables, size, log, first, i);
    }
  }

  lemma EarlierPassKept(tables: nat -> set<Key>, size: nat, log: seq<seq<Key>>, rows: seq<Key>, turn: nat)
    requires PassRead(tables, size, log, 0, turn)
    ensures PassRead(tables, size, log + [rows], 0, turn)
  {
    var more := log + [rows];
    forall i: nat | 0 <= i <= turn ensures PageAt(tables, size, more, 0, i) {
      assert PageAt(tables, size, log, 0, i);
    }
  }
}
