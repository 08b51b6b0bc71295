/**
 scripts/region_keys.py: filling a new region column in batches, and finalize and
 unfinalize as the statements they run, any of which may be the last of a run.
 A key is its rank in the database's order, the empty string being 0.
 */
module BackfillModel {
  import opened Common

  /** A link row: the asin it names, and its region once it has one. */
  datatype Row = Row(key: nat, region: Option<nat>, rest: nat)

  /** The books or series table: each asin's region, which may itself be null. */
  type Source = map<nat, Option<nat>>

  /** What the UPDATE's join makes of one row. */
  function Joined(r: Row, src: Source): Row {
    if r.region.None? && r.key in src then r.(region := src[r.key]) else r
  }

  /** One UPDATE over the rows whose key is among these. */
  function JoinKeys(rows: seq<Row>, src: Source, keys: seq<nat>): (r: seq<Row>)
    ensures |r| == |rows|
  {
    seq(|rows|, i requires 0 <= i < |rows| => if rows[i].key in keys then Joined(rows[i], src) else rows[i])
  }

  /** The rows once every key after "" and up to this one has been visited. */
  function JoinUpto(rows: seq<Row>, src: Source, cursor: nat): (r: seq<Row>)
    ensures |r| == |rows|
  {
    seq(|rows|, i requires 0 <= i < |rows| => if 0 < rows[i].key <= cursor then Joined(rows[i], src) else rows[i])
  }

  /** One UPDATE of the whole column, the rows of key "" left out. */
  function JoinNamed(rows: seq<Row>, src: Source): (r: seq<Row>)
    ensures |r| == |rows|
  {
    seq(|rows|, i requires 0 <= i < |rows| => if 0 < rows[i].key then Joined(rows[i], src) else rows[i])
  }

  /** One UPDATE of the whole column. */
  function JoinAll(rows: seq<Row>, src: Source): (r: seq<Row>)
    ensures |r| == |rows|
  {
    seq(|rows|, i requires 0 <= i < |rows| => Joined(rows[i], src))
  }

  /** No row of the empty key would change. */
  ghost predicate EmptyKeysSettled(rows: seq<Row>, src: Source) {
    forall i | 0 <= i < |rows| && rows[i].key == 0 :: Joined(rows[i], src) == rows[i]
  }

  /** The cursor starts at "" and asks for greater keys, so the batches equal one
      UPDATE exactly when no row that it would change has the key "". */
  lemma EqualsOneUpdateIff(rows: seq<Row>, src: Source)
    ensures JoinNamed(rows, src) == JoinAll(rows, src) <==> EmptyKeysSettled(rows, src)
  {
    if forall i | 0 <= i < |rows| && rows[i].key == 0 :: Joined(rows[i], src) == rows[i] {
      forall i | 0 <= i < |rows| ensures JoinNamed(rows, src)[i] == JoinAll(rows, src)[i] {
      }
    }
    if JoinNamed(rows, src) == JoinAll(rows, src) {
      forall i | 0 <= i < |rows| && rows[i].key == 0 ensures Joined(rows[i], src) == rows[i] {
        assert JoinNamed(rows, src)[i] == JoinAll(rows, src)[i];
      }
    }
  }

  /** A row of the empty key that the join would fill. */
  lemma EmptyKeyIsLeftBehind(region: nat, rest: nat)
    ensures var rows, src := [Row(0, None, rest)], map[0 := Some(region)];
            JoinNamed(rows, src) == rows && JoinAll(rows, src) == [Row(0, Some(region), rest)]
  {
    var rows, src := [Row(0, None, rest)], map[0 := Some(region)];
    assert JoinNamed(rows, src)[0] == rows[0] && JoinAll(rows, src)[0] == Row(0, Some(region), rest);
  }

  /** What filling a column may do to a row, and when it leaves one null: a region that is
      set was set before or is its source's, and a null stays exactly where there is no
      source or the source's own region is null. */
  ghost predicate FilledFrom(was: Row, now: Row, src: Source) {
    && now.key == was.key && now.rest == was.rest
    && (was.region.Some? ==> now.region == was.region)
    && (now.region.Some? ==> now.region == was.region || (was.key in src && now.region == src[was.key]))
    && (now.region.None? <==> was.region.None? && (was.key == 0 || was.key !in src || src[was.key].None?))
  }

  lemma JoinNamedFills(rows: seq<Row>, src: Source)
    ensures forall i | 0 <= i < |rows| :: FilledFrom(rows[i], JoinNamed(rows, src)[i], src)
  {
  }

  /** It leaves no choice. */
  lemma FilledOneWay(was: Row, now: Row, other: Row, src: Source)
    requires FilledFrom(was, now, src) && FilledFrom(was, other, src)
    ensures now == other
  {
  }

  /** Some rows of named keys filled, the others as they were. */
  ghost predicate PartlyFilled(rows: seq<Row>, now: seq<Row>, src: Source) {
    && |now| == |rows|
    && forall i | 0 <= i < |rows| :: now[i] == rows[i] || (rows[i].key > 0 && now[i] == Joined(rows[i], src))
  }

  /** Filling again changes only what was not filled: however often the backfill is
      cut short, what is left to do comes to the same. */
  lemma RestartsAddUp(rows: seq<Row>, now: seq<Row>, src: Source)
    requires PartlyFilled(rows, now, src)
    ensures JoinNamed(now, src) == JoinNamed(rows, src)
  {
    forall i | 0 <= i < |rows| ensures JoinNamed(now, src)[i] == JoinNamed(rows, src)[i] {
    }
  }

  lemma PartlyFilledTwice(a: seq<Row>, b: seq<Row>, c: seq<Row>, src: Source)
    requires PartlyFilled(a, b, src) && PartlyFilled(b, c, src)
    ensures PartlyFilled(a, c, src)
  {
    forall i | 0 <= i < |a| ensures c[i] == a[i] || (a[i].key > 0 && c[i] == Joined(a[i], src)) {
      assert b[i] == a[i] || b[i] == Joined(a[i], src);
    }
  }

  lemma UptoIsPartly(rows: seq<Row>, src: Source, cursor: nat)
    ensures PartlyFilled(rows, JoinUpto(rows, src, cursor), src)
    ensures PartlyFilled(rows, JoinNamed(rows, src), src)
  {
  }

  // ---------------------------------------------------------------- one page of keys

  ghost predicate NullKey(rows: seq<Row>, key: nat) {
    exists i :: 0 <= i < |rows| && rows[i].key == key && rows[i].region.None?
  }

  /** Keys of null rows after the cursor: ascending, and none skipped below the last. */
  ghost predicate PageOf(rows: seq<Row>, cursor: nat, size: nat, keys: seq<nat>) {
    && |keys| <= size
    && (forall i | 0 <= i < |keys| :: cursor < keys[i] && NullKey(rows, keys[i]))
    && (forall i, j | 0 <= i < j < |keys| :: keys[i] < keys[j])
    && (forall key | NullKey(rows, key) && cursor < key && key !in keys :: |keys| == size && forall i | 0 <= i < |keys| :: keys[i] < key)
  }

  /** The least key of a null row after this one, or none. */
  method NextNullKey(rows: seq<Row>, after: nat) returns (next: Option<nat>)
    ensures next.Some? ==> after < next.value && NullKey(rows, next.value)
    ensures forall key | NullKey(rows, key) && after < key :: next.Some? && next.value <= key
  {
    next := None;
    var i := 0;
    while i < |rows|
      invariant 0 <= i <= |rows|
      invariant next.Some? ==> after < next.value && NullKey(rows, next.value)
      invariant forall j | 0 <= j < i && rows[j].region.None? && after < rows[j].key :: next.Some? && next.value <= rows[j].key
    {
      if rows[i].region.None? && after < rows[i].key && (next.None? || rows[i].key < next.value) {
        next := Some(rows[i].key);
      }
      i := i + 1;
    }
  }

  /** The page query: distinct, ordered, limited. */
  method ReadPage(rows: seq<Row>, cursor: nat, size: nat) returns (keys: seq<nat>)
    ensures PageOf(rows, cursor, size, keys)
  {
    hide NullKey;
    keys := [];
    while |keys| < size
      invariant |keys| <= size
      invariant forall i | 0 <= i < |keys| :: cursor < keys[i] && NullKey(rows, keys[i])
      invariant forall i, j | 0 <= i < j < |keys| :: keys[i] < keys[j]
      invariant forall key | NullKey(rows, key) && cursor < key && key !in keys :: forall i | 0 <= i < |keys| :: keys[i] < key
      decreases size - |keys|
    {
      var next := NextNullKey(rows, if keys == [] then cursor else keys[|keys| - 1]);
      if next.None? {
        return;
      }
      keys := keys + [next.value];
    }
  }

  /** A batch over one page takes the column from its cursor to the page's last key. */
  lemma BatchAdvances(rows: seq<Row>, src: Source, cursor: nat, size: nat, keys: seq<nat>)
    requires PageOf(JoinUpto(rows, src, cursor), cursor, size, keys) && keys != []
    ensures JoinKeys(JoinUpto(rows, src, cursor), src, keys) == JoinUpto(rows, src, keys[|keys| - 1])
    ensures keys[|keys| - 1] > cursor
  {
    var now, last := JoinUpto(rows, src, cursor), keys[|keys| - 1];
    forall i | 0 <= i < |rows| ensures JoinKeys(now, src, keys)[i] == JoinUpto(rows, src, last)[i] {
      var key := rows[i].key;
      if cursor < key <= last && rows[i].region.None? {
        assert now[i].region.None? && now[i].key == key;
        assert NullKey(now, key);
        assert key in keys;
      } else if key in keys {
        var j :| 0 <= j < |keys| && keys[j] == key;
        assert cursor < keys[j] && keys[j] <= last;
      }
    }
  }

  /** An empty page after the cursor means every named row has been visited. */
  lemma LastBatch(rows: seq<Row>, src: Source, cursor: nat, size: nat)
    requires size > 0 && PageOf(JoinUpto(rows, src, cursor), cursor, size, [])
    ensures JoinUpto(rows, src, cursor) == JoinNamed(rows, src)
  {
    var now := JoinUpto(rows, src, cursor);
    forall i | 0 <= i < |rows| ensures now[i] == JoinNamed(rows, src)[i] {
      if cursor < rows[i].key && rows[i].region.None? {
        assert now[i] == rows[i] && NullKey(now, now[i].key);
      }
    }
  }

  function MaxKey(rows: seq<Row>): (m: nat)
    ensures forall i | 0 <= i < |rows| :: rows[i].key <= m
  {
    if rows == [] then 0
    else
      var rest, key := MaxKey(rows[..|rows| - 1]), rows[|rows| - 1].key;
      if rest < key then key else rest
  }
}

module RegionKeys {
  import opened Common
  import opened BackfillModel

  datatype Column = Column(present: bool, nullable: bool, check: bool, rows: seq<Row>)

  datatype Index = Absent | Invalid | Built(unique: bool)

  datatype Exit = Done | Stopped | Failed | Aborted

  /** The seven columns backfilled, and series.region, which is only constrained. */
  const FILLED: nat := 7
  const FINAL: nat := 8

  /** The two unique indexes built with the writers stopped. */
  const WINDOW: nat := 2

  const ANALYZED: nat := 6

  ghost predicate NoNulls(rows: seq<Row>) {
    forall i | 0 <= i < |rows| :: rows[i].region.Some?
  }

  method HasNulls(rows: seq<Row>) returns (nulls: bool)
    ensures nulls == !NoNulls(rows)
  {
    var i := 0;
    while i < |rows|
      invariant 0 <= i <= |rows| && NoNulls(rows[..i])
    {
      if rows[i].region.None? { return true; }
      i := i + 1;
    }
    return false;
  }

  /** What the database itself keeps: a NOT NULL column holds no null. */
  ghost predicate Sound(cols: seq<Column>) {
    |cols| == FINAL && forall c | 0 <= c < FINAL :: !cols[c].nullable ==> NoNulls(cols[c].rows)
  }

  /** What a column's backfill comes to; series.region has none. */
  function FilledRows(sources: seq<Source>, cols: seq<Column>, c: nat): seq<Row>
    requires |sources| == FILLED && c < |cols|
  {
    if c < FILLED then JoinNamed(cols[c].rows, sources[c]) else cols[c].rows
  }

  ghost predicate ColumnMoved(sources: seq<Source>, was: seq<Column>, now: seq<Column>, c: nat)
    requires |sources| == FILLED && |was| == |now| == FINAL && c < FINAL
  {
    && now[c].present == was[c].present
    && (if c < FILLED then PartlyFilled(was[c].rows, now[c].rows, sources[c]) else now[c].rows == was[c].rows)
  }

  /** All a run, finished or not, may have done to the rows. */
  ghost predicate Moved(sources: seq<Source>, was: seq<Column>, now: seq<Column>) {
    && |sources| == FILLED && |was| == |now| == FINAL
    && forall c: nat | c < FINAL :: ColumnMoved(sources, was, now, c)
  }

  lemma MovedTwice(sources: seq<Source>, a: seq<Column>, b: seq<Column>, c: seq<Column>)
    requires Moved(sources, a, b) && Moved(sources, b, c)
    ensures Moved(sources, a, c)
  {
    forall k: nat | k < FINAL ensures ColumnMoved(sources, a, c, k) {
      assert ColumnMoved(sources, a, b, k) && ColumnMoved(sources, b, c, k);
      if k < FILLED { PartlyFilledTwice(a[k].rows, b[k].rows, c[k].rows, sources[k]); }
    }
  }

  /** An interrupted run leaves the same column to come to. */
  lemma MovedKeepsTarget(sources: seq<Source>, was: seq<Column>, now: seq<Column>, c: nat)
    requires Moved(sources, was, now) && c < FINAL
    ensures FilledRows(sources, now, c) == FilledRows(sources, was, c)
  {
    assert ColumnMoved(sources, was, now, c);
    if c < FILLED { RestartsAddUp(was[c].rows, now[c].rows, sources[c]); }
  }

  /** Every column is there and its backfill leaves no null. */
  ghost predicate Fillable(sources: seq<Source>, cols: seq<Column>) {
    && |sources| == FILLED && |cols| == FINAL
    && forall c: nat | c < FINAL :: cols[c].present && NoNulls(FilledRows(sources, cols, c))
  }

  /** No window index of the right name is valid without being unique. */
  ghost predicate Buildable(idx: seq<Index>) {
    |idx| == WINDOW && forall k | 0 <= k < WINDOW :: idx[k] != Built(false)
  }

  /** What finalize promises at its end. */
  ghost predicate Finalized(cols: seq<Column>, idx: seq<Index>) {
    && |cols| == FINAL && |idx| == WINDOW
    && (forall c | 0 <= c < FINAL :: cols[c].present && !cols[c].nullable && !cols[c].check && NoNulls(cols[c].rows))
    && (forall k | 0 <= k < WINDOW :: idx[k] == Built(true))
  }

  ghost predicate Unfinalized(cols: seq<Column>, idx: seq<Index>) {
    && |cols| == FINAL && |idx| == WINDOW
    && (forall c | 0 <= c < FINAL :: cols[c].present && cols[c].nullable && !cols[c].check)
    && (forall k | 0 <= k < WINDOW :: idx[k] == Absent)
  }

  class Database {
    const sources: seq<Source>
    var cols: seq<Column>
    var idx: seq<Index>
    /** How many more statements this run gets to finish; None when nothing stops it. */
    var left: Option<nat>

    ghost predicate Valid()
      reads this
    {
      |sources| == FILLED && |idx| == WINDOW && Sound(cols)
    }

    constructor (sources: seq<Source>, cols: seq<Column>, idx: seq<Index>)
      requires |sources| == FILLED && |idx| == WINDOW && Sound(cols)
      ensures Valid() && this.sources == sources && this.cols == cols && this.idx == idx && left == None
    {
      this.sources, this.cols, this.idx, left := sources, cols, idx, None;
    }

    /** Asked before every statement: has the run been stopped or cut here? */
    method Cut() returns (cut: bool)
      modifies this`left
      ensures old(left).None? ==> left.None? && !cut
      ensures old(left).Some? ==> left.Some?
    {
      cut := left == Some(0);
      if left.Some? && !cut {
        left := Some(left.value - 1);
      }
    }

    /** _backfill_column */
    method BackfillColumn(c: nat, size: nat) returns (finished: bool)
      requires Valid() && c < FILLED && size > 0
      modifies this`cols, this`left
      ensures Valid() && old(left).None? == left.None?
      ensures exists cursor: nat :: cols == old(cols)[c := old(cols)[c].(rows := JoinUpto(old(cols)[c].rows, sources[c], cursor))]
      ensures finished ==> cols == old(cols)[c := old(cols)[c].(rows := JoinNamed(old(cols)[c].rows, sources[c]))]
      ensures finished ==> |cols[c].rows| == |old(cols)[c].rows|
      ensures finished ==> forall i | 0 <= i < |cols[c].rows| :: FilledFrom(old(cols)[c].rows[i], cols[c].rows[i], sources[c])
      ensures finished ==> (cols[c].rows == JoinAll(old(cols)[c].rows, sources[c]) <==> EmptyKeysSettled(old(cols)[c].rows, sources[c]))
      ensures left.None? ==> finished
    {
      EqualsOneUpdateIff(cols[c].rows, sources[c]);
      JoinNamedFills(cols[c].rows, sources[c]);
      hide EmptyKeysSettled, JoinAll, FilledFrom;
      ghost var rows := cols[c].rows;
      var cursor: nat := 0;
      assert JoinUpto(rows, sources[c], 0) == rows;
      assert cols == old(cols)[c := old(cols)[c].(rows := rows)];
      while true
        invariant Valid() && old(left).None? == left.None?
        invariant cols == old(cols)[c := old(cols)[c].(rows := JoinUpto(rows, sources[c], cursor))]
        decreases MaxKey(rows) - cursor
      {
        var cut := Cut();
        if cut {
          return false;
        }
        var keys := ReadPage(cols[c].rows, cursor, size);
        if keys == [] {
          LastBatch(rows, sources[c], cursor, size);
          return true;
        }
        BatchAdvances(rows, sources[c], cursor, size, keys);
        WithinRange(rows, sources[c], cursor, size, keys);
        FillingIsSound(cols, c, sources[c], keys);
        cols := cols[c := cols[c].(rows := JoinKeys(cols[c].rows, sources[c], keys))];
        cursor := keys[|keys| - 1];
      }
    }

    /** backfill: every column, in order, then the statistics. */
    method Backfill(size: nat) returns (exit: Exit)
      requires Valid() && size > 0
      modifies this`cols, this`left
      ensures Valid() && old(left).None? == left.None? && Moved(sources, old(cols), cols) && SameFlags(old(cols), cols)
      ensures exit == Done ==> forall c: nat | c < FINAL :: cols[c].rows == FilledRows(sources, old(cols), c)
      ensures exit == Failed <==> exists c :: 0 <= c < FILLED && !old(cols)[c].present
      ensures exit != Aborted && (left.None? ==> exit != Stopped)
    {
      ghost var was := cols;
      NothingMoved(sources, was);
      var c := 0;
      while c < FILLED
        invariant 0 <= c <= FILLED && forall k | 0 <= k < c :: cols[k].present
      {
        if !cols[c].present {
          return Failed;
        }
        c := c + 1;
      }
      c := 0;
      while c < FILLED
        invariant 0 <= c <= FILLED && Valid() && old(left).None? == left.None?
        invariant Moved(sources, was, cols) && SameFlags(was, cols)
        invariant forall k: nat | k < c :: cols[k].rows == FilledRows(sources, was, k)
        invariant forall k: nat | c <= k < FINAL :: cols[k] == was[k]
      {
        ghost var before := cols;
        var finished := BackfillColumn(c, size);
        ColumnFilled(sources, was, before, cols, c);
        if !finished {
          return Stopped;
        }
        c := c + 1;
      }
      var t := 0;
      while t < ANALYZED
        invariant 0 <= t <= ANALYZED && old(left).None? == left.None?
        modifies this`left
      {
        var cut := Cut();
        if cut {
          return Stopped;
        }
        t := t + 1;
      }
      return Done;
    }

    /** _build_index: an invalid index left by an interrupted build is dropped
        first; a build cut while it runs leaves one. */
    method BuildIndex(k: nat) returns (exit: Exit)
      requires Valid() && k < WINDOW
      modifies this`idx, this`left
      ensures Valid() && old(left).None? == left.None?
      ensures forall j | 0 <= j < WINDOW && j != k :: idx[j] == old(idx)[j]
      ensures exit == Done ==> idx[k] == Built(true)
      ensures exit == Failed ==> old(idx)[k] == Built(false)
      ensures old(idx)[k] != Built(false) ==> idx[k] != Built(false)
      ensures old(idx)[k] == Built(false) ==> idx == old(idx)
      ensures exit != Aborted && (left.None? ==> exit == if old(idx)[k] == Built(false) then Failed else Done)
    {
      if idx[k] == Invalid {
        var cut := Cut();
        if cut { return Stopped; }
        idx := idx[k := Absent];
      }
      var early := Cut();
      if early { return Stopped; }
      if idx[k] == Absent {
        var late := Cut();
        if late {
          idx := idx[k := Invalid];
          return Stopped;
        }
        idx := idx[k := Built(true)];
      }
      return if idx[k] == Built(true) then Done else Failed;
    }

    /** _make_not_null: a CHECK carries the proof from one statement to the next,
        and is what an interrupted run leaves behind. */
    method MakeNotNull(c: nat) returns (exit: Exit)
      requires Valid() && c < FINAL && NoNulls(cols[c].rows)
      modifies this`cols, this`left
      ensures Valid() && old(left).None? == left.None?
      ensures exists nullable: bool, check: bool ::
                cols == old(cols)[c := old(cols)[c].(nullable := nullable, check := check)]
      ensures exit == Done ==> cols == old(cols)[c := old(cols)[c].(nullable := false, check := false)] && cols[c].present
      ensures exit == Aborted ==> !old(cols)[c].present
      ensures exit == Stopped && old(cols)[c].nullable && !cols[c].nullable ==> cols[c].check
      ensures exit != Failed && (left.None? ==> exit == if old(cols)[c].present then Done else Aborted)
    {
      var nullable, check := cols[c].nullable, cols[c].check;
      assert cols == cols[c := cols[c].(nullable := nullable, check := check)];
      if !cols[c].present {
        return Aborted;
      }
      if !nullable && !check {
        return Done;
      }
      var cut := Cut();
      if cut { return Stopped; }
      if !check {
        cols := cols[c := cols[c].(check := true)];
        cut := Cut();
        if cut { return Stopped; }
      }
      // VALIDATE, which the absence of nulls lets pass.
      if nullable {
        cut := Cut();
        if cut { return Stopped; }
        cols := cols[c := cols[c].(nullable := false)];
      }
      cut := Cut();
      if cut { return Stopped; }
      cols := cols[c := cols[c].(check := false)];
      return Done;
    }

    /** finalize.  With nothing to stop it, it is done exactly when every column is
        there and fillable and no index of its names is in the way. */
    method Finalize(size: nat) returns (exit: Exit)
      requires Valid() && size > 0
      modifies this`cols, this`idx, this`left
      ensures Valid() && old(left).None? == left.None? && Moved(sources, old(cols), cols)
      ensures Buildable(old(idx)) ==> Buildable(idx)
      ensures exit == Done ==> Finalized(cols, idx) && forall c: nat | c < FINAL :: cols[c].rows == FilledRows(sources, old(cols), c)
      ensures exit == Done ==> Fillable(sources, old(cols)) && Buildable(old(idx))
      ensures left.None? && Fillable(sources, old(cols)) && Buildable(old(idx)) ==> exit == Done
      ensures left.None? && !Fillable(sources, old(cols)) ==> SameFlags(old(cols), cols) && idx == old(idx)
    {
      hide FilledRows, ColumnMoved;
      ghost var was := cols;
      exit := Backfill(size);
      if exit != Done {
        return;
      }
      ghost var filled := cols;
      var c := 0;
      while c < FINAL
        invariant 0 <= c <= FINAL && forall k | 0 <= k < c :: cols[k].present && NoNulls(cols[k].rows)
        modifies {}
      {
        var nulls := HasNulls(cols[c].rows);
        if nulls || !cols[c].present {
          FillableFilled(sources, was, cols);
          return Aborted;
        }
        c := c + 1;
      }
      FillableFilled(sources, was, cols);
      var k := 0;
      while k < WINDOW
        invariant 0 <= k <= WINDOW && Valid() && old(left).None? == left.None?
        invariant forall j | 0 <= j < k :: idx[j] == Built(true) && old(idx)[j] != Built(false)
        invariant forall j | k <= j < WINDOW :: idx[j] == old(idx)[j]
        modifies this`idx, this`left
      {
        var built := BuildIndex(k);
        if built != Done {
          return if built == Stopped then Stopped else Aborted;
        }
        k := k + 1;
      }
      c := 0;
      while c < FINAL
        invariant 0 <= c <= FINAL && Valid() && old(left).None? == left.None?
        invariant SameRows(filled, cols) && Moved(sources, was, cols)
        invariant forall k | 0 <= k < c :: !cols[k].nullable && !cols[k].check
        modifies this`cols, this`left
      {
        exit := MakeNotNull(c);
        SameRowsAfter(sources, was, filled, cols);
        if exit != Done {
          return;
        }
        c := c + 1;
      }
      return Done;
    }

    /** unfinalize */
    method Unfinalize() returns (exit: Exit)
      requires Valid()
      modifies this`cols, this`idx, this`left
      ensures Valid() && old(left).None? == left.None? && SameRows(old(cols), cols)
      ensures Buildable(old(idx)) ==> Buildable(idx)
      ensures exit == Done ==> Unfinalized(cols, idx)
      ensures exit == Aborted ==> exists c :: 0 <= c < FINAL && !old(cols)[c].present
      ensures left.None? ==> exit == (if forall c | 0 <= c < FINAL :: old(cols)[c].present then Done else Aborted)
    {
      var c := 0;
      while c < FINAL
        invariant 0 <= c <= FINAL && Valid() && old(left).None? == left.None?
        invariant SameRows(old(cols), cols)
        invariant forall k | 0 <= k < c :: cols[k].nullable && !cols[k].check && cols[k].present
        modifies this`cols, this`left
      {
        var cut := Cut();
        if cut { return Stopped; }
        if !cols[c].present {
          assert !old(cols)[c].present;
          return Aborted;
        }
        cols := cols[c := cols[c].(check := false)];
        cut := Cut();
        if cut { return Stopped; }
        cols := cols[c := cols[c].(nullable := true)];
        c := c + 1;
      }
      assert forall k | 0 <= k < FINAL :: old(cols)[k].present;
      var k := 0;
      while k < WINDOW
        invariant 0 <= k <= WINDOW && Valid() && old(left).None? == left.None?
        invariant forall j | 0 <= j < k :: idx[j] == Absent
        invariant forall j | k <= j < WINDOW :: idx[j] == old(idx)[j]
        modifies this`idx, this`left
      {
        var cut := Cut();
        if cut { return Stopped; }
        idx := idx[k := Absent];
        k := k + 1;
      }
      return Done;
    }
  }

  /** One earlier run: which command, and after how many statements it was cut. */
  datatype Attempt = Attempt(undo: bool, statements: nat)

  /** Whatever runs of finalize and unfinalize were cut wherever, a run left to
      itself ends where one uninterrupted finalize of the first state would. */
  method FinalizeAtLast(db: Database, attempts: seq<Attempt>, size: nat) returns (exit: Exit)
    requires db.Valid() && size > 0 && Fillable(db.sources, db.cols) && Buildable(db.idx)
    modifies db
    ensures exit == Done && Finalized(db.cols, db.idx)
    ensures forall c: nat | c < FINAL :: db.cols[c].rows == FilledRows(db.sources, old(db.cols), c)
  {
    RunAttempts(db, attempts, size);
    db.left := None;
    FillableStill(db.sources, old(db.cols), db.cols);
    exit := db.Finalize(size);
  }

  method RunAttempts(db: Database, attempts: seq<Attempt>, size: nat)
    requires db.Valid() && size > 0
    modifies db
    ensures db.Valid() && Moved(db.sources, old(db.cols), db.cols)
    ensures Buildable(old(db.idx)) ==> Buildable(db.idx)
  {
    NothingMoved(db.sources, db.cols);
    var i := 0;
    while i < |attempts|
      invariant 0 <= i <= |attempts|
      invariant db.Valid() && Moved(db.sources, old(db.cols), db.cols)
      invariant Buildable(old(db.idx)) ==> Buildable(db.idx)
    {
      ghost var before := db.cols;
      db.left := Some(attempts[i].statements);
      if attempts[i].undo {
        var exit := db.Unfinalize();
        SameRowsMoved(db.sources, before, db.cols);
      } else {
        var exit := db.Finalize(size);
      }
      MovedTwice(db.sources, old(db.cols), before, db.cols);
      i := i + 1;
    }
  }

  /** The way back: from the same states, unfinalize left to itself always ends. */
  method UnfinalizeAtLast(db: Database, attempts: seq<Attempt>, size: nat) returns (exit: Exit)
    requires db.Valid() && size > 0 && forall c | 0 <= c < FINAL :: db.cols[c].present
    modifies db
    ensures exit == Done && Unfinalized(db.cols, db.idx)
    ensures Moved(db.sources, old(db.cols), db.cols)
  {
    RunAttempts(db, attempts, size);
    db.left := None;
    ghost var before := db.cols;
    forall c | 0 <= c < FINAL ensures before[c].present {
      assert ColumnMoved(db.sources, old(db.cols), before, c);
    }
    exit := db.Unfinalize();
    SameRowsMoved(db.sources, before, db.cols);
    MovedTwice(db.sources, old(db.cols), before, db.cols);
  }

  lemma SameRowsMoved(sources: seq<Source>, was: seq<Column>, now: seq<Column>)
    requires |sources| == FILLED && |was| == FINAL && SameRows(was, now)
    ensures Moved(sources, was, now)
  {
  }

  lemma SameRowsAfter(sources: seq<Source>, was: seq<Column>, before: seq<Column>, now: seq<Column>)
    requires Moved(sources, was, before) && SameRows(before, now)
    ensures Moved(sources, was, now)
  {
    SameRowsMoved(sources, before, now);
    MovedTwice(sources, was, before, now);
  }

  lemma FillableStill(sources: seq<Source>, was: seq<Column>, now: seq<Column>)
    requires Moved(sources, was, now)
    ensures Fillable(sources, now) <==> Fillable(sources, was)
    ensures forall c: nat | c < FINAL :: FilledRows(sources, now, c) == FilledRows(sources, was, c)
  {
    forall c: nat | c < FINAL
      ensures FilledRows(sources, now, c) == FilledRows(sources, was, c) && now[c].present == was[c].present
    {
      MovedKeepsTarget(sources, was, now, c);
      assert ColumnMoved(sources, was, now, c);
    }
  }

  lemma WithinRange(rows: seq<Row>, src: Source, cursor: nat, size: nat, keys: seq<nat>)
    requires PageOf(JoinUpto(rows, src, cursor), cursor, size, keys) && keys != []
    ensures cursor < keys[|keys| - 1] <= MaxKey(rows)
  {
    var last := |keys| - 1;
    assert NullKey(JoinUpto(rows, src, cursor), keys[last]);
  }

  lemma FillingIsSound(cols: seq<Column>, c: nat, src: Source, keys: seq<nat>)
    requires Sound(cols) && c < FINAL
    ensures Sound(cols[c := cols[c].(rows := JoinKeys(cols[c].rows, src, keys))])
  {
  }

  ghost predicate SameFlags(was: seq<Column>, now: seq<Column>) {
    && |was| == |now|
    && forall c | 0 <= c < |was| :: now[c] == was[c].(rows := now[c].rows)
  }

  /** Only flags of present columns differ. */
  ghost predicate SameRows(was: seq<Column>, now: seq<Column>) {
    && |was| == |now|
    && forall c | 0 <= c < |was| :: now[c].rows == was[c].rows && now[c].present == was[c].present
  }

  lemma FillableFilled(sources: seq<Source>, was: seq<Column>, now: seq<Column>)
    requires |sources| == FILLED && |was| == |now| == FINAL && SameFlags(was, now)
    requires forall c: nat | c < FINAL :: now[c].rows == FilledRows(sources, was, c)
    ensures Fillable(sources, was) <==> forall c | 0 <= c < FINAL :: now[c].present && NoNulls(now[c].rows)
  {
  }

  lemma NothingMoved(sources: seq<Source>, cols: seq<Column>)
    requires |sources| == FILLED && |cols| == FINAL
    ensures Moved(sources, cols, cols)
  {
  }

  lemma ColumnFilled(sources: seq<Source>, was: seq<Column>, before: seq<Column>, now: seq<Column>, c: nat)
    requires Moved(sources, was, before) && SameFlags(was, before) && c < FILLED && before[c] == was[c]
    requires exists cursor: nat :: now == before[c := before[c].(rows := JoinUpto(before[c].rows, sources[c], cursor))]
    ensures Moved(sources, was, now) && SameFlags(was, now)
  {
    var cursor: nat :| now == before[c := before[c].(rows := JoinUpto(before[c].rows, sources[c], cursor))];
    UptoIsPartly(was[c].rows, sources[c], cursor);
    forall k: nat | k < FINAL ensures ColumnMoved(sources, was, now, k) {
      assert ColumnMoved(sources, was, before, k);
    }
  }
}
