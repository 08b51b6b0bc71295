/**
 libex_core/audible/releases.py: a genre taxonomy flattened into rows, one per
 node per parent, and shaped back from the rows as a nested tree or a flat list.
 */
module Taxonomy {
  import opened Common

  /** A node as Audible nests it, and as the nested response nests it: "" where
      the id or the name is missing. */
  datatype Genre = Genre(id: string, name: string, children: seq<Genre>)

  datatype Row = Row(id: string, name: string, parent: string)

  datatype Ancestor = Ancestor(id: string, name: string)

  datatype FlatNode = FlatNode(id: string, name: string, ancestors: seq<Ancestor>)

  // ---------------------------------------------------------------- flattening

  /** Every row the recursion comes to, repeats included. */
  function Visits(list: seq<Genre>, parent: string): seq<Row> {
    if list == [] then []
    else
      var n := list[0];
      (if n.id != "" && n.name != "" then [Row(n.id, n.name, parent)] else [])
      + (if n.id != "" then Visits(n.children, n.id) else [])
      + Visits(list[1..], parent)
  }

  predicate Seen(rows: seq<Row>, id: string, parent: string) {
    exists k :: 0 <= k < |rows| && rows[k].id == id && rows[k].parent == parent
  }

  /** The first row of each (id, parent). */
  function DedupOn(kept: seq<Row>, rows: seq<Row>): seq<Row>
    decreases |rows|
  {
    if rows == [] then kept
    else DedupOn(if Seen(kept, rows[0].id, rows[0].parent) then kept else kept + [rows[0]], rows[1..])
  }

  class Flattener {
    var seen: set<(string, string)>
    var nodes: seq<Row>

    ghost predicate Valid()
      reads this
    {
      forall id, parent :: (id, parent) in seen <==> Seen(nodes, id, parent)
    }

    constructor ()
      ensures Valid() && nodes == []
    {
      seen, nodes := {}, [];
    }

    method Emit(list: seq<Genre>, parent: string)
      requires Valid()
      modifies this
      ensures Valid() && nodes == DedupOn(old(nodes), Visits(list, parent))
      decreases list
    {
      hide Visits, DedupOn, Seen;
      ghost var was := nodes;
      var i := 0;
      while i < |list|
        invariant 0 <= i <= |list|
        invariant Valid() && DedupOn(nodes, Visits(list[i..], parent)) == DedupOn(was, Visits(list, parent))
      {
        var n := list[i];
        ghost var later := Visits(list[i + 1..], parent);
        EmitStep(nodes, list[i..], parent);
        assert list[i..][1..] == list[i + 1..];
        if n.id != "" && n.name != "" && (n.id, parent) !in seen {
          assert !Seen(nodes, n.id, parent);
          SeenMore(nodes, Row(n.id, n.name, parent));
          seen := seen + {(n.id, parent)};
          nodes := nodes + [Row(n.id, n.name, parent)];
        }
        if n.id != "" {
          Emit(n.children, n.id);
        }
        i := i + 1;
      }
      assert list[i..] == [];
      NothingLeft(nodes, parent);
    }
  }

  lemma NothingLeft(kept: seq<Row>, parent: string)
    ensures DedupOn(kept, Visits([], parent)) == kept
  {
  }

  lemma SeenMore(rows: seq<Row>, r: Row)
    ensures forall id, parent :: Seen(rows + [r], id, parent) <==> Seen(rows, id, parent) || (id == r.id && parent == r.parent)
  {
    forall id, parent | Seen(rows, id, parent) ensures Seen(rows + [r], id, parent) {
      var k :| 0 <= k < |rows| && rows[k].id == id && rows[k].parent == parent;
      assert (rows + [r])[k] == rows[k];
    }
    assert (rows + [r])[|rows|] == r;
  }

  lemma {:induction false} DedupConcat(kept: seq<Row>, a: seq<Row>, b: seq<Row>)
    ensures DedupOn(kept, a + b) == DedupOn(DedupOn(kept, a), b)
    decreases |a|
  {
    if a == [] {
      assert a + b == b;
    } else {
      assert (a + b)[1..] == a[1..] + b;
      DedupConcat(if Seen(kept, a[0].id, a[0].parent) then kept else kept + [a[0]], a[1..], b);
    }
  }

  /** One node's row, then its subtree, then the rest of its siblings. */
  lemma EmitStep(kept: seq<Row>, list: seq<Genre>, parent: string)
    requires list != []
    ensures var n := list[0];
            var own := if n.id != "" && n.name != "" && !Seen(kept, n.id, parent) then kept + [Row(n.id, n.name, parent)] else kept;
            var below := if n.id != "" then DedupOn(own, Visits(n.children, n.id)) else own;
            DedupOn(kept, Visits(list, parent)) == DedupOn(below, Visits(list[1..], parent))
  {
    var n := list[0];
    var row := if n.id != "" && n.name != "" then [Row(n.id, n.name, parent)] else [];
    var below := if n.id != "" then Visits(n.children, n.id) else [];
    DedupConcat(kept, row + below, Visits(list[1..], parent));
    DedupConcat(kept, row, below);
    if row != [] { assert row[1..] == []; }
  }

  /** flatten_genre_nodes */
  method FlattenGenreNodes(categories: seq<Genre>) returns (rows: seq<Row>)
    ensures rows == DedupOn([], Visits(categories, ""))
  {
    var f := new Flattener();
    f.Emit(categories, "");
    rows := f.nodes;
  }

  // ---------------------------------------------------------------- sorting by name

  /** A node of this id and name hangs under this parent: at the top level, or below a
      node that has an id, whether it has a name or not. */
  ghost predicate Hangs(list: seq<Genre>, top: string, r: Row) {
    exists i :: 0 <= i < |list| && HangsAt(list[i], top, r)
  }

  ghost predicate HangsAt(n: Genre, top: string, r: Row) {
    r == Row(n.id, n.name, top) || (n.id != "" && Hangs(n.children, n.id, r))
  }

  lemma {:induction false} VisitsWhatHangs(list: seq<Genre>, top: string, r: Row)
    ensures r in Visits(list, top) <==> r.id != "" && r.name != "" && Hangs(list, top, r)
  {
    if list != [] {
      var n, rest := list[0], list[1..];
      VisitsWhatHangs(n.children, n.id, r);
      VisitsWhatHangs(rest, top, r);
      assert Hangs(list, top, r) <==> HangsAt(n, top, r) || Hangs(rest, top, r) by {
        if i :| 0 <= i < |list| && HangsAt(list[i], top, r) { assert i > 0 ==> list[i] == rest[i - 1]; }
        if i :| 0 <= i < |rest| && HangsAt(rest[i], top, r) { assert list[i + 1] == rest[i]; }
      }
    }
  }

  /** Flattening lists an id under a parent exactly when some node with that id and a
      name hangs there, however deep. */
  lemma FlattensWhatHangs(categories: seq<Genre>, id: string, parent: string)
    ensures Seen(DedupOn([], Visits(categories, "")), id, parent) <==>
            id != "" && exists name :: name != "" && Hangs(categories, "", Row(id, name, parent))
  {
    hide Visits, DedupOn, Hangs;
    var rows := Visits(categories, "");
    DedupSees([], rows, id, parent);
    if Seen(rows, id, parent) {
      var k :| 0 <= k < |rows| && rows[k].id == id && rows[k].parent == parent;
      VisitsWhatHangs(categories, "", rows[k]);
      assert rows[k] in rows && rows[k] == Row(id, rows[k].name, parent);
    }
    if name :| name != "" && id != "" && Hangs(categories, "", Row(id, name, parent)) {
      VisitsWhatHangs(categories, "", Row(id, name, parent));
      var k :| 0 <= k < |rows| && rows[k] == Row(id, name, parent);
      assert rows[k].id == id && rows[k].parent == parent;
    }
  }

  /** Python's order on strings: code point by code point. */
  predicate Less(a: string, b: string) {
    b != "" && (a == "" || a[0] < b[0] || (a[0] == b[0] && Less(a[1..], b[1..])))
  }

  /** a is a shorter beginning of b, or the smaller at the first place they differ. */
  ghost predicate FirstDiffers(a: string, b: string, k: nat) {
    && k <= |a| && k < |b| && a[..k] == b[..k]
    && (k == |a| || a[k] < b[k])
  }

  lemma {:induction false} LessMeans(a: string, b: string)
    ensures Less(a, b) <==> exists k: nat :: FirstDiffers(a, b, k)
  {
    if b != "" && (a == "" || a[0] < b[0]) {
      assert FirstDiffers(a, b, 0);
    } else if b != "" && a[0] == b[0] {
      LessMeans(a[1..], b[1..]);
      if k: nat :| FirstDiffers(a[1..], b[1..], k) {
        assert a[..k + 1] == [a[0]] + a[1..][..k] && b[..k + 1] == [b[0]] + b[1..][..k];
        assert FirstDiffers(a, b, k + 1);
      }
      if k: nat :| FirstDiffers(a, b, k) {
        assert k > 0 && a[..k][1..] == a[1..][..k - 1] && b[..k][1..] == b[1..][..k - 1];
        assert FirstDiffers(a[1..], b[1..], k - 1);
      }
    } else {
      assert forall k: nat | 0 < k <= |a| && k < |b| :: a[..k][0] == a[0] && b[..k][0] == b[0];
    }
  }

  lemma {:induction false} LessTotal(a: string, b: string)
    ensures !Less(a, a)
    ensures Less(a, b) || a == b || Less(b, a)
    ensures !(Less(a, b) && Less(b, a))
  {
    if a != "" {
      LessTotal(a[1..], if b == "" then "" else b[1..]);
      if b != "" && a[0] == b[0] && a[1..] == b[1..] {
        assert a == [a[0]] + a[1..] && b == [b[0]] + b[1..];
      }
    }
  }

  lemma {:induction false} LessTransitive(a: string, b: string, c: string)
    requires Less(a, b) && Less(b, c)
    ensures Less(a, c)
  {
    if a != "" && a[0] == b[0] == c[0] {
      LessTransitive(a[1..], b[1..], c[1..]);
    }
  }

  /** Position i goes before position j: by name, and as they came for equal names. */
  predicate Before(names: seq<string>, i: nat, j: nat)
    requires i < |names| && j < |names|
  {
    Less(names[i], names[j]) || (names[i] == names[j] && i < j)
  }

  lemma BeforeOrders(names: seq<string>, i: nat, j: nat, k: nat)
    requires i < |names| && j < |names| && k < |names|
    ensures Before(names, i, j) && Before(names, j, k) ==> Before(names, i, k)
    ensures i != j ==> Before(names, i, j) || Before(names, j, i)
    ensures !Before(names, i, i)
  {
    LessTotal(names[i], names[j]);
    LessTotal(names[i], names[i]);
    if Less(names[i], names[j]) && Less(names[j], names[k]) { LessTransitive(names[i], names[j], names[k]); }
  }

  /** Place position n after every position whose name is not greater. */
  function InsertAt(names: seq<string>, order: seq<nat>, n: nat): seq<nat>
    requires n < |names| && forall k | 0 <= k < |order| :: order[k] < |names|
  {
    if order == [] then [n]
    else
      var last := |order| - 1;
      if Less(names[n], names[order[last]]) then InsertAt(names, order[..last], n) + [order[last]] else order + [n]
  }

  /** The positions in sorted order. */
  function Order(names: seq<string>): (order: seq<nat>)
    ensures forall k | 0 <= k < |order| :: order[k] < |names|
    decreases |names|
  {
    OrderUpto(names, |names|)
  }

  function OrderUpto(names: seq<string>, n: nat): (order: seq<nat>)
    requires n <= |names|
    ensures forall k | 0 <= k < |order| :: order[k] < n
  {
    if n == 0 then []
    else
      InsertAtBounds(names, OrderUpto(names, n - 1), n - 1);
      InsertAt(names, OrderUpto(names, n - 1), n - 1)
  }

  lemma {:induction false} InsertAtBounds(names: seq<string>, order: seq<nat>, n: nat)
    requires n < |names| && forall k | 0 <= k < |order| :: order[k] < n
    ensures forall k | 0 <= k < |InsertAt(names, order, n)| :: InsertAt(names, order, n)[k] <= n
  {
    if order != [] {
      InsertAtBounds(names, order[..|order| - 1], n);
    }
  }

  /** Each of the first n positions once, each before the next. */
  ghost predicate Sorts(names: seq<string>, order: seq<nat>, n: nat)
    requires n <= |names|
  {
    && |order| == n
    && (forall k | 0 <= k < n :: order[k] < n)
    && (forall j, k | 0 <= j < k < n :: Before(names, order[j], order[k]))
    && (forall i: nat | i < n :: i in order)
  }

  ghost predicate Rising(names: seq<string>, order: seq<nat>)
    requires forall k | 0 <= k < |order| :: order[k] < |names|
  {
    forall j, k | 0 <= j < k < |order| :: Before(names, order[j], order[k])
  }

  lemma {:induction false} InsertKeeps(names: seq<string>, order: seq<nat>, n: nat)
    requires n < |names| && (forall k | 0 <= k < |order| :: order[k] < n) && Rising(names, order)
    ensures var all := InsertAt(names, order, n);
            && |all| == |order| + 1
            && (forall k | 0 <= k < |all| :: all[k] <= n)
            && Rising(names, all)
            && (forall i: nat :: i in all <==> i == n || i in order)
  {
    InsertAtBounds(names, order, n);
    if order != [] {
      var last := |order| - 1;
      assert order == order[..last] + [order[last]];
      InsertKeeps(names, order[..last], n);
      var all := InsertAt(names, order, n);
      if Less(names[n], names[order[last]]) {
        var front := InsertAt(names, order[..last], n);
        forall j, k | 0 <= j < k < |all| ensures Before(names, all[j], all[k]) {
          if k == |front| {
            assert front[j] in front;
            if front[j] != n {
              assert front[j] in order[..last];
            }
          }
        }
      } else {
        forall j, k | 0 <= j < k < |all| ensures Before(names, all[j], all[k]) {
          if k == |order| {
            LessTotal(names[order[last]], names[n]);
            BeforeOrders(names, all[j], order[last], n);
          }
        }
      }
    }
  }

  /** Sorting is a permutation, in name order, and stable. */
  lemma {:induction false} OrderSorts(names: seq<string>, n: nat)
    requires n <= |names|
    ensures Sorts(names, OrderUpto(names, n), n)
  {
    if n > 0 {
      OrderSorts(names, n - 1);
      InsertKeeps(names, OrderUpto(names, n - 1), n - 1);
    }
  }

  function Pick<T>(xs: seq<T>, order: seq<nat>): (r: seq<T>)
    requires forall k | 0 <= k < |order| :: order[k] < |xs|
    ensures |r| == |order|
  {
    seq(|order|, k requires 0 <= k < |order| => xs[order[k]])
  }

  function RowNames(rows: seq<Row>): (r: seq<string>)
    ensures |r| == |rows|
  {
    seq(|rows|, k requires 0 <= k < |rows| => rows[k].name)
  }

  function SortedRows(rows: seq<Row>): (r: seq<Row>)
  {
    Pick(rows, Order(RowNames(rows)))
  }

  // ---------------------------------------------------------------- grouping by parent

  function Under(rows: seq<Row>, parent: string): seq<Row> {
    if rows == [] then []
    else
      var last := rows[|rows| - 1];
      Under(rows[..|rows| - 1], parent) + (if last.parent == parent then [last] else [])
  }

  function Grouped(groups: map<string, seq<Row>>, parent: string): seq<Row> {
    if parent in groups then groups[parent] else []
  }

  method GroupByParent(rows: seq<Row>) returns (groups: map<string, seq<Row>>)
    ensures forall parent :: Grouped(groups, parent) == Under(rows, parent)
  {
    groups := map[];
    var i := 0;
    while i < |rows|
      invariant 0 <= i <= |rows|
      invariant forall parent :: Grouped(groups, parent) == Under(rows[..i], parent)
    {
      var r := rows[i];
      assert rows[..i + 1][..i] == rows[..i];
      assert Grouped(groups, r.parent) == Under(rows[..i], r.parent);
      groups := groups[r.parent := Grouped(groups, r.parent) + [r]];
      i := i + 1;
    }
    assert rows[..i] == rows;
  }

  // ---------------------------------------------------------------- the nested builder

  predicate Deeper(depth: Option<nat>, level: nat) {
    depth.None? || level < depth.value
  }

  /** The nested build, with so many calls left on the stack: None where Python
      would run out of them. */
  function Build(rows: seq<Row>, parent: string, depth: Option<nat>, level: nat, stack: nat): Option<seq<Genre>>
    decreases stack, 1, 0
  {
    if stack == 0 then None
    else
      var kids := Under(rows, parent);
      match BuildEach(rows, kids, depth, level, stack)
      case None => None
      case Some(built) => Some(Pick(built, Order(RowNames(kids))))
  }

  /** The nodes in the order of their rows; sorting them by name is sorting the rows. */
  function BuildEach(rows: seq<Row>, kids: seq<Row>, depth: Option<nat>, level: nat, stack: nat): (r: Option<seq<Genre>>)
    requires stack > 0
    ensures r.Some? ==> |r.value| == |kids|
    decreases stack, 0, |kids|
  {
    if kids == [] then Some([])
    else
      var n := |kids| - 1;
      var rest, below := BuildEach(rows, kids[..n], depth, level, stack), Below(rows, kids[n], depth, level, stack);
      if rest.None? || below.None? then None
      else Some(rest.value + [Genre(kids[n].id, kids[n].name, below.value)])
  }

  function Below(rows: seq<Row>, kid: Row, depth: Option<nat>, level: nat, stack: nat): Option<seq<Genre>>
    requires stack > 0
    decreases stack, 0, 0
  {
    if Deeper(depth, level) then Build(rows, kid.id, depth, level + 1, stack - 1) else Some([])
  }

  lemma {:induction false} BuildEachAt(rows: seq<Row>, kids: seq<Row>, depth: Option<nat>, level: nat, stack: nat, k: nat)
    requires stack > 0 && k < |kids|
    ensures var r, below := BuildEach(rows, kids, depth, level, stack), Below(rows, kids[k], depth, level, stack);
            if below.None? then r.None? else r.Some? ==> r.value[k] == Genre(kids[k].id, kids[k].name, below.value)
    decreases |kids|
  {
    if k < |kids| - 1 {
      BuildEachAt(rows, kids[..|kids| - 1], depth, level, stack, k);
    }
  }

  predicate CanBuild(rows: seq<Row>, kid: Row, depth: Option<nat>, level: nat, stack: nat)
    requires stack > 0
  {
    Below(rows, kid, depth, level, stack).Some?
  }

  ghost predicate AllBuilt(rows: seq<Row>, kids: seq<Row>, depth: Option<nat>, level: nat, stack: nat)
    requires stack > 0
  {
    forall k | 0 <= k < |kids| :: CanBuild(rows, kids[k], depth, level, stack)
  }

  lemma {:induction false} BuildEachSome(rows: seq<Row>, kids: seq<Row>, depth: Option<nat>, level: nat, stack: nat)
    requires stack > 0 && AllBuilt(rows, kids, depth, level, stack)
    ensures BuildEach(rows, kids, depth, level, stack).Some?
    decreases |kids|
  {
    if kids != [] {
      BuildEachSome(rows, kids[..|kids| - 1], depth, level, stack);
    }
  }

  /** A depth limit bounds the recursion whatever the rows, cyclic ones included. */
  lemma {:induction false} LimitedBuildEnds(rows: seq<Row>, parent: string, depth: nat, level: nat, stack: nat)
    requires 1 <= level <= depth && stack > depth - level
    ensures Build(rows, parent, Some(depth), level, stack).Some?
    decreases stack
  {
    var kids := Under(rows, parent);
    forall k | 0 <= k < |kids| ensures CanBuild(rows, kids[k], Some(depth), level, stack) {
      if level < depth { LimitedBuildEnds(rows, kids[k].id, depth, level + 1, stack - 1); }
    }
    BuildEachSome(rows, kids, Some(depth), level, stack);
  }

  /** What a build comes to does not depend on the stack it had to spare. */
  lemma {:induction false} MoreStack(rows: seq<Row>, parent: string, depth: Option<nat>, level: nat, stack: nat, more: nat)
    requires stack <= more && Build(rows, parent, depth, level, stack).Some?
    ensures Build(rows, parent, depth, level, more) == Build(rows, parent, depth, level, stack)
    decreases stack, 1, 0
  {
    MoreStackEach(rows, Under(rows, parent), depth, level, stack, more);
  }

  lemma {:induction false} MoreStackEach(rows: seq<Row>, kids: seq<Row>, depth: Option<nat>, level: nat, stack: nat, more: nat)
    requires 0 < stack <= more && BuildEach(rows, kids, depth, level, stack).Some?
    ensures BuildEach(rows, kids, depth, level, more) == BuildEach(rows, kids, depth, level, stack)
    decreases stack, 0, |kids|
  {
    if kids != [] {
      var n := |kids| - 1;
      hide Build;
      MoreStackEach(rows, kids[..n], depth, level, stack, more);
      if Deeper(depth, level) {
        MoreStack(rows, kids[n].id, depth, level + 1, stack - 1, more - 1);
      }
    }
  }

  /** A level of the flat form takes one frame of the interpreter; one of the nested
      form takes two, the builder's and its generator's. */
  const FLAT_FRAMES: nat := 1
  const NESTED_FRAMES: nat := 2

  /** So on rows where the nested form finishes the flat one does, with the same tree;
      the other way round it needs twice the frames. */
  lemma NestedFinishesFlatFinishes(rows: seq<Row>, depth: Option<nat>, frames: nat)
    ensures Build(rows, "", depth, 1, frames / NESTED_FRAMES).Some? ==>
              Build(rows, "", depth, 1, frames / FLAT_FRAMES) == Build(rows, "", depth, 1, frames / NESTED_FRAMES)
    ensures Build(rows, "", depth, 1, frames / FLAT_FRAMES).Some? ==>
              Build(rows, "", depth, 1, 2 * frames / NESTED_FRAMES) == Build(rows, "", depth, 1, frames / FLAT_FRAMES)
  {
    hide Build;
    if Build(rows, "", depth, 1, frames / NESTED_FRAMES).Some? {
      MoreStack(rows, "", depth, 1, frames / NESTED_FRAMES, frames / FLAT_FRAMES);
    }
  }

  // ---------------------------------------------------------------- the flat builder

  /** A nested forest read root first, each node with the path that leads to it. */
  function Preorder(forest: seq<Genre>, path: seq<Ancestor>): seq<FlatNode> {
    if forest == [] then []
    else
      var n := forest[|forest| - 1];
      Preorder(forest[..|forest| - 1], path)
      + [FlatNode(n.id, n.name, path)] + Preorder(n.children, path + [Ancestor(n.id, n.name)])
  }

  /** The flat form is exactly the preorder of the nested form, whatever the rows
      and the depth limit, and runs out of stack exactly when that does, the stack
      counted in levels. */
  method BuildFlat(rows: seq<Row>, groups: map<string, seq<Row>>, parent: string, depth: Option<nat>, ancestors: seq<Ancestor>, stack: nat)
    returns (out: Option<seq<FlatNode>>)
    requires forall p :: Grouped(groups, p) == Under(rows, p)
    requires depth.Some? ==> |ancestors| < depth.value
    ensures var nested := Build(rows, parent, depth, |ancestors| + 1, stack);
            out == if nested.None? then None else Some(Preorder(nested.value, ancestors))
    decreases stack
  {
    hide Build, BuildEach, Below, Built, Preorder, Under, SortedRows, Grouped;
    NoStack(rows, parent, depth, |ancestors| + 1);
    if stack == 0 {
      return None;
    }
    var level := |ancestors| + 1;
    var sorted := SortedRows(Grouped(groups, parent));
    assert sorted == SortedRows(Under(rows, parent));
    var flat: seq<FlatNode> := [];
    NothingBuilt(rows, depth, level, stack, ancestors);
    assert sorted[..0] == [];
    var i := 0;
    while i < |sorted|
      invariant 0 <= i <= |sorted|
      invariant AllBuilt(rows, sorted[..i], depth, level, stack)
      invariant flat == Preorder(Built(rows, sorted[..i], depth, level, stack), ancestors)
    {
      var n := sorted[i];
      PreorderStep(rows, sorted, i, depth, level, stack, ancestors);
      if depth.None? || level <= depth.value {
        flat := flat + [FlatNode(n.id, n.name, ancestors)];
      }
      if depth.None? || level < depth.value {
        var below := BuildFlat(rows, groups, n.id, depth, ancestors + [Ancestor(n.id, n.name)], stack - 1);
        if below.None? {
          BuildFails(rows, parent, depth, level, stack, i);
          return None;
        }
        flat := flat + below.value;
      }
      i := i + 1;
    }
    assert sorted[..i] == sorted;
    BuiltIsBuild(rows, parent, depth, level, stack);
    out := Some(flat);
  }

  lemma NothingBuilt(rows: seq<Row>, depth: Option<nat>, level: nat, stack: nat, path: seq<Ancestor>)
    requires stack > 0
    ensures Preorder(Built(rows, [], depth, level, stack), path) == []
  {
  }

  lemma NoStack(rows: seq<Row>, parent: string, depth: Option<nat>, level: nat)
    ensures Build(rows, parent, depth, level, 0) == None
  {
  }

  lemma PreorderStep(rows: seq<Row>, kids: seq<Row>, i: nat, depth: Option<nat>, level: nat, stack: nat, path: seq<Ancestor>)
    requires stack > 0 && i < |kids|
    ensures var n, below := kids[i], Below(rows, kids[i], depth, level, stack);
            && (below.Some? ==>
                  Preorder(Built(rows, kids[..i + 1], depth, level, stack), path) ==
                  Preorder(Built(rows, kids[..i], depth, level, stack), path)
                  + [FlatNode(n.id, n.name, path)] + Preorder(below.value, path + [Ancestor(n.id, n.name)]))
            && below == (if Deeper(depth, level) then Build(rows, n.id, depth, level + 1, stack - 1) else Some([]))
            && Preorder([], path + [Ancestor(n.id, n.name)]) == []
  {
    hide Build;
    var all := Built(rows, kids[..i + 1], depth, level, stack);
    assert kids[..i + 1][..i] == kids[..i];
    assert all[..i] == Built(rows, kids[..i], depth, level, stack);
  }

  /** One child that cannot be built fails the whole build. */
  lemma BuildFails(rows: seq<Row>, parent: string, depth: Option<nat>, level: nat, stack: nat, i: nat)
    requires stack > 0
    requires var sorted := SortedRows(Under(rows, parent)); i < |sorted| && Below(rows, sorted[i], depth, level, stack).None?
    ensures Build(rows, parent, depth, level, stack).None?
  {
    var kids := Under(rows, parent);
    BuildIs(rows, parent, depth, level, stack);
    BuildEachAt(rows, kids, depth, level, stack, Order(RowNames(kids))[i]);
  }

  /** The nodes of these rows, where each can be built. */
  function Built(rows: seq<Row>, kids: seq<Row>, depth: Option<nat>, level: nat, stack: nat): (r: seq<Genre>)
    requires stack > 0
    ensures |r| == |kids|
    decreases |kids|
  {
    if kids == [] then []
    else
      var n := |kids| - 1;
      var below := Below(rows, kids[n], depth, level, stack);
      Built(rows, kids[..n], depth, level, stack) + [Genre(kids[n].id, kids[n].name, if below.None? then [] else below.value)]
  }

  lemma {:induction false} BuiltAt(rows: seq<Row>, kids: seq<Row>, depth: Option<nat>, level: nat, stack: nat, k: nat)
    requires stack > 0 && k < |kids|
    ensures var below := Below(rows, kids[k], depth, level, stack);
            Built(rows, kids, depth, level, stack)[k] == Genre(kids[k].id, kids[k].name, if below.None? then [] else below.value)
    decreases |kids|
  {
    if k < |kids| - 1 {
      BuiltAt(rows, kids[..|kids| - 1], depth, level, stack, k);
    }
  }

  /** Building the sorted rows is sorting the built nodes. */
  lemma BuiltIsBuild(rows: seq<Row>, parent: string, depth: Option<nat>, level: nat, stack: nat)
    requires stack > 0
    requires AllBuilt(rows, SortedRows(Under(rows, parent)), depth, level, stack)
    ensures Build(rows, parent, depth, level, stack) == Some(Built(rows, SortedRows(Under(rows, parent)), depth, level, stack))
  {
    var kids := Under(rows, parent);
    var order, sorted := Order(RowNames(kids)), SortedRows(kids);
    OrderSorts(RowNames(kids), |kids|);
    forall k | 0 <= k < |kids| ensures CanBuild(rows, kids[k], depth, level, stack) {
      assert order == OrderUpto(RowNames(kids), |kids|);
      var position: nat := k;
      assert position in order;
      var j :| 0 <= j < |order| && order[j] == position;
      assert CanBuild(rows, sorted[j], depth, level, stack);
    }
    BuildEachSome(rows, kids, depth, level, stack);
    var each := BuildEach(rows, kids, depth, level, stack).value;
    var built := Built(rows, sorted, depth, level, stack);
    forall j | 0 <= j < |order| ensures Pick(each, order)[j] == built[j] {
      BuildEachAt(rows, kids, depth, level, stack, order[j]);
      BuiltAt(rows, sorted, depth, level, stack, j);
    }
    assert Pick(each, order) == built;
    BuildIs(rows, parent, depth, level, stack);
  }

  lemma BuildIs(rows: seq<Row>, parent: string, depth: Option<nat>, level: nat, stack: nat)
    requires stack > 0
    ensures var kids := Under(rows, parent);
            var each := BuildEach(rows, kids, depth, level, stack);
            Build(rows, parent, depth, level, stack) == if each.None? then None else Some(Pick(each.value, Order(RowNames(kids))))
  {
  }

  /** These ancestors name a way down the forest, one node a level, to a node of this
      id and name. */
  ghost predicate LeadsDown(forest: seq<Genre>, ancestors: seq<Ancestor>, id: string, name: string)
    decreases |ancestors|
  {
    if ancestors == [] then exists i :: 0 <= i < |forest| && forest[i].id == id && forest[i].name == name
    else exists i :: 0 <= i < |forest| && Ancestor(forest[i].id, forest[i].name) == ancestors[0] &&
                     LeadsDown(forest[i].children, ancestors[1..], id, name)
  }

  /** A flat node is found by its ancestors, from the top level down, and comes after its parent. */
  ghost predicate PlacedBelow(forest: seq<Genre>, path: seq<Ancestor>, flat: seq<FlatNode>, k: nat)
    requires k < |flat|
  {
    var up := flat[k].ancestors;
    && path <= up && LeadsDown(forest, up[|path|..], flat[k].id, flat[k].name)
    && (|up| > |path| ==>
          exists j :: 0 <= j < k && flat[j] == FlatNode(up[|up| - 1].id, up[|up| - 1].name, up[..|up| - 1]))
  }

  function NodeCount(forest: seq<Genre>): nat {
    if forest == [] then 0
    else NodeCount(forest[..|forest| - 1]) + 1 + NodeCount(forest[|forest| - 1].children)
  }

  lemma LeadsDownMore(forest: seq<Genre>, ancestors: seq<Ancestor>, id: string, name: string)
    requires forest != [] && LeadsDown(forest[..|forest| - 1], ancestors, id, name)
    ensures LeadsDown(forest, ancestors, id, name)
  {
    var less := forest[..|forest| - 1];
    if ancestors == [] {
      var i :| 0 <= i < |less| && less[i].id == id && less[i].name == name;
      assert forest[i] == less[i];
    } else {
      var i :| 0 <= i < |less| && Ancestor(less[i].id, less[i].name) == ancestors[0] && LeadsDown(less[i].children, ancestors[1..], id, name);
      assert forest[i] == less[i];
    }
  }

  /** The flat form has a node for every node of the tree, each with the way down to it. */
  lemma {:induction false} FlatTellsThePlace(forest: seq<Genre>, path: seq<Ancestor>)
    ensures |Preorder(forest, path)| == NodeCount(forest)
    ensures forall k: nat | k < |Preorder(forest, path)| :: PlacedBelow(forest, path, Preorder(forest, path), k)
  {
    if forest != [] {
      hide LeadsDown;
      var n := forest[|forest| - 1];
      var before, down := forest[..|forest| - 1], path + [Ancestor(n.id, n.name)];
      var a, c := Preorder(before, path), Preorder(n.children, down);
      FlatTellsThePlace(before, path);
      FlatTellsThePlace(n.children, down);
      var all := Preorder(forest, path);
      assert all == a + [FlatNode(n.id, n.name, path)] + c;
      forall k: nat | k < |all| ensures PlacedBelow(forest, path, all, k) {
        if k < |a| {
          EarlierPlaced(forest, path, all, k);
        } else if k == |a| {
          OwnPlace(forest, path, all, k);
        } else {
          ChildPlaced(forest, path, all, k);
        }
      }
    }
  }

  lemma EarlierPlaced(forest: seq<Genre>, path: seq<Ancestor>, all: seq<FlatNode>, k: nat)
    requires forest != [] && all == Preorder(forest, path)
    requires var a := Preorder(forest[..|forest| - 1], path); k < |a| && PlacedBelow(forest[..|forest| - 1], path, a, k)
    ensures PlacedBelow(forest, path, all, k)
  {
    hide LeadsDown;
    var n, a := forest[|forest| - 1], Preorder(forest[..|forest| - 1], path);
    var c := Preorder(n.children, path + [Ancestor(n.id, n.name)]);
    assert all == a + [FlatNode(n.id, n.name, path)] + c;
    hide Preorder;
    var up := a[k].ancestors;
    assert all[k] == a[k];
    LeadsDownMore(forest, up[|path|..], a[k].id, a[k].name);
    if |up| > |path| {
      var j :| 0 <= j < k && a[j] == FlatNode(up[|up| - 1].id, up[|up| - 1].name, up[..|up| - 1]);
      assert all[j] == a[j];
    }
  }

  lemma OwnPlace(forest: seq<Genre>, path: seq<Ancestor>, all: seq<FlatNode>, k: nat)
    requires forest != [] && all == Preorder(forest, path) && k == |Preorder(forest[..|forest| - 1], path)|
    requires k < |all|
    ensures PlacedBelow(forest, path, all, k)
  {
    var n := forest[|forest| - 1];
    assert all[k] == FlatNode(n.id, n.name, path);
    assert path[|path|..] == [];
    assert forest[|forest| - 1].id == n.id;
  }

  lemma ChildPlaced(forest: seq<Genre>, path: seq<Ancestor>, all: seq<FlatNode>, k: nat)
    requires forest != [] && all == Preorder(forest, path) && |Preorder(forest[..|forest| - 1], path)| < k < |all|
    requires var n := forest[|forest| - 1];
             var down := path + [Ancestor(n.id, n.name)];
             var c, m := Preorder(n.children, down), k - |Preorder(forest[..|forest| - 1], path)| - 1;
             0 <= m < |c| && PlacedBelow(n.children, down, c, m)
    ensures PlacedBelow(forest, path, all, k)
  {
    hide LeadsDown;
    var n, a := forest[|forest| - 1], Preorder(forest[..|forest| - 1], path);
    var down := path + [Ancestor(n.id, n.name)];
    var c, m := Preorder(n.children, down), k - |a| - 1;
    assert all == a + [FlatNode(n.id, n.name, path)] + c;
    hide Preorder;
    assert all[k] == c[m];
    var up := c[m].ancestors;
    assert up[|path|] == down[|path|] == Ancestor(n.id, n.name) && up[|path|..][1..] == up[|down|..];
    assert up[..|path|] == down[..|path|] == path;
    LeadsDownHere(forest, up[|path|..], c[m].id, c[m].name);
    if |up| > |down| {
      var j :| 0 <= j < m && c[j] == FlatNode(up[|up| - 1].id, up[|up| - 1].name, up[..|up| - 1]);
      assert all[|a| + 1 + j] == c[j];
    } else {
      assert up == down && up[..|up| - 1] == path && all[|a|] == FlatNode(n.id, n.name, path);
    }
  }

  lemma LeadsDownHere(forest: seq<Genre>, ancestors: seq<Ancestor>, id: string, name: string)
    requires forest != [] && ancestors != []
    requires var n := forest[|forest| - 1];
             ancestors[0] == Ancestor(n.id, n.name) && LeadsDown(n.children, ancestors[1..], id, name)
    ensures LeadsDown(forest, ancestors, id, name)
  {
    assert forest[|forest| - 1].children == forest[|forest| - 1].children;
  }

  /** build_category_tree: the two forms from one grouping; the depth is checked
      before either. */
  datatype Shaped = BadDepth | OutOfStack | Nested(forest: seq<Genre>) | Flat(nodes: seq<FlatNode>)

  method BuildCategoryTree(rows: seq<Row>, flat: bool, depth: Option<int>, stack: nat) returns (shaped: Shaped)
    ensures shaped == BadDepth <==> depth.Some? && depth.value < 1
    ensures shaped != BadDepth ==>
              var limit := if depth.None? then None else Some(depth.value as nat);
              var nested := Build(rows, "", limit, 1, stack);
              shaped == if nested.None? then OutOfStack
                        else if flat then Flat(Preorder(nested.value, [])) else Nested(nested.value)
  {
    if depth.Some? && depth.value < 1 {
      return BadDepth;
    }
    var limit: Option<nat> := if depth.None? then None else Some(depth.value);
    var groups := GroupByParent(rows);
    if flat {
      var out := BuildFlat(rows, groups, "", limit, [], stack);
      shaped := if out.None? then OutOfStack else Flat(out.value);
    } else {
      var nested := Build(rows, "", limit, 1, stack);
      shaped := if nested.None? then OutOfStack else Nested(nested.value);
    }
  }

  // ---------------------------------------------------------------- what a taxonomy is

  /** Every node at every depth. */
  ghost function AllNodes(list: seq<Genre>): set<Genre> {
    if list == [] then {} else {list[0]} + AllNodes(list[0].children) + AllNodes(list[1..])
  }

  function Height(list: seq<Genre>): nat {
    if list == [] then 0 else Max(1 + Height(list[0].children), Height(list[1..]))
  }

  function Max(a: nat, b: nat): nat {
    if a < b then b else a
  }

  /** Every node has an id and a name, and its id decides its whole subtree. */
  ghost predicate Consistent(nodes: set<Genre>) {
    && (forall n | n in nodes :: n.id != "" && n.name != "")
    && (forall m, n | m in nodes && n in nodes && m.id == n.id :: m == n)
  }

  lemma {:induction false} NodesSmaller(list: seq<Genre>, n: Genre)
    requires n in AllNodes(list)
    ensures Height(n.children) < Height(list) && AllNodes(n.children) <= AllNodes(list)
  {
    if n in AllNodes(list[0].children) {
      NodesSmaller(list[0].children, n);
    } else if n in AllNodes(list[1..]) {
      NodesSmaller(list[1..], n);
    }
  }

  lemma {:induction false} MembersAreNodes(list: seq<Genre>, n: Genre)
    requires n in list
    ensures n in AllNodes(list)
  {
    if list[0] != n {
      assert list == [list[0]] + list[1..];
      MembersAreNodes(list[1..], n);
    }
  }

  /** So no node lies under one with its own id: the rows have no cycle. */
  lemma NotBelowItself(nodes: set<Genre>, n: Genre)
    requires Consistent(nodes) && n in nodes && AllNodes(n.children) <= nodes
    ensures forall m | m in AllNodes(n.children) :: m.id != n.id
  {
    forall m | m in AllNodes(n.children) ensures m.id != n.id {
      NodesSmaller(n.children, m);
    }
  }

  // ---------------------------------------------------------------- the rows under one parent

  function ChildRows(list: seq<Genre>, parent: string): (r: seq<Row>)
    ensures |r| == |list|
  {
    seq(|list|, k requires 0 <= k < |list| => Row(list[k].id, list[k].name, parent))
  }

  lemma {:induction false} UnderConcat(a: seq<Row>, b: seq<Row>, parent: string)
    ensures Under(a + b, parent) == Under(a, parent) + Under(b, parent)
    decreases |b|
  {
    if b == [] {
      assert a + b == a;
    } else {
      assert (a + b)[..|a + b| - 1] == a + b[..|b| - 1];
      UnderConcat(a, b[..|b| - 1], parent);
    }
  }

  /** The rows under p among one list's visits, in three parts. */
  lemma VisitsUnder(list: seq<Genre>, parent: string, p: string)
    requires list != [] && list[0].id != "" && list[0].name != ""
    ensures var below := Under(Visits(list[0].children, list[0].id), p) + Under(Visits(list[1..], parent), p);
            Under(Visits(list, parent), p) == if parent == p then [Row(list[0].id, list[0].name, parent)] + below else below
  {
    var row := [Row(list[0].id, list[0].name, parent)];
    var below, rest := Visits(list[0].children, list[0].id), Visits(list[1..], parent);
    assert Visits(list, parent) == (row + below) + rest;
    OneRow(row[0], p);
    hide Visits, Under;
    UnderConcat(row + below, rest, p);
    UnderConcat(row, below, p);
    Associates(Under(row, p), Under(below, p), Under(rest, p));
    assert [] + (Under(below, p) + Under(rest, p)) == Under(below, p) + Under(rest, p);
  }

  lemma OneRow(r: Row, p: string)
    ensures Under([r], p) == if r.parent == p then [r] else []
  {
    assert [r][..0] == [];
  }

  lemma Associates(a: seq<Row>, b: seq<Row>, c: seq<Row>)
    ensures (a + b) + c == a + (b + c)
  {
  }

  lemma {:induction false} Elsewhere(list: seq<Genre>, parent: string, p: string)
    requires forall m | m in AllNodes(list) :: m.id != p && m.id != "" && m.name != ""
    ensures Under(Visits(list, parent), p) == if parent == p then ChildRows(list, p) else []
    decreases list
  {
    hide Under, Visits;
    if list == [] {
      NoRows(parent, p);
    } else {
      assert list[0] in AllNodes(list) && AllNodes(list[0].children) <= AllNodes(list) && AllNodes(list[1..]) <= AllNodes(list);
      Elsewhere(list[0].children, list[0].id, p);
      Elsewhere(list[1..], parent, p);
      hide AllNodes;
      VisitsUnder(list, parent, p);
      assert ChildRows(list, p) == [Row(list[0].id, list[0].name, p)] + ChildRows(list[1..], p);
    }
  }

  lemma NoRows(parent: string, p: string)
    ensures Under(Visits([], parent), p) == []
  {
  }

  function Times(rows: seq<Row>, k: nat): seq<Row> {
    if k == 0 then [] else rows + Times(rows, k - 1)
  }

  lemma {:induction false} TimesAdd(rows: seq<Row>, a: nat, b: nat)
    ensures Times(rows, a) + Times(rows, b) == Times(rows, a + b)
  {
    if a > 0 {
      TimesAdd(rows, a - 1, b);
    }
  }

  /** How often a node sits in the tree. */
  function Count(list: seq<Genre>, n: Genre): nat {
    if list == [] then 0
    else (if list[0] == n then 1 else Count(list[0].children, n)) + Count(list[1..], n)
  }

  lemma {:induction false} NodesAreCounted(list: seq<Genre>, n: Genre)
    requires n in AllNodes(list)
    ensures Count(list, n) > 0
  {
    if n in AllNodes(list[0].children) {
      NodesAreCounted(list[0].children, n);
    } else if n in AllNodes(list[1..]) {
      NodesAreCounted(list[1..], n);
    }
  }

  /** Where the node itself sits, its children's rows come once. */
  lemma OwnRows(nodes: set<Genre>, n: Genre)
    requires Consistent(nodes) && n in nodes && AllNodes(n.children) <= nodes
    ensures Under(Visits(n.children, n.id), n.id) == Times(ChildRows(n.children, n.id), 1)
  {
    NotBelowItself(nodes, n);
    assert forall m | m in AllNodes(n.children) :: m in nodes;
    Elsewhere(n.children, n.id, n.id);
    var rows := ChildRows(n.children, n.id);
    assert Times(rows, 1) == rows by { assert Times(rows, 0) == []; }
  }

  /** Each place the node sits in repeats the rows of its children. */
  lemma {:induction false} Repeats(nodes: set<Genre>, list: seq<Genre>, parent: string, n: Genre)
    requires Consistent(nodes) && n in nodes && AllNodes(n.children) <= nodes && AllNodes(list) <= nodes && parent != n.id
    ensures Under(Visits(list, parent), n.id) == Times(ChildRows(n.children, n.id), Count(list, n))
    decreases list
  {
    hide Under, Visits, Times, ChildRows, Consistent, AllNodes, Count;
    if list == [] {
      NoneToRepeat(parent, n);
    } else {
      var m := list[0];
      FirstNode(nodes, list, n);
      CountFirst(list, n);
      var here := if m == n then 1 else Count(m.children, n);
      if m == n { OwnRows(nodes, n); } else { Repeats(nodes, m.children, m.id, n); }
      Repeats(nodes, list[1..], parent, n);
      VisitsUnder(list, parent, n.id);
      TimesAdd(ChildRows(n.children, n.id), here, Count(list[1..], n));
    }
  }

  lemma CountFirst(list: seq<Genre>, n: Genre)
    requires list != []
    ensures Count(list, n) == (if list[0] == n then 1 else Count(list[0].children, n)) + Count(list[1..], n)
  {
  }

  lemma FirstNode(nodes: set<Genre>, list: seq<Genre>, n: Genre)
    requires Consistent(nodes) && n in nodes && list != [] && AllNodes(list) <= nodes
    ensures AllNodes(list[0].children) <= nodes && AllNodes(list[1..]) <= nodes
    ensures list[0].id != "" && list[0].name != "" && (list[0].id == n.id ==> list[0] == n)
  {
    assert list[0] in AllNodes(list);
  }

  lemma NoneToRepeat(parent: string, n: Genre)
    ensures Under(Visits([], parent), n.id) == [] == Times(ChildRows(n.children, n.id), 0) && Count([], n) == 0
  {
  }

  // ---------------------------------------------------------------- dropping repeated rows

  lemma {:induction false} SeenUnder(rows: seq<Row>, id: string, parent: string)
    ensures Seen(Under(rows, parent), id, parent) <==> Seen(rows, id, parent)
  {
    if rows != [] {
      var n := |rows| - 1;
      var before, last := rows[..n], rows[n];
      SeenUnder(before, id, parent);
      assert rows == before + [last];
      SeenMore(before, last);
      SeenMore(Under(before, parent), last);
      assert Under(rows, parent) == if last.parent == parent then Under(before, parent) + [last] else Under(before, parent);
    }
  }

  /** Grouping by parent and dropping repeats commute. */
  lemma {:induction false} UnderDedup(kept: seq<Row>, rows: seq<Row>, parent: string)
    ensures Under(DedupOn(kept, rows), parent) == DedupOn(Under(kept, parent), Under(rows, parent))
    decreases |rows|
  {
    if rows != [] {
      var r, rest := rows[0], rows[1..];
      assert rows == [r] + rest && [r][..0] == [];
      UnderConcat([r], rest, parent);
      UnderConcat(kept, [r], parent);
      assert Under([r], parent) == if r.parent == parent then [r] else [];
      SeenUnder(kept, r.id, parent);
      UnderDedup(if Seen(kept, r.id, r.parent) then kept else kept + [r], rest, parent);
      if r.parent == parent {
        assert ([r] + Under(rest, parent))[1..] == Under(rest, parent);
      } else {
        assert Under(rows, parent) == Under(rest, parent);
        assert Under(kept + [r], parent) == Under(kept, parent);
      }
    }
  }

  lemma {:induction false} DedupAllSeen(kept: seq<Row>, rows: seq<Row>)
    requires forall k | 0 <= k < |rows| :: Seen(kept, rows[k].id, rows[k].parent)
    ensures DedupOn(kept, rows) == kept
  {
    if rows != [] {
      DedupAllSeen(kept, rows[1..]);
    }
  }

  lemma {:induction false} DedupSees(kept: seq<Row>, rows: seq<Row>, id: string, parent: string)
    ensures Seen(DedupOn(kept, rows), id, parent) <==> Seen(kept, id, parent) || Seen(rows, id, parent)
    decreases |rows|
  {
    if rows != [] {
      var r := rows[0];
      DedupSees(if Seen(kept, r.id, r.parent) then kept else kept + [r], rows[1..], id, parent);
      SeenMore(kept, r);
      if Seen(rows, id, parent) {
        var k :| 0 <= k < |rows| && rows[k].id == id && rows[k].parent == parent;
        assert k > 0 ==> rows[1..][k - 1] == rows[k];
      }
      if Seen(rows[1..], id, parent) {
        var k :| 0 <= k < |rows[1..]| && rows[1..][k].id == id && rows[1..][k].parent == parent;
        assert rows[k + 1].id == id;
      }
      assert r.id == id && r.parent == parent ==> Seen(rows, id, parent);
    }
  }

  lemma {:induction false} DedupTimes(rows: seq<Row>, k: nat)
    requires k > 0
    ensures DedupOn([], Times(rows, k)) == DedupOn([], rows)
  {
    assert Times(rows, 1) == rows by { assert Times(rows, 0) == []; }
    if k > 1 {
      DedupTimes(rows, k - 1);
      TimesAdd(rows, k - 1, 1);
      DedupConcat([], Times(rows, k - 1), rows);
      var kept := DedupOn([], rows);
      forall j | 0 <= j < |rows| ensures Seen(kept, rows[j].id, rows[j].parent) {
        DedupSees([], rows, rows[j].id, rows[j].parent);
      }
      DedupAllSeen(kept, rows);
    }
  }

  predicate HasId(list: seq<Genre>, id: string) {
    exists k :: 0 <= k < |list| && list[k].id == id
  }

  /** Siblings with one id are one node. */
  function DistinctOn(kept: seq<Genre>, list: seq<Genre>): (r: seq<Genre>)
    ensures forall n | n in r :: n in kept || n in list
    decreases |list|
  {
    if list == [] then kept
    else DistinctOn(if HasId(kept, list[0].id) then kept else kept + [list[0]], list[1..])
  }

  lemma {:induction false} DedupSiblings(kept: seq<Genre>, list: seq<Genre>, parent: string)
    ensures DedupOn(ChildRows(kept, parent), ChildRows(list, parent)) == ChildRows(DistinctOn(kept, list), parent)
    decreases |list|
  {
    if list != [] {
      var n := list[0];
      var rows := ChildRows(kept, parent);
      if HasId(kept, n.id) {
        var k :| 0 <= k < |kept| && kept[k].id == n.id;
        assert rows[k].id == n.id && rows[k].parent == parent;
      }
      if Seen(rows, n.id, parent) {
        var k :| 0 <= k < |rows| && rows[k].id == n.id && rows[k].parent == parent;
        assert kept[k].id == n.id;
      }
      assert ChildRows(list, parent)[1..] == ChildRows(list[1..], parent);
      assert ChildRows(kept + [n], parent) == rows + [Row(n.id, n.name, parent)];
      DedupSiblings(if HasId(kept, n.id) then kept else kept + [n], list[1..], parent);
    }
  }

  /** The flattened rows under a node are its children, each once. */
  lemma RowsUnder(forest: seq<Genre>, n: Genre)
    requires Consistent(AllNodes(forest)) && n in AllNodes(forest)
    ensures Under(DedupOn([], Visits(forest, "")), n.id) == ChildRows(DistinctOn([], n.children), n.id)
  {
    NodesSmaller(forest, n);
    NodesAreCounted(forest, n);
    var rows := ChildRows(n.children, n.id);
    UnderDedup([], Visits(forest, ""), n.id);
    Repeats(AllNodes(forest), forest, "", n);
    DedupTimes(rows, Count(forest, n));
    DedupSiblings([], n.children, n.id);
    assert ChildRows([], n.id) == [];
  }

  /** And those under "" are the top level's. */
  lemma RowsAtTheTop(forest: seq<Genre>)
    requires Consistent(AllNodes(forest))
    ensures Under(DedupOn([], Visits(forest, "")), "") == ChildRows(DistinctOn([], forest), "")
  {
    UnderDedup([], Visits(forest, ""), "");
    Elsewhere(forest, "", "");
    DedupSiblings([], forest, "");
    assert ChildRows([], "") == [];
  }

  // ---------------------------------------------------------------- the round trip

  function GenreNames(list: seq<Genre>): (r: seq<string>)
    ensures |r| == |list|
  {
    seq(|list|, k requires 0 <= k < |list| => list[k].name)
  }

  lemma ChildrenShorter(list: seq<Genre>, n: Genre)
    requires n in list
    ensures Height(n.children) < Height(list)
  {
    MembersAreNodes(list, n);
    NodesSmaller(list, n);
  }

  /** The tree itself, each sibling once and sorted by name at every level. */
  function SortedForest(list: seq<Genre>): seq<Genre>
    decreases Height(list), 1
  {
    var siblings := DistinctOn([], list);
    Pick(SortedEach(list, siblings), Order(GenreNames(siblings)))
  }

  function SortedEach(list: seq<Genre>, siblings: seq<Genre>): (r: seq<Genre>)
    requires forall n | n in siblings :: n in list
    ensures |r| == |siblings|
    decreases Height(list), 0
  {
    seq(|siblings|, k requires 0 <= k < |siblings| =>
      assert siblings[k] in siblings;
      ChildrenShorter(list, siblings[k]);
      Genre(siblings[k].id, siblings[k].name, SortedForest(siblings[k].children)))
  }

  /** A forest cut to the levels a depth limit lets through. */
  function CutTo(forest: seq<Genre>, depth: Option<nat>, level: nat): (r: seq<Genre>)
    ensures |r| == |forest|
  {
    seq(|forest|, k requires 0 <= k < |forest| =>
      Genre(forest[k].id, forest[k].name, if Deeper(depth, level) then CutTo(forest[k].children, depth, level + 1) else []))
  }

  lemma {:induction false} NoLimitCutsNothing(forest: seq<Genre>, level: nat)
    ensures CutTo(forest, None, level) == forest
    decreases forest
  {
    forall k | 0 <= k < |forest| ensures CutTo(forest, None, level)[k] == forest[k] {
      NoLimitCutsNothing(forest[k].children, level + 1);
    }
  }

  lemma {:induction false} HeightBound(forest: seq<Genre>, h: nat)
    ensures Height(forest) <= h <==> forall k | 0 <= k < |forest| :: 1 + Height(forest[k].children) <= h
  {
    if forest != [] {
      HeightBound(forest[1..], h);
      assert forest == [forest[0]] + forest[1..];
    }
  }

  /** A limit of d levels leaves at most d, and leaves a tree of at most d levels as it is. */
  lemma {:induction false} LimitLeavesItsLevels(forest: seq<Genre>, depth: nat, level: nat)
    requires level <= depth
    ensures Height(CutTo(forest, Some(depth), level)) == if Height(forest) <= depth - level + 1 then Height(forest) else depth - level + 1
    ensures Height(forest) <= depth - level + 1 ==> CutTo(forest, Some(depth), level) == forest
    decreases forest
  {
    var cut, levels := CutTo(forest, Some(depth), level), depth - level + 1;
    forall k | 0 <= k < |forest|
      ensures Height(cut[k].children) == if Height(forest[k].children) <= levels - 1 then Height(forest[k].children) else levels - 1
      ensures Height(forest[k].children) <= levels - 1 ==> cut[k] == forest[k]
    {
      if level < depth {
        LimitLeavesItsLevels(forest[k].children, depth, level + 1);
      } else {
        NoHeight(forest[k].children);
      }
    }
    HeightsAlike(forest, cut, levels);
    HeightBound(forest, levels);
  }

  lemma NoHeight(forest: seq<Genre>)
    ensures Height(forest) == 0 <==> forest == []
  {
  }

  lemma {:induction false} HeightsAlike(forest: seq<Genre>, cut: seq<Genre>, levels: nat)
    requires |cut| == |forest| && levels > 0
    requires forall k | 0 <= k < |forest| ::
               Height(cut[k].children) == if Height(forest[k].children) <= levels - 1 then Height(forest[k].children) else levels - 1
    ensures Height(cut) == if Height(forest) <= levels then Height(forest) else levels
  {
    if forest != [] {
      HeightsAlike(forest[1..], cut[1..], levels);
    }
  }

  /** What is built below a node, as a function of the tree. */
  function Cut(n: Genre, depth: Option<nat>, level: nat): seq<Genre> {
    if Deeper(depth, level) then CutTo(SortedForest(n.children), depth, level + 1) else []
  }

  /** Building from the flattened rows gives back the tree, sorted, to the depth asked. */
  lemma {:induction false} BuildsSorted(forest: seq<Genre>, rows: seq<Row>, list: seq<Genre>, parent: string, depth: Option<nat>, level: nat, stack: nat)
    requires Consistent(AllNodes(forest)) && rows == DedupOn([], Visits(forest, ""))
    requires AllNodes(list) <= AllNodes(forest) && stack > Height(list)
    requires Under(rows, parent) == ChildRows(DistinctOn([], list), parent)
    ensures Build(rows, parent, depth, level, stack) == Some(CutTo(SortedForest(list), depth, level))
    decreases stack, 1
  {
    var siblings := DistinctOn([], list);
    forall k | 0 <= k < |siblings|
      ensures Below(rows, ChildRows(siblings, parent)[k], depth, level, stack) == Some(Cut(siblings[k], depth, level))
    {
      assert siblings[k] in siblings;
      BuildsBelow(forest, rows, list, siblings[k], parent, depth, level, stack);
    }
    BuildsOneLevel(rows, list, parent, depth, level, stack);
  }

  /** Once every subtree is built right, so is the level that carries them. */
  lemma BuildsOneLevel(rows: seq<Row>, list: seq<Genre>, parent: string, depth: Option<nat>, level: nat, stack: nat)
    requires stack > 0 && Under(rows, parent) == ChildRows(DistinctOn([], list), parent)
    requires forall k | 0 <= k < |DistinctOn([], list)| ::
               Below(rows, ChildRows(DistinctOn([], list), parent)[k], depth, level, stack) == Some(Cut(DistinctOn([], list)[k], depth, level))
    ensures Build(rows, parent, depth, level, stack) == Some(CutTo(SortedForest(list), depth, level))
  {
    hide Build, Below, Under, DistinctOn, CutTo;
    var siblings := DistinctOn([], list);
    var kids := ChildRows(siblings, parent);
    assert forall k | 0 <= k < |kids| :: CanBuild(rows, kids[k], depth, level, stack);
    BuildEachSome(rows, kids, depth, level, stack);
    var each := BuildEach(rows, kids, depth, level, stack).value;
    assert RowNames(kids) == GenreNames(siblings);
    var order, sorted := Order(RowNames(kids)), SortedEach(list, siblings);
    var all := Pick(sorted, order);
    assert SortedForest(list) == all;
    forall j | 0 <= j < |order| ensures Pick(each, order)[j] == CutTo(all, depth, level)[j] {
      BuildEachAt(rows, kids, depth, level, stack, order[j]);
      CutToAt(all, depth, level, j);
    }
    assert Pick(each, order) == CutTo(all, depth, level);
    BuildIs(rows, parent, depth, level, stack);
  }

  lemma CutToAt(forest: seq<Genre>, depth: Option<nat>, level: nat, k: nat)
    requires k < |forest|
    ensures CutTo(forest, depth, level)[k] ==
            Genre(forest[k].id, forest[k].name, if Deeper(depth, level) then CutTo(forest[k].children, depth, level + 1) else [])
  {
  }

  lemma {:induction false} BuildsBelow(forest: seq<Genre>, rows: seq<Row>, list: seq<Genre>, n: Genre, parent: string,
                                       depth: Option<nat>, level: nat, stack: nat)
    requires Consistent(AllNodes(forest)) && rows == DedupOn([], Visits(forest, ""))
    requires AllNodes(list) <= AllNodes(forest) && stack > Height(list) && n in list
    ensures Below(rows, Row(n.id, n.name, parent), depth, level, stack) == Some(Cut(n, depth, level))
    decreases stack, 0
  {
    hide Build, BuildEach, DedupOn, Visits, Consistent, AllNodes, CutTo, SortedForest, Under, ChildRows, DistinctOn, Height;
    MembersAreNodes(list, n);
    NodesSmaller(list, n);
    RowsUnder(forest, n);
    if Deeper(depth, level) {
      BuildsSorted(forest, rows, n.children, n.id, depth, level + 1, stack - 1);
    }
  }

  /** Flatten, then build: the original tree sorted by name, cut at the depth
      asked, once the stack is deeper than the tree. */
  lemma RoundTrip(forest: seq<Genre>, depth: Option<nat>, stack: nat)
    requires Consistent(AllNodes(forest)) && stack > Height(forest)
    ensures Build(DedupOn([], Visits(forest, "")), "", depth, 1, stack) == Some(CutTo(SortedForest(forest), depth, 1))
    ensures Build(DedupOn([], Visits(forest, "")), "", None, 1, stack) == Some(SortedForest(forest))
  {
    RowsAtTheTop(forest);
    var rows := DedupOn([], Visits(forest, ""));
    BuildsSorted(forest, rows, forest, "", depth, 1, stack);
    BuildsSorted(forest, rows, forest, "", None, 1, stack);
    NoLimitCutsNothing(SortedForest(forest), 1);
  }

  // ---------------------------------------------------------------- what sorting leaves alone

  /** Siblings of distinct ids, in name order, all the way down. */
  ghost predicate InOrder(list: seq<Genre>) {
    && (forall j, k | 0 <= j < k < |list| :: list[j].id != list[k].id && !Less(list[k].name, list[j].name))
    && (forall k | 0 <= k < |list| :: InOrder(list[k].children))
  }

  lemma {:induction false} DistinctAlready(kept: seq<Genre>, list: seq<Genre>)
    requires forall j, k | 0 <= j < k < |kept + list| :: (kept + list)[j].id != (kept + list)[k].id
    ensures DistinctOn(kept, list) == kept + list
    decreases |list|
  {
    if list != [] {
      var n := |kept|;
      assert (kept + list)[n] == list[0];
      forall k | 0 <= k < n ensures kept[k].id != list[0].id {
        assert (kept + list)[k] == kept[k];
      }
      assert kept + [list[0]] + list[1..] == kept + list;
      DistinctAlready(kept + [list[0]], list[1..]);
    } else {
      assert kept + list == kept;
    }
  }

  lemma {:induction false} OrderAlready(names: seq<string>, n: nat)
    requires n <= |names| && forall j, k | 0 <= j < k < |names| :: !Less(names[k], names[j])
    ensures |OrderUpto(names, n)| == n && forall k | 0 <= k < n :: OrderUpto(names, n)[k] == k
  {
    if n > 0 {
      OrderAlready(names, n - 1);
    }
  }

  /** A tree in order is its own sorted form, so flatten and build give it back. */
  lemma {:induction false} SortedAlready(list: seq<Genre>)
    requires InOrder(list)
    ensures SortedForest(list) == list
    decreases list
  {
    NothingToSort(list);
    var each := SortedEach(list, list);
    forall k | 0 <= k < |list| ensures each[k] == list[k] {
      SortedAlready(list[k].children);
    }
    assert each == list;
    hide InOrder, DistinctOn, Order, SortedEach;
    var order := Order(GenreNames(list));
    assert Pick(each, order) == each;
  }

  lemma NothingToSort(list: seq<Genre>)
    requires InOrder(list)
    ensures DistinctOn([], list) == list
    ensures var order := Order(GenreNames(list)); |order| == |list| && forall k | 0 <= k < |list| :: order[k] == k
  {
    assert [] + list == list;
    DistinctAlready([], list);
    OrderAlready(GenreNames(list), |list|);
  }

  ghost predicate LeadsInto(rows: seq<Row>, ids: set<string>, id: string) {
    exists k :: 0 <= k < |Under(rows, id)| && Under(rows, id)[k].id in ids
  }

  lemma KidInside(rows: seq<Row>, ids: set<string>, id: string) returns (k: nat)
    requires LeadsInto(rows, ids, id)
    ensures k < |Under(rows, id)| && Under(rows, id)[k].id in ids
  {
    k :| 0 <= k < |Under(rows, id)| && Under(rows, id)[k].id in ids;
  }

  lemma OneFails(rows: seq<Row>, id: string, level: nat, stack: nat, k: nat)
    requires stack > 0 && k < |Under(rows, id)| && Build(rows, Under(rows, id)[k].id, None, level + 1, stack - 1) == None
    ensures Build(rows, id, None, level, stack) == None
  {
    var kids := Under(rows, id);
    assert Below(rows, kids[k], None, level, stack) == None;
    hide Below, Build, BuildEach, Under;
    BuildEachAt(rows, kids, None, level, stack, k);
    BuildIs(rows, id, None, level, stack);
  }

  /** Rows that lead back to themselves, as no taxonomy does, never finish building. */
  lemma {:induction false} CyclesNeverEnd(rows: seq<Row>, ids: set<string>, id: string, level: nat, stack: nat)
    requires id in ids && forall i | i in ids :: LeadsInto(rows, ids, i)
    ensures Build(rows, id, None, level, stack) == None
    decreases stack
  {
    hide LeadsInto, Build, BuildEach, Under;
    if stack > 0 {
      var k := KidInside(rows, ids, id);
      CyclesNeverEnd(rows, ids, Under(rows, id)[k].id, level + 1, stack - 1);
      OneFails(rows, id, level, stack, k);
    } else {
      NoStack(rows, id, None, level);
    }
  }
}
