/**
 libex_core/audible/extras.py: the sanitizer as it runs, on an explicit stack,
 linking each child container into its parent before filling it, and the bounds
 and the podcast strip built on it.
 */
module Extras {
  import opened Common
  import opened ExtrasWalk
  import opened Json

  const MAX_BYTES: nat := 65536

  /** What a container under construction holds: a finished value, or a
      reference to a container that may not be filled yet. */
  datatype Item = Leaf(value: Json) | Ref(node: Node)

  class Node {
    const isList: bool
    var items: seq<Item>
    var entries: seq<Pair<Item>>

    constructor (isList: bool)
      ensures this.isList == isList && items == [] && entries == []
    {
      this.isList := isList;
      items, entries := [], [];
    }
  }

  /** A source container, the copy being built from it, and that copy's depth. */
  datatype Frame = Frame(source: Json, target: Node, depth: nat)

  /** The heap below it reads as v. */
  ghost predicate Denotes(it: Item, v: Json, nodes: set<Node>)
    reads nodes
    decreases v
  {
    match v
    case List(items) =>
      && it.Ref? && it.node in nodes && it.node.isList
      && |it.node.items| == |items|
      && forall i | 0 <= i < |items| :: Denotes(it.node.items[i], items[i], nodes)
    case Obj(entries) =>
      && it.Ref? && it.node in nodes && !it.node.isList
      && |it.node.entries| == |entries|
      && forall i | 0 <= i < |entries| ::
           it.node.entries[i].key == entries[i].key && Denotes(it.node.entries[i].value, entries[i].value, nodes)
    case _ => it == Leaf(v)
  }

  // ---------------------------------------------------------------- one container

  function CleanKeysUpto(v: Json, n: nat): seq<string>
    requires v.Obj? && n <= |v.entries|
  {
    seq(n, i requires 0 <= i < n => StripNul(v.entries[i].key))
  }

  /** What child i contributes: its cleaned leaf, or a reference to a node that
      is being built from it. */
  ghost predicate Stands(child: Json, it: Item, src: map<Node, Json>) {
    if IsContainer(child) then it.Ref? && it.node in src && src[it.node] == child
    else it == Leaf(CleanLeaf(child))
  }

  /** Node n holds exactly the first |kids| children of v. */
  ghost predicate Holds(n: Node, v: Json, kids: seq<Item>, src: map<Node, Json>)
    requires IsContainer(v) && |kids| <= |Children(v)|
    reads n
  {
    && n.isList == v.List?
    && (forall i | 0 <= i < |kids| :: Stands(Children(v)[i], kids[i], src))
    && (if v.List? then n.items == kids && n.entries == []
        else n.items == [] && n.entries == PutAll(CleanKeysUpto(v, |kids|), kids))
  }

  /** The child containers among the first i children, in order. */
  function Containers(v: Json, i: nat): seq<Json>
    requires IsContainer(v) && i <= |Children(v)|
  {
    if i == 0 then []
    else Containers(v, i - 1) + (if IsContainer(Children(v)[i - 1]) then [Children(v)[i - 1]] else [])
  }

  function Size(v: Json): nat {
    match v
    case List(items) => 1 + SizeItems(items)
    case Obj(entries) => 1 + SizeEntries(entries)
    case _ => 1
  }

  function SizeItems(items: seq<Json>): nat {
    if items == [] then 0 else SizeItems(items[..|items| - 1]) + Size(items[|items| - 1])
  }

  function SizeEntries(entries: seq<Pair<Json>>): nat {
    if entries == [] then 0 else SizeEntries(entries[..|entries| - 1]) + Size(entries[|entries| - 1].value)
  }

  function SizeUpto(v: Json, i: nat): nat
    requires IsContainer(v) && i <= |Children(v)|
  {
    if v.List? then SizeItems(v.items[..i]) else SizeEntries(v.entries[..i])
  }

  lemma SizeUptoNext(v: Json, i: nat)
    requires IsContainer(v) && i < |Children(v)|
    ensures SizeUpto(v, i + 1) == SizeUpto(v, i) + Size(Children(v)[i])
  {
    if v.List? {
      assert v.items[..i + 1][..i] == v.items[..i];
    } else {
      assert v.entries[..i + 1][..i] == v.entries[..i];
    }
  }

  lemma SizeUptoAll(v: Json)
    requires IsContainer(v)
    ensures 1 + SizeUpto(v, |Children(v)|) == Size(v) && SizeUpto(v, 0) == 0
  {
    if v.List? {
      assert v.items[..|v.items|] == v.items;
    } else {
      assert v.entries[..|v.entries|] == v.entries;
    }
  }

  function StackSize(stack: seq<Frame>): nat {
    if stack == [] then 0 else StackSize(stack[..|stack| - 1]) + Size(stack[|stack| - 1].source)
  }

  // ---------------------------------------------------------------- the whole heap

  /** Every node begun is waiting on the stack, untouched, or holds its whole
      container. */
  ghost predicate Built(stack: seq<Frame>, src: map<Node, Json>, kids: map<Node, seq<Item>>)
    reads src.Keys
  {
    && (forall n | n in src :: IsContainer(src[n]))
    && kids.Keys <= src.Keys
    && (forall k | 0 <= k < |stack| :: stack[k].target in src && Waiting(stack[k], src, kids))
    && (forall i, j | 0 <= i < j < |stack| :: stack[i].target != stack[j].target)
    && (forall n | n in src && n !in kids :: OnStack(n, stack))
    && (forall n | n in kids :: |kids[n]| == |Children(src[n])| && Holds(n, src[n], kids[n], src))
  }

  ghost predicate OnStack(n: Node, stack: seq<Frame>) {
    exists k :: 0 <= k < |stack| && stack[k].target == n
  }

  ghost predicate Waiting(f: Frame, src: map<Node, Json>, kids: map<Node, seq<Item>>)
    reads f.target
  {
    && f.target in src && src[f.target] == f.source && f.target !in kids
    && f.target.isList == f.source.List? && f.target.items == [] && f.target.entries == []
    && f.depth <= MAX_DEPTH && IsContainer(f.source)
  }

  /** When nothing waits, the heap below a node reads as its container's copy. */
  lemma {:induction false} BuiltDenotes(n: Node, v: Json, src: map<Node, Json>, kids: map<Node, seq<Item>>)
    requires Built([], src, kids) && n in src && src[n] == v
    ensures Denotes(Ref(n), Clean(v), src.Keys)
    decreases v
  {
    assert n in kids;
    var items := kids[n];
    forall i | 0 <= i < |items|
      ensures Denotes(items[i], Clean(Children(v)[i]), src.Keys)
    {
      var child := Children(v)[i];
      assert Stands(child, items[i], src);
      if IsContainer(child) {
        BuiltDenotes(items[i].node, child, src, kids);
      }
    }
    if v.Obj? {
      var keys := CleanKeys(v.entries);
      assert CleanKeysUpto(v, |items|) == keys;
      LayoutOf(keys, items);
      LayoutOf(keys, CleanValues(v.entries));
      var d := PutAll(keys, CleanValues(v.entries));
      forall j | 0 <= j < |d|
        ensures n.entries[j].key == d[j].key && Denotes(n.entries[j].value, d[j].value, src.Keys)
      {
        assert LaidOut(keys, items, n.entries, Layout(keys), j);
        assert LaidOut(keys, CleanValues(v.entries), d, Layout(keys), j);
        assert Children(v)[Layout(keys)[j].value] == v.entries[Layout(keys)[j].value].value;
      }
    }
  }

  // ---------------------------------------------------------------- filling one container

  lemma SizePush(stack: seq<Frame>, f: Frame)
    ensures StackSize(stack + [f]) == StackSize(stack) + Size(f.source)
  {
    assert (stack + [f])[..|stack|] == stack;
  }

  lemma {:induction false} SizeConcat(a: seq<Frame>, b: seq<Frame>)
    ensures StackSize(a + b) == StackSize(a) + StackSize(b)
    decreases |b|
  {
    if b == [] {
      assert a + b == a;
    } else {
      var n := |b| - 1;
      assert a + b == (a + b[..n]) + [b[n]] && b == b[..n] + [b[n]];
      SizeConcat(a, b[..n]);
      SizePush(a + b[..n], b[n]);
      SizePush(b[..n], b[n]);
    }
  }

  function Sources(frames: seq<Frame>): (r: seq<Json>)
    ensures |r| == |frames|
  {
    seq(|frames|, k requires 0 <= k < |frames| => frames[k].source)
  }

  /** The frames pushed for a container's first i children. */
  ghost predicate Pushed(frames: seq<Frame>, v: Json, i: nat, depth: nat, src: map<Node, Json>)
    requires IsContainer(v) && i <= |Children(v)|
    reads src.Keys
  {
    && (forall k | 0 <= k < |frames| :: frames[k].target in src && Waiting(frames[k], src, map[]) && frames[k].depth == depth)
    && (forall j, k | 0 <= j < k < |frames| :: frames[j].target != frames[k].target)
    && Sources(frames) == Containers(v, i)
    && StackSize(frames) <= SizeUpto(v, i)
  }

  lemma PushedContainer(frames: seq<Frame>, v: Json, i: nat, depth: nat, src: map<Node, Json>, node: Node)
    requires IsContainer(v) && i < |Children(v)| && IsContainer(Children(v)[i]) && depth <= MAX_DEPTH
    requires Pushed(frames, v, i, depth, src)
    requires node !in src && node.isList == Children(v)[i].List? && node.items == [] && node.entries == []
    ensures Pushed(frames + [Frame(Children(v)[i], node, depth)], v, i + 1, depth, src[node := Children(v)[i]])
  {
    hide Size, SizeUpto, StackSize, Children;
    var f := Frame(Children(v)[i], node, depth);
    SizePush(frames, f);
    SizeUptoNext(v, i);
    assert Sources(frames + [f]) == Sources(frames) + [f.source];
    forall k | 0 <= k < |frames + [f]|
      ensures Waiting((frames + [f])[k], src[node := Children(v)[i]], map[])
    {
      if k < |frames| {
        assert Waiting(frames[k], src, map[]);
      }
    }
    forall k | 0 <= k < |frames|
      ensures frames[k].target != node
    {
      assert Waiting(frames[k], src, map[]);
    }
  }

  lemma PushedLeaf(frames: seq<Frame>, v: Json, i: nat, depth: nat, src: map<Node, Json>)
    requires IsContainer(v) && i < |Children(v)| && !IsContainer(Children(v)[i]) && depth <= MAX_DEPTH + 1
    requires Pushed(frames, v, i, depth, src)
    ensures Pushed(frames, v, i + 1, depth, src)
  {
    SizeUptoNext(v, i);
  }

  ghost predicate AllStand(v: Json, kids: seq<Item>, src: map<Node, Json>)
    requires IsContainer(v) && |kids| <= |Children(v)|
  {
    forall j | 0 <= j < |kids| :: Stands(Children(v)[j], kids[j], src)
  }

  lemma AllStandNext(v: Json, kids: seq<Item>, child: Item, src: map<Node, Json>, all: map<Node, Json>)
    requires IsContainer(v) && |kids| < |Children(v)| && AllStand(v, kids, src)
    requires src.Keys <= all.Keys && forall n | n in src :: all[n] == src[n]
    requires Stands(Children(v)[|kids|], child, all)
    ensures AllStand(v, kids + [child], all)
  {
    forall j | 0 <= j < |kids + [child]|
      ensures Stands(Children(v)[j], (kids + [child])[j], all)
    {
      assert j < |kids| ==> Stands(Children(v)[j], kids[j], src);
    }
  }

  /** target.append(child), or target[key] = child */
  method Link(target: Node, key: string, child: Item)
    modifies target
    ensures target.items == if target.isList then old(target.items) + [child] else old(target.items)
    ensures target.entries == if target.isList then old(target.entries) else Put(old(target.entries), StripNul(key), child)
  {
    if target.isList {
      target.items := target.items + [child];
    } else {
      target.entries := Put(target.entries, StripNul(key), child);
    }
  }

  lemma KeysUptoNext(v: Json, i: nat)
    requires v.Obj? && i < |v.entries|
    ensures CleanKeysUpto(v, i + 1) == CleanKeysUpto(v, i) + [StripNul(v.entries[i].key)]
  {
  }

  lemma PutAllNext<T>(keys: seq<string>, values: seq<T>, key: string, value: T)
    requires |keys| == |values|
    ensures PutAll(keys + [key], values + [value]) == Put(PutAll(keys, values), key, value)
  {
    assert (keys + [key])[..|keys|] == keys && (values + [value])[..|values|] == values;
  }

  /** What the walk of v has linked so far. */
  ghost predicate Linked(target: Node, v: Json, kids: seq<Item>)
    requires IsContainer(v) && |kids| <= |Children(v)|
    reads target
  {
    if v.List? then target.items == kids && target.entries == []
    else target.items == [] && target.entries == PutAll(CleanKeysUpto(v, |kids|), kids)
  }

  /** Fills one container from its source, counting what its own walk comes to, and
      hands back a frame for every child container; false when that walk is stopped. */
  method Fill(f: Frame, counts: Counts, ghost src: map<Node, Json>)
    returns (ok: bool, total: Counts, frames: seq<Frame>, ghost kids: seq<Item>, ghost all: map<Node, Json>)
    requires IsContainer(f.source) && f.depth <= MAX_DEPTH
    requires Waiting(f, src, map[])
    modifies f.target
    ensures ok <==> !Own(f.source, f.depth).stopped
    ensures total == Add(counts, Own(f.source, f.depth).counts)
    ensures ok ==>
      && Grown(src, all, frames) && fresh(all.Keys - src.Keys)
      && |kids| == |Children(f.source)| && Holds(f.target, f.source, kids, all)
      && PushedAt(frames, f.source, f.depth + 1, all)
  {
    hide Filling, Add, OwnUpto, Grown, Holds, PushedAt, Waiting, FirstContainer;
    var n := |Children(f.source)|;
    ok, total, frames, kids, all := true, counts, [], [], src;
    FillStarts(f, counts, src);
    var i := 0;
    while i < n
      invariant 0 <= i <= n && ok && |kids| == i
      invariant f.depth == MAX_DEPTH ==> forall j | 0 <= j < i :: !IsContainer(Children(f.source)[j])
      invariant Filling(f, total, counts, frames, kids, src, all) && fresh(all.Keys - src.Keys)
    {
      if f.depth + 1 > MAX_DEPTH && IsContainer(Children(f.source)[i]) {
        StoppedAt(f, total, counts, frames, kids, src, all);
        total := Add(total, KeyCount(f.source, i));
        ok := false;
        return;
      }
      total, frames, kids, all := FillNext(f, i, total, counts, frames, src, kids, all);
      i := i + 1;
    }
    FillEnds(f, total, counts, frames, kids, src, all);
  }

  /** Everything known after |kids| children of f's container. */
  ghost predicate Filling(f: Frame, total: Counts, counts: Counts, frames: seq<Frame>, kids: seq<Item>,
                          src: map<Node, Json>, all: map<Node, Json>)
    reads f.target, all.Keys
  {
    && IsContainer(f.source) && |kids| <= |Children(f.source)|
    && f.target in src && f.target.isList == f.source.List?
    && Grown(src, all, frames)
    && Linked(f.target, f.source, kids) && AllStand(f.source, kids, all)
    && Pushed(frames, f.source, |kids|, f.depth + 1, all)
    && total == Add(counts, OwnUpto(f.source, |kids|))
  }

  method FillNext(f: Frame, i: nat, total: Counts, ghost counts: Counts, frames: seq<Frame>,
                  ghost src: map<Node, Json>, ghost kids: seq<Item>, ghost all: map<Node, Json>)
    returns (total': Counts, frames': seq<Frame>, ghost kids': seq<Item>, ghost all': map<Node, Json>)
    requires Filling(f, total, counts, frames, kids, src, all) && |kids| == i < |Children(f.source)|
    requires f.depth < MAX_DEPTH || (f.depth == MAX_DEPTH && !IsContainer(Children(f.source)[i]))
    modifies f.target
    ensures Filling(f, total', counts, frames', kids', src, all') && |kids'| == i + 1
    ensures all.Keys <= all'.Keys && fresh(all'.Keys - all.Keys)
  {
    hide OwnUpto, Add, Pushed, Grown, AllStand, Linked;
    var child: Item;
    child, total', frames', all' := BeginChild(f, i, total, counts, frames, src, kids, all);
    LinkChild(f, ChildKey(f.source, i), child, kids, frames', src, all');
    kids' := kids + [child];
  }

  lemma FillStarts(f: Frame, counts: Counts, src: map<Node, Json>)
    requires IsContainer(f.source) && f.depth <= MAX_DEPTH && Waiting(f, src, map[])
    ensures Filling(f, counts, counts, [], [], src, src)
  {
    SizeUptoAll(f.source);
  }

  lemma FillEnds(f: Frame, total: Counts, counts: Counts, frames: seq<Frame>, kids: seq<Item>,
                 src: map<Node, Json>, all: map<Node, Json>)
    requires Filling(f, total, counts, frames, kids, src, all) && |kids| == |Children(f.source)|
    requires f.depth < MAX_DEPTH || forall j | 0 <= j < |kids| :: !IsContainer(Children(f.source)[j])
    ensures Grown(src, all, frames)
    ensures Holds(f.target, f.source, kids, all) && PushedAt(frames, f.source, f.depth + 1, all)
    ensures Own(f.source, f.depth) == Walked(OwnUpto(f.source, |kids|), false) && total == Add(counts, OwnUpto(f.source, |kids|))
  {
    hide OwnUpto, Pushed, AllStand, CleanKeysUpto, Children, Stands;
    StandsHolds(f, kids, all);
  }

  lemma StandsHolds(f: Frame, kids: seq<Item>, all: map<Node, Json>)
    requires IsContainer(f.source) && |kids| <= |Children(f.source)| && f.target.isList == f.source.List?
    requires Linked(f.target, f.source, kids) && AllStand(f.source, kids, all)
    ensures Holds(f.target, f.source, kids, all)
  {
    hide Stands, Children, CleanKeysUpto;
  }

  lemma StoppedAt(f: Frame, total: Counts, counts: Counts, frames: seq<Frame>, kids: seq<Item>,
                  src: map<Node, Json>, all: map<Node, Json>)
    requires Filling(f, total, counts, frames, kids, src, all) && |kids| < |Children(f.source)| && f.depth == MAX_DEPTH
    requires IsContainer(Children(f.source)[|kids|]) && forall j | 0 <= j < |kids| :: !IsContainer(Children(f.source)[j])
    ensures var own := Own(f.source, f.depth);
            own.stopped && Add(total, KeyCount(f.source, |kids|)) == Add(counts, own.counts)
  {
    hide Pushed, Grown, Linked, AllStand, Children, KeyCount, OwnUpto, Add, FirstContainer, Stands;
    FirstIs(f.source, |kids|);
    AddAssociates(counts, OwnUpto(f.source, |kids|), KeyCount(f.source, |kids|));
  }

  lemma FirstIs(v: Json, i: nat)
    requires IsContainer(v) && i < |Children(v)| && IsContainer(Children(v)[i]) && forall j | 0 <= j < i :: !IsContainer(Children(v)[j])
    ensures FirstContainer(v, 0) == i
  {
    hide FirstContainer, Children;
  }

  lemma AddAssociates(a: Counts, b: Counts, c: Counts)
    ensures Add(Add(a, b), c) == Add(a, Add(b, c))
  {
  }

  /** A child's own value: a leaf made storable, or a container to fill later. */
  method BeginChild(f: Frame, i: nat, total: Counts, ghost counts: Counts, frames: seq<Frame>,
                    ghost src: map<Node, Json>, ghost kids: seq<Item>, ghost all: map<Node, Json>)
    returns (child: Item, total': Counts, frames': seq<Frame>, ghost all': map<Node, Json>)
    requires IsContainer(f.source) && i < |Children(f.source)| && |kids| == i
    requires f.depth < MAX_DEPTH || (f.depth == MAX_DEPTH && !IsContainer(Children(f.source)[i]))
    requires Grown(src, all, frames) && AllStand(f.source, kids, all)
    requires Pushed(frames, f.source, i, f.depth + 1, all)
    requires total == Add(counts, OwnUpto(f.source, i))
    ensures Grown(src, all', frames') && all.Keys <= all'.Keys && fresh(all'.Keys - all.Keys)
    ensures AllStand(f.source, kids + [child], all')
    ensures Pushed(frames', f.source, i + 1, f.depth + 1, all')
    ensures total' == Add(counts, OwnUpto(f.source, i + 1))
  {
    hide CountLeaf, Add, KeyCount, Pushed, Grown, AllStand, CleanLeaf;
    var v, value := f.source, Children(f.source)[i];
    total', frames', all' := Add(total, KeyCount(v, i)), frames, all;
    if IsContainer(value) {
      var node := new Node(value.List?);
      child := Ref(node);
      var frame := Frame(value, node, f.depth + 1);
      PushedContainer(frames, v, i, f.depth + 1, all, node);
      AddAssociates(counts, OwnUpto(v, i), KeyCount(v, i));
      GrownPush(src, all, frames, frame);
      frames', all' := frames + [frame], all[node := value];
    } else {
      PushedLeaf(frames, v, i, f.depth + 1, all);
      AddAssociates(Add(counts, OwnUpto(v, i)), KeyCount(v, i), CountLeaf(value));
      AddAssociates(counts, OwnUpto(v, i), ChildCount(v, i));
      total' := Add(total', CountLeaf(value));
      child := Leaf(CleanLeaf(value));
    }
    AllStandNext(v, kids, child, all, all');
  }

  /** Linking touches only the container being filled. */
  method LinkChild(f: Frame, key: string, child: Item, ghost kids: seq<Item>, ghost frames: seq<Frame>,
                   ghost src: map<Node, Json>, ghost all: map<Node, Json>)
    requires IsContainer(f.source) && |kids| < |Children(f.source)| && key == ChildKey(f.source, |kids|)
    requires f.target.isList == f.source.List? && Linked(f.target, f.source, kids)
    requires f.target in src && Grown(src, all, frames)
    requires Pushed(frames, f.source, |kids| + 1, f.depth + 1, all)
    modifies f.target
    ensures Linked(f.target, f.source, kids + [child])
    ensures Pushed(frames, f.source, |kids| + 1, f.depth + 1, all)
  {
    Link(f.target, key, child);
    if f.source.Obj? {
      KeysUptoNext(f.source, |kids|);
      PutAllNext(CleanKeysUpto(f.source, |kids|), kids, StripNul(key), child);
    }
    forall k | 0 <= k < |frames| ensures Waiting(frames[k], all, map[]) {
      assert old(Waiting(frames[k], all, map[]));
    }
  }

  /** The nodes begun since src are exactly the targets of these frames. */
  ghost predicate Grown(src: map<Node, Json>, all: map<Node, Json>, frames: seq<Frame>) {
    && src.Keys <= all.Keys
    && (forall n | n in src :: all[n] == src[n])
    && (forall n | n in all && n !in src :: OnStack(n, frames))
    && (forall k | 0 <= k < |frames| :: frames[k].target !in src)
  }

  lemma GrownPush(src: map<Node, Json>, all: map<Node, Json>, frames: seq<Frame>, f: Frame)
    requires Grown(src, all, frames) && f.target !in all
    ensures Grown(src, all[f.target := f.source], frames + [f])
  {
    forall n | n in all[f.target := f.source] && n !in src
      ensures OnStack(n, frames + [f])
    {
      if n == f.target {
        assert (frames + [f])[|frames|].target == n;
      } else {
        assert OnStack(n, frames);
        var k :| 0 <= k < |frames| && frames[k].target == n;
        assert (frames + [f])[k].target == n;
      }
    }
  }

  ghost predicate PushedAt(frames: seq<Frame>, v: Json, depth: nat, src: map<Node, Json>)
    requires IsContainer(v)
    reads src.Keys
  {
    Pushed(frames, v, |Children(v)|, depth, src)
  }

  // ---------------------------------------------------------------- the stack

  ghost predicate AllContainers(stack: seq<Frame>) {
    forall k | 0 <= k < |stack| :: IsContainer(stack[k].source)
  }

  /** What walking everything on the stack comes to, the last frame first. */
  function WalkStack(stack: seq<Frame>): Walked
    requires AllContainers(stack)
  {
    if stack == [] then Walked(NoCounts(), false)
    else Then(WalkOf(stack[|stack| - 1].source, stack[|stack| - 1].depth), WalkStack(stack[..|stack| - 1]))
  }

  /** The frames of a container's children are walked as the walk below it goes. */
  lemma {:induction false} WalkFrames(rest: seq<Frame>, frames: seq<Frame>, v: Json, i: nat, depth: nat)
    requires IsContainer(v) && i <= |Children(v)| && AllContainers(rest) && AllContainers(frames)
    requires Sources(frames) == Containers(v, i) && forall k | 0 <= k < |frames| :: frames[k].depth == depth
    ensures AllContainers(rest + frames)
    ensures WalkStack(rest + frames) == Then(WalkBelow(v, i, depth), WalkStack(rest))
    decreases i
  {
    hide WalkOf, Children;
    if i == 0 {
      assert rest + frames == rest;
      NothingBefore(WalkStack(rest));
    } else if !IsContainer(Children(v)[i - 1]) {
      WalkFrames(rest, frames, v, i - 1, depth);
    } else {
      var n := |frames| - 1;
      var less, f := frames[..n], frames[n];
      assert Sources(frames)[n] == f.source == Children(v)[i - 1];
      assert Sources(less) == Sources(frames)[..n] == Containers(v, i - 1);
      WalkFrames(rest, less, v, i - 1, depth);
      assert (rest + frames)[..|rest| + n] == rest + less;
      ThenAssociates(WalkOf(f.source, depth), WalkBelow(v, i - 1, depth), WalkStack(rest));
    }
  }

  lemma NothingBefore(w: Walked)
    ensures Then(Walked(NoCounts(), false), w) == w
  {
  }

  lemma StackPush(rest: seq<Frame>, f: Frame)
    requires AllContainers(rest) && IsContainer(f.source)
    ensures AllContainers(rest + [f])
    ensures WalkStack(rest + [f]) == Then(WalkOf(f.source, f.depth), WalkStack(rest))
  {
    hide WalkOf;
    assert (rest + [f])[..|rest|] == rest;
  }

  lemma PushedContainers(frames: seq<Frame>, v: Json, depth: nat, src: map<Node, Json>)
    requires IsContainer(v) && PushedAt(frames, v, depth, src)
    ensures AllContainers(frames) && Sources(frames) == Containers(v, |Children(v)|) && StackSize(frames) < Size(v)
    ensures forall k | 0 <= k < |frames| :: frames[k].depth == depth
  {
    SizeUptoAll(v);
    hide Sources, Containers, Children, Size, SizeUpto, StackSize;
    forall k | 0 <= k < |frames| ensures IsContainer(frames[k].source) {
      assert Waiting(frames[k], src, map[]);
    }
  }

  /** Popping a frame, walking its container and pushing its children leaves what the
      walk comes to as it was, and shrinks the work left. */
  lemma PopPush(rest: seq<Frame>, f: Frame, frames: seq<Frame>, src: map<Node, Json>)
    requires AllContainers(rest) && IsContainer(f.source) && PushedAt(frames, f.source, f.depth + 1, src)
    requires !Own(f.source, f.depth).stopped
    ensures AllContainers(rest + frames)
    ensures WalkStack(rest + [f]) == Then(Own(f.source, f.depth), WalkStack(rest + frames))
    ensures StackSize(rest + frames) < StackSize(rest + [f])
  {
    hide Own, WalkBelow, Size, StackSize, Children, Sources, Containers, PushedAt, WalkStack, AllContainers, Then;
    var v, n := f.source, |Children(f.source)|;
    PushedContainers(frames, v, f.depth + 1, src);
    WalkFrames(rest, frames, v, n, f.depth + 1);
    SizeConcat(rest, frames);
    SizePush(rest, f);
    StackPush(rest, f);
    ThenAssociates(Own(v, f.depth), WalkBelow(v, n, f.depth + 1), WalkStack(rest));
  }

  lemma HoldsMore(n: Node, v: Json, kids: seq<Item>, src: map<Node, Json>, all: map<Node, Json>)
    requires IsContainer(v) && |kids| <= |Children(v)| && Holds(n, v, kids, src)
    requires src.Keys <= all.Keys && forall m | m in src :: all[m] == src[m]
    ensures Holds(n, v, kids, all)
  {
    forall i | 0 <= i < |kids| ensures Stands(Children(v)[i], kids[i], all) {
      assert Stands(Children(v)[i], kids[i], src);
    }
  }

  /** Built, but for the container just popped. */
  ghost predicate BuiltExcept(rest: seq<Frame>, f: Frame, src: map<Node, Json>, kids: map<Node, seq<Item>>)
    reads src.Keys - {f.target}
  {
    && f.target in src && src[f.target] == f.source && f.target !in kids
    && (forall n | n in src :: IsContainer(src[n]))
    && kids.Keys <= src.Keys
    && (forall k | 0 <= k < |rest| :: rest[k].target in src.Keys - {f.target} && Waiting(rest[k], src, kids))
    && (forall i, j | 0 <= i < j < |rest| :: rest[i].target != rest[j].target)
    && (forall n | n in src && n !in kids && n != f.target :: OnStack(n, rest))
    && (forall n | n in kids :: |kids[n]| == |Children(src[n])| && Holds(n, src[n], kids[n], src))
  }

  lemma PopBuilt(rest: seq<Frame>, f: Frame, src: map<Node, Json>, kids: map<Node, seq<Item>>)
    requires Built(rest + [f], src, kids)
    ensures BuiltExcept(rest, f, src, kids) && Waiting(f, src, kids) && IsContainer(f.source)
  {
    var stack := rest + [f];
    assert stack[|rest|] == f;
    assert Waiting(stack[|rest|], src, kids);
    forall k | 0 <= k < |rest|
      ensures rest[k].target != f.target && Waiting(rest[k], src, kids)
    {
      assert stack[k] == rest[k] && Waiting(stack[k], src, kids);
    }
    forall i, j | 0 <= i < j < |rest|
      ensures rest[i].target != rest[j].target
    {
      assert stack[i] == rest[i] && stack[j] == rest[j];
    }
    forall n | n in src && n !in kids && n != f.target
      ensures OnStack(n, rest)
    {
      assert OnStack(n, stack);
      var k :| 0 <= k < |stack| && stack[k].target == n;
      assert rest[k] == stack[k];
    }
  }

  lemma PushedTargets(frames: seq<Frame>, v: Json, depth: nat, src: map<Node, Json>)
    requires IsContainer(v) && PushedAt(frames, v, depth, src)
    ensures forall k | 0 <= k < |frames| :: frames[k].target in src && Waiting(frames[k], src, map[])
    ensures forall j, k | 0 <= j < k < |frames| :: frames[j].target != frames[k].target
  {
  }

  /** The popped container holds its whole source, and its children wait. */
  lemma BuiltAfterFill(rest: seq<Frame>, f: Frame, frames: seq<Frame>, items: seq<Item>,
                       src: map<Node, Json>, all: map<Node, Json>, kids: map<Node, seq<Item>>)
    requires BuiltExcept(rest, f, src, kids) && IsContainer(f.source)
    requires Grown(src, all, frames)
    requires |items| == |Children(f.source)| && Holds(f.target, f.source, items, all)
    requires PushedAt(frames, f.source, f.depth + 1, all)
    ensures Built(rest + frames, all, kids[f.target := items])
  {
    hide PushedAt, Linked, CleanKeysUpto, Children, Stands;
    PushedTargets(frames, f.source, f.depth + 1, all);
    var stack, filled := rest + frames, kids[f.target := items];
    forall k | 0 <= k < |stack|
      ensures Waiting(stack[k], all, filled)
    {
      if k < |rest| {
        assert Waiting(rest[k], src, kids);
      } else {
        assert Waiting(frames[k - |rest|], all, map[]);
      }
    }
    TargetsApart(rest, f, frames, src, all, kids);
    forall n | n in all && n !in filled
      ensures OnStack(n, stack)
    {
      if n in src {
        assert OnStack(n, rest);
        var k :| 0 <= k < |rest| && rest[k].target == n;
        assert stack[k] == rest[k];
      } else {
        assert OnStack(n, frames);
        var k :| 0 <= k < |frames| && frames[k].target == n;
        assert stack[|rest| + k] == frames[k];
      }
    }
    forall n | n in filled
      ensures |filled[n]| == |Children(all[n])| && Holds(n, all[n], filled[n], all)
    {
      if n != f.target {
        HoldsMore(n, src[n], kids[n], src, all);
      }
    }
    forall n | n in all
      ensures IsContainer(all[n])
    {
      if n !in src {
        assert OnStack(n, frames);
        var k :| 0 <= k < |frames| && frames[k].target == n;
        assert Waiting(frames[k], all, map[]);
      }
    }
  }

  lemma TargetsApart(rest: seq<Frame>, f: Frame, frames: seq<Frame>,
                     src: map<Node, Json>, all: map<Node, Json>, kids: map<Node, seq<Item>>)
    requires BuiltExcept(rest, f, src, kids) && IsContainer(f.source) && Grown(src, all, frames)
    requires forall j, k | 0 <= j < k < |frames| :: frames[j].target != frames[k].target
    ensures var stack := rest + frames; forall j, k | 0 <= j < k < |stack| :: stack[j].target != stack[k].target
  {
    forall k | 0 <= k < |rest| ensures rest[k].target in src {
      assert Waiting(rest[k], src, kids);
    }
  }

  lemma StackIsContainers(stack: seq<Frame>, src: map<Node, Json>, kids: map<Node, seq<Item>>)
    requires Built(stack, src, kids)
    ensures AllContainers(stack)
  {
    forall k | 0 <= k < |stack| ensures IsContainer(stack[k].source) {
      assert Waiting(stack[k], src, kids);
    }
  }

  /** One turn of the loop: pop a container and fill it. */
  method PopAndFill(stack: seq<Frame>, counts: Counts, ghost src: map<Node, Json>, ghost kids: map<Node, seq<Item>>)
    returns (ok: bool, total: Counts, next: seq<Frame>, ghost all: map<Node, Json>, ghost filled: map<Node, seq<Item>>)
    requires stack != [] && Built(stack, src, kids) && AllContainers(stack)
    modifies stack[|stack| - 1].target
    ensures ok ==> Built(next, all, filled) && src.Keys <= all.Keys && (forall n | n in src :: all[n] == src[n])
    ensures ok ==> fresh(all.Keys - src.Keys)
    ensures ok ==> AllContainers(next) && StackSize(next) < StackSize(stack)
    ensures Then(Walked(counts, false), WalkStack(stack)) == if ok then Then(Walked(total, false), WalkStack(next)) else Walked(total, true)
  {
    var f, rest := stack[|stack| - 1], stack[..|stack| - 1];
    assert stack == rest + [f];
    PopBuilt(rest, f, src, kids);
    ghost var items: seq<Item>;
    var frames: seq<Frame>;
    ok, total, frames, items, all := Fill(f, counts, src);
    next, filled := rest + frames, kids[f.target := items];
    if ok {
      PopPush(rest, f, frames, all);
      ThenAssociates(Walked(counts, false), Own(f.source, f.depth), WalkStack(next));
      BuiltAfterFill(rest, f, frames, items, src, all, kids);
    } else {
      StopsHere(rest, f, counts);
    }
  }

  lemma StopsHere(rest: seq<Frame>, f: Frame, counts: Counts)
    requires AllContainers(rest) && IsContainer(f.source) && Own(f.source, f.depth).stopped
    ensures AllContainers(rest + [f])
    ensures Then(Walked(counts, false), WalkStack(rest + [f])) == Walked(Add(counts, Own(f.source, f.depth).counts), true)
  {
    hide Own, WalkBelow, WalkStack, AllContainers;
    StackPush(rest, f);
  }

  /** _sanitize_for_jsonb: null exactly when some container is nested deeper than
      the cap; otherwise the node reads as the recursive copy and the counts are
      the recursive counts.  A stopped run has counted what its walk had come to. */
  method Sanitize(extras: Json) returns (root: Node?, counts: Counts, ghost nodes: set<Node>)
    requires extras.Obj?
    ensures root == null <==> Height(extras) > MAX_DEPTH
    ensures root != null ==> counts == CountIn(extras) && Denotes(Ref(root), Clean(extras), nodes) && fresh(nodes)
    ensures counts == Spent(extras) && Leq(counts, CountIn(extras))
  {
    var top := new Node(false);
    root, counts, nodes := top, NoCounts(), {};
    var stack := [Frame(extras, top, 1)];
    ghost var src, kids: map<Node, seq<Item>> := map[top := extras], map[];
    StackStarts(extras, top);
    WalkCounts(extras, 1);
    hide WalkOf, WalkStack, CountIn, Height, StackSize, AllContainers;
    while stack != []
      invariant Built(stack, src, kids) && fresh(src.Keys) && AllContainers(stack)
      invariant top in src && src[top] == extras
      invariant Then(Walked(counts, false), WalkStack(stack)) == WalkOf(extras, 1)
      decreases StackSize(stack)
    {
      assert Waiting(stack[|stack| - 1], src, kids);
      var ok, next;
      ok, counts, next, src, kids := PopAndFill(stack, counts, src, kids);
      if !ok {
        root := null;
        return;
      }
      stack := next;
    }
    BuiltDenotes(top, extras, src, kids);
    nodes := src.Keys;
    StackEnds(counts);
  }

  lemma StackStarts(extras: Json, top: Node)
    requires extras.Obj? && !top.isList && top.items == [] && top.entries == []
    ensures Built([Frame(extras, top, 1)], map[top := extras], map[])
    ensures AllContainers([Frame(extras, top, 1)])
    ensures Then(Walked(NoCounts(), false), WalkStack([Frame(extras, top, 1)])) == WalkOf(extras, 1)
  {
    var f := Frame(extras, top, 1);
    assert [f][0].target == top;
    hide WalkOf;
    assert [f][..0] == [];
    NothingBefore(WalkOf(extras, 1));
    NothingAfter(WalkOf(extras, 1));
  }

  lemma NothingAfter(w: Walked)
    ensures Then(w, Walked(NoCounts(), false)) == w
  {
  }

  lemma StackEnds(counts: Counts)
    ensures AllContainers([]) && Then(Walked(counts, false), WalkStack([])) == Walked(counts, false)
  {
  }

  // ---------------------------------------------------------------- bound_extras

  datatype Reason = Depth | Unserializable | TooLarge

  datatype Bounded = Kept(blob: Json) | Dropped(reason: Reason)

  /** encode: how many bytes json.dumps makes of a value, None when it raises. */
  function Bound(encode: Json -> Option<nat>, blob: Json): Bounded {
    if Height(blob) > MAX_DEPTH then Dropped(Depth)
    else match encode(Clean(blob))
      case None => Dropped(Unserializable)
      case Some(n) => if n > MAX_BYTES then Dropped(TooLarge) else Kept(Clean(blob))
  }

  /** The three ways out, each with its own condition. */
  ghost predicate DropsFor(encode: Json -> Option<nat>, blob: Json, reason: Reason) {
    match reason
    case Depth => Height(blob) > 32
    case Unserializable => Height(blob) <= 32 && encode(Clean(blob)).None?
    case TooLarge => Height(blob) <= 32 && encode(Clean(blob)).Some? && encode(Clean(blob)).value > 65536
  }

  /** A blob is kept exactly when none of them applies, and they exclude each other. */
  lemma BoundMeans(encode: Json -> Option<nat>, blob: Json)
    ensures Bound(encode, blob).Kept? <==> Height(blob) <= 32 && encode(Clean(blob)).Some? && encode(Clean(blob)).value <= 65536
    ensures Bound(encode, blob).Kept? ==> Bound(encode, blob).blob == Clean(blob)
    ensures forall reason :: Bound(encode, blob) == Dropped(reason) <==> DropsFor(encode, blob, reason)
  {
  }

  /** A blob whose copy takes no more bytes and nests no deeper than a kept one's is kept. */
  lemma SmallerIsKept(encode: Json -> Option<nat>, blob: Json, other: Json)
    requires Bound(encode, blob).Kept? && Height(other) <= Height(blob)
    requires encode(Clean(other)).Some? && encode(Clean(other)).value <= encode(Clean(blob)).value
    ensures Bound(encode, other) == Kept(Clean(other))
  {
  }

  /** bound_extras: what it keeps is the copy's own nodes, what it counts is
      everything the copy changed. */
  method BoundExtras(encode: Json -> Option<nat>, blob: Json)
    returns (root: Node?, hits: Counts, reason: Option<Reason>, ghost nodes: set<Node>)
    requires blob.Obj?
    ensures root != null <==> Height(blob) <= 32 && encode(Clean(blob)).Some? && encode(Clean(blob)).value <= 65536
    ensures root != null ==> Denotes(Ref(root), Clean(blob), nodes) && hits == CountIn(blob)
    ensures reason == None <==> root != null
    ensures forall why :: reason == Some(why) <==> DropsFor(encode, blob, why)
    ensures Bound(encode, blob) == if root != null then Kept(Clean(blob)) else Dropped(reason.value)
    ensures hits == Spent(blob) && Leq(hits, CountIn(blob))
  {
    root, hits, nodes := Sanitize(blob);
    if root == null {
      return null, hits, Some(Depth), {};
    }
    // The nodes read as Clean(blob), so that is what json.dumps encodes.
    match encode(Clean(blob))
    case None => root, reason := null, Some(Unserializable);
    case Some(n) =>
      if n > MAX_BYTES {
        root, reason := null, Some(TooLarge);
      } else {
        reason := None;
      }
  }

  /** Bounding what was kept changes nothing and counts nothing. */
  lemma BoundingAgainChangesNothing(encode: Json -> Option<nat>, blob: Json)
    requires Bound(encode, blob).Kept?
    ensures var kept := Bound(encode, blob).blob;
            && Bound(encode, kept) == Kept(kept) && CountIn(kept) == NoCounts()
            && Safe(kept) && Height(kept) <= MAX_DEPTH
  {
    CleanIsSafe(blob);
    SafeIsUnchanged(Clean(blob));
    CleanNotDeeper(blob);
  }

  // ---------------------------------------------------------------- build_extras

  function Get(d: seq<Pair<Json>>, key: string): Option<Json> {
    if d == [] then None else if d[0].key == key then Some(d[0].value) else Get(d[1..], key)
  }

  const STRIPPED_TYPES: set<string> := {"episode", "season"}

  /** The type a relationship entry is stripped for, if it is. */
  function StrippedType(entry: Json): Option<string> {
    if !entry.Obj? then None
    else match Get(entry.entries, "relationship_type")
      case Some(Str(t)) => if t in STRIPPED_TYPES then Some(t) else None
      case _ => None
  }

  function KeptEntries(entries: seq<Json>): seq<Json> {
    if entries == [] then []
    else
      var before, last := KeptEntries(entries[..|entries| - 1]), entries[|entries| - 1];
      if StrippedType(last).Some? then before else before + [last]
  }

  function TypeCount(entries: seq<Json>, t: string): nat {
    if entries == [] then 0
    else TypeCount(entries[..|entries| - 1], t) + (if StrippedType(entries[|entries| - 1]) == Some(t) then 1 else 0)
  }

  /** _strip_podcast_relationships: what is kept, in order, and how many of each
      type were not. */
  method StripPodcastRelationships(entries: seq<Json>) returns (kept: seq<Json>, stripped: map<string, nat>)
    ensures kept == KeptEntries(entries)
    ensures forall t :: (t in stripped <==> TypeCount(entries, t) > 0) &&
                        (t in stripped ==> stripped[t] == TypeCount(entries, t))
  {
    kept, stripped := [], map[];
    for i := 0 to |entries|
      invariant kept == KeptEntries(entries[..i])
      invariant forall t :: (t in stripped <==> TypeCount(entries[..i], t) > 0) &&
                            (t in stripped ==> stripped[t] == TypeCount(entries[..i], t))
    {
      assert entries[..i + 1][..i] == entries[..i];
      match StrippedType(entries[i])
      case Some(t) => stripped := stripped[t := (if t in stripped then stripped[t] else 0) + 1];
      case None => kept := kept + [entries[i]];
    }
    assert entries[..|entries|] == entries;
  }

  /** An entry that says it is a podcast's episode or season. */
  ghost predicate IsPodcastPart(entry: Json) {
    entry.Obj? && (Pair("relationship_type", Str("episode")) in entry.entries || Pair("relationship_type", Str("season")) in entry.entries)
  }

  lemma {:induction false} GetAnswers(d: seq<Pair<Json>>, key: string)
    ensures Get(d, key).Some? ==> Pair(key, Get(d, key).value) in d
    ensures Get(d, key).None? ==> forall p | p in d :: p.key != key
  {
    if d != [] {
      GetAnswers(d[1..], key);
      assert d == [d[0]] + d[1..];
    }
  }

  /** Exactly those are stripped, an entry being a dictionary with each key once. */
  lemma StripsPodcastParts(entry: Json)
    requires entry.Obj? ==> DistinctKeys(entry.entries)
    ensures StrippedType(entry).Some? <==> IsPodcastPart(entry)
    ensures StrippedType(entry).Some? ==> Pair("relationship_type", Str(StrippedType(entry).value)) in entry.entries
  {
    if entry.Obj? {
      GetAnswers(entry.entries, "relationship_type");
      if Pair("relationship_type", Str("episode")) in entry.entries {
        GetOwn(entry.entries, Pair("relationship_type", Str("episode")));
      }
      if Pair("relationship_type", Str("season")) in entry.entries {
        GetOwn(entry.entries, Pair("relationship_type", Str("season")));
      }
      hide Get;
    }
  }

  /** No relationship goes unaccounted for. */
  lemma {:induction false} StripAccountsForAll(entries: seq<Json>)
    ensures |KeptEntries(entries)| + TypeCount(entries, "episode") + TypeCount(entries, "season") == |entries|
    ensures forall t | t !in STRIPPED_TYPES :: TypeCount(entries, t) == 0
    ensures forall e | e in KeptEntries(entries) :: e in entries && StrippedType(e).None?
  {
    if entries != [] {
      StripAccountsForAll(entries[..|entries| - 1]);
      assert entries == entries[..|entries| - 1] + [entries[|entries| - 1]];
      var t := StrippedType(entries[|entries| - 1]);
      assert t.Some? ==> t.value == "episode" || t.value == "season";
      assert "episode" != "season" by { assert "episode"[0] != "season"[0]; }
    }
  }

  /** The blob build_extras bounds. */
  function ToBound(passthrough: seq<Pair<Json>>): seq<Pair<Json>> {
    match Get(passthrough, "relationships")
    case Some(List(entries)) =>
      if KeptEntries(entries) == entries then passthrough
      else Put(passthrough, "relationships", List(KeptEntries(entries)))
    case _ => passthrough
  }

  /** An entry as the blob carries it: relationships without what is stripped. */
  function Carried(p: Pair<Json>): Pair<Json> {
    if p.key == "relationships" && p.value.List? then Pair(p.key, List(KeptEntries(p.value.items))) else p
  }

  lemma ToBoundOk(passthrough: seq<Pair<Json>>)
    requires DistinctKeys(passthrough) && NulFree(passthrough)
    ensures DistinctKeys(ToBound(passthrough)) && NulFree(ToBound(passthrough))
  {
    assert '\0' !in "relationships";
    hide KeptEntries, Get, DistinctKeys, NulFree, Put;
    match Get(passthrough, "relationships")
    case Some(List(entries)) =>
      PutKeeps(passthrough, "relationships", List(KeptEntries(entries)));
    case _ =>
  }

  lemma ToBoundCarries(passthrough: seq<Pair<Json>>, p: Pair<Json>)
    requires DistinctKeys(passthrough) && p in passthrough
    ensures Carried(p) in ToBound(passthrough)
  {
    GetOwn(passthrough, p);
    hide KeptEntries, Get, DistinctKeys;
    match Get(passthrough, "relationships")
    case Some(List(entries)) =>
      PutEntries(passthrough, "relationships", List(KeptEntries(entries)));
    case _ =>
  }

  /** Every key of a product's passthrough is in its kept blob, sanitized; only
      the relationships array may be shorter, by exactly the stripped entries. */
  lemma BuildExtrasKeepsEveryKey(encode: Json -> Option<nat>, passthrough: seq<Pair<Json>>, p: Pair<Json>)
    requires DistinctKeys(passthrough) && NulFree(passthrough) && p in passthrough
    requires Bound(encode, Obj(ToBound(passthrough))).Kept?
    ensures var kept := Bound(encode, Obj(ToBound(passthrough))).blob;
            kept.Obj? && Pair(p.key, Clean(Carried(p).value)) in kept.entries
  {
    ToBoundOk(passthrough);
    ToBoundCarries(passthrough, p);
    CleanHasPair(ToBound(passthrough), Carried(p));
    hide ToBound, DistinctKeys, NulFree, KeptEntries;
  }

  /** And nothing else is in it: no key is made up and none said twice. */
  lemma BuildExtrasKeepsOnlyThose(encode: Json -> Option<nat>, passthrough: seq<Pair<Json>>, q: Pair<Json>)
    requires DistinctKeys(passthrough) && NulFree(passthrough)
    requires Bound(encode, Obj(ToBound(passthrough))).Kept?
    ensures var kept := Bound(encode, Obj(ToBound(passthrough))).blob;
            kept.Obj? && DistinctKeys(kept.entries) &&
            (q in kept.entries ==> exists p :: p in passthrough && q == Pair(p.key, Clean(Carried(p).value)))
  {
    ToBoundOk(passthrough);
    var d := ToBound(passthrough);
    CleanKeepsEveryKey(d);
    var e := Clean(Obj(d)).entries;
    assert DistinctKeys(e) by {
      forall i, j | 0 <= i < j < |e| ensures e[i].key != e[j].key {
        assert d[i].key != d[j].key;
      }
    }
    if q in e {
      var i :| 0 <= i < |e| && e[i] == q;
      assert d[i] in d;
      ToBoundHasOnly(passthrough, d[i]);
    }
    hide KeptEntries, ToBound;
  }

  lemma ToBoundHasOnly(passthrough: seq<Pair<Json>>, q: Pair<Json>)
    requires DistinctKeys(passthrough) && q in ToBound(passthrough)
    ensures exists p :: p in passthrough && Carried(p) == q && p.key == q.key
  {
    hide KeptEntries, Get, DistinctKeys;
    match Get(passthrough, "relationships")
    case Some(List(entries)) =>
      GetAnswers(passthrough, "relationships");
      var own := Pair("relationships", List(entries));
      PutEntries(passthrough, "relationships", List(KeptEntries(entries)));
      OwnOnly(passthrough, own);
      assert Carried(own) == Pair("relationships", List(KeptEntries(entries)));
      if q.key == "relationships" { assert Carried(own) == q; } else { assert Carried(q) == q; }
    case _ =>
      if q.key == "relationships" { GetOwn(passthrough, q); }
      assert Carried(q) == q;
  }

  lemma OwnOnly(d: seq<Pair<Json>>, own: Pair<Json>)
    requires DistinctKeys(d) && own in d
    ensures forall p | p in d && p.key == own.key :: p == own
  {
  }

  lemma {:induction false} GetOwn(d: seq<Pair<Json>>, p: Pair<Json>)
    requires DistinctKeys(d) && p in d
    ensures Get(d, p.key) == Some(p.value)
  {
    if d[0] != p {
      assert d == [d[0]] + d[1..];
      assert p in d[1..];
      var i :| 0 <= i < |d| && d[i] == p;
      GetOwn(d[1..], p);
    }
  }
}
