/**
 libex_core/audible/extras.py: the order in which the sanitizer's explicit stack walks a
 blob, and so what a run stopped at the depth cap has counted by then.  A container is
 walked whole; then its child containers, the last first, each with all below it.
 */
module ExtrasWalk {
  import opened Json

  const MAX_DEPTH: nat := 32

  // ---------------------------------------------------------------- one container

  /** The values a container's walk visits, in order. */
  function Children(v: Json): seq<Json>
    requires IsContainer(v)
  {
    if v.List? then v.items else Values(v.entries)
  }

  function ChildKey(v: Json, i: nat): string
    requires IsContainer(v) && i < |Children(v)|
  {
    if v.List? then "" else v.entries[i].key
  }

  function KeyCount(v: Json, i: nat): Counts
    requires IsContainer(v) && i < |Children(v)|
  {
    if v.List? then NoCounts() else Counts(CountNul(v.entries[i].key), 0, 0)
  }

  /** What a child adds while its container is walked: a child container's insides
      are left for later. */
  function ChildCount(v: Json, i: nat): Counts
    requires IsContainer(v) && i < |Children(v)|
  {
    if IsContainer(Children(v)[i]) then KeyCount(v, i) else Add(KeyCount(v, i), CountLeaf(Children(v)[i]))
  }

  function OwnUpto(v: Json, i: nat): Counts
    requires IsContainer(v) && i <= |Children(v)|
  {
    if i == 0 then NoCounts() else Add(OwnUpto(v, i - 1), ChildCount(v, i - 1))
  }

  /** The first child container from here on, or how many children there are. */
  function FirstContainer(v: Json, from: nat): (i: nat)
    requires IsContainer(v) && from <= |Children(v)|
    ensures from <= i <= |Children(v)| && (i < |Children(v)| ==> IsContainer(Children(v)[i]))
    ensures forall j | from <= j < i :: !IsContainer(Children(v)[j])
    decreases |Children(v)| - from
  {
    if from == |Children(v)| || IsContainer(Children(v)[from]) then from else FirstContainer(v, from + 1)
  }

  // ---------------------------------------------------------------- the walk

  /** What was counted, and whether the walk was stopped there. */
  datatype Walked = Walked(counts: Counts, stopped: bool)

  function Then(a: Walked, b: Walked): Walked {
    if a.stopped then a else Walked(Add(a.counts, b.counts), b.stopped)
  }

  /** A container at the deepest level stops at its first child container, whose key
      it has counted. */
  function Own(v: Json, depth: nat): Walked
    requires IsContainer(v)
  {
    var n, i := |Children(v)|, FirstContainer(v, 0);
    if depth >= MAX_DEPTH && i < n then Walked(Add(OwnUpto(v, i), KeyCount(v, i)), true)
    else Walked(OwnUpto(v, n), false)
  }

  function WalkOf(v: Json, depth: nat): Walked
    requires IsContainer(v)
    decreases v, 1, 0
  {
    Then(Own(v, depth), WalkBelow(v, |Children(v)|, depth + 1))
  }

  /** The first i children's containers, the last first. */
  function WalkBelow(v: Json, i: nat, depth: nat): Walked
    requires IsContainer(v) && i <= |Children(v)|
    decreases v, 0, i
  {
    if i == 0 then Walked(NoCounts(), false)
    else
      ChildSmaller(v, i - 1);
      var c := Children(v)[i - 1];
      if IsContainer(c) then Then(WalkOf(c, depth), WalkBelow(v, i - 1, depth)) else WalkBelow(v, i - 1, depth)
  }

  lemma ChildSmaller(v: Json, i: nat)
    requires IsContainer(v) && i < |Children(v)|
    ensures Children(v)[i] < v
  {
    if v.Obj? {
      assert v.entries[i].value < v;
    }
  }

  /** What _sanitize_for_jsonb counts in a blob, stopped or not. */
  function Spent(blob: Json): Counts {
    if IsContainer(blob) then WalkOf(blob, 1).counts else NoCounts()
  }

  lemma ThenAssociates(a: Walked, b: Walked, c: Walked)
    ensures Then(Then(a, b), c) == Then(a, Then(b, c))
  {
  }

  // ---------------------------------------------------------------- what it comes to

  function CountUpto(v: Json, i: nat): Counts
    requires IsContainer(v) && i <= |Children(v)|
  {
    if v.List? then CountItems(v.items[..i]) else CountEntries(v.entries[..i])
  }

  lemma CountUptoNext(v: Json, i: nat)
    requires IsContainer(v) && i < |Children(v)|
    ensures CountUpto(v, i + 1) == Add(CountUpto(v, i), Add(KeyCount(v, i), CountIn(Children(v)[i])))
  {
    if v.List? {
      var upto := v.items[..i + 1];
      assert upto[..i] == v.items[..i];
      assert CountItems(upto) == Add(CountItems(upto[..i]), CountIn(upto[i]));
      AddNothing(CountIn(v.items[i]));
    } else {
      var upto := v.entries[..i + 1];
      assert upto[..i] == v.entries[..i];
      assert CountEntries(upto) == Add(CountEntries(upto[..i]), Add(Counts(CountNul(upto[i].key), 0, 0), CountIn(upto[i].value)));
    }
  }

  lemma AddNothing(c: Counts)
    ensures Add(NoCounts(), c) == c
  {
  }

  lemma CountUptoAll(v: Json)
    requires IsContainer(v)
    ensures CountUpto(v, |Children(v)|) == CountIn(v) && CountUpto(v, 0) == NoCounts()
  {
    if v.List? {
      assert v.items[..|v.items|] == v.items;
    } else {
      assert v.entries[..|v.entries|] == v.entries;
    }
  }

  function HeightUpto(v: Json, i: nat): nat
    requires IsContainer(v) && i <= |Children(v)|
  {
    if v.List? then HeightItems(v.items[..i]) else HeightEntries(v.entries[..i])
  }

  lemma HeightUptoNext(v: Json, i: nat)
    requires IsContainer(v) && i < |Children(v)|
    ensures HeightUpto(v, i + 1) == Max(HeightUpto(v, i), Height(Children(v)[i]))
    ensures HeightUpto(v, 0) == 0
  {
    if v.List? {
      assert v.items[..i + 1][..i] == v.items[..i];
    } else {
      assert v.entries[..i + 1][..i] == v.entries[..i];
    }
  }

  lemma HeightUptoAll(v: Json)
    requires IsContainer(v)
    ensures Height(v) == 1 + HeightUpto(v, |Children(v)|) && HeightUpto(v, 0) == 0
  {
    if v.List? {
      assert v.items[..|v.items|] == v.items;
    } else {
      assert v.entries[..|v.entries|] == v.entries;
    }
  }

  lemma {:induction false} HeightUptoGrows(v: Json, i: nat, j: nat)
    requires IsContainer(v) && i <= j <= |Children(v)|
    ensures HeightUpto(v, i) <= HeightUpto(v, j)
    decreases j - i
  {
    if i < j {
      HeightUptoGrows(v, i, j - 1);
      HeightUptoNext(v, j - 1);
    }
  }

  predicate Leq(a: Counts, b: Counts) {
    a.nul <= b.nul && a.nonFinite <= b.nonFinite && a.oversized <= b.oversized
  }

  /** Walked in its own order, a blob within the cap is counted whole; one past it
      stops the walk, with no more counted than there is. */
  lemma {:induction false} WalkCounts(v: Json, depth: nat)
    requires IsContainer(v) && depth <= MAX_DEPTH
    ensures WalkOf(v, depth).stopped <==> depth + Height(v) > MAX_DEPTH + 1
    ensures !WalkOf(v, depth).stopped ==> WalkOf(v, depth).counts == CountIn(v)
    ensures Leq(WalkOf(v, depth).counts, CountIn(v))
    decreases v, 1, 0
  {
    if depth == MAX_DEPTH {
      DeepestCounts(v);
    } else {
      hide OwnUpto, CountUpto, HeightUpto, CountIn, Height, WalkBelow, FirstContainer;
      HeightUptoAll(v);
      CountUptoAll(v);
      BelowCounts(v, |Children(v)|, depth + 1);
    }
  }

  lemma DeepestCounts(v: Json)
    requires IsContainer(v)
    ensures var w := WalkOf(v, MAX_DEPTH);
            && (w.stopped <==> MAX_DEPTH + Height(v) > MAX_DEPTH + 1)
            && (!w.stopped ==> w.counts == CountIn(v)) && Leq(w.counts, CountIn(v))
  {
    hide OwnUpto, CountUpto, HeightUpto, CountIn, Height, WalkBelow, KeyCount, FirstContainer;
    var n, first := |Children(v)|, FirstContainer(v, 0);
    HeightUptoAll(v);
    CountUptoAll(v);
    LeavesOnly(v, first);
    if first < n {
      ContainerIsHigh(v, first);
      OwnAtMost(v, first);
    } else {
      LeavesBelow(v, n, MAX_DEPTH + 1);
      AddNothing(OwnUpto(v, n));
    }
  }

  /** The same of the first i children. */
  lemma {:induction false} BelowCounts(v: Json, i: nat, depth: nat)
    requires IsContainer(v) && i <= |Children(v)| && 1 <= depth <= MAX_DEPTH
    ensures WalkBelow(v, i, depth).stopped <==> depth + HeightUpto(v, i) > MAX_DEPTH + 1
    ensures !WalkBelow(v, i, depth).stopped ==> Add(OwnUpto(v, i), WalkBelow(v, i, depth).counts) == CountUpto(v, i)
    ensures Leq(Add(OwnUpto(v, i), WalkBelow(v, i, depth).counts), CountUpto(v, i))
    decreases v, 0, i
  {
    hide CountUpto, HeightUpto, CountIn, CountLeaf, Height, WalkOf, Children, KeyCount, Add, Then;
    CountUptoAll(v);
    HeightUptoAll(v);
    if i == 0 {
      AddNothing(NoCounts());
    } else {
      ChildSmaller(v, i - 1);
      var c := Children(v)[i - 1];
      BelowCounts(v, i - 1, depth);
      HeightUptoNext(v, i - 1);
      CountUptoNext(v, i - 1);
      var own, below, upto, key := OwnUpto(v, i - 1), WalkBelow(v, i - 1, depth), CountUpto(v, i - 1), KeyCount(v, i - 1);
      if IsContainer(c) {
        WalkCounts(c, depth);
        OneMoreContainer(own, below, upto, key, WalkOf(c, depth), CountIn(c));
      } else {
        LeafIsFlat(c);
        OneMoreLeaf(own, below, upto, key, CountLeaf(c));
      }
    }
  }

  lemma LeafIsFlat(v: Json)
    requires !IsContainer(v)
    ensures Height(v) == 0 && CountIn(v) == CountLeaf(v)
  {
  }

  lemma OneMoreContainer(own: Counts, below: Walked, upto: Counts, key: Counts, walked: Walked, all: Counts)
    requires Leq(Add(own, below.counts), upto) && (!below.stopped ==> Add(own, below.counts) == upto)
    requires Leq(walked.counts, all) && (!walked.stopped ==> walked.counts == all)
    ensures var w := Then(walked, below);
            && (w.stopped <==> walked.stopped || below.stopped)
            && Leq(Add(Add(own, key), w.counts), Add(upto, Add(key, all)))
            && (!w.stopped ==> Add(Add(own, key), w.counts) == Add(upto, Add(key, all)))
  {
  }

  lemma OneMoreLeaf(own: Counts, below: Walked, upto: Counts, key: Counts, leaf: Counts)
    requires Leq(Add(own, below.counts), upto) && (!below.stopped ==> Add(own, below.counts) == upto)
    ensures Leq(Add(Add(own, Add(key, leaf)), below.counts), Add(upto, Add(key, leaf)))
    ensures !below.stopped ==> Add(Add(own, Add(key, leaf)), below.counts) == Add(upto, Add(key, leaf))
  {
  }

  lemma {:induction false} CountUptoGrows(v: Json, i: nat, j: nat)
    requires IsContainer(v) && i <= j <= |Children(v)|
    ensures Leq(CountUpto(v, i), CountUpto(v, j))
    decreases j - i
  {
    hide CountUpto, CountIn, KeyCount, Children;
    if i < j {
      CountUptoGrows(v, i, j - 1);
      CountUptoNext(v, j - 1);
    }
  }

  lemma OwnAtMost(v: Json, i: nat)
    requires IsContainer(v) && i < |Children(v)|
    ensures Leq(Add(OwnUpto(v, i), KeyCount(v, i)), CountIn(v))
  {
    hide OwnUpto, CountUpto, CountIn, KeyCount, Children;
    OwnWithin(v, i);
    CountUptoNext(v, i);
    CountUptoGrows(v, i + 1, |Children(v)|);
    CountUptoAll(v);
  }

  lemma {:induction false} OwnWithin(v: Json, i: nat)
    requires IsContainer(v) && i <= |Children(v)|
    ensures Leq(OwnUpto(v, i), CountUpto(v, i))
  {
    hide CountUpto, CountIn, CountLeaf, KeyCount, Children, ChildCount;
    CountUptoAll(v);
    if i > 0 {
      OwnWithin(v, i - 1);
      CountUptoNext(v, i - 1);
      ChildWithin(v, i - 1);
    }
  }

  lemma ChildWithin(v: Json, i: nat)
    requires IsContainer(v) && i < |Children(v)|
    ensures Leq(ChildCount(v, i), Add(KeyCount(v, i), CountIn(Children(v)[i])))
  {
    hide CountIn, CountLeaf, KeyCount, Children;
    if !IsContainer(Children(v)[i]) { LeafIsFlat(Children(v)[i]); }
  }

  /** Up to the first child container everything is counted as it is met. */
  lemma {:induction false} LeavesOnly(v: Json, i: nat)
    requires IsContainer(v) && i <= |Children(v)| && forall j | 0 <= j < i :: !IsContainer(Children(v)[j])
    ensures OwnUpto(v, i) == CountUpto(v, i) && HeightUpto(v, i) == 0
  {
    hide CountUpto, CountIn, CountLeaf, KeyCount, Children, HeightUpto, Height;
    CountUptoAll(v);
    HeightUptoAll(v);
    if i > 0 {
      LeavesOnly(v, i - 1);
      CountUptoNext(v, i - 1);
      HeightUptoNext(v, i - 1);
      LeafIsFlat(Children(v)[i - 1]);
    }
  }

  lemma {:induction false} LeavesBelow(v: Json, i: nat, depth: nat)
    requires IsContainer(v) && i <= |Children(v)| && forall j | 0 <= j < i :: !IsContainer(Children(v)[j])
    ensures WalkBelow(v, i, depth) == Walked(NoCounts(), false)
  {
    if i > 0 {
      LeavesBelow(v, i - 1, depth);
    }
  }

  lemma ContainerIsHigh(v: Json, i: nat)
    requires IsContainer(v) && i < |Children(v)| && IsContainer(Children(v)[i])
    ensures HeightUpto(v, |Children(v)|) >= 1
  {
    HeightUptoNext(v, i);
    HeightUptoGrows(v, i + 1, |Children(v)|);
  }
}
