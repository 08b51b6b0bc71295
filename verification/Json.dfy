/**
 JSON values as Python holds them, and what the extras sanitizer
 (libex_core/audible/extras.py) makes of them, written as a recursion.  A
 dictionary is its ordered assignments, so two keys that become equal collide
 as they do in Python: the first keeps its place, the last its value.
 */
module Json {

  datatype Pair<+T> = Pair(key: string, value: T)

  datatype Float = Finite(value: real) | NonFinite

  datatype Json =
    | Null
    | Bool(b: bool)
    | Int(n: int)
    | Num(f: Float)
    | Str(s: string)
    | List(items: seq<Json>)
    | Obj(entries: seq<Pair<Json>>)

  predicate IsContainer(v: Json) {
    v.List? || v.Obj?
  }

  // ---------------------------------------------------------------- dictionaries

  /** d[key] = value */
  function Put<T>(d: seq<Pair<T>>, key: string, value: T): seq<Pair<T>> {
    if d == [] then [Pair(key, value)]
    else if d[0].key == key then [Pair(key, value)] + d[1..]
    else [d[0]] + Put(d[1..], key, value)
  }

  /** The dictionary these assignments build, in order. */
  function PutAll<T>(keys: seq<string>, values: seq<T>): seq<Pair<T>>
    requires |keys| == |values|
    decreases |keys|
  {
    if keys == [] then []
    else
      var n := |keys| - 1;
      Put(PutAll(keys[..n], values[..n]), keys[n], values[n])
  }

  predicate HasKey<T>(d: seq<Pair<T>>, key: string) {
    exists i :: 0 <= i < |d| && d[i].key == key
  }

  predicate DistinctKeys<T>(d: seq<Pair<T>>) {
    forall i, j | 0 <= i < j < |d| :: d[i].key != d[j].key
  }

  /** The assignments by number: which one each final entry comes from. */
  function Upto(n: nat): seq<nat> {
    seq(n, i => i)
  }

  function Layout(keys: seq<string>): seq<Pair<nat>> {
    PutAll<nat>(keys, Upto(|keys|))
  }

  /** Two dictionaries with the same keys stay so under the same assignment. */
  lemma {:induction false} PutParallel<A, B>(a: seq<Pair<A>>, b: seq<Pair<B>>, key: string, x: A, y: B)
    requires |a| == |b| && forall i | 0 <= i < |a| :: a[i].key == b[i].key
    ensures |Put(a, key, x)| == |Put(b, key, y)|
    ensures forall i | 0 <= i < |Put(a, key, x)| ::
              (Put(a, key, x)[i] == Pair(key, x) && Put(b, key, y)[i] == Pair(key, y)) ||
              (i < |a| && Put(a, key, x)[i] == a[i] && Put(b, key, y)[i] == b[i])
  {
    if a != [] && a[0].key != key {
      PutParallel(a[1..], b[1..], key, x, y);
      assert Put(a, key, x) == [a[0]] + Put(a[1..], key, x);
      assert Put(b, key, y) == [b[0]] + Put(b[1..], key, y);
    }
  }

  lemma LayoutStep(keys: seq<string>)
    requires keys != []
    ensures var n := |keys| - 1; Layout(keys) == Put<nat>(Layout(keys[..n]), keys[n], n)
  {
    var n := |keys| - 1;
    var numbers := Upto(|keys|);
    assert numbers[..n] == Upto(n) && numbers[n] == n;
    assert PutAll<nat>(keys, numbers) == Put<nat>(PutAll<nat>(keys[..n], numbers[..n]), keys[n], numbers[n]);
  }

  /** Final entry j is the assignment its layout names. */
  ghost predicate LaidOut<T>(keys: seq<string>, values: seq<T>, d: seq<Pair<T>>, layout: seq<Pair<nat>>, j: nat)
    requires |keys| == |values| && j < |d| == |layout|
  {
    && layout[j].value < |keys|
    && keys[layout[j].value] == layout[j].key
    && d[j] == Pair(layout[j].key, values[layout[j].value])
  }

  /** Whatever the values, the final entries come from the same assignments. */
  lemma {:induction false} LayoutOf<T>(keys: seq<string>, values: seq<T>)
    requires |keys| == |values|
    ensures |PutAll(keys, values)| == |Layout(keys)|
    ensures forall j: nat | j < |Layout(keys)| :: LaidOut(keys, values, PutAll(keys, values), Layout(keys), j)
    decreases |keys|
  {
    if keys != [] {
      var n := |keys| - 1;
      var d, layout := PutAll(keys[..n], values[..n]), Layout(keys[..n]);
      LayoutOf(keys[..n], values[..n]);
      LayoutStep(keys);
      forall j | 0 <= j < |d| ensures d[j].key == layout[j].key {
        assert LaidOut(keys[..n], values[..n], d, layout, j);
      }
      PutParallel<T, nat>(d, layout, keys[n], values[n], n);
      forall j: nat | j < |Layout(keys)|
        ensures LaidOut(keys, values, PutAll(keys, values), Layout(keys), j)
      {
        if j < |d| {
          assert LaidOut(keys[..n], values[..n], d, layout, j);
        }
      }
    }
  }

  lemma {:induction false} PutHasKey<T>(d: seq<Pair<T>>, key: string, value: T, k: string)
    ensures HasKey(Put(d, key, value), k) <==> HasKey(d, k) || k == key
  {
    hide HasKey;
    if d == [] {
      HasKeyCons(Pair(key, value), [], k);
      assert Put(d, key, value) == [Pair(key, value)] + [];
    } else {
      var rest := d[1..];
      assert d == [d[0]] + rest;
      HasKeyCons(d[0], rest, k);
      if d[0].key == key {
        HasKeyCons(Pair(key, value), rest, k);
      } else {
        PutHasKey(rest, key, value, k);
        HasKeyCons(d[0], Put(rest, key, value), k);
      }
    }
  }

  lemma DistinctCons<T>(p: Pair<T>, d: seq<Pair<T>>)
    ensures DistinctKeys([p] + d) <==> DistinctKeys(d) && !HasKey(d, p.key)
  {
    var all := [p] + d;
    if DistinctKeys(all) {
      forall i, j | 0 <= i < j < |d| ensures d[i].key != d[j].key {
        assert all[i + 1].key != all[j + 1].key;
      }
      forall i | 0 <= i < |d| ensures d[i].key != p.key {
        assert all[0].key != all[i + 1].key;
      }
    }
    if DistinctKeys(d) && !HasKey(d, p.key) {
      forall i, j | 0 <= i < j < |all| ensures all[i].key != all[j].key {
        assert all[j] == d[j - 1] && (i > 0 ==> all[i] == d[i - 1]);
      }
    }
  }

  lemma {:induction false} PutDistinct<T>(d: seq<Pair<T>>, key: string, value: T)
    requires DistinctKeys(d)
    ensures DistinctKeys(Put(d, key, value))
  {
    if d != [] {
      hide HasKey, DistinctKeys;
      var rest := d[1..];
      assert d == [d[0]] + rest;
      DistinctCons(d[0], rest);
      if d[0].key == key {
        DistinctCons(Pair(key, value), rest);
      } else {
        PutDistinct(rest, key, value);
        PutHasKey(rest, key, value, d[0].key);
        DistinctCons(d[0], Put(rest, key, value));
      }
    }
  }

  lemma {:induction false} PutMembers<T>(d: seq<Pair<T>>, key: string, value: T)
    requires DistinctKeys(d)
    ensures forall p | p in Put(d, key, value) :: p == Pair(key, value) || (p in d && p.key != key)
    ensures forall p | p in d && p.key != key :: p in Put(d, key, value)
    ensures Pair(key, value) in Put(d, key, value)
  {
    if d != [] {
      hide DistinctKeys;
      var rest := d[1..];
      assert d == [d[0]] + rest;
      DistinctCons(d[0], rest);
      if d[0].key == key {
        forall p | p in rest ensures p.key != key {
          assert p.key == key ==> HasKey(rest, key);
        }
      } else {
        PutMembers(rest, key, value);
      }
    }
  }

  lemma {:induction false} PutAbsent<T>(d: seq<Pair<T>>, key: string, value: T)
    requires !HasKey(d, key)
    ensures Put(d, key, value) == d + [Pair(key, value)]
  {
    if d != [] {
      assert d == [d[0]] + d[1..];
      HasKeyCons(d[0], d[1..], key);
      hide HasKey;
      PutAbsent(d[1..], key, value);
    }
  }

  lemma PutEntries<T>(d: seq<Pair<T>>, key: string, value: T)
    requires DistinctKeys(d)
    ensures DistinctKeys(Put(d, key, value))
    ensures forall k :: HasKey(Put(d, key, value), k) <==> HasKey(d, k) || k == key
    ensures forall p | p in Put(d, key, value) :: p == Pair(key, value) || (p in d && p.key != key)
    ensures forall p | p in d && p.key != key :: p in Put(d, key, value)
    ensures Pair(key, value) in Put(d, key, value)
    ensures !HasKey(d, key) ==> Put(d, key, value) == d + [Pair(key, value)]
  {
    hide HasKey, DistinctKeys, Put;
    PutDistinct(d, key, value);
    PutMembers(d, key, value);
    forall k ensures HasKey(Put(d, key, value), k) <==> HasKey(d, k) || k == key {
      PutHasKey(d, key, value, k);
    }
    if !HasKey(d, key) { PutAbsent(d, key, value); }
  }

  lemma HasKeyCons<T>(p: Pair<T>, d: seq<Pair<T>>, k: string)
    ensures HasKey([p] + d, k) <==> p.key == k || HasKey(d, k)
  {
    if p.key == k {
      assert ([p] + d)[0].key == k;
    }
    if HasKey(d, k) {
      var i :| 0 <= i < |d| && d[i].key == k;
      assert ([p] + d)[i + 1].key == k;
    }
  }

  /** Each key assigned appears once. */
  lemma {:induction false} EachKeyOnce<T>(keys: seq<string>, values: seq<T>)
    requires |keys| == |values|
    ensures DistinctKeys(PutAll(keys, values))
    ensures forall k :: HasKey(PutAll(keys, values), k) <==> k in keys
    decreases |keys|
  {
    if keys != [] {
      var n := |keys| - 1;
      EachKeyOnce(keys[..n], values[..n]);
      PutEntries(PutAll(keys[..n], values[..n]), keys[n], values[n]);
      assert keys == keys[..n] + [keys[n]];
    }
  }

  lemma NotLater(keys: seq<string>, i: nat)
    requires i + 1 < |keys| && keys[i] !in keys[i + 1..]
    ensures var n := |keys| - 1; keys[i] != keys[n] && keys[i] !in keys[..n][i + 1..]
  {
    var n := |keys| - 1;
    assert keys[i + 1..] == keys[..n][i + 1..] + [keys[n]];
  }

  lemma PutAllLast<T>(keys: seq<string>, values: seq<T>)
    requires |keys| == |values| > 0
    ensures var n := |keys| - 1;
            PutAll(keys, values) == Put(PutAll(keys[..n], values[..n]), keys[n], values[n])
  {
  }

  /** It carries the value of its last assignment. */
  lemma {:induction false} LastWins<T>(keys: seq<string>, values: seq<T>, i: nat)
    requires |keys| == |values| && i < |keys| && keys[i] !in keys[i + 1..]
    ensures Pair(keys[i], values[i]) in PutAll(keys, values)
    decreases |keys|
  {
    hide PutAll, Put, HasKey, DistinctKeys;
    var n := |keys| - 1;
    EachKeyOnce(keys[..n], values[..n]);
    PutAllLast(keys, values);
    PutEntries(PutAll(keys[..n], values[..n]), keys[n], values[n]);
    if i < n {
      NotLater(keys, i);
      LastWins(keys[..n], values[..n], i);
    }
  }

  function Keys<T>(d: seq<Pair<T>>): seq<string> {
    seq(|d|, i requires 0 <= i < |d| => d[i].key)
  }

  function Values<T>(d: seq<Pair<T>>): seq<T> {
    seq(|d|, i requires 0 <= i < |d| => d[i].value)
  }

  lemma PutNew<T>(d: seq<Pair<T>>, key: string, value: T)
    requires DistinctKeys(d) && forall i | 0 <= i < |d| :: d[i].key != key
    ensures Put(d, key, value) == d + [Pair(key, value)]
  {
    PutEntries(d, key, value);
  }

  /** Assigning a dictionary's own entries builds it again. */
  lemma {:induction false} PutAllSame<T>(d: seq<Pair<T>>)
    requires DistinctKeys(d)
    ensures PutAll(Keys(d), Values(d)) == d
    decreases |d|
  {
    if d != [] {
      var n := |d| - 1;
      var before, last := d[..n], d[n];
      PutAllSame(before);
      assert Keys(d)[..n] == Keys(before) && Values(d)[..n] == Values(before);
      assert PutAll(Keys(d), Values(d)) == Put(before, last.key, last.value);
      hide PutAll, Put;
      PutNew(before, last.key, last.value);
      assert d == before + [last];
    }
  }

  // ---------------------------------------------------------------- what jsonb refuses

  function CountNul(s: string): nat {
    if s == "" then 0 else (if s[0] == '\0' then 1 else 0) + CountNul(s[1..])
  }

  function StripNul(s: string): string {
    if s == "" then "" else if s[0] == '\0' then StripNul(s[1..]) else [s[0]] + StripNul(s[1..])
  }

  lemma {:induction false} StripNulSafe(s: string)
    ensures '\0' !in StripNul(s)
    ensures |StripNul(s)| + CountNul(s) == |s|
    ensures CountNul(s) == 0 <==> '\0' !in s
    ensures '\0' !in s ==> StripNul(s) == s
  {
    if s != "" {
      StripNulSafe(s[1..]);
      assert s == [s[0]] + s[1..];
    }
  }

  function BitLength(n: nat): nat {
    if n == 0 then 0 else 1 + BitLength(n / 2)
  }

  const INT_BITS_ALWAYS_RENDERABLE: nat := 14283

  predicate IsUnstorableInt(n: int) {
    BitLength(if n < 0 then -n else n) > INT_BITS_ALWAYS_RENDERABLE
  }

  /** The largest magnitude the bit count admits: exactly those below 2**k. */
  lemma {:induction false} BitLengthBounds(n: nat, k: nat)
    ensures BitLength(n) <= k <==> n < Pow2(k)
    decreases k
  {
    if k > 0 {
      BitLengthBounds(n / 2, k - 1);
      BitLengthBounds(0, k - 1);
    }
  }

  function Pow2(k: nat): nat {
    if k == 0 then 1 else 2 * Pow2(k - 1)
  }

  datatype Counts = Counts(nul: nat, nonFinite: nat, oversized: nat)

  function NoCounts(): Counts { Counts(0, 0, 0) }

  function Add(a: Counts, b: Counts): Counts {
    Counts(a.nul + b.nul, a.nonFinite + b.nonFinite, a.oversized + b.oversized)
  }

  /** A value that is not a container, made storable. */
  function CleanLeaf(v: Json): Json {
    match v
    case Str(s) => Str(StripNul(s))
    case Num(f) => if f.NonFinite? then Null else v
    case Int(n) => if IsUnstorableInt(n) then Null else v
    case _ => v
  }

  function CountLeaf(v: Json): Counts {
    match v
    case Str(s) => Counts(CountNul(s), 0, 0)
    case Num(f) => if f.NonFinite? then Counts(0, 1, 0) else NoCounts()
    case Int(n) => if IsUnstorableInt(n) then Counts(0, 0, 1) else NoCounts()
    case _ => NoCounts()
  }

  /** Only three kinds of value are refused, each counted under its own name: a float
      that is not finite and an integer of more than 14283 bits become null, a string
      loses its NULs, and everything else is left as it is. */
  lemma LeafBecomes(v: Json)
    requires !IsContainer(v)
    ensures v == Num(NonFinite) <==> CountLeaf(v) == Counts(0, 1, 0)
    ensures v.Int? && (v.n >= Pow2(14283) || -v.n >= Pow2(14283)) <==> CountLeaf(v) == Counts(0, 0, 1)
    ensures v == Num(NonFinite) || (v.Int? && (v.n >= Pow2(14283) || -v.n >= Pow2(14283))) ==> CleanLeaf(v) == Null
    ensures v.Str? ==> CleanLeaf(v) == Str(StripNul(v.s)) && CountLeaf(v) == Counts(multiset(v.s)['\0'], 0, 0)
    ensures CountLeaf(v) == NoCounts() ==> CleanLeaf(v) == v
  {
    hide Pow2, BitLength;
    if v.Int? {
      BitLengthBounds(if v.n < 0 then -v.n else v.n, 14283);
    }
    if v.Str? {
      StripNulSafe(v.s);
      CountNulCounts(v.s);
    }
  }

  lemma {:induction false} CountNulCounts(s: string)
    ensures CountNul(s) == multiset(s)['\0']
  {
    if s != "" {
      CountNulCounts(s[1..]);
      assert s == [s[0]] + s[1..];
    }
  }

  /** What is not a NUL stays, in its order. */
  lemma {:induction false} StripNulParts(a: string, b: string)
    ensures StripNul(a + b) == StripNul(a) + StripNul(b)
    ensures forall c :: StripNul([c]) == if c == '\0' then "" else [c]
  {
    if a == "" {
      assert a + b == b;
    } else {
      assert (a + b)[1..] == a[1..] + b;
      StripNulParts(a[1..], b);
    }
    forall c ensures StripNul([c]) == if c == '\0' then "" else [c] {
      assert [c][1..] == "";
    }
  }

  // ---------------------------------------------------------------- the recursion

  /** The recursive specification of _sanitize_for_jsonb's copy. */
  function Clean(v: Json): Json {
    match v
    case List(items) => List(CleanItems(items))
    case Obj(entries) => Obj(PutAll(CleanKeys(entries), CleanValues(entries)))
    case _ => CleanLeaf(v)
  }

  function CleanItems(items: seq<Json>): (r: seq<Json>)
    ensures |r| == |items|
  {
    seq(|items|, i requires 0 <= i < |items| => Clean(items[i]))
  }

  function CleanKeys(entries: seq<Pair<Json>>): (r: seq<string>)
    ensures |r| == |entries|
  {
    seq(|entries|, i requires 0 <= i < |entries| => StripNul(entries[i].key))
  }

  function CleanValues(entries: seq<Pair<Json>>): (r: seq<Json>)
    ensures |r| == |entries|
  {
    seq(|entries|, i requires 0 <= i < |entries| => Clean(entries[i].value))
  }

  /** Everything changed inside v, overwritten values included. */
  function CountIn(v: Json): Counts {
    match v
    case List(items) => CountItems(items)
    case Obj(entries) => CountEntries(entries)
    case _ => CountLeaf(v)
  }

  function CountItems(items: seq<Json>): Counts {
    if items == [] then NoCounts() else Add(CountItems(items[..|items| - 1]), CountIn(items[|items| - 1]))
  }

  function CountEntries(entries: seq<Pair<Json>>): Counts {
    if entries == [] then NoCounts()
    else
      var last := entries[|entries| - 1];
      Add(CountEntries(entries[..|entries| - 1]), Add(Counts(CountNul(last.key), 0, 0), CountIn(last.value)))
  }

  function Max(a: nat, b: nat): nat { if a > b then a else b }

  /** How deep v's containers nest, v itself counting as one. */
  function Height(v: Json): nat {
    match v
    case List(items) => 1 + HeightItems(items)
    case Obj(entries) => 1 + HeightEntries(entries)
    case _ => 0
  }

  function HeightItems(items: seq<Json>): nat {
    if items == [] then 0 else Max(HeightItems(items[..|items| - 1]), Height(items[|items| - 1]))
  }

  function HeightEntries(entries: seq<Pair<Json>>): nat {
    if entries == [] then 0 else Max(HeightEntries(entries[..|entries| - 1]), Height(entries[|entries| - 1].value))
  }

  /** Nothing in v that jsonb refuses, and every dictionary's keys distinct. */
  ghost predicate Safe(v: Json) {
    match v
    case Str(s) => '\0' !in s
    case Num(f) => f.Finite?
    case Int(n) => !IsUnstorableInt(n)
    case List(items) => forall x | x in items :: Safe(x)
    case Obj(entries) => DistinctKeys(entries) && forall p | p in entries :: '\0' !in p.key && Safe(p.value)
    case _ => true
  }

  // ---------------------------------------------------------------- what the copy is

  /** The copy holds nothing jsonb refuses. */
  lemma {:induction false} CleanIsSafe(v: Json)
    ensures Safe(Clean(v))
  {
    match v
    case List(items) =>
      forall x | x in CleanItems(items) ensures Safe(x) {
        var i :| 0 <= i < |items| && x == Clean(items[i]);
        CleanIsSafe(items[i]);
      }
    case Obj(entries) =>
      var keys, values := CleanKeys(entries), CleanValues(entries);
      EachKeyOnce(keys, values);
      LayoutOf(keys, values);
      forall p | p in PutAll(keys, values) ensures '\0' !in p.key && Safe(p.value) {
        var j :| 0 <= j < |PutAll(keys, values)| && PutAll(keys, values)[j] == p;
        assert LaidOut(keys, values, PutAll(keys, values), Layout(keys), j);
        var i := Layout(keys)[j].value;
        StripNulSafe(entries[i].key);
        CleanIsSafe(entries[i].value);
      }
    case Str(s) => StripNulSafe(s);
    case _ =>
  }

  /** A safe value is its own copy, and nothing in it is counted. */
  lemma {:induction false} SafeIsUnchanged(v: Json)
    requires Safe(v)
    ensures Clean(v) == v && CountIn(v) == NoCounts()
  {
    match v
    case List(items) =>
      forall i | 0 <= i < |items| ensures Clean(items[i]) == items[i] && Unchanged(items[i]) {
        SafeIsUnchanged(items[i]);
      }
      assert CleanItems(items) == items;
      NothingInItems(items);
    case Obj(entries) =>
      forall i | 0 <= i < |entries|
        ensures Clean(entries[i].value) == entries[i].value && Unchanged(entries[i].value)
        ensures StripNul(entries[i].key) == entries[i].key && CountNul(entries[i].key) == 0
      {
        assert entries[i] in entries;
        SafeIsUnchanged(entries[i].value);
        StripNulSafe(entries[i].key);
      }
      assert CleanKeys(entries) == Keys(entries) && CleanValues(entries) == Values(entries);
      PutAllSame(entries);
      NothingInEntries(entries);
    case Str(s) => StripNulSafe(s);
    case _ =>
  }

  ghost predicate Unchanged(v: Json) {
    CountIn(v) == NoCounts()
  }

  lemma {:induction false} NothingInItems(items: seq<Json>)
    requires forall x | x in items :: Unchanged(x)
    ensures CountItems(items) == NoCounts()
  {
    if items != [] {
      var n := |items| - 1;
      var last := items[n];
      NothingInItems(items[..n]);
      assert Unchanged(last);
      assert CountItems(items) == Add(CountItems(items[..n]), CountIn(last));
    }
  }

  lemma {:induction false} NothingInEntries(entries: seq<Pair<Json>>)
    requires forall p | p in entries :: Unchanged(p.value) && CountNul(p.key) == 0
    ensures CountEntries(entries) == NoCounts()
  {
    if entries != [] {
      var n := |entries| - 1;
      var last := entries[n];
      NothingInEntries(entries[..n]);
      assert Unchanged(last.value);
    }
  }

  lemma {:induction false} HeightItemsBound(items: seq<Json>, h: nat)
    ensures HeightItems(items) <= h <==> forall i | 0 <= i < |items| :: Height(items[i]) <= h
  {
    if items != [] {
      HeightItemsBound(items[..|items| - 1], h);
    }
  }

  lemma {:induction false} HeightEntriesBound(entries: seq<Pair<Json>>, h: nat)
    ensures HeightEntries(entries) <= h <==> forall i | 0 <= i < |entries| :: Height(entries[i].value) <= h
  {
    if entries != [] {
      HeightEntriesBound(entries[..|entries| - 1], h);
    }
  }

  /** Copying never nests deeper: an overwritten branch is gone from the copy. */
  lemma {:induction false} CleanNotDeeper(v: Json)
    ensures Height(Clean(v)) <= Height(v)
  {
    match v
    case List(items) =>
      var h := HeightItems(items);
      HeightItemsBound(items, h);
      forall i | 0 <= i < |items| ensures Height(CleanItems(items)[i]) <= h {
        CleanNotDeeper(items[i]);
      }
      HeightItemsBound(CleanItems(items), h);
    case Obj(entries) =>
      var h := HeightEntries(entries);
      HeightEntriesBound(entries, h);
      var keys, values := CleanKeys(entries), CleanValues(entries);
      LayoutOf(keys, values);
      forall j | 0 <= j < |PutAll(keys, values)| ensures Height(PutAll(keys, values)[j].value) <= h {
        assert LaidOut(keys, values, PutAll(keys, values), Layout(keys), j);
        CleanNotDeeper(entries[Layout(keys)[j].value].value);
      }
      HeightEntriesBound(PutAll(keys, values), h);
    case _ =>
  }

  // ---------------------------------------------------------------- keys kept

  ghost predicate NulFree(d: seq<Pair<Json>>) {
    forall p | p in d :: '\0' !in p.key
  }

  /** Assigning a NUL-free key keeps a dictionary's keys distinct and NUL-free. */
  lemma PutKeeps(e: seq<Pair<Json>>, key: string, v: Json)
    requires DistinctKeys(e) && NulFree(e) && '\0' !in key
    ensures DistinctKeys(Put(e, key, v)) && NulFree(Put(e, key, v)) && Pair(key, v) in Put(e, key, v)
    ensures forall p | p in e && p.key != key :: p in Put(e, key, v)
  {
    PutEntries(e, key, v);
  }

  /** With NUL-free keys, the copy of a dictionary has every key in its place. */
  lemma CleanKeepsEveryKey(d: seq<Pair<Json>>)
    requires DistinctKeys(d) && NulFree(d)
    ensures Clean(Obj(d)).entries == seq(|d|, i requires 0 <= i < |d| => Pair(d[i].key, Clean(d[i].value)))
  {
    var e := seq(|d|, i requires 0 <= i < |d| => Pair(d[i].key, Clean(d[i].value)));
    forall i | 0 <= i < |d| ensures StripNul(d[i].key) == d[i].key {
      assert d[i] in d;
      StripNulSafe(d[i].key);
    }
    assert CleanKeys(d) == Keys(e) && CleanValues(d) == Values(e);
    PutAllSame(e);
  }

  lemma CleanHasPair(d: seq<Pair<Json>>, p: Pair<Json>)
    requires DistinctKeys(d) && NulFree(d) && p in d
    ensures Pair(p.key, Clean(p.value)) in Clean(Obj(d)).entries
  {
    CleanKeepsEveryKey(d);
    var i :| 0 <= i < |d| && d[i] == p;
    assert Clean(Obj(d)).entries[i] == Pair(p.key, Clean(p.value));
  }

  /** Without that, a key can be lost with only its NUL counted: of two keys that
      differ in a NUL the copy has one, with the later one's value. */
  lemma NulKeysCollide(k: string, x: Json, y: Json)
    requires '\0' !in k
    ensures Clean(Obj([Pair(k + "\0", x), Pair(k, y)])) == Obj([Pair(k, Clean(y))])
  {
    var d := [Pair(k + "\0", x), Pair(k, y)];
    var keys, values := CleanKeys(d), CleanValues(d);
    StripEnd(k);
    StripNulSafe(k);
    assert keys == [k, k] && values == [Clean(x), Clean(y)];
    EachKeyOnce(keys, values);
    LastWins(keys, values, 1);
    OnlyKey(PutAll(keys, values), k, Clean(y));
  }

  /** No two keys of a dictionary differ only by NULs. */
  ghost predicate KeysStayApart(d: seq<Pair<Json>>) {
    forall i, j | 0 <= i < j < |d| :: StripNul(d[i].key) != StripNul(d[j].key)
  }

  /** What the copy would be if every entry stayed in its place. */
  function InPlace(d: seq<Pair<Json>>): (r: seq<Pair<Json>>)
    ensures |r| == |d|
  {
    seq(|d|, i requires 0 <= i < |d| => Pair(StripNul(d[i].key), Clean(d[i].value)))
  }

  /** As many entries as assignments means no key was assigned twice. */
  lemma {:induction false} PutAllLength<T>(keys: seq<string>, values: seq<T>)
    requires |keys| == |values|
    ensures |PutAll(keys, values)| <= |keys|
    ensures |PutAll(keys, values)| == |keys| ==> forall i, j | 0 <= i < j < |keys| :: keys[i] != keys[j]
    decreases |keys|
  {
    if keys != [] {
      var n := |keys| - 1;
      var before := PutAll(keys[..n], values[..n]);
      PutAllLength(keys[..n], values[..n]);
      EachKeyOnce(keys[..n], values[..n]);
      PutLength(before, keys[n], values[n]);
      if |PutAll(keys, values)| == |keys| {
        forall i, j | 0 <= i < j < |keys| ensures keys[i] != keys[j] {
          if j == n { assert keys[i] in keys[..n]; } else { assert keys[..n][i] != keys[..n][j]; }
        }
      }
    }
  }

  lemma {:induction false} PutLength<T>(d: seq<Pair<T>>, key: string, value: T)
    ensures |Put(d, key, value)| == |d| + (if HasKey(d, key) then 0 else 1)
  {
    if d != [] && d[0].key != key {
      PutLength(d[1..], key, value);
      HasKeyCons(d[0], d[1..], key);
      assert d == [d[0]] + d[1..];
    } else if d != [] {
      assert HasKey(d, key);
    }
  }

  /** The copy of a dictionary keeps every entry, each in its place, if and only if no
      two of its keys differ only by NULs; otherwise it has fewer entries. */
  lemma KeepsEveryEntryIff(d: seq<Pair<Json>>)
    ensures |Clean(Obj(d)).entries| == |d| <==> KeysStayApart(d)
    ensures Clean(Obj(d)).entries == InPlace(d) <==> KeysStayApart(d)
    ensures |Clean(Obj(d)).entries| <= |d|
  {
    PutAllLength(CleanKeys(d), CleanValues(d));
    assert forall i | 0 <= i < |d| :: CleanKeys(d)[i] == StripNul(d[i].key);
    if KeysStayApart(d) {
      var e := InPlace(d);
      assert CleanKeys(d) == Keys(e) && CleanValues(d) == Values(e);
      PutAllSame(e);
    }
  }

  lemma {:induction false} StripEnd(k: string)
    ensures StripNul(k + "\0") == StripNul(k)
  {
    if k == "" {
      assert k + "\0" == "\0" && "\0"[1..] == "";
    } else {
      assert (k + "\0")[1..] == k[1..] + "\0";
      StripEnd(k[1..]);
    }
  }

  lemma OnlyKey(d: seq<Pair<Json>>, k: string, v: Json)
    requires DistinctKeys(d) && Pair(k, v) in d && forall q :: HasKey(d, q) ==> q == k
    ensures d == [Pair(k, v)]
  {
    forall i | 0 <= i < |d| ensures d[i].key == k {
      assert HasKey(d, d[i].key);
    }
    FirstTwoApart(d);
  }

  lemma FirstTwoApart<T>(d: seq<Pair<T>>)
    requires DistinctKeys(d)
    ensures |d| >= 2 ==> d[0].key != d[1].key
  {
  }
}
