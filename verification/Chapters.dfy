/**
 libex_core/audible/chapters.py: one chapter and its sub-chapters in the response
 shape, what rides in each chapter's extras, and the record of what was withheld.
 */
module Chapters {
  import opened Common
  import opened Json
  import opened Extras
  import opened ExtrasWalk

  const CHAPTER_CONSUMED: set<string> := {"length_ms", "start_offset_ms", "start_offset_sec", "title", "chapters"}

  /** What this module asks of others: the response model's lax coercions, and the
      bytes json.dumps makes of a value. */
  datatype Env = Env(toInt: Json -> Option<int>, encode: Json -> Option<nat>)

  /** `chapters` in the response: null, or the sub-chapters. */
  datatype SubList = NoSubs | Subs(list: seq<Chapter>)

  datatype Chapter = Chapter(lengthMs: int, startOffsetMs: int, startOffsetSec: int, title: string,
                             chapters: SubList, extras: Option<Json>)

  datatype ReasonCount = ReasonCount(depth: nat, unserializable: nat, tooLarge: nat)

  /** What _Withheld has collected. */
  datatype Tally = Tally(sanitized: Counts, chapterExtras: ReasonCount, subChapterDepth: nat)

  function NoTally(): Tally {
    Tally(NoCounts(), ReasonCount(0, 0, 0), 0)
  }

  function AddTally(a: Tally, b: Tally): Tally {
    Tally(Add(a.sanitized, b.sanitized),
          ReasonCount(a.chapterExtras.depth + b.chapterExtras.depth,
                      a.chapterExtras.unserializable + b.chapterExtras.unserializable,
                      a.chapterExtras.tooLarge + b.chapterExtras.tooLarge),
          a.subChapterDepth + b.subChapterDepth)
  }

  // ---------------------------------------------------------------- reading one chapter

  /** _coerce: what the model accepts, if json.dumps can render it. */
  function CoerceInt(env: Env, v: Json): Option<int> {
    match env.toInt(v)
    case Some(n) => if IsUnstorableInt(n) then None else Some(n)
    case None => None
  }

  function ReadInt(env: Env, c: seq<Pair<Json>>, key: string): int {
    match Get(c, key)
    case Some(v) => (match CoerceInt(env, v) case Some(n) => n case None => 0)
    case None => 0
  }

  /** The raw value put aside when a typed scalar is refused. */
  function RescueInt(env: Env, c: seq<Pair<Json>>, key: string, extras: seq<Pair<Json>>): seq<Pair<Json>> {
    match Get(c, key)
    case Some(v) => if CoerceInt(env, v).None? then Put(extras, key, v) else extras
    case None => extras
  }

  function ReadTitle(c: seq<Pair<Json>>): string {
    match Get(c, "title")
    case Some(Str(s)) => s
    case _ => ""
  }

  /** The typed scalars, read in this order. */
  function Scalars(env: Env, c: seq<Pair<Json>>, extras: seq<Pair<Json>>): seq<Pair<Json>> {
    RescueInt(env, c, "start_offset_sec", RescueInt(env, c, "start_offset_ms", RescueInt(env, c, "length_ms", extras)))
  }

  function RescueTitle(c: seq<Pair<Json>>, extras: seq<Pair<Json>>): seq<Pair<Json>> {
    match Get(c, "title")
    case Some(v) => if v.Str? then extras else Put(extras, "title", v)
    case None => extras
  }

  function Without(d: seq<Pair<Json>>, keys: set<string>): seq<Pair<Json>> {
    if d == [] then []
    else
      var rest, last := Without(d[..|d| - 1], keys), d[|d| - 1];
      if last.key in keys then rest else rest + [last]
  }

  predicate IsChapterList(v: Json) {
    v.List? && forall x | x in v.items :: x.Obj?
  }

  /** The sub-chapters normalized under this chapter. */
  function SubChapters(c: seq<Pair<Json>>, depth: nat): seq<Json> {
    match Get(c, "chapters")
    case Some(v) => if IsChapterList(v) && depth < MAX_DEPTH then v.items else []
    case None => []
  }

  /** A nonempty list of chapters at the deepest level is carried as sent. */
  predicate IsCut(c: seq<Pair<Json>>, depth: nat) {
    match Get(c, "chapters")
    case Some(v) => IsChapterList(v) && v.items != [] && depth >= MAX_DEPTH
    case None => false
  }

  function RescueChapters(c: seq<Pair<Json>>, depth: nat, extras: seq<Pair<Json>>): seq<Pair<Json>> {
    match Get(c, "chapters")
    case Some(v) =>
      if IsChapterList(v) then (if v.items != [] && depth >= MAX_DEPTH then Put(extras, "chapters", v) else extras)
      else if v.Null? then extras
      else Put(extras, "chapters", v)
    case None => extras
  }

  /** Everything that rides in the chapter's extras, before bounding. */
  function RawExtras(env: Env, c: seq<Pair<Json>>, depth: nat): seq<Pair<Json>> {
    var own := Without(c, CHAPTER_CONSUMED);
    var titled := RescueTitle(c, own);
    RescueChapters(c, depth, Scalars(env, c, titled))
  }

  /** Why this chapter's extras are absent although it has some. */
  function ExtrasReason(env: Env, c: seq<Pair<Json>>, depth: nat): Option<Reason> {
    var extras := RawExtras(env, c, depth);
    if extras == [] then None
    else match Bound(env.encode, Obj(extras)) case Kept(_) => None case Dropped(r) => Some(r)
  }

  function ExtrasOf(env: Env, c: seq<Pair<Json>>, depth: nat): Option<Json> {
    var extras := RawExtras(env, c, depth);
    if extras == [] then None
    else match Bound(env.encode, Obj(extras)) case Kept(b) => Some(b) case Dropped(_) => None
  }

  lemma {:induction false} GetIndex(c: seq<Pair<Json>>, key: string)
    ensures Get(c, key).Some? ==> exists i :: 0 <= i < |c| && c[i] == Pair(key, Get(c, key).value)
  {
    if c != [] {
      if c[0].key == key {
        assert c[0] == Pair(key, Get(c, key).value);
      } else {
        GetIndex(c[1..], key);
        if Get(c[1..], key).Some? {
          var i :| 0 <= i < |c[1..]| && c[1..][i] == Pair(key, Get(c[1..], key).value);
          assert c[i + 1] == Pair(key, Get(c, key).value);
        }
      }
    }
  }

  /** The sub-chapters are parts of the chapter, so normalizing ends. */
  lemma SubChaptersSmaller(c: Json, depth: nat)
    requires c.Obj?
    ensures forall i | 0 <= i < |SubChapters(c.entries, depth)| ::
              SubChapters(c.entries, depth)[i].Obj? && SubChapters(c.entries, depth)[i] < c
  {
    GetIndex(c.entries, "chapters");
    if SubChapters(c.entries, depth) != [] {
      var i :| 0 <= i < |c.entries| && c.entries[i] == Pair("chapters", Get(c.entries, "chapters").value);
      assert c.entries[i].value < c;
    }
  }

  // ---------------------------------------------------------------- one chapter and all below it

  /** _normalize_chapter as a recursion. */
  function Norm(env: Env, c: Json, depth: nat): Chapter
    requires c.Obj?
    decreases c, 1, 0
  {
    var d := c.entries;
    SubChaptersSmaller(c, depth);
    var subs := SubChapters(d, depth);
    Chapter(ReadInt(env, d, "length_ms"), ReadInt(env, d, "start_offset_ms"), ReadInt(env, d, "start_offset_sec"),
            StripNul(ReadTitle(d)),
            if subs == [] then NoSubs else Subs(NormAll(env, c, subs, depth + 1)),
            ExtrasOf(env, d, depth))
  }

  function NormAll(env: Env, parent: Json, subs: seq<Json>, depth: nat): (r: seq<Chapter>)
    requires forall i | 0 <= i < |subs| :: subs[i].Obj? && subs[i] < parent
    ensures |r| == |subs|
    decreases parent, 0, |subs|
  {
    if subs == [] then []
    else NormAll(env, parent, subs[..|subs| - 1], depth) + [Norm(env, subs[|subs| - 1], depth)]
  }

  /** Sub-chapters keep their order, each normalized on its own. */
  lemma {:induction false} NormAllAt(env: Env, parent: Json, subs: seq<Json>, depth: nat, k: nat)
    requires forall i | 0 <= i < |subs| :: subs[i].Obj? && subs[i] < parent
    requires k < |subs|
    ensures NormAll(env, parent, subs, depth)[k] == Norm(env, subs[k], depth)
    decreases |subs|
  {
    if k < |subs| - 1 {
      NormAllAt(env, parent, subs[..|subs| - 1], depth, k);
    }
  }

  function One(r: Option<Reason>): ReasonCount {
    match r
    case None => ReasonCount(0, 0, 0)
    case Some(Depth) => ReasonCount(1, 0, 0)
    case Some(Unserializable) => ReasonCount(0, 1, 0)
    case Some(TooLarge) => ReasonCount(0, 0, 1)
  }

  /** What this chapter itself adds to the record, sub-chapters aside. */
  function OwnTally(env: Env, d: seq<Pair<Json>>, depth: nat): Tally {
    var title := ReadTitle(d);
    var extras := RawExtras(env, d, depth);
    Tally(Add(if CountNul(title) > 0 then Spent(Obj([Pair("title", Str(title))])) else NoCounts(),
              if extras == [] then NoCounts() else Spent(Obj(extras))),
          One(ExtrasReason(env, d, depth)),
          if IsCut(d, depth) then 1 else 0)
  }

  function TallyOf(env: Env, c: Json, depth: nat): Tally
    requires c.Obj?
    decreases c, 1, 0
  {
    SubChaptersSmaller(c, depth);
    AddTally(OwnTally(env, c.entries, depth), TallyAll(env, c, SubChapters(c.entries, depth), depth + 1))
  }

  function TallyAll(env: Env, parent: Json, subs: seq<Json>, depth: nat): Tally
    requires forall i | 0 <= i < |subs| :: subs[i].Obj? && subs[i] < parent
    decreases parent, 0, |subs|
  {
    if subs == [] then NoTally()
    else AddTally(TallyAll(env, parent, subs[..|subs| - 1], depth), TallyOf(env, subs[|subs| - 1], depth))
  }

  class Withheld {
    var sanitized: Counts
    var chapterExtras: ReasonCount
    var subChapterDepth: nat

    function View(): Tally
      reads this
    {
      Tally(sanitized, chapterExtras, subChapterDepth)
    }

    constructor ()
      ensures View() == NoTally()
    {
      sanitized, chapterExtras, subChapterDepth := NoCounts(), ReasonCount(0, 0, 0), 0;
    }

    /** Runs one verbatim blob through the shared bounds, adding what it cost. */
    method BoundBlob(env: Env, blob: Json) returns (bounded: Bounded)
      modifies this
      ensures bounded == Bound(env.encode, blob)
      ensures sanitized == Add(old(sanitized), Spent(blob))
      ensures chapterExtras == old(chapterExtras) && subChapterDepth == old(subChapterDepth)
    {
      bounded := Bound(env.encode, blob);
      sanitized := Add(sanitized, Spent(blob));
    }

    method CountCut()
      modifies this
      ensures View() == AddTally(old(View()), Tally(NoCounts(), ReasonCount(0, 0, 0), 1))
    {
      subChapterDepth := subChapterDepth + 1;
    }

    method CountChapterExtras(reason: Reason)
      modifies this
      ensures View() == AddTally(old(View()), Tally(NoCounts(), One(Some(reason)), 0))
    {
      chapterExtras :=
        match reason
        case Depth => chapterExtras.(depth := chapterExtras.depth + 1)
        case Unserializable => chapterExtras.(unserializable := chapterExtras.unserializable + 1)
        case TooLarge => chapterExtras.(tooLarge := chapterExtras.tooLarge + 1);
    }
  }

  lemma TallyMoves(was: Tally, title: Counts, extras: Counts, reason: ReasonCount, cut: nat, subs: Tally)
    ensures AddTally(was, AddTally(Tally(Add(title, extras), reason, cut), subs)) ==
            AddTally(AddTally(AddTally(AddTally(was, Tally(title, ReasonCount(0, 0, 0), 0)), Tally(NoCounts(), ReasonCount(0, 0, 0), cut)), subs),
                     Tally(extras, reason, 0))
  {
  }

  /** _normalize_chapter: the record is updated while the recursion runs, in
      whatever order it meets things; what it adds up to does not depend on it. */
  method NormalizeChapter(env: Env, c: Json, depth: nat, w: Withheld) returns (chapter: Chapter)
    requires c.Obj?
    modifies w
    ensures chapter == Norm(env, c, depth)
    ensures w.View() == AddTally(old(w.View()), TallyOf(env, c, depth))
    decreases c, 1, 0
  {
    NormParts(env, c, depth, w.View());
    hide Norm, TallyAll, TallyOf, AddTally, TitleHits, ExtrasHits, ExtrasOf, ExtrasReason, ReadInt, IsCut, SubChapters, StripNul, ReadTitle;
    var d := c.entries;
    var subs := SubChapters(d, depth);
    var title := NormalizeTitle(env, d, w);
    if IsCut(d, depth) {
      w.CountCut();
    } else {
      AddTallyNothing(w.View());
    }
    var chapters := NormalizeAll(env, c, subs, depth + 1, w);
    var extras := BoundOwnExtras(env, d, depth, w);
    chapter := Chapter(ReadInt(env, d, "length_ms"), ReadInt(env, d, "start_offset_ms"),
                       ReadInt(env, d, "start_offset_sec"), title,
                       if subs == [] then NoSubs else Subs(chapters), extras);
  }

  lemma AddTallyNothing(t: Tally)
    ensures AddTally(t, Tally(NoCounts(), ReasonCount(0, 0, 0), 0)) == t
  {
  }

  /** The recursion's value and record, in the order the method makes them. */
  lemma NormParts(env: Env, c: Json, depth: nat, was: Tally)
    requires c.Obj?
    ensures var d, subs := c.entries, SubChapters(c.entries, depth);
            && (forall i | 0 <= i < |subs| :: subs[i].Obj? && subs[i] < c)
            && Norm(env, c, depth) ==
               Chapter(ReadInt(env, d, "length_ms"), ReadInt(env, d, "start_offset_ms"), ReadInt(env, d, "start_offset_sec"),
                       StripNul(ReadTitle(d)),
                       if subs == [] then NoSubs else Subs(NormAll(env, c, subs, depth + 1)),
                       ExtrasOf(env, d, depth))
            && AddTally(was, TallyOf(env, c, depth)) ==
               AddTally(AddTally(AddTally(AddTally(was, Tally(TitleHits(d), ReasonCount(0, 0, 0), 0)),
                                          Tally(NoCounts(), ReasonCount(0, 0, 0), if IsCut(d, depth) then 1 else 0)),
                                 TallyAll(env, c, subs, depth + 1)),
                        Tally(ExtrasHits(env, d, depth), One(ExtrasReason(env, d, depth)), 0))
  {
    SubChaptersSmaller(c, depth);
    var d, subs := c.entries, SubChapters(c.entries, depth);
    OwnTallyParts(env, d, depth);
    TallyMoves(was, TitleHits(d), ExtrasHits(env, d, depth), One(ExtrasReason(env, d, depth)),
               if IsCut(d, depth) then 1 else 0, TallyAll(env, c, subs, depth + 1));
  }

  function TitleHits(d: seq<Pair<Json>>): Counts {
    if CountNul(ReadTitle(d)) > 0 then Spent(Obj([Pair("title", Str(ReadTitle(d)))])) else NoCounts()
  }

  function ExtrasHits(env: Env, d: seq<Pair<Json>>, depth: nat): Counts {
    if RawExtras(env, d, depth) == [] then NoCounts() else Spent(Obj(RawExtras(env, d, depth)))
  }

  lemma OwnTallyParts(env: Env, d: seq<Pair<Json>>, depth: nat)
    ensures OwnTally(env, d, depth) ==
            Tally(Add(TitleHits(d), ExtrasHits(env, d, depth)), One(ExtrasReason(env, d, depth)), if IsCut(d, depth) then 1 else 0)
  {
  }

  lemma TitleCleaned(title: string)
    ensures var b := Clean(Obj([Pair("title", Str(title))])); b.Obj? && ReadTitle(b.entries) == StripNul(title)
  {
    var d := [Pair("title", Str(title))];
    assert forall p | p in d :: p == d[0];
    CleanKeepsEveryKey(d);
    var b := Clean(Obj(d));
    assert b.entries[0] == Pair("title", Clean(Str(title)));
    assert Get(b.entries, "title") == Some(Str(StripNul(title)));
  }

  /** A NUL in a title is stripped and counted. */
  method NormalizeTitle(env: Env, d: seq<Pair<Json>>, w: Withheld) returns (title: string)
    modifies w
    ensures title == StripNul(ReadTitle(d))
    ensures w.View() == AddTally(old(w.View()), Tally(TitleHits(d), ReasonCount(0, 0, 0), 0))
  {
    title := ReadTitle(d);
    StripNulSafe(title);
    if '\0' in title {
      var bounded := w.BoundBlob(env, Obj([Pair("title", Str(title))]));
      TitleCleaned(title);
      match bounded
      case Kept(b) => title := ReadTitle(b.entries);
      case Dropped(_) => title := StripNul(title);
    }
  }

  method BoundOwnExtras(env: Env, d: seq<Pair<Json>>, depth: nat, w: Withheld) returns (blob: Option<Json>)
    modifies w
    ensures blob == ExtrasOf(env, d, depth)
    ensures w.View() == AddTally(old(w.View()), Tally(ExtrasHits(env, d, depth), One(ExtrasReason(env, d, depth)), 0))
  {
    var extras := RawExtras(env, d, depth);
    blob := None;
    if extras != [] {
      var bounded := w.BoundBlob(env, Obj(extras));
      match bounded
      case Kept(b) => blob := Some(b);
      case Dropped(reason) => w.CountChapterExtras(reason);
    }
  }

  method NormalizeAll(env: Env, parent: Json, subs: seq<Json>, depth: nat, w: Withheld) returns (chapters: seq<Chapter>)
    requires forall i | 0 <= i < |subs| :: subs[i].Obj? && subs[i] < parent
    modifies w
    ensures chapters == NormAll(env, parent, subs, depth)
    ensures w.View() == AddTally(old(w.View()), TallyAll(env, parent, subs, depth))
    decreases parent, 0, |subs|
  {
    TallyLast(env, parent, subs, depth, w.View());
    hide Norm, TallyAll, TallyOf, AddTally;
    if subs == [] {
      chapters := [];
    } else {
      var n := |subs| - 1;
      chapters := NormalizeAll(env, parent, subs[..n], depth, w);
      var last := NormalizeChapter(env, subs[n], depth, w);
      chapters := chapters + [last];
    }
  }

  lemma TallyLast(env: Env, parent: Json, subs: seq<Json>, depth: nat, was: Tally)
    requires forall i | 0 <= i < |subs| :: subs[i].Obj? && subs[i] < parent
    ensures AddTally(was, TallyAll(env, parent, subs, depth)) ==
            if subs == [] then was
            else AddTally(AddTally(was, TallyAll(env, parent, subs[..|subs| - 1], depth)), TallyOf(env, subs[|subs| - 1], depth))
  {
    hide TallyOf;
    if subs == [] {
      AddTallyNothing(was);
    } else {
      AddTallyAssociates(was, TallyAll(env, parent, subs[..|subs| - 1], depth), TallyOf(env, subs[|subs| - 1], depth));
    }
  }

  lemma AddTallyAssociates(a: Tally, b: Tally, c: Tally)
    ensures AddTally(AddTally(a, b), c) == AddTally(a, AddTally(b, c))
  {
  }

  // ---------------------------------------------------------------- nothing is lost

  lemma {:induction false} WithoutKeeps(d: seq<Pair<Json>>, keys: set<string>)
    requires DistinctKeys(d) && NulFree(d)
    ensures DistinctKeys(Without(d, keys)) && NulFree(Without(d, keys))
    ensures forall p :: p in Without(d, keys) <==> p in d && p.key !in keys
  {
    if d != [] {
      var n := |d| - 1;
      WithoutKeeps(d[..n], keys);
      assert d == d[..n] + [d[n]];
      var rest := Without(d[..n], keys);
      forall i | 0 <= i < |rest| ensures rest[i].key != d[n].key {
        assert rest[i] in d[..n];
      }
    }
  }

  /** Distinct, NUL-free keys: what a decoded body's dictionary has. */
  ghost predicate KeysOk(d: seq<Pair<Json>>) {
    DistinctKeys(d) && NulFree(d)
  }

  lemma GetIsOwn(d: seq<Pair<Json>>, key: string)
    requires KeysOk(d) && Get(d, key).Some?
    ensures Pair(key, Get(d, key).value) in d && '\0' !in key
    ensures forall p | p in d && p.key == key :: p.value == Get(d, key).value
  {
    GetIndex(d, key);
    assert Pair(key, Get(d, key).value) in d;
  }

  /** What one rescue step leaves: under its own key the dictionary's value, if the
      step refuses it, and under every other key what was there. */
  lemma StepExact(d: seq<Pair<Json>>, key: string, refused: bool, left: seq<Pair<Json>>, now: seq<Pair<Json>>, p: Pair<Json>)
    requires KeysOk(d) && KeysOk(left)
    requires now == if Get(d, key).Some? && refused then Put(left, key, Get(d, key).value) else left
    requires p.key == key ==> p !in left
    ensures KeysOk(now)
    ensures p in now <==> if p.key == key then refused && p in d else p in left
  {
    hide Put, Get;
    if Get(d, key).Some? {
      GetIsOwn(d, key);
      PutKeeps(left, key, Get(d, key).value);
      PutMembers(left, key, Get(d, key).value);
    } else if p in d && p.key == key {
      GetOwn(d, p);
    }
  }

  /** A key of a chapter that has a field of its own for the value Audible sent: a
      string title, a scalar the model accepts, sub-chapters that are normalized, or
      a `chapters` with none. */
  ghost predicate HasField(env: Env, p: Pair<Json>, depth: nat) {
    || (p.key == "title" && p.value.Str?)
    || ((p.key == "length_ms" || p.key == "start_offset_ms" || p.key == "start_offset_sec") && Accepts(env, p.value))
    || (p.key == "chapters" && (p.value.Null? || (ListsObjects(p.value) && (p.value.items == [] || depth < 32))))
  }

  ghost predicate ListsObjects(v: Json) {
    v.List? && forall i | 0 <= i < |v.items| :: v.items[i].Obj?
  }

  lemma ChapterListIff(v: Json)
    ensures IsChapterList(v) <==> ListsObjects(v)
  {
    if ListsObjects(v) {
      forall x | x in v.items ensures x.Obj? {
        var i :| 0 <= i < |v.items| && v.items[i] == x;
      }
    }
  }

  /** The model takes the value for an integer of at most 14283 bits. */
  ghost predicate Accepts(env: Env, v: Json) {
    var bound: int := Pow2(14283);
    env.toInt(v).Some? && -bound < env.toInt(v).value < bound
  }

  lemma CoercesIff(env: Env, v: Json)
    ensures CoerceInt(env, v).Some? <==> Accepts(env, v)
    ensures CoerceInt(env, v).Some? ==> CoerceInt(env, v) == env.toInt(v)
  {
    hide Pow2, BitLength;
    if env.toInt(v).Some? {
      var n := env.toInt(v).value;
      BitLengthBounds(if n < 0 then -n else n, 14283);
    }
  }

  lemma IntStep(env: Env, d: seq<Pair<Json>>, key: string, left: seq<Pair<Json>>, p: Pair<Json>)
    requires KeysOk(d) && KeysOk(left) && (p.key == key ==> p !in left)
    ensures var now := RescueInt(env, d, key, left);
            && KeysOk(now)
            && (p in now <==> if p.key == key then p in d && !Accepts(env, p.value) else p in left)
  {
    hide KeysOk, Put, Get, CoerceInt, Accepts;
    var v := Get(d, key);
    var refused := v.Some? && CoerceInt(env, v.value).None?;
    StepExact(d, key, refused, left, RescueInt(env, d, key, left), p);
    if v.Some? {
      CoercesIff(env, v.value);
      GetIsOwn(d, key);
    } else if p.key == key && p in d {
      OwnIsGot(d, p);
    }
  }

  lemma OwnIsGot(d: seq<Pair<Json>>, p: Pair<Json>)
    requires KeysOk(d) && p in d
    ensures Get(d, p.key) == Some(p.value)
  {
    GetOwn(d, p);
  }

  lemma TitleStep(d: seq<Pair<Json>>, left: seq<Pair<Json>>, p: Pair<Json>)
    requires KeysOk(d) && KeysOk(left) && (p.key == "title" ==> p !in left)
    ensures var now := RescueTitle(d, left);
            && KeysOk(now)
            && (p in now <==> if p.key == "title" then p in d && !p.value.Str? else p in left)
  {
    hide KeysOk, Put, Get;
    var v := Get(d, "title");
    StepExact(d, "title", v.Some? && !v.value.Str?, left, RescueTitle(d, left), p);
    if p.key == "title" && p in d { OwnIsGot(d, p); }
  }

  lemma ChaptersStep(d: seq<Pair<Json>>, depth: nat, left: seq<Pair<Json>>, p: Pair<Json>)
    requires KeysOk(d) && KeysOk(left) && (p.key == "chapters" ==> p !in left)
    ensures var now := RescueChapters(d, depth, left);
            && KeysOk(now)
            && (p in now <==>
                if p.key == "chapters"
                then p in d && !p.value.Null? && (IsChapterList(p.value) ==> p.value.items != [] && depth >= 32)
                else p in left)
  {
    hide KeysOk, Put, Get;
    var v := Get(d, "chapters");
    var refused := v.Some? && !v.value.Null? && (IsChapterList(v.value) ==> v.value.items != [] && depth >= 32);
    StepExact(d, "chapters", refused, left, RescueChapters(d, depth, left), p);
    if p.key == "chapters" && p in d { OwnIsGot(d, p); }
  }

  /** The raw extras are the chapter's keys, each with the value Audible sent, but for
      those that have a field of their own: none is lost and none is said twice. */
  lemma RawExtrasExact(env: Env, d: seq<Pair<Json>>, depth: nat, p: Pair<Json>)
    requires KeysOk(d)
    ensures KeysOk(RawExtras(env, d, depth))
    ensures p in RawExtras(env, d, depth) <==> p in d && !HasField(env, p, depth)
  {
    WithoutKeeps(d, CHAPTER_CONSUMED);
    var own := Without(d, CHAPTER_CONSUMED);
    assert KeysOk(own);
    hide Without, RescueTitle, RescueChapters, RescueInt, KeysOk, Get, Accepts, IsChapterList, ListsObjects;
    KeysApart();
    ChapterListIff(p.value);
    var titled := RescueTitle(d, own);
    TitleStep(d, own, p);
    var a := RescueInt(env, d, "length_ms", titled);
    IntStep(env, d, "length_ms", titled, p);
    var b := RescueInt(env, d, "start_offset_ms", a);
    IntStep(env, d, "start_offset_ms", a, p);
    var c := RescueInt(env, d, "start_offset_sec", b);
    IntStep(env, d, "start_offset_sec", b, p);
    ChaptersStep(d, depth, c, p);
  }

  lemma KeysApart()
    ensures "title" != "length_ms" && "title" != "start_offset_ms" && "title" != "start_offset_sec" && "title" != "chapters"
    ensures "length_ms" != "start_offset_ms" && "length_ms" != "start_offset_sec" && "length_ms" != "chapters"
    ensures "start_offset_ms" != "start_offset_sec" && "start_offset_ms" != "chapters" && "start_offset_sec" != "chapters"
  {
    assert |"title"| == 5 && |"length_ms"| == 9 && |"start_offset_ms"| == 15 && |"start_offset_sec"| == 16 && |"chapters"| == 8;
  }

  /** A key of a chapter published in a field of its own. */
  ghost predicate Published(env: Env, p: Pair<Json>, depth: nat, chapter: Chapter) {
    || (p.key == "title" && p.value.Str? && chapter.title == StripNul(p.value.s))
    || (p.key == "length_ms" && CoerceInt(env, p.value) == Some(chapter.lengthMs))
    || (p.key == "start_offset_ms" && CoerceInt(env, p.value) == Some(chapter.startOffsetMs))
    || (p.key == "start_offset_sec" && CoerceInt(env, p.value) == Some(chapter.startOffsetSec))
    || (p.key == "chapters" && IsChapterList(p.value) && depth < MAX_DEPTH &&
        chapter.chapters.Subs? && |chapter.chapters.list| == |p.value.items| &&
        forall k | 0 <= k < |p.value.items| :: chapter.chapters.list[k] == Norm(env, p.value.items[k], depth + 1))
  }

  /** A key carried under its own name, sanitized. */
  ghost predicate CarriedIn(p: Pair<Json>, extras: Option<Json>) {
    extras.Some? && extras.value.Obj? && Pair(p.key, Clean(p.value)) in extras.value.entries
  }

  /** Every key of a chapter, a null or empty `chapters` aside, is published in
      its field, or carried in the chapter's extras under its own key, or went
      with the whole extras, whose reason is then counted in the record. */
  lemma ChapterConserves(env: Env, c: Json, depth: nat, p: Pair<Json>)
    requires c.Obj? && DistinctKeys(c.entries) && NulFree(c.entries) && p in c.entries
    requires p.key == "chapters" ==> !p.value.Null? && p.value != List([])
    ensures var chapter := Norm(env, c, depth);
            || Published(env, p, depth, chapter)
            || CarriedIn(p, chapter.extras)
            || (chapter.extras.None? && ExtrasReason(env, c.entries, depth).Some? &&
                OwnTally(env, c.entries, depth).chapterExtras == One(ExtrasReason(env, c.entries, depth)))
  {
    var d := c.entries;
    GetOwn(d, p);
    if p.key == "chapters" && IsChapterList(p.value) && depth < MAX_DEPTH {
      SubChaptersPublished(env, c, depth, p);
    } else if !Published(env, p, depth, Norm(env, c, depth)) {
      NotPublished(env, c, depth, p);
      RawExtrasExact(env, d, depth, p);
      hide RawExtras, Published, Norm, Clean;
      CarriedOrCounted(env, c, depth, p);
    }
  }

  lemma SubChaptersPublished(env: Env, c: Json, depth: nat, p: Pair<Json>)
    requires c.Obj? && Get(c.entries, "chapters") == Some(p.value) && p.key == "chapters"
    requires IsChapterList(p.value) && p.value.items != [] && depth < MAX_DEPTH
    ensures Published(env, p, depth, Norm(env, c, depth))
  {
    SubChaptersSmaller(c, depth);
    var subs := SubChapters(c.entries, depth);
    assert subs == p.value.items;
    forall k | 0 <= k < |subs| ensures NormAll(env, c, subs, depth + 1)[k] == Norm(env, subs[k], depth + 1) {
      NormAllAt(env, c, subs, depth + 1, k);
    }
    hide NormAll, StripNul, ReadInt, ReadTitle, ExtrasOf;
  }

  /** What no field publishes is a value its reader refuses. */
  lemma NotPublished(env: Env, c: Json, depth: nat, p: Pair<Json>)
    requires c.Obj? && Get(c.entries, p.key) == Some(p.value) && !Published(env, p, depth, Norm(env, c, depth))
    requires p.key == "chapters" ==> !p.value.Null? && p.value != List([]) && (IsChapterList(p.value) ==> depth >= MAX_DEPTH)
    ensures !HasField(env, p, depth)
  {
    hide NormAll, StripNul, ExtrasOf, CoerceInt, Accepts, Get;
    CoercesIff(env, p.value);
    ChapterListIff(p.value);
    KeysApart();
  }

  /** And what is among the raw extras is carried, or withheld with the reason counted. */
  lemma CarriedOrCounted(env: Env, c: Json, depth: nat, p: Pair<Json>)
    requires c.Obj? && p in RawExtras(env, c.entries, depth) && KeysOk(RawExtras(env, c.entries, depth))
    ensures var extras := ExtrasOf(env, c.entries, depth);
            || CarriedIn(p, extras)
            || (extras.None? && ExtrasReason(env, c.entries, depth).Some? &&
                OwnTally(env, c.entries, depth).chapterExtras == One(ExtrasReason(env, c.entries, depth)))
    ensures Norm(env, c, depth).extras == ExtrasOf(env, c.entries, depth)
  {
    var raw := RawExtras(env, c.entries, depth);
    CleanHasPair(raw, p);
    assert Norm(env, c, depth).extras == ExtrasOf(env, c.entries, depth);
    hide RawExtras, Clean, Norm, KeysOk, Spent, CountNul, IsCut;
  }

  // ---------------------------------------------------------------- nothing is said twice

  /** An entry of the copy is a key left over, under its own name. */
  ghost predicate IsLeftOver(q: Pair<Json>, env: Env, d: seq<Pair<Json>>, depth: nat) {
    exists p :: p in d && !HasField(env, p, depth) && q == Pair(p.key, Clean(p.value))
  }

  lemma CleanHasOnly(d: seq<Pair<Json>>, q: Pair<Json>)
    requires KeysOk(d)
    ensures q in Clean(Obj(d)).entries <==> exists p :: p in d && q == Pair(p.key, Clean(p.value))
  {
    CleanKeepsEveryKey(d);
    var e := Clean(Obj(d)).entries;
    if q in e {
      var i :| 0 <= i < |e| && e[i] == q;
      assert d[i] in d && q == Pair(d[i].key, Clean(d[i].value));
    }
    if p :| p in d && q == Pair(p.key, Clean(p.value)) {
      CleanHasPair(d, p);
    }
  }

  /** A chapter has no extras, and none were withheld, if and only if every key of it
      has a field of its own; extras that are kept hold the other keys and no more. */
  lemma ExtrasAreTheLeftOver(env: Env, d: seq<Pair<Json>>, depth: nat)
    requires KeysOk(d)
    ensures ExtrasOf(env, d, depth).None? && ExtrasReason(env, d, depth).None? <==> forall p | p in d :: HasField(env, p, depth)
    ensures ExtrasOf(env, d, depth).Some? ==>
              ExtrasOf(env, d, depth).value.Obj? &&
              forall q :: q in ExtrasOf(env, d, depth).value.entries <==> IsLeftOver(q, env, d, depth)
  {
    hide RawExtras, HasField, Clean, KeysOk;
    var raw := RawExtras(env, d, depth);
    forall p ensures p in raw <==> p in d && !HasField(env, p, depth) {
      RawExtrasExact(env, d, depth, p);
    }
    RawExtrasExact(env, d, depth, Pair("", Null));
    if raw != [] { assert raw[0] in raw; }
    BoundMeans(env.encode, Obj(raw));
    CleanIsObject(raw);
    forall q ensures q in Clean(Obj(raw)).entries <==> IsLeftOver(q, env, d, depth) {
      CleanHasOnly(raw, q);
    }
  }

  lemma CleanIsObject(d: seq<Pair<Json>>)
    ensures Clean(Obj(d)).Obj?
  {
  }

  /** A scalar is the value sent under its key when the model takes it, and otherwise 0. */
  ghost predicate ReadsAs(env: Env, d: seq<Pair<Json>>, key: string, n: int) {
    if exists p :: p in d && p.key == key && Accepts(env, p.value)
    then exists p :: p in d && p.key == key && Accepts(env, p.value) && env.toInt(p.value) == Some(n)
    else n == 0
  }

  lemma IntReads(env: Env, d: seq<Pair<Json>>, key: string)
    requires KeysOk(d)
    ensures ReadsAs(env, d, key, ReadInt(env, d, key))
  {
    hide Get, CoerceInt, Accepts;
    var v := Get(d, key);
    if v.Some? {
      GetIsOwn(d, key);
      CoercesIff(env, v.value);
      assert Pair(key, v.value) in d;
    } else {
      forall p | p in d ensures p.key != key { OwnIsGot(d, p); }
    }
  }

  /** The fields of a chapter say what was sent under their keys and nothing else: a
      key missing or refused leaves its field's default. */
  lemma FieldsSayWhatWasSent(env: Env, c: Json, depth: nat)
    requires c.Obj? && KeysOk(c.entries)
    ensures var d, chapter := c.entries, Norm(env, c, depth);
            && ReadsAs(env, d, "length_ms", chapter.lengthMs)
            && ReadsAs(env, d, "start_offset_ms", chapter.startOffsetMs)
            && ReadsAs(env, d, "start_offset_sec", chapter.startOffsetSec)
            && ((forall p | p in d && p.key == "title" :: !p.value.Str?) ==> chapter.title == "")
            && (chapter.chapters.Subs? <==>
                exists p :: p in d && p.key == "chapters" && ListsObjects(p.value) && p.value.items != [] && depth < 32)
  {
    hide NormAll, ExtrasOf, ReadInt, ReadsAs, IsChapterList, ListsObjects, KeysOk, Get;
    var d := c.entries;
    IntReads(env, d, "length_ms");
    IntReads(env, d, "start_offset_ms");
    IntReads(env, d, "start_offset_sec");
    FromGet(d, "title");
    FromGet(d, "chapters");
    if Get(d, "chapters").Some? { ChapterListIff(Get(d, "chapters").value); }
  }

  lemma FromGet(d: seq<Pair<Json>>, key: string)
    requires KeysOk(d)
    ensures Get(d, key).Some? ==> Pair(key, Get(d, key).value) in d
    ensures forall p | p in d && p.key == key :: Get(d, key) == Some(p.value)
  {
    if Get(d, key).Some? { GetIsOwn(d, key); }
    forall p | p in d && p.key == key ensures Get(d, key) == Some(p.value) { OwnIsGot(d, p); }
  }

  // ---------------------------------------------------------------- the shape of the tree

  datatype Tree = Tree(kids: seq<Tree>)

  /** A chapter's own nesting, however deep. */
  function NestingOf(c: Json): Tree
    requires c.Obj?
    decreases c, 1, 0
  {
    SubChaptersSmaller(c, 0);
    Tree(NestingAll(c, SubChapters(c.entries, 0)))
  }

  function NestingAll(parent: Json, subs: seq<Json>): (r: seq<Tree>)
    requires forall i | 0 <= i < |subs| :: subs[i].Obj? && subs[i] < parent
    ensures |r| == |subs|
    decreases parent, 0, |subs|
  {
    if subs == [] then [] else NestingAll(parent, subs[..|subs| - 1]) + [NestingOf(subs[|subs| - 1])]
  }

  /** The nesting published. */
  function Shape(c: Chapter): Tree
    decreases c, 1, 0
  {
    Tree(if c.chapters.NoSubs? then [] else ShapeAll(c, c.chapters.list))
  }

  function ShapeAll(parent: Chapter, cs: seq<Chapter>): (r: seq<Tree>)
    requires forall i | 0 <= i < |cs| :: cs[i] < parent
    ensures |r| == |cs|
    decreases parent, 0, |cs|
  {
    if cs == [] then [] else ShapeAll(parent, cs[..|cs| - 1]) + [Shape(cs[|cs| - 1])]
  }

  /** A tree cut to so many levels. */
  function CutTree(t: Tree, levels: nat): Tree
    decreases t, 1, 0
  {
    Tree(if levels <= 1 then [] else CutAll(t, t.kids, levels - 1))
  }

  function CutAll(parent: Tree, ts: seq<Tree>, levels: nat): (r: seq<Tree>)
    requires forall i | 0 <= i < |ts| :: ts[i] < parent
    ensures |r| == |ts|
    decreases parent, 0, |ts|
  {
    if ts == [] then [] else CutAll(parent, ts[..|ts| - 1], levels) + [CutTree(ts[|ts| - 1], levels)]
  }

  /** Whatever a sequence holds below a bound, so does any stretch of it. */
  ghost predicate AllBelow(cs: seq<Chapter>, parent: Chapter) {
    forall i | 0 <= i < |cs| :: cs[i] < parent
  }

  ghost predicate TreesBelow(ts: seq<Tree>, parent: Tree) {
    forall i | 0 <= i < |ts| :: ts[i] < parent
  }

  /** The published tree is the input tree, in order, cut at level 32. */
  lemma {:induction false} PublishedIsCutTree(env: Env, c: Json, depth: nat)
    requires c.Obj? && 1 <= depth <= MAX_DEPTH
    ensures Shape(Norm(env, c, depth)) == CutTree(NestingOf(c), MAX_DEPTH + 1 - depth)
    decreases c, 1, 0
  {
    hide Norm, NestingOf, NormAll, ShapeAll, CutAll, NestingAll, SubChapters, AllBelow, TreesBelow;
    var subs, t, out := SubChapters(c.entries, 0), NestingOf(c), Norm(env, c, depth);
    SubChaptersSmaller(c, depth);
    SubChaptersSmaller(c, 0);
    SubChaptersAt(c, depth);
    NormHolds(env, c, depth);
    NestingHolds(c);
    if depth < MAX_DEPTH && subs != [] {
      PublishedAllCut(env, c, subs, depth + 1, t, out);
    } else if depth < MAX_DEPTH {
      NoneNested(c, t, MAX_DEPTH - depth);
    }
  }

  lemma SubChaptersAt(c: Json, depth: nat)
    requires c.Obj? && depth <= MAX_DEPTH
    ensures SubChapters(c.entries, depth) == if depth < MAX_DEPTH then SubChapters(c.entries, 0) else []
  {
  }

  lemma NormHolds(env: Env, c: Json, depth: nat)
    requires c.Obj? && 1 <= depth <= MAX_DEPTH
    requires forall i | 0 <= i < |SubChapters(c.entries, depth)| :: SubChapters(c.entries, depth)[i].Obj? && SubChapters(c.entries, depth)[i] < c
    ensures var subs, out := SubChapters(c.entries, depth), Norm(env, c, depth);
            && out.chapters == (if subs == [] then NoSubs else Subs(NormAll(env, c, subs, depth + 1)))
            && AllBelow(NormAll(env, c, subs, depth + 1), out)
  {
    hide ReadInt, ReadTitle, StripNul, ExtrasOf, SubChapters;
  }

  lemma NestingHolds(c: Json)
    requires c.Obj?
    requires forall i | 0 <= i < |SubChapters(c.entries, 0)| :: SubChapters(c.entries, 0)[i].Obj? && SubChapters(c.entries, 0)[i] < c
    ensures var subs, t := SubChapters(c.entries, 0), NestingOf(c);
            t.kids == NestingAll(c, subs) && TreesBelow(NestingAll(c, subs), t)
  {
    hide SubChapters, NestingAll;
  }

  lemma NoneNested(parent: Json, t: Tree, levels: nat)
    ensures NestingAll(parent, []) == [] && CutAll(t, [], levels) == []
  {
  }

  lemma NonePublished(env: Env, parent: Json, depth: nat, out: Chapter)
    ensures NormAll(env, parent, [], depth) == [] && ShapeAll(out, []) == []
  {
  }

  lemma LastNested(parent: Json, subs: seq<Json>, levels: nat, t: Tree)
    requires subs != [] && forall i | 0 <= i < |subs| :: subs[i].Obj? && subs[i] < parent
    requires TreesBelow(NestingAll(parent, subs), t)
    ensures TreesBelow(NestingAll(parent, subs[..|subs| - 1]), t)
    ensures CutAll(t, NestingAll(parent, subs), levels) ==
            CutAll(t, NestingAll(parent, subs[..|subs| - 1]), levels) + [CutTree(NestingOf(subs[|subs| - 1]), levels)]
  {
    hide NestingOf, CutTree;
    var n := |subs| - 1;
    var nested := NestingAll(parent, subs);
    assert nested[..n] == NestingAll(parent, subs[..n]) && nested[n] == NestingOf(subs[n]);
  }

  lemma LastPublished(env: Env, parent: Json, subs: seq<Json>, depth: nat, out: Chapter)
    requires subs != [] && forall i | 0 <= i < |subs| :: subs[i].Obj? && subs[i] < parent
    requires AllBelow(NormAll(env, parent, subs, depth), out)
    ensures AllBelow(NormAll(env, parent, subs[..|subs| - 1], depth), out)
    ensures ShapeAll(out, NormAll(env, parent, subs, depth)) ==
            ShapeAll(out, NormAll(env, parent, subs[..|subs| - 1], depth)) + [Shape(Norm(env, subs[|subs| - 1], depth))]
  {
    hide Norm, Shape;
    var n := |subs| - 1;
    var cs := NormAll(env, parent, subs, depth);
    assert cs[..n] == NormAll(env, parent, subs[..n], depth) && cs[n] == Norm(env, subs[n], depth);
  }

  lemma {:induction false} PublishedAllCut(env: Env, parent: Json, subs: seq<Json>, depth: nat, t: Tree, out: Chapter)
    requires forall i | 0 <= i < |subs| :: subs[i].Obj? && subs[i] < parent
    requires 1 <= depth <= MAX_DEPTH
    requires TreesBelow(NestingAll(parent, subs), t) && AllBelow(NormAll(env, parent, subs, depth), out)
    ensures ShapeAll(out, NormAll(env, parent, subs, depth)) == CutAll(t, NestingAll(parent, subs), MAX_DEPTH + 1 - depth)
    decreases parent, 0, |subs|
  {
    hide Norm, CutTree, NestingOf, Shape, NormAll, ShapeAll, CutAll, NestingAll;
    if subs == [] {
      NoneNested(parent, t, MAX_DEPTH + 1 - depth);
      NonePublished(env, parent, depth, out);
    } else {
      var n := |subs| - 1;
      LastNested(parent, subs, MAX_DEPTH + 1 - depth, t);
      LastPublished(env, parent, subs, depth, out);
      PublishedAllCut(env, parent, subs[..n], depth, t, out);
      PublishedIsCutTree(env, subs[n], depth);
    }
  }

  // ---------------------------------------------------------------- the record counts chapters

  /** One chapter as it was normalized: its dictionary and its level. */
  datatype Visit = Visit(chapter: seq<Pair<Json>>, depth: nat)

  /** Every chapter normalized, in document order. */
  function Visited(c: Json, depth: nat): seq<Visit>
    requires c.Obj?
    decreases c, 1, 0
  {
    SubChaptersSmaller(c, depth);
    [Visit(c.entries, depth)] + VisitedAll(c, SubChapters(c.entries, depth), depth + 1)
  }

  function VisitedAll(parent: Json, subs: seq<Json>, depth: nat): seq<Visit>
    requires forall i | 0 <= i < |subs| :: subs[i].Obj? && subs[i] < parent
    decreases parent, 0, |subs|
  {
    if subs == [] then [] else VisitedAll(parent, subs[..|subs| - 1], depth) + Visited(subs[|subs| - 1], depth)
  }

  function CutCount(visits: seq<Visit>): nat {
    if visits == [] then 0
    else (if IsCut(visits[0].chapter, visits[0].depth) then 1 else 0) + CutCount(visits[1..])
  }

  function DropCount(env: Env, visits: seq<Visit>, r: Reason): nat {
    if visits == [] then 0
    else (if ExtrasReason(env, visits[0].chapter, visits[0].depth) == Some(r) then 1 else 0) + DropCount(env, visits[1..], r)
  }

  lemma {:induction false} CountsConcat(env: Env, a: seq<Visit>, b: seq<Visit>)
    ensures CutCount(a + b) == CutCount(a) + CutCount(b)
    ensures forall r :: DropCount(env, a + b, r) == DropCount(env, a, r) + DropCount(env, b, r)
  {
    if a == [] {
      assert a + b == b;
    } else {
      assert (a + b)[1..] == a[1..] + b;
      CountsConcat(env, a[1..], b);
    }
  }

  ghost predicate CountsChapters(env: Env, t: Tally, visits: seq<Visit>) {
    && t.subChapterDepth == CutCount(visits)
    && t.chapterExtras.depth == DropCount(env, visits, Depth)
    && t.chapterExtras.unserializable == DropCount(env, visits, Unserializable)
    && t.chapterExtras.tooLarge == DropCount(env, visits, TooLarge)
  }

  lemma CountsAdd(env: Env, t: Tally, a: seq<Visit>, u: Tally, b: seq<Visit>)
    requires CountsChapters(env, t, a) && CountsChapters(env, u, b)
    ensures CountsChapters(env, AddTally(t, u), a + b)
  {
    CountsConcat(env, a, b);
  }

  lemma OneVisit(env: Env, v: Visit)
    ensures CutCount([v]) == if IsCut(v.chapter, v.depth) then 1 else 0
    ensures forall r :: DropCount(env, [v], r) == if ExtrasReason(env, v.chapter, v.depth) == Some(r) then 1 else 0
  {
    hide IsCut, ExtrasReason;
    assert [v][1..] == [];
  }

  lemma OwnCounts(env: Env, d: seq<Pair<Json>>, depth: nat)
    ensures CountsChapters(env, OwnTally(env, d, depth), [Visit(d, depth)])
  {
    hide OwnTally, TitleHits, ExtrasHits, ExtrasReason, IsCut, CutCount, DropCount;
    OneVisit(env, Visit(d, depth));
    OwnTallyParts(env, d, depth);
  }

  /** The record counts each chapter cut at the deepest level once, and each
      chapter whose extras were withheld once, under its reason. */
  lemma {:induction false} RecordCountsChapters(env: Env, c: Json, depth: nat)
    requires c.Obj?
    ensures CountsChapters(env, TallyOf(env, c, depth), Visited(c, depth))
    decreases c, 1, 0
  {
    SubChaptersSmaller(c, depth);
    var subs := SubChapters(c.entries, depth);
    OwnCounts(env, c.entries, depth);
    RecordCountsAll(env, c, subs, depth + 1);
    CountsAdd(env, OwnTally(env, c.entries, depth), [Visit(c.entries, depth)],
              TallyAll(env, c, subs, depth + 1), VisitedAll(c, subs, depth + 1));
  }

  lemma {:induction false} RecordCountsAll(env: Env, parent: Json, subs: seq<Json>, depth: nat)
    requires forall i | 0 <= i < |subs| :: subs[i].Obj? && subs[i] < parent
    ensures CountsChapters(env, TallyAll(env, parent, subs, depth), VisitedAll(parent, subs, depth))
    decreases parent, 0, |subs|
  {
    if subs != [] {
      var n := |subs| - 1;
      RecordCountsAll(env, parent, subs[..n], depth);
      RecordCountsChapters(env, subs[n], depth);
      CountsAdd(env, TallyAll(env, parent, subs[..n], depth), VisitedAll(parent, subs[..n], depth),
                TallyOf(env, subs[n], depth), Visited(subs[n], depth));
    }
  }

  /** What one chapter costs: the NULs of its title, and what its raw extras spend. */
  function Cost(env: Env, v: Visit): Counts {
    Add(match Get(v.chapter, "title") case Some(Str(s)) => Counts(multiset(s)['\0'], 0, 0) case _ => NoCounts(),
        Spent(Obj(RawExtras(env, v.chapter, v.depth))))
  }

  function Costs(env: Env, visits: seq<Visit>): Counts {
    if visits == [] then NoCounts() else Add(Cost(env, visits[0]), Costs(env, visits[1..]))
  }

  lemma CostsCons(env: Env, v: Visit, rest: seq<Visit>)
    ensures Costs(env, [v] + rest) == Add(Cost(env, v), Costs(env, rest)) && Costs(env, []) == NoCounts()
  {
    hide Cost;
    assert ([v] + rest)[1..] == rest;
  }

  lemma {:induction false} CostsConcat(env: Env, a: seq<Visit>, b: seq<Visit>)
    ensures Costs(env, a + b) == Add(Costs(env, a), Costs(env, b))
  {
    hide Cost, Costs;
    if a == [] {
      assert a + b == b;
      if b != [] { CostsCons(env, b[0], b[1..]); } else { CostsCons(env, Visit([], 0), []); }
    } else {
      var rest := a[1..];
      assert a == [a[0]] + rest && a + b == [a[0]] + (rest + b);
      CostsCons(env, a[0], rest);
      CostsCons(env, a[0], rest + b);
      CostsConcat(env, rest, b);
    }
  }

  lemma SpentOnTitle(title: string)
    ensures Spent(Obj([Pair("title", Str(title))])) == Counts(CountNul(title), 0, 0)
    ensures Spent(Obj([])) == NoCounts()
  {
    hide WalkOf, CountNul, Height, CountIn, StripNul;
    TitleAlone(title);
    WalkCounts(Obj([Pair("title", Str(title))]), 1);
    WalkCounts(Obj([]), 1);
  }

  lemma TitleAlone(title: string)
    ensures Height(Obj([Pair("title", Str(title))])) == 1 && Height(Obj([])) == 1
    ensures CountIn(Obj([Pair("title", Str(title))])) == Counts(CountNul(title), 0, 0) && CountIn(Obj([])) == NoCounts()
  {
    var d := [Pair("title", Str(title))];
    assert d[..0] == [];
    NoNulInTitle();
    hide CountNul;
    assert HeightEntries(d) == 0 && HeightEntries([]) == 0;
    assert CountEntries(d) == Add(CountEntries([]), Add(Counts(CountNul("title"), 0, 0), CountIn(Str(title))));
  }

  lemma NoNulInTitle()
    ensures CountNul("title") == 0
  {
    StripNulSafe("title");
  }

  lemma OwnCost(env: Env, d: seq<Pair<Json>>, depth: nat)
    ensures OwnTally(env, d, depth).sanitized == Cost(env, Visit(d, depth))
    ensures Costs(env, [Visit(d, depth)]) == Cost(env, Visit(d, depth))
  {
    var title := ReadTitle(d);
    SpentOnTitle(title);
    CountNulCounts(title);
    hide Spent, RawExtras, CountNul;
    assert [Visit(d, depth)][1..] == [];
  }

  /** The sanitized counts add up what every chapter costs, once each. */
  lemma {:induction false} RecordAddsUpCosts(env: Env, c: Json, depth: nat)
    requires c.Obj?
    ensures TallyOf(env, c, depth).sanitized == Costs(env, Visited(c, depth))
    decreases c, 1, 0
  {
    SubChaptersSmaller(c, depth);
    var subs := SubChapters(c.entries, depth);
    OwnCost(env, c.entries, depth);
    RecordAddsUpAll(env, c, subs, depth + 1);
    CostsConcat(env, [Visit(c.entries, depth)], VisitedAll(c, subs, depth + 1));
    hide OwnTally, Cost, Costs, TallyAll, VisitedAll;
  }

  lemma {:induction false} RecordAddsUpAll(env: Env, parent: Json, subs: seq<Json>, depth: nat)
    requires forall i | 0 <= i < |subs| :: subs[i].Obj? && subs[i] < parent
    ensures TallyAll(env, parent, subs, depth).sanitized == Costs(env, VisitedAll(parent, subs, depth))
    decreases parent, 0, |subs|
  {
    hide TallyOf, Visited, Cost;
    if subs != [] {
      var n := |subs| - 1;
      RecordAddsUpAll(env, parent, subs[..n], depth);
      RecordAddsUpCosts(env, subs[n], depth);
      CostsConcat(env, VisitedAll(parent, subs[..n], depth), Visited(subs[n], depth));
    }
  }
}
