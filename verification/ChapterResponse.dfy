/**
 libex_core/audible/chapters.py: normalize_chapters, the three levels above the
 chapters, and what each keeps of every key Audible sent on it.
 */
module ChapterResponse {
  import opened Common
  import opened Json
  import opened Extras
  import opened ExtrasWalk
  import opened Chapters

  const CHAPTER_INFO_CONSUMED: set<string> :=
    {"brandIntroDurationMs", "brandOutroDurationMs", "is_accurate", "runtime_length_ms", "runtime_length_sec", "chapters"}
  const CONTENT_METADATA_CONSUMED: set<string> := {"chapter_info", "content_reference", "content_url"}
  const RESPONSE_CONSUMED: set<string> := {"content_metadata", "response_groups"}

  /** The response model's lax bool, beside what Chapters asks for. */
  datatype World = World(env: Env, toBool: Json -> Option<bool>)

  /** contentReference or contentUrl: absent, null as sent, carried, or withheld whole. */
  datatype Group = Missing | NullGroup | Present(blob: Json) | WithheldGroup(reason: Reason)

  /** The three levels' leftovers: none, carried, or withheld whole. */
  datatype Leftovers = NoLeftovers | Carried(blob: Json) | WithheldLeftovers(reason: Reason)

  datatype Response = Response(
    brandIntro: int, brandOutro: int, isAccurate: bool, runtimeMs: int, runtimeSec: int,
    chapters: seq<Chapter>, contentReference: Group, contentUrl: Group, extras: Leftovers)

  // ---------------------------------------------------------------- the levels

  /** An object under this key, or an empty one. */
  function Under(d: seq<Pair<Json>>, key: string): seq<Pair<Json>> {
    match Get(d, key)
    case Some(Obj(entries)) => entries
    case _ => []
  }

  /** A value that is not the object a level needs stays on the level above. */
  function RescueObject(d: seq<Pair<Json>>, key: string, left: seq<Pair<Json>>): seq<Pair<Json>> {
    match Get(d, key)
    case Some(v) => if v.Obj? then left else Put(left, key, v)
    case None => left
  }

  /** A group the response carries as an object or as null; anything else is kept aside. */
  function RescueGroup(d: seq<Pair<Json>>, key: string, left: seq<Pair<Json>>): seq<Pair<Json>> {
    match Get(d, key)
    case Some(v) => if v.Obj? || v.Null? then left else Put(left, key, v)
    case None => left
  }

  function RescueList(d: seq<Pair<Json>>, left: seq<Pair<Json>>): seq<Pair<Json>> {
    match Get(d, "chapters")
    case Some(v) => if IsChapterList(v) || v.Null? then left else Put(left, "chapters", v)
    case None => left
  }

  function ReadBool(w: World, d: seq<Pair<Json>>, key: string): bool {
    match Get(d, key)
    case Some(v) => (match w.toBool(v) case Some(b) => b case None => false)
    case None => false
  }

  function RescueBool(w: World, d: seq<Pair<Json>>, key: string, left: seq<Pair<Json>>): seq<Pair<Json>> {
    match Get(d, key)
    case Some(v) => if w.toBool(v).None? then Put(left, key, v) else left
    case None => left
  }

  function ResponseLeft(data: seq<Pair<Json>>): seq<Pair<Json>> {
    RescueObject(data, "content_metadata", Without(data, RESPONSE_CONSUMED))
  }

  function MetadataLeft(md: seq<Pair<Json>>): seq<Pair<Json>> {
    RescueGroup(md, "content_url", RescueGroup(md, "content_reference",
      RescueObject(md, "chapter_info", Without(md, CONTENT_METADATA_CONSUMED))))
  }

  function InfoLeft(w: World, info: seq<Pair<Json>>): seq<Pair<Json>> {
    var listed := RescueList(info, Without(info, CHAPTER_INFO_CONSUMED));
    var brands := RescueInt(w.env, info, "brandOutroDurationMs", RescueInt(w.env, info, "brandIntroDurationMs", listed));
    var accurate := RescueBool(w, info, "is_accurate", brands);
    RescueInt(w.env, info, "runtime_length_sec", RescueInt(w.env, info, "runtime_length_ms", accurate))
  }

  /** Only the levels with something left are put together and bounded. */
  function Levels(response: seq<Pair<Json>>, metadata: seq<Pair<Json>>, info: seq<Pair<Json>>): seq<Pair<Json>> {
    (if response == [] then [] else [Pair("response", Obj(response))])
    + (if metadata == [] then [] else [Pair("contentMetadata", Obj(metadata))])
    + (if info == [] then [] else [Pair("chapterInfo", Obj(info))])
  }

  function BoundLevels(w: World, levels: seq<Pair<Json>>): Leftovers {
    if levels == [] then NoLeftovers
    else match Bound(w.env.encode, Obj(levels)) case Kept(b) => Carried(b) case Dropped(r) => WithheldLeftovers(r)
  }

  function GroupOf(w: World, md: seq<Pair<Json>>, key: string): Group {
    match Get(md, key)
    case Some(v) =>
      if v.Obj? then (match Bound(w.env.encode, v) case Kept(b) => Present(b) case Dropped(r) => WithheldGroup(r))
      else if v.Null? then NullGroup
      else Missing
    case None => Missing
  }

  /** The chapters, each at level 1. */
  function ChaptersOf(w: World, info: seq<Pair<Json>>): seq<Chapter> {
    match Get(info, "chapters")
    case Some(v) => if IsChapterList(v) then NormAll(w.env, v, v.items, 1) else []
    case None => []
  }

  /** normalize_chapters */
  function Normalized(w: World, data: seq<Pair<Json>>): Response {
    var md := Under(data, "content_metadata");
    var info := Under(md, "chapter_info");
    Response(ReadInt(w.env, info, "brandIntroDurationMs"), ReadInt(w.env, info, "brandOutroDurationMs"),
             ReadBool(w, info, "is_accurate"),
             ReadInt(w.env, info, "runtime_length_ms"), ReadInt(w.env, info, "runtime_length_sec"),
             ChaptersOf(w, info), GroupOf(w, md, "content_reference"), GroupOf(w, md, "content_url"),
             BoundLevels(w, Levels(ResponseLeft(data), MetadataLeft(md), InfoLeft(w, info))))
  }

  /** What the record collects: the chapters' own, then each verbatim part's. */
  function Recorded(w: World, data: seq<Pair<Json>>): Tally {
    var md := Under(data, "content_metadata");
    var info := Under(md, "chapter_info");
    Plus(Plus(Plus(ChaptersTally(w, info), GroupHits(w, md, "content_reference")), GroupHits(w, md, "content_url")),
         LevelHits(w, Levels(ResponseLeft(data), MetadataLeft(md), InfoLeft(w, info))))
  }

  function Plus(t: Tally, hits: Counts): Tally {
    t.(sanitized := Add(t.sanitized, hits))
  }

  function ChaptersTally(w: World, info: seq<Pair<Json>>): Tally {
    match Get(info, "chapters")
    case Some(v) => if IsChapterList(v) then TallyAll(w.env, v, v.items, 1) else NoTally()
    case None => NoTally()
  }

  function GroupHits(w: World, md: seq<Pair<Json>>, key: string): Counts {
    match Get(md, key)
    case Some(v) => if v.Obj? then Spent(v) else NoCounts()
    case None => NoCounts()
  }

  function LevelHits(w: World, levels: seq<Pair<Json>>): Counts {
    if levels == [] then NoCounts() else Spent(Obj(levels))
  }

  // ---------------------------------------------------------------- as it runs

  method NormalizeGroup(w: World, md: seq<Pair<Json>>, key: string, record: Withheld) returns (group: Group)
    modifies record
    ensures group == GroupOf(w, md, key) && record.View() == Plus(old(record.View()), GroupHits(w, md, key))
  {
    hide Bound, Spent, Get;
    group := Missing;
    PlusNothing(record.View());
    match Get(md, key) {
      case Some(v) =>
        if v.Obj? {
          var bounded := record.BoundBlob(w.env, v);
          match bounded
          case Kept(b) => group := Present(b);
          case Dropped(r) => group := WithheldGroup(r);
        } else if v.Null? {
          group := NullGroup;
        }
      case None =>
    }
  }

  method NormalizeLevels(w: World, levels: seq<Pair<Json>>, record: Withheld) returns (extras: Leftovers)
    modifies record
    ensures extras == BoundLevels(w, levels) && record.View() == Plus(old(record.View()), LevelHits(w, levels))
  {
    hide Bound, Spent;
    extras := NoLeftovers;
    PlusNothing(record.View());
    if levels != [] {
      var bounded := record.BoundBlob(w.env, Obj(levels));
      match bounded
      case Kept(b) => extras := Carried(b);
      case Dropped(r) => extras := WithheldLeftovers(r);
    }
  }

  method NormalizeList(w: World, info: seq<Pair<Json>>, record: Withheld) returns (chapters: seq<Chapter>)
    requires record.View() == NoTally()
    modifies record
    ensures chapters == ChaptersOf(w, info) && record.View() == ChaptersTally(w, info)
  {
    hide NormAll, TallyAll, Get, IsChapterList, AddTally, NoTally;
    chapters := [];
    var raw := Get(info, "chapters");
    ListMeans(w, info);
    if raw.Some? && IsChapterList(raw.value) {
      chapters := NormalizeAll(w.env, raw.value, raw.value.items, 1, record);
      StartsAtNothing(TallyAll(w.env, raw.value, raw.value.items, 1));
    }
  }

  lemma ListMeans(w: World, info: seq<Pair<Json>>)
    ensures var raw := Get(info, "chapters");
            if raw.Some? && IsChapterList(raw.value) then
              && raw.value.List? && (forall i | 0 <= i < |raw.value.items| :: raw.value.items[i].Obj? && raw.value.items[i] < raw.value)
              && ChaptersOf(w, info) == NormAll(w.env, raw.value, raw.value.items, 1)
              && ChaptersTally(w, info) == TallyAll(w.env, raw.value, raw.value.items, 1)
            else ChaptersOf(w, info) == [] && ChaptersTally(w, info) == NoTally()
  {
    hide NormAll, TallyAll, Get;
  }

  /** normalize_chapters: chapters first, then the two groups, then the leftovers of
      all three levels together, every one of them through the one record. */
  method NormalizeChapters(w: World, data: seq<Pair<Json>>) returns (response: Response, record: Withheld)
    ensures response == Normalized(w, data) && fresh(record) && record.View() == Recorded(w, data)
  {
    hide ChaptersOf, ChaptersTally, GroupOf, GroupHits, BoundLevels, LevelHits, Plus, Under, Levels, ReadInt, ReadBool,
         ResponseLeft, MetadataLeft, InfoLeft, NoTally;
    record := new Withheld();
    var md := Under(data, "content_metadata");
    var info := Under(md, "chapter_info");
    var chapters := NormalizeList(w, info, record);
    var reference := NormalizeGroup(w, md, "content_reference", record);
    var url := NormalizeGroup(w, md, "content_url", record);
    var extras := NormalizeLevels(w, Levels(ResponseLeft(data), MetadataLeft(md), InfoLeft(w, info)), record);
    response := Response(ReadInt(w.env, info, "brandIntroDurationMs"), ReadInt(w.env, info, "brandOutroDurationMs"),
                         ReadBool(w, info, "is_accurate"),
                         ReadInt(w.env, info, "runtime_length_ms"), ReadInt(w.env, info, "runtime_length_sec"),
                         chapters, reference, url, extras);
  }

  lemma PlusNothing(t: Tally)
    ensures Plus(t, NoCounts()) == t
  {
  }

  lemma StartsAtNothing(t: Tally)
    ensures AddTally(NoTally(), t) == t
  {
  }

  // ---------------------------------------------------------------- putting a key aside

  lemma ObjectStep(d: seq<Pair<Json>>, key: string, left: seq<Pair<Json>>, p: Pair<Json>)
    requires KeysOk(d) && KeysOk(left) && (p.key == key ==> p !in left)
    ensures var now := RescueObject(d, key, left);
            && KeysOk(now)
            && (p in now <==> if p.key == key then p in d && !p.value.Obj? else p in left)
  {
    hide KeysOk, Put, Get;
    var v := Get(d, key);
    StepExact(d, key, v.Some? && !v.value.Obj?, left, RescueObject(d, key, left), p);
    if p.key == key && p in d { OwnIsGot(d, p); }
  }

  lemma GroupStep(d: seq<Pair<Json>>, key: string, left: seq<Pair<Json>>, p: Pair<Json>)
    requires KeysOk(d) && KeysOk(left) && (p.key == key ==> p !in left)
    ensures var now := RescueGroup(d, key, left);
            && KeysOk(now)
            && (p in now <==> if p.key == key then p in d && !p.value.Obj? && !p.value.Null? else p in left)
  {
    hide KeysOk, Put, Get;
    var v := Get(d, key);
    StepExact(d, key, v.Some? && !v.value.Obj? && !v.value.Null?, left, RescueGroup(d, key, left), p);
    if p.key == key && p in d { OwnIsGot(d, p); }
  }

  lemma ListStep(d: seq<Pair<Json>>, left: seq<Pair<Json>>, p: Pair<Json>)
    requires KeysOk(d) && KeysOk(left) && (p.key == "chapters" ==> p !in left)
    ensures var now := RescueList(d, left);
            && KeysOk(now)
            && (p in now <==> if p.key == "chapters" then p in d && !IsChapterList(p.value) && !p.value.Null? else p in left)
  {
    hide KeysOk, Put, Get, IsChapterList;
    var v := Get(d, "chapters");
    StepExact(d, "chapters", v.Some? && !IsChapterList(v.value) && !v.value.Null?, left, RescueList(d, left), p);
    if p.key == "chapters" && p in d { OwnIsGot(d, p); }
  }

  lemma BoolStep(w: World, d: seq<Pair<Json>>, key: string, left: seq<Pair<Json>>, p: Pair<Json>)
    requires KeysOk(d) && KeysOk(left) && (p.key == key ==> p !in left)
    ensures var now := RescueBool(w, d, key, left);
            && KeysOk(now)
            && (p in now <==> if p.key == key then p in d && w.toBool(p.value).None? else p in left)
  {
    hide KeysOk, Put, Get;
    var v := Get(d, key);
    StepExact(d, key, v.Some? && w.toBool(v.value).None?, left, RescueBool(w, d, key, left), p);
    if p.key == key && p in d { OwnIsGot(d, p); }
  }

  // ---------------------------------------------------------------- each level keeps the rest of its keys

  /** The echo of the request, and the object the next level is read from. */
  ghost predicate ReadFromResponse(p: Pair<Json>) {
    p.key == "response_groups" || (p.key == "content_metadata" && p.value.Obj?)
  }

  /** The object the next level is read from, and a group shown in its own field. */
  ghost predicate ReadFromMetadata(p: Pair<Json>) {
    || (p.key == "chapter_info" && p.value.Obj?)
    || ((p.key == "content_reference" || p.key == "content_url") && (p.value.Obj? || p.value.Null?))
  }

  /** A field the model takes, and the chapters, or that there are none. */
  ghost predicate ReadFromInfo(w: World, p: Pair<Json>) {
    || ((p.key == "brandIntroDurationMs" || p.key == "brandOutroDurationMs" ||
         p.key == "runtime_length_ms" || p.key == "runtime_length_sec") && Accepts(w.env, p.value))
    || (p.key == "is_accurate" && w.toBool(p.value).Some?)
    || (p.key == "chapters" && (ListsObjects(p.value) || p.value.Null?))
  }

  /** What is left on the top level is every key but those two. */
  lemma ResponseLeftExact(data: seq<Pair<Json>>, p: Pair<Json>)
    requires KeysOk(data)
    ensures KeysOk(ResponseLeft(data))
    ensures p in ResponseLeft(data) <==> p in data && !ReadFromResponse(p)
  {
    WithoutKeeps(data, RESPONSE_CONSUMED);
    var own := Without(data, RESPONSE_CONSUMED);
    assert KeysOk(own);
    assert |"response_groups"| == 15 && |"content_metadata"| == 16;
    hide KeysOk, RescueObject, Without, Get;
    ObjectStep(data, "content_metadata", own, p);
  }

  /** What is left of content_metadata is every key but its object and its groups. */
  lemma MetadataLeftExact(md: seq<Pair<Json>>, p: Pair<Json>)
    requires KeysOk(md)
    ensures KeysOk(MetadataLeft(md))
    ensures p in MetadataLeft(md) <==> p in md && !ReadFromMetadata(p)
  {
    WithoutKeeps(md, CONTENT_METADATA_CONSUMED);
    var own := Without(md, CONTENT_METADATA_CONSUMED);
    assert KeysOk(own);
    MetadataNames();
    hide KeysOk, RescueObject, RescueGroup, Without, Get;
    var a := RescueObject(md, "chapter_info", own);
    ObjectStep(md, "chapter_info", own, p);
    var b := RescueGroup(md, "content_reference", a);
    GroupStep(md, "content_reference", a, p);
    GroupStep(md, "content_url", b, p);
  }

  lemma MetadataNames()
    ensures "chapter_info" != "content_reference" && "chapter_info" != "content_url" && "content_reference" != "content_url"
  {
    assert |"chapter_info"| == 12 && |"content_reference"| == 17 && |"content_url"| == 11;
  }

  lemma InfoNames()
    ensures "brandIntroDurationMs" != "brandOutroDurationMs" && "runtime_length_ms" != "runtime_length_sec"
    ensures "is_accurate" != "chapters" && "is_accurate" != "brandIntroDurationMs" && "is_accurate" != "brandOutroDurationMs"
    ensures "is_accurate" != "runtime_length_ms" && "is_accurate" != "runtime_length_sec"
    ensures "chapters" != "brandIntroDurationMs" && "chapters" != "brandOutroDurationMs"
    ensures "chapters" != "runtime_length_ms" && "chapters" != "runtime_length_sec"
    ensures "brandIntroDurationMs" != "runtime_length_ms" && "brandIntroDurationMs" != "runtime_length_sec"
    ensures "brandOutroDurationMs" != "runtime_length_ms" && "brandOutroDurationMs" != "runtime_length_sec"
  {
    assert |"brandIntroDurationMs"| == 20 == |"brandOutroDurationMs"| && "brandIntroDurationMs"[5] != "brandOutroDurationMs"[5];
    assert |"is_accurate"| == 11 && |"chapters"| == 8 && |"runtime_length_ms"| == 17 && |"runtime_length_sec"| == 18;
  }

  /** What is left of chapter_info is every key that no field of the response says. */
  lemma InfoLeftExact(w: World, info: seq<Pair<Json>>, p: Pair<Json>)
    requires KeysOk(info)
    ensures KeysOk(InfoLeft(w, info))
    ensures p in InfoLeft(w, info) <==> p in info && !ReadFromInfo(w, p)
  {
    WithoutKeeps(info, CHAPTER_INFO_CONSUMED);
    InfoNames();
    var own := Without(info, CHAPTER_INFO_CONSUMED);
    assert KeysOk(own);
    hide KeysOk, RescueInt, RescueBool, RescueList, Without, Get, Accepts, IsChapterList, ListsObjects;
    ChapterListIff(p.value);
    var a := RescueList(info, own);
    ListStep(info, own, p);
    var b := RescueInt(w.env, info, "brandIntroDurationMs", a);
    IntStep(w.env, info, "brandIntroDurationMs", a, p);
    var c := RescueInt(w.env, info, "brandOutroDurationMs", b);
    IntStep(w.env, info, "brandOutroDurationMs", b, p);
    var d := RescueBool(w, info, "is_accurate", c);
    BoolStep(w, info, "is_accurate", c, p);
    var e := RescueInt(w.env, info, "runtime_length_ms", d);
    IntStep(w.env, info, "runtime_length_ms", d, p);
    IntStep(w.env, info, "runtime_length_sec", e, p);
  }

  // ---------------------------------------------------------------- carried under its level

  /** A key in the response's extras under its level, sanitized, or gone with the
      whole of them, whose reason is then on record. */
  ghost predicate Accounted(extras: Leftovers, level: string, p: Pair<Json>) {
    || extras.WithheldLeftovers?
    || (extras.Carried? && extras.blob.Obj? &&
        exists e: seq<Pair<Json>> :: Pair(level, Obj(e)) in extras.blob.entries && Pair(p.key, Clean(p.value)) in e)
  }

  lemma LevelNames()
    ensures '\0' !in "response" && '\0' !in "contentMetadata" && '\0' !in "chapterInfo"
    ensures "response" != "contentMetadata" && "response" != "chapterInfo" && "contentMetadata" != "chapterInfo"
  {
    assert |"response"| == 8 && |"contentMetadata"| == 15 && |"chapterInfo"| == 11;
  }

  lemma LevelCarried(w: World, levels: seq<Pair<Json>>, level: string, left: seq<Pair<Json>>, p: Pair<Json>)
    requires KeysOk(levels) && Pair(level, Obj(left)) in levels && KeysOk(left) && p in left
    ensures Accounted(BoundLevels(w, levels), level, p)
  {
    CleanHasPair(levels, Pair(level, Obj(left)));
    CleanHasPair(left, p);
    var e := Clean(Obj(left)).entries;
    assert Clean(Obj(left)) == Obj(e);
    assert Pair(level, Obj(e)) in Clean(Obj(levels)).entries && Pair(p.key, Clean(p.value)) in e;
    hide Clean, KeysOk;
  }

  lemma LevelsOk(response: seq<Pair<Json>>, metadata: seq<Pair<Json>>, info: seq<Pair<Json>>)
    ensures KeysOk(Levels(response, metadata, info))
    ensures response != [] ==> Pair("response", Obj(response)) in Levels(response, metadata, info)
    ensures metadata != [] ==> Pair("contentMetadata", Obj(metadata)) in Levels(response, metadata, info)
    ensures info != [] ==> Pair("chapterInfo", Obj(info)) in Levels(response, metadata, info)
  {
    LevelNames();
  }

  // ---------------------------------------------------------------- nothing is lost

  /** Every key of the response, but the echo of the request, is carried or is the
      content_metadata object the next level is read from. */
  lemma ResponseConserves(w: World, data: seq<Pair<Json>>, p: Pair<Json>)
    requires KeysOk(data) && p in data && p.key != "response_groups"
    ensures (p.key == "content_metadata" && p.value == Obj(Under(data, "content_metadata"))) ||
            Accounted(Normalized(w, data).extras, "response", p)
  {
    GetOwn(data, p);
    if !(p.key == "content_metadata" && p.value.Obj?) {
      var md := Under(data, "content_metadata");
      var left, metadata, info := ResponseLeft(data), MetadataLeft(md), InfoLeft(w, Under(md, "chapter_info"));
      ResponseLeftExact(data, p);
      LevelsOk(left, metadata, info);
      LevelCarried(w, Levels(left, metadata, info), "response", left, p);
    }
  }

  /** Every key of content_metadata is carried, is the chapter_info object, or is a
      group in its own field: its object bounded or withheld by name, or its null. */
  lemma MetadataConserves(w: World, data: seq<Pair<Json>>, p: Pair<Json>)
    requires var md := Under(data, "content_metadata"); KeysOk(md) && p in md
    ensures var md, r := Under(data, "content_metadata"), Normalized(w, data);
            || (p.key == "chapter_info" && p.value == Obj(Under(md, "chapter_info")))
            || (p.key == "content_reference" && Shown(w, p.value, r.contentReference))
            || (p.key == "content_url" && Shown(w, p.value, r.contentUrl))
            || Accounted(r.extras, "contentMetadata", p)
  {
    var md := Under(data, "content_metadata");
    GetOwn(md, p);
    MetadataNames();
    var named := p.key == "content_reference" || p.key == "content_url";
    if !(p.key == "chapter_info" && p.value.Obj?) && !(named && (p.value.Obj? || p.value.Null?)) {
      var left, response, info := MetadataLeft(md), ResponseLeft(data), InfoLeft(w, Under(md, "chapter_info"));
      MetadataLeftExact(md, p);
      LevelsOk(response, left, info);
      LevelCarried(w, Levels(response, left, info), "contentMetadata", left, p);
    }
  }

  /** A group's value as its field shows it. */
  ghost predicate Shown(w: World, v: Json, g: Group) {
    || (v.Null? && g == NullGroup)
    || (v.Obj? && match Bound(w.env.encode, v) case Kept(b) => g == Present(b) case Dropped(r) => g == WithheldGroup(r))
  }

  /** A key of chapter_info the response says in its field. */
  ghost predicate InfoSaid(w: World, p: Pair<Json>, r: Response) {
    || (p.key == "brandIntroDurationMs" && CoerceInt(w.env, p.value) == Option.Some(r.brandIntro))
    || (p.key == "brandOutroDurationMs" && CoerceInt(w.env, p.value) == Option.Some(r.brandOutro))
    || (p.key == "runtime_length_ms" && CoerceInt(w.env, p.value) == Option.Some(r.runtimeMs))
    || (p.key == "runtime_length_sec" && CoerceInt(w.env, p.value) == Option.Some(r.runtimeSec))
    || (p.key == "is_accurate" && w.toBool(p.value) == Option.Some(r.isAccurate))
    || (p.key == "chapters" && IsChapterList(p.value) && r.chapters == NormAll(w.env, p.value, p.value.items, 1))
  }

  lemma InfoFields(w: World, data: seq<Pair<Json>>, p: Pair<Json>)
    requires var info := Under(Under(data, "content_metadata"), "chapter_info"); Get(info, p.key) == Option.Some(p.value)
    requires ReadFromInfo(w, p) && (p.key == "chapters" ==> !p.value.Null?)
    ensures InfoSaid(w, p, Normalized(w, data))
  {
    hide Under, Get, CoerceInt, Accepts, IsChapterList, ListsObjects, NormAll, BoundLevels, Levels, GroupOf, ResponseLeft, MetadataLeft, InfoLeft;
    CoercesIff(w.env, p.value);
    ChapterListIff(p.value);
    InfoNames();
  }

  /** Every key of chapter_info, a null `chapters` aside, is carried or published in
      its field; its chapters are each normalized in order. */
  lemma InfoConserves(w: World, data: seq<Pair<Json>>, p: Pair<Json>)
    requires var info := Under(Under(data, "content_metadata"), "chapter_info"); KeysOk(info) && p in info
    requires p.key == "chapters" ==> !p.value.Null?
    ensures InfoSaid(w, p, Normalized(w, data)) || Accounted(Normalized(w, data).extras, "chapterInfo", p)
  {
    hide InfoSaid, Under, KeysOk, Levels, BoundLevels, ReadFromInfo, ResponseLeft, MetadataLeft, InfoLeft, Accounted, Get;
    var md := Under(data, "content_metadata");
    var info := Under(md, "chapter_info");
    OwnIsGot(info, p);
    if ReadFromInfo(w, p) {
      InfoFields(w, data, p);
    } else {
      var left, response, metadata := InfoLeft(w, info), ResponseLeft(data), MetadataLeft(md);
      InfoLeftExact(w, info, p);
      LevelsOk(response, metadata, left);
      LevelCarried(w, Levels(response, metadata, left), "chapterInfo", left, p);
    }
  }

  // ---------------------------------------------------------------- nothing is said twice

  /** Nothing is left on a level when each of its keys is read elsewhere. */
  ghost predicate NothingLeft(w: World, data: seq<Pair<Json>>) {
    var md := Under(data, "content_metadata");
    var info := Under(md, "chapter_info");
    && (forall p | p in data :: ReadFromResponse(p))
    && (forall p | p in md :: ReadFromMetadata(p))
    && (forall p | p in info :: ReadFromInfo(w, p))
  }

  /** An entry of a level in the response's extras is a key left over on that level. */
  ghost predicate FromItsLevel(w: World, data: seq<Pair<Json>>, level: string, q: Pair<Json>) {
    var md := Under(data, "content_metadata");
    var info := Under(md, "chapter_info");
    || (level == "response" && exists p :: p in data && !ReadFromResponse(p) && q == Pair(p.key, Clean(p.value)))
    || (level == "contentMetadata" && exists p :: p in md && !ReadFromMetadata(p) && q == Pair(p.key, Clean(p.value)))
    || (level == "chapterInfo" && exists p :: p in info && !ReadFromInfo(w, p) && q == Pair(p.key, Clean(p.value)))
  }

  ghost predicate LevelsKeysOk(data: seq<Pair<Json>>) {
    var md := Under(data, "content_metadata");
    KeysOk(data) && KeysOk(md) && KeysOk(Under(md, "chapter_info"))
  }

  lemma ResponseEmptyIff(data: seq<Pair<Json>>)
    requires KeysOk(data)
    ensures ResponseLeft(data) == [] <==> forall p | p in data :: ReadFromResponse(p)
    ensures KeysOk(ResponseLeft(data))
    ensures forall p :: p in ResponseLeft(data) <==> p in data && !ReadFromResponse(p)
  {
    hide ResponseLeft, ReadFromResponse, KeysOk;
    forall p ensures KeysOk(ResponseLeft(data)) && (p in ResponseLeft(data) <==> p in data && !ReadFromResponse(p)) {
      ResponseLeftExact(data, p);
    }
    ResponseLeftExact(data, Pair("", Null));
    if ResponseLeft(data) != [] { assert ResponseLeft(data)[0] in ResponseLeft(data); }
  }

  lemma MetadataEmptyIff(md: seq<Pair<Json>>)
    requires KeysOk(md)
    ensures MetadataLeft(md) == [] <==> forall p | p in md :: ReadFromMetadata(p)
    ensures KeysOk(MetadataLeft(md))
    ensures forall p :: p in MetadataLeft(md) <==> p in md && !ReadFromMetadata(p)
  {
    hide MetadataLeft, ReadFromMetadata, KeysOk;
    forall p ensures p in MetadataLeft(md) <==> p in md && !ReadFromMetadata(p) {
      MetadataLeftExact(md, p);
    }
    MetadataLeftExact(md, Pair("", Null));
    if MetadataLeft(md) != [] { assert MetadataLeft(md)[0] in MetadataLeft(md); }
  }

  lemma InfoEmptyIff(w: World, info: seq<Pair<Json>>)
    requires KeysOk(info)
    ensures InfoLeft(w, info) == [] <==> forall p | p in info :: ReadFromInfo(w, p)
    ensures KeysOk(InfoLeft(w, info))
    ensures forall p :: p in InfoLeft(w, info) <==> p in info && !ReadFromInfo(w, p)
  {
    hide InfoLeft, ReadFromInfo, KeysOk;
    forall p ensures p in InfoLeft(w, info) <==> p in info && !ReadFromInfo(w, p) {
      InfoLeftExact(w, info, p);
    }
    InfoLeftExact(w, info, Pair("", Null));
    if InfoLeft(w, info) != [] { assert InfoLeft(w, info)[0] in InfoLeft(w, info); }
  }

  /** The response has no extras, and none were withheld, if and only if every key of
      the three levels is read elsewhere; extras that are kept hold, level by level,
      only keys that are not. */
  lemma LeftoversAreTheLeftOver(w: World, data: seq<Pair<Json>>)
    requires LevelsKeysOk(data)
    ensures Normalized(w, data).extras == NoLeftovers <==> NothingLeft(w, data)
    ensures Normalized(w, data).extras.Carried? ==>
              Normalized(w, data).extras.blob.Obj? &&
              forall level, e, q :: Pair(level, Obj(e)) in Normalized(w, data).extras.blob.entries && q in e ==> FromItsLevel(w, data, level, q)
  {
    hide Under, KeysOk, ResponseLeft, MetadataLeft, InfoLeft, ReadFromResponse, ReadFromMetadata, ReadFromInfo, FromItsLevel,
         ReadInt, ReadBool, ChaptersOf, GroupOf, Clean, Levels;
    var md := Under(data, "content_metadata");
    var info := Under(md, "chapter_info");
    ResponseEmptyIff(data);
    MetadataEmptyIff(md);
    InfoEmptyIff(w, info);
    var levels := Levels(ResponseLeft(data), MetadataLeft(md), InfoLeft(w, info));
    LevelsAre(ResponseLeft(data), MetadataLeft(md), InfoLeft(w, info));
    LevelsOk(ResponseLeft(data), MetadataLeft(md), InfoLeft(w, info));
    BoundMeans(w.env.encode, Obj(levels));
    CleanIsObject(levels);
    forall level, e, q | Pair(level, Obj(e)) in Clean(Obj(levels)).entries && q in e
      ensures FromItsLevel(w, data, level, q)
    {
      LevelHasOnly(w, data, level, e, q);
    }
  }

  lemma LevelsAre(response: seq<Pair<Json>>, metadata: seq<Pair<Json>>, info: seq<Pair<Json>>)
    ensures Levels(response, metadata, info) == [] <==> response == [] && metadata == [] && info == []
    ensures forall l | l in Levels(response, metadata, info) ::
              l == Pair("response", Obj(response)) || l == Pair("contentMetadata", Obj(metadata)) || l == Pair("chapterInfo", Obj(info))
  {
  }

  lemma LevelHasOnly(w: World, data: seq<Pair<Json>>, level: string, e: seq<Pair<Json>>, q: Pair<Json>)
    requires LevelsKeysOk(data)
    requires var md := Under(data, "content_metadata");
             var info := Under(md, "chapter_info");
             Pair(level, Obj(e)) in Clean(Obj(Levels(ResponseLeft(data), MetadataLeft(md), InfoLeft(w, info)))).entries && q in e
    ensures FromItsLevel(w, data, level, q)
  {
    hide Under, KeysOk, ResponseLeft, MetadataLeft, InfoLeft, ReadFromResponse, ReadFromMetadata, ReadFromInfo, Clean, Levels;
    var md := Under(data, "content_metadata");
    var info := Under(md, "chapter_info");
    var a, b, c := ResponseLeft(data), MetadataLeft(md), InfoLeft(w, info);
    ResponseEmptyIff(data);
    MetadataEmptyIff(md);
    InfoEmptyIff(w, info);
    LevelsAre(a, b, c);
    LevelsOk(a, b, c);
    CleanHasOnly(Levels(a, b, c), Pair(level, Obj(e)));
    var l :| l in Levels(a, b, c) && Pair(level, Obj(e)) == Pair(l.key, Clean(l.value));
    CleanHasOnly(a, q);
    CleanHasOnly(b, q);
    CleanHasOnly(c, q);
  }

  /** A group is missing exactly when nothing, or neither an object nor a null, came under its key. */
  ghost predicate MissingIff(md: seq<Pair<Json>>, key: string, g: Group) {
    g == Missing <==> forall p | p in md && p.key == key :: !p.value.Obj? && !p.value.Null?
  }

  ghost predicate BoolReadsAs(w: World, d: seq<Pair<Json>>, key: string, b: bool) {
    if exists p :: p in d && p.key == key && w.toBool(p.value).Some?
    then exists p :: p in d && p.key == key && w.toBool(p.value) == Option.Some(b)
    else !b
  }

  lemma BoolReads(w: World, d: seq<Pair<Json>>, key: string)
    requires KeysOk(d)
    ensures BoolReadsAs(w, d, key, ReadBool(w, d, key))
  {
    hide Get, KeysOk;
    FromGet(d, key);
    if Get(d, key).Some? { assert Pair(key, Get(d, key).value) in d; }
  }

  lemma GroupMissing(w: World, md: seq<Pair<Json>>, key: string)
    requires KeysOk(md)
    ensures MissingIff(md, key, GroupOf(w, md, key))
  {
    hide Get, KeysOk, Bound;
    FromGet(md, key);
  }

  lemma ListRead(w: World, info: seq<Pair<Json>>)
    requires KeysOk(info)
    ensures ChaptersOf(w, info) != [] <==>
            exists p :: p in info && p.key == "chapters" && ListsObjects(p.value) && p.value.items != []
  {
    hide Get, KeysOk, Norm, IsChapterList, ListsObjects;
    FromGet(info, "chapters");
    if Get(info, "chapters").Some? { ChapterListIff(Get(info, "chapters").value); }
  }

  /** The fields of the response say what was sent under their keys and nothing else: a
      key missing or refused leaves its field's default, and there are chapters exactly
      when a list of them was sent. */
  lemma ResponseSaysWhatWasSent(w: World, data: seq<Pair<Json>>)
    requires LevelsKeysOk(data)
    ensures var r, md := Normalized(w, data), Under(data, "content_metadata");
            var info := Under(md, "chapter_info");
            && ReadsAs(w.env, info, "brandIntroDurationMs", r.brandIntro)
            && ReadsAs(w.env, info, "brandOutroDurationMs", r.brandOutro)
            && ReadsAs(w.env, info, "runtime_length_ms", r.runtimeMs)
            && ReadsAs(w.env, info, "runtime_length_sec", r.runtimeSec)
            && BoolReadsAs(w, info, "is_accurate", r.isAccurate)
            && MissingIff(md, "content_reference", r.contentReference) && MissingIff(md, "content_url", r.contentUrl)
            && (r.chapters != [] <==>
                exists p :: p in info && p.key == "chapters" && ListsObjects(p.value) && p.value.items != [])
  {
    hide Under, KeysOk, ReadInt, ReadsAs, ReadBool, BoolReadsAs, GroupOf, MissingIff, ChaptersOf, BoundLevels, Levels,
         ResponseLeft, MetadataLeft, InfoLeft, ListsObjects;
    var md := Under(data, "content_metadata");
    var info := Under(md, "chapter_info");
    IntReads(w.env, info, "brandIntroDurationMs");
    IntReads(w.env, info, "brandOutroDurationMs");
    IntReads(w.env, info, "runtime_length_ms");
    IntReads(w.env, info, "runtime_length_sec");
    BoolReads(w, info, "is_accurate");
    GroupMissing(w, md, "content_reference");
    GroupMissing(w, md, "content_url");
    ListRead(w, info);
  }

  /** Every chapter of the response, at whatever level, in document order. */
  function AllVisited(info: seq<Pair<Json>>): seq<Visit> {
    match Get(info, "chapters")
    case Some(v) => if IsChapterList(v) then VisitedAll(v, v.items, 1) else []
    case None => []
  }

  ghost predicate AddsUp(total: Counts, a: Counts, b: Counts, c: Counts, d: Counts) {
    && total.nul == a.nul + b.nul + c.nul + d.nul
    && total.nonFinite == a.nonFinite + b.nonFinite + c.nonFinite + d.nonFinite
    && total.oversized == a.oversized + b.oversized + c.oversized + d.oversized
  }

  /** What an object sent under this key spends when it is bounded. */
  ghost predicate SpentUnder(md: seq<Pair<Json>>, key: string, hits: Counts) {
    if exists p :: p in md && p.key == key && p.value.Obj?
    then exists p :: p in md && p.key == key && p.value.Obj? && hits == Spent(p.value)
    else hits == NoCounts()
  }

  lemma GroupSpends(w: World, md: seq<Pair<Json>>, key: string)
    requires KeysOk(md)
    ensures SpentUnder(md, key, GroupHits(w, md, key))
  {
    hide Get, KeysOk, Spent;
    FromGet(md, key);
    if Get(md, key).Some? { assert Pair(key, Get(md, key).value) in md; }
  }

  lemma ChaptersCost(w: World, info: seq<Pair<Json>>)
    ensures ChaptersTally(w, info).sanitized == Costs(w.env, AllVisited(info))
    ensures CountsChapters(w.env, ChaptersTally(w, info), AllVisited(info))
  {
    hide Get, TallyAll, VisitedAll, CountsChapters;
    NothingCounted(w);
    match Get(info, "chapters")
    case Some(v) =>
      if IsChapterList(v) {
        RecordAddsUpAll(w.env, v, v.items, 1);
        RecordCountsAll(w.env, v, v.items, 1);
      }
    case None =>
  }

  lemma NothingCounted(w: World)
    ensures CountsChapters(w.env, NoTally(), []) && Costs(w.env, []) == NoCounts()
  {
  }

  /** The record counts the chapters' cuts and withheld extras, and adds up what the
      chapters, the two groups and the leftovers cost, once each. */
  lemma RecordAddsUpTheWhole(w: World, data: seq<Pair<Json>>) returns (reference: Counts, url: Counts)
    requires LevelsKeysOk(data)
    ensures var t, md := Recorded(w, data), Under(data, "content_metadata");
            var info := Under(md, "chapter_info");
            && CountsChapters(w.env, t, AllVisited(info))
            && SpentUnder(md, "content_reference", reference) && SpentUnder(md, "content_url", url)
            && AddsUp(t.sanitized, Costs(w.env, AllVisited(info)), reference, url,
                          Spent(Obj(Levels(ResponseLeft(data), MetadataLeft(md), InfoLeft(w, info)))))
  {
    hide Under, KeysOk, GroupHits, SpentUnder, ChaptersTally, Costs, Levels, ResponseLeft, MetadataLeft, InfoLeft, AllVisited, Spent,
         CutCount, DropCount;
    var md := Under(data, "content_metadata");
    var info := Under(md, "chapter_info");
    ChaptersCost(w, info);
    GroupSpends(w, md, "content_reference");
    GroupSpends(w, md, "content_url");
    SpentOnTitle("");
    reference, url := GroupHits(w, md, "content_reference"), GroupHits(w, md, "content_url");
  }
}
