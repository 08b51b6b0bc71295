/**
 app/core/response_headers.py: the ledger of where a response's elements came from,
 as an aggregate tally per source and a map from element to source beside it.
 */
module Ledger {
  import opened Common

  const SOURCES: seq<string> := ["audible", "cache", "db"]

  /** X-Libex-Source: absent, one token, or "mixed" with a count per source. */
  datatype Header = Empty | Single(source: string) | Mixed(counts: seq<(string, int)>)

  /** One call on the ledger: an aggregate count, or keys resolved from one source. */
  datatype Recording = Tally(source: string, count: nat) | Keyed(source: string, keys: seq<string>)

  predicate IsSource(s: string) {
    s in SOURCES
  }

  lemma TheSources()
    ensures forall s :: IsSource(s) <==> s == "audible" || s == "cache" || s == "db"
    ensures "audible" != "cache" && "cache" != "db" && "audible" != "db"
  {
    assert |"audible"| == 7 && |"cache"| == 5 && |"db"| == 2;
    assert SOURCES[0] == "audible" && SOURCES[1] == "cache" && SOURCES[2] == "db";
  }

  /** A tally with an entry for each source and no other. */
  predicate Full(counts: map<string, int>) {
    "audible" in counts && "cache" in counts && "db" in counts
  }

  function Total(counts: map<string, int>): int
    requires Full(counts)
  {
    counts["audible"] + counts["cache"] + counts["db"]
  }

  // ---------------------------------------------------------------- rendering

  function Populated(counts: map<string, int>, n: nat): seq<(string, int)>
    requires Full(counts) && n <= 3
  {
    if n == 0 then []
    else
      var s := SOURCES[n - 1];
      TheSources();
      Populated(counts, n - 1) + (if counts[s] != 0 then [(s, counts[s])] else [])
  }

  /** format_source_header */
  function FormatSourceHeader(counts: map<string, int>): Header
    requires Full(counts)
  {
    var populated := Populated(counts, 3);
    if |populated| == 0 then Empty
    else if |populated| == 1 then Single(populated[0].0)
    else Mixed(populated)
  }

  lemma PopulatedIs(counts: map<string, int>)
    requires Full(counts)
    ensures Populated(counts, 3) ==
            (if counts["audible"] != 0 then [("audible", counts["audible"])] else [])
            + (if counts["cache"] != 0 then [("cache", counts["cache"])] else [])
            + (if counts["db"] != 0 then [("db", counts["db"])] else [])
  {
    assert SOURCES[0] == "audible" && SOURCES[1] == "cache" && SOURCES[2] == "db";
    assert Populated(counts, 0) == [];
    assert Populated(counts, 1) == if counts["audible"] != 0 then [("audible", counts["audible"])] else [];
  }

  /** No header exactly for an all-zero tally, a bare token exactly when only its
      source has a count, and otherwise every source with a count, in order. */
  lemma HeaderSays(counts: map<string, int>)
    requires Full(counts)
    ensures var h := FormatSourceHeader(counts);
            && (h == Empty <==> forall s | IsSource(s) :: counts[s] == 0)
            && (forall s | IsSource(s) :: h == Single(s) <==> counts[s] != 0 && forall t | IsSource(t) && t != s :: counts[t] == 0)
            && (h.Single? ==> IsSource(h.source))
            && (h.Mixed? ==> |h.counts| >= 2 && forall s, n :: (s, n) in h.counts <==> IsSource(s) && n != 0 && n == counts[s])
  {
    TheSources();
    PopulatedIs(counts);
  }

  /** A header with counts tells the whole tally: two tallies render as the same one
      only when they agree on every source. */
  lemma MixedTellsAll(a: map<string, int>, b: map<string, int>, s: string)
    requires Full(a) && Full(b) && IsSource(s)
    requires FormatSourceHeader(a).Mixed? && FormatSourceHeader(a) == FormatSourceHeader(b)
    ensures a[s] == b[s]
  {
    TheSources();
    var p, q := Populated(a, 3), Populated(b, 3);
    Agrees(a, p, s);
    Agrees(b, q, s);
    if a[s] != 0 { assert (s, a[s]) in q; }
    if b[s] != 0 { assert (s, b[s]) in p; }
  }

  lemma Agrees(counts: map<string, int>, populated: seq<(string, int)>, s: string)
    requires Full(counts) && IsSource(s) && populated == Populated(counts, 3)
    ensures forall n :: (s, n) in populated <==> n != 0 && n == counts[s]
  {
    TheSources();
    PopulatedIs(counts);
  }

  // ---------------------------------------------------------------- the ledger

  class ResponseFacts {
    var sourceCounts: map<string, int>
    var sourceByKey: map<string, string>

    constructor ()
      ensures sourceCounts == map["audible" := 0, "cache" := 0, "db" := 0] && sourceByKey == map[]
    {
      sourceCounts, sourceByKey := map["audible" := 0, "cache" := 0, "db" := 0], map[];
    }

    /** record_source: nothing outside the closed vocabulary is recorded. */
    method RecordSource(source: string, count: int) returns (ok: bool)
      requires Full(sourceCounts)
      modifies this`sourceCounts
      ensures ok == IsSource(source) && Full(sourceCounts)
      ensures sourceCounts == if ok then old(sourceCounts)[source := old(sourceCounts)[source] + count] else old(sourceCounts)
    {
      TheSources();
      if source !in SOURCES {
        return false;
      }
      sourceCounts := sourceCounts[source := sourceCounts[source] + count];
      return true;
    }

    /** record_source_keys: a key recorded again moves to the later source. */
    method RecordSourceKeys(source: string, keys: seq<string>) returns (ok: bool)
      requires Full(sourceCounts)
      modifies this
      ensures ok == IsSource(source) && Full(sourceCounts)
      ensures sourceCounts == if ok then old(sourceCounts)[source := old(sourceCounts)[source] + |keys|] else old(sourceCounts)
      ensures sourceByKey == if ok then Attributed(old(sourceByKey), source, keys) else old(sourceByKey)
    {
      TheSources();
      if source !in SOURCES {
        return false;
      }
      sourceCounts := sourceCounts[source := sourceCounts[source] + |keys|];
      var i := 0;
      while i < |keys|
        invariant 0 <= i <= |keys| && sourceByKey == Attributed(old(sourceByKey), source, keys[..i])
        modifies this`sourceByKey
      {
        assert keys[..i + 1][..i] == keys[..i];
        sourceByKey := sourceByKey[keys[i] := source];
        i := i + 1;
      }
      assert keys[..i] == keys;
      return true;
    }

    /** source_header_value_for */
    method SourceHeaderValueFor(keys: seq<string>) returns (header: Header)
      requires Full(sourceCounts) && ByKeyOk(sourceByKey)
      ensures header == RestrictedHeader(sourceCounts, sourceByKey, keys)
    {
      if Total(sourceCounts) != |sourceByKey| {
        return Empty;
      }
      var restricted: map<string, int> := map["audible" := 0, "cache" := 0, "db" := 0];
      var i := 0;
      while i < |keys|
        invariant 0 <= i <= |keys| && restricted == Restricted(sourceByKey, keys[..i])
      {
        assert keys[..i + 1][..i] == keys[..i];
        if keys[i] in sourceByKey {
          var source := sourceByKey[keys[i]];
          RestrictedFull(sourceByKey, keys[..i]);
          TheSources();
          restricted := restricted[source := restricted[source] + 1];
        }
        i := i + 1;
      }
      assert keys[..i] == keys;
      RestrictedFull(sourceByKey, keys);
      header := FormatSourceHeader(restricted);
    }
  }

  function Attributed(byKey: map<string, string>, source: string, keys: seq<string>): map<string, string> {
    if keys == [] then byKey else Attributed(byKey, source, keys[..|keys| - 1])[keys[|keys| - 1] := source]
  }

  ghost predicate ByKeyOk(byKey: map<string, string>) {
    forall k | k in byKey :: IsSource(byKey[k])
  }

  /** The tally of exactly these keys, each as often as it is named. */
  function Restricted(byKey: map<string, string>, keys: seq<string>): (r: map<string, int>)
    requires ByKeyOk(byKey)
    ensures Full(r)
  {
    if keys == [] then map["audible" := 0, "cache" := 0, "db" := 0]
    else
      TheSources();
      var rest, last := Restricted(byKey, keys[..|keys| - 1]), keys[|keys| - 1];
      if last in byKey then rest[byKey[last] := rest[byKey[last]] + 1] else rest
  }

  lemma RestrictedFull(byKey: map<string, string>, keys: seq<string>)
    requires ByKeyOk(byKey)
    ensures Full(Restricted(byKey, keys))
  {
  }

  function RestrictedHeader(counts: map<string, int>, byKey: map<string, string>, keys: seq<string>): Header
    requires Full(counts) && ByKeyOk(byKey)
  {
    if Total(counts) != |byKey| then Empty else FormatSourceHeader(Restricted(byKey, keys))
  }

  // ---------------------------------------------------------------- whole runs of recordings

  datatype State = State(counts: map<string, int>, byKey: map<string, string>)

  /** The ledger after these calls; one naming no source is refused. */
  function After(calls: seq<Recording>): (s: State)
    ensures Full(s.counts)
  {
    if calls == [] then State(map["audible" := 0, "cache" := 0, "db" := 0], map[])
    else
      TheSources();
      var s, last := After(calls[..|calls| - 1]), calls[|calls| - 1];
      if !IsSource(last.source) then s
      else
        match last
        case Tally(source, count) => State(s.counts[source := s.counts[source] + count], s.byKey)
        case Keyed(source, keys) =>
          State(s.counts[source := s.counts[source] + |keys|], Attributed(s.byKey, source, keys))
  }

  /** The ledger a response carries, after the calls made on it. */
  method RecordAll(calls: seq<Recording>) returns (facts: ResponseFacts)
    ensures fresh(facts) && State(facts.sourceCounts, facts.sourceByKey) == After(calls)
  {
    facts := new ResponseFacts();
    var i := 0;
    while i < |calls|
      invariant 0 <= i <= |calls| && fresh(facts)
      invariant State(facts.sourceCounts, facts.sourceByKey) == After(calls[..i])
    {
      assert calls[..i + 1][..i] == calls[..i];
      TheSources();
      match calls[i] {
        case Tally(source, count) => var ok := facts.RecordSource(source, count);
        case Keyed(source, keys) => var ok := facts.RecordSourceKeys(source, keys);
      }
      i := i + 1;
    }
    assert calls[..i] == calls;
  }

  ghost function KeysOf(byKey: map<string, string>, s: string): set<string> {
    set k | k in byKey && byKey[k] == s
  }

  /** Each source is owed at least the keys attributed to it. */
  ghost predicate Owed(counts: map<string, int>, byKey: map<string, string>) {
    Full(counts) && ByKeyOk(byKey) && forall s | IsSource(s) :: s in counts && |KeysOf(byKey, s)| <= counts[s]
  }

  lemma {:induction false} AttributedSizes(byKey: map<string, string>, source: string, keys: seq<string>, s: string)
    requires ByKeyOk(byKey) && IsSource(source)
    ensures var now := Attributed(byKey, source, keys);
            ByKeyOk(now) && |KeysOf(now, s)| <= |KeysOf(byKey, s)| + (if s == source then |keys| else 0)
  {
    if keys != [] {
      var before, last := Attributed(byKey, source, keys[..|keys| - 1]), keys[|keys| - 1];
      AttributedSizes(byKey, source, keys[..|keys| - 1], s);
      OneMore(before, last, source, s);
    }
  }

  lemma OneMore(byKey: map<string, string>, key: string, source: string, s: string)
    ensures |KeysOf(byKey[key := source], s)| <= |KeysOf(byKey, s)| + (if s == source then 1 else 0)
  {
    var was, now := KeysOf(byKey, s), KeysOf(byKey[key := source], s);
    if s == source {
      assert now == was + {key};
    } else {
      assert now == was - {key};
      Smaller(now, was);
    }
  }

  lemma {:induction false} Smaller<T>(a: set<T>, b: set<T>)
    requires a <= b
    ensures |a| <= |b| && (|a| == |b| ==> a == b)
    decreases a
  {
    if a != {} {
      var x :| x in a;
      Smaller(a - {x}, b - {x});
    }
  }

  /** Every run of recordings keeps the tally at or above the keyed entries. */
  lemma {:induction false} RecordingsKeep(calls: seq<Recording>)
    ensures Owed(After(calls).counts, After(calls).byKey)
  {
    if calls == [] {
      TheSources();
      forall s | IsSource(s) ensures |KeysOf(map[], s)| <= 0 {
        assert KeysOf(map[], s) == {};
      }
    } else {
      var was, last := After(calls[..|calls| - 1]), calls[|calls| - 1];
      RecordingsKeep(calls[..|calls| - 1]);
      TheSources();
      if last.Keyed? && IsSource(last.source) {
        AttributedSizes(was.byKey, last.source, last.keys, last.source);
        forall s | IsSource(s) ensures |KeysOf(After(calls).byKey, s)| <= After(calls).counts[s] {
          AttributedSizes(was.byKey, last.source, last.keys, s);
        }
      }
    }
  }

  /** Every keyed entry belongs to one source. */
  lemma KeysAddUp(byKey: map<string, string>)
    requires ByKeyOk(byKey)
    ensures |byKey| == |KeysOf(byKey, "audible")| + |KeysOf(byKey, "cache")| + |KeysOf(byKey, "db")|
  {
    TheSources();
    var a, c, d := KeysOf(byKey, "audible"), KeysOf(byKey, "cache"), KeysOf(byKey, "db");
    forall k ensures k in byKey.Keys <==> k in a + c + d {
      if k in byKey { assert IsSource(byKey[k]); }
    }
    assert byKey.Keys == a + c + d && a !! c && (a + c) !! d;
    assert |byKey| == |byKey.Keys|;
  }

  /** The aggregate is never below the keyed entries, and when the two are equal each
      source's tally is exactly its keys: the check the restriction relies on is enough. */
  lemma EqualTotalsMeanEqualTallies(calls: seq<Recording>, s: string)
    requires IsSource(s)
    ensures var l := After(calls);
            && Total(l.counts) >= |l.byKey|
            && (Total(l.counts) == |l.byKey| <==> forall t | IsSource(t) :: l.counts[t] == |KeysOf(l.byKey, t)|)
  {
    TheSources();
    RecordingsKeep(calls);
    KeysAddUp(After(calls).byKey);
  }

  // ---------------------------------------------------------------- restriction

  ghost function KeySet(keys: seq<string>): set<string> {
    set k | k in keys
  }

  lemma RestrictedStep(byKey: map<string, string>, keys: seq<string>, s: string)
    requires ByKeyOk(byKey) && keys != [] && IsSource(s)
    ensures var n := |keys| - 1;
            Restricted(byKey, keys)[s] == Restricted(byKey, keys[..n])[s] + (if keys[n] in KeysOf(byKey, s) then 1 else 0)
  {
    TheSources();
  }

  lemma KnownStep(mine: set<string>, keys: seq<string>)
    requires keys != [] && NoRepeats(keys)
    ensures var n := |keys| - 1;
            NoRepeats(keys[..n]) && |mine * KeySet(keys)| == |mine * KeySet(keys[..n])| + (if keys[n] in mine then 1 else 0)
  {
    var n := |keys| - 1;
    KeySetStep(keys);
    hide KeySet, NoRepeats;
    var before := KeySet(keys[..n]);
    if keys[n] in mine {
      assert mine * KeySet(keys) == mine * before + {keys[n]};
      OneBigger(mine * before, keys[n]);
    } else {
      assert mine * KeySet(keys) == mine * before;
    }
  }

  lemma OneBigger(s: set<string>, k: string)
    requires k !in s
    ensures |s + {k}| == |s| + 1
  {
  }

  lemma KeySetStep(keys: seq<string>)
    requires keys != [] && NoRepeats(keys)
    ensures var n := |keys| - 1;
            NoRepeats(keys[..n]) && KeySet(keys) == KeySet(keys[..n]) + {keys[n]} && keys[n] !in KeySet(keys[..n])
  {
    var n := |keys| - 1;
    assert keys == keys[..n] + [keys[n]];
    forall k | k in KeySet(keys[..n]) ensures k != keys[n] {
      var i :| 0 <= i < n && keys[..n][i] == k;
      assert keys[i] == k;
    }
  }

  /** Over distinct keys the restricted tally counts exactly the known keys among
      them, each under its source. */
  lemma {:induction false} CountsKnownKeys(byKey: map<string, string>, keys: seq<string>, s: string)
    requires ByKeyOk(byKey) && NoRepeats(keys) && IsSource(s)
    ensures Full(Restricted(byKey, keys)) && s in Restricted(byKey, keys)
    ensures Restricted(byKey, keys)[s] == |KeysOf(byKey, s) * KeySet(keys)|
  {
    if keys == [] {
      TheSources();
      assert KeysOf(byKey, s) * KeySet(keys) == {};
    } else {
      CountsKnownKeys(byKey, keys[..|keys| - 1], s);
      RestrictedStep(byKey, keys, s);
      KnownStep(KeysOf(byKey, s), keys);
      TheSources();
    }
  }

  /** A restricted header is given only while every tally is exactly its keys: a count
      recorded without its keys leaves it empty, whatever keys are asked for. */
  lemma HeaderOnlyWhenAllKeyed(calls: seq<Recording>, keys: seq<string>)
    ensures Owed(After(calls).counts, After(calls).byKey)
    ensures var l := After(calls);
            RestrictedHeader(l.counts, l.byKey, keys) ==
            if forall s | s in ["audible", "cache", "db"] :: l.counts[s] == |KeysOf(l.byKey, s)|
            then FormatSourceHeader(Restricted(l.byKey, keys)) else Empty
  {
    RecordingsKeep(calls);
    EqualTotalsMeanEqualTallies(calls, "audible");
    TheSources();
  }

  /** Restricted to every key recorded, in any order, the header is the whole one. */
  lemma AllKeysSameHeader(calls: seq<Recording>, keys: seq<string>)
    requires NoRepeats(keys) && KeySet(keys) == After(calls).byKey.Keys
    requires Total(After(calls).counts) == |After(calls).byKey|
    ensures Owed(After(calls).counts, After(calls).byKey)
    ensures RestrictedHeader(After(calls).counts, After(calls).byKey, keys) == FormatSourceHeader(After(calls).counts)
  {
    var l := After(calls);
    RecordingsKeep(calls);
    TheSources();
    var restricted := Restricted(l.byKey, keys);
    forall s | IsSource(s) ensures restricted[s] == l.counts[s] {
      EqualTotalsMeanEqualTallies(calls, s);
      CountsKnownKeys(l.byKey, keys, s);
      assert KeysOf(l.byKey, s) * KeySet(keys) == KeysOf(l.byKey, s);
    }
    PopulatedIs(restricted);
    PopulatedIs(l.counts);
  }
}
