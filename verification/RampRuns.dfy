/**
 What the ramp (scripts/backfill_chapters.py and scripts/refresh_corpus.py) does over
 a whole run, told from the records alone: which samples a region's window holds,
 which p95 is its best, and so which record steps the ramp down or up.
 */
module RampRuns {
  import opened Common
  import opened RampModel
  import opened Ratchet

  // ---------------------------------------------------------------- p95 by rank

  function CountAbove(s: seq<real>, x: real): nat {
    if s == [] then 0 else (if s[0] > x then 1 else 0) + CountAbove(s[1..], x)
  }

  /** How many of n samples lie past the one at 95 in a hundred: of 60, 2. */
  function Past95(n: nat): nat {
    if n * 95 / 100 >= n - 1 then 0 else n - 1 - n * 95 / 100
  }

  /** More samples are above x than lie past a p95. */
  predicate ManyAbove(s: seq<real>, x: real) {
    CountAbove(s, x) > Past95(|s|)
  }

  /** v is a sample, and many are above whatever is less but not above v itself. */
  ghost predicate IsP95(s: seq<real>, v: real) {
    v in s && forall x :: ManyAbove(s, x) <==> x < v
  }

  lemma {:induction false} InsertCounts(s: seq<real>, y: real, x: real)
    ensures CountAbove(Insert(s, y), x) == CountAbove(s, x) + (if y > x then 1 else 0)
  {
    if s == [] || y <= s[0] {
      assert ([y] + s)[1..] == s;
    } else {
      assert ([s[0]] + Insert(s[1..], y))[1..] == Insert(s[1..], y);
      InsertCounts(s[1..], y, x);
    }
  }

  lemma {:induction false} SortedCounts(s: seq<real>, x: real)
    ensures CountAbove(Sorted(s), x) == CountAbove(s, x)
  {
    if s != [] {
      SortedCounts(s[1..], x);
      InsertCounts(Sorted(s[1..]), s[0], x);
    }
  }

  lemma {:induction false} NoneAbove(s: seq<real>, x: real)
    requires forall i | 0 <= i < |s| :: s[i] <= x
    ensures CountAbove(s, x) == 0
  {
    if s != [] {
      NoneAbove(s[1..], x);
    }
  }

  /** In order, whatever is above x stands at the end. */
  lemma {:induction false} AscendingCounts(t: seq<real>, j: nat, x: real)
    requires Ascending(t) && j < |t|
    ensures t[j] > x <==> CountAbove(t, x) >= |t| - j
    ensures CountAbove(t, x) <= |t|
  {
    var rest := t[1..];
    assert Ascending(rest) by {
      forall i | 0 <= i < |rest| - 1 ensures rest[i] <= rest[i + 1] {
        assert t[i + 1] <= t[i + 2];
      }
    }
    if rest != [] {
      AscendingCounts(rest, if j > 0 then j - 1 else 0, x);
      AscendingCounts(rest, 0, x);
      assert t[0] <= t[1];
    }
  }

  /** Of a full window the p95 is the sample that many are not above, but many are
      above anything less. */
  lemma P95IsTheRank(p: Policy, s: seq<real>)
    requires p.window > 0
    ensures P95(p, s).Some? <==> |s| >= p.window
    ensures P95(p, s).Some? ==> IsP95(s, P95(p, s).value)
  {
    if |s| >= p.window {
      var t, j := Sorted(s), |s| - 1 - Past95(|s|);
      SortedOrders(s);
      assert t[j] in multiset(t);
      assert P95(p, s) == Some(t[j]);
      forall x ensures ManyAbove(s, x) <==> x < t[j] {
        AscendingCounts(t, j, x);
        SortedCounts(s, x);
      }
    }
  }

  lemma P95IsOne(s: seq<real>, v: real, u: real)
    requires IsP95(s, v) && IsP95(s, u)
    ensures v == u
  {
    assert ManyAbove(s, v) <==> v < u;
    assert ManyAbove(s, u) <==> u < v;
  }

  /** Of sixty samples at most two are above the p95, and three or more above anything less. */
  lemma P95OfSixty(p: Policy, s: seq<real>)
    requires p.window == 60 && |s| == 60
    ensures P95(p, s).Some? && P95(p, s).value in s && CountAbove(s, P95(p, s).value) <= 2
    ensures forall x :: x < P95(p, s).value <==> CountAbove(s, x) >= 3
  {
    P95IsTheRank(p, s);
    var v := P95(p, s).value;
    assert ManyAbove(s, v) <==> v < v;
    forall x ensures x < v <==> CountAbove(s, x) >= 3 {
      assert ManyAbove(s, x) <==> x < v;
    }
  }

  // ---------------------------------------------------------------- a run, from its records

  /** One call of record. */
  datatype Record = Record(region: string, elapsed: Option<real>, failed: bool, now: real)

  /** The ramp after these records, nothing else moving the gate. */
  function Ran(p: Policy, records: seq<Record>): Ramp {
    if records == [] then Init(p)
    else
      var last := records[|records| - 1];
      Recorded(p, Ran(p, records[..|records| - 1]), last.region, last.elapsed, last.failed, last.now)
  }

  /** How many records had been made when the limit last rose: every window starts
      again there. */
  function LastRise(p: Policy, records: seq<Record>): (n: nat)
    ensures n <= |records|
  {
    if records == [] then 0
    else
      var before := records[..|records| - 1];
      if Ran(p, records).limit > Ran(p, before).limit then |records| else LastRise(p, before)
  }

  /** The times of a region's clean requests, in order. */
  function Latencies(records: seq<Record>, region: string): seq<real> {
    if records == [] then []
    else
      var before, last := records[..|records| - 1], records[|records| - 1];
      if last.region == region && !last.failed && last.elapsed.Some? then Latencies(before, region) + [last.elapsed.value]
      else Latencies(before, region)
  }

  /** A region's clean requests since its last failed one. */
  function CleanInARow(records: seq<Record>, region: string): nat {
    if records == [] then 0
    else
      var before, last := records[..|records| - 1], records[|records| - 1];
      if last.region != region then CleanInARow(before, region)
      else if last.failed then 0
      else CleanInARow(before, region) + 1
  }

  /** When the first of those was recorded. */
  function CleanSince(records: seq<Record>, region: string): Option<real> {
    if records == [] then None
    else
      var before, last := records[..|records| - 1], records[|records| - 1];
      if last.region != region then CleanSince(before, region)
      else if last.failed then None
      else if CleanInARow(before, region) == 0 then Some(last.now)
      else CleanSince(before, region)
  }

  function LastOf(n: nat, s: seq<real>): seq<real> {
    if |s| > n then s[|s| - n..] else s
  }

  /** The window the last record looks at: its region's last samples since the limit
      last rose. */
  function Seen(p: Policy, records: seq<Record>, region: string): seq<real>
    requires records != []
  {
    LastOf(p.window, Latencies(records[LastRise(p, records[..|records| - 1])..], region))
  }

  /** Record number j was a clean one of the region, its window full. */
  ghost predicate FullAt(p: Policy, records: seq<Record>, region: string, j: nat) {
    && 1 <= j <= |records|
    && records[j - 1].region == region && !records[j - 1].failed
    && |Seen(p, records[..j], region)| >= p.window
  }

  /** And v was its p95 then. */
  ghost predicate HadAt(p: Policy, records: seq<Record>, region: string, j: nat, v: real) {
    FullAt(p, records, region, j) && IsP95(Seen(p, records[..j], region), v)
  }

  /** A full window of the region so far had this p95. */
  ghost predicate HadP95(p: Policy, records: seq<Record>, region: string, v: real) {
    exists j: nat :: HadAt(p, records, region, j, v)
  }

  /** The region has had a full window. */
  ghost predicate Warm(p: Policy, records: seq<Record>, region: string) {
    exists j: nat :: FullAt(p, records, region, j)
  }

  /** The least p95 any full window of the region had so far. */
  ghost predicate Fastest(p: Policy, records: seq<Record>, region: string, v: real) {
    HadP95(p, records, region, v) && forall u | HadP95(p, records, region, u) :: v <= u
  }

  ghost predicate ManyExceed(s: seq<real>, v: real, ratio: real) {
    ManyAbove(s, v * ratio)
  }

  /** The last record is a clean one, its region has the samples to be judged by and a
      full window, and many of that window exceed ratio times the least p95 the region
      had: of 60, more than 2. */
  ghost predicate Slowed(p: Policy, records: seq<Record>)
    requires records != []
  {
    var region := records[|records| - 1].region;
    && FullAt(p, records, region, |records|)
    && |Latencies(records, region)| >= p.warmup
    && exists v :: Fastest(p, records, region, v) && ManyExceed(Seen(p, records, region), v, p.ratio)
  }

  /** So many clean requests in a row, over so long a time, since the limit last rose. */
  ghost predicate Dwelt(p: Policy, records: seq<Record>, region: string)
    requires records != []
  {
    var since := records[LastRise(p, records[..|records| - 1])..];
    && CleanInARow(since, region) >= p.minRequests
    && (p.minSeconds.Some? ==>
          CleanSince(since, region).Some? &&
          records[|records| - 1].now - CleanSince(since, region).value >= p.minSeconds.value)
  }

  /** The last record's window is full and every region that had a full one has dwelt. */
  ghost predicate Earns(p: Policy, records: seq<Record>)
    requires records != []
  {
    && FullAt(p, records, records[|records| - 1].region, |records|)
    && forall region | Warm(p, records, region) :: Dwelt(p, records, region)
  }

  // ---------------------------------------------------------------- the ramp's memory is the records

  /** A best p95 is the least any full window had, or there was no full window. */
  ghost predicate IsBest(p: Policy, records: seq<Record>, region: string, best: Option<real>) {
    && (best.None? <==> !Warm(p, records, region))
    && (best.Some? ==> Fastest(p, records, region, best.value))
  }

  /** What the ramp keeps of a region is what the records say, its windows starting
      again at the record number given. */
  ghost predicate Remembers(p: Policy, records: seq<Record>, from: nat, region: string, s: Signal, limit: int)
    requires from <= |records|
  {
    var since := records[from..];
    && s.latencies == LastOf(p.window, Latencies(since, region))
    && s.samples == |Latencies(records, region)|
    && IsBest(p, records, region, s.best)
    && (limit < p.ceiling ==> s.streak == CleanInARow(since, region) && s.started == CleanSince(since, region))
  }

  ghost predicate AllRemembered(p: Policy, records: seq<Record>, from: nat, m: Ramp)
    requires from <= |records|
  {
    forall region :: Remembers(p, records, from, region, SignalOf(m, region), m.limit)
  }

  lemma PushIsLast(n: nat, s: seq<real>, x: real)
    ensures Push(n, LastOf(n, s), x) == LastOf(n, s + [x])
  {
  }

  lemma TailOfMore(records: seq<Record>, k: nat)
    requires records != [] && k < |records|
    ensures var tail := records[k..];
            tail != [] && tail[..|tail| - 1] == records[..|records| - 1][k..] && tail[|tail| - 1] == records[|records| - 1]
  {
  }

  /** Another record leaves the full windows there were. */
  lemma HadAtMore(p: Policy, records: seq<Record>, region: string, j: nat, v: real)
    requires records != []
    ensures FullAt(p, records[..|records| - 1], region, j) <==> FullAt(p, records, region, j) && j < |records|
    ensures HadAt(p, records[..|records| - 1], region, j, v) <==> HadAt(p, records, region, j, v) && j < |records|
    ensures FullAt(p, records, region, j) ==> j <= |records|
  {
    hide Seen, IsP95;
    var before := records[..|records| - 1];
    if 1 <= j < |records| {
      assert records[..j] == before[..j] && records[j - 1] == before[j - 1];
    }
  }

  /** And it may add one, its own. */
  lemma HadMore(p: Policy, records: seq<Record>, region: string, v: real)
    requires records != []
    ensures HadP95(p, records, region, v) <==>
              HadP95(p, records[..|records| - 1], region, v) || HadAt(p, records, region, |records|, v)
  {
    hide HadAt, FullAt;
    var before := records[..|records| - 1];
    forall j: nat
      ensures HadAt(p, records, region, j, v) <==> HadAt(p, before, region, j, v) || (j == |records| && HadAt(p, records, region, j, v))
    {
      HadAtMore(p, records, region, j, v);
      HadIsFull(p, records, region, j, v);
    }
  }

  lemma HadIsFull(p: Policy, records: seq<Record>, region: string, j: nat, v: real)
    ensures HadAt(p, records, region, j, v) ==> FullAt(p, records, region, j)
  {
  }

  lemma WarmMore(p: Policy, records: seq<Record>, region: string)
    requires records != []
    ensures Warm(p, records, region) <==>
            Warm(p, records[..|records| - 1], region) || FullAt(p, records, region, |records|)
  {
    hide HadAt, FullAt;
    var before := records[..|records| - 1];
    forall j: nat
      ensures FullAt(p, records, region, j) <==> FullAt(p, before, region, j) || (j == |records| && FullAt(p, records, region, j))
    {
      HadAtMore(p, records, region, j, 0.0);
    }
  }

  lemma LastFull(p: Policy, records: seq<Record>, region: string)
    requires records != []
    ensures FullAt(p, records, region, |records|) <==>
            records[|records| - 1].region == region && !records[|records| - 1].failed && |Seen(p, records, region)| >= p.window
    ensures forall v :: HadAt(p, records, region, |records|, v) <==>
            FullAt(p, records, region, |records|) && IsP95(Seen(p, records, region), v)
  {
    hide Seen, IsP95;
    assert records[..|records|] == records;
  }

  lemma P95OfLast(p: Policy, s: seq<real>)
    requires p.window > 0
    ensures P95(p, s).Some? <==> |s| >= p.window
    ensures P95(p, s).Some? ==> forall v :: IsP95(s, v) <==> v == P95(p, s).value
  {
    hide P95, IsP95;
    P95IsTheRank(p, s);
    if P95(p, s).Some? {
      forall v ensures IsP95(s, v) <==> v == P95(p, s).value {
        if IsP95(s, v) { P95IsOne(s, v, P95(p, s).value); }
      }
    }
  }

  // ---------------------------------------------------------------- one record more

  /** The ramp with the record noted, before it moves. */
  ghost function Noted(p: Policy, m: Ramp, e: Record): Ramp {
    var s := SignalOf(m, e.region);
    m.(regions := m.regions[e.region := if e.failed then s.(streak := 0, started := None) else Sampled(p, s, e.elapsed, e.now)])
  }

  /** A record of another region, or a failed one, adds no full window. */
  lemma BestStays(p: Policy, records: seq<Record>, region: string, best: Option<real>)
    requires records != [] && IsBest(p, records[..|records| - 1], region, best)
    requires records[|records| - 1].region != region || records[|records| - 1].failed
    ensures IsBest(p, records, region, best)
  {
    hide HadP95, Warm, HadAt, FullAt, Seen;
    LastFull(p, records, region);
    WarmMore(p, records, region);
    forall v ensures HadP95(p, records, region, v) <==> HadP95(p, records[..|records| - 1], region, v) {
      HadMore(p, records, region, v);
      HadIsFull(p, records, region, |records|, v);
    }
  }

  /** A clean one's window is weighed against the best. */
  lemma BestMoves(p: Policy, records: seq<Record>, region: string, best: Option<real>, window: seq<real>)
    requires p.window > 0 && records != [] && IsBest(p, records[..|records| - 1], region, best)
    requires records[|records| - 1].region == region && !records[|records| - 1].failed && window == Seen(p, records, region)
    ensures var p95 := P95(p, window);
            IsBest(p, records, region, if p95.Some? && (best.None? || p95.value < best.value) then p95 else best)
  {
    hide HadP95, Warm, HadAt, FullAt, Seen, IsP95, P95;
    var before := records[..|records| - 1];
    LastFull(p, records, region);
    WarmMore(p, records, region);
    P95OfLast(p, window);
    WarmIff(p, before, region);
    forall v ensures HadP95(p, records, region, v) <==> HadP95(p, before, region, v) || (P95(p, window) == Some(v)) {
      HadMore(p, records, region, v);
    }
  }

  /** No region had a p95 without a full window. */
  lemma WarmIff(p: Policy, records: seq<Record>, region: string)
    ensures forall v :: HadP95(p, records, region, v) ==> Warm(p, records, region)
  {
    hide FullAt, IsP95, Seen;
    forall v | HadP95(p, records, region, v) ensures Warm(p, records, region) {
      var j: nat :| HadAt(p, records, region, j, v);
      HadIsFull(p, records, region, j, v);
    }
  }

  lemma NotesOther(p: Policy, records: seq<Record>, from: nat, region: string, s: Signal, limit: int)
    requires records != [] && from < |records| && records[|records| - 1].region != region
    requires Remembers(p, records[..|records| - 1], from, region, s, limit)
    ensures Remembers(p, records, from, region, s, limit)
  {
    hide IsBest;
    TailOfMore(records, from);
    BestStays(p, records, region, s.best);
  }

  lemma NotesFailed(p: Policy, records: seq<Record>, from: nat, region: string, s: Signal, limit: int)
    requires records != [] && from < |records| && records[|records| - 1].region == region && records[|records| - 1].failed
    requires Remembers(p, records[..|records| - 1], from, region, s, limit)
    ensures Remembers(p, records, from, region, s.(streak := 0, started := None), limit)
  {
    hide IsBest;
    TailOfMore(records, from);
    BestStays(p, records, region, s.best);
  }

  lemma NotesClean(p: Policy, records: seq<Record>, from: nat, region: string, s: Signal, limit: int)
    requires p.window > 0 && records != [] && from < |records|
    requires from == LastRise(p, records[..|records| - 1])
    requires records[|records| - 1].region == region && !records[|records| - 1].failed
    requires Remembers(p, records[..|records| - 1], from, region, s, limit)
    ensures var e := records[|records| - 1]; Remembers(p, records, from, region, Sampled(p, s, e.elapsed, e.now), limit)
  {
    hide IsBest, LastRise, P95, Push;
    var e := records[|records| - 1];
    TailOfMore(records, from);
    if e.elapsed.Some? {
      PushIsLast(p.window, Latencies(records[..|records| - 1][from..], region), e.elapsed.value);
    }
    BestMoves(p, records, region, s.best, Sampled(p, s, e.elapsed, e.now).latencies);
  }

  lemma AllNoted(p: Policy, records: seq<Record>)
    requires p.window > 0 && records != []
    requires var before := records[..|records| - 1]; AllRemembered(p, before, LastRise(p, before), Ran(p, before))
    ensures var before := records[..|records| - 1];
            AllRemembered(p, records, LastRise(p, before), Noted(p, Ran(p, before), records[|records| - 1]))
  {
    hide Remembers, Sampled, LastRise, Ran;
    var before, e := records[..|records| - 1], records[|records| - 1];
    var m, from := Ran(p, before), LastRise(p, before);
    forall region ensures Remembers(p, records, from, region, SignalOf(Noted(p, m, e), region), m.limit) {
      assert Remembers(p, before, from, region, SignalOf(m, region), m.limit);
      if region != e.region {
        NotesOther(p, records, from, region, SignalOf(m, region), m.limit);
      } else if e.failed {
        NotesFailed(p, records, from, region, SignalOf(m, region), m.limit);
      } else {
        NotesClean(p, records, from, region, SignalOf(m, region), m.limit);
      }
    }
  }

  /** The move a noted record asks for. */
  ghost function MoveOf(p: Policy, n: Ramp, e: Record): Move {
    if e.failed then Hold else MoveFor(p, n, SignalOf(n, e.region), e.now)
  }

  lemma RecordedMoves(p: Policy, m: Ramp, e: Record)
    ensures Recorded(p, m, e.region, e.elapsed, e.failed, e.now) == Moved(p, Noted(p, m, e), MoveOf(p, Noted(p, m, e), e))
  {
    hide Sampled, MoveFor;
  }

  lemma SlowedIff(p: Policy, records: seq<Record>, t: Signal)
    requires p.window > 0 && records != []
    requires var region := records[|records| - 1].region;
             && FullAt(p, records, region, |records|)
             && t.latencies == Seen(p, records, region) && |t.latencies| >= p.window
             && t.samples == |Latencies(records, region)| && IsBest(p, records, region, t.best)
    ensures Degraded(p, t) <==> Slowed(p, records)
    ensures P95(p, t.latencies).Some?
  {
    hide Seen, Latencies, IsP95, P95, HadP95, FullAt, Warm, ManyExceed, Fastest, Degraded;
    var region := records[|records| - 1].region;
    FastestIsBest(p, records, region, t.best);
    P95OfLast(p, t.latencies);
    WarmMore(p, records, region);
    assert Fastest(p, records, region, t.best.value);
    RankSays(p, t);
  }

  lemma DescendsIff(p: Policy, records: seq<Record>, n: Ramp)
    requires p.window > 0 && records != [] && !n.frozen
    requires AllRemembered(p, records, LastRise(p, records[..|records| - 1]), n)
    ensures MoveOf(p, n, records[|records| - 1]).Descend? <==> Slowed(p, records)
  {
    hide LastRise, Latencies, Seen, P95, FullAt, IsBest, Degraded, CleanInARow, CleanSince, DwellMet, AllWarmDwell;
    var e := records[|records| - 1];
    var t := SignalOf(n, e.region);
    LastFull(p, records, e.region);
    assert Remembers(p, records, LastRise(p, records[..|records| - 1]), e.region, t, n.limit);
    LastSeen(p, records, t, n.limit);
    P95OfLast(p, t.latencies);
    if !e.failed && |t.latencies| >= p.window {
      SlowedIff(p, records, t);
    }
  }

  lemma RankSays(p: Policy, t: Signal)
    requires p.window > 0 && |t.latencies| >= p.window && t.best.Some?
    ensures Degraded(p, t) <==> t.samples >= p.warmup && ManyExceed(t.latencies, t.best.value, p.ratio)
  {
    hide P95, ManyAbove;
    P95IsTheRank(p, t.latencies);
  }

  lemma FastestIsBest(p: Policy, records: seq<Record>, region: string, best: Option<real>)
    requires IsBest(p, records, region, best)
    ensures forall v :: Fastest(p, records, region, v) <==> best == Some(v)
  {
    hide HadP95, Warm;
    WarmIff(p, records, region);
    forall v ensures Fastest(p, records, region, v) <==> best == Some(v) {
      if Fastest(p, records, region, v) {
        assert HadP95(p, records, region, v);
      }
    }
  }

  lemma DwellsIff(p: Policy, records: seq<Record>, region: string, s: Signal, limit: int)
    requires records != [] && limit < p.ceiling
    requires Remembers(p, records, LastRise(p, records[..|records| - 1]), region, s, limit)
    ensures DwellMet(p, s, records[|records| - 1].now) <==> Dwelt(p, records, region)
    ensures s.best.Some? <==> Warm(p, records, region)
  {
    hide LastRise, Latencies, Fastest, Warm, CleanInARow, CleanSince;
  }

  lemma ClimbsIff(p: Policy, records: seq<Record>, n: Ramp)
    requires p.window > 0 && records != [] && !n.frozen && n.limit < p.ceiling
    requires AllRemembered(p, records, LastRise(p, records[..|records| - 1]), n)
    requires records[|records| - 1].region in n.regions
    ensures MoveOf(p, n, records[|records| - 1]).Climb? <==> !Slowed(p, records) && Earns(p, records)
  {
    hide LastRise, Remembers, Seen, IsP95, P95, HadP95, HadAt, FullAt, Warm, Slowed, Degraded, Dwelt, DwellMet;
    var e := records[|records| - 1];
    var from, t := LastRise(p, records[..|records| - 1]), SignalOf(n, e.region);
    LastFull(p, records, e.region);
    LastSeen(p, records, t, n.limit);
    P95OfLast(p, t.latencies);
    DescendsIff(p, records, n);
    WarmMore(p, records, e.region);
    forall region
      ensures DwellMet(p, SignalOf(n, region), e.now) <==> Dwelt(p, records, region)
      ensures SignalOf(n, region).best.Some? <==> Warm(p, records, region)
    {
      assert Remembers(p, records, from, region, SignalOf(n, region), n.limit);
      DwellsIff(p, records, region, SignalOf(n, region), n.limit);
    }
    if n.regions[e.region].best.Some? {
      AllWarmIff(p, n, e);
    }
  }

  lemma LastSeen(p: Policy, records: seq<Record>, t: Signal, limit: int)
    requires records != []
    requires Remembers(p, records, LastRise(p, records[..|records| - 1]), records[|records| - 1].region, t, limit)
    ensures t.latencies == Seen(p, records, records[|records| - 1].region)
  {
    hide LastRise, IsBest, CleanInARow, CleanSince;
  }

  lemma AllWarmIff(p: Policy, n: Ramp, e: Record)
    requires e.region in n.regions && n.regions[e.region].best.Some?
    ensures AllWarmDwell(p, n.regions, e.now) <==>
            forall region | SignalOf(n, region).best.Some? :: DwellMet(p, SignalOf(n, region), e.now)
  {
    hide DwellMet;
    if AllWarmDwell(p, n.regions, e.now) {
      forall region | SignalOf(n, region).best.Some? ensures DwellMet(p, SignalOf(n, region), e.now) {
        assert region in n.regions && SignalOf(n, region) == n.regions[region];
      }
    }
    if forall region | SignalOf(n, region).best.Some? :: DwellMet(p, SignalOf(n, region), e.now) {
      forall region | region in n.regions && n.regions[region].best.Some? ensures DwellMet(p, n.regions[region], e.now) {
        assert SignalOf(n, region) == n.regions[region];
      }
    }
  }

  // ---------------------------------------------------------------- the run

  lemma LastRan(p: Policy, records: seq<Record>)
    requires records != []
    ensures var before, e := records[..|records| - 1], records[|records| - 1];
            Ran(p, records) == Moved(p, Noted(p, Ran(p, before), e), MoveOf(p, Noted(p, Ran(p, before), e), e))
    ensures LastRise(p, records) ==
            if Ran(p, records).limit > Ran(p, records[..|records| - 1]).limit then |records|
            else LastRise(p, records[..|records| - 1])
  {
    hide Recorded, Moved, MoveOf, Noted;
    RecordedMoves(p, Ran(p, records[..|records| - 1]), records[|records| - 1]);
  }

  /** A move that is not down leaves the memory the records': a rise starts every
      window again, and at the ceiling only the streaks, which are not looked at there. */
  lemma MovedRemembers(p: Policy, records: seq<Record>, from: nat, n: Ramp, move: Move)
    requires from <= |records| && p.step > 0 && !move.Descend? && AllRemembered(p, records, from, n)
    ensures var m := Moved(p, n, move);
            AllRemembered(p, records, if m.limit > n.limit then |records| else from, m)
  {
    hide IsBest;
    assert records[|records|..] == [];
    var m := Moved(p, n, move);
    forall region ensures Remembers(p, records, if m.limit > n.limit then |records| else from, region, SignalOf(m, region), m.limit) {
      assert Remembers(p, records, from, region, SignalOf(n, region), n.limit);
    }
  }

  lemma {:induction false} RunRemembers(p: Policy, records: seq<Record>)
    requires p.window > 0 && p.step > 0
    ensures !Ran(p, records).frozen ==> AllRemembered(p, records, LastRise(p, records), Ran(p, records))
  {
    hide Noted, MoveOf, AllRemembered, LastRise, Moved;
    if records == [] {
      StartsEmpty(p);
    } else {
      var before, e := records[..|records| - 1], records[|records| - 1];
      var n := Noted(p, Ran(p, before), e);
      LastRan(p, records);
      RunRemembers(p, before);
      NotedKeeps(p, Ran(p, before), e);
      if !Ran(p, records).frozen {
        AllNoted(p, records);
        MovedRemembers(p, records, LastRise(p, before), n, MoveOf(p, n, e));
      }
    }
  }

  lemma StartsEmpty(p: Policy)
    ensures AllRemembered(p, [], LastRise(p, []), Ran(p, []))
  {
  }

  /** Noting moves nothing; a frozen ramp stays so, and a step down freezes it. */
  lemma NotedKeeps(p: Policy, m: Ramp, e: Record)
    ensures var n := Noted(p, m, e);
            && n.limit == m.limit && n.frozen == m.frozen && e.region in n.regions
            && (m.frozen ==> MoveOf(p, n, e) == Hold)
            && (m.frozen || MoveOf(p, n, e).Descend? <==> Moved(p, n, MoveOf(p, n, e)).frozen)
  {
    hide Sampled;
  }

  /** What a record does to the ramp, over every run: it freezes an unfrozen ramp, one
      step lower but not below its start, exactly when its region has slowed; it raises
      the limit one step, but not past the ceiling, exactly when the clean requests of
      every warm region have earned it; and otherwise the limit stays. */
  lemma RampFollowsTheRecords(p: Policy, records: seq<Record>)
    requires p.window > 0 && p.step > 0 && records != []
    ensures var was, now := Ran(p, records[..|records| - 1]), Ran(p, records);
            && (now.frozen <==> was.frozen || Slowed(p, records))
            && now.limit ==
               if was.frozen then was.limit
               else if Slowed(p, records) then (if was.limit - p.step > p.start then was.limit - p.step else p.start)
               else if was.limit < p.ceiling && Earns(p, records) then
                 (if was.limit + p.step < p.ceiling then was.limit + p.step else p.ceiling)
               else was.limit
  {
    hide Noted, MoveOf, AllRemembered, LastRise, Slowed, Earns, Ran;
    var before, e := records[..|records| - 1], records[|records| - 1];
    var was := Ran(p, before);
    var n := Noted(p, was, e);
    LastRan(p, records);
    NotedKeeps(p, was, e);
    RunRemembers(p, before);
    if !was.frozen {
      AllNoted(p, records);
      DescendsIff(p, records, n);
      if was.limit < p.ceiling {
        ClimbsIff(p, records, n);
      }
    }
  }

  // ---------------------------------------------------------------- steady samples

  /** No two of these samples differ by more than the ratio. */
  ghost predicate Steady(samples: seq<real>, ratio: real) {
    forall x, y | x in samples && y in samples :: Within(x, y, ratio)
  }

  ghost predicate Within(x: real, y: real, ratio: real) {
    x <= y * ratio
  }

  lemma {:induction false} LatenciesOfMore(records: seq<Record>, k: nat, region: string)
    requires k <= |records|
    ensures Latencies(records, region) == Latencies(records[..k], region) + Latencies(records[k..], region)
    decreases |records|
  {
    if k == |records| {
      assert records[..k] == records && records[k..] == [];
    } else {
      TailOfMore(records, k);
      LatenciesOfMore(records[..|records| - 1], k, region);
      assert records[..|records| - 1][..k] == records[..k];
    }
  }

  lemma SeenAreSamples(p: Policy, records: seq<Record>, j: nat, region: string)
    requires 1 <= j <= |records|
    ensures forall x | x in Seen(p, records[..j], region) :: x in Latencies(records, region)
  {
    hide LastRise, Latencies;
    LatenciesOfMore(records, j, region);
    LatenciesOfMore(records[..j], LastRise(p, records[..j][..j - 1]), region);
  }

  lemma SteadyExceedsNothing(s: seq<real>, all: seq<real>, v: real, ratio: real)
    requires Steady(all, ratio) && v in all && forall x | x in s :: x in all
    ensures !ManyExceed(s, v, ratio)
  {
    forall i | 0 <= i < |s| ensures s[i] <= v * ratio {
      assert s[i] in s;
      assert Within(s[i], v, ratio);
    }
    NoneAbove(s, v * ratio);
  }

  /** A region whose samples never differ by more than the ratio never slows the ramp. */
  lemma SteadyNeverSlows(p: Policy, records: seq<Record>)
    requires records != [] && Steady(Latencies(records, records[|records| - 1].region), p.ratio)
    ensures !Slowed(p, records)
  {
    hide Latencies, Seen, FullAt, ManyExceed, Steady;
    var region := records[|records| - 1].region;
    var all := Latencies(records, region);
    assert records[..|records|] == records;
    SeenAreSamples(p, records, |records|, region);
    forall v | Fastest(p, records, region, v) ensures !ManyExceed(Seen(p, records, region), v, p.ratio) {
      var j: nat :| HadAt(p, records, region, j, v);
      HadIsSample(p, records, region, j, v);
      SteadyExceedsNothing(Seen(p, records, region), all, v, p.ratio);
    }
  }

  lemma HadIsSample(p: Policy, records: seq<Record>, region: string, j: nat, v: real)
    requires HadAt(p, records, region, j, v)
    ensures v in Latencies(records, region)
  {
    hide Latencies, Seen;
    SeenAreSamples(p, records, j, region);
  }

  /** So while every region's samples stay within the ratio the ramp is never frozen. */
  lemma {:induction false} SteadyNeverFreezes(p: Policy, records: seq<Record>)
    requires p.window > 0 && p.step > 0 && forall region :: Steady(Latencies(records, region), p.ratio)
    ensures !Ran(p, records).frozen
  {
    hide Latencies, Slowed, Earns, Steady;
    if records != [] {
      var before := records[..|records| - 1];
      forall region ensures Steady(Latencies(before, region), p.ratio) {
        SteadyBefore(records, region, p.ratio);
      }
      SteadyNeverFreezes(p, before);
      SteadyNeverSlows(p, records);
      RampFollowsTheRecords(p, records);
    }
  }

  lemma SteadyBefore(records: seq<Record>, region: string, ratio: real)
    requires records != [] && Steady(Latencies(records, region), ratio)
    ensures Steady(Latencies(records[..|records| - 1], region), ratio)
  {
    hide Within;
    var samples, less := Latencies(records, region), Latencies(records[..|records| - 1], region);
    forall x, y | x in less && y in less ensures Within(x, y, ratio) {
      assert x in samples && y in samples;
    }
  }

  // ---------------------------------------------------------------- the backfill's run

  /** What finishing each book records. */
  function RecordsOf(events: seq<Finish>): seq<Record> {
    if events == [] then []
    else
      var e := events[|events| - 1];
      RecordsOf(events[..|events| - 1]) + [Record(e.region, e.elapsed, e.failed, e.now)]
  }

  /** Until the ratchet trips, the backfill's ramp is what its records make it. */
  lemma {:induction false} UntroubledRampRuns(events: seq<Finish>)
    requires !After(events).ratchet.tripped
    ensures After(events).ramp == Ran(BACKFILL, RecordsOf(events))
  {
    hide Recorded;
    if events != [] {
      var before, records := events[..|events| - 1], RecordsOf(events);
      assert records[..|records| - 1] == RecordsOf(before);
      UntroubledRampRuns(before);
    }
  }

  /** A backfill without a 401, 403 or 429 whose regions keep their times within a
      factor of two never freezes its ramp. */
  lemma SteadyBackfillNeverFreezes(events: seq<Finish>)
    requires Counting(events) && Trouble(events) == 0
    requires forall region :: Steady(Latencies(RecordsOf(events), region), 2.0)
    ensures !After(events).ramp.frozen
  {
    hide Steady, Latencies, Ran;
    AbortsAtTheSecondTrouble(events);
    UntroubledRampRuns(events);
    SteadyNeverFreezes(BACKFILL, RecordsOf(events));
  }

  /** And its ramp is frozen by a record exactly when, of the sixty samples its region's
      window then holds, more than two exceed twice the least p95 the region had, and
      the region has given 180 samples. */
  lemma BackfillSlowsIff(events: seq<Finish>)
    requires events != [] && !After(events).ratchet.tripped && !After(events[..|events| - 1]).ramp.frozen
    ensures var records, e := RecordsOf(events), events[|events| - 1];
            records != [] &&
            var seen := Seen(BACKFILL, records, e.region);
            After(events).ramp.frozen <==>
              && !e.failed && |seen| == 60 && |Latencies(records, e.region)| >= 180
              && exists v :: Fastest(BACKFILL, records, e.region, v) && ManyAreOver(seen, 2.0 * v)
  {
    hide Latencies, IsP95, HadP95, LastRise, After, Ran, Seen, Earns;
    var before, e, records := events[..|events| - 1], events[|events| - 1], RecordsOf(events);
    assert records[..|records| - 1] == RecordsOf(before) && records[|records| - 1].region == e.region;
    NotTrippedBefore(events);
    UntroubledRampRuns(before);
    UntroubledRampRuns(events);
    RampFollowsTheRecords(BACKFILL, records);
    SeenFits(BACKFILL, records, e.region);
    LastFull(BACKFILL, records, e.region);
  }

  /** It climbs by three, to ten at most, exactly when it does not slow, the window of
      the record's region is full, and since the limit last rose every region that had
      a full window has made 300 clean requests in a row over sixty seconds. */
  lemma BackfillClimbsIff(events: seq<Finish>)
    requires events != [] && !After(events).ratchet.tripped && !After(events).ramp.frozen
    ensures var records, e, was := RecordsOf(events), events[|events| - 1], After(events[..|events| - 1]).ramp.limit;
            records != [] &&
            var since := records[LastRise(BACKFILL, records[..|records| - 1])..];
            var climbs := was < 10 && !e.failed && |Seen(BACKFILL, records, e.region)| == 60 &&
                          forall region | Warm(BACKFILL, records, region) :: CleanAMinute(since, region, e.now);
            After(events).ramp.limit == if !climbs then was else if was <= 7 then was + 3 else 10
  {
    hide Latencies, IsP95, HadP95, LastRise, After, Warm, Dwelt, CleanAMinute, Slowed, Ran, Seen;
    var before, e, records := events[..|events| - 1], events[|events| - 1], RecordsOf(events);
    assert records[..|records| - 1] == RecordsOf(before) && records[|records| - 1].region == e.region;
    NotTrippedBefore(events);
    UntroubledRampRuns(before);
    UntroubledRampRuns(events);
    RampFollowsTheRecords(BACKFILL, records);
    LastFull(BACKFILL, records, e.region);
    var since := records[LastRise(BACKFILL, records[..|records| - 1])..];
    SeenFits(BACKFILL, records, e.region);
    forall region ensures Dwelt(BACKFILL, records, region) <==> CleanAMinute(since, region, e.now) {
      DweltIsAMinute(records, region);
    }
  }

  lemma SeenFits(p: Policy, records: seq<Record>, region: string)
    requires records != []
    ensures |Seen(p, records, region)| <= p.window
  {
  }

  lemma DweltIsAMinute(records: seq<Record>, region: string)
    requires records != []
    ensures Dwelt(BACKFILL, records, region) <==>
            CleanAMinute(records[LastRise(BACKFILL, records[..|records| - 1])..], region, records[|records| - 1].now)
  {
    hide LastRise, CleanInARow, CleanSince;
  }

  /** 300 clean requests in a row, sixty seconds since the first. */
  predicate CleanAMinute(since: seq<Record>, region: string, now: real) {
    && CleanInARow(since, region) >= 300
    && CleanSince(since, region).Some? && now - CleanSince(since, region).value >= 60.0
  }

  /** More than two of sixty. */
  predicate ManyAreOver(s: seq<real>, x: real) {
    CountAbove(s, x) > 2
  }

  lemma NotTrippedBefore(events: seq<Finish>)
    requires events != [] && !After(events).ratchet.tripped
    ensures !After(events[..|events| - 1]).ratchet.tripped
  {
  }
}
