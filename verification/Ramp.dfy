/**
 The latency-driven ramp of the two walks (scripts/backfill_chapters.py and
 scripts/refresh_corpus.py) and the ratchet of the chapter backfill.  Setting
 the gate's limit is one step (see GateSteps), so one book's bookkeeping is too.
 */
module RampModel {
  import opened Common
  import opened GateModel

  /** The constants a script gives its ramp.  minSeconds is the wall-clock floor
      of a clean streak, which only the backfill has. */
  datatype Policy = Policy(start: nat, step: nat, ceiling: nat,
                           minRequests: nat, minSeconds: Option<real>,
                           window: nat, warmup: nat, ratio: real)

  const BACKFILL := Policy(3, 3, 10, 300, Some(60.0), 60, 180, 2.0)
  const FLOOR: int := 1

  /** One region's latency window and clean streak. */
  datatype Signal = Signal(latencies: seq<real>, streak: nat, started: Option<real>,
                           best: Option<real>, samples: nat)

  const NEW_SIGNAL := Signal([], 0, None, None, 0)

  datatype Ramp = Ramp(limit: int, frozen: bool, regions: map<string, Signal>)

  function Init(p: Policy): Ramp {
    Ramp(p.start, false, map[])
  }

  function Min(a: int, b: int): int { if a < b then a else b }
  function Max(a: int, b: int): int { if a > b then a else b }

  function Insert(sorted: seq<real>, x: real): seq<real> {
    if sorted == [] || x <= sorted[0] then [x] + sorted else [sorted[0]] + Insert(sorted[1..], x)
  }

  function Sorted(s: seq<real>): (r: seq<real>)
    ensures |r| == |s|
  {
    if s == [] then [] else InsertLength(Sorted(s[1..]), s[0]); Insert(Sorted(s[1..]), s[0])
  }

  lemma {:induction false} InsertLength(s: seq<real>, x: real)
    ensures |Insert(s, x)| == |s| + 1
  {
    if s != [] && x > s[0] {
      InsertLength(s[1..], x);
    }
  }

  predicate Ascending(s: seq<real>) {
    forall i | 0 <= i < |s| - 1 :: s[i] <= s[i + 1]
  }

  /** The window in order is the window's own samples, each as often. */
  lemma {:induction false} SortedOrders(s: seq<real>)
    ensures multiset(Sorted(s)) == multiset(s) && Ascending(Sorted(s))
  {
    if s != [] {
      SortedOrders(s[1..]);
      InsertOrders(Sorted(s[1..]), s[0]);
      assert s == [s[0]] + s[1..];
    }
  }

  lemma {:induction false} InsertOrders(s: seq<real>, x: real)
    requires Ascending(s)
    ensures multiset(Insert(s, x)) == multiset(s) + multiset{x}
    ensures Ascending(Insert(s, x))
    ensures Insert(s, x) != [] && (Insert(s, x)[0] == x || (s != [] && Insert(s, x)[0] == s[0]))
  {
    if s != [] && x > s[0] {
      assert s == [s[0]] + s[1..];
      InsertOrders(s[1..], x);
    }
  }

  /** deque(maxlen=window).append */
  function Push(window: nat, latencies: seq<real>, x: real): seq<real> {
    var all := latencies + [x];
    if |all| > window then all[|all| - window..] else all
  }

  function P95(p: Policy, latencies: seq<real>): Option<real> {
    if |latencies| < p.window || latencies == [] then None
    else
      var ordered := Sorted(latencies);
      Some(ordered[Min(|ordered| - 1, |ordered| * 95 / 100)])
  }

  predicate DwellMet(p: Policy, s: Signal, now: real) {
    && s.streak >= p.minRequests
    && (p.minSeconds.Some? ==> s.started.Some? && now - s.started.value >= p.minSeconds.value)
  }

  /** Every region with a best p95 is independently clean. */
  predicate AllWarmDwell(p: Policy, regions: map<string, Signal>, now: real) {
    && (exists r :: r in regions && regions[r].best.Some?)
    && (forall r | r in regions && regions[r].best.Some? :: DwellMet(p, regions[r], now))
  }

  function ResetStreaks(regions: map<string, Signal>, clear: bool): map<string, Signal> {
    map r | r in regions ::
      regions[r].(streak := 0, started := None, latencies := if clear then [] else regions[r].latencies)
  }

  function StepUp(p: Policy, m: Ramp): Ramp {
    if m.limit >= p.ceiling then m.(regions := ResetStreaks(m.regions, false))
    else m.(limit := Min(p.ceiling, m.limit + p.step), regions := ResetStreaks(m.regions, true))
  }

  function StepDown(p: Policy, m: Ramp): Ramp {
    m.(frozen := true, limit := Max(p.start, m.limit - p.step), regions := ResetStreaks(m.regions, true))
  }

  function SignalOf(m: Ramp, region: string): Signal {
    if region in m.regions then m.regions[region] else NEW_SIGNAL
  }

  /** A clean request's effect on its own region. */
  function Sampled(p: Policy, s: Signal, elapsed: Option<real>, now: real): Signal {
    var t := s.(streak := s.streak + 1, started := if s.streak == 0 then Some(now) else s.started);
    var u := if elapsed.Some? then t.(latencies := Push(p.window, t.latencies, elapsed.value), samples := t.samples + 1) else t;
    var p95 := P95(p, u.latencies);
    if p95.Some? && (u.best.None? || p95.value < u.best.value) then u.(best := p95) else u
  }

  predicate Degraded(p: Policy, s: Signal) {
    var p95 := P95(p, s.latencies);
    s.samples >= p.warmup && p95.Some? && s.best.Some? && p95.value > s.best.value * p.ratio
  }

  datatype Move = Hold | Climb | Descend

  /** What a clean sample t in its region asks of the ramp. */
  function MoveFor(p: Policy, m: Ramp, t: Signal, now: real): Move {
    if m.frozen || P95(p, t.latencies).None? then Hold
    else if Degraded(p, t) then Descend
    else if DwellMet(p, t, now) && AllWarmDwell(p, m.regions, now) then Climb
    else Hold
  }

  function Moved(p: Policy, m: Ramp, move: Move): Ramp {
    match move
    case Hold => m
    case Climb => StepUp(p, m)
    case Descend => StepDown(p, m)
  }

  /** _Ramp.record */
  function Recorded(p: Policy, m: Ramp, region: string, elapsed: Option<real>, failed: bool, now: real): Ramp {
    var s := SignalOf(m, region);
    if failed then m.(regions := m.regions[region := s.(streak := 0, started := None)])
    else
      var t := Sampled(p, s, elapsed, now);
      var n := m.(regions := m.regions[region := t]);
      Moved(p, n, MoveFor(p, n, t, now))
  }

  /** The ramp object: its regions and its freeze, and the gate it drives. */
  class RampControl {
    const policy: Policy
    const gate: SharedGate
    var regions: map<string, Signal>
    var frozen: bool

    ghost function View(): Ramp
      reads this, gate
    {
      Ramp(gate.limit, frozen, regions)
    }

    constructor (policy: Policy, gate: SharedGate)
      ensures this.policy == policy && this.gate == gate
      ensures View() == Ramp(gate.limit, false, map[])
    {
      this.policy, this.gate := policy, gate;
      regions, frozen := map[], false;
    }

    method Freeze()
      modifies this
      ensures View() == old(View()).(frozen := true)
    {
      frozen := true;
    }

    method Record(region: string, elapsed: Option<real>, failed: bool, now: real)
      modifies this, gate
      ensures View() == Recorded(policy, old(View()), region, elapsed, failed, now)
    {
      hide P95, Degraded, DwellMet, AllWarmDwell, Sampled, ResetStreaks;
      var signal := if region in regions then regions[region] else NEW_SIGNAL;
      if failed {
        regions := regions[region := signal.(streak := 0, started := None)];
        return;
      }
      signal := Sampled(policy, signal, elapsed, now);
      regions := regions[region := signal];
      if P95(policy, signal.latencies).None? {
        return;
      }
      if !frozen && Degraded(policy, signal) {
        frozen := true;
        gate.SetLimit(Max(policy.start, gate.limit - policy.step));
        Reset(true);
        return;
      }
      if !frozen && DwellMet(policy, signal, now) {
        if AllWarmDwell(policy, regions, now) {
          if gate.limit >= policy.ceiling {
            Reset(false);
          } else {
            var limit := Min(policy.ceiling, gate.limit + policy.step);
            Reset(true);
            gate.SetLimit(limit);
          }
        }
      }
    }

    /** Ends every region's streak, and forgets its latencies when the limit moved. */
    method Reset(clear: bool)
      modifies this
      ensures regions == ResetStreaks(old(regions), clear) && frozen == old(frozen)
    {
      var todo := regions.Keys;
      while todo != {}
        invariant todo <= regions.Keys == old(regions).Keys && frozen == old(frozen)
        invariant forall r | r in regions ::
                    regions[r] == if r in todo then old(regions)[r] else ResetStreaks(old(regions), clear)[r]
        decreases todo
      {
        var r :| r in todo;
        var s := regions[r];
        regions := regions[r := s.(streak := 0, started := None, latencies := if clear then [] else s.latencies)];
        todo := todo - {r};
      }
    }
  }

  // ---------------------------------------------------------------- where the limit can be

  lemma MovedStays(p: Policy, m: Ramp, move: Move)
    requires p.start <= m.limit <= Max(p.start, p.ceiling)
    ensures p.start <= Moved(p, m, move).limit <= Max(p.start, p.ceiling)
    ensures Moved(p, m, move).limit <= m.limit + p.step
    ensures Moved(p, m, move).frozen ==> m.frozen || Moved(p, m, move).limit <= m.limit
  {
  }

  /** A ramp alone stays between its start and its ceiling; one started above
      its ceiling never moves. */
  lemma RecordedStays(p: Policy, m: Ramp, region: string, elapsed: Option<real>, failed: bool, now: real)
    requires p.start <= m.limit <= Max(p.start, p.ceiling)
    ensures var n := Recorded(p, m, region, elapsed, failed, now);
            && p.start <= n.limit <= Max(p.start, p.ceiling)
            && (m.frozen ==> n.frozen && n.limit == m.limit)
            && (n.frozen && !m.frozen ==> n.limit <= m.limit)
            && n.limit <= m.limit + p.step
  {
    var t := Sampled(p, SignalOf(m, region), elapsed, now);
    var n := m.(regions := m.regions[region := t]);
    MovedStays(p, n, MoveFor(p, n, t, now));
  }
}

module Ratchet {
  import opened Common
  import opened RampModel
  import opened GateModel

  /** _Ratchet: the first 429, 401 or 403 drops the run to its floor, any
      further one aborts it. */
  datatype Verdict = Nothing | ToFloor | Abort

  datatype Ratchet = Ratchet(tripped: bool, aborted: bool, lastThrottled: int)

  /** The events one observation folds in. */
  function NewEvents(last: int, auth: bool, throttled: int): nat {
    (if auth then 1 else 0) + Max(0, throttled - last)
  }

  function VerdictOf(tripped: bool, events: nat): Verdict {
    if events == 0 then Nothing
    else if tripped || events >= 2 then Abort
    else ToFloor
  }

  class RatchetState {
    var tripped: bool
    var aborted: bool
    var lastThrottled: int

    function View(): Ratchet
      reads this
    {
      Ratchet(tripped, aborted, lastThrottled)
    }

    constructor ()
      ensures View() == Ratchet(false, false, 0)
    {
      tripped, aborted, lastThrottled := false, false, 0;
    }

    method Observe(auth: bool, throttled: int) returns (verdict: Verdict)
      modifies this
      ensures verdict == VerdictOf(old(tripped), NewEvents(old(lastThrottled), auth, throttled))
      ensures View() == Observed(old(View()), auth, throttled)
    {
      var events := (if auth then 1 else 0) + Max(0, throttled - lastThrottled);
      lastThrottled := throttled;
      verdict := Nothing;
      var i := 0;
      while i < events
        invariant 0 <= i <= events && lastThrottled == throttled
        invariant tripped <==> old(tripped) || i >= 1
        invariant verdict == VerdictOf(old(tripped), i)
        invariant aborted <==> old(aborted) || verdict.Abort?
      {
        if tripped {
          aborted := true;
          verdict := Abort;
        } else {
          tripped := true;
          verdict := ToFloor;
        }
        i := i + 1;
      }
    }
  }

  function Observed(r: Ratchet, auth: bool, throttled: int): Ratchet {
    var events := NewEvents(r.lastThrottled, auth, throttled);
    Ratchet(r.tripped || events >= 1, r.aborted || VerdictOf(r.tripped, events).Abort?, throttled)
  }

  /** What finishing one book tells the run: its region's sample, whether it was
      a 401 or 403, the sentinel's running total of 429s, and whether something
      else (5xx, a NONE spike) aborts the run. */
  datatype Finish = Finish(region: string, elapsed: Option<real>, failed: bool, now: real,
                           auth: bool, throttled: int, otherAbort: bool)

  datatype Run = Run(ramp: Ramp, ratchet: Ratchet, aborted: bool)

  /** _dispatch_one's bookkeeping after the gate is released. */
  function Finished(run: Run, e: Finish): Run {
    var ramp := Recorded(BACKFILL, run.ramp, e.region, e.elapsed, e.failed, e.now);
    var verdict := VerdictOf(run.ratchet.tripped, NewEvents(run.ratchet.lastThrottled, e.auth, e.throttled));
    Run(if verdict.ToFloor? then ramp.(limit := FLOOR, frozen := true) else ramp,
        Observed(run.ratchet, e.auth, e.throttled),
        run.aborted || verdict.Abort? || e.otherAbort)
  }

  function After(events: seq<Finish>): Run {
    if events == [] then Run(RampModel.Init(BACKFILL), Ratchet(false, false, 0), false)
    else Finished(After(events[..|events| - 1]), events[|events| - 1])
  }

  /** The 401s and 403s among these books. */
  function Auths(events: seq<Finish>): nat {
    if events == [] then 0 else Auths(events[..|events| - 1]) + (if events[|events| - 1].auth then 1 else 0)
  }

  /** The sentinel's count of every 429 so far, as the last book saw it. */
  function LastThrottled(events: seq<Finish>): int {
    if events == [] then 0 else events[|events| - 1].throttled
  }

  /** A count starts at zero and never goes down. */
  ghost predicate Counting(events: seq<Finish>) {
    && (forall i | 0 <= i < |events| :: events[i].throttled >= 0)
    && (forall i, j | 0 <= i < j < |events| :: events[i].throttled <= events[j].throttled)
  }

  /** All the trouble there was: each 401 or 403, and each 429 there ever was. */
  function Trouble(events: seq<Finish>): int {
    Auths(events) + LastThrottled(events)
  }

  /** What the observations have folded in, book by book. */
  function FoldedIn(events: seq<Finish>): nat {
    if events == [] then 0
    else
      var before := events[..|events| - 1];
      var last := events[|events| - 1];
      FoldedIn(before) + NewEvents(LastThrottled(before), last.auth, last.throttled)
  }

  /** Folding in the change since the last look counts everything once, however many
      429s there were between two looks. */
  lemma {:induction false} FoldedInIsTheTrouble(events: seq<Finish>)
    requires Counting(events)
    ensures FoldedIn(events) == Trouble(events)
  {
    if events != [] {
      FoldedInIsTheTrouble(events[..|events| - 1]);
    }
  }

  method FinishBook(ramp: RampControl, ratchet: RatchetState, aborted: bool, e: Finish) returns (nowAborted: bool)
    requires ramp.policy == BACKFILL
    modifies ramp, ramp.gate, ratchet
    ensures Run(ramp.View(), ratchet.View(), nowAborted) ==
            Finished(Run(old(ramp.View()), old(ratchet.View()), aborted), e)
  {
    ramp.Record(e.region, e.elapsed, e.failed, e.now);
    var verdict := ratchet.Observe(e.auth, e.throttled);
    if verdict.ToFloor? {
      ramp.gate.SetLimit(FLOOR);
      ramp.Freeze();
    }
    nowAborted := aborted || verdict.Abort? || e.otherAbort;
  }

  ghost predicate Inv(run: Run) {
    && 1 <= run.ramp.limit <= 10
    && (!run.ramp.frozen ==> run.ramp.limit >= 3)
    && (run.ratchet.tripped ==> run.aborted || (run.ramp.limit == 1 && run.ramp.frozen))
    && (run.ratchet.aborted ==> run.ratchet.tripped && run.aborted)
  }

  /** What no later book can take back. */
  ghost predicate Later(a: Run, b: Run) {
    && (a.ramp.frozen ==> b.ramp.frozen && b.ramp.limit <= a.ramp.limit)
    && (a.ratchet.tripped ==> b.ratchet.tripped)
    && (a.aborted ==> b.aborted)
  }

  lemma FinishedKeeps(run: Run, e: Finish)
    requires Inv(run)
    ensures Inv(Finished(run, e)) && Later(run, Finished(run, e))
  {
  }

  /** The ratchet trips exactly at the first event folded in and aborts exactly at
      the second, whatever the totals it is shown. */
  lemma {:induction false} AbortsAtTheSecondEvent(events: seq<Finish>)
    ensures After(events).ratchet.tripped <==> FoldedIn(events) >= 1
    ensures After(events).ratchet.aborted <==> FoldedIn(events) >= 2
    ensures After(events).ratchet.lastThrottled == LastThrottled(events)
  {
    if events != [] {
      AbortsAtTheSecondEvent(events[..|events| - 1]);
    }
  }

  /** So over every run it trips exactly when the 401s, 403s and 429s number one and
      aborts exactly when they number two, however they are batched. */
  lemma AbortsAtTheSecondTrouble(events: seq<Finish>)
    requires Counting(events)
    ensures After(events).ratchet.tripped <==> Trouble(events) >= 1
    ensures After(events).ratchet.aborted <==> Trouble(events) >= 2
  {
    AbortsAtTheSecondEvent(events);
    FoldedInIsTheTrouble(events);
  }

  /** A run is aborted exactly when there was that much trouble, or something else
      aborted it. */
  lemma AbortedIff(events: seq<Finish>)
    requires Counting(events)
    ensures After(events).aborted <==> Trouble(events) >= 2 || exists e :: e in events && e.otherAbort
  {
    AbortsAtTheSecondTrouble(events);
    AbortedByEither(events);
  }

  lemma {:induction false} AbortedByEither(events: seq<Finish>)
    ensures After(events).aborted <==> After(events).ratchet.aborted || exists e :: e in events && e.otherAbort
  {
    hide Recorded;
    if events != [] {
      var before, last := events[..|events| - 1], events[|events| - 1];
      AbortedByEither(before);
      assert events == before + [last];
    }
  }

  lemma {:induction false} LimitInRange(events: seq<Finish>)
    ensures Inv(After(events))
    ensures 1 <= After(events).ramp.limit <= 10
  {
    if events != [] {
      LimitInRange(events[..|events| - 1]);
      FinishedKeeps(After(events[..|events| - 1]), events[|events| - 1]);
    }
  }

  /** Once frozen the limit never rises; from the first trip on, the run is
      aborted or stays at one slot for good. */
  lemma FrozenAndFloored(events: seq<Finish>, more: seq<Finish>)
    ensures After(events).ramp.frozen ==>
              After(events + more).ramp.frozen && After(events + more).ramp.limit <= After(events).ramp.limit
    ensures After(events).ratchet.tripped ==>
              After(events + more).aborted || (After(events + more).ramp.limit == 1 && After(events + more).ramp.frozen)
  {
    LimitInRange(events + more);
    MoreIsLater(events, more);
  }

  lemma {:induction false} MoreIsLater(events: seq<Finish>, more: seq<Finish>)
    ensures Later(After(events), After(events + more))
    decreases |more|
  {
    if more == [] {
      assert events + more == events;
    } else {
      var all, less := events + more, events + more[..|more| - 1];
      assert all[..|all| - 1] == less;
      MoreIsLater(events, more[..|more| - 1]);
      LimitInRange(less);
      OneMore(less, all[|all| - 1], all);
    }
  }

  lemma OneMore(less: seq<Finish>, e: Finish, all: seq<Finish>)
    requires all == less + [e] && Inv(After(less))
    ensures Later(After(less), After(all))
  {
    assert all[..|all| - 1] == less;
    FinishedKeeps(After(less), e);
  }

  /** The floor holds only because the ramp is frozen with it: one more record moves a
      ramp at the floor off it if and only if the record is a clean one, the ramp is
      not frozen, and the sample asks for a move; a degraded one takes it to 3. */
  lemma FloorHeldIffFrozenOrStill(m: Ramp, e: Finish)
    requires m.limit == FLOOR
    ensures var t := Sampled(BACKFILL, SignalOf(m, e.region), e.elapsed, e.now);
            var move := MoveFor(BACKFILL, m.(regions := m.regions[e.region := t]), t, e.now);
            var n := Recorded(BACKFILL, m, e.region, e.elapsed, e.failed, e.now);
            && (n.limit != FLOOR <==> !e.failed && move != Hold)
            && (!e.failed && move.Descend? ==> n.limit == 3)
            && (!e.failed && move.Climb? ==> n.limit == 4)
            && (m.frozen ==> move == Hold)
            && (!m.frozen && Degraded(BACKFILL, t) ==> move == Descend)
  {
  }

  /** A step up needs 300 clean requests in a row from the region that asks for
      it, and ends every region's streak. */
  ghost predicate Earned(m: Ramp, records: nat, climbs: nat) {
    && m.limit <= 3 + 3 * climbs
    && 300 * climbs <= records
    && forall r | r in m.regions :: 300 * climbs + m.regions[r].streak <= records
  }

  lemma RecordedEarned(m: Ramp, e: Finish, records: nat, climbs: nat)
    requires Earned(m, records, climbs) && 3 <= m.limit
    ensures var n := Recorded(BACKFILL, m, e.region, e.elapsed, e.failed, e.now);
            Earned(n, records + 1, if n.limit > m.limit then climbs + 1 else climbs)
  {
  }

  /** A climb is never cheaper than its dwell: after n books the limit is at most
      3 more than its start for every 300 of them. */
  lemma {:induction false} ClimbsOnEvidence(events: seq<Finish>) returns (climbs: nat)
    ensures 300 * climbs <= |events| && After(events).ramp.limit <= 3 + 3 * climbs
    ensures !After(events).ramp.frozen ==> Earned(After(events).ramp, |events|, climbs)
  {
    climbs := 0;
    if events != [] {
      var before, e := events[..|events| - 1], events[|events| - 1];
      climbs := ClimbsOnEvidence(before);
      LimitInRange(before);
      var run := After(before);
      FinishedKeeps(run, e);
      if !run.ramp.frozen {
        RecordedEarned(run.ramp, e, |before|, climbs);
        if Recorded(BACKFILL, run.ramp, e.region, e.elapsed, e.failed, e.now).limit > run.ramp.limit {
          climbs := climbs + 1;
        }
      }
    }
  }
}
