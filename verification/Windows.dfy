/**
 The rolling windows of scripts/backfill_chapters.py and
 scripts/repair_region_pollution.py.  Each keeps only what it needs; each answers
 as a scan of everything that ever happened would.  The clock never goes back.
 */
module Windows {
  import opened Common

  // ---------------------------------------------------------------- the scan

  /** Something that happened, and when. */
  datatype Event<+T> = Event(at: int, what: T)

  /** What happened no longer ago than the window, of the whole history. */
  function Recent<T>(history: seq<Event<T>>, window: nat, now: int): seq<Event<T>> {
    if history == [] then []
    else
      var last := history[|history| - 1];
      Recent(history[..|history| - 1], window, now) + (if now - last.at <= window then [last] else [])
  }

  ghost predicate InOrder<T>(history: seq<Event<T>>, clock: int) {
    && (forall i, j | 0 <= i < j < |history| :: history[i].at <= history[j].at)
    && (forall i | 0 <= i < |history| :: history[i].at <= clock)
  }

  lemma {:induction false} RecentInOrder<T>(history: seq<Event<T>>, window: nat, now: int, clock: int)
    requires InOrder(history, clock)
    ensures InOrder(Recent(history, window, now), clock)
    ensures forall e | e in Recent(history, window, now) :: e in history
  {
    if history != [] {
      var n := |history| - 1;
      RecentInOrder(history[..n], window, now, clock);
      assert history == history[..n] + [history[n]];
      forall i | 0 <= i < |Recent(history[..n], window, now)|
        ensures Recent(history[..n], window, now)[i].at <= history[n].at
      {
        assert Recent(history[..n], window, now)[i] in history[..n];
      }
    }
  }

  /** What an earlier look let go, no later look wants back. */
  lemma {:induction false} RecentTwice<T>(history: seq<Event<T>>, window: nat, earlier: int, now: int)
    requires earlier <= now
    ensures Recent(Recent(history, window, earlier), window, now) == Recent(history, window, now)
  {
    if history != [] {
      var n := |history| - 1;
      RecentTwice(history[..n], window, earlier, now);
      var some := Recent(history[..n], window, earlier);
      if earlier - history[n].at <= window {
        assert (some + [history[n]])[..|some|] == some;
      } else {
        assert Recent(history, window, earlier) == some;
        assert Recent(history, window, now) == Recent(history[..n], window, now);
      }
    }
  }

  /** The window is the events no older than it, in their order. */
  lemma {:induction false} RecentAre<T>(history: seq<Event<T>>, window: nat, now: int)
    ensures forall e :: multiset(Recent(history, window, now))[e] == if e.at >= now - window then multiset(history)[e] else 0
  {
    if history != [] {
      var n := |history| - 1;
      RecentAre(history[..n], window, now);
      assert history == history[..n] + [history[n]];
    }
  }

  /** In order, everything too old is in front: behind a recent event all are recent, */
  lemma {:induction false} FrontRecent<T>(events: seq<Event<T>>, window: nat, now: int, clock: int)
    requires InOrder(events, clock) && (events != [] ==> now - events[0].at <= window)
    ensures Recent(events, window, now) == events
  {
    if events != [] {
      var n := |events| - 1;
      FrontRecent(events[..n], window, now, clock);
      assert events == events[..n] + [events[n]];
    }
  }

  /** and one that is too old can be dropped. */
  lemma {:induction false} FrontDropped<T>(events: seq<Event<T>>, window: nat, now: int)
    requires events != [] && now - events[0].at > window
    ensures Recent(events, window, now) == Recent(events[1..], window, now)
  {
    var n := |events| - 1;
    if n > 0 {
      FrontDropped(events[..n], window, now);
      assert events[..n][1..] == events[1..][..n - 1] && events[1..][n - 1] == events[n];
    }
  }

  /** popleft while the front is too old: from what an earlier look left, exactly
      what a scan of the whole history finds now. */
  method Prune<T>(events: seq<Event<T>>, window: nat, now: int, ghost history: seq<Event<T>>, ghost pruned: int) returns (kept: seq<Event<T>>)
    requires InOrder(history, now) && pruned <= now && events == Recent(history, window, pruned)
    ensures kept == Recent(history, window, now)
  {
    RecentInOrder(history, window, pruned, now);
    RecentTwice(history, window, pruned, now);
    hide Recent;
    kept := events;
    while kept != [] && now - kept[0].at > window
      invariant InOrder(kept, now) && Recent(kept, window, now) == Recent(history, window, now)
      decreases |kept|
    {
      FrontDropped(kept, window, now);
      kept := kept[1..];
    }
    FrontRecent(kept, window, now, now);
  }

  /** What has just happened is recent to any look before it. */
  lemma JustHappened<T>(history: seq<Event<T>>, window: nat, pruned: int, e: Event<T>)
    requires pruned <= e.at && InOrder(history, e.at)
    ensures Recent(history + [e], window, pruned) == Recent(history, window, pruned) + [e]
    ensures InOrder(history + [e], e.at)
  {
    assert (history + [e])[..|history|] == history;
  }

  // ---------------------------------------------------------------- the two throttle sentinels

  /** What a log record says of a response: its status, if it carries one, and
      whether it counts attempts, as the throttle line alone does. */
  datatype Record = Record(status: int, counted: bool)

  /** The backfill's sentinel prunes as it counts, the repair's only when asked; in
      `history` is every 5xx there ever was. */
  class ThrottleSentinel {
    const eager: bool
    const window: nat
    const within: nat
    var throttled: nat
    var serverErrors: seq<Event<()>>
    ghost var history: seq<Event<()>>
    ghost var pruned: int
    ghost var clock: int

    ghost predicate Valid()
      reads this
    {
      && InOrder(history, clock) && pruned <= clock
      && serverErrors == Recent(history, window, pruned)
    }

    constructor (eager: bool, window: nat, within: nat, ghost now: int)
      ensures Valid() && history == [] && throttled == 0 && clock == now
      ensures this.eager == eager && this.window == window && this.within == within
    {
      this.eager, this.window, this.within := eager, window, within;
      throttled, serverErrors, history, pruned, clock := 0, [], [], now, now;
    }

    method Emit(r: Record, now: int)
      requires Valid() && clock <= now
      modifies this
      ensures Valid() && clock == now
      ensures history == if r.counted && 500 <= r.status <= 599 then old(history) + [Event(now, ())] else old(history)
      ensures throttled == old(throttled) + (if r.counted && r.status == 429 then 1 else 0)
    {
      hide Recent;
      clock := now;
      if !r.counted {
        return;
      }
      if r.status == 429 {
        throttled := throttled + 1;
      } else if 500 <= r.status < 600 {
        JustHappened(history, window, pruned, Event(now, ()));
        history := history + [Event(now, ())];
        serverErrors := serverErrors + [Event(now, ())];
        if eager {
          serverErrors := Prune(serverErrors, window, now, history, pruned);
          pruned := now;
        }
      }
    }

    /** sustained_server_errors: of every 5xx ever, enough are inside the window. */
    method SustainedServerErrors(now: int) returns (sustained: bool)
      requires Valid() && clock <= now
      modifies this
      ensures Valid() && clock == now && history == old(history) && throttled == old(throttled)
      ensures sustained <==> |Recent(history, window, now)| >= within
    {
      hide Recent;
      serverErrors := Prune(serverErrors, window, now, history, pruned);
      clock, pruned := now, now;
      sustained := |serverErrors| >= within;
    }
  }

  // ---------------------------------------------------------------- the back-off window

  function Signals(samples: seq<Event<bool>>): (n: nat)
    ensures n <= |samples|
  {
    if samples == [] then 0 else Signals(samples[..|samples| - 1]) + (if samples[|samples| - 1].what then 1 else 0)
  }

  function Whats<T>(samples: seq<Event<T>>): (r: seq<T>)
    ensures |r| == |samples|
  {
    seq(|samples|, i requires 0 <= i < |samples| => samples[i].what)
  }

  lemma {:induction false} SignalsCount(samples: seq<Event<bool>>)
    ensures Signals(samples) == multiset(Whats(samples))[true]
  {
    if samples != [] {
      var n := |samples| - 1;
      SignalsCount(samples[..n]);
      assert Whats(samples) == Whats(samples[..n]) + [samples[n].what];
    }
  }

  /** Enough samples, and at least this share of them signals. */
  ghost predicate CoolsDown(samples: seq<Event<bool>>, minSamples: int, rate: real) {
    |samples| >= minSamples && multiset(Whats(samples))[true] as real >= rate * |samples| as real
  }

  /** In `history` is every request since the window was last cleared. */
  class BackoffWindow {
    const window: nat
    const minSamples: int
    const rate: real
    var events: seq<Event<bool>>
    ghost var history: seq<Event<bool>>
    ghost var clock: int

    ghost predicate Valid()
      reads this
    {
      InOrder(history, clock) && events == Recent(history, window, clock)
    }

    constructor (window: nat, minSamples: int, rate: real, ghost now: int)
      ensures Valid() && history == [] && clock == now
      ensures this.window == window && this.minSamples == minSamples && this.rate == rate
    {
      this.window, this.minSamples, this.rate := window, minSamples, rate;
      events, history, clock := [], [], now;
    }

    method Record(signal: bool, now: int)
      requires Valid() && clock <= now
      modifies this
      ensures Valid() && clock == now && history == old(history) + [Event(now, signal)]
    {
      hide Recent;
      JustHappened(history, window, clock, Event(now, signal));
      history := history + [Event(now, signal)];
      events := events + [Event(now, signal)];
      events := Prune(events, window, now, history, clock);
      clock := now;
    }

    /** should_cooldown looks at the window as the last record left it.  A minimum of
        zero samples lets it divide by an empty window: None is that error. */
    method ShouldCooldown() returns (cooldown: Option<bool>)
      requires Valid()
      ensures var recent := Recent(history, window, clock);
              cooldown == if recent == [] && minSamples <= 0 then None else Some(CoolsDown(recent, minSamples, rate))
    {
      hide Recent, Signals;
      if |events| < minSamples {
        return Some(false);
      }
      if |events| == 0 {
        return None;
      }
      SignalsCount(events);
      var signals := CountSignals(events);
      var reached := ShareReaches(signals, |events|, rate);
      cooldown := Some(reached);
    }

    method Clear()
      requires Valid()
      modifies this
      ensures Valid() && history == [] && clock == old(clock)
    {
      events, history := [], [];
    }
  }

  method CountSignals(samples: seq<Event<bool>>) returns (signals: nat)
    ensures signals == Signals(samples)
  {
    signals := 0;
    var i := 0;
    while i < |samples|
      invariant 0 <= i <= |samples| && signals == Signals(samples[..i])
    {
      assert samples[..i + 1][..i] == samples[..i];
      signals := signals + (if samples[i].what then 1 else 0);
      i := i + 1;
    }
    assert samples[..i] == samples;
  }

  method ShareReaches(part: nat, whole: nat, rate: real) returns (reached: bool)
    requires whole > 0
    ensures reached <==> part as real >= rate * whole as real
  {
    ShareAtLeast(part as real, whole as real, rate);
    reached := part as real / whole as real >= rate;
  }

  lemma ShareAtLeast(part: real, whole: real, rate: real)
    requires whole > 0.0
    ensures part / whole >= rate <==> part >= rate * whole
  {
    assert part == (part / whole) * whole;
    if part / whole >= rate { Scales(rate, part / whole, whole); } else { ScalesStrictly(part / whole, rate, whole); }
  }

  lemma Scales(a: real, b: real, c: real)
    requires a <= b && c > 0.0
    ensures a * c <= b * c
  {
  }

  lemma ScalesStrictly(a: real, b: real, c: real)
    requires a < b && c > 0.0
    ensures a * c < b * c
  {
  }

  // ---------------------------------------------------------------- the NONE-rate guard

  const NONE_RATE_WINDOW: nat := 60
  const NONE_RATE_BASELINE_MIN_SAMPLES: nat := 200

  function Nones(outcomes: seq<bool>): (n: nat)
    ensures n <= |outcomes|
  {
    if outcomes == [] then 0 else Nones(outcomes[..|outcomes| - 1]) + (if outcomes[|outcomes| - 1] then 1 else 0)
  }

  /** The share of NONE among these outcomes. */
  ghost function NoneRate(outcomes: seq<bool>): real
    requires outcomes != []
  {
    multiset(outcomes)[true] as real / |outcomes| as real
  }

  /** Half of the last 60 outcomes are NONE, and three times the share among all
      the outcomes before those, of which there are at least 200. */
  ghost predicate Spikes(history: seq<bool>) {
    && |history| >= 260
    && var cut := |history| - 60;
       NoneRate(history[cut..]) >= 0.5 && NoneRate(history[cut..]) >= NoneRate(history[..cut]) * 3.0
  }

  lemma {:induction false} NonesCount(outcomes: seq<bool>)
    ensures Nones(outcomes) == multiset(outcomes)[true]
  {
    if outcomes != [] {
      var n := |outcomes| - 1;
      NonesCount(outcomes[..n]);
      assert outcomes == outcomes[..n] + [outcomes[n]];
    }
  }

  lemma {:induction false} NonesConcat(a: seq<bool>, b: seq<bool>)
    ensures Nones(a + b) == Nones(a) + Nones(b)
    decreases |b|
  {
    if b == [] {
      assert a + b == a;
    } else {
      assert (a + b)[..|a + b| - 1] == a + b[..|b| - 1];
      NonesConcat(a, b[..|b| - 1]);
    }
  }

  lemma SpikesByCount(history: seq<bool>)
    ensures |history| < 260 ==> !Spikes(history)
    ensures |history| >= 260 ==>
              var cut := |history| - 60;
              var recent, before := Nones(history[cut..]) as real / 60.0, Nones(history[..cut]) as real / cut as real;
              (Spikes(history) <==> recent >= 0.5 && recent >= before * 3.0)
  {
    hide Nones;
    if |history| >= 260 {
      NonesCount(history[|history| - 60..]);
      NonesCount(history[..|history| - 60]);
    }
  }

  class NoneRateGuard {
    var window: seq<bool>
    var total: nat
    var totalNone: nat
    ghost var history: seq<bool>

    ghost predicate Valid()
      reads this
    {
      && total == |history| && totalNone == Nones(history)
      && window == Window(history)
    }

    constructor ()
      ensures Valid() && history == []
    {
      window, total, totalNone, history := [], 0, 0, [];
    }

    /** record: fires exactly on the naive test of the whole history. */
    method Record(isNone: bool) returns (spike: bool)
      requires Valid()
      modifies this
      ensures Valid() && history == old(history) + [isNone]
      ensures spike == Spikes(history)
    {
      hide Nones, Spikes;
      WindowSlides(history, isNone);
      history := history + [isNone];
      SpikesByCount(history);
      window := (if |window| == NONE_RATE_WINDOW then window[1..] else window) + [isNone];
      total := total + 1;
      if isNone {
        totalNone := totalNone + 1;
      }
      if |window| < NONE_RATE_WINDOW {
        return false;
      }
      var windowNone := CountNones(window);
      SplitAt(history, |history| - NONE_RATE_WINDOW);
      var priorTotal, priorNone := total - |window|, totalNone - windowNone;
      if priorTotal < NONE_RATE_BASELINE_MIN_SAMPLES {
        return false;
      }
      spike := FarAboveBaseline(windowNone, priorNone, priorTotal);
    }
  }

  /** The two rates compared. */
  method FarAboveBaseline(windowNone: nat, priorNone: nat, priorTotal: nat) returns (spike: bool)
    requires priorTotal > 0
    ensures spike <==> windowNone as real / 60.0 >= 0.5 && windowNone as real / 60.0 >= (priorNone as real / priorTotal as real) * 3.0
  {
    var baseline := priorNone as real / priorTotal as real;
    var recent := windowNone as real / NONE_RATE_WINDOW as real;
    spike := recent >= 0.5 && recent >= baseline * 3.0;
  }

  method CountNones(outcomes: seq<bool>) returns (nones: nat)
    ensures nones == Nones(outcomes)
  {
    nones := 0;
    var i := 0;
    while i < |outcomes|
      invariant 0 <= i <= |outcomes| && nones == Nones(outcomes[..i])
    {
      assert outcomes[..i + 1][..i] == outcomes[..i];
      nones := nones + (if outcomes[i] then 1 else 0);
      i := i + 1;
    }
    assert outcomes[..i] == outcomes;
  }

  /** The last 60 outcomes, or all of them while there are fewer. */
  function Window(history: seq<bool>): seq<bool> {
    if |history| <= NONE_RATE_WINDOW then history else history[|history| - NONE_RATE_WINDOW..]
  }

  lemma WindowSlides(history: seq<bool>, outcome: bool)
    ensures var was := Window(history);
            Window(history + [outcome]) == (if |was| == NONE_RATE_WINDOW then was[1..] else was) + [outcome]
    ensures Nones(history + [outcome]) == Nones(history) + (if outcome then 1 else 0)
  {
    assert (history + [outcome])[..|history|] == history;
  }

  lemma SplitAt(history: seq<bool>, cut: nat)
    requires cut <= |history|
    ensures Nones(history) == Nones(history[..cut]) + Nones(history[cut..])
  {
    assert history == history[..cut] + history[cut..];
    NonesConcat(history[..cut], history[cut..]);
  }
}
