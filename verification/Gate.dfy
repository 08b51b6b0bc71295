/**
 The concurrency gate of scripts/backfill_chapters.py and scripts/refresh_corpus.py:
 a condition variable over a limit that moves while tasks wait on it.

 GateModel takes each call as one step and proves that no wakeup is lost;
 GateSteps runs the calls statement by statement, as cooperative tasks sharing
 the condition's lock, and proves that taking them as one step was right.
 */
module GateModel {
  import opened Common

  /** One acquisition of the gate, from its acquire to its release. */
  type Task = nat

  /** waiting: parked on the condition, not yet notified, oldest first;
      notified: told to look again, not yet resumed; holders: inside. */
  datatype Gate = Gate(limit: int, active: int, waiting: seq<Task>, notified: set<Task>, holders: set<Task>)

  datatype Call =
    | SetLimit(limit: int)
    | Acquire(task: Task)
    | Wake(task: Task)      // a notified task resumes inside acquire's loop
    | Release(task: Task)

  function Init(limit: int): Gate {
    Gate(limit, 0, [], {}, {})
  }

  predicate Enabled(g: Gate, c: Call) {
    match c
    case SetLimit(_) => true
    case Acquire(t) => t !in g.waiting && t !in g.notified && t !in g.holders
    case Wake(t) => t in g.notified
    case Release(t) => t in g.holders
  }

  function Take(g: Gate, t: Task): Gate {
    g.(active := g.active + 1, holders := g.holders + {t})
  }

  function Park(g: Gate, t: Task): Gate {
    g.(waiting := g.waiting + [t])
  }

  function NotifyOne(g: Gate): Gate {
    if g.waiting == [] then g
    else g.(waiting := g.waiting[1..], notified := g.notified + {g.waiting[0]})
  }

  function NotifyAll(g: Gate): Gate {
    g.(waiting := [], notified := g.notified + (set t | t in g.waiting))
  }

  function TakeOrPark(g: Gate, t: Task): Gate {
    if g.active >= g.limit then Park(g, t) else Take(g, t)
  }

  function Apply(g: Gate, c: Call): Gate {
    match c
    case SetLimit(limit) => NotifyAll(g.(limit := limit))
    case Acquire(t) => TakeOrPark(g, t)
    case Wake(t) => TakeOrPark(g.(notified := g.notified - {t}), t)
    case Release(t) => NotifyOne(g.(active := g.active - 1, holders := g.holders - {t}))
  }

  /** The gate after these calls, or None when one of them could not happen. */
  function Run(limit: int, calls: seq<Call>): Option<Gate> {
    if calls == [] then Some(Init(limit))
    else
      var before := Run(limit, calls[..|calls| - 1]);
      var c := calls[|calls| - 1];
      if before.Some? && Enabled(before.value, c) then Some(Apply(before.value, c)) else None
  }

  /** The largest limit the gate was ever given. */
  function HighestLimit(limit: int, calls: seq<Call>): int {
    if calls == [] then limit
    else
      var before := HighestLimit(limit, calls[..|calls| - 1]);
      var c := calls[|calls| - 1];
      if c.SetLimit? && c.limit > before then c.limit else before
  }

  /** It is a limit the gate was given, and none it was given is above it. */
  lemma {:induction false} HighestLimitIs(limit: int, calls: seq<Call>)
    ensures HighestLimit(limit, calls) == limit || exists c :: c in calls && c == SetLimit(HighestLimit(limit, calls))
    ensures limit <= HighestLimit(limit, calls) && forall c | c in calls && c.SetLimit? :: c.limit <= HighestLimit(limit, calls)
  {
    if calls != [] {
      var before, last := calls[..|calls| - 1], calls[|calls| - 1];
      HighestLimitIs(limit, before);
      assert calls == before + [last];
      if c :| c in before && c == SetLimit(HighestLimit(limit, before)) {
        assert c in calls;
      }
      if last.SetLimit? && last.limit > HighestLimit(limit, before) {
        assert last in calls && last == SetLimit(HighestLimit(limit, calls));
      }
    }
  }

  ghost predicate Inv(g: Gate) {
    && g.active == |g.holders|
    && NoRepeats(g.waiting)
    && (forall t | t in g.waiting :: t !in g.notified && t !in g.holders)
    && g.notified !! g.holders
    && (g.waiting != [] ==> |g.notified| >= g.limit - g.active)
  }

  lemma NotifyOneKeeps(g: Gate)
    requires g.active == |g.holders| && NoRepeats(g.waiting) && g.notified !! g.holders
    requires forall t | t in g.waiting :: t !in g.notified && t !in g.holders
    requires g.waiting != [] ==> |g.notified| >= g.limit - g.active - 1
    ensures Inv(NotifyOne(g))
  {
    if g.waiting != [] {
      var h := NotifyOne(g);
      assert g.waiting == [g.waiting[0]] + h.waiting;
      forall t | t in h.waiting
        ensures t != g.waiting[0]
      {
        var i :| 0 <= i < |h.waiting| && h.waiting[i] == t;
        assert g.waiting[i + 1] == t;
      }
    }
  }

  lemma ApplyKeeps(g: Gate, c: Call)
    requires Inv(g) && Enabled(g, c)
    ensures Inv(Apply(g, c))
  {
    match c
    case SetLimit(limit) =>
    case Acquire(t) =>
    case Wake(t) =>
    case Release(t) =>
      NotifyOneKeeps(g.(active := g.active - 1, holders := g.holders - {t}));
  }

  /** Waiters are notified in the order they came, and whoever starts to wait goes
      behind all who do. */
  lemma WaitersKeepTheirPlaces(g: Gate, c: Call)
    requires Enabled(g, c)
    ensures exists n, more :: 0 <= n <= |g.waiting| && |more| <= 1 && Apply(g, c).waiting == g.waiting[n..] + more
  {
    var rest := Apply(g, c).waiting;
    if c.SetLimit? {
      assert rest == g.waiting[|g.waiting|..] + [];
    } else if c.Release? {
      var n := if g.waiting == [] then 0 else 1;
      assert rest == g.waiting[n..] + [];
    } else if g.active >= g.limit {
      assert rest == g.waiting[0..] + [c.task];
    } else {
      assert rest == g.waiting[0..] + [];
    }
  }

  /** No wakeup is ever lost, for any number of waiters: while a task waits
      un-notified, at least as many notified tasks are on their way as there are
      free slots.  So once every notified task has run, a task only waits while
      every slot is taken. */
  lemma {:induction false} NoLostWakeup(limit: int, calls: seq<Call>)
    requires Run(limit, calls).Some?
    ensures var g := Run(limit, calls).value;
            && Inv(g)
            && (g.waiting != [] ==> |g.notified| >= g.limit - g.active)
            && (g.notified == {} && g.waiting != [] ==> g.active >= g.limit)
  {
    if calls != [] {
      NoLostWakeup(limit, calls[..|calls| - 1]);
      ApplyKeeps(Run(limit, calls[..|calls| - 1]).value, calls[|calls| - 1]);
    }
  }

  /** The gate never holds more tasks than the largest limit it was ever given. */
  lemma {:induction false} NeverAboveHighestLimit(limit: int, calls: seq<Call>)
    requires Run(limit, calls).Some?
    ensures var g := Run(limit, calls).value;
            |g.holders| == g.active && (g.active == 0 || g.active <= HighestLimit(limit, calls)) && g.limit <= HighestLimit(limit, calls)
  {
    NoLostWakeup(limit, calls);
    if calls != [] {
      NeverAboveHighestLimit(limit, calls[..|calls| - 1]);
      NoLostWakeup(limit, calls[..|calls| - 1]);
    }
  }

  /** Once every notified task has resumed, the free slots are taken or nobody
      waits: resuming them, in whatever order, needs no further notification. */
  lemma {:induction false} WakesSettle(limit: int, calls: seq<Call>, order: seq<Task>)
    requires Run(limit, calls).Some?
    requires NoRepeats(order) && (set t | t in order) == Run(limit, calls).value.notified
    ensures var settled := calls + Wakes(order);
            && Run(limit, settled).Some?
            && var g := Run(limit, settled).value;
               g.notified == {} && (g.waiting == [] || g.active >= g.limit)
  {
    WakesRun(limit, calls, order);
    NoLostWakeup(limit, calls + Wakes(order));
    var g := Run(limit, calls + Wakes(order)).value;
    assert g.notified == {};
  }

  function Wakes(order: seq<Task>): seq<Call> {
    seq(|order|, i requires 0 <= i < |order| => Wake(order[i]))
  }

  lemma RunOne(limit: int, calls: seq<Call>, c: Call)
    requires Run(limit, calls).Some? && Enabled(Run(limit, calls).value, c)
    ensures Run(limit, calls + [c]) == Some(Apply(Run(limit, calls).value, c))
  {
    assert (calls + [c])[..|calls + [c]| - 1] == calls;
  }

  lemma {:induction false} WakesRun(limit: int, calls: seq<Call>, order: seq<Task>)
    requires Run(limit, calls).Some?
    requires NoRepeats(order) && forall t | t in order :: t in Run(limit, calls).value.notified
    ensures Run(limit, calls + Wakes(order)).Some?
    ensures Run(limit, calls + Wakes(order)).value.notified == Run(limit, calls).value.notified - (set t | t in order)
    decreases |order|
  {
    hide Run;
    if order == [] {
      assert calls + Wakes(order) == calls;
    } else {
      var shorter, last := order[..|order| - 1], order[|order| - 1];
      assert order == shorter + [last];
      WakesRun(limit, calls, shorter);
      assert calls + Wakes(order) == calls + Wakes(shorter) + [Wake(last)];
      assert last in order && last !in shorter;
      RunOne(limit, calls + Wakes(shorter), Wake(last));
    }
  }

  /** The gate as the object the scripts share. */
  class SharedGate {
    var limit: int
    var active: int
    var waiting: seq<Task>
    var notified: set<Task>
    ghost var holders: set<Task>

    ghost function View(): Gate
      reads this
    {
      Gate(limit, active, waiting, notified, holders)
    }

    constructor (limit: int)
      ensures View() == Init(limit)
    {
      this.limit := limit;
      active, waiting, notified, holders := 0, [], {}, {};
    }

    method SetLimit(limit: int)
      modifies this
      ensures View() == Apply(old(View()), Call.SetLimit(limit))
    {
      this.limit := limit;
      WakeAll();
    }

    method Acquire(t: Task) returns (taken: bool)
      requires Enabled(View(), Call.Acquire(t))
      modifies this
      ensures View() == Apply(old(View()), Call.Acquire(t))
      ensures taken <==> t in holders
    {
      taken := LookAgain(t);
    }

    method Wake(t: Task) returns (taken: bool)
      requires Inv(View()) && Enabled(View(), Call.Wake(t))
      modifies this
      ensures View() == Apply(old(View()), Call.Wake(t))
      ensures taken <==> t in holders
    {
      notified := notified - {t};
      taken := LookAgain(t);
    }

    method Release(ghost t: Task)
      requires Enabled(View(), Call.Release(t))
      modifies this
      ensures View() == Apply(old(View()), Call.Release(t))
    {
      active := active - 1;
      holders := holders - {t};
      if waiting != [] {
        waiting, notified := waiting[1..], notified + {waiting[0]};
      }
    }

    method LookAgain(t: Task) returns (taken: bool)
      requires t !in holders
      modifies this
      ensures View() == TakeOrPark(old(View()), t)
      ensures taken <==> t in holders
    {
      taken := active < limit;
      if taken {
        active := active + 1;
        holders := holders + {t};
      } else {
        waiting := waiting + [t];
      }
    }

    method WakeAll()
      modifies this
      ensures View() == NotifyAll(old(View()))
    {
      while waiting != []
        invariant limit == old(limit) && active == old(active) && holders == old(holders)
        invariant notified + (set t | t in waiting) == old(notified) + (set t | t in old(waiting))
      {
        ghost var first, rest := waiting[0], waiting[1..];
        assert waiting == [first] + rest;
        waiting, notified := waiting[1..], notified + {waiting[0]};
      }
    }
  }
}

module GateSteps {
  import opened Common
  import opened GateModel

  /** The statements of set_limit, acquire (also as resumed) and release. */
  datatype At = Enter | Store | Test | Wait | Enlist | Drop | Notify | Leave

  /** The tasks' shared state: the gate, the condition's lock and the calls
      suspended on it, and the call that is running, if any.  `finished` only
      records which calls have completed, in order. */
  datatype Micro = Micro(
    gate: Gate, locked: bool, blocked: seq<Call>,
    running: Option<Call>, at: At, finished: seq<Call>)

  datatype Event = Begin(call: Call) | Step

  function Start(limit: int): Micro {
    Micro(Init(limit), false, [], None, Enter, [])
  }

  /** Tasks only change at a suspension, so a new call begins (and a notified
      one resumes) only when none is running. */
  predicate Possible(m: Micro, e: Event) {
    match e
    case Begin(c) => m.running.None? && Enabled(m.gate, c)
    case Step => m.running.Some?
  }

  function TaskOf(c: Call): Task {
    if c.SetLimit? then 0 else c.task
  }

  function Done(m: Micro): Micro
    requires m.running.Some?
  {
    m.(running := None, at := Enter, locked := false, finished := m.finished + [m.running.value])
  }

  /** One statement of the running call. */
  function Next(m: Micro, e: Event): Micro
    requires Possible(m, e)
  {
    match e
    case Begin(c) => m.(running := Some(c), at := Enter)
    case Step =>
      var c := m.running.value;
      match m.at
      case Enter =>
        // The lock is taken at once when it is free; otherwise the task suspends.
        if m.locked || m.blocked != [] then
          m.(running := None, blocked := m.blocked + [c])
        else
          m.(locked := true,
             gate := if c.Wake? then m.gate.(notified := m.gate.notified - {c.task}) else m.gate,
             at := match c case SetLimit(_) => Store case Release(_) => Drop case _ => Test)
      case Store => m.(gate := m.gate.(limit := if c.SetLimit? then c.limit else m.gate.limit), at := Notify)
      case Test => m.(at := if m.gate.active >= m.gate.limit then Wait else Enlist)
      case Wait =>
        // Waiting gives the lock back and suspends.
        Done(m.(gate := Park(m.gate, TaskOf(c))))
      case Enlist => m.(gate := Take(m.gate, TaskOf(c)), at := Leave)
      case Drop =>
        m.(gate := m.gate.(active := m.gate.active - 1, holders := m.gate.holders - {TaskOf(c)}),
           at := Notify)
      case Notify => m.(gate := if c.SetLimit? then NotifyAll(m.gate) else NotifyOne(m.gate), at := Leave)
      case Leave => Done(m)
  }

  function RunSteps(limit: int, events: seq<Event>): Option<Micro> {
    if events == [] then Some(Start(limit))
    else
      var before := RunSteps(limit, events[..|events| - 1]);
      var e := events[|events| - 1];
      if before.Some? && Possible(before.value, e) then Some(Next(before.value, e)) else None
  }

  /** How far the running call has come, from the gate as it found it. */
  ghost predicate Partway(was: Gate, g: Gate, c: Call, at: At, locked: bool) {
    && Enabled(was, c)
    && (locked <==> at != Enter)
    && match at
       case Enter => g == was
       case Store => c.SetLimit? && g == was
       case Drop => c.Release? && g == was
       case Test => (c.Acquire? && g == was) || (c.Wake? && g == was.(notified := was.notified - {c.task}))
       case Wait => (c.Acquire? || c.Wake?) && g.active >= g.limit && Park(g, c.task) == Apply(was, c)
       case Enlist => (c.Acquire? || c.Wake?) && g.active < g.limit && Take(g, c.task) == Apply(was, c)
       case Notify =>
         (c.SetLimit? && g == was.(limit := c.limit)) ||
         (c.Release? && g == was.(active := was.active - 1, holders := was.holders - {c.task}))
       case Leave => g == Apply(was, c)
  }

  ghost predicate StepInv(limit: int, m: Micro) {
    && m.blocked == []
    && Run(limit, m.finished).Some?
    && var was := Run(limit, m.finished).value;
       match m.running
       case None => !m.locked && m.gate == was
       case Some(c) => Partway(was, m.gate, c, m.at, m.locked)
  }

  lemma StatementKeeps(was: Gate, m: Micro)
    requires m.blocked == [] && m.running.Some?
    requires Partway(was, m.gate, m.running.value, m.at, m.locked)
    ensures var n, c := Next(m, Step), m.running.value;
            && n.blocked == []
            && if m.at.Wait? || m.at.Leave? then
                 n.running.None? && !n.locked && n.gate == Apply(was, c) && n.finished == m.finished + [c]
               else
                 n.running == Some(c) && n.finished == m.finished && Partway(was, n.gate, c, n.at, n.locked)
  {
    match m.at
    case Enter =>
    case Test =>
    case Drop =>
    case Notify =>
    case Store =>
    case _ =>
  }

  lemma NextKeeps(limit: int, m: Micro, e: Event)
    requires StepInv(limit, m) && Possible(m, e)
    ensures StepInv(limit, Next(m, e))
  {
    if e.Step? {
      var c := m.running.value;
      StatementKeeps(Run(limit, m.finished).value, m);
      RunOne(limit, m.finished, c);
    }
  }

  /** No task ever suspends while it holds the lock, so no task ever finds the
      lock taken; whenever no task is running, the gate is exactly what the
      finished calls, each taken as one step, make it. */
  lemma {:induction false} CallsAreAtomic(limit: int, events: seq<Event>)
    requires RunSteps(limit, events).Some?
    ensures var m := RunSteps(limit, events).value;
            && StepInv(limit, m)
            && m.blocked == []
            && (m.running.None? ==> !m.locked && Run(limit, m.finished) == Some(m.gate))
  {
    if events != [] {
      CallsAreAtomic(limit, events[..|events| - 1]);
      NextKeeps(limit, RunSteps(limit, events[..|events| - 1]).value, events[|events| - 1]);
    }
  }

  /** The wakeup guarantee, of the statement-by-statement runs. */
  lemma NoLostWakeupInSteps(limit: int, events: seq<Event>)
    requires RunSteps(limit, events).Some? && RunSteps(limit, events).value.running.None?
    ensures var m := RunSteps(limit, events).value;
            && (m.gate.waiting != [] ==> |m.gate.notified| >= m.gate.limit - m.gate.active)
            && (m.gate.active == 0 || m.gate.active <= HighestLimit(limit, m.finished))
  {
    CallsAreAtomic(limit, events);
    NoLostWakeup(limit, RunSteps(limit, events).value.finished);
    NeverAboveHighestLimit(limit, RunSteps(limit, events).value.finished);
  }
}
