/**
 The refresh dispatcher (scripts/refresh_corpus.py) and the persist queue's admission
 (app/services/db/persist_queue.py): the high-water mark is read before a slot is
 taken, chunks hand over their books before they free their slot, the queue refuses a
 batch that would pass its capacity, and the ramp moves the gate's limit meanwhile.
 */
module Backlog {
  import opened Common
  import opened GateModel
  import opened RampModel
  import RefreshChunks

  const CHUNK_SIZE: nat := RefreshChunks.CHUNK_SIZE

  /** The queue's shed limit, BACKLOG_HIGH_WATER and the ramp's constants; the script
      checks neither that the ramp starts below its ceiling nor that its step is
      positive, nor anything of a mark that was set but that it admits one chunk. */
  datatype Config = Config(capacity: nat, mark: int, ramp: Policy)

  /** The mark is the one the script works out for itself. */
  predicate Derived(cfg: Config) {
    cfg.mark == cfg.capacity - (cfg.ramp.ceiling + 1) * 50
  }

  /** _verify_backlog_headroom */
  predicate HasHeadroom(cfg: Config) {
    cfg.mark >= CHUNK_SIZE
  }

  /** left[i]: how many books the i-th chunk in flight may still hand over.
      cleared: the dispatcher has passed the water mark and not yet its slot.
      shed: some batch was refused. */
  datatype State = State(queued: nat, left: seq<nat>, limit: int, cleared: bool, shed: bool)

  datatype Event =
    | CheckBacklog
    | TakeSlot
    | QueueBatch(chunk: nat, books: nat)
    | FreeSlot(chunk: nat, move: Move)
    | Persist(books: nat)

  function Init(cfg: Config): State {
    State(0, [], cfg.ramp.start, false, false)
  }

  predicate Enabled(cfg: Config, s: State, e: Event) {
    match e
    case CheckBacklog => !s.cleared && s.queued <= cfg.mark
    case TakeSlot => s.cleared && |s.left| < s.limit
    case QueueBatch(c, n) => c < |s.left| && n <= s.left[c]
    case FreeSlot(c, _) => c < |s.left|
    case Persist(n) => n <= s.queued
  }

  /** The limit once the chunk just recorded has moved the ramp, or not. */
  function Moved(p: Policy, limit: int, move: Move): int {
    match move
    case Hold => limit
    case Climb => StepUp(p, Ramp(limit, false, map[])).limit
    case Descend => StepDown(p, Ramp(limit, false, map[])).limit
  }

  function Next(cfg: Config, s: State, e: Event): State
    requires Enabled(cfg, s, e)
  {
    match e
    case CheckBacklog => s.(cleared := true)
    case TakeSlot => s.(cleared := false, left := s.left + [CHUNK_SIZE])
    case QueueBatch(c, n) =>
      // Admitted or shed as a whole.
      var rest := s.(left := s.left[c := s.left[c] - n]);
      if s.queued + n > cfg.capacity then rest.(shed := true) else rest.(queued := s.queued + n)
    case FreeSlot(c, move) => s.(left := s.left[..c] + s.left[c + 1..], limit := Moved(cfg.ramp, s.limit, move))
    case Persist(n) => s.(queued := s.queued - n)
  }

  function Sum(left: seq<nat>): nat {
    if left == [] then 0 else left[0] + Sum(left[1..])
  }

  lemma {:induction false} SumAppend(a: seq<nat>, b: seq<nat>)
    ensures Sum(a + b) == Sum(a) + Sum(b)
  {
    if a == [] {
      assert a + b == b;
    } else {
      assert (a + b)[1..] == a[1..] + b;
      SumAppend(a[1..], b);
    }
  }

  lemma SumSplit(left: seq<nat>, c: nat)
    requires c < |left|
    ensures Sum(left) == Sum(left[..c]) + left[c] + Sum(left[c + 1..])
  {
    assert left == left[..c] + ([left[c]] + left[c + 1..]);
    SumAppend(left[..c], [left[c]] + left[c + 1..]);
    assert ([left[c]] + left[c + 1..])[1..] == left[c + 1..];
  }

  lemma {:induction false} SumBound(left: seq<nat>)
    requires forall x | x in left :: x <= CHUNK_SIZE
    ensures Sum(left) <= CHUNK_SIZE * |left|
  {
    if left != [] {
      assert left[0] in left;
      assert forall x | x in left[1..] :: x in left;
      SumBound(left[1..]);
    }
  }

  // ---------------------------------------------------------------- what every step keeps

  /** The largest limit the ramp can reach; one started at zero never has a chunk to
      climb on. */
  function TopLimit(p: Policy): nat {
    if p.step > 0 && 0 < p.start < p.ceiling then p.ceiling else p.start
  }

  lemma MovedStays(p: Policy, limit: int, move: Move)
    requires limit <= TopLimit(p) && TopLimit(p) > 0
    ensures Moved(p, limit, move) <= TopLimit(p)
  {
  }

  /** The queue, what every chunk in flight may still hand over, and the one chunk
      past the water mark. */
  function Committed(s: State): nat {
    s.queued + Sum(s.left) + (if s.cleared then CHUNK_SIZE else 0)
  }

  /** What is committed never passes the water mark by more than one chunk for each
      slot the ramp ever opens, and one over. */
  ghost predicate Inv(cfg: Config, s: State) {
    && (forall x | x in s.left :: x <= CHUNK_SIZE)
    && s.limit <= TopLimit(cfg.ramp) && |s.left| <= TopLimit(cfg.ramp)
    && s.queued <= cfg.capacity
    && (TopLimit(cfg.ramp) > 0 ==> Committed(s) <= Reach(cfg))
    && (s.shed ==> TopLimit(cfg.ramp) > 0 && Reach(cfg) > cfg.capacity)
  }

  /** The mark, a chunk for each slot the ramp ever opens, and one over. */
  function Reach(cfg: Config): int {
    cfg.mark + CHUNK_SIZE * (TopLimit(cfg.ramp) + 1)
  }

  lemma QueueKeeps(cfg: Config, s: State, c: nat, n: nat)
    requires Inv(cfg, s) && Enabled(cfg, s, QueueBatch(c, n))
    ensures Inv(cfg, Next(cfg, s, QueueBatch(c, n)))
  {
    var t := Next(cfg, s, QueueBatch(c, n));
    SumSplit(s.left, c);
    SumSplit(t.left, c);
    assert t.left[..c] == s.left[..c] && t.left[c + 1..] == s.left[c + 1..];
    forall x | x in t.left ensures x <= CHUNK_SIZE {
      var i :| 0 <= i < |t.left| && t.left[i] == x;
      assert s.left[i] in s.left;
    }
  }

  lemma NextKeeps(cfg: Config, s: State, e: Event)
    requires Inv(cfg, s) && Enabled(cfg, s, e)
    ensures Inv(cfg, Next(cfg, s, e))
  {
    match e
    case CheckBacklog => SumBound(s.left);
    case TakeSlot =>
      SumAppend(s.left, [CHUNK_SIZE]);
      assert Sum([CHUNK_SIZE]) == CHUNK_SIZE;
    case QueueBatch(c, n) => QueueKeeps(cfg, s, c, n);
    case FreeSlot(c, move) =>
      var t := Next(cfg, s, e);
      MovedStays(cfg.ramp, s.limit, move);
      SumSplit(s.left, c);
      SumAppend(s.left[..c], s.left[c + 1..]);
      forall x | x in t.left ensures x in s.left {}
    case _ =>
  }

  ghost predicate Reaches(cfg: Config, s: State) {
    exists events :: Run(cfg, events) == Some(s)
  }

  /** The state these events lead to, or None when one could not happen. */
  ghost function Run(cfg: Config, events: seq<Event>): Option<State> {
    if events == [] then Some(Init(cfg))
    else
      var before := Run(cfg, events[..|events| - 1]);
      var e := events[|events| - 1];
      if before.Some? && Enabled(cfg, before.value, e) then Some(Next(cfg, before.value, e)) else None
  }

  lemma {:induction false} RunKeeps(cfg: Config, events: seq<Event>)
    requires HasHeadroom(cfg) && Run(cfg, events).Some?
    ensures Inv(cfg, Run(cfg, events).value)
  {
    if events != [] {
      RunKeeps(cfg, events[..|events| - 1]);
      NextKeeps(cfg, Run(cfg, events[..|events| - 1]).value, events[|events| - 1]);
    }
  }

  /** In every reachable state, whatever the interleaving and the ramp. */
  lemma CommittedBooksFit(cfg: Config, s: State)
    requires HasHeadroom(cfg) && Reaches(cfg, s)
    ensures s.queued <= cfg.capacity
    ensures |s.left| <= TopLimit(cfg.ramp)
    ensures TopLimit(cfg.ramp) > 0 ==> Committed(s) <= Reach(cfg)
    ensures s.shed ==> TopLimit(cfg.ramp) > 0 && Reach(cfg) > cfg.capacity
  {
    var events :| Run(cfg, events) == Some(s);
    RunKeeps(cfg, events);
  }

  // ---------------------------------------------------------------- how full it gets

  lemma Step(cfg: Config, s: State, e: Event)
    requires Reaches(cfg, s) && Enabled(cfg, s, e)
    ensures Reaches(cfg, Next(cfg, s, e))
  {
    var events :| Run(cfg, events) == Some(s);
    assert (events + [e])[..|events + [e]| - 1] == events;
    assert Run(cfg, events + [e]) == Some(Next(cfg, s, e));
  }

  /** The configurations that can run at all. */
  predicate Runs(cfg: Config) {
    HasHeadroom(cfg) && cfg.ramp.start >= 1
  }

  function Idle(limit: int, queued: nat): State {
    State(queued, [], limit, false, false)
  }

  /** One chunk comes and goes: n of its books queued, the ramp moved or not. */
  lemma OneChunk(cfg: Config, limit: int, queued: nat, n: nat, move: Move)
    requires Reaches(cfg, Idle(limit, queued)) && limit >= 1 && queued <= cfg.mark && n <= CHUNK_SIZE && queued + n <= cfg.capacity
    ensures Reaches(cfg, Idle(Moved(cfg.ramp, limit, move), queued + n))
  {
    hide Reaches, Run, Moved;
    var s := Idle(limit, queued);
    Step(cfg, s, CheckBacklog);
    Step(cfg, s.(cleared := true), TakeSlot);
    var t := s.(left := [] + [CHUNK_SIZE]);
    Step(cfg, t, QueueBatch(0, n));
    var u := t.(queued := queued + n, left := t.left[0 := CHUNK_SIZE - n]);
    Step(cfg, u, FreeSlot(0, move));
    assert u.left[..0] + u.left[1..] == [];
  }

  /** The ramp climbs to its top. */
  lemma {:induction false} ReachTop(cfg: Config, limit: int)
    requires Runs(cfg) && Reaches(cfg, Idle(limit, 0)) && cfg.ramp.start <= limit <= TopLimit(cfg.ramp)
    ensures Reaches(cfg, Idle(TopLimit(cfg.ramp), 0))
    decreases TopLimit(cfg.ramp) - limit
  {
    hide Reaches, Run;
    if limit < TopLimit(cfg.ramp) {
      OneChunk(cfg, limit, 0, 0, Climb);
      ReachTop(cfg, Moved(cfg.ramp, limit, Climb));
    }
  }

  /** What the queue can hold when one more chunk is let past the mark. */
  function Level(cfg: Config): nat
    requires HasHeadroom(cfg)
  {
    Min(cfg.mark, cfg.capacity)
  }

  /** The queue can stand at any level up to the mark with nothing in flight. */
  lemma {:induction false} ReachQueued(cfg: Config, n: nat)
    requires Runs(cfg) && n <= Level(cfg)
    ensures Reaches(cfg, Idle(TopLimit(cfg.ramp), n))
  {
    if n == 0 {
      assert Run(cfg, []) == Some(Init(cfg));
      ReachTop(cfg, cfg.ramp.start);
    } else {
      ReachQueued(cfg, n - 1);
      OneChunk(cfg, TopLimit(cfg.ramp), n - 1, 1, Hold);
    }
  }

  /** k chunks in flight, the first j of which have handed over all their books. */
  function Slots(k: nat, j: nat): seq<nat> {
    seq(k, i => if i < j then 0 else CHUNK_SIZE)
  }

  /** The water mark met, k slots taken, none of them heard from. */
  lemma {:induction false} ReachSlots(cfg: Config, k: nat)
    requires Runs(cfg) && k <= TopLimit(cfg.ramp)
    ensures Reaches(cfg, State(Level(cfg), Slots(k, 0), TopLimit(cfg.ramp), false, false))
  {
    hide Reaches, Run;
    if k == 0 {
      ReachQueued(cfg, Level(cfg));
      assert Slots(0, 0) == [];
    } else {
      ReachSlots(cfg, k - 1);
      var s := State(Level(cfg), Slots(k - 1, 0), TopLimit(cfg.ramp), false, false);
      Step(cfg, s, CheckBacklog);
      Step(cfg, s.(cleared := true), TakeSlot);
      assert Slots(k - 1, 0) + [CHUNK_SIZE] == Slots(k, 0);
    }
  }

  /** The next chunk is cleared, then the first j of the full slots hand over all
      their books, as long as they fit. */
  lemma {:induction false} ReachFlood(cfg: Config, j: nat)
    requires Runs(cfg) && j <= TopLimit(cfg.ramp) && Level(cfg) + CHUNK_SIZE * j <= cfg.capacity
    ensures Reaches(cfg, State(Level(cfg) + CHUNK_SIZE * j, Slots(TopLimit(cfg.ramp), j), TopLimit(cfg.ramp), true, false))
  {
    hide Reaches, Run;
    var top := TopLimit(cfg.ramp);
    if j == 0 {
      ReachSlots(cfg, top);
      Step(cfg, State(Level(cfg), Slots(top, 0), top, false, false), CheckBacklog);
    } else {
      ReachFlood(cfg, j - 1);
      Step(cfg, State(Level(cfg) + CHUNK_SIZE * (j - 1), Slots(top, j - 1), top, true, false), QueueBatch(j - 1, CHUNK_SIZE));
      assert Slots(top, j - 1)[j - 1 := 0] == Slots(top, j);
    }
  }

  /** After the flood one slot is freed, and the cleared chunk takes it. */
  lemma ReachOneMore(cfg: Config, j: nat)
    requires Runs(cfg) && 1 <= j <= TopLimit(cfg.ramp) && Level(cfg) + CHUNK_SIZE * j <= cfg.capacity
    ensures Reaches(cfg, State(Level(cfg) + CHUNK_SIZE * j, Slots(TopLimit(cfg.ramp), j - 1), TopLimit(cfg.ramp), false, false))
  {
    hide Reaches, Run;
    ReachFlood(cfg, j);
    var top := TopLimit(cfg.ramp);
    var s := State(Level(cfg) + CHUNK_SIZE * j, Slots(top, j), top, true, false);
    Step(cfg, s, FreeSlot(0, Hold));
    var t := s.(left := s.left[..0] + s.left[1..]);
    Step(cfg, t, TakeSlot);
    assert t.left + [CHUNK_SIZE] == Slots(top, j - 1);
  }

  /** The chunks of the flood that fit. */
  function Fitting(cfg: Config): nat
    requires HasHeadroom(cfg)
  {
    Min(TopLimit(cfg.ramp), (cfg.capacity - Level(cfg)) / CHUNK_SIZE)
  }

  // ---------------------------------------------------------------- exactly when a batch is shed

  /** When the mark leaves less than a chunk for every slot and one over, a dispatcher
      that never runs out of chunks has a batch refused. */
  lemma SomethingIsShed(cfg: Config)
    requires Runs(cfg) && Reach(cfg) > cfg.capacity
    ensures exists s :: Reaches(cfg, s) && s.shed
  {
    var top, j := TopLimit(cfg.ramp), Fitting(cfg);
    if j < top {
      ReachFlood(cfg, j);
      var s := State(Level(cfg) + CHUNK_SIZE * j, Slots(top, j), top, true, false);
      Step(cfg, s, QueueBatch(j, CHUNK_SIZE));
      assert Next(cfg, s, QueueBatch(j, CHUNK_SIZE)).shed;
    } else {
      ReachOneMore(cfg, top);
      var s := State(Level(cfg) + CHUNK_SIZE * top, Slots(top, top - 1), top, false, false);
      Step(cfg, s, QueueBatch(top - 1, CHUNK_SIZE));
      assert Next(cfg, s, QueueBatch(top - 1, CHUNK_SIZE)).shed;
    }
  }

  /** Whatever the water mark, such a dispatcher never has a batch shed if and only if
      the mark leaves a chunk for every slot the ramp ever opens and one over; the
      derived mark does if and only if the ramp does not start above its ceiling,
      which nothing in the script checks. */
  lemma NeverShedsIff(cfg: Config)
    requires HasHeadroom(cfg)
    ensures (forall s | Reaches(cfg, s) :: !s.shed) <==> cfg.ramp.start == 0 || Reach(cfg) <= cfg.capacity
    ensures Derived(cfg) ==> ((forall s | Reaches(cfg, s) :: !s.shed) <==> cfg.ramp.start <= cfg.ramp.ceiling)
  {
    if cfg.ramp.start == 0 || Reach(cfg) <= cfg.capacity {
      forall s | Reaches(cfg, s) ensures !s.shed {
        CommittedBooksFit(cfg, s);
      }
    } else {
      SomethingIsShed(cfg);
    }
  }

  // ---------------------------------------------------------------- fifty books a slot

  /** The queue, and a whole chunk for every active slot. */
  predicate FitsFiftyASlot(cfg: Config, s: State) {
    s.queued + CHUNK_SIZE * |s.left| <= cfg.capacity
  }

  /** Room for two chunks a slot above the mark, and one over. */
  predicate RoomForTwoASlot(cfg: Config) {
    cfg.mark + CHUNK_SIZE * (2 * TopLimit(cfg.ramp) + 1) <= cfg.capacity
  }

  /** A chunk that has handed its books over is counted twice until it frees its
      slot; without room for both, that passes the capacity. */
  lemma BreaksFiftyASlot(cfg: Config)
    requires Runs(cfg) && !RoomForTwoASlot(cfg)
    ensures exists s :: Reaches(cfg, s) && !FitsFiftyASlot(cfg, s)
  {
    var top, j := TopLimit(cfg.ramp), Fitting(cfg);
    if Reach(cfg) <= cfg.capacity {
      ReachOneMore(cfg, top);
      var s := State(Level(cfg) + CHUNK_SIZE * top, Slots(top, top - 1), top, false, false);
      Step(cfg, s, QueueBatch(top - 1, CHUNK_SIZE));
      var t := s.(queued := s.queued + CHUNK_SIZE, left := s.left[top - 1 := 0]);
      assert Reaches(cfg, t) && !FitsFiftyASlot(cfg, t);
    } else {
      ReachFlood(cfg, j);
      var s := State(Level(cfg) + CHUNK_SIZE * j, Slots(top, j), top, true, false);
      assert Reaches(cfg, s) && !FitsFiftyASlot(cfg, s);
    }
  }

  /** Every reachable state keeps the queue plus fifty books for every active slot
      within the capacity if and only if there is room for two chunks a slot above the
      mark, and one over. */
  lemma FiftyASlotIff(cfg: Config)
    requires HasHeadroom(cfg)
    ensures (forall s | Reaches(cfg, s) :: FitsFiftyASlot(cfg, s)) <==> cfg.ramp.start == 0 || RoomForTwoASlot(cfg)
    ensures Derived(cfg) ==> (RoomForTwoASlot(cfg) <==> 2 * TopLimit(cfg.ramp) <= cfg.ramp.ceiling)
  {
    if cfg.ramp.start == 0 || RoomForTwoASlot(cfg) {
      forall s | Reaches(cfg, s) ensures FitsFiftyASlot(cfg, s) {
        CommittedBooksFit(cfg, s);
      }
    } else {
      BreaksFiftyASlot(cfg);
    }
  }
}
