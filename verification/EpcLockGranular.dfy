/**
 Threads interleaving at the grain of the pool's lock: every section that holds
 `pushLock` is one step, and so is every reading of the task counter outside it.
 A thread that has ended a task and a thread that looks into the collision queue
 are different steps, so other threads may get between them.
 A task counts as running from when it is handed to the executor until it has ended, as it does for the pool's own
 counter; `EpcExecutor` tells those apart that have a thread.
 */
module EpcLockGranular {
  import opened Wrappers
  import opened Epc

  /** `peeking` threads are about to read the counter, `scanning` threads found room and
      want the lock, `finishing` are the tasks whose thread is about to look into the
      collision queue. */
  datatype Machine = Machine(pool: State, peeking: nat, scanning: nat, finishing: set<Task>)

  datatype Step =
    | Push(co: Option<Collision>)
    | PeekReturn
    | PeekPass
    | ScanMain
    | Finish(task: Task)
    | CheckCollisions(task: Task)
    | RepairDeadlock(order: seq<Collision>)

  function Start(maxPoolSize: nat): Machine {
    Machine(Init(maxPoolSize), 0, 0, {})
  }

  predicate Enabled(m: Machine, step: Step) {
    match step
    case Push(_) => true
    case PeekReturn => m.peeking > 0 && m.pool.runningTaskNum >= m.pool.maxPoolSize
    case PeekPass => m.peeking > 0 && m.pool.runningTaskNum < m.pool.maxPoolSize
    case ScanMain => m.scanning > 0
    case Finish(t) => t in m.pool.executing
    case CheckCollisions(t) => t in m.finishing && t.co.Some? && QueuesNonEmpty(m.pool.waiting)
    case RepairDeadlock(_) => true
  }

  function Apply(m: Machine, step: Step): Machine
    requires Enabled(m, step)
  {
    match step
    case Push(co) => m.(pool := Offer(m.pool, co), peeking := m.peeking + 1)
    case PeekReturn => m.(peeking := m.peeking - 1)
    case PeekPass => m.(peeking := m.peeking - 1, scanning := m.scanning + 1)
    case ScanMain => m.(pool := LockedScan(m.pool), scanning := m.scanning - 1)
    case Finish(t) =>
      if t.co.Some? then m.(pool := EndTask(m.pool, t), finishing := m.finishing + {t})
      else m.(pool := EndTask(m.pool, t), peeking := m.peeking + 1)
    case CheckCollisions(t) =>
      if t.co.value in m.pool.waiting then
        m.(pool := StartWaiting(m.pool, t.co.value), finishing := m.finishing - {t})
      else
        m.(peeking := m.peeking + 1, finishing := m.finishing - {t})
    case RepairDeadlock(order) => m.(pool := CheckDeadlock(m.pool, order))
  }

  /** `steps` can be taken one after the other from the empty pool. */
  predicate IsRun(maxPoolSize: nat, steps: seq<Step>)
    decreases |steps|, 0
  {
    steps == [] ||
    (IsRun(maxPoolSize, steps[..|steps| - 1]) && Enabled(After(maxPoolSize, steps[..|steps| - 1]), steps[|steps| - 1]))
  }

  function After(maxPoolSize: nat, steps: seq<Step>): Machine
    requires IsRun(maxPoolSize, steps)
    decreases |steps|, 1
  {
    if steps == [] then Start(maxPoolSize)
    else Apply(After(maxPoolSize, steps[..|steps| - 1]), steps[|steps| - 1])
  }

  lemma ApplyConserved(m: Machine, step: Step)
    requires Conserved(m.pool) && Enabled(m, step)
    ensures Conserved(Apply(m, step).pool)
  {
    match step
    case Push(co) => OfferConserved(m.pool, co);
    case PeekReturn =>
    case PeekPass =>
    case ScanMain => LockedScanConserved(m.pool);
    case Finish(t) => EndTaskConserved(m.pool, t);
    case CheckCollisions(t) =>
      if t.co.value in m.pool.waiting {
        StartWaitingConserved(m.pool, t.co.value);
      }
    case RepairDeadlock(order) => NoDeadlock(m.pool);
  }

  lemma {:induction false} RunConserved(maxPoolSize: nat, steps: seq<Step>)
    requires IsRun(maxPoolSize, steps)
    ensures Conserved(After(maxPoolSize, steps).pool)
    decreases |steps|
  {
    if steps == [] {
      InitConserved(maxPoolSize);
    } else {
      var n := |steps| - 1;
      RunConserved(maxPoolSize, steps[..n]);
      ApplyConserved(After(maxPoolSize, steps[..n]), steps[n]);
    }
  }

  /** Whatever the interleaving: the counter counts the running tasks, every running collision is
      held by a running task, the deadlock repair never fires, at most one top task runs, and every
      pushed task is in exactly one place. */
  lemma EveryInterleaving(maxPoolSize: nat, steps: seq<Step>)
    requires IsRun(maxPoolSize, steps)
    ensures var s := After(maxPoolSize, steps).pool;
      && s.runningTaskNum == |s.executing|
      && (forall c :: c in s.runningColls ==> exists t :: t in s.executing && t.co == Some(c))
      && !DeadlockSuspected(s)
      && (forall t, u :: t in s.executing && u in s.executing && t.IsTop() && u.IsTop() ==> t == u)
      && (forall t :: Places(s, t) == multiset(s.pushed)[t] <= 1)
  {
    RunConserved(maxPoolSize, steps);
    var s := After(maxPoolSize, steps).pool;
    NoDeadlock(s);
    forall c | c in s.runningColls ensures exists t :: t in s.executing && t.co == Some(c) {
      assert s.runningColls[c] in s.executing;
    }
    forall t ensures Places(s, t) == multiset(s.pushed)[t] <= 1 {
      PushedOnce(s.pushed, t);
      assert Places(s, t) + multiset{}[t] == multiset(s.pushed)[t];
    }
  }

  // ---------- what the grain of the lock does not give ----------

  /** No two tasks with the executor share an ordinary collision. */
  ghost predicate KeyExclusive(s: State) {
    forall t, u :: t in s.executing && u in s.executing && t.IsKeyed() && t.co == u.co ==> t == u
  }

  /** With a top task nothing else is with the executor. */
  ghost predicate TopAlone(s: State) {
    forall t :: t in s.executing && t.IsTop() ==> s.executing == {t}
  }

  predicate WithinPool(s: State) {
    s.runningTaskNum <= s.maxPoolSize
  }

  /** The look into the collision queue comes after another thread started a task on the freed collision. */
  predicate CollisionRetaken(m: Machine, step: Step) {
    step.CheckCollisions? && step.task.co.Some? && step.task.co.value in m.pool.waiting
      && step.task.co.value in m.pool.runningColls
  }

  /** ... after another thread started the top task. */
  predicate TopStarted(m: Machine, step: Step) {
    step.CheckCollisions? && step.task.co.Some? && step.task.co.value in m.pool.waiting && m.pool.topTask.Some?
      && m.pool.topTask.value in m.pool.executing
  }

  /** ... after another thread filled the freed place in the pool. */
  predicate PlaceRetaken(m: Machine, step: Step) {
    step.CheckCollisions? && step.task.co.Some? && step.task.co.value in m.pool.waiting
      && m.pool.runningTaskNum >= m.pool.maxPoolSize
  }

  /** The running map knows the one task running for each collision. */
  ghost predicate HoldersKnown(s: State) {
    forall t :: t in s.executing && t.IsKeyed() ==> t.co.value in s.runningColls && s.runningColls[t.co.value] == t
  }

  lemma PollOneKeeps(s: State)
    requires Conserved(s) && CanPoll(s)
    ensures HoldersKnown(s) ==> HoldersKnown(PollOne(s))
    ensures TopAlone(s) ==> TopAlone(PollOne(s))
    ensures WithinPool(s) ==> WithinPool(PollOne(s))
  {
    if s.runningTaskNum == 0 {
      assert s.executing == {};
    }
  }

  lemma {:induction false} ScanKeeps(s: State)
    requires Conserved(s)
    ensures HoldersKnown(s) ==> HoldersKnown(Scan(s))
    ensures TopAlone(s) ==> TopAlone(Scan(s))
    ensures WithinPool(s) ==> WithinPool(Scan(s))
    decreases |s.mainQueue|
  {
    if CanPoll(s) {
      PollOneKeeps(s);
      PollOneConserved(s);
      ScanKeeps(PollOne(s));
    }
  }

  lemma LockedScanKeeps(s: State)
    requires Conserved(s) && s.maxPoolSize > 0
    ensures HoldersKnown(s) ==> HoldersKnown(LockedScan(s))
    ensures TopAlone(s) ==> TopAlone(LockedScan(s))
    ensures WithinPool(s) ==> WithinPool(LockedScan(s))
  {
    StartPendingTopConserved(s);
    if s.runningTaskNum == 0 {
      assert s.executing == {};
    }
    ScanKeeps(StartPendingTop(s));
  }

  lemma StartWaitingKeeps(s: State, c: Collision)
    requires Conserved(s) && c in s.waiting
    ensures var s' := StartWaiting(s, c);
      && (HoldersKnown(s) && c !in s.runningColls ==> HoldersKnown(s'))
      && (c in s.runningColls ==> !KeyExclusive(s'))
      && (TopAlone(s) && !(s.topTask.Some? && s.topTask.value in s.executing) ==> TopAlone(s'))
      && (s.topTask.Some? && s.topTask.value in s.executing ==> !TopAlone(s'))
  {
    var u := s.waiting[c][0];
    assert u in WaitingFor(s, c) && u.co == Some(c);
    HeldOnce(s, multiset{}, u);
    var s' := StartWaiting(s, c);
    assert s'.executing == s.executing + {u};
    if c in s.runningColls {
      var v := s.runningColls[c];
      assert v in s'.executing && u in s'.executing && u != v && v.IsKeyed() && v.co == u.co;
    }
    if s.topTask.Some? && s.topTask.value in s.executing {
      assert s.topTask.value in s'.executing && u in s'.executing && u != s.topTask.value;
    }
  }

  /** A step keeps each promise unless it is the late look, and the late look breaks it. */
  lemma StepKeepsIffNotLate(m: Machine, step: Step)
    requires Conserved(m.pool) && Enabled(m, step) && m.pool.maxPoolSize > 0
    ensures HoldersKnown(m.pool) && !CollisionRetaken(m, step) ==> HoldersKnown(Apply(m, step).pool)
    ensures CollisionRetaken(m, step) ==> !KeyExclusive(Apply(m, step).pool)
    ensures TopAlone(m.pool) && !TopStarted(m, step) ==> TopAlone(Apply(m, step).pool)
    ensures TopStarted(m, step) ==> !TopAlone(Apply(m, step).pool)
    ensures WithinPool(m.pool) && !PlaceRetaken(m, step) ==> WithinPool(Apply(m, step).pool)
    ensures PlaceRetaken(m, step) ==> !WithinPool(Apply(m, step).pool)
    ensures Apply(m, step).pool.maxPoolSize == m.pool.maxPoolSize
  {
    ScanKeepsSize(StartPendingTop(m.pool));
    match step
    case ScanMain => LockedScanKeeps(m.pool);
    case CheckCollisions(t) =>
      if t.co.value in m.pool.waiting {
        StartWaitingKeeps(m.pool, t.co.value);
      }
    case RepairDeadlock(order) => NoDeadlock(m.pool);
    case _ =>
  }

  lemma {:induction false} ScanKeepsSize(s: State)
    ensures Scan(s).maxPoolSize == s.maxPoolSize
    decreases |s.mainQueue|
  {
    if CanPoll(s) {
      ScanKeepsSize(PollOne(s));
    }
  }

  /** The state in which step `i` of the run is taken. */
  function Before(maxPoolSize: nat, steps: seq<Step>, i: nat): Machine
    requires IsRun(maxPoolSize, steps) && i <= |steps|
    decreases |steps|
  {
    if i == |steps| then After(maxPoolSize, steps) else Before(maxPoolSize, steps[..|steps| - 1], i)
  }

  lemma {:induction false} RunKeepsIffNeverLate(maxPoolSize: nat, steps: seq<Step>)
    requires IsRun(maxPoolSize, steps) && maxPoolSize > 0
    ensures (forall i :: 0 <= i < |steps| ==> !CollisionRetaken(Before(maxPoolSize, steps, i), steps[i]))
      ==> HoldersKnown(After(maxPoolSize, steps).pool)
    ensures (forall i :: 0 <= i < |steps| ==> !TopStarted(Before(maxPoolSize, steps, i), steps[i]))
      ==> TopAlone(After(maxPoolSize, steps).pool)
    ensures (forall i :: 0 <= i < |steps| ==> !PlaceRetaken(Before(maxPoolSize, steps, i), steps[i]))
      ==> WithinPool(After(maxPoolSize, steps).pool)
    ensures After(maxPoolSize, steps).pool.maxPoolSize == maxPoolSize
    decreases |steps|
  {
    hide CollisionRetaken, TopStarted, PlaceRetaken, Apply, Enabled;
    if steps != [] {
      var n := |steps| - 1;
      var front := steps[..n];
      RunKeepsIffNeverLate(maxPoolSize, front);
      RunConserved(maxPoolSize, front);
      StepKeepsIffNotLate(After(maxPoolSize, front), steps[n]);
      assert Before(maxPoolSize, steps, n) == After(maxPoolSize, front);
      assert forall i :: 0 <= i < n ==>
        Before(maxPoolSize, steps, i) == Before(maxPoolSize, front, i) && front[i] == steps[i];
    }
  }

  lemma {:induction false} BeforeIsAfter(maxPoolSize: nat, steps: seq<Step>, i: nat)
    requires IsRun(maxPoolSize, steps) && i <= |steps|
    ensures IsRun(maxPoolSize, steps[..i])
    ensures Before(maxPoolSize, steps, i) == After(maxPoolSize, steps[..i])
    ensures i < |steps| ==> Enabled(Before(maxPoolSize, steps, i), steps[i])
    ensures i < |steps| ==> Before(maxPoolSize, steps, i + 1) == Apply(Before(maxPoolSize, steps, i), steps[i])
    decreases |steps|
  {
    if i == |steps| {
      assert steps[..i] == steps;
    } else {
      var front := steps[..|steps| - 1];
      assert front[..i] == steps[..i];
      BeforeIsAfter(maxPoolSize, front, i);
    }
  }

  /** Tasks with the same collision are never with the executor together in a run exactly when no late look in it
      finds the collision retaken. */
  lemma KeyExclusionExactly(maxPoolSize: nat, steps: seq<Step>)
    requires IsRun(maxPoolSize, steps) && maxPoolSize > 0
    ensures (forall i :: 0 <= i <= |steps| ==> KeyExclusive(Before(maxPoolSize, steps, i).pool))
      <==> (forall i :: 0 <= i < |steps| ==> !CollisionRetaken(Before(maxPoolSize, steps, i), steps[i]))
  {
    if i :| 0 <= i < |steps| && CollisionRetaken(Before(maxPoolSize, steps, i), steps[i]) {
      LateStep(maxPoolSize, steps, i);
      assert !KeyExclusive(Before(maxPoolSize, steps, i + 1).pool);
    } else {
      forall i | 0 <= i <= |steps| ensures KeyExclusive(Before(maxPoolSize, steps, i).pool) {
        PrefixNeverLate(maxPoolSize, steps, i);
      }
    }
  }

  /** A top task is always alone with the executor in a run exactly when no late look finds it started. */
  lemma TopAloneExactly(maxPoolSize: nat, steps: seq<Step>)
    requires IsRun(maxPoolSize, steps) && maxPoolSize > 0
    ensures (forall i :: 0 <= i <= |steps| ==> TopAlone(Before(maxPoolSize, steps, i).pool))
      <==> (forall i :: 0 <= i < |steps| ==> !TopStarted(Before(maxPoolSize, steps, i), steps[i]))
  {
    if i :| 0 <= i < |steps| && TopStarted(Before(maxPoolSize, steps, i), steps[i]) {
      LateStep(maxPoolSize, steps, i);
      assert !TopAlone(Before(maxPoolSize, steps, i + 1).pool);
    } else {
      forall i | 0 <= i <= |steps| ensures TopAlone(Before(maxPoolSize, steps, i).pool) {
        PrefixNeverLate(maxPoolSize, steps, i);
      }
    }
  }

  /** The pool size bounds the tasks handed over in a run exactly when no late look finds the pool full. */
  lemma PoolBoundExactly(maxPoolSize: nat, steps: seq<Step>)
    requires IsRun(maxPoolSize, steps) && maxPoolSize > 0
    ensures (forall i :: 0 <= i <= |steps| ==> WithinPool(Before(maxPoolSize, steps, i).pool))
      <==> (forall i :: 0 <= i < |steps| ==> !PlaceRetaken(Before(maxPoolSize, steps, i), steps[i]))
  {
    if i :| 0 <= i < |steps| && PlaceRetaken(Before(maxPoolSize, steps, i), steps[i]) {
      LateStep(maxPoolSize, steps, i);
      assert !WithinPool(Before(maxPoolSize, steps, i + 1).pool);
    } else {
      forall i | 0 <= i <= |steps| ensures WithinPool(Before(maxPoolSize, steps, i).pool) {
        PrefixNeverLate(maxPoolSize, steps, i);
      }
    }
  }

  lemma LateStep(maxPoolSize: nat, steps: seq<Step>, i: nat)
    requires IsRun(maxPoolSize, steps) && maxPoolSize > 0 && i < |steps|
    ensures var m, m' := Before(maxPoolSize, steps, i), Before(maxPoolSize, steps, i + 1);
      && (CollisionRetaken(m, steps[i]) ==> !KeyExclusive(m'.pool))
      && (TopStarted(m, steps[i]) ==> !TopAlone(m'.pool))
      && (PlaceRetaken(m, steps[i]) ==> !WithinPool(m'.pool))
  {
    BeforeIsAfter(maxPoolSize, steps, i);
    RunConserved(maxPoolSize, steps[..i]);
    RunKeepsIffNeverLate(maxPoolSize, steps[..i]);
    StepKeepsIffNotLate(Before(maxPoolSize, steps, i), steps[i]);
  }

  lemma PrefixNeverLate(maxPoolSize: nat, steps: seq<Step>, i: nat)
    requires IsRun(maxPoolSize, steps) && maxPoolSize > 0 && i <= |steps|
    ensures (forall j :: 0 <= j < |steps| ==> !CollisionRetaken(Before(maxPoolSize, steps, j), steps[j]))
      ==> KeyExclusive(Before(maxPoolSize, steps, i).pool)
    ensures (forall j :: 0 <= j < |steps| ==> !TopStarted(Before(maxPoolSize, steps, j), steps[j]))
      ==> TopAlone(Before(maxPoolSize, steps, i).pool)
    ensures (forall j :: 0 <= j < |steps| ==> !PlaceRetaken(Before(maxPoolSize, steps, j), steps[j]))
      ==> WithinPool(Before(maxPoolSize, steps, i).pool)
  {
    hide CollisionRetaken, TopStarted, PlaceRetaken, TopAlone, WithinPool, Apply, Enabled;
    BeforeIsAfter(maxPoolSize, steps, i);
    forall j | 0 <= j < i
      ensures Before(maxPoolSize, steps[..i], j) == Before(maxPoolSize, steps, j) && steps[..i][j] == steps[j]
    {
      BeforeIsAfter(maxPoolSize, steps, j);
      BeforeIsAfter(maxPoolSize, steps[..i], j);
      assert steps[..i][..j] == steps[..j];
    }
    RunKeepsIffNeverLate(maxPoolSize, steps[..i]);
  }

  // ---------- the three promises are really broken ----------

  lemma Extend(maxPoolSize: nat, steps: seq<Step>, step: Step)
    requires IsRun(maxPoolSize, steps) && Enabled(After(maxPoolSize, steps), step)
    ensures IsRun(maxPoolSize, steps + [step])
    ensures After(maxPoolSize, steps + [step]) == Apply(After(maxPoolSize, steps), step)
  {
    assert (steps + [step])[..|steps|] == steps;
  }

  lemma ScanOfOne(s: State, co: Option<Collision>)
    requires s.mainQueue == [] && s.runningTaskNum < s.maxPoolSize
    ensures s.topTask.None? ==> LockedScan(Offer(s, co)) == PollOne(Offer(s, co))
    ensures s.topTask.Some? && s.runningTaskNum == 0 ==>
      LockedScan(Offer(s, co)) == BeginTask(Offer(s, co), s.topTask.value)
  {
    if s.topTask.None? {
      var s1 := Offer(s, co);
      assert PollOne(s1).mainQueue == [];
      assert Scan(PollOne(s1)) == PollOne(s1);
    }
  }

  /** Push a task and let its pusher look at the main queue, with room in the pool. */
  lemma PushAndScan(maxPoolSize: nat, steps: seq<Step>, co: Option<Collision>) returns (steps': seq<Step>)
    requires IsRun(maxPoolSize, steps)
    requires After(maxPoolSize, steps).pool.runningTaskNum < After(maxPoolSize, steps).pool.maxPoolSize
    ensures IsRun(maxPoolSize, steps')
    ensures var m := After(maxPoolSize, steps);
      After(maxPoolSize, steps') == m.(pool := LockedScan(Offer(m.pool, co)))
  {
    Extend(maxPoolSize, steps, Push(co));
    steps' := steps + [Push(co)];
    Extend(maxPoolSize, steps', PeekPass);
    steps' := steps' + [PeekPass];
    Extend(maxPoolSize, steps', ScanMain);
    steps' := steps' + [ScanMain];
  }

  lemma EndOne(maxPoolSize: nat, steps: seq<Step>, t: Task) returns (steps': seq<Step>)
    requires IsRun(maxPoolSize, steps) && t in After(maxPoolSize, steps).pool.executing && t.co.Some?
    ensures IsRun(maxPoolSize, steps')
    ensures var m := After(maxPoolSize, steps);
      After(maxPoolSize, steps') == m.(pool := EndTask(m.pool, t), finishing := m.finishing + {t})
  {
    Extend(maxPoolSize, steps, Finish(t));
    steps' := steps + [Finish(t)];
  }

  /** What is left when one task has run on `c`, another waits for it, and the first one's thread has yet to look. */
  predicate LeftBehind(m: Machine, maxPoolSize: nat, c: Collision) {
    && m.finishing == {Task(0, Some(c))}
    && m.pool.maxPoolSize == maxPoolSize && m.pool.mainQueue == [] && m.pool.runningTaskNum == 0
    && m.pool.executing == {} && m.pool.runningColls == map[]
    && m.pool.waiting == map[c := [Task(1, Some(c))]]
  }

  lemma TwoOnOneCollision(maxPoolSize: nat, c: Collision)
    requires maxPoolSize > 1 && c != TOP_COLLISION
    ensures var first, second := Task(0, Some(c)), Task(1, Some(c));
      LockedScan(Offer(LockedScan(Offer(Init(maxPoolSize), Some(c))), Some(c)))
      == State(maxPoolSize, [], map[c := [second]], map[c := first], 1, None, {first}, [first, second], [Begin(first)])
  {
    var first, second := Task(0, Some(c)), Task(1, Some(c));
    ScanOfOne(Init(maxPoolSize), Some(c));
    var s1 := State(maxPoolSize, [], map[], map[c := first], 1, None, {first}, [first], [Begin(first)]);
    assert LockedScan(Offer(Init(maxPoolSize), Some(c))) == s1;
    ScanOfOne(s1, Some(c));
    assert Offer(s1, Some(c)).mainQueue == [second];
    assert [second][1..] == [] && [first] + [second] == [first, second];
    assert Enqueue(map[], c, second) == map[c := [second]];
  }

  lemma WaitingLeftBehind(maxPoolSize: nat, c: Collision) returns (steps: seq<Step>)
    requires maxPoolSize > 1 && c != TOP_COLLISION
    ensures IsRun(maxPoolSize, steps)
    ensures var m := After(maxPoolSize, steps);
      LeftBehind(m, maxPoolSize, c) && |m.pool.pushed| == 2 && m.pool.topTask.None?
  {
    steps := PushAndScan(maxPoolSize, [], Some(c));
    ScanOfOne(Init(maxPoolSize), Some(c));
    steps := PushAndScan(maxPoolSize, steps, Some(c));
    TwoOnOneCollision(maxPoolSize, c);
    steps := EndOne(maxPoolSize, steps, Task(0, Some(c)));
  }

  lemma WaitingLeftBehindTop(maxPoolSize: nat, c: Collision) returns (steps: seq<Step>)
    requires maxPoolSize > 1 && c != TOP_COLLISION
    ensures IsRun(maxPoolSize, steps)
    ensures var m := After(maxPoolSize, steps);
      LeftBehind(m, maxPoolSize, c) && m.pool.topTask == Some(Task(2, Some(TOP_COLLISION)))
  {
    steps := PushAndScan(maxPoolSize, [], Some(c));
    ScanOfOne(Init(maxPoolSize), Some(c));
    steps := PushAndScan(maxPoolSize, steps, Some(c));
    TwoOnOneCollision(maxPoolSize, c);
    ScanOfOne(After(maxPoolSize, steps).pool, Some(TOP_COLLISION));
    steps := PushAndScan(maxPoolSize, steps, Some(TOP_COLLISION));
    steps := EndOne(maxPoolSize, steps, Task(0, Some(c)));
  }

  /** With room for two or more, two tasks of one collision can be with the executor, the later one handed over
      first. */
  lemma KeyExclusionFails(maxPoolSize: nat, c: Collision) returns (steps: seq<Step>)
    requires maxPoolSize > 1 && c != TOP_COLLISION
    ensures IsRun(maxPoolSize, steps)
    ensures After(maxPoolSize, steps).pool.executing == {Task(2, Some(c)), Task(1, Some(c))}
    ensures !KeyExclusive(After(maxPoolSize, steps).pool)
  {
    steps := WaitingLeftBehind(maxPoolSize, c);
    ScanOfOne(After(maxPoolSize, steps).pool, Some(c));
    steps := PushAndScan(maxPoolSize, steps, Some(c));
    Extend(maxPoolSize, steps, CheckCollisions(Task(0, Some(c))));
    steps := steps + [CheckCollisions(Task(0, Some(c)))];
    assert Task(1, Some(c)) in After(maxPoolSize, steps).pool.executing;
  }

  /** With room for two or more, a task can be handed over beside a top task. */
  lemma TopAloneFails(maxPoolSize: nat, c: Collision) returns (steps: seq<Step>)
    requires maxPoolSize > 1 && c != TOP_COLLISION
    ensures IsRun(maxPoolSize, steps)
    ensures After(maxPoolSize, steps).pool.executing == {Task(2, Some(TOP_COLLISION)), Task(1, Some(c))}
    ensures !TopAlone(After(maxPoolSize, steps).pool)
  {
    steps := WaitingLeftBehindTop(maxPoolSize, c);
    ScanOfOne(After(maxPoolSize, steps).pool, None);
    steps := PushAndScan(maxPoolSize, steps, None);
    Extend(maxPoolSize, steps, CheckCollisions(Task(0, Some(c))));
    steps := steps + [CheckCollisions(Task(0, Some(c)))];
    assert Task(2, Some(TOP_COLLISION)) in After(maxPoolSize, steps).pool.executing;
  }

  /** With room for two or more, more tasks can be handed over than the pool has places. */
  lemma PoolBoundFails(maxPoolSize: nat, c: Collision) returns (steps: seq<Step>)
    requires maxPoolSize > 1 && c != TOP_COLLISION
    ensures IsRun(maxPoolSize, steps)
    ensures After(maxPoolSize, steps).pool.runningTaskNum == maxPoolSize + 1
    ensures !WithinPool(After(maxPoolSize, steps).pool)
  {
    steps := WaitingLeftBehind(maxPoolSize, c);
    var k := 0;
    while k < maxPoolSize
      invariant 0 <= k <= maxPoolSize
      invariant IsRun(maxPoolSize, steps)
      invariant var m := After(maxPoolSize, steps);
        && m.finishing == {Task(0, Some(c))}
        && m.pool.maxPoolSize == maxPoolSize && m.pool.mainQueue == [] && m.pool.runningTaskNum == k
        && m.pool.waiting == map[c := [Task(1, Some(c))]] && m.pool.topTask.None?
    {
      ScanOfOne(After(maxPoolSize, steps).pool, None);
      steps := PushAndScan(maxPoolSize, steps, None);
      k := k + 1;
    }
    Extend(maxPoolSize, steps, CheckCollisions(Task(0, Some(c))));
    steps := steps + [CheckCollisions(Task(0, Some(c)))];
  }

  // ---------- with room for one they hold ----------

  lemma {:induction false} NothingWaits(s: State)
    requires Conserved(s) && s.maxPoolSize == 1 && s.waiting == map[]
    ensures Scan(s).waiting == map[]
    decreases |s.mainQueue|
  {
    if CanPoll(s) {
      assert s.executing == {};
      PollOneConserved(s);
      NothingWaits(PollOne(s));
    }
  }

  lemma StepNothingWaits(m: Machine, step: Step)
    requires Conserved(m.pool) && Enabled(m, step) && m.pool.maxPoolSize == 1 && m.pool.waiting == map[]
    ensures Apply(m, step).pool.waiting == map[] && Apply(m, step).pool.maxPoolSize == 1
  {
    match step
    case ScanMain =>
      StartPendingTopConserved(m.pool);
      NothingWaits(StartPendingTop(m.pool));
      ScanKeepsSize(StartPendingTop(m.pool));
    case RepairDeadlock(order) => NoDeadlock(m.pool);
    case _ =>
  }

  lemma {:induction false} RoomForOneNothingWaits(steps: seq<Step>)
    requires IsRun(1, steps)
    ensures After(1, steps).pool.waiting == map[] && After(1, steps).pool.maxPoolSize == 1
    decreases |steps|
  {
    if steps != [] {
      var n := |steps| - 1;
      RoomForOneNothingWaits(steps[..n]);
      RunConserved(1, steps[..n]);
      StepNothingWaits(After(1, steps[..n]), steps[n]);
    }
  }

  lemma RoomForOneSafe(steps: seq<Step>)
    requires IsRun(1, steps)
    ensures var s := After(1, steps).pool; KeyExclusive(s) && TopAlone(s) && WithinPool(s)
  {
    forall i | 0 <= i < |steps| ensures Before(1, steps, i).pool.waiting == map[] {
      BeforeIsAfter(1, steps, i);
      RoomForOneNothingWaits(steps[..i]);
    }
    RunKeepsIffNeverLate(1, steps);
  }

  /** At the grain of the lock each of the three promises is kept on all runs by exactly the pools of size one. */
  lemma PromisesKeptExactlyByRoomForOne(maxPoolSize: nat)
    requires maxPoolSize > 0
    ensures (forall steps :: IsRun(maxPoolSize, steps) ==> KeyExclusive(After(maxPoolSize, steps).pool)) <==>
      maxPoolSize == 1
    ensures (forall steps :: IsRun(maxPoolSize, steps) ==> TopAlone(After(maxPoolSize, steps).pool)) <==>
      maxPoolSize == 1
    ensures (forall steps :: IsRun(maxPoolSize, steps) ==> WithinPool(After(maxPoolSize, steps).pool)) <==>
      maxPoolSize == 1
  {
    if maxPoolSize == 1 {
      forall steps | IsRun(1, steps)
        ensures var s := After(1, steps).pool; KeyExclusive(s) && TopAlone(s) && WithinPool(s)
      {
        RoomForOneSafe(steps);
      }
    } else {
      var _ := KeyExclusionFails(maxPoolSize, Collision("c"));
      var _ := TopAloneFails(maxPoolSize, Collision("c"));
      var _ := PoolBoundFails(maxPoolSize, Collision("c"));
    }
  }
}
