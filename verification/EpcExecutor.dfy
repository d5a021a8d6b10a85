/**
 The executor behind the pool.  A task that the pool begins is handed to the executor, whose queue is unbounded, so
 that it never has more than `corePoolSize` threads however large the pool may grow.  Here a task runs only while a
 thread has taken it, and the thread is not free again before it has done all that follows the task.  What the pool
 hands over together need not run together; it is proved when it does.
 */
module EpcExecutor {
  import opened Wrappers
  import opened Epc
  import L = EpcLockGranular
  import W = EpcWakeUp

  /** How far a thread is with a task: running it, about to look into the collision queue, about to read the counter,
      about to look through the main queue. */
  datatype Stage = Running | Looking | Peeking | Scanning

  /** `threads` are the executor's threads that are not idle, by the task each has taken; `peeking` and `scanning` count
      the pushers at these places. */
  datatype Machine = Machine(pool: State, corePoolSize: nat, threads: map<Task, Stage>, peeking: nat, scanning: nat) {
    predicate Runs(t: Task) {
      t in threads && threads[t] == Running
    }
  }

  datatype Move =
    | Push(co: Option<Collision>)
    | PeekReturn
    | PeekPass
    | ScanMain
    | TakeTask(task: Task)
    | Finish(task: Task)
    | CheckCollisions(task: Task)
    | PeekAfter(task: Task)
    | ScanAfter(task: Task)
    | RepairDeadlock(order: seq<Collision>)

  function Start(corePoolSize: nat, maxPoolSize: nat): Machine {
    Machine(Init(maxPoolSize), corePoolSize, map[], 0, 0)
  }

  predicate IsAt(m: Machine, t: Task, stage: Stage) {
    t in m.threads && m.threads[t] == stage
  }

  predicate Enabled(m: Machine, move: Move) {
    match move
    case Push(_) => true
    case PeekReturn => m.peeking > 0 && m.pool.runningTaskNum >= m.pool.maxPoolSize
    case PeekPass => m.peeking > 0 && m.pool.runningTaskNum < m.pool.maxPoolSize
    case ScanMain => m.scanning > 0
    case TakeTask(t) => t in m.pool.executing && t !in m.threads && |m.threads| < m.corePoolSize
    case Finish(t) => m.Runs(t)
    case CheckCollisions(t) => IsAt(m, t, Looking) && t.co.Some? && QueuesNonEmpty(m.pool.waiting)
    case PeekAfter(t) => IsAt(m, t, Peeking)
    case ScanAfter(t) => IsAt(m, t, Scanning)
    case RepairDeadlock(_) => true
  }

  function Apply(m: Machine, move: Move): Machine
    requires Enabled(m, move)
  {
    match move
    case Push(co) => m.(pool := Offer(m.pool, co), peeking := m.peeking + 1)
    case PeekReturn => m.(peeking := m.peeking - 1)
    case PeekPass => m.(peeking := m.peeking - 1, scanning := m.scanning + 1)
    case ScanMain => m.(pool := LockedScan(m.pool), scanning := m.scanning - 1)
    case TakeTask(t) => m.(threads := m.threads[t := Running])
    case Finish(t) =>
      m.(pool := EndTask(m.pool, t), threads := m.threads[t := if t.co.Some? then Looking else Peeking])
    case CheckCollisions(t) =>
      if t.co.value in m.pool.waiting then
        m.(pool := StartWaiting(m.pool, t.co.value), threads := m.threads - {t})
      else
        m.(threads := m.threads[t := Peeking])
    case PeekAfter(t) =>
      if m.pool.runningTaskNum >= m.pool.maxPoolSize then m.(threads := m.threads - {t})
      else m.(threads := m.threads[t := Scanning])
    case ScanAfter(t) => m.(pool := LockedScan(m.pool), threads := m.threads - {t})
    case RepairDeadlock(order) => m.(pool := CheckDeadlock(m.pool, order))
  }

  /** `moves` can be made one after the other from the empty pool. */
  predicate IsRun(corePoolSize: nat, maxPoolSize: nat, moves: seq<Move>)
    decreases |moves|, 0
  {
    moves == [] ||
    var front := moves[..|moves| - 1];
    IsRun(corePoolSize, maxPoolSize, front) && Enabled(After(corePoolSize, maxPoolSize, front), moves[|moves| - 1])
  }

  function After(corePoolSize: nat, maxPoolSize: nat, moves: seq<Move>): Machine
    requires IsRun(corePoolSize, maxPoolSize, moves)
    decreases |moves|, 1
  {
    if moves == [] then Start(corePoolSize, maxPoolSize)
    else Apply(After(corePoolSize, maxPoolSize, moves[..|moves| - 1]), moves[|moves| - 1])
  }

  // ---------- what every run keeps ----------

  /** The pool conserves its tasks, what runs was handed over, and there are no more threads than there may be. */
  ghost predicate Sound(m: Machine) {
    && Conserved(m.pool) && |m.threads| <= m.corePoolSize
    && forall t :: m.Runs(t) ==> t in m.pool.executing
  }

  lemma {:induction false} ScanHandsOver(s: State)
    ensures s.executing <= Scan(s).executing
    decreases |s.mainQueue|
  {
    if CanPoll(s) {
      ScanHandsOver(PollOne(s));
    }
  }

  lemma {:induction false} ThreadMoved(threads: map<Task, Stage>, t: Task, stage: Stage)
    ensures |threads[t := stage]| == |threads| + if t in threads then 0 else 1
    ensures |threads - {t}| <= |threads|
  {
    assert threads[t := stage].Keys == threads.Keys + {t};
    assert (threads - {t}).Keys == threads.Keys - {t};
    if t in threads {
      assert threads.Keys + {t} == threads.Keys;
    }
  }

  /** What the pool does while no thread changes its place keeps the rest as it is. */
  lemma {:induction false} PoolMoveSound(m: Machine, move: Move)
    requires Sound(m) && Enabled(m, move)
    requires move.Push? || move.PeekReturn? || move.PeekPass? || move.ScanMain? || move.RepairDeadlock?
    ensures Sound(Apply(m, move)) && Apply(m, move).corePoolSize == m.corePoolSize
  {
    hide Conserved, DeadlockSuspected, Scan;
    match move
    case Push(co) => OfferConserved(m.pool, co);
    case ScanMain =>
      LockedScanConserved(m.pool);
      ScanHandsOver(StartPendingTop(m.pool));
    case RepairDeadlock(order) => NoDeadlock(m.pool);
    case _ =>
  }

  lemma {:induction false} FinishSound(m: Machine, t: Task)
    requires Sound(m) && m.Runs(t)
    ensures Sound(Apply(m, Finish(t))) && Apply(m, Finish(t)).corePoolSize == m.corePoolSize
  {
    hide Conserved;
    EndTaskConserved(m.pool, t);
    ThreadMoved(m.threads, t, if t.co.Some? then Looking else Peeking);
  }

  lemma {:induction false} CheckCollisionsSound(m: Machine, t: Task)
    requires Sound(m) && Enabled(m, CheckCollisions(t))
    ensures Sound(Apply(m, CheckCollisions(t))) && Apply(m, CheckCollisions(t)).corePoolSize == m.corePoolSize
  {
    hide Conserved;
    ThreadMoved(m.threads, t, Peeking);
    if t.co.value in m.pool.waiting {
      StartWaitingConserved(m.pool, t.co.value);
    }
  }

  lemma {:induction false} ScanAfterSound(m: Machine, t: Task)
    requires Sound(m) && IsAt(m, t, Scanning)
    ensures Sound(Apply(m, ScanAfter(t))) && Apply(m, ScanAfter(t)).corePoolSize == m.corePoolSize
  {
    hide Conserved, Scan;
    LockedScanConserved(m.pool);
    ScanHandsOver(StartPendingTop(m.pool));
    ThreadMoved(m.threads, t, Scanning);
  }

  lemma {:induction false} TakeTaskSound(m: Machine, t: Task)
    requires Sound(m) && Enabled(m, TakeTask(t))
    ensures Sound(Apply(m, TakeTask(t))) && Apply(m, TakeTask(t)).corePoolSize == m.corePoolSize
  {
    hide Conserved;
    ThreadMoved(m.threads, t, Running);
  }

  lemma {:induction false} PeekAfterSound(m: Machine, t: Task)
    requires Sound(m) && IsAt(m, t, Peeking)
    ensures Sound(Apply(m, PeekAfter(t))) && Apply(m, PeekAfter(t)).corePoolSize == m.corePoolSize
  {
    hide Conserved;
    ThreadMoved(m.threads, t, Scanning);
  }

  lemma {:induction false} MoveSound(m: Machine, move: Move)
    requires Sound(m) && Enabled(m, move)
    ensures Sound(Apply(m, move)) && Apply(m, move).corePoolSize == m.corePoolSize
  {
    hide Sound, Apply;
    match move
    case TakeTask(t) => TakeTaskSound(m, t);
    case Finish(t) => FinishSound(m, t);
    case CheckCollisions(t) => CheckCollisionsSound(m, t);
    case PeekAfter(t) => PeekAfterSound(m, t);
    case ScanAfter(t) => ScanAfterSound(m, t);
    case _ => PoolMoveSound(m, move);
  }

  lemma {:induction false} RunSound(corePoolSize: nat, maxPoolSize: nat, moves: seq<Move>)
    requires IsRun(corePoolSize, maxPoolSize, moves)
    ensures Sound(After(corePoolSize, maxPoolSize, moves))
    ensures After(corePoolSize, maxPoolSize, moves).corePoolSize == corePoolSize
    decreases |moves|
  {
    if moves == [] {
      InitConserved(maxPoolSize);
    } else {
      var n := |moves| - 1;
      RunSound(corePoolSize, maxPoolSize, moves[..n]);
      MoveSound(After(corePoolSize, maxPoolSize, moves[..n]), moves[n]);
    }
  }

  ghost function RunningNow(m: Machine): set<Task> {
    set t | t in m.threads && m.threads[t] == Running
  }

  /** Whatever the pool hands over, no more tasks run than there are core threads, and each of them was handed over and
      has not ended. */
  lemma {:induction false} NoMoreThanCoreThreads(corePoolSize: nat, maxPoolSize: nat, moves: seq<Move>)
    requires IsRun(corePoolSize, maxPoolSize, moves)
    ensures var m := After(corePoolSize, maxPoolSize, moves);
      |RunningNow(m)| <= corePoolSize && RunningNow(m) <= m.pool.executing
  {
    RunSound(corePoolSize, maxPoolSize, moves);
    var m := After(corePoolSize, maxPoolSize, moves);
    Fewer(RunningNow(m), m.threads.Keys);
    assert |m.threads.Keys| == |m.threads|;
  }

  lemma {:induction false} Fewer<T>(a: set<T>, b: set<T>)
    requires a <= b
    ensures |a| <= |b|
  {
    assert b == a + (b - a);
  }

  // ---------- what is promised of the tasks that run ----------

  /** No two tasks that run share an ordinary collision. */
  ghost predicate KeyExclusive(m: Machine) {
    forall t, u :: m.Runs(t) && m.Runs(u) && t.IsKeyed() && t.co == u.co ==> t == u
  }

  /** A top task that runs runs alone. */
  ghost predicate TopAlone(m: Machine) {
    forall t, u :: m.Runs(t) && m.Runs(u) && t.IsTop() ==> t == u
  }

  lemma {:induction false} OneThreadRunsOne(maxPoolSize: nat, moves: seq<Move>, t: Task, u: Task)
    requires IsRun(1, maxPoolSize, moves)
    requires After(1, maxPoolSize, moves).Runs(t) && After(1, maxPoolSize, moves).Runs(u)
    ensures t == u
  {
    NoMoreThanCoreThreads(1, maxPoolSize, moves);
    var running := RunningNow(After(1, maxPoolSize, moves));
    assert t in running && u in running;
    OneOfOne(running, t, u);
  }

  lemma {:induction false} OneOfOne<T>(s: set<T>, t: T, u: T)
    requires |s| <= 1 && t in s && u in s
    ensures t == u
  {
    assert |s - {t}| == 0;
    assert u !in s - {t};
  }

  lemma Extend(corePoolSize: nat, maxPoolSize: nat, moves: seq<Move>, move: Move)
    requires IsRun(corePoolSize, maxPoolSize, moves) && Enabled(After(corePoolSize, maxPoolSize, moves), move)
    ensures IsRun(corePoolSize, maxPoolSize, moves + [move])
    ensures After(corePoolSize, maxPoolSize, moves + [move]) == Apply(After(corePoolSize, maxPoolSize, moves), move)
  {
    assert (moves + [move])[..|moves|] == moves;
  }

  /** Push a task and let its pusher look at the main queue, with room in the pool. */
  lemma {:induction false} PushAndScan(corePoolSize: nat, maxPoolSize: nat, moves: seq<Move>, co: Option<Collision>)
    returns (moves': seq<Move>)
    requires IsRun(corePoolSize, maxPoolSize, moves)
    requires var pool := After(corePoolSize, maxPoolSize, moves).pool; pool.runningTaskNum < pool.maxPoolSize
    ensures IsRun(corePoolSize, maxPoolSize, moves')
    ensures var m := After(corePoolSize, maxPoolSize, moves);
      After(corePoolSize, maxPoolSize, moves') == m.(pool := LockedScan(Offer(m.pool, co)))
  {
    hide IsRun, After, LockedScan;
    Extend(corePoolSize, maxPoolSize, moves, Push(co));
    moves' := moves + [Push(co)];
    Extend(corePoolSize, maxPoolSize, moves', PeekPass);
    moves' := moves' + [PeekPass];
    Extend(corePoolSize, maxPoolSize, moves', ScanMain);
    moves' := moves' + [ScanMain];
  }

  /** Two tasks of one collision are pushed, and the first one is taken by a thread. */
  lemma {:induction false} FirstTaken(corePoolSize: nat, maxPoolSize: nat, c: Collision) returns (moves: seq<Move>)
    requires 1 < corePoolSize && 1 < maxPoolSize && c != TOP_COLLISION
    ensures IsRun(corePoolSize, maxPoolSize, moves)
    ensures var first, second := Task(0, Some(c)), Task(1, Some(c));
      After(corePoolSize, maxPoolSize, moves) == Machine(
        State(maxPoolSize, [], map[c := [second]], map[c := first], 1, None, {first}, [first, second], [Begin(first)]),
        corePoolSize, map[first := Running], 0, 0)
  {
    var first := Task(0, Some(c));
    L.ScanOfOne(Init(maxPoolSize), Some(c));
    moves := PushAndScan(corePoolSize, maxPoolSize, [], Some(c));
    Extend(corePoolSize, maxPoolSize, moves, TakeTask(first));
    moves := moves + [TakeTask(first)];
    moves := PushAndScan(corePoolSize, maxPoolSize, moves, Some(c));
    L.TwoOnOneCollision(maxPoolSize, c);
  }

  /** The thread that has ended the first task looks into the collision queue after another thread has taken a task;
      then it takes the one that waited. */
  lemma {:induction false} LateLook(corePoolSize: nat, maxPoolSize: nat, moves: seq<Move>, c: Collision, t: Task)
    returns (moves': seq<Move>)
    requires IsRun(corePoolSize, maxPoolSize, moves) && 1 < corePoolSize && t != Task(0, Some(c))
    requires var m := After(corePoolSize, maxPoolSize, moves);
      && m.corePoolSize == corePoolSize && m.threads == map[Task(0, Some(c)) := Looking] && t in m.pool.executing
      && m.pool.waiting == map[c := [Task(1, Some(c))]]
    ensures IsRun(corePoolSize, maxPoolSize, moves')
    ensures var m := After(corePoolSize, maxPoolSize, moves'); m.Runs(t) && m.Runs(Task(1, Some(c)))
  {
    hide IsRun, After;
    var first, second := Task(0, Some(c)), Task(1, Some(c));
    var m := After(corePoolSize, maxPoolSize, moves);
    var m1 := m.(threads := map[first := Looking, t := Running]);
    var m2 := m1.(pool := StartWaiting(m.pool, c), threads := map[t := Running]);
    TakenAndLooked(m, c, t, m1, m2);
    Extend(corePoolSize, maxPoolSize, moves, TakeTask(t));
    Extend(corePoolSize, maxPoolSize, moves + [TakeTask(t)], CheckCollisions(first));
    moves' := moves + [TakeTask(t)] + [CheckCollisions(first)];
    if t != second {
      Extend(corePoolSize, maxPoolSize, moves', TakeTask(second));
      moves' := moves' + [TakeTask(second)];
    }
  }

  lemma {:induction false} TakenAndLooked(m: Machine, c: Collision, t: Task, m1: Machine, m2: Machine)
    requires t != Task(0, Some(c)) && m.threads == map[Task(0, Some(c)) := Looking] && t in m.pool.executing
    requires 1 < m.corePoolSize && m.pool.waiting == map[c := [Task(1, Some(c))]]
    requires m1 == m.(threads := map[Task(0, Some(c)) := Looking, t := Running])
    requires m2 == m1.(pool := StartWaiting(m.pool, c), threads := map[t := Running])
    ensures Enabled(m, TakeTask(t)) && Apply(m, TakeTask(t)) == m1
    ensures Enabled(m1, CheckCollisions(Task(0, Some(c)))) && Apply(m1, CheckCollisions(Task(0, Some(c)))) == m2
    ensures t != Task(1, Some(c)) ==> Enabled(m2, TakeTask(Task(1, Some(c))))
  {
    assert |m.threads| == 1 && |m2.threads| == 1;
    assert m.threads[t := Running] == m1.threads && m1.threads - {Task(0, Some(c))} == m2.threads;
  }

  /** With two core threads or more, two tasks of one collision can run at the same time. */
  lemma {:induction false} KeyExclusionFails(corePoolSize: nat, maxPoolSize: nat, c: Collision)
    returns (moves: seq<Move>)
    requires 1 < corePoolSize && 1 < maxPoolSize && c != TOP_COLLISION
    ensures IsRun(corePoolSize, maxPoolSize, moves)
    ensures var m := After(corePoolSize, maxPoolSize, moves);
      m.Runs(Task(1, Some(c))) && m.Runs(Task(2, Some(c))) && !KeyExclusive(m)
  {
    moves := FirstTaken(corePoolSize, maxPoolSize, c);
    Extend(corePoolSize, maxPoolSize, moves, Finish(Task(0, Some(c))));
    moves := moves + [Finish(Task(0, Some(c)))];
    L.ScanOfOne(After(corePoolSize, maxPoolSize, moves).pool, Some(c));
    moves := PushAndScan(corePoolSize, maxPoolSize, moves, Some(c));
    moves := LateLook(corePoolSize, maxPoolSize, moves, c, Task(2, Some(c)));
  }

  /** With two core threads or more, a task can run beside a top task. */
  lemma {:induction false} TopAloneFails(corePoolSize: nat, maxPoolSize: nat, c: Collision) returns (moves: seq<Move>)
    requires 1 < corePoolSize && 1 < maxPoolSize && c != TOP_COLLISION
    ensures IsRun(corePoolSize, maxPoolSize, moves)
    ensures var m := After(corePoolSize, maxPoolSize, moves);
      m.Runs(Task(1, Some(c))) && m.Runs(Task(2, Some(TOP_COLLISION))) && !TopAlone(m)
  {
    moves := FirstTaken(corePoolSize, maxPoolSize, c);
    L.ScanOfOne(After(corePoolSize, maxPoolSize, moves).pool, Some(TOP_COLLISION));
    moves := PushAndScan(corePoolSize, maxPoolSize, moves, Some(TOP_COLLISION));
    Extend(corePoolSize, maxPoolSize, moves, Finish(Task(0, Some(c))));
    moves := moves + [Finish(Task(0, Some(c)))];
    L.ScanOfOne(After(corePoolSize, maxPoolSize, moves).pool, None);
    moves := PushAndScan(corePoolSize, maxPoolSize, moves, None);
    moves := LateLook(corePoolSize, maxPoolSize, moves, c, Task(2, Some(TOP_COLLISION)));
  }

  /** Tasks of one collision never run at the same time, in any run, exactly if there is one core thread; and so it is
      with a top task running alone. */
  lemma {:induction false} PromisesKeptExactlyByOneCoreThread(corePoolSize: nat, maxPoolSize: nat)
    requires 0 < corePoolSize <= maxPoolSize
    ensures (forall moves :: IsRun(corePoolSize, maxPoolSize, moves) ==>
      KeyExclusive(After(corePoolSize, maxPoolSize, moves))) <==> corePoolSize == 1
    ensures (forall moves :: IsRun(corePoolSize, maxPoolSize, moves) ==>
      TopAlone(After(corePoolSize, maxPoolSize, moves))) <==> corePoolSize == 1
  {
    if corePoolSize == 1 {
      forall moves | IsRun(1, maxPoolSize, moves)
        ensures KeyExclusive(After(1, maxPoolSize, moves)) && TopAlone(After(1, maxPoolSize, moves))
      {
        forall t, u | After(1, maxPoolSize, moves).Runs(t) && After(1, maxPoolSize, moves).Runs(u) ensures t == u {
          OneThreadRunsOne(maxPoolSize, moves, t, u);
        }
      }
    } else {
      var _ := KeyExclusionFails(corePoolSize, maxPoolSize, Collision("c"));
      var _ := TopAloneFails(corePoolSize, maxPoolSize, Collision("c"));
    }
  }

  // ---------- a run of the executor is one of the pool at the grain of its lock ----------

  /** The tasks whose threads are at a stage. */
  ghost function TasksAt(threads: map<Task, Stage>, stage: Stage): set<Task> {
    set t | t in threads && threads[t] == stage
  }

  /** What is left when it no longer matters which thread is where, and which tasks have one. */
  ghost function Seen(m: Machine): L.Machine {
    L.Machine(m.pool, m.peeking + |TasksAt(m.threads, Peeking)|, m.scanning + |TasksAt(m.threads, Scanning)|,
      TasksAt(m.threads, Looking))
  }

  /** The step that a move is, seen so; taking a task is none. */
  function StepOf(m: Machine, move: Move): Option<L.Step> {
    match move
    case Push(co) => Some(L.Push(co))
    case PeekReturn => Some(L.PeekReturn)
    case PeekPass => Some(L.PeekPass)
    case ScanMain => Some(L.ScanMain)
    case TakeTask(_) => None
    case Finish(t) => Some(L.Finish(t))
    case CheckCollisions(t) => Some(L.CheckCollisions(t))
    case PeekAfter(_) => Some(if m.pool.runningTaskNum >= m.pool.maxPoolSize then L.PeekReturn else L.PeekPass)
    case ScanAfter(_) => Some(L.ScanMain)
    case RepairDeadlock(order) => Some(L.RepairDeadlock(order))
  }

  lemma {:induction false} TasksMoved(threads: map<Task, Stage>, t: Task, stage: Stage)
    ensures TasksAt(threads[t := stage], stage) == TasksAt(threads, stage) + {t}
    ensures forall other :: other != stage ==> TasksAt(threads[t := stage], other) == TasksAt(threads, other) - {t}
    ensures forall other :: TasksAt(threads - {t}, other) == TasksAt(threads, other) - {t}
    ensures forall other :: t in TasksAt(threads, other) <==> t in threads && threads[t] == other
  {
  }

  lemma {:induction false} OneFewer<T>(s: set<T>, t: T)
    ensures |s - {t}| == |s| - if t in s then 1 else 0
    ensures |s + {t}| == |s| + if t in s then 0 else 1
  {
    if t in s {
      assert s + {t} == s;
    } else {
      assert s - {t} == s;
    }
  }

  function One(b: bool): nat {
    if b then 1 else 0
  }

  /** How the tasks at one stage change when a thread moves, or leaves. */
  lemma {:induction false} StageChanges(threads: map<Task, Stage>, t: Task, stage: Stage, other: Stage)
    ensures var at := One(t in threads && threads[t] == other);
      && |TasksAt(threads[t := stage], other)| == |TasksAt(threads, other)| - at + One(stage == other)
      && |TasksAt(threads - {t}, other)| == |TasksAt(threads, other)| - at
  {
    TasksMoved(threads, t, stage);
    OneFewer(TasksAt(threads, other), t);
  }

  lemma {:induction false} ThreadMoveSeen(m: Machine, t: Task, stage: Stage)
    ensures var threads := m.threads[t := stage];
      && TasksAt(threads, Looking) ==
        (if stage == Looking then TasksAt(m.threads, Looking) + {t} else TasksAt(m.threads, Looking) - {t})
      && |TasksAt(threads, Peeking)| ==
        |TasksAt(m.threads, Peeking)| - One(IsAt(m, t, Peeking)) + One(stage == Peeking)
      && |TasksAt(threads, Scanning)| ==
        |TasksAt(m.threads, Scanning)| - One(IsAt(m, t, Scanning)) + One(stage == Scanning)
    ensures var threads := m.threads - {t};
      && TasksAt(threads, Looking) == TasksAt(m.threads, Looking) - {t}
      && |TasksAt(threads, Peeking)| == |TasksAt(m.threads, Peeking)| - One(IsAt(m, t, Peeking))
      && |TasksAt(threads, Scanning)| == |TasksAt(m.threads, Scanning)| - One(IsAt(m, t, Scanning))
  {
    TasksMoved(m.threads, t, stage);
    StageChanges(m.threads, t, stage, Peeking);
    StageChanges(m.threads, t, stage, Scanning);
  }

  lemma {:induction false} MoveSeen(m: Machine, move: Move)
    requires Sound(m) && Enabled(m, move)
    ensures var step := StepOf(m, move);
      if step.None? then Seen(Apply(m, move)) == Seen(m)
      else L.Enabled(Seen(m), step.value) && Seen(Apply(m, move)) == L.Apply(Seen(m), step.value)
  {
    hide Conserved, LockedScan, EndTask, StartWaiting, CheckDeadlock, QueuesNonEmpty, TasksAt;
    match move
    case TakeTask(t) => NotThere(m, t); ThreadMoveSeen(m, t, Running);
    case Finish(t) => NotThere(m, t); ThreadMoveSeen(m, t, if t.co.Some? then Looking else Peeking);
    case CheckCollisions(t) => NotThere(m, t); ThreadMoveSeen(m, t, Peeking);
    case PeekAfter(t) => NotThere(m, t); ThreadMoveSeen(m, t, Scanning);
    case ScanAfter(t) => NotThere(m, t); ThreadMoveSeen(m, t, Scanning);
    case _ =>
  }

  /** A thread counts where it is, and only there. */
  lemma {:induction false} NotThere(m: Machine, t: Task)
    ensures t in TasksAt(m.threads, Looking) <==> IsAt(m, t, Looking)
    ensures !IsAt(m, t, Looking) ==> TasksAt(m.threads, Looking) - {t} == TasksAt(m.threads, Looking)
    ensures IsAt(m, t, Peeking) ==> |TasksAt(m.threads, Peeking)| > 0
    ensures IsAt(m, t, Scanning) ==> |TasksAt(m.threads, Scanning)| > 0
  {
    assert t in TasksAt(m.threads, Peeking) <==> IsAt(m, t, Peeking);
    assert t in TasksAt(m.threads, Scanning) <==> IsAt(m, t, Scanning);
  }

  /** Every run of this machine, seen so, is one at the grain of the lock: all that is proved of those holds of it. */
  lemma {:induction false} RunSeen(corePoolSize: nat, maxPoolSize: nat, moves: seq<Move>) returns (steps: seq<L.Step>)
    requires IsRun(corePoolSize, maxPoolSize, moves)
    ensures L.IsRun(maxPoolSize, steps)
    ensures L.After(maxPoolSize, steps) == Seen(After(corePoolSize, maxPoolSize, moves))
    decreases |moves|
  {
    if moves == [] {
      steps := [];
      assert TasksAt(map[], Peeking) == {} && TasksAt(map[], Scanning) == {} && TasksAt(map[], Looking) == {};
    } else {
      var n := |moves| - 1;
      var m, move := After(corePoolSize, maxPoolSize, moves[..n]), moves[n];
      steps := RunSeen(corePoolSize, maxPoolSize, moves[..n]);
      RunSound(corePoolSize, maxPoolSize, moves[..n]);
      MoveSeen(m, move);
      hide Seen, Apply, L.Apply, L.Enabled, Sound;
      if StepOf(m, move).Some? {
        L.Extend(maxPoolSize, steps, StepOf(m, move).value);
        steps := steps + [StepOf(m, move).value];
      }
    }
  }

  /** No wake-up is lost: with nobody on the way to a queue nothing is left lying, and unfinished work means that a task
      can be ended or taken. */
  lemma {:induction false} NoLostWakeUp(corePoolSize: nat, maxPoolSize: nat, moves: seq<Move>)
    requires IsRun(corePoolSize, maxPoolSize, moves) && 0 < corePoolSize && 0 < maxPoolSize
    requires var m := After(corePoolSize, maxPoolSize, moves);
      m.peeking == 0 && m.scanning == 0 && forall t :: t in m.threads ==> m.Runs(t)
    ensures var m := After(corePoolSize, maxPoolSize, moves);
      && W.NothingLeftLying(m.pool)
      && ((exists t :: t in m.pool.pushed && End(t) !in m.pool.log) ==>
        exists t :: Enabled(m, Finish(t)) || Enabled(m, TakeTask(t)))
  {
    var m := After(corePoolSize, maxPoolSize, moves);
    var steps := RunSeen(corePoolSize, maxPoolSize, moves);
    assert TasksAt(m.threads, Peeking) == {} && TasksAt(m.threads, Scanning) == {};
    assert TasksAt(m.threads, Looking) == {};
    W.NoLostWakeUp(maxPoolSize, steps);
    RunSound(corePoolSize, maxPoolSize, moves);
    SomethingGoesOn(m);
  }

  lemma {:induction false} SomethingGoesOn(m: Machine)
    requires 0 < m.corePoolSize && (forall t :: t in m.threads ==> m.Runs(t))
    ensures m.pool.executing != {} ==> exists t :: Enabled(m, Finish(t)) || Enabled(m, TakeTask(t))
  {
    if m.threads.Keys == {} {
      assert |m.threads| == |m.threads.Keys| == 0;
      if t :| t in m.pool.executing {
        assert t !in m.threads.Keys;
        assert Enabled(m, TakeTask(t));
      }
    } else {
      var t :| t in m.threads.Keys;
      assert m.Runs(t) && Enabled(m, Finish(t));
    }
  }
}
