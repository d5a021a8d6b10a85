/**
 Threads interleaving when what follows a task - ending it, looking into its collision
 queue, looking into the main queue - is one step.  Pushing a task stays apart from the
 look at the main queue that follows it, and so does reading the counter without the lock.
 That completion is one step is an assumption: the code lets the lock go in between.
 */
module EpcAtomic {
  import opened Wrappers
  import opened Epc
  import L = EpcLockGranular

  /** `peeking` threads are about to read the counter; `scanning` threads found room and want the lock. */
  datatype Machine = Machine(pool: State, peeking: nat, scanning: nat)

  datatype Step = Push(co: Option<Collision>) | PeekReturn | PeekPass | ScanMain | Complete(task: Task)

  function Start(maxPoolSize: nat): Machine {
    Machine(Init(maxPoolSize), 0, 0)
  }

  predicate Enabled(m: Machine, step: Step) {
    match step
    case Push(_) => true
    case PeekReturn => m.peeking > 0 && m.pool.runningTaskNum >= m.pool.maxPoolSize
    case PeekPass => m.peeking > 0 && m.pool.runningTaskNum < m.pool.maxPoolSize
    case ScanMain => m.scanning > 0
    case Complete(t) => t in m.pool.executing && QueuesNonEmpty(m.pool.waiting)
  }

  function Apply(m: Machine, step: Step): Machine
    requires Enabled(m, step)
  {
    match step
    case Push(co) => m.(pool := Offer(m.pool, co), peeking := m.peeking + 1)
    case PeekReturn => m.(peeking := m.peeking - 1)
    case PeekPass => m.(peeking := m.peeking - 1, scanning := m.scanning + 1)
    case ScanMain => m.(pool := LockedScan(m.pool), scanning := m.scanning - 1)
    case Complete(t) => m.(pool := AfterRun(m.pool, t))
  }

  /** `ms` are the states of a run from the empty pool, one after the other. */
  ghost predicate IsRun(maxPoolSize: nat, ms: seq<Machine>) {
    && |ms| > 0 && ms[0] == Start(maxPoolSize)
    && forall i :: 0 <= i < |ms| - 1 ==> Follows(ms[i], ms[i + 1])
  }

  ghost predicate Follows(m: Machine, m': Machine) {
    exists step :: Enabled(m, step) && m' == Apply(m, step)
  }

  // ---------- what is promised ----------

  /** The tasks begun on `c`, in the order in which they began. */
  function BegunOn(log: seq<Event>, c: Collision): seq<Task> {
    if log == [] then []
    else
      var n := |log| - 1;
      BegunOn(log[..n], c) + if log[n].Begin? && log[n].task.co == Some(c) then [log[n].task] else []
  }

  /** The tasks of `ts` that hold `c`. */
  function Holding(ts: seq<Task>, c: Collision): seq<Task> {
    if ts == [] then []
    else
      var n := |ts| - 1;
      Holding(ts[..n], c) + if ts[n].co == Some(c) then [ts[n]] else []
  }

  function Polled(s: State): int {
    |s.pushed| - |s.mainQueue|
  }

  /** If one of two tasks is a top task, the one pushed later begins after the earlier one has ended. */
  ghost predicate Fenced(log: seq<Event>, pushed: seq<Task>) {
    forall j, t :: 0 <= j < |log| && log[j].Begin? && t in pushed && t.id < log[j].task.id
      && (t.IsTop() || log[j].task.IsTop())
      ==> End(t) in log[..j]
  }

  /** What is begun on `c`, what waits for it and what is polled of it agree, in push order. */
  ghost predicate InOrder(s: State, c: Collision)
    requires 0 <= Polled(s)
  {
    BegunOn(s.log, c) + WaitingFor(s, c) == Holding(s.pushed[..Polled(s)], c)
  }

  /** The queue is first in, first out, and a top task is the last one taken from it. */
  ghost predicate Queued(s: State) {
    && 0 <= Polled(s) && s.mainQueue == s.pushed[Polled(s)..]
    && (s.topTask.Some? ==> Polled(s) > 0 && s.topTask.value == s.pushed[Polled(s) - 1])
    && (forall t :: Begin(t) in s.log ==> t.id < Polled(s))
  }

  ghost predicate AllInOrder(s: State)
    requires 0 <= Polled(s)
  {
    forall c :: c != TOP_COLLISION ==> InOrder(s, c)
  }

  ghost predicate Exclusive(s: State) {
    L.HoldersKnown(s) && L.TopAlone(s) && L.WithinPool(s) && s.maxPoolSize > 0
  }

  ghost predicate Ordered(s: State) {
    Conserved(s) && Exclusive(s) && Queued(s) && AllInOrder(s) && Fenced(s.log, s.pushed)
  }

  /** Tasks wait only for collisions that are running; `freed` is one that has just been freed. */
  ghost predicate WaitersWait(s: State, freed: set<Collision>) {
    s.waiting.Keys <= s.runningColls.Keys + freed
  }

  /** No wake-up is lost: whoever could be started now has someone coming to start it. */
  ghost predicate Awake(m: Machine) {
    && (m.pool.topTask.Some? ==> m.pool.executing != {})
    && (CanPoll(m.pool) ==> m.peeking + m.scanning > 0)
  }

  ghost predicate Invariant(m: Machine) {
    Ordered(m.pool) && WaitersWait(m.pool, {}) && Awake(m)
  }

  // ---------- every section keeps the order ----------

  lemma {:induction false} EndedIsLogged(log: seq<Event>, t: Task)
    ensures t in Ended(log) <==> End(t) in log
  {
    if log != [] {
      var n := |log| - 1;
      EndedIsLogged(log[..n], t);
      assert log == log[..n] + [log[n]];
    }
  }

  /** A polled task that is nowhere else has ended. */
  lemma NowhereElse(s: State, hand: multiset<Task>, t: Task)
    requires Coherent(s) && Balanced(s, hand)
    requires t in s.pushed && t !in hand && t !in s.executing && t !in s.mainQueue
    requires t.co.Some? ==> t !in WaitingFor(s, t.co.value)
    requires !(TopIsPending(s) && s.topTask.value == t)
    ensures End(t) in s.log
  {
    assert Places(s, t) + hand[t] == multiset(s.pushed)[t];
    EndedIsLogged(s.log, t);
  }

  lemma FenceExtends(log: seq<Event>, pushed: seq<Task>, e: Event)
    requires Fenced(log, pushed)
    requires e.Begin? ==> forall t :: t in pushed && t.id < e.task.id && (t.IsTop() || e.task.IsTop()) ==> End(t) in log
    ensures Fenced(log + [e], pushed)
  {
    var log' := log + [e];
    forall j, t | 0 <= j < |log'| && log'[j].Begin? && t in pushed && t.id < log'[j].task.id
      && (t.IsTop() || log'[j].task.IsTop())
      ensures End(t) in log'[..j]
    {
      if j < |log| {
        assert log'[..j] == log[..j];
      } else {
        assert log'[..j] == log;
      }
    }
  }

  lemma BegunExtends(log: seq<Event>, e: Event, c: Collision)
    ensures BegunOn(log + [e], c) == BegunOn(log, c) + if e.Begin? && e.task.co == Some(c) then [e.task] else []
  {
    assert (log + [e])[..|log|] == log;
  }

  lemma HoldingExtends(ts: seq<Task>, i: nat, c: Collision)
    requires i < |ts|
    ensures Holding(ts[..i + 1], c) == Holding(ts[..i], c) + if ts[i].co == Some(c) then [ts[i]] else []
  {
    assert ts[..i + 1][..i] == ts[..i];
  }

  lemma OfferOrdered(s: State, co: Option<Collision>)
    requires Ordered(s)
    ensures Ordered(Offer(s, co))
  {
    var s' := Offer(s, co);
    OfferConserved(s, co);
    assert s'.pushed[..Polled(s')] == s.pushed[..Polled(s)];
    forall c | c != TOP_COLLISION ensures InOrder(s', c) {
      assert InOrder(s, c);
    }
    forall j, t | 0 <= j < |s'.log| && s'.log[j].Begin? && t in s'.pushed && t.id < s'.log[j].task.id
      && (t.IsTop() || s'.log[j].task.IsTop())
      ensures End(t) in s'.log[..j]
    {
      assert Begin(s.log[j].task) in s.log;
      assert t in s.pushed;
    }
  }

  lemma InMainQueue(s: State, t: Task)
    requires PushedInOrder(s.pushed) && 0 <= Polled(s) && s.mainQueue == s.pushed[Polled(s)..]
    ensures t in s.mainQueue ==> t.id >= Polled(s) && t in s.pushed
    ensures t in s.pushed && t.id >= Polled(s) ==> t in s.mainQueue
  {
    if t in s.pushed && t.id >= Polled(s) {
      assert s.pushed[t.id] == t == s.mainQueue[t.id - Polled(s)];
    }
  }

  /** When nothing runs, the top task may begin: all that was pushed before it has ended. */
  lemma StartPendingTopOrdered(s: State)
    requires Ordered(s) && WaitersWait(s, {})
    ensures Ordered(StartPendingTop(s)) && WaitersWait(StartPendingTop(s), {})
  {
    if s.topTask.Some? && s.runningTaskNum == 0 {
      var u := s.topTask.value;
      StartPendingTopConserved(s);
      EarlierEnded(s, u);
      FenceExtends(s.log, s.pushed, Begin(u));
      forall c | c != TOP_COLLISION ensures InOrder(StartPendingTop(s), c) {
        assert InOrder(s, c);
        BeginTopInOrder(s, u, c);
      }
    }
  }

  lemma BeginTopInOrder(s: State, u: Task, c: Collision)
    requires 0 <= Polled(s) && InOrder(s, c) && u.IsTop() && c != TOP_COLLISION
    ensures InOrder(BeginTask(s, u), c)
  {
    BegunExtends(s.log, Begin(u), c);
  }

  /** When nothing runs, everything pushed before the pending top task has ended. */
  lemma EarlierEnded(s: State, u: Task)
    requires Conserved(s) && Queued(s) && WaitersWait(s, {}) && s.runningTaskNum == 0 && s.topTask == Some(u)
    ensures forall t :: t in s.pushed && t.id < u.id ==> End(t) in s.log
  {
    assert s.executing == {};
    assert s.runningColls == map[];
    forall t | t in s.pushed && t.id < u.id ensures End(t) in s.log {
      InMainQueue(s, t);
      NowhereElse(s, multiset{}, t);
    }
  }

  function PutAside(s: State): State
    requires s.mainQueue != [] && s.mainQueue[0].co.Some?
  {
    var u := s.mainQueue[0];
    var s' := s.(mainQueue := s.mainQueue[1..]);
    if u.IsTop() then s'.(topTask := Some(u)) else s'.(waiting := Enqueue(s.waiting, u.co.value, u))
  }

  lemma PollQueued(s: State, s': State)
    requires Queued(s) && s.mainQueue != [] && s.topTask.None? && PushedInOrder(s.pushed)
    requires s'.mainQueue == s.mainQueue[1..] && s'.pushed == s.pushed
    requires s'.topTask.Some? ==> s'.topTask.value == s.mainQueue[0]
    requires s'.log == s.log || s'.log == s.log + [Begin(s.mainQueue[0])]
    ensures Queued(s') && Polled(s') == Polled(s) + 1 && s.mainQueue[0] == s.pushed[Polled(s)]
  {
  }

  lemma Behind<T>(a: seq<T>, b: seq<T>, x: T)
    ensures a + (b + [x]) == a + b + [x]
  {
  }

  lemma PutAsideInOrder(s: State, c: Collision)
    requires s.mainQueue != [] && s.mainQueue[0].co.Some? && c != TOP_COLLISION
    requires 0 <= Polled(s) && s.mainQueue[0] == s.pushed[Polled(s)] && InOrder(s, c)
    ensures InOrder(PutAside(s), c)
  {
    var u := s.mainQueue[0];
    var holding := Holding(s.pushed[..Polled(s)], c);
    HoldingExtends(s.pushed, Polled(s), c);
    hide Holding, BegunOn;
    assert Polled(PutAside(s)) == Polled(s) + 1;
    if u.co == Some(c) {
      assert WaitingFor(PutAside(s), c) == WaitingFor(s, c) + [u];
      Behind(BegunOn(s.log, c), WaitingFor(s, c), u);
      assert Holding(s.pushed[..Polled(s) + 1], c) == holding + [u];
    } else {
      assert WaitingFor(PutAside(s), c) == WaitingFor(s, c);
    }
  }

  /** A polled task that may not run yet waits or becomes pending; nothing begins. */
  lemma PutAsideOrdered(s: State)
    requires Ordered(s) && WaitersWait(s, {}) && CanPoll(s)
    requires var u := s.mainQueue[0]; u.IsTop() || (u.IsKeyed() && u.co.value in s.runningColls)
    ensures Ordered(PutAside(s)) && WaitersWait(PutAside(s), {})
  {
    PutAsideConserved(s);
    PollQueued(s, PutAside(s));
    forall c | c != TOP_COLLISION ensures InOrder(PutAside(s), c) {
      assert InOrder(s, c);
      PutAsideInOrder(s, c);
    }
    PutAsideExclusive(s);
  }

  lemma PutAsideConserved(s: State)
    requires Conserved(s) && CanPoll(s) && s.mainQueue[0].co.Some?
    ensures Conserved(PutAside(s))
  {
    var u := s.mainQueue[0];
    TakeFromMain(s);
    if u.IsTop() {
      BecomePendingConserved(s.(mainQueue := s.mainQueue[1..]), u);
    } else {
      EnqueueConserved(s.(mainQueue := s.mainQueue[1..]), u);
    }
  }

  lemma PutAsideExclusive(s: State)
    requires Exclusive(s) && WaitersWait(s, {}) && s.mainQueue != []
    requires var u := s.mainQueue[0]; u.IsTop() || (u.IsKeyed() && u.co.value in s.runningColls)
    ensures Exclusive(PutAside(s)) && WaitersWait(PutAside(s), {})
  {
  }

  lemma BeginPolledInOrder(s: State, c: Collision)
    requires s.mainQueue != [] && c != TOP_COLLISION
    requires 0 <= Polled(s) && s.mainQueue[0] == s.pushed[Polled(s)] && InOrder(s, c)
    requires s.mainQueue[0].co == Some(c) ==> WaitingFor(s, c) == []
    ensures InOrder(BeginTask(s.(mainQueue := s.mainQueue[1..]), s.mainQueue[0]), c)
  {
    var s' := BeginTask(s.(mainQueue := s.mainQueue[1..]), s.mainQueue[0]);
    HoldingExtends(s.pushed, Polled(s), c);
    BegunExtends(s.log, Begin(s.mainQueue[0]), c);
    assert Polled(s') == Polled(s) + 1;
    assert WaitingFor(s', c) == WaitingFor(s, c);
  }

  /** Every top task pushed before one that may be polled has ended. */
  lemma EarlierTopsEnded(s: State, u: Task)
    requires Conserved(s) && Queued(s) && u.id <= Polled(s)
    requires s.topTask.Some? ==> TopIsPending(s) && u.id <= s.topTask.value.id
    ensures forall t :: t in s.pushed && t.id < u.id && t.IsTop() ==> End(t) in s.log
  {
    forall t | t in s.pushed && t.id < u.id && t.IsTop() ensures End(t) in s.log {
      InMainQueue(s, t);
      NowhereElse(s, multiset{}, t);
    }
  }

  /** A polled task that may run begins. */
  lemma BeginPolledOrdered(s: State)
    requires Ordered(s) && WaitersWait(s, {}) && CanPoll(s)
    requires var u := s.mainQueue[0]; !u.IsTop() && (u.co.Some? ==> u.co.value !in s.runningColls)
    ensures Ordered(PollOne(s)) && WaitersWait(PollOne(s), {})
  {
    var u := s.mainQueue[0];
    PollOneConserved(s);
    L.PollOneKeeps(s);
    PollQueued(s, PollOne(s));
    EarlierTopsEnded(s, u);
    FenceExtends(s.log, s.pushed, Begin(u));
    forall c | c != TOP_COLLISION ensures InOrder(PollOne(s), c) {
      assert InOrder(s, c);
      BeginPolledInOrder(s, c);
    }
  }

  lemma PollOneOrdered(s: State)
    requires Ordered(s) && WaitersWait(s, {}) && CanPoll(s)
    ensures Ordered(PollOne(s)) && WaitersWait(PollOne(s), {})
    ensures PollOne(s).topTask.Some? ==> PollOne(s).executing != {}
  {
    var u := s.mainQueue[0];
    if u.IsTop() {
      PutAsideOrdered(s);
      StartPendingTopOrdered(PutAside(s));
    } else if u.IsKeyed() && u.co.value in s.runningColls {
      PutAsideOrdered(s);
    } else {
      BeginPolledOrdered(s);
    }
  }

  /** The state in which a scan leaves the pool. */
  ghost predicate Scanned(s: State) {
    Ordered(s) && WaitersWait(s, {}) && !CanPoll(s) && (s.topTask.Some? ==> s.executing != {})
  }

  lemma {:induction false} ScanOrdered(s: State)
    requires Ordered(s) && WaitersWait(s, {})
    requires s.topTask.Some? ==> s.executing != {}
    ensures Scanned(Scan(s))
    decreases |s.mainQueue|
  {
    if CanPoll(s) {
      PollOneOrdered(s);
      hide Ordered, WaitersWait, Scanned, PollOne;
      ScanOrdered(PollOne(s));
    } else {
      hide Ordered, WaitersWait;
    }
  }

  lemma LockedScanOrdered(s: State)
    requires Ordered(s) && WaitersWait(s, {})
    ensures Scanned(LockedScan(s))
  {
    StartPendingTopOrdered(s);
    if s.executing == {} {
      assert s.runningTaskNum == 0;
    }
    ScanOrdered(StartPendingTop(s));
  }

  lemma EndTaskOrdered(s: State, u: Task)
    requires Ordered(s) && u in s.executing
    ensures Ordered(EndTask(s, u))
  {
    EndTaskConserved(s, u);
    EndTaskExclusive(s, u);
    EndTaskHistory(s, u);
  }

  lemma EndTaskHistory(s: State, u: Task)
    requires Queued(s) && AllInOrder(s) && Fenced(s.log, s.pushed)
    ensures Queued(EndTask(s, u)) && AllInOrder(EndTask(s, u)) && Fenced(EndTask(s, u).log, s.pushed)
  {
    FenceExtends(s.log, s.pushed, End(u));
    forall c | c != TOP_COLLISION ensures InOrder(EndTask(s, u), c) {
      EndTaskInOrder(s, u, c);
    }
  }

  lemma EndTaskInOrder(s: State, u: Task, c: Collision)
    requires 0 <= Polled(s) && InOrder(s, c)
    ensures InOrder(EndTask(s, u), c)
  {
    BegunExtends(s.log, End(u), c);
  }

  lemma EndTaskFrees(s: State, u: Task)
    requires Coherent(s) && Exclusive(s) && WaitersWait(s, {}) && u in s.executing
    ensures WaitersWait(EndTask(s, u), if u.IsKeyed() then {u.co.value} else {})
    ensures u.IsKeyed() ==>
      u.co.value !in EndTask(s, u).runningColls && !(s.topTask.Some? && s.topTask.value in s.executing)
  {
  }

  lemma EndTaskExclusive(s: State, u: Task)
    requires Coherent(s) && Exclusive(s) && u in s.executing
    ensures Exclusive(EndTask(s, u))
  {
  }

  lemma FirstOfWaiting(s: State, c: Collision, d: Collision)
    requires c in s.waiting && s.waiting[c] != []
    ensures WaitingFor(s, d) == (if d == c then [s.waiting[c][0]] else []) + WaitingFor(StartWaiting(s, c), d)
  {
  }

  lemma InTurn<T>(a: seq<T>, b: seq<T>, rest: seq<T>)
    ensures a + b + rest == a + (b + rest)
  {
  }

  lemma StartWaitingInOrder(s: State, c: Collision, d: Collision)
    requires Queued(s) && c in s.waiting && s.waiting[c] != [] && s.waiting[c][0].co == Some(c)
    requires InOrder(s, d)
    ensures InOrder(StartWaiting(s, c), d)
  {
    var u, s' := s.waiting[c][0], StartWaiting(s, c);
    assert s'.log == s.log + [Begin(u)] && s'.pushed == s.pushed && Polled(s') == Polled(s);
    FirstOfWaiting(s, c, d);
    BegunExtends(s.log, Begin(u), d);
    hide Holding, BegunOn, WaitingFor, StartWaiting;
    InTurn(BegunOn(s.log, d), if d == c then [u] else [], WaitingFor(s', d));
  }

  /** A waiting task was polled, and before any top task that is pending now. */
  lemma WaitingWasPolled(s: State, c: Collision, u: Task)
    requires Conserved(s) && Queued(s) && c in s.waiting && u in s.waiting[c]
    ensures u in s.pushed && u.id < Polled(s) && u.co == Some(c)
    ensures s.topTask.Some? ==> u.id < s.topTask.value.id
  {
    assert u in WaitingFor(s, c) && u.co == Some(c);
    HeldOnce(s, multiset{}, u);
    PushedOnce(s.pushed, u);
    assert Places(s, u) + multiset{}[u] == multiset(s.pushed)[u];
    InMainQueue(s, u);
  }

  /** The first of those waiting for the freed collision begins. */
  lemma StartWaitingOrdered(s: State, c: Collision)
    requires Ordered(s) && WaitersWait(s, {c}) && c in s.waiting && c !in s.runningColls
    requires !(s.topTask.Some? && s.topTask.value in s.executing) && s.runningTaskNum < s.maxPoolSize
    ensures Ordered(StartWaiting(s, c)) && WaitersWait(StartWaiting(s, c), {})
  {
    var s' := StartWaiting(s, c);
    var u := s.waiting[c][0];
    StartWaitingConserved(s, c);
    L.StartWaitingKeeps(s, c);
    WaitingWasPolled(s, c, u);
    EarlierTopsEnded(s, u);
    FenceExtends(s.log, s.pushed, Begin(u));
    forall d | d != TOP_COLLISION ensures InOrder(s', d) {
      assert InOrder(s, d);
      StartWaitingInOrder(s, c, d);
    }
    assert Queued(s');
  }

  lemma AfterRunOrdered(s: State, u: Task)
    requires Ordered(s) && WaitersWait(s, {}) && u in s.executing
    ensures Ordered(AfterRun(s, u)) && WaitersWait(AfterRun(s, u), {})
  {
    var s1 := EndTask(s, u);
    EndTaskOrdered(s, u);
    EndTaskFrees(s, u);
    if u.co.Some? && u.co.value in s1.waiting {
      assert u.IsKeyed();
      StartWaitingOrdered(s1, u.co.value);
    } else {
      NobodyWaits(s1, u);
      LockedScanOrdered(s1);
    }
  }

  lemma AfterRunAwake(m: Machine, u: Task)
    requires Invariant(m) && u in m.pool.executing
    ensures Awake(m.(pool := AfterRun(m.pool, u)))
  {
    var s1 := EndTask(m.pool, u);
    EndTaskOrdered(m.pool, u);
    EndTaskFrees(m.pool, u);
    if u.co.Some? && u.co.value in s1.waiting {
      assert u.IsKeyed();
      StartWaitingAwake(m, s1, u.co.value);
    } else {
      NobodyWaits(s1, u);
      LockedScanOrdered(s1);
    }
  }

  lemma AfterRunInvariant(m: Machine, u: Task)
    requires Invariant(m) && u in m.pool.executing
    ensures Invariant(m.(pool := AfterRun(m.pool, u)))
  {
    AfterRunOrdered(m.pool, u);
    AfterRunAwake(m, u);
  }

  lemma NobodyWaits(s1: State, u: Task)
    requires WaitersWait(s1, if u.IsKeyed() then {u.co.value} else {})
    requires u.IsKeyed() ==> u.co.value !in s1.waiting
    ensures WaitersWait(s1, {})
  {
  }

  lemma StartWaitingAwake(m: Machine, s1: State, c: Collision)
    requires Awake(m) && c in s1.waiting && s1.waiting[c] != []
    requires s1.runningTaskNum == m.pool.runningTaskNum - 1 && s1.maxPoolSize == m.pool.maxPoolSize
    requires s1.mainQueue == m.pool.mainQueue && s1.topTask == m.pool.topTask
    ensures Awake(m.(pool := StartWaiting(s1, c)))
  {
    assert s1.waiting[c][0] in StartWaiting(s1, c).executing;
  }

  lemma ApplyInvariant(m: Machine, step: Step)
    requires Invariant(m) && Enabled(m, step)
    ensures Invariant(Apply(m, step))
    ensures Apply(m, step).pool.maxPoolSize == m.pool.maxPoolSize
  {
    L.ScanKeepsSize(StartPendingTop(m.pool));
    match step
    case Push(co) => OfferOrdered(m.pool, co);
    case PeekReturn =>
    case PeekPass =>
    case ScanMain => LockedScanOrdered(m.pool);
    case Complete(t) =>
      AfterRunInvariant(m, t);
      L.ScanKeepsSize(StartPendingTop(EndTask(m.pool, t)));
  }

  lemma FollowsInvariant(m: Machine, m': Machine)
    requires Invariant(m) && Follows(m, m')
    ensures Invariant(m') && m'.pool.maxPoolSize == m.pool.maxPoolSize
  {
    var step :| Enabled(m, step) && m' == Apply(m, step);
    ApplyInvariant(m, step);
  }

  lemma StartInvariant(maxPoolSize: nat)
    requires maxPoolSize > 0
    ensures Invariant(Start(maxPoolSize))
  {
    InitConserved(maxPoolSize);
  }

  lemma {:induction false} RunInvariant(maxPoolSize: nat, ms: seq<Machine>, i: nat)
    requires IsRun(maxPoolSize, ms) && maxPoolSize > 0 && i < |ms|
    ensures Invariant(ms[i]) && ms[i].pool.maxPoolSize == maxPoolSize
  {
    if i == 0 {
      StartInvariant(maxPoolSize);
    } else {
      RunInvariant(maxPoolSize, ms, i - 1);
      assert Follows(ms[i - 1], ms[i - 1 + 1]);
      FollowsInvariant(ms[i - 1], ms[i]);
    }
  }

  // ---------- the promises, over every run ----------

  /** Tasks of one collision run one at a time, and begin in the order in which they were pushed. */
  lemma CollisionsRunInTurn(maxPoolSize: nat, ms: seq<Machine>, i: nat, c: Collision)
    requires IsRun(maxPoolSize, ms) && maxPoolSize > 0 && i < |ms| && c != TOP_COLLISION
    ensures var s := ms[i].pool;
      && (forall t, u :: t in s.executing && u in s.executing && t.co == u.co == Some(c) ==> t == u)
      && BegunOn(s.log, c) + WaitingFor(s, c) + Holding(s.mainQueue, c) == Holding(s.pushed, c)
      && (c in s.waiting ==> s.waiting[c] != [] && c in s.runningColls)
  {
    RunInvariant(maxPoolSize, ms, i);
    OrderedRunsInTurn(ms[i].pool, c);
  }

  lemma OrderedRunsInTurn(s: State, c: Collision)
    requires Ordered(s) && WaitersWait(s, {}) && c != TOP_COLLISION
    ensures forall t, u :: t in s.executing && u in s.executing && t.co == u.co == Some(c) ==> t == u
    ensures BegunOn(s.log, c) + WaitingFor(s, c) + Holding(s.mainQueue, c) == Holding(s.pushed, c)
    ensures c in s.waiting ==> s.waiting[c] != [] && c in s.runningColls
  {
    WholeQueueInOrder(s, c);
    OneHolder(s, c);
  }

  lemma OneHolder(s: State, c: Collision)
    requires L.HoldersKnown(s) && c != TOP_COLLISION
    ensures forall t, u :: t in s.executing && u in s.executing && t.co == u.co == Some(c) ==> t == u
  {
  }

  lemma WholeQueueInOrder(s: State, c: Collision)
    requires Queued(s) && InOrder(s, c)
    ensures BegunOn(s.log, c) + WaitingFor(s, c) + Holding(s.mainQueue, c) == Holding(s.pushed, c)
  {
    var polled := s.pushed[..Polled(s)];
    HoldingConcat(polled, s.mainQueue, c);
    assert s.pushed == polled + s.mainQueue;
  }

  lemma {:induction false} HoldingConcat(a: seq<Task>, b: seq<Task>, c: Collision)
    ensures Holding(a + b, c) == Holding(a, c) + Holding(b, c)
    decreases |b|
  {
    if b == [] {
      assert a + b == a;
    } else {
      var n := |b| - 1;
      HoldingConcat(a, b[..n], c);
      assert (a + b)[..|a + b| - 1] == a + b[..n];
    }
  }

  /** A top task is a barrier: all that was pushed before it has ended when it begins, it runs alone,
      and nothing pushed after it begins until it has ended. */
  lemma TopTaskIsBarrier(maxPoolSize: nat, ms: seq<Machine>, i: nat, top: Task)
    requires IsRun(maxPoolSize, ms) && maxPoolSize > 0 && i < |ms|
    requires top in ms[i].pool.pushed && top.IsTop()
    ensures var s := ms[i].pool;
      && (forall j, t :: 0 <= j < |s.log| && s.log[j] == Begin(top) && t in s.pushed && t.id < top.id ==>
        End(t) in s.log[..j])
      && (top in s.executing ==> s.executing == {top})
      && (forall j, t :: 0 <= j < |s.log| && s.log[j] == Begin(t) && t.id > top.id ==> End(top) in s.log[..j])
  {
    RunInvariant(maxPoolSize, ms, i);
  }

  /** No wake-up is lost, and the pool size is a bound: when no pusher is on its way to the main queue,
      a task is left queued only if a top task is set or the pool is full, and unfinished work means
      something is running. */
  lemma NoLostWakeUp(maxPoolSize: nat, ms: seq<Machine>, i: nat)
    requires IsRun(maxPoolSize, ms) && maxPoolSize > 0 && i < |ms|
    ensures var s := ms[i].pool;
      && s.runningTaskNum == |s.executing| <= maxPoolSize
      && (ms[i].peeking == 0 && ms[i].scanning == 0 ==>
        && (s.mainQueue == [] || s.topTask.Some? || s.runningTaskNum == maxPoolSize)
        && ((exists t :: t in s.pushed && End(t) !in s.log) ==> s.executing != {}))
  {
    RunInvariant(maxPoolSize, ms, i);
    var m := ms[i];
    var s := m.pool;
    if m.peeking == 0 && m.scanning == 0 && s.executing == {} {
      forall t | t in s.pushed ensures End(t) in s.log {
        assert s.runningColls == map[];
        NowhereElse(s, multiset{}, t);
      }
    }
  }

  /** With no pusher about, completing the running tasks one by one finishes everything pushed:
      each completion finishes one task more, and one is possible until all are finished. */
  lemma CompletionsDrainThePool(m: Machine)
    requires Invariant(m) && m.peeking == 0 && m.scanning == 0
    ensures |Ended(m.pool.log)| < |m.pool.pushed| ==> exists t :: Enabled(m, Complete(t))
    ensures forall t :: Enabled(m, Complete(t)) ==>
      var m' := Apply(m, Complete(t));
      && Invariant(m') && m'.peeking == 0 && m'.scanning == 0
      && m'.pool.pushed == m.pool.pushed && |Ended(m'.pool.log)| == |Ended(m.pool.log)| + 1
  {
    UnfinishedMeansExecuting(m);
    forall t | Enabled(m, Complete(t))
      ensures var m' := Apply(m, Complete(t));
        && Invariant(m') && m'.peeking == 0 && m'.scanning == 0
        && m'.pool.pushed == m.pool.pushed && |Ended(m'.pool.log)| == |Ended(m.pool.log)| + 1
    {
      ApplyInvariant(m, Complete(t));
      CompletionEndsOne(m.pool, t);
    }
  }

  lemma UnfinishedMeansExecuting(m: Machine)
    requires Invariant(m) && m.peeking == 0 && m.scanning == 0
    ensures |Ended(m.pool.log)| < |m.pool.pushed| ==> exists t :: Enabled(m, Complete(t))
  {
    var s := m.pool;
    if s.executing == {} {
      assert s.runningColls == map[];
      forall t ensures multiset(s.pushed)[t] == multiset(Ended(s.log))[t] {
        assert Places(s, t) + multiset{}[t] == multiset(s.pushed)[t];
      }
      assert multiset(s.pushed) == multiset(Ended(s.log));
      assert |s.pushed| == |multiset(s.pushed)| == |multiset(Ended(s.log))| == |Ended(s.log)|;
    } else {
      var t :| t in s.executing;
      assert Enabled(m, Complete(t));
    }
  }

  lemma {:induction false} CompletionEndsOne(s: State, t: Task)
    requires QueuesNonEmpty(s.waiting)
    ensures AfterRun(s, t).pushed == s.pushed && |Ended(AfterRun(s, t).log)| == |Ended(s.log)| + 1
  {
    hide Ended;
    EndedAppend(s.log, End(t));
    var s1 := EndTask(s, t);
    if t.co.Some? && t.co.value in s1.waiting {
      EndedAppend(s1.log, Begin(s1.waiting[t.co.value][0]));
    } else {
      LockedScanEndsNothing(s1);
    }
  }

  lemma {:induction false} ScanEndsNothing(s: State)
    ensures Ended(Scan(s).log) == Ended(s.log) && Scan(s).pushed == s.pushed
    decreases |s.mainQueue|
  {
    if CanPoll(s) {
      PollOneEndsNothing(s);
      ScanEndsNothing(PollOne(s));
    }
  }

  lemma PollOneEndsNothing(s: State)
    requires s.mainQueue != []
    ensures Ended(PollOne(s).log) == Ended(s.log) && PollOne(s).pushed == s.pushed
  {
    EndedAppend(s.log, Begin(s.mainQueue[0]));
  }

  lemma LockedScanEndsNothing(s: State)
    ensures Ended(LockedScan(s).log) == Ended(s.log) && LockedScan(s).pushed == s.pushed
  {
    if s.topTask.Some? {
      EndedAppend(s.log, Begin(s.topTask.value));
    }
    ScanEndsNothing(StartPendingTop(s));
  }
}
