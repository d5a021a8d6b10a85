/**
 The state of the event-processing pool and what each section of its code
 does to that state, as functions on values.  `EpcThreadPool` runs the same
 sections on fields; `EpcLockGranular` and `EpcAtomic` let many threads
 interleave them.
 */
module Epc {
  import opened Wrappers

  /** A resource an event needs for itself; collisions are compared by what they wrap. */
  datatype Collision = Collision(colls: string)

  const TOP_COLLISION := Collision("*")

  /** `id` is the task's place in push order; it stands for the identity of the task object. */
  datatype Task = Task(id: nat, co: Option<Collision>) {
    predicate IsTop() {
      co == Some(TOP_COLLISION)
    }

    /** The task holds an ordinary collision, one that other tasks may share. */
    predicate IsKeyed() {
      co.Some? && !IsTop()
    }
  }

  datatype Event = Begin(task: Task) | End(task: Task)

  /** The first six fields are the pool's own; `executing` is what the executor
      was handed and has not finished, `pushed` and `log` are history. */
  datatype State = State(
    maxPoolSize: nat,
    mainQueue: seq<Task>,
    waiting: map<Collision, seq<Task>>,
    runningColls: map<Collision, Task>,
    runningTaskNum: int,
    topTask: Option<Task>,
    executing: set<Task>,
    pushed: seq<Task>,
    log: seq<Event>
  )

  function Init(maxPoolSize: nat): State {
    State(maxPoolSize, [], map[], map[], 0, None, {}, [], [])
  }

  // ---------- what each section of the pool does ----------

  function Offer(s: State, co: Option<Collision>): State {
    var task := Task(|s.pushed|, co);
    s.(mainQueue := s.mainQueue + [task], pushed := s.pushed + [task])
  }

  function BeginTask(s: State, t: Task): State {
    s.(runningTaskNum := s.runningTaskNum + 1,
       runningColls := if t.IsKeyed() then s.runningColls[t.co.value := t] else s.runningColls,
       executing := s.executing + {t},
       log := s.log + [Begin(t)])
  }

  function EndTask(s: State, t: Task): State {
    s.(runningTaskNum := s.runningTaskNum - 1,
       topTask := if t.IsTop() then None else s.topTask,
       runningColls := if t.IsKeyed() then s.runningColls - {t.co.value} else s.runningColls,
       executing := s.executing - {t},
       log := s.log + [End(t)])
  }

  function Enqueue(waiting: map<Collision, seq<Task>>, c: Collision, t: Task): map<Collision, seq<Task>> {
    waiting[c := (if c in waiting then waiting[c] else []) + [t]]
  }

  /** One turn of the polling loop: take the head of the main queue and place it. */
  function PollOne(s: State): State
    requires s.mainQueue != []
  {
    var t := s.mainQueue[0];
    var s' := s.(mainQueue := s.mainQueue[1..]);
    if t.co.None? then
      BeginTask(s', t)
    else if t.IsTop() then
      var s'' := s'.(topTask := Some(t));
      if s.runningTaskNum == 0 then BeginTask(s'', t) else s''
    else if t.co.value in s.runningColls then
      s'.(waiting := Enqueue(s.waiting, t.co.value, t))
    else
      BeginTask(s', t)
  }

  predicate CanPoll(s: State) {
    s.topTask.None? && s.mainQueue != [] && s.runningTaskNum < s.maxPoolSize
  }

  function Scan(s: State): State
    decreases |s.mainQueue|
  {
    if CanPoll(s) then Scan(PollOne(s)) else s
  }

  function StartPendingTop(s: State): State {
    if s.topTask.Some? && s.runningTaskNum == 0 then BeginTask(s, s.topTask.value) else s
  }

  /** The part of the main-queue check that holds the lock. */
  function LockedScan(s: State): State {
    Scan(StartPendingTop(s))
  }

  function CheckMainQueue(s: State): State {
    if s.runningTaskNum >= s.maxPoolSize then s else LockedScan(s)
  }

  predicate QueuesNonEmpty(waiting: map<Collision, seq<Task>>) {
    forall c :: c in waiting ==> waiting[c] != []
  }

  /** Start the first task waiting for `c`. */
  function StartWaiting(s: State, c: Collision): State
    requires c in s.waiting && s.waiting[c] != []
  {
    var q := s.waiting[c];
    BeginTask(s, q[0]).(waiting := if |q| == 1 then s.waiting - {c} else s.waiting[c := q[1..]])
  }

  function CheckCollisionQueue(s: State, c: Collision): State
    requires QueuesNonEmpty(s.waiting)
  {
    if c in s.waiting then StartWaiting(s, c) else s
  }

  predicate DeadlockSuspected(s: State) {
    s.runningTaskNum < |s.runningColls|
  }

  /** One turn of the repair: start the head of a waiting queue, drop the queue once it is empty. */
  function RepairOne(s: State, c: Collision): State {
    if c !in s.waiting then s
    else if s.waiting[c] == [] then s.(waiting := s.waiting - {c})
    else StartWaiting(s, c)
  }

  function RepairEach(s: State, order: seq<Collision>): State {
    if order == [] then s
    else
      var n := |order| - 1;
      RepairOne(RepairEach(s, order[..n]), order[n])
  }

  /** `order` is the order in which the waiting collisions happen to be visited. */
  function CheckDeadlock(s: State, order: seq<Collision>): State {
    if DeadlockSuspected(s) then RepairEach(s.(runningColls := map[]), order) else s
  }

  /** All that follows a task's execution, when nothing comes between. */
  function AfterRun(s: State, t: Task): State
    requires QueuesNonEmpty(s.waiting)
  {
    var s1 := EndTask(s, t);
    if t.co.Some? && t.co.value in s1.waiting then
      StartWaiting(s1, t.co.value)
    else
      CheckMainQueue(s1)
  }

  // ---------- history ----------

  function Ended(log: seq<Event>): seq<Task> {
    if log == [] then []
    else
      var n := |log| - 1;
      Ended(log[..n]) + if log[n].End? then [log[n].task] else []
  }

  function WaitingFor(s: State, c: Collision): seq<Task> {
    if c in s.waiting then s.waiting[c] else []
  }

  predicate TopIsPending(s: State) {
    s.topTask.Some? && s.topTask.value !in s.executing
  }

  /** How many places hold `t`: finished, executing, waiting for its collision, pending as top task, queued. */
  function Places(s: State, t: Task): nat {
    multiset(Ended(s.log))[t]
    + (if t in s.executing then 1 else 0)
    + (if t.co.Some? then multiset(WaitingFor(s, t.co.value))[t] else 0)
    + (if TopIsPending(s) && s.topTask.value == t then 1 else 0)
    + multiset(s.mainQueue)[t]
  }

  ghost predicate PushedInOrder(pushed: seq<Task>) {
    forall i :: 0 <= i < |pushed| ==> pushed[i].id == i
  }

  /** No task is lost or doubled; `hand` is what a section has taken and not yet put down. */
  ghost predicate Balanced(s: State, hand: multiset<Task>) {
    forall t :: Places(s, t) + hand[t] == multiset(s.pushed)[t]
  }

  /** What the fields say about one another. */
  ghost predicate Coherent(s: State) {
    && PushedInOrder(s.pushed)
    && s.runningTaskNum == |s.executing|
    && (forall c :: c in s.runningColls ==>
      c != TOP_COLLISION && s.runningColls[c] in s.executing && s.runningColls[c].co == Some(c))
    && QueuesNonEmpty(s.waiting)
    && (forall c, t :: c in s.waiting && t in s.waiting[c] ==> t.co == Some(c))
    && TOP_COLLISION !in s.waiting
    && (s.topTask.Some? ==> s.topTask.value.IsTop())
    && (forall t :: t in s.executing && t.IsTop() ==> s.topTask == Some(t))
  }

  /** What every section keeps, however the threads interleave. */
  ghost predicate Conserved(s: State) {
    Coherent(s) && Balanced(s, multiset{})
  }

  // ---------- every section keeps it ----------

  lemma PushedOnce(pushed: seq<Task>, t: Task)
    requires PushedInOrder(pushed)
    ensures multiset(pushed)[t] <= 1
    ensures multiset(pushed)[t] == 1 ==> t in pushed && t.id < |pushed| && pushed[t.id] == t
  {
    if pushed != [] {
      var n := |pushed| - 1;
      assert pushed == pushed[..n] + [pushed[n]];
      PushedOnce(pushed[..n], t);
    }
  }

  lemma EndedAppend(log: seq<Event>, e: Event)
    ensures Ended(log + [e]) == Ended(log) + if e.End? then [e.task] else []
  {
    assert (log + [e])[..|log|] == log;
  }

  lemma InitConserved(maxPoolSize: nat)
    ensures Conserved(Init(maxPoolSize))
  {
  }

  lemma OfferConserved(s: State, co: Option<Collision>)
    requires Conserved(s)
    ensures Conserved(Offer(s, co))
  {
    forall t ensures Places(Offer(s, co), t) + multiset{}[t] == multiset(Offer(s, co).pushed)[t] {
      assert Places(s, t) + multiset{}[t] == multiset(s.pushed)[t];
      PlacesOffer(s, co, t);
    }
  }

  lemma PlacesOffer(s: State, co: Option<Collision>, t: Task)
    ensures Places(Offer(s, co), t) - multiset(Offer(s, co).pushed)[t] == Places(s, t) - multiset(s.pushed)[t]
  {
    assert Ended(Offer(s, co).log) == Ended(s.log);
    assert t.co.Some? ==> WaitingFor(Offer(s, co), t.co.value) == WaitingFor(s, t.co.value);
  }

  /** A task in hand, or put aside anywhere, is not executing. */
  lemma HeldOnce(s: State, hand: multiset<Task>, t: Task)
    requires Coherent(s) && Balanced(s, hand)
    requires t in hand || t in s.mainQueue || (t.co.Some? && t in WaitingFor(s, t.co.value))
      || (TopIsPending(s) && s.topTask.value == t)
    ensures t !in s.executing
    ensures Places(s, t) + hand[t] == 1
  {
    PushedOnce(s.pushed, t);
    assert Places(s, t) + hand[t] == multiset(s.pushed)[t];
  }

  lemma PlacesTaken(s: State, t: Task)
    requires s.mainQueue != []
    ensures Places(s, t) == Places(s.(mainQueue := s.mainQueue[1..]), t) + multiset{s.mainQueue[0]}[t]
  {
    hide Ended;
    assert s.mainQueue == [s.mainQueue[0]] + s.mainQueue[1..];
  }

  lemma TakeFromMain(s: State)
    requires Conserved(s) && s.mainQueue != []
    ensures Coherent(s.(mainQueue := s.mainQueue[1..]))
    ensures Balanced(s.(mainQueue := s.mainQueue[1..]), multiset{s.mainQueue[0]})
  {
    hide Places;
    var u := s.mainQueue[0];
    var s' := s.(mainQueue := s.mainQueue[1..]);
    forall t ensures Places(s', t) + multiset{u}[t] == multiset(s'.pushed)[t] {
      assert Places(s, t) + multiset{}[t] == multiset(s.pushed)[t];
      PlacesTaken(s, t);
    }
  }

  function DropFirst(waiting: map<Collision, seq<Task>>, c: Collision): map<Collision, seq<Task>>
    requires c in waiting && waiting[c] != []
  {
    if |waiting[c]| == 1 then waiting - {c} else waiting[c := waiting[c][1..]]
  }

  lemma PlacesWaiting(s: State, waiting: map<Collision, seq<Task>>, c: Collision, t: Task)
    requires forall d :: d != c ==> WaitingFor(s, d) == WaitingFor(s.(waiting := waiting), d)
    ensures Places(s.(waiting := waiting), t) == Places(s, t)
      - (if t.co == Some(c) then multiset(WaitingFor(s, c))[t] else 0)
      + (if t.co == Some(c) then multiset(WaitingFor(s.(waiting := waiting), c))[t] else 0)
  {
  }

  lemma TakeFromWaiting(s: State, c: Collision)
    requires Conserved(s) && c in s.waiting
    ensures Coherent(s.(waiting := DropFirst(s.waiting, c)))
    ensures Balanced(s.(waiting := DropFirst(s.waiting, c)), multiset{s.waiting[c][0]})
  {
    var q := s.waiting[c];
    var waiting := DropFirst(s.waiting, c);
    var s' := s.(waiting := waiting);
    assert q == [q[0]] + q[1..];
    assert WaitingFor(s', c) == q[1..];
    assert q[0].co == Some(c);
    forall t ensures Places(s', t) + multiset{q[0]}[t] == multiset(s'.pushed)[t] {
      PlacesWaiting(s, waiting, c, t);
      assert Places(s, t) + multiset{}[t] == multiset(s.pushed)[t];
    }
  }

  lemma BeginTaskCoherent(s: State, u: Task)
    requires Coherent(s) && u !in s.executing && !u.IsTop()
    ensures Coherent(BeginTask(s, u))
  {
  }

  /** Starting a task that is in hand puts it down. */
  lemma BeginTaskConserved(s: State, u: Task)
    requires Coherent(s) && Balanced(s, multiset{u})
    requires !u.IsTop()
    ensures Conserved(BeginTask(s, u))
  {
    HeldOnce(s, multiset{u}, u);
    BeginTaskCoherent(s, u);
    forall t ensures Places(BeginTask(s, u), t) + multiset{}[t] == multiset(s.pushed)[t] {
      PlacesBegin(s, u, t);
      assert Places(s, t) + multiset{u}[t] == multiset(s.pushed)[t];
    }
  }

  lemma PlacesBegin(s: State, u: Task, t: Task)
    requires u !in s.executing && !u.IsTop()
    requires s.topTask.Some? ==> s.topTask.value.IsTop()
    ensures Places(BeginTask(s, u), t) == Places(s, t) + if t == u then 1 else 0
  {
    EndedAppend(s.log, Begin(u));
    var s' := BeginTask(s, u);
    assert Ended(s'.log) == Ended(s.log);
    assert TopIsPending(s') == TopIsPending(s) && s'.topTask == s.topTask;
    hide Ended, TopIsPending;
    assert t.co.Some? ==> WaitingFor(s', t.co.value) == WaitingFor(s, t.co.value);
  }

  lemma BecomePendingConserved(s: State, u: Task)
    requires Coherent(s) && Balanced(s, multiset{u})
    requires u.IsTop() && s.topTask.None?
    ensures Conserved(s.(topTask := Some(u)))
  {
    var s' := s.(topTask := Some(u));
    HeldOnce(s, multiset{u}, u);
    forall t ensures Places(s', t) + multiset{}[t] == multiset(s'.pushed)[t] {
      assert Places(s, t) + multiset{u}[t] == multiset(s.pushed)[t];
    }
  }

  lemma EnqueueConserved(s: State, u: Task)
    requires Coherent(s) && Balanced(s, multiset{u}) && u.IsKeyed()
    ensures Conserved(s.(waiting := Enqueue(s.waiting, u.co.value, u)))
  {
    var c := u.co.value;
    var waiting := Enqueue(s.waiting, c, u);
    var s' := s.(waiting := waiting);
    assert WaitingFor(s', c) == WaitingFor(s, c) + [u];
    EnqueueCoherent(s, u);
    hide Coherent;
    forall t ensures Places(s', t) + multiset{}[t] == multiset(s'.pushed)[t] {
      PlacesWaiting(s, waiting, c, t);
      assert Places(s, t) + multiset{u}[t] == multiset(s.pushed)[t];
    }
  }

  lemma EnqueueCoherent(s: State, u: Task)
    requires Coherent(s) && u.IsKeyed()
    ensures Coherent(s.(waiting := Enqueue(s.waiting, u.co.value, u)))
  {
  }

  lemma StartPendingTopConserved(s: State)
    requires Conserved(s)
    ensures Conserved(StartPendingTop(s))
  {
    if s.topTask.Some? && s.runningTaskNum == 0 {
      var u := s.topTask.value;
      var s' := StartPendingTop(s);
      assert s.executing == {};
      EndedAppend(s.log, Begin(u));
      forall t ensures Places(s', t) + multiset{}[t] == multiset(s'.pushed)[t] {
        assert Places(s, t) + multiset{}[t] == multiset(s.pushed)[t];
      }
    }
  }

  lemma StartWaitingConserved(s: State, c: Collision)
    requires Conserved(s) && c in s.waiting
    ensures Conserved(StartWaiting(s, c))
  {
    TakeFromWaiting(s, c);
    assert s.waiting[c][0].co == Some(c);
    BeginTaskConserved(s.(waiting := DropFirst(s.waiting, c)), s.waiting[c][0]);
    assert StartWaiting(s, c) == BeginTask(s.(waiting := DropFirst(s.waiting, c)), s.waiting[c][0]);
  }

  lemma PollOneConserved(s: State)
    requires Conserved(s) && CanPoll(s)
    ensures Conserved(PollOne(s))
  {
    var u := s.mainQueue[0];
    var s1 := s.(mainQueue := s.mainQueue[1..]);
    TakeFromMain(s);
    if u.IsTop() {
      BecomePendingConserved(s1, u);
      StartPendingTopConserved(s1.(topTask := Some(u)));
    } else if u.IsKeyed() && u.co.value in s.runningColls {
      EnqueueConserved(s1, u);
    } else {
      BeginTaskConserved(s1, u);
    }
  }

  lemma {:induction false} ScanConserved(s: State)
    requires Conserved(s)
    ensures Conserved(Scan(s))
    decreases |s.mainQueue|
  {
    if CanPoll(s) {
      PollOneConserved(s);
      ScanConserved(PollOne(s));
    }
  }

  lemma LockedScanConserved(s: State)
    requires Conserved(s)
    ensures Conserved(LockedScan(s))
  {
    StartPendingTopConserved(s);
    ScanConserved(StartPendingTop(s));
  }

  lemma EndTaskConserved(s: State, u: Task)
    requires Conserved(s) && u in s.executing
    ensures Conserved(EndTask(s, u))
  {
    EndTaskCoherent(s, u);
    forall t ensures Places(EndTask(s, u), t) + multiset{}[t] == multiset(s.pushed)[t] {
      assert Places(s, t) + multiset{}[t] == multiset(s.pushed)[t];
      PlacesEnd(s, u, t);
    }
  }

  lemma EndTaskCoherent(s: State, u: Task)
    requires Coherent(s) && u in s.executing
    ensures Coherent(EndTask(s, u))
  {
  }

  /** Ending a task moves it; the pool's top task is pending no more than before. */
  lemma PlacesEnd(s: State, u: Task, t: Task)
    requires Coherent(s) && u in s.executing
    ensures Places(EndTask(s, u), t) == Places(s, t)
  {
    EndedAppend(s.log, End(u));
    assert Ended(EndTask(s, u).log) == Ended(s.log) + [u];
    assert t.co.Some? ==> WaitingFor(EndTask(s, u), t.co.value) == WaitingFor(s, t.co.value);
  }

  lemma AfterRunConserved(s: State, u: Task)
    requires Conserved(s) && u in s.executing
    ensures Conserved(AfterRun(s, u))
  {
    EndTaskConserved(s, u);
    var s1 := EndTask(s, u);
    if u.co.Some? && u.co.value in s1.waiting {
      StartWaitingConserved(s1, u.co.value);
    } else {
      LockedScanConserved(s1);
    }
  }

  // ---------- the repair of a deadlock is never needed ----------

  /** A map that sends each collision to a task holding it needs at least as many tasks as collisions. */
  lemma {:induction false} HoldersAtLeastCollisions(m: map<Collision, Task>, tasks: set<Task>)
    requires forall c :: c in m ==> m[c] in tasks && m[c].co == Some(c)
    ensures |m| <= |tasks|
    decreases |m|
  {
    if m.Keys != {} {
      var c :| c in m.Keys;
      var m' := m - {c};
      assert m'.Keys == m.Keys - {c};
      assert |m'| == |m'.Keys| == |m.Keys| - 1;
      HoldersAtLeastCollisions(m', tasks - {m[c]});
    } else {
      assert |m| == |m.Keys|;
    }
  }

  lemma NoDeadlock(s: State)
    requires Conserved(s)
    ensures !DeadlockSuspected(s)
  {
    HoldersAtLeastCollisions(s.runningColls, s.executing);
  }
}
