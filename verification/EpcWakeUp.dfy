/**
 No wake-up is lost at the grain of the lock, though the exclusion promises are: whenever no thread is on its way to a
 queue, nothing is left lying that could be started, and unfinished work means that something is with the executor.
 */
module EpcWakeUp {
  import opened Wrappers
  import opened Epc
  import A = EpcAtomic
  import L = EpcLockGranular

  /** A queued task that could be started is watched: by a thread on its way to the main queue, or by enough tasks that
      are with the executor or have just ended, or by the thread of a top task that has ended. */
  ghost predicate QueueWatched(m: L.Machine) {
    var s := m.pool;
    s.topTask.None? && s.mainQueue != [] && m.peeking == 0 && m.scanning == 0 ==>
      s.runningTaskNum + |m.finishing| >= s.maxPoolSize || exists t :: t in m.finishing && t.IsTop()
  }

  /** A top task that waits for the others is watched by one of them, or by a thread on its way. */
  ghost predicate TopWatched(m: L.Machine) {
    TopIsPending(m.pool) && m.peeking == 0 && m.scanning == 0 && m.finishing == {} ==> m.pool.executing != {}
  }

  /** Tasks that wait for a collision are watched by one that has it, or whose thread has yet to look. */
  ghost predicate WaitersWatched(s: State, finishing: set<Task>) {
    forall c :: c in s.waiting ==> exists t :: t in s.executing + finishing && t.co == Some(c)
  }

  ghost predicate FinishingEnded(m: L.Machine) {
    forall t :: t in m.finishing ==> t in Ended(m.pool.log) && t.co.Some?
  }

  ghost predicate Watched(m: L.Machine) {
    && Conserved(m.pool) && m.pool.maxPoolSize > 0 && FinishingEnded(m)
    && QueueWatched(m) && TopWatched(m) && WaitersWatched(m.pool, m.finishing)
  }

  // ---------- what the look through the main queue leaves ----------

  ghost predicate PendingBeside(s: State) {
    TopIsPending(s) ==> s.executing != {}
  }

  lemma {:induction false} PollOneWatched(s: State, finishing: set<Task>)
    requires Conserved(s) && CanPoll(s) && WaitersWatched(s, finishing)
    ensures PendingBeside(PollOne(s)) && WaitersWatched(PollOne(s), finishing)
  {
    var u := s.mainQueue[0];
    if u.IsTop() && s.runningTaskNum > 0 {
      assert s.executing != {};
    }
    if u.IsKeyed() && u.co.value in s.runningColls {
      assert s.runningColls[u.co.value] in s.executing;
    }
    forall c | c in PollOne(s).waiting
      ensures exists t :: t in PollOne(s).executing + finishing && t.co == Some(c)
    {
      if c in s.waiting {
        var t :| t in s.executing + finishing && t.co == Some(c);
        assert t in PollOne(s).executing + finishing;
      } else {
        var t := s.runningColls[c];
        assert t in PollOne(s).executing + finishing && t.co == Some(c);
      }
    }
  }

  lemma {:induction false} ScanWatched(s: State, finishing: set<Task>)
    requires Conserved(s) && PendingBeside(s) && WaitersWatched(s, finishing)
    ensures !CanPoll(Scan(s)) && PendingBeside(Scan(s)) && WaitersWatched(Scan(s), finishing)
    decreases |s.mainQueue|
  {
    if CanPoll(s) {
      PollOneWatched(s, finishing);
      PollOneConserved(s);
      hide Conserved, PendingBeside, WaitersWatched, PollOne;
      ScanWatched(PollOne(s), finishing);
    }
  }

  lemma {:induction false} LockedScanWatched(s: State, finishing: set<Task>)
    requires Conserved(s) && WaitersWatched(s, finishing)
    ensures var s' := LockedScan(s); !CanPoll(s') && PendingBeside(s') && WaitersWatched(s', finishing)
  {
    var s1 := StartPendingTop(s);
    StartPendingTopConserved(s);
    assert s.runningTaskNum > 0 ==> s.executing != {};
    forall c | c in s1.waiting ensures exists t :: t in s1.executing + finishing && t.co == Some(c) {
      var t :| t in s.executing + finishing && t.co == Some(c);
      assert t in s1.executing + finishing;
    }
    ScanWatched(s1, finishing);
  }

  // ---------- every step keeps the watch ----------

  lemma {:induction false} ScanMainWatched(m: L.Machine)
    requires Watched(m) && m.scanning > 0
    ensures Watched(L.Apply(m, L.ScanMain))
  {
    LockedScanConserved(m.pool);
    A.LockedScanEndsNothing(m.pool);
    LockedScanWatched(m.pool, m.finishing);
    LockedScanKeepsSize(m.pool);
    hide Conserved, WaitersWatched, LockedScan, Ended, Scan, StartPendingTop, Coherent;
  }

  lemma {:induction false} LockedScanKeepsSize(s: State)
    ensures LockedScan(s).maxPoolSize == s.maxPoolSize
  {
    L.ScanKeepsSize(StartPendingTop(s));
  }

  /** A task that has ended is no longer with the executor. */
  lemma {:induction false} EndedOnce(s: State, t: Task)
    requires Conserved(s) && t in Ended(s.log)
    ensures t !in s.executing
  {
    PushedOnce(s.pushed, t);
    assert Places(s, t) + multiset{}[t] == multiset(s.pushed)[t];
  }

  lemma {:induction false} TaskEnds(s: State, t: Task, finishing: set<Task>)
    requires Conserved(s) && t in s.executing && forall u :: u in finishing ==> u in Ended(s.log)
    ensures Conserved(EndTask(s, t)) && Ended(EndTask(s, t).log) == Ended(s.log) + [t]
    ensures t !in finishing && |finishing + {t}| == |finishing| + 1
    ensures t.IsTop() ==> s.topTask == Some(t)
  {
    EndTaskConserved(s, t);
    EndedAppend(s.log, End(t));
    if t in finishing {
      EndedOnce(s, t);
    }
  }

  lemma {:induction false} FinishWatched(m: L.Machine, t: Task)
    requires Watched(m) && t in m.pool.executing
    ensures Watched(L.Apply(m, L.Finish(t)))
  {
    var m' := L.Apply(m, L.Finish(t));
    TaskEnds(m.pool, t, m.finishing);
    FinishKeepsWaiters(m, t);
    hide Ended, Places, WaitersWatched, Conserved;
    assert t.co.Some? ==> t in m'.finishing;
  }

  lemma {:induction false} FinishKeepsWaiters(m: L.Machine, t: Task)
    requires WaitersWatched(m.pool, m.finishing) && t in m.pool.executing
    ensures var m' := L.Apply(m, L.Finish(t)); WaitersWatched(m'.pool, m'.finishing)
  {
    var m' := L.Apply(m, L.Finish(t));
    forall c | c in m'.pool.waiting ensures exists u :: u in m'.pool.executing + m'.finishing && u.co == Some(c) {
      var u :| u in m.pool.executing + m.finishing && u.co == Some(c);
      assert u in m'.pool.executing + m'.finishing;
    }
  }

  lemma {:induction false} WaitingStarts(s: State, c: Collision)
    requires Conserved(s) && c in s.waiting
    ensures var s' := StartWaiting(s, c);
      && Conserved(s') && s'.runningTaskNum == s.runningTaskNum + 1 && s'.executing != {}
      && s'.mainQueue == s.mainQueue && s'.topTask == s.topTask && s'.maxPoolSize == s.maxPoolSize
      && Ended(s'.log) == Ended(s.log)
    ensures c != TOP_COLLISION
  {
    var u, s' := s.waiting[c][0], StartWaiting(s, c);
    StartWaitingConserved(s, c);
    EndedAppend(s.log, Begin(u));
    assert u in s'.executing;
  }

  /** A waiting task begins in place of the one that has ended. */
  lemma {:induction false} CheckStartsWaiting(m: L.Machine, t: Task)
    requires Watched(m) && L.Enabled(m, L.CheckCollisions(t)) && t.co.value in m.pool.waiting
    ensures Watched(L.Apply(m, L.CheckCollisions(t)))
  {
    CheckKeepsWaiters(m, t);
    WaitingStarts(m.pool, t.co.value);
    WatchedOn(m, StartWaiting(m.pool, t.co.value), t);
  }

  /** The watch is kept by any state that has one task more running. */
  lemma {:induction false} WatchedOn(m: L.Machine, s: State, t: Task)
    requires Watched(m) && t in m.finishing && !t.IsTop()
    requires Conserved(s) && s.runningTaskNum == m.pool.runningTaskNum + 1 && s.executing != {}
    requires s.mainQueue == m.pool.mainQueue && s.topTask == m.pool.topTask && s.maxPoolSize == m.pool.maxPoolSize
    requires Ended(s.log) == Ended(m.pool.log) && WaitersWatched(s, m.finishing - {t})
    ensures Watched(m.(pool := s, finishing := m.finishing - {t}))
  {
    hide Ended, WaitersWatched, Conserved;
    assert |m.finishing - {t}| == |m.finishing| - 1;
    forall u | u in m.finishing && u.IsTop() ensures u in m.finishing - {t} {
    }
  }

  /** Where nobody waits the thread goes on to the main queue. */
  lemma {:induction false} CheckGoesOn(m: L.Machine, t: Task)
    requires Watched(m) && L.Enabled(m, L.CheckCollisions(t)) && t.co.value !in m.pool.waiting
    ensures Watched(L.Apply(m, L.CheckCollisions(t)))
  {
    CheckKeepsWaiters(m, t);
    hide Ended, Places, WaitersWatched, Conserved;
  }

  lemma {:induction false} CheckCollisionsWatched(m: L.Machine, t: Task)
    requires Watched(m) && L.Enabled(m, L.CheckCollisions(t))
    ensures Watched(L.Apply(m, L.CheckCollisions(t)))
  {
    hide Watched, L.Apply;
    if t.co.value in m.pool.waiting {
      CheckStartsWaiting(m, t);
    } else {
      CheckGoesOn(m, t);
    }
  }

  lemma {:induction false} CheckKeepsWaiters(m: L.Machine, t: Task)
    requires Watched(m) && L.Enabled(m, L.CheckCollisions(t))
    ensures var m' := L.Apply(m, L.CheckCollisions(t)); WaitersWatched(m'.pool, m'.finishing)
  {
    var m' := L.Apply(m, L.CheckCollisions(t));
    forall c | c in m'.pool.waiting ensures exists u :: u in m'.pool.executing + m'.finishing && u.co == Some(c) {
      if Some(c) == t.co {
        var u := m.pool.waiting[c][0];
        assert u.co == Some(c) && u in m'.pool.executing + m'.finishing;
      } else {
        var u :| u in m.pool.executing + m.finishing && u.co == Some(c);
        assert u in m'.pool.executing + m'.finishing;
      }
    }
  }

  lemma {:induction false} StepWatched(m: L.Machine, step: L.Step)
    requires Watched(m) && L.Enabled(m, step)
    ensures Watched(L.Apply(m, step))
  {
    match step
    case Push(co) =>
      OfferConserved(m.pool, co);
      hide Conserved;
    case PeekReturn =>
      assert m.pool.executing != {};
      hide Conserved;
    case PeekPass =>
      hide Conserved;
    case ScanMain => ScanMainWatched(m);
    case Finish(t) => FinishWatched(m, t);
    case CheckCollisions(t) => CheckCollisionsWatched(m, t);
    case RepairDeadlock(order) => NoDeadlock(m.pool);
  }

  lemma {:induction false} RunWatched(maxPoolSize: nat, steps: seq<L.Step>)
    requires L.IsRun(maxPoolSize, steps) && maxPoolSize > 0
    ensures Watched(L.After(maxPoolSize, steps))
    decreases |steps|
  {
    if steps == [] {
      InitConserved(maxPoolSize);
    } else {
      var n := |steps| - 1;
      RunWatched(maxPoolSize, steps[..n]);
      StepWatched(L.After(maxPoolSize, steps[..n]), steps[n]);
    }
  }

  // ---------- nothing is left lying ----------

  /** No thread is on its way to one of the queues. */
  predicate AtRest(m: L.Machine) {
    m.peeking == 0 && m.scanning == 0 && m.finishing == {}
  }

  /** What could be started has been, and unfinished work means that something is with the executor. */
  ghost predicate NothingLeftLying(s: State) {
    && (s.mainQueue == [] || s.topTask.Some? || s.runningTaskNum >= s.maxPoolSize)
    && (TopIsPending(s) ==> s.executing != {})
    && (forall c :: c in s.waiting ==> exists t :: t in s.executing && t.co == Some(c))
    && ((exists t :: t in s.pushed && End(t) !in s.log) ==> s.executing != {})
  }

  lemma {:induction false} WatchedAtRest(m: L.Machine)
    requires Watched(m) && AtRest(m)
    ensures NothingLeftLying(m.pool)
  {
    var s := m.pool;
    assert s.executing + m.finishing == s.executing;
    if s.executing == {} {
      assert s.mainQueue == [];
      forall t | t in s.pushed ensures End(t) in s.log {
        A.NowhereElse(s, multiset{}, t);
      }
    }
  }

  /** Whatever the interleaving, no wake-up is lost. */
  lemma {:induction false} NoLostWakeUp(maxPoolSize: nat, steps: seq<L.Step>)
    requires L.IsRun(maxPoolSize, steps) && maxPoolSize > 0
    ensures AtRest(L.After(maxPoolSize, steps)) ==> NothingLeftLying(L.After(maxPoolSize, steps).pool)
  {
    RunWatched(maxPoolSize, steps);
    if AtRest(L.After(maxPoolSize, steps)) {
      WatchedAtRest(L.After(maxPoolSize, steps));
    }
  }
}
