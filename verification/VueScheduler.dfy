/**
 The flush of the watcher queue.  Watchers that run may queue watchers, themselves included; the
 queue they are spliced into is shown to behave like a set from which the least id is taken.
 What the running watchers queue is given run by run; since they may go on for ever, a flush is
 followed for as many runs as are given.
 */
module VueScheduler {
  type Id = nat

  const MAX_UPDATE_COUNT := 100

  datatype Outcome = Finished | Broken | StillRunning

  // ---------- queues ----------

  function SetOf(s: seq<Id>): set<Id> {
    set x | x in s
  }

  ghost predicate Increasing(s: seq<Id>) {
    forall i, j :: 0 <= i < j < |s| ==> s[i] < s[j]
  }

  ghost predicate NoRepeats(s: seq<Id>) {
    forall i, j :: 0 <= i < j < |s| ==> s[i] != s[j]
  }

  function Insert(x: Id, s: seq<Id>): seq<Id> {
    if s == [] then [x] else if x <= s[0] then [x] + s else [s[0]] + Insert(x, s[1..])
  }

  /** The queue in ascending order. */
  function Sorted(s: seq<Id>): seq<Id> {
    if s == [] then [] else Insert(s[0], Sorted(s[1..]))
  }

  lemma PrependIncreasing(x: Id, s: seq<Id>)
    requires Increasing(s) && forall y :: y in s ==> x < y
    ensures Increasing([x] + s)
  {
    assert forall j :: 0 <= j < |s| ==> s[j] in s;
  }

  lemma PrependSet(x: Id, s: seq<Id>)
    ensures SetOf([x] + s) == {x} + SetOf(s)
  {
  }

  lemma FirstIsLeast(s: seq<Id>)
    requires Increasing(s) && s != []
    ensures forall y :: y in s[1..] ==> s[0] < y
    ensures Increasing(s[1..]) && s == [s[0]] + s[1..]
  {
  }

  lemma {:induction false} InsertIncreasing(x: Id, s: seq<Id>)
    requires Increasing(s) && x !in s
    ensures Increasing(Insert(x, s)) && SetOf(Insert(x, s)) == SetOf(s) + {x}
  {
    if s != [] {
      FirstIsLeast(s);
      if x > s[0] {
        InsertIncreasing(x, s[1..]);
        var r := Insert(x, s[1..]);
        assert forall y :: y in r ==> y in SetOf(r);
        PrependIncreasing(s[0], r);
        PrependSet(s[0], r);
        PrependSet(s[0], s[1..]);
      } else {
        PrependIncreasing(x, s);
        PrependSet(x, s);
      }
    }
  }

  lemma {:induction false} SortedIncreasing(s: seq<Id>)
    requires NoRepeats(s)
    ensures Increasing(Sorted(s)) && SetOf(Sorted(s)) == SetOf(s)
  {
    if s != [] {
      SortedIncreasing(s[1..]);
      assert SetOf(s) == {s[0]} + SetOf(s[1..]);
      assert forall x :: x in Sorted(s[1..]) ==> x in SetOf(s[1..]);
      InsertIncreasing(s[0], Sorted(s[1..]));
    }
  }

  /** A watcher put between those with smaller ids and those with larger ones. */
  lemma SplicedIncreasing(front: seq<Id>, w: Id, back: seq<Id>)
    requires Increasing(front + back) && w !in front + back
    requires (forall x :: x in front ==> x <= w) && (forall x :: x in back ==> x > w)
    ensures Increasing(front + [w] + back) && SetOf(front + [w] + back) == SetOf(front + back) + {w}
  {
    var s, t := front + back, front + [w] + back;
    forall i, j | 0 <= i < j < |t|
      ensures t[i] < t[j]
    {
      var i', j' := if i <= |front| then i else i - 1, if j <= |front| then j else j - 1;
      assert i != |front| ==> t[i] == s[i'] && s[i'] in s;
      assert j != |front| ==> t[j] == s[j'] && s[j'] in s;
      assert i < |front| ==> t[i] in front;
      assert j > |front| ==> t[j] in back;
    }
    assert SetOf(t) == SetOf(front) + {w} + SetOf(back) && SetOf(s) == SetOf(front) + SetOf(back);
  }

  // ---------- what a flush is to do ----------

  /** The watchers waiting before run `k`. */
  ghost function Pending(first: set<Id>, log: seq<Id>, calls: seq<seq<Id>>, k: nat): set<Id>
    requires k <= |log| <= |calls|
  {
    if k == 0 then first else (Pending(first, log, calls, k - 1) - {log[k - 1]}) + SetOf(calls[k - 1])
  }

  ghost predicate Least(x: Id, s: set<Id>) {
    x in s && forall y :: y in s ==> x <= y
  }

  /** Every run is of the least id waiting. */
  ghost predicate LeastFirst(first: set<Id>, log: seq<Id>, calls: seq<seq<Id>>)
    requires |log| <= |calls|
  {
    forall k :: 0 <= k < |log| ==> Least(log[k], Pending(first, log, calls, k))
  }

  /** How many of the first `n` runs of a watcher have queued that watcher again. */
  ghost function Requeued(log: seq<Id>, calls: seq<seq<Id>>, id: Id, n: nat): nat
    requires n <= |log| <= |calls|
  {
    if n == 0 then 0 else Requeued(log, calls, id, n - 1) + if log[n - 1] == id && id in calls[n - 1] then 1 else 0
  }

  lemma {:induction false} PendingExtends(first: set<Id>, log: seq<Id>, more: seq<Id>, calls: seq<seq<Id>>, k: nat)
    requires k <= |log| && |log + more| <= |calls|
    ensures Pending(first, log + more, calls, k) == Pending(first, log, calls, k)
  {
    if k > 0 {
      PendingExtends(first, log, more, calls, k - 1);
    }
  }

  lemma {:induction false} RequeuedExtends(log: seq<Id>, more: seq<Id>, calls: seq<seq<Id>>, id: Id, n: nat)
    requires n <= |log| && |log + more| <= |calls|
    ensures Requeued(log + more, calls, id, n) == Requeued(log, calls, id, n)
  {
    if n > 0 {
      RequeuedExtends(log, more, calls, id, n - 1);
    }
  }

  /** What is waiting before run `k` is run in run `k` or later, once nothing is waiting any more. */
  lemma {:induction false} WaitingIsRun(first: set<Id>, log: seq<Id>, calls: seq<seq<Id>>, k: nat, w: Id)
    requires k <= |log| <= |calls| && w in Pending(first, log, calls, k) && Pending(first, log, calls, |log|) == {}
    ensures exists j :: k <= j < |log| && log[j] == w
    decreases |log| - k
  {
    if k < |log| && log[k] != w {
      assert w in Pending(first, log, calls, k + 1);
      WaitingIsRun(first, log, calls, k + 1, w);
    }
  }

  /** In a flush that has come to its end, whatever run `k` queued has been run after it. */
  lemma QueuedIsRunLater(first: set<Id>, log: seq<Id>, calls: seq<seq<Id>>, k: nat, w: Id)
    requires k < |log| <= |calls| && w in calls[k] && Pending(first, log, calls, |log|) == {}
    ensures exists j :: k < j < |log| && log[j] == w
  {
    assert w in Pending(first, log, calls, k + 1);
    WaitingIsRun(first, log, calls, k + 1, w);
  }

  // ---------- the scheduler ----------

  class Scheduler {
    var queue: seq<Id>
    var has: set<Id>
    var circular: map<Id, nat>
    var waiting: bool
    var flushing: bool
    var index: nat

    /** Between flushes. */
    ghost predicate Resting()
      reads this
    {
      !flushing && NoRepeats(queue) && has == SetOf(queue) && circular == map[] && (queue != [] ==> waiting)
    }

    /** While the watcher at `index` is running. */
    ghost predicate InRun()
      reads this
    {
      flushing && waiting && index < |queue| && Increasing(queue[index + 1..]) && has == SetOf(queue[index + 1..])
    }

    constructor ()
      ensures Resting() && queue == []
    {
      queue, has, circular, waiting, flushing, index := [], {}, map[], false, false, 0;
    }

    /** Splices a watcher in behind those with smaller ids and behind the one running. */
    method SpliceIn(w: Id)
      requires index < |queue| && Increasing(queue[index + 1..]) && w !in queue[index + 1..]
      modifies this`queue
      ensures |queue| == |old(queue)| + 1 && queue[..index + 1] == old(queue[..index + 1])
      ensures Increasing(queue[index + 1..])
      ensures SetOf(queue[index + 1..]) == SetOf(old(queue[index + 1..])) + {w}
    {
      var i := |queue| - 1;
      while i >= 0 && queue[i] > w
        invariant -1 <= i < |queue|
        invariant forall j :: i < j < |queue| ==> queue[j] > w
      {
        i := i - 1;
      }
      var at := (if i > index then i else index) + 1;
      Spliced(queue, index, at, w, i);
      queue := queue[..at] + [w] + queue[at..];
    }

    /** Queues a watcher unless it is waiting already; during a flush it is spliced in by its id, behind the one
        running. */
    method QueueWatcher(w: Id)
      requires Resting() || InRun()
      modifies this`queue, this`has, this`waiting
      ensures old(Resting()) ==> Resting() && queue == if w in old(has) then old(queue) else old(queue) + [w]
      ensures old(InRun()) ==> InRun() && queue[..index + 1] == old(queue[..index + 1])
      ensures has == old(has) + {w}
    {
      if w !in has {
        has := has + {w};
        if !flushing {
          assert SetOf(queue + [w]) == SetOf(queue) + {w};
          queue := queue + [w];
        } else {
          SpliceIn(w);
        }
        if !waiting {
          waiting := true;
        }
      }
    }

    /** What one watcher, while it runs, queues. */
    method RunWatcher(call: seq<Id>)
      requires InRun()
      modifies this`queue, this`has, this`waiting
      ensures InRun() && queue[..index + 1] == old(queue[..index + 1]) && has == old(has) + SetOf(call)
    {
      for i := 0 to |call|
        invariant InRun() && queue[..index + 1] == old(queue[..index + 1]) && has == old(has) + SetOf(call[..i])
      {
        QueueWatcher(call[i]);
        assert call[..i + 1] == call[..i] + [call[i]];
        assert SetOf(call[..i + 1]) == SetOf(call[..i]) + {call[i]};
      }
      assert call[..|call|] == call;
    }

    /** Between two runs of a flush: what is left of the queue is in order, and it is what is waiting. */
    ghost predicate BetweenRuns(first: set<Id>, log: seq<Id>, calls: seq<seq<Id>>)
      requires |log| <= |calls|
      reads this`queue, this`has, this`waiting, this`flushing, this`index
    {
      && flushing && (queue != [] ==> waiting) && index <= |queue|
      && Increasing(queue[index..]) && has == SetOf(queue[index..]) == Pending(first, log, calls, |log|)
      && LeastFirst(first, log, calls)
    }

    ghost predicate Counted(log: seq<Id>, calls: seq<seq<Id>>)
      requires |log| <= |calls|
      reads this`circular
    {
      CountedIn(circular, log, calls)
    }

    /** Starts a flush: the queue is put in order. */
    method StartFlush(ghost calls: seq<seq<Id>>)
      requires Resting()
      modifies this`queue, this`flushing, this`index
      ensures BetweenRuns(SetOf(old(queue)), [], calls) && Counted([], calls)
    {
      SortedIncreasing(queue);
      flushing := true;
      queue := Sorted(queue);
      index := 0;
      assert queue[0..] == queue;
      assert SetOf([]) == {};
    }

    /** The watcher at `index` is run, queueing what it will. */
    method RunFirst(call: seq<Id>) returns (id: Id)
      requires flushing && (queue != [] ==> waiting) && index < |queue| && Increasing(queue[index..])
      requires has == SetOf(queue[index..])
      modifies this`queue, this`has, this`waiting
      ensures id == old(queue[index]) && Least(id, old(has)) && InRun() && has == old(has) - {id} + SetOf(call)
    {
      id := queue[index];
      TakeFirst(queue, index);
      has := has - {id};
      RunWatcher(call);
    }

    /** Counts the run of a watcher that has queued itself; tells if that has happened too often. */
    method Count(id: Id, ghost log: seq<Id>, ghost calls: seq<seq<Id>>) returns (tooOften: bool)
      requires |log| < |calls| && Counted(log, calls) && NotTooOften(log, calls) && (id in has <==> id in calls[|log|])
      modifies this`circular
      ensures Counted(log + [id], calls) && (tooOften <==> !NotTooOften(log + [id], calls))
    {
      RequeuedOneMore(log, id, calls);
      tooOften := false;
      if id in has {
        circular := circular[id := (if id in circular then circular[id] else 0) + 1];
        tooOften := circular[id] > MAX_UPDATE_COUNT;
      }
      CountedOneMore(log, id, calls, old(circular), circular);
      TooOftenNow(log, id, calls, tooOften, id in circular && circular[id] > MAX_UPDATE_COUNT);
    }

    /** The watcher at `index` is run, and the next one comes up. */
    method RunAtIndex(calls: seq<seq<Id>>, log: seq<Id>, ghost first: set<Id>) returns (id: Id)
      requires |log| < |calls| && index < |queue| && BetweenRuns(first, log, calls)
      modifies this`queue, this`has, this`waiting, this`index
      ensures BetweenRuns(first, log + [id], calls) && (id in has <==> id in calls[|log|])
    {
      id := RunFirst(calls[|log|]);
      LogOneMore(first, log, id, calls);
      SelfRequeued(id, calls[|log|], Pending(first, log, calls, |log|));
      index := index + 1;
    }

    /** One turn of the flush. */
    method RunNext(calls: seq<seq<Id>>, log: seq<Id>, ghost first: set<Id>) returns (id: Id, tooOften: bool)
      requires |log| < |calls| && index < |queue|
      requires BetweenRuns(first, log, calls) && Counted(log, calls) && NotTooOften(log, calls)
      modifies this
      ensures BetweenRuns(first, log + [id], calls) && Counted(log + [id], calls)
      ensures tooOften <==> !NotTooOften(log + [id], calls)
    {
      id := RunAtIndex(calls, log, first);
      tooOften := Count(id, log, calls);
    }

    /** Runs the watchers in the queue until none is left, one has queued itself too often, or the runs given are used
        up. */
    method RunQueue(calls: seq<seq<Id>>, ghost first: set<Id>) returns (log: seq<Id>, outcome: Outcome)
      requires BetweenRuns(first, [], calls) && Counted([], calls)
      modifies this
      ensures |log| <= |calls| && LeastFirst(first, log, calls)
      ensures outcome == Finished ==> Pending(first, log, calls, |log|) == {}
      ensures outcome == StillRunning ==> |log| == |calls| && Pending(first, log, calls, |log|) != {}
      ensures outcome == Broken <==> !NotTooOften(log, calls)
    {
      log, outcome := [], Finished;
      var tooOften := false;
      while index < |queue| && |log| < |calls| && !tooOften
        invariant |log| <= |calls| && BetweenRuns(first, log, calls) && Counted(log, calls)
        invariant tooOften <==> !NotTooOften(log, calls)
        decreases |calls| - |log|
      {
        var id;
        id, tooOften := RunNext(calls, log, first);
        log := log + [id];
      }
      EmptyOrNot(queue, index);
      outcome := if tooOften then Broken else if index < |queue| then StillRunning else Finished;
    }

    method Reset()
      modifies this
      ensures Resting() && queue == [] && !waiting
    {
      queue, has, circular, waiting, flushing := [], {}, map[], false, false;
    }

    /** A flush; the log tells which watchers were run. */
    method Flush(calls: seq<seq<Id>>) returns (log: seq<Id>, outcome: Outcome)
      requires Resting()
      modifies this
      ensures |log| <= |calls| && LeastFirst(SetOf(old(queue)), log, calls)
      ensures outcome == Finished ==> Pending(SetOf(old(queue)), log, calls, |log|) == {}
      ensures outcome == StillRunning ==> |log| == |calls| && Pending(SetOf(old(queue)), log, calls, |log|) != {}
      ensures outcome == Broken <==> !NotTooOften(log, calls)
      ensures outcome != StillRunning ==> Resting() && queue == [] && !waiting
    {
      ghost var first := SetOf(queue);
      StartFlush(calls);
      log, outcome := RunQueue(calls, first);
      if outcome != StillRunning {
        Reset();
      }
    }
  }

  /** No watcher has queued itself again more often than is allowed. */
  ghost predicate NotTooOften(log: seq<Id>, calls: seq<seq<Id>>)
    requires |log| <= |calls|
  {
    forall id :: Requeued(log, calls, id, |log|) <= MAX_UPDATE_COUNT
  }

  /** A watcher is waiting after its own run exactly if it has queued itself. */
  lemma SelfRequeued(id: Id, call: seq<Id>, pending: set<Id>)
    ensures id in (pending - {id}) + SetOf(call) <==> id in call
  {
  }

  ghost predicate CountedIn(circular: map<Id, nat>, log: seq<Id>, calls: seq<seq<Id>>)
    requires |log| <= |calls|
  {
    forall id: Id :: (if id in circular then circular[id] else 0) == Requeued(log, calls, id, |log|)
  }

  lemma RequeuedOneMore(log: seq<Id>, id: Id, calls: seq<seq<Id>>)
    requires |log| < |calls|
    ensures forall x ::
      Requeued(log + [id], calls, x, |log + [id]|) == Requeued(log, calls, x, |log|) + if x == id
        && id in calls[|log|] then 1 else 0
  {
    forall x
      ensures Requeued(log + [id], calls, x, |log + [id]|) == Requeued(log, calls, x, |log|) + if x == id
        && id in calls[|log|] then 1 else 0
    {
      RequeuedExtends(log, [id], calls, x, |log|);
    }
  }

  lemma CountedOneMore(log: seq<Id>, id: Id, calls: seq<seq<Id>>, before: map<Id, nat>, after: map<Id, nat>)
    requires |log| < |calls| && CountedIn(before, log, calls)
    requires after == if id in calls[|log|] then before[id := (if id in before then before[id] else 0) + 1] else before
    ensures CountedIn(after, log + [id], calls)
  {
    RequeuedOneMore(log, id, calls);
  }

  lemma TooOftenNow(log: seq<Id>, id: Id, calls: seq<seq<Id>>, tooOften: bool, over: bool)
    requires |log| < |calls| && NotTooOften(log, calls)
    requires over <==> Requeued(log + [id], calls, id, |log + [id]|) > MAX_UPDATE_COUNT
    requires tooOften <==> id in calls[|log|] && over
    ensures tooOften <==> !NotTooOften(log + [id], calls)
  {
    RequeuedOneMore(log, id, calls);
  }

  lemma EmptyOrNot(queue: seq<Id>, index: nat)
    requires index <= |queue|
    ensures SetOf(queue[index..]) == {} <==> index == |queue|
  {
    assert index < |queue| ==> queue[index..][0] in SetOf(queue[index..]);
  }

  /** The first of what is left of the queue is the least, and without it the rest is still in order. */
  lemma TakeFirst(queue: seq<Id>, index: nat)
    requires index < |queue| && Increasing(queue[index..])
    ensures Increasing(queue[index + 1..]) && SetOf(queue[index + 1..]) == SetOf(queue[index..]) - {queue[index]}
    ensures Least(queue[index], SetOf(queue[index..]))
  {
    var tail := queue[index..];
    assert tail == [queue[index]] + queue[index + 1..];
    forall y | y in tail
      ensures queue[index] <= y
    {
      var j :| 0 <= j < |tail| && tail[j] == y;
      assert tail[0] <= tail[j];
    }
  }

  lemma LogOneMore(first: set<Id>, log: seq<Id>, id: Id, calls: seq<seq<Id>>)
    requires |log| < |calls| && LeastFirst(first, log, calls) && Least(id, Pending(first, log, calls, |log|))
    ensures LeastFirst(first, log + [id], calls)
    ensures Pending(first, log + [id], calls, |log| + 1) == (Pending(first, log, calls, |log|) - {id})
      + SetOf(calls[|log|])
  {
    forall k | 0 <= k < |log + [id]|
      ensures Least((log + [id])[k], Pending(first, log + [id], calls, k))
    {
      PendingExtends(first, log, [id], calls, k);
    }
    PendingExtends(first, log, [id], calls, |log|);
  }

  /** The watchers in front of the place are those with smaller ids, those behind it those with larger ones. */
  lemma SplicePlace(queue: seq<Id>, index: nat, at: nat, w: Id, i: int)
    requires index < |queue| && Increasing(queue[index + 1..])
    requires -1 <= i < |queue| && at == (if i > index then i else index) + 1
    requires (forall j :: i < j < |queue| ==> queue[j] > w) && (i >= 0 ==> queue[i] <= w)
    ensures var front, back := queue[index + 1..at], queue[at..];
      (forall x :: x in front ==> x <= w) && (forall x :: x in back ==> x > w)
  {
    var tail, front := queue[index + 1..], queue[index + 1..at];
    forall x | x in front
      ensures x <= w
    {
      var j :| 0 <= j < |front| && front[j] == x;
      assert front[j] == tail[j] && queue[i] == tail[i - index - 1];
    }
  }

  /** Where a watcher is spliced in, the part of the queue still to be run stays in order. */
  lemma Spliced(queue: seq<Id>, index: nat, at: nat, w: Id, i: int)
    requires index < |queue| && Increasing(queue[index + 1..]) && w !in queue[index + 1..]
    requires -1 <= i < |queue| && at == (if i > index then i else index) + 1
    requires (forall j :: i < j < |queue| ==> queue[j] > w) && (i >= 0 ==> queue[i] <= w)
    ensures var queue' := queue[..at] + [w] + queue[at..];
      queue'[..index + 1] == queue[..index + 1] && Increasing(queue'[index + 1..])
      && SetOf(queue'[index + 1..]) == SetOf(queue[index + 1..]) + {w}
  {
    var front, back := queue[index + 1..at], queue[at..];
    SplicePlace(queue, index, at, w, i);
    assert queue[index + 1..] == front + back;
    SplicedIncreasing(front, w, back);
    SplicedParts(queue, index, at, w);
  }

  lemma SplicedParts(queue: seq<Id>, index: nat, at: nat, w: Id)
    requires index < at <= |queue|
    ensures var queue' := queue[..at] + [w] + queue[at..];
      queue'[..index + 1] == queue[..index + 1] && queue'[index + 1..] == queue[index + 1..at] + [w] + queue[at..]
  {
  }
}
