/**
 The pool itself: its fields, and the sections of its code as methods on them.
 Each method does to the fields what the function of the same name in `Epc` does
 to their value, so what is proved of runs of those functions holds of the pool.
 */
module EpcThreadPool {
  import opened Wrappers
  import opened Epc

  class EpcThreadPool {
    const maxPoolSize: nat
    var mainQueue: seq<Task>
    var waitingCollsQueueMap: map<Collision, seq<Task>>
    var runningCollsMap: map<Collision, Task>
    var runningTaskNum: int
    var topTask: Option<Task>
    var created: nat  // how many tasks were made; the next one is told apart by it

    // What the executor was handed and has not finished, and the history of the pool.
    ghost var executing: set<Task>
    ghost var pushed: seq<Task>
    ghost var log: seq<Event>

    ghost function Abs(): State
      reads this
    {
      State(maxPoolSize, mainQueue, waitingCollsQueueMap, runningCollsMap, runningTaskNum, topTask, executing, pushed,
        log)
    }

    ghost predicate Valid()
      reads this
    {
      Epc.Conserved(Abs()) && maxPoolSize > 0 && created == |pushed|
    }

    /** `defaultPool` and `defaultMax` stand for the sizes taken from the number of processors. */
    constructor (pool: int, max: int, defaultPool: nat, defaultMax: nat)
      requires defaultPool > 0 && defaultMax > 0
      ensures Valid() && Abs() == Epc.Init(maxPoolSize)
      ensures maxPoolSize >= (if pool < 1 then defaultPool else pool)
      ensures maxPoolSize == (if pool < 1 then defaultPool else pool)
        || maxPoolSize == (if max < 1 then defaultMax else max)
      ensures maxPoolSize >= (if max < 1 then defaultMax else max)
    {
      var corePoolSize := if pool < 1 then defaultPool else pool;
      var size := if max < 1 then defaultMax else max;
      maxPoolSize := if size < corePoolSize then corePoolSize else size;
      mainQueue, waitingCollsQueueMap, runningCollsMap := [], map[], map[];
      runningTaskNum, topTask, created := 0, None, 0;
      executing, pushed, log := {}, [], [];
      new;
      Epc.InitConserved(maxPoolSize);
    }

    method PushEvent(collision: Option<Collision>)
      requires Valid()
      modifies this
      ensures Valid()
      ensures Abs() == Epc.CheckMainQueue(Epc.Offer(old(Abs()), collision))
    {
      OfferTask(collision);
      CheckMainQueue();
      var _ := CheckDeadlock();
    }

    method OfferTask(collision: Option<Collision>)
      requires Valid()
      modifies this
      ensures Valid()
      ensures Abs() == Epc.Offer(old(Abs()), collision)
    {
      ghost var was := Abs();
      var task := Task(created, collision);
      created := created + 1;
      mainQueue := mainQueue + [task];
      pushed := pushed + [task];
      Epc.OfferConserved(was, collision);
    }

    method BeginTask(task: Task)
      modifies this
      ensures Abs() == Epc.BeginTask(old(Abs()), task)
      ensures created == old(created)
    {
      runningTaskNum := runningTaskNum + 1;
      if task.co.Some? && task.co.value != TOP_COLLISION {
        runningCollsMap := runningCollsMap[task.co.value := task];
      }
      executing := executing + {task};
      log := log + [Begin(task)];
    }

    method EndTask(task: Task)
      modifies this
      ensures Abs() == Epc.EndTask(old(Abs()), task)
      ensures created == old(created)
    {
      runningTaskNum := runningTaskNum - 1;
      if task.co.Some? {
        if task.co.value == TOP_COLLISION {
          topTask := None;
        } else {
          runningCollsMap := runningCollsMap - {task.co.value};
        }
      }
      executing := executing - {task};
      log := log + [End(task)];
    }

    method CheckMainQueue()
      requires Valid()
      modifies this
      ensures Valid()
      ensures Abs() == Epc.CheckMainQueue(old(Abs()))
    {
      hide Epc.Conserved, Epc.PollOne;
      Epc.LockedScanConserved(Abs());
      var cur := runningTaskNum;
      if cur >= maxPoolSize {
        return;
      }
      cur := runningTaskNum;
      if topTask.Some? {
        if cur == 0 {
          cur := cur + 1;
          BeginTask(topTask.value);
        }
      }
      while topTask.None? && mainQueue != [] && cur < maxPoolSize
        invariant cur == runningTaskNum
        invariant created == |pushed|
        invariant Epc.Scan(Abs()) == Epc.LockedScan(old(Abs()))
        decreases |mainQueue|
      {
        cur := PollOne(cur);
      }
    }

    /** One task off the main queue: it begins, waits, or becomes the top task. */
    method PollOne(cur: int) returns (next: int)
      requires topTask.None? && mainQueue != [] && cur == runningTaskNum < maxPoolSize
      modifies this
      ensures Abs() == Epc.PollOne(old(Abs())) && next == runningTaskNum
      ensures created == old(created) && pushed == old(pushed)
      ensures mainQueue == old(mainQueue)[1..]
    {
      next := cur;
      var task := mainQueue[0];
      mainQueue := mainQueue[1..];
      var collision := task.co;
      if collision.None? {
        next := next + 1;
        BeginTask(task);
      } else if collision.value == TOP_COLLISION {
        topTask := Some(task);
        if cur == 0 {
          next := next + 1;
          BeginTask(task);
        }
      } else if collision.value in runningCollsMap {
        WaitFor(collision.value, task);
      } else {
        next := next + 1;
        BeginTask(task);
      }
    }

    method WaitFor(collision: Collision, task: Task)
      modifies this
      ensures Abs() == old(Abs()).(waiting := Enqueue(old(waitingCollsQueueMap), collision, task))
      ensures created == old(created)
    {
      if collision in waitingCollsQueueMap {
        waitingCollsQueueMap := waitingCollsQueueMap[collision := waitingCollsQueueMap[collision] + [task]];
      } else {
        assert [] + [task] == [task];
        waitingCollsQueueMap := waitingCollsQueueMap[collision := [task]];
      }
    }

    /** `order` is the order in which the waiting collisions were visited; in a valid pool none is. */
    method CheckDeadlock() returns (ghost order: seq<Collision>)
      modifies this
      ensures Abs() == Epc.CheckDeadlock(old(Abs()), order)
      ensures old(Valid()) ==> Abs() == old(Abs())
      ensures created == old(created)
      ensures order != [] ==> multiset(order) == multiset(old(waitingCollsQueueMap).Keys)
    {
      order := [];
      if old(Valid()) {
        Epc.NoDeadlock(Abs());
      }
      if runningTaskNum < |runningCollsMap| {
        runningCollsMap := map[];
        ghost var cleared := Abs();
        assert cleared == old(Abs()).(runningColls := map[]);
        var colliSet := waitingCollsQueueMap.Keys;
        while colliSet != {}
          invariant Abs() == Epc.RepairEach(cleared, order)
          invariant created == old(created)
          invariant multiset(order) + multiset(colliSet) == multiset(old(waitingCollsQueueMap).Keys)
          invariant forall c :: c in colliSet ==> c in waitingCollsQueueMap
          decreases colliSet
        {
          var colls :| colls in colliSet;
          colliSet := colliSet - {colls};
          assert (order + [colls])[..|order|] == order;
          order := order + [colls];
          RepairCollision(colls);
        }
      }
    }

    method RepairCollision(colls: Collision)
      requires colls in waitingCollsQueueMap
      modifies this
      ensures Abs() == Epc.RepairOne(old(Abs()), colls)
      ensures created == old(created) && waitingCollsQueueMap.Keys >= old(waitingCollsQueueMap).Keys - {colls}
    {
      var queue := waitingCollsQueueMap[colls];
      if queue != [] {
        BeginTask(queue[0]);
        queue := queue[1..];
        waitingCollsQueueMap := waitingCollsQueueMap[colls := queue];
      }
      if queue == [] {
        waitingCollsQueueMap := waitingCollsQueueMap - {colls};
      }
    }

    method CheckCollisionQueue(colls: Option<Collision>) returns (started: bool)
      requires QueuesNonEmpty(waitingCollsQueueMap)
      modifies this
      ensures created == old(created)
      ensures started <==> colls.Some? && colls.value in old(waitingCollsQueueMap)
      ensures Abs() == if colls.Some? then Epc.CheckCollisionQueue(old(Abs()), colls.value) else old(Abs())
    {
      if colls.None? {
        return false;
      }
      if colls.value in waitingCollsQueueMap {
        var queue := waitingCollsQueueMap[colls.value];
        BeginTask(queue[0]);
        queue := queue[1..];
        waitingCollsQueueMap := waitingCollsQueueMap[colls.value := queue];
        if queue == [] {
          waitingCollsQueueMap := waitingCollsQueueMap - {colls.value};
        }
        return true;
      }
      return false;
    }

    /** What the thread of a task does once the task has run, with no other thread in between. */
    method AfterRun(t: Task)
      requires Valid() && t in executing
      modifies this
      ensures Valid()
      ensures Abs() == Epc.AfterRun(old(Abs()), t)
    {
      Epc.AfterRunConserved(Abs(), t);
      Epc.EndTaskConserved(Abs(), t);
      EndTask(t);
      if t.co.Some? {
        var started := CheckCollisionQueue(t.co);
        if started {
          return;
        }
      }
      var _ := CheckDeadlock();
      CheckMainQueue();
    }
  }
}
