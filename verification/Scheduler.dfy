/** mr/master.go: the Master object. Every method is one critical section and is proved to make
    exactly the step of Master.dfy, so the theorems about runs apply to it. */
module Scheduler {
  import opened Dataflow
  import M = Master

  datatype Reply = Given(task: M.Task) | ExitNow | Wait

  class Master {
    const nFiles: nat
    const nReduce: nat
    var taskQueue: seq<M.Task>
    var taskMeta: map<nat, M.Meta>
    var phase: M.Phase
    var interMediates: seq<seq<FileName>>
    /** The section that holds the lock never gives it back. */
    var stuck: bool

    ghost predicate Valid()
      reads this
    {
      |interMediates| == nReduce
    }

    ghost function State(): M.State
      reads this
    {
      M.State(nFiles, nReduce, taskQueue, taskMeta, phase, interMediates, stuck)
    }

    /** master.go:104-115. */
    constructor (nFiles: nat, nReduce: nat)
      ensures Valid() && State() == M.MakeMaster(nFiles, nReduce)
    {
      this.nFiles, this.nReduce := nFiles, nReduce;
      taskQueue, taskMeta, phase, interMediates, stuck := [], map[], M.Map, seq(nReduce, _ => []), false;
      new;
      CreateMapTask();
    }

    method Send(t: M.Task)
      requires Valid()
      modifies `taskQueue, `stuck
      ensures State() == M.Send(old(State()), t)
    {
      if |taskQueue| < M.Max(nReduce, nFiles) {
        taskQueue := taskQueue + [t];
      } else {
        stuck := true;
      }
    }

    /** master.go:141-155. */
    method CreateMapTask()
      requires Valid() && !stuck
      modifies this
      ensures Valid() && State() == M.CreateMapTasks(old(State()), 0)
    {
      var idx := 0;
      while idx < nFiles && !stuck
        invariant idx <= nFiles && Valid()
        invariant M.CreateMapTasks(State(), idx) == M.CreateMapTasks(old(State()), 0)
      {
        var task := M.MapTask(idx);
        Send(task);
        if !stuck {
          taskMeta := taskMeta[idx := M.Meta(M.Idle, task)];
        }
        idx := idx + 1;
      }
    }

    /** master.go:157-172. */
    method CreateReduceTask()
      requires Valid() && !stuck
      modifies this
      ensures Valid() && State() == M.CreateReduceTasks(old(State()).(meta := map[]), 0)
    {
      taskMeta := map[];
      var idx := 0;
      while idx < nReduce && !stuck
        invariant idx <= nReduce && Valid()
        invariant M.CreateReduceTasks(State(), idx) == M.CreateReduceTasks(old(State()).(meta := map[]), 0)
      {
        var task := M.Task(idx, M.Reduce, interMediates[idx]);
        Send(task);
        if !stuck {
          taskMeta := taskMeta[idx := M.Meta(M.Idle, task)];
        }
        idx := idx + 1;
      }
    }

    /** master.go:175-188. */
    method AssignTask() returns (reply: Reply)
      requires Valid() && !stuck
      modifies `taskQueue, `taskMeta, `stuck
      ensures Valid() && State() == M.AssignTask(old(State()))
      ensures reply == if old(taskQueue) != [] then Given(old(taskQueue)[0]) else if phase == M.Exit then ExitNow else Wait
    {
      if |taskQueue| > 0 {
        var task := taskQueue[0];
        taskQueue := taskQueue[1..];
        reply := Given(task);
        if task.id !in taskMeta {
          stuck := true;
          return;
        }
        taskMeta := taskMeta[task.id := taskMeta[task.id].(status := M.InProgress)];
      } else if phase == M.Exit {
        reply := ExitNow;
      } else {
        reply := Wait;
      }
    }

    /** master.go:190-199; `started` says that a result goroutine is started. */
    method TaskCompleted(task: M.Task) returns (started: bool)
      requires Valid() && !stuck
      modifies `taskMeta, `stuck
      ensures Valid() && State() == M.TaskCompleted(old(State()), task)
      ensures started <==> M.Accepts(old(State()), task)
    {
      started := false;
      if task.state != phase {
        return;
      }
      if task.id !in taskMeta {
        stuck := true;
        return;
      }
      if taskMeta[task.id].status == M.Completed {
        return;
      }
      taskMeta := taskMeta[task.id := taskMeta[task.id].(status := M.Completed)];
      started := true;
    }

    /** master.go:207-209. */
    method CollectFiles(files: seq<FileName>)
      requires Valid() && |files| <= nReduce
      modifies `interMediates
      ensures Valid() && interMediates == M.Collect(old(interMediates), files)
    {
      for r := 0 to |files|
        invariant Valid()
        invariant forall i | 0 <= i < nReduce ::
          interMediates[i] == if i < r then old(interMediates)[i] + [files[i]] else old(interMediates)[i]
      {
        interMediates := interMediates[r := interMediates[r] + [files[r]]];
      }
    }

    /** master.go:201-220. */
    method ProcessTaskResult(task: M.Task)
      requires Valid() && !stuck
      requires task.state == M.Map ==> |task.interMediates| <= nReduce
      modifies this
      ensures Valid() && State() == M.ProcessTaskResult(old(State()), task)
    {
      match task.state {
        case Map =>
          CollectFiles(task.interMediates);
          var done := AllTaskDone();
          if done {
            CreateReduceTask();
            if !stuck {
              phase := M.Reduce;
            }
          }
        case Reduce =>
          var done := AllTaskDone();
          if done {
            phase := M.Exit;
          }
        case Exit =>
      }
    }

    /** master.go:222-229: a map is walked in any order. */
    method AllTaskDone() returns (done: bool)
      ensures done <==> M.AllDone(State())
    {
      var rest := taskMeta.Keys;
      while rest != {}
        invariant rest <= taskMeta.Keys
        invariant forall id | id in taskMeta && id !in rest :: taskMeta[id].status == M.Completed
      {
        var id :| id in rest;
        if taskMeta[id].status != M.Completed {
          return false;
        }
        rest := rest - {id};
      }
      return true;
    }

    /** master.go:123-138: one pass. The clock decides which tasks are late and the map in which
        order they come.  Every task that is in progress and late is put back at the end of the
        queue, once, and is idle again; nothing else changes. */
    method CatchTimeOut(isLate: nat -> bool) returns (ghost late: seq<nat>)
      requires Valid() && !stuck
      modifies `taskQueue, `taskMeta, `stuck
      ensures Valid() && State() == M.CatchTimeOut(old(State()), late)
      ensures phase == M.Exit ==> taskQueue == old(taskQueue) && taskMeta == old(taskMeta) && !stuck
      ensures forall i, j | 0 <= i < j < |late| :: late[i] != late[j]
      ensures forall id | id in late :: Expired(old(taskMeta), isLate, id)
      ensures taskMeta.Keys == old(taskMeta).Keys
      ensures phase != M.Exit && !stuck ==>
        && (forall id | Expired(old(taskMeta), isLate, id) :: id in late)
        && taskQueue == old(taskQueue) + TasksOf(old(taskMeta), late)
        && (forall id | id in old(taskMeta) ::
              taskMeta[id] == if Expired(old(taskMeta), isLate, id) then M.Meta(M.Idle, old(taskMeta)[id].task) else old(taskMeta)[id])
    {
      hide M.CatchTimeOut, M.Requeue;
      late := [];
      NothingLate(State());
      if phase == M.Exit {
        return;
      }
      var rest := taskMeta.Keys;
      while rest != {} && !stuck
        invariant Valid() && rest <= taskMeta.Keys == old(taskMeta).Keys
        invariant forall i, j | 0 <= i < j < |late| :: late[i] != late[j]
        invariant forall id | id in late :: Expired(old(taskMeta), isLate, id) && id !in rest
        invariant forall id | id in rest :: taskMeta[id] == old(taskMeta)[id]
        invariant State() == M.CatchTimeOut(old(State()), late)
        invariant !stuck ==>
          && taskQueue == old(taskQueue) + TasksOf(old(taskMeta), late)
          && (forall id | id in old(taskMeta) && id !in rest ::
                && (Expired(old(taskMeta), isLate, id) <==> id in late)
                && taskMeta[id] == if id in late then M.Meta(M.Idle, old(taskMeta)[id].task) else old(taskMeta)[id])
      {
        var id :| id in rest;
        if taskMeta[id].status == M.InProgress && isLate(id) {
          LateAppend(old(State()), late, id);
          RequeueIs(State(), id);
          late := late + [id];
          Send(taskMeta[id].task);
          if !stuck {
            taskMeta := taskMeta[id := taskMeta[id].(status := M.Idle)];
          }
        }
        rest := rest - {id};
      }
    }
  }

  /** The task is out with a worker and has been for too long. */
  predicate Expired(meta: map<nat, M.Meta>, isLate: nat -> bool, id: nat) {
    id in meta && meta[id].status == M.InProgress && isLate(id)
  }

  function TasksOf(meta: map<nat, M.Meta>, ids: seq<nat>): (ts: seq<M.Task>)
    requires forall id | id in ids :: id in meta
    ensures |ts| == |ids| && forall i | 0 <= i < |ids| :: ts[i] == meta[ids[i]].task
  {
    seq(|ids|, i requires 0 <= i < |ids| => meta[ids[i]].task)
  }

  lemma {:induction false} NothingLate(c: M.State)
    ensures M.CatchTimeOut(c, []) == c
  {
  }

  lemma {:induction false} RequeueIs(c: M.State, id: nat)
    requires id in c.meta && c.meta[id].status == M.InProgress && !c.stuck
    ensures M.Requeue(c, id) ==
      var d := M.Send(c, c.meta[id].task);
      if d.stuck then d else d.(meta := d.meta[id := d.meta[id].(status := M.Idle)])
  {
  }

  lemma {:induction false} LateAppend(c: M.State, late: seq<nat>, id: nat)
    requires c.phase != M.Exit
    ensures M.CatchTimeOut(c, late).phase == c.phase
    ensures M.CatchTimeOut(c, late + [id]) == M.Requeue(M.CatchTimeOut(c, late), id)
    decreases |late|
  {
    if late == [] {
      assert (late + [id])[1..] == [];
    } else {
      assert (late + [id])[1..] == late[1..] + [id];
      LateAppend(M.Requeue(c, late[0]), late[1..], id);
    }
  }
}
