/** mr/master.go: exactly when a critical section of the master never ends, in any run. */
module MasterStuck {
  import opened Dataflow
  import opened Master
  import opened MasterRuns
  import opened MasterLimits

  // ----- what every run keeps

  predicate Known(c: State, t: Task) {
    match t.state
    case Map => t.id < c.nFiles
    case Reduce => t.id < c.nReduce
    case Exit => false
  }

  function Running(meta: map<nat, Meta>): set<nat> {
    set id | id in meta && meta[id].status == InProgress
  }

  ghost predicate TasksKnown(c: State) {
    && (forall id: nat :: id in c.meta <==> id < TaskCount(c))
    && (forall id | id in c.meta :: Known(c, c.meta[id].task))
    && (forall i | 0 <= i < |c.queue| :: Known(c, c.queue[i]))
  }

  /** The queue has a place for every task that is out with a worker. */
  ghost predicate HasRoom(c: State) {
    |c.queue| + |Running(c.meta)| <= Capacity(c)
  }

  ghost predicate RoomInv(w: World) {
    !w.master.stuck ==>
      && TasksKnown(w.master) && HasRoom(w.master)
      && (forall t | t in w.handed :: Known(w.master, t))
      && (forall k | 0 <= k < |w.pending| :: w.pending[k].state == Map || w.master.phase != Map)
  }

  lemma {:induction false} SubsetSize(a: set<nat>, b: set<nat>)
    requires a <= b
    ensures |a| <= |b|
  {
    if a != {} {
      var x :| x in a;
      SubsetSize(a - {x}, b - {x});
    }
  }

  lemma {:induction false} AssignRoom(c: State)
    requires !c.stuck && TasksKnown(c) && HasRoom(c)
    ensures var d := AssignTask(c);
      && d.nFiles == c.nFiles && d.nReduce == c.nReduce && d.phase == c.phase
      && (d.stuck <==> c.queue != [] && c.queue[0].id !in c.meta)
      && (!d.stuck ==> TasksKnown(d) && HasRoom(d))
  {
    var d := AssignTask(c);
    if c.queue != [] && !d.stuck {
      assert forall i | 0 <= i < |d.queue| :: d.queue[i] == c.queue[i + 1];
      SubsetSize(Running(d.meta), Running(c.meta) + {c.queue[0].id});
    }
  }

  lemma {:induction false} CompleteRoom(c: State, t: Task)
    requires !c.stuck && TasksKnown(c) && HasRoom(c) && Known(c, t)
    ensures var d := TaskCompleted(c, t);
      && d.nFiles == c.nFiles && d.nReduce == c.nReduce && d.phase == c.phase
      && !d.stuck && TasksKnown(d) && HasRoom(d)
  {
    SubsetSize(Running(TaskCompleted(c, t).meta), Running(c.meta));
  }

  lemma {:induction false} RequeueRoom(c: State, id: nat)
    requires !c.stuck && TasksKnown(c) && HasRoom(c)
    ensures var d := Requeue(c, id);
      !d.stuck && TasksKnown(d) && HasRoom(d) && d.nFiles == c.nFiles && d.nReduce == c.nReduce && d.phase == c.phase
  {
    if id in c.meta && c.meta[id].status == InProgress {
      var d := Requeue(c, id);
      assert id in Running(c.meta);
      assert !d.stuck ==> Running(d.meta) == Running(c.meta) - {id} && d.queue == c.queue + [c.meta[id].task];
    }
  }

  lemma {:induction false} CatchTimeOutRoom(c: State, late: seq<nat>)
    requires !c.stuck && TasksKnown(c) && HasRoom(c)
    ensures var d := CatchTimeOut(c, late);
      !d.stuck && TasksKnown(d) && HasRoom(d) && d.nFiles == c.nFiles && d.nReduce == c.nReduce
    decreases |late|
  {
    hide TasksKnown, HasRoom, Requeue;
    if late != [] && c.phase != Exit {
      RequeueRoom(c, late[0]);
      CatchTimeOutRoom(Requeue(c, late[0]), late[1..]);
    }
  }

  /** Creating the reduce tasks from `idx` on, with the queue as it is. */
  lemma {:induction false} CreateReduceRoom(c: State, idx: nat)
    requires |c.inter| == c.nReduce && idx <= c.nReduce && !c.stuck && |c.queue| <= Capacity(c)
    requires forall id: nat :: id in c.meta <==> id < idx
    requires forall id | id in c.meta :: c.meta[id].status == Idle && Known(c, c.meta[id].task)
    requires forall i | 0 <= i < |c.queue| :: Known(c, c.queue[i])
    ensures var d := CreateReduceTasks(c, idx);
      && d.nFiles == c.nFiles && d.nReduce == c.nReduce
      && (d.stuck <==> |c.queue| + (c.nReduce - idx) > Capacity(c))
      && (!d.stuck ==>
            && |d.queue| <= Capacity(d)
            && (forall id: nat :: id in d.meta <==> id < c.nReduce)
            && (forall id | id in d.meta :: d.meta[id].status == Idle && Known(d, d.meta[id].task))
            && (forall i | 0 <= i < |d.queue| :: Known(d, d.queue[i])))
    decreases c.nReduce - idx
  {
    if idx < c.nReduce && |c.queue| < Capacity(c) {
      CreateReduceRoom(Create(c, Task(idx, Reduce, c.inter[idx])), idx + 1);
    }
  }

  /** A map result is processed when everything is done. */
  predicate Switches(c: State, t: Task) {
    t.state == Map && AllDone(c)
  }

  lemma {:induction false} ProcessRoom(c: State, t: Task)
    requires |c.inter| == c.nReduce && (t.state == Map ==> |t.interMediates| <= c.nReduce)
    requires !c.stuck && TasksKnown(c) && HasRoom(c) && (t.state == Map || c.phase != Map)
    ensures var d := ProcessTaskResult(c, t);
      && d.nFiles == c.nFiles && d.nReduce == c.nReduce && (c.phase != Map && !d.stuck ==> d.phase != Map)
      && (d.stuck <==> Switches(c, t) && |c.queue| + c.nReduce > Capacity(c))
      && (!d.stuck ==> TasksKnown(d) && HasRoom(d))
  {
    if Switches(c, t) {
      CreateReduceRoom(c.(inter := Collect(c.inter, t.interMediates), meta := map[]), 0);
      assert !ProcessTaskResult(c, t).stuck ==> Running(ProcessTaskResult(c, t).meta) == {};
    } else if t.state == Map {
      assert AllDone(c.(inter := Collect(c.inter, t.interMediates))) == AllDone(c);
    }
  }

  // ----- every run

  /** The head of the queue is a stale copy of a map task that the new table does not have. */
  predicate Crashes(c: State, e: Event) {
    e == Assign && c.queue != [] && c.queue[0].id !in c.meta
  }

  /** There are more reduce tasks to queue than the stale copies leave room for. */
  predicate Blocks(w: World, e: Event) {
    && e.Process? && e.k < |w.pending| && Switches(w.master, w.pending[e.k])
    && |w.master.queue| + w.master.nReduce > Capacity(w.master)
  }

  lemma {:induction false} ProcessStepRoom(w: World, k: nat)
    requires RoomInv(w) && Enabled(w, Process(k))
    ensures RoomInv(Step(w, Process(k)))
    ensures Step(w, Process(k)).master.stuck <==> Blocks(w, Process(k))
  {
    hide TasksKnown, HasRoom, ProcessTaskResult, Switches;
    var c, w' := w.master, Step(w, Process(k));
    ProcessRoom(c, w.pending[k]);
    assert forall t | t in w.handed :: Known(w'.master, t) == Known(c, t);
    forall j | 0 <= j < |w'.pending| ensures !w'.master.stuck ==> w'.pending[j].state == Map || w'.master.phase != Map {
      assert w'.pending[j] == w.pending[if j < k then j else j + 1];
    }
  }

  lemma {:induction false} StepRoom(w: World, e: Event)
    requires RoomInv(w) && Enabled(w, e)
    ensures RoomInv(Step(w, e))
    ensures Step(w, e).master.stuck <==> Crashes(w.master, e) || Blocks(w, e)
  {
    hide TasksKnown, HasRoom, AssignTask, TaskCompleted, ProcessTaskResult, CatchTimeOut, Switches;
    var c := w.master;
    match e {
      case Assign =>
        AssignRoom(c);
        HeadKnown(c);
      case Complete(t) => CompleteRoom(c, Reported(t, c.nReduce));
      case Process(k) => ProcessStepRoom(w, k);
      case TimeOut(late) =>
        CatchTimeOutReopens(c, late);
        CatchTimeOutRoom(c, late);
    }
  }

  lemma {:induction false} HeadKnown(c: State)
    requires TasksKnown(c)
    ensures c.queue != [] ==> Known(c, c.queue[0])
  {
  }

  lemma {:induction false} RoomHolds(nFiles: nat, nReduce: nat, ws: seq<World>, es: seq<Event>)
    requires Run(nFiles, nReduce, ws, es)
    ensures RoomInv(ws[|es|])
    decreases |es|
  {
    hide RoomInv, Step, Enabled;
    if es == [] {
      InitRoom(nFiles, nReduce);
    } else {
      var k := |es| - 1;
      RunPrefix(nFiles, nReduce, ws, es);
      RoomHolds(nFiles, nReduce, ws[..k + 1], es[..k]);
      StepRoom(ws[k], es[k]);
    }
  }

  lemma {:induction false} InitRoom(nFiles: nat, nReduce: nat)
    ensures RoomInv(Init(nFiles, nReduce))
  {
    CreateMapTasksTable(State(nFiles, nReduce, [], map[], Map, seq(nReduce, _ => []), false), 0);
    assert Running(Init(nFiles, nReduce).master.meta) == {};
  }

  /** No hypotheses.  In every run, a critical section fails to end exactly in two cases: a
      worker is handed a stale copy that the table does not know, or the reduce tasks are
      created while stale copies take their room.  So a report is never fatal, and the timeout
      pass never blocks. */
  lemma {:induction false} StuckExactly(nFiles: nat, nReduce: nat, ws: seq<World>, es: seq<Event>, e: Event)
    requires Run(nFiles, nReduce, ws, es) && Enabled(ws[|es|], e)
    ensures Step(ws[|es|], e).master.stuck <==> Crashes(ws[|es|].master, e) || Blocks(ws[|es|], e)
  {
    RoomHolds(nFiles, nReduce, ws, es);
    StepRoom(ws[|es|], e);
  }

  // ----- a run for each case

  // the reduce tasks do not fit

  lemma {:induction false} LateReport(w: World) returns (w1: World, w2: World, w3: World)
    requires w == World(State(1, 1, [M0], map[0 := Meta(Idle, M0)], Map, [[]], false), {}, [], [])
    ensures Enabled(w, Assign) && w1 == Step(w, Assign) && !Accepted(w, Assign)
    ensures Enabled(w1, TimeOut([0])) && w2 == Step(w1, TimeOut([0]))
    ensures Enabled(w2, Complete(M0)) && w3 == Step(w2, Complete(M0))
    ensures w2.pending == [] && w2.master.queue == [M0] && Accepted(w2, Complete(M0))
    ensures w3.pending == [REP0] && w3.master == State(1, 1, [M0], map[0 := Meta(Completed, M0)], Map, [[]], false)
  {
    w1 := World(State(1, 1, [], map[0 := Meta(InProgress, M0)], Map, [[]], false), {M0}, [], []);
    w2 := World(State(1, 1, [M0], map[0 := Meta(Idle, M0)], Map, [[]], false), {M0}, [], []);
    w3 := World(State(1, 1, [M0], map[0 := Meta(Completed, M0)], Map, [[]], false), {M0}, [REP0], []);
    assert Step(w, Assign) == w1;
    assert CatchTimeOut(w1.master, [0]) == CatchTimeOut(Requeue(w1.master, 0), []);
    assert Requeue(w1.master, 0) == w2.master;
    Reports();
    assert Step(w2, Complete(M0)) == w3;
  }

  lemma {:induction false} InitialOne()
    ensures Init(1, 1) == World(State(1, 1, [M0], map[0 := Meta(Idle, M0)], Map, [[]], false), {}, [], [])
  {
    var c0 := State(1, 1, [], map[], Map, seq(1, _ => []), false);
    assert c0.inter == [[]];
    var c1 := Create(c0, M0);
    assert CreateMapTasks(c1, 1) == c1;
    assert CreateMapTasks(c0, 0) == c1;
  }

  /** One file, one reduce task.  The worker is late, the task is queued again, and then the
      first report is accepted: the stale copy fills the queue, and creating the reduce task
      blocks for ever while the lock is held. */
  lemma {:induction false} StuckRun() returns (ws: seq<World>, es: seq<Event>)
    ensures Run(1, 1, ws, es) && H1(ws, es) && !H2(ws, es) && ws[|es|].master.stuck
  {
    hide Step, Run, H1, H2, Enabled;
    InitialOne();
    var w0 := Init(1, 1);
    var w1, w2, w3 := LateReport(w0);
    var w4 := NoRoomLeft(w3);
    assert w2.master.queue[0] == M0;
    InitOne(1, 1);
    Extend(1, 1, [w0], [], Assign, w1);
    Extend(1, 1, [w0] + [w1], [] + [Assign], TimeOut([0]), w2);
    Extend(1, 1, [w0] + [w1] + [w2], [] + [Assign] + [TimeOut([0])], Complete(M0), w3);
    Extend(1, 1, [w0] + [w1] + [w2] + [w3], [] + [Assign] + [TimeOut([0])] + [Complete(M0)], Process(0), w4);
    ws, es := [w0] + [w1] + [w2] + [w3] + [w4], [] + [Assign] + [TimeOut([0])] + [Complete(M0)] + [Process(0)];
    assert ws[|es|] == w4;
  }

  lemma {:induction false} NoRoomLeft(w: World) returns (w': World)
    requires w.pending == [REP0] && w.master == State(1, 1, [M0], map[0 := Meta(Completed, M0)], Map, [[]], false)
    ensures Enabled(w, Process(0)) && w' == Step(w, Process(0)) && w'.master.stuck
  {
    var c := w.master.(inter := Collect(w.master.inter, REP0.interMediates), meta := map[]);
    assert CreateReduceTasks(c, 0).stuck;
    w' := Step(w, Process(0));
  }

  // a copy is handed out

  const R0 := Task(0, Reduce, [FileName(0, 0), FileName(1, 0)])

  lemma {:induction false} LateSecond(w: World) returns (w1: World, w2: World, w3: World)
    requires w == World(Two([M0, M1], Idle, Idle, []), {}, [], [])
    ensures Enabled(w, Assign) && w1 == Step(w, Assign)
    ensures Enabled(w1, Assign) && w2 == Step(w1, Assign)
    ensures Enabled(w2, TimeOut([1])) && w3 == Step(w2, TimeOut([1]))
    ensures w3 == World(Two([M1], InProgress, Idle, []), {M0, M1}, [], [])
  {
    w1 := World(Two([M1], InProgress, Idle, []), {M0}, [], []);
    w2 := World(Two([], InProgress, InProgress, []), {M0, M1}, [], []);
    w3 := World(Two([M1], InProgress, Idle, []), {M0, M1}, [], []);
    assert Step(w, Assign) == w1;
    assert Step(w1, Assign) == w2;
    assert Requeue(w2.master, 1) == w3.master;
    assert [1][1..] == [] && CatchTimeOut(w3.master, []) == w3.master;
    assert CatchTimeOut(w2.master, [1]) == w3.master;
  }

  lemma {:induction false} FirstReported(w: World) returns (w1: World, w2: World)
    requires w == World(Two([M1], InProgress, Idle, []), {M0, M1}, [], [])
    ensures Enabled(w, Complete(M0)) && w1 == Step(w, Complete(M0))
    ensures Enabled(w1, Process(0)) && w2 == Step(w1, Process(0))
    ensures w2 == World(Two([M1], Completed, Idle, [FileName(0, 0)]), {M0, M1}, [], [0])
  {
    Reports();
    w1 := World(Two([M1], Completed, Idle, []), {M0, M1}, [REP0], []);
    w2 := World(Two([M1], Completed, Idle, [FileName(0, 0)]), {M0, M1}, [], [0]);
    assert Step(w, Complete(M0)) == w1;
    ProcessOne(w1, [M1], Idle, []);
    assert [] + [FileName(0, 0)] == [FileName(0, 0)] && w1.processed + [0] == [0];
  }

  /** The late copy is still queued when its own report ends the map phase. */
  lemma {:induction false} SwitchOverCopy(w: World) returns (w1: World, w2: World)
    requires w == World(Two([M1], Completed, Idle, [FileName(0, 0)]), {M0, M1}, [], [0])
    ensures Enabled(w, Complete(M1)) && w1 == Step(w, Complete(M1)) && Accepted(w, Complete(M1))
    ensures Enabled(w1, Process(0)) && w2 == Step(w1, Process(0))
    ensures w2.master == State(2, 1, [M1, R0], map[0 := Meta(Idle, R0)], Reduce, [[FileName(0, 0), FileName(1, 0)]], false)
  {
    Reports();
    w1 := World(Two([M1], Completed, Completed, [FileName(0, 0)]), {M0, M1}, [REP1], [0]);
    assert Step(w, Complete(M1)) == w1;
    var c := w1.master;
    var inter := Collect(c.inter, REP1.interMediates);
    assert inter[0] == [FileName(0, 0)] + [FileName(1, 0)] == [FileName(0, 0), FileName(1, 0)];
    assert inter == [[FileName(0, 0), FileName(1, 0)]];
    var d := c.(inter := inter, meta := map[]);
    var e := Create(d, R0);
    assert CreateReduceTasks(e, 1) == e;
    assert CreateReduceTasks(d, 0) == e;
    w2 := Step(w1, Process(0));
  }

  /** Two files, one reduce task.  A copy of the second map task is queued, its report is
      accepted all the same and ends the map phase.  There is room for the reduce task, but the
      next worker is handed the copy, whose number the new table does not have. */
  lemma {:induction false} CrashRun() returns (ws: seq<World>, es: seq<Event>)
    ensures Run(2, 1, ws, es) && H1(ws, es) && !H2(ws, es) && es != [] && es[|es| - 1] == Assign
    ensures ws[|es| - 1].master.phase == Reduce && !ws[|es| - 1].master.stuck && ws[|es|].master.stuck
  {
    hide Step, Run, H1, H2, Enabled;
    InitialTwo();
    var w0 := Init(2, 1);
    var w1, w2, w3 := LateSecond(w0);
    var w4, w5 := FirstReported(w3);
    var w6, w7 := SwitchOverCopy(w5);
    var w8 := HandsOutCopy(w7);
    assert w5.master.queue[0] == M1;
    InitOne(2, 1);
    Extend(2, 1, [w0], [], Assign, w1);
    Extend(2, 1, [w0] + [w1], [] + [Assign], Assign, w2);
    var ws2, es2 := [w0] + [w1] + [w2], [] + [Assign] + [Assign];
    Extend(2, 1, ws2, es2, TimeOut([1]), w3);
    Extend(2, 1, ws2 + [w3], es2 + [TimeOut([1])], Complete(M0), w4);
    var ws4, es4 := ws2 + [w3] + [w4], es2 + [TimeOut([1])] + [Complete(M0)];
    Extend(2, 1, ws4, es4, Process(0), w5);
    Extend(2, 1, ws4 + [w5], es4 + [Process(0)], Complete(M1), w6);
    var ws6, es6 := ws4 + [w5] + [w6], es4 + [Process(0)] + [Complete(M1)];
    Extend(2, 1, ws6, es6, Process(0), w7);
    Extend(2, 1, ws6 + [w7], es6 + [Process(0)], Assign, w8);
    ws, es := ws6 + [w7] + [w8], es6 + [Process(0)] + [Assign];
    assert ws[|es|] == w8 && ws[|es| - 1] == w7;
  }

  lemma {:induction false} HandsOutCopy(w: World) returns (w': World)
    requires w.master == State(2, 1, [M1, R0], map[0 := Meta(Idle, R0)], Reduce, [[FileName(0, 0), FileName(1, 0)]], false)
    ensures Enabled(w, Assign) && w' == Step(w, Assign) && w'.master.stuck
  {
    w' := Step(w, Assign);
  }
}
