/** Every run of the master of mr/master.go with any number of workers: requests, reports,
    result goroutines and timeouts interleave in any order. */
module MasterRuns {
  import opened Linearizability
  import opened Dataflow
  import opened Master

  /** The master and its surroundings: the tasks ever handed to a worker, the accepted
      completions whose result goroutine has not run yet, and the map tasks whose result has
      been processed, in that order. */
  datatype World = World(master: State, handed: set<Task>, pending: seq<Task>, processed: seq<nat>)

  datatype Event =
    | Assign
    | Complete(task: Task) // a worker reports a task that it was handed
    | Process(k: nat) // the k-th waiting result goroutine gets the lock
    | TimeOut(late: seq<nat>)

  /** worker.go:138-143: the files that a map task leaves behind. */
  function MapFiles(id: nat, nReduce: nat): seq<FileName> {
    seq(nReduce, r requires 0 <= r < nReduce => FileName(id, r))
  }

  /** A task as the worker sends it back. */
  function Reported(t: Task, nReduce: nat): Task {
    if t.state == Map then t.(interMediates := MapFiles(t.id, nReduce)) else t
  }

  function Init(nFiles: nat, nReduce: nat): World {
    World(MakeMaster(nFiles, nReduce), {}, [], [])
  }

  predicate Accepted(w: World, e: Event) {
    e.Complete? && Accepts(w.master, Reported(e.task, w.master.nReduce))
  }

  predicate Enabled(w: World, e: Event) {
    && !w.master.stuck
    && match e
       case Complete(t) => t in w.handed
       case Process(k) =>
         && k < |w.pending| && |w.master.inter| == w.master.nReduce
         && (w.pending[k].state == Map ==> |w.pending[k].interMediates| <= w.master.nReduce)
       case _ => true
  }

  function Step(w: World, e: Event): World
    requires Enabled(w, e)
  {
    var c := w.master;
    match e
    case Assign =>
      World(AssignTask(c), w.handed + (if c.queue == [] then {} else {c.queue[0]}), w.pending, w.processed)
    case Complete(t) =>
      var rep := Reported(t, c.nReduce);
      World(TaskCompleted(c, rep), w.handed, if Accepts(c, rep) then w.pending + [rep] else w.pending, w.processed)
    case Process(k) =>
      var t := w.pending[k];
      World(ProcessTaskResult(c, t), w.handed, w.pending[..k] + w.pending[k + 1..],
            if t.state == Map then w.processed + [t.id] else w.processed)
    case TimeOut(late) => World(CatchTimeOut(c, late), w.handed, w.pending, w.processed)
  }

  ghost predicate Run(nFiles: nat, nReduce: nat, ws: seq<World>, es: seq<Event>) {
    && |ws| == |es| + 1 && ws[0] == Init(nFiles, nReduce)
    && forall i | 0 <= i < |es| :: Enabled(ws[i], es[i]) && ws[i + 1] == Step(ws[i], es[i])
  }

  lemma {:induction false} RunPrefix(nFiles: nat, nReduce: nat, ws: seq<World>, es: seq<Event>)
    requires Run(nFiles, nReduce, ws, es) && es != []
    ensures var k := |es| - 1;
      && Run(nFiles, nReduce, ws[..k + 1], es[..k])
      && Enabled(ws[k], es[k]) && ws[k + 1] == Step(ws[k], es[k])
  {
    hide Enabled, Step;
    var k := |es| - 1;
    var ws', es' := ws[..k + 1], es[..k];
    assert forall i | 0 <= i <= k :: ws'[i] == ws[i];
    assert forall i | 0 <= i < k :: es'[i] == es[i];
  }

  // ----- the two hypotheses

  /** No completion is accepted while the result of another one is still waiting. */
  predicate OneAtATime(w: World, e: Event) {
    Accepted(w, e) ==> w.pending == []
  }

  /** No completion is accepted while a requeued copy of the task waits in the queue. */
  predicate NotQueued(w: World, e: Event) {
    Accepted(w, e) ==> forall i | 0 <= i < |w.master.queue| ::
      !(w.master.queue[i].id == e.task.id && w.master.queue[i].state == e.task.state)
  }

  ghost predicate H1(ws: seq<World>, es: seq<Event>)
    requires |ws| == |es| + 1
  {
    forall i | 0 <= i < |es| :: OneAtATime(ws[i], es[i])
  }

  ghost predicate H2(ws: seq<World>, es: seq<Event>)
    requires |ws| == |es| + 1
  {
    forall i | 0 <= i < |es| :: NotQueued(ws[i], es[i])
  }

  // ----- without hypotheses

  function Listing(processed: seq<nat>, r: nat): (files: seq<FileName>)
    ensures |files| == |processed| && forall i | 0 <= i < |files| :: files[i] == FileName(processed[i], r)
  {
    seq(|processed|, i requires 0 <= i < |processed| => FileName(processed[i], r))
  }

  /** No task is stranded: an idle task is in the queue. */
  ghost predicate NotStranded(c: State) {
    forall id | id in c.meta && c.meta[id].status == Idle :: c.meta[id].task in c.queue
  }

  ghost predicate TasksNamed(c: State) {
    && (forall id | id in c.meta :: c.meta[id].task.id == id)
  }

  /** Each list of intermediate files names, in order, the map tasks whose result has been
      processed: nothing is lost, nothing made up. */
  ghost predicate ListsProcessed(w: World) {
    && |w.master.inter| == w.master.nReduce
    && forall r | 0 <= r < w.master.nReduce :: w.master.inter[r] == Listing(w.processed, r)
  }

  ghost predicate PendingMapped(w: World) {
    forall k | 0 <= k < |w.pending| && w.pending[k].state == Map ::
      w.pending[k].interMediates == MapFiles(w.pending[k].id, w.master.nReduce)
  }

  ghost predicate AlwaysInv(w: World) {
    NotStranded(w.master) && TasksNamed(w.master) && ListsProcessed(w) && PendingMapped(w)
  }

  lemma {:induction false} CreateKeeps(c: State, t: Task)
    requires NotStranded(c) && TasksNamed(c)
    ensures NotStranded(Create(c, t)) && TasksNamed(Create(c, t))
    ensures Create(c, t).inter == c.inter && Create(c, t).nReduce == c.nReduce && Create(c, t).nFiles == c.nFiles
  {
    var d := Create(c, t);
    assert !d.stuck ==> d.queue == c.queue + [t];
  }

  lemma {:induction false} CreateMapTasksKeeps(c: State, idx: nat)
    requires NotStranded(c) && TasksNamed(c)
    ensures var d := CreateMapTasks(c, idx);
      NotStranded(d) && TasksNamed(d) && d.inter == c.inter && d.nReduce == c.nReduce
    decreases c.nFiles - idx
  {
    if idx < c.nFiles && !c.stuck {
      CreateKeeps(c, MapTask(idx));
      CreateMapTasksKeeps(Create(c, MapTask(idx)), idx + 1);
    }
  }

  lemma {:induction false} CreateReduceTasksKeeps(c: State, idx: nat)
    requires |c.inter| == c.nReduce && NotStranded(c) && TasksNamed(c)
    ensures var d := CreateReduceTasks(c, idx);
      NotStranded(d) && TasksNamed(d) && d.inter == c.inter && d.nReduce == c.nReduce
    decreases c.nReduce - idx
  {
    if idx < c.nReduce && !c.stuck {
      CreateKeeps(c, Task(idx, Reduce, c.inter[idx]));
      CreateReduceTasksKeeps(Create(c, Task(idx, Reduce, c.inter[idx])), idx + 1);
    }
  }

  lemma {:induction false} RequeueKeeps(c: State, id: nat)
    requires NotStranded(c) && TasksNamed(c)
    ensures var d := Requeue(c, id);
      NotStranded(d) && TasksNamed(d) && d.inter == c.inter && d.nReduce == c.nReduce
  {
    var d := Requeue(c, id);
    if id in c.meta && d != c && !d.stuck {
      assert d.queue == c.queue + [c.meta[id].task];
    }
  }

  lemma {:induction false} CatchTimeOutKeeps(c: State, late: seq<nat>)
    requires NotStranded(c) && TasksNamed(c)
    ensures var d := CatchTimeOut(c, late);
      NotStranded(d) && TasksNamed(d) && d.inter == c.inter && d.nReduce == c.nReduce
    decreases |late|
  {
    if late != [] && c.phase != Exit {
      RequeueKeeps(c, late[0]);
      CatchTimeOutKeeps(Requeue(c, late[0]), late[1..]);
    }
  }

  lemma {:induction false} AssignKeeps(c: State)
    requires NotStranded(c) && TasksNamed(c)
    ensures var d := AssignTask(c);
      NotStranded(d) && TasksNamed(d) && d.inter == c.inter && d.nReduce == c.nReduce
  {
    var d := AssignTask(c);
    if c.queue != [] {
      assert c.queue == [c.queue[0]] + d.queue;
      forall id | id in d.meta && d.meta[id].status == Idle ensures d.meta[id].task in d.queue {
        assert c.meta[id].task in c.queue && c.meta[id].task.id == id;
      }
    }
  }

  /** Collecting a map task's files extends every list by that task. */
  lemma {:induction false} CollectLists(w: World, k: nat)
    requires ListsProcessed(w) && PendingMapped(w) && k < |w.pending| && w.pending[k].state == Map
    ensures |w.pending[k].interMediates| == w.master.nReduce == |w.master.inter|
    ensures var inter := Collect(w.master.inter, w.pending[k].interMediates);
      forall r | 0 <= r < w.master.nReduce :: inter[r] == Listing(w.processed + [w.pending[k].id], r)
  {
    var c, t := w.master, w.pending[k];
    assert t.interMediates == MapFiles(t.id, c.nReduce);
    forall r | 0 <= r < c.nReduce ensures Collect(c.inter, t.interMediates)[r] == Listing(w.processed + [t.id], r) {
      assert Collect(c.inter, t.interMediates)[r] == Listing(w.processed, r) + [FileName(t.id, r)];
    }
  }

  lemma {:induction false} ProcessKeeps(w: World, k: nat)
    requires Enabled(w, Process(k)) && AlwaysInv(w)
    ensures AlwaysInv(Step(w, Process(k)))
  {
    hide MapFiles, Listing;
    var c, t := w.master, w.pending[k];
    var w' := Step(w, Process(k));
    if t.state == Map {
      var d := c.(inter := Collect(c.inter, t.interMediates));
      if AllDone(d) { CreateReduceTasksKeeps(d.(meta := map[]), 0); }
      CollectLists(w, k);
    }
    forall j | 0 <= j < |w'.pending| && w'.pending[j].state == Map
      ensures w'.pending[j].interMediates == MapFiles(w'.pending[j].id, w'.master.nReduce)
    {
      assert w'.pending[j] == w.pending[if j < k then j else j + 1];
    }
  }

  lemma {:induction false} StepKeeps(w: World, e: Event)
    requires Enabled(w, e) && AlwaysInv(w)
    ensures AlwaysInv(Step(w, e))
  {
    match e
    case Assign => AssignKeeps(w.master);
    case Complete(t) =>
    case Process(k) => ProcessKeeps(w, k);
    case TimeOut(late) => CatchTimeOutKeeps(w.master, late);
  }

  /** In every run, whatever the interleaving: no task is stranded, and the lists name exactly
      the processed map tasks. */
  lemma {:induction false} AlwaysHolds(nFiles: nat, nReduce: nat, ws: seq<World>, es: seq<Event>)
    requires Run(nFiles, nReduce, ws, es)
    ensures AlwaysInv(ws[|es|])
    decreases |es|
  {
    hide AlwaysInv, Step, Enabled;
    if es == [] {
      InitAlways(nFiles, nReduce);
    } else {
      var k := |es| - 1;
      RunPrefix(nFiles, nReduce, ws, es);
      AlwaysHolds(nFiles, nReduce, ws[..k + 1], es[..k]);
      StepKeeps(ws[k], es[k]);
    }
  }

  lemma {:induction false} InitAlways(nFiles: nat, nReduce: nat)
    ensures AlwaysInv(Init(nFiles, nReduce))
  {
    CreateMapTasksKeeps(State(nFiles, nReduce, [], map[], Map, seq(nReduce, _ => []), false), 0);
  }

  // ----- one result at a time

  ghost predicate Listed(processed: seq<nat>, nFiles: nat) {
    forall id: nat | id < nFiles :: id in processed
  }

  /** Every reduce task that has been created lists every map task's file. */
  ghost predicate CreatedComplete(w: World) {
    forall id | id in w.master.meta && w.master.meta[id].task.state == Reduce ::
      Listed(w.processed, w.master.nFiles) && w.master.meta[id].task.interMediates == Listing(w.processed, id)
  }

  /** While mapping, a completed task has been processed or is the one that waits. */
  ghost predicate MapProgress(w: World) {
    && (forall id: nat :: id in w.master.meta <==> id < w.master.nFiles)
    && (forall id | id in w.master.meta :: w.master.meta[id].task.state == Map)
    && (forall id | id in w.master.meta && w.master.meta[id].status == Completed ::
          id in w.processed || (w.pending != [] && w.pending[0].id == id))
    && (forall k | 0 <= k < |w.pending| :: w.pending[k].state == Map)
  }

  ghost predicate OneAtATimeInv(w: World) {
    && |w.pending| <= 1
    && CreatedComplete(w)
    && (!w.master.stuck && w.master.phase == Map ==> MapProgress(w))
    && (!w.master.stuck && w.master.phase != Map ==>
          Listed(w.processed, w.master.nFiles) && forall k | 0 <= k < |w.pending| :: w.pending[k].state != Map)
  }

  /** What creating the reduce tasks leaves in the table. */
  lemma {:induction false} ReduceTasksList(c: State, idx: nat, processed: seq<nat>)
    requires |c.inter| == c.nReduce && forall r | 0 <= r < c.nReduce :: c.inter[r] == Listing(processed, r)
    requires forall id | id in c.meta :: c.meta[id].task.interMediates == Listing(processed, id)
    ensures var d := CreateReduceTasks(c, idx);
      && d.nFiles == c.nFiles && d.phase == c.phase
      && forall id | id in d.meta :: d.meta[id].task.interMediates == Listing(processed, id)
    decreases c.nReduce - idx
  {
    if idx < c.nReduce && !c.stuck {
      ReduceTasksList(Create(c, Task(idx, Reduce, c.inter[idx])), idx + 1, processed);
    }
  }

  /** The tasks of the reduce phase are all idle when it begins. */
  lemma {:induction false} CreatedIdle(c: State, idx: nat)
    requires |c.inter| == c.nReduce && forall id | id in c.meta :: c.meta[id].status == Idle
    ensures forall id | id in CreateReduceTasks(c, idx).meta :: CreateReduceTasks(c, idx).meta[id].status == Idle
    decreases c.nReduce - idx
  {
    if idx < c.nReduce && !c.stuck { CreatedIdle(Create(c, Task(idx, Reduce, c.inter[idx])), idx + 1); }
  }

  /** Same tasks, same phase; at most statuses changed, none of them to completed. */
  ghost predicate OnlyReopens(c: State, d: State) {
    && d.nFiles == c.nFiles && d.nReduce == c.nReduce && d.phase == c.phase && d.inter == c.inter
    && d.meta.Keys == c.meta.Keys
    && (forall id | id in c.meta :: d.meta[id].task == c.meta[id].task)
    && (forall id | id in c.meta && d.meta[id].status == Completed :: c.meta[id].status == Completed)
  }

  lemma {:induction false} AssignReopens(c: State)
    ensures OnlyReopens(c, AssignTask(c))
  {
  }

  lemma {:induction false} CatchTimeOutReopens(c: State, late: seq<nat>)
    ensures OnlyReopens(c, CatchTimeOut(c, late))
    decreases |late|
  {
    if late != [] && c.phase != Exit {
      assert OnlyReopens(c, Requeue(c, late[0]));
      CatchTimeOutReopens(Requeue(c, late[0]), late[1..]);
    }
  }

  lemma {:induction false} ReopensKeeps(w: World, d: State)
    requires OneAtATimeInv(w) && OnlyReopens(w.master, d) && !w.master.stuck
    ensures OneAtATimeInv(w.(master := d))
  {
  }

  lemma {:induction false} CompleteOneAtATime(w: World, t: Task)
    requires Enabled(w, Complete(t)) && OneAtATimeInv(w) && OneAtATime(w, Complete(t))
    ensures OneAtATimeInv(Step(w, Complete(t)))
  {
  }

  lemma {:induction false} ProcessOneAtATime(w: World, k: nat)
    requires Enabled(w, Process(k)) && OneAtATimeInv(w) && ListsProcessed(w) && PendingMapped(w)
    ensures OneAtATimeInv(Step(w, Process(k)))
  {
    var c, t := w.master, w.pending[k];
    if t.state == Map {
      var d := c.(inter := Collect(c.inter, t.interMediates));
      var processed := w.processed + [t.id];
      CollectLists(w, k);
      if AllDone(d) {
        assert Listed(processed, c.nFiles);
        ReduceTasksList(d.(meta := map[]), 0, processed);
      }
    }
  }

  lemma {:induction false} StepOneAtATime(w: World, e: Event)
    requires Enabled(w, e) && OneAtATimeInv(w) && OneAtATime(w, e) && AlwaysInv(w)
    ensures OneAtATimeInv(Step(w, e))
  {
    match e
    case Assign =>
      AssignReopens(w.master);
      ReopensKeeps(w, AssignTask(w.master));
    case Complete(t) => CompleteOneAtATime(w, t);
    case Process(k) => ProcessOneAtATime(w, k);
    case TimeOut(late) =>
      CatchTimeOutReopens(w.master, late);
      ReopensKeeps(w, CatchTimeOut(w.master, late));
  }

  /** In every run in which results are processed one at a time, every reduce task that is ever
      created lists a file of every map task. */
  lemma {:induction false} OneAtATimeHolds(nFiles: nat, nReduce: nat, ws: seq<World>, es: seq<Event>)
    requires Run(nFiles, nReduce, ws, es) && H1(ws, es)
    ensures OneAtATimeInv(ws[|es|])
    decreases |es|
  {
    hide AlwaysInv, OneAtATimeInv, Step, Enabled, OneAtATime;
    if es == [] {
      InitOneAtATime(nFiles, nReduce);
    } else {
      var k := |es| - 1;
      RunPrefix(nFiles, nReduce, ws, es);
      assert H1(ws[..k + 1], es[..k]) by { HypothesesPrefix(ws, es); }
      OneAtATimeHolds(nFiles, nReduce, ws[..k + 1], es[..k]);
      AlwaysHolds(nFiles, nReduce, ws[..k + 1], es[..k]);
      StepOneAtATime(ws[k], es[k]);
    }
  }

  lemma {:induction false} HypothesesPrefix(ws: seq<World>, es: seq<Event>)
    requires |ws| == |es| + 1 && es != []
    ensures var k := |es| - 1;
      (H1(ws, es) ==> H1(ws[..k + 1], es[..k])) && (H2(ws, es) ==> H2(ws[..k + 1], es[..k]))
  {
    hide OneAtATime, NotQueued;
    var k := |es| - 1;
    var ws', es' := ws[..k + 1], es[..k];
    assert forall i | 0 <= i <= k :: ws'[i] == ws[i];
    assert forall i | 0 <= i < k :: es'[i] == es[i];
  }

  /** The table after creating the map tasks from `idx` on. */
  lemma {:induction false} CreateMapTasksTable(c: State, idx: nat)
    requires !c.stuck && idx <= c.nFiles && c.queue == seq(idx, i requires 0 <= i < idx => MapTask(i))
    requires forall id: nat :: id in c.meta <==> id < idx
    requires forall id | id in c.meta :: c.meta[id] == Meta(Idle, MapTask(id))
    ensures var d := CreateMapTasks(c, idx);
      && !d.stuck && d.phase == c.phase && d.nFiles == c.nFiles && d.nReduce == c.nReduce && d.inter == c.inter
      && d.queue == seq(c.nFiles, i requires 0 <= i < c.nFiles => MapTask(i))
      && (forall id: nat :: id in d.meta <==> id < c.nFiles)
      && (forall id | id in d.meta :: d.meta[id] == Meta(Idle, MapTask(id)))
    decreases c.nFiles - idx
  {
    if idx < c.nFiles {
      var d := Create(c, MapTask(idx));
      assert d.queue == seq(idx + 1, i requires 0 <= i < idx + 1 => MapTask(i));
      CreateMapTasksTable(d, idx + 1);
    }
  }

  lemma {:induction false} InitOneAtATime(nFiles: nat, nReduce: nat)
    ensures OneAtATimeInv(Init(nFiles, nReduce))
  {
    CreateMapTasksTable(State(nFiles, nReduce, [], map[], Map, seq(nReduce, _ => []), false), 0);
  }

  // ----- one result at a time, and no report while a copy is queued

  /** The queue holds exactly the idle tasks, each once. */
  ghost predicate QueueExact(c: State) {
    && (forall i | 0 <= i < |c.queue| :: c.queue[i].id in c.meta && c.meta[c.queue[i].id] == Meta(Idle, c.queue[i]))
    && (forall i, j | 0 <= i < j < |c.queue| :: c.queue[i].id != c.queue[j].id)
    && NotStranded(c)
  }

  function TaskCount(c: State): nat {
    if c.phase == Map then c.nFiles else c.nReduce
  }

  ghost predicate TableExact(w: World) {
    var c := w.master;
    && (forall id: nat :: id in c.meta <==> id < TaskCount(c))
    && (forall id | id in c.meta ::
          c.meta[id].task == if c.phase == Map then MapTask(id) else Task(id, Reduce, Listing(w.processed, id)))
  }

  /** Each completed map task has been processed, or waits to be, exactly once. */
  ghost predicate ProcessedExact(w: World) {
    && Distinct(w.processed) && Below(w.processed, w.master.nFiles)
    && if w.master.phase == Map then
         && (forall k | 0 <= k < |w.pending| ::
               w.pending[k].state == Map && w.pending[k].id < w.master.nFiles && w.pending[k].id !in w.processed)
         && (forall id | id in w.master.meta :: w.master.meta[id].status == Completed <==>
               id in w.processed || (w.pending != [] && w.pending[0].id == id))
       else
         && |w.processed| == w.master.nFiles
         && (forall k | 0 <= k < |w.pending| :: w.pending[k].state != Map)
  }

  ghost predicate HandedKnown(w: World) {
    forall t | t in w.handed ::
      match t.state
      case Map => t.id < w.master.nFiles
      case Reduce => t.id < w.master.nReduce
      case Exit => false
  }

  ghost predicate OrderlyInv(w: World) {
    && !w.master.stuck
    && HandedKnown(w)
    && |w.pending| <= 1
    && QueueExact(w.master) && TableExact(w) && ProcessedExact(w)
    && (w.master.phase == Exit ==> AllDone(w.master))
  }

  /** There is room in the queue whenever some task is not idle. */
  lemma {:induction false} QueueHasRoom(w: World, id: nat)
    requires QueueExact(w.master) && TableExact(w)
    requires id in w.master.meta && w.master.meta[id].status != Idle
    ensures |w.master.queue| < TaskCount(w.master) <= Capacity(w.master)
  {
    var c := w.master;
    var ids := seq(|c.queue|, i requires 0 <= i < |c.queue| => c.queue[i].id);
    DistinctSize(ids);
    FullSet(Elems(ids), TaskCount(c));
    assert forall i | 0 <= i < |ids| :: c.meta[c.queue[i].id].status == Idle && ids[i] != id;
    assert id !in Elems(ids);
  }

  lemma {:induction false} AssignQueue(c: State)
    requires QueueExact(c) && TasksNamed(c)
    ensures QueueExact(AssignTask(c)) && AssignTask(c).stuck == c.stuck
  {
    hide NotStranded, TasksNamed;
    var d := AssignTask(c);
    if c.queue != [] {
      var t := c.queue[0];
      assert c.meta[t.id] == Meta(Idle, t);
      forall i | 0 <= i < |d.queue|
        ensures d.queue[i] == c.queue[i + 1] && d.queue[i].id in d.meta && d.meta[d.queue[i].id] == Meta(Idle, d.queue[i])
      {
        assert c.meta[c.queue[i + 1].id] == Meta(Idle, c.queue[i + 1]) && c.queue[i + 1].id != t.id;
      }
      assert NotStranded(d) by { AssignKeeps(c); }
    }
  }

  /** Reopening tasks that are not completed leaves the accounts as they are. */
  lemma {:induction false} ReopensExact(w: World, w': World)
    requires TableExact(w) && ProcessedExact(w) && OnlyReopens(w.master, w'.master)
    requires w'.pending == w.pending && w'.processed == w.processed
    requires forall id | id in w'.master.meta && w.master.meta[id].status == Completed :: w'.master.meta[id].status == Completed
    ensures TableExact(w') && ProcessedExact(w')
  {
  }

  lemma {:induction false} AssignOrderly(w: World)
    requires Enabled(w, Assign) && OrderlyInv(w) && TasksNamed(w.master)
    ensures OrderlyInv(Step(w, Assign))
  {
    hide TableExact, ProcessedExact;
    var c, d := w.master, AssignTask(w.master);
    AssignReopens(c);
    AssignQueue(c);
    AssignKeepsCompleted(c);
    ReopensExact(w, Step(w, Assign));
    if c.queue != [] { AssignHanded(w); }
  }

  lemma {:induction false} AssignKeepsCompleted(c: State)
    requires QueueExact(c)
    ensures forall id | id in AssignTask(c).meta && id in c.meta && c.meta[id].status == Completed :: AssignTask(c).meta[id].status == Completed
    ensures AllDone(c) ==> AssignTask(c) == c
  {
  }

  lemma {:induction false} AssignHanded(w: World)
    requires HandedKnown(w) && QueueExact(w.master) && TableExact(w) && w.master.queue != []
    ensures HandedKnown(w.(handed := w.handed + {w.master.queue[0]}))
  {
    assert w.master.queue[0] == w.master.meta[w.master.queue[0].id].task;
  }

  lemma {:induction false} RequeueQueue(c: State, id: nat)
    requires QueueExact(c) && TasksNamed(c) && !c.stuck && |c.queue| < Capacity(c)
    requires id in c.meta && c.meta[id].status == InProgress
    ensures QueueExact(Requeue(c, id)) && TasksNamed(Requeue(c, id)) && !Requeue(c, id).stuck
  {
    hide NotStranded;
    var d, t := Requeue(c, id), c.meta[id].task;
    assert d.queue == c.queue + [t] && d.meta == c.meta[id := Meta(Idle, t)];
    forall i | 0 <= i < |c.queue| ensures c.queue[i].id != id && d.queue[i] == c.queue[i] {
      assert c.meta[c.queue[i].id].status == Idle;
    }
    RequeueKeeps(c, id);
  }

  lemma {:induction false} RequeueOrderly(w: World, id: nat)
    requires OrderlyInv(w) && TasksNamed(w.master)
    ensures OrderlyInv(w.(master := Requeue(w.master, id))) && TasksNamed(Requeue(w.master, id))
  {
    hide QueueExact, TasksNamed, TableExact, ProcessedExact, HandedKnown;
    var c, d := w.master, Requeue(w.master, id);
    var w' := w.(master := d);
    if id in c.meta && c.meta[id].status == InProgress {
      QueueHasRoom(w, id);
      RequeueQueue(c, id);
      RequeueReopens(c, id);
      ReopensExact(w, w');
      SameHanded(w, w');
    } else {
      assert d == c;
    }
  }

  lemma {:induction false} RequeueReopens(c: State, id: nat)
    ensures OnlyReopens(c, Requeue(c, id))
    ensures forall k | k in c.meta && c.meta[k].status == Completed :: k in Requeue(c, id).meta && Requeue(c, id).meta[k].status == Completed
  {
  }

  lemma {:induction false} CatchTimeOutOrderly(w: World, late: seq<nat>)
    requires OrderlyInv(w) && TasksNamed(w.master)
    ensures OrderlyInv(w.(master := CatchTimeOut(w.master, late)))
    decreases |late|
  {
    hide OrderlyInv, TasksNamed, Requeue;
    if late != [] && w.master.phase != Exit {
      RequeueOrderly(w, late[0]);
      CatchTimeOutOrderly(w.(master := Requeue(w.master, late[0])), late[1..]);
    }
  }

  lemma {:induction false} CompleteQueue(c: State, t: Task)
    requires QueueExact(c) && Accepts(c, t) && forall i | 0 <= i < |c.queue| :: c.queue[i].id != t.id
    ensures QueueExact(TaskCompleted(c, t))
  {
  }

  lemma {:induction false} CompleteOrderly(w: World, t: Task)
    requires Enabled(w, Complete(t)) && OrderlyInv(w)
    requires OneAtATime(w, Complete(t)) && NotQueued(w, Complete(t))
    ensures OrderlyInv(Step(w, Complete(t)))
  {
    hide QueueExact;
    var c, rep := w.master, Reported(t, w.master.nReduce);
    if rep.state == c.phase && Accepts(c, rep) {
      forall i | 0 <= i < |c.queue| ensures c.queue[i].id != rep.id { QueueStates(w, i); }
      CompleteQueue(c, rep);
    }
  }

  lemma {:induction false} QueueStates(w: World, i: nat)
    requires QueueExact(w.master) && TableExact(w) && i < |w.master.queue| && w.master.phase != Exit
    ensures w.master.queue[i].state == w.master.phase
  {
    assert w.master.meta[w.master.queue[i].id].task == w.master.queue[i];
  }

  /** The table after creating the reduce tasks from `idx` on, with an empty queue to begin. */
  lemma {:induction false} CreateReduceTasksTable(c: State, idx: nat)
    requires |c.inter| == c.nReduce && !c.stuck && idx <= c.nReduce
    requires c.queue == seq(idx, i requires 0 <= i < idx => Task(i, Reduce, c.inter[i]))
    requires forall id: nat :: id in c.meta <==> id < idx
    requires forall id | id in c.meta :: c.meta[id] == Meta(Idle, Task(id, Reduce, c.inter[id]))
    ensures var d := CreateReduceTasks(c, idx);
      && !d.stuck && d.nFiles == c.nFiles && d.nReduce == c.nReduce && d.inter == c.inter
      && d.queue == seq(c.nReduce, i requires 0 <= i < c.nReduce => Task(i, Reduce, c.inter[i]))
      && (forall id: nat :: id in d.meta <==> id < c.nReduce)
      && (forall id | id in d.meta :: d.meta[id] == Meta(Idle, Task(id, Reduce, c.inter[id])))
    decreases c.nReduce - idx
  {
    if idx < c.nReduce {
      var d := Create(c, Task(idx, Reduce, c.inter[idx]));
      assert d.queue == seq(idx + 1, i requires 0 <= i < idx + 1 => Task(i, Reduce, c.inter[i]));
      CreateReduceTasksTable(d, idx + 1);
    }
  }

  lemma {:induction false} QueueNotDone(c: State)
    requires QueueExact(c)
    ensures c.queue != [] ==> !AllDone(c)
  {
    if c.queue != [] { assert c.meta[c.queue[0].id].status == Idle; }
  }

  /** All map tasks completed: the queue is empty, and each has been processed exactly once. */
  lemma {:induction false} AllMapped(w: World)
    requires OrderlyInv(w) && w.master.phase == Map && AllDone(w.master) && w.pending != []
    ensures w.master.queue == []
    ensures EachOnce(w.processed + [w.pending[0].id], w.master.nFiles)
  {
    var c, all := w.master, w.processed + [w.pending[0].id];
    QueueNotDone(c);
    DistinctSize(all);
    forall id: nat | id < c.nFiles ensures id in Elems(all) { assert id in c.meta; }
    FullSet(Elems(all), c.nFiles);
  }

  lemma {:induction false} ProcessMapOrderly(w: World)
    requires OrderlyInv(w) && ListsProcessed(w) && PendingMapped(w)
    requires w.master.phase == Map && Enabled(w, Process(0))
    ensures OrderlyInv(Step(w, Process(0)))
  {
    hide QueueExact, HandedKnown, ListsProcessed, CreateReduceTasks, Listing;
    var c, t := w.master, w.pending[0];
    var d := c.(inter := Collect(c.inter, t.interMediates));
    var processed := w.processed + [t.id];
    var w' := Step(w, Process(0));
    assert w'.pending == [];
    assert Distinct(processed) && Below(processed, c.nFiles);
    if AllDone(d) {
      SwitchOrderly(w);
    } else {
      assert QueueExact(d) by { SameQueueExact(c, d); }
      assert w' == World(d, w.handed, [], processed);
      SameHanded(w, w');
    }
  }

  lemma {:induction false} SameQueueExact(c: State, d: State)
    requires QueueExact(c) && d.queue == c.queue && d.meta == c.meta
    ensures QueueExact(d)
  {
  }

  lemma {:induction false} SameHanded(w: World, w': World)
    requires HandedKnown(w) && w'.handed == w.handed
    requires w'.master.nFiles == w.master.nFiles && w'.master.nReduce == w.master.nReduce
    ensures HandedKnown(w')
  {
  }

  /** The step that ends the map phase. */
  lemma {:induction false} SwitchOrderly(w: World)
    requires OrderlyInv(w) && ListsProcessed(w) && PendingMapped(w)
    requires w.master.phase == Map && Enabled(w, Process(0)) && AllDone(w.master)
    ensures OrderlyInv(Step(w, Process(0))) && Step(w, Process(0)).master.phase == Reduce
  {
    hide QueueExact, ListsProcessed, PendingMapped, Listing, CreateReduceTasks, HandedKnown;
    var c, t := w.master, w.pending[0];
    var d := c.(inter := Collect(c.inter, t.interMediates));
    var w' := Step(w, Process(0));
    AllMapped(w);
    CollectLists(w, 0);
    CreateReduceTasksTable(d.(meta := map[]), 0);
    FreshQueueExact(w'.master);
    assert HandedKnown(w') by { SameHanded(w, w'); }
    assert w'.pending == [];
  }

  lemma {:induction false} FreshQueueExact(c: State)
    requires |c.inter| == c.nReduce
    requires c.queue == seq(c.nReduce, i requires 0 <= i < c.nReduce => Task(i, Reduce, c.inter[i]))
    requires forall id: nat :: id in c.meta <==> id < c.nReduce
    requires forall id | id in c.meta :: c.meta[id] == Meta(Idle, Task(id, Reduce, c.inter[id]))
    ensures QueueExact(c)
  {
    forall id | id in c.meta ensures c.meta[id].task in c.queue { assert c.queue[id] == c.meta[id].task; }
  }

  /** After the map phase results only end the job. */
  lemma {:induction false} ProcessReduceOrderly(w: World, k: nat)
    requires OrderlyInv(w) && w.master.phase != Map && Enabled(w, Process(k))
    ensures OrderlyInv(Step(w, Process(k))) && Step(w, Process(k)).pending == []
    ensures Step(w, Process(k)).master.phase in {w.master.phase, Exit}
  {
    hide HandedKnown;
    var w' := Step(w, Process(k));
    assert w.pending[..k] + w.pending[k + 1..] == [];
    assert QueueExact(w'.master) by { SameQueueExact(w.master, w'.master); }
    SameHanded(w, w');
  }

  /** The phase moves on only when a result is processed, and one at a time. */
  lemma {:induction false} StepPhase(w: World, e: Event)
    requires Enabled(w, e) && OrderlyInv(w)
    ensures PhaseRank(w.master.phase) <= PhaseRank(Step(w, e).master.phase) <= PhaseRank(w.master.phase) + 1
    ensures Step(w, e).master.phase != w.master.phase ==> Step(w, e).pending == []
  {
    hide QueueExact, TableExact, HandedKnown;
    match e
    case Assign => AssignReopens(w.master);
    case Complete(t) =>
    case Process(k) =>
      var c, t := w.master, w.pending[k];
      if t.state == Map { ReduceTasksPhase(c.(inter := Collect(c.inter, t.interMediates), meta := map[]), 0); }
    case TimeOut(late) => CatchTimeOutReopens(w.master, late);
  }

  lemma {:induction false} ReduceTasksPhase(c: State, idx: nat)
    requires |c.inter| == c.nReduce
    ensures CreateReduceTasks(c, idx).phase == c.phase
    decreases c.nReduce - idx
  {
    if idx < c.nReduce && !c.stuck { ReduceTasksPhase(Create(c, Task(idx, Reduce, c.inter[idx])), idx + 1); }
  }

  lemma {:induction false} StepOrderly(w: World, e: Event)
    requires Enabled(w, e) && AlwaysInv(w) && OrderlyInv(w) && OneAtATime(w, e) && NotQueued(w, e)
    ensures OrderlyInv(Step(w, e))
    ensures PhaseRank(w.master.phase) <= PhaseRank(Step(w, e).master.phase) <= PhaseRank(w.master.phase) + 1
    ensures Step(w, e).master.phase != w.master.phase ==> Step(w, e).pending == []
  {
    hide QueueExact, TableExact, ProcessedExact, HandedKnown, NotStranded, TasksNamed, ListsProcessed, PendingMapped;
    StepPhase(w, e);
    match e
    case Assign => AssignOrderly(w);
    case Complete(t) => CompleteOrderly(w, t);
    case Process(k) =>
      if w.master.phase == Map {
        ProcessMapOrderly(w);
      } else {
        ProcessReduceOrderly(w, k);
      }
    case TimeOut(late) => CatchTimeOutOrderly(w, late);
  }

  function PhaseRank(p: Phase): nat {
    match p case Map => 0 case Reduce => 1 case Exit => 2
  }

  /** In every run under both hypotheses: the queue holds exactly the idle tasks, no send ever
      waits under the lock, each map task is processed exactly once before the reduce tasks are
      created, and the job is over only when every reduce task is. */
  lemma {:induction false} OrderlyHolds(nFiles: nat, nReduce: nat, ws: seq<World>, es: seq<Event>)
    requires Run(nFiles, nReduce, ws, es) && H1(ws, es) && H2(ws, es)
    ensures OrderlyInv(ws[|es|]) && AlwaysInv(ws[|es|])
    decreases |es|
  {
    hide AlwaysInv, OrderlyInv, Step, Enabled, OneAtATime, NotQueued;
    AlwaysHolds(nFiles, nReduce, ws, es);
    if es == [] {
      InitOrderly(nFiles, nReduce);
    } else {
      var k := |es| - 1;
      RunPrefix(nFiles, nReduce, ws, es);
      HypothesesPrefix(ws, es);
      OrderlyHolds(nFiles, nReduce, ws[..k + 1], es[..k]);
      StepOrderly(ws[k], es[k]);
    }
  }

  lemma {:induction false} InitOrderly(nFiles: nat, nReduce: nat)
    ensures OrderlyInv(Init(nFiles, nReduce))
  {
    CreateMapTasksTable(State(nFiles, nReduce, [], map[], Map, seq(nReduce, _ => []), false), 0);
    var c := MakeMaster(nFiles, nReduce);
    forall id | id in c.meta ensures c.meta[id].task in c.queue { assert c.queue[id] == MapTask(id); }
  }
}
