/** mr/master.go: which jobs can be brought to an end. */
module MasterProgress {
  import opened Dataflow
  import opened Master
  import opened MasterRuns
  import opened MasterLimits
  import Worker

  // ----- what orderly runs keep, besides

  /** A task that is out with a worker has been handed to one. */
  ghost predicate RunningHanded(w: World) {
    forall id | id in w.master.meta && w.master.meta[id].status == InProgress :: w.master.meta[id].task in w.handed
  }

  /** As long as the job is not over there is something left to do. */
  ghost predicate SomethingLeft(w: World) {
    w.master.phase != Exit && w.pending == [] ==> !AllDone(w.master)
  }

  ghost predicate ProgressInv(w: World) {
    && OrderlyInv(w) && AlwaysInv(w) && RunningHanded(w) && SomethingLeft(w) && w.master.nReduce > 0
    && forall k | 0 <= k < |w.pending| :: w.pending[k].state != Exit
  }

  lemma {:induction false} RequeueRunning(w: World, id: nat)
    requires RunningHanded(w)
    ensures RunningHanded(w.(master := Requeue(w.master, id)))
  {
  }

  lemma {:induction false} CatchTimeOutRunning(w: World, late: seq<nat>)
    requires RunningHanded(w)
    ensures RunningHanded(w.(master := CatchTimeOut(w.master, late)))
    decreases |late|
  {
    if late != [] && w.master.phase != Exit {
      RequeueRunning(w, late[0]);
      CatchTimeOutRunning(w.(master := Requeue(w.master, late[0])), late[1..]);
    }
  }

  lemma {:induction false} ReopensLeft(c: State, d: State)
    requires OnlyReopens(c, d) && !AllDone(c)
    ensures !AllDone(d)
  {
    var id :| id in c.meta && c.meta[id].status != Completed;
    assert d.meta[id].status != Completed;
  }

  lemma {:induction false} AssignProgress(w: World)
    requires Enabled(w, Assign) && OrderlyInv(w) && RunningHanded(w) && SomethingLeft(w)
    ensures RunningHanded(Step(w, Assign)) && SomethingLeft(Step(w, Assign))
  {
    hide TableExact, ProcessedExact, HandedKnown;
    var c, d := w.master, AssignTask(w.master);
    AssignReopens(c);
    if !AllDone(c) { ReopensLeft(c, d); }
    if c.queue != [] {
      assert c.meta[c.queue[0].id] == Meta(Idle, c.queue[0]);
    }
  }

  lemma {:induction false} ProcessProgress(w: World, k: nat)
    requires Enabled(w, Process(k)) && OrderlyInv(w) && RunningHanded(w) && w.master.nReduce > 0
    requires w.pending[k].state != Exit
    requires OrderlyInv(Step(w, Process(k))) && Step(w, Process(k)).master.nReduce > 0
    ensures RunningHanded(Step(w, Process(k))) && SomethingLeft(Step(w, Process(k)))
  {
    hide QueueExact, HandedKnown, Listing;
    var c, t, w' := w.master, w.pending[k], Step(w, Process(k));
    if t.state == Map {
      var d := c.(inter := Collect(c.inter, t.interMediates));
      CreatedIdle(d.(meta := map[]), 0);
      assert AllDone(d) ==> w'.master.phase == Reduce && 0 in w'.master.meta;
    }
  }

  lemma {:induction false} StepProgress(w: World, e: Event)
    requires Enabled(w, e) && ProgressInv(w) && OneAtATime(w, e) && NotQueued(w, e)
    requires Step(w, e).master.nReduce == w.master.nReduce
    ensures ProgressInv(Step(w, e))
  {
    hide QueueExact, TableExact, ProcessedExact, AlwaysInv;
    StepOrderly(w, e);
    StepKeeps(w, e);
    match e
    case Assign => AssignProgress(w);
    case Complete(t) =>
    case Process(k) => ProcessProgress(w, k);
    case TimeOut(late) =>
      CatchTimeOutReopens(w.master, late);
      CatchTimeOutRunning(w, late);
      if !AllDone(w.master) { ReopensLeft(w.master, CatchTimeOut(w.master, late)); }
  }

  lemma {:induction false} InitProgress(nFiles: nat, nReduce: nat)
    requires nFiles > 0 && nReduce > 0
    ensures ProgressInv(Init(nFiles, nReduce))
  {
    hide OrderlyInv, AlwaysInv;
    InitOrderly(nFiles, nReduce);
    InitAlways(nFiles, nReduce);
    CreateMapTasksTable(State(nFiles, nReduce, [], map[], Map, seq(nReduce, _ => []), false), 0);
    assert 0 in Init(nFiles, nReduce).master.meta;
  }

  // ----- a next event, and how many more there can be

  function StatusRank(s: Status): nat {
    match s case Idle => 3 case InProgress => 2 case Completed => 0
  }

  function Weight(meta: map<nat, Meta>, n: nat): nat {
    if n == 0 then 0 else Weight(meta, n - 1) + if n - 1 in meta then StatusRank(meta[n - 1].status) else 0
  }

  lemma {:induction false} WeightUpdate(meta: map<nat, Meta>, id: nat, m: Meta, n: nat)
    requires id in meta && id < n
    ensures Weight(meta[id := m], n) == Weight(meta, n) - StatusRank(meta[id].status) + StatusRank(m.status)
  {
    if id < n - 1 {
      WeightUpdate(meta, id, m, n - 1);
    } else {
      WeightSame(meta, id, m, n - 1);
    }
  }

  lemma {:induction false} WeightSame(meta: map<nat, Meta>, id: nat, m: Meta, n: nat)
    requires n <= id
    ensures Weight(meta[id := m], n) == Weight(meta, n)
  {
    if n > 0 { WeightSame(meta, id, m, n - 1); }
  }

  function StepsLeft(w: World): nat {
    Weight(w.master.meta, TaskCount(w.master)) + |w.pending|
  }

  /** The next event of an undisturbed run: process a result, hand out a task, or let a worker
      report its own. */
  lemma {:induction false} NextEvent(w: World) returns (e: Event)
    requires ProgressInv(w) && w.master.phase != Exit
    ensures Enabled(w, e) && OneAtATime(w, e) && NotQueued(w, e)
    ensures e == Process(0) || (e == Assign && w.master.queue != []) || (e.Complete? && Accepted(w, e))
    ensures e.Complete? ==> e.task.id in w.master.meta && w.master.meta[e.task.id] == Meta(InProgress, e.task)
  {
    var c := w.master;
    if w.pending != [] {
      e := Process(0);
    } else {
      var id :| id in c.meta && c.meta[id].status != Completed;
      if c.meta[id].status == Idle {
        e := Assign;
      } else {
        e := Complete(c.meta[id].task);
        NotInQueue(c, id);
      }
    }
  }

  lemma {:induction false} NotInQueue(c: State, id: nat)
    requires QueueExact(c) && id in c.meta && c.meta[id].status != Idle
    ensures forall i | 0 <= i < |c.queue| :: c.queue[i].id != id
  {
    forall i | 0 <= i < |c.queue| ensures c.queue[i].id != id {
      assert c.meta[c.queue[i].id].status == Idle;
    }
  }

  lemma {:induction false} AssignCounts(w: World)
    requires OrderlyInv(w) && Enabled(w, Assign) && w.master.queue != []
    ensures StepsLeft(Step(w, Assign)) < StepsLeft(w)
  {
    hide Weight, ProcessedExact, HandedKnown;
    var c := w.master;
    var t := c.queue[0];
    assert c.meta[t.id] == Meta(Idle, t);
    WeightUpdate(c.meta, t.id, Meta(InProgress, t), TaskCount(c));
  }

  lemma {:induction false} CompleteCounts(w: World, e: Event)
    requires OrderlyInv(w) && Enabled(w, e) && e.Complete? && Accepted(w, e)
    ensures StepsLeft(Step(w, e)) < StepsLeft(w)
  {
    hide Weight, QueueExact, ProcessedExact, HandedKnown;
    var c, id := w.master, e.task.id;
    WeightUpdate(c.meta, id, c.meta[id].(status := Completed), TaskCount(c));
  }

  lemma {:induction false} ProcessCounts(w: World)
    requires OrderlyInv(w) && Enabled(w, Process(0)) && OrderlyInv(Step(w, Process(0)))
    requires Step(w, Process(0)).master.phase == w.master.phase
    ensures StepsLeft(Step(w, Process(0))) < StepsLeft(w)
  {
    hide Weight, QueueExact, TableExact, HandedKnown;
    SameTable(w);
    Worker.StepSizes(w, Process(0));
  }

  lemma {:induction false} NextEventCounts(w: World, e: Event)
    requires ProgressInv(w) && Enabled(w, e) && OneAtATime(w, e) && NotQueued(w, e)
    requires e == Process(0) || (e == Assign && w.master.queue != []) || (e.Complete? && Accepted(w, e))
    ensures var w' := Step(w, e);
      && PhaseRank(w.master.phase) <= PhaseRank(w'.master.phase)
      && (w'.master.phase == w.master.phase ==> StepsLeft(w') < StepsLeft(w))
  {
    hide Step, Enabled, StepsLeft, OrderlyInv, AlwaysInv, OneAtATime, NotQueued, Accepted;
    StepOrderly(w, e);
    if e == Assign {
      AssignCounts(w);
    } else if e.Complete? {
      CompleteCounts(w, e);
    } else if Step(w, e).master.phase == w.master.phase {
      ProcessCounts(w);
    }
  }

  lemma {:induction false} SameTable(w: World)
    requires OrderlyInv(w) && Enabled(w, Process(0)) && Step(w, Process(0)).master.phase == w.master.phase
    requires OrderlyInv(Step(w, Process(0)))
    ensures Step(w, Process(0)).master.meta == w.master.meta
  {
  }

  // ----- who has a task

  predicate HandsOut(w: World, e: Event, t: Task) {
    e == Assign && w.master.queue != [] && w.master.queue[0] == t
  }

  /** Since event `n` the task has been handed out. */
  ghost predicate HandedSince(ws: seq<World>, es: seq<Event>, n: nat, t: Task)
    requires |ws| == |es| + 1
  {
    exists a | n <= a < |es| :: HandsOut(ws[a], es[a], t)
  }

  /** Whoever is at work now was given the task since event `n`. */
  ghost predicate RunningSince(ws: seq<World>, es: seq<Event>, n: nat)
    requires |ws| == |es| + 1
  {
    var c := ws[|es|].master;
    forall id | id in c.meta && c.meta[id].status == InProgress :: HandedSince(ws, es, n, c.meta[id].task)
  }

  /** Reports since event `n` are about tasks handed out since then, too. */
  ghost predicate NewReports(ws: seq<World>, es: seq<Event>, n: nat)
    requires |ws| == |es| + 1
  {
    forall b | n <= b < |es| && es[b].Complete? :: exists a | n <= a < b :: HandsOut(ws[a], es[a], es[b].task)
  }

  lemma {:induction false} SinceExtends(ws: seq<World>, es: seq<Event>, n: nat, e: Event, w: World, t: Task)
    requires |ws| == |es| + 1 && n <= |es|
    ensures HandedSince(ws, es, n, t) || HandsOut(ws[|es|], e, t) ==> HandedSince(ws + [w], es + [e], n, t)
  {
    hide HandsOut;
    var ws', es' := ws + [w], es + [e];
    if a :| n <= a < |es| && HandsOut(ws[a], es[a], t) {
      assert HandsOut(ws'[a], es'[a], t);
    }
    if HandsOut(ws[|es|], e, t) {
      assert HandsOut(ws'[|es|], es'[|es|], t);
    }
  }

  lemma {:induction false} AssignRunning(w: World, id: nat)
    requires OrderlyInv(w) && id in AssignTask(w.master).meta && AssignTask(w.master).meta[id].status == InProgress
    ensures var t := AssignTask(w.master).meta[id].task;
      HandsOut(w, Assign, t) || (id in w.master.meta && w.master.meta[id] == Meta(InProgress, t))
  {
  }

  lemma {:induction false} CompleteRunning(c: State, rep: Task, id: nat)
    requires id in TaskCompleted(c, rep).meta && TaskCompleted(c, rep).meta[id].status == InProgress
    ensures id in c.meta && c.meta[id] == TaskCompleted(c, rep).meta[id]
  {
  }

  lemma {:induction false} ProcessRunning(c: State, t: Task, id: nat)
    requires |c.inter| == c.nReduce && (t.state == Map ==> |t.interMediates| <= c.nReduce)
    requires id in ProcessTaskResult(c, t).meta && ProcessTaskResult(c, t).meta[id].status == InProgress
    ensures id in c.meta && c.meta[id] == ProcessTaskResult(c, t).meta[id]
  {
    hide CreateReduceTasks;
    if t.state == Map {
      CreatedIdle(c.(inter := Collect(c.inter, t.interMediates), meta := map[]), 0);
    }
  }

  /** A task comes into a worker's hands only by being handed out. */
  lemma {:induction false} StepRunning(w: World, e: Event, id: nat)
    requires Enabled(w, e) && OrderlyInv(w) && (e == Process(0) || e == Assign || e.Complete?)
    requires var d := Step(w, e).master; id in d.meta && d.meta[id].status == InProgress
    ensures var t := Step(w, e).master.meta[id].task;
      HandsOut(w, e, t) || (id in w.master.meta && w.master.meta[id] == Meta(InProgress, t))
  {
    hide OrderlyInv, AssignTask, TaskCompleted, ProcessTaskResult;
    match e
    case Assign => AssignRunning(w, id);
    case Complete(t) => CompleteRunning(w.master, Reported(t, w.master.nReduce), id);
    case Process(k) => ProcessRunning(w.master, w.pending[k], id);
  }

  lemma {:induction false} RunningExtends(ws: seq<World>, es: seq<Event>, n: nat, e: Event)
    requires |ws| == |es| + 1 && n <= |es| && RunningSince(ws, es, n) && OrderlyInv(ws[|es|])
    requires Enabled(ws[|es|], e) && (e == Process(0) || e == Assign || e.Complete?)
    ensures RunningSince(ws + [Step(ws[|es|], e)], es + [e], n)
  {
    hide OrderlyInv, Step, Enabled, HandedSince, HandsOut;
    var w, w' := ws[|es|], Step(ws[|es|], e);
    assert (ws + [w'])[|es + [e]|] == w';
    forall id | id in w'.master.meta && w'.master.meta[id].status == InProgress
      ensures HandedSince(ws + [w'], es + [e], n, w'.master.meta[id].task)
    {
      StepRunning(w, e, id);
      SinceExtends(ws, es, n, e, w', w'.master.meta[id].task);
    }
  }

  lemma {:induction false} ReportsExtend(ws: seq<World>, es: seq<Event>, n: nat, e: Event, w: World)
    requires |ws| == |es| + 1 && n <= |es| && NewReports(ws, es, n)
    requires e.Complete? ==> HandedSince(ws, es, n, e.task)
    ensures NewReports(ws + [w], es + [e], n)
  {
    hide HandsOut;
    var ws', es' := ws + [w], es + [e];
    forall b | n <= b < |es'| && es'[b].Complete? ensures exists a | n <= a < b :: HandsOut(ws'[a], es'[a], es'[b].task) {
      if b < |es| {
        assert es'[b] == es[b];
        var a :| n <= a < b && HandsOut(ws[a], es[a], es[b].task);
        assert HandsOut(ws'[a], es'[a], es'[b].task);
      } else {
        var a :| n <= a < |es| && HandsOut(ws[a], es[a], e.task);
        assert HandsOut(ws'[a], es'[a], es'[b].task);
      }
    }
  }

  lemma {:induction false} RunOn(nFiles: nat, nReduce: nat, ws: seq<World>, es: seq<Event>, n: nat) returns (ws': seq<World>, es': seq<Event>)
    requires Run(nFiles, nReduce, ws, es) && H1(ws, es) && H2(ws, es) && ProgressInv(ws[|es|])
    requires n <= |es| && RunningSince(ws, es, n) && NewReports(ws, es, n)
    ensures Run(nFiles, nReduce, ws', es') && H1(ws', es') && H2(ws', es')
    ensures es <= es' && ws <= ws' && ws'[|es'|].master.phase == Exit && NewReports(ws', es', n)
    decreases 2 - PhaseRank(ws[|es|].master.phase), StepsLeft(ws[|es|])
  {
    hide H1, H2, Step, Enabled, OrderlyInv, AlwaysInv, RunningHanded, SomethingLeft, OneAtATime, NotQueued, Accepted, StepsLeft, Run;
    hide NewReports, HandedSince;
    assert |ws| == |es| + 1 by { RunLength(nFiles, nReduce, ws, es); }
    var w := ws[|es|];
    if w.master.phase == Exit {
      ws', es' := ws, es;
    } else {
      var e := NextEvent(w);
      Worker.StepSizes(w, e);
      NextEventCounts(w, e);
      StepProgress(w, e);
      Extend(nFiles, nReduce, ws, es, e, Step(w, e));
      RunningExtends(ws, es, n, e);
      ReportsExtend(ws, es, n, e, Step(w, e));
      ws', es' := RunOn(nFiles, nReduce, ws + [Step(w, e)], es + [e], n);
    }
  }

  lemma {:induction false} RunLength(nFiles: nat, nReduce: nat, ws: seq<World>, es: seq<Event>)
    requires Run(nFiles, nReduce, ws, es)
    ensures |ws| == |es| + 1
  {
  }

  lemma {:induction false} ProgressHolds(nFiles: nat, nReduce: nat, ws: seq<World>, es: seq<Event>)
    requires nFiles > 0 && nReduce > 0 && Run(nFiles, nReduce, ws, es) && H1(ws, es) && H2(ws, es)
    ensures ProgressInv(ws[|es|])
    decreases |es|
  {
    hide ProgressInv, Step, Enabled, OneAtATime, NotQueued;
    if es == [] {
      InitProgress(nFiles, nReduce);
    } else {
      var k := |es| - 1;
      RunPrefix(nFiles, nReduce, ws, es);
      HypothesesPrefix(ws, es);
      ProgressHolds(nFiles, nReduce, ws[..k + 1], es[..k]);
      assert OneAtATime(ws[k], es[k]) && NotQueued(ws[k], es[k]);
      Worker.StepSizes(ws[k], es[k]);
      StepProgress(ws[k], es[k]);
    }
  }

  /** A timeout pass takes every late task from its worker, whatever the phase. */
  lemma {:induction false} TimeOutTakes(c: State, late: seq<nat>)
    requires c.phase != Exit
    ensures var d := CatchTimeOut(c, late);
      && d.meta.Keys == c.meta.Keys && (c.stuck ==> d.stuck)
      && (forall id | id in d.meta && d.meta[id].status == InProgress ::
            c.meta[id] == d.meta[id] && (d.stuck || id !in late))
    decreases |late|
  {
    if late != [] {
      TimeOutTakes(Requeue(c, late[0]), late[1..]);
    }
  }

  function AllTasks(w: World): seq<nat> {
    UpTo(TaskCount(w.master))
  }

  lemma {:induction false} AllTaken(w: World)
    requires ProgressInv(w) && w.master.phase != Exit
    ensures Enabled(w, TimeOut(AllTasks(w)))
    ensures var d := Step(w, TimeOut(AllTasks(w))).master;
      forall id | id in d.meta :: d.meta[id].status != InProgress
  {
    hide QueueExact, ProcessedExact, HandedKnown, CatchTimeOut;
    var late := AllTasks(w);
    TimeOutTakes(w.master, late);
    assert !CatchTimeOut(w.master, late).stuck by { CatchTimeOutOrderly(w, late); }
    forall id: nat | id < TaskCount(w.master) ensures id in late { assert late[id] == id; }
  }

  /** With at least one file and one reduce task, every orderly run can be brought to its end, by
      new workers alone: even if nobody who has a task now ever reports it, a timeout pass frees
      the tasks, and every report after it is about a task handed out after it. */
  lemma {:induction false} CanFinish(nFiles: nat, nReduce: nat, ws: seq<World>, es: seq<Event>) returns (ws': seq<World>, es': seq<Event>)
    requires nFiles > 0 && nReduce > 0 && Run(nFiles, nReduce, ws, es) && H1(ws, es) && H2(ws, es)
    ensures Run(nFiles, nReduce, ws', es') && H1(ws', es') && H2(ws', es')
    ensures es <= es' && ws <= ws' && ws'[|es'|].master.phase == Exit
    ensures |ws'| == |es'| + 1 && NewReports(ws', es', |es|)
  {
    hide Run, H1, H2, Step, ProgressInv, RunningSince;
    RunLength(nFiles, nReduce, ws, es);
    ProgressHolds(nFiles, nReduce, ws, es);
    var w := ws[|es|];
    if w.master.phase == Exit {
      ws', es' := ws, es;
    } else {
      AllTaken(w);
      var e := TimeOut(AllTasks(w));
      var w1 := Step(w, e);
      Extend(nFiles, nReduce, ws, es, e, w1);
      ProgressHolds(nFiles, nReduce, ws + [w1], es + [e]);
      assert RunningSince(ws + [w1], es + [e], |es|) by { NobodyRuns(ws + [w1], es + [e], |es|); }
      ReportsExtend(ws, es, |es|, e, w1);
      ws', es' := RunOn(nFiles, nReduce, ws + [w1], es + [e], |es|);
      RunLength(nFiles, nReduce, ws', es');
    }
  }

  lemma {:induction false} NobodyRuns(ws: seq<World>, es: seq<Event>, n: nat)
    requires |ws| == |es| + 1
    requires forall id | id in ws[|es|].master.meta :: ws[|es|].master.meta[id].status != InProgress
    ensures RunningSince(ws, es, n)
  {
  }

  // ----- jobs that never end

  /** Without files nothing ever happens; without reduce tasks no reduce result arrives. */
  ghost predicate Idles(w: World) {
    && w.master.phase != Exit
    && (w.master.nFiles == 0 ==>
          w.master.phase == Map && w.master.queue == [] && w.master.meta == map[] && w.pending == [] && w.handed == {})
    && (w.master.nReduce == 0 ==>
          && (w.master.phase != Map ==> w.master.meta == map[])
          && forall k | 0 <= k < |w.pending| :: w.pending[k].state == Map)
  }

  lemma {:induction false} StepIdles(w: World, e: Event)
    requires Enabled(w, e) && Idles(w) && (w.master.nFiles == 0 || w.master.nReduce == 0)
    requires Step(w, e).master.nFiles == w.master.nFiles && Step(w, e).master.nReduce == w.master.nReduce
    ensures Idles(Step(w, e))
  {
    var c, w' := w.master, Step(w, e);
    match e
    case Assign =>
    case Complete(t) =>
    case Process(k) =>
      assert forall j | 0 <= j < |w'.pending| :: w'.pending[j] == w.pending[if j < k then j else j + 1];
      PhaseNeverBack(c, w.pending[k]);
      ReduceTasksPhase(c.(inter := Collect(c.inter, w.pending[k].interMediates), meta := map[]), 0);
    case TimeOut(late) =>
      CatchTimeOutReopens(c, late);
      if c.nFiles == 0 { NothingLate(c, late); }
  }

  lemma {:induction false} NothingLate(c: State, late: seq<nat>)
    requires c.meta == map[]
    ensures CatchTimeOut(c, late) == c
    decreases |late|
  {
    if late != [] && c.phase != Exit { NothingLate(c, late[1..]); }
  }

  lemma {:induction false} IdlesForEver(nFiles: nat, nReduce: nat, ws: seq<World>, es: seq<Event>)
    requires Run(nFiles, nReduce, ws, es) && (nFiles == 0 || nReduce == 0)
    ensures Idles(ws[|es|])
    decreases |es|
  {
    if es == [] {
      CreateMapTasksTable(State(nFiles, nReduce, [], map[], Map, seq(nReduce, _ => []), false), 0);
    } else {
      hide Step, Enabled, Idles;
      var k := |es| - 1;
      RunPrefix(nFiles, nReduce, ws, es);
      IdlesForEver(nFiles, nReduce, ws[..k + 1], es[..k]);
      Worker.RunSizes(nFiles, nReduce, ws[..k + 1], es[..k]);
      Worker.StepSizes(ws[k], es[k]);
      StepIdles(ws[k], es[k]);
    }
  }

  ghost predicate Finishes(nFiles: nat, nReduce: nat) {
    exists ws: seq<World>, es: seq<Event> :: |ws| == |es| + 1 && Run(nFiles, nReduce, ws, es) && ws[|es|].master.phase == Exit
  }

  /** A job can end exactly if it has a file and a reduce task. */
  lemma {:induction false} FinishesExactly(nFiles: nat, nReduce: nat)
    ensures Finishes(nFiles, nReduce) <==> nFiles > 0 && nReduce > 0
  {
    hide Run, H1, H2;
    if nFiles > 0 && nReduce > 0 {
      InitOne(nFiles, nReduce);
      var ws, es := CanFinish(nFiles, nReduce, [Init(nFiles, nReduce)], []);
      RunLength(nFiles, nReduce, ws, es);
    } else if Finishes(nFiles, nReduce) {
      var ws: seq<World>, es: seq<Event> :| |ws| == |es| + 1 && Run(nFiles, nReduce, ws, es) && ws[|es|].master.phase == Exit;
      IdlesForEver(nFiles, nReduce, ws, es);
    }
  }
}
