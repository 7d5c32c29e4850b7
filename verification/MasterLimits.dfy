/** mr/master.go without the two hypotheses: exactly which files the reduce tasks miss, and runs
    in which files are missing or listed twice. */
module MasterLimits {
  import opened Dataflow
  import opened Master
  import opened MasterRuns

  // ----- exactly which files the reduce tasks miss

  /** While mapping, whatever the interleaving: a completed task has been processed or waits. */
  ghost predicate Covered(w: World) {
    !w.master.stuck && w.master.phase == Map ==>
      && (forall id: nat :: id in w.master.meta <==> id < w.master.nFiles)
      && (forall id | id in w.master.meta && w.master.meta[id].status == Completed ::
            id in w.processed || Waiting(w.pending, id))
  }

  ghost predicate Waiting(pending: seq<Task>, id: nat) {
    exists k | 0 <= k < |pending| :: pending[k].state == Map && pending[k].id == id
  }

  lemma {:induction false} WaitingAppend(pending: seq<Task>, t: Task, id: nat)
    ensures Waiting(pending + [t], id) <==> Waiting(pending, id) || (t.state == Map && t.id == id)
  {
    var p := pending + [t];
    if Waiting(pending, id) {
      var k :| 0 <= k < |pending| && pending[k].state == Map && pending[k].id == id;
      assert p[k] == pending[k];
    }
    if t.state == Map && t.id == id { assert p[|pending|] == t; }
  }

  lemma {:induction false} WaitingRemove(pending: seq<Task>, k: nat, id: nat)
    requires k < |pending| && Waiting(pending, id)
    ensures Waiting(pending[..k] + pending[k + 1..], id) || (pending[k].state == Map && pending[k].id == id)
  {
    var j :| 0 <= j < |pending| && pending[j].state == Map && pending[j].id == id;
    var p := pending[..k] + pending[k + 1..];
    if j != k { assert p[if j < k then j else j - 1] == pending[j]; }
  }

  lemma {:induction false} StepCovered(w: World, e: Event)
    requires Enabled(w, e) && Covered(w)
    ensures Covered(Step(w, e))
  {
    var c, w' := w.master, Step(w, e);
    match e
    case Assign => AssignReopens(c);
    case Complete(t) =>
      var rep := Reported(t, c.nReduce);
      forall id | id in c.meta && Accepts(c, rep) ensures Waiting(w'.pending, id) <==> Waiting(w.pending, id) || (rep.state == Map && rep.id == id) {
        WaitingAppend(w.pending, rep, id);
      }
    case Process(k) =>
      ProcessCovered(w, k);
    case TimeOut(late) => CatchTimeOutReopens(c, late);
  }

  lemma {:induction false} ProcessCovered(w: World, k: nat)
    requires Enabled(w, Process(k)) && Covered(w)
    ensures Covered(Step(w, Process(k)))
  {
    var c, t, w' := w.master, w.pending[k], Step(w, Process(k));
    if c.phase == Map && !w'.master.stuck && w'.master.phase == Map {
      assert w'.master.meta == c.meta by { MapPhaseKeepsTable(w, k); }
      forall id | id in c.meta && c.meta[id].status == Completed
        ensures id in w'.processed || Waiting(w'.pending, id)
      {
        if id !in w.processed { WaitingRemove(w.pending, k, id); }
      }
    } else {
      PhaseNeverBack(c, t);
    }
  }

  /** The map phase is never entered again. */
  lemma {:induction false} PhaseNeverBack(c: State, t: Task)
    requires |c.inter| == c.nReduce && (t.state == Map ==> |t.interMediates| <= c.nReduce)
    ensures c.phase != Map ==> ProcessTaskResult(c, t).phase != Map
    ensures t.state == Map && c.phase == Map && AllDone(c) && !ProcessTaskResult(c, t).stuck ==> ProcessTaskResult(c, t).phase == Reduce
  {
    if t.state == Map {
      ReduceTasksPhase(c.(inter := Collect(c.inter, t.interMediates), meta := map[]), 0);
    }
  }

  lemma {:induction false} MapPhaseKeepsTable(w: World, k: nat)
    requires Enabled(w, Process(k)) && w.master.phase == Map
    requires !Step(w, Process(k)).master.stuck && Step(w, Process(k)).master.phase == Map
    ensures Step(w, Process(k)).master.meta == w.master.meta
  {
    PhaseNeverBack(w.master, w.pending[k]);
  }

  lemma {:induction false} CoveredHolds(nFiles: nat, nReduce: nat, ws: seq<World>, es: seq<Event>)
    requires Run(nFiles, nReduce, ws, es)
    ensures Covered(ws[|es|])
    decreases |es|
  {
    hide Covered, Step, Enabled;
    if es == [] {
      InitCovered(nFiles, nReduce);
    } else {
      var k := |es| - 1;
      RunPrefix(nFiles, nReduce, ws, es);
      CoveredHolds(nFiles, nReduce, ws[..k + 1], es[..k]);
      StepCovered(ws[k], es[k]);
    }
  }

  lemma {:induction false} InitCovered(nFiles: nat, nReduce: nat)
    ensures Covered(Init(nFiles, nReduce))
  {
    CreateMapTasksTable(State(nFiles, nReduce, [], map[], Map, seq(nReduce, _ => []), false), 0);
  }

  /** No hypotheses.  When processing a result ends the map phase, every reduce task lists the
      processed map tasks, so it misses none exactly when every map result that is still waiting
      belongs to a task that has been processed before. */
  lemma {:induction false} MissesExactly(nFiles: nat, nReduce: nat, ws: seq<World>, es: seq<Event>, k: nat)
    requires Run(nFiles, nReduce, ws, es) && Enabled(ws[|es|], Process(k))
    requires ws[|es|].master.phase == Map && Step(ws[|es|], Process(k)).master.phase == Reduce
    ensures var w' := Step(ws[|es|], Process(k));
      && (forall id | id in w'.master.meta :: w'.master.meta[id].task.interMediates == Listing(w'.processed, id))
      && (Listed(w'.processed, w'.master.nFiles) <==>
            forall j | 0 <= j < |w'.pending| && w'.pending[j].state == Map && w'.pending[j].id < w'.master.nFiles :: w'.pending[j].id in w'.processed)
  {
    var w, w' := ws[|es|], Step(ws[|es|], Process(k));
    var c, t := w.master, w.pending[k];
    AlwaysHolds(nFiles, nReduce, ws, es);
    CoveredHolds(nFiles, nReduce, ws, es);
    CollectLists(w, k);
    ReduceTasksList(c.(inter := Collect(c.inter, t.interMediates), meta := map[]), 0, w'.processed);
    forall id: nat | id < c.nFiles ensures id in w'.processed || Waiting(w'.pending, id) {
      assert c.meta[id].status == Completed;
      if id !in w.processed { WaitingRemove(w.pending, k, id); }
    }
  }

  // ----- runs that break a hypothesis

  /** One more event at the end of a run. */
  lemma {:induction false} Extend(nFiles: nat, nReduce: nat, ws: seq<World>, es: seq<Event>, e: Event, w: World)
    requires Run(nFiles, nReduce, ws, es) && Enabled(ws[|es|], e) && w == Step(ws[|es|], e)
    ensures Run(nFiles, nReduce, ws + [w], es + [e])
    ensures H1(ws + [w], es + [e]) <==> H1(ws, es) && OneAtATime(ws[|es|], e)
    ensures H2(ws + [w], es + [e]) <==> H2(ws, es) && NotQueued(ws[|es|], e)
  {
    hide Enabled, Step, OneAtATime, NotQueued;
    var ws', es' := ws + [w], es + [e];
    assert forall i | 0 <= i <= |es| :: ws'[i] == ws[i];
    assert forall i | 0 <= i < |es| :: es'[i] == es[i];
    assert ws'[|es| + 1] == w && es'[|es|] == e;
    if H1(ws', es') {
      assert OneAtATime(ws'[|es|], es'[|es|]);
      forall i | 0 <= i < |es| ensures OneAtATime(ws[i], es[i]) { assert OneAtATime(ws'[i], es'[i]); }
    }
    if H2(ws', es') {
      assert NotQueued(ws'[|es|], es'[|es|]);
      forall i | 0 <= i < |es| ensures NotQueued(ws[i], es[i]) { assert NotQueued(ws'[i], es'[i]); }
    }
  }

  lemma {:induction false} InitOne(nFiles: nat, nReduce: nat)
    ensures Run(nFiles, nReduce, [Init(nFiles, nReduce)], []) && H1([Init(nFiles, nReduce)], []) && H2([Init(nFiles, nReduce)], [])
  {
  }

  const M0 := MapTask(0)
  const M1 := MapTask(1)
  const REP0 := Task(0, Map, [FileName(0, 0)])
  const REP1 := Task(1, Map, [FileName(1, 0)])

  lemma {:induction false} Reports()
    ensures Reported(M0, 1) == REP0 && Reported(M1, 1) == REP1
  {
    assert MapFiles(0, 1) == [FileName(0, 0)] && MapFiles(1, 1) == [FileName(1, 0)];
  }

  // two files, one reduce task

  function Two(queue: seq<Task>, s0: Status, s1: Status, inter: seq<FileName>): State {
    State(2, 1, queue, map[0 := Meta(s0, M0), 1 := Meta(s1, M1)], Map, [inter], false)
  }

  lemma {:induction false} InitialTwo()
    ensures Init(2, 1) == World(Two([M0, M1], Idle, Idle, []), {}, [], [])
  {
    var c0 := State(2, 1, [], map[], Map, seq(1, _ => []), false);
    assert c0.inter == [[]];
    var c1, c2 := Create(c0, M0), Create(Create(c0, M0), M1);
    assert CreateMapTasks(c2, 2) == c2;
    assert CreateMapTasks(c1, 1) == c2;
    assert CreateMapTasks(c0, 0) == c2;
  }

  lemma {:induction false} BothReport(w: World) returns (w1: World, w2: World, w3: World, w4: World)
    requires w == World(Two([M0, M1], Idle, Idle, []), {}, [], [])
    ensures Enabled(w, Assign) && w1 == Step(w, Assign)
    ensures Enabled(w1, Assign) && w2 == Step(w1, Assign)
    ensures Enabled(w2, Complete(M0)) && w3 == Step(w2, Complete(M0)) && w2.master.queue == []
    ensures Enabled(w3, Complete(M1)) && w4 == Step(w3, Complete(M1)) && w3.master.queue == []
    ensures w3.pending == [REP0] && Accepted(w3, Complete(M1))
    ensures w4.master == Two([], Completed, Completed, []) && w4.pending == [REP0, REP1] && w4.processed == []
  {
    Reports();
    w1 := World(Two([M1], InProgress, Idle, []), {M0}, [], []);
    w2 := World(Two([], InProgress, InProgress, []), {M0, M1}, [], []);
    w3 := World(Two([], Completed, InProgress, []), {M0, M1}, [REP0], []);
    w4 := World(Two([], Completed, Completed, []), {M0, M1}, [REP0, REP1], []);
    assert Step(w, Assign) == w1;
    assert Step(w1, Assign) == w2;
    assert Step(w2, Complete(M0)) == w3;
    assert Step(w3, Complete(M1)) == w4;
  }

  lemma {:induction false} ProcessFirst(w: World) returns (w': World)
    requires w.master == Two([], Completed, Completed, []) && w.pending == [REP0, REP1]
    ensures Enabled(w, Process(0)) && w' == Step(w, Process(0))
    ensures w'.master.phase == Reduce && 0 in w'.master.meta
    ensures w'.master.meta[0].task.interMediates == [FileName(0, 0)]
  {
    var c := w.master;
    var inter := Collect(c.inter, REP0.interMediates);
    assert inter[0] == [FileName(0, 0)];
    var d := c.(inter := inter, meta := map[]);
    var e := Create(d, Task(0, Reduce, inter[0]));
    assert CreateReduceTasks(e, 1) == e;
    assert CreateReduceTasks(d, 0) == e;
    w' := Step(w, Process(0));
  }

  /** Both reports come in before the first result is processed: the reduce task is created
      without the second map task's file. */
  lemma {:induction false} MissingFileRun() returns (ws: seq<World>, es: seq<Event>)
    ensures Run(2, 1, ws, es) && H2(ws, es) && !H1(ws, es)
    ensures ws[|es|].master.phase == Reduce && 0 in ws[|es|].master.meta
    ensures ws[|es|].master.meta[0].task.interMediates == [FileName(0, 0)]
  {
    hide Step, Run, H1, H2;
    InitialTwo();
    var w0 := Init(2, 1);
    var w1, w2, w3, w4 := BothReport(w0);
    var w5 := ProcessFirst(w4);
    InitOne(2, 1);
    Extend(2, 1, [w0], [], Assign, w1);
    Extend(2, 1, [w0] + [w1], [] + [Assign], Assign, w2);
    Extend(2, 1, [w0] + [w1] + [w2], [] + [Assign] + [Assign], Complete(M0), w3);
    Extend(2, 1, [w0] + [w1] + [w2] + [w3], [] + [Assign] + [Assign] + [Complete(M0)], Complete(M1), w4);
    Extend(2, 1, [w0] + [w1] + [w2] + [w3] + [w4], [] + [Assign] + [Assign] + [Complete(M0)] + [Complete(M1)], Process(0), w5);
    ws := [w0] + [w1] + [w2] + [w3] + [w4] + [w5];
    es := [] + [Assign] + [Assign] + [Complete(M0)] + [Complete(M1)] + [Process(0)];
    assert ws[|es|] == w5;
  }

  // the same size: a task is completed twice

  lemma {:induction false} CollectOne(files: seq<FileName>)
    ensures |REP0.interMediates| == 1 && Collect([files], REP0.interMediates) == [files + [FileName(0, 0)]]
  {
    assert REP0.interMediates == [FileName(0, 0)];
  }

  /** The result of the first task is processed while the second is not done. */
  lemma {:induction false} ProcessOne(w: World, queue: seq<Task>, s1: Status, files: seq<FileName>)
    requires w.master == Two(queue, Completed, s1, files) && s1 != Completed && w.pending == [REP0]
    ensures Enabled(w, Process(0))
    ensures Step(w, Process(0)) ==
      World(Two(queue, Completed, s1, files + [FileName(0, 0)]), w.handed, [], w.processed + [0])
  {
    CollectOne(files);
    assert w.pending[..0] + w.pending[1..] == [];
    assert w.master.meta[1].status == s1;
  }

  lemma {:induction false} LateThenReported(w: World) returns (w1: World, w2: World, w3: World, w4: World)
    requires w == World(Two([M0, M1], Idle, Idle, []), {}, [], [])
    ensures Enabled(w, Assign) && w1 == Step(w, Assign)
    ensures Enabled(w1, TimeOut([0])) && w2 == Step(w1, TimeOut([0]))
    ensures Enabled(w2, Complete(M0)) && w3 == Step(w2, Complete(M0)) && w2.pending == []
    ensures w2.master.queue == [M1, M0] && Accepted(w2, Complete(M0))
    ensures Enabled(w3, Process(0)) && w4 == Step(w3, Process(0))
    ensures w4 == World(Two([M1, M0], Completed, Idle, [FileName(0, 0)]), {M0}, [], [0])
  {
    Reports();
    w1 := World(Two([M1], InProgress, Idle, []), {M0}, [], []);
    w2 := World(Two([M1, M0], Idle, Idle, []), {M0}, [], []);
    w3 := World(Two([M1, M0], Completed, Idle, []), {M0}, [REP0], []);
    w4 := World(Two([M1, M0], Completed, Idle, [FileName(0, 0)]), {M0}, [], [0]);
    assert Step(w, Assign) == w1;
    assert CatchTimeOut(w1.master, [0]) == CatchTimeOut(Requeue(w1.master, 0), []) == w2.master;
    assert Step(w2, Complete(M0)) == w3;
    ProcessOne(w3, [M1, M0], Idle, []);
    assert [] + [FileName(0, 0)] == [FileName(0, 0)] && w3.processed + [0] == [0];
  }

  lemma {:induction false} ReportedAgain(w: World) returns (w1: World, w2: World, w3: World, w4: World)
    requires w == World(Two([M1, M0], Completed, Idle, [FileName(0, 0)]), {M0}, [], [0])
    ensures Enabled(w, Assign) && w1 == Step(w, Assign)
    ensures Enabled(w1, Assign) && w2 == Step(w1, Assign)
    ensures Enabled(w2, Complete(M0)) && w3 == Step(w2, Complete(M0)) && w2.pending == [] && w2.master.queue == []
    ensures Enabled(w3, Process(0)) && w4 == Step(w3, Process(0))
    ensures w4.master == Two([], Completed, InProgress, [FileName(0, 0), FileName(0, 0)])
  {
    Reports();
    w1 := World(Two([M0], Completed, InProgress, [FileName(0, 0)]), {M0, M1}, [], [0]);
    w2 := World(Two([], InProgress, InProgress, [FileName(0, 0)]), {M0, M1}, [], [0]);
    w3 := World(Two([], Completed, InProgress, [FileName(0, 0)]), {M0, M1}, [REP0], [0]);
    assert Step(w, Assign) == w1;
    assert Step(w1, Assign) == w2;
    assert Step(w2, Complete(M0)) == w3;
    ProcessOne(w3, [], InProgress, [FileName(0, 0)]);
    assert [FileName(0, 0)] + [FileName(0, 0)] == [FileName(0, 0), FileName(0, 0)];
    w4 := Step(w3, Process(0));
  }

  /** A late task is queued again and then reported; when the copy is handed out its completion
      is forgotten, and a second report is accepted: its file is listed twice. */
  lemma {:induction false} DuplicateFileRun() returns (ws: seq<World>, es: seq<Event>)
    ensures Run(2, 1, ws, es) && H1(ws, es) && !H2(ws, es)
    ensures ws[|es|].master.inter == [[FileName(0, 0), FileName(0, 0)]]
  {
    hide Step, Run, H1, H2, Enabled;
    InitialTwo();
    var w0 := Init(2, 1);
    var w1, w2, w3, w4 := LateThenReported(w0);
    var w5, w6, w7, w8 := ReportedAgain(w4);
    assert w2.master.queue[1] == M0;
    InitOne(2, 1);
    Extend(2, 1, [w0], [], Assign, w1);
    Extend(2, 1, [w0] + [w1], [] + [Assign], TimeOut([0]), w2);
    var ws2, es2 := [w0] + [w1] + [w2], [] + [Assign] + [TimeOut([0])];
    Extend(2, 1, ws2, es2, Complete(M0), w3);
    Extend(2, 1, ws2 + [w3], es2 + [Complete(M0)], Process(0), w4);
    var ws4, es4 := ws2 + [w3] + [w4], es2 + [Complete(M0)] + [Process(0)];
    Extend(2, 1, ws4, es4, Assign, w5);
    Extend(2, 1, ws4 + [w5], es4 + [Assign], Assign, w6);
    var ws6, es6 := ws4 + [w5] + [w6], es4 + [Assign] + [Assign];
    Extend(2, 1, ws6, es6, Complete(M0), w7);
    Extend(2, 1, ws6 + [w7], es6 + [Complete(M0)], Process(0), w8);
    ws, es := ws6 + [w7] + [w8], es6 + [Complete(M0)] + [Process(0)];
    assert ws[|es|] == w8;
  }
}
