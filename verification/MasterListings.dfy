/** mr/master.go: how often the files of a map task are listed, in any run. */
module MasterListings {
  import opened Dataflow
  import opened Master
  import opened MasterRuns
  import opened MasterLimits

  // ----- counting results

  /** The results of a map task that wait to be processed. */
  function Waits(pending: seq<Task>, id: nat): nat {
    if pending == [] then 0
    else
      var n := |pending| - 1;
      Waits(pending[..n], id) + if pending[n].state == Map && pending[n].id == id then 1 else 0
  }

  /** The results of a map task, processed or waiting. */
  function Times(w: World, id: nat): nat {
    multiset(w.processed)[id] + Waits(w.pending, id)
  }

  function One(b: bool): nat {
    if b then 1 else 0
  }

  /** A completed map task is handed out again, and with that its completion forgotten. */
  predicate Reopens(w: World, e: Event, id: nat) {
    && e == Assign && w.master.phase == Map && w.master.queue != [] && w.master.queue[0].id == id
    && id in w.master.meta && w.master.meta[id].status == Completed
  }

  /** A report of the map task is accepted. */
  predicate Reported(w: World, e: Event, id: nat) {
    Accepted(w, e) && e.task.state == Map && e.task.id == id
  }

  ghost predicate Reopened(ws: seq<World>, es: seq<Event>, id: nat)
    requires |ws| == |es| + 1
  {
    exists a | 0 <= a < |es| :: Reopens(ws[a], es[a], id)
  }

  /** The task was handed out again after its completion, and reported again after that. */
  ghost predicate ReportedAgain(ws: seq<World>, es: seq<Event>, id: nat)
    requires |ws| == |es| + 1
  {
    exists a, b | 0 <= a < b < |es| :: Reopens(ws[a], es[a], id) && Reported(ws[b], es[b], id)
  }

  lemma {:induction false} WaitsAppend(pending: seq<Task>, t: Task, id: nat)
    ensures Waits(pending + [t], id) == Waits(pending, id) + One(t.state == Map && t.id == id)
  {
    assert (pending + [t])[..|pending|] == pending;
  }

  lemma {:induction false} WaitsRemove(pending: seq<Task>, k: nat, id: nat)
    requires k < |pending|
    ensures Waits(pending, id) == Waits(pending[..k] + pending[k + 1..], id) + One(pending[k].state == Map && pending[k].id == id)
  {
    var n := |pending| - 1;
    var rest := pending[..k] + pending[k + 1..];
    if k == n {
      assert rest == pending[..n];
    } else {
      WaitsRemove(pending[..n], k, id);
      assert rest == pending[..n][..k] + pending[..n][k + 1..] + [pending[n]];
      WaitsAppend(pending[..n][..k] + pending[..n][k + 1..], pending[n], id);
    }
  }

  // ----- one step

  lemma {:induction false} StepTimes(w: World, e: Event, id: nat)
    requires Enabled(w, e)
    ensures Times(Step(w, e), id) == Times(w, id) + One(Reported(w, e, id))
  {
    hide Waits;
    match e
    case Assign =>
    case Complete(t) =>
      var rep := MasterRuns.Reported(t, w.master.nReduce);
      if Accepts(w.master, rep) { WaitsAppend(w.pending, rep, id); }
    case Process(k) => WaitsRemove(w.pending, k, id);
    case TimeOut(late) =>
  }

  lemma {:induction false} TimeOutKeepsCompleted(c: State, late: seq<nat>, id: nat)
    ensures var d := CatchTimeOut(c, late);
      id in c.meta && c.meta[id].status == Completed ==> id in d.meta && d.meta[id].status == Completed
    decreases |late|
  {
    if late != [] && c.phase != Exit {
      TimeOutKeepsCompleted(Requeue(c, late[0]), late[1..], id);
    }
  }

  predicate Done(c: State, id: nat) {
    id in c.meta && c.meta[id].status == Completed
  }

  /** While mapping, a task is completed by a report and reopened by being handed out. */
  lemma {:induction false} StepStatus(w: World, e: Event, id: nat)
    requires Enabled(w, e)
    ensures var w' := Step(w, e);
      !w'.master.stuck && w'.master.phase == Map ==>
        && w.master.phase == Map && (id in w'.master.meta <==> id in w.master.meta)
        && (Done(w'.master, id) <==> (Done(w.master, id) && !Reopens(w, e, id)) || Reported(w, e, id))
  {
    var c := w.master;
    match e
    case Assign =>
    case Complete(t) =>
    case Process(k) =>
      PhaseNeverBack(c, w.pending[k]);
      var w' := Step(w, e);
      if c.phase == Map && !w'.master.stuck && w'.master.phase == Map { MapPhaseKeepsTable(w, k); }
    case TimeOut(late) =>
      CatchTimeOutReopens(c, late);
      TimeOutKeepsCompleted(c, late, id);
  }

  // ----- every run

  ghost predicate TimesInv(ws: seq<World>, es: seq<Event>, id: nat)
    requires |ws| == |es| + 1
  {
    var w := ws[|es|];
    && (!w.master.stuck && w.master.phase == Map ==>
          && (Done(w.master, id) ==> Times(w, id) >= 1)
          && (!Done(w.master, id) && Times(w, id) >= 1 ==> Reopened(ws, es, id)))
    && (Reopened(ws, es, id) ==> Times(w, id) >= 1)
    && (Times(w, id) >= 2 <==> ReportedAgain(ws, es, id))
  }

  lemma {:induction false} SplitLast(ws: seq<World>, es: seq<Event>, id: nat)
    requires |ws| == |es| + 1 && es != []
    ensures var k := |es| - 1; var ws', es' := ws[..k + 1], es[..k];
      && (Reopened(ws, es, id) <==> Reopened(ws', es', id) || Reopens(ws[k], es[k], id))
      && (ReportedAgain(ws, es, id) <==>
            ReportedAgain(ws', es', id) || (Reopened(ws', es', id) && Reported(ws[k], es[k], id)))
  {
    hide Reopens, Reported;
    var k := |es| - 1;
    var ws', es' := ws[..k + 1], es[..k];
    assert forall i | 0 <= i <= k :: ws'[i] == ws[i];
    assert forall i | 0 <= i < k :: es'[i] == es[i];
    if a :| 0 <= a < k && Reopens(ws'[a], es'[a], id) {
      assert Reopens(ws[a], es[a], id);
    }
    if a :| 0 <= a < k && Reopens(ws[a], es[a], id) {
      assert Reopens(ws'[a], es'[a], id);
    }
    if a, b :| 0 <= a < b < k && Reopens(ws'[a], es'[a], id) && Reported(ws'[b], es'[b], id) {
      assert Reopens(ws[a], es[a], id) && Reported(ws[b], es[b], id);
    }
    if a, b :| 0 <= a < b < |es| && Reopens(ws[a], es[a], id) && Reported(ws[b], es[b], id) {
      assert Reopens(ws'[a], es'[a], id);
      if b < k { assert Reported(ws'[b], es'[b], id); }
    }
  }

  lemma {:induction false} TimesHolds(nFiles: nat, nReduce: nat, ws: seq<World>, es: seq<Event>, id: nat)
    requires Run(nFiles, nReduce, ws, es)
    ensures TimesInv(ws, es, id)
    decreases |es|
  {
    if es == [] {
      CreateMapTasksTable(State(nFiles, nReduce, [], map[], Map, seq(nReduce, _ => []), false), 0);
    } else {
      hide Step, Enabled, Times, Done, Reopens, Reported, Reopened, ReportedAgain;
      var k := |es| - 1;
      RunPrefix(nFiles, nReduce, ws, es);
      TimesHolds(nFiles, nReduce, ws[..k + 1], es[..k], id);
      SplitLast(ws, es, id);
      StepTimes(ws[k], es[k], id);
      StepStatus(ws[k], es[k], id);
      EitherOr(ws[k], es[k], id);
    }
  }

  lemma {:induction false} EitherOr(w: World, e: Event, id: nat)
    ensures !(Reopens(w, e, id) && Reported(w, e, id))
    ensures Reopens(w, e, id) ==> Done(w.master, id) && w.master.phase == Map
    ensures Reported(w, e, id) ==> !Done(w.master, id) && w.master.phase == Map
  {
  }

  lemma {:induction false} ListingCount(processed: seq<nat>, id: nat, r: nat)
    ensures multiset(Listing(processed, r))[FileName(id, r)] == multiset(processed)[id]
  {
    if processed != [] {
      var n := |processed| - 1;
      ListingCount(processed[..n], id, r);
      assert processed == processed[..n] + [processed[n]];
      assert Listing(processed, r) == Listing(processed[..n], r) + [FileName(processed[n], r)];
    }
  }

  /** No hypotheses.  A file of a map task is listed twice, or listed and waiting to be listed,
      or waiting twice, exactly when the task was handed out again after its completion and
      another report of it was accepted after that. */
  lemma {:induction false} TwiceExactly(nFiles: nat, nReduce: nat, ws: seq<World>, es: seq<Event>, id: nat, r: nat)
    requires Run(nFiles, nReduce, ws, es) && r < ws[|es|].master.nReduce
    ensures var w := ws[|es|];
      && r < |w.master.inter|
      && (multiset(w.master.inter[r])[FileName(id, r)] + Waits(w.pending, id) >= 2 <==> ReportedAgain(ws, es, id))
  {
    AlwaysHolds(nFiles, nReduce, ws, es);
    TimesHolds(nFiles, nReduce, ws, es, id);
    ListingCount(ws[|es|].processed, id, r);
  }

  // ----- no report while a copy is queued

  /** While mapping, no queued copy belongs to a completed task. */
  ghost predicate QueueOpen(c: State) {
    !c.stuck && c.phase == Map ==>
      && (forall i | 0 <= i < |c.queue| ::
            c.queue[i].state == Map && c.queue[i].id in c.meta && c.meta[c.queue[i].id].status != Completed)
      && (forall id | id in c.meta :: c.meta[id].task.id == id && c.meta[id].task.state == Map)
  }

  lemma {:induction false} RequeueOpen(c: State, id: nat)
    requires QueueOpen(c) && !c.stuck
    ensures QueueOpen(Requeue(c, id))
  {
  }

  lemma {:induction false} CatchTimeOutOpen(c: State, late: seq<nat>)
    requires QueueOpen(c)
    ensures QueueOpen(CatchTimeOut(c, late))
    decreases |late|
  {
    if late != [] && c.phase != Exit {
      if !c.stuck { RequeueOpen(c, late[0]); }
      CatchTimeOutOpen(Requeue(c, late[0]), late[1..]);
    }
  }

  lemma {:induction false} StepOpen(w: World, e: Event)
    requires Enabled(w, e) && QueueOpen(w.master) && NotQueued(w, e)
    ensures QueueOpen(Step(w, e).master)
  {
    var c, d := w.master, Step(w, e).master;
    match e
    case Assign =>
      if c.queue != [] { assert forall i | 0 <= i < |d.queue| :: d.queue[i] == c.queue[i + 1]; }
    case Complete(t) =>
    case Process(k) =>
      PhaseNeverBack(c, w.pending[k]);
      if c.phase == Map && !d.stuck && d.phase == Map { MapPhaseKeepsTable(w, k); }
    case TimeOut(late) => CatchTimeOutOpen(c, late);
  }

  lemma {:induction false} OpenHolds(nFiles: nat, nReduce: nat, ws: seq<World>, es: seq<Event>, id: nat)
    requires Run(nFiles, nReduce, ws, es) && H2(ws, es)
    ensures QueueOpen(ws[|es|].master) && !Reopened(ws, es, id)
    decreases |es|
  {
    if es == [] {
      CreateMapTasksTable(State(nFiles, nReduce, [], map[], Map, seq(nReduce, _ => []), false), 0);
    } else {
      hide Step, Enabled, Reopened, ReportedAgain, NotQueued;
      var k := |es| - 1;
      RunPrefix(nFiles, nReduce, ws, es);
      HypothesesPrefix(ws, es);
      OpenHolds(nFiles, nReduce, ws[..k + 1], es[..k], id);
      assert NotQueued(ws[k], es[k]);
      StepOpen(ws[k], es[k]);
      SplitLast(ws, es, id);
      assert !ws[k].master.stuck by { StepNotStuck(ws[k], es[k]); }
    }
  }

  lemma {:induction false} StepNotStuck(w: World, e: Event)
    requires Enabled(w, e)
    ensures !w.master.stuck
  {
  }

  /** Under H2 alone: no file is listed twice, or listed and waiting. */
  lemma {:induction false} ListedOnce(nFiles: nat, nReduce: nat, ws: seq<World>, es: seq<Event>, id: nat, r: nat)
    requires Run(nFiles, nReduce, ws, es) && H2(ws, es) && r < ws[|es|].master.nReduce
    ensures var w := ws[|es|];
      r < |w.master.inter| && multiset(w.master.inter[r])[FileName(id, r)] + Waits(w.pending, id) <= 1
  {
    TwiceExactly(nFiles, nReduce, ws, es, id, r);
    OpenHolds(nFiles, nReduce, ws, es, id);
  }
}
