/** mr/master.go and mr/worker.go together: a whole job, with what the workers leave on disk. */
module Job {
  import opened Linearizability
  import opened Sorting
  import opened Dataflow
  import opened Master
  import opened MasterRuns
  import opened Worker
  import opened MasterLimits
  import opened MasterProgress

  datatype Job = Job(mapf: MapFn, reducef: ReduceFn, ihash: string -> nat, inputs: seq<Input>, nReduce: nat)

  /** The intermediate files and the output files, by the number of their reduce task. */
  datatype Storage = Storage(inter: Disk, out: map<nat, seq<Line>>)

  function MappedBy(job: Job): seq<seq<KeyValue>> {
    MapOutputs(job.mapf, job.inputs)
  }

  /** The contents that any worker gives this intermediate file. */
  predicate MapOutput(job: Job, f: FileName, kvs: seq<KeyValue>) {
    && f.mapId < |job.inputs| && f.reduceId < job.nReduce
    && kvs == Slot(MappedBy(job)[f.mapId], job.ihash, job.nReduce, f.reduceId)
  }

  /** The lines that a worker with this reduce task writes: it reads the listed files and sorts
      them somehow. */
  ghost predicate TaskOutput(job: Job, t: Task, inter: Disk, lines: seq<Line>) {
    && (forall f | f in t.interMediates :: f in inter)
    && exists sorted :: IsSort(ByKey, sorted, ReadAll(inter, t.interMediates)) && lines == Reduced(job.reducef, sorted)
  }

  ghost predicate ReduceOutput(job: Job, w: World, inter: Disk, r: nat, lines: seq<Line>) {
    exists t | t in w.handed :: t.state == Reduce && t.id == r && TaskOutput(job, t, inter, lines)
  }

  /** What can happen to the disk while the master makes a step.  Workers may write at any time,
      late ones and several at once: an intermediate file only ever gets the contents that its
      map task has, an output file what some worker with that task computes.  A worker that
      reports has written all of its files. */
  ghost predicate Writes(job: Job, w: World, e: Event, d: Storage, d': Storage) {
    && (forall f | f in d.inter :: f in d'.inter)
    && (forall f | f in d'.inter :: (f in d.inter && d'.inter[f] == d.inter[f]) || MapOutput(job, f, d'.inter[f]))
    && (forall r | r in d.out :: r in d'.out)
    && (forall r | r in d'.out :: (r in d.out && d'.out[r] == d.out[r]) || ReduceOutput(job, w, d.inter, r, d'.out[r]))
    && (e.Complete? && e.task.state == Map ==>
          forall r: nat | r < job.nReduce ::
            FileName(e.task.id, r) in d'.inter && MapOutput(job, FileName(e.task.id, r), d'.inter[FileName(e.task.id, r)]))
    && (e.Complete? && e.task.state == Reduce ==>
          e.task.id in d'.out && ReduceOutput(job, w, d.inter, e.task.id, d'.out[e.task.id]))
  }

  /** A run of the master and of all workers, from a disk with anything on it. */
  ghost predicate JobRun(job: Job, ws: seq<World>, es: seq<Event>, ds: seq<Storage>) {
    && Run(|job.inputs|, job.nReduce, ws, es) && |ds| == |ws|
    && forall n | 0 <= n < |es| :: Writes(job, ws[n], es[n], ds[n], ds[n + 1])
  }

  // ----- the workers' code writes like this

  /** What Worker.Mapper ensures is a write that goes with the report of its task. */
  lemma {:induction false} MapperWrites(job: Job, w: World, t: Task, d: Storage, disk: Disk)
    requires t.state == Map && t.id < |job.inputs|
    requires forall f :: f in disk <==> f in d.inter || (f.mapId == t.id && f.reduceId < job.nReduce)
    requires job.nReduce > 0
    requires forall f | f in disk ::
      disk[f] == if f.mapId == t.id && f.reduceId < job.nReduce
                 then Slot(job.mapf(job.inputs[t.id].name, job.inputs[t.id].content), job.ihash, job.nReduce, f.reduceId)
                 else d.inter[f]
    ensures Writes(job, w, Complete(t), d, d.(inter := disk))
  {
  }

  /** And so is what Worker.Reducer ensures. */
  lemma {:induction false} ReducerWrites(job: Job, w: World, t: Task, d: Storage, lines: seq<Line>, sorted: seq<KeyValue>)
    requires t in w.handed && t.state == Reduce && forall f | f in t.interMediates :: f in d.inter
    requires IsSort(ByKey, sorted, ReadAll(d.inter, t.interMediates)) && lines == Reduced(job.reducef, sorted)
    ensures Writes(job, w, Complete(t), d, d.(out := d.out[t.id := lines]))
  {
    hide IsSort, ReadAll, Reduced;
    assert TaskOutput(job, t, d.inter, lines);
    assert ReduceOutput(job, w, d.inter, t.id, lines);
  }

  // ----- what is on disk

  /** All files of a map task are there. */
  ghost predicate FilesOf(job: Job, d: Storage, id: nat) {
    forall r: nat | r < job.nReduce :: FileName(id, r) in d.inter && MapOutput(job, FileName(id, r), d.inter[FileName(id, r)])
  }

  ghost predicate ResultsOnDisk(job: Job, w: World, d: Storage) {
    && (forall id | id in w.processed :: FilesOf(job, d, id))
    && (forall k | 0 <= k < |w.pending| && w.pending[k].state == Map :: FilesOf(job, d, w.pending[k].id))
  }

  lemma {:induction false} FilesStay(job: Job, w: World, e: Event, d: Storage, d': Storage, id: nat)
    requires Writes(job, w, e, d, d') && FilesOf(job, d, id)
    ensures FilesOf(job, d', id)
  {
  }

  lemma {:induction false} StepResults(job: Job, w: World, e: Event, d: Storage, d': Storage)
    requires Enabled(w, e) && Writes(job, w, e, d, d') && ResultsOnDisk(job, w, d)
    ensures ResultsOnDisk(job, Step(w, e), d')
  {
    hide ProcessTaskResult, AssignTask, CatchTimeOut, TaskCompleted, MapOutput;
    var w' := Step(w, e);
    forall id | FilesOf(job, d, id) ensures FilesOf(job, d', id) { FilesStay(job, w, e, d, d', id); }
    if e.Complete? && e.task.state == Map {
      assert FilesOf(job, d', e.task.id);
    }
    forall k | 0 <= k < |w'.pending| && w'.pending[k].state == Map ensures FilesOf(job, d', w'.pending[k].id) {
      if e.Process? {
        assert w'.pending[k] == w.pending[if k < e.k then k else k + 1];
      }
    }
  }

  lemma {:induction false} PrefixRun(job: Job, ws: seq<World>, es: seq<Event>, ds: seq<Storage>)
    requires JobRun(job, ws, es, ds) && es != []
    ensures var k := |es| - 1;
      && JobRun(job, ws[..k + 1], es[..k], ds[..k + 1])
      && Enabled(ws[k], es[k]) && ws[k + 1] == Step(ws[k], es[k]) && Writes(job, ws[k], es[k], ds[k], ds[k + 1])
  {
    hide Run, Writes, Enabled, Step;
    var k := |es| - 1;
    RunPrefix(|job.inputs|, job.nReduce, ws, es);
    assert |ws| == |es| + 1 by { RunLength(|job.inputs|, job.nReduce, ws, es); }
    assert forall i | 0 <= i <= k :: ws[..k + 1][i] == ws[i] && ds[..k + 1][i] == ds[i];
    assert forall i | 0 <= i < k :: es[..k][i] == es[i];
  }

  /** In every run, no hypotheses: the files of every result that was accepted are on disk, with
      the right contents, whatever late workers do. */
  lemma {:induction false} ResultsHold(job: Job, ws: seq<World>, es: seq<Event>, ds: seq<Storage>)
    requires JobRun(job, ws, es, ds)
    ensures |ws| == |ds| == |es| + 1 && ResultsOnDisk(job, ws[|es|], ds[|es|])
    decreases |es|
  {
    RunLength(|job.inputs|, job.nReduce, ws, es);
    if es != [] {
      hide Run, Writes, Enabled, Step, ResultsOnDisk;
      var k := |es| - 1;
      PrefixRun(job, ws, es, ds);
      ResultsHold(job, ws[..k + 1], es[..k], ds[..k + 1]);
      StepResults(job, ws[k], es[k], ds[k], ds[k + 1]);
    }
  }

  // ----- the reduce tasks that are out

  /** Whoever has a reduce task has the final list of its files. */
  ghost predicate HandedLists(w: World) {
    forall t | t in w.handed && t.state == Reduce ::
      w.master.phase != Map && t == Task(t.id, Reduce, Listing(w.processed, t.id))
  }

  lemma {:induction false} StepHanded(w: World, e: Event)
    requires Enabled(w, e) && OrderlyInv(w) && HandedLists(w)
    requires PhaseRank(w.master.phase) <= PhaseRank(Step(w, e).master.phase)
    ensures HandedLists(Step(w, e))
  {
    hide ProcessTaskResult, CatchTimeOut, TaskCompleted, Listing;
    if e == Assign && w.master.queue != [] {
      assert w.master.queue[0] == w.master.meta[w.master.queue[0].id].task;
      AssignReopens(w.master);
    }
  }

  /** The output of a reduce task is right. */
  ghost predicate Good(job: Job, processed: seq<nat>, r: nat, lines: seq<Line>)
    requires job.nReduce > 0 && Below(processed, |job.inputs|)
  {
    exists sorted :: IsSort(ByKey, sorted, Fetched(MappedBy(job), processed, job.ihash, job.nReduce, r))
      && lines == Reduced(job.reducef, sorted)
  }

  lemma {:induction false} GoodAscends(job: Job, processed: seq<nat>, r: nat, lines: seq<Line>)
    requires job.nReduce > 0 && Below(processed, |job.inputs|) && Good(job, processed, r, lines)
    ensures Ascending(lines)
  {
    hide Fetched, Reduced, Ascending;
    var sorted :| IsSort(ByKey, sorted, Fetched(MappedBy(job), processed, job.ihash, job.nReduce, r))
      && lines == Reduced(job.reducef, sorted);
    LinesAscend(job.reducef, sorted);
  }

  lemma {:induction false} AllFilesThere(job: Job, w: World, d: Storage)
    requires job.nReduce > 0 && OrderlyInv(w) && w.master.phase != Map && w.master.nFiles == |job.inputs|
    requires ResultsOnDisk(job, w, d)
    ensures Below(w.processed, |job.inputs|) && EachOnce(w.processed, |job.inputs|)
    ensures Mapped(d.inter, MappedBy(job), job.ihash, job.nReduce)
  {
    PermutationIsOnto(w.processed);
    forall id: nat, r: nat | id < |job.inputs| && r < job.nReduce
      ensures FileName(id, r) in d.inter && d.inter[FileName(id, r)] == Slot(MappedBy(job)[id], job.ihash, job.nReduce, r)
    {
      assert id in w.processed;
      assert FilesOf(job, d, id);
      assert MapOutput(job, FileName(id, r), d.inter[FileName(id, r)]);
    }
  }

  lemma {:induction false} OutputGood(job: Job, w: World, d: Storage, r: nat, lines: seq<Line>)
    requires job.nReduce > 0 && OrderlyInv(w) && HandedLists(w) && w.master.phase != Map
    requires w.master.nFiles == |job.inputs| && w.master.nReduce == job.nReduce
    requires ResultsOnDisk(job, w, d) && ReduceOutput(job, w, d.inter, r, lines)
    ensures Below(w.processed, |job.inputs|) && Good(job, w.processed, r, lines)
  {
    hide ReadAll, Fetched, Listing, IsSort, Reduced, QueueExact, TableExact;
    AllFilesThere(job, w, d);
    var t :| t in w.handed && t.state == Reduce && t.id == r && TaskOutput(job, t, d.inter, lines);
    assert t.interMediates == Listing(w.processed, r);
    assert r < job.nReduce;
    ReadListing(d.inter, MappedBy(job), w.processed, job.ihash, job.nReduce, r);
  }

  /** The output files of the completed reduce tasks are right. */
  ghost predicate OutputsOnDisk(job: Job, w: World, d: Storage)
    requires job.nReduce > 0
  {
    w.master.phase != Map ==>
      && Below(w.processed, |job.inputs|)
      && forall r | r in w.master.meta && w.master.meta[r].status == Completed :: r in d.out && Good(job, w.processed, r, d.out[r])
  }

  /** When the reduce phase begins nothing is completed; later a task is completed by a report. */
  lemma {:induction false} StepCompleted(w: World, e: Event, r: nat)
    requires Enabled(w, e) && OrderlyInv(w) && Step(w, e).master.phase != Map
    ensures var w' := Step(w, e);
      r in w'.master.meta && w'.master.meta[r].status == Completed ==>
        && w.master.phase != Map
        && ((r in w.master.meta && w.master.meta[r].status == Completed) || (e.Complete? && e.task.state == Reduce && e.task.id == r))
    ensures w.master.phase != Map ==> Step(w, e).processed == w.processed
  {
    hide QueueExact, TableExact, HandedKnown;
    match e
    case Assign => AssignReopens(w.master);
    case Complete(t) =>
    case Process(k) =>
      var c, t := w.master, w.pending[k];
      if t.state == Map { CreatedIdle(c.(inter := Collect(c.inter, t.interMediates), meta := map[]), 0); }
    case TimeOut(late) => CatchTimeOutReopens(w.master, late);
  }

  lemma {:induction false} StepOutputs(job: Job, w: World, e: Event, d: Storage, d': Storage)
    requires job.nReduce > 0 && Enabled(w, e) && OrderlyInv(w) && OrderlyInv(Step(w, e))
    requires w.master.nFiles == |job.inputs| && w.master.nReduce == job.nReduce
    requires Step(w, e).master.nFiles == w.master.nFiles
    requires HandedLists(w) && ResultsOnDisk(job, w, d) && OutputsOnDisk(job, w, d) && Writes(job, w, e, d, d')
    ensures OutputsOnDisk(job, Step(w, e), d')
  {
    hide HandedLists, ResultsOnDisk, ReduceOutput, Good, Enabled, Step, QueueExact, TableExact, HandedKnown, MapOutput;
    var w' := Step(w, e);
    if w'.master.phase != Map {
      forall r | r in w'.master.meta && w'.master.meta[r].status == Completed
        ensures r in d'.out && Good(job, w'.processed, r, d'.out[r])
      {
        StepCompleted(w, e, r);
        if ReduceOutput(job, w, d.inter, r, d'.out[r]) {
          OutputGood(job, w, d, r, d'.out[r]);
        }
      }
    }
  }

  lemma {:induction false} OutputsHold(job: Job, ws: seq<World>, es: seq<Event>, ds: seq<Storage>)
    requires JobRun(job, ws, es, ds) && job.nReduce > 0 && |ws| == |es| + 1 && H1(ws, es) && H2(ws, es)
    ensures |ds| == |ws| && HandedLists(ws[|es|]) && OutputsOnDisk(job, ws[|es|], ds[|es|])
    decreases |es|
  {
    hide JobRun, Run, Writes, Enabled, Step, ResultsOnDisk, OutputsOnDisk, HandedLists, OrderlyInv, AlwaysInv, OneAtATime, NotQueued;
    ResultsHold(job, ws, es, ds);
    if es == [] {
      StartOutputs(job, ws, ds);
    } else {
      var k := |es| - 1;
      var ws', es' := ws[..k + 1], es[..k];
      PrefixRun(job, ws, es, ds);
      HypothesesPrefix(ws, es);
      OutputsHold(job, ws', es', ds[..k + 1]);
      ResultsHold(job, ws', es', ds[..k + 1]);
      MasterRun(job, ws', es', ds[..k + 1]);
      OrderlyHolds(|job.inputs|, job.nReduce, ws', es');
      RunSizes(|job.inputs|, job.nReduce, ws', es');
      StepSizes(ws[k], es[k]);
      assert OneAtATime(ws[k], es[k]) && NotQueued(ws[k], es[k]);
      StepOrderly(ws[k], es[k]);
      StepHanded(ws[k], es[k]);
      StepOutputs(job, ws[k], es[k], ds[k], ds[k + 1]);
    }
  }

  lemma {:induction false} MasterRun(job: Job, ws: seq<World>, es: seq<Event>, ds: seq<Storage>)
    requires JobRun(job, ws, es, ds)
    ensures Run(|job.inputs|, job.nReduce, ws, es)
  {
  }

  lemma {:induction false} StartOutputs(job: Job, ws: seq<World>, ds: seq<Storage>)
    requires JobRun(job, ws, [], ds) && job.nReduce > 0
    ensures |ws| == |ds| == 1 && HandedLists(ws[0]) && OutputsOnDisk(job, ws[0], ds[0])
  {
    CreateMapTasksTable(State(|job.inputs|, job.nReduce, [], map[], Map, seq(job.nReduce, _ => []), false), 0);
  }

  /** The output files 0 to n-1; one that is missing has no lines. */
  function OutputFiles(out: map<nat, seq<Line>>, n: nat): (outs: seq<seq<Line>>)
    ensures |outs| == n && forall r | 0 <= r < n :: outs[r] == if r in out then out[r] else []
  {
    seq(n, r requires 0 <= r < n => if r in out then out[r] else [])
  }

  /** The job is done right.  In every run of master and workers under both hypotheses, from a
      disk with anything on it: when the master is at Exit, every reduce task has its output
      file, in ascending order of keys, and the lines of all of them are the lines of the
      sequential program. */
  lemma {:induction false} JobCorrect(job: Job, ws: seq<World>, es: seq<Event>, ds: seq<Storage>, sequential: seq<KeyValue>)
    requires JobRun(job, ws, es, ds) && job.nReduce > 0 && Insensitive(job.reducef)
    requires |ws| == |es| + 1 && H1(ws, es) && H2(ws, es) && ws[|es|].master.phase == Exit
    requires IsSort(ByKey, sequential, Flatten(MappedBy(job)))
    ensures |ds| == |ws| && forall r: nat | r < job.nReduce :: r in ds[|es|].out && Ascending(ds[|es|].out[r])
    ensures multiset(Flatten(OutputFiles(ds[|es|].out, job.nReduce))) == multiset(Reduced(job.reducef, sequential))
  {
    hide Run, H1, H2, Writes, IsSort, Reduced, Insensitive, MapOutputs, Fetched, AlwaysInv, QueueExact, ResultsOnDisk, HandedLists;
    var w, d, n := ws[|es|], ds[|es|], job.nReduce;
    OutputsHold(job, ws, es, ds);
    ResultsHold(job, ws, es, ds);
    RunSizes(|job.inputs|, n, ws, es);
    OrderlyHolds(|job.inputs|, n, ws, es);
    AllFilesThere(job, w, d);
    forall r: nat | r < n ensures r in d.out && Good(job, w.processed, r, d.out[r]) && Ascending(d.out[r]) {
      assert r in w.master.meta && w.master.meta[r].status == Completed;
      GoodAscends(job, w.processed, r, d.out[r]);
    }
    var sorted := SortsOf(job, w.processed, d.out, n);
    DistributedIsSequential(
      job.mapf, job.reducef, job.ihash, job.inputs, MappedBy(job), n, seq(n, _ => w.processed), sorted, OutputFiles(d.out, n), sequential);
  }

  lemma {:induction false} SortsOf(job: Job, processed: seq<nat>, out: map<nat, seq<Line>>, k: nat) returns (sorted: seq<seq<KeyValue>>)
    requires job.nReduce > 0 && Below(processed, |job.inputs|)
    requires forall r: nat | r < k :: r in out && Good(job, processed, r, out[r])
    ensures |sorted| == k
    ensures forall r | 0 <= r < k ::
      IsSort(ByKey, sorted[r], Fetched(MappedBy(job), processed, job.ihash, job.nReduce, r)) && out[r] == Reduced(job.reducef, sorted[r])
  {
    hide Fetched, Reduced, IsSort;
    if k == 0 {
      sorted := [];
    } else {
      var rest := SortsOf(job, processed, out, k - 1);
      assert Good(job, processed, k - 1, out[k - 1]);
      var last :| IsSort(ByKey, last, Fetched(MappedBy(job), processed, job.ihash, job.nReduce, k - 1)) && out[k - 1] == Reduced(job.reducef, last);
      sorted := rest + [last];
    }
  }

  // ----- there are such runs

  lemma {:induction false} MapWriteExists(job: Job, w: World, t: Task, d: Storage) returns (d': Storage)
    requires job.nReduce > 0 && t.state == Map && t.id < |job.inputs|
    ensures Writes(job, w, Complete(t), d, d')
  {
    hide Writes, Slot;
    var kvs := job.mapf(job.inputs[t.id].name, job.inputs[t.id].content);
    var files := map r: nat | r < job.nReduce :: FileName(t.id, r) := Slot(kvs, job.ihash, job.nReduce, r);
    d' := d.(inter := d.inter + files);
    MapperWrites(job, w, t, d, d'.inter);
  }

  lemma {:induction false} ReduceWriteExists(job: Job, w: World, t: Task, d: Storage) returns (d': Storage)
    requires job.nReduce > 0 && OrderlyInv(w) && HandedLists(w) && ResultsOnDisk(job, w, d)
    requires w.master.nFiles == |job.inputs| && w.master.nReduce == job.nReduce
    requires t in w.handed && t.state == Reduce
    ensures Writes(job, w, Complete(t), d, d')
  {
    hide Writes, ReadAll, Listing, QueueExact, TableExact, Reduced;
    AllFilesThere(job, w, d);
    ReadListing(d.inter, MappedBy(job), w.processed, job.ihash, job.nReduce, t.id);
    ByKeyIsOrdering();
    var sorted := SortExists(ByKey, ReadAll(d.inter, t.interMediates));
    d' := d.(out := d.out[t.id := Reduced(job.reducef, sorted)]);
    ReducerWrites(job, w, t, d, Reduced(job.reducef, sorted), sorted);
  }

  lemma {:induction false} WriteExists(job: Job, w: World, e: Event, d: Storage) returns (d': Storage)
    requires job.nReduce > 0 && OrderlyInv(w) && HandedLists(w) && ResultsOnDisk(job, w, d) && Enabled(w, e)
    requires w.master.nFiles == |job.inputs| && w.master.nReduce == job.nReduce
    ensures Writes(job, w, e, d, d')
  {
    hide QueueExact, TableExact, ProcessedExact, HandedLists, ResultsOnDisk, ReduceOutput, MapOutput;
    if e.Complete? && e.task.state == Map {
      d' := MapWriteExists(job, w, e.task, d);
    } else if e.Complete? && e.task.state == Reduce {
      d' := ReduceWriteExists(job, w, e.task, d);
    } else {
      d' := d;
    }
  }

  /** Workers can keep up with every run of the master under both hypotheses. */
  lemma {:induction false} StorageExists(job: Job, ws: seq<World>, es: seq<Event>, d: Storage) returns (ds: seq<Storage>)
    requires job.nReduce > 0 && Run(|job.inputs|, job.nReduce, ws, es) && |ws| == |es| + 1 && H1(ws, es) && H2(ws, es)
    ensures JobRun(job, ws, es, ds) && ds[0] == d
    decreases |es|
  {
    hide JobRun, Run, Writes, Enabled, Step, ResultsOnDisk, OutputsOnDisk, HandedLists, OrderlyInv, AlwaysInv, H1, H2;
    if es == [] {
      ds := [d];
      StartStorage(job, ws, d);
    } else {
      var k := |es| - 1;
      var ws', es' := ws[..k + 1], es[..k];
      RunPrefix(|job.inputs|, job.nReduce, ws, es);
      HypothesesPrefix(ws, es);
      var ds' := StorageExists(job, ws', es', d);
      OutputsHold(job, ws', es', ds');
      ResultsHold(job, ws', es', ds');
      OrderlyHolds(|job.inputs|, job.nReduce, ws', es');
      RunSizes(|job.inputs|, job.nReduce, ws', es');
      var last := WriteExists(job, ws[k], es[k], ds'[k]);
      ds := ds' + [last];
      ExtendStorage(job, ws, es, ds', last);
    }
  }

  lemma {:induction false} StartStorage(job: Job, ws: seq<World>, d: Storage)
    requires Run(|job.inputs|, job.nReduce, ws, [])
    ensures JobRun(job, ws, [], [d])
  {
  }

  lemma {:induction false} ExtendStorage(job: Job, ws: seq<World>, es: seq<Event>, ds: seq<Storage>, d: Storage)
    requires es != [] && |ws| == |es| + 1 == |ds| + 1 && Run(|job.inputs|, job.nReduce, ws, es)
    requires JobRun(job, ws[..|es|], es[..|es| - 1], ds) && Writes(job, ws[|es| - 1], es[|es| - 1], ds[|es| - 1], d)
    ensures JobRun(job, ws, es, ds + [d])
  {
    hide Run, Writes;
    var k := |es| - 1;
    var ws', es', ds' := ws[..k + 1], es[..k], ds + [d];
    forall n | 0 <= n < |es| ensures Writes(job, ws[n], es[n], ds'[n], ds'[n + 1]) {
      if n < k { assert ws'[n] == ws[n] && es'[n] == es[n] && ds'[n] == ds[n] && ds'[n + 1] == ds[n + 1]; }
    }
  }

  /** With an input file and a reduce task, there is a run of master and workers to the end. */
  lemma {:induction false} JobFinishes(job: Job, d: Storage) returns (ws: seq<World>, es: seq<Event>, ds: seq<Storage>)
    requires job.inputs != [] && job.nReduce > 0
    ensures JobRun(job, ws, es, ds) && ds[0] == d && |ws| == |es| + 1
    ensures H1(ws, es) && H2(ws, es) && ws[|es|].master.phase == Exit
  {
    hide Run, H1, H2;
    InitOne(|job.inputs|, job.nReduce);
    ws, es := CanFinish(|job.inputs|, job.nReduce, [Init(|job.inputs|, job.nReduce)], []);
    RunLength(|job.inputs|, job.nReduce, ws, es);
    ds := StorageExists(job, ws, es, d);
  }
}
