/** mr/worker.go:121-174 and main/mrsequential.go:38-84: what a worker does with a task, and the
    sequential program, up to reading and writing real files. */
module Worker {
  import opened Sorting
  import opened Dataflow
  import opened Master
  import opened MasterRuns

  /** worker.go:196-214: the pairs of the files, one file after the other. */
  function ReadAll(disk: Disk, files: seq<FileName>): seq<KeyValue>
    requires forall f | f in files :: f in disk
  {
    if files == [] then [] else disk[files[0]] + ReadAll(disk, files[1..])
  }

  method ReadFromLocalFile(disk: Disk, files: seq<FileName>) returns (kva: seq<KeyValue>)
    requires forall f | f in files :: f in disk
    ensures kva == ReadAll(disk, files)
  {
    kva := [];
    for i := 0 to |files|
      invariant kva + ReadAll(disk, files[i..]) == ReadAll(disk, files)
    {
      assert files[i..][1..] == files[i + 1..];
      kva := kva + disk[files[i]];
    }
  }

  /** worker.go:121-145: one file per reduce task, with that task's share of the pairs. */
  method Mapper(task: Task, input: Input, mapf: MapFn, ihash: string -> nat, nReducer: nat, disk: Disk)
    returns (task': Task, disk': Disk)
    requires task.state == Map && nReducer > 0
    ensures task' == Reported(task, nReducer)
    ensures forall f :: f in disk' <==> f in disk || (f.mapId == task.id && f.reduceId < nReducer)
    ensures forall f | f in disk' ::
      disk'[f] == if f.mapId == task.id && f.reduceId < nReducer
                  then Slot(mapf(input.name, input.content), ihash, nReducer, f.reduceId) else disk[f]
  {
    hide Slot;
    var intermediates := mapf(input.name, input.content);
    var buffer := Bucket(intermediates, ihash, nReducer);
    var mapOutput: seq<FileName> := [];
    disk' := disk;
    for i := 0 to nReducer
      invariant mapOutput == MapFiles(task.id, i)
      invariant forall f :: f in disk' <==> f in disk || (f.mapId == task.id && f.reduceId < i)
      invariant forall f | f in disk' ::
        disk'[f] == if f.mapId == task.id && f.reduceId < i
                    then Slot(intermediates, ihash, nReducer, f.reduceId) else disk[f]
    {
      var name := FileName(task.id, i);
      disk' := disk'[name := buffer[i]];
      mapOutput := mapOutput + [name];
    }
    task' := task.(interMediates := mapOutput);
  }

  /** worker.go:147-174. */
  method Reducer(task: Task, disk: Disk, reducef: ReduceFn) returns (lines: seq<Line>, sorted: seq<KeyValue>)
    requires forall f | f in task.interMediates :: f in disk
    ensures IsSort(ByKey, sorted, ReadAll(disk, task.interMediates)) && lines == Reduced(reducef, sorted)
    ensures Ascending(lines)
  {
    var intermediate := ReadFromLocalFile(disk, task.interMediates);
    ByKeyIsOrdering();
    intermediate := Sort(ByKey, intermediate);
    sorted := intermediate;
    LinesAscend(reducef, sorted);
    lines := GroupByNeighbour(intermediate, reducef);
  }

  /** mrsequential.go:38-84. */
  method Sequential(inputs: seq<Input>, mapf: MapFn, reducef: ReduceFn) returns (lines: seq<Line>, sorted: seq<KeyValue>)
    ensures IsSort(ByKey, sorted, Flatten(MapOutputs(mapf, inputs))) && lines == Reduced(reducef, sorted)
    ensures Ascending(lines)
  {
    var intermediate: seq<KeyValue> := [];
    ghost var outs := MapOutputs(mapf, inputs);
    for i := 0 to |inputs|
      invariant intermediate == Flatten(outs[..i])
    {
      assert outs[..i + 1][..i] == outs[..i];
      intermediate := intermediate + mapf(inputs[i].name, inputs[i].content);
    }
    assert outs[..|inputs|] == outs;
    ByKeyIsOrdering();
    intermediate := Sort(ByKey, intermediate);
    sorted := intermediate;
    LinesAscend(reducef, sorted);
    lines := GroupByFirst(intermediate, reducef);
  }

  // ----- the whole job

  /** Every map task's files are on disk, with its share of the pairs for each reduce task. */
  ghost predicate Mapped(disk: Disk, outs: seq<seq<KeyValue>>, ihash: string -> nat, n: nat)
    requires n > 0
  {
    forall t: nat, r: nat | t < |outs| && r < n ::
      FileName(t, r) in disk && disk[FileName(t, r)] == Slot(outs[t], ihash, n, r)
  }

  lemma {:induction false} ReadListing(disk: Disk, outs: seq<seq<KeyValue>>, order: seq<nat>, ihash: string -> nat, n: nat, r: nat)
    requires n > 0 && r < n && Mapped(disk, outs, ihash, n) && Below(order, |outs|)
    ensures forall f | f in Listing(order, r) :: f in disk
    ensures ReadAll(disk, Listing(order, r)) == Fetched(outs, order, ihash, n, r)
    decreases |order|
  {
    if order != [] {
      ReadListing(disk, outs, order[1..], ihash, n, r);
      assert Listing(order, r) == [FileName(order[0], r)] + Listing(order[1..], r);
    }
  }

  /** The numbers of files and of reduce tasks never change. */
  lemma {:induction false} RunSizes(nFiles: nat, nReduce: nat, ws: seq<World>, es: seq<Event>)
    requires Run(nFiles, nReduce, ws, es)
    ensures ws[|es|].master.nFiles == nFiles && ws[|es|].master.nReduce == nReduce
    decreases |es|
  {
    if es == [] {
      CreateMapTasksTable(State(nFiles, nReduce, [], map[], Map, seq(nReduce, _ => []), false), 0);
    } else {
      var k := |es| - 1;
      RunPrefix(nFiles, nReduce, ws, es);
      RunSizes(nFiles, nReduce, ws[..k + 1], es[..k]);
      StepSizes(ws[k], es[k]);
    }
  }

  lemma {:induction false} StepSizes(w: World, e: Event)
    requires Enabled(w, e)
    ensures Step(w, e).master.nFiles == w.master.nFiles && Step(w, e).master.nReduce == w.master.nReduce
  {
    match e
    case Assign => AssignReopens(w.master);
    case Complete(t) =>
    case Process(k) =>
      var c, t := w.master, w.pending[k];
      if t.state == Map {
        CreateReduceSizes(c.(inter := Collect(c.inter, t.interMediates), meta := map[]), 0);
      }
    case TimeOut(late) => CatchTimeOutReopens(w.master, late);
  }

  lemma {:induction false} CreateReduceSizes(c: State, idx: nat)
    requires |c.inter| == c.nReduce
    ensures CreateReduceTasks(c, idx).nFiles == c.nFiles && CreateReduceTasks(c, idx).nReduce == c.nReduce
    decreases c.nReduce - idx
  {
    if idx < c.nReduce && !c.stuck { CreateReduceSizes(Create(c, Task(idx, Reduce, c.inter[idx])), idx + 1); }
  }
}
