/** mr/master.go: the scheduler, as the state that its lock protects and the critical sections
    that change it. */
module Master {
  import opened Dataflow

  datatype Status = Idle | InProgress | Completed

  datatype Phase = Map | Reduce | Exit

  /** What the master knows of a task, and what travels to a worker and back. */
  datatype Task = Task(id: nat, state: Phase, interMediates: seq<FileName>)

  datatype Meta = Meta(status: Status, task: Task)

  /** `stuck` means that a critical section never ends: a send waits for room in the queue while
      the lock is held, or a missing table entry is dereferenced. */
  datatype State = State(
    nFiles: nat, nReduce: nat,
    queue: seq<Task>, meta: map<nat, Meta>, phase: Phase, inter: seq<seq<FileName>>, stuck: bool)

  function Max(a: nat, b: nat): nat {
    if a < b then b else a
  }

  /** master.go:106. */
  function Capacity(c: State): nat {
    Max(c.nReduce, c.nFiles)
  }

  /** `m.TaskQueue <- task`. */
  function Send(c: State, t: Task): State {
    if |c.queue| < Capacity(c) then c.(queue := c.queue + [t]) else c.(stuck := true)
  }

  function MapTask(id: nat): Task {
    Task(id, Map, [])
  }

  function Create(c: State, t: Task): State {
    var d := Send(c, t);
    if d.stuck then d else d.(meta := d.meta[t.id := Meta(Idle, t)])
  }

  /** master.go:141-155, from input file `idx` on. */
  function CreateMapTasks(c: State, idx: nat): State
    decreases c.nFiles - idx
  {
    if idx >= c.nFiles || c.stuck then c else CreateMapTasks(Create(c, MapTask(idx)), idx + 1)
  }

  /** master.go:159-171, from reduce task `idx` on. */
  function CreateReduceTasks(c: State, idx: nat): State
    requires |c.inter| == c.nReduce
    decreases c.nReduce - idx
  {
    if idx >= c.nReduce || c.stuck then c
    else CreateReduceTasks(Create(c, Task(idx, Reduce, c.inter[idx])), idx + 1)
  }

  /** master.go:104-115. */
  function MakeMaster(nFiles: nat, nReduce: nat): State {
    CreateMapTasks(State(nFiles, nReduce, [], map[], Map, seq(nReduce, _ => []), false), 0)
  }

  predicate AllDone(c: State) {
    forall id | id in c.meta :: c.meta[id].status == Completed
  }

  /** master.go:175-188; what is handed out is the head of the queue. */
  function AssignTask(c: State): State {
    if c.queue == [] then c
    else if c.queue[0].id !in c.meta then c.(queue := c.queue[1..], stuck := true)
    else
      var id := c.queue[0].id;
      c.(queue := c.queue[1..], meta := c.meta[id := c.meta[id].(status := InProgress)])
  }

  /** master.go:193: whether a reported completion counts. */
  predicate Accepts(c: State, t: Task) {
    t.state == c.phase && t.id in c.meta && c.meta[t.id].status != Completed
  }

  /** master.go:190-199. */
  function TaskCompleted(c: State, t: Task): State {
    if t.state != c.phase then c
    else if t.id !in c.meta then c.(stuck := true)
    else if c.meta[t.id].status == Completed then c
    else c.(meta := c.meta[t.id := c.meta[t.id].(status := Completed)])
  }

  /** master.go:207-209. */
  function Collect(inter: seq<seq<FileName>>, files: seq<FileName>): (r: seq<seq<FileName>>)
    requires |files| <= |inter|
    ensures |r| == |inter|
    ensures forall i | 0 <= i < |inter| :: r[i] == if i < |files| then inter[i] + [files[i]] else inter[i]
  {
    seq(|inter|, i requires 0 <= i < |inter| => if i < |files| then inter[i] + [files[i]] else inter[i])
  }

  /** master.go:201-220. */
  function ProcessTaskResult(c: State, t: Task): State
    requires |c.inter| == c.nReduce && (t.state == Map ==> |t.interMediates| <= c.nReduce)
  {
    match t.state
    case Map =>
      var d := c.(inter := Collect(c.inter, t.interMediates));
      if AllDone(d) then
        var e := CreateReduceTasks(d.(meta := map[]), 0);
        if e.stuck then e else e.(phase := Reduce)
      else d
    case Reduce => if AllDone(c) then c.(phase := Exit) else c
    case Exit => c
  }

  /** master.go:131-136, for one task that has been running for too long. */
  function Requeue(c: State, id: nat): State {
    if id !in c.meta || c.meta[id].status != InProgress || c.stuck then c
    else
      var d := Send(c, c.meta[id].task);
      if d.stuck then d else d.(meta := d.meta[id := d.meta[id].(status := Idle)])
  }

  /** master.go:123-138: one pass over the tasks that are late, in the order of the map. */
  function CatchTimeOut(c: State, late: seq<nat>): State
    decreases |late|
  {
    if late == [] || c.phase == Exit then c else CatchTimeOut(Requeue(c, late[0]), late[1..])
  }
}
