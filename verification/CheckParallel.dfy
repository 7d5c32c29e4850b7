/** porcupine/checker.go:269-348: one search per partition, in parallel, and the goroutine that
    collects their results, as a state machine whose steps may interleave in any order. */
module CheckParallel {
  import opened Linearizability
  import opened Search
  import opened Entries
  import opened SearchRun
  import opened CheckSingle

  datatype CheckResult = Unknown | Ok | Illegal

  /** A goroutine that runs checkSingle. */
  datatype Worker = Running | Finished(ok: bool, longest: Longest, killed: bool)

  datatype Phase = Collecting | Draining | Done

  datatype Task<!S, !V> = Task(model: Model<S, V>, history: seq<seq<Entry<V>>>, computeInfo: bool, hasTimeout: bool)

  /** `results` are the workers whose result is in the channel, oldest first; `received` those
      whose result the select loop has counted, `drained` those read after it. */
  datatype State = State(
    workers: seq<Worker>, results: seq<nat>, received: seq<nat>, drained: seq<nat>,
    ok: bool, timedOut: bool, kill: bool, phase: Phase)

  /** What the code relies on: every part is a proper list of entries, and states that the
      model calls equal have the same future. */
  ghost predicate ValidTask<S(!new), V(!new)>(t: Task<S, V>) {
    EqualRespectsStep(t.model) && forall i | 0 <= i < |t.history| :: WellFormed(t.history[i])
  }

  function Init<S, V>(t: Task<S, V>): State {
    State(seq(|t.history|, _ => Running), [], [], [], true, false, false, Collecting)
  }

  /** Where the code goes when the select loop is left. */
  function AfterLoop<S, V>(t: Task<S, V>): Phase {
    if t.computeInfo then Draining else Done
  }

  /** A worker returns from checkSingle, stores its prefixes and sends its result: what it
      returns is what CheckSingle.CheckSingle promises.  It can have seen the kill flag only if
      the flag is set. */
  ghost predicate Finish<S(!new), V(!new)>(t: Task<S, V>, c: State, c': State, i: nat, w: Worker)
    requires ValidTask(t)
  {
    && i < |c.workers| == |t.history| && c.workers[i] == Running
    && w.Finished? && Report(t.model, t.history[i], t.computeInfo, w.ok, w.longest, w.killed)
    && (w.killed ==> c.kill)
    && c' == c.(workers := c.workers[i := w], results := c.results + [i])
  }

  /** checker.go:290-299. */
  ghost predicate Receive<S, V>(t: Task<S, V>, c: State, c': State) {
    && c.phase == Collecting && c.results != []
    && c.results[0] < |c.workers| && c.workers[c.results[0]].Finished?
    && var i := c.results[0];
       var ok := c.ok && c.workers[i].ok;
       var d := c.(results := c.results[1..], received := c.received + [i], ok := ok);
       c' == if !ok && !t.computeInfo then d.(kill := true, phase := AfterLoop(t))
             else if |d.received| >= |t.history| then d.(phase := AfterLoop(t))
             else d
  }

  /** checker.go:300-303. */
  ghost predicate TimeOut<S, V>(t: Task<S, V>, c: State, c': State) {
    && c.phase == Collecting && t.hasTimeout
    && c' == c.(timedOut := true, kill := true, phase := AfterLoop(t))
  }

  /** checker.go:310-313. */
  ghost predicate Drain<S, V>(t: Task<S, V>, c: State, c': State) {
    && c.phase == Draining
    && if |c.received| + |c.drained| < |t.history|
       then c.results != [] && c' == c.(results := c.results[1..], drained := c.drained + [c.results[0]])
       else c' == c.(phase := Done)
  }

  ghost predicate Next<S(!new), V(!new)>(t: Task<S, V>, c: State, c': State)
    requires ValidTask(t)
  {
    || (exists i, w :: Finish(t, c, c', i, w))
    || Receive(t, c, c')
    || TimeOut(t, c, c')
    || Drain(t, c, c')
  }

  /** A schedule: any interleaving of the steps from the start. */
  ghost predicate Run<S(!new), V(!new)>(t: Task<S, V>, run: seq<State>)
    requires ValidTask(t)
  {
    && run != [] && run[0] == Init(t)
    && forall i | 0 <= i < |run| - 1 :: Next(t, run[i], run[i + 1])
  }

  /** checker.go:337-346. */
  function Verdict(c: State): CheckResult {
    if !c.ok then Illegal else if c.timedOut then Unknown else Ok
  }

  /** The schedule has come to its end with this verdict. */
  predicate EndsWith(run: seq<State>, r: CheckResult) {
    run != [] && run[|run| - 1].phase == Done && Verdict(run[|run| - 1]) == r
  }

  // ----- what every step keeps

  ghost predicate Accounted<S, V>(t: Task<S, V>, c: State) {
    && |c.workers| == |t.history|
    && Distinct(c.received + c.drained + c.results)
    && (forall i: nat :: i in c.received + c.drained + c.results <==> i < |c.workers| && c.workers[i].Finished?)
  }

  ghost predicate Honest<S(!new), V(!new)>(t: Task<S, V>, c: State)
    requires ValidTask(t)
  {
    && |c.workers| == |t.history|
    && (forall i | 0 <= i < |c.workers| && c.workers[i].Finished? ::
          && Report(t.model, t.history[i], t.computeInfo, c.workers[i].ok, c.workers[i].longest, c.workers[i].killed)
          && (c.workers[i].killed ==> c.kill))
  }

  /** The worker has finished, unkilled, with the given result. */
  predicate Answered(c: State, i: nat, ok: bool) {
    i < |c.workers| && c.workers[i].Finished? && !c.workers[i].killed && c.workers[i].ok == ok
  }

  /** The results counted are those of unkilled workers, and `ok` is their conjunction. */
  ghost predicate Tallied<S, V>(t: Task<S, V>, c: State) {
    && (forall j | 0 <= j < |c.received| :: Answered(c, c.received[j], true) || Answered(c, c.received[j], false))
    && (c.ok ==> forall j | 0 <= j < |c.received| :: Answered(c, c.received[j], true))
    && (!c.ok ==> exists j | 0 <= j < |c.received| :: Answered(c, c.received[j], false))
  }

  ghost predicate Progressed<S, V>(t: Task<S, V>, c: State) {
    && (c.phase == Collecting ==> !c.kill && !c.timedOut && c.drained == [] && (|c.received| < |t.history| || |t.history| == 0))
    && (c.phase != Collecting ==> c.timedOut || (!c.ok && !t.computeInfo) || (|c.received| >= |t.history| && c.received != []))
    && (c.timedOut ==> t.hasTimeout)
    && (c.phase == Draining ==> t.computeInfo)
    && (c.phase == Done && t.computeInfo ==> |c.received| + |c.drained| >= |t.history|)
  }

  ghost predicate Inv<S(!new), V(!new)>(t: Task<S, V>, c: State)
    requires ValidTask(t)
  {
    Accounted(t, c) && Honest(t, c) && Tallied(t, c) && Progressed(t, c)
  }

  lemma {:induction false} InitInv<S(!new), V(!new)>(t: Task<S, V>)
    requires ValidTask(t)
    ensures Inv(t, Init(t))
  {
  }

  lemma {:induction false} FinishInv<S(!new), V(!new)>(t: Task<S, V>, c: State, c': State, i: nat, w: Worker)
    requires ValidTask(t) && Inv(t, c) && Finish(t, c, c', i, w)
    ensures Inv(t, c')
  {
    hide EqualRespectsStep, Report, Tallied;
    var all, all' := c.received + c.drained + c.results, c'.received + c'.drained + c'.results;
    assert all' == all + [i];
    assert i !in all;
    assert forall j | 0 <= j < |c.received| :: c.received[j] == all[j] && c.received[j] != i;
    FinishTallied(t, c, c', i, w);
  }

  lemma {:induction false} FinishTallied<S(!new), V(!new)>(t: Task<S, V>, c: State, c': State, i: nat, w: Worker)
    requires ValidTask(t) && Tallied(t, c) && Finish(t, c, c', i, w)
    requires forall j | 0 <= j < |c.received| :: c.received[j] != i
    ensures Tallied(t, c')
  {
    hide EqualRespectsStep, Report;
    if !c.ok {
      var j :| 0 <= j < |c.received| && Answered(c, c.received[j], false);
      assert Answered(c', c'.received[j], false);
    }
  }

  lemma {:induction false} ReceiveInv<S(!new), V(!new)>(t: Task<S, V>, c: State, c': State)
    requires ValidTask(t) && Inv(t, c) && Receive(t, c, c')
    ensures Inv(t, c')
  {
    hide EqualRespectsStep, Report, Tallied;
    assert c.received + c.drained + c.results == c'.received + c'.drained + c'.results;
    ReceiveTallied(t, c, c');
  }

  lemma {:induction false} ReceiveTallied<S(!new), V(!new)>(t: Task<S, V>, c: State, c': State)
    requires ValidTask(t) && Inv(t, c) && Receive(t, c, c')
    ensures Tallied(t, c')
  {
    hide EqualRespectsStep, Report, Accounted;
    var i, k := c.results[0], |c.received|;
    assert c'.workers == c.workers && c'.received == c.received + [i] && c'.ok == (c.ok && c.workers[i].ok);
    assert !c.workers[i].killed;
    CountedOneMore(t, c, c', i);
  }

  lemma {:induction false} CountedOneMore<S(!new), V(!new)>(t: Task<S, V>, c: State, c': State, i: nat)
    requires Tallied(t, c) && i < |c.workers| && c.workers[i].Finished? && !c.workers[i].killed
    requires c'.workers == c.workers && c'.received == c.received + [i] && c'.ok == (c.ok && c.workers[i].ok)
    ensures Tallied(t, c')
  {
    var k := |c.received|;
    assert forall j | 0 <= j < k :: c'.received[j] == c.received[j];
    assert c'.received[k] == i && Answered(c', c'.received[k], c.workers[i].ok);
    if !c.ok {
      var j :| 0 <= j < k && Answered(c, c.received[j], false);
      assert Answered(c', c'.received[j], false);
    }
  }

  lemma {:induction false} DrainInv<S(!new), V(!new)>(t: Task<S, V>, c: State, c': State)
    requires ValidTask(t) && Inv(t, c) && Drain(t, c, c')
    ensures Inv(t, c')
  {
    hide EqualRespectsStep, Report, Tallied, Honest;
    SameCounted(t, c, c');
    assert c.received + c.drained + c.results == c'.received + c'.drained + c'.results;
  }

  lemma {:induction false} SameCounted<S(!new), V(!new)>(t: Task<S, V>, c: State, c': State)
    requires ValidTask(t) && Tallied(t, c) && Honest(t, c)
    requires c'.workers == c.workers && c'.received == c.received && c'.ok == c.ok && c'.kill == c.kill
    ensures Tallied(t, c') && Honest(t, c')
  {
    hide EqualRespectsStep, Report;
    assert forall i, ok :: Answered(c, i, ok) == Answered(c', i, ok);
  }

  lemma {:induction false} NextInv<S(!new), V(!new)>(t: Task<S, V>, c: State, c': State)
    requires ValidTask(t) && Inv(t, c) && Next(t, c, c')
    ensures Inv(t, c')
  {
    hide EqualRespectsStep, Report, Accounted, Honest;
    if i, w :| Finish(t, c, c', i, w) {
      FinishInv(t, c, c', i, w);
    } else if Receive(t, c, c') {
      ReceiveInv(t, c, c');
    } else if Drain(t, c, c') {
      DrainInv(t, c, c');
    } else {
      TimeOutInv(t, c, c');
    }
  }

  lemma {:induction false} TimeOutInv<S(!new), V(!new)>(t: Task<S, V>, c: State, c': State)
    requires ValidTask(t) && Inv(t, c) && TimeOut(t, c, c')
    ensures Inv(t, c')
  {
    hide EqualRespectsStep, Report;
  }

  lemma {:induction false} RunPrefix<S(!new), V(!new)>(t: Task<S, V>, run: seq<State>)
    requires ValidTask(t) && Run(t, run) && |run| > 1
    ensures Run(t, run[..|run| - 1]) && Next(t, run[|run| - 2], run[|run| - 1])
  {
    hide Next, ValidTask;
    var k := |run| - 2;
    assert Next(t, run[k], run[k + 1]);
  }

  lemma {:induction false} RunInv<S(!new), V(!new)>(t: Task<S, V>, run: seq<State>)
    requires ValidTask(t) && Run(t, run)
    ensures Inv(t, run[|run| - 1])
    decreases |run|
  {
    hide Inv, Next;
    if |run| == 1 {
      InitInv(t);
    } else {
      RunPrefix(t, run);
      RunInv(t, run[..|run| - 1]);
      NextInv(t, run[|run| - 2], run[|run| - 1]);
    }
  }

  // ----- the verdict

  /** In every schedule, the verdict at the end is right: illegal means that some partition is
      not linearizable, ok that all are, and unknown is given only after a timeout. Results that
      count towards it come from searches that were not killed. */
  lemma {:induction false} VerdictCorrect<S(!new), V(!new)>(t: Task<S, V>, run: seq<State>)
    requires ValidTask(t) && Run(t, run) && run[|run| - 1].phase == Done
    ensures var c := run[|run| - 1];
      && (Verdict(c) == Illegal ==> exists i | 0 <= i < |t.history| :: !Linearizable(t.model, HistoryOf(t.history[i])))
      && (Verdict(c) == Ok ==> forall i | 0 <= i < |t.history| :: Linearizable(t.model, HistoryOf(t.history[i])))
      && (Verdict(c) == Unknown ==> c.timedOut && t.hasTimeout)
      && (forall j | 0 <= j < |c.received| ::
            c.received[j] < |c.workers| && c.workers[c.received[j]].Finished? && !c.workers[c.received[j]].killed)
  {
    hide Next, Linearizable, Distinct;
    var c := run[|run| - 1];
    RunInv(t, run);
    assert forall j | 0 <= j < |c.received| :: Answered(c, c.received[j], true) || Answered(c, c.received[j], false);
    if !c.ok {
      var j :| 0 <= j < |c.received| && Answered(c, c.received[j], false);
      assert !Linearizable(t.model, HistoryOf(t.history[c.received[j]]));
    } else if !c.timedOut {
      EveryoneReceived(t, c);
      forall i | 0 <= i < |t.history| ensures Linearizable(t.model, HistoryOf(t.history[i])) {
        assert i in c.received;
        var j :| 0 <= j < |c.received| && c.received[j] == i;
        assert Answered(c, c.received[j], true);
      }
    }
  }

  /** As many distinct workers as there are: all of them. */
  lemma {:induction false} EveryoneReceived<S(!new), V(!new)>(t: Task<S, V>, c: State)
    requires ValidTask(t) && Inv(t, c) && |c.received| >= |t.history|
    ensures forall i: nat | i < |t.history| :: i in c.received
  {
    hide EqualRespectsStep, Report, Honest;
    var all := c.received + c.drained + c.results;
    assert forall j | 0 <= j < |c.received| :: c.received[j] == all[j] && all[j] in all;
    DistinctSize(c.received);
    FullSet(Elems(c.received), |t.history|);
    forall i: nat | i < |t.history| ensures i in c.received { assert i in Elems(c.received); }
  }

  /** Every partial linearization that is returned, killed workers included, is duplicate-free
      and replays from the initial state with every step accepted; all workers have finished by
      the time they are read. */
  lemma {:induction false} PartialsReplay<S(!new), V(!new)>(t: Task<S, V>, run: seq<State>, i: nat, k: nat)
    requires ValidTask(t) && Run(t, run) && run[|run| - 1].phase == Done && t.computeInfo
    requires i < |t.history|
    ensures var c := run[|run| - 1];
      && i < |c.workers| && c.workers[i].Finished?
      && |c.workers[i].longest| == |HistoryOf(t.history[i])|
      && (k < |c.workers[i].longest| && c.workers[i].longest[k].Some? ==>
            var p := c.workers[i].longest[k].value;
            k in p && Distinct(p) && LegalPrefix(t.model, HistoryOf(t.history[i]), p))
  {
    hide Next, Linearizable, LongestPrefixes, LegalPrefix;
    var c := run[|run| - 1];
    RunInv(t, run);
    EveryoneFinished(t, c);
    assert Report(t.model, t.history[i], t.computeInfo, c.workers[i].ok, c.workers[i].longest, c.workers[i].killed);
    if k < |c.workers[i].longest| && c.workers[i].longest[k].Some? {
      LegalDistinct(t.model, HistoryOf(t.history[i]), c.workers[i].longest[k].value);
    }
  }

  ghost predicate TimesOutAt<S, V>(t: Task<S, V>, run: seq<State>, n: nat) {
    n + 1 < |run| && TimeOut(t, run[n], run[n + 1])
  }

  /** The kill flag is raised for two reasons: the time is up, or, where no partial results are
      wanted, a search has failed. */
  lemma {:induction false} KilledExactly<S(!new), V(!new)>(t: Task<S, V>, run: seq<State>)
    requires ValidTask(t) && Run(t, run)
    ensures var c := run[|run| - 1];
      && (c.kill <==> c.timedOut || (!c.ok && !t.computeInfo))
      && (c.timedOut <==> exists n: nat :: TimesOutAt(t, run, n))
    decreases |run|
  {
    if |run| > 1 {
      hide Next, TimesOutAt, TimeOut, ValidTask;
      var k := |run| - 2;
      var prefix := run[..k + 1];
      RunPrefix(t, run);
      KilledExactly(t, prefix);
      NextKill(t, run[k], run[k + 1]);
      TimesOutSplit(t, run, prefix);
    }
  }

  lemma {:induction false} TimesOutSplit<S, V>(t: Task<S, V>, run: seq<State>, prefix: seq<State>)
    requires |run| > 1 && prefix == run[..|run| - 1]
    ensures (exists n: nat :: TimesOutAt(t, run, n)) <==>
      (exists n: nat :: TimesOutAt(t, prefix, n)) || TimeOut(t, run[|run| - 2], run[|run| - 1])
  {
    hide TimeOut;
    var k := |run| - 2;
    if n: nat :| TimesOutAt(t, prefix, n) {
      assert TimesOutAt(t, run, n);
    }
    if n: nat :| TimesOutAt(t, run, n) {
      assert n < k ==> TimesOutAt(t, prefix, n);
    }
    assert TimeOut(t, run[k], run[k + 1]) ==> TimesOutAt(t, run, k);
  }

  lemma {:induction false} NextKill<S(!new), V(!new)>(t: Task<S, V>, c: State, c': State)
    requires ValidTask(t) && Next(t, c, c') && (c.kill <==> c.timedOut || (!c.ok && !t.computeInfo))
    ensures c'.kill <==> c'.timedOut || (!c'.ok && !t.computeInfo)
    ensures c'.timedOut <==> c.timedOut || TimeOut(t, c, c')
  {
    hide EqualRespectsStep, Report;
  }

  /** The verdict of a finished run, from the results that were counted: one failed search is
      enough for Illegal, also when the time is up afterwards. */
  lemma {:induction false} VerdictExactly<S(!new), V(!new)>(t: Task<S, V>, run: seq<State>)
    requires ValidTask(t) && Run(t, run)
    ensures var c := run[|run| - 1];
      && (Verdict(c) == Illegal <==> exists j | 0 <= j < |c.received| :: Answered(c, c.received[j], false))
      && (Verdict(c) == Unknown <==>
            c.timedOut && forall j | 0 <= j < |c.received| :: Answered(c, c.received[j], true))
      && (Verdict(c) == Ok <==>
            !c.timedOut && forall j | 0 <= j < |c.received| :: Answered(c, c.received[j], true))
  {
    hide Next, Report, EqualRespectsStep, Honest, Accounted, Progressed;
    RunInv(t, run);
  }

  /** What a worker reports that the kill flag stopped: for every operation, the first of the
      longest stacks with it that the search had backtracked from by then. */
  lemma {:induction false} KilledPartials<S(!new), V(!new)>(t: Task<S, V>, run: seq<State>, i: nat) returns (trail: seq<Spot<S>>)
    requires ValidTask(t) && Run(t, run) && run[|run| - 1].phase == Done && t.computeInfo
    requires i < |t.history| && i < |run[|run| - 1].workers|
    requires run[|run| - 1].workers[i].Finished? && run[|run| - 1].workers[i].killed
    ensures var w, es := run[|run| - 1].workers[i], t.history[i];
      && Chain(t.model, HistoryOf(es), es, true, trail)
      && |w.longest| == |HistoryOf(es)|
      && forall k | 0 <= k < |w.longest| :: FirstLongest(es, trail, |trail| - 1, k, w.longest[k])
  {
    hide Next, Inv, Report, Reached, Chain, FirstLongest, EqualRespectsStep;
    var c := run[|run| - 1];
    RunInv(t, run);
    KilledReached(t, c, i);
    trail := ReachedExactly(t.model, HistoryOf(t.history[i]), t.history[i], c.workers[i].longest);
  }

  lemma {:induction false} KilledReached<S(!new), V(!new)>(t: Task<S, V>, c: State, i: nat)
    requires ValidTask(t) && Inv(t, c) && i < |t.history| && i < |c.workers|
    requires c.workers[i].Finished? && c.workers[i].killed
    ensures Reached(t.model, HistoryOf(t.history[i]), t.history[i], t.computeInfo, c.workers[i].longest)
  {
    hide Reached, Linearizable, LongestPrefixes, LegalPrefix, PartialsLegal, EqualRespectsStep;
    assert Report(t.model, t.history[i], t.computeInfo, c.workers[i].ok, c.workers[i].longest, c.workers[i].killed);
  }

  lemma {:induction false} LegalDistinct<S, V>(m: Model<S, V>, h: History<V>, p: seq<nat>)
    requires LegalPrefix(m, h, p)
    ensures Distinct(p)
  {
  }

  lemma {:induction false} EveryoneFinished<S(!new), V(!new)>(t: Task<S, V>, c: State)
    requires ValidTask(t) && Inv(t, c) && |c.received| + |c.drained| >= |t.history|
    ensures |c.workers| == |t.history| && forall i: nat | i < |t.history| :: c.workers[i].Finished?
  {
    hide EqualRespectsStep, Report, Honest;
    var all := c.received + c.drained + c.results;
    assert forall j | 0 <= j < |all| :: all[j] in all;
    DistinctSize(all);
    FullSet(Elems(all), |t.history|);
    forall i: nat | i < |t.history| ensures c.workers[i].Finished? { assert i in Elems(all); assert i in all; }
  }

  // ----- every schedule comes to an end

  function RunningCount(workers: seq<Worker>): nat {
    if workers == [] then 0
    else RunningCount(workers[..|workers| - 1]) + if workers[|workers| - 1].Running? then 1 else 0
  }

  function PhaseRank(p: Phase): nat {
    match p case Collecting => 2 case Draining => 1 case Done => 0
  }

  /** How many more steps there can be. */
  function StepsLeft(c: State): nat {
    2 * RunningCount(c.workers) + |c.results| + PhaseRank(c.phase)
  }

  lemma {:induction false} OneLessRunning(workers: seq<Worker>, i: nat, w: Worker)
    requires i < |workers| && workers[i].Running? && w.Finished?
    ensures RunningCount(workers[i := w]) == RunningCount(workers) - 1
  {
    var k := |workers| - 1;
    var workers' := workers[i := w];
    if i == k {
      assert workers'[..k] == workers[..k];
    } else {
      assert workers'[..k] == workers[..k][i := w];
      OneLessRunning(workers[..k], i, w);
    }
  }

  lemma {:induction false} StepsRunOut<S(!new), V(!new)>(t: Task<S, V>, c: State, c': State)
    requires ValidTask(t) && Next(t, c, c')
    ensures StepsLeft(c') < StepsLeft(c)
  {
    hide EqualRespectsStep, Report, RunningCount, ValidTask, Finish, Receive;
    if i, w :| Finish(t, c, c', i, w) {
      FinishCounts(t, c, c', i, w);
    } else if Receive(t, c, c') {
      ReceiveCounts(t, c, c');
    }
  }

  lemma {:induction false} FinishCounts<S(!new), V(!new)>(t: Task<S, V>, c: State, c': State, i: nat, w: Worker)
    requires ValidTask(t) && Finish(t, c, c', i, w)
    ensures StepsLeft(c') < StepsLeft(c)
  {
    hide EqualRespectsStep, Report, RunningCount;
    OneLessRunning(c.workers, i, w);
  }

  lemma {:induction false} ReceiveCounts<S(!new), V(!new)>(t: Task<S, V>, c: State, c': State)
    requires Receive(t, c, c')
    ensures StepsLeft(c') < StepsLeft(c)
  {
    hide RunningCount;
  }

  lemma {:induction false} NothingInFlight<S(!new), V(!new)>(t: Task<S, V>, c: State)
    requires ValidTask(t) && Inv(t, c) && c.results == []
    requires forall i | 0 <= i < |c.workers| :: c.workers[i].Finished?
    ensures |c.received| + |c.drained| == |t.history|
  {
    hide EqualRespectsStep, Report, Honest;
    var all := c.received + c.drained + c.results;
    assert forall j | 0 <= j < |all| :: all[j] in all;
    DistinctSize(all);
    FullSet(Elems(all), |t.history|);
    forall i: nat | i < |t.history| ensures i in Elems(all) { assert i in all; }
  }

  /** Without partitions no result ever arrives: only a timeout can end the call, and then the
      verdict is unknown. */
  lemma {:induction false} NoPartitions<S(!new), V(!new)>(t: Task<S, V>, run: seq<State>)
    requires ValidTask(t) && Run(t, run) && t.history == []
    ensures run[|run| - 1].phase == Done ==> t.hasTimeout && Verdict(run[|run| - 1]) == Unknown
    ensures !t.hasTimeout ==> run == [Init(t)]
  {
    hide EqualRespectsStep, Report;
    var c := run[|run| - 1];
    RunInv(t, run);
    assert c.received == [] || Answered(c, c.received[0], true) || Answered(c, c.received[0], false);
    if |run| > 1 {
      assert Next(t, run[0], run[1]);
    }
  }
}
